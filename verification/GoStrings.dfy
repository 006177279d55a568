/**
  The parts of Go's `strings` package that the key loaders and the note handlers
  use.  A string is a sequence of code points.
 */
module GoStrings {

  /** White space as `unicode.IsSpace` defines it. */
  predicate IsSpace(c: char) {
    || '\t' <= c <= '\r' || c == ' ' || c == '\U{0085}' || c == '\U{00A0}' || c == '\U{1680}'
    || '\U{2000}' <= c <= '\U{200A}' || c == '\U{2028}' || c == '\U{2029}' || c == '\U{202F}'
    || c == '\U{205F}' || c == '\U{3000}'
  }

  /** The 25 code points of Unicode's White_Space property. */
  lemma SpacesAreWhiteSpace(c: char)
    ensures IsSpace(c) <==>
              c as int in [9, 10, 11, 12, 13, 32, 0x85, 0xA0, 0x1680,
                           0x2000, 0x2001, 0x2002, 0x2003, 0x2004, 0x2005, 0x2006, 0x2007, 0x2008, 0x2009, 0x200A,
                           0x2028, 0x2029, 0x202F, 0x205F, 0x3000]
  {
  }

  function TrimLeft(s: string): string {
    if s != [] && IsSpace(s[0]) then TrimLeft(s[1..]) else s
  }

  function TrimRight(s: string): string {
    if s != [] && IsSpace(s[|s| - 1]) then TrimRight(s[..|s| - 1]) else s
  }

  function TrimSpace(s: string): string {
    TrimRight(TrimLeft(s))
  }

  predicate AllSpace(s: string) {
    forall i | 0 <= i < |s| :: IsSpace(s[i])
  }

  predicate Trimmed(s: string) {
    s != [] ==> !IsSpace(s[0]) && !IsSpace(s[|s| - 1])
  }

  /** `parts` with `c` put before the first one. */
  function AddToFirst(c: char, parts: seq<string>): seq<string>
    requires parts != []
  {
    [[c] + parts[0]] + parts[1..]
  }

  /** The pieces of `s` between occurrences of `sep`; always at least one piece. */
  function Split(s: string, sep: char): (parts: seq<string>)
    ensures parts != []
  {
    if s == [] then [[]]
    else
      var rest := Split(s[1..], sep);
      if s[0] == sep then [[]] + rest else AddToFirst(s[0], rest)
  }

  function Join(parts: seq<string>, sep: char): string {
    if parts == [] then []
    else if |parts| == 1 then parts[0]
    else parts[0] + [sep] + Join(parts[1..], sep)
  }

  /** Position of the first `c` in `s`, or -1. */
  function Index(s: string, c: char): (i: int)
    ensures -1 <= i < |s|
    ensures i == -1 <==> c !in s
    ensures 0 <= i ==> s[i] == c && c !in s[..i]
  {
    if s == [] then -1
    else if s[0] == c then 0
    else
      var i := Index(s[1..], c);
      assert i >= 0 ==> s[..i + 1] == [s[0]] + s[1..][..i];
      if i == -1 then -1 else i + 1
  }

  /** `strings.SplitN(s, sep, 2)`. */
  function SplitN2(s: string, sep: char): seq<string> {
    var i := Index(s, sep);
    if i == -1 then [s] else [s[..i], s[i + 1..]]
  }

  function TrimAll(parts: seq<string>): (trimmed: seq<string>)
    ensures |trimmed| == |parts|
    ensures forall i | 0 <= i < |parts| :: trimmed[i] == TrimSpace(parts[i])
  {
    if parts == [] then [] else [TrimSpace(parts[0])] + TrimAll(parts[1..])
  }

  // ----- What TrimSpace means -----

  lemma Prepend(s: string, left: string, rest: string)
    requires s != [] && s[1..] == left + rest && (AllSpace(left) && IsSpace(s[0]))
    ensures s == ([s[0]] + left) + rest && AllSpace([s[0]] + left)
  {
    assert s == [s[0]] + s[1..];
  }

  lemma {:induction false} TrimLeftDecomposes(s: string) returns (left: string)
    ensures s == left + TrimLeft(s) && AllSpace(left)
    ensures TrimLeft(s) != [] ==> !IsSpace(TrimLeft(s)[0])
  {
    if s != [] && IsSpace(s[0]) {
      var l := TrimLeftDecomposes(s[1..]);
      left := [s[0]] + l;
      Prepend(s, l, TrimLeft(s[1..]));
    } else {
      left := [];
    }
  }

  lemma {:induction false} TrimRightDecomposes(s: string) returns (right: string)
    ensures s == TrimRight(s) + right && AllSpace(right)
    ensures TrimRight(s) != [] ==> !IsSpace(TrimRight(s)[|TrimRight(s)| - 1])
  {
    if s != [] && IsSpace(s[|s| - 1]) {
      var r := TrimRightDecomposes(s[..|s| - 1]);
      right := r + [s[|s| - 1]];
    } else {
      right := [];
    }
  }

  /** Trimming removes white space at both ends and nothing else. */
  lemma TrimSpaceDecomposes(s: string) returns (left: string, right: string)
    ensures s == left + TrimSpace(s) + right
    ensures AllSpace(left) && AllSpace(right) && Trimmed(TrimSpace(s))
  {
    left := TrimLeftDecomposes(s);
    right := TrimRightDecomposes(TrimLeft(s));
  }

  lemma TrimmedIsFixed(s: string)
    requires Trimmed(s)
    ensures TrimSpace(s) == s
  {
  }

  lemma {:induction false} TrimIgnoresTrailing(s: string, c: char)
    requires IsSpace(c)
    ensures TrimSpace(s + [c]) == TrimSpace(s)
  {
    TrimLeftOfSuffix(s, c);
    if TrimLeft(s) != [] {
      assert (TrimLeft(s) + [c])[..|TrimLeft(s)|] == TrimLeft(s);
    }
  }

  lemma {:induction false} TrimLeftOfSuffix(s: string, c: char)
    requires IsSpace(c)
    ensures TrimLeft(s + [c]) == if TrimLeft(s) == [] then [] else TrimLeft(s) + [c]
  {
    if s == [] {
      assert TrimLeft([c]) == TrimLeft([c][1..]);
    } else {
      assert (s + [c])[1..] == s[1..] + [c];
      TrimLeftOfSuffix(s[1..], c);
    }
  }

  // ----- What Split means: the inverse of Join on pieces free of the separator -----

  lemma JoinOneMore(c: char, parts: seq<string>, sep: char)
    requires parts != []
    ensures Join(AddToFirst(c, parts), sep) == [c] + Join(parts, sep)
    ensures Join([[]] + parts, sep) == [sep] + Join(parts, sep)
  {
    assert AddToFirst(c, parts)[1..] == parts[1..];
    assert ([[]] + parts)[1..] == parts;
    if |parts| > 1 {
      var rest := [sep] + Join(parts[1..], sep);
      assert [c] + parts[0] + rest == [c] + (parts[0] + rest);
    }
  }

  lemma {:induction false} SplitThenJoin(s: string, sep: char)
    ensures Join(Split(s, sep), sep) == s
  {
    if s != [] {
      SplitThenJoin(s[1..], sep);
      JoinOneMore(s[0], Split(s[1..], sep), sep);
      assert s == [s[0]] + s[1..];
    }
  }

  lemma {:induction false} PiecesAreFree(s: string, sep: char)
    ensures forall p | p in Split(s, sep) :: sep !in p
  {
    if s != [] {
      PiecesAreFree(s[1..], sep);
      var rest := Split(s[1..], sep);
      assert rest[0] in rest;
      forall p | p in AddToFirst(s[0], rest) ensures s[0] != sep ==> sep !in p {
        assert p == [s[0]] + rest[0] || p in rest;
      }
    }
  }

  lemma {:induction false} SplitSingle(s: string, sep: char)
    requires sep !in s
    ensures Split(s, sep) == [s]
  {
    if s != [] {
      SplitSingle(s[1..], sep);
      assert [s[0]] + s[1..] == s;
    }
  }

  /** Splitting distributes over a separator in the middle. */
  lemma {:induction false} SplitAppend(a: string, sep: char, b: string)
    ensures Split(a + [sep] + b, sep) == Split(a, sep) + Split(b, sep)
  {
    var whole := a + [sep] + b;
    if a == [] {
      assert whole[1..] == b;
    } else {
      assert whole[1..] == a[1..] + [sep] + b;
      SplitAppend(a[1..], sep, b);
    }
  }

  /** `parts` with `c` added to the last one. */
  function AddToLast(parts: seq<string>, c: char): seq<string>
    requires parts != []
  {
    parts[|parts| - 1 := parts[|parts| - 1] + [c]]
  }

  lemma AddToEnds(x: char, parts: seq<string>, c: char)
    requires parts != []
    ensures AddToFirst(x, AddToLast(parts, c)) == AddToLast(AddToFirst(x, parts), c)
    ensures [[]] + AddToLast(parts, c) == AddToLast([[]] + parts, c)
  {
    if |parts| == 1 {
      assert [x] + (parts[0] + [c]) == [x] + parts[0] + [c];
    }
  }

  lemma {:induction false} SplitOfSuffix(s: string, sep: char, c: char)
    requires c != sep
    ensures Split(s + [c], sep) == AddToLast(Split(s, sep), c)
  {
    if s == [] {
      SplitSingle([c], sep);
      assert s + [c] == [c];
    } else {
      assert (s + [c])[1..] == s[1..] + [c] && (s + [c])[0] == s[0];
      SplitOfSuffix(s[1..], sep, c);
      AddToEnds(s[0], Split(s[1..], sep), c);
    }
  }

  // ----- Trimming the whole list first changes no trimmed piece -----

  lemma {:induction false} SplitTrimLeft(s: string, sep: char)
    requires !IsSpace(sep)
    ensures TrimAll(Split(TrimLeft(s), sep)) == TrimAll(Split(s, sep))
  {
    if s != [] && IsSpace(s[0]) {
      SplitTrimLeft(s[1..], sep);
      var rest := Split(s[1..], sep);
      assert ([s[0]] + rest[0])[1..] == rest[0];
    }
  }

  lemma TrimAllIgnoresTrailing(parts: seq<string>, c: char)
    requires parts != [] && IsSpace(c)
    ensures TrimAll(AddToLast(parts, c)) == TrimAll(parts)
  {
    TrimIgnoresTrailing(parts[|parts| - 1], c);
    var a, b := TrimAll(AddToLast(parts, c)), TrimAll(parts);
    assert forall i | 0 <= i < |parts| :: a[i] == b[i];
  }

  lemma {:induction false} SplitTrimRight(s: string, sep: char)
    requires !IsSpace(sep)
    ensures TrimAll(Split(TrimRight(s), sep)) == TrimAll(Split(s, sep))
  {
    if s != [] && IsSpace(s[|s| - 1]) {
      var t, c := s[..|s| - 1], s[|s| - 1];
      assert s == t + [c];
      SplitTrimRight(t, sep);
      SplitOfSuffix(t, sep, c);
      TrimAllIgnoresTrailing(Split(t, sep), c);
    }
  }

  lemma SplitTrimSpace(s: string, sep: char)
    requires !IsSpace(sep)
    ensures TrimAll(Split(TrimSpace(s), sep)) == TrimAll(Split(s, sep))
  {
    SplitTrimLeft(s, sep);
    SplitTrimRight(TrimLeft(s), sep);
  }
}
