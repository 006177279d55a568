/** The entity tags of notes and of note listings, as printed, and what they determine. */
module Validators {
  import opened Wrappers
  import opened NotesStore
  import opened Paging

  type u32 = x: int | 0 <= x < 0x1_0000_0000

  /** Case folding, CRC-32, and the first four bytes of SHA-256 as one big-endian number. */
  datatype Sums = Sums(lower: string -> string, crc: string -> u32, sha4: string -> u32)

  // ----- Printing -----

  predicate IsDigit(c: char) { '0' <= c <= '9' }

  function Digits(n: nat): (s: string)
    ensures s != [] && forall i | 0 <= i < |s| :: IsDigit(s[i])
  {
    var d := "0123456789"[n % 10];
    if n < 10 then [d] else Digits(n / 10) + [d]
  }

  /** `%d`. */
  function Dec(n: int): string {
    if n < 0 then "-" + Digits(-n) else Digits(n)
  }

  /** `%0wx` of a number that fits in `w` hexadecimal digits. */
  function Hex(n: nat, w: nat): (s: string)
    ensures |s| == w
  {
    if w == 0 then "" else Hex(n / 16, w - 1) + ["0123456789abcdef"[n % 16]]
  }

  function MaxId(items: seq<Note>): int {
    if items == [] then 0
    else
      var m := MaxId(items[..|items| - 1]);
      if items[|items| - 1].id > m then items[|items| - 1].id else m
  }

  /** Each number followed by a hyphen, then the checksum and the closing quote. */
  function Fields(ns: seq<int>, sum: u32): string {
    if ns == [] then Hex(sum, 8) + "\"" else Dec(ns[0]) + "-" + Fields(ns[1..], sum)
  }

  const COLL_PREFIX := "W/\"notes-"

  const NOTE_PREFIX := "W/\"n-"

  function CollTag(sums: Sums, page: int, size: int, q: string, sort: string, items: seq<Note>): string {
    COLL_PREFIX + Fields([MaxId(items), |items|, page, size], sums.crc(sums.lower(q) + "|" + sort))
  }

  /** `collETag`. */
  method CollETag(sums: Sums, page: int, size: int, q: string, sort: string, items: seq<Note>) returns (tag: string)
    ensures tag == CollTag(sums, page, size, q, sort, items)
  {
    var maxId := 0;
    for i := 0 to |items|
      invariant maxId == MaxId(items[..i])
    {
      assert items[..i + 1][..i] == items[..i];
      if items[i].id > maxId {
        maxId := items[i].id;
      }
    }
    assert items[..|items|] == items;
    var sum := sums.crc(sums.lower(q) + "|" + sort);
    tag := COLL_PREFIX + Fields([maxId, |items|, page, size], sum);
  }

  /** Go's zero time, year 1, in Unix seconds. */
  const ZERO_TIME := -62135596800

  function Stamp(n: Note): int {
    if n.updatedAt == ZERO_TIME then n.createdAt else n.updatedAt
  }

  /** `noteETag`. */
  function NoteTag(sums: Sums, n: Note): string {
    NOTE_PREFIX + Fields([n.id, Stamp(n)], sums.sha4(n.title + "|" + n.body))
  }

  // ----- Reading back -----

  function DigitsValue(s: string): int {
    if s == [] then 0
    else DigitsValue(s[..|s| - 1]) * 10 + (s[|s| - 1] as int - '0' as int)
  }

  function HexValue(s: string): int {
    if s == [] then 0
    else
      var c := s[|s| - 1];
      HexValue(s[..|s| - 1]) * 16 + HexDigitValue(c)
  }

  function DigitRun(s: string): (k: nat)
    ensures k <= |s|
    ensures forall i | 0 <= i < k :: IsDigit(s[i])
    ensures k < |s| ==> !IsDigit(s[k])
  {
    if s != [] && IsDigit(s[0]) then 1 + DigitRun(s[1..]) else 0
  }

  /** A decimal number followed by a hyphen, and what comes after. */
  function ReadField(s: string): Option<(int, string)> {
    var negative := s != [] && s[0] == '-';
    var t := if negative then s[1..] else s;
    var k := DigitRun(t);
    if k == 0 || k == |t| || t[k] != '-' then None
    else Some((if negative then -DigitsValue(t[..k]) else DigitsValue(t[..k]), t[k + 1..]))
  }

  /** Eight hexadecimal digits and the closing quote. */
  function ReadSum(s: string): Option<int> {
    if |s| == 9 && s[8] == '"' then Some(HexValue(s[..8])) else None
  }

  function ReadFields(s: string, count: nat): Option<(seq<int>, int)> {
    if count == 0 then
      (match ReadSum(s)
       case None => None
       case Some(sum) => Some(([], sum)))
    else match ReadField(s)
      case None => None
      case Some((n, rest)) =>
        match ReadFields(rest, count - 1)
        case None => None
        case Some((ns, sum)) => Some(([n] + ns, sum))
  }

  /** The numbers of a tag with a known prefix and a known count of fields. */
  function ReadTag(prefix: string, count: nat, s: string): Option<(seq<int>, int)> {
    if prefix <= s then ReadFields(s[|prefix|..], count) else None
  }

  lemma {:induction false} DigitsReadBack(n: nat)
    ensures DigitsValue(Digits(n)) == n
  {
    if n >= 10 {
      DigitsReadBack(n / 10);
      assert Digits(n)[..|Digits(n)| - 1] == Digits(n / 10);
    } else {
      assert Digits(n)[..0] == [];
    }
  }

  function HexDigitValue(c: char): int {
    if IsDigit(c) then c as int - '0' as int else c as int - 'a' as int + 10
  }

  lemma HexDigitReadsBack(d: nat)
    requires d < 16
    ensures HexDigitValue("0123456789abcdef"[d]) == d
  {
  }

  lemma LastHexDigit(n: nat, w: nat)
    requires w > 0
    ensures HexValue(Hex(n, w)) == 16 * HexValue(Hex(n / 16, w - 1)) + n % 16
  {
    assert Hex(n, w)[..w - 1] == Hex(n / 16, w - 1);
    HexDigitReadsBack(n % 16);
  }

  lemma {:induction false} HexReadsBack(n: nat, w: nat)
    requires n < Power16(w)
    ensures HexValue(Hex(n, w)) == n
  {
    if w > 0 {
      HexReadsBack(n / 16, w - 1);
      LastHexDigit(n, w);
    }
  }

  function Power16(w: nat): nat { if w == 0 then 1 else 16 * Power16(w - 1) }

  lemma {:induction false} RunOfDigits(digits: string, rest: string)
    requires forall i | 0 <= i < |digits| :: IsDigit(digits[i])
    requires rest != [] && !IsDigit(rest[0])
    ensures DigitRun(digits + rest) == |digits|
  {
    var s := digits + rest;
    assert s[|digits|] == rest[0];
    assert forall i | 0 <= i < |digits| :: s[i] == digits[i];
  }

  lemma DigitsThenHyphen(n: nat, rest: string)
    ensures var s, k := Digits(n) + "-" + rest, |Digits(n)|;
            && DigitRun(s) == k && k < |s| && s[k] == '-' && s[..k] == Digits(n) && s[k + 1..] == rest
  {
    var tail := "-" + rest;
    assert Digits(n) + "-" + rest == Digits(n) + tail;
    RunOfDigits(Digits(n), tail);
  }

  lemma PositiveFieldReadsBack(n: int, rest: string, s: string)
    requires n >= 0 && s == Digits(n) + "-" + rest
    ensures ReadField(s) == Some((n, rest))
  {
    DigitsThenHyphen(n, rest);
    DigitsReadBack(n);
    assert IsDigit(s[0]);
  }

  lemma NegativeFieldReadsBack(n: int, rest: string, t: string, s: string)
    requires n >= 0 && t == Digits(n) + "-" + rest && s == "-" + t
    ensures ReadField(s) == Some((-n, rest))
  {
    DigitsThenHyphen(n, rest);
    DigitsReadBack(n);
    assert s[0] == '-' && s[1..] == t;
  }

  lemma SignFirst(n: int, rest: string)
    requires n < 0
    ensures Dec(n) + "-" + rest == "-" + (Digits(-n) + "-" + rest)
  {
  }

  lemma FieldReadsBack(n: int, rest: string)
    ensures ReadField(Dec(n) + "-" + rest) == Some((n, rest))
  {
    var s := Dec(n) + "-" + rest;
    if n >= 0 {
      PositiveFieldReadsBack(n, rest, s);
    } else {
      SignFirst(n, rest);
      NegativeFieldReadsBack(-n, rest, Digits(-n) + "-" + rest, s);
    }
  }

  lemma SumReadsBack(n: u32)
    ensures ReadSum(Hex(n, 8) + "\"") == Some(n)
  {
    assert Power16(8) == 0x1_0000_0000 by {
      assert Power16(4) == 0x1_0000;
    }
    HexReadsBack(n, 8);
    assert (Hex(n, 8) + "\"")[..8] == Hex(n, 8);
  }

  lemma OneFieldMore(n: int, rest: string, ns: seq<int>, sum: int)
    requires ReadFields(rest, |ns|) == Some((ns, sum))
    ensures ReadFields(Dec(n) + "-" + rest, |ns| + 1) == Some(([n] + ns, sum))
  {
    FieldReadsBack(n, rest);
  }

  lemma {:induction false} FieldsReadBack(ns: seq<int>, sum: u32)
    ensures ReadFields(Fields(ns, sum), |ns|) == Some((ns, sum))
  {
    if ns == [] {
      SumReadsBack(sum);
    } else {
      FieldsReadBack(ns[1..], sum);
      OneFieldMore(ns[0], Fields(ns[1..], sum), ns[1..], sum);
      assert ns == [ns[0]] + ns[1..];
    }
  }

  lemma TagReadsBack(prefix: string, ns: seq<int>, sum: u32)
    ensures ReadTag(prefix, |ns|, prefix + Fields(ns, sum)) == Some((ns, sum))
  {
    FieldsReadBack(ns, sum);
    assert (prefix + Fields(ns, sum))[|prefix|..] == Fields(ns, sum);
  }

  /** Printed numbers have no leading zeros. */
  lemma {:induction false} NoLeadingZero(n: nat)
    ensures n > 0 ==> Digits(n)[0] != '0'
  {
    if n >= 10 {
      NoLeadingZero(n / 10);
    }
  }

  /** The largest id, or 0 if there is none above it. */
  lemma {:induction false} MaxIdIsMax(items: seq<Note>)
    ensures MaxId(items) >= 0 && forall n | n in items :: n.id <= MaxId(items)
    ensures MaxId(items) > 0 ==> exists n :: n in items && n.id == MaxId(items)
  {
    if items != [] {
      MaxIdIsMax(items[..|items| - 1]);
      assert items == items[..|items| - 1] + [items[|items| - 1]];
    }
  }

  /**
    The printed tag of a note determines its id, the second of its change (or, for the zero
    time of the year 1, of its creation) and its digest prefix.
   */
  lemma NoteTagReadsBack(sums: Sums, n: Note)
    ensures var second := if n.updatedAt == -62135596800 then n.createdAt else n.updatedAt;
            ReadTag("W/\"n-", 2, NoteTag(sums, n)) == Some(([n.id, second], sums.sha4(n.title + "|" + n.body)))
  {
    TagReadsBack(NOTE_PREFIX, [n.id, Stamp(n)], sums.sha4(n.title + "|" + n.body));
  }

  /** The printed tag of a listing determines its five fields. */
  lemma CollTagReadsBack(sums: Sums, page: int, size: int, q: string, sort: string, items: seq<Note>)
    ensures ReadTag("W/\"notes-", 4, CollTag(sums, page, size, q, sort, items))
            == Some(([MaxId(items), |items|, page, size], sums.crc(sums.lower(q) + "|" + sort)))
  {
    TagReadsBack(COLL_PREFIX, [MaxId(items), |items|, page, size], sums.crc(sums.lower(q) + "|" + sort));
  }

  /** Equal tags of two notes: same note, same second, same digest prefix. */
  lemma EqualNoteTags(sums: Sums, a: Note, b: Note)
    requires NoteTag(sums, a) == NoteTag(sums, b)
    ensures a.id == b.id
    ensures (if a.updatedAt == -62135596800 then a.createdAt else a.updatedAt)
            == (if b.updatedAt == -62135596800 then b.createdAt else b.updatedAt)
    ensures sums.sha4(a.title + "|" + a.body) == sums.sha4(b.title + "|" + b.body)
  {
    NoteTagReadsBack(sums, a);
    NoteTagReadsBack(sums, b);
    assert [a.id, Stamp(a)][0] == [b.id, Stamp(b)][0] && [a.id, Stamp(a)][1] == [b.id, Stamp(b)][1];
  }

  // ----- The listing tag over histories of creations -----

  /** Only creations, by any users. */
  ghost predicate OnlyCreates(ss: seq<Statement>) {
    forall s | s in ss :: s.Insert?
  }

  lemma {:induction false} CreatesOnlyAdd(t: Table, ss: seq<Statement>)
    requires WellFormed(t) && OnlyCreates(ss)
    ensures var u := Run(t, ss);
            && WellFormed(u)
            && (forall id | id in t.rows :: id in u.rows && u.rows[id] == t.rows[id])
            && (forall id | id in u.rows && id !in t.rows :: id >= t.nextId)
    decreases ss
  {
    if ss != [] {
      assert ss[0] in ss;
      var t1 := Exec(t, ss[0]);
      forall s | s in ss[1..] ensures s.Insert? { assert s in ss; }
      CreatesOnlyAdd(t1, ss[1..]);
    }
  }

  /** Matching notes grow by notes whose ids are larger than any before. */
  ghost predicate GrownBy(earlier: set<Note>, later: set<Note>, bound: int) {
    && earlier <= later
    && (forall n | n in earlier :: 0 < n.id < bound)
    && (forall n | n in later && n !in earlier :: n.id >= bound)
  }

  lemma CreatesGrowMatching(c: Collation, t: Table, ss: seq<Statement>, uid: int, q: string)
    requires WellFormed(t) && OnlyCreates(ss)
    ensures GrownBy(Matching(c, t, uid, q), Matching(c, Run(t, ss), uid, q), t.nextId)
  {
    CreatesOnlyAdd(t, ss);
  }

  /** How many of the newest-first notes are new. */
  function NewOnes(s: seq<Note>, bound: int): (k: nat)
    ensures k <= |s| && (forall i | 0 <= i < k :: s[i].id >= bound) && (k < |s| ==> s[k].id < bound)
  {
    if s != [] && s[0].id >= bound then 1 + NewOnes(s[1..], bound) else 0
  }

  lemma NothingNew(c: Collation, earlier: set<Note>, later: set<Note>, bound: int, u: seq<Note>)
    requires GrownBy(earlier, later, bound) && SortedPermutation(c, NewestFirst, later, u)
    requires u != [] ==> u[0].id < bound
    ensures later == earlier
  {
    forall n | n in later ensures n in earlier {
      var i :| 0 <= i < |u| && u[i] == n;
      assert i > 0 ==> !Before(c, NewestFirst, u[i], u[0]);
    }
  }

  /** Listed newest first, the grown set is the new notes followed by the old listing. */
  lemma {:induction false} NewNotesComeFirst(c: Collation, earlier: set<Note>, later: set<Note>, bound: int,
                                             s: seq<Note>, u: seq<Note>)
    requires GrownBy(earlier, later, bound) && NoTies(c, NewestFirst, earlier)
    requires SortedPermutation(c, NewestFirst, earlier, s) && SortedPermutation(c, NewestFirst, later, u)
    ensures u[NewOnes(u, bound)..] == s
    decreases u
  {
    if u != [] && u[0].id >= bound {
      RestIsSorted(c, NewestFirst, later, u);
      NewNotesComeFirst(c, earlier, later - {u[0]}, bound, s, u[1..]);
      assert u[1..][NewOnes(u[1..], bound)..] == u[NewOnes(u, bound)..];
    } else {
      NothingNew(c, earlier, later, bound, u);
      OrderIsUnique(c, NewestFirst, earlier, s, u);
      assert u[0..] == u;
    }
  }

  /** The largest id of a newest-first page is its first. */
  lemma {:induction false} MaxIsFirst(items: seq<Note>)
    requires items != [] && items[0].id > 0 && forall i, j | 0 <= i < j < |items| :: items[i].id > items[j].id
    ensures MaxId(items) == items[0].id
  {
    var n := |items| - 1;
    if n > 0 {
      MaxIsFirst(items[..n]);
    } else {
      assert items[..0] == [];
    }
  }

  lemma NewestFirstIsDescending(c: Collation, notes: set<Note>, s: seq<Note>)
    requires NoTies(c, NewestFirst, notes) && SortedPermutation(c, NewestFirst, notes, s)
    ensures forall i, j | 0 <= i < j < |s| :: s[i].id > s[j].id
  {
    forall i, j | 0 <= i < j < |s| ensures s[i].id > s[j].id {
      assert s[i] in notes && s[j] in notes && s[i] != s[j];
    }
  }

  lemma ShiftedPageDiffers(u: seq<Note>, k: nat, offset: nat, size: nat)
    requires forall i, j | 0 <= i < j < |u| :: u[i].id > u[j].id
    requires forall n | n in u :: n.id > 0
    requires 0 < k <= |u| && size > 0
    requires MaxId(Slice(u[k..], offset, size)) == MaxId(Slice(u, offset, size))
    requires |Slice(u[k..], offset, size)| == |Slice(u, offset, size)|
    ensures Slice(u, offset, size) == [] == Slice(u[k..], offset, size)
  {
    var p, q := Slice(u[k..], offset, size), Slice(u, offset, size);
    if q != [] {
      assert p[0] == u[k + offset] && q[0] == u[offset];
      MaxIsFirst(p);
      MaxIsFirst(q);
    }
  }

  /**
    With the default sort, if only creations happen between two listings of the same page, an
    unchanged tag means an unchanged page.
   */
  lemma EqualCollTags(c: Collation, sums: Sums, t: Table, ss: seq<Statement>, uid: int, page: int, size: int,
                      q: string, sort: string, before: Listing, after: Listing)
    requires WellFormed(t) && OnlyCreates(ss) && SanitizeSort(sort).NewestFirst?
    requires MayAnswer(c, t, uid, page, size, q, sort, before)
    requires MayAnswer(c, Run(t, ss), uid, page, size, q, sort, after)
    requires before.Listed? && after.Listed?
    requires CollTag(sums, ClampPage(page), ClampSize(size), q, sort, before.items)
             == CollTag(sums, ClampPage(page), ClampSize(size), q, sort, after.items)
    ensures before.items == after.items
  {
    var p, z := ClampPage(page), ClampSize(size);
    EqualFields(sums, p, z, q, sort, before.items, after.items);
    var earlier, later := Matching(c, t, uid, q), Matching(c, Run(t, ss), uid, q);
    var offset := Offset64(p, z);
    var s :| SortedPermutation(c, NewestFirst, earlier, s) && before.items == Slice(s, offset, z);
    var u :| SortedPermutation(c, NewestFirst, later, u) && after.items == Slice(u, offset, z);
    RunKeepsWellFormed(t, ss);
    WhenSortsTie(c, t, uid, q, NewestFirst);
    WhenSortsTie(c, Run(t, ss), uid, q, NewestFirst);
    CreatesGrowMatching(c, t, ss, uid, q);
    SamePage(c, earlier, later, t.nextId, s, u, offset, z);
  }

  lemma EqualFields(sums: Sums, p: int, z: int, q: string, sort: string, a: seq<Note>, b: seq<Note>)
    requires CollTag(sums, p, z, q, sort, a) == CollTag(sums, p, z, q, sort, b)
    ensures MaxId(a) == MaxId(b) && |a| == |b|
  {
    CollTagReadsBack(sums, p, z, q, sort, a);
    CollTagReadsBack(sums, p, z, q, sort, b);
    assert [MaxId(a), |a|, p, z][0] == [MaxId(b), |b|, p, z][0] && [MaxId(a), |a|, p, z][1] == [MaxId(b), |b|, p, z][1];
  }

  lemma SamePage(c: Collation, earlier: set<Note>, later: set<Note>, bound: int, s: seq<Note>, u: seq<Note>,
                 offset: nat, size: nat)
    requires GrownBy(earlier, later, bound) && NoTies(c, NewestFirst, earlier) && NoTies(c, NewestFirst, later)
    requires SortedPermutation(c, NewestFirst, earlier, s) && SortedPermutation(c, NewestFirst, later, u)
    requires size > 0 && bound > 0
    requires MaxId(Slice(s, offset, size)) == MaxId(Slice(u, offset, size))
    requires |Slice(s, offset, size)| == |Slice(u, offset, size)|
    ensures Slice(s, offset, size) == Slice(u, offset, size)
  {
    var k := NewOnes(u, bound);
    NewNotesComeFirst(c, earlier, later, bound, s, u);
    if k == 0 {
      assert u[0..] == u;
    } else {
      NewestFirstIsDescending(c, later, u);
      forall n | n in u ensures n.id > 0 { assert n in later; }
      ShiftedPageDiffers(u, k, offset, size);
    }
  }

  // ----- The list handler -----

  datatype ListReply =
    | NotModified
    | Page(etag: string, items: seq<Note>, total: int, page: int, size: int)
    | Failed

  /** `list`: 304 exactly when the client's tag is the page's tag. */
  method List(c: Collation, sums: Sums, t: Table, uid: int, page: int, size: int, q: string, sort: string,
              ifNoneMatch: string, chosen: seq<Note>, countOk: bool, queryOk: bool) returns (reply: ListReply)
    requires SortedPermutation(c, SanitizeSort(sort), Matching(c, t, uid, q), chosen)
    ensures !countOk || !queryOk ==> reply == Failed
    ensures countOk && queryOk ==>
              exists r: Listing :: MayAnswer(c, t, uid, ClampPage(page), ClampSize(size), q, sort, r)
                && reply == if r.DbError? then Failed
                            else var tag := CollTag(sums, ClampPage(page), ClampSize(size), q, sort, r.items);
                                 if ifNoneMatch != "" && ifNoneMatch == tag then NotModified
                                 else Page(tag, r.items, r.total, ClampPage(page), ClampSize(size))
    ensures reply.Page? ==>
              && reply.page == (if page < 1 then 1 else page)
              && reply.size == (if size < 1 || size > 100 then 20 else size) && |reply.items| <= reply.size
    ensures reply.Page? && WellFormed(t) ==>
              && ItemsAreShown(c, t, uid, q, reply.items) && ItemsAreSorted(c, sort, reply.items)
              && reply.total == |set id | id in t.rows && Shown(c, t, uid, q, id)|
  {
    var p, z := page, size;
    if p < 1 { p := 1; }
    if z < 1 || z > 100 { z := 20; }
    var r := ListFiltered(c, t, uid, p, z, q, sort, chosen, countOk, queryOk);
    if r.DbError? { return Failed; }
    var tag := CollETag(sums, p, z, q, sort, r.items);
    if ifNoneMatch != "" && ifNoneMatch == tag { return NotModified; }
    return Page(tag, r.items, r.total, p, z);
  }
}
