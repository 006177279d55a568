/** Listing notes: filtering, ordering and paging of `repos.Notes.ListFiltered`. */
module Paging {
  import opened Arithmetic
  import opened NotesStore

  /** The column collation: the sort weight of a title, and LIKE. */
  datatype Collation = Collation(weight: string -> real, like: (string, string) -> bool)

  datatype Order = OldestFirst | ByTitle | UpdatedFirst | NewestFirst

  function SanitizeSort(s: string): Order {
    if s == "oldest" then OldestFirst
    else if s == "title" then ByTitle
    else if s == "updated" then UpdatedFirst
    else NewestFirst
  }

  predicate Matches(c: Collation, uid: int, q: string, n: Note) {
    && n.userId == uid && n.deletedAt.None?
    && (q == "" || c.like("%" + q + "%", n.title) || c.like("%" + q + "%", n.body))
  }

  function Matching(c: Collation, t: Table, uid: int, q: string): set<Note> {
    set id | id in t.rows && Matches(c, uid, q, t.rows[id]) :: t.rows[id]
  }

  /** ORDER BY puts `a` strictly before `b`. */
  predicate Before(c: Collation, order: Order, a: Note, b: Note) {
    match order
    case OldestFirst => a.createdAt < b.createdAt
    case UpdatedFirst => a.updatedAt > b.updatedAt
    case ByTitle => c.weight(a.title) < c.weight(b.title) || (c.weight(a.title) == c.weight(b.title) && a.id > b.id)
    case NewestFirst => a.id > b.id
  }

  /** A result order that the database may choose: rows that tie may come either way. */
  ghost predicate SortedPermutation(c: Collation, order: Order, notes: set<Note>, s: seq<Note>) {
    && (forall n :: n in notes <==> n in s)
    && (forall i, j | 0 <= i < j < |s| :: s[i] != s[j])
    && (forall i, j | 0 <= i < j < |s| :: !Before(c, order, s[j], s[i]))
  }

  /** LIMIT size OFFSET offset. */
  function Slice(s: seq<Note>, offset: nat, size: nat): seq<Note> {
    s[Least(offset, |s|)..Least(offset + size, |s|)]
  }

  const INT64 := 0x8000_0000_0000_0000

  /** The offset as Go computes it, in 64-bit arithmetic. */
  function Offset64(page: int, size: int): int {
    ((page - 1) * size + INT64) % (2 * INT64) - INT64
  }

  function ClampPage(page: int): int { if page < 1 then 1 else page }

  function ClampSize(size: int): int { if size < 1 || size > 100 then 20 else size }

  datatype Listing = Listed(items: seq<Note>, total: int) | DbError

  /** What a call may answer when no statement fails; MySQL rejects a negative offset. */
  ghost predicate MayAnswer(c: Collation, t: Table, uid: int, page: int, size: int, q: string, sort: string,
                            r: Listing)
  {
    var notes, p, z := Matching(c, t, uid, q), ClampPage(page), ClampSize(size);
    var offset := Offset64(p, z);
    if offset < 0 then r == DbError
    else r.Listed? && r.total == |notes|
         && exists s :: SortedPermutation(c, SanitizeSort(sort), notes, s) && r.items == Slice(s, offset, z)
  }

  /** What `WHERE user_id=? AND deleted_at IS NULL`, with the search if there is one, says of a row. */
  predicate Shown(c: Collation, t: Table, uid: int, q: string, id: int) {
    && id in t.rows && t.rows[id].userId == uid && t.rows[id].deletedAt.None?
    && (q == "" || c.like("%" + q + "%", t.rows[id].title) || c.like("%" + q + "%", t.rows[id].body))
  }

  function IdsOf(notes: set<Note>): set<int> {
    set n | n in notes :: n.id
  }

  lemma {:induction false} SameNumber(notes: set<Note>)
    requires forall a, b | a in notes && b in notes && a.id == b.id :: a == b
    ensures |IdsOf(notes)| == |notes|
    decreases notes
  {
    if notes != {} {
      var n :| n in notes;
      var rest := notes - {n};
      assert IdsOf(notes) == IdsOf(rest) + {n.id};
      assert n.id !in IdsOf(rest);
      SameNumber(rest);
    }
  }

  /** The count is the number of rows that the condition selects. */
  lemma TotalIsNumberOfRows(c: Collation, t: Table, uid: int, q: string)
    requires WellFormed(t)
    ensures |Matching(c, t, uid, q)| == |set id | id in t.rows && Shown(c, t, uid, q, id)|
  {
    var notes, ids := Matching(c, t, uid, q), set id | id in t.rows && Shown(c, t, uid, q, id);
    forall id ensures id in ids <==> id in IdsOf(notes) {
      if id in ids {
        assert t.rows[id] in notes && t.rows[id].id == id;
      }
    }
    assert ids == IdsOf(notes);
    SameNumber(notes);
  }

  /** Every item is a row of the table that belongs to the user, is not deleted, and has the search text. */
  ghost predicate ItemsAreShown(c: Collation, t: Table, uid: int, q: string, items: seq<Note>) {
    && (forall n | n in items :: n.id in t.rows && t.rows[n.id] == n && Shown(c, t, uid, q, n.id))
    && (forall i, j | 0 <= i < j < |items| :: items[i].id != items[j].id)
  }

  /** What the four values of the sort parameter ask for; any other value asks for the newest first. */
  ghost predicate ItemsAreSorted(c: Collation, sort: string, items: seq<Note>) {
    forall i, j | 0 <= i < j < |items| ::
      var a, b := items[i], items[j];
      if sort == "oldest" then a.createdAt <= b.createdAt
      else if sort == "title" then
        c.weight(a.title) < c.weight(b.title) || (c.weight(a.title) == c.weight(b.title) && a.id > b.id)
      else if sort == "updated" then a.updatedAt >= b.updatedAt
      else a.id > b.id
  }

  /** The items of any answer, by the fields of the rows. */
  lemma ItemsOfAnswer(c: Collation, t: Table, uid: int, page: int, size: int, q: string, sort: string, r: Listing)
    requires WellFormed(t) && MayAnswer(c, t, uid, page, size, q, sort, r) && r.Listed?
    ensures ItemsAreShown(c, t, uid, q, r.items) && ItemsAreSorted(c, sort, r.items)
    ensures r.total == |set id | id in t.rows && Shown(c, t, uid, q, id)|
  {
    TotalIsNumberOfRows(c, t, uid, q);
    var u := ChosenOrder(c, t, uid, page, size, q, sort, r);
    AllAreShown(c, t, uid, q, sort, u);
    AllAreSorted(c, t, uid, q, sort, u);
    SliceKeeps(c, t, uid, q, sort, u, Offset64(ClampPage(page), ClampSize(size)), ClampSize(size));
  }

  lemma AllAreShown(c: Collation, t: Table, uid: int, q: string, sort: string, u: seq<Note>)
    requires WellFormed(t) && SortedPermutation(c, SanitizeSort(sort), Matching(c, t, uid, q), u)
    ensures ItemsAreShown(c, t, uid, q, u)
  {
    forall n | n in u ensures n.id in t.rows && t.rows[n.id] == n && Shown(c, t, uid, q, n.id) {
      assert n in Matching(c, t, uid, q);
    }
    forall i, j | 0 <= i < j < |u| ensures u[i].id != u[j].id {
      assert u[i] in u && u[j] in u;
    }
  }

  lemma AllAreSorted(c: Collation, t: Table, uid: int, q: string, sort: string, u: seq<Note>)
    requires WellFormed(t) && SortedPermutation(c, SanitizeSort(sort), Matching(c, t, uid, q), u)
    ensures ItemsAreSorted(c, sort, u)
  {
    AllAreShown(c, t, uid, q, sort, u);
    forall i, j | 0 <= i < j < |u| ensures u[i].id != u[j].id && !Before(c, SanitizeSort(sort), u[j], u[i]) {}
  }

  lemma SliceKeeps(c: Collation, t: Table, uid: int, q: string, sort: string, u: seq<Note>, offset: nat, size: nat)
    requires ItemsAreShown(c, t, uid, q, u) && ItemsAreSorted(c, sort, u)
    ensures ItemsAreShown(c, t, uid, q, Slice(u, offset, size)) && ItemsAreSorted(c, sort, Slice(u, offset, size))
  {
    var items, from := Slice(u, offset, size), Least(offset, |u|);
    assert forall k | 0 <= k < |items| :: items[k] == u[from + k];
  }

  /** How many items an answer has: up to `size` of those after the offset, 20 for a size out of range. */
  lemma ItemCount(c: Collation, t: Table, uid: int, page: int, size: int, q: string, sort: string, r: Listing)
    requires MayAnswer(c, t, uid, page, size, q, sort, r) && r.Listed?
    ensures var p, z := if page < 1 then 1 else page, if size < 1 || size > 100 then 20 else size;
            (p - 1) * z < 0x8000_0000_0000_0000 ==>
              |r.items| == if r.total <= (p - 1) * z then 0 else if r.total - (p - 1) * z < z then r.total - (p - 1) * z
                           else z
  {
    var p, z := ClampPage(page), ClampSize(size);
    var u := ChosenOrder(c, t, uid, page, size, q, sort, r);
    if (p - 1) * z < INT64 {
      MulMonotone(p - 1, 1, z);
      OffsetInRange(p, z);
    }
  }

  /** `ListFiltered`; `chosen` is the order in which the database happens to return the matching rows. */
  method ListFiltered(c: Collation, t: Table, uid: int, page: int, size: int, q: string, sort: string,
                      chosen: seq<Note>, countOk: bool, queryOk: bool) returns (r: Listing)
    requires SortedPermutation(c, SanitizeSort(sort), Matching(c, t, uid, q), chosen)
    ensures countOk && queryOk ==> MayAnswer(c, t, uid, page, size, q, sort, r)
    ensures !countOk || !queryOk ==> r == DbError
    ensures r.Listed? ==> |r.items| <= (if size < 1 || size > 100 then 20 else size)
    ensures r.Listed? && WellFormed(t) ==> ItemsAreShown(c, t, uid, q, r.items) && ItemsAreSorted(c, sort, r.items)
    ensures r.Listed? && WellFormed(t) ==> r.total == |set id | id in t.rows && Shown(c, t, uid, q, id)|
  {
    var p, z := page, size;
    if p < 1 { p := 1; }
    if z < 1 || z > 100 { z := 20; }
    if !countOk { return DbError; }
    var total := |Matching(c, t, uid, q)|;
    var offset := Offset64(p, z);
    if !queryOk || offset < 0 { return DbError; }
    var rows, out := Slice(chosen, offset, z), [];
    for i := 0 to |rows|
      invariant out == rows[..i]
    {
      out := out + [rows[i]];
    }
    assert out == rows;
    r := Listed(out, total);
    assert MayAnswer(c, t, uid, page, size, q, sort, r);
    if WellFormed(t) {
      ItemsOfAnswer(c, t, uid, page, size, q, sort, r);
    }
  }

  // ----- Listings over histories -----

  /** Nothing that other users do changes what a listing may answer. */
  lemma OthersKeepMatching(c: Collation, t: Table, s: Statement, uid: int, q: string)
    requires WellFormed(t) && s.uid != uid
    ensures Matching(c, Exec(t, s), uid, q) == Matching(c, t, uid, q)
  {
    var u := Exec(t, s);
    forall n ensures n in Matching(c, u, uid, q) <==> n in Matching(c, t, uid, q) {
      if n in Matching(c, t, uid, q) {
        var id :| id in t.rows && Matches(c, uid, q, t.rows[id]) && t.rows[id] == n;
        assert id in u.rows && u.rows[id] == n;
      }
      if n in Matching(c, u, uid, q) {
        var id :| id in u.rows && Matches(c, uid, q, u.rows[id]) && u.rows[id] == n;
        assert id in t.rows && t.rows[id] == n;
      }
    }
  }

  lemma {:induction false} ListingIgnoresOthers(c: Collation, t: Table, ss: seq<Statement>, uid: int, page: int,
                                                size: int, q: string, sort: string, r: Listing)
    requires WellFormed(t) && forall s | s in ss :: s.uid != uid
    ensures MayAnswer(c, Run(t, ss), uid, page, size, q, sort, r) <==> MayAnswer(c, t, uid, page, size, q, sort, r)
    decreases ss
  {
    if ss != [] {
      RunKeepsWellFormed(t, ss[..1]);
      assert ss[0] in ss;
      OthersKeepMatching(c, t, ss[0], uid, q);
      ListingIgnoresOthers(c, Exec(t, ss[0]), ss[1..], uid, page, size, q, sort, r);
    }
  }

  /** A deleted note is in no later listing of anybody. */
  lemma DeletedIsNotListed(c: Collation, t: Table, ss: seq<Statement>, id: int, uid: int, page: int, size: int,
                           q: string, sort: string, r: Listing)
    requires WellFormed(t) && id in t.rows && t.rows[id].deletedAt.Some?
    requires MayAnswer(c, Run(t, ss), uid, page, size, q, sort, r) && r.Listed?
    ensures forall n | n in r.items :: n.id != id
  {
    RunKeepsWellFormed(t, ss);
    TombstoneIsFinal(t, ss, id);
    ItemsOfAnswer(c, Run(t, ss), uid, page, size, q, sort, r);
  }

  // ----- The order is unique when nothing ties -----

  ghost predicate NoTies(c: Collation, order: Order, notes: set<Note>) {
    forall a, b | a in notes && b in notes && a != b :: Before(c, order, a, b) || Before(c, order, b, a)
  }

  /** The "title" and the default sort never tie; the others tie exactly on equal timestamps. */
  lemma WhenSortsTie(c: Collation, t: Table, uid: int, q: string, order: Order)
    requires WellFormed(t)
    ensures order.ByTitle? || order.NewestFirst? ==> NoTies(c, order, Matching(c, t, uid, q))
    ensures order.OldestFirst? ==>
              (NoTies(c, order, Matching(c, t, uid, q))
               <==> forall a, b | a in Matching(c, t, uid, q) && b in Matching(c, t, uid, q) && a != b ::
                      a.createdAt != b.createdAt)
    ensures order.UpdatedFirst? ==>
              (NoTies(c, order, Matching(c, t, uid, q))
               <==> forall a, b | a in Matching(c, t, uid, q) && b in Matching(c, t, uid, q) && a != b ::
                      a.updatedAt != b.updatedAt)
  {
  }

  /** ORDER BY ranks rows: what is not before what comes no later is not before it either. */
  lemma BehindIsTransitive(c: Collation, order: Order, a: Note, b: Note, n: Note)
    requires !Before(c, order, b, a) && !Before(c, order, n, b)
    ensures !Before(c, order, n, a)
  {
  }

  lemma BeforeIsStrict(c: Collation, order: Order, a: Note, b: Note)
    ensures !(Before(c, order, a, b) && Before(c, order, b, a))
  {
  }

  lemma FirstIsSame(c: Collation, order: Order, notes: set<Note>, s: seq<Note>, u: seq<Note>)
    requires NoTies(c, order, notes) && notes != {}
    requires SortedPermutation(c, order, notes, s) && SortedPermutation(c, order, notes, u)
    ensures s != [] && u != [] && s[0] == u[0]
  {
    var n :| n in notes;
    assert n in s && n in u;
    assert s[0] in notes && u[0] in notes;
    var i :| 0 <= i < |s| && s[i] == u[0];
    var j :| 0 <= j < |u| && u[j] == s[0];
    BeforeIsStrict(c, order, s[0], u[0]);
  }

  lemma RestIsSorted(c: Collation, order: Order, notes: set<Note>, s: seq<Note>)
    requires SortedPermutation(c, order, notes, s) && s != []
    ensures SortedPermutation(c, order, notes - {s[0]}, s[1..])
  {
    assert s == [s[0]] + s[1..];
  }

  lemma {:induction false} SizeOfPermutation(c: Collation, order: Order, notes: set<Note>, s: seq<Note>)
    requires SortedPermutation(c, order, notes, s)
    ensures |s| == |notes|
    decreases notes
  {
    if s == [] {
      assert forall n | n in notes :: n in s;
    } else {
      assert s[0] in notes;
      RestIsSorted(c, order, notes, s);
      SizeOfPermutation(c, order, notes - {s[0]}, s[1..]);
    }
  }

  lemma {:induction false} OrderIsUnique(c: Collation, order: Order, notes: set<Note>, s: seq<Note>, u: seq<Note>)
    requires NoTies(c, order, notes)
    requires SortedPermutation(c, order, notes, s) && SortedPermutation(c, order, notes, u)
    ensures s == u
    decreases notes
  {
    if notes == {} {
      SizeOfPermutation(c, order, notes, s);
      SizeOfPermutation(c, order, notes, u);
    } else {
      FirstIsSame(c, order, notes, s, u);
      RestIsSorted(c, order, notes, s);
      RestIsSorted(c, order, notes, u);
      OrderIsUnique(c, order, notes - {s[0]}, s[1..], u[1..]);
      assert s == [s[0]] + s[1..] && u == [u[0]] + u[1..];
    }
  }

  // ----- It is not when something does -----

  /** `n` can go right before place `k` of a sorted sequence. */
  ghost predicate Fits(c: Collation, order: Order, s: seq<Note>, k: nat, n: Note)
    requires k <= |s|
  {
    && (forall j | 0 <= j < k :: !Before(c, order, n, s[j]))
    && (forall j | k <= j < |s| :: !Before(c, order, s[j], n))
  }

  function InsertAt(s: seq<Note>, k: nat, n: Note): (u: seq<Note>)
    requires k <= |s|
    ensures |u| == |s| + 1
    ensures forall j | 0 <= j < |u| :: u[j] == if j < k then s[j] else if j == k then n else s[j - 1]
  {
    s[..k] + [n] + s[k..]
  }

  lemma InsertMembers(s: seq<Note>, k: nat, n: Note)
    requires k <= |s|
    ensures forall m :: m in InsertAt(s, k, n) <==> m in s || m == n
  {
    assert s == s[..k] + s[k..];
  }

  lemma InsertIsSorted(c: Collation, order: Order, notes: set<Note>, s: seq<Note>, k: nat, n: Note)
    requires SortedPermutation(c, order, notes, s) && n !in notes && k <= |s| && Fits(c, order, s, k, n)
    ensures SortedPermutation(c, order, notes + {n}, InsertAt(s, k, n))
  {
    InsertMembers(s, k, n);
    assert n !in s;
  }

  lemma SomePlaceFits(c: Collation, order: Order, notes: set<Note>, s: seq<Note>, n: Note)
    returns (k: nat)
    requires SortedPermutation(c, order, notes, s)
    ensures k <= |s| && Fits(c, order, s, k, n)
  {
    k := 0;
    while k < |s| && !Before(c, order, n, s[k])
      invariant k <= |s|
      invariant forall j | 0 <= j < k :: !Before(c, order, n, s[j])
    {
      k := k + 1;
    }
    forall j | k <= j < |s| ensures !Before(c, order, s[j], n) {
      BeforeIsStrict(c, order, n, s[k]);
      if k < j {
        BehindIsTransitive(c, order, n, s[k], s[j]);
      }
    }
  }

  lemma {:induction false} SortedExists(c: Collation, order: Order, notes: set<Note>) returns (s: seq<Note>)
    ensures SortedPermutation(c, order, notes, s)
    decreases notes
  {
    if notes == {} {
      s := [];
    } else {
      var n :| n in notes;
      var rest := SortedExists(c, order, notes - {n});
      var k := SomePlaceFits(c, order, notes - {n}, rest, n);
      InsertIsSorted(c, order, notes - {n}, rest, k, n);
      s := InsertAt(rest, k, n);
      assert notes - {n} + {n} == notes;
    }
  }

  predicate Tied(c: Collation, order: Order, a: Note, b: Note) {
    a != b && !Before(c, order, a, b) && !Before(c, order, b, a)
  }

  /** A note that ties with the one in place `i` fits on either side of it. */
  lemma FitsBesides(c: Collation, order: Order, notes: set<Note>, s: seq<Note>, i: nat, b: Note)
    requires SortedPermutation(c, order, notes, s) && i < |s| && Tied(c, order, s[i], b)
    ensures Fits(c, order, s, i, b) && Fits(c, order, s, i + 1, b)
  {
    forall j | 0 <= j < i ensures !Before(c, order, b, s[j]) {
      BehindIsTransitive(c, order, s[j], s[i], b);
    }
    forall j | i < j < |s| ensures !Before(c, order, s[j], b) {
      BehindIsTransitive(c, order, b, s[i], s[j]);
    }
  }

  lemma EitherSide(c: Collation, order: Order, notes: set<Note>, s: seq<Note>, i: nat, b: Note)
    requires SortedPermutation(c, order, notes, s) && b !in notes && i < |s| && Tied(c, order, s[i], b)
    ensures SortedPermutation(c, order, notes + {b}, InsertAt(s, i, b))
    ensures SortedPermutation(c, order, notes + {b}, InsertAt(s, i + 1, b))
  {
    FitsBesides(c, order, notes, s, i, b);
    InsertIsSorted(c, order, notes, s, i, b);
    InsertIsSorted(c, order, notes, s, i + 1, b);
  }

  /** Tied notes can come next to each other, either way round. */
  lemma TiesSwap(c: Collation, order: Order, notes: set<Note>, a: Note, b: Note)
    returns (s: seq<Note>, u: seq<Note>, i: nat)
    requires a in notes && b in notes && Tied(c, order, a, b)
    ensures SortedPermutation(c, order, notes, s) && SortedPermutation(c, order, notes, u)
    ensures i + 1 < |s| == |u| && s[i] == u[i + 1] == a && s[i + 1] == u[i] == b
  {
    var others := notes - {b};
    var rest := SortedExists(c, order, others);
    assert a in others;
    i :| 0 <= i < |rest| && rest[i] == a;
    EitherSide(c, order, others, rest, i, b);
    assert others + {b} == notes;
    s, u := InsertAt(rest, i + 1, b), InsertAt(rest, i, b);
  }

  ghost predicate OneOrder(c: Collation, order: Order, notes: set<Note>) {
    forall s, u | SortedPermutation(c, order, notes, s) && SortedPermutation(c, order, notes, u) :: s == u
  }

  /** There is one sorted order exactly when nothing ties. */
  lemma OrderIsUniqueIff(c: Collation, order: Order, notes: set<Note>)
    ensures OneOrder(c, order, notes) <==> NoTies(c, order, notes)
  {
    if NoTies(c, order, notes) {
      forall s, u | SortedPermutation(c, order, notes, s) && SortedPermutation(c, order, notes, u) ensures s == u {
        OrderIsUnique(c, order, notes, s, u);
      }
    } else {
      var a, b :| a in notes && b in notes && Tied(c, order, a, b);
      var s, u, i := TiesSwap(c, order, notes, a, b);
      assert s[i] != u[i];
    }
  }

  // ----- Pages partition the result -----

  function Concat(pages: seq<seq<Note>>): seq<Note> {
    if pages == [] then [] else Concat(pages[..|pages| - 1]) + pages[|pages| - 1]
  }

  function PagesOf(answers: seq<Listing>): seq<seq<Note>> {
    seq(|answers|, k requires 0 <= k < |answers| => if answers[k].Listed? then answers[k].items else [])
  }

  function PageCount(total: nat, size: nat): nat
    requires size > 0
  {
    (total + size - 1) / size
  }

  lemma OffsetInRange(page: int, size: int)
    requires 1 <= page <= INT64 && 1 <= size <= 100
    ensures Offset64(page, size) == (page - 1) * size <==> (page - 1) * size < INT64
  {
  }

  /** The offset is the product, wrapped into the signed 64-bit range. */
  lemma OffsetWraps(page: int, size: int)
    ensures -0x8000_0000_0000_0000 <= Offset64(page, size) < 0x8000_0000_0000_0000
    ensures ((page - 1) * size - Offset64(page, size)) % 0x1_0000_0000_0000_0000 == 0
  {
    var n := (page - 1) * size;
    assert n + INT64 == (n + INT64) / (2 * INT64) * (2 * INT64) + (n + INT64) % (2 * INT64);
    assert n - Offset64(page, size) == (n + INT64) / (2 * INT64) * (2 * INT64);
  }

  /** Where page `k + 1` starts. */
  function Start(k: nat, size: nat): nat { k * size }

  lemma ConsecutiveSlices(s: seq<Note>, k: nat, size: nat)
    ensures s[..Least(Start(k, size), |s|)] + Slice(s, Start(k, size), size) == s[..Least(Start(k + 1, size), |s|)]
  {
    assert (k + 1) * size == k * size + size;
  }

  lemma {:induction false} PagesCover(s: seq<Note>, size: nat, pages: seq<seq<Note>>)
    requires forall k | 0 <= k < |pages| :: pages[k] == Slice(s, Start(k, size), size)
    ensures Concat(pages) == s[..Least(Start(|pages|, size), |s|)]
  {
    if pages != [] {
      var n := |pages| - 1;
      PagesCover(s, size, pages[..n]);
      ConsecutiveSlices(s, n, size);
    }
  }

  /** The last page of a non-empty result is the one that reaches its end. */
  lemma PageCountReaches(total: nat, size: nat)
    requires size > 0
    ensures PageCount(total, size) * size >= total
    ensures total > 0 ==> (PageCount(total, size) - 1) * size < total
  {
    var p := PageCount(total, size);
    assert total + size - 1 == p * size + (total + size - 1) % size;
  }

  /** A page that is not the first one past the end starts inside the result. */
  lemma PageStartsInside(total: nat, size: nat, k: nat)
    requires size > 0 && k < PageCount(total, size)
    ensures Start(k, size) < total
  {
    PageCountReaches(total, size);
    MulMonotone(size, k, PageCount(total, size) - 1);
  }

  /** The order that the database chose for an answer. */
  lemma ChosenOrder(c: Collation, t: Table, uid: int, page: int, size: int, q: string, sort: string, r: Listing)
    returns (u: seq<Note>)
    requires MayAnswer(c, t, uid, page, size, q, sort, r) && Offset64(ClampPage(page), ClampSize(size)) >= 0
    ensures SortedPermutation(c, SanitizeSort(sort), Matching(c, t, uid, q), u)
    ensures |u| == |Matching(c, t, uid, q)|
    ensures r == Listed(Slice(u, Offset64(ClampPage(page), ClampSize(size)), ClampSize(size)), |u|)
  {
    var notes, offset := Matching(c, t, uid, q), Offset64(ClampPage(page), ClampSize(size));
    u :| SortedPermutation(c, SanitizeSort(sort), notes, u) && r.items == Slice(u, offset, ClampSize(size));
    SizeOfPermutation(c, SanitizeSort(sort), notes, u);
  }

  lemma PageIsSlice(c: Collation, t: Table, uid: int, k: nat, size: nat, q: string, sort: string, r: Listing,
                    s: seq<Note>)
    requires NoTies(c, SanitizeSort(sort), Matching(c, t, uid, q))
    requires SortedPermutation(c, SanitizeSort(sort), Matching(c, t, uid, q), s)
    requires MayAnswer(c, t, uid, k + 1, size, q, sort, r)
    requires 1 <= size <= 100 && k < INT64 && Start(k, size) < INT64
    ensures r == Listed(Slice(s, Start(k, size), size), |s|)
  {
    OffsetInRange(k + 1, size);
    var u := ChosenOrder(c, t, uid, k + 1, size, q, sort, r);
    OrderIsUnique(c, SanitizeSort(sort), Matching(c, t, uid, q), s, u);
  }

  /** `answers` are what requests for the pages 1, 2, … up to the last may get. */
  ghost predicate AnswersAllPages(c: Collation, t: Table, uid: int, size: int, q: string, sort: string,
                                  answers: seq<Listing>, total: nat)
  {
    && 1 <= size <= 100 && |answers| == PageCount(total, size)
    && (forall k | 0 <= k < |answers| :: MayAnswer(c, t, uid, k + 1, size, q, sort, answers[k]))
  }

  lemma AnswersAreSlices(c: Collation, t: Table, uid: int, size: int, q: string, sort: string,
                         answers: seq<Listing>, s: seq<Note>)
    requires NoTies(c, SanitizeSort(sort), Matching(c, t, uid, q))
    requires SortedPermutation(c, SanitizeSort(sort), Matching(c, t, uid, q), s)
    requires AnswersAllPages(c, t, uid, size, q, sort, answers, |s|) && |s| < INT64
    ensures forall k | 0 <= k < |answers| :: answers[k] == Listed(Slice(s, Start(k, size), size), |s|)
  {
    forall k | 0 <= k < |answers| ensures answers[k] == Listed(Slice(s, Start(k, size), size), |s|) {
      PageStartsInside(|s|, size, k);
      MulMonotone(k, 1, size);
      PageIsSlice(c, t, uid, k, size, q, sort, answers[k], s);
    }
  }

  /**
    On an unchanged table, whatever order the database picks for each request, the pages of a
    sort without ties, laid end to end, are the one sorted sequence of the caller's live
    matching notes, and every page reports its length as the total.
   */
  lemma PagesPartition(c: Collation, t: Table, uid: int, size: int, q: string, sort: string,
                       answers: seq<Listing>, s: seq<Note>)
    requires NoTies(c, SanitizeSort(sort), Matching(c, t, uid, q))
    requires SortedPermutation(c, SanitizeSort(sort), Matching(c, t, uid, q), s)
    requires AnswersAllPages(c, t, uid, size, q, sort, answers, |s|) && |s| < INT64
    ensures Concat(PagesOf(answers)) == s
    ensures forall k | 0 <= k < |answers| :: answers[k].Listed? && answers[k].total == |s|
  {
    AnswersAreSlices(c, t, uid, size, q, sort, answers, s);
    var pages := PagesOf(answers);
    forall k | 0 <= k < |pages| ensures pages[k] == Slice(s, Start(k, size), size) {
      assert answers[k] == Listed(Slice(s, Start(k, size), size), |s|);
    }
    PagesCover(s, size, pages);
    PageCountReaches(|s|, size);
    assert s[..|s|] == s;
  }

  // ----- With ties they need not -----

  lemma SliceOfOne(c: Collation, t: Table, uid: int, q: string, sort: string, s: seq<Note>, k: nat)
    requires SortedPermutation(c, SanitizeSort(sort), Matching(c, t, uid, q), s) && k < |s| < INT64
    ensures |s| == |Matching(c, t, uid, q)|
    ensures MayAnswer(c, t, uid, k + 1, 1, q, sort, Listed([s[k]], |s|))
  {
    SizeOfPermutation(c, SanitizeSort(sort), Matching(c, t, uid, q), s);
    assert Slice(s, k, 1) == [s[k]];
    assert Offset64(k + 1, 1) == k;
  }

  /** With a tie, two consecutive pages of one note may both show the same note. */
  lemma TiesCanRepeat(c: Collation, t: Table, uid: int, q: string, sort: string) returns (a: Note, page: nat)
    requires !NoTies(c, SanitizeSort(sort), Matching(c, t, uid, q)) && |Matching(c, t, uid, q)| < INT64
    ensures a in Matching(c, t, uid, q) && 1 <= page < |Matching(c, t, uid, q)|
    ensures MayAnswer(c, t, uid, page, 1, q, sort, Listed([a], |Matching(c, t, uid, q)|))
    ensures MayAnswer(c, t, uid, page + 1, 1, q, sort, Listed([a], |Matching(c, t, uid, q)|))
  {
    var notes, order := Matching(c, t, uid, q), SanitizeSort(sort);
    var b;
    a, b :| a in notes && b in notes && Tied(c, order, a, b);
    var s, u, i := TiesSwap(c, order, notes, a, b);
    SizeOfPermutation(c, order, notes, s);
    SliceOfOne(c, t, uid, q, sort, s, i);
    SliceOfOne(c, t, uid, q, sort, u, i + 1);
    page := i + 1;
  }

  /** `s` shows each of `notes` exactly once and nothing else. */
  ghost predicate EachOnce(notes: set<Note>, s: seq<Note>) {
    && (forall n :: n in notes <==> n in s)
    && (forall i, j | 0 <= i < j < |s| :: s[i] != s[j])
  }

  /** Whatever the size and the orders that the database picks, the pages show each matching note exactly once. */
  ghost predicate PagesAlwaysPartition(c: Collation, t: Table, uid: int, q: string, sort: string) {
    var notes := Matching(c, t, uid, q);
    forall size, answers | AnswersAllPages(c, t, uid, size, q, sort, answers, |notes|) ::
      EachOnce(notes, Concat(PagesOf(answers)))
  }

  lemma {:induction false} ConcatSingles(pages: seq<seq<Note>>, s: seq<Note>)
    requires |pages| == |s| && forall k | 0 <= k < |s| :: pages[k] == [s[k]]
    ensures Concat(pages) == s
  {
    if s != [] {
      var n := |s| - 1;
      ConcatSingles(pages[..n], s[..n]);
      assert s == s[..n] + [s[n]];
    }
  }

  /** The answers to all pages of one note that show the notes `shown`. */
  function OnePerPage(shown: seq<Note>): seq<Listing> {
    seq(|shown|, k requires 0 <= k < |shown| => Listed([shown[k]], |shown|))
  }

  lemma OnePerPageShows(shown: seq<Note>)
    ensures Concat(PagesOf(OnePerPage(shown))) == shown
  {
    ConcatSingles(PagesOf(OnePerPage(shown)), shown);
  }

  lemma RepeatedIsAnswered(c: Collation, t: Table, uid: int, q: string, sort: string, s: seq<Note>, u: seq<Note>,
                           i: nat)
    requires SortedPermutation(c, SanitizeSort(sort), Matching(c, t, uid, q), s)
    requires SortedPermutation(c, SanitizeSort(sort), Matching(c, t, uid, q), u)
    requires i + 1 < |s| == |u| < INT64
    ensures AnswersAllPages(c, t, uid, 1, q, sort, OnePerPage(s[i + 1 := u[i + 1]]), |s|)
  {
    var answers := OnePerPage(s[i + 1 := u[i + 1]]);
    forall k | 0 <= k < |s| ensures MayAnswer(c, t, uid, k + 1, 1, q, sort, answers[k]) {
      SliceOfOne(c, t, uid, q, sort, if k == i + 1 then u else s, k);
    }
  }

  lemma RepeatingPages(c: Collation, t: Table, uid: int, q: string, sort: string) returns (answers: seq<Listing>)
    requires !NoTies(c, SanitizeSort(sort), Matching(c, t, uid, q)) && |Matching(c, t, uid, q)| < INT64
    ensures AnswersAllPages(c, t, uid, 1, q, sort, answers, |Matching(c, t, uid, q)|)
    ensures !EachOnce(Matching(c, t, uid, q), Concat(PagesOf(answers)))
  {
    var notes, order := Matching(c, t, uid, q), SanitizeSort(sort);
    var a, b :| a in notes && b in notes && Tied(c, order, a, b);
    var s, u, i := TiesSwap(c, order, notes, a, b);
    SizeOfPermutation(c, order, notes, s);
    var shown := s[i + 1 := a];
    answers := OnePerPage(shown);
    RepeatedIsAnswered(c, t, uid, q, sort, s, u, i);
    OnePerPageShows(shown);
    assert shown[i] == shown[i + 1];
  }

  /** The pages always partition the caller's matching notes exactly when nothing ties. */
  lemma PagesPartitionIff(c: Collation, t: Table, uid: int, q: string, sort: string)
    requires |Matching(c, t, uid, q)| < INT64
    ensures PagesAlwaysPartition(c, t, uid, q, sort) <==> NoTies(c, SanitizeSort(sort), Matching(c, t, uid, q))
  {
    var notes, order := Matching(c, t, uid, q), SanitizeSort(sort);
    if NoTies(c, order, notes) {
      var s := SortedExists(c, order, notes);
      SizeOfPermutation(c, order, notes, s);
      forall size, answers | AnswersAllPages(c, t, uid, size, q, sort, answers, |notes|)
        ensures EachOnce(notes, Concat(PagesOf(answers)))
      {
        PagesPartition(c, t, uid, size, q, sort, answers, s);
      }
    } else {
      var answers := RepeatingPages(c, t, uid, q, sort);
    }
  }

  // ----- Pages past the end -----

  /**
    Any page is empty exactly when the offset, as computed in 64 bits, is past the end; so a
    page after the last is empty as long as its offset does not leave the 64-bit range.
   */
  lemma PageIsEmptyIff(c: Collation, t: Table, uid: int, page: int, size: int, q: string, sort: string, r: Listing)
    requires MayAnswer(c, t, uid, page, size, q, sort, r) && 1 <= page && 1 <= size <= 100
    ensures r == Listed([], |Matching(c, t, uid, q)|) <==> Offset64(page, size) >= |Matching(c, t, uid, q)|
    ensures r.DbError? <==> Offset64(page, size) < 0
    ensures PageCount(|Matching(c, t, uid, q)|, size) < page && (page - 1) * size < INT64 ==>
              r == Listed([], |Matching(c, t, uid, q)|)
  {
    if Offset64(page, size) >= 0 {
      var u := ChosenOrder(c, t, uid, page, size, q, sort, r);
    }
    if PageCount(|Matching(c, t, uid, q)|, size) < page && (page - 1) * size < INT64 {
      LaterOffset(|Matching(c, t, uid, q)|, page, size);
    }
  }

  lemma LaterOffset(total: nat, page: int, size: int)
    requires 1 <= page && 1 <= size <= 100 && PageCount(total, size) < page && (page - 1) * size < INT64
    ensures Offset64(page, size) >= total
  {
    MulMonotone(size, PageCount(total, size), page - 1);
    MulMonotone(page - 1, 1, size);
    PageCountReaches(total, size);
    OffsetInRange(page, size);
  }

  lemma SameOffsetSameAnswers(c: Collation, t: Table, uid: int, page: int, far: int, size: int, q: string, sort: string,
                              r: Listing)
    requires MayAnswer(c, t, uid, page, size, q, sort, r)
    requires Offset64(ClampPage(page), ClampSize(size)) == Offset64(ClampPage(far), ClampSize(size))
    ensures MayAnswer(c, t, uid, far, size, q, sort, r)
  {
  }

  lemma FarOffset(far: int)
    requires far == 0x4000_0000_0000_0001
    ensures Offset64(far, 4) == 0
  {
    assert (far - 1) * 4 == 2 * INT64;
  }

  /** Beyond that range a page far past the end can be the first page again. */
  lemma HugePageWraps(c: Collation, t: Table, uid: int, q: string, sort: string, r: Listing)
    requires MayAnswer(c, t, uid, 1, 4, q, sort, r)
    ensures MayAnswer(c, t, uid, 0x4000_0000_0000_0001, 4, q, sort, r)
  {
    FarOffset(0x4000_0000_0000_0001);
    SameOffsetSameAnswers(c, t, uid, 1, 0x4000_0000_0000_0001, 4, q, sort, r);
  }
}
