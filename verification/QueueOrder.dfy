/** Queue entries, their posting order, and the order-key operations as list operations. */
module QueueOrder {
  import opened Base
  import opened HistoryLog

  const I64_MIN: int := -0x8000_0000_0000_0000
  const I64_MAX: int := 0x7FFF_FFFF_FFFF_FFFF

  type I64 = x: int | I64_MIN <= x <= I64_MAX

  datatype StoredEntry = StoredEntry(
    id: string,
    incarnation: string,
    order: I64,
    flutterSeconds: U64,
    enqueuedAt: U64,
    notBefore: U64,
    claimToken: Option<string>,
    request: CommentRequest)

  /** The entry files, by identifier. */
  type Entries = map<string, StoredEntry>

  /** Every entry is stored under its own identifier. */
  predicate WellKeyed(m: Entries) {
    forall id :: id in m ==> m[id].id == id
  }

  predicate LexLess(a: string, b: string) {
    if b == [] then false
    else if a == [] then true
    else a[0] < b[0] || (a[0] == b[0] && LexLess(a[1..], b[1..]))
  }

  lemma {:induction false} LexTotal(a: string, b: string)
    ensures !LexLess(a, a)
    ensures a == b || LexLess(a, b) || LexLess(b, a)
    ensures !(LexLess(a, b) && LexLess(b, a))
  {
    if a != [] && b != [] {
      LexTotal(a[1..], b[1..]);
      assert a == [a[0]] + a[1..] && b == [b[0]] + b[1..];
    } else if a != [] {
      LexTotal(a[1..], []);
    }
  }

  lemma {:induction false} LexTransitive(a: string, b: string, c: string)
    requires LexLess(a, b) && LexLess(b, c)
    ensures LexLess(a, c)
  {
    if a != [] && a[0] == b[0] == c[0] {
      LexTransitive(a[1..], b[1..], c[1..]);
    }
  }

  /** The tie break of entries that share an order key. */
  predicate TieBefore(a: StoredEntry, b: StoredEntry) {
    a.enqueuedAt < b.enqueuedAt || (a.enqueuedAt == b.enqueuedAt && LexLess(a.id, b.id))
  }

  /** The sort key `(order, enqueued_at, id)`. */
  predicate Before(a: StoredEntry, b: StoredEntry) {
    a.order < b.order || (a.order == b.order && TieBefore(a, b))
  }

  lemma BeforeTotal(a: StoredEntry, b: StoredEntry)
    ensures !Before(a, a)
    ensures a.id == b.id || Before(a, b) || Before(b, a)
    ensures !(Before(a, b) && Before(b, a))
  {
    LexTotal(a.id, b.id);
  }

  lemma BeforeTransitive(a: StoredEntry, b: StoredEntry, c: StoredEntry)
    requires Before(a, b) && Before(b, c)
    ensures Before(a, c)
  {
    if LexLess(a.id, b.id) && LexLess(b.id, c.id) {
      LexTransitive(a.id, b.id, c.id);
    }
  }

  ghost predicate Ascending(s: seq<StoredEntry>) {
    forall i, j :: 0 <= i < j < |s| ==> Before(s[i], s[j])
  }

  /** `s` lists exactly the entries of `m`. */
  ghost predicate Lists(s: seq<StoredEntry>, m: Entries) {
    forall x :: x in s <==> x.id in m && m[x.id] == x
  }

  /** `s` is the posting order of `m`. */
  ghost predicate IsQueue(s: seq<StoredEntry>, m: Entries) {
    Ascending(s) && Lists(s, m)
  }

  /** Insertion into an ascending sequence. */
  function Insert(s: seq<StoredEntry>, e: StoredEntry): (r: seq<StoredEntry>)
    requires Ascending(s) && forall x :: x in s ==> x.id != e.id
    ensures Ascending(r)
    ensures forall x :: x in r <==> x in s || x == e
    ensures |r| == |s| + 1
  {
    if s == [] then [e] else
    BeforeTotal(e, s[0]);
    if Before(e, s[0]) then
      assert forall j :: 0 <= j < |s| ==> Before(e, s[j]) by {
        forall j | 0 < j < |s| ensures Before(e, s[j]) { BeforeTransitive(e, s[0], s[j]); }
      }
      [e] + s
    else
      var rest := Insert(s[1..], e);
      assert forall j :: 0 <= j < |rest| ==> Before(s[0], rest[j]) by {
        forall j | 0 <= j < |rest| ensures Before(s[0], rest[j]) {
          assert rest[j] in s[1..] || rest[j] == e;
        }
      }
      assert s == [s[0]] + s[1..];
      [s[0]] + rest
  }

  /** Sorting the entries by insertion yields their posting order. */
  lemma {:induction false} QueueExists(m: Entries) returns (s: seq<StoredEntry>)
    requires WellKeyed(m)
    ensures IsQueue(s, m)
  {
    s := [];
    if m != map[] {
      var id :| id in m;
      var rest := QueueExists(m - {id});
      s := Insert(rest, m[id]);
    }
  }

  /** The posting order of the stored entries. */
  ghost function Queue(m: Entries): (s: seq<StoredEntry>)
    requires WellKeyed(m)
    ensures IsQueue(s, m)
  {
    assert exists s :: IsQueue(s, m) by {
      var s := QueueExists(m);
    }
    var s :| IsQueue(s, m);
    s
  }

  /** Sorting fixes the order: two ascending sequences with the same entries are equal. */
  lemma {:induction false} AscendingUnique(a: seq<StoredEntry>, b: seq<StoredEntry>)
    requires Ascending(a) && Ascending(b)
    requires forall x :: x in a <==> x in b
    ensures a == b
  {
    SameEmptiness(a, b);
    if a != [] {
      SameHead(a, b);
      assert forall x :: x in a[1..] <==> x in b[1..] by {
        TailMembers(a);
        TailMembers(b);
      }
      AscendingUnique(a[1..], b[1..]);
      assert a == [a[0]] + a[1..] && b == [b[0]] + b[1..];
    }
  }

  lemma SameEmptiness(a: seq<StoredEntry>, b: seq<StoredEntry>)
    requires forall x :: x in a <==> x in b
    ensures a == [] <==> b == []
  {
    if a != [] {
      assert a[0] in b;
    }
    if b != [] {
      assert b[0] in a;
    }
  }

  lemma SameHead(a: seq<StoredEntry>, b: seq<StoredEntry>)
    requires a != [] && b != [] && Ascending(a) && Ascending(b)
    requires forall x :: x in a <==> x in b
    ensures a[0] == b[0]
  {
    assert a[0] in b && b[0] in a;
    var i :| 0 <= i < |b| && b[i] == a[0];
    var j :| 0 <= j < |a| && a[j] == b[0];
    BeforeTotal(a[0], b[0]);
  }

  lemma TailMembers(s: seq<StoredEntry>)
    requires s != [] && Ascending(s)
    ensures forall x :: x in s[1..] <==> x in s && x != s[0]
  {
    BeforeTotal(s[0], s[0]);
    assert s == [s[0]] + s[1..];
  }

  lemma QueueUnique(m: Entries, s: seq<StoredEntry>)
    requires WellKeyed(m) && IsQueue(s, m)
    ensures Queue(m) == s
  {
    AscendingUnique(Queue(m), s);
  }

  /** The posting order: by order key, then by second of enqueueing, then by identifier. */
  lemma PostingOrder(m: Entries, i: nat, j: nat)
    requires WellKeyed(m) && i < j < |Queue(m)|
    ensures
      var a, b := Queue(m)[i], Queue(m)[j];
      || a.order < b.order
      || (a.order == b.order && a.enqueuedAt < b.enqueuedAt)
      || (a.order == b.order && a.enqueuedAt == b.enqueuedAt && LexLess(a.id, b.id))
  {
    assert Before(Queue(m)[i], Queue(m)[j]);
  }

  /** The queue without one entry, the others in unchanged order. */
  function Without(s: seq<StoredEntry>, id: string): (r: seq<StoredEntry>)
    ensures forall x :: x in r <==> x in s && x.id != id
  {
    if s == [] then [] else
    assert s == [s[0]] + s[1..];
    (if s[0].id == id then [] else [s[0]]) + Without(s[1..], id)
  }

  lemma {:induction false} WithoutAscending(s: seq<StoredEntry>, id: string)
    requires Ascending(s)
    ensures Ascending(Without(s, id))
  {
    if s != [] {
      WithoutAscending(s[1..], id);
      var rest := Without(s[1..], id);
      forall j | 0 <= j < |rest| ensures Before(s[0], rest[j]) {
        assert rest[j] in s[1..];
      }
    }
  }

  /** Deleting an entry removes it and keeps the relative order of the others. */
  lemma DeleteIsRemove(m: Entries, id: string)
    requires WellKeyed(m)
    ensures Queue(m - {id}) == Without(Queue(m), id)
  {
    var s := Queue(m);
    WithoutAscending(s, id);
    QueueUnique(m - {id}, Without(s, id));
  }

  lemma {:induction false} WithoutLists(m: Entries, e: StoredEntry)
    requires WellKeyed(m)
    ensures WellKeyed(m[e.id := e])
    ensures Lists([e] + Without(Queue(m), e.id), m[e.id := e])
    ensures Lists(Without(Queue(m), e.id) + [e], m[e.id := e])
    ensures Ascending(Without(Queue(m), e.id))
  {
    WithoutAscending(Queue(m), e.id);
  }

  /** Rewriting one entry puts it first exactly when its new key precedes every other key. */
  lemma FrontIff(m: Entries, e: StoredEntry)
    requires WellKeyed(m)
    ensures WellKeyed(m[e.id := e])
    ensures Queue(m[e.id := e]) == [e] + Without(Queue(m), e.id)
       <==> forall x :: x in Without(Queue(m), e.id) ==> Before(e, x)
  {
    WithoutLists(m, e);
    var rest := Without(Queue(m), e.id);
    if forall x :: x in rest ==> Before(e, x) {
      QueueUnique(m[e.id := e], [e] + rest);
    }
    if Queue(m[e.id := e]) == [e] + rest {
      forall x | x in rest ensures Before(e, x) {
        var i :| 0 <= i < |rest| && rest[i] == x;
        assert Before(([e] + rest)[0], ([e] + rest)[i + 1]);
      }
    }
  }

  /** Rewriting or adding one entry puts it last exactly when its new key follows every other key. */
  lemma BackIff(m: Entries, e: StoredEntry)
    requires WellKeyed(m)
    ensures WellKeyed(m[e.id := e])
    ensures Queue(m[e.id := e]) == Without(Queue(m), e.id) + [e]
       <==> forall x :: x in Without(Queue(m), e.id) ==> Before(x, e)
  {
    WithoutLists(m, e);
    var rest := Without(Queue(m), e.id);
    if forall x :: x in rest ==> Before(x, e) {
      QueueUnique(m[e.id := e], rest + [e]);
    }
    if Queue(m[e.id := e]) == rest + [e] {
      forall x | x in rest ensures Before(x, e) {
        var i :| 0 <= i < |rest| && rest[i] == x;
        assert Before((rest + [e])[i], (rest + [e])[|rest|]);
      }
    }
  }

  /** `i64::saturating_sub(1)` and `i64::saturating_add(1)`. */
  function SatPred(order: I64): I64 {
    if order == I64_MIN then I64_MIN else order - 1
  }

  function SatSucc(order: I64): I64 {
    if order == I64_MAX then I64_MAX else order + 1
  }

  function BumpOrder(e: StoredEntry, all: seq<StoredEntry>): I64 {
    if all == [] || all[0].id == e.id then e.order else SatPred(all[0].order)
  }

  function BustOrder(e: StoredEntry, all: seq<StoredEntry>): I64 {
    if all == [] || all[|all| - 1].id == e.id then e.order else SatSucc(all[|all| - 1].order)
  }

  function TailOrder(all: seq<StoredEntry>): I64 {
    if all == [] then 0 else SatSucc(all[|all| - 1].order)
  }

  /** When the bumped key precedes every other key. */
  lemma {:induction false} BumpPrecedes(all: seq<StoredEntry>, was: StoredEntry, e: StoredEntry)
    requires Ascending(all) && was in all && (forall x :: x in all && x.id == was.id ==> x == was)
    requires e == was.(order := BumpOrder(was, all))
    ensures (forall x :: x in Without(all, e.id) ==> Before(e, x))
       <==> all[0].id == e.id || all[0].order > I64_MIN || TieBefore(was, all[0])
  {
    var rest := Without(all, e.id);
    assert all[0] in all;
    if all[0].id == e.id {
      forall x | x in rest ensures Before(e, x) {
        var j :| 0 <= j < |all| && all[j] == x;
      }
    } else {
      assert all[0] in rest;
      BeforeTotal(e, all[0]);
      if Before(e, all[0]) {
        forall x | x in rest ensures Before(e, x) {
          var j :| 0 <= j < |all| && all[j] == x;
          if j > 0 {
            BeforeTransitive(e, all[0], x);
          }
        }
      }
    }
  }

  /**
  `bump` moves the entry to the front, the others unchanged, exactly when the
  head's order key is not saturated or the entry already wins the tie.
  */
  lemma BumpIsMoveToFront(m: Entries, id: string)
    requires WellKeyed(m) && id in m
    ensures
      var all := Queue(m);
      var e := m[id].(order := BumpOrder(m[id], all));
      && all != [] && WellKeyed(m[id := e])
      && (Queue(m[id := e]) == [e] + Without(all, id)
          <==> all[0].id == id || all[0].order > I64_MIN || TieBefore(m[id], all[0]))
  {
    hide Before, Ascending, Without, TieBefore, BumpOrder;
    var all := Queue(m);
    assert m[id] in all;
    var e := m[id].(order := BumpOrder(m[id], all));
    FrontIff(m, e);
    BumpPrecedes(all, m[id], e);
  }

  lemma {:induction false} BustFollows(all: seq<StoredEntry>, was: StoredEntry, e: StoredEntry)
    requires Ascending(all) && was in all && (forall x :: x in all && x.id == was.id ==> x == was)
    requires e == was.(order := BustOrder(was, all))
    ensures
      var tail := all[|all| - 1];
      (forall x :: x in Without(all, e.id) ==> Before(x, e))
      <==> tail.id == e.id || tail.order < I64_MAX || TieBefore(tail, was)
  {
    var rest := Without(all, e.id);
    var tail := all[|all| - 1];
    assert tail in all;
    if tail.id == e.id {
      OthersBeforeTail(all, rest, e.id);
    } else {
      assert tail in rest;
      BeforeTotal(tail, e);
      if Before(tail, e) {
        LastBefore(all, rest, e);
      }
    }
  }

  /** `bust` moves the entry to the back under the mirrored condition. */
  lemma BustIsMoveToBack(m: Entries, id: string)
    requires WellKeyed(m) && id in m
    ensures
      var all := Queue(m);
      var e := m[id].(order := BustOrder(m[id], all));
      && all != [] && WellKeyed(m[id := e])
      && (Queue(m[id := e]) == Without(all, id) + [e]
          <==> all[|all| - 1].id == id || all[|all| - 1].order < I64_MAX || TieBefore(all[|all| - 1], m[id]))
  {
    hide Before, Ascending, Without, TieBefore, BustOrder;
    var all := Queue(m);
    assert m[id] in all;
    var e := m[id].(order := BustOrder(m[id], all));
    BackIff(m, e);
    BustFollows(all, m[id], e);
  }

  lemma OthersBeforeTail(all: seq<StoredEntry>, rest: seq<StoredEntry>, id: string)
    requires all != [] && Ascending(all) && all[|all| - 1].id == id
    requires forall x :: x in rest ==> x in all && x.id != id
    ensures forall x :: x in rest ==> Before(x, all[|all| - 1])
  {
    forall x | x in rest ensures Before(x, all[|all| - 1]) {
      var j :| 0 <= j < |all| && all[j] == x;
    }
  }

  lemma LastBefore(all: seq<StoredEntry>, rest: seq<StoredEntry>, e: StoredEntry)
    requires all != [] && Ascending(all) && Before(all[|all| - 1], e)
    requires forall x :: x in rest ==> x in all
    ensures forall x :: x in rest ==> Before(x, e)
  {
    forall x | x in rest ensures Before(x, e) {
      var j :| 0 <= j < |all| && all[j] == x;
      if j < |all| - 1 {
        BeforeTransitive(x, all[|all| - 1], e);
      }
    }
  }

  lemma {:induction false} WithoutAbsent(s: seq<StoredEntry>, id: string)
    requires forall x :: x in s ==> x.id != id
    ensures Without(s, id) == s
  {
    if s != [] {
      WithoutAbsent(s[1..], id);
    }
  }

  /** `put` appends under the same condition. */
  lemma PutIsAppend(m: Entries, e: StoredEntry)
    requires WellKeyed(m) && e.id !in m && e.order == TailOrder(Queue(m))
    ensures
      var all := Queue(m);
      && WellKeyed(m[e.id := e])
      && (Queue(m[e.id := e]) == all + [e]
          <==> all == [] || all[|all| - 1].order < I64_MAX || TieBefore(all[|all| - 1], e))
  {
    var all := Queue(m);
    BackIff(m, e);
    WithoutAbsent(all, e.id);
    if all != [] {
      BeforeTotal(all[|all| - 1], e);
      if Before(all[|all| - 1], e) {
        LastBefore(all, all, e);
      }
    }
  }
}
