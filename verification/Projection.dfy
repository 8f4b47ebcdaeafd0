/** When two states of the queue project the same estimates. */
module Projection {
  import opened Base
  import opened QueueOrder
  import opened Scheduling
  import opened AwaitCache

  /** The same identifiers in the same order, with the fields the projection reads. */
  predicate SameLine(a: seq<StoredEntry>, b: seq<StoredEntry>) {
    |a| == |b| && forall i :: 0 <= i < |a| ==>
      a[i].id == b[i].id && a[i].flutterSeconds == b[i].flutterSeconds && a[i].notBefore == b[i].notBefore
  }

  function Anchor(q: Pending): Option<U64> {
    PreviousActivity(q.lastPost, q.lastAttempt)
  }

  /** The later anchor does not move the head of the queue at this second. */
  ghost predicate HeadUnmoved(q: Pending, q': Pending, cooldown: U64, now: U64)
    requires WellKeyed(q.entries)
  {
    var es := Queue(q.entries);
    es == [] || PostAt(es[0], Anchor(q), cooldown, now) == PostAt(es[0], Anchor(q'), cooldown, now)
  }

  lemma {:induction false} SameLineTimes(a: seq<StoredEntry>, b: seq<StoredEntry>, p: Option<U64>, q: Option<U64>, cooldown: U64, now: U64)
    requires SameLine(a, b) && (a == [] || PostAt(a[0], p, cooldown, now) == PostAt(b[0], q, cooldown, now))
    ensures PostTimes(a, p, cooldown, now) == PostTimes(b, q, cooldown, now)
    decreases |a|
  {
    if a != [] {
      var t := PostAt(a[0], p, cooldown, now);
      SameLineTimes(a[1..], b[1..], Some(t), Some(t), cooldown, now);
    }
  }

  /** The estimates of an exact projection, entry by entry. */
  lemma ExactTimes(s: AwaitSchedule, q: Pending, cooldown: U64, i: nat)
    requires WellKeyed(q.entries) && i < |Queue(q.entries)|
    ensures
      var es := Queue(q.entries);
      var t := PostTimes(es, Anchor(q), cooldown, s.builtAt)[i];
      && es[i].id in q.entries
      && ListedEta(q, cooldown, s.builtAt, es[i].id) == Some(Eta(t, s.builtAt))
  {
    hide PostTimes, TimeOf, Queue;
    Listing(q.entries);
    EtaBuilt(Queue(q.entries), Anchor(q), cooldown, s.builtAt, i);
  }

  lemma {:induction false} TimesNotBefore(es: seq<StoredEntry>, previous: Option<U64>, cooldown: U64, now: U64, i: nat)
    requires i < |es|
    ensures PostTimes(es, previous, cooldown, now)[i] >= now
    decreases |es|
  {
    if i > 0 {
      TimesNotBefore(es[1..], Some(PostAt(es[0], previous, cooldown, now)), cooldown, now, i - 1);
    }
  }

  /** A projection is exact if and only if it has the queue's identifiers with the queue's times. */
  lemma ExactIffTimes(s: AwaitSchedule, q: Pending, cooldown: U64)
    requires WellKeyed(q.entries)
    ensures
      var es := Queue(q.entries);
      var ts := PostTimes(es, Anchor(q), cooldown, s.builtAt);
      Exact(s, q, cooldown) <==>
        && s.etas.Keys == q.entries.Keys
        && forall i :: 0 <= i < |es| ==> es[i].id in s.etas && s.etas[es[i].id] == Eta(ts[i], s.builtAt)
  {
    hide PostTimes, ListedEta, Queue;
    var es := Queue(q.entries);
    Listing(q.entries);
    forall i | 0 <= i < |es|
      ensures
        var t := PostTimes(es, Anchor(q), cooldown, s.builtAt)[i];
        es[i].id in q.entries && ListedEta(q, cooldown, s.builtAt, es[i].id) == Some(Eta(t, s.builtAt))
    {
      ExactTimes(s, q, cooldown, i);
    }
  }

  /** With the queue in the same line, a cached projection stays exact if and only if the head is not moved. */
  lemma {:induction false} SameLineExactIff(s: AwaitSchedule, q: Pending, q': Pending, cooldown: U64)
    requires WellKeyed(q.entries) && WellKeyed(q'.entries) && Exact(s, q, cooldown)
    requires q.entries.Keys == q'.entries.Keys && SameLine(Queue(q.entries), Queue(q'.entries))
    ensures Exact(s, q', cooldown) <==> HeadUnmoved(q, q', cooldown, s.builtAt)
  {
    hide PostTimes, Queue, Exact, SatSub;
    var es, es', now := Queue(q.entries), Queue(q'.entries), s.builtAt;
    ExactIffTimes(s, q, cooldown);
    ExactIffTimes(s, q', cooldown);
    if es != [] {
      HeadTimes(es, Anchor(q), cooldown, now);
      HeadTimes(es', Anchor(q'), cooldown, now);
      if HeadUnmoved(q, q', cooldown, now) {
        SameLineTimes(es, es', Anchor(q), Anchor(q'), cooldown, now);
      } else {
        EtaInjective(PostAt(es[0], Anchor(q), cooldown, now), PostAt(es'[0], Anchor(q'), cooldown, now), now);
        assert es[0].id == es'[0].id;
      }
    }
  }

  lemma HeadTimes(es: seq<StoredEntry>, previous: Option<U64>, cooldown: U64, now: U64)
    requires es != []
    ensures PostTimes(es, previous, cooldown, now)[0] == PostAt(es[0], previous, cooldown, now) >= now
  {
  }

  lemma EtaInjective(t: U64, u: U64, now: U64)
    requires t >= now && u >= now && t != u
    ensures Eta(t, now) != Eta(u, now)
  {
  }

  /** A queue with other identifiers makes no cached projection exact. */
  lemma OtherKeysInexact(s: AwaitSchedule, q: Pending, q': Pending, cooldown: U64)
    requires WellKeyed(q.entries) && WellKeyed(q'.entries) && Exact(s, q, cooldown) && q.entries.Keys != q'.entries.Keys
    ensures !Exact(s, q', cooldown)
  {
  }

  /** Rewriting fields that are neither sort key nor projected leaves the line as it is. */
  lemma SameSortSameLine(m: Entries, m': Entries)
    requires WellKeyed(m) && WellKeyed(m') && m.Keys == m'.Keys
    requires forall id :: id in m ==>
      && m'[id].order == m[id].order && m'[id].enqueuedAt == m[id].enqueuedAt
      && m'[id].flutterSeconds == m[id].flutterSeconds && m'[id].notBefore == m[id].notBefore
    ensures SameLine(Queue(m), Queue(m'))
  {
    var es := Queue(m);
    forall i | 0 <= i < |es| ensures es[i].id in m && m[es[i].id] == es[i] {
      assert es[i] in es;
    }
    var es' := seq(|es|, i requires 0 <= i < |es| => m'[es[i].id]);
    forall i, j | 0 <= i < j < |es'| ensures Before(es'[i], es'[j]) {
      assert Before(es[i], es[j]);
    }
    forall x ensures x in es' <==> x.id in m' && m'[x.id] == x {
      if x.id in m' && m'[x.id] == x {
        assert m[x.id] in es;
        var i :| 0 <= i < |es| && es[i] == m[x.id];
        assert es'[i] == x;
      }
    }
    QueueUnique(m', es');
  }

  // Reordering.

  /** What the entry in a place waits for. */
  function AnchorAt(ts: seq<U64>, previous: Option<U64>, i: nat): Option<U64>
    requires i < |ts|
  {
    if i == 0 then previous else Some(ts[i - 1])
  }

  /** Entries that would each be projected for the time of their place have those times. */
  lemma {:induction false} TimesInPlace(es: seq<StoredEntry>, ts: seq<U64>, previous: Option<U64>, cooldown: U64, now: U64)
    requires |es| == |ts| && forall i :: 0 <= i < |es| ==> PostAt(es[i], AnchorAt(ts, previous, i), cooldown, now) == ts[i]
    ensures PostTimes(es, previous, cooldown, now) == ts
    decreases |es|
  {
    hide PostAt;
    if es != [] {
      assert PostAt(es[0], AnchorAt(ts, previous, 0), cooldown, now) == ts[0];
      forall i | 0 <= i < |es[1..]| ensures PostAt(es[1..][i], AnchorAt(ts[1..], Some(ts[0]), i), cooldown, now) == ts[1..][i] {
        assert PostAt(es[i + 1], AnchorAt(ts, previous, i + 1), cooldown, now) == ts[i + 1];
      }
      TimesInPlace(es[1..], ts[1..], Some(ts[0]), cooldown, now);
    }
  }

  lemma {:induction false} TimesAscend(es: seq<StoredEntry>, previous: Option<U64>, cooldown: U64, now: U64, i: nat, j: nat)
    requires i <= j < |es|
    ensures PostTimes(es, previous, cooldown, now)[i] <= PostTimes(es, previous, cooldown, now)[j]
    decreases j - i
  {
    if i < j {
      TimesAscend(es, previous, cooldown, now, i, j - 1);
      TimesChain(es, previous, cooldown, now, j);
    }
  }

  /** An entry was projected for the time of this place already, and would be projected for it there. */
  ghost predicate FitsPlace(es: seq<StoredEntry>, ts: seq<U64>, previous: Option<U64>, cooldown: U64, now: U64, i: nat, e: StoredEntry)
    requires i < |ts| == |es|
  {
    && (exists j :: 0 <= j < |es| && es[j].id == e.id && ts[j] == ts[i])
    && PostAt(e, AnchorAt(ts, previous, i), cooldown, now) == ts[i]
  }

  /** Wherever another entry now stands, it fits the place. */
  ghost predicate Undisplaced(q: Pending, q': Pending, cooldown: U64, now: U64)
    requires WellKeyed(q.entries) && WellKeyed(q'.entries)
  {
    var es, es' := Queue(q.entries), Queue(q'.entries);
    var ts := PostTimes(es, Anchor(q), cooldown, now);
    && |es'| == |es|
    && forall i :: 0 <= i < |es| && es'[i].id != es[i].id ==> FitsPlace(es, ts, Anchor(q), cooldown, now, i, es'[i])
  }

  /** The same entries, perhaps in another order, with the fields the projection reads. */
  ghost predicate Reordered(q: Pending, q': Pending) {
    && q.entries.Keys == q'.entries.Keys && Anchor(q') == Anchor(q)
    && forall id :: id in q.entries ==>
      q'.entries[id].flutterSeconds == q.entries[id].flutterSeconds && q'.entries[id].notBefore == q.entries[id].notBefore
  }

  lemma UndisplacedTimes(q: Pending, q': Pending, cooldown: U64, now: U64)
    requires WellKeyed(q.entries) && WellKeyed(q'.entries) && Reordered(q, q') && Undisplaced(q, q', cooldown, now)
    ensures PostTimes(Queue(q'.entries), Anchor(q), cooldown, now) == PostTimes(Queue(q.entries), Anchor(q), cooldown, now)
  {
    hide PostTimes, Queue;
    var es, es' := Queue(q.entries), Queue(q'.entries);
    var ts := PostTimes(es, Anchor(q), cooldown, now);
    StoredFields(q.entries);
    StoredFields(q'.entries);
    forall i | 0 <= i < |es'| ensures PostAt(es'[i], AnchorAt(ts, Anchor(q), i), cooldown, now) == ts[i] {
      TimesChain(es, Anchor(q), cooldown, now, i);
    }
    TimesInPlace(es', ts, Anchor(q), cooldown, now);
  }

  lemma UndisplacedExact(s: AwaitSchedule, q: Pending, q': Pending, cooldown: U64)
    requires WellKeyed(q.entries) && WellKeyed(q'.entries) && Exact(s, q, cooldown)
    requires Reordered(q, q') && Undisplaced(q, q', cooldown, s.builtAt)
    ensures Exact(s, q', cooldown)
  {
    hide PostTimes, Queue, Exact, PostAt, Anchor;
    var es, es' := Queue(q.entries), Queue(q'.entries);
    var ts := PostTimes(es, Anchor(q), cooldown, s.builtAt);
    UndisplacedTimes(q, q', cooldown, s.builtAt);
    assert s.etas.Keys == q.entries.Keys by { ExactIffTimes(s, q, cooldown); }
    forall i | 0 <= i < |es'| ensures es'[i].id in s.etas && s.etas[es'[i].id] == Eta(ts[i], s.builtAt) {
      var j := if es'[i].id == es[i].id then i else var j :| 0 <= j < |es| && es[j].id == es'[i].id && ts[j] == ts[i]; j;
      EntryEta(s, q, cooldown, j);
    }
    ExactIffTimes(s, q', cooldown);
  }

  lemma EntryEta(s: AwaitSchedule, q: Pending, cooldown: U64, i: nat)
    requires WellKeyed(q.entries) && Exact(s, q, cooldown) && i < |Queue(q.entries)|
    ensures
      var e := Queue(q.entries)[i];
      e.id in s.etas && s.etas[e.id] == Eta(PostTimes(Queue(q.entries), Anchor(q), cooldown, s.builtAt)[i], s.builtAt)
  {
    hide PostTimes, Queue, Exact, PostAt;
    ExactIffTimes(s, q, cooldown);
  }

  /** Two arrangements of the same identifiers that both ascend by a measure have the same measures, place by place. */
  lemma SameMeasures(a: seq<string>, b: seq<string>, f: map<string, U64>, i: nat)
    requires i < |a| == |b| && Ascends(a, f) && Ascends(b, f) && forall x :: x in a <==> x in b
    ensures f[a[i]] == f[b[i]]
  {
    NotBelow(a, b, f, i);
    NotBelow(b, a, f, i);
  }

  ghost predicate Ascends(ids: seq<string>, f: map<string, U64>) {
    && (forall x :: x in ids ==> x in f)
    && (forall i, j :: 0 <= i < j < |ids| ==> ids[i] != ids[j])
    && (forall i, j :: 0 <= i <= j < |ids| ==> f[ids[i]] <= f[ids[j]])
  }

  lemma NotBelow(a: seq<string>, b: seq<string>, f: map<string, U64>, i: nat)
    requires i < |a| == |b| && Ascends(a, f) && Ascends(b, f) && forall x :: x in b ==> x in a
    ensures f[a[i]] >= f[b[i]]
  {
    if f[a[i]] < f[b[i]] {
      var high, room := Members(b[i..]), Members(a[i + 1..]);
      forall x | x in high ensures x in room {
        var j :| 0 <= j < |b[i..]| && b[i..][j] == x;
        assert b[i + j] == x && f[b[i]] <= f[x];
        assert x in a;
        var k :| 0 <= k < |a| && a[k] == x;
        assert k > i;
        assert a[i + 1..][k - i - 1] == x;
      }
      Elements(b[i..]);
      Elements(a[i + 1..]);
      SubsetSize(high, room);
    }
  }

  function Members(ids: seq<string>): set<string> {
    set x | x in ids
  }

  lemma {:induction false} Elements(ids: seq<string>)
    requires forall i, j :: 0 <= i < j < |ids| ==> ids[i] != ids[j]
    ensures |Members(ids)| == |ids|
  {
    if ids != [] {
      var last := |ids| - 1;
      Elements(ids[..last]);
      assert Members(ids) == Members(ids[..last]) + {ids[last]};
      assert ids[last] !in ids[..last];
    }
  }

  /** The estimates of an exact projection ascend along its line. */
  lemma ExactAscends(s: AwaitSchedule, q: Pending, cooldown: U64)
    requires WellKeyed(q.entries) && Exact(s, q, cooldown)
    ensures Ascends(Ids(Queue(q.entries)), s.etas)
  {
    hide PostTimes, Queue, Exact;
    var es, now := Queue(q.entries), s.builtAt;
    ExactIffTimes(s, q, cooldown);
    Listing(q.entries);
    forall i, j | 0 <= i <= j < |es| ensures s.etas[es[i].id] <= s.etas[es[j].id] {
      TimesAscend(es, Anchor(q), cooldown, now, i, j);
      TimesNotBefore(es, Anchor(q), cooldown, now, i);
    }
  }

  function Ids(es: seq<StoredEntry>): (ids: seq<string>)
    ensures |ids| == |es| && forall i :: 0 <= i < |es| ==> ids[i] == es[i].id
  {
    seq(|es|, i requires 0 <= i < |es| => es[i].id)
  }

  /** Exact for both arrangements: place by place the times are the same. */
  lemma SameTimes(s: AwaitSchedule, q: Pending, q': Pending, cooldown: U64, i: nat)
    requires WellKeyed(q.entries) && WellKeyed(q'.entries) && Exact(s, q, cooldown) && Exact(s, q', cooldown)
    requires Reordered(q, q') && i < |Queue(q.entries)|
    ensures |Queue(q'.entries)| == |Queue(q.entries)|
    ensures PostTimes(Queue(q'.entries), Anchor(q), cooldown, s.builtAt)[i] == PostTimes(Queue(q.entries), Anchor(q), cooldown, s.builtAt)[i]
  {
    hide PostTimes, Queue, Exact, Ascends;
    var es, es', now := Queue(q.entries), Queue(q'.entries), s.builtAt;
    ExactIffTimes(s, q, cooldown);
    ExactIffTimes(s, q', cooldown);
    ExactAscends(s, q, cooldown);
    ExactAscends(s, q', cooldown);
    SameLength(q.entries, q'.entries);
    SameMeasures(Ids(es), Ids(es'), s.etas, i);
    TimesNotBefore(es, Anchor(q), cooldown, now, i);
    TimesNotBefore(es', Anchor(q), cooldown, now, i);
  }

  lemma SameLength(m: Entries, m': Entries)
    requires WellKeyed(m) && WellKeyed(m') && m.Keys == m'.Keys
    ensures |Queue(m)| == |Queue(m')| && forall x :: x in Ids(Queue(m)) <==> x in Ids(Queue(m'))
  {
    hide Queue;
    IdsAreKeys(m);
    IdsAreKeys(m');
  }

  lemma IdsAreKeys(m: Entries)
    requires WellKeyed(m)
    ensures |Queue(m)| == |m.Keys| && forall x :: x in Ids(Queue(m)) <==> x in m
  {
    var es := Queue(m);
    Listing(m);
    forall x ensures x in Ids(es) <==> x in m {
      if x in m {
        var i :| 0 <= i < |es| && es[i].id == x;
        assert Ids(es)[i] == x;
      }
    }
    Elements(Ids(es));
    assert Members(Ids(es)) == m.Keys;
  }

  /** Reordering keeps a cached projection exact if and only if it displaces nothing. */
  lemma {:induction false} ReorderExactIff(s: AwaitSchedule, q: Pending, q': Pending, cooldown: U64)
    requires WellKeyed(q.entries) && WellKeyed(q'.entries) && Exact(s, q, cooldown) && Reordered(q, q')
    ensures Exact(s, q', cooldown) <==> Undisplaced(q, q', cooldown, s.builtAt)
  {
    hide Exact, Undisplaced, Reordered;
    if Exact(s, q', cooldown) {
      NothingDisplaced(s, q, q', cooldown);
    } else if Undisplaced(q, q', cooldown, s.builtAt) {
      UndisplacedExact(s, q, q', cooldown);
    }
  }

  lemma NothingDisplaced(s: AwaitSchedule, q: Pending, q': Pending, cooldown: U64)
    requires WellKeyed(q.entries) && WellKeyed(q'.entries) && Exact(s, q, cooldown) && Exact(s, q', cooldown)
    requires Reordered(q, q')
    ensures Undisplaced(q, q', cooldown, s.builtAt)
  {
    hide PostTimes, Queue, Exact, Anchor, Reordered, FitsPlace;
    var es, es', now := Queue(q.entries), Queue(q'.entries), s.builtAt;
    SameQueueLength(q, q');
    var ts := PostTimes(es, Anchor(q), cooldown, now);
    forall i | 0 <= i < |es| ensures FitsPlace(es, ts, Anchor(q), cooldown, now, i, es'[i]) {
      StoodAt(s, q, q', cooldown, i);
      StandsAt(s, q, q', cooldown, i);
      Placed(es, ts, Anchor(q), cooldown, now, i, es'[i]);
    }
  }

  lemma Placed(es: seq<StoredEntry>, ts: seq<U64>, previous: Option<U64>, cooldown: U64, now: U64, i: nat, e: StoredEntry)
    requires i < |ts| == |es| && PostAt(e, AnchorAt(ts, previous, i), cooldown, now) == ts[i]
    requires exists j :: 0 <= j < |es| && es[j].id == e.id && ts[j] == ts[i]
    ensures FitsPlace(es, ts, previous, cooldown, now, i, e)
  {
  }

  lemma SameQueueLength(q: Pending, q': Pending)
    requires WellKeyed(q.entries) && WellKeyed(q'.entries) && Reordered(q, q')
    ensures |Queue(q.entries)| == |Queue(q'.entries)|
  {
    hide Queue;
    SameLength(q.entries, q'.entries);
  }

  lemma StandsAt(s: AwaitSchedule, q: Pending, q': Pending, cooldown: U64, i: nat)
    requires WellKeyed(q.entries) && WellKeyed(q'.entries) && Exact(s, q, cooldown) && Exact(s, q', cooldown)
    requires Reordered(q, q') && i < |Queue(q.entries)| == |Queue(q'.entries)|
    ensures
      var ts := PostTimes(Queue(q.entries), Anchor(q), cooldown, s.builtAt);
      PostAt(Queue(q'.entries)[i], AnchorAt(ts, Anchor(q), i), cooldown, s.builtAt) == ts[i]
  {
    hide PostTimes, PostAt, Queue, Exact, Anchor;
    TimesChain(Queue(q'.entries), Anchor(q), cooldown, s.builtAt, i);
    SameTimes(s, q, q', cooldown, i);
    if i > 0 {
      SameTimes(s, q, q', cooldown, i - 1);
    }
  }

  lemma StoodAt(s: AwaitSchedule, q: Pending, q': Pending, cooldown: U64, i: nat)
    requires WellKeyed(q.entries) && WellKeyed(q'.entries) && Exact(s, q, cooldown) && Exact(s, q', cooldown)
    requires Reordered(q, q') && i < |Queue(q.entries)| == |Queue(q'.entries)|
    ensures
      var es, ts := Queue(q.entries), PostTimes(Queue(q.entries), Anchor(q), cooldown, s.builtAt);
      exists j :: 0 <= j < |es| && es[j].id == Queue(q'.entries)[i].id && ts[j] == ts[i]
  {
    hide PostTimes, PostAt, Queue, Exact, Anchor;
    var es, es', now := Queue(q.entries), Queue(q'.entries), s.builtAt;
    var ts := PostTimes(es, Anchor(q), cooldown, now);
    assert es'[i].id in q.entries by { StoredFields(q'.entries); }
    var j :| 0 <= j < |es| && es[j].id == es'[i].id by { Listing(q.entries); }
    EntryEta(s, q, cooldown, j);
    EntryEta(s, q', cooldown, i);
    SameTimes(s, q, q', cooldown, i);
    TimesNotBefore(es, Anchor(q), cooldown, now, j);
    TimesNotBefore(es, Anchor(q), cooldown, now, i);
    assert ts[j] == ts[i];
  }

  lemma StoredFields(m: Entries)
    requires WellKeyed(m)
    ensures forall i :: 0 <= i < |Queue(m)| ==> Queue(m)[i].id in m && m[Queue(m)[i].id] == Queue(m)[i]
  {
    var es := Queue(m);
    forall i | 0 <= i < |es| ensures es[i].id in m && m[es[i].id] == es[i] {
      assert es[i] in es;
    }
  }
}
