/**
The shared queue as waiters see it over time: one mutex, operations that change
files step by step while they hold it, and a version that only successful
mutations advance.
*/
module AwaitWorld {
  import opened Base
  import opened HistoryLog
  import opened ReverseScan
  import opened Disk
  import opened LogAppend
  import opened NewestRecord
  import opened AwaitLookup

  /** The version is a wrapping 64-bit counter. */
  const VERSIONS: nat := 0x1_0000_0000_0000_0000

  /**
  Who holds the mutex: nobody, a mutation that will succeed and advance the
  version, or an operation that will not. The last kind are the appends of
  failure records and mutations that will report failure; `before` is the
  directory they started from, `known` the lifetimes queued until then, and
  `record` what they append, if anything.
  */
  datatype Lock = Free | Versioned | Unversioned(before: Disk, known: set<string>, record: Option<HistoryRecord>)

  /** `lives` holds every lifetime queued so far, and `settled` those queued up to the last published mutation. */
  datatype Shared = Shared(disk: Disk, mutations: nat, lock: Lock, lives: set<string>, settled: set<string>) {
    function Version(): nat { mutations % VERSIONS }
  }

  type World = nat -> Shared

  /** The log is `before` and a prefix, perhaps all, of one appended record. */
  predicate Appending(c: Codec, before: seq<byte>, record: Option<HistoryRecord>, log: seq<byte>) {
    match record
    case None => log == before
    case Some(r) =>
      && |before| <= |log| <= |before| + |AppendedBytes(c, before, r)|
      && log == before + AppendedBytes(c, before, r)[..|log| - |before|]
  }

  predicate Appended(c: Codec, before: seq<byte>, record: Option<HistoryRecord>, log: seq<byte>) {
    record.Some? ==> |log| == |before| + |AppendedBytes(c, before, record.value)|
  }

  /**
  What an operation leaves that does not advance the version. It renames no
  lifetime. It may have queued a new one, and then has done nothing else. Where
  no entry is queued it only clears deletion markers, and only once its record
  is complete.
  */
  ghost predicate Unfinished(c: Codec, before: Disk, known: set<string>, record: Option<HistoryRecord>, now: Disk) {
    && Appending(c, before.history, record, now.history)
    && (forall id :: id in now.entries && id in before.entries ==> now.entries[id].incarnation == before.entries[id].incarnation)
    && (forall id :: id in now.entries && id !in before.entries ==>
      now.entries[id].incarnation !in known && now.history == before.history && now.tombstones == before.tombstones)
    && (forall id :: id in now.tombstones && id !in before.entries ==> id in before.tombstones)
    && (forall id :: id in before.tombstones && id !in now.tombstones ==> Appended(c, before.history, record, now.history))
  }

  /** Within such an operation, the log grows and markers of unqueued identifiers only go. */
  ghost predicate Onward(before: Disk, a: Disk, b: Disk) {
    && a.history <= b.history
    && (forall id :: id in b.tombstones && id !in before.entries ==> id in a.tombstones)
  }

  /** Nothing queued since the last published mutation is removed again without another. */
  ghost predicate KeepsNew(settled: set<string>, a: Disk, b: Disk) {
    forall id :: id in a.entries && a.entries[id].incarnation !in settled ==> id in b.entries
  }

  ghost predicate Next(c: Codec, a: Shared, b: Shared) {
    && a.lives <= b.lives
    && b.settled == (if a.lock.Versioned? && b.lock.Free? then a.lives else a.settled)
    && (forall id :: id in b.disk.entries ==> b.disk.entries[id].incarnation in b.lives)
    && match a.lock
       case Free =>
         || b == a || b == a.(lock := Versioned)
         || (b.lock.Unversioned? && b == a.(lock := Unversioned(a.disk, a.lives, b.lock.record)))
       case Versioned =>
         || (b.lock.Versioned? && b.mutations == a.mutations && a.disk.history <= b.disk.history)
         || b == a.(lock := Free, mutations := a.mutations + 1, settled := a.lives)
       case Unversioned(before, known, record) =>
         || (b.lock == a.lock && b.mutations == a.mutations
             && Unfinished(c, before, known, record, b.disk) && Onward(before, a.disk, b.disk)
             && KeepsNew(a.settled, a.disk, b.disk))
         || b == a.(lock := Free)
  }

  ghost predicate StepAt(c: Codec, w: World, t: nat) {
    Next(c, w(t), w(t + 1))
  }

  ghost predicate Legal(c: Codec, w: World) {
    && w(0).lock.Free? && w(0).settled <= w(0).lives
    && (forall id :: id in w(0).disk.entries ==> w(0).disk.entries[id].incarnation in w(0).lives)
    && forall t: nat :: StepAt(c, w, t)
  }

  lemma {:induction false} Monotone(c: Codec, w: World, t: nat, u: nat)
    requires Legal(c, w) && t <= u
    ensures w(t).mutations <= w(u).mutations && w(t).disk.history <= w(u).disk.history && w(t).lives <= w(u).lives
    decreases u - t
  {
    if t < u {
      assert StepAt(c, w, t);
      Monotone(c, w, t + 1, u);
    }
  }

  /** A successful mutation has advanced the version by the time the mutex is free again. */
  lemma {:induction false} VersionedAdvances(c: Codec, w: World, t: nat, u: nat)
    requires Legal(c, w) && t <= u && w(t).lock.Versioned? && w(u).lock.Free?
    ensures w(t).mutations < w(u).mutations
    decreases u - t
  {
    assert StepAt(c, w, t);
    if w(t + 1).lock.Versioned? {
      VersionedAdvances(c, w, t + 1, u);
    } else {
      Monotone(c, w, t + 1, u);
    }
  }

  /** Two moments with the mutex free and no mutation counted in between. */
  ghost predicate Quiet(w: World, t1: nat, t2: nat) {
    t1 <= t2 && w(t1).lock.Free? && w(t2).lock.Free? && w(t1).mutations == w(t2).mutations
  }

  lemma QuietMoment(c: Codec, w: World, t1: nat, t: nat, t2: nat)
    requires Legal(c, w) && Quiet(w, t1, t2) && t1 <= t <= t2
    ensures !w(t).lock.Versioned? && w(t).mutations == w(t1).mutations
  {
    Monotone(c, w, t1, t);
    Monotone(c, w, t, t2);
    if w(t).lock.Versioned? {
      VersionedAdvances(c, w, t, t2);
    }
  }

  /** The last moment up to `t` at which the mutex was free. */
  ghost function Since(w: World, t: nat): nat {
    if w(t).lock.Free? || t == 0 then t else Since(w, t - 1)
  }

  /** The first moment from `t` to `u` at which the mutex is free. */
  ghost function Until(w: World, t: nat, u: nat): nat
    requires t <= u
    decreases u - t
  {
    if w(t).lock.Free? || t == u then t else Until(w, t + 1, u)
  }

  /** An unversioned operation started from the directory of the last free moment. */
  lemma {:induction false} StartedFrom(c: Codec, w: World, t1: nat, t: nat)
    requires Legal(c, w) && t1 <= t && w(t1).lock.Free?
    ensures t1 <= Since(w, t) <= t && w(Since(w, t)).lock.Free?
    ensures
      var lock := w(t).lock;
      lock.Unversioned? ==>
        && w(Since(w, t)).disk == lock.before && w(Since(w, t)).lives == lock.known
        && Unfinished(c, lock.before, lock.known, lock.record, w(t).disk)
    decreases t
  {
    if !w(t).lock.Free? {
      assert StepAt(c, w, t - 1);
      StartedFrom(c, w, t1, t - 1);
      if w(t).lock.Unversioned? && w(t - 1).lock.Free? {
        NotStarted(c, w(t).disk, w(t).lock.known, w(t).lock.record);
      }
    }
  }

  lemma NotStarted(c: Codec, before: Disk, known: set<string>, record: Option<HistoryRecord>)
    ensures Unfinished(c, before, known, record, before)
  {
    if record.Some? {
      assert before.history + AppendedBytes(c, before.history, record.value)[..0] == before.history;
    }
  }

  /** Where the operation has got to when it ends. */
  lemma {:induction false} EndsAs(c: Codec, w: World, t: nat, u: nat)
    requires Legal(c, w) && t <= u && w(u).lock.Free? && !w(t).lock.Versioned?
    requires w(t).lock.Unversioned? ==> Unfinished(c, w(t).lock.before, w(t).lock.known, w(t).lock.record, w(t).disk)
    ensures
      var e := Until(w, t, u);
      && t <= e <= u && w(e).lock.Free?
      && (w(t).lock.Unversioned? ==>
        && Unfinished(c, w(t).lock.before, w(t).lock.known, w(t).lock.record, w(e).disk)
        && Onward(w(t).lock.before, w(t).disk, w(e).disk))
    decreases u - t
  {
    if !w(t).lock.Free? {
      assert StepAt(c, w, t);
      EndsAs(c, w, t + 1, u);
    }
  }

  /** In a quiet stretch the settled lifetimes stay the same, and all of them are known. */
  lemma {:induction false} SettledKnown(c: Codec, w: World, t: nat)
    requires Legal(c, w)
    ensures w(t).settled <= w(t).lives
    decreases t
  {
    if t > 0 {
      assert StepAt(c, w, t - 1);
      SettledKnown(c, w, t - 1);
    }
  }

  lemma {:induction false} SettledInQuiet(c: Codec, w: World, t1: nat, t: nat, t2: nat)
    requires Legal(c, w) && Quiet(w, t1, t2) && t1 <= t <= t2
    ensures w(t).settled == w(t1).settled
    decreases t
  {
    if t1 < t {
      assert StepAt(c, w, t - 1);
      QuietMoment(c, w, t1, t - 1, t2);
      SettledInQuiet(c, w, t1, t - 1, t2);
    }
  }

  /** What an unpublished operation finds queued keeps its lifetime, if it stays. */
  lemma SameLifetime(c: Codec, w: World, t1: nat, t: nat, t2: nat, id: string)
    requires Legal(c, w) && Quiet(w, t1, t2) && t1 < t <= t2
    ensures
      var s := Since(w, t - 1);
      && t1 <= s < t && w(s).lock.Free? && w(s).lives <= w(t).lives
      && (id in w(s).disk.entries && id in w(t).disk.entries ==>
          w(t).disk.entries[id].incarnation == w(s).disk.entries[id].incarnation)
      && (id !in w(s).disk.entries && id in w(t).disk.entries ==> w(t).disk.entries[id].incarnation !in w(s).lives)
  {
    hide Appending, Appended;
    assert StepAt(c, w, t - 1);
    QuietMoment(c, w, t1, t - 1, t2);
    StartedFrom(c, w, t1, t - 1);
    Monotone(c, w, Since(w, t - 1), t);
  }

  /** What is queued in a quiet stretch and was not at its start is a new lifetime. */
  lemma {:induction false} QueuedSince(c: Codec, w: World, t1: nat, t: nat, t2: nat, id: string, cursor: Option<AwaitCursor>)
    requires Legal(c, w) && Quiet(w, t1, t2) && t1 <= t <= t2 && w(t).lock.Free?
    requires PendingLookup(w(t1).disk, id, cursor) == None && PendingLookup(w(t).disk, id, cursor).Some?
    ensures id in w(t).disk.entries && w(t).disk.entries[id].incarnation !in w(t1).settled
    decreases t
  {
    hide Legal, Quiet;
    if t1 < t {
      SameLifetime(c, w, t1, t, t2, id);
      var s := Since(w, t - 1);
      if PendingLookup(w(s).disk, id, cursor).Some? {
        QueuedSince(c, w, t1, s, t2, id, cursor);
      } else {
        SettledInQuiet(c, w, t1, s, t2);
        SettledKnown(c, w, s);
      }
    }
  }

  /** And it stays queued to the end of the stretch. */
  lemma {:induction false} StaysQueued(c: Codec, w: World, t1: nat, t: nat, u: nat, t2: nat, id: string)
    requires Legal(c, w) && Quiet(w, t1, t2) && t1 <= t <= u <= t2 && w(t).lock.Free?
    requires id in w(t).disk.entries && w(t).disk.entries[id].incarnation !in w(t1).settled
    ensures id in w(u).disk.entries && w(u).disk.entries[id].incarnation == w(t).disk.entries[id].incarnation
    decreases u
  {
    hide Unfinished, Onward;
    if t < u {
      StaysQueued(c, w, t1, t, u - 1, t2, id);
      assert StepAt(c, w, u - 1);
      QuietMoment(c, w, t1, u - 1, t2);
      SettledInQuiet(c, w, t1, u - 1, t2);
      SameLifetime(c, w, t1, u, t2, id);
      SinceFree(w, t, u - 1);
      StaysQueued(c, w, t1, t, Since(w, u - 1), t2, id);
    }
  }

  lemma {:induction false} SinceFree(w: World, t: nat, u: nat)
    requires t <= u && w(t).lock.Free?
    ensures t <= Since(w, u) <= u
    decreases u
  {
    if !w(u).lock.Free? {
      SinceFree(w, t, u - 1);
    }
  }

  /** With nothing pending at both ends of a quiet stretch, nothing is pending whenever the mutex is free in it. */
  lemma {:induction false} StillNotPending(c: Codec, w: World, t1: nat, t: nat, t2: nat, id: string, cursor: Option<AwaitCursor>)
    requires Legal(c, w) && Quiet(w, t1, t2) && t1 <= t <= t2 && w(t).lock.Free?
    requires PendingLookup(w(t1).disk, id, cursor) == None && PendingLookup(w(t2).disk, id, cursor) == None
    ensures PendingLookup(w(t).disk, id, cursor) == None
  {
    hide Legal, Quiet;
    if PendingLookup(w(t).disk, id, cursor).Some? {
      QueuedSince(c, w, t1, t, t2, id, cursor);
      StaysQueued(c, w, t1, t, t2, t2, id);
    }
  }

  /** A deletion marker that is gone stays gone while its identifier is not queued. */
  lemma {:induction false} StaysUnmarked(c: Codec, w: World, t1: nat, t: nat, u: nat, t2: nat, id: string)
    requires Legal(c, w) && Quiet(w, t1, t2) && t1 <= t <= u <= t2
    requires id !in w(t1).disk.entries && id !in w(t2).disk.entries && id !in w(t).disk.tombstones
    ensures id !in w(u).disk.tombstones
    decreases u
  {
    hide Appending, Appended;
    if t < u {
      StaysUnmarked(c, w, t1, t, u - 1, t2, id);
      assert StepAt(c, w, u - 1);
      QuietMoment(c, w, t1, u - 1, t2);
      StartedFrom(c, w, t1, u - 1);
      StillNotPending(c, w, t1, Since(w, u - 1), t2, id, None);
    }
  }

  // The linearization point of one unlocked scan.

  /** What the unlocked scan answers: the marker is read first, the log later. */
  function Scanned(c: Codec, marks: Disk, log: seq<byte>, id: string, cursor: Option<AwaitCursor>): AwaitState {
    if cursor.None? && id in marks.tombstones then Unknown else Outcome(LatestIn(c, log, id, cursor))
  }

  function Offset(cursor: Option<AwaitCursor>): nat {
    if cursor.Some? then cursor.value.offset else 0
  }

  lemma LatestIsNewest(c: Codec, log: seq<byte>, id: string, cursor: Option<AwaitCursor>)
    requires Offset(cursor) <= |log|
    ensures LatestIn(c, log, id, cursor) == Newest(Records(Reverse(c), log, Offset(cursor)), id, cursor)
  {
    assert log[..|log|] == log;
  }

  /** While a record is appended, a scan finds what it would before or what it will at any later point. */
  lemma {:induction false} AppendingLatest(c: Codec, before: seq<byte>, record: Option<HistoryRecord>, log: seq<byte>, later: seq<byte>,
                        id: string, cursor: Option<AwaitCursor>)
    requires Lawful(c) && Offset(cursor) <= |before|
    requires Appending(c, before, record, log) && Appending(c, before, record, later) && log <= later
    ensures || LatestIn(c, log, id, cursor) == LatestIn(c, later, id, cursor)
            || (!Appended(c, before, record, log) && LatestIn(c, log, id, cursor) == LatestIn(c, before, id, cursor))
  {
    hide Lawful, Records, Newest, LatestIn, AppendedBytes, Reverse;
    LatestIsNewest(c, before, id, cursor);
    LatestIsNewest(c, log, id, cursor);
    LatestIsNewest(c, later, id, cursor);
    if record.Some? {
      var r := record.value;
      AppendedLength(c, before, r);
      AppendNewest(c, before, r, |log| - |before|, Offset(cursor), id, cursor);
      AppendNewest(c, before, r, |later| - |before|, Offset(cursor), id, cursor);
    }
  }

  /** A moment in a quiet stretch at which a locked lookup would have given the scan's answer. */
  ghost function Point(c: Codec, w: World, marked: nat, read: nat, t2: nat, id: string, cursor: Option<AwaitCursor>): nat
    requires read <= t2
  {
    if cursor.None? && id in w(marked).disk.tombstones then Since(w, marked)
    else if LatestIn(c, w(read).disk.history, id, cursor) == LatestIn(c, w(Until(w, read, t2)).disk.history, id, cursor)
    then Until(w, read, t2)
    else Since(w, read)
  }

  /**
  An unlocked scan between two locked observations that found nothing pending
  and the same version answers as a locked lookup at one moment in between,
  whatever operations fail or append failure records meanwhile.
  */
  lemma ScanIsLookup(c: Codec, w: World, t1: nat, marked: nat, read: nat, t2: nat, id: string, cursor: Option<AwaitCursor>)
    requires Lawful(c) && Legal(c, w) && Quiet(w, t1, t2) && t1 <= marked <= read <= t2
    requires PendingLookup(w(t1).disk, id, cursor) == None && PendingLookup(w(t2).disk, id, cursor) == None
    requires Offset(cursor) <= |w(t1).disk.history|
    ensures
      var t := Point(c, w, marked, read, t2, id, cursor);
      && t1 <= t <= t2 && w(t).lock.Free?
      && Lookup(c, w(t).disk, id, cursor) == Scanned(c, w(marked).disk, w(read).disk.history, id, cursor)
  {
    hide Lawful, LatestIn, Legal;
    StartedFrom(c, w, t1, marked);
    StartedFrom(c, w, t1, read);
    QuietMoment(c, w, t1, marked, t2);
    QuietMoment(c, w, t1, read, t2);
    EndsAs(c, w, read, t2);
    var t := Point(c, w, marked, read, t2, id, cursor);
    StillNotPending(c, w, t1, t, t2, id, cursor);
    StillNotPending(c, w, t1, Since(w, marked), t2, id, cursor);
    if !(cursor.None? && id in w(marked).disk.tombstones) {
      if cursor.None? {
        StaysUnmarked(c, w, t1, marked, Until(w, read, t2), t2, id);
        StaysUnmarked(c, w, t1, marked, read, t2, id);
      }
      if w(read).lock.Unversioned? {
        var before, record := w(read).lock.before, w(read).lock.record;
        Monotone(c, w, t1, Since(w, read));
        AppendingLatest(c, before.history, record, w(read).disk.history, w(Until(w, read, t2)).disk.history, id, cursor);
        if cursor.None? && t == Since(w, read) {
          UnmarkedAtStart(c, w, t1, marked, read, t2, id);
        }
      }
    }
  }

  /** A marker missing while the record is not complete was missing when the operation began. */
  lemma UnmarkedAtStart(c: Codec, w: World, t1: nat, marked: nat, read: nat, t2: nat, id: string)
    requires Legal(c, w) && Quiet(w, t1, t2) && t1 <= marked <= read <= t2
    requires id !in w(t1).disk.entries && id !in w(t2).disk.entries && id !in w(marked).disk.tombstones
    requires w(read).lock.Unversioned? && !Appended(c, w(read).lock.before.history, w(read).lock.record, w(read).disk.history)
    ensures id !in w(Since(w, read)).disk.tombstones
  {
    hide Legal;
    StartedFrom(c, w, t1, read);
    StaysUnmarked(c, w, t1, marked, read, t2, id);
  }
}
