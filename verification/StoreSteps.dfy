/** The effect of every prefix of a store operation on the queue directory. */
module StoreSteps {
  import opened Base
  import opened HistoryLog
  import opened QueueOrder
  import opened Bounds
  import opened Disk
  import opened Recovery

  /** Recovery of one prefix: the history and at most the journaled entry, marker and last post change. */
  lemma {:induction false} ReconcileEffect(c: Codec, d: Disk, k: nat)
    requires d.journal.Some? && k <= |ReconcileOps(c, d)|
    ensures
      var j := d.journal.value;
      var d' := Run(d, ReconcileOps(c, d)[..k]);
      && d'.lastAttempt == d.lastAttempt
      && (d'.entries == d.entries || (DropOps(d, j) != [] && d'.entries == d.entries - {j.id}))
      && (d'.tombstones == d.tombstones || (UnmarkOps(d, j) != [] && d'.tombstones == d.tombstones - {j.id}))
      && (d'.entries != d.entries && UnmarkOps(d, j) != [] ==> d'.tombstones == d.tombstones - {j.id})
      && (k < |ReconcileOps(c, d)| ==> d'.journal == Some(j) && (d'.lastPost == d.lastPost || d'.lastPost == Some(j.postedAt)))
      && (k == |ReconcileOps(c, d)| ==>
        && d'.journal == None && d'.lastPost == Some(j.postedAt)
        && (UnmarkOps(d, j) != [] ==> d'.tombstones == d.tombstones - {j.id})
        && (DropOps(d, j) != [] ==> d'.entries == d.entries - {j.id}))
  {
    hide Run, AppendOps, AppendedBytes, AlreadyRecorded, ReconcileOps;
    var j := d.journal.value;
    var a, t := RecordOps(c, d, j), TailOps(d, j);
    TailUnaffected(c, d, j);
    RunPrefix(d, a, t, k);
    var n := Min(k, |a|);
    RecordEffect(c, d, j, n);
    assert a[..|a|] == a;
    if k > |a| {
      var mid := Run(d, a);
      TailStep(mid, j, k - |a|);
      assert DropOps(mid, j) == DropOps(d, j) && UnmarkOps(mid, j) == UnmarkOps(d, j);
    }
  }

  lemma NoJournal(c: Codec, d: Disk)
    requires d.journal.None?
    ensures ReconcileOps(c, d) == [] && Run(d, ReconcileOps(c, d)[..0]) == d && Run(d, ReconcileOps(c, d)) == d
  {
  }

  lemma {:induction false} RecordEffect(c: Codec, d: Disk, j: Journal, k: nat)
    requires k <= |RecordOps(c, d, j)|
    ensures
      var d' := Run(d, RecordOps(c, d, j)[..k]);
      d' == d.(history := d'.history)
  {
    hide AppendOps, AppendedBytes, AlreadyRecorded;
    if RecordOps(c, d, j) != [] {
      RunAppend(d, AppendedBytes(c, d.history, j.history.value), k);
    }
  }

  /** How far a completion cut after `k` file operations has written its record, and whether its journal stands. */
  lemma CompletionLog(c: Codec, d: Disk, e: StoredEntry, r: HistoryRecord, k: nat)
    requires k <= |CompleteOps(c, d, e, r)|
    ensures
      var d', bytes := Run(d, CompleteOps(c, d, e, r)[..k]), AppendedBytes(c, d.history, r);
      && d'.history == d.history + bytes[..if k == 0 then 0 else Min(k - 1, |bytes|)]
      && (0 < k < |CompleteOps(c, d, e, r)| ==> d'.journal == Some(CompletionJournal(d, e, r)))
      && (k == |CompleteOps(c, d, e, r)| ==> d'.journal == None && d'.lastPost == Some(r.postedAt) && d'.history == d.history + bytes)
  {
    hide Run, Records, AppendOps, AppendedBytes, UnmarkOps, DropOps;
    var j, bytes := CompletionJournal(d, e, r), AppendedBytes(c, d.history, r);
    var journaled := d.(journal := Some(j));
    RecordsFirst(Forward(c), d.history, |d.history|);
    var a, t := RecordOps(c, journaled, j), TailOps(journaled, j);
    assert a == AppendOps(bytes);
    TailUnaffected(c, journaled, j);
    assert bytes[..0] == [] && bytes[..|bytes|] == bytes;
    if k == 0 {
      RunShort(d, [], 0);
    } else {
      RunPrefixRest(d, [SetJournal(j)], a + t, k);
      RunShort(d, [SetJournal(j)], 1);
      RunPrefix(journaled, a, t, k - 1);
      RunAppend(journaled, bytes, Min(k - 1, |bytes|));
      assert a[..|a|] == a;
      if k - 1 > |a| {
        TailStep(Run(journaled, a), j, k - 1 - |a|);
      }
    }
  }

  /** An entry that recovery has to give a lifetime. */
  predicate Nameless(m: Entries, id: string) {
    id in m && m[id].incarnation == ""
  }

  /** Identifiers for the nameless entries, of the right length and not shared. */
  ghost predicate Uuids(uuid: string -> string, m: Entries) {
    && (forall id :: Nameless(m, id) ==> |uuid(id)| == UUID_CHARS)
    && (forall a, b :: Nameless(m, a) && Nameless(m, b) && a != b ==> uuid(a) != uuid(b))
  }

  /** Reconciling makes no entry nameless. */
  lemma ReconcileNameless(c: Codec, d: Disk, uuid: string -> string, k: nat)
    requires k <= |ReconcileOps(c, d)|
    ensures
      var m := Run(d, ReconcileOps(c, d)[..k]).entries;
      && (forall id :: Nameless(m, id) ==> Nameless(d.entries, id))
      && (Uuids(uuid, d.entries) ==> Uuids(uuid, m))
  {
    hide ReconcileOps, Run, UnmarkOps, DropOps;
    if d.journal.None? {
      NoJournal(c, d);
    } else {
      ReconcileEffect(c, d, k);
    }
    assert forall id :: Nameless(Run(d, ReconcileOps(c, d)[..k]).entries, id) ==> Nameless(d.entries, id);
  }

  /** `b` is `a` with some of its entries reclaimed. */
  ghost predicate Partly(a: Entries, b: Entries, uuid: string -> string) {
    && a.Keys == b.Keys
    && forall id :: id in a ==> b[id] == a[id] || b[id] == Reclaimed(a[id], uuid)
  }

  /** The entries of `es` stand in `m` as they are listed. */
  ghost predicate StandIn(es: seq<StoredEntry>, m: Entries) {
    && (forall i, j :: 0 <= i < j < |es| ==> es[i].id != es[j].id)
    && (forall i :: 0 <= i < |es| ==> es[i].id in m && m[es[i].id] == es[i])
  }

  lemma ReclaimOne(fixed: FixedBytes, m: Entries, e: StoredEntry, uuid: string -> string)
    requires Admitted(fixed, m) && e.id in m && m[e.id] == e && Uuids(uuid, m)
    ensures Refusal(fixed, m, Reclaimed(e, uuid)) == None
    ensures Admitted(fixed, m[e.id := Reclaimed(e, uuid)])
  {
    hide Refusal, Admitted;
    assert Nameless(m, e.id) <==> e.incarnation == "";
    assert UuidFields(e) by { AdmittedEntry(fixed, m, e.id); }
    AdmittedEntry(fixed, m, e.id);
    MutationNeverRefused(fixed, m, Reclaimed(e, uuid));
  }

  lemma AdmittedEntry(fixed: FixedBytes, m: Entries, id: string)
    requires Admitted(fixed, m) && id in m
    ensures UuidFields(m[id]) && m[id].id == id
  {
  }

  /** `d'` is what reclaiming the entries `es` makes of `d` when `next` are the file operations still to do. */
  ghost predicate ReclaimedTo(fixed: FixedBytes, d: Disk, d': Disk, es: seq<StoredEntry>, uuid: string -> string,
                              next: seq<FileOp>) {
    && d' == d.(entries := d'.entries)
    && Partly(d.entries, d'.entries, uuid)
    && Admitted(fixed, d'.entries)
    && (next != [] ==> next[0].PutEntry? && Refusal(fixed, d'.entries, next[0].entry) == None)
    && (next == [] ==> forall i :: 0 <= i < |es| ==> es[i].id in d'.entries && d'.entries[es[i].id] == Reclaimed(es[i], uuid))
  }

  /** Reclaiming is never refused, touches only entries, and reclaims all of them when it finishes. */
  lemma {:induction false} ReclaimEffect(fixed: FixedBytes, d: Disk, es: seq<StoredEntry>, uuid: string -> string, k: nat)
    requires Admitted(fixed, d.entries) && StandIn(es, d.entries) && Uuids(uuid, d.entries)
    requires k <= |ReclaimOps(es, uuid)|
    ensures
      var ops := ReclaimOps(es, uuid);
      ReclaimedTo(fixed, d, Run(d, ops[..k]), es, uuid, ops[k..])
    decreases |es|
  {
    hide Admitted, Refusal, Run, Reclaimed;
    if es == [] {
      assert Run(d, []) == d by { RunShort(d, [], 0); }
    } else {
      var first := FirstReclaim(es[0], uuid);
      var rest := ReclaimOps(es[1..], uuid);
      ReclaimOne(fixed, d.entries, es[0], uuid);
      RunPrefix(d, first, rest, k);
      if k < |first| {
        RunShort(d, first, 0);
        assert (first + rest)[k..][0] == first[0];
      } else {
        var d1 := d.(entries := d.entries[es[0].id := Reclaimed(es[0], uuid)]);
        assert Run(d, first) == d1 by { ReclaimFirst(d, es[0], uuid); }
        var m := k - |first|;
        assert Run(d, (first + rest)[..k]) == Run(d1, rest[..m]) by { RunPrefixRest(d, first, rest, k); }
        assert StandIn(es[1..], d1.entries);
        assert Uuids(uuid, d1.entries) by { StillUuids(d.entries, es[0], uuid); }
        ReclaimEffect(fixed, d1, es[1..], uuid, m);
        assert (first + rest)[k..] == rest[m..];
        ReclaimRest(fixed, d, d1, Run(d1, rest[..m]), es, uuid, rest[m..]);
      }
    }
  }

  lemma StillUuids(m: Entries, e: StoredEntry, uuid: string -> string)
    requires Uuids(uuid, m) && e.id in m && m[e.id] == e
    ensures Uuids(uuid, m[e.id := Reclaimed(e, uuid)])
  {
    var m' := m[e.id := Reclaimed(e, uuid)];
    assert forall id :: Nameless(m', id) ==> Nameless(m, id);
  }

  lemma ReclaimFirst(d: Disk, e: StoredEntry, uuid: string -> string)
    requires e.id in d.entries && d.entries[e.id] == e
    ensures Run(d, FirstReclaim(e, uuid)) == d.(entries := d.entries[e.id := Reclaimed(e, uuid)])
  {
    RunShort(d, FirstReclaim(e, uuid), 0);
    assert d.entries[e.id := e] == d.entries;
  }

  lemma RunPrefixRest(d: Disk, a: seq<FileOp>, b: seq<FileOp>, k: nat)
    requires |a| <= k <= |a| + |b|
    ensures Run(d, (a + b)[..k]) == Run(Run(d, a), b[..k - |a|])
  {
    assert (a + b)[..k] == a + b[..k - |a|];
    RunConcat(d, a, b[..k - |a|]);
  }

  lemma {:induction false} ReclaimRest(fixed: FixedBytes, d: Disk, d1: Disk, d': Disk, es: seq<StoredEntry>, uuid: string -> string,
                    next: seq<FileOp>)
    requires es != [] && StandIn(es, d.entries)
    requires d1 == d.(entries := d.entries[es[0].id := Reclaimed(es[0], uuid)])
    requires ReclaimedTo(fixed, d1, d', es[1..], uuid, next)
    ensures ReclaimedTo(fixed, d, d', es, uuid, next)
  {
    hide Admitted, Refusal;
    if next == [] {
      assert forall i :: 0 <= i < |es| ==> es[i].id in d'.entries;
      ReclaimedAll(es, uuid, d'.entries, d1.entries);
    }
  }

  lemma ReclaimedAll(es: seq<StoredEntry>, uuid: string -> string, m: Entries, before: Entries)
    requires es != [] && Partly(before, m, uuid)
    requires es[0].id in before && before[es[0].id] == Reclaimed(es[0], uuid)
    requires forall i :: 0 <= i < |es| ==> es[i].id in m
    requires forall i :: 0 <= i < |es[1..]| ==> m[es[1..][i].id] == Reclaimed(es[1..][i], uuid)
    ensures forall i :: 0 <= i < |es| ==> m[es[i].id] == Reclaimed(es[i], uuid)
  {
    assert Reclaimed(Reclaimed(es[0], uuid), uuid) == Reclaimed(es[0], uuid);
    assert forall i :: 1 <= i < |es| ==> es[i] == es[1..][i - 1];
  }

  lemma QueueStands(m: Entries)
    requires WellKeyed(m)
    ensures StandIn(Queue(m), m)
    ensures forall id :: id in m ==> exists i :: 0 <= i < |Queue(m)| && Queue(m)[i] == m[id]
  {
    var s := Queue(m);
    forall i | 0 <= i < |s| ensures s[i].id in m && m[s[i].id] == s[i] {
      assert s[i] in s;
    }
    forall i, j | 0 <= i < j < |s| ensures s[i].id != s[j].id {
      BeforeTotal(s[i], s[i]);
    }
    forall id | id in m ensures exists i :: 0 <= i < |s| && s[i] == m[id] {
      assert m[id] in s;
    }
  }

  ghost function QueueOrNone(m: Entries): seq<StoredEntry> {
    if WellKeyed(m) then Queue(m) else []
  }

  /** `recover_worker_state`: reconcile the journal before reclaiming claims. */
  ghost function RecoverOps(c: Codec, d: Disk, uuid: string -> string): seq<FileOp> {
    var a := ReconcileOps(c, d);
    a + ReclaimOps(QueueOrNone(Run(d, a).entries), uuid)
  }

  /** `open`: recover, then clear the deletion markers of entries that are still queued. */
  ghost function OpenOps(c: Codec, d: Disk, uuid: string -> string): seq<FileOp> {
    var a := RecoverOps(c, d, uuid);
    var d' := Run(d, a);
    a + UnmarkQueuedOps(QueueOrNone(d'.entries), d'.tombstones)
  }

  lemma {:induction false} UnmarkQueuedEffect(d: Disk, es: seq<StoredEntry>, marks: map<string, string>, k: nat)
    requires k <= |UnmarkQueuedOps(es, marks)|
    requires forall id :: id in d.tombstones ==> id in marks
    ensures
      var ops := UnmarkQueuedOps(es, marks);
      var d' := Run(d, ops[..k]);
      && d' == d.(tombstones := d'.tombstones)
      && (forall id :: id in d'.tombstones ==> id in d.tombstones && d'.tombstones[id] == d.tombstones[id])
      && (forall id :: id in d.tombstones && id !in d'.tombstones ==> exists i :: 0 <= i < |es| && es[i].id == id)
      && (k == |ops| ==> forall i :: 0 <= i < |es| ==> es[i].id !in d'.tombstones)
    decreases |es|
  {
    hide Run;
    if es == [] {
      RunShort(d, [], 0);
    } else {
      var e := es[0];
      var first := if e.id in marks then [ClearTombstone(e.id)] else [];
      var rest := UnmarkQueuedOps(es[1..], marks);
      RunPrefix(d, first, rest, k);
      RunShort(d, first, Min(k, |first|));
      assert first[..|first|] == first;
      if k >= |first| {
        var d1 := Run(d, first);
        RunPrefixRest(d, first, rest, k);
        UnmarkQueuedEffect(d1, es[1..], marks, k - |first|);
      }
    }
  }

}
