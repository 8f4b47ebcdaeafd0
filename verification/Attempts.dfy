/**
What the daemon writes about its attempts, and token rotation over its runs:
every completion, failure record and recovery, cut off anywhere.
*/
module Attempts {
  import opened Base
  import opened HistoryLog
  import opened QueueOrder
  import opened Bounds
  import opened Disk
  import opened Recovery
  import opened LogAppend
  import opened NewestRecord
  import opened StoreSteps
  import opened Machine
  import opened Lineage
  import opened Lifetimes
  import B = BoundWaits
  import T = TokenRotation

  // The log as its records.

  function RecordsOf(rs: seq<Located>): (r: seq<HistoryRecord>)
    ensures |r| == |rs| && forall i :: 0 <= i < |rs| ==> r[i] == rs[i].record
  {
    seq(|rs|, i requires 0 <= i < |rs| => rs[i].record)
  }

  /** The records of the log, oldest first. */
  function Log(c: Codec, log: seq<byte>): seq<HistoryRecord> {
    RecordsOf(Records(Reverse(c), log, 0))
  }

  /** Appending a record adds it once its text is whole, and changes nothing before that. */
  lemma AppendLog(c: Codec, log: seq<byte>, r: HistoryRecord, k: nat)
    requires Lawful(c) && |c.encode(r)| < MAX_HISTORY_LINE_BYTES && k <= |AppendedBytes(c, log, r)|
    ensures Log(c, log + AppendedBytes(c, log, r)[..k])
         == if k >= |Separator(log)| + |c.encode(r)| then Log(c, log) + [r] else Log(c, log)
  {
    hide Records, Lawful, Reverse, AppendedBytes;
    AppendedPrefix(c, log, r, k);
    AppendedLength(c, log, r);
    if k >= |Separator(log)| {
      var m := k - |Separator(log)|;
      var line := (c.encode(r) + [NEWLINE])[..m];
      TornReverse(c, r, m);
      T.SeparatedRecords(c, log, line);
      ReverseNeutral(c);
      SeparatedSame(Reverse(c), log, 0);
    }
  }

  // What an attempt writes.

  predicate TellsOf(s: State, ev: Event, r: HistoryRecord)
    requires (ev.Complete? || ev.Record?) && s.worker.Posting?
  {
    if ev.Complete?
    then Tells(r, s.worker.entry, ev.now, ev.tokenHash, ev.attemptId) && r.success && r.error == None && r.commentUrl == ev.url
    else Tells(r, s.worker.entry, ev.recordedAt, ev.tokenHash, ev.attemptId) && !r.success && r.error == Some(ev.error) && r.commentUrl == None
  }

  /** Records fit a history line; the source bounds what they hold. */
  ghost predicate AttemptFits(cfg: Config, s: State, ev: Event) {
    (ev.Complete? || ev.Record?) && s.worker.Posting? ==>
      forall r :: TellsOf(s, ev, r) ==> |cfg.codec.encode(r)| < MAX_HISTORY_LINE_BYTES
  }

  /** The record of an event's attempt. */
  function Written(s: State, ev: Event): HistoryRecord
    requires (ev.Complete? || ev.Record?) && s.worker.Posting?
  {
    if ev.Complete? then Success(s, ev) else Failure(s, ev)
  }

  lemma WrittenTells(cfg: Config, s: State, ev: Event)
    requires (ev.Complete? || ev.Record?) && s.worker.Posting? && AttemptFits(cfg, s, ev)
    ensures TellsOf(s, ev, Written(s, ev)) && |cfg.codec.encode(Written(s, ev))| < MAX_HISTORY_LINE_BYTES
  {
  }

  /**
  A whole completion or failure record adds exactly one record to the log. It
  tells of the claimed entry, the event's time, token and attempt, and its end;
  and its token is the one the next attempt finds as the last.
  */
  lemma {:induction false} AttemptIsWritten(cfg: Config, s: State, ev: Event)
    requires Lawful(cfg.codec) && Enabled(cfg, s, ev) && (ev.Complete? || ev.Record?) && ev.ok && AttemptFits(cfg, s, ev)
    ensures
      var before, after := s.disk.history, Step(cfg, s, ev).disk.history;
      var log, log' := Log(cfg.codec, before), Log(cfg.codec, after);
      && before <= after && |log'| == |log| + 1 && log' == log + [log'[|log|]]
      && TellsOf(s, ev, log'[|log|])
      && T.LastHash(cfg.codec, after) == Some(ev.tokenHash)
  {
    hide Lawful, Run, CompleteOps, AppendOps, AppendedBytes, Log, T.LastHash, AttemptFits;
    var c, r, log := cfg.codec, Written(s, ev), s.disk.history;
    WrittenTells(cfg, s, ev);
    var bytes := AppendedBytes(c, log, r);
    assert bytes[..|bytes|] == bytes;
    AppendedLength(c, log, r);
    if ev.Complete? {
      CompletionLog(c, s.disk, s.worker.entry, r, ev.done);
    } else {
      RunAppend(s.disk, bytes, ev.done);
    }
    AppendLog(c, log, r, |bytes|);
    T.WholeRecorded(c, log, r, true);
    assert T.Recorded(c, log, r, true) == log + bytes;
  }

  // Rotation over runs.

  function Hashes(rs: seq<HistoryRecord>): (hs: seq<string>)
    ensures |hs| == |rs| && forall i :: 0 <= i < |rs| ==> hs[i] == rs[i].tokenHash
  {
    seq(|rs|, i requires 0 <= i < |rs| => rs[i].tokenHash)
  }

  /** A token of the pool that may follow these: the one after the last of them. */
  ghost predicate Follows(hashes: seq<string>, hs: seq<string>, h: string) {
    && h in hashes
    && (hs != [] ==> forall k :: 0 <= k < |hashes| && hashes[k] == hs[|hs| - 1] ==> h == hashes[T.Following(k, |hashes|)])
  }

  /** Tokens of the pool, each the one after the one before. */
  ghost predicate Chain(hashes: seq<string>, hs: seq<string>) {
    forall i :: 0 <= i < |hs| ==> Follows(hashes, hs[..i], hs[i])
  }

  lemma ChainGrows(hashes: seq<string>, hs: seq<string>, h: string)
    requires Chain(hashes, hs) && Follows(hashes, hs, h)
    ensures Chain(hashes, hs + [h])
  {
    hide Follows;
    forall i | 0 <= i < |hs + [h]| ensures Follows(hashes, (hs + [h])[..i], (hs + [h])[i]) {
      assert (hs + [h])[..i] == hs[..i];
      assert hs[..|hs|] == hs;
    }
  }

  /** What a log says about rotation: the records behind the first `base` form a chain, and its last token is the newest. */
  ghost predicate Rotated(c: Codec, hashes: seq<string>, base: seq<HistoryRecord>, log: seq<byte>) {
    && base <= Log(c, log)
    && var hs := Hashes(Log(c, log)[|base|..]);
       && Chain(hashes, hs)
       && (hs != [] ==> T.Settled(c, log) && T.LastHash(c, log) == Some(hs[|hs| - 1]))
  }

  /** The tokens of the records behind the first `base`. */
  function Since(c: Codec, base: seq<HistoryRecord>, log: seq<byte>): seq<string>
    requires |base| <= |Log(c, log)|
  {
    Hashes(Log(c, log)[|base|..])
  }

  /** The token picked from the newest record follows. */
  lemma PickFollows(c: Codec, hashes: seq<string>, base: seq<HistoryRecord>, log: seq<byte>)
    requires T.Distinct(hashes) && hashes != [] && Rotated(c, hashes, base, log)
    ensures Follows(hashes, Since(c, base, log), hashes[T.NextTokenIndex(hashes, T.LastHash(c, log))])
  {
    hide Log, T.LastHash, T.Settled, T.NextTokenIndex;
    var hs := Since(c, base, log);
    var h := hashes[T.NextTokenIndex(hashes, T.LastHash(c, log))];
    if hs != [] {
      forall k | 0 <= k < |hashes| && hashes[k] == hs[|hs| - 1] ensures h == hashes[T.Following(k, |hashes|)] {
        T.NextFollows(hashes, k);
      }
    }
  }

  /** Appending, cut off anywhere, a record whose token follows. */
  lemma {:induction false} AppendRotates(c: Codec, hashes: seq<string>, base: seq<HistoryRecord>, log: seq<byte>, r: HistoryRecord, k: nat)
    requires Lawful(c) && |c.encode(r)| < MAX_HISTORY_LINE_BYTES && k <= |AppendedBytes(c, log, r)|
    requires Rotated(c, hashes, base, log) && Follows(hashes, Since(c, base, log), r.tokenHash)
    ensures
      var log' := log + AppendedBytes(c, log, r)[..k];
      && Rotated(c, hashes, base, log')
      && (k < |Separator(log)| + |c.encode(r)| ==> Since(c, base, log') == Since(c, base, log))
  {
    hide Lawful, Log, Chain, Follows, T.LastHash, T.Settled, AppendedBytes;
    var log', bytes := log + AppendedBytes(c, log, r)[..k], AppendedBytes(c, log, r);
    var hs := Since(c, base, log);
    AppendLog(c, log, r, k);
    AppendedLength(c, log, r);
    if k < |Separator(log)| + |c.encode(r)| {
      if hs != [] {
        T.TornSettled(c, log, r, k);
      }
    } else {
      var newline := k > |Separator(log)| + |c.encode(r)|;
      T.WholeRecorded(c, log, r, newline);
      assert T.Recorded(c, log, r, newline) == log';
      var all, all' := Log(c, log), Log(c, log');
      assert all'[|base|..] == all[|base|..] + [r];
      assert Hashes(all'[|base|..]) == hs + [r.tokenHash];
      ChainGrows(hashes, hs, r.tokenHash);
    }
  }

  /** A journaled attempt that is not in the log yet took the token that follows. */
  ghost predicate JournalFollows(c: Codec, hashes: seq<string>, base: seq<HistoryRecord>, d: Disk)
    requires |base| <= |Log(c, d.history)|
  {
    d.journal.Some? && !B.Present(c, d.history, d.journal.value) ==>
      d.journal.value.history.Some? && Follows(hashes, Since(c, base, d.history), d.journal.value.history.value.tokenHash)
  }

  ghost predicate Rotating(c: Codec, hashes: seq<string>, base: seq<HistoryRecord>, d: Disk) {
    Rotated(c, hashes, base, d.history) && JournalFollows(c, hashes, base, d)
  }

  /** The worker takes the token after the newest record's. */
  ghost predicate Picks(cfg: Config, hashes: seq<string>, s: State, ev: Event) {
    ev.Complete? || ev.Record? ==>
      hashes != [] && ev.tokenHash == hashes[T.NextTokenIndex(hashes, T.LastHash(cfg.codec, s.disk.history))]
  }

  lemma {:induction false} CompleteRotates(cfg: Config, s: State, ev: Event, hashes: seq<string>, base: seq<HistoryRecord>)
    requires Lawful(cfg.codec) && Inv(cfg, s) && Enabled(cfg, s, ev) && ev.Complete? && AttemptFits(cfg, s, ev)
    requires T.Distinct(hashes) && Picks(cfg, hashes, s, ev) && Rotating(cfg.codec, hashes, base, s.disk)
    ensures Rotating(cfg.codec, hashes, base, Left(cfg, s, ev))
  {
    hide Lawful, Inv, Run, CompleteOps, AppendedBytes, Log, Rotated, Follows, T.LastHash, T.NextTokenIndex;
    hide AttemptFits, Records, B.Present, T.Distinct;
    var c, r, log := cfg.codec, Written(s, ev), s.disk.history;
    WrittenTells(cfg, s, ev);
    assert r.tokenHash == ev.tokenHash;
    PickFollows(c, hashes, base, log);
    var bytes := AppendedBytes(c, log, r);
    var d' := Left(cfg, s, ev);
    CompletionLog(c, s.disk, s.worker.entry, r, ev.done);
    var n := if ev.done == 0 then 0 else Min(ev.done - 1, |bytes|);
    AppendRotates(c, hashes, base, log, r, n);
    AppendedLength(c, log, r);
    if ev.done == 0 {
      assert Run(s.disk, CompleteOps(c, s.disk, s.worker.entry, r)[..0]) == s.disk by { RunShort(s.disk, [], 0); }
    } else if d'.journal.Some? && n >= |Separator(log)| + |c.encode(r)| {
      JournaledPresent(c, s.disk, s.worker.entry, r, n);
    }
  }

  /** Once its text is whole, the journaled record is in the log. */
  lemma JournaledPresent(c: Codec, d: Disk, e: StoredEntry, r: HistoryRecord, n: nat)
    requires Lawful(c) && |c.encode(r)| < MAX_HISTORY_LINE_BYTES
    requires |Separator(d.history)| + |c.encode(r)| <= n <= |AppendedBytes(c, d.history, r)|
    ensures B.Present(c, d.history + AppendedBytes(c, d.history, r)[..n], CompletionJournal(d, e, r))
  {
    hide Lawful, Records, AppendedBytes;
    RecordsFirst(Forward(c), d.history, |d.history|);
    TornAppend(c, d.history, r, |d.history|, n);
  }

  lemma {:induction false} RecordRotates(cfg: Config, s: State, ev: Event, hashes: seq<string>, base: seq<HistoryRecord>)
    requires Lawful(cfg.codec) && Inv(cfg, s) && Enabled(cfg, s, ev) && ev.Record? && AttemptFits(cfg, s, ev)
    requires T.Distinct(hashes) && Picks(cfg, hashes, s, ev) && Rotating(cfg.codec, hashes, base, s.disk)
    ensures Rotating(cfg.codec, hashes, base, Left(cfg, s, ev))
  {
    hide Lawful, Run, AppendOps, AppendedBytes, Log, Rotated, Follows, T.LastHash, T.NextTokenIndex, AttemptFits, Admitted, TimeInv, T.Distinct;
    var c, r, log := cfg.codec, Written(s, ev), s.disk.history;
    WrittenTells(cfg, s, ev);
    PickFollows(c, hashes, base, log);
    RunAppend(s.disk, AppendedBytes(c, log, r), ev.done);
    AppendRotates(c, hashes, base, log, r, ev.done);
  }

  /** Reconciling, cut off anywhere, appends the journaled record unless it is there. */
  lemma {:induction false} ReconcileRotates(c: Codec, d: Disk, k: nat, hashes: seq<string>, base: seq<HistoryRecord>)
    requires Lawful(c) && k <= |ReconcileOps(c, d)| && (d.journal.Some? ==> InProgress(c, d, d.journal.value))
    requires Rotating(c, hashes, base, d)
    ensures Rotating(c, hashes, base, Run(d, ReconcileOps(c, d)[..k]))
  {
    hide Lawful, Run, ReconcileOps, AppendOps, AppendedBytes, Log, Rotated, Follows, Records;
    hide UnmarkOps, DropOps, NewestSuccess, Extends, AlreadyRecorded;
    if d.journal.None? {
      NoJournal(c, d);
    } else {
      var j := d.journal.value;
      var r, offset := j.history.value, j.historyOffset.value;
      var n := ReconcileHistory(c, d, k);
      ReconcileEffect(c, d, k);
      FoundIffPresent(c, d.history[..offset], j, d);
      if B.Present(c, d.history, j) {
        RunShort(d, [], 0);
      } else {
        assert RecordOps(c, d, j) == AppendOps(AppendedBytes(c, d.history, r));
        RunAppend(d, AppendedBytes(c, d.history, r), n);
        AppendRotates(c, hashes, base, d.history, r, n);
        TornAppend(c, d.history, r, offset, n);
      }
    }
  }

  /** What else a recovery does leaves log and journal alone. */
  lemma {:induction false} RecoverLog(cfg: Config, s: State, uuid: string -> string, k: nat)
    requires Inv(cfg, s) && s.worker.Down? && NewUuids(s, uuid) && k <= |RecoverOps(cfg.codec, s.disk, uuid)|
    ensures
      var a := ReconcileOps(cfg.codec, s.disk);
      var d, d' := Run(s.disk, a[..Min(k, |a|)]), Run(s.disk, RecoverOps(cfg.codec, s.disk, uuid)[..k]);
      d'.history == d.history && d'.journal == d.journal
  {
    hide Admitted, Run, ReclaimOps, ReconcileOps, QueueInv, TimeInv, Uuids, Queue, Refusal, StandIn;
    var a := ReconcileOps(cfg.codec, s.disk);
    var mid := Run(s.disk, a);
    assert a[..|a|] == a;
    ReconcileKeeps(cfg, s, |a|);
    AdmittedKeyed(cfg.fixed, mid.entries);
    var b := ReclaimOps(Queue(mid.entries), uuid);
    assert RecoverOps(cfg.codec, s.disk, uuid) == a + b;
    if k < |a| {
      RunPrefix(s.disk, a, b, k);
    } else {
      RunPrefixRest(s.disk, a, b, k);
      FewerEntries(cfg, s, uuid, |a|);
      QueueStands(mid.entries);
      ReclaimEffect(cfg.fixed, mid, Queue(mid.entries), uuid, k - |a|);
    }
  }

  lemma {:induction false} ReopenLog(cfg: Config, s: State, ev: Event)
    requires Inv(cfg, s) && Enabled(cfg, s, ev) && (ev.Reopen? || ev.Restart?)
    ensures
      var a := ReconcileOps(cfg.codec, s.disk);
      var d, d' := Run(s.disk, a[..Min(ev.done, |a|)]), Left(cfg, s, ev);
      d'.history == d.history && d'.journal == d.journal
  {
    hide Admitted, Run, RecoverOps, ReconcileOps, QueueInv, TimeInv, QueueOrNone, NewUuids, UnmarkQueuedOps;
    assert s.worker.Down? by { DownUnlessOpen(s); }
    var a := RecoverOps(cfg.codec, s.disk, ev.uuid);
    RecoverLog(cfg, s, ev.uuid, Min(ev.done, |a|));
    RecoverIsLonger(cfg.codec, s.disk, ev.uuid);
    if ev.Reopen? {
      var mid := Run(s.disk, a);
      assert a[..|a|] == a;
      var u := UnmarkQueuedOps(QueueOrNone(mid.entries), mid.tombstones);
      if ev.done <= |a| {
        RunPrefix(s.disk, a, u, ev.done);
      } else {
        RunPrefixRest(s.disk, a, u, ev.done);
        UnmarkQueuedEffect(mid, QueueOrNone(mid.entries), mid.tombstones, ev.done - |a|);
      }
    }
  }

  lemma RecoverIsLonger(c: Codec, d: Disk, uuid: string -> string)
    ensures |ReconcileOps(c, d)| <= |RecoverOps(c, d, uuid)|
  {
    hide ReconcileOps, Run, ReclaimOps;
  }

  /** The other events write neither. */
  lemma OtherLog(cfg: Config, s: State, ev: Event)
    requires Enabled(cfg, s, ev) && !ev.Complete? && !ev.Record? && !ev.Reopen? && !ev.Restart?
    ensures Left(cfg, s, ev).history == s.disk.history && Left(cfg, s, ev).journal == s.disk.journal
  {
    hide Run, Refusal, Queue, BumpOps, BustOps, ClaimOps, ReleaseOps;
    if ev.Put? || ev.Del? {
      var ops := Ops(cfg, s, ev);
      if |ops| <= 1 {
        RunShort(s.disk, ops, ev.done);
      } else {
        RunPair(s.disk, ops[0], ops[1], ev.done);
        assert ops == [ops[0], ops[1]];
      }
    } else if !Sudden(ev) {
      RewrittenLives(cfg, s, ev, ev.done);
    }
  }

  lemma SameLog(c: Codec, hashes: seq<string>, base: seq<HistoryRecord>, d: Disk, d': Disk)
    requires Rotating(c, hashes, base, d) && d'.history == d.history && d'.journal == d.journal
    ensures Rotating(c, hashes, base, d')
  {
    hide Rotated, Follows, Log, B.Present;
  }

  lemma {:induction false} StepRotates(cfg: Config, x: Chronicle, ev: Event, hashes: seq<string>, base: seq<HistoryRecord>)
    requires Chronicled(cfg, x) && Enabled(cfg, x.state, ev) && AttemptFits(cfg, x.state, ev)
    requires T.Distinct(hashes) && Picks(cfg, hashes, x.state, ev) && Rotating(cfg.codec, hashes, base, x.state.disk)
    ensures Rotating(cfg.codec, hashes, base, After(cfg, x, ev).state.disk)
  {
    hide Inv, Lawful, Enabled, Ops, Run, AttemptFits, Picks, Rotating, InProgress, Tracks, Marks, Recorded, JournalTracks, Shows, ReconcileOps;
    var s, c := x.state, cfg.codec;
    if ev.Complete? {
      CompleteRotates(cfg, s, ev, hashes, base);
    } else if ev.Record? {
      RecordRotates(cfg, s, ev, hashes, base);
    } else if ev.Reopen? || ev.Restart? {
      ReopenLog(cfg, s, ev);
      var a := ReconcileOps(c, s.disk);
      ReconcileRotates(c, s.disk, Min(ev.done, |a|), hashes, base);
      SameLog(c, hashes, base, Run(s.disk, a[..Min(ev.done, |a|)]), Left(cfg, s, ev));
    } else {
      OtherLog(cfg, s, ev);
      SameLog(c, hashes, base, s.disk, Left(cfg, s, ev));
    }
    StepIsLeft(cfg, x, ev);
  }

  lemma StepIsLeft(cfg: Config, x: Chronicle, ev: Event)
    requires Enabled(cfg, x.state, ev)
    ensures After(cfg, x, ev).state.disk == Left(cfg, x.state, ev)
  {
    hide Ops, Run, Enabled;
  }

  /** A story in which every attempt takes the token after the newest record's, and every record fits a line. */
  ghost predicate IsRotation(cfg: Config, x: Chronicle, hashes: seq<string>, evs: seq<Event>)
    decreases |evs|
  {
    evs == [] ||
    (&& Enabled(cfg, x.state, evs[0]) && AttemptFits(cfg, x.state, evs[0]) && Picks(cfg, hashes, x.state, evs[0])
     && IsRotation(cfg, After(cfg, x, evs[0]), hashes, evs[1..]))
  }

  lemma FitsLine(cfg: Config, s: State, ev: Event)
    requires AttemptFits(cfg, s, ev)
    ensures Fits(cfg, s, ev)
  {
    if ev.Complete? && s.worker.Posting? {
      WrittenTells(cfg, s, ev);
    }
  }

  lemma {:induction false} RunRotates(cfg: Config, x: Chronicle, hashes: seq<string>, evs: seq<Event>, base: seq<HistoryRecord>)
    requires Chronicled(cfg, x) && T.Distinct(hashes) && IsRotation(cfg, x, hashes, evs) && Rotating(cfg.codec, hashes, base, x.state.disk)
    ensures IsStory(cfg, x, evs) && Rotating(cfg.codec, hashes, base, Told(cfg, x, evs).state.disk)
    decreases |evs|
  {
    hide Chronicled, Enabled, AttemptFits, Picks, After, Fits, Rotating;
    if evs != [] {
      FitsLine(cfg, x.state, evs[0]);
      StepChronicled(cfg, x, evs[0]);
      StepRotates(cfg, x, evs[0], hashes, base);
      RunRotates(cfg, After(cfg, x, evs[0]), hashes, evs[1..], base);
    }
  }

  /** In a chain the token so many steps on is so many places on in the pool. */
  lemma {:induction false} ChainSteps(hashes: seq<string>, hs: seq<string>, i: nat, k: nat, steps: nat)
    requires Chain(hashes, hs) && i + steps < |hs| && steps < |hashes| && k < |hashes| && hs[i] == hashes[k]
    ensures hs[i + steps] == hashes[T.Later(k, steps, |hashes|)]
    decreases steps
  {
    if steps > 0 {
      ChainSteps(hashes, hs, i, k, steps - 1);
      var p, seen := T.Later(k, steps - 1, |hashes|), hs[..i + steps];
      assert Follows(hashes, seen, hs[i + steps]);
      assert seen[|seen| - 1] == hashes[p];
      assert T.Following(p, |hashes|) == T.Later(k, steps, |hashes|);
    }
  }

  /** So every window of the pool's size uses each token once. */
  lemma ChainWindow(hashes: seq<string>, hs: seq<string>, i: nat, token: nat)
    requires T.Distinct(hashes) && Chain(hashes, hs) && i + |hashes| <= |hs| && token < |hashes|
    ensures exists j :: i <= j < i + |hashes| && hs[j] == hashes[token]
    ensures forall a, b :: i <= a < b < i + |hashes| ==> hs[a] != hs[b]
  {
    var n := |hashes|;
    assert Follows(hashes, hs[..i], hs[i]);
    var k :| 0 <= k < n && hashes[k] == hs[i];
    hide Follows, Chain;
    var steps := if token >= k then token - k else token + n - k;
    ChainSteps(hashes, hs, i, k, steps);
    assert hs[i + steps] == hashes[token];
    forall a, b | i <= a < b < i + n ensures hs[a] != hs[b] {
      ChainSteps(hashes, hs, i, k, a - i);
      ChainSteps(hashes, hs, i, k, b - i);
    }
  }

  /**
  Over every run of the daemon whose attempts take the token after the newest
  record's, with crashes, cut appends, recoveries and restarts: the log only
  gains records, and of those it gains, any `n` consecutive ones of a pool of `n`
  distinct tokens use each token exactly once.
  */
  lemma {:induction false} RunsUseEachTokenOnce(cfg: Config, x: Chronicle, hashes: seq<string>, evs: seq<Event>, i: nat, token: nat)
    requires Recounted(cfg, x) && x.state.disk.journal == None && T.Distinct(hashes) && IsRotation(cfg, x, hashes, evs)
    ensures IsStory(cfg, x, evs)
    ensures
      var before, after := Log(cfg.codec, x.state.disk.history), Log(cfg.codec, Told(cfg, x, evs).state.disk.history);
      && before <= after
      && var hs := Hashes(after[|before|..]);
         i + |hashes| <= |hs| && token < |hashes| ==>
           && (exists j :: i <= j < i + |hashes| && hs[j] == hashes[token])
           && (forall a, b :: i <= a < b < i + |hashes| ==> hs[a] != hs[b])
  {
    hide Recounted, Chronicled, IsRotation, IsStory, Log, Chain, T.Distinct, T.LastHash, T.Settled, B.Present;
    var c, base := cfg.codec, Log(cfg.codec, x.state.disk.history);
    RecountedChronicled(cfg, x);
    assert base[|base|..] == [];
    EmptyChain(hashes);
    RunRotates(cfg, x, hashes, evs, base);
    var hs := Since(c, base, Told(cfg, x, evs).state.disk.history);
    if i + |hashes| <= |hs| && token < |hashes| {
      ChainWindow(hashes, hs, i, token);
    }
  }

  lemma EmptyChain(hashes: seq<string>)
    ensures Chain(hashes, Hashes([]))
  {
  }
}
