/** Completing a post exactly once, across any number of crashes. */
module Recovery {
  import opened Base
  import opened HistoryLog
  import opened QueueOrder
  import opened Disk
  import opened LogAppend

  /** How many records carry an attempt identifier. */
  function AttemptCount(rs: seq<Located>, attemptId: string): nat {
    if rs == [] then 0
    else (if rs[0].record.attemptId == attemptId then 1 else 0) + AttemptCount(rs[1..], attemptId)
  }

  lemma {:induction false} AttemptCountConcat(a: seq<Located>, b: seq<Located>, attemptId: string)
    ensures AttemptCount(a + b, attemptId) == AttemptCount(a, attemptId) + AttemptCount(b, attemptId)
  {
    if a == [] {
      assert a + b == b;
    } else {
      assert (a + b)[1..] == a[1..] + b;
      AttemptCountConcat(a[1..], b, attemptId);
    }
  }

  /** `log` grew from `base` by whole appends or torn ones: it did not continue an unterminated line. */
  predicate Extends(base: seq<byte>, log: seq<byte>) {
    && base <= log
    && (|base| < |log| && base != [] && base[|base| - 1] != NEWLINE ==> log[|base|] == NEWLINE)
  }

  /** Terminating the log adds no attempt. */
  lemma {:induction false} TerminatedCount(c: Codec, log: seq<byte>, from: nat, attemptId: string)
    requires Lawful(c)
    requires from <= |log| && log != [] && log[|log| - 1] != NEWLINE
    ensures AttemptCount(Records(Forward(c), log + [NEWLINE], from), attemptId) <= AttemptCount(Records(Forward(c), log, from), attemptId)
    decreases |log| - from
  {
    var parse, terminated := Forward(c), log + [NEWLINE];
    if from == |log| {
      ForwardNewline(c);
      TerminatedEmpty(parse, log, from);
    } else {
      var end := LineEnd(log, from);
      LineEndTerminated(log, from);
      if end == |log| {
        LastLineTerminated(c, log, from);
      } else {
        assert terminated[from..end] == log[from..end];
        TerminatedCount(c, log, end, attemptId);
        var here := LineRecord(parse, log[from..end], from);
        AttemptCountConcat(here, Records(parse, log, end), attemptId);
        AttemptCountConcat(here, Records(parse, terminated, end), attemptId);
      }
    }
  }

  lemma LastLineTerminated(c: Codec, log: seq<byte>, from: nat)
    requires Lawful(c)
    requires from < |log| && log[|log| - 1] != NEWLINE && LineEnd(log, from) == |log|
    ensures
      var before := Records(Forward(c), log, from);
      var after := Records(Forward(c), log + [NEWLINE], from);
      after == [] || (|after| == |before| == 1 && after[0].record == before[0].record)
  {
    var terminated := log + [NEWLINE];
    LineEndTerminated(log, from);
    var raw := log[from..|log|];
    assert terminated[from..|terminated|] == raw + [NEWLINE];
    assert Records(Forward(c), terminated, from) == LineRecord(Forward(c), raw + [NEWLINE], from) + [];
    assert Records(Forward(c), log, from) == LineRecord(Forward(c), raw, from) + [];
    ForwardNewline(c);
  }

  /** The attempts of an extended log: at most those of the base, and those read from its end. */
  lemma {:induction false} ExtendedCount(c: Codec, base: seq<byte>, log: seq<byte>, attemptId: string)
    requires Lawful(c) && Extends(base, log)
    requires AttemptCount(Records(Forward(c), base, 0), attemptId) == 0
    ensures AttemptCount(Records(Forward(c), log, 0), attemptId) == AttemptCount(Records(Forward(c), log, |base|), attemptId)
  {
    var parse := Forward(c);
    if |log| == |base| {
      assert log == base;
    } else if base == [] || base[|base| - 1] == NEWLINE {
      RecordsSplit(parse, log, 0, |base|);
      assert log[..|base|] == base;
      AttemptCountConcat(Records(parse, base, 0), Records(parse, log, |base|), attemptId);
    } else {
      ExtendedUnterminated(c, base, log, attemptId);
    }
  }

  lemma {:induction false} ExtendedUnterminated(c: Codec, base: seq<byte>, log: seq<byte>, attemptId: string)
    requires Lawful(c) && Extends(base, log) && |base| < |log|
    requires base != [] && base[|base| - 1] != NEWLINE
    requires AttemptCount(Records(Forward(c), base, 0), attemptId) == 0
    ensures AttemptCount(Records(Forward(c), log, 0), attemptId) == AttemptCount(Records(Forward(c), log, |base|), attemptId)
  {
    hide Records, LineEnd, AttemptCount;
    var parse, q := Forward(c), |base| + 1;
    TerminatedCount(c, base, 0, attemptId);
    assert log[..q] == base + [NEWLINE];
    RecordsSplit(parse, log, 0, q);
    AttemptCountConcat(Records(parse, log[..q], 0), Records(parse, log, q), attemptId);
    BlankLine(c, log, |base|);
  }

  lemma BlankLine(c: Codec, log: seq<byte>, at: nat)
    requires at < |log| && log[at] == NEWLINE
    ensures Records(Forward(c), log, at) == Records(Forward(c), log, at + 1)
  {
    LineEndUnique(log, at, at + 1);
    assert log[at..at + 1] == [NEWLINE];
    assert AllWhitespace([NEWLINE]);
  }

  /** What the code promises the record for: it fits a line, and its attempt identifier is new. */
  ghost predicate Recordable(c: Codec, log: seq<byte>, r: HistoryRecord) {
    && Lawful(c)
    && |c.encode(r)| < MAX_HISTORY_LINE_BYTES
    && AttemptCount(Records(Forward(c), log, 0), r.attemptId) == 0
  }

  /** A completion journaled over `base` and not yet finished on `d`. */
  ghost predicate Interrupted(c: Codec, base: seq<byte>, j: Journal, d: Disk) {
    && d.journal == Some(j) && j.history.Some? && j.historyOffset == Some(|base|)
    && Extends(base, d.history)
    && var rs := Records(Forward(c), d.history, |base|);
       rs == [] || (|rs| == 1 && rs[0].record == j.history.value)
  }

  /** A completion finished on `d`. */
  ghost predicate Finished(c: Codec, base: seq<byte>, j: Journal, d: Disk) {
    && j.history.Some?
    && d.journal == None
    && d.lastPost == Some(j.postedAt)
    && Extends(base, d.history)
    && (var rs := Records(Forward(c), d.history, |base|); |rs| == 1 && rs[0].record == j.history.value)
    && AttemptCount(Records(Forward(c), d.history, 0), j.history.value.attemptId) == 1
    && !(j.id in d.entries && d.entries[j.id].claimToken == j.claimToken)
  }

  lemma FoundIffPresent(c: Codec, base: seq<byte>, j: Journal, d: Disk)
    requires Interrupted(c, base, j, d)
    ensures AlreadyRecorded(c, d, j) <==> Records(Forward(c), d.history, |base|) != []
  {
    var rs := Records(Forward(c), d.history, |base|);
    if rs != [] {
      assert rs[0].record.attemptId == j.history.value.attemptId;
    }
  }

  /** Any prefix of the record step keeps the completion interrupted; all of it records the attempt. */
  lemma RecordStep(c: Codec, base: seq<byte>, j: Journal, d: Disk, k: nat)
    requires Interrupted(c, base, j, d) && Lawful(c) && |c.encode(j.history.value)| < MAX_HISTORY_LINE_BYTES
    requires k <= |RecordOps(c, d, j)|
    ensures
      var d' := Run(d, RecordOps(c, d, j)[..k]);
      && Interrupted(c, base, j, d')
      && d' == d.(history := d'.history)
      && (k == |RecordOps(c, d, j)| ==> Records(Forward(c), d'.history, |base|) != [])
  {
    hide Records, LineEnd, AppendOps;
    FoundIffPresent(c, base, j, d);
    var r := j.history.value;
    if RecordOps(c, d, j) != [] {
      RunAppend(d, AppendedBytes(c, d.history, r), k);
      TornAppend(c, d.history, r, |base|, k);
    }
  }

  /** The steps after the record step, with their effect. */
  function TailOps(d: Disk, j: Journal): seq<FileOp> {
    UnmarkOps(d, j) + DropOps(d, j) + [SetLastPost(j.postedAt), ClearJournal]
  }

  lemma TailStep(d: Disk, j: Journal, k: nat)
    requires d.journal == Some(j)
    requires k <= |TailOps(d, j)|
    ensures
      var d' := Run(d, TailOps(d, j)[..k]);
      && d'.history == d.history && d'.lastAttempt == d.lastAttempt
      && (d'.entries == d.entries || (DropOps(d, j) != [] && d'.entries == d.entries - {j.id}))
      && (d'.tombstones == d.tombstones || (UnmarkOps(d, j) != [] && d'.tombstones == d.tombstones - {j.id}))
      && (d'.entries != d.entries && UnmarkOps(d, j) != [] ==> d'.tombstones == d.tombstones - {j.id})
      && (k < |TailOps(d, j)| ==> d'.journal == Some(j) && (d'.lastPost == d.lastPost || d'.lastPost == Some(j.postedAt)))
      && (k == |TailOps(d, j)| ==>
        && d'.journal == None && d'.lastPost == Some(j.postedAt)
        && (UnmarkOps(d, j) != [] ==> d'.tombstones == d.tombstones - {j.id})
        && (DropOps(d, j) != [] ==> d'.entries == d.entries - {j.id}))
  {
    hide Run, UnmarkOps, DropOps;
    var head, last := UnmarkOps(d, j) + DropOps(d, j), [SetLastPost(j.postedAt), ClearJournal];
    var n := Min(k, |head|);
    RunPrefix(d, head, last, k);
    TailHead(d, j, n);
    assert head[..|head|] == head;
    if k > |head| {
      RunPair(Run(d, head), SetLastPost(j.postedAt), ClearJournal, k - |head|);
    }
  }

  lemma TailHead(d: Disk, j: Journal, n: nat)
    requires n <= |UnmarkOps(d, j) + DropOps(d, j)|
    ensures
      var d' := Run(d, (UnmarkOps(d, j) + DropOps(d, j))[..n]);
      && d' == d.(entries := d'.entries, tombstones := d'.tombstones)
      && (d'.entries == d.entries || (DropOps(d, j) != [] && d'.entries == d.entries - {j.id}))
      && (d'.tombstones == d.tombstones || (UnmarkOps(d, j) != [] && d'.tombstones == d.tombstones - {j.id}))
      && (d'.entries != d.entries || n == |UnmarkOps(d, j) + DropOps(d, j)| ==>
        UnmarkOps(d, j) != [] ==> d'.tombstones == d.tombstones - {j.id})
      && (n == |UnmarkOps(d, j) + DropOps(d, j)| && DropOps(d, j) != [] ==> d'.entries == d.entries - {j.id})
  {
    hide Run;
    var u, e := UnmarkOps(d, j), DropOps(d, j);
    RunPrefix(d, u, e, n);
    RunShort(d, u, Min(n, |u|));
    RunShort(Run(d, u), e, Max(0, n - |u|));
  }

  lemma TailCut(c: Codec, base: seq<byte>, j: Journal, mid: Disk, k: nat)
    requires Interrupted(c, base, j, mid) && Recordable(c, base, j.history.value)
    requires Records(Forward(c), mid.history, |base|) != []
    requires k <= |TailOps(mid, j)|
    ensures
      var d' := Run(mid, TailOps(mid, j)[..k]);
      if k < |TailOps(mid, j)| then Interrupted(c, base, j, d') else Finished(c, base, j, d')
  {
    hide Records, Run, AttemptCount, UnmarkOps;
    TailStep(mid, j, k);
    ExtendedCount(c, base, mid.history, j.history.value.attemptId);
    SingleCount(Records(Forward(c), mid.history, |base|), j.history.value.attemptId);
  }

  lemma TailUnaffected(c: Codec, d: Disk, j: Journal)
    requires d.journal == Some(j)
    ensures ReconcileOps(c, d) == RecordOps(c, d, j) + TailOps(d, j)
    ensures forall log :: TailOps(d.(history := log), j) == TailOps(d, j)
  {
    hide RecordOps;
  }

  /** One attempt at recovery, cut off after `k` file operations or not at all. */
  lemma RecoveryAttempt(c: Codec, base: seq<byte>, j: Journal, d: Disk, k: nat)
    requires Interrupted(c, base, j, d) && Recordable(c, base, j.history.value)
    requires k <= |ReconcileOps(c, d)|
    ensures k < |ReconcileOps(c, d)| ==> Interrupted(c, base, j, Run(d, ReconcileOps(c, d)[..k]))
    ensures k == |ReconcileOps(c, d)| ==> Finished(c, base, j, Run(d, ReconcileOps(c, d)[..k]))
  {
    hide Records, Run, ReconcileOps, RecordOps, Extends, AttemptCount, UnmarkOps, DropOps;
    var a, t := RecordOps(c, d, j), TailOps(d, j);
    TailUnaffected(c, d, j);
    RunPrefix(d, a, t, k);
    if k <= |a| {
      RecordStep(c, base, j, d, k);
      assert k < |a| + |t|;
    } else {
      RecordStep(c, base, j, d, |a|);
      assert a[..|a|] == a;
      TailCut(c, base, j, Run(d, a), k - |a|);
    }
  }

  lemma SingleCount(rs: seq<Located>, attemptId: string)
    requires |rs| == 1 && rs[0].record.attemptId == attemptId
    ensures AttemptCount(rs, attemptId) == 1
  {
    assert rs[1..] == [];
  }

  /**
  A recovery cut off after some file operations. While it was down or running
  without a worker, clients may have changed entries and deletion markers.
  */
  datatype CutRecovery = CutRecovery(entries: Entries, tombstones: map<string, string>, cut: nat)

  function Disturbed(d: Disk, a: CutRecovery): Disk {
    d.(entries := a.entries, tombstones := a.tombstones)
  }

  /** Recovery after recovery, each cut off before its end. */
  function CutRecoveries(c: Codec, d: Disk, attempts: seq<CutRecovery>): Disk
    decreases |attempts|
  {
    if attempts == [] then d else
    var started := Disturbed(d, attempts[0]);
    var ops := ReconcileOps(c, started);
    CutRecoveries(c, Run(started, ops[..Min(attempts[0].cut, Max(0, |ops| - 1))]), attempts[1..])
  }

  lemma DisturbedInterrupted(c: Codec, base: seq<byte>, j: Journal, d: Disk, a: CutRecovery)
    requires Interrupted(c, base, j, d)
    ensures Interrupted(c, base, j, Disturbed(d, a))
    ensures ReconcileOps(c, Disturbed(d, a)) != []
  {
    hide Records, RecordOps, UnmarkOps, DropOps;
  }

  lemma {:induction false} CutRecoveriesInterrupted(c: Codec, base: seq<byte>, j: Journal, d: Disk,
                                                    attempts: seq<CutRecovery>)
    requires Interrupted(c, base, j, d) && Recordable(c, base, j.history.value)
    ensures Interrupted(c, base, j, CutRecoveries(c, d, attempts))
    decreases |attempts|
  {
    hide Interrupted, Recordable, ReconcileOps, Disturbed, Run;
    if attempts != [] {
      var started := Disturbed(d, attempts[0]);
      DisturbedInterrupted(c, base, j, d, attempts[0]);
      var ops := ReconcileOps(c, started);
      var k := Min(attempts[0].cut, |ops| - 1);
      RecoveryAttempt(c, base, j, started, k);
      CutRecoveriesInterrupted(c, base, j, Run(started, ops[..k]), attempts[1..]);
    }
  }

  /**
  Posted once: for every crash point of completing a post, a torn append
  included, any number of recoveries that are themselves cut off, and any client
  changes in between, the first recovery to finish leaves exactly one record of
  the attempt, the journaled time as the last post, no journal, and nothing for
  another recovery to do.
  */
  lemma CompletionRecordedOnce(c: Codec, d: Disk, e: StoredEntry, r: HistoryRecord, crash: nat,
                               attempts: seq<CutRecovery>, last: CutRecovery)
    requires d.journal == None && Recordable(c, d.history, r)
    requires 0 < crash < |CompleteOps(c, d, e, r)|
    ensures
      var j := CompletionJournal(d, e, r);
      var crashed := Run(d, CompleteOps(c, d, e, r)[..crash]);
      var reopened := Disturbed(CutRecoveries(c, crashed, attempts), last);
      var recovered := Run(reopened, ReconcileOps(c, reopened));
      && Finished(c, d.history, j, recovered)
      && ReconcileOps(c, recovered) == []
  {
    hide Records, LineEnd, AppendOps, AttemptCount;
    var j := CompletionJournal(d, e, r);
    var journaled := d.(journal := Some(j));
    JournaledIsInterrupted(c, d, e, r);
    var ops := ReconcileOps(c, journaled);
    RunPrefix(d, [SetJournal(j)], ops, crash);
    assert [SetJournal(j)][..1] == [SetJournal(j)];
    assert Run(d, [SetJournal(j)]) == journaled;
    RecoveryAttempt(c, d.history, j, journaled, crash - 1);
    var crashed := Run(d, CompleteOps(c, d, e, r)[..crash]);
    assert crashed == Run(journaled, ops[..crash - 1]);
    CutRecoveriesInterrupted(c, d.history, j, crashed, attempts);
    var reopened := Disturbed(CutRecoveries(c, crashed, attempts), last);
    var final := ReconcileOps(c, reopened);
    RecoveryAttempt(c, d.history, j, reopened, |final|);
    assert final[..|final|] == final;
  }

  lemma JournaledIsInterrupted(c: Codec, d: Disk, e: StoredEntry, r: HistoryRecord)
    ensures Interrupted(c, d.history, CompletionJournal(d, e, r), d.(journal := Some(CompletionJournal(d, e, r))))
  {
  }

  /** Completion without a crash leaves the same state. */
  lemma {:induction false} CompletionUninterrupted(c: Codec, d: Disk, e: StoredEntry, r: HistoryRecord)
    requires d.journal == None && Recordable(c, d.history, r)
    ensures Finished(c, d.history, CompletionJournal(d, e, r), Run(d, CompleteOps(c, d, e, r)))
  {
    hide Records, LineEnd, AppendOps, AttemptCount;
    var j := CompletionJournal(d, e, r);
    var journaled := d.(journal := Some(j));
    JournaledIsInterrupted(c, d, e, r);
    var ops := ReconcileOps(c, journaled);
    RunConcat(d, [SetJournal(j)], ops);
    assert Run(d, [SetJournal(j)]) == journaled;
    RecoveryAttempt(c, d.history, j, journaled, |ops|);
    assert ops[..|ops|] == ops;
  }
}
