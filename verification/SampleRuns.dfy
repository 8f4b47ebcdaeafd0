/**
A run that opens an empty directory, posts a comment, crashes, reopens and
reuses the identifier; and one whose completion fails. They exist for every
lawful encoding whose record fits a line, and one encoding is given.
*/
module SampleRuns {
  import opened Base
  import opened HistoryLog
  import opened ReverseScan
  import opened QueueOrder
  import opened Bounds
  import opened Disk
  import opened LogAppend
  import opened Recovery
  import opened StoreSteps
  import opened Machine
  import opened Lifetimes
  import opened BoundWaits
  import opened SampleCodecs
  import L = AwaitLookup

  /** A configuration, a comment, and what the run draws: two lifetimes and a claim token. */
  datatype Sample = Sample(
    cfg: Config, id: string, request: CommentRequest, first: string, second: string, token: string,
    url: Option<string>, tokenHash: string, attemptId: string)

  function Entry(p: Sample, incarnation: string): StoredEntry {
    StoredEntry(p.id, incarnation, 0, 0, 0, 0, None, p.request)
  }

  function Claimed(p: Sample): StoredEntry {
    Entry(p, p.first).(claimToken := Some(p.token))
  }

  function Posting(p: Sample): HistoryRecord {
    SuccessRecord(Claimed(p), p.tokenHash, 0, p.url, p.attemptId)
  }

  ghost predicate Suitable(p: Sample) {
    && Lawful(p.cfg.codec) && |p.cfg.codec.encode(Posting(p))| < MAX_HISTORY_LINE_BYTES
    && (forall f :: p.cfg.fixed(f) == 0)
    && |p.first| == |p.second| == |p.token| == UUID_CHARS
    && p.first != p.second && p.first != p.token && p.second != p.token
  }

  const EMPTY: Disk := Disk(map[], map[], None, None, None, [])

  // One step at a time.

  lemma NothingToRecover(cfg: Config, s: State, uuid: string -> string)
    requires s.disk.entries == map[] && s.disk.journal == None
    ensures WellKeyed(s.disk.entries) && Queue(s.disk.entries) == []
    ensures RecoverOps(cfg.codec, s.disk, uuid) == [] && OpenOps(cfg.codec, s.disk, uuid) == []
    ensures NewUuids(s, uuid) && Drawn(s, uuid) == s.used
  {
    QueueUnique(map[], []);
    NoJournal(cfg.codec, s.disk);
  }

  /** The process starts: it opens the store, and the worker recovers. */
  lemma Started(cfg: Config, x: Chronicle)
    requires Recounted(cfg, x) && !x.state.open && x.state.worker.Down?
    requires x.state.disk.entries == map[] && x.state.disk.journal == None
    ensures Recounted(cfg, x.(state := x.state.(open := true, worker := Idle)))
  {
    hide Recounted, RecoverOps, OpenOps, NewUuids, Drawn;
    var uuid: string -> string := _ => "";
    NothingToRecover(cfg, x.state, uuid);
    var x1 := x.(state := x.state.(open := true));
    NothingToRecover(cfg, x1.state, uuid);
    assert Renamed(x.latest, map[]) == x.latest;
    RecountedStep(cfg, x, Reopen(uuid, 0, true));
    RecountedStep(cfg, x1, Restart(uuid, 0, true));
  }

  lemma Begun(p: Sample)
    requires Suitable(p)
    ensures Recounted(p.cfg, Chronicle(State(EMPTY, false, Down, 0, {}, {}, {}), map[], map[]))
  {
    hide Lawful;
    var x := Chronicle(State(EMPTY, false, Down, 0, {}, {}, {}), map[], map[]);
    assert Begin(p.cfg, x) && IsStory(p.cfg, x, []) && Told(p.cfg, x, []) == x;
  }

  lemma Fits(p: Sample, incarnation: string)
    requires Suitable(p) && |incarnation| == UUID_CHARS
    ensures Refusal(p.cfg.fixed, map[], Entry(p, incarnation)) == None
  {
    hide Lawful;
    var e, f := Entry(p, incarnation), AccountedOf(p.cfg.fixed);
    PutRefusal(p.cfg.fixed, map[], e);
    SumFresh(map[], f, e);
    OrderWidthBound(e.order);
  }

  /** The comment is queued, to be posted at once. */
  lemma Put(p: Sample, x: Chronicle, incarnation: string)
    requires Suitable(p) && Recounted(p.cfg, x) && x.state.open && x.state.clock == 0
    requires x.state.disk.entries == map[] && x.state.disk.journal == None && NewUuid(x.state, incarnation)
    ensures
      var disk := x.state.disk.(entries := map[p.id := Entry(p, incarnation)]);
      var s := x.state.(disk := disk, used := x.state.used + {incarnation});
      Recounted(p.cfg, Chronicle(s, x.latest[p.id := Life(incarnation, Queued)], x.posted))
  {
    hide Recounted, Lawful, Refusal;
    NothingToRecover(p.cfg, x.state, _ => "");
    Fits(p, incarnation);
    var ev := Machine.Put(p.id, incarnation, p.request, 0, true, 0, 1, true);
    assert NewEntry(x.state.disk, p.id, incarnation, p.request, p.cfg.cooldown, 0, true, 0) == Entry(p, incarnation);
    RunShort(x.state.disk, Ops(p.cfg, x.state, ev), 1);
    RecountedStep(p.cfg, x, ev);
  }

  /** With the comment queued and nothing posted before, the worker claims it. */
  ghost predicate ReadyToClaim(p: Sample, x: Chronicle) {
    && Suitable(p) && Recounted(p.cfg, x) && x.state.open && x.state.worker.Idle? && x.state.clock == 0
    && x.state.disk == EMPTY.(entries := map[p.id := Entry(p, p.first)])
    && NewUuid(x.state, p.token)
  }

  lemma Claim(p: Sample, x: Chronicle)
    requires ReadyToClaim(p, x)
    ensures Claims(p.cfg, x.state, Machine.Claim(0, p.token, 1, true))
    ensures
      var disk := EMPTY.(entries := map[p.id := Claimed(p)]);
      var s := x.state.(disk := disk, used := x.state.used + {p.token}, worker := Machine.Posting(Claimed(p)));
      After(p.cfg, x, Machine.Claim(0, p.token, 1, true)) == x.(state := s) && Recounted(p.cfg, x.(state := s))
  {
    hide Recounted, Lawful;
    var e, ev := Entry(p, p.first), Machine.Claim(0, p.token, 1, true);
    QueueUnique(map[e.id := e], [e]);
    RunShort(x.state.disk, Ops(p.cfg, x.state, ev), 1);
    assert x.state.disk.entries[p.id := Claimed(p)] == map[p.id := Claimed(p)];
    RecountedStep(p.cfg, x, ev);
  }

  /** The worker holds the claimed comment of an otherwise empty directory. */
  ghost predicate ReadyToComplete(p: Sample, x: Chronicle) {
    && Suitable(p) && Recounted(p.cfg, x) && x.state.open && x.state.worker == Machine.Posting(Claimed(p)) && x.state.clock == 0
    && x.state.disk == EMPTY.(entries := map[p.id := Claimed(p)])
    && x.latest == map[p.id := Life(p.first, Queued)]
  }

  function Completion(p: Sample, done: nat, ok: bool): Event {
    Complete(0, p.url, p.tokenHash, p.attemptId, done, ok)
  }

  ghost function CompletionOps(p: Sample): seq<FileOp> {
    CompleteOps(p.cfg.codec, EMPTY.(entries := map[p.id := Claimed(p)]), Claimed(p), Posting(p))
  }

  /** Completing it, whole or cut off after any of its file operations. */
  lemma Completes(p: Sample, x: Chronicle, done: nat, ok: bool)
    requires ReadyToComplete(p, x) && 0 < done <= |CompletionOps(p)| && (ok ==> done == |CompletionOps(p)|)
    ensures Enabled(p.cfg, x.state, Completion(p, done, ok)) && Lifetimes.Fits(p.cfg, x.state, Completion(p, done, ok))
    ensures
      var x' := After(p.cfg, x, Completion(p, done, ok));
      && Recounted(p.cfg, x')
      && x'.state == x.state.(
           disk := Run(x.state.disk, CompletionOps(p)[..done]), worker := if ok then Idle else Down,
           completed := x.state.completed + {p.first}, activity := x.state.activity + {0})
      && x'.latest == map[p.id := Life(p.first, Posted)]
      && x'.posted == x.posted[p.first := Posting(p)]
  {
    hide Recounted, Lawful, Run, CompleteOps;
    assert WellKeyed(map[p.id := Claimed(p)]);
    var ev := Completion(p, done, ok);
    assert Ops(p.cfg, x.state, ev) == CompletionOps(p);
    RecountedStep(p.cfg, x, ev);
    assert x.latest[p.id := Life(p.first, Posted)] == map[p.id := Life(p.first, Posted)];
  }

  lemma NewAttempt(p: Sample)
    requires Suitable(p)
    ensures Recordable(p.cfg.codec, [], Posting(p))
  {
    hide Lawful;
    RecordsFirst(Forward(p.cfg.codec), [], 0);
  }

  /** A whole completion empties the directory and leaves no journal. */
  lemma Emptied(p: Sample)
    requires Suitable(p)
    ensures
      var d := Run(EMPTY.(entries := map[p.id := Claimed(p)]), CompletionOps(p)[..|CompletionOps(p)|]);
      d.entries == map[] && d.journal == None
  {
    hide Lawful, Run, ReconcileOps;
    var d, j := EMPTY.(entries := map[p.id := Claimed(p)]), CompletionJournal(EMPTY, Claimed(p), Posting(p));
    var journaled := d.(journal := Some(j));
    var ops := ReconcileOps(p.cfg.codec, journaled);
    RunPrefixRest(d, [SetJournal(j)], ops, 1 + |ops|);
    RunShort(d, [SetJournal(j)], 1);
    ReconcileEffect(p.cfg.codec, journaled, |ops|);
    assert map[p.id := Claimed(p)] - {p.id} == map[];
  }

  // The runs.

  ghost function WhenQueued(p: Sample): Chronicle {
    Chronicle(State(EMPTY.(entries := map[p.id := Entry(p, p.first)]), true, Idle, 0, {p.first}, {}, {}),
              map[p.id := Life(p.first, Queued)], map[])
  }

  ghost function WhenPosting(p: Sample): Chronicle {
    Chronicle(State(EMPTY.(entries := map[p.id := Claimed(p)]), true, Machine.Posting(Claimed(p)), 0, {p.first, p.token}, {}, {}),
              map[p.id := Life(p.first, Queued)], map[])
  }

  lemma IsQueued(p: Sample)
    requires Suitable(p)
    ensures ReadyToClaim(p, WhenQueued(p))
  {
    hide Recounted, Lawful;
    var x := Chronicle(State(EMPTY, false, Down, 0, {}, {}, {}), map[], map[]);
    Begun(p);
    Started(p.cfg, x);
    Put(p, x.(state := x.state.(open := true, worker := Idle)), p.first);
    assert {} + {p.first} == {p.first};
    assert map[][p.id := Life(p.first, Queued)] == map[p.id := Life(p.first, Queued)];
  }

  lemma IsPosting(p: Sample)
    requires Suitable(p)
    ensures ReadyToComplete(p, WhenPosting(p))
    ensures Enabled(p.cfg, WhenQueued(p).state, Machine.Claim(0, p.token, 1, true))
    ensures After(p.cfg, WhenQueued(p), Machine.Claim(0, p.token, 1, true)) == WhenPosting(p)
  {
    hide Recounted, Lawful;
    IsQueued(p);
    Claim(p, WhenQueued(p));
    assert {p.first} + {p.token} == {p.first, p.token};
  }

  /** There are claims to be safe: a run reaches a state in which the worker claims an entry. */
  lemma SomeClaim(p: Sample)
    requires Suitable(p)
    ensures Reachable(p.cfg, WhenQueued(p).state) && Claims(p.cfg, WhenQueued(p).state, Machine.Claim(0, p.token, 1, true))
  {
    hide Recounted, Lawful, Reachable;
    IsQueued(p);
    Claim(p, WhenQueued(p));
    RecountedReachable(p.cfg, WhenQueued(p));
  }

  /** There are removals to be justified: a completion removes the entry it posted. */
  lemma SomeRemoval(p: Sample)
    requires Suitable(p)
    ensures
      var s, ev := WhenPosting(p).state, Completion(p, |CompletionOps(p)|, true);
      Reachable(p.cfg, s) && Enabled(p.cfg, s, ev) && p.id in s.disk.entries && p.id !in Step(p.cfg, s, ev).disk.entries
  {
    hide Recounted, Lawful, Reachable, Run, CompletionOps;
    IsPosting(p);
    CompletionStarts(p);
    Completes(p, WhenPosting(p), |CompletionOps(p)|, true);
    Emptied(p);
    RecountedReachable(p.cfg, WhenPosting(p));
  }

  /**
  A run opens the store, posts the comment, crashes, reopens and queues the
  identifier again. A fresh wait is given the first lifetime's URL before that,
  and waits for the second lifetime after.
  */
  lemma SomeReuse(p: Sample) returns (reopened: Chronicle, reused: Chronicle)
    requires Suitable(p)
    ensures Recounted(p.cfg, reopened) && Recounted(p.cfg, reused) && reused.state.open
    ensures reopened.posted == reused.posted == map[p.first := Posting(p)]
    ensures reused.latest == map[p.id := Life(p.second, Queued)] && p.id in reused.state.disk.entries
    ensures L.Lookup(p.cfg.codec, reopened.state.disk, p.id, None) == L.Posted(p.url, 0)
    ensures L.Lookup(p.cfg.codec, reused.state.disk, p.id, None) == L.Pending(AwaitCursor(|reused.state.disk.history|, p.second))
  {
    hide Recounted, Lawful, Run, CompletionOps, L.Lookup, Refusal;
    var n := |CompletionOps(p)|;
    IsPosting(p);
    assert n > 0 by { CompletionStarts(p); }
    Completes(p, WhenPosting(p), n, true);
    Emptied(p);
    var posted := After(p.cfg, WhenPosting(p), Completion(p, n, true));
    RecountedStep(p.cfg, posted, Crash);
    var crashed := posted.(state := posted.state.(open := false, worker := Down));
    Started(p.cfg, crashed);
    reopened := crashed.(state := crashed.state.(open := true, worker := Idle));
    Put(p, reopened, p.second);
    var disk := reopened.state.disk.(entries := map[p.id := Entry(p, p.second)]);
    reused := Chronicle(reopened.state.(disk := disk, used := reopened.state.used + {p.second}),
                        reopened.latest[p.id := Life(p.second, Queued)], reopened.posted);
    FreshWaitIsExact(p.cfg, reopened, p.id);
    FreshWaitIsExact(p.cfg, reused, p.id);
  }

  lemma CompletionStarts(p: Sample)
    ensures |CompletionOps(p)| > 0
  {
    hide ReconcileOps;
  }

  /** A wait bound while the comment is queued is given its URL once it is posted. */
  lemma SomeBoundWait(p: Sample)
    requires Suitable(p)
    ensures
      var x, evs := WhenQueued(p), [Machine.Claim(0, p.token, 1, true), Completion(p, |CompletionOps(p)|, true)];
      && Recounted(p.cfg, x) && x.state.open && p.id in x.state.disk.entries
      && !BoundBehind(p.cfg.codec, x.state.disk, p.first) && Later(p.cfg, x, evs)
      && L.Lookup(p.cfg.codec, Told(p.cfg, x, evs).state.disk, p.id, Some(AwaitCursor(0, p.first))) == L.Posted(p.url, 0)
  {
    hide Recounted, Lawful, Run, CompletionOps, L.Lookup, Enabled, After;
    var n := |CompletionOps(p)|;
    var claim, complete := Machine.Claim(0, p.token, 1, true), Completion(p, n, true);
    var x, evs := WhenQueued(p), [claim, complete];
    IsQueued(p);
    IsPosting(p);
    assert n > 0 by { CompletionStarts(p); }
    Completes(p, WhenPosting(p), n, true);
    Emptied(p);
    OneEvent(p.cfg, WhenPosting(p), complete);
    assert evs[1..] == [complete];
    assert Told(p.cfg, x, evs) == After(p.cfg, WhenPosting(p), complete);
    assert Later(p.cfg, x, evs);
    BoundWaitIsExact(p.cfg, x, p.id, evs);
  }

  /**
  A run whose completion fails once its record is written: the journal stands,
  the entry is still queued and claimed, and a wait begun now is bound behind
  its own success.
  */
  lemma SomeFailure(p: Sample) returns (x: Chronicle)
    requires Suitable(p)
    ensures Recounted(p.cfg, x) && x.state.open && x.state.disk.journal.Some?
    ensures p.id in x.state.disk.entries && x.state.disk.entries[p.id] == Claimed(p)
    ensures BoundBehind(p.cfg.codec, x.state.disk, p.first)
  {
    hide Recounted, Lawful, Run, CompleteOps, Present, AppendedBytes, Recordable;
    var c, d, e, r := p.cfg.codec, EMPTY.(entries := map[p.id := Claimed(p)]), Claimed(p), Posting(p);
    var bytes := AppendedBytes(c, [], r);
    var k := |bytes| + 1;
    IsPosting(p);
    NewAttempt(p);
    RecordWritten(p);
    Completes(p, WhenPosting(p), k, false);
    x := After(p.cfg, WhenPosting(p), Completion(p, k, false));
    CompletionCutOff(c, d, e, r, k);
    AppendedLength(c, [], r);
    PresentIffWritten(c, d, e, r, |bytes|);
    assert bytes[..|bytes|] == bytes;
  }

  /** After journal and append the entry is still there. */
  lemma RecordWritten(p: Sample)
    requires Suitable(p)
    ensures
      var k := |AppendedBytes(p.cfg.codec, [], Posting(p))| + 1;
      && k < |CompletionOps(p)|
      && Run(EMPTY.(entries := map[p.id := Claimed(p)]), CompletionOps(p)[..k]).entries == map[p.id := Claimed(p)]
  {
    hide Lawful, Run, AppendedBytes, AppendOps, UnmarkOps, DropOps;
    var c, d, r := p.cfg.codec, EMPTY.(entries := map[p.id := Claimed(p)]), Posting(p);
    var j, bytes := CompletionJournal(d, Claimed(p), r), AppendedBytes(c, [], r);
    var journaled := d.(journal := Some(j));
    RecordsFirst(Forward(c), [], 0);
    assert RecordOps(c, journaled, j) == AppendOps(bytes);
    TailUnaffected(c, journaled, j);
    RunPrefixRest(d, [SetJournal(j)], AppendOps(bytes) + TailOps(journaled, j), 1 + |bytes|);
    RunShort(d, [SetJournal(j)], 1);
    RunPrefix(journaled, AppendOps(bytes), TailOps(journaled, j), |bytes|);
    RunAppend(journaled, bytes, |bytes|);
  }

  // One such sample, for any cooldown.

  function Uuid(c: char): string {
    seq(UUID_CHARS, _ => c)
  }

  ghost function SampleWith(cooldown: U64): Sample {
    Sample(Config(RecordCodec(), _ => 0, cooldown), "", CommentRequest("", "", 0, ""),
           Uuid('1'), Uuid('2'), Uuid('3'), None, "", "")
  }

  lemma SampleIsSuitable(cooldown: U64)
    ensures Suitable(SampleWith(cooldown))
  {
    hide Lawful, Fields;
    var p := SampleWith(cooldown);
    RecordCodecIsLawful();
    assert Uuid('1')[0] == '1' && Uuid('2')[0] == '2' && Uuid('3')[0] == '3';
    SmallRecord(Posting(p));
  }

  /** So for every cooldown there are runs that claim, and runs that reuse an identifier after its post. */
  lemma RunsExist(cooldown: U64)
    ensures exists cfg: Config, s: State, ev: Event :: cfg.cooldown == cooldown && Reachable(cfg, s) && Claims(cfg, s, ev)
    ensures exists cfg: Config, x: Chronicle, id: string ::
      cfg.cooldown == cooldown && Recounted(cfg, x) && id in x.latest && x.latest[id].fate.Queued? && x.posted != map[]
  {
    hide Recounted, Reachable, Suitable, Claims;
    var p := SampleWith(cooldown);
    SampleIsSuitable(cooldown);
    SomeClaim(p);
    var reopened, reused := SomeReuse(p);
    assert p.first in reused.posted;
    assert p.cfg.cooldown == cooldown && Recounted(p.cfg, reused) && p.id in reused.latest;
  }

  lemma SmallRecord(r: HistoryRecord)
    requires r.attemptId == r.id == r.tokenHash == "" && r.incarnation == Uuid('1') && r.request == CommentRequest("", "", 0, "")
    requires r.postedAt == 0 && r.error == None && r.commentUrl == None
    ensures |EncodeRecord(r)| < MAX_HISTORY_LINE_BYTES
  {
    hide Field;
    FieldsSize(RecordFields(r));
  }

  lemma {:induction false} FieldsSize(fields: seq<seq<nat>>)
    requires forall f :: f in fields ==> |f| <= UUID_CHARS && forall x :: x in f ==> x < 100
    ensures |Fields(fields)| <= 4000 * |fields|
  {
    if fields != [] {
      assert fields[0] in fields;
      assert forall f :: f in fields[1..] ==> f in fields;
      FieldSize(fields[0]);
      FieldsSize(fields[1..]);
    }
  }
}
