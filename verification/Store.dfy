/**
The store as an object whose methods change files one operation at a time.
`budget` counts the file operations that still succeed: a crash or an I/O
failure is the operation after them, at any point of any method.
*/
module Store {
  import opened Base
  import opened HistoryLog
  import opened ForwardRead
  import opened QueueOrder
  import opened Scheduling
  import opened Bounds
  import opened Disk
  import opened Recovery
  import opened StoreSteps

  /** The entry files in whatever order the system lists them. */
  method ListDirectory(m: Entries) returns (dir: seq<StoredEntry>)
    requires WellKeyed(m)
    ensures IsListing(dir, m)
  {
    dir := [];
    var rest := m;
    while rest != map[]
      invariant rest.Keys <= m.Keys && forall id :: id in rest ==> rest[id] == m[id]
      invariant IsListing(dir, m - rest.Keys)
      decreases |rest|
    {
      var id :| id in rest;
      ListedOne(dir, m, rest, id);
      dir := dir + [rest[id]];
      rest := rest - {id};
    }
    assert m - rest.Keys == m;
  }

  lemma ListedOne(dir: seq<StoredEntry>, m: Entries, rest: Entries, id: string)
    requires WellKeyed(m) && rest.Keys <= m.Keys && (forall k :: k in rest ==> rest[k] == m[k]) && id in rest
    requires IsListing(dir, m - rest.Keys)
    ensures IsListing(dir + [rest[id]], m - (rest - {id}).Keys)
    ensures |rest - {id}| < |rest|
  {
    var e, done := rest[id], m - rest.Keys;
    assert forall k :: 0 <= k < |dir| ==> dir[k] in dir && dir[k].id in done;
    assert (rest - {id}).Keys == rest.Keys - {id};
    assert |(rest - {id}).Keys| == |rest.Keys| - 1;
  }

  /** Sort a listing into posting order. */
  method SortEntries(dir: seq<StoredEntry>, ghost m: Entries) returns (es: seq<StoredEntry>)
    requires WellKeyed(m) && IsListing(dir, m)
    ensures es == Queue(m)
  {
    es := [];
    for i := 0 to |dir|
      invariant Ascending(es) && forall x :: x in es <==> x in dir[..i]
    {
      assert forall x :: x in dir[..i] ==> x.id != dir[i].id;
      es := Insert(es, dir[i]);
      assert dir[..i + 1] == dir[..i] + [dir[i]];
    }
    assert dir[..|dir|] == dir;
    QueueUnique(m, es);
  }

  datatype WriteResult = Written | WriteFailed | Refused(error: StoreError)

  datatype ClaimResult = NothingDue | Wait(seconds: U64) | Claimed(entry: StoredEntry) | ClaimFailed

  datatype PutResult =
    | Enqueued(entry: StoredEntry, eta: U64)
    | Existing(entry: StoredEntry, eta: U64)
    | PutRefused(error: StoreError)
    | PutFailed
    | Unresolved

  /** The content hash that names entries, salted only to get past a collision. */
  type EntryId = (CommentRequest, U64, Option<U64>) -> string

  /** The name tried after `k` collisions. */
  function Salted(entryId: EntryId, request: CommentRequest, now: U64, k: U64): string {
    entryId(request, now, if k == 0 then None else Some(k))
  }

  /** The salt after `n` collisions, which saturates. */
  function SaltAfter(n: nat): U64 {
    Min(n, U64_MAX)
  }

  /** A name that is free, or already names the same request. */
  predicate Usable(m: Entries, id: string, request: CommentRequest) {
    id in m ==> m[id].request == request
  }

  /** The name the first `tries` salts resolve to: the first usable one. */
  function Resolved(entryId: EntryId, m: Entries, request: CommentRequest, now: U64, tries: nat): Option<string> {
    if tries == 0 then None else
    match Resolved(entryId, m, request, now, tries - 1)
    case Some(id) => Some(id)
    case None =>
      var id := Salted(entryId, request, now, SaltAfter(tries - 1));
      if Usable(m, id, request) then Some(id) else None
  }

  lemma {:induction false} NoneUsable(entryId: EntryId, m: Entries, request: CommentRequest, now: U64, tries: nat)
    requires forall j :: 0 <= j < tries ==> !Usable(m, Salted(entryId, request, now, SaltAfter(j)), request)
    ensures Resolved(entryId, m, request, now, tries) == None
  {
    if tries > 0 {
      NoneUsable(entryId, m, request, now, tries - 1);
    }
  }

  lemma {:induction false} FirstUsable(entryId: EntryId, m: Entries, request: CommentRequest, now: U64, i: nat, tries: nat)
    requires i < tries && Usable(m, Salted(entryId, request, now, SaltAfter(i)), request)
    requires forall j :: 0 <= j < i ==> !Usable(m, Salted(entryId, request, now, SaltAfter(j)), request)
    ensures Resolved(entryId, m, request, now, tries) == Some(Salted(entryId, request, now, SaltAfter(i)))
  {
    if i == tries - 1 {
      NoneUsable(entryId, m, request, now, i);
    } else {
      FirstUsable(entryId, m, request, now, i, tries - 1);
    }
  }

  /** A resolved name is usable, and is found as soon as any name tried is usable. */
  lemma {:induction false} ResolvedUsable(entryId: EntryId, m: Entries, request: CommentRequest, now: U64, tries: nat)
    ensures
      var id := Resolved(entryId, m, request, now, tries);
      && (id.Some? ==> Usable(m, id.value, request))
      && (id.None? <==> forall j :: 0 <= j < tries ==> !Usable(m, Salted(entryId, request, now, SaltAfter(j)), request))
  {
    if tries > 0 {
      ResolvedUsable(entryId, m, request, now, tries - 1);
    }
  }

  /**
  The search by what it finds: the first name, unsalted and then salted 1, 2 and
  so on, that nothing is stored under or the same request is; all names before
  it are taken by other requests.
  */
  lemma {:induction false} ResolvedExact(entryId: EntryId, m: Entries, request: CommentRequest, now: U64, tries: nat, k: nat)
    requires k < tries <= U64_MAX
    ensures
      var name := (j: U64) => entryId(request, now, if j == 0 then None else Some(j));
      && (name(k) in m ==> m[name(k)].request == request)
      && (forall j: U64 :: j < k ==> name(j) in m && m[name(j)].request != request)
      ==> Resolved(entryId, m, request, now, tries) == Some(name(k))
  {
    var name := (j: U64) => entryId(request, now, if j == 0 then None else Some(j));
    if (name(k) in m ==> m[name(k)].request == request) && (forall j: U64 :: j < k ==> name(j) in m && m[name(j)].request != request) {
      forall j | 0 <= j < k ensures !Usable(m, Salted(entryId, request, now, SaltAfter(j)), request) {
        assert name(j) in m && m[name(j)].request != request;
      }
      FirstUsable(entryId, m, request, now, k, tries);
    }
  }

  /** So the same request put again in the same second is answered with the entry it already has. */
  lemma SameRequestFound(entryId: EntryId, m: Entries, request: CommentRequest, now: U64, tries: nat)
    requires 0 < tries <= U64_MAX
    ensures
      var id := entryId(request, now, None);
      id in m && m[id].request == request ==> Resolved(entryId, m, request, now, tries) == Some(id)
  {
    ResolvedExact(entryId, m, request, now, tries, 0);
  }

  /** How many names are tried does not matter once one of them is usable. */
  lemma {:induction false} MoreTries(entryId: EntryId, m: Entries, request: CommentRequest, now: U64, tries: nat, more: nat)
    requires tries <= more && Resolved(entryId, m, request, now, tries).Some?
    ensures Resolved(entryId, m, request, now, more) == Resolved(entryId, m, request, now, tries)
    decreases more
  {
    if tries < more {
      MoreTries(entryId, m, request, now, tries, more - 1);
    }
  }

  /** The names of the first `tries` salts. */
  function Names(entryId: EntryId, request: CommentRequest, now: U64, tries: nat): set<string> {
    if tries == 0 then {} else Names(entryId, request, now, tries - 1) + {Salted(entryId, request, now, SaltAfter(tries - 1))}
  }

  /** The search ends: among more names than there are entries, one is usable. */
  lemma {:induction false} SearchEnds(entryId: EntryId, m: Entries, request: CommentRequest, now: U64, tries: nat)
    requires |Names(entryId, request, now, tries)| > |m|
    ensures Resolved(entryId, m, request, now, tries).Some?
  {
    if Resolved(entryId, m, request, now, tries).None? {
      TakenNames(entryId, m, request, now, tries);
      SubsetSize(Names(entryId, request, now, tries), m.Keys);
    }
  }

  lemma {:induction false} TakenNames(entryId: EntryId, m: Entries, request: CommentRequest, now: U64, tries: nat)
    requires Resolved(entryId, m, request, now, tries).None?
    ensures Names(entryId, request, now, tries) <= m.Keys
  {
    if tries > 0 {
      TakenNames(entryId, m, request, now, tries - 1);
    }
  }

  lemma FirstTime(es: seq<StoredEntry>, previous: Option<U64>, cooldown: U64, now: U64)
    requires es != []
    ensures PostTimes(es, previous, cooldown, now)[0] == PostAt(es[0], previous, cooldown, now)
  {
  }

  lemma ListsAll(m: Entries)
    requires WellKeyed(m)
    ensures Queue(m) == [] <==> m == map[]
    ensures (forall i :: 0 <= i < |Queue(m)| ==> Queue(m)[i].claimToken.None?) <==> (forall id :: id in m ==> m[id].claimToken.None?)
  {
    var es := Queue(m);
    if es == [] {
      NoEntries(m);
    } else {
      assert es[0] in es;
    }
    forall id | id in m ensures exists i :: 0 <= i < |es| && es[i] == m[id] {
      assert m[id] in es;
    }
    forall i | 0 <= i < |es| ensures es[i].id in m && m[es[i].id] == es[i] {
      assert es[i] in es;
    }
  }

  class QueueStore {
    const codec: Codec
    const fixed: FixedBytes
    const buffered: nat -> nat
    var entries: Entries
    var tombstones: map<string, string>
    var lastPost: Option<U64>
    var lastAttempt: Option<U64>
    var journal: Option<Journal>
    var history: seq<byte>
    var budget: nat

    constructor (codec: Codec, fixed: FixedBytes, buffered: nat -> nat, d: Disk, budget: nat)
      ensures this.codec == codec && this.fixed == fixed && this.buffered == buffered && this.budget == budget && View() == d
    {
      this.codec, this.fixed, this.buffered, this.budget := codec, fixed, buffered, budget;
      entries, tombstones, lastPost, lastAttempt, journal, history := d.entries, d.tombstones, d.lastPost, d.lastAttempt, d.journal, d.history;
    }

    function View(): Disk
      reads this
    {
      Disk(entries, tombstones, lastPost, lastAttempt, journal, history)
    }

    /** From `before`, exactly the file operations the budget allowed took effect; `ok` if that is all of them. */
    ghost predicate Did(before: Disk, fuel: nat, ops: seq<FileOp>, ok: bool)
      reads this
    {
      && (ok <==> |ops| <= fuel)
      && budget == fuel - Min(fuel, |ops|)
      && View() == Run(before, ops[..Min(fuel, |ops|)])
    }

    /** One file operation, atomic by writing a sibling and renaming it. */
    method Perform(op: FileOp) returns (ok: bool)
      modifies this
      ensures Did(old(View()), old(budget), [op], ok)
    {
      RunShort(View(), [op], Min(budget, 1));
      if budget == 0 {
        return false;
      }
      budget := budget - 1;
      match op {
        case PutEntry(e) => entries := entries[e.id := e];
        case DropEntry(id) => entries := entries - {id};
        case SetTombstone(id, incarnation) => tombstones := tombstones[id := incarnation];
        case ClearTombstone(id) => tombstones := tombstones - {id};
        case SetLastPost(at) => lastPost := Some(at);
        case SetLastAttempt(at) => lastAttempt := Some(at);
        case SetJournal(j) => journal := Some(j);
        case ClearJournal => journal := None;
        case AppendByte(b) => history := history + [b];
      }
      return true;
    }

    /** Nothing to do. */
    lemma DidNothing()
      ensures Did(View(), budget, [], true)
    {
      RunShort(View(), [], 0);
    }

    lemma DidStop(before: Disk, fuel: nat, a: seq<FileOp>, b: seq<FileOp>)
      requires Did(before, fuel, a, false)
      ensures Did(before, fuel, a + b, false)
    {
      hide Run;
      assert (a + b)[..fuel] == a[..fuel];
    }

    /** Doing `a` whole and then what the rest of the budget allows of `b`. */
    lemma {:induction false} DidThen(before: Disk, fuel: nat, a: seq<FileOp>, b: seq<FileOp>, ok: bool)
      requires |a| <= fuel && Did(Run(before, a), fuel - |a|, b, ok)
      ensures Did(before, fuel, a + b, ok)
    {
      hide Run;
      RunPrefixRest(before, a, b, Min(fuel, |a + b|));
    }

    lemma DidWhole(before: Disk, fuel: nat, a: seq<FileOp>)
      requires Did(before, fuel, a, true)
      ensures View() == Run(before, a) && budget == fuel - |a| && |a| <= fuel
    {
      assert a[..|a|] == a;
    }

    /** Write bytes to the end of the log, as far as the budget goes. */
    method WriteAll(bytes: seq<byte>) returns (ok: bool)
      modifies this
      ensures Did(old(View()), old(budget), AppendOps(bytes), ok)
    {
      hide Run, AppendOps, Apply;
      ghost var before, fuel := View(), budget;
      ghost var ops := AppendOps(bytes);
      RunShort(before, [], 0);
      for i := 0 to |bytes|
        invariant i <= fuel && budget == fuel - i && View() == Run(before, ops[..i])
      {
        ghost var mid := View();
        ok := Perform(AppendByte(bytes[i]));
        RunShort(mid, [AppendByte(bytes[i])], Min(fuel - i, 1));
        if !ok {
          return;
        }
        NextByte(before, bytes, i);
      }
      ok := true;
    }

    /** Append a record after repairing a missing final newline. */
    method Append(r: HistoryRecord) returns (ok: bool)
      modifies this
      ensures Did(old(View()), old(budget), AppendOps(AppendedBytes(codec, old(history), r)), ok)
    {
      hide Did, AppendOps, AppendedBytes;
      BytesToAppend(codec, history, r);
      var line := codec.encode(r) + [NEWLINE];
      if history != [] && history[|history| - 1] != NEWLINE {
        line := [NEWLINE] + line;
      }
      ok := WriteAll(line);
    }

    /** Append a recovered completion unless it is already in the log. */
    method AppendOnce(j: Journal) returns (ok: bool)
      modifies this
      ensures Did(old(View()), old(budget), RecordOps(codec, old(View()), j), ok)
    {
      hide Run, AppendOps, AppendedBytes, Records;
      if j.history.None? {
        DidNothing();
        return true;
      }
      ForwardCapped(codec);
      var from := match j.historyOffset case None => 0 case Some(o) => o;
      var found := ContainsAttempt(Forward(codec), history, buffered, j.history.value.attemptId, from);
      if found {
        DidNothing();
        return true;
      }
      ok := Append(j.history.value);
    }

    /** The marker goes if the post is of the marked lifetime, or of the one queued now. */
    method ClearAwaitDeletion(j: Journal) returns (ok: bool)
      modifies this
      ensures Did(old(View()), old(budget), UnmarkOps(old(View()), j), ok)
    {
      hide Run;
      if j.history.Some? && j.id in tombstones {
        var incarnation := j.history.value.incarnation;
        var current := j.id in entries && entries[j.id].incarnation == incarnation;
        if tombstones[j.id] == incarnation || current {
          ok := Perform(ClearTombstone(j.id));
          return;
        }
      }
      DidNothing();
      return true;
    }

    /** Remove the posted entry unless a replacement without the journaled claim took its place. */
    method DropPosted(j: Journal) returns (ok: bool)
      modifies this
      ensures Did(old(View()), old(budget), DropOps(old(View()), j), ok)
    {
      hide Run;
      if j.id in entries && (j.claimToken.None? || entries[j.id].claimToken == j.claimToken) {
        ok := Perform(DropEntry(j.id));
        return;
      }
      DidNothing();
      return true;
    }

    /** Finish a journaled completion, if there is one. */
    method ReconcileCompletion() returns (ok: bool)
      modifies this
      ensures Did(old(View()), old(budget), ReconcileOps(codec, old(View())), ok)
    {
      hide Run, RecordOps, UnmarkOps, DropOps, Did;
      if journal.None? {
        DidNothing();
        return true;
      }
      var j := journal.value;
      ghost var d, fuel := View(), budget;
      ghost var a, u, e, m := RecordOps(codec, d, j), UnmarkOps(d, j), DropOps(d, j), [SetLastPost(j.postedAt), ClearJournal];
      OnlyHistoryChanges(codec, d, j);
      ok := AppendOnce(j);
      if !ok {
        DidStop(d, fuel, a, u + e + m);
        return;
      }
      DidWhole(d, fuel, a);
      ok := ClearAwaitDeletion(j);
      DidThen(d, fuel, a, u, ok);
      if !ok {
        DidStop(d, fuel, a + u, e + m);
        assert a + u + (e + m) == a + (u + e + m);
        return;
      }
      DidWhole(d, fuel, a + u);
      ok := DropPosted(j);
      DidThen(d, fuel, a + u, e, ok);
      if !ok {
        DidStop(d, fuel, a + u + e, m);
        assert a + u + e + m == a + (u + e + m);
        return;
      }
      DidWhole(d, fuel, a + u + e);
      ok := Perform(SetLastPost(j.postedAt));
      DidThen(d, fuel, a + u + e, [SetLastPost(j.postedAt)], ok);
      if !ok {
        DidStop(d, fuel, a + u + e + [SetLastPost(j.postedAt)], [ClearJournal]);
        assert a + u + e + [SetLastPost(j.postedAt)] + [ClearJournal] == a + (u + e + m);
        return;
      }
      DidWhole(d, fuel, a + u + e + [SetLastPost(j.postedAt)]);
      ok := Perform(ClearJournal);
      DidThen(d, fuel, a + u + e + [SetLastPost(j.postedAt)], [ClearJournal], ok);
      assert a + u + e + [SetLastPost(j.postedAt)] + [ClearJournal] == a + (u + e + m);
    }

    /** Journal the completion of a post, then reconcile it; an unclaimed entry must still be queued. */
    method CompleteClaim(entry: StoredEntry, tokenHash: string, now: U64, url: Option<string>,
                         attemptId: string) returns (found: bool, ok: bool)
      modifies this
      ensures found == (entry.claimToken.Some? || entry.id in old(entries))
      ensures
        var r := SuccessRecord(entry, tokenHash, now, url, attemptId);
        Did(old(View()), old(budget), if found then CompleteOps(codec, old(View()), entry, r) else [], ok)
      ensures found && ok ==>
        && journal == None && lastPost == Some(now)
        && exists r :: && Tells(r, entry, now, tokenHash, attemptId) && r.success && r.error == None && r.commentUrl == url
                       && history == old(history) + AppendedBytes(codec, old(history), r)
    {
      hide Run, ReconcileOps, Did, AppendedBytes;
      found := entry.claimToken.Some? || entry.id in entries;
      if !found {
        DidNothing();
        return false, true;
      }
      var r := SuccessRecord(entry, tokenHash, now, url, attemptId);
      var j := Journal(entry.id, now, entry.claimToken, Some(r), Some(|history|));
      ghost var d, fuel := View(), budget;
      assert j == CompletionJournal(d, entry, r);
      ghost var rest := ReconcileOps(codec, d.(journal := Some(j)));
      ok := Perform(SetJournal(j));
      if !ok {
        DidStop(d, fuel, [SetJournal(j)], rest);
        return;
      }
      DidWhole(d, fuel, [SetJournal(j)]);
      RunShort(d, [SetJournal(j)], 1);
      ok := ReconcileCompletion();
      DidThen(d, fuel, [SetJournal(j)], rest, ok);
      assert Tells(r, entry, now, tokenHash, attemptId);
      if ok {
        DidWhole(d, fuel, [SetJournal(j)] + rest);
        assert [SetJournal(j)] + rest == CompleteOps(codec, d, entry, r);
        assert ([SetJournal(j)] + rest)[..1 + |rest|] == [SetJournal(j)] + rest;
        CompletionLog(codec, d, entry, r, 1 + |rest|);
      }
    }

    /** Mark the deletion, then remove the entry. */
    method Del(id: string) returns (found: bool, ok: bool)
      modifies this
      ensures found == (id in old(entries))
      ensures Did(old(View()), old(budget), DelOps(old(View()), id), ok)
    {
      hide Run, Did;
      found := id in entries;
      if !found {
        DidNothing();
        return false, true;
      }
      ghost var d, fuel := View(), budget;
      var mark := SetTombstone(id, entries[id].incarnation);
      ok := Perform(mark);
      if !ok {
        DidStop(d, fuel, [mark], [DropEntry(id)]);
        assert [mark] + [DropEntry(id)] == [mark, DropEntry(id)];
        return;
      }
      DidWhole(d, fuel, [mark]);
      ok := Perform(DropEntry(id));
      DidThen(d, fuel, [mark], [DropEntry(id)], ok);
      assert [mark] + [DropEntry(id)] == [mark, DropEntry(id)];
    }

    /** The entries in posting order, with what they use; an over-full directory is refused. */
    method EntriesAndUsage() returns (es: seq<StoredEntry>, r: UsageResult)
      requires WellKeyed(entries)
      ensures r.UsageOk? <==> Readable(fixed, entries)
      ensures r.UsageOk? ==> r.usage == UsageOf(fixed, entries)
      ensures es == Queue(entries)
    {
      var dir := ListDirectory(entries);
      r := EntriesWithUsage(fixed, dir, entries);
      es := SortEntries(dir, entries);
    }

    /** Persist an entry after rechecking every limit; a directory over a limit takes nothing. */
    method WriteEntry(e: StoredEntry) returns (r: WriteResult)
      requires WellKeyed(entries)
      modifies this
      ensures r.Refused? ==> View() == old(View()) && budget == old(budget)
      ensures !Readable(fixed, old(entries)) ==> r.Refused?
      ensures Readable(fixed, old(entries)) ==>
        var refusal := Refusal(fixed, old(entries), e);
        if refusal.Some? then r == Refused(refusal.value)
        else !r.Refused? && Did(old(View()), old(budget), [PutEntry(e)], r.Written?)
    {
      hide Run, Did, Sum, WriteRefusal, EntryBytes, EntryHeadroom, Queue, Readable;
      var _, usage := EntriesAndUsage();
      if usage.UsageErr? {
        return Refused(usage.error);
      }
      var previous := if e.id in entries then Some(FootprintOf(fixed, entries[e.id])) else None;
      var refusal := WriteRefusal(usage.usage, previous, FootprintOf(fixed, e));
      if refusal.Some? {
        return Refused(refusal.value);
      }
      var ok := Perform(PutEntry(e));
      return if ok then Written else WriteFailed;
    }

    /** Rewrite the order, claim or first lifetime of a stored entry: no limit refuses that. */
    method Rewrite(e: StoredEntry) returns (ok: bool)
      requires Admitted(fixed, entries) && e.id in entries && SameFixed(e, entries[e.id]) && UuidFields(e)
      modifies this
      ensures Did(old(View()), old(budget), [PutEntry(e)], ok)
      ensures Admitted(fixed, entries)
    {
      hide Admitted, Refusal, Run, Readable;
      MutationNeverRefused(fixed, entries, e);
      AdmittedIsReadable(fixed, entries);
      AdmittedKeyed(fixed, entries);
      ghost var d := View();
      var r := WriteEntry(e);
      ok := r.Written?;
      RunShort(d, [PutEntry(e)], Min(old(budget), 1));
    }

    /** Move an entry to the head of the queue, or to its tail. */
    method Reorder(id: string, front: bool) returns (found: bool, ok: bool)
      requires Admitted(fixed, entries)
      modifies this
      ensures found == (id in old(entries)) && Admitted(fixed, entries)
      ensures Did(old(View()), old(budget), if front then BumpOps(old(View()), id) else BustOps(old(View()), id), ok)
    {
      hide Admitted, Run, Did, Readable, Queue;
      AdmittedIsReadable(fixed, entries);
      assert WellKeyed(entries) by { AdmittedKeyed(fixed, entries); }
      var all, _ := EntriesAndUsage();
      found := id in entries;
      if !found {
        DidNothing();
        return false, true;
      }
      var order := if front then BumpOrder(entries[id], all) else BustOrder(entries[id], all);
      AdmittedEntry(fixed, entries, id);
      ok := Rewrite(entries[id].(order := order));
    }

    /** The head of the queue and its estimate, unless something is claimed. */
    method NextDue(cooldown: U64, now: U64) returns (r: Option<(StoredEntry, U64)>)
      requires Admitted(fixed, entries)
      ensures r.None? <==> !NothingClaimed(View()) || Queue(entries) == []
      ensures r.Some? ==> r.value == (Queue(entries)[0], Eta(HeadTime(PendingOf(View()), cooldown, now), now))
    {
      hide Admitted, Readable, PostTimes, PostAt, Queue, WellKeyed;
      assert WellKeyed(entries) by { AdmittedKeyed(fixed, entries); }
      var es, _ := EntriesAndUsage();
      ListsAll(entries);
      for i := 0 to |es|
        invariant forall k :: 0 <= k < i ==> es[k].claimToken.None?
      {
        if es[i].claimToken.Some? {
          return None;
        }
      }
      if es == [] {
        return None;
      }
      var times := PostTimes(es, PreviousActivity(lastPost, lastAttempt), cooldown, now);
      FirstTime(es, PreviousActivity(lastPost, lastAttempt), cooldown, now);
      return Some((es[0], Eta(times[0], now)));
    }

    /** Claim the head when nothing is claimed and it is due. */
    method ClaimNextDue(cooldown: U64, now: U64, token: string) returns (r: ClaimResult)
      requires Admitted(fixed, entries) && |token| == UUID_CHARS
      modifies this
      ensures Admitted(fixed, entries)
      ensures Did(old(View()), old(budget), ClaimOps(old(View()), cooldown, now, token), r != ClaimFailed)
      ensures r == NothingDue <==> !NothingClaimed(old(View())) || Queue(old(entries)) == []
      ensures r.Wait? ==> r.seconds == Eta(HeadTime(PendingOf(old(View())), cooldown, now), now) > 0
      ensures r.Claimed? ==> ClaimOps(old(View()), cooldown, now, token) == [PutEntry(r.entry)]
    {
      hide Admitted, Run, Did, HeadTime, Eta, NothingClaimed;
      assert WellKeyed(entries) by { AdmittedKeyed(fixed, entries); }
      var next := NextDue(cooldown, now);
      if next.None? {
        DidNothing();
        return NothingDue;
      }
      var head, wait := next.value.0, next.value.1;
      if wait > 0 {
        DidNothing();
        return Wait(wait);
      }
      assert head in Queue(entries);
      AdmittedEntry(fixed, entries, head.id);
      var claimed := head.(claimToken := Some(token));
      var ok := Rewrite(claimed);
      return if ok then Claimed(claimed) else ClaimFailed;
    }

    /** Record a failed attempt, then clear the claim it belongs to. */
    method ReleaseClaim(id: string, token: string, attemptedAt: U64) returns (ok: bool)
      requires Admitted(fixed, entries)
      modifies this
      ensures Admitted(fixed, entries)
      ensures Did(old(View()), old(budget), ReleaseOps(old(View()), id, token, attemptedAt), ok)
    {
      hide Admitted, Run, Did;
      if id !in entries || entries[id].claimToken != Some(token) {
        DidNothing();
        return true;
      }
      var latest := match lastAttempt case None => attemptedAt case Some(t) => Max(t, attemptedAt);
      AdmittedEntry(fixed, entries, id);
      var released := entries[id].(claimToken := None);
      ghost var d, fuel := View(), budget;
      ghost var a, b := [SetLastAttempt(latest)], [PutEntry(released)];
      assert a + b == ReleaseOps(d, id, token, attemptedAt);
      ok := Perform(SetLastAttempt(latest));
      if !ok {
        DidStop(d, fuel, a, b);
        Unmoved(d, fuel, a);
        return;
      }
      DidWhole(d, fuel, a);
      RunShort(d, a, 1);
      ok := Rewrite(released);
      DidThen(d, fuel, a, b, ok);
    }

    lemma Unmoved(d: Disk, fuel: nat, a: seq<FileOp>)
      requires Did(d, fuel, a, false) && |a| == 1
      ensures View() == d
    {
      RunShort(d, a, 0);
    }

    /** Rewrite one entry if it is claimed or lacks a lifetime, after the operations `done`. */
    method ReclaimEntry(e: StoredEntry, uuid: string -> string, ghost d: Disk, ghost fuel: nat,
                        ghost es: seq<StoredEntry>, ghost done: seq<FileOp>)
      returns (ok: bool)
      requires Admitted(fixed, entries) && Uuids(uuid, d.entries) && Did(d, fuel, done, true)
      requires Admitted(fixed, d.entries) && StandIn(es, d.entries) && done <= ReclaimOps(es, uuid) && e in es
      modifies this
      ensures Admitted(fixed, entries) && Did(d, fuel, done + FirstReclaim(e, uuid), ok)
    {
      hide Admitted, Run, Did, ReclaimOps, Uuids, Reclaimed, SameFixed, UuidFields, StandIn;
      var reclaimed := Reclaimed(e, uuid);
      if reclaimed == e {
        assert done + [] == done;
        return true;
      }
      DidWhole(d, fuel, done);
      ReclaimNext(fixed, d, es, uuid, done, e);
      ok := Rewrite(reclaimed);
      DidThen(d, fuel, done, [PutEntry(reclaimed)], ok);
    }

    /** Clear interrupted claims and give legacy entries a lifetime. */
    method ReclaimClaims(uuid: string -> string) returns (ok: bool)
      requires Admitted(fixed, entries) && Uuids(uuid, entries)
      modifies this
      ensures Admitted(fixed, entries)
      ensures Did(old(View()), old(budget), ReclaimOps(Queue(old(entries)), uuid), ok)
    {
      hide Admitted, Run, Did, Readable, ReclaimOps, Queue, Uuids, FirstReclaim, StandIn, WellKeyed;
      assert WellKeyed(entries) by { AdmittedKeyed(fixed, entries); }
      var es, _ := EntriesAndUsage();
      ghost var d, fuel := View(), budget;
      QueueStands(entries);
      DidNothing();
      ReclaimSplit(es, uuid, 0);
      for i := 0 to |es|
        invariant Did(d, fuel, ReclaimOps(es[..i], uuid), true)
        invariant Admitted(fixed, entries) && StandIn(es, d.entries) && Admitted(fixed, d.entries)
      {
        ReclaimSplit(es, uuid, i);
        ok := ReclaimEntry(es[i], uuid, d, fuel, es, ReclaimOps(es[..i], uuid));
        if !ok {
          ReclaimSplit(es, uuid, i + 1);
          DidStop(d, fuel, ReclaimOps(es[..i + 1], uuid), ReclaimOps(es[i + 1..], uuid));
          return;
        }
      }
      assert es[..|es|] == es;
      ok := true;
    }

    /** Clear one queued entry's marker, after the operations `done`. */
    method ClearLeftover(e: StoredEntry, ghost d: Disk, ghost fuel: nat, ghost done: seq<FileOp>) returns (ok: bool)
      requires Did(d, fuel, done, true) && (e.id in tombstones <==> e.id in d.tombstones)
      modifies this
      ensures Did(d, fuel, done + FirstUnmark(e, d.tombstones), ok)
      ensures ok ==> tombstones == old(tombstones) - {e.id}
    {
      hide Run, Did;
      if e.id !in tombstones {
        assert done + [] == done && tombstones - {e.id} == tombstones;
        return true;
      }
      DidWhole(d, fuel, done);
      ghost var mid, left := View(), budget;
      ok := Perform(ClearTombstone(e.id));
      DidThen(d, fuel, done, [ClearTombstone(e.id)], ok);
      if ok {
        DidWhole(mid, left, [ClearTombstone(e.id)]);
        RunShort(mid, [ClearTombstone(e.id)], 1);
      }
    }

    /** Clear deletion markers left by a crash that did not remove their entries. */
    method ReconcileAwaitDeletions() returns (ok: bool)
      requires WellKeyed(entries)
      modifies this
      ensures Did(old(View()), old(budget), UnmarkQueuedOps(Queue(old(entries)), old(tombstones)), ok)
    {
      hide Run, Did, Readable, UnmarkQueuedOps, Queue, WellKeyed, FirstUnmark;
      var es, _ := EntriesAndUsage();
      ghost var d, fuel := View(), budget;
      QueueStands(entries);
      DidNothing();
      UnmarkSplit(es, d.tombstones, 0);
      for i := 0 to |es|
        invariant Did(d, fuel, UnmarkQueuedOps(es[..i], d.tombstones), true)
        invariant forall k :: i <= k < |es| ==> (es[k].id in tombstones <==> es[k].id in d.tombstones)
      {
        UnmarkSplit(es, d.tombstones, i);
        ok := ClearLeftover(es[i], d, fuel, UnmarkQueuedOps(es[..i], d.tombstones));
        if !ok {
          UnmarkSplit(es, d.tombstones, i + 1);
          DidStop(d, fuel, UnmarkQueuedOps(es[..i + 1], d.tombstones), UnmarkQueuedOps(es[i + 1..], d.tombstones));
          return;
        }
      }
      assert es[..|es|] == es;
      ok := true;
    }

    /** Reconcile the journal, then reclaim claims. */
    method RecoverWorkerState(uuid: string -> string) returns (ok: bool)
      requires Admitted(fixed, entries) && Uuids(uuid, entries)
      modifies this
      ensures Admitted(fixed, entries)
      ensures Did(old(View()), old(budget), RecoverOps(codec, old(View()), uuid), ok)
    {
      hide Admitted, Run, Did, ReconcileOps, ReclaimOps, Uuids;
      ghost var d, fuel := View(), budget;
      ghost var a := ReconcileOps(codec, d);
      ok := ReconcileCompletion();
      ReconcileAdmitted(fixed, codec, d, Min(fuel, |a|));
      assert entries == Run(d, a[..Min(fuel, |a|)]).entries by { Viewed(d, fuel, a, ok); }
      if !ok {
        DidStop(d, fuel, a, ReclaimOps(QueueOrNone(Run(d, a).entries), uuid));
        return;
      }
      DidWhole(d, fuel, a);
      assert WellKeyed(entries) by { AdmittedKeyed(fixed, entries); }
      ReconcileNameless(codec, d, uuid, |a|);
      assert a[..|a|] == a;
      ok := ReclaimClaims(uuid);
      DidThen(d, fuel, a, ReclaimOps(Queue(Run(d, a).entries), uuid), ok);
    }

    lemma Viewed(before: Disk, fuel: nat, ops: seq<FileOp>, ok: bool)
      requires Did(before, fuel, ops, ok)
      ensures View() == Run(before, ops[..Min(fuel, |ops|)])
    {
    }

    /** Recover, then clear the deletion markers of entries that are still queued. */
    method Open(uuid: string -> string) returns (ok: bool)
      requires Admitted(fixed, entries) && Uuids(uuid, entries)
      modifies this
      ensures Admitted(fixed, entries)
      ensures Did(old(View()), old(budget), OpenOps(codec, old(View()), uuid), ok)
    {
      hide Admitted, Run, Did, RecoverOps, Uuids, UnmarkQueuedOps, Readable;
      ghost var d, fuel := View(), budget;
      ghost var a := RecoverOps(codec, d, uuid);
      ok := RecoverWorkerState(uuid);
      if !ok {
        DidStop(d, fuel, a, UnmarkQueuedOps(QueueOrNone(Run(d, a).entries), Run(d, a).tombstones));
        return;
      }
      DidWhole(d, fuel, a);
      assert WellKeyed(entries) by { AdmittedKeyed(fixed, entries); }
      ghost var mid, left := View(), budget;
      ghost var u := UnmarkQueuedOps(Queue(entries), tombstones);
      ok := ReconcileAwaitDeletions();
      DidThen(d, fuel, a, u, ok);
      assert entries == mid.entries by {
        Viewed(mid, left, u, ok);
        UnmarkQueuedEffect(mid, Queue(mid.entries), mid.tombstones, Min(left, |u|));
      }
    }

    /** The first usable name, if it is among the first `tries` ones. */
    method ResolveEntryId(entryId: EntryId, request: CommentRequest, now: U64, tries: nat) returns (id: Option<string>)
      ensures id == Resolved(entryId, entries, request, now, tries)
    {
      var salt: U64 := 0;
      for i := 0 to tries
        invariant salt == SaltAfter(i)
        invariant forall j :: 0 <= j < i ==> !Usable(entries, Salted(entryId, request, now, SaltAfter(j)), request)
      {
        if Usable(entries, Salted(entryId, request, now, salt), request) {
          FirstUsable(entryId, entries, request, now, i, tries);
          return Some(Salted(entryId, request, now, salt));
        }
        salt := SatAdd(salt, 1);
      }
      NoneUsable(entryId, entries, request, now, tries);
      return None;
    }

    /**
    Enqueue a request behind the queue and report its estimate, computed before
    anything is written. The same request under the same name is not queued
    twice, and a refused or failed write changes nothing.
    */
    method PutWithEta(entryId: EntryId, tries: nat, request: CommentRequest, cooldown: U64, flutter: U64, immediate: bool,
                      now: U64, incarnation: string)
      returns (r: PutResult)
      requires Admitted(fixed, entries) && |incarnation| == UUID_CHARS
      modifies this
      ensures Admitted(fixed, entries)
      ensures r == Unresolved <==> Resolved(entryId, old(entries), request, now, tries).None?
      ensures r == Unresolved ==> View() == old(View())
      ensures r != Unresolved ==>
        var d, id := old(View()), Resolved(entryId, old(entries), request, now, tries).value;
        var previous := PreviousActivity(d.lastPost, d.lastAttempt);
        var added := NewEntry(d, id, incarnation, request, cooldown, flutter, immediate, now);
        match r
        case Unresolved => true
        case Existing(entry, eta) =>
          && id in d.entries && entry == d.entries[id] && entry.request == request && View() == d
          && Some(eta) == EtaOf(TimeOf(Queue(d.entries), previous, cooldown, now, id), now)
        case Enqueued(entry, eta) =>
          && id !in d.entries && entry == added && Carries(entry, cooldown, request, flutter, immediate, now)
          && View() == d.(entries := d.entries[id := entry])
          && Some(eta) == EtaOf(TimeOf(Queue(d.entries) + [entry], previous, cooldown, now, id), now)
        case PutRefused(error) => id !in d.entries && Refusal(fixed, d.entries, added) == Some(error) && View() == d
        case PutFailed => id !in d.entries && old(budget) == 0 && View() == d
    {
      hide Admitted, Run, Refusal, Readable, Queue, TimeOf, Resolved;
      AdmittedIsReadable(fixed, entries);
      var resolved := ResolveEntryId(entryId, request, now, tries);
      if resolved.None? {
        return Unresolved;
      }
      var id := resolved.value;
      ResolvedUsable(entryId, entries, request, now, tries);
      assert WellKeyed(entries) by { AdmittedKeyed(fixed, entries); }
      var es, usage := EntriesAndUsage();
      var previous := PreviousActivity(lastPost, lastAttempt);
      if id in entries {
        Scheduled(entries, previous, cooldown, now, id);
        return Existing(entries[id], Eta(TimeOf(es, previous, cooldown, now, id).value, now));
      }
      if |es| >= MAX_QUEUE_ENTRIES {
        FullRefusal(fixed, entries, NewEntry(View(), id, incarnation, request, cooldown, flutter, immediate, now));
        return PutRefused(QueueFull(MAX_QUEUE_ENTRIES));
      }
      var floor := if immediate then 0 else SatAdd(SatAdd(now, cooldown), flutter);
      var entry := StoredEntry(id, incarnation, TailOrder(es), flutter, now, floor, None, request);
      TimeOfAppend(es, entry, previous, cooldown, now, id);
      var eta := Eta(TimeOf(es + [entry], previous, cooldown, now, id).value, now);
      ghost var d, fuel := View(), budget;
      var written := WriteEntry(entry);
      RunShort(d, [PutEntry(entry)], Min(fuel, 1));
      match written {
        case Refused(error) => return PutRefused(error);
        case WriteFailed => return PutFailed;
        case Written =>
          PutStaysAdmitted(fixed, d.entries, entry);
          return Enqueued(entry, eta);
      }
    }
  }

  function EtaOf(time: Option<U64>, now: U64): Option<U64> {
    match time case None => None case Some(t) => Some(Eta(t, now))
  }

  /** Every stored entry has a projected time. */
  lemma Scheduled(m: Entries, previous: Option<U64>, cooldown: U64, now: U64, id: string)
    requires WellKeyed(m) && id in m
    ensures TimeOf(Queue(m), previous, cooldown, now, id).Some?
    ensures forall x :: x in Queue(m) ==> x.id in m
  {
    assert m[id] in Queue(m);
    Listed(Queue(m), previous, cooldown, now, m[id]);
  }

  lemma {:induction false} Listed(es: seq<StoredEntry>, previous: Option<U64>, cooldown: U64, now: U64, e: StoredEntry)
    requires e in es
    ensures TimeOf(es, previous, cooldown, now, e.id).Some?
  {
    if es[0].id != e.id {
      Listed(es[1..], Some(PostAt(es[0], previous, cooldown, now)), cooldown, now, e);
    }
  }

  lemma FullRefusal(fixed: FixedBytes, m: Entries, e: StoredEntry)
    requires WellKeyed(m) && e.id !in m && |Queue(m)| >= MAX_QUEUE_ENTRIES
    ensures Refusal(fixed, m, e) == Some(QueueFull(MAX_QUEUE_ENTRIES))
  {
    hide Sum;
    QueueStands(m);
    ListingCount(Queue(m), m);
  }

  lemma ReconcileAdmitted(fixed: FixedBytes, c: Codec, d: Disk, k: nat)
    requires Admitted(fixed, d.entries) && k <= |ReconcileOps(c, d)|
    ensures Admitted(fixed, Run(d, ReconcileOps(c, d)[..k]).entries)
  {
    hide Admitted, ReconcileOps, Run, DropOps, UnmarkOps;
    if d.journal.Some? {
      ReconcileEffect(c, d, k);
      RemovalStaysAdmitted(fixed, d.entries, d.journal.value.id);
    } else {
      NoJournal(c, d);
    }
  }

  /** Reclaiming in listing order: the part done, the next entry, and the part to come. */
  lemma {:induction false} ReclaimSplit(es: seq<StoredEntry>, uuid: string -> string, i: nat)
    requires i <= |es|
    ensures ReclaimOps(es, uuid) == ReclaimOps(es[..i], uuid) + ReclaimOps(es[i..], uuid)
    ensures i == 0 ==> ReclaimOps(es[..i], uuid) == []
    ensures i < |es| ==> ReclaimOps(es[..i + 1], uuid) == ReclaimOps(es[..i], uuid) + FirstReclaim(es[i], uuid)
  {
    hide ReclaimOps;
    ReclaimConcat(es[..i], es[i..], uuid);
    assert es == es[..i] + es[i..];
    ReclaimEnds(if i < |es| then es[i..i + 1] else [], uuid);
    if i < |es| {
      ReclaimConcat(es[..i], es[i..i + 1], uuid);
      assert es[..i + 1] == es[..i] + es[i..i + 1];
    }
  }

  lemma ReclaimEnds(es: seq<StoredEntry>, uuid: string -> string)
    requires |es| <= 1
    ensures ReclaimOps([], uuid) == []
    ensures es != [] ==> ReclaimOps(es, uuid) == FirstReclaim(es[0], uuid)
  {
    if es != [] {
      assert es[1..] == [];
    }
  }

  lemma {:induction false} ReclaimConcat(a: seq<StoredEntry>, b: seq<StoredEntry>, uuid: string -> string)
    ensures ReclaimOps(a + b, uuid) == ReclaimOps(a, uuid) + ReclaimOps(b, uuid)
    decreases |a|
  {
    hide FirstReclaim;
    if a == [] {
      assert a + b == b;
    } else {
      assert (a + b)[1..] == a[1..] + b && (a + b)[0] == a[0];
      ReclaimConcat(a[1..], b, uuid);
      Assoc(FirstReclaim(a[0], uuid), ReclaimOps(a[1..], uuid), ReclaimOps(b, uuid));
    }
  }

  lemma UnmarkSplit(es: seq<StoredEntry>, marks: map<string, string>, i: nat)
    requires i <= |es|
    ensures UnmarkQueuedOps(es, marks) == UnmarkQueuedOps(es[..i], marks) + UnmarkQueuedOps(es[i..], marks)
    ensures i == 0 ==> UnmarkQueuedOps(es[..i], marks) == []
    ensures i < |es| ==> UnmarkQueuedOps(es[..i + 1], marks) == UnmarkQueuedOps(es[..i], marks) + FirstUnmark(es[i], marks)
  {
    hide UnmarkQueuedOps;
    UnmarkQueuedConcat(es[..i], es[i..], marks);
    assert es == es[..i] + es[i..];
    UnmarkQueuedEnds(if i < |es| then es[i..i + 1] else [], marks);
    if i < |es| {
      UnmarkQueuedConcat(es[..i], es[i..i + 1], marks);
      assert es[..i + 1] == es[..i] + es[i..i + 1];
    }
  }

  lemma UnmarkQueuedEnds(es: seq<StoredEntry>, marks: map<string, string>)
    requires |es| <= 1
    ensures UnmarkQueuedOps([], marks) == []
    ensures es != [] ==> UnmarkQueuedOps(es, marks) == FirstUnmark(es[0], marks)
  {
    if es != [] {
      assert es[1..] == [];
    }
  }

  lemma {:induction false} UnmarkQueuedConcat(a: seq<StoredEntry>, b: seq<StoredEntry>, marks: map<string, string>)
    ensures UnmarkQueuedOps(a + b, marks) == UnmarkQueuedOps(a, marks) + UnmarkQueuedOps(b, marks)
    decreases |a|
  {
    hide FirstUnmark;
    if a == [] {
      assert a + b == b;
    } else {
      assert (a + b)[1..] == a[1..] + b && (a + b)[0] == a[0];
      UnmarkQueuedConcat(a[1..], b, marks);
      Assoc(FirstUnmark(a[0], marks), UnmarkQueuedOps(a[1..], marks), UnmarkQueuedOps(b, marks));
    }
  }

  /** While reclaiming, an entry still to be reclaimed differs from its stored form in the reserved fields only. */
  lemma {:induction false} ReclaimNext(fixed: FixedBytes, d: Disk, es: seq<StoredEntry>, uuid: string -> string, done: seq<FileOp>,
                    e: StoredEntry)
    requires Admitted(fixed, d.entries) && StandIn(es, d.entries) && Uuids(uuid, d.entries) && done <= ReclaimOps(es, uuid)
    requires e in es
    ensures
      var m := Run(d, done).entries;
      e.id in m && SameFixed(Reclaimed(e, uuid), m[e.id]) && UuidFields(Reclaimed(e, uuid)) && Reclaimed(e, uuid).id == e.id
  {
    hide Admitted, Run, ReclaimOps, Refusal;
    ReclaimEffect(fixed, d, es, uuid, |done|);
    assert ReclaimOps(es, uuid)[..|done|] == done;
    AdmittedEntry(fixed, d.entries, e.id);
  }

  lemma BytesToAppend(c: Codec, log: seq<byte>, r: HistoryRecord)
    ensures AppendedBytes(c, log, r) ==
      if log != [] && log[|log| - 1] != NEWLINE then [NEWLINE] + (c.encode(r) + [NEWLINE]) else c.encode(r) + [NEWLINE]
  {
    var line := c.encode(r) + [NEWLINE];
    assert [] + line == line;
  }

  lemma NextByte(d: Disk, bytes: seq<byte>, i: nat)
    requires i < |bytes|
    ensures Run(d, AppendOps(bytes)[..i + 1]) == Apply(Run(d, AppendOps(bytes)[..i]), AppendByte(bytes[i]))
  {
    hide Run, AppendOps;
    RunAppend(d, bytes, i);
    RunAppend(d, bytes, i + 1);
    assert d.history + bytes[..i] + [bytes[i]] == d.history + bytes[..i + 1];
  }

  /** What reconciling decides about markers and entries does not depend on the log. */
  lemma OnlyHistoryChanges(c: Codec, d: Disk, j: Journal)
    ensures
      var a, u := RecordOps(c, d, j), UnmarkOps(d, j);
      && UnmarkOps(Run(d, a), j) == u
      && DropOps(Run(d, a + u), j) == DropOps(d, j)
  {
    hide RecordOps, Run;
    var a, u := RecordOps(c, d, j), UnmarkOps(d, j);
    RecordEffect(c, d, j, |a|);
    assert a[..|a|] == a;
    RunConcat(d, a, u);
    RunShort(Run(d, a), u, 0);
  }

  datatype Posting = NotJournaled | Interrupted | Posted

  /**
  Complete a post with what is left of the budget, then recover with one budget
  after another until a recovery finishes. However the budgets cut the work
  short, the post is recorded exactly once as soon as one of them suffices, and
  until the journal is written nothing has changed.
  */
  method CompleteAndRecover(s: QueueStore, entry: StoredEntry, tokenHash: string, now: U64, url: Option<string>,
                            attemptId: string, budgets: seq<nat>)
    returns (posting: Posting)
    requires (entry.claimToken.Some? || entry.id in s.entries) && s.journal == None
    requires Recordable(s.codec, s.history, SuccessRecord(entry, tokenHash, now, url, attemptId))
    modifies s
    ensures posting == NotJournaled <==> old(s.budget) == 0
    ensures posting == NotJournaled ==> s.View() == old(s.View())
    ensures
      var d := old(s.View());
      var j := CompletionJournal(d, entry, SuccessRecord(entry, tokenHash, now, url, attemptId));
      && (posting == Posting.Posted ==> Finished(s.codec, d.history, j, s.View()))
      && (posting == Posting.Interrupted ==> Recovery.Interrupted(s.codec, d.history, j, s.View()))
  {
    hide Run, ReconcileOps, Recordable, Recovery.Interrupted, Finished;
    ghost var d, fuel := s.View(), s.budget;
    ghost var r := SuccessRecord(entry, tokenHash, now, url, attemptId);
    ghost var j := CompletionJournal(d, entry, r);
    var stopped := s.budget == 0;
    var _, ok := s.CompleteClaim(entry, tokenHash, now, url, attemptId);
    if stopped {
      RunShort(d, [], 0);
      return NotJournaled;
    }
    CompletionCut(s.codec, d, entry, r, fuel);
    if ok {
      return Posting.Posted;
    }
    for i := 0 to |budgets|
      invariant Recovery.Interrupted(s.codec, d.history, j, s.View())
    {
      ghost var before := s.View();
      s.budget := budgets[i];
      ok := s.ReconcileCompletion();
      RecoveryAttempt(s.codec, d.history, j, before, Min(budgets[i], |ReconcileOps(s.codec, before)|));
      if ok {
        return Posting.Posted;
      }
    }
    return Posting.Interrupted;
  }

  lemma CompletionCut(c: Codec, d: Disk, e: StoredEntry, r: HistoryRecord, fuel: nat)
    requires d.journal == None && Recordable(c, d.history, r) && fuel > 0
    ensures
      var ops, j := CompleteOps(c, d, e, r), CompletionJournal(d, e, r);
      var d' := Run(d, ops[..Min(fuel, |ops|)]);
      if |ops| <= fuel then Finished(c, d.history, j, d') else Recovery.Interrupted(c, d.history, j, d')
  {
    hide Run, ReconcileOps, Recordable, Recovery.Interrupted, Finished, Records;
    var j := CompletionJournal(d, e, r);
    var journaled := d.(journal := Some(j));
    JournaledIsInterrupted(c, d, e, r);
    var rest := ReconcileOps(c, journaled);
    var k := Min(fuel, 1 + |rest|);
    RunPrefixRest(d, [SetJournal(j)], rest, k);
    RunShort(d, [SetJournal(j)], 1);
    RecoveryAttempt(c, d.history, j, journaled, k - 1);
  }
}
