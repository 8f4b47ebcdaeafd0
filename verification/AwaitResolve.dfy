/** The retry loop that resolves a wait without holding the mutex while it scans history. */
module AwaitResolve {
  import opened Base
  import opened HistoryLog
  import opened ReverseScan
  import opened AwaitLookup
  import opened AwaitWorld

  /**
  The moments of one pass of the loop: the first locked observation, the look
  for a deletion marker, the measuring of the log, the last read of its bytes,
  and the second locked observation.
  */
  datatype Attempt = Attempt(first: nat, marked: nat, measured: nat, read: nat, second: nat)

  ghost predicate InTurn(w: World, attempts: seq<Attempt>, from: nat, until: nat) {
    && (forall i :: 0 <= i < |attempts| ==>
      var a := attempts[i];
      && from <= a.first <= a.marked <= a.measured <= a.read <= a.second <= until
      && w(a.first).lock.Free? && w(a.second).lock.Free?)
    && (forall i, j :: 0 <= i < j < |attempts| ==> attempts[i].second <= attempts[j].first)
  }

  /** A locked lookup at this moment would give this answer. */
  ghost predicate Answers(c: Codec, w: World, t: nat, id: string, cursor: Option<AwaitCursor>, state: AwaitState) {
    w(t).lock.Free? && Lookup(c, w(t).disk, id, cursor) == state
  }

  ghost predicate FewMutations(w: World, from: nat, until: nat) {
    w(until).mutations < w(from).mutations + VERSIONS
  }

  /** In every pass a mutation advanced the version between the two observations. */
  ghost predicate Overtaken(w: World, attempts: seq<Attempt>) {
    forall i :: 0 <= i < |attempts| ==> w(attempts[i].first).Version() != w(attempts[i].second).Version()
  }

  lemma SameVersion(c: Codec, w: World, from: nat, t: nat, u: nat, until: nat)
    requires Legal(c, w) && FewMutations(w, from, until) && from <= t <= u <= until
    requires w(t).Version() == w(u).Version()
    ensures w(t).mutations == w(u).mutations
  {
    hide Legal;
    Monotone(c, w, from, t);
    Monotone(c, w, t, u);
    Monotone(c, w, u, until);
    var m, n := w(t).mutations, w(u).mutations;
    assert m == VERSIONS * (m / VERSIONS) + m % VERSIONS && n == VERSIONS * (n / VERSIONS) + n % VERSIONS;
  }

  /** The unlocked scan: the log may grow between its measuring and its reading. */
  method ScanAwaitHistory(c: Codec, w: World, id: string, cursor: Option<AwaitCursor>,
                          a: Attempt) returns (completed: AwaitState)
    requires Legal(c, w) && a.measured <= a.read
    ensures completed == Scanned(c, w(a.marked).disk, w(a.measured).disk.history, id, cursor)
  {
    hide Legal;
    if cursor.None? && id in w(a.marked).disk.tombstones {
      return Unknown;
    }
    Monotone(c, w, a.measured, a.read);
    var snapshot := w(a.read).disk.history[..|w(a.measured).disk.history|];
    assert snapshot == w(a.measured).disk.history;
    var record := LatestCompletion(c, snapshot, id, cursor);
    return Outcome(record);
  }

  /**
  Resolve a wait over the passes the scheduler grants; no answer if they do not
  suffice. Whatever mutations, failed mutations and failure-record appends run
  meanwhile, an answer is the one a locked lookup would give at a moment
  between the call and the return.
  */
  method ResolveAwaitStore(c: Codec, w: World, id: string, cursor: Option<AwaitCursor>, attempts: seq<Attempt>,
                           from: nat, until: nat)
    returns (answer: Option<AwaitState>)
    requires Lawful(c) && Legal(c, w) && InTurn(w, attempts, from, until)
    requires from <= until && FewMutations(w, from, until)
    requires cursor.Some? ==> cursor.value.offset <= |w(from).disk.history|
    ensures answer.Some? ==> exists t: nat :: from <= t <= until && Answers(c, w, t, id, cursor, answer.value)
    ensures answer.None? ==> Overtaken(w, attempts)
  {
    hide Legal, Lawful, Lookup, FewMutations, Scanned, Point;
    for i := 0 to |attempts|
      invariant Overtaken(w, attempts[..i])
    {
      var a := attempts[i];
      var pending := PendingLookup(w(a.first).disk, id, cursor);
      if pending.Some? {
        PendingAnswers(c, w, a.first, id, cursor);
        return pending;
      }
      var completed := ScanAwaitHistory(c, w, id, cursor, a);
      pending := PendingLookup(w(a.second).disk, id, cursor);
      if pending.Some? {
        PendingAnswers(c, w, a.second, id, cursor);
        return pending;
      }
      if w(a.second).Version() == w(a.first).Version() {
        SameVersion(c, w, from, a.first, a.second, until);
        Monotone(c, w, from, a.first);
        ScanIsLookup(c, w, a.first, a.marked, a.measured, a.second, id, cursor);
        assert Answers(c, w, Point(c, w, a.marked, a.measured, a.second, id, cursor), id, cursor, completed);
        return Some(completed);
      }
    }
    assert attempts[..|attempts|] == attempts;
    return None;
  }

  lemma PendingAnswers(c: Codec, w: World, t: nat, id: string, cursor: Option<AwaitCursor>)
    requires w(t).lock.Free? && PendingLookup(w(t).disk, id, cursor).Some?
    ensures Answers(c, w, t, id, cursor, PendingLookup(w(t).disk, id, cursor).value)
  {
  }
}
