/** One streaming wait: it registers for changes, answers, and parks until something changes. */
module AwaitHandler {
  import opened Base
  import opened HistoryLog
  import opened ReverseScan
  import opened Disk
  import opened AwaitLookup
  import opened AwaitWorld
  import opened AwaitResolve

  const MAX_AWAIT_FRAME_BYTES: nat := 64 * 1024

  datatype AwaitEvent =
    | Waiting(etaSeconds: U64)
    | PostedAt(commentUrl: string)
    | Error(message: string)

  predicate IsTerminal(e: AwaitEvent) {
    !e.Waiting?
  }

  /** The JSON text of events. */
  datatype FrameCodec = FrameCodec(encode: AwaitEvent -> seq<byte>, decode: seq<byte> -> Option<AwaitEvent>)

  /**
  An event's text is one line that reads back, also with its newline. Numbers
  and the daemon's own messages are short; escaping makes a character at most
  six bytes.
  */
  ghost predicate LawfulFrames(wire: FrameCodec) {
    && (forall e :: NEWLINE !in wire.encode(e) && wire.decode(wire.encode(e) + [NEWLINE]) == Some(e))
    && (forall eta :: |wire.encode(Waiting(eta))| <= 64)
    && (forall message :: |wire.encode(Error(message))| <= 64 + 6 * |message|)
  }

  predicate Fits(wire: FrameCodec, e: AwaitEvent) {
    |wire.encode(e)| < MAX_AWAIT_FRAME_BYTES
  }

  datatype Wake = Changed | Heartbeat | ShuttingDown

  /**
  What the environment does in one turn of the loop: whether shutdown has begun,
  the passes of the lookup or the category of its failure, the estimate, whether
  the frame was written in time, and when and why the parked handler woke.
  */
  datatype Turn = Turn(
    stopping: bool,
    failure: Option<string>,
    attempts: seq<Attempt>,
    eta: U64,
    written: bool,
    parked: nat,
    wake: Wake,
    woken: nat)

  /** The handler parked over this stretch, with this version seen and this token held. */
  datatype Park = Park(seen: nat, from: nat, until: nat, cursor: AwaitCursor)

  /** The moments of a turn follow those of the turn before. */
  ghost predicate TurnsInOrder(w: World, turns: seq<Turn>, from: nat, until: nat)
    decreases |turns|
  {
    if turns == [] then from <= until else
    var t := turns[0];
    && from <= t.parked <= t.woken
    && InTurn(w, t.attempts, from, t.parked)
    && TurnsInOrder(w, turns[1..], t.woken, until)
  }

  predicate Queues(d: Disk, id: string, incarnation: string) {
    id in d.entries && d.entries[id].incarnation == incarnation
  }

  /** Over this stretch, no operation that does not advance the version removes this lifetime. */
  ghost predicate KeepsLife(w: World, id: string, incarnation: string, from: nat, until: nat) {
    forall t: nat :: from <= t <= until && w(t).lock.Unversioned? && Queues(w(t).lock.before, id, incarnation) ==>
      Queues(w(t).disk, id, incarnation)
  }

  /** Whenever the published version is the one this handler has seen, its last answer is still the answer. */
  ghost predicate NeverStale(c: Codec, w: World, id: string, park: Park) {
    forall t: nat :: park.from <= t <= park.until && w(t).lock.Free? && w(t).Version() == park.seen ==>
      Answers(c, w, t, id, Some(park.cursor), Pending(park.cursor))
  }

  /** Progress, then at most one terminal frame, and nothing after it. */
  predicate WellFormed(frames: seq<AwaitEvent>) {
    forall i :: 0 <= i < |frames| - 1 ==> !IsTerminal(frames[i])
  }

  lemma {:induction false} StillQueued(c: Codec, w: World, t: nat, u: nat, id: string, incarnation: string)
    requires Legal(c, w) && Quiet(w, t, u) && KeepsLife(w, id, incarnation, t, u) && Queues(w(t).disk, id, incarnation)
    ensures Queues(w(u).disk, id, incarnation)
    decreases u
  {
    hide Legal, Queues, KeepsLife;
    if t < u {
      assert StepAt(c, w, u - 1) by { LegalStep(c, w, u - 1); }
      QuietMoment(c, w, t, u - 1, u);
      StartedFrom(c, w, t, u - 1);
      var s := Since(w, u - 1);
      QuietMoment(c, w, t, s, u);
      assert KeepsLife(w, id, incarnation, t, s) by { Shorter(w, id, incarnation, t, s, t, u); }
      StillQueued(c, w, t, s, id, incarnation);
      Kept(w, id, incarnation, t, u - 1, u);
    }
  }

  lemma LegalStep(c: Codec, w: World, t: nat)
    requires Legal(c, w)
    ensures StepAt(c, w, t)
  {
  }

  lemma Shorter(w: World, id: string, incarnation: string, from: nat, until: nat, from': nat, until': nat)
    requires KeepsLife(w, id, incarnation, from', until') && from' <= from && until <= until'
    ensures KeepsLife(w, id, incarnation, from, until)
  {
  }

  lemma Kept(w: World, id: string, incarnation: string, from: nat, t: nat, until: nat)
    requires KeepsLife(w, id, incarnation, from, until) && from <= t <= until
    ensures w(t).lock.Unversioned? && Queues(w(t).lock.before, id, incarnation) ==> Queues(w(t).disk, id, incarnation)
  {
  }

  /**
  A pending answer given after the version was seen holds for as long as that
  version does, if no failing operation removes its lifetime.
  */
  lemma ParkedIsCurrent(c: Codec, w: World, id: string, cursor: Option<AwaitCursor>, bound: AwaitCursor,
                        seenAt: nat, answered: nat, from: nat, until: nat, last: nat)
    requires Legal(c, w) && KeepsLife(w, id, bound.incarnation, answered, until) && FewMutations(w, seenAt, last)
    requires seenAt <= answered <= from <= until <= last
    requires Answers(c, w, answered, id, cursor, Pending(bound))
    ensures NeverStale(c, w, id, Park(w(seenAt).Version(), from, until, bound))
  {
    hide Legal, KeepsLife, FewMutations;
    forall t: nat | from <= t <= until && w(t).lock.Free? && w(t).Version() == w(seenAt).Version()
      ensures Answers(c, w, t, id, Some(bound), Pending(bound))
    {
      SameVersion(c, w, seenAt, seenAt, t, last);
      Monotone(c, w, seenAt, answered);
      Monotone(c, w, answered, t);
      Shorter(w, id, bound.incarnation, answered, t, answered, until);
      StillQueued(c, w, answered, t, id, bound.incarnation);
    }
  }

  /** The source's messages are fixed labels and sentences of its own. */
  const MAX_MESSAGE_CHARS: nat := 128

  const SHUTTING_DOWN: string := "daemon is shutting down"
  const REMOVED: string := "comment was removed"
  const UNKNOWN_ID: string := "unknown comment identifier"
  const NO_URL: string := "posted comment has no recorded URL"
  const URL_TOO_LARGE: string := "posted comment URL exceeds the await frame limit"

  /** A frame this handler emits must fit the client's cap together with its newline. */
  method SendTerminal(wire: FrameCodec, message: string) returns (frame: AwaitEvent)
    requires LawfulFrames(wire) && |message| <= MAX_MESSAGE_CHARS
    ensures frame == Error(message) && Fits(wire, frame)
  {
    return Error(message);
  }

  /** The recorded URL, or an explicit error when its frame cannot fit. */
  method SendPosted(wire: FrameCodec, url: string) returns (frame: AwaitEvent)
    requires LawfulFrames(wire)
    ensures Fits(wire, frame) && IsTerminal(frame)
    ensures frame == if Fits(wire, PostedAt(url)) then PostedAt(url) else Error(URL_TOO_LARGE)
  {
    if Fits(wire, PostedAt(url)) {
      return PostedAt(url);
    }
    frame := SendTerminal(wire, URL_TOO_LARGE);
  }

  ghost predicate GivesPending(c: Codec, w: World, id: string, token: Option<AwaitCursor>, from: nat, until: nat,
                               bound: AwaitCursor) {
    exists t: nat :: from <= t <= until && Answers(c, w, t, id, token, Pending(bound))
  }

  ghost predicate GivesUrl(c: Codec, w: World, id: string, token: Option<AwaitCursor>, from: nat, until: nat, url: string) {
    exists t: nat, at :: from <= t <= until && Answers(c, w, t, id, token, Posted(Some(url), at))
  }

  ghost predicate GivesUnknown(c: Codec, w: World, id: string, token: Option<AwaitCursor>, from: nat, until: nat) {
    exists t: nat :: from <= t <= until && Answers(c, w, t, id, token, Unknown)
  }

  /** Some moment answers that the comment was posted without a URL. */
  ghost predicate GivesNoUrl(c: Codec, w: World, id: string, token: Option<AwaitCursor>, from: nat, until: nat) {
    exists t: nat, at :: from <= t <= until && Answers(c, w, t, id, token, Posted(None, at))
  }

  /** Some moment answers with a URL that does not fit a frame. */
  ghost predicate GivesLongUrl(c: Codec, wire: FrameCodec, w: World, id: string, token: Option<AwaitCursor>, from: nat, until: nat) {
    exists url :: !Fits(wire, PostedAt(url)) && GivesUrl(c, w, id, token, from, until, url)
  }

  /** What each frame a lookup leads to says about an answer of that time. There are no others. */
  ghost predicate Explains(c: Codec, wire: FrameCodec, w: World, id: string, token: Option<AwaitCursor>, from: nat, until: nat,
                           frame: AwaitEvent) {
    match frame
    case Waiting(_) => exists bound :: GivesPending(c, w, id, token, from, until, bound)
    case PostedAt(url) => GivesUrl(c, w, id, token, from, until, url)
    case Error(message) =>
      || (message == NO_URL && GivesNoUrl(c, w, id, token, from, until))
      || (message == URL_TOO_LARGE && GivesLongUrl(c, wire, w, id, token, from, until))
      || (message == REMOVED && token.Some? && GivesUnknown(c, w, id, token, from, until))
      || (message == UNKNOWN_ID && token.None? && GivesUnknown(c, w, id, token, from, until))
  }

  /** So a wait whose every answer is a URL that fits is given that URL. */
  lemma UrlIsGiven(c: Codec, wire: FrameCodec, w: World, id: string, token: Option<AwaitCursor>, from: nat, until: nat,
                   frame: AwaitEvent, url: string)
    requires Explains(c, wire, w, id, token, from, until, frame) && Fits(wire, PostedAt(url))
    requires forall t: nat :: from <= t <= until && w(t).lock.Free? ==>
      Lookup(c, w(t).disk, id, token).Posted? && Lookup(c, w(t).disk, id, token).commentUrl == Some(url)
    ensures frame == PostedAt(url)
  {
    hide Lookup, Fits;
  }

  /** A held token names a position that the log has. */
  ghost predicate Known(w: World, token: Option<AwaitCursor>, t: nat) {
    token.Some? ==> token.value.offset <= |w(t).disk.history|
  }

  lemma NoToken(w: World, t: nat)
    ensures Known(w, None, t)
  {
  }

  /** Resolve one answer; emit its frame, and keep waiting only on a pending one that was written. */
  method Respond(c: Codec, wire: FrameCodec, w: World, id: string, token: Option<AwaitCursor>, turn: Turn, from: nat)
    returns (frame: Option<AwaitEvent>, next: Option<AwaitCursor>)
    requires Lawful(c) && LawfulFrames(wire) && Legal(c, w)
    requires from <= turn.parked && InTurn(w, turn.attempts, from, turn.parked) && FewMutations(w, from, turn.parked)
    requires Known(w, token, from)
    requires turn.failure.Some? ==> |turn.failure.value| <= MAX_MESSAGE_CHARS
    ensures frame.Some? ==> Fits(wire, frame.value)
    ensures frame.None? ==> Overtaken(w, turn.attempts)
    ensures frame.Some? && next.None? ==> IsTerminal(frame.value) || !turn.written
    ensures next.Some? ==> frame == Some(Waiting(turn.eta)) && turn.written && GivesPending(c, w, id, token, from, turn.parked, next.value)
    ensures turn.failure.Some? ==> frame == Some(Error(turn.failure.value)) && next == None
    ensures turn.failure.None? && frame.Some? ==> Explains(c, wire, w, id, token, from, turn.parked, frame.value)
    ensures turn.failure.None? && frame.Some? && frame.value.Waiting? ==> frame.value == Waiting(turn.eta) && (turn.written ==> next.Some?)
  {
    hide Legal, Lawful, LawfulFrames, FewMutations, Answers, Fits;
    next := None;
    if turn.failure.Some? {
      var error := SendTerminal(wire, turn.failure.value);
      return Some(error), None;
    }
    var answer := ResolveAwaitStore(c, w, id, token, turn.attempts, from, turn.parked);
    match answer
    case None => frame := None;
    case Some(Pending(cursor)) =>
      assert GivesPending(c, w, id, token, from, turn.parked, cursor);
      WaitingFits(wire, turn.eta);
      frame := Some(Waiting(turn.eta));
      if turn.written {
        next := Some(cursor);
      }
    case Some(Posted(Some(url), at)) =>
      assert GivesUrl(c, w, id, token, from, turn.parked, url);
      assert !Fits(wire, PostedAt(url)) ==> GivesLongUrl(c, wire, w, id, token, from, turn.parked);
      var posted := SendPosted(wire, url);
      frame := Some(posted);
    case Some(Posted(None, at)) =>
      assert GivesNoUrl(c, w, id, token, from, turn.parked);
      var error := SendTerminal(wire, NO_URL);
      frame := Some(error);
    case Some(Unknown) =>
      assert GivesUnknown(c, w, id, token, from, turn.parked);
      var error := SendTerminal(wire, if token.Some? then REMOVED else UNKNOWN_ID);
      frame := Some(error);
  }

  lemma WaitingFits(wire: FrameCodec, eta: U64)
    requires LawfulFrames(wire)
    ensures Fits(wire, Waiting(eta))
  {
  }

  function Held(parks: seq<Park>): Option<AwaitCursor> {
    if parks == [] then None else Some(parks[0].cursor)
  }

  /** One token throughout, and no park is stale before a failing operation removes its lifetime. */
  ghost predicate Parks(c: Codec, w: World, id: string, subscribed: nat, parks: seq<Park>) {
    && (forall i :: 0 <= i < |parks| ==> parks[i].cursor == parks[0].cursor)
    && (forall i :: 0 <= i < |parks| ==> Current(c, w, id, subscribed, parks[i]))
  }

  ghost predicate Current(c: Codec, w: World, id: string, subscribed: nat, park: Park) {
    KeepsLife(w, id, park.cursor.incarnation, subscribed, park.until) ==> NeverStale(c, w, id, park)
  }

  /** How a wait stands: closed by a terminal frame, left by the client, without an answer yet, or parked. */
  datatype Standing = Closed | ClientGone | Resolving | StillWaiting

  ghost predicate Stands(w: World, turns: seq<Turn>, frames: seq<AwaitEvent>, parks: seq<Park>, standing: Standing) {
    && |parks| <= |turns|
    && match standing
       case Closed => frames != [] && IsTerminal(frames[|frames| - 1])
       case ClientGone => |parks| < |turns| && !turns[|parks|].written && |frames| == |parks| + 1
       case Resolving => |parks| < |turns| && Overtaken(w, turns[|parks|].attempts) && |frames| == |parks|
       case StillWaiting => |frames| == |parks| == |turns|
  }

  /** When a turn begins. */
  function Begins(subscribed: nat, turns: seq<Turn>, i: nat): nat
    requires i <= |turns|
  {
    if i == 0 then subscribed else turns[i - 1].woken
  }

  /** The turns that parked: none of them stopped or failed, each answered pending, and only the last may have ended in shutdown. */
  ghost predicate Parked(c: Codec, w: World, id: string, subscribed: nat, turns: seq<Turn>, parks: seq<Park>) {
    && |parks| <= |turns|
    && (forall i :: 0 <= i < |parks| ==>
      && !turns[i].stopping && turns[i].failure.None? && turns[i].written
      && (i + 1 < |parks| ==> !turns[i].wake.ShuttingDown?)
      && parks[i].from == turns[i].parked && parks[i].until == turns[i].woken
      && GivesPending(c, w, id, Held(parks[..i]), Begins(subscribed, turns, i), turns[i].parked, parks[i].cursor))
  }

  predicate ShutWhileParked(turns: seq<Turn>, parks: seq<Park>)
    requires |parks| <= |turns|
  {
    parks != [] && turns[|parks| - 1].wake.ShuttingDown?
  }

  /** The frame behind the parked turns, and why: shutdown, the turn's failure, or an answer of that turn. */
  ghost predicate Ended(c: Codec, wire: FrameCodec, w: World, id: string, subscribed: nat, turns: seq<Turn>, parks: seq<Park>,
                        frame: AwaitEvent)
    requires |parks| <= |turns|
  {
    var n := |parks|;
    if ShutWhileParked(turns, parks) then frame == Error(SHUTTING_DOWN)
    else
      && n < |turns|
      && if turns[n].stopping then frame == Error(SHUTTING_DOWN)
         else if turns[n].failure.Some? then frame == Error(turns[n].failure.value)
         else Explains(c, wire, w, id, Held(parks), Begins(subscribed, turns, n), turns[n].parked, frame)
  }

  /** Shutting down is reported only if the daemon is, or a failed lookup said so. */
  lemma ShutdownOnlyIf(c: Codec, wire: FrameCodec, w: World, id: string, subscribed: nat, turns: seq<Turn>, parks: seq<Park>)
    requires |parks| <= |turns| && Ended(c, wire, w, id, subscribed, turns, parks, Error(SHUTTING_DOWN))
    ensures
      var n := |parks|;
      || ShutWhileParked(turns, parks)
      || (n < |turns| && (turns[n].stopping || turns[n].failure == Some(SHUTTING_DOWN)))
  {
    hide GivesNoUrl, GivesLongUrl, GivesUnknown;
    assert |SHUTTING_DOWN| == 23 && |NO_URL| == 34 && |URL_TOO_LARGE| == 48 && |REMOVED| == 19 && |UNKNOWN_ID| == 26;
  }

  /**
  The handler's loop over the turns its environment grants. It emits progress
  frames and at most one terminal frame, all within the client's cap; it holds
  on to the lifetime its first answer named; its terminal frame is explained by
  shutdown, a failure or an answer of that turn about that lifetime; and while it is parked with the published
  version seen, its last answer is still what a lookup would give, unless an
  operation that failed has removed that lifetime.
  */
  method AwaitEntry(c: Codec, wire: FrameCodec, w: World, id: string, subscribed: nat, turns: seq<Turn>, last: nat)
    returns (frames: seq<AwaitEvent>, parks: seq<Park>, standing: Standing)
    requires Lawful(c) && LawfulFrames(wire) && Legal(c, w)
    requires subscribed <= last && TurnsInOrder(w, turns, subscribed, last) && FewMutations(w, subscribed, last)
    requires forall i :: 0 <= i < |turns| && turns[i].failure.Some? ==> |turns[i].failure.value| <= MAX_MESSAGE_CHARS
    ensures WellFormed(frames) && forall i :: 0 <= i < |frames| ==> Fits(wire, frames[i])
    ensures Stands(w, turns, frames, parks, standing)
    ensures |parks| <= |frames| && Parks(c, w, id, subscribed, parks)
    ensures forall i :: 0 <= i < |parks| ==> frames[i] == Waiting(turns[i].eta)
    ensures Parked(c, w, id, subscribed, turns, parks)
    ensures |frames| > |parks| ==> |frames| == |parks| + 1 && Ended(c, wire, w, id, subscribed, turns, parks, frames[|parks|])
    ensures |frames| == |parks| ==> !ShutWhileParked(turns, parks) && standing in {Resolving, StillWaiting}
    ensures |frames| == |parks| && |parks| < |turns| ==> !turns[|parks|].stopping && turns[|parks|].failure.None?
  {
    hide Legal, Lawful, LawfulFrames, Current, FewMutations, InTurn, Fits, TurnsInOrder;
    hide GivesPending, GivesUrl, GivesUnknown, Overtaken, Known, Explains, Parked, Parks;
    NoneParked(c, w, id, subscribed, turns);
    NoToken(w, subscribed);
    frames, parks, standing := [], [], StillWaiting;
    var seen, now := w(subscribed).Version(), subscribed;
    ghost var seenAt := subscribed;
    var token: Option<AwaitCursor> := None;
    for i := 0 to |turns|
      invariant subscribed <= seenAt <= now <= last && seen == w(seenAt).Version()
      invariant TurnsInOrder(w, turns[i..], now, last)
      invariant token == Held(parks) && Known(w, token, now)
      invariant now == Begins(subscribed, turns, i) && Parked(c, w, id, subscribed, turns, parks) && (i > 0 ==> !turns[i - 1].wake.ShuttingDown?)
      invariant |frames| == |parks| == i && Parks(c, w, id, subscribed, parks) && standing == StillWaiting
      invariant forall k :: 0 <= k < |frames| ==> frames[k] == Waiting(turns[k].eta) && Fits(wire, frames[k])
    {
      var turn := turns[i];
      assert turns[i..][0] == turn && turns[i..][1..] == turns[i + 1..];
      OrderBounds(w, turns[i..], now, last);
      if turn.stopping {
        var end := SendTerminal(wire, SHUTTING_DOWN);
        frames, standing := frames + [end], Closed;
        return;
      }
      Fewer(c, w, subscribed, now, turn.parked, last);
      var frame, next := Respond(c, wire, w, id, token, turn, now);
      if next.None? {
        if frame.Some? {
          frames, standing := frames + [frame.value], if IsTerminal(frame.value) then Closed else ClientGone;
        } else {
          standing := Resolving;
        }
        return;
      }
      frames := frames + [frame.value];
      StillCurrent(c, w, id, token, next.value, subscribed, seenAt, now, turn.parked, turn.woken, last, seen);
      Bound(c, w, id, token, now, turn.parked, turn.woken, next.value);
      token := next;
      var park := Park(seen, turn.parked, turn.woken, next.value);
      ParkedMore(c, w, id, subscribed, turns, parks, park);
      ParksMore(c, w, id, subscribed, parks, park);
      parks := parks + [park];
      match turn.wake {
        case ShuttingDown =>
          var end := SendTerminal(wire, SHUTTING_DOWN);
          frames, standing := frames + [end], Closed;
          return;
        case Changed =>
          seen, seenAt := w(turn.woken).Version(), turn.woken;
        case Heartbeat =>
      }
      now := turn.woken;
    }
  }

  lemma NoneParked(c: Codec, w: World, id: string, subscribed: nat, turns: seq<Turn>)
    ensures Parked(c, w, id, subscribed, turns, []) && Parks(c, w, id, subscribed, [])
  {
  }

  lemma ParksMore(c: Codec, w: World, id: string, subscribed: nat, parks: seq<Park>, park: Park)
    requires Parks(c, w, id, subscribed, parks) && Current(c, w, id, subscribed, park)
    requires parks != [] ==> park.cursor == parks[0].cursor
    ensures Parks(c, w, id, subscribed, parks + [park])
  {
    hide Current;
  }

  lemma ParkedMore(c: Codec, w: World, id: string, subscribed: nat, turns: seq<Turn>, parks: seq<Park>, park: Park)
    requires Parked(c, w, id, subscribed, turns, parks) && |parks| < |turns| && !ShutWhileParked(turns, parks)
    requires
      var turn := turns[|parks|];
      && !turn.stopping && turn.failure.None? && turn.written && park.from == turn.parked && park.until == turn.woken
      && GivesPending(c, w, id, Held(parks), Begins(subscribed, turns, |parks|), turn.parked, park.cursor)
    ensures Parked(c, w, id, subscribed, turns, parks + [park])
  {
    hide GivesPending;
    var more := parks + [park];
    assert more[..|parks|] == parks;
    assert forall i :: 0 <= i < |parks| ==> more[..i] == parks[..i];
  }

  lemma {:induction false} OrderBounds(w: World, turns: seq<Turn>, from: nat, until: nat)
    requires TurnsInOrder(w, turns, from, until)
    ensures from <= until
    ensures turns != [] ==>
      var t := turns[0];
      from <= t.parked <= t.woken <= until && InTurn(w, t.attempts, from, t.parked) && TurnsInOrder(w, turns[1..], t.woken, until)
    decreases |turns|
  {
    hide InTurn;
    if turns != [] {
      OrderBounds(w, turns[1..], turns[0].woken, until);
    }
  }

  lemma Fewer(c: Codec, w: World, from: nat, t: nat, u: nat, until: nat)
    requires Legal(c, w) && FewMutations(w, from, until) && from <= t <= u <= until
    ensures FewMutations(w, t, u)
  {
    hide Legal;
    Monotone(c, w, from, t);
    Monotone(c, w, u, until);
  }

  lemma StillCurrent(c: Codec, w: World, id: string, token: Option<AwaitCursor>, bound: AwaitCursor,
                     subscribed: nat, seenAt: nat, now: nat, parked: nat, woken: nat, last: nat, seen: nat)
    requires Legal(c, w) && FewMutations(w, subscribed, last) && seen == w(seenAt).Version()
    requires subscribed <= seenAt <= now <= parked <= woken <= last
    requires GivesPending(c, w, id, token, now, parked, bound)
    ensures Current(c, w, id, subscribed, Park(seen, parked, woken, bound))
  {
    hide Legal, KeepsLife, NeverStale, FewMutations, Answers;
    if KeepsLife(w, id, bound.incarnation, subscribed, woken) {
      var t: nat :| now <= t <= parked && Answers(c, w, t, id, token, Pending(bound));
      Fewer(c, w, subscribed, seenAt, last, last);
      Shorter(w, id, bound.incarnation, t, woken, subscribed, woken);
      ParkedIsCurrent(c, w, id, token, bound, seenAt, t, parked, woken, last);
    }
  }

  /** The token keeps the first answer's lifetime and a position the log already has. */
  lemma Bound(c: Codec, w: World, id: string, token: Option<AwaitCursor>, now: nat, parked: nat, woken: nat,
              bound: AwaitCursor)
    requires Legal(c, w) && now <= parked <= woken && Known(w, token, now)
    requires GivesPending(c, w, id, token, now, parked, bound)
    ensures token.Some? ==> bound == token.value
    ensures Known(w, Some(bound), woken)
  {
    hide Legal;
    var t: nat :| now <= t <= parked && Answers(c, w, t, id, token, Pending(bound));
    Monotone(c, w, now, woken);
    Monotone(c, w, t, woken);
  }
}
