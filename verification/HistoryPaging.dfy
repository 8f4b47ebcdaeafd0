/** Byte-bounded history replies, and the client loop that follows their cursors. */
module HistoryPaging {
  import opened Base
  import opened HistoryLog
  import opened ReverseScan
  import opened ForwardRead

  const MAX_RESPONSE_BYTES: nat := 2 * 1024 * 1024
  const HISTORY_READ_PAGE_SIZE: nat := 64

  datatype HistoryEntry = HistoryEntry(
    id: string, postedAt: U64, success: bool, error: Option<string>, tokenHash: string,
    owner: string, repo: string, prNumber: U64, body: string)

  function Entry(r: HistoryRecord): HistoryEntry {
    HistoryEntry(r.id, r.postedAt, r.success, r.error, r.tokenHash,
                 r.request.owner, r.request.repo, r.request.prNumber, r.request.body)
  }

  /** The record an entry was made from, given the parts that a listing leaves out. */
  function Rebuilt(e: HistoryEntry, attemptId: string, url: Option<string>, incarnation: string): HistoryRecord {
    HistoryRecord(attemptId, e.id, e.postedAt, e.success, e.error, e.tokenHash, url, incarnation,
                  CommentRequest(e.owner, e.repo, e.prNumber, e.body))
  }

  /** A listing leaves out the attempt's name, the URL and the lifetime, and nothing else. */
  lemma EntryRoundTrip(r: HistoryRecord)
    ensures Rebuilt(Entry(r), r.attemptId, r.commentUrl, r.incarnation) == r
  {
  }

  /** Serialized sizes: of one entry, and of a reply without entries around a cursor. */
  datatype WireSizes = WireSizes(entry: HistoryEntry -> nat, envelope: Option<HistoryPosition> -> nat)

  datatype Reply = HistoryReply(entries: seq<HistoryEntry>, nextCursor: Option<HistoryPosition>) | ErrorReply

  /** Serialized size of an array's elements with their separators. */
  function JoinedSize(wire: WireSizes, entries: seq<HistoryEntry>): nat {
    if entries == [] then 0 else
    var last := |entries| - 1;
    JoinedSize(wire, entries[..last]) + wire.entry(entries[last]) + (if last == 0 then 0 else 1)
  }

  function ReplySize(wire: WireSizes, entries: seq<HistoryEntry>, cursor: Option<HistoryPosition>): nat {
    wire.envelope(cursor) + JoinedSize(wire, entries)
  }

  function Entries(rs: seq<HistoryRecordAt>): (es: seq<HistoryEntry>)
    ensures |es| == |rs| && forall i :: 0 <= i < |rs| ==> es[i] == Entry(rs[i].record)
  {
    seq(|rs|, i requires 0 <= i < |rs| => Entry(rs[i].record))
  }

  /** The running size of the first `count` records of a page. */
  function EncodedSize(wire: WireSizes, rs: seq<HistoryRecordAt>, count: nat): nat
    requires count <= |rs|
  {
    if count == 0 then 0
    else EncodedSize(wire, rs, count - 1) + wire.entry(Entry(rs[count - 1].record)) + (if count == 1 then 0 else 1)
  }

  lemma {:induction false} EncodedIsJoined(wire: WireSizes, rs: seq<HistoryRecordAt>, count: nat)
    requires count <= |rs|
    ensures EncodedSize(wire, rs, count) == JoinedSize(wire, Entries(rs[..count]))
  {
    if count > 0 {
      EncodedIsJoined(wire, rs, count - 1);
      assert Entries(rs[..count])[..count - 1] == Entries(rs[..count - 1]);
    }
  }

  /** The cursor a reply carries if record `index` is its last one. */
  function CursorAfter(page: HistoryPage, index: nat): Option<HistoryPosition>
    requires index < |page.records|
  {
    if index + 1 < |page.records| || page.next.Some? then Some(page.records[index].positionAfter) else None
  }

  predicate ShowsFirst(wire: WireSizes, page: HistoryPage, count: nat)
    requires 0 < count <= |page.records|
  {
    wire.envelope(CursorAfter(page, count - 1)) + EncodedSize(wire, page.records, count) <= MAX_RESPONSE_BYTES
  }

  /**
  The reply shows the longest run of leading records that fits, one by one,
  and carries the cursor after the last of them; a first record that does not
  fit is an error.
  */
  method ResponseForHistory(wire: WireSizes, page: HistoryPage) returns (reply: Reply)
    ensures reply.ErrorReply? ==> page.records != [] && !ShowsFirst(wire, page, 1)
    ensures reply.HistoryReply? ==>
      var count := |reply.entries|;
      && count <= |page.records|
      && (count > 0 ==> ShowsFirst(wire, page, count))
      && (count < |page.records| ==> count > 0 && !ShowsFirst(wire, page, count + 1))
      && reply.entries == Entries(page.records[..count])
      && reply.nextCursor == if count == 0 then page.next else CursorAfter(page, count - 1)
  {
    var entries, encodedEntriesSize := [], 0;
    var nextCursor: Option<HistoryPosition> := None;
    var index: nat := 0;
    while index < |page.records|
      invariant index == |entries| <= |page.records|
      invariant entries == Entries(page.records[..index])
      invariant encodedEntriesSize == EncodedSize(wire, page.records, index)
      invariant nextCursor == if index == 0 then None else CursorAfter(page, index - 1)
      invariant index > 0 ==> ShowsFirst(wire, page, index)
    {
      var item := page.records[index];
      var entry := Entry(item.record);
      var moreInPage := index + 1 < |page.records|;
      var hasMore := moreInPage || page.next.Some?;
      var candidateCursor := if hasMore then Some(item.positionAfter) else None;
      var separator := if entries == [] then 0 else 1;
      if wire.envelope(candidateCursor) + encodedEntriesSize + wire.entry(entry) + separator > MAX_RESPONSE_BYTES {
        if entries == [] {
          return ErrorReply;
        }
        break;
      }
      encodedEntriesSize := encodedEntriesSize + wire.entry(entry) + separator;
      entries := entries + [entry];
      nextCursor := candidateCursor;
      index := index + 1;
    }
    if page.next.Some? && entries == [] {
      nextCursor := page.next;
    }
    reply := HistoryReply(entries, nextCursor);
  }

  /** A position in the first `end` bytes of a log. */
  predicate Inside(cursor: Option<HistoryPosition>, end: nat) {
    cursor.Some? ==> cursor.value.offset <= cursor.value.endOffset <= end
  }

  /** Every record alone in a reply fits, whatever cursor into the snapshot goes with it. */
  ghost predicate EachFits(wire: WireSizes, rs: seq<Located>, end: nat) {
    forall i, cursor :: 0 <= i < |rs| && Inside(cursor, end) ==>
      wire.envelope(cursor) + wire.entry(Entry(rs[i].record)) <= MAX_RESPONSE_BYTES
  }

  function Shown(rs: seq<Located>): (es: seq<HistoryEntry>)
    ensures |es| == |rs| && forall i :: 0 <= i < |rs| ==> es[i] == Entry(rs[i].record)
  {
    seq(|rs|, i requires 0 <= i < |rs| => Entry(rs[i].record))
  }

  /** Reading on from after a record finds exactly the records that follow it. */
  lemma {:induction false} RecordsAfter(parse: LineParser, log: seq<byte>, from: nat, rs: seq<Located>, n: nat)
    requires from <= |log| && rs == Records(parse, log, from)
    requires 0 < n <= |rs|
    ensures rs[n - 1].next <= |log| && Records(parse, log, rs[n - 1].next) == rs[n..]
    decreases |log| - from
  {
    var end := LineEnd(log, from);
    var here := LineRecord(parse, log[from..end], from);
    var rest := Records(parse, log, end);
    if |here| < n {
      RecordsAfter(parse, log, end, rest, n - |here|);
    }
  }

  /** One `hist` request served from the log as it is now. */
  method ServeHistory(c: Codec, wire: WireSizes, history: Option<seq<byte>>, buffered: nat -> nat,
                      limit: Option<nat>, cursor: Option<HistoryPosition>)
    returns (reply: Reply)
    ensures history.None? ==> reply == if cursor.None? then HistoryReply([], None) else ErrorReply
    ensures history.Some? && cursor.Some? && !ValidPosition(history.value, cursor.value) ==> reply == ErrorReply
    ensures history.Some? && (cursor.Some? ==> ValidPosition(history.value, cursor.value)) ==>
      var (from, end) := Span(Reverse(c), history.value, cursor, limit);
      && end <= |history.value|
      && Serves(wire, Window(Forward(c), history.value, from, end), end, reply)
    ensures reply.HistoryReply? && wire.envelope(None) <= MAX_RESPONSE_BYTES ==>
      ReplySize(wire, reply.entries, reply.nextCursor) <= MAX_RESPONSE_BYTES
  {
    var result := ReadPage(c, history, buffered, cursor, limit, HISTORY_READ_PAGE_SIZE);
    if result.PageErr? {
      return ErrorReply;
    }
    reply := ResponseForHistory(wire, result.page);
    if reply.HistoryReply? {
      EncodedIsJoined(wire, result.page.records, |reply.entries|);
    }
    if history.Some? {
      var (from, end) := Span(Reverse(c), history.value, cursor, limit);
      ServedPage(Forward(c), wire, history.value, from, end, result.page, reply);
    } else {
      assert JoinedSize(wire, []) == 0;
    }
  }

  /** A reply shows the first records ahead and says where the rest begin. */
  ghost predicate Serves(wire: WireSizes, rs: seq<Located>, end: nat, reply: Reply) {
    && (EachFits(wire, rs, end) ==> reply.HistoryReply?)
    && (reply.HistoryReply? ==>
      var count := |reply.entries|;
      && count <= |rs|
      && reply.entries == Shown(rs[..count])
      && match reply.nextCursor
         case None => count == |rs|
         case Some(p) => 0 < count && p == HistoryPosition(rs[count - 1].next, end) && p.offset < end)
  }

  lemma ServedPage(parse: LineParser, wire: WireSizes, file: seq<byte>, from: nat, end: nat, page: HistoryPage, reply: Reply)
    requires end <= |file|
    requires page == PageFrom(parse, file, from, end, HISTORY_READ_PAGE_SIZE)
    requires reply.ErrorReply? ==> page.records != [] && !ShowsFirst(wire, page, 1)
    requires reply.HistoryReply? ==>
      var count := |reply.entries|;
      && count <= |page.records|
      && (count < |page.records| ==> count > 0)
      && reply.entries == Entries(page.records[..count])
      && reply.nextCursor == if count == 0 then page.next else CursorAfter(page, count - 1)
    ensures Serves(wire, Window(parse, file, from, end), end, reply)
  {
    hide Records;
    var rs := Window(parse, file, from, end);
    assert forall i :: 0 <= i < |page.records| ==> page.records[i] == HistoryRecordAt(rs[i].record, HistoryPosition(rs[i].next, end));
    if reply.HistoryReply? {
      var count := |reply.entries|;
      assert reply.entries == Shown(rs[..count]);
      if count > 0 {
        LastOfWindow(parse, file, from, end, count);
      }
    } else {
      assert EncodedSize(wire, page.records, 1) == wire.entry(Entry(rs[0].record));
      LastOfWindow(parse, file, from, end, 1);
      assert Inside(CursorAfter(page, 0), end);
    }
  }

  /** Only the last record can end where the snapshot ends. */
  lemma LastOfWindow(parse: LineParser, file: seq<byte>, from: nat, end: nat, n: nat)
    requires end <= |file| && 0 < n <= |Window(parse, file, from, end)|
    ensures
      var rs := Window(parse, file, from, end);
      && from < rs[n - 1].next <= end
      && (n < |rs| ==> rs[n - 1].next < end)
      && (rs[n - 1].next < end ==> file[rs[n - 1].next - 1] == NEWLINE)
      && Window(parse, file, rs[n - 1].next, end) == rs[n..]
  {
    RecordsInside(parse, file[..end], from);
    RecordsAfter(parse, file[..end], from, Window(parse, file, from, end), n);
  }

  /** The log at each request: it only ever grows, and never disappears. */
  ghost predicate Grows(logs: nat -> Option<seq<byte>>) {
    forall i: nat, j: nat :: i <= j && logs(i).Some? ==> logs(j).Some? && logs(i).value <= logs(j).value
  }

  /** The client's result; a closed output pipe is success. */
  datatype ClientResult = Done | DaemonError | UnexpectedResponse | OutputError

  /** What `hist` prints: a line for each attempt, or one line that says there are none. */
  datatype Line = Attempted(entry: HistoryEntry) | NoneRecorded

  function Lines(es: seq<HistoryEntry>): (ls: seq<Line>)
    ensures |ls| == |es| && forall i :: 0 <= i < |es| ==> ls[i] == Attempted(es[i])
  {
    seq(|es|, i requires 0 <= i < |es| => Attempted(es[i]))
  }

  function Output(es: seq<HistoryEntry>): seq<Line> {
    if es == [] then [NoneRecorded] else Lines(es)
  }

  /** The other end of the output: open, closed by its reader after some lines, or failing after some. */
  datatype Writer = Open | Closes(after: nat) | Breaks(after: nat)

  predicate Takes(writer: Writer, lines: nat) {
    writer.Open? || lines <= writer.after
  }

  /** The lines that get through. */
  function Written(writer: Writer, lines: seq<Line>): seq<Line> {
    if Takes(writer, |lines|) then lines else lines[..writer.after]
  }

  /** How writing them ends: whether there is more to write, and with which result if not. */
  function AfterWriting(writer: Writer, lines: seq<Line>): Option<ClientResult> {
    if Takes(writer, |lines|) then None else if writer.Closes? then Some(Done) else Some(OutputError)
  }

  /** Write lines until the output refuses one. */
  method WriteLines(writer: Writer, written: seq<Line>, lines: seq<Line>) returns (end: Option<ClientResult>, now: seq<Line>)
    requires Takes(writer, |written|)
    ensures end == AfterWriting(writer, written + lines) && now == Written(writer, written + lines)
  {
    now := written;
    for i := 0 to |lines|
      invariant now == written + lines[..i] && Takes(writer, |now|)
    {
      if !Takes(writer, |now| + 1) {
        assert now == (written + lines)[..writer.after];
        return Some(if writer.Closes? then Done else OutputError), now;
      }
      assert lines[..i + 1] == lines[..i] + [lines[i]];
      now := now + [lines[i]];
    }
    assert lines[..|lines|] == lines;
    return None, now;
  }

  /**
  What `hist` has printed by its end: the listed records in order, or that there
  are none; all of it, unless the output was closed before, which is a success,
  or broke, which is an error, or the daemon's answers ended.
  */
  predicate Transcript(listed: seq<HistoryEntry>, writer: Writer, result: ClientResult, rendered: seq<Line>) {
    var all := if listed == [] then 1 else |listed|;
    && |rendered| <= all && (!writer.Open? ==> |rendered| <= writer.after)
    && (forall i :: 0 <= i < |rendered| ==> rendered[i] == if listed == [] then NoneRecorded else Attempted(listed[i]))
    && (result.Done? ==> |rendered| == all || (writer.Closes? && |rendered| == writer.after))
    && (result.OutputError? ==> writer.Breaks? && |rendered| == writer.after < all)
  }

  lemma PrintedAs(writer: Writer, es: seq<HistoryEntry>, result: ClientResult, rendered: seq<Line>)
    requires rendered <= Written(writer, Output(es))
    requires result.Done? || result.OutputError? ==>
      && rendered == Written(writer, Output(es))
      && result == match AfterWriting(writer, Output(es)) case None => Done case Some(r) => r
    ensures Transcript(es, writer, result, rendered)
  {
    assert forall i :: 0 <= i < |rendered| ==> rendered[i] == Output(es)[i];
  }

  /** What the first request selects: its snapshot's records from its starting offset. */
  function Selected(forward: LineParser, reverse: LineParser, history: Option<seq<byte>>, limit: Option<nat>): seq<Located> {
    match history
    case None => []
    case Some(file) => Window(forward, file, Span(reverse, file, None, limit).0, |file|)
  }

  /** Between two requests: the cursor points at the records not yet listed. */
  ghost predicate Reading(forward: LineParser, reverse: LineParser, first: Option<seq<byte>>, limit: Option<nat>,
                          done: nat, cursor: Option<HistoryPosition>) {
    var all := Selected(forward, reverse, first, limit);
    && done <= |all|
    && match cursor
       case None => done == 0
       case Some(p) =>
         && first.Some? && p.endOffset == |first.value| && p.offset < p.endOffset
         && ValidPosition(first.value, p)
         && Window(forward, first.value, p.offset, p.endOffset) == all[done..]
  }

  function Length(history: Option<seq<byte>>): nat {
    if history.Some? then |history.value| else 0
  }

  function ReadFrom(reverse: LineParser, file: seq<byte>, limit: Option<nat>, cursor: Option<HistoryPosition>): nat {
    if cursor.Some? then cursor.value.offset else Span(reverse, file, None, limit).0
  }

  lemma CursorAdvances(forward: LineParser, reverse: LineParser, wire: WireSizes, file: seq<byte>,
                       limit: Option<nat>, done: nat,
                       cursor: Option<HistoryPosition>, reply: Reply)
    requires Reading(forward, reverse, Some(file), limit, done, cursor)
    requires reply.HistoryReply? && reply.nextCursor.Some?
    requires Serves(wire, Selected(forward, reverse, Some(file), limit)[done..], |file|, reply)
    ensures ReadFrom(reverse, file, limit, cursor) < reply.nextCursor.value.offset
    ensures Reading(forward, reverse, Some(file), limit, done + |reply.entries|, reply.nextCursor)
  {
    var all := Selected(forward, reverse, Some(file), limit);
    assert all[0..] == all;
    LastOfWindow(forward, file, ReadFrom(reverse, file, limit, cursor), |file|, |reply.entries|);
    assert all[done..][|reply.entries|..] == all[done + |reply.entries|..];
  }

  /** One request of the loop, served from a log that has grown since the first request. */
  method NextReply(c: Codec, wire: WireSizes, ghost first: Option<seq<byte>>, ghost all: seq<Located>,
                   now: Option<seq<byte>>, buffered: nat -> nat,
                   limit: Option<nat>, cursor: Option<HistoryPosition>, ghost done: nat)
    returns (reply: Reply)
    requires all == Selected(Forward(c), Reverse(c), first, limit) && Reading(Forward(c), Reverse(c), first, limit, done, cursor)
    requires if cursor.None? then now == first else now.Some? && first.Some? && first.value <= now.value
    ensures EachFits(wire, all, Length(first)) ==> reply.HistoryReply?
    ensures reply.HistoryReply? ==> Serves(wire, all[done..], Length(first), reply)
  {
    reply := ServeHistory(c, wire, now, buffered, if cursor.None? then limit else None, cursor);
    if cursor.Some? {
      SameSnapshot(Forward(c), first.value, now.value, cursor.value);
    }
    assert all[0..] == all;
    assert forall i :: 0 <= i < |all[done..]| ==> all[done..][i] == all[done + i];
  }

  lemma Turn(forward: LineParser, reverse: LineParser, wire: WireSizes, first: Option<seq<byte>>, all: seq<Located>,
             limit: Option<nat>, done: nat,
             cursor: Option<HistoryPosition>, reply: Reply, rendered: seq<HistoryEntry>)
    requires all == Selected(forward, reverse, first, limit) && Reading(forward, reverse, first, limit, done, cursor)
    requires reply.HistoryReply?
    requires Serves(wire, all[done..], Length(first), reply)
    requires rendered == Shown(all)[..done]
    ensures done + |reply.entries| <= |all| && rendered + reply.entries == Shown(all)[..done + |reply.entries|]
    ensures reply.nextCursor.None? ==> done + |reply.entries| == |all|
    ensures reply.nextCursor.Some? ==>
      && Reading(forward, reverse, first, limit, done + |reply.entries|, reply.nextCursor)
      && (cursor.Some? ==> cursor.value.offset < reply.nextCursor.value.offset)
  {
    hide EachFits, Window, Records, Selected, Shown, ValidPosition;
    EntriesServed(wire, all, done, Length(first), reply);
    if reply.nextCursor.Some? {
      CursorAdvances(forward, reverse, wire, first.value, limit, done, cursor, reply);
    }
  }

  lemma EntriesServed(wire: WireSizes, all: seq<Located>, done: nat, end: nat, reply: Reply)
    requires done <= |all| && reply.HistoryReply? && Serves(wire, all[done..], end, reply)
    ensures done + |reply.entries| <= |all| && Shown(all)[..done] + reply.entries == Shown(all)[..done + |reply.entries|]
    ensures reply.nextCursor.None? ==> done + |reply.entries| == |all|
  {
    hide EachFits;
    var n := done + |reply.entries|;
    assert all[done..][..|reply.entries|] == all[done..n];
    assert Shown(all[done..n]) == Shown(all)[done..n];
    assert Shown(all)[..done] + Shown(all)[done..n] == Shown(all)[..n];
  }

  /** One turn of the loop: the reply's entries and its cursor. */
  method NextPage(c: Codec, wire: WireSizes, ghost first: Option<seq<byte>>, ghost all: seq<Located>,
                  now: Option<seq<byte>>, buffered: nat -> nat,
                  limit: Option<nat>, cursor: Option<HistoryPosition>, ghost done: nat)
    returns (ok: bool, cursor': Option<HistoryPosition>, page: seq<HistoryEntry>)
    requires all == Selected(Forward(c), Reverse(c), first, limit) && Reading(Forward(c), Reverse(c), first, limit, done, cursor)
    requires if cursor.None? then now == first else now.Some? && first.Some? && first.value <= now.value
    ensures EachFits(wire, all, Length(first)) ==> ok
    ensures done + |page| <= |all| && Shown(all)[..done] + page == Shown(all)[..done + |page|]
    ensures ok && cursor'.None? ==> done + |page| == |all|
    ensures ok && cursor'.Some? ==>
      && Reading(Forward(c), Reverse(c), first, limit, done + |page|, cursor')
      && (cursor.Some? ==> cursor.value.offset < cursor'.value.offset)
  {
    hide Serves, Selected, Window, Records, EachFits;
    var reply := NextReply(c, wire, first, all, now, buffered, limit, cursor, done);
    if reply.ErrorReply? {
      return false, None, [];
    }
    Turn(Forward(c), Reverse(c), wire, first, all, limit, done, cursor, reply, Shown(all)[..done]);
    return true, reply.nextCursor, reply.entries;
  }

  /** The first `done` entries of a listing have been printed. */
  ghost predicate Printed(writer: Writer, es: seq<HistoryEntry>, done: nat, rendered: seq<Line>) {
    done <= |es| && rendered == Lines(es[..done]) && Takes(writer, done)
  }

  /** Writing the first lines of a listing decides how the whole of it ends, unless all of them get through. */
  lemma WrittenPrefix(writer: Writer, es: seq<HistoryEntry>, n: nat)
    requires n <= |es|
    ensures Written(writer, Lines(es[..n])) <= Written(writer, Output(es))
    ensures !Takes(writer, n) ==> Written(writer, Lines(es[..n])) == Written(writer, Output(es))
    ensures !Takes(writer, n) ==> AfterWriting(writer, Lines(es[..n])) == AfterWriting(writer, Output(es))
  {
    if n > 0 {
      assert es[..n] + es[n..] == es;
    }
  }

  method PrintPage(writer: Writer, ghost es: seq<HistoryEntry>, ghost done: nat, rendered: seq<Line>, page: seq<HistoryEntry>)
    returns (end: Option<ClientResult>, now: seq<Line>)
    requires Printed(writer, es, done, rendered)
    requires done + |page| <= |es| && es[..done] + page == es[..done + |page|]
    ensures end.None? ==> Printed(writer, es, done + |page|, now)
    ensures end.Some? ==> now == Written(writer, Output(es)) && end == AfterWriting(writer, Output(es))
  {
    WrittenPrefix(writer, es, done + |page|);
    end, now := WriteLines(writer, rendered, Lines(page));
  }

  method Conclude(writer: Writer, ghost es: seq<HistoryEntry>, rendered: seq<Line>) returns (result: ClientResult, now: seq<Line>)
    requires Printed(writer, es, |es|, rendered)
    ensures now == Written(writer, Output(es))
    ensures result == match AfterWriting(writer, Output(es)) case None => Done case Some(r) => r
  {
    assert es[..|es|] == es;
    if rendered == [] {
      var end;
      end, now := WriteLines(writer, [], [NoneRecorded]);
      assert [] + [NoneRecorded] == [NoneRecorded];
      return if end.Some? then end.value else Done, now;
    }
    return Done, rendered;
  }

  /**
  Following cursors to the end prints every record of the first snapshot once
  and in order, however the log grows meanwhile, when each record fits a reply,
  up to where the output is closed or breaks; otherwise what is printed is a
  prefix of that. The cursor never stands still.
  */
  method RunHistoryPages(c: Codec, wire: WireSizes, logs: nat -> Option<seq<byte>>, buffered: nat -> nat,
                         limit: Option<nat>, writer: Writer)
    returns (result: ClientResult, rendered: seq<Line>)
    requires Grows(logs)
    ensures
      var full := Output(Shown(Selected(Forward(c), Reverse(c), logs(0), limit)));
      && rendered <= Written(writer, full)
      && (result.Done? || result.OutputError? ==>
        && rendered == Written(writer, full)
        && result == match AfterWriting(writer, full) case None => Done case Some(r) => r)
    ensures Transcript(Shown(Selected(Forward(c), Reverse(c), logs(0), limit)), writer, result, rendered)
    ensures EachFits(wire, Selected(Forward(c), Reverse(c), logs(0), limit), Length(logs(0))) ==> result != DaemonError
    ensures result != UnexpectedResponse
  {
    hide Selected, EachFits, Window, Shown, Written, AfterWriting, Output, Printed, ValidPosition, Transcript;
    rendered := [];
    ghost var first, done: nat := logs(0), 0;
    ghost var all := Selected(Forward(c), Reverse(c), first, limit);
    ghost var es := Shown(all);
    var cursor: Option<HistoryPosition> := None;
    var request, stuck: bool := 0, false;
    PrintedNothing(writer, es);
    while !stuck
      invariant !stuck && request >= 0 && (cursor.None? ==> request == 0)
      invariant Reading(Forward(c), Reverse(c), first, limit, done, cursor)
      invariant Printed(writer, es, done, rendered)
      decreases if cursor.Some? then cursor.value.endOffset - cursor.value.offset else 1 + Length(first)
    {
      var ok, next, page := NextPage(c, wire, first, all, logs(request), buffered, limit, cursor, done);
      if !ok {
        PrintedPrefix(writer, es, done, rendered);
        PrintedAs(writer, es, DaemonError, rendered);
        return DaemonError, rendered;
      }
      var end;
      end, rendered := PrintPage(writer, es, done, rendered, page);
      if end.Some? {
        WritingEnds(writer, Output(es));
        PrintedAs(writer, es, end.value, rendered);
        return end.value, rendered;
      }
      done := done + |page|;
      stuck := cursor.Some? && next == cursor;
      cursor := next;
      request := request + 1;
      if cursor.None? {
        break;
      }
    }
    if stuck {
      return UnexpectedResponse, rendered;
    }
    result, rendered := Conclude(writer, es, rendered);
    WritingEnds(writer, Output(es));
    PrintedAs(writer, es, result, rendered);
  }

  lemma PrintedNothing(writer: Writer, es: seq<HistoryEntry>)
    ensures Printed(writer, es, 0, [])
  {
  }

  lemma PrintedPrefix(writer: Writer, es: seq<HistoryEntry>, done: nat, rendered: seq<Line>)
    requires Printed(writer, es, done, rendered)
    ensures rendered <= Written(writer, Output(es))
  {
    WrittenPrefix(writer, es, done);
  }

  lemma WritingEnds(writer: Writer, lines: seq<Line>)
    ensures AfterWriting(writer, lines).Some? ==> AfterWriting(writer, lines).value in {Done, OutputError}
  {
  }

  /** A cursor reads the same snapshot from any later state of the log. */
  lemma SameSnapshot(parse: LineParser, first: seq<byte>, later: seq<byte>, cursor: HistoryPosition)
    requires first <= later && ValidPosition(first, cursor)
    ensures ValidPosition(later, cursor)
    ensures Window(parse, later, cursor.offset, cursor.endOffset) == Window(parse, first, cursor.offset, cursor.endOffset)
  {
    assert later[..cursor.endOffset] == first[..cursor.endOffset];
  }
}
