/** The forward reader of the history log: capped lines, pages and cursors. */
module ForwardRead {
  import opened Base
  import opened HistoryLog
  import opened ReverseScan

  datatype HistoryPosition = HistoryPosition(offset: nat, endOffset: nat)

  datatype HistoryRecordAt = HistoryRecordAt(record: HistoryRecord, positionAfter: HistoryPosition)

  datatype HistoryPage = HistoryPage(records: seq<HistoryRecordAt>, next: Option<HistoryPosition>)

  datatype ReadError = PageSizeZero | MissingLog | InvalidCursor

  datatype PageResult = PageOk(page: HistoryPage) | PageErr(error: ReadError)

  /**
  Read one line of a snapshot through a buffered reader. `buffered(o)` says how
  much the reader holds at offset `o`; the outcome does not depend on it.
  */
  method ReadSnapshotLine(file: seq<byte>, buffered: nat -> nat, offset: nat, endOffset: nat)
    returns (oversized: bool, line: seq<byte>, currentOffset: nat)
    requires offset < endOffset <= |file|
    ensures currentOffset == LineEnd(file[..endOffset], offset)
    ensures oversized <==> currentOffset - offset > MAX_HISTORY_LINE_BYTES
    ensures !oversized ==> line == file[offset..currentOffset]
  {
    line, oversized, currentOffset := [], false, offset;
    while currentOffset < endOffset
      invariant offset <= currentOffset <= endOffset
      invariant forall k :: offset <= k < currentOffset ==> file[k] != NEWLINE
      invariant oversized <==> currentOffset - offset > MAX_HISTORY_LINE_BYTES
      invariant !oversized ==> line == file[offset..currentOffset]
    {
      var available := Min(Max(1, buffered(currentOffset)), |file| - currentOffset);
      var visible := Min(available, endOffset - currentOffset);
      var lineEnd := FirstNewline(file, currentOffset, currentOffset + visible);
      var lineLen := if lineEnd.Some? then lineEnd.value + 1 - currentOffset else visible;
      if !oversized && |line| + lineLen <= MAX_HISTORY_LINE_BYTES {
        line := line + file[currentOffset..currentOffset + lineLen];
      } else {
        oversized := true;
      }
      currentOffset := currentOffset + lineLen;
      if lineEnd.Some? {
        break;
      }
    }
    LineEndUnique(file[..endOffset], offset, currentOffset);
  }

  /** `iter().position(|byte| *byte == b'\n')` within `[from, to)`, as an absolute offset. */
  function FirstNewline(file: seq<byte>, from: nat, end: nat): (index: Option<nat>)
    requires from <= end <= |file|
    ensures index.Some? ==> from <= index.value < end && file[index.value] == NEWLINE
    ensures forall k :: from <= k < (if index.Some? then index.value else end) ==> file[k] != NEWLINE
    decreases end - from
  {
    if from == end then None
    else if file[from] == NEWLINE then Some(from)
    else FirstNewline(file, from + 1, end)
  }

  /** A parser that refuses every line above the cap, as the forward reader does. */
  ghost predicate Capped(parse: LineParser) {
    parse([]) == None && forall raw :: |raw| > MAX_HISTORY_LINE_BYTES ==> parse(raw) == None
  }

  lemma ForwardCapped(c: Codec)
    ensures Capped(Forward(c))
  {
    assert AllWhitespace([]);
  }

  method ReadRecord(parse: LineParser, file: seq<byte>, buffered: nat -> nat, offset: nat, endOffset: nat)
    returns (record: Option<HistoryRecordAt>, currentOffset: nat)
    requires Capped(parse)
    requires offset < endOffset <= |file|
    ensures currentOffset == LineEnd(file[..endOffset], offset)
    ensures record == At(parse(file[offset..currentOffset]), HistoryPosition(currentOffset, endOffset))
  {
    var oversized, line;
    oversized, line, currentOffset := ReadSnapshotLine(file, buffered, offset, endOffset);
    if oversized {
      return None, currentOffset;
    }
    record := At(parse(line), HistoryPosition(currentOffset, endOffset));
  }

  function At(r: Option<HistoryRecord>, position: HistoryPosition): Option<HistoryRecordAt> {
    match r case None => None case Some(record) => Some(HistoryRecordAt(record, position))
  }

  /** Located records as the page carries them. */
  function Positioned(rs: seq<Located>, end: nat): (at: seq<HistoryRecordAt>)
    ensures |at| == |rs| && forall i :: 0 <= i < |rs| ==> at[i] == HistoryRecordAt(rs[i].record, HistoryPosition(rs[i].next, end))
  {
    seq(|rs|, i requires 0 <= i < |rs| => HistoryRecordAt(rs[i].record, HistoryPosition(rs[i].next, end)))
  }

  lemma SliceOfPrefix(file: seq<byte>, end: nat, a: nat, b: nat)
    requires a <= b <= end <= |file|
    ensures file[..end][a..b] == file[a..b]
  {
  }

  /** The page a reader of `file[..end]` gets from `from`: the next records, then where to go on. */
  function PageFrom(parse: LineParser, file: seq<byte>, from: nat, end: nat, pageSize: nat): HistoryPage
    requires end <= |file| && pageSize > 0
  {
    var rs := Window(parse, file, from, end);
    if |rs| < pageSize then HistoryPage(Positioned(rs, end), None) else
    var shown := rs[..pageSize];
    HistoryPage(Positioned(shown, end),
                if shown[pageSize - 1].next < end then Some(HistoryPosition(shown[pageSize - 1].next, end)) else None)
  }

  method ReadRecords(parse: LineParser, file: seq<byte>, buffered: nat -> nat, offset: nat, endOffset: nat, pageSize: nat)
    returns (records: seq<HistoryRecordAt>, currentOffset: nat)
    requires Capped(parse)
    requires offset <= endOffset <= |file| && pageSize > 0
    ensures
      var rs := Window(parse, file, offset, endOffset);
      && records == Positioned(rs[..Min(|rs|, pageSize)], endOffset)
      && currentOffset == if |rs| < pageSize then endOffset else rs[pageSize - 1].next
  {
    hide LineEnd;
    currentOffset, records := offset, [];
    ghost var log := file[..endOffset];
    ghost var seen: seq<Located> := [];
    while currentOffset < endOffset && |records| < pageSize
      invariant offset <= currentOffset <= endOffset
      invariant |records| == |seen| <= pageSize
      invariant records == Positioned(seen, endOffset)
      invariant Records(parse, log, offset) == seen + Records(parse, log, currentOffset)
      invariant |seen| == pageSize ==> currentOffset == seen[pageSize - 1].next
    {
      ghost var start := currentOffset;
      RecordsStep(parse, log, offset, start, seen);
      var record;
      record, currentOffset := ReadRecord(parse, file, buffered, currentOffset, endOffset);
      SliceOfPrefix(file, endOffset, start, currentOffset);
      seen := seen + LineRecord(parse, log[start..currentOffset], start);
      if record.Some? {
        records := records + [record.value];
      }
    }
    ghost var ahead := Records(parse, log, currentOffset);
    assert currentOffset == endOffset ==> ahead == [];
    assert (seen + ahead)[..|seen|] == seen;
  }

  /** A cursor is honoured when it is inside the log and follows a newline. */
  predicate ValidPosition(file: seq<byte>, position: HistoryPosition) {
    && position.offset <= position.endOffset <= |file|
    && (position.offset == 0 || file[position.offset - 1] == NEWLINE)
  }

  /** Where a request starts reading and the snapshot end it reads to. */
  function Span(reverse: LineParser, file: seq<byte>, position: Option<HistoryPosition>,
                recentLimit: Option<nat>): (nat, nat) {
    match position
    case Some(p) => (p.offset, p.endOffset)
    case None =>
      match recentLimit
      case None => (0, |file|)
      case Some(0) => (|file|, |file|)
      case Some(limit) => (RecentOffset(Window(reverse, file, 0, |file|), |file|, limit), |file|)
  }

  method ReadPage(c: Codec, history: Option<seq<byte>>, buffered: nat -> nat,
                  position: Option<HistoryPosition>, recentLimit: Option<nat>, pageSize: nat)
    returns (result: PageResult)
    ensures pageSize == 0 ==> result == PageErr(PageSizeZero)
    ensures pageSize > 0 && history.None? ==>
      result == if position.None? then PageOk(HistoryPage([], None)) else PageErr(MissingLog)
    ensures pageSize > 0 && history.Some? ==>
      var file := history.value;
      if position.Some? && !ValidPosition(file, position.value) then result == PageErr(InvalidCursor)
      else
        var (from, end) := Span(Reverse(c), file, position, recentLimit);
        end <= |file| && result == PageOk(PageFrom(Forward(c), file, from, end, pageSize))
  {
    if pageSize == 0 {
      return PageErr(PageSizeZero);
    }
    if history.None? {
      return if position.None? then PageOk(HistoryPage([], None)) else PageErr(MissingLog);
    }
    var file := history.value;
    var offset, endOffset: nat;
    if position.Some? {
      offset, endOffset := position.value.offset, position.value.endOffset;
      if !ValidPosition(file, position.value) {
        return PageErr(InvalidCursor);
      }
    } else {
      endOffset := |file|;
      match recentLimit {
        case None => offset := 0;
        case Some(limit) =>
          if limit == 0 {
            offset := |file|;
          } else {
            offset := RecentStart(c, file, |file|, limit);
            RecentInside(Reverse(c), file, limit);
          }
      }
    }
    if offset >= endOffset {
      return PageOk(HistoryPage([], None));
    }
    ForwardCapped(c);
    var records, currentOffset := ReadRecords(Forward(c), file, buffered, offset, endOffset, pageSize);
    var next := if currentOffset < endOffset then Some(HistoryPosition(currentOffset, endOffset)) else None;
    ghost var rs := Window(Forward(c), file, offset, endOffset);
    assert rs[..|rs|] == rs;
    result := PageOk(HistoryPage(records, next));
  }

  lemma {:induction false} RecordsInside(parse: LineParser, log: seq<byte>, from: nat)
    requires from <= |log|
    ensures forall i :: 0 <= i < |Records(parse, log, from)| ==>
      var r := Records(parse, log, from)[i];
      from <= r.start < r.next <= |log| && IsBoundary(log, from, r.start)
      && (r.next == |log| || IsBoundary(log, from, r.next))
    decreases |log| - from
  {
    if from < |log| {
      LineEndIsLine(log, from);
      RecordsInside(parse, log, LineEnd(log, from));
    }
  }

  /** Whether every reader that stops at the cursor and resumes there reads the snapshot as if it had not stopped. */
  ghost predicate Resumes(file: seq<byte>, p: HistoryPosition)
    requires p.offset <= p.endOffset <= |file|
  {
    forall parse: LineParser ::
      Window(parse, file, 0, p.endOffset) == Window(parse, file, 0, p.offset) + Window(parse, file, p.offset, p.endOffset)
  }

  /** A cursor with something behind it is honoured exactly if it lies inside the log and reading resumes there. */
  lemma {:induction false} HonouredIff(file: seq<byte>, p: HistoryPosition)
    requires p.offset < p.endOffset
    ensures ValidPosition(file, p) <==> p.endOffset <= |file| && Resumes(file, p)
  {
    if p.endOffset <= |file| {
      var log := file[..p.endOffset];
      assert log[..p.offset] == file[..p.offset];
      if ValidPosition(file, p) {
        forall parse: LineParser
          ensures Window(parse, file, 0, p.endOffset) == Window(parse, file, 0, p.offset) + Window(parse, file, p.offset, p.endOffset)
        {
          RecordsSplit(parse, log, 0, p.offset);
        }
      }
      if Resumes(file, p) {
        var any := HistoryRecord("", "", 0, true, None, "", None, "", CommentRequest("", "", 0, ""));
        var every: LineParser := raw => Some(any);
        var ahead := Window(every, file, p.offset, p.endOffset);
        assert ahead[0].start == p.offset;
        assert ahead[0] in Window(every, file, 0, p.endOffset);
        RecordsInside(every, log, 0);
      }
    }
  }

  lemma RecentInside(reverse: LineParser, file: seq<byte>, limit: nat)
    requires limit > 0
    ensures RecentOffset(Window(reverse, file, 0, |file|), |file|, limit) <= |file|
  {
    assert file[..|file|] == file;
    RecordsInside(reverse, file, 0);
  }

  /**
  Forward membership of an attempt identifier from `searchFrom` on: the
  idempotence test of completion recovery.
  */
  method ContainsAttempt(parse: LineParser, file: seq<byte>, buffered: nat -> nat, attemptId: string, searchFrom: nat)
    returns (found: bool)
    requires Capped(parse)
    ensures found <==> HasAttempt(Records(parse, file, Min(searchFrom, |file|)), attemptId)
  {
    hide LineEnd, Forward;
    var currentOffset: nat := Min(searchFrom, |file|);
    assert file[..|file|] == file;
    while currentOffset < |file|
      invariant currentOffset <= |file|
      invariant HasAttempt(Records(parse, file, Min(searchFrom, |file|)), attemptId)
            <==> HasAttempt(Records(parse, file, currentOffset), attemptId)
    {
      ghost var start := currentOffset;
      var oversized, line;
      oversized, line, currentOffset := ReadSnapshotLine(file, buffered, currentOffset, |file|);
      HasAttemptSplit(LineRecord(parse, file[start..currentOffset], start), Records(parse, file, currentOffset), attemptId);
      if oversized {
        continue;
      }
      var record := parse(line);
      if record.Some? && record.value.attemptId == attemptId {
        assert LineRecord(parse, file[start..currentOffset], start)[0].record == record.value;
        return true;
      }
    }
    return false;
  }

  predicate HasAttempt(rs: seq<Located>, attemptId: string) {
    exists i :: 0 <= i < |rs| && rs[i].record.attemptId == attemptId
  }

  lemma HasAttemptSplit(a: seq<Located>, b: seq<Located>, attemptId: string)
    ensures HasAttempt(a + b, attemptId) <==> HasAttempt(a, attemptId) || HasAttempt(b, attemptId)
  {
    if HasAttempt(a, attemptId) {
      var i :| 0 <= i < |a| && a[i].record.attemptId == attemptId;
      assert (a + b)[i].record.attemptId == attemptId;
    }
    if HasAttempt(b, attemptId) {
      var i :| 0 <= i < |b| && b[i].record.attemptId == attemptId;
      assert (a + b)[|a| + i].record.attemptId == attemptId;
    }
  }
}
