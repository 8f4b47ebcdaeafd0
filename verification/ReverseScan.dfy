/** The chunked reverse reader of the history log, and its two users. */
module ReverseScan {
  import opened Base
  import opened HistoryLog

  const REVERSE_CHUNK_BYTES: nat := 16 * 1024

  /** The records a reader of the snapshot `file[..end]` may see from offset `from`. */
  function Window(parse: LineParser, file: seq<byte>, from: nat, end: nat): seq<Located>
    requires end <= |file|
  {
    if from <= end then Records(parse, file[..end], from) else []
  }

  /** Offer the records newest first to a stateful acceptor until it takes one. */
  function FoldBack<S>(rs: seq<Located>, state: S, accept: (S, nat, HistoryRecord) -> (S, bool))
    : (Option<HistoryRecord>, S)
  {
    if rs == [] then (None, state) else
    var last := rs[|rs| - 1];
    var (next, taken) := accept(state, last.start, last.record);
    if taken then (Some(last.record), next) else FoldBack(rs[..|rs| - 1], next, accept)
  }

  function Reversed(bytes: seq<byte>): (r: seq<byte>)
    ensures |r| == |bytes|
  {
    if bytes == [] then [] else Reversed(bytes[1..]) + [bytes[0]]
  }

  lemma {:induction false} ReversedPush(bytes: seq<byte>, b: byte)
    ensures Reversed(bytes + [b]) == [b] + Reversed(bytes)
  {
    if bytes != [] {
      assert (bytes + [b])[1..] == bytes[1..] + [b];
      ReversedPush(bytes[1..], b);
    }
  }

  /** The line being read backwards: where it starts so far, its bytes reversed, and whether it is over the cap. */
  datatype PartialLine = PartialLine(start: Option<nat>, reversed: seq<byte>, oversized: bool)

  const EMPTY_LINE := PartialLine(None, [], false)

  function PushByte(line: PartialLine, b: byte, offset: nat): PartialLine {
    if line.oversized then line.(start := Some(offset))
    else if |line.reversed| == MAX_HISTORY_LINE_BYTES then PartialLine(Some(offset), [], true)
    else PartialLine(Some(offset), line.reversed + [b], false)
  }

  function FinishLine(c: Codec, line: PartialLine): Option<HistoryRecord> {
    if line.start == None || line.oversized then None else
    var bytes := Reversed(line.reversed);
    if AllWhitespace(bytes) then None else c.decode(bytes)
  }

  /** What the scanner holds after reading `file[position..end]` backwards. */
  function Held(file: seq<byte>, position: nat, end: nat): PartialLine
    requires position <= end <= |file|
    decreases end - position
  {
    if position == end then EMPTY_LINE
    else PushByte(Held(file, position + 1, end), file[position], position)
  }

  lemma {:induction false} HeldBytes(file: seq<byte>, position: nat, end: nat)
    requires position <= end <= |file|
    ensures
      var line := Held(file, position, end);
      && (line.start == None <==> position == end)
      && (line.oversized <==> end - position > MAX_HISTORY_LINE_BYTES)
      && (!line.oversized ==> Reversed(line.reversed) == file[position..end])
    decreases end - position
  {
    if position < end {
      assert file[position..end] == [file[position]] + file[position + 1..end];
      HeldBytes(file, position + 1, end);
      ReversedPush(Held(file, position + 1, end).reversed, file[position]);
    }
  }

  /** Finishing a whole held line decodes it as the simple reading does. */
  lemma HeldFinish(c: Codec, file: seq<byte>, position: nat, lineEnd: nat)
    requires position <= lineEnd <= |file|
    ensures FinishLine(c, Held(file, position, ContentEnd(file, position, lineEnd)))
         == Reverse(c)(file[position..lineEnd])
  {
    var end := ContentEnd(file, position, lineEnd);
    HeldBytes(file, position, end);
    assert Content(file[position..lineEnd]) == file[position..end];
  }

  /** Where the content of the line `[position, lineEnd)` ends. */
  function ContentEnd(file: seq<byte>, position: nat, lineEnd: nat): (end: nat)
    requires position <= lineEnd <= |file|
    ensures position <= end <= lineEnd
  {
    if position < lineEnd && file[lineEnd - 1] == NEWLINE then lineEnd - 1 else lineEnd
  }

  /** The scan one byte at a time: what is left to do at `position`, holding `line`. */
  function ScanBack<S>(finish: PartialLine -> Option<HistoryRecord>, file: seq<byte>, from: nat, position: nat,
                       line: PartialLine,
                       state: S, accept: (S, nat, HistoryRecord) -> (S, bool)): (Option<HistoryRecord>, S)
    requires from <= position <= |file|
    decreases position
  {
    if position > from && file[position - 1] != NEWLINE then
      ScanBack(finish, file, from, position - 1, PushByte(line, file[position - 1], position - 1), state, accept)
    else
      match finish(line)
      case None =>
        if position == from then (None, state)
        else ScanBack(finish, file, from, position - 1, EMPTY_LINE, state, accept)
      case Some(record) =>
        var (next, taken) := accept(state, position, record);
        if taken then (Some(record), next)
        else if position == from then (None, next)
        else ScanBack(finish, file, from, position - 1, EMPTY_LINE, next, accept)
  }

  lemma FoldBackPush<S>(rs: seq<Located>, last: Located, state: S, accept: (S, nat, HistoryRecord) -> (S, bool))
    ensures
      var (next, taken) := accept(state, last.start, last.record);
      FoldBack(rs + [last], state, accept)
      == if taken then (Some(last.record), next) else FoldBack(rs, next, accept)
  {
    assert (rs + [last])[..|rs|] == rs;
  }

  /** A line either adds its record as the newest one or adds nothing. */
  lemma TodoStep(parse: LineParser, file: seq<byte>, from: nat, start: nat, lineEnd: nat)
    requires parse([]) == None
    requires from <= start <= lineEnd <= |file| && (start == from || file[start - 1] == NEWLINE)
    requires forall k :: start <= k < lineEnd - 1 ==> file[k] != NEWLINE
    ensures Records(parse, file[..lineEnd], from)
         == Records(parse, file[..start], from) + LineRecord(parse, file[start..lineEnd], start)
  {
    var log := file[..lineEnd];
    RecordsLast(parse, log, from, start);
    assert log[start..] == file[start..lineEnd];
    assert log[..start] == file[..start];
  }

  /** The fold over the lines up to `lineEnd` first offers the last of them. */
  lemma FoldStep<S>(parse: LineParser, file: seq<byte>, from: nat, start: nat, lineEnd: nat,
                    state: S, accept: (S, nat, HistoryRecord) -> (S, bool))
    requires parse([]) == None
    requires from <= start <= lineEnd <= |file| && (start == from || file[start - 1] == NEWLINE)
    requires forall k :: start <= k < lineEnd - 1 ==> file[k] != NEWLINE
    ensures
      var whole := FoldBack(Records(parse, file[..lineEnd], from), state, accept);
      var rest := Records(parse, file[..start], from);
      match parse(file[start..lineEnd])
      case None => whole == FoldBack(rest, state, accept)
      case Some(r) =>
        var (next, taken) := accept(state, start, r);
        whole == if taken then (Some(r), next) else FoldBack(rest, next, accept)
  {
    TodoStep(parse, file, from, start, lineEnd);
    var rest := Records(parse, file[..start], from);
    match parse(file[start..lineEnd])
    case None =>
      assert rest + [] == rest;
    case Some(r) =>
      FoldBackPush(rest, Located(start, lineEnd, r), state, accept);
  }

  /** `finish` decodes every held line as the simple reading does. */
  ghost predicate Finishes(parse: LineParser, file: seq<byte>, finish: PartialLine -> Option<HistoryRecord>) {
    forall start: nat, lineEnd: nat | start <= lineEnd <= |file| ::
      finish(Held(file, start, ContentEnd(file, start, lineEnd))) == parse(file[start..lineEnd])
  }

  lemma ScanBackPush<S>(finish: PartialLine -> Option<HistoryRecord>, file: seq<byte>, from: nat, position: nat,
                        lineEnd: nat,
                        state: S, accept: (S, nat, HistoryRecord) -> (S, bool))
    requires from < position <= lineEnd <= |file| && file[position - 1] != NEWLINE
    ensures ScanBack(finish, file, from, position, Held(file, position, ContentEnd(file, position, lineEnd)), state, accept)
         == ScanBack(finish, file, from, position - 1, Held(file, position - 1, ContentEnd(file, position - 1, lineEnd)), state, accept)
  {
  }

  /** The byte-by-byte scan from inside a line is the fold over the lines up to the end of that line. */
  lemma {:induction false} ScanBackIsFold<S>(parse: LineParser, finish: PartialLine -> Option<HistoryRecord>,
                                             file: seq<byte>, from: nat, position: nat, lineEnd: nat,
                                             state: S, accept: (S, nat, HistoryRecord) -> (S, bool))
    requires parse([]) == None && Finishes(parse, file, finish)
    requires from <= position <= lineEnd <= |file|
    requires forall k :: position <= k < lineEnd - 1 ==> file[k] != NEWLINE
    ensures ScanBack(finish, file, from, position, Held(file, position, ContentEnd(file, position, lineEnd)), state, accept)
         == FoldBack(Records(parse, file[..lineEnd], from), state, accept)
    decreases position
  {
    if position > from && file[position - 1] != NEWLINE {
      ScanBackPush(finish, file, from, position, lineEnd, state, accept);
      ScanBackIsFold(parse, finish, file, from, position - 1, lineEnd, state, accept);
    } else {
      ScanBackAtBoundary(parse, finish, file, from, position, lineEnd, state, accept);
    }
  }

  lemma {:induction false} ScanBackAtBoundary<S>(parse: LineParser, finish: PartialLine -> Option<HistoryRecord>,
                                                 file: seq<byte>, from: nat, position: nat, lineEnd: nat,
                                                 state: S, accept: (S, nat, HistoryRecord) -> (S, bool))
    requires parse([]) == None && Finishes(parse, file, finish)
    requires from <= position <= lineEnd <= |file|
    requires position == from || file[position - 1] == NEWLINE
    requires forall k :: position <= k < lineEnd - 1 ==> file[k] != NEWLINE
    ensures ScanBack(finish, file, from, position, Held(file, position, ContentEnd(file, position, lineEnd)), state, accept)
         == FoldBack(Records(parse, file[..lineEnd], from), state, accept)
    decreases position, 0
  {
    var record := finish(Held(file, position, ContentEnd(file, position, lineEnd)));
    FoldStep(parse, file, from, position, lineEnd, state, accept);
    var next := match record case None => state case Some(r) => accept(state, position, r).0;
    if position > from {
      ScanBackIsFold(parse, finish, file, from, position - 1, position, next, accept);
    }
  }

  /** The nested loops: read chunk after chunk, each from its last byte to its first. */
  method ScanChunks<S>(finish: PartialLine -> Option<HistoryRecord>, file: seq<byte>, endOffset: nat, minimumOffset: nat,
                       chunkBytes: nat, initial: S, accept: (S, nat, HistoryRecord) -> (S, bool))
    returns (found: Option<HistoryRecord>, state: S)
    requires minimumOffset <= endOffset <= |file| && chunkBytes >= 1
    ensures (found, state) == ScanBack(finish, file, minimumOffset, endOffset, EMPTY_LINE, initial, accept)
  {
    state := initial;
    var chunkEnd, line := endOffset, EMPTY_LINE;
    ghost var answer := ScanBack(finish, file, minimumOffset, endOffset, EMPTY_LINE, initial, accept);
    while chunkEnd > minimumOffset
      invariant minimumOffset <= chunkEnd <= endOffset
      invariant answer == ScanBack(finish, file, minimumOffset, chunkEnd, line, state, accept)
    {
      var chunkStart := Max(if chunkEnd < chunkBytes then 0 else chunkEnd - chunkBytes, minimumOffset);
      var chunk := file[chunkStart..chunkEnd];
      var index := |chunk|;
      while index > 0
        invariant 0 <= index <= |chunk|
        invariant answer == ScanBack(finish, file, minimumOffset, chunkStart + index, line, state, accept)
      {
        index := index - 1;
        var offset := chunkStart + index;
        if chunk[index] == NEWLINE {
          var record := finish(line);
          if record.Some? {
            var (next, taken) := accept(state, offset + 1, record.value);
            state := next;
            if taken {
              return record, state;
            }
          }
          line := EMPTY_LINE;
        } else {
          line := PushByte(line, chunk[index], offset);
        }
      }
      chunkEnd := chunkStart;
    }
    var record := finish(line);
    if record.Some? {
      var (next, taken) := accept(state, minimumOffset, record.value);
      state := next;
      if taken {
        return record, state;
      }
    }
    found := None;
  }

  /**
  For every chunk size, the scan is the backwards fold over the simple reading
  of the log, with each record's true line start.
  */
  method ScanReverse<S>(c: Codec, file: seq<byte>, endOffset: nat, minimumOffset: nat, chunkBytes: nat,
                        initial: S, accept: (S, nat, HistoryRecord) -> (S, bool))
    returns (found: Option<HistoryRecord>, state: S)
    requires endOffset <= |file| && chunkBytes >= 1
    ensures (found, state) == FoldBack(Window(Reverse(c), file, minimumOffset, endOffset), initial, accept)
  {
    if minimumOffset > endOffset {
      return None, initial;
    }
    var finish := line => FinishLine(c, line);
    forall start: nat, lineEnd: nat | start <= lineEnd <= |file|
      ensures finish(Held(file, start, ContentEnd(file, start, lineEnd))) == Reverse(c)(file[start..lineEnd])
    {
      HeldFinish(c, file, start, lineEnd);
    }
    assert AllWhitespace(Content([]));
    ScanBackIsFold(Reverse(c), finish, file, minimumOffset, endOffset, endOffset, initial, accept);
    found, state := ScanChunks(finish, file, endOffset, minimumOffset, chunkBytes, initial, accept);
  }

  /** Where the newest `limit` records start: the end when there is none. */
  function RecentOffset(rs: seq<Located>, end: nat, limit: nat): nat
    requires limit > 0
  {
    if rs == [] then end else rs[Max(0, |rs| - limit)].start
  }

  /** The counting closure of `recent_start`: remember the oldest start and stop at the limit. */
  function CountTo(limit: nat): ((nat, nat), nat, HistoryRecord) -> ((nat, nat), bool) {
    (state: (nat, nat), start: nat, _: HistoryRecord) => ((start, state.1 + 1), state.1 + 1 == limit)
  }

  lemma {:induction false} FoldRecent(rs: seq<Located>, oldest: nat, count: nat, limit: nat)
    requires count < limit
    ensures FoldBack(rs, (oldest, count), CountTo(limit)).1.0 == RecentOffset(rs, oldest, limit - count)
  {
    if rs != [] && count + 1 < limit {
      FoldRecent(rs[..|rs| - 1], rs[|rs| - 1].start, count + 1, limit);
    }
  }

  method RecentStart(c: Codec, file: seq<byte>, endOffset: nat, limit: nat) returns (oldest: nat)
    requires endOffset <= |file| && limit > 0
    ensures oldest == RecentOffset(Window(Reverse(c), file, 0, endOffset), endOffset, limit)
  {
    var _, state := ScanReverse(c, file, endOffset, 0, REVERSE_CHUNK_BYTES, (endOffset, 0), CountTo(limit));
    FoldRecent(Window(Reverse(c), file, 0, endOffset), endOffset, 0, limit);
    oldest := state.0;
  }

  /** The history boundary and lifetime a wait is bound to. */
  datatype AwaitCursor = AwaitCursor(offset: nat, incarnation: string)

  /** Whether a record completes the identifier, within the cursor's lifetime if there is one. */
  predicate Completes(r: HistoryRecord, id: string, cursor: Option<AwaitCursor>) {
    r.id == id && r.success && (cursor.Some? ==> r.incarnation == cursor.value.incarnation)
  }

  /** The newest record that completes the identifier. */
  function Newest(rs: seq<Located>, id: string, cursor: Option<AwaitCursor>): Option<HistoryRecord> {
    if rs == [] then None
    else if Completes(rs[|rs| - 1].record, id, cursor) then Some(rs[|rs| - 1].record)
    else Newest(rs[..|rs| - 1], id, cursor)
  }

  lemma {:induction false} FoldNewest(rs: seq<Located>, id: string, cursor: Option<AwaitCursor>)
    ensures FoldBack(rs, (), (state: (), _: nat, r: HistoryRecord) => (state, Completes(r, id, cursor))).0
         == Newest(rs, id, cursor)
  {
    if rs != [] && !Completes(rs[|rs| - 1].record, id, cursor) {
      FoldNewest(rs[..|rs| - 1], id, cursor);
    }
  }

  /** The simple reading of `latest_completion` on the whole log. */
  function LatestIn(c: Codec, log: seq<byte>, id: string, cursor: Option<AwaitCursor>): Option<HistoryRecord> {
    Newest(Window(Reverse(c), log, if cursor.Some? then cursor.value.offset else 0, |log|), id, cursor)
  }

  method LatestCompletion(c: Codec, file: seq<byte>, id: string, cursor: Option<AwaitCursor>)
    returns (record: Option<HistoryRecord>)
    ensures record == LatestIn(c, file, id, cursor)
  {
    var minimum := if cursor.Some? then cursor.value.offset else 0;
    var found, _ := ScanReverse(c, file, |file|, minimum, REVERSE_CHUNK_BYTES, (),
                                (state: (), _: nat, r: HistoryRecord) => (state, Completes(r, id, cursor)));
    FoldNewest(Window(Reverse(c), file, minimum, |file|), id, cursor);
    record := found;
  }
}
