/** How appends, whole or torn, change the newest completion a reverse scan finds. */
module NewestRecord {
  import opened Base
  import opened HistoryLog
  import opened ReverseScan
  import opened Disk
  import opened LogAppend

  /** The same records, perhaps at different line ends. */
  predicate SameRecords(a: seq<Located>, b: seq<Located>) {
    |a| == |b| && forall i :: 0 <= i < |a| ==> a[i].record == b[i].record
  }

  lemma {:induction false} SameNewest(a: seq<Located>, b: seq<Located>, id: string, cursor: Option<AwaitCursor>)
    requires SameRecords(a, b)
    ensures Newest(a, id, cursor) == Newest(b, id, cursor)
  {
    if a != [] && !Completes(a[|a| - 1].record, id, cursor) {
      SameNewest(a[..|a| - 1], b[..|b| - 1], id, cursor);
    }
  }

  /** A terminating newline does not change what a line holds. */
  ghost predicate NewlineNeutral(parse: LineParser) {
    && parse([]) == None && parse([NEWLINE]) == None
    && forall raw {:trigger parse(raw + [NEWLINE])} :: raw != [] && raw[|raw| - 1] != NEWLINE ==> parse(raw + [NEWLINE]) == parse(raw)
  }

  lemma ReverseNeutral(c: Codec)
    ensures NewlineNeutral(Reverse(c))
  {
    assert Content([NEWLINE]) == [] && Content([]) == [] && AllWhitespace([]);
    forall raw | raw != [] && raw[|raw| - 1] != NEWLINE ensures Reverse(c)(raw + [NEWLINE]) == Reverse(c)(raw) {
      assert Content(raw + [NEWLINE]) == raw == Content(raw);
    }
  }

  lemma {:induction false} TerminatedSame(parse: LineParser, log: seq<byte>, from: nat)
    requires NewlineNeutral(parse)
    requires from <= |log| && log != [] && log[|log| - 1] != NEWLINE
    ensures SameRecords(Records(parse, log + [NEWLINE], from), Records(parse, log, from))
    decreases |log| - from
  {
    hide LineEnd, Records;
    var terminated := log + [NEWLINE];
    RecordsFirst(parse, log, from);
    RecordsFirst(parse, terminated, from);
    if from == |log| {
      LineEndUnique(terminated, from, |terminated|);
      assert terminated[from..|terminated|] == [NEWLINE];
      RecordsFirst(parse, terminated, |terminated|);
    } else {
      var end := LineEnd(log, from);
      LineEndTerminated(log, from);
      TerminatedLine(log, from, end);
      if end < |log| {
        TerminatedSame(parse, log, end);
      } else {
        RecordsFirst(parse, log, |log|);
        RecordsFirst(parse, terminated, |terminated|);
      }
    }
  }

  lemma TerminatedLine(log: seq<byte>, from: nat, end: nat)
    requires from < end <= |log|
    ensures end == |log| ==> (log + [NEWLINE])[from..end + 1] == log[from..end] + [NEWLINE]
    ensures end < |log| ==> (log + [NEWLINE])[from..end] == log[from..end]
    ensures log[from..end] != [] && log[from..end][|log[from..end]| - 1] == log[end - 1]
  {
  }

  lemma SeparatedSame(parse: LineParser, log: seq<byte>, from: nat)
    requires NewlineNeutral(parse) && from <= |log|
    ensures SameRecords(Records(parse, log + Separator(log), from), Records(parse, log, from))
  {
    hide Records;
    if Separator(log) == [] {
      assert log + Separator(log) == log;
    } else {
      TerminatedSame(parse, log, from);
    }
  }

  lemma NewestPush(rs: seq<Located>, last: Located, id: string, cursor: Option<AwaitCursor>)
    ensures Newest(rs + [last], id, cursor) == if Completes(last.record, id, cursor) then Some(last.record) else Newest(rs, id, cursor)
  {
    assert (rs + [last])[..|rs|] == rs;
  }

  /** What the reverse reader sees of the first `k` bytes of an encoded line. */
  lemma TornReverse(c: Codec, r: HistoryRecord, k: nat)
    requires Lawful(c) && k <= |c.encode(r)| + 1
    ensures
      var torn := (c.encode(r) + [NEWLINE])[..k];
      && (forall i :: 0 <= i < |torn| - 1 ==> torn[i] != NEWLINE)
      && Reverse(c)(torn) == if k < |c.encode(r)| || |c.encode(r)| > MAX_HISTORY_LINE_BYTES then None else Some(r)
  {
    var line := c.encode(r);
    var torn := (line + [NEWLINE])[..k];
    assert !AllWhitespace(line);
    if k <= |line| {
      assert torn == line[..k];
      assert line[..|line|] == line;
      assert Content(torn) == torn;
    } else {
      assert torn == line + [NEWLINE];
      assert Content(torn) == line;
    }
  }

  /** A line written after the separator adds at most its own record. */
  lemma SeparatedNewest(parse: LineParser, log: seq<byte>, line: seq<byte>, from: nat, id: string,
                        cursor: Option<AwaitCursor>)
    requires NewlineNeutral(parse) && from <= |log|
    requires forall k :: 0 <= k < |line| - 1 ==> line[k] != NEWLINE
    ensures Newest(Records(parse, log + Separator(log) + line, from), id, cursor)
         == if parse(line).Some? && Completes(parse(line).value, id, cursor) then parse(line)
            else Newest(Records(parse, log, from), id, cursor)
  {
    hide Records, Newest;
    SeparatedSame(parse, log, from);
    LineAtBoundary(parse, log + Separator(log), line, from);
    var rs := Records(parse, log + Separator(log), from);
    SameNewest(rs, Records(parse, log, from), id, cursor);
    if parse(line).Some? {
      NewestPush(rs, LineRecord(parse, line, |log + Separator(log)|)[0], id, cursor);
    } else {
      assert rs + [] == rs;
    }
  }

  /**
  Whatever prefix of an append is written, the newest completion from `from`
  on is the appended record if it completes and its text is whole and within
  the cap, and is unchanged otherwise.
  */
  lemma AppendNewest(c: Codec, log: seq<byte>, r: HistoryRecord, k: nat, from: nat, id: string, cursor: Option<AwaitCursor>)
    requires Lawful(c) && from <= |log| && k <= |AppendedBytes(c, log, r)|
    ensures Newest(Records(Reverse(c), log + AppendedBytes(c, log, r)[..k], from), id, cursor)
         == if k >= |Separator(log)| + |c.encode(r)| && |c.encode(r)| <= MAX_HISTORY_LINE_BYTES && Completes(r, id, cursor)
            then Some(r) else Newest(Records(Reverse(c), log, from), id, cursor)
  {
    hide Records, Newest, Lawful, Reverse, AppendedBytes;
    var line := c.encode(r) + [NEWLINE];
    assert |AppendedBytes(c, log, r)| == |Separator(log)| + |line| by { AppendedLength(c, log, r); }
    ReverseNeutral(c);
    AppendedPrefix(c, log, r, k);
    if k >= |Separator(log)| {
      var m := k - |Separator(log)|;
      TornReverse(c, r, m);
      SeparatedNewest(Reverse(c), log, line[..m], from, id, cursor);
    }
  }
}
