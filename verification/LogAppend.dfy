/** What appending, whole or torn, does to the records of the log. */
module LogAppend {
  import opened Base
  import opened HistoryLog
  import opened ForwardRead
  import opened Disk

  /** Terminating an unterminated line cannot turn it into a record. */
  ghost predicate NewlineAddsNothing(parse: LineParser) {
    parse([NEWLINE]) == None && forall raw {:trigger parse(raw + [NEWLINE])} :: parse(raw) == None ==> parse(raw + [NEWLINE]) == None
  }

  lemma ForwardNewline(c: Codec)
    requires Lawful(c)
    ensures NewlineAddsNothing(Forward(c))
  {
    assert AllWhitespace([NEWLINE]);
    forall raw | Forward(c)(raw) == None ensures Forward(c)(raw + [NEWLINE]) == None {
      var line := raw + [NEWLINE];
      if AllWhitespace(raw) {
        assert AllWhitespace(line);
      }
    }
  }

  /** The line that starts at `start` ends at the same place once the log is terminated, or one further. */
  lemma LineEndTerminated(log: seq<byte>, start: nat)
    requires start < |log| && log[|log| - 1] != NEWLINE
    ensures
      var end := LineEnd(log, start);
      LineEnd(log + [NEWLINE], start) == if end == |log| then end + 1 else end
  {
    var end := LineEnd(log, start);
    LineEndIsLine(log, start);
    LineEndUnique(log + [NEWLINE], start, if end == |log| then end + 1 else end);
  }

  /** Terminating the log keeps an empty reading empty. */
  lemma {:induction false} TerminatedEmpty(parse: LineParser, log: seq<byte>, from: nat)
    requires NewlineAddsNothing(parse)
    requires from <= |log| && log != [] && log[|log| - 1] != NEWLINE
    requires Records(parse, log, from) == []
    ensures Records(parse, log + [NEWLINE], from) == []
    decreases |log| - from
  {
    hide LineEnd;
    var terminated := log + [NEWLINE];
    if from == |log| {
      LineEndUnique(terminated, from, |terminated|);
      assert terminated[from..|terminated|] == [NEWLINE];
    } else {
      var end := LineEnd(log, from);
      LineEndTerminated(log, from);
      assert Records(parse, log, from) == LineRecord(parse, log[from..end], from) + Records(parse, log, end);
      if end == |log| {
        assert terminated[from..end + 1] == log[from..end] + [NEWLINE];
      } else {
        assert terminated[from..end] == log[from..end];
        TerminatedEmpty(parse, log, end);
      }
    }
  }

  lemma SeparatedEmpty(parse: LineParser, log: seq<byte>, from: nat)
    requires NewlineAddsNothing(parse)
    requires from <= |log| && Records(parse, log, from) == []
    ensures Records(parse, log + Separator(log), from) == []
  {
    if Separator(log) == [] {
      assert log + Separator(log) == log;
    } else {
      TerminatedEmpty(parse, log, from);
    }
  }

  /** One line without an inner newline, written at a boundary, is read as its own record and nothing else. */
  lemma LineAtBoundary(parse: LineParser, log: seq<byte>, line: seq<byte>, from: nat)
    requires parse([]) == None
    requires IsBoundary(log + line, from, |log|)
    requires forall k :: 0 <= k < |line| - 1 ==> line[k] != NEWLINE
    ensures Records(parse, log + line, from) == Records(parse, log, from) + LineRecord(parse, line, |log|)
  {
    var whole := log + line;
    if line != [] {
      assert IsLine(whole, |log|, |whole|);
    }
    RecordsLast(parse, whole, from, |log|);
    assert whole[..|log|] == log && whole[|log|..] == line;
  }

  /** What the forward reader sees of the first `k` bytes of an encoded line. */
  lemma TornLine(c: Codec, r: HistoryRecord, k: nat)
    requires Lawful(c) && |c.encode(r)| < MAX_HISTORY_LINE_BYTES
    requires k <= |c.encode(r)| + 1
    ensures
      var torn := (c.encode(r) + [NEWLINE])[..k];
      && (forall i :: 0 <= i < |torn| - 1 ==> torn[i] != NEWLINE)
      && Forward(c)(torn) == if k < |c.encode(r)| then None else Some(r)
  {
    var line := c.encode(r);
    var torn := (line + [NEWLINE])[..k];
    assert !AllWhitespace(line);
    if k <= |line| {
      assert torn == line[..k];
      assert line[..|line|] == line;
    } else {
      assert torn == line + [NEWLINE];
      var i :| 0 <= i < |line| && !IsAsciiWhitespace(line[i]);
      assert torn[i] == line[i];
    }
  }

  /** A line written after the separator is all there is to read, when there was nothing before. */
  lemma SeparatedLine(parse: LineParser, log: seq<byte>, line: seq<byte>, from: nat)
    requires parse([]) == None && NewlineAddsNothing(parse)
    requires from <= |log| && Records(parse, log, from) == []
    requires forall k :: 0 <= k < |line| - 1 ==> line[k] != NEWLINE
    ensures Records(parse, log + Separator(log) + line, from) == LineRecord(parse, line, |log + Separator(log)|)
  {
    hide Records, LineEnd;
    SeparatedEmpty(parse, log, from);
    LineAtBoundary(parse, log + Separator(log), line, from);
  }

  lemma AppendedLength(c: Codec, log: seq<byte>, r: HistoryRecord)
    ensures |AppendedBytes(c, log, r)| == |Separator(log)| + |c.encode(r)| + 1
  {
  }

  /** A prefix of an append is nothing yet, or the separator and a prefix of the line. */
  lemma AppendedPrefix(c: Codec, log: seq<byte>, r: HistoryRecord, k: nat)
    requires k <= |AppendedBytes(c, log, r)|
    ensures log + AppendedBytes(c, log, r)[..k]
         == if k < |Separator(log)| then log else log + Separator(log) + (c.encode(r) + [NEWLINE])[..k - |Separator(log)|]
  {
    if k >= |Separator(log)| {
      var m := k - |Separator(log)|;
      var line := c.encode(r) + [NEWLINE];
      assert AppendedBytes(c, log, r)[..k] == Separator(log) + line[..m];
      assert log + (Separator(log) + line[..m]) == log + Separator(log) + line[..m];
    }
  }

  /**
  Appending a record after any number of torn attempts: whatever prefix is
  written, the reading from `from` is still empty or is exactly that record.
  */
  lemma TornAppend(c: Codec, log: seq<byte>, r: HistoryRecord, from: nat, k: nat)
    requires Lawful(c) && |c.encode(r)| < MAX_HISTORY_LINE_BYTES
    requires from <= |log| && Records(Forward(c), log, from) == []
    requires k <= |AppendedBytes(c, log, r)|
    ensures
      var written := log + AppendedBytes(c, log, r)[..k];
      var rs := Records(Forward(c), written, from);
      if k < |Separator(log)| + |c.encode(r)| then rs == [] else |rs| == 1 && rs[0].record == r
  {
    hide Records, LineEnd, Lawful, Forward;
    var line := c.encode(r) + [NEWLINE];
    ForwardNewline(c);
    ForwardCapped(c);
    AppendedPrefix(c, log, r, k);
    if k >= |Separator(log)| {
      var m := k - |Separator(log)|;
      TornLine(c, r, m);
      SeparatedLine(Forward(c), log, line[..m], from);
    }
  }
}
