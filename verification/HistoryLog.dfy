/**
The history log as bytes, and the simple reading of it: split the bytes into
lines and keep the lines that decode. Every reader of the log is proved
against `Records`.
*/
module HistoryLog {
  import opened Base

  type byte = b: int | 0 <= b < 256

  const NEWLINE: byte := 10

  const MAX_HISTORY_LINE_BYTES: nat := 2 * 1024 * 1024

  datatype CommentRequest = CommentRequest(owner: string, repo: string, prNumber: U64, body: string)

  datatype HistoryRecord = HistoryRecord(
    attemptId: string,
    id: string,
    postedAt: U64,
    success: bool,
    error: Option<string>,
    tokenHash: string,
    commentUrl: Option<string>,
    incarnation: string,
    request: CommentRequest)

  /** The JSON encoder and decoder of one record, kept abstract. */
  datatype Codec = Codec(
    encode: HistoryRecord -> seq<byte>,
    decode: seq<byte> -> Option<HistoryRecord>)

  predicate IsAsciiWhitespace(b: byte) {
    b == 9 || b == 10 || b == 12 || b == 13 || b == 32
  }

  predicate AllWhitespace(bytes: seq<byte>) {
    forall i :: 0 <= i < |bytes| ==> IsAsciiWhitespace(bytes[i])
  }

  /**
  What the model takes from JSON: decoding inverts encoding, a compact encoding
  holds no raw newline, no strict prefix of an encoded object decodes, blank
  text does not decode, and one trailing newline is ignored.
  */
  ghost predicate Lawful(c: Codec) {
    && (forall r :: c.decode(c.encode(r)) == Some(r))
    && (forall r :: NEWLINE !in c.encode(r))
    && (forall r, k :: 0 <= k < |c.encode(r)| ==> c.decode(c.encode(r)[..k]) == None)
    && (forall l :: AllWhitespace(l) ==> c.decode(l) == None)
    && (forall l {:trigger c.decode(l + [NEWLINE])} :: c.decode(l + [NEWLINE]) == c.decode(l))
  }

  /** Whether `end` is the end of the line that starts at `start`, its newline included. */
  predicate IsLine(log: seq<byte>, start: nat, end: nat) {
    && start < end <= |log|
    && (forall k :: start <= k < end - 1 ==> log[k] != NEWLINE)
    && (end == |log| || log[end - 1] == NEWLINE)
  }

  /** Whether a reader that began at `from` finds a line starting at `q`. */
  predicate IsBoundary(log: seq<byte>, from: nat, q: nat) {
    from <= q <= |log| && (q == from || log[q - 1] == NEWLINE)
  }

  function LineEnd(log: seq<byte>, start: nat): (end: nat)
    requires start < |log|
    ensures start < end <= |log|
    decreases |log| - start
  {
    if log[start] == NEWLINE || start + 1 == |log| then start + 1 else LineEnd(log, start + 1)
  }

  lemma {:induction false} LineEndIsLine(log: seq<byte>, start: nat)
    requires start < |log|
    ensures IsLine(log, start, LineEnd(log, start))
    decreases |log| - start
  {
    if log[start] != NEWLINE && start + 1 < |log| {
      LineEndIsLine(log, start + 1);
    }
  }

  lemma LineEndUnique(log: seq<byte>, start: nat, end: nat)
    requires IsLine(log, start, end)
    ensures LineEnd(log, start) == end
  {
    LineEndIsLine(log, start);
  }

  /** A line without its newline. */
  function Content(raw: seq<byte>): seq<byte> {
    if raw != [] && raw[|raw| - 1] == NEWLINE then raw[..|raw| - 1] else raw
  }

  /** What a reader makes of one raw line: the record on it, or nothing. */
  type LineParser = seq<byte> -> Option<HistoryRecord>

  /** The forward reader parses the line with its newline, and counts the newline against the cap. */
  function Forward(c: Codec): LineParser {
    raw =>
      if |raw| > MAX_HISTORY_LINE_BYTES || AllWhitespace(raw) then None else c.decode(raw)
  }

  /** The reverse reader never holds the newline. */
  function Reverse(c: Codec): LineParser {
    raw =>
      var line := Content(raw);
      if |line| > MAX_HISTORY_LINE_BYTES || AllWhitespace(line) then None else c.decode(line)
  }

  /** A record with the offset of its line and the offset just past its line. */
  datatype Located = Located(start: nat, next: nat, record: HistoryRecord)

  function LineRecord(parse: LineParser, raw: seq<byte>, start: nat): seq<Located> {
    match parse(raw)
    case None => []
    case Some(r) => [Located(start, start + |raw|, r)]
  }

  /** Every record of `log` on the lines from offset `from`, oldest first. */
  function Records(parse: LineParser, log: seq<byte>, from: nat): seq<Located>
    requires from <= |log|
    decreases |log| - from
  {
    if from == |log| then [] else
    var end := LineEnd(log, from);
    LineRecord(parse, log[from..end], from) + Records(parse, log, end)
  }

  lemma RecordsFirst(parse: LineParser, log: seq<byte>, from: nat)
    requires from <= |log|
    ensures Records(parse, log, from)
         == if from == |log| then []
            else LineRecord(parse, log[from..LineEnd(log, from)], from) + Records(parse, log, LineEnd(log, from))
  {
  }

  /** Reading one more line moves its record from what is ahead to what was seen. */
  lemma RecordsStep(parse: LineParser, log: seq<byte>, from: nat, start: nat, seen: seq<Located>)
    requires from <= start < |log|
    requires Records(parse, log, from) == seen + Records(parse, log, start)
    ensures
      var end := LineEnd(log, start);
      Records(parse, log, from)
      == seen + LineRecord(parse, log[start..end], start) + Records(parse, log, end)
  {
  }

  /** The lines before a boundary and the lines after it are read independently. */
  lemma {:induction false} RecordsSplit(parse: LineParser, log: seq<byte>, from: nat, q: nat)
    requires IsBoundary(log, from, q)
    ensures Records(parse, log, from)
         == Records(parse, log[..q], from) + Records(parse, log, q)
    decreases |log| - from
  {
    if from < q {
      var end := LineEnd(log, from);
      LineEndIsLine(log, from);
      assert log[..q][from..end] == log[from..end];
      LineEndUnique(log[..q], from, end);
      RecordsSplit(parse, log, end, q);
    }
  }

  /** The last line contributes its own record and nothing else. */
  lemma RecordsLast(parse: LineParser, log: seq<byte>, from: nat, q: nat)
    requires parse([]) == None
    requires IsBoundary(log, from, q)
    requires q < |log| ==> IsLine(log, q, |log|)
    ensures Records(parse, log, from)
         == Records(parse, log[..q], from) + LineRecord(parse, log[q..], q)
  {
    RecordsSplit(parse, log, from, q);
    if q < |log| {
      LineEndUnique(log, q, |log|);
      assert log[q..|log|] == log[q..];
    } else {
      assert log[q..] == [];
    }
  }
}
