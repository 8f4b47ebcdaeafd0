/**
`hist -n k`: the start is found by the reverse reader and the records are read
by the forward reader. The two disagree about one length of line only.
*/
module RecentHistory {
  import opened Base
  import opened HistoryLog
  import opened HistoryPaging

  /** The forward reader counts the newline, so it refuses a line whose content alone fills the cap. */
  predicate Readable(r: Located) {
    r.next - r.start <= MAX_HISTORY_LINE_BYTES
  }

  function Keep(rs: seq<Located>): seq<Located> {
    if rs == [] then []
    else (if Readable(rs[0]) then [rs[0]] else []) + Keep(rs[1..])
  }

  lemma {:induction false} KeepConcat(a: seq<Located>, b: seq<Located>)
    ensures Keep(a + b) == Keep(a) + Keep(b)
  {
    if a == [] {
      assert a + b == b;
    } else {
      assert (a + b)[1..] == a[1..] + b;
      KeepConcat(a[1..], b);
      Assoc(if Readable(a[0]) then [a[0]] else [], Keep(a[1..]), Keep(b));
    }
  }

  lemma KeepPushFront(here: seq<Located>, rest: seq<Located>)
    requires |here| <= 1
    ensures Keep(here + rest) == (if |here| == 1 && Readable(here[0]) then here else []) + Keep(rest)
  {
    KeepConcat(here, rest);
  }

  /** On one line the readers differ exactly when the line with its newline is over the cap. */
  lemma ReadersAgree(c: Codec, raw: seq<byte>)
    requires Lawful(c)
    ensures Forward(c)(raw) == if |raw| <= MAX_HISTORY_LINE_BYTES then Reverse(c)(raw) else None
  {
    if Content(raw) != raw {
      assert raw == Content(raw) + [NEWLINE];
    }
    assert AllWhitespace(raw) <==> AllWhitespace(Content(raw));
  }

  lemma {:induction false} ForwardIsKeep(c: Codec, log: seq<byte>, from: nat)
    requires Lawful(c) && from <= |log|
    ensures Records(Forward(c), log, from) == Keep(Records(Reverse(c), log, from))
    decreases |log| - from
  {
    if from < |log| {
      var end := LineEnd(log, from);
      var raw := log[from..end];
      ReadersAgree(c, raw);
      ForwardIsKeep(c, log, end);
      KeepPushFront(LineRecord(Reverse(c), raw, from), Records(Reverse(c), log, end));
    }
  }

  /** Reading from the start of a record finds that record and every later one. */
  lemma {:induction false} RecordsFrom(parse: LineParser, log: seq<byte>, from: nat, rs: seq<Located>, j: nat)
    requires from <= |log| && rs == Records(parse, log, from) && j < |rs|
    ensures rs[j].start <= |log| && Records(parse, log, rs[j].start) == rs[j..]
    decreases |log| - from
  {
    var end := LineEnd(log, from);
    var here := LineRecord(parse, log[from..end], from);
    var rest := Records(parse, log, end);
    if |here| <= j {
      RecordsFrom(parse, log, end, rest, j - |here|);
    } else {
      assert rs[j..] == rs;
    }
  }

  function Newer(rs: seq<Located>, k: nat): seq<Located> {
    rs[Max(0, |rs| - k)..]
  }

  lemma RecentSpan(forward: LineParser, reverse: LineParser, log: seq<byte>, k: nat)
    ensures
      var rs := Records(reverse, log, 0);
      var j := Max(0, |rs| - k);
      if k == 0 || rs == [] then Selected(forward, reverse, Some(log), Some(k)) == []
      else (
        && rs[j].start <= |log|
        && Records(reverse, log, rs[j].start) == Newer(rs, k)
        && Selected(forward, reverse, Some(log), Some(k)) == Records(forward, log, rs[j].start))
  {
    assert log[..|log|] == log;
    var rs := Records(reverse, log, 0);
    if k > 0 && rs != [] {
      RecordsFrom(reverse, log, 0, rs, Max(0, |rs| - k));
    }
  }

  /** What `hist -n k` lists: the readable ones among the newest `k` the reverse reader counts. */
  lemma {:induction false} RecentSelection(c: Codec, log: seq<byte>, k: nat)
    requires Lawful(c)
    ensures Selected(Forward(c), Reverse(c), Some(log), Some(k)) == Keep(Newer(Records(Reverse(c), log, 0), k))
  {
    RecentSpan(Forward(c), Reverse(c), log, k);
    var rs := Records(Reverse(c), log, 0);
    if k > 0 && rs != [] {
      ForwardIsKeep(c, log, rs[Max(0, |rs| - k)].start);
    }
  }

  /** No line that only the reverse reader accepts is newer than a line both accept. */
  predicate ReadableLast(rs: seq<Located>) {
    forall i, j :: 0 <= i < j < |rs| && Readable(rs[i]) ==> Readable(rs[j])
  }

  lemma {:induction false} KeepAll(rs: seq<Located>)
    requires forall i :: 0 <= i < |rs| ==> Readable(rs[i])
    ensures Keep(rs) == rs
  {
    if rs != [] {
      KeepAll(rs[1..]);
    }
  }

  lemma {:induction false} KeepNone(rs: seq<Located>)
    requires forall i :: 0 <= i < |rs| ==> !Readable(rs[i])
    ensures Keep(rs) == []
  {
    if rs != [] {
      KeepNone(rs[1..]);
    }
  }

  lemma {:induction false} KeepLength(rs: seq<Located>)
    ensures |Keep(rs)| <= |rs|
    ensures (exists i :: 0 <= i < |rs| && !Readable(rs[i])) ==> |Keep(rs)| < |rs|
  {
    if rs != [] {
      KeepLength(rs[1..]);
      if i :| 0 <= i < |rs| && !Readable(rs[i]) {
        assert i > 0 ==> !Readable(rs[1..][i - 1]);
      }
    }
  }

  lemma KeepSuffix(rs: seq<Located>, m: nat, j: nat)
    requires m <= |rs| && j <= |rs|
    requires forall i :: 0 <= i < m ==> !Readable(rs[i])
    requires forall i :: m <= i < |rs| ==> Readable(rs[i])
    ensures Keep(rs[j..]) == rs[Max(m, j)..]
  {
    if j < m {
      assert rs[j..] == rs[j..m] + rs[m..];
      KeepConcat(rs[j..m], rs[m..]);
      KeepNone(rs[j..m]);
      KeepAll(rs[m..]);
    } else {
      KeepAll(rs[j..]);
    }
  }

  /** When the readable lines are the newest ones, every limit lists the newest readable records. */
  lemma RecentWhenLast(rs: seq<Located>, k: nat)
    requires ReadableLast(rs)
    ensures Keep(Newer(rs, k)) == Newer(Keep(rs), k)
  {
    var m := FirstReadable(rs);
    KeepSuffix(rs, m, Max(0, |rs| - k));
    assert Keep(rs) == rs[m..] by {
      assert rs[0..] == rs;
      KeepSuffix(rs, m, 0);
    }
  }

  function FirstReadable(rs: seq<Located>): (m: nat)
    ensures m <= |rs| && (m < |rs| ==> Readable(rs[m]))
    ensures forall i :: 0 <= i < m ==> !Readable(rs[i])
  {
    if rs == [] || Readable(rs[0]) then 0 else
    var m := FirstReadable(rs[1..]);
    assert forall i :: 1 <= i < m + 1 ==> rs[i] == rs[1..][i - 1];
    m + 1
  }

  /** Otherwise some limit drops a readable record that belongs to the newest ones. */
  lemma RecentWhenNotLast(rs: seq<Located>) returns (k: nat)
    requires !ReadableLast(rs)
    ensures k > 0 && Keep(Newer(rs, k)) != Newer(Keep(rs), k)
  {
    var i, j :| 0 <= i < j < |rs| && Readable(rs[i]) && !Readable(rs[j]);
    k := |rs| - i - 1;
    var newest := rs[i + 1..];
    assert newest[j - i - 1] == rs[j];
    KeepLength(newest);
    assert rs == rs[..i] + [rs[i]] + newest;
    KeepConcat(rs[..i] + [rs[i]], newest);
    KeepConcat(rs[..i], [rs[i]]);
    KeepAll([rs[i]]);
  }

  /**
  `hist -n k` lists exactly the newest `min(k, total)` records for every limit,
  if and only if no line that fills the cap is newer than a readable record.
  */
  lemma {:induction false} HistRecentExact(c: Codec, log: seq<byte>)
    requires Lawful(c)
    ensures ReadableLast(Records(Reverse(c), log, 0))
       <==> forall k: nat {:trigger Selected(Forward(c), Reverse(c), Some(log), Some(k))} | k > 0 ::
              Selected(Forward(c), Reverse(c), Some(log), Some(k)) == Newer(Records(Forward(c), log, 0), k)
  {
    var rs := Records(Reverse(c), log, 0);
    ForwardIsKeep(c, log, 0);
    forall k: nat ensures Selected(Forward(c), Reverse(c), Some(log), Some(k)) == Keep(Newer(rs, k)) {
      RecentSelection(c, log, k);
    }
    if ReadableLast(rs) {
      forall k: nat | k > 0
        ensures Selected(Forward(c), Reverse(c), Some(log), Some(k)) == Newer(Records(Forward(c), log, 0), k)
      {
        RecentWhenLast(rs, k);
      }
    } else {
      var k := RecentWhenNotLast(rs);
      assert Selected(Forward(c), Reverse(c), Some(log), Some(k)) == Keep(Newer(rs, k));
    }
  }

  /** A record that fills the cap hides the newest readable record from `hist -n 1`. */
  lemma HistRecentMisses(c: Codec, short: HistoryRecord, full: HistoryRecord)
    requires Lawful(c)
    requires |c.encode(short)| < MAX_HISTORY_LINE_BYTES && |c.encode(full)| == MAX_HISTORY_LINE_BYTES
    ensures
      var log := c.encode(short) + [NEWLINE] + (c.encode(full) + [NEWLINE]);
      && Selected(Forward(c), Reverse(c), Some(log), Some(1)) == []
      && Records(Forward(c), log, 0) == [Located(0, |c.encode(short)| + 1, short)]
  {
    var first, second := c.encode(short) + [NEWLINE], c.encode(full) + [NEWLINE];
    var log := first + second;
    EncodedLine(c, short);
    EncodedLine(c, full);
    LineEndUnique(log, 0, |first|);
    LineEndUnique(log, |first|, |log|);
    assert log[0..|first|] == first && log[|first|..|log|] == second;
    var a, b := Located(0, |first|, short), Located(|first|, |log|, full);
    assert Records(Reverse(c), log, |first|) == [b];
    assert Records(Reverse(c), log, 0) == [a, b];
    RecentSelection(c, log, 1);
    ForwardIsKeep(c, log, 0);
    assert Newer([a, b], 1) == [b];
    KeepConcat([a], [b]);
  }

  /** A written line reads back as its record unless it is over the cap. */
  lemma EncodedLine(c: Codec, r: HistoryRecord)
    requires Lawful(c)
    ensures |c.encode(r)| <= MAX_HISTORY_LINE_BYTES ==> Reverse(c)(c.encode(r) + [NEWLINE]) == Some(r)
  {
    var line := c.encode(r) + [NEWLINE];
    assert Content(line) == c.encode(r);
    assert !AllWhitespace(c.encode(r));
  }
}
