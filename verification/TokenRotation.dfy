/** Token rotation, recomputed from the newest history record before every attempt. */
module TokenRotation {
  import opened Base
  import opened HistoryLog
  import opened ForwardRead
  import opened HistoryPaging
  import opened RecentHistory
  import opened Disk
  import opened LogAppend
  import opened NewestRecord

  function Position(hashes: seq<string>, hash: string): (p: Option<nat>)
    ensures p.None? <==> hash !in hashes
    ensures p.Some? ==> p.value < |hashes| && hashes[p.value] == hash
  {
    if hashes == [] then None
    else if hashes[0] == hash then Some(0)
    else match Position(hashes[1..], hash) case None => None case Some(i) => Some(i + 1)
  }

  function NextTokenIndex(hashes: seq<string>, last: Option<string>): (i: nat)
    ensures hashes != [] ==> i < |hashes|
  {
    if hashes == [] then 0
    else match last
      case None => 0
      case Some(hash) => match Position(hashes, hash) case None => 0 case Some(i) => (i + 1) % |hashes|
  }

  /**
  The next token: the first one when there is no last token or the pool does not
  hold it, and otherwise the one behind its first place in the pool, the first
  again behind the last.
  */
  lemma NextTokenExact(hashes: seq<string>, last: Option<string>)
    requires hashes != []
    ensures last.None? || last.value !in hashes ==> NextTokenIndex(hashes, last) == 0
    ensures last.Some? ==> forall p :: 0 <= p < |hashes| && hashes[p] == last.value && last.value !in hashes[..p] ==>
      NextTokenIndex(hashes, last) == if p + 1 == |hashes| then 0 else p + 1
  {
    if last.Some? {
      forall p | 0 <= p < |hashes| && hashes[p] == last.value && last.value !in hashes[..p]
        ensures NextTokenIndex(hashes, last) == if p + 1 == |hashes| then 0 else p + 1
      {
        FirstPosition(hashes, last.value, p);
        WrapAround(p, |hashes|);
      }
    }
  }

  lemma {:induction false} FirstPosition(hashes: seq<string>, hash: string, p: nat)
    requires p < |hashes| && hashes[p] == hash && hash !in hashes[..p]
    ensures Position(hashes, hash) == Some(p)
  {
    if p > 0 {
      assert hashes[0] in hashes[..p];
      assert hashes[1..][..p - 1] == hashes[..p][1..];
      FirstPosition(hashes[1..], hash, p - 1);
    }
  }

  lemma WrapAround(k: nat, n: nat)
    requires k < n
    ensures (k + 1) % n == if k + 1 == n then 0 else k + 1
  {
  }

  /** The token of the newest record, if the forward reader can read it. */
  function LastHash(c: Codec, log: seq<byte>): Option<string> {
    var rs := Records(Reverse(c), log, 0);
    if rs != [] && Readable(rs[|rs| - 1]) then Some(rs[|rs| - 1].record.tokenHash) else None
  }

  method LastTokenHash(c: Codec, history: Option<seq<byte>>, buffered: nat -> nat) returns (hash: Option<string>)
    requires Lawful(c)
    ensures hash == match history case None => None case Some(log) => LastHash(c, log)
  {
    hide Records, Lawful, Keep;
    var page := ReadPage(c, history, buffered, None, Some(1), 1);
    hash := None;
    if page.PageOk? && page.page.records != [] {
      hash := Some(page.page.records[|page.page.records| - 1].record.tokenHash);
    }
    if history.Some? {
      NewestShown(c, history.value);
    }
  }

  /** The newest page of one record shows the newest record if it is readable, and nothing otherwise. */
  lemma NewestShown(c: Codec, log: seq<byte>)
    requires Lawful(c)
    ensures
      var rs := Selected(Forward(c), Reverse(c), Some(log), Some(1));
      && (rs == [] <==> LastHash(c, log).None?)
      && (rs != [] ==> |rs| == 1 && LastHash(c, log) == Some(rs[0].record.tokenHash))
  {
    hide Records, Lawful, Selected;
    RecentSelection(c, log, 1);
    var rs := Records(Reverse(c), log, 0);
    if rs != [] {
      assert Newer(rs, 1) == [rs[|rs| - 1]];
      KeepPushFront([rs[|rs| - 1]], []);
      assert [rs[|rs| - 1]] + [] == [rs[|rs| - 1]];
    }
  }

  // What attempts do to the log.

  /** Terminating the last line, as the next append does first, leaves the newest token as it is. */
  ghost predicate Settled(c: Codec, log: seq<byte>) {
    LastHash(c, log + Separator(log)) == LastHash(c, log)
  }

  lemma {:induction false} SeparatedRecords(c: Codec, log: seq<byte>, line: seq<byte>)
    requires forall k :: 0 <= k < |line| - 1 ==> line[k] != NEWLINE
    ensures Records(Reverse(c), log + Separator(log) + line, 0)
         == Records(Reverse(c), log + Separator(log), 0) + LineRecord(Reverse(c), line, |log + Separator(log)|)
  {
    hide Records, Reverse;
    ReverseNeutral(c);
    LineAtBoundary(Reverse(c), log + Separator(log), line, 0);
  }

  /** A torn append leaves the newest token as it was, also once it is repaired. */
  lemma TornSettled(c: Codec, log: seq<byte>, r: HistoryRecord, k: nat)
    requires Lawful(c) && Settled(c, log) && k < |Separator(log)| + |c.encode(r)|
    ensures k <= |AppendedBytes(c, log, r)|
    ensures
      var torn := log + AppendedBytes(c, log, r)[..k];
      LastHash(c, torn) == LastHash(c, log) && Settled(c, torn)
  {
    hide Records, Lawful, Reverse, AppendedBytes;
    AppendedLength(c, log, r);
    AppendedPrefix(c, log, r, k);
    if k >= |Separator(log)| {
      var m := k - |Separator(log)|;
      var line := (c.encode(r) + [NEWLINE])[..m];
      TornReverse(c, r, m);
      SeparatedRecords(c, log, line);
      var torn := log + Separator(log) + line;
      assert Records(Reverse(c), torn, 0) == Records(Reverse(c), log + Separator(log), 0) + [];
      TornRepaired(c, log, r, m);
    }
  }

  lemma TornRepaired(c: Codec, log: seq<byte>, r: HistoryRecord, m: nat)
    requires Lawful(c) && m < |c.encode(r)|
    requires
      var torn := log + Separator(log) + (c.encode(r) + [NEWLINE])[..m];
      Records(Reverse(c), torn, 0) == Records(Reverse(c), log + Separator(log), 0)
    ensures Settled(c, log + Separator(log) + (c.encode(r) + [NEWLINE])[..m])
  {
    hide Records, Lawful, Reverse;
    var line := (c.encode(r) + [NEWLINE])[..m];
    var torn := log + Separator(log) + line;
    TornReverse(c, r, m);
    if m == 0 {
      assert torn == log + Separator(log);
    }
    if Separator(torn) == [] {
      assert torn + Separator(torn) == torn;
    } else {
      assert torn + [NEWLINE] == log + Separator(log) + (line + [NEWLINE]);
      assert line[|line| - 1] == torn[|torn| - 1];
      SeparatedRecords(c, log, line + [NEWLINE]);
      ReverseNeutral(c);
      assert Reverse(c)(line + [NEWLINE]) == None;
    }
  }

  /** What an append leaves that wrote its record's text and, unless cut off there, its newline. */
  ghost function Recorded(c: Codec, log: seq<byte>, r: HistoryRecord, newline: bool): seq<byte> {
    log + AppendedBytes(c, log, r)[..|Separator(log)| + |c.encode(r)| + if newline then 1 else 0]
  }

  lemma RecordedText(c: Codec, log: seq<byte>, r: HistoryRecord, newline: bool)
    ensures Recorded(c, log, r, newline) == log + Separator(log) + c.encode(r) + if newline then [NEWLINE] else []
  {
    assert AppendedBytes(c, log, r) == Separator(log) + c.encode(r) + [NEWLINE];
  }

  lemma RecordedLine(c: Codec, log: seq<byte>, r: HistoryRecord, newline: bool)
    requires Lawful(c) && |c.encode(r)| < MAX_HISTORY_LINE_BYTES
    ensures LastHash(c, Recorded(c, log, r, newline)) == Some(r.tokenHash)
  {
    hide Records, Lawful, Reverse;
    var line := c.encode(r) + if newline then [NEWLINE] else [];
    RecordedText(c, log, r, newline);
    assert Recorded(c, log, r, newline) == log + Separator(log) + line;
    assert (c.encode(r) + [NEWLINE])[..|line|] == line;
    TornReverse(c, r, |line|);
    SeparatedRecords(c, log, line);
  }

  /** An append that wrote its record's text makes its token the newest, with or without the newline. */
  lemma WholeRecorded(c: Codec, log: seq<byte>, r: HistoryRecord, newline: bool)
    requires Lawful(c) && |c.encode(r)| < MAX_HISTORY_LINE_BYTES
    ensures
      var written := Recorded(c, log, r, newline);
      LastHash(c, written) == Some(r.tokenHash) && Settled(c, written)
  {
    hide Records, Lawful, Reverse, LastHash;
    var written := Recorded(c, log, r, newline);
    RecordedLine(c, log, r, newline);
    RecordedText(c, log, r, newline);
    if newline {
      assert written[|written| - 1] == NEWLINE;
      assert written + Separator(written) == written;
    } else {
      assert c.encode(r) != [] && NEWLINE !in c.encode(r) by { EncodedLine(c, r); }
      assert written[|written| - 1] == c.encode(r)[|c.encode(r)| - 1];
      RecordedText(c, log, r, true);
      assert written + Separator(written) == Recorded(c, log, r, true);
      RecordedLine(c, log, r, true);
    }
  }

  lemma EncodedLine(c: Codec, r: HistoryRecord)
    requires Lawful(c)
    ensures c.encode(r) != [] && NEWLINE !in c.encode(r)
  {
    assert c.decode(c.encode(r)) == Some(r);
    assert AllWhitespace([]);
  }

  /**
  One recorded attempt, after any appends that a crash tore before their text was
  whole. Its own append may have been cut off just before the newline.
  */
  datatype Attempt = Attempt(torn: seq<(HistoryRecord, nat)>, record: HistoryRecord, newline: bool)

  ghost predicate TornOff(c: Codec, log: seq<byte>, torn: seq<(HistoryRecord, nat)>)
    decreases |torn|
  {
    torn == [] ||
    (torn[0].1 < |Separator(log)| + |c.encode(torn[0].0)| <= |AppendedBytes(c, log, torn[0].0)|
     && TornOff(c, log + AppendedBytes(c, log, torn[0].0)[..torn[0].1], torn[1..]))
  }

  ghost function AfterTorn(c: Codec, log: seq<byte>, torn: seq<(HistoryRecord, nat)>): seq<byte>
    requires TornOff(c, log, torn)
    decreases |torn|
  {
    if torn == [] then log else AfterTorn(c, log + AppendedBytes(c, log, torn[0].0)[..torn[0].1], torn[1..])
  }

  lemma {:induction false} TornKeepsLast(c: Codec, log: seq<byte>, torn: seq<(HistoryRecord, nat)>)
    requires Lawful(c) && Settled(c, log) && TornOff(c, log, torn)
    ensures LastHash(c, AfterTorn(c, log, torn)) == LastHash(c, log)
    decreases |torn|
  {
    hide Lawful, Records, Settled, AppendedBytes;
    if torn != [] {
      TornSettled(c, log, torn[0].0, torn[0].1);
      TornKeepsLast(c, log + AppendedBytes(c, log, torn[0].0)[..torn[0].1], torn[1..]);
    }
  }

  /**
  The worker's attempts, over any number of process lifetimes: each reads the
  newest record, picks the next token and records its attempt with it.
  */
  ghost predicate Rotates(c: Codec, hashes: seq<string>, log: seq<byte>, attempts: seq<Attempt>)
    decreases |attempts|
  {
    attempts == [] ||
    var a := attempts[0];
    && TornOff(c, log, a.torn)
    && |c.encode(a.record)| < MAX_HISTORY_LINE_BYTES
    && var seen := AfterTorn(c, log, a.torn);
       var i := NextTokenIndex(hashes, LastHash(c, seen));
       && i < |hashes| && a.record.tokenHash == hashes[i]
       && Rotates(c, hashes, Recorded(c, seen, a.record, a.newline), attempts[1..])
  }

  ghost predicate Distinct(hashes: seq<string>) {
    forall i, j :: 0 <= i < j < |hashes| ==> hashes[i] != hashes[j]
  }

  /** The token after the `k`-th. */
  function Following(k: nat, n: nat): nat
    requires k < n
  {
    if k + 1 == n then 0 else k + 1
  }

  lemma NextFollows(hashes: seq<string>, k: nat)
    requires Distinct(hashes) && k < |hashes|
    ensures NextTokenIndex(hashes, Some(hashes[k])) == Following(k, |hashes|)
  {
    hide Position;
    assert Position(hashes, hashes[k]) == Some(k);
  }

  /** After an attempt with the `k`-th token, the next one uses the token after it. */
  lemma {:induction false} NextAttemptFollows(c: Codec, hashes: seq<string>, log: seq<byte>, attempts: seq<Attempt>,
                                              i: nat, k: nat)
    requires Lawful(c) && Distinct(hashes) && Rotates(c, hashes, log, attempts)
    requires i + 1 < |attempts| && k < |hashes| && attempts[i].record.tokenHash == hashes[k]
    ensures attempts[i + 1].record.tokenHash == hashes[Following(k, |hashes|)]
    decreases i
  {
    hide Lawful, LastHash, Recorded, Distinct, Following;
    var a := attempts[0];
    var seen := AfterTorn(c, log, a.torn);
    var written := Recorded(c, seen, a.record, a.newline);
    if i > 0 {
      NextAttemptFollows(c, hashes, written, attempts[1..], i - 1, k);
    } else {
      WholeRecorded(c, seen, a.record, a.newline);
      TornKeepsLast(c, written, attempts[1..][0].torn);
      NextFollows(hashes, k);
    }
  }

  /** The token `steps` after the `k`-th. */
  function Later(k: nat, steps: nat, n: nat): (j: nat)
    requires k < n && steps <= n
    ensures j < n
  {
    if k + steps < n then k + steps else k + steps - n
  }

  lemma {:induction false} WindowTokens(c: Codec, hashes: seq<string>, log: seq<byte>, attempts: seq<Attempt>,
                                        i: nat, k: nat, steps: nat)
    requires Lawful(c) && Distinct(hashes) && Rotates(c, hashes, log, attempts)
    requires i + steps < |attempts| && steps < |hashes| && k < |hashes| && attempts[i].record.tokenHash == hashes[k]
    ensures attempts[i + steps].record.tokenHash == hashes[Later(k, steps, |hashes|)]
    decreases steps
  {
    hide Lawful, Rotates, Distinct;
    if steps > 0 {
      WindowTokens(c, hashes, log, attempts, i, k, steps - 1);
      NextAttemptFollows(c, hashes, log, attempts, i + steps - 1, Later(k, steps - 1, |hashes|));
    }
  }

  lemma {:induction false} UsesPool(c: Codec, hashes: seq<string>, log: seq<byte>, attempts: seq<Attempt>,
                                    i: nat) returns (k: nat)
    requires Rotates(c, hashes, log, attempts) && i < |attempts|
    ensures k < |hashes| && attempts[i].record.tokenHash == hashes[k]
    decreases i
  {
    hide Recorded, LastHash, TornOff, AfterTorn;
    var seen := AfterTorn(c, log, attempts[0].torn);
    if i == 0 {
      k := NextTokenIndex(hashes, LastHash(c, seen));
    } else {
      k := UsesPool(c, hashes, Recorded(c, seen, attempts[0].record, attempts[0].newline), attempts[1..], i - 1);
    }
  }

  /**
  With a pool of `n` distinct tokens, any `n` consecutive recorded attempts use
  each token exactly once, whatever the log held before, wherever crashes cut
  appends off, and however often the daemon restarted in between.
  */
  lemma EachTokenOnce(c: Codec, hashes: seq<string>, log: seq<byte>, attempts: seq<Attempt>, i: nat, token: nat)
    requires Lawful(c) && Distinct(hashes) && Rotates(c, hashes, log, attempts)
    requires i + |hashes| <= |attempts| && token < |hashes|
    ensures exists j :: i <= j < i + |hashes| && attempts[j].record.tokenHash == hashes[token]
    ensures forall a, b :: i <= a < b < i + |hashes| ==> attempts[a].record.tokenHash != attempts[b].record.tokenHash
  {
    hide Lawful, Rotates, NextTokenIndex;
    var n := |hashes|;
    var k := UsesPool(c, hashes, log, attempts, i);
    var steps := if token >= k then token - k else token + n - k;
    WindowTokens(c, hashes, log, attempts, i, k, steps);
    assert attempts[i + steps].record.tokenHash == hashes[token];
    forall a, b | i <= a < b < i + n ensures attempts[a].record.tokenHash != attempts[b].record.tokenHash {
      WindowTokens(c, hashes, log, attempts, i, k, a - i);
      WindowTokens(c, hashes, log, attempts, i, k, b - i);
    }
  }
}
