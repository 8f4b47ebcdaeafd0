/** The client's side of a wait: newline-delimited frames off a stream that may be cut anywhere. */
module AwaitClient {
  import opened Base
  import opened HistoryLog
  import opened AwaitHandler

  /** The one-shot reply of a daemon that does not know the request. */
  datatype Response = Ok | Rejected(message: string)

  datatype ClientResult =
    | Success(commentUrl: string)
    | Daemon(message: string)
    | ConnectionLost
    | AwaitRejected(message: string)
    | UnexpectedResponse
    | NoInitialReply
    | ReplyTooLarge

  /** A decoder of one-shot replies. */
  type ResponseParser = seq<byte> -> Option<Response>

  function ClassifyInitialEnd(parse: ResponseParser, bytes: seq<byte>): (r: ClientResult)
    ensures r.AwaitRejected? || r.UnexpectedResponse? || r.NoInitialReply?
  {
    match parse(bytes)
    case Some(Rejected(message)) => AwaitRejected(message)
    case Some(Ok) => UnexpectedResponse
    case None => NoInitialReply
  }

  /** The bytes up to and including the first newline, or all of them. */
  function FirstLine(stream: seq<byte>): (line: seq<byte>)
    ensures line <= stream
  {
    if stream == [] then [] else stream[..LineEnd(stream, 0)]
  }

  predicate Terminated(line: seq<byte>) {
    line != [] && line[|line| - 1] == NEWLINE
  }

  /** What the client makes of a stream; `waiting` tells whether a progress frame came before. */
  function Received(wire: FrameCodec, parse: ResponseParser, stream: seq<byte>, waiting: bool): ClientResult
    decreases |stream|
  {
    var line := FirstLine(stream);
    if |line| > MAX_AWAIT_FRAME_BYTES then ReplyTooLarge
    else if !Terminated(line) then if waiting then ConnectionLost else ClassifyInitialEnd(parse, line)
    else match wire.decode(line)
      case None => UnexpectedResponse
      case Some(PostedAt(url)) => Success(url)
      case Some(Error(message)) => Daemon(message)
      case Some(Waiting(_)) => Received(wire, parse, stream[|line|..], true)
  }

  lemma FirstLineIs(stream: seq<byte>, n: nat)
    requires n <= |stream| && NEWLINE !in stream[..n]
    requires n == |stream| || stream[n] == NEWLINE
    ensures FirstLine(stream) == stream[..Min(n + 1, |stream|)]
  {
    if stream != [] {
      assert forall i :: 0 <= i < n ==> stream[i] == stream[..n][i];
      LineEndUnique(stream, 0, Min(n + 1, |stream|));
    }
  }

  /** Read one frame with the reader limited to one byte more than a frame may have. */
  method ReadFrame(stream: seq<byte>, from: nat) returns (bytes: seq<byte>)
    requires from <= |stream|
    ensures bytes == Limited(FirstLine(stream[from..])) && from + |bytes| <= |stream|
  {
    var end := from;
    while end < |stream| && end - from < MAX_AWAIT_FRAME_BYTES + 1 && (end == from || stream[end - 1] != NEWLINE)
      invariant from <= end <= |stream| && end - from <= MAX_AWAIT_FRAME_BYTES + 1
      invariant forall i :: from <= i < end - 1 ==> stream[i] != NEWLINE
    {
      end := end + 1;
    }
    bytes := stream[from..end];
    LimitedLine(stream[from..], end - from);
    assert stream[from..][..end - from] == bytes;
  }

  /** The line itself if it is short enough, and otherwise more than a frame may have. */
  function Limited(line: seq<byte>): seq<byte> {
    line[..Min(|line|, MAX_AWAIT_FRAME_BYTES + 1)]
  }

  lemma LimitedLine(stream: seq<byte>, n: nat)
    requires n <= |stream| && n <= MAX_AWAIT_FRAME_BYTES + 1
    requires forall i :: 0 <= i < n - 1 ==> stream[i] != NEWLINE
    requires n == |stream| || n == MAX_AWAIT_FRAME_BYTES + 1 || (n > 0 && stream[n - 1] == NEWLINE)
    ensures stream[..n] == Limited(FirstLine(stream))
  {
    if stream != [] {
      LineEndIsLine(stream, 0);
      assert LineEnd(stream, 0) >= n;
    }
  }

  /** What one frame tells the client. */
  lemma {:induction false} ReceivedFirst(wire: FrameCodec, parse: ResponseParser, stream: seq<byte>, waiting: bool)
    ensures
      var bytes := Limited(FirstLine(stream));
      Received(wire, parse, stream, waiting)
      == if |bytes| > MAX_AWAIT_FRAME_BYTES then ReplyTooLarge
         else if !Terminated(bytes) then if waiting then ConnectionLost else ClassifyInitialEnd(parse, bytes)
         else match wire.decode(bytes)
           case None => UnexpectedResponse
           case Some(PostedAt(url)) => Success(url)
           case Some(Error(message)) => Daemon(message)
           case Some(Waiting(_)) => Received(wire, parse, stream[|bytes|..], true)
  {
    hide FirstLine;
    var line := FirstLine(stream);
    assert |line| <= MAX_AWAIT_FRAME_BYTES ==> line[..|line|] == line;
  }

  /** Consume frames until a URL or an error arrives, or the stream ends. */
  method Receive(wire: FrameCodec, parse: ResponseParser, stream: seq<byte>) returns (result: ClientResult)
    ensures result == Received(wire, parse, stream, false)
  {
    hide Received, FirstLine, Limited;
    var from, waiting := 0, false;
    assert stream[0..] == stream;
    while true
      invariant from <= |stream|
      invariant Received(wire, parse, stream, false) == Received(wire, parse, stream[from..], waiting)
      decreases |stream| - from
    {
      var bytes := ReadFrame(stream, from);
      ReceivedFirst(wire, parse, stream[from..], waiting);
      if |bytes| > MAX_AWAIT_FRAME_BYTES {
        return ReplyTooLarge;
      }
      if !Terminated(bytes) {
        return if waiting then ConnectionLost else ClassifyInitialEnd(parse, bytes);
      }
      match wire.decode(bytes) {
        case None => return UnexpectedResponse;
        case Some(PostedAt(url)) => return Success(url);
        case Some(Error(message)) => return Daemon(message);
        case Some(Waiting(_)) =>
          assert stream[from..][|bytes|..] == stream[from + |bytes|..];
          from, waiting := from + |bytes|, true;
      }
    }
  }

  // The daemon's stream, cut at any byte.

  function Frame(wire: FrameCodec, e: AwaitEvent): seq<byte> {
    wire.encode(e) + [NEWLINE]
  }

  function Stream(wire: FrameCodec, frames: seq<AwaitEvent>): seq<byte> {
    if frames == [] then [] else Frame(wire, frames[0]) + Stream(wire, frames[1..])
  }

  /** How many frames lie wholly within the first `k` bytes. */
  function Whole(wire: FrameCodec, frames: seq<AwaitEvent>, k: nat): (n: nat)
    ensures n <= |frames|
  {
    if frames == [] || k < |Frame(wire, frames[0])| then 0 else 1 + Whole(wire, frames[1..], k - |Frame(wire, frames[0])|)
  }

  /** What a client should conclude from a daemon's stream cut after `k` bytes. */
  function Concluded(wire: FrameCodec, parse: ResponseParser, frames: seq<AwaitEvent>, k: nat, waiting: bool): ClientResult
    requires k <= |Stream(wire, frames)|
  {
    var n := Whole(wire, frames, k);
    if n > 0 && frames[n - 1].PostedAt? then Success(frames[n - 1].commentUrl)
    else if n > 0 && frames[n - 1].Error? then Daemon(frames[n - 1].message)
    else if n > 0 || waiting then ConnectionLost
    else ClassifyInitialEnd(parse, Stream(wire, frames)[..k])
  }

  lemma FrameFacts(wire: FrameCodec, e: AwaitEvent)
    requires LawfulFrames(wire) && Fits(wire, e)
    ensures NEWLINE !in wire.encode(e) && wire.decode(Frame(wire, e)) == Some(e) && 0 < |Frame(wire, e)| <= MAX_AWAIT_FRAME_BYTES
  {
  }

  lemma {:induction false} CutStream(wire: FrameCodec, parse: ResponseParser, frames: seq<AwaitEvent>, k: nat, waiting: bool)
    requires LawfulFrames(wire) && WellFormed(frames) && (forall i :: 0 <= i < |frames| ==> Fits(wire, frames[i]))
    requires k <= |Stream(wire, frames)|
    ensures Received(wire, parse, Stream(wire, frames)[..k], waiting) == Concluded(wire, parse, frames, k, waiting)
    decreases |frames|
  {
    hide LawfulFrames, Fits, FirstLine;
    var cut := Stream(wire, frames)[..k];
    if frames == [] {
      FirstLineIs(cut, 0);
    } else {
      var e := frames[0];
      var frame := Frame(wire, e);
      FrameFacts(wire, e);
      if k < |frame| {
        assert cut == wire.encode(e)[..k];
        FirstLineIs(cut, k);
        assert FirstLine(cut) == cut;
      } else {
        var rest := Stream(wire, frames[1..])[..k - |frame|];
        assert cut == frame + rest;
        assert cut[..|frame| - 1] == wire.encode(e);
        FirstLineIs(cut, |frame| - 1);
        assert cut[|frame|..] == rest;
        if IsTerminal(e) {
          assert |frames| == 1;
        } else {
          CutStream(wire, parse, frames[1..], k - |frame|, true);
        }
      }
    }
  }

  lemma {:induction false} WholeAll(wire: FrameCodec, frames: seq<AwaitEvent>, k: nat)
    requires k <= |Stream(wire, frames)|
    ensures Whole(wire, frames, k) == |frames| <==> k == |Stream(wire, frames)|
    decreases |frames|
  {
    if frames != [] && k >= |Frame(wire, frames[0])| {
      WholeAll(wire, frames[1..], k - |Frame(wire, frames[0])|);
    }
  }

  /**
  For a daemon's stream cut after any number of bytes, the client reports
  success exactly if a whole URL frame arrived, with that URL. It reports the
  daemon's error exactly if a whole error frame arrived. Otherwise the
  connection is lost if a progress frame came first, and else there was no
  proper first reply.
  */
  lemma SuccessIffUrlArrived(wire: FrameCodec, parse: ResponseParser, frames: seq<AwaitEvent>, k: nat)
    requires LawfulFrames(wire) && WellFormed(frames) && (forall i :: 0 <= i < |frames| ==> Fits(wire, frames[i]))
    requires k <= |Stream(wire, frames)|
    ensures
      var result := Received(wire, parse, Stream(wire, frames)[..k], false);
      var ended := k == |Stream(wire, frames)| && frames != [];
      && (forall url :: result == Success(url) <==> ended && frames[|frames| - 1] == PostedAt(url))
      && (forall message :: result == Daemon(message) <==> ended && frames[|frames| - 1] == Error(message))
      && (!(ended && IsTerminal(frames[|frames| - 1])) ==>
        if Whole(wire, frames, k) > 0 then result == ConnectionLost
        else
          var bytes := Stream(wire, frames)[..k];
          && (result == NoInitialReply <==> parse(bytes).None?)
          && (result == UnexpectedResponse <==> parse(bytes) == Some(Ok))
          && (forall message :: result == AwaitRejected(message) <==> parse(bytes) == Some(Rejected(message))))
  {
    hide LawfulFrames, Fits, Received, Whole;
    CutStream(wire, parse, frames, k, false);
    WholeAll(wire, frames, k);
  }
}
