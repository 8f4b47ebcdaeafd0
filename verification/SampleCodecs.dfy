/**
Encodings that satisfy what the model takes from JSON, so that nothing proved
for lawful encodings holds for want of one.
*/
module SampleCodecs {
  import opened Base
  import opened HistoryLog
  import opened AwaitHandler

  // Records: fields in unary, each closed by its own byte.

  /** `n` ones and a two. */
  function Unary(n: nat): (s: seq<byte>)
    ensures s != [] && forall b :: b in s ==> 1 <= b <= 2
    ensures |s| == n + 1
  {
    if n == 0 then [2] else [1] + Unary(n - 1)
  }

  function Field(xs: seq<nat>): (s: seq<byte>)
    ensures s != [] && s[|s| - 1] == 3 && forall b :: b in s ==> 1 <= b <= 3
  {
    if xs == [] then [3] else Unary(xs[0]) + Field(xs[1..])
  }

  function Fields(fields: seq<seq<nat>>): (s: seq<byte>)
    ensures forall b :: b in s ==> 1 <= b <= 3
    ensures fields != [] ==> s != [] && s[|s| - 1] == 3
  {
    if fields == [] then [] else Field(fields[0]) + Fields(fields[1..])
  }

  lemma {:induction false} UnaryPrefix(m: nat, n: nat, s: seq<byte>, t: seq<byte>)
    requires Unary(m) + s <= Unary(n) + t
    ensures m == n && s <= t
  {
    var a, b := Unary(m) + s, Unary(n) + t;
    assert a[0] == b[0];
    assert a[1..] <= b[1..];
    if m == 0 {
      assert n == 0;
      assert a[1..] == s && b[1..] == t;
    } else {
      assert n > 0;
      assert a[1..] == Unary(m - 1) + s && b[1..] == Unary(n - 1) + t;
      UnaryPrefix(m - 1, n - 1, s, t);
    }
  }

  lemma {:induction false} FieldPrefix(xs: seq<nat>, ys: seq<nat>, s: seq<byte>, t: seq<byte>)
    requires Field(xs) + s <= Field(ys) + t
    ensures xs == ys && s <= t
    decreases |xs|
  {
    var a, b := Field(xs) + s, Field(ys) + t;
    assert a[0] == b[0];
    if xs == [] {
      assert ys == [] by { FirstOfField(ys); }
      assert a[1..] == s && b[1..] == t;
    } else {
      assert ys != [] by { FirstOfField(xs); }
      assert a == Unary(xs[0]) + (Field(xs[1..]) + s) && b == Unary(ys[0]) + (Field(ys[1..]) + t);
      UnaryPrefix(xs[0], ys[0], Field(xs[1..]) + s, Field(ys[1..]) + t);
      FieldPrefix(xs[1..], ys[1..], s, t);
      assert xs == [xs[0]] + xs[1..] && ys == [ys[0]] + ys[1..];
    }
  }

  lemma FirstOfField(xs: seq<nat>)
    ensures Field(xs)[0] == 3 <==> xs == []
  {
    if xs != [] {
      assert Field(xs)[0] == Unary(xs[0])[0];
      assert Unary(xs[0])[0] in Unary(xs[0]);
    }
  }

  lemma {:induction false} FieldsPrefix(xs: seq<seq<nat>>, ys: seq<seq<nat>>)
    requires |xs| == |ys| && Fields(xs) <= Fields(ys)
    ensures xs == ys
    decreases |xs|
  {
    if xs != [] {
      FieldPrefix(xs[0], ys[0], Fields(xs[1..]), Fields(ys[1..]));
      FieldsPrefix(xs[1..], ys[1..]);
      assert xs == [xs[0]] + xs[1..] && ys == [ys[0]] + ys[1..];
    }
  }

  function Codes(s: string): (xs: seq<nat>)
    ensures |xs| == |s| && forall i :: 0 <= i < |s| ==> xs[i] == s[i] as nat
  {
    seq(|s|, i requires 0 <= i < |s| => s[i] as nat)
  }

  lemma CodesInjective(a: string, b: string)
    requires Codes(a) == Codes(b)
    ensures a == b
  {
    assert |a| == |b|;
    forall i | 0 <= i < |a| ensures a[i] == b[i] {
      assert Codes(a)[i] == Codes(b)[i];
    }
  }

  function OptionCodes(o: Option<string>): seq<nat> {
    match o case None => [] case Some(s) => [0] + Codes(s)
  }

  lemma OptionCodesInjective(a: Option<string>, b: Option<string>)
    requires OptionCodes(a) == OptionCodes(b)
    ensures a == b
  {
    if a.Some? && b.Some? {
      assert OptionCodes(a)[1..] == Codes(a.value) && OptionCodes(b)[1..] == Codes(b.value);
      CodesInjective(a.value, b.value);
    }
  }

  function RecordFields(r: HistoryRecord): (fields: seq<seq<nat>>)
    ensures |fields| == 12
  {
    var q := r.request;
    [Codes(r.attemptId), Codes(r.id), [r.postedAt as nat], [if r.success then 1 else 0], OptionCodes(r.error),
     Codes(r.tokenHash), OptionCodes(r.commentUrl), Codes(r.incarnation),
     Codes(q.owner), Codes(q.repo), [q.prNumber as nat], Codes(q.body)]
  }

  lemma RecordFieldsInjective(a: HistoryRecord, b: HistoryRecord)
    requires RecordFields(a) == RecordFields(b)
    ensures a == b
  {
    hide Codes, OptionCodes;
    var f, g := RecordFields(a), RecordFields(b);
    assert forall i :: 0 <= i < 12 ==> f[i] == g[i];
    CodesInjective(a.attemptId, b.attemptId);
    CodesInjective(a.id, b.id);
    assert f[2] == g[2] && f[2][0] == g[2][0];
    assert f[3] == g[3] && f[3][0] == g[3][0];
    OptionCodesInjective(a.error, b.error);
    CodesInjective(a.tokenHash, b.tokenHash);
    OptionCodesInjective(a.commentUrl, b.commentUrl);
    CodesInjective(a.incarnation, b.incarnation);
    CodesInjective(a.request.owner, b.request.owner);
    CodesInjective(a.request.repo, b.request.repo);
    assert f[10] == g[10] && f[10][0] == g[10][0];
    CodesInjective(a.request.body, b.request.body);
  }

  function EncodeRecord(r: HistoryRecord): seq<byte> {
    Fields(RecordFields(r))
  }

  /** A line without its trailing newlines. */
  function Stripped(l: seq<byte>): (s: seq<byte>)
    ensures s <= l
    ensures s == [] || s[|s| - 1] != NEWLINE
  {
    if l != [] && l[|l| - 1] == NEWLINE then Stripped(l[..|l| - 1]) else l
  }

  ghost function DecodeRecord(l: seq<byte>): Option<HistoryRecord> {
    if exists r :: EncodeRecord(r) == Stripped(l) then
      var r :| EncodeRecord(r) == Stripped(l);
      Some(r)
    else None
  }

  ghost function RecordCodec(): Codec {
    Codec(r => EncodeRecord(r), l => DecodeRecord(l))
  }

  lemma EncodedPrefix(a: HistoryRecord, b: HistoryRecord)
    requires EncodeRecord(a) <= EncodeRecord(b)
    ensures a == b
  {
    hide RecordFields;
    FieldsPrefix(RecordFields(a), RecordFields(b));
    RecordFieldsInjective(a, b);
  }

  /** Some encoding of records is lawful. */
  lemma RecordCodecIsLawful()
    ensures Lawful(RecordCodec())
  {
    hide EncodeRecord, Fields;
    var c := RecordCodec();
    forall r ensures NEWLINE !in c.encode(r) && c.decode(c.encode(r)) == Some(r) {
      DecodedEncoded(r);
    }
    forall r, k | 0 <= k < |c.encode(r)| ensures c.decode(c.encode(r)[..k]) == None {
      PrefixUndecoded(r, k);
    }
    forall l | AllWhitespace(l) ensures c.decode(l) == None {
      BlankUndecoded(l);
    }
    forall l ensures c.decode(l + [NEWLINE]) == c.decode(l) {
      assert (l + [NEWLINE])[..|l + [NEWLINE]| - 1] == l;
      assert Stripped(l + [NEWLINE]) == Stripped(l);
    }
  }

  lemma DecodedEncoded(r: HistoryRecord)
    ensures NEWLINE !in EncodeRecord(r) && DecodeRecord(EncodeRecord(r)) == Some(r)
  {
    hide RecordFields;
    var l := EncodeRecord(r);
    assert Stripped(l) == l;
    var r' := DecodeRecord(l).value;
    EncodedPrefix(r', r);
  }

  lemma PrefixUndecoded(r: HistoryRecord, k: nat)
    requires k < |EncodeRecord(r)|
    ensures DecodeRecord(EncodeRecord(r)[..k]) == None
  {
    hide RecordFields, Fields;
    var l := EncodeRecord(r)[..k];
    if r' :| EncodeRecord(r') == Stripped(l) {
      EncodedPrefix(r', r);
    }
  }

  lemma BlankUndecoded(l: seq<byte>)
    requires AllWhitespace(l)
    ensures DecodeRecord(l) == None
  {
    hide RecordFields;
    forall r ensures EncodeRecord(r) != Stripped(l) {
      assert EncodeRecord(r)[0] in EncodeRecord(r);
    }
  }

  /** Fields of low character codes have short encodings. */
  lemma {:induction false} FieldSize(xs: seq<nat>)
    requires forall x :: x in xs ==> x < 100
    ensures |Field(xs)| <= 100 * |xs| + 1
  {
    if xs != [] {
      assert xs[0] in xs;
      assert forall x :: x in xs[1..] ==> x in xs;
      FieldSize(xs[1..]);
    }
  }

  // Frames: a tag and hexadecimal digits.

  function Hex(n: nat, width: nat): (s: seq<byte>)
    ensures |s| == width && forall b :: b in s ==> 48 <= b < 64
  {
    if width == 0 then [] else Hex(n / 16, width - 1) + [48 + n % 16]
  }

  function Power16(width: nat): nat {
    if width == 0 then 1 else 16 * Power16(width - 1)
  }

  lemma {:induction false} HexInjective(m: nat, n: nat, width: nat)
    requires m < Power16(width) && n < Power16(width) && Hex(m, width) == Hex(n, width)
    ensures m == n
    decreases width
  {
    if width > 0 {
      var a, b := Hex(m, width), Hex(n, width);
      assert a[width - 1] == 48 + m % 16 && b[width - 1] == 48 + n % 16;
      assert a[..width - 1] == Hex(m / 16, width - 1) && b[..width - 1] == Hex(n / 16, width - 1);
      HexInjective(m / 16, n / 16, width - 1);
    }
  }

  function HexText(s: string): (t: seq<byte>)
    ensures |t| == 6 * |s| && forall b :: b in t ==> 48 <= b < 64
  {
    if s == [] then [] else Hex(s[0] as nat, 6) + HexText(s[1..])
  }

  lemma {:induction false} HexTextInjective(a: string, b: string)
    requires HexText(a) == HexText(b)
    ensures a == b
    decreases |a|
  {
    if a != [] {
      var s, t := HexText(a), HexText(b);
      assert s[..6] == Hex(a[0] as nat, 6) && t[..6] == Hex(b[0] as nat, 6);
      assert s[6..] == HexText(a[1..]) && t[6..] == HexText(b[1..]);
      HexInjective(a[0] as nat, b[0] as nat, 6);
      HexTextInjective(a[1..], b[1..]);
      assert a == [a[0]] + a[1..] && b == [b[0]] + b[1..];
    }
  }

  function EncodeFrame(e: AwaitEvent): seq<byte> {
    match e
    case Waiting(eta) => [1] + Hex(eta as nat, 16)
    case PostedAt(url) => [2] + HexText(url)
    case Error(message) => [3] + HexText(message)
  }

  lemma EncodeFrameInjective(a: AwaitEvent, b: AwaitEvent)
    requires EncodeFrame(a) == EncodeFrame(b)
    ensures a == b
  {
    var s, t := EncodeFrame(a), EncodeFrame(b);
    assert s[0] == t[0] && s[1..] == t[1..];
    match a
    case Waiting(eta) =>
      assert s[1..] == Hex(eta as nat, 16) && t[1..] == Hex(b.etaSeconds as nat, 16);
      U64Fits();
      HexInjective(eta as nat, b.etaSeconds as nat, 16);
    case PostedAt(url) =>
      assert s[1..] == HexText(url) && t[1..] == HexText(b.commentUrl);
      HexTextInjective(url, b.commentUrl);
    case Error(message) =>
      assert s[1..] == HexText(message) && t[1..] == HexText(b.message);
      HexTextInjective(message, b.message);
  }

  lemma U64Fits()
    ensures Power16(16) == U64_MAX + 1
  {
    assert Power16(4) == 65536;
    assert Power16(8) == 4294967296;
    assert Power16(12) == 281474976710656;
  }

  ghost function DecodeFrame(l: seq<byte>): Option<AwaitEvent> {
    if exists e :: EncodeFrame(e) + [NEWLINE] == l then
      var e :| EncodeFrame(e) + [NEWLINE] == l;
      Some(e)
    else None
  }

  ghost function Frames(): FrameCodec {
    FrameCodec(e => EncodeFrame(e), l => DecodeFrame(l))
  }

  /** Some encoding of frames is lawful. */
  lemma FramesAreLawful()
    ensures LawfulFrames(Frames())
  {
    hide Hex, HexText;
    forall e ensures NEWLINE !in EncodeFrame(e) && DecodeFrame(EncodeFrame(e) + [NEWLINE]) == Some(e) {
      FrameDecoded(e);
    }
  }

  lemma FrameDecoded(e: AwaitEvent)
    ensures NEWLINE !in EncodeFrame(e) && DecodeFrame(EncodeFrame(e) + [NEWLINE]) == Some(e)
  {
    hide Hex, HexText;
    var l := EncodeFrame(e) + [NEWLINE];
    var e' := DecodeFrame(l).value;
    assert l[..|l| - 1] == EncodeFrame(e);
    assert (EncodeFrame(e') + [NEWLINE])[..|l| - 1] == EncodeFrame(e');
    EncodeFrameInjective(e', e);
  }
}
