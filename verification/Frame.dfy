/** RMP v0 frames: big-endian header codec, length-prefixed frames and message expiry. */
module Frame {
  type byte = n: int | 0 <= n < 256
  type u16 = n: int | 0 <= n < 0x1_0000
  type u32 = n: int | 0 <= n < 0x1_0000_0000
  type u64 = n: int | 0 <= n < 0x1_0000_0000_0000_0000
  type u128 = n: int | 0 <= n < 0x1_0000_0000_0000_0000_0000_0000_0000_0000

  const MAGIC: seq<byte> := [0x52, 0x4D, 0x50, 0x30]
  const MAGIC_WORD: u32 := 0x524D_5030
  const HEADER_VERSION: u16 := 0
  const HEADER_LEN: u16 := 64
  const U64_MAX := 0xFFFF_FFFF_FFFF_FFFF

  datatype Header = Header(
    headerVersion: u16, headerLen: u16, flags: u32, schemaId: u16, bodyLen: u32,
    createdAtMs: u64, ttlMs: u64, traceId: u128, msgId: u64)

  datatype DecodeError =
    | Oversized(length: u32) | Truncated | Incomplete | InvalidMagic(magic: seq<byte>)
    | Unsupported(version: nat, headerLength: nat) | InvalidHeaderFlags(bits: nat)
    | LengthMismatch(declared: u32, actual: u32)

  datatype Result<T, E> = Ok(value: T) | Err(error: E)

  // ----- big-endian integers

  function Pow256(w: nat): nat {
    if w == 0 then 1 else 256 * Pow256(w - 1)
  }

  function ToBE(n: nat, w: nat): (s: seq<byte>)
    ensures |s| == w
  {
    if w == 0 then [] else ToBE(n / 256, w - 1) + [n % 256]
  }

  function FromBE(s: seq<byte>): nat {
    if s == [] then 0 else 256 * FromBE(s[..|s| - 1]) + s[|s| - 1]
  }

  lemma {:induction false} FromBEBound(s: seq<byte>)
    ensures FromBE(s) < Pow256(|s|)
  {
    if s != [] {
      FromBEBound(s[..|s| - 1]);
    }
  }

  lemma {:induction false} ReadWritten(n: nat, w: nat)
    requires n < Pow256(w)
    ensures FromBE(ToBE(n, w)) == n
  {
    if w > 0 {
      ReadWritten(n / 256, w - 1);
      assert ToBE(n, w)[..w - 1] == ToBE(n / 256, w - 1);
    }
  }

  lemma {:induction false} WriteRead(s: seq<byte>)
    ensures ToBE(FromBE(s), |s|) == s
  {
    if s != [] {
      WriteRead(s[..|s| - 1]);
      assert s == s[..|s| - 1] + [s[|s| - 1]];
    }
  }

  lemma Widths()
    ensures Pow256(2) == 0x1_0000 && Pow256(4) == 0x1_0000_0000 && Pow256(8) == 0x1_0000_0000_0000_0000
    ensures Pow256(16) == 0x1_0000_0000_0000_0000_0000_0000_0000_0000
  {
    assert Pow256(8) == 0x1_0000_0000 * Pow256(4);
    assert Pow256(16) == 0x1_0000_0000_0000_0000 * Pow256(8);
  }

  // ----- fixed-width fields, written and read in order

  function Total(widths: seq<nat>): nat {
    if widths == [] then 0 else widths[0] + Total(widths[1..])
  }

  function WriteFields(values: seq<nat>, widths: seq<nat>): (s: seq<byte>)
    requires |values| == |widths|
    ensures |s| == Total(widths)
  {
    if values == [] then [] else ToBE(values[0], widths[0]) + WriteFields(values[1..], widths[1..])
  }

  /** Reads the fields with a cursor that advances by each width. */
  function ReadFields(s: seq<byte>, widths: seq<nat>): (values: seq<nat>)
    requires Total(widths) <= |s|
    ensures |values| == |widths|
  {
    if widths == [] then [] else [FromBE(s[..widths[0]])] + ReadFields(s[widths[0]..], widths[1..])
  }

  lemma {:induction false} ReadInWidth(s: seq<byte>, widths: seq<nat>)
    requires Total(widths) <= |s|
    ensures forall k :: 0 <= k < |widths| ==> ReadFields(s, widths)[k] < Pow256(widths[k])
  {
    if widths != [] {
      FromBEBound(s[..widths[0]]);
      ReadInWidth(s[widths[0]..], widths[1..]);
    }
  }

  lemma {:induction false} FieldsReadBack(values: seq<nat>, widths: seq<nat>, rest: seq<byte>)
    requires |values| == |widths| && forall k :: 0 <= k < |values| ==> values[k] < Pow256(widths[k])
    ensures ReadFields(WriteFields(values, widths) + rest, widths) == values
  {
    if values != [] {
      var first, others := ToBE(values[0], widths[0]), WriteFields(values[1..], widths[1..]);
      FieldsReadBack(values[1..], widths[1..], rest);
      ReadWritten(values[0], widths[0]);
      assert WriteFields(values, widths) + rest == first + (others + rest);
      ReadFirst(first, others + rest, widths);
    }
  }

  lemma ReadFirst(first: seq<byte>, tail: seq<byte>, widths: seq<nat>)
    requires widths != [] && |first| == widths[0] && Total(widths[1..]) <= |tail|
    ensures ReadFields(first + tail, widths) == [FromBE(first)] + ReadFields(tail, widths[1..])
  {
    CutAfter(first, tail);
  }

  lemma CutAfter(a: seq<byte>, b: seq<byte>)
    ensures (a + b)[..|a|] == a && (a + b)[|a|..] == b
  {
  }

  lemma {:induction false} FieldsWriteBack(s: seq<byte>, widths: seq<nat>)
    requires Total(widths) <= |s|
    ensures WriteFields(ReadFields(s, widths), widths) == s[..Total(widths)]
  {
    if widths != [] {
      WriteRead(s[..widths[0]]);
      FieldsWriteBack(s[widths[0]..], widths[1..]);
      assert s[..Total(widths)] == s[..widths[0]] + s[widths[0]..][..Total(widths[1..])];
    }
  }

  // ----- header

  /** Magic, version, header length, flags, schema, reserved, body length, created, ttl, trace, message, reserved. */
  const WIDTHS: seq<nat> := [4, 2, 2, 4, 2, 2, 4, 8, 8, 16, 8, 4]

  lemma HeaderWidth()
    ensures Total(WIDTHS) == 64 == HEADER_LEN
  {
    assert WIDTHS[1..] == [2, 2, 4, 2, 2, 4, 8, 8, 16, 8, 4];
    assert Total([2, 2, 4, 2, 2, 4, 8, 8, 16, 8, 4]) == 60;
  }

  function Fields(h: Header): (values: seq<nat>) {
    [MAGIC_WORD, h.headerVersion, h.headerLen, h.flags, h.schemaId, 0,
     h.bodyLen, h.createdAtMs, h.ttlMs, h.traceId, h.msgId, 0]
  }

  ghost predicate InWidth(f: seq<nat>) {
    |f| == |WIDTHS| && forall k :: 0 <= k < |f| ==> f[k] < Pow256(WIDTHS[k])
  }

  lemma FieldsInWidth(h: Header)
    ensures InWidth(Fields(h))
  {
    Widths();
  }

  /** What the widths say about twelve fields read from the wire. */
  lemma FieldRanges(f: seq<nat>)
    requires InWidth(f)
    ensures f[0] < 0x1_0000_0000 && f[1] < 0x1_0000 && f[2] < 0x1_0000 && f[3] < 0x1_0000_0000
    ensures f[4] < 0x1_0000 && f[5] < 0x1_0000 && f[6] < 0x1_0000_0000
    ensures f[7] < 0x1_0000_0000_0000_0000 && f[8] < 0x1_0000_0000_0000_0000
    ensures f[9] < 0x1_0000_0000_0000_0000_0000_0000_0000_0000
    ensures f[10] < 0x1_0000_0000_0000_0000 && f[11] < 0x1_0000_0000
  {
    Widths();
  }

  function HeaderOf(f: seq<nat>): Header
    requires InWidth(f)
  {
    FieldRanges(f);
    Header(f[1], f[2], f[3], f[4], f[6], f[7], f[8], f[9], f[10])
  }

  /** Twelve fields with the magic and the two zero words in place are those of their header. */
  lemma FieldsOf(f: seq<nat>)
    requires InWidth(f) && f[0] == MAGIC_WORD && f[5] == 0 && f[11] == 0
    ensures Fields(HeaderOf(f)) == f
  {
  }

  function EncodeHeader(h: Header): (s: seq<byte>)
    ensures |s| == HEADER_LEN
  {
    HeaderWidth();
    WriteFields(Fields(h), WIDTHS)
  }

  /** The fields on the wire, before they are checked. */
  function ReadHeader(s: seq<byte>): (f: seq<nat>)
    requires |s| >= HEADER_LEN
    ensures InWidth(f)
  {
    HeaderWidth();
    ReadInWidth(s, WIDTHS);
    ReadFields(s, WIDTHS)
  }

  function DecodeHeader(s: seq<byte>): Result<Header, DecodeError> {
    if |s| < HEADER_LEN then Err(Truncated)
    else if s[..4] != MAGIC then Err(InvalidMagic(s[..4]))
    else CheckFields(ReadHeader(s))
  }

  /** The checks after the magic, in the order of the fields that fail them. */
  function CheckFields(f: seq<nat>): Result<Header, DecodeError>
    requires InWidth(f)
  {
    if f[1] != HEADER_VERSION || f[2] != HEADER_LEN then Err(Unsupported(f[1], f[2]))
    else if f[3] != 0 then Err(InvalidHeaderFlags(f[3]))
    else if f[5] != 0 then Err(InvalidHeaderFlags(f[5]))
    else if f[11] != 0 then Err(InvalidHeaderFlags(f[11]))
    else Ok(HeaderOf(f))
  }

  /** The header of protocol version 0. */
  predicate V0(h: Header) {
    h.headerVersion == HEADER_VERSION && h.headerLen == HEADER_LEN && h.flags == 0
  }

  lemma MagicWord()
    ensures FromBE(MAGIC) == MAGIC_WORD
  {
    var a: seq<byte>, b: seq<byte>, c: seq<byte> := [0x52], [0x52, 0x4D], [0x52, 0x4D, 0x50];
    assert a[..0] == [] && b[..1] == a && c[..2] == b && MAGIC[..3] == c;
    assert FromBE(a) == 0x52 && FromBE(b) == 0x524D && FromBE(c) == 0x52_4D50;
  }

  lemma MagicFirst(s: seq<byte>)
    requires |s| >= HEADER_LEN
    ensures Total(WIDTHS) <= |s|
    ensures s[..4] == MAGIC <==> ReadHeader(s)[0] == MAGIC_WORD
  {
    HeaderWidth();
    WriteRead(s[..4]);
    WriteRead(MAGIC);
    MagicWord();
  }

  /** Decoding an encoded header, whatever follows it: accepted exactly for version 0, and then unchanged. */
  lemma HeaderReadBack(h: Header, rest: seq<byte>)
    ensures V0(h) ==> DecodeHeader(EncodeHeader(h) + rest) == Ok(h)
    ensures !V0(h) ==> DecodeHeader(EncodeHeader(h) + rest) ==
                       Err(if h.headerVersion != HEADER_VERSION || h.headerLen != HEADER_LEN
                           then Unsupported(h.headerVersion, h.headerLen) else InvalidHeaderFlags(h.flags))
  {
    WireReadBack(h, rest);
    MagicFirst(EncodeHeader(h) + rest);
    FieldsChecked(h);
  }

  lemma FieldsChecked(h: Header)
    ensures InWidth(Fields(h))
    ensures V0(h) ==> CheckFields(Fields(h)) == Ok(h)
    ensures !V0(h) ==> CheckFields(Fields(h)) ==
                       Err(if h.headerVersion != HEADER_VERSION || h.headerLen != HEADER_LEN
                           then Unsupported(h.headerVersion, h.headerLen) else InvalidHeaderFlags(h.flags))
  {
    FieldsInWidth(h);
    assert HeaderOf(Fields(h)) == h;
  }

  lemma WireReadBack(h: Header, rest: seq<byte>)
    ensures ReadHeader(EncodeHeader(h) + rest) == Fields(h)
  {
    HeaderWidth();
    FieldsInWidth(h);
    FieldsReadBack(Fields(h), WIDTHS, rest);
  }

  lemma WireWriteBack(s: seq<byte>)
    requires |s| >= HEADER_LEN
    ensures Total(WIDTHS) == HEADER_LEN && WriteFields(ReadHeader(s), WIDTHS) == s[..HEADER_LEN]
  {
    HeaderWidth();
    FieldsWriteBack(s, WIDTHS);
  }

  lemma CheckedFields(f: seq<nat>)
    requires InWidth(f) && f[0] == MAGIC_WORD && CheckFields(f).Ok?
    ensures V0(CheckFields(f).value) && Fields(CheckFields(f).value) == f
  {
    FieldsOf(f);
  }

  /** An accepted header is version 0 and re-encodes to its own bytes. */
  lemma HeaderExact(s: seq<byte>)
    requires DecodeHeader(s).Ok?
    ensures |s| >= HEADER_LEN && V0(DecodeHeader(s).value)
    ensures EncodeHeader(DecodeHeader(s).value) == s[..HEADER_LEN]
  {
    MagicFirst(s);
    WireWriteBack(s);
    CheckedFields(ReadHeader(s));
  }

  // ----- layout

  /** The number that bytes stand for, most significant first. */
  ghost function Weighted(s: seq<byte>): nat {
    if s == [] then 0 else s[0] * Pow256(|s| - 1) + Weighted(s[1..])
  }

  lemma {:induction false} WeightedLast(s: seq<byte>, last: byte)
    ensures Weighted(s + [last]) == 256 * Weighted(s) + last
  {
    if s == [] {
      assert Weighted([last][1..]) == 0 && Pow256(0) == 1;
    } else {
      WeightedLast(s[1..], last);
      assert (s + [last])[1..] == s[1..] + [last];
      assert Pow256(|s|) == 256 * Pow256(|s| - 1);
    }
  }

  lemma {:induction false} WrittenWeighs(n: nat, w: nat)
    requires n < Pow256(w)
    ensures Weighted(ToBE(n, w)) == n
  {
    if w > 0 {
      WrittenWeighs(n / 256, w - 1);
      WeightedLast(ToBE(n / 256, w - 1), n % 256);
    }
  }

  lemma {:induction false} TotalLast(widths: seq<nat>, w: nat)
    ensures Total(widths + [w]) == Total(widths) + w
  {
    if widths == [] {
      assert Total([w][1..]) == 0;
    } else {
      TotalLast(widths[1..], w);
      assert (widths + [w])[1..] == widths[1..] + [w];
    }
  }

  lemma {:induction false} FieldAt(values: seq<nat>, widths: seq<nat>, k: nat)
    requires k < |values| == |widths|
    ensures var at := Total(widths[..k]);
            at + widths[k] <= Total(widths) && WriteFields(values, widths)[at..at + widths[k]] == ToBE(values[k], widths[k])
  {
    var first, others := ToBE(values[0], widths[0]), WriteFields(values[1..], widths[1..]);
    assert WriteFields(values, widths) == first + others;
    if k > 0 {
      FieldAt(values[1..], widths[1..], k - 1);
      var at := Total(widths[1..][..k - 1]);
      assert widths[..k][1..] == widths[1..][..k - 1];
      assert (first + others)[widths[0] + at..widths[0] + at + widths[k]] == others[at..at + widths[k]];
    }
  }

  const OFFSETS: seq<nat> := [0, 4, 6, 8, 12, 14, 16, 20, 28, 36, 52, 60]

  lemma {:induction false} OffsetAt(k: nat)
    requires k < 12
    ensures Total(WIDTHS[..k]) == OFFSETS[k]
  {
    if k > 0 {
      OffsetAt(k - 1);
      TotalLast(WIDTHS[..k - 1], WIDTHS[k - 1]);
      assert WIDTHS[..k] == WIDTHS[..k - 1] + [WIDTHS[k - 1]];
    }
  }

  ghost predicate Holds(s: seq<byte>, from: nat, to: nat, n: nat) {
    from <= to <= |s| && Weighted(s[from..to]) == n
  }

  lemma FieldHolds(h: Header, k: nat)
    requires k < 12
    ensures Holds(EncodeHeader(h), OFFSETS[k], OFFSETS[k] + WIDTHS[k], Fields(h)[k])
  {
    HeaderWidth();
    FieldsInWidth(h);
    OffsetAt(k);
    FieldAt(Fields(h), WIDTHS, k);
    WrittenWeighs(Fields(h)[k], WIDTHS[k]);
  }

  /** Where each field stands in the 64 bytes of a header, most significant byte first. */
  lemma HeaderLayout(h: Header)
    ensures var s := EncodeHeader(h);
            && |s| == 64 && s[..4] == [0x52, 0x4D, 0x50, 0x30]
            && Holds(s, 4, 6, h.headerVersion) && Holds(s, 6, 8, h.headerLen) && Holds(s, 8, 12, h.flags)
            && Holds(s, 12, 14, h.schemaId) && Holds(s, 14, 16, 0) && Holds(s, 16, 20, h.bodyLen)
            && Holds(s, 20, 28, h.createdAtMs) && Holds(s, 28, 36, h.ttlMs) && Holds(s, 36, 52, h.traceId)
            && Holds(s, 52, 60, h.msgId) && Holds(s, 60, 64, 0)
  {
    WireReadBack(h, []);
    assert EncodeHeader(h) + [] == EncodeHeader(h);
    MagicFirst(EncodeHeader(h));
    FieldHolds(h, 1);
    FieldHolds(h, 2);
    FieldHolds(h, 3);
    FieldHolds(h, 4);
    FieldHolds(h, 5);
    FieldHolds(h, 6);
    FieldHolds(h, 7);
    FieldHolds(h, 8);
    FieldHolds(h, 9);
    FieldHolds(h, 10);
    FieldHolds(h, 11);
  }

  // ----- frames

  datatype Decoded = Decoded(header: Header, body: seq<byte>)

  /** The 32-bit length prefix of a frame. */
  const PREFIX: seq<nat> := [4]

  function EncodeLength(n: u32): (s: seq<byte>)
    ensures |s| == 4
  {
    WriteFields([n], PREFIX)
  }

  function DecodeLength(s: seq<byte>): u32
    requires |s| >= 4
  {
    Widths();
    ReadInWidth(s[..4], PREFIX);
    ReadFields(s[..4], PREFIX)[0]
  }

  lemma LengthReadBack(n: u32)
    ensures DecodeLength(EncodeLength(n)) == n && EncodeLength(n)[..4] == EncodeLength(n)
  {
    Widths();
    FieldsReadBack([n], PREFIX, []);
    assert EncodeLength(n) + [] == EncodeLength(n) == EncodeLength(n)[..4];
  }

  lemma LengthWriteBack(s: seq<byte>)
    requires |s| >= 4
    ensures EncodeLength(DecodeLength(s)) == s[..4]
  {
    FieldsWriteBack(s[..4], PREFIX);
    assert ReadFields(s[..4], PREFIX) == [DecodeLength(s)];
    assert s[..4][..4] == s[..4];
  }

  /** Lengths are cast to 32 bits, which drops higher bits. */
  function EncodeFrame(h: Header, body: seq<byte>): seq<byte> {
    var frameLen := HEADER_LEN + |body|;
    EncodeLength(frameLen % 0x1_0000_0000) + EncodeHeader(h.(bodyLen := |body| % 0x1_0000_0000)) + body
  }

  /** The checks after the header has been decoded. */
  function CheckBody(decoded: Result<Header, DecodeError>, body: seq<byte>, maxLen: u32): Result<Decoded, DecodeError>
    requires |body| < 0x1_0000_0000
  {
    match decoded
    case Err(error) => Err(error)
    case Ok(header) =>
      if header.bodyLen != |body| then Err(LengthMismatch(header.bodyLen, |body|))
      else if header.bodyLen > maxLen then Err(Oversized(header.bodyLen))
      else Ok(Decoded(header, body))
  }

  function DecodeFrame(bytes: seq<byte>, maxLen: u32): Result<Decoded, DecodeError> {
    if |bytes| < 4 then Err(Incomplete)
    else
      var frameLen := DecodeLength(bytes);
      if |bytes| - 4 < frameLen then Err(Incomplete)
      else if frameLen < HEADER_LEN then Err(Truncated)
      else CheckBody(DecodeHeader(bytes[4..4 + HEADER_LEN]), bytes[4 + HEADER_LEN..4 + frameLen], maxLen)
  }

  /** Within 32 bits, the casts change nothing. */
  lemma FrameIs(h: Header, body: seq<byte>, head: seq<byte>)
    requires HEADER_LEN + |body| < 0x1_0000_0000 && head == EncodeHeader(h.(bodyLen := |body|))
    ensures EncodeFrame(h, body) == EncodeLength(HEADER_LEN + |body|) + head + body
  {
    CastFits(|body|);
    CastFits(HEADER_LEN + |body|);
  }

  lemma CastFits(n: nat)
    requires n < 0x1_0000_0000
    ensures n % 0x1_0000_0000 == n
  {
  }

  lemma Parts(a: seq<byte>, b: seq<byte>, c: seq<byte>, rest: seq<byte>)
    ensures var s := a + b + c + rest;
            s[..|a|] == a && s[|a|..|a| + |b|] == b && s[|a| + |b|..|a| + |b| + |c|] == c
  {
  }

  lemma DecodeParts(bytes: seq<byte>, head: seq<byte>, body: seq<byte>, maxLen: u32)
    requires HEADER_LEN + |body| < 0x1_0000_0000 && |bytes| >= 4 + HEADER_LEN + |body|
    requires bytes[..4] == EncodeLength(HEADER_LEN + |body|)
    requires bytes[4..4 + HEADER_LEN] == head && bytes[4 + HEADER_LEN..4 + HEADER_LEN + |body|] == body
    ensures DecodeFrame(bytes, maxLen) == CheckBody(DecodeHeader(head), body, maxLen)
  {
    LengthReadBack(HEADER_LEN + |body|);
    assert DecodeLength(bytes) == DecodeLength(EncodeLength(HEADER_LEN + |body|));
  }

  /** What the decoder does after the length prefix of an encoded frame. */
  lemma FrameDecision(h: Header, body: seq<byte>, rest: seq<byte>, maxLen: u32)
    requires HEADER_LEN + |body| < 0x1_0000_0000
    ensures DecodeFrame(EncodeFrame(h, body) + rest, maxLen) ==
            CheckBody(DecodeHeader(EncodeHeader(h.(bodyLen := |body|))), body, maxLen)
  {
    var length, head := EncodeLength(HEADER_LEN + |body|), EncodeHeader(h.(bodyLen := |body|));
    FrameIs(h, body, head);
    Parts(length, head, body, rest);
    DecodeParts(length + head + body + rest, head, body, maxLen);
  }

  /** A frame decodes to its own header and body exactly when it is version 0, within the limit and within 32 bits. */
  lemma FrameReadBack(h: Header, body: seq<byte>, rest: seq<byte>, maxLen: u32)
    ensures var r := DecodeFrame(EncodeFrame(h, body) + rest, maxLen);
            && (r.Ok? && r.value.body == body <==> V0(h) && |body| <= maxLen && HEADER_LEN + |body| < 0x1_0000_0000)
            && (r.Ok? && r.value.body == body ==> r.value.header == h.(bodyLen := |body|))
  {
    if HEADER_LEN + |body| < 0x1_0000_0000 {
      FrameDecision(h, body, rest, maxLen);
      HeaderReadBack(h.(bodyLen := |body|), []);
      assert EncodeHeader(h.(bodyLen := |body|)) + [] == EncodeHeader(h.(bodyLen := |body|));
    } else if DecodeFrame(EncodeFrame(h, body) + rest, maxLen).Ok? {
      AcceptedParts(EncodeFrame(h, body) + rest, maxLen);
    }
  }

  /** The facts behind an accepted frame. */
  lemma AcceptedParts(bytes: seq<byte>, maxLen: u32)
    requires DecodeFrame(bytes, maxLen).Ok?
    ensures var Decoded(h, body) := DecodeFrame(bytes, maxLen).value;
            && |bytes| >= 4 + HEADER_LEN + |body| && h.bodyLen == |body| <= maxLen
            && HEADER_LEN + |body| < 0x1_0000_0000
            && bytes[..4] == EncodeLength(HEADER_LEN + |body|)
            && DecodeHeader(bytes[4..4 + HEADER_LEN]) == Ok(h)
            && body == bytes[4 + HEADER_LEN..4 + HEADER_LEN + |body|]
  {
    LengthWriteBack(bytes);
  }

  /** On the wire: the length of header and body, the header declaring the body's length, the body. */
  lemma FrameLayout(h: Header, body: seq<byte>)
    requires 64 + |body| < 0x1_0000_0000
    ensures var s := EncodeFrame(h, body);
            && |s| == 68 + |body| && Holds(s, 0, 4, 64 + |body|)
            && s[4..68] == EncodeHeader(h.(bodyLen := |body|)) && s[68..] == body
  {
    var head := EncodeHeader(h.(bodyLen := |body|));
    FrameIs(h, body, head);
    Widths();
    WrittenWeighs(64 + |body|, 4);
    Parts(EncodeLength(64 + |body|), head, body, []);
    assert EncodeFrame(h, body) + [] == EncodeFrame(h, body);
    LengthPrefix(64 + |body|);
  }

  lemma LengthPrefix(n: u32)
    ensures EncodeLength(n) == ToBE(n, 4)
  {
    assert WriteFields([n][1..], PREFIX[1..]) == [];
  }

  lemma ThreeParts(s: seq<byte>, i: nat, j: nat, k: nat)
    requires i <= j <= k <= |s|
    ensures s[..i] + s[i..j] + s[j..k] == s[..k]
  {
  }

  /** Accepted input starts with exactly the encoding of what was decoded. */
  lemma FrameExact(bytes: seq<byte>, maxLen: u32)
    requires DecodeFrame(bytes, maxLen).Ok?
    ensures var Decoded(h, body) := DecodeFrame(bytes, maxLen).value;
            && EncodeFrame(h, body) <= bytes
            && V0(h) && h.bodyLen == |body| <= maxLen && HEADER_LEN + |body| < 0x1_0000_0000
  {
    var Decoded(h, body) := DecodeFrame(bytes, maxLen).value;
    AcceptedParts(bytes, maxLen);
    var head := bytes[4..4 + HEADER_LEN];
    HeaderExact(head);
    assert head[..HEADER_LEN] == head;
    assert h.(bodyLen := |body|) == h;
    FrameIs(h, body, head);
    ThreeParts(bytes, 4, 4 + HEADER_LEN, 4 + HEADER_LEN + |body|);
  }

  lemma ShortOfLength(bytes: seq<byte>, n: u32, maxLen: u32)
    requires |bytes| >= 4 ==> bytes[..4] == EncodeLength(n)
    requires |bytes| < 4 + n
    ensures DecodeFrame(bytes, maxLen) == Err(Incomplete)
  {
    if |bytes| >= 4 {
      LengthReadBack(n);
      assert DecodeLength(bytes) == DecodeLength(EncodeLength(n));
    }
  }

  /** A cut-off frame asks for more bytes, wherever the cut is. */
  lemma ProperPrefixIncomplete(h: Header, body: seq<byte>, k: nat, maxLen: u32)
    requires HEADER_LEN + |body| < 0x1_0000_0000 && k < |EncodeFrame(h, body)|
    ensures DecodeFrame(EncodeFrame(h, body)[..k], maxLen) == Err(Incomplete)
  {
    var length, head := EncodeLength(HEADER_LEN + |body|), EncodeHeader(h.(bodyLen := |body|));
    FrameIs(h, body, head);
    var cut := (length + head + body)[..k];
    assert k >= 4 ==> cut[..4] == length;
    ShortOfLength(cut, HEADER_LEN + |body|, maxLen);
  }

  /** Frames read one after another until the input no longer starts with an acceptable one. */
  ghost function DecodeAll(bytes: seq<byte>, maxLen: u32): (frames: seq<Decoded>)
    decreases |bytes|
  {
    var r := DecodeFrame(bytes, maxLen);
    if r.Err? then []
    else
      FrameExact(bytes, maxLen);
      [r.value] + DecodeAll(bytes[|EncodeFrame(r.value.header, r.value.body)|..], maxLen)
  }

  ghost predicate Acceptable(f: Decoded, maxLen: u32) {
    V0(f.header) && f.header.bodyLen == |f.body| <= maxLen && HEADER_LEN + |f.body| < 0x1_0000_0000
  }

  lemma AcceptableReadBack(f: Decoded, rest: seq<byte>, maxLen: u32)
    requires Acceptable(f, maxLen)
    ensures DecodeFrame(EncodeFrame(f.header, f.body) + rest, maxLen) == Ok(f)
  {
    FrameReadBack(f.header, f.body, rest, maxLen);
    assert f.header.(bodyLen := |f.body|) == f.header;
  }

  /** A reader takes `f` off the front of `wire`, whatever follows. */
  ghost predicate Heads(read: seq<byte> -> seq<Decoded>, wire: seq<byte>, f: Decoded) {
    forall rest: seq<byte> :: read(wire + rest) == [f] + read(rest)
  }

  lemma FrameHeads(f: Decoded, maxLen: u32)
    requires Acceptable(f, maxLen)
    ensures forall rest: seq<byte> :: DecodeAll(EncodeFrame(f.header, f.body) + rest, maxLen) == [f] + DecodeAll(rest, maxLen)
  {
    forall rest: seq<byte> ensures DecodeAll(EncodeFrame(f.header, f.body) + rest, maxLen) == [f] + DecodeAll(rest, maxLen) {
      AcceptableReadBack(f, rest, maxLen);
      DecodeAllTakes(f, EncodeFrame(f.header, f.body), rest, maxLen);
    }
  }

  /** A frame in front is decoded first. */
  lemma DecodeAllTakes(f: Decoded, frame: seq<byte>, rest: seq<byte>, maxLen: u32)
    requires DecodeFrame(frame + rest, maxLen) == Ok(f) && frame == EncodeFrame(f.header, f.body)
    ensures DecodeAll(frame + rest, maxLen) == [f] + DecodeAll(rest, maxLen)
  {
    assert (frame + rest)[|frame|..] == rest;
  }

  lemma DecodeAllStops(bytes: seq<byte>, maxLen: u32)
    requires DecodeFrame(bytes, maxLen).Err?
    ensures DecodeAll(bytes, maxLen) == []
  {
  }

  ghost function Joined(wires: seq<seq<byte>>): seq<byte> {
    if wires == [] then [] else wires[0] + Joined(wires[1..])
  }

  lemma {:induction false} JoinedHeads(read: seq<byte> -> seq<Decoded>, wires: seq<seq<byte>>, frames: seq<Decoded>, tail: seq<byte>)
    requires |wires| == |frames| && read(tail) == []
    requires forall k :: 0 <= k < |wires| ==> Heads(read, wires[k], frames[k])
    ensures read(Joined(wires) + tail) == frames
  {
    if wires == [] {
      assert Joined(wires) + tail == tail;
    } else {
      assert Heads(read, wires[0], frames[0]);
      assert Joined(wires) + tail == wires[0] + (Joined(wires[1..]) + tail);
      JoinedHeads(read, wires[1..], frames[1..], tail);
    }
  }

  ghost function Wires(frames: seq<Decoded>): seq<seq<byte>> {
    seq(|frames|, k requires 0 <= k < |frames| => EncodeFrame(frames[k].header, frames[k].body))
  }

  /** Back-to-back frames, even with a cut-off one at the end, decode to the frames that were sent. */
  lemma StreamReadBack(frames: seq<Decoded>, last: Decoded, k: nat, maxLen: u32)
    requires forall f :: f in frames ==> Acceptable(f, maxLen)
    requires HEADER_LEN + |last.body| < 0x1_0000_0000 && k < |EncodeFrame(last.header, last.body)|
    ensures DecodeAll(Joined(Wires(frames)) + EncodeFrame(last.header, last.body)[..k], maxLen) == frames
  {
    var tail := EncodeFrame(last.header, last.body)[..k];
    ProperPrefixIncomplete(last.header, last.body, k, maxLen);
    DecodeAllStops(tail, maxLen);
    var read := (bytes: seq<byte>) => DecodeAll(bytes, maxLen);
    forall j | 0 <= j < |frames| ensures Heads(read, Wires(frames)[j], frames[j]) {
      FrameHeads(frames[j], maxLen);
      var frame := EncodeFrame(frames[j].header, frames[j].body);
      forall rest: seq<byte> ensures read(frame + rest) == [frames[j]] + read(rest) {
      }
    }
    JoinedHeads(read, Wires(frames), frames, tail);
  }

  // ----- expiry

  datatype ExpiryError = InvalidTtl(ttlMs: u64) | InvalidExpiry(createdAtMs: u64, ttlMs: u64)

  function ExpiresAt(h: Header): Result<u64, ExpiryError> {
    if h.ttlMs == 0 then Err(InvalidTtl(h.ttlMs))
    else if h.createdAtMs + h.ttlMs > U64_MAX then Err(InvalidExpiry(h.createdAtMs, h.ttlMs))
    else Ok(h.createdAtMs + h.ttlMs)
  }

  function IsExpired(h: Header, nowMs: u64): Result<bool, ExpiryError> {
    match ExpiresAt(h)
    case Err(error) => Err(error)
    case Ok(at) => Ok(nowMs >= at)
  }
}
