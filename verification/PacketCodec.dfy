/** The datagram format of core/network_protocol.cpp: a 42-byte little-endian header and up to 1024 bytes of
    payload. What is accepted and what is produced are proved to be the same byte strings. */
module PacketCodec {
  import opened Outcomes
  import opened Words

  type u64 = x: int | 0 <= x < 0x1_0000_0000_0000_0000
  type i16 = x: int | -0x8000 <= x < 0x8000

  /** `Unlisted` stands for a value of the enumeration's storage that names no kind. */
  datatype PacketKind = Input | Ping | Pong | SessionHello | SessionAccept | Disconnect | Unlisted(code: u8)

  datatype RollbackInput = RollbackInput(buttons: u32, axisX: i16, axisY: i16)

  datatype Packet = Packet(kind: PacketKind, sequence: u32, ack: u32, frame: u64, timestamp: u64, input: RollbackInput, payload: seq<u8>)

  const MAGIC: seq<u8> := [0x4A, 0x52, 0x42, 0x4B]
  const VERSION := 1
  const FIXED_SIZE := 42
  const MAX_PAYLOAD := 1024

  /** Widths of the fields after the magic: version, kind, reserved, sequence, ack, frame, timestamp, buttons,
      both axes and the payload size. */
  const WIDTHS: seq<nat> := [1, 1, 2, 4, 4, 8, 8, 4, 2, 2, 2]

  function KindCode(kind: PacketKind): u8 {
    match kind
    case Input => 0
    case Ping => 1
    case Pong => 2
    case SessionHello => 3
    case SessionAccept => 4
    case Disconnect => 5
    case Unlisted(code) => code
  }

  function KindOf(code: nat): PacketKind
    requires code <= 5
  {
    match code
    case 0 => Input
    case 1 => Ping
    case 2 => Pong
    case 3 => SessionHello
    case 4 => SessionAccept
    case _ => Disconnect
  }

  function AsUnsigned(x: i16): u16 {
    if x < 0 then x + 0x1_0000 else x
  }

  function AsSigned(x: u16): i16 {
    if x < 0x8000 then x else x - 0x1_0000
  }

  // ----- Little-endian fields -----

  function LittleEndian(value: nat, width: nat): (bytes: seq<u8>)
    ensures |bytes| == width
    decreases width
  {
    if width == 0 then [] else [value % 0x100] + LittleEndian(value / 0x100, width - 1)
  }

  function FromLittleEndian(bytes: seq<u8>): nat {
    if bytes == [] then 0 else bytes[0] + 0x100 * FromLittleEndian(bytes[1..])
  }

  function Pow256(n: nat): nat {
    if n == 0 then 1 else 0x100 * Pow256(n - 1)
  }

  lemma {:induction false} ValueSurvives(value: nat, width: nat)
    requires value < Pow256(width)
    ensures FromLittleEndian(LittleEndian(value, width)) == value
    decreases width
  {
    if width > 0 {
      ValueSurvives(value / 0x100, width - 1);
      assert LittleEndian(value, width)[1..] == LittleEndian(value / 0x100, width - 1);
    }
  }

  lemma {:induction false} BytesSurvive(bytes: seq<u8>)
    ensures LittleEndian(FromLittleEndian(bytes), |bytes|) == bytes
    ensures FromLittleEndian(bytes) < Pow256(|bytes|)
    decreases |bytes|
  {
    if bytes != [] {
      BytesSurvive(bytes[1..]);
      FirstByte(bytes[0], FromLittleEndian(bytes[1..]));
      assert bytes == [bytes[0]] + bytes[1..];
    }
  }

  lemma FirstByte(first: u8, rest: nat)
    ensures (first + 0x100 * rest) % 0x100 == first && (first + 0x100 * rest) / 0x100 == rest
  {
  }

  // ----- Lists of fields -----

  function TotalWidth(widths: seq<nat>): nat {
    if widths == [] then 0 else widths[0] + TotalWidth(widths[1..])
  }

  function EncodeFields(values: seq<nat>, widths: seq<nat>): (bytes: seq<u8>)
    requires |values| == |widths|
    ensures |bytes| == TotalWidth(widths)
  {
    if values == [] then [] else LittleEndian(values[0], widths[0]) + EncodeFields(values[1..], widths[1..])
  }

  function DecodeFields(widths: seq<nat>, bytes: seq<u8>): (values: seq<nat>)
    requires |bytes| == TotalWidth(widths)
    ensures |values| == |widths|
    decreases |widths|
  {
    if widths == [] then [] else [FromLittleEndian(bytes[..widths[0]])] + DecodeFields(widths[1..], bytes[widths[0]..])
  }

  ghost predicate Fit(values: seq<nat>, widths: seq<nat>) {
    |values| == |widths| && forall i :: 0 <= i < |values| ==> values[i] < Pow256(widths[i])
  }

  lemma {:induction false} FieldsSurvive(values: seq<nat>, widths: seq<nat>)
    requires Fit(values, widths)
    ensures DecodeFields(widths, EncodeFields(values, widths)) == values
    decreases |values|
  {
    if values != [] {
      var head, tail := LittleEndian(values[0], widths[0]), EncodeFields(values[1..], widths[1..]);
      ValueSurvives(values[0], widths[0]);
      FieldsSurvive(values[1..], widths[1..]);
      assert (head + tail)[..widths[0]] == head && (head + tail)[widths[0]..] == tail;
      assert values == [values[0]] + values[1..];
    }
  }

  lemma FitMore(values: seq<nat>, widths: seq<nat>)
    requires |values| == |widths| > 0 && values[0] < Pow256(widths[0]) && Fit(values[1..], widths[1..])
    ensures Fit(values, widths)
  {
    hide Pow256;
    forall i | 0 <= i < |values| ensures values[i] < Pow256(widths[i]) {
      if i > 0 {
        assert values[i] == values[1..][i - 1] && widths[i] == widths[1..][i - 1];
      }
    }
  }

  lemma {:induction false} BytesOfFieldsSurvive(widths: seq<nat>, bytes: seq<u8>)
    requires |bytes| == TotalWidth(widths)
    ensures EncodeFields(DecodeFields(widths, bytes), widths) == bytes && Fit(DecodeFields(widths, bytes), widths)
    decreases |widths|
  {
    hide Fit, Pow256, FromLittleEndian, LittleEndian;
    if widths != [] {
      var values := DecodeFields(widths, bytes);
      BytesSurvive(bytes[..widths[0]]);
      BytesOfFieldsSurvive(widths[1..], bytes[widths[0]..]);
      assert values[1..] == DecodeFields(widths[1..], bytes[widths[0]..]);
      FitMore(values, widths);
    } else {
      NothingFits();
    }
  }

  lemma NothingFits()
    ensures Fit([], [])
  {
  }

  // ----- The format -----

  predicate Serializable(p: Packet) {
    !p.kind.Unlisted? && |p.payload| <= MAX_PAYLOAD
  }

  function HeaderOf(p: Packet): seq<nat> {
    [VERSION, KindCode(p.kind), 0, p.sequence, p.ack, p.frame, p.timestamp, p.input.buttons,
     AsUnsigned(p.input.axisX), AsUnsigned(p.input.axisY), |p.payload|]
  }

  function Encoded(p: Packet): seq<u8> {
    MAGIC + EncodeFields(HeaderOf(p), WIDTHS) + p.payload
  }

  lemma WidthsAddUp()
    ensures TotalWidth(WIDTHS) == FIXED_SIZE - 4 && FIXED_SIZE == 42 && |MAGIC| == 4 && TotalWidth(WIDTHS[..0]) == 0
    ensures |WIDTHS| == 11 && WIDTHS[0] == WIDTHS[1] == 1 && WIDTHS[3] == WIDTHS[4] == WIDTHS[7] == 4 && WIDTHS[5] == WIDTHS[6] == 8
    ensures WIDTHS[2] == WIDTHS[8] == WIDTHS[9] == WIDTHS[10] == 2
    ensures Pow256(1) == 0x100 && Pow256(2) == 0x1_0000 && Pow256(4) == 0x1_0000_0000 && Pow256(8) == 0x1_0000_0000_0000_0000
  {
    assert WIDTHS[1..] == [1, 2, 4, 4, 8, 8, 4, 2, 2, 2];
    assert WIDTHS[1..][1..] == [2, 4, 4, 8, 8, 4, 2, 2, 2];
    assert TotalWidth([2, 4, 4, 8, 8, 4, 2, 2, 2]) == 36;
  }

  predicate HeaderAccepted(f: seq<nat>, size: nat) {
    |f| == 11 && f[0] == VERSION && f[1] <= 5 && f[2] == 0 && f[10] <= MAX_PAYLOAD && FIXED_SIZE + f[10] == size
  }

  predicate HeaderBounded(f: seq<nat>) {
    && |f| == 11
    && f[3] < 0x1_0000_0000 && f[4] < 0x1_0000_0000 && f[5] < 0x1_0000_0000_0000_0000 && f[6] < 0x1_0000_0000_0000_0000
    && f[7] < 0x1_0000_0000 && f[8] < 0x1_0000 && f[9] < 0x1_0000
  }

  lemma FittingHeader(f: seq<nat>)
    ensures Fit(f, WIDTHS) ==> HeaderBounded(f)
    ensures HeaderBounded(f) && f[0] < 0x100 && f[1] < 0x100 && f[2] < 0x1_0000 && f[10] < 0x1_0000 ==> Fit(f, WIDTHS)
  {
    WidthsAddUp();
    hide Pow256;
  }

  function PacketOf(f: seq<nat>, payload: seq<u8>): Packet
    requires HeaderBounded(f) && f[1] <= 5
  {
    Packet(KindOf(f[1]), f[3], f[4], f[5], f[6], RollbackInput(f[7], AsSigned(f[8]), AsSigned(f[9])), payload)
  }

  /** What a byte string means, if it is a packet at all. Every refusal carries the same error code. */
  function Parsed(bytes: seq<u8>): Option<Packet> {
    WidthsAddUp();
    if |bytes| < FIXED_SIZE || bytes[..4] != MAGIC then None
    else
      BytesOfFieldsSurvive(WIDTHS, bytes[4..FIXED_SIZE]);
      var f := DecodeFields(WIDTHS, bytes[4..FIXED_SIZE]);
      FittingHeader(f);
      if HeaderAccepted(f, |bytes|) then Some(PacketOf(f, bytes[FIXED_SIZE..])) else None
  }

  lemma HeaderRoundTrip(p: Packet, f: seq<nat>)
    ensures Serializable(p) ==>
      && HeaderBounded(HeaderOf(p)) && HeaderAccepted(HeaderOf(p), FIXED_SIZE + |p.payload|)
      && PacketOf(HeaderOf(p), p.payload) == p && Fit(HeaderOf(p), WIDTHS)
    ensures HeaderBounded(f) && HeaderAccepted(f, FIXED_SIZE + |p.payload|) ==>
      Serializable(PacketOf(f, p.payload)) && HeaderOf(PacketOf(f, p.payload)) == f
  {
    FittingHeader(HeaderOf(p));
    hide Fit;
  }

  /** Parsing what was serialized gives back the packet. */
  lemma SerializedParses(p: Packet)
    requires Serializable(p)
    ensures Parsed(Encoded(p)) == Some(p)
  {
    hide DecodeFields, EncodeFields, TotalWidth, Fit, HeaderOf, PacketOf, HeaderAccepted, HeaderBounded, Serializable;
    WidthsAddUp();
    HeaderRoundTrip(p, []);
    FieldsSurvive(HeaderOf(p), WIDTHS);
    var bytes := Encoded(p);
    assert bytes[..4] == MAGIC && bytes[4..FIXED_SIZE] == EncodeFields(HeaderOf(p), WIDTHS) && bytes[FIXED_SIZE..] == p.payload;
  }

  /** Whatever is accepted is exactly what its packet serializes to. */
  lemma ParsedSerializes(bytes: seq<u8>)
    requires Parsed(bytes).Some?
    ensures Serializable(Parsed(bytes).value) && Encoded(Parsed(bytes).value) == bytes
  {
    hide DecodeFields, EncodeFields, TotalWidth, Fit, HeaderOf, HeaderAccepted, HeaderBounded, Serializable;
    WidthsAddUp();
    var f, p := DecodeFields(WIDTHS, bytes[4..FIXED_SIZE]), Parsed(bytes).value;
    BytesOfFieldsSurvive(WIDTHS, bytes[4..FIXED_SIZE]);
    FittingHeader(f);
    HeaderRoundTrip(p, f);
    assert bytes == bytes[..4] + bytes[4..FIXED_SIZE] + bytes[FIXED_SIZE..];
  }

  // ----- Writing and reading -----

  lemma {:induction false} EncodeOneMore(values: seq<nat>, widths: seq<nat>, k: nat)
    requires |values| == |widths| && k < |values|
    ensures EncodeFields(values[..k + 1], widths[..k + 1]) == EncodeFields(values[..k], widths[..k]) + LittleEndian(values[k], widths[k])
    decreases k
  {
    var v, w := values[..k + 1], widths[..k + 1];
    if k == 0 {
      assert v[1..] == [] && w[1..] == [];
    } else {
      EncodeOneMore(values[1..], widths[1..], k - 1);
      assert v[1..] == values[1..][..k] && w[1..] == widths[1..][..k];
      assert values[..k][1..] == values[1..][..k - 1] && widths[..k][1..] == widths[1..][..k - 1];
    }
  }

  lemma {:induction false} FieldAt(widths: seq<nat>, bytes: seq<u8>, k: nat)
    requires |bytes| == TotalWidth(widths) && k < |widths|
    ensures TotalWidth(widths[..k + 1]) == TotalWidth(widths[..k]) + widths[k] <= |bytes|
    ensures DecodeFields(widths, bytes)[k] == FromLittleEndian(bytes[TotalWidth(widths[..k])..TotalWidth(widths[..k + 1])])
    decreases k
  {
    hide FromLittleEndian;
    var w := widths[0];
    if k == 0 {
      assert widths[..1][1..] == [] && widths[..0] == [];
    } else {
      FieldAt(widths[1..], bytes[w..], k - 1);
      var from := TotalWidth(widths[1..][..k - 1]);
      assert widths[..k + 1][1..] == widths[1..][..k] && widths[..k][1..] == widths[1..][..k - 1];
      assert bytes[w..][from..from + widths[k]] == bytes[w + from..w + from + widths[k]];
    }
  }

  method AppendLittleEndian(out: seq<u8>, value: nat, width: nat) returns (r: seq<u8>)
    ensures r == out + LittleEndian(value, width)
  {
    r := out;
    var rest := value;
    for i := 0 to width
      invariant r + LittleEndian(rest, width - i) == out + LittleEndian(value, width)
    {
      r, rest := r + [rest % 0x100], rest / 0x100;
    }
  }

  method ReadLittleEndian(bytes: seq<u8>, offset: nat, width: nat) returns (r: Result<nat>, next: nat)
    ensures if offset + width > |bytes| then r == Failure(UnsupportedFormat) && next == offset
            else r == Success(FromLittleEndian(bytes[offset..offset + width])) && next == offset + width
  {
    next := offset;
    if offset + width > |bytes| {
      return Failure(UnsupportedFormat), next;
    }
    var value: nat, scale: nat := 0, 1;
    ghost var read := bytes[offset..offset + width];
    for i := 0 to width
      invariant next == offset + i
      invariant value + scale * FromLittleEndian(read[i..]) == FromLittleEndian(read)
    {
      FirstOfRest(read, i);
      assert bytes[next] == read[i];
      hide FromLittleEndian;
      ReadOneByte(value, scale, read[i], FromLittleEndian(read[i + 1..]));
      value, scale, next := value + scale * bytes[next], 0x100 * scale, next + 1;
    }
    assert read[width..] == [];
    r := Success(value);
  }

  lemma FirstOfRest(read: seq<u8>, i: nat)
    requires i < |read|
    ensures FromLittleEndian(read[i..]) == read[i] + 0x100 * FromLittleEndian(read[i + 1..])
  {
    assert read[i..][1..] == read[i + 1..];
  }

  lemma ReadOneByte(value: nat, scale: nat, byte: nat, rest: nat)
    ensures scale * byte >= 0 && value + scale * (byte + 0x100 * rest) == value + scale * byte + 0x100 * scale * rest
  {
  }

  ghost predicate Written(out: seq<u8>, header: seq<nat>, k: nat)
    requires k <= |header| == |WIDTHS|
  {
    out == MAGIC + EncodeFields(header[..k], WIDTHS[..k])
  }

  /** Appends field `k` of a header whose first `k` fields are written. */
  method AppendField(out: seq<u8>, value: nat, width: nat, ghost header: seq<nat>, ghost k: nat) returns (r: seq<u8>)
    requires |header| == |WIDTHS| && k < |WIDTHS| && value == header[k] && width == WIDTHS[k]
    requires Written(out, header, k)
    ensures Written(r, header, k + 1)
  {
    hide EncodeFields, LittleEndian;
    r := AppendLittleEndian(out, value, width);
    EncodeOneMore(header, WIDTHS, k);
  }

  method SerializeNetworkPacket(p: Packet) returns (r: Result<seq<u8>>)
    ensures r == if Serializable(p) then Success(Encoded(p)) else Failure(InvalidArgument)
  {
    if p.kind.Unlisted? {
      return Failure(InvalidArgument);
    }
    if |p.payload| > MAX_PAYLOAD || |p.payload| > 0xFFFF {
      return Failure(InvalidArgument);
    }
    hide *;
    ghost var header := HeaderOf(p);
    WidthsAddUp();
    HeaderFields(p);
    var bytes := MAGIC;
    bytes := AppendField(bytes, VERSION, 1, header, 0);
    bytes := AppendField(bytes, KindCode(p.kind), 1, header, 1);
    bytes := AppendField(bytes, 0, 2, header, 2);
    bytes := AppendField(bytes, p.sequence, 4, header, 3);
    bytes := AppendField(bytes, p.ack, 4, header, 4);
    bytes := AppendField(bytes, p.frame, 8, header, 5);
    bytes := AppendField(bytes, p.timestamp, 8, header, 6);
    bytes := AppendField(bytes, p.input.buttons, 4, header, 7);
    bytes := AppendField(bytes, AsUnsigned(p.input.axisX), 2, header, 8);
    bytes := AppendField(bytes, AsUnsigned(p.input.axisY), 2, header, 9);
    bytes := AppendField(bytes, |p.payload|, 2, header, 10);
    HeaderWritten(p, bytes);
    bytes := bytes + p.payload;
    r := Success(bytes);
  }

  lemma HeaderWritten(p: Packet, out: seq<u8>)
    requires |HeaderOf(p)| == |WIDTHS| == 11 && Written(out, HeaderOf(p), 11)
    ensures Encoded(p) == out + p.payload
  {
    hide EncodeFields;
    assert HeaderOf(p)[..11] == HeaderOf(p) && WIDTHS[..11] == WIDTHS;
  }

  lemma HeaderFields(p: Packet)
    ensures |WIDTHS| == 11 && Written(MAGIC, HeaderOf(p), 0)
    ensures Serializable(p) <==> !p.kind.Unlisted? && |p.payload| <= MAX_PAYLOAD
    ensures var h := HeaderOf(p);
      && |h| == 11 && h[0] == VERSION && h[1] == KindCode(p.kind) && h[2] == 0 && h[3] == p.sequence && h[4] == p.ack
      && h[5] == p.frame && h[6] == p.timestamp && h[7] == p.input.buttons
      && h[8] == AsUnsigned(p.input.axisX) && h[9] == AsUnsigned(p.input.axisY) && h[10] == |p.payload|
  {
  }

  /** Reads field `k`. No field of a string that is long enough for the header is ever cut short. */
  method ReadField(bytes: seq<u8>, offset: nat, width: nat, ghost k: nat) returns (r: Result<nat>, next: nat)
    requires |bytes| >= FIXED_SIZE && k < |WIDTHS| && width == WIDTHS[k] && offset == 4 + TotalWidth(WIDTHS[..k])
    ensures TotalWidth(WIDTHS) == FIXED_SIZE - 4 && next == 4 + TotalWidth(WIDTHS[..k + 1])
    ensures r == Success(DecodeFields(WIDTHS, bytes[4..FIXED_SIZE])[k])
  {
    hide *;
    WidthsAddUp();
    ghost var from, to := TotalWidth(WIDTHS[..k]), TotalWidth(WIDTHS[..k + 1]);
    FieldAt(WIDTHS, bytes[4..FIXED_SIZE], k);
    SliceOfSlice(bytes, 4, FIXED_SIZE, from, to);
    assert offset == 4 + from && offset + width == 4 + to;
    r, next := ReadLittleEndian(bytes, offset, width);
  }

  lemma SliceOfSlice<T>(s: seq<T>, from: nat, to: nat, a: nat, b: nat)
    requires from <= to <= |s| && a <= b <= to - from
    ensures s[from..to][a..b] == s[from + a..from + b]
  {
    var inner, outer := s[from..to][a..b], s[from + a..from + b];
    assert |inner| == |outer| && forall i :: 0 <= i < |inner| ==> inner[i] == outer[i];
  }

  method ParseNetworkPacket(bytes: seq<u8>) returns (r: Result<Packet>)
    ensures r == match Parsed(bytes) case Some(p) => Success(p) case None => Failure(UnsupportedFormat)
  {
    hide DecodeFields, TotalWidth, KindOf, AsSigned, FromLittleEndian, WIDTHS;
    WidthsAddUp();
    if |bytes| < FIXED_SIZE {
      return Failure(UnsupportedFormat);
    }
    if bytes[..4] != MAGIC {
      return Failure(UnsupportedFormat);
    }
    ghost var f := DecodeFields(WIDTHS, bytes[4..FIXED_SIZE]);
    BytesOfFieldsSurvive(WIDTHS, bytes[4..FIXED_SIZE]);
    FittingHeader(f);
    var version, offset := ReadField(bytes, 4, 1, 0);
    if version.value != VERSION {
      return Failure(UnsupportedFormat);
    }
    var kind, reserved, sequence, ack, frame, timestamp, buttons, axisX, axisY, size;
    kind, offset := ReadField(bytes, offset, 1, 1);
    if kind.value > KindCode(Disconnect) {
      return Failure(UnsupportedFormat);
    }
    reserved, offset := ReadField(bytes, offset, 2, 2);
    if reserved.value != 0 {
      return Failure(UnsupportedFormat);
    }
    sequence, offset := ReadField(bytes, offset, 4, 3);
    ack, offset := ReadField(bytes, offset, 4, 4);
    frame, offset := ReadField(bytes, offset, 8, 5);
    timestamp, offset := ReadField(bytes, offset, 8, 6);
    buttons, offset := ReadField(bytes, offset, 4, 7);
    axisX, offset := ReadField(bytes, offset, 2, 8);
    axisY, offset := ReadField(bytes, offset, 2, 9);
    size, offset := ReadField(bytes, offset, 2, 10);
    assert WIDTHS[..11] == WIDTHS;
    if sequence.Failure? || ack.Failure? || frame.Failure? || timestamp.Failure? || buttons.Failure? || axisX.Failure? || axisY.Failure?
       || size.Failure? {
      assert false;
    }
    if size.value > MAX_PAYLOAD {
      return Failure(UnsupportedFormat);
    }
    if offset + size.value != |bytes| {
      return Failure(UnsupportedFormat);
    }
    r := Success(Packet(KindOf(kind.value), sequence.value, ack.value, frame.value, timestamp.value,
                        RollbackInput(buttons.value, AsSigned(axisX.value), AsSigned(axisY.value)), bytes[offset..]));
  }
}
