/**
 The low-bit image carrier: a header and a payload in the lowest bits of RGB samples.

 Pixels are an interleaved RGB or RGBA buffer, changed in place. Compression and the checksum are
 parameters; a compressor is assumed to be undone by its decompressor.
 */
module LsbCarrier {
  import opened Wrappers

  type Byte = x: int | 0 <= x < 256

  const MAGIC: seq<Byte> := [0x4D, 0x4F, 0x4D, 0x4F, 0x4C, 0x53, 0x42, 0x31]
  const VERSION: Byte := 1
  const HEADER_BYTES: nat := 24
  const MAX_PAYLOAD_BYTES: nat := 64 * 1024 * 1024
  const WORD: nat := 0x1_0000_0000

  datatype PayloadType = CharacterData | Moc | Charx | ExternalCharacterJson | ExternalCharacterPng
  datatype Payload = Payload(payloadType: PayloadType, compressed: bool, bytes: seq<Byte>)
  datatype Info = Info(payloadType: PayloadType, compressed: bool, storedBytes: nat, originalBytes: nat,
    availableBytes: nat)

  datatype CarrierError =
    | InvalidChannels
    | InvalidPixelBuffer
    | EmptyPayload
    | PayloadTooLarge
    | InsufficientCapacity(required: nat, available: nat)
    | MissingCarrier
    | UnsupportedVersion(version: Byte)
    | UnknownFlags(flags: Byte)
    | UnknownPayloadType(value: Byte)
    | InvalidLength
    | ChecksumMismatch
    | Compression
    | Decompression

  type Word = x: nat | x < WORD

  datatype Codec = Codec(
    compress: seq<Byte> -> Option<seq<Byte>>,
    decompress: (seq<Byte>, nat) -> Option<seq<Byte>>,
    hash: seq<Byte> -> Word)

  ghost predicate Lossless(codec: Codec) {
    forall p :: codec.compress(p).Some? && p != [] ==>
      codec.compress(p).value != [] && codec.decompress(codec.compress(p).value, |p|) == Some(p)
  }

  // ---- Samples ----

  type Channels = x: nat | x == 3 || x == 4 witness 3

  function Capacity(length: nat, channels: nat): nat {
    if (channels != 3 && channels != 4) || length % channels != 0 then 0
    else length / channels * 3 / 8
  }

  // How many RGB samples lie before a position, and where the n-th one lies.
  function Rank(position: nat, channels: Channels): nat {
    position / channels * 3 + if position % channels < 3 then position % channels else 3
  }

  predicate IsRgb(position: nat, channels: Channels) {
    position % channels < 3
  }

  function Nth(n: nat, channels: Channels): nat {
    n / 3 * channels + n % 3
  }

  lemma NthRanks(n: nat, channels: Channels)
    ensures IsRgb(Nth(n, channels), channels) && Rank(Nth(n, channels), channels) == n
  {
    if channels == 3 {
      assert Nth(n, channels) == n / 3 * 3 + n % 3 == n;
    } else {
      assert Nth(n, channels) / 4 == n / 3 && Nth(n, channels) % 4 == n % 3;
    }
  }

  // Numbering and counting are inverse to each other.
  lemma RankNths(position: nat, channels: Channels)
    requires IsRgb(position, channels)
    ensures Nth(Rank(position, channels), channels) == position
  {
    var r := Rank(position, channels);
    assert r / 3 == position / channels && r % 3 == position % channels;
  }

  lemma RankSteps(position: nat, channels: Channels)
    ensures Rank(position + 1, channels) == Rank(position, channels) + if IsRgb(position, channels) then 1 else 0
  {
  }

  // What fits the capacity has all its samples inside the buffer.
  lemma FitsInside(length: nat, channels: Channels, bytes: nat, n: nat)
    requires length % channels == 0 && bytes <= Capacity(length, channels) && n < 8 * bytes
    ensures Nth(n, channels) < length
  {
    assert n < length / channels * 3;
    assert n / 3 < length / channels;
  }

  // ---- Bits ----

  function ShiftRight(x: nat, places: nat): nat {
    if places == 0 then x else ShiftRight(x, places - 1) / 2
  }

  function ShiftLeft(x: nat, places: nat): nat {
    if places == 0 then x else 2 * ShiftLeft(x, places - 1)
  }

  // Bit `n` of a byte string, most significant first.
  function BitAt(bytes: seq<Byte>, n: nat): (bit: Byte)
    requires n < 8 * |bytes|
    ensures bit < 2
  {
    ShiftRight(bytes[n / 8], 7 - n % 8) % 2
  }

  function WithLowBit(sample: Byte, bit: Byte): (r: Byte)
    requires bit < 2
    ensures r % 2 == bit && r / 2 == sample / 2
  {
    sample - sample % 2 + bit
  }

  // The buffer with the bits of `bytes` in its first RGB samples, up to position `upTo`.
  function Written(pixels: seq<Byte>, channels: Channels, bytes: seq<Byte>, upTo: nat): (r: seq<Byte>)
    ensures |r| == |pixels|
  {
    seq(|pixels|, i requires 0 <= i < |pixels| =>
      if i < upTo && IsRgb(i, channels) && Rank(i, channels) < 8 * |bytes|
      then WithLowBit(pixels[i], BitAt(bytes, Rank(i, channels)))
      else pixels[i])
  }

  method WriteBits(pixels: array<Byte>, channels: Channels, bytes: seq<Byte>)
    modifies pixels
    ensures pixels[..] == Written(old(pixels[..]), channels, bytes, pixels.Length)
  {
    ghost var before := pixels[..];
    var next := 0;
    for index := 0 to pixels.Length
      invariant next == Rank(index, channels)
      invariant pixels[..] == Written(before, channels, bytes, index)
    {
      RankSteps(index, channels);
      if index % channels < 3 {
        if next < 8 * |bytes| {
          pixels[index] := WithLowBit(pixels[index], BitAt(bytes, next));
        }
        next := next + 1;
      }
      assert pixels[..] == Written(before, channels, bytes, index + 1);
    }
  }

  function Sample(pixels: seq<Byte>, channels: Channels, n: nat): Byte {
    if Nth(n, channels) < |pixels| then pixels[Nth(n, channels)] % 2 else 0
  }

  // The value of the first bits of a byte, each in its place.
  function Weighed(pixels: seq<Byte>, channels: Channels, index: nat, bits: nat): nat
    requires bits <= 8
  {
    if bits == 0 then 0
    else Weighed(pixels, channels, index, bits - 1) + ShiftLeft(SampleOf(pixels, channels, index, bits - 1), 8 - bits)
  }

  function SampleOf(pixels: seq<Byte>, channels: Channels, index: nat, bit: nat): (sample: nat)
    ensures sample < 2
  {
    Sample(pixels, channels, 8 * index + bit)
  }

  lemma {:induction false} ShiftLeftAdds(x: nat, y: nat, places: nat)
    ensures ShiftLeft(x + y, places) == ShiftLeft(x, places) + ShiftLeft(y, places)
    ensures ShiftLeft(2 * x, places) == ShiftLeft(x, places + 1)
  {
    if places > 0 {
      ShiftLeftAdds(x, y, places - 1);
    }
  }

  lemma {:induction false} WeighedIsByte(pixels: seq<Byte>, channels: Channels, index: nat, bits: nat)
    requires bits <= 8
    ensures Weighed(pixels, channels, index, bits) + ShiftLeft(1, 8 - bits) <= 256
  {
    if bits == 0 {
      EightBits();
    } else {
      WeighedIsByte(pixels, channels, index, bits - 1);
      assert ShiftLeft(1, 9 - bits) == 2 * ShiftLeft(1, 8 - bits);
      ShiftLeftAdds(0, 0, 8 - bits);
    }
  }

  lemma EightBits()
    ensures ShiftLeft(1, 8) == 256
  {
    assert ShiftLeft(1, 2) == 4;
    assert ShiftLeft(1, 4) == 16;
    assert ShiftLeft(1, 6) == 64;
  }

  function ReadByte(pixels: seq<Byte>, channels: Channels, index: nat): Byte {
    WeighedIsByte(pixels, channels, index, 8);
    Weighed(pixels, channels, index, 8)
  }

  function ReadAll(pixels: seq<Byte>, channels: Channels, count: nat): seq<Byte> {
    seq(count, i requires 0 <= i < count => ReadByte(pixels, channels, i))
  }

  method ReadBytes(pixels: seq<Byte>, channels: Channels, count: nat) returns (output: seq<Byte>)
    ensures output == ReadAll(pixels, channels, count)
  {
    output := [];
    for i := 0 to count
      invariant output == ReadAll(pixels, channels, i)
    {
      var value: nat := 0;
      for bit := 0 to 8
        invariant value == Weighed(pixels, channels, i, bit)
      {
        var position := Nth(8 * i + bit, channels);
        if position < |pixels| {
          value := value + ShiftLeft(pixels[position] % 2, 7 - bit);
        } else {
          ShiftLeftAdds(0, 0, 7 - bit);
        }
      }
      WeighedIsByte(pixels, channels, i, 8);
      output := output + [value];
    }
  }

  // ---- Header ----

  function BigEndian(x: Word): (bytes: seq<Byte>)
    ensures |bytes| == 4
  {
    [x / 0x100_0000, x / 0x1_0000 % 256, x / 256 % 256, x % 256]
  }

  function FromBigEndian(bytes: seq<Byte>): Word
    requires |bytes| == 4
  {
    var a: int, b: int, c: int, d: int := bytes[0], bytes[1], bytes[2], bytes[3];
    a * 0x100_0000 + b * 0x1_0000 + c * 256 + d
  }

  lemma BigEndianReads(x: Word)
    ensures FromBigEndian(BigEndian(x)) == x
  {
    var a := x / 256;
    var b := a / 256;
    assert x / 0x1_0000 == b && x / 0x100_0000 == b / 256;
    assert x == a * 256 + x % 256 && a == b * 256 + a % 256 && b == b / 256 * 256 + b % 256;
  }

  function TypeByte(t: PayloadType): Byte {
    match t
    case CharacterData => 1
    case Moc => 2
    case Charx => 3
    case ExternalCharacterJson => 4
    case ExternalCharacterPng => 5
  }

  function TypeOf(value: Byte): Option<PayloadType> {
    match value
    case 1 => Some(CharacterData)
    case 2 => Some(Moc)
    case 3 => Some(Charx)
    case 4 => Some(ExternalCharacterJson)
    case 5 => Some(ExternalCharacterPng)
    case _ => None
  }

  function FlagByte(compressed: bool): Byte {
    if compressed then 1 else 0
  }

  function Header(t: PayloadType, compressed: bool, stored: Word, original: Word, checksum: Word): (h: seq<Byte>)
    ensures |h| == HEADER_BYTES
  {
    MAGIC + [VERSION, FlagByte(compressed), TypeByte(t), 0]
    + BigEndian(stored) + BigEndian(original) + BigEndian(checksum)
  }

  function Validate(length: nat, channels: nat): Option<CarrierError> {
    if channels != 3 && channels != 4 then Some(InvalidChannels)
    else if length % channels != 0 then Some(InvalidPixelBuffer)
    else None
  }

  // The bytes to hide, or why they cannot be.
  function Carrier(t: PayloadType, payload: seq<Byte>, compress: bool, codec: Codec):
    (r: Result<seq<Byte>, CarrierError>)
    ensures r.Ok? ==> |r.value| >= HEADER_BYTES
  {
    if payload == [] then Err(EmptyPayload)
    else if |payload| > MAX_PAYLOAD_BYTES then Err(PayloadTooLarge)
    else
      var stored := if compress then codec.compress(payload) else Some(payload);
      if stored.None? then Err(Compression)
      else if |stored.value| >= WORD then Err(PayloadTooLarge)
      else Ok(Header(t, compress, |stored.value|, |payload|, codec.hash(payload)) + stored.value)
  }

  function Embedded(pixels: seq<Byte>, channels: nat, t: PayloadType, payload: seq<Byte>, compress: bool, codec: Codec):
    Result<seq<Byte>, CarrierError>
  {
    var invalid := Validate(|pixels|, channels);
    var carrier := Carrier(t, payload, compress, codec);
    if invalid.Some? then Err(invalid.value)
    else if carrier.Err? then Err(carrier.error)
    else if |carrier.value| > Capacity(|pixels|, channels)
    then Err(InsufficientCapacity(|carrier.value|, Capacity(|pixels|, channels)))
    else Ok(Written(pixels, channels, carrier.value, |pixels|))
  }

  /** Hides a payload in place; a refused one leaves every pixel as it was. */
  method EmbedLsbCarrier(pixels: array<Byte>, channels: nat, t: PayloadType, payload: seq<Byte>, compress: bool,
                         codec: Codec) returns (r: Result<Info, CarrierError>)
    modifies pixels
    ensures match Embedded(old(pixels[..]), channels, t, payload, compress, codec)
            case Err(e) => r == Err(e) && pixels[..] == old(pixels[..])
            case Ok(after) =>
              && pixels[..] == after && r.Ok?
              && r.value.payloadType == t && r.value.compressed == compress && r.value.originalBytes == |payload|
              && r.value.storedBytes + HEADER_BYTES <= r.value.availableBytes == Capacity(pixels.Length, channels)
  {
    var invalid := Validate(pixels.Length, channels);
    if invalid.Some? {
      return Err(invalid.value);
    }
    var carrier := Carrier(t, payload, compress, codec);
    if carrier.Err? {
      return Err(carrier.error);
    }
    var available := Capacity(pixels.Length, channels);
    if |carrier.value| > available {
      return Err(InsufficientCapacity(|carrier.value|, available));
    }
    WriteBits(pixels, channels, carrier.value);
    r := Ok(Info(t, compress, |carrier.value| - HEADER_BYTES, |payload|, available));
  }

  function Extracted(pixels: seq<Byte>, channels: nat, codec: Codec): Result<Payload, CarrierError> {
    var invalid := Validate(|pixels|, channels);
    if invalid.Some? then Err(invalid.value)
    else if Capacity(|pixels|, channels) < HEADER_BYTES then Err(MissingCarrier)
    else
      var header := ReadAll(pixels, channels, HEADER_BYTES);
      if header[..8] != MAGIC then Err(MissingCarrier)
      else if header[8] != VERSION then Err(UnsupportedVersion(header[8]))
      else if header[9] > 1 then Err(UnknownFlags(header[9]))
      else if TypeOf(header[10]).None? then Err(UnknownPayloadType(header[10]))
      else
        var stored, original := FromBigEndian(header[12..16]), FromBigEndian(header[16..20]);
        if stored == 0 || original == 0 || original > MAX_PAYLOAD_BYTES || stored > MAX_PAYLOAD_BYTES
           || HEADER_BYTES + stored > Capacity(|pixels|, channels)
        then Err(InvalidLength)
        else
          var body := ReadAll(pixels, channels, HEADER_BYTES + stored)[HEADER_BYTES..];
          Opened(TypeOf(header[10]).value, header[9] == 1, body, original, FromBigEndian(header[20..24]), codec)
  }

  function Opened(t: PayloadType, compressed: bool, body: seq<Byte>, original: nat, checksum: nat, codec: Codec):
    Result<Payload, CarrierError>
  {
    if !compressed && |body| != original then Err(InvalidLength)
    else
      var bytes := if compressed then codec.decompress(body, original) else Some(body);
      if bytes.None? then Err(Decompression)
      else if |bytes.value| != original || codec.hash(bytes.value) != checksum then Err(ChecksumMismatch)
      else Ok(Payload(t, compressed, bytes.value))
  }

  method ExtractLsbCarrier(pixels: seq<Byte>, channels: nat, codec: Codec) returns (r: Result<Payload, CarrierError>)
    ensures r == Extracted(pixels, channels, codec)
  {
    var invalid := Validate(|pixels|, channels);
    if invalid.Some? {
      return Err(invalid.value);
    }
    if Capacity(|pixels|, channels) < HEADER_BYTES {
      return Err(MissingCarrier);
    }
    var header := ReadBytes(pixels, channels, HEADER_BYTES);
    if header[..8] != MAGIC {
      return Err(MissingCarrier);
    }
    if header[8] != VERSION {
      return Err(UnsupportedVersion(header[8]));
    }
    if header[9] > 1 {
      return Err(UnknownFlags(header[9]));
    }
    var t := TypeOf(header[10]);
    if t.None? {
      return Err(UnknownPayloadType(header[10]));
    }
    var stored, original := FromBigEndian(header[12..16]), FromBigEndian(header[16..20]);
    if stored == 0 || original == 0 || original > MAX_PAYLOAD_BYTES || stored > MAX_PAYLOAD_BYTES
       || HEADER_BYTES + stored > Capacity(|pixels|, channels) {
      return Err(InvalidLength);
    }
    var carrier := ReadBytes(pixels, channels, HEADER_BYTES + stored);
    r := Opened(t.value, header[9] == 1, carrier[HEADER_BYTES..], original, FromBigEndian(header[20..24]), codec);
  }

  // ---- What was written is what is read ----

  lemma SampleWritten(pixels: seq<Byte>, channels: Channels, bytes: seq<Byte>, n: nat)
    requires |pixels| % channels == 0 && |bytes| <= Capacity(|pixels|, channels) && n < 8 * |bytes|
    ensures Sample(Written(pixels, channels, bytes, |pixels|), channels, n) == BitAt(bytes, n)
  {
    NthRanks(n, channels);
    FitsInside(|pixels|, channels, |bytes|, n);
  }

  lemma {:induction false} ShiftRightShrinks(x: nat, bound: nat, places: nat)
    requires x < ShiftLeft(bound, places)
    ensures ShiftRight(x, places) < bound
    decreases places
  {
    if places > 0 {
      ShiftLeftAdds(bound, 0, places - 1);
      ShiftRightShrinks(x, 2 * bound, places - 1);
    }
  }

  predicate HasBit(pixels: seq<Byte>, channels: Channels, index: nat, byte: Byte, bit: int) {
    0 <= bit < 8 && SampleOf(pixels, channels, index, bit) == ShiftRight(byte, 7 - bit) % 2
  }

  lemma LowestBit(upper: nat, places: nat)
    ensures ShiftLeft(upper / 2, places + 1) + ShiftLeft(upper % 2, places) == ShiftLeft(upper, places)
  {
    ShiftLeftAdds(upper / 2, 0, places);
    ShiftLeftAdds(2 * (upper / 2), upper % 2, places);
    assert 2 * (upper / 2) + upper % 2 == upper;
  }

  // Samples that are a byte's bits weigh what the byte's upper bits do.
  lemma {:induction false} BitsWeigh(pixels: seq<Byte>, channels: Channels, index: nat, byte: Byte, bits: nat)
    requires bits <= 8 && forall bit :: 0 <= bit < 8 ==> HasBit(pixels, channels, index, byte, bit)
    ensures Weighed(pixels, channels, index, bits) == ShiftLeft(ShiftRight(byte, 8 - bits), 8 - bits)
  {
    if bits == 0 {
      EightBits();
      ShiftRightShrinks(byte, 1, 8);
      ShiftLeftAdds(0, 0, 8);
    } else {
      BitsWeigh(pixels, channels, index, byte, bits - 1);
      assert HasBit(pixels, channels, index, byte, bits - 1);
      assert ShiftRight(byte, 9 - bits) == ShiftRight(byte, 8 - bits) / 2;
      LowestBit(ShiftRight(byte, 8 - bits), 8 - bits);
    }
  }

  lemma ByteWritten(pixels: seq<Byte>, channels: Channels, bytes: seq<Byte>, index: nat)
    requires |pixels| % channels == 0 && |bytes| <= Capacity(|pixels|, channels) && index < |bytes|
    ensures ReadByte(Written(pixels, channels, bytes, |pixels|), channels, index) == bytes[index]
  {
    var after := Written(pixels, channels, bytes, |pixels|);
    forall bit | 0 <= bit < 8 ensures HasBit(after, channels, index, bytes[index], bit) {
      SampleWritten(pixels, channels, bytes, 8 * index + bit);
      BitOf(bytes, index, bit);
    }
    BitsWeigh(after, channels, index, bytes[index], 8);
  }

  lemma BitOf(bytes: seq<Byte>, index: nat, bit: nat)
    requires index < |bytes| && bit < 8
    ensures BitAt(bytes, 8 * index + bit) == ShiftRight(bytes[index], 7 - bit) % 2
  {
    assert (8 * index + bit) / 8 == index && (8 * index + bit) % 8 == bit;
  }

  // Reading any prefix of what was written gives that prefix.
  lemma WrittenReads(pixels: seq<Byte>, channels: Channels, bytes: seq<Byte>, count: nat)
    requires |pixels| % channels == 0 && |bytes| <= Capacity(|pixels|, channels) && count <= |bytes|
    ensures ReadAll(Written(pixels, channels, bytes, |pixels|), channels, count) == bytes[..count]
  {
    forall index | 0 <= index < count
      ensures ReadByte(Written(pixels, channels, bytes, |pixels|), channels, index) == bytes[index]
    {
      ByteWritten(pixels, channels, bytes, index);
    }
  }

  lemma HeaderReads(h: seq<Byte>, t: PayloadType, compressed: bool, stored: Word, original: Word, checksum: Word)
    requires h == Header(t, compressed, stored, original, checksum)
    ensures h[..8] == MAGIC && h[8] == VERSION && h[9] == FlagByte(compressed) && TypeOf(h[10]) == Some(t)
    ensures FromBigEndian(h[12..16]) == stored && FromBigEndian(h[16..20]) == original
              && FromBigEndian(h[20..24]) == checksum
  {
    BigEndianReads(stored);
    BigEndianReads(original);
    BigEndianReads(checksum);
    assert h[12..16] == BigEndian(stored) && h[16..20] == BigEndian(original) && h[20..24] == BigEndian(checksum);
  }

  // What extraction makes of a buffer that reads as a header and a body.
  lemma ReadingExtracts(pixels: seq<Byte>, channels: Channels, header: seq<Byte>, t: PayloadType, compressed: bool,
                        body: seq<Byte>, original: Word, checksum: Word, codec: Codec)
    requires |pixels| % channels == 0 && HEADER_BYTES + |body| <= Capacity(|pixels|, channels)
    requires 0 < |body| < WORD && 0 < original <= MAX_PAYLOAD_BYTES
    requires header == Header(t, compressed, |body|, original, checksum)
    requires ReadAll(pixels, channels, HEADER_BYTES) == header
    requires ReadAll(pixels, channels, HEADER_BYTES + |body|) == header + body
    ensures Extracted(pixels, channels, codec)
         == if |body| > MAX_PAYLOAD_BYTES then Err(InvalidLength)
           else Opened(t, compressed, body, original, checksum, codec)
  {
    HeaderReads(header, t, compressed, |body|, original, checksum);
    assert (header + body)[HEADER_BYTES..] == body;
  }

  lemma CarrierExtracts(pixels: seq<Byte>, channels: Channels, t: PayloadType, compressed: bool, body: seq<Byte>,
                        original: Word, checksum: Word, codec: Codec)
    requires |pixels| % channels == 0 && HEADER_BYTES + |body| <= Capacity(|pixels|, channels)
    requires 0 < |body| < WORD && 0 < original <= MAX_PAYLOAD_BYTES
    ensures var after := Written(pixels, channels, Header(t, compressed, |body|, original, checksum) + body, |pixels|);
            Extracted(after, channels, codec)
            == if |body| > MAX_PAYLOAD_BYTES then Err(InvalidLength)
              else Opened(t, compressed, body, original, checksum, codec)
  {
    var header := Header(t, compressed, |body|, original, checksum);
    var bytes := header + body;
    WrittenReads(pixels, channels, bytes, HEADER_BYTES);
    WrittenReads(pixels, channels, bytes, |bytes|);
    assert bytes[..HEADER_BYTES] == header && bytes[..|bytes|] == bytes;
    ReadingExtracts(Written(pixels, channels, bytes, |pixels|), channels, header, t, compressed, body, original,
      checksum, codec);
  }

  /** Round trip: a payload that was embedded is extracted with its type, flag and bytes exactly when
      what was stored is within the limit; without compression it always is. */
  lemma EmbeddedExtracts(pixels: seq<Byte>, channels: nat, t: PayloadType, payload: seq<Byte>, compress: bool,
                         codec: Codec)
    requires Lossless(codec) && Embedded(pixels, channels, t, payload, compress, codec).Ok?
    ensures Extracted(Embedded(pixels, channels, t, payload, compress, codec).value, channels, codec)
              == Ok(Payload(t, compress, payload))
       <==> !compress || |codec.compress(payload).value| <= MAX_PAYLOAD_BYTES
  {
    var stored := if compress then codec.compress(payload).value else payload;
    CarrierExtracts(pixels, channels, t, compress, stored, |payload|, codec.hash(payload), codec);
  }

  // A lossless compressor that makes everything longer by one byte.
  function Lengthening(): Codec {
    Codec(p => Some(p + [0]), (s, n) => if s == [] then None else Some(s[..|s| - 1]), p => 0)
  }

  lemma LengtheningIsLossless()
    ensures Lossless(Lengthening())
  {
    var codec := Lengthening();
    forall p: seq<Byte> ensures codec.compress(p).value != []
      && codec.decompress(codec.compress(p).value, |p|) == Some(p) {
      assert (p + [0])[..|p|] == p;
    }
  }

  lemma OversizedIsRefused(pixels: seq<Byte>, channels: nat, t: PayloadType, payload: seq<Byte>, codec: Codec)
    requires Embedded(pixels, channels, t, payload, true, codec).Ok? && codec.compress(payload).Some?
    requires payload != [] && |codec.compress(payload).value| > MAX_PAYLOAD_BYTES
    ensures Extracted(Embedded(pixels, channels, t, payload, true, codec).value, channels, codec) == Err(InvalidLength)
  {
    CarrierExtracts(pixels, channels, t, true, codec.compress(payload).value, |payload|, codec.hash(payload), codec);
  }

  lemma WideBuffer(pixels: seq<Byte>)
    requires |pixels| == 24 * 22_370_000
    ensures Validate(|pixels|, 3).None? && Capacity(|pixels|, 3) >= HEADER_BYTES + MAX_PAYLOAD_BYTES + 1
  {
  }

  lemma EmbedsLonger(pixels: seq<Byte>, channels: nat, t: PayloadType, payload: seq<Byte>, stored: seq<Byte>,
                     codec: Codec)
    requires Validate(|pixels|, channels).None? && HEADER_BYTES + |stored| <= Capacity(|pixels|, channels)
    requires 0 < |payload| <= MAX_PAYLOAD_BYTES && codec.compress(payload) == Some(stored) && |stored| < WORD
    ensures Embedded(pixels, channels, t, payload, true, codec).Ok?
  {
  }

  /** A concrete case that is embedded and never extracted: the longest payload there is, with a compressor
      that cannot shorten it, in a buffer that holds the result. */
  lemma LongestPayloadIsLost(pixels: seq<Byte>, payload: seq<Byte>)
    requires |pixels| == 24 * 22_370_000 && |payload| == MAX_PAYLOAD_BYTES
    ensures Lossless(Lengthening()) && Embedded(pixels, 3, Moc, payload, true, Lengthening()).Ok?
    ensures Extracted(Embedded(pixels, 3, Moc, payload, true, Lengthening()).value, 3, Lengthening())
              == Err(InvalidLength)
  {
    var stored := payload + [0];
    LengtheningIsLossless();
    WideBuffer(pixels);
    LostOnceLonger(pixels, 3, Moc, payload, stored, Lengthening());
  }

  lemma LostOnceLonger(pixels: seq<Byte>, channels: nat, t: PayloadType, payload: seq<Byte>, stored: seq<Byte>,
                       codec: Codec)
    requires Validate(|pixels|, channels).None? && HEADER_BYTES + |stored| <= Capacity(|pixels|, channels)
    requires 0 < |payload| <= MAX_PAYLOAD_BYTES < |stored| < WORD && codec.compress(payload) == Some(stored)
    ensures Embedded(pixels, channels, t, payload, true, codec).Ok?
    ensures Extracted(Embedded(pixels, channels, t, payload, true, codec).value, channels, codec) == Err(InvalidLength)
  {
    EmbedsLonger(pixels, channels, t, payload, stored, codec);
    OversizedIsRefused(pixels, channels, t, payload, codec);
  }

  /** Embedding keeps the length, changes a byte in its lowest bit only, and leaves alone alpha and
      every sample past the carrier. */
  lemma OnlyLowBitsChange(pixels: seq<Byte>, channels: nat, t: PayloadType, payload: seq<Byte>, compress: bool,
                          codec: Codec)
    requires Embedded(pixels, channels, t, payload, compress, codec).Ok?
    ensures var after := Embedded(pixels, channels, t, payload, compress, codec).value;
            && |after| == |pixels|
            && (forall i :: 0 <= i < |pixels| ==> after[i] / 2 == pixels[i] / 2)
            && (forall i :: 0 <= i < |pixels| && channels == 4 && i % 4 == 3 ==> after[i] == pixels[i])
            && var bits := 8 * |Carrier(t, payload, compress, codec).value|;
               forall i :: 0 <= i < |pixels| && Rank(i, channels) >= bits ==> after[i] == pixels[i]
  {
  }

  // ---- The format in numbers ----

  // The lowest bit of the n-th red, green or blue sample.
  function ColourBit(pixels: seq<Byte>, channels: Channels, n: nat): nat {
    var position := if channels == 3 then n else n / 3 * 4 + n % 3;
    if position < |pixels| then pixels[position] % 2 else 0
  }

  function Worth(bit: nat): nat {
    match bit
    case 0 => 128
    case 1 => 64
    case 2 => 32
    case 3 => 16
    case 4 => 8
    case 5 => 4
    case 6 => 2
    case _ => 1
  }

  lemma {:induction false} ShiftsAre(x: nat, places: nat)
    requires places < 8
    ensures ShiftLeft(x, places) == Worth(7 - places) * x
  {
    if places > 0 {
      ShiftsAre(x, places - 1);
    }
  }

  lemma BitIsWorth(pixels: seq<Byte>, channels: Channels, index: nat, bit: nat)
    requires bit < 8
    ensures Weighed(pixels, channels, index, bit + 1)
         == Weighed(pixels, channels, index, bit) + Worth(bit) * ColourBit(pixels, channels, 8 * index + bit)
  {
    var n := 8 * index + bit;
    assert n / 3 * 3 + n % 3 == n;
    ShiftsAre(ColourBit(pixels, channels, n), 7 - bit);
  }

  // The first bits of a byte, worth half of the one before each.
  function Worths(pixels: seq<Byte>, channels: Channels, index: nat, bits: nat): nat {
    if bits == 0 then 0
    else
      Worths(pixels, channels, index, bits - 1) + Worth(bits - 1) * ColourBit(pixels, channels, 8 * index + bits - 1)
  }

  /** A byte is eight colour samples' low bits, the most significant first. */
  lemma ReadsExactly(pixels: seq<Byte>, channels: Channels, index: nat)
    ensures ReadByte(pixels, channels, index) == Worths(pixels, channels, index, 8)
  {
    for bit := 0 to 8
      invariant Weighed(pixels, channels, index, bit) == Worths(pixels, channels, index, bit)
    {
      BitIsWorth(pixels, channels, index, bit);
    }
  }

  function FourBytes(bytes: seq<Byte>, at: nat): nat
    requires at + 4 <= |bytes|
  {
    var a: int, b: int, c: int, d: int := bytes[at], bytes[at + 1], bytes[at + 2], bytes[at + 3];
    16_777_216 * a + 65_536 * b + 256 * c + d
  }

  // The first twenty-four bytes of a carrier.
  predicate IsHeader(h: seq<Byte>, t: PayloadType, compressed: bool, stored: nat, original: nat, checksum: nat) {
    && |h| == 24
    && (forall i :: 0 <= i < 8 ==> h[i] == "MOMOLSB1"[i] as int)
    && h[8] == 1 && h[9] == (if compressed then 1 else 0)
    && h[10] == (match t
                 case CharacterData => 1
                 case Moc => 2
                 case Charx => 3
                 case ExternalCharacterJson => 4
                 case ExternalCharacterPng => 5)
    && FourBytes(h, 12) == stored && FourBytes(h, 16) == original && FourBytes(h, 20) == checksum
  }

  lemma MagicSpells(h: seq<Byte>)
    requires |h| == 24
    ensures h[..8] == MAGIC <==> forall i :: 0 <= i < 8 ==> h[i] == "MOMOLSB1"[i] as int
  {
    forall i | 0 <= i < 8 ensures MAGIC[i] == "MOMOLSB1"[i] as int {
      assert MAGIC[0] == 'M' as int && MAGIC[1] == 'O' as int && MAGIC[4] == 'L' as int && MAGIC[7] == '1' as int;
    }
    assert h[..8] == MAGIC <==> forall i :: 0 <= i < 8 ==> h[i] == MAGIC[i];
  }

  lemma HeaderIsHeader(t: PayloadType, compressed: bool, stored: Word, original: Word, checksum: Word)
    ensures IsHeader(Header(t, compressed, stored, original, checksum), t, compressed, stored, original, checksum)
    ensures Header(t, compressed, stored, original, checksum)[11] == 0
  {
    var h := Header(t, compressed, stored, original, checksum);
    HeaderReads(h, t, compressed, stored, original, checksum);
    NumbersRead(h);
    MagicSpells(h);
  }

  lemma NumbersRead(h: seq<Byte>)
    requires |h| == 24
    ensures FourBytes(h, 12) == FromBigEndian(h[12..16]) && FourBytes(h, 16) == FromBigEndian(h[16..20])
    ensures FourBytes(h, 20) == FromBigEndian(h[20..24])
  {
  }

  // The bytes that are hidden: the payload, or what it is compressed to.
  function Stored(payload: seq<Byte>, compress: bool, codec: Codec): Option<seq<Byte>> {
    if compress then codec.compress(payload) else Some(payload)
  }

  /** A payload is embedded exactly when it is of 1 to 64 MiB, can be compressed if it is to be, and fits: three
      bits a pixel, behind twenty-four bytes of header. The buffer then reads as that header and what is stored. */
  lemma EmbedsExactly(pixels: seq<Byte>, channels: nat, t: PayloadType, payload: seq<Byte>, compress: bool,
                      codec: Codec)
    ensures Embedded(pixels, channels, t, payload, compress, codec).Ok? <==>
              && (channels == 3 || channels == 4) && |pixels| % channels == 0 && 0 < |payload| <= 67_108_864
              && Stored(payload, compress, codec).Some?
              && var size := |Stored(payload, compress, codec).value|;
                 size < 4_294_967_296 && 24 + size <= |pixels| / channels * 3 / 8
    ensures Embedded(pixels, channels, t, payload, compress, codec).Ok? ==>
              var after, stored := Embedded(pixels, channels, t, payload, compress, codec).value,
                  Stored(payload, compress, codec).value;
              var bytes := ReadAll(after, channels, 24 + |stored|);
              && IsHeader(bytes[..24], t, compress, |stored|, |payload|, codec.hash(payload)) && bytes[11] == 0
              && bytes[24..] == stored
  {
    hide IsHeader, ReadAll, Written;
    if Embedded(pixels, channels, t, payload, compress, codec).Ok? {
      var stored := Stored(payload, compress, codec).value;
      var header := Header(t, compress, |stored|, |payload|, codec.hash(payload));
      assert Carrier(t, payload, compress, codec) == Ok(header + stored);
      CarrierReads(pixels, channels, header, stored);
      ReadsAll(Written(pixels, channels, header + stored, |pixels|), channels, 24 + |stored|);
      HeaderIsHeader(t, compress, |stored|, |payload|, codec.hash(payload));
    }
  }

  lemma CarrierReads(pixels: seq<Byte>, channels: Channels, header: seq<Byte>, stored: seq<Byte>)
    requires |header| == 24 && |pixels| % channels == 0 && 24 + |stored| <= Capacity(|pixels|, channels)
    ensures var bytes := ReadAll(Written(pixels, channels, header + stored, |pixels|), channels, 24 + |stored|);
            bytes[..24] == header && bytes[24..] == stored
  {
    var bytes := header + stored;
    WrittenReads(pixels, channels, bytes, |bytes|);
    assert bytes[..|bytes|] == bytes && bytes[..24] == header && bytes[24..] == stored;
  }

  // What a header and the bytes behind it say, checked against the length and the checksum.
  ghost predicate Carries(pixels: seq<Byte>, channels: Channels, codec: Codec, p: Payload, stored: nat, original: nat,
                          checksum: nat)
  {
    && IsHeader(ReadAll(pixels, channels, 24), p.payloadType, p.compressed, stored, original, checksum)
    && 1 <= stored <= 67_108_864 && 1 <= original <= 67_108_864 && 24 + stored <= |pixels| / channels * 3 / 8
    && var body := ReadAll(pixels, channels, 24 + stored)[24..];
       && (if p.compressed then codec.decompress(body, original) == Some(p.bytes) else p.bytes == body)
       && |p.bytes| == original && codec.hash(p.bytes) == checksum
  }

  /** A payload is extracted exactly when the buffer carries it: a whole header of this version, numbers within
      the limits and the buffer, and bytes of the length and the checksum that the header tells. */
  lemma ExtractsExactly(pixels: seq<Byte>, channels: nat, codec: Codec, p: Payload)
    ensures Extracted(pixels, channels, codec) == Ok(p) <==>
              && (channels == 3 || channels == 4) && |pixels| % channels == 0
              && exists stored, original, checksum :: Carries(pixels, channels, codec, p, stored, original, checksum)
  {
    if Validate(|pixels|, channels).None? {
      ExtractsCarried(pixels, channels, codec, p);
    }
  }

  lemma ExtractsCarried(pixels: seq<Byte>, channels: Channels, codec: Codec, p: Payload)
    requires |pixels| % channels == 0
    ensures Extracted(pixels, channels, codec) == Ok(p) <==>
              exists stored, original, checksum :: Carries(pixels, channels, codec, p, stored, original, checksum)
  {
    hide ReadAll;
    var header := ReadAll(pixels, channels, HEADER_BYTES);
    ReadsAll(pixels, channels, HEADER_BYTES);
    NumbersRead(header);
    MagicSpells(header);
    var stored, original, checksum := FourBytes(header, 12), FourBytes(header, 16), FourBytes(header, 20);
    ReadsAll(pixels, channels, HEADER_BYTES + stored);
    if Extracted(pixels, channels, codec) == Ok(p) {
      assert Carries(pixels, channels, codec, p, stored, original, checksum);
    }
  }

  lemma ReadsAll(pixels: seq<Byte>, channels: Channels, count: nat)
    ensures |ReadAll(pixels, channels, count)| == count
  {
  }

  // Two buffers with the same low bits in their RGB samples.
  ghost predicate SameLowBits(left: seq<Byte>, right: seq<Byte>, channels: Channels) {
    |left| == |right| && forall i :: 0 <= i < |left| && IsRgb(i, channels) ==> left[i] % 2 == right[i] % 2
  }

  lemma {:induction false} SameWeight(left: seq<Byte>, right: seq<Byte>, channels: Channels, index: nat, bits: nat)
    requires SameLowBits(left, right, channels) && bits <= 8
    ensures Weighed(left, channels, index, bits) == Weighed(right, channels, index, bits)
  {
    if bits > 0 {
      SameWeight(left, right, channels, index, bits - 1);
      NthRanks(8 * index + bits - 1, channels);
    }
  }

  lemma SameRead(left: seq<Byte>, right: seq<Byte>, channels: Channels, count: nat)
    requires SameLowBits(left, right, channels)
    ensures ReadAll(left, channels, count) == ReadAll(right, channels, count)
  {
    forall i | 0 <= i < count ensures ReadByte(left, channels, i) == ReadByte(right, channels, i) {
      SameWeight(left, right, channels, i, 8);
    }
  }

  /** Extraction sees nothing but the low bits of RGB samples. */
  lemma ExtractionSeesLowBits(left: seq<Byte>, right: seq<Byte>, channels: Channels, codec: Codec)
    requires SameLowBits(left, right, channels)
    ensures Extracted(left, channels, codec) == Extracted(right, channels, codec)
  {
    SameRead(left, right, channels, HEADER_BYTES);
    var stored := FromBigEndian(ReadAll(left, channels, HEADER_BYTES)[12..16]);
    SameRead(left, right, channels, HEADER_BYTES + stored);
  }
}
