/** Length-prefixed packet fixtures (src/protocol/fixture-replay.ts): the writer, the reader with its
    error cases, and their inverse relation, on bytes and on strings. */
module FixtureReplay {
  import opened Collections
  import opened Utf8

  const MAX_FIXTURE_PACKET_BYTES := 4 * 1024 * 1024
  const UINT32_LIMIT := 0x1_0000_0000

  type Bytes = seq<Byte>

  datatype WriteResult = Written(bytes: Bytes) | LengthOutOfRange

  datatype ReadResult = Packets(packets: seq<Bytes>) | TruncatedHeader | InvalidLength(length: nat) | TruncatedPacket

  /** Four bytes, most significant first. */
  function BigEndian(n: nat): (r: Bytes)
    requires n < UINT32_LIMIT
    ensures |r| == 4
  {
    [n / 0x100_0000, n / 0x1_0000 % 0x100, n / 0x100 % 0x100, n % 0x100]
  }

  function FromBigEndian(b: Bytes): (n: nat)
    requires |b| == 4
    ensures n < UINT32_LIMIT
  {
    var b0: int, b1: int, b2: int, b3: int := b[0], b[1], b[2], b[3];
    b0 * 0x100_0000 + b1 * 0x1_0000 + b2 * 0x100 + b3
  }

  lemma BytesOf(n: nat)
    requires n < UINT32_LIMIT
    ensures FromBigEndian(BigEndian(n)) == n
  {
    assert n / 0x1_0000 == n / 0x100_0000 * 0x100 + n / 0x1_0000 % 0x100;
    assert n / 0x100 == n / 0x1_0000 * 0x100 + n / 0x100 % 0x100;
  }

  lemma LastByte(high: nat, low: nat)
    requires low < 0x100
    ensures (high * 0x100 + low) / 0x100 == high && (high * 0x100 + low) % 0x100 == low
  {
  }

  lemma BytesFrom(b: Bytes)
    requires |b| == 4
    ensures BigEndian(FromBigEndian(b)) == b
  {
    var b0: int, b1: int, b2: int, b3: int := b[0], b[1], b[2], b[3];
    var m := FromBigEndian(b);
    LastByte(b0, b1);
    LastByte(b0 * 0x100 + b1, b2);
    LastByte(b0 * 0x1_0000 + b1 * 0x100 + b2, b3);
    assert m / 0x1_0000 == m / 0x100 / 0x100 && m / 0x100_0000 == m / 0x1_0000 / 0x100;
  }

  lemma BigEndianRoundTrip(n: nat, b: Bytes)
    requires n < UINT32_LIMIT && |b| == 4
    ensures FromBigEndian(BigEndian(n)) == n
    ensures BigEndian(FromBigEndian(b)) == b
  {
    BytesOf(n);
    BytesFrom(b);
  }

  predicate Writable(packets: seq<Bytes>) {
    forall i :: 0 <= i < |packets| ==> |packets[i]| < UINT32_LIMIT
  }

  /** A packet size the reader accepts. */
  predicate Readable(packets: seq<Bytes>) {
    forall i :: 0 <= i < |packets| ==> 1 <= |packets[i]| <= MAX_FIXTURE_PACKET_BYTES
  }

  function Encoded(packets: seq<Bytes>): Bytes
    requires Writable(packets)
    decreases |packets|
  {
    if packets == [] then [] else BigEndian(|packets[0]|) + packets[0] + Encoded(packets[1..])
  }

  /** What reading the whole of a byte string gives. */
  function Decoded(buffer: Bytes): ReadResult
    decreases |buffer|
  {
    if buffer == [] then Packets([])
    else if |buffer| < 4 then TruncatedHeader
    else
      var length := FromBigEndian(buffer[..4]);
      if length < 1 || length > MAX_FIXTURE_PACKET_BYTES then InvalidLength(length)
      else if |buffer| - 4 < length then TruncatedPacket
      else
        var rest := Decoded(buffer[4 + length..]);
        if rest.Packets? then Packets([buffer[4..4 + length]] + rest.packets) else rest
  }

  lemma OnePacket(p: Bytes, rest: Bytes)
    requires |p| < UINT32_LIMIT
    ensures var b := BigEndian(|p|) + p + rest;
            |b| >= 4 && FromBigEndian(b[..4]) == |p| && b[4..4 + |p|] == p && b[4 + |p|..] == rest
  {
    BigEndianRoundTrip(|p|, [0, 0, 0, 0]);
    var b := BigEndian(|p|) + p + rest;
    assert b[..4] == BigEndian(|p|);
  }

  /** Main result.  Reading back what was written gives the same packets exactly when every packet is
      non-empty and at most four mebibytes; the first packet that is not stops the reader. */
  lemma {:induction false} ReadsBackIff(packets: seq<Bytes>)
    requires Writable(packets)
    ensures Decoded(Encoded(packets)) == Packets(packets) <==> Readable(packets)
    ensures !Readable(packets) ==> Decoded(Encoded(packets)).InvalidLength?
    decreases |packets|
  {
    if packets != [] {
      var p, rest := packets[0], packets[1..];
      ReadsBackIff(rest);
      OnePacket(p, Encoded(rest));
      assert packets == [p] + rest;
      assert Readable(packets) <==> 1 <= |p| <= MAX_FIXTURE_PACKET_BYTES && Readable(rest);
    }
  }

  /** A packet read off the front is what its header and body spell. */
  lemma FrontOf(buffer: Bytes, length: nat)
    requires 4 <= |buffer| && length == FromBigEndian(buffer[..4]) && 4 + length <= |buffer|
    ensures BigEndian(length) + buffer[4..4 + length] + buffer[4 + length..] == buffer
  {
    BigEndianRoundTrip(0, buffer[..4]);
  }

  /** Main result.  Whenever reading succeeds, on any bytes whatever, writing the packets reproduces
      the input, and every packet is of a size the reader accepts. */
  lemma {:induction false} WritesBack(buffer: Bytes)
    requires Decoded(buffer).Packets?
    ensures Readable(Decoded(buffer).packets) && Writable(Decoded(buffer).packets)
    ensures Encoded(Decoded(buffer).packets) == buffer
    decreases |buffer|
  {
    if buffer != [] {
      var length := FromBigEndian(buffer[..4]);
      var body, rest := buffer[4..4 + length], buffer[4 + length..];
      WritesBack(rest);
      FrontOf(buffer, length);
      var packets := Decoded(rest).packets;
      assert Decoded(buffer).packets == [body] + packets;
      assert ([body] + packets)[1..] == packets;
    }
  }

  // ---------- strings ----------

  function Bodies(texts: seq<Text>): (r: seq<Bytes>)
    ensures |r| == |texts| && forall i :: 0 <= i < |texts| ==> r[i] == Encode(texts[i])
  {
    seq(|texts|, i requires 0 <= i < |texts| => Encode(texts[i]))
  }

  /** The texts of packets of valid UTF-8. */
  function TextsOf(packets: seq<Bytes>): Option<seq<Text>> {
    if packets == [] then Some([]) else
    var first, rest := Decode(packets[0]), TextsOf(packets[1..]);
    if first.Some? && rest.Some? then Some([first.value] + rest.value) else None
  }

  /** The texts a fixture holds, when it can be read and is valid UTF-8. */
  function ReadTexts(buffer: Bytes): Option<seq<Text>> {
    var r := Decoded(buffer);
    if r.Packets? then TextsOf(r.packets) else None
  }

  predicate AllWellFormed(texts: seq<Text>) {
    forall i :: 0 <= i < |texts| ==> WellFormed(texts[i])
  }

  lemma {:induction false} TextsOfBodies(texts: seq<Text>)
    ensures TextsOf(Bodies(texts)).Some? && |TextsOf(Bodies(texts)).value| == |texts|
    ensures forall i :: 0 <= i < |texts| ==> TextsOf(Bodies(texts)).value[i] == Repair(texts[i])
    decreases |texts|
  {
    if texts != [] {
      DecodingRepairs(texts[0]);
      assert Bodies(texts)[1..] == Bodies(texts[1..]);
      TextsOfBodies(texts[1..]);
    }
  }

  /** Main result.  Texts come back from a fixture exactly when each encodes to 1 to 4194304 bytes and no
      surrogate in them stands alone. */
  lemma TextsReadBackIff(texts: seq<Text>)
    requires Writable(Bodies(texts))
    ensures ReadTexts(Encoded(Bodies(texts))) == Some(texts) <==> Readable(Bodies(texts)) && AllWellFormed(texts)
  {
    ReadsBackIff(Bodies(texts));
    TextsOfBodies(texts);
    forall i | 0 <= i < |texts| ensures Repair(texts[i]) == texts[i] <==> WellFormed(texts[i]) {
      RepairIff(texts[i]);
    }
    if AllWellFormed(texts) {
      assert TextsOf(Bodies(texts)).value == texts;
    }
  }

  lemma {:induction false} TextsOfValid(packets: seq<Bytes>)
    requires TextsOf(packets).Some?
    ensures Bodies(TextsOf(packets).value) == packets
    decreases |packets|
  {
    if packets != [] {
      var texts := TextsOf(packets).value;
      DecodedIsValid(packets[0]);
      TextsOfValid(packets[1..]);
      assert texts == [texts[0]] + texts[1..];
      assert Bodies(texts)[1..] == Bodies(texts[1..]) == packets[1..];
      assert packets == [packets[0]] + packets[1..] && Bodies(texts) == [Bodies(texts)[0]] + Bodies(texts)[1..];
    }
  }

  /** Main result.  Whenever texts are read from a file, writing them reproduces the file. */
  lemma TextsWriteBack(buffer: Bytes)
    requires ReadTexts(buffer).Some?
    ensures var bodies := Bodies(ReadTexts(buffer).value); Writable(bodies) && Encoded(bodies) == buffer
  {
    WritesBack(buffer);
    TextsOfValid(Decoded(buffer).packets);
  }

  // ---------- the functions with their loops ----------

  /** Writes the packets one after the other; a length that does not fit four bytes is an error. */
  method EncodeFixturePackets(packets: seq<Text>) returns (r: WriteResult)
    ensures r == if Writable(Bodies(packets)) then Written(Encoded(Bodies(packets))) else LengthOutOfRange
  {
    var out: Bytes := [];
    for i := 0 to |packets|
      invariant Writable(Bodies(packets)[..i])
      invariant out == Encoded(Bodies(packets)[..i])
    {
      var body := Encode(packets[i]);
      if |body| >= UINT32_LIMIT {
        assert Bodies(packets)[i] == body;
        return LengthOutOfRange;
      }
      EncodedAppend(Bodies(packets)[..i], body);
      assert Bodies(packets)[..i + 1] == Bodies(packets)[..i] + [body];
      out := out + BigEndian(|body|) + body;
    }
    assert Bodies(packets)[..|packets|] == Bodies(packets);
    return Written(out);
  }

  lemma {:induction false} EncodedAppend(packets: seq<Bytes>, p: Bytes)
    requires Writable(packets) && |p| < UINT32_LIMIT
    ensures Writable(packets + [p]) && Encoded(packets + [p]) == Encoded(packets) + BigEndian(|p|) + p
    decreases |packets|
  {
    if packets == [] {
      assert packets + [p] == [p];
      assert Encoded([p][1..]) == [];
    } else {
      EncodedAppend(packets[1..], p);
      assert (packets + [p])[1..] == packets[1..] + [p];
    }
  }

  /** Packets already read, followed by what the rest of the buffer gives. */
  function After(packets: seq<Bytes>, rest: ReadResult): ReadResult {
    if rest.Packets? then Packets(packets + rest.packets) else rest
  }

  lemma AfterAfter(packets: seq<Bytes>, p: Bytes, rest: ReadResult)
    ensures After(packets, After([p], rest)) == After(packets + [p], rest)
  {
    if rest.Packets? {
      assert packets + ([p] + rest.packets) == packets + [p] + rest.packets;
    }
  }

  lemma DecodedFront(buffer: Bytes, length: nat)
    requires 4 <= |buffer| && length == FromBigEndian(buffer[..4]) && 4 + length <= |buffer|
    requires 1 <= length <= MAX_FIXTURE_PACKET_BYTES
    ensures Decoded(buffer) == After([buffer[4..4 + length]], Decoded(buffer[4 + length..]))
  {
  }

  lemma TailHeader(buffer: Bytes, offset: nat)
    requires offset + 4 <= |buffer|
    ensures buffer[offset..][..4] == buffer[offset..offset + 4]
  {
  }

  lemma TailSlices(buffer: Bytes, offset: nat, n: nat)
    requires offset + 4 + n <= |buffer|
    ensures buffer[offset..][4..4 + n] == buffer[offset + 4..offset + 4 + n]
    ensures buffer[offset..][4 + n..] == buffer[offset + 4 + n..]
  {
  }

  lemma PacketAt(buffer: Bytes, offset: nat, length: nat)
    requires offset + 4 + length <= |buffer| && length == FromBigEndian(buffer[offset..offset + 4])
    requires 1 <= length <= MAX_FIXTURE_PACKET_BYTES
    ensures Decoded(buffer[offset..])
         == After([buffer[offset + 4..offset + 4 + length]], Decoded(buffer[offset + 4 + length..]))
  {
    TailHeader(buffer, offset);
    TailSlices(buffer, offset, length);
    DecodedFront(buffer[offset..], length);
  }

  lemma DecodedStops(buffer: Bytes)
    requires buffer != []
    ensures |buffer| < 4 ==> Decoded(buffer) == TruncatedHeader
    ensures |buffer| >= 4 ==>
              var length := FromBigEndian(buffer[..4]);
              if length < 1 || length > MAX_FIXTURE_PACKET_BYTES then Decoded(buffer) == InvalidLength(length)
              else |buffer| - 4 < length ==> Decoded(buffer) == TruncatedPacket
  {
  }

  /** Reads the packet at this offset; `stop` says why there is none. */
  method ReadPacket(buffer: Bytes, offset: nat) returns (stop: Option<ReadResult>, body: Bytes)
    requires offset < |buffer|
    ensures stop.Some? ==> !stop.value.Packets? && Decoded(buffer[offset..]) == stop.value
    ensures stop.None? ==>
              && offset + 4 + |body| <= |buffer|
              && Decoded(buffer[offset..]) == After([body], Decoded(buffer[offset + 4 + |body|..]))
  {
    body := [];
    DecodedStops(buffer[offset..]);
    if |buffer| - offset < 4 {
      return Some(TruncatedHeader), body;
    }
    TailHeader(buffer, offset);
    var length := FromBigEndian(buffer[offset..offset + 4]);
    if length < 1 || length > MAX_FIXTURE_PACKET_BYTES {
      return Some(InvalidLength(length)), body;
    }
    if |buffer| - offset - 4 < length {
      return Some(TruncatedPacket), body;
    }
    PacketAt(buffer, offset, length);
    return None, buffer[offset + 4..offset + 4 + length];
  }

  method ReadFixtureBuffer(buffer: Bytes) returns (r: ReadResult)
    ensures r == Decoded(buffer)
  {
    var packets: seq<Bytes> := [];
    var offset := 0;
    assert buffer[0..] == buffer;
    while offset < |buffer|
      invariant 0 <= offset <= |buffer|
      invariant Decoded(buffer) == After(packets, Decoded(buffer[offset..]))
      decreases |buffer| - offset
    {
      var stop, body := ReadPacket(buffer, offset);
      if stop.Some? {
        return stop.value;
      }
      offset := offset + 4 + |body|;
      AfterAfter(packets, body, Decoded(buffer[offset..]));
      packets := packets + [body];
    }
    return Packets(packets);
  }
}
