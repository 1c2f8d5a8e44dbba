/** The formats on the wire spelled out byte by byte: SOOP packets (src/protocol/packet.ts), UTF-8 by the
    table in section 4 of RFC 3629, surrogate pairs, and fixture files (src/protocol/fixture-replay.ts). */
module WireFormat {
  import opened Collections
  import opened Utf8
  import opened Packet
  import opened FixtureReplay

  // ---------- decimal fields ----------

  predicate Decimal(t: Text) {
    forall i :: 0 <= i < |t| ==> 48 <= t[i] <= 57
  }

  /** The number that decimal digits spell, the most significant first. */
  function Spelled(t: Text): nat
    requires Decimal(t)
    decreases |t|
  {
    if t == [] then 0 else 10 * Spelled(t[..|t| - 1]) + (t[|t| - 1] as int - 48)
  }

  lemma {:induction false} SpelledIsValue(t: Text)
    requires AllDigits(t)
    ensures Decimal(t) && Value(t) == Spelled(t)
    decreases |t|
  {
    if t != [] {
      SpelledIsValue(t[..|t| - 1]);
    }
  }

  /** Digits of a given number spell one number each. */
  lemma {:induction false} SpelledOnce(a: Text, b: Text)
    requires Decimal(a) && Decimal(b) && |a| == |b| && Spelled(a) == Spelled(b)
    ensures a == b
    decreases |a|
  {
    if a != [] {
      var n := |a| - 1;
      SpelledOnce(a[..n], b[..n]);
      assert a == a[..n] + [a[n]] && b == b[..n] + [b[n]];
    }
  }

  lemma {:induction false} SpelledBelow(t: Text)
    requires Decimal(t)
    ensures |t| == 4 ==> Spelled(t) <= 9999
    ensures |t| == 6 ==> Spelled(t) <= 999999
  {
    DecimalDigits(t);
    SpelledIsValue(t);
    ValueBelow(t);
    PowersOfTen();
  }

  lemma DecimalDigits(t: Text)
    requires Decimal(t)
    ensures AllDigits(t)
  {
  }

  lemma PowersOfTen()
    ensures Pow10(4) == 10000 && Pow10(6) == 1000000
  {
    assert Pow10(2) == 100 && Pow10(4) == 100 * Pow10(2) && Pow10(6) == 100 * Pow10(4);
  }

  // ---------- packets ----------

  /** ESC and tab, four digits of code, six digits of byte length, two zeros, and then the payload. */
  predicate Laid(raw: Text, code: nat, payload: Text) {
    && |raw| == 14 + |payload| && raw[0] == 27 && raw[1] == 9 && raw[12] == 48 && raw[13] == 48
    && Decimal(raw[2..6]) && Spelled(raw[2..6]) == code
    && Decimal(raw[6..12]) && Spelled(raw[6..12]) == |Encode(payload)|
    && raw[14..] == payload
  }

  /** Main result.  A packet within the field widths is laid out exactly so. */
  lemma PacketIsLaid(code: nat, payload: Text)
    requires code <= 9999 && |Encode(payload)| <= 999999
    ensures Laid(BuildPacket(code, payload), code, payload)
  {
    var raw := BuildPacket(code, payload);
    ByteLengthIsEncodedLength(payload);
    FieldsFound(code, payload);
    BuiltShape(code, payload);
    PaddedFacts(code, 4);
    PaddedFacts(ByteLength(payload), 6);
    PowersOfTen();
    SpelledIsValue(raw[2..6]);
    SpelledIsValue(raw[6..12]);
    assert raw[12] == raw[2..14][10] && raw[13] == raw[2..14][11];
  }

  /** Two packets laid out for the same code and payload are the same. */
  lemma LaidOnce(raw: Text, raw': Text, code: nat, payload: Text)
    requires Laid(raw, code, payload) && Laid(raw', code, payload)
    ensures raw == raw'
  {
    SpelledOnce(raw[2..6], raw'[2..6]);
    SpelledOnce(raw[6..12], raw'[6..12]);
    forall i | 0 <= i < |raw| ensures raw[i] == raw'[i] {
      if 2 <= i < 6 {
        assert raw[2..6][i - 2] == raw'[2..6][i - 2];
      } else if 6 <= i < 12 {
        assert raw[6..12][i - 6] == raw'[6..12][i - 6];
      } else if i >= 14 {
        assert raw[14..][i - 14] == raw'[14..][i - 14];
      }
    }
  }

  lemma TooLongIsLonger(code: nat, payload: Text)
    requires code <= 9999 && |Encode(payload)| > 999999
    ensures |BuildPacket(code, payload)| > 14 + |payload|
  {
    ByteLengthIsEncodedLength(payload);
    BuiltShape(code, payload);
    PaddedFacts(code, 4);
    PaddedFacts(ByteLength(payload), 6);
    PowersOfTen();
  }

  /** Main result.  Building is the inverse of parsing: a packet with decimal fields that parses is what the
      builder makes of its code and its payload field exactly when its length is valid and its two filler
      digits are zeros. */
  lemma RebuildIff(raw: Text, number: Text -> Option<int>)
    requires ReadsDecimals(number) && ParsePacket(raw, number).Parsed? && Decimal(raw[2..6]) && Decimal(raw[6..12])
    ensures var p := ParsePacket(raw, number).packet;
            && p.code >= 0
            && (raw == BuildPacket(p.code, raw[14..]) <==> p.lengthValid && raw[12] == 48 && raw[13] == 48)
  {
    var p, payload := ParsePacket(raw, number).packet, raw[14..];
    var code := Spelled(raw[2..6]);
    DecimalDigits(raw[2..6]);
    DecimalDigits(raw[6..12]);
    SpelledIsValue(raw[2..6]);
    SpelledIsValue(raw[6..12]);
    SpelledBelow(raw[2..6]);
    SpelledBelow(raw[6..12]);
    ByteLengthIsEncodedLength(payload);
    assert p.code == code && p.lengthValid == (Spelled(raw[6..12]) == |Encode(payload)|);
    if |Encode(payload)| > 999999 {
      TooLongIsLonger(code, payload);
    } else {
      PacketIsLaid(code, payload);
      if p.lengthValid && raw[12] == 48 && raw[13] == 48 {
        LaidOnce(raw, BuildPacket(code, payload), code, payload);
      }
    }
  }

  /** Which texts are refused, and how. */
  lemma ParseVerdict(raw: Text, number: Text -> Option<int>)
    ensures var r := ParsePacket(raw, number);
            var started := |raw| >= 2 && raw[0] == 27 && raw[1] == 9;
            && (r.InvalidStarter? <==> !started)
            && (r.TooShort? <==> started && |raw| < 14)
            && (r.Parsed? <==> started && |raw| >= 14 && number(raw[2..6]).Some? && number(raw[6..12]).Some?)
  {
    if |raw| >= 2 {
      assert ESC <= raw <==> raw[0] == 27 && raw[1] == 9;
    }
  }

  /** Parts, each after a form feed. */
  function Fed(parts: seq<Text>): Text {
    if parts == [] then [] else [12] + parts[0] + Fed(parts[1..])
  }

  predicate NoFormFeed(parts: seq<Text>) {
    forall i :: 0 <= i < |parts| ==> 12 !in parts[i]
  }

  lemma {:induction false} FedIsFramed(parts: seq<Text>)
    requires parts != []
    ensures Fed(parts) == [12] + Join(parts)
    decreases |parts|
  {
    if |parts| > 1 {
      FedIsFramed(parts[1..]);
      assert [12] + parts[0] + ([12] + Join(parts[1..])) == [12] + (parts[0] + [12] + Join(parts[1..]));
    } else {
      assert Fed(parts[1..]) == [];
    }
  }

  lemma {:induction false} SplitIsFed(rest: Text)
    ensures Split(rest) != [] && NoFormFeed(Split(rest)) && Fed(Split(rest)) == [12] + rest
  {
    var parts := Split(rest);
    JoinAfterSplit(rest);
    FedIsFramed(parts);
    forall i | 0 <= i < |parts| ensures 12 !in parts[i] {
      assert SeparatorFree(parts[i]);
    }
  }

  lemma {:induction false} CutAt(wire: Text, k: nat)
    requires k < |wire| && wire[k] == 12
    ensures wire == wire[..k] + ([12] + wire[k + 1..])
  {
  }

  /** What a packet with this payload field, first form feed at k, says of its parts. */
  lemma {:induction false} ParsedParts(raw: Text, number: Text -> Option<int>, wire: Text, k: nat)
    requires ParsePacket(raw, number).Parsed? && wire == raw[14..] && k == IndexOfSeparator(wire)
    ensures var p := ParsePacket(raw, number).packet;
            && p.parts == (if k < |wire| then Split(wire[k + 1..]) else [])
            && p.payload == if k < |wire| then wire[k + 1..] else wire
  {
  }

  /** The parts of a parsed packet are what follows each form feed of its payload field; what stands before
      the first one is in none. */
  lemma {:induction false} PartsAreFed(raw: Text, number: Text -> Option<int>) returns (before: Text)
    requires ParsePacket(raw, number).Parsed?
    ensures var p := ParsePacket(raw, number).packet;
            && 12 !in before && raw[14..] == before + Fed(p.parts)
            && NoFormFeed(p.parts)
            && p.payload == if p.parts == [] then before else Fed(p.parts)[1..]
  {
    var wire := raw[14..];
    var k := IndexOfSeparator(wire);
    ParsedParts(raw, number, wire, k);
    before := wire[..k];
    if k < |wire| {
      SplitIsFed(wire[k + 1..]);
      CutAt(wire, k);
    } else {
      assert before == wire;
    }
  }

  // ---------- characters as bytes ----------

  predicate Trailing(b: Byte) {
    0x80 <= b <= 0xBF
  }

  /** The table of section 4 of RFC 3629. */
  predicate InTable(b: seq<Byte>) {
    || (|b| == 1 && b[0] <= 0x7F)
    || (|b| == 2 && 0xC2 <= b[0] <= 0xDF && Trailing(b[1]))
    || (|b| == 3 && Trailing(b[2])
        && (|| (b[0] == 0xE0 && 0xA0 <= b[1] <= 0xBF)
            || (0xE1 <= b[0] <= 0xEC && Trailing(b[1]))
            || (b[0] == 0xED && 0x80 <= b[1] <= 0x9F)
            || (0xEE <= b[0] <= 0xEF && Trailing(b[1]))))
    || (|b| == 4 && Trailing(b[2]) && Trailing(b[3])
        && (|| (b[0] == 0xF0 && 0x90 <= b[1] <= 0xBF)
            || (0xF1 <= b[0] <= 0xF3 && Trailing(b[1]))
            || (b[0] == 0xF4 && 0x80 <= b[1] <= 0x8F)))
  }

  /** The bits of the first byte after its marker. */
  function LeadBits(b: Byte, n: nat): int {
    if n <= 1 then b else if n == 2 then b - 0xC0 else if n == 3 then b - 0xE0 else b - 0xF0
  }

  /** The bits of the bytes, six from each after the first. */
  function Bits(b: seq<Byte>, n: nat): int
    requires 1 <= |b|
    decreases |b|
  {
    if |b| == 1 then LeadBits(b[0], n) else 0x40 * Bits(b[..|b| - 1], n) + (b[|b| - 1] as int - 0x80)
  }

  lemma BitsOfTwo(b: seq<Byte>, n: nat)
    requires |b| == 2
    ensures Bits(b, n) == 0x40 * LeadBits(b[0], n) + (b[1] as int - 0x80)
  {
    assert b[..1] == [b[0]];
  }

  lemma BitsOfThree(b: seq<Byte>, n: nat)
    requires |b| == 3
    ensures Bits(b, n) == 0x1000 * LeadBits(b[0], n) + 0x40 * (b[1] as int - 0x80) + (b[2] as int - 0x80)
  {
    assert b[..2][0] == b[0] && b[..2][1] == b[1];
    BitsOfTwo(b[..2], n);
  }

  lemma BitsOfFour(b: seq<Byte>, n: nat)
    requires |b| == 4
    ensures Bits(b, n) == 0x4_0000 * LeadBits(b[0], n) + 0x1000 * (b[1] as int - 0x80) + 0x40 * (b[2] as int - 0x80)
                          + (b[3] as int - 0x80)
  {
    assert b[..3][0] == b[0] && b[..3][1] == b[1] && b[..3][2] == b[2];
    BitsOfThree(b[..3], n);
  }

  lemma BitsAre(b: seq<Byte>)
    requires 1 <= |b| <= 4
    ensures |b| == 2 ==> Bits(b, 2) == 0x40 * (b[0] as int - 0xC0) + (b[1] as int - 0x80)
    ensures |b| == 3 ==>
              Bits(b, 3) == 0x1000 * (b[0] as int - 0xE0) + 0x40 * (b[1] as int - 0x80) + (b[2] as int - 0x80)
    ensures |b| == 4 ==> Bits(b, 4) == 0x4_0000 * (b[0] as int - 0xF0) + 0x1000 * (b[1] as int - 0x80)
                                       + 0x40 * (b[2] as int - 0x80) + (b[3] as int - 0x80)
  {
    if |b| == 2 {
      BitsOfTwo(b, 2);
    } else if |b| == 3 {
      BitsOfThree(b, 3);
    } else if |b| == 4 {
      BitsOfFour(b, 4);
    }
  }

  /** A character is encoded by the bytes of the table that carry its bits. */
  lemma EncodedByTable(c: nat)
    requires Scalar(c)
    ensures InTable(EncodeScalar(c)) && Bits(EncodeScalar(c), |EncodeScalar(c)|) == c
  {
    BitsAre(EncodeScalar(c));
    if c >= 0x1_0000 {
      FourDigits(c);
    } else if c >= 0x800 {
      ThreeDigits(c);
    }
  }

  lemma HalfByte(q: nat, r: nat)
    requires r < 0x40
    ensures (0x40 * q + r) / 0x40 == q && (0x40 * q + r) % 0x40 == r
  {
  }

  lemma TwoInTable(b: seq<Byte>, c: int)
    requires |b| == 2 && InTable(b) && c == Bits(b, 2)
    ensures c >= 0 && Scalar(c) && EncodeScalar(c) == b
  {
    BitsAre(b);
    var b0: int, b1: int := b[0], b[1];
    HalfByte(b0 - 0xC0, b1 - 0x80);
  }

  lemma ThreeBits(b0: int, b1: int, b2: int, c: int)
    requires 0xE0 <= b0 <= 0xEF && 0x80 <= b1 <= 0xBF && 0x80 <= b2 <= 0xBF
    requires c == 0x1000 * (b0 - 0xE0) + 0x40 * (b1 - 0x80) + (b2 - 0x80)
    ensures c / 0x1000 == b0 - 0xE0 && c / 0x40 % 0x40 == b1 - 0x80 && c % 0x40 == b2 - 0x80
  {
    var high := 0x40 * (b0 - 0xE0) + (b1 - 0x80);
    HalfByte(high, b2 - 0x80);
    HalfByte(b0 - 0xE0, b1 - 0x80);
    assert c == 0x40 * high + (b2 - 0x80);
    assert c / 0x1000 == c / 0x40 / 0x40;
  }

  lemma ThreeInTable(b: seq<Byte>, c: int)
    requires |b| == 3 && InTable(b) && c == Bits(b, 3)
    ensures c >= 0 && Scalar(c) && EncodeScalar(c) == b
  {
    BitsAre(b);
    ThreeBits(b[0], b[1], b[2], c);
    assert 0x800 <= c < 0x1_0000;
  }

  lemma FourBits(b0: int, b1: int, b2: int, b3: int, c: int)
    requires 0xF0 <= b0 <= 0xF4 && 0x80 <= b1 <= 0xBF && 0x80 <= b2 <= 0xBF && 0x80 <= b3 <= 0xBF
    requires c == 0x4_0000 * (b0 - 0xF0) + 0x1000 * (b1 - 0x80) + 0x40 * (b2 - 0x80) + (b3 - 0x80)
    ensures c / 0x4_0000 == b0 - 0xF0 && c / 0x1000 % 0x40 == b1 - 0x80 && c / 0x40 % 0x40 == b2 - 0x80
    ensures c % 0x40 == b3 - 0x80
  {
    var top := 0x40 * (b0 - 0xF0) + (b1 - 0x80);
    var high := 0x40 * top + (b2 - 0x80);
    HalfByte(high, b3 - 0x80);
    HalfByte(top, b2 - 0x80);
    HalfByte(b0 - 0xF0, b1 - 0x80);
    assert c == 0x40 * high + (b3 - 0x80);
    assert c / 0x1000 == c / 0x40 / 0x40 && c / 0x4_0000 == c / 0x1000 / 0x40;
  }

  lemma FourInTable(b: seq<Byte>, c: int)
    requires |b| == 4 && InTable(b) && c == Bits(b, 4)
    ensures c >= 0 && Scalar(c) && EncodeScalar(c) == b
  {
    BitsAre(b);
    FourBits(b[0], b[1], b[2], b[3], c);
    assert 0x1_0000 <= c < 0x11_0000;
  }

  /** Main result.  The encodings of characters are exactly the entries of the table of RFC 3629, each
      standing for the character whose bits it carries. */
  lemma EncodedIff(c: nat, b: seq<Byte>)
    ensures Scalar(c) && b == EncodeScalar(c) <==> InTable(b) && Bits(b, |b|) == c
  {
    if Scalar(c) {
      EncodedByTable(c);
    }
    if InTable(b) {
      if |b| == 2 {
        TwoInTable(b, Bits(b, 2));
      } else if |b| == 3 {
        ThreeInTable(b, Bits(b, 3));
      } else if |b| == 4 {
        FourInTable(b, Bits(b, 4));
      }
    }
  }

  predicate Pair(t: Text) {
    |t| == 2 && 0xD800 <= t[0] <= 0xDBFF && 0xDC00 <= t[1] <= 0xDFFF
  }

  /** Surrogate pairs stand, in their order, for the characters from U+10000 to U+10FFFF. */
  lemma PairsAreInOrder(t: Text, u: Text)
    requires Pair(t) && Pair(u)
    ensures 0x1_0000 <= First(t) <= 0x10_FFFF && Units(First(t)) == t
    ensures First(t) < First(u) <==> t[0] < u[0] || (t[0] == u[0] && t[1] < u[1])
  {
    UnitsOfFirst(t);
    assert Head(t) == t;
  }

  lemma Replacement()
    ensures EncodeScalar(0xFFFD) == [0xEF, 0xBF, 0xBD]
  {
  }

  /** What the first character is. */
  lemma FirstCharacter(t: Text, pair: bool)
    requires t != [] && pair == (|t| >= 2 && Pair([t[0], t[1]]))
    ensures pair ==> Width(t) == 2 && First(t) == First([t[0], t[1]])
    ensures !pair ==> Width(t) == 1 && First(t) == if 0xD800 <= t[0] <= 0xDFFF then 0xFFFD else t[0]
  {
  }

  lemma EncodeNext(t: Text, c: nat, n: nat)
    requires t != [] && c == First(t) && n == Width(t)
    ensures Encode(t) == EncodeScalar(c) + Encode(t[n..])
  {
  }

  /** Text is encoded character by character: a pair stands for its character, a code unit that is no
      surrogate for itself, and a surrogate that is not part of a pair is sent as EF BF BD. */
  lemma CharacterByCharacter(t: Text, pair: bool)
    requires t != [] && pair == (|t| >= 2 && Pair([t[0], t[1]]))
    ensures pair ==> Encode(t) == EncodeScalar(First([t[0], t[1]])) + Encode(t[2..])
    ensures !pair && 0xD800 <= t[0] <= 0xDFFF ==> Encode(t) == [0xEF, 0xBF, 0xBD] + Encode(t[1..])
    ensures !pair && !(0xD800 <= t[0] <= 0xDFFF) ==> Encode(t) == EncodeScalar(t[0]) + Encode(t[1..])
  {
    FirstCharacter(t, pair);
    EncodeNext(t, First(t), Width(t));
    Replacement();
  }

  // ---------- fixture files ----------

  /** Four bytes as a number, the most significant first. */
  function Header(b: seq<Byte>): nat
    requires |b| == 4
  {
    var b0: int, b1: int, b2: int, b3: int := b[0], b[1], b[2], b[3];
    ((b0 * 0x100 + b1) * 0x100 + b2) * 0x100 + b3
  }

  /** A length below 2^32 is written as the four bytes that spell it, the most significant first. */
  lemma HeaderIff(n: nat, b: seq<Byte>)
    requires n <= 4294967295 && |b| == 4
    ensures b == BigEndian(n) <==> Header(b) == n
    ensures FromBigEndian(b) == Header(b)
  {
    var b0: int, b1: int, b2: int, b3: int := b[0], b[1], b[2], b[3];
    assert Header(b) == FromBigEndian(b);
    BigEndianRoundTrip(n, b);
  }

  predicate Sized(packets: seq<Bytes>) {
    forall i :: 0 <= i < |packets| ==> 1 <= |packets[i]| <= 4194304
  }

  /** The reader can go no further than this non-empty rest, and says why. */
  predicate Stops(rest: Bytes, r: ReadResult) {
    && rest != []
    && if |rest| < 4 then r == TruncatedHeader
       else
         var n := Header(rest[..4]);
         if n == 0 || n > 4194304 then r == InvalidLength(n) else |rest| < 4 + n && r == TruncatedPacket
  }

  lemma FirstRead(p: Bytes, rest: Bytes)
    requires 1 <= |p| <= 4194304
    ensures Decoded(BigEndian(|p|) + p + rest) == After([p], Decoded(rest))
  {
    OnePacket(p, rest);
    DecodedFront(BigEndian(|p|) + p + rest, |p|);
  }

  lemma EncodedFront(p: Bytes, more: seq<Bytes>, rest: Bytes)
    requires |p| < UINT32_LIMIT && Writable(more)
    ensures Writable([p] + more)
    ensures Encoded([p] + more) + rest == BigEndian(|p|) + p + (Encoded(more) + rest)
  {
    assert ([p] + more)[1..] == more;
    assert Encoded([p] + more) == BigEndian(|p|) + p + Encoded(more);
  }

  /** What is read of packets with a rest behind them. */
  lemma {:induction false} ReadOn(packets: seq<Bytes>, rest: Bytes)
    requires Sized(packets)
    ensures Writable(packets) && Decoded(Encoded(packets) + rest) == After(packets, Decoded(rest))
    decreases |packets|
  {
    if packets == [] {
      assert Encoded(packets) + rest == rest;
      assert Decoded(rest).Packets? ==> [] + Decoded(rest).packets == Decoded(rest).packets;
    } else {
      var p, more := packets[0], packets[1..];
      ReadOn(more, rest);
      FirstRead(p, Encoded(more) + rest);
      EncodedFront(p, more, rest);
      AfterBoth(p, more, Decoded(rest));
      assert packets == [p] + more;
    }
  }

  lemma AfterBoth(p: Bytes, more: seq<Bytes>, rest: ReadResult)
    ensures After([p], After(more, rest)) == After([p] + more, rest)
  {
    if rest.Packets? {
      assert [p] + (more + rest.packets) == [p] + more + rest.packets;
    }
  }

  /** Packets of those sizes are read up to a rest at which the reader stops. */
  lemma {:induction false} ReadsUntilStop(packets: seq<Bytes>, rest: Bytes, r: ReadResult)
    requires Sized(packets) && Stops(rest, r)
    ensures Writable(packets) && Decoded(Encoded(packets) + rest) == r
  {
    ReadOn(packets, rest);
    DecodedStops(rest);
    if |rest| >= 4 {
      HeaderIff(0, rest[..4]);
    }
  }

  /** A buffer from which a packet can be read, and one from which none can. */
  lemma FrontCases(buffer: Bytes) returns (n: nat)
    requires buffer != []
    ensures Stops(buffer, Decoded(buffer)) || (1 <= n <= 4194304 && 4 + n <= |buffer| && n == Header(buffer[..4]))
  {
    n := 0;
    DecodedStops(buffer);
    if |buffer| >= 4 {
      HeaderIff(0, buffer[..4]);
      n := Header(buffer[..4]);
    }
  }

  /** The buffer is these packets and this rest, and the reader reads the packets and stops at the rest. */
  predicate Splits(buffer: Bytes, packets: seq<Bytes>, rest: Bytes) {
    && Sized(packets) && Writable(packets) && buffer == Encoded(packets) + rest
    && if rest == [] then Decoded(buffer) == Packets(packets) else Stops(rest, Decoded(buffer))
  }

  lemma SplitsOn(buffer: Bytes, n: nat, more: seq<Bytes>, rest: Bytes)
    requires 1 <= n <= 4194304 && 4 + n <= |buffer| && n == Header(buffer[..4])
    requires Splits(buffer[4 + n..], more, rest)
    ensures Splits(buffer, [buffer[4..4 + n]] + more, rest)
  {
    var p, tail := buffer[4..4 + n], buffer[4 + n..];
    HeaderIff(n, buffer[..4]);
    assert buffer == BigEndian(n) + p + tail;
    EncodedFront(p, more, rest);
    FirstRead(p, tail);
  }

  /** Main result.  Every buffer is some packets of 1 to 4194304 bytes, each behind its length in four bytes,
      and then either nothing, when just those packets are read, or a rest at which the reader stops, with
      an error that depends on that rest alone. */
  lemma {:induction false} ReaderVerdict(buffer: Bytes) returns (packets: seq<Bytes>, rest: Bytes)
    ensures Splits(buffer, packets, rest)
    decreases |buffer|
  {
    packets, rest := [], buffer;
    assert Encoded([]) + buffer == buffer;
    if buffer != [] {
      var n := FrontCases(buffer);
      if !Stops(buffer, Decoded(buffer)) {
        var more, rest' := ReaderVerdict(buffer[4 + n..]);
        SplitsOn(buffer, n, more, rest');
        packets, rest := [buffer[4..4 + n]] + more, rest';
      }
    }
  }
}
