/** JavaScript strings and their UTF-8 encoding (section 3 of RFC 3629), as `Buffer.from` and
    `Buffer.byteLength` see them. */
module Utf8 {
  import opened Collections

  /** A JavaScript string is a sequence of 16-bit code units. */
  type CodeUnit = u: nat | u < 0x1_0000

  type Text = seq<CodeUnit>

  type Byte = b: nat | b < 0x100

  predicate High(u: CodeUnit) { 0xD800 <= u < 0xDC00 }

  predicate Low(u: CodeUnit) { 0xDC00 <= u < 0xE000 }

  /** A Unicode scalar value: any code point that is not a surrogate. */
  predicate Scalar(c: nat) {
    c < 0xD800 || 0xE000 <= c < 0x11_0000
  }

  /** Code units taken by the first character: two for a surrogate pair. */
  function Width(t: Text): (n: nat)
    requires t != []
    ensures 1 <= n <= |t|
  {
    if |t| >= 2 && High(t[0]) && Low(t[1]) then 2 else 1
  }

  /** The first character; an unpaired surrogate counts as the replacement character. */
  function First(t: Text): (c: nat)
    requires t != []
    ensures Scalar(c)
  {
    if |t| >= 2 && High(t[0]) && Low(t[1]) then
      var high: int, low: int := t[0], t[1];
      0x1_0000 + (high - 0xD800) * 0x400 + (low - 0xDC00)
    else if High(t[0]) || Low(t[0]) then 0xFFFD
    else t[0]
  }

  function EncodeScalar(c: nat): (r: seq<Byte>)
    requires Scalar(c)
  {
    if c < 0x80 then [c]
    else if c < 0x800 then [0xC0 + c / 0x40, 0x80 + c % 0x40]
    else if c < 0x1_0000 then [0xE0 + c / 0x1000, 0x80 + c / 0x40 % 0x40, 0x80 + c % 0x40]
    else [0xF0 + c / 0x4_0000, 0x80 + c / 0x1000 % 0x40, 0x80 + c / 0x40 % 0x40, 0x80 + c % 0x40]
  }

  function Encode(t: Text): seq<Byte> {
    if t == [] then [] else EncodeScalar(First(t)) + Encode(t[Width(t)..])
  }

  /** Bytes the encoding takes, computed without encoding. */
  function ByteLength(t: Text): nat {
    if t == [] then 0
    else if Width(t) == 2 then 4 + ByteLength(t[2..])
    else (if t[0] < 0x80 then 1 else if t[0] < 0x800 then 2 else 3) + ByteLength(t[1..])
  }

  lemma {:induction false} ByteLengthIsEncodedLength(t: Text)
    ensures ByteLength(t) == |Encode(t)|
    decreases |t|
  {
    if t != [] {
      ByteLengthIsEncodedLength(t[Width(t)..]);
    }
  }

  /** No surrogate stands alone. */
  predicate WellFormed(t: Text) {
    t == [] || ((Width(t) == 2 || !(High(t[0]) || Low(t[0]))) && WellFormed(t[Width(t)..]))
  }

  /** The character that a complete encoding stands for. */
  function DecodeScalar(bytes: seq<Byte>): int
    requires 1 <= |bytes| <= 4
  {
    var b: int := bytes[0];
    var tail := seq(|bytes| - 1, i requires 0 <= i < |bytes| - 1 => bytes[i + 1] as int - 0x80);
    match |bytes|
    case 1 => b
    case 2 => (b - 0xC0) * 0x40 + tail[0]
    case 3 => (b - 0xE0) * 0x1000 + tail[0] * 0x40 + tail[1]
    case _ => (b - 0xF0) * 0x4_0000 + tail[0] * 0x1000 + tail[1] * 0x40 + tail[2]
  }

  lemma ThreeDigits(c: nat)
    ensures c / 0x1000 * 0x1000 + c / 0x40 % 0x40 * 0x40 + c % 0x40 == c
  {
    assert c / 0x40 == c / 0x1000 * 0x40 + c / 0x40 % 0x40;
  }

  lemma FourDigits(c: nat)
    ensures c / 0x4_0000 * 0x4_0000 + c / 0x1000 % 0x40 * 0x1000 + c / 0x40 % 0x40 * 0x40 + c % 0x40 == c
  {
    ThreeDigits(c);
    assert c / 0x1000 == c / 0x4_0000 * 0x40 + c / 0x1000 % 0x40;
  }

  lemma DecodesToItself(c: nat)
    requires Scalar(c)
    ensures 1 <= |EncodeScalar(c)| <= 4 && DecodeScalar(EncodeScalar(c)) == c
  {
    if c >= 0x1_0000 {
      FourDigits(c);
    } else if c >= 0x800 {
      ThreeDigits(c);
    }
  }

  // ---------- what encoding loses ----------

  /** The code units of the first character, an unpaired surrogate replaced. */
  function Head(t: Text): (r: Text)
    requires t != []
    ensures |r| == Width(t)
  {
    if Width(t) == 2 then t[..2] else if High(t[0]) || Low(t[0]) then [0xFFFD] else [t[0]]
  }

  /** The text with every unpaired surrogate replaced by U+FFFD. */
  function Repair(t: Text): Text {
    if t == [] then [] else Head(t) + Repair(t[Width(t)..])
  }

  /** The head of a repaired text is the head it was given. */
  lemma RepairedHead(h: Text, rest: Text)
    requires h != [] && Width(h) == |h| && Head(h) == h && (|h| == 1 ==> !High(h[0]))
    ensures Width(h + rest) == |h| && First(h + rest) == First(h) && Head(h + rest) == h && (h + rest)[|h|..] == rest
  {
    assert (h + rest)[..|h|] == h;
    assert (h + rest)[0] == h[0] && (|h| == 2 ==> (h + rest)[1] == h[1]);
  }

  lemma HeadFacts(t: Text)
    requires t != []
    ensures var h := Head(t);
            Width(h) == |h| && Head(h) == h && (|h| == 1 ==> !High(h[0]) && !Low(h[0])) && First(h) == First(t)
  {
    assert Width(t) == 2 ==> Head(t)[0] == t[0] && Head(t)[1] == t[1];
    assert Head(t)[..|Head(t)|] == Head(t);
  }

  /** Repairing leaves the encoding as it is, and leaves nothing more to repair. */
  lemma {:induction false} RepairFacts(t: Text)
    ensures WellFormed(Repair(t)) && Encode(Repair(t)) == Encode(t)
    decreases |t|
  {
    if t != [] {
      RepairFacts(t[Width(t)..]);
      HeadFacts(t);
      RepairedHead(Head(t), Repair(t[Width(t)..]));
    }
  }

  /** A text needs no repair exactly when it is well-formed. */
  lemma {:induction false} RepairIff(t: Text)
    ensures Repair(t) == t <==> WellFormed(t)
    decreases |t|
  {
    if t != [] {
      var n := Width(t);
      RepairIff(t[n..]);
      assert t == t[..n] + t[n..];
      assert Repair(t)[..n] == Head(t) && Repair(t)[n..] == Repair(t[n..]);
      assert t[..n] == if n == 2 then t[..2] else [t[0]];
      assert Head(t) == t[..n] <==> n == 2 || !(High(t[0]) || Low(t[0])) by {
        assert Head(t)[0] == Repair(t)[0];
      }
    }
  }

  // ---------- decoding ----------

  /** Bytes of the character that starts with this byte; none starts with the others. */
  function LeadLength(b: Byte): nat {
    if b < 0x80 then 1
    else if b < 0xC0 then 0
    else if b < 0xE0 then 2
    else if b < 0xF0 then 3
    else if b < 0xF8 then 4
    else 0
  }

  function Units(c: nat): Text
    requires Scalar(c)
  {
    if c < 0x1_0000 then [c] else [0xD800 + (c - 0x1_0000) / 0x400, 0xDC00 + (c - 0x1_0000) % 0x400]
  }

  /** The text of valid UTF-8 bytes. */
  function Decode(bytes: seq<Byte>): Option<Text> {
    if bytes == [] then Some([]) else
    var n := LeadLength(bytes[0]);
    if n == 0 || n > |bytes| then None else
    var c := DecodeScalar(bytes[..n]);
    if c < 0 || !Scalar(c) || EncodeScalar(c) != bytes[..n] then None else
    var rest := Decode(bytes[n..]);
    if rest.Some? then Some(Units(c) + rest.value) else None
  }

  lemma UnitsOfFirst(t: Text)
    requires t != []
    ensures Units(First(t)) == Head(t)
  {
    if Width(t) == 2 {
      var high: int, low: int := t[0], t[1];
      assert First(t) - 0x1_0000 == (high - 0xD800) * 0x400 + (low - 0xDC00);
    }
  }

  lemma LeadFits(c: nat)
    requires Scalar(c)
    ensures EncodeScalar(c) != [] && LeadLength(EncodeScalar(c)[0]) == |EncodeScalar(c)|
  {
  }

  lemma DecodeFirst(c: nat, rest: seq<Byte>)
    requires Scalar(c)
    ensures Decode(EncodeScalar(c) + rest)
         == if Decode(rest).Some? then Some(Units(c) + Decode(rest).value) else None
  {
    var e := EncodeScalar(c);
    LeadFits(c);
    DecodesToItself(c);
    assert (e + rest)[0] == e[0] && (e + rest)[..|e|] == e && (e + rest)[|e|..] == rest;
  }

  /** Decoding an encoded text gives the repaired text. */
  lemma {:induction false} DecodingRepairs(t: Text)
    ensures Decode(Encode(t)) == Some(Repair(t))
    decreases |t|
  {
    if t != [] {
      DecodingRepairs(t[Width(t)..]);
      DecodeFirst(First(t), Encode(t[Width(t)..]));
      UnitsOfFirst(t);
    }
  }

  /** Main result.  A text survives being written and read back exactly when no surrogate stands alone. */
  lemma SurvivesIff(t: Text)
    ensures Decode(Encode(t)) == Some(t) <==> WellFormed(t)
  {
    DecodingRepairs(t);
    RepairIff(t);
  }

  lemma UnitsFacts(c: nat)
    requires Scalar(c)
    ensures var h := Units(c);
            Width(h) == |h| && Head(h) == h && (|h| == 1 ==> !High(h[0]) && !Low(h[0])) && First(h) == c
  {
  }

  lemma DecodeSplit(bytes: seq<Byte>) returns (c: nat, n: nat)
    requires bytes != [] && Decode(bytes).Some?
    ensures 1 <= n <= |bytes| && Scalar(c) && EncodeScalar(c) == bytes[..n]
    ensures Decode(bytes[n..]).Some? && Decode(bytes).value == Units(c) + Decode(bytes[n..]).value
  {
    n := LeadLength(bytes[0]);
    c := DecodeScalar(bytes[..n]);
  }

  lemma UnitsEncode(c: nat, rest: Text)
    requires Scalar(c) && WellFormed(rest)
    ensures WellFormed(Units(c) + rest) && Encode(Units(c) + rest) == EncodeScalar(c) + Encode(rest)
  {
    UnitsFacts(c);
    RepairedHead(Units(c), rest);
  }

  /** Whatever decodes is the encoding of its text, and that text is well-formed. */
  lemma {:induction false} DecodedIsValid(bytes: seq<Byte>)
    requires Decode(bytes).Some?
    ensures WellFormed(Decode(bytes).value) && Encode(Decode(bytes).value) == bytes
    decreases |bytes|
  {
    if bytes != [] {
      var c, n := DecodeSplit(bytes);
      DecodedIsValid(bytes[n..]);
      UnitsEncode(c, Decode(bytes[n..]).value);
      assert bytes == bytes[..n] + bytes[n..];
    }
  }

  /** Well-formed text is determined by its bytes. */
  lemma EncodingDeterminesText(a: Text, b: Text)
    requires WellFormed(a) && WellFormed(b) && Encode(a) == Encode(b)
    ensures a == b
  {
    SurvivesIff(a);
    SurvivesIff(b);
  }
}
