/** The SOOP wire packet (src/protocol/packet.ts): a printer with zero-padded decimal fields and a
    parser that slices them back out, over JavaScript strings. */
module Packet {
  import opened Collections
  import opened Utf8

  const ESC: Text := [0x1B, 0x09]
  const SEPARATOR: CodeUnit := 0x0C
  const ZERO: CodeUnit := 0x30

  datatype ParsedPacket = ParsedPacket(code: int, declaredLength: int, actualLength: nat, lengthValid: bool,
                                       payload: Text, parts: seq<Text>, raw: Text)

  datatype ParseResult = Parsed(packet: ParsedPacket) | InvalidStarter | TooShort | InvalidHeader

  // ---------- decimal numerals ----------

  function Digits(n: nat): Text {
    if n < 10 then [0x30 + n] else Digits(n / 10) + [0x30 + n % 10]
  }

  predicate IsDigit(u: CodeUnit) { 0x30 <= u < 0x3A }

  predicate AllDigits(t: Text) {
    forall i :: 0 <= i < |t| ==> IsDigit(t[i])
  }

  function Value(t: Text): nat
    requires AllDigits(t)
    decreases |t|
  {
    if t == [] then 0 else Value(t[..|t| - 1]) * 10 + (t[|t| - 1] as int - 0x30)
  }

  function Zeros(n: nat): (r: Text)
    ensures |r| == n && forall i :: 0 <= i < n ==> r[i] == ZERO
  {
    seq(n, _ => ZERO)
  }

  /** `padStart` with zeros. */
  function Padded(t: Text, width: nat): Text {
    if |t| >= width then t else Zeros(width - |t|) + t
  }

  function Pow10(n: nat): nat {
    if n == 0 then 1 else 10 * Pow10(n - 1)
  }

  lemma {:induction false} DigitsFacts(n: nat)
    ensures AllDigits(Digits(n)) && |Digits(n)| >= 1 && Value(Digits(n)) == n
    decreases n
  {
    if n >= 10 {
      DigitsFacts(n / 10);
      assert Digits(n)[..|Digits(n)| - 1] == Digits(n / 10);
    } else {
      assert Digits(n)[..0] == [];
    }
  }

  /** A numeral has at most k digits exactly when the number is below 10^k. */
  lemma {:induction false} DigitCount(n: nat, k: nat)
    requires k >= 1
    ensures |Digits(n)| <= k <==> n < Pow10(k)
    decreases n
  {
    if n >= 10 {
      if k == 1 {
        DigitsFacts(n / 10);
        assert Pow10(1) == 10 * Pow10(0);
      } else {
        DigitCount(n / 10, k - 1);
      }
    } else {
      PowerGrows(k);
    }
  }

  lemma {:induction false} PowerGrows(k: nat)
    requires k >= 1
    ensures Pow10(k) >= 10
  {
    if k > 1 {
      PowerGrows(k - 1);
    }
  }

  lemma {:induction false} ValueBelow(t: Text)
    requires AllDigits(t)
    ensures Value(t) < Pow10(|t|)
    decreases |t|
  {
    if t != [] {
      ValueBelow(t[..|t| - 1]);
    }
  }

  lemma {:induction false} ZerosValue(n: nat, t: Text)
    requires AllDigits(t)
    ensures AllDigits(Zeros(n) + t) && Value(Zeros(n) + t) == Value(t)
    decreases |t|, n
  {
    if t != [] {
      ZerosValue(n, t[..|t| - 1]);
      assert (Zeros(n) + t)[..|Zeros(n) + t| - 1] == Zeros(n) + t[..|t| - 1];
    } else if n > 0 {
      ZerosValue(n - 1, []);
      assert (Zeros(n) + t)[..n - 1] == Zeros(n - 1) + [];
    }
  }

  lemma PaddedFacts(n: nat, width: nat)
    requires width >= 1
    ensures AllDigits(Padded(Digits(n), width)) && Value(Padded(Digits(n), width)) == n
    ensures n < Pow10(width) ==> |Padded(Digits(n), width)| == width
    ensures n >= Pow10(width) ==> |Padded(Digits(n), width)| == |Digits(n)| > width
  {
    DigitsFacts(n);
    DigitCount(n, width);
    if |Digits(n)| < width {
      ZerosValue(width - |Digits(n)|, Digits(n));
    }
  }

  // ---------- printing and parsing ----------

  function BuildPacket(code: nat, payload: Text): Text {
    ESC + Padded(Digits(code), 4) + Padded(Digits(ByteLength(payload)), 6) + [ZERO, ZERO] + payload
  }

  /** Position of the first separator, or the length when there is none. */
  function IndexOfSeparator(t: Text): (k: nat)
    ensures k <= |t|
    ensures k < |t| ==> t[k] == SEPARATOR
    ensures forall i :: 0 <= i < k ==> t[i] != SEPARATOR
  {
    if t == [] || t[0] == SEPARATOR then 0 else 1 + IndexOfSeparator(t[1..])
  }

  function Split(t: Text): seq<Text>
    decreases |t|
  {
    var k := IndexOfSeparator(t);
    if k < |t| then [t[..k]] + Split(t[k + 1..]) else [t]
  }

  function Join(parts: seq<Text>): Text {
    if parts == [] then []
    else if |parts| == 1 then parts[0]
    else parts[0] + [SEPARATOR] + Join(parts[1..])
  }

  /** `number` stands for JavaScript's conversion of a string to a number, restricted to integers: it
      yields the integer that the string denotes, or None when it denotes anything else. */
  function ParsePacket(raw: Text, number: Text -> Option<int>): ParseResult {
    if !(ESC <= raw) then InvalidStarter
    else if |raw| < 14 then TooShort
    else
      var code, declared := number(raw[2..6]), number(raw[6..12]);
      if code.None? || declared.None? then InvalidHeader
      else
        var wire := raw[14..];
        var k := IndexOfSeparator(wire);
        var payload := if k < |wire| then wire[k + 1..] else wire;
        Parsed(ParsedPacket(code.value, declared.value, ByteLength(wire), declared.value == ByteLength(wire), payload,
                            if k < |wire| then Split(payload) else [], raw))
  }

  /** All that is assumed of the conversion: it reads decimal numerals. */
  ghost predicate ReadsDecimals(number: Text -> Option<int>) {
    forall t: Text :: t != [] && AllDigits(t) ==> number(t) == Some(Value(t))
  }

  // ---------- separators ----------

  predicate SeparatorFree(t: Text) {
    SEPARATOR !in t
  }

  /** Splitting cuts the text into separator-free parts that join back to it. */
  lemma {:induction false} JoinAfterSplit(t: Text)
    ensures Split(t) != [] && Join(Split(t)) == t
    ensures forall i :: 0 <= i < |Split(t)| ==> SeparatorFree(Split(t)[i])
    decreases |t|
  {
    var k := IndexOfSeparator(t);
    if k < |t| {
      JoinAfterSplit(t[k + 1..]);
      assert t == t[..k] + [SEPARATOR] + t[k + 1..];
    }
  }

  lemma SplitAtSeparator(part: Text, rest: Text)
    requires SeparatorFree(part)
    ensures Split(part + [SEPARATOR] + rest) == [part] + Split(rest)
  {
    var t := part + [SEPARATOR] + rest;
    assert t[|part|] == SEPARATOR;
    assert forall i :: 0 <= i < |part| ==> t[i] == part[i] && part[i] != SEPARATOR;
    assert IndexOfSeparator(t) == |part|;
    assert t[..|part|] == part && t[|part| + 1..] == rest;
  }

  /** Joining separator-free parts loses none of them. */
  lemma {:induction false} SplitAfterJoin(parts: seq<Text>)
    requires parts != [] && forall i :: 0 <= i < |parts| ==> SeparatorFree(parts[i])
    ensures Split(Join(parts)) == parts
    decreases |parts|
  {
    if |parts| == 1 {
    } else {
      var rest := parts[1..];
      SplitAfterJoin(rest);
      SplitAtSeparator(parts[0], Join(rest));
      assert [parts[0]] + rest == parts;
    }
  }

  // ---------- round trips ----------

  lemma Concatenation(a: Text, b: Text, c: Text, d: Text, e: Text)
    ensures var s := a + b + c + d + e;
            var j := |a| + |b|; var k := j + |c|;
            && |s| == k + |d| + |e| && a <= s
            && s[|a|..j] == b && s[j..k] == c && s[k + |d|..] == e
            && s[|a|..k + |d|] == b + c + d
  {
    assert a + b + c + d + e == a + (b + c + d) + e;
  }

  /** A built packet as its fields. */
  lemma BuiltShape(code: nat, payload: Text)
    ensures var c, l := Padded(Digits(code), 4), Padded(Digits(ByteLength(payload)), 6);
            var raw := BuildPacket(code, payload);
            var end := 4 + |c| + |l|;
            && ESC <= raw && |c| >= 4 && |l| >= 6 && |raw| == end + |payload|
            && raw[2..2 + |c|] == c && raw[2 + |c|..2 + |c| + |l|] == l && raw[end..] == payload
            && raw[2..end] == c + l + [ZERO, ZERO]
  {
    PaddedFacts(code, 4);
    PaddedFacts(ByteLength(payload), 6);
    Concatenation(ESC, Padded(Digits(code), 4), Padded(Digits(ByteLength(payload)), 6), [ZERO, ZERO], payload);
  }

  lemma HeaderDigits(raw: Text, c: Text, l: Text)
    requires |c| >= 4 && |l| >= 6 && 4 + |c| + |l| <= |raw| && raw[2..4 + |c| + |l|] == c + l + [ZERO, ZERO]
    requires AllDigits(c) && AllDigits(l)
    ensures AllDigits(raw[2..4 + |c| + |l|]) && AllDigits(raw[2..6]) && AllDigits(raw[6..12])
  {
    var end := 4 + |c| + |l|;
    forall i | 2 <= i < 12 ensures IsDigit(raw[i]) {
      assert raw[i] == raw[2..end][i - 2];
    }
  }

  /** Within the field widths, the parser finds the fields where the printer put them. */
  lemma FieldsFound(code: nat, payload: Text)
    requires code <= 9999 && ByteLength(payload) <= 999999
    ensures var raw := BuildPacket(code, payload);
            && |raw| >= 14 && ESC <= raw && raw[14..] == payload
            && AllDigits(raw[2..6]) && Value(raw[2..6]) == code
            && AllDigits(raw[6..12]) && Value(raw[6..12]) == ByteLength(payload)
  {
    BuiltShape(code, payload);
    PaddedFacts(code, 4);
    PaddedFacts(ByteLength(payload), 6);
  }

  lemma {:induction false} AsciiPrefixLength(prefix: Text, t: Text)
    requires AllDigits(prefix)
    ensures ByteLength(prefix + t) == |prefix| + ByteLength(t)
    decreases |prefix|
  {
    if prefix == [] {
      assert prefix + t == t;
    } else {
      AsciiPrefixLength(prefix[1..], t);
      assert (prefix + t)[1..] == prefix[1..] + t;
    }
  }

  lemma SpilledHeader(raw: Text, end: nat)
    requires 14 <= end <= |raw|
    ensures raw[14..] == raw[2..end][12..] + raw[end..]
  {
    assert raw[2..end][12..] == raw[14..end];
    assert raw[14..] == raw[14..end] + raw[end..];
  }

  /** A payload too long for its field: the six digits read as the length fall short of it, and the
      text read as the payload contains it. */
  lemma LongPayloadIsDetected(code: nat, payload: Text)
    requires code <= 9999 && ByteLength(payload) > 999999
    ensures var raw := BuildPacket(code, payload);
            && |raw| >= 14 && ESC <= raw && AllDigits(raw[2..6]) && AllDigits(raw[6..12])
            && Value(raw[6..12]) < ByteLength(payload) <= ByteLength(raw[14..])
  {
    BuiltShape(code, payload);
    PaddedFacts(code, 4);
    PaddedFacts(ByteLength(payload), 6);
    var raw := BuildPacket(code, payload);
    var c, l := Padded(Digits(code), 4), Padded(Digits(ByteLength(payload)), 6);
    var end := 4 + |c| + |l|;
    HeaderDigits(raw, c, l);
    ValueBelow(raw[6..12]);
    SpilledHeader(raw, end);
    AsciiPrefixLength(raw[2..end][12..], payload);
  }

  /** A code too long for its field reads as its first four digits. */
  lemma LongCodeIsCut(code: nat, payload: Text)
    requires code > 9999
    ensures var raw := BuildPacket(code, payload);
            && |raw| >= 14 && ESC <= raw && AllDigits(raw[2..6]) && AllDigits(raw[6..12])
            && Value(raw[2..6]) < code
  {
    BuiltShape(code, payload);
    var raw := BuildPacket(code, payload);
    PaddedFacts(code, 4);
    PaddedFacts(ByteLength(payload), 6);
    HeaderDigits(raw, Padded(Digits(code), 4), Padded(Digits(ByteLength(payload)), 6));
    ValueBelow(raw[2..6]);
  }

  /** Main result.  A built packet always parses, and it parses back to its code, with a valid length
      and its own payload, exactly when the code has at most four digits and the payload at most
      999999 bytes; `wire` is the payload as sent, before its first separator is cut off. */
  lemma RoundTripIff(code: nat, payload: Text, number: Text -> Option<int>)
    requires ReadsDecimals(number)
    ensures var r := ParsePacket(BuildPacket(code, payload), number);
            && r.Parsed?
            && (r.packet.code == code && r.packet.lengthValid <==> code <= 9999 && ByteLength(payload) <= 999999)
            && (code <= 9999 && ByteLength(payload) <= 999999 ==>
                  && r.packet.declaredLength == r.packet.actualLength == ByteLength(payload)
                  && BuildPacket(code, payload)[14..] == payload)
  {
    var raw := BuildPacket(code, payload);
    if code > 9999 {
      LongCodeIsCut(code, payload);
    } else if ByteLength(payload) > 999999 {
      LongPayloadIsDetected(code, payload);
    } else {
      FieldsFound(code, payload);
    }
    assert number(raw[2..6]) == Some(Value(raw[2..6])) && number(raw[6..12]) == Some(Value(raw[6..12]));
  }

  /** The payload of a packet with the given parts, as the protocol frames it. */
  function Framed(parts: seq<Text>): Text {
    [SEPARATOR] + Join(parts)
  }

  /** What the parser makes of a payload field that opens with a separator. */
  lemma OpensWithSeparator(raw: Text, rest: Text, number: Text -> Option<int>)
    requires ESC <= raw && |raw| >= 14 && raw[14..] == [SEPARATOR] + rest
    requires number(raw[2..6]).Some? && number(raw[6..12]).Some?
    ensures var r := ParsePacket(raw, number);
            r.Parsed? && r.packet.parts == Split(rest) && r.packet.payload == rest && r.packet.raw == raw
  {
    assert raw[14..][0] == SEPARATOR && raw[14..][1..] == rest;
  }

  /** Main result.  A packet built from separator-free parts gives back exactly those parts. */
  lemma PartsRoundTrip(code: nat, parts: seq<Text>, number: Text -> Option<int>)
    requires ReadsDecimals(number)
    requires parts != [] && forall i :: 0 <= i < |parts| ==> SeparatorFree(parts[i])
    requires code <= 9999 && ByteLength(Framed(parts)) <= 999999
    ensures var r := ParsePacket(BuildPacket(code, Framed(parts)), number);
            && r.Parsed? && r.packet.code == code && r.packet.lengthValid
            && r.packet.parts == parts && r.packet.payload == Join(parts)
            && r.packet.raw == BuildPacket(code, Framed(parts))
  {
    var raw := BuildPacket(code, Framed(parts));
    RoundTripIff(code, Framed(parts), number);
    FieldsFound(code, Framed(parts));
    SplitAfterJoin(parts);
    OpensWithSeparator(raw, Join(parts), number);
  }

  /** Of any text that parses, the parts are separator-free and join back to the payload; they are
      missing exactly when the payload field holds no separator, and then the payload is that whole
      field. */
  lemma PartsJoinToPayload(raw: Text, number: Text -> Option<int>)
    requires ParsePacket(raw, number).Parsed?
    ensures var p := ParsePacket(raw, number).packet;
            && |raw| >= 14 && p.raw == raw
            && (p.parts == [] <==> SeparatorFree(raw[14..]))
            && (p.parts == [] ==> p.payload == raw[14..])
            && (p.parts != [] ==> Join(p.parts) == p.payload)
            && (forall i :: 0 <= i < |p.parts| ==> SeparatorFree(p.parts[i]))
  {
    var wire, p := raw[14..], ParsePacket(raw, number).packet;
    var k := IndexOfSeparator(wire);
    assert k < |wire| <==> !SeparatorFree(wire) by {
      if k < |wire| {
        assert wire[k] == SEPARATOR;
      }
    }
    if k < |wire| {
      JoinAfterSplit(wire[k + 1..]);
      assert p.parts == Split(wire[k + 1..]);
    } else {
      assert p.parts == [];
    }
  }
}
