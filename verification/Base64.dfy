/** Base64 encoding of alarm texts: the streaming loop over a 32-bit accumulator against the
    encoding of section 4 of RFC 4648. */
module Base64 {
  import opened Basics

  type sextet = x: int | 0 <= x < 64

  const PADDING := '='

  // ----- the standard ------------------------------------------------------------------------------------------------

  /** Table 1 of the standard. */
  function Char(i: sextet): char {
    if i < 26 then 'A' + i as char
    else if i < 52 then 'a' + (i - 26) as char
    else if i < 62 then '0' + (i - 52) as char
    else if i == 62 then '+' else '/'
  }

  /** The alphabet read backwards. */
  function Value(c: char): Option<sextet> {
    if 'A' <= c <= 'Z' then Some((c - 'A') as int)
    else if 'a' <= c <= 'z' then Some((c - 'a') as int + 26)
    else if '0' <= c <= '9' then Some((c - '0') as int + 52)
    else if c == '+' then Some(62)
    else if c == '/' then Some(63)
    else None
  }

  /** Three bytes are the same 24 bits as four sextets. */
  datatype Sextets = Sextets(w: sextet, x: sextet, y: sextet, z: sextet)

  function Split(a: byte, b: byte, c: byte): Sextets {
    Sextets(a / 4, a % 4 * 16 + b / 16, b % 16 * 4 + c / 64, c % 64)
  }

  function Join(s: Sextets): seq<byte> {
    [s.w * 4 + s.x / 16, s.x % 16 * 16 + s.y / 4, s.y % 4 * 64 + s.z]
  }

  function EncodeGroup(s: Sextets): string {
    [Char(s.w), Char(s.x), Char(s.y), Char(s.z)]
  }

  function ByteAt(input: seq<byte>, i: nat): byte {
    if i < |input| then input[i] else 0
  }

  /** The g-th group, filled up with zero bits if it is not whole. */
  function GroupAt(input: seq<byte>, g: nat): Sextets {
    Split(ByteAt(input, 3 * g), ByteAt(input, 3 * g + 1), ByteAt(input, 3 * g + 2))
  }

  /** The sextets that a final group lacks are padding. */
  function Encode(input: seq<byte>): string {
    var text := EncodeGroup(GroupAt(input, 0));
    if input == [] then ""
    else if |input| == 1 then text[..2] + [PADDING, PADDING]
    else if |input| == 2 then text[..3] + [PADDING]
    else text + Encode(input[3..])
  }

  function Decode(text: string): Option<seq<byte>> {
    if text == "" then Some([])
    else if |text| < 4 then None
    else
      var w, x, y, z := Value(text[0]), Value(text[1]), Value(text[2]), Value(text[3]);
      if w.None? || x.None? then None
      else if |text| == 4 && text[2..] == [PADDING, PADDING] then Some(Join(Sextets(w.value, x.value, 0, 0))[..1])
      else if y.None? then None
      else if |text| == 4 && text[3] == PADDING then Some(Join(Sextets(w.value, x.value, y.value, 0))[..2])
      else if z.None? then None
      else
        var rest := Decode(text[4..]);
        if rest.None? then None else Some(Join(Sextets(w.value, x.value, y.value, z.value)) + rest.value)
  }

  // ----- the standard's laws -----------------------------------------------------------------------------------------

  lemma CharValue(i: sextet)
    ensures Value(Char(i)) == Some(i) && Char(i) != PADDING
  {
  }

  /** The sextets are the bits of the 24-bit number, and joining them gives the bytes back. */
  lemma SplitJoin(a: byte, b: byte, c: byte)
    ensures Join(Split(a, b, c)) == [a, b, c]
    ensures var s := Split(a, b, c);
            ((s.w * 64 + s.x) * 64 + s.y) * 64 + s.z == (a * 256 + b) * 256 + c
    ensures Split(a, 0, 0).y == 0 && Split(a, 0, 0).z == 0 && Split(a, b, 0).z == 0
  {
  }

  lemma GroupValues(s: Sextets)
    ensures var t := EncodeGroup(s);
            && Value(t[0]) == Some(s.w) && Value(t[1]) == Some(s.x) && Value(t[2]) == Some(s.y) && Value(t[3]) == Some(s.z)
            && t[2] != PADDING && t[3] != PADDING
  {
    CharValue(s.w);
    CharValue(s.x);
    CharValue(s.y);
    CharValue(s.z);
  }

  lemma DecodeOne(a: byte)
    ensures Decode(Encode([a])) == Some([a])
  {
    var group, text := Split(a, 0, 0), Encode([a]);
    SplitJoin(a, 0, 0);
    GroupValues(group);
    assert text == EncodeGroup(group)[..2] + [PADDING, PADDING];
    assert text[2..] == [PADDING, PADDING];
    assert Sextets(group.w, group.x, 0, 0) == group;
    assert Join(group)[..1] == [a];
  }

  lemma DecodeTwo(a: byte, b: byte)
    ensures Decode(Encode([a, b])) == Some([a, b])
  {
    var group, text := Split(a, b, 0), Encode([a, b]);
    SplitJoin(a, b, 0);
    GroupValues(group);
    assert text == EncodeGroup(group)[..3] + [PADDING];
    assert text[2..][0] != PADDING;
    assert Sextets(group.w, group.x, group.y, 0) == group;
    assert Join(group)[..2] == [a, b];
  }

  lemma DecodeThree(s: Sextets, rest: string)
    ensures Decode(EncodeGroup(s) + rest) ==
            if Decode(rest).None? then None else Some(Join(s) + Decode(rest).value)
  {
    GroupValues(s);
    var text := EncodeGroup(s) + rest;
    assert text[4..] == rest && text[..4] == EncodeGroup(s);
    assert text[2..][0] != PADDING && text[3] != PADDING;
  }

  lemma DecodeMore(s: Sextets, rest: string, input: seq<byte>)
    requires |input| > 2 && Join(s) == input[..3] && Decode(rest) == Some(input[3..])
    ensures Decode(EncodeGroup(s) + rest) == Some(input)
  {
    DecodeThree(s, rest);
    assert input == input[..3] + input[3..];
  }

  lemma JoinFirst(input: seq<byte>)
    requires |input| > 2
    ensures Join(GroupAt(input, 0)) == input[..3]
  {
    SplitJoin(input[0], input[1], input[2]);
  }

  /** Decoding what was encoded gives the bytes back. */
  lemma {:induction false} DecodeEncode(input: seq<byte>)
    ensures Decode(Encode(input)) == Some(input)
  {
    if |input| == 1 {
      DecodeOne(input[0]);
      assert input == [input[0]];
    } else if |input| == 2 {
      DecodeTwo(input[0], input[1]);
      assert input == [input[0], input[1]];
    } else if |input| > 2 {
      DecodeEncode(input[3..]);
      JoinFirst(input);
      DecodeMore(GroupAt(input, 0), Encode(input[3..]), input);
    }
  }

  function Padded(n: nat): nat {
    (n + 2) / 3 * 4
  }

  lemma PaddedStep(n: nat)
    requires n >= 3
    ensures Padded(n) == Padded(n - 3) + 4
  {
  }

  lemma EncodeStep(input: seq<byte>)
    requires |input| > 2
    ensures |Encode(input)| == 4 + |Encode(input[3..])| && Encode(input)[4..] == Encode(input[3..])
  {
  }

  /** Four characters for every three bytes begun. */
  lemma {:induction false} EncodedLength(input: seq<byte>)
    ensures |Encode(input)| == Padded(|input|)
  {
    if |input| > 2 {
      EncodedLength(input[3..]);
      EncodeStep(input);
      PaddedStep(|input|);
    }
  }

  // ----- character by character --------------------------------------------------------------------------------------

  function Pick(s: Sextets, r: nat): sextet {
    if r == 0 then s.w else if r == 1 then s.x else if r == 2 then s.y else s.z
  }

  /** The k-th sextet of the input, taken as a bit string that ends in zeros. */
  function SextetAt(input: seq<byte>, k: nat): sextet {
    Pick(GroupAt(input, k / 4), k % 4)
  }

  /** The sextets that hold at least one bit of the input. */
  function SextetCount(n: nat): nat {
    (n * 8 + 5) / 6
  }

  lemma ByteAtStep(input: seq<byte>, i: nat)
    requires |input| >= 3
    ensures ByteAt(input[3..], i) == ByteAt(input, i + 3)
  {
  }

  lemma SextetAtStep(input: seq<byte>, k: nat)
    requires k >= 4 && |input| >= 3
    ensures SextetAt(input, k) == SextetAt(input[3..], k - 4)
  {
    var g := (k - 4) / 4;
    assert k / 4 == g + 1 && k % 4 == (k - 4) % 4;
    ByteAtStep(input, 3 * g);
    ByteAtStep(input, 3 * g + 1);
    ByteAtStep(input, 3 * g + 2);
    assert GroupAt(input, g + 1) == GroupAt(input[3..], g);
  }

  lemma SextetCountStep(n: nat)
    ensures SextetCount(n + 3) == SextetCount(n) + 4
    ensures SextetCount(0) == 0 && SextetCount(1) == 2 && SextetCount(2) == 3
  {
  }

  lemma PickChar(s: Sextets, r: nat)
    requires r < 4
    ensures EncodeGroup(s)[r] == Char(Pick(s, r))
  {
  }

  lemma FirstGroupAt(input: seq<byte>, k: nat)
    requires input != [] && k < 4
    ensures |Encode(input)| >= 4
    ensures Encode(input)[k] == if k < SextetCount(|input|) then Char(SextetAt(input, k)) else PADDING
  {
    SextetCountStep(if |input| >= 3 then |input| - 3 else 0);
    PickChar(GroupAt(input, 0), k);
    assert k / 4 == 0 && k % 4 == k;
  }

  lemma {:induction false} EncodeAt(input: seq<byte>, k: nat)
    requires k < |Encode(input)|
    ensures Encode(input)[k] == if k < SextetCount(|input|) then Char(SextetAt(input, k)) else PADDING
  {
    if k < 4 {
      FirstGroupAt(input, k);
    } else {
      EncodeStep(input);
      EncodeAt(input[3..], k - 4);
      assert Encode(input)[k] == Encode(input)[4..][k - 4];
      SextetAtStep(input, k);
      SextetCountStep(|input| - 3);
    }
  }

  /** So a text of the right length with the right characters is the encoding. */
  lemma IsEncoding(input: seq<byte>, text: string)
    requires |text| == Padded(|input|)
    requires forall k | 0 <= k < |text| ::
               text[k] == if k < SextetCount(|input|) then Char(SextetAt(input, k)) else PADDING
    ensures text == Encode(input)
  {
    EncodedLength(input);
    forall k | 0 <= k < |text| ensures text[k] == Encode(input)[k] { EncodeAt(input, k); }
  }

  // ----- the streaming loop ------------------------------------------------------------------------------------------

  const BASE64_CHARS := "ABCDEFGHIJKLMNOPQRSTUVWXYZ" + "abcdefghijklmnopqrstuvwxyz" + "0123456789+/"
  const TWO_TO_THE_32 := 0x1_0000_0000

  lemma TableIsAlphabet(i: sextet)
    ensures |BASE64_CHARS| == 64 && BASE64_CHARS[i] == Char(i)
  {
    var upper, lower := "ABCDEFGHIJKLMNOPQRSTUVWXYZ", "abcdefghijklmnopqrstuvwxyz";
    if i < 26 {
      assert BASE64_CHARS[i] == upper[i];
    } else if i < 52 {
      assert BASE64_CHARS[i] == lower[i - 26];
    } else {
      assert BASE64_CHARS[i] == "0123456789+/"[i - 52];
    }
  }

  function ShiftLeft8(val: nat): nat {
    val * 256 % TWO_TO_THE_32
  }

  /** `(val >> bits) & 0x3F`, for the shifts that occur. */
  function Extract(val: nat, bits: nat): sextet
    requires bits == 0 || bits == 2 || bits == 4 || bits == 6
  {
    (if bits == 0 then val else if bits == 2 then val / 4 else if bits == 4 then val / 16 else val / 64) % 64
  }

  /** The last two of the first n bytes. */
  function LastTwo(input: seq<byte>, n: nat): int
    requires n <= |input|
  {
    if n == 0 then 0 else if n == 1 then input[0] else (input[n - 2] as int) * 256 + input[n - 1]
  }

  lemma LowOfSum(j: int, r: int)
    ensures (0x1_0000 * j + r) % 0x1_0000 == r % 0x1_0000
  {
  }

  lemma WrapKeepsLow(x: nat)
    ensures x % TWO_TO_THE_32 % 0x1_0000 == x % 0x1_0000
  {
    LowOfSum(-(x / TWO_TO_THE_32 * 0x1_0000), x);
  }

  lemma LowOfShifted(val: nat, b: byte)
    ensures (val * 256 + b) % 0x1_0000 == val % 256 * 256 + b
  {
    LowOfSum(val / 256, val % 256 * 256 + b);
    assert val * 256 + b == 0x1_0000 * (val / 256) + (val % 256 * 256 + b);
  }

  lemma ShiftKeepsLow(val: nat, b: byte)
    ensures (ShiftLeft8(val) + b) % 0x1_0000 == (val * 256 + b) % 0x1_0000
  {
    var k := val * 256 / TWO_TO_THE_32;
    LowOfSum(-(k * 0x1_0000), val * 256 + b);
    assert ShiftLeft8(val) == val * 256 - TWO_TO_THE_32 * k;
  }

  lemma LowOfLow(val: nat)
    ensures val % 0x1_0000 % 256 == val % 256
  {
  }

  /** What wraps out of the accumulator is never read: its low 16 bits are the last two bytes. */
  lemma Accumulate(val: nat, b: byte)
    ensures (ShiftLeft8(val) + b) % TWO_TO_THE_32 % 0x1_0000 == val % 0x1_0000 % 256 * 256 + b
  {
    WrapKeepsLow(ShiftLeft8(val) + b);
    ShiftKeepsLow(val, b);
    LowOfShifted(val, b);
    LowOfLow(val);
  }

  lemma LastTwoStep(input: seq<byte>, n: nat)
    requires n < |input|
    ensures LastTwo(input, n + 1) == LastTwo(input, n) % 256 * 256 + input[n]
  {
  }

  lemma Quotient(j: int, r: int)
    ensures (4 * j + r) / 4 == j + r / 4
    ensures (16 * j + r) / 16 == j + r / 16
    ensures (64 * j + r) / 64 == j + r / 64
  {
  }

  lemma Remainder(j: int, r: int)
    requires 0 <= r < 64
    ensures (64 * j + r) % 64 == r
  {
  }

  lemma Extract2(h: nat, a: byte, b: byte)
    ensures Extract(h * 0x1_0000 + a * 256 + b, 2) == b / 4
  {
    Quotient(h * 0x4000 + a * 64, b);
    Remainder(h * 0x100 + a, b / 4);
  }

  lemma Extract4(h: nat, a: byte, b: byte)
    ensures Extract(h * 0x1_0000 + a * 256 + b, 4) == a % 4 * 16 + b / 16
  {
    Quotient(h * 0x1000 + a * 16, b);
    Remainder(h * 0x40 + a / 4, a % 4 * 16 + b / 16);
  }

  lemma Extract6(h: nat, a: byte, b: byte)
    ensures Extract(h * 0x1_0000 + a * 256 + b, 6) == a % 16 * 4 + b / 64
  {
    Quotient(h * 0x400 + a * 4, b);
    Remainder(h * 0x10 + a / 16, a % 16 * 4 + b / 64);
  }

  lemma Extract0(h: nat, a: byte, b: byte)
    ensures Extract(h * 0x1_0000 + a * 256 + b, 0) == b % 64
  {
    assert h * 0x1_0000 + a * 256 + b == 64 * (h * 0x400 + a * 4) + b;
  }

  lemma ExtractLow(val: nat, a: byte, b: byte)
    requires val % 0x1_0000 == a * 256 + b
    ensures Extract(val, 2) == b / 4 && Extract(val, 4) == a % 4 * 16 + b / 16
    ensures Extract(val, 6) == a % 16 * 4 + b / 64 && Extract(val, 0) == b % 64
  {
    var h := val / 0x1_0000;
    var whole := h * 0x1_0000 + a * 256 + b;
    assert val == whole;
    Extract0(h, a, b);
    Extract2(h, a, b);
    Extract4(h, a, b);
    Extract6(h, a, b);
  }

  lemma LowByte(val: nat, a: byte, b: byte)
    requires val % 0x1_0000 == a * 256 + b
    ensures val % 256 == b
  {
    LowOfLow(val);
  }

  lemma ExtractRest(val: nat, a: byte, b: byte)
    requires val % 0x1_0000 == a * 256 + b
    ensures Extract(ShiftLeft8(val), 4) == b % 4 * 16 && Extract(ShiftLeft8(val), 6) == b % 16 * 4
  {
    WrapKeepsLow(val * 256);
    LowOfShifted(val, 0);
    LowByte(val, a, b);
    ExtractLow(ShiftLeft8(val), b, 0);
  }

  lemma Position(i: nat, k: nat, bits: int)
    requires 6 * k + 6 + bits == 8 * (i + 1)
    ensures bits == 2 ==> k % 4 == 0 && 3 * (k / 4) == i
    ensures bits == 4 || bits == -4 ==> k % 4 == 1 && 3 * (k / 4) == if bits == 4 then i - 1 else i
    ensures bits == 6 || bits == -2 ==> k % 4 == 2 && 3 * (k / 4) == if bits == 6 then i - 2 else i - 1
    ensures bits == 0 ==> k % 4 == 3 && 3 * (k / 4) == i - 2
  {
  }

  /** The bits extracted while byte i is being handled are the next sextet. */
  lemma ExtractIsSextet(input: seq<byte>, i: nat, val: nat, bits: nat, k: nat)
    requires i < |input| && val % 0x1_0000 == LastTwo(input, i + 1)
    requires (bits == 0 || bits == 2 || bits == 4 || bits == 6) && 6 * k + 6 + bits == 8 * (i + 1)
    ensures Extract(val, bits) == SextetAt(input, k)
  {
    ExtractLow(val, if i == 0 then 0 else input[i - 1], input[i]);
    Position(i, k, bits);
  }

  /** The bits left at the end are the last sextet. */
  lemma RemainderIsSextet(input: seq<byte>, val: nat, bits: int, k: nat)
    requires input != [] && val % 0x1_0000 == LastTwo(input, |input|)
    requires (bits == -4 || bits == -2) && 6 * k + 6 + bits == 8 * |input|
    ensures Extract(ShiftLeft8(val), bits + 8) == SextetAt(input, k)
  {
    var i := |input| - 1;
    ExtractRest(val, if i == 0 then 0 else input[i - 1], input[i]);
    Position(i, k, bits);
  }

  lemma BitsLeft(n: nat, k: nat, bits: int)
    requires 6 * k + 6 + bits == 8 * n && -6 <= bits < 8
    ensures bits % 2 == 0 && bits <= 6
    ensures bits < 0 ==> SextetCount(n) == if bits == -6 then k else k + 1
  {
    assert bits == 2 * (4 * n - 3 * k - 3);
    assert n * 8 + 5 == 6 * k + 11 + bits;
  }

  lemma SextetsFit(n: nat)
    ensures SextetCount(n) <= Padded(n)
  {
  }

  lemma PaddedLength(n: nat, k: nat)
    requires SextetCount(n) <= k <= Padded(n)
    ensures k % 4 != 0 ==> k < Padded(n)
    ensures k % 4 == 0 ==> k == Padded(n)
  {
  }

  ghost predicate StartsWell(input: seq<byte>, output: string) {
    forall k | 0 <= k < |output| :: output[k] == Char(SextetAt(input, k))
  }

  /** The inner loop: all whole sextets of the bits gathered so far. */
  method EmitSextets(input: seq<byte>, n: nat, val: nat, before: string, bits: int) returns (output: string, valBits: int)
    requires n < |input| && val % 0x1_0000 == LastTwo(input, n + 1)
    requires 6 * |before| + 6 + bits == 8 * (n + 1) && -6 <= bits < 8 && StartsWell(input, before)
    ensures 6 * |output| + 6 + valBits == 8 * (n + 1) && -6 <= valBits < 0 && StartsWell(input, output)
  {
    output, valBits := before, bits;
    while valBits >= 0
      invariant 6 * |output| + 6 + valBits == 8 * (n + 1) && -6 <= valBits < 8 && StartsWell(input, output)
    {
      BitsLeft(n + 1, |output|, valBits);
      ExtractIsSextet(input, n, val, valBits, |output|);
      TableIsAlphabet(Extract(val, valBits));
      output := output + [BASE64_CHARS[Extract(val, valBits)]];
      valBits := valBits - 6;
    }
  }

  /** The bits left after the last byte, filled up with zeros. */
  method EmitRest(input: seq<byte>, val: nat, before: string, bits: int) returns (output: string)
    requires val % 0x1_0000 == LastTwo(input, |input|)
    requires 6 * |before| + 6 + bits == 8 * |input| && -6 <= bits < 0 && StartsWell(input, before)
    ensures |output| == SextetCount(|input|) && StartsWell(input, output)
  {
    BitsLeft(|input|, |before|, bits);
    output := before;
    if bits > -6 {
      RemainderIsSextet(input, val, bits, |output|);
      TableIsAlphabet(Extract(ShiftLeft8(val), bits + 8));
      output := output + [BASE64_CHARS[Extract(ShiftLeft8(val), bits + 8)]];
    }
  }

  method Base64Encode(input: seq<byte>) returns (output: string)
    ensures output == Encode(input)
  {
    output := "";
    var val: nat, valBits := 0, -6;
    for n := 0 to |input|
      invariant 6 * |output| + 6 + valBits == 8 * n && -6 <= valBits < 0
      invariant val % 0x1_0000 == LastTwo(input, n) && StartsWell(input, output)
    {
      Accumulate(val, input[n]);
      LastTwoStep(input, n);
      val := (ShiftLeft8(val) + input[n]) % TWO_TO_THE_32;
      output, valBits := EmitSextets(input, n, val, output, valBits + 8);
    }
    output := EmitRest(input, val, output, valBits);
    SextetsFit(|input|);
    ghost var sextets := output;
    while |output| % 4 != 0
      invariant |sextets| <= |output| <= Padded(|input|)
      decreases Padded(|input|) - |output|
      invariant output[..|sextets|] == sextets && forall k | |sextets| <= k < |output| :: output[k] == PADDING
    {
      PaddedLength(|input|, |output|);
      output := output + [PADDING];
    }
    PaddedLength(|input|, |output|);
    assert forall k | 0 <= k < |sextets| :: output[k] == sextets[k];
    IsEncoding(input, output);
  }
}
