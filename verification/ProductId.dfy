/** The product id: four bytes joined by the shift-or loop of `getNandStoreInfo` and
    printed with "%08lx".  The result depends on two things C leaves to the target: the
    signedness of `char` and the width of `long`.
 */
module ProductId {

  type Octet = c: char | c as int < 256 witness '\0'

  /** 32-bit ARM is Abi(false, false). */
  datatype Abi = Abi(signedChar: bool, wideLong: bool)

  function Bits(c: Octet): bv8 { (c as int) as bv8 }

  /** A `char` promoted to `int`. */
  function Promote(b: bv8, abi: Abi): bv32 {
    if abi.signedChar && b >= 0x80 then 0xFFFF_FF00 | (b as bv32) else b as bv32
  }

  /** An `int` converted to `unsigned long`. */
  function ToLong(v: bv32, abi: Abi): bv64 {
    if abi.wideLong && v >= 0x8000_0000 then 0xFFFF_FFFF_0000_0000 | (v as bv64) else v as bv64
  }

  /** `res[i] << (32 - 8 * (i + 1))` */
  function Shifted(v: bv32, i: nat): bv32
    requires i < 4
  {
    if i == 0 then v << 24 else if i == 1 then v << 16 else if i == 2 then v << 8 else v
  }

  /** Sign extension, or none: the low bits are kept and the others are all alike. */
  lemma PromoteIs(b: bv8, abi: Abi)
    ensures Promote(b, abi) & 0xFF == b as bv32
    ensures Promote(b, abi) >> 8 == if abi.signedChar && b >= 128 then 0xFF_FFFF else 0
  {}

  lemma ToLongIs(v: bv32, abi: Abi)
    ensures (ToLong(v, abi) & 0xFFFF_FFFF) as bv32 == v
    ensures ToLong(v, abi) >> 32 == if abi.wideLong && v >= 0x8000_0000 then 0xFFFF_FFFF else 0
  {
    if abi.wideLong && v >= 0x8000_0000 { LowHalf(v); }
  }

  lemma LowHalf(v: bv32)
    ensures ((0xFFFF_FFFF_0000_0000 | (v as bv64)) & 0xFFFF_FFFF) as bv32 == v
  {}

  lemma ShiftedIs(v: bv32, i: nat)
    requires i < 4
    ensures Shifted(v, i) == v << (32 - 8 * (i + 1))
  {
    if i == 0 {
      assert 32 - 8 * (i + 1) == 24;
    } else if i == 1 {
      assert 32 - 8 * (i + 1) == 16;
    } else if i == 2 {
      assert 32 - 8 * (i + 1) == 8;
    } else {
      assert 32 - 8 * (i + 1) == 0;
      ShiftByNone(v);
    }
  }

  lemma ShiftByNone(v: bv32)
    ensures v << 0 == v
  {}

  function Term(b: bv8, i: nat, abi: Abi): bv64
    requires i < 4
  {
    ToLong(Shifted(Promote(b, abi), i), abi)
  }

  function OrAll(t: seq<bv64>): bv64 {
    if t == [] then 0 else OrAll(t[..|t| - 1]) | t[|t| - 1]
  }

  /** The value the loop accumulates. */
  function Joined(b: seq<bv8>, abi: Abi): bv64
    requires |b| == 4
  {
    OrAll([Term(b[0], 0, abi), Term(b[1], 1, abi), Term(b[2], 2, abi), Term(b[3], 3, abi)])
  }

  function FourBytes(s: seq<Octet>): (b: seq<bv8>)
    requires |s| == 4
    ensures |b| == 4 && forall i :: 0 <= i < 4 ==> b[i] == Bits(s[i])
  {
    [Bits(s[0]), Bits(s[1]), Bits(s[2]), Bits(s[3])]
  }

  method JoinBytes(res: array<Octet>, abi: Abi) returns (id: bv64)
    requires res.Length >= 4
    ensures id == Joined(FourBytes(res[..4]), abi)
  {
    ghost var b := FourBytes(res[..4]);
    ghost var t := [Term(b[0], 0, abi), Term(b[1], 1, abi), Term(b[2], 2, abi), Term(b[3], 3, abi)];
    id := 0;
    for i := 0 to 4
      invariant id == OrAll(t[..i])
    {
      id := OrTerm(id, Term(Bits(res[i]), i, abi), i, t);
    }
    assert t[..4] == t;
  }

  /** One round of the loop. */
  method OrTerm(id: bv64, x: bv64, i: nat, ghost t: seq<bv64>) returns (r: bv64)
    requires i < |t| && id == OrAll(t[..i]) && x == t[i]
    ensures r == OrAll(t[..i + 1])
  {
    r := id | x;
    OrSnoc(t[..i], t[i]);
    assert t[..i] + [t[i]] == t[..i + 1];
  }

  lemma {:induction false} OrSnoc(t: seq<bv64>, x: bv64)
    ensures OrAll(t + [x]) == OrAll(t) | x
  {
    assert (t + [x])[..|t|] == t;
  }

  lemma OrTwo(w: bv64, x: bv64)
    ensures OrAll([w, x]) == w | x
  {
    OrSnoc([], w);
    OrSnoc([w], x);
    assert [] + [w] == [w] && [w] + [x] == [w, x];
  }

  lemma OrFour(w: bv64, x: bv64, y: bv64, z: bv64)
    ensures OrAll([w, x, y, z]) == w | x | y | z
  {
    OrTwo(w, x);
    OrSnoc([w, x], y);
    OrSnoc([w, x] + [y], z);
    assert [w, x] + [y] + [z] == [w, x, y, z];
  }

  // ----- when the loop joins the bytes -----

  /** The four bytes in order, the first one highest. */
  function BigEndian(b: seq<bv8>): bv64
    requires |b| == 4
  {
    ((b[0] as bv64) << 24) | ((b[1] as bv64) << 16) | ((b[2] as bv64) << 8) | (b[3] as bv64)
  }

  /** The byte patterns for which the joined value is right.  A negative char smears ones
      over the bytes before it, and a negative int over the upper half of a wide long. */
  predicate JoinsRight(b: seq<bv8>, abi: Abi)
    requires |b| == 4
  {
    match abi
    case Abi(false, false) => true
    case Abi(false, true) => b[0] < 0x80
    case Abi(true, true) => b[0] < 0x80 && b[1] < 0x80 && b[2] < 0x80 && b[3] < 0x80
    case Abi(true, false) =>
      && (b[1] >= 0x80 ==> b[0] == 0xFF)
      && (b[2] >= 0x80 ==> b[0] == 0xFF && b[1] == 0xFF)
      && (b[3] >= 0x80 ==> b[0] == 0xFF && b[1] == 0xFF && b[2] == 0xFF)
  }

  /** Byte b at position i of a 64-bit word. */
  function Placed(b: bv8, i: nat): bv64
    requires i < 4
  {
    if i == 0 then (b as bv64) << 24 else if i == 1 then (b as bv64) << 16
    else if i == 2 then (b as bv64) << 8 else b as bv64
  }

  lemma PromotePlain(b: bv8, abi: Abi)
    requires !abi.signedChar || b < 0x80
    ensures Promote(b, abi) == b as bv32
  {}

  lemma PlainFirst(b: bv8, wide: bool)
    requires !wide || b < 0x80
    ensures ToLong((b as bv32) << 24, Abi(false, wide)) == (b as bv64) << 24
  {}

  lemma PlainSecond(b: bv8, wide: bool)
    ensures ToLong((b as bv32) << 16, Abi(false, wide)) == (b as bv64) << 16
  {}

  lemma PlainThird(b: bv8, wide: bool)
    ensures ToLong((b as bv32) << 8, Abi(false, wide)) == (b as bv64) << 8
  {}

  lemma PlainFourth(b: bv8, wide: bool)
    ensures ToLong(b as bv32, Abi(false, wide)) == b as bv64
  {}

  /** A byte that is not negative, and in a wide long not first with its top bit set, goes
      where it belongs. */
  lemma PlainTerm(b: bv8, i: nat, abi: Abi)
    requires i < 4
    requires !abi.signedChar || b < 0x80
    requires !abi.wideLong || i > 0 || b < 0x80
    ensures Term(b, i, abi) == Placed(b, i)
  {
    PromotePlain(b, abi);
    if i == 0 {
      PlainFirst(b, abi.wideLong);
    } else if i == 1 {
      PlainSecond(b, abi.wideLong);
    } else if i == 2 {
      PlainThird(b, abi.wideLong);
    } else {
      PlainFourth(b, abi.wideLong);
    }
  }

  /** The first byte fills nothing, even when it is negative, in a narrow long. */
  lemma FirstTerm(b: bv8)
    ensures Term(b, 0, Abi(true, false)) == Placed(b, 0)
  {}

  // ----- bits that must not be there -----

  const HIGH: bv64 := 0xFFFF_FFFF_0000_0000

  lemma OrKeepsHigh(w: bv64, x: bv64, y: bv64, z: bv64)
    requires w & HIGH == HIGH || x & HIGH == HIGH || y & HIGH == HIGH || z & HIGH == HIGH
    ensures (w | x | y | z) & HIGH == HIGH
  {}

  lemma BigEndianIsLow(b: seq<bv8>)
    requires |b| == 4
    ensures BigEndian(b) & HIGH != HIGH
  {}

  /** A negative int fills the upper half of a wide long. */
  lemma NegativeInt(v: bv32, abi: Abi)
    requires v >= 0x8000_0000 && abi.wideLong
    ensures ToLong(v, abi) & HIGH == HIGH
  {}

  lemma FirstIsNegative(b: bv8)
    requires b >= 0x80
    ensures (b as bv32) << 24 >= 0x8000_0000
  {}

  lemma SignedIsNegative(b: bv8, i: nat)
    requires b >= 0x80 && i < 4
    ensures Shifted(0xFFFF_FF00 | (b as bv32), i) >= 0x8000_0000
  {}

  lemma HighTerm(b: bv8, i: nat, abi: Abi)
    requires i < 4 && abi.wideLong && b >= 0x80 && (abi.signedChar || i == 0)
    ensures Term(b, i, abi) & HIGH == HIGH
  {
    if abi.signedChar {
      SignedIsNegative(b, i);
    } else {
      FirstIsNegative(b);
    }
    NegativeInt(Shifted(Promote(b, abi), i), abi);
  }

  /** The bytes before position i. */
  function Before(i: nat): bv64
    requires 1 <= i < 4
  {
    if i == 1 then 0xFF00_0000 else if i == 2 then 0xFFFF_0000 else 0xFFFF_FF00
  }

  lemma OrKeepsBefore1(w: bv64, x: bv64, y: bv64, z: bv64)
    requires x & 0xFF00_0000 == 0xFF00_0000
    ensures (w | x | y | z) & 0xFF00_0000 == 0xFF00_0000
  {}

  lemma OrKeepsBefore2(w: bv64, x: bv64, y: bv64, z: bv64)
    requires y & 0xFFFF_0000 == 0xFFFF_0000
    ensures (w | x | y | z) & 0xFFFF_0000 == 0xFFFF_0000
  {}

  lemma OrKeepsBefore3(w: bv64, x: bv64, y: bv64, z: bv64)
    requires z & 0xFFFF_FF00 == 0xFFFF_FF00
    ensures (w | x | y | z) & 0xFFFF_FF00 == 0xFFFF_FF00
  {}

  lemma BeforeIff(b: seq<bv8>, i: nat)
    requires |b| == 4 && 1 <= i < 4
    ensures BigEndian(b) & Before(i) == Before(i) <==>
              b[0] == 0xFF && (i > 1 ==> b[1] == 0xFF) && (i > 2 ==> b[2] == 0xFF)
  {}

  /** A negative char fills the bytes before it. */
  lemma SmearedTerm(b: bv8, i: nat)
    requires b >= 0x80 && 1 <= i < 4
    ensures Term(b, i, Abi(true, false)) & Before(i) == Before(i)
  {}

  // ----- the four terms of one ABI -----

  ghost predicate AreTerms(w: bv64, x: bv64, y: bv64, z: bv64, b: seq<bv8>, abi: Abi)
    requires |b| == 4
  {
    w == Term(b[0], 0, abi) && x == Term(b[1], 1, abi) && y == Term(b[2], 2, abi) && z == Term(b[3], 3, abi)
  }

  lemma PlacedTerms(w: bv64, x: bv64, y: bv64, z: bv64, b: seq<bv8>)
    requires |b| == 4
    requires w == Placed(b[0], 0) && x == Placed(b[1], 1) && y == Placed(b[2], 2) && z == Placed(b[3], 3)
    ensures w | x | y | z == BigEndian(b)
  {}

  lemma PlainTerms(w: bv64, x: bv64, y: bv64, z: bv64, b: seq<bv8>, abi: Abi)
    requires |b| == 4 && AreTerms(w, x, y, z, b, abi)
    requires abi != Abi(true, false) && JoinsRight(b, abi)
    ensures w | x | y | z == BigEndian(b)
  {
    PlainTerm(b[0], 0, abi);
    PlainTerm(b[1], 1, abi);
    PlainTerm(b[2], 2, abi);
    PlainTerm(b[3], 3, abi);
    PlacedTerms(w, x, y, z, b);
  }

  lemma HighTerms(w: bv64, x: bv64, y: bv64, z: bv64, b: seq<bv8>, abi: Abi)
    requires |b| == 4 && AreTerms(w, x, y, z, b, abi)
    requires abi.wideLong && !JoinsRight(b, abi)
    ensures w | x | y | z != BigEndian(b)
  {
    if b[0] >= 0x80 {
      HighTerm(b[0], 0, abi);
    } else if b[1] >= 0x80 {
      HighTerm(b[1], 1, abi);
    } else if b[2] >= 0x80 {
      HighTerm(b[2], 2, abi);
    } else {
      HighTerm(b[3], 3, abi);
    }
    OrKeepsHigh(w, x, y, z);
    BigEndianIsLow(b);
  }

  lemma SmearedTerms(w: bv64, x: bv64, y: bv64, z: bv64, b: seq<bv8>, abi: Abi, i: nat)
    requires |b| == 4 && AreTerms(w, x, y, z, b, abi)
    requires abi == Abi(true, false) && 1 <= i < 4 && b[i] >= 0x80
    requires !(b[0] == 0xFF && (i > 1 ==> b[1] == 0xFF) && (i > 2 ==> b[2] == 0xFF))
    ensures w | x | y | z != BigEndian(b)
  {
    SmearedTerm(b[i], i);
    BeforeIff(b, i);
    if i == 1 {
      OrKeepsBefore1(w, x, y, z);
    } else if i == 2 {
      OrKeepsBefore2(w, x, y, z);
    } else {
      OrKeepsBefore3(w, x, y, z);
    }
  }

  lemma NoneNegative(w: bv64, x: bv64, y: bv64, z: bv64, b: seq<bv8>, abi: Abi)
    requires |b| == 4 && AreTerms(w, x, y, z, b, abi)
    requires abi == Abi(true, false) && b[1] < 0x80 && b[2] < 0x80 && b[3] < 0x80
    ensures w | x | y | z == BigEndian(b)
  {
    FirstTerm(b[0]);
    PlainTerm(b[1], 1, abi);
    PlainTerm(b[2], 2, abi);
    PlainTerm(b[3], 3, abi);
  }

  lemma SecondNegative(w: bv64, x: bv64, y: bv64, z: bv64, b: seq<bv8>, abi: Abi)
    requires |b| == 4 && AreTerms(w, x, y, z, b, abi)
    requires abi == Abi(true, false) && b[0] == 0xFF && b[1] >= 0x80 && b[2] < 0x80 && b[3] < 0x80
    ensures w | x | y | z == BigEndian(b)
  {}

  lemma ThirdNegative(w: bv64, x: bv64, y: bv64, z: bv64, b: seq<bv8>, abi: Abi)
    requires |b| == 4 && AreTerms(w, x, y, z, b, abi)
    requires abi == Abi(true, false) && b[0] == b[1] == 0xFF && b[2] >= 0x80 && b[3] < 0x80
    ensures w | x | y | z == BigEndian(b)
  {}

  lemma FourthNegative(w: bv64, x: bv64, y: bv64, z: bv64, b: seq<bv8>, abi: Abi)
    requires |b| == 4 && AreTerms(w, x, y, z, b, abi)
    requires abi == Abi(true, false) && b[0] == b[1] == b[2] == 0xFF && b[3] >= 0x80
    ensures w | x | y | z == BigEndian(b)
  {}

  lemma SignedNarrow(w: bv64, x: bv64, y: bv64, z: bv64, b: seq<bv8>, abi: Abi)
    requires |b| == 4 && AreTerms(w, x, y, z, b, abi)
    requires abi == Abi(true, false)
    ensures w | x | y | z == BigEndian(b) <==> JoinsRight(b, abi)
  {
    if b[3] >= 0x80 {
      if b[0] == b[1] == b[2] == 0xFF {
        FourthNegative(w, x, y, z, b, abi);
      } else {
        SmearedTerms(w, x, y, z, b, abi, 3);
      }
    } else if b[2] >= 0x80 {
      if b[0] == b[1] == 0xFF {
        ThirdNegative(w, x, y, z, b, abi);
      } else {
        SmearedTerms(w, x, y, z, b, abi, 2);
      }
    } else if b[1] >= 0x80 {
      if b[0] == 0xFF {
        SecondNegative(w, x, y, z, b, abi);
      } else {
        SmearedTerms(w, x, y, z, b, abi, 1);
      }
    } else {
      NoneNegative(w, x, y, z, b, abi);
    }
  }

  lemma TermsIff(w: bv64, x: bv64, y: bv64, z: bv64, b: seq<bv8>, abi: Abi)
    requires |b| == 4 && AreTerms(w, x, y, z, b, abi)
    ensures w | x | y | z == BigEndian(b) <==> JoinsRight(b, abi)
  {
    if abi == Abi(true, false) {
      SignedNarrow(w, x, y, z, b, abi);
    } else if JoinsRight(b, abi) {
      PlainTerms(w, x, y, z, b, abi);
    } else {
      HighTerms(w, x, y, z, b, abi);
    }
  }

  /** The byte patterns in words: a byte with its top bit set, as a negative char, must
      find nothing but ones before it, and no negative value may widen. */
  lemma JoinsRightMeans(b: seq<bv8>, abi: Abi)
    requires |b| == 4
    ensures JoinsRight(b, abi) <==>
              && (abi.wideLong ==> b[0] < 128)
              && (abi.wideLong && abi.signedChar ==> b[1] < 128 && b[2] < 128 && b[3] < 128)
              && (abi.signedChar ==> forall i, j :: 0 <= i < j < 4 && b[j] >= 128 ==> b[i] == 255)
  {}

  /** Exact condition, for each of the four ABIs. */
  lemma JoinedRightIff(b: seq<bv8>, abi: Abi)
    requires |b| == 4
    ensures Joined(b, abi) == BigEndian(b) <==> JoinsRight(b, abi)
  {
    var w, x, y, z := Term(b[0], 0, abi), Term(b[1], 1, abi), Term(b[2], 2, abi), Term(b[3], 3, abi);
    OrFour(w, x, y, z);
    TermsIff(w, x, y, z, b, abi);
  }

  // ----- "%08lx" -----

  function HexDigit(d: bv4): (c: char)
    ensures DigitValue(c) == d
  {
    if d == 0 then '0' else if d == 1 then '1' else if d == 2 then '2' else if d == 3 then '3'
    else if d == 4 then '4' else if d == 5 then '5' else if d == 6 then '6' else if d == 7 then '7'
    else if d == 8 then '8' else if d == 9 then '9' else if d == 10 then 'a' else if d == 11 then 'b'
    else if d == 12 then 'c' else if d == 13 then 'd' else if d == 14 then 'e' else 'f'
  }

  function DigitValue(c: char): bv4 {
    if c == '0' then 0 else if c == '1' then 1 else if c == '2' then 2 else if c == '3' then 3
    else if c == '4' then 4 else if c == '5' then 5 else if c == '6' then 6 else if c == '7' then 7
    else if c == '8' then 8 else if c == '9' then 9 else if c == 'a' then 10 else if c == 'b' then 11
    else if c == 'c' then 12 else if c == 'd' then 13 else if c == 'e' then 14 else 15
  }

  function Low(v: bv64): bv4 { (v & 0xF) as bv4 }

  function HexLow(v: bv64, k: nat): (s: string)
    ensures |s| == k
  {
    if k == 0 then "" else HexLow(v >> 4, k - 1) + [HexDigit(Low(v))]
  }

  /** Leading zeros go, down to eight digits. */
  function Strip(s: string): string {
    if |s| > 8 && s[0] == '0' then Strip(s[1..]) else s
  }

  function PrintHex(v: bv64): string { Strip(HexLow(v, 16)) }

  function Push(v: bv64, d: bv4): bv64 { (v << 4) | (d as bv64) }

  lemma PushPop(v: bv64)
    ensures Push(v >> 4, Low(v)) == v
  {}

  function ParseHex(s: string): bv64 {
    if s == "" then 0 else Push(ParseHex(s[..|s| - 1]), DigitValue(s[|s| - 1]))
  }

  lemma {:induction false} ParseSnoc(s: string, c: char)
    ensures ParseHex(s + [c]) == Push(ParseHex(s), DigitValue(c))
  {
    assert (s + [c])[..|s|] == s;
  }

  lemma {:induction false} ParseDigit(v: bv64, s: string)
    requires ParseHex(s) == v >> 4
    ensures ParseHex(s + [HexDigit(Low(v))]) == v
  {
    ParseSnoc(s, HexDigit(Low(v)));
    PushPop(v);
  }

  lemma {:induction false} HexLowRoundTrip(v: bv64, k: nat)
    requires ShiftsOut(v, k)
    ensures ParseHex(HexLow(v, k)) == v
  {
    if k == 0 {
    } else {
      HexLowRoundTrip(v >> 4, k - 1);
      ParseDigit(v, HexLow(v >> 4, k - 1));
    }
  }

  /** v has at most k hex digits. */
  predicate ShiftsOut(v: bv64, k: nat) { if k == 0 then v == 0 else ShiftsOut(v >> 4, k - 1) }

  lemma ShiftsOutFour(v: bv64, k: nat)
    requires ShiftsOut(v >> 16, k)
    ensures ShiftsOut(v, k + 4)
  {
    assert v >> 4 >> 4 >> 4 >> 4 == v >> 16;
    assert ShiftsOut(v >> 4 >> 4 >> 4 >> 4, k);
    assert ShiftsOut(v >> 4 >> 4 >> 4, k + 1);
    assert ShiftsOut(v >> 4 >> 4, k + 2);
    assert ShiftsOut(v >> 4, k + 3);
  }

  lemma {:induction false} SixteenDigits(v: bv64, k: nat)
    requires k == 16
    ensures ShiftsOut(v, k)
  {
    var a := v >> 16;
    var b := a >> 16;
    var c := b >> 16;
    assert c >> 16 == 0;
    var zero: nat := k - 16;
    assert ShiftsOut(c >> 16, zero);
    ShiftsOutFour(c, zero);
    ShiftsOutFour(b, zero + 4);
    ShiftsOutFour(a, zero + 8);
    ShiftsOutFour(v, zero + 12);
  }

  lemma {:induction false} LeadingZero(s: string)
    requires s != "" && s[0] == '0'
    ensures ParseHex(s) == ParseHex(s[1..])
  {
    if |s| > 1 {
      var n := |s| - 1;
      LeadingZero(s[..n]);
      assert s[1..][..n - 1] == s[..n][1..];
    } else {
      assert ParseHex("") == 0 && s[..0] == "";
    }
  }

  lemma {:induction false} StripKeepsValue(s: string)
    ensures ParseHex(Strip(s)) == ParseHex(s)
  {
    if |s| <= 8 || s[0] != '0' {
    } else {
      LeadingZero(s);
      StripKeepsValue(s[1..]);
    }
  }

  /** Printing loses nothing, for every value of a 64-bit long. */
  lemma PrintHexRoundTrip(v: bv64)
    ensures ParseHex(PrintHex(v)) == v
  {
    SixteenDigits(v, 16);
    HexLowRoundTrip(v, 16);
    StripKeepsValue(HexLow(v, 16));
  }

  // ----- the id string -----

  function IdString(b: seq<bv8>, abi: Abi): string
    requires |b| == 4
  {
    PrintHex(Joined(b, abi))
  }

  function HexByte(b: bv8): string { [HexDigit((b >> 4) as bv4), HexDigit((b & 0xF) as bv4)] }

  /** The eight lower-case digits of the four bytes, in order. */
  function EightDigits(b: seq<bv8>): string
    requires |b| == 4
  {
    HexByte(b[0]) + HexByte(b[1]) + HexByte(b[2]) + HexByte(b[3])
  }

  lemma HexDigitIs(d: bv4)
    ensures HexDigit(d) as int == if d as int < 10 then 48 + d as int else 87 + d as int
  {}

  lemma ByteOfHalves(h: int, l: int)
    requires 0 <= h < 16 && 0 <= l < 16
    ensures ((16 * h + l) as bv8) as int == 16 * h + l
  {}

  lemma BitsIs(c: Octet)
    ensures Bits(c) as int == c as int
  {
    ByteOfHalves(c as int / 16, c as int % 16);
  }

  lemma Halves(b: bv8)
    ensures ((b >> 4) as bv4) as int == b as int / 16 && ((b & 0xF) as bv4) as int == b as int % 16
  {}

  lemma HexByteIs(c: Octet)
    ensures var t, h, l := HexByte(Bits(c)), c as int / 16, c as int % 16;
            && |t| == 2
            && t[0] as int == (if h < 10 then 48 + h else 87 + h)
            && t[1] as int == (if l < 10 then 48 + l else 87 + l)
  {
    BitsIs(c);
    Halves(Bits(c));
    HexDigitIs((Bits(c) >> 4) as bv4);
    HexDigitIs((Bits(c) & 0xF) as bv4);
  }

  /** The eight digits, char by char: '0' to '9' and 'a' to 'f', the high half first. */
  lemma EightDigitsAre(s: seq<Octet>)
    requires |s| == 4
    ensures var t := EightDigits(FourBytes(s));
            && |t| == 8
            && forall i :: 0 <= i < 4 ==>
                 && (var h := s[i] as int / 16; t[2 * i] as int == if h < 10 then 48 + h else 87 + h)
                 && (var l := s[i] as int % 16; t[2 * i + 1] as int == if l < 10 then 48 + l else 87 + l)
  {
    var b := FourBytes(s);
    forall i | 0 <= i < 4
      ensures var h := s[i] as int / 16; EightDigits(b)[2 * i] as int == if h < 10 then 48 + h else 87 + h
      ensures var l := s[i] as int % 16; EightDigits(b)[2 * i + 1] as int == if l < 10 then 48 + l else 87 + l
    {
      DigitsOfByte(b, i);
      HexByteIs(s[i]);
    }
  }

  lemma DigitsOfByte(b: seq<bv8>, i: nat)
    requires |b| == 4 && i < 4
    ensures |EightDigits(b)| == 8
    ensures EightDigits(b)[2 * i] == HexByte(b[i])[0] && EightDigits(b)[2 * i + 1] == HexByte(b[i])[1]
  {}

  function Append(w: bv64, b: bv8): bv64 { (w << 8) | (b as bv64) }

  lemma Nibbles(w: bv64, b: bv8)
    requires w < 0x100_0000_0000_0000
    ensures var v := Append(w, b);
            v >> 4 >> 4 == w && Low(v) == (b & 0xF) as bv4 && Low(v >> 4) == (b >> 4) as bv4
  {}

  lemma HexLowTwo(v: bv64, k: nat)
    ensures HexLow(v, k + 2) == HexLow(v >> 4 >> 4, k) + [HexDigit(Low(v >> 4)), HexDigit(Low(v))]
  {
    assert HexLow(v >> 4, k + 1) == HexLow(v >> 4 >> 4, k) + [HexDigit(Low(v >> 4))];
  }

  lemma HexLowByte(w: bv64, b: bv8, k: nat)
    requires w < 0x100_0000_0000_0000
    ensures HexLow(Append(w, b), k + 2) == HexLow(w, k) + HexByte(b)
  {
    Nibbles(w, b);
    HexLowTwo(Append(w, b), k);
  }

  lemma AppendFour(b0: bv8, b1: bv8, b2: bv8, b3: bv8)
    ensures Append(Append(Append(Append(0, b0), b1), b2), b3) ==
              ((b0 as bv64) << 24) | ((b1 as bv64) << 16) | ((b2 as bv64) << 8) | (b3 as bv64)
  {}

  lemma AppendBound(w: bv64, b: bv8)
    requires w < 0x1_0000_0000_0000
    ensures Append(w, b) < 0x100_0000_0000_0000
    ensures w == 0 ==> Append(w, b) < 0x100
    ensures w < 0x100 ==> Append(w, b) < 0x1_0000
  {}

  lemma {:induction false} HexLowZero(k: nat)
    ensures forall i :: 0 <= i < k ==> HexLow(0, k)[i] == '0'
  {
    if k == 0 {
    } else {
      HexLowZero(k - 1);
      assert (0 as bv64) >> 4 == 0 && Low(0) == 0;
    }
  }

  lemma {:induction false} StripZeros(z: string, s: string)
    requires |s| == 8 && forall i :: 0 <= i < |z| ==> z[i] == '0'
    ensures Strip(z + s) == s
  {
    if z == "" {
      assert z + s == s;
    } else {
      assert (z + s)[1..] == z[1..] + s;
      StripZeros(z[1..], s);
    }
  }

  lemma {:induction false} HexLowFour(b0: bv8, b1: bv8, b2: bv8, b3: bv8, k: nat)
    ensures HexLow(Append(Append(Append(Append(0, b0), b1), b2), b3), k + 8) ==
              HexLow(0, k) + HexByte(b0) + HexByte(b1) + HexByte(b2) + HexByte(b3)
  {
    var v0 := Append(0, b0);
    var v1 := Append(v0, b1);
    var v2 := Append(v1, b2);
    AppendBound(0, b0);
    AppendBound(v0, b1);
    AppendBound(v1, b2);
    HexLowByte(0, b0, k);
    HexLowByte(v0, b1, k + 2);
    HexLowByte(v1, b2, k + 4);
    HexLowByte(v2, b3, k + 6);
  }

  lemma {:induction false} StripHigh(v: bv64, k: nat, s: string)
    requires k == 8 && |s| == 8 && HexLow(v, k + 8) == HexLow(0, k) + s
    ensures PrintHex(v) == s
  {
    HexLowZero(k);
    StripZeros(HexLow(0, k), s);
  }

  lemma PrintFour(v: bv64, b: seq<bv8>, k: nat)
    requires k == 8 && |b| == 4 && v == Append(Append(Append(Append(0, b[0]), b[1]), b[2]), b[3])
    ensures PrintHex(v) == EightDigits(b)
  {
    HexLowFour(b[0], b[1], b[2], b[3], k);
    var z, s := HexLow(0, k), EightDigits(b);
    assert z + HexByte(b[0]) + HexByte(b[1]) + HexByte(b[2]) + HexByte(b[3]) == z + s;
    StripHigh(v, k, s);
  }

  lemma PrintBigEndian(b: seq<bv8>)
    requires |b| == 4
    ensures PrintHex(BigEndian(b)) == EightDigits(b)
  {
    var v := BigEndian(b);
    assert v == Append(Append(Append(Append(0, b[0]), b[1]), b[2]), b[3]) by {
      AppendFour(b[0], b[1], b[2], b[3]);
    }
    PrintFour(v, b, 8);
  }

  /** Exact condition, for each ABI: the id string is the eight digits of the bytes, and
      parsing it gives the bytes back, if and only if the loop joined them right. */
  lemma IdStringIff(b: seq<bv8>, abi: Abi)
    requires |b| == 4
    ensures IdString(b, abi) == EightDigits(b) <==> JoinsRight(b, abi)
    ensures ParseHex(IdString(b, abi)) == BigEndian(b) <==> JoinsRight(b, abi)
  {
    JoinedRightIff(b, abi);
    PrintBigEndian(b);
    PrintHexRoundTrip(Joined(b, abi));
    PrintHexRoundTrip(BigEndian(b));
  }

  lemma UpperBytesFromValue(b: seq<bv8>, c: seq<bv8>)
    requires |b| == 4 && |c| == 4 && BigEndian(b) == BigEndian(c)
    ensures b[0] == c[0] && b[1] == c[1]
  {}

  lemma LowerBytesFromValue(b: seq<bv8>, c: seq<bv8>)
    requires |b| == 4 && |c| == 4 && BigEndian(b) == BigEndian(c)
    ensures b[2] == c[2] && b[3] == c[3]
  {}

  /** The id string of four bytes that are joined right, char by char. */
  lemma IdStringIs(s: seq<Octet>, abi: Abi)
    requires |s| == 4 && JoinsRight(FourBytes(s), abi)
    ensures var t := IdString(FourBytes(s), abi);
            && |t| == 8
            && forall i :: 0 <= i < 4 ==>
                 && (var h := s[i] as int / 16; t[2 * i] as int == if h < 10 then 48 + h else 87 + h)
                 && (var l := s[i] as int % 16; t[2 * i + 1] as int == if l < 10 then 48 + l else 87 + l)
  {
    IdStringIff(FourBytes(s), abi);
    EightDigitsAre(s);
  }

  /** Whatever is printed: lower-case digits, at least eight, without a leading zero when
      there are more. */
  lemma PrintHexForm(v: bv64)
    ensures var t := PrintHex(v);
            && 8 <= |t| <= 16 && (|t| > 8 ==> t[0] != '0')
            && forall i :: 0 <= i < |t| ==> 48 <= t[i] as int < 58 || 97 <= t[i] as int < 103
  {
    HexLowChars(v, 16);
    StripForm(HexLow(v, 16));
  }

  lemma {:induction false} HexLowChars(v: bv64, k: nat)
    ensures forall i :: 0 <= i < k ==> 48 <= HexLow(v, k)[i] as int < 58 || 97 <= HexLow(v, k)[i] as int < 103
  {
    if k == 0 {
    } else {
      HexLowChars(v >> 4, k - 1);
      HexDigitIs(Low(v));
    }
  }

  lemma {:induction false} StripForm(s: string)
    requires |s| >= 8
    ensures var t := Strip(s);
            && 8 <= |t| <= |s| && t == s[|s| - |t|..] && (|t| > 8 ==> t[0] != '0')
  {
    if |s| == 8 || s[0] != '0' {
    } else {
      StripForm(s[1..]);
    }
  }

  /** The eight digits determine the bytes. */
  lemma BytesFromValue(b: seq<bv8>, c: seq<bv8>)
    requires |b| == 4 && |c| == 4 && BigEndian(b) == BigEndian(c)
    ensures b == c
  {
    UpperBytesFromValue(b, c);
    LowerBytesFromValue(b, c);
  }
}
