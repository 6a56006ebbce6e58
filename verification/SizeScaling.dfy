/** Memory and storage sizes in K, M or G: the integer scaling of `getMemoryInfo` and the
    real scaling of `getStorageSize`.
 */
module SizeScaling {
  import opened Capture
  import opened Decimal

  datatype Unit = K | M | G

  const INT_MAX: int := 0x7FFF_FFFF

  function Kilobytes(u: Unit): int {
    match u
    case K => 1
    case M => 1024
    case G => 1024 * 1024
  }

  function Letter(u: Unit): char {
    match u
    case K => 'K'
    case M => 'M'
    case G => 'G'
  }

  /** C division of a non-negative or negative int by 1024. */
  function Quotient(v: int): int { if v >= 0 then v / SIZE_1K else -(-v / SIZE_1K) }

  datatype Scaled = Scaled(value: int, unit: Unit)

  /** The two tests of the code, each on the value that the one before left. */
  function Scale(kb: int): Scaled {
    var v1 := if kb > SIZE_1K then Quotient(kb) else kb;
    var u1 := if kb > SIZE_1K then M else K;
    if v1 > SIZE_1K then Scaled(Quotient(v1), G) else Scaled(v1, u1)
  }

  /** The value shown is exact to one unit. */
  lemma ScaleExact(kb: nat)
    ensures var s := Scale(kb);
            s.value * Kilobytes(s.unit) <= kb < (s.value + 1) * Kilobytes(s.unit)
  {
    assert kb / 1024 / 1024 == kb / (1024 * 1024);
  }

  /** The quantity shown, in kilobytes. */
  function Shown(kb: int): int { Scale(kb).value * Kilobytes(Scale(kb).unit) }

  lemma ShownIs(kb: nat)
    ensures Shown(kb) == if kb <= 1024 then kb
                         else if kb < 1025 * 1024 then kb / 1024 * 1024
                         else kb / (1024 * 1024) * (1024 * 1024)
  {
    assert kb / 1024 / 1024 == kb / (1024 * 1024);
  }

  /** More memory never shows as a smaller quantity, across both unit boundaries. */
  lemma ScaleMonotone(a: nat, b: nat)
    requires a <= b
    ensures Shown(a) <= Shown(b)
  {
    ShownIs(a);
    ShownIs(b);
  }

  /** `atoi`: white space, a sign, then digits. */
  function Digits(s: string, acc: int): int {
    if s == "" || !IsDigit(s[0]) then acc
    else Digits(s[1..], 10 * acc + (s[0] as int - '0' as int))
  }

  function Atoi(s: string): int {
    if s == "" then 0
    else if Space(s[0]) then Atoi(s[1..])
    else if s[0] == '-' then -Digits(s[1..], 0)
    else if s[0] == '+' then Digits(s[1..], 0)
    else Digits(s, 0)
  }

  /** `%d` */
  function Print(n: int): string { if n < 0 then "-" + Dec(-n) else Dec(n) }

  lemma {:induction false} DigitsOfDec(n: nat, rest: string)
    ensures Digits(Dec(n) + rest, 0) == Digits(rest, n)
  {
    var last := [Digit(n % 10)];
    if n < 10 {
      assert (last + rest)[1..] == rest;
    } else {
      assert Dec(n) + rest == Dec(n / 10) + (last + rest);
      DigitsOfDec(n / 10, last + rest);
      assert (last + rest)[1..] == rest;
    }
  }

  lemma {:induction false} AtoiOfDec(n: nat, rest: string)
    requires rest == "" || !IsDigit(rest[0])
    ensures Atoi(Dec(n) + rest) == n
  {
    DecIsDigits(n);
    var s := Dec(n) + rest;
    assert s[0] == Dec(n)[0];
    DigitsOfDec(n, rest);
  }

  /** `atoi` reads a numeral behind white space and a sign, up to the first char that is
      no digit. */
  lemma {:induction false} AtoiOfSigned(gap: string, sign: string, n: nat, rest: string)
    requires AllSpace(gap) && (sign == "" || sign == "-" || sign == "+") && (rest == "" || !IsDigit(rest[0]))
    ensures sign != "-" ==> Atoi(gap + sign + Dec(n) + rest) == n
    ensures sign == "-" ==> Atoi(gap + sign + Dec(n) + rest) == 0 - n
  {
    var s := gap + sign + Dec(n) + rest;
    if gap == "" {
      if sign == "" {
        assert s == Dec(n) + rest;
        AtoiOfDec(n, rest);
      } else {
        assert s[0] == sign[0] && s[1..] == Dec(n) + rest;
        DigitsOfDec(n, rest);
      }
    } else {
      assert s[0] == gap[0] && s[1..] == gap[1..] + sign + Dec(n) + rest;
      AtoiOfSigned(gap[1..], sign, n, rest);
    }
  }

  /** Text that has no numeral there is 0. */
  lemma {:induction false} AtoiOfNoNumber(gap: string, sign: string, rest: string)
    requires AllSpace(gap) && (sign == "" || sign == "-" || sign == "+") && (rest == "" || !IsDigit(rest[0]))
    requires sign == "" && rest != "" ==> !Space(rest[0]) && rest[0] != '-' && rest[0] != '+'
    ensures Atoi(gap + sign + rest) == 0
  {
    var s := gap + sign + rest;
    if gap == "" {
      if sign == "" {
        assert s == rest;
      } else {
        assert s[0] == sign[0] && s[1..] == rest;
      }
    } else {
      assert s[0] == gap[0] && s[1..] == gap[1..] + sign + rest;
      AtoiOfNoNumber(gap[1..], sign, rest);
    }
  }

  /** So it reads back what "%d" prints. */
  lemma AtoiOfPrint(n: int)
    ensures Atoi(Print(n)) == n
  {
    if n < 0 {
      DigitsOfDec(-n, "");
      assert Dec(-n) + "" == Dec(-n) && Print(n)[1..] == Dec(-n);
    } else {
      AtoiOfDec(n, "");
      assert Dec(n) + "" == Dec(n);
    }
  }

  /** `getMemoryInfo` */
  method GetMemoryInfo(opens: bool, pipe: Pipe) returns (r: string)
    requires pipe.pos == 0
    modifies pipe`pos, pipe`ran
    ensures pipe.ran == old(pipe.ran) + ["cat /proc/meminfo | grep \"MemTotal:\" | awk '{print $2}'"]
    ensures var t := if opens then Gathered(pipe.out, 0, SIZE_1K) else "";
            r == if t == "" then "" else Print(Scale(Atoi(t)).value) + [Letter(Scale(Atoi(t)).unit)]
  {
    var res := CaptureText("cat /proc/meminfo | grep \"MemTotal:\" | awk '{print $2}'", opens, pipe);
    if res == "" { return ""; }
    var memval := Atoi(res);
    var unit := 'K';
    if memval > SIZE_1K {
      memval := Quotient(memval);
      unit := 'M';
    }
    if memval > SIZE_1K {
      memval := Quotient(memval);
      unit := 'G';
    }
    r := Print(memval) + [unit];
  }

  /** From the kernel's line to the answer: what is shown for kb kilobytes. */
  lemma {:induction false} MemoryInfoOfLine(kb: nat)
    requires kb <= INT_MAX
    ensures var t := Gathered(Finite(Dec(kb) + "\n"), 0, SIZE_1K);
            t != "" && Print(Scale(Atoi(t)).value) + [Letter(Scale(Atoi(t)).unit)] ==
                         if kb <= 1024 then Dec(kb) + "K"
                         else if kb < 1025 * 1024 then Dec(kb / 1024) + "M"
                         else Dec(kb / (1024 * 1024)) + "G"
  {
    var line := Dec(kb) + "\n";
    DecIsDigits(kb);
    DecLength(kb, 10);
    CaptureOfShortText(line);
    AtoiOfDec(kb, "\n");
    assert kb / 1024 / 1024 == kb / (1024 * 1024);
  }

  function Pow10(d: nat): nat { if d == 0 then 1 else 10 * Pow10(d - 1) }

  lemma {:induction false} DecLength(n: nat, d: nat)
    requires d > 0 && n < Pow10(d)
    ensures |Dec(n)| <= d
  {
    if n < 10 {
    } else {
      DecLength(n / 10, d - 1);
    }
  }

  // ----- storage -----

  datatype Measure = Measure(size: real, unit: Unit)

  /** `getStorageSize` up to the printing: `blocks` and `blockSize` are from `statfs`,
      which may fail; the long double is taken as exact. */
  method GetStorageSize(found: bool, blocks: nat, blockSize: nat) returns (m: Measure)
    ensures m == if !found || blocks == 0 then Measure(0.0, K)
                 else Measured(blocks as real * blockSize as real)
  {
    var unit := K;
    var size: real := 0.0;
    if !found { return Measure(size, unit); }
    if blocks == 0 { return Measure(size, unit); }
    size := blocks as real * blockSize as real;
    size := size / 1024.0;
    if size > 1024.0 {
      size := size / 1024.0;
      unit := M;
    }
    if size > 1024.0 {
      size := size / 1024.0;
      unit := G;
    }
    m := Measure(size, unit);
  }

  function Measured(bytes: real): Measure {
    var kb := bytes / 1024.0;
    if kb <= 1024.0 then Measure(kb, K)
    else if kb / 1024.0 <= 1024.0 then Measure(kb / 1024.0, M)
    else Measure(kb / 1024.0 / 1024.0, G)
  }

  /** The real scaling loses nothing, and takes the smallest unit in which the size does
      not exceed 1024, or G. */
  lemma MeasuredExact(bytes: real)
    ensures Measured(bytes).size * Kilobytes(Measured(bytes).unit) as real * 1024.0 == bytes
    ensures Measured(bytes).unit == K ==> Measured(bytes).size <= 1024.0
    ensures Measured(bytes).unit == M ==> 1.0 < Measured(bytes).size <= 1024.0
    ensures Measured(bytes).unit == G ==> Measured(bytes).size > 1.0
  {}

  /** On whole kilobytes the two scalings choose the same unit, except for the last
      kilobytes that the integer form still shows as 1024M. */
  lemma UnitsDifferExactlyWhen(kb: nat)
    ensures Scale(kb).unit != Measured(kb as real * 1024.0).unit <==> 1024 * 1024 < kb < 1025 * 1024
    ensures 1024 * 1024 < kb < 1025 * 1024 ==>
              Scale(kb) == Scaled(1024, M) && Measured(kb as real * 1024.0).unit == G
  {
    var r := kb as real;
    assert kb > 1024 <==> r > 1024.0;
    assert kb > 1024 * 1024 <==> r / 1024.0 > 1024.0;
    assert Measured(r * 1024.0).unit == if kb <= 1024 then K else if kb <= 1024 * 1024 then M else G;
  }
}
