/** `getSupportResolution`: two bytes of a file select names from a table, printed as a
    list in braces.
 */
module Resolutions {
  import opened Basics
  import opened ProductId
  import Capture

  const MAX_RESOLUTION_SUPPORT: nat := 10
  const RESOLUTION_INFO_LEN: nat := 4

  const RESOLUTION_INDEX: seq<string> := [
    "800x600", "1024x768", "1280x720", "1280x1024", "1360x768",
    "1366x768", "1440x900", "1600x900", "1680x1050", "1920x1080"]

  // ----- the mask -----

  /** `buf[1]` shifted over `buf[0]`, cut to ten bits; both are promoted chars. */
  function SupportIndex(b0: bv8, b1: bv8, abi: Abi): bv32 {
    ((Promote(b1, abi) << 8) | Promote(b0, abi)) & 0x3FF
  }

  function LowTenBits(b0: bv8, b1: bv8): bv32 { (((b1 as bv32) << 8) | (b0 as bv32)) & 0x3FF }

  /** Exact condition: a signed char smears the top bit of `buf[0]` over bits 8 and 9. */
  lemma SupportIndexIff(b0: bv8, b1: bv8, abi: Abi)
    ensures SupportIndex(b0, b1, abi) == LowTenBits(b0, b1) <==>
              !abi.signedChar || b0 < 0x80 || b1 & 3 == 3
  {}

  /** `1 << i` */
  function OneBit(i: nat): bv32
    requires i < 10
  {
    if i == 0 then 1 else if i == 1 then 2 else if i == 2 then 4 else if i == 3 then 8
    else if i == 4 then 0x10 else if i == 5 then 0x20 else if i == 6 then 0x40
    else if i == 7 then 0x80 else if i == 8 then 0x100 else 0x200
  }

  predicate Has(mask: bv32, i: nat)
    requires i < 10
  {
    mask & OneBit(i) != 0
  }

  lemma OneBitIs(i: nat)
    requires i < 10
    ensures OneBit(i) == 1 << i
  {}

  lemma FirstByteBit(b0: bv8, b1: bv8, abi: Abi, i: nat)
    requires i < 8
    ensures Has(SupportIndex(b0, b1, abi), i) <==> b0 & (1 << i) != 0
  {}

  lemma SecondByteBit(b0: bv8, b1: bv8, abi: Abi, i: nat)
    requires i < 2
    ensures Has(SupportIndex(b0, b1, abi), i + 8) <==> b1 & (1 << i) != 0 || (abi.signedChar && b0 >= 0x80)
  {}

  /** Which bits of the two bytes are set in the mask, for either char signedness. */
  lemma FileBit(b0: bv8, b1: bv8, abi: Abi, i: nat)
    requires i < 10
    ensures Has(SupportIndex(b0, b1, abi), i) <==>
              if i < 8 then b0 & (1 << i) != 0
              else b1 & (1 << (i - 8)) != 0 || (abi.signedChar && b0 >= 0x80)
  {
    if i < 8 { FirstByteBit(b0, b1, abi, i); } else { SecondByteBit(b0, b1, abi, i - 8); }
  }

  /** The ten bits, lowest first. */
  function Flags(mask: bv32): seq<bool> { seq(10, i requires 0 <= i < 10 => Has(mask, i)) }

  /** The set flags from i up, in ascending order. */
  function SetFrom(f: seq<bool>, i: nat): (r: seq<nat>)
    requires i <= |f|
    ensures |r| <= |f| - i
    ensures forall k :: 0 <= k < |r| ==> r[k] < |f|
    decreases |f| - i
  {
    if i == |f| then [] else if f[i] then [i] + SetFrom(f, i + 1) else SetFrom(f, i + 1)
  }

  function BitsFrom(mask: bv32, i: nat): (r: seq<nat>)
    requires i <= 10
    ensures |r| <= 10 - i
    ensures forall k :: 0 <= k < |r| ==> i <= r[k] < 10
    ensures forall j, k :: 0 <= j < k < |r| ==> r[j] < r[k]
  {
    SetFromAscends(Flags(mask), i);
    SetFrom(Flags(mask), i)
  }

  lemma {:induction false} SetFromAscends(f: seq<bool>, i: nat)
    requires i <= |f|
    ensures forall k :: 0 <= k < |SetFrom(f, i)| ==> i <= SetFrom(f, i)[k]
    ensures forall j, k :: 0 <= j < k < |SetFrom(f, i)| ==> SetFrom(f, i)[j] < SetFrom(f, i)[k]
    decreases |f| - i
  {
    if i == |f| {
    } else {
      SetFromAscends(f, i + 1);
    }
  }

  lemma {:induction false} SetFromExact(f: seq<bool>, i: nat, k: nat)
    requires i <= |f|
    ensures k in SetFrom(f, i) <==> i <= k < |f| && f[k]
    decreases |f| - i
  {
    if i == |f| {
    } else {
      SetFromExact(f, i + 1, k);
    }
  }

  // ----- printing -----

  /** The text that the loop has appended for these indices. */
  function Appended(table: seq<string>, bits: seq<nat>): string
    requires forall k :: 0 <= k < |bits| ==> bits[k] < |table|
  {
    if bits == [] then "" else "{" + table[bits[0]] + "}," + Appended(table, bits[1..])
  }

  /** The list as it should read: names in braces, joined by commas. */
  function List(names: seq<string>): string {
    if names == [] then ""
    else if |names| == 1 then "{" + names[0] + "}"
    else "{" + names[0] + "}," + List(names[1..])
  }

  function Names(table: seq<string>, bits: seq<nat>): seq<string>
    requires forall k :: 0 <= k < |bits| ==> bits[k] < |table|
  {
    if bits == [] then [] else [table[bits[0]]] + Names(table, bits[1..])
  }

  /** The text is the list and one comma too many. */
  lemma {:induction false} AppendedIsList(table: seq<string>, bits: seq<nat>)
    requires forall k :: 0 <= k < |bits| ==> bits[k] < |table|
    ensures Appended(table, bits) == List(Names(table, bits)) + if bits == [] then "" else ","
  {
    if |bits| > 1 {
      AppendedIsList(table, bits[1..]);
      assert Names(table, bits)[1..] == Names(table, bits[1..]);
    } else if |bits| == 1 {
      assert bits[1..] == [] && Names(table, bits) == [table[bits[0]]];
    }
  }

  lemma {:induction false} AppendedSplit(table: seq<string>, a: seq<nat>, b: seq<nat>)
    requires forall k :: 0 <= k < |a| ==> a[k] < |table|
    requires forall k :: 0 <= k < |b| ==> b[k] < |table|
    ensures Appended(table, a + b) == Appended(table, a) + Appended(table, b)
  {
    if a == [] {
      assert a + b == b;
    } else {
      AppendedSplit(table, a[1..], b);
      assert (a + b)[0] == a[0] && (a + b)[1..] == a[1..] + b;
      Assoc("{" + table[a[0]] + "},", Appended(table, a[1..]), Appended(table, b));
    }
  }

  lemma BitSelected(mask: bv32, k: nat)
    requires 1 <= k < 10
    ensures k in BitsFrom(mask, 1) <==> Has(mask, k)
  {
    SetFromExact(Flags(mask), 1, k);
  }

  lemma FileSelectsOne(b0: bv8, b1: bv8, abi: Abi, k: nat)
    requires 1 <= k < 10
    ensures k in BitsFrom(SupportIndex(b0, b1, abi), 1) <==>
              if k < 8 then b0 & (1 << k) != 0
              else b1 & (1 << (k - 8)) != 0 || (abi.signedChar && b0 >= 0x80)
  {
    BitSelected(SupportIndex(b0, b1, abi), k);
    FileBit(b0, b1, abi, k);
  }

  lemma FileSelects(b0: bv8, b1: bv8, abi: Abi)
    ensures forall k :: 1 <= k < 10 ==>
              (k in BitsFrom(SupportIndex(b0, b1, abi), 1) <==>
                 if k < 8 then b0 & (1 << k) != 0
                 else b1 & (1 << (k - 8)) != 0 || (abi.signedChar && b0 >= 0x80))
  {
    forall k | 1 <= k < 10
      ensures k in BitsFrom(SupportIndex(b0, b1, abi), 1) <==>
                if k < 8 then b0 & (1 << k) != 0
                else b1 & (1 << (k - 8)) != 0 || (abi.signedChar && b0 >= 0x80)
    {
      FileSelectsOne(b0, b1, abi, k);
    }
  }

  /** `getSupportResolution`; the file is None when it cannot be opened. */
  method GetSupportResolution(table: seq<string>, file: Option<seq<Octet>>, abi: Abi) returns (r: string)
    requires |table| == MAX_RESOLUTION_SUPPORT
    ensures r == if file.None? || |file.value| < 4 then ""
                 else List(Names(table, BitsFrom(SupportIndex(Bits(file.value[0]), Bits(file.value[1]), abi), 1)))
    ensures file.Some? && |file.value| >= 4 ==>
              var b0, b1 := Bits(file.value[0]), Bits(file.value[1]);
              forall k :: 1 <= k < 10 ==>
                (k in BitsFrom(SupportIndex(b0, b1, abi), 1) <==>
                   if k < 8 then b0 & (1 << k) != 0
                   else b1 & (1 << (k - 8)) != 0 || (abi.signedChar && b0 >= 0x80))
  {
    if file.Some? && |file.value| >= 4 { FileSelects(Bits(file.value[0]), Bits(file.value[1]), abi); }
    if file.None? { return ""; }
    if |file.value| < RESOLUTION_INFO_LEN { return ""; }
    var supportIndex := SupportIndex(Bits(file.value[0]), Bits(file.value[1]), abi);
    r := PrintMask(table, supportIndex);
  }

  method PrintMask(table: seq<string>, mask: bv32) returns (res: string)
    requires |table| == MAX_RESOLUTION_SUPPORT
    ensures res == List(Names(table, BitsFrom(mask, 1)))
  {
    res := AppendMask(table, mask);
    CommaRemoved(table, BitsFrom(mask, 1));
    if |res| > 0 && res[|res| - 1] == ',' {
      res := res[..|res| - 1];
    }
  }

  method AppendMask(table: seq<string>, mask: bv32) returns (res: string)
    requires |table| == MAX_RESOLUTION_SUPPORT
    ensures res == Appended(table, BitsFrom(mask, 1))
  {
    ghost var f := Flags(mask);
    ghost var done: seq<nat> := [];
    res := "";
    var i := 1;
    while i < MAX_RESOLUTION_SUPPORT
      invariant 1 <= i <= 10
      invariant done + SetFrom(f, i) == SetFrom(f, 1)
      invariant forall k :: 0 <= k < |done| ==> done[k] < 10
      invariant res == Appended(table, done)
    {
      assert Has(mask, i) == f[i];
      SelectOne(f, done, i);
      if Has(mask, i) {
        AppendOne(table, done, i);
        res := res + ("{" + table[i] + "},");
        done := done + [i];
      }
      i := i + 1;
    }
    assert done == SetFrom(f, 1);
  }

  lemma SelectOne(f: seq<bool>, done: seq<nat>, i: nat)
    requires i < |f|
    ensures done + SetFrom(f, i) == (if f[i] then done + [i] else done) + SetFrom(f, i + 1)
  {
    Assoc(done, [i], SetFrom(f, i + 1));
  }

  lemma {:induction false} CommaRemoved(table: seq<string>, bits: seq<nat>)
    requires forall k :: 0 <= k < |bits| ==> bits[k] < |table|
    ensures var text := Appended(table, bits);
            List(Names(table, bits)) == if |text| > 0 && text[|text| - 1] == ',' then text[..|text| - 1] else text
  {
    AppendedIsList(table, bits);
  }

  lemma {:induction false} AppendOne(table: seq<string>, done: seq<nat>, i: nat)
    requires forall k :: 0 <= k < |done| ==> done[k] < |table|
    requires i < |table|
    ensures forall k :: 0 <= k < |done + [i]| ==> (done + [i])[k] < |table|
    ensures Appended(table, done + [i]) == Appended(table, done) + ("{" + table[i] + "},")
  {
    AppendedSplit(table, done, [i]);
    assert Appended(table, [i]) == "{" + table[i] + "},";
  }

  // ----- reading the list back -----

  function UpTo(s: string, c: char): string {
    if s == "" || s[0] == c then "" else [s[0]] + UpTo(s[1..], c)
  }

  /** The names of a list in braces. */
  function ParseList(s: string): seq<string>
    decreases |s|
  {
    if s == "" || s[0] != '{' then []
    else
      var name := UpTo(s[1..], '}');
      [name] + if |name| + 3 <= |s| then ParseList(s[|name| + 3..]) else []
  }

  function Find(table: seq<string>, name: string): nat {
    if table == [] || table[0] == name then 0 else 1 + Find(table[1..], name)
  }

  function ParseBits(table: seq<string>, s: string): seq<nat> { FindAll(table, ParseList(s)) }

  function FindAll(table: seq<string>, names: seq<string>): seq<nat> {
    if names == [] then [] else [Find(table, names[0])] + FindAll(table, names[1..])
  }

  predicate PlainName(name: string) { forall i :: 0 <= i < |name| ==> name[i] !in "{}," }

  ghost predicate PlainTable(table: seq<string>) {
    && (forall i :: 0 <= i < |table| ==> PlainName(table[i]))
    && (forall i, j :: 0 <= i < j < |table| ==> table[i] != table[j])
  }

  lemma {:induction false} UpToStops(name: string, rest: string)
    requires PlainName(name) && rest != "" && rest[0] == '}'
    ensures UpTo(name + rest, '}') == name
  {
    if name == "" {
      assert name + rest == rest;
    } else {
      assert (name + rest)[1..] == name[1..] + rest;
      UpToStops(name[1..], rest);
    }
  }

  lemma {:induction false} ParseListHead(name: string, rest: string)
    requires PlainName(name) && rest != "" && rest[0] == '}'
    ensures ParseList("{" + name + rest) == [name] + if |rest| >= 2 then ParseList(rest[2..]) else []
  {
    var s := "{" + name + rest;
    assert s[1..] == name + rest;
    UpToStops(name, rest);
    if |rest| >= 2 { assert s[|name| + 3..] == rest[2..]; }
  }

  lemma {:induction false} ParseListRoundTrip(names: seq<string>)
    requires forall i :: 0 <= i < |names| ==> PlainName(names[i])
    ensures ParseList(List(names)) == names
  {
    if |names| == 1 {
      assert List(names) == "{" + names[0] + "}";
      ParseListHead(names[0], "}");
    } else if |names| > 1 {
      var tail := "}," + List(names[1..]);
      assert List(names) == "{" + names[0] + tail;
      assert tail[2..] == List(names[1..]);
      ParseListHead(names[0], tail);
      ParseListRoundTrip(names[1..]);
      assert names == [names[0]] + names[1..];
    }
  }

  lemma {:induction false} FindIs(table: seq<string>, i: nat)
    requires PlainTable(table) && i < |table|
    ensures Find(table, table[i]) == i
  {
    if i == 0 {
    } else {
      assert table[1..][i - 1] == table[i];
      FindIs(table[1..], i - 1);
    }
  }

  lemma {:induction false} FindAllNames(table: seq<string>, bits: seq<nat>)
    requires PlainTable(table) && forall k :: 0 <= k < |bits| ==> bits[k] < |table|
    ensures FindAll(table, Names(table, bits)) == bits
    ensures forall k :: 0 <= k < |Names(table, bits)| ==> PlainName(Names(table, bits)[k])
  {
    if bits == [] {
    } else {
      FindIs(table, bits[0]);
      FindAllNames(table, bits[1..]);
      assert Names(table, bits)[1..] == Names(table, bits[1..]);
    }
  }

  /** For any table of distinct names without braces or commas, the printed list reads
      back as exactly the set bits from 1 up, so it determines the mask but for bit 0. */
  lemma {:induction false} PrintedListRoundTrip(table: seq<string>, mask: bv32, other: bv32)
    requires |table| == MAX_RESOLUTION_SUPPORT && PlainTable(table)
    ensures ParseBits(table, List(Names(table, BitsFrom(mask, 1)))) == BitsFrom(mask, 1)
    ensures List(Names(table, BitsFrom(mask, 1))) == List(Names(table, BitsFrom(other, 1))) <==>
              forall k :: 1 <= k < 10 ==> Has(mask, k) == Has(other, k)
  {
    NamesRoundTrip(table, BitsFrom(mask, 1));
    NamesRoundTrip(table, BitsFrom(other, 1));
    SameBits(mask, other);
  }

  lemma {:induction false} NamesRoundTrip(table: seq<string>, bits: seq<nat>)
    requires PlainTable(table) && forall k :: 0 <= k < |bits| ==> bits[k] < |table|
    ensures ParseBits(table, List(Names(table, bits))) == bits
  {
    FindAllNames(table, bits);
    ParseListRoundTrip(Names(table, bits));
  }

  lemma SameBits(mask: bv32, other: bv32)
    ensures BitsFrom(mask, 1) == BitsFrom(other, 1) <==> forall k :: 1 <= k < 10 ==> Has(mask, k) == Has(other, k)
  {
    var f, g := Flags(mask), Flags(other);
    SameSets(f, g, 1);
    assert forall k :: 1 <= k < 10 ==> f[k] == Has(mask, k) && g[k] == Has(other, k);
  }

  lemma {:induction false} SameSets(f: seq<bool>, g: seq<bool>, i: nat)
    requires i <= |f| == |g|
    ensures SetFrom(f, i) == SetFrom(g, i) <==> forall k :: i <= k < |f| ==> f[k] == g[k]
  {
    if SetFrom(f, i) == SetFrom(g, i) {
      forall k | i <= k < |f| ensures f[k] == g[k] {
        SetFromExact(f, i, k);
        SetFromExact(g, i, k);
      }
    } else if forall k :: i <= k < |f| ==> f[k] == g[k] {
      SameSuffix(f, g, i);
    }
  }

  lemma {:induction false} SameSuffix(f: seq<bool>, g: seq<bool>, i: nat)
    requires i <= |f| == |g| && forall k :: i <= k < |f| ==> f[k] == g[k]
    ensures SetFrom(f, i) == SetFrom(g, i)
    decreases |f| - i
  {
    if i == |f| {
    } else {
      SameSuffix(f, g, i + 1);
    }
  }

  // ----- the table in use -----

  lemma {:induction false} TextLength(bits: seq<nat>)
    requires forall k :: 0 <= k < |bits| ==> bits[k] < 10
    ensures |Appended(RESOLUTION_INDEX, bits)| <= 12 * |bits|
  {
    if bits == [] {
    } else {
      TextLength(bits[1..]);
    }
  }

  /** No selection of the table outgrows the buffer. */
  lemma TextFits(mask: bv32)
    ensures |Appended(RESOLUTION_INDEX, BitsFrom(mask, 1))| < Capture.SIZE_1K
  {
    TextLength(BitsFrom(mask, 1));
  }

  lemma TableIsPlain()
    ensures |RESOLUTION_INDEX| == MAX_RESOLUTION_SUPPORT && PlainTable(RESOLUTION_INDEX)
  {
    assert forall i :: 0 <= i < |RESOLUTION_INDEX| ==> PlainName(RESOLUTION_INDEX[i]);
  }

  /** So the list that `getSupportResolution` returns for the shipped table reads back as
      the bits set from 1 up, lowest first, and two masks print alike exactly when they
      agree on those bits. */
  lemma ShippedListRoundTrip(mask: bv32, other: bv32)
    ensures |RESOLUTION_INDEX| == MAX_RESOLUTION_SUPPORT
    ensures var bits := BitsFrom(mask, 1);
            && ParseBits(RESOLUTION_INDEX, List(Names(RESOLUTION_INDEX, bits))) == bits
            && (forall k :: 1 <= k < 10 ==> (k in bits <==> Has(mask, k)))
    ensures List(Names(RESOLUTION_INDEX, BitsFrom(mask, 1))) == List(Names(RESOLUTION_INDEX, BitsFrom(other, 1)))
            <==> forall k :: 1 <= k < 10 ==> Has(mask, k) == Has(other, k)
  {
    TableIsPlain();
    PrintedListRoundTrip(RESOLUTION_INDEX, mask, other);
    forall k | 1 <= k < 10 ensures k in BitsFrom(mask, 1) <==> Has(mask, k) {
      SetFromExact(Flags(mask), 1, k);
    }
  }

  // ----- the whole list -----

  lemma {:induction false} AllSelected(f: seq<bool>, i: nat)
    requires i <= |f| && forall k :: i <= k < |f| ==> f[k]
    ensures |SetFrom(f, i)| == |f| - i && forall k :: 0 <= k < |f| - i ==> SetFrom(f, i)[k] == i + k
    decreases |f| - i
  {
    if i == |f| {
    } else {
      AllSelected(f, i + 1);
    }
  }

  lemma {:induction false} NamesOfRange(table: seq<string>, bits: seq<nat>, i: nat)
    requires i + |bits| == |table| && forall k :: 0 <= k < |bits| ==> bits[k] == i + k
    ensures Names(table, bits) == table[i..]
  {
    if bits == [] {
    } else {
      NamesOfRange(table, bits[1..], i + 1);
      assert table[i..] == [table[i]] + table[i + 1..];
    }
  }

  lemma ListFrom(table: seq<string>, i: nat)
    requires i + 1 < |table|
    ensures List(table[i..]) == "{" + table[i] + "}," + List(table[i + 1..])
  {
    assert table[i..][1..] == table[i + 1..];
  }

  lemma FullMask(k: nat)
    requires k < 10
    ensures Has(0x3FE, k) <==> k > 0
  {}

  lemma ListOfTail(t: seq<string>)
    requires |t| == 10
    ensures List(t[6..]) == "{" + t[6] + "}," + ("{" + t[7] + "}," + ("{" + t[8] + "}," + ("{" + t[9] + "}")))
  {
    ListFrom(t, 6);
    ListFrom(t, 7);
    ListFrom(t, 8);
    assert t[9..] == [t[9]];
  }

  lemma ListOfHead(t: seq<string>)
    requires |t| == 10
    ensures List(t[1..]) ==
              "{" + t[1] + "}," + ("{" + t[2] + "}," + ("{" + t[3] + "}," + ("{" + t[4] + "},"
              + ("{" + t[5] + "}," + List(t[6..])))))
  {
    ListFrom(t, 1);
    ListFrom(t, 2);
    ListFrom(t, 3);
    ListFrom(t, 4);
    ListFrom(t, 5);
  }

  lemma {:induction false} NamesOfFullMask(t: seq<string>)
    requires |t| == 10
    ensures Names(t, BitsFrom(0x3FE, 1)) == t[1..]
  {
    forall k | 1 <= k < 10 ensures Flags(0x3FE)[k] { FullMask(k); }
    AllSelected(Flags(0x3FE), 1);
    NamesOfRange(t, BitsFrom(0x3FE, 1), 1);
  }

  /** With all bits set the list is, char for char, the table from its second entry on. */
  lemma {:induction false} FullListText(t: seq<string>)
    requires t == RESOLUTION_INDEX
    ensures List(Names(t, BitsFrom(0x3FE, 1))) ==
              "{" + t[1] + "}," + ("{" + t[2] + "}," + ("{" + t[3] + "}," + ("{" + t[4] + "}," + ("{" + t[5] + "},"
              + ("{" + t[6] + "}," + ("{" + t[7] + "}," + ("{" + t[8] + "}," + ("{" + t[9] + "}"))))))))
    ensures t[0] == "800x600" && t[1] == "1024x768" && t[2] == "1280x720" && t[3] == "1280x1024" && t[4] == "1360x768"
    ensures t[5] == "1366x768" && t[6] == "1440x900" && t[7] == "1600x900" && t[8] == "1680x1050" && t[9] == "1920x1080"
  {
    NamesOfFullMask(t);
    ListOfHead(t);
    ListOfTail(t);
    TableIs(t);
  }

  lemma TableIs(t: seq<string>)
    requires t == RESOLUTION_INDEX
    ensures |t| == 10
    ensures t[0] == "800x600" && t[1] == "1024x768" && t[2] == "1280x720" && t[3] == "1280x1024" && t[4] == "1360x768"
    ensures t[5] == "1366x768" && t[6] == "1440x900" && t[7] == "1600x900" && t[8] == "1680x1050" && t[9] == "1920x1080"
  {}
}
