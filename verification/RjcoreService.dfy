/** The service object: the identity read at start-up, the getters it gates, and the
    power and LED commands gated by the product type.
 */
module RjcoreService {
  import opened Capture
  import opened ProductId
  import opened NandRecord

  /** The commands the power and LED calls hand to the shell. */
  datatype Command = BeginMode(mode: int) | SetLedCtrl(color: int, state: int) | GetLedCtrl(color: int)

  datatype Request = SetPower(state: int) | GetPower | SetLed(color: int, state: int) | GetLed(color: int)

  const EXCLUDED := ["Rain100", "Rain100s", "Rain100S", ""]

  class Service {
    var mInit: bool
    var mSerialNum: string
    var mProductType: string
    var mHardwareVersion: string
    var mProductId: string
    var issued: seq<Command>
    ghost const im: Image
    const abi: Abi

    ghost function Known(): Identity reads this {
      Identity(mInit, mSerialNum, mProductType, mHardwareVersion, mProductId)
    }

    /** The object knows what its start-up found in the image `im`. */
    ghost predicate Valid() reads this { Known() == Identify(im, abi) }

    /** The constructor calls `init` and goes on when it fails. */
    constructor (file: NandFile?, abi: Abi)
      modifies if file == null then {} else {file}
      ensures im == if file == null then Missing else Image(file.image, file.seekable)
      ensures this.abi == abi && issued == []
      ensures Valid()
    {
      im := if file == null then Missing else Image(file.image, file.seekable);
      this.abi := abi;
      mInit, mSerialNum, mProductType, mHardwareVersion, mProductId := false, "", "", "", "";
      issued := [];
      new;
      var ok := GetNandStoreInfo(file, abi);
      if ok { mInit := true; }
    }

    method GetNandStoreInfo(file: NandFile?, abi: Abi) returns (ok: bool)
      modifies this
      modifies if file == null then {} else {file}
      ensures mInit == old(mInit) && issued == old(issued)
      ensures var known := Identify(if file == null then Missing else Image(file.image, file.seekable), abi);
              && ok == known.init
              && Known() == known.(init := old(mInit))
    {
      mSerialNum, mHardwareVersion, mProductType, mProductId := "", "", "", "";
      var res := new Octet[SIZE_1K](_ => NUL);
      assert res[..] == Zeros();
      if file == null { return false; }

      ok, mSerialNum := ReadField(file, 0, SERIAL_NUMBER_LEN, res, abi);
      if !ok { return false; }
      Clear(res);

      ok, mProductType := ReadField(file, PRODUCT_TYPE_OFF, 1, res, abi);
      if !ok { return false; }
      Clear(res);

      ok, mHardwareVersion := ReadField(file, HARDWARE_VERSION_OFF, 1, res, abi);
      if !ok { return false; }
      Clear(res);

      ok := ReadNand(file, PRODUCT_ID_OFF, PRODUCT_ID_LEN, res, false, abi);
      if !ok { return false; }
      assert res[..PRODUCT_ID_LEN] == file.image[PRODUCT_ID_OFF..PRODUCT_ID_OFF + PRODUCT_ID_LEN];
      var productId := JoinBytes(res, abi);
      mProductId := PrintHex(productId);
    }

    /** One field, into zeroed memory. */
    method ReadField(file: NandFile, off: nat, len: nat, res: array<Octet>, abi: Abi) returns (ok: bool, s: string)
      requires 0 < len <= res.Length == SIZE_1K && res[..] == Zeros()
      modifies file`pos, res
      ensures ok == (file.seekable && FieldOk(file.image, off, len, abi))
      ensures s == if ok then FieldText(file.image, off, len, abi) else ""
    {
      ok := ReadNand(file, off, len, res, true, abi);
      if !ok { return false, ""; }
      s := FieldString(res);
    }

    /** `memset(res, 0, sizeof(res))` */
    method Clear(res: array<Octet>)
      requires res.Length == SIZE_1K
      modifies res
      ensures res[..] == Zeros()
    {
      forall i | 0 <= i < res.Length { res[i] := NUL; }
    }

    /** `String16(res)` */
    method FieldString(res: array<Octet>) returns (s: string)
      ensures s == CStr(res[..])
    {
      var n := 0;
      while n < res.Length && res[n] != NUL
        invariant n <= res.Length
        invariant forall i :: 0 <= i < n ==> res[i] != NUL
      {
        n := n + 1;
      }
      s := res[..n];
      assert res[..][..n] == res[..n];
      CStrIs(res[..], n);
    }

    /** What is stored in the image, once all four reads have succeeded. */
    method GetSerialNumber() returns (s: string)
      requires Valid()
      ensures s == if IdOk(im, abi) then FieldText(im.bytes, 0, 2, abi) else ""
    {
      if !mInit { return ""; }
      s := mSerialNum;
    }

    /** As above; a type that was read is not given out when a later read fails. */
    method GetProductType() returns (s: string)
      requires Valid()
      ensures s == if IdOk(im, abi) then FieldText(im.bytes, 32, 1, abi) else ""
    {
      if !mInit { return ""; }
      s := mProductType;
    }

    /** As above. */
    method GetHardwareVersion() returns (s: string)
      requires Valid()
      ensures s == if IdOk(im, abi) then FieldText(im.bytes, 48, 1, abi) else ""
    {
      if !mInit { return ""; }
      s := mHardwareVersion;
    }

    /** As above, from the four bytes at 58. */
    method GetProductId() returns (s: string)
      requires Valid()
      ensures s == if IdOk(im, abi) then IdString(FourBytes(im.bytes[58..62]), abi) else ""
      ensures IdOk(im, abi) && JoinsRight(FourBytes(im.bytes[58..62]), abi) ==>
                && |s| == 8
                && forall i :: 0 <= i < 4 ==>
                     && (var h := im.bytes[58 + i] as int / 16; s[2 * i] as int == if h < 10 then 48 + h else 87 + h)
                     && (var l := im.bytes[58 + i] as int % 16; s[2 * i + 1] as int == if l < 10 then 48 + l else 87 + l)
    {
      if !mInit { return ""; }
      ghost var id := im.bytes[58..62];
      if JoinsRight(FourBytes(id), abi) { IdStringIs(id, abi); }
      s := mProductId;
    }

    method SetPowerState(powerState: int)
      modifies this`issued
      ensures issued == old(issued) + Commands(GatesOf(Known()), SetPower(powerState))
      ensures issued == old(issued) +
                if 0 <= powerState <= 1 && mProductType !in ["Rain100", "Rain100s", "Rain100S", ""]
                then [BeginMode(powerState)] else []
    {
      if powerState < 0 || powerState > 1 { return; }
      if mProductType in EXCLUDED { return; }
      issued := issued + [BeginMode(powerState)];
    }

    /** `answer` is the text captured from the command. */
    method GetPowerState(answer: seq<Octet>) returns (r: int)
      modifies this`issued
      ensures issued == old(issued) + Commands(GatesOf(Known()), GetPower)
      ensures r == if mProductType in EXCLUDED then 0 else FirstDigit(answer, abi)
      ensures issued == old(issued) +
                if mProductType !in ["Rain100", "Rain100s", "Rain100S", ""] then [BeginMode(2)] else []
    {
      if mProductType in EXCLUDED { return 0; }
      issued := issued + [BeginMode(2)];
      r := FirstDigit(answer, abi);
    }

    method GetLedStatus(color: int, answer: seq<Octet>) returns (r: int)
      modifies this`issued
      ensures issued == old(issued) + Commands(GatesOf(Known()), GetLed(color))
      ensures r == if Commands(GatesOf(Known()), GetLed(color)) == [] then -1 else FirstDigit(answer, abi)
      ensures issued == old(issued) +
                if 0 <= color <= 2 && mProductType == "Rain200S" then [GetLedCtrl(color)] else []
    {
      if color < 0 || color > 2 { return -1; }
      if mProductType != "Rain200S" { return -1; }
      issued := issued + [GetLedCtrl(color)];
      r := FirstDigit(answer, abi);
    }

    method SetLedStatus(color: int, state: int)
      modifies this`issued
      ensures issued == old(issued) + Commands(GatesOf(Known()), SetLed(color, state))
      ensures issued == old(issued) +
                if 0 <= color <= 2 && 0 <= state <= 1 && mProductType == "Rain200S"
                then [SetLedCtrl(color, state)] else []
    {
      if color < 0 || color > 2 { return; }
      if state < 0 || state > 1 { return; }
      if mProductType != "Rain200S" { return; }
      issued := issued + [SetLedCtrl(color, state)];
    }
  }

  /** `res[0] - '0'`, or -1 when `res[0]`, which is NUL without an answer, is below '0'.
      A signed char is below '0' from 0x80 up. */
  function FirstDigit(answer: seq<Octet>, abi: Abi): (r: int)
    ensures -1 <= r <= 0xFF - 0x30
    ensures r >= 0 <==> answer != [] && answer[0] >= '0' && (abi.signedChar ==> answer[0] as int < 0x80)
    ensures r >= 0 ==> answer[0] as int == 0x30 + r
  {
    if answer == [] || CharValue(answer[0], abi) < 0x30 then -1 else CharValue(answer[0], abi) - 0x30
  }

  /** What the product type allows. */
  datatype Gates = Gates(led: bool, power: bool)

  function GatesOf(k: Identity): Gates { Gates(k.productType == "Rain200S", k.productType !in EXCLUDED) }

  /** The commands that one call issues. */
  function Commands(g: Gates, r: Request): seq<Command> {
    match r
    case SetPower(state) => if 0 <= state <= 1 && g.power then [BeginMode(state)] else []
    case GetPower => if g.power then [BeginMode(2)] else []
    case SetLed(color, state) =>
      if 0 <= color <= 2 && 0 <= state <= 1 && g.led then [SetLedCtrl(color, state)] else []
    case GetLed(color) => if 0 <= color <= 2 && g.led then [GetLedCtrl(color)] else []
  }

  function AllCommands(g: Gates, rs: seq<Request>): seq<Command> {
    if rs == [] then [] else AllCommands(g, rs[..|rs| - 1]) + Commands(g, rs[|rs| - 1])
  }

  // ----- every image, every call sequence -----

  /** How many of the four reads succeeded, in their order. */
  function Reads(im: Image, abi: Abi): nat {
    if IdOk(im, abi) then 4 else if HardwareOk(im, abi) then 3
    else if TypeOk(im, abi) then 2 else if SerialOk(im, abi) then 1 else 0
  }

  /** The fields saved are a prefix of the read order, and the object is initialised
      exactly when all four reads succeeded. */
  lemma SavedFieldsArePrefix(im: Image, abi: Abi)
    ensures var k, n := Identify(im, abi), Reads(im, abi);
            && (k.init <==> n == 4)
            && (n < 4 ==> k.productId == "") && (n < 3 ==> k.hardware == "")
            && (n < 2 ==> k.productType == "") && (n < 1 ==> k.serial == "")
            && (n == 4 ==> |k.productId| >= 8)
  {
    if IdOk(im, abi) {
      var b := FourBytes(im.bytes[PRODUCT_ID_OFF..PRODUCT_ID_OFF + PRODUCT_ID_LEN]);
      StripLength(HexLow(Joined(b, abi), 16));
    }
  }

  lemma {:induction false} StripLength(s: string)
    requires |s| >= 8
    ensures |Strip(s)| >= 8
  {
    if |s| <= 8 || s[0] != '0' {
    } else {
      StripLength(s[1..]);
    }
  }

  /** Truncating an image never makes a further read succeed, and what is still read is
      the same. */
  lemma TruncationOnlyLoses(bytes: seq<Octet>, n: nat, abi: Abi)
    requires n <= |bytes|
    ensures var full, cut := Image(bytes, true), Image(bytes[..n], true);
            && Reads(cut, abi) <= Reads(full, abi)
            && (Reads(cut, abi) >= 1 ==> Identify(cut, abi).serial == Identify(full, abi).serial)
            && (Reads(cut, abi) >= 2 ==> Identify(cut, abi).productType == Identify(full, abi).productType)
            && (Reads(cut, abi) >= 3 ==> Identify(cut, abi).hardware == Identify(full, abi).hardware)
            && (Reads(cut, abi) >= 4 ==> Identify(cut, abi) == Identify(full, abi))
  {
    CutField(bytes, n, 0, SERIAL_NUMBER_LEN, abi);
    CutField(bytes, n, PRODUCT_TYPE_OFF, 1, abi);
    CutField(bytes, n, HARDWARE_VERSION_OFF, 1, abi);
    if PRODUCT_ID_OFF + PRODUCT_ID_LEN <= n {
      assert bytes[..n][PRODUCT_ID_OFF..PRODUCT_ID_OFF + PRODUCT_ID_LEN]
             == bytes[PRODUCT_ID_OFF..PRODUCT_ID_OFF + PRODUCT_ID_LEN];
    }
  }

  lemma CutField(bytes: seq<Octet>, n: nat, off: nat, len: nat, abi: Abi)
    requires n <= |bytes| && 0 < len <= 2
    ensures FieldOk(bytes[..n], off, len, abi) ==>
              FieldOk(bytes, off, len, abi)
              && FieldText(bytes[..n], off, len, abi) == FieldText(bytes, off, len, abi)
  {
    var cut := bytes[..n];
    if FieldOk(cut, off, len, abi) {
      var v := cut[off] as int;
      assert bytes[off] == cut[off];
      assert cut[off..off + len] == bytes[off..off + len];
      assert cut[off + len..off + len + v] == bytes[off + len..off + len + v];
      assert FieldMemory(cut, off, len, abi, Zeros()) == FieldMemory(bytes, off, len, abi, Zeros());
    }
  }

  lemma {:induction false} EachPassedItsGate(g: Gates, rs: seq<Request>, i: nat)
    requires i < |AllCommands(g, rs)|
    ensures match AllCommands(g, rs)[i]
            case SetLedCtrl(color, state) => 0 <= color <= 2 && 0 <= state <= 1 && g.led
            case GetLedCtrl(color) => 0 <= color <= 2 && g.led
            case BeginMode(mode) => 0 <= mode <= 2 && g.power
  {
    var before := AllCommands(g, rs[..|rs| - 1]);
    if i < |before| {
      EachPassedItsGate(g, rs[..|rs| - 1], i);
    } else {
      assert AllCommands(g, rs)[i] == Commands(g, rs[|rs| - 1])[i - |before|];
    }
  }

  /** Over every call sequence: LED commands are in range and only for the Rain200S,
      power commands only for a type outside the excluded list; and a type was read at
      all only if the first two reads succeeded. */
  lemma {:induction false} GatesHold(im: Image, abi: Abi, rs: seq<Request>, i: nat)
    requires i < |AllCommands(GatesOf(Identify(im, abi)), rs)|
    ensures var k := Identify(im, abi);
            && Reads(im, abi) >= 2
            && match AllCommands(GatesOf(k), rs)[i]
               case SetLedCtrl(color, state) => 0 <= color <= 2 && 0 <= state <= 1 && k.productType == "Rain200S"
               case GetLedCtrl(color) => 0 <= color <= 2 && k.productType == "Rain200S"
               case BeginMode(mode) => 0 <= mode <= 2 && k.productType !in EXCLUDED
  {
    EachPassedItsGate(GatesOf(Identify(im, abi)), rs, i);
    assert EXCLUDED[3] == "";
  }

  /** `mInit` does not gate the commands.  Exact condition, for every image: nothing is
      ever issued by an object that failed to initialise if and only if it did initialise
      or its product type is on the excluded list, which holds the empty one. */
  lemma GatedByInitIff(im: Image, abi: Abi)
    ensures var g, gated := GatesOf(Identify(im, abi)), IdOk(im, abi) || Identify(im, abi).productType in EXCLUDED;
            && ((forall q :: Commands(g, q) != [] ==> IdOk(im, abi)) <==> gated)
            && ((forall rs :: AllCommands(g, rs) != [] ==> IdOk(im, abi)) <==> gated)
  {
    var k := Identify(im, abi);
    var g := GatesOf(k);
    if !IdOk(im, abi) {
      assert "Rain200S" !in EXCLUDED by { ShippedTypes(); }
      if k.productType in EXCLUDED {
        forall rs ensures AllCommands(g, rs) == [] {
          if AllCommands(g, rs) != [] { EachPassedItsGate(g, rs, 0); }
        }
      } else {
        assert Commands(g, GetPower) == [BeginMode(2)];
        OneRequest(g, GetPower);
      }
    }
  }

  lemma ShippedTypes()
    ensures "Rain200S" !in EXCLUDED
  {
    assert forall i :: 0 <= i < 4 ==> |EXCLUDED[i]| != 8 || EXCLUDED[i][4] != '2';
    assert "Rain200S"[4] == '2';
  }

  lemma {:induction false} OneRequest(g: Gates, r: Request)
    ensures AllCommands(g, [r]) == Commands(g, r)
  {
    assert [r][..0] == [];
  }

  /** An image that ends after the product type. */
  function CutImage(): seq<Octet> { Pad([], 32) + Pad([Octets(8)] + "Rain200S", 16) }

  lemma CutAfterType(abi: Abi)
    ensures TypeOk(Image(CutImage(), true), abi) && !HardwareOk(Image(CutImage(), true), abi)
    ensures FieldText(CutImage(), PRODUCT_TYPE_OFF, 1, abi) == "Rain200S"
  {
    var bytes := CutImage();
    assert bytes[0] == NUL && bytes[32] as int == 8 && bytes[33..41] == "Rain200S";
    FieldTextIs(bytes, 32, 1, abi, "Rain200S");
  }

  /** On that image every getter returns "" and the LED is still driven. */
  method CommandsWithoutInit(abi: Abi)
    returns (serial: string, ptype: string, hardware: string, id: string, issued: seq<Command>)
    ensures serial == ptype == hardware == id == ""
    ensures issued == [SetLedCtrl(1, 1)]
  {
    CutAfterType(abi);
    var file := new NandFile(CutImage(), true);
    var svc := new Service(file, abi);
    svc.SetLedStatus(1, 1);
    serial := svc.GetSerialNumber();
    ptype := svc.GetProductType();
    hardware := svc.GetHardwareVersion();
    id := svc.GetProductId();
    issued := svc.issued;
  }

  /** Start-up and the getters return what is stored: the product type and the hardware
      version always, the serial number and the id under the conditions of the parser. */
  method StoredIdentityIsServed(image: seq<Octet>, ghost serial: seq<Octet>, ghost spare: Octet, ghost ptype: seq<Octet>,
                                ghost hardware: seq<Octet>, ghost id: seq<Octet>, abi: Abi)
    returns (gotSerial: string, gotType: string, gotHardware: string, gotId: string)
    requires LaidOut(image, serial, spare, ptype, hardware, id)
    requires Clean(serial) && Clean(ptype) && Clean(hardware)
    ensures gotType == ptype && gotHardware == hardware
    ensures gotSerial == serial <==> |serial| != 1 || spare == NUL
    ensures gotId == EightDigits(FourBytes(id)) <==> JoinsRight(FourBytes(id), abi)
    ensures ParseHex(gotId) == BigEndian(FourBytes(id)) <==> JoinsRight(FourBytes(id), abi)
  {
    ParsingUndoesLayout(image, serial, spare, ptype, hardware, id, abi);
    var file := new NandFile(image, true);
    var svc := new Service(file, abi);
    gotSerial := svc.GetSerialNumber();
    gotType := svc.GetProductType();
    gotHardware := svc.GetHardwareVersion();
    gotId := svc.GetProductId();
  }
}
