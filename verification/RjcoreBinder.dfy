/** The Binder interface of the core service: the client proxy, the server stub and the
    37 transactions between them.
 */
module RjcoreBinder {
  import opened Basics
  import opened Parcels

  const DESCRIPTOR := "com.ruijie.core.library.interfaces.IRjcoreManager"

  // ----- transaction codes -----

  const FIRST_CALL_TRANSACTION: int := 1
  const GET_CPU_INFO: int := FIRST_CALL_TRANSACTION
  const GET_ANDROID_VERSION: int := GET_CPU_INFO + 1
  const GET_SYSTEM_VERSION: int := GET_ANDROID_VERSION + 1
  const GET_SERIAL_NUMBER: int := GET_SYSTEM_VERSION + 1
  const GET_PRODUCT_TYPE: int := GET_SERIAL_NUMBER + 1
  const GET_HARDWARE_VERSION: int := GET_PRODUCT_TYPE + 1
  const GET_PRODUCT_ID: int := GET_HARDWARE_VERSION + 1
  const GET_PRODUCT_NAME: int := GET_PRODUCT_ID + 1
  const GET_BASEBOARD_INFO: int := GET_PRODUCT_NAME + 1
  const GET_MEMORY_INFO: int := GET_BASEBOARD_INFO + 1
  const GET_STORAGE_INFO: int := GET_MEMORY_INFO + 1
  const SET_POWER_STATE: int := GET_STORAGE_INFO + 1
  const GET_POWER_STATE: int := SET_POWER_STATE + 1
  const COLLECT_LOG_FILES_BLOCK: int := GET_POWER_STATE + 1
  const CHMOD_FILE: int := COLLECT_LOG_FILES_BLOCK + 1
  const CHMOD_DIR: int := CHMOD_FILE + 1
  const RM_FILE: int := CHMOD_DIR + 1
  const REBOOT: int := RM_FILE + 1
  const SHUTDOWN: int := REBOOT + 1
  const GET_LED_STATUS: int := SHUTDOWN + 1
  const SET_LED_STATUS: int := GET_LED_STATUS + 1
  const SET_DEVICE_RESOLUTION: int := SET_LED_STATUS + 1
  const GET_CURRENT_RESOLUTION_BLOCK: int := SET_DEVICE_RESOLUTION + 1
  const GET_SUPPORT_RESOLUTION: int := GET_CURRENT_RESOLUTION_BLOCK + 1
  const GET_PROPERTY_VALUE: int := GET_SUPPORT_RESOLUTION + 1
  const GET_NETCARD_STATE: int := GET_PROPERTY_VALUE + 1
  const GET_NETCARD_CUR_SPEED: int := GET_NETCARD_STATE + 1
  const GET_NETCARD_MAX_SPEED: int := GET_NETCARD_CUR_SPEED + 1
  const START_AVAHI: int := GET_NETCARD_MAX_SPEED + 1
  const STOP_AVAHI: int := START_AVAHI + 1
  const CHECK_IP_CONFLICT_BLOCK: int := STOP_AVAHI + 1
  const PING_BLOCK: int := CHECK_IP_CONFLICT_BLOCK + 1
  const CHECK_BANDWIDTH_BLOCK: int := PING_BLOCK + 1
  const GET_OTA_RESULT: int := CHECK_BANDWIDTH_BLOCK + 1
  const IS_PROCESS_RUNNING: int := GET_OTA_RESULT + 1
  const GET_PROCESS_ID: int := IS_PROCESS_RUNNING + 1
  const KILL_PROCESS_BY_NAME: int := GET_PROCESS_ID + 1

  const NO_ERROR: int := 0
  const PERMISSION_DENIED: int := -1
  const UNKNOWN_TRANSACTION: int := -74

  predicate KnownCode(code: int) { GET_CPU_INFO <= code <= KILL_PROCESS_BY_NAME }

  // ----- the interface -----

  datatype Call =
    | GetCpuInfo
    | GetAndroidVersion
    | GetSystemVersion
    | GetSerialNumber
    | GetProductType
    | GetHardwareVersion
    | GetProductId
    | GetProductName
    | GetBaseboardInfo
    | GetMemoryInfo
    | GetStorageInfo
    | SetPowerState(powerState: Int32)
    | GetPowerState
    | CollectLogFiles(zipFilename: string)
    | ChmodFile(path: string, mode: string)
    | ChmodDir(path: string, mode: string)
    | RmFile(path: string)
    | Reboot
    | Shutdown
    | GetLedStatus(color: Int32)
    | SetLedStatus(color: Int32, state: Int32)
    | SetDeviceResolution(xres: Int32, yres: Int32, refresh: Int32, flag: Int32)
    | GetCurrentResolution
    | GetSupportResolution
    | GetPropertyValue(key: string)
    | GetNetcardState
    | GetNetcardCurSpeed
    | GetNetcardMaxSpeed
    | StartAvahi
    | StopAvahi
    | CheckIpConflict(ip: string)
    | Ping(ip: string, count: Int32, timeout: Int32, deadline: Int32)
    | CheckBandwidth(serverIp: string, user: string, code: string)
    | GetOtaResult
    | IsProcessRunning(processName: string)
    | GetProcessId(processName: string)
    | KillByProcessName(processName: string)

  datatype Value = Text(s: string) | Number(n: Int32) | Flag(b: bool) | Void

  datatype Kind = TextKind | NumberKind | FlagKind | VoidKind

  function KindOf(v: Value): Kind {
    match v
    case Text(_) => TextKind
    case Number(_) => NumberKind
    case Flag(_) => FlagKind
    case Void => VoidKind
  }

  /** The declared return type of each method of the interface. */
  function ReturnKind(c: Call): Kind {
    match c
    case SetPowerState(_) | Reboot | Shutdown | SetLedStatus(_, _)
       | StartAvahi | StopAvahi | KillByProcessName(_) => VoidKind
    case GetPowerState | GetLedStatus(_) => NumberKind
    case CollectLogFiles(_) | ChmodFile(_, _) | ChmodDir(_, _) | RmFile(_)
       | SetDeviceResolution(_, _, _, _) | GetNetcardState | GetOtaResult
       | IsProcessRunning(_) => FlagKind
    case _ => TextKind
  }

  /** What a proxy method returns when the transaction never reached the service. */
  function ZeroValue(k: Kind): Value {
    match k
    case TextKind => Text("")
    case NumberKind => Number(0)
    case FlagKind => Flag(false)
    case VoidKind => Void
  }

  /** Any implementation of the interface, as a state transformer. */
  type Handler<!S> = (S, Call) -> (S, Value)

  /** The value is of the type that the interface declares for the call. */
  predicate Declared(c: Call, v: Value) {
    match c
    case GetCpuInfo | GetAndroidVersion | GetSystemVersion | GetSerialNumber | GetProductType | GetHardwareVersion
       | GetProductId | GetProductName | GetBaseboardInfo | GetMemoryInfo | GetStorageInfo => v.Text?
    case SetPowerState(_) => v.Void?
    case GetPowerState => v.Number?
    case CollectLogFiles(_) | ChmodFile(_, _) | ChmodDir(_, _) | RmFile(_) => v.Flag?
    case Reboot | Shutdown => v.Void?
    case GetLedStatus(_) => v.Number?
    case SetLedStatus(_, _) => v.Void?
    case SetDeviceResolution(_, _, _, _) => v.Flag?
    case GetCurrentResolution | GetSupportResolution | GetPropertyValue(_) => v.Text?
    case GetNetcardState => v.Flag?
    case GetNetcardCurSpeed | GetNetcardMaxSpeed => v.Text?
    case StartAvahi | StopAvahi => v.Void?
    case CheckIpConflict(_) | Ping(_, _, _, _) | CheckBandwidth(_, _, _) => v.Text?
    case GetOtaResult | IsProcessRunning(_) => v.Flag?
    case GetProcessId(_) => v.Text?
    case KillByProcessName(_) => v.Void?
  }

  ghost predicate WellTyped<S(!new)>(h: Handler<S>) {
    forall s, c :: Declared(c, h(s, c).1)
  }

  /** What the proxies read and the stubs write is what the interface declares. */
  lemma KindIsDeclared(c: Call, v: Value)
    ensures KindOf(v) == ReturnKind(c) <==> Declared(c, v)
  {}

  class Service<S(!new)> {
    const handler: Handler<S>
    var state: S
    var served: seq<Call>

    constructor (handler: Handler<S>, state: S)
      ensures this.handler == handler && this.state == state && served == []
    {
      this.handler, this.state, this.served := handler, state, [];
    }

    method Serve(c: Call) returns (v: Value)
      modifies this
      ensures (state, v) == handler(old(state), c) && served == old(served) + [c]
    {
      var r := handler(state, c);
      state, v := r.0, r.1;
      served := served + [c];
    }
  }

  // ----- client side -----

  function CodeOf(c: Call): int {
    match c
    case GetCpuInfo => GET_CPU_INFO
    case GetAndroidVersion => GET_ANDROID_VERSION
    case GetSystemVersion => GET_SYSTEM_VERSION
    case GetSerialNumber => GET_SERIAL_NUMBER
    case GetProductType => GET_PRODUCT_TYPE
    case GetHardwareVersion => GET_HARDWARE_VERSION
    case GetProductId => GET_PRODUCT_ID
    case GetProductName => GET_PRODUCT_NAME
    case GetBaseboardInfo => GET_BASEBOARD_INFO
    case GetMemoryInfo => GET_MEMORY_INFO
    case GetStorageInfo => GET_STORAGE_INFO
    case SetPowerState(_) => SET_POWER_STATE
    case GetPowerState => GET_POWER_STATE
    case CollectLogFiles(_) => COLLECT_LOG_FILES_BLOCK
    case ChmodFile(_, _) => CHMOD_FILE
    case ChmodDir(_, _) => CHMOD_DIR
    case RmFile(_) => RM_FILE
    case Reboot => REBOOT
    case Shutdown => SHUTDOWN
    case GetLedStatus(_) => GET_LED_STATUS
    case SetLedStatus(_, _) => SET_LED_STATUS
    case SetDeviceResolution(_, _, _, _) => SET_DEVICE_RESOLUTION
    case GetCurrentResolution => GET_CURRENT_RESOLUTION_BLOCK
    case GetSupportResolution => GET_SUPPORT_RESOLUTION
    case GetPropertyValue(_) => GET_PROPERTY_VALUE
    case GetNetcardState => GET_NETCARD_STATE
    case GetNetcardCurSpeed => GET_NETCARD_CUR_SPEED
    case GetNetcardMaxSpeed => GET_NETCARD_MAX_SPEED
    case StartAvahi => START_AVAHI
    case StopAvahi => STOP_AVAHI
    case CheckIpConflict(_) => CHECK_IP_CONFLICT_BLOCK
    case Ping(_, _, _, _) => PING_BLOCK
    case CheckBandwidth(_, _, _) => CHECK_BANDWIDTH_BLOCK
    case GetOtaResult => GET_OTA_RESULT
    case IsProcessRunning(_) => IS_PROCESS_RUNNING
    case GetProcessId(_) => GET_PROCESS_ID
    case KillByProcessName(_) => KILL_PROCESS_BY_NAME
  }

  /** The codes count the calls from 1 on. */
  lemma CodesAre(c: Call)
    ensures CodeOf(c) ==
      match c
      case GetCpuInfo => 1 case GetAndroidVersion => 2 case GetSystemVersion => 3 case GetSerialNumber => 4
      case GetProductType => 5 case GetHardwareVersion => 6 case GetProductId => 7 case GetProductName => 8
      case GetBaseboardInfo => 9 case GetMemoryInfo => 10 case GetStorageInfo => 11 case SetPowerState(_) => 12
      case GetPowerState => 13 case CollectLogFiles(_) => 14 case ChmodFile(_, _) => 15 case ChmodDir(_, _) => 16
      case RmFile(_) => 17 case Reboot => 18 case Shutdown => 19 case GetLedStatus(_) => 20
      case SetLedStatus(_, _) => 21 case SetDeviceResolution(_, _, _, _) => 22 case GetCurrentResolution => 23
      case GetSupportResolution => 24 case GetPropertyValue(_) => 25 case GetNetcardState => 26
      case GetNetcardCurSpeed => 27 case GetNetcardMaxSpeed => 28 case StartAvahi => 29 case StopAvahi => 30
      case CheckIpConflict(_) => 31 case Ping(_, _, _, _) => 32 case CheckBandwidth(_, _, _) => 33
      case GetOtaResult => 34 case IsProcessRunning(_) => 35 case GetProcessId(_) => 36
      case KillByProcessName(_) => 37
  {}

  /** The items a proxy method writes after the interface token. */
  function ArgItems(c: Call): seq<Item> {
    match c
    case SetPowerState(powerState) => [I32(powerState)]
    case CollectLogFiles(zipFilename) => [S16(zipFilename)]
    case ChmodFile(path, mode) => [S16(path), S16(mode)]
    case ChmodDir(path, mode) => [S16(path), S16(mode)]
    case RmFile(path) => [S16(path)]
    case GetLedStatus(color) => [I32(color)]
    case SetLedStatus(color, state) => [I32(color), I32(state)]
    case SetDeviceResolution(xres, yres, refresh, flag) => [I32(xres), I32(yres), I32(refresh), I32(flag)]
    case GetPropertyValue(key) => [S16(key)]
    case CheckIpConflict(ip) => [S16(ip)]
    case Ping(ip, count, timeout, deadline) => [S16(ip), I32(count), I32(timeout), I32(deadline)]
    case CheckBandwidth(serverIp, user, code) => [S16(serverIp), S16(user), S16(code)]
    case IsProcessRunning(processName) => [S16(processName)]
    case GetProcessId(processName) => [S16(processName)]
    case KillByProcessName(processName) => [S16(processName)]
    case _ => []
  }

  function Marshalled(c: Call): seq<Item> { [Token(DESCRIPTOR)] + ArgItems(c) }

  /** The parcels of the calls with several arguments, item by item. */
  lemma ParcelsAre(c: Call)
    ensures Marshalled(c)[0] == Token("com.ruijie.core.library.interfaces.IRjcoreManager")
    ensures c.ChmodFile? || c.ChmodDir? ==> Marshalled(c)[1..] == [S16(c.path), S16(c.mode)]
    ensures c.SetLedStatus? ==> Marshalled(c)[1..] == [I32(c.color), I32(c.state)]
    ensures c.SetDeviceResolution? ==> Marshalled(c)[1..] == [I32(c.xres), I32(c.yres), I32(c.refresh), I32(c.flag)]
    ensures c.Ping? ==> Marshalled(c)[1..] == [S16(c.ip), I32(c.count), I32(c.timeout), I32(c.deadline)]
    ensures c.CheckBandwidth? ==> Marshalled(c)[1..] == [S16(c.serverIp), S16(c.user), S16(c.code)]
  {
    assert Marshalled(c)[1..] == ArgItems(c);
  }

  method WriteOtherArgs(c: Call, data: Parcel)
    requires CodeOf(c) > GET_PROPERTY_VALUE
    modifies data`tape
    ensures data.tape == old(data.tape) + ArgItems(c)
  {
    match c
    case CheckIpConflict(ip) =>
      data.WriteString16(ip);
    case Ping(ip, count, timeout, deadline) =>
      data.WriteString16(ip);
      data.WriteInt32(count);
      data.WriteInt32(timeout);
      data.WriteInt32(deadline);
    case CheckBandwidth(serverIp, user, code) =>
      data.WriteString16(serverIp);
      data.WriteString16(user);
      data.WriteString16(code);
    case IsProcessRunning(processName) =>
      data.WriteString16(processName);
    case GetProcessId(processName) =>
      data.WriteString16(processName);
    case KillByProcessName(processName) =>
      data.WriteString16(processName);
    case _ =>
  }

  method WriteProductArgs(c: Call, data: Parcel)
    requires GET_STORAGE_INFO < CodeOf(c) <= GET_PROPERTY_VALUE
    modifies data`tape
    ensures data.tape == old(data.tape) + ArgItems(c)
  {
    match c
    case SetPowerState(powerState) =>
      data.WriteInt32(powerState);
    case CollectLogFiles(zipFilename) =>
      data.WriteString16(zipFilename);
    case ChmodFile(path, mode) =>
      data.WriteString16(path);
      data.WriteString16(mode);
    case ChmodDir(path, mode) =>
      data.WriteString16(path);
      data.WriteString16(mode);
    case RmFile(path) =>
      data.WriteString16(path);
    case GetLedStatus(color) =>
      data.WriteInt32(color);
    case SetLedStatus(color, state) =>
      data.WriteInt32(color);
      data.WriteInt32(state);
    case SetDeviceResolution(xres, yres, refresh, flag) =>
      data.WriteInt32(xres);
      data.WriteInt32(yres);
      data.WriteInt32(refresh);
      data.WriteInt32(flag);
    case GetPropertyValue(key) =>
      data.WriteString16(key);
    case _ =>
  }

  method WriteArgs(c: Call, data: Parcel)
    modifies data`tape
    ensures data.tape == old(data.tape) + ArgItems(c)
  {
    if CodeOf(c) > GET_PROPERTY_VALUE {
      WriteOtherArgs(c, data);
    } else if CodeOf(c) > GET_STORAGE_INFO {
      WriteProductArgs(c, data);
    }
  }

  // ----- server side -----

  /** The item that a read of the kind of `like` finds at position i. */
  function ReadAs(tape: seq<Item>, i: nat, like: Item): Item {
    match like
    case I32(_) => I32(IntAt(tape, i))
    case S16(_) => S16(StrAt(tape, i))
    case Token(_) => like
  }

  /** The i-th argument of c is what the r[i]-th read from p on finds. */
  predicate ReadFrom(c: Call, tape: seq<Item>, p: nat, r: seq<nat>) {
    && |r| == |ArgItems(c)|
    && forall i :: 0 <= i < |r| ==> ArgItems(c)[i] == ReadAs(tape, p + r[i], ArgItems(c)[i])
  }

  function LeftToRight(n: nat): seq<nat> { seq(n, (i: nat) => i) }

  /** The cursor after n reads from p. */
  function Cursor(tape: seq<Item>, p: nat, n: nat): nat {
    if p + n <= |tape| then p + n else if p <= |tape| then |tape| else p
  }

  /** A stub case of this code, reading from left to right, makes call c. */
  predicate StubReads(code: int, tape: seq<Item>, p: nat, c: Call, pos: nat) {
    && CodeOf(c) == code
    && ReadFrom(c, tape, p, LeftToRight(|ArgItems(c)|))
    && pos == Cursor(tape, p, |ArgItems(c)|)
  }

  /** The rest of the tape is what the proxy wrote for the call. */
  predicate Carries(tape: seq<Item>, p: nat, c: Call) { p <= |tape| && tape[p..] == ArgItems(c) }

  predicate TakesOne(code: int) {
    || code in [SET_POWER_STATE, GET_LED_STATUS, COLLECT_LOG_FILES_BLOCK, RM_FILE, GET_PROPERTY_VALUE]
    || code in [CHECK_IP_CONFLICT_BLOCK, IS_PROCESS_RUNNING, GET_PROCESS_ID, KILL_PROCESS_BY_NAME]
  }

  predicate TakesTwo(code: int) { code in [CHMOD_FILE, CHMOD_DIR, SET_LED_STATUS] }

  predicate TakesFour(code: int) { code in [SET_DEVICE_RESOLUTION, PING_BLOCK] }

  method ReadNone(code: int) returns (c: Call)
    requires KnownCode(code) && !TakesOne(code) && !TakesTwo(code) && !TakesFour(code)
    requires code != CHECK_BANDWIDTH_BLOCK
    ensures CodeOf(c) == code && ArgItems(c) == []
  {
    if code == GET_CPU_INFO {
      c := GetCpuInfo;
    } else if code == GET_ANDROID_VERSION {
      c := GetAndroidVersion;
    } else if code == GET_SYSTEM_VERSION {
      c := GetSystemVersion;
    } else if code == GET_SERIAL_NUMBER {
      c := GetSerialNumber;
    } else if code == GET_PRODUCT_TYPE {
      c := GetProductType;
    } else if code == GET_HARDWARE_VERSION {
      c := GetHardwareVersion;
    } else if code == GET_PRODUCT_ID {
      c := GetProductId;
    } else if code == GET_PRODUCT_NAME {
      c := GetProductName;
    } else if code == GET_BASEBOARD_INFO {
      c := GetBaseboardInfo;
    } else if code == GET_MEMORY_INFO {
      c := GetMemoryInfo;
    } else if code == GET_STORAGE_INFO {
      c := GetStorageInfo;
    } else if code == GET_POWER_STATE {
      c := GetPowerState;
    } else if code == REBOOT {
      c := Reboot;
    } else if code == SHUTDOWN {
      c := Shutdown;
    } else if code == GET_CURRENT_RESOLUTION_BLOCK {
      c := GetCurrentResolution;
    } else if code == GET_SUPPORT_RESOLUTION {
      c := GetSupportResolution;
    } else if code == GET_NETCARD_STATE {
      c := GetNetcardState;
    } else if code == GET_NETCARD_CUR_SPEED {
      c := GetNetcardCurSpeed;
    } else if code == GET_NETCARD_MAX_SPEED {
      c := GetNetcardMaxSpeed;
    } else if code == START_AVAHI {
      c := StartAvahi;
    } else if code == STOP_AVAHI {
      c := StopAvahi;
    } else {
      c := GetOtaResult;
    }
  }

  method ReadOne(code: int, data: Parcel) returns (c: Call)
    requires TakesOne(code)
    modifies data`pos
    ensures CodeOf(c) == code && |ArgItems(c)| == 1
    ensures ArgItems(c)[0] == ReadAs(data.tape, old(data.pos), ArgItems(c)[0])
    ensures data.pos == Advance(data.tape, old(data.pos))
  {
    if code == SET_POWER_STATE {
      var powerState := data.ReadInt32();
      c := SetPowerState(powerState);
    } else if code == GET_LED_STATUS {
      var color := data.ReadInt32();
      c := GetLedStatus(color);
    } else if code == COLLECT_LOG_FILES_BLOCK {
      var zipFilename := data.ReadString16();
      c := CollectLogFiles(zipFilename);
    } else if code == RM_FILE {
      var path := data.ReadString16();
      c := RmFile(path);
    } else if code == GET_PROPERTY_VALUE {
      var key := data.ReadString16();
      c := GetPropertyValue(key);
    } else if code == CHECK_IP_CONFLICT_BLOCK {
      var ip := data.ReadString16();
      c := CheckIpConflict(ip);
    } else if code == IS_PROCESS_RUNNING {
      var processName := data.ReadString16();
      c := IsProcessRunning(processName);
    } else if code == GET_PROCESS_ID {
      var processName := data.ReadString16();
      c := GetProcessId(processName);
    } else {
      var processName := data.ReadString16();
      c := KillByProcessName(processName);
    }
  }

  lemma ReadOneByOne(code: int, tape: seq<Item>, p: nat, c: Call, pos: nat)
    requires CodeOf(c) == code && pos == Cursor(tape, p, |ArgItems(c)|)
    requires var a := ArgItems(c);
             && |a| <= 4
             && (|a| > 0 ==> a[0] == ReadAs(tape, p, a[0]))
             && (|a| > 1 ==> a[1] == ReadAs(tape, p + 1, a[1]))
             && (|a| > 2 ==> a[2] == ReadAs(tape, p + 2, a[2]))
             && (|a| > 3 ==> a[3] == ReadAs(tape, p + 3, a[3]))
    ensures StubReads(code, tape, p, c, pos)
  {}

  method ReadTwo(code: int, data: Parcel) returns (c: Call)
    requires TakesTwo(code)
    modifies data`pos
    ensures StubReads(code, data.tape, old(data.pos), c, data.pos)
  {
    if code == CHMOD_FILE {
      var path := data.ReadString16();
      var mode := data.ReadString16();
      c := ChmodFile(path, mode);
      ReadOneByOne(code, data.tape, old(data.pos), c, data.pos);
    } else if code == CHMOD_DIR {
      var path := data.ReadString16();
      var mode := data.ReadString16();
      c := ChmodDir(path, mode);
      ReadOneByOne(code, data.tape, old(data.pos), c, data.pos);
    } else {
      var color := data.ReadInt32();
      var state := data.ReadInt32();
      c := SetLedStatus(color, state);
      ReadOneByOne(code, data.tape, old(data.pos), c, data.pos);
    }
  }

  method ReadThree(code: int, data: Parcel) returns (c: Call)
    requires code == CHECK_BANDWIDTH_BLOCK
    modifies data`pos
    ensures StubReads(code, data.tape, old(data.pos), c, data.pos)
  {
    var serverIp := data.ReadString16();
    var user := data.ReadString16();
    var userCode := data.ReadString16();
    c := CheckBandwidth(serverIp, user, userCode);
    ReadOneByOne(code, data.tape, old(data.pos), c, data.pos);
  }

  method ReadFour(code: int, data: Parcel) returns (c: Call)
    requires TakesFour(code)
    modifies data`pos
    ensures StubReads(code, data.tape, old(data.pos), c, data.pos)
  {
    if code == SET_DEVICE_RESOLUTION {
      var xres := data.ReadInt32();
      var yres := data.ReadInt32();
      var refresh := data.ReadInt32();
      var flag := data.ReadInt32();
      c := SetDeviceResolution(xres, yres, refresh, flag);
      ReadOneByOne(code, data.tape, old(data.pos), c, data.pos);
    } else {
      var ip := data.ReadString16();
      var count := data.ReadInt32();
      var timeout := data.ReadInt32();
      var deadline := data.ReadInt32();
      c := Ping(ip, count, timeout, deadline);
      ReadOneByOne(code, data.tape, old(data.pos), c, data.pos);
    }
  }

  /** The kinds of the arguments that belong to a code. */
  function ArgKinds(code: int): seq<Kind> {
    if code == SET_POWER_STATE || code == GET_LED_STATUS then [NumberKind]
    else if TakesOne(code) then [TextKind]
    else if code == CHMOD_FILE || code == CHMOD_DIR then [TextKind, TextKind]
    else if code == SET_LED_STATUS then [NumberKind, NumberKind]
    else if code == SET_DEVICE_RESOLUTION then [NumberKind, NumberKind, NumberKind, NumberKind]
    else if code == PING_BLOCK then [TextKind, NumberKind, NumberKind, NumberKind]
    else if code == CHECK_BANDWIDTH_BLOCK then [TextKind, TextKind, TextKind]
    else []
  }

  predicate KindsFit(items: seq<Item>, kinds: seq<Kind>) {
    && |items| == |kinds| <= 4
    && forall i :: 0 <= i < |items| ==>
         (kinds[i].TextKind? && items[i].S16?) || (kinds[i].NumberKind? && items[i].I32?)
  }

  lemma ProductKinds(c: Call)
    requires CodeOf(c) <= GET_PROPERTY_VALUE
    ensures KindsFit(ArgItems(c), ArgKinds(CodeOf(c)))
  {}

  lemma OtherKinds(c: Call)
    requires CodeOf(c) > GET_PROPERTY_VALUE
    ensures KindsFit(ArgItems(c), ArgKinds(CodeOf(c)))
  {}

  lemma CodeFixesKinds(c: Call)
    ensures KindsFit(ArgItems(c), ArgKinds(CodeOf(c)))
  {
    if CodeOf(c) <= GET_PROPERTY_VALUE { ProductKinds(c); } else { OtherKinds(c); }
  }

  lemma InfoInjective(c: Call, d: Call)
    requires CodeOf(c) == CodeOf(d) <= GET_HARDWARE_VERSION
    ensures c == d
  {}

  lemma BoardInjective(c: Call, d: Call)
    requires GET_HARDWARE_VERSION < CodeOf(c) == CodeOf(d) <= GET_STORAGE_INFO
    ensures c == d
  {}

  lemma ProductInjective(c: Call, d: Call)
    requires GET_STORAGE_INFO < CodeOf(c) == CodeOf(d) <= RM_FILE && ArgItems(c) == ArgItems(d)
    ensures c == d
  {
    var a, b := ArgItems(c), ArgItems(d);
    assert forall i :: 0 <= i < |a| ==> a[i] == b[i];
  }

  lemma DeviceInjective(c: Call, d: Call)
    requires RM_FILE < CodeOf(c) == CodeOf(d) <= GET_PROPERTY_VALUE && ArgItems(c) == ArgItems(d)
    ensures c == d
  {
    var a, b := ArgItems(c), ArgItems(d);
    assert forall i :: 0 <= i < |a| ==> a[i] == b[i];
  }

  lemma OtherInjective(c: Call, d: Call)
    requires CodeOf(c) == CodeOf(d) > GET_PROPERTY_VALUE && ArgItems(c) == ArgItems(d)
    ensures c == d
  {
    var a, b := ArgItems(c), ArgItems(d);
    assert forall i :: 0 <= i < |a| ==> a[i] == b[i];
  }

  /** The code and the items written determine the call. */
  lemma MarshallingIsInjective(c: Call, d: Call)
    requires CodeOf(c) == CodeOf(d) && ArgItems(c) == ArgItems(d)
    ensures c == d
  {
    if CodeOf(c) <= GET_HARDWARE_VERSION {
      InfoInjective(c, d);
    } else if CodeOf(c) <= GET_STORAGE_INFO {
      BoardInjective(c, d);
    } else if CodeOf(c) <= RM_FILE {
      ProductInjective(c, d);
    } else if CodeOf(c) <= GET_PROPERTY_VALUE {
      DeviceInjective(c, d);
    } else {
      OtherInjective(c, d);
    }
  }

  lemma CarriedItem(tape: seq<Item>, p: nat, c: Call, i: nat)
    requires Carries(tape, p, c) && i < |ArgItems(c)|
    ensures |tape| == p + |ArgItems(c)| && ReadAs(tape, p + i, ArgItems(c)[i]) == ArgItems(c)[i]
  {
    assert tape[p..][i] == tape[p + i];
  }

  /** Reading from left to right undoes the marshalling. */
  lemma ReadingUndoesMarshalling(sent: Call, tape: seq<Item>, p: nat, c: Call, pos: nat)
    requires StubReads(CodeOf(sent), tape, p, c, pos) && Carries(tape, p, sent)
    ensures c == sent && pos == |tape|
  {
    CodeFixesKinds(c);
    CodeFixesKinds(sent);
    var a, b, r := ArgItems(c), ArgItems(sent), LeftToRight(|ArgItems(c)|);
    forall i | 0 <= i < |a| ensures a[i] == b[i] {
      assert r[i] == i;
      CarriedItem(tape, p, sent, i);
    }
    MarshallingIsInjective(c, sent);
    assert |tape| == p + |tape[p..]|;
  }

  /** The call a stub case makes: its code, and one argument for each read.  On a tape
      that a proxy wrote, this is the call that was sent, and nothing is left unread. */
  method ReadCall(code: int, data: Parcel) returns (c: Call)
    requires KnownCode(code)
    modifies data`pos
    ensures StubReads(code, data.tape, old(data.pos), c, data.pos)
    ensures forall sent :: CodeOf(sent) == code && Carries(data.tape, old(data.pos), sent) ==>
              c == sent && data.pos == |data.tape|
  {
    if TakesFour(code) {
      c := ReadFour(code, data);
    } else if code == CHECK_BANDWIDTH_BLOCK {
      c := ReadThree(code, data);
    } else if TakesTwo(code) {
      c := ReadTwo(code, data);
    } else if TakesOne(code) {
      c := ReadOne(code, data);
      ReadOneByOne(code, data.tape, old(data.pos), c, data.pos);
    } else {
      c := ReadNone(code);
      ReadOneByOne(code, data.tape, old(data.pos), c, data.pos);
    }
    forall sent | CodeOf(sent) == code && Carries(data.tape, old(data.pos), sent)
      ensures c == sent && data.pos == |data.tape|
    {
      ReadingUndoesMarshalling(sent, data.tape, old(data.pos), c, data.pos);
    }
  }

  function ReplyItems(v: Value): seq<Item> {
    [I32(0)] +
    match v
    case Text(s) => [S16(s)]
    case Number(n) => [I32(n)]
    case Flag(b) => [I32(if b then 1 else 0)]
    case Void => []
  }

  method WriteReply(v: Value, reply: Parcel)
    modifies reply`tape
    ensures reply.tape == old(reply.tape) + ReplyItems(v)
  {
    reply.WriteNoException();
    match v
    case Text(s) => reply.WriteString16(s);
    case Number(n) => reply.WriteInt32(n);
    case Flag(b) => reply.WriteInt32(if b then 1 else 0);
    case Void =>
  }

  predicate TokenOk(tape: seq<Item>, p: nat) { p < |tape| && tape[p] == Token(DESCRIPTOR) }

  /** `onTransact`: an unknown code or a wrong interface token never reaches the service. */
  method OnTransact<S(!new)>(svc: Service<S>, code: int, data: Parcel, reply: Parcel) returns (status: int)
    requires data != reply
    modifies svc, data`pos, reply`tape
    ensures KnownCode(code) && TokenOk(data.tape, old(data.pos)) ==>
              && status == 0
              && |svc.served| == |old(svc.served)| + 1
              && var c := svc.served[|old(svc.served)|];
                 var (s, v) := svc.handler(old(svc.state), c);
                 && svc.served == old(svc.served) + [c]
                 && StubReads(code, data.tape, old(data.pos) + 1, c, data.pos)
                 && svc.state == s
                 && reply.tape == old(reply.tape) + ReplyItems(v)
                 && reply.tape == old(reply.tape) + [I32(0)]
                                  + (if v.Text? then [S16(v.s)] else if v.Number? then [I32(v.n)]
                                     else if v.Flag? then [I32(if v.b then 1 else 0)] else [])
                 && forall sent :: CodeOf(sent) == code && Carries(data.tape, old(data.pos) + 1, sent) ==>
                      c == sent && data.pos == |data.tape|
    ensures !(KnownCode(code) && TokenOk(data.tape, old(data.pos))) ==>
              && status == (if 1 <= code <= 37 then -1 else -74)
              && svc.state == old(svc.state) && svc.served == old(svc.served)
              && reply.tape == old(reply.tape)
  {
    if !KnownCode(code) { return UNKNOWN_TRANSACTION; }
    var ok := data.EnforceInterface(DESCRIPTOR);
    if !ok { return PERMISSION_DENIED; }
    var c := ReadCall(code, data);
    var v := svc.Serve(c);
    WriteReply(v, reply);
    return NO_ERROR;
  }

  // ----- a whole transaction -----

  /** What the proxy reads back from a reply tape, by its declared return type. */
  function ReadBack(k: Kind, tape: seq<Item>): Value {
    match k
    case TextKind => Text(StrAt(tape, 1))
    case NumberKind => Number(IntAt(tape, 1))
    case FlagKind => Flag(IntAt(tape, 1) != 0)
    case VoidKind => Void
  }

  lemma MarshalledCarries(c: Call)
    ensures TokenOk(Marshalled(c), 0) && Carries(Marshalled(c), 1, c) && KnownCode(CodeOf(c))
  {
    assert Marshalled(c)[1..] == ArgItems(c);
  }

  lemma ValueRoundTrip(v: Value)
    ensures ReadBack(KindOf(v), ReplyItems(v)) == v
    ensures ReadBack(KindOf(v), []) == ZeroValue(KindOf(v))
  {
    match v
    case Text(s) => assert ReplyItems(v)[1] == S16(s);
    case Number(n) => assert ReplyItems(v)[1] == I32(n);
    case Flag(b) => assert ReplyItems(v)[1] == I32(if b then 1 else 0);
    case Void =>
  }

  method Marshal(c: Call) returns (data: Parcel)
    ensures fresh(data) && data.tape == Marshalled(c) && data.pos == 0
  {
    data := new Parcel();
    data.WriteInterfaceToken(DESCRIPTOR);
    WriteArgs(c, data);
  }

  method ReadReply(k: Kind, reply: Parcel) returns (v: Value)
    requires reply.pos == 0
    modifies reply`pos
    ensures v == ReadBack(k, reply.tape)
  {
    var _ := reply.ReadInt32();
    match k {
      case TextKind => var s := reply.ReadString16(); v := Text(s);
      case NumberKind => var n := reply.ReadInt32(); v := Number(n);
      case FlagKind => var n := reply.ReadInt32(); v := Flag(n != 0);
      case VoidKind => v := Void;
    }
  }

  /** A proxy method.  When the transaction is delivered it is indistinguishable from
      calling the service; when it is not, the service is untouched. */
  method Invoke<S(!new)>(svc: Service<S>, c: Call, delivered: bool) returns (v: Value)
    requires WellTyped(svc.handler)
    modifies svc
    ensures delivered ==> (svc.state, v) == svc.handler(old(svc.state), c)
    ensures delivered ==> svc.served == old(svc.served) + [c]
    ensures !delivered ==>
              svc.state == old(svc.state) && svc.served == old(svc.served) && v == ZeroValue(ReturnKind(c))
    ensures !delivered ==> Declared(c, v) && v in {Text(""), Number(0), Flag(false), Void}
  {
    var data := Marshal(c);
    var reply := new Parcel();
    MarshalledCarries(c);
    if delivered {
      var _ := OnTransact(svc, CodeOf(c), data, reply);
    }
    ghost var answer := if delivered then svc.handler(old(svc.state), c).1 else ZeroValue(ReturnKind(c));
    ValueRoundTrip(answer);
    KindIsDeclared(c, answer);
    assert reply.tape == if delivered then ReplyItems(answer) else [];
    v := ReadReply(ReturnKind(c), reply);
  }

  /** The same calls made on the service object itself. */
  function DirectRun<S>(h: Handler<S>, s: S, cs: seq<Call>): (S, seq<Value>) {
    if cs == [] then (s, [])
    else
      var (s1, vs) := DirectRun(h, s, cs[..|cs| - 1]);
      var (s2, v) := h(s1, cs[|cs| - 1]);
      (s2, vs + [v])
  }

  /** A client program is a sequence of proxy calls; through Binder it performs the same
      service calls in the same order, gets the same results and leaves the same state. */
  method ClientRun<S(!new)>(svc: Service<S>, cs: seq<Call>) returns (vs: seq<Value>)
    requires WellTyped(svc.handler)
    modifies svc
    ensures (svc.state, vs) == DirectRun(svc.handler, old(svc.state), cs)
    ensures svc.served == old(svc.served) + cs
  {
    vs := [];
    for i := 0 to |cs|
      invariant (svc.state, vs) == DirectRun(svc.handler, old(svc.state), cs[..i])
      invariant svc.served == old(svc.served) + cs[..i]
    {
      var v := Invoke(svc, cs[i], true);
      vs := vs + [v];
      assert cs[..i + 1][..i] == cs[..i];
    }
    assert cs[..|cs|] == cs;
  }

  // ----- the order of the stub's argument reads -----

  /** An order of n reads: argument i is given the r[i]-th one. */
  predicate IsOrder(r: seq<nat>, n: nat) {
    && |r| == n
    && (forall i :: 0 <= i < n ==> r[i] < n)
    && forall i, j :: 0 <= i < j < n ==> r[i] != r[j]
  }

  /** The stub reads its arguments inside one argument list, whose evaluation order C++
      leaves open.  This is the call it makes, of what the proxy wrote for c, when the
      compiler picks order r; with less than two arguments there is nothing to pick. */
  function InOrder(c: Call, r: seq<nat>): Call
    requires IsOrder(r, |ArgItems(c)|)
  {
    var t := ArgItems(c);
    match c
    case ChmodFile(_, _) => ChmodFile(StrAt(t, r[0]), StrAt(t, r[1]))
    case ChmodDir(_, _) => ChmodDir(StrAt(t, r[0]), StrAt(t, r[1]))
    case SetLedStatus(_, _) => SetLedStatus(IntAt(t, r[0]), IntAt(t, r[1]))
    case SetDeviceResolution(_, _, _, _) =>
      SetDeviceResolution(IntAt(t, r[0]), IntAt(t, r[1]), IntAt(t, r[2]), IntAt(t, r[3]))
    case Ping(_, _, _, _) => Ping(StrAt(t, r[0]), IntAt(t, r[1]), IntAt(t, r[2]), IntAt(t, r[3]))
    case CheckBandwidth(_, _, _) => CheckBandwidth(StrAt(t, r[0]), StrAt(t, r[1]), StrAt(t, r[2]))
    case _ => c
  }

  /** A read for argument i of c that gets item j instead yields the right value. */
  predicate Fits(c: Call, i: nat, j: nat)
    requires i < |ArgItems(c)|
  {
    ReadAs(ArgItems(c), j, ArgItems(c)[i]) == ArgItems(c)[i]
  }

  lemma InOrderKeepsCode(c: Call, r: seq<nat>)
    requires IsOrder(r, |ArgItems(c)|)
    ensures CodeOf(InOrder(c, r)) == CodeOf(c) && (|r| <= 1 ==> InOrder(c, r) == c)
  {}

  lemma InOrderReadsTwo(c: Call, r: seq<nat>)
    requires IsOrder(r, |ArgItems(c)|) && |r| == 2
    ensures ReadFrom(InOrder(c, r), ArgItems(c), 0, r)
  {}

  lemma InOrderReadsThree(c: Call, r: seq<nat>)
    requires IsOrder(r, |ArgItems(c)|) && c.CheckBandwidth?
    ensures ReadFrom(InOrder(c, r), ArgItems(c), 0, r)
  {}

  lemma InOrderReadsFour(c: Call, r: seq<nat>)
    requires IsOrder(r, |ArgItems(c)|) && c.SetDeviceResolution?
    ensures ReadFrom(InOrder(c, r), ArgItems(c), 0, r)
  {
    var t := ArgItems(c);
    assert ArgItems(InOrder(c, r)) ==
           [I32(IntAt(t, r[0])), I32(IntAt(t, r[1])), I32(IntAt(t, r[2])), I32(IntAt(t, r[3]))];
  }

  lemma InOrderReadsPing(c: Call, r: seq<nat>)
    requires IsOrder(r, |ArgItems(c)|) && c.Ping?
    ensures ReadFrom(InOrder(c, r), ArgItems(c), 0, r)
  {
    var t := ArgItems(c);
    assert ArgItems(InOrder(c, r)) ==
           [S16(StrAt(t, r[0])), I32(IntAt(t, r[1])), I32(IntAt(t, r[2])), I32(IntAt(t, r[3]))];
  }

  /** The call made in an order has the arguments that this order reads. */
  lemma InOrderReads(c: Call, r: seq<nat>)
    requires IsOrder(r, |ArgItems(c)|)
    ensures CodeOf(InOrder(c, r)) == CodeOf(c) && ReadFrom(InOrder(c, r), ArgItems(c), 0, r)
  {
    InOrderKeepsCode(c, r);
    if |r| == 2 {
      InOrderReadsTwo(c, r);
    } else if c.CheckBandwidth? {
      InOrderReadsThree(c, r);
    } else if c.SetDeviceResolution? {
      InOrderReadsFour(c, r);
    } else if c.Ping? {
      InOrderReadsPing(c, r);
    } else {
      forall i | 0 <= i < |r| ensures ArgItems(c)[i] == ReadAs(ArgItems(c), 0 + r[i], ArgItems(c)[i]) {
        assert r[i] == i;
        FitsOwn(c, i);
      }
    }
  }

  lemma FitsOwn(c: Call, i: nat)
    requires i < |ArgItems(c)|
    ensures Fits(c, i, i)
  {}

  lemma FittingIsIntact(c: Call, r: seq<nat>)
    requires IsOrder(r, |ArgItems(c)|) && forall i :: 0 <= i < |r| ==> Fits(c, i, r[i])
    ensures InOrder(c, r) == c
  {
    var d := InOrder(c, r);
    InOrderReads(c, r);
    CodeFixesKinds(c);
    CodeFixesKinds(d);
    forall i | 0 <= i < |r| ensures ArgItems(d)[i] == ArgItems(c)[i] {
      assert Fits(c, i, r[i]);
    }
    MarshallingIsInjective(c, d);
  }

  /** For each order: the call arrives intact iff every argument fits where it is read. */
  lemma IntactIff(c: Call, r: seq<nat>)
    requires IsOrder(r, |ArgItems(c)|)
    ensures InOrder(c, r) == c <==> forall i :: 0 <= i < |r| ==> Fits(c, i, r[i])
  {
    if forall i :: 0 <= i < |r| ==> Fits(c, i, r[i]) {
      FittingIsIntact(c, r);
    } else {
      var i :| 0 <= i < |r| && !Fits(c, i, r[i]);
      InOrderReads(c, r);
    }
  }

  /** Left to right, with arguments i and j exchanged. */
  function Exchange(n: nat, i: nat, j: nat): seq<nat>
    requires i < n && j < n
  {
    LeftToRight(n)[i := j][j := i]
  }

  lemma ExchangeIsOrder(n: nat, i: nat, j: nat)
    requires i < n && j < n
    ensures IsOrder(Exchange(n, i, j), n) && Exchange(n, i, j)[i] == j
  {}

  /** In every order: every argument fits everywhere. */
  lemma EveryOrderIff(c: Call)
    ensures (forall r :: IsOrder(r, |ArgItems(c)|) ==> InOrder(c, r) == c)
            <==> (forall i, j :: 0 <= i < |ArgItems(c)| && 0 <= j < |ArgItems(c)| ==> Fits(c, i, j))
  {
    var n := |ArgItems(c)|;
    if forall r :: IsOrder(r, n) ==> InOrder(c, r) == c {
      forall i, j | 0 <= i < n && 0 <= j < n ensures Fits(c, i, j) {
        ExchangeIsOrder(n, i, j);
        IntactIff(c, Exchange(n, i, j));
      }
    }
    if forall i, j :: 0 <= i < n && 0 <= j < n ==> Fits(c, i, j) {
      forall r | IsOrder(r, n) ensures InOrder(c, r) == c {
        IntactIff(c, r);
      }
    }
  }

  /** Nothing tells the arguments apart. */
  predicate Alike(c: Call) {
    match c
    case ChmodFile(path, mode) => path == mode
    case ChmodDir(path, mode) => path == mode
    case SetLedStatus(color, state) => color == state
    case SetDeviceResolution(x, y, r, f) => x == y == r == f
    case Ping(ip, count, timeout, deadline) => ip == "" && count == timeout == deadline == 0
    case CheckBandwidth(ip, user, code) => ip == user == code
    case _ => true
  }

  lemma AlikeFits(c: Call)
    ensures Alike(c) <==> forall i, j :: 0 <= i < |ArgItems(c)| && 0 <= j < |ArgItems(c)| ==> Fits(c, i, j)
  {
    var n := |ArgItems(c)|;
    if forall i, j :: 0 <= i < n && 0 <= j < n ==> Fits(c, i, j) {
      if n > 1 { assert Fits(c, 0, 1) && Fits(c, 1, 0); }
      if n > 2 { assert Fits(c, 1, 2); }
      if n > 3 { assert Fits(c, 2, 3); }
    }
  }

  /** Whatever order the compiler picks, the call arrives intact: exactly when nothing
      tells its arguments apart. */
  lemma AnyReadOrderIff(c: Call)
    ensures (forall r :: IsOrder(r, |ArgItems(c)|) ==> InOrder(c, r) == c) <==> Alike(c)
  {
    EveryOrderIff(c);
    AlikeFits(c);
  }

  lemma AddressFirstFits(c: Call, r: seq<nat>)
    requires c.Ping? && c.count == c.timeout == c.deadline
    requires IsOrder(r, 4) && r[0] == 0
    ensures InOrder(c, r) == c
  {
    assert r[1] != 0 && r[2] != 0 && r[3] != 0;
    NumberOf(c, r[1]);
    NumberOf(c, r[2]);
    NumberOf(c, r[3]);
  }

  lemma AddressFirstEqual(c: Call)
    requires c.Ping? && forall r :: IsOrder(r, 4) && r[0] == 0 ==> InOrder(c, r) == c
    ensures c.count == c.timeout == c.deadline
  {
    assert IsOrder([0, 2, 1, 3], 4) && IsOrder([0, 1, 3, 2], 4);
    assert InOrder(c, [0, 2, 1, 3]) == c && InOrder(c, [0, 1, 3, 2]) == c;
    NumberOf(c, 1);
    NumberOf(c, 2);
    NumberOf(c, 3);
  }

  /** Of the orders that read the address of `ping_block` before its three numbers, which
      do not depend on what a read of the wrong kind yields. */
  lemma AddressFirstIff(c: Call)
    requires c.Ping?
    ensures (forall r :: IsOrder(r, 4) && r[0] == 0 ==> InOrder(c, r) == c)
            <==> c.count == c.timeout == c.deadline
  {
    if forall r :: IsOrder(r, 4) && r[0] == 0 ==> InOrder(c, r) == c {
      AddressFirstEqual(c);
    } else if c.count == c.timeout == c.deadline {
      forall r | IsOrder(r, 4) && r[0] == 0 ensures InOrder(c, r) == c {
        AddressFirstFits(c, r);
      }
    }
  }

  lemma NumberOf(c: Call, i: nat)
    requires c.Ping? && 1 <= i <= 3
    ensures IntAt(ArgItems(c), i) == if i == 1 then c.count else if i == 2 then c.timeout else c.deadline
  {}

  /** A call of the same code whose arguments can all be told apart. */
  function Distinct(c: Call): Call {
    match c
    case ChmodFile(_, _) => ChmodFile("a", "b")
    case ChmodDir(_, _) => ChmodDir("a", "b")
    case SetLedStatus(_, _) => SetLedStatus(1, 2)
    case SetDeviceResolution(_, _, _, _) => SetDeviceResolution(1, 2, 3, 4)
    case Ping(_, _, _, _) => Ping("a", 1, 2, 3)
    case CheckBandwidth(_, _, _) => CheckBandwidth("a", "b", "c")
    case _ => c
  }

  lemma DistinctFits(c: Call, i: nat, j: nat)
    requires i < |ArgItems(c)| && j < |ArgItems(c)| && |ArgItems(Distinct(c))| == |ArgItems(c)|
    requires Fits(Distinct(c), i, j)
    ensures i == j
  {}

  lemma ServesAllOnlyInOrder(c: Call, r: seq<nat>)
    requires IsOrder(r, |ArgItems(c)|)
    requires forall d :: CodeOf(d) == CodeOf(c) && IsOrder(r, |ArgItems(d)|) ==> InOrder(d, r) == d
    ensures r == LeftToRight(|r|)
  {
    var d := Distinct(c);
    DistinctKeepsCode(c);
    IntactIff(d, r);
    forall i | 0 <= i < |r| ensures r[i] == i {
      DistinctFits(c, i, r[i]);
    }
  }

  lemma DistinctKeepsCode(c: Call)
    ensures CodeOf(Distinct(c)) == CodeOf(c) && |ArgItems(Distinct(c))| == |ArgItems(c)|
  {
    CodeFixesKinds(c);
    CodeFixesKinds(Distinct(c));
  }

  lemma LeftToRightIsIntact(d: Call, r: seq<nat>)
    requires IsOrder(r, |ArgItems(d)|) && r == LeftToRight(|r|)
    ensures InOrder(d, r) == d
  {
    forall i | 0 <= i < |r| ensures Fits(d, i, r[i]) {
      assert r[i] == i;
      FitsOwn(d, i);
    }
    FittingIsIntact(d, r);
  }

  /** Left to right is the only order that serves every call of a code. */
  lemma OnlyLeftToRightServesAll(c: Call, r: seq<nat>)
    requires IsOrder(r, |ArgItems(c)|)
    ensures (forall d :: CodeOf(d) == CodeOf(c) && IsOrder(r, |ArgItems(d)|) ==> InOrder(d, r) == d)
            <==> r == LeftToRight(|r|)
  {
    if forall d :: CodeOf(d) == CodeOf(c) && IsOrder(r, |ArgItems(d)|) ==> InOrder(d, r) == d {
      ServesAllOnlyInOrder(c, r);
    }
    if r == LeftToRight(|r|) {
      forall d | CodeOf(d) == CodeOf(c) && IsOrder(r, |ArgItems(d)|) ensures InOrder(d, r) == d {
        LeftToRightIsIntact(d, r);
      }
    }
  }
}
