/** A client program against the assembled service: proxy calls through Binder, reaching
    the identity record, the power and LED gates and the vendor sector.
 */
module ClientSession {
  import Basics
  import B = RjcoreBinder
  import C = Capture
  import V = VendorSector
  import N = NandRecord
  import P = ProductId
  import R = RjcoreService

  /** The service with the device it writes and the commands it has issued. */
  datatype Core = Core(identity: N.Identity, gates: R.Gates, sector: V.Sector, issued: seq<R.Command>, clock: nat)

  /** The service after start-up. */
  function StartCore(identity: N.Identity, sector: V.Sector): Core {
    Core(identity, R.GatesOf(identity), sector, [], 0)
  }

  /** The ABI, and what the outside answers to the call served at a given time: the device
      operations, the text captured from a command, and the result of every call not
      modelled here. */
  datatype World = World(
    abi: P.Abi,
    io: nat -> V.Io,
    captured: nat -> seq<P.Octet>,
    other: (nat, B.Call) -> B.Value)

  function OfKind(k: B.Kind, v: B.Value): B.Value { if B.KindOf(v) == k then v else B.ZeroValue(k) }

  function Known(k: N.Identity, s: string): B.Value { B.Text(if k.init then s else "") }

  /** The request that a power or LED call makes of the gates. */
  function GateRequest(c: B.Call): seq<R.Request> {
    if c.SetPowerState? then [R.SetPower(c.powerState)]
    else if c.GetPowerState? then [R.GetPower]
    else if c.SetLedStatus? then [R.SetLed(c.color, c.state)]
    else if c.GetLedStatus? then [R.GetLed(c.color)]
    else []
  }

  function SectorAttempt(w: World, now: nat, c: B.Call): seq<V.Attempt> {
    if c.SetDeviceResolution? then [V.Attempt(V.Call(c.xres, c.yres, c.refresh, c.flag), w.io(now))] else []
  }

  /** What a call returns. */
  function Answer(w: World, s: Core, c: B.Call): (v: B.Value)
    ensures B.Declared(c, v)
  {
    B.KindIsDeclared(c, OfKind(B.ReturnKind(c), w.other(s.clock, c)));
    match c
    case SetDeviceResolution(x, y, r, f) =>
      var a := V.Attempt(V.Call(x, y, r, f), w.io(s.clock));
      B.Flag(V.Stores(a) && a.io.rereads)
    case GetSerialNumber => Known(s.identity, s.identity.serial)
    case GetProductType => Known(s.identity, s.identity.productType)
    case GetHardwareVersion => Known(s.identity, s.identity.hardware)
    case GetProductId => Known(s.identity, s.identity.productId)
    case GetPowerState =>
      B.Number(if s.identity.productType in R.EXCLUDED then 0 else R.FirstDigit(w.captured(s.clock), w.abi))
    case GetLedStatus(color) =>
      B.Number(if R.Commands(s.gates, R.GetLed(color)) == [] then -1
               else R.FirstDigit(w.captured(s.clock), w.abi))
    case _ => OfKind(B.ReturnKind(c), w.other(s.clock, c))
  }

  function Next(w: World, s: Core, c: B.Call): Core {
    Core(s.identity, s.gates,
         V.RunAll(s.sector, SectorAttempt(w, s.clock, c)),
         s.issued + R.AllCommands(s.gates, GateRequest(c)),
         s.clock + 1)
  }

  function Handler(w: World): B.Handler<Core> { (s, c) => (Next(w, s, c), Answer(w, s, c)) }

  /** The sector attempts and gate requests of a whole program, in order. */
  function Attempts(w: World, now: nat, cs: seq<B.Call>): seq<V.Attempt> {
    if cs == [] then []
    else Attempts(w, now, cs[..|cs| - 1]) + SectorAttempt(w, now + |cs| - 1, cs[|cs| - 1])
  }

  function Requests(cs: seq<B.Call>): seq<R.Request> {
    if cs == [] then [] else Requests(cs[..|cs| - 1]) + GateRequest(cs[|cs| - 1])
  }

  lemma {:induction false} OneMoreAttempt(s: V.Sector, run: seq<V.Attempt>, more: seq<V.Attempt>)
    requires |more| <= 1
    ensures V.RunAll(s, run + more) == V.RunAll(V.RunAll(s, run), more)
  {
    if more == [] {
      assert run + more == run;
    } else {
      assert (run + more)[..|run|] == run && more[..0] == [];
    }
  }

  lemma {:induction false} OneMoreRequest(g: R.Gates, rs: seq<R.Request>, more: seq<R.Request>)
    requires |more| <= 1
    ensures R.AllCommands(g, rs + more) == R.AllCommands(g, rs) + R.AllCommands(g, more)
  {
    if more == [] {
      assert rs + more == rs;
    } else {
      assert (rs + more)[..|rs|] == rs && more[..0] == [];
    }
  }

  /** The states of a program, without its results. */
  function StateAfter<S>(h: B.Handler<S>, s: S, cs: seq<B.Call>): S {
    if cs == [] then s else h(StateAfter(h, s, cs[..|cs| - 1]), cs[|cs| - 1]).0
  }

  function RunCore(w: World, s: Core, cs: seq<B.Call>): Core { StateAfter(Handler(w), s, cs) }

  lemma {:induction false} DirectRunState<S>(h: B.Handler<S>, s: S, cs: seq<B.Call>)
    ensures B.DirectRun(h, s, cs).0 == StateAfter(h, s, cs)
  {
    if cs == [] {
    } else {
      DirectRunState(h, s, cs[..|cs| - 1]);
    }
  }

  /** Induction over a sequence from its front to its end. */
  lemma {:induction false} OneAtATime<C(!new)>(p: seq<C> -> bool, cs: seq<C>)
    requires p([]) && forall pre, c :: p(pre) ==> p(pre + [c])
    ensures p(cs)
  {
    if cs != [] {
      var n := |cs| - 1;
      OneAtATime(p, cs[..n]);
      assert cs[..n] + [cs[n]] == cs;
    }
  }

  /** What holds at the start and is kept by every call holds after a program. */
  lemma {:induction false} HoldsAfter<S(!new)>(h: B.Handler<S>, s: S, cs: seq<B.Call>, inv: (S, seq<B.Call>) -> bool)
    requires inv(s, [])
    requires forall t, pre, c :: inv(t, pre) ==> inv(h(t, c).0, pre + [c])
    ensures inv(StateAfter(h, s, cs), cs)
  {
    if cs == [] {
    } else {
      var n := |cs| - 1;
      HoldsAfter(h, s, cs[..n], inv);
      assert cs[..n] + [cs[n]] == cs;
    }
  }

  /** Each result of a program is the handler's in the state reached by then. */
  lemma {:induction false} ResultIs<S>(h: B.Handler<S>, s: S, cs: seq<B.Call>, i: nat)
    requires i < |cs|
    ensures |B.DirectRun(h, s, cs).1| == |cs|
    ensures B.DirectRun(h, s, cs).1[i] == h(B.DirectRun(h, s, cs[..i]).0, cs[i]).1
  {
    var n := |cs| - 1;
    assert |B.DirectRun(h, s, cs[..n]).1| == n by { if n > 0 { ResultIs(h, s, cs[..n], 0); } }
    if i == n {
    } else {
      ResultIs(h, s, cs[..n], i);
      assert cs[..n][..i] == cs[..i];
    }
  }

  /** The state that a program has reached, given its attempts. */
  ghost predicate SectorReached(s: Core, t: Core, n: nat, run: seq<V.Attempt>) {
    t.identity == s.identity && t.gates == s.gates && t.clock == s.clock + n && t.sector == V.RunAll(s.sector, run)
  }

  ghost predicate IssuedReached(s: Core, t: Core, rs: seq<R.Request>) {
    t.gates == s.gates && t.issued == s.issued + R.AllCommands(s.gates, rs)
  }

  lemma {:induction false} SectorStep(s: Core, t: Core, t': Core, n: nat, run: seq<V.Attempt>, more: seq<V.Attempt>)
    requires SectorReached(s, t, n, run) && |more| <= 1
    requires t'.identity == t.identity && t'.gates == t.gates && t'.clock == t.clock + 1
    requires t'.sector == V.RunAll(t.sector, more)
    ensures SectorReached(s, t', n + 1, run + more)
  {
    OneMoreAttempt(s.sector, run, more);
  }

  lemma {:induction false} AttemptsSnoc(w: World, now: nat, cs: seq<B.Call>, c: B.Call)
    ensures Attempts(w, now, cs + [c]) == Attempts(w, now, cs) + SectorAttempt(w, now + |cs|, c)
  {
    assert (cs + [c])[..|cs|] == cs;
  }

  lemma {:induction false} SectorKept(w: World, s: Core, t: Core, cs: seq<B.Call>, c: B.Call)
    requires SectorReached(s, t, |cs|, Attempts(w, s.clock, cs))
    ensures SectorReached(s, Next(w, t, c), |cs + [c]|, Attempts(w, s.clock, cs + [c]))
  {
    SectorStep(s, t, Next(w, t, c), |cs|, Attempts(w, s.clock, cs), SectorAttempt(w, t.clock, c));
    AttemptsSnoc(w, s.clock, cs, c);
  }

  /** A program's effect on the sector is that of its resolution calls. */
  lemma {:induction false} ProgramSector(w: World, s: Core, cs: seq<B.Call>)
    ensures SectorReached(s, RunCore(w, s, cs), |cs|, Attempts(w, s.clock, cs))
  {
    var inv := (t: Core, pre: seq<B.Call>) => SectorReached(s, t, |pre|, Attempts(w, s.clock, pre));
    forall t, pre, c | inv(t, pre) ensures inv(Handler(w)(t, c).0, pre + [c]) {
      SectorKept(w, s, t, pre, c);
    }
    HoldsAfter(Handler(w), s, cs, inv);
  }

  lemma {:induction false} IssuedStep(w: World, s: Core, t: Core, cs: seq<B.Call>, c: B.Call)
    requires IssuedReached(s, t, Requests(cs))
    ensures IssuedReached(s, Next(w, t, c), Requests(cs + [c]))
  {
    OneMoreRequest(s.gates, Requests(cs), GateRequest(c));
    Basics.Assoc(s.issued, R.AllCommands(s.gates, Requests(cs)), R.AllCommands(s.gates, GateRequest(c)));
    assert (cs + [c])[..|cs|] == cs;
  }

  /** The commands it issues are those its power and LED calls get past the gates. */
  lemma {:induction false} ProgramIssued(w: World, s: Core, cs: seq<B.Call>)
    ensures IssuedReached(s, RunCore(w, s, cs), Requests(cs))
  {
    var inv := (t: Core, pre: seq<B.Call>) => IssuedReached(s, t, Requests(pre));
    forall t, pre, c | inv(t, pre) ensures inv(Handler(w)(t, c).0, pre + [c]) {
      IssuedStep(w, s, t, pre, c);
    }
    HoldsAfter(Handler(w), s, cs, inv);
  }

  lemma {:induction false} RunStaysInRange(s: V.Sector, run: seq<V.Attempt>)
    requires V.InRange(s)
    ensures V.InRange(V.RunAll(s, run))
  {
    if run == [] {
    } else {
      RunStaysInRange(s, run[..|run| - 1]);
    }
  }

  /** What the i-th call of a program returns, said of the image and the outside alone:
      the stored fields once all four reads have succeeded, whether the resolution was
      stored and read again, and the digit a power or LED command answered. */
  ghost predicate Answered(im: N.Image, w: World, i: nat, c: B.Call, v: B.Value) {
    var k := N.Identify(im, w.abi);
    match c
    case GetSerialNumber => v == B.Text(if N.IdOk(im, w.abi) then N.FieldText(im.bytes, 0, 2, w.abi) else "")
    case GetProductType => v == B.Text(if N.IdOk(im, w.abi) then N.FieldText(im.bytes, 32, 1, w.abi) else "")
    case GetHardwareVersion => v == B.Text(if N.IdOk(im, w.abi) then N.FieldText(im.bytes, 48, 1, w.abi) else "")
    case GetProductId =>
      v == B.Text(if N.IdOk(im, w.abi) then P.IdString(P.FourBytes(im.bytes[58..62]), w.abi) else "")
    case SetDeviceResolution(x, y, r, f) =>
      var io := w.io(i);
      v == B.Flag(0 <= f <= 1 && 800 <= x <= 2560 && 600 <= y <= 1600 && 0 <= r <= 100
                  && io.opens && io.gets && io.stores && io.rereads)
    case GetPowerState =>
      v == B.Number(if k.productType in R.EXCLUDED then 0 else R.FirstDigit(w.captured(i), w.abi))
    case GetLedStatus(color) =>
      v == B.Number(if 0 <= color <= 2 && k.productType == "Rain200S" then R.FirstDigit(w.captured(i), w.abi) else -1)
    case _ =>
      && v == OfKind(B.ReturnKind(c), w.other(i, c))
      && B.Declared(c, v)
      && (B.Declared(c, w.other(i, c)) ==> v == w.other(i, c))
  }

  lemma AnswerIs(im: N.Image, w: World, s: Core, c: B.Call)
    requires s.identity == N.Identify(im, w.abi) && s.gates == R.GatesOf(s.identity)
    ensures Answered(im, w, s.clock, c, Answer(w, s, c))
  {
    var other := w.other(s.clock, c);
    B.KindIsDeclared(c, other);
    B.KindIsDeclared(c, OfKind(B.ReturnKind(c), other));
  }

  /** The call is one that the product type admits, and k is its command. */
  predicate Commanded(productType: string, c: B.Call, k: R.Command) {
    match c
    case SetPowerState(state) =>
      0 <= state <= 1 && productType !in ["Rain100", "Rain100s", "Rain100S", ""] && k == R.BeginMode(state)
    case GetPowerState => productType !in ["Rain100", "Rain100s", "Rain100S", ""] && k == R.BeginMode(2)
    case SetLedStatus(color, state) =>
      0 <= color <= 2 && 0 <= state <= 1 && productType == "Rain200S" && k == R.SetLedCtrl(color, state)
    case GetLedStatus(color) => 0 <= color <= 2 && productType == "Rain200S" && k == R.GetLedCtrl(color)
    case _ => false
  }

  function CommandedBy(productType: string): (B.Call, R.Command) -> bool { (c, k) => Commanded(productType, c, k) }

  /** The commands issued are those of the admitted calls, one for each and in order:
      the i-th one belongs to call at[i]. */
  ghost predicate IssuedFor<C(!new), K(!new)>(admits: (C, K) -> bool, cs: seq<C>, issued: seq<K>, at: seq<nat>) {
    && |at| == |issued|
    && (forall i :: 0 <= i < |at| ==> at[i] < |cs| && admits(cs[at[i]], issued[i]))
    && (forall i, j :: 0 <= i < j < |at| ==> at[i] < at[j])
    && (forall j, k :: 0 <= j < |cs| && admits(cs[j], k) ==> j in at)
  }

  lemma NothingIssued<C(!new), K(!new)>(admits: (C, K) -> bool, cs: seq<C>, c: C, issued: seq<K>, at: seq<nat>)
    requires IssuedFor(admits, cs, issued, at) && forall k :: !admits(c, k)
    ensures IssuedFor(admits, cs + [c], issued, at)
  {}

  lemma OneIssued<C(!new), K(!new)>(admits: (C, K) -> bool, cs: seq<C>, c: C, issued: seq<K>, k: K, at: seq<nat>)
    requires IssuedFor(admits, cs, issued, at) && admits(c, k)
    ensures IssuedFor(admits, cs + [c], issued + [k], at + [|cs|])
  {
    var all, at' := cs + [c], at + [|cs|];
    forall j, l | 0 <= j < |all| && admits(all[j], l) ensures j in at' {
      assert j == |cs| || j in at;
      assert at'[|at|] == |cs|;
    }
  }

  /** Past these gates a call issues the one command it is admitted for, or none. */
  ghost predicate GatesAdmit(g: R.Gates, admits: (B.Call, R.Command) -> bool) {
    forall c :: var ks := R.AllCommands(g, GateRequest(c));
                && |ks| <= 1
                && (|ks| == 1 ==> admits(c, ks[0]))
                && (|ks| == 0 ==> forall k :: !admits(c, k))
  }

  lemma {:induction false} RequestIsCommanded(g: R.Gates, id: N.Identity, c: B.Call)
    requires g == R.GatesOf(id)
    ensures var ks := R.AllCommands(g, GateRequest(c));
            && |ks| <= 1
            && (|ks| == 1 ==> Commanded(id.productType, c, ks[0]))
            && (|ks| == 0 ==> forall k :: !Commanded(id.productType, c, k))
  {
    if GateRequest(c) != [] { R.OneRequest(g, GateRequest(c)[0]); }
  }

  lemma {:induction false} GatesAdmitCommanded(id: N.Identity)
    ensures GatesAdmit(R.GatesOf(id), CommandedBy(id.productType))
  {
    var g, admits := R.GatesOf(id), CommandedBy(id.productType);
    forall c
      ensures var ks := R.AllCommands(g, GateRequest(c));
              && |ks| <= 1
              && (|ks| == 1 ==> admits(c, ks[0]))
              && (|ks| == 0 ==> forall k :: !admits(c, k))
    {
      RequestIsCommanded(g, id, c);
    }
  }

  lemma {:induction false} ProgramIssuesMore(
      g: R.Gates, admits: (B.Call, R.Command) -> bool, cs: seq<B.Call>, c: B.Call, at: seq<nat>)
    returns (at': seq<nat>)
    requires GatesAdmit(g, admits) && IssuedFor(admits, cs, R.AllCommands(g, Requests(cs)), at)
    ensures IssuedFor(admits, cs + [c], R.AllCommands(g, Requests(cs + [c])), at')
  {
    var ks := R.AllCommands(g, GateRequest(c));
    at' := CallIssues(admits, cs, c, R.AllCommands(g, Requests(cs)), ks, at);
    OneMoreRequest(g, Requests(cs), GateRequest(c));
    assert (cs + [c])[..|cs|] == cs;
  }

  lemma CallIssues<C(!new), K(!new)>(
      admits: (C, K) -> bool, cs: seq<C>, c: C, issued: seq<K>, ks: seq<K>, at: seq<nat>)
    returns (at': seq<nat>)
    requires IssuedFor(admits, cs, issued, at)
    requires |ks| <= 1 && (|ks| == 1 ==> admits(c, ks[0])) && (|ks| == 0 ==> forall k :: !admits(c, k))
    ensures IssuedFor(admits, cs + [c], issued + ks, at')
  {
    if ks == [] {
      at' := at;
      NothingIssued(admits, cs, c, issued, at);
      assert issued + ks == issued;
    } else {
      at' := at + [|cs|];
      OneIssued(admits, cs, c, issued, ks[0], at);
      assert ks == [ks[0]];
    }
  }

  lemma {:induction false} ProgramIssuedFor(g: R.Gates, admits: (B.Call, R.Command) -> bool, cs: seq<B.Call>)
    requires GatesAdmit(g, admits)
    ensures exists at :: IssuedFor(admits, cs, R.AllCommands(g, Requests(cs)), at)
  {
    var issuedFor := (pre: seq<B.Call>) => exists at :: IssuedFor(admits, pre, R.AllCommands(g, Requests(pre)), at);
    assert issuedFor([]) by { assert IssuedFor(admits, [], R.AllCommands(g, Requests([])), []); }
    forall pre, c | issuedFor(pre) ensures issuedFor(pre + [c]) {
      var at :| IssuedFor(admits, pre, R.AllCommands(g, Requests(pre)), at);
      var _ := ProgramIssuesMore(g, admits, pre, c, at);
    }
    OneAtATime(issuedFor, cs);
  }

  /** Any client program, through Binder, on any identity image and any sector: every
      result is that of the image and the outside; the sector implements the abstract
      record, keeps its other bytes and stays in range; and every command issued passed
      its gate. */
  method Session(im: N.Image, sector: V.Sector, w: World, cs: seq<B.Call>)
    returns (vs: seq<B.Value>, sector': V.Sector, issued: seq<R.Command>)
    ensures |vs| == |cs| && forall i :: 0 <= i < |cs| ==> Answered(im, w, i, cs[i], vs[i])
    ensures V.RecordOf(sector') == V.RecordRun(V.RecordOf(sector), Attempts(w, 0, cs))
    ensures V.SameOutside(sector, sector')
    ensures V.InRange(sector) ==> V.InRange(sector')
    ensures forall i :: 0 <= i < |issued| ==> PassedGate(N.Identify(im, w.abi).productType, issued[i])
    ensures exists at :: IssuedFor(CommandedBy(N.Identify(im, w.abi).productType), cs, issued, at)
  {
    var start := StartCore(N.Identify(im, w.abi), sector);
    var svc := new B.Service(Handler(w), start);
    vs := B.ClientRun(svc, cs);
    sector', issued := svc.state.sector, svc.state.issued;
    DirectRunState(Handler(w), start, cs);
    SessionResults(im, w, start, cs);
    SessionSector(w, start, cs);
    SessionCommands(im, w, start, cs);
  }

  predicate PassedGate(productType: string, c: R.Command) {
    match c
    case SetLedCtrl(color, state) => 0 <= color <= 2 && 0 <= state <= 1 && productType == "Rain200S"
    case GetLedCtrl(color) => 0 <= color <= 2 && productType == "Rain200S"
    case BeginMode(mode) => 0 <= mode <= 2 && productType !in R.EXCLUDED
  }

  lemma {:induction false} ResultIsAnswered(im: N.Image, w: World, start: Core, cs: seq<B.Call>, i: nat)
    requires start.identity == N.Identify(im, w.abi) && start.gates == R.GatesOf(start.identity)
    requires start.clock == 0 && i < |cs|
    ensures |B.DirectRun(Handler(w), start, cs).1| == |cs|
    ensures Answered(im, w, i, cs[i], B.DirectRun(Handler(w), start, cs).1[i])
  {
    ResultIsAnswer(w, start, cs, i);
    ProgramSector(w, start, cs[..i]);
    AnswerIs(im, w, RunCore(w, start, cs[..i]), cs[i]);
  }

  lemma {:induction false} ResultIsAnswer(w: World, start: Core, cs: seq<B.Call>, i: nat)
    requires i < |cs|
    ensures |B.DirectRun(Handler(w), start, cs).1| == |cs|
    ensures B.DirectRun(Handler(w), start, cs).1[i] == Answer(w, RunCore(w, start, cs[..i]), cs[i])
  {
    ResultIs(Handler(w), start, cs, i);
    DirectRunState(Handler(w), start, cs[..i]);
  }

  /** The same of the calls made one after another on the service itself: the results. */
  lemma {:induction false} SessionResults(im: N.Image, w: World, start: Core, cs: seq<B.Call>)
    requires start.identity == N.Identify(im, w.abi) && start.gates == R.GatesOf(start.identity) && start.clock == 0
    ensures var vs := B.DirectRun(Handler(w), start, cs).1;
            |vs| == |cs| && forall i :: 0 <= i < |cs| ==> Answered(im, w, i, cs[i], vs[i])
  {
    var vs := B.DirectRun(Handler(w), start, cs).1;
    if cs != [] { ResultIs(Handler(w), start, cs, 0); }
    forall i | 0 <= i < |cs| ensures Answered(im, w, i, cs[i], vs[i]) {
      ResultIsAnswered(im, w, start, cs, i);
    }
  }

  /** The sector. */
  lemma {:induction false} SessionSector(w: World, start: Core, cs: seq<B.Call>)
    requires start.clock == 0
    ensures var s := RunCore(w, start, cs).sector;
            && V.RecordOf(s) == V.RecordRun(V.RecordOf(start.sector), Attempts(w, 0, cs))
            && V.SameOutside(start.sector, s)
            && (V.InRange(start.sector) ==> V.InRange(s))
  {
    ProgramSector(w, start, cs);
    V.SequentialRefinement(start.sector, Attempts(w, 0, cs));
    if V.InRange(start.sector) { RunStaysInRange(start.sector, Attempts(w, 0, cs)); }
  }

  /** The commands. */
  lemma {:induction false} SessionCommands(im: N.Image, w: World, start: Core, cs: seq<B.Call>)
    requires start.identity == N.Identify(im, w.abi) && start.gates == R.GatesOf(start.identity) && start.issued == []
    ensures var issued := RunCore(w, start, cs).issued;
            && (forall i :: 0 <= i < |issued| ==> PassedGate(start.identity.productType, issued[i]))
            && exists at :: IssuedFor(CommandedBy(start.identity.productType), cs, issued, at)
  {
    ProgramIssued(w, start, cs);
    GatesAdmitCommanded(start.identity);
    ProgramIssuedFor(start.gates, CommandedBy(start.identity.productType), cs);
    var rs := Requests(cs);
    assert RunCore(w, start, cs).issued == R.AllCommands(start.gates, rs);
    forall i | 0 <= i < |R.AllCommands(start.gates, rs)|
      ensures PassedGate(start.identity.productType, R.AllCommands(start.gates, rs)[i]) {
      IssuedPassed(im, w.abi, rs, i);
    }
  }

  lemma {:induction false} IssuedPassed(im: N.Image, abi: P.Abi, rs: seq<R.Request>, i: nat)
    requires i < |R.AllCommands(R.GatesOf(N.Identify(im, abi)), rs)|
    ensures PassedGate(N.Identify(im, abi).productType, R.AllCommands(R.GatesOf(N.Identify(im, abi)), rs)[i])
  {
    R.GatesHold(im, abi, rs, i);
  }

  /** A client gets back the fields stored in the image: the product type and the hardware
      version always, the serial number and the id under the conditions of the parser. */
  method StoredIdentityReachesClient(
      image: seq<P.Octet>, ghost serial: seq<P.Octet>, ghost spare: P.Octet, ghost ptype: seq<P.Octet>,
      ghost hardware: seq<P.Octet>, ghost id: seq<P.Octet>, sector: V.Sector, w: World)
    returns (vs: seq<B.Value>)
    requires N.LaidOut(image, serial, spare, ptype, hardware, id)
    requires C.Clean(serial) && C.Clean(ptype) && C.Clean(hardware)
    ensures |vs| == 4 && vs[1] == B.Text(ptype) && vs[2] == B.Text(hardware)
    ensures vs[0] == B.Text(serial) <==> |serial| != 1 || spare == C.NUL
    ensures vs[3] == B.Text(P.EightDigits(P.FourBytes(id))) <==> P.JoinsRight(P.FourBytes(id), w.abi)
  {
    N.ParsingUndoesLayout(image, serial, spare, ptype, hardware, id, w.abi);
    var program := [B.GetSerialNumber, B.GetProductType, B.GetHardwareVersion, B.GetProductId];
    ghost var im := N.Image(image, true);
    var answers, _, _ := Session(N.Image(image, true), sector, w, program);
    vs := answers;
    assert Answered(im, w, 0, program[0], vs[0]) && Answered(im, w, 1, program[1], vs[1]);
    assert Answered(im, w, 2, program[2], vs[2]) && Answered(im, w, 3, program[3], vs[3]);
  }

  // ----- the objects themselves -----

  ghost function CoreOf(svc: R.Service, dev: V.VendorDevice, now: nat): Core
    reads svc, dev
  {
    Core(svc.Known(), R.GatesOf(svc.Known()), dev.sector, svc.issued, now)
  }

  lemma {:induction false} OneAttempt(s: V.Sector, a: V.Attempt)
    ensures V.RunAll(s, [a]) == V.After(s, a)
  {
    assert [a][..0] == [];
  }

  /** What a call of each kind leaves. */
  lemma NextOfResolution(w: World, s: Core, c: B.Call)
    requires c.SetDeviceResolution?
    ensures var a := V.Attempt(V.Call(c.xres, c.yres, c.refresh, c.flag), w.io(s.clock));
            Next(w, s, c) == s.(sector := V.After(s.sector, a), clock := s.clock + 1)
  {
    OneAttempt(s.sector, V.Attempt(V.Call(c.xres, c.yres, c.refresh, c.flag), w.io(s.clock)));
  }

  lemma NextOfGated(w: World, s: Core, c: B.Call)
    requires GateRequest(c) != []
    ensures Next(w, s, c) == s.(issued := s.issued + R.Commands(s.gates, GateRequest(c)[0]), clock := s.clock + 1)
  {
    R.OneRequest(s.gates, GateRequest(c)[0]);
  }

  lemma NextOfGetter(w: World, s: Core, c: B.Call)
    requires GateRequest(c) == [] && !c.SetDeviceResolution?
    ensures Next(w, s, c) == s.(clock := s.clock + 1)
  {}

  method ServeGetter(svc: R.Service, w: World, now: nat, ghost sector: V.Sector, c: B.Call) returns (v: B.Value)
    requires svc.Valid() && svc.abi == w.abi && GateRequest(c) == [] && !c.SetDeviceResolution?
    ensures v == Answer(w, Core(svc.Known(), R.GatesOf(svc.Known()), sector, svc.issued, now), c)
  {
    match c
    case GetSerialNumber => var s := svc.GetSerialNumber(); v := B.Text(s);
    case GetProductType => var s := svc.GetProductType(); v := B.Text(s);
    case GetHardwareVersion => var s := svc.GetHardwareVersion(); v := B.Text(s);
    case GetProductId => var s := svc.GetProductId(); v := B.Text(s);
    case _ => v := OfKind(B.ReturnKind(c), w.other(now, c));
  }

  method ServeGated(svc: R.Service, w: World, now: nat, ghost sector: V.Sector, c: B.Call) returns (v: B.Value)
    requires svc.Valid() && svc.abi == w.abi && GateRequest(c) != []
    modifies svc`issued
    ensures svc.Valid()
    ensures svc.issued == old(svc.issued) + R.Commands(R.GatesOf(svc.Known()), GateRequest(c)[0])
    ensures v == Answer(w, Core(svc.Known(), R.GatesOf(svc.Known()), sector, old(svc.issued), now), c)
  {
    if c.SetPowerState? {
      svc.SetPowerState(c.powerState);
      v := B.Void;
    } else if c.GetPowerState? {
      var n := svc.GetPowerState(w.captured(now));
      v := B.Number(n);
    } else if c.SetLedStatus? {
      svc.SetLedStatus(c.color, c.state);
      v := B.Void;
    } else {
      var n := svc.GetLedStatus(c.color, w.captured(now));
      v := B.Number(n);
    }
  }

  method ServeResolution(dev: V.VendorDevice, w: World, now: nat, c: B.Call) returns (v: B.Value)
    requires c.SetDeviceResolution?
    modifies dev
    ensures var a := V.Attempt(V.Call(c.xres, c.yres, c.refresh, c.flag), w.io(now));
            v == B.Flag(V.Stores(a) && a.io.rereads) && dev.sector == V.After(old(dev.sector), a)
  {
    var ok := dev.SetDeviceResolution(V.Call(c.xres, c.yres, c.refresh, c.flag), w.io(now));
    v := B.Flag(ok);
  }

  /** One call dispatched to the methods of the service and the device does what Answer
      and Next say of it. */
  method ServeOn(svc: R.Service, dev: V.VendorDevice, w: World, now: nat, c: B.Call) returns (v: B.Value)
    requires svc.Valid() && svc.abi == w.abi
    modifies svc`issued, dev
    ensures svc.Valid()
    ensures v == Answer(w, old(CoreOf(svc, dev, now)), c)
    ensures CoreOf(svc, dev, now + 1) == Next(w, old(CoreOf(svc, dev, now)), c)
  {
    ghost var s := CoreOf(svc, dev, now);
    if c.SetDeviceResolution? {
      NextOfResolution(w, s, c);
      v := ServeResolution(dev, w, now, c);
    } else if GateRequest(c) == [] {
      NextOfGetter(w, s, c);
      v := ServeGetter(svc, w, now, dev.sector, c);
    } else {
      NextOfGated(w, s, c);
      v := ServeGated(svc, w, now, dev.sector, c);
    }
  }

  lemma {:induction false} OneMoreCall(w: World, start: Core, cs: seq<B.Call>, i: nat)
    requires i < |cs|
    ensures var (s, vs) := B.DirectRun(Handler(w), start, cs[..i]);
            B.DirectRun(Handler(w), start, cs[..i + 1]) == (Next(w, s, cs[i]), vs + [Answer(w, s, cs[i])])
  {
    assert cs[..i + 1][..i] == cs[..i];
  }

  /** A program run on the objects, from start-up, has the results, the sector and the
      commands of the session above. */
  method ServeProgram(file: N.NandFile?, dev: V.VendorDevice, w: World, cs: seq<B.Call>)
    returns (vs: seq<B.Value>, issued: seq<R.Command>)
    modifies dev
    modifies if file == null then {} else {file}
    ensures var im := if file == null then N.Missing else N.Image(file.image, file.seekable);
            var (s, results) := B.DirectRun(Handler(w), StartCore(N.Identify(im, w.abi), old(dev.sector)), cs);
            vs == results && dev.sector == s.sector && issued == s.issued
  {
    ghost var im := if file == null then N.Missing else N.Image(file.image, file.seekable);
    ghost var start := StartCore(N.Identify(im, w.abi), dev.sector);
    var svc := new R.Service(file, w.abi);
    vs := [];
    for i := 0 to |cs|
      invariant svc.Valid() && svc.abi == w.abi
      invariant (CoreOf(svc, dev, i), vs) == B.DirectRun(Handler(w), start, cs[..i])
    {
      OneMoreCall(w, start, cs, i);
      var v := ServeOn(svc, dev, w, i, cs[i]);
      vs := vs + [v];
    }
    assert cs[..|cs|] == cs;
    issued := svc.issued;
  }
}
