/** `setDeviceResolution` on the Binder thread pool: any number of threads, each at its
    own point between the two GETs, with no lock around the read-modify-write.
 */
module SectorThreads {
  import opened Basics
  import opened VendorSector
  import Runs

  /** A STORE that took effect: whose, for which call, and how many STOREs its GET had
      seen. */
  datatype Write = Write(tid: nat, call: Call, basis: nat)

  datatype Thread =
    | Called(call: Call)
    | Opened(call: Call)
    | Loaded(call: Call, data: Sector, basis: nat)
    | Edited(call: Call, data: Sector, basis: nat)
    | Written(call: Call, at: nat)
    | Returned(call: Call, ok: bool, at: nat)

  /** `log` and `versions` record the run: the STOREs in order, and every value the
      sector has held. */
  datatype State = State(
    sector: Sector,
    threads: map<nat, Thread>,
    log: seq<Write>,
    versions: seq<Sector>)

  datatype Action =
    | Invoke(call: Call)
    | Open(ok: bool)
    | Get(ok: bool)
    | EditData
    | Store(ok: bool)
    | Reread(ok: bool)

  datatype Event = Event(tid: nat, action: Action)

  function Start(init: Sector): State { State(init, map[], [], [init]) }

  function Put(s: State, t: nat, th: Thread): State { s.(threads := s.threads[t := th]) }

  /** One atomic step of one thread; None when the thread is not at that point. */
  function Fire(s: State, e: Event): Option<State> {
    var t := e.tid;
    if t !in s.threads || s.threads[t].Returned? then
      if e.action.Invoke? then Some(Put(s, t, Called(e.action.call))) else None
    else
      var th := s.threads[t];
      match (th, e.action)
      case (Called(c), Open(ok)) =>
        Some(Put(s, t, if Accepted(c) && ok then Opened(c) else Returned(c, false, 0)))
      case (Opened(c), Get(ok)) =>
        Some(Put(s, t, if ok then Loaded(c, s.sector, |s.log|) else Returned(c, false, 0)))
      case (Loaded(c, d, b), EditData) =>
        if Accepted(c) then Some(Put(s, t, Edited(c, Edit(d, c), b))) else None
      case (Edited(c, d, b), Store(ok)) =>
        if ok then
          Some(State(d, s.threads[t := Written(c, |s.log|)], s.log + [Write(t, c, b)], s.versions + [d]))
        else Some(Put(s, t, Returned(c, false, 0)))
      case (Written(c, at), Reread(ok)) => Some(Put(s, t, Returned(c, ok, at)))
      case _ => None
  }

  ghost predicate Step(s: State, s': State) { Runs.Step(Fire, s, s') }

  ghost predicate Run(init: Sector, run: seq<State>) { Runs.IsRun(Fire, Start(init), run) }

  // ----- the invariant of every interleaving -----

  /** The k-th STORE wrote the edit of the version its GET returned. */
  ghost predicate HistoryOk(init: Sector, log: seq<Write>, versions: seq<Sector>) {
    && |versions| == |log| + 1
    && versions[0] == init
    && forall k :: 0 <= k < |log| ==>
         Accepted(log[k].call) && log[k].basis <= k
         && versions[k + 1] == Edit(versions[log[k].basis], log[k].call)
  }

  ghost predicate ThreadOk(t: nat, th: Thread, log: seq<Write>, versions: seq<Sector>)
    requires |versions| == |log| + 1
  {
    match th
    case Called(c) => true
    case Opened(c) => Accepted(c)
    case Loaded(c, d, b) => Accepted(c) && b <= |log| && d == versions[b]
    case Edited(c, d, b) => Accepted(c) && b <= |log| && d == Edit(versions[b], c)
    case Written(c, at) => at < |log| && log[at].call == c && log[at].tid == t
    case Returned(c, ok, at) => ok ==> at < |log| && log[at].call == c && log[at].tid == t
  }

  ghost predicate Inv(init: Sector, s: State) {
    && HistoryOk(init, s.log, s.versions)
    && s.sector == s.versions[|s.log|]
    && forall t :: t in s.threads ==> ThreadOk(t, s.threads[t], s.log, s.versions)
  }

  /** The history after one more STORE. */
  lemma HistoryGrows(init: Sector, log: seq<Write>, versions: seq<Sector>, w: Write)
    requires HistoryOk(init, log, versions)
    requires Accepted(w.call) && w.basis <= |log|
    ensures HistoryOk(init, log + [w], versions + [Edit(versions[w.basis], w.call)])
  {}

  lemma ThreadStaysOk(t: nat, th: Thread, log: seq<Write>, versions: seq<Sector>, w: Write, v: Sector)
    requires |versions| == |log| + 1 && ThreadOk(t, th, log, versions)
    ensures ThreadOk(t, th, log + [w], versions + [v])
  {}

  lemma StoreKeepsInv(init: Sector, s: State, t: nat, s': State)
    requires Inv(init, s) && t in s.threads && s.threads[t].Edited?
    requires Fire(s, Event(t, Store(true))) == Some(s')
    ensures Inv(init, s')
  {
    var th := s.threads[t];
    var w := Write(t, th.call, th.basis);
    HistoryGrows(init, s.log, s.versions, w);
    forall u | u in s'.threads && u != t ensures ThreadOk(u, s'.threads[u], s'.log, s'.versions) {
      ThreadStaysOk(u, s.threads[u], s.log, s.versions, w, th.data);
    }
  }

  /** Any other step moves one thread and leaves the rest of the state alone. */
  lemma FireMovesOne(s: State, e: Event, s': State)
    requires Fire(s, e) == Some(s') && e.action != Store(true)
    ensures e.tid in s'.threads && s' == Put(s, e.tid, s'.threads[e.tid])
  {}

  lemma MovedThreadIsOk(init: Sector, s: State, e: Event, s': State)
    requires Inv(init, s) && Fire(s, e) == Some(s') && e.action != Store(true)
    ensures |s'.versions| == |s'.log| + 1 && e.tid in s'.threads
    ensures ThreadOk(e.tid, s'.threads[e.tid], s'.log, s'.versions)
  {
    if e.tid in s.threads { assert ThreadOk(e.tid, s.threads[e.tid], s.log, s.versions); }
  }

  lemma FireKeepsInv(init: Sector, s: State, e: Event, s': State)
    requires Inv(init, s) && Fire(s, e) == Some(s')
    ensures Inv(init, s')
    ensures s.log <= s'.log && s.versions <= s'.versions
  {
    if e.action == Store(true) {
      StoreKeepsInv(init, s, e.tid, s');
    } else {
      FireMovesOne(s, e, s');
      MovedThreadIsOk(init, s, e, s');
      forall u | u in s'.threads ensures ThreadOk(u, s'.threads[u], s'.log, s'.versions) {
        if u != e.tid { assert s'.threads[u] == s.threads[u]; }
      }
    }
  }

  lemma {:induction false} RunKeepsInv(init: Sector, run: seq<State>, i: nat)
    requires Run(init, run) && i < |run|
    ensures Inv(init, run[i])
  {
    if i == 0 {
    } else {
      RunKeepsInv(init, run, i - 1);
      var e := Runs.StepInto(Fire, Start(init), run, i);
      FireKeepsInv(init, run[i - 1], e, run[i]);
    }
  }

  // ----- what the history implies -----

  /** The mode stored in a sector is the initial one or that of one flag=1 STORE. */
  ghost predicate ModeIsWhole(init: Sector, m: Mode, log: seq<Write>) {
    m == ModeOf(init) || exists k :: 0 <= k < |log| && log[k].call.flag == 1 && m == Requested(log[k].call)
  }

  lemma {:induction false} VersionsSafe(init: Sector, log: seq<Write>, versions: seq<Sector>, n: nat)
    requires HistoryOk(init, log, versions) && n <= |log|
    ensures SameOutside(init, versions[n])
    ensures ModeIsWhole(init, ModeOf(versions[n]), log[..n])
    ensures InRange(init) ==> InRange(versions[n])
  {
    if n == 0 {
    } else {
      var w := log[n - 1];
      VersionsSafe(init, log, versions, w.basis);
      assert versions[n - 1 + 1] == Edit(versions[w.basis], w.call);
      if w.call.flag == 1 {
        assert log[..n][n - 1] == w;
      } else if ModeOf(versions[n]) != ModeOf(init) {
        var k :| 0 <= k < w.basis && log[..w.basis][k].call.flag == 1
                 && ModeOf(versions[w.basis]) == Requested(log[..w.basis][k].call);
        assert log[..n][k] == log[..w.basis][k];
      }
    }
  }

  /** Whatever the interleaving: bytes outside 1..6 never change, bytes 2..6 are never
      torn, and a marked resolution is always in range. */
  lemma AnyInterleavingIsSafe(init: Sector, run: seq<State>, i: nat)
    requires Run(init, run) && i < |run|
    ensures SameOutside(init, run[i].sector)
    ensures ModeIsWhole(init, ModeOf(run[i].sector), run[i].log)
    ensures InRange(init) ==> InRange(run[i].sector)
  {
    RunKeepsInv(init, run, i);
    var s := run[i];
    VersionsSafe(init, s.log, s.versions, |s.log|);
    assert s.log[..|s.log|] == s.log;
  }

  predicate ReturnedTrue(s: State, t: nat) { t in s.threads && s.threads[t].Returned? && s.threads[t].ok }

  /** A call that returned true has its own STORE in the log, in range: no other thread's
      true call has the same one. */
  lemma TrueMeansStored(init: Sector, run: seq<State>, i: nat, t: nat)
    requires Run(init, run) && i < |run| && ReturnedTrue(run[i], t)
    ensures var th := run[i].threads[t];
            && th.at < |run[i].log| && run[i].log[th.at].call == th.call && Accepted(th.call)
            && run[i].log[th.at].tid == t
            && forall u :: ReturnedTrue(run[i], u) && u != t ==> run[i].threads[u].at != th.at
  {
    RunKeepsInv(init, run, i);
    var s := run[i];
    forall u | ReturnedTrue(s, u) && u != t ensures s.threads[u].at != s.threads[t].at {
      assert ThreadOk(u, s.threads[u], s.log, s.versions);
    }
  }

  lemma FireExtendsLog(s: State, e: Event, s': State)
    requires Fire(s, e) == Some(s')
    ensures s.log <= s'.log
  {}

  lemma {:induction false} LogGrows(init: Sector, run: seq<State>, i: nat, j: nat)
    requires Run(init, run) && i <= j < |run|
    ensures run[i].log <= run[j].log
  {
    if i == j {
    } else {
      LogGrows(init, run, i, j - 1);
      var e := Runs.StepInto(Fire, Start(init), run, j);
      FireExtendsLog(run[j - 1], e, run[j]);
    }
  }

  /** The STORE that thread t has to its credit, if any, is number n or later. */
  predicate StoredFrom(s: State, t: nat, n: nat) {
    t in s.threads
    && (s.threads[t].Written? || (s.threads[t].Returned? && s.threads[t].ok) ==> s.threads[t].at >= n)
  }

  lemma FireStoresLater(s: State, e: Event, s': State, t: nat, n: nat)
    requires Fire(s, e) == Some(s') && StoredFrom(s, t, n) && n <= |s.log|
    ensures StoredFrom(s', t, n)
  {}

  lemma {:induction false} StoredSinceCalled(init: Sector, run: seq<State>, m: nat, j: nat, t: nat)
    requires Run(init, run) && m <= j < |run| && t in run[m].threads && run[m].threads[t].Called?
    ensures StoredFrom(run[j], t, |run[m].log|)
  {
    if m == j {
    } else {
      StoredSinceCalled(init, run, m, j - 1, t);
      LogGrows(init, run, m, j - 1);
      var e := Runs.StepInto(Fire, Start(init), run, j);
      FireStoresLater(run[j - 1], e, run[j], t, |run[m].log|);
    }
  }

  /** Real-time order, within a thread and across threads: when a true call of t had
      returned before the call of u began, and that call returned true as well, the STORE
      of t comes first. */
  lemma LaterTrueIsStoredLater(init: Sector, run: seq<State>, i: nat, m: nat, j: nat, t: nat, u: nat)
    requires Run(init, run) && i <= m <= j < |run|
    requires ReturnedTrue(run[i], t) && ReturnedTrue(run[j], u)
    requires u in run[m].threads && run[m].threads[u].Called?
    ensures run[i].threads[t].at < run[j].threads[u].at
  {
    TrueMeansStored(init, run, i, t);
    LogGrows(init, run, i, m);
    StoredSinceCalled(init, run, m, j, u);
  }

  // ----- when the interleaving is as good as a sequential run -----

  /** The log replayed one whole call after another. */
  function Replay(init: Sector, log: seq<Write>): Sector
    requires forall k :: 0 <= k < |log| ==> Accepted(log[k].call)
  {
    if log == [] then init else Edit(Replay(init, log[..|log| - 1]), log[|log| - 1].call)
  }

  /** A STORE loses nothing when it is a flag=1 call, or when the mode it read is still
      the mode it overwrites. */
  ghost predicate LosesNothing(log: seq<Write>, versions: seq<Sector>, k: nat)
    requires k < |log| < |versions| && log[k].basis < |versions|
  {
    log[k].call.flag == 1 || ModeOf(versions[log[k].basis]) == ModeOf(versions[k])
  }

  /** Exact condition: every value the sector has held is that of the sequential replay
      if and only if no STORE is a stale flag=0 call. */
  lemma {:induction false} SerialIffNothingLost(init: Sector, run: seq<State>, i: nat)
    requires Run(init, run) && i < |run|
    ensures Inv(init, run[i])
    ensures var log, versions := run[i].log, run[i].versions;
            (forall n :: 0 <= n <= |log| ==> versions[n] == Replay(init, log[..n]))
            <==> (forall k :: 0 <= k < |log| ==> LosesNothing(log, versions, k))
  {
    RunKeepsInv(init, run, i);
    var log, versions := run[i].log, run[i].versions;
    if forall n :: 0 <= n <= |log| ==> versions[n] == Replay(init, log[..n]) {
      forall k | 0 <= k < |log| ensures LosesNothing(log, versions, k) {
        ReplayStep(init, log, versions, k);
      }
    }
    if forall k :: 0 <= k < |log| ==> LosesNothing(log, versions, k) {
      forall n | 0 <= n <= |log| ensures versions[n] == Replay(init, log[..n]) {
        NothingLostIsSerial(init, log, versions, n);
      }
    }
  }

  lemma {:induction false} ReplayStep(init: Sector, log: seq<Write>, versions: seq<Sector>, k: nat)
    requires HistoryOk(init, log, versions) && k < |log|
    requires versions[k] == Replay(init, log[..k])
    ensures versions[k + 1] == Replay(init, log[..k + 1]) <==> LosesNothing(log, versions, k)
  {
    var b := log[k].basis;
    VersionsSafe(init, log, versions, b);
    VersionsSafe(init, log, versions, k);
    assert log[..k + 1][..k] == log[..k];
    EditDependsOn(versions[b], versions[k], log[k].call);
  }

  lemma {:induction false} NothingLostIsSerial(init: Sector, log: seq<Write>, versions: seq<Sector>, n: nat)
    requires HistoryOk(init, log, versions) && n <= |log|
    requires forall k :: 0 <= k < |log| ==> LosesNothing(log, versions, k)
    ensures versions[n] == Replay(init, log[..n])
  {
    if n == 0 {
    } else {
      NothingLostIsSerial(init, log, versions, n - 1);
      ReplayStep(init, log, versions, n - 1);
    }
  }

  /** Calls whose GET..STORE windows do not overlap lose nothing. */
  lemma {:induction false} DisjointWindowsAreSerial(init: Sector, run: seq<State>, i: nat)
    requires Run(init, run) && i < |run|
    requires forall k :: 0 <= k < |run[i].log| ==> run[i].log[k].basis == k
    ensures forall k :: 0 <= k < |run[i].log| ==> Accepted(run[i].log[k].call)
    ensures run[i].sector == Replay(init, run[i].log)
  {
    RunKeepsInv(init, run, i);
    var s := run[i];
    NothingLostIsSerial(init, s.log, s.versions, |s.log|);
    assert s.log[..|s.log|] == s.log;
  }

  /** Both calls have done their GET and neither its STORE. */
  lemma BothLoaded(init: Sector, a: Call, b: Call) returns (run: seq<State>)
    requires Accepted(a) && Accepted(b)
    ensures Run(init, run)
    ensures run[|run| - 1] == State(init, map[0 := Loaded(a, init, 0), 1 := Loaded(b, init, 0)], [], [init])
  {
    run := [Start(init)];
    run := Runs.Extend(Fire, Start(init), run, Event(0, Invoke(a)));
    run := Runs.Extend(Fire, Start(init), run, Event(0, Open(true)));
    run := Runs.Extend(Fire, Start(init), run, Event(0, Get(true)));
    run := Runs.Extend(Fire, Start(init), run, Event(1, Invoke(b)));
    run := Runs.Extend(Fire, Start(init), run, Event(1, Open(true)));
    run := Runs.Extend(Fire, Start(init), run, Event(1, Get(true)));
  }

  /** The condition is needed: a flag=0 call whose GET comes before another call's STORE
      wipes out the resolution that call has set and reported as set. */
  lemma LostUpdate(init: Sector, a: Call, b: Call) returns (run: seq<State>)
    requires Accepted(a) && a.flag == 0
    requires Accepted(b) && b.flag == 1 && Requested(b) != ModeOf(init)
    ensures Run(init, run)
    ensures var s := run[|run| - 1];
            && s.threads == map[0 := Returned(a, true, 1), 1 := Returned(b, true, 0)]
            && s.log == [Write(1, b, 0), Write(0, a, 0)]
            && ModeOf(s.sector) == ModeOf(init)
  {
    run := BothLoaded(init, a, b);
    run := Complete(init, run, 1);
    run := Complete(init, run, 0);
    var threads := map[0 := Loaded(a, init, 0), 1 := Loaded(b, init, 0)];
    assert threads[1 := Returned(b, true, 0)][0 := Returned(a, true, 1)]
           == map[0 := Returned(a, true, 1), 1 := Returned(b, true, 0)];
  }

  /** Thread t goes from its GET to a true return. */
  lemma Complete(init: Sector, run: seq<State>, t: nat) returns (run': seq<State>)
    requires Run(init, run) && t in run[|run| - 1].threads
    requires run[|run| - 1].threads[t].Loaded? && Accepted(run[|run| - 1].threads[t].call)
    ensures Run(init, run')
    ensures var s := run[|run| - 1];
            var th := s.threads[t];
            var data := Edit(th.data, th.call);
            run'[|run'| - 1] ==
              State(data, s.threads[t := Returned(th.call, true, |s.log|)],
                    s.log + [Write(t, th.call, th.basis)], s.versions + [data])
  {
    run' := Runs.Extend(Fire, Start(init), run, Event(t, EditData));
    run' := Runs.Extend(Fire, Start(init), run', Event(t, Store(true)));
    run' := Runs.Extend(Fire, Start(init), run', Event(t, Reread(true)));
    var s := run[|run| - 1];
    var th := s.threads[t];
    assert run'[|run'| - 1].threads == s.threads[t := Returned(th.call, true, |s.log|)];
  }

  // ----- a call while no other thread moves -----

  /** The device operations end as io says. */
  predicate Agrees(a: Action, io: Io) {
    match a
    case Open(ok) => ok == io.opens
    case Get(ok) => ok == io.gets
    case Store(ok) => ok == io.stores
    case Reread(ok) => ok == io.rereads
    case _ => true
  }

  /** One call of thread t, and no event of any other thread. */
  ghost predicate Solo(t: nat, c: Call, io: Io, es: seq<Event>) {
    && |es| > 0 && es[0] == Event(t, Invoke(c))
    && forall k :: 0 < k < |es| ==> es[k].tid == t && !es[k].action.Invoke? && Agrees(es[k].action, io)
  }

  /** Where the call is after k events, and what the sector then holds. */
  ghost predicate SoloAt(s: State, t: nat, c: Call, io: Io, k: nat, mid: State) {
    && t in mid.threads
    && (forall u :: u != t ==> (u in mid.threads <==> u in s.threads)
                               && (u in s.threads ==> mid.threads[u] == s.threads[u]))
    && match mid.threads[t]
       case Called(d) => k == 1 && d == c && mid.sector == s.sector
       case Opened(d) => k == 2 && d == c && mid.sector == s.sector && Accepted(c) && io.opens
       case Loaded(d, data, _) =>
         k == 3 && d == c && mid.sector == s.sector == data && Accepted(c) && io.opens && io.gets
       case Edited(d, data, _) =>
         k == 4 && d == c && mid.sector == s.sector && Accepted(c) && io.opens && io.gets && data == Edit(s.sector, c)
       case Written(d, _) => k == 5 && d == c && Stores(Attempt(c, io)) && mid.sector == Edit(s.sector, c)
       case Returned(d, ok, _) =>
         d == c && mid.sector == After(s.sector, Attempt(c, io)) && (ok <==> Stores(Attempt(c, io)) && io.rereads)
  }

  lemma SoloStep(s: State, t: nat, c: Call, io: Io, k: nat, mid: State, e: Event, next: State)
    requires SoloAt(s, t, c, io, k, mid) && Fire(mid, e) == Some(next)
    requires e.tid == t && !e.action.Invoke? && Agrees(e.action, io)
    ensures SoloAt(s, t, c, io, k + 1, next)
  {}

  lemma {:induction false} SoloStart(s: State, t: nat, c: Call, io: Io, es: seq<Event>)
    requires t !in s.threads || s.threads[t].Returned?
    requires Solo(t, c, io, es) && Runs.Exec(Fire, s, es).Some?
    ensures Runs.Exec(Fire, s, es[..1]).Some? && SoloAt(s, t, c, io, 1, Runs.Exec(Fire, s, es[..1]).value)
  {
    Runs.ExecPrefix(Fire, s, es, 0);
    assert es[..0] == [] && es[..0 + 1] == es[..1];
    assert Runs.Exec(Fire, s, es[..1]) == Some(Put(s, t, Called(c)));
  }

  lemma {:induction false} SoloStates(s: State, t: nat, c: Call, io: Io, es: seq<Event>, k: nat)
    requires t !in s.threads || s.threads[t].Returned?
    requires Solo(t, c, io, es) && Runs.Exec(Fire, s, es).Some? && 1 <= k <= |es|
    ensures Runs.Exec(Fire, s, es[..k]).Some? && SoloAt(s, t, c, io, k, Runs.Exec(Fire, s, es[..k]).value)
  {
    if k == 1 {
      SoloStart(s, t, c, io, es);
    } else {
      Runs.ExecPrefix(Fire, s, es, k - 1);
      SoloStates(s, t, c, io, es, k - 1);
      SoloStep(s, t, c, io, k - 1, Runs.Exec(Fire, s, es[..k - 1]).value, es[k - 1],
               Runs.Exec(Fire, s, es[..k]).value);
    }
  }

  /** Every way of making a call while no other thread moves ends as the sequential method
      does: same new sector, same returned value, and the other threads where they were. */
  lemma {:induction false} SoloCallIsSequential(s: State, t: nat, c: Call, io: Io, es: seq<Event>, s': State)
    requires t !in s.threads || s.threads[t].Returned?
    requires Solo(t, c, io, es) && Runs.Exec(Fire, s, es) == Some(s')
    requires s'.threads[t].Returned?
    ensures s'.sector == After(s.sector, Attempt(c, io))
    ensures s'.threads[t].ok <==> Stores(Attempt(c, io)) && io.rereads
    ensures s'.threads == s.threads[t := s'.threads[t]]
  {
    SoloStates(s, t, c, io, es, |es|);
    assert es[..|es|] == es;
  }

  /** And there is such a way, of at most six events, whatever the device operations do. */
  lemma SoloCallReturns(s: State, t: nat, c: Call, io: Io) returns (es: seq<Event>)
    requires t !in s.threads || s.threads[t].Returned?
    ensures Solo(t, c, io, es) && |es| <= 6
    ensures var p := Runs.Exec(Fire, s, es); p.Some? && t in p.value.threads && p.value.threads[t].Returned?
  {
    var mid := s;
    es, mid := Runs.Then(Fire, s, [], mid, Event(t, Invoke(c)));
    es, mid := Runs.Then(Fire, s, es, mid, Event(t, Open(io.opens)));
    if mid.threads[t].Opened? { es := SoloLoad(s, t, c, io, es, mid); }
  }

  lemma SoloLoad(s: State, t: nat, c: Call, io: Io, begun: seq<Event>, opening: State) returns (es: seq<Event>)
    requires Solo(t, c, io, begun) && |begun| == 2 && Runs.Exec(Fire, s, begun) == Some(opening)
    requires t in opening.threads && opening.threads[t].Opened? && Accepted(opening.threads[t].call)
    ensures Solo(t, c, io, es) && |es| <= 6
    ensures var p := Runs.Exec(Fire, s, es); p.Some? && t in p.value.threads && p.value.threads[t].Returned?
  {
    var mid := opening;
    es, mid := Runs.Then(Fire, s, begun, mid, Event(t, Get(io.gets)));
    if mid.threads[t].Loaded? { es := SoloFinish(s, t, c, io, es, mid); }
  }

  lemma SoloFinish(s: State, t: nat, c: Call, io: Io, begun: seq<Event>, loaded: State) returns (es: seq<Event>)
    requires Solo(t, c, io, begun) && |begun| == 3 && Runs.Exec(Fire, s, begun) == Some(loaded)
    requires t in loaded.threads && loaded.threads[t].Loaded? && Accepted(loaded.threads[t].call)
    ensures Solo(t, c, io, es) && |es| <= 6
    ensures var p := Runs.Exec(Fire, s, es); p.Some? && t in p.value.threads && p.value.threads[t].Returned?
  {
    var mid := loaded;
    es, mid := Runs.Then(Fire, s, begun, mid, Event(t, EditData));
    es, mid := Runs.Then(Fire, s, es, mid, Event(t, Store(io.stores)));
    if mid.threads[t].Written? { es, mid := Runs.Then(Fire, s, es, mid, Event(t, Reread(io.rereads))); }
  }
}
