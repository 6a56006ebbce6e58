/** `mySystem` saves the SIGCHLD disposition, sets SIG_DFL, runs a command and puts the
    saved disposition back.  The disposition belongs to the whole process, and calls come
    from the Binder thread pool.
 */
module SigChild {
  import opened Basics
  import Runs

  datatype Handler = Default | Custom(id: nat)

  class Process {
    var sigchld: Handler
    /** The commands run so far, each with the disposition it ran under. */
    var ran: seq<(string, Handler)>

    /** One call by itself; `status` is what `system` returns. */
    method MySystem(cmd: string, status: int) returns (ret: int)
      modifies this
      ensures sigchld == old(sigchld)
      ensures ran == if cmd == "" then old(ran) else old(ran) + [(cmd, Default)]
      ensures ret == if cmd == "" then -1 else status
    {
      if cmd == "" { return -1; }
      var oldHandler := sigchld;
      sigchld := Default;
      ran := ran + [(cmd, sigchld)];
      sigchld := oldHandler;
      ret := status;
    }
  }

  // ----- overlapping calls -----

  /** The disposition, the handler each call in progress has saved, and the call that
      found the process idle. */
  datatype State = State(disposition: Handler, saved: map<nat, Handler>, first: Option<nat>)

  datatype Event = Begin(call: nat) | End(call: nat)

  function Start(orig: Handler): State { State(orig, map[], None) }

  predicate Idle(s: State) { s.saved == map[] }

  function Fire(s: State, e: Event): Option<State> {
    match e
    case Begin(c) =>
      if c in s.saved then None
      else Some(State(Default, s.saved[c := s.disposition], if Idle(s) then Some(c) else s.first))
    case End(c) =>
      if c !in s.saved then None
      else Some(State(s.saved[c], s.saved - {c}, s.first))
  }

  ghost predicate Step(s: State, s': State) { Runs.Step(Fire, s, s') }

  ghost predicate Run(orig: Handler, run: seq<State>) { Runs.IsRun(Fire, Start(orig), run) }

  /** In every interleaving, the disposition and all saved handlers are the original or
      SIG_DFL. */
  lemma {:induction false} OnlyTwoHandlers(orig: Handler, run: seq<State>, i: nat)
    requires Run(orig, run) && i < |run|
    ensures run[i].disposition in {orig, Default}
    ensures forall c :: c in run[i].saved ==> run[i].saved[c] in {orig, Default}
  {
    if i == 0 {
    } else {
      OnlyTwoHandlers(orig, run, i - 1);
      assert Step(run[i - 1], run[i - 1 + 1]);
    }
  }

  /** What callers rely on: commands run under SIG_DFL, and the original is back when
      nothing runs. */
  predicate AsPromised(orig: Handler, s: State) {
    s.disposition == if Idle(s) then orig else Default
  }

  /** The step from s to s' ends the call that found the process idle, while others are
      still in progress. */
  predicate EndsFirstEarly(s: State, s': State) {
    s.first.Some? && s.first.value in s.saved && s.first.value !in s'.saved && !Idle(s')
  }

  ghost predicate Inv(orig: Handler, s: State) {
    && AsPromised(orig, s)
    && (!Idle(s) ==>
          && s.first.Some? && s.first.value in s.saved && s.saved[s.first.value] == orig
          && forall c :: c in s.saved && c != s.first.value ==> s.saved[c] == Default)
  }

  lemma StepKeepsInv(orig: Handler, s: State, s': State)
    requires Inv(orig, s) && Step(s, s') && !EndsFirstEarly(s, s')
    ensures Inv(orig, s')
  {
    var e :| Fire(s, e) == Some(s');
    match e
    case Begin(c) => assert c in s'.saved;
    case End(c) =>
      if c == s.first.value {
        assert Idle(s');
      } else {
        assert s.first.value in s'.saved;
      }
  }

  lemma EarlyEndBreaks(orig: Handler, s: State, s': State)
    requires Inv(orig, s) && Step(s, s') && EndsFirstEarly(s, s') && orig != Default
    ensures !AsPromised(orig, s')
  {
    var e :| Fire(s, e) == Some(s');
    assert e == End(s.first.value);
  }

  lemma {:induction false} InvUntilEarlyEnd(orig: Handler, run: seq<State>, i: nat)
    requires Run(orig, run) && i < |run|
    requires forall j :: 0 <= j < i ==> !EndsFirstEarly(run[j], run[j + 1])
    ensures Inv(orig, run[i])
  {
    if i == 0 {
    } else {
      InvUntilEarlyEnd(orig, run, i - 1);
      assert Step(run[i - 1], run[i - 1 + 1]) && !EndsFirstEarly(run[i - 1], run[i - 1 + 1]);
      StepKeepsInv(orig, run[i - 1], run[i]);
    }
  }

  lemma {:induction false} FirstEarlyEnd(run: seq<State>, n: nat) returns (k: nat)
    requires n < |run| - 1 && EndsFirstEarly(run[n], run[n + 1])
    ensures k <= n && EndsFirstEarly(run[k], run[k + 1])
    ensures forall j :: 0 <= j < k ==> !EndsFirstEarly(run[j], run[j + 1])
  {
    if j :| 0 <= j < n && EndsFirstEarly(run[j], run[j + 1]) {
      k := FirstEarlyEnd(run, j);
    } else {
      k := n;
    }
  }

  /** Exact condition: the promise holds in every state of a run if and only if the first
      call of every busy period is also the last one to end. */
  lemma PromiseIffFirstEndsLast(orig: Handler, run: seq<State>)
    requires Run(orig, run) && orig != Default
    ensures (forall i :: 0 <= i < |run| ==> AsPromised(orig, run[i]))
            <==> (forall i :: 0 <= i < |run| - 1 ==> !EndsFirstEarly(run[i], run[i + 1]))
  {
    if i :| 0 <= i < |run| - 1 && EndsFirstEarly(run[i], run[i + 1]) {
      var k := FirstEarlyEnd(run, i);
      InvUntilEarlyEnd(orig, run, k);
      assert Step(run[k], run[k + 1]);
      EarlyEndBreaks(orig, run[k], run[k + 1]);
      assert !AsPromised(orig, run[k + 1]);
    } else {
      forall i | 0 <= i < |run| ensures AsPromised(orig, run[i]) {
        InvUntilEarlyEnd(orig, run, i);
      }
    }
  }

  /** Calls that never overlap keep the promise. */
  lemma NonOverlappingKeepsPromise(orig: Handler, run: seq<State>, i: nat)
    requires Run(orig, run) && i < |run|
    requires forall j :: 0 <= j < |run| ==> |run[j].saved| <= 1
    ensures AsPromised(orig, run[i])
  {
    forall j | 0 <= j < i ensures !EndsFirstEarly(run[j], run[j + 1]) {
      assert Step(run[j], run[j + 1]);
      OnlyCallEndsLast(run[j], run[j + 1]);
    }
    InvUntilEarlyEnd(orig, run, i);
  }

  lemma OnlyCallEndsLast(s: State, s': State)
    requires Step(s, s') && |s.saved| <= 1
    ensures !EndsFirstEarly(s, s')
  {
    var e :| Fire(s, e) == Some(s');
    match e
    case Begin(c) => assert forall d :: d in s.saved ==> d in s'.saved;
    case End(c) =>
      assert c in s.saved.Keys && |s.saved.Keys - {c}| == 0;
      assert s'.saved.Keys == s.saved.Keys - {c};
  }

  /** Two overlapping calls lose the original handler for good. */
  lemma OverlapLosesHandler(orig: Handler) returns (run: seq<State>)
    requires orig != Default
    ensures Run(orig, run)
    ensures Idle(run[|run| - 1]) && run[|run| - 1].disposition == Default
    ensures exists i :: 0 <= i < |run| && !Idle(run[i]) && run[i].disposition == orig
  {
    var s0 := Start(orig);
    var s1 := Fire(s0, Begin(0)).value;
    var s2 := Fire(s1, Begin(1)).value;
    var s3 := Fire(s2, End(0)).value;
    var s4 := Fire(s3, End(1)).value;
    run := [s0, s1, s2, s3, s4];
    assert Step(s0, s1) && Step(s1, s2) && Step(s2, s3) && Step(s3, s4);
    assert 1 in s3.saved;
    assert s4.saved.Keys == {};
    assert run[3] == s3;
  }
}
