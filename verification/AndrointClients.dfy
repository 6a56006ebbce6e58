/** Any number of processes inside the `androint` driver at once.  The critical section
    is not one step: a reader loads the two words one after the other and a writer
    copies them one after the other, so linearizability rests on the semaphore.
 */
module AndrointClients {
  import opened Basics
  import opened AndrointDriver
  import Runs

  /** Where a client is.  `since` is the time of its call. */
  datatype Phase =
    | Waiting(req: Request, since: nat)
    | Inside(req: Request, since: nat)
    | Halfway(req: Request, since: nat, first: Int32)
    | Leaving(outcome: Outcome)
    | Returned(outcome: Outcome)

  /** A request that has done its work: who, what, its call time, its working time. */
  datatype Entry = Entry(client: nat, req: Request, since: nat, at: nat, outcome: Outcome)

  /** What a client that had the semaphore took away with it, and when. */
  datatype Exit = Exit(client: nat, outcome: Outcome, at: nat)

  /** `log` lists the requests in the order of their work and `left` their exits; `now`
      counts steps. */
  datatype State = State(
    sem: int,
    pair: Pair,
    now: nat,
    clients: map<nat, Phase>,
    log: seq<Entry>,
    left: seq<Exit>)

  datatype Action = Enter(req: Request) | Interrupt | Down | First | Second | Up

  datatype Event = Event(client: nat, action: Action)

  function Start(init: Pair): State { State(1, init, 0, map[], [], []) }

  predicate InSection(p: Phase) { p.Inside? || p.Halfway? || p.Leaving? }

  ghost function Holders(s: State): set<nat> { set c | c in s.clients && InSection(s.clients[c]) }

  /** The request is one whose two words are moved separately. */
  predicate TwoWords(r: Request) {
    match r
    case Read(count, _) => count == SIZEOF_INT
    case Write(count, _, torn) => count == 2 * SIZEOF_INT && torn.None?
  }

  function Move(s: State, c: nat, p: Phase): State {
    s.(clients := s.clients[c := p], now := s.now + 1)
  }

  /** The work is done: log it and head for `up`. */
  function Finish(s: State, c: nat, r: Request, since: nat, pair: Pair, o: Outcome): State {
    Move(s, c, Leaving(o)).(pair := pair, log := s.log + [Entry(c, r, since, s.now, o)])
  }

  /** One atomic step of one client; None when the client is not at that point. */
  function Fire(s: State, e: Event): Option<State> {
    var c := e.client;
    if c !in s.clients || s.clients[c].Returned? then
      if e.action.Enter? then Some(Move(s, c, Waiting(e.action.req, s.now))) else None
    else
      match (s.clients[c], e.action)
      case (Waiting(r, since), Interrupt) => Some(Move(s, c, Returned(Outcome(-ERESTARTSYS, None))))
      case (Waiting(r, since), Down) =>
        if s.sem > 0 then Some(Move(s, c, Inside(r, since)).(sem := s.sem - 1)) else None
      case (Inside(r, since), First) =>
        if !TwoWords(r) then Some(Finish(s, c, r, since, PairAfter(s.pair, r), OutcomeAt(s.pair, r)))
        else if r.Read? then Some(Move(s, c, Halfway(r, since, s.pair.a)))
        else Some(Move(s, c, Halfway(r, since, s.pair.a)).(pair := s.pair.(a := r.pair.a)))
      case (Halfway(r, since, first), Second) =>
        if r.Read? then
          Some(Finish(s, c, r, since, s.pair,
                      if r.fault then Outcome(-EFAULT, None)
                      else Outcome(r.count, Some(Wrap32(first + s.pair.b)))))
        else
          Some(Finish(s, c, r, since, s.pair.(b := r.pair.b), Outcome(r.count, None)))
      case (Leaving(o), Up) =>
        Some(Move(s, c, Returned(o)).(sem := s.sem + 1, left := s.left + [Exit(c, o, s.now)]))
      case _ => None
  }

  ghost predicate Step(s: State, s': State) { Runs.Step(Fire, s, s') }

  ghost predicate Run(init: Pair, run: seq<State>) { Runs.IsRun(Fire, Start(init), run) }

  // ----- the sequential object -----

  /** The pair after the logged requests, executed one at a time. */
  function Replay(init: Pair, log: seq<Entry>): Pair {
    if log == [] then init else PairAfter(Replay(init, log[..|log| - 1]), log[|log| - 1].req)
  }

  /** Every logged outcome is that of the sequential object. */
  ghost predicate Legal(init: Pair, log: seq<Entry>) {
    forall i :: 0 <= i < |log| ==> log[i].outcome == OutcomeAt(Replay(init, log[..i]), log[i].req)
  }

  // ----- the invariant -----

  /** Call before work before exit, each exit before all later work, and every client
      leaves with the outcome of its own entry. */
  ghost predicate TimesOk(log: seq<Entry>, left: seq<Exit>, now: nat) {
    && |left| <= |log| <= |left| + 1
    && (forall i :: 0 <= i < |log| ==> log[i].since < log[i].at < now)
    && (forall i :: 0 <= i < |left| ==> log[i].at < left[i].at < now)
    && (forall i :: 0 <= i < |left| ==> left[i].client == log[i].client && left[i].outcome == log[i].outcome)
    && (forall i, j :: 0 <= i < |left| && i < j < |log| ==> left[i].at < log[j].at)
  }

  /** What the client in the section knows of the pair, which was `held` on entry. */
  ghost predicate SectionOk(c: nat, held: Pair, pair: Pair, log: seq<Entry>, left: seq<Exit>, p: Phase)
    requires InSection(p)
  {
    match p
    case Inside(r, _) => pair == held && |log| == |left|
    case Halfway(r, _, first) =>
      && TwoWords(r)
      && |log| == |left|
      && (if r.Read? then pair == held && first == held.a else pair == Pair(r.pair.a, held.b))
    case Leaving(o) =>
      && pair == held
      && |log| == |left| + 1
      && log[|log| - 1].client == c && log[|log| - 1].outcome == o
  }

  ghost predicate Inv(init: Pair, s: State) {
    && s.sem >= 0 && s.sem + |Holders(s)| == 1
    && Legal(init, s.log)
    && TimesOk(s.log, s.left, s.now)
    && (Holders(s) == {} ==> s.pair == Replay(init, s.log) && |s.log| == |s.left|)
    && (forall c :: c in Holders(s) ==> SectionOk(c, Replay(init, s.log), s.pair, s.log, s.left, s.clients[c]))
    && (forall c :: c in s.clients && (s.clients[c].Waiting? || s.clients[c].Inside? || s.clients[c].Halfway?)
          ==> s.clients[c].since < s.now)
  }

  lemma OneHolder(s: State, c: nat)
    requires |Holders(s)| <= 1 && c in Holders(s)
    ensures Holders(s) == {c}
  {
    if d :| d in Holders(s) && d != c {
      assert {c, d} <= Holders(s);
      SubsetCardinality({c, d}, Holders(s));
    }
  }

  lemma {:induction false} SubsetCardinality(a: set<nat>, b: set<nat>)
    requires a <= b
    ensures |a| <= |b|
  {
    if a == {} {
    } else {
      var x :| x in a;
      SubsetCardinality(a - {x}, b - {x});
    }
  }

  lemma {:induction false} AppendReplay(init: Pair, log: seq<Entry>, n: Entry)
    ensures Replay(init, log + [n]) == PairAfter(Replay(init, log), n.req)
  {
    assert (log + [n])[..|log|] == log;
  }

  lemma {:induction false} AppendLegal(init: Pair, log: seq<Entry>, n: Entry)
    requires Legal(init, log) && n.outcome == OutcomeAt(Replay(init, log), n.req)
    ensures Legal(init, log + [n])
  {
    var l := log + [n];
    forall i | 0 <= i < |l| ensures l[i].outcome == OutcomeAt(Replay(init, l[..i]), l[i].req) {
      assert l[..i] == if i < |log| then log[..i] else log;
    }
  }

  /** Logging the right outcome with the right new pair keeps the history legal. */
  lemma {:induction false} LoggedRight(init: Pair, log: seq<Entry>, n: Entry)
    requires Legal(init, log) && n.outcome == OutcomeAt(Replay(init, log), n.req)
    ensures Legal(init, log + [n]) && Replay(init, log + [n]) == PairAfter(Replay(init, log), n.req)
  {
    AppendReplay(init, log, n);
    AppendLegal(init, log, n);
  }

  /** The entry a finishing step logs, and the pair it leaves, are those of the
      sequential object. */
  lemma FinishesRight(held: Pair, s: State, e: Event, s': State)
    requires Fire(s, e) == Some(s') && (e.action.First? || e.action.Second?)
    requires e.client in s.clients && InSection(s.clients[e.client])
    requires SectionOk(e.client, held, s.pair, s.log, s.left, s.clients[e.client])
    ensures s'.left == s.left && InSection(s'.clients[e.client])
    ensures s'.log == s.log ==> SectionOk(e.client, held, s'.pair, s'.log, s'.left, s'.clients[e.client])
    ensures s'.log != s.log ==>
              && |s'.log| == |s.log| + 1 == |s.left| + 1
              && s'.log == s.log + [s'.log[|s.log|]]
              && var n := s'.log[|s.log|];
                 && n.client == e.client && n.outcome == OutcomeAt(held, n.req)
                 && s'.pair == PairAfter(held, n.req)
                 && s'.clients[e.client] == Leaving(n.outcome)
  {}

  /** A step of the client in the section keeps the history legal and the pair known. */
  lemma {:induction false} WorkKeepsHistory(init: Pair, s: State, e: Event, s': State)
    requires Fire(s, e) == Some(s') && (e.action.First? || e.action.Second?)
    requires e.client in s.clients && InSection(s.clients[e.client])
    requires Legal(init, s.log) && SectionOk(e.client, Replay(init, s.log), s.pair, s.log, s.left, s.clients[e.client])
    ensures Legal(init, s'.log)
    ensures SectionOk(e.client, Replay(init, s'.log), s'.pair, s'.log, s'.left, s'.clients[e.client])
  {
    FinishesRight(Replay(init, s.log), s, e, s');
    if s'.log != s.log {
      LoggedRight(init, s.log, s'.log[|s.log|]);
    }
  }

  /** A step outside the section. */
  lemma QuietKeepsInv(init: Pair, s: State, c: nat, p: Phase, s': State)
    requires Inv(init, s) && s' == Move(s, c, p)
    requires c !in Holders(s) && (p.Waiting? || p.Returned?)
    requires p.Waiting? ==> p.since <= s.now
    ensures Inv(init, s')
  {
    assert Holders(s') == Holders(s);
  }

  lemma DownKeepsInv(init: Pair, s: State, c: nat, p: Phase, s': State)
    requires Inv(init, s) && s' == Move(s, c, p).(sem := s.sem - 1)
    requires s.sem > 0 && c !in Holders(s) && p.Inside? && p.since < s.now
    ensures Inv(init, s')
  {
    assert Holders(s') == Holders(s) + {c};
    assert Holders(s) == {};
  }

  lemma TimesExit(log: seq<Entry>, left: seq<Exit>, now: nat, x: Exit)
    requires TimesOk(log, left, now) && |log| == |left| + 1 && x.at == now
    requires x.client == log[|left|].client && x.outcome == log[|left|].outcome
    ensures TimesOk(log, left + [x], now + 1)
  {}

  lemma {:induction false} UpKeepsHistory(init: Pair, s: State, c: nat, o: Outcome)
    requires Inv(init, s) && c in s.clients && s.clients[c] == Leaving(o)
    ensures TimesOk(s.log, s.left + [Exit(c, o, s.now)], s.now + 1)
    ensures s.pair == Replay(init, s.log) && |s.log| == |s.left| + 1
    ensures Holders(s) == {c} && s.sem == 0
  {
    OneHolder(s, c);
    assert SectionOk(c, Replay(init, s.log), s.pair, s.log, s.left, s.clients[c]);
    TimesExit(s.log, s.left, s.now, Exit(c, o, s.now));
  }

  lemma UpKeepsInv(init: Pair, s: State, c: nat, o: Outcome, s': State)
    requires Inv(init, s) && c in s.clients && s.clients[c] == Leaving(o)
    requires s' == Move(s, c, Returned(o)).(sem := s.sem + 1, left := s.left + [Exit(c, o, s.now)])
    ensures Inv(init, s')
  {
    UpKeepsHistory(init, s, c, o);
    assert Holders(s') == {};
  }

  lemma TimesAppend(log: seq<Entry>, left: seq<Exit>, now: nat, n: Entry)
    requires TimesOk(log, left, now) && |log| == |left| && n.since < n.at == now
    ensures TimesOk(log + [n], left, now + 1)
  {}

  /** A step of a client in the section either moves it halfway or logs its request. */
  ghost predicate Works(s: State, c: nat, s': State) {
    && c in s.clients && (s.clients[c].Inside? || s.clients[c].Halfway?)
    && c in s'.clients && s'.clients == s.clients[c := s'.clients[c]]
    && s'.sem == s.sem && s'.now == s.now + 1 && s'.left == s.left
    && var since := s.clients[c].since;
       if s'.clients[c].Halfway? then s'.clients[c].since == since && s'.log == s.log
       else s'.clients[c].Leaving?
            && exists n :: s'.log == s.log + [n] && n.since == since && n.at == s.now
  }

  lemma FireWorks(s: State, e: Event, s': State)
    requires Fire(s, e) == Some(s') && (e.action.First? || e.action.Second?)
    ensures Works(s, e.client, s')
  {
    if s'.clients[e.client].Leaving? {
      var n := s'.log[|s.log|];
      assert s'.log == s.log + [n];
    }
  }

  lemma WorkKeepsTimes(init: Pair, s: State, c: nat, s': State)
    requires Inv(init, s) && Works(s, c, s')
    ensures TimesOk(s'.log, s'.left, s'.now)
  {
    if s'.clients[c].Leaving? {
      assert c in Holders(s);
      var n :| s'.log == s.log + [n] && n.since == s.clients[c].since && n.at == s.now;
      TimesAppend(s.log, s.left, s.now, n);
    }
  }

  lemma {:induction false} SectionKeepsInv(init: Pair, s: State, c: nat, p: Phase, s': State)
    requires Inv(init, s) && c in Holders(s) && InSection(p)
    requires s'.clients == s.clients[c := p] && s'.sem == s.sem && s'.now == s.now + 1
    requires p.Inside? || p.Halfway? ==> p.since < s.now
    requires Legal(init, s'.log) && TimesOk(s'.log, s'.left, s'.now)
    requires SectionOk(c, Replay(init, s'.log), s'.pair, s'.log, s'.left, p)
    ensures Inv(init, s')
  {
    OneHolder(s, c);
    assert Holders(s') == {c};
  }

  lemma FireKeepsInv(init: Pair, s: State, e: Event, s': State)
    requires Inv(init, s) && Fire(s, e) == Some(s')
    ensures Inv(init, s')
  {
    var c := e.client;
    match e.action
    case Enter(_) => QuietKeepsInv(init, s, c, s'.clients[c], s');
    case Interrupt => QuietKeepsInv(init, s, c, s'.clients[c], s');
    case Down => DownKeepsInv(init, s, c, s'.clients[c], s');
    case Up => UpKeepsInv(init, s, c, s.clients[c].outcome, s');
    case _ =>
      FireWorks(s, e, s');
      assert c in Holders(s);
      WorkKeepsHistory(init, s, e, s');
      WorkKeepsTimes(init, s, c, s');
      SectionKeepsInv(init, s, c, s'.clients[c], s');
  }

  lemma {:induction false} RunKeepsInv(init: Pair, run: seq<State>, i: nat)
    requires Run(init, run) && i < |run|
    ensures Inv(init, run[i])
  {
    if i > 0 {
      RunKeepsInv(init, run, i - 1);
      var e := Runs.StepInto(Fire, Start(init), run, i);
      FireKeepsInv(init, run[i - 1], e, run[i]);
    } else {
      assert Holders(run[0]) == {};
    }
  }

  // ----- what every run satisfies -----

  /** Semaphore count plus clients in the section is always 1. */
  lemma MutualExclusion(init: Pair, run: seq<State>, i: nat, c: nat, d: nat)
    requires Run(init, run) && i < |run|
    ensures run[i].sem + |Holders(run[i])| == 1
    ensures c in Holders(run[i]) && d in Holders(run[i]) ==> c == d
  {
    RunKeepsInv(init, run, i);
    if c in Holders(run[i]) { OneHolder(run[i], c); }
  }

  lemma CalledBeforeLeft(s: State, b: nat, a: nat)
    requires TimesOk(s.log, s.left, s.now) && b <= a < |s.left|
    ensures s.log[b].since < s.left[a].at
  {
    if b < a {
      assert s.log[b].at < s.left[b].at < s.log[a].at < s.left[a].at;
    }
  }

  /** What a client was given is what its latest exit recorded, or the interruption of its
      wait. */
  ghost predicate HoldsItsOutcome(s: State, c: nat)
    requires c in s.clients && s.clients[c].Returned?
  {
    || s.clients[c].outcome == Outcome(-ERESTARTSYS, None)
    || exists j :: LatestExit(s.left, c, j) && s.left[j].outcome == s.clients[c].outcome
  }

  ghost predicate LatestExit(left: seq<Exit>, c: nat, j: int) {
    0 <= j < |left| && left[j].client == c && forall m :: j < m < |left| ==> left[m].client != c
  }

  lemma FireGivesOutcome(s: State, e: Event, s': State, c: nat)
    requires Fire(s, e) == Some(s') && c in s'.clients && s'.clients[c].Returned?
    requires c in s.clients && s.clients[c].Returned? ==> HoldsItsOutcome(s, c)
    ensures HoldsItsOutcome(s', c)
  {
    if c == e.client && e.action.Up? {
      assert LatestExit(s'.left, c, |s.left|);
    } else if c != e.client && s.clients[c].outcome != Outcome(-ERESTARTSYS, None) {
      var j :| LatestExit(s.left, c, j) && s.left[j].outcome == s.clients[c].outcome;
      assert LatestExit(s'.left, c, j);
    }
  }

  lemma {:induction false} ReturnedHoldsItsOutcome(init: Pair, run: seq<State>, i: nat, c: nat)
    requires Run(init, run) && i < |run| && c in run[i].clients && run[i].clients[c].Returned?
    ensures HoldsItsOutcome(run[i], c)
  {
    if i == 0 {
    } else {
      var s := run[i - 1];
      if c in s.clients && s.clients[c].Returned? { ReturnedHoldsItsOutcome(init, run, i - 1, c); }
      var e := Runs.StepInto(Fire, Start(init), run, i);
      FireGivesOutcome(s, e, run[i], c);
    }
  }

  /** Linearizability.  The log is a sequential execution with the same outcomes; every
      request works between its call and its exit and takes away its own outcome; a
      request that left before another was called comes before it in the log; and what a
      client was given is what it took away, or that its wait was interrupted. */
  lemma Linearizable(init: Pair, run: seq<State>, i: nat)
    requires Run(init, run) && i < |run|
    ensures Legal(init, run[i].log)
    ensures TimesOk(run[i].log, run[i].left, run[i].now)
    ensures var s := run[i];
            forall a, b :: 0 <= a < |s.left| && 0 <= b < |s.log| && s.left[a].at < s.log[b].since ==> a < b
    ensures forall c :: c in run[i].clients && run[i].clients[c].Returned? ==> HoldsItsOutcome(run[i], c)
  {
    RunKeepsInv(init, run, i);
    var s := run[i];
    forall c | c in s.clients && s.clients[c].Returned? ensures HoldsItsOutcome(s, c) {
      ReturnedHoldsItsOutcome(init, run, i, c);
    }
    forall a, b | 0 <= a < |s.left| && 0 <= b < |s.log| && s.left[a].at < s.log[b].since
      ensures a < b
    {
      if b <= a { CalledBeforeLeft(s, b, a); }
    }
  }

  /** Events of client c alone that take it out of the section. */
  ghost predicate LeavesBy(s: State, c: nat, es: seq<Event>) {
    && |es| <= 3
    && (forall k :: 0 <= k < |es| ==> es[k].client == c)
    && var p := Runs.Exec(Fire, s, es);
       p.Some? && p.value.sem == s.sem + 1 && c in p.value.clients && p.value.clients[c].Returned?
  }

  /** The semaphore is never lost: whoever holds it can give it back by its own steps. */
  lemma HolderCanLeave(init: Pair, run: seq<State>, i: nat, c: nat)
    requires Run(init, run) && i < |run| && c in Holders(run[i])
    ensures run[i].sem == 0 && exists es :: LeavesBy(run[i], c, es)
  {
    RunKeepsInv(init, run, i);
    OneHolder(run[i], c);
    Leave(run[i], c);
  }

  lemma Leave(s: State, c: nat)
    requires c in s.clients && InSection(s.clients[c])
    ensures exists es :: LeavesBy(s, c, es)
  {
    if s.clients[c].Inside? {
      var es, mid := Runs.Then(Fire, s, [], s, Event(c, First));
      LeaveSoon(s, c, es, mid);
    } else {
      LeaveSoon(s, c, [], s);
    }
  }

  lemma {:induction false} LeaveSoon(s: State, c: nat, begun: seq<Event>, past: State)
    requires Runs.Exec(Fire, s, begun) == Some(past) && |begun| <= 1 && past.sem == s.sem
    requires forall k :: 0 <= k < |begun| ==> begun[k].client == c
    requires c in past.clients && (past.clients[c].Halfway? || past.clients[c].Leaving?)
    ensures exists es :: LeavesBy(s, c, es)
  {
    if past.clients[c].Halfway? {
      var es, mid := Runs.Then(Fire, s, begun, past, Event(c, Second));
      LeaveNow(s, c, es, mid);
    } else {
      LeaveNow(s, c, begun, past);
    }
  }

  lemma {:induction false} LeaveNow(s: State, c: nat, begun: seq<Event>, past: State)
    requires Runs.Exec(Fire, s, begun) == Some(past) && |begun| <= 2 && past.sem == s.sem
    requires forall k :: 0 <= k < |begun| ==> begun[k].client == c
    requires c in past.clients && past.clients[c].Leaving?
    ensures exists es :: LeavesBy(s, c, es)
  {
    var es, mid := Runs.Then(Fire, s, begun, past, Event(c, Up));
    assert LeavesBy(s, c, es);
  }

  // ----- what a reader gets -----

  /** A write that changed the device, whether or not it reported success. */
  predicate Lands(r: Request) { r.Write? && r.count == 2 * SIZEOF_INT }

  /** Interruptions, wrong sizes, read faults and reads never touch the pair. */
  lemma OnlyLandingWritesChangePair(init: Pair, run: seq<State>, i: nat, e: Event, s': State)
    requires Run(init, run) && i < |run| && Fire(run[i], e) == Some(s') && s'.pair != run[i].pair
    ensures e.client in Holders(run[i])
    ensures !run[i].clients[e.client].Leaving? && Lands(run[i].clients[e.client].req)
  {
    RunKeepsInv(init, run, i);
    assert e.client in Holders(run[i]);
    assert SectionOk(e.client, Replay(init, run[i].log), run[i].pair, run[i].log, run[i].left, run[i].clients[e.client]);
  }

  function Landed(r: Request): Pair
    requires Lands(r)
  {
    if r.torn.Some? then r.torn.value else r.pair
  }

  /** k is the last write to land before i, or -1 when there is none. */
  ghost predicate LastLanding(log: seq<Entry>, i: nat, k: int)
    requires i <= |log|
  {
    && -1 <= k < i
    && (k >= 0 ==> Lands(log[k].req))
    && forall j :: k < j < i ==> !Lands(log[j].req)
  }

  lemma {:induction false} ReplayIsLastLanding(init: Pair, log: seq<Entry>, i: nat, k: int)
    requires i <= |log| && LastLanding(log, i, k)
    ensures Replay(init, log[..i]) == if k < 0 then init else Landed(log[k].req)
  {
    if i == 0 {
    } else {
      assert log[..i][..i - 1] == log[..i - 1];
      if k < i - 1 { ReplayIsLastLanding(init, log, i - 1, k); }
    }
  }

  /** Every successful read, in every run, returns the wrapped sum of the last write to
      land before it; wrong sizes, interruptions and read faults land nothing. */
  lemma ReadReturnsLastLanding(init: Pair, run: seq<State>, i: nat, r: nat, k: int)
    requires Run(init, run) && i < |run| && r < |run[i].log|
    requires run[i].log[r].req.Read? && run[i].log[r].outcome.retval == SIZEOF_INT
    requires LastLanding(run[i].log, r, k)
    ensures run[i].log[r].outcome.delivered ==
              Some(Sum(if k < 0 then init else Landed(run[i].log[k].req)))
  {
    RunKeepsInv(init, run, i);
    ReplayIsLastLanding(init, run[i].log, r, k);
  }

  predicate SuccessfulWrite(n: Entry) { n.req.Write? && n.outcome.retval == 2 * SIZEOF_INT }

  /** s is the last write before i to report success, or -1 when there is none. */
  ghost predicate LastSuccess(log: seq<Entry>, i: nat, s: int)
    requires i <= |log|
  {
    && -1 <= s < i
    && (s >= 0 ==> SuccessfulWrite(log[s]))
    && forall j :: s < j < i ==> !SuccessfulWrite(log[j])
  }

  /** Exact condition, for every run and every successful read: the sum delivered is that
      of the last successful write if and only if no later write landed, or the last one
      to land, which then tore its copy, left a pair of the same sum. */
  lemma ReadMatchesLastSuccessIff(init: Pair, run: seq<State>, i: nat, r: nat, s: int, k: int)
    requires Run(init, run) && i < |run| && r < |run[i].log|
    requires run[i].log[r].req.Read? && run[i].log[r].outcome.retval == SIZEOF_INT
    requires LastSuccess(run[i].log, r, s) && LastLanding(run[i].log, r, k)
    ensures s <= k
    ensures k > s ==> run[i].log[k].req.torn.Some?
    ensures var expected := Sum(if s < 0 then init else run[i].log[s].req.pair);
            run[i].log[r].outcome.delivered == Some(expected)
            <==> (k > s ==> Sum(run[i].log[k].req.torn.value) == expected)
  {
    RunKeepsInv(init, run, i);
    ReadReturnsLastLanding(init, run, i, r, k);
    if s >= 0 { SuccessLands(init, run[i].log, s); }
    if k > s { SuccessLands(init, run[i].log, k); }
  }

  lemma SuccessLands(init: Pair, log: seq<Entry>, k: nat)
    requires Legal(init, log) && k < |log| && log[k].req.Write?
    ensures SuccessfulWrite(log[k]) <==> Lands(log[k].req) && log[k].req.torn.None?
  {
    assert log[k].outcome == OutcomeAt(Replay(init, log[..k]), log[k].req);
  }

  /** With no faulting `copy_from_user`, the writes that land are the ones that reported
      success, and they land exactly the pair the caller passed. */
  lemma WithoutFaultsSuccessIsLanding(init: Pair, run: seq<State>, i: nat, k: nat)
    requires Run(init, run) && i < |run| && k < |run[i].log|
    requires forall j :: 0 <= j < |run[i].log| && run[i].log[j].req.Write? ==> run[i].log[j].req.torn.None?
    ensures SuccessfulWrite(run[i].log[k]) <==> Lands(run[i].log[k].req)
    ensures SuccessfulWrite(run[i].log[k]) ==> Landed(run[i].log[k].req) == run[i].log[k].req.pair
  {
    RunKeepsInv(init, run, i);
    var n := run[i].log[k];
    assert n.outcome == OutcomeAt(Replay(init, run[i].log[..k]), n.req);
  }

  /** `add_androint` among other clients: its write is log entry w, its read is entry r,
      both successful.  It returns a + b wrapped when no write lands in between, and the
      sum of the latest write to land otherwise. */
  lemma HalAddUnderInterference(init: Pair, run: seq<State>, i: nat, w: nat, r: nat, a: Int32, b: Int32, k: int)
    requires Run(init, run) && i < |run| && w < r < |run[i].log|
    requires run[i].log[w].req == Write(2 * SIZEOF_INT, Pair(a, b), None)
    requires run[i].log[r].req == Read(SIZEOF_INT, false)
    requires LastLanding(run[i].log, r, k)
    ensures k >= w
    ensures var out := run[i].log[r].outcome.delivered;
            && out == Some(Sum(Landed(run[i].log[k].req)))
            && (k == w ==> out == Some(DirectAdd(a, b)))
            && ((forall j :: w < j < r ==> !Lands(run[i].log[j].req)) <==> k == w)
  {
    ReadSucceeds(init, run, i, r);
    ReadReturnsLastLanding(init, run, i, r, k);
    LastLandingFrom(run[i].log, w, r, k);
  }

  lemma ReadSucceeds(init: Pair, run: seq<State>, i: nat, r: nat)
    requires Run(init, run) && i < |run| && r < |run[i].log|
    requires run[i].log[r].req == Read(SIZEOF_INT, false)
    ensures run[i].log[r].outcome.retval == SIZEOF_INT
  {
    RunKeepsInv(init, run, i);
    assert Legal(init, run[i].log);
    assert run[i].log[r].outcome == OutcomeAt(Replay(init, run[i].log[..r]), run[i].log[r].req);
  }

  lemma LastLandingFrom(log: seq<Entry>, w: nat, r: nat, k: int)
    requires w < r <= |log| && Lands(log[w].req) && LastLanding(log, r, k)
    ensures k >= w
    ensures (forall j :: w < j < r ==> !Lands(log[j].req)) <==> k == w
  {}

  // ----- runs in which it goes wrong -----

  predicate Idle(s: State, c: nat) { c in s.clients ==> s.clients[c].Returned? }

  lemma Admit(init: Pair, run: seq<State>, c: nat, r: Request) returns (run': seq<State>)
    requires Run(init, run) && run[|run| - 1].sem == 1 && Idle(run[|run| - 1], c)
    ensures Run(init, run') && run <= run'
    ensures var s := run[|run| - 1];
            run'[|run'| - 1] == s.(clients := s.clients[c := Inside(r, s.now)], now := s.now + 2, sem := 0)
  {
    run' := Runs.Extend(Fire, Start(init), run, Event(c, Enter(r)));
    run' := Runs.Extend(Fire, Start(init), run', Event(c, Down));
    var s := run[|run| - 1];
    assert s.clients[c := Waiting(r, s.now)][c := Inside(r, s.now)] == s.clients[c := Inside(r, s.now)];
  }

  /** c does its work, and logs it. */
  lemma Work(init: Pair, run: seq<State>, c: nat) returns (run': seq<State>)
    requires Run(init, run) && c in run[|run| - 1].clients && run[|run| - 1].clients[c].Inside?
    ensures Run(init, run') && run <= run'
    ensures var s, s' := run[|run| - 1], run'[|run'| - 1];
            && s'.sem == s.sem && c in s'.clients && s'.clients == s.clients[c := s'.clients[c]]
            && s'.clients[c].Leaving?
            && |s'.log| == |s.log| + 1 && s.log <= s'.log
            && s'.log[|s.log|].req == s.clients[c].req && s'.log[|s.log|].client == c
  {
    run' := Runs.Extend(Fire, Start(init), run, Event(c, First));
    if TwoWords(run[|run| - 1].clients[c].req) {
      run' := Runs.Extend(Fire, Start(init), run', Event(c, Second));
    }
  }

  lemma Release(init: Pair, run: seq<State>, c: nat) returns (run': seq<State>)
    requires Run(init, run) && c in run[|run| - 1].clients && run[|run| - 1].clients[c].Inside?
    ensures Run(init, run') && run <= run'
    ensures var s, s' := run[|run| - 1], run'[|run'| - 1];
            && s'.sem == s.sem + 1 && Idle(s', c)
            && (forall d :: d != c && Idle(s, d) ==> Idle(s', d))
            && |s'.log| == |s.log| + 1 && s.log <= s'.log
            && s'.log[|s.log|].req == s.clients[c].req && s'.log[|s.log|].client == c
  {
    run' := Work(init, run, c);
    run' := Runs.Extend(Fire, Start(init), run', Event(c, Up));
  }

  /** A request made while the semaphore is free can run to its return. */
  lemma Serve(init: Pair, run: seq<State>, c: nat, r: Request) returns (run': seq<State>)
    requires Run(init, run) && run[|run| - 1].sem == 1 && Idle(run[|run| - 1], c)
    ensures Run(init, run') && run <= run' && run'[|run'| - 1].sem == 1
    ensures var s, s' := run[|run| - 1], run'[|run'| - 1];
            && (forall d :: Idle(s, d) ==> Idle(s', d))
            && |s'.log| == |s.log| + 1 && s.log <= s'.log
            && s'.log[|s.log|].req == r && s'.log[|s.log|].client == c
  {
    run' := Admit(init, run, c, r);
    run' := Release(init, run', c);
  }

  /** The words move one at a time: in every reachable state with the semaphore free, any
      pair can be left half written, the first word new and the second one old. */
  lemma HalfWritten(init: Pair, run: seq<State>, c: nat, p: Pair) returns (run': seq<State>)
    requires Run(init, run) && run[|run| - 1].sem == 1 && Idle(run[|run| - 1], c)
    ensures Run(init, run') && run <= run'
    ensures run'[|run'| - 1].pair == Pair(p.a, run[|run| - 1].pair.b) && run'[|run'| - 1].sem == 0
  {
    run' := Admit(init, run, c, Write(8, p, None));
    run' := Runs.Extend(Fire, Start(init), run', Event(c, First));
  }

  lemma ServeThree(init: Pair, a: nat, r: Request, b: nat, q: Request, c: nat, p: Request) returns (run: seq<State>)
    ensures Run(init, run)
    ensures var log := run[|run| - 1].log;
            |log| == 3 && log[0].req == r && log[1].req == q && log[2].req == p
            && log[0].client == a && log[1].client == b && log[2].client == c
  {
    run := [Start(init)];
    run := Serve(init, run, a, r);
    run := Serve(init, run, b, q);
    run := Serve(init, run, c, p);
  }

  /** A faulting write reports failure and is still what the next reader sees: without
      the no-fault hypothesis a read need not match the last successful write. */
  lemma FaultingWriteIsVisible(init: Pair, good: Pair, torn: Pair) returns (run: seq<State>)
    ensures Run(init, run)
    ensures var log := run[|run| - 1].log;
            && |log| == 3 && SuccessfulWrite(log[0]) && log[0].req.pair == good
            && !SuccessfulWrite(log[1])
            && log[2].outcome == Outcome(SIZEOF_INT, Some(Sum(torn)))
  {
    run := ServeThree(init, 0, Write(2 * SIZEOF_INT, good, None),
                      0, Write(2 * SIZEOF_INT, good, Some(torn)), 1, Read(SIZEOF_INT, false));
    var i := |run| - 1;
    RunKeepsInv(init, run, i);
    assert Legal(init, run[i].log);
    ReplayIsLastLanding(init, run[i].log, 2, 1);
  }

  /** Two clients of `add_androint` can cross: client 0 asks for a + b and gets the sum
      that client 1 asked for. */
  lemma CrossedAdds(init: Pair, a: Int32, b: Int32, other: Pair) returns (run: seq<State>)
    ensures Run(init, run)
    ensures var log := run[|run| - 1].log;
            && |log| == 3
            && log[0].client == 0 && log[0].req == Write(2 * SIZEOF_INT, Pair(a, b), None)
            && log[2].client == 0 && log[2].outcome == Outcome(SIZEOF_INT, Some(Sum(other)))
  {
    run := ServeThree(init, 0, Write(2 * SIZEOF_INT, Pair(a, b), None),
                      1, Write(2 * SIZEOF_INT, other, None), 0, Read(SIZEOF_INT, false));
    var i := |run| - 1;
    RunKeepsInv(init, run, i);
    assert Legal(init, run[i].log);
    ReplayIsLastLanding(init, run[i].log, 2, 1);
  }
}
