/** Runs of a step system.  `fire` gives the state after an event, or None when the event
    cannot happen there.
 */
module Runs {
  import opened Basics

  ghost predicate Step<S(!new), E(!new)>(fire: (S, E) -> Option<S>, s: S, s': S) {
    exists e :: fire(s, e) == Some(s')
  }

  /** A sequence of states from `start`, each one step after the one before. */
  ghost predicate IsRun<S(!new), E(!new)>(fire: (S, E) -> Option<S>, start: S, run: seq<S>) {
    && |run| > 0
    && run[0] == start
    && forall i :: 0 <= i < |run| - 1 ==> Step(fire, run[i], run[i + 1])
  }

  lemma StepInto<S(!new), E(!new)>(fire: (S, E) -> Option<S>, start: S, run: seq<S>, i: nat) returns (e: E)
    requires IsRun(fire, start, run) && 0 < i < |run|
    ensures fire(run[i - 1], e) == Some(run[i])
  {
    assert Step(fire, run[i - 1], run[i - 1 + 1]);
    e :| fire(run[i - 1], e) == Some(run[i]);
  }

  lemma Extend<S(!new), E(!new)>(fire: (S, E) -> Option<S>, start: S, run: seq<S>, e: E) returns (run': seq<S>)
    requires IsRun(fire, start, run) && fire(run[|run| - 1], e).Some?
    ensures IsRun(fire, start, run') && run <= run' && |run'| == |run| + 1
    ensures run'[|run|] == fire(run[|run| - 1], e).value
  {
    var s' := fire(run[|run| - 1], e).value;
    run' := run + [s'];
    assert Step(fire, run[|run| - 1], s');
    forall i | 0 <= i < |run'| - 1 ensures Step(fire, run'[i], run'[i + 1]) {
      if i < |run| - 1 {
        assert run'[i] == run[i] && run'[i + 1] == run[i + 1];
      }
    }
  }

  /** The state after a sequence of events. */
  function Exec<S, E>(fire: (S, E) -> Option<S>, s: S, es: seq<E>): Option<S> {
    if es == [] then Some(s)
    else
      var p := Exec(fire, s, es[..|es| - 1]);
      if p.None? then None else fire(p.value, es[|es| - 1])
  }

  /** Every event of an executable sequence fires in the state reached by those before. */
  lemma {:induction false} ExecPrefix<S, E>(fire: (S, E) -> Option<S>, s: S, es: seq<E>, k: nat)
    requires Exec(fire, s, es).Some? && k < |es|
    ensures Exec(fire, s, es[..k]).Some?
    ensures Exec(fire, s, es[..k + 1]) == fire(Exec(fire, s, es[..k]).value, es[k])
    ensures Exec(fire, s, es[..k + 1]).Some?
  {
    var n := |es| - 1;
    if k < n {
      ExecPrefix(fire, s, es[..n], k);
      assert es[..n][..k] == es[..k] && es[..n][..k + 1] == es[..k + 1];
    } else {
      assert es[..k + 1] == es;
    }
  }

  /** One more event after es. */
  lemma Then<S, E>(fire: (S, E) -> Option<S>, s: S, es: seq<E>, mid: S, e: E) returns (es': seq<E>, s': S)
    requires Exec(fire, s, es) == Some(mid) && fire(mid, e).Some?
    ensures es' == es + [e] && s' == fire(mid, e).value && Exec(fire, s, es') == Some(s')
  {
    es', s' := es + [e], fire(mid, e).value;
    assert es'[..|es|] == es;
  }
}
