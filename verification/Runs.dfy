/** Runs of a transition system, and induction over them. */
module Runs {

  ghost predicate StepAt<S(!new)>(step: (S, S) -> bool, trace: seq<S>, i: nat)
    requires 0 < i < |trace|
  {
    step(trace[i - 1], trace[i])
  }

  /** Every state of the trace but the first is a step away from the one before. */
  ghost predicate Chain<S(!new)>(step: (S, S) -> bool, trace: seq<S>) {
    trace != [] && forall i | 0 < i < |trace| :: StepAt(step, trace, i)
  }

  /** What holds at the start and is kept by every step holds throughout. */
  lemma {:induction false} Invariance<S(!new)>(step: (S, S) -> bool, trace: seq<S>, inv: S -> bool, i: nat)
    requires Chain(step, trace) && i < |trace|
    requires inv(trace[0])
    requires forall s, s' | inv(s) && step(s, s') :: inv(s')
    ensures inv(trace[i])
    decreases i
  {
    if i > 0 {
      Invariance(step, trace, inv, i - 1);
      assert StepAt(step, trace, i);
    }
  }

  /** A run from `a` to `b`. */
  ghost predicate Leads<S(!new)>(step: (S, S) -> bool, a: S, b: S) {
    exists trace :: Chain(step, trace) && trace[0] == a && trace[|trace| - 1] == b
  }

  lemma LeadsNowhere<S(!new)>(step: (S, S) -> bool, a: S)
    ensures Leads(step, a, a)
  {
    assert Chain(step, [a]) && [a][0] == a;
  }

  lemma {:induction false} LeadsOneMore<S(!new)>(step: (S, S) -> bool, a: S, b: S, c: S)
    requires Leads(step, a, b) && step(b, c)
    ensures Leads(step, a, c)
  {
    var trace :| Chain(step, trace) && trace[0] == a && trace[|trace| - 1] == b;
    var longer := trace + [c];
    forall i | 0 < i < |longer| ensures StepAt(step, longer, i) {
      if i < |trace| {
        assert StepAt(step, trace, i);
      }
    }
    assert longer[0] == a && longer[|longer| - 1] == c;
  }

  lemma {:induction false} LeadsOn<S(!new)>(step: (S, S) -> bool, a: S, b: S, c: S)
    requires Leads(step, a, b) && Leads(step, b, c)
    ensures Leads(step, a, c)
  {
    var trace :| Chain(step, trace) && trace[0] == b && trace[|trace| - 1] == c;
    var i := 0;
    while i < |trace| - 1
      invariant 0 <= i < |trace| && Leads(step, a, trace[i])
    {
      assert StepAt(step, trace, i + 1);
      LeadsOneMore(step, a, trace[i], trace[i + 1]);
      i := i + 1;
    }
  }
}
