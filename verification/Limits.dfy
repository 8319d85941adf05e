/**
  Instruction limits do not show: a run cut into calls of any size passes through the same machines and
  ends with the same result (src/interpreter.rs, `run`).
 */
module Limits {
  import opened Wrappers
  import opened Words
  import opened Machines
  import S = Steps

  /** The machine after `k` steps, whatever they report. */
  function After(code: Memory, m: Machine, k: nat): Machine
    decreases k
  {
    if k == 0 then m else After(code, S.Step(code, m).machine, k - 1)
  }

  /** The step with index `k` reports `Running`. */
  predicate RunsOn(code: Memory, m: Machine, k: nat) {
    S.Step(code, After(code, m, k)).result == S.RUNNING
  }

  /** A run with limit `n` makes `n` steps, or stops with the first one that does not report `Running`. */
  lemma {:induction false} RunExactly(code: Memory, m: Machine, n: nat, k: nat)
    requires k <= n && forall j: nat | j < k :: RunsOn(code, m, j)
    ensures k == n ==> S.Run(code, m, n) == Outcome(Success(Running), After(code, m, n))
    ensures k < n && !RunsOn(code, m, k) ==> S.Run(code, m, n) == S.Step(code, After(code, m, k))
    decreases k
  {
    hide S.Step;
    if k > 0 {
      assert RunsOn(code, m, 0);
      var next := S.Step(code, m).machine;
      forall j: nat | j < k - 1 ensures RunsOn(code, next, j) {
        assert RunsOn(code, m, j + 1);
      }
      RunExactly(code, next, n - 1, k - 1);
    }
  }

  /** A run that is still going, continued, is the longer run. */
  lemma {:induction false} RunConcat(code: Memory, m: Machine, a: nat, b: nat)
    requires S.Run(code, m, a).result == S.RUNNING
    ensures S.Run(code, m, a + b) == S.Run(code, S.Run(code, m, a).machine, b)
    decreases a
  {
    hide S.Step;
    if a > 0 {
      RunConcat(code, S.Step(code, m).machine, a - 1, b);
    }
  }

  /** A run that has ended is not changed by a larger limit. */
  lemma {:induction false} RunStable(code: Memory, m: Machine, a: nat, b: nat)
    requires S.Run(code, m, a).result != S.RUNNING
    ensures S.Run(code, m, a + b) == S.Run(code, m, a)
    decreases a
  {
    hide S.Step;
    if S.Step(code, m).result == S.RUNNING {
      RunStable(code, S.Step(code, m).machine, a - 1, b);
    }
  }

  /** `calls` calls of `run` with the same limit, one after the other while the result is `Running`. */
  function Calls(code: Memory, m: Machine, limit: nat, calls: nat): Outcome
    decreases calls
  {
    if calls == 0 then
      Outcome(S.RUNNING, m)
    else
      var o := S.Run(code, m, limit);
      if o.result == S.RUNNING then Calls(code, o.machine, limit, calls - 1) else o
  }

  lemma Scale(limit: nat, calls: nat)
    requires calls > 0
    ensures limit * calls == limit + limit * (calls - 1) && limit * (calls - 1) >= 0
  {
  }

  lemma {:induction false} CallsAreOneRun(code: Memory, m: Machine, limit: nat, calls: nat)
    ensures Calls(code, m, limit, calls) == S.Run(code, m, limit * calls)
    decreases calls
  {
    hide S.Run;
    if calls == 0 {
      RunNothing(code, m);
    } else {
      Scale(limit, calls);
      var o := S.Run(code, m, limit);
      if o.result == S.RUNNING {
        CallsAreOneRun(code, o.machine, limit, calls - 1);
        RunConcat(code, m, limit, limit * (calls - 1));
      } else {
        RunStable(code, m, limit, limit * (calls - 1));
      }
    }
  }

  lemma RunNothing(code: Memory, m: Machine)
    ensures S.Run(code, m, 0) == Outcome(S.RUNNING, m)
  {
  }

  /** The unlimited run ends at step `k`. */
  predicate EndsAt(code: Memory, m: Machine, k: nat) {
    k > 0 && S.Run(code, m, k - 1).result == S.RUNNING && S.Run(code, m, k).result != S.RUNNING
  }

  /** `k / limit`, rounded up. */
  function Ceiling(limit: nat, k: nat): (calls: nat)
    requires limit > 0 && k > 0
    ensures calls > 0 && limit * (calls - 1) < k <= limit * calls
  {
    (k + limit - 1) / limit
  }

  lemma {:induction false} StillRunning(code: Memory, m: Machine, a: nat, b: nat)
    requires S.Run(code, m, a + b).result == S.RUNNING
    ensures S.Run(code, m, a).result == S.RUNNING
  {
    hide S.Run;
    if S.Run(code, m, a).result != S.RUNNING {
      RunStable(code, m, a, b);
    }
  }

  lemma Monotone(limit: nat, c: nat, d: nat)
    requires c <= d
    ensures limit * c <= limit * d
  {
    Products(limit, c, d - c);
  }

  lemma Products(limit: nat, c: nat, d: nat)
    ensures limit * (c + d) == limit * c + limit * d && limit * d >= 0
  {
  }

  /**
    If the unlimited run ends at step `k`, calls with limit `L` are still running before call `ceil(k / L)`
    and that call ends in the same machine with the same result.
   */
  lemma CeilingCalls(code: Memory, m: Machine, limit: nat, k: nat)
    requires limit > 0 && EndsAt(code, m, k)
    ensures Calls(code, m, limit, Ceiling(limit, k)) == S.Run(code, m, k)
    ensures forall c: nat | c < Ceiling(limit, k) :: Calls(code, m, limit, c).result == S.RUNNING
  {
    hide S.Run, Calls, Ceiling;
    var calls := Ceiling(limit, k);
    CallsAreOneRun(code, m, limit, calls);
    RunStable(code, m, k, limit * calls - k);
    forall c: nat | c < calls ensures Calls(code, m, limit, c).result == S.RUNNING {
      Monotone(limit, c, calls - 1);
      CallsAreOneRun(code, m, limit, c);
      StillRunning(code, m, limit * c, (k - 1) - limit * c);
    }
  }
}
