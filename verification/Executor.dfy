/** The parallel retrieval executor of rag-query as a step relation: every (query form, retriever) pair is
    a task that waits for the semaphore, retrieves, and on return appends its result or counts a failure.
 */
module Executor {

  /** Which pairs succeed, and how many may retrieve at once. */
  datatype Setup = Setup(ok: seq<bool>, limit: nat)

  /** `results` lists pairs in order of completion. */
  datatype State = State(waiting: set<nat>, running: set<nat>, results: seq<nat>, failures: nat)

  function Pairs(n: nat): (pairs: set<nat>)
    ensures |pairs| == n && forall i: nat :: i in pairs <==> i < n
  {
    if n == 0 then {} else Pairs(n - 1) + {n - 1}
  }

  function Good(ok: seq<bool>): set<nat> { set i: nat | i < |ok| && ok[i] }

  function Bad(ok: seq<bool>): set<nat> { set i: nat | i < |ok| && !ok[i] }

  function Start(c: Setup): State { State(Pairs(|c.ok|), {}, [], 0) }

  predicate CanBegin(c: Setup, s: State, i: nat) { i in s.waiting && |s.running| < c.limit }

  /** Acquires the semaphore. */
  function Begin(s: State, i: nat): State { s.(waiting := s.waiting - {i}, running := s.running + {i}) }

  predicate CanFinish(c: Setup, s: State, i: nat) { i in s.running && i < |c.ok| }

  /** Returns: releases the semaphore and records the outcome, with no other coroutine in between. */
  function Finish(c: Setup, s: State, i: nat): State
    requires CanFinish(c, s, i)
  {
    var rest := s.(running := s.running - {i});
    if c.ok[i] then rest.(results := s.results + [i]) else rest.(failures := s.failures + 1)
  }

  ghost predicate Step(c: Setup, s: State, t: State) {
    || (exists i :: CanBegin(c, s, i) && t == Begin(s, i))
    || (exists i :: CanFinish(c, s, i) && t == Finish(c, s, i))
  }

  /** The states of a run, in order. */
  ghost predicate Run(c: Setup, states: seq<State>) {
    && states != [] && states[0] == Start(c)
    && forall k :: 0 < k < |states| ==> Step(c, states[k - 1], states[k])
  }

  predicate Done(s: State) { s.waiting == {} && s.running == {} }

  /** The pairs of a set that have run. */
  function Ran(all: set<nat>, s: State): set<nat> { all - s.waiting - s.running }

  /** Every pair is in one place, and each that left running is in the results once or counted. */
  ghost predicate Inv(c: Setup, s: State) {
    && s.waiting + s.running <= Pairs(|c.ok|) && s.waiting !! s.running
    && |s.running| <= c.limit
    && multiset(s.results) == multiset(Ran(Good(c.ok), s))
    && s.failures == |Ran(Bad(c.ok), s)|
  }

  lemma StartInv(c: Setup)
    ensures Inv(c, Start(c))
  {
    assert Ran(Good(c.ok), Start(c)) == {} && Ran(Bad(c.ok), Start(c)) == {};
  }

  lemma BeginRan(all: set<nat>, c: Setup, s: State, i: nat)
    requires Inv(c, s) && CanBegin(c, s, i)
    ensures Ran(all, Begin(s, i)) == Ran(all, s)
  {
  }

  lemma BeginInv(c: Setup, s: State, i: nat)
    requires Inv(c, s) && CanBegin(c, s, i)
    ensures Inv(c, Begin(s, i))
  {
    BeginRan(Good(c.ok), c, s, i);
    BeginRan(Bad(c.ok), c, s, i);
  }

  lemma FinishRan(all: set<nat>, c: Setup, s: State, i: nat)
    requires Inv(c, s) && CanFinish(c, s, i)
    ensures i !in Ran(all, s)
    ensures Ran(all, Finish(c, s, i)) == if i in all then Ran(all, s) + {i} else Ran(all, s)
  {
  }

  lemma FinishInv(c: Setup, s: State, i: nat)
    requires Inv(c, s) && CanFinish(c, s, i)
    ensures Inv(c, Finish(c, s, i))
  {
    FinishRan(Good(c.ok), c, s, i);
    FinishRan(Bad(c.ok), c, s, i);
    AddedOnce(Ran(Good(c.ok), s), i);
  }

  lemma AddedOnce(a: set<nat>, i: nat)
    requires i !in a
    ensures multiset(a + {i}) == multiset(a) + multiset{i} && |a + {i}| == |a| + 1
  {
  }

  lemma StepInv(c: Setup, s: State, t: State)
    requires Inv(c, s) && Step(c, s, t)
    ensures Inv(c, t)
  {
    if i: nat :| CanBegin(c, s, i) && t == Begin(s, i) {
      BeginInv(c, s, i);
    } else {
      var i: nat :| CanFinish(c, s, i) && t == Finish(c, s, i);
      FinishInv(c, s, i);
    }
  }

  /** At every moment of every run at most `limit` retrievals are under way. */
  lemma {:induction false} RunInv(c: Setup, states: seq<State>, k: nat)
    requires Run(c, states) && k < |states|
    ensures Inv(c, states[k])
  {
    if k == 0 {
      StartInv(c);
    } else {
      RunInv(c, states, k - 1);
      StepInv(c, states[k - 1], states[k]);
    }
  }

  lemma PairsCount(ok: seq<bool>)
    ensures |Good(ok)| + |Bad(ok)| == |ok|
    ensures |Good(ok)| == 0 <==> forall i :: 0 <= i < |ok| ==> !ok[i]
  {
    assert Pairs(|ok|) == Good(ok) + Bad(ok);
    forall i | 0 <= i < |ok| && ok[i] ensures |Good(ok)| > 0 {
      assert i in Good(ok);
    }
    if Good(ok) != {} {
      var i :| i in Good(ok);
      assert ok[i];
    }
  }

  /** When all retrievals are done, each successful pair is in the results exactly once and nothing else is,
      and all pairs have failed exactly when no result was recorded. */
  lemma FinishedRun(c: Setup, states: seq<State>)
    requires Run(c, states) && Done(states[|states| - 1])
    ensures var s := states[|states| - 1];
            multiset(s.results) == multiset(Good(c.ok)) && s.failures + |s.results| == |c.ok|
    ensures states[|states| - 1].failures == |c.ok| <==> forall i :: 0 <= i < |c.ok| ==> !c.ok[i]
  {
    var s := states[|states| - 1];
    RunInv(c, states, |states| - 1);
    assert Ran(Good(c.ok), s) == Good(c.ok) && Ran(Bad(c.ok), s) == Bad(c.ok);
    PairsCount(c.ok);
    assert |s.results| == |multiset(s.results)| == |Good(c.ok)|;
  }

  /** Two runs of the same retrievals record the same results, in whatever order. */
  lemma SameResults(c: Setup, p: seq<State>, q: seq<State>)
    requires Run(c, p) && Run(c, q) && Done(p[|p| - 1]) && Done(q[|q| - 1])
    ensures multiset(p[|p| - 1].results) == multiset(q[|q| - 1].results)
  {
    FinishedRun(c, p);
    FinishedRun(c, q);
  }

  /** A run that is not done can go on, for the limits the executor accepts. */
  lemma NeverStuck(c: Setup, states: seq<State>) returns (t: State)
    requires Run(c, states) && c.limit >= 1 && !Done(states[|states| - 1])
    ensures Step(c, states[|states| - 1], t)
  {
    var s := states[|states| - 1];
    RunInv(c, states, |states| - 1);
    if s.running != {} {
      var i :| i in s.running;
      assert CanFinish(c, s, i);
      t := Finish(c, s, i);
    } else {
      var i :| i in s.waiting;
      t := Begin(s, i);
    }
  }

  function Left(s: State): nat { 2 * |s.waiting| + |s.running| }

  /** And every step brings it closer to its end. */
  lemma StepsDecrease(c: Setup, s: State, t: State)
    requires Inv(c, s) && Step(c, s, t)
    ensures Left(t) < Left(s)
  {
    if i: nat :| CanBegin(c, s, i) && t == Begin(s, i) {
      assert |s.waiting - {i}| == |s.waiting| - 1;
    } else {
      var i: nat :| CanFinish(c, s, i) && t == Finish(c, s, i);
      assert |s.running - {i}| == |s.running| - 1;
    }
  }

  /** No run takes more than two steps a pair. */
  lemma {:induction false} RunLength(c: Setup, states: seq<State>, k: nat)
    requires Run(c, states) && k < |states|
    ensures k + Left(states[k]) <= 2 * |c.ok|
  {
    if k > 0 {
      RunInv(c, states, k - 1);
      RunLength(c, states, k - 1);
      assert Step(c, states[k - 1], states[k]);
      StepsDecrease(c, states[k - 1], states[k]);
    }
  }
}
