/** Applying a batch of facts to a projection (`ProjectorImpl.doApply`), with the transaction
    handling of `TransactionBehavior`. */
module Projector {
  import opened Options
  import opened FactLog

  /** The position of the last of the facts, or the one there was before. */
  function PositionAfter(before: Option<int>, facts: seq<Fact>): Option<int>
  {
    if facts == [] then before else Some(facts[|facts| - 1].id)
  }

  /** Where the handlers first fail; the length if they never do. */
  function FirstFailing<S>(apply: (S, Fact) -> S, fails: (S, Fact) -> bool, s: S, facts: seq<Fact>): (n: nat)
    ensures n <= |facts|
  {
    if facts == [] then 0
    else
      var front := facts[..|facts| - 1];
      var n := FirstFailing(apply, fails, s, front);
      if n < |front| then n
      else if fails(Fold(apply, s, front), facts[|facts| - 1]) then |front|
      else |facts|
  }

  /** `List.indexOf`: facts are equal if their headers are, for which the id stands. */
  function IndexOf(facts: seq<Fact>, f: Fact): (n: nat)
    requires f in facts
    ensures n < |facts| && facts[n].id == f.id && forall i :: 0 <= i < n ==> facts[i].id != f.id
  {
    if facts[0].id == f.id then 0 else 1 + IndexOf(facts[1..], f)
  }

  /** How much of a batch a transactional projection keeps. */
  function Kept<S>(apply: (S, Fact) -> S, fails: (S, Fact) -> bool, s: S, facts: seq<Fact>): (n: nat)
    ensures n <= |facts|
  {
    var n := FirstFailing(apply, fails, s, facts);
    if n == |facts| then n else IndexOf(facts, facts[n])
  }

  /** Nothing before the first failing fact fails, and the first failing fact does. */
  lemma {:induction false} FirstFailingFails<S>(apply: (S, Fact) -> S, fails: (S, Fact) -> bool, s: S, facts: seq<Fact>,
                                                i: nat)
    requires i < |facts|
    ensures var n := FirstFailing(apply, fails, s, facts);
      && (i < n ==> !fails(Fold(apply, s, facts[..i]), facts[i]))
      && (i == n ==> fails(Fold(apply, s, facts[..i]), facts[i]))
  {
    var front := facts[..|facts| - 1];
    if i < |front| {
      FirstFailingFails(apply, fails, s, front, i);
      assert front[..i] == facts[..i];
    }
  }

  /** If handlers get as far as `n` then they get as far as that in a shorter batch too. */
  lemma {:induction false} FirstFailingPrefix<S>(apply: (S, Fact) -> S, fails: (S, Fact) -> bool, s: S,
                                                 facts: seq<Fact>, k: nat)
    requires k <= FirstFailing(apply, fails, s, facts)
    ensures FirstFailing(apply, fails, s, facts[..k]) == k
  {
    if k == |facts| {
      assert facts[..k] == facts;
      FirstFailingMost(apply, fails, s, facts);
    } else {
      var front := facts[..|facts| - 1];
      FirstFailingPrefix(apply, fails, s, front, k);
      assert front[..k] == facts[..k];
    }
  }

  lemma FirstFailingMost<S>(apply: (S, Fact) -> S, fails: (S, Fact) -> bool, s: S, facts: seq<Fact>)
    ensures FirstFailing(apply, fails, s, facts) <= |facts|
  {
  }

  /** What is kept is all that comes before the first failing fact exactly if no earlier fact
      equals that one. */
  lemma KeptIsAll<S>(apply: (S, Fact) -> S, fails: (S, Fact) -> bool, s: S, facts: seq<Fact>)
    ensures var n := FirstFailing(apply, fails, s, facts);
      Kept(apply, fails, s, facts) == n <==> (n < |facts| ==> forall i :: 0 <= i < n ==> facts[i].id != facts[n].id)
    ensures DistinctIds(facts) ==> Kept(apply, fails, s, facts) == FirstFailing(apply, fails, s, facts)
  {
  }

  /** One fact twice, with a handler that fails on the second: the first one is lost as well. */
  lemma NothingKept(a: Fact)
    ensures var apply, fails := (n: int, f: Fact) => n + 1, (n: int, f: Fact) => n == 1;
      FirstFailing(apply, fails, 0, [a, a]) == 1 && Kept(apply, fails, 0, [a, a]) == 0
  {
    var apply, fails := (n: int, f: Fact) => n + 1, (n: int, f: Fact) => n == 1;
    assert [a, a][..1] == [a] && [a][..0] == [];
    assert Fold(apply, 0, []) == 0;
    assert Fold(apply, 0, [a]) == 1;
    assert FirstFailing(apply, fails, 0, []) == 0;
    assert FirstFailing(apply, fails, 0, [a]) == 1;
  }

  /** The kept facts can be applied again without failing. */
  lemma KeptAgain<S>(apply: (S, Fact) -> S, fails: (S, Fact) -> bool, s: S, facts: seq<Fact>)
    ensures var k := Kept(apply, fails, s, facts);
      Kept(apply, fails, s, facts[..k]) == k && FirstFailing(apply, fails, s, facts[..k]) == k
  {
    var n, k := FirstFailing(apply, fails, s, facts), Kept(apply, fails, s, facts);
    if n < |facts| {
      assert facts[k].id == facts[n].id;
      FirstFailingPrefix(apply, fails, s, facts, k);
    } else {
      assert facts[..k] == facts;
    }
  }

  datatype Transaction<S> = Transaction(state: S, position: Option<int>)

  class Projection<S(0)> {
    const apply: (S, Fact) -> S         // what the handlers do
    const fails: (S, Fact) -> bool      // when they always fail
    const flaky: bool                   // whether they, and the store, may fail at other times too
    const transactional: bool           // TransactionAware
    const positionAware: bool           // FactStreamPositionAware

    var state: S                        // what others see
    var position: Option<int>
    var running: Option<Transaction<S>>

    ghost var before: S                 // the state that the last handler was called on

    constructor (apply: (S, Fact) -> S, fails: (S, Fact) -> bool, flaky: bool, transactional: bool, positionAware: bool,
                 s: S)
      ensures this.apply == apply && this.fails == fails && this.flaky == flaky
      ensures this.transactional == transactional && this.positionAware == positionAware
      ensures state == s && position == None && running == None
    {
      this.apply, this.fails, this.flaky := apply, fails, flaky;
      this.transactional, this.positionAware := transactional, positionAware;
      state, position, running, before := s, None, None, s;
    }

    method MayFail() returns (b: bool)
      ensures b ==> flaky
    {
      b := *;
      b := b && flaky;
    }

    method Begin() returns (ok: bool)
      modifies this`running
      ensures ok ==> old(running).None? && running == Some(Transaction(state, position))
      ensures !ok ==> running == old(running) && (flaky || running.Some?)
    {
      var bad := MayFail();
      ok := running.None? && !bad;
      if ok {
        running := Some(Transaction(state, position));
      }
    }

    /** Whether it succeeds or not, the transaction is gone. */
    method Rollback() returns (ok: bool)
      modifies this`running
      ensures running == None && (ok ==> old(running).Some?) && (!ok ==> flaky || old(running).None?)
    {
      var bad := MayFail();
      ok := running.Some? && !bad;
      running := None;
    }

    /** All or nothing; a commit that is reported as failed may still have taken place. */
    method Commit() returns (ok: bool, ghost lost: bool)
      requires running.Some?
      modifies this`running, this`state, this`position
      ensures running == None && (!ok || lost ==> flaky)
      ensures Transaction(state, position) == if ok || lost then old(running.value)
                                              else Transaction(old(state), old(position))
    {
      var bad := MayFail();
      var late := MayFail();
      ok, lost := !bad, late;
      if ok || late {
        state, position := running.value.state, running.value.position;
      }
      running := None;
    }

    /** The state that a handler works on. */
    function Current(): S
      reads this
    {
      if transactional && running.Some? then running.value.state else state
    }

    /** A handler that fails may leave anything behind. */
    method CallHandlerFor(f: Fact) returns (ok: bool)
      modifies this`running, this`state, this`before
      ensures running.Some? == old(running).Some?
      ensures running.Some? ==> running.value.position == old(running.value.position)
      ensures transactional && running.Some? ==> state == old(state)
      ensures !transactional ==> running == old(running)
      ensures ok ==> !fails(old(Current()), f) && Current() == apply(old(Current()), f)
      ensures !ok ==> fails(old(Current()), f) || flaky
      ensures before == old(Current())
    {
      before := Current();
      var bad := MayFail();
      ok := !fails(Current(), f) && !bad;
      var s: S := *;
      if ok {
        s := apply(Current(), f);
      }
      if transactional && running.Some? {
        running := Some(running.value.(state := s));
      } else {
        state := s;
      }
    }

    /** `setFactStreamPositionIfAware` */
    method SetPosition(p: int) returns (ok: bool)
      requires transactional ==> running.Some?
      modifies this`running, this`position
      ensures !ok ==> flaky && running == old(running) && position == old(position)
      ensures ok && transactional ==>
        running == Some(old(running).value.(position := Some(p))) && position == old(position)
      ensures ok && !transactional ==>
        running == old(running) && position == if positionAware then Some(p) else old(position)
    {
      var bad := MayFail();
      ok := !(bad && (transactional || positionAware));
      if ok {
        if transactional {
          running := Some(running.value.(position := Some(p)));
        } else if positionAware {
          position := Some(p);
        }
      }
    }

    /** What others see after a batch: the first `k` of its facts were applied to what they
        saw before, and the position is that of the last of them. */
    ghost predicate Sees(s: S, p: Option<int>, facts: seq<Fact>, k: nat)
      requires k <= |facts|
      reads this
    {
      && state == Fold(apply, s, facts[..k])
      && position == PositionAfter(p, facts[..k])
    }

    /** `doApply` for a transactional projection. Whatever fails, what others see is the effect
        of the first `k` facts and the position of the last of these; if only handlers fail, and
        do so for good, then these are the ones in front of the first occurrence of the
        failing fact. */
    method DoApply(facts: seq<Fact>) returns (ok: bool, ghost k: nat)
      requires transactional
      modifies this
      ensures k <= |facts| && Sees(old(state), old(position), facts, k)
      ensures ok ==> k == |facts|
      ensures old(running).Some? ==> !ok && k == 0 && running == old(running)
      ensures old(running).None? ==> running == None
      ensures !flaky && old(running).None? ==>
                k == Kept(apply, fails, old(state), facts)
                && (ok <==> FirstFailing(apply, fails, old(state), facts) == |facts|)
      decreases |facts|
    {
      ghost var s, p := state, position;
      k := 0;
      ok := Begin();
      if !ok {
        return;
      }
      var i := 0;
      while i < |facts|
        invariant i <= |facts|
        invariant state == s && position == p && running == Some(Transaction(Fold(apply, s, facts[..i]), p))
        invariant !flaky ==> i <= FirstFailing(apply, fails, s, facts)
      {
        FirstFailingFails(apply, fails, s, facts, i);
        ok := CallHandlerFor(facts[i]);
        if !ok {
          var rolledBack := Rollback();
          if rolledBack {
            var n := IndexOf(facts, facts[i]);
            if !flaky {
              FirstFailingPrefix(apply, fails, s, facts, n);
            }
            if n > 0 {
              var again;
              again, k := DoApply(facts[..n]);
              assert facts[..n][..k] == facts[..k];
            }
          }
          return false, k;
        }
        assert facts[..i + 1][..i] == facts[..i];
        i := i + 1;
      }
      assert facts[..i] == facts;
      if facts != [] {
        ok := SetPosition(facts[|facts| - 1].id);
        if !ok {
          var rolledBack := Rollback();
          return;
        }
      }
      ghost var lost;
      ok, lost := Commit();
      if Transaction(state, position) == Transaction(Fold(apply, s, facts), PositionAfter(p, facts)) {
        k := |facts|;
      }
    }

    /** `doApply` for a projection without transactions: the position is that of the last fact
        that was applied and noted, and it never runs ahead of the state. */
    method DoApplyDirectly(facts: seq<Fact>) returns (ok: bool, ghost k: nat)
      requires !transactional
      modifies this
      ensures k <= |facts| && running == old(running)
      ensures position == if positionAware then PositionAfter(old(position), facts[..k]) else old(position)
      ensures ok ==> k == |facts| && state == Fold(apply, old(state), facts)
      ensures !ok ==> k < |facts| && before == Fold(apply, old(state), facts[..k])
      ensures !flaky ==> k == FirstFailing(apply, fails, old(state), facts)
    {
      ghost var s, p := state, position;
      ok := true;
      var i := 0;
      k := 0;
      while i < |facts|
        invariant k == i <= |facts| && ok && running == old(running)
        invariant state == Fold(apply, s, facts[..i])
        invariant position == if positionAware then PositionAfter(p, facts[..i]) else p
        invariant !flaky ==> i <= FirstFailing(apply, fails, s, facts)
      {
        FirstFailingFails(apply, fails, s, facts, i);
        ok := CallHandlerFor(facts[i]);
        if ok {
          ok := SetPosition(facts[i].id);
        }
        if !ok {
          return;
        }
        assert facts[..i + 1][..i] == facts[..i];
        i, k := i + 1, k + 1;
      }
      assert facts[..i] == facts;
    }
  }
}
