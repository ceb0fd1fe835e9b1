/** The fact log: facts in the order of their serials, and what a specification sees of it. */
module FactLog {
  /** A fact, of which only the identity matters here. */
  datatype Fact = Fact(id: int, payload: int)

  datatype Entry = Entry(serial: nat, fact: Fact)

  type Spec = Fact -> bool

  predicate DistinctIds(facts: seq<Fact>)
  {
    forall i, j :: 0 <= i < j < |facts| ==> facts[i].id != facts[j].id
  }

  /** Serials start above 0 and grow. */
  predicate Increasing(log: seq<Entry>)
  {
    && (forall i :: 0 <= i < |log| ==> log[i].serial > 0)
    && (forall i, j :: 0 <= i < j < |log| ==> log[i].serial < log[j].serial)
  }

  function LastOf(log: seq<Entry>): nat { if log == [] then 0 else log[|log| - 1].serial }

  method AnyNumber() returns (n: nat)
  {
    n :| n >= 0;
  }

  /** The facts of the log that match, in order. */
  function Matching(log: seq<Entry>, spec: Spec): seq<Fact>
  {
    if log == [] then []
    else
      var last := log[|log| - 1].fact;
      Matching(log[..|log| - 1], spec) + if spec(last) then [last] else []
  }

  /** The serial of the last matching fact above `since`, or 0. */
  function LastSerial(log: seq<Entry>, spec: Spec, since: nat): nat
  {
    if log == [] then 0
    else
      var last := log[|log| - 1];
      if spec(last.fact) && last.serial > since then last.serial else LastSerial(log[..|log| - 1], spec, since)
  }

  /** No matching fact of the log lies above `since`. */
  predicate NoneAbove(log: seq<Entry>, spec: Spec, since: nat)
  {
    forall i :: 0 <= i < |log| && spec(log[i].fact) ==> log[i].serial <= since
  }

  lemma {:induction false} LastSerialIsZero(log: seq<Entry>, spec: Spec, since: nat)
    requires Increasing(log)
    ensures LastSerial(log, spec, since) == 0 <==> NoneAbove(log, spec, since)
  {
    if log != [] {
      var front := log[..|log| - 1];
      assert forall i :: 0 <= i < |front| ==> front[i] == log[i];
      LastSerialIsZero(front, spec, since);
      if NoneAbove(front, spec, since) && !(spec(log[|log| - 1].fact) && log[|log| - 1].serial > since) {
        assert NoneAbove(log, spec, since);
      }
    }
  }

  /** The last matching serial of all: nothing matching lies above it, and it is one of the
      log's serials. */
  lemma {:induction false} LastSerialBounds(log: seq<Entry>, spec: Spec)
    requires Increasing(log)
    ensures NoneAbove(log, spec, LastSerial(log, spec, 0))
    ensures LastSerial(log, spec, 0) <= if log == [] then 0 else log[|log| - 1].serial
  {
    if log != [] {
      var front := log[..|log| - 1];
      assert forall i :: 0 <= i < |front| ==> front[i] == log[i];
      LastSerialBounds(front, spec);
      if spec(log[|log| - 1].fact) {
        assert forall i :: 0 <= i < |log| ==> log[i].serial <= log[|log| - 1].serial;
      } else {
        assert LastSerial(log, spec, 0) == LastSerial(front, spec, 0);
        assert forall i :: 0 <= i < |log| && spec(log[i].fact) ==> i < |front|;
      }
    }
  }

  /** Entries that do not match add nothing. */
  lemma {:induction false} MatchingSame(log: seq<Entry>, spec: Spec, k: nat)
    requires k <= |log| && forall i :: k <= i < |log| ==> !spec(log[i].fact)
    ensures Matching(log, spec) == Matching(log[..k], spec)
  {
    if k < |log| {
      var front := log[..|log| - 1];
      assert !spec(log[|log| - 1].fact);
      MatchingSame(front, spec, k);
      assert front[..k] == log[..k];
    } else {
      assert log[..k] == log;
    }
  }

  lemma {:induction false} MatchingMono(log: seq<Entry>, spec: Spec, a: nat, b: nat)
    requires a <= b <= |log|
    ensures Matching(log[..a], spec) <= Matching(log[..b], spec)
  {
    if a < b {
      MatchingMono(log, spec, a, b - 1);
      assert log[..b][..b - 1] == log[..b - 1];
    }
  }

  /** Where in the log the `m`th matching fact is. */
  lemma {:induction false} MatchingAt(log: seq<Entry>, spec: Spec, m: nat) returns (i: nat)
    requires m < |Matching(log, spec)|
    ensures i < |log| && spec(log[i].fact) && log[i].fact == Matching(log, spec)[m]
    ensures Matching(log[..i], spec) == Matching(log, spec)[..m]
  {
    var front := log[..|log| - 1];
    if m < |Matching(front, spec)| {
      i := MatchingAt(front, spec, m);
      assert front[..i] == log[..i];
    } else {
      i := |log| - 1;
    }
  }

  /** A matching fact behind the first `a` entries makes the list longer. */
  lemma MatchingMore(log: seq<Entry>, spec: Spec, a: nat, i: nat)
    requires a <= i < |log| && spec(log[i].fact)
    ensures |Matching(log[..a], spec)| < |Matching(log, spec)|
  {
    MatchingMono(log, spec, a, i);
    MatchingMono(log, spec, i + 1, |log|);
    assert log[..i + 1][..i] == log[..i] && log[..|log|] == log;
  }

  /** Facts that follow each other in the log and all match. */
  lemma {:induction false} MatchingRun(log: seq<Entry>, spec: Spec, a: nat, facts: seq<Fact>)
    requires a + |facts| <= |log| && forall k :: 0 <= k < |facts| ==> log[a + k].fact == facts[k] && spec(facts[k])
    ensures Matching(log[..a + |facts|], spec) == Matching(log[..a], spec) + facts
    decreases |facts|
  {
    if facts != [] {
      var front, n := facts[..|facts| - 1], a + |facts|;
      MatchingRun(log, spec, a, front);
      assert log[..n][..n - 1] == log[..a + |front|];
      assert facts == front + [facts[|facts| - 1]];
      assert log[..n][n - 1].fact == facts[|facts| - 1];
    } else {
      assert log[..a + |facts|] == log[..a];
    }
  }

  /** The state that handlers leave behind when they are called for each of the facts. */
  function Fold<S>(apply: (S, Fact) -> S, s: S, facts: seq<Fact>): S
  {
    if facts == [] then s else apply(Fold(apply, s, facts[..|facts| - 1]), facts[|facts| - 1])
  }

  lemma {:induction false} FoldAppend<S>(apply: (S, Fact) -> S, s: S, a: seq<Fact>, b: seq<Fact>)
    ensures Fold(apply, s, a + b) == Fold(apply, Fold(apply, s, a), b)
  {
    if b == [] {
      assert a + b == a;
    } else {
      FoldAppend(apply, s, a, b[..|b| - 1]);
      assert (a + b)[..|a + b| - 1] == a + b[..|b| - 1];
    }
  }
}
