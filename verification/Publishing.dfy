/** Publishing to a remote store over a connection that fails (`GrpcFactStore.publish`). */
module Publishing {
  import opened FactLog
  import opened Retries

  // ---- the remote store -----------------------------------------------------------------

  predicate HasId(log: seq<Fact>, id: int)
  {
    exists i :: 0 <= i < |log| && log[i].id == id
  }

  predicate NoneKnown(log: seq<Fact>, facts: seq<Fact>)
  {
    forall i :: 0 <= i < |facts| ==> !HasId(log, facts[i].id)
  }

  lemma HasIdMore(log: seq<Fact>, log': seq<Fact>, id: int)
    requires HasId(log, id) && log <= log'
    ensures HasId(log', id)
  {
    var i :| 0 <= i < |log| && log[i].id == id;
    assert log'[i].id == id;
  }

  /** What a call to the remote store comes to: a failure may mean that the request was lost,
      or only the acknowledgement. */
  datatype Reply = Accepted | Duplicate | Failure(retryable: bool)

  /** The facts that a call has added: their places in the list and in the log. */
  datatype Place = Place(idx: nat, pos: nat)

  function Positions(added: seq<Place>): (r: seq<nat>)
    ensures |r| == |added| && forall i :: 0 <= i < |added| ==> r[i] == added[i].pos
  {
    seq(|added|, i requires 0 <= i < |added| => added[i].pos)
  }

  lemma PositionsConcat(a: seq<Place>, b: seq<Place>)
    ensures Positions(a + b) == Positions(a) + Positions(b)
  {
  }

  /** A whole batch that was added behind the first `pos` of the log. */
  function Batch(n: nat, pos: nat): (r: seq<Place>)
    ensures |r| == n && forall i :: 0 <= i < n ==> r[i] == Place(i, pos + i)
  {
    seq(n, i requires 0 <= i < n => Place(i, pos + i))
  }

  /** The places in the log of what a call has added. */
  function Mine(owners: seq<int>, call: int): seq<nat>
  {
    if owners == [] then []
    else Mine(owners[..|owners| - 1], call) + if owners[|owners| - 1] == call then [|owners| - 1] else []
  }

  lemma {:induction false} MineMore(owners: seq<int>, caller: int, n: nat, call: int)
    ensures Mine(owners + Owner(caller, n), call)
         == Mine(owners, call) + if caller == call then Positions(Batch(n, |owners|)) else []
  {
    hide Owner, Positions, Batch;
    if n == 0 {
      assert owners + Owner(caller, 0) == owners && Positions(Batch(0, |owners|)) == [];
    } else {
      var front, k := owners + Owner(caller, n - 1), |owners|;
      MineMore(owners, caller, n - 1, call);
      assert owners + Owner(caller, n) == front + [caller] && (front + [caller])[..|front|] == front;
      assert Positions(Batch(n, k)) == Positions(Batch(n - 1, k)) + [k + n - 1];
    }
  }

  function Owner(caller: int, n: nat): (r: seq<int>)
    ensures |r| == n && forall i :: 0 <= i < n ==> r[i] == caller
  {
    seq(n, i => caller)
  }

  lemma {:induction false} NoneMine(owners: seq<int>, call: int)
    requires call !in owners
    ensures Mine(owners, call) == []
  {
    if owners != [] {
      NoneMine(owners[..|owners| - 1], call);
    }
  }

  class RemoteStore {
    var log: seq<Fact>
    var faults: nat                 // how often the connection is going to fail from now on
    ghost var owners: seq<int>      // the call that has added each fact
    ghost var handshakes: nat       // how often a client has opened the connection

    ghost predicate Valid()
      reads this
    {
      DistinctIds(log) && |owners| == |log|
    }

    constructor (faults: nat)
      ensures Valid() && log == [] && this.faults == faults && handshakes == 0
    {
      log, this.faults, owners, handshakes := [], faults, [], 0;
    }

    /** Whether the connection fails now. */
    method Fails() returns (b: bool)
      modifies this`faults
      ensures faults == old(faults) - if b then 1 else 0
    {
      b := *;
      b := b && faults > 0;
      if b {
        faults := faults - 1;
      }
    }

    /** The connection is opened, or that fails. */
    method Handshake() returns (failed: bool)
      modifies this`faults, this`handshakes
      ensures faults == old(faults) - (if failed then 1 else 0) && handshakes == old(handshakes) + 1
    {
      failed := Fails();
      handshakes := handshakes + 1;
    }

    /** One batch, all or nothing. */
    method Append(facts: seq<Fact>, ghost caller: int) returns (done: bool)
      requires Valid()
      modifies this`log, this`owners
      ensures Valid() && done == (NoneKnown(old(log), facts) && DistinctIds(facts))
      ensures log == if done then old(log) + facts else old(log)
      ensures owners == if done then old(owners) + Owner(caller, |facts|) else old(owners)
    {
      done := NoneKnown(log, facts) && DistinctIds(facts);
      if done {
        Concatenated(log, facts);
        log, owners := log + facts, owners + Owner(caller, |facts|);
      }
    }

    lemma Concatenated(a: seq<Fact>, b: seq<Fact>)
      requires DistinctIds(a) && DistinctIds(b) && NoneKnown(a, b)
      ensures DistinctIds(a + b)
    {
      var c := a + b;
      forall i, j | 0 <= i < j < |c|
        ensures c[i].id != c[j].id
      {
        if i < |a| <= j {
          assert !HasId(a, b[j - |a|].id);
        }
      }
    }

    /** Others publish. */
    method OthersPublish(ghost call: int)
      requires Valid()
      modifies this`log, this`owners
      ensures Valid() && old(log) <= log && Mine(owners, call) == old(Mine(owners, call))
    {
      hide DistinctIds, NoneKnown, Mine, Owner;
      var n := AnyNumber();
      for i := 0 to n
        invariant Valid() && old(log) <= log && Mine(owners, call) == old(Mine(owners, call))
      {
        var facts: seq<Fact> := *;
        MineMore(owners, call + 1, |facts|, call);
        var done := Append(facts, call + 1);
      }
    }

    /** A remote `publish`. `before` is the log when the request arrives. */
    method Publish(facts: seq<Fact>, ghost call: int) returns (reply: Reply, ghost added: bool, ghost before: seq<Fact>)
      requires Valid()
      modifies this`log, this`owners, this`faults
      ensures Valid() && old(log) <= before <= log && (added ==> before + facts <= log)
      ensures added ==> NoneKnown(before, facts)
      ensures Mine(owners, call) == old(Mine(owners, call)) + if added then Positions(Batch(|facts|, |before|)) else []
      ensures reply == Accepted ==> added
      ensures reply == Duplicate ==> !added && !(NoneKnown(before, facts) && DistinctIds(facts))
      ensures faults == old(faults) - if reply.Failure? then 1 else 0
    {
      hide DistinctIds, NoneKnown, Mine, Owner, Positions, Batch;
      OthersPublish(call);
      before, added := log, false;
      var lost: bool, retryable: bool := *, *;
      var failed := Fails();
      reply := Failure(retryable);
      if !failed || !lost {
        MineMore(owners, call, |facts|, call);
        var done := Append(facts, call);
        added := done;
        if !failed {
          reply := if done then Accepted else Duplicate;
        }
      }
      OthersPublish(call);
    }
  }

  // ---- the client -------------------------------------------------------------------------

  /** The facts that a call has added, in the order of the log, are in the order of the list,
      and nothing in front of an added fact is missing from the log. */
  predicate InListOrder(facts: seq<Fact>, added: seq<Place>, log: seq<Fact>)
  {
    && (forall i :: 0 <= i < |added| ==> Fits(facts, added[i], log))
    && (forall i, j :: 0 <= i < j < |added| ==> added[i].idx < added[j].idx && added[i].pos < added[j].pos)
    && (added != [] ==> AllThere(facts, added[|added| - 1].idx + 1, log))
  }

  predicate Fits(facts: seq<Fact>, p: Place, log: seq<Fact>)
  {
    p.idx < |facts| && p.pos < |log| && log[p.pos] == facts[p.idx]
  }

  /** The first `n` of the facts are in the log. */
  predicate AllThere(facts: seq<Fact>, n: nat, log: seq<Fact>)
  {
    forall i :: 0 <= i < n && i < |facts| ==> HasId(log, facts[i].id)
  }

  /** What was added came behind the first `n` of the log. */
  predicate Behind(added: seq<Place>, n: nat)
  {
    forall i :: 0 <= i < |added| ==> added[i].pos >= n
  }

  lemma AllThereMore(facts: seq<Fact>, n: nat, log: seq<Fact>, log': seq<Fact>)
    requires AllThere(facts, n, log) && log <= log'
    ensures AllThere(facts, n, log')
  {
    forall i | 0 <= i < n && i < |facts|
      ensures HasId(log', facts[i].id)
    {
      HasIdMore(log, log', facts[i].id);
    }
  }

  lemma InListOrderMore(facts: seq<Fact>, added: seq<Place>, log: seq<Fact>, log': seq<Fact>)
    requires InListOrder(facts, added, log) && log <= log'
    ensures InListOrder(facts, added, log')
  {
    hide AllThere;
    if added != [] {
      AllThereMore(facts, added[|added| - 1].idx + 1, log, log');
    }
  }

  lemma SomeKnown(facts: seq<Fact>, added: seq<Place>, log: seq<Fact>)
    requires InListOrder(facts, added, log) && added != []
    ensures !NoneKnown(log, facts)
  {
    assert Fits(facts, added[0], log);
    assert HasId(log, facts[added[0].idx].id);
  }

  /** A batch is accepted only if nothing was added before, and then all of it is there. */
  lemma BatchAdded(facts: seq<Fact>, added: seq<Place>, before: seq<Fact>, log: seq<Fact>)
    requires InListOrder(facts, added, before) && NoneKnown(before, facts) && before + facts <= log
    ensures added == [] && AllThere(facts, |facts|, log) && InListOrder(facts, Batch(|facts|, |before|), log)
  {
    if added != [] {
      SomeKnown(facts, added, before);
    }
    forall i | 0 <= i < |facts|
      ensures log[|before| + i] == facts[i] && HasId(log, facts[i].id)
    {
      assert (before + facts)[|before| + i] == facts[i];
    }
  }

  /** One more of the list is published by itself: if it was added, then it was the next. */
  lemma OneAdded(facts: seq<Fact>, added: seq<Place>, j: nat, one: seq<Place>, before: seq<Fact>, log: seq<Fact>)
    requires j < |facts| && InListOrder(facts, added, before) && AllThere(facts, j, before) && before <= log
    requires DistinctIds(log)
    requires InListOrder([facts[j]], one, log) && Behind(one, |before|)
    ensures one == [] || InListOrder(facts, added + [Place(j, one[0].pos)], log)
    ensures |one| <= 1
  {
    if one != [] {
      assert Fits([facts[j]], one[0], log);
      NewId(before, log, one[0].pos);
      InListOrderMore(facts, added, before, log);
      AllThereMore(facts, j, before, log);
      assert HasId(log, facts[j].id);
    }
  }

  lemma NewId(before: seq<Fact>, log: seq<Fact>, p: nat)
    requires before <= log && DistinctIds(log) && |before| <= p < |log|
    ensures !HasId(before, log[p].id)
  {
    assert forall i :: 0 <= i < |before| ==> before[i] == log[i];
  }

  datatype Outcome = Returned | Thrown(retryable: bool)

  class GrpcFactStore {
    const remote: RemoteStore
    const resilience: Resilience
    const ignoreDuplicates: bool
    var initialized: bool

    constructor (remote: RemoteStore, resilience: Resilience, ignoreDuplicates: bool)
      ensures this.remote == remote && this.resilience == resilience && this.ignoreDuplicates == ignoreDuplicates
      ensures !initialized
    {
      this.remote, this.resilience, this.ignoreDuplicates, initialized := remote, resilience, ignoreDuplicates, false;
    }

    ghost predicate Valid()
      reads remote, resilience
    {
      remote.Valid() && resilience.Valid()
    }

    /** `initializeIfNecessary`: the handshake may fail. */
    method InitializeIfNecessary() returns (o: Outcome)
      modifies this`initialized, remote`faults, remote`handshakes
      ensures initialized <==> o.Returned?
      ensures old(initialized) ==> o.Returned?
      ensures remote.handshakes == old(remote.handshakes) + if old(initialized) then 0 else 1
      ensures remote.faults == old(remote.faults) - if o.Thrown? then 1 else 0
    {
      o := Returned;
      if !initialized {
        var retryable: bool := *;
        var failed := remote.Handshake();
        if failed {
          o := Thrown(retryable);
        } else {
          initialized := true;
        }
      }
    }

    /** A call that throws has met a fault of the connection, unless facts of it were known and
        duplicates are not ignored. */
    ghost predicate ThrownFor(o: Outcome, facts: seq<Fact>, faults: nat)
      requires o.Thrown?
      reads this, remote, resilience
    {
      || remote.faults < faults
      || (!ignoreDuplicates && !o.retryable && !(NoneKnown(remote.log, facts) && DistinctIds(facts)))
    }

    /** No retry is allowed any more. */
    ghost predicate UsedUp()
      reads this, resilience
    {
      resilience.enabled ==>
        CountIn(resilience.all, resilience.clock - resilience.window, resilience.clock) >= resilience.attempts
    }

    /** `publish`, as a call that is the `call`th. If it returns then all facts are in the log;
        what it has added, which is all that the log holds of this call, is in the order of the
        list; and without `ignoreDuplicates` it has added all of them itself. If it throws then
        the connection has failed, more often than retries are allowed if that could be retried,
        or facts were known that may not be ignored. */
    method Publish(facts: seq<Fact>, ghost call: int) returns (o: Outcome, ghost added: seq<Place>)
      requires Valid() && call !in remote.owners
      modifies this, remote, resilience
      ensures Valid() && old(remote.log) <= remote.log && remote.faults <= old(remote.faults)
      ensures Positions(added) == Mine(remote.owners, call) && InListOrder(facts, added, remote.log)
      ensures o.Returned? ==> AllThere(facts, |facts|, remote.log)
      ensures o.Returned? && !ignoreDuplicates ==> |added| == |facts|
      ensures o.Thrown? && ignoreDuplicates ==> remote.faults < old(remote.faults)
      ensures o.Thrown? && remote.faults == old(remote.faults) ==>
        !(NoneKnown(remote.log, facts) && DistinctIds(facts))
      ensures o == Thrown(true) && resilience.enabled ==>
        CountIn(resilience.all, resilience.clock - resilience.window, resilience.clock) >= resilience.attempts
      ensures Unchecked(resilience.checked)
           <= old(Unchecked(resilience.checked)) + 1 + |facts| * (1 + old(remote.faults) - remote.faults)
      ensures |resilience.all| > |old(resilience.all)|
      ensures |resilience.all| + (if o.Thrown? then 1 else 0)
            > |old(resilience.all)| + old(remote.faults) - remote.faults
      ensures remote.handshakes + (if o.Thrown? then 1 else 0)
           >= old(remote.handshakes) + old(remote.faults) - remote.faults
    {
      hide DistinctIds, InListOrder, AllThere, Resilience.Valid, Mine, Positions, NoneKnown, CountIn, Unchecked,
        GrpcFactStore.Attempts;
      NoneMine(remote.owners, call);
      o, added := RunAndHandle(facts, call);
      OneAttempt(|facts|, 1 + old(remote.faults) - remote.faults);
    }

    /** `runAndHandle` around the body of `publish`. All attempts but the first one, and the first
        ones for each fact of a batch, are retries that were allowed. */
    method RunAndHandle(facts: seq<Fact>, ghost call: int) returns (o: Outcome, ghost added: seq<Place>)
      requires Valid()
      modifies this, remote, resilience
      ensures Valid() && old(remote.log) <= remote.log && remote.faults <= old(remote.faults)
      ensures Mine(remote.owners, call) == old(Mine(remote.owners, call)) + Positions(added)
      ensures InListOrder(facts, added, remote.log) && Behind(added, |old(remote.log)|)
      ensures o.Returned? ==> AllThere(facts, |facts|, remote.log)
      ensures o.Returned? && !ignoreDuplicates ==> |added| == |facts|
      ensures o.Thrown? ==> ThrownFor(o, facts, old(remote.faults)) && (o.retryable ==> UsedUp())
      ensures Unchecked(resilience.checked)
           <= old(Unchecked(resilience.checked)) + Attempts(|facts|, 1 + old(remote.faults) - remote.faults)
      ensures |resilience.all| > |old(resilience.all)| && (o.Returned? ==> initialized)
      ensures |resilience.all| + (if o.Thrown? then 1 else 0)
            > |old(resilience.all)| + old(remote.faults) - remote.faults
      ensures remote.handshakes + (if o.Thrown? then 1 else 0)
           >= old(remote.handshakes) + old(remote.faults) - remote.faults
      decreases |facts|
    {
      hide DistinctIds, InListOrder, AllThere, Resilience.Valid, Mine, Positions, Behind, NoneKnown, CountIn, Unchecked,
        GrpcFactStore.Attempts;
      ghost var log0, mine0, faults0 := remote.log, Mine(remote.owners, call), remote.faults;
      ghost var first, rounds: nat := Unchecked(resilience.checked), 0;
      o, added := Thrown(true), [];
      NothingAdded(facts, remote.log);
      while true
        invariant Valid() && log0 <= remote.log && Mine(remote.owners, call) == mine0 + Positions(added)
        invariant InListOrder(facts, added, remote.log) && Behind(added, |log0|)
        invariant remote.faults + rounds <= faults0 && (rounds > 0 ==> resilience.allowed)
        invariant Unchecked(resilience.checked) <= first + Attempts(|facts|, rounds)
        invariant |resilience.all| >= |old(resilience.all)| + faults0 - remote.faults && (rounds > 0 ==> !initialized)
        invariant remote.handshakes + (if rounds > 0 then 1 else 0) >= old(remote.handshakes) + faults0 - remote.faults
        decreases remote.faults
      {
        ghost var before, n := remote.faults, Unchecked(resilience.checked);
        UncheckedSnoc(resilience.checked, resilience.allowed);
        resilience.RegisterAttempt();
        o := InitializeIfNecessary();
        if o.Returned? {
          ghost var more, log := [], remote.log;
          o, more := Block(facts, added, call);
          PositionsConcat(added, more);
          BehindConcat(added, more, |log0|, |log|);
          added := added + more;
        }
        AttemptsMore(|facts|, rounds, 1 + faults0 - remote.faults);
        if o.Returned? {
          return;
        }
        var retry := resilience.ShouldRetry(o.retryable);
        if !retry {
          return;
        }
        initialized := false;
        rounds := rounds + 1;
      }
    }

    /** How many attempts need no check in so many rounds with `n` facts. */
    static ghost function Attempts(n: nat, rounds: nat): nat
    {
      if rounds == 0 then 0 else 1 + if n <= 1 then 0 else n * rounds
    }

    static lemma AttemptsMore(n: nat, rounds: nat, most: nat)
      ensures Attempts(n, 0) == 0
      ensures Attempts(n, rounds + 1)
           == Attempts(n, rounds) + (if rounds == 0 then 1 else 0) + if n <= 1 then 0 else n
      ensures rounds < most ==> Attempts(n, rounds + 1) <= Attempts(n, most)
    {
      if rounds < most && n > 1 {
        assert n * (most - (rounds + 1)) >= 0;
        assert n * most == n * (rounds + 1) + n * (most - (rounds + 1));
      }
    }

    static lemma OneAttempt(n: nat, rounds: nat)
      ensures Attempts(n, rounds) <= 1 + n * rounds && (n <= 1 ==> Attempts(n, rounds) <= 1)
    {
    }

    lemma NothingAdded(facts: seq<Fact>, log: seq<Fact>)
      ensures InListOrder(facts, [], log) && Behind([], |log|) && Positions([]) == []
    {
    }

    lemma BehindConcat(a: seq<Place>, b: seq<Place>, n: nat, m: nat)
      requires Behind(a, n) && Behind(b, m) && n <= m
      ensures Behind(a + b, n)
    {
    }

    /** One round: the batch, or one by one if some of it is known already. */
    method Block(facts: seq<Fact>, ghost was: seq<Place>, ghost call: int) returns (o: Outcome, ghost more: seq<Place>)
      requires Valid() && InListOrder(facts, was, remote.log) && initialized
      modifies this, remote, resilience
      ensures Valid() && old(remote.log) <= remote.log && remote.faults <= old(remote.faults)
      ensures Mine(remote.owners, call) == old(Mine(remote.owners, call)) + Positions(more)
      ensures InListOrder(facts, was + more, remote.log) && Behind(more, |old(remote.log)|)
      ensures o.Returned? ==> AllThere(facts, |facts|, remote.log)
      ensures o.Returned? && !ignoreDuplicates ==> |was + more| == |facts|
      ensures o.Thrown? ==> ThrownFor(o, facts, old(remote.faults))
      ensures Unchecked(resilience.checked)
           <= old(Unchecked(resilience.checked)) + if |facts| <= 1 then 0 else |facts|
      ensures |resilience.all| + (if o.Thrown? then 1 else 0)
           >= |old(resilience.all)| + old(remote.faults) - remote.faults
      ensures remote.handshakes + (if o.Thrown? then 1 else 0)
           >= old(remote.handshakes) + old(remote.faults) - remote.faults
      ensures |resilience.all| >= |old(resilience.all)| && (o.Returned? ==> initialized)
      decreases |facts|, 0
    {
      hide DistinctIds, InListOrder, AllThere, Resilience.Valid, NoneKnown, HasId, Mine, Positions, Behind, Unchecked;
      more := [];
      ghost var log0 := remote.log;
      NothingAdded(facts, log0);
      var reply;
      ghost var accepted, before;
      reply, accepted, before := remote.Publish(facts, call);
      InListOrderMore(facts, was, log0, before);
      if accepted {
        BatchAdded(facts, was, before, remote.log);
        more := Batch(|facts|, |before|);
        BatchBehind(|facts|, |before|, |log0|);
        assert was + more == more;
      } else {
        InListOrderMore(facts, was, before, remote.log);
        assert was + more == was;
      }
      match reply
      case Accepted => o := Returned;
      case Failure(retryable) => o := Thrown(retryable);
      case Duplicate =>
        if !ignoreDuplicates {
          StillKnown(facts, before, remote.log);
          o := Thrown(false);
        } else if |facts| > 1 {
          ghost var log := remote.log;
          o, more := OneByOne(facts, was, call);
          BehindEarlier(more, |log|, |log0|);
        } else {
          OnlyOne(facts, before, remote.log);
          o := Returned;
        }
    }

    lemma StillKnown(facts: seq<Fact>, before: seq<Fact>, log: seq<Fact>)
      requires !(NoneKnown(before, facts) && DistinctIds(facts)) && before <= log
      ensures !(NoneKnown(log, facts) && DistinctIds(facts))
    {
      if i :| 0 <= i < |facts| && HasId(before, facts[i].id) {
        HasIdMore(before, log, facts[i].id);
      }
    }

    lemma BatchBehind(n: nat, pos: nat, from: nat)
      requires from <= pos
      ensures Behind(Batch(n, pos), from)
    {
    }

    lemma BehindEarlier(added: seq<Place>, n: nat, m: nat)
      requires Behind(added, n) && m <= n
      ensures Behind(added, m)
    {
    }

    lemma OnlyOne(facts: seq<Fact>, before: seq<Fact>, log: seq<Fact>)
      requires |facts| <= 1 && !(NoneKnown(before, facts) && DistinctIds(facts)) && before <= log
      ensures AllThere(facts, |facts|, log)
    {
      if |facts| == 1 {
        HasIdMore(before, log, facts[0].id);
      }
    }

    method OneByOne(facts: seq<Fact>, ghost was: seq<Place>,
                    ghost call: int) returns (o: Outcome, ghost more: seq<Place>)
      requires Valid() && InListOrder(facts, was, remote.log) && |facts| > 1 && ignoreDuplicates && initialized
      modifies this, remote, resilience
      ensures Valid() && old(remote.log) <= remote.log && remote.faults <= old(remote.faults)
      ensures o.Thrown? ==> remote.faults < old(remote.faults)
      ensures Unchecked(resilience.checked) <= old(Unchecked(resilience.checked)) + |facts|
      ensures |resilience.all| >= |old(resilience.all)| + old(remote.faults) - remote.faults
      ensures o.Returned? ==> |resilience.all| >= |old(resilience.all)| + |facts| && initialized
      ensures remote.handshakes + (if o.Thrown? then 1 else 0)
           >= old(remote.handshakes) + old(remote.faults) - remote.faults
      ensures Mine(remote.owners, call) == old(Mine(remote.owners, call)) + Positions(more)
      ensures InListOrder(facts, was + more, remote.log) && Behind(more, |old(remote.log)|)
      ensures o.Returned? ==> AllThere(facts, |facts|, remote.log)
      decreases |facts|, -1
    {
      hide DistinctIds, InListOrder, Resilience.Valid, HasId, Mine, Positions, Behind, Unchecked;
      ghost var log0, mine0 := remote.log, Mine(remote.owners, call);
      ghost var faults0, first := remote.faults, Unchecked(resilience.checked);
      more := [];
      NothingAdded(facts, log0);
      assert was + more == was;
      o := Returned;
      var j := 0;
      while j < |facts|
        invariant j <= |facts| && Valid() && log0 <= remote.log && Mine(remote.owners, call) == mine0 + Positions(more)
        invariant InListOrder(facts, was + more, remote.log) && AllThere(facts, j, remote.log) && Behind(more, |log0|)
        invariant o.Returned? && remote.faults <= faults0 && Unchecked(resilience.checked) <= first + j && initialized
        invariant |resilience.all| >= |old(resilience.all)| + faults0 - remote.faults
        invariant |resilience.all| >= |old(resilience.all)| + j
        invariant remote.handshakes >= old(remote.handshakes) + faults0 - remote.faults
      {
        ghost var log, one, faults := remote.log, [], remote.faults;
        o, one := RunAndHandle([facts[j]], call);
        OneAttempt(1, 1 + faults - remote.faults);
        more := OneMorePlace(facts, was, more, j, one, log, remote.log, |log0|);
        AllThereMore(facts, j, log, remote.log);
        if o.Thrown? {
          return;
        }
        assert HasId(remote.log, [facts[j]][0].id);
        j := j + 1;
      }
    }

    /** What publishing one fact of the list adds to the places. */
    lemma OneMorePlace(facts: seq<Fact>, was: seq<Place>, more: seq<Place>, j: nat, one: seq<Place>,
                       before: seq<Fact>, log: seq<Fact>, n: nat)
      returns (more': seq<Place>)
      requires j < |facts| && InListOrder(facts, was + more, before) && AllThere(facts, j, before)
      requires before <= log && DistinctIds(log) && Behind(more, n) && n <= |before|
      requires InListOrder([facts[j]], one, log) && Behind(one, |before|)
      ensures InListOrder(facts, was + more', log) && Behind(more', n)
      ensures Positions(more') == Positions(more) + Positions(one)
    {
      hide InListOrder, AllThere, DistinctIds, Positions, Behind;
      OneAdded(facts, was + more, j, one, before, log);
      if one == [] {
        more' := more;
        InListOrderMore(facts, was + more, before, log);
        assert Positions(one) == [] && Positions(more) + [] == Positions(more);
      } else {
        var p := Place(j, one[0].pos);
        more' := more + [p];
        assert was + more' == was + more + [p];
        BehindOne(more, p, one, n, |before|);
        assert Positions(more + [p]) == Positions(more) + [p.pos] && Positions(one) == [p.pos];
      }
    }

    lemma BehindOne(more: seq<Place>, p: Place, one: seq<Place>, n: nat, m: nat)
      requires Behind(more, n) && Behind(one, m) && n <= m && one != [] && p.pos == one[0].pos
      ensures Behind(more + [p], n)
    {
    }
  }
}
