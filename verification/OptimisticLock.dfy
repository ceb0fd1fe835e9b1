/** Optimistic locking (`WithOptimisticLock`, `AbstractFactStore`, `Locked`): clients on one
    store, each step of one between any steps of the others. */
module OptimisticLock {
  import opened Options
  import opened FactLog

  type Client = int

  /** What a token stands for: `serial` is that of the last fact, matching or not, that was
      taken into account. */
  datatype State = State(spec: Spec, serial: nat)

  /** A publish that took effect: its facts start at position `at` of the log. A locked one
      was decided on `seen`, the matching facts as the client had them. */
  datatype Commit = Commit(client: Client, at: nat, facts: seq<Fact>, spec: Option<Spec>, seen: seq<Fact>)

  predicate CommitOk(log: seq<Entry>, c: Commit)
  {
    && c.at + |c.facts| <= |log|
    && (forall i :: 0 <= i < |c.facts| ==> log[c.at + i].fact == c.facts[i])
    && (c.spec.Some? ==> c.seen == Matching(log[..c.at], c.spec.value))
  }

  /** The log is the result of the commits one after the other, each decided on exactly what
      the ones before it had left. */
  predicate Serial(log: seq<Entry>, commits: seq<Commit>)
  {
    && (forall i :: 0 <= i < |commits| ==> CommitOk(log, commits[i]))
    && (forall i :: 0 <= i < |commits| ==> commits[i].at == Start(commits, i))
    && |log| == Start(commits, |commits|)
  }

  /** How many facts the first `n` commits have published. */
  function Start(commits: seq<Commit>, n: nat): nat
    requires n <= |commits|
  {
    if n == 0 then 0 else Start(commits, n - 1) + |commits[n - 1].facts|
  }

  lemma {:induction false} StartPrefix(a: seq<Commit>, c: Commit, n: nat)
    requires n <= |a|
    ensures Start(a + [c], n) == Start(a, n)
  {
    if n != 0 {
      StartPrefix(a, c, n - 1);
    }
  }

  lemma CommitStays(log: seq<Entry>, log': seq<Entry>, c: Commit)
    requires CommitOk(log, c) && log <= log'
    ensures CommitOk(log', c)
  {
    assert log'[..c.at] == log[..c.at];
  }

  predicate NewCommit(log: seq<Entry>, log': seq<Entry>, c: Commit)
  {
    && log <= log' && c.at == |log| && |log'| == |log| + |c.facts|
    && (forall i :: 0 <= i < |c.facts| ==> log'[|log| + i].fact == c.facts[i])
    && (c.spec.Some? ==> c.seen == Matching(log, c.spec.value))
  }

  lemma NewCommitOk(log: seq<Entry>, log': seq<Entry>, c: Commit)
    requires NewCommit(log, log', c)
    ensures CommitOk(log', c)
  {
    assert log'[..|log|] == log;
  }

  /** A new commit at the end keeps the history serial. */
  lemma SerialSnoc(log: seq<Entry>, log': seq<Entry>, commits: seq<Commit>, c: Commit)
    requires Serial(log, commits) && NewCommit(log, log', c)
    ensures Serial(log', commits + [c])
  {
    NewCommitOk(log, log', c);
    hide CommitOk, Matching;
    var more := commits + [c];
    forall i | 0 <= i < |more|
      ensures CommitOk(log', more[i]) && more[i].at == Start(more, i)
    {
      StartPrefix(commits, c, i);
      if i < |commits| {
        CommitStays(log, log', commits[i]);
      }
    }
    StartPrefix(commits, c, |commits|);
  }

  /** No update is lost: what a locked commit was decided on includes the facts of every
      earlier commit that its specification covers. */
  lemma NothingIsLost(log: seq<Entry>, commits: seq<Commit>, i: nat, j: nat)
    requires Serial(log, commits) && i < j < |commits| && commits[j].spec.Some?
    requires forall k :: 0 <= k < |commits[i].facts| ==> commits[j].spec.value(commits[i].facts[k])
    ensures Matching(log[..commits[i].at], commits[j].spec.value) + commits[i].facts <= commits[j].seen
  {
    hide Serial, Matching, Start;
    OneAfterTheOther(log, commits, i, j);
    Included(log, commits[i], commits[j]);
  }

  lemma Included(log: seq<Entry>, a: Commit, b: Commit)
    requires CommitOk(log, a) && CommitOk(log, b) && a.at + |a.facts| <= b.at && b.spec.Some?
    requires forall k :: 0 <= k < |a.facts| ==> b.spec.value(a.facts[k])
    ensures Matching(log[..a.at], b.spec.value) + a.facts <= b.seen
  {
    hide Matching;
    MatchingRun(log, b.spec.value, a.at, a.facts);
    MatchingMono(log, b.spec.value, a.at + |a.facts|, b.at);
  }

  lemma SerialAt(log: seq<Entry>, commits: seq<Commit>, i: nat)
    requires Serial(log, commits) && i < |commits|
    ensures CommitOk(log, commits[i]) && commits[i].at == Start(commits, i)
  {
    hide CommitOk, Start;
  }

  lemma OneAfterTheOther(log: seq<Entry>, commits: seq<Commit>, i: nat, j: nat)
    requires Serial(log, commits) && i < j < |commits|
    ensures CommitOk(log, commits[i]) && CommitOk(log, commits[j])
    ensures commits[i].at + |commits[i].facts| <= commits[j].at
  {
    hide CommitOk, Serial;
    SerialAt(log, commits, i);
    SerialAt(log, commits, j);
    StartMono(commits, i + 1, j);
  }

  lemma {:induction false} StartMono(commits: seq<Commit>, a: nat, b: nat)
    requires a <= b <= |commits|
    ensures Start(commits, a) <= Start(commits, b)
  {
    if a < b {
      StartMono(commits, a, b - 1);
    }
  }

  /** The commits of one client. */
  function Own(commits: seq<Commit>, me: Client): seq<Commit>
  {
    if commits == [] then []
    else
      var last := commits[|commits| - 1];
      Own(commits[..|commits| - 1], me) + if last.client == me then [last] else []
  }

  lemma OwnSnoc(commits: seq<Commit>, c: Commit, me: Client)
    ensures Own(commits + [c], me) == Own(commits, me) + if c.client == me then [c] else []
  {
    assert (commits + [c])[..|commits|] == commits;
  }

  /** What a token promises: nothing that matches lay above its serial when it was taken,
      after the first `taken` entries, and everything since then does. */
  predicate TokenOk(log: seq<Entry>, s: State, taken: nat)
  {
    && taken <= |log|
    && (forall i :: 0 <= i < taken && s.spec(log[i].fact) ==> log[i].serial <= s.serial)
    && (forall i :: taken <= i < |log| ==> log[i].serial > s.serial)
    && s.serial <= LastOf(log)
  }

  lemma TokenOkGrows(log: seq<Entry>, log': seq<Entry>, s: State, taken: nat)
    requires TokenOk(log, s, taken) && log <= log' && Increasing(log')
    ensures TokenOk(log', s, taken)
  {
  }

  /** If nothing matching lies above the token's serial, then nothing matching was published
      since the token was taken, so whoever has looked since then has seen all there is. */
  lemma NothingMissed(log: seq<Entry>, s: State, taken: nat, k: nat)
    requires TokenOk(log, s, taken) && taken <= k <= |log| && NoneAbove(log, s.spec, s.serial)
    ensures Matching(log[..k], s.spec) == Matching(log, s.spec)
  {
    MatchingSame(log, s.spec, k);
  }

  /** Who took a token, and how long the log was then. */
  datatype Info = Info(owner: Client, taken: nat)

  class FactStore {
    const flaky: bool           // whether its calls may fail
    var log: seq<Entry>
    var tokens: map<nat, State>
    var nextToken: nat
    var info: map<nat, Info>    // kept by the model, not by the store

    ghost var commits: seq<Commit>

    ghost predicate TokensOk()
      reads this
    {
      && (forall t :: t in tokens ==> t < nextToken && t in info)
      && (forall t :: t in tokens ==> TokenOk(log, tokens[t], info[t].taken))
    }

    ghost predicate Valid()
      reads this
    {
      Increasing(log) && Serial(log, commits) && TokensOk()
    }

    /** The tokens of a client. */
    ghost function Mine(me: Client): map<nat, (State, Info)>
      reads this
    {
      map t | t in tokens && t in info && info[t].owner == me :: (tokens[t], info[t])
    }

    /** All that the steps of other clients can do to `me`: the log grows, but neither its
        tokens nor its commits change. */
    twostate predicate Interfered(me: Client)
      reads this
    {
      Valid() && old(log) <= log && Mine(me) == old(Mine(me)) && Own(commits, me) == old(Own(commits, me))
    }

    constructor (flaky: bool)
      ensures Valid() && log == [] && tokens == map[] && commits == [] && this.flaky == flaky
    {
      this.flaky := flaky;
      log, tokens, nextToken := [], map[], 0;
      info, commits := map[], [];
    }

    /** `publish`: the facts get the next serials, in one step. */
    method Publish(facts: seq<Fact>, ghost c: Commit)
      requires Valid() && c.at == |log| && c.facts == facts && (c.spec.Some? ==> c.seen == Matching(log, c.spec.value))
      modifies this`log, this`commits
      ensures Valid() && old(log) <= log && |log| == |old(log)| + |facts| && commits == old(commits) + [c]
      ensures forall me :: me != c.client ==> Interfered(me)
    {
      hide Serial, Matching, Increasing;
      ghost var log0 := log;
      AppendAll(facts);
      assert NewCommit(log0, log, c);
      SerialSnoc(log0, log, commits, c);
      forall me ensures Own(commits + [c], me) == Own(commits, me) + if c.client == me then [c] else [] {
        OwnSnoc(commits, c, me);
      }
      commits := commits + [c];
      forall t | t in tokens
        ensures TokenOk(log, tokens[t], info[t].taken)
      {
        TokenOkGrows(log0, log, tokens[t], info[t].taken);
      }
    }

    method AppendAll(facts: seq<Fact>)
      requires Increasing(log)
      modifies this`log
      ensures Increasing(log) && old(log) <= log && |log| == |old(log)| + |facts|
      ensures forall k :: 0 <= k < |facts| ==> log[|old(log)| + k].fact == facts[k]
    {
      ghost var log0 := log;
      var i := 0;
      while i < |facts|
        invariant i <= |facts| && log0 <= log && |log| == |log0| + i && Increasing(log)
        invariant forall k :: 0 <= k < i ==> log[|log0| + k].fact == facts[k]
      {
        var gap := AnyNumber();
        log := log + [Entry(1 + gap + LastOf(log), facts[i])];
        i := i + 1;
      }
    }

    /** `currentStateFor`: the serial is any that covers all matching facts, so that the store
        may as well take the last one of all. */
    method CurrentStateFor(spec: Spec, me: Client) returns (t: nat)
      requires Valid()
      modifies this`tokens, this`nextToken, this`info
      ensures Valid() && t !in old(tokens) && t in tokens && tokens == old(tokens)[t := tokens[t]]
      ensures tokens[t].spec == spec
      ensures t in info && info[t] == Info(me, |log|) && Mine(me) == old(Mine(me))[t := (tokens[t], info[t])]
      ensures forall other :: other != me ==> Interfered(other)
    {
      hide Serial, Increasing, TokenOk, Own;
      var serial := AnySerial(spec);
      t := nextToken;
      tokens := tokens[t := State(spec, serial)];
      nextToken := nextToken + 1;
      info := info[t := Info(me, |log|)];
    }

    /** The serial of some fact that covers all matching ones, which the store may choose. */
    method AnySerial(spec: Spec) returns (serial: nat)
      requires Increasing(log)
      ensures TokenOk(log, State(spec, serial), |log|)
    {
      LastSerialBounds(log, spec);
      serial :| LastSerial(log, spec, 0) <= serial <= LastOf(log);
    }

    /** `invalidate` */
    method Invalidate(t: nat)
      requires Valid()
      modifies this`tokens
      ensures Valid() && tokens == old(tokens) - {t} && forall c :: Mine(c) == old(Mine(c)) - {t}
      ensures forall me :: !(t in info && info[t].owner == me) ==> Interfered(me)
    {
      hide Serial, Increasing, TokenOk, Own;
      tokens := tokens - {t};
    }

    /** `isStateUnchanged` */
    method IsStateUnchanged(s: State) returns (same: bool)
      requires Increasing(log)
      ensures same <==> NoneAbove(log, s.spec, s.serial)
    {
      LastSerialIsZero(log, s.spec, s.serial);
      same := LastSerial(log, s.spec, s.serial) == 0;
    }

    /** `publishIfUnchanged`, in one step: a token is good for one try. It succeeds, unless the
        store fails, exactly if nothing that matches was published since the token was taken; the
        client, which has looked at the log when it had `k` entries, has then missed nothing. */
    method PublishIfUnchanged(facts: seq<Fact>, t: nat, ghost me: Client, ghost k: nat) returns (ok: bool, threw: bool)
      requires Valid() && (t in tokens ==> info[t].owner == me && info[t].taken <= k <= |log|)
      modifies this`log, this`tokens, this`commits
      ensures Valid() && t !in tokens && tokens == old(tokens) - {t} && (ok ==> t in old(tokens)) && (threw ==> !ok)
      ensures threw ==> flaky
      ensures ok || threw <==> t in old(tokens) && NoneAbove(old(log), old(tokens)[t].spec, old(tokens)[t].serial)
      ensures forall c :: Mine(c) == old(Mine(c)) - {t}
      ensures forall other :: other != me ==> Interfered(other)
      ensures !ok ==> log == old(log) && commits == old(commits)
      ensures ok ==> old(log) <= log && |log| == |old(log)| + |facts|
      ensures ok ==>
        commits == old(commits + [Commit(me, |log|, facts, Some(tokens[t].spec), Matching(log[..k], tokens[t].spec))])
      ensures ok ==> Own(commits, me) == old(Own(commits, me)) + [commits[|commits| - 1]]
    {
      hide Serial, Matching, TokenOk, Increasing, NoneAbove;
      if t !in tokens {
        assert tokens == tokens - {t};
        return false, false;
      }
      var state := tokens[t];
      var same := IsStateUnchanged(state);
      threw := *;
      threw := threw && same && flaky;
      ok := same && !threw;
      if ok {
        NothingMissed(log, state, info[t].taken, k);
        OwnSnoc(commits, Commit(me, |log|, facts, Some(state.spec), Matching(log[..k], state.spec)), me);
        Publish(facts, Commit(me, |log|, facts, Some(state.spec), Matching(log[..k], state.spec)));
      }
      Invalidate(t);
    }

    /** Any number of steps of other clients, locked or not. */
    method OthersAct(me: Client)
      requires Valid()
      modifies this
      ensures Interfered(me)
    {
      var n := AnyNumber();
      for i := 0 to n
        invariant Interfered(me)
      {
        OneActs(me);
      }
    }

    method OneActs(me: Client)
      requires Valid()
      modifies this
      ensures Interfered(me)
    {
      var other: Client, facts: seq<Fact>, spec: Spec, t: nat, kind: nat := *, *, *, *, *;
      if other != me {
        match kind
        case 0 => Publish(facts, Commit(other, |log|, facts, None, []));
        case 1 => var taken := CurrentStateFor(spec, other);
        case _ =>
          if t in tokens && info[t].owner == other {
            if kind == 2 {
              Invalidate(t);
            } else {
              var ok, threw := PublishIfUnchanged(facts, t, other, |log|);
            }
          }
      }
    }
  }

  // ---- the client -------------------------------------------------------------------

  /** What the business logic decides when it sees the projection. */
  datatype Decision = Abort | Skip | PublishFacts(facts: seq<Fact>)

  datatype Outcome =
    | Published(facts: seq<Fact>)
    | Aborted
    | NothingToPublish
    | RetriesExceeded
    | StoreFailed
    | FailedAfterPublish(facts: seq<Fact>)

  class WithOptimisticLock {
    const store: FactStore
    const spec: Spec
    const me: Client
    const thenFails: bool       // whether the action after the publish may fail
    var retry: nat
    var count: nat

    constructor (store: FactStore, spec: Spec, me: Client, thenFails: bool)
      ensures this.store == store && this.spec == spec && this.me == me && this.thenFails == thenFails
      ensures retry == 10 && count == 0
    {
      this.store, this.spec, this.me, this.thenFails, retry, count := store, spec, me, thenFails, 10, 0;
    }

    /** The body was shown what the log held at some time since it had `from` entries, and
        decided on `d`. */
    ghost predicate Saw(body: seq<Fact> -> Decision, log: seq<Entry>, from: nat, d: Decision)
    {
      exists k :: from <= k <= |log| && body(Matching(log[..k], spec)) == d
    }

    /** What an attempt that ends with `o` has done to the client's commits: it has made one
        exactly if it says so, of the facts that the body decided on when it saw all that the
        log held just before; and it made none because the body wanted none, or the store failed,
        or the retries are used up. */
    ghost predicate Did(o: Outcome, body: seq<Fact> -> Decision, own: seq<Commit>, own': seq<Commit>, from: nat,
                        log: seq<Entry>)
    {
      match o
      case Published(facts) => CommittedAs(facts, body, own, own', from, log)
      case FailedAfterPublish(facts) => CommittedAs(facts, body, own, own', from, log) && thenFails
      case Aborted => own' == own && Saw(body, log, from, Abort)
      case NothingToPublish => own' == own && Saw(body, log, from, PublishFacts([]))
      case StoreFailed => own' == own && store.flaky
      case RetriesExceeded => own' == own
    }

    ghost predicate CommittedAs(facts: seq<Fact>, body: seq<Fact> -> Decision, own: seq<Commit>, own': seq<Commit>,
                                from: nat, log: seq<Entry>)
    {
      if facts == [] then own' == own && Saw(body, log, from, Skip)
      else
        && |own'| == |own| + 1 && own <= own'
        && own'[|own|].facts == facts && own'[|own|].spec == Some(spec) && own'[|own|].at >= from
        && body(own'[|own|].seen) == PublishFacts(facts)
    }

    lemma DidStays(o: Outcome, body: seq<Fact> -> Decision, own: seq<Commit>, own': seq<Commit>, from: nat,
                   log: seq<Entry>, from': nat, log': seq<Entry>)
      requires Did(o, body, own, own', from, log) && from' <= from && log <= log'
      ensures Did(o, body, own, own', from', log')
    {
      forall d | Saw(body, log, from, d)
        ensures Saw(body, log', from', d)
      {
        var k :| from <= k <= |log| && body(Matching(log[..k], spec)) == d;
        assert log'[..k] == log[..k];
      }
    }

    /** `WithOptimisticLock.attempt` around the operation of `Locked.attempt`, which updates the
        projection after the token was taken; others act between any two steps. Each try that was
        used up had a matching fact of another client between its token and its publish. */
    method Attempt(body: seq<Fact> -> Decision) returns (o: Outcome)
      requires store.Valid() && store.Mine(me) == map[]
      modifies this`count, store
      ensures store.Valid() && old(store.log) <= store.log
      ensures store.Mine(me) == map[]
      ensures Did(o, body, old(Own(store.commits, me)), Own(store.commits, me), |old(store.log)|, store.log)
      ensures count > old(count) && (o.RetriesExceeded? <==> count > retry)
      ensures |Matching(store.log, spec)| >= |Matching(old(store.log), spec)| + (count - 1 - old(count))
    {
      hide Serial, Increasing, Matching, FactStore.TokensOk, WithOptimisticLock.Saw, WithOptimisticLock.CommittedAs;
      ghost var own, log, count0 := Own(store.commits, me), store.log, count;
      while true
        invariant store.Valid() && store.Mine(me) == map[] && log <= store.log && Own(store.commits, me) == own
        invariant count >= count0 && |Matching(store.log, spec)| >= |Matching(log, spec)| + (count - count0)
        decreases retry - count
      {
        count := count + 1;
        if count > retry {
          return RetriesExceeded;
        }
        ghost var before := store.log;
        var done;
        done, o := Once(body);
        if done {
          DidStays(o, body, own, Own(store.commits, me), |before|, store.log, |log|, store.log);
          return;
        }
      }
    }

    /** One round of the loop. */
    method Once(body: seq<Fact> -> Decision) returns (done: bool, o: Outcome)
      requires store.Valid() && store.Mine(me) == map[]
      modifies store
      ensures store.Valid() && old(store.log) <= store.log && store.Mine(me) == map[]
      ensures done ==> !o.RetriesExceeded?
      ensures done ==>
        Did(o, body, old(Own(store.commits, me)), Own(store.commits, me), |old(store.log)|, store.log)
      ensures !done ==> Own(store.commits, me) == old(Own(store.commits, me))
      ensures |Matching(store.log, spec)| >= |Matching(old(store.log), spec)| + if done then 0 else 1
    {
      hide FactStore.Valid, Own, Matching, WithOptimisticLock.Did;
      ghost var log0 := store.log;
      store.OthersAct(me);
      var unavailable: bool := *;
      if unavailable && store.flaky {
        NothingDone(body, Own(store.commits, me), |log0|, store.log);
        MatchingGrows(log0, store.log, spec);
        return true, StoreFailed;
      }
      var token := store.CurrentStateFor(spec, me);
      ghost var state, info := store.tokens[token], store.info[token];
      store.OthersAct(me);
      ghost var k := |store.log|;
      var projection := Matching(store.log, spec);
      ghost var seen := store.log;
      store.OthersAct(me);
      assert store.log[..k] == seen && store.Mine(me) == map[token := (state, info)];
      assert token in store.Mine(me);
      ghost var log1, own := store.log, Own(store.commits, me);
      TakenSince(log0, log1, info.taken);
      done, o := Act(body, projection, token, k);
      ghost var log2, own' := store.log, Own(store.commits, me);
      store.OthersAct(me);
      MatchingGrows(log1, store.log, spec);
      MatchingGrows(log0, log1, spec);
      if done {
        DidStays(o, body, own, own', info.taken, log2, |log0|, store.log);
      }
    }

    lemma NothingDone(body: seq<Fact> -> Decision, own: seq<Commit>, from: nat, log: seq<Entry>)
      requires store.flaky
      ensures Did(StoreFailed, body, own, own, from, log)
    {
    }

    lemma MatchingGrows(a: seq<Entry>, b: seq<Entry>, spec: Spec)
      requires a <= b
      ensures |Matching(a, spec)| <= |Matching(b, spec)|
    {
      MatchingMono(b, spec, |a|, |b|);
      assert b[..|a|] == a && b[..|b|] == b;
    }

    /** A token that is taken at `taken` covers what the log held before. */
    lemma TakenSince(log0: seq<Entry>, log: seq<Entry>, taken: nat)
      requires log0 <= log && |log0| <= taken <= |log|
      ensures |Matching(log[..taken], spec)| >= |Matching(log0, spec)|
    {
      MatchingMono(log, spec, |log0|, taken);
      assert log[..|log0|] == log0;
    }

    /** The business logic, and the publish it decides on, with a token that was taken when
        the log had `k` entries at most. */
    method Act(body: seq<Fact> -> Decision, projection: seq<Fact>, token: nat, ghost k: nat)
      returns (done: bool, o: Outcome)
      requires store.Valid() && token in store.tokens && token in store.info && store.Mine(me).Keys == {token}
      requires store.tokens[token].spec == spec && store.info[token].owner == me
      requires store.info[token].taken <= k <= |store.log| && projection == Matching(store.log[..k], spec)
      modifies store
      ensures store.Valid() && old(store.log) <= store.log && store.Mine(me) == map[]
      ensures done ==> !o.RetriesExceeded?
      ensures done ==>
        Did(o, body, old(Own(store.commits, me)), Own(store.commits, me), old(store.info[token].taken), store.log)
      ensures !done ==> Own(store.commits, me) == old(Own(store.commits, me))
      ensures !done ==>
        |Matching(old(store.log), spec)| > |Matching(old(store.log)[..old(store.info[token].taken)], spec)|
    {
      hide FactStore.Valid, Own, Matching, NoneAbove;
      done, o := true, Aborted;
      assert store.Mine(me) - {token} == map[];
      ghost var log, state, taken := store.log, store.tokens[token], store.info[token].taken;
      TokenIsOk(token);
      match body(projection) {
        case Abort =>
          store.Invalidate(token);
          assert Saw(body, store.log, taken, Abort);
        case Skip =>
          var failed: bool := *;
          o := if failed && thenFails then FailedAfterPublish([]) else Published([]);
          store.Invalidate(token);
          assert Saw(body, store.log, taken, Skip);
        case PublishFacts(facts) =>
          if facts == [] {
            o := NothingToPublish;
            store.Invalidate(token);
            assert Saw(body, store.log, taken, PublishFacts([]));
          } else {
            var threw;
            done, threw := store.PublishIfUnchanged(facts, token, me, k);
            if !done && !threw {
              SomethingMatches(log, state, taken);
            }
            var failed: bool := *;
            o := if threw then StoreFailed
                 else if failed && thenFails then FailedAfterPublish(facts) else Published(facts);
            done := done || threw;
          }
      }
    }

    lemma TokenIsOk(token: nat)
      requires store.Valid() && token in store.tokens
      ensures token in store.info && TokenOk(store.log, store.tokens[token], store.info[token].taken)
    {
    }

    /** What makes a publish fail is a matching fact that came after the token was taken. */
    lemma SomethingMatches(log: seq<Entry>, s: State, taken: nat)
      requires TokenOk(log, s, taken) && !NoneAbove(log, s.spec, s.serial)
      ensures |Matching(log[..taken], s.spec)| < |Matching(log, s.spec)|
    {
      var i :| 0 <= i < |log| && s.spec(log[i].fact) && log[i].serial > s.serial;
      MatchingMore(log, s.spec, taken, i);
    }
  }
}
