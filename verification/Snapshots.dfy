/** Snapshot-accelerated projections (`FactusImpl.dofetch`, `doFind`, `catchupProjection`): a
    projection that starts at a stored snapshot ends up as if all facts had been replayed. */
module Snapshots {
  import opened Options
  import opened FactLog
  import opened Projector

  type Key = int

  /** A snapshot projection or an aggregate: the facts it handles, how it starts, and what its
      handlers do. */
  datatype Kind<!S> = Kind(spec: Spec, initial: S, apply: (S, Fact) -> S, fails: (S, Fact) -> bool)

  datatype Snapshot<S> = Snapshot(state: S, factId: int)

  const MAX_BATCH := 1000

  predicate UniqueIds(log: seq<Entry>)
  {
    forall i, j :: 0 <= i < j < |log| ==> log[i].fact.id != log[j].fact.id
  }

  predicate HasId(log: seq<Entry>, id: int)
  {
    exists i :: 0 <= i < |log| && log[i].fact.id == id
  }

  /** How many facts the log has up to the one with this id. */
  function UpTo(log: seq<Entry>, id: int): (n: nat)
    requires HasId(log, id)
    ensures 0 < n <= |log| && log[n - 1].fact.id == id
  {
    if log[|log| - 1].fact.id == id then |log| else UpTo(log[..|log| - 1], id)
  }

  predicate Known(log: seq<Entry>, id: Option<int>) { id.Some? ==> HasId(log, id.value) }

  function Count(log: seq<Entry>, id: Option<int>): (n: nat)
    requires Known(log, id)
    ensures n <= |log|
  {
    if id.None? then 0 else UpTo(log, id.value)
  }

  /** The facts among the first `n` of the log that the projection handles. */
  function Facts<S>(log: seq<Entry>, kind: Kind<S>, n: nat): seq<Fact>
    requires n <= |log|
  {
    Matching(log[..n], kind.spec)
  }

  /** The projection as a full replay of the first `n` facts of the log leaves it. */
  function Replay<S>(log: seq<Entry>, kind: Kind<S>, n: nat): S
    requires n <= |log|
  {
    Fold(kind.apply, kind.initial, Facts(log, kind, n))
  }

  /** A snapshot is the replay of all facts up to its fact id, of which the projection has
      handled at least one. */
  predicate SnapshotOk<S(==)>(log: seq<Entry>, kind: Kind<S>, snap: Snapshot<S>)
  {
    && HasId(log, snap.factId)
    && snap.state == Replay(log, kind, UpTo(log, snap.factId))
    && Facts(log, kind, UpTo(log, snap.factId)) != []
  }

  lemma CountGrows(log: seq<Entry>, log': seq<Entry>, id: Option<int>)
    requires log <= log' && UniqueIds(log') && Known(log, id)
    ensures Known(log', id) && Count(log', id) == Count(log, id)
  {
    if id.Some? {
      assert log'[UpTo(log, id.value) - 1].fact.id == id.value;
    }
  }

  lemma FactsGrow<S>(log: seq<Entry>, log': seq<Entry>, kind: Kind<S>, n: nat)
    requires log <= log' && n <= |log|
    ensures Facts(log', kind, n) == Facts(log, kind, n)
  {
    assert log'[..n] == log[..n];
  }

  lemma SnapshotStays<S>(log: seq<Entry>, log': seq<Entry>, kind: Kind<S>, snap: Snapshot<S>)
    requires SnapshotOk(log, kind, snap) && log <= log' && UniqueIds(log')
    ensures SnapshotOk(log', kind, snap)
  {
    CountGrows(log, log', Some(snap.factId));
    FactsGrow(log, log', kind, UpTo(log, snap.factId));
  }

  /** Facts that the projection does not handle can be passed over. */
  lemma PassOver<S>(log: seq<Entry>, kind: Kind<S>, a: nat, b: nat)
    requires a <= b <= |log| && forall i :: a <= i < b ==> !kind.spec(log[i].fact)
    ensures Facts(log, kind, b) == Facts(log, kind, a)
  {
    MatchingSame(log[..b], kind.spec, a);
    assert log[..b][..a] == log[..a];
  }

  /** Where a catch-up stands: the projection has all facts up to `id`, and those from there
      to the first `reached` of the log wait in the buffer. */
  predicate Progress<S(==)>(log: seq<Entry>, kind: Kind<S>, state: S, id: Option<int>, buffer: seq<Fact>, reached: nat)
  {
    && reached <= |log| && Known(log, id) && Count(log, id) <= reached
    && state == Replay(log, kind, Count(log, id))
    && Facts(log, kind, reached) == Facts(log, kind, Count(log, id)) + buffer
    && (buffer != [] ==> reached > 0 && log[reached - 1].fact == buffer[|buffer| - 1])
    && (id.Some? ==> Facts(log, kind, Count(log, id)) != [])
  }

  lemma ProgressGrows<S>(log: seq<Entry>, log': seq<Entry>, kind: Kind<S>, state: S, id: Option<int>, buffer: seq<Fact>,
                         reached: nat)
    requires Progress(log, kind, state, id, buffer, reached) && log <= log' && UniqueIds(log')
    ensures Progress(log', kind, state, id, buffer, reached)
  {
    CountGrows(log, log', id);
    FactsGrow(log, log', kind, Count(log, id));
    FactsGrow(log, log', kind, reached);
  }

  /** The next fact of the log that the projection handles arrives. */
  lemma ProgressNext<S>(log: seq<Entry>, kind: Kind<S>, state: S, id: Option<int>, buffer: seq<Fact>, reached: nat,
                        next: nat)
    requires Progress(log, kind, state, id, buffer, reached)
    requires reached <= next < |log| && kind.spec(log[next].fact)
    requires forall i :: reached <= i < next ==> !kind.spec(log[i].fact)
    ensures Progress(log, kind, state, id, buffer + [log[next].fact], next + 1)
  {
    PassOver(log, kind, reached, next);
    assert log[..next + 1][..next] == log[..next];
  }

  /** The buffered facts are applied. */
  lemma ProgressFlush<S>(log: seq<Entry>, kind: Kind<S>, state: S, id: Option<int>, buffer: seq<Fact>, reached: nat)
    requires Progress(log, kind, state, id, buffer, reached) && buffer != [] && UniqueIds(log)
    ensures Progress(log, kind, Fold(kind.apply, state, buffer), Some(buffer[|buffer| - 1].id), [], reached)
    ensures SnapshotOk(log, kind, Snapshot(Fold(kind.apply, state, buffer), buffer[|buffer| - 1].id))
  {
    FoldAppend(kind.apply, kind.initial, Facts(log, kind, Count(log, id)), buffer);
    var last := buffer[|buffer| - 1].id;
    assert log[reached - 1].fact.id == last;
    assert UpTo(log, last) == reached;
  }

  /** A fast-forward that passes over nothing but facts that the projection does not handle. */
  lemma ProgressForward<S>(log: seq<Entry>, kind: Kind<S>, state: S, id: Option<int>, reached: nat, target: nat)
    requires Progress(log, kind, state, id, [], reached) && UniqueIds(log)
    requires reached < target <= |log| && forall i :: reached <= i < target ==> !kind.spec(log[i].fact)
    ensures Progress(log, kind, state, id, [], target)
    ensures id.Some? ==> Progress(log, kind, state, Some(log[target - 1].fact.id), [], target)
  {
    PassOver(log, kind, reached, target);
    assert Facts(log, kind, Count(log, id)) + [] == Facts(log, kind, Count(log, id));
    assert UpTo(log, log[target - 1].fact.id) == target;
  }

  /** With nothing left in the buffer, the projection has all that was gone through. */
  lemma ProgressDone<S>(log: seq<Entry>, kind: Kind<S>, state: S, id: Option<int>, reached: nat, n: nat)
    requires Progress(log, kind, state, id, [], reached) && n <= |log|
    requires Facts(log, kind, n) == Facts(log, kind, reached)
    ensures state == Replay(log, kind, n) && (id.None? <==> Facts(log, kind, n) == [])
    ensures Known(log, id) && Facts(log, kind, Count(log, id)) == Facts(log, kind, n)
    ensures id.Some? ==> SnapshotOk(log, kind, Snapshot(state, id.value))
  {
    assert Facts(log, kind, Count(log, id)) + [] == Facts(log, kind, Count(log, id));
  }

  /** Some handler fails in a replay of the log. */
  predicate HandlerFails<S>(log: seq<Entry>, kind: Kind<S>)
  {
    exists i :: 0 <= i < |log| && FailsAt(log, kind, i)
  }

  predicate FailsAt<S>(log: seq<Entry>, kind: Kind<S>, i: nat)
    requires i < |log|
  {
    kind.spec(log[i].fact) && kind.fails(Replay(log, kind, i), log[i].fact)
  }

  lemma HandlerStillFails<S>(log: seq<Entry>, log': seq<Entry>, kind: Kind<S>)
    requires HandlerFails(log, kind) && log <= log'
    ensures HandlerFails(log', kind)
  {
    var i :| 0 <= i < |log| && FailsAt(log, kind, i);
    FactsGrow(log, log', kind, i);
    assert FailsAt(log', kind, i);
  }

  /** A handler that fails on the buffer fails in the replay. */
  lemma FailsInReplay<S>(log: seq<Entry>, kind: Kind<S>, state: S, id: Option<int>, buffer: seq<Fact>, reached: nat,
                         k: nat)
    requires Progress(log, kind, state, id, buffer, reached) && k < |buffer|
    requires kind.fails(Fold(kind.apply, state, buffer[..k]), buffer[k])
    ensures HandlerFails(log, kind)
  {
    var done := Facts(log, kind, Count(log, id));
    var i := MatchingAt(log[..reached], kind.spec, |done| + k);
    assert log[..reached][..i] == log[..i];
    assert (done + buffer)[..|done| + k] == done + buffer[..k] && (done + buffer)[|done| + k] == buffer[k];
    FoldAppend(kind.apply, kind.initial, done, buffer[..k]);
    assert FailsAt(log, kind, i);
  }

  /** The fact store and the snapshot cache, which all clients share. */
  class Shared<S(0,==)> {
    const kinds: Key -> Kind<S>
    var log: seq<Entry>
    var cache: map<Key, Snapshot<S>>
    ghost var stored: set<(Key, Snapshot<S>)>   // all that were ever stored

    ghost predicate CacheOk()
      reads this
    {
      forall k :: k in cache ==> SnapshotOk(log, kinds(k), cache[k]) && (k, cache[k]) in stored
    }

    /** A good snapshot that has the facts that matched among the first `n` was stored at some
        time. */
    ghost predicate Saved(key: Key, n: nat)
      requires n <= |log|
      reads this
    {
      exists p :: p in stored && p.0 == key && AsGood(p.1, key, n)
    }

    predicate AsGood(snap: Snapshot<S>, key: Key, n: nat)
      requires n <= |log|
      reads this
    {
      && SnapshotOk(log, kinds(key), snap)
      && Facts(log, kinds(key), UpTo(log, snap.factId)) == Facts(log, kinds(key), n)
    }

    ghost predicate Valid()
      reads this
    {
      Increasing(log) && UniqueIds(log) && CacheOk()
    }

    constructor (kinds: Key -> Kind<S>)
      ensures this.kinds == kinds && Valid() && log == [] && cache == map[]
    {
      this.kinds, log, cache, stored := kinds, [], map[], {};
    }

    method Store(key: Key, snap: Snapshot<S>)
      requires Valid() && SnapshotOk(log, kinds(key), snap)
      modifies this`cache, this`stored
      ensures Valid() && cache == old(cache)[key := snap] && stored == old(stored) + {(key, snap)}
    {
      cache, stored := cache[key := snap], stored + {(key, snap)};
    }

    method Evict(key: Key)
      requires Valid()
      modifies this`cache
      ensures Valid() && cache == old(cache) - {key}
    {
      cache := cache - {key};
    }

    /** The store takes a fact only if its id is new. */
    method Publish(f: Fact)
      requires Valid()
      modifies this`log
      ensures Valid() && old(log) <= log
      ensures if HasId(old(log), f.id) then log == old(log)
              else |log| == |old(log)| + 1 && log[|old(log)|].fact == f
    {
      if !HasId(log, f.id) {
        ghost var log0 := log;
        var gap := AnyNumber();
        log := log + [Entry(1 + gap + LastOf(log), f)];
        hide SnapshotOk;
        assert log0 <= log && UniqueIds(log) && Increasing(log);
        forall k | k in cache
          ensures SnapshotOk(log, kinds(k), cache[k])
        {
          SnapshotStays(log0, log, kinds(k), cache[k]);
        }
      }
    }

    /** Any number of steps of other clients: they publish, store snapshots of their own and
        evict snapshots. */
    method OthersAct()
      requires Valid()
      modifies this
      ensures Valid() && old(log) <= log && old(stored) <= stored
    {
      hide Increasing, UniqueIds, SnapshotOk;
      ghost var log0, stored0 := log, stored;
      var n := AnyNumber();
      for i := 0 to n
        invariant Valid() && log0 <= log && stored0 <= stored
      {
        OneActs();
      }
    }

    method OneActs()
      requires Valid()
      modifies this
      ensures Valid() && old(log) <= log && old(stored) <= stored
    {
      var f: Fact, key: Key, m: nat, step: nat := *, *, *, *;
      match step
      case 0 => Publish(f);
      case 1 => Evict(key);
      case _ =>
        if 0 < m <= |log| && Facts(log, kinds(key), m) != [] {
          assert UpTo(log, log[m - 1].fact.id) == m;
          Store(key, Snapshot(Replay(log, kinds(key), m), log[m - 1].fact.id));
        }
    }
  }

  /** The observer of one catch-up, with the buffer of `BatchingFactObserver`. */
  class Observer<S(0,==)> {
    const shared: Shared<S>
    const key: Key
    const stateOrNull: Option<int>
    const projection: Projection<S>
    var buffer: seq<Fact>
    var positionOfLastFactApplied: Option<int>
    var reached: nat                    // kept by the model: how much of the log the store has gone through

    /** The id up to which the projection is known to be complete. */
    function Reference(): Option<int>
      reads this
    {
      if positionOfLastFactApplied.Some? then positionOfLastFactApplied else stateOrNull
    }

    ghost predicate Stands()
      reads this, shared, projection
    {
      Progress(shared.log, shared.kinds(key), projection.state, Reference(), buffer, reached)
    }

    ghost predicate Fits()
      reads this, shared
    {
      && !projection.transactional
      && projection.apply == shared.kinds(key).apply && projection.fails == shared.kinds(key).fails
    }

    /** Why a step may fail. */
    ghost predicate MayFail()
      reads this, shared
    {
      projection.flaky || HandlerFails(shared.log, shared.kinds(key))
    }

    ghost predicate Valid()
      reads this, shared, projection
    {
      shared.Valid() && Fits() && Stands() && |buffer| < MAX_BATCH && reached <= |shared.log|
    }

    constructor (shared: Shared<S>, key: Key, stateOrNull: Option<int>, projection: Projection<S>)
      requires shared.Valid() && !projection.transactional
      requires projection.apply == shared.kinds(key).apply && projection.fails == shared.kinds(key).fails
      requires Known(shared.log, stateOrNull)
      requires Progress(shared.log, shared.kinds(key), projection.state, stateOrNull, [],
                        Count(shared.log, stateOrNull))
      ensures Valid() && this.shared == shared && this.key == key && this.stateOrNull == stateOrNull
      ensures this.projection == projection
      ensures buffer == [] && positionOfLastFactApplied == None && reached == Count(shared.log, stateOrNull)
    {
      this.shared, this.key, this.stateOrNull, this.projection := shared, key, stateOrNull, projection;
      buffer, positionOfLastFactApplied, reached := [], None, Count(shared.log, stateOrNull);
    }

    method OthersAct()
      requires Valid()
      modifies shared
      ensures Valid() && old(shared.log) <= shared.log && old(shared.stored) <= shared.stored
    {
      hide Shared.CacheOk, Increasing, UniqueIds, Progress;
      ghost var log0 := shared.log;
      shared.OthersAct();
      ProgressGrows(log0, shared.log, shared.kinds(key), projection.state, Reference(), buffer, reached);
    }

    /** `onNextFacts`; `due` says whether the time of the interval snapshotter has come. */
    method OnNextFacts(elements: seq<Fact>, due: bool) returns (ok: bool)
      requires shared.Valid() && Fits() && buffer == [] && elements != []
      requires Progress(shared.log, shared.kinds(key), projection.state, Reference(), elements, reached)
      modifies shared`cache, shared`stored, projection, this`positionOfLastFactApplied
      ensures shared.Valid() && old(shared.stored) <= shared.stored && (!ok ==> MayFail())
      ensures ok ==> Valid() && positionOfLastFactApplied == Some(elements[|elements| - 1].id)
      ensures shared.cache == if ok && due
        then old(shared.cache)[key := Snapshot(projection.state, elements[|elements| - 1].id)]
        else old(shared.cache)
      ensures !ok ==> positionOfLastFactApplied == old(positionOfLastFactApplied)
    {
      hide Shared.CacheOk, Increasing, UniqueIds, Progress, SnapshotOk, Fold, HandlerFails, FirstFailing;
      ghost var state := projection.state;
      ghost var k;
      ghost var log, kind, id := shared.log, shared.kinds(key), Reference();
      ok, k := projection.DoApplyDirectly(elements);
      if !ok && !projection.flaky {
        FirstFailingFails(kind.apply, kind.fails, state, elements, k);
        FailsInReplay(log, kind, state, id, elements, reached, k);
      }
      if ok {
        ProgressFlush(shared.log, shared.kinds(key), state, Reference(), elements, reached);
        var pos := elements[|elements| - 1].id;
        positionOfLastFactApplied := Some(pos);
        if due {
          shared.Store(key, Snapshot(projection.state, pos));
        }
      }
    }

    method Flush() returns (ok: bool)
      requires Valid()
      modifies shared`cache, shared`stored, projection, this`positionOfLastFactApplied, this`buffer
      ensures shared.Valid() && old(shared.stored) <= shared.stored && (!ok ==> MayFail())
      ensures ok ==> Valid() && buffer == []
      ensures ok ==> positionOfLastFactApplied == (if old(buffer) == [] then old(positionOfLastFactApplied)
                                                   else Some(old(buffer)[|old(buffer)| - 1].id))
      ensures old(buffer) == [] ==> ok && shared.cache == old(shared.cache)
    {
      hide Shared.CacheOk, Increasing, UniqueIds, Progress;
      ok := true;
      if buffer != [] {
        var current := buffer;
        buffer := [];
        var due: bool := *;
        ok := OnNextFacts(current, due);
      }
    }

    /** `onNext`: the store delivers the next fact that matches. */
    method OnNext(next: nat) returns (ok: bool)
      requires Valid() && reached <= next < |shared.log| && shared.kinds(key).spec(shared.log[next].fact)
      requires forall i :: reached <= i < next ==> !shared.kinds(key).spec(shared.log[i].fact)
      modifies shared`cache, shared`stored, projection, this
      ensures shared.Valid() && old(shared.stored) <= shared.stored && (!ok ==> MayFail())
      ensures ok ==> Valid() && reached == next + 1
      ensures ok ==> buffer == if |old(buffer)| + 1 < MAX_BATCH then old(buffer) + [shared.log[next].fact] else []
      ensures |old(buffer)| + 1 < MAX_BATCH ==>
        ok && shared.cache == old(shared.cache) && positionOfLastFactApplied == old(positionOfLastFactApplied)
    {
      hide Shared.CacheOk, Increasing, UniqueIds, Progress;
      ok := true;
      ProgressNext(shared.log, shared.kinds(key), projection.state, Reference(), buffer, reached, next);
      var element := shared.log[next].fact;
      reached := next + 1;
      buffer := buffer + [element];
      if |buffer| >= MAX_BATCH {
        var current := buffer;
        buffer := [];
        var due: bool := *;
        ok := OnNextFacts(current, due);
      }
    }

    predicate IsAfter(id: int, p: Option<int>)
      requires HasId(shared.log, id) && Known(shared.log, p)
      reads shared
    {
      p.None? || shared.log[UpTo(shared.log, id) - 1].serial > shared.log[UpTo(shared.log, p.value) - 1].serial
    }

    lemma TargetIsAfter(id: int, target: nat)
      requires Valid() && buffer == [] && reached < target <= |shared.log| && shared.log[target - 1].fact.id == id
      ensures HasId(shared.log, id) && Known(shared.log, positionOfLastFactApplied)
      ensures IsAfter(id, positionOfLastFactApplied)
    {
      assert UpTo(shared.log, id) == target;
    }

    /** `onFastForward`: the store has passed over facts that do not match. A projection that
        has neither a snapshot nor facts stays without a position. */
    method OnFastForward(target: nat) returns (ok: bool)
      requires Valid() && reached < target <= |shared.log|
      requires forall i :: reached <= i < target ==> !shared.kinds(key).spec(shared.log[i].fact)
      modifies shared`cache, shared`stored, projection, this
      ensures shared.Valid() && old(shared.stored) <= shared.stored && (!ok ==> MayFail())
      ensures ok ==> Valid() && buffer == [] && reached == target
      ensures ok && stateOrNull == None && old(positionOfLastFactApplied) == None && old(buffer) == [] ==>
        positionOfLastFactApplied == None
      ensures ok && (stateOrNull != None || old(positionOfLastFactApplied) != None || old(buffer) != []) ==>
        positionOfLastFactApplied == Some(shared.log[target - 1].fact.id)
    {
      hide Shared.CacheOk, Progress, Increasing, UniqueIds, Observer.IsAfter, HandlerFails, SnapshotOk;
      ok := Flush();
      if ok {
        var id := shared.log[target - 1].fact.id;
        ghost var before := Reference();
        ProgressForward(shared.log, shared.kinds(key), projection.state, before, reached, target);
        TargetIsAfter(id, target);
        if IsAfter(id, positionOfLastFactApplied) {
          if stateOrNull != None || positionOfLastFactApplied != None {
            positionOfLastFactApplied := Some(id);
          }
        }
        reached := target;
      }
    }
  }

  datatype Result<S> = Found(state: S) | Empty | Failed

  class FactusImpl<S(0,==)> {
    const shared: Shared<S>
    const flaky: bool       // whether anything but a handler may fail
    var closed: bool

    constructor (shared: Shared<S>, flaky: bool)
      ensures this.shared == shared && this.flaky == flaky && !closed
    {
      this.shared, this.flaky, closed := shared, flaky, false;
    }

    /** The store delivers what matches up to `target`, while other clients go on. */
    method DeliverUpTo(o: Observer<S>, target: nat) returns (ok: bool)
      requires o.shared == shared && o.Valid() && target <= |shared.log|
      modifies o, o.projection, shared
      ensures shared.Valid() && old(shared.log) <= shared.log && old(shared.stored) <= shared.stored
      ensures !ok ==> o.MayFail()
      ensures ok ==> o.Valid() && forall i :: o.reached <= i < target ==> !shared.kinds(o.key).spec(shared.log[i].fact)
    {
      hide Observer.Fits, Observer.Stands, Shared.CacheOk, Increasing, UniqueIds, Observer.Reference;
      ok := true;
      ghost var spec, log0, stored0 := shared.kinds(o.key).spec, shared.log, shared.stored;
      var next := o.reached;
      while next < target
        invariant o.reached <= next <= |shared.log| && target <= |shared.log| && o.Valid() && log0 <= shared.log
        invariant forall i :: o.reached <= i < next ==> !spec(shared.log[i].fact)
        invariant stored0 <= shared.stored
      {
        ghost var log := shared.log;
        o.OthersAct();
        assert forall i :: 0 <= i < |log| ==> shared.log[i] == log[i];
        var between: bool := *;
        if between {
          ok := o.Flush();
          if !ok {
            return;
          }
        }
        if shared.kinds(o.key).spec(shared.log[next].fact) {
          ok := o.OnNext(next);
          if !ok {
            return;
          }
        }
        next := next + 1;
      }
    }

    /** What a catch-up amounts to: the projection is the replay of the first `n` facts, which
        include all that were there when it began; the new state, if there is one, makes a good
        snapshot; and there is neither an old state nor a new one exactly if no fact matched. */
    ghost predicate Complete(key: Key, result: S, stateOrNull: Option<int>, state: Option<int>, begun: nat, n: nat)
      reads shared
    {
      && begun <= n <= |shared.log|
      && result == Replay(shared.log, shared.kinds(key), n)
      && (state.Some? ==>
            && SnapshotOk(shared.log, shared.kinds(key), Snapshot(result, state.value))
            && Facts(shared.log, shared.kinds(key), UpTo(shared.log, state.value))
               == Facts(shared.log, shared.kinds(key), n))
      && (state.None? ==>
            && Known(shared.log, stateOrNull)
            && Facts(shared.log, shared.kinds(key), Count(shared.log, stateOrNull))
               == Facts(shared.log, shared.kinds(key), n))
      && (stateOrNull == None && state == None <==> Facts(shared.log, shared.kinds(key), n) == [])
    }

    /** `catchupProjection`: the store goes through the log twice, may then fast-forward, and
        completes. */
    method CatchupProjection(key: Key, projection: Projection<S>,
                             stateOrNull: Option<int>) returns (ok: bool, state: Option<int>, ghost n: nat)
      requires shared.Valid() && Known(shared.log, stateOrNull)
      requires !projection.transactional && projection.flaky == flaky
      requires projection.apply == shared.kinds(key).apply && projection.fails == shared.kinds(key).fails
      requires Progress(shared.log, shared.kinds(key), projection.state, stateOrNull, [],
                        Count(shared.log, stateOrNull))
      modifies shared, projection
      ensures shared.Valid() && old(shared.log) <= shared.log && old(shared.stored) <= shared.stored
      ensures !ok ==> flaky || HandlerFails(shared.log, shared.kinds(key))
      ensures ok ==> Complete(key, projection.state, stateOrNull, state, |old(shared.log)|, n)
    {
      hide Shared.CacheOk, Increasing, UniqueIds, Progress, Observer.Stands, Observer.Fits, Observer.Reference,
        Complete;
      ghost var log0 := shared.log;
      n, state := 0, None;
      var o := new Observer(shared, key, stateOrNull, projection);
      ok := DeliverUpTo(o, |shared.log|);
      if !ok { return; }
      o.OthersAct();
      ok, n := LastPhase(o);
      if !ok { return; }
      Finish(o, |log0|, n);
      state := o.positionOfLastFactApplied;
    }

    /** The second phase, the fast-forward and the signals at the end. */
    method LastPhase(o: Observer<S>) returns (ok: bool, ghost n: nat)
      requires o.shared == shared && o.Valid()
      modifies o, o.projection, shared
      ensures shared.Valid() && old(shared.log) <= shared.log && old(shared.stored) <= shared.stored
      ensures !ok ==> o.MayFail()
      ensures ok ==> o.Valid() && o.buffer == [] && |old(shared.log)| <= n <= |shared.log|
      ensures ok ==> Facts(shared.log, shared.kinds(o.key), n) == Facts(shared.log, shared.kinds(o.key), o.reached)
    {
      hide Shared.CacheOk, Increasing, UniqueIds, Progress, Observer.Fits, Observer.Reference, Facts;
      ghost var kind := shared.kinds(o.key);
      var target := |shared.log|;
      n := target;
      ok := DeliverUpTo(o, target);
      if !ok { return; }
      if o.reached <= target {
        PassOver(shared.log, kind, o.reached, target);
      } else {
        n := o.reached;
      }
      var t: nat := *;
      if o.reached < t <= |shared.log|
        && forall i :: o.reached <= i < t ==> !shared.kinds(o.key).spec(shared.log[i].fact)
      {
        PassOver(shared.log, kind, o.reached, t);
        ok := o.OnFastForward(t);
        if !ok { return; }
      }
      ok := o.Flush();
    }

    lemma Finish(o: Observer<S>, begun: nat, n: nat)
      requires o.shared == shared && o.Valid() && o.buffer == [] && begun <= n <= |shared.log|
      requires Facts(shared.log, shared.kinds(o.key), n) == Facts(shared.log, shared.kinds(o.key), o.reached)
      ensures Complete(o.key, o.projection.state, o.stateOrNull, o.positionOfLastFactApplied, begun, n)
    {
      hide Shared.CacheOk, Increasing, UniqueIds, Facts, Replay, Progress, SnapshotOk;
      ProgressDone(shared.log, shared.kinds(o.key), o.projection.state, o.Reference(), o.reached, n);
    }

    /** A stored snapshot, or the projection as it is at first. */
    method FindLatest(key: Key) returns (projection: Projection<S>, stateOrNull: Option<int>)
      requires shared.Valid()
      ensures fresh(projection) && !projection.transactional && !projection.positionAware && projection.flaky == flaky
      ensures projection.apply == shared.kinds(key).apply && projection.fails == shared.kinds(key).fails
      ensures stateOrNull.Some? <==> key in shared.cache
      ensures stateOrNull.Some? ==> stateOrNull.value == shared.cache[key].factId
      ensures Known(shared.log, stateOrNull)
      ensures Progress(shared.log, shared.kinds(key), projection.state, stateOrNull, [], Count(shared.log, stateOrNull))
      ensures stateOrNull.Some? ==> (key, shared.cache[key]) in shared.stored
                                    && SnapshotOk(shared.log, shared.kinds(key), shared.cache[key])
    {
      var kind := shared.kinds(key);
      if key in shared.cache {
        var snap := shared.cache[key];
        assert SnapshotOk(shared.log, kind, snap);
        stateOrNull := Some(snap.factId);
        projection := new Projection(kind.apply, kind.fails, flaky, false, false, snap.state);
        var m := UpTo(shared.log, snap.factId);
        assert Facts(shared.log, kind, m) == Facts(shared.log, kind, m) + [];
      } else {
        stateOrNull := None;
        projection := new Projection(kind.apply, kind.fails, flaky, false, false, kind.initial);
      }
    }

    /** The snapshot is stored some time after the catch-up. */
    method StoreSnapshot(key: Key, snap: Snapshot<S>, ghost n: nat)
      requires shared.Valid() && SnapshotOk(shared.log, shared.kinds(key), snap) && n <= |shared.log|
      modifies shared
      ensures shared.Valid() && old(shared.log) <= shared.log && key in shared.cache && shared.cache[key] == snap
      ensures (key, snap) in shared.stored && SnapshotOk(shared.log, shared.kinds(key), snap)
      ensures UpTo(shared.log, snap.factId) == old(UpTo(shared.log, snap.factId))
      ensures Facts(shared.log, shared.kinds(key), UpTo(shared.log, snap.factId))
           == old(Facts(shared.log, shared.kinds(key), UpTo(shared.log, snap.factId)))
      ensures Facts(shared.log, shared.kinds(key), n) == old(Facts(shared.log, shared.kinds(key), n))
      ensures Replay(shared.log, shared.kinds(key), n) == old(Replay(shared.log, shared.kinds(key), n))
      ensures old(shared.stored) <= shared.stored
    {
      ghost var log := shared.log;
      hide Facts, UpTo, Fold, Increasing;
      shared.OthersAct();
      SnapshotStays(log, shared.log, shared.kinds(key), snap);
      CountGrows(log, shared.log, Some(snap.factId));
      FactsGrow(log, shared.log, shared.kinds(key), UpTo(log, snap.factId));
      FactsGrow(log, shared.log, shared.kinds(key), n);
      shared.Store(key, snap);
    }

    /** The snapshot that a catch-up without any new fact started from is as good as a new one. */
    lemma StillSaved(log: seq<Entry>, key: Key, snap: Snapshot<S>, n: nat)
      requires SnapshotOk(log, shared.kinds(key), snap) && log <= shared.log && UniqueIds(shared.log)
      requires n <= |shared.log| && (key, snap) in shared.stored
      requires Known(shared.log, Some(snap.factId))
      requires Facts(shared.log, shared.kinds(key), Count(shared.log, Some(snap.factId)))
            == Facts(shared.log, shared.kinds(key), n)
      ensures shared.Saved(key, n)
    {
      SnapshotStays(log, shared.log, shared.kinds(key), snap);
      assert shared.AsGood((key, snap).1, key, n);
    }

    /** `dofetch`: the replay of some first facts of the log, including all that were there
        before the call. */
    method DoFetch(key: Key) returns (r: Result<S>, ghost n: nat)
      requires shared.Valid()
      modifies shared
      ensures shared.Valid() && old(shared.log) <= shared.log
      ensures r == Failed ||
              (|old(shared.log)| <= n <= |shared.log| && r == Found(Replay(shared.log, shared.kinds(key), n)))
      ensures r == Failed ==> closed || flaky || HandlerFails(shared.log, shared.kinds(key))
      ensures closed ==> r == Failed
      ensures r.Found? && Facts(shared.log, shared.kinds(key), n) != [] ==> shared.Saved(key, n)
    {
      hide Shared.CacheOk, Increasing, UniqueIds, Progress, Facts, SnapshotOk, Replay;
      if closed {
        return Failed, 0;
      }
      shared.OthersAct();
      var projection, lastFactIdApplied := FindLatest(key);
      var ok, state;
      ghost var log, cache := shared.log, shared.cache;
      ok, state, n := CatchupProjection(key, projection, lastFactIdApplied);
      if !ok {
        return Failed, n;
      }
      if state.Some? {
        StoreSnapshot(key, Snapshot(projection.state, state.value), n);
        assert shared.AsGood((key, shared.cache[key]).1, key, n);
      } else if lastFactIdApplied.Some? {
        StillSaved(log, key, cache[key], n);
      }
      return Found(projection.state), n;
    }

    /** `doFind`: the same, but empty exactly if none of these facts concerns the aggregate. */
    method DoFind(key: Key) returns (r: Result<S>, ghost n: nat)
      requires shared.Valid()
      modifies shared
      ensures shared.Valid() && old(shared.log) <= shared.log
      ensures r == Failed || (|old(shared.log)| <= n <= |shared.log| &&
                r == if Facts(shared.log, shared.kinds(key), n) == [] then Empty
                     else Found(Replay(shared.log, shared.kinds(key), n)))
      ensures r == Failed ==> closed || flaky || HandlerFails(shared.log, shared.kinds(key))
      ensures closed ==> r == Failed
      ensures r.Found? && Facts(shared.log, shared.kinds(key), n) != [] ==> shared.Saved(key, n)
    {
      hide Shared.CacheOk, Increasing, UniqueIds, Progress, Facts, SnapshotOk, Replay;
      if closed {
        return Failed, 0;
      }
      shared.OthersAct();
      var projection, lastFactIdApplied := FindLatest(key);
      var ok, state;
      ghost var log, cache := shared.log, shared.cache;
      ok, state, n := CatchupProjection(key, projection, lastFactIdApplied);
      if !ok {
        return Failed, n;
      }
      if state.Some? {
        StoreSnapshot(key, Snapshot(projection.state, state.value), n);
        assert shared.AsGood((key, shared.cache[key]).1, key, n);
      } else if lastFactIdApplied.None? {
        return Empty, n;
      } else {
        StillSaved(log, key, cache[key], n);
      }
      return Found(projection.state), n;
    }
  }
}
