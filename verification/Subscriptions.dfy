/** Subscriptions that survive errors (`ResilientGrpcSubscription`, `SubscriptionImpl`), as the
    sequence of what streams, the client and its observer do. */
module Subscriptions {
  import opened Options
  import opened FactLog
  import opened Retries

  /** What is kept of an exception. */
  type Cause = int

  const CLOSED_BY_CLIENT: Cause := 0

  datatype Future = Pending | Done | Failed(cause: Cause)

  /** What happens around an attempt to connect: whether the handshake fails, or the subscription
      behind it; whether an error arrives before the new stream is the current one, and may be
      retried; whether the client closes the subscription in the meantime; and what the cause of
      such a new error is. */
  datatype Conditions = Conditions(handshakeFails: bool, connectFails: bool, tooEarly: bool, retryTooEarly: bool,
                                   closedMeanwhile: bool, cause: Cause)

  /** `CompletableFuture`: only the first completion counts. */
  function Completed(f: Future, result: Future): (r: Future)
    ensures r == Pending <==> f == Pending && result == Pending
    ensures f != Pending ==> r == f
    ensures f == Pending ==> r == result
  {
    if f == Pending then result else f
  }

  /** How many of the facts a stream leaves out that starts after `id`; an id that the store
      does not know counts as none. */
  function StartIndex(log: seq<Fact>, id: Option<int>): (n: nat)
    ensures n <= |log| && (n > 0 ==> id == Some(log[n - 1].id))
  {
    if id.None? || log == [] then 0
    else if log[|log| - 1].id == id.value then |log|
    else StartIndex(log[..|log| - 1], id)
  }

  lemma {:induction false} StartIndexAt(log: seq<Fact>, i: nat)
    requires DistinctIds(log) && i < |log|
    ensures StartIndex(log, Some(log[i].id)) == i + 1
  {
    if i < |log| - 1 {
      StartIndexAt(log[..|log| - 1], i);
    }
  }

  /** The remote store; `log` holds the facts that match the request. */
  class RemoteStore {
    var log: seq<Fact>

    constructor ()
      ensures log == []
    {
      log := [];
    }

    method Publish(f: Fact)
      requires DistinctIds(log)
      modifies this
      ensures DistinctIds(log) && old(log) <= log
      ensures log == if exists i :: 0 <= i < |old(log)| && old(log)[i].id == f.id then old(log) else old(log) + [f]
    {
      if !exists i :: 0 <= i < |log| && log[i].id == f.id {
        log := log + [f];
      }
    }
  }

  /** What was delivered: facts of the log at growing places, and without a gap from `start`
      on if the request is not ephemeral. */
  predicate InOrder(log: seq<Fact>, delivered: seq<Fact>, at: seq<nat>)
  {
    && |at| == |delivered|
    && (forall i :: 0 <= i < |at| ==> at[i] < |log| && log[at[i]] == delivered[i])
    && (forall i, j :: 0 <= i < j < |at| ==> at[i] < at[j])
  }

  predicate NoGap(at: seq<nat>, start: nat)
  {
    forall i :: 0 <= i < |at| ==> at[i] == start + i
  }

  function Next(at: seq<nat>, start: nat): nat
  {
    if at == [] then start else at[|at| - 1] + 1
  }

  /** Without a gap: the delivered facts are a stretch of the log. */
  lemma Stretch(log: seq<Fact>, delivered: seq<Fact>, at: seq<nat>, start: nat)
    requires InOrder(log, delivered, at) && NoGap(at, start) && start <= |log|
    ensures start + |delivered| <= |log| && delivered == log[start..start + |delivered|]
  {
    if delivered != [] {
      assert at[|at| - 1] == start + |delivered| - 1;
    }
    assert forall i :: 0 <= i < |delivered| ==> log[start..start + |delivered|][i] == log[at[i]];
  }

  /** In order: no fact is delivered twice. */
  lemma NoneTwice(log: seq<Fact>, delivered: seq<Fact>, at: seq<nat>, i: nat, j: nat)
    requires InOrder(log, delivered, at) && DistinctIds(log) && i < j < |delivered|
    ensures delivered[i].id != delivered[j].id
  {
    assert log[at[i]].id != log[at[j]].id;
  }

  lemma OneMore(log: seq<Fact>, delivered: seq<Fact>, at: seq<nat>, start: nat, c: nat)
    requires InOrder(log, delivered, at) && Next(at, start) <= c < |log|
    ensures InOrder(log, delivered + [log[c]], at + [c])
    ensures NoGap(at, start) && c == Next(at, start) ==> NoGap(at + [c], start)
  {
    var at' := at + [c];
    forall i, j | 0 <= i < j < |at'|
      ensures at'[i] < at'[j]
    {
      assert i < |at|;
      assert at[i] <= at[|at| - 1];
    }
  }

  /** A stream that is since after what was delivered last goes on right behind it. */
  lemma GoesOn(log: seq<Fact>, delivered: seq<Fact>, at: seq<nat>, start: nat)
    requires InOrder(log, delivered, at) && DistinctIds(log) && delivered != []
    ensures StartIndex(log, Some(delivered[|delivered| - 1].id)) == Next(at, start)
  {
    StartIndexAt(log, at[|at| - 1]);
  }

  /** `SubscriptionImpl`, together with the stream that feeds it. */
  class SubscriptionImpl {
    const observer: ResilientGrpcSubscription
    var closed: bool
    var catchup: Future
    var complete: Future
    var onClose: seq<int>       // what is to run, in the order of registration
    var ran: seq<int>           // what has run
    var cursor: nat             // how far the stream has got in the log of the store
    var broken: bool            // whether the client has stopped to process the stream

    predicate Valid()
      reads this
    {
      if closed then ran <= onClose && catchup != Pending && complete != Pending else ran == []
    }

    /** Nothing gets through any more. */
    predicate Dead()
      reads this
    {
      closed || broken
    }

    /** What is completed stays as it is: the futures, and the actions once they have run. */
    twostate predicate Lasting()
      reads this
    {
      && (old(catchup) != Pending ==> catchup == old(catchup))
      && (old(complete) != Pending ==> complete == old(complete))
      && (old(closed) ==> closed && ran == old(ran))
    }

    constructor (observer: ResilientGrpcSubscription, cursor: nat)
      ensures this.observer == observer && this.cursor == cursor && Valid() && !Dead()
      ensures catchup == Pending && complete == Pending && onClose == []
    {
      this.observer, this.cursor := observer, cursor;
      closed, catchup, complete, onClose, ran, broken := false, Pending, Pending, [], [], false;
    }

    /** `onClose`: an action for the time of closing, which has no effect after that. */
    method OnClose(action: int)
      requires Valid()
      modifies this`onClose
      ensures Valid() && onClose == old(onClose) + [action]
    {
      onClose := onClose + [action];
    }

    /** `close`: the first time, all actions run once, whether or not they fail. */
    method Close()
      requires Valid()
      modifies this`closed, this`catchup, this`complete, this`ran
      ensures Valid() && closed
      ensures ran == if old(closed) then old(ran) else onClose
      ensures old(closed) ==> catchup == old(catchup) && complete == old(complete)
      ensures !old(closed) ==> catchup == Completed(old(catchup), Failed(CLOSED_BY_CLIENT))
      ensures !old(closed) ==> complete == Completed(old(complete), Failed(CLOSED_BY_CLIENT))
    {
      if !closed {
        closed := true;
        catchup := Completed(catchup, Failed(CLOSED_BY_CLIENT));
        complete := Completed(complete, Failed(CLOSED_BY_CLIENT));
        var i := 0;
        while i < |onClose|
          invariant i <= |onClose| && ran == onClose[..i]
          modifies this`ran
        {
          ran := ran + [onClose[i]];
          i := i + 1;
        }
      }
    }

    /** The next fact arrives on the stream. If the client's observer throws, the client stops
        to process the stream. */
    method Receive(accepts: bool)
      requires observer.Valid() && this in observer.streams
      modifies this`cursor, this`broken, observer`lastPosition, observer`delivered, observer`at
      ensures observer.Steps()
      ensures Got(accepts, old(observer.delivered), old(broken), old(cursor), observer.delivered, observer.lastPosition)
    {
      hide InOrder, NoGap, DistinctIds, StartIndex, Resilience.Valid, ResilientGrpcSubscription.History;
      if !broken && cursor < |observer.store.log| {
        var c := cursor;
        cursor := cursor + 1;
        broken := NotifyElement(observer.store.log[c], c, accepts);
      }
    }

    /** The fact at the cursor, if there is one, is handed on unless the stream or the subscription
        is closed, and noted if it is accepted. */
    ghost predicate Got(accepts: bool, was: seq<Fact>, wasBroken: bool, c: nat, delivered: seq<Fact>,
                        lastPosition: Option<int>)
      reads this, observer, observer.store
    {
      if wasBroken || c >= |observer.store.log| then delivered == was && broken == wasBroken && cursor == c
      else
        && cursor == c + 1
        && if closed || observer.isClosed then delivered == was && !broken
           else if accepts then delivered == was + [observer.store.log[c]] && !broken
                                && lastPosition == Some(observer.store.log[c].id)
           else delivered == was && broken
    }

    /** `notifyElement` */
    method NotifyElement(e: Fact, ghost c: nat, accepts: bool) returns (threw: bool)
      requires observer.History() && c < |observer.store.log| && e == observer.store.log[c]
      requires observer.since >= observer.created
      requires !closed && !observer.isClosed ==>
                 Next(observer.at, observer.start) <= c
                 && (!observer.ephemeral ==> c == Next(observer.at, observer.start))
      modifies observer`lastPosition, observer`delivered, observer`at
      ensures observer.History() && threw == (!closed && !observer.isClosed && !accepts)
      ensures if closed || observer.isClosed || threw
              then observer.delivered == old(observer.delivered) && observer.at == old(observer.at)
              else observer.delivered == old(observer.delivered) + [e] && observer.at == old(observer.at) + [c]
    {
      threw := false;
      if !closed {
        threw := observer.OnNext(e, c, accepts);
      }
    }

    /** `notifyError`: a stream that was open ends, and the subscription reconnects or fails. */
    method NotifyError(e: Cause, env: Conditions) returns (threw: bool, ghost retry: bool)
      requires observer.Valid() && this in observer.streams
      modifies observer, observer.streams, observer.resilience
      ensures observer.Steps() && observer.delivered == old(observer.delivered)
      ensures !old(closed) ==>
        catchup == Completed(old(catchup), Failed(e)) && complete == Completed(old(complete), Failed(e))
      ensures !old(closed) ==> observer.Handled(e, env, threw, retry, old(observer.streams), old(observer.isClosed),
                                                old(observer.resilience.clock), old(observer.resilience.all),
                                                old(observer.reported))
      ensures !old(closed) && !threw ==> closed
      ensures old(closed) ==> !threw && observer.Untouched()
    {
      hide InOrder, NoGap, DistinctIds, CountIn, Resilience.Valid, StartIndex, Next, Completed, SubscriptionImpl.Valid,
        ResilientGrpcSubscription.Handled, ResilientGrpcSubscription.History, ResilientGrpcSubscription.Streams,
        ResilientGrpcSubscription.OneLive;
      ghost var was, wasClosed, told := observer.streams, observer.isClosed, observer.reported;
      ghost var clock, all := observer.resilience.clock, observer.resilience.all;
      threw, retry := false, false;
      if !closed {
        FailFutures(e);
        threw, retry := observer.OnError(e, env);
        observer.NotCurrent(this, e, env, threw, retry, was, wasClosed, clock, all, told);
        if !threw {
          TryClose();
        }
      }
    }

    method FailFutures(e: Cause)
      requires observer.Valid() && this in observer.streams && !closed
      modifies this`catchup, this`complete
      ensures observer.Valid() && Lasting() && catchup != Pending && complete != Pending
      ensures catchup == Completed(old(catchup), Failed(e)) && complete == Completed(old(complete), Failed(e))
    {
      hide InOrder, NoGap, DistinctIds, CountIn, Resilience.Valid, StartIndex, Next;
      catchup := Completed(catchup, Failed(e));
      complete := Completed(complete, Failed(e));
    }

    /** `tryClose` */
    method TryClose()
      requires observer.Valid() && this in observer.streams && this != observer.current
      modifies this`closed, this`catchup, this`complete, this`ran
      ensures observer.Valid() && closed && Lasting()
    {
      hide InOrder, NoGap, DistinctIds, CountIn, Resilience.Valid, StartIndex, Next;
      Close();
    }

    /** `notifyCatchup` */
    method NotifyCatchup()
      requires Valid()
      modifies this`catchup
      ensures Valid() && catchup == if closed then old(catchup) else Completed(old(catchup), Done)
    {
      if !closed {
        catchup := Completed(catchup, Done);
      }
    }

    /** `notifyComplete` */
    method NotifyComplete()
      requires Valid()
      modifies this`closed, this`catchup, this`complete, this`ran
      ensures Valid() && closed
      ensures !old(closed) ==> catchup == Completed(old(catchup), Done) && complete == Completed(old(complete), Done)
      ensures old(closed) ==> catchup == old(catchup) && complete == old(complete)
      ensures ran == if old(closed) then old(ran) else onClose
    {
      if !closed {
        catchup := Completed(catchup, Done);
        complete := Completed(complete, Done);
        Close();
      }
    }
  }

  /** Anything that can happen, in any order and number: unless the request is ephemeral, what
      the observer has got is a stretch of the log, without gap or duplicate, which begins
      right behind the requested fact, if the store knew that one, or else at the start. */
  method Run(r: ResilientGrpcSubscription)
    requires r.Valid()
    modifies r, r.store, r.streams, r.resilience
    ensures r.Steps()
    ensures !r.ephemeral ==>
              var end := r.start + |r.delivered|; end <= |r.store.log| && r.delivered == r.store.log[r.start..end]
    ensures r.created <= |r.store.log| && (r.startingAfter.None? ==> r.start == 0)
    ensures forall i :: 0 <= i < r.created && r.startingAfter == Some(r.store.log[i].id) && r.delivered != [] ==>
      r.start == i + 1
    ensures DistinctIds(r.delivered)
  {
    hide ResilientGrpcSubscription.Valid;
    var n := AnyNumber();
    for i := 0 to n
      invariant r.Steps()
    {
      OneEvent(r);
    }
    if !r.ephemeral {
      GotStretch(r);
    }
    StartsBehind(r);
  }

  lemma StartsBehind(r: ResilientGrpcSubscription)
    requires r.Valid()
    ensures r.created <= |r.store.log| && (r.startingAfter.None? ==> r.start == 0)
    ensures forall i :: 0 <= i < r.created && r.startingAfter == Some(r.store.log[i].id) && r.delivered != [] ==>
      r.start == i + 1
    ensures DistinctIds(r.delivered)
  {
    forall i, j | 0 <= i < j < |r.delivered|
      ensures r.delivered[i].id != r.delivered[j].id
    {
      NoneTwice(r.store.log, r.delivered, r.at, i, j);
    }
    forall i | 0 <= i < r.created && r.startingAfter == Some(r.store.log[i].id) && r.delivered != []
      ensures r.start == i + 1
    {
      var log := r.store.log[..r.since];
      assert log[i] == r.store.log[i];
      StartIndexAt(log, i);
    }
  }

  lemma GotStretch(r: ResilientGrpcSubscription)
    requires r.Valid() && !r.ephemeral
    ensures r.start + |r.delivered| <= |r.store.log| && r.delivered == r.store.log[r.start..r.start + |r.delivered|]
  {
    Stretch(r.store.log, r.delivered, r.at, r.start);
  }

  method OneEvent(r: ResilientGrpcSubscription)
    requires r.Valid()
    modifies r, r.store, r.streams, r.resilience
    ensures r.Steps()
  {
    hide InOrder, NoGap, DistinctIds, Resilience.Valid;
    var event: nat, f: Fact, e: Cause, env: Conditions, accepts: bool := *, *, *, *, *;
    if event == 0 {
      PublishOne(r, f);
    } else if event == 1 {
      r.Close();
    } else if r.streams != {} {
      var s :| s in r.streams;
      if event == 2 {
        s.Receive(accepts);
      } else if event == 3 {
        var threw, retry := s.NotifyError(e, env);
      } else if event == 4 {
        s.NotifyCatchup();
      } else {
        s.NotifyComplete();
      }
    }
  }

  method PublishOne(r: ResilientGrpcSubscription, f: Fact)
    requires r.Valid()
    modifies r.store
    ensures r.Steps()
  {
    ghost var log := r.store.log;
    r.store.Publish(f);
    assert r.store.log[..r.since] == log[..r.since];
    assert forall i :: 0 <= i < |log| ==> r.store.log[i] == log[i];
  }

  class ResilientGrpcSubscription {
    const store: RemoteStore
    const startingAfter: Option<int>
    const ephemeral: bool
    const resilience: Resilience
    const retryable: Cause -> bool
    ghost const created: nat                // how long the log was when the subscription was created
    var lastPosition: Option<int>
    var current: SubscriptionImpl?
    var isClosed: bool
    var onErrorCause: Option<Cause>
    var reported: seq<Cause>    // to the client's observer

    var streams: set<SubscriptionImpl>      // kept by the model: all that were ever since
    ghost var live: SubscriptionImpl?       // the only one that may still deliver
    ghost var delivered: seq<Fact>          // what the client's observer has accepted
    ghost var at: seq<nat>                  // and where in the log that is
    ghost var since: nat                    // how long the log was when the first stream to
    ghost var start: nat                    // deliver a fact was opened, and where it began

    ghost predicate History()
      reads this, store
    {
      && DistinctIds(store.log) && start <= |store.log| && |at| == |delivered|
      && InOrder(store.log, delivered, at)
      && (!ephemeral ==> NoGap(at, start))
      && since <= |store.log| && start == StartIndex(store.log[..since], startingAfter)
      && created <= |store.log| && (delivered != [] ==> since >= created)
      && lastPosition == if delivered == [] then None else Some(delivered[|delivered| - 1].id)
    }

    ghost predicate Streams()
      reads this, streams
    {
      && (forall s :: s in streams ==> s.observer == this && s.Valid())
      && (current != null ==> current in streams)
      && (streams != {} ==> since >= created)
    }

    /** At most one stream can still deliver, it is the current one, and it stands where the
        observer expects the next fact. */
    ghost predicate OneLive()
      reads this, streams
    {
      && (forall s :: s in streams && s != live ==> s.Dead())
      && (live != null && live in streams && !live.Dead() ==>
            && current == live
            && Next(at, start) <= live.cursor
            && (!ephemeral ==> live.cursor == Next(at, start)))
    }

    ghost predicate Valid()
      reads this, store, streams, resilience
    {
      History() && Streams() && (!isClosed ==> OneLive()) && resilience.Valid()
    }

    /** Nothing but more facts for the observer, and none once it was closed. */
    twostate predicate Steps()
      reads this, store, streams, resilience
    {
      && Valid()
      && old(store.log) <= store.log
      && old(delivered) <= delivered && (old(isClosed) ==> isClosed && delivered == old(delivered))
      && (old(delivered) != [] ==> start == old(start)) && since >= old(since)
      && old(streams) <= streams && fresh(streams - old(streams))
      && (forall s :: s in old(streams) ==> s.Lasting())
    }

    /** `connect`; a subscription comes into being only if the handshake succeeds. */
    constructor (store: RemoteStore, startingAfter: Option<int>, ephemeral: bool, resilience: Resilience,
                 retryable: Cause -> bool, env: Conditions)
      requires DistinctIds(store.log) && resilience.Valid() && !env.handshakeFails
      modifies resilience
      ensures Valid() && this.store == store && this.startingAfter == startingAfter && this.ephemeral == ephemeral
      ensures this.resilience == resilience && this.retryable == retryable
      ensures delivered == [] && fresh(streams) && created == |store.log|
      ensures reported == Reports(env)
      ensures resilience.all == old(resilience.all) + [resilience.clock]
      ensures !env.connectFails && !env.tooEarly ==> current != null && !current.Dead() && !isClosed
    {
      hide InOrder, NoGap, DistinctIds, CountIn, Resilience.Valid, StartIndex, ResilientGrpcSubscription.WithinWindow;
      this.store, this.startingAfter, this.ephemeral, created := store, startingAfter, ephemeral, |store.log|;
      this.resilience, this.retryable := resilience, retryable;
      lastPosition, current, isClosed, onErrorCause, reported := None, null, false, None, [];
      streams, live, delivered, at, since, start := {}, null, [], [], 0, 0;
      new;
      NothingYet();
      var threw := DoConnect(env);
    }

    lemma NothingYet()
      requires DistinctIds(store.log) && created == |store.log| && resilience.Valid()
      requires lastPosition == None && current == null && streams == {} && live == null && delivered == []
      requires at == [] && since == 0 && start == 0
      ensures Valid()
    {
    }

    /** The client's `close`. */
    method Close()
      requires Valid()
      modifies this`isClosed, this`current, streams
      ensures Steps() && isClosed && streams == old(streams) && start == old(start) && delivered == old(delivered)
      ensures current == if old(isClosed) then old(current) else null
    {
      if !isClosed {
        isClosed := true;
        CloseAndDetachSubscription();
      }
    }

    method CloseAndDetachSubscription()
      requires Valid()
      modifies this`current, streams
      ensures Valid() && current == null && (!isClosed ==> forall s :: s in streams ==> s.Dead())
      ensures forall s :: s in streams ==> s.Lasting()
      ensures var s := old(current); s != null ==> s.closed
    {
      if current != null {
        current.Close();
      }
      current := null;
    }

    /** `fail`, which tells the observer and throws in the end. */
    method Fail(e: Cause)
      requires Valid()
      modifies this`isClosed, this`current, this`reported, streams
      ensures Steps() && isClosed && streams == old(streams) && start == old(start) && delivered == old(delivered)
      ensures current == (if old(isClosed) then old(current) else null) && reported == old(reported) + [e]
    {
      Close();
      reported := reported + [e];
    }

    /** Where a stream begins that is opened now. */
    ghost function Resume(): nat
      reads this, store
    {
      if ephemeral then |store.log|
      else StartIndex(store.log, if lastPosition.Some? then lastPosition else startingAfter)
    }

    /** One more stream, the current one now, that begins where the observer expects the next fact. */
    ghost predicate Opened(was: set<SubscriptionImpl>)
      reads this, store, current
    {
      && current != null && current !in was && streams == was + {current}
      && current.cursor == Resume() >= Next(at, start) && (!ephemeral ==> Resume() == Next(at, start))
    }

    /** When there is a new stream, the others can deliver no more. */
    twostate predicate OthersDead()
      reads this, streams
    {
      streams != old(streams) && !isClosed ==> forall s :: s in streams && s != current ==> s.Dead()
    }

    /** `doConnect`: the request asks for what follows the last position, if there is one. */
    method DoConnect(env: Conditions) returns (threw: bool)
      requires Valid()
      modifies this`current, this`isClosed, this`onErrorCause, this`reported, this`streams, this`live, this`since,
        this`start, streams, resilience
      ensures Steps() && delivered == old(delivered) && OthersDead()
      ensures threw <==> old(current) == null && env.connectFails
      ensures old(current) != null ==> current == old(current) && streams == old(streams) && isClosed == old(isClosed)
      ensures reported == old(reported) + if old(current) != null then [] else Reports(env)
      ensures old(current) == null && !threw ==> Connected(env, old(streams), old(isClosed))
      ensures threw ==> isClosed && streams == old(streams) && onErrorCause == old(onErrorCause) && current == null
      ensures resilience.all == old(resilience.all) + [resilience.clock] && old(resilience.clock) <= resilience.clock
      ensures old(resilience.allowed) ==> WithinWindow()
    {
      hide InOrder, NoGap, DistinctIds, StartIndex, SubscriptionImpl.Valid, Completed, CountIn, Resilience.Valid;
      resilience.RegisterAttempt();
      threw := false;
      if current == null {
        if env.connectFails {
          Fail(env.cause);
          threw := true;
        } else {
          OpenStream(env.tooEarly, env.retryTooEarly, env.cause);
        }
      }
    }

    /** What the observer is told when connecting goes wrong. */
    function Reports(env: Conditions): seq<Cause>
    {
      if env.connectFails || (env.tooEarly && !env.retryTooEarly) then [env.cause] else []
    }

    /** The window that ends now has as many attempts as are configured, at most. */
    ghost predicate WithinWindow()
      reads resilience
    {
      CountIn(resilience.all, resilience.clock - resilience.window, resilience.clock) <= resilience.attempts
    }

    /** There is a new stream, which is open unless an error came too early. */
    ghost predicate Connected(env: Conditions, was: set<SubscriptionImpl>, wasClosed: bool)
      reads this, store, current
    {
      && Opened(was) && onErrorCause == None && !current.broken
      && (current.closed <==> env.tooEarly && env.retryTooEarly)
      && isClosed == (wasClosed || (env.tooEarly && !env.retryTooEarly))
    }

    /** `internalSubscribe`. An error may reach the new stream even before it is the current
        one; the attempt to reconnect then finds that there is a current stream already, and
        leaves it at that, although this one is closed. */
    method OpenStream(tooEarly: bool, retry: bool, e: Cause)
      requires Valid() && current == null
      modifies this`current, this`isClosed, this`onErrorCause, this`reported, this`streams, this`live, this`since,
        this`start
      ensures Steps() && delivered == old(delivered)
      ensures (delivered == [] ==> start == StartIndex(store.log, startingAfter))
      ensures Opened(old(streams)) && onErrorCause == None && !current.broken && (current.closed <==> tooEarly && retry)
      ensures isClosed == (old(isClosed) || (tooEarly && !retry))
      ensures reported == old(reported) + if tooEarly && !retry then [e] else []
    {
      hide InOrder, NoGap, DistinctIds, StartIndex, Next, SubscriptionImpl.Valid, Completed, Resilience.Valid, CountIn,
        ResilientGrpcSubscription.OneLive, ResilientGrpcSubscription.History, ResilientGrpcSubscription.Streams;
      NoneLive();
      var s := NewStream();
      Attach(s, tooEarly, retry, e);
    }

    /** The stream that `internalSubscribe` opens, which starts where the observer expects the next
        fact. */
    method NewStream() returns (s: SubscriptionImpl)
      requires Valid() && current == null
      modifies this`since, this`start
      ensures fresh(s) && s.observer == this && s.Valid() && !s.Dead()
      ensures History() && Streams() && since >= created && since >= old(since)
      ensures s.cursor == Resume() >= Next(at, start) && (!ephemeral ==> Resume() == Next(at, start))
      ensures delivered == [] ==> start == StartIndex(store.log, startingAfter)
      ensures delivered != [] ==> start == old(start)
    {
      hide InOrder, DistinctIds, StartIndex, OneLive, SubscriptionImpl.Valid, Completed, Resilience.Valid, CountIn;
      var last := if lastPosition.Some? then lastPosition else startingAfter;
      s := new SubscriptionImpl(this, if ephemeral then |store.log| else StartIndex(store.log, last));
      ResumesAt();
      if delivered == [] {
        since, start := |store.log|, StartIndex(store.log, startingAfter);
        assert store.log[..since] == store.log;
      }
    }

    lemma ResumesAt()
      requires Valid()
      ensures delivered != [] ==> Next(at, start) <= Resume() && (!ephemeral ==> Resume() == Next(at, start))
      ensures delivered == [] ==> at == [] && lastPosition == None && Next([], start) == start
    {
      if delivered != [] {
        GoesOn(store.log, delivered, at, start);
        LastIsThere(store.log, delivered, at);
      }
    }

    lemma NoneLive()
      requires Valid() && current == null
      ensures History() && Streams() && resilience.Valid()
      ensures !isClosed ==> forall s :: s in streams ==> s.Dead()
    {
    }

    method Attach(s: SubscriptionImpl, tooEarly: bool, retry: bool, e: Cause)
      requires History() && Streams() && current == null && (!isClosed ==> forall t :: t in streams ==> t.Dead())
      requires resilience.Valid()
      requires s !in streams && s.observer == this && s.Valid() && !s.Dead() && since >= created
      requires Next(at, start) <= s.cursor && (!ephemeral ==> s.cursor == Next(at, start))
      modifies this`current, this`isClosed, this`onErrorCause, this`reported, this`streams, this`live, s
      ensures Valid() && streams == old(streams) + {s} && current == s && (s.closed <==> tooEarly && retry)
      ensures s.cursor == old(s.cursor) && s.broken == old(s.broken) && onErrorCause == None
      ensures isClosed == (old(isClosed) || (tooEarly && !retry))
      ensures reported == old(reported) + if tooEarly && !retry then [e] else []
    {
      hide InOrder, NoGap, DistinctIds, Next, Completed, StartIndex, CountIn, Resilience.Valid,
        SubscriptionImpl.Valid;
      streams, live := streams + {s}, s;
      if tooEarly && !retry {
        isClosed, reported := true, reported + [e];
      }
      current, onErrorCause := s, None;
      if tooEarly && retry {
        s.Close();
      }
    }

    lemma LastIsThere(log: seq<Fact>, delivered: seq<Fact>, at: seq<nat>)
      requires InOrder(log, delivered, at) && delivered != []
      ensures Next(at, 0) <= |log|
    {
    }

    // ---- DelegatingFactObserver ---------------------------------------------------------

    /** `onNext`: the fact is handed on unless the subscription was closed; the position is
        noted only if the client's observer accepts it. */
    method OnNext(element: Fact, ghost c: nat, accepts: bool) returns (threw: bool)
      requires History() && c < |store.log| && element == store.log[c] && since >= created
      requires !isClosed ==> Next(at, start) <= c && (!ephemeral ==> c == Next(at, start))
      modifies this`lastPosition, this`delivered, this`at
      ensures History() && threw == (!isClosed && !accepts)
      ensures if isClosed || threw then delivered == old(delivered) && at == old(at)
              else delivered == old(delivered) + [element] && at == old(at) + [c]
    {
      threw := false;
      if !isClosed {
        threw := !accepts;
        if !threw {
          hide InOrder, NoGap, DistinctIds;
          OneMore(store.log, delivered, at, start, c);
          delivered, at := delivered + [element], at + [c];
          lastPosition := Some(element.id);
        }
      }
    }

    /** `onError`, with the wait before a retry, during which the client may close the
        subscription. */
    method OnError(e: Cause, env: Conditions) returns (threw: bool, ghost retry: bool)
      requires Valid()
      modifies this`current, this`isClosed, this`onErrorCause, this`reported, this`streams, this`live, this`since,
        this`start, streams, resilience
      ensures Steps() && delivered == old(delivered) && OthersDead()
      ensures var s := old(current); s != null ==> s.closed
      ensures Handled(e, env, threw, retry, old(streams), old(isClosed), old(resilience.clock), old(resilience.all),
                      old(reported))
    {
      hide InOrder, NoGap, DistinctIds, CountIn, Resilience.Valid, StartIndex, ResilientGrpcSubscription.Handled;
      onErrorCause := Some(e);
      CloseAndDetachSubscription();
      threw, retry := RetryOrFail(e, env);
    }

    /** The second part of `onError`, when no stream is the current one. */
    method RetryOrFail(e: Cause, env: Conditions) returns (threw: bool, ghost retry: bool)
      requires Valid() && current == null && onErrorCause == Some(e)
      modifies this`current, this`isClosed, this`onErrorCause, this`reported, this`streams, this`live, this`since,
        this`start, streams, resilience
      ensures Steps() && delivered == old(delivered) && OthersDead()
      ensures Handled(e, env, threw, retry, old(streams), old(isClosed), old(resilience.clock), old(resilience.all),
                      old(reported))
    {
      hide InOrder, NoGap, DistinctIds, CountIn, Resilience.Valid, StartIndex, ResilientGrpcSubscription.History,
        ResilientGrpcSubscription.Streams, ResilientGrpcSubscription.OneLive, SubscriptionImpl.Valid,
        SubscriptionImpl.Dead;
      var again := resilience.ShouldRetry(retryable(e));
      retry := again;
      ghost var t := resilience.clock;
      assert Allowed(e, resilience.all, t, retry);
      if again {
        if env.closedMeanwhile {
          Close();
        }
        threw := ReConnect(env);
      } else {
        Fail(e);
        threw := true;
      }
    }

    /** `reConnect`: what the handshake throws is not caught. */
    method ReConnect(env: Conditions) returns (threw: bool)
      requires Valid() && current == null
      modifies this`current, this`isClosed, this`onErrorCause, this`reported, this`streams, this`live, this`since,
        this`start, streams, resilience
      ensures Steps() && delivered == old(delivered) && OthersDead()
      ensures old(resilience.clock) <= resilience.clock && (threw <==> env.handshakeFails || env.connectFails)
      ensures reported == old(reported) + if env.handshakeFails then [] else Reports(env)
      ensures env.handshakeFails ==>
        streams == old(streams) && current == null && isClosed == old(isClosed) && onErrorCause == old(onErrorCause)
        && resilience.all == old(resilience.all)
      ensures !env.handshakeFails && threw ==>
        isClosed && streams == old(streams) && current == null && onErrorCause == old(onErrorCause)
      ensures !threw ==> Connected(env, old(streams), old(isClosed)) && (old(resilience.allowed) ==> WithinWindow())
    {
      hide InOrder, NoGap, DistinctIds, CountIn, Resilience.Valid, StartIndex;
      if env.handshakeFails {
        return true;
      }
      threw := DoConnect(env);
    }

    /** What an error comes to: a retry exactly if one is allowed, and with it a new stream, unless
        the handshake or the subscription behind it fails. Then, and without a retry, the
        subscription is closed; but not if it was the handshake that failed. */
    ghost predicate Handled(e: Cause, env: Conditions, threw: bool, retry: bool, was: set<SubscriptionImpl>,
                            wasClosed: bool, clock: int, all: seq<int>, told: seq<Cause>)
      reads this, store, current, resilience
    {
      && (threw <==> !retry || env.handshakeFails || env.connectFails)
      && (threw ==> streams == was && current == null && onErrorCause == Some(e))
      && (threw && !(retry && env.handshakeFails) ==> isClosed)
      && (threw && retry && env.handshakeFails ==> isClosed == (wasClosed || env.closedMeanwhile))
      && (!threw ==> Connected(env, was, wasClosed || env.closedMeanwhile) && WithinWindow())
      && reported == told + (if !retry then [e] else if env.handshakeFails then [] else Reports(env))
      && (retry ==> resilience.enabled && retryable(e))
      && (exists t :: clock <= t <= resilience.clock && Allowed(e, all, t, retry))
    }

    /** After an error, a subscription that was open is without a stream that can deliver, and not
        closed either, exactly if it retries and the handshake fails, or a new error comes before
        the new stream is the current one. */
    lemma WhenStuck(e: Cause, env: Conditions, threw: bool, retry: bool, was: set<SubscriptionImpl>, clock: int,
                    all: seq<int>, told: seq<Cause>)
      requires Handled(e, env, threw, retry, was, false, clock, all, told)
      ensures !isClosed && (current == null || current.Dead()) <==>
                retry && !env.closedMeanwhile
                && (env.handshakeFails || (!env.connectFails && env.tooEarly && env.retryTooEarly))
    {
    }

    lemma NotCurrent(s: SubscriptionImpl, e: Cause, env: Conditions, threw: bool, retry: bool,
                     was: set<SubscriptionImpl>, wasClosed: bool, clock: int, all: seq<int>, told: seq<Cause>)
      requires Handled(e, env, threw, retry, was, wasClosed, clock, all, told) && s in was
      ensures s != current
    {
    }

    /** Whether a retry is allowed at time `t`. */
    ghost predicate Allowed(e: Cause, all: seq<int>, t: int, retry: bool)
    {
      retry <==> resilience.enabled && retryable(e)
                 && CountIn(all, t - resilience.window, t) < resilience.attempts
    }

    /** Nothing has happened. */
    twostate predicate Untouched()
      reads this, resilience
    {
      && streams == old(streams) && current == old(current) && isClosed == old(isClosed)
      && onErrorCause == old(onErrorCause) && reported == old(reported) && resilience.all == old(resilience.all)
    }
  }

  const CALM := Conditions(false, false, false, false, false, 1)

  /** A new subscription gets an error that may be retried, and meanwhile the handshake fails, or
      an error hits the new stream before it is the current one. A fact that is published then
      is never delivered, although the subscription is not closed. */
  method LeftAlone(f: Fact, early: bool)
    returns (closed: bool, reconnected: bool, last: Option<int>, reported: seq<Cause>)
    ensures !closed && !reconnected && last == None && reported == []
  {
    hide InOrder, NoGap, DistinctIds, StartIndex, CountIn, Resilience.Valid, ResilientGrpcSubscription.Valid,
      ResilientGrpcSubscription.Handled, SubscriptionImpl.Valid, From, Bounded;
    var store := new RemoteStore();
    var resilience := new Resilience(true, 10, 30000, 0);
    assert DistinctIds(store.log) by { NoFacts(); }
    var r := new ResilientGrpcSubscription(store, None, false, resilience, c => true, CALM);
    var s := r.current;
    assert s != null && !s.closed && s in r.streams && s.observer == r by { CurrentIsThere(r); }
    var env := Conditions(!early, false, early, early, false, 1);
    ghost var was, clock, all, told := r.streams, resilience.clock, resilience.all, r.reported;
    var threw, retry := s.NotifyError(1, env);
    Retried(r, 1, env, threw, retry, was, clock, all, told);
    r.WhenStuck(1, env, threw, retry, was, clock, all, told);
    PublishOne(r, f);
    if r.current != null {
      CurrentIsThere(r);
      r.current.Receive(true);
    }
    NothingNoted(r);
    closed, reconnected := r.isClosed, r.current != null && !r.current.closed && !r.current.broken;
    last, reported := r.lastPosition, r.reported;
  }

  lemma NoFacts()
    ensures DistinctIds([])
  {
  }

  lemma NothingNoted(r: ResilientGrpcSubscription)
    requires r.Valid() && r.delivered == []
    ensures r.lastPosition == None
  {
  }

  lemma CurrentIsThere(r: ResilientGrpcSubscription)
    requires r.Valid() && r.current != null
    ensures r.current in r.streams && r.current.observer == r
  {
  }

  /** With a single attempt so far, of ten, a retry is allowed. */
  lemma Retried(r: ResilientGrpcSubscription, e: Cause, env: Conditions, threw: bool, retry: bool,
                was: set<SubscriptionImpl>, clock: int, all: seq<int>, told: seq<Cause>)
    requires r.Handled(e, env, threw, retry, was, false, clock, all, told)
    requires |all| == 1 && r.resilience.enabled && r.resilience.attempts == 10 && r.retryable(e)
    ensures retry && r.reported == told + if env.handshakeFails then [] else r.Reports(env)
  {
    var t :| clock <= t <= r.resilience.clock && r.Allowed(e, all, t, retry);
    CountAtMost(all, t - r.resilience.window, t);
  }
}
