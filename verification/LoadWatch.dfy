/** `LoadWatcher::wait` of `src/cdp/session.rs`, over a bounded broadcast channel: a receiver
    that falls more than the capacity behind loses the oldest events. */
module LoadWatchModel {
  import opened Wrappers
  import opened TransportModel

  const CAPACITY: nat := 256

  datatype Received = Event(event: CdpEvent) | Lagged(dropped: nat) | Closed

  /** The next thing received at position `at` when `size` events have been published;
      at the end of the stream that is its closing. */
  function Recv(published: seq<CdpEvent>, at: nat, size: nat): (Received, nat)
    requires at <= size <= |published|
  {
    if at == size then (Closed, at)
    else if size - at > CAPACITY then (Lagged(size - CAPACITY - at), size - CAPACITY)
    else (Event(published[at]), at + 1)
  }

  predicate IsLoad(e: CdpEvent, session: string) {
    e.name == "Page.loadEventFired" && e.sessionId == Some(session)
  }

  datatype Failure = TimedOut | ConnectionClosed

  /** `sizes` tells how many events had been published at each receive; a receive with
      nothing left completes only once the stream has ended, and the receives end with
      the timeout. */
  ghost predicate Polls(published: seq<CdpEvent>, sizes: seq<nat>, at: nat)
    decreases |sizes|
  {
    sizes == [] ||
    (at <= sizes[0] <= |published| && (at == sizes[0] ==> at == |published|)
     && Polls(published, sizes[1..], Recv(published, at, sizes[0]).1))
  }

  /** The event a wait ends on, or why it fails. */
  function Wait(published: seq<CdpEvent>, session: string, sizes: seq<nat>, at: nat): Result<nat, Failure>
    requires Polls(published, sizes, at)
    decreases |sizes|
  {
    if sizes == [] then Err(TimedOut)
    else
      var (received, next) := Recv(published, at, sizes[0]);
      match received
      case Event(e) => if IsLoad(e, session) then Ok(at) else Wait(published, session, sizes[1..], next)
      case Lagged(_) => Wait(published, session, sizes[1..], next)
      case Closed => Err(ConnectionClosed)
  }

  /** Event `k` is handed to the receiver by one of its receives. */
  predicate Reads(published: seq<CdpEvent>, sizes: seq<nat>, at: nat, k: nat)
    requires Polls(published, sizes, at)
    decreases |sizes|
  {
    sizes != [] &&
    var (received, next) := Recv(published, at, sizes[0]);
    match received
    case Event(_) => at == k || Reads(published, sizes[1..], next, k)
    case Lagged(_) => Reads(published, sizes[1..], next, k)
    case Closed => false
  }

  lemma {:induction false} ReadsAhead(published: seq<CdpEvent>, sizes: seq<nat>, at: nat, k: nat)
    requires Polls(published, sizes, at) && Reads(published, sizes, at, k)
    ensures at <= k < |published|
    decreases |sizes|
  {
    var next := Recv(published, at, sizes[0]).1;
    if at != k {
      ReadsAhead(published, sizes[1..], next, k);
    }
  }

  /** Event `k` is a load of this page, and is handed to the receiver. */
  ghost predicate LoadRead(published: seq<CdpEvent>, session: string, sizes: seq<nat>, at: nat, k: nat)
    requires Polls(published, sizes, at)
  {
    && k < |published| && Reads(published, sizes, at, k)
    && published[k].name == "Page.loadEventFired" && published[k].sessionId == Some(session)
  }

  ghost predicate ReadsLoad(published: seq<CdpEvent>, session: string, sizes: seq<nat>, at: nat)
    requires Polls(published, sizes, at)
  {
    exists k: nat :: LoadRead(published, session, sizes, at, k)
  }

  /** Waiting succeeds exactly when some receive hands over a load event of this page:
      never on another page's, nor on the mere suspicion that one was dropped. */
  lemma {:induction false} WaitIffLoadRead(published: seq<CdpEvent>, session: string, sizes: seq<nat>, at: nat)
    requires Polls(published, sizes, at)
    ensures Wait(published, session, sizes, at).Ok? <==> ReadsLoad(published, session, sizes, at)
    decreases |sizes|
  {
    if sizes != [] {
      var (received, next) := Recv(published, at, sizes[0]);
      if !received.Closed? {
        WaitIffLoadRead(published, session, sizes[1..], next);
        if ReadsLoad(published, session, sizes[1..], next) {
          var k: nat :| LoadRead(published, session, sizes[1..], next, k);
          assert LoadRead(published, session, sizes, at, k);
        }
        if received.Event? && IsLoad(received.event, session) {
          assert LoadRead(published, session, sizes, at, at);
        } else if ReadsLoad(published, session, sizes, at) {
          var k: nat :| LoadRead(published, session, sizes, at, k);
          assert LoadRead(published, session, sizes[1..], next, k);
        }
      }
    }
  }

  /** Some receive finds the stream at its end. */
  predicate ReachesEnd(published: seq<CdpEvent>, sizes: seq<nat>, at: nat)
    requires Polls(published, sizes, at)
    decreases |sizes|
  {
    sizes != [] && (at == |published| || ReachesEnd(published, sizes[1..], Recv(published, at, sizes[0]).1))
  }

  /** A wait that reads no load says why: the stream ended under it, or the time did. */
  lemma {:induction false} WaitFailsFor(published: seq<CdpEvent>, session: string, sizes: seq<nat>, at: nat)
    requires Polls(published, sizes, at) && !ReadsLoad(published, session, sizes, at)
    ensures Wait(published, session, sizes, at)
         == Err(if ReachesEnd(published, sizes, at) then ConnectionClosed else TimedOut)
    decreases |sizes|
  {
    WaitIffLoadRead(published, session, sizes, at);
    if sizes != [] && at < sizes[0] {
      var next := Recv(published, at, sizes[0]).1;
      WaitIffLoadRead(published, session, sizes[1..], next);
      WaitFailsFor(published, session, sizes[1..], next);
    }
  }

  /** Where the receiver stands once all the receives are made. */
  function Position(published: seq<CdpEvent>, sizes: seq<nat>, at: nat): nat
    requires Polls(published, sizes, at)
    decreases |sizes|
  {
    if sizes == [] then at else Position(published, sizes[1..], Recv(published, at, sizes[0]).1)
  }

  /** No receive made while event `k` is still ahead finds it pushed out of the channel. */
  ghost predicate NeverOverrun(published: seq<CdpEvent>, sizes: seq<nat>, at: nat, k: nat)
    requires Polls(published, sizes, at)
    decreases |sizes|
  {
    sizes == [] || at > k ||
    (sizes[0] <= k + 256 && NeverOverrun(published, sizes[1..], Recv(published, at, sizes[0]).1, k))
  }

  lemma {:induction false} PositionGrows(published: seq<CdpEvent>, sizes: seq<nat>, at: nat)
    requires Polls(published, sizes, at)
    ensures Position(published, sizes, at) >= at
    decreases |sizes|
  {
    if sizes != [] {
      PositionGrows(published, sizes[1..], Recv(published, at, sizes[0]).1);
    }
  }

  /** An event subscribed to in time is read exactly when the receiver gets past it before
      the timeout and is never overrun while still behind it. */
  lemma {:induction false} ReadsIff(published: seq<CdpEvent>, sizes: seq<nat>, at: nat, k: nat)
    requires Polls(published, sizes, at) && at <= k < |published|
    ensures Reads(published, sizes, at, k) <==>
              Position(published, sizes, at) > k && NeverOverrun(published, sizes, at, k)
    decreases |sizes|
  {
    if sizes != [] {
      var next := Recv(published, at, sizes[0]).1;
      PositionGrows(published, sizes[1..], next);
      if next <= k {
        ReadsIff(published, sizes[1..], next, k);
      } else {
        assert NeverOverrun(published, sizes[1..], next, k);
        if Reads(published, sizes[1..], next, k) {
          ReadsAhead(published, sizes[1..], next, k);
        }
      }
    }
  }

  /** Such an overrun: a load already published is lost behind 256 later events. */
  lemma OverrunLosesLoad(published: seq<CdpEvent>, session: string)
    requires |published| == 257 && IsLoad(published[0], session)
    ensures Polls(published, [|published|], 0) && Wait(published, session, [|published|], 0) == Err(TimedOut)
  {
  }

  /** A successful wait ends on the first load of this page it reads. */
  lemma {:induction false} EndsOnFirstLoad(published: seq<CdpEvent>, session: string, sizes: seq<nat>, at: nat)
    requires Polls(published, sizes, at) && Wait(published, session, sizes, at).Ok?
    ensures var end := Wait(published, session, sizes, at).value;
            && LoadRead(published, session, sizes, at, end)
            && forall j: nat :: j < end ==> !LoadRead(published, session, sizes, at, j)
    decreases |sizes|
  {
    var (received, next) := Recv(published, at, sizes[0]);
    if received.Lagged? || !IsLoad(received.event, session) {
      EndsOnFirstLoad(published, session, sizes[1..], next);
    }
    forall j: nat | j < Wait(published, session, sizes, at).value && LoadRead(published, session, sizes, at, j)
      ensures false
    {
      ReadsAhead(published, sizes, at, j);
      assert LoadRead(published, session, sizes[1..], next, j);
    }
  }

  /** A successful wait ends at `limit` or later exactly when every load of this page between
      its start and `limit` is overrun before it is read. */
  lemma EndsLateIff(published: seq<CdpEvent>, session: string, sizes: seq<nat>, at: nat, limit: nat)
    requires Polls(published, sizes, at) && Wait(published, session, sizes, at).Ok? && limit <= |published|
    ensures Wait(published, session, sizes, at).value >= limit <==>
              forall j: nat :: at <= j < limit && IsLoad(published[j], session) ==> !NeverOverrun(published, sizes, at, j)
  {
    var end := Wait(published, session, sizes, at).value;
    EndsOnFirstLoad(published, session, sizes, at);
    ReadsAhead(published, sizes, at, end);
    ReadsIff(published, sizes, at, end);
    if end >= limit {
      forall j: nat | at <= j < limit && IsLoad(published[j], session)
        ensures !NeverOverrun(published, sizes, at, j)
      {
        ReadsIff(published, sizes, at, j);
        assert !LoadRead(published, session, sizes, at, j);
      }
    }
  }
}

/** Enabling a domain, subscribing and navigating, by many callers of one page: every
    await is a point where the others may go on. */
module PageModel {
  import opened Wrappers
  import opened TransportModel
  import opened LoadWatchModel

  /** Where one `navigate_and_wait` stands; `sub` is where its subscription starts. */
  datatype Caller =
    | Subscribed(sub: nat)
    | Enabling(sub: nat)                 // holds the lock; the command is on its way
    | Acknowledged(sub: nat)             // holds the lock; the browser has answered
    | Ready(sub: nat)
    | Triggered(sub: nat, trigger: nat)  // navigated after `trigger` events
    | Ended

  /** `enabled` is the page's record, `observing` whether the browser emits load events. */
  datatype Page = Page(
    callers: map<nat, Caller>,
    enabled: bool,
    observing: bool,
    sent: nat,
    published: seq<CdpEvent>)

  const Start := Page(map[], false, false, 0, [])

  datatype Step =
    | Subscribe(id: nat)
    | Lock(id: nat)
    | BrowserEnables(id: nat)
    | Record(id: nat)
    | EnableFails(id: nat, late: bool)
    | Navigate(id: nat)
    | Publish(event: CdpEvent)
    | End(id: nat)

  predicate Holds(c: Caller) {
    c.Enabling? || c.Acknowledged?
  }

  ghost predicate Locked(p: Page) {
    exists id <- p.callers :: Holds(p.callers[id])
  }

  ghost predicate Enabled(p: Page, step: Step) {
    match step
    case Subscribe(id) => id !in p.callers
    case Lock(id) => id in p.callers && p.callers[id].Subscribed? && !Locked(p)
    case BrowserEnables(id) => id in p.callers && p.callers[id].Enabling?
    case Record(id) => id in p.callers && p.callers[id].Acknowledged?
    case EnableFails(id, _) => id in p.callers && Holds(p.callers[id])
    case Navigate(id) => id in p.callers && p.callers[id].Ready?
    case Publish(_) => true
    case End(id) => id in p.callers
  }

  ghost function Apply(p: Page, step: Step): Page
    requires Enabled(p, step)
  {
    match step
    case Subscribe(id) => p.(callers := p.callers[id := Subscribed(|p.published|)])
    // Inside the lock: nothing to do if recorded, otherwise the command goes out.
    case Lock(id) =>
      var sub := p.callers[id].sub;
      if p.enabled then p.(callers := p.callers[id := Ready(sub)])
      else p.(callers := p.callers[id := Enabling(sub)], sent := p.sent + 1)
    case BrowserEnables(id) => p.(callers := p.callers[id := Acknowledged(p.callers[id].sub)], observing := true)
    case Record(id) => p.(callers := p.callers[id := Ready(p.callers[id].sub)], enabled := true)
    // An error or a timeout; the browser may have acted on the command all the same.
    case EnableFails(id, late) => p.(callers := p.callers[id := Ended], observing := p.observing || late)
    case Navigate(id) => p.(callers := p.callers[id := Triggered(p.callers[id].sub, |p.published|)])
    case Publish(event) => p.(published := p.published + [event])
    case End(id) => p.(callers := p.callers[id := Ended])
  }

  ghost predicate CallerOk(p: Page, id: nat) {
    id in p.callers ==>
      match p.callers[id]
      case Ended => true
      case Subscribed(sub) => sub <= |p.published|
      case Enabling(sub) => sub <= |p.published| && !p.enabled
      case Acknowledged(sub) => sub <= |p.published| && !p.enabled && p.observing
      case Ready(sub) => sub <= |p.published| && p.enabled
      case Triggered(sub, trigger) => sub <= trigger <= |p.published| && p.enabled
  }

  /** The lock has one holder at most. */
  ghost predicate Exclusive(p: Page, id: nat, other: nat) {
    id in p.callers && other in p.callers && Holds(p.callers[id]) && Holds(p.callers[other]) ==> id == other
  }

  /** The record never runs ahead of the browser. */
  ghost predicate Inv(p: Page) {
    && (p.enabled ==> p.observing)
    && (forall id: nat :: CallerOk(p, id))
    && forall id: nat, other: nat :: Exclusive(p, id, other)
  }

  lemma StepKeepsExclusive(p: Page, step: Step, id: nat, other: nat)
    requires Inv(p) && Enabled(p, step)
    ensures Exclusive(Apply(p, step), id, other)
  {
    assert Exclusive(p, id, other);
  }

  lemma StepKeepsCaller(p: Page, step: Step, id: nat)
    requires Inv(p) && Enabled(p, step)
    ensures CallerOk(Apply(p, step), id)
  {
    assert CallerOk(p, id);
    if step.Record? || step.BrowserEnables? || step.Lock? || step.Navigate? {
      assert CallerOk(p, step.id) && Exclusive(p, id, step.id);
    }
  }

  lemma StepKeepsInv(p: Page, step: Step)
    requires Inv(p) && Enabled(p, step)
    ensures Inv(Apply(p, step))
  {
    forall id: nat
      ensures CallerOk(Apply(p, step), id)
    {
      StepKeepsCaller(p, step, id);
    }
    forall id: nat, other: nat
      ensures Exclusive(Apply(p, step), id, other)
    {
      StepKeepsExclusive(p, step, id, other);
    }
    assert step.Record? ==> CallerOk(p, step.id);
  }

  ghost predicate Runnable(p: Page, steps: seq<Step>)
    decreases |steps|
  {
    steps == [] || (Enabled(p, steps[0]) && Runnable(Apply(p, steps[0]), steps[1..]))
  }

  ghost function After(p: Page, steps: seq<Step>): Page
    requires Runnable(p, steps)
    decreases |steps|
  {
    if steps == [] then p else After(Apply(p, steps[0]), steps[1..])
  }

  lemma Compose(p: Page, rest: seq<Step>, step: Step)
    requires Enabled(p, step) && Runnable(Apply(p, step), rest)
    ensures Runnable(p, [step] + rest) && After(p, [step] + rest) == After(Apply(p, step), rest)
  {
    assert ([step] + rest)[1..] == rest;
  }

  lemma {:induction false} RunKeepsInv(p: Page, steps: seq<Step>)
    requires Inv(p) && Runnable(p, steps)
    ensures Inv(After(p, steps)) && p.published <= After(p, steps).published
    decreases |steps|
  {
    if steps != [] {
      StepKeepsInv(p, steps[0]);
      RunKeepsInv(Apply(p, steps[0]), steps[1..]);
    }
  }

  /** Every interleaving: whoever may navigate does so with the browser already emitting
      load events and with a subscription that starts no later than the navigation. */
  lemma NavigatesObserved(steps: seq<Step>, id: nat)
    requires Runnable(Start, steps) && Enabled(After(Start, steps), Navigate(id))
    ensures var p := After(Start, steps);
            && p.observing && p.callers[id].sub <= |p.published|
            && Apply(p, Navigate(id)).callers[id] == Triggered(p.callers[id].sub, |p.published|)
  {
    RunKeepsInv(Start, steps);
    assert CallerOk(After(Start, steps), id);
  }

  /** Where a call's subscription starts, for as long as it has one. */
  function StartsAt(c: Caller): Option<nat> {
    if c.Ended? then None else Some(c.sub)
  }

  lemma StepKeepsStart(p: Page, step: Step, id: nat)
    requires Enabled(p, step) && id in p.callers
    ensures id in Apply(p, step).callers
    ensures var start := StartsAt(Apply(p, step).callers[id]); start == None || start == StartsAt(p.callers[id])
  {
  }

  lemma {:induction false} RunKeepsStart(p: Page, steps: seq<Step>, id: nat)
    requires Runnable(p, steps) && id in p.callers
    ensures id in After(p, steps).callers
    ensures var start := StartsAt(After(p, steps).callers[id]); start == None || start == StartsAt(p.callers[id])
    decreases |steps|
  {
    if steps != [] {
      StepKeepsStart(p, steps[0], id);
      RunKeepsStart(Apply(p, steps[0]), steps[1..], id);
    }
  }

  /** A subscription starts with the first event published after it, and whatever happens later it
      stays there: nothing older can end its wait, and nothing newer is passed over. */
  lemma SubscriptionStartsNow(p: Page, steps: seq<Step>, id: nat)
    requires Enabled(p, Subscribe(id)) && Runnable(Apply(p, Subscribe(id)), steps)
    ensures var q := After(Apply(p, Subscribe(id)), steps);
            id in q.callers && (q.callers[id].Ended? || q.callers[id].sub == |p.published|)
  {
    RunKeepsStart(Apply(p, Subscribe(id)), steps, id);
  }

  /** Once recorded, the command is never sent again. */
  lemma {:induction false} EnabledOnce(p: Page, steps: seq<Step>)
    requires Inv(p) && p.enabled && Runnable(p, steps)
    ensures After(p, steps).enabled && After(p, steps).sent == p.sent
    decreases |steps|
  {
    if steps != [] {
      StepKeepsInv(p, steps[0]);
      EnabledOnce(Apply(p, steps[0]), steps[1..]);
    }
  }

  /** Every interleaving: a load event published after the navigation makes that
      navigation's own wait succeed, unless the timeout comes first or the channel
      overruns the watcher while it is still behind the event. */
  lemma NavigationSeesItsLoad(steps: seq<Step>, id: nat, session: string, k: nat, sizes: seq<nat>)
    requires Runnable(Start, steps)
    requires var p := After(Start, steps);
             && id in p.callers && p.callers[id].Triggered?
             && p.callers[id].trigger <= k < |p.published| && IsLoad(p.published[k], session)
             && Polls(p.published, sizes, p.callers[id].sub)
             && Position(p.published, sizes, p.callers[id].sub) > k
             && NeverOverrun(p.published, sizes, p.callers[id].sub, k)
    ensures var p := After(Start, steps);
            Wait(p.published, session, sizes, p.callers[id].sub).Ok?
  {
    var p := After(Start, steps);
    RunKeepsInv(Start, steps);
    assert CallerOk(p, id) && p.callers[id].sub <= k;
    ReadsIff(p.published, sizes, p.callers[id].sub, k);
    WaitIffLoadRead(p.published, session, sizes, p.callers[id].sub);
    assert LoadRead(p.published, session, sizes, p.callers[id].sub, k);
  }

  /** Every interleaving: a successful wait ends on a load published after its own navigation
      exactly when every load of this page published between subscribing and navigating is pushed
      out of the channel before the watcher gets to it. */
  lemma OwnLoadIff(steps: seq<Step>, id: nat, session: string, sizes: seq<nat>)
    requires Runnable(Start, steps)
    requires var p := After(Start, steps);
             && id in p.callers && p.callers[id].Triggered?
             && Polls(p.published, sizes, p.callers[id].sub)
             && Wait(p.published, session, sizes, p.callers[id].sub).Ok?
    ensures var p := After(Start, steps);
            var sub, trigger := p.callers[id].sub, p.callers[id].trigger;
            && sub <= trigger <= |p.published|
            && (Wait(p.published, session, sizes, sub).value >= trigger <==>
                  forall j: nat :: sub <= j < trigger && IsLoad(p.published[j], session) ==>
                    !NeverOverrun(p.published, sizes, sub, j))
  {
    var p := After(Start, steps);
    RunKeepsInv(Start, steps);
    assert CallerOk(p, id);
    EndsLateIff(p.published, session, sizes, p.callers[id].sub, p.callers[id].trigger);
  }

  /** Such a stale load: it arrives after the subscription and before the navigation, and
      ends the wait although the navigation's own load has not come. */
  lemma StaleLoadEndsWait(session: string)
    ensures var load := CdpEvent("Page.loadEventFired", Null, Some(session));
            var steps := [Subscribe(0), Lock(0), BrowserEnables(0), Record(0), Publish(load), Navigate(0)];
            && Runnable(Start, steps)
            && var p := After(Start, steps);
               && p.published == [load] && 0 in p.callers && p.callers[0] == Triggered(0, 1)
               && Polls(p.published, [1], 0) && Wait(p.published, session, [1], 0) == Ok(0)
  {
    var load := CdpEvent("Page.loadEventFired", Null, Some(session));
    var d, rest := EnabledByOne(), [Publish(load), Navigate(0)];
    Compose(Apply(d, Publish(load)), [], Navigate(0));
    Compose(d, [Navigate(0)], Publish(load));
    ComposeEnabling(d, rest);
    assert [Subscribe(0), Lock(0), BrowserEnables(0), Record(0)] + rest
        == [Subscribe(0), Lock(0), BrowserEnables(0), Record(0), Publish(load), Navigate(0)];
    assert After(Apply(Apply(d, Publish(load)), Navigate(0)), []) == Apply(Apply(d, Publish(load)), Navigate(0));
  }

  /** One caller has subscribed and enabled the domain. */
  ghost function EnabledByOne(): Page {
    Page(map[0 := Ready(0)], true, true, 1, [])
  }

  lemma ComposeEnabling(d: Page, rest: seq<Step>)
    requires d == EnabledByOne() && Runnable(d, rest)
    ensures var steps := [Subscribe(0), Lock(0), BrowserEnables(0), Record(0)] + rest;
            Runnable(Start, steps) && After(Start, steps) == After(d, rest)
  {
    var a := Apply(Start, Subscribe(0));
    var b := Apply(a, Lock(0));
    var c := Apply(b, BrowserEnables(0));
    assert Apply(c, Record(0)) == d;
    Compose(c, rest, Record(0));
    Compose(b, [Record(0)] + rest, BrowserEnables(0));
    Compose(a, [BrowserEnables(0)] + ([Record(0)] + rest), Lock(0));
    Compose(Start, [Lock(0)] + ([BrowserEnables(0)] + ([Record(0)] + rest)), Subscribe(0));
    assert [Subscribe(0)] + ([Lock(0)] + ([BrowserEnables(0)] + ([Record(0)] + rest)))
        == [Subscribe(0), Lock(0), BrowserEnables(0), Record(0)] + rest;
  }
}

module LoadWatch {
  import opened Wrappers
  import opened TransportModel
  import opened LoadWatchModel

  class LoadWatcher {
    const session: string
    var at: nat

    /** A subscription: it starts where the channel is now. */
    constructor (session: string, published: nat)
      ensures this.session == session && at == published
    {
      this.session, at := session, published;
    }

    method Next(published: seq<CdpEvent>, size: nat) returns (received: Received)
      requires at <= size <= |published|
      modifies this`at
      ensures (received, at) == Recv(published, old(at), size)
    {
      if at == size {
        return Closed;
      }
      if size - at > CAPACITY {
        received := Lagged(size - CAPACITY - at);
        at := size - CAPACITY;
      } else {
        received := Event(published[at]);
        at := at + 1;
      }
    }

    method AwaitLoad(published: seq<CdpEvent>, sizes: seq<nat>) returns (r: Result<(), Failure>)
      requires Polls(published, sizes, at)
      modifies this`at
      ensures r == match Wait(published, session, sizes, old(at)) case Ok(_) => Ok(()) case Err(failure) => Err(failure)
      ensures r.Ok? <==> ReadsLoad(published, session, sizes, old(at))
    {
      WaitIffLoadRead(published, session, sizes, at);
      var i := 0;
      while i < |sizes|
        invariant 0 <= i <= |sizes|
        invariant Polls(published, sizes[i..], at)
        invariant Wait(published, session, sizes, old(at)) == Wait(published, session, sizes[i..], at)
      {
        assert sizes[i..][0] == sizes[i] && sizes[i..][1..] == sizes[i + 1..];
        var received := Next(published, sizes[i]);
        i := i + 1;
        match received {
          case Event(event) =>
            if IsLoad(event, session) {
              return Ok(());
            }
          case Lagged(_) =>
          case Closed => return Err(ConnectionClosed);
        }
      }
      r := Err(TimedOut);
    }
  }
}
