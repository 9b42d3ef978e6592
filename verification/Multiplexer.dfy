/** Many callers over one transport, as a step relation: every lock section of
    `src/cdp/transport.rs` is one step, and steps of different callers, of the
    reader and of the browser interleave freely. */
module Multiplexer {
  import opened Wrappers
  import opened TransportModel

  /** Where one `call_in_session` stands. */
  datatype Call =
    | Issued                  // an id was drawn
    | Registered              // a sender waits in the map; the frame is not written yet
    | WriteFailed             // the write failed; the entry is still there
    | Awaiting                // written; awaiting the reply under the timeout
    | Expired                 // the timeout fired; the entry is still there
    | Done(answer: Answer)    // returned to the caller
    | Cancelled               // the caller dropped the future

  datatype Reader = Reading | Answering(id: nat, message: Message) | Stopped

  /** `log` and `since` are history: the messages read, and how many had been
      read when a call registered. */
  datatype World = World(
    shared: Shared,
    calls: map<nat, Call>,
    nextId: nat,
    reader: Reader,
    log: seq<Message>,
    since: map<nat, nat>)

  const Start := World(Fresh, map[], 1, Reading, [], map[])

  datatype Step =
    | Issue
    | RegisterCall(id: nat)
    | Write(id: nat)
    | FailWrite(id: nat, reason: string)
    | WithdrawFailed(id: nat, reason: string)
    | Receive(id: nat)
    | SenderLost(id: nat)
    | Expire(id: nat)
    | WithdrawExpired(id: nat)
    | Cancel(id: nat)
    | Read(message: Message)
    | Answer
    | EndOfStream(reason: string)

  ghost predicate At(w: World, id: nat, c: Call) {
    id in w.calls && w.calls[id] == c
  }

  function Move(w: World, id: nat, c: Call): World {
    w.(calls := w.calls[id := c])
  }

  ghost predicate Enabled(w: World, step: Step) {
    match step
    case Issue => true
    case RegisterCall(id) => At(w, id, Issued)
    case Write(id) => At(w, id, Registered)
    case FailWrite(id, _) => At(w, id, Registered)
    case WithdrawFailed(id, _) => At(w, id, WriteFailed)
    case Receive(id) => At(w, id, Awaiting) && id in w.shared.channels
    // The receiver reports a dropped sender only when nobody holds it any more.
    case SenderLost(id) =>
      && At(w, id, Awaiting) && id !in w.shared.channels && id !in w.shared.waiting
      && !(w.reader.Answering? && w.reader.id == id)
    // The timeout polls the receiver first, so an answer already sent wins.
    case Expire(id) => At(w, id, Awaiting) && id !in w.shared.channels
    case WithdrawExpired(id) => At(w, id, Expired)
    // Dropping a future takes effect at an await: while writing, or while waiting.
    case Cancel(id) => At(w, id, Registered) || At(w, id, Awaiting)
    case Read(_) => w.reader == Reading
    case Answer => w.reader.Answering?
    case EndOfStream(_) => w.reader == Reading
  }

  ghost function Apply(w: World, step: Step): World
    requires Enabled(w, step)
  {
    match step
    case Issue => Move(w, w.nextId, Issued).(nextId := w.nextId + 1)
    case RegisterCall(id) =>
      var (shared, r) := Register(w.shared, id);
      (match r
       case Ok(_) => Move(w, id, Registered).(shared := shared, since := w.since[id := |w.log|])
       case Err(e) => Move(w, id, Done(Err(e))).(shared := shared))
    case Write(id) => Move(w, id, Awaiting)
    case FailWrite(id, _) => Move(w, id, WriteFailed)
    case WithdrawFailed(id, reason) =>
      Move(w, id, Done(Err(Browser(reason)))).(shared := TakeWaiter(w.shared, id).0)
    case Receive(id) => Move(w, id, Done(w.shared.channels[id]))
    case SenderLost(id) => Move(w, id, Done(Err(Browser("connection closed while waiting"))))
    case Expire(id) => Move(w, id, Expired)
    case WithdrawExpired(id) =>
      Move(w, id, Done(Err(Browser("timed out")))).(shared := TakeWaiter(w.shared, id).0)
    case Cancel(id) => Move(w, id, Cancelled)
    // Taking the waiter and answering it are two steps: the lock is released between them.
    case Read(m) =>
      (match m.id
       case None => w.(shared := Publish(w.shared, m), log := w.log + [m])
       case Some(id) =>
         var (taken, found) := TakeWaiter(w.shared, id);
         w.(shared := taken, log := w.log + [m], reader := if found then Answering(id, m) else Reading))
    case Answer =>
      w.(shared := Send(w.shared, w.reader.id, ParseReply(w.reader.message)), reader := Reading)
    case EndOfStream(reason) => w.(shared := Close(w.shared, reason), reader := Stopped)
  }

  /** Undisturbed, the reader's two steps are the transport's dispatch. */
  lemma ReadThenAnswerIsDispatch(w: World, m: Message)
    requires w.reader == Reading
    ensures var read := Apply(w, Read(m));
            && (m.id.Some? && m.id.value in w.shared.waiting <==> read.reader.Answering?)
            && (if read.reader.Answering? then Apply(read, Answer) else read).shared == Dispatch(w.shared, m)
  {
  }

  // -- the invariant ------------------------------------------------------------------

  /** Message `i` is the first one read since `id` registered that carries `id`. */
  ghost predicate FirstReply(w: World, id: nat, i: nat) {
    && id in w.since && w.since[id] <= i < |w.log| && w.log[i].id == Some(id)
    && forall j :: w.since[id] <= j < i ==> w.log[j].id != Some(id)
  }

  ghost predicate NoReplyYet(w: World, id: nat) {
    id in w.since && forall j :: w.since[id] <= j < |w.log| ==> w.log[j].id != Some(id)
  }

  /** An answer a call may carry: its own first reply, or a transport failure. */
  ghost predicate Justified(w: World, id: nat, answer: Answer) {
    || (answer.Err? && answer.error.Browser?)
    || exists i: nat :: FirstReply(w, id, i) && answer == ParseReply(w.log[i])
  }

  /** Registered and not yet finished: something must still answer it. */
  ghost predicate Open(w: World, id: nat) {
    At(w, id, Registered) || At(w, id, WriteFailed) || At(w, id, Awaiting) || At(w, id, Expired)
  }

  ghost predicate BeingAnswered(w: World, id: nat) {
    w.reader.Answering? && w.reader.id == id
  }

  /** What holds of one id, whatever the others do. */
  ghost predicate CallOk(w: World, id: nat) {
    && (id in w.calls <==> 1 <= id < w.nextId)
    && (id in w.since ==> id in w.calls && !At(w, id, Issued) && w.since[id] <= |w.log|)
    && (Open(w, id) ==> id in w.since && (id in w.shared.waiting || id in w.shared.channels || BeingAnswered(w, id)))
    && (id in w.shared.waiting ==> NoReplyYet(w, id) && id !in w.shared.channels && (Open(w, id) || At(w, id, Cancelled)))
    && ((Open(w, id) || At(w, id, Cancelled)) && NoReplyYet(w, id) && w.shared.closed.None? ==> id in w.shared.waiting)
    && (At(w, id, Cancelled) ==> id in w.since)
    && (BeingAnswered(w, id) ==>
          && id !in w.shared.waiting && id !in w.shared.channels && |w.log| > 0
          && FirstReply(w, id, |w.log| - 1) && w.log[|w.log| - 1] == w.reader.message)
    && (id in w.shared.channels ==> id in w.since && Justified(w, id, w.shared.channels[id]))
    && (id in w.calls && w.calls[id].Done? ==> Justified(w, id, w.calls[id].answer))
  }

  ghost predicate Inv(w: World) {
    && 1 <= w.nextId
    && (w.shared.closed.Some? <==> w.reader == Stopped)
    && (w.shared.closed.Some? ==> w.shared.waiting == {})
    && forall id: nat :: CallOk(w, id)
  }

  /** History only grows, so an answer once justified stays justified. */
  lemma JustifiedStays(w: World, v: World)
    requires w.log <= v.log && forall id <- w.since :: id in v.since && v.since[id] == w.since[id]
    ensures forall id, answer :: Justified(w, id, answer) ==> Justified(v, id, answer)
  {
  }

  lemma ReadKeepsCall(w: World, m: Message, id: nat)
    requires CallOk(w, id) && Enabled(w, Read(m))
    ensures CallOk(Apply(w, Read(m)), id)
  {
    var v := Apply(w, Read(m));
    JustifiedStays(w, v);
    assert v.log[|w.log|] == m && forall j :: 0 <= j < |w.log| ==> v.log[j] == w.log[j];
    assert id in w.since && NoReplyYet(v, id) ==> NoReplyYet(w, id) && m.id != Some(id);
  }

  lemma AnswerKeepsCall(w: World, id: nat)
    requires CallOk(w, id) && Enabled(w, Answer)
    ensures CallOk(Apply(w, Answer), id)
  {
  }

  lemma EndKeepsCall(w: World, reason: string, id: nat)
    requires CallOk(w, id) && Enabled(w, EndOfStream(reason))
    ensures CallOk(Apply(w, EndOfStream(reason)), id)
  {
  }

  lemma RegisterKeepsCall(w: World, caller: nat, id: nat)
    requires CallOk(w, id) && CallOk(w, caller) && Enabled(w, RegisterCall(caller))
    ensures CallOk(Apply(w, RegisterCall(caller)), id)
  {
    JustifiedStays(w, Apply(w, RegisterCall(caller)));
  }

  lemma WithdrawKeepsCall(w: World, step: Step, id: nat)
    requires CallOk(w, id) && Enabled(w, step) && (step.WithdrawFailed? || step.WithdrawExpired?)
    ensures CallOk(Apply(w, step), id)
  {
    JustifiedStays(w, Apply(w, step));
  }

  lemma MoveKeepsCall(w: World, step: Step, id: nat)
    requires CallOk(w, id) && Enabled(w, step) && (step.Write? || step.FailWrite? || step.Expire? || step.Cancel?)
    ensures CallOk(Apply(w, step), id)
  {
    JustifiedStays(w, Apply(w, step));
  }

  lemma ReturnKeepsCall(w: World, step: Step, id: nat)
    requires CallOk(w, id) && Enabled(w, step) && (step.Receive? || step.SenderLost?)
    ensures CallOk(Apply(w, step), id)
  {
    JustifiedStays(w, Apply(w, step));
  }

  lemma IssueKeepsCall(w: World, id: nat)
    requires CallOk(w, id) && 1 <= w.nextId
    ensures CallOk(Apply(w, Issue), id)
  {
    JustifiedStays(w, Apply(w, Issue));
  }

  lemma StepKeepsCall(w: World, step: Step, id: nat)
    requires Inv(w) && Enabled(w, step)
    ensures CallOk(Apply(w, step), id)
  {
    assert CallOk(w, id);
    match step {
      case Read(m) => ReadKeepsCall(w, m, id);
      case Answer => AnswerKeepsCall(w, id);
      case EndOfStream(reason) => EndKeepsCall(w, reason, id);
      case RegisterCall(caller) =>
        assert CallOk(w, caller);
        RegisterKeepsCall(w, caller, id);
      case Issue => IssueKeepsCall(w, id);
      case WithdrawFailed(_, _) => WithdrawKeepsCall(w, step, id);
      case WithdrawExpired(_) => WithdrawKeepsCall(w, step, id);
      case Receive(_) => ReturnKeepsCall(w, step, id);
      case SenderLost(_) => ReturnKeepsCall(w, step, id);
      case _ => MoveKeepsCall(w, step, id);
    }
  }

  lemma StepKeepsInv(w: World, step: Step)
    requires Inv(w) && Enabled(w, step)
    ensures Inv(Apply(w, step))
  {
    forall id: nat
      ensures CallOk(Apply(w, step), id)
    {
      StepKeepsCall(w, step, id);
    }
  }

  // -- over every run -------------------------------------------------------------------

  ghost predicate Runnable(w: World, steps: seq<Step>)
    decreases |steps|
  {
    steps == [] || (Enabled(w, steps[0]) && Runnable(Apply(w, steps[0]), steps[1..]))
  }

  ghost function After(w: World, steps: seq<Step>): World
    requires Runnable(w, steps)
    decreases |steps|
  {
    if steps == [] then w else After(Apply(w, steps[0]), steps[1..])
  }

  lemma {:induction false} RunKeepsInv(w: World, steps: seq<Step>)
    requires Inv(w) && Runnable(w, steps)
    ensures Inv(After(w, steps))
    decreases |steps|
  {
    if steps != [] {
      StepKeepsInv(w, steps[0]);
      RunKeepsInv(Apply(w, steps[0]), steps[1..]);
    }
  }

  /** Every interleaving: a call that returned an answer did so with a transport failure, or
      with what its own first reply reports: a success only if that carries no error. */
  lemma AnswersAreOwnReplies(steps: seq<Step>, id: nat)
    requires Runnable(Start, steps)
    requires var w := After(Start, steps); id in w.calls && w.calls[id].Done?
    ensures var w := After(Start, steps);
            var answer := w.calls[id].answer;
            || (answer.Err? && answer.error.Browser?)
            || exists i: nat :: FirstReply(w, id, i) && Reports(w.log[i], answer)
  {
    RunKeepsInv(Start, steps);
    var w := After(Start, steps);
    assert CallOk(w, id);
    var answer := w.calls[id].answer;
    if answer.Ok? || answer.error.Cdp? {
      var i: nat :| FirstReply(w, id, i) && answer == ParseReply(w.log[i]);
      ParseReplyReports(w.log[i], answer);
    }
  }

  /** The events among the messages read, in order. */
  ghost predicate EventsOf(events: seq<CdpEvent>, log: seq<Message>)
    decreases |log|
  {
    if log == [] then events == []
    else
      var last := log[|log| - 1];
      if last.id.Some? || last.event.None? then EventsOf(events, log[..|log| - 1])
      else events != [] && IsEventOf(last, events[|events| - 1])
           && EventsOf(events[..|events| - 1], log[..|log| - 1])
  }

  lemma StepKeepsEvents(w: World, step: Step)
    requires Enabled(w, step) && EventsOf(w.shared.events, w.log)
    ensures EventsOf(Apply(w, step).shared.events, Apply(w, step).log)
  {
    if step.Read? {
      DispatchRoutes(w.shared, step.message);
      var v := Apply(w, step);
      assert v.log[..|w.log|] == w.log;
      assert v.shared.events != w.shared.events ==> v.shared.events[..|w.shared.events|] == w.shared.events;
    }
  }

  /** Every interleaving: what the subscribers are sent is exactly the messages without an id
      that have a method, in the order they were read. */
  lemma {:induction false} EventsAreTheLog(w: World, steps: seq<Step>)
    requires EventsOf(w.shared.events, w.log) && Runnable(w, steps)
    ensures EventsOf(After(w, steps).shared.events, After(w, steps).log)
    decreases |steps|
  {
    if steps != [] {
      StepKeepsEvents(w, steps[0]);
      EventsAreTheLog(Apply(w, steps[0]), steps[1..]);
    }
  }

  /** What waits in a call's channel: its first reply, or the reason the connection closed. */
  ghost predicate ChannelOk(w: World, id: nat) {
    id in w.shared.channels ==>
      || (w.shared.closed.Some? && w.shared.channels[id] == Err(Browser(w.shared.closed.value)))
      || exists i: nat :: FirstReply(w, id, i) && Reports(w.log[i], w.shared.channels[id])
  }

  lemma AnswerKeepsChannel(w: World, id: nat)
    requires CallOk(w, id) && ChannelOk(w, id) && Enabled(w, Answer)
    ensures ChannelOk(Apply(w, Answer), id)
  {
    var v, m := Apply(w, Answer), w.reader.message;
    if w.reader.id == id {
      ParseReplyReports(m, ParseReply(m));
      assert FirstReply(v, id, |w.log| - 1) && Reports(v.log[|w.log| - 1], v.shared.channels[id]);
    } else if i: nat :| FirstReply(w, id, i) && id in w.shared.channels && Reports(w.log[i], w.shared.channels[id]) {
      assert FirstReply(v, id, i);
    }
  }

  lemma EndKeepsChannel(w: World, reason: string, id: nat)
    requires Inv(w) && ChannelOk(w, id) && Enabled(w, EndOfStream(reason))
    ensures ChannelOk(Apply(w, EndOfStream(reason)), id)
  {
    CloseFails(w.shared, reason, id);
    var v := Apply(w, EndOfStream(reason));
    if i: nat :| FirstReply(w, id, i) && id in w.shared.channels && Reports(w.log[i], w.shared.channels[id]) {
      assert FirstReply(v, id, i) && v.log[i] == w.log[i];
    }
  }

  lemma OtherStepKeepsChannel(w: World, step: Step, id: nat)
    requires Inv(w) && CallOk(w, id) && ChannelOk(w, id) && Enabled(w, step) && !step.Answer? && !step.EndOfStream?
    ensures ChannelOk(Apply(w, step), id)
  {
    var v := Apply(w, step);
    if i: nat :| FirstReply(w, id, i) && id in w.shared.channels && Reports(w.log[i], w.shared.channels[id]) {
      assert step.RegisterCall? ==> CallOk(w, step.id);
      assert FirstReply(v, id, i) && v.log[i] == w.log[i];
    }
  }

  /** Every interleaving: whoever is let down by the connection is told the reason it closed for. */
  lemma {:induction false} ChannelsTellWhy(w: World, steps: seq<Step>, id: nat)
    requires Inv(w) && ChannelOk(w, id) && Runnable(w, steps)
    ensures ChannelOk(After(w, steps), id)
    decreases |steps|
  {
    if steps != [] {
      StepKeepsInv(w, steps[0]);
      assert CallOk(w, id);
      if steps[0].Answer? {
        AnswerKeepsChannel(w, id);
      } else if steps[0].EndOfStream? {
        EndKeepsChannel(w, steps[0].reason, id);
      } else {
        OtherStepKeepsChannel(w, steps[0], id);
      }
      ChannelsTellWhy(Apply(w, steps[0]), steps[1..], id);
    }
  }

  lemma StepKeepsFinished(w: World, step: Step, id: nat)
    requires CallOk(w, id) && Enabled(w, step) && id in w.calls && (w.calls[id].Done? || w.calls[id].Cancelled?)
    ensures At(Apply(w, step), id, w.calls[id])
  {
  }

  /** A call finishes at most once: whatever happens later, its answer stands. */
  lemma {:induction false} FinishesOnce(w: World, steps: seq<Step>, id: nat)
    requires Inv(w) && Runnable(w, steps) && id in w.calls && (w.calls[id].Done? || w.calls[id].Cancelled?)
    ensures At(After(w, steps), id, w.calls[id])
    decreases |steps|
  {
    if steps != [] {
      assert CallOk(w, id);
      StepKeepsFinished(w, steps[0], id);
      StepKeepsInv(w, steps[0]);
      FinishesOnce(Apply(w, steps[0]), steps[1..], id);
    }
  }

  /** After the stream ended no call waits for anyone: the map is empty, every
      unfinished registered call already has its answer, and a call that has
      not registered yet is refused when it does. */
  lemma NoneStrandedAfterClose(steps: seq<Step>, id: nat)
    requires Runnable(Start, steps) && After(Start, steps).shared.closed.Some?
    requires id in After(Start, steps).calls
    ensures var w := After(Start, steps);
            && w.shared.waiting == {}
            && (Open(w, id) ==> id in w.shared.channels)
            && (At(w, id, Awaiting) ==> Enabled(w, Receive(id)))
            && (At(w, id, Issued) ==>
                  At(Apply(w, RegisterCall(id)), id, Done(Err(Browser(w.shared.closed.value)))))
  {
    RunKeepsInv(Start, steps);
    assert CallOk(After(Start, steps), id);
  }

  lemma {:induction false} ClosedStaysClosed(w: World, steps: seq<Step>)
    requires Inv(w) && Runnable(w, steps) && w.shared.closed.Some?
    ensures After(w, steps).shared.closed == w.shared.closed && After(w, steps).shared.waiting == {}
    decreases |steps|
  {
    if steps != [] {
      StepKeepsInv(w, steps[0]);
      ClosedStaysClosed(Apply(w, steps[0]), steps[1..]);
    }
  }

  /** Registering precedes writing, so the first reply to a call still waiting
      always finds its waiter, and that reply is what the call then receives. */
  lemma FirstReplyFindsItsWaiter(steps: seq<Step>, id: nat, m: Message)
    requires Runnable(Start, steps)
    requires var w := After(Start, steps);
             At(w, id, Awaiting) && id !in w.shared.channels && w.reader == Reading && m.id == Some(id)
    ensures var w := After(Start, steps);
            && Apply(w, Read(m)).reader == Answering(id, m)
            && var answered := Apply(Apply(w, Read(m)), Answer);
               && Enabled(answered, Receive(id))
               && var done := Apply(answered, Receive(id));
                  id in done.calls && done.calls[id].Done? && Reports(m, done.calls[id].answer)
  {
    ParseReplyReports(m, ParseReply(m));
    RunKeepsInv(Start, steps);
    assert CallOk(After(Start, steps), id);
  }

  /** The branch for a sender dropped without an answer is never taken. */
  lemma NoSenderIsLost(steps: seq<Step>, id: nat)
    requires Runnable(Start, steps)
    ensures !Enabled(After(Start, steps), SenderLost(id))
  {
    RunKeepsInv(Start, steps);
    assert CallOk(After(Start, steps), id);
  }

  /** A reply that finds no waiter belongs to a call that is not awaiting one:
      unknown, answered already, or given up on. */
  lemma UnclaimedReplyIsStale(steps: seq<Step>, m: Message)
    requires Runnable(Start, steps) && m.id.Some?
    requires After(Start, steps).reader == Reading && m.id.value !in After(Start, steps).shared.waiting
    ensures var w := After(Start, steps);
            && (Open(w, m.id.value) ==> m.id.value in w.shared.channels)
            && Apply(w, Read(m)) == w.(log := w.log + [m])
  {
    RunKeepsInv(Start, steps);
    var w := After(Start, steps);
    assert CallOk(w, m.id.value);
    assert w.shared.waiting - {m.id.value} == w.shared.waiting;
  }

  /** Every run: a cancelled call leaves its entry behind, and it stays exactly until the
      first reply with its id is read or the connection closes. */
  lemma CancelledEntryIff(steps: seq<Step>, id: nat)
    requires Runnable(Start, steps) && At(After(Start, steps), id, Cancelled)
    ensures var w := After(Start, steps);
            id in w.shared.waiting <==> NoReplyYet(w, id) && w.shared.closed.None?
  {
    RunKeepsInv(Start, steps);
    assert CallOk(After(Start, steps), id);
  }

  /** Such an entry exists after this run. */
  lemma CancelledEntryRemains()
    ensures var steps := [Issue, RegisterCall(1), Write(1), Cancel(1)];
            Runnable(Start, steps) && 1 in After(Start, steps).shared.waiting
  {
  }
}
