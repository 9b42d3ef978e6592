/** `src/cdp/transport.rs`: the state the reader task and the callers share, and
    the reader's loop over the byte stream. Every critical section is a function
    here; the class carries them out, and `Multiplexer` interleaves them. */
module TransportModel {
  import opened Wrappers
  import opened Wire

  datatype Value = Null | Json(text: string)

  datatype Error =
    | Cdp(code: int, message: string, data: Option<string>)
    | Browser(reason: string)

  type Answer = Result<Value, Error>

  datatype ErrorObject = ErrorObject(code: Option<int>, message: Option<string>, data: Option<string>)

  /** A decoded message, by the fields the transport looks at. */
  datatype Message = Message(
    id: Option<nat>,
    error: Option<ErrorObject>,
    result: Option<Value>,
    event: Option<string>,
    params: Option<Value>,
    sessionId: Option<string>)

  datatype CdpEvent = CdpEvent(name: string, params: Value, sessionId: Option<string>)

  function GetOr<T>(o: Option<T>, default: T): T {
    match o case Some(v) => v case None => default
  }

  function ParseReply(m: Message): Answer {
    match m.error
    case Some(e) => Err(Cdp(GetOr(e.code, 0), GetOr(e.message, "unspecified protocol error"), e.data))
    case None => Ok(GetOr(m.result, Null))
  }

  /** What a reply tells its caller, field by field: an error object is a failure whatever else
      is there, with a default for what it leaves out; otherwise it is the result, or `Null`. */
  ghost predicate Reports(m: Message, answer: Answer) {
    match answer
    case Ok(value) => m.error.None? && (m.result == Some(value) || (m.result.None? && value == Null))
    case Err(Browser(_)) => false
    case Err(Cdp(code, message, data)) =>
      && m.error.Some? && data == m.error.value.data
      && (m.error.value.code == Some(code) || (m.error.value.code.None? && code == 0))
      && (m.error.value.message == Some(message) ||
          (m.error.value.message.None? && message == "unspecified protocol error"))
  }

  lemma ParseReplyReports(m: Message, answer: Answer)
    ensures answer == ParseReply(m) <==> Reports(m, answer)
  {
  }

  /** `waiting` holds a sender per id; `channels` is what senders have sent. */
  datatype Shared = Shared(
    waiting: set<nat>,
    closed: Option<string>,
    channels: map<nat, Answer>,
    events: seq<CdpEvent>)

  const Fresh := Shared({}, None, map[], [])

  function Register(s: Shared, id: nat): (Shared, Result<(), Error>) {
    match s.closed
    case Some(reason) => (s, Err(Browser(reason)))
    case None => (s.(waiting := s.waiting + {id}), Ok(()))
  }

  function TakeWaiter(s: Shared, id: nat): (Shared, bool) {
    (s.(waiting := s.waiting - {id}), id in s.waiting)
  }

  function Send(s: Shared, id: nat, answer: Answer): Shared {
    s.(channels := s.channels[id := answer])
  }

  function Publish(s: Shared, m: Message): Shared {
    match m.event
    case None => s
    case Some(name) => s.(events := s.events + [CdpEvent(name, GetOr(m.params, Null), m.sessionId)])
  }

  function Dispatch(s: Shared, m: Message): Shared {
    match m.id
    case None => Publish(s, m)
    case Some(id) =>
      var (taken, found) := TakeWaiter(s, id);
      if found then Send(taken, id, ParseReply(m)) else taken
  }

  function Close(s: Shared, reason: string): Shared {
    Shared({},
           if s.closed.None? then Some(reason) else s.closed,
           s.channels + map id | id in s.waiting :: Err(Browser(reason)),
           s.events)
  }

  /** Where a message goes: one with an id to its waiter, if there is one, and never to the
      events; one without becomes an event if it has a method. */
  lemma DispatchRoutes(s: Shared, m: Message)
    ensures var t := Dispatch(s, m);
            match m.id
            case Some(id) =>
              && t.events == s.events && t.closed == s.closed && t.waiting == s.waiting - {id}
              && t.channels - {id} == s.channels - {id}
              && (if id in s.waiting then id in t.channels && Reports(m, t.channels[id]) else t.channels == s.channels)
            case None =>
              && t.(events := s.events) == s
              && (if m.event.None? then t.events == s.events
                  else |t.events| == |s.events| + 1 && s.events < t.events && IsEventOf(m, t.events[|s.events|]))
  {
    ParseReplyReports(m, ParseReply(m));
  }

  /** The event a message without an id stands for. */
  ghost predicate IsEventOf(m: Message, e: CdpEvent) {
    && m.id.None? && m.event == Some(e.name) && e.sessionId == m.sessionId
    && (m.params == Some(e.params) || (m.params.None? && e.params == Null))
  }

  /** Closing fails every waiter with this reason, and keeps the first one for those to come. */
  lemma CloseFails(s: Shared, reason: string, id: nat)
    ensures var t := Close(s, reason);
            && (id in t.channels <==> id in s.channels || id in s.waiting)
            && (id in s.waiting ==> t.channels[id] == Err(Browser(reason)))
            && (id in s.channels && id !in s.waiting ==> t.channels[id] == s.channels[id])
            && t.closed == (if s.closed.Some? then s.closed else Some(reason))
  {
  }

  // -- framing --------------------------------------------------------------------------

  const DELIMITER: byte := 0

  /** The complete frames of a stream, without their delimiters. */
  function Frames(stream: seq<byte>): seq<seq<byte>> {
    if stream == [] then []
    else if stream[0] == DELIMITER then [[]] + Frames(stream[1..])
    else
      var rest := Frames(stream[1..]);
      if rest == [] then [] else [[stream[0]] + rest[0]] + rest[1..]
  }

  /** Whether the stream ends inside a frame. */
  predicate MidMessage(stream: seq<byte>) {
    stream != [] && stream[|stream| - 1] != DELIMITER
  }

  function Written(payloads: seq<seq<byte>>): seq<byte> {
    if payloads == [] then [] else payloads[0] + [DELIMITER] + Written(payloads[1..])
  }

  lemma {:induction false} FrameFirst(payload: seq<byte>, rest: seq<byte>)
    requires DELIMITER !in payload
    ensures Frames(payload + [DELIMITER] + rest) == [payload] + Frames(rest)
  {
    var s := payload + [DELIMITER] + rest;
    if payload == [] {
      assert s[1..] == rest;
    } else {
      assert s[1..] == payload[1..] + [DELIMITER] + rest;
      FrameFirst(payload[1..], rest);
      assert ([payload[1..]] + Frames(rest))[1..] == Frames(rest);
      assert [payload[0]] + payload[1..] == payload;
    }
  }

  lemma {:induction false} NoFrame(tail: seq<byte>)
    requires DELIMITER !in tail
    ensures Frames(tail) == []
  {
    if tail != [] {
      NoFrame(tail[1..]);
    }
  }

  lemma {:induction false} WrittenEndsFrames(payloads: seq<seq<byte>>, tail: seq<byte>)
    requires DELIMITER !in tail
    ensures MidMessage(Written(payloads) + tail) <==> tail != []
  {
    var s := Written(payloads) + tail;
    if tail != [] {
      assert s[|s| - 1] == tail[|tail| - 1];
    } else if payloads != [] {
      WrittenEndsFrames(payloads[1..], tail);
      assert s == payloads[0] + [DELIMITER] + Written(payloads[1..]);
    }
  }

  /** Frames written one after another are read back one by one; a frame cut
      short by the end of the stream is not read at all, and is noticed. */
  lemma {:induction false} FramesUndoWritten(payloads: seq<seq<byte>>, tail: seq<byte>)
    requires forall p <- payloads :: 0x00 !in p
    requires 0x00 !in tail
    ensures Frames(Written(payloads) + tail) == payloads
    ensures MidMessage(Written(payloads) + tail) <==> tail != []
  {
    WrittenEndsFrames(payloads, tail);
    if payloads == [] {
      assert Written(payloads) + tail == tail;
      NoFrame(tail);
    } else {
      var rest := Written(payloads[1..]) + tail;
      FramesUndoWritten(payloads[1..], tail);
      assert Written(payloads) + tail == payloads[0] + [DELIMITER] + rest;
      FrameFirst(payloads[0], rest);
    }
  }

  /** What a frame does: an undecodable one is skipped. */
  function DispatchFrame(s: Shared, decode: seq<byte> -> Option<Message>, frame: seq<byte>): Shared {
    match decode(frame)
    case None => s
    case Some(m) => Dispatch(s, m)
  }

  function DispatchFrames(s: Shared, decode: seq<byte> -> Option<Message>, frames: seq<seq<byte>>): Shared
    decreases |frames|
  {
    if frames == [] then s
    else DispatchFrames(DispatchFrame(s, decode, frames[0]), decode, frames[1..])
  }

  /** Why the reader stopped: an I/O error, a cut frame, or a clean end. */
  function EndReason(stream: seq<byte>, failure: Option<string>): string {
    match failure
    case Some(e) => "the CDP connection failed: " + e
    case None =>
      if MidMessage(stream) then "the CDP connection ended mid-message"
      else "the browser closed the CDP connection"
  }

  /** The messages among the frames. */
  function Decoded(decode: seq<byte> -> Option<Message>, frames: seq<seq<byte>>): seq<Message> {
    if frames == [] then []
    else (match decode(frames[0]) case None => [] case Some(m) => [m]) + Decoded(decode, frames[1..])
  }

  function DispatchAll(s: Shared, messages: seq<Message>): Shared
    decreases |messages|
  {
    if messages == [] then s else DispatchAll(Dispatch(s, messages[0]), messages[1..])
  }

  lemma {:induction false} FramesDispatchMessages(s: Shared, decode: seq<byte> -> Option<Message>, frames: seq<seq<byte>>)
    ensures DispatchFrames(s, decode, frames) == DispatchAll(s, Decoded(decode, frames))
    decreases |frames|
  {
    if frames != [] {
      FramesDispatchMessages(DispatchFrame(s, decode, frames[0]), decode, frames[1..]);
      var all, rest := Decoded(decode, frames), Decoded(decode, frames[1..]);
      assert if decode(frames[0]).None? then all == rest else all[1..] == rest;
    }
  }

  /** The reader over whatever the browser wrote: the messages among the payloads are dispatched
      in order, and the reason of the end tells whether a frame was cut. */
  lemma StreamIsDispatched(s: Shared, decode: seq<byte> -> Option<Message>, payloads: seq<seq<byte>>, tail: seq<byte>)
    requires forall p <- payloads :: 0x00 !in p
    requires 0x00 !in tail
    ensures var stream := Written(payloads) + tail;
            && DispatchFrames(s, decode, Frames(stream)) == DispatchAll(s, Decoded(decode, payloads))
            && EndReason(stream, None) == (if tail != [] then "the CDP connection ended mid-message"
                                           else "the browser closed the CDP connection")
            && forall e :: EndReason(stream, Some(e)) == "the CDP connection failed: " + e
  {
    FramesUndoWritten(payloads, tail);
    FramesDispatchMessages(s, decode, payloads);
  }
}

module Transport {
  import opened Wrappers
  import opened Wire
  import opened Model = TransportModel

  class SharedState {
    var waiting: set<nat>
    var closed: Option<string>
    var channels: map<nat, Answer>
    var events: seq<CdpEvent>

    ghost function View(): Shared
      reads this
    {
      Shared(waiting, closed, channels, events)
    }

    constructor ()
      ensures View() == Fresh
    {
      waiting, closed, channels, events := {}, None, map[], [];
    }

    method Register(id: nat) returns (r: Result<(), Error>)
      modifies this
      ensures (View(), r) == Model.Register(old(View()), id)
    {
      if closed.Some? {
        return Err(Browser(closed.value));
      }
      waiting := waiting + {id};
      r := Ok(());
    }

    method TakeWaiter(id: nat) returns (found: bool)
      modifies this
      ensures (View(), found) == Model.TakeWaiter(old(View()), id)
    {
      found := id in waiting;
      waiting := waiting - {id};
    }

    method Dispatch(message: Message)
      modifies this
      ensures View() == Model.Dispatch(old(View()), message)
    {
      if message.id.Some? {
        var found := TakeWaiter(message.id.value);
        if found {
          channels := channels[message.id.value := ParseReply(message)];
        }
        return;
      }
      if message.event.Some? {
        events := events + [CdpEvent(message.event.value, GetOr(message.params, Null), message.sessionId)];
      }
    }

    method Close(reason: string)
      modifies this
      ensures View() == Model.Close(old(View()), reason)
    {
      ghost var before := View();
      if closed.None? {
        closed := Some(reason);
      }
      while waiting != {}
        invariant waiting <= before.waiting && events == before.events
        invariant closed == if before.closed.None? then Some(reason) else before.closed
        invariant channels
               == before.channels + map id | id in before.waiting - waiting :: Err(Browser(reason))
        decreases waiting
      {
        var id :| id in waiting;
        waiting := waiting - {id};
        channels := channels[id := Err(Browser(reason))];
      }
      assert before.waiting - waiting == before.waiting;
    }

    /** The reader task, over all the bytes the stream yields before it ends or fails. */
    method ReadLoop(decode: seq<byte> -> Option<Message>, stream: seq<byte>, failure: Option<string>)
      modifies this
      ensures View() == Model.Close(DispatchFrames(old(View()), decode, Frames(stream)), EndReason(stream, failure))
    {
      var partial := ReadFrames(decode, stream);
      Close(if failure.Some? then "the CDP connection failed: " + failure.value
            else if partial == [] then "the browser closed the CDP connection"
            else "the CDP connection ended mid-message");
    }

    /** Dispatches every complete frame; returns what the last read yielded. */
    method ReadFrames(decode: seq<byte> -> Option<Message>, stream: seq<byte>) returns (frame: seq<byte>)
      modifies this
      ensures View() == DispatchFrames(old(View()), decode, Frames(stream))
      ensures frame != [] <==> MidMessage(stream)
    {
      ghost var expected := DispatchFrames(View(), decode, Frames(stream));
      var rest := stream;
      while true
        invariant rest != [] ==> stream != [] && rest[|rest| - 1] == stream[|stream| - 1]
        invariant rest == [] ==> !MidMessage(stream)
        invariant expected == DispatchFrames(View(), decode, Frames(rest))
        decreases |rest|
      {
        frame := ReadUntil(rest);
        if frame == [] || frame[|frame| - 1] != DELIMITER {
          NoFrame(frame);
          return;
        }
        FrameSplit(rest, frame);
        rest := rest[|frame|..];
        frame := frame[..|frame| - 1];
        var message := decode(frame);
        if message.Some? {
          Dispatch(message.value);
        }
      }
    }
  }

  lemma FrameSplit(rest: seq<byte>, frame: seq<byte>)
    requires frame <= rest && frame != [] && frame[|frame| - 1] == DELIMITER
    requires forall i :: 0 <= i < |frame| - 1 ==> frame[i] != DELIMITER
    ensures Frames(rest) == [frame[..|frame| - 1]] + Frames(rest[|frame|..])
  {
    var payload := frame[..|frame| - 1];
    assert rest == payload + [DELIMITER] + rest[|frame|..];
    FrameFirst(payload, rest[|frame|..]);
  }

  /** Bytes up to and including the first delimiter, or all of them. */
  method ReadUntil(stream: seq<byte>) returns (frame: seq<byte>)
    ensures frame <= stream
    ensures frame == stream || (frame != [] && frame[|frame| - 1] == DELIMITER)
    ensures forall i :: 0 <= i < |frame| - 1 ==> frame[i] != DELIMITER
  {
    var i := 0;
    while i < |stream|
      invariant 0 <= i <= |stream|
      invariant forall j :: 0 <= j < i ==> stream[j] != DELIMITER
    {
      if stream[i] == DELIMITER {
        return stream[..i + 1];
      }
      i := i + 1;
    }
    frame := stream;
  }
}
