/** `src/tls_capture.rs`: the accumulator of a stream's first TLS record. */
module CaptureModel {
  import opened Wrappers
  import opened Wire
  import opened HelloBounds

  const RECORD_HEADER_LEN: nat := 5
  const MAX_CAPTURE_BYTES: nat := 16 * 1024

  datatype State = State(buf: seq<byte>, done: bool)

  const Empty := State([], false)

  function Min(a: nat, b: nat): nat {
    if a <= b then a else b
  }

  /** One `push`: the new state, and the record if this chunk completed it. */
  function Push(s: State, bytes: seq<byte>): (State, Option<seq<byte>>) {
    if s.done then (s, None)
    else
      var buf := s.buf + bytes;
      if |buf| < RECORD_HEADER_LEN then (State(buf, false), None)
      else
        var total := RecordTotal(buf);
        if |buf| >= total || |buf| >= MAX_CAPTURE_BYTES then (State(buf, true), Some(buf[..Min(total, |buf|)]))
        else (State(buf, false), None)
  }

  function After(chunks: seq<seq<byte>>): State {
    if chunks == [] then Empty else Push(After(chunks[..|chunks| - 1]), chunks[|chunks| - 1]).0
  }

  /** What the push of chunk `k` returns. */
  function Out(chunks: seq<seq<byte>>, k: nat): Option<seq<byte>>
    requires k < |chunks|
  {
    Push(After(chunks[..k]), chunks[k]).1
  }

  // -- what it should do, said of the bytes received and not of the pushes --------------

  function Flatten(chunks: seq<seq<byte>>): seq<byte> {
    if chunks == [] then [] else Flatten(chunks[..|chunks| - 1]) + chunks[|chunks| - 1]
  }

  /** The bytes received so far settle the capture: a whole record, or 16 KiB of one. */
  predicate Settled(received: seq<byte>) {
    |received| >= 5 && (|received| >= RecordTotal(received) || |received| >= 16384)
  }

  lemma SettledStays(received: seq<byte>, more: seq<byte>)
    requires Settled(received)
    ensures Settled(received + more) && RecordTotal(received + more) == RecordTotal(received)
  {
  }

  lemma {:induction false} AfterIsTheBytesReceived(chunks: seq<seq<byte>>)
    ensures After(chunks).done <==> Settled(Flatten(chunks))
    ensures !After(chunks).done ==> After(chunks).buf == Flatten(chunks)
    ensures !After(chunks).done ==> |After(chunks).buf| < 16384
  {
    if chunks != [] {
      var earlier := chunks[..|chunks| - 1];
      AfterIsTheBytesReceived(earlier);
      if After(earlier).done {
        SettledStays(Flatten(earlier), chunks[|chunks| - 1]);
      }
    }
  }

  /** For every split of every stream: the push that settles the capture emits
      the bytes received, cut at the declared record; no other push emits. */
  lemma EmitsWhenSettled(chunks: seq<seq<byte>>, k: nat)
    requires k < |chunks|
    ensures var received := Flatten(chunks[..k + 1]);
            Out(chunks, k) == if Settled(received) && !Settled(Flatten(chunks[..k]))
                              then Some(received[..Min(RecordTotal(received), |received|)]) else None
  {
    assert chunks[..k + 1][..k] == chunks[..k];
    AfterIsTheBytesReceived(chunks[..k]);
    AfterIsTheBytesReceived(chunks[..k + 1]);
  }

  lemma {:induction false} FlattenPrefix(chunks: seq<seq<byte>>, k: nat)
    requires k <= |chunks|
    ensures Flatten(chunks[..k]) <= Flatten(chunks)
    decreases |chunks| - k
  {
    if k == |chunks| {
      assert chunks[..k] == chunks;
    } else {
      assert chunks[..k + 1][..k] == chunks[..k];
      FlattenPrefix(chunks, k + 1);
    }
  }

  lemma {:induction false} SettledMonotone(chunks: seq<seq<byte>>, j: nat, k: nat)
    requires j <= k <= |chunks| && Settled(Flatten(chunks[..j]))
    ensures Settled(Flatten(chunks[..k]))
    decreases k - j
  {
    if j < k {
      SettledMonotone(chunks, j, k - 1);
      assert chunks[..k][..k - 1] == chunks[..k - 1];
      SettledStays(Flatten(chunks[..k - 1]), chunks[k - 1]);
    }
  }

  lemma EmitsAtMostOnce(chunks: seq<seq<byte>>, j: nat, k: nat)
    requires j < k < |chunks| && Out(chunks, j).Some?
    ensures Out(chunks, k) == None
  {
    EmitsWhenSettled(chunks, j);
    EmitsWhenSettled(chunks, k);
    SettledMonotone(chunks, j + 1, k);
  }

  lemma {:induction false} SettlingChunk(chunks: seq<seq<byte>>) returns (k: nat)
    requires Settled(Flatten(chunks))
    ensures k < |chunks| && Settled(Flatten(chunks[..k + 1])) && !Settled(Flatten(chunks[..k]))
  {
    var earlier := chunks[..|chunks| - 1];
    if Settled(Flatten(earlier)) {
      k := SettlingChunk(earlier);
      assert earlier[..k + 1] == chunks[..k + 1] && earlier[..k] == chunks[..k];
    } else {
      k := |chunks| - 1;
      assert chunks[..k + 1] == chunks;
    }
  }

  /** A record of at most 16 KiB: whatever the split, it is emitted exactly
      once, whole, by the first chunk that completes it. */
  lemma EmitsExactlyTheRecord(chunks: seq<seq<byte>>) returns (k: nat)
    requires var stream := Flatten(chunks);
             |stream| >= 5 && RecordTotal(stream) <= 16384 && RecordTotal(stream) <= |stream|
    ensures var stream := Flatten(chunks);
            var total := RecordTotal(stream);
            && k < |chunks|
            && Out(chunks, k) == Some(stream[..total])
            && |Flatten(chunks[..k])| < total <= |Flatten(chunks[..k + 1])|
            && forall j :: 0 <= j < |chunks| && j != k ==> Out(chunks, j) == None
  {
    k := SettlingChunk(chunks);
    var stream, received := Flatten(chunks), Flatten(chunks[..k + 1]);
    FlattenPrefix(chunks, k);
    FlattenPrefix(chunks, k + 1);
    assert RecordTotal(received) == RecordTotal(stream);
    EmitsWhenSettled(chunks, k);
    assert received[..RecordTotal(stream)] == stream[..RecordTotal(stream)];
    forall j | 0 <= j < |chunks| && j != k
      ensures Out(chunks, j) == None
    {
      EmitsWhenSettled(chunks, j);
      if j < k {
        if Settled(Flatten(chunks[..j + 1])) {
          SettledMonotone(chunks, j + 1, k);
        }
      } else {
        SettledMonotone(chunks, k + 1, j);
      }
    }
  }

  /** Any emission at all: a prefix of the stream no longer than the declared
      record, and never a record cut short below the 16 KiB cap. */
  lemma EmissionIsAPrefix(chunks: seq<seq<byte>>, k: nat)
    requires k < |chunks| && Out(chunks, k).Some?
    ensures var stream, emitted := Flatten(chunks), Out(chunks, k).value;
            && |stream| >= 5
            && emitted <= stream && |emitted| <= RecordTotal(stream)
            && (|emitted| == RecordTotal(stream) || |emitted| >= 16384)
  {
    EmitsWhenSettled(chunks, k);
    FlattenPrefix(chunks, k + 1);
    var stream, received := Flatten(chunks), Flatten(chunks[..k + 1]);
    assert RecordTotal(received) == RecordTotal(stream);
  }

  /** An incomplete record below the cap is never emitted. */
  lemma NeverEmitsTooEarly(chunks: seq<seq<byte>>, k: nat)
    requires k < |chunks| && !Settled(Flatten(chunks))
    ensures Out(chunks, k) == None
  {
    EmitsWhenSettled(chunks, k);
    FlattenPrefix(chunks, k + 1);
  }
}

module TlsCapture {
  import opened Wrappers
  import opened Wire
  import opened HelloGrammar
  import opened HelloBounds
  import opened Model = CaptureModel

  class Capture {
    var buf: seq<byte>
    var done: bool

    ghost function View(): State
      reads this
    {
      State(buf, done)
    }

    constructor ()
      ensures View() == Empty
    {
      buf, done := [], false;
    }

    method Push(bytes: seq<byte>) returns (hello: Option<seq<byte>>)
      modifies this
      ensures (View(), hello) == Model.Push(old(View()), bytes)
    {
      if done {
        return None;
      }
      buf := buf + bytes;
      if |buf| < RECORD_HEADER_LEN {
        return None;
      }
      var total := Be16(buf[3], buf[4]) + RECORD_HEADER_LEN;
      if |buf| >= total || |buf| >= MAX_CAPTURE_BYTES {
        done := true;
        var end := if total <= |buf| then total else |buf|;
        return Some(buf[..end]);
      }
      hello := None;
    }
  }

  /** The wrapped stream: reads are forwarded, the capture is a side effect. */
  class CapturingStream {
    const observing: bool
    const capture: Capture
    var observed: seq<seq<byte>>
    ghost var received: seq<seq<byte>>

    ghost predicate Valid()
      reads this, capture
    {
      && capture.View() == After(received)
      && observed == if observing then Emitted(received) else []
    }

    constructor (observing: bool)
      ensures Valid() && fresh(capture) && this.observing == observing && observed == [] && received == []
    {
      this.observing := observing;
      capture := new Capture();
      observed, received := [], [];
    }

    /** A read that produced `chunk` bytes. */
    method PollRead(chunk: seq<byte>) returns (forwarded: seq<byte>)
      requires Valid()
      modifies this, capture
      ensures Valid() && forwarded == chunk
      ensures received == if observing && chunk != [] then old(received) + [chunk] else old(received)
    {
      forwarded := chunk;
      if !observing {
        return;
      }
      if chunk != [] {
        ghost var all := received + [chunk];
        EmittedNext(received, chunk);
        var hello := capture.Push(chunk);
        if hello.Some? {
          observed := observed + [hello.value];
        }
        received := all;
      }
    }
  }

  /** Everything emitted over a run of pushes. */
  ghost function Emitted(chunks: seq<seq<byte>>): seq<seq<byte>> {
    if chunks == [] then []
    else
      var k := |chunks| - 1;
      Emitted(chunks[..k])
      + match Model.Push(After(chunks[..k]), chunks[k]).1
        case Some(record) => [record]
        case None => []
  }

  lemma EmittedNext(chunks: seq<seq<byte>>, chunk: seq<byte>)
    ensures After(chunks + [chunk]) == Model.Push(After(chunks), chunk).0
    ensures Emitted(chunks + [chunk])
         == Emitted(chunks) + match Model.Push(After(chunks), chunk).1 case Some(record) => [record] case None => []
  {
    assert (chunks + [chunk])[..|chunks|] == chunks;
  }

  /** The observer of a stream hears at most once. */
  lemma {:induction false} ObservedAtMostOnce(chunks: seq<seq<byte>>)
    ensures |Emitted(chunks)| <= 1
    ensures Emitted(chunks) != [] <==> After(chunks).done
  {
    if chunks != [] {
      ObservedAtMostOnce(chunks[..|chunks| - 1]);
    }
  }

  /** However a record of at most 16 KiB was split, and whatever follows it,
      parsing what was emitted gives what parsing the unsplit stream gives. */
  lemma CaptureParsesAsTheStream(chunks: seq<seq<byte>>) returns (k: nat)
    requires var stream := Flatten(chunks);
             && |stream| >= 5 && stream[0] == 0x16
             && RecordTotal(stream) <= 16384 && RecordTotal(stream) <= |stream|
    ensures k < |chunks| && Out(chunks, k).Some?
    ensures Parse(Out(chunks, k).value) == Parse(Flatten(chunks))
  {
    k := EmitsExactlyTheRecord(chunks);
    CutRecordParsesAlike(Flatten(chunks));
  }
}
