/** How the parser behaves on prefixes and extensions of its input, and how
    large a result an input can yield. */
module HelloBounds {
  import opened Wrappers
  import opened Wire
  import opened HelloGrammar

  // -- appending bytes ----------------------------------------------------------

  lemma HandshakeIgnoresTrailing(body: seq<byte>, more: seq<byte>)
    requires ParseHandshake(body) != Err(Truncated) || (body != [] && Block(body[1..], 3).Ok?)
    ensures ParseHandshake(body + more) == ParseHandshake(body)
  {
    TakeExtends(body, 1, more);
    if body[0] == HANDSHAKE_TYPE_CLIENT_HELLO {
      BlockExtends(body[1..], 3, more);
    }
  }

  /** Any outcome but `Truncated` is final: more bytes cannot change it. */
  lemma OnlyTruncatedCanChange(bytes: seq<byte>, more: seq<byte>)
    requires Parse(bytes) != Err(Truncated)
    ensures Parse(bytes + more) == Parse(bytes)
  {
    if bytes[0] == CONTENT_TYPE_HANDSHAKE {
      RecordIgnoresTrailing(bytes, more);
    } else if bytes[0] == HANDSHAKE_TYPE_CLIENT_HELLO {
      HandshakeIgnoresTrailing(bytes, more);
    }
  }

  /** A complete record is judged alone, whatever the outcome. */
  lemma RecordIgnoresTrailing(bytes: seq<byte>, more: seq<byte>)
    requires |bytes| >= 3 && bytes[0] == CONTENT_TYPE_HANDSHAKE && Block(bytes[3..], 2).Ok?
    ensures Parse(bytes + more) == Parse(bytes)
  {
    var all := bytes + more;
    assert all[0] == bytes[0];
    TakeExtends(bytes, 1, more);
    assert bytes[1..][2..] == bytes[3..];
    TakeExtends(bytes[1..], 2, more);
    BlockExtends(bytes[3..], 2, more);
  }

  // -- cutting bytes off ----------------------------------------------------------

  /** The length a record header declares, header included. */
  function RecordTotal(bytes: seq<byte>): nat
    requires |bytes| >= 5
  {
    5 + Be16(bytes[3], bytes[4])
  }

  function HandshakeTotal(bytes: seq<byte>): nat
    requires |bytes| >= 4
  {
    4 + Be24(bytes[1], bytes[2], bytes[3])
  }

  /** One record, or one bare handshake message, with nothing after it. */
  ghost predicate ExactlySized(bytes: seq<byte>) {
    || (|bytes| >= 5 && bytes[0] == CONTENT_TYPE_HANDSHAKE && |bytes| == RecordTotal(bytes))
    || (|bytes| >= 4 && bytes[0] == HANDSHAKE_TYPE_CLIENT_HELLO && |bytes| == HandshakeTotal(bytes))
  }

  /** Every proper prefix of an exactly sized input is `Truncated`. */
  lemma ProperPrefixIsTruncated(bytes: seq<byte>, n: nat)
    requires ExactlySized(bytes) && n < |bytes|
    ensures Parse(bytes[..n]) == Err(Truncated)
  {
  }

  /** The size of the input decides between `Truncated` at the framing level and
      a verdict on the framed message. */
  lemma RecordFramedIffComplete(bytes: seq<byte>)
    requires |bytes| >= 5 && bytes[0] == CONTENT_TYPE_HANDSHAKE
    ensures Block(bytes[3..], 2).Ok? <==> RecordTotal(bytes) <= |bytes|
    ensures RecordTotal(bytes) <= |bytes| ==> Parse(bytes) == ParseHandshake(bytes[5..RecordTotal(bytes)])
    ensures RecordTotal(bytes) > |bytes| ==> Parse(bytes) == Err(Truncated)
  {
    assert bytes[1..][2..] == bytes[3..];
    assert bytes[3..][2..] == bytes[5..];
    if RecordTotal(bytes) <= |bytes| {
      assert bytes[5..][..RecordTotal(bytes) - 5] == bytes[5..RecordTotal(bytes)];
    }
  }

  /** Whatever follows the first record of a stream plays no part. */
  lemma CutRecordParsesAlike(stream: seq<byte>)
    requires |stream| >= 5 && stream[0] == CONTENT_TYPE_HANDSHAKE && RecordTotal(stream) <= |stream|
    ensures Parse(stream[..RecordTotal(stream)]) == Parse(stream)
  {
    var record := stream[..RecordTotal(stream)];
    assert record + stream[RecordTotal(stream)..] == stream;
    RecordFramedIffComplete(record);
    RecordIgnoresTrailing(record, stream[RecordTotal(stream)..]);
  }

  // -- the size of a result -----------------------------------------------------------

  function WireSize(protocols: seq<seq<byte>>): nat {
    if protocols == [] then 0
    else WireSize(protocols[..|protocols| - 1]) + 1 + |protocols[|protocols| - 1]|
  }

  function HostSize(host: Option<seq<byte>>): nat {
    if host.Some? then |host.value| else 0
  }

  /** What the extension lists of a hello occupy at least on the wire. */
  function Footprint(h: ClientHello): nat {
    4 * |h.extensions|
    + 2 * (|h.signatureAlgorithms| + |h.supportedGroups| + |h.supportedVersions|)
    + WireSize(h.alpn) + HostSize(h.serverName)
  }

  lemma {:induction false} PairsSize(s: seq<byte>)
    requires |s| % 2 == 0
    ensures 2 * |Pairs(s)| == |s|
  {
    if s != [] {
      PairsSize(s[2..]);
    }
  }

  lemma {:induction false} HostNameSize(list: seq<byte>, hello: ClientHello)
    requires HostName(list, hello).Ok?
    ensures Footprint(HostName(list, hello).value) <= Footprint(hello) + |list|
    ensures HostName(list, hello).value.cipherSuites == hello.cipherSuites
    decreases |list|
  {
    if list != [] {
      var entry := NameEntry(list).value;
      BlockSize(list[1..], 2);
      if entry.value.0 != 0 {
        HostNameSize(entry.rest, hello);
      }
    }
  }

  lemma {:induction false} ProtocolsSize(list: seq<byte>, seen: seq<seq<byte>>)
    requires Protocols(list, seen).Ok?
    ensures WireSize(Protocols(list, seen).value) <= WireSize(seen) + |list|
    decreases |list|
  {
    if list != [] {
      var proto := Block(list, 1).value;
      BlockSize(list, 1);
      var next := seen + [proto.value];
      assert next[..|next| - 1] == seen;
      ProtocolsSize(proto.rest, next);
    }
  }

  lemma AbsorbSize(hello: ClientHello, kind: u16, data: seq<byte>)
    requires Absorb(hello, kind, data).Ok?
    ensures Footprint(Absorb(hello, kind, data).value) <= Footprint(hello) + |data|
    ensures Absorb(hello, kind, data).value.cipherSuites == hello.cipherSuites
  {
    if kind == SERVER_NAME && data != [] {
      BlockSize(data, 2);
      HostNameSize(Block(data, 2).value.value, hello);
    } else if kind == SIGNATURE_ALGORITHMS || kind == SUPPORTED_GROUPS {
      BlockSize(data, 2);
      PairsSize(Block(data, 2).value.value);
    } else if kind == ALPN {
      BlockSize(data, 2);
      ProtocolsSize(Block(data, 2).value.value, hello.alpn);
    } else if kind == SUPPORTED_VERSIONS {
      BlockSize(data, 1);
      PairsSize(Block(data, 1).value.value);
    }
  }

  lemma ExtensionSize(s: seq<byte>, hello: ClientHello)
    requires ParseExtension(s, hello).Ok?
    ensures var next := ParseExtension(s, hello).value;
            Footprint(next.value) + |next.rest| <= Footprint(hello) + |s| && next.value.cipherSuites == hello.cipherSuites
  {
    var kind := U16(s).value;
    var data := Block(kind.rest, 2).value;
    BlockSize(kind.rest, 2);
    var counted := hello.(extensions := hello.extensions + [kind.value]);
    assert Footprint(counted) == Footprint(hello) + 4;
    AbsorbSize(counted, kind.value, data.value);
  }

  lemma {:induction false} ExtensionsSize(s: seq<byte>, hello: ClientHello)
    requires ParseExtensions(s, hello).Ok?
    ensures Footprint(ParseExtensions(s, hello).value) <= Footprint(hello) + |s|
    ensures ParseExtensions(s, hello).value.cipherSuites == hello.cipherSuites
    decreases |s|
  {
    if s != [] {
      var next := ParseExtension(s, hello).value;
      ExtensionSize(s, hello);
      ExtensionsSize(next.rest, next.value);
    }
  }

  /** Nothing the parser returns is larger than the bytes it was given: the
      fixed fields and prefixes of a hello alone take 38 of them. */
  lemma MessageSize(message: seq<byte>)
    requires ParseMessage(message).Ok?
    ensures var h := ParseMessage(message).value;
            2 * |h.cipherSuites| + Footprint(h) + 38 <= |message|
  {
    var random := message[2 + RANDOM_LEN..];
    assert message[2..][RANDOM_LEN..] == random;
    var session := Block(random, 1).value;
    BlockSize(random, 1);
    var suites := Block(session.rest, 2).value;
    BlockSize(session.rest, 2);
    PairsSize(suites.value);
    var compression := Block(suites.rest, 1).value;
    BlockSize(suites.rest, 1);
    if compression.rest != [] {
      BlockSize(compression.rest, 2);
      ExtensionsSize(Block(compression.rest, 2).value.value,
                     Bare(Be16(message[0], message[1]), U16List(suites.value).value));
    }
  }

  lemma ParseSize(bytes: seq<byte>)
    requires Parse(bytes).Ok?
    ensures var h := Parse(bytes).value;
            2 * |h.cipherSuites| + Footprint(h) + 42 <= |bytes|
  {
    var body := bytes;
    if bytes[0] == CONTENT_TYPE_HANDSHAKE {
      assert bytes[1..][2..] == bytes[3..];
      BlockSize(bytes[3..], 2);
      body := Block(bytes[3..], 2).value.value;
    }
    BlockSize(body[1..], 3);
    MessageSize(Block(body[1..], 3).value.value);
  }

  // -- which error ------------------------------------------------------------------------------

  /** A fault inside a message: bytes are missing, or a list is malformed. */
  predicate FaultInside<T>(r: Result<T, Ja4Error>) {
    r.Err? ==> !r.error.NotClientHello?
  }

  lemma {:induction false} HostNameFaultsInside(list: seq<byte>, hello: ClientHello)
    ensures FaultInside(HostName(list, hello))
    decreases |list|
  {
    if NameEntry(list).Ok? {
      HostNameFaultsInside(NameEntry(list).value.rest, hello);
    }
  }

  lemma {:induction false} ProtocolsFaultInside(list: seq<byte>, seen: seq<seq<byte>>)
    ensures FaultInside(Protocols(list, seen))
    decreases |list|
  {
    if list != [] && Block(list, 1).Ok? {
      ProtocolsFaultInside(Block(list, 1).value.rest, seen + [Block(list, 1).value.value]);
    }
  }

  lemma AbsorbFaultsInside(hello: ClientHello, kind: u16, data: seq<byte>)
    ensures FaultInside(Absorb(hello, kind, data))
  {
    if data != [] && Block(data, 2).Ok? {
      HostNameFaultsInside(Block(data, 2).value.value, hello);
      ProtocolsFaultInside(Block(data, 2).value.value, hello.alpn);
    }
  }

  lemma {:induction false} ExtensionsFaultInside(s: seq<byte>, hello: ClientHello)
    ensures FaultInside(ParseExtensions(s, hello))
    decreases |s|
  {
    if s != [] {
      var next := ParseExtension(s, hello);
      if U16(s).Ok? && Block(U16(s).value.rest, 2).Ok? {
        var kind, data := U16(s).value.value, Block(U16(s).value.rest, 2).value.value;
        AbsorbFaultsInside(hello.(extensions := hello.extensions + [kind]), kind, data);
      }
      if next.Ok? {
        ExtensionsFaultInside(next.value.rest, next.value.value);
      }
    }
  }

  lemma SuitesFaultInside(s: seq<byte>, version: u16)
    ensures FaultInside(ParseSuites(s, version))
  {
    if Block(s, 2).Ok? && U16List(Block(s, 2).value.value).Ok? {
      var hello, rest := Bare(version, U16List(Block(s, 2).value.value).value), Block(s, 2).value.rest;
      if Block(rest, 1).Ok? && Block(Block(rest, 1).value.rest, 2).Ok? {
        ExtensionsFaultInside(Block(Block(rest, 1).value.rest, 2).value.value, hello);
      }
    }
  }

  lemma MessageFaultsInside(message: seq<byte>)
    ensures FaultInside(ParseMessage(message))
  {
    if U16(message).Ok? && Take(U16(message).value.rest, RANDOM_LEN).Ok? {
      var session := Take(U16(message).value.rest, RANDOM_LEN).value.rest;
      if Block(session, 1).Ok? {
        SuitesFaultInside(Block(session, 1).value.rest, U16(message).value.value);
      }
    }
  }

  lemma HandshakeNotHelloIff(body: seq<byte>, kind: byte)
    ensures ParseHandshake(body) == Err(NotClientHello(kind)) <==> body != [] && body[0] == kind != 0x01
  {
    if body != [] && Block(body[1..], 3).Ok? {
      MessageFaultsInside(Block(body[1..], 3).value.value);
    }
  }

  /** Exactly when the input is said to be no ClientHello, and what is named: the first byte, if it
      begins neither a handshake record nor a ClientHello, or that of the message in a record. */
  lemma NotClientHelloIff(bytes: seq<byte>, kind: byte)
    ensures Parse(bytes) == Err(NotClientHello(kind)) <==>
              || (bytes != [] && bytes[0] == kind && kind != 0x16 && kind != 0x01)
              || (|bytes| > 5 && bytes[0] == 0x16 && 5 < RecordTotal(bytes) <= |bytes| && bytes[5] == kind != 0x01)
  {
    if bytes != [] && bytes[0] == 0x16 && |bytes| >= 5 {
      RecordFramedIffComplete(bytes);
      if RecordTotal(bytes) <= |bytes| {
        HandshakeNotHelloIff(bytes[5..RecordTotal(bytes)], kind);
      }
    } else if bytes != [] && bytes[0] == 0x01 {
      HandshakeNotHelloIff(bytes, kind);
    }
  }

  ghost predicate IsMalformed<T>(r: Result<T, Ja4Error>) {
    r.Err? && r.error.Malformed?
  }

  lemma OddSuitesAreMalformed(version: u16, ciphers: seq<byte>, tail: seq<byte>)
    requires |ciphers| < 0x1_0000 && |ciphers| % 2 == 1
    ensures IsMalformed(ParseSuites(Prefixed(2, ciphers) + tail, version))
  {
    BlockUndoesPrefixed(2, ciphers, tail);
  }

  lemma OddMessageIsMalformed(version: u16, random: seq<byte>, session: seq<byte>, suites: seq<byte>)
    requires |random| == 32 && |session| < 0x100 && IsMalformed(ParseSuites(suites, version))
    ensures IsMalformed(ParseMessage(Bytes16(version) + (random + (Prefixed(1, session) + suites))))
  {
    var s2 := Prefixed(1, session) + suites;
    var s1 := random + s2;
    U16UndoesBytes16(version, s1);
    assert s1[..32] == random && s1[32..] == s2;
    BlockUndoesPrefixed(1, session, suites);
  }

  /** A cipher list of an odd length is malformed, whatever stands around it. */
  lemma OddCiphersAreMalformed(version: u16, random: seq<byte>, session: seq<byte>, ciphers: seq<byte>, tail: seq<byte>)
    requires |random| == 32 && |session| < 0x100 && |ciphers| < 0x1_0000 && |ciphers| % 2 == 1
    requires 2 + 32 + 1 + |session| + 2 + |ciphers| + |tail| < 0x100_0000
    ensures var message := Bytes16(version) + (random + (Prefixed(1, session) + (Prefixed(2, ciphers) + tail)));
            IsMalformed(Parse([0x01] + Prefixed(3, message)))
  {
    OddSuitesAreMalformed(version, ciphers, tail);
    OddMessageIsMalformed(version, random, session, Prefixed(2, ciphers) + tail);
    var message := Bytes16(version) + (random + (Prefixed(1, session) + (Prefixed(2, ciphers) + tail)));
    BlockUndoesPrefixed(3, message, []);
    assert Prefixed(3, message) + [] == Prefixed(3, message);
    assert ([0x01] + Prefixed(3, message))[1..] == Prefixed(3, message);
  }
}
