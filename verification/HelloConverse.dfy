/** The converse of the round trip: whatever the parser accepts has the fields of some
    hello the printer can print. The bytes may be others: what follows the message, or what
    an extension leaves unread of its payload, is accepted and says nothing. */
module HelloConverse {
  import opened Wrappers
  import opened Wire
  import opened HelloGrammar
  import opened HelloPrinter
  import opened HelloBounds

  lemma BlockWithin(s: seq<byte>, width: nat)
    requires Block(s, width).Ok?
    ensures var b := Block(s, width).value;
            1 <= width <= 3 && |b.value| < Limit(width) && width + |b.value| + |b.rest| == |s|
  {
    BlockSize(s, width);
  }

  lemma {:induction false} NamesOf(list: seq<byte>, hello: ClientHello) returns (names: seq<(byte, seq<byte>)>)
    requires HostName(list, hello).Ok?
    ensures (forall n <- names :: |n.1| < Limit(2)) && |PrintNames(names)| <= |list|
    ensures HostName(list, hello).value == if FirstHost(names).Some? then hello.(serverName := FirstHost(names)) else hello
    decreases |list|
  {
    if list == [] {
      return [];
    }
    var entry := NameEntry(list).value;
    BlockWithin(list[1..], 2);
    var more: seq<(byte, seq<byte>)> := [];
    if entry.value.0 != 0 {
      more := NamesOf(entry.rest, hello);
    }
    names := [entry.value] + more;
    assert names[1..] == more;
  }

  lemma {:induction false} ProtocolsOf(list: seq<byte>, seen: seq<seq<byte>>) returns (protocols: seq<seq<byte>>)
    requires Protocols(list, seen).Ok?
    ensures (forall p <- protocols :: |p| < Limit(1)) && |PrintProtocols(protocols)| <= |list|
    ensures Protocols(list, seen).value == seen + protocols
    decreases |list|
  {
    if list == [] {
      return [];
    }
    var proto := Block(list, 1).value;
    BlockWithin(list, 1);
    var more := ProtocolsOf(proto.rest, seen + [proto.value]);
    protocols := [proto.value] + more;
    assert protocols[1..] == more;
    assert seen + [proto.value] + more == seen + protocols;
  }

  /** An extension that prints no longer than `data` and has the effect `data` has. */
  ghost predicate StandsFor(before: ClientHello, kind: u16, data: seq<byte>, e: Extension) {
    && FitsExtension(e) && Kind(e) == kind && |Payload(e)| <= |data|
    && Absorb(before.(extensions := before.extensions + [kind]), kind, data) == Ok(Step(before, e))
  }

  lemma NamesExtension(before: ClientHello, data: seq<byte>) returns (e: Extension)
    requires |data| < Limit(2) && Absorb(before.(extensions := before.extensions + [SERVER_NAME]), SERVER_NAME, data).Ok?
    ensures StandsFor(before, SERVER_NAME, data, e)
  {
    if data == [] {
      return EmptySni;
    }
    BlockWithin(data, 2);
    var names := NamesOf(Block(data, 2).value.value, before.(extensions := before.extensions + [SERVER_NAME]));
    e := Sni(names);
  }

  lemma ListExtension(before: ClientHello, kind: u16, data: seq<byte>) returns (e: Extension)
    requires kind == SIGNATURE_ALGORITHMS || kind == SUPPORTED_GROUPS || kind == SUPPORTED_VERSIONS
    requires |data| < Limit(2) && Absorb(before.(extensions := before.extensions + [kind]), kind, data).Ok?
    ensures StandsFor(before, kind, data, e)
  {
    var width := if kind == SUPPORTED_VERSIONS then 1 else 2;
    BlockWithin(data, width);
    var list := Block(data, width).value.value;
    PairsSize(list);
    e := if kind == SIGNATURE_ALGORITHMS then SigAlgs(Pairs(list))
         else if kind == SUPPORTED_GROUPS then Groups(Pairs(list))
         else Versions(Pairs(list));
  }

  lemma AlpnExtension(before: ClientHello, data: seq<byte>) returns (e: Extension)
    requires |data| < Limit(2) && Absorb(before.(extensions := before.extensions + [ALPN]), ALPN, data).Ok?
    ensures StandsFor(before, ALPN, data, e)
  {
    BlockWithin(data, 2);
    var protocols := ProtocolsOf(Block(data, 2).value.value, before.alpn);
    e := Alpn(protocols);
  }

  lemma ExtensionOf(before: ClientHello, kind: u16, data: seq<byte>) returns (e: Extension)
    requires |data| < Limit(2) && Absorb(before.(extensions := before.extensions + [kind]), kind, data).Ok?
    ensures StandsFor(before, kind, data, e)
  {
    if kind == SERVER_NAME {
      e := NamesExtension(before, data);
    } else if kind == ALPN {
      e := AlpnExtension(before, data);
    } else if kind == SIGNATURE_ALGORITHMS || kind == SUPPORTED_GROUPS || kind == SUPPORTED_VERSIONS {
      e := ListExtension(before, kind, data);
    } else {
      e := Other(kind, data);
    }
  }

  lemma {:induction false} ExtensionsOf(s: seq<byte>, before: ClientHello) returns (es: seq<Extension>)
    requires ParseExtensions(s, before).Ok?
    ensures (forall e <- es :: FitsExtension(e)) && |PrintExtensions(es)| <= |s|
    ensures ParseExtensions(s, before).value == Steps(before, es)
    decreases |s|
  {
    if s == [] {
      return [];
    }
    var kind := U16(s).value;
    var data := Block(kind.rest, 2).value;
    BlockWithin(kind.rest, 2);
    var e := ExtensionOf(before, kind.value, data.value);
    var more := ExtensionsOf(data.rest, Step(before, e));
    es := [e] + more;
    assert es[1..] == more;
  }

  /** The extensions block, if any, of what follows the compression methods. */
  lemma TailOf(s: seq<byte>, version: u16, ciphers: seq<u16>) returns (es: seq<Extension>)
    requires s == [] || (Block(s, 2).Ok? && ParseExtensions(Block(s, 2).value.value, Bare(version, ciphers)).Ok?)
    ensures (forall e <- es :: FitsExtension(e)) && |PrintExtensions(es)| < Limit(2) && |PrintTail(es)| <= |s|
    ensures (if s == [] then Bare(version, ciphers)
             else ParseExtensions(Block(s, 2).value.value, Bare(version, ciphers)).value)
         == Fields(version, ciphers, es)
  {
    es := [];
    if s != [] {
      BlockWithin(s, 2);
      es := ExtensionsOf(Block(s, 2).value.value, Bare(version, ciphers));
    }
    StepsFromBare(es, version, ciphers);
  }

  lemma SuitesOf(s: seq<byte>, version: u16)
    returns (ciphers: seq<u16>, compression: seq<byte>, es: seq<Extension>)
    requires ParseSuites(s, version).Ok?
    ensures 2 * |ciphers| < Limit(2) && |compression| < Limit(1)
    ensures (forall e <- es :: FitsExtension(e)) && |PrintExtensions(es)| < Limit(2)
    ensures 2 + 2 * |ciphers| + 1 + |compression| + |PrintTail(es)| <= |s|
    ensures ParseSuites(s, version).value == Fields(version, ciphers, es)
  {
    var suites := Block(s, 2).value;
    BlockWithin(s, 2);
    PairsSize(suites.value);
    var methods := Block(suites.rest, 1).value;
    BlockWithin(suites.rest, 1);
    ciphers, compression := Pairs(suites.value), methods.value;
    es := TailOf(methods.rest, version, ciphers);
  }

  lemma MessageOf(message: seq<byte>) returns (h: Hello)
    requires |message| < Limit(3) && ParseMessage(message).Ok?
    ensures Fits(h) && ParseMessage(message).value == Fields(h.legacyVersion, h.ciphers, h.extensions)
  {
    var version := U16(message).value;
    var random := Take(version.rest, RANDOM_LEN).value;
    var session := Block(random.rest, 1).value;
    BlockWithin(random.rest, 1);
    var ciphers, compression, es := SuitesOf(session.rest, version.value);
    h := Hello(version.value, random.value, session.value, ciphers, compression, es);
  }

  /** Everything accepted has exactly the fields of a hello that fits the wire format, and so
      parses as that one's printed handshake does. */
  lemma AcceptedIsHello(bytes: seq<byte>) returns (h: Hello)
    requires Parse(bytes).Ok?
    ensures Fits(h) && Parse(bytes) == Ok(Fields(h.legacyVersion, h.ciphers, h.extensions))
    ensures Parse(BuildHandshake(h)) == Parse(bytes)
  {
    var body := if bytes[0] == CONTENT_TYPE_HANDSHAKE then Block(bytes[1..][2..], 2).value.value else bytes;
    BlockWithin(body[1..], 3);
    h := MessageOf(Block(body[1..], 3).value.value);
    ParseUndoesBuildHandshake(h);
  }
}
