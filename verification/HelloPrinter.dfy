/** The printer of `src/ja4/tests.rs`, extended to every field the grammar has,
    and the theorem that parsing undoes printing. */
module HelloPrinter {
  import opened Wrappers
  import opened Wire
  import opened HelloGrammar

  /** One extension before it is printed. */
  datatype Extension =
    | Sni(names: seq<(byte, seq<byte>)>)
    | EmptySni
    | SigAlgs(algorithms: seq<u16>)
    | Groups(groups: seq<u16>)
    | Alpn(protocols: seq<seq<byte>>)
    | Versions(versions: seq<u16>)
    | Other(kind: u16, data: seq<byte>)

  datatype Hello = Hello(
    legacyVersion: u16,
    random: seq<byte>,
    sessionId: seq<byte>,
    ciphers: seq<u16>,
    compression: seq<byte>,
    extensions: seq<Extension>)

  // -- printing ------------------------------------------------------------------

  function PrintNames(names: seq<(byte, seq<byte>)>): seq<byte> {
    if names == [] then []
    else [names[0].0] + Prefixed(2, names[0].1) + PrintNames(names[1..])
  }

  function PrintProtocols(protocols: seq<seq<byte>>): seq<byte> {
    if protocols == [] then [] else Prefixed(1, protocols[0]) + PrintProtocols(protocols[1..])
  }

  function Kind(e: Extension): u16 {
    match e
    case Sni(_) => SERVER_NAME
    case EmptySni => SERVER_NAME
    case SigAlgs(_) => SIGNATURE_ALGORITHMS
    case Groups(_) => SUPPORTED_GROUPS
    case Alpn(_) => ALPN
    case Versions(_) => SUPPORTED_VERSIONS
    case Other(kind, _) => kind
  }

  function Payload(e: Extension): seq<byte> {
    match e
    case Sni(names) => Prefixed(2, PrintNames(names))
    case EmptySni => []
    case SigAlgs(values) => Prefixed(2, U16s(values))
    case Groups(values) => Prefixed(2, U16s(values))
    case Alpn(protocols) => Prefixed(2, PrintProtocols(protocols))
    case Versions(values) => Prefixed(1, U16s(values))
    case Other(_, data) => data
  }

  function PrintExtensions(es: seq<Extension>): seq<byte> {
    if es == [] then []
    else Bytes16(Kind(es[0])) + Prefixed(2, Payload(es[0])) + PrintExtensions(es[1..])
  }

  /** As in the builder, the extensions block is printed only when there are some. */
  function PrintTail(es: seq<Extension>): seq<byte> {
    if es == [] then [] else Prefixed(2, PrintExtensions(es))
  }

  function PrintSuites(h: Hello): seq<byte> {
    Prefixed(2, U16s(h.ciphers)) + (Prefixed(1, h.compression) + PrintTail(h.extensions))
  }

  function PrintMessage(h: Hello): seq<byte> {
    Bytes16(h.legacyVersion) + (h.random + (Prefixed(1, h.sessionId) + PrintSuites(h)))
  }

  function BuildHandshake(h: Hello): seq<byte> {
    [HANDSHAKE_TYPE_CLIENT_HELLO] + Prefixed(3, PrintMessage(h))
  }

  function BuildRecord(version: u16, handshake: seq<byte>): seq<byte> {
    [CONTENT_TYPE_HANDSHAKE] + Bytes16(version) + Prefixed(2, handshake)
  }

  /** The numbers on the wire: message, record, and the extension types of RFC 6066, RFC 7301
      and RFC 8446. */
  lemma NumbersOnTheWire(h: Hello, version: u16, handshake: seq<byte>, es: seq<Extension>)
    requires es != []
    ensures BuildHandshake(h)[0] == 0x01 && BuildRecord(version, handshake)[0] == 0x16
    ensures Fits(h) ==> |h.random| == 32
    ensures var kind := PrintExtensions(es)[..2];
            match es[0]
            case Sni(_) => kind == [0x00, 0x00]
            case EmptySni => kind == [0x00, 0x00]
            case Groups(_) => kind == [0x00, 0x0a]
            case SigAlgs(_) => kind == [0x00, 0x0d]
            case Alpn(_) => kind == [0x00, 0x10]
            case Versions(_) => kind == [0x00, 0x2b]
            case Other(k, _) => kind == [k / 0x100, k % 0x100]
  {
  }

  // -- what fits the wire format's length prefixes ------------------------------

  predicate FitsExtension(e: Extension) {
    && (match e
        case Sni(names) => |PrintNames(names)| < Limit(2) && forall n <- names :: |n.1| < Limit(2)
        case SigAlgs(values) => 2 * |values| < Limit(2)
        case Groups(values) => 2 * |values| < Limit(2)
        case Alpn(protocols) => |PrintProtocols(protocols)| < Limit(2) && forall p <- protocols :: |p| < Limit(1)
        case Versions(values) => 2 * |values| < Limit(1)
        case EmptySni => true
        case Other(kind, _) =>
          kind !in {SERVER_NAME, SUPPORTED_GROUPS, SIGNATURE_ALGORITHMS, ALPN, SUPPORTED_VERSIONS})
    && |Payload(e)| < Limit(2)
  }

  predicate Fits(h: Hello) {
    && |h.random| == RANDOM_LEN
    && |h.sessionId| < Limit(1)
    && 2 * |h.ciphers| < Limit(2)
    && |h.compression| < Limit(1)
    && (forall e <- h.extensions :: FitsExtension(e))
    && |PrintExtensions(h.extensions)| < Limit(2)
    && |PrintMessage(h)| < Limit(3)
  }

  // -- the fields a parser should recover, read off the printed hello -------------

  function Last(es: seq<Extension>, pick: Extension -> Option<seq<u16>>): seq<u16> {
    if es == [] then []
    else match pick(es[|es| - 1])
         case Some(values) => values
         case None => Last(es[..|es| - 1], pick)
  }

  const PickSigAlgs := (e: Extension) => if e.SigAlgs? then Some(e.algorithms) else None
  const PickGroups := (e: Extension) => if e.Groups? then Some(e.groups) else None
  const PickVersions := (e: Extension) => if e.Versions? then Some(e.versions) else None

  function FirstHost(names: seq<(byte, seq<byte>)>): Option<seq<byte>> {
    if names == [] then None
    else if names[0].0 == 0 then Some(names[0].1)
    else FirstHost(names[1..])
  }

  function LastHost(es: seq<Extension>): Option<seq<byte>> {
    if es == [] then None
    else
      var e := es[|es| - 1];
      if e.Sni? && FirstHost(e.names).Some? then FirstHost(e.names) else LastHost(es[..|es| - 1])
  }

  function AllProtocols(es: seq<Extension>): seq<seq<byte>> {
    if es == [] then []
    else
      var e := es[|es| - 1];
      AllProtocols(es[..|es| - 1]) + if e.Alpn? then e.protocols else []
  }

  /** In wire order: lists repeated by the sender are those of the last
      occurrence, except that ALPN protocols of every occurrence are kept. */
  function Fields(version: u16, ciphers: seq<u16>, es: seq<Extension>): ClientHello {
    ClientHello(
      version,
      ciphers,
      seq(|es|, i requires 0 <= i < |es| => Kind(es[i])),
      Last(es, PickVersions),
      Last(es, PickSigAlgs),
      Last(es, PickGroups),
      AllProtocols(es),
      LastHost(es))
  }

  // -- parsing undoes printing ------------------------------------------------------

  lemma {:induction false} HostNameUndoesPrint(names: seq<(byte, seq<byte>)>, hello: ClientHello)
    requires forall n <- names :: |n.1| < Limit(2)
    ensures HostName(PrintNames(names), hello)
         == Ok(if FirstHost(names).Some? then hello.(serverName := FirstHost(names)) else hello)
  {
    if names != [] {
      var s := PrintNames(names);
      var kind, name, more := names[0].0, names[0].1, PrintNames(names[1..]);
      assert s[..1] == [kind] && s[1..] == Prefixed(2, name) + more;
      BlockUndoesPrefixed(2, name, more);
      assert NameEntry(s) == Ok(Read((kind, name), more));
      HostNameUndoesPrint(names[1..], hello);
    }
  }

  lemma TakingFirst(seen: seq<seq<byte>>, more: seq<seq<byte>>)
    requires more != []
    ensures seen + [more[0]] + more[1..] == seen + more
  {
  }

  lemma ProtocolUndoesPrint(protocols: seq<seq<byte>>, seen: seq<seq<byte>>)
    requires protocols != [] && |protocols[0]| < Limit(1)
    ensures Protocols(PrintProtocols(protocols), seen) == Protocols(PrintProtocols(protocols[1..]), seen + [protocols[0]])
  {
    BlockUndoesPrefixed(1, protocols[0], PrintProtocols(protocols[1..]));
  }

  lemma {:induction false} ProtocolsUndoesPrint(protocols: seq<seq<byte>>, seen: seq<seq<byte>>)
    requires forall p <- protocols :: |p| < Limit(1)
    ensures Protocols(PrintProtocols(protocols), seen) == Ok(seen + protocols)
  {
    if protocols == [] {
      assert seen + protocols == seen;
    } else {
      ProtocolUndoesPrint(protocols, seen);
      ProtocolsUndoesPrint(protocols[1..], seen + [protocols[0]]);
      TakingFirst(seen, protocols);
    }
  }

  lemma BlockUndoesWhole(width: nat, body: seq<byte>)
    requires 1 <= width <= 3 && |body| < Limit(width)
    ensures Block(Prefixed(width, body), width) == Ok(Read(body, []))
  {
    BlockUndoesPrefixed(width, body, []);
    assert Prefixed(width, body) + [] == Prefixed(width, body);
  }

  /** What one more extension does to the fields. */
  function Step(before: ClientHello, e: Extension): ClientHello {
    var hello := before.(extensions := before.extensions + [Kind(e)]);
    match e
    case Sni(names) => if FirstHost(names).Some? then hello.(serverName := FirstHost(names)) else hello
    case SigAlgs(values) => hello.(signatureAlgorithms := values)
    case Groups(values) => hello.(supportedGroups := values)
    case Alpn(protocols) => hello.(alpn := hello.alpn + protocols)
    case Versions(values) => hello.(supportedVersions := values)
    case EmptySni => hello
    case Other(_, _) => hello
  }

  lemma FieldsStep(es: seq<Extension>, e: Extension, version: u16, ciphers: seq<u16>)
    ensures Fields(version, ciphers, es + [e]) == Step(Fields(version, ciphers, es), e)
  {
  }

  ghost predicate Undone(before: ClientHello, e: Extension) {
    Absorb(before.(extensions := before.extensions + [Kind(e)]), Kind(e), Payload(e)) == Ok(Step(before, e))
  }

  lemma NamesUndone(before: ClientHello, e: Extension)
    requires e.Sni? && FitsExtension(e)
    ensures Undone(before, e)
  {
    BlockUndoesWhole(2, PrintNames(e.names));
    HostNameUndoesPrint(e.names, before.(extensions := before.extensions + [SERVER_NAME]));
  }

  lemma ProtocolsUndone(before: ClientHello, e: Extension)
    requires e.Alpn? && FitsExtension(e)
    ensures Undone(before, e)
  {
    BlockUndoesWhole(2, PrintProtocols(e.protocols));
    ProtocolsUndoesPrint(e.protocols, before.alpn);
  }

  /** A list of u16 in a block of its own reads back. */
  lemma ListUndoesPrint(width: nat, values: seq<u16>)
    requires 1 <= width <= 2 && 2 * |values| < Limit(width)
    ensures Block(Prefixed(width, U16s(values)), width) == Ok(Read(U16s(values), []))
    ensures U16List(U16s(values)) == Ok(values)
  {
    BlockUndoesWhole(width, U16s(values));
    U16ListUndoesU16s(values);
  }

  lemma SigAlgsUndone(before: ClientHello, e: Extension)
    requires e.SigAlgs? && FitsExtension(e)
    ensures Undone(before, e)
  {
    ListUndoesPrint(2, e.algorithms);
  }

  lemma GroupsUndone(before: ClientHello, e: Extension)
    requires e.Groups? && FitsExtension(e)
    ensures Undone(before, e)
  {
    ListUndoesPrint(2, e.groups);
  }

  lemma VersionsUndone(before: ClientHello, e: Extension)
    requires e.Versions? && FitsExtension(e)
    ensures Undone(before, e)
  {
    ListUndoesPrint(1, e.versions);
  }

  /** What an extension's payload is absorbed as is what it was printed from. */
  lemma AbsorbUndoesPayload(before: ClientHello, e: Extension)
    requires FitsExtension(e)
    ensures Absorb(before.(extensions := before.extensions + [Kind(e)]), Kind(e), Payload(e)) == Ok(Step(before, e))
  {
    assert Undone(before, e) by {
      match e {
        case Sni(_) => NamesUndone(before, e);
        case SigAlgs(_) => SigAlgsUndone(before, e);
        case Groups(_) => GroupsUndone(before, e);
        case Alpn(_) => ProtocolsUndone(before, e);
        case Versions(_) => VersionsUndone(before, e);
        case EmptySni =>
        case Other(_, _) =>
      }
    }
  }

  lemma ExtensionUndoesPrint(es: seq<Extension>, before: ClientHello)
    requires es != [] && FitsExtension(es[0])
    ensures ParseExtension(PrintExtensions(es), before) == Ok(Read(Step(before, es[0]), PrintExtensions(es[1..])))
  {
    var s, e, more := PrintExtensions(es), es[0], PrintExtensions(es[1..]);
    var framed := Prefixed(2, Payload(e)) + more;
    assert s == Bytes16(Kind(e)) + framed;
    U16UndoesBytes16(Kind(e), framed);
    BlockUndoesPrefixed(2, Payload(e), more);
    AbsorbUndoesPayload(before, e);
  }

  function Steps(before: ClientHello, es: seq<Extension>): ClientHello
    decreases |es|
  {
    if es == [] then before else Steps(Step(before, es[0]), es[1..])
  }

  lemma {:induction false} ExtensionsUndoPrint(es: seq<Extension>, before: ClientHello)
    requires forall e <- es :: FitsExtension(e)
    ensures ParseExtensions(PrintExtensions(es), before) == Ok(Steps(before, es))
  {
    if es != [] {
      ExtensionUndoesPrint(es, before);
      ExtensionsUndoPrint(es[1..], Step(before, es[0]));
    }
  }

  /** The fields of a hello are what its extensions, taken one by one, leave. */
  lemma {:induction false} StepsReachFields(done: seq<Extension>, es: seq<Extension>, version: u16, ciphers: seq<u16>)
    ensures Steps(Fields(version, ciphers, done), es) == Fields(version, ciphers, done + es)
    decreases |es|
  {
    if es == [] {
      assert done + es == done;
    } else {
      FieldsStep(done, es[0], version, ciphers);
      StepsReachFields(done + [es[0]], es[1..], version, ciphers);
      assert done + [es[0]] + es[1..] == done + es;
    }
  }

  lemma StepsFromBare(es: seq<Extension>, version: u16, ciphers: seq<u16>)
    ensures Steps(Bare(version, ciphers), es) == Fields(version, ciphers, es)
  {
    StepsReachFields([], es, version, ciphers);
    assert [] + es == es;
    assert Fields(version, ciphers, []) == Bare(version, ciphers);
  }

  lemma TailUndoesPrint(es: seq<Extension>, version: u16, ciphers: seq<u16>)
    requires es != [] && |PrintExtensions(es)| < Limit(2)
    requires forall e <- es :: FitsExtension(e)
    ensures Block(PrintTail(es), 2) == Ok(Read(PrintExtensions(es), []))
    ensures ParseExtensions(PrintExtensions(es), Bare(version, ciphers)) == Ok(Fields(version, ciphers, es))
  {
    BlockUndoesWhole(2, PrintExtensions(es));
    ExtensionsUndoPrint(es, Bare(version, ciphers));
    assert Steps(Bare(version, ciphers), es) == Fields(version, ciphers, es) by {
      StepsFromBare(es, version, ciphers);
    }
  }

  lemma HeadUndoesPrint(h: Hello)
    requires |h.random| == RANDOM_LEN && |h.sessionId| < Limit(1)
    ensures ParseMessage(PrintMessage(h)) == ParseSuites(PrintSuites(h), h.legacyVersion)
  {
    var s2 := Prefixed(1, h.sessionId) + PrintSuites(h);
    var s1 := h.random + s2;
    U16UndoesBytes16(h.legacyVersion, s1);
    assert s1[..RANDOM_LEN] == h.random && s1[RANDOM_LEN..] == s2;
    BlockUndoesPrefixed(1, h.sessionId, PrintSuites(h));
  }

  lemma SuitesUndoPrint(h: Hello)
    requires Fits(h)
    ensures ParseSuites(PrintSuites(h), h.legacyVersion) == Ok(Fields(h.legacyVersion, h.ciphers, h.extensions))
  {
    var tail := PrintTail(h.extensions);
    BlockUndoesPrefixed(2, U16s(h.ciphers), Prefixed(1, h.compression) + tail);
    U16ListUndoesU16s(h.ciphers);
    BlockUndoesPrefixed(1, h.compression, tail);
    if h.extensions == [] {
      assert Fields(h.legacyVersion, h.ciphers, []) == Bare(h.legacyVersion, h.ciphers);
    } else {
      TailUndoesPrint(h.extensions, h.legacyVersion, h.ciphers);
    }
  }

  /** Parsing a bare handshake undoes printing it, for every hello that fits. */
  lemma ParseUndoesBuildHandshake(h: Hello)
    requires Fits(h)
    ensures Parse(BuildHandshake(h)) == Ok(Fields(h.legacyVersion, h.ciphers, h.extensions))
  {
    var s := BuildHandshake(h);
    assert s[1..] == Prefixed(3, PrintMessage(h));
    BlockUndoesWhole(3, PrintMessage(h));
    HeadUndoesPrint(h);
    SuitesUndoPrint(h);
  }

  /** Wrapping handshake bytes in a record changes nothing, errors included. */
  lemma RecordParsesAsItsHandshake(version: u16, handshake: seq<byte>)
    requires handshake != [] && handshake[0] == HANDSHAKE_TYPE_CLIENT_HELLO && |handshake| < Limit(2)
    ensures Parse(BuildRecord(version, handshake)) == Parse(handshake)
  {
    var s := BuildRecord(version, handshake);
    var framed := Prefixed(2, handshake);
    assert s[1..] == Bytes16(version) + framed;
    U16UndoesBytes16(version, framed);
    BlockUndoesWhole(2, handshake);
  }

  // -- what is not read ----------------------------------------------------------------------------

  lemma NameEntryUndoesPrint(kind: byte, name: seq<byte>, rest: seq<byte>)
    requires |name| < Limit(2)
    ensures NameEntry([kind] + Prefixed(2, name) + rest) == Ok(Read((kind, name), rest))
  {
    var s := [kind] + Prefixed(2, name) + rest;
    assert s[..1] == [kind] && s[1..] == Prefixed(2, name) + rest;
    BlockUndoesPrefixed(2, name, rest);
  }

  /** Behind the first name that is a host, anything may stand. */
  lemma {:induction false} NothingReadAfterHost(names: seq<(byte, seq<byte>)>, more: seq<byte>, hello: ClientHello)
    requires FirstHost(names).Some? && forall n <- names :: |n.1| < Limit(2)
    ensures HostName(PrintNames(names) + more, hello) == Ok(hello.(serverName := FirstHost(names)))
  {
    var kind, name, rest := names[0].0, names[0].1, PrintNames(names[1..]);
    NameEntryUndoesPrint(kind, name, rest + more);
    Associate([kind] + Prefixed(2, name), rest, more);
    if kind != 0 {
      NothingReadAfterHost(names[1..], more, hello);
    }
  }

  /** Behind the list in an extension's payload, anything may stand. */
  lemma NothingReadAfterList(before: ClientHello, e: Extension, more: seq<byte>)
    requires FitsExtension(e) && !e.EmptySni? && !e.Other?
    ensures Absorb(before.(extensions := before.extensions + [Kind(e)]), Kind(e), Payload(e) + more) == Ok(Step(before, e))
  {
    AbsorbUndoesPayload(before, e);
    var width := if e.Versions? then 1 else 2;
    var body := match e
                case Sni(names) => PrintNames(names)
                case SigAlgs(values) => U16s(values)
                case Groups(values) => U16s(values)
                case Alpn(protocols) => PrintProtocols(protocols)
                case Versions(values) => U16s(values)
                case _ => [];
    BlockUndoesPrefixed(width, body, more);
    BlockUndoesWhole(width, body);
  }

  lemma SuitesThenExtensions(ciphers: seq<u16>, compression: seq<byte>, tail: seq<byte>, version: u16)
    requires 2 * |ciphers| < Limit(2) && |compression| < Limit(1) && tail != [] && Block(tail, 2).Ok?
    ensures ParseSuites(Prefixed(2, U16s(ciphers)) + (Prefixed(1, compression) + tail), version)
         == ParseExtensions(Block(tail, 2).value.value, Bare(version, ciphers))
  {
    BlockUndoesPrefixed(2, U16s(ciphers), Prefixed(1, compression) + tail);
    U16ListUndoesU16s(ciphers);
    BlockUndoesPrefixed(1, compression, tail);
  }

  /** Behind the extensions block of a message, anything may stand. */
  lemma NothingReadAfterExtensions(h: Hello, more: seq<byte>)
    requires Fits(h) && h.extensions != []
    ensures ParseSuites(PrintSuites(h) + more, h.legacyVersion) == Ok(Fields(h.legacyVersion, h.ciphers, h.extensions))
  {
    var suites, compression, block := Prefixed(2, U16s(h.ciphers)), Prefixed(1, h.compression), PrintTail(h.extensions);
    Associate(suites, compression + block, more);
    Associate(compression, block, more);
    TailUndoesPrint(h.extensions, h.legacyVersion, h.ciphers);
    BlockUndoesPrefixed(2, PrintExtensions(h.extensions), more);
    SuitesThenExtensions(h.ciphers, h.compression, block + more, h.legacyVersion);
  }
}
