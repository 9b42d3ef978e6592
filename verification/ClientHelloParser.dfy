/** `src/ja4/parse.rs`: the bounds-checked cursor and the `ClientHello` parser,
    imperative as in the source, proved against the functions of `HelloGrammar`. */
module HelloGrammar {
  import opened Wrappers
  import opened Wire

  const CONTENT_TYPE_HANDSHAKE: byte := 0x16
  const HANDSHAKE_TYPE_CLIENT_HELLO: byte := 0x01
  const RANDOM_LEN: nat := 32

  const SERVER_NAME: u16 := 0x0000
  const SUPPORTED_GROUPS: u16 := 0x000a
  const SIGNATURE_ALGORITHMS: u16 := 0x000d
  const ALPN: u16 := 0x0010
  const SUPPORTED_VERSIONS: u16 := 0x002b

  datatype ClientHello = ClientHello(
    legacyVersion: u16,
    cipherSuites: seq<u16>,
    extensions: seq<u16>,
    supportedVersions: seq<u16>,
    signatureAlgorithms: seq<u16>,
    supportedGroups: seq<u16>,
    alpn: seq<seq<byte>>,
    serverName: Option<seq<byte>>)

  function Bare(version: u16, ciphers: seq<u16>): ClientHello {
    ClientHello(version, ciphers, [], [], [], [], [], None)
  }

  function Parse(bytes: seq<byte>): Result<ClientHello, Ja4Error> {
    if bytes == [] then Err(Truncated)
    else if bytes[0] == CONTENT_TYPE_HANDSHAKE then
      var kind :- U8(bytes);
      var version :- U16(kind.rest);
      var record :- Block(version.rest, 2);
      ParseHandshake(record.value)
    else if bytes[0] == HANDSHAKE_TYPE_CLIENT_HELLO then ParseHandshake(bytes)
    else Err(NotClientHello(bytes[0]))
  }

  function ParseHandshake(body: seq<byte>): Result<ClientHello, Ja4Error> {
    var kind :- U8(body);
    if kind.value != HANDSHAKE_TYPE_CLIENT_HELLO then Err(NotClientHello(kind.value))
    else
      var message :- Block(kind.rest, 3);
      ParseMessage(message.value)
  }

  function ParseMessage(message: seq<byte>): Result<ClientHello, Ja4Error> {
    var version :- U16(message);
    var random :- Take(version.rest, RANDOM_LEN);
    var session :- Block(random.rest, 1);
    ParseSuites(session.rest, version.value)
  }

  function ParseSuites(s: seq<byte>, version: u16): Result<ClientHello, Ja4Error> {
    var suites :- Block(s, 2);
    var ciphers :- U16List(suites.value);
    var compression :- Block(suites.rest, 1);
    var hello := Bare(version, ciphers);
    if compression.rest == [] then Ok(hello)
    else
      var block :- Block(compression.rest, 2);
      ParseExtensions(block.value, hello)
  }

  function ParseExtensions(s: seq<byte>, hello: ClientHello): Result<ClientHello, Ja4Error>
    decreases |s|
  {
    if s == [] then Ok(hello)
    else
      var next :- ParseExtension(s, hello);
      ParseExtensions(next.rest, next.value)
  }

  function ParseExtension(s: seq<byte>, hello: ClientHello): (r: Parsed<ClientHello>)
    ensures r.Ok? ==> |r.value.rest| < |s|
  {
    var kind :- U16(s);
    var data :- Block(kind.rest, 2);
    var next :- Absorb(hello.(extensions := hello.extensions + [kind.value]), kind.value, data.value);
    Ok(Read(next, data.rest))
  }

  function Absorb(hello: ClientHello, kind: u16, data: seq<byte>): Result<ClientHello, Ja4Error> {
    if kind == SERVER_NAME then
      if data == [] then Ok(hello)
      else
        var list :- Block(data, 2);
        HostName(list.value, hello)
    else if kind == SIGNATURE_ALGORITHMS then
      var list :- Block(data, 2);
      var values :- U16List(list.value);
      Ok(hello.(signatureAlgorithms := values))
    else if kind == SUPPORTED_GROUPS then
      var list :- Block(data, 2);
      var values :- U16List(list.value);
      Ok(hello.(supportedGroups := values))
    else if kind == ALPN then
      var list :- Block(data, 2);
      var protocols :- Protocols(list.value, hello.alpn);
      Ok(hello.(alpn := protocols))
    else if kind == SUPPORTED_VERSIONS then
      var list :- Block(data, 1);
      var values :- U16List(list.value);
      Ok(hello.(supportedVersions := values))
    else Ok(hello)
  }

  /** The first entry of type `host_name` ends the scan; entries before it are skipped. */
  function HostName(list: seq<byte>, hello: ClientHello): Result<ClientHello, Ja4Error>
    decreases |list|
  {
    if list == [] then Ok(hello)
    else
      var entry :- NameEntry(list);
      if entry.value.0 == 0 then Ok(hello.(serverName := Some(entry.value.1)))
      else HostName(entry.rest, hello)
  }

  function NameEntry(list: seq<byte>): (r: Parsed<(byte, seq<byte>)>)
    ensures r.Ok? ==> |r.value.rest| < |list|
  {
    var kind :- U8(list);
    var name :- Block(kind.rest, 2);
    Ok(Read((kind.value, name.value), name.rest))
  }

  function Protocols(list: seq<byte>, seen: seq<seq<byte>>): Result<seq<seq<byte>>, Ja4Error>
    decreases |list|
  {
    if list == [] then Ok(seen)
    else
      var proto :- Block(list, 1);
      Protocols(proto.rest, seen + [proto.value])
  }
}

module ClientHelloParser {
  import opened Wrappers
  import opened Wire
  import opened HelloGrammar

  /** A non-panicking cursor over a byte slice. */
  class Reader {
    const buf: seq<byte>
    var pos: nat

    ghost predicate Valid()
      reads this
    {
      pos <= |buf|
    }

    ghost function Rest(): seq<byte>
      reads this
      requires Valid()
    {
      buf[pos..]
    }

    /** `r` is what `expected` read, and the cursor stands at the bytes it left. */
    ghost predicate Reads<T>(r: Result<T, Ja4Error>, expected: Parsed<T>)
      reads this
    {
      && Valid()
      && match expected
         case Ok(read) => r == Ok(read.value) && Rest() == read.rest
         case Err(e) => r == Err(e)
    }

    constructor (buf: seq<byte>)
      ensures Valid() && Rest() == this.buf == buf
    {
      this.buf := buf;
      pos := 0;
    }

    predicate IsEmpty()
      reads this
      requires Valid()
      ensures IsEmpty() <==> Rest() == []
    {
      pos >= |buf|
    }

    method Take(n: nat) returns (r: Result<seq<byte>, Ja4Error>)
      requires Valid()
      modifies this
      ensures Reads(r, Wire.Take(old(Rest()), n))
    {
      var end := pos + n;
      if end > |buf| {
        return Err(Truncated);
      }
      assert buf[pos..end] == Rest()[..n] && buf[end..] == Rest()[n..];
      r := Ok(buf[pos..end]);
      pos := end;
    }

    method U8() returns (r: Result<byte, Ja4Error>)
      requires Valid()
      modifies this
      ensures Reads(r, Wire.U8(old(Rest())))
    {
      var b :- Take(1);
      r := Ok(b[0]);
    }

    method U16() returns (r: Result<u16, Ja4Error>)
      requires Valid()
      modifies this
      ensures Reads(r, Wire.U16(old(Rest())))
    {
      var b :- Take(2);
      r := Ok(Be16(b[0], b[1]));
    }

    method U24() returns (r: Result<nat, Ja4Error>)
      requires Valid()
      modifies this
      ensures Reads(r, Wire.U24(old(Rest())))
    {
      var b :- Take(3);
      r := Ok(Be24(b[0], b[1], b[2]));
    }

    method Block(width: nat) returns (r: Result<seq<byte>, Ja4Error>)
      requires Valid()
      modifies this
      ensures Reads(r, Wire.Block(old(Rest()), width))
    {
      var len: nat;
      match width {
        case 1 => len :- U8();
        case 2 => len :- U16();
        case 3 => len :- U24();
        case _ => return Err(Malformed("unsupported length prefix width"));
      }
      r := Take(len);
    }
  }

  /** The whole parser: its result is the grammar's, errors included. */
  method ParseClientHello(bytes: seq<byte>) returns (r: Result<ClientHello, Ja4Error>)
    ensures r == Parse(bytes)
  {
    if bytes == [] {
      return Err(Truncated);
    }
    var body := bytes;
    if bytes[0] == CONTENT_TYPE_HANDSHAKE {
      var record := new Reader(bytes);
      // The content type is there: the source's `?` cannot fire on it.
      var _ := record.U8();
      var _ :- record.U16();
      body :- record.Block(2);
    } else if bytes[0] != HANDSHAKE_TYPE_CLIENT_HELLO {
      return Err(NotClientHello(bytes[0]));
    }

    r := ParseHandshakeMessage(body);
  }

  method ParseHandshakeMessage(body: seq<byte>) returns (r: Result<ClientHello, Ja4Error>)
    ensures r == ParseHandshake(body)
  {
    var reader := new Reader(body);
    var kind :- reader.U8();
    if kind != HANDSHAKE_TYPE_CLIENT_HELLO {
      return Err(NotClientHello(kind));
    }
    var length :- reader.U24();
    var message :- reader.Take(length);
    r := ParseBody(message);
  }

  method ParseBody(message: seq<byte>) returns (r: Result<ClientHello, Ja4Error>)
    ensures r == ParseMessage(message)
  {
    var reader := new Reader(message);
    var legacyVersion :- reader.U16();
    var _ :- reader.Take(RANDOM_LEN);
    var _ :- reader.Block(1);
    r := ParseOffers(reader, legacyVersion);
  }

  method ParseOffers(reader: Reader, legacyVersion: u16) returns (r: Result<ClientHello, Ja4Error>)
    requires reader.Valid()
    modifies reader
    ensures r == ParseSuites(old(reader.Rest()), legacyVersion)
  {
    var suites :- reader.Block(2);
    var cipherSuites :- U16List(suites);
    var _ :- reader.Block(1);
    var hello := Bare(legacyVersion, cipherSuites);
    if reader.IsEmpty() {
      return Ok(hello);
    }
    var block :- reader.Block(2);
    r := ReadExtensions(block, hello);
  }

  method ReadExtensions(block: seq<byte>, start: ClientHello) returns (r: Result<ClientHello, Ja4Error>)
    ensures r == ParseExtensions(block, start)
  {
    var hello := start;
    var extensions := new Reader(block);
    while !extensions.IsEmpty()
      invariant extensions.Valid()
      invariant ParseExtensions(block, start) == ParseExtensions(extensions.Rest(), hello)
      decreases |extensions.buf| - extensions.pos
    {
      hello :- ReadExtension(extensions, hello);
    }
    r := Ok(hello);
  }

  method ReadExtension(reader: Reader, hello: ClientHello) returns (r: Result<ClientHello, Ja4Error>)
    requires reader.Valid()
    modifies reader
    ensures reader.Reads(r, ParseExtension(old(reader.Rest()), hello))
  {
    var kind :- reader.U16();
    var data :- reader.Block(2);
    r := AbsorbExtension(hello.(extensions := hello.extensions + [kind]), kind, data);
  }

  method AbsorbExtension(current: ClientHello, kind: u16, data: seq<byte>)
    returns (r: Result<ClientHello, Ja4Error>)
    ensures r == Absorb(current, kind, data)
  {
    var hello := current;
    var reader := new Reader(data);
    if kind == SERVER_NAME {
      if reader.IsEmpty() {
        return Ok(hello);
      }
      var names :- reader.Block(2);
      hello :- FindHostName(hello, names);
    } else if kind == SIGNATURE_ALGORITHMS {
      var list :- reader.Block(2);
      var values :- U16List(list);
      hello := hello.(signatureAlgorithms := values);
    } else if kind == SUPPORTED_GROUPS {
      var list :- reader.Block(2);
      var values :- U16List(list);
      hello := hello.(supportedGroups := values);
    } else if kind == ALPN {
      var protocols :- reader.Block(2);
      var alpn :- PushProtocols(hello.alpn, protocols);
      hello := hello.(alpn := alpn);
    } else if kind == SUPPORTED_VERSIONS {
      var list :- reader.Block(1);
      var values :- U16List(list);
      hello := hello.(supportedVersions := values);
    }
    r := Ok(hello);
  }

  method FindHostName(hello: ClientHello, names: seq<byte>) returns (r: Result<ClientHello, Ja4Error>)
    ensures r == HostName(names, hello)
  {
    var list := new Reader(names);
    ghost var expected := HostName(names, hello);
    while !list.IsEmpty()
      invariant list.Valid()
      invariant expected == HostName(list.Rest(), hello)
      decreases |list.buf| - list.pos
    {
      var entry :- ReadNameEntry(list);
      if entry.0 == 0 {
        return Ok(hello.(serverName := Some(entry.1)));
      }
    }
    r := Ok(hello);
  }

  method ReadNameEntry(list: Reader) returns (r: Result<(byte, seq<byte>), Ja4Error>)
    requires list.Valid()
    modifies list
    ensures list.Reads(r, NameEntry(old(list.Rest())))
  {
    var nameType :- list.U8();
    var name :- list.Block(2);
    r := Ok((nameType, name));
  }

  method PushProtocols(seen: seq<seq<byte>>, protocols: seq<byte>) returns (r: Result<seq<seq<byte>>, Ja4Error>)
    ensures r == Protocols(protocols, seen)
  {
    var alpn := seen;
    var list := new Reader(protocols);
    while !list.IsEmpty()
      invariant list.Valid()
      invariant Protocols(protocols, seen) == Protocols(list.Rest(), alpn)
      decreases |list.buf| - list.pos
    {
      ghost var before := list.Rest();
      var proto :- list.Block(1);
      assert Protocols(before, alpn) == Protocols(list.Rest(), alpn + [proto]);
      alpn := alpn + [proto];
    }
    r := Ok(alpn);
  }
}
