/** Bytes, big-endian integers and length-prefixed blocks, as values: the cursor
    of `src/ja4/parse.rs` is specified against these functions, and the printer
    of `src/ja4/tests.rs` is built from them. */
module Wire {
  import opened Wrappers

  type byte = x: int | 0 <= x < 0x100
  type u16 = x: int | 0 <= x < 0x1_0000

  datatype Ja4Error = Truncated | NotClientHello(kind: byte) | Malformed(reason: string)

  /** What a read yields: the value, and the bytes it left unread. */
  datatype Read<+T> = Read(value: T, rest: seq<byte>)

  type Parsed<+T> = Result<Read<T>, Ja4Error>

  // -- reading ---------------------------------------------------------------

  function Take(s: seq<byte>, n: nat): Parsed<seq<byte>> {
    if n <= |s| then Ok(Read(s[..n], s[n..])) else Err(Truncated)
  }

  function U8(s: seq<byte>): Parsed<byte> {
    var t :- Take(s, 1);
    Ok(Read(t.value[0], t.rest))
  }

  function U16(s: seq<byte>): Parsed<u16> {
    var t :- Take(s, 2);
    Ok(Read(Be16(t.value[0], t.value[1]), t.rest))
  }

  function U24(s: seq<byte>): Parsed<nat> {
    var t :- Take(s, 3);
    Ok(Read(Be24(t.value[0], t.value[1], t.value[2]), t.rest))
  }

  function Length(s: seq<byte>, width: nat): Parsed<nat> {
    match width
    case 1 => var t :- U8(s); Ok(Read(t.value, t.rest))
    case 2 => var t :- U16(s); Ok(Read(t.value, t.rest))
    case 3 => U24(s)
    case _ => Err(Malformed("unsupported length prefix width"))
  }

  function Block(s: seq<byte>, width: nat): Parsed<seq<byte>> {
    var len :- Length(s, width);
    Take(len.rest, len.value)
  }

  function U16List(s: seq<byte>): Result<seq<u16>, Ja4Error> {
    if |s| % 2 != 0 then Err(Malformed("odd-length u16 list")) else Ok(Pairs(s))
  }

  function Pairs(s: seq<byte>): seq<u16>
    requires |s| % 2 == 0
  {
    if s == [] then [] else [Be16(s[0], s[1])] + Pairs(s[2..])
  }

  function Be16(hi: byte, lo: byte): u16 {
    hi * 0x100 + lo
  }

  function Be24(hi: byte, mid: byte, lo: byte): nat {
    hi * 0x1_0000 + mid * 0x100 + lo
  }

  // -- printing --------------------------------------------------------------

  function Bytes16(v: u16): seq<byte> {
    [v / 0x100, v % 0x100]
  }

  function Limit(width: nat): nat {
    match width
    case 1 => 0x100
    case 2 => 0x1_0000
    case 3 => 0x100_0000
    case _ => 0
  }

  /** The length is cut to the prefix's width, as the builder's casts cut it. */
  function LengthBytes(width: nat, n: nat): (s: seq<byte>)
    requires 1 <= width <= 3
    ensures |s| == width
  {
    match width
    case 1 => [n % 0x100]
    case 2 => [n / 0x100 % 0x100, n % 0x100]
    case 3 => [n / 0x1_0000 % 0x100, n / 0x100 % 0x100, n % 0x100]
  }

  function Prefixed(width: nat, body: seq<byte>): seq<byte>
    requires 1 <= width <= 3
  {
    LengthBytes(width, |body|) + body
  }

  function U16s(values: seq<u16>): (s: seq<byte>)
    ensures |s| == 2 * |values|
  {
    if values == [] then [] else Bytes16(values[0]) + U16s(values[1..])
  }

  // -- each read undoes its print ---------------------------------------------

  lemma U16UndoesBytes16(v: u16, rest: seq<byte>)
    ensures U16(Bytes16(v) + rest) == Ok(Read(v, rest))
  {
  }

  lemma LengthUndoesLengthBytes(width: nat, n: nat, rest: seq<byte>)
    requires 1 <= width <= 3 && n < Limit(width)
    ensures Length(LengthBytes(width, n) + rest, width) == Ok(Read(n, rest))
  {
  }

  lemma BlockUndoesPrefixed(width: nat, body: seq<byte>, rest: seq<byte>)
    requires 1 <= width <= 3 && |body| < Limit(width)
    ensures Block(Prefixed(width, body) + rest, width) == Ok(Read(body, rest))
  {
    LengthUndoesLengthBytes(width, |body|, body + rest);
    assert Prefixed(width, body) + rest == LengthBytes(width, |body|) + (body + rest);
    assert (body + rest)[..|body|] == body && (body + rest)[|body|..] == rest;
  }

  lemma {:induction false} U16ListUndoesU16s(values: seq<u16>)
    ensures U16List(U16s(values)) == Ok(values)
  {
    if values != [] {
      var s := U16s(values);
      U16ListUndoesU16s(values[1..]);
      assert s[2..] == U16s(values[1..]);
      assert values == [values[0]] + values[1..];
    }
  }

  // -- a read looks at no byte beyond what it consumes -------------------------

  lemma TakeExtends(s: seq<byte>, n: nat, more: seq<byte>)
    requires n <= |s|
    ensures Take(s + more, n) == Ok(Read(s[..n], s[n..] + more))
  {
    assert (s + more)[..n] == s[..n];
    assert (s + more)[n..] == s[n..] + more;
  }

  lemma BlockExtends(s: seq<byte>, width: nat, more: seq<byte>)
    requires 1 <= width <= 3 && Block(s, width).Ok?
    ensures var b := Block(s, width).value;
            Block(s + more, width) == Ok(Read(b.value, b.rest + more))
  {
    TakeExtends(s, width, more);
    var len := Length(s, width).value;
    TakeExtends(len.rest, len.value, more);
  }

  /** A block is cut from the front: prefix, contents and rest account for the input. */
  lemma BlockSize(s: seq<byte>, width: nat)
    requires Block(s, width).Ok?
    ensures var b := Block(s, width).value;
            width + |b.value| + |b.rest| == |s| && 1 <= width <= 3 && b.rest == s[|s| - |b.rest|..]
  {
  }
}
