/** The HPACK reading in `examples/capture_h2.rs`: integers (section 5.1 of
    RFC 7541) and field names (section 6 of RFC 7541), against an encoder. */
module Hpack {
  import opened Wrappers
  import opened Wire
  import opened Powers
  import Text

  lemma Pow2Plus7(n: nat)
    ensures Pow2(n + 7) == 0x80 * Pow2(n)
  {
    assert Pow2(n + 2) == 4 * Pow2(n);
    assert Pow2(n + 4) == 4 * Pow2(n + 2);
    assert Pow2(n + 6) == 4 * Pow2(n + 4);
  }

  /** 2^35: a value this far above its mask still fits five continuation groups. */
  const RANGE: nat := 0x8_0000_0000

  lemma Pow2Of35()
    ensures Pow2(35) == RANGE
  {
    Pow2Plus7(0);
    Pow2Plus7(7);
    Pow2Plus7(14);
    Pow2Plus7(21);
    Pow2Plus7(28);
  }

  predicate UsedPrefix(bits: nat) {
    4 <= bits <= 7
  }

  /** `(1 << bits) - 1`, for the prefix widths in use. */
  function Mask(bits: nat): nat
    requires UsedPrefix(bits)
  {
    match bits case 4 => 0xf case 5 => 0x1f case 6 => 0x3f case _ => 0x7f
  }

  lemma MaskExactly(bits: nat)
    requires UsedPrefix(bits)
    ensures Mask(bits) == Pow2(bits) - 1
  {
    assert Pow2(4) == 4 * Pow2(2) && Pow2(6) == 4 * Pow2(4);
  }

  /** A decoded quantity and the bytes it took. */
  datatype Decoded<+T> = Decoded(value: T, used: nat)

  // -- integers ---------------------------------------------------------------------------

  /** The continuation groups from byte `i` on. */
  function Groups(bytes: seq<byte>, i: nat, shift: nat, value: nat): Option<Decoded<nat>>
    requires i <= |bytes|
    decreases |bytes| - i
  {
    if i == |bytes| then None
    else
      var sum := value + Shl(bytes[i] % 0x80, shift);
      if bytes[i] < 0x80 then Some(Decoded(sum, i + 1))
      else if shift + 7 > 28 then None
      else Groups(bytes, i + 1, shift + 7, sum)
  }

  function Int(bytes: seq<byte>, bits: nat): Option<Decoded<nat>>
    requires UsedPrefix(bits)
  {
    if bytes == [] then None
    else
      var first := bytes[0] % (Mask(bits) + 1);
      if first < Mask(bits) then Some(Decoded(first, 1)) else Groups(bytes, 1, 0, Mask(bits))
  }

  method HpackInt(bytes: seq<byte>, bits: nat) returns (r: Option<Decoded<nat>>)
    requires UsedPrefix(bits)
    ensures r == Int(bytes, bits)
  {
    if bytes == [] {
      return None;
    }
    var first := bytes[0] % (Mask(bits) + 1);
    if first < Mask(bits) {
      return Some(Decoded(first, 1));
    }
    var value: nat, shift: nat, i := Mask(bits), 0, 1;
    while i < |bytes|
      invariant 1 <= i <= |bytes|
      invariant Int(bytes, bits) == Groups(bytes, i, shift, value)
    {
      value := value + Shl(bytes[i] % 0x80, shift);
      if bytes[i] < 0x80 {
        return Some(Decoded(value, i + 1));
      }
      shift := shift + 7;
      if shift > 28 {
        return None;
      }
      i := i + 1;
    }
    r := None;
  }

  /** The encoder of section 5.1: `high` carries the representation's pattern bits. */
  function EncodeGroups(n: nat): (s: seq<byte>)
    ensures s != []
  {
    if n < 0x80 then [n] else [0x80 + n % 0x80] + EncodeGroups(n / 0x80)
  }

  predicate Pattern(high: nat, bits: nat) {
    UsedPrefix(bits) && high % (Mask(bits) + 1) == 0 && high + Mask(bits) < 0x100
  }

  function EncodeInt(v: nat, bits: nat, high: nat): (s: seq<byte>)
    requires Pattern(high, bits)
    ensures s != []
  {
    if v < Mask(bits) then [high + v] else [high + Mask(bits)] + EncodeGroups(v - Mask(bits))
  }

  /** From byte `i` on, `bytes` begins with the groups of `n`. */
  predicate GroupsAt(bytes: seq<byte>, i: nat, n: nat) {
    i <= |bytes| && EncodeGroups(n) <= bytes[i..]
  }

  lemma GroupsAtNext(bytes: seq<byte>, i: nat, n: nat)
    requires GroupsAt(bytes, i, n)
    ensures i < |bytes| && bytes[i] % 0x80 == n % 0x80 && (bytes[i] < 0x80 <==> n < 0x80)
    ensures n >= 0x80 ==> GroupsAt(bytes, i + 1, n / 0x80) && |EncodeGroups(n)| == 1 + |EncodeGroups(n / 0x80)|
    ensures n < 0x80 ==> n % 0x80 == n && |EncodeGroups(n)| == 1
  {
  }

  /** What `Groups` should make of the groups of `n` at byte `i`. */
  function Sum(i: nat, n: nat, shift: nat, value: nat): Option<Decoded<nat>> {
    Some(Decoded(value + Shl(n, shift), i + |EncodeGroups(n)|))
  }

  lemma SumRegroups(i: nat, n: nat, shift: nat, value: nat)
    requires n >= 0x80 && |EncodeGroups(n)| == 1 + |EncodeGroups(n / 0x80)|
    ensures Sum(i + 1, n / 0x80, shift + 7, value + Shl(n % 0x80, shift)) == Sum(i, n, shift, value)
  {
    assert n == n % 0x80 + 0x80 * (n / 0x80);
    ShlAdds(n % 0x80, 0x80 * (n / 0x80), shift);
    ShlBy7(n / 0x80, shift);
  }

  /** `left` more groups may follow the one at `i`. */
  lemma {:induction false} GroupsUndoEncode(bytes: seq<byte>, i: nat, n: nat, shift: nat, left: nat, value: nat)
    requires GroupsAt(bytes, i, n)
    requires shift + 7 * left == 28 && n < Pow2(7 * left + 7)
    ensures Groups(bytes, i, shift, value) == Sum(i, n, shift, value)
    decreases left
  {
    GroupsAtNext(bytes, i, n);
    if n >= 0x80 {
      LeftOver(n, left);
      GroupsUndoEncode(bytes, i + 1, n / 0x80, shift + 7, left - 1, value + Shl(n % 0x80, shift));
      SumRegroups(i, n, shift, value);
    }
  }

  lemma LeftOver(n: nat, left: nat)
    requires 0x80 <= n < Pow2(7 * left + 7)
    ensures left > 0 && n / 0x80 < Pow2(7 * (left - 1) + 7)
  {
    Pow2Plus7(7 * left);
  }

  lemma AllGroupsUndoEncode(bytes: seq<byte>, n: nat, value: nat)
    requires GroupsAt(bytes, 1, n) && n < RANGE
    ensures Groups(bytes, 1, 0, value) == Some(Decoded(value + n, 1 + |EncodeGroups(n)|))
  {
    Pow2Of35();
    GroupsUndoEncode(bytes, 1, n, 0, 4, value);
  }

  lemma LongIntUndoesEncode(n: nat, bits: nat, high: nat, rest: seq<byte>)
    requires Pattern(high, bits) && n < RANGE
    ensures Int([high + Mask(bits)] + EncodeGroups(n) + rest, bits) == Some(Decoded(Mask(bits) + n, 1 + |EncodeGroups(n)|))
  {
    var bytes := [high + Mask(bits)] + EncodeGroups(n) + rest;
    PatternBits(high, bits, Mask(bits));
    assert bytes[1..] == EncodeGroups(n) + rest;
    AllGroupsUndoEncode(bytes, n, Mask(bits));
  }

  /** Decoding undoes encoding, for every prefix width in use and every value
      within five continuation groups. */
  lemma IntUndoesEncode(v: nat, bits: nat, high: nat, rest: seq<byte>)
    requires Pattern(high, bits) && v < Mask(bits) + RANGE
    ensures Int(EncodeInt(v, bits, high) + rest, bits) == Some(Decoded(v, |EncodeInt(v, bits, high)|))
  {
    if v < Mask(bits) {
      PatternBits(high, bits, v);
    } else {
      LongIntUndoesEncode(v - Mask(bits), bits, high, rest);
    }
  }

  lemma PatternBits(high: nat, bits: nat, low: nat)
    requires Pattern(high, bits) && low <= Mask(bits)
    ensures (high + low) % (Mask(bits) + 1) == low
  {
  }

  lemma {:induction false} TooManyGroups(bytes: seq<byte>, i: nat, shift: nat, left: nat, value: nat)
    requires shift + 7 * left == 28 && i + left < |bytes|
    requires forall j :: i <= j <= i + left ==> bytes[j] >= 0x80
    ensures Groups(bytes, i, shift, value) == None
    decreases left
  {
    if left > 0 {
      TooManyGroups(bytes, i + 1, shift + 7, left - 1, value + Shl(bytes[i] % 0x80, shift));
    }
  }

  /** A fifth continuation group that asks for a sixth is refused, whatever follows. */
  lemma SixthGroupRefused(bytes: seq<byte>, bits: nat)
    requires UsedPrefix(bits) && |bytes| >= 6
    requires bytes[0] % (Mask(bits) + 1) == Mask(bits)
    requires forall i :: 1 <= i <= 5 ==> bytes[i] >= 0x80
    ensures Int(bytes, bits) == None
  {
    TooManyGroups(bytes, 1, 0, 4, Mask(bits));
  }

  lemma {:induction false} GroupsBound(bytes: seq<byte>, i: nat, shift: nat, value: nat)
    requires i <= |bytes| && Groups(bytes, i, shift, value).Some?
    ensures i < Groups(bytes, i, shift, value).value.used <= |bytes|
    decreases |bytes| - i
  {
    if bytes[i] >= 0x80 {
      GroupsBound(bytes, i + 1, shift + 7, value + Shl(bytes[i] % 0x80, shift));
    }
  }

  /** A decoded integer consumed something, and nothing beyond the input. */
  lemma IntBound(bytes: seq<byte>, bits: nat)
    requires UsedPrefix(bits) && Int(bytes, bits).Some?
    ensures 1 <= Int(bytes, bits).value.used <= |bytes|
  {
    if bytes[0] % (Mask(bits) + 1) >= Mask(bits) {
      GroupsBound(bytes, 1, 0, Mask(bits));
    }
  }

  // -- field names ---------------------------------------------------------------------------

  /** Index 0 wraps below the table in the source and so misses it. */
  function StaticName(table: seq<string>, index: nat): string {
    if 1 <= index <= |table| then table[index - 1] else "<static " + Text.Decimal(index) + ">"
  }

  /** The length of a string literal, which may run past the input. */
  function SkipString(bytes: seq<byte>): Option<nat> {
    match Int(bytes, 7)
    case None => None
    case Some(len) => Some(len.used + len.value)
  }

  function From(bytes: seq<byte>, n: nat): Option<seq<byte>> {
    if n <= |bytes| then Some(bytes[n..]) else None
  }

  function SkipStringAt(bytes: seq<byte>, n: nat): Option<nat> {
    match From(bytes, n)
    case None => None
    case Some(tail) => SkipString(tail)
  }

  function LiteralName(table: seq<string>, block: seq<byte>, bits: nat): Option<Decoded<string>>
    requires UsedPrefix(bits)
  {
    match Int(block, bits)
    case None => None
    case Some(index) =>
      if index.value != 0 then Some(Decoded(StaticName(table, index.value), index.used))
      else match SkipStringAt(block, index.used)
           case None => None
           case Some(len) => Some(Decoded("<literal>", index.used + len))
  }

  function LiteralField(table: seq<string>, block: seq<byte>, bits: nat): Option<Decoded<string>>
    requires UsedPrefix(bits)
  {
    match LiteralName(table, block, bits)
    case None => None
    case Some(name) =>
      match SkipStringAt(block, name.used)
      case None => None
      case Some(len) => Some(Decoded(name.value, name.used + len))
  }

  datatype Kind = IndexedField | LiteralOf(bits: nat) | TableSize

  /** The leading bits of a representation, tested in the source's order. */
  function KindOf(b: byte): (k: Kind)
    ensures k.LiteralOf? ==> UsedPrefix(k.bits)
  {
    if b >= 0x80 then IndexedField
    else if b % 0x80 >= 0x40 then LiteralOf(6)
    else if b % 0x40 >= 0x20 then TableSize
    else LiteralOf(4)
  }

  /** One representation: the name it contributes, if any. */
  function Field(table: seq<string>, block: seq<byte>): Option<Decoded<seq<string>>>
    requires block != []
  {
    match KindOf(block[0])
    case IndexedField =>
      (match Int(block, 7)
       case None => None
       case Some(index) => Some(Decoded([StaticName(table, index.value)], index.used)))
    case LiteralOf(bits) => Named(LiteralField(table, block, bits))
    case TableSize =>
      match Int(block, 5)
      case None => None
      case Some(size) => Some(Decoded([], size.used))
  }

  function Named(field: Option<Decoded<string>>): Option<Decoded<seq<string>>> {
    match field
    case None => None
    case Some(f) => Some(Decoded([f.value], f.used))
  }

  /** The names read from `block`, after those `seen`; one counts even when its
      value runs past the end of the block. */
  function NamesAfter(table: seq<string>, block: seq<byte>, seen: seq<string>): seq<string>
    decreases |block|
  {
    if block == [] then seen
    else match Field(table, block)
         case None => seen
         case Some(f) =>
           if f.used == 0 || f.used > |block| then seen + f.value
           else NamesAfter(table, block[f.used..], seen + f.value)
  }

  function Names(table: seq<string>, block: seq<byte>): seq<string> {
    NamesAfter(table, block, [])
  }

  method Literal(table: seq<string>, block: seq<byte>, bits: nat) returns (r: Option<Decoded<string>>)
    requires UsedPrefix(bits)
    ensures r == LiteralField(table, block, bits)
  {
    var index := HpackInt(block, bits);
    if index.None? {
      return None;
    }
    var name, afterName := "<literal>", index.value.used;
    if index.value.value == 0 {
      var length := SkipStringAt(block, afterName);
      if length.None? {
        return None;
      }
      afterName := afterName + length.value;
    } else {
      name := StaticName(table, index.value.value);
    }
    var value := SkipStringAt(block, afterName);
    if value.None? {
      return None;
    }
    r := Some(Decoded(name, afterName + value.value));
  }

  method ReadField(table: seq<string>, block: seq<byte>) returns (r: Option<Decoded<seq<string>>>)
    requires block != []
    ensures r == Field(table, block)
  {
    match KindOf(block[0]) {
      case IndexedField =>
        var index := HpackInt(block, 7);
        if index.None? {
          return None;
        }
        r := Some(Decoded([StaticName(table, index.value.value)], index.value.used));
      case LiteralOf(bits) =>
        var field := Literal(table, block, bits);
        if field.None? {
          return None;
        }
        r := Some(Decoded([field.value.value], field.value.used));
      case TableSize =>
        var size := HpackInt(block, 5);
        if size.None? {
          return None;
        }
        r := Some(Decoded([], size.value.used));
    }
  }

  method HeaderNames(table: seq<string>, input: seq<byte>) returns (names: seq<string>)
    ensures names == Names(table, input)
  {
    names := [];
    var block := input;
    while block != []
      invariant Names(table, input) == NamesAfter(table, block, names)
      decreases |block|
    {
      var field := ReadField(table, block);
      if field.None? {
        return;
      }
      names := names + field.value.value;
      var consumed := field.value.used;
      if consumed == 0 || consumed > |block| {
        return;
      }
      block := block[consumed..];
    }
  }

  // -- an encoder of field representations --------------------------------------------------

  datatype StringLiteral = Str(huffman: bool, bytes: seq<byte>)

  datatype NameRef = Index(index: nat) | Spelled(name: StringLiteral)

  datatype Indexing = Incremental | Without | Never

  datatype Representation =
    | Indexed(index: nat)
    | LiteralRep(indexing: Indexing, name: NameRef, value: StringLiteral)
    | SizeUpdate(size: nat)

  predicate FitsRepresentation(r: Representation) {
    match r
    case Indexed(index) => index < RANGE
    case SizeUpdate(size) => size < RANGE
    case LiteralRep(_, name, value) =>
      && |value.bytes| < RANGE
      && (name.Index? ==> 1 <= name.index < RANGE)
      && (name.Spelled? ==> |name.name.bytes| < RANGE)
  }

  lemma Patterns()
    ensures Pattern(0x80, 7) && Pattern(0, 7) && Pattern(0x40, 6) && Pattern(0x20, 5) && Pattern(0, 4) && Pattern(0x10, 4)
  {
  }

  function EncodeString(s: StringLiteral): seq<byte> {
    Patterns();
    EncodeInt(|s.bytes|, 7, if s.huffman then 0x80 else 0) + s.bytes
  }

  function Bits(indexing: Indexing): nat {
    if indexing == Incremental then 6 else 4
  }

  function High(indexing: Indexing): (h: nat)
    ensures Pattern(h, Bits(indexing))
  {
    Patterns();
    match indexing case Incremental => 0x40 case Without => 0 case Never => 0x10
  }

  function EncodeName(indexing: Indexing, name: NameRef): seq<byte> {
    match name
    case Index(index) => EncodeInt(index, Bits(indexing), High(indexing))
    case Spelled(s) => EncodeInt(0, Bits(indexing), High(indexing)) + EncodeString(s)
  }

  function Encode(r: Representation): seq<byte> {
    Patterns();
    match r
    case Indexed(index) => EncodeInt(index, 7, 0x80)
    case SizeUpdate(size) => EncodeInt(size, 5, 0x20)
    case LiteralRep(indexing, name, value) => EncodeName(indexing, name) + EncodeString(value)
  }

  function EncodeAll(rs: seq<Representation>): seq<byte> {
    if rs == [] then [] else Encode(rs[0]) + EncodeAll(rs[1..])
  }

  function NameOf(table: seq<string>, name: NameRef): string {
    match name case Index(index) => StaticName(table, index) case Spelled(_) => "<literal>"
  }

  function OwnName(table: seq<string>, r: Representation): seq<string> {
    match r
    case Indexed(index) => [StaticName(table, index)]
    case SizeUpdate(_) => []
    case LiteralRep(_, name, _) => [NameOf(table, name)]
  }

  function NamesOf(table: seq<string>, rs: seq<Representation>): seq<string> {
    if rs == [] then [] else OwnName(table, rs[0]) + NamesOf(table, rs[1..])
  }

  /** The name an index stands for: the table's, counting from 1; for any other index, zero
      included, a text that says which. */
  lemma StaticNameSays(table: seq<string>, index: nat)
    ensures index > 0 && index - 1 < |table| ==> StaticName(table, index) == table[index - 1]
    ensures index == 0 || index > |table| ==>
              exists digits :: && StaticName(table, index) == "<static " + digits + ">"
                               && (forall c <- digits :: Text.IsDigit(c)) && Text.DecimalValue(digits) == index
  {
    Text.DecimalReadsBack(index);
  }

  // -- decoding names undoes encoding them -----------------------------------------------------

  lemma SkipUndoesEncodeString(front: seq<byte>, s: StringLiteral, rest: seq<byte>)
    requires |s.bytes| < RANGE
    ensures SkipStringAt(front + EncodeString(s) + rest, |front|) == Some(|EncodeString(s)|)
  {
    Patterns();
    var high := if s.huffman then 0x80 else 0;
    var tail := EncodeInt(|s.bytes|, 7, high) + (s.bytes + rest);
    assert (front + EncodeString(s) + rest)[|front|..] == tail;
    IntUndoesEncode(|s.bytes|, 7, high, s.bytes + rest);
  }

  lemma IndexUndoesEncode(table: seq<string>, indexing: Indexing, index: nat, rest: seq<byte>)
    requires 1 <= index < RANGE
    ensures var front := EncodeName(indexing, Index(index));
            LiteralName(table, front + rest, Bits(indexing)) == Some(Decoded(StaticName(table, index), |front|))
  {
    IntUndoesEncode(index, Bits(indexing), High(indexing), rest);
  }

  lemma SpelledParts(table: seq<string>, zero: seq<byte>, tail: seq<byte>, rest: seq<byte>, bits: nat)
    requires UsedPrefix(bits) && Int(zero + (tail + rest), bits) == Some(Decoded(0, |zero|))
    requires SkipStringAt(zero + tail + rest, |zero|) == Some(|tail|)
    ensures LiteralName(table, zero + tail + rest, bits) == Some(Decoded("<literal>", |zero + tail|))
  {
    Associate(zero, tail, rest);
  }

  lemma SpelledUndoesEncode(table: seq<string>, indexing: Indexing, s: StringLiteral, rest: seq<byte>)
    requires |s.bytes| < RANGE
    ensures var front := EncodeName(indexing, Spelled(s));
            LiteralName(table, front + rest, Bits(indexing)) == Some(Decoded("<literal>", |front|))
  {
    var zero, tail := EncodeInt(0, Bits(indexing), High(indexing)), EncodeString(s);
    assert Int(zero + (tail + rest), Bits(indexing)) == Some(Decoded(0, |zero|)) by {
      IntUndoesEncode(0, Bits(indexing), High(indexing), tail + rest);
    }
    assert SkipStringAt(zero + tail + rest, |zero|) == Some(|tail|) by {
      SkipUndoesEncodeString(zero, s, rest);
    }
    SpelledParts(table, zero, tail, rest, Bits(indexing));
  }

  lemma NameUndoesEncode(table: seq<string>, indexing: Indexing, name: NameRef, rest: seq<byte>)
    requires name.Index? ==> 1 <= name.index < RANGE
    requires name.Spelled? ==> |name.name.bytes| < RANGE
    ensures LiteralName(table, EncodeName(indexing, name) + rest, Bits(indexing))
         == Some(Decoded(NameOf(table, name), |EncodeName(indexing, name)|))
  {
    match name {
      case Index(index) => IndexUndoesEncode(table, indexing, index, rest);
      case Spelled(s) => SpelledUndoesEncode(table, indexing, s, rest);
    }
  }

  lemma FieldOfParts(table: seq<string>, front: seq<byte>, tail: seq<byte>, rest: seq<byte>, bits: nat, name: string)
    requires UsedPrefix(bits)
    requires LiteralName(table, front + (tail + rest), bits) == Some(Decoded(name, |front|))
    requires SkipStringAt(front + tail + rest, |front|) == Some(|tail|)
    ensures LiteralField(table, front + tail + rest, bits) == Some(Decoded(name, |front + tail|))
  {
    Associate(front, tail, rest);
  }

  lemma PartsUndoEncode(table: seq<string>, indexing: Indexing, name: NameRef, value: StringLiteral, rest: seq<byte>)
    requires FitsRepresentation(LiteralRep(indexing, name, value))
    ensures var front, tail := EncodeName(indexing, name), EncodeString(value);
            && LiteralName(table, front + (tail + rest), Bits(indexing)) == Some(Decoded(NameOf(table, name), |front|))
            && SkipStringAt(front + tail + rest, |front|) == Some(|tail|)
  {
    NameUndoesEncode(table, indexing, name, EncodeString(value) + rest);
    SkipUndoesEncodeString(EncodeName(indexing, name), value, rest);
  }

  lemma LiteralUndoesEncode(table: seq<string>, indexing: Indexing, name: NameRef, value: StringLiteral, rest: seq<byte>)
    requires FitsRepresentation(LiteralRep(indexing, name, value))
    ensures var encoded := Encode(LiteralRep(indexing, name, value));
            LiteralField(table, encoded + rest, Bits(indexing)) == Some(Decoded(NameOf(table, name), |encoded|))
  {
    PartsUndoEncode(table, indexing, name, value, rest);
    FieldOfParts(table, EncodeName(indexing, name), EncodeString(value), rest, Bits(indexing), NameOf(table, name));
  }

  /** The first byte alone tells the representations apart. */
  lemma FirstByte(v: nat, bits: nat, high: nat)
    requires Pattern(high, bits)
    ensures high <= EncodeInt(v, bits, high)[0] <= high + Mask(bits)
  {
  }

  lemma LiteralFirstByte(indexing: Indexing, name: NameRef, value: StringLiteral)
    ensures var encoded := Encode(LiteralRep(indexing, name, value));
            encoded != [] && High(indexing) <= encoded[0] <= High(indexing) + Mask(Bits(indexing))
  {
  }

  lemma LiteralDispatch(table: seq<string>, block: seq<byte>, indexing: Indexing)
    requires block != [] && High(indexing) <= block[0] <= High(indexing) + Mask(Bits(indexing))
    ensures Field(table, block) == Named(LiteralField(table, block, Bits(indexing)))
  {
    assert KindOf(block[0]) == LiteralOf(Bits(indexing));
  }

  lemma LiteralFieldUndoesEncode(table: seq<string>, indexing: Indexing, name: NameRef, value: StringLiteral, rest: seq<byte>)
    requires FitsRepresentation(LiteralRep(indexing, name, value))
    ensures var encoded := Encode(LiteralRep(indexing, name, value));
            encoded != [] && Field(table, encoded + rest) == Some(Decoded([NameOf(table, name)], |encoded|))
  {
    LiteralFirstByte(indexing, name, value);
    LiteralDispatch(table, Encode(LiteralRep(indexing, name, value)) + rest, indexing);
    LiteralUndoesEncode(table, indexing, name, value, rest);
  }

  lemma FirstByteTells(b: byte)
    ensures b >= 0x80 ==> KindOf(b) == IndexedField
    ensures 0x20 <= b <= 0x3f ==> KindOf(b) == TableSize
  {
  }

  lemma IndexedUndoesEncode(table: seq<string>, index: nat, rest: seq<byte>)
    requires FitsRepresentation(Indexed(index))
    ensures var encoded := EncodeInt(index, 7, 0x80);
            Field(table, encoded + rest) == Some(Decoded([StaticName(table, index)], |encoded|))
  {
    FirstByte(index, 7, 0x80);
    FirstByteTells(EncodeInt(index, 7, 0x80)[0]);
    assert Int(EncodeInt(index, 7, 0x80) + rest, 7) == Some(Decoded(index, |EncodeInt(index, 7, 0x80)|)) by {
      IntUndoesEncode(index, 7, 0x80, rest);
    }
  }

  lemma SizeUndoesEncode(table: seq<string>, size: nat, rest: seq<byte>)
    requires FitsRepresentation(SizeUpdate(size))
    ensures var encoded := EncodeInt(size, 5, 0x20);
            Field(table, encoded + rest) == Some(Decoded([], |encoded|))
  {
    FirstByte(size, 5, 0x20);
    FirstByteTells(EncodeInt(size, 5, 0x20)[0]);
    assert Int(EncodeInt(size, 5, 0x20) + rest, 5) == Some(Decoded(size, |EncodeInt(size, 5, 0x20)|)) by {
      IntUndoesEncode(size, 5, 0x20, rest);
    }
  }

  lemma FieldUndoesEncode(table: seq<string>, r: Representation, rest: seq<byte>)
    requires FitsRepresentation(r)
    ensures Encode(r) != []
    ensures Field(table, Encode(r) + rest) == Some(Decoded(OwnName(table, r), |Encode(r)|))
  {
    match r {
      case Indexed(index) => IndexedUndoesEncode(table, index, rest);
      case SizeUpdate(size) => SizeUndoesEncode(table, size, rest);
      case LiteralRep(indexing, name, value) => LiteralFieldUndoesEncode(table, indexing, name, value, rest);
    }
  }

  lemma NamesStep(table: seq<string>, r: Representation, more: seq<byte>, seen: seq<string>)
    requires FitsRepresentation(r)
    ensures NamesAfter(table, Encode(r) + more, seen) == NamesAfter(table, more, seen + OwnName(table, r))
  {
    FieldUndoesEncode(table, r, more);
    assert (Encode(r) + more)[|Encode(r)|..] == more;
  }

  lemma EncodeAllStep(rs: seq<Representation>, rest: seq<byte>)
    requires rs != []
    ensures EncodeAll(rs) + rest == Encode(rs[0]) + (EncodeAll(rs[1..]) + rest)
  {
  }

  lemma NamesOfStep(table: seq<string>, rs: seq<Representation>, seen: seq<string>)
    requires rs != []
    ensures seen + OwnName(table, rs[0]) + NamesOf(table, rs[1..]) == seen + NamesOf(table, rs)
  {
  }

  /** Reading a block of encoded representations yields their names, in order,
      and goes on with whatever follows. */
  lemma {:induction false} NamesUndoEncodeAll(
    table: seq<string>, rs: seq<Representation>, rest: seq<byte>, seen: seq<string>)
    requires forall r <- rs :: FitsRepresentation(r)
    ensures NamesAfter(table, EncodeAll(rs) + rest, seen) == NamesAfter(table, rest, seen + NamesOf(table, rs))
    decreases |rs|
  {
    if rs == [] {
      assert EncodeAll(rs) + rest == rest;
      assert seen + NamesOf(table, rs) == seen;
    } else {
      EncodeAllStep(rs, rest);
      NamesStep(table, rs[0], EncodeAll(rs[1..]) + rest, seen);
      NamesUndoEncodeAll(table, rs[1..], rest, seen + OwnName(table, rs[0]));
      NamesOfStep(table, rs, seen);
    }
  }

  /** The names of an encoded block are exactly the names of its representations. */
  lemma HeaderNamesUndoEncode(table: seq<string>, rs: seq<Representation>)
    requires forall r <- rs :: FitsRepresentation(r)
    ensures Names(table, EncodeAll(rs)) == NamesOf(table, rs)
  {
    NamesUndoEncodeAll(table, rs, [], []);
    assert EncodeAll(rs) + [] == EncodeAll(rs) && [] + NamesOf(table, rs) == NamesOf(table, rs);
  }

  // -- a block that is cut short -----------------------------------------------------------------

  /** Whatever follows, the names read are never taken back. */
  lemma {:induction false} NamesGrow(table: seq<string>, block: seq<byte>, seen: seq<string>)
    ensures seen <= NamesAfter(table, block, seen)
    decreases |block|
  {
    if block != [] && Field(table, block).Some? {
      var f := Field(table, block).value;
      if 0 < f.used <= |block| {
        NamesGrow(table, block[f.used..], seen + f.value);
      }
    }
  }

  /** A literal field of which only part of the value is there, but for its length. */
  function CutField(indexing: Indexing, name: NameRef, value: StringLiteral, there: nat): seq<byte>
    requires there <= |value.bytes|
  {
    Patterns();
    EncodeName(indexing, name) + (EncodeInt(|value.bytes|, 7, if value.huffman then 0x80 else 0) + value.bytes[..there])
  }

  lemma SkipCutString(front: seq<byte>, s: StringLiteral, there: nat)
    requires |s.bytes| < RANGE && there <= |s.bytes|
    ensures Pattern(if s.huffman then 0x80 else 0, 7)
    ensures var tail := EncodeInt(|s.bytes|, 7, if s.huffman then 0x80 else 0) + s.bytes[..there];
            SkipStringAt(front + tail, |front|) == Some(|EncodeString(s)|)
  {
    Patterns();
    var high := if s.huffman then 0x80 else 0;
    var tail := EncodeInt(|s.bytes|, 7, high) + s.bytes[..there];
    assert (front + tail)[|front|..] == tail;
    IntUndoesEncode(|s.bytes|, 7, high, s.bytes[..there]);
  }

  lemma FieldOfNameAndValue(table: seq<string>, block: seq<byte>, bits: nat, name: string, used: nat, len: nat)
    requires UsedPrefix(bits)
    requires LiteralName(table, block, bits) == Some(Decoded(name, used)) && SkipStringAt(block, used) == Some(len)
    ensures LiteralField(table, block, bits) == Some(Decoded(name, used + len))
  {
  }

  lemma OverrunEnds(table: seq<string>, block: seq<byte>, seen: seq<string>, names: seq<string>, used: nat)
    requires block != [] && Field(table, block) == Some(Decoded(names, used)) && used > |block|
    ensures NamesAfter(table, block, seen) == seen + names
  {
  }

  lemma CutFieldBegins(indexing: Indexing, name: NameRef, value: StringLiteral, there: nat)
    requires there <= |value.bytes|
    ensures var block := CutField(indexing, name, value, there);
            block != [] && High(indexing) <= block[0] <= High(indexing) + Mask(Bits(indexing))
  {
    LiteralFirstByte(indexing, name, value);
    assert CutField(indexing, name, value, there)[0] == Encode(LiteralRep(indexing, name, value))[0];
  }

  lemma CutFieldSize(indexing: Indexing, name: NameRef, value: StringLiteral, there: nat)
    requires there < |value.bytes|
    ensures |CutField(indexing, name, value, there)| < |EncodeName(indexing, name)| + |EncodeString(value)|
  {
  }

  lemma CutFieldReads(table: seq<string>, indexing: Indexing, name: NameRef, value: StringLiteral, there: nat)
    requires FitsRepresentation(LiteralRep(indexing, name, value)) && there <= |value.bytes|
    ensures LiteralField(table, CutField(indexing, name, value, there), Bits(indexing))
         == Some(Decoded(NameOf(table, name), |EncodeName(indexing, name)| + |EncodeString(value)|))
  {
    Patterns();
    var high := if value.huffman then 0x80 else 0;
    var front, tail := EncodeName(indexing, name), EncodeInt(|value.bytes|, 7, high) + value.bytes[..there];
    NameUndoesEncode(table, indexing, name, tail);
    SkipCutString(front, value, there);
    FieldOfNameAndValue(table, front + tail, Bits(indexing), NameOf(table, name), |front|, |EncodeString(value)|);
  }

  lemma NamedField(table: seq<string>, block: seq<byte>, indexing: Indexing, name: string, used: nat)
    requires block != [] && High(indexing) <= block[0] <= High(indexing) + Mask(Bits(indexing))
    requires LiteralField(table, block, Bits(indexing)) == Some(Decoded(name, used))
    ensures Field(table, block) == Some(Decoded([name], used))
  {
    LiteralDispatch(table, block, indexing);
  }

  lemma CutFieldField(table: seq<string>, indexing: Indexing, name: NameRef, value: StringLiteral, there: nat)
    requires FitsRepresentation(LiteralRep(indexing, name, value)) && there <= |value.bytes|
    ensures var block := CutField(indexing, name, value, there);
            && block != []
            && Field(table, block) == Some(Decoded([NameOf(table, name)], |EncodeName(indexing, name)| + |EncodeString(value)|))
  {
    CutFieldBegins(indexing, name, value, there);
    CutFieldReads(table, indexing, name, value, there);
    NamedField(table, CutField(indexing, name, value, there), indexing, NameOf(table, name),
               |EncodeName(indexing, name)| + |EncodeString(value)|);
  }

  lemma CutFieldCounts(table: seq<string>, indexing: Indexing, name: NameRef, value: StringLiteral, there: nat, seen: seq<string>)
    requires FitsRepresentation(LiteralRep(indexing, name, value)) && there < |value.bytes|
    ensures NamesAfter(table, CutField(indexing, name, value, there), seen) == seen + [NameOf(table, name)]
  {
    var block := CutField(indexing, name, value, there);
    CutFieldSize(indexing, name, value, there);
    CutFieldField(table, indexing, name, value, there);
    OverrunEnds(table, block, seen, [NameOf(table, name)], |EncodeName(indexing, name)| + |EncodeString(value)|);
  }

  /** A block that ends inside the value of its last field still yields that field's name, behind
      the names of all the fields before it. */
  lemma CutValueStillCounts(
    table: seq<string>, rs: seq<Representation>, indexing: Indexing, name: NameRef, value: StringLiteral, there: nat)
    requires forall r <- rs :: FitsRepresentation(r)
    requires FitsRepresentation(LiteralRep(indexing, name, value)) && there < |value.bytes|
    ensures Names(table, EncodeAll(rs) + CutField(indexing, name, value, there))
         == NamesOf(table, rs) + [NameOf(table, name)]
  {
    NamesUndoEncodeAll(table, rs, CutField(indexing, name, value, there), []);
    assert [] + NamesOf(table, rs) == NamesOf(table, rs);
    CutFieldCounts(table, indexing, name, value, there, NamesOf(table, rs));
  }
}
