/** `src/ja4/fingerprint.rs`: the JA4 fingerprint of a hello. SHA-256 stays
    abstract: a hashed segment is represented by the text that is hashed. */
module Fingerprint {
  import opened Wrappers
  import opened Wire
  import opened HelloGrammar
  import opened Sorting
  import opened Text

  const MAX_TWO_DIGIT_COUNT: nat := 99

  /** A hashed segment: the all-zero placeholder, or SHA-256 of a text. */
  datatype Segment = EmptyHash | Sha256(preimage: string)

  datatype Transport = Tcp | Quic

  datatype Ja4 = Ja4(a: string, b: Segment, c: Segment)

  predicate IsGrease(value: u16) {
    value / 0x100 == value % 0x100 && value % 0x10 == 0xa
  }

  function NonGrease(values: seq<u16>): seq<u16> {
    if values == [] then []
    else if IsGrease(values[0]) then NonGrease(values[1..])
    else [values[0]] + NonGrease(values[1..])
  }

  function HexDigit(d: nat): char
    requires d < 16
  {
    if d < 10 then '0' + d as char else 'a' + (d - 10) as char
  }

  function Hex4(v: u16): (s: string)
    ensures |s| == 4
  {
    [HexDigit(v / 0x1000), HexDigit(v / 0x100 % 0x10), HexDigit(v / 0x10 % 0x10), HexDigit(v % 0x10)]
  }

  /** `values` in hex, comma-joined. */
  function JoinHex(values: seq<u16>): string {
    if values == [] then ""
    else if |values| == 1 then Hex4(values[0])
    else Hex4(values[0]) + "," + JoinHex(values[1..])
  }

  function Code(transport: Transport): char {
    match transport case Tcp => 't' case Quic => 'q'
  }

  function Highest(values: seq<u16>): Option<u16> {
    if values == [] then None
    else match Highest(values[1..])
         case None => Some(values[0])
         case Some(v) => Some(if v >= values[0] then v else values[0])
  }

  /** The highest advertised version, or the legacy one when none is advertised. */
  function EffectiveVersion(hello: ClientHello): u16 {
    match Highest(NonGrease(hello.supportedVersions))
    case Some(v) => v
    case None => hello.legacyVersion
  }

  function VersionCode(version: u16): (s: string)
    ensures |s| == 2
  {
    match version
    case 0x0304 => "13"
    case 0x0303 => "12"
    case 0x0302 => "11"
    case 0x0301 => "10"
    case 0x0300 => "s3"
    case 0x0002 => "s2"
    case _ => "00"
  }

  predicate IsAlphanumeric(b: byte) {
    0x30 <= b <= 0x39 || 0x41 <= b <= 0x5a || 0x61 <= b <= 0x7a
  }

  function FirstNonEmpty(protocols: seq<seq<byte>>): Option<seq<byte>> {
    if protocols == [] then None
    else if protocols[0] != [] then Some(protocols[0])
    else FirstNonEmpty(protocols[1..])
  }

  function AlpnCode(protocols: seq<seq<byte>>): (s: string)
    ensures |s| == 2
  {
    match FirstNonEmpty(protocols)
    case None => "00"
    case Some(first) =>
      if first == [] then "00"
      else
        var head, tail := first[0], first[|first| - 1];
        if IsAlphanumeric(head) && IsAlphanumeric(tail) then [head as char, tail as char]
        else [HexDigit(head / 0x10), HexDigit(tail % 0x10)]
  }

  function Capped(count: nat): nat {
    if count <= MAX_TWO_DIGIT_COUNT then count else MAX_TWO_DIGIT_COUNT
  }

  function TwoDigits(count: nat): (s: string)
    ensures |s| == 2
  {
    [HexDigit(Capped(count) / 10), HexDigit(Capped(count) % 10)]
  }

  function SegmentA(hello: ClientHello, transport: Transport): (s: string)
    ensures |s| == 10
  {
    RenderA(Code(transport), EffectiveVersion(hello), SERVER_NAME in hello.extensions,
            |NonGrease(hello.cipherSuites)|, |NonGrease(hello.extensions)|, hello.alpn)
  }

  function RenderA(code: char, version: u16, sni: bool, ciphers: nat, extensions: nat, alpn: seq<seq<byte>>): (s: string)
    ensures |s| == 10
  {
    [code] + VersionCode(version) + [if sni then 'd' else 'i'] + TwoDigits(ciphers) + TwoDigits(extensions) + AlpnCode(alpn)
  }

  function SegmentB(hello: ClientHello): Segment {
    var sorted := Sort(NonGrease(hello.cipherSuites));
    if sorted == [] then EmptyHash else Sha256(JoinHex(sorted))
  }

  function WithoutSniAlpn(extensions: seq<u16>): seq<u16> {
    if extensions == [] then []
    else if extensions[0] == SERVER_NAME || extensions[0] == ALPN then WithoutSniAlpn(extensions[1..])
    else [extensions[0]] + WithoutSniAlpn(extensions[1..])
  }

  function HashedExtensions(hello: ClientHello): seq<u16> {
    WithoutSniAlpn(NonGrease(hello.extensions))
  }

  function SegmentC(hello: ClientHello): Segment {
    var extensions := Sort(HashedExtensions(hello));
    var algorithms := NonGrease(hello.signatureAlgorithms);
    if extensions == [] && algorithms == [] then EmptyHash else Sha256(TextC(extensions, algorithms))
  }

  function TextC(extensions: seq<u16>, algorithms: seq<u16>): string {
    if algorithms == [] then JoinHex(extensions) else JoinHex(extensions) + "_" + JoinHex(algorithms)
  }

  function FromClientHello(hello: ClientHello, transport: Transport): Ja4 {
    Ja4(SegmentA(hello, transport), SegmentB(hello), SegmentC(hello))
  }

  // -- the joined hex text determines the list ---------------------------------------

  lemma HexDigitInjective(d: nat, e: nat)
    requires d < 16 && e < 16 && HexDigit(d) == HexDigit(e)
    ensures d == e
  {
  }

  lemma HexDigitsOf(v: u16)
    ensures v == v / 0x1000 * 0x1000 + v / 0x100 % 0x10 * 0x100 + v / 0x10 % 0x10 * 0x10 + v % 0x10
  {
    var tens, hundreds, thousands := v / 0x10, v / 0x100, v / 0x1000;
    assert v == tens * 0x10 + v % 0x10;
    assert tens == hundreds * 0x10 + tens % 0x10;
    assert hundreds == thousands * 0x10 + hundreds % 0x10;
  }

  lemma Hex4Injective(v: u16, w: u16)
    requires Hex4(v) == Hex4(w)
    ensures v == w
  {
    HexDigitsOf(v);
    HexDigitsOf(w);
    var s, t := Hex4(v), Hex4(w);
    assert s[0] == t[0] && s[1] == t[1] && s[2] == t[2] && s[3] == t[3];
    HexDigitInjective(v / 0x1000, w / 0x1000);
    HexDigitInjective(v / 0x100 % 0x10, w / 0x100 % 0x10);
    HexDigitInjective(v / 0x10 % 0x10, w / 0x10 % 0x10);
    HexDigitInjective(v % 0x10, w % 0x10);
  }

  lemma {:induction false} JoinHexShape(values: seq<u16>)
    ensures |JoinHex(values)| == if values == [] then 0 else 5 * |values| - 1
    ensures '_' !in JoinHex(values)
    ensures values != [] ==> JoinHex(values)[..4] == Hex4(values[0])
    ensures |values| > 1 ==> JoinHex(values)[5..] == JoinHex(values[1..])
  {
    if |values| > 1 {
      JoinHexShape(values[1..]);
    }
  }

  lemma {:induction false} JoinHexInjective(values: seq<u16>, others: seq<u16>)
    requires JoinHex(values) == JoinHex(others)
    ensures values == others
  {
    JoinHexShape(values);
    JoinHexShape(others);
    if values != [] {
      Hex4Injective(values[0], others[0]);
      if |values| > 1 {
        JoinHexInjective(values[1..], others[1..]);
        assert values == [values[0]] + values[1..] && others == [others[0]] + others[1..];
      }
    }
  }

  lemma FirstUnderscore(p: string, q: string, p': string, q': string)
    requires p + "_" + q == p' + "_" + q' && '_' !in p && '_' !in p'
    ensures p == p' && q == q'
  {
    var s, s' := p + "_" + q, p' + "_" + q';
    assert s[|p|] == '_' && s'[|p'|] == '_';
    assert forall i :: 0 <= i < |p| ==> s[i] == p[i];
    assert forall i :: 0 <= i < |p'| ==> s'[i] == p'[i];
    assert |p| == |p'|;
    assert s[..|p|] == p && s'[..|p'|] == p';
    assert s[|p| + 1..] == q && s'[|p'| + 1..] == q';
  }

  // -- segment a reads back ---------------------------------------------------------------

  lemma TwoDigitsReadBack(count: nat)
    ensures forall c <- TwoDigits(count) :: IsDigit(c)
    ensures DecimalValue(TwoDigits(count)) == Capped(count)
  {
    var s := TwoDigits(count);
    assert s[..1] == [s[0]] && s[..1][..0] == "";
    assert DecimalValue(s[..1]) == 10 * DecimalValue("") + Digit(s[0]);
    assert Digit(s[0]) == Capped(count) / 10 && Digit(s[1]) == Capped(count) % 10;
  }

  lemma TwoDigitsTell(count: nat, other: nat)
    ensures TwoDigits(count) == TwoDigits(other) <==> Capped(count) == Capped(other)
  {
    TwoDigitsReadBack(count);
    TwoDigitsReadBack(other);
  }

  /** Where each field of segment a stands. */
  lemma SegmentALayout(h: ClientHello, t: Transport)
    ensures var s := SegmentA(h, t);
            && s[0] == Code(t) && s[1..3] == VersionCode(EffectiveVersion(h))
            && (s[3] == 'd' <==> SERVER_NAME in h.extensions) && (s[3] == 'i' <==> SERVER_NAME !in h.extensions)
            && s[4..6] == TwoDigits(|NonGrease(h.cipherSuites)|)
            && s[6..8] == TwoDigits(|NonGrease(h.extensions)|)
            && s[8..10] == AlpnCode(h.alpn)
  {
  }

  /** Segment a tells two hellos apart exactly by transport, version code, presence of SNI,
      the two counts up to 99, and ALPN code. */
  lemma SegmentAComplete(h: ClientHello, t: Transport, g: ClientHello, u: Transport)
    ensures FromClientHello(h, t).a == FromClientHello(g, u).a
       <==> && t == u
            && VersionCode(EffectiveVersion(h)) == VersionCode(EffectiveVersion(g))
            && (SERVER_NAME in h.extensions <==> SERVER_NAME in g.extensions)
            && Capped(|NonGrease(h.cipherSuites)|) == Capped(|NonGrease(g.cipherSuites)|)
            && Capped(|NonGrease(h.extensions)|) == Capped(|NonGrease(g.extensions)|)
            && AlpnCode(h.alpn) == AlpnCode(g.alpn)
  {
    SegmentALayout(h, t);
    SegmentALayout(g, u);
    TwoDigitsTell(|NonGrease(h.cipherSuites)|, |NonGrease(g.cipherSuites)|);
    TwoDigitsTell(|NonGrease(h.extensions)|, |NonGrease(g.extensions)|);
  }

  // -- the hashed segments are complete invariants --------------------------------------

  /** Segment b tells two hellos apart exactly when their non-GREASE ciphers differ as multisets. */
  lemma SegmentBComplete(h: ClientHello, t: Transport, g: ClientHello, u: Transport)
    ensures FromClientHello(h, t).b == FromClientHello(g, u).b
       <==> multiset(NonGrease(h.cipherSuites)) == multiset(NonGrease(g.cipherSuites))
  {
    var cs, cs' := NonGrease(h.cipherSuites), NonGrease(g.cipherSuites);
    SortsAlike(cs, cs');
    if SegmentB(h) == SegmentB(g) && SegmentB(h).Sha256? {
      JoinHexInjective(Sort(cs), Sort(cs'));
    }
  }

  /** Segment c: exactly the multiset of hashed extensions and the ordered signature algorithms. */
  lemma SegmentCComplete(h: ClientHello, t: Transport, g: ClientHello, u: Transport)
    ensures FromClientHello(h, t).c == FromClientHello(g, u).c
       <==> && multiset(HashedExtensions(h)) == multiset(HashedExtensions(g))
            && NonGrease(h.signatureAlgorithms) == NonGrease(g.signatureAlgorithms)
  {
    var es, es' := HashedExtensions(h), HashedExtensions(g);
    SortsAlike(es, es');
    if SegmentC(h) == SegmentC(g) {
      SegmentCDetermines(Sort(es), NonGrease(h.signatureAlgorithms), Sort(es'), NonGrease(g.signatureAlgorithms));
    }
  }

  lemma SegmentCDetermines(es: seq<u16>, algs: seq<u16>, es': seq<u16>, algs': seq<u16>)
    requires (es == [] && algs == []) <==> (es' == [] && algs' == [])
    requires TextC(es, algs) == TextC(es', algs')
    ensures es == es' && algs == algs'
  {
    JoinHexShape(es);
    JoinHexShape(es');
    assert '_' in TextC(es, algs) <==> algs != [];
    assert '_' in TextC(es', algs') <==> algs' != [];
    if algs == [] {
      JoinHexInjective(es, es');
    } else {
      FirstUnderscore(JoinHex(es), JoinHex(algs), JoinHex(es'), JoinHex(algs'));
      JoinHexInjective(es, es');
      JoinHexInjective(algs, algs');
    }
  }

  // -- GREASE and order leave no trace ------------------------------------------------------

  lemma {:induction false} NonGreaseCounts(s: seq<u16>, v: u16)
    ensures multiset(NonGrease(s))[v] == if IsGrease(v) then 0 else multiset(s)[v]
  {
    if s != [] {
      NonGreaseCounts(s[1..], v);
      assert s == [s[0]] + s[1..];
    }
  }

  lemma {:induction false} WithoutSniAlpnCounts(s: seq<u16>, v: u16)
    ensures multiset(WithoutSniAlpn(s))[v] == if v == SERVER_NAME || v == ALPN then 0 else multiset(s)[v]
  {
    if s != [] {
      WithoutSniAlpnCounts(s[1..], v);
      assert s == [s[0]] + s[1..];
    }
  }

  /** A permutation of a list permutes its non-GREASE part. */
  lemma PermutingPermutesNonGrease(s: seq<u16>, t: seq<u16>)
    requires multiset(s) == multiset(t)
    ensures multiset(NonGrease(s)) == multiset(NonGrease(t))
  {
    forall v: u16
      ensures multiset(NonGrease(s))[v] == multiset(NonGrease(t))[v]
    {
      NonGreaseCounts(s, v);
      NonGreaseCounts(t, v);
    }
  }

  /** GREASE inserted at any position is filtered out again. */
  lemma {:induction false} InsertedGreaseVanishes(s: seq<u16>, i: nat, grease: u16)
    requires i <= |s| && IsGrease(grease)
    ensures NonGrease(s[..i] + [grease] + s[i..]) == NonGrease(s)
  {
    var t := s[..i] + [grease] + s[i..];
    if i == 0 {
      assert t[1..] == s;
    } else {
      InsertedGreaseVanishes(s[1..], i - 1, grease);
      assert t[1..] == s[1..][..i - 1] + [grease] + s[1..][i - 1..];
    }
  }

  lemma {:induction false} HighestIsMaximum(s: seq<u16>)
    ensures Highest(s).None? <==> s == []
    ensures Highest(s).Some? ==> Highest(s).value in multiset(s) && forall v :: v in multiset(s) ==> v <= Highest(s).value
  {
    if s != [] {
      HighestIsMaximum(s[1..]);
      assert s == [s[0]] + s[1..];
    }
  }

  lemma HighestIgnoresOrder(s: seq<u16>, t: seq<u16>)
    requires multiset(s) == multiset(t)
    ensures Highest(s) == Highest(t)
  {
    HighestIsMaximum(s);
    HighestIsMaximum(t);
    assert |multiset(s)| == |multiset(t)|;
  }

  // -- what the segments say ----------------------------------------------------------------

  function GreasePoint(k: nat): int {
    0x0a0a + 0x1010 * k
  }

  /** The GREASE code points are the sixteen of section 2 of RFC 8701. */
  lemma GreaseExactly(v: u16)
    ensures IsGrease(v) <==> exists k: nat :: k < 16 && v == GreasePoint(k)
  {
    if IsGrease(v) {
      var lo := v % 0x100;
      assert v == 0x101 * lo && lo == 0x10 * (lo / 0x10) + 0xa;
      assert v == GreasePoint(lo / 0x10);
    }
    if k: nat :| k < 16 && v == GreasePoint(k) {
      var lo := 0x10 * k + 0xa;
      assert v == 0x100 * lo + lo && lo < 0x100;
      assert v / 0x100 == lo && v % 0x100 == lo;
    }
  }

  function HexValue(c: char): Option<nat> {
    if '0' <= c <= '9' then Some(c as nat - '0' as nat)
    else if 'a' <= c <= 'f' then Some(c as nat - 'a' as nat + 10)
    else None
  }

  /** Four lower-case hex digits, read as a number. */
  function ReadHex4(s: string): Option<nat> {
    if |s| == 4 && forall c <- s :: HexValue(c).Some?
    then Some(0x1000 * HexValue(s[0]).value + 0x100 * HexValue(s[1]).value + 0x10 * HexValue(s[2]).value + HexValue(s[3]).value)
    else None
  }

  function ReadAll(parts: seq<string>): seq<Option<nat>> {
    if parts == [] then [] else [ReadHex4(parts[0])] + ReadAll(parts[1..])
  }

  /** A list of such numbers between commas. */
  function ReadList(text: string): seq<Option<nat>> {
    if text == "" then [] else ReadAll(Split(text, ','))
  }

  function Numbers(values: seq<u16>): seq<Option<nat>> {
    if values == [] then [] else [Some(values[0] as nat)] + Numbers(values[1..])
  }

  lemma Hex4ReadsBack(v: u16)
    ensures ReadHex4(Hex4(v)) == Some(v) && ',' !in Hex4(v) && '_' !in Hex4(v)
  {
    HexDigitsOf(v);
    var s := Hex4(v);
    assert forall i :: 0 <= i < 4 ==> s[i] != ',' && s[i] != '_' && HexValue(s[i]).Some?;
  }

  lemma {:induction false} ListReadsBack(values: seq<u16>)
    ensures ReadList(JoinHex(values)) == Numbers(values)
  {
    if values != [] {
      var first, rest := Hex4(values[0]), JoinHex(values[1..]);
      Hex4ReadsBack(values[0]);
      if |values| == 1 {
        SplitWithout(first, ',');
        assert ReadAll([first]) == [ReadHex4(first)] + ReadAll([]);
      } else {
        ListReadsBack(values[1..]);
        JoinHexShape(values[1..]);
        SplitAtSeparator(first, rest, ',');
        SplitWithout(first, ',');
        assert ([first] + Split(rest, ','))[1..] == Split(rest, ',');
      }
    }
  }

  /** What segment b hashes: in ascending order, the ciphers that are no GREASE, each as often as
      it is offered, in hex between commas; the placeholder stands for none. */
  lemma SegmentBReadsBack(h: ClientHello, t: Transport) returns (list: seq<u16>)
    ensures Sorted(list) && forall v: u16 :: multiset(list)[v] == if IsGrease(v) then 0 else multiset(h.cipherSuites)[v]
    ensures FromClientHello(h, t).b.EmptyHash? <==> list == []
    ensures FromClientHello(h, t).b.Sha256? ==> ReadList(FromClientHello(h, t).b.preimage) == Numbers(list)
  {
    list := Sort(NonGrease(h.cipherSuites));
    SortSorts(NonGrease(h.cipherSuites));
    forall v: u16
      ensures multiset(list)[v] == if IsGrease(v) then 0 else multiset(h.cipherSuites)[v]
    {
      NonGreaseCounts(h.cipherSuites, v);
    }
    ListReadsBack(list);
  }

  /** Whether an extension is one segment c hashes: neither GREASE nor SNI nor ALPN. */
  predicate Hashed(v: u16) {
    !IsGrease(v) && v != 0x0000 && v != 0x0010
  }

  lemma HashedExtensionsCount(h: ClientHello, v: u16)
    ensures multiset(HashedExtensions(h))[v] == if Hashed(v) then multiset(h.extensions)[v] else 0
  {
    NonGreaseCounts(h.extensions, v);
    WithoutSniAlpnCounts(NonGrease(h.extensions), v);
  }

  lemma TextCReadsBack(extensions: seq<u16>, algorithms: seq<u16>)
    ensures var parts := Split(TextC(extensions, algorithms), '_');
            && |parts| == (if algorithms == [] then 1 else 2)
            && ReadList(parts[0]) == Numbers(extensions)
            && (algorithms != [] ==> ReadList(parts[1]) == Numbers(algorithms))
  {
    JoinHexShape(extensions);
    JoinHexShape(algorithms);
    ListReadsBack(extensions);
    ListReadsBack(algorithms);
    SplitWithout(JoinHex(extensions), '_');
    SplitWithout(JoinHex(algorithms), '_');
    SplitAtSeparator(JoinHex(extensions), JoinHex(algorithms), '_');
  }

  /** What segment c hashes: the hashed extensions in ascending order, each as often as it is
      offered, and behind `_`, if there are any, the signature algorithms in wire order. */
  lemma SegmentCReadsBack(h: ClientHello, t: Transport) returns (list: seq<u16>)
    ensures Sorted(list) && forall v: u16 :: multiset(list)[v] == if Hashed(v) then multiset(h.extensions)[v] else 0
    ensures FromClientHello(h, t).c.EmptyHash? <==> list == [] && NonGrease(h.signatureAlgorithms) == []
    ensures var c, algorithms := FromClientHello(h, t).c, NonGrease(h.signatureAlgorithms);
            c.Sha256? ==>
              var parts := Split(c.preimage, '_');
              && |parts| == (if algorithms == [] then 1 else 2)
              && ReadList(parts[0]) == Numbers(list)
              && (algorithms != [] ==> ReadList(parts[1]) == Numbers(algorithms))
  {
    list := Sort(HashedExtensions(h));
    SortSorts(HashedExtensions(h));
    forall v: u16
      ensures multiset(list)[v] == if Hashed(v) then multiset(h.extensions)[v] else 0
    {
      HashedExtensionsCount(h, v);
    }
    TextCReadsBack(list, NonGrease(h.signatureAlgorithms));
  }

  /** The version a hello shows: the highest it advertises that is no GREASE, or the legacy one. */
  ghost predicate Shows(h: ClientHello, v: u16) {
    if exists x <- h.supportedVersions :: !IsGrease(x)
    then v in h.supportedVersions && !IsGrease(v) && forall x <- h.supportedVersions :: IsGrease(x) || x <= v
    else v == h.legacyVersion
  }

  lemma {:induction false} NonGreaseMembers(s: seq<u16>, v: u16)
    ensures v in NonGrease(s) <==> v in s && !IsGrease(v)
  {
    if s != [] {
      NonGreaseMembers(s[1..], v);
      assert s == [s[0]] + s[1..];
    }
  }

  lemma EffectiveIsShown(h: ClientHello)
    ensures Shows(h, EffectiveVersion(h))
  {
    var versions := NonGrease(h.supportedVersions);
    forall x: u16
      ensures x in versions <==> x in h.supportedVersions && !IsGrease(x)
    {
      NonGreaseMembers(h.supportedVersions, x);
    }
    HighestIsMaximum(versions);
    if versions == [] {
      assert forall x <- h.supportedVersions :: x !in versions;
    } else {
      assert versions[0] in versions;
      forall x <- h.supportedVersions
        ensures IsGrease(x) || x <= EffectiveVersion(h)
      {
        assert IsGrease(x) || x in multiset(versions);
      }
    }
  }

  /** The first protocol offered that is not empty. */
  ghost predicate FirstOffered(protocols: seq<seq<byte>>, p: seq<byte>) {
    p != [] && exists i :: 0 <= i < |protocols| && protocols[i] == p && forall j :: 0 <= j < i ==> protocols[j] == []
  }

  lemma {:induction false} FirstNonEmptySays(protocols: seq<seq<byte>>)
    ensures match FirstNonEmpty(protocols)
            case None => forall p <- protocols :: p == []
            case Some(p) => FirstOffered(protocols, p)
  {
    if protocols != [] {
      if protocols[0] == [] {
        assert protocols == [protocols[0]] + protocols[1..];
        FirstNonEmptySays(protocols[1..]);
        var rest := FirstNonEmpty(protocols[1..]);
        if rest.Some? {
          var i :| 0 <= i < |protocols| - 1 && protocols[1..][i] == rest.value && forall j :: 0 <= j < i ==> protocols[1..][j] == [];
          assert protocols[i + 1] == rest.value;
          assert forall j :: 1 <= j <= i ==> protocols[j] == protocols[1..][j - 1];
        }
      } else {
        assert protocols[0] == protocols[0];
      }
    }
  }

  lemma FirstOfferedIsUnique(protocols: seq<seq<byte>>, p: seq<byte>)
    requires FirstOffered(protocols, p)
    ensures FirstNonEmpty(protocols) == Some(p)
  {
    FirstNonEmptySays(protocols);
    var i :| 0 <= i < |protocols| && protocols[i] == p && forall j :: 0 <= j < i ==> protocols[j] == [];
    var found := FirstNonEmpty(protocols);
    if found.Some? {
      var k :| 0 <= k < |protocols| && protocols[k] == found.value && forall j :: 0 <= j < k ==> protocols[j] == [];
      assert i == k;
    }
  }

  /** What two characters say of the protocols: the outer ones of the first that is not empty,
      in hex unless both are letters or digits, and zeros if there is none. */
  ghost predicate SaysAlpn(protocols: seq<seq<byte>>, code: string) {
    && |code| == 2
    && ((forall q <- protocols :: q == []) ==> code == "00")
    && forall p :: FirstOffered(protocols, p) ==> SaysProtocol(p, code)
  }

  ghost predicate IsLetterOrDigit(c: char) {
    '0' <= c <= '9' || 'a' <= c <= 'z' || 'A' <= c <= 'Z'
  }

  ghost predicate SaysProtocol(p: seq<byte>, code: string) {
    p != [] && |code| == 2 &&
    var first, last := p[0], p[|p| - 1];
    if IsLetterOrDigit(first as char) && IsLetterOrDigit(last as char) then code == [first as char, last as char]
    else HexValue(code[0]) == Some(first / 0x10) && HexValue(code[1]) == Some(last % 0x10)
  }

  lemma AlpnCodeSays(protocols: seq<seq<byte>>)
    ensures SaysAlpn(protocols, AlpnCode(protocols))
  {
    FirstNonEmptySays(protocols);
    if FirstNonEmpty(protocols).Some? {
      var i :| 0 <= i < |protocols| && protocols[i] == FirstNonEmpty(protocols).value;
      assert protocols[i] in protocols && protocols[i] != [];
    }
    forall p | FirstOffered(protocols, p)
      ensures SaysProtocol(p, AlpnCode(protocols))
    {
      FirstOfferedIsUnique(protocols, p);
    }
  }

  /** Segment a, position by position: the transport, the version shown, SNI. */
  lemma SegmentAReadsBack(h: ClientHello, t: Transport, version: u16)
    requires Shows(h, version)
    ensures var a := FromClientHello(h, t).a;
            && |a| == 10 && a[0] == (if t.Tcp? then 't' else 'q') && a[3] == (if 0x0000 in h.extensions then 'd' else 'i')
            && (version == 0x0304 ==> a[1..3] == "13") && (version == 0x0303 ==> a[1..3] == "12")
            && (version == 0x0302 ==> a[1..3] == "11") && (version == 0x0301 ==> a[1..3] == "10")
            && (version == 0x0300 ==> a[1..3] == "s3") && (version == 0x0002 ==> a[1..3] == "s2")
            && (version !in {0x0304, 0x0303, 0x0302, 0x0301, 0x0300, 0x0002} ==> a[1..3] == "00")
  {
    EffectiveIsShown(h);
    assert EffectiveVersion(h) == version;
    SegmentALayout(h, t);
  }

  /** Then the two counts, and the ALPN code: the outer characters of the first protocol offered. */
  lemma SegmentACountsReadBack(h: ClientHello, t: Transport)
    ensures var a, ciphers, extensions :=
              FromClientHello(h, t).a, |NonGrease(h.cipherSuites)|, |NonGrease(h.extensions)|;
            && (forall c <- a[4..6] + a[6..8] :: IsDigit(c))
            && DecimalValue(a[4..6]) == (if ciphers < 99 then ciphers else 99)
            && DecimalValue(a[6..8]) == (if extensions < 99 then extensions else 99)
  {
    SegmentALayout(h, t);
    TwoDigitsReadBack(|NonGrease(h.cipherSuites)|);
    TwoDigitsReadBack(|NonGrease(h.extensions)|);
  }

  lemma SegmentAAlpnReadsBack(h: ClientHello, t: Transport)
    ensures SaysAlpn(h.alpn, FromClientHello(h, t).a[8..])
  {
    SegmentALayout(h, t);
    AlpnCodeSays(h.alpn);
    assert FromClientHello(h, t).a[8..] == AlpnCode(h.alpn);
  }

  /** The same offer: equal up to GREASE everywhere and up to order, except
      that signature algorithms keep their order. */
  ghost predicate SameOffer(h: ClientHello, g: ClientHello) {
    && h.legacyVersion == g.legacyVersion && h.alpn == g.alpn
    && multiset(NonGrease(h.cipherSuites)) == multiset(NonGrease(g.cipherSuites))
    && multiset(NonGrease(h.extensions)) == multiset(NonGrease(g.extensions))
    && multiset(NonGrease(h.supportedVersions)) == multiset(NonGrease(g.supportedVersions))
    && NonGrease(h.signatureAlgorithms) == NonGrease(g.signatureAlgorithms)
  }

  lemma SniSurvivesNonGrease(s: seq<u16>)
    ensures SERVER_NAME in s <==> SERVER_NAME in multiset(NonGrease(s))
  {
  }

  lemma SameSegmentA(h: ClientHello, g: ClientHello, transport: Transport)
    requires SameOffer(h, g)
    ensures SegmentA(h, transport) == SegmentA(g, transport)
  {
    HighestIgnoresOrder(NonGrease(h.supportedVersions), NonGrease(g.supportedVersions));
    SniSurvivesNonGrease(h.extensions);
    SniSurvivesNonGrease(g.extensions);
    SameLength(NonGrease(h.cipherSuites), NonGrease(g.cipherSuites));
    SameLength(NonGrease(h.extensions), NonGrease(g.extensions));
  }

  lemma SameLength(s: seq<u16>, t: seq<u16>)
    requires multiset(s) == multiset(t)
    ensures |s| == |t|
  {
    assert |multiset(s)| == |s| && |multiset(t)| == |t|;
  }

  lemma SameHashedExtensions(s: seq<u16>, t: seq<u16>)
    requires multiset(s) == multiset(t)
    ensures multiset(WithoutSniAlpn(s)) == multiset(WithoutSniAlpn(t))
  {
    forall v: u16
      ensures multiset(WithoutSniAlpn(s))[v] == multiset(WithoutSniAlpn(t))[v]
    {
      WithoutSniAlpnCounts(s, v);
      WithoutSniAlpnCounts(t, v);
    }
  }

  /** Two hellos making the same offer have the same fingerprint, all three segments. */
  lemma SameOfferSameFingerprint(h: ClientHello, g: ClientHello, transport: Transport)
    requires SameOffer(h, g)
    ensures FromClientHello(h, transport) == FromClientHello(g, transport)
  {
    SameSegmentA(h, g, transport);
    SegmentBComplete(h, transport, g, transport);
    SameHashedExtensions(NonGrease(h.extensions), NonGrease(g.extensions));
    SegmentCComplete(h, transport, g, transport);
  }

  /** One GREASE value inserted into each of the four lists, at any positions,
      and ciphers, extensions and versions permuted: the fingerprint stays. */
  lemma GreaseAndPermutationInvisible(
    h: ClientHello, g: ClientHello, transport: Transport,
    i: nat, j: nat, k: nat, l: nat, grease: seq<u16>)
    requires |grease| == 4 && forall x <- grease :: IsGrease(x)
    requires i <= |h.cipherSuites| && j <= |h.extensions| && k <= |h.supportedVersions| && l <= |h.signatureAlgorithms|
    requires h.legacyVersion == g.legacyVersion && h.alpn == g.alpn
    requires multiset(g.cipherSuites) == multiset(h.cipherSuites[..i] + [grease[0]] + h.cipherSuites[i..])
    requires multiset(g.extensions) == multiset(h.extensions[..j] + [grease[1]] + h.extensions[j..])
    requires multiset(g.supportedVersions) == multiset(h.supportedVersions[..k] + [grease[2]] + h.supportedVersions[k..])
    requires g.signatureAlgorithms == h.signatureAlgorithms[..l] + [grease[3]] + h.signatureAlgorithms[l..]
    ensures FromClientHello(h, transport) == FromClientHello(g, transport)
  {
    InsertedGreaseVanishes(h.cipherSuites, i, grease[0]);
    InsertedGreaseVanishes(h.extensions, j, grease[1]);
    InsertedGreaseVanishes(h.supportedVersions, k, grease[2]);
    InsertedGreaseVanishes(h.signatureAlgorithms, l, grease[3]);
    PermutingPermutesNonGrease(g.cipherSuites, h.cipherSuites[..i] + [grease[0]] + h.cipherSuites[i..]);
    PermutingPermutesNonGrease(g.extensions, h.extensions[..j] + [grease[1]] + h.extensions[j..]);
    PermutingPermutesNonGrease(g.supportedVersions, h.supportedVersions[..k] + [grease[2]] + h.supportedVersions[k..]);
    SameOfferSameFingerprint(h, g, transport);
  }
}
