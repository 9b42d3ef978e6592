/** `Set-Cookie` attributes as they are meant, in sections 5.2.2, 5.2.3 and 5.3 of RFC 6265, and
    exactly when `parse_set_cookie` of `src/identity.rs` reads them so. */
module SetCookieIntent {
  import opened Wrappers
  import opened Text
  import opened Cookies

  /** What an attribute says of the domain or the lifetime, one by one as the code reads it. */
  datatype Said = SaysDomain(scope: DomainScope) | SaysMaxAge(age: Option<int>) | SaysOther

  /** A `Domain` without a value is ignored, as in section 5.2.3 of RFC 6265. */
  function SaidBy(names: Names, host: string, attribute: string): Said {
    var (key, value) := KeyValue(attribute);
    if key == "domain" && value != "" then SaysDomain(Scope(names, value, host))
    else if key == "max-age" then SaysMaxAge(ParseI64(value))
    else SaysOther
  }

  function AllSaid(names: Names, host: string, attributes: seq<string>): seq<Said> {
    if attributes == [] then []
    else [SaidBy(names, host, attributes[0])] + AllSaid(names, host, attributes[1..])
  }

  function Scopes(said: seq<Said>): seq<DomainScope> {
    if said == [] then []
    else
      var last := said[|said| - 1];
      Scopes(said[..|said| - 1]) + if last.SaysDomain? then [last.scope] else []
  }

  function Ages(said: seq<Said>): seq<Option<int>> {
    if said == [] then []
    else
      var last := said[|said| - 1];
      Ages(said[..|said| - 1]) + if last.SaysMaxAge? then [last.age] else []
  }

  /** What the code makes of the scopes: one refusal is final, and only a widening replaces. */
  function ReadScope(scopes: seq<DomainScope>): DomainScope {
    if scopes == [] then HostOnly
    else
      var earlier, last := ReadScope(scopes[..|scopes| - 1]), scopes[|scopes| - 1];
      if earlier.Refuse? || last.HostOnly? then earlier else last
  }

  /** What is meant, as in section 5.3 of RFC 6265: the last one decides. */
  function IntendedScope(scopes: seq<DomainScope>): DomainScope {
    if scopes == [] then HostOnly else scopes[|scopes| - 1]
  }

  lemma {:induction false} ReadScopeSays(scopes: seq<DomainScope>)
    ensures ReadScope(scopes).Refuse? <==> Refuse in scopes
    ensures ReadScope(scopes).HostOnly? <==> forall x <- scopes :: x.HostOnly?
  {
    if scopes != [] {
      ReadScopeSays(scopes[..|scopes| - 1]);
      assert scopes == scopes[..|scopes| - 1] + [scopes[|scopes| - 1]];
    }
  }

  /** The domain is read as meant exactly when no `Domain` before an acceptable last one is
      refused, and none before a last one that keeps the host widens. */
  lemma ScopeAsIntendedIff(scopes: seq<DomainScope>)
    requires scopes != []
    ensures var front, last := scopes[..|scopes| - 1], scopes[|scopes| - 1];
            ReadScope(scopes) == IntendedScope(scopes) <==>
              && (!last.Refuse? ==> Refuse !in front)
              && (last.HostOnly? ==> forall x <- front :: !x.Widen?)
  {
    ReadScopeSays(scopes[..|scopes| - 1]);
  }

  function ReadMaxAge(ages: seq<Option<int>>): Option<int> {
    if ages == [] then None else ages[|ages| - 1]
  }

  /** What is meant, as in section 5.2.2 of RFC 6265: an unreadable one is ignored. */
  function IntendedMaxAge(ages: seq<Option<int>>): Option<int> {
    if ages == [] then None
    else if ages[|ages| - 1].Some? then ages[|ages| - 1]
    else IntendedMaxAge(ages[..|ages| - 1])
  }

  lemma {:induction false} IntendedMaxAgeSays(ages: seq<Option<int>>)
    ensures IntendedMaxAge(ages).None? <==> forall x <- ages :: x.None?
  {
    if ages != [] {
      IntendedMaxAgeSays(ages[..|ages| - 1]);
      assert ages == ages[..|ages| - 1] + [ages[|ages| - 1]];
    }
  }

  /** The lifetime is read as meant exactly when the last `Max-Age` is readable or none is. */
  lemma MaxAgeAsIntendedIff(ages: seq<Option<int>>)
    requires ages != []
    ensures ReadMaxAge(ages) == IntendedMaxAge(ages) <==> ages[|ages| - 1].Some? || forall x <- ages :: x.None?
  {
    IntendedMaxAgeSays(ages);
    IntendedMaxAgeSays(ages[..|ages| - 1]);
    assert ages == ages[..|ages| - 1] + [ages[|ages| - 1]];
  }

  /** The domain and the lifetime a draft has so far. */
  datatype Standing = Standing(domain: string, maxAge: Option<int>)

  function Hear(s: Standing, said: Said): Option<Standing> {
    match said
    case SaysDomain(Widen(domain)) => Some(s.(domain := domain))
    case SaysDomain(HostOnly) => Some(s)
    case SaysDomain(Refuse) => None
    case SaysMaxAge(age) => Some(s.(maxAge := age))
    case SaysOther => Some(s)
  }

  function HearAll(s: Standing, said: seq<Said>): Option<Standing> {
    if said == [] then Some(s)
    else match HearAll(s, said[..|said| - 1])
         case None => None
         case Some(next) => Hear(next, said[|said| - 1])
  }

  function StandingOf(d: Draft): Standing {
    Standing(d.cookie.domain, d.maxAge)
  }

  lemma AttributeIsHeard(names: Names, d: Draft, attribute: string, host: string)
    ensures var next := ApplyAttribute(names, d, attribute, host);
            Hear(StandingOf(d), SaidBy(names, host, attribute)) == if next.None? then None else Some(StandingOf(next.value))
  {
  }

  lemma {:induction false} HeardFirst(s: Standing, first: Said, rest: seq<Said>)
    ensures HearAll(s, [first] + rest) ==
            match Hear(s, first) case None => None case Some(next) => HearAll(next, rest)
  {
    var all := [first] + rest;
    if rest == [] {
      assert all[..0] == [] && HearAll(s, all[..0]) == Some(s);
    } else {
      assert all[..|all| - 1] == [first] + rest[..|rest| - 1];
      HeardFirst(s, first, rest[..|rest| - 1]);
    }
  }

  lemma {:induction false} AttributesAreHeard(names: Names, d: Draft, attributes: seq<string>, host: string)
    ensures var after := ApplyAttributes(names, d, attributes, host);
            HearAll(StandingOf(d), AllSaid(names, host, attributes)) == if after.None? then None else Some(StandingOf(after.value))
    decreases |attributes|
  {
    if attributes != [] {
      var next := ApplyAttribute(names, d, attributes[0], host);
      AttributeIsHeard(names, d, attributes[0], host);
      HeardFirst(StandingOf(d), SaidBy(names, host, attributes[0]), AllSaid(names, host, attributes[1..]));
      if next.Some? {
        AttributesAreHeard(names, next.value, attributes[1..], host);
      }
    }
  }

  function DomainFor(scope: DomainScope, host: string): string {
    match scope case Widen(domain) => domain case _ => ToLower(host)
  }

  lemma OneMoreScope(scopes: seq<DomainScope>, scope: DomainScope)
    ensures ReadScope(scopes + [scope]) ==
            if ReadScope(scopes).Refuse? || scope.HostOnly? then ReadScope(scopes) else scope
  {
    assert (scopes + [scope])[..|scopes|] == scopes;
  }

  lemma {:induction false} HeardIsRead(said: seq<Said>, host: string)
    ensures var scope := ReadScope(Scopes(said));
            HearAll(Standing(ToLower(host), None), said) ==
            if scope.Refuse? then None else Some(Standing(DomainFor(scope, host), ReadMaxAge(Ages(said))))
  {
    if said != [] {
      var front, last := said[..|said| - 1], said[|said| - 1];
      HeardIsRead(front, host);
      assert !last.SaysMaxAge? ==> Ages(said) == Ages(front);
      if last.SaysDomain? {
        OneMoreScope(Scopes(front), last.scope);
      } else {
        assert Scopes(said) == Scopes(front);
      }
    }
  }

  /** The domain and the lifetime of a parsed cookie are the scope and the age so read. */
  lemma ParsedReadsScope(names: Names, header: string, host: string, path: string)
    requires Opened(Split(header, ';')[0], host, path).Some?
    ensures var said, r := AllSaid(names, host, Split(header, ';')[1..]), Parsed(names, header, host, path);
            var scope := ReadScope(Scopes(said));
            && (r.None? <==> scope.Refuse?)
            && (r.Some? ==> r.value.domain == DomainFor(scope, host) && r.value.expires == Lifetime(ReadMaxAge(Ages(said))))
  {
    var parts := Split(header, ';');
    AttributesAreHeard(names, Draft(Opened(parts[0], host, path).value, None), parts[1..], host);
    HeardIsRead(AllSaid(names, host, parts[1..]), host);
  }

  lemma ThreeParts(a: string, b: string, c: string)
    requires ';' !in a && ';' !in b && ';' !in c
    ensures Split(a + ";" + b + ";" + c, ';') == [a, b, c]
  {
    SplitWithout(c, ';');
    SplitsAs(b, c, [c]);
    SplitsAs(a, b + ";" + c, [b, c]);
    Associate(a + ";", b, ";" + c);
    Associate(a + ";" + b, ";", c);
    Associate(b, ";", c);
  }

  ghost predicate IsKey(s: string) {
    Trimmed(s) && '=' !in s && forall c <- s :: !('A' <= c <= 'Z')
  }

  lemma KeyIsLower(key: string)
    requires IsKey(key)
    ensures ToLower(key) == key
  {
    assert forall i :: 0 <= i < |key| ==> key[i] in key;
  }

  lemma PlainKeyValue(key: string, value: string)
    requires IsKey(key) && Trimmed(value)
    ensures KeyValue(key + "=" + value) == (key, value)
  {
    SplitOnceAtFirst(key, value, '=');
    TrimLeavesTrimmed(key);
    TrimLeavesTrimmed(value);
    KeyIsLower(key);
  }

  lemma KeysArePlain()
    ensures IsKey("domain") && IsKey("max-age") && ';' !in "domain=" && ';' !in "max-age="
  {
  }

  function Attribute(key: string, value: string): string {
    key + "=" + value
  }

  ghost predicate IsValue(s: string) {
    Trimmed(s) && ';' !in s && s != ""
  }

  lemma SaidAsValue(names: Names, host: string, key: string, value: string)
    requires IsKey(key) && Trimmed(value) && value != ""
    ensures SaidBy(names, host, Attribute(key, value)) ==
            if key == "domain" then SaysDomain(Scope(names, value, host))
            else if key == "max-age" then SaysMaxAge(ParseI64(value))
            else SaysOther
  {
    PlainKeyValue(key, value);
  }

  /** A header of a pair and two attributes. */
  function Header(pair: string, a: string, b: string): string {
    pair + ";" + a + ";" + b
  }

  lemma HeaderSays(names: Names, host: string, pair: string, a: string, b: string)
    requires ';' !in pair && ';' !in a && ';' !in b
    ensures Split(Header(pair, a, b), ';') == [pair, a, b]
    ensures AllSaid(names, host, Split(Header(pair, a, b), ';')[1..]) == [SaidBy(names, host, a), SaidBy(names, host, b)]
  {
    ThreeParts(pair, a, b);
    var attributes := [a, b];
    assert [pair, a, b][1..] == attributes && attributes[1..] == [b] && [b][1..] == [];
    assert AllSaid(names, host, [b]) == [SaidBy(names, host, b)] + AllSaid(names, host, []);
  }

  lemma TwoSaid(first: Said, second: Said)
    ensures Scopes([first, second])
         == (if first.SaysDomain? then [first.scope] else []) + (if second.SaysDomain? then [second.scope] else [])
    ensures Ages([first, second])
         == (if first.SaysMaxAge? then [first.age] else []) + (if second.SaysMaxAge? then [second.age] else [])
  {
    assert [first, second][..1] == [first] && [first][..0] == [];
    assert Scopes([first]) == Scopes([]) + if first.SaysDomain? then [first.scope] else [];
    assert Ages([first]) == Ages([]) + if first.SaysMaxAge? then [first.age] else [];
  }

  /** Two values of one attribute, neither empty: what is read of them, and what they mean. */
  lemma TwoDomains(names: Names, host: string, pair: string, first: string, second: string)
    requires ';' !in pair && Opened(pair, host, "/").Some? && IsValue(first) && IsValue(second)
    ensures var header := Header(pair, Attribute("domain", first), Attribute("domain", second));
            var scopes := [Scope(names, first, host), Scope(names, second, host)];
            && Scopes(AllSaid(names, host, Split(header, ';')[1..])) == scopes
            && (Parsed(names, header, host, "/").None? <==> ReadScope(scopes).Refuse?)
            && (Parsed(names, header, host, "/").Some? ==>
                  Parsed(names, header, host, "/").value.domain == DomainFor(ReadScope(scopes), host))
  {
    KeysArePlain();
    SaidAsValue(names, host, "domain", first);
    SaidAsValue(names, host, "domain", second);
    HeaderSays(names, host, pair, Attribute("domain", first), Attribute("domain", second));
    TwoSaid(SaysDomain(Scope(names, first, host)), SaysDomain(Scope(names, second, host)));
    ParsedReadsScope(names, Header(pair, Attribute("domain", first), Attribute("domain", second)), host, "/");
  }

  lemma TwoMaxAges(names: Names, host: string, pair: string, first: string, second: string)
    requires ';' !in pair && Opened(pair, host, "/").Some? && IsValue(first) && IsValue(second)
    ensures var header := Header(pair, Attribute("max-age", first), Attribute("max-age", second));
            var ages := [ParseI64(first), ParseI64(second)];
            && Ages(AllSaid(names, host, Split(header, ';')[1..])) == ages
            && Parsed(names, header, host, "/").Some?
            && Parsed(names, header, host, "/").value.expires == Lifetime(ReadMaxAge(ages))
  {
    KeysArePlain();
    SaidAsValue(names, host, "max-age", first);
    SaidAsValue(names, host, "max-age", second);
    HeaderSays(names, host, pair, Attribute("max-age", first), Attribute("max-age", second));
    TwoSaid(SaysMaxAge(ParseI64(first)), SaysMaxAge(ParseI64(second)));
    ParsedReadsScope(names, Header(pair, Attribute("max-age", first), Attribute("max-age", second)), host, "/");
  }

  const NoNames := Names(_ => false, _ => false)

  lemma Values()
    ensures IsValue(".") && IsValue("b") && IsValue("c") && IsValue("5") && IsValue("x")
    ensures ParseI64("5") == Some(5) && ParseI64("x") == None
    ensures ';' !in "n=v" && Opened("n=v", "a.b", "/").Some?
  {
    assert "5"[..0] == "";
    assert "x"[0] in "x" && !IsDigit("x"[0]);
    SplitOnceAtFirst("n", "v", '=');
    assert "n=v" == "n" + "=" + "v";
  }

  lemma ScopesAt()
    ensures Scope(NoNames, "b", "a.b") == Widen(".b")
    ensures Scope(NoNames, ".", "a.b") == HostOnly
    ensures Scope(NoNames, "c", "a.b") == Refuse
  {
  }

  lemma TwoScopes(first: DomainScope, second: DomainScope)
    ensures ReadScope([first, second]) == if first.Refuse? || second.HostOnly? then first else second
    ensures IntendedScope([first, second]) == second
  {
    assert [first, second][..1] == [first] && ReadScope([first][..0]) == HostOnly;
  }

  /** Not read as meant: a `Domain` whose domain is empty does not undo an earlier widening one. */
  lemma DotDomainKeepsWidening() returns (names: Names, host: string, header: string)
    ensures host == "a.b" && header == Header("n=v", Attribute("domain", "b"), Attribute("domain", "."))
    ensures Parsed(names, header, host, "/").Some? && Parsed(names, header, host, "/").value.domain == ".b"
    ensures IntendedScope(Scopes(AllSaid(names, host, Split(header, ';')[1..]))) == HostOnly
  {
    names, host := NoNames, "a.b";
    var pair, first, second := "n=v", "b", ".";
    header := Header(pair, Attribute("domain", first), Attribute("domain", second));
    Values();
    ScopesAt();
    TwoDomains(names, host, pair, first, second);
    TwoScopes(Widen(".b"), HostOnly);
  }

  /** Not read as meant: a refused `Domain` drops the cookie although the last one is acceptable. */
  lemma RefusedDomainIsFinal() returns (names: Names, host: string, header: string)
    ensures host == "a.b" && header == Header("n=v", Attribute("domain", "c"), Attribute("domain", "b"))
    ensures Parsed(names, header, host, "/").None?
    ensures IntendedScope(Scopes(AllSaid(names, host, Split(header, ';')[1..]))) == Widen(".b")
  {
    names, host := NoNames, "a.b";
    var pair, first, second := "n=v", "c", "b";
    header := Header(pair, Attribute("domain", first), Attribute("domain", second));
    Values();
    ScopesAt();
    TwoDomains(names, host, pair, first, second);
    TwoScopes(Refuse, Widen(".b"));
  }

  /** Not read as meant: an unreadable `Max-Age` clears an earlier readable one. */
  lemma UnreadableMaxAgeClears() returns (names: Names, host: string, header: string)
    ensures host == "a.b" && header == Header("n=v", Attribute("max-age", "5"), Attribute("max-age", "x"))
    ensures Parsed(names, header, host, "/").Some? && Parsed(names, header, host, "/").value.expires == None
    ensures IntendedMaxAge(Ages(AllSaid(names, host, Split(header, ';')[1..]))) == Some(5)
  {
    names, host := NoNames, "a.b";
    var pair, first, second := "n=v", "5", "x";
    header := Header(pair, Attribute("max-age", first), Attribute("max-age", second));
    Values();
    TwoMaxAges(names, host, pair, first, second);
    assert [Some(5), None][..1] == [Some(5)];
  }
}
