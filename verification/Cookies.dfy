/** The cookie half of `src/identity.rs`: matching, `Set-Cookie` parsing,
    rendering, and where a cookie may travel. */
module Cookies {
  import opened Wrappers
  import opened Text

  datatype SameSite = Strict | Lax | NoSameSite

  datatype Cookie = Cookie(
    name: string,
    value: string,
    domain: string,
    path: string,
    expires: Option<nat>,
    secure: bool,
    httpOnly: bool,
    sameSite: Option<SameSite>)
  {
    predicate IsExpired(now: nat) {
      expires.Some? && expires.value <= now
    }

    function Remaining(now: nat): Option<nat> {
      match expires
      case None => None
      case Some(at) => Some(if at >= now then at - now else 0)
    }
  }

  /** What the code looks up elsewhere: the Public Suffix List and address syntax. */
  datatype Names = Names(isPublicSuffix: string -> bool, isAddress: string -> bool)

  // -- matching ----------------------------------------------------------------------

  function Normalised(host: string): string {
    ToLower(TrimEnd(host, '.'))
  }

  predicate DomainMatches(cookieDomain: string, host: string) {
    if StartsWith(cookieDomain, ".") then
      var suffix := ToLower(cookieDomain[1..]);
      Normalised(host) == suffix || EndsWith(Normalised(host), "." + suffix)
    else Normalised(host) == ToLower(cookieDomain)
  }

  predicate PathMatches(cookiePath: string, requestPath: string) {
    if cookiePath == "" || cookiePath == "/" then true
    else
      var trimmed := TrimEnd(cookiePath, '/');
      || requestPath == trimmed
      || (StartsWith(requestPath, trimmed) && StartsWith(requestPath[|trimmed|..], "/"))
  }

  predicate CookieApplies(cookie: Cookie, secure: bool, host: string, path: string) {
    (cookie.secure ==> secure) && DomainMatches(cookie.domain, host) && PathMatches(cookie.path, path)
  }

  // -- scoping -----------------------------------------------------------------------

  datatype DomainScope = Widen(domain: string) | HostOnly | Refuse

  function Scope(names: Names, value: string, host: string): DomainScope {
    var domain := ToLower(TrimLeading(value, '.'));
    var requestHost := Normalised(host);
    if domain == "" then HostOnly
    else if names.isAddress(requestHost) || names.isPublicSuffix(domain) then
      if domain == requestHost then HostOnly else Refuse
    else if DomainMatches("." + domain, host) then Widen("." + domain)
    else Refuse
  }

  function DefaultPath(requestPath: string): string {
    if !StartsWith(requestPath, "/") then "/"
    else match LastIndex(requestPath, '/')
         case None => "/"
         case Some(index) => if index == 0 then "/" else requestPath[..index]
  }

  // -- parsing Set-Cookie --------------------------------------------------------------

  /** A cookie while its attributes are being read. */
  datatype Draft = Draft(cookie: Cookie, maxAge: Option<int>)

  function KeyValue(attribute: string): (string, string) {
    match SplitOnce(attribute, '=')
    case Some((k, v)) => (ToLower(Trim(k)), Trim(v))
    case None => (ToLower(Trim(attribute)), "")
  }

  function ParseSameSite(value: string): Option<SameSite> {
    var v := ToLower(value);
    if v == "strict" then Some(Strict)
    else if v == "lax" then Some(Lax)
    else if v == "none" then Some(NoSameSite)
    else None
  }

  /** One attribute; `None` when it makes the whole cookie refused. */
  function ApplyAttribute(names: Names, draft: Draft, attribute: string, host: string): Option<Draft> {
    var (key, value) := KeyValue(attribute);
    var cookie := draft.cookie;
    if key == "domain" then
      match Scope(names, value, host)
      case Widen(domain) => Some(draft.(cookie := cookie.(domain := domain)))
      case HostOnly => Some(draft)
      case Refuse => None
    else if key == "path" && StartsWith(value, "/") then Some(draft.(cookie := cookie.(path := value)))
    else if key == "max-age" then Some(draft.(maxAge := ParseI64(value)))
    else if key == "secure" then Some(draft.(cookie := cookie.(secure := true)))
    else if key == "httponly" then Some(draft.(cookie := cookie.(httpOnly := true)))
    else if key == "samesite" then Some(draft.(cookie := cookie.(sameSite := ParseSameSite(value))))
    else Some(draft)
  }

  function ApplyAttributes(names: Names, draft: Draft, attributes: seq<string>, host: string): Option<Draft>
    decreases |attributes|
  {
    if attributes == [] then Some(draft)
    else match ApplyAttribute(names, draft, attributes[0], host)
         case None => None
         case Some(next) => ApplyAttributes(names, next, attributes[1..], host)
  }

  function Lifetime(maxAge: Option<int>): Option<nat> {
    match maxAge
    case None => None
    case Some(seconds) => Some(if seconds <= 0 then 0 else seconds)
  }

  /** The cookie a header opens, before any attribute: host-only, default path. */
  function Opened(pair: string, host: string, path: string): Option<Cookie> {
    match SplitOnce(pair, '=')
    case None => None
    case Some((name, value)) =>
      if Trim(name) == "" then None
      else Some(Cookie(Trim(name), Trim(value), ToLower(host), DefaultPath(path), None, false, false, None))
  }

  function Parsed(names: Names, header: string, host: string, path: string): Option<Cookie> {
    var parts := Split(header, ';');
    match Opened(parts[0], host, path)
    case None => None
    case Some(cookie) =>
      match ApplyAttributes(names, Draft(cookie, None), parts[1..], host)
      case None => None
      case Some(draft) => Some(draft.cookie.(expires := Lifetime(draft.maxAge)))
  }

  method ParseSetCookie(names: Names, header: string, host: string, path: string) returns (r: Option<Cookie>)
    ensures r == Parsed(names, header, host, path)
  {
    var parts := Split(header, ';');
    var pair := SplitOnce(parts[0], '=');
    if pair.None? {
      return None;
    }
    var name := Trim(pair.value.0);
    if name == "" {
      return None;
    }
    var cookie := Cookie(name, Trim(pair.value.1), ToLower(host), DefaultPath(path), None, false, false, None);
    var maxAge: Option<int> := None;
    ghost var expected := ApplyAttributes(names, Draft(cookie, maxAge), parts[1..], host);

    var i := 1;
    while i < |parts|
      invariant 1 <= i <= |parts|
      invariant expected == ApplyAttributes(names, Draft(cookie, maxAge), parts[i..], host)
    {
      assert parts[i..][0] == parts[i] && parts[i..][1..] == parts[i + 1..];
      var (key, value) := KeyValue(parts[i]);
      if key == "domain" {
        match Scope(names, value, host) {
          case Widen(domain) => cookie := cookie.(domain := domain);
          case HostOnly =>
          case Refuse => return None;
        }
      } else if key == "path" && StartsWith(value, "/") {
        cookie := cookie.(path := value);
      } else if key == "max-age" {
        maxAge := ParseI64(value);
      } else if key == "secure" {
        cookie := cookie.(secure := true);
      } else if key == "httponly" {
        cookie := cookie.(httpOnly := true);
      } else if key == "samesite" {
        cookie := cookie.(sameSite := ParseSameSite(value));
      }
      i := i + 1;
    }
    r := Some(cookie.(expires := Lifetime(maxAge)));
  }

  /** Resolves a relative lifetime against `now`. */
  function Anchored(cookie: Cookie, now: nat): Cookie {
    match cookie.expires
    case None => cookie
    case Some(seconds) => cookie.(expires := Some(if seconds == 0 then 0 else now + seconds))
  }

  /** A lifetime of zero is expired at every instant, whatever the clock does; any other lives
      exactly its seconds. */
  lemma AnchoredLives(cookie: Cookie, now: nat, later: nat)
    ensures Anchored(cookie, now).IsExpired(later)
       <==> cookie.expires.Some? && (cookie.expires.value == 0 || now + cookie.expires.value <= later)
  {
  }

  /** A header opens no cookie exactly when it has no `=`, or only white space before the first. */
  lemma OpenedIff(pair: string, host: string, path: string)
    ensures Opened(pair, host, path).None? <==>
              '=' !in pair || exists before, after :: pair == before + "=" + after && AllPadding(before)
  {
    SplitOnceSays(pair, '=');
    if '=' in pair {
      var (name, value) := SplitOnce(pair, '=').value;
      var front, back := TrimSays(name);
      if Trim(name) == "" {
        assert name == front + back && AllPadding(name);
        assert pair == name + "=" + value;
      }
      if before, after :| pair == before + "=" + after && AllPadding(before) {
        SplitOnceAtFirst(before, after, '=');
        assert name == before;
        NothingLeft(name);
      }
    }
  }

  // -- what a header says, attribute by attribute ---------------------------------------

  datatype Field = DomainField | PathField | MaxAgeField | SecureField | HttpOnlyField | SameSiteField | NoField

  /** An attribute, by the field it sets and the value it gives. */
  datatype Reading = Reading(field: Field, value: string)

  /** A path counts only if absolute, a domain only if the host may widen to it. */
  function FieldOf(names: Names, host: string, key: string, value: string): Field {
    if key == "domain" then if Scope(names, value, host).Widen? then DomainField else NoField
    else if key == "path" then if StartsWith(value, "/") then PathField else NoField
    else if key == "max-age" then MaxAgeField
    else if key == "secure" then SecureField
    else if key == "httponly" then HttpOnlyField
    else if key == "samesite" then SameSiteField
    else NoField
  }

  function Readings(names: Names, host: string, attributes: seq<string>): (r: seq<Reading>)
    ensures |r| == |attributes|
  {
    if attributes == [] then []
    else
      var (key, value) := KeyValue(attributes[0]);
      [Reading(FieldOf(names, host, key, value), value)] + Readings(names, host, attributes[1..])
  }

  predicate Refused(names: Names, host: string, attribute: string) {
    KeyValue(attribute).0 == "domain" && Scope(names, KeyValue(attribute).1, host).Refuse?
  }

  /** The value of the last reading of a field. */
  function LastOf(readings: seq<Reading>, field: Field): Option<string> {
    if readings == [] then None
    else if readings[|readings| - 1].field == field then Some(readings[|readings| - 1].value)
    else LastOf(readings[..|readings| - 1], field)
  }

  lemma {:induction false} LastOfIsLast(readings: seq<Reading>, field: Field)
    ensures match LastOf(readings, field)
            case None => forall x <- readings :: x.field != field
            case Some(v) =>
              exists i :: && 0 <= i < |readings| && readings[i] == Reading(field, v)
                          && forall j :: i < j < |readings| ==> readings[j].field != field
  {
    if readings != [] {
      var last := readings[|readings| - 1];
      if last.field == field {
        assert last == Reading(field, last.value);
      } else {
        LastOfIsLast(readings[..|readings| - 1], field);
      }
    }
  }

  function Widened(value: string): string {
    "." + ToLower(TrimLeading(value, '.'))
  }

  function SetField(d: Draft, r: Reading): Draft {
    match r.field
    case DomainField => d.(cookie := d.cookie.(domain := Widened(r.value)))
    case PathField => d.(cookie := d.cookie.(path := r.value))
    case MaxAgeField => d.(maxAge := ParseI64(r.value))
    case SecureField => d.(cookie := d.cookie.(secure := true))
    case HttpOnlyField => d.(cookie := d.cookie.(httpOnly := true))
    case SameSiteField => d.(cookie := d.cookie.(sameSite := ParseSameSite(r.value)))
    case NoField => d
  }

  function SetFields(d: Draft, readings: seq<Reading>): Draft {
    if readings == [] then d
    else SetField(SetFields(d, readings[..|readings| - 1]), readings[|readings| - 1])
  }

  lemma AttributeSetsField(names: Names, before: Draft, attribute: string, host: string)
    ensures var (key, value) := KeyValue(attribute);
            ApplyAttribute(names, before, attribute, host) ==
            if Refused(names, host, attribute) then None
            else Some(SetField(before, Reading(FieldOf(names, host, key, value), value)))
  {
    var (key, value) := KeyValue(attribute);
    if key == "domain" {
      assert key != "path" && key != "max-age";
    } else if key == "path" {
      assert key != "max-age" && key != "secure" && key != "httponly" && key != "samesite";
    }
  }

  lemma {:induction false} SetFieldsFirst(d: Draft, r: Reading, rest: seq<Reading>)
    ensures SetFields(d, [r] + rest) == SetFields(SetField(d, r), rest)
  {
    var all := [r] + rest;
    if rest == [] {
      assert all[..0] == [];
    } else {
      assert all[..|all| - 1] == [r] + rest[..|rest| - 1];
      SetFieldsFirst(d, r, rest[..|rest| - 1]);
    }
  }

  lemma {:induction false} AttributesSetFields(names: Names, host: string, attributes: seq<string>, before: Draft)
    ensures ApplyAttributes(names, before, attributes, host).None? <==> exists a <- attributes :: Refused(names, host, a)
    ensures ApplyAttributes(names, before, attributes, host).Some? ==>
              ApplyAttributes(names, before, attributes, host).value == SetFields(before, Readings(names, host, attributes))
    decreases |attributes|
  {
    if attributes != [] {
      assert attributes == [attributes[0]] + attributes[1..];
      AttributeSetsField(names, before, attributes[0], host);
      var next := ApplyAttribute(names, before, attributes[0], host);
      if next.Some? {
        AttributesSetFields(names, host, attributes[1..], next.value);
        SetFieldsFirst(before, Readings(names, host, attributes)[0], Readings(names, host, attributes[1..]));
      } else {
        assert Refused(names, host, attributes[0]);
      }
    }
  }

  ghost predicate ScopeReadsAs(readings: seq<Reading>, before: Cookie, after: Cookie) {
    var domain, path := LastOf(readings, DomainField), LastOf(readings, PathField);
    && after.name == before.name && after.value == before.value && after.expires == before.expires
    && after.domain == (if domain.Some? then Widened(domain.value) else before.domain)
    && after.path == (if path.Some? then path.value else before.path)
  }

  ghost predicate FlagsReadAs(readings: seq<Reading>, before: Draft, after: Draft) {
    var maxAge, sameSite := LastOf(readings, MaxAgeField), LastOf(readings, SameSiteField);
    && after.cookie.secure == (before.cookie.secure || LastOf(readings, SecureField).Some?)
    && after.cookie.httpOnly == (before.cookie.httpOnly || LastOf(readings, HttpOnlyField).Some?)
    && after.cookie.sameSite == (if sameSite.Some? then ParseSameSite(sameSite.value) else before.cookie.sameSite)
    && after.maxAge == (if maxAge.Some? then ParseI64(maxAge.value) else before.maxAge)
  }

  /** Each field on its own: as the last reading of it says, or as it was. */
  ghost predicate ReadsAs(readings: seq<Reading>, before: Draft, after: Draft) {
    ScopeReadsAs(readings, before.cookie, after.cookie) && FlagsReadAs(readings, before, after)
  }

  lemma ScopeReadsOneMore(readings: seq<Reading>, before: Cookie, after: Draft)
    requires readings != [] && ScopeReadsAs(readings[..|readings| - 1], before, after.cookie)
    ensures ScopeReadsAs(readings, before, SetField(after, readings[|readings| - 1]).cookie)
  {
  }

  lemma FlagsReadOneMore(readings: seq<Reading>, before: Draft, after: Draft)
    requires readings != [] && FlagsReadAs(readings[..|readings| - 1], before, after)
    ensures FlagsReadAs(readings, before, SetField(after, readings[|readings| - 1]))
  {
  }

  lemma {:induction false} FieldsReadAs(readings: seq<Reading>, before: Draft)
    ensures ReadsAs(readings, before, SetFields(before, readings))
  {
    if readings != [] {
      var earlier := readings[..|readings| - 1];
      FieldsReadAs(earlier, before);
      ScopeReadsOneMore(readings, before.cookie, SetFields(before, earlier));
      FlagsReadOneMore(readings, before, SetFields(before, earlier));
    }
  }

  /** What a `Set-Cookie` header means: it is dropped exactly when it has no name or claims
      a domain the host is not entitled to; otherwise its name and value open it, and each
      field is as the last attribute that sets it says, `Max-Age` deciding the lifetime. */
  lemma ParsedReadsHeader(names: Names, header: string, host: string, path: string)
    ensures var parts := Split(header, ';');
            Parsed(names, header, host, path).None? <==>
              Opened(parts[0], host, path).None? || exists a <- parts[1..] :: Refused(names, host, a)
    ensures var parts := Split(header, ';');
            Parsed(names, header, host, path).Some? ==>
              var before := Draft(Opened(parts[0], host, path).value, None);
              exists after: Draft ::
                && ReadsAs(Readings(names, host, parts[1..]), before, after)
                && Parsed(names, header, host, path).value == after.cookie.(expires := Lifetime(after.maxAge))
  {
    var parts := Split(header, ';');
    if Opened(parts[0], host, path).Some? {
      var before := Draft(Opened(parts[0], host, path).value, None);
      AttributesSetFields(names, host, parts[1..], before);
      FieldsReadAs(Readings(names, host, parts[1..]), before);
    }
  }

  // -- what an attribute list can do to a draft --------------------------------------------

  ghost predicate SetsPath(attribute: string) {
    var (key, value) := KeyValue(attribute);
    key == "path" && StartsWith(value, "/")
  }

  /** A domain `host` may scope a cookie to: not a public suffix, not for an address, and its own. */
  ghost predicate MayWiden(names: Names, domain: string, host: string) {
    && domain != ""
    && !names.isPublicSuffix(domain) && !names.isAddress(Normalised(host))
    && domain == ToLower(domain)
    && IsSuffix(Labels(domain), Labels(Normalised(host)))
  }

  /** How a cookie's domain may relate to the host that set it. */
  ghost predicate Entitled(names: Names, domain: string, host: string) {
    || domain == ToLower(host)
    || (StartsWith(domain, ".") && MayWiden(names, domain[1..], host))
  }

  lemma ToLowerIdempotent(s: string)
    ensures ToLower(ToLower(s)) == ToLower(s)
  {
  }

  /** A widened domain matches exactly the hosts under it, label by label. */
  lemma DomainMatchesIff(domain: string, host: string)
    ensures DomainMatches("." + domain, host) <==> IsSuffix(Labels(ToLower(domain)), Labels(Normalised(host)))
  {
    assert ("." + domain)[1..] == domain;
    DomainSuffixIsLabelSuffix(Normalised(host), ToLower(domain));
  }

  /** What one `Domain` value comes to, exactly: it widens to a domain the host may widen to; an
      empty one, and the host itself where no host may widen, keep the host; others are refused. */
  lemma ScopeIff(names: Names, value: string, host: string)
    ensures var domain := ToLower(TrimLeading(value, '.'));
            && (Scope(names, value, host).Widen? <==> MayWiden(names, domain, host))
            && (Scope(names, value, host).Widen? ==> Scope(names, value, host).domain == "." + domain)
            && (Scope(names, value, host).HostOnly? <==>
                  domain == "" || (domain == Normalised(host)
                                   && (names.isAddress(Normalised(host)) || names.isPublicSuffix(domain))))
  {
    var domain := ToLower(TrimLeading(value, '.'));
    ToLowerIdempotent(TrimLeading(value, '.'));
    DomainMatchesIff(domain, host);
  }

  lemma WidenIsEntitled(names: Names, value: string, host: string)
    requires Scope(names, value, host).Widen?
    ensures Entitled(names, Scope(names, value, host).domain, host)
    ensures DomainMatches(Scope(names, value, host).domain, host)
  {
    var domain := ToLower(TrimLeading(value, '.'));
    ToLowerIdempotent(TrimLeading(value, '.'));
    var widened := Scope(names, value, host).domain;
    assert widened == "." + domain && widened[1..] == domain && ToLower(domain) == domain;
    DomainSuffixIsLabelSuffix(Normalised(host), domain);
  }

  lemma {:induction false} ReadingsScope(names: Names, host: string, attributes: seq<string>, r: Reading)
    requires r in Readings(names, host, attributes)
    ensures r.field == DomainField ==> Scope(names, r.value, host) == Widen(Widened(r.value))
    ensures r.field == PathField ==> exists a <- attributes :: SetsPath(a)
  {
    var (key, value) := KeyValue(attributes[0]);
    if r == Reading(FieldOf(names, host, key, value), value) {
      assert r.field == PathField ==> SetsPath(attributes[0]);
    } else {
      ReadingsScope(names, host, attributes[1..], r);
    }
  }

  /** A parsed cookie is scoped to its own host or to a domain that host may widen to; a
      widened one matches the host; without a Path attribute it has the default path. */
  lemma ParsedScope(names: Names, header: string, host: string, path: string)
    requires Parsed(names, header, host, path).Some?
    ensures var c := Parsed(names, header, host, path).value;
            && Entitled(names, c.domain, host)
            && (DomainMatches(ToLower(host), host) ==> DomainMatches(c.domain, host))
            && ((forall a <- Split(header, ';')[1..] :: !SetsPath(a)) ==> c.path == DefaultPath(path))
  {
    var attributes := Split(header, ';')[1..];
    var readings := Readings(names, host, attributes);
    ParsedReadsHeader(names, header, host, path);
    LastOfIsLast(readings, DomainField);
    LastOfIsLast(readings, PathField);
    var domain, itsPath := LastOf(readings, DomainField), LastOf(readings, PathField);
    if domain.Some? {
      ReadingsScope(names, host, attributes, Reading(DomainField, domain.value));
      WidenIsEntitled(names, domain.value, host);
    }
    if itsPath.Some? {
      ReadingsScope(names, host, attributes, Reading(PathField, itsPath.value));
    }
  }

  // -- provenance -----------------------------------------------------------------------------

  /** A host-only cookie goes back to its own host alone, if that has no leading dot. */
  lemma HostOnlyStaysHome(host: string, other: string)
    requires !StartsWith(host, ".")
    ensures DomainMatches(ToLower(host), other) <==> Normalised(other) == ToLower(host)
  {
    ToLowerIdempotent(host);
    assert host != "" ==> ToLower(host)[0] == LowerChar(host[0]);
  }

  ghost predicate LeadingDotOnly(host: string) {
    StartsWith(host, ".") && !EndsWith(host[1..], ".")
  }

  ghost predicate HostOnlyIsExact(host: string) {
    forall other :: DomainMatches(ToLower(host), other) ==> Normalised(other) == ToLower(host)
  }

  predicate EndsIn(s: string, c: char) {
    s != "" && s[|s| - 1] == c
  }

  lemma EndingCharacter(s: string, p: string)
    requires p != "" && EndsWith(s, p)
    ensures EndsIn(s, p[|p| - 1])
  {
    assert s[|s| - |p|..][|p| - 1] == s[|s| - 1];
  }

  lemma NormalisedHasNoTrailingDot(host: string)
    ensures !EndsIn(Normalised(host), '.')
  {
    var trimmed, n := TrimEnd(host, '.'), Normalised(host);
    assert n != "" ==> n[|n| - 1] == LowerChar(trimmed[|n| - 1]);
  }

  lemma TrailingDotMatchesNothing(host: string, other: string)
    requires StartsWith(host, ".") && EndsWith(host[1..], ".")
    ensures !DomainMatches(ToLower(host), other)
  {
    var n := Normalised(other);
    var suffix := ToLower(ToLower(host)[1..]);
    EndingCharacter(host[1..], ".");
    assert EndsIn(suffix, '.') && EndsIn("." + suffix, '.');
    NormalisedHasNoTrailingDot(other);
    if EndsWith(n, "." + suffix) {
      EndingCharacter(n, "." + suffix);
      assert false;
    }
  }

  lemma TrimEndFixpoint(s: string, c: char)
    ensures TrimEnd(s, c) == s <==> !EndsWith(s, [c])
  {
    if EndsWith(s, [c]) {
      assert s[|s| - 1] == c;
    } else if s != "" {
      assert s[|s| - 1..] == [s[|s| - 1]];
    }
  }

  lemma LeadingDotLeaks(host: string)
    requires LeadingDotOnly(host)
    ensures DomainMatches(ToLower(host), host[1..]) && Normalised(host[1..]) != ToLower(host)
  {
    TrimEndFixpoint(host[1..], '.');
    ToLowerIdempotent(host[1..]);
    assert ToLower(host)[1..] == ToLower(host[1..]);
  }

  /** The domain stored for a host with a leading dot reads back as a widened one, so the
      exceptions are exactly the hosts that begin with a dot and do not end in one. */
  lemma HostOnlyExactIff(host: string)
    ensures HostOnlyIsExact(host) <==> !LeadingDotOnly(host)
  {
    if LeadingDotOnly(host) {
      LeadingDotLeaks(host);
    } else {
      forall other | DomainMatches(ToLower(host), other)
        ensures Normalised(other) == ToLower(host)
      {
        if StartsWith(host, ".") {
          TrailingDotMatchesNothing(host, other);
        } else {
          HostOnlyStaysHome(host, other);
        }
      }
    }
  }

  /** A cookie entitled to its domain by `host` is sent to `other` only if
      `other` is that host, or both are under the widened domain. */
  lemma SentOnlyWhereEntitled(names: Names, domain: string, host: string, other: string)
    requires !StartsWith(host, ".") && Entitled(names, domain, host) && DomainMatches(domain, other)
    ensures || (domain == ToLower(host) && Normalised(other) == domain)
            || (&& StartsWith(domain, ".") && MayWiden(names, domain[1..], host)
                && IsSuffix(Labels(domain[1..]), Labels(Normalised(other))))
  {
    if domain == ToLower(host) {
      HostOnlyStaysHome(host, other);
    } else {
      DomainSuffixIsLabelSuffix(Normalised(other), domain[1..]);
    }
  }

  // -- path matching and its standard ------------------------------------------------------

  /** Path matching as section 5.1.4 of RFC 6265 has it. */
  predicate StandardPathMatches(cookiePath: string, requestPath: string) {
    || requestPath == cookiePath
    || (StartsWith(requestPath, cookiePath)
        && (EndsWith(cookiePath, "/") || StartsWith(requestPath[|cookiePath|..], "/")))
  }

  /** What the code matches: as the standard, once the slashes the cookie's path ends in are gone. */
  lemma MatchesAsTrimmedStandard(cookiePath: string, requestPath: string)
    requires cookiePath != "" && cookiePath != "/"
    ensures PathMatches(cookiePath, requestPath) <==> StandardPathMatches(TrimEnd(cookiePath, '/'), requestPath)
  {
  }

  /** Nothing the standard would send is withheld. */
  lemma StandardMatchesAreKept(cookiePath: string, requestPath: string)
    requires StartsWith(cookiePath, "/") && StandardPathMatches(cookiePath, requestPath)
    ensures PathMatches(cookiePath, requestPath)
  {
    var trimmed := TrimEnd(cookiePath, '/');
    if |trimmed| < |cookiePath| {
      assert requestPath[|trimmed|] == cookiePath[|trimmed|] == '/';
      assert requestPath[|trimmed|..][..1] == "/";
    }
  }

  ghost predicate MatchesAsStandard(cookiePath: string) {
    forall requestPath :: StartsWith(requestPath, "/") ==>
      (PathMatches(cookiePath, requestPath) <==> StandardPathMatches(cookiePath, requestPath))
  }

  /** A path that ends in a slash also matches the request without it, as it should not. */
  lemma TrimmedPathMatchesMore(cookiePath: string) returns (requestPath: string)
    requires StartsWith(cookiePath, "/") && EndsWith(cookiePath, "/") && cookiePath != "/"
    ensures StartsWith(requestPath, "/")
    ensures PathMatches(cookiePath, requestPath) && !StandardPathMatches(cookiePath, requestPath)
  {
    var trimmed := TrimEnd(cookiePath, '/');
    requestPath := if trimmed == "" then "/" else trimmed;
    assert |requestPath| < |cookiePath|;
  }

  /** The code matches paths as the standard does exactly for cookie paths that do not
      end in a slash, and for the root. */
  lemma MatchesAsStandardIff(cookiePath: string)
    requires StartsWith(cookiePath, "/")
    ensures MatchesAsStandard(cookiePath) <==> cookiePath == "/" || !EndsWith(cookiePath, "/")
  {
    if EndsWith(cookiePath, "/") && cookiePath != "/" {
      var requestPath := TrimmedPathMatchesMore(cookiePath);
    } else if cookiePath != "/" {
      assert cookiePath[|cookiePath| - 1..] == [cookiePath[|cookiePath| - 1]];
      assert TrimEnd(cookiePath, '/') == cookiePath;
    }
  }

  // -- a set cookie comes back -------------------------------------------------------------------

  /** The default path of a request always covers the request. */
  lemma DefaultPathCovers(path: string)
    ensures PathMatches(DefaultPath(path), path)
  {
  }

  /** The default path is the directory of the request: what precedes its last slash, or the root. */
  lemma DefaultPathIsDirectory(dir: string, leaf: string)
    requires '/' !in leaf && (dir == "" || StartsWith(dir, "/"))
    ensures DefaultPath(dir + "/" + leaf) == if dir == "" then "/" else dir
  {
    var path := dir + "/" + leaf;
    assert path[|dir|] == '/' && forall i :: |dir| < i < |path| ==> path[i] == leaf[i - |dir| - 1];
    assert LastIndex(path, '/') == Some(|dir|);
    assert path[..1] == "/";
  }

  lemma RelativePathDefaultsToRoot(path: string)
    requires !StartsWith(path, "/")
    ensures DefaultPath(path) == "/"
  {
  }

  /** A cookie of that path goes to the directory and below, and nowhere else. */
  lemma DirectoryIsAllItMatches(dir: string, leaf: string, later: string)
    requires '/' !in leaf && (dir == "" || StartsWith(dir, "/")) && !EndsWith(dir, "/")
    ensures PathMatches(DefaultPath(dir + "/" + leaf), later) <==>
              dir == "" || later == dir || StartsWith(later, dir + "/")
  {
    DefaultPathIsDirectory(dir, leaf);
    if dir != "" {
      TrimEndFixpoint(dir, '/');
      assert StartsWith(later, dir) ==> later == dir + later[|dir|..];
      assert StartsWith(later, dir + "/") ==> later[|dir|..][0] == '/';
    }
  }

  /** Path matching composes along absolute request paths. */
  lemma PathMatchesTransitive(cookiePath: string, middle: string, requestPath: string)
    requires StartsWith(middle, "/") && StartsWith(requestPath, "/")
    requires PathMatches(cookiePath, middle) && PathMatches(middle, requestPath)
    ensures PathMatches(cookiePath, requestPath)
  {
  }

  /** A host-only cookie comes back to its host exactly when the host has no trailing dot. */
  lemma HostOnlyReturnsIff(host: string)
    requires !StartsWith(host, ".")
    ensures DomainMatches(ToLower(host), host) <==> !EndsWith(host, ".")
  {
    HostOnlyStaysHome(host, host);
    TrimEndFixpoint(host, '.');
    if EndsWith(host, ".") {
      assert |Normalised(host)| < |host|;
    }
  }

  /** A cookie accepted without a Path attribute stays in the directory of the request it answered. */
  lemma SetWithoutPathStaysInDirectory(
    names: Names, header: string, host: string, dir: string, leaf: string,
    secure: bool, other: string, later: string)
    requires '/' !in leaf && (dir == "" || StartsWith(dir, "/")) && !EndsWith(dir, "/")
    requires Parsed(names, header, host, dir + "/" + leaf).Some?
    requires forall a <- Split(header, ';')[1..] :: !SetsPath(a)
    requires CookieApplies(Parsed(names, header, host, dir + "/" + leaf).value, secure, other, later)
    ensures dir == "" || later == dir || StartsWith(later, dir + "/")
  {
    ParsedScope(names, header, host, dir + "/" + leaf);
    DirectoryIsAllItMatches(dir, leaf, later);
  }

  /** A cookie accepted without a Path attribute is sent back, while it lives, to
      the same host and path and to every absolute path under it. */
  lemma SetThenSend(
    names: Names, header: string, host: string, path: string,
    secure: bool, later: string)
    requires !StartsWith(host, ".") && !EndsWith(host, ".")
    requires Parsed(names, header, host, path).Some?
    requires forall a <- Split(header, ';')[1..] :: !SetsPath(a)
    requires Parsed(names, header, host, path).value.secure ==> secure
    requires later == path || (StartsWith(path, "/") && StartsWith(later, "/") && PathMatches(path, later))
    ensures CookieApplies(Parsed(names, header, host, path).value, secure, host, later)
  {
    var cookie := Parsed(names, header, host, path).value;
    ParsedScope(names, header, host, path);
    HostOnlyReturnsIff(host);
    DefaultPathCovers(path);
    if later != path {
      PathMatchesTransitive(cookie.path, path, later);
    }
  }
}
