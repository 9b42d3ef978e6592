/** A printer of `Set-Cookie` headers, and the theorem that `parse_set_cookie` of
    `src/identity.rs` undoes printing. */
module SetCookiePrinter {
  import opened Wrappers
  import opened Text
  import opened Cookies

  datatype Attribute =
    | Domain(domain: string)
    | Path(path: string)
    | MaxAge(seconds: int)
    | Secure
    | HttpOnly
    | SameSiteIs(policy: SameSite)

  function Key(a: Attribute): string {
    match a
    case Domain(_) => "Domain"
    case Path(_) => "Path"
    case MaxAge(_) => "Max-Age"
    case Secure => "Secure"
    case HttpOnly => "HttpOnly"
    case SameSiteIs(_) => "SameSite"
  }

  function Value(a: Attribute): string {
    match a
    case Domain(domain) => domain
    case Path(path) => path
    case MaxAge(seconds) => if seconds < 0 then "-" + Decimal(-seconds) else Decimal(seconds)
    case SameSiteIs(Strict) => "Strict"
    case SameSiteIs(Lax) => "Lax"
    case SameSiteIs(NoSameSite) => "None"
    case _ => ""
  }

  function PrintAttribute(a: Attribute): string {
    if a.Secure? || a.HttpOnly? then Key(a) else Key(a) + "=" + Value(a)
  }

  function PrintAttributes(attributes: seq<Attribute>): string {
    if attributes == [] then "" else "; " + PrintAttribute(attributes[0]) + PrintAttributes(attributes[1..])
  }

  function Print(name: string, value: string, attributes: seq<Attribute>): string {
    name + "=" + value + PrintAttributes(attributes)
  }

  /** What may be printed: nothing that separates, a domain the host may widen to without its
      dot, an absolute path, a lifetime of 64 bits. */
  ghost predicate Printable(names: Names, host: string, a: Attribute) {
    && Trimmed(Value(a)) && ';' !in Value(a)
    && match a
       case Domain(domain) => !StartsWith(domain, ".") && MayWiden(names, domain, host)
       case Path(path) => StartsWith(path, "/")
       case MaxAge(seconds) => -0x8000_0000_0000_0000 <= seconds < 0x8000_0000_0000_0000
       case _ => true
  }

  /** What one attribute means. */
  function MeantBy(d: Draft, a: Attribute): Draft {
    match a
    case Domain(domain) => d.(cookie := d.cookie.(domain := "." + domain))
    case Path(path) => d.(cookie := d.cookie.(path := path))
    case MaxAge(seconds) => d.(maxAge := Some(seconds))
    case Secure => d.(cookie := d.cookie.(secure := true))
    case HttpOnly => d.(cookie := d.cookie.(httpOnly := true))
    case SameSiteIs(policy) => d.(cookie := d.cookie.(sameSite := Some(policy)))
  }

  /** What a list of them means, one after another. */
  function Meant(d: Draft, attributes: seq<Attribute>): Draft
    decreases |attributes|
  {
    if attributes == [] then d else Meant(MeantBy(d, attributes[0]), attributes[1..])
  }

  // -- one attribute -----------------------------------------------------------------------

  /** The keys the code compares with, in lower case. */
  function CodeKey(a: Attribute): string {
    match a
    case Domain(_) => "domain"
    case Path(_) => "path"
    case MaxAge(_) => "max-age"
    case Secure => "secure"
    case HttpOnly => "httponly"
    case SameSiteIs(_) => "samesite"
  }

  lemma KeyIsPlain(a: Attribute)
    ensures '=' !in Key(a) && ';' !in Key(a) && Trimmed(Key(a))
  {
  }

  lemma KeyIsLowered(a: Attribute)
    ensures ToLower(Key(a)) == CodeKey(a)
  {
  }

  lemma BlankInFront(s: string)
    requires Trimmed(s)
    ensures Trim(" " + s) == s
  {
    assert (" " + s)[1..] == s;
    TrimLeavesTrimmed(s);
  }

  lemma ValuedReadsBack(key: string, value: string)
    requires Trimmed(key) && '=' !in key && Trimmed(value)
    ensures KeyValue(" " + (key + "=" + value)) == (ToLower(key), value)
  {
    SplitOnceAtFirst(" " + key, value, '=');
    assert " " + (key + "=" + value) == " " + key + "=" + value;
    BlankInFront(key);
    TrimLeavesTrimmed(value);
  }

  lemma FlagReadsBack(key: string)
    requires Trimmed(key) && '=' !in key
    ensures KeyValue(" " + key) == (ToLower(key), "")
  {
    SplitOnceSays(" " + key, '=');
    BlankInFront(key);
  }

  lemma AttributeReadsBack(a: Attribute)
    requires Trimmed(Value(a))
    ensures KeyValue(" " + PrintAttribute(a)) == (CodeKey(a), Value(a))
  {
    KeyIsPlain(a);
    KeyIsLowered(a);
    if a.Secure? || a.HttpOnly? {
      FlagReadsBack(Key(a));
    } else {
      ValuedReadsBack(Key(a), Value(a));
    }
  }

  lemma PlainTrimLeading(s: string)
    requires !StartsWith(s, ".")
    ensures TrimLeading(s, '.') == s
  {
    assert s != "" ==> s[..1] == [s[0]];
  }

  lemma AgeReadsBack(seconds: int)
    requires -0x8000_0000_0000_0000 <= seconds < 0x8000_0000_0000_0000
    ensures ParseI64(Value(MaxAge(seconds))) == Some(seconds)
  {
    DecimalReadsBack(if seconds < 0 then -seconds else seconds);
    if seconds < 0 {
      assert Value(MaxAge(seconds))[1..] == Decimal(-seconds);
    } else {
      assert IsDigit(Decimal(seconds)[0]);
    }
  }

  lemma PolicyReadsBack(policy: SameSite)
    ensures ParseSameSite(Value(SameSiteIs(policy))) == Some(policy)
  {
    assert ToLower("Strict") == "strict" && ToLower("Lax") == "lax" && ToLower("None") == "none";
  }

  /** Any other `SameSite` value sets no policy, whatever case it is written in. */
  lemma PolicyIff(value: string, policy: SameSite)
    ensures ParseSameSite(value) == Some(policy) <==> ToLower(value) == ToLower(Value(SameSiteIs(policy)))
  {
    assert ToLower("Strict") == "strict" && ToLower("Lax") == "lax" && ToLower("None") == "none";
  }

  lemma ApplyUndoesPrint(names: Names, d: Draft, a: Attribute, host: string)
    requires Printable(names, host, a)
    ensures ApplyAttribute(names, d, " " + PrintAttribute(a), host) == Some(MeantBy(d, a))
  {
    AttributeReadsBack(a);
    match a {
      case Domain(domain) =>
        PlainTrimLeading(domain);
        ScopeIff(names, domain, host);
      case MaxAge(seconds) => AgeReadsBack(seconds);
      case SameSiteIs(policy) => PolicyReadsBack(policy);
      case _ =>
    }
  }

  // -- the header ----------------------------------------------------------------------------

  function Parts(attributes: seq<Attribute>): (parts: seq<string>)
    ensures |parts| == |attributes|
  {
    seq(|attributes|, i requires 0 <= i < |attributes| => " " + PrintAttribute(attributes[i]))
  }

  lemma OneMoreAttribute(front: string, attributes: seq<Attribute>)
    requires attributes != []
    ensures ';' !in PrintAttribute(attributes[0]) ==> ';' !in " " + PrintAttribute(attributes[0])
    ensures front + PrintAttributes(attributes)
         == front + ";" + (" " + PrintAttribute(attributes[0]) + PrintAttributes(attributes[1..]))
  {
    var p, rest := PrintAttribute(attributes[0]), PrintAttributes(attributes[1..]);
    assert "; " + p + rest == ";" + (" " + p + rest);
    Associate(front, ";", " " + p + rest);
  }

  lemma PartsFirst(attributes: seq<Attribute>)
    requires attributes != []
    ensures Parts(attributes) == [" " + PrintAttribute(attributes[0])] + Parts(attributes[1..])
  {
  }

  lemma {:induction false} HeaderSplits(front: string, attributes: seq<Attribute>)
    requires ';' !in front && forall a <- attributes :: ';' !in PrintAttribute(a)
    ensures Split(front + PrintAttributes(attributes), ';') == [front] + Parts(attributes)
    decreases |attributes|
  {
    if attributes == [] {
      assert front + "" == front;
      SplitWithout(front, ';');
    } else {
      var next := " " + PrintAttribute(attributes[0]);
      var back := next + PrintAttributes(attributes[1..]);
      OneMoreAttribute(front, attributes);
      HeaderSplits(next, attributes[1..]);
      PartsFirst(attributes);
      SplitsAs(front, back, Parts(attributes));
    }
  }

  lemma ApplyFirst(names: Names, d: Draft, part: string, rest: seq<string>, host: string, next: Draft)
    requires ApplyAttribute(names, d, part, host) == Some(next)
    ensures ApplyAttributes(names, d, [part] + rest, host) == ApplyAttributes(names, next, rest, host)
  {
    assert ([part] + rest)[1..] == rest;
  }

  lemma {:induction false} ApplyAllUndoesPrint(names: Names, d: Draft, attributes: seq<Attribute>, host: string)
    requires forall a <- attributes :: Printable(names, host, a)
    ensures ApplyAttributes(names, d, Parts(attributes), host) == Some(Meant(d, attributes))
    decreases |attributes|
  {
    if attributes != [] {
      var first, rest, next := attributes[0], attributes[1..], MeantBy(d, attributes[0]);
      ApplyUndoesPrint(names, d, first, host);
      PartsFirst(attributes);
      ApplyFirst(names, d, " " + PrintAttribute(first), Parts(rest), host, next);
      ApplyAllUndoesPrint(names, next, rest, host);
    }
  }

  lemma PrintedHasNoSemicolon(names: Names, host: string, a: Attribute)
    requires Printable(names, host, a)
    ensures ';' !in PrintAttribute(a)
  {
    KeyIsPlain(a);
  }

  /** Parsing undoes printing: for every name and value, and every list of attributes in any order
      and repeated, the cookie is the one meant, host-only and of the default path where nothing
      else is said, and a lifetime that is not positive has expired. */
  lemma ParseUndoesPrint(
    names: Names, name: string, value: string, attributes: seq<Attribute>, host: string, path: string)
    requires name != "" && Trimmed(name) && '=' !in name && ';' !in name
    requires Trimmed(value) && ';' !in value
    requires forall a <- attributes :: Printable(names, host, a)
    ensures var plain := Cookie(name, value, ToLower(host), DefaultPath(path), None, false, false, None);
            var meant := Meant(Draft(plain, None), attributes);
            Parsed(names, Print(name, value, attributes), host, path) == Some(
              meant.cookie.(expires := match meant.maxAge
                                       case None => None
                                       case Some(seconds) => Some(if seconds > 0 then seconds else 0)))
  {
    var front := name + "=" + value;
    forall a <- attributes
      ensures ';' !in PrintAttribute(a)
    {
      PrintedHasNoSemicolon(names, host, a);
    }
    HeaderSplits(front, attributes);
    SplitOnceAtFirst(name, value, '=');
    TrimLeavesTrimmed(name);
    TrimLeavesTrimmed(value);
    var plain := Cookie(name, value, ToLower(host), DefaultPath(path), None, false, false, None);
    assert ([front] + Parts(attributes))[1..] == Parts(attributes);
    ApplyAllUndoesPrint(names, Draft(plain, None), attributes, host);
  }
}
