/** The shared jar: `absorb_cookies` of `src/http_scraper.rs` and `cookie_header`
    of `src/identity.rs`, and what they keep over every run. */
module CookieJar {
  import opened Wrappers
  import opened Text
  import opened Cookies

  type Jar = seq<Cookie>

  /** The triple that identifies a cookie. */
  datatype Key = Key(name: string, domain: string, path: string)

  function KeyOf(c: Cookie): Key {
    Key(c.name, c.domain, c.path)
  }

  function Without(jar: Jar, key: Key): Jar {
    if jar == [] then []
    else if KeyOf(jar[0]) == key then Without(jar[1..], key)
    else [jar[0]] + Without(jar[1..], key)
  }

  /** One arriving cookie, its lifetime already anchored. */
  function Store(jar: Jar, cookie: Cookie, now: nat): Jar {
    Without(jar, KeyOf(cookie)) + if cookie.IsExpired(now) then [] else [cookie]
  }

  /** The `Set-Cookie` headers of one response. */
  datatype Batch = Batch(headers: seq<string>, host: string, path: string, now: nat)

  function AbsorbHeader(names: Names, jar: Jar, header: string, b: Batch): Jar {
    match Parsed(names, header, b.host, b.path)
    case None => jar
    case Some(cookie) => Store(jar, Anchored(cookie, b.now), b.now)
  }

  function Absorb(names: Names, jar: Jar, b: Batch): Jar
    decreases |b.headers|
  {
    if b.headers == [] then jar
    else Absorb(names, AbsorbHeader(names, jar, b.headers[0], b), b.(headers := b.headers[1..]))
  }

  class HttpScraper {
    const names: Names
    var cookies: Jar

    constructor (names: Names, cookies: Jar)
      ensures this.names == names && this.cookies == cookies
    {
      this.names := names;
      this.cookies := cookies;
    }

    method AbsorbCookies(headers: seq<string>, host: string, path: string, now: nat)
      modifies this`cookies
      ensures cookies == Absorb(names, old(cookies), Batch(headers, host, path, now))
    {
      ghost var expected := Absorb(names, cookies, Batch(headers, host, path, now));
      var i := 0;
      while i < |headers|
        invariant 0 <= i <= |headers|
        invariant expected == Absorb(names, cookies, Batch(headers[i..], host, path, now))
      {
        assert headers[i..][0] == headers[i] && headers[i..][1..] == headers[i + 1..];
        ghost var before := cookies;
        var parsed := ParseSetCookie(names, headers[i], host, path);
        if parsed.Some? {
          var cookie := Anchored(parsed.value, now);
          cookies := Without(cookies, KeyOf(cookie));
          if !cookie.IsExpired(now) {
            cookies := cookies + [cookie];
          }
        }
        assert cookies == AbsorbHeader(names, before, headers[i], Batch(headers[i..], host, path, now));
        i := i + 1;
      }
    }
  }

  /** The jar after a run of responses. */
  function RunFrom(names: Names, start: Jar, batches: seq<Batch>): Jar {
    if batches == [] then start
    else Absorb(names, RunFrom(names, start, batches[..|batches| - 1]), batches[|batches| - 1])
  }

  function Run(names: Names, batches: seq<Batch>): Jar {
    RunFrom(names, [], batches)
  }

  // -- the jar is a last-writer-wins map --------------------------------------------------

  /** A cookie as it arrived: anchored, with the time of arrival. */
  datatype Arrival = Arrival(cookie: Cookie, now: nat)

  /** What one response contributes, in header order. */
  function Arrivals(names: Names, b: Batch): seq<Arrival>
    decreases |b.headers|
  {
    if b.headers == [] then []
    else
      var rest := Arrivals(names, b.(headers := b.headers[1..]));
      match Parsed(names, b.headers[0], b.host, b.path)
      case None => rest
      case Some(cookie) => [Arrival(Anchored(cookie, b.now), b.now)] + rest
  }

  function AllArrivals(names: Names, batches: seq<Batch>): seq<Arrival> {
    if batches == [] then []
    else AllArrivals(names, batches[..|batches| - 1]) + Arrivals(names, batches[|batches| - 1])
  }

  /** The simple form: under each key the last arrival decides. */
  function LastWrite(arrivals: seq<Arrival>, key: Key): (r: Option<nat>)
    ensures r.Some? ==> r.value < |arrivals| && KeyOf(arrivals[r.value].cookie) == key
  {
    if arrivals == [] then None
    else if KeyOf(arrivals[|arrivals| - 1].cookie) == key then Some(|arrivals| - 1)
    else LastWrite(arrivals[..|arrivals| - 1], key)
  }

  predicate Held(arrivals: seq<Arrival>, c: Cookie) {
    match LastWrite(arrivals, KeyOf(c))
    case None => false
    case Some(i) => arrivals[i].cookie == c && !c.IsExpired(arrivals[i].now)
  }

  /** Keys strictly in the order of their last write, so no key occurs twice. */
  ghost predicate InWriteOrder(jar: Jar, arrivals: seq<Arrival>) {
    && (forall c <- jar :: LastWrite(arrivals, KeyOf(c)).Some?)
    && forall i, j :: 0 <= i < j < |jar| ==>
         LastWrite(arrivals, KeyOf(jar[i])).value < LastWrite(arrivals, KeyOf(jar[j])).value
  }

  /** `jar` holds exactly the last arrival of each key, in order of last write,
      and none that had expired on arrival. */
  ghost predicate LastWriterWins(jar: Jar, arrivals: seq<Arrival>) {
    && InWriteOrder(jar, arrivals)
    && forall c: Cookie :: c in jar <==> Held(arrivals, c)
  }

  ghost predicate UniqueKeys(jar: Jar) {
    forall i, j :: 0 <= i < j < |jar| ==> KeyOf(jar[i]) != KeyOf(jar[j])
  }

  lemma LastWriterWinsHasUniqueKeys(jar: Jar, arrivals: seq<Arrival>)
    requires LastWriterWins(jar, arrivals)
    ensures UniqueKeys(jar)
  {
  }

  lemma {:induction false} WithoutMembers(jar: Jar, key: Key)
    ensures forall c: Cookie :: c in Without(jar, key) <==> c in jar && KeyOf(c) != key
  {
    if jar != [] {
      WithoutMembers(jar[1..], key);
      assert jar == [jar[0]] + jar[1..];
    }
  }

  lemma FirstWrittenFirst(jar: Jar, arrivals: seq<Arrival>, c: Cookie)
    requires InWriteOrder(jar, arrivals) && jar != [] && c in jar[1..]
    ensures LastWrite(arrivals, KeyOf(jar[0])).value < LastWrite(arrivals, KeyOf(c)).value
  {
  }

  lemma {:induction false} WithoutKeepsOrder(jar: Jar, key: Key, arrivals: seq<Arrival>)
    requires InWriteOrder(jar, arrivals)
    ensures InWriteOrder(Without(jar, key), arrivals)
  {
    if jar != [] {
      WithoutMembers(jar[1..], key);
      WithoutKeepsOrder(jar[1..], key, arrivals);
      forall c <- Without(jar[1..], key)
        ensures LastWrite(arrivals, KeyOf(jar[0])).value < LastWrite(arrivals, KeyOf(c)).value
      {
        FirstWrittenFirst(jar, arrivals, c);
      }
    }
  }

  lemma StoreIsLastWrite(jar: Jar, arrivals: seq<Arrival>, a: Arrival)
    requires LastWriterWins(jar, arrivals)
    ensures LastWriterWins(Store(jar, a.cookie, a.now), arrivals + [a])
  {
    var all := arrivals + [a];
    var kept := Without(jar, KeyOf(a.cookie));
    var stored := Store(jar, a.cookie, a.now);
    WithoutMembers(jar, KeyOf(a.cookie));
    WithoutKeepsOrder(jar, KeyOf(a.cookie), arrivals);
    assert all[|all| - 1] == a && all[..|all| - 1] == arrivals;
    assert forall k :: k != KeyOf(a.cookie) ==> LastWrite(all, k) == LastWrite(arrivals, k);
    forall c: Cookie
      ensures c in stored <==> Held(all, c)
    {
      assert c in stored <==> c in kept || (c == a.cookie && !c.IsExpired(a.now));
    }
    forall i, j | 0 <= i < j < |stored|
      ensures LastWrite(all, KeyOf(stored[i])).value < LastWrite(all, KeyOf(stored[j])).value
    {
      assert stored[i] in kept;
    }
  }

  lemma {:induction false} AbsorbIsLastWrites(names: Names, jar: Jar, arrivals: seq<Arrival>, b: Batch)
    requires LastWriterWins(jar, arrivals)
    ensures LastWriterWins(Absorb(names, jar, b), arrivals + Arrivals(names, b))
    decreases |b.headers|
  {
    if b.headers == [] {
      assert arrivals + [] == arrivals;
    } else {
      var rest := b.(headers := b.headers[1..]);
      match Parsed(names, b.headers[0], b.host, b.path) {
        case None =>
          AbsorbIsLastWrites(names, jar, arrivals, rest);
        case Some(cookie) =>
          var a := Arrival(Anchored(cookie, b.now), b.now);
          StoreIsLastWrite(jar, arrivals, a);
          AbsorbIsLastWrites(names, Store(jar, a.cookie, a.now), arrivals + [a], rest);
          assert arrivals + [a] + Arrivals(names, rest) == arrivals + Arrivals(names, b);
      }
    }
  }

  /** Over every run of responses the jar is the last-writer-wins map of all that arrived. */
  lemma {:induction false} RunIsLastWriterWins(names: Names, batches: seq<Batch>)
    ensures LastWriterWins(Run(names, batches), AllArrivals(names, batches))
  {
    if batches != [] {
      var earlier := batches[..|batches| - 1];
      RunIsLastWriterWins(names, earlier);
      AbsorbIsLastWrites(names, Run(names, earlier), AllArrivals(names, earlier), batches[|batches| - 1]);
    }
  }

  // -- a replaced cookie and its standard ---------------------------------------------------

  /** Storing as section 5.3 of RFC 6265 has it: a replaced cookie keeps its creation time,
      and so its place. */
  function StoreInPlace(jar: Jar, cookie: Cookie): Jar {
    if jar == [] then [cookie]
    else if KeyOf(jar[0]) == KeyOf(cookie) then [cookie] + jar[1..]
    else [jar[0]] + StoreInPlace(jar[1..], cookie)
  }

  lemma {:induction false} WithoutAbsent(jar: Jar, key: Key)
    requires forall c <- jar :: KeyOf(c) != key
    ensures Without(jar, key) == jar
  {
    if jar != [] {
      WithoutAbsent(jar[1..], key);
    }
  }

  /** The code keeps creation order exactly when the key is new or belongs to the newest
      cookie; any other replaced cookie moves behind those created after it. */
  lemma {:induction false} KeepsCreationOrderIff(jar: Jar, cookie: Cookie, now: nat)
    requires UniqueKeys(jar) && !cookie.IsExpired(now)
    ensures Store(jar, cookie, now) == StoreInPlace(jar, cookie) <==>
              forall i :: 0 <= i < |jar| - 1 ==> KeyOf(jar[i]) != KeyOf(cookie)
  {
    if jar != [] {
      var rest := jar[1..];
      assert UniqueKeys(rest);
      if KeyOf(jar[0]) == KeyOf(cookie) {
        forall c <- rest
          ensures KeyOf(c) != KeyOf(cookie)
        {
          var i :| 0 <= i < |rest| && rest[i] == c;
          assert jar[i + 1] == c;
        }
        WithoutAbsent(rest, KeyOf(cookie));
        if rest != [] {
          assert Store(jar, cookie, now)[0] == jar[1] && StoreInPlace(jar, cookie)[0] == cookie;
        }
      } else {
        KeepsCreationOrderIff(rest, cookie, now);
        assert Store(jar, cookie, now) == [jar[0]] + Store(rest, cookie, now);
        assert forall i :: 0 <= i < |rest| ==> rest[i] == jar[i + 1];
        assert Store(jar, cookie, now)[1..] == Store(rest, cookie, now);
        assert StoreInPlace(jar, cookie)[1..] == StoreInPlace(rest, cookie);
        if i :| 0 <= i < |jar| - 1 && KeyOf(jar[i]) == KeyOf(cookie) {
          assert rest[i - 1] == jar[i];
        }
      }
    }
  }

  // -- provenance over runs -----------------------------------------------------------------

  /** Response `b` set `c`, and its host was entitled to the domain it set. */
  ghost predicate SetBy(names: Names, c: Cookie, b: Batch) {
    Entitled(names, c.domain, b.host) && exists a <- Arrivals(names, b) :: a.cookie == c
  }

  ghost predicate CameFrom(names: Names, c: Cookie, batches: seq<Batch>) {
    exists b <- batches :: SetBy(names, c, b)
  }

  lemma {:induction false} ArrivalsAreEntitled(names: Names, b: Batch)
    ensures forall a <- Arrivals(names, b) :: Entitled(names, a.cookie.domain, b.host)
    decreases |b.headers|
  {
    if b.headers != [] {
      ArrivalsAreEntitled(names, b.(headers := b.headers[1..]));
      if Parsed(names, b.headers[0], b.host, b.path).Some? {
        ParsedScope(names, b.headers[0], b.host, b.path);
      }
    }
  }

  lemma {:induction false} AllArrivalsCameFrom(names: Names, batches: seq<Batch>)
    ensures forall a <- AllArrivals(names, batches) :: CameFrom(names, a.cookie, batches)
  {
    if batches != [] {
      var earlier, last := batches[..|batches| - 1], batches[|batches| - 1];
      AllArrivalsCameFrom(names, earlier);
      ArrivalsAreEntitled(names, last);
      forall a <- AllArrivals(names, batches)
        ensures CameFrom(names, a.cookie, batches)
      {
        if a in AllArrivals(names, earlier) {
          var b :| b in earlier && SetBy(names, a.cookie, b);
          assert b in batches;
        } else {
          assert SetBy(names, a.cookie, last) && last in batches;
        }
      }
    }
  }

  /** How a cookie set by `host` may go to `other`: as that host's own, or under a
      domain both share that is no public suffix and not taken from an address. */
  ghost predicate Travels(names: Names, c: Cookie, host: string, other: string) {
    || (c.domain == ToLower(host) && Normalised(other) == c.domain)
    || (&& StartsWith(c.domain, ".") && MayWiden(names, c.domain[1..], host)
        && IsSuffix(Labels(c.domain[1..]), Labels(Normalised(other))))
  }

  /** Over every run, a cookie is rendered for `host` only if some response of the run
      set that very cookie, and it may travel from that response's host to `host`. */
  lemma RenderedOnlyWhereEntitled(
    names: Names, batches: seq<Batch>, c: Cookie, secure: bool, host: string, path: string, now: nat)
    requires forall b <- batches :: !StartsWith(b.host, ".")
    requires c in Applicable(Run(names, batches), secure, host, path, now)
    ensures exists b <- batches :: (exists a <- Arrivals(names, b) :: a.cookie == c) && Travels(names, c, b.host, host)
  {
    ApplicableExactly(Run(names, batches), secure, host, path, now, c);
    RunIsLastWriterWins(names, batches);
    var arrivals := AllArrivals(names, batches);
    assert Held(arrivals, c);
    AllArrivalsCameFrom(names, batches);
    var a := arrivals[LastWrite(arrivals, KeyOf(c)).value];
    assert CameFrom(names, a.cookie, batches);
    var b :| b in batches && SetBy(names, c, b);
    SentOnlyWhereEntitled(names, c.domain, b.host, host);
    assert Travels(names, c, b.host, host);
  }

  // -- rendering -------------------------------------------------------------------------------

  function Applicable(jar: Jar, secure: bool, host: string, path: string, now: nat): seq<Cookie> {
    if jar == [] then []
    else if !jar[0].IsExpired(now) && CookieApplies(jar[0], secure, host, path)
    then [jar[0]] + Applicable(jar[1..], secure, host, path, now)
    else Applicable(jar[1..], secure, host, path, now)
  }

  function InsertByPath(c: Cookie, sorted: seq<Cookie>): seq<Cookie> {
    if sorted == [] || |sorted[0].path| <= |c.path| then [c] + sorted
    else [sorted[0]] + InsertByPath(c, sorted[1..])
  }

  /** The source's stable `sort_by_key(Reverse(path.len()))`. */
  function SortByPath(cookies: seq<Cookie>): seq<Cookie> {
    if cookies == [] then [] else InsertByPath(cookies[0], SortByPath(cookies[1..]))
  }

  function PairOf(c: Cookie): string {
    c.name + "=" + c.value
  }

  function Pairs(cookies: seq<Cookie>): seq<string> {
    seq(|cookies|, i requires 0 <= i < |cookies| => PairOf(cookies[i]))
  }

  function CookieHeader(jar: Jar, secure: bool, host: string, path: string, now: nat): Option<string> {
    var applicable := SortByPath(Applicable(jar, secure, host, path, now));
    if applicable == [] then None else Some(Join(Pairs(applicable), "; "))
  }

  lemma {:induction false} ApplicableExactly(jar: Jar, secure: bool, host: string, path: string, now: nat, c: Cookie)
    ensures c in Applicable(jar, secure, host, path, now)
       <==> && c in jar && (c.expires.Some? ==> now < c.expires.value) && (c.secure ==> secure)
            && DomainMatches(c.domain, host) && PathMatches(c.path, path)
  {
    if jar != [] {
      ApplicableExactly(jar[1..], secure, host, path, now, c);
    }
  }

  function OfLength(cookies: seq<Cookie>, n: nat): seq<Cookie> {
    if cookies == [] then []
    else (if |cookies[0].path| == n then [cookies[0]] else []) + OfLength(cookies[1..], n)
  }

  ghost predicate LongestFirst(cookies: seq<Cookie>) {
    cookies == [] || ((forall c <- cookies :: |c.path| <= |cookies[0].path|) && LongestFirst(cookies[1..]))
  }

  /** A stable ordering by descending path length: cookies of one length keep their jar order. */
  ghost predicate StablyOrdered(cookies: seq<Cookie>, r: seq<Cookie>) {
    && LongestFirst(r)
    && multiset(r) == multiset(cookies)
    && forall n: nat :: OfLength(r, n) == OfLength(cookies, n)
  }

  lemma {:induction false} InsertByPathSorts(c: Cookie, sorted: seq<Cookie>)
    requires LongestFirst(sorted)
    ensures LongestFirst(InsertByPath(c, sorted))
    ensures multiset(InsertByPath(c, sorted)) == multiset([c] + sorted)
  {
    var r := InsertByPath(c, sorted);
    if sorted != [] && |sorted[0].path| > |c.path| {
      InsertByPathSorts(c, sorted[1..]);
      assert r[1..] == InsertByPath(c, sorted[1..]);
      assert sorted == [sorted[0]] + sorted[1..];
      forall x <- r
        ensures |x.path| <= |r[0].path|
      {
        assert x in multiset(r);
      }
    }
  }

  lemma {:induction false} InsertByPathIsStable(c: Cookie, sorted: seq<Cookie>, n: nat)
    ensures OfLength(InsertByPath(c, sorted), n) == OfLength([c] + sorted, n)
  {
    var r := InsertByPath(c, sorted);
    assert ([c] + sorted)[1..] == sorted;
    if sorted != [] && |sorted[0].path| > |c.path| {
      var tail := [c] + sorted[1..];
      assert tail[1..] == sorted[1..];
      InsertByPathIsStable(c, sorted[1..], n);
      assert r[1..] == InsertByPath(c, sorted[1..]);
    } else {
      assert r == [c] + sorted;
    }
  }

  lemma {:induction false} SortByPathIsStable(cookies: seq<Cookie>)
    ensures StablyOrdered(cookies, SortByPath(cookies))
  {
    if cookies != [] {
      var rest := SortByPath(cookies[1..]);
      SortByPathIsStable(cookies[1..]);
      InsertByPathSorts(cookies[0], rest);
      forall n: nat
        ensures OfLength(InsertByPath(cookies[0], rest), n) == OfLength(cookies, n)
      {
        InsertByPathIsStable(cookies[0], rest, n);
      }
      assert ([cookies[0]] + rest)[1..] == rest;
      assert cookies == [cookies[0]] + cookies[1..];
    }
  }

  lemma {:induction false} OfLengthHead(cookies: seq<Cookie>, n: nat)
    requires OfLength(cookies, n) != []
    ensures OfLength(cookies, n)[0] in cookies && |OfLength(cookies, n)[0].path| == n
  {
    if |cookies[0].path| != n {
      OfLengthHead(cookies[1..], n);
    }
  }

  lemma OfLengthTail(cookies: seq<Cookie>, n: nat)
    requires cookies != []
    ensures OfLength(cookies[1..], n)
         == if |cookies[0].path| == n then OfLength(cookies, n)[1..] else OfLength(cookies, n)
  {
  }

  /** The stable ordering is unique: longest first and jar order within a length fix it. */
  lemma {:induction false} StableOrderUnique(r: seq<Cookie>, t: seq<Cookie>)
    requires LongestFirst(r) && LongestFirst(t)
    requires forall n: nat :: OfLength(r, n) == OfLength(t, n)
    ensures r == t
  {
    if t != [] {
      assert OfLength(r, |t[0].path|) == OfLength(t, |t[0].path|) != [];
    }
    if r != [] {
      var n := |r[0].path|;
      assert OfLength(r, n)[0] == r[0];
      OfLengthHead(t, n);
      var m := |t[0].path|;
      assert OfLength(t, m)[0] == t[0];
      assert OfLength(r, m) == OfLength(t, m);
      OfLengthHead(r, m);
      assert n == m && r[0] == t[0];
      forall k: nat
        ensures OfLength(r[1..], k) == OfLength(t[1..], k)
      {
        assert OfLength(r, k) == OfLength(t, k);
        OfLengthTail(r, k);
        OfLengthTail(t, k);
      }
      StableOrderUnique(r[1..], t[1..]);
      assert r == [r[0]] + r[1..] && t == [t[0]] + t[1..];
    }
  }

  /** The header renders exactly the live applicable cookies, in the one stable
      order, and is absent exactly when there are none. */
  lemma HeaderRendersExactly(jar: Jar, secure: bool, host: string, path: string, now: nat, order: seq<Cookie>)
    requires StablyOrdered(Applicable(jar, secure, host, path, now), order)
    ensures CookieHeader(jar, secure, host, path, now) == if order == [] then None else Some(Join(Pairs(order), "; "))
    ensures CookieHeader(jar, secure, host, path, now).None?
       <==> forall c <- jar :: c.IsExpired(now) || !CookieApplies(c, secure, host, path)
  {
    var applicable := Applicable(jar, secure, host, path, now);
    SortByPathIsStable(applicable);
    StableOrderUnique(order, SortByPath(applicable));
    assert |multiset(order)| == |order| && |multiset(applicable)| == |applicable|;
    forall c <- jar
      ensures c in applicable <==> !c.IsExpired(now) && CookieApplies(c, secure, host, path)
    {
      ApplicableExactly(jar, secure, host, path, now, c);
    }
    if applicable != [] {
      ApplicableExactly(jar, secure, host, path, now, applicable[0]);
    }
  }

  // -- the header read by a server --------------------------------------------------------------

  /** As every cookie is that a header can set: nothing in it that separates pairs or halves. */
  ghost predicate IsPlain(c: Cookie) {
    && '=' !in c.name && ';' !in c.name && ';' !in c.value
    && Trimmed(c.name) && Trimmed(c.value)
  }

  /** A pair as a server reads it: what precedes the first `=`, and what follows it. */
  function ReadPair(part: string): Option<(string, string)> {
    match SplitOnce(part, '=')
    case None => None
    case Some((name, value)) => Some((Trim(name), Trim(value)))
  }

  function ReadPairs(parts: seq<string>): seq<Option<(string, string)>> {
    if parts == [] then [] else [ReadPair(parts[0])] + ReadPairs(parts[1..])
  }

  function ReadHeader(header: string): seq<Option<(string, string)>> {
    ReadPairs(Split(header, ';'))
  }

  function NamesAndValues(cookies: seq<Cookie>): seq<Option<(string, string)>> {
    if cookies == [] then [] else [Some((cookies[0].name, cookies[0].value))] + NamesAndValues(cookies[1..])
  }

  lemma BlankBeforeIsNothing(header: string)
    ensures ReadHeader(" " + header) == ReadHeader(header)
  {
    var parts := Split(header, ';');
    assert (" " + header)[1..] == header;
    var first := " " + parts[0];
    assert Split(" " + header, ';') == [first] + parts[1..];
    assert first[1..] == parts[0];
    SplitOnceSays(parts[0], '=');
    if SplitOnce(parts[0], '=').Some? {
      var name := SplitOnce(parts[0], '=').value.0;
      assert (" " + name)[1..] == name;
      assert Trim(" " + name) == Trim(name);
    }
  }

  lemma PairReadsBack(c: Cookie)
    requires IsPlain(c)
    ensures ';' !in PairOf(c) && ReadPair(PairOf(c)) == Some((c.name, c.value))
  {
    SplitOnceAtFirst(c.name, c.value, '=');
    TrimLeavesTrimmed(c.name);
    TrimLeavesTrimmed(c.value);
  }

  lemma FirstPairReadsBack(first: string, more: string)
    requires ';' !in first
    ensures ReadHeader(first + "; " + more) == [ReadPair(first)] + ReadHeader(more)
  {
    var rest := " " + more;
    assert first + "; " + more == first + ";" + rest;
    SplitsAs(first, rest, Split(rest, ';'));
    BlankBeforeIsNothing(more);
    assert ([first] + Split(rest, ';'))[1..] == Split(rest, ';');
  }

  lemma {:induction false} PairsReadBack(cookies: seq<Cookie>)
    requires cookies != [] && forall c <- cookies :: IsPlain(c)
    ensures ReadHeader(Join(Pairs(cookies), "; ")) == NamesAndValues(cookies)
  {
    PairReadsBack(cookies[0]);
    var rest := cookies[1..];
    if rest == [] {
      SplitWithout(PairOf(cookies[0]), ';');
      assert ReadPairs([PairOf(cookies[0])]) == [ReadPair(PairOf(cookies[0]))] + ReadPairs([]);
    } else {
      PairsReadBack(rest);
      assert Pairs(cookies)[1..] == Pairs(rest);
      FirstPairReadsBack(PairOf(cookies[0]), Join(Pairs(rest), "; "));
    }
  }

  lemma ParsedIsPlain(names: Names, header: string, host: string, path: string)
    requires Parsed(names, header, host, path).Some?
    ensures IsPlain(Parsed(names, header, host, path).value)
  {
    var parts := Split(header, ';');
    ParsedReadsHeader(names, header, host, path);
    PartsAreWithout(header, ';');
    assert ';' !in parts[0];
    SplitOnceSays(parts[0], '=');
    var (name, value) := SplitOnce(parts[0], '=').value;
    var _, _ := TrimSays(name);
    var _, _ := TrimSays(value);
  }

  lemma {:induction false} AbsorbKeepsPlain(names: Names, jar: Jar, b: Batch)
    requires forall c <- jar :: IsPlain(c)
    ensures forall c <- Absorb(names, jar, b) :: IsPlain(c)
    decreases |b.headers|
  {
    if b.headers != [] {
      var parsed := Parsed(names, b.headers[0], b.host, b.path);
      if parsed.Some? {
        ParsedIsPlain(names, b.headers[0], b.host, b.path);
        WithoutMembers(jar, KeyOf(Anchored(parsed.value, b.now)));
      }
      AbsorbKeepsPlain(names, AbsorbHeader(names, jar, b.headers[0], b), b.(headers := b.headers[1..]));
    }
  }

  lemma {:induction false} RunKeepsPlain(names: Names, batches: seq<Batch>)
    ensures forall c <- Run(names, batches) :: IsPlain(c)
  {
    if batches != [] {
      RunKeepsPlain(names, batches[..|batches| - 1]);
      AbsorbKeepsPlain(names, Run(names, batches[..|batches| - 1]), batches[|batches| - 1]);
    }
  }

  /** Over every run of responses: a server that splits the header at semicolons and each pair
      at its first `=` reads the names and values of the cookies meant for it, in their order. */
  lemma HeaderReadsBack(
    names: Names, batches: seq<Batch>, secure: bool, host: string, path: string, now: nat, order: seq<Cookie>)
    requires StablyOrdered(Applicable(Run(names, batches), secure, host, path, now), order)
    ensures var header := CookieHeader(Run(names, batches), secure, host, path, now);
            && (header.None? <==> order == [])
            && (header.Some? ==> ReadHeader(header.value) == NamesAndValues(order))
  {
    var jar := Run(names, batches);
    HeaderRendersExactly(jar, secure, host, path, now, order);
    RunKeepsPlain(names, batches);
    forall c <- order
      ensures IsPlain(c)
    {
      assert c in multiset(order);
      ApplicableExactly(jar, secure, host, path, now, c);
    }
    if order != [] {
      PairsReadBack(order);
    }
  }

  // -- a replaced cookie in the header -------------------------------------------------------

  ghost predicate Sent(c: Cookie, secure: bool, host: string, path: string, now: nat) {
    !c.IsExpired(now) && CookieApplies(c, secure, host, path)
  }

  lemma TwoRendered(a: Cookie, b: Cookie, secure: bool, host: string, path: string, now: nat)
    requires |a.path| == |b.path| && Sent(a, secure, host, path, now) && Sent(b, secure, host, path, now)
    ensures CookieHeader([a, b], secure, host, path, now) == Some(PairOf(a) + "; " + PairOf(b))
  {
    var jar := [a, b];
    assert jar[1..] == [b] && [b][1..] == [];
    assert Applicable([b], secure, host, path, now) == [b] && Applicable(jar, secure, host, path, now) == jar;
    assert SortByPath([b]) == InsertByPath(b, []) == [b];
    assert SortByPath(jar) == InsertByPath(a, [b]) == jar;
    assert Pairs(jar)[1..] == [PairOf(b)];
    assert Join(Pairs(jar), "; ") == PairOf(a) + "; " + Join([PairOf(b)], "; ");
  }

  lemma FirstPairShows(a: Cookie, b: Cookie, x: string, y: string)
    requires '=' !in a.name && '=' !in b.name && a.name != b.name
    ensures PairOf(a) + x != PairOf(b) + y
  {
    var s, t := PairOf(a) + x, PairOf(b) + y;
    assert s[..|a.name|] == a.name && s[|a.name|] == '=';
    assert t[..|b.name|] == b.name && t[|b.name|] == '=';
    assert |a.name| < |b.name| ==> t[|a.name|] == b.name[|a.name|];
    assert |b.name| < |a.name| ==> s[|b.name|] == a.name[|b.name|];
  }

  /** It shows in the header: of two cookies with paths of one length, the older one set again is
      rendered behind the other, where the standard's order still has it in front. */
  lemma ReplacedRendersLast(a: Cookie, b: Cookie, again: Cookie, secure: bool, host: string, path: string, now: nat)
    requires KeyOf(again) == KeyOf(a) && |a.path| == |b.path|
    requires '=' !in a.name && '=' !in b.name && a.name != b.name
    requires Sent(again, secure, host, path, now) && Sent(b, secure, host, path, now)
    ensures CookieHeader(Store([a, b], again, now), secure, host, path, now) == Some(PairOf(b) + "; " + PairOf(again))
    ensures CookieHeader(StoreInPlace([a, b], again), secure, host, path, now) == Some(PairOf(again) + "; " + PairOf(b))
    ensures CookieHeader(Store([a, b], again, now), secure, host, path, now)
         != CookieHeader(StoreInPlace([a, b], again), secure, host, path, now)
  {
    assert [a, b][1..] == [b] && [b][1..] == [];
    assert Without([b], KeyOf(again)) == [b];
    assert Store([a, b], again, now) == [b, again] && StoreInPlace([a, b], again) == [again, b];
    TwoRendered(b, again, secure, host, path, now);
    TwoRendered(again, b, secure, host, path, now);
    FirstPairShows(b, again, "; " + PairOf(again), "; " + PairOf(b));
    Associate(PairOf(b), "; ", PairOf(again));
    Associate(PairOf(again), "; ", PairOf(b));
  }

  // -- set then send, through the jar ---------------------------------------------------------

  ghost predicate Untouches(names: Names, b: Batch, key: Key) {
    forall a <- Arrivals(names, b) :: KeyOf(a.cookie) != key
  }

  function From(b: Batch, i: nat): Batch
    requires i <= |b.headers|
  {
    b.(headers := b.headers[i..])
  }

  lemma {:induction false} AbsorbKeeps(names: Names, jar: Jar, b: Batch, c: Cookie)
    requires c in jar && Untouches(names, b, KeyOf(c))
    ensures c in Absorb(names, jar, b)
    decreases |b.headers|
  {
    if b.headers != [] {
      var next := AbsorbHeader(names, jar, b.headers[0], b);
      if Parsed(names, b.headers[0], b.host, b.path).Some? {
        var cookie := Anchored(Parsed(names, b.headers[0], b.host, b.path).value, b.now);
        assert Arrivals(names, b)[0] == Arrival(cookie, b.now);
        WithoutMembers(jar, KeyOf(cookie));
      }
      assert forall a <- Arrivals(names, From(b, 1)) :: a in Arrivals(names, b);
      AbsorbKeeps(names, next, From(b, 1), c);
    }
  }

  lemma {:induction false} AbsorbAdds(names: Names, jar: Jar, b: Batch, i: nat)
    requires i < |b.headers| && Parsed(names, b.headers[i], b.host, b.path).Some?
    requires var c := Anchored(Parsed(names, b.headers[i], b.host, b.path).value, b.now);
             !c.IsExpired(b.now) && Untouches(names, From(b, i + 1), KeyOf(c))
    ensures Anchored(Parsed(names, b.headers[i], b.host, b.path).value, b.now) in Absorb(names, jar, b)
    decreases i
  {
    var c := Anchored(Parsed(names, b.headers[i], b.host, b.path).value, b.now);
    var next := AbsorbHeader(names, jar, b.headers[0], b);
    if i == 0 {
      assert c in next;
      AbsorbKeeps(names, next, From(b, 1), c);
    } else {
      assert From(From(b, 1), i) == From(b, i + 1);
      AbsorbAdds(names, next, From(b, 1), i - 1);
    }
  }

  lemma RunOneMore(names: Names, start: Jar, batches: seq<Batch>, b: Batch)
    ensures RunFrom(names, start, batches + [b]) == Absorb(names, RunFrom(names, start, batches), b)
  {
    assert (batches + [b])[..|batches|] == batches;
  }

  lemma {:induction false} RunKeeps(names: Names, start: Jar, earlier: seq<Batch>, later: seq<Batch>, c: Cookie)
    requires c in RunFrom(names, start, earlier)
    requires forall b <- later :: Untouches(names, b, KeyOf(c))
    ensures c in RunFrom(names, start, earlier + later)
    decreases |later|
  {
    if later == [] {
      assert earlier + later == earlier;
    } else {
      var front, last := later[..|later| - 1], later[|later| - 1];
      RunKeeps(names, start, earlier, front, c);
      AbsorbKeeps(names, RunFrom(names, start, earlier + front), last, c);
      RunOneMore(names, start, earlier + front, last);
      assert later == front + [last];
      Associate(earlier, front, [last]);
    }
  }

  lemma Around<T>(s: seq<T>, k: nat, later: seq<T>)
    requires k < |s| && later == s[k + 1..]
    ensures s[..k] + [s[k]] + later == s
    ensures forall x <- later :: exists m :: k < m < |s| && s[m] == x
  {
    forall x <- later
      ensures exists m :: k < m < |s| && s[m] == x
    {
      var i :| 0 <= i < |later| && later[i] == x;
      assert s[k + 1 + i] == x;
    }
  }

  lemma Survives(names: Names, start: Jar, batches: seq<Batch>, k: nat, c: Cookie)
    requires k < |batches| && c in Absorb(names, RunFrom(names, start, batches[..k]), batches[k])
    requires forall m :: k < m < |batches| ==> Untouches(names, batches[m], KeyOf(c))
    ensures c in RunFrom(names, start, batches)
  {
    var later := batches[k + 1..];
    Around(batches, k, later);
    RunOneMore(names, start, batches[..k], batches[k]);
    RunKeeps(names, start, batches[..k] + [batches[k]], later, c);
  }

  /** Nor further than it was set for: of a cookie set without a Path, what is rendered is rendered
      in the directory of the request whose answer set it, or below. */
  lemma RenderedInDirectory(
    names: Names, header: string, host: string, dir: string, leaf: string, setAt: nat,
    jar: Jar, secure: bool, other: string, later: string, now: nat)
    requires '/' !in leaf && (dir == "" || StartsWith(dir, "/")) && !EndsWith(dir, "/")
    requires Parsed(names, header, host, dir + "/" + leaf).Some?
    requires forall a <- Split(header, ';')[1..] :: !SetsPath(a)
    requires Anchored(Parsed(names, header, host, dir + "/" + leaf).value, setAt) in Applicable(jar, secure, other, later, now)
    ensures dir == "" || later == dir || StartsWith(later, dir + "/")
  {
    var c := Anchored(Parsed(names, header, host, dir + "/" + leaf).value, setAt);
    ApplicableExactly(jar, secure, other, later, now, c);
    SetWithoutPathStaysInDirectory(names, header, host, dir, leaf, secure, other, later);
  }

  /** Set then send, over every run and from any jar: a cookie that header `i` of response `k` set without a
      Path is rendered for that host, that path and every path under it, for as long as it
      lives and until some later arrival has the same key. */
  lemma SetThenRendered(
    names: Names, start: Jar, batches: seq<Batch>, k: nat, i: nat, secure: bool, path: string, now: nat)
    requires k < |batches| && i < |batches[k].headers|
    requires var b := batches[k];
             && !StartsWith(b.host, ".") && !EndsWith(b.host, ".")
             && (forall a <- Split(b.headers[i], ';')[1..] :: !SetsPath(a))
             && (path == b.path || (StartsWith(b.path, "/") && StartsWith(path, "/") && PathMatches(b.path, path)))
             && Parsed(names, b.headers[i], b.host, b.path).Some?
             && var c := Anchored(Parsed(names, b.headers[i], b.host, b.path).value, b.now);
                && (c.secure ==> secure) && b.now <= now && !c.IsExpired(now)
                && Untouches(names, From(b, i + 1), KeyOf(c))
                && forall m :: k < m < |batches| ==> Untouches(names, batches[m], KeyOf(c))
    ensures var b := batches[k];
            var c := Anchored(Parsed(names, b.headers[i], b.host, b.path).value, b.now);
            && c in Applicable(RunFrom(names, start, batches), secure, b.host, path, now)
            && CookieHeader(RunFrom(names, start, batches), secure, b.host, path, now).Some?
  {
    var b, jar := batches[k], RunFrom(names, start, batches);
    var c := Anchored(Parsed(names, b.headers[i], b.host, b.path).value, b.now);
    AbsorbAdds(names, RunFrom(names, start, batches[..k]), b, i);
    Survives(names, start, batches, k, c);
    SetThenSend(names, b.headers[i], b.host, b.path, secure, path);
    ApplicableExactly(jar, secure, b.host, path, now, c);
    var applicable := Applicable(jar, secure, b.host, path, now);
    SortByPathIsStable(applicable);
    HeaderRendersExactly(jar, secure, b.host, path, now, SortByPath(applicable));
  }
}
