/** `src/ca.rs`: the host check, the bounded cache of acceptors, and `acceptor` called
    from many threads. Minting is opaque; an acceptor is known by a number. */
module LeafCacheModel {
  import opened Wrappers
  import opened Text

  // -- the host check ------------------------------------------------------------------

  const MAX_HOST_LEN := 253
  const MAX_LABEL_LEN := 63
  const MAX_CACHED_HOSTS := 256

  predicate IsHostChar(c: char) {
    'a' <= c <= 'z' || 'A' <= c <= 'Z' || IsDigit(c) || c == '-' || c == '_'
  }

  predicate IsLabel(part: string) {
    && 0 < |part| <= MAX_LABEL_LEN
    && part[0] != '-' && part[|part| - 1] != '-'
    && forall c <- part :: IsHostChar(c)
  }

  function WithoutDot(host: string): string {
    if EndsWith(host, ".") then host[..|host| - 1] else host
  }

  predicate IsValidHost(isAddress: string -> bool, host: string) {
    if host == "" || |host| > MAX_HOST_LEN then false
    else if isAddress(host) then true
    else
      var name := WithoutDot(host);
      name != "" && forall part <- Split(name, '.') :: IsLabel(part)
  }

  /** What may stand in a label of a name: letters, digits, `-` and `_`. */
  ghost predicate MayStand(c: char) {
    'a' <= c <= 'z' || 'A' <= c <= 'Z' || '0' <= c <= '9' || c == '-' || c == '_'
  }

  /** A label: 1 to 63 of these, with no hyphen at either end. */
  ghost predicate IsNamePart(part: string) {
    1 <= |part| <= 63 && part[0] != '-' && part[|part| - 1] != '-' && forall c <- part :: MayStand(c)
  }

  /** The names the check is meant to admit: labels joined by dots, perhaps absolute. */
  ghost predicate IsDomainName(host: string, labels: seq<string>) {
    && labels != [] && (forall part <- labels :: IsNamePart(part))
    && (host == Join(labels, ".") || host == Join(labels, ".") + ".")
  }

  lemma {:induction false} JoinedLabels(labels: seq<string>)
    requires labels != [] && forall part <- labels :: IsNamePart(part)
    ensures var name := Join(labels, ".");
            name != "" && name[|name| - 1] != '.' && forall c <- name :: MayStand(c) || c == '.'
  {
    assert IsNamePart(labels[0]);
    if |labels| > 1 {
      JoinedLabels(labels[1..]);
      assert Join(labels, ".") == labels[0] + "." + Join(labels[1..], ".");
    } else {
      assert MayStand(labels[0][|labels[0]| - 1]);
    }
  }

  lemma DomainNameIsValid(isAddress: string -> bool, host: string, labels: seq<string>)
    requires IsDomainName(host, labels) && |host| <= MAX_HOST_LEN
    ensures IsValidHost(isAddress, host) && forall c <- host :: MayStand(c) || c == '.'
  {
    JoinedLabels(labels);
    SplitUndoesJoin(labels, '.');
    assert (Join(labels, ".") + ".")[..|Join(labels, ".")|] == Join(labels, ".");
  }

  /** Exactly the address literals and the domain names of at most 253 characters pass. */
  lemma ValidHostIffDomainName(isAddress: string -> bool, host: string)
    ensures IsValidHost(isAddress, host) <==>
              0 < |host| <= 253 && (isAddress(host) || exists labels :: IsDomainName(host, labels))
  {
    if IsValidHost(isAddress, host) && !isAddress(host) {
      var name := WithoutDot(host);
      JoinUndoesSplit(name, '.');
      assert host == name || host == name + ".";
      assert IsDomainName(host, Split(name, '.'));
    }
    if labels :| 0 < |host| <= MAX_HOST_LEN && IsDomainName(host, labels) {
      DomainNameIsValid(isAddress, host, labels);
    }
  }

  /** Nothing but letters, digits, `-`, `_` and dots reaches a certificate as a name. */
  lemma ValidHostIsClean(isAddress: string -> bool, host: string)
    requires IsValidHost(isAddress, host) && !isAddress(host)
    ensures forall c <- host :: MayStand(c) || c == '.'
  {
    ValidHostIffDomainName(isAddress, host);
    var labels :| IsDomainName(host, labels);
    DomainNameIsValid(isAddress, host, labels);
  }

  // -- the cache -----------------------------------------------------------------------

  datatype Cache = Cache(acceptors: map<string, nat>, order: seq<string>)

  function WithoutOldest(c: Cache): Cache
    requires c.order != []
  {
    Cache(c.acceptors - {c.order[0]}, c.order[1..])
  }

  /** The eviction loop: from the front, until there is room. */
  function Evict(c: Cache): Cache
    decreases |c.order|
  {
    if |c.acceptors| < MAX_CACHED_HOSTS || c.order == [] then c
    else Evict(WithoutOldest(c))
  }

  /** What the eviction loop removes, in order. */
  function Pushed(c: Cache): seq<string>
    decreases |c.order|
  {
    if |c.acceptors| < MAX_CACHED_HOSTS || c.order == [] then []
    else [c.order[0]] + Pushed(WithoutOldest(c))
  }

  function Insert(c: Cache, host: string, acceptor: nat): Cache {
    if host in c.acceptors then c
    else
      var room := Evict(c);
      Cache(room.acceptors[host := acceptor], room.order + [host])
  }

  ghost predicate NoRepeats(order: seq<string>) {
    forall i, j :: 0 <= i < j < |order| ==> order[i] != order[j]
  }

  /** `order` lists each cached key exactly once, and there are at most 256 of them. */
  ghost predicate Listed(c: Cache) {
    && NoRepeats(c.order)
    && (forall host :: host in c.order <==> host in c.acceptors)
    && |c.acceptors| == |c.order| <= 256
  }

  lemma DropOldest(c: Cache)
    requires Listed(c) && c.order != []
    ensures Listed(WithoutOldest(c))
  {
  }

  lemma AddNewest(c: Cache, host: string, acceptor: nat)
    requires Listed(c) && host !in c.acceptors && |c.order| < MAX_CACHED_HOSTS
    ensures Listed(Cache(c.acceptors[host := acceptor], c.order + [host]))
  {
  }

  /** A full cache gives up exactly its oldest insertion, any other cache nothing. */
  lemma EvictTakesTheOldest(c: Cache)
    requires Listed(c)
    ensures Listed(Evict(c)) && |Evict(c).order| < 256
    ensures |c.order| < 256 ==> Evict(c) == c && Pushed(c) == []
    ensures |c.order| == 256 ==> Evict(c) == WithoutOldest(c) && Pushed(c) == [c.order[0]]
  {
    if |c.order| == MAX_CACHED_HOSTS {
      DropOldest(c);
      var room := WithoutOldest(c);
      assert Evict(room) == room && Pushed(room) == [];
    }
  }

  lemma InsertKeepsListed(c: Cache, host: string, acceptor: nat)
    requires Listed(c)
    ensures Listed(Insert(c, host, acceptor)) && host in Insert(c, host, acceptor).acceptors
  {
    if host !in c.acceptors {
      EvictTakesTheOldest(c);
      AddNewest(Evict(c), host, acceptor);
    }
  }

  /** What a lookup finds after an insertion: the first acceptor given for each host, and
      every host but the oldest of a full cache. */
  lemma LookupAfterInsert(c: Cache, host: string, acceptor: nat, h: string)
    requires Listed(c)
    ensures var d := Insert(c, host, acceptor);
            var evicts := host !in c.acceptors && |c.order| == 256;
            && (h in d.acceptors <==> h == host || (h in c.acceptors && !(evicts && h == c.order[0])))
            && (h in d.acceptors ==> d.acceptors[h] == if h in c.acceptors then c.acceptors[h] else acceptor)
  {
    EvictTakesTheOldest(c);
  }

  // -- many threads ----------------------------------------------------------------------

  /** Where one call of `acceptor` stands. Minting happens outside the lock. */
  datatype Call =
    | Asked(host: string)
    | Minting(host: string)
    | Minted(host: string, own: nat)
    | Refused(host: string)
    | Given(host: string, acceptor: nat)

  datatype Event = Gave(host: string, acceptor: nat) | Evicted(host: string)

  /** `inserted` and `log` are history: the keys in order of insertion, and the
      acceptors handed out and the keys evicted, in order. */
  datatype World = World(
    cache: Cache,
    calls: map<nat, Call>,
    nextCall: nat,
    nextAcceptor: nat,
    inserted: seq<string>,
    log: seq<Event>)

  const Start := World(Cache(map[], []), map[], 0, 0, [], [])

  /** One critical section, or one piece of work outside the lock. Steps are taken under
      any host check; `HostCheck` below is the one in use. */
  datatype Step =
    | Ask(host: string)
    | Lookup(id: nat)
    | Mint(id: nat, ok: bool)
    | Land(id: nat)

  ghost predicate Enabled(w: World, step: Step) {
    match step
    case Ask(_) => true
    case Lookup(id) => id in w.calls && w.calls[id].Asked?
    case Mint(id, _) => id in w.calls && w.calls[id].Minting?
    case Land(id) => id in w.calls && w.calls[id].Minted?
  }

  function Give(w: World, id: nat, host: string, acceptor: nat): World {
    w.(calls := w.calls[id := Given(host, acceptor)], log := w.log + [Gave(host, acceptor)])
  }

  function Evictions(hosts: seq<string>): seq<Event> {
    if hosts == [] then [] else [Evicted(hosts[0])] + Evictions(hosts[1..])
  }

  function Keep(w: World, host: string, own: nat): World {
    w.(cache := Insert(w.cache, host, own),
       inserted := w.inserted + [host],
       log := w.log + Evictions(Pushed(w.cache)))
  }

  ghost function Apply(valid: string -> bool, w: World, step: Step): World
    requires Enabled(w, step)
  {
    match step
    case Ask(host) => w.(calls := w.calls[w.nextCall := Asked(host)], nextCall := w.nextCall + 1)
    case Lookup(id) =>
      var host := w.calls[id].host;
      if !valid(host) then w.(calls := w.calls[id := Refused(host)])
      else if host in w.cache.acceptors then Give(w, id, host, w.cache.acceptors[host])
      else w.(calls := w.calls[id := Minting(host)])
    case Mint(id, ok) =>
      var host := w.calls[id].host;
      if ok then w.(calls := w.calls[id := Minted(host, w.nextAcceptor)], nextAcceptor := w.nextAcceptor + 1)
      else w.(calls := w.calls[id := Refused(host)])
    case Land(id) =>
      var Minted(host, own) := w.calls[id];
      if host in w.cache.acceptors then Give(w, id, host, w.cache.acceptors[host])
      else Give(Keep(w, host, own), id, host, own)
  }

  /** `host` was not evicted from event `i` on. */
  ghost predicate NotEvictedSince(w: World, host: string, i: nat) {
    forall k :: i <= k < |w.log| ==> w.log[k] != Evicted(host)
  }

  /** An acceptor handed out is the cached one until its host is evicted. */
  ghost predicate GiftOk(w: World, i: nat) {
    i < |w.log| && w.log[i].Gave? && NotEvictedSince(w, w.log[i].host, i) ==>
      && w.log[i].host in w.cache.acceptors
      && w.cache.acceptors[w.log[i].host] == w.log[i].acceptor
  }

  /** Two acceptors handed out for one host agree if it was not evicted in between. */
  ghost predicate Agree(w: World, i: nat, j: nat) {
    && i < j < |w.log| && w.log[i].Gave? && w.log[j].Gave? && w.log[i].host == w.log[j].host
    && (forall k :: i <= k < j ==> w.log[k] != Evicted(w.log[i].host))
    ==> w.log[i].acceptor == w.log[j].acceptor
  }

  /** Past the check: only valid hosts get this far. */
  ghost predicate CallOk(valid: string -> bool, w: World, id: nat) {
    id in w.calls && (w.calls[id].Minting? || w.calls[id].Minted? || w.calls[id].Given?) ==>
      valid(w.calls[id].host)
  }

  /** First in, first out: what left the cache, followed by what is in it, is what entered it. */
  ghost predicate FirstInFirstOut(w: World) {
    IsSuffix(w.cache.order, w.inserted)
  }

  ghost predicate CacheOk(valid: string -> bool, w: World) {
    Listed(w.cache) && FirstInFirstOut(w) && forall host <- w.cache.acceptors :: valid(host)
  }

  ghost predicate PairOk(w: World, i: nat, j: nat) {
    GiftOk(w, i) && Agree(w, i, j)
  }

  ghost predicate HistoryOk(w: World) {
    forall i: nat, j: nat :: PairOk(w, i, j)
  }

  ghost predicate CallsOk(valid: string -> bool, w: World) {
    forall id: nat :: CallOk(valid, w, id)
  }

  ghost predicate Inv(valid: string -> bool, w: World) {
    CacheOk(valid, w) && HistoryOk(w) && CallsOk(valid, w)
  }

  lemma GiveKeepsGifts(w: World, id: nat, host: string, i: nat)
    requires host in w.cache.acceptors && GiftOk(w, i)
    ensures GiftOk(Give(w, id, host, w.cache.acceptors[host]), i)
  {
    var v := Give(w, id, host, w.cache.acceptors[host]);
    if i < |w.log| && NotEvictedSince(v, w.log[i].host, i) {
      assert forall k :: i <= k < |w.log| ==> v.log[k] == w.log[k];
      assert NotEvictedSince(w, w.log[i].host, i);
    }
  }

  lemma GiveAgrees(w: World, id: nat, host: string, i: nat, j: nat)
    requires host in w.cache.acceptors && GiftOk(w, i) && Agree(w, i, j)
    ensures Agree(Give(w, id, host, w.cache.acceptors[host]), i, j)
  {
    var v := Give(w, id, host, w.cache.acceptors[host]);
    assert forall k :: 0 <= k < |w.log| ==> v.log[k] == w.log[k];
    if i < j == |w.log| {
      assert NotEvictedSince(w, host, i) || exists k :: i <= k < j && v.log[k] == Evicted(host);
    }
  }

  /** Making room: the oldest entry goes, and its going is logged. */
  function MakeRoom(w: World): World {
    if |w.cache.order| < MAX_CACHED_HOSTS || w.cache.order == [] then w
    else w.(cache := WithoutOldest(w.cache), log := w.log + [Evicted(w.cache.order[0])])
  }

  function Add(w: World, host: string, own: nat): World {
    w.(cache := Cache(w.cache.acceptors[host := own], w.cache.order + [host]), inserted := w.inserted + [host])
  }

  lemma KeepMakesRoomThenAdds(w: World, host: string, own: nat)
    requires Listed(w.cache) && host !in w.cache.acceptors
    ensures Keep(w, host, own) == Add(MakeRoom(w), host, own)
  {
    EvictTakesTheOldest(w.cache);
    if |w.cache.order| < MAX_CACHED_HOSTS {
      assert Evictions(Pushed(w.cache)) == [];
    } else {
      OneEviction(w.cache.order[0]);
    }
  }

  lemma OneEviction(host: string)
    ensures Evictions([host]) == [Evicted(host)]
  {
    assert [host][1..] == [] && Evictions([]) == [];
  }

  lemma MakeRoomKeeps(w: World, i: nat, j: nat)
    requires PairOk(w, i, j)
    ensures PairOk(MakeRoom(w), i, j)
  {
    var v := MakeRoom(w);
    assert forall k :: 0 <= k < |w.log| ==> v.log[k] == w.log[k];
    if i < |w.log| && w.log[i].Gave? && NotEvictedSince(v, w.log[i].host, i) {
      assert NotEvictedSince(w, w.log[i].host, i);
      assert v.log == w.log || v.log[|w.log|] == Evicted(w.cache.order[0]);
    }
  }

  lemma AddKeeps(w: World, host: string, own: nat, i: nat, j: nat)
    requires host !in w.cache.acceptors && PairOk(w, i, j)
    ensures PairOk(Add(w, host, own), i, j)
  {
  }

  lemma GiveKeepsHistory(w: World, id: nat, host: string)
    requires HistoryOk(w) && host in w.cache.acceptors
    ensures HistoryOk(Give(w, id, host, w.cache.acceptors[host]))
  {
    forall i: nat, j: nat
      ensures PairOk(Give(w, id, host, w.cache.acceptors[host]), i, j)
    {
      assert PairOk(w, i, j);
      GiveKeepsGifts(w, id, host, i);
      GiveAgrees(w, id, host, i, j);
    }
  }

  lemma KeepKeepsHistory(w: World, host: string, own: nat)
    requires HistoryOk(w) && host !in w.cache.acceptors
    ensures HistoryOk(Add(MakeRoom(w), host, own))
  {
    forall i: nat, j: nat
      ensures PairOk(Add(MakeRoom(w), host, own), i, j)
    {
      assert PairOk(w, i, j);
      MakeRoomKeeps(w, i, j);
      AddKeeps(MakeRoom(w), host, own, i, j);
    }
  }

  lemma SuffixMoves(order: seq<string>, inserted: seq<string>, host: string)
    requires IsSuffix(order, inserted)
    ensures order != [] ==> IsSuffix(order[1..], inserted)
    ensures IsSuffix(order + [host], inserted + [host])
  {
  }

  lemma MakeRoomKeepsCache(valid: string -> bool, w: World)
    requires CacheOk(valid, w)
    ensures CacheOk(valid, MakeRoom(w)) && |MakeRoom(w).cache.order| < MAX_CACHED_HOSTS
  {
    SuffixMoves(w.cache.order, w.inserted, "");
    if |w.cache.order| == MAX_CACHED_HOSTS {
      DropOldest(w.cache);
    }
  }

  lemma AddKeepsCache(valid: string -> bool, w: World, host: string, own: nat)
    requires CacheOk(valid, w) && |w.cache.order| < MAX_CACHED_HOSTS
    requires host !in w.cache.acceptors && valid(host)
    ensures CacheOk(valid, Add(w, host, own))
  {
    AddNewest(w.cache, host, own);
    SuffixMoves(w.cache.order, w.inserted, host);
  }

  lemma GiveKeepsInv(valid: string -> bool, w: World, id: nat, host: string)
    requires Inv(valid, w) && host in w.cache.acceptors && valid(host)
    ensures Inv(valid, Give(w, id, host, w.cache.acceptors[host]))
  {
    GiveKeepsHistory(w, id, host);
    forall other: nat
      ensures CallOk(valid, Give(w, id, host, w.cache.acceptors[host]), other)
    {
      assert CallOk(valid, w, other);
    }
  }

  lemma KeepKeepsCache(valid: string -> bool, w: World, host: string, own: nat)
    requires CacheOk(valid, w) && host !in w.cache.acceptors && valid(host)
    ensures CacheOk(valid, Add(MakeRoom(w), host, own))
  {
    MakeRoomKeepsCache(valid, w);
    AddKeepsCache(valid, MakeRoom(w), host, own);
  }

  lemma KeepKeepsCalls(valid: string -> bool, w: World, host: string, own: nat)
    requires CallsOk(valid, w)
    ensures CallsOk(valid, Add(MakeRoom(w), host, own))
  {
    forall other: nat
      ensures CallOk(valid, Add(MakeRoom(w), host, own), other)
    {
      assert CallOk(valid, w, other);
    }
  }

  lemma KeepKeepsInv(valid: string -> bool, w: World, host: string, own: nat)
    requires Inv(valid, w) && host !in w.cache.acceptors && valid(host)
    ensures Inv(valid, Add(MakeRoom(w), host, own))
  {
    KeepKeepsHistory(w, host, own);
    KeepKeepsCache(valid, w, host, own);
    KeepKeepsCalls(valid, w, host, own);
  }

  lemma LandKeepsInv(valid: string -> bool, w: World, id: nat)
    requires Inv(valid, w) && Enabled(w, Land(id))
    ensures Inv(valid, Apply(valid, w, Land(id)))
  {
    var Minted(host, own) := w.calls[id];
    assert CallOk(valid, w, id);
    if host in w.cache.acceptors {
      GiveKeepsInv(valid, w, id, host);
    } else {
      KeepMakesRoomThenAdds(w, host, own);
      KeepKeepsInv(valid, w, host, own);
      GiveKeepsInv(valid, Keep(w, host, own), id, host);
    }
  }

  /** Steps that leave the cache and the log alone. */
  lemma HistoryStays(w: World, v: World)
    requires HistoryOk(w) && v.cache == w.cache && v.log == w.log
    ensures HistoryOk(v)
  {
    forall i: nat, j: nat
      ensures PairOk(v, i, j)
    {
      assert PairOk(w, i, j);
      assert forall host :: NotEvictedSince(v, host, i) ==> NotEvictedSince(w, host, i);
    }
  }

  lemma AskKeepsCall(valid: string -> bool, w: World, host: string, id: nat)
    requires CallOk(valid, w, id)
    ensures CallOk(valid, Apply(valid, w, Ask(host)), id)
  {
  }

  lemma LookupKeepsCall(valid: string -> bool, w: World, asked: nat, id: nat)
    requires Enabled(w, Lookup(asked)) && CallOk(valid, w, id)
    ensures CallOk(valid, Apply(valid, w, Lookup(asked)), id)
  {
  }

  lemma MintKeepsCall(valid: string -> bool, w: World, minting: nat, ok: bool, id: nat)
    requires Enabled(w, Mint(minting, ok)) && CallOk(valid, w, id) && CallOk(valid, w, minting)
    ensures CallOk(valid, Apply(valid, w, Mint(minting, ok)), id)
  {
  }

  lemma StepKeepsCalls(valid: string -> bool, w: World, step: Step)
    requires CallsOk(valid, w) && Enabled(w, step) && !step.Land?
    ensures CallsOk(valid, Apply(valid, w, step))
  {
    forall id: nat
      ensures CallOk(valid, Apply(valid, w, step), id)
    {
      assert CallOk(valid, w, id);
      match step {
        case Ask(host) => AskKeepsCall(valid, w, host, id);
        case Lookup(asked) => LookupKeepsCall(valid, w, asked, id);
        case Mint(minting, ok) =>
          assert CallOk(valid, w, minting);
          MintKeepsCall(valid, w, minting, ok, id);
      }
    }
  }

  lemma StepKeepsInv(valid: string -> bool, w: World, step: Step)
    requires Inv(valid, w) && Enabled(w, step)
    ensures Inv(valid, Apply(valid, w, step))
  {
    var v := Apply(valid, w, step);
    if step.Land? {
      LandKeepsInv(valid, w, step.id);
    } else {
      StepKeepsCalls(valid, w, step);
      if v.log == w.log {
        HistoryStays(w, v);
      } else {
        GiveKeepsHistory(w, step.id, w.calls[step.id].host);
      }
    }
  }

  ghost predicate Runnable(valid: string -> bool, w: World, steps: seq<Step>)
    decreases |steps|
  {
    steps == [] || (Enabled(w, steps[0]) && Runnable(valid, Apply(valid, w, steps[0]), steps[1..]))
  }

  ghost function After(valid: string -> bool, w: World, steps: seq<Step>): World
    requires Runnable(valid, w, steps)
    decreases |steps|
  {
    if steps == [] then w else After(valid, Apply(valid, w, steps[0]), steps[1..])
  }

  lemma Compose(valid: string -> bool, w: World, step: Step, rest: seq<Step>)
    requires Enabled(w, step) && Runnable(valid, Apply(valid, w, step), rest)
    ensures Runnable(valid, w, [step] + rest)
    ensures After(valid, w, [step] + rest) == After(valid, Apply(valid, w, step), rest)
  {
    assert ([step] + rest)[1..] == rest;
  }

  /** The steps of a call nobody interrupts; `minted` tells whether a certificate can be made. */
  function Alone(valid: string -> bool, w: World, host: string, minted: bool): seq<Step> {
    var id := w.nextCall;
    var asked := [Ask(host)] + [Lookup(id)];
    if !valid(host) || host in w.cache.acceptors then asked
    else if !minted then [Ask(host)] + ([Lookup(id)] + [Mint(id, false)])
    else [Ask(host)] + ([Lookup(id)] + ([Mint(id, true)] + [Land(id)]))
  }

  /** Uninterrupted, a call is refused for an invalid host or without a certificate, and is
      otherwise given the cached acceptor or a new one, which is then the one inserted. */
  lemma AloneIsAnswered(valid: string -> bool, w: World, host: string, minted: bool)
    ensures Runnable(valid, w, Alone(valid, w, host, minted))
    ensures var v, id := After(valid, w, Alone(valid, w, host, minted)), w.nextCall;
            && id in v.calls
            && if !valid(host) then v.calls[id] == Refused(host) && v.cache == w.cache
               else if host in w.cache.acceptors then
                 v.calls[id] == Given(host, w.cache.acceptors[host]) && v.cache == w.cache
               else if !minted then v.calls[id] == Refused(host) && v.cache == w.cache
               else v.calls[id] == Given(host, w.nextAcceptor) && v.cache == Insert(w.cache, host, w.nextAcceptor)
                    && v.nextAcceptor == w.nextAcceptor + 1
  {
    var id := w.nextCall;
    var a := Apply(valid, w, Ask(host));
    var b := Apply(valid, a, Lookup(id));
    if !valid(host) || host in w.cache.acceptors {
      Compose(valid, a, Lookup(id), []);
      Compose(valid, w, Ask(host), [Lookup(id)]);
    } else if !minted {
      Compose(valid, b, Mint(id, false), []);
      Compose(valid, a, Lookup(id), [Mint(id, false)]);
      Compose(valid, w, Ask(host), [Lookup(id)] + [Mint(id, false)]);
    } else {
      var c := Apply(valid, b, Mint(id, true));
      Compose(valid, c, Land(id), []);
      Compose(valid, b, Mint(id, true), [Land(id)]);
      Compose(valid, a, Lookup(id), [Mint(id, true)] + [Land(id)]);
      Compose(valid, w, Ask(host), [Lookup(id)] + ([Mint(id, true)] + [Land(id)]));
    }
  }

  lemma {:induction false} RunKeepsInv(valid: string -> bool, w: World, steps: seq<Step>)
    requires Inv(valid, w) && Runnable(valid, w, steps)
    ensures Inv(valid, After(valid, w, steps))
    decreases |steps|
  {
    if steps != [] {
      StepKeepsInv(valid, w, steps[0]);
      RunKeepsInv(valid, Apply(valid, w, steps[0]), steps[1..]);
    }
  }

  /** The host check the steps are run with. */
  function HostCheck(isAddress: string -> bool): string -> bool {
    host => IsValidHost(isAddress, host)
  }

  /** Every interleaving: the cache stays listed and bounded, holds only valid hosts, and
      has kept exactly its newest insertions. */
  lemma CacheSound(isAddress: string -> bool, steps: seq<Step>)
    requires Runnable(HostCheck(isAddress), Start, steps)
    ensures var w := After(HostCheck(isAddress), Start, steps);
            && Listed(w.cache) && FirstInFirstOut(w)
            && forall host <- w.cache.acceptors :: IsValidHost(isAddress, host)
  {
    RunKeepsInv(HostCheck(isAddress), Start, steps);
  }

  /** Every interleaving: two calls for one host with no eviction of it in between
      were given the same acceptor, even if both minted one. */
  lemma SameAcceptorUntilEvicted(valid: string -> bool, steps: seq<Step>, i: nat, j: nat)
    requires Runnable(valid, Start, steps)
    requires var log := After(valid, Start, steps).log;
             && i < j < |log| && log[i].Gave? && log[j].Gave? && log[i].host == log[j].host
             && forall k :: i <= k < j ==> log[k] != Evicted(log[i].host)
    ensures var log := After(valid, Start, steps).log;
            log[i].acceptor == log[j].acceptor
  {
    RunKeepsInv(valid, Start, steps);
    assert PairOk(After(valid, Start, steps), i, j);
  }
}

module LeafCache {
  import opened Wrappers
  import opened Model = LeafCacheModel

  /** The cache behind its lock. */
  class LeafCache {
    var acceptors: map<string, nat>
    var order: seq<string>

    ghost function View(): Cache
      reads this
    {
      Cache(acceptors, order)
    }

    constructor ()
      ensures View() == Cache(map[], []) && Listed(View())
    {
      acceptors, order := map[], [];
    }

    function Get(host: string): (acceptor: Option<nat>)
      reads this
      ensures acceptor.Some? <==> host in acceptors
      ensures acceptor.Some? ==> acceptor.value == acceptors[host]
    {
      if host in acceptors then Some(acceptors[host]) else None
    }

    method Insert(host: string, acceptor: nat)
      modifies this
      ensures View() == Model.Insert(old(View()), host, acceptor)
      ensures old(Listed(View())) ==> Listed(View()) && host in acceptors
    {
      if old(Listed(View())) {
        InsertKeepsListed(View(), host, acceptor);
      }
      if host in acceptors {
        return;
      }
      while |acceptors| >= MAX_CACHED_HOSTS && order != []
        invariant Evict(View()) == Evict(old(View()))
        decreases |order|
      {
        acceptors := acceptors - {order[0]};
        order := order[1..];
      }
      order := order + [host];
      acceptors := acceptors[host := acceptor];
    }
  }

  class CertAuthority {
    const isAddress: string -> bool
    const cache: LeafCache

    constructor (isAddress: string -> bool)
      ensures this.isAddress == isAddress && fresh(cache) && Listed(cache.View()) && cache.View().order == []
    {
      this.isAddress := isAddress;
      cache := new LeafCache();
    }

    /** `acceptor` on one thread; `minted` is what building a certificate would yield. */
    method Acceptor(host: string, minted: Option<nat>) returns (acceptor: Option<nat>)
      requires Listed(cache.View())
      modifies cache
      ensures Listed(cache.View())
      ensures acceptor.Some? ==>
                && IsValidHost(isAddress, host)
                && host in cache.View().acceptors && cache.View().acceptors[host] == acceptor.value
      ensures !IsValidHost(isAddress, host) ==> acceptor.None?
      ensures old(host !in cache.View().acceptors) && IsValidHost(isAddress, host) ==> acceptor == minted
      ensures cache.View() == if acceptor.Some? then Model.Insert(old(cache.View()), host, acceptor.value)
                              else old(cache.View())
    {
      if !IsValidHost(isAddress, host) {
        return None;
      }
      acceptor := cache.Get(host);
      if acceptor.Some? || minted.None? {
        return;
      }
      var existing := cache.Get(host);
      if existing.Some? {
        return existing;
      }
      EvictTakesTheOldest(cache.View());
      cache.Insert(host, minted.value);
      acceptor := minted;
    }
  }
}
