/** `src/proxy_pool.rs`: the upstream pool and its rotation. A random choice is a
    parameter: any number stands for what the generator drew. */
module PoolModel {
  import opened Wrappers
  import opened Text

  datatype Strategy = RoundRobin | Random

  datatype Endpoint = Endpoint(url: string, country: Option<string>, healthy: bool)

  datatype Pool = Pool(endpoints: seq<Endpoint>, strategy: Strategy, current: Option<nat>)

  // -- building ----------------------------------------------------------------------------

  predicate Lists(endpoints: seq<Endpoint>, url: string) {
    exists e <- endpoints :: e.url == url
  }

  function Collect(given: seq<(string, Option<string>)>): seq<Endpoint> {
    if given == [] then []
    else
      var earlier := Collect(given[..|given| - 1]);
      var (raw, country) := given[|given| - 1];
      var url := Trim(raw);
      if url == "" || Lists(earlier, url) then earlier else earlier + [Endpoint(url, country, true)]
  }

  function Draw(n: nat, draw: nat): (i: nat)
    requires n > 0
    ensures i < n
  {
    draw % n
  }

  function Build(given: seq<(string, Option<string>)>, strategy: Strategy, draw: nat): Pool {
    var endpoints := Collect(given);
    Pool(endpoints, strategy,
         if endpoints == [] then None
         else match strategy case RoundRobin => Some(0) case Random => Some(Draw(|endpoints|, draw)))
  }

  // -- rotating ----------------------------------------------------------------------------

  /** The index `step` places after `start`, going round. */
  function Ring(n: nat, start: nat, step: nat): (i: nat)
    requires n > 0
    ensures i < n
  {
    (start + step) % n
  }

  /** The first healthy endpoint at `start + step`, `start + step + 1`, ... wrapping around. */
  function FirstHealthy(endpoints: seq<Endpoint>, start: nat, step: nat): Option<nat>
    decreases |endpoints| + 1 - step
  {
    if endpoints == [] || step > |endpoints| then None
    else
      var i := Ring(|endpoints|, start, step);
      if endpoints[i].healthy then Some(i) else FirstHealthy(endpoints, start, step + 1)
  }

  function HealthyFrom(endpoints: seq<Endpoint>, i: nat): seq<nat>
    decreases |endpoints| - i
  {
    if i >= |endpoints| then []
    else (if endpoints[i].healthy then [i] else []) + HealthyFrom(endpoints, i + 1)
  }

  function Next(p: Pool, draw: nat): Option<nat> {
    match p.strategy
    case RoundRobin =>
      FirstHealthy(p.endpoints, match p.current case Some(i) => i case None => 0, 1)
    case Random =>
      var healthy := HealthyFrom(p.endpoints, 0);
      if healthy == [] then None else Some(healthy[Draw(|healthy|, draw)])
  }

  function Retire(p: Pool): Pool {
    match p.current
    case Some(i) =>
      if i < |p.endpoints| then p.(endpoints := p.endpoints[i := p.endpoints[i].(healthy := false)]) else p
    case None => p
  }

  function Rotate(p: Pool, draw: nat): Pool {
    var retired := Retire(p);
    retired.(current := Next(retired, draw))
  }

  function Selected(p: Pool): Option<string> {
    match p.current
    case Some(i) => if i < |p.endpoints| then Some(p.endpoints[i].url) else None
    case None => None
  }

  function SelectedCountry(p: Pool): Option<string> {
    match p.current
    case Some(i) => if i < |p.endpoints| then p.endpoints[i].country else None
    case None => None
  }

  function RotateTimes(p: Pool, draws: nat -> nat, k: nat): Pool {
    if k == 0 then p else Rotate(RotateTimes(p, draws, k - 1), draws(k - 1))
  }

  // -- what the code keeps --------------------------------------------------------------------

  ghost predicate DistinctUrls(endpoints: seq<Endpoint>) {
    forall i, j :: 0 <= i < j < |endpoints| ==> endpoints[i].url != endpoints[j].url
  }

  ghost predicate InRange(p: Pool) {
    p.current.Some? ==> p.current.value < |p.endpoints|
  }

  predicate HealthyAt(p: Pool, i: nat) {
    i < |p.endpoints| && p.endpoints[i].healthy
  }

  /** How many endpoints are healthy. */
  function HealthyCount(endpoints: seq<Endpoint>): (n: nat)
    ensures n <= |endpoints|
  {
    if endpoints == [] then 0
    else HealthyCount(endpoints[..|endpoints| - 1]) + if endpoints[|endpoints| - 1].healthy then 1 else 0
  }

  lemma {:induction false} NoneCounted(endpoints: seq<Endpoint>)
    ensures HealthyCount(endpoints) == 0 <==> forall i :: 0 <= i < |endpoints| ==> !endpoints[i].healthy
  {
    if endpoints != [] {
      NoneCounted(endpoints[..|endpoints| - 1]);
      assert forall i :: 0 <= i < |endpoints| - 1 ==> endpoints[..|endpoints| - 1][i] == endpoints[i];
    }
  }

  lemma {:induction false} AllCounted(endpoints: seq<Endpoint>)
    requires forall i :: 0 <= i < |endpoints| ==> endpoints[i].healthy
    ensures HealthyCount(endpoints) == |endpoints|
  {
    if endpoints != [] {
      AllCounted(endpoints[..|endpoints| - 1]);
    }
  }

  lemma {:induction false} CountAfterRetiring(endpoints: seq<Endpoint>, i: nat)
    requires i < |endpoints| && endpoints[i].healthy
    ensures HealthyCount(endpoints[i := endpoints[i].(healthy := false)]) == HealthyCount(endpoints) - 1
  {
    var n := |endpoints| - 1;
    var after := endpoints[i := endpoints[i].(healthy := false)];
    if i < n {
      CountAfterRetiring(endpoints[..n], i);
      assert after[..n] == endpoints[..n][i := endpoints[i].(healthy := false)];
    } else {
      assert after[..n] == endpoints[..n];
    }
  }

  /** Every collected URL is trimmed, non-empty, listed once, and healthy. */
  lemma {:induction false} CollectDistinct(given: seq<(string, Option<string>)>)
    ensures DistinctUrls(Collect(given))
    ensures forall e <- Collect(given) :: e.healthy && e.url != "" && exists g <- given :: Trim(g.0) == e.url
    ensures forall g <- given :: Trim(g.0) == "" || Lists(Collect(given), Trim(g.0))
  {
    if given != [] {
      var earlier, last := given[..|given| - 1], given[|given| - 1];
      CollectDistinct(earlier);
      assert given == earlier + [last];
      forall g <- given
        ensures Trim(g.0) == "" || Lists(Collect(given), Trim(g.0))
      {
        if g in earlier && Trim(g.0) != "" {
          var e :| e in Collect(earlier) && e.url == Trim(g.0);
          assert e in Collect(given);
        } else if g == last && Trim(g.0) != "" && !Lists(Collect(earlier), Trim(g.0)) {
          assert Endpoint(Trim(last.0), last.1, true) in Collect(given);
        }
      }
    }
  }

  /** Where a URL is first given. */
  function FirstGiven(given: seq<(string, Option<string>)>, url: string): (r: Option<nat>)
    ensures r.Some? ==> r.value < |given| && Trim(given[r.value].0) == url
    ensures r.None? ==> forall g <- given :: Trim(g.0) != url
  {
    if given == [] then None
    else
      var earlier := FirstGiven(given[..|given| - 1], url);
      if earlier.Some? then earlier
      else if Trim(given[|given| - 1].0) == url then Some(|given| - 1)
      else None
  }

  ghost predicate GivenAsFirst(given: seq<(string, Option<string>)>, e: Endpoint) {
    var first := FirstGiven(given, e.url);
    first.Some? && given[first.value].1 == e.country
  }

  ghost predicate GivenBefore(given: seq<(string, Option<string>)>, e: Endpoint, limit: nat) {
    var first := FirstGiven(given, e.url);
    first.Some? && first.value < limit
  }

  /** Endpoints stand in the order their URLs were first given, with the country given there. */
  ghost predicate FirstKept(given: seq<(string, Option<string>)>, endpoints: seq<Endpoint>)
    decreases |endpoints|
  {
    endpoints == [] ||
    var front, last := endpoints[..|endpoints| - 1], endpoints[|endpoints| - 1];
    && GivenAsFirst(given, last)
    && (forall e <- front :: GivenBefore(given, e, FirstGiven(given, last.url).value))
    && FirstKept(given, front)
  }

  lemma OneMoreGiven(given: seq<(string, Option<string>)>, e: Endpoint, limit: nat)
    requires given != [] && GivenBefore(given[..|given| - 1], e, limit)
    ensures GivenBefore(given, e, limit) && GivenBefore(given, e, |given| - 1)
    ensures FirstGiven(given, e.url) == FirstGiven(given[..|given| - 1], e.url)
  {
  }

  lemma {:induction false} KeptWithOneMoreGiven(given: seq<(string, Option<string>)>, endpoints: seq<Endpoint>)
    requires given != [] && FirstKept(given[..|given| - 1], endpoints)
    ensures FirstKept(given, endpoints) && forall e <- endpoints :: GivenBefore(given, e, |given| - 1)
    decreases |endpoints|
  {
    if endpoints != [] {
      var front, last := endpoints[..|endpoints| - 1], endpoints[|endpoints| - 1];
      KeptWithOneMoreGiven(given, front);
      var earlier := given[..|given| - 1];
      OneMoreGiven(given, last, |given| - 1);
      forall e <- front
        ensures GivenBefore(given, e, FirstGiven(given, last.url).value)
      {
        OneMoreGiven(given, e, FirstGiven(earlier, last.url).value);
      }
      assert endpoints == front + [last];
    }
  }

  lemma KeptWithOneMoreEndpoint(given: seq<(string, Option<string>)>, endpoints: seq<Endpoint>, last: Endpoint)
    requires given != [] && FirstKept(given, endpoints) && forall e <- endpoints :: GivenBefore(given, e, |given| - 1)
    requires FirstGiven(given, last.url) == Some(|given| - 1) && given[|given| - 1].1 == last.country
    ensures FirstKept(given, endpoints + [last])
  {
    assert (endpoints + [last])[..|endpoints|] == endpoints;
  }

  /** Declaration order is kept, and of repeated URLs the first one's country. */
  lemma {:induction false} CollectKeepsFirst(given: seq<(string, Option<string>)>)
    ensures FirstKept(given, Collect(given))
  {
    if given != [] {
      var earlier, last := given[..|given| - 1], given[|given| - 1];
      CollectKeepsFirst(earlier);
      KeptWithOneMoreGiven(given, Collect(earlier));
      var url := Trim(last.0);
      if url != "" && !Lists(Collect(earlier), url) {
        CollectDistinct(earlier);
        assert FirstGiven(earlier, url).None?;
        KeptWithOneMoreEndpoint(given, Collect(earlier), Endpoint(url, last.1, true));
      }
    }
  }

  lemma {:induction false} FirstHealthyFinds(endpoints: seq<Endpoint>, start: nat, step: nat)
    requires endpoints != []
    ensures var r := FirstHealthy(endpoints, start, step);
            r.Some? ==> r.value < |endpoints| && endpoints[r.value].healthy
    ensures FirstHealthy(endpoints, start, step).None? ==>
              forall s :: step <= s <= |endpoints| ==> !endpoints[Ring(|endpoints|, start, s)].healthy
    decreases |endpoints| + 1 - step
  {
    if step <= |endpoints| && !endpoints[Ring(|endpoints|, start, step)].healthy {
      FirstHealthyFinds(endpoints, start, step + 1);
    }
  }

  lemma ModWrap(a: nat, n: nat)
    requires a < n
    ensures a % n == a && (a + n) % n == a
  {
  }

  /** The first selection: round-robin begins at the front, a random one may fall on any endpoint. */
  lemma BuildSelects(given: seq<(string, Option<string>)>, i: nat, draw: nat)
    requires i < |Collect(given)|
    ensures Build(given, Random, i).current == Some(i) && Build(given, RoundRobin, draw).current == Some(0)
  {
    ModWrap(i, |Collect(given)|);
  }

  /** One turn around the ring passes every endpoint. */
  lemma RingCovers(n: nat, start: nat, i: nat) returns (step: nat)
    requires start < n && i < n
    ensures 1 <= step <= n && Ring(n, start, step) == i
  {
    step := if i > start then i - start else i + n - start;
    ModWrap(i, n);
  }

  lemma {:induction false} HealthyFromLists(endpoints: seq<Endpoint>, i: nat)
    ensures forall j :: j in HealthyFrom(endpoints, i) <==> i <= j < |endpoints| && endpoints[j].healthy
    decreases |endpoints| - i
  {
    if i < |endpoints| {
      HealthyFromLists(endpoints, i + 1);
    }
  }

  lemma RingSelectsHealthy(p: Pool, start: nat)
    requires start < |p.endpoints|
    ensures var next := FirstHealthy(p.endpoints, start, 1);
            && (next.Some? ==> HealthyAt(p, next.value))
            && (next.None? ==> forall i: nat :: !HealthyAt(p, i))
  {
    FirstHealthyFinds(p.endpoints, start, 1);
    if FirstHealthy(p.endpoints, start, 1).None? {
      forall i: nat | i < |p.endpoints|
        ensures !p.endpoints[i].healthy
      {
        var step := RingCovers(|p.endpoints|, start, i);
      }
    }
  }

  lemma ListSelectsHealthy(p: Pool, draw: nat)
    ensures var healthy := HealthyFrom(p.endpoints, 0);
            && (healthy != [] ==> HealthyAt(p, healthy[Draw(|healthy|, draw)]))
            && (healthy == [] ==> forall i: nat :: !HealthyAt(p, i))
  {
    HealthyFromLists(p.endpoints, 0);
    var healthy := HealthyFrom(p.endpoints, 0);
    if healthy != [] {
      assert healthy[Draw(|healthy|, draw)] in healthy;
    } else {
      forall i: nat
        ensures !HealthyAt(p, i)
      {
        assert i !in healthy;
      }
    }
  }

  /** Whichever the strategy: a healthy endpoint is selected, and none only when none is left. */
  lemma NextSelectsHealthy(p: Pool, draw: nat)
    requires InRange(p)
    ensures Next(p, draw).Some? ==> HealthyAt(p, Next(p, draw).value)
    ensures Next(p, draw).None? ==> forall i: nat :: !HealthyAt(p, i)
  {
    match p.strategy {
      case Random => ListSelectsHealthy(p, draw);
      case RoundRobin =>
        if p.endpoints != [] {
          RingSelectsHealthy(p, match p.current case Some(i) => i case None => 0);
        }
    }
  }

  /** A random rotation may fall on any endpoint still healthy. */
  lemma RandomReachesAll(p: Pool, i: nat) returns (draw: nat)
    requires p.strategy == Random && HealthyAt(p, i)
    ensures Next(p, draw) == Some(i)
  {
    HealthyFromLists(p.endpoints, 0);
    var healthy := HealthyFrom(p.endpoints, 0);
    assert i in healthy;
    draw :| 0 <= draw < |healthy| && healthy[draw] == i;
    ModWrap(draw, |healthy|);
  }

  /** What a rotation leaves as it was, and the one endpoint it retires. */
  ghost predicate Retires(p: Pool, q: Pool) {
    && |q.endpoints| == |p.endpoints| && q.strategy == p.strategy
    && (forall i :: 0 <= i < |p.endpoints| ==> q.endpoints[i].url == p.endpoints[i].url)
    && forall i: nat :: HealthyAt(q, i) <==> HealthyAt(p, i) && p.current != Some(i)
  }

  lemma RotateRetires(p: Pool, draw: nat)
    requires InRange(p)
    ensures Retires(p, Rotate(p, draw))
  {
  }

  lemma RotateSelects(p: Pool, draw: nat)
    requires InRange(p)
    ensures var q := Rotate(p, draw);
            && InRange(q)
            && (q.current.Some? ==> HealthyAt(q, q.current.value))
            && (q.current.None? ==> forall i: nat :: !HealthyAt(q, i))
  {
    NextSelectsHealthy(Retire(p), draw);
    assert forall i: nat :: HealthyAt(Rotate(p, draw), i) <==> HealthyAt(Retire(p), i);
  }

  /** Either strategy: exactly the current endpoint is retired, and a healthy one is
      selected if any is left. */
  lemma RotateStep(p: Pool, draw: nat)
    requires InRange(p)
    ensures var q := Rotate(p, draw);
            && Retires(p, q) && InRange(q)
            && (q.current.Some? ==> HealthyAt(q, q.current.value))
            && (q.current.None? ==> forall i: nat :: !HealthyAt(q, i))
  {
    RotateRetires(p, draw);
    RotateSelects(p, draw);
  }

  /** A pool as built: distinct URLs, all healthy, one of them selected if there is any. */
  ghost predicate Untouched(p: Pool) {
    && DistinctUrls(p.endpoints) && InRange(p)
    && (forall i :: 0 <= i < |p.endpoints| ==> p.endpoints[i].healthy)
    && (p.current.Some? <==> p.endpoints != [])
    && (p.strategy == RoundRobin && p.endpoints != [] ==> p.current == Some(0))
  }

  lemma BuildUntouched(given: seq<(string, Option<string>)>, strategy: Strategy, draw: nat)
    ensures Untouched(Build(given, strategy, draw))
  {
    CollectDistinct(given);
  }

  /** `k` rotations in: `n - k` endpoints are healthy, one of them selected while any is. */
  ghost predicate Reached(p: Pool, q: Pool, k: nat) {
    var n := |p.endpoints|;
    && InRange(q) && |q.endpoints| == n && q.strategy == p.strategy
    && (forall i :: 0 <= i < n ==> q.endpoints[i].url == p.endpoints[i].url)
    && HealthyCount(q.endpoints) == (if k <= n then n - k else 0)
    && (q.current.Some? <==> k < n)
    && (q.current.Some? ==> HealthyAt(q, q.current.value))
  }

  lemma RotateCounts(q: Pool, draw: nat)
    requires InRange(q) && (q.current.Some? ==> HealthyAt(q, q.current.value))
    ensures HealthyCount(Rotate(q, draw).endpoints)
         == HealthyCount(q.endpoints) - if q.current.Some? then 1 else 0
  {
    if q.current.Some? {
      CountAfterRetiring(q.endpoints, q.current.value);
    }
  }

  lemma SelectsIffHealthy(r: Pool)
    requires InRange(r)
    requires r.current.Some? ==> HealthyAt(r, r.current.value)
    requires r.current.None? ==> forall i: nat :: !HealthyAt(r, i)
    ensures r.current.Some? <==> HealthyCount(r.endpoints) > 0
  {
    NoneCounted(r.endpoints);
    if r.current.None? {
      forall i | 0 <= i < |r.endpoints|
        ensures !r.endpoints[i].healthy
      {
        assert !HealthyAt(r, i);
      }
    }
  }

  lemma RotateReaches(p: Pool, q: Pool, k: nat, draw: nat)
    requires Reached(p, q, k)
    ensures Reached(p, Rotate(q, draw), k + 1)
  {
    RotateStep(q, draw);
    RotateCounts(q, draw);
    SelectsIffHealthy(Rotate(q, draw));
  }

  lemma {:induction false} Lifetime(p: Pool, draws: nat -> nat, k: nat)
    requires Untouched(p)
    ensures Reached(p, RotateTimes(p, draws, k), k)
  {
    if k == 0 {
      AllCounted(p.endpoints);
    } else {
      Lifetime(p, draws, k - 1);
      RotateReaches(p, RotateTimes(p, draws, k - 1), k - 1, draws(k - 1));
    }
  }

  /** Over a pool's whole life: of n endpoints exactly n - 1 rotations succeed,
      and every later one finds nothing. */
  lemma RotationsSucceed(p: Pool, draws: nat -> nat, k: nat)
    requires Untouched(p)
    ensures Selected(RotateTimes(p, draws, k)).Some? <==> k < |p.endpoints|
  {
    Lifetime(p, draws, k);
  }

  /** Rotation `k` retires the endpoint selected before it, and heals none. */
  lemma RotationRetires(p: Pool, draws: nat -> nat, k: nat)
    requires Untouched(p) && k < |p.endpoints|
    ensures RotateTimes(p, draws, k).current.Some?
    ensures Retires(RotateTimes(p, draws, k), RotateTimes(p, draws, k + 1))
  {
    Lifetime(p, draws, k);
    RotateRetires(RotateTimes(p, draws, k), draws(k));
  }

  ghost predicate RetiresAt(pools: nat -> Pool, k: nat) {
    Retires(pools(k), pools(k + 1))
  }

  /** Along any pools that only retire, what is unhealthy stays so. */
  lemma {:induction false} UnhealthyStays(pools: nat -> Pool, i: nat, j: nat, k: nat)
    requires j <= k && !HealthyAt(pools(j), i)
    requires forall m: nat :: j <= m < k ==> RetiresAt(pools, m)
    ensures !HealthyAt(pools(k), i)
  {
    if j < k {
      UnhealthyStays(pools, i, j, k - 1);
      assert RetiresAt(pools, k - 1);
    }
  }

  /** The life of a pool as a plain sequence of pools. */
  lemma LifeRetires(p: Pool, draws: nat -> nat) returns (pools: nat -> Pool)
    requires Untouched(p)
    ensures forall k: nat :: pools(k) == RotateTimes(p, draws, k)
    ensures forall k: nat :: k < |p.endpoints| ==> RetiresAt(pools, k)
  {
    pools := (k: nat) => RotateTimes(p, draws, k);
    forall k: nat | k < |p.endpoints|
      ensures RetiresAt(pools, k)
    {
      RotationRetires(p, draws, k);
    }
  }

  lemma RetiredStays(pools: nat -> Pool, j: nat, k: nat)
    requires j < k && forall m: nat :: j <= m < k ==> RetiresAt(pools, m)
    requires pools(j).current.Some?
    ensures !HealthyAt(pools(k), pools(j).current.value)
  {
    assert RetiresAt(pools, j);
    UnhealthyStays(pools, pools(j).current.value, j + 1, k);
  }

  lemma RetiredForGood(p: Pool, draws: nat -> nat, j: nat, k: nat)
    requires Untouched(p) && j < k <= |p.endpoints|
    ensures RotateTimes(p, draws, j).current.Some?
    ensures !HealthyAt(RotateTimes(p, draws, k), RotateTimes(p, draws, j).current.value)
  {
    Lifetime(p, draws, j);
    var pools := LifeRetires(p, draws);
    RetiredStays(pools, j, k);
  }

  lemma DifferentPlacesDiffer(p: Pool, q: Pool, j: nat, r: Pool, k: nat)
    requires DistinctUrls(p.endpoints) && Reached(p, q, j) && Reached(p, r, k)
    requires q.current.Some? && r.current.Some? && q.current != r.current
    ensures Selected(q) != Selected(r)
  {
    assert q.endpoints[q.current.value].url == p.endpoints[q.current.value].url;
    assert r.endpoints[r.current.value].url == p.endpoints[r.current.value].url;
  }

  /** No URL is selected twice in the life of a pool. */
  lemma NeverSelectedTwice(p: Pool, draws: nat -> nat, j: nat, k: nat)
    requires Untouched(p) && j < k < |p.endpoints|
    ensures Selected(RotateTimes(p, draws, j)) != Selected(RotateTimes(p, draws, k))
  {
    Lifetime(p, draws, j);
    Lifetime(p, draws, k);
    RetiredForGood(p, draws, j, k);
    DifferentPlacesDiffer(p, RotateTimes(p, draws, j), j, RotateTimes(p, draws, k), k);
  }

  /** Endpoint `k` is selected, and all from there on are healthy. */
  ghost predicate InOrder(p: Pool, n: nat, k: nat) {
    && p.strategy == RoundRobin && |p.endpoints| == n && k < n && p.current == Some(k)
    && forall i :: k <= i < n ==> p.endpoints[i].healthy
  }

  lemma NextInOrder(p: Pool, n: nat, k: nat, draw: nat)
    requires InOrder(p, n, k) && k + 1 < n
    ensures InOrder(Rotate(p, draw), n, k + 1)
  {
  }

  /** Round-robin follows declaration order. */
  lemma {:induction false} RoundRobinInOrder(p: Pool, draws: nat -> nat, k: nat)
    requires Untouched(p) && p.strategy == RoundRobin && k < |p.endpoints|
    ensures InOrder(RotateTimes(p, draws, k), |p.endpoints|, k)
  {
    if k > 0 {
      RoundRobinInOrder(p, draws, k - 1);
      NextInOrder(RotateTimes(p, draws, k - 1), |p.endpoints|, k - 1, draws(k - 1));
    }
  }
}

module ProxyPool {
  import opened Wrappers
  import opened Text
  import opened Model = PoolModel

  class ProxyPool {
    var endpoints: seq<Endpoint>
    const strategy: Strategy
    var current: Option<nat>

    ghost function View(): Pool
      reads this
    {
      Pool(endpoints, strategy, current)
    }

    constructor WithEndpoints(given: seq<(string, Option<string>)>, strategy: Strategy, draw: nat)
      ensures View() == Build(given, strategy, draw) && Untouched(View()) && FirstKept(given, endpoints)
    {
      var collected: seq<Endpoint> := [];
      var i := 0;
      while i < |given|
        invariant 0 <= i <= |given|
        invariant collected == Collect(given[..i])
      {
        assert given[..i + 1][..i] == given[..i];
        var url := Trim(given[i].0);
        if !(url == "" || Lists(collected, url)) {
          collected := collected + [Endpoint(url, given[i].1, true)];
        }
        i := i + 1;
      }
      assert given[..|given|] == given;
      endpoints := collected;
      this.strategy := strategy;
      current := if collected == [] then None
                 else match strategy case RoundRobin => Some(0) case Random => Some(Draw(|collected|, draw));
      new;
      BuildUntouched(given, strategy, draw);
      CollectKeepsFirst(given);
    }

    function Current(): (url: Option<string>)
      requires InRange(View())
      reads this
      ensures url == Selected(View())
    {
      if current.Some? then Some(endpoints[current.value].url) else None
    }

    function Country(): (country: Option<string>)
      requires InRange(View())
      reads this
      ensures country == SelectedCountry(View())
    {
      if current.Some? then endpoints[current.value].country else None
    }

    /** Retires the current endpoint and selects the next healthy one. */
    method Rotate(draw: nat) returns (url: Option<string>)
      requires InRange(View())
      modifies this
      ensures View() == Model.Rotate(old(View()), draw) && InRange(View())
      ensures url == Selected(View())
    {
      RotateStep(View(), draw);
      if current.Some? {
        endpoints := endpoints[current.value := endpoints[current.value].(healthy := false)];
      }
      current := Next(Pool(endpoints, strategy, current), draw);
      url := Current();
    }
  }
}
