/** `rotate_proxy` of `src/scraper.rs` called by many pages of one scraper: the pool lock is let
    go before the client is swapped, and the client is swapped before the locale is written, so
    other callers may come in between. */
module RotationModel {
  import opened Wrappers
  import opened PoolModel
  import opened ChallengeModel

  /** Where one call stands; `k` is the number of its rotation. */
  datatype Caller =
    | Holding(k: nat, url: string, country: Option<string>)  // the pool lock is let go
    | Swapped(k: nat, url: string, country: Option<string>)  // the client is in use
    | Returned(failure: Option<Failure>)

  /** `clientBy` and `localeBy` are the rotations that last wrote the client and the locale. */
  datatype Shared = Shared(scraper: State, clientBy: nat, localeBy: nat, callers: map<nat, Caller>)

  datatype Step = RotatePool(id: nat) | BuildFails(id: nat) | SwapClient(id: nat) | WriteLocale(id: nat)

  ghost predicate Enabled(x: Shared, step: Step) {
    match step
    case RotatePool(id) => id !in x.callers
    case BuildFails(id) => id in x.callers && x.callers[id].Holding?
    case SwapClient(id) => id in x.callers && x.callers[id].Holding?
    case WriteLocale(id) => id in x.callers && x.callers[id].Swapped?
  }

  /** What a caller takes with it from the pool it has rotated. */
  function TakenFrom(pool: Pool, k: nat): Caller {
    match Selected(pool)
    case None => Returned(Some(PoolExhausted))
    case Some(url) => Holding(k, url, SelectedCountry(pool))
  }

  ghost function Apply(draws: nat -> nat, x: Shared, step: Step): Shared
    requires Enabled(x, step)
  {
    var s := x.scraper;
    match step
    case RotatePool(id) =>
      var pool := Rotate(s.pool, draws(s.rotations));
      x.(scraper := s.(pool := pool, rotations := s.rotations + 1),
         callers := x.callers[id := TakenFrom(pool, s.rotations + 1)])
    case BuildFails(id) => x.(callers := x.callers[id := Returned(Some(ClientFailed))])
    case SwapClient(id) =>
      var c := x.callers[id];
      x.(scraper := s.(upstream := Some(c.url)), clientBy := c.k,
         callers := x.callers[id := Swapped(c.k, c.url, c.country)])
    case WriteLocale(id) =>
      var c := x.callers[id];
      x.(scraper := s.(locale := LocaleSource(c.country, Some(c.url))), localeBy := c.k,
         callers := x.callers[id := Returned(None)])
  }

  /** A scraper as built over the pool `p`. */
  ghost predicate Built(p: Pool, s: State) {
    s.pool == p && s.rotations == 0 && Coherent(s)
  }

  function Start(s: State): Shared {
    Shared(s, 0, 0, map[])
  }

  // -- what every interleaving keeps ---------------------------------------------------------

  /** Rotation `k` selected an endpoint, or is no rotation at all: the pool as built. */
  predicate Selects(p: Pool, k: nat) {
    k == 0 || k < |p.endpoints|
  }

  ghost predicate CallerOk(p: Pool, draws: nat -> nat, x: Shared, id: nat) {
    id in x.callers && !x.callers[id].Returned? ==>
      var c := x.callers[id];
      && c.k <= x.scraper.rotations && Selects(p, c.k)
      && SourceOf(RotateTimes(p, draws, c.k)) == LocaleSource(c.country, Some(c.url))
  }

  /** The client is that of the endpoint rotation `clientBy` selected, the locale that of the
      endpoint rotation `localeBy` selected. */
  ghost predicate WrittenBy(p: Pool, draws: nat -> nat, x: Shared) {
    && x.clientBy <= x.scraper.rotations && Selects(p, x.clientBy)
    && x.localeBy <= x.scraper.rotations && Selects(p, x.localeBy)
    && x.scraper.upstream == Selected(RotateTimes(p, draws, x.clientBy))
    && x.scraper.locale == SourceOf(RotateTimes(p, draws, x.localeBy))
  }

  ghost predicate Inv(p: Pool, draws: nat -> nat, x: Shared) {
    && Traced(p, draws, x.scraper) && WrittenBy(p, draws, x)
    && forall id: nat :: CallerOk(p, draws, x, id)
  }

  lemma RotateKeepsInv(p: Pool, draws: nat -> nat, x: Shared, id: nat)
    requires Untouched(p) && Inv(p, draws, x) && Enabled(x, RotatePool(id))
    ensures Inv(p, draws, Apply(draws, x, RotatePool(id)))
  {
    var y := Apply(draws, x, RotatePool(id));
    RotationsSucceed(p, draws, y.scraper.rotations);
    assert y.scraper.pool == RotateTimes(p, draws, y.scraper.rotations);
    forall other: nat
      ensures CallerOk(p, draws, y, other)
    {
      assert CallerOk(p, draws, x, other);
    }
  }

  lemma OtherStepKeepsInv(p: Pool, draws: nat -> nat, x: Shared, step: Step)
    requires Inv(p, draws, x) && Enabled(x, step) && !step.RotatePool?
    ensures Inv(p, draws, Apply(draws, x, step))
  {
    assert CallerOk(p, draws, x, step.id);
    forall other: nat
      ensures CallerOk(p, draws, Apply(draws, x, step), other)
    {
      assert CallerOk(p, draws, x, other);
    }
  }

  lemma StepKeepsInv(p: Pool, draws: nat -> nat, x: Shared, step: Step)
    requires Untouched(p) && Inv(p, draws, x) && Enabled(x, step)
    ensures Inv(p, draws, Apply(draws, x, step))
  {
    if step.RotatePool? {
      RotateKeepsInv(p, draws, x, step.id);
    } else {
      OtherStepKeepsInv(p, draws, x, step);
    }
  }

  ghost predicate Runnable(draws: nat -> nat, x: Shared, steps: seq<Step>)
    decreases |steps|
  {
    steps == [] || (Enabled(x, steps[0]) && Runnable(draws, Apply(draws, x, steps[0]), steps[1..]))
  }

  ghost function After(draws: nat -> nat, x: Shared, steps: seq<Step>): Shared
    requires Runnable(draws, x, steps)
    decreases |steps|
  {
    if steps == [] then x else After(draws, Apply(draws, x, steps[0]), steps[1..])
  }

  lemma {:induction false} RunKeepsInv(p: Pool, draws: nat -> nat, x: Shared, steps: seq<Step>)
    requires Untouched(p) && Inv(p, draws, x) && Runnable(draws, x, steps)
    ensures Inv(p, draws, After(draws, x, steps))
    decreases |steps|
  {
    if steps != [] {
      StepKeepsInv(p, draws, x, steps[0]);
      RunKeepsInv(p, draws, Apply(draws, x, steps[0]), steps[1..]);
    }
  }

  /** What an earlier rotation selected is not what the pool selects now. */
  lemma EarlierDiffers(p: Pool, draws: nat -> nat, j: nat, k: nat)
    requires Untouched(p) && p.endpoints != [] && Selects(p, j) && j < k
    ensures Selected(RotateTimes(p, draws, j)) != Selected(RotateTimes(p, draws, k))
  {
    if k < |p.endpoints| {
      NeverSelectedTwice(p, draws, j, k);
    } else {
      RotationsSucceed(p, draws, j);
      RotationsSucceed(p, draws, k);
    }
  }

  lemma NothingToSelect(p: Pool, draws: nat -> nat, k: nat)
    requires Untouched(p) && p.endpoints == []
    ensures Selected(RotateTimes(p, draws, k)) == None && SelectedCountry(RotateTimes(p, draws, k)) == None
  {
    Lifetime(p, draws, k);
  }

  lemma CoherentIffWritten(p: Pool, draws: nat -> nat, x: Shared)
    requires Untouched(p) && Inv(p, draws, x)
    ensures Coherent(x.scraper) <==> p.endpoints == [] || x.clientBy == x.localeBy == x.scraper.rotations
  {
    var now := x.scraper.rotations;
    if p.endpoints == [] {
      NothingToSelect(p, draws, now);
      NothingToSelect(p, draws, x.clientBy);
      NothingToSelect(p, draws, x.localeBy);
    } else {
      if x.clientBy < now {
        EarlierDiffers(p, draws, x.clientBy, now);
      }
      if x.localeBy < now {
        EarlierDiffers(p, draws, x.localeBy, now);
      }
    }
  }

  /** Every interleaving of any number of callers: traffic leaves through the endpoint the pool
      selects, under its locale, exactly when both the client and the locale were last written by
      the caller of the latest rotation, or the pool never had an endpoint. */
  lemma CoherentIffLatest(p: Pool, draws: nat -> nat, s: State, steps: seq<Step>)
    requires Untouched(p) && Built(p, s) && Runnable(draws, Start(s), steps)
    ensures var x := After(draws, Start(s), steps);
            Coherent(x.scraper) <==> p.endpoints == [] || x.clientBy == x.localeBy == x.scraper.rotations
  {
    assert RotateTimes(p, draws, 0) == p;
    RunKeepsInv(p, draws, Start(s), steps);
    CoherentIffWritten(p, draws, After(draws, Start(s), steps));
  }

  /** The pool after any number of rotations: an endpoint some rotation selected is healthy
      exactly when it was the latest one. */
  lemma HealthyIffLatest(p: Pool, draws: nat -> nat, j: nat, k: nat) returns (i: nat)
    requires Untouched(p) && j < |p.endpoints| && j <= k
    ensures var q := RotateTimes(p, draws, k);
            && i < |q.endpoints| && Selected(RotateTimes(p, draws, j)) == Some(q.endpoints[i].url)
            && (q.endpoints[i].healthy <==> j == k)
  {
    Lifetime(p, draws, j);
    Lifetime(p, draws, k);
    i := RotateTimes(p, draws, j).current.value;
    if k > |p.endpoints| {
      NoneCounted(RotateTimes(p, draws, k).endpoints);
    } else if j < k {
      RetiredForGood(p, draws, j, k);
    }
  }

  /** Every interleaving over a pool that had an endpoint: traffic leaves through one of its
      endpoints, and that one is healthy exactly when the client was last written by the caller
      of the latest rotation. */
  lemma HealthyInUseIffLatest(p: Pool, draws: nat -> nat, s: State, steps: seq<Step>) returns (i: nat)
    requires Untouched(p) && p.endpoints != [] && Built(p, s) && Runnable(draws, Start(s), steps)
    ensures var x := After(draws, Start(s), steps);
            var endpoints := x.scraper.pool.endpoints;
            && i < |endpoints| && x.scraper.upstream == Some(endpoints[i].url)
            && (endpoints[i].healthy <==> x.clientBy == x.scraper.rotations)
  {
    assert RotateTimes(p, draws, 0) == p;
    RunKeepsInv(p, draws, Start(s), steps);
    var x := After(draws, Start(s), steps);
    i := HealthyIffLatest(p, draws, x.clientBy, x.scraper.rotations);
  }

  // -- one call on its own, and two at once ------------------------------------------------

  lemma Compose(draws: nat -> nat, x: Shared, step: Step, rest: seq<Step>)
    requires Enabled(x, step) && Runnable(draws, Apply(draws, x, step), rest)
    ensures Runnable(draws, x, [step] + rest)
    ensures After(draws, x, [step] + rest) == After(draws, Apply(draws, x, step), rest)
  {
    assert ([step] + rest)[1..] == rest;
  }

  /** The steps of a call nobody interrupts. */
  function Alone(w: World, s: State, id: nat, attempt: nat): seq<Step> {
    if Selected(Rotate(s.pool, w.draws(s.rotations))).None? then [RotatePool(id)]
    else [RotatePool(id)] + if w.builds(attempt) then [SwapClient(id)] + [WriteLocale(id)] else [BuildFails(id)]
  }

  /** Uninterrupted, the steps are the rotation of the challenge loop. */
  lemma AloneIsRotateUpstream(w: World, g: Setup, x: Shared, id: nat, attempt: nat)
    requires g.mitm && id !in x.callers
    ensures var steps := Alone(w, x.scraper, id, attempt);
            Runnable(w.draws, x, steps) && id in After(w.draws, x, steps).callers
    ensures var y := After(w.draws, x, Alone(w, x.scraper, id, attempt));
            y.callers[id].Returned? && (y.scraper, y.callers[id].failure) == RotateUpstream(w, g, x.scraper, attempt)
  {
    var a := Apply(w.draws, x, RotatePool(id));
    if Selected(a.scraper.pool).None? {
      Compose(w.draws, x, RotatePool(id), []);
    } else if w.builds(attempt) {
      var b := Apply(w.draws, a, SwapClient(id));
      Compose(w.draws, b, WriteLocale(id), []);
      Compose(w.draws, a, SwapClient(id), [WriteLocale(id)]);
      Compose(w.draws, x, RotatePool(id), [SwapClient(id)] + [WriteLocale(id)]);
    } else {
      Compose(w.draws, a, BuildFails(id), []);
      Compose(w.draws, x, RotatePool(id), [BuildFails(id)]);
    }
  }

  const Overtaking: seq<Step> := [SwapClient(2)] + ([WriteLocale(2)] + ([SwapClient(1)] + [WriteLocale(1)]))

  /** Two callers have selected; the second writes everything before the first does. */
  lemma OvertakingRun(draws: nat -> nat, x: Shared, first: Caller, second: Caller)
    requires first.Holding? && second.Holding? && x.callers == map[1 := first, 2 := second]
    ensures Runnable(draws, x, Overtaking)
    ensures After(draws, x, Overtaking)
         == Shared(x.scraper.(upstream := Some(first.url), locale := LocaleSource(first.country, Some(first.url))),
                   first.k, first.k, map[1 := Returned(None), 2 := Returned(None)])
  {
    var a := Apply(draws, x, SwapClient(2));
    var b := Apply(draws, a, WriteLocale(2));
    var c := Apply(draws, b, SwapClient(1));
    Compose(draws, c, WriteLocale(1), []);
    Compose(draws, b, SwapClient(1), [WriteLocale(1)]);
    Compose(draws, a, WriteLocale(2), [SwapClient(1)] + [WriteLocale(1)]);
    Compose(draws, x, SwapClient(2), [WriteLocale(2)] + ([SwapClient(1)] + [WriteLocale(1)]));
  }

  /** The whole schedule: both rotate, then the second overtakes the first. */
  const Overtaken: seq<Step> := [RotatePool(1)] + ([RotatePool(2)] + Overtaking)

  lemma OvertakenRun(draws: nat -> nat, s: State, one: Pool, two: Pool, url: string)
    requires one == Rotate(s.pool, draws(s.rotations)) && two == Rotate(one, draws(s.rotations + 1))
    requires Selected(one) == Some(url) && Selected(two).Some?
    ensures Runnable(draws, Start(s), Overtaken)
    ensures var x := After(draws, Start(s), Overtaken);
            && x.callers == map[1 := Returned(None), 2 := Returned(None)]
            && x.scraper.pool == two && x.scraper.upstream == Some(url)
  {
    var a := Apply(draws, Start(s), RotatePool(1));
    var b := Apply(draws, a, RotatePool(2));
    OvertakingRun(draws, b, TakenFrom(one, s.rotations + 1), TakenFrom(two, s.rotations + 2));
    Compose(draws, a, RotatePool(2), Overtaking);
    Compose(draws, Start(s), RotatePool(1), [RotatePool(2)] + Overtaking);
  }

  /** Two calls over any pool of three endpoints or more, the second overtaking the first: both
      succeed, and traffic leaves through the endpoint the second retired. */
  lemma OvertakenSwapWins(p: Pool, draws: nat -> nat, s: State)
    requires Untouched(p) && |p.endpoints| >= 3 && Built(p, s)
    ensures Runnable(draws, Start(s), Overtaken)
    ensures var x := After(draws, Start(s), Overtaken);
            && x.callers == map[1 := Returned(None), 2 := Returned(None)]
            && x.scraper.pool == RotateTimes(p, draws, 2)
            && x.scraper.upstream == Selected(RotateTimes(p, draws, 1))
            && !Coherent(x.scraper)
  {
    var one, two := RotateTimes(p, draws, 1), RotateTimes(p, draws, 2);
    RotationsSucceed(p, draws, 1);
    RotationsSucceed(p, draws, 2);
    NeverSelectedTwice(p, draws, 1, 2);
    assert RotateTimes(p, draws, 0) == p;
    OvertakenRun(draws, s, one, two, Selected(one).value);
  }
}
