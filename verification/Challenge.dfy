/** `src/challenge/mitigation.rs`: the policy. A `Duration` is its whole seconds,
    the only part the back-off looks at. */
module Mitigation {
  import opened Powers

  datatype ChallengeKind =
    | Clear // `ChallengeKind::None`
    | IuamV1 | JsChallenge | Turnstile | AccessDenied | RateLimited | Unknown

  datatype Action = Proceed | Wait(delay: nat, attempt: nat) | RotateProxy(attempt: nat) | Fail

  datatype Policy = Policy(maxAttempts: nat, base: nat, max: nat, canRotate: bool)

  const U64_MAX: nat := 0xFFFF_FFFF_FFFF_FFFF

  function Min(a: nat, b: nat): nat {
    if a < b then a else b
  }

  /** `u64::saturating_mul`, and `2u64.saturating_pow`. */
  function SaturatingMul(a: nat, b: nat): nat {
    Min(a * b, U64_MAX)
  }

  function SaturatingPow2(exponent: nat): nat {
    Min(Pow2(exponent), U64_MAX)
  }

  function Backoff(p: Policy, attempt: nat): nat {
    Min(SaturatingMul(p.base, SaturatingPow2(attempt)), p.max)
  }

  function Decide(p: Policy, kind: ChallengeKind, attempt: nat): Action {
    match kind
    case Clear => Proceed
    case AccessDenied => if p.canRotate && attempt < p.maxAttempts then RotateProxy(attempt + 1) else Fail
    case _ => if attempt >= p.maxAttempts then Fail else Wait(Backoff(p, attempt), attempt + 1)
  }

  lemma ProductGrows(a: nat, b: nat, c: nat)
    requires b <= c
    ensures a * b <= a * c
  {
  }

  /** Saturating never shows: for delays a `Duration` can hold, the back-off is
      `min(base * 2^attempt, max)` in exact arithmetic, for every attempt. */
  lemma BackoffIsExact(p: Policy, attempt: nat)
    requires p.max <= 0xFFFF_FFFF_FFFF_FFFF
    ensures Backoff(p, attempt) == Min(p.base * Pow2(attempt), p.max)
  {
    if Pow2(attempt) > U64_MAX && p.base > 0 {
      ProductGrows(U64_MAX, 1, p.base);
      ProductGrows(p.base, U64_MAX, Pow2(attempt));
    }
  }

  /** Waits never shorten, and once at the ceiling they stay there. */
  lemma BackoffGrows(p: Policy, attempt: nat)
    requires p.max <= U64_MAX
    ensures Backoff(p, attempt) <= Backoff(p, attempt + 1) <= p.max
    ensures Backoff(p, attempt) == p.max ==> Backoff(p, attempt + 1) == p.max
  {
    BackoffIsExact(p, attempt);
    BackoffIsExact(p, attempt + 1);
    ProductGrows(p.base, Pow2(attempt), Pow2(attempt + 1));
  }

  /** The waits of attempts `from` to `to - 1`, in exact arithmetic. */
  function TotalWait(p: Policy, from: nat, to: nat): nat
    decreases to - from
  {
    if from >= to then 0 else Min(p.base * Pow2(from), p.max) + TotalWait(p, from + 1, to)
  }
}

/** `solve_challenge` and `rotate_proxy` of `src/scraper.rs`. */
module ChallengeModel {
  import opened Wrappers
  import opened Mitigation
  import opened PoolModel

  datatype Outcome = Success | Challenged | Blocked | Limited

  datatype Failure =
    | Unsolved(kind: ChallengeKind)
    | NoMitmProxy
    | PoolExhausted
    | ClientFailed
    | PageFailed
    | StoreFailed

  /** What one call meets. Pages and clients may fail at any attempt; `draws` is what
      the pool's generator yields; `records` tells whether there is a host and a store. */
  datatype World = World(
    signals: nat -> Option<ChallengeKind>,
    builds: nat -> bool,
    reloads: nat -> bool,
    draws: nat -> nat,
    records: bool,
    stores: bool)

  datatype Setup = Setup(policy: Policy, mitm: bool)

  /** What a locale is derived from: the endpoint's country tag and its URL. */
  datatype LocaleSource = LocaleSource(country: Option<string>, url: Option<string>)

  function SourceOf(pool: Pool): LocaleSource {
    LocaleSource(SelectedCountry(pool), Selected(pool))
  }

  /** `upstream` is what the MITM client dials; `looks`, `rotations` and `slept`
      count over the scraper's life. */
  datatype State = State(
    pool: Pool,
    upstream: Option<string>,
    locale: LocaleSource,
    looks: nat,
    rotations: nat,
    slept: nat,
    recorded: seq<Outcome>)

  datatype Turn = Again(s: State) | Finished(s: State, result: Result<ChallengeKind, Failure>)

  function Record(w: World, s: State, outcome: Outcome): State {
    if w.records then s.(recorded := s.recorded + [outcome]) else s
  }

  function RotateUpstream(w: World, g: Setup, s: State, attempt: nat): (State, Option<Failure>) {
    if !g.mitm then (s, Some(NoMitmProxy))
    else
      var pool := Rotate(s.pool, w.draws(s.rotations));
      var t := s.(pool := pool, rotations := s.rotations + 1);
      match Selected(pool)
      case None => (t, Some(PoolExhausted))
      case Some(url) =>
        if !w.builds(attempt) then (t, Some(ClientFailed))
        else (t.(upstream := Some(url), locale := LocaleSource(SelectedCountry(pool), Some(url))), None)
  }

  function TurnOf(s: State, ended: Option<Result<ChallengeKind, Failure>>): Turn {
    match ended case None => Again(s) case Some(result) => Finished(s, result)
  }

  function RotateTurn(w: World, g: Setup, s: State, attempt: nat): Turn {
    var (t, failure) := RotateUpstream(w, g, s, attempt);
    match failure
    case Some(f) => Finished(Record(w, t, Blocked), Err(f))
    case None => if w.reloads(attempt) then Again(t) else Finished(t, Err(PageFailed))
  }

  function TakeTurn(w: World, g: Setup, before: State, attempt: nat, saw: bool): Turn {
    var s := before.(looks := before.looks + 1);
    match w.signals(attempt)
    case None => Finished(s, Err(PageFailed))
    case Some(kind) =>
      match Decide(g.policy, kind, attempt)
      case Proceed =>
        Finished(Record(w, s, if saw then Challenged else Success),
                 if w.records && !w.stores then Err(StoreFailed) else Ok(kind))
      case Fail =>
        Finished(Record(w, s, if kind.RateLimited? then Limited else Blocked), Err(Unsolved(kind)))
      case Wait(delay, _) => Again(s.(slept := s.slept + delay))
      case RotateProxy(_) => RotateTurn(w, g, s, attempt)
  }

  datatype Run = Run(s: State, attempts: nat, result: Result<ChallengeKind, Failure>)

  lemma OnlyWithinBudget(w: World, g: Setup, s: State, attempt: nat, saw: bool)
    ensures TakeTurn(w, g, s, attempt, saw).Again? ==> attempt < g.policy.maxAttempts
  {
  }

  function Solve(w: World, g: Setup, s: State, attempt: nat, saw: bool): Run
    decreases if attempt <= g.policy.maxAttempts then g.policy.maxAttempts - attempt + 1 else 0
  {
    OnlyWithinBudget(w, g, s, attempt, saw);
    match TakeTurn(w, g, s, attempt, saw)
    case Again(t) => Solve(w, g, t, attempt + 1, true)
    case Finished(t, result) => Run(t, attempt, result)
  }

  // -- bounds for every sequence of signals -------------------------------------------------

  /** How far a state may have come since `from`, `attempt` turns later. */
  ghost predicate Within(p: Policy, from: State, s: State, attempt: nat) {
    && s.looks == from.looks + attempt
    && from.rotations <= s.rotations <= from.rotations + attempt
    && from.slept <= s.slept
    && s.slept + TotalWait(p, attempt, p.maxAttempts) <= from.slept + TotalWait(p, 0, p.maxAttempts)
    && s.recorded == from.recorded
  }

  lemma AgainStaysWithin(w: World, g: Setup, from: State, s: State, attempt: nat, saw: bool)
    requires g.policy.max <= U64_MAX && Within(g.policy, from, s, attempt)
    ensures var t := TakeTurn(w, g, s, attempt, saw);
            t.Again? ==> attempt < g.policy.maxAttempts && Within(g.policy, from, t.s, attempt + 1)
  {
    BackoffIsExact(g.policy, attempt);
    OnlyWithinBudget(w, g, s, attempt, saw);
  }

  lemma FinishedBounds(w: World, g: Setup, from: State, s: State, attempt: nat, saw: bool)
    requires Within(g.policy, from, s, attempt)
    ensures var t := TakeTurn(w, g, s, attempt, saw);
            t.Finished? ==>
              && t.s.looks == from.looks + attempt + 1 && t.s.rotations <= from.rotations + attempt + 1
              && t.s.slept == s.slept && |t.s.recorded| <= |from.recorded| + 1
              && (t.s.rotations == from.rotations + attempt + 1 ==> attempt < g.policy.maxAttempts)
  {
  }

  lemma {:induction false} SolveBounded(w: World, g: Setup, from: State, s: State, attempt: nat, saw: bool)
    requires g.policy.max <= U64_MAX && attempt <= g.policy.maxAttempts && Within(g.policy, from, s, attempt)
    ensures var run := Solve(w, g, s, attempt, saw);
            && run.attempts <= g.policy.maxAttempts
            && run.s.looks == from.looks + run.attempts + 1
            && run.s.rotations - from.rotations <= g.policy.maxAttempts
            && run.s.slept - from.slept <= TotalWait(g.policy, 0, g.policy.maxAttempts)
            && |run.s.recorded| <= |from.recorded| + 1
    decreases g.policy.maxAttempts - attempt
  {
    AgainStaysWithin(w, g, from, s, attempt, saw);
    FinishedBounds(w, g, from, s, attempt, saw);
    var t := TakeTurn(w, g, s, attempt, saw);
    if t.Again? {
      SolveBounded(w, g, from, t.s, attempt + 1, true);
    }
  }

  /** Whatever the pages show: at most `max_attempts + 1` decisions and `max_attempts`
      rotations, and no longer a wait than the capped doublings add up to. */
  lemma ChallengeLoopBounded(w: World, g: Setup, s: State)
    requires g.policy.max <= U64_MAX
    ensures var run := Solve(w, g, s, 0, false);
            && run.s.looks - s.looks == run.attempts + 1 <= g.policy.maxAttempts + 1
            && run.s.rotations - s.rotations <= g.policy.maxAttempts
            && run.s.slept - s.slept <= TotalWait(g.policy, 0, g.policy.maxAttempts)
            && |run.s.recorded| <= |s.recorded| + 1
  {
    SolveBounded(w, g, s, s, 0, false);
  }

  /** The bounds are met: a page that never clears takes every decision and every wait. */
  lemma {:induction false} BoundsAreTight(w: World, g: Setup, s: State, attempt: nat, saw: bool)
    requires g.policy.max <= U64_MAX && attempt <= g.policy.maxAttempts
    requires forall k :: w.signals(k) == Some(JsChallenge)
    ensures var run := Solve(w, g, s, attempt, saw);
            && run.attempts == g.policy.maxAttempts && run.result == Err(Unsolved(JsChallenge))
            && run.s.slept == s.slept + TotalWait(g.policy, attempt, g.policy.maxAttempts)
    decreases g.policy.maxAttempts - attempt
  {
    if attempt < g.policy.maxAttempts {
      BackoffIsExact(g.policy, attempt);
      var t := TakeTurn(w, g, s, attempt, saw);
      assert t.s == s.(looks := s.looks + 1, slept := s.slept + Backoff(g.policy, attempt));
      BoundsAreTight(w, g, t.s, attempt + 1, true);
    }
  }

  // -- what is returned and recorded ------------------------------------------------------

  ghost predicate Recorded(w: World, s: State, t: State, outcome: Outcome) {
    t.recorded == if w.records then s.recorded + [outcome] else s.recorded
  }

  /** Success means that the last look found the page clear; whatever is recorded
      is the one outcome that belongs to the result. */
  ghost predicate Reported(w: World, s: State, saw: bool, run: Run) {
    && (run.result.Ok? ==> run.result == Ok(Clear) && w.signals(run.attempts) == Some(Clear))
    && (run.result.Err? && run.result.error.Unsolved? ==>
          run.result.error.kind != Clear && w.signals(run.attempts) == Some(run.result.error.kind))
    && match run.result
       case Ok(_) =>
         Recorded(w, s, run.s, if saw then Challenged else Success)
       case Err(Unsolved(kind)) =>
         Recorded(w, s, run.s, if kind.RateLimited? then Limited else Blocked)
       case Err(StoreFailed) =>
         && w.signals(run.attempts) == Some(Clear) && w.records && !w.stores
         && Recorded(w, s, run.s, if saw then Challenged else Success)
       case Err(PageFailed) => run.s.recorded == s.recorded
       case Err(_) => Recorded(w, s, run.s, Blocked)
  }

  lemma TurnReported(w: World, g: Setup, s: State, attempt: nat, saw: bool)
    ensures var t := TakeTurn(w, g, s, attempt, saw);
            && (t.Again? ==> t.s.recorded == s.recorded)
            && (t.Finished? ==> Reported(w, s, saw, Run(t.s, attempt, t.result)))
  {
  }

  lemma {:induction false} SolveReported(w: World, g: Setup, s: State, attempt: nat)
    ensures var run := Solve(w, g, s, attempt, attempt > 0);
            && run.attempts >= attempt && Reported(w, s, run.attempts > 0, run)
    decreases if attempt <= g.policy.maxAttempts then g.policy.maxAttempts - attempt + 1 else 0
  {
    OnlyWithinBudget(w, g, s, attempt, attempt > 0);
    TurnReported(w, g, s, attempt, attempt > 0);
    var t := TakeTurn(w, g, s, attempt, attempt > 0);
    if t.Again? {
      SolveReported(w, g, t.s, attempt + 1);
    }
  }

  // -- the pool under the loop ----------------------------------------------------------------

  /** The pool is `s.rotations` rotations away from how it was built, whatever happened. */
  ghost predicate Traced(p: Pool, draws: nat -> nat, s: State) {
    s.pool == RotateTimes(p, draws, s.rotations)
  }

  lemma RotateTraced(w: World, g: Setup, p: Pool, s: State, attempt: nat)
    requires Traced(p, w.draws, s)
    ensures Traced(p, w.draws, RotateUpstream(w, g, s, attempt).0)
  {
  }

  lemma TurnPool(w: World, g: Setup, s: State, attempt: nat, saw: bool)
    ensures var t, r := TakeTurn(w, g, s, attempt, saw).s, RotateUpstream(w, g, s.(looks := s.looks + 1), attempt).0;
            || (t.pool == s.pool && t.rotations == s.rotations)
            || (t.pool == r.pool && t.rotations == r.rotations)
  {
  }

  lemma TurnTraced(w: World, g: Setup, p: Pool, s: State, attempt: nat, saw: bool)
    requires Traced(p, w.draws, s)
    ensures Traced(p, w.draws, TakeTurn(w, g, s, attempt, saw).s)
  {
    TurnPool(w, g, s, attempt, saw);
    RotateTraced(w, g, p, s.(looks := s.looks + 1), attempt);
  }

  lemma {:induction false} SolveTraced(w: World, g: Setup, p: Pool, s: State, attempt: nat, saw: bool)
    requires Traced(p, w.draws, s)
    ensures Traced(p, w.draws, Solve(w, g, s, attempt, saw).s)
    decreases if attempt <= g.policy.maxAttempts then g.policy.maxAttempts - attempt + 1 else 0
  {
    OnlyWithinBudget(w, g, s, attempt, saw);
    TurnTraced(w, g, p, s, attempt, saw);
    var t := TakeTurn(w, g, s, attempt, saw);
    if t.Again? {
      SolveTraced(w, g, p, t.s, attempt + 1, true);
    }
  }

  /** Traffic leaves through the endpoint the pool selects, under that endpoint's locale. */
  ghost predicate Coherent(s: State) {
    s.upstream == Selected(s.pool) && s.locale == SourceOf(s.pool)
  }

  lemma TurnCoherent(w: World, g: Setup, s: State, attempt: nat, saw: bool)
    requires Coherent(s)
    ensures var t := TakeTurn(w, g, s, attempt, saw);
            t.Again? || t.result.Ok? || t.result.error !in {PoolExhausted, ClientFailed} ==> Coherent(t.s)
    ensures var t := TakeTurn(w, g, s, attempt, saw);
            t.Finished? && t.result == Err(PoolExhausted) ==> t.s.upstream == s.upstream && Selected(t.s.pool).None?
  {
  }

  /** From any pool, coherence can only be lost with one of two results: the pool is
      exhausted, or the next client cannot be built. */
  lemma {:induction false} SolveCoherent(w: World, g: Setup, s: State, attempt: nat, saw: bool)
    requires Coherent(s)
    ensures var run := Solve(w, g, s, attempt, saw);
            run.result.Ok? || run.result.error !in {PoolExhausted, ClientFailed} ==> Coherent(run.s)
    decreases if attempt <= g.policy.maxAttempts then g.policy.maxAttempts - attempt + 1 else 0
  {
    OnlyWithinBudget(w, g, s, attempt, saw);
    TurnCoherent(w, g, s, attempt, saw);
    var t := TakeTurn(w, g, s, attempt, saw);
    if t.Again? {
      SolveCoherent(w, g, t.s, attempt + 1, true);
    }
  }

  // -- when the loop succeeds ------------------------------------------------------------------

  /** Hard blocks among looks `from` to `to - 1`. */
  function Denials(w: World, from: nat, to: nat): nat
    decreases to - from
  {
    if from >= to then 0
    else (if w.signals(from) == Some(AccessDenied) then 1 else 0) + Denials(w, from + 1, to)
  }

  /** The loop gets past look `j`: the page is read, and a hard block is answered by a permitted
      rotation to an endpoint the pool still has. */
  ghost predicate Passable(w: World, g: Setup, p: Pool, rotated: nat, attempt: nat, j: nat) {
    && w.signals(j).Some? && w.signals(j) != Some(Clear)
    && (w.signals(j) == Some(AccessDenied) ==>
          && g.policy.canRotate && g.mitm && w.builds(j) && w.reloads(j)
          && rotated + Denials(w, attempt, j) + 1 < |p.endpoints|)
  }

  ghost predicate PassableUntil(w: World, g: Setup, p: Pool, rotated: nat, attempt: nat, c: nat) {
    forall j: nat :: attempt <= j < c ==> Passable(w, g, p, rotated, attempt, j)
  }

  /** Look `c` is within the budget, finds the page clear, and is reached. */
  ghost predicate ClearsAt(w: World, g: Setup, p: Pool, rotated: nat, attempt: nat, c: nat) {
    && attempt <= c <= g.policy.maxAttempts && w.signals(c) == Some(Clear)
    && PassableUntil(w, g, p, rotated, attempt, c)
  }

  ghost predicate Clears(w: World, g: Setup, p: Pool, rotated: nat, attempt: nat) {
    exists c: nat :: ClearsAt(w, g, p, rotated, attempt, c)
  }

  lemma PassableShifts(w: World, g: Setup, p: Pool, rotated: nat, attempt: nat, j: nat)
    requires attempt < j
    ensures var next := rotated + if w.signals(attempt) == Some(AccessDenied) then 1 else 0;
            Passable(w, g, p, rotated, attempt, j) <==> Passable(w, g, p, next, attempt + 1, j)
  {
  }

  lemma PassableUntilShifts(w: World, g: Setup, p: Pool, rotated: nat, attempt: nat, c: nat)
    requires attempt < c
    ensures var next := rotated + if w.signals(attempt) == Some(AccessDenied) then 1 else 0;
            PassableUntil(w, g, p, rotated, attempt, c) <==>
              Passable(w, g, p, rotated, attempt, attempt) && PassableUntil(w, g, p, next, attempt + 1, c)
  {
    var next := rotated + if w.signals(attempt) == Some(AccessDenied) then 1 else 0;
    var after := attempt + 1;
    if PassableUntil(w, g, p, rotated, attempt, c) {
      forall j: nat | after <= j < c
        ensures Passable(w, g, p, next, after, j)
      {
        PassableShifts(w, g, p, rotated, attempt, j);
      }
    }
    if Passable(w, g, p, rotated, attempt, attempt) && PassableUntil(w, g, p, next, after, c) {
      forall j: nat | attempt <= j < c
        ensures Passable(w, g, p, rotated, attempt, j)
      {
        if j > attempt {
          PassableShifts(w, g, p, rotated, attempt, j);
        }
      }
    }
  }

  lemma ClearsShifts(w: World, g: Setup, p: Pool, rotated: nat, attempt: nat)
    requires w.signals(attempt) != Some(Clear)
    ensures var next := rotated + if w.signals(attempt) == Some(AccessDenied) then 1 else 0;
            Clears(w, g, p, rotated, attempt) <==>
              && attempt < g.policy.maxAttempts && Passable(w, g, p, rotated, attempt, attempt)
              && Clears(w, g, p, next, attempt + 1)
  {
    var next := rotated + if w.signals(attempt) == Some(AccessDenied) then 1 else 0;
    if Clears(w, g, p, rotated, attempt) {
      var c: nat :| ClearsAt(w, g, p, rotated, attempt, c);
      PassableUntilShifts(w, g, p, rotated, attempt, c);
      assert ClearsAt(w, g, p, next, attempt + 1, c);
    }
    if Passable(w, g, p, rotated, attempt, attempt) && Clears(w, g, p, next, attempt + 1) {
      var c: nat :| ClearsAt(w, g, p, next, attempt + 1, c);
      PassableUntilShifts(w, g, p, rotated, attempt, c);
      assert ClearsAt(w, g, p, rotated, attempt, c);
    }
  }

  /** What a rotation comes to: it needs the MITM proxy, an endpoint left in the pool, and a client
      for it, and says which of them was missing first. */
  lemma RotationSucceedsIff(w: World, g: Setup, p: Pool, s: State, attempt: nat)
    requires Untouched(p) && Traced(p, w.draws, s)
    ensures var failure, left := RotateUpstream(w, g, s, attempt).1, s.rotations + 1 < |p.endpoints|;
            && (failure == None <==> g.mitm && left && w.builds(attempt))
            && (failure == Some(NoMitmProxy) <==> !g.mitm)
            && (failure == Some(PoolExhausted) <==> g.mitm && !left)
            && (failure == Some(ClientFailed) <==> g.mitm && left && !w.builds(attempt))
  {
    RotationsSucceed(p, w.draws, s.rotations + 1);
  }

  /** A rotation that succeeds takes into use the endpoint now selected: its URL for the traffic, its
      country tag and URL for the locale. */
  lemma RotationTakesTheSelected(w: World, g: Setup, s: State, attempt: nat)
    requires InRange(s.pool) && RotateUpstream(w, g, s, attempt).1.None?
    ensures var t := RotateUpstream(w, g, s, attempt).0;
            && t.pool.current.Some? && t.pool.current.value < |t.pool.endpoints|
            && var e := t.pool.endpoints[t.pool.current.value];
               t.upstream == Some(e.url) && t.locale == LocaleSource(e.country, Some(e.url)) && e.healthy
  {
    RotateStep(s.pool, w.draws(s.rotations));
  }

  /** One turn goes on exactly when the budget lasts and the look can be got past. */
  lemma TurnPasses(w: World, g: Setup, p: Pool, s: State, attempt: nat, saw: bool)
    requires Untouched(p) && Traced(p, w.draws, s)
    ensures var t := TakeTurn(w, g, s, attempt, saw);
            && (t.Again? <==> attempt < g.policy.maxAttempts && Passable(w, g, p, s.rotations, attempt, attempt))
            && (t.Again? ==> t.s.rotations == s.rotations + if w.signals(attempt) == Some(AccessDenied) then 1 else 0)
            && (t.Finished? ==> (t.result.Ok? <==> w.signals(attempt) == Some(Clear) && (w.records ==> w.stores)))
  {
    var looked := s.(looks := s.looks + 1);
    assert Traced(p, w.draws, looked);
    RotationSucceedsIff(w, g, p, looked, attempt);
    assert Denials(w, attempt, attempt) == 0;
  }

  /** One turn decides, or hands the question on unchanged. */
  lemma TurnSolves(w: World, g: Setup, p: Pool, s: State, attempt: nat, saw: bool)
    requires Untouched(p) && Traced(p, w.draws, s) && attempt <= g.policy.maxAttempts
    ensures var t := TakeTurn(w, g, s, attempt, saw);
            if t.Again? then
              && Traced(p, w.draws, t.s) && attempt < g.policy.maxAttempts
              && (Clears(w, g, p, s.rotations, attempt) <==> Clears(w, g, p, t.s.rotations, attempt + 1))
            else t.result.Ok? <==> (w.records ==> w.stores) && Clears(w, g, p, s.rotations, attempt)
  {
    TurnPasses(w, g, p, s, attempt, saw);
    TurnTraced(w, g, p, s, attempt, saw);
    if w.signals(attempt) == Some(Clear) {
      assert ClearsAt(w, g, p, s.rotations, attempt, attempt);
    } else {
      ClearsShifts(w, g, p, s.rotations, attempt);
    }
  }

  /** For every world: the loop succeeds exactly when a look within the budget finds the page
      clear, every look before it can be got past, and the outcome can be recorded. */
  lemma {:induction false} SolvedIff(w: World, g: Setup, p: Pool, s: State, attempt: nat, saw: bool)
    requires Untouched(p) && Traced(p, w.draws, s)
    requires attempt <= g.policy.maxAttempts
    ensures Solve(w, g, s, attempt, saw).result.Ok? <==>
              (w.records ==> w.stores) && Clears(w, g, p, s.rotations, attempt)
    decreases g.policy.maxAttempts - attempt
  {
    TurnSolves(w, g, p, s, attempt, saw);
    var t := TakeTurn(w, g, s, attempt, saw);
    if t.Again? {
      SolvedIff(w, g, p, t.s, attempt + 1, true);
    }
  }

  /** Look `c` is the last: every one before it can be got past, and it cannot, or is the last of
      the budget. */
  ghost predicate StopsAt(w: World, g: Setup, p: Pool, rotated: nat, attempt: nat, c: nat) {
    && attempt <= c <= g.policy.maxAttempts && PassableUntil(w, g, p, rotated, attempt, c)
    && (c == g.policy.maxAttempts || !Passable(w, g, p, rotated, attempt, c))
  }

  /** What the last look leaves the caller with, after `rotated` rotations. */
  ghost predicate EndsAs(w: World, g: Setup, p: Pool, rotated: nat, c: nat, result: Result<ChallengeKind, Failure>) {
    match w.signals(c)
    case None => result == Err(PageFailed)
    case Some(Clear) => result == if w.records && !w.stores then Err(StoreFailed) else Ok(Clear)
    case Some(AccessDenied) =>
      if !g.policy.canRotate || c == g.policy.maxAttempts then result == Err(Unsolved(AccessDenied))
      else if !g.mitm then result == Err(NoMitmProxy)
      else if rotated + 1 >= |p.endpoints| then result == Err(PoolExhausted)
      else if !w.builds(c) then result == Err(ClientFailed)
      else result == Err(PageFailed) && !w.reloads(c)
    case Some(kind) => result == Err(Unsolved(kind))
  }

  lemma TurnEndsAs(w: World, g: Setup, p: Pool, s: State, attempt: nat, saw: bool)
    requires Untouched(p) && Traced(p, w.draws, s) && attempt <= g.policy.maxAttempts
    ensures var t := TakeTurn(w, g, s, attempt, saw);
            t.Finished? ==> StopsAt(w, g, p, s.rotations, attempt, attempt) && EndsAs(w, g, p, s.rotations, attempt, t.result)
  {
    var looked := s.(looks := s.looks + 1);
    assert Traced(p, w.draws, looked);
    TurnPasses(w, g, p, s, attempt, saw);
    RotationSucceedsIff(w, g, p, looked, attempt);
  }

  /** From `attempt` on the loop stops at look `c`, with `result`. */
  ghost predicate Ends(
    w: World, g: Setup, p: Pool, rotated: nat, attempt: nat, c: nat, result: Result<ChallengeKind, Failure>) {
    StopsAt(w, g, p, rotated, attempt, c) && EndsAs(w, g, p, rotated + Denials(w, attempt, c), c, result)
  }

  lemma EndsShifts(
    w: World, g: Setup, p: Pool, rotated: nat, attempt: nat, c: nat, result: Result<ChallengeKind, Failure>)
    requires Passable(w, g, p, rotated, attempt, attempt)
    requires var next := rotated + if w.signals(attempt) == Some(AccessDenied) then 1 else 0;
             Ends(w, g, p, next, attempt + 1, c, result)
    ensures Ends(w, g, p, rotated, attempt, c, result)
  {
    var next := rotated + if w.signals(attempt) == Some(AccessDenied) then 1 else 0;
    PassableUntilShifts(w, g, p, rotated, attempt, c);
    PassableShifts(w, g, p, rotated, attempt, c);
    assert rotated + Denials(w, attempt, c) == next + Denials(w, attempt + 1, c);
  }

  lemma TurnEnds(w: World, g: Setup, p: Pool, s: State, attempt: nat, saw: bool)
    requires Untouched(p) && Traced(p, w.draws, s) && attempt <= g.policy.maxAttempts
    ensures var t := TakeTurn(w, g, s, attempt, saw);
            if t.Again? then
              && attempt < g.policy.maxAttempts && Traced(p, w.draws, t.s)
              && Passable(w, g, p, s.rotations, attempt, attempt)
              && t.s.rotations == s.rotations + if w.signals(attempt) == Some(AccessDenied) then 1 else 0
            else Ends(w, g, p, s.rotations, attempt, attempt, t.result)
  {
    TurnEndsAs(w, g, p, s, attempt, saw);
    TurnPasses(w, g, p, s, attempt, saw);
    TurnTraced(w, g, p, s, attempt, saw);
  }

  lemma FinishedEnds(w: World, g: Setup, p: Pool, s: State, attempt: nat, saw: bool)
    requires Untouched(p) && Traced(p, w.draws, s) && attempt <= g.policy.maxAttempts
    requires TakeTurn(w, g, s, attempt, saw).Finished?
    ensures var run := Solve(w, g, s, attempt, saw);
            Ends(w, g, p, s.rotations, attempt, run.attempts, run.result)
  {
    TurnEnds(w, g, p, s, attempt, saw);
  }

  lemma AgainEnds(w: World, g: Setup, p: Pool, s: State, attempt: nat, saw: bool, t: State)
    requires Untouched(p) && Traced(p, w.draws, s) && attempt <= g.policy.maxAttempts
    requires TakeTurn(w, g, s, attempt, saw) == Again(t)
    requires var run := Solve(w, g, t, attempt + 1, true);
             Ends(w, g, p, t.rotations, attempt + 1, run.attempts, run.result)
    ensures var run := Solve(w, g, s, attempt, saw);
            Ends(w, g, p, s.rotations, attempt, run.attempts, run.result)
  {
    TurnEnds(w, g, p, s, attempt, saw);
    var run := Solve(w, g, t, attempt + 1, true);
    EndsShifts(w, g, p, s.rotations, attempt, run.attempts, run.result);
  }

  /** For every world, exactly how the loop ends: at the first look that cannot be got past or the
      last of the budget, with the result that look leaves. */
  lemma {:induction false} SolveEndsAs(w: World, g: Setup, p: Pool, s: State, attempt: nat, saw: bool)
    requires Untouched(p) && Traced(p, w.draws, s) && attempt <= g.policy.maxAttempts
    ensures var run := Solve(w, g, s, attempt, saw);
            Ends(w, g, p, s.rotations, attempt, run.attempts, run.result)
    decreases g.policy.maxAttempts - attempt
  {
    match TakeTurn(w, g, s, attempt, saw) {
      case Again(t) =>
        OnlyWithinBudget(w, g, s, attempt, saw);
        TurnTraced(w, g, p, s, attempt, saw);
        SolveEndsAs(w, g, p, t, attempt + 1, true);
        AgainEnds(w, g, p, s, attempt, saw, t);
      case Finished(_, _) => FinishedEnds(w, g, p, s, attempt, saw);
    }
  }

  // -- when traffic leaves through the selected endpoint ---------------------------------------

  /** One rotation: an endpoint selected before it stays the one in use exactly when there is
      no MITM proxy to rotate, and a new one is taken into use exactly when the pool still has
      one and its client can be built. */
  lemma RotateCoherentIff(w: World, g: Setup, s: State, attempt: nat)
    requires Coherent(s) && DistinctUrls(s.pool.endpoints) && InRange(s.pool) && s.pool.current.Some?
    ensures Coherent(RotateUpstream(w, g, s, attempt).0) <==>
              !g.mitm || (Selected(Rotate(s.pool, w.draws(s.rotations))).Some? && w.builds(attempt))
  {
    var q := Rotate(s.pool, w.draws(s.rotations));
    RotateStep(s.pool, w.draws(s.rotations));
    if q.current.Some? {
      assert q.current != s.pool.current;
      assert q.endpoints[q.current.value].url == s.pool.endpoints[q.current.value].url;
    }
  }

  /** Look `c` finds a hard block that costs the endpoint in use without putting another in
      its place: the pool has no more, or its client cannot be built. */
  ghost predicate StrandedAt(w: World, g: Setup, p: Pool, rotated: nat, attempt: nat, c: nat) {
    && attempt <= c < g.policy.maxAttempts && w.signals(c) == Some(AccessDenied)
    && g.policy.canRotate && g.mitm
    && (rotated + Denials(w, attempt, c) + 1 >= |p.endpoints| || !w.builds(c))
    && PassableUntil(w, g, p, rotated, attempt, c)
  }

  ghost predicate Strands(w: World, g: Setup, p: Pool, rotated: nat, attempt: nat) {
    exists c: nat :: StrandedAt(w, g, p, rotated, attempt, c)
  }

  lemma StillSelected(w: World, p: Pool, s: State)
    requires Untouched(p) && Traced(p, w.draws, s) && s.rotations < |p.endpoints|
    ensures s.pool.current.Some? && DistinctUrls(s.pool.endpoints) && InRange(s.pool)
    ensures Selected(Rotate(s.pool, w.draws(s.rotations))).Some? <==> s.rotations + 1 < |p.endpoints|
  {
    Lifetime(p, w.draws, s.rotations);
    RotationsSucceed(p, w.draws, s.rotations + 1);
    DistinctAfterRotations(p, s.pool);
  }

  lemma RotationStands(w: World, g: Setup, p: Pool, s: State, attempt: nat)
    requires Untouched(p) && Traced(p, w.draws, s) && Coherent(s) && s.rotations < |p.endpoints|
    ensures var t := RotateUpstream(w, g, s, attempt).0;
            var stands := s.rotations + 1 < |p.endpoints| && w.builds(attempt);
            Coherent(t) <==> !g.mitm || stands
  {
    StillSelected(w, p, s);
    RotateCoherentIff(w, g, s, attempt);
  }

  /** The turn's rotation, as the turn sees it: after the look is counted. */
  lemma RotateTurnStands(w: World, g: Setup, p: Pool, s: State, attempt: nat)
    requires Untouched(p) && Traced(p, w.draws, s) && Coherent(s) && s.rotations < |p.endpoints|
    ensures var t := RotateTurn(w, g, s, attempt);
            var stands := s.rotations + 1 < |p.endpoints| && w.builds(attempt);
            Coherent(t.s) <==> !g.mitm || stands
  {
    RotationStands(w, g, p, s, attempt);
  }

  lemma OtherTurnStands(w: World, g: Setup, s: State, attempt: nat, saw: bool)
    requires Coherent(s) && w.signals(attempt) != Some(AccessDenied)
    ensures var t := TakeTurn(w, g, s, attempt, saw);
            Coherent(t.s)
  {
  }

  lemma DeniedTurnStands(w: World, g: Setup, p: Pool, s: State, attempt: nat, saw: bool)
    requires Untouched(p) && Traced(p, w.draws, s) && Coherent(s) && s.rotations < |p.endpoints|
    requires w.signals(attempt) == Some(AccessDenied)
    ensures var t := TakeTurn(w, g, s, attempt, saw);
            var rotates := g.policy.canRotate && attempt < g.policy.maxAttempts && g.mitm;
            var stands := s.rotations + 1 < |p.endpoints| && w.builds(attempt);
            Coherent(t.s) <==> !rotates || stands
  {
    var looked := s.(looks := s.looks + 1);
    assert Coherent(looked) && Traced(p, w.draws, looked);
    RotateTurnStands(w, g, p, looked, attempt);
  }

  lemma TurnCoherentIff(w: World, g: Setup, p: Pool, s: State, attempt: nat, saw: bool)
    requires Untouched(p) && Traced(p, w.draws, s) && Coherent(s) && s.rotations < |p.endpoints|
    ensures var t := TakeTurn(w, g, s, attempt, saw);
            Coherent(t.s) <==> !StrandedAt(w, g, p, s.rotations, attempt, attempt)
  {
    assert Denials(w, attempt, attempt) == 0;
    if w.signals(attempt) == Some(AccessDenied) {
      DeniedTurnStands(w, g, p, s, attempt, saw);
    } else {
      OtherTurnStands(w, g, s, attempt, saw);
    }
  }

  lemma DistinctAfterRotations(p: Pool, q: Pool)
    requires DistinctUrls(p.endpoints) && |q.endpoints| == |p.endpoints|
    requires forall i :: 0 <= i < |p.endpoints| ==> q.endpoints[i].url == p.endpoints[i].url
    ensures DistinctUrls(q.endpoints)
  {
  }

  lemma StrandedShifts(w: World, g: Setup, p: Pool, rotated: nat, attempt: nat, c: nat)
    requires attempt < c
    ensures var next := rotated + if w.signals(attempt) == Some(AccessDenied) then 1 else 0;
            StrandedAt(w, g, p, rotated, attempt, c) <==>
              Passable(w, g, p, rotated, attempt, attempt) && StrandedAt(w, g, p, next, attempt + 1, c)
  {
    var next := rotated + if w.signals(attempt) == Some(AccessDenied) then 1 else 0;
    assert rotated + Denials(w, attempt, c) == next + Denials(w, attempt + 1, c);
    PassableUntilShifts(w, g, p, rotated, attempt, c);
  }

  lemma StrandsShifts(w: World, g: Setup, p: Pool, rotated: nat, attempt: nat)
    ensures var next := rotated + if w.signals(attempt) == Some(AccessDenied) then 1 else 0;
            Strands(w, g, p, rotated, attempt) <==>
              || StrandedAt(w, g, p, rotated, attempt, attempt)
              || (Passable(w, g, p, rotated, attempt, attempt) && Strands(w, g, p, next, attempt + 1))
  {
    var next := rotated + if w.signals(attempt) == Some(AccessDenied) then 1 else 0;
    if Strands(w, g, p, rotated, attempt) {
      var c: nat :| StrandedAt(w, g, p, rotated, attempt, c);
      if c > attempt {
        StrandedShifts(w, g, p, rotated, attempt, c);
        assert StrandedAt(w, g, p, next, attempt + 1, c);
      }
    }
    if Passable(w, g, p, rotated, attempt, attempt) && Strands(w, g, p, next, attempt + 1) {
      var c: nat :| StrandedAt(w, g, p, next, attempt + 1, c);
      StrandedShifts(w, g, p, rotated, attempt, c);
      assert StrandedAt(w, g, p, rotated, attempt, c);
    }
  }

  lemma ExhaustedRotation(w: World, g: Setup, p: Pool, s: State, attempt: nat)
    requires Untouched(p) && Traced(p, w.draws, s) && Coherent(s) && s.rotations >= |p.endpoints|
    ensures var (t, failure) := RotateUpstream(w, g, s, attempt);
            Coherent(t) && failure.Some?
  {
    Lifetime(p, w.draws, s.rotations);
    Lifetime(p, w.draws, s.rotations + 1);
    NothingSelected(RotateTimes(p, w.draws, s.rotations));
    NothingSelected(RotateTimes(p, w.draws, s.rotations + 1));
  }

  lemma NothingSelected(q: Pool)
    requires q.current.None?
    ensures Selected(q) == None && SelectedCountry(q) == None
  {
  }

  lemma ExhaustedTurn(w: World, g: Setup, p: Pool, s: State, attempt: nat, saw: bool)
    requires Untouched(p) && Traced(p, w.draws, s) && Coherent(s) && s.rotations >= |p.endpoints|
    ensures var t := TakeTurn(w, g, s, attempt, saw);
            Coherent(t.s) && (t.Again? ==> t.s.rotations == s.rotations)
  {
    var looked := s.(looks := s.looks + 1);
    assert Coherent(looked) && Traced(p, w.draws, looked);
    ExhaustedRotation(w, g, p, looked, attempt);
  }

  /** A pool with nothing left loses nothing more. */
  lemma {:induction false} ExhaustedStaysCoherent(w: World, g: Setup, p: Pool, s: State, attempt: nat, saw: bool)
    requires Untouched(p) && Traced(p, w.draws, s) && Coherent(s) && s.rotations >= |p.endpoints|
    ensures Coherent(Solve(w, g, s, attempt, saw).s)
    decreases if attempt <= g.policy.maxAttempts then g.policy.maxAttempts - attempt + 1 else 0
  {
    OnlyWithinBudget(w, g, s, attempt, saw);
    TurnTraced(w, g, p, s, attempt, saw);
    ExhaustedTurn(w, g, p, s, attempt, saw);
    var t := TakeTurn(w, g, s, attempt, saw);
    if t.Again? {
      ExhaustedStaysCoherent(w, g, p, t.s, attempt + 1, true);
    }
  }

  lemma TurnStrands(w: World, g: Setup, p: Pool, s: State, attempt: nat, saw: bool)
    requires Untouched(p) && Traced(p, w.draws, s) && Coherent(s) && s.rotations < |p.endpoints|
    ensures var t := TakeTurn(w, g, s, attempt, saw);
            if t.Again? then
              && Traced(p, w.draws, t.s) && Coherent(t.s) && t.s.rotations < |p.endpoints|
              && (Strands(w, g, p, s.rotations, attempt) <==> Strands(w, g, p, t.s.rotations, attempt + 1))
            else Coherent(t.s) <==> !Strands(w, g, p, s.rotations, attempt)
  {
    TurnTraced(w, g, p, s, attempt, saw);
    TurnPasses(w, g, p, s, attempt, saw);
    TurnCoherentIff(w, g, p, s, attempt, saw);
    StrandsShifts(w, g, p, s.rotations, attempt);
    assert attempt >= g.policy.maxAttempts ==> !Strands(w, g, p, s.rotations, attempt);
  }

  lemma {:induction false} CoherentIffNotStranded(w: World, g: Setup, p: Pool, s: State, attempt: nat, saw: bool)
    requires Untouched(p) && Traced(p, w.draws, s) && Coherent(s) && s.rotations < |p.endpoints|
    ensures Coherent(Solve(w, g, s, attempt, saw).s) <==> !Strands(w, g, p, s.rotations, attempt)
    decreases if attempt <= g.policy.maxAttempts then g.policy.maxAttempts - attempt + 1 else 0
  {
    OnlyWithinBudget(w, g, s, attempt, saw);
    TurnStrands(w, g, p, s, attempt, saw);
    var t := TakeTurn(w, g, s, attempt, saw);
    if t.Again? {
      CoherentIffNotStranded(w, g, p, t.s, attempt + 1, true);
    }
  }

  /** For every world: the loop ends with traffic leaving through the endpoint the pool selects,
      under its locale, exactly when the pool had nothing to lose or no look within the
      budget strands it. For one caller at a time; `RotationModel` has the others. */
  lemma SolveCoherentIff(w: World, g: Setup, p: Pool, s: State)
    requires Untouched(p) && Traced(p, w.draws, s) && Coherent(s)
    ensures Coherent(Solve(w, g, s, 0, false).s) <==> s.rotations >= |p.endpoints| || !Strands(w, g, p, s.rotations, 0)
  {
    if s.rotations >= |p.endpoints| {
      ExhaustedStaysCoherent(w, g, p, s, 0, false);
    } else {
      CoherentIffNotStranded(w, g, p, s, 0, false);
    }
  }

  /** A stranded run: one endpoint, one hard block. The pool selects nothing any more, and
      traffic keeps leaving through the retired endpoint. */
  lemma RetiredEndpointStaysInUse() returns (w: World, g: Setup, s: State)
    ensures Coherent(s) && s.pool == Pool([Endpoint("u", None, true)], RoundRobin, Some(0))
    ensures var run := Solve(w, g, s, 0, false);
            run.result == Err(PoolExhausted) && Selected(run.s.pool).None? && run.s.upstream == Some("u")
  {
    var pool := Pool([Endpoint("u", None, true)], RoundRobin, Some(0));
    w := World(_ => Some(AccessDenied), _ => true, _ => true, _ => 0, false, true);
    g := Setup(Policy(1, 0, 0, true), true);
    s := State(pool, Some("u"), LocaleSource(None, Some("u")), 0, 0, 0, []);
    RotationsSucceed(pool, w.draws, 1);
    assert RotateTimes(pool, w.draws, 0) == pool;
    assert Rotate(pool, w.draws(0)) == RotateTimes(pool, w.draws, 1);
  }
}

/** The scraper itself: the loop in place, over its pool. */
module Challenge {
  import opened Wrappers
  import opened Mitigation
  import opened PoolModel
  import opened ChallengeModel
  import Pool = ProxyPool

  class CloudScraper {
    const policy: Policy
    const mitm: bool
    const pool: Pool.ProxyPool
    var upstream: Option<string>
    var locale: LocaleSource
    var looks: nat
    var rotations: nat
    var slept: nat
    var recorded: seq<Outcome>

    constructor (policy: Policy, mitm: bool, pool: Pool.ProxyPool)
      requires InRange(pool.View())
      ensures this.policy == policy && this.mitm == mitm && this.pool == pool
      ensures Coherent(View()) && looks == rotations == slept == 0 && recorded == []
    {
      this.policy, this.mitm, this.pool := policy, mitm, pool;
      upstream := pool.Current();
      locale := LocaleSource(pool.Country(), pool.Current());
      looks, rotations, slept, recorded := 0, 0, 0, [];
    }

    ghost function View(): State
      reads this, pool
    {
      State(pool.View(), upstream, locale, looks, rotations, slept, recorded)
    }

    method RotateProxy(w: World, attempt: nat) returns (failure: Option<Failure>)
      requires InRange(pool.View())
      modifies this, pool
      ensures InRange(pool.View())
      ensures (View(), failure) == RotateUpstream(w, Setup(policy, mitm), old(View()), attempt)
    {
      if !mitm {
        return Some(NoMitmProxy);
      }
      var next := pool.Rotate(w.draws(rotations));
      rotations := rotations + 1;
      if next.None? {
        return Some(PoolExhausted);
      }
      if !w.builds(attempt) {
        return Some(ClientFailed);
      }
      upstream := next;
      locale := LocaleSource(pool.Country(), next);
      failure := None;
    }

    method RecordForHost(w: World, outcome: Outcome) returns (ok: bool)
      modifies this`recorded
      ensures View() == Record(w, old(View()), outcome) && ok == (!w.records || w.stores)
    {
      if w.records {
        recorded := recorded + [outcome];
      }
      ok := !w.records || w.stores;
    }

    method RotateTurn(w: World, attempt: nat) returns (ended: Option<Result<ChallengeKind, Failure>>)
      requires InRange(pool.View())
      modifies this, pool
      ensures InRange(pool.View())
      ensures ChallengeModel.RotateTurn(w, Setup(policy, mitm), old(View()), attempt) ==
              TurnOf(View(), ended)
    {
      var failure := RotateProxy(w, attempt);
      if failure.Some? {
        var _ := RecordForHost(w, Blocked);
        return Some(Err(failure.value));
      }
      ended := if w.reloads(attempt) then None else Some(Err(PageFailed));
    }

    /** One pass of the loop: the result to return, if it is the last one. */
    method TakeTurn(w: World, attempt: nat, saw: bool) returns (ended: Option<Result<ChallengeKind, Failure>>)
      requires InRange(pool.View())
      modifies this, pool
      ensures InRange(pool.View())
      ensures ChallengeModel.TakeTurn(w, Setup(policy, mitm), old(View()), attempt, saw) ==
              TurnOf(View(), ended)
    {
      looks := looks + 1;
      assert View() == old(View()).(looks := looks);
      var signal := w.signals(attempt);
      if signal.None? {
        return Some(Err(PageFailed));
      }
      match Decide(policy, signal.value, attempt) {
        case Proceed =>
          var ok := RecordForHost(w, if saw then Challenged else Success);
          ended := Some(if ok then Ok(signal.value) else Err(StoreFailed));
        case Fail =>
          var _ := RecordForHost(w, if signal.value.RateLimited? then Limited else Blocked);
          ended := Some(Err(Unsolved(signal.value)));
        case Wait(delay, _) =>
          slept := slept + delay;
          ended := None;
        case RotateProxy(_) =>
          ended := RotateTurn(w, attempt);
      }
    }

    method SolveChallenge(w: World) returns (result: Result<ChallengeKind, Failure>, ghost attempts: nat)
      requires InRange(pool.View())
      modifies this, pool
      ensures InRange(pool.View())
      ensures Run(View(), attempts, result) == Solve(w, Setup(policy, mitm), old(View()), 0, false)
    {
      ghost var g := Setup(policy, mitm);
      var attempt, saw := 0, false;
      while true
        invariant InRange(pool.View())
        invariant Solve(w, g, View(), attempt, saw) == Solve(w, g, old(View()), 0, false)
        decreases if attempt <= policy.maxAttempts then policy.maxAttempts - attempt + 1 else 0
      {
        OnlyWithinBudget(w, g, View(), attempt, saw);
        var ended := TakeTurn(w, attempt, saw);
        if ended.Some? {
          return ended.value, attempt;
        }
        attempt, saw := attempt + 1, true;
      }
    }
  }
}
