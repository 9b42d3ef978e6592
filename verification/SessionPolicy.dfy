/** `SessionPolicy` and the clearance half of `StealthIdentity` in `src/identity.rs`:
    when a session belongs in the browser and when on plain HTTP. */
module SessionPolicy {
  import opened Wrappers
  import opened Cookies

  datatype SessionMode = Browser | Http

  datatype EscalateReason = ChallengeSeen | ClearanceExpiring | NoClearance

  datatype DemoteReason = Cleared | IdentityReplaced

  datatype Transition = Stay | Escalate(why: EscalateReason) | Demote(because: DemoteReason)

  /** The margin is a `Duration`, here in nanoseconds; what remains of a cookie is whole seconds. */
  datatype Policy = Policy(margin: nat, requireClearance: bool)

  const NANOS: nat := 1_000_000_000

  const CLEARANCE_COOKIE := "cf_clearance"

  predicate IsLiveClearance(c: Cookie, now: nat) {
    c.name == CLEARANCE_COOKIE && !c.IsExpired(now)
  }

  /** The first live clearance. */
  function Clearance(cookies: seq<Cookie>, now: nat): (r: Option<Cookie>)
    ensures r.Some? ==> r.value in cookies && IsLiveClearance(r.value, now)
    ensures r.None? ==> forall c <- cookies :: !IsLiveClearance(c, now)
  {
    if cookies == [] then None
    else if IsLiveClearance(cookies[0], now) then Some(cookies[0])
    else Clearance(cookies[1..], now)
  }

  /** Not just any live clearance: the first one in the jar. */
  lemma {:induction false} ClearanceIsFirst(cookies: seq<Cookie>, now: nat)
    ensures var r := Clearance(cookies, now);
            r.Some? ==>
              exists i :: && 0 <= i < |cookies| && cookies[i] == r.value
                          && r.value.name == "cf_clearance" && (r.value.expires.Some? ==> now < r.value.expires.value)
                          && forall j :: 0 <= j < i ==> !IsLiveClearance(cookies[j], now)
  {
    if cookies != [] && !IsLiveClearance(cookies[0], now) {
      ClearanceIsFirst(cookies[1..], now);
      var r := Clearance(cookies[1..], now);
      if r.Some? {
        var i :| && 0 <= i < |cookies| - 1 && cookies[1..][i] == r.value
                 && forall j :: 0 <= j < i ==> !IsLiveClearance(cookies[1..][j], now);
        assert cookies[i + 1] == r.value;
        assert forall j :: 1 <= j <= i ==> cookies[j] == cookies[1..][j - 1];
      }
    }
  }

  /** Whether so little remains that it counts as about to expire. */
  predicate Expiring(p: Policy, c: Cookie, now: nat) {
    match c.Remaining(now) case None => false case Some(seconds) => seconds * NANOS <= p.margin
  }

  function DecideHttp(p: Policy, cookies: seq<Cookie>, challenged: bool, now: nat): Transition {
    if challenged then Escalate(ChallengeSeen)
    else match Clearance(cookies, now)
         case Some(c) => if Expiring(p, c, now) then Escalate(ClearanceExpiring) else Stay
         case None => if p.requireClearance then Escalate(NoClearance) else Stay
  }

  function DecideBrowser(p: Policy, cookies: seq<Cookie>, challenged: bool, now: nat): Transition {
    if challenged then Stay
    else match Clearance(cookies, now)
         case Some(c) => if Expiring(p, c, now) then Stay else Demote(Cleared)
         case None => if p.requireClearance then Stay else Demote(Cleared)
  }

  function Decide(p: Policy, mode: SessionMode, cookies: seq<Cookie>, challenged: bool, now: nat): Transition {
    match mode
    case Http => DecideHttp(p, cookies, challenged, now)
    case Browser => DecideBrowser(p, cookies, challenged, now)
  }

  /** At no instant would both sides hand the session to the other, nor would neither:
      unchallenged, exactly one of the two leaves its mode. */
  lemma ExactlyOneMoves(p: Policy, cookies: seq<Cookie>, now: nat)
    ensures Decide(p, Browser, cookies, false, now).Demote? <==> !Decide(p, Http, cookies, false, now).Escalate?
    ensures Decide(p, Browser, cookies, false, now).Demote? || Decide(p, Browser, cookies, false, now).Stay?
    ensures Decide(p, Http, cookies, false, now).Escalate? || Decide(p, Http, cookies, false, now).Stay?
  {
  }

  /** Whether the session may do without a browser, by its clearance and its policy alone. */
  predicate GoodOnHttp(p: Policy, cookies: seq<Cookie>, now: nat) {
    match Clearance(cookies, now)
    case None => !p.requireClearance
    case Some(c) => c.expires.None? || p.margin < (c.expires.value - now) * 1_000_000_000
  }

  /** Every decision, exactly: unchallenged, HTTP is left when it will not do and the browser when
      HTTP will; a challenge over HTTP always leaves it, and one in the browser never does. */
  lemma DecideIff(p: Policy, cookies: seq<Cookie>, now: nat)
    ensures Decide(p, Http, cookies, false, now) ==
            if GoodOnHttp(p, cookies, now) then Stay
            else if Clearance(cookies, now).Some? then Escalate(ClearanceExpiring) else Escalate(NoClearance)
    ensures Decide(p, Browser, cookies, false, now) == if GoodOnHttp(p, cookies, now) then Demote(Cleared) else Stay
    ensures Decide(p, Http, cookies, true, now) == Escalate(ChallengeSeen)
    ensures Decide(p, Browser, cookies, true, now) == Stay
  {
  }

  /** While the first live clearance lives, it stays the first live one. */
  lemma {:induction false} ClearanceKeeps(cookies: seq<Cookie>, now: nat, later: nat)
    requires now <= later && Clearance(cookies, now).Some?
    requires !Clearance(cookies, now).value.IsExpired(later)
    ensures Clearance(cookies, later) == Clearance(cookies, now)
  {
    if !IsLiveClearance(cookies[0], now) {
      ClearanceKeeps(cookies[1..], now, later);
    }
  }

  /** The exact span on HTTP after a demotion, on the same cookies and unchallenged. With a
      clearance that expires, HTTP stays at every later instant of its life that is more than
      the margin, in nanoseconds, from its end, and escalates at every other one. Without an
      expiry, or without a clearance, it stays for good. */
  lemma HttpStaysAfterDemotion(p: Policy, cookies: seq<Cookie>, now: nat, later: nat)
    requires Decide(p, Browser, cookies, false, now).Demote? && now <= later
    ensures match Clearance(cookies, now)
            case None => Decide(p, Http, cookies, false, later) == Stay
            case Some(c) =>
              match c.expires
              case None => Decide(p, Http, cookies, false, later) == Stay
              case Some(end) =>
                later < end ==>
                  (Decide(p, Http, cookies, false, later) == Stay <==> p.margin < (end - later) * 1_000_000_000)
  {
  }

  /** Every cookie as the browser exports it, without those already expired. */
  function SetCookies(cookies: seq<Cookie>, now: nat): seq<Cookie> {
    if cookies == [] then []
    else (if cookies[0].IsExpired(now) then [] else [cookies[0]]) + SetCookies(cookies[1..], now)
  }

  /** Exactly the unexpired ones are kept, each as often as it occurs. */
  lemma {:induction false} SetCookiesKeepsLive(cookies: seq<Cookie>, now: nat, c: Cookie)
    ensures multiset(SetCookies(cookies, now))[c] == if c.IsExpired(now) then 0 else multiset(cookies)[c]
  {
    if cookies != [] {
      SetCookiesKeepsLive(cookies[1..], now, c);
      assert cookies == [cookies[0]] + cookies[1..];
    }
  }

  lemma SetCookiesFirst(c: Cookie, rest: seq<Cookie>, now: nat)
    ensures SetCookies([c] + rest, now) == (if c.IsExpired(now) then [] else [c]) + SetCookies(rest, now)
  {
    assert ([c] + rest)[1..] == rest;
  }

  /** They are kept in their order: what comes first comes first. */
  lemma {:induction false} SetCookiesKeepsOrder(cookies: seq<Cookie>, more: seq<Cookie>, now: nat)
    ensures SetCookies(cookies + more, now) == SetCookies(cookies, now) + SetCookies(more, now)
  {
    if cookies == [] {
      assert cookies + more == more;
    } else {
      var c, rest := cookies[0], cookies[1..];
      var first: seq<Cookie> := if c.IsExpired(now) then [] else [c];
      assert SetCookies(cookies + more, now) == first + (SetCookies(rest, now) + SetCookies(more, now)) by {
        assert cookies + more == [c] + (rest + more);
        SetCookiesFirst(c, rest + more, now);
        SetCookiesKeepsOrder(rest, more, now);
      }
      Associate(first, SetCookies(rest, now), SetCookies(more, now));
    }
  }

  /** Dropping the expired ones changes no decision taken from then on. */
  lemma {:induction false} SetCookiesKeepsClearance(cookies: seq<Cookie>, now: nat, later: nat)
    requires now <= later
    ensures Clearance(SetCookies(cookies, now), later) == Clearance(cookies, later)
  {
    if cookies != [] {
      SetCookiesKeepsClearance(cookies[1..], now, later);
      var kept, rest := SetCookies(cookies, now), SetCookies(cookies[1..], now);
      if cookies[0].IsExpired(now) {
        assert kept == rest;
      } else {
        assert kept[0] == cookies[0] && kept[1..] == rest;
      }
    }
  }
}
