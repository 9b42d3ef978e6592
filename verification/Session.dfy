/** `src/session.rs`: the session that moves between a browser and plain HTTP. What the
    outside answers is a parameter, and so is the clock. */
module SessionModel {
  import opened Wrappers
  import opened Cookies
  import opened CookieJar
  import opened SessionPolicy

  /** A fingerprint, by a name for it. */
  type Profile = string

  datatype Identity = Identity(profile: Profile, cookies: Jar, egress: Option<string>)

  /** What launching a browser, clearing a page and sending a request come to. */
  datatype Launch = NotBuilt | CookiesRefused | Launched

  datatype Clear = NotCleared | ClearedWith(cookies: Jar, now: nat)

  datatype Answer = Answer(challenge: bool, batch: Batch)

  /** Everything outside the session, by how many times it has been asked. */
  datatype World = World(
    launches: nat -> Launch,
    clears: nat -> Clear,
    clients: nat -> bool,
    requests: nat -> Option<Answer>,
    clock: nat -> nat)

  /** Fixed for the life of a session. `redact` strips the credentials of an egress URL. */
  datatype Setup = Setup(policy: Policy, upstream: Option<string>, redact: string -> string, names: Names)

  datatype BrowserLeg = BrowserLeg(profile: Profile, handed: Jar)

  /** The last five count launches, clearings, client builds, requests and decisions. */
  datatype Session = Session(
    identity: Identity,
    browser: Option<BrowserLeg>,
    http: Option<Profile>,
    launches: nat,
    clears: nat,
    builds: nat,
    requests: nat,
    decisions: nat)

  function EgressOf(g: Setup): Option<string> {
    match g.upstream case None => None case Some(url) => Some(g.redact(url))
  }

  predicate IsBoundTo(i: Identity, g: Setup) {
    match (i.egress, g.upstream)
    case (Some(bound), Some(url)) => bound == g.redact(url)
    case (None, None) => true
    case _ => false
  }

  function Build(g: Setup, profile: Profile): Session {
    Session(Identity(profile, [], EgressOf(g)), None, None, 0, 0, 0, 0, 0)
  }

  function Mode(s: Session): SessionMode {
    if s.browser.Some? then SessionMode.Browser else Http
  }

  function DemoteFor(s: Session): Session {
    s.(browser := None)
  }

  function RestoreIdentity(g: Setup, s: Session, i: Identity): (Session, bool) {
    if !IsBoundTo(i, g) then (s, false) else (DemoteFor(s.(identity := i, http := None)), true)
  }

  function EscalateFor(w: World, s: Session): (Session, bool) {
    if s.browser.Some? then (s, true)
    else
      var t := s.(launches := s.launches + 1);
      match w.launches(s.launches)
      case Launched => (t.(browser := Some(BrowserLeg(s.identity.profile, s.identity.cookies))), true)
      case _ => (t, false)
  }

  function ApplyTransition(w: World, s: Session, t: Transition): (Session, bool) {
    match t
    case Stay => (s, true)
    case Escalate(_) => EscalateFor(w, s)
    case Demote(_) => (DemoteFor(s), true)
  }

  /** Decide at the present instant and carry it out. */
  function Reconsider(w: World, g: Setup, s: Session, challenged: bool): (Session, bool) {
    ApplyTransition(
      w, s.(decisions := s.decisions + 1),
      Decide(g.policy, Mode(s), s.identity.cookies, challenged, w.clock(s.decisions)))
  }

  function ClearWithBrowser(w: World, s: Session): (Session, bool) {
    var t := s.(clears := s.clears + 1);
    match w.clears(s.clears)
    case NotCleared => (t, false)
    case ClearedWith(cookies, now) => (t.(identity := s.identity.(cookies := SetCookies(cookies, now))), true)
  }

  function ClearAndReconsider(w: World, g: Setup, s: Session): (Session, bool) {
    var (t, ok) := ClearWithBrowser(w, s);
    if ok then Reconsider(w, g, t, false) else (t, false)
  }

  function HttpTransport(w: World, s: Session): (Session, bool) {
    if s.http.Some? then (s, true)
    else
      var t := s.(builds := s.builds + 1);
      if w.clients(s.builds) then (t.(http := Some(s.identity.profile)), true) else (t, false)
  }

  function HttpFetch(w: World, g: Setup, s: Session): (Session, Option<Answer>) {
    var (t, ok) := HttpTransport(w, s);
    if !ok then (t, None)
    else
      var u := t.(requests := s.requests + 1);
      match w.requests(s.requests)
      case None => (u, None)
      case Some(answer) =>
        (u.(identity := u.identity.(cookies := Absorb(g.names, u.identity.cookies, answer.batch))), Some(answer))
  }

  datatype Fetched = Failed | Answered(answer: Answer) | Declined(answer: Answer)

  function Final(fetched: (Session, Option<Answer>)): (Session, Fetched) {
    (fetched.0, match fetched.1 case None => Failed case Some(answer) => Answered(answer))
  }

  /** After a challenged answer: the one retry. */
  function Retry(w: World, g: Setup, s: Session, answer: Answer): (Session, Fetched) {
    var (a, applied) := Reconsider(w, g, s, true);
    if !applied then (a, Failed)
    else if a.browser.None? then (a, Declined(answer))
    else
      var (b, cleared) := ClearAndReconsider(w, g, a);
      if !cleared then (b, Failed) else Final(HttpFetch(w, g, b))
  }

  /** Before the request: the first decision, and the page cleared if in the browser. */
  function Prepare(w: World, g: Setup, s: Session): (Session, bool) {
    var (a, applied) := Reconsider(w, g, s, false);
    if applied && a.browser.Some? then ClearAndReconsider(w, g, a) else (a, applied)
  }

  function Fetch(w: World, g: Setup, s: Session): (Session, Fetched) {
    var (a, ready) := Prepare(w, g, s);
    if !ready then (a, Failed)
    else
      var (b, response) := HttpFetch(w, g, a);
      match response
      case None => (b, Failed)
      case Some(answer) => if answer.challenge then Retry(w, g, b, answer) else (b, Answered(answer))
  }

  // -- the session invariant -------------------------------------------------------------------

  /** The identity stays bound to the session's egress, and a live transport was built from
      the profile the identity has now. */
  ghost predicate Coherent(g: Setup, s: Session) {
    && IsBoundTo(s.identity, g)
    && (s.browser.Some? ==> s.browser.value.profile == s.identity.profile)
    && (s.http.Some? ==> s.http.value == s.identity.profile)
  }

  /** One session later in time: the counters only grow, and not by more than this. */
  ghost predicate Grew(s: Session, t: Session, launches: nat, clears: nat, requests: nat, decisions: nat) {
    && s.launches <= t.launches <= s.launches + launches
    && s.clears <= t.clears <= s.clears + clears
    && s.builds <= t.builds <= s.builds + requests
    && s.requests <= t.requests <= s.requests + requests
    && s.decisions <= t.decisions <= s.decisions + decisions
  }

  /** What a part of a fetch keeps, and what it may cost. */
  ghost predicate Kept(g: Setup, s: Session, t: Session, launches: nat, clears: nat, requests: nat, decisions: nat) {
    && (Coherent(g, s) ==> Coherent(g, t))
    && t.identity.profile == s.identity.profile && t.identity.egress == s.identity.egress
    && Grew(s, t, launches, clears, requests, decisions)
  }

  lemma ReconsiderKeeps(w: World, g: Setup, s: Session, challenged: bool)
    ensures Kept(g, s, Reconsider(w, g, s, challenged).0, if s.browser.Some? then 0 else 1, 0, 0, 1)
  {
  }

  lemma ClearKeeps(w: World, g: Setup, s: Session)
    requires s.browser.Some?
    ensures Kept(g, s, ClearAndReconsider(w, g, s).0, 0, 1, 0, 1)
  {
  }

  lemma HttpFetchKeeps(w: World, g: Setup, s: Session)
    ensures Kept(g, s, HttpFetch(w, g, s).0, 0, 0, 1, 0)
    ensures HttpFetch(w, g, s).1.Some? ==> HttpFetch(w, g, s).0.requests == s.requests + 1
    ensures HttpFetch(w, g, s).0.browser == s.browser
  {
  }

  lemma PrepareKeeps(w: World, g: Setup, s: Session)
    ensures Kept(g, s, Prepare(w, g, s).0, 1, 1, 0, 2)
  {
    ReconsiderKeeps(w, g, s, false);
    var a := Reconsider(w, g, s, false).0;
    if a.browser.Some? {
      ClearKeeps(w, g, a);
    }
  }

  /** A challenge seen over HTTP always ends up in a browser or in an error: the one there was,
      or a new one with the session's profile that was handed its cookies. */
  lemma ChallengeNeedsBrowser(w: World, g: Setup, s: Session)
    ensures var (t, ok) := Reconsider(w, g, s, true);
            ok ==> t.browser.Some? && t.browser == if s.browser.Some? then s.browser
                                                   else Some(BrowserLeg(s.identity.profile, s.identity.cookies))
  {
  }

  lemma RetryKeeps(w: World, g: Setup, s: Session, answer: Answer)
    ensures Kept(g, s, Retry(w, g, s, answer).0, 1, 1, 1, 2)
    ensures !Retry(w, g, s, answer).1.Declined?
    ensures Retry(w, g, s, answer).1.Answered? ==>
              Retry(w, g, s, answer).0.clears == s.clears + 1 && Retry(w, g, s, answer).0.requests == s.requests + 1
  {
    ReconsiderKeeps(w, g, s, true);
    ChallengeNeedsBrowser(w, g, s);
    var (a, applied) := Reconsider(w, g, s, true);
    if applied {
      ClearKeeps(w, g, a);
      HttpFetchKeeps(w, g, ClearAndReconsider(w, g, a).0);
    }
  }

  /** One fetch: at most two launches, two clearings, two requests and four decisions; the
      session stays coherent; the early return for a policy that declines is never taken. */
  lemma FetchKeeps(w: World, g: Setup, s: Session)
    ensures Kept(g, s, Fetch(w, g, s).0, 2, 2, 2, 4)
    ensures !Fetch(w, g, s).1.Declined?
  {
    PrepareKeeps(w, g, s);
    var (a, ready) := Prepare(w, g, s);
    HttpFetchKeeps(w, g, a);
    var (b, response) := HttpFetch(w, g, a);
    if ready && response.Some? {
      RetryKeeps(w, g, b, response.value);
    }
  }

  /** A challenged answer is only ever returned after a retry: two requests were sent,
      with a page cleared in the browser in between. */
  lemma ChallengedAnswerWasRetried(w: World, g: Setup, s: Session)
    requires Fetch(w, g, s).1.Answered? && Fetch(w, g, s).1.answer.challenge
    ensures Fetch(w, g, s).0.requests == s.requests + 2 && Fetch(w, g, s).0.clears > s.clears
  {
    PrepareKeeps(w, g, s);
    PrepareSendsNothing(w, g, s);
    var (a, _) := Prepare(w, g, s);
    HttpFetchKeeps(w, g, a);
    var (b, response) := HttpFetch(w, g, a);
    RetryKeeps(w, g, b, response.value);
  }

  lemma PrepareSendsNothing(w: World, g: Setup, s: Session)
    ensures Prepare(w, g, s).0.requests == s.requests
  {
  }

  /** The bounds are met: a host that clears in the browser but keeps challenging HTTP. */
  lemma FetchBoundsAreMet(w: World, g: Setup, profile: Profile, clearance: Cookie, batch: Batch)
    requires g.policy.requireClearance && batch.headers == []
    requires clearance.name == CLEARANCE_COOKIE && clearance.expires.None?
    requires forall k :: w.launches(k) == Launched && w.clients(k)
    requires forall k :: w.clears(k) == ClearedWith([clearance], 0)
    requires forall k :: w.requests(k) == Some(Answer(true, batch))
    ensures var t := Fetch(w, g, Build(g, profile)).0;
            t.launches == t.clears == t.requests == 2 && t.builds == 1 && t.decisions == 4
  {
    var s := Build(g, profile);
    assert SetCookies([clearance], 0) == [clearance];
    var cleared := s.identity.(cookies := [clearance]);
    assert Prepare(w, g, s) == (s.(identity := cleared, launches := 1, clears := 1, decisions := 2), true);
    var sent := s.(identity := cleared, http := Some(profile),
                   launches := 1, clears := 1, builds := 1, requests := 1, decisions := 2);
    assert HttpFetch(w, g, Prepare(w, g, s).0).0 == sent;
  }

  // -- what a fetch does before its request, in terms of the policy ----------------------------

  lemma ReconsiderActs(w: World, g: Setup, s: Session)
    ensures var (t, ok) := Reconsider(w, g, s, false);
            var good := GoodOnHttp(g.policy, s.identity.cookies, w.clock(s.decisions));
            && t.decisions == s.decisions + 1 && t.identity == s.identity && t.clears == s.clears
            && t.launches == s.launches + (if !good && s.browser.None? then 1 else 0)
            && (ok ==> (t.browser.None? <==> good))
  {
    DecideIff(g.policy, s.identity.cookies, w.clock(s.decisions));
  }

  /** Before its request a fetch launches a browser exactly when there is none and HTTP will not do,
      clears the page exactly when it is in one, and goes on over HTTP alone exactly when the
      cookies it has by then will do. */
  lemma PrepareActs(w: World, g: Setup, s: Session)
    ensures var (t, ok) := Prepare(w, g, s);
            var good := GoodOnHttp(g.policy, s.identity.cookies, w.clock(s.decisions));
            && t.launches == s.launches + (if !good && s.browser.None? then 1 else 0)
            && t.clears == s.clears + (if !good && (s.browser.Some? || w.launches(s.launches) == Launched) then 1 else 0)
            && (ok ==>
                  && t.decisions > s.decisions
                  && (t.browser.None? <==> GoodOnHttp(g.policy, t.identity.cookies, w.clock(t.decisions - 1))))
  {
    ReconsiderActs(w, g, s);
    var (a, applied) := Reconsider(w, g, s, false);
    if applied && a.browser.Some? {
      var (b, cleared) := ClearWithBrowser(w, a);
      if cleared {
        ReconsiderActs(w, g, b);
      }
    }
  }

  // -- what a fetch returns, in terms of what the outside answered ----------------------------

  ghost predicate LaunchFailed(w: World, s: Session, t: Session) {
    exists k :: s.launches <= k < t.launches && w.launches(k) != Launched
  }

  ghost predicate ClearFailed(w: World, s: Session, t: Session) {
    exists k :: s.clears <= k < t.clears && w.clears(k) == NotCleared
  }

  ghost predicate BuildFailed(w: World, s: Session, t: Session) {
    exists k :: s.builds <= k < t.builds && !w.clients(k)
  }

  ghost predicate RequestFailed(w: World, s: Session, t: Session) {
    exists k :: s.requests <= k < t.requests && w.requests(k) == None
  }

  /** Some call to the outside made between `s` and `t` failed. */
  ghost predicate OutsideFailed(w: World, s: Session, t: Session) {
    LaunchFailed(w, s, t) || ClearFailed(w, s, t) || BuildFailed(w, s, t) || RequestFailed(w, s, t)
  }

  ghost predicate Later(s: Session, t: Session) {
    s.launches <= t.launches && s.clears <= t.clears && s.builds <= t.builds && s.requests <= t.requests
  }

  lemma FailuresAdd(w: World, s: Session, t: Session, u: Session)
    requires Later(s, t) && Later(t, u)
    ensures OutsideFailed(w, s, u) <==> OutsideFailed(w, s, t) || OutsideFailed(w, t, u)
  {
  }

  lemma ReconsiderFailsIff(w: World, g: Setup, s: Session, challenged: bool)
    ensures var (t, ok) := Reconsider(w, g, s, challenged);
            && (!ok <==> OutsideFailed(w, s, t))
            && t.clears == s.clears && t.builds == s.builds && t.requests == s.requests && s.launches <= t.launches
            && t.identity == s.identity && t.http == s.http
  {
  }

  /** The cookies the latest of the clearings up to `clears` left, or those there were. */
  function CookiesAfter(w: World, s: Session, clears: nat): Jar {
    if clears > s.clears && w.clears(clears - 1).ClearedWith?
    then SetCookies(w.clears(clears - 1).cookies, w.clears(clears - 1).now)
    else s.identity.cookies
  }

  lemma ClearingFailsIff(w: World, s: Session)
    ensures var (t, ok) := ClearWithBrowser(w, s);
            && (!ok <==> OutsideFailed(w, s, t)) && t.clears == s.clears + 1
            && t.builds == s.builds && t.requests == s.requests && t.launches == s.launches
            && (ok ==> t.identity.cookies == CookiesAfter(w, s, t.clears))
  {
    assert w.clears(s.clears) == NotCleared <==> ClearFailed(w, s, ClearWithBrowser(w, s).0);
  }

  lemma ClearAndReconsiderFailsIff(w: World, g: Setup, s: Session)
    ensures var (t, ok) := ClearAndReconsider(w, g, s);
            && (!ok <==> OutsideFailed(w, s, t)) && Later(s, t)
            && t.clears == s.clears + 1 && t.builds == s.builds && t.requests == s.requests
            && (ok ==> t.identity.cookies == CookiesAfter(w, s, t.clears))
  {
    ClearingFailsIff(w, s);
    var (t, ok) := ClearWithBrowser(w, s);
    if ok {
      ReconsiderFailsIff(w, g, t, false);
      FailuresAdd(w, s, t, Reconsider(w, g, t, false).0);
    }
  }

  lemma PrepareFailsIff(w: World, g: Setup, s: Session)
    ensures var (t, ok) := Prepare(w, g, s);
            && (!ok <==> OutsideFailed(w, s, t)) && Later(s, t)
            && t.builds == s.builds && t.requests == s.requests
            && (ok ==> t.identity.cookies == CookiesAfter(w, s, t.clears))
  {
    ReconsiderFailsIff(w, g, s, false);
    var (a, applied) := Reconsider(w, g, s, false);
    if applied && a.browser.Some? {
      ClearAndReconsiderFailsIff(w, g, a);
      FailuresAdd(w, s, a, ClearAndReconsider(w, g, a).0);
    }
  }

  lemma HttpFetchFailsIff(w: World, g: Setup, s: Session)
    ensures var (t, answer) := HttpFetch(w, g, s);
            && (answer.None? <==> OutsideFailed(w, s, t)) && Later(s, t)
            && t.clears == s.clears
            && (answer.Some? ==>
                  && t.requests == s.requests + 1 && w.requests(s.requests) == answer
                  && t.identity.cookies == Absorb(g.names, s.identity.cookies, answer.value.batch))
  {
    var t := HttpFetch(w, g, s).0;
    assert s.http.None? && !w.clients(s.builds) ==> BuildFailed(w, s, t);
    assert t.requests > s.requests && w.requests(s.requests) == None ==> RequestFailed(w, s, t);
  }

  /** A fetch from `s` to `t` got answer `x`: that of its latest request, whose cookies were
      absorbed into those of its latest clearing, or into those there were. */
  ghost predicate Got(w: World, g: Setup, s: Session, t: Session, x: Answer) {
    && t.requests > s.requests && w.requests(t.requests - 1) == Some(x)
    && t.identity.cookies == Absorb(g.names, CookiesAfter(w, s, t.clears), x.batch)
  }

  /** A page cleared, then a request. */
  function ClearAndSend(w: World, g: Setup, s: Session): (Session, Fetched) {
    var (b, cleared) := ClearAndReconsider(w, g, s);
    if !cleared then (b, Failed) else Final(HttpFetch(w, g, b))
  }

  lemma ClearAndSendAnswers(w: World, g: Setup, s: Session)
    ensures var (t, fetched) := ClearAndSend(w, g, s);
            && (fetched.Failed? <==> OutsideFailed(w, s, t)) && Later(s, t) && !fetched.Declined?
            && (fetched.Answered? ==>
                  t.requests == s.requests + 1 && t.clears == s.clears + 1 && Got(w, g, s, t, fetched.answer))
  {
    ClearAndReconsiderFailsIff(w, g, s);
    var (b, cleared) := ClearAndReconsider(w, g, s);
    if cleared {
      HttpFetchFailsIff(w, g, b);
      FailuresAdd(w, s, b, HttpFetch(w, g, b).0);
    }
  }

  lemma GotSince(w: World, g: Setup, s: Session, a: Session, t: Session, x: Answer)
    requires Got(w, g, a, t, x)
    requires a.identity == s.identity && a.clears == s.clears && a.requests == s.requests
    ensures Got(w, g, s, t, x)
  {
  }

  lemma RetryAnswers(w: World, g: Setup, s: Session, first: Answer)
    ensures var (t, fetched) := Retry(w, g, s, first);
            && (fetched.Failed? <==> OutsideFailed(w, s, t)) && Later(s, t)
            && (fetched.Answered? ==>
                  t.requests == s.requests + 1 && t.clears == s.clears + 1 && Got(w, g, s, t, fetched.answer))
  {
    ChallengeNeedsBrowser(w, g, s);
    ReconsiderFailsIff(w, g, s, true);
    var (a, applied) := Reconsider(w, g, s, true);
    if applied {
      ClearAndSendAnswers(w, g, a);
      var (t, fetched) := ClearAndSend(w, g, a);
      assert Retry(w, g, s, first) == (t, fetched);
      FailuresAdd(w, s, a, t);
      if fetched.Answered? {
        GotSince(w, g, s, a, t, fetched.answer);
      }
    }
  }

  /** Every fetch: it fails exactly when a call to the outside it made failed. Otherwise it
      returns the answer of its first request if that is no challenge, and of its second, sent
      after a clearing, if it is; and the session's cookies have absorbed what came with it. */
  lemma FetchAnswers(w: World, g: Setup, s: Session)
    ensures var (t, fetched) := Fetch(w, g, s);
            && (fetched.Failed? <==> OutsideFailed(w, s, t))
            && (fetched.Answered? ==>
                  && Got(w, g, s, t, fetched.answer) && w.requests(s.requests).Some?
                  && if w.requests(s.requests).value.challenge
                     then t.requests == s.requests + 2 && t.clears > s.clears
                     else t.requests == s.requests + 1)
  {
    PrepareFailsIff(w, g, s);
    var (a, ready) := Prepare(w, g, s);
    if ready {
      HttpFetchFailsIff(w, g, a);
      var (b, response) := HttpFetch(w, g, a);
      FailuresAdd(w, s, a, b);
      if response.Some? && response.value.challenge {
        RetryAnswers(w, g, b, response.value);
        RetryKeeps(w, g, b, response.value);
        FailuresAdd(w, s, b, Retry(w, g, b, response.value).0);
      }
    }
  }

  // -- over every run ------------------------------------------------------------------------

  datatype Call = Fetching(w: World) | Restoring(identity: Identity) | Escalating(w: World) | Demoting

  function Carry(g: Setup, s: Session, call: Call): Session {
    match call
    case Fetching(w) => Fetch(w, g, s).0
    case Restoring(i) => RestoreIdentity(g, s, i).0
    case Escalating(w) => EscalateFor(w, s).0
    case Demoting => DemoteFor(s)
  }

  function CarryAll(g: Setup, s: Session, calls: seq<Call>): Session {
    if calls == [] then s else Carry(g, CarryAll(g, s, calls[..|calls| - 1]), calls[|calls| - 1])
  }

  /** The session invariant, over every run of its own operations; and the identity never names
      its egress but redacted. */
  lemma {:induction false} RunKeepsCoherent(g: Setup, profile: Profile, calls: seq<Call>)
    ensures var s := CarryAll(g, Build(g, profile), calls);
            && Coherent(g, s)
            && s.identity.egress == match g.upstream case None => None case Some(url) => Some(g.redact(url))
  {
    if calls != [] {
      RunKeepsCoherent(g, profile, calls[..|calls| - 1]);
      var s := CarryAll(g, Build(g, profile), calls[..|calls| - 1]);
      if calls[|calls| - 1].Fetching? {
        FetchKeeps(calls[|calls| - 1].w, g, s);
      }
    }
  }

  /** Restoring is refused exactly for an identity of another egress, and then changes nothing. */
  lemma RestoreIffBound(g: Setup, s: Session, i: Identity)
    requires Coherent(g, s)
    ensures RestoreIdentity(g, s, i).1 <==> i.egress == s.identity.egress
    ensures !RestoreIdentity(g, s, i).1 ==> RestoreIdentity(g, s, i).0 == s
    ensures RestoreIdentity(g, s, i).1 ==>
              var t := RestoreIdentity(g, s, i).0; t.identity == i && t.browser.None? && t.http.None?
  {
  }

  /** After a fetch left the session on HTTP by demotion, a later first decision within the
      clearance's margin launches nothing: with unchanged cookies the session just sends. */
  lemma NoLaunchAfterDemotion(w: World, g: Setup, s: Session, demotedAt: nat, end: nat)
    requires s.browser.None? && demotedAt <= w.clock(s.decisions)
    requires Decide(g.policy, SessionMode.Browser, s.identity.cookies, false, demotedAt).Demote?
    requires Clearance(s.identity.cookies, demotedAt).Some?
    requires Clearance(s.identity.cookies, demotedAt).value.expires == Some(end)
    requires w.clock(s.decisions) < end
    requires g.policy.margin < (end - w.clock(s.decisions)) * 1_000_000_000
    ensures Prepare(w, g, s) == (s.(decisions := s.decisions + 1), true)
  {
    HttpStaysAfterDemotion(g.policy, s.identity.cookies, demotedAt, w.clock(s.decisions));
  }
}

module Session {
  import opened Wrappers
  import opened Cookies
  import opened CookieJar
  import opened SessionPolicy
  import opened Model = SessionModel

  class StealthSession {
    const setup: Setup
    var identity: Identity
    var browser: Option<BrowserLeg>
    var http: Option<Profile>
    var launches: nat
    var clears: nat
    var builds: nat
    var requests: nat
    var decisions: nat

    ghost function View(): Model.Session
      reads this
    {
      Model.Session(identity, browser, http, launches, clears, builds, requests, decisions)
    }

    constructor (setup: Setup, profile: Profile)
      ensures this.setup == setup && View() == Build(setup, profile) && Coherent(setup, View())
    {
      this.setup := setup;
      identity := Identity(profile, [], EgressOf(setup));
      browser, http := None, None;
      launches, clears, builds, requests, decisions := 0, 0, 0, 0, 0;
    }

    method Restore(i: Identity) returns (ok: bool)
      modifies this
      ensures (View(), ok) == RestoreIdentity(setup, old(View()), i)
    {
      if !IsBoundTo(i, setup) {
        return false;
      }
      identity := i;
      http := None;
      browser := None;
      ok := true;
    }

    method Escalate(w: World) returns (ok: bool)
      modifies this
      ensures (View(), ok) == EscalateFor(w, old(View()))
    {
      if browser.Some? {
        return true;
      }
      var launch := w.launches(launches);
      launches := launches + 1;
      if !launch.Launched? {
        return false;
      }
      browser := Some(BrowserLeg(identity.profile, identity.cookies));
      ok := true;
    }

    method Demote()
      modifies this
      ensures View() == DemoteFor(old(View()))
    {
      browser := None;
    }

    method DecideAndApply(w: World, challenged: bool) returns (ok: bool)
      modifies this
      ensures (View(), ok) == Reconsider(w, setup, old(View()), challenged)
    {
      var mode := if browser.Some? then SessionMode.Browser else Http;
      var transition := Decide(setup.policy, mode, identity.cookies, challenged, w.clock(decisions));
      decisions := decisions + 1;
      assert View() == old(View()).(decisions := decisions);
      match transition {
        case Stay => ok := true;
        case Escalate(_) => ok := Escalate(w);
        case Demote(_) =>
          Demote();
          ok := true;
      }
    }

    method ClearOnPage(w: World) returns (ok: bool)
      modifies this
      ensures (View(), ok) == ClearWithBrowser(w, old(View()))
    {
      var clear := w.clears(clears);
      clears := clears + 1;
      if clear.NotCleared? {
        return false;
      }
      identity := identity.(cookies := SetCookies(clear.cookies, clear.now));
      ok := true;
    }

    method ClearThenDecide(w: World) returns (ok: bool)
      modifies this
      ensures (View(), ok) == ClearAndReconsider(w, setup, old(View()))
    {
      ok := ClearOnPage(w);
      if ok {
        ok := DecideAndApply(w, false);
      }
    }

    method Send(w: World) returns (answer: Option<Answer>)
      modifies this
      ensures (View(), answer) == HttpFetch(w, setup, old(View()))
    {
      if http.None? {
        builds := builds + 1;
        if !w.clients(builds - 1) {
          return None;
        }
        http := Some(identity.profile);
      }
      answer := w.requests(requests);
      requests := requests + 1;
      if answer.Some? {
        identity := identity.(cookies := Absorb(setup.names, identity.cookies, answer.value.batch));
      }
    }

    method PrepareToSend(w: World) returns (ok: bool)
      modifies this
      ensures (View(), ok) == Prepare(w, setup, old(View()))
    {
      ok := DecideAndApply(w, false);
      if ok && browser.Some? {
        ok := ClearThenDecide(w);
      }
    }

    method Fetch(w: World) returns (fetched: Fetched)
      requires Coherent(setup, View())
      modifies this
      ensures (View(), fetched) == Model.Fetch(w, setup, old(View()))
      ensures Coherent(setup, View()) && !fetched.Declined?
    {
      FetchKeeps(w, setup, View());
      var ready := PrepareToSend(w);
      if !ready {
        return Failed;
      }
      var response := Send(w);
      if response.None? {
        return Failed;
      }
      if !response.value.challenge {
        return Answered(response.value);
      }
      fetched := RetryOnce(w, response.value);
    }

    method RetryOnce(w: World, response: Answer) returns (fetched: Fetched)
      modifies this
      ensures (View(), fetched) == Retry(w, setup, old(View()), response)
    {
      var applied := DecideAndApply(w, true);
      if !applied {
        return Failed;
      }
      if browser.None? {
        return Declined(response);
      }
      var cleared := ClearThenDecide(w);
      if !cleared {
        return Failed;
      }
      var retried := Send(w);
      fetched := match retried case None => Failed case Some(answer) => Answered(answer);
    }
  }
}
