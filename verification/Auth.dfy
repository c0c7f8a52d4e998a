/**
 The authentication negotiation of the WebDAV client. Its redo loop has no bound of its own, and the negotiator
 of the running request is the same object as the default that later requests start from.
 */
module Auth {
  import opened Wrappers

  /** negoAuth: the authenticators still to be tried, and whether the callback to the authorizer is still set. */
  class NegoAuth {
    var auths: seq<nat>
    var linked: bool

    constructor (auths: seq<nat>, linked: bool)
      ensures this.auths == auths && this.linked == linked
    {
      this.auths, this.linked := auths, linked;
    }
  }

  /** Concrete stands for an authenticator that, like BasicAuth, answers only success or a plain error. */
  datatype Authenticator = NullAuth | NoAuth | Concrete(factory: nat) | Negotiating(nego: NegoAuth)

  function Objects(a: Authenticator): set<NegoAuth> {
    if a.Negotiating? then {a.nego} else {}
  }

  /** headers are the values of Www-Authenticate; accepts tells whose credentials the server took. */
  datatype Response = Response(headers: seq<string>, accepts: set<nat>)

  datatype AuthError = NoAuthenticator | Refused | CannotRewind

  /** Crash: the accepted authenticator is announced through a callback that has been cleared. */
  datatype Verdict = Redo | Done | Fail(error: AuthError) | Crash

  /** Whether a factory's key occurs in a header and it then manages to create its authenticator. */
  datatype Rules = Rules(factories: nat, creates: (nat, string) -> bool)

  // The specification: what an authenticator is worth, and what one response does to it and to the default.

  datatype Stage = Start | Open | Known(factory: nat) | Choosing(auths: seq<nat>, linked: bool)

  /** shared: the running request negotiates with the very object that is the default. */
  datatype State = State(auth: Stage, def: Stage, shared: bool)

  function StageOf(a: Authenticator): Stage
    reads Objects(a)
  {
    match a
    case NullAuth => Start
    case NoAuth => Open
    case Concrete(f) => Known(f)
    case Negotiating(n) => Choosing(n.auths, n.linked)
  }

  /** The authenticators that factory collects: each factory contributes at most one, in registration order. */
  function Candidates(rules: Rules, headers: seq<string>, n: nat): (auths: seq<nat>)
    ensures |auths| <= n
  {
    if n == 0 then []
    else Candidates(rules, headers, n - 1)
         + (if exists h :: h in headers && rules.creates(n - 1, h) then [n - 1] else [])
  }

  /** One of the challenges makes factory f create its authenticator. */
  predicate Offered(rules: Rules, headers: seq<string>, f: nat) {
    exists h :: h in headers && rules.creates(f, h)
  }

  /** A factory is collected exactly when it creates an authenticator for one of the headers, and in the order of
      registration. */
  lemma {:induction false} CandidatesAre(rules: Rules, headers: seq<string>, n: nat)
    ensures var auths := Candidates(rules, headers, n);
            && (forall f: nat :: f in auths <==> f < n && Offered(rules, headers, f))
            && forall a, b :: 0 <= a < b < |auths| ==> auths[a] < auths[b]
  {
    if n > 0 {
      CandidatesAre(rules, headers, n - 1);
      var before, auths := Candidates(rules, headers, n - 1), Candidates(rules, headers, n);
      assert auths == if Offered(rules, headers, n - 1) then before + [n - 1] else before;
      forall f: nat
        ensures f in auths <==> f in before || (Offered(rules, headers, n - 1) && f == n - 1)
      {
      }
      forall a | 0 <= a < |before|
        ensures before[a] < n - 1
      {
        assert before[a] in before;
      }
    }
  }

  function Chosen(rules: Rules, rs: Response): Option<Stage> {
    if rs.headers == [] then Some(Open)
    else
      var auths := Candidates(rules, rs.headers, rules.factories);
      match |auths|
      case 0 => None
      case 1 => Some(Known(auths[0]))
      case _ => Some(Choosing(auths, true))
  }

  /** Header.Get: the first value, or "" without one. */
  function FirstHeader(rs: Response): string {
    if rs.headers == [] then "" else rs.headers[0]
  }

  function Renew(rules: Rules, s: State, rs: Response): (State, Verdict) {
    match Chosen(rules, rs)
    case None => (s, Fail(NoAuthenticator))
    case Some(stage) => (State(stage, stage, stage.Choosing?), Redo)
  }

  function Step(rules: Rules, s: State, rs: Response): (State, Verdict) {
    match s.auth
    case Start => Renew(rules, s, rs)
    case Open => if FirstHeader(rs) != "" then Renew(rules, s, rs) else (s, Done)
    case Known(f) => (s, if f in rs.accepts then Done else Fail(Refused))
    case Choosing(auths, linked) =>
      if auths == [] then (s, Fail(NoAuthenticator))
      else
        var popped := Choosing(auths[1..], linked);
        var after := State(popped, if s.shared then popped else s.def, s.shared);
        if auths[0] !in rs.accepts then
          if |auths| > 1 then (after, Redo) else (s, Fail(NoAuthenticator))
        else if linked then (State(Choosing(auths[1..], !s.shared), Known(auths[0]), false), Done)
        else (after, Crash)
  }

  /** Closing the request clears the callback of its negotiator. */
  function Closed(s: State): State {
    if s.auth.Choosing? then
      var cleared := s.auth.(linked := false);
      State(cleared, if s.shared then cleared else s.def, s.shared)
    else s
  }

  /** How many requests an authenticator can still cause. */
  function Fuel(rules: Rules, auth: Stage): nat {
    match auth
    case Start => 2 + rules.factories
    case Open => 1 + rules.factories
    case Known(_) => 1
    case Choosing(auths, _) => Max(|auths|, 1)
  }

  /** Every redo uses up fuel. */
  lemma RedoUsesFuel(rules: Rules, s: State, rs: Response)
    requires Step(rules, s, rs).1 == Redo
    ensures Fuel(rules, Step(rules, s, rs).0.auth) < Fuel(rules, s.auth)
  {
    assert |Candidates(rules, rs.headers, rules.factories)| <= rules.factories;
  }

  datatype Result = Result(requests: nat, verdict: Verdict, state: State)

  /** One request from response i on: how many round trips it takes and how it ends. server answers the i-th
      round trip; rewinds says whether the body can be sent again after it. It never can for put, which clears
      GetBody; for the others GetBody itself may fail. */
  function Negotiation(rules: Rules, s: State, server: nat -> Response, rewinds: nat -> bool, i: nat): Result
    decreases Fuel(rules, s.auth)
  {
    var (next, verdict) := Step(rules, s, server(i));
    if verdict != Redo then Result(1, verdict, Closed(next))
    else if !rewinds(i) then Result(1, Fail(CannotRewind), Closed(next))
    else
      RedoUsesFuel(rules, s, server(i));
      var rest := Negotiation(rules, next, server, rewinds, i + 1);
      rest.(requests := 1 + rest.requests)
  }

  lemma {:induction false} NegotiationBound(rules: Rules, s: State, server: nat -> Response, rewinds: nat -> bool,
                                            i: nat)
    ensures Negotiation(rules, s, server, rewinds, i).requests <= Fuel(rules, s.auth)
    ensures Negotiation(rules, s, server, rewinds, i).verdict != Redo
    decreases Fuel(rules, s.auth)
  {
    var (next, verdict) := Step(rules, s, server(i));
    if verdict == Redo && rewinds(i) {
      RedoUsesFuel(rules, s, server(i));
      NegotiationBound(rules, next, server, rewinds, i + 1);
    }
  }

  // The bound is sharp: a server that first asks for nothing and then refuses everybody attains it.

  function Eager(n: nat): Rules {
    Rules(n, (f: nat, h: string) => true)
  }

  const REFUSING: nat -> Response := i => if i == 0 then Response([], {}) else Response(["Basic"], {})

  lemma {:induction false} EverybodyIsCandidate(rules: Rules, n: nat)
    requires forall f, h :: rules.creates(f, h)
    ensures |Candidates(rules, ["Basic"], n)| == n
  {
    if n > 0 {
      EverybodyIsCandidate(rules, n - 1);
      assert "Basic" in ["Basic"] && rules.creates(n - 1, "Basic");
    }
  }

  lemma {:induction false} EverybodyRefused(rules: Rules, s: State, i: nat)
    requires s.auth.Choosing? && s.auth.auths != [] && i > 0
    ensures Negotiation(rules, s, REFUSING, j => true, i).requests == |s.auth.auths|
    decreases |s.auth.auths|
  {
    if |s.auth.auths| > 1 {
      EverybodyRefused(rules, Step(rules, s, REFUSING(i)).0, i + 1);
    }
  }

  lemma BoundIsSharp(n: nat)
    ensures Negotiation(Eager(n), FromDefault(Start), REFUSING, j => true, 0).requests == 2 + n
  {
    var rules := Eager(n);
    EverybodyIsCandidate(rules, n);
    var s := Step(rules, FromDefault(Start), REFUSING(0)).0;
    var t := Step(rules, s, REFUSING(1)).0;
    if n > 1 {
      EverybodyRefused(rules, t, 2);
    }
  }

  // Between requests.

  /** A default left behind by a negotiation that did not succeed: its callback is gone. */
  predicate Stuck(def: Stage) {
    def.Choosing? && def.auths != [] && !def.linked
  }

  /** What the default can be when no request is running. */
  predicate Settled(def: Stage) {
    def.Choosing? ==> Stuck(def)
  }

  /** What holds while a request runs that started from a usable default. */
  predicate Healthy(s: State) {
    && (s.shared <==> s.auth.Choosing?)
    && (if s.shared then s.def == s.auth && s.auth.auths != [] && s.auth.linked else !s.def.Choosing?)
  }

  function FromDefault(def: Stage): State {
    State(def, def, false)
  }

  /** A request that began with a usable default never crashes, and leaves a default of the known kinds. */
  lemma {:induction false} NeverCrashes(rules: Rules, s: State, server: nat -> Response, rewinds: nat -> bool, i: nat)
    requires Healthy(s)
    ensures var r := Negotiation(rules, s, server, rewinds, i);
            r.verdict != Crash && Settled(r.state.def)
    decreases Fuel(rules, s.auth)
  {
    var (next, verdict) := Step(rules, s, server(i));
    if verdict == Redo && rewinds(i) {
      RedoUsesFuel(rules, s, server(i));
      NeverCrashes(rules, next, server, rewinds, i + 1);
    }
  }

  /** Some authenticator of the list, tried in turn, is accepted before the body can no longer be sent again. */
  predicate Accepted(auths: seq<nat>, server: nat -> Response, rewinds: nat -> bool, i: nat) {
    auths != [] && (auths[0] in server(i).accepts || (rewinds(i) && Accepted(auths[1..], server, rewinds, i + 1)))
  }

  /** The round trip after which the factory picks for the last time, if it picks at all: the first one, or the
      second when the first got no challenge. */
  function LastPick(rules: Rules, auth: Stage, server: nat -> Response, rewinds: nat -> bool, i: nat): Option<nat> {
    match auth
    case Start =>
      if server(i).headers != [] then Some(i)
      else if rewinds(i) && FirstHeader(server(i + 1)) != "" then Some(i + 1)
      else None
    case Open => if FirstHeader(server(i)) != "" then Some(i) else None
    case _ => None
  }

  /** The factory picks several authenticators and then none of them gets accepted. */
  predicate NobodyAccepted(rules: Rules, auth: Stage, server: nat -> Response, rewinds: nat -> bool, i: nat) {
    match LastPick(rules, auth, server, rewinds, i)
    case None => false
    case Some(k) =>
      match Chosen(rules, server(k)) {
        case Some(Choosing(auths, _)) => !rewinds(k) || !Accepted(auths, server, rewinds, k + 1)
        case _ => false
      }
  }

  lemma {:induction false} ChoosingSticks(rules: Rules, s: State, server: nat -> Response, rewinds: nat -> bool, i: nat)
    requires Healthy(s) && s.auth.Choosing?
    ensures Stuck(Negotiation(rules, s, server, rewinds, i).state.def) <==> !Accepted(s.auth.auths, server, rewinds, i)
    decreases Fuel(rules, s.auth)
  {
    var (next, verdict) := Step(rules, s, server(i));
    if verdict == Redo && rewinds(i) {
      RedoUsesFuel(rules, s, server(i));
      ChoosingSticks(rules, next, server, rewinds, i + 1);
    }
  }

  lemma PickSticks(rules: Rules, s: State, server: nat -> Response, rewinds: nat -> bool, i: nat)
    requires Healthy(s) && (s.auth.Start? || s.auth.Open?) && LastPick(rules, s.auth, server, rewinds, i) == Some(i)
    ensures Stuck(Negotiation(rules, s, server, rewinds, i).state.def)
       <==> NobodyAccepted(rules, s.auth, server, rewinds, i)
  {
    var (next, verdict) := Step(rules, s, server(i));
    if verdict == Redo && rewinds(i) {
      RedoUsesFuel(rules, s, server(i));
      if next.auth.Choosing? {
        ChoosingSticks(rules, next, server, rewinds, i + 1);
      } else {
        assert next.auth.Known?;
      }
    }
  }

  /** From a usable default, the default is left stuck exactly when the server's answers make the factory pick several
      authenticators of which none, tried in turn while the body can be sent again, is accepted. */
  lemma SticksExactly(rules: Rules, def: Stage, server: nat -> Response, rewinds: nat -> bool)
    requires !def.Choosing?
    ensures var r := Negotiation(rules, FromDefault(def), server, rewinds, 0);
            && r.verdict != Crash && Settled(r.state.def)
            && (Stuck(r.state.def) <==> NobodyAccepted(rules, def, server, rewinds, 0))
  {
    var s := FromDefault(def);
    NeverCrashes(rules, s, server, rewinds, 0);
    var (next, verdict) := Step(rules, s, server(0));
    if LastPick(rules, def, server, rewinds, 0) == Some(0) {
      PickSticks(rules, s, server, rewinds, 0);
    } else if verdict == Redo && rewinds(0) {
      RedoUsesFuel(rules, s, server(0));
      if LastPick(rules, next.auth, server, rewinds, 1) == Some(1) {
        PickSticks(rules, next, server, rewinds, 1);
      }
    }
  }

  /** It happens: two authenticators are offered and both are refused. From then on every request fails, and the first
      one whose credentials the server takes crashes. */
  lemma TwoRefused(server: nat -> Response)
    requires server(0).accepts == {1}
    ensures var r := Negotiation(Eager(2), FromDefault(Start), REFUSING, j => true, 0);
            && Stuck(r.state.def)
            && Negotiation(Eager(2), FromDefault(r.state.def), server, j => true, 0).verdict == Crash
  {
    var r := Negotiation(Eager(2), FromDefault(Start), REFUSING, j => true, 0);
    TwoCandidates();
    var choosing := State(Choosing([0, 1], true), Choosing([0, 1], true), true);
    var last := State(Choosing([1], true), Choosing([1], true), true);
    assert Step(Eager(2), FromDefault(Start), REFUSING(0)) == (State(Open, Open, false), Redo);
    assert Step(Eager(2), State(Open, Open, false), REFUSING(1)) == (choosing, Redo);
    assert Step(Eager(2), choosing, REFUSING(2)) == (last, Redo);
    assert Step(Eager(2), last, REFUSING(3)) == (last, Fail(NoAuthenticator));
    assert r.state.def == Choosing([1], false);
  }

  lemma TwoCandidates()
    ensures Candidates(Eager(2), ["Basic"], 2) == [0, 1]
  {
    assert "Basic" in ["Basic"] && Eager(2).creates(0, "Basic") && Eager(2).creates(1, "Basic");
    assert Candidates(Eager(2), ["Basic"], 0) == [];
    assert Candidates(Eager(2), ["Basic"], 1) == [0];
  }

  /** A stuck default never recovers: no request from it succeeds or replaces it, and one that the server accepts
      crashes. */
  lemma {:induction false} StuckForever(rules: Rules, s: State, server: nat -> Response, rewinds: nat -> bool, i: nat)
    requires Stuck(s.auth) && !s.shared
    ensures var r := Negotiation(rules, s, server, rewinds, i);
            && r.state.def == s.def && r.verdict != Done
            && (r.verdict == Crash <==> Accepted(s.auth.auths, server, rewinds, i))
    decreases Fuel(rules, s.auth)
  {
    var auths := s.auth.auths;
    var (next, verdict) := Step(rules, s, server(i));
    if verdict == Redo && rewinds(i) {
      RedoUsesFuel(rules, s, server(i));
      StuckForever(rules, next, server, rewinds, i + 1);
    }
  }

  // The reference: who answers for which round trip, and when that ends the request. It is given in closed form,
  // without stepping through the negotiation.

  /** Who answers for round trip j of a request that starts with auth at round trip i. */
  function InUse(rules: Rules, auth: Stage, server: nat -> Response, i: nat, j: nat): Stage
    requires i <= j
  {
    match auth
    case Known(_) => auth
    case Choosing(auths, linked) => Choosing(Remaining(auths, j - i), linked)
    case Open => if j == i then Open else Picked(rules, server(i), j - i - 1)
    case Start =>
      if j == i then Start
      else if server(i).headers != [] then Picked(rules, server(i), j - i - 1)
      else if j == i + 1 then Open
      else Picked(rules, server(i + 1), j - i - 2)
  }

  function Remaining(auths: seq<nat>, n: nat): seq<nat> {
    if n < |auths| then auths[n..] else []
  }

  /** The only candidate, or the candidates in turn: the ones left when n have been refused. */
  function Picked(rules: Rules, rs: Response, n: nat): Stage {
    var auths := Candidates(rules, rs.headers, rules.factories);
    if |auths| == 1 then Known(auths[0]) else Choosing(Remaining(auths, n), true)
  }

  /** How a request ends with the answer rs, or None when another round trip follows. */
  function Ending(rules: Rules, auth: Stage, rs: Response, rewinds: bool): Option<Verdict> {
    if auth.Open? && (rs.headers == [] || rs.headers[0] == "") then Some(Done)
    else if auth.Known? then Some(if auth.factory in rs.accepts then Done else Fail(Refused))
    else if auth.Choosing? && auth.auths != [] && auth.auths[0] in rs.accepts then
      Some(if auth.linked then Done else Crash)
    else if auth.Choosing? && |auth.auths| <= 1 then Some(Fail(NoAuthenticator))
    else if !auth.Choosing? && rs.headers != [] && Candidates(rules, rs.headers, rules.factories) == [] then
      Some(Fail(NoAuthenticator))
    else if !rewinds then Some(Fail(CannotRewind))
    else None
  }

  /** The default once a request has ended, when last has answered for it and following was to answer next: the
      authenticator accepted in turn, or else who was in use, with the callback cleared. When only the rewinding failed,
      that is who was to answer next. */
  function DefaultAfter(last: Stage, following: Stage, verdict: Verdict): Stage {
    if verdict == Fail(CannotRewind) then Settles(following, false) else Settles(last, verdict == Done)
  }

  function Settles(last: Stage, accepted: bool): Stage {
    if !last.Choosing? then last
    else if accepted && last.auths != [] then Known(last.auths[0])
    else Choosing(last.auths, false)
  }

  /** The running request and the default are the same stage, and the same object when they negotiate. */
  predicate InSync(s: State) {
    s.def == s.auth && (s.shared <==> s.auth.Choosing?) && (s.auth.Choosing? ==> s.auth.auths != [] && s.auth.linked)
  }

  /** r is what the reference says of a request from auth and def on: each round trip but the last goes on, and the last
      one ends it. */
  ghost predicate EndsAsTold(rules: Rules, auth: Stage, server: nat -> Response, rewinds: nat -> bool, i: nat,
                             r: Result)
  {
    && r.requests > 0
    && (forall j :: i <= j < i + r.requests - 1 ==>
          Ending(rules, InUse(rules, auth, server, i, j), server(j), rewinds(j)) == None)
    && var j := i + r.requests - 1;
       Ending(rules, InUse(rules, auth, server, i, j), server(j), rewinds(j)) == Some(r.verdict)
  }

  /** Ending says how one step of the negotiation ends. */
  lemma EndingOfStep(rules: Rules, s: State, rs: Response, rewinds: bool)
    ensures var v := Step(rules, s, rs).1;
            Ending(rules, s.auth, rs, rewinds)
            == if v != Redo then Some(v) else if rewinds then None else Some(Fail(CannotRewind))
  {
  }

  /** After a step that goes on, who answers is who the next state says. */
  lemma InUseNext(rules: Rules, s: State, server: nat -> Response, i: nat, j: nat)
    requires Step(rules, s, server(i)).1 == Redo && i < j
    ensures InUse(rules, s.auth, server, i, j) == InUse(rules, Step(rules, s, server(i)).0.auth, server, i + 1, j)
  {
    if s.auth.Choosing? {
      assert Remaining(s.auth.auths, j - i) == Remaining(s.auth.auths[1..], j - i - 1);
    }
  }

  /** From round trip i on, auth has the same authenticators in use as next has from the one after it. */
  ghost predicate Follows(rules: Rules, auth: Stage, next: Stage, server: nat -> Response, i: nat) {
    forall j {:trigger InUse(rules, auth, server, i, j)} :: i < j ==>
      InUse(rules, auth, server, i, j) == InUse(rules, next, server, i + 1, j)
  }

  lemma StepFollows(rules: Rules, s: State, server: nat -> Response, i: nat)
    requires Step(rules, s, server(i)).1 == Redo
    ensures Follows(rules, s.auth, Step(rules, s, server(i)).0.auth, server, i)
  {
    forall j | i < j
      ensures InUse(rules, s.auth, server, i, j) == InUse(rules, Step(rules, s, server(i)).0.auth, server, i + 1, j)
    {
      InUseNext(rules, s, server, i, j);
    }
  }

  lemma OneMoreTrip(rules: Rules, auth: Stage, next: Stage, server: nat -> Response, rewinds: nat -> bool, i: nat,
                    rest: Result)
    requires Follows(rules, auth, next, server, i) && EndsAsTold(rules, next, server, rewinds, i + 1, rest)
    requires Ending(rules, InUse(rules, auth, server, i, i), server(i), rewinds(i)) == None
    ensures EndsAsTold(rules, auth, server, rewinds, i, rest.(requests := 1 + rest.requests))
  {
  }

  lemma AtOnce(rules: Rules, auth: Stage, server: nat -> Response, i: nat)
    ensures InUse(rules, auth, server, i, i) == auth
  {
  }

  /** Number of round trips and verdict of every request. */
  lemma {:induction false} RequestEnds(rules: Rules, s: State, server: nat -> Response, rewinds: nat -> bool, i: nat)
    ensures EndsAsTold(rules, s.auth, server, rewinds, i, Negotiation(rules, s, server, rewinds, i))
    decreases Fuel(rules, s.auth)
  {
    var (next, verdict) := Step(rules, s, server(i));
    if verdict == Redo && rewinds(i) {
      RedoUsesFuel(rules, s, server(i));
      RequestEnds(rules, next, server, rewinds, i + 1);
      OneTripOn(rules, s, server, rewinds, i, Negotiation(rules, next, server, rewinds, i + 1));
    } else {
      EndsAtOnce(rules, s, server, rewinds, i);
    }
  }

  lemma OneTripOn(rules: Rules, s: State, server: nat -> Response, rewinds: nat -> bool, i: nat, rest: Result)
    requires Step(rules, s, server(i)).1 == Redo && rewinds(i)
    requires EndsAsTold(rules, Step(rules, s, server(i)).0.auth, server, rewinds, i + 1, rest)
    ensures EndsAsTold(rules, s.auth, server, rewinds, i, rest.(requests := 1 + rest.requests))
  {
    StepFollows(rules, s, server, i);
    EndingOfStep(rules, s, server(i), rewinds(i));
    AtOnce(rules, s.auth, server, i);
    OneMoreTrip(rules, s.auth, Step(rules, s, server(i)).0.auth, server, rewinds, i, rest);
  }

  lemma EndsAtOnce(rules: Rules, s: State, server: nat -> Response, rewinds: nat -> bool, i: nat)
    requires Step(rules, s, server(i)).1 != Redo || !rewinds(i)
    ensures EndsAsTold(rules, s.auth, server, rewinds, i, Negotiation(rules, s, server, rewinds, i))
  {
    EndingOfStep(rules, s, server(i), rewinds(i));
    AtOnce(rules, s.auth, server, i);
  }

  ghost predicate LeavesAsTold(rules: Rules, auth: Stage, server: nat -> Response, i: nat, r: Result) {
    r.requests > 0 &&
    var j := i + r.requests;
    r.state.def == DefaultAfter(InUse(rules, auth, server, i, j - 1), InUse(rules, auth, server, i, j), r.verdict)
  }

  /** A request that ends with its first answer. */
  lemma LeftAtOnce(rules: Rules, s: State, server: nat -> Response, i: nat)
    requires InSync(s)
    ensures var (next, verdict) := Step(rules, s, server(i));
            LeavesAsTold(rules, s.auth, server, i,
                         Result(1, if verdict == Redo then Fail(CannotRewind) else verdict, Closed(next)))
  {
    var (next, verdict) := Step(rules, s, server(i));
    if verdict == Redo {
      StaysInSync(rules, s, server(i));
      InUseNext(rules, s, server, i, i + 1);
      AtOnce(rules, next.auth, server, i + 1);
      ClosedInSync(next);
    } else {
      AtOnce(rules, s.auth, server, i);
      EndsSettled(rules, s, server(i));
    }
  }

  lemma LeftLater(rules: Rules, s: State, server: nat -> Response, i: nat, rest: Result)
    requires Step(rules, s, server(i)).1 == Redo
    requires LeavesAsTold(rules, Step(rules, s, server(i)).0.auth, server, i + 1, rest)
    ensures LeavesAsTold(rules, s.auth, server, i, rest.(requests := 1 + rest.requests))
  {
    InUseNext(rules, s, server, i, i + rest.requests);
    InUseNext(rules, s, server, i, i + rest.requests + 1);
  }

  lemma {:induction false} DefaultLeft(rules: Rules, s: State, server: nat -> Response, rewinds: nat -> bool, i: nat)
    requires InSync(s)
    ensures LeavesAsTold(rules, s.auth, server, i, Negotiation(rules, s, server, rewinds, i))
    decreases Fuel(rules, s.auth)
  {
    var (next, verdict) := Step(rules, s, server(i));
    if verdict == Redo && rewinds(i) {
      RedoUsesFuel(rules, s, server(i));
      StaysInSync(rules, s, server(i));
      DefaultLeft(rules, next, server, rewinds, i + 1);
      LeftLater(rules, s, server, i, Negotiation(rules, next, server, rewinds, i + 1));
    } else {
      LeftAtOnce(rules, s, server, i);
    }
  }

  lemma ClosedInSync(s: State)
    requires InSync(s)
    ensures Closed(s).def == Settles(s.auth, false)
  {
  }

  lemma EndsSettled(rules: Rules, s: State, rs: Response)
    requires InSync(s) && Step(rules, s, rs).1 != Redo
    ensures var (next, verdict) := Step(rules, s, rs);
            Closed(next).def == Settles(s.auth, verdict == Done) && verdict != Fail(CannotRewind)
  {
  }

  lemma StaysInSync(rules: Rules, s: State, rs: Response)
    requires InSync(s) && Step(rules, s, rs).1 == Redo
    ensures InSync(Step(rules, s, rs).0)
  {
  }

  /** Every request from a usable default, told by the reference: its round trips, its verdict, and the default it
      leaves. A request from a stuck default leaves it as it is. */
  lemma RequestIs(rules: Rules, def: Stage, server: nat -> Response, rewinds: nat -> bool)
    requires Settled(def)
    ensures var r := Negotiation(rules, FromDefault(def), server, rewinds, 0);
            && EndsAsTold(rules, def, server, rewinds, 0, r)
            && (def.Choosing? ==> r.state.def == def)
            && (!def.Choosing? ==> LeavesAsTold(rules, def, server, 0, r))
  {
    RequestEnds(rules, FromDefault(def), server, rewinds, 0);
    if def.Choosing? {
      StuckForever(rules, FromDefault(def), server, rewinds, 0);
    } else {
      DefaultLeft(rules, FromDefault(def), server, rewinds, 0);
    }
  }

  /** A request succeeds exactly when the last answer comes without a challenge while no authenticator is in use, or
      takes the credentials of the one in use, whose callback is still set if it was tried in turn. */
  lemma DoneExactly(rules: Rules, def: Stage, server: nat -> Response, rewinds: nat -> bool)
    ensures var r := Negotiation(rules, FromDefault(def), server, rewinds, 0);
            r.requests > 0 &&
            var rs := server(r.requests - 1);
            r.verdict == Done <==>
              match InUse(rules, def, server, 0, r.requests - 1)
              case Start => false
              case Open => rs.headers == [] || rs.headers[0] == ""
              case Known(f) => f in rs.accepts
              case Choosing(auths, linked) => auths != [] && auths[0] in rs.accepts && linked
  {
    RequestEnds(rules, FromDefault(def), server, rewinds, 0);
  }

  datatype Call = Call(server: nat -> Response, rewinds: nat -> bool)

  /** The default after a run of requests. */
  function AfterCalls(rules: Rules, def: Stage, calls: seq<Call>): Stage
    decreases |calls|
  {
    if calls == [] then def
    else
      var r := Negotiation(rules, FromDefault(def), calls[0].server, calls[0].rewinds, 0);
      AfterCalls(rules, r.state.def, calls[1..])
  }

  lemma {:induction false} RunsStaySettled(rules: Rules, def: Stage, calls: seq<Call>)
    requires Settled(def)
    ensures Settled(AfterCalls(rules, def, calls))
    ensures Stuck(def) ==> AfterCalls(rules, def, calls) == def
    decreases |calls|
  {
    if calls != [] {
      var Call(server, rewinds) := calls[0];
      if Stuck(def) {
        StuckForever(rules, FromDefault(def), server, rewinds, 0);
      } else {
        SticksExactly(rules, def, server, rewinds);
      }
      RunsStaySettled(rules, Negotiation(rules, FromDefault(def), server, rewinds, 0).state.def, calls[1..]);
    }
  }

  // The objects.

  class Authorizer {
    const rules: Rules
    var defAuth: Authenticator

    constructor (rules: Rules)
      ensures defAuth == NullAuth && this.rules == rules
    {
      this.rules, defAuth := rules, NullAuth;
    }

    method SetDefaultAuthenticator(auth: Authenticator)
      modifies this, Objects(defAuth)
      ensures defAuth == auth
      ensures forall n :: n in Objects(old(defAuth)) ==> !n.linked && n.auths == old(n.auths)
    {
      CloseAuthenticator(defAuth);
      defAuth := auth;
    }

    method Factory(rs: Response) returns (auth: Option<Authenticator>)
      modifies this, Objects(defAuth)
      ensures match Chosen(rules, rs)
              case None => auth == None && defAuth == old(defAuth) && StageOf(defAuth) == old(StageOf(defAuth))
              case Some(stage) => auth == Some(defAuth) && StageOf(defAuth) == stage && fresh(Objects(defAuth))
    {
      var picked: Authenticator;
      if rs.headers == [] {
        picked := NoAuth;
      } else {
        var auths := Collect(rs);
        if |auths| == 0 {
          return None;
        } else if |auths| == 1 {
          picked := Concrete(auths[0]);
        } else {
          var n := new NegoAuth(auths, true);
          picked := Negotiating(n);
        }
      }
      SetDefaultAuthenticator(picked);
      return Some(picked);
    }

    method Collect(rs: Response) returns (auths: seq<nat>)
      ensures auths == Candidates(rules, rs.headers, rules.factories)
    {
      auths := [];
      for f := 0 to rules.factories
        invariant auths == Candidates(rules, rs.headers, f)
      {
        var k := 0;
        while k < |rs.headers| && !rules.creates(f, rs.headers[k])
          invariant 0 <= k <= |rs.headers| && forall j :: 0 <= j < k ==> !rules.creates(f, rs.headers[j])
        {
          k := k + 1;
        }
        assert k < |rs.headers| ==> rs.headers[k] in rs.headers;
        if k < |rs.headers| {
          auths := auths + [f];
        }
      }
    }
  }

  method CloseAuthenticator(auth: Authenticator)
    modifies Objects(auth)
    ensures forall n :: n in Objects(auth) ==> !n.linked && n.auths == old(n.auths)
  {
    if auth.Negotiating? {
      auth.nego.linked := false;
    }
  }

  class AuthShim {
    const az: Authorizer
    var auth: Authenticator

    /** NewAuthenticator: a clone of the default. */
    constructor (az: Authorizer)
      ensures this.az == az && Current() == FromDefault(StageOf(az.defAuth)) && fresh(Objects(auth))
    {
      this.az, this.auth := az, NullAuth;
      new;
      if az.defAuth.Negotiating? {
        var n := new NegoAuth(az.defAuth.nego.auths, az.defAuth.nego.linked);
        auth := Negotiating(n);
      } else {
        auth := az.defAuth;
      }
    }

    function Owned(): set<object>
      reads this, az
    {
      Objects(auth) + Objects(az.defAuth)
    }

    function Current(): State
      reads this, az, Owned()
    {
      State(StageOf(auth), StageOf(az.defAuth), auth.Negotiating? && auth == az.defAuth)
    }

    method Verify(rs: Response) returns (v: Verdict)
      modifies this, az, Owned()
      ensures (Current(), v) == Step(az.rules, old(Current()), rs)
      ensures fresh(Owned() - old(Owned()))
      // A single authenticator's word is final.
      ensures old(auth).Concrete? ==>
        v == (if old(auth).factory in rs.accepts then Done else Fail(Refused)) && Current() == old(Current())
    {
      match auth
      case NullAuth =>
        v := Change(rs);
      case NoAuth =>
        if FirstHeader(rs) == "" {
          return Done;
        }
        v := Change(rs);
      case Concrete(f) =>
        v := if f in rs.accepts then Done else Fail(Refused);
      case Negotiating(n) =>
        if n.auths == [] {
          return Fail(NoAuthenticator);
        }
        var first := n.auths[0];
        if first !in rs.accepts {
          if |n.auths| == 1 {
            return Fail(NoAuthenticator);
          }
          n.auths := n.auths[1..];
          return Redo;
        }
        n.auths := n.auths[1..];
        if !n.linked {
          return Crash;
        }
        az.SetDefaultAuthenticator(Concrete(first));
        v := Done;
    }

    /** The answer to ErrAuthChanged: the factory picks anew. */
    method Change(rs: Response) returns (v: Verdict)
      requires !auth.Negotiating?
      modifies this, az, Owned()
      ensures (Current(), v) == Renew(az.rules, old(Current()), rs)
      ensures fresh(Owned() - old(Owned()))
    {
      var picked := az.Factory(rs);
      if picked.None? {
        return Fail(NoAuthenticator);
      }
      auth := picked.value;
      v := Redo;
    }

    method Close()
      modifies Objects(auth)
      ensures Current() == Closed(old(Current()))
    {
      CloseAuthenticator(auth);
    }

    /** The redo loop of req, up to the deferred Close. */
    method Redoing(server: nat -> Response, rewinds: nat -> bool) returns (requests: nat, verdict: Verdict)
      modifies this, az, Owned()
      ensures Result(requests, verdict, Current()) == Negotiation(az.rules, old(Current()), server, rewinds, 0)
      ensures fresh(Owned() - old(Owned()))
    {
      requests, verdict := 0, Redo;
      ghost var whole := Negotiation(az.rules, Current(), server, rewinds, 0);
      while verdict == Redo
        invariant fresh(Owned() - old(Owned()))
        invariant verdict == Redo ==>
          var rest := Negotiation(az.rules, Current(), server, rewinds, requests);
          whole == rest.(requests := requests + rest.requests)
        invariant verdict != Redo ==> whole == Result(requests, verdict, Closed(Current()))
        decreases verdict == Redo, Fuel(az.rules, Current().auth)
      {
        verdict := RoundTrip(server, rewinds, requests);
        requests := requests + 1;
      }
      Close();
    }

    /** One turn of the loop: an answer that asks for another round trip needs a body that can be sent again. */
    method RoundTrip(server: nat -> Response, rewinds: nat -> bool, i: nat) returns (verdict: Verdict)
      modifies this, az, Owned()
      ensures var whole := Negotiation(az.rules, old(Current()), server, rewinds, i);
              if verdict == Redo then
                var rest := Negotiation(az.rules, Current(), server, rewinds, i + 1);
                whole == rest.(requests := 1 + rest.requests)
              else whole == Result(1, verdict, Closed(Current()))
      ensures verdict == Redo ==> Fuel(az.rules, Current().auth) < Fuel(az.rules, old(Current()).auth)
      ensures fresh(Owned() - old(Owned()))
    {
      ghost var before := Current();
      verdict := Verify(server(i));
      if verdict == Redo {
        RedoUsesFuel(az.rules, before, server(i));
        if !rewinds(i) {
          verdict := Fail(CannotRewind);
        }
      }
    }
  }

  /** req. */
  method Req(az: Authorizer, server: nat -> Response, rewinds: nat -> bool) returns (requests: nat, verdict: Verdict)
    modifies az, Objects(az.defAuth)
    ensures var r := Negotiation(az.rules, FromDefault(old(StageOf(az.defAuth))), server, rewinds, 0);
            requests == r.requests && verdict == r.verdict && StageOf(az.defAuth) == r.state.def
    ensures fresh(Objects(az.defAuth) - old(Objects(az.defAuth)))
    ensures requests <= Fuel(az.rules, old(StageOf(az.defAuth)))
    // How many round trips it takes, how it ends and what it leaves, as the reference tells it.
    ensures requests > 0
    ensures var def := old(StageOf(az.defAuth));
            && (forall j: nat :: j < requests - 1 ==>
                  Ending(az.rules, InUse(az.rules, def, server, 0, j), server(j), rewinds(j)) == None)
            && Ending(az.rules, InUse(az.rules, def, server, 0, requests - 1), server(requests - 1),
                      rewinds(requests - 1)) == Some(verdict)
    ensures var def := old(StageOf(az.defAuth));
            Settled(def) ==>
              StageOf(az.defAuth) == if def.Choosing? then def
                                     else DefaultAfter(InUse(az.rules, def, server, 0, requests - 1),
                                                       InUse(az.rules, def, server, 0, requests), verdict)
  {
    if Settled(StageOf(az.defAuth)) {
      RequestIs(az.rules, StageOf(az.defAuth), server, rewinds);
    }
    var shim := new AuthShim(az);
    NegotiationBound(az.rules, shim.Current(), server, rewinds, 0);
    RequestEnds(az.rules, shim.Current(), server, rewinds, 0);
    requests, verdict := shim.Redoing(server, rewinds);
  }
}
