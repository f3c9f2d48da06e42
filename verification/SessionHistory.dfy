/** Which tokens are accepted, told from the requests and their answers alone. */
module SessionHistory {
  import opened Common
  import opened Sessions
  import opened SessionRefinement
  import opened SessionTheorems

  // ---- What the history of requests says about a token --------------------------------------------

  /** Request `i` gave out a token: a login, or a refresh that was granted. */
  predicate Issues(requests: seq<Request>, answers: seq<Answer>, i: nat) {
    i < |requests| && i < |answers| && (requests[i].Login? || (requests[i].Refresh? && answers[i] == Rotated))
  }

  /** The login that a token descends from. */
  function LoginOf(requests: seq<Request>, token: Token): (login: Option<nat>)
    ensures login.Some? ==> login.value < |requests| && requests[login.value].Login?
    decreases |requests|
  {
    if requests == [] then None
    else
      var last := |requests| - 1;
      match requests[last]
      case Login(_, issued, _) => if issued == token then Some(last) else LoginOf(requests[..last], token)
      case Refresh(presented, issued, _) => LoginOf(requests[..last], if issued == token then presented else token)
      case _ => LoginOf(requests[..last], token)
  }

  predicate SameLogin(requests: seq<Request>, a: Token, b: Token) {
    LoginOf(requests, a).Some? && LoginOf(requests, a) == LoginOf(requests, b)
  }

  predicate SameUser(requests: seq<Request>, a: Token, b: Token) {
    && LoginOf(requests, a).Some? && LoginOf(requests, b).Some?
    && requests[LoginOf(requests, a).value].user == requests[LoginOf(requests, b).value].user
  }

  /** Request `k` exchanges or logs out this token, replays an old token of its login, or logs its
      user out everywhere. */
  predicate Ends(requests: seq<Request>, answers: seq<Answer>, token: Token, k: nat)
    requires k < |requests| && k < |answers|
  {
    match requests[k]
    case Refresh(presented, _, _) =>
      (answers[k] == Rotated && presented == token) || (answers[k] == Replayed && SameLogin(requests[..k], presented, token))
    case Logout(presented, _) => answers[k] == LoggedOut && presented == token
    case LogoutAll(presented, _) => answers[k] == LoggedOut && SameUser(requests[..k], presented, token)
    case _ => false
  }

  /** Before request `n` nothing has ended the token of request `i`. */
  predicate Live(requests: seq<Request>, answers: seq<Answer>, i: nat, n: nat)
    requires n <= |requests| && n <= |answers|
  {
    Issues(requests, answers, i) && i < n && forall k :: i < k < n ==> !Ends(requests, answers, requests[i].issued, k)
  }

  /** Thirty days. */
  predicate InTime(requests: seq<Request>, i: nat, now: int)
    requires i < |requests|
  {
    now < requests[i].now + 2592000
  }

  lemma LoginStays(requests: seq<Request>, n: nat, token: Token)
    requires n < |requests| && token !in IssuedBy(requests[n])
    ensures LoginOf(requests[..n + 1], token) == LoginOf(requests[..n], token)
  {
    assert requests[..n + 1][..n] == requests[..n];
  }

  lemma LoginGrows(requests: seq<Request>, n: nat)
    requires n < |requests|
    ensures requests[n].Login? ==> LoginOf(requests[..n + 1], requests[n].issued) == Some(n)
    ensures requests[n].Refresh? ==> LoginOf(requests[..n + 1], requests[n].issued) == LoginOf(requests[..n], requests[n].token)
  {
    assert requests[..n + 1][..n] == requests[..n];
  }

  // ---- The machine agrees with the history -----------------------------------------------------------

  /** Ghost bookkeeping: the login of each family and the request that issued its newest token. */
  datatype Origin = Origin(login: nat, newest: nat)

  ghost predicate FamilyKnown(requests: seq<Request>, answers: seq<Answer>, n: nat, family: Family, used: set<Token>, o: Origin)
    requires n <= |requests| && n <= |answers|
  {
    && o.login < n && o.newest < n && requests[o.login].Login? && requests[o.login].user == family.user
    && Issues(requests, answers, o.newest) && requests[o.newest].issued in used
    && LoginOf(requests[..n], requests[o.newest].issued) == Some(o.login)
    && (forall t :: t in family.chain ==> LoginOf(requests[..n], t) == Some(o.login))
    && |family.chain| == |family.ends|
    && (family.chain != [] ==> family.chain[|family.chain| - 1] == requests[o.newest].issued
                               && family.ends[|family.ends| - 1] == requests[o.newest].now + 2592000)
    && (family.dead || Live(requests, answers, o.newest, n))
  }

  /** The family still holds the token of request `i`, unless it has ended and was cleaned up. */
  predicate Serves(family: Family, o: Origin, requests: seq<Request>, i: nat, clock: int)
    requires i < |requests|
  {
    o.newest == i && !family.dead && (family.chain == [] ==> !InTime(requests, i, clock))
  }

  ghost predicate Known(requests: seq<Request>, answers: seq<Answer>, n: nat, families: seq<Family>, used: set<Token>,
                        origins: seq<Origin>, clock: int)
    requires n <= |requests| && n <= |answers|
  {
    && |origins| == |families|
    && (forall f :: 0 <= f < |families| ==> FamilyKnown(requests, answers, n, families[f], used, origins[f]))
    && (forall f, g :: 0 <= f < g < |families| ==> origins[f].login != origins[g].login)
    && (forall i: nat :: i < n && Live(requests, answers, i, n) ==>
          exists f :: 0 <= f < |families| && Serves(families[f], origins[f], requests, i, clock))
  }

  /** A token of the history belongs to a family exactly when they descend from the same login. */
  lemma LoginIdentifiesFamily(requests: seq<Request>, answers: seq<Answer>, n: nat, families: seq<Family>, used: set<Token>,
                              origins: seq<Origin>, clock: int, token: Token, f: nat)
    requires n <= |requests| && n <= |answers| && Known(requests, answers, n, families, used, origins, clock)
    requires f < |families| && LoginOf(requests[..n], token) == Some(origins[f].login)
    ensures FindFamily(families, token, 0) == (if token in families[f].chain then Some(f) else None)
  {
    forall g | 0 <= g < |families| && g != f ensures token !in families[g].chain {
      assert FamilyKnown(requests, answers, n, families[g], used, origins[g]);
    }
  }

  // ---- One request ---------------------------------------------------------------------------------

  predicate Rotates(families: seq<Family>, r: Request, f: nat) {
    r.Refresh? && Step(families, r).answer == Rotated && FindFamily(families, r.token, 0) == Some(f)
  }

  lemma {:induction false} AllEnded(ends: seq<int>, now: int)
    requires ends != [] && Ended(ends, now) == |ends|
    ensures ends[|ends| - 1] < now
    decreases |ends|
  {
    if |ends| > 1 {
      AllEnded(ends[1..], now);
    }
  }

  /** What a request leaves of a family whose token it does not exchange. */
  lemma RestOfFamily(families: seq<Family>, used: set<Token>, r: Request, f: nat)
    requires WellFormed(families, used) && f < |families| && !Rotates(families, r, f)
    ensures |families| <= |Step(families, r).state|
    ensures var before, after := families[f], Step(families, r).state[f];
            && after.user == before.user && (before.dead ==> after.dead) && |after.chain| == |after.ends|
            && (forall t :: t in after.chain ==> t in before.chain)
            && (if after.chain == [] then before.chain != [] ==> before.ends[|before.ends| - 1] < r.now
                else before.chain != [] && after.chain[|after.chain| - 1] == before.chain[|before.chain| - 1]
                     && after.ends[|after.ends| - 1] == before.ends[|before.ends| - 1])
  {
    if r.Cleanup? && families[f].chain != [] && Ended(families[f].ends, r.now) == |families[f].ends| {
      AllEnded(families[f].ends, r.now);
    }
  }

  lemma RotatedFamily(families: seq<Family>, used: set<Token>, r: Request, f: nat)
    requires WellFormed(families, used) && f < |families| && Rotates(families, r, f)
    ensures Step(families, r).state == families[f := Extend(families[f], r.issued, r.now)]
    ensures !families[f].dead && families[f].chain != [] && families[f].chain[|families[f].chain| - 1] == r.token
  {
  }

  /** The history ends the token of a live family exactly when the machine exchanges it or kills the
      family. */
  lemma EndsExactly(requests: seq<Request>, answers: seq<Answer>, n: nat, families: seq<Family>, used: set<Token>,
                    origins: seq<Origin>, clock: int, f: nat)
    requires n < |requests| && n < |answers| && Known(requests, answers, n, families, used, origins, clock) && WellFormed(families, used)
    requires f < |families| && !families[f].dead && answers[n] == Step(families, requests[n]).answer
    ensures |families| <= |Step(families, requests[n]).state|
    ensures Ends(requests, answers, requests[origins[f].newest].issued, n)
            <==> Rotates(families, requests[n], f) || Step(families, requests[n]).state[f].dead
  {
    var r, token := requests[n], requests[origins[f].newest].issued;
    assert FamilyKnown(requests, answers, n, families[f], used, origins[f]);
    LoginIdentifiesFamily(requests, answers, n, families, used, origins, clock, token, f);
    if r.Refresh? || r.Logout? || r.LogoutAll? {
      var found := FindFamily(families, r.token, 0);
      if found.Some? {
        var g := found.value;
        assert FamilyKnown(requests, answers, n, families[g], used, origins[g]);
        LoginIdentifiesFamily(requests, answers, n, families, used, origins, clock, r.token, g);
        hide Known, WellFormed, LoginOf, Live;
      }
    }
    hide Known, WellFormed, LoginOf, Live;
  }

  function NextOrigins(families: seq<Family>, r: Request, origins: seq<Origin>, n: nat): seq<Origin>
    requires |origins| == |families|
  {
    match r
    case Login(_, _, _) => origins + [Origin(n, n)]
    case Refresh(token, _, _) =>
      if Step(families, r).answer == Rotated then
        var f := FindFamily(families, token, 0).value; origins[f := origins[f].(newest := n)]
      else origins
    case _ => origins
  }

  lemma LiveOn(requests: seq<Request>, answers: seq<Answer>, i: nat, n: nat)
    requires n < |requests| && n < |answers| && i < n
    ensures Live(requests, answers, i, n + 1) <==> Live(requests, answers, i, n) && !Ends(requests, answers, requests[i].issued, n)
  {
    hide Ends;
  }

  /** A family whose token is not exchanged stays known. */
  lemma QuietFamilyKnown(requests: seq<Request>, answers: seq<Answer>, n: nat, families: seq<Family>, used: set<Token>,
                         origins: seq<Origin>, clock: int, f: nat)
    requires n < |requests| && n < |answers| && Known(requests, answers, n, families, used, origins, clock) && WellFormed(families, used)
    requires f < |families| && answers[n] == Step(families, requests[n]).answer && IssuedBy(requests[n]) !! used
    requires !Rotates(families, requests[n], f)
    ensures |families| <= |Step(families, requests[n]).state|
    ensures FamilyKnown(requests, answers, n + 1, Step(families, requests[n]).state[f], used + IssuedBy(requests[n]), origins[f])
  {
    var o := origins[f];
    assert FamilyKnown(requests, answers, n, families[f], used, o);
    RestOfFamily(families, used, requests[n], f);
    LoginStays(requests, n, requests[o.newest].issued);
    var after := Step(families, requests[n]).state[f];
    forall t | t in after.chain ensures LoginOf(requests[..n + 1], t) == Some(o.login) {
      LoginStays(requests, n, t);
    }
    if !after.dead {
      EndsExactly(requests, answers, n, families, used, origins, clock, f);
      LiveOn(requests, answers, o.newest, n);
    }
    hide Known, Step, Live, Ends, LoginOf, WellFormed;
  }

  lemma RotatedFamilyKnown(requests: seq<Request>, answers: seq<Answer>, n: nat, families: seq<Family>, used: set<Token>,
                           origins: seq<Origin>, clock: int, f: nat)
    requires n < |requests| && n < |answers| && Known(requests, answers, n, families, used, origins, clock) && WellFormed(families, used)
    requires f < |families| && answers[n] == Step(families, requests[n]).answer && IssuedBy(requests[n]) !! used
    requires Rotates(families, requests[n], f)
    ensures |families| <= |Step(families, requests[n]).state|
    ensures FamilyKnown(requests, answers, n + 1, Step(families, requests[n]).state[f], used + IssuedBy(requests[n]), Origin(origins[f].login, n))
  {
    assert FamilyKnown(requests, answers, n, families[f], used, origins[f]);
    RotatedFamily(families, used, requests[n], f);
    LoginGrows(requests, n);
    forall t | t in families[f].chain ensures LoginOf(requests[..n + 1], t) == Some(origins[f].login) {
      LoginStays(requests, n, t);
    }
    hide Known, Step, Ends, LoginOf, WellFormed;
  }

  lemma NewFamilyKnown(requests: seq<Request>, answers: seq<Answer>, n: nat, used: set<Token>)
    requires n < |requests| && n < |answers| && requests[n].Login?
    ensures var r := requests[n];
            FamilyKnown(requests, answers, n + 1, Family(r.user, [r.issued], [r.now + LIFETIME], false), used + IssuedBy(r), Origin(n, n))
  {
    LoginGrows(requests, n);
    hide LoginOf;
  }

  /** Each request keeps the agreement between the machine and the history. */
  lemma FamiliesStayKnown(requests: seq<Request>, answers: seq<Answer>, n: nat, families: seq<Family>, used: set<Token>,
                          origins: seq<Origin>, clock: int)
    requires n < |requests| && n < |answers| && Known(requests, answers, n, families, used, origins, clock) && WellFormed(families, used)
    requires answers[n] == Step(families, requests[n]).answer && IssuedBy(requests[n]) !! used
    ensures var after, origins' := Step(families, requests[n]).state, NextOrigins(families, requests[n], origins, n);
            && |origins'| == |after|
            && (forall f :: 0 <= f < |after| ==> FamilyKnown(requests, answers, n + 1, after[f], used + IssuedBy(requests[n]), origins'[f]))
            && (forall f, g :: 0 <= f < g < |after| ==> origins'[f].login != origins'[g].login)
  {
    var r := requests[n];
    var after, origins' := Step(families, r).state, NextOrigins(families, r, origins, n);
    assert forall f :: 0 <= f < |families| ==> origins[f].login < n by {
      assert forall f :: 0 <= f < |families| ==> FamilyKnown(requests, answers, n, families[f], used, origins[f]);
    }
    forall f | 0 <= f < |after| ensures FamilyKnown(requests, answers, n + 1, after[f], used + IssuedBy(r), origins'[f]) {
      if f == |families| {
        NewFamilyKnown(requests, answers, n, used);
      } else if Rotates(families, r, f) {
        RotatedFamilyKnown(requests, answers, n, families, used, origins, clock, f);
      } else {
        QuietFamilyKnown(requests, answers, n, families, used, origins, clock, f);
        assert origins'[f] == origins[f];
      }
    }
    hide FamilyKnown, Known, WellFormed;
  }

  lemma ServiceGoesOn(requests: seq<Request>, answers: seq<Answer>, n: nat, families: seq<Family>, used: set<Token>,
                      origins: seq<Origin>, clock: int, i: nat)
    requires n < |requests| && n < |answers| && Known(requests, answers, n, families, used, origins, clock) && WellFormed(families, used)
    requires answers[n] == Step(families, requests[n]).answer && clock <= requests[n].now
    requires i <= n && Live(requests, answers, i, n + 1)
    ensures var after, origins' := Step(families, requests[n]).state, NextOrigins(families, requests[n], origins, n);
            |origins'| == |after| && exists f :: 0 <= f < |after| && Serves(after[f], origins'[f], requests, i, requests[n].now)
  {
    var r := requests[n];
    var after, origins' := Step(families, r).state, NextOrigins(families, r, origins, n);
    if i == n {
      var f := if r.Login? then |families| else FindFamily(families, r.token, 0).value;
      assert Serves(after[f], origins'[f], requests, i, r.now);
    } else {
      LiveOn(requests, answers, i, n);
      var f :| 0 <= f < |families| && Serves(families[f], origins[f], requests, i, clock);
      assert FamilyKnown(requests, answers, n, families[f], used, origins[f]);
      EndsExactly(requests, answers, n, families, used, origins, clock, f);
      RestOfFamily(families, used, r, f);
      hide Live, Ends, Known, WellFormed;
      assert Serves(after[f], origins'[f], requests, i, r.now);
    }
  }

  // ---- Decisions -----------------------------------------------------------------------------------

  predicate Accepts(a: Answer) {
    a == Rotated || a == LoggedOut
  }

  /** Request `j` presents the token of request `i`, which nothing has ended. */
  predicate PresentsLive(requests: seq<Request>, answers: seq<Answer>, i: nat, j: nat)
    requires j < |requests| && j < |answers|
  {
    i < j && Live(requests, answers, i, j) && Presents(requests[j], requests[i].issued)
  }

  /** What the history before it says about the answer to request `j`. */
  ghost predicate Decided(requests: seq<Request>, answers: seq<Answer>, j: nat)
    requires j < |requests| && j < |answers|
  {
    && (Accepts(answers[j]) <==> exists i :: PresentsLive(requests, answers, i, j) && InTime(requests, i, requests[j].now))
    && (forall i :: PresentsLive(requests, answers, i, j) && !InTime(requests, i, requests[j].now) ==> answers[j] == AuthRequired)
  }

  lemma NewestTokenDecides(families: seq<Family>, r: Request, token: Token, f: nat)
    requires Presents(r, token) && FindFamily(families, token, 0) == Some(f)
    requires Current(families[f], token) && !families[f].dead && |families[f].ends| == |families[f].chain|
    ensures if r.now < families[f].ends[|families[f].ends| - 1] then Accepts(Step(families, r).answer) else Step(families, r).answer == AuthRequired
  {
  }

  lemma UnknownTokenDecides(families: seq<Family>, r: Request, token: Token)
    requires Presents(r, token) && FindFamily(families, token, 0) == None
    ensures Step(families, r).answer == AuthRequired
  {
  }

  lemma LiveTokenDecides(requests: seq<Request>, answers: seq<Answer>, n: nat, families: seq<Family>, used: set<Token>,
                         origins: seq<Origin>, clock: int, i: nat)
    requires n < |requests| && n < |answers| && Known(requests, answers, n, families, used, origins, clock) && WellFormed(families, used)
    requires answers[n] == Step(families, requests[n]).answer && clock <= requests[n].now
    requires PresentsLive(requests, answers, i, n)
    ensures if InTime(requests, i, requests[n].now) then Accepts(answers[n]) else answers[n] == AuthRequired
  {
    var token := requests[i].issued;
    var f :| 0 <= f < |families| && Serves(families[f], origins[f], requests, i, clock);
    hide WellFormed, Live, LoginOf;
    assert FamilyKnown(requests, answers, n, families[f], used, origins[f]);
    LoginIdentifiesFamily(requests, answers, n, families, used, origins, clock, token, f);
    hide Known, Step;
    if families[f].chain == [] {
      UnknownTokenDecides(families, requests[n], token);
    } else {
      NewestTokenDecides(families, requests[n], token, f);
    }
  }

  lemma AcceptedWasLive(requests: seq<Request>, answers: seq<Answer>, n: nat, families: seq<Family>, used: set<Token>,
                        origins: seq<Origin>, clock: int) returns (i: nat)
    requires n < |requests| && n < |answers| && Known(requests, answers, n, families, used, origins, clock) && WellFormed(families, used)
    requires answers[n] == Step(families, requests[n]).answer && Accepts(answers[n])
    ensures PresentsLive(requests, answers, i, n) && InTime(requests, i, requests[n].now)
  {
    var f := FindFamily(families, requests[n].token, 0).value;
    assert FamilyKnown(requests, answers, n, families[f], used, origins[f]);
    i := origins[f].newest;
    hide Known, WellFormed, Live, LoginOf;
  }

  lemma StepDecided(requests: seq<Request>, answers: seq<Answer>, n: nat, families: seq<Family>, used: set<Token>,
                    origins: seq<Origin>, clock: int)
    requires n < |requests| && n < |answers| && Known(requests, answers, n, families, used, origins, clock) && WellFormed(families, used)
    requires answers[n] == Step(families, requests[n]).answer && clock <= requests[n].now
    ensures Decided(requests, answers, n)
  {
    hide Known, WellFormed, Step, Live, InTime;
    forall i: nat | PresentsLive(requests, answers, i, n)
      ensures if InTime(requests, i, requests[n].now) then Accepts(answers[n]) else answers[n] == AuthRequired
    {
      LiveTokenDecides(requests, answers, n, families, used, origins, clock, i);
    }
    if Accepts(answers[n]) {
      var i := AcceptedWasLive(requests, answers, n, families, used, origins, clock);
    }
  }

  lemma {:induction false} RunDecided(requests: seq<Request>, answers: seq<Answer>, n: nat, families: seq<Family>, used: set<Token>,
                                      origins: seq<Origin>, clock: int, j: nat)
    requires |answers| == |requests| && n <= j < |requests| && answers[n..] == Answers(families, requests[n..])
    requires Known(requests, answers, n, families, used, origins, clock) && WellFormed(families, used) && Legal(used, requests[n..], clock)
    ensures Decided(requests, answers, j)
    decreases j - n
  {
    var r := requests[n];
    assert requests[n..][0] == r && requests[n..][1..] == requests[n + 1..];
    assert answers[n] == answers[n..][0] == Step(families, r).answer && answers[n + 1..] == answers[n..][1..];
    hide WellFormed, Step, Decided, FamilyKnown, Live, Serves;
    if n == j {
      StepDecided(requests, answers, n, families, used, origins, clock);
    } else {
      FamiliesStayKnown(requests, answers, n, families, used, origins, clock);
      var after, origins' := Step(families, r).state, NextOrigins(families, r, origins, n);
      var m := n + 1;
      forall i: nat | i < m && Live(requests, answers, i, m)
        ensures exists f :: 0 <= f < |after| && Serves(after[f], origins'[f], requests, i, r.now)
      {
        ServiceGoesOn(requests, answers, n, families, used, origins, clock, i);
      }
      StepKeepsWellFormed(families, used, r);
      RunDecided(requests, answers, n + 1, after, used + IssuedBy(r), origins', r.now, j);
    }
  }

  /** In every run of either service, for PHP also with cleanups, a token is accepted, for a refresh
      or a logout, exactly when it was issued less than thirty days ago and since then neither
      exchanged nor logged out, its login not replayed and its user not logged out everywhere. A
      token that only came too late is answered AUTH_REQUIRED. */
  lemma AcceptedExactlyWhen(requests: seq<Request>, clock: int, j: nat)
    requires Legal({}, requests, clock) && j < |requests|
    ensures Decided(requests, PhpAnswers(EMPTY_TABLE, requests), j)
    ensures (forall r :: r in requests ==> !r.Cleanup?) ==> Decided(requests, TsAnswers([], requests), j)
  {
    hide Decided;
    assert requests[0..] == requests && Answers([], requests)[0..] == Answers([], requests);
    RunDecided(requests, Answers([], requests), 0, [], {}, [], clock, j);
    var _, _ := PhpRunIsLinked(requests, clock);
    if forall r :: r in requests ==> !r.Cleanup? {
      SameDecisions(requests, clock);
    }
  }

  // ---- Replays ---------------------------------------------------------------------------------------

  /** The token was exchanged for a new one before request `n`. */
  predicate Exchanged(requests: seq<Request>, answers: seq<Answer>, n: nat, token: Token)
    requires n <= |requests| && n <= |answers|
  {
    exists k :: 0 <= k < n && requests[k].Refresh? && requests[k].token == token && answers[k] == Rotated
  }

  /** The exchanged tokens of a family are all but its newest one. */
  ghost predicate ChainExchanged(requests: seq<Request>, answers: seq<Answer>, n: nat, chain: seq<Token>)
    requires n <= |requests| && n <= |answers|
  {
    forall q :: 0 <= q < |chain| ==> (Exchanged(requests, answers, n, chain[q]) <==> q < |chain| - 1)
  }

  ghost predicate Traced(requests: seq<Request>, answers: seq<Answer>, n: nat, families: seq<Family>, used: set<Token>)
    requires n <= |requests| && n <= |answers|
  {
    && (forall f :: 0 <= f < |families| ==> ChainExchanged(requests, answers, n, families[f].chain))
    && (forall t :: Exchanged(requests, answers, n, t) ==> t in used)
  }

  /** No exchanged token has been cleaned up. */
  ghost predicate Kept(requests: seq<Request>, answers: seq<Answer>, n: nat, families: seq<Family>)
    requires n <= |requests| && n <= |answers|
  {
    forall t :: Exchanged(requests, answers, n, t) ==> exists f :: 0 <= f < |families| && t in families[f].chain
  }

  lemma ExchangedOn(requests: seq<Request>, answers: seq<Answer>, n: nat, token: Token)
    requires n < |requests| && n < |answers|
    ensures Exchanged(requests, answers, n + 1, token) <==>
              Exchanged(requests, answers, n, token) || (requests[n].Refresh? && requests[n].token == token && answers[n] == Rotated)
  {
    if Exchanged(requests, answers, n, token) {
      var k :| 0 <= k < n && requests[k].Refresh? && requests[k].token == token && answers[k] == Rotated;
      assert k < n + 1;
    }
  }

  lemma SuffixOfFamily(families: seq<Family>, used: set<Token>, r: Request, f: nat) returns (dropped: nat)
    requires WellFormed(families, used) && f < |families| && !Rotates(families, r, f)
    ensures |families| <= |Step(families, r).state|
    ensures dropped <= |families[f].chain| && Step(families, r).state[f].chain == families[f].chain[dropped..]
    ensures !r.Cleanup? ==> dropped == 0
  {
    dropped := if r.Cleanup? then Ended(families[f].ends, r.now) else 0;
  }

  lemma QuietChainExchanged(requests: seq<Request>, answers: seq<Answer>, n: nat, families: seq<Family>, used: set<Token>, f: nat)
    requires n < |requests| && n < |answers| && Traced(requests, answers, n, families, used) && WellFormed(families, used)
    requires answers[n] == Step(families, requests[n]).answer && f < |families| && !Rotates(families, requests[n], f)
    ensures |families| <= |Step(families, requests[n]).state|
    ensures ChainExchanged(requests, answers, n + 1, Step(families, requests[n]).state[f].chain)
  {
    var r, chain := requests[n], families[f].chain;
    var dropped := SuffixOfFamily(families, used, r, f);
    assert ChainExchanged(requests, answers, n, chain);
    forall q | 0 <= q < |chain| ensures Exchanged(requests, answers, n + 1, chain[q]) <==> q < |chain| - 1 {
      ExchangedOn(requests, answers, n, chain[q]);
      if r.Refresh? && answers[n] == Rotated && r.token == chain[q] {
        TokenIdentifiesFamily(families, used, f, q);
        assert false;
      }
    }
    hide Exchanged, Step, Traced, WellFormed;
  }

  lemma RotatedChainExchanged(requests: seq<Request>, answers: seq<Answer>, n: nat, families: seq<Family>, used: set<Token>, f: nat)
    requires n < |requests| && n < |answers| && Traced(requests, answers, n, families, used) && WellFormed(families, used)
    requires IssuedBy(requests[n]) !! used && answers[n] == Step(families, requests[n]).answer && f < |families| && Rotates(families, requests[n], f)
    ensures |families| <= |Step(families, requests[n]).state|
    ensures ChainExchanged(requests, answers, n + 1, Step(families, requests[n]).state[f].chain)
  {
    var r, chain := requests[n], families[f].chain;
    RotatedFamily(families, used, r, f);
    var chain' := chain + [r.issued];
    assert ChainExchanged(requests, answers, n, chain) && Distinct(chain);
    assert chain[|chain| - 1] in used;
    forall q | 0 <= q < |chain'| ensures Exchanged(requests, answers, n + 1, chain'[q]) <==> q < |chain'| - 1 {
      ExchangedOn(requests, answers, n, chain'[q]);
    }
    hide Exchanged, Step, Traced, WellFormed;
  }

  /** Each request keeps the exchanged tokens apart from the newest ones. */
  lemma StaysTraced(requests: seq<Request>, answers: seq<Answer>, n: nat, families: seq<Family>, used: set<Token>)
    requires n < |requests| && n < |answers| && Traced(requests, answers, n, families, used) && WellFormed(families, used)
    requires answers[n] == Step(families, requests[n]).answer && IssuedBy(requests[n]) !! used
    ensures Traced(requests, answers, n + 1, Step(families, requests[n]).state, used + IssuedBy(requests[n]))
  {
    var r := requests[n];
    var after := Step(families, r).state;
    forall f | 0 <= f < |after| ensures ChainExchanged(requests, answers, n + 1, after[f].chain) {
      if f == |families| {
        ExchangedOn(requests, answers, n, r.issued);
      } else if Rotates(families, r, f) {
        RotatedChainExchanged(requests, answers, n, families, used, f);
      } else {
        QuietChainExchanged(requests, answers, n, families, used, f);
      }
    }
    forall t | Exchanged(requests, answers, n + 1, t) ensures t in used + IssuedBy(r) {
      ExchangedOn(requests, answers, n, t);
    }
    hide ChainExchanged, Exchanged, WellFormed, Step;
  }

  lemma StaysKept(requests: seq<Request>, answers: seq<Answer>, n: nat, families: seq<Family>, used: set<Token>)
    requires n < |requests| && n < |answers| && Kept(requests, answers, n, families) && WellFormed(families, used)
    requires answers[n] == Step(families, requests[n]).answer && !requests[n].Cleanup?
    ensures Kept(requests, answers, n + 1, Step(families, requests[n]).state)
  {
    var r := requests[n];
    var after := Step(families, r).state;
    var m := n + 1;
    forall t | Exchanged(requests, answers, m, t) ensures exists f :: 0 <= f < |after| && t in after[f].chain {
      ExchangedOn(requests, answers, n, t);
      var f: nat;
      if Exchanged(requests, answers, n, t) {
        f :| f < |families| && t in families[f].chain;
      } else {
        f := FindFamily(families, t, 0).value;
      }
      if !Rotates(families, r, f) {
        var _ := SuffixOfFamily(families, used, r, f);
      }
      hide Exchanged, WellFormed;
      assert t in after[f].chain;
    }
  }

  /** Without a cleanup before it, a refresh is a replay exactly when its token was exchanged. */
  ghost predicate ReplayDecided(requests: seq<Request>, answers: seq<Answer>, j: nat)
    requires j < |requests| && j < |answers|
  {
    && (answers[j] == Replayed ==> requests[j].Refresh? && Exchanged(requests, answers, j, requests[j].token))
    && (requests[j].Refresh? && Exchanged(requests, answers, j, requests[j].token) ==>
          answers[j] in {Replayed, AuthRequired} && ((forall k :: 0 <= k < j ==> !requests[k].Cleanup?) ==> answers[j] == Replayed))
  }

  lemma ReplayStep(requests: seq<Request>, answers: seq<Answer>, n: nat, families: seq<Family>, used: set<Token>)
    requires n < |requests| && n < |answers| && Traced(requests, answers, n, families, used) && WellFormed(families, used)
    requires answers[n] == Step(families, requests[n]).answer
    requires (forall k :: 0 <= k < n ==> !requests[k].Cleanup?) ==> Kept(requests, answers, n, families)
    ensures ReplayDecided(requests, answers, n)
  {
    var r := requests[n];
    if r.Refresh? {
      var found := FindFamily(families, r.token, 0);
      if found.Some? {
        var chain := families[found.value].chain;
        var q :| 0 <= q < |chain| && chain[q] == r.token;
        assert ChainExchanged(requests, answers, n, chain) && Distinct(chain);
      }
    }
    hide Exchanged, WellFormed;
  }

  lemma {:induction false} RunReplays(requests: seq<Request>, answers: seq<Answer>, n: nat, families: seq<Family>, used: set<Token>, clock: int, j: nat)
    requires |answers| == |requests| && n <= j < |requests| && answers[n..] == Answers(families, requests[n..])
    requires Traced(requests, answers, n, families, used) && WellFormed(families, used) && Legal(used, requests[n..], clock)
    requires (forall k :: 0 <= k < n ==> !requests[k].Cleanup?) ==> Kept(requests, answers, n, families)
    ensures ReplayDecided(requests, answers, j)
    decreases j - n
  {
    var r := requests[n];
    assert requests[n..][0] == r && requests[n..][1..] == requests[n + 1..];
    assert answers[n] == answers[n..][0] == Step(families, r).answer && answers[n + 1..] == answers[n..][1..];
    hide WellFormed, Step, ReplayDecided, Traced, Kept;
    if n == j {
      ReplayStep(requests, answers, n, families, used);
    } else {
      StaysTraced(requests, answers, n, families, used);
      if forall k :: 0 <= k < n + 1 ==> !requests[k].Cleanup? {
        StaysKept(requests, answers, n, families, used);
      }
      StepKeepsWellFormed(families, used, r);
      RunReplays(requests, answers, n + 1, Step(families, r).state, used + IssuedBy(r), r.now, j);
    }
  }

  /** In every run of either service a replay is answered exactly to a refresh whose token was
      exchanged before; after a cleanup PHP may answer AUTH_REQUIRED instead. */
  lemma ReplayedExactlyWhen(requests: seq<Request>, clock: int, j: nat)
    requires Legal({}, requests, clock) && j < |requests|
    ensures ReplayDecided(requests, PhpAnswers(EMPTY_TABLE, requests), j)
    ensures (forall r :: r in requests ==> !r.Cleanup?) ==> ReplayDecided(requests, TsAnswers([], requests), j)
  {
    assert requests[0..] == requests && Answers([], requests)[0..] == Answers([], requests);
    assert Traced(requests, Answers([], requests), 0, [], {}) && Kept(requests, Answers([], requests), 0, []);
    hide ReplayDecided, Exchanged;
    RunReplays(requests, Answers([], requests), 0, [], {}, clock, j);
    var _, _ := PhpRunIsLinked(requests, clock);
    if forall r :: r in requests ==> !r.Cleanup? {
      SameDecisions(requests, clock);
    }
  }

  // ---- Session versions --------------------------------------------------------------------------------

  /** A row issued under another version than its user has now is refused, revoked or not, and nothing
      changes unless it is a replay. */
  lemma OldVersionRefused(p: Php, r: Request, i: nat)
    requires i in p.rows && p.rows[i].version != VersionOf(p, p.rows[i].user)
    requires Presents(r, p.rows[i].token) && FindRow(p.rows, p.next, p.rows[i].token) == Some(i)
    ensures PhpStep(p, r).answer == (if r.Refresh? && p.rows[i].rotated then Replayed else AuthRequired)
    ensures PhpStep(p, r).answer == AuthRequired ==> PhpStep(p, r).state == p
  {
  }

  /** A logout everywhere raises the user's version by one, revokes every row of the user and leaves the
      other users alone. */
  lemma LogoutRaisesVersion(p: Php, token: Token, now: int, user: User)
    requires PhpStep(p, LogoutAll(token, now)).answer == LoggedOut
    ensures var after := PhpStep(p, LogoutAll(token, now)).state;
            var own := p.rows[FindRow(p.rows, p.next, token).value].user;
            && VersionOf(after, user) == VersionOf(p, user) + (if user == own then 1 else 0)
            && after.rows.Keys == p.rows.Keys
            && forall k :: k in p.rows ==> after.rows[k] == if p.rows[k].user == own then p.rows[k].(revoked := true) else p.rows[k]
  {
  }
}
