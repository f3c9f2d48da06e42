/** What a family machine run can never do, and what that means for the rows of the table. */
module SessionTheorems {
  import opened Common
  import opened Sessions
  import opened SessionRefinement

  // ---- A token rotates at most once -------------------------------------------------------------

  ghost predicate Spent(families: seq<Family>, token: Token) {
    forall f :: 0 <= f < |families| ==> !Current(families[f], token)
  }

  lemma RotationSpends(families: seq<Family>, used: set<Token>, r: Request)
    requires WellFormed(families, used) && IssuedBy(r) !! used
    requires r.Refresh? && Step(families, r).answer == Rotated
    ensures Spent(Step(families, r).state, r.token) && r.token in used
  {
    var f := FindFamily(families, r.token, 0).value;
    forall g | 0 <= g < |families| && g != f ensures !Current(families[g], r.token) {
      assert Disjoint(families[if f < g then f else g].chain, families[if f < g then g else f].chain);
    }
  }

  lemma SpentStays(families: seq<Family>, used: set<Token>, r: Request, token: Token)
    requires WellFormed(families, used) && IssuedBy(r) !! used && token in used && Spent(families, token)
    ensures Spent(Step(families, r).state, token)
  {
    if r.Cleanup? {
      forall f | 0 <= f < |families| ensures !Current(Forget(families[f], r.now), token) {
        assert !Current(families[f], token);
      }
    }
  }

  lemma {:induction false} SpentNeverRotates(families: seq<Family>, used: set<Token>, requests: seq<Request>, clock: int, token: Token, j: nat)
    requires WellFormed(families, used) && Legal(used, requests, clock) && token in used && Spent(families, token)
    requires j < |requests| && requests[j].Refresh? && requests[j].token == token
    ensures Answers(families, requests)[j] != Rotated
    decreases j
  {
    if j > 0 {
      hide WellFormed, Spent, Step;
      SpentStays(families, used, requests[0], token);
      StepKeepsWellFormed(families, used, requests[0]);
      SpentNeverRotates(Step(families, requests[0]).state, used + IssuedBy(requests[0]), requests[1..], requests[0].now, token, j - 1);
    }
  }

  /** In every run each token is exchanged for a new one at most once. */
  lemma {:induction false} TokenRotatesOnce(families: seq<Family>, used: set<Token>, requests: seq<Request>, clock: int, i: nat, j: nat)
    requires WellFormed(families, used) && Legal(used, requests, clock)
    requires i < j < |requests| && requests[i].Refresh? && requests[j].Refresh? && requests[i].token == requests[j].token
    requires Answers(families, requests)[i] == Rotated
    ensures Answers(families, requests)[j] != Rotated
    decreases i
  {
    hide WellFormed, Spent, Step;
    StepKeepsWellFormed(families, used, requests[0]);
    var families', used' := Step(families, requests[0]).state, used + IssuedBy(requests[0]);
    if i == 0 {
      RotationSpends(families, used, requests[0]);
      SpentNeverRotates(families', used', requests[1..], requests[0].now, requests[j].token, j - 1);
    } else {
      TokenRotatesOnce(families', used', requests[1..], requests[0].now, i - 1, j - 1);
    }
  }

  // ---- A replayed family stays dead --------------------------------------------------------------

  /** Wherever one of these tokens is still known, its family is dead. */
  ghost predicate Sealed(families: seq<Family>, tokens: set<Token>) {
    forall f, t :: 0 <= f < |families| && t in tokens && t in families[f].chain ==> families[f].dead
  }

  lemma SealedStays(families: seq<Family>, used: set<Token>, r: Request, tokens: set<Token>)
    requires WellFormed(families, used) && IssuedBy(r) !! used && tokens <= used && Sealed(families, tokens)
    ensures Sealed(Step(families, r).state, tokens)
    ensures (r.Refresh? || r.Logout? || r.LogoutAll?) && r.token in tokens ==> Step(families, r).answer in {Replayed, AuthRequired}
  {
    var families' := Step(families, r).state;
    forall f, t | 0 <= f < |families'| && t in tokens && t in families'[f].chain ensures families'[f].dead {
      assert f < |families| && t in families[f].chain;
    }
  }

  lemma {:induction false} SealedForGood(families: seq<Family>, used: set<Token>, requests: seq<Request>, clock: int, tokens: set<Token>, j: nat)
    requires WellFormed(families, used) && Legal(used, requests, clock) && tokens <= used && Sealed(families, tokens)
    requires j < |requests| && (requests[j].Refresh? || requests[j].Logout? || requests[j].LogoutAll?) && requests[j].token in tokens
    ensures Answers(families, requests)[j] in {Replayed, AuthRequired}
    decreases j
  {
    hide WellFormed, Sealed, Step;
    SealedStays(families, used, requests[0], tokens);
    if j > 0 {
      StepKeepsWellFormed(families, used, requests[0]);
      SealedForGood(Step(families, requests[0]).state, used + IssuedBy(requests[0]), requests[1..], requests[0].now, tokens, j - 1);
    }
  }

  /** Once a token is replayed, no token of its family is accepted again, the newest included. */
  lemma ReplayKillsForGood(families: seq<Family>, used: set<Token>, requests: seq<Request>, clock: int, f: nat, j: nat)
    requires WellFormed(families, used) && Legal(used, requests, clock)
    requires 0 < j < |requests| && requests[0].Refresh? && Answers(families, requests)[0] == Replayed
    requires FindFamily(families, requests[0].token, 0) == Some(f)
    requires (requests[j].Refresh? || requests[j].Logout? || requests[j].LogoutAll?) && requests[j].token in families[f].chain
    ensures Answers(families, requests)[j] in {Replayed, AuthRequired}
  {
    var tokens := set t | t in families[f].chain;
    var families' := Step(families, requests[0]).state;
    forall g, t | 0 <= g < |families| && g != f && t in tokens ensures t !in families[g].chain {
      assert Disjoint(families[if f < g then f else g].chain, families[if f < g then g else f].chain);
    }
    assert Sealed(families', tokens);
    StepKeepsWellFormed(families, used, requests[0]);
    SealedForGood(families', used + IssuedBy(requests[0]), requests[1..], requests[0].now, tokens, j - 1);
  }

  // ---- ... in both services -----------------------------------------------------------------------

  lemma {:induction false} AnswersFrom(families: seq<Family>, requests: seq<Request>, i: nat)
    requires i <= |requests|
    ensures Answers(families, requests)[i..] == Answers(After(families, requests[..i]), requests[i..])
    decreases i
  {
    if i == 0 {
      assert requests[0..] == requests && requests[..0] == [];
    } else {
      hide Step;
      AnswersFrom(Step(families, requests[0]).state, requests[1..], i - 1);
      assert requests[..i][1..] == requests[1..][..i - 1] && requests[1..][i - 1..] == requests[i..];
    }
  }

  /** Every suffix of a legal run starts from a well-formed machine and is legal itself. */
  lemma {:induction false} LegalFrom(families: seq<Family>, used: set<Token>, requests: seq<Request>, clock: int, i: nat)
    returns (used': set<Token>, clock': int)
    requires WellFormed(families, used) && Legal(used, requests, clock) && i <= |requests|
    ensures WellFormed(After(families, requests[..i]), used') && Legal(used', requests[i..], clock')
    ensures Legal(used, requests[..i], clock)
    decreases i
  {
    used', clock' := used, clock;
    if i == 0 {
      assert requests[0..] == requests && requests[..0] == [];
    } else {
      hide WellFormed, Step;
      StepKeepsWellFormed(families, used, requests[0]);
      used', clock' := LegalFrom(Step(families, requests[0]).state, used + IssuedBy(requests[0]), requests[1..], requests[0].now, i - 1);
      assert requests[..i][1..] == requests[1..][..i - 1] && requests[1..][i - 1..] == requests[i..];
    }
  }

  predicate Presents(r: Request, token: Token) {
    (r.Refresh? || r.Logout? || r.LogoutAll?) && r.token == token
  }

  /** The same, with the replay at any point of a run from the start. */
  lemma ReplayKillsLater(requests: seq<Request>, clock: int, f: nat, i: nat, j: nat)
    requires Legal({}, requests, clock) && i < j < |requests| && requests[i].Refresh? && Answers([], requests)[i] == Replayed
    requires var families := After([], requests[..i]);
             && FindFamily(families, requests[i].token, 0) == Some(f)
             && (requests[j].Refresh? || requests[j].Logout? || requests[j].LogoutAll?) && requests[j].token in families[f].chain
    ensures Answers([], requests)[j] in {Replayed, AuthRequired}
  {
    var used, now := LegalFrom([], {}, requests, clock, i);
    AnswersFrom([], requests, i);
    hide After, Answers, WellFormed, Legal;
    assert Answers([], requests)[i..][0] == Answers([], requests)[i] && Answers([], requests)[i..][j - i] == Answers([], requests)[j];
    ReplayKillsForGood(After([], requests[..i]), used, requests[i..], now, f, j - i);
  }

  /** PHP: once a token was replayed, no token of a row of the same family is accepted any more. */
  lemma PhpReplayKills(requests: seq<Request>, clock: int, i: nat, j: nat, a: nat, b: nat)
    requires Legal({}, requests, clock) && i < j < |requests|
    requires var rows := PhpAfter(EMPTY_TABLE, requests[..i]).rows;
             && a in rows && b in rows && rows[a].family == rows[b].family
             && requests[i].Refresh? && requests[i].token == rows[a].token && Presents(requests[j], rows[b].token)
    requires PhpAnswers(EMPTY_TABLE, requests)[i] == Replayed
    ensures PhpAnswers(EMPTY_TABLE, requests)[j] in {Replayed, AuthRequired}
  {
    var used, now := LegalFrom([], {}, requests, clock, i);
    var _, _ := PhpRunIsLinked(requests, clock);
    var x, clock' := PhpRunIsLinked(requests[..i], clock);
    var p, families := PhpAfter(EMPTY_TABLE, requests[..i]), After([], requests[..i]);
    var f, q, r := SameChain(p, families, x, clock', a, b);
    TokenIdentifiesFamily(families, used, f, q);
    assert families[f].chain[r] == requests[j].token;
    hide After, PhpAfter, Answers, PhpAnswers, Legal, WellFormed, Linked;
    ReplayKillsLater(requests, clock, f, i, j);
  }

  lemma SameChain(p: Php, families: seq<Family>, x: Index, clock: int, a: nat, b: nat) returns (f: nat, q: nat, r: nat)
    requires Linked(p, families, x, clock) && a in p.rows && b in p.rows && p.rows[a].family == p.rows[b].family
    ensures f < |families| && q < |families[f].chain| && r < |families[f].chain|
    ensures families[f].chain[q] == p.rows[a].token && families[f].chain[r] == p.rows[b].token
  {
    f, q, r := SameFamilySameChain(p, families, x, clock, a, b);
  }

  /** TypeScript: once an old token of a session was replayed, none of its tokens is accepted any more. */
  lemma TsReplayKills(requests: seq<Request>, clock: int, i: nat, j: nat, k: nat)
    requires Legal({}, requests, clock) && i < j < |requests| && forall r :: r in requests ==> !r.Cleanup?
    requires var sessions := TsAfter([], requests[..i]);
             && k < |sessions| && requests[i].Refresh? && requests[i].token in sessions[k].previous
             && (exists token :: token in sessions[k].previous + [sessions[k].tokenHash] && Presents(requests[j], token))
    ensures TsAnswers([], requests)[i] == Replayed
    ensures TsAnswers([], requests)[j] in {Replayed, AuthRequired}
  {
    var used, now := LegalFrom([], {}, requests, clock, i);
    var sessions, families := TsAfter([], requests[..i]), After([], requests[..i]);
    assert forall r :: r in requests[..i] ==> r in requests;
    TsFollows([], [], {}, requests[..i], clock);
    TsFollows([], [], {}, requests, clock);
    PreviousIsNotCurrent(sessions, families, used, requests[i].token, k);
    assert Mirrors(sessions[k], families[k]);
    AnswersFrom([], requests, i);
    assert Answers([], requests)[i..][0] == Answers([], requests)[i];
    assert Answers(families, requests[i..])[0] == Step(families, requests[i]).answer;
    hide After, TsAfter, Answers, TsAnswers, Legal, WellFormed;
    ReplayKillsLater(requests, clock, k, i, j);
  }

  // ---- The rows of the table ---------------------------------------------------------------------

  lemma SameFamilySameChain(p: Php, families: seq<Family>, x: Index, clock: int, i: nat, j: nat) returns (f: nat, q: nat, r: nat)
    requires Linked(p, families, x, clock) && i in p.rows && j in p.rows && p.rows[i].family == p.rows[j].family
    ensures f < |families| && q < |x.at[f]| && r < |x.at[f]| && x.at[f][q] == i && x.at[f][r] == j
    ensures |x.at[f]| == |families[f].chain| == |families[f].ends|
    ensures RowMatches(p, families[f], x.at[f], x.name[f], q) && RowMatches(p, families[f], x.at[f], x.name[f], r)
    ensures q < r <==> i < j
    ensures q < r ==> p.rows[i].expiresAt <= p.rows[j].expiresAt
  {
    var g: nat;
    f, q := WhereIs(p, families, x, clock, i);
    g, r := WhereIs(p, families, x, clock, j);
    assert FamilyLinked(p, families[f], x.at[f], x.name[f]);
    IncreasingIds(p, families[f], x.at[f], x.name[f]);
  }

  /** In every reachable table a family is one chain: all rows but the newest are rotated,
      revoked and replaced, so at most one row is live. */
  lemma FamiliesAreChains(requests: seq<Request>, clock: int, i: nat, j: nat)
    requires Legal({}, requests, clock)
    requires var rows := PhpAfter(EMPTY_TABLE, requests).rows;
             i in rows && j in rows && i < j && rows[i].family == rows[j].family
    ensures var rows := PhpAfter(EMPTY_TABLE, requests).rows;
            && rows[i].rotated && rows[i].revoked
            && (match rows[i].replacedBy case Some(k) => k in rows && i < k <= j && rows[k].family == rows[i].family case None => false)
  {
    var p, families := PhpAfter(EMPTY_TABLE, requests), After([], requests);
    var x, clock' := PhpRunIsLinked(requests, clock);
    var f, q, r := SameFamilySameChain(p, families, x, clock', i, j);
    assert FamilyLinked(p, families[f], x.at[f], x.name[f]);
    assert RowMatches(p, families[f], x.at[f], x.name[f], q + 1);
    IncreasingIds(p, families[f], x.at[f], x.name[f]);
  }

  /** Cleanup deletes only the oldest rows of a family: with a row go all rows before it. */
  lemma CleanupDeletesPrefix(requests: seq<Request>, clock: int, now: int, i: nat, j: nat)
    requires Legal({}, requests, clock)
    requires var p := PhpAfter(EMPTY_TABLE, requests);
             i in p.rows && j in p.rows && i < j && p.rows[i].family == p.rows[j].family && j !in PhpStep(p, Cleanup(now)).state.rows
    ensures i !in PhpStep(PhpAfter(EMPTY_TABLE, requests), Cleanup(now)).state.rows
  {
    var p, families := PhpAfter(EMPTY_TABLE, requests), After([], requests);
    var x, clock' := PhpRunIsLinked(requests, clock);
    var f, q, r := SameFamilySameChain(p, families, x, clock', i, j);
  }

  /** Both services inherit the theorems about the family machine. */
  lemma ServicesRotateOnce(requests: seq<Request>, clock: int, i: nat, j: nat)
    requires Legal({}, requests, clock)
    requires i < j < |requests| && requests[i].Refresh? && requests[j].Refresh? && requests[i].token == requests[j].token
    ensures PhpAnswers(EMPTY_TABLE, requests)[i] == Rotated ==> PhpAnswers(EMPTY_TABLE, requests)[j] != Rotated
    ensures (forall r :: r in requests ==> !r.Cleanup?) && TsAnswers([], requests)[i] == Rotated ==> TsAnswers([], requests)[j] != Rotated
  {
    var _, _ := PhpRunIsLinked(requests, clock);
    if Answers([], requests)[i] == Rotated {
      TokenRotatesOnce([], {}, requests, clock, i, j);
    }
    if forall r :: r in requests ==> !r.Cleanup? {
      SameDecisions(requests, clock);
    }
  }
}
