/** Both services refine the abstract family machine, so they take the same decisions. */
module SessionRefinement {
  import opened Common
  import opened Sessions

  // ---- The abstract machine stays well formed ----------------------------------------------

  ghost predicate Distinct(chain: seq<Token>) {
    forall p, q :: 0 <= p < q < |chain| ==> chain[p] != chain[q]
  }

  ghost predicate Disjoint(a: seq<Token>, b: seq<Token>) {
    forall t :: t in a ==> t !in b
  }

  /** No token occurs twice, neither in one chain nor in two, and all tokens were issued before. */
  ghost predicate WellFormed(families: seq<Family>, used: set<Token>) {
    && (forall f :: 0 <= f < |families| ==> |families[f].chain| == |families[f].ends| && Distinct(families[f].chain))
    && (forall f, g :: 0 <= f < g < |families| ==> Disjoint(families[f].chain, families[g].chain))
    && (forall f, t :: 0 <= f < |families| && t in families[f].chain ==> t in used)
  }

  function IssuedBy(r: Request): set<Token> {
    if r.Login? || r.Refresh? then {r.issued} else {}
  }

  lemma ReplacedFamilyWellFormed(families: seq<Family>, used: set<Token>, f: nat, family: Family, used': set<Token>)
    requires WellFormed(families, used) && f < |families| && used <= used'
    requires |family.chain| == |family.ends| && Distinct(family.chain)
    requires forall t :: t in family.chain ==> t in families[f].chain || (t in used' && t !in used)
    ensures WellFormed(families[f := family], used')
  {
    var families' := families[f := family];
    forall g, h | 0 <= g < h < |families'| ensures Disjoint(families'[g].chain, families'[h].chain) {
      assert Disjoint(families[g].chain, families[h].chain);
    }
  }

  lemma ForgetAllWellFormed(families: seq<Family>, used: set<Token>, now: int)
    requires WellFormed(families, used)
    ensures WellFormed(ForgetAll(families, now), used)
  {
    var families' := ForgetAll(families, now);
    forall g | 0 <= g < |families'| ensures Distinct(families'[g].chain) {
      assert Distinct(families[g].chain);
    }
    forall g, h | 0 <= g < h < |families'| ensures Disjoint(families'[g].chain, families'[h].chain) {
      assert Disjoint(families[g].chain, families[h].chain);
      assert forall t :: t in families'[g].chain ==> t in families[g].chain;
      assert forall t :: t in families'[h].chain ==> t in families[h].chain;
    }
  }

  lemma StepKeepsWellFormed(families: seq<Family>, used: set<Token>, r: Request)
    requires WellFormed(families, used) && IssuedBy(r) !! used
    ensures WellFormed(Step(families, r).state, used + IssuedBy(r))
  {
    match r
    case Login(user, issued, now) =>
      assert forall f :: 0 <= f < |families| ==> issued !in families[f].chain;
    case Refresh(token, issued, now) =>
      var found := FindFamily(families, token, 0);
      if found.Some? {
        var f := found.value;
        assert issued !in families[f].chain;
        ReplacedFamilyWellFormed(families, used, f, Extend(families[f], issued, now), used + {issued});
        ReplacedFamilyWellFormed(families, used, f, families[f].(dead := true), used + {issued});
      }
    case Logout(token, now) =>
      var found := FindFamily(families, token, 0);
      if found.Some? {
        ReplacedFamilyWellFormed(families, used, found.value, families[found.value].(dead := true), used);
      }
    case LogoutAll(token, now) =>
    case Cleanup(now) => ForgetAllWellFormed(families, used, now);
  }

  lemma TokenIdentifiesFamily(families: seq<Family>, used: set<Token>, f: nat, p: nat)
    requires WellFormed(families, used) && f < |families| && p < |families[f].chain|
    ensures FindFamily(families, families[f].chain[p], 0) == Some(f)
    ensures Current(families[f], families[f].chain[p]) <==> p == |families[f].chain| - 1
  {
    var token := families[f].chain[p];
    assert token in families[f].chain;
    forall g | 0 <= g < |families| && g != f ensures token !in families[g].chain {
      assert Disjoint(families[if f < g then f else g].chain, families[if f < g then g else f].chain);
    }
    assert Distinct(families[f].chain);
  }

  // ---- TypeScript refines it ------------------------------------------------------------------

  ghost predicate Mirrors(s: Session, family: Family) {
    && family.user == s.user && family.chain == s.previous + [s.tokenHash] && family.dead == s.revoked
    && |family.ends| == |family.chain| && family.ends[|s.previous|] == s.expiresAt
  }

  ghost predicate AllMirror(sessions: seq<Session>, families: seq<Family>) {
    && |sessions| == |families|
    && forall i :: 0 <= i < |sessions| ==> Mirrors(sessions[i], families[i])
  }

  lemma PreviousIsNotCurrent(sessions: seq<Session>, families: seq<Family>, used: set<Token>, token: Token, i: nat)
    requires AllMirror(sessions, families) && WellFormed(families, used) && i < |sessions|
    ensures token in sessions[i].previous ==> FindFamily(families, token, 0) == Some(i) && !Current(families[i], token)
    ensures token == sessions[i].tokenHash ==> FindFamily(families, token, 0) == Some(i) && Current(families[i], token)
  {
    assert Mirrors(sessions[i], families[i]);
    if token in sessions[i].previous {
      var p :| 0 <= p < |sessions[i].previous| && sessions[i].previous[p] == token;
      assert families[i].chain[p] == token;
      TokenIdentifiesFamily(families, used, i, p);
    }
    if token == sessions[i].tokenHash {
      assert families[i].chain[|sessions[i].previous|] == token;
      TokenIdentifiesFamily(families, used, i, |sessions[i].previous|);
    }
  }

  /** Searching the previous and the current tokens finds the family the token belongs to. */
  lemma SearchesAgree(sessions: seq<Session>, families: seq<Family>, used: set<Token>, token: Token, now: int)
    requires AllMirror(sessions, families) && WellFormed(families, used)
    ensures match FindFamily(families, token, 0)
            case None =>
              && FindPrevious(sessions, token, 0).None?
              && FindCurrent(sessions, token, now, false, 0).None? && FindCurrent(sessions, token, now, true, 0).None?
            case Some(f) =>
              && (FindPrevious(sessions, token, 0) == if Current(families[f], token) then None else Some(f))
              && (FindCurrent(sessions, token, now, false, 0) == if Current(families[f], token) then Some(f) else None)
              && (FindCurrent(sessions, token, now, true, 0) == if Usable(families[f], token, now) then Some(f) else None)
  {
    forall i | 0 <= i < |sessions|
      ensures token in sessions[i].previous ==> FindFamily(families, token, 0) == Some(i) && !Current(families[i], token)
      ensures token == sessions[i].tokenHash ==> FindFamily(families, token, 0) == Some(i) && Current(families[i], token)
    {
      PreviousIsNotCurrent(sessions, families, used, token, i);
    }
    var found := FindFamily(families, token, 0);
    if found.Some? {
      assert Mirrors(sessions[found.value], families[found.value]);
      assert token in sessions[found.value].previous || token == sessions[found.value].tokenHash;
    }
  }

  /** One TypeScript step is one abstract step with the same answer. */
  lemma TsRefines(sessions: seq<Session>, families: seq<Family>, used: set<Token>, r: Request)
    requires AllMirror(sessions, families) && WellFormed(families, used) && !r.Cleanup?
    ensures AllMirror(TsStep(sessions, r).state, Step(families, r).state)
    ensures TsStep(sessions, r).answer == Step(families, r).answer
  {
    if r.Login? {
      assert Mirrors(Session(r.user, r.issued, [], false, r.now + LIFETIME), Family(r.user, [r.issued], [r.now + LIFETIME], false));
    } else {
      SearchesAgree(sessions, families, used, r.token, r.now);
      var found := FindFamily(families, r.token, 0);
      if found.Some? {
        var f := found.value;
        var s := sessions[f];
        assert Mirrors(s, families[f]);
        assert Mirrors(s.(revoked := true), families[f].(dead := true));
        if r.Refresh? && Usable(families[f], r.token, r.now) {
          var s' := s.(previous := s.previous + [s.tokenHash], tokenHash := r.issued, expiresAt := r.now + LIFETIME);
          assert Mirrors(s', Extend(families[f], r.issued, r.now));
        }
      }
    }
  }

  // ---- PHP refines it -----------------------------------------------------------------------

  /** Ghost bookkeeping: the row ids of each family, oldest first, and its family id. */
  datatype Index = Index(at: seq<seq<nat>>, name: seq<nat>)

  /** All but the last row of a chain are rotated, revoked and name their successor. */
  ghost predicate RowMatches(p: Php, family: Family, rows: seq<nat>, name: nat, q: nat)
    requires q < |rows| && |rows| == |family.chain| == |family.ends|
  {
    && rows[q] in p.rows && rows[q] < p.next
    && var row := p.rows[rows[q]];
      && row.user == family.user && row.token == family.chain[q] && row.expiresAt == family.ends[q] && row.family == name
      && if q == |rows| - 1 then
           && !row.rotated && row.replacedBy == None && row.revoked == family.dead
           && (!row.revoked ==> row.version == VersionOf(p, row.user))
         else
           && row.rotated && row.replacedBy == Some(rows[q + 1]) && row.revoked
           && rows[q] < rows[q + 1] && family.ends[q] <= family.ends[q + 1]
  }

  ghost predicate FamilyLinked(p: Php, family: Family, rows: seq<nat>, name: nat) {
    && |rows| == |family.chain| == |family.ends| && name < p.next
    && forall q :: 0 <= q < |rows| ==> RowMatches(p, family, rows, name, q)
  }

  ghost predicate OnChain(p: Php, x: Index, i: nat)
    requires i in p.rows && |x.at| == |x.name|
  {
    exists f :: 0 <= f < |x.at| && x.name[f] == p.rows[i].family && i in x.at[f]
  }

  /** The rows form one linear chain per family, and every row is on a chain. */
  ghost predicate Linked(p: Php, families: seq<Family>, x: Index, clock: int) {
    && |x.at| == |x.name| == |families|
    && (forall f :: 0 <= f < |families| ==> FamilyLinked(p, families[f], x.at[f], x.name[f]))
    && (forall f, g :: 0 <= f < g < |families| ==> x.name[f] != x.name[g])
    && (forall i :: i in p.rows ==> i < p.next && OnChain(p, x, i))
    && (forall i :: i in p.rows ==> p.rows[i].expiresAt <= clock + LIFETIME)
  }

  /** The chain a row is on and its place there. */
  lemma WhereIs(p: Php, families: seq<Family>, x: Index, clock: int, i: nat) returns (f: nat, q: nat)
    requires Linked(p, families, x, clock) && i in p.rows
    ensures f < |families| && q < |x.at[f]| && x.at[f][q] == i && x.name[f] == p.rows[i].family
    ensures |x.at[f]| == |families[f].chain| == |families[f].ends| && RowMatches(p, families[f], x.at[f], x.name[f], q)
  {
    assert OnChain(p, x, i);
    f :| 0 <= f < |x.at| && x.name[f] == p.rows[i].family && i in x.at[f];
    q :| 0 <= q < |x.at[f]| && x.at[f][q] == i;
    assert FamilyLinked(p, families[f], x.at[f], x.name[f]);
  }

  lemma RowSearch(p: Php, families: seq<Family>, used: set<Token>, x: Index, clock: int, token: Token) returns (f: nat, q: nat)
    requires Linked(p, families, x, clock) && WellFormed(families, used)
    ensures FindRow(p.rows, p.next, token).None? ==> FindFamily(families, token, 0).None?
    ensures FindRow(p.rows, p.next, token).Some? ==>
              && f < |families| && FindFamily(families, token, 0) == Some(f)
              && q < |x.at[f]| == |families[f].chain| == |families[f].ends| && x.at[f][q] == FindRow(p.rows, p.next, token).value
              && RowMatches(p, families[f], x.at[f], x.name[f], q)
              && (Current(families[f], token) <==> q == |x.at[f]| - 1)
  {
    f, q := 0, 0;
    var found := FindRow(p.rows, p.next, token);
    if found.Some? {
      f, q := WhereIs(p, families, x, clock, found.value);
      TokenIdentifiesFamily(families, used, f, q);
    } else {
      forall g | 0 <= g < |families| ensures token !in families[g].chain {
        assert FamilyLinked(p, families[g], x.at[g], x.name[g]);
        forall q | 0 <= q < |families[g].chain| ensures families[g].chain[q] != token {
          assert RowMatches(p, families[g], x.at[g], x.name[g], q);
        }
      }
    }
  }

  /** Rows of a family keep matching when only other rows change. */
  lemma OtherFamilyLinked(p: Php, p': Php, family: Family, rows: seq<nat>, name: nat)
    requires FamilyLinked(p, family, rows, name) && p.next <= p'.next && p'.versions == p.versions
    requires forall i :: i in p.rows && p.rows[i].family == name ==> i in p'.rows && p'.rows[i] == p.rows[i]
    ensures FamilyLinked(p', family, rows, name)
  {
    forall q | 0 <= q < |rows| ensures RowMatches(p', family, rows, name, q) {
      assert RowMatches(p, family, rows, name, q);
    }
  }

  lemma StillOnChain(p: Php, p': Php, x: Index, x': Index, i: nat)
    requires i in p.rows && i in p'.rows && p'.rows[i].family == p.rows[i].family
    requires |x.at| == |x.name| <= |x'.at| == |x'.name|
    requires forall f :: 0 <= f < |x.at| ==> x'.name[f] == x.name[f] && (i in x.at[f] ==> i in x'.at[f])
    requires OnChain(p, x, i)
    ensures OnChain(p', x', i)
  {
    var f :| 0 <= f < |x.at| && x.name[f] == p.rows[i].family && i in x.at[f];
    assert x'.name[f] == p'.rows[i].family && i in x'.at[f];
  }

  /** A single fresh row is a family of its own. */
  lemma NewFamilyLinked(p: Php, user: User, version: nat, issued: Token, now: int)
    requires version == VersionOf(p, user)
    ensures FamilyLinked(Issue(p, user, version, None, issued, now), Family(user, [issued], [now + LIFETIME], false), [p.next], p.next)
  {
    assert RowMatches(Issue(p, user, version, None, issued, now), Family(user, [issued], [now + LIFETIME], false), [p.next], p.next, 0);
  }

  lemma LoginRowsOnChain(p: Php, p': Php, x: Index, x': Index, n: nat)
    requires |x.at| == |x.name| && forall i :: i in p.rows ==> OnChain(p, x, i)
    requires x' == Index(x.at + [[n]], x.name + [n]) && p'.rows.Keys == p.rows.Keys + {n}
    requires p'.rows[n].family == n && forall i :: i in p.rows && i != n ==> p'.rows[i] == p.rows[i]
    ensures forall i :: i in p'.rows ==> OnChain(p', x', i)
  {
    forall i | i in p'.rows ensures OnChain(p', x', i) {
      if i == n {
        assert x'.name[|x.at|] == n && n in x'.at[|x.at|];
      } else {
        assert i in p.rows.Keys;
        StillOnChain(p, p', x, x', i);
      }
    }
  }

  lemma NameIsOld(p: Php, family: Family, rows: seq<nat>, name: nat)
    requires FamilyLinked(p, family, rows, name)
    ensures name < p.next
  {
  }

  lemma PhpLogin(p: Php, families: seq<Family>, x: Index, clock: int, user: User, issued: Token, now: int) returns (x': Index)
    requires Linked(p, families, x, clock) && clock <= now
    ensures Linked(PhpStep(p, Login(user, issued, now)).state, Step(families, Login(user, issued, now)).state, x', now)
  {
    hide FamilyLinked, OnChain, RowMatches;
    var p' := PhpStep(p, Login(user, issued, now)).state;
    var n := p.next;
    x' := Index(x.at + [[n]], x.name + [n]);
    forall f | 0 <= f < |families| ensures FamilyLinked(p', families[f], x'.at[f], x'.name[f]) && x.name[f] != n {
      assert FamilyLinked(p, families[f], x.at[f], x.name[f]);
      NameIsOld(p, families[f], x.at[f], x.name[f]);
      OtherFamilyLinked(p, p', families[f], x.at[f], x.name[f]);
    }
    NewFamilyLinked(p, user, VersionOf(p, user), issued, now);
    LoginRowsOnChain(p, p', x, x', n);
  }

  /** Rotation appends a row to the chain and closes the row before it. */
  lemma RotationLinksFamily(p: Php, family: Family, rows: seq<nat>, name: nat, clock: int, issued: Token, now: int)
    requires FamilyLinked(p, family, rows, name) && rows != [] && clock <= now
    requires rows[|rows| - 1] in p.rows && RowUsable(p, p.rows[rows[|rows| - 1]], now)
    requires p.rows[rows[|rows| - 1]].expiresAt <= clock + LIFETIME
    ensures FamilyLinked(RotateRow(p, rows[|rows| - 1], issued, now), Extend(family, issued, now), rows + [p.next], name)
  {
    var last := |rows| - 1;
    assert RowMatches(p, family, rows, name, last);
    var p' := RotateRow(p, rows[last], issued, now);
    var family', rows' := Extend(family, issued, now), rows + [p.next];
    IncreasingIds(p, family, rows, name);
    forall q | 0 <= q < |rows'| ensures RowMatches(p', family', rows', name, q) {
      if q < |rows| {
        assert RowMatches(p, family, rows, name, q);
      }
    }
  }

  lemma {:induction false} IncreasingIds(p: Php, family: Family, rows: seq<nat>, name: nat)
    requires FamilyLinked(p, family, rows, name)
    ensures forall q, r :: 0 <= q < r < |rows| ==> rows[q] < rows[r] && family.ends[q] <= family.ends[r]
  {
    forall q, r | 0 <= q < r < |rows| ensures rows[q] < rows[r] && family.ends[q] <= family.ends[r] {
      IncreasingBetween(p, family, rows, name, q, r);
    }
  }

  lemma {:induction false} IncreasingBetween(p: Php, family: Family, rows: seq<nat>, name: nat, q: nat, r: nat)
    requires FamilyLinked(p, family, rows, name) && q < r < |rows|
    ensures rows[q] < rows[r] && family.ends[q] <= family.ends[r]
    decreases r
  {
    assert RowMatches(p, family, rows, name, r - 1);
    if q < r - 1 {
      IncreasingBetween(p, family, rows, name, q, r - 1);
    }
  }

  lemma PhpRotation(p: Php, families: seq<Family>, x: Index, clock: int, f: nat, issued: Token, now: int) returns (x': Index)
    requires Linked(p, families, x, clock) && clock <= now && f < |families| && x.at[f] != []
    requires var i := x.at[f][|x.at[f]| - 1]; i in p.rows && RowUsable(p, p.rows[i], now)
    ensures var i := x.at[f][|x.at[f]| - 1];
            Linked(RotateRow(p, i, issued, now), families[f := Extend(families[f], issued, now)], x', now)
  {
    var i := x.at[f][|x.at[f]| - 1];
    var p' := RotateRow(p, i, issued, now);
    assert FamilyLinked(p, families[f], x.at[f], x.name[f]);
    assert RowMatches(p, families[f], x.at[f], x.name[f], |x.at[f]| - 1);
    RotationLinksFamily(p, families[f], x.at[f], x.name[f], clock, issued, now);
    x' := Index(x.at[f := x.at[f] + [p.next]], x.name);
    var families' := families[f := Extend(families[f], issued, now)];
    forall g | 0 <= g < |families| ensures FamilyLinked(p', families'[g], x'.at[g], x'.name[g]) {
      if g != f {
        assert FamilyLinked(p, families[g], x.at[g], x.name[g]);
        OtherFamilyLinked(p, p', families[g], x.at[g], x.name[g]);
      }
    }
    RotationStaysOnChains(p, families, x, clock, f, issued, now);
    hide FamilyLinked, OnChain;
  }

  lemma RotationStaysOnChains(p: Php, families: seq<Family>, x: Index, clock: int, f: nat, issued: Token, now: int)
    requires Linked(p, families, x, clock) && f < |families| && x.at[f] != []
    requires var i := x.at[f][|x.at[f]| - 1]; i in p.rows && p.rows[i].family == x.name[f]
    ensures var i := x.at[f][|x.at[f]| - 1];
            var p', x' := RotateRow(p, i, issued, now), Index(x.at[f := x.at[f] + [p.next]], x.name);
            forall k :: k in p'.rows ==> OnChain(p', x', k)
  {
    var i := x.at[f][|x.at[f]| - 1];
    var p', x' := RotateRow(p, i, issued, now), Index(x.at[f := x.at[f] + [p.next]], x.name);
    forall k | k in p'.rows ensures OnChain(p', x', k) {
      if k == p.next {
        assert x'.name[f] == p'.rows[k].family && k in x'.at[f];
      } else {
        StillOnChain(p, p', x, x', k);
      }
    }
  }

  /** Revoking every row of one family, and no other row, kills exactly that family. */
  lemma PhpKillFamily(p: Php, families: seq<Family>, x: Index, clock: int, f: nat, p': Php)
    requires Linked(p, families, x, clock) && f < |families|
    requires p' == p.(rows := p'.rows) && p'.rows == RevokeFamily(p.rows, x.name[f])
    ensures Linked(p', families[f := families[f].(dead := true)], x, clock)
  {
    var families' := families[f := families[f].(dead := true)];
    forall g | 0 <= g < |families| ensures FamilyLinked(p', families'[g], x.at[g], x.name[g]) {
      assert FamilyLinked(p, families[g], x.at[g], x.name[g]);
      if g != f {
        OtherFamilyLinked(p, p', families[g], x.at[g], x.name[g]);
      } else {
        forall q | 0 <= q < |x.at[g]| ensures RowMatches(p', families'[g], x.at[g], x.name[g], q) {
          assert RowMatches(p, families[g], x.at[g], x.name[g], q);
        }
      }
    }
    forall k | k in p'.rows ensures OnChain(p', x, k) {
      StillOnChain(p, p', x, x, k);
    }
  }

  /** Revoking the last row of a chain revokes the whole family: the other rows already were. */
  lemma LastRowIsFamily(p: Php, families: seq<Family>, x: Index, clock: int, f: nat)
    requires Linked(p, families, x, clock) && f < |families| && x.at[f] != [] && x.at[f][|x.at[f]| - 1] in p.rows
    ensures var i := x.at[f][|x.at[f]| - 1];
            p.rows[i := p.rows[i].(revoked := true)] == RevokeFamily(p.rows, x.name[f])
  {
    var i := x.at[f][|x.at[f]| - 1];
    var rows' := p.rows[i := p.rows[i].(revoked := true)];
    assert FamilyLinked(p, families[f], x.at[f], x.name[f]);
    assert RowMatches(p, families[f], x.at[f], x.name[f], |x.at[f]| - 1);
    forall k | k in p.rows ensures rows'[k] == RevokeFamily(p.rows, x.name[f])[k] {
      var g, q := WhereIs(p, families, x, clock, k);
    }
  }

  lemma PhpLogoutUser(p: Php, families: seq<Family>, x: Index, clock: int, user: User)
    requires Linked(p, families, x, clock)
    ensures Linked(LogoutUser(p, user), KillUser(families, user), x, clock)
  {
    var p' := LogoutUser(p, user);
    var families' := KillUser(families, user);
    forall f | 0 <= f < |families| ensures FamilyLinked(p', families'[f], x.at[f], x.name[f]) {
      assert FamilyLinked(p, families[f], x.at[f], x.name[f]);
      forall q | 0 <= q < |x.at[f]| ensures RowMatches(p', families'[f], x.at[f], x.name[f], q) {
        assert RowMatches(p, families[f], x.at[f], x.name[f], q);
      }
    }
    forall k | k in p'.rows ensures OnChain(p', x, k) {
      StillOnChain(p, p', x, x, k);
    }
  }

  // ---- Cleanup --------------------------------------------------------------------------------

  lemma {:induction false} EndedSplits(ends: seq<int>, now: int)
    requires forall q, r :: 0 <= q < r < |ends| ==> ends[q] <= ends[r]
    ensures forall q :: 0 <= q < |ends| ==> (q < Ended(ends, now) <==> ends[q] < now)
    decreases |ends|
  {
    if ends != [] && ends[0] < now {
      EndedSplits(ends[1..], now);
      forall q | 0 < q < |ends| ensures q < Ended(ends, now) <==> ends[q] < now {
        assert ends[1..][q - 1] == ends[q];
      }
    }
  }

  /** The expired rows of one chain are exactly its first ones. */
  lemma CleanupLinksFamily(p: Php, family: Family, rows: seq<nat>, name: nat, now: int)
    requires FamilyLinked(p, family, rows, name)
    ensures var k := Ended(family.ends, now);
            FamilyLinked(p.(rows := DropExpired(p.rows, now)), Forget(family, now), rows[k..], name)
  {
    var k := Ended(family.ends, now);
    var p' := p.(rows := DropExpired(p.rows, now));
    IncreasingIds(p, family, rows, name);
    EndedSplits(family.ends, now);
    forall q | 0 <= q < |rows[k..]| ensures RowMatches(p', Forget(family, now), rows[k..], name, q) {
      assert RowMatches(p, family, rows, name, k + q);
    }
  }

  lemma PhpCleanup(p: Php, families: seq<Family>, x: Index, clock: int, now: int) returns (x': Index)
    requires Linked(p, families, x, clock) && clock <= now
    ensures Linked(p.(rows := DropExpired(p.rows, now)), ForgetAll(families, now), x', now)
  {
    var p' := p.(rows := DropExpired(p.rows, now));
    hide RowMatches;
    x' := Index(seq(|families|, f requires 0 <= f < |families| && f < |x.at| && |families[f].ends| == |x.at[f]| =>
                      x.at[f][Ended(families[f].ends, now)..]), x.name);
    forall f | 0 <= f < |families| ensures FamilyLinked(p', ForgetAll(families, now)[f], x'.at[f], x'.name[f]) {
      CleanupLinksFamily(p, families[f], x.at[f], x.name[f], now);
    }
    forall i | i in p'.rows ensures OnChain(p', x', i) {
      var f, q := WhereIs(p, families, x, clock, i);
      IncreasingIds(p, families[f], x.at[f], x.name[f]);
      EndedSplits(families[f].ends, now);
      assert x'.at[f][q - Ended(families[f].ends, now)] == i;
    }
  }

  // ---- One step, then whole runs ----------------------------------------------------------------

  lemma LaterClock(p: Php, families: seq<Family>, x: Index, clock: int, now: int)
    requires Linked(p, families, x, clock) && clock <= now
    ensures Linked(p, families, x, now)
  {
  }

  lemma PhpRefresh(p: Php, families: seq<Family>, used: set<Token>, x: Index, clock: int, token: Token, issued: Token, now: int)
    returns (x': Index)
    requires Linked(p, families, x, clock) && WellFormed(families, used) && clock <= now
    ensures Linked(PhpStep(p, Refresh(token, issued, now)).state, Step(families, Refresh(token, issued, now)).state, x', now)
    ensures PhpStep(p, Refresh(token, issued, now)).answer == Step(families, Refresh(token, issued, now)).answer
  {
    x' := x;
    var f, q := RowSearch(p, families, used, x, clock, token);
    LaterClock(p, families, x, clock, now);
    var found := FindRow(p.rows, p.next, token);
    if found.Some? {
      var i := found.value;
      if p.rows[i].rotated {
        PhpKillFamily(p, families, x, now, f, p.(rows := RevokeFamily(p.rows, p.rows[i].family)));
      } else if RowUsable(p, p.rows[i], now) {
        x' := PhpRotation(p, families, x, clock, f, issued, now);
      }
    }
  }

  lemma PhpLogouts(p: Php, families: seq<Family>, used: set<Token>, x: Index, clock: int, r: Request)
    requires Linked(p, families, x, clock) && WellFormed(families, used) && clock <= r.now && (r.Logout? || r.LogoutAll?)
    ensures Linked(PhpStep(p, r).state, Step(families, r).state, x, r.now)
    ensures PhpStep(p, r).answer == Step(families, r).answer
  {
    var f, q := RowSearch(p, families, used, x, clock, r.token);
    LaterClock(p, families, x, clock, r.now);
    var found := FindRow(p.rows, p.next, r.token);
    hide FindRow, FindFamily, WellFormed, OnChain, FamilyLinked, RevokeFamily, LogoutUser, KillUser;
    if found.Some? && RowUsable(p, p.rows[found.value], r.now) {
      if r.Logout? {
        LastRowIsFamily(p, families, x, clock, f);
        PhpKillFamily(p, families, x, r.now, f, p.(rows := RevokeFamily(p.rows, x.name[f])));
      } else {
        PhpLogoutUser(p, families, x, r.now, families[f].user);
      }
    }
  }

  /** One PHP step is one abstract step with the same answer. */
  lemma PhpRefines(p: Php, families: seq<Family>, used: set<Token>, x: Index, clock: int, r: Request) returns (x': Index)
    requires Linked(p, families, x, clock) && WellFormed(families, used) && clock <= r.now
    ensures Linked(PhpStep(p, r).state, Step(families, r).state, x', r.now)
    ensures PhpStep(p, r).answer == Step(families, r).answer
  {
    hide Linked, WellFormed;
    match r
    case Login(user, issued, now) => x' := PhpLogin(p, families, x, clock, user, issued, now);
    case Refresh(token, issued, now) => x' := PhpRefresh(p, families, used, x, clock, token, issued, now);
    case Logout(_, _) => x' := x; PhpLogouts(p, families, used, x, clock, r);
    case LogoutAll(_, _) => x' := x; PhpLogouts(p, families, used, x, clock, r);
    case Cleanup(now) => x' := PhpCleanup(p, families, x, clock, now);
  }

  function Answers(families: seq<Family>, requests: seq<Request>): (answers: seq<Answer>)
    ensures |answers| == |requests|
    decreases |requests|
  {
    if requests == [] then []
    else var reply := Step(families, requests[0]); [reply.answer] + Answers(reply.state, requests[1..])
  }

  function After(families: seq<Family>, requests: seq<Request>): seq<Family>
    decreases |requests|
  {
    if requests == [] then families else After(Step(families, requests[0]).state, requests[1..])
  }

  function PhpAnswers(p: Php, requests: seq<Request>): (answers: seq<Answer>)
    ensures |answers| == |requests|
    decreases |requests|
  {
    if requests == [] then []
    else var reply := PhpStep(p, requests[0]); [reply.answer] + PhpAnswers(reply.state, requests[1..])
  }

  function PhpAfter(p: Php, requests: seq<Request>): Php
    decreases |requests|
  {
    if requests == [] then p else PhpAfter(PhpStep(p, requests[0]).state, requests[1..])
  }

  function TsAnswers(sessions: seq<Session>, requests: seq<Request>): (answers: seq<Answer>)
    ensures |answers| == |requests|
    decreases |requests|
  {
    if requests == [] then []
    else var reply := TsStep(sessions, requests[0]); [reply.answer] + TsAnswers(reply.state, requests[1..])
  }

  function TsAfter(sessions: seq<Session>, requests: seq<Request>): seq<Session>
    decreases |requests|
  {
    if requests == [] then sessions else TsAfter(TsStep(sessions, requests[0]).state, requests[1..])
  }

  /** Every issued token is new when it is issued, and the clock never goes back. */
  predicate Legal(used: set<Token>, requests: seq<Request>, clock: int)
    decreases |requests|
  {
    requests == [] ||
    (IssuedBy(requests[0]) !! used && clock <= requests[0].now && Legal(used + IssuedBy(requests[0]), requests[1..], requests[0].now))
  }

  lemma {:induction false} TsFollows(sessions: seq<Session>, families: seq<Family>, used: set<Token>, requests: seq<Request>, clock: int)
    requires AllMirror(sessions, families) && WellFormed(families, used) && Legal(used, requests, clock)
    requires forall r :: r in requests ==> !r.Cleanup?
    ensures TsAnswers(sessions, requests) == Answers(families, requests)
    ensures AllMirror(TsAfter(sessions, requests), After(families, requests))
    decreases |requests|
  {
    hide AllMirror, WellFormed, Step, TsStep;
    if requests != [] {
      TsRefines(sessions, families, used, requests[0]);
      StepKeepsWellFormed(families, used, requests[0]);
      TsFollows(TsStep(sessions, requests[0]).state, Step(families, requests[0]).state,
                used + IssuedBy(requests[0]), requests[1..], requests[0].now);
    }
  }

  lemma {:induction false} PhpFollows(p: Php, families: seq<Family>, used: set<Token>, x: Index, clock: int, requests: seq<Request>)
    returns (x': Index, clock': int)
    requires Linked(p, families, x, clock) && WellFormed(families, used) && Legal(used, requests, clock)
    ensures PhpAnswers(p, requests) == Answers(families, requests)
    ensures Linked(PhpAfter(p, requests), After(families, requests), x', clock')
    decreases |requests|
  {
    hide Linked, WellFormed, Step, PhpStep;
    x', clock' := x, clock;
    if requests != [] {
      x' := PhpRefines(p, families, used, x, clock, requests[0]);
      StepKeepsWellFormed(families, used, requests[0]);
      x', clock' := PhpFollows(PhpStep(p, requests[0]).state, Step(families, requests[0]).state,
                               used + IssuedBy(requests[0]), x', requests[0].now, requests[1..]);
    }
  }

  const EMPTY_TABLE := Php(map[], 0, map[])

  lemma PhpRunIsLinked(requests: seq<Request>, clock: int) returns (x: Index, clock': int)
    requires Legal({}, requests, clock)
    ensures PhpAnswers(EMPTY_TABLE, requests) == Answers([], requests)
    ensures Linked(PhpAfter(EMPTY_TABLE, requests), After([], requests), x, clock')
  {
    x, clock' := PhpFollows(EMPTY_TABLE, [], {}, Index([], []), clock, requests);
  }

  /** The PHP and the TypeScript service answer every request sequence without cleanup alike. */
  lemma SameDecisions(requests: seq<Request>, clock: int)
    requires Legal({}, requests, clock)
    requires forall r :: r in requests ==> !r.Cleanup?
    ensures PhpAnswers(EMPTY_TABLE, requests) == TsAnswers([], requests) == Answers([], requests)
  {
    TsFollows([], [], {}, requests, clock);
    var _, _ := PhpRunIsLinked(requests, clock);
  }
}
