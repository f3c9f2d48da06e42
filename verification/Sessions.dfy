/** Refresh sessions three times: as one abstract machine of token families, as the PHP service
    keeps them (one row per token) and as the TypeScript service keeps them (one record per
    family). Tokens stand for their hashes, which are taken to be injective; users are active,
    the CSRF token is the right one, and every issued token is new. */
module Sessions {
  import opened Common

  type Token = nat
  type User = nat

  /** Thirty days, in seconds. */
  const LIFETIME := 30 * 24 * 60 * 60

  datatype Request =
    | Login(user: User, issued: Token, now: int)
    | Refresh(token: Token, issued: Token, now: int)
    | Logout(token: Token, now: int)
    | LogoutAll(token: Token, now: int)
    | Cleanup(now: int)

  datatype Answer = Issued | Rotated | Replayed | AuthRequired | LoggedOut | Cleaned

  datatype Reply<S> = Reply(state: S, answer: Answer)

  // ---- The abstract machine -------------------------------------------------------------

  /** The tokens of one login, oldest first, and when each ends; only the last may be used. */
  datatype Family = Family(user: User, chain: seq<Token>, ends: seq<int>, dead: bool)

  function FindFamily(families: seq<Family>, token: Token, from: nat): (f: Option<nat>)
    requires from <= |families|
    ensures f.Some? ==> from <= f.value < |families| && token in families[f.value].chain
    ensures f.None? ==> forall k :: from <= k < |families| ==> token !in families[k].chain
    decreases |families| - from
  {
    if from == |families| then None
    else if token in families[from].chain then Some(from)
    else FindFamily(families, token, from + 1)
  }

  predicate Current(family: Family, token: Token) {
    family.chain != [] && family.chain[|family.chain| - 1] == token
  }

  predicate Usable(family: Family, token: Token, now: int) {
    && Current(family, token) && !family.dead
    && |family.ends| == |family.chain| && now < family.ends[|family.ends| - 1]
  }

  function Extend(family: Family, issued: Token, now: int): Family {
    family.(chain := family.chain + [issued], ends := family.ends + [now + LIFETIME])
  }

  function KillUser(families: seq<Family>, user: User): seq<Family> {
    seq(|families|, i requires 0 <= i < |families| =>
      if families[i].user == user then families[i].(dead := true) else families[i])
  }

  /** How many leading tokens have ended. */
  function Ended(ends: seq<int>, now: int): (k: nat)
    ensures k <= |ends|
  {
    if ends == [] || now <= ends[0] then 0 else 1 + Ended(ends[1..], now)
  }

  function Forget(family: Family, now: int): Family {
    var k := Ended(family.ends, now);
    if k <= |family.chain| then family.(chain := family.chain[k..], ends := family.ends[k..]) else family
  }

  function ForgetAll(families: seq<Family>, now: int): seq<Family> {
    seq(|families|, i requires 0 <= i < |families| => Forget(families[i], now))
  }

  function Step(families: seq<Family>, r: Request): Reply<seq<Family>> {
    match r
    case Login(user, issued, now) => Reply(families + [Family(user, [issued], [now + LIFETIME], false)], Issued)
    case Refresh(token, issued, now) =>
      (match FindFamily(families, token, 0)
       case None => Reply(families, AuthRequired)
       case Some(f) =>
         if !Current(families[f], token) then Reply(families[f := families[f].(dead := true)], Replayed)
         else if !Usable(families[f], token, now) then Reply(families, AuthRequired)
         else Reply(families[f := Extend(families[f], issued, now)], Rotated))
    case Logout(token, now) =>
      (match FindFamily(families, token, 0)
       case Some(f) =>
         if Usable(families[f], token, now) then Reply(families[f := families[f].(dead := true)], LoggedOut) else Reply(families, AuthRequired)
       case None => Reply(families, AuthRequired))
    case LogoutAll(token, now) =>
      (match FindFamily(families, token, 0)
       case Some(f) =>
         if Usable(families[f], token, now) then Reply(KillUser(families, families[f].user), LoggedOut) else Reply(families, AuthRequired)
       case None => Reply(families, AuthRequired))
    case Cleanup(now) => Reply(ForgetAll(families, now), Cleaned)
  }

  // ---- PHP: one row per token ------------------------------------------------------------

  datatype Row = Row(user: User, family: nat, token: Token, version: nat, expiresAt: int,
                     rotated: bool, revoked: bool, replacedBy: Option<nat>)

  /** The table `refresh_sessions` by id, the next new id, and `users.session_version`. */
  datatype Php = Php(rows: map<nat, Row>, next: nat, versions: map<User, nat>)

  function VersionOf(p: Php, user: User): nat {
    if user in p.versions then p.versions[user] else 1
  }

  /** `findLocked`: the hash column is unique, so at most one row has the token. */
  function FindRow(rows: map<nat, Row>, below: nat, token: Token): (i: Option<nat>)
    ensures i.Some? ==> i.value < below && i.value in rows && rows[i.value].token == token
    ensures i.None? ==> forall k :: k in rows && k < below ==> rows[k].token != token
  {
    if below == 0 then None
    else if below - 1 in rows && rows[below - 1].token == token then Some(below - 1)
    else FindRow(rows, below - 1, token)
  }

  /** `RefreshSessionIssuer::issue`; a new family takes the id of its first row. */
  function Issue(p: Php, user: User, version: nat, family: Option<nat>, issued: Token, now: int): Php {
    var group := if family.Some? then family.value else p.next;
    Php(p.rows[p.next := Row(user, group, issued, version, now + LIFETIME, false, false, None)], p.next + 1, p.versions)
  }

  function RevokeFamily(rows: map<nat, Row>, family: nat): map<nat, Row> {
    map i | i in rows :: if rows[i].family == family then rows[i].(revoked := true) else rows[i]
  }

  function RevokeUser(rows: map<nat, Row>, user: User): map<nat, Row> {
    map i | i in rows :: if rows[i].user == user then rows[i].(revoked := true) else rows[i]
  }

  /** `assertUsable`. */
  predicate RowUsable(p: Php, row: Row, now: int) {
    !row.revoked && now < row.expiresAt && row.version == VersionOf(p, row.user)
  }

  /** The rotated row names its replacement, which joins the same family. */
  function RotateRow(p: Php, i: nat, issued: Token, now: int): Php
    requires i in p.rows
  {
    var row := p.rows[i];
    var marked := p.(rows := p.rows[i := row.(rotated := true, revoked := true, replacedBy := Some(p.next))]);
    Issue(marked, row.user, row.version, Some(row.family), issued, now)
  }

  function LogoutUser(p: Php, user: User): Php {
    Php(RevokeUser(p.rows, user), p.next, p.versions[user := VersionOf(p, user) + 1])
  }

  function DropExpired(rows: map<nat, Row>, now: int): map<nat, Row> {
    map i | i in rows && now <= rows[i].expiresAt :: rows[i]
  }

  function PhpStep(p: Php, r: Request): Reply<Php> {
    match r
    case Login(user, issued, now) => Reply(Issue(p, user, VersionOf(p, user), None, issued, now), Issued)
    case Refresh(token, issued, now) =>
      (match FindRow(p.rows, p.next, token)
       case None => Reply(p, AuthRequired)
       case Some(i) =>
         if p.rows[i].rotated then Reply(p.(rows := RevokeFamily(p.rows, p.rows[i].family)), Replayed)
         else if !RowUsable(p, p.rows[i], now) then Reply(p, AuthRequired)
         else Reply(RotateRow(p, i, issued, now), Rotated))
    case Logout(token, now) =>
      (match FindRow(p.rows, p.next, token)
       case Some(i) =>
         if RowUsable(p, p.rows[i], now) then Reply(p.(rows := p.rows[i := p.rows[i].(revoked := true)]), LoggedOut) else Reply(p, AuthRequired)
       case None => Reply(p, AuthRequired))
    case LogoutAll(token, now) =>
      (match FindRow(p.rows, p.next, token)
       case Some(i) =>
         if RowUsable(p, p.rows[i], now) then Reply(LogoutUser(p, p.rows[i].user), LoggedOut) else Reply(p, AuthRequired)
       case None => Reply(p, AuthRequired))
    case Cleanup(now) => Reply(p.(rows := DropExpired(p.rows, now)), Cleaned)
  }

  // ---- TypeScript: one record per family ---------------------------------------------------

  datatype Session = Session(user: User, tokenHash: Token, previous: seq<Token>, revoked: bool, expiresAt: int)

  function FindPrevious(sessions: seq<Session>, token: Token, from: nat): (i: Option<nat>)
    requires from <= |sessions|
    ensures i.Some? ==> from <= i.value < |sessions| && token in sessions[i.value].previous
    ensures i.None? ==> forall k :: from <= k < |sessions| ==> token !in sessions[k].previous
    decreases |sessions| - from
  {
    if from == |sessions| then None
    else if token in sessions[from].previous then Some(from)
    else FindPrevious(sessions, token, from + 1)
  }

  predicate Matches(s: Session, token: Token, now: int, mustLive: bool) {
    s.tokenHash == token && (mustLive ==> !s.revoked && now < s.expiresAt)
  }

  /** The first session with this current token that passes the other tests of the search. */
  function FindCurrent(sessions: seq<Session>, token: Token, now: int, mustLive: bool, from: nat): (i: Option<nat>)
    requires from <= |sessions|
    ensures i.Some? ==> from <= i.value < |sessions| && Matches(sessions[i.value], token, now, mustLive)
    ensures i.None? ==> forall k :: from <= k < |sessions| ==> !Matches(sessions[k], token, now, mustLive)
    decreases |sessions| - from
  {
    if from == |sessions| then None
    else if Matches(sessions[from], token, now, mustLive) then Some(from)
    else FindCurrent(sessions, token, now, mustLive, from + 1)
  }

  function RevokeSessions(sessions: seq<Session>, user: User): seq<Session> {
    seq(|sessions|, i requires 0 <= i < |sessions| => if sessions[i].user == user then sessions[i].(revoked := true) else sessions[i])
  }

  /** `authenticate`: the session whose current token this is, if it still lives. */
  function Authenticate(sessions: seq<Session>, token: Token, now: int): (i: Option<nat>)
    ensures i.Some? ==> i.value < |sessions|
  {
    match FindCurrent(sessions, token, now, false, 0)
    case Some(k) => if sessions[k].revoked || sessions[k].expiresAt <= now then None else Some(k)
    case None => None
  }

  /** `refresh`, `logout` and `logoutAll`, the last two behind `authenticate` as the router calls
      them. A family id belongs to exactly one record, so revoking a family revokes one record;
      the deletion of dead records by the scheduler is not part of the model. */
  function TsStep(sessions: seq<Session>, r: Request): Reply<seq<Session>> {
    match r
    case Login(user, issued, now) => Reply(sessions + [Session(user, issued, [], false, now + LIFETIME)], Issued)
    case Refresh(token, issued, now) =>
      (match FindPrevious(sessions, token, 0)
       case Some(i) => Reply(sessions[i := sessions[i].(revoked := true)], Replayed)
       case None =>
         match FindCurrent(sessions, token, now, true, 0)
         case None => Reply(sessions, AuthRequired)
         case Some(i) =>
           var s := sessions[i];
           Reply(sessions[i := s.(previous := s.previous + [s.tokenHash], tokenHash := issued, expiresAt := now + LIFETIME)], Rotated))
    case Logout(token, now) =>
      (match Authenticate(sessions, token, now)
       case None => Reply(sessions, AuthRequired)
       case Some(_) =>
         match FindCurrent(sessions, token, now, false, 0)
         case Some(i) => Reply(sessions[i := sessions[i].(revoked := true)], LoggedOut)
         case None => Reply(sessions, LoggedOut))
    case LogoutAll(token, now) =>
      (match Authenticate(sessions, token, now)
       case None => Reply(sessions, AuthRequired)
       case Some(i) => Reply(RevokeSessions(sessions, sessions[i].user), LoggedOut))
    case Cleanup(now) => Reply(sessions, Cleaned)
  }
}
