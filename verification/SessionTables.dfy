/** The two session services as objects that update their tables in place; each operation is
    the corresponding step of `Sessions`. */
module SessionTables {
  import opened Common
  import opened Sessions

  /** `RefreshSessionService` over the table `refresh_sessions`. */
  class RefreshSessionService {
    var rows: map<nat, Row>
    var next: nat
    var versions: map<User, nat>

    ghost function State(): Php
      reads this
    {
      Php(rows, next, versions)
    }

    constructor ()
      ensures State() == Php(map[], 0, map[])
    {
      rows, next, versions := map[], 0, map[];
    }

    method SessionVersion(user: User) returns (version: nat)
      ensures version == VersionOf(State(), user)
    {
      version := 1;
      if user in versions {
        version := versions[user];
      }
    }

    /** The unique hash column, searched from the newest row down. */
    method FindLocked(token: Token) returns (found: Option<nat>)
      ensures found == FindRow(rows, next, token)
    {
      var below := next;
      while below > 0
        invariant 0 <= below <= next && FindRow(rows, next, token) == FindRow(rows, below, token)
      {
        if below - 1 in rows && rows[below - 1].token == token {
          return Some(below - 1);
        }
        below := below - 1;
      }
      found := None;
    }

    method Insert(user: User, version: nat, family: Option<nat>, issued: Token, now: int)
      modifies this
      ensures State() == Issue(old(State()), user, version, family, issued, now)
    {
      var group := next;
      if family.Some? {
        group := family.value;
      }
      rows := rows[next := Row(user, group, issued, version, now + LIFETIME, false, false, None)];
      next := next + 1;
    }

    method Usable(row: Row, now: int) returns (usable: bool)
      ensures usable == RowUsable(State(), row, now)
    {
      var version := SessionVersion(row.user);
      usable := !row.revoked && now < row.expiresAt && version == row.version;
    }

    method SignIn(user: User, issued: Token, now: int) returns (answer: Answer)
      modifies this
      ensures Reply(State(), answer) == PhpStep(old(State()), Login(user, issued, now))
    {
      var version := SessionVersion(user);
      Insert(user, version, None, issued, now);
      answer := Issued;
    }

    method Rotate(token: Token, issued: Token, now: int) returns (answer: Answer)
      modifies this
      ensures Reply(State(), answer) == PhpStep(old(State()), Refresh(token, issued, now))
    {
      var found := FindLocked(token);
      if found.None? {
        return AuthRequired;
      }
      var i := found.value;
      var session := rows[i];
      if session.rotated {
        rows := map k | k in rows :: if rows[k].family == session.family then rows[k].(revoked := true) else rows[k];
        return Replayed;
      }
      var usable := Usable(session, now);
      if !usable {
        return AuthRequired;
      }
      rows := rows[i := session.(rotated := true, revoked := true, replacedBy := Some(next))];
      Insert(session.user, session.version, Some(session.family), issued, now);
      answer := Rotated;
    }

    method LogoutCurrent(token: Token, now: int) returns (answer: Answer)
      modifies this
      ensures Reply(State(), answer) == PhpStep(old(State()), Logout(token, now))
    {
      var found := FindLocked(token);
      if found.None? {
        return AuthRequired;
      }
      var usable := Usable(rows[found.value], now);
      if !usable {
        return AuthRequired;
      }
      rows := rows[found.value := rows[found.value].(revoked := true)];
      answer := LoggedOut;
    }

    method LogoutEverywhere(token: Token, now: int) returns (answer: Answer)
      modifies this
      ensures Reply(State(), answer) == PhpStep(old(State()), LogoutAll(token, now))
    {
      var found := FindLocked(token);
      if found.None? {
        return AuthRequired;
      }
      var user := rows[found.value].user;
      var usable := Usable(rows[found.value], now);
      if !usable {
        return AuthRequired;
      }
      var version := SessionVersion(user);
      versions := versions[user := version + 1];
      rows := map k | k in rows :: if rows[k].user == user then rows[k].(revoked := true) else rows[k];
      answer := LoggedOut;
    }

    method CleanupExpired(now: int) returns (deleted: nat)
      modifies this
      ensures State() == PhpStep(old(State()), Cleanup(now)).state
      ensures deleted == |old(rows)| - |rows|
    {
      var kept := map k | k in rows && now <= rows[k].expiresAt :: rows[k];
      FewerKeys(kept, rows);
      deleted := |rows| - |kept|;
      rows := kept;
    }
  }

  lemma FewerKeys(kept: map<nat, Row>, rows: map<nat, Row>)
    requires kept.Keys <= rows.Keys
    ensures |kept| <= |rows|
  {
    var dropped := rows.Keys - kept.Keys;
    assert rows.Keys == kept.Keys + dropped;
    assert |kept| == |kept.Keys| && |rows| == |rows.Keys|;
  }

  /** `IdentityService` over `state.sessions`; `None` stands for the thrown AUTH_REQUIRED. */
  class IdentityService {
    var sessions: seq<Session>

    constructor ()
      ensures sessions == []
    {
      sessions := [];
    }

    method FindReplayed(token: Token) returns (found: Option<nat>)
      ensures found == FindPrevious(sessions, token, 0)
    {
      var i := 0;
      while i < |sessions|
        invariant i <= |sessions| && FindPrevious(sessions, token, 0) == FindPrevious(sessions, token, i)
      {
        if token in sessions[i].previous {
          return Some(i);
        }
        i := i + 1;
      }
      found := None;
    }

    method Find(token: Token, now: int, mustLive: bool) returns (found: Option<nat>)
      ensures found == FindCurrent(sessions, token, now, mustLive, 0)
    {
      var i := 0;
      while i < |sessions|
        invariant i <= |sessions| && FindCurrent(sessions, token, now, mustLive, 0) == FindCurrent(sessions, token, now, mustLive, i)
      {
        if Matches(sessions[i], token, now, mustLive) {
          return Some(i);
        }
        i := i + 1;
      }
      found := None;
    }

    method IssueSession(user: User, issued: Token, now: int) returns (answer: Answer)
      modifies this
      ensures Reply(sessions, answer) == TsStep(old(sessions), Login(user, issued, now))
    {
      sessions := sessions + [Session(user, issued, [], false, now + LIFETIME)];
      answer := Issued;
    }

    method RefreshSession(token: Token, issued: Token, now: int) returns (answer: Answer)
      modifies this
      ensures Reply(sessions, answer) == TsStep(old(sessions), Refresh(token, issued, now))
    {
      var replayed := FindReplayed(token);
      if replayed.Some? {
        var i := replayed.value;
        sessions := sessions[i := sessions[i].(revoked := true)];
        return Replayed;
      }
      var found := Find(token, now, true);
      if found.None? {
        return AuthRequired;
      }
      var i := found.value;
      var session := sessions[i];
      sessions := sessions[i := session.(previous := session.previous + [session.tokenHash], tokenHash := issued, expiresAt := now + LIFETIME)];
      answer := Rotated;
    }

    method LogoutSession(token: Token, now: int) returns (answer: Answer)
      modifies this
      ensures Reply(sessions, answer) == TsStep(old(sessions), Logout(token, now))
    {
      var found := Find(token, now, false);
      if found.None? || sessions[found.value].revoked || sessions[found.value].expiresAt <= now {
        return AuthRequired;
      }
      sessions := sessions[found.value := sessions[found.value].(revoked := true)];
      answer := LoggedOut;
    }

    method LogoutAllSessions(token: Token, now: int) returns (answer: Answer)
      modifies this
      ensures Reply(sessions, answer) == TsStep(old(sessions), LogoutAll(token, now))
    {
      var found := Find(token, now, false);
      if found.None? || sessions[found.value].revoked || sessions[found.value].expiresAt <= now {
        return AuthRequired;
      }
      var user := sessions[found.value].user;
      ghost var before := sessions;
      var i := 0;
      while i < |sessions|
        invariant i <= |sessions| == |before|
        invariant forall k :: 0 <= k < i ==> sessions[k] == if before[k].user == user then before[k].(revoked := true) else before[k]
        invariant forall k :: i <= k < |sessions| ==> sessions[k] == before[k]
      {
        if sessions[i].user == user {
          sessions := sessions[i := sessions[i].(revoked := true)];
        }
        i := i + 1;
      }
      assert sessions == RevokeSessions(before, user);
      answer := LoggedOut;
    }
  }
}
