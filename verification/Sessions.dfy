/** The in-memory session store: sliding idle timeout, absolute expiry and revocation over whole runs. */
module Sessions {
  import opened Wrappers
  import Text

  type Time = int
  type UserId = nat

  datatype User = User(username: string, email: string, role: string, status: string)

  datatype Session = Session(id: nat, userId: UserId, hash: string, expiresAt: Time, lastSeenAt: Time, createdAt: Time,
                             revokedAt: Option<Time>)

  type Users = map<UserId, User>
  type Table = map<string, Session>

  predicate ValidRole(role: string) {
    role in {"admin", "developer", "viewer"}
  }

  predicate ValidStatus(status: string) {
    status in {"active", "disabled"}
  }

  predicate IsActive(users: Users, id: UserId) {
    id in users && users[id].status == "active"
  }

  /** Rejected for revocation, absolute expiry or idleness; idleTimeout <= 0 turns the idle check off. */
  predicate Dead(s: Session, now: Time, idleTimeout: int) {
    s.revokedAt.Some? || now > s.expiresAt || (idleTimeout > 0 && now - s.lastSeenAt > idleTimeout)
  }

  /** A lookup is accepted exactly when the session lives and its user is active. */
  predicate Accepted(users: Users, t: Table, hash: string, now: Time, idleTimeout: int) {
    hash in t && !Dead(t[hash], now, idleTimeout) && IsActive(users, t[hash].userId)
  }

  function Seen(t: Table, hash: string, now: Time): Table
    requires hash in t
  {
    t[hash := t[hash].(lastSeenAt := now)]
  }

  function Revoked(t: Table, hash: string, now: Time): Table {
    if hash in t && t[hash].revokedAt.None? then t[hash := t[hash].(revokedAt := Some(now))] else t
  }

  function OthersRevoked(t: Table, userId: UserId, current: string, now: Time): Table {
    map k | k in t ::
      if t[k].userId == userId && t[k].hash != current && t[k].revokedAt.None? then t[k].(revokedAt := Some(now))
      else t[k]
  }

  /** Sessions are filed under their own hash. */
  predicate Filed(t: Table) {
    forall k | k in t :: t[k].hash == k
  }

  class MemoryStore {
    var users: Users
    var sessions: Table

    constructor ()
      ensures users == map[] && sessions == map[]
    {
      users, sessions := map[], map[];
    }

    method CreateSession(id: nat, userId: UserId, tokenHash: string, expiresAt: Time, now: Time)
      modifies this`sessions
      ensures sessions == old(sessions)[tokenHash := Session(id, userId, tokenHash, expiresAt, now, now, None)]
      ensures Filed(old(sessions)) ==> Filed(sessions)
      ensures Store(users, sessions) ==
              Apply(0, Store(users, old(sessions)), Create(id, userId, tokenHash, expiresAt, now))
    {
      sessions := sessions[tokenHash := Session(id, userId, tokenHash, expiresAt, now, now, None)];
    }

    /** The user and the session, or none where the source returns ErrNoRows. */
    method SessionByHash(tokenHash: string, now: Time, idleTimeout: int) returns (found: Option<(User, Session)>)
      modifies this`sessions
      ensures found.Some? <==>
                && tokenHash in old(sessions)
                && var s := old(sessions)[tokenHash];
                   && s.revokedAt.None? && now <= s.expiresAt && (idleTimeout > 0 ==> now <= s.lastSeenAt + idleTimeout)
                   && s.userId in users && users[s.userId].status == "active"
      ensures found.None? ==> sessions == old(sessions)
      ensures found.Some? ==>
                && sessions == old(sessions)[tokenHash := old(sessions)[tokenHash].(lastSeenAt := now)]
                && found.value.1 == sessions[tokenHash]
                && found.value.1.userId in users && found.value.0 == users[found.value.1.userId]
      ensures Store(users, sessions) == Apply(idleTimeout, Store(users, old(sessions)), Lookup(tokenHash, now))
    {
      if tokenHash !in sessions {
        return None;
      }
      var session := sessions[tokenHash];
      if session.revokedAt.Some? || now > session.expiresAt
         || (idleTimeout > 0 && now - session.lastSeenAt > idleTimeout) {
        return None;
      }
      if session.userId !in users || users[session.userId].status != "active" {
        return None;
      }
      session := session.(lastSeenAt := now);
      sessions := sessions[tokenHash := session];
      found := Some((users[session.userId], session));
    }

    method RevokeSession(tokenHash: string, now: Time)
      modifies this`sessions
      ensures sessions ==
                if tokenHash in old(sessions) && old(sessions)[tokenHash].revokedAt.None? then
                  old(sessions)[tokenHash := old(sessions)[tokenHash].(revokedAt := Some(now))]
                else old(sessions)
      ensures Store(users, sessions) == Apply(0, Store(users, old(sessions)), Revoke(tokenHash, now))
    {
      if tokenHash in sessions && sessions[tokenHash].revokedAt.None? {
        sessions := sessions[tokenHash := sessions[tokenHash].(revokedAt := Some(now))];
      }
    }

    method RevokeOtherSessions(userId: UserId, currentHash: string, now: Time)
      modifies this`sessions
      ensures sessions == map k | k in old(sessions) ::
          var s := old(sessions)[k];
          if s.userId == userId && s.hash != currentHash && s.revokedAt.None? then s.(revokedAt := Some(now)) else s
      ensures Store(users, sessions) == Apply(0, Store(users, old(sessions)), RevokeOthers(userId, currentHash, now))
    {
      var keys := sessions.Keys;
      while keys != {}
        invariant keys <= sessions.Keys == old(sessions).Keys
        invariant forall k | k in sessions ::
          sessions[k] ==
          if k in keys then old(sessions)[k] else OthersRevoked(old(sessions), userId, currentHash, now)[k]
        decreases keys
      {
        var key :| key in keys;
        var session := sessions[key];
        if session.userId == userId && session.hash != currentHash && session.revokedAt.None? {
          session := session.(revokedAt := Some(now));
          sessions := sessions[key := session];
        }
        keys := keys - {key};
      }
    }

    /** UpdateUser with only a status: the patched record must be valid as a whole. */
    method SetUserStatus(id: UserId, status: string) returns (ok: bool)
      modifies this`users
      ensures ok <==> && id in old(users) && Text.TrimSpace(status) in {"active", "disabled"}
                      && old(users)[id].role in {"admin", "developer", "viewer"}
                      && old(users)[id].username != "" && old(users)[id].email != ""
      ensures users == if ok then old(users)[id := old(users)[id].(status := Text.TrimSpace(status))] else old(users)
    {
      if id !in users {
        return false;
      }
      var record := users[id].(status := Text.TrimSpace(status));
      if !ValidRole(record.role) || !ValidStatus(record.status) || record.username == "" || record.email == "" {
        return false;
      }
      users := users[id := record];
      ok := true;
    }
  }

  datatype Op =
    | Create(id: nat, userId: UserId, hash: string, expiresAt: Time, now: Time)
    | Lookup(hash: string, now: Time)
    | Revoke(hash: string, now: Time)
    | RevokeOthers(userId: UserId, hash: string, now: Time)
    | ChangeUsers(users: Users, now: Time)

  datatype Store = Store(users: Users, sessions: Table)

  /** One operation; the user operations together may change the users in any way. */
  function Apply(idle: int, st: Store, op: Op): Store {
    match op
    case Create(id, userId, hash, expiresAt, now) =>
      st.(sessions := st.sessions[hash := Session(id, userId, hash, expiresAt, now, now, None)])
    case Lookup(hash, now) =>
      if Accepted(st.users, st.sessions, hash, now, idle) then st.(sessions := Seen(st.sessions, hash, now)) else st
    case Revoke(hash, now) => st.(sessions := Revoked(st.sessions, hash, now))
    case RevokeOthers(userId, hash, now) => st.(sessions := OthersRevoked(st.sessions, userId, hash, now))
    case ChangeUsers(users, _) => st.(users := users)
  }

  function Play(idle: int, st: Store, ops: seq<Op>): Store {
    if ops == [] then st else Apply(idle, Play(idle, st, ops[..|ops| - 1]), ops[|ops| - 1])
  }

  /** The clock runs forward from `from`, and session hash h is not issued again. */
  ghost predicate Later(ops: seq<Op>, from: Time, h: string) {
    && (forall i | 0 <= i < |ops| :: ops[i].now >= from && !(ops[i].Create? && ops[i].hash == h))
    && (forall i, j | 0 <= i < j < |ops| :: ops[i].now <= ops[j].now)
  }

  lemma StepKeepsDead(idle: int, st: Store, op: Op, h: string, t: Time)
    requires h in st.sessions && Dead(st.sessions[h], t, idle) && op.now >= t && !(op.Create? && op.hash == h)
    ensures h in Apply(idle, st, op).sessions && Dead(Apply(idle, st, op).sessions[h], t, idle)
  {
  }

  /** Once dead, a session is dead for good, whatever happens to sessions and users. */
  lemma {:induction false} DeathIsPermanent(idle: int, st: Store, ops: seq<Op>, h: string, t: Time, t': Time)
    requires h in st.sessions && Dead(st.sessions[h], t, idle) && Later(ops, t, h) && t' >= t
    ensures h in Play(idle, st, ops).sessions && Dead(Play(idle, st, ops).sessions[h], t, idle)
    ensures !Accepted(Play(idle, st, ops).users, Play(idle, st, ops).sessions, h, t', idle)
  {
    if ops != [] {
      DeathIsPermanent(idle, st, ops[..|ops| - 1], h, t, t');
      StepKeepsDead(idle, Play(idle, st, ops[..|ops| - 1]), ops[|ops| - 1], h, t);
    }
  }

  /** A user's deactivation is not death: the lookup it rejects changes nothing, and reactivation restores the
      session. */
  lemma DeactivationIsNotDeath(idle: int, st: Store, h: string, t: Time, users: Users)
    requires h in st.sessions && !Dead(st.sessions[h], t, idle) && !IsActive(st.users, st.sessions[h].userId)
    requires IsActive(users, st.sessions[h].userId)
    ensures !Accepted(st.users, st.sessions, h, t, idle)
    ensures Play(idle, st, [Lookup(h, t)]) == st
    ensures var st' := Play(idle, st, [Lookup(h, t), ChangeUsers(users, t)]);
            Accepted(st'.users, st'.sessions, h, t, idle)
  {
    var ops := [Lookup(h, t), ChangeUsers(users, t)];
    assert ops[..1] == [Lookup(h, t)] && [Lookup(h, t)][..0] == [];
  }

  /** The times at which a session was accepted. */
  function Acceptances(idle: int, st: Store, ops: seq<Op>, h: string): seq<Time> {
    if ops == [] then []
    else
      var before, last := ops[..|ops| - 1], ops[|ops| - 1];
      var st' := Play(idle, st, before);
      Acceptances(idle, st, before, h) +
      if last.Lookup? && last.hash == h && Accepted(st'.users, st'.sessions, h, last.now, idle) then [last.now] else []
  }

  /** No time is after the expiry, and each lies at most one idle timeout after the one before it. */
  ghost predicate Sustained(times: seq<Time>, expiresAt: Time, idle: int) {
    && (forall i | 0 < i < |times| :: times[i] <= expiresAt)
    && (idle > 0 ==> forall i, j | 0 <= i && j == i + 1 && j < |times| :: times[j] - times[i] <= idle)
  }

  lemma OneMoreAcceptance(times: seq<Time>, t: Time, expiresAt: Time, idle: int)
    requires times != [] && Sustained(times, expiresAt, idle) && t <= expiresAt
    requires (idle > 0 ==> t - times[|times| - 1] <= idle)
    ensures Sustained(times + [t], expiresAt, idle)
  {
  }

  lemma {:induction false} AcceptancesAreBounded(idle: int, st: Store, ops: seq<Op>, h: string, from: Time)
    requires h in st.sessions && Later(ops, from, h)
    ensures h in Play(idle, st, ops).sessions
    ensures var s, s' := st.sessions[h], Play(idle, st, ops).sessions[h];
            var times := [s.lastSeenAt] + Acceptances(idle, st, ops, h);
            s'.expiresAt == s.expiresAt && s'.lastSeenAt == times[|times| - 1] && Sustained(times, s.expiresAt, idle)
  {
    if ops != [] {
      var before, last := ops[..|ops| - 1], ops[|ops| - 1];
      AcceptancesAreBounded(idle, st, before, h, from);
      var st' := Play(idle, st, before);
      SessionStep(idle, st', last, h);
      var times := [st.sessions[h].lastSeenAt] + Acceptances(idle, st, before, h);
      if last.Lookup? && last.hash == h && Accepted(st'.users, st'.sessions, h, last.now, idle) {
        OneMoreAcceptance(times, last.now, st.sessions[h].expiresAt, idle);
        assert [st.sessions[h].lastSeenAt] + Acceptances(idle, st, ops, h) == times + [last.now];
      } else {
        assert Acceptances(idle, st, ops, h) == Acceptances(idle, st, before, h);
      }
    }
  }

  lemma SessionStep(idle: int, st: Store, op: Op, h: string)
    requires h in st.sessions && !(op.Create? && op.hash == h)
    ensures h in Apply(idle, st, op).sessions
    ensures var s, s' := st.sessions[h], Apply(idle, st, op).sessions[h];
            && s'.expiresAt == s.expiresAt && s'.userId == s.userId && s'.hash == s.hash
            && s'.lastSeenAt ==
               if op.Lookup? && op.hash == h && Accepted(st.users, st.sessions, h, op.now, idle) then op.now
               else s.lastSeenAt
  {
  }

  /** A created session is accepted only within its TTL, at times no further apart than the idle timeout, counted
      from its creation. */
  lemma {:induction false} SessionLifetime(idle: int, st: Store, id: nat, userId: UserId, h: string, expiresAt: Time,
                                           now: Time, ops: seq<Op>)
    requires Later(ops, now, h)
    ensures var st' := Apply(idle, st, Create(id, userId, h, expiresAt, now));
            Sustained([now] + Acceptances(idle, st', ops, h), expiresAt, idle)
  {
    AcceptancesAreBounded(idle, Apply(idle, st, Create(id, userId, h, expiresAt, now)), ops, h, now);
  }

  /** The times at which the session was asked for. */
  function LookupTimes(ops: seq<Op>, h: string): seq<Time> {
    if ops == [] then []
    else
      var last := ops[|ops| - 1];
      LookupTimes(ops[..|ops| - 1], h) + if last.Lookup? && last.hash == h then [last.now] else []
  }

  /** The operation neither revokes the session nor deactivates its user. */
  predicate Leaves(op: Op, userId: UserId, h: string) {
    && !(op.Revoke? && op.hash == h) && !(op.RevokeOthers? && op.userId == userId && op.hash != h)
    && (op.ChangeUsers? ==> userId in op.users && op.users[userId].status == "active")
  }

  /** Nobody revokes the session, and its user stays active. */
  predicate Undisturbed(ops: seq<Op>, userId: UserId, h: string) {
    forall i | 0 <= i < |ops| :: Leaves(ops[i], userId, h)
  }

  /** The session stands unrevoked, and its user is active. */
  predicate Lives(st: Store, userId: UserId, h: string) {
    && IsActive(st.users, userId)
    && h in st.sessions && st.sessions[h].revokedAt.None? && st.sessions[h].userId == userId && st.sessions[h].hash == h
  }

  lemma LivesOn(idle: int, st: Store, op: Op, userId: UserId, h: string)
    requires Lives(st, userId, h) && Leaves(op, userId, h) && !(op.Create? && op.hash == h)
    requires op.Lookup? && op.hash == h ==>
               op.now <= st.sessions[h].expiresAt && (idle > 0 ==> op.now - st.sessions[h].lastSeenAt <= idle)
    ensures Lives(Apply(idle, st, op), userId, h)
    ensures Apply(idle, st, op).sessions[h] ==
              if op.Lookup? && op.hash == h then st.sessions[h].(lastSeenAt := op.now) else st.sessions[h]
    ensures op.Lookup? && op.hash == h ==> Accepted(st.users, st.sessions, h, op.now, idle)
  {
  }

  lemma SustainedPrefix(times: seq<Time>, k: nat, expiresAt: Time, idle: int)
    requires Sustained(times, expiresAt, idle) && k <= |times|
    ensures Sustained(times[..k], expiresAt, idle)
  {
  }

  lemma {:induction false} SustainedIsAccepted(idle: int, st: Store, userId: UserId, h: string, ops: seq<Op>)
    requires Lives(st, userId, h) && Undisturbed(ops, userId, h)
    requires forall i | 0 <= i < |ops| :: !(ops[i].Create? && ops[i].hash == h)
    requires Sustained([st.sessions[h].lastSeenAt] + LookupTimes(ops, h), st.sessions[h].expiresAt, idle)
    ensures Acceptances(idle, st, ops, h) == LookupTimes(ops, h) && Lives(Play(idle, st, ops), userId, h)
    ensures var times := [st.sessions[h].lastSeenAt] + LookupTimes(ops, h);
            Play(idle, st, ops).sessions[h] == st.sessions[h].(lastSeenAt := times[|times| - 1])
  {
    hide Apply, Accepted, Leaves, IsActive;
    if ops != [] {
      var before, last := ops[..|ops| - 1], ops[|ops| - 1];
      var times := [st.sessions[h].lastSeenAt] + LookupTimes(ops, h);
      var earlier := [st.sessions[h].lastSeenAt] + LookupTimes(before, h);
      SustainedPrefix(times, |earlier|, st.sessions[h].expiresAt, idle);
      assert times[..|earlier|] == earlier;
      SustainedIsAccepted(idle, st, userId, h, before);
      if last.Lookup? && last.hash == h {
        assert times == earlier + [last.now] && times[|earlier|] == last.now;
        assert times[|earlier| - 1] == earlier[|earlier| - 1];
      }
      LivesOn(idle, Play(idle, st, before), last, userId, h);
    }
  }

  /** The converse, for a session that nobody revokes and whose user stays active: every lookup is accepted if and only
      if each is within the TTL and at most one idle timeout after the one before it, or after the creation. */
  lemma {:induction false} AcceptedThroughoutIff(idle: int, st: Store, id: nat, userId: UserId, h: string,
                                                 expiresAt: Time, now: Time, ops: seq<Op>)
    requires userId in st.users && st.users[userId].status == "active"
    requires Later(ops, now, h) && Undisturbed(ops, userId, h)
    ensures var st' := Apply(idle, st, Create(id, userId, h, expiresAt, now));
            Acceptances(idle, st', ops, h) == LookupTimes(ops, h) <==>
            Sustained([now] + LookupTimes(ops, h), expiresAt, idle)
  {
    if Sustained([now] + LookupTimes(ops, h), expiresAt, idle) {
      SustainedIsAccepted(idle, Apply(idle, st, Create(id, userId, h, expiresAt, now)), userId, h, ops);
    }
    SessionLifetime(idle, st, id, userId, h, expiresAt, now, ops);
  }

  lemma {:induction false} PlayKeepsFiled(idle: int, st: Store, ops: seq<Op>)
    requires Filed(st.sessions)
    ensures Filed(Play(idle, st, ops).sessions)
  {
    if ops != [] {
      PlayKeepsFiled(idle, st, ops[..|ops| - 1]);
    }
  }

  /** After RevokeOtherSessions, at any point of a store's life, of the user's sessions then in the store only the
      current one can ever be accepted, and that one is untouched. */
  lemma {:induction false} OnlyTheCurrentSessionSurvives(idle: int, users: Users, before: seq<Op>, userId: UserId,
                                                         current: string, now: Time, ops: seq<Op>, h: string, t: Time)
    requires var st := Play(idle, Store(users, map[]), before);
             h in st.sessions && st.sessions[h].userId == userId && h != current
    requires Later(ops, now, h) && t >= now
    ensures var st := Play(idle, Store(users, map[]), before);
            var revoked := Apply(idle, st, RevokeOthers(userId, current, now));
            var st' := Play(idle, revoked, ops);
            && !Accepted(st'.users, st'.sessions, h, t, idle)
            && (current in st.sessions ==> revoked.sessions[current] == st.sessions[current])
  {
    PlayKeepsFiled(idle, Store(users, map[]), before);
    var st := Play(idle, Store(users, map[]), before);
    DeathIsPermanent(idle, Apply(idle, st, RevokeOthers(userId, current, now)), ops, h, now, t);
  }
}
