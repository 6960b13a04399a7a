/**
 The table secret_deliveries, and every UPDATE statement the delivery repository sends to it.
 A statement is a WHERE clause (`Matches`) and a SET clause (`Assign`); running it rewrites
 every matching row (`Exec`).  Times are microseconds, PostgreSQL's resolution.
 */
module Rows {
  import opened Wrappers

  type Id = nat
  type LeaseId = nat
  type Time = int

  const SECOND: int := 1_000_000
  const NANOSECONDS_PER_SECOND: int := 1_000_000_000

  /** Go's int64(d.Seconds()) of a duration in nanoseconds: it truncates toward zero. */
  function WholeSeconds(d: int): int {
    if d >= 0 then d / NANOSECONDS_PER_SECOND else -(-d / NANOSECONDS_PER_SECOND)
  }

  /** A duration reaches the database in whole seconds, the rest of it cut off. */
  lemma WholeSecondsTruncate(d: int)
    ensures d >= 0 ==> WholeSeconds(d) * SECOND * 1000 <= d < (WholeSeconds(d) * SECOND + 1_000_000) * 1000
    ensures WholeSeconds(-d) == -WholeSeconds(d)
  {
  }

  datatype Status = Active | Consuming | Consumed | Expired | Revoked

  datatype Row = Row(
    tokenHash: string,
    payload: string,
    status: Status,
    expiresAt: Time,
    consumedAt: Option<Time>,
    revokedAt: Option<Time>,
    startedAt: Option<Time>,
    leaseId: Option<LeaseId>,
    passwordHash: Option<string>,
    failedAttempts: nat,
    maxFailedAttempts: nat,
    updatedAt: Time)

  type Table = map<Id, Row>

  /** What Insert stores: the schema's column checks are the precondition, the rest are its defaults. */
  function FreshRow(token: string, payload: string, expiresAt: Time, hash: Option<string>, max: nat, now: Time): Row {
    Row(token, payload, Active, expiresAt, None, None, None, None, hash, 0, max, now)
  }

  datatype Update =
    | Begin(token: string, expected: Option<string>, lease: LeaseId, leaseSeconds: int)
    | RecordFailure(token: string, verified: string, leaseSeconds: int)
    | SetPassword(id: Id, hash: Option<string>)
    | Restore(id: Id, lease: LeaseId)
    | Complete(id: Id, lease: LeaseId)
    | Revoke(id: Id)
    | ExpireActive
    | RestoreStale(leaseSeconds: int)
    | ClearPayloads(consumedSeconds: int, expiredSeconds: int, revokedSeconds: int)

  /** `consuming_started_at < NOW() - make_interval(secs => leaseSeconds)`; false when NULL. */
  predicate Stale(r: Row, leaseSeconds: int, now: Time) {
    r.startedAt.Some? && r.startedAt.value < now - leaseSeconds * SECOND
  }

  /** The part of the WHERE clause that FindConsumeCandidate, BeginConsume and RecordPasswordFailure share. */
  predicate Takeable(r: Row, leaseSeconds: int, now: Time) {
    && r.expiresAt > now
    && r.failedAttempts < r.maxFailedAttempts
    && (r.status.Active? || (r.status.Consuming? && Stale(r, leaseSeconds, now)))
  }

  /** `at <= NOW() - make_interval(secs => seconds)`. */
  predicate Past(at: Time, seconds: int, now: Time) {
    at <= now - seconds * SECOND
  }

  predicate Clearable(r: Row, consumedSeconds: int, expiredSeconds: int, revokedSeconds: int, now: Time) {
    && r.payload != ""
    && (|| (r.status.Consumed? && r.consumedAt.Some? && Past(r.consumedAt.value, consumedSeconds, now))
        || (r.status.Expired? && Past(r.updatedAt, expiredSeconds, now))
        || (r.status.Revoked? && r.revokedAt.Some? && Past(r.revokedAt.value, revokedSeconds, now)))
  }

  predicate Matches(u: Update, id: Id, r: Row, now: Time) {
    match u
    case Begin(token, expected, _, leaseSeconds) =>
      r.tokenHash == token && r.passwordHash == expected && Takeable(r, leaseSeconds, now)
    case RecordFailure(token, verified, leaseSeconds) =>
      r.tokenHash == token && r.passwordHash == Some(verified) && Takeable(r, leaseSeconds, now)
    case SetPassword(target, _) => id == target && r.status.Active? && r.expiresAt > now
    case Restore(target, lease) => id == target && r.status.Consuming? && r.leaseId == Some(lease)
    case Complete(target, lease) => id == target && r.status.Consuming? && r.leaseId == Some(lease)
    case Revoke(target) => id == target && (r.status.Active? || r.status.Consuming?)
    case ExpireActive => r.status.Active? && r.expiresAt <= now
    case RestoreStale(leaseSeconds) => r.status.Consuming? && Stale(r, leaseSeconds, now) && r.expiresAt > now
    case ClearPayloads(c, e, v) => Clearable(r, c, e, v, now)
  }

  /** The SET clause.  The table's trigger stamps updated_at on every update. */
  function Assign(u: Update, r: Row, now: Time): Row {
    match u
    case Begin(_, _, lease, _) =>
      r.(status := Consuming, startedAt := Some(now), leaseId := Some(lease), updatedAt := now)
    case RecordFailure(_, _, _) =>
      var locked := r.failedAttempts + 1 >= r.maxFailedAttempts;
      r.(failedAttempts := r.failedAttempts + 1,
         status := if locked then Revoked else Active,
         revokedAt := if locked then Some(now) else r.revokedAt,
         payload := if locked then "" else r.payload,
         startedAt := None, leaseId := None, updatedAt := now)
    case SetPassword(_, hash) => r.(passwordHash := hash, failedAttempts := 0, updatedAt := now)
    case Restore(_, _) => r.(status := Active, startedAt := None, leaseId := None, updatedAt := now)
    case Complete(_, _) =>
      r.(status := Consumed, consumedAt := Some(now), payload := "", startedAt := None, leaseId := None,
         updatedAt := now)
    case Revoke(_) =>
      r.(status := Revoked, revokedAt := Some(now), payload := "", startedAt := None, leaseId := None, updatedAt := now)
    case ExpireActive => r.(status := Expired, updatedAt := now)
    case RestoreStale(_) => r.(status := Active, startedAt := None, leaseId := None, updatedAt := now)
    case ClearPayloads(_, _, _) => r.(payload := "", updatedAt := now)
  }

  /** The rows of `scope` a statement changes. */
  function Affected(u: Update, t: Table, scope: set<Id>, now: Time): set<Id> {
    set id | id in t && id in scope && Matches(u, id, t[id], now)
  }

  /** The table after a statement has run on the rows of `scope`. */
  function ExecOn(u: Update, t: Table, scope: set<Id>, now: Time): Table {
    map id | id in t :: if id in scope && Matches(u, id, t[id], now) then Assign(u, t[id], now) else t[id]
  }

  function Exec(u: Update, t: Table, now: Time): Table {
    ExecOn(u, t, t.Keys, now)
  }

  /** token_hash is UNIQUE. */
  ghost predicate UniqueTokens(t: Table) {
    forall i, j | i in t && j in t && t[i].tokenHash == t[j].tokenHash :: i == j
  }

  predicate SingleRow(u: Update) {
    !(u.ExpireActive? || u.RestoreStale? || u.ClearPayloads?)
  }

  /** `hit` is the row the statement finds: the one that matches, or none. */
  ghost predicate IsHit(u: Update, t: Table, hit: Option<Id>, now: Time) {
    match hit
    case Some(id) => id in t && Matches(u, id, t[id], now)
    case None => forall id | id in t :: !Matches(u, id, t[id], now)
  }

  function Touch(u: Update, t: Table, hit: Option<Id>, now: Time): Table
    requires hit.Some? ==> hit.value in t
  {
    match hit
    case Some(id) => t[id := Assign(u, t[id], now)]
    case None => t
  }

  /** A statement that names a token or an id changes one row, whatever the table holds. */
  lemma SingleRowUpdate(u: Update, t: Table, hit: Option<Id>, now: Time)
    requires UniqueTokens(t) && SingleRow(u) && IsHit(u, t, hit, now)
    ensures Exec(u, t, now) == Touch(u, t, hit, now)
    ensures Affected(u, t, t.Keys, now) == if hit.Some? then {hit.value} else {}
    ensures UniqueTokens(Exec(u, t, now))
  {
    if hit.Some? {
      forall id | id in t && Matches(u, id, t[id], now) ensures id == hit.value {
      }
    }
  }

  /** Everything a reachable row satisfies; `o` is the row as it was inserted. */
  predicate RowOk(r: Row, o: Row) {
    && r.tokenHash == o.tokenHash && r.expiresAt == o.expiresAt && r.maxFailedAttempts == o.maxFailedAttempts
    && o.payload != ""
    && (r.status.Consuming? <==> r.leaseId.Some?) && (r.status.Consuming? <==> r.startedAt.Some?)
    && (r.status.Consumed? <==> r.consumedAt.Some?)
    && (r.status.Revoked? <==> r.revokedAt.Some?)
    && (r.status.Consumed? || r.status.Revoked? ==> r.payload == "")
    && (r.status.Active? || r.status.Consuming? ==> r.payload == o.payload)
    && (r.status.Expired? ==> r.payload == o.payload || r.payload == "")
    && r.failedAttempts <= r.maxFailedAttempts
    && (!r.status.Revoked? ==> r.failedAttempts < r.maxFailedAttempts)
  }

  /** What one statement may do to a row, as the other users of the delivery see it. */
  predicate Lifecycle(u: Update, r: Row, r': Row) {
    && (|| r.status.Active? || r.status.Consuming?
        || (r.status.Expired? && r' == r.(payload := "", updatedAt := r'.updatedAt)))
    && (r'.leaseId.Some? ==> u.Begin? && r'.leaseId == Some(u.lease) && r'.passwordHash == u.expected == r.passwordHash)
    && (r'.status.Consumed? ==> u.Complete? && r.leaseId == Some(u.lease) && r'.passwordHash == r.passwordHash)
    && (r'.status.Expired? && !r.status.Expired? ==> u.ExpireActive?)
    && (r.status.Expired? ==> u.ClearPayloads? && r.payload != "")
  }

  lemma UpdateKeepsRowOk(u: Update, id: Id, r: Row, o: Row, now: Time)
    requires RowOk(r, o) && Matches(u, id, r, now)
    ensures RowOk(Assign(u, r, now), o)
    ensures Lifecycle(u, r, Assign(u, r, now))
  {
  }

  /** The clearing statement's clauses for consumed and for revoked rows never match. */
  lemma OnlyExpiredRowsAreClearable(r: Row, o: Row, c: int, e: int, v: int, now: Time)
    requires RowOk(r, o)
    ensures Clearable(r, c, e, v, now) <==> r.status.Expired? && r.payload == o.payload && Past(r.updatedAt, e, now)
  {
  }
}
