/** The delivery repository: one method per operation, each rewriting the rows its statement matches. */
module DeliveryRepository {
  import opened Wrappers
  import opened Rows

  datatype Candidate = Candidate(id: Id, payload: string, passwordHash: Option<string>, failedAttempts: nat,
                                 maxFailedAttempts: nat)

  datatype PrepareResponse = PrepareResponse(mayAttempt: bool, passwordRequired: bool, expiresAt: Option<Time>)

  datatype FailureResult = FailureResult(id: Option<Id>, updated: bool, locked: bool)

  datatype ProtectionResult = ProtectionResult(updated: bool, wasProtected: bool, passwordProtected: bool)

  datatype RevokeResult = RevokeResult(revoked: bool, found: bool, status: Option<Status>)

  datatype CleanupResult = CleanupResult(expired: nat, payloadsCleared: nat, leasesRestored: nat)

  datatype Stats = Stats(activeCount: nat, consumedCount: nat, expiredCount: nat, revokedCount: nat)

  predicate MayAttempt(r: Row, now: Time) {
    r.status.Active? && r.expiresAt > now && r.failedAttempts < r.maxFailedAttempts
  }

  function CandidateOf(id: Id, r: Row): Candidate {
    Candidate(id, r.payload, r.passwordHash, r.failedAttempts, r.maxFailedAttempts)
  }

  function HitOf(candidate: Option<Candidate>): Option<Id> {
    if candidate.Some? then Some(candidate.value.id) else None
  }

  function WithStatus(t: Table, s: Status): set<Id> {
    set id | id in t && t[id].status == s
  }

  /** Cleanup's three statements, one transaction, one NOW(). */
  function CleanupTable(t: Table, consumedSeconds: int, expiredSeconds: int, revokedSeconds: int, leaseSeconds: int,
                        now: Time): Table {
    Exec(ClearPayloads(consumedSeconds, expiredSeconds, revokedSeconds),
         Exec(RestoreStale(leaseSeconds), Exec(ExpireActive, t, now), now), now)
  }

  /** The row a statement with this WHERE clause finds is unique, so changing it alone runs the statement. */
  lemma OneHit(u: Update, t: Table, id: Id, now: Time)
    requires UniqueTokens(t) && SingleRow(u) && id in t && Matches(u, id, t[id], now)
    ensures Exec(u, t, now) == t[id := Assign(u, t[id], now)] && UniqueTokens(Exec(u, t, now))
  {
    SingleRowUpdate(u, t, Some(id), now);
  }

  lemma NoHit(u: Update, t: Table, now: Time)
    requires UniqueTokens(t) && SingleRow(u) && forall id | id in t :: !Matches(u, id, t[id], now)
    ensures Exec(u, t, now) == t
  {
    SingleRowUpdate(u, t, None, now);
  }

  class Repository {
    var rows: Table

    ghost predicate Valid()
      reads this
    {
      UniqueTokens(rows)
    }

    constructor ()
      ensures Valid() && rows == map[]
    {
      rows := map[];
    }

    method Insert(id: Id, token: string, payload: string, expiresAt: Time, hash: Option<string>, max: nat, now: Time)
      returns (ok: bool)
      requires Valid()
      modifies this
      ensures Valid()
      ensures ok <==> id !in old(rows) && 1 <= max <= 20 && forall i | i in old(rows) :: old(rows)[i].tokenHash != token
      ensures !ok ==> rows == old(rows)
      ensures ok ==>
                && rows == old(rows)[id :=
                     Row(token, payload, Active, expiresAt, None, None, None, None, hash, 0, max, now)]
                && rows[id] == FreshRow(token, payload, expiresAt, hash, max, now)
    {
      ok := id !in rows && 1 <= max <= 20 && forall i | i in rows :: rows[i].tokenHash != token;
      if ok {
        rows := rows[id := Row(token, payload, Active, expiresAt, None, None, None, None, hash, 0, max, now)];
      }
    }

    method Prepare(token: string, now: Time) returns (response: PrepareResponse)
      requires Valid()
      ensures response.mayAttempt <==> exists id ::
          && id in rows && rows[id].tokenHash == token && rows[id].status.Active? && rows[id].expiresAt > now
          && rows[id].failedAttempts < rows[id].maxFailedAttempts
      ensures response.mayAttempt ==>
                forall id | id in rows && rows[id].tokenHash == token ::
                  && MayAttempt(rows[id], now) && response.passwordRequired == rows[id].passwordHash.Some?
                  && response.expiresAt == Some(rows[id].expiresAt)
      ensures !response.mayAttempt ==> response == PrepareResponse(false, false, None)
    {
      var hits := set id | id in rows && rows[id].tokenHash == token && MayAttempt(rows[id], now);
      if hits == {} {
        assert forall id | id in rows && rows[id].tokenHash == token && MayAttempt(rows[id], now) :: id in hits;
        return PrepareResponse(false, false, None);
      }
      var id :| id in hits;
      response := PrepareResponse(true, rows[id].passwordHash.Some?, Some(rows[id].expiresAt));
    }

    method FindConsumeCandidate(token: string, leaseTTL: int, now: Time) returns (candidate: Option<Candidate>)
      requires Valid()
      ensures candidate.Some? <==> exists id ::
          && id in rows && rows[id].tokenHash == token
          && rows[id].expiresAt > now && rows[id].failedAttempts < rows[id].maxFailedAttempts
          && (|| rows[id].status.Active?
              || (rows[id].status.Consuming? && rows[id].startedAt.Some?
                  && rows[id].startedAt.value + WholeSeconds(leaseTTL) * SECOND < now))
      ensures candidate.Some? ==>
                && candidate.value.id in rows
                && var r := rows[candidate.value.id];
                   && r.tokenHash == token && Takeable(r, WholeSeconds(leaseTTL), now)
                   && candidate.value ==
                       Candidate(candidate.value.id, r.payload, r.passwordHash, r.failedAttempts, r.maxFailedAttempts)
      ensures candidate.None? ==>
                forall id | id in rows && rows[id].tokenHash == token ::
                  !Takeable(rows[id], WholeSeconds(leaseTTL), now)
    {
      var leaseSeconds := WholeSeconds(leaseTTL);
      var hits := set id | id in rows && rows[id].tokenHash == token && Takeable(rows[id], leaseSeconds, now);
      if hits == {} {
        assert forall id | id in rows && rows[id].tokenHash == token && Takeable(rows[id], leaseSeconds, now) ::
            id in hits;
        return None;
      }
      var id :| id in hits;
      candidate := Some(CandidateOf(id, rows[id]));
    }

    method BeginConsume(token: string, expected: Option<string>, lease: LeaseId, leaseTTL: int, now: Time)
      returns (candidate: Option<Candidate>)
      requires Valid()
      modifies this
      ensures Valid() && rows == Exec(Begin(token, expected, lease, WholeSeconds(leaseTTL)), old(rows), now)
      ensures IsHit(Begin(token, expected, lease, WholeSeconds(leaseTTL)), old(rows), HitOf(candidate), now)
      ensures candidate.Some? <==> exists id ::
          && id in old(rows) && old(rows)[id].tokenHash == token && old(rows)[id].passwordHash == expected
          && old(rows)[id].expiresAt > now && old(rows)[id].failedAttempts < old(rows)[id].maxFailedAttempts
          && (|| old(rows)[id].status.Active?
              || (old(rows)[id].status.Consuming? && old(rows)[id].startedAt.Some?
                  && old(rows)[id].startedAt.value + WholeSeconds(leaseTTL) * SECOND < now))
      ensures candidate.None? ==> rows == old(rows)
      ensures candidate.Some? ==>
                && candidate.value.id in old(rows)
                && var r := old(rows)[candidate.value.id];
                   && r.tokenHash == token
                   && candidate.value ==
                       Candidate(candidate.value.id, r.payload, r.passwordHash, r.failedAttempts, r.maxFailedAttempts)
                   && rows == old(rows)[candidate.value.id :=
                        r.(status := Consuming, startedAt := Some(now), leaseId := Some(lease), updatedAt := now)]
    {
      var leaseSeconds := WholeSeconds(leaseTTL);
      ghost var u := Begin(token, expected, lease, leaseSeconds);
      var hits := set id | id in rows && rows[id].tokenHash == token && rows[id].passwordHash == expected
                               && Takeable(rows[id], leaseSeconds, now);
      if hits == {} {
        assert forall id | id in rows && Matches(u, id, rows[id], now) :: id in hits;
        NoHit(u, rows, now);
        return None;
      }
      var id :| id in hits;
      assert Matches(u, id, rows[id], now);
      OneHit(u, rows, id, now);
      rows := rows[id := rows[id].(status := Consuming, startedAt := Some(now), leaseId := Some(lease),
                                   updatedAt := now)];
      candidate := Some(CandidateOf(id, rows[id]));
    }

    method RecordPasswordFailure(token: string, verified: string, leaseTTL: int, now: Time)
      returns (result: FailureResult)
      requires Valid()
      modifies this
      ensures Valid() && rows == Exec(RecordFailure(token, verified, WholeSeconds(leaseTTL)), old(rows), now)
      ensures IsHit(RecordFailure(token, verified, WholeSeconds(leaseTTL)), old(rows), result.id, now)
      ensures result.updated <==> result.id.Some?
      ensures result.updated <==> exists id ::
          && id in old(rows) && old(rows)[id].tokenHash == token && old(rows)[id].passwordHash == Some(verified)
          && old(rows)[id].expiresAt > now && old(rows)[id].failedAttempts < old(rows)[id].maxFailedAttempts
          && (|| old(rows)[id].status.Active?
              || (old(rows)[id].status.Consuming? && old(rows)[id].startedAt.Some?
                  && old(rows)[id].startedAt.value + WholeSeconds(leaseTTL) * SECOND < now))
      ensures !result.updated ==> rows == old(rows) && !result.locked
      ensures result.updated ==>
                && result.id.value in old(rows)
                && var r := old(rows)[result.id.value];
                   && r.tokenHash == token && result.locked == (r.failedAttempts + 1 >= r.maxFailedAttempts)
                   && rows == old(rows)[result.id.value :=
                        if result.locked then
                          r.(status := Revoked, revokedAt := Some(now), payload := "", startedAt := None,
                             leaseId := None, failedAttempts := r.failedAttempts + 1, updatedAt := now)
                        else
                          r.(status := Active, startedAt := None, leaseId := None,
                             failedAttempts := r.failedAttempts + 1, updatedAt := now)]
      ensures result.locked <==> result.id.Some? && result.id.value in rows && rows[result.id.value].status.Revoked?
    {
      var leaseSeconds := WholeSeconds(leaseTTL);
      ghost var u := RecordFailure(token, verified, leaseSeconds);
      var hits := set id | id in rows && rows[id].tokenHash == token && rows[id].passwordHash == Some(verified)
                               && Takeable(rows[id], leaseSeconds, now);
      if hits == {} {
        assert forall id | id in rows && Matches(u, id, rows[id], now) :: id in hits;
        NoHit(u, rows, now);
        return FailureResult(None, false, false);
      }
      var id :| id in hits;
      assert Matches(u, id, rows[id], now);
      OneHit(u, rows, id, now);
      var r := rows[id];
      var locked := r.failedAttempts + 1 >= r.maxFailedAttempts;
      r := r.(failedAttempts := r.failedAttempts + 1, status := Active, startedAt := None, leaseId := None,
              updatedAt := now);
      if locked {
        r := r.(status := Revoked, revokedAt := Some(now), payload := "");
      }
      rows := rows[id := r];
      result := FailureResult(Some(id), true, locked);
    }

    method UpdatePasswordProtection(id: Id, hash: Option<string>, now: Time) returns (result: ProtectionResult)
      requires Valid()
      modifies this
      ensures Valid() && rows == Exec(SetPassword(id, hash), old(rows), now)
      ensures result.updated <==> id in old(rows) && old(rows)[id].status.Active? && old(rows)[id].expiresAt > now
      ensures result.updated ==>
                && result == ProtectionResult(true, old(rows)[id].passwordHash.Some?, hash.Some?)
                && rows == old(rows)[id := old(rows)[id].(passwordHash := hash, failedAttempts := 0, updatedAt := now)]
      ensures !result.updated ==> result == ProtectionResult(false, false, false) && rows == old(rows)
    {
      if id !in rows || !rows[id].status.Active? || rows[id].expiresAt <= now {
        NoHit(SetPassword(id, hash), rows, now);
        return ProtectionResult(false, false, false);
      }
      OneHit(SetPassword(id, hash), rows, id, now);
      var wasProtected := rows[id].passwordHash.Some?;
      rows := rows[id := rows[id].(passwordHash := hash, failedAttempts := 0, updatedAt := now)];
      result := ProtectionResult(true, wasProtected, hash.Some?);
    }

    method RestoreConsume(id: Id, lease: LeaseId, now: Time)
      requires Valid()
      modifies this
      ensures Valid() && rows == Exec(Restore(id, lease), old(rows), now)
      ensures rows ==
                if id in old(rows) && old(rows)[id].status.Consuming? && old(rows)[id].leaseId == Some(lease) then
                  old(rows)[id := old(rows)[id].(status := Active, startedAt := None, leaseId := None,
                                                 updatedAt := now)]
                else old(rows)
    {
      if id in rows && rows[id].status.Consuming? && rows[id].leaseId == Some(lease) {
        OneHit(Restore(id, lease), rows, id, now);
        rows := rows[id := rows[id].(status := Active, startedAt := None, leaseId := None, updatedAt := now)];
      } else {
        NoHit(Restore(id, lease), rows, now);
      }
    }

    method CompleteConsume(id: Id, lease: LeaseId, now: Time) returns (completed: bool)
      requires Valid()
      modifies this
      ensures Valid() && rows == Exec(Complete(id, lease), old(rows), now)
      ensures completed <==> id in old(rows) && old(rows)[id].status.Consuming? && old(rows)[id].leaseId == Some(lease)
      ensures rows ==
                if completed then
                  old(rows)[id := old(rows)[id].(status := Consumed, consumedAt := Some(now), payload := "",
                                                 startedAt := None, leaseId := None, updatedAt := now)]
                else old(rows)
    {
      completed := id in rows && rows[id].status.Consuming? && rows[id].leaseId == Some(lease);
      if completed {
        OneHit(Complete(id, lease), rows, id, now);
        rows := rows[id := rows[id].(status := Consumed, consumedAt := Some(now), payload := "", startedAt := None,
                                     leaseId := None, updatedAt := now)];
      } else {
        NoHit(Complete(id, lease), rows, now);
      }
    }

    /** The UPDATE, and the SELECT that explains why it changed nothing. */
    method RevokeDelivery(id: Id, now: Time) returns (result: RevokeResult)
      requires Valid()
      modifies this
      ensures Valid() && rows == Exec(Revoke(id), old(rows), now)
      ensures result.found <==> id in old(rows)
      ensures result.revoked <==> id in old(rows) && (old(rows)[id].status.Active? || old(rows)[id].status.Consuming?)
      ensures result.status == if id in rows then Some(rows[id].status) else None
      ensures result.revoked ==>
                && rows[id].status.Revoked? && rows[id].payload == "" && rows[id].leaseId.None?
                && rows == old(rows)[id := old(rows)[id].(status := Revoked, revokedAt := Some(now), payload := "",
                                                          startedAt := None, leaseId := None, updatedAt := now)]
      ensures !result.revoked ==> rows == old(rows)
    {
      if id in rows && (rows[id].status.Active? || rows[id].status.Consuming?) {
        OneHit(Revoke(id), rows, id, now);
        rows := rows[id := rows[id].(status := Revoked, revokedAt := Some(now), payload := "", startedAt := None,
                                     leaseId := None, updatedAt := now)];
        return RevokeResult(true, true, Some(Revoked));
      }
      NoHit(Revoke(id), rows, now);
      if id !in rows {
        return RevokeResult(false, false, None);
      }
      result := RevokeResult(false, true, Some(rows[id].status));
    }

    /** The three statements of Cleanup's transaction; each returns the number of rows it changed. */
    method ExpireRows(now: Time) returns (count: nat)
      modifies this
      ensures rows == Exec(ExpireActive, old(rows), now)
      ensures count == |Affected(ExpireActive, old(rows), old(rows).Keys, now)|
      ensures rows == map id | id in old(rows) ::
          if old(rows)[id].status.Active? && old(rows)[id].expiresAt <= now then
            old(rows)[id].(status := Expired, updatedAt := now)
          else old(rows)[id]
      ensures count == |set id | id in old(rows) && old(rows)[id].status.Active? && old(rows)[id].expiresAt <= now|
    {
      var hits := set id | id in rows && rows[id].status.Active? && rows[id].expiresAt <= now;
      assert hits == Affected(ExpireActive, rows, rows.Keys, now);
      count := |hits|;
      rows := map id | id in rows :: if id in hits then rows[id].(status := Expired, updatedAt := now) else rows[id];
    }

    method RecoverLeases(leaseSeconds: int, now: Time) returns (count: nat)
      modifies this
      ensures rows == Exec(RestoreStale(leaseSeconds), old(rows), now)
      ensures count == |Affected(RestoreStale(leaseSeconds), old(rows), old(rows).Keys, now)|
      ensures rows == map id | id in old(rows) ::
          if && old(rows)[id].status.Consuming? && old(rows)[id].startedAt.Some?
             && old(rows)[id].startedAt.value + leaseSeconds * SECOND < now < old(rows)[id].expiresAt then
            old(rows)[id].(status := Active, startedAt := None, leaseId := None, updatedAt := now)
          else old(rows)[id]
      ensures count == |set id | id in old(rows) && old(rows)[id].status.Consuming? && old(rows)[id].startedAt.Some?
                                 && old(rows)[id].startedAt.value + leaseSeconds * SECOND < now
                                 && now < old(rows)[id].expiresAt|
    {
      var hits := set id | id in rows && rows[id].status.Consuming? && Stale(rows[id], leaseSeconds, now)
                               && rows[id].expiresAt > now;
      assert hits == Affected(RestoreStale(leaseSeconds), rows, rows.Keys, now);
      assert hits == set id | id in rows && rows[id].status.Consuming? && rows[id].startedAt.Some?
                              && rows[id].startedAt.value + leaseSeconds * SECOND < now && now < rows[id].expiresAt;
      count := |hits|;
      rows := map id | id in rows ::
        if id in hits then rows[id].(status := Active, startedAt := None, leaseId := None, updatedAt := now)
        else rows[id];
    }

    method ClearCiphertexts(consumedSeconds: int, expiredSeconds: int, revokedSeconds: int, now: Time)
      returns (count: nat)
      modifies this
      ensures rows == Exec(ClearPayloads(consumedSeconds, expiredSeconds, revokedSeconds), old(rows), now)
      ensures count == |Affected(ClearPayloads(consumedSeconds, expiredSeconds, revokedSeconds), old(rows),
                                 old(rows).Keys, now)|
      ensures rows == map id | id in old(rows) ::
          var r := old(rows)[id];
          if && r.payload != ""
             && (|| (r.status.Consumed? && r.consumedAt.Some? && r.consumedAt.value + consumedSeconds * SECOND <= now)
                 || (r.status.Expired? && r.updatedAt + expiredSeconds * SECOND <= now)
                 || (r.status.Revoked? && r.revokedAt.Some? && r.revokedAt.value + revokedSeconds * SECOND <= now)) then
            r.(payload := "", updatedAt := now)
          else r
      ensures count == |set id | id in rows && rows[id].payload != old(rows)[id].payload|
    {
      ghost var u := ClearPayloads(consumedSeconds, expiredSeconds, revokedSeconds);
      var hits := set id | id in rows && Clearable(rows[id], consumedSeconds, expiredSeconds, revokedSeconds, now);
      assert hits == Affected(u, rows, rows.Keys, now);
      count := |hits|;
      rows := map id | id in rows :: if id in hits then rows[id].(payload := "", updatedAt := now) else rows[id];
      assert hits == set id | id in rows && rows[id].payload != old(rows)[id].payload;
    }

    method Cleanup(consumedRetention: int, expiredRetention: int, revokedRetention: int, leaseTTL: int, now: Time)
      returns (result: CleanupResult)
      requires Valid()
      modifies this
      ensures Valid()
      ensures rows == CleanupTable(old(rows), WholeSeconds(consumedRetention), WholeSeconds(expiredRetention),
                                   WholeSeconds(revokedRetention), WholeSeconds(leaseTTL), now)
      ensures var t1 := Exec(ExpireActive, old(rows), now);
              var t2 := Exec(RestoreStale(WholeSeconds(leaseTTL)), t1, now);
              && result.expired == |Affected(ExpireActive, old(rows), old(rows).Keys, now)|
              && result.leasesRestored == |Affected(RestoreStale(WholeSeconds(leaseTTL)), t1, t1.Keys, now)|
              && result.payloadsCleared ==
                  |Affected(ClearPayloads(WholeSeconds(consumedRetention), WholeSeconds(expiredRetention),
                                          WholeSeconds(revokedRetention)), t2, t2.Keys, now)|
    {
      hide Exec, Affected;
      CleanupKeepsTokens(rows, WholeSeconds(consumedRetention), WholeSeconds(expiredRetention),
                         WholeSeconds(revokedRetention), WholeSeconds(leaseTTL), now);
      var expired := ExpireRows(now);
      var restored := RecoverLeases(WholeSeconds(leaseTTL), now);
      var cleared := ClearCiphertexts(WholeSeconds(consumedRetention), WholeSeconds(expiredRetention),
                                      WholeSeconds(revokedRetention), now);
      result := CleanupResult(expired, cleared, restored);
    }

    /** One result row of SELECT status, COUNT(*) ... GROUP BY status per round, in whatever order they come. */
    method Dashboard() returns (stats: Stats)
      ensures stats.activeCount == |set id | id in rows && (rows[id].status.Active? || rows[id].status.Consuming?)|
      ensures stats.consumedCount == |set id | id in rows && rows[id].status.Consumed?|
      ensures stats.expiredCount == |set id | id in rows && rows[id].status.Expired?|
      ensures stats.revokedCount == |set id | id in rows && rows[id].status.Revoked?|
      ensures stats.activeCount + stats.consumedCount + stats.expiredCount + stats.revokedCount == |rows|
    {
      stats := Stats(0, 0, 0, 0);
      var groups := set id | id in rows :: rows[id].status;
      assert forall s | s !in groups :: WithStatus(rows, s) == {};
      while groups != {}
        invariant stats.activeCount == SoFar(rows, groups, Active) + SoFar(rows, groups, Consuming)
        invariant stats.consumedCount == SoFar(rows, groups, Consumed)
        invariant stats.expiredCount == SoFar(rows, groups, Expired)
        invariant stats.revokedCount == SoFar(rows, groups, Revoked)
        decreases |groups|
      {
        var status :| status in groups;
        var count := |WithStatus(rows, status)|;
        match status {
          case Active => stats := stats.(activeCount := stats.activeCount + count);
          case Consuming => stats := stats.(activeCount := stats.activeCount + count);
          case Consumed => stats := stats.(consumedCount := count);
          case Expired => stats := stats.(expiredCount := count);
          case Revoked => stats := stats.(revokedCount := count);
        }
        groups := groups - {status};
      }
      StatusesPartition(rows);
      CountsOfColumns(rows);
    }
  }

  /** What the loop has counted of a status: all of it, once its group is read, or once there is none. */
  function SoFar(t: Table, groups: set<Status>, s: Status): nat {
    if s in groups then 0 else |WithStatus(t, s)|
  }

  lemma FiveParts(a: set<Id>, b: set<Id>, c: set<Id>, d: set<Id>, e: set<Id>)
    requires a !! b !! c !! d !! e
    ensures |a + b + c + d + e| == |a| + |b| + |c| + |d| + |e|
  {
  }

  lemma TwoStatuses(t: Table, s: Status, s': Status)
    requires s != s'
    ensures WithStatus(t, s) !! WithStatus(t, s')
  {
  }

  lemma SomeStatus(t: Table)
    ensures t.Keys == WithStatus(t, Active) + WithStatus(t, Consuming) + WithStatus(t, Consumed) +
              WithStatus(t, Expired) + WithStatus(t, Revoked)
  {
  }

  lemma StatusesPartition(t: Table)
    ensures |WithStatus(t, Active)| + |WithStatus(t, Consuming)| + |WithStatus(t, Consumed)| + |WithStatus(t, Expired)|
            + |WithStatus(t, Revoked)| == |t|
  {
    hide WithStatus;
    forall s, s' | s != s' ensures WithStatus(t, s) !! WithStatus(t, s') {
      TwoStatuses(t, s, s');
    }
    SomeStatus(t);
    FiveParts(WithStatus(t, Active), WithStatus(t, Consuming), WithStatus(t, Consumed), WithStatus(t, Expired),
              WithStatus(t, Revoked));
    assert |t| == |t.Keys|;
  }

  lemma CountsOfColumns(t: Table)
    ensures |set id | id in t && (t[id].status.Active? || t[id].status.Consuming?)|
            == |WithStatus(t, Active)| + |WithStatus(t, Consuming)|
    ensures |set id | id in t && t[id].status.Consumed?| == |WithStatus(t, Consumed)|
    ensures |set id | id in t && t[id].status.Expired?| == |WithStatus(t, Expired)|
    ensures |set id | id in t && t[id].status.Revoked?| == |WithStatus(t, Revoked)|
  {
    TwoStatuses(t, Active, Consuming);
    assert (set id | id in t && (t[id].status.Active? || t[id].status.Consuming?))
           == WithStatus(t, Active) + WithStatus(t, Consuming);
    assert (set id | id in t && t[id].status.Consumed?) == WithStatus(t, Consumed);
    assert (set id | id in t && t[id].status.Expired?) == WithStatus(t, Expired);
    assert (set id | id in t && t[id].status.Revoked?) == WithStatus(t, Revoked);
  }

  lemma ExecKeepsTokens(u: Update, t: Table, now: Time)
    requires UniqueTokens(t)
    ensures UniqueTokens(Exec(u, t, now)) && Exec(u, t, now).Keys == t.Keys
  {
    assert forall id | id in t :: Assign(u, t[id], now).tokenHash == t[id].tokenHash;
  }

  lemma CleanupKeepsTokens(t: Table, c: int, e: int, v: int, leaseSeconds: int, now: Time)
    requires UniqueTokens(t)
    ensures UniqueTokens(CleanupTable(t, c, e, v, leaseSeconds, now))
  {
    hide Exec;
    ExecKeepsTokens(ExpireActive, t, now);
    ExecKeepsTokens(RestoreStale(leaseSeconds), Exec(ExpireActive, t, now), now);
    ExecKeepsTokens(ClearPayloads(c, e, v), Exec(RestoreStale(leaseSeconds), Exec(ExpireActive, t, now), now), now);
  }

  /** Cleanup row by row: the same three statements on one row. */
  function UpdateRow(u: Update, id: Id, r: Row, now: Time): Row {
    if Matches(u, id, r, now) then Assign(u, r, now) else r
  }

  function CleanRow(id: Id, r: Row, c: int, e: int, v: int, leaseSeconds: int, now: Time): Row {
    UpdateRow(ClearPayloads(c, e, v), id,
              UpdateRow(RestoreStale(leaseSeconds), id, UpdateRow(ExpireActive, id, r, now), now), now)
  }

  lemma CleanupIsRowByRow(t: Table, c: int, e: int, v: int, leaseSeconds: int, now: Time)
    ensures CleanupTable(t, c, e, v, leaseSeconds, now) == map id | id in t ::
        CleanRow(id, t[id], c, e, v, leaseSeconds, now)
  {
    hide Matches, Assign;
  }

  /** One Cleanup on one row, column by column: at most one of the three statements finds it, unless the row has just
      expired and retention is not positive. */
  lemma CleanupInColumns(t: Table, id: Id, c: int, e: int, v: int, leaseSeconds: int, now: Time)
    requires id in t
    ensures var r, t' := t[id], CleanupTable(t, c, e, v, leaseSeconds, now);
            && t'.Keys == t.Keys
            && t'[id] ==
              if r.status.Active? && r.expiresAt <= now then
                r.(status := Expired, payload := if e <= 0 then "" else r.payload, updatedAt := now)
              else if && r.status.Consuming? && r.startedAt.Some?
                      && r.startedAt.value + leaseSeconds * SECOND < now < r.expiresAt then
                r.(status := Active, startedAt := None, leaseId := None, updatedAt := now)
              else if && r.payload != ""
                      && (|| (r.status.Consumed? && r.consumedAt.Some? && r.consumedAt.value + c * SECOND <= now)
                          || (r.status.Expired? && r.updatedAt + e * SECOND <= now)
                          || (r.status.Revoked? && r.revokedAt.Some? && r.revokedAt.value + v * SECOND <= now)) then
                r.(payload := "", updatedAt := now)
              else r
  {
    hide CleanupTable;
    CleanupIsRowByRow(t, c, e, v, leaseSeconds, now);
  }

  /** A cleaned row is not active past its expiry, and not under a stale lease unless past its expiry; an
      expired row keeps its ciphertext exactly until its marking time plus retention has passed. */
  predicate Cleaned(r: Row, r': Row, expiredSeconds: int, leaseSeconds: int, now: Time) {
    && !(r'.status.Active? && r'.expiresAt <= now)
    && (r'.status.Consuming? ==> !Stale(r', leaseSeconds, now) || r'.expiresAt <= now)
    && (r.status.Consuming? && r.expiresAt <= now ==> r' == r)
    && (r'.status.Expired? <==> r.status.Expired? || (r.status.Active? && r.expiresAt <= now))
    && (r.status.Expired? ==> r'.payload == if Past(r.updatedAt, expiredSeconds, now) then "" else r.payload)
    && (r.status.Active? && r'.status.Expired? ==> r'.payload == if expiredSeconds <= 0 then "" else r.payload)
  }

  lemma CleanRowIsCleaned(id: Id, r: Row, c: int, e: int, v: int, leaseSeconds: int, now: Time)
    ensures Cleaned(r, CleanRow(id, r, c, e, v, leaseSeconds, now), e, leaseSeconds, now)
  {
  }

  lemma CleanupPostState(t: Table, id: Id, c: int, e: int, v: int, leaseSeconds: int, now: Time)
    requires id in t
    ensures id in CleanupTable(t, c, e, v, leaseSeconds, now)
    ensures Cleaned(t[id], CleanupTable(t, c, e, v, leaseSeconds, now)[id], e, leaseSeconds, now)
  {
    hide CleanupTable, CleanRow, Cleaned;
    CleanupIsRowByRow(t, c, e, v, leaseSeconds, now);
    CleanRowIsCleaned(id, t[id], c, e, v, leaseSeconds, now);
  }

  lemma CleanRowIsClean(id: Id, r: Row, c: int, e: int, v: int, leaseSeconds: int, now: Time)
    ensures var r' := CleanRow(id, r, c, e, v, leaseSeconds, now);
            && !Matches(ExpireActive, id, r', now) && !Matches(RestoreStale(leaseSeconds), id, r', now)
            && !Matches(ClearPayloads(c, e, v), id, r', now)
  {
  }

  /** A second Cleanup at the same moment changes nothing and reports all zeros. */
  lemma CleanupIsIdempotent(t: Table, c: int, e: int, v: int, leaseSeconds: int, now: Time)
    ensures var t' := CleanupTable(t, c, e, v, leaseSeconds, now);
            && CleanupTable(t', c, e, v, leaseSeconds, now) == t'
            && Affected(ExpireActive, t', t'.Keys, now) == {}
            && Affected(RestoreStale(leaseSeconds), t', t'.Keys, now) == {}
            && Affected(ClearPayloads(c, e, v), t', t'.Keys, now) == {}
  {
    hide Matches, Exec, CleanRow, Affected;
    var t' := CleanupTable(t, c, e, v, leaseSeconds, now);
    CleanupIsRowByRow(t, c, e, v, leaseSeconds, now);
    forall id | id in t'
      ensures !Matches(ExpireActive, id, t'[id], now) && !Matches(RestoreStale(leaseSeconds), id, t'[id], now)
      ensures !Matches(ClearPayloads(c, e, v), id, t'[id], now)
    {
      CleanRowIsClean(id, t[id], c, e, v, leaseSeconds, now);
    }
    NothingToDo(ExpireActive, t', now);
    NothingToDo(RestoreStale(leaseSeconds), t', now);
    NothingToDo(ClearPayloads(c, e, v), t', now);
  }

  lemma NothingToDo(u: Update, t: Table, now: Time)
    requires forall id | id in t :: !Matches(u, id, t[id], now)
    ensures Exec(u, t, now) == t && Affected(u, t, t.Keys, now) == {}
  {
  }
}
