/**
 What Cleanup does not recover.  The documentation says that stale leases are restored and that expired
 payloads are blanked; the code restores a lease only before the delivery's expiry, and expires active rows
 only.  A delivery whose holder dies and which then passes its expiry is out of reach of both.
 */
module Stranding {
  import opened Wrappers
  import opened Rows
  import opened DeliveryRepository
  import opened Protocol
  import opened Invariants
  import opened SoloRuns

  /** Cleanup gives a stale lease back exactly when the delivery has not passed its expiry. */
  lemma StaleLeaseIsRecoveredIff(id: Id, r: Row, c: int, e: int, v: int, leaseSeconds: int, now: Time)
    requires r.status.Consuming? && Stale(r, leaseSeconds, now)
    ensures CleanRow(id, r, c, e, v, leaseSeconds, now).status.Active? <==> now < r.expiresAt
    ensures !CleanRow(id, r, c, e, v, leaseSeconds, now).status.Active? <==>
            CleanRow(id, r, c, e, v, leaseSeconds, now) == r
  {
  }

  /** A row past its expiry leaves Cleanup open exactly when it came in under a lease. */
  lemma PastExpiryIsExpiredIff(id: Id, r: Row, c: int, e: int, v: int, leaseSeconds: int, now: Time)
    requires r.expiresAt <= now
    ensures CleanRow(id, r, c, e, v, leaseSeconds, now).status in {Active, Consuming} <==> r.status.Consuming?
  {
  }

  /** Under a lease and past its expiry, a row answers to a revocation and to its own lease only. */
  lemma OnlyTheHolderMatches(u: Update, id: Id, r: Row, now: Time)
    requires r.status.Consuming? && r.expiresAt <= now && Matches(u, id, r, now)
    ensures u == Revoke(id) || ((u.Restore? || u.Complete?) && r.leaseId == Some(u.lease))
  {
  }

  lemma SenderOfLease(cfg: Config, w: World, a: Step)
    requires Enabled(cfg, w, a) && Sends(a)
    ensures StatementOf(cfg, w, a).Restore? || StatementOf(cfg, w, a).Complete? ==>
              && (a.GiveBack? || a.Finish?) && w.clients[a.c].phase.lease == StatementOf(cfg, w, a).lease
              && !w.clients[a.c].phase.Done?
    ensures StatementOf(cfg, w, a).Revoke? ==> a.RevokeRow? && StatementOf(cfg, w, a) == Revoke(a.id)
  {
    hide Matches, Ran, IsHit;
  }

  /** The row is under a lease whose holder has answered or crashed. */
  ghost predicate Orphaned(w: World, id: Id) {
    && id in w.rows && w.rows[id].status.Consuming? && w.rows[id].leaseId.Some? && w.rows[id].leaseId.value in w.leases
    && w.leases[w.rows[id].leaseId.value] in w.clients
    && w.clients[w.leases[w.rows[id].leaseId.value]].phase.Done?
  }

  lemma OrphanIsKept(cfg: Config, w: World, a: Step, id: Id)
    requires Inv(cfg, w) && Enabled(cfg, w, a) && Orphaned(w, id)
    requires (Sends(a) || a.Sweep? ==> a.now >= w.rows[id].expiresAt) && !(a.RevokeRow? && a.id == id)
    ensures id in NextRows(cfg, w, a) && NextRows(cfg, w, a)[id] == w.rows[id]
  {
    hide Matches, Assign, StatementOf, NextRows, Ran, IsCandidate, RowsOk;
    StepKeepsInv(cfg, w, a);
    if NextRows(cfg, w, a)[id] != w.rows[id] {
      if Sends(a) {
        ChangedRow(cfg, w, a, id);
        OnlyTheHolderMatches(StatementOf(cfg, w, a), id, w.rows[id], a.now);
        SenderOfLease(cfg, w, a);
      } else if a.Sweep? {
        SweptRow(cfg, w, a, id);
        OnlyTheHolderMatches(a.u, id, w.rows[id], a.now);
      } else {
        OtherStepsKeepRow(cfg, w, a, id);
      }
    }
  }

  lemma SweptRow(cfg: Config, w: World, a: Step, id: Id)
    requires Enabled(cfg, w, a) && a.Sweep? && id in w.rows && NextRows(cfg, w, a)[id] != w.rows[id]
    ensures Matches(a.u, id, w.rows[id], a.now) && !SingleRow(a.u)
  {
    hide Matches, Assign;
  }

  /** Nothing but a revocation ever moves a delivery whose holder is gone and whose expiry has passed:
      no Cleanup, no later Consume, no password change, however often they run; its ciphertext stays. */
  lemma {:induction false} OrphanIsStranded(cfg: Config, run: seq<Step>, k: nat, id: Id)
    requires Valid(cfg, run) && k <= |run| && Orphaned(At(cfg, run, k), id)
    requires forall i | k <= i < |run| ::
               && (Sends(run[i]) || run[i].Sweep? ==> run[i].now >= At(cfg, run, k).rows[id].expiresAt)
               && !(run[i].RevokeRow? && run[i].id == id)
    ensures id in After(cfg, run).rows && After(cfg, run).rows[id] == At(cfg, run, k).rows[id]
    ensures Orphaned(After(cfg, run), id) && After(cfg, run).rows[id].payload != ""
  {
    hide Enabled, NextRows, NextClients, Emitted, ClientOk, RowsEvolve;
    RunKeepsInv(cfg, run);
    if k == |run| {
      assert run[..k] == run;
    } else {
      var before, a := run[..|run| - 1], run[|run| - 1];
      assert before[..k] == run[..k];
      assert forall i | k <= i < |before| :: before[i] == run[i];
      OrphanIsStranded(cfg, before, k, id);
      RunKeepsInv(cfg, before);
      OrphanIsKept(cfg, After(cfg, before), a, id);
      StepKeepsInv(cfg, After(cfg, before), a);
    }
    assert RowOk(After(cfg, run).rows[id], After(cfg, run).inserted[id]);
  }

  lemma CrashStage(cfg: Config, w: World, c: ClientId, id: Id, l: LeaseId) returns (a: Step)
    requires RowsOk(w) && c in w.clients && w.clients[c].phase.Leased? && w.leases == w.leases[l := c]
    requires id in w.rows && w.rows[id].status.Consuming? && w.rows[id].leaseId == Some(l)
    ensures Enabled(cfg, w, a) && Next(cfg, w, a).rows == w.rows && Orphaned(Next(cfg, w, a), id)
  {
    a := Crash(c);
  }

  lemma TakenRow(r: Row, id: Id, lease: LeaseId, leaseSeconds: int, t: Time)
    requires Takeable(r, leaseSeconds, t)
    ensures var u := Begin(r.tokenHash, r.passwordHash, lease, leaseSeconds);
            && Matches(u, id, r, t)
            && UpdateRow(u, id, r, t) ==
                r.(status := Consuming, startedAt := Some(t), leaseId := Some(lease), updatedAt := t)
  {
  }

  lemma LeaseStageIssues(cfg: Config, w: World, c: ClientId, id: Id, lease: LeaseId, t2: Time) returns (a: Step)
    requires RowsOk(w) && c in w.clients && id in w.rows && w.clients[c].token == w.rows[id].tokenHash
    requires lease !in w.leases
    requires w.clients[c].phase == Found(w.rows[id].passwordHash)
    requires PasswordGood(cfg, w.clients[c].password, w.rows[id].passwordHash)
    requires Takeable(w.rows[id], cfg.leaseSeconds, t2)
    ensures Enabled(cfg, w, a) && RowsOk(Next(cfg, w, a)) && Next(cfg, w, a).leases == w.leases[lease := c]
    ensures c in Next(cfg, w, a).clients && Next(cfg, w, a).clients[c].phase == Leased(id, lease, w.rows[id].payload)
    ensures Next(cfg, w, a).rows ==
              w.rows[id := w.rows[id].(status := Consuming, startedAt := Some(t2), leaseId := Some(lease),
                                       updatedAt := t2)]
  {
    TakenRow(w.rows[id], id, lease, cfg.leaseSeconds, t2);
    hide Matches, Assign, UpdateRow, RowOk, UniqueTokens, Takeable, RowsOk;
    var u := Begin(w.rows[id].tokenHash, w.rows[id].passwordHash, lease, cfg.leaseSeconds);
    HitIs(u, w, id, t2);
    a := TakeLease(c, lease, Some(id), t2, Answered);
    Taken(cfg, w, c, id, lease, t2);
  }

  lemma Taken(cfg: Config, w: World, c: ClientId, id: Id, lease: LeaseId, t2: Time)
    requires RowsOk(w) && Enabled(cfg, w, TakeLease(c, lease, Some(id), t2, Answered)) && id in w.rows
    ensures var w' := Next(cfg, w, TakeLease(c, lease, Some(id), t2, Answered));
            && RowsOk(w') && w'.leases == w.leases[lease := c]
            && c in w'.clients && w'.clients[c].phase == Leased(id, lease, w.rows[id].payload)
            && w'.rows == w.rows[id := w.rows[id].(status := Consuming, startedAt := Some(t2), leaseId := Some(lease),
                                                   updatedAt := t2)]
  {
    StepKeepsRows(cfg, w, TakeLease(c, lease, Some(id), t2, Answered));
    hide RowsOk, Ran, IsCandidate;
  }

  /** In any reachable state, any caller that may reveal a delivery can strand it by dying at the wrong moment. */
  lemma CrashCanStrand(cfg: Config, run: seq<Step>, c: ClientId, id: Id, password: string, lease: LeaseId, t1: Time,
                       t2: Time)
    returns (more: seq<Step>)
    requires Valid(cfg, run) && c !in After(cfg, run).clients && id in After(cfg, run).rows
    requires lease !in After(cfg, run).leases
    requires PasswordGood(cfg, password, After(cfg, run).rows[id].passwordHash)
    requires Takeable(After(cfg, run).rows[id], cfg.leaseSeconds, t1)
    requires Takeable(After(cfg, run).rows[id], cfg.leaseSeconds, t2)
    ensures Valid(cfg, run + more) && Orphaned(After(cfg, run + more), id)
    ensures After(cfg, run + more).rows[id].expiresAt == After(cfg, run).rows[id].expiresAt
  {
    hide Matches, Enabled, Next, RowsOk, Takeable, ClientOk;
    RunKeepsInv(cfg, run);
    var w := After(cfg, run);
    var a1 := ArriveStage(cfg, w, c, id, password);
    var w1 := Next(cfg, w, a1);
    var a2 := FindStage(cfg, w1, c, id, t1);
    var w2 := Next(cfg, w1, a2);
    var a3 := LeaseStageIssues(cfg, w2, c, id, lease, t2);
    var w3 := Next(cfg, w2, a3);
    var a4 := CrashStage(cfg, w3, c, id, lease);
    var w4 := Next(cfg, w3, a4);
    LeadsOne(cfg, w3, a4, [], w4);
    LeadsOne(cfg, w2, a3, [a4] + [], w4);
    LeadsOne(cfg, w1, a2, [a3] + ([a4] + []), w4);
    LeadsOne(cfg, w, a1, [a2] + ([a3] + ([a4] + [])), w4);
    more := [a1] + ([a2] + ([a3] + ([a4] + [])));
    LeadsExtendsRun(cfg, run, more, w4);
  }

  /** Before the expiry a dead holder is superseded instead: once its lease has run out, the right password of a new
      caller gets the payload that was inserted, from every reachable state. */
  lemma DeadHolderIsSuperseded(cfg: Config, run: seq<Step>, c: ClientId, id: Id, password: string, lease: LeaseId,
                               s: Time, t1: Time, t2: Time, t3: Time)
    returns (more: seq<Step>)
    requires Valid(cfg, run) && Orphaned(After(cfg, run), id) && c !in After(cfg, run).clients
    requires lease !in After(cfg, run).leases && After(cfg, run).rows[id].startedAt == Some(s)
    requires s + cfg.leaseSeconds * SECOND < t1 < After(cfg, run).rows[id].expiresAt
    requires s + cfg.leaseSeconds * SECOND < t2 < After(cfg, run).rows[id].expiresAt
    requires var hash := After(cfg, run).rows[id].passwordHash; hash.None? || cfg.verify(password, hash.value)
    requires cfg.decrypt(After(cfg, run).rows[id].payload).Some?
    requires cfg.decode(cfg.decrypt(After(cfg, run).rows[id].payload).value).Some?
    ensures Valid(cfg, run + more) && c in After(cfg, run + more).clients && id in After(cfg, run).inserted
    ensures var plain := cfg.decrypt(After(cfg, run).inserted[id].payload);
            && plain.Some? && cfg.decode(plain.value).Some?
            && After(cfg, run + more).clients[c].phase == Done(Reveal(id, cfg.decode(plain.value).value))
    ensures id in After(cfg, run + more).rows && After(cfg, run + more).rows[id].status.Consumed?
    ensures After(cfg, run + more).rows[id].consumedAt == Some(t3) && After(cfg, run + more).rows[id].payload == ""
  {
    hide Enabled, Next, NextRows, NextClients, Emitted, ClientOk;
    RunKeepsInv(cfg, run);
    assert RowOk(After(cfg, run).rows[id], After(cfg, run).inserted[id]);
    more := SoloIsARun(cfg, run, c, id, password, lease, t1, t2, t3, true);
  }

  /** A concrete stranding: one insert, one caller that takes the lease and is cut off, and the clock.  The lease is
      stale, the delivery is past its expiry, and Cleanup changes nothing. */
  lemma StrandingHappens(cfg: Config) returns (run: seq<Step>, id: Id, now: Time)
    ensures Valid(cfg, run) && Orphaned(After(cfg, run), id)
    ensures Stale(After(cfg, run).rows[id], cfg.leaseSeconds, now) && After(cfg, run).rows[id].expiresAt <= now
    ensures forall c, e, v ::
              CleanRow(id, After(cfg, run).rows[id], c, e, v, cfg.leaseSeconds, now) == After(cfg, run).rows[id]
  {
    id := 0;
    var first := OneDelivery(cfg, "ciphertext");
    var more := CrashCanStrand(cfg, first, 0, id, "", 0, 1, 2);
    run := first + more;
    RunKeepsInv(cfg, run);
    var r := After(cfg, run).rows[id];
    assert RowOk(r, After(cfg, run).inserted[id]);
    var stale := r.startedAt.value + cfg.leaseSeconds * SECOND + 1;
    now := if stale < r.expiresAt then r.expiresAt else stale;
    forall c, e, v ensures CleanRow(id, r, c, e, v, cfg.leaseSeconds, now) == r {
      LeasedPastExpiryIsLeftAlone(id, r, c, e, v, cfg.leaseSeconds, now);
    }
  }

  lemma LeasedPastExpiryIsLeftAlone(id: Id, r: Row, c: int, e: int, v: int, leaseSeconds: int, now: Time)
    requires r.status.Consuming? && r.expiresAt <= now
    ensures CleanRow(id, r, c, e, v, leaseSeconds, now) == r
  {
  }
}
