/** Who owns a delivery while it is being consumed, and for how long. */
module Leases {
  import opened Wrappers
  import opened Rows
  import opened Protocol
  import opened Invariants
  import opened OneTime

  /** A lease that has left its row never returns to it. */
  lemma {:induction false} LostLeaseStaysLost(cfg: Config, run: seq<Step>, k: nat, id: Id, l: LeaseId)
    requires Valid(cfg, run) && k <= |run| && id in At(cfg, run, k).rows
    requires l in At(cfg, run, k).leases && At(cfg, run, k).rows[id].leaseId != Some(l)
    ensures id in After(cfg, run).rows && After(cfg, run).rows[id].leaseId != Some(l)
  {
    RunEvolves(cfg, run, k);
    var w, w' := At(cfg, run, k), After(cfg, run);
    assert RowEvolves(w.leases, w.rows[id], w'.rows[id]);
  }

  lemma StaleHolderMissesTheRow(cfg: Config, w: World, a: Step, id: Id, l: LeaseId)
    requires Enabled(cfg, w, a) && (a.Finish? || a.GiveBack?) && HoldsLease(w.clients[a.c].phase, id, l)
    requires id in w.rows && w.rows[id].leaseId != Some(l)
    ensures Next(cfg, w, a).rows == w.rows && Next(cfg, w, a).log == w.log
    ensures Next(cfg, w, a).clients[a.c].phase in {Done(Internal), Done(Unavailable), Done(Dependency)}
  {
    hide IsCandidate, Assign;
  }

  /** Once superseded at point k of the run, a client's CompleteConsume or RestoreConsume changes no row, whenever it
      comes. */
  lemma {:induction false} SupersededClientIsInert(cfg: Config, run: seq<Step>, k: nat, id: Id, l: LeaseId, a: Step)
    requires Valid(cfg, run) && k <= |run| && id in At(cfg, run, k).rows
    requires l in At(cfg, run, k).leases && At(cfg, run, k).rows[id].leaseId != Some(l)
    requires Enabled(cfg, After(cfg, run), a) && (a.Finish? || a.GiveBack?)
    requires HoldsLease(After(cfg, run).clients[a.c].phase, id, l)
    ensures Next(cfg, After(cfg, run), a).rows == After(cfg, run).rows
    ensures !HasCommitted(Next(cfg, After(cfg, run), a).clients[a.c].phase, id)
  {
    LostLeaseStaysLost(cfg, run, k, id, l);
    StaleHolderMissesTheRow(cfg, After(cfg, run), a, id, l);
  }

  /** At any moment at most one client holds the lease that stands in the row. */
  lemma {:induction false} OneCurrentHolder(cfg: Config, run: seq<Step>, id: Id, l: LeaseId, c1: ClientId, c2: ClientId)
    requires Valid(cfg, run) && c1 in After(cfg, run).clients && c2 in After(cfg, run).clients
    requires id in After(cfg, run).rows && After(cfg, run).rows[id].leaseId == Some(l)
    requires HoldsLease(After(cfg, run).clients[c1].phase, id, l)
    requires HoldsLease(After(cfg, run).clients[c2].phase, id, l)
    ensures c1 == c2
  {
    RunKeepsInv(cfg, run);
    var w := After(cfg, run);
    assert ClientOk(cfg, w, c1, w.clients[c1]) && ClientOk(cfg, w, c2, w.clients[c2]);
  }

  predicate Timed(a: Step) {
    !(a.Arrive? || a.Decrypt? || a.Reply? || a.Crash? || a.RevokeRead?)
  }

  /** The clock the statements read does not run backwards. */
  ghost predicate Ordered(run: seq<Step>) {
    forall i, j | 0 <= i < j < |run| && Timed(run[i]) && Timed(run[j]) :: run[i].now <= run[j].now
  }

  /** Some statement of the run has read a clock later than t. */
  ghost predicate Elapsed(run: seq<Step>, t: Time) {
    exists k :: 0 <= k < |run| && Timed(run[k]) && run[k].now > t
  }

  ghost predicate Returned(log: seq<Event>, i: int, j: int, id: Id, l: LeaseId) {
    exists k :: i < k < j <= |log| && 0 <= k && log[k] == LeaseReturned(id, l)
  }

  predicate Final(s: Status) {
    s.Consumed? || s.Revoked? || s.Expired?
  }

  predicate Standing(rows: Table, id: Id, l: LeaseId, at: Time) {
    id in rows && rows[id].leaseId == Some(l) && rows[id].startedAt == Some(at)
  }

  /** A lease ends only by its holder's return, by its time running out, or with the delivery itself. */
  ghost predicate LeaseFate(cfg: Config, rows: Table, log: seq<Event>, run: seq<Step>, i: nat)
    requires i < |log| && log[i].LeaseTaken?
  {
    var e := log[i];
    && e.id in rows
    && (|| Standing(rows, e.id, e.lease, e.at)
        || Returned(log, i, |log|, e.id, e.lease)
        || Elapsed(run, e.at + cfg.leaseSeconds * SECOND)
        || Final(rows[e.id].status))
  }

  ghost predicate LeasesAccounted(cfg: Config, w: World, run: seq<Step>) {
    forall i | 0 <= i < |w.log| && w.log[i].LeaseTaken? :: LeaseFate(cfg, w.rows, w.log, run, i)
  }

  ghost predicate LeasesSeparated(cfg: Config, log: seq<Event>) {
    forall i, j | 0 <= i < j < |log| && log[i].LeaseTaken? && log[j].LeaseTaken? && log[i].id == log[j].id ::
      log[j].at > log[i].at + cfg.leaseSeconds * SECOND || Returned(log, i, j, log[i].id, log[i].lease)
  }

  /** One statement on a leased row. */
  lemma LeaseLeavesRow(u: Update, id: Id, r: Row, o: Row, now: Time, leaseSeconds: int)
    requires RowOk(r, o) && r.status.Consuming? && Matches(u, id, r, now)
    requires u.Begin? || u.RecordFailure? || u.RestoreStale? ==> u.leaseSeconds == leaseSeconds
    ensures || r.startedAt.value + leaseSeconds * SECOND < now
            || (u.Restore? && r.leaseId == Some(u.lease) && id == u.id)
            || Final(Assign(u, r, now).status)
  {
  }

  lemma StatementShape(cfg: Config, w: World, a: Step)
    requires Enabled(cfg, w, a) && Sends(a)
    ensures StatementOf(cfg, w, a).Begin? || StatementOf(cfg, w, a).RecordFailure? ==>
              StatementOf(cfg, w, a).leaseSeconds == cfg.leaseSeconds
    ensures !StatementOf(cfg, w, a).RestoreStale?
    ensures StatementOf(cfg, w, a).Restore? && a.hit.Some? ==>
              Emitted(cfg, w, a) == Some(LeaseReturned(a.hit.value, StatementOf(cfg, w, a).lease))
  {
    hide Matches, Assign, Ran, NextRows;
  }

  lemma SingleLeavesLease(cfg: Config, w: World, a: Step, id: Id, l: LeaseId, t: Time)
    requires RowsOk(w) && Enabled(cfg, w, a) && Sends(a) && Standing(w.rows, id, l, t)
    requires id in NextRows(cfg, w, a) && NextRows(cfg, w, a)[id] != w.rows[id]
    ensures || t + cfg.leaseSeconds * SECOND < a.now
            || Final(NextRows(cfg, w, a)[id].status)
            || Emitted(cfg, w, a) == Some(LeaseReturned(id, l))
  {
    hide Ran, IsHit, IsCandidate, Matches, Assign, StatementOf, NextRows, Emitted, UniqueTokens;
    ChangedRow(cfg, w, a, id);
    StatementShape(cfg, w, a);
    LeaseLeavesRow(StatementOf(cfg, w, a), id, w.rows[id], w.inserted[id], a.now, cfg.leaseSeconds);
  }

  lemma SweepLeavesLease(cfg: Config, w: World, a: Step, id: Id, l: LeaseId, t: Time)
    requires RowsOk(w) && Enabled(cfg, w, a) && a.Sweep? && Standing(w.rows, id, l, t)
    requires id in NextRows(cfg, w, a) && NextRows(cfg, w, a)[id] != w.rows[id]
    ensures t + cfg.leaseSeconds * SECOND < a.now || Final(NextRows(cfg, w, a)[id].status)
  {
    hide Matches, Assign, IsCandidate, UniqueTokens, Emitted;
    LeaseLeavesRow(a.u, id, w.rows[id], w.inserted[id], a.now, cfg.leaseSeconds);
  }

  lemma ReturnedStays(log: seq<Event>, log': seq<Event>, i: nat, j: nat, id: Id, l: LeaseId)
    requires log <= log' && j <= |log| && Returned(log, i, j, id, l)
    ensures forall j' | j <= j' <= |log'| :: Returned(log', i, j', id, l)
  {
    var k :| i < k < j && log[k] == LeaseReturned(id, l);
    assert log'[k] == log[k];
  }

  lemma ElapsedStays(run: seq<Step>, a: Step, t: Time)
    requires Elapsed(run, t) || (Timed(a) && a.now > t)
    ensures Elapsed(run + [a], t)
  {
    if Elapsed(run, t) {
      var k :| 0 <= k < |run| && Timed(run[k]) && run[k].now > t;
      assert (run + [a])[k] == run[k];
    } else {
      assert (run + [a])[|run|] == a;
    }
  }

  lemma FateAfterStep(cfg: Config, w: World, a: Step, run: seq<Step>, i: nat)
    requires RowsOk(w) && Enabled(cfg, w, a) && Evolves(w, Next(cfg, w, a))
    requires i < |w.log| && w.log[i].LeaseTaken? && LeaseFate(cfg, w.rows, w.log, run, i)
    ensures i < |Next(cfg, w, a).log| && LeaseFate(cfg, Next(cfg, w, a).rows, Next(cfg, w, a).log, run + [a], i)
  {
    hide Enabled, UniqueTokens, NextRows, NextClients, Emitted, Returned, Elapsed, RowOk;
    var w', e, t := Next(cfg, w, a), w.log[i], w.log[i].at + cfg.leaseSeconds * SECOND;
    assert w'.log[i] == e && RowEvolves(w.leases, w.rows[e.id], w'.rows[e.id]);
    if Returned(w.log, i, |w.log|, e.id, e.lease) {
      ReturnedStays(w.log, w'.log, i, |w.log|, e.id, e.lease);
    } else if Elapsed(run, t) {
      ElapsedStays(run, a, t);
    } else if Standing(w.rows, e.id, e.lease, e.at) && w'.rows[e.id] != w.rows[e.id] {
      LeaseEnds(cfg, w, a, e.id, e.lease, e.at);
      if Timed(a) && a.now > t {
        ElapsedStays(run, a, t);
      } else if Emitted(cfg, w, a) == Some(LeaseReturned(e.id, e.lease)) {
        ReturnedNow(w.log, i, e.id, e.lease);
      }
    }
  }

  lemma ReturnedNow(log: seq<Event>, i: nat, id: Id, l: LeaseId)
    requires i < |log|
    ensures Returned(log + [LeaseReturned(id, l)], i, |log| + 1, id, l)
  {
    assert (log + [LeaseReturned(id, l)])[|log|] == LeaseReturned(id, l);
  }

  lemma LeaseEnds(cfg: Config, w: World, a: Step, id: Id, l: LeaseId, t: Time)
    requires RowsOk(w) && Enabled(cfg, w, a) && Standing(w.rows, id, l, t)
    requires id in Next(cfg, w, a).rows && Next(cfg, w, a).rows[id] != w.rows[id]
    ensures || (Timed(a) && t + cfg.leaseSeconds * SECOND < a.now)
            || Final(Next(cfg, w, a).rows[id].status)
            || Emitted(cfg, w, a) == Some(LeaseReturned(id, l))
  {
    hide Enabled, RowsOk, NextRows, Emitted, NextClients;
    if Sends(a) {
      SingleLeavesLease(cfg, w, a, id, l, t);
    } else if a.Sweep? {
      SweepLeavesLease(cfg, w, a, id, l, t);
    } else {
      OtherStepsKeepRow(cfg, w, a, id);
    }
  }

  /** What BeginConsume finds and leaves behind. */
  lemma TakerRow(cfg: Config, w: World, a: Step)
    requires Enabled(cfg, w, a) && a.TakeLease? && a.hit.Some?
    ensures a.hit.value in w.rows && !Final(w.rows[a.hit.value].status)
    ensures w.rows[a.hit.value].status.Consuming? ==> Stale(w.rows[a.hit.value], cfg.leaseSeconds, a.now)
    ensures Standing(Next(cfg, w, a).rows, a.hit.value, a.lease, a.now)
    ensures Next(cfg, w, a).log == w.log + [LeaseTaken(a.hit.value, a.lease, a.now)]
  {
    hide NextClients;
  }

  lemma OnlyTakersTake(cfg: Config, w: World, a: Step)
    requires Enabled(cfg, w, a)
    ensures Emitted(cfg, w, a).Some? && Emitted(cfg, w, a).value.LeaseTaken? <==> a.TakeLease? && a.hit.Some?
  {
    hide NextRows, Ran, IsCandidate, StatementOf;
  }

  lemma SeparationAfterStep(cfg: Config, w: World, a: Step, run: seq<Step>)
    requires RowsOk(w) && Enabled(cfg, w, a) && Ordered(run + [a])
    requires LeasesAccounted(cfg, w, run) && LeasesSeparated(cfg, w.log)
    ensures LeasesSeparated(cfg, Next(cfg, w, a).log)
  {
    hide Matches, Assign, Ran, IsHit, IsCandidate, UniqueTokens, StatementOf, NextRows, NextClients, Emitted, Ready;
    var w' := Next(cfg, w, a);
    OnlyTakersTake(cfg, w, a);
    if a.TakeLease? && a.hit.Some? {
      TakerRow(cfg, w, a);
    }
    forall i, j | 0 <= i < j < |w'.log| && w'.log[i].LeaseTaken? && w'.log[j].LeaseTaken?
           && w'.log[i].id == w'.log[j].id
      ensures w'.log[j].at > w'.log[i].at + cfg.leaseSeconds * SECOND
                || Returned(w'.log, i, j, w'.log[i].id, w'.log[i].lease)
    {
      assert w'.log[i] == w.log[i];
      if j < |w.log| {
        assert w'.log[j] == w.log[j];
        if Returned(w.log, i, j, w.log[i].id, w.log[i].lease) {
          ReturnedStays(w.log, w'.log, i, j, w.log[i].id, w.log[i].lease);
        }
      } else {
        NewLeaseIsSeparate(cfg, w, a, run, i);
        if Returned(w.log, i, |w.log|, w.log[i].id, w.log[i].lease) {
          ReturnedStays(w.log, w'.log, i, |w.log|, w.log[i].id, w.log[i].lease);
        }
      }
    }
  }

  lemma NewLeaseIsSeparate(cfg: Config, w: World, a: Step, run: seq<Step>, i: nat)
    requires RowsOk(w) && Enabled(cfg, w, a) && Ordered(run + [a]) && a.TakeLease? && a.hit.Some?
    requires i < |w.log| && w.log[i].LeaseTaken? && w.log[i].id == a.hit.value && LeaseFate(cfg, w.rows, w.log, run, i)
    ensures a.now > w.log[i].at + cfg.leaseSeconds * SECOND || Returned(w.log, i, |w.log|, w.log[i].id, w.log[i].lease)
  {
    hide Matches, Assign, Ran, IsHit, IsCandidate, UniqueTokens, StatementOf, NextRows, NextClients, Emitted, Ready;
    TakerRow(cfg, w, a);
    var t := w.log[i].at + cfg.leaseSeconds * SECOND;
    assert RowOk(w.rows[a.hit.value], w.inserted[a.hit.value]);
    if Elapsed(run, t) {
      var k :| 0 <= k < |run| && Timed(run[k]) && run[k].now > t;
      assert (run + [a])[k] == run[k] && (run + [a])[|run|] == a;
    }
  }

  lemma AccountedAfterStep(cfg: Config, w: World, a: Step, run: seq<Step>)
    requires RowsOk(w) && Enabled(cfg, w, a) && Evolves(w, Next(cfg, w, a)) && LeasesAccounted(cfg, w, run)
    ensures LeasesAccounted(cfg, Next(cfg, w, a), run + [a])
  {
    hide Matches, Assign, Ran, IsHit, IsCandidate, UniqueTokens, StatementOf, NextRows, NextClients, Emitted, Ready;
    var w' := Next(cfg, w, a);
    forall i | 0 <= i < |w'.log| && w'.log[i].LeaseTaken? ensures LeaseFate(cfg, w'.rows, w'.log, run + [a], i) {
      if i < |w.log| {
        assert w'.log[i] == w.log[i];
        FateAfterStep(cfg, w, a, run, i);
      } else {
        OnlyTakersTake(cfg, w, a);
        TakerRow(cfg, w, a);
      }
    }
  }

  lemma {:induction false} RunSeparatesLeases(cfg: Config, run: seq<Step>)
    requires Valid(cfg, run) && Ordered(run)
    ensures LeasesAccounted(cfg, After(cfg, run), run) && LeasesSeparated(cfg, After(cfg, run).log)
  {
    if run != [] {
      var before, a := run[..|run| - 1], run[|run| - 1];
      assert run == before + [a];
      RunSeparatesLeases(cfg, before);
      RunKeepsInv(cfg, before);
      StepKeepsInv(cfg, After(cfg, before), a);
      SeparationAfterStep(cfg, After(cfg, before), a, before);
      AccountedAfterStep(cfg, After(cfg, before), a, before);
    }
  }

  /** Under a nondecreasing clock, two BeginConsume commits on one delivery lie more than the lease
      length apart, unless the first holder gave its lease back in between. */
  lemma {:induction false} LeaseIsExclusive(cfg: Config, run: seq<Step>, i: nat, j: nat)
    requires Valid(cfg, run) && Ordered(run) && i < j < |After(cfg, run).log|
    requires After(cfg, run).log[i].LeaseTaken? && After(cfg, run).log[j].LeaseTaken?
    requires After(cfg, run).log[i].id == After(cfg, run).log[j].id
    ensures || After(cfg, run).log[j].at - After(cfg, run).log[i].at > cfg.leaseSeconds * SECOND
            || exists k :: i < k < j &&
                 After(cfg, run).log[k] == LeaseReturned(After(cfg, run).log[i].id, After(cfg, run).log[i].lease)
  {
    RunSeparatesLeases(cfg, run);
    var log := After(cfg, run).log;
    if Returned(log, i, j, log[i].id, log[i].lease) {
      var k :| i < k < j && log[k] == LeaseReturned(log[i].id, log[i].lease);
    }
  }

  /** The step behind an event of the history. */
  lemma {:induction false} EventHasStep(cfg: Config, run: seq<Step>, e: nat) returns (k: nat)
    requires Valid(cfg, run) && e < |After(cfg, run).log|
    ensures k < |run| && |At(cfg, run, k).log| == e && Enabled(cfg, At(cfg, run, k), run[k])
    ensures Emitted(cfg, At(cfg, run, k), run[k]) == Some(After(cfg, run).log[e])
  {
    hide Enabled, NextRows, NextClients, Emitted;
    var before := run[..|run| - 1];
    if e < |After(cfg, before).log| {
      k := EventHasStep(cfg, before, e);
      assert run[..k] == before[..k];
    } else {
      k := |run| - 1;
    }
  }

  /** A BeginConsume that committed, and its event. */
  lemma {:induction false} TakeIsLogged(cfg: Config, run: seq<Step>, i: nat, id: Id)
    requires Valid(cfg, run) && i < |run| && run[i].TakeLease? && run[i].hit == Some(id)
    ensures |At(cfg, run, i).log| < |After(cfg, run).log|
    ensures |At(cfg, run, i + 1).log| == |At(cfg, run, i).log| + 1
    ensures After(cfg, run).log[|At(cfg, run, i).log|] == LeaseTaken(id, run[i].lease, run[i].now)
  {
    hide Enabled, NextRows, NextClients, RowEvolves, ClientsEvolve;
    var w' := At(cfg, run, i + 1);
    assert run[..i + 1][..i] == run[..i];
    assert w'.log == At(cfg, run, i).log + [LeaseTaken(id, run[i].lease, run[i].now)];
    RunEvolves(cfg, run, i + 1);
  }

  lemma {:induction false} LogGrows(cfg: Config, run: seq<Step>, i: nat, j: nat)
    requires Valid(cfg, run) && i <= j <= |run|
    ensures |At(cfg, run, i).log| <= |At(cfg, run, j).log|
  {
    hide Enabled, Next, RowsEvolve;
    PrefixIsValid(cfg, run, j);
    assert run[..j][..i] == run[..i];
    RunEvolves(cfg, run[..j], i);
  }

  lemma ReturnIsGiveBack(cfg: Config, w: World, a: Step, id: Id, l: LeaseId)
    requires Enabled(cfg, w, a) && Emitted(cfg, w, a) == Some(LeaseReturned(id, l))
    ensures a.GiveBack? && a.hit == Some(id) && a.c in w.clients && w.clients[a.c].phase == DecryptFailed(id, l)
  {
    hide NextRows;
  }

  /** The same in steps: between two BeginConsume commits on one delivery that lie no more than the lease length apart,
      the first holder's RestoreConsume has given its lease back. */
  lemma {:induction false} LeaseIsExclusiveInSteps(cfg: Config, run: seq<Step>, i: nat, j: nat, id: Id)
    returns (k: nat)
    requires Valid(cfg, run) && Ordered(run) && i < j < |run|
    requires run[i].TakeLease? && run[i].hit == Some(id) && run[j].TakeLease? && run[j].hit == Some(id)
    ensures run[j].now - run[i].now <= cfg.leaseSeconds * SECOND ==>
              && i < k < j && run[k].GiveBack? && run[k].hit == Some(id)
              && run[k].c in At(cfg, run, k).clients
              && At(cfg, run, k).clients[run[k].c].phase == DecryptFailed(id, run[i].lease)
  {
    hide Enabled, Next, RowsEvolve, Emitted;
    k := 0;
    var log, ei, ej := After(cfg, run).log, |At(cfg, run, i).log|, |At(cfg, run, j).log|;
    TakeIsLogged(cfg, run, i, id);
    TakeIsLogged(cfg, run, j, id);
    LogGrows(cfg, run, i + 1, j);
    LeaseIsExclusive(cfg, run, ei, ej);
    if run[j].now - run[i].now <= cfg.leaseSeconds * SECOND {
      var e :| ei < e < ej && log[e] == LeaseReturned(id, run[i].lease);
      k := EventHasStep(cfg, run, e);
      if k <= i {
        LogGrows(cfg, run, k, i);
      }
      if k >= j {
        LogGrows(cfg, run, j, k);
      }
      ReturnIsGiveBack(cfg, At(cfg, run, k), run[k], id, run[i].lease);
    }
  }
}
