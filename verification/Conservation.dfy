/** What Cleanup reports over a whole run adds up to what the table shows. */
module Conservation {
  import opened Wrappers
  import opened Rows
  import opened Protocol
  import opened Invariants
  import opened DeliveryRepository
  import opened SoloRuns

  function ExpiredIds(t: Table): set<Id> {
    set id | id in t && t[id].status.Expired?
  }

  function BlankExpiredIds(t: Table): set<Id> {
    set id | id in t && t[id].status.Expired? && t[id].payload == ""
  }

  /** A cleanup statement whose count its caller learns, or one whose count is lost with the reply. */
  predicate Counted(e: Event, expiring: bool, answered: bool) {
    e.Swept? && e.answered == answered && if expiring then e.u.ExpireActive? else e.u.ClearPayloads?
  }

  /** The rows of those statements, summed over the run: CleanupResult.Expired or CleanupResult.PayloadsCleared. */
  function Sum(log: seq<Event>, expiring: bool, answered: bool): nat {
    if log == [] then 0
    else
      Sum(log[..|log| - 1], expiring, answered) +
      if Counted(log[|log| - 1], expiring, answered) then log[|log| - 1].rows else 0
  }

  lemma SumOf(log: seq<Event>, e: Event, expiring: bool, answered: bool)
    ensures Sum(log + [e], expiring, answered) ==
              Sum(log, expiring, answered) + if Counted(e, expiring, answered) then e.rows else 0
  {
    assert (log + [e])[..|log|] == log && (log + [e])[|log|] == e;
  }

  /** Nothing is lost exactly when every statement whose reply was lost had found nothing to do. */
  lemma {:induction false} SumIsZeroIff(log: seq<Event>, expiring: bool, answered: bool)
    ensures Sum(log, expiring, answered) == 0 <==>
            forall i | 0 <= i < |log| && Counted(log[i], expiring, answered) :: log[i].rows == 0
  {
    if log != [] {
      var init := log[..|log| - 1];
      SumIsZeroIff(init, expiring, answered);
      assert forall i | 0 <= i < |init| :: init[i] == log[i];
    }
  }

  /** One statement's effect on the two counted properties of a row. */
  predicate Counts(u: Update, r: Row, r': Row) {
    && (r'.status.Expired? <==> u.ExpireActive? || r.status.Expired?)
    && (r'.status.Expired? && r'.payload == "" <==> u.ClearPayloads?)
    && (r.status.Expired? ==> u.ClearPayloads? && r.payload != "")
    && (u.ClearPayloads? ==> r.status.Expired?)
  }

  lemma RowCounts(u: Update, id: Id, r: Row, o: Row, now: Time)
    requires RowOk(r, o) && Matches(u, id, r, now)
    ensures Counts(u, r, Assign(u, r, now))
  {
  }

  /** The rows of `hits` have been updated, the others have not. */
  ghost predicate UpdatedOn(u: Update, t: Table, t': Table, hits: set<Id>) {
    && t'.Keys == t.Keys && hits <= t.Keys
    && (forall id | id in t :: if id in hits then Counts(u, t[id], t'[id]) else t'[id] == t[id])
  }

  lemma SweepUpdates(t: Table, inserted: Table, u: Update, scope: set<Id>, now: Time)
    requires TableOk(t, inserted)
    ensures UpdatedOn(u, t, ExecOn(u, t, scope, now), Affected(u, t, scope, now))
  {
    hide Matches, Assign, RowOk, Counts;
    forall id | id in Affected(u, t, scope, now) ensures Counts(u, t[id], Assign(u, t[id], now)) {
      RowCounts(u, id, t[id], inserted[id], now);
    }
  }

  lemma Disjoint(a: set<Id>, b: set<Id>, c: set<Id>)
    requires c == a + b && a !! b
    ensures |c| == |a| + |b|
  {
  }

  lemma ExpiredGrow(u: Update, t: Table, t': Table, hits: set<Id>)
    requires UpdatedOn(u, t, t', hits)
    ensures |ExpiredIds(t')| == |ExpiredIds(t)| + if u.ExpireActive? then |hits| else 0
  {
    Disjoint(ExpiredIds(t), if u.ExpireActive? then hits else {}, ExpiredIds(t'));
  }

  lemma BlankGrow(u: Update, t: Table, t': Table, hits: set<Id>)
    requires UpdatedOn(u, t, t', hits)
    ensures |BlankExpiredIds(t')| == |BlankExpiredIds(t)| + if u.ClearPayloads? then |hits| else 0
  {
    Disjoint(BlankExpiredIds(t), if u.ClearPayloads? then hits else {}, BlankExpiredIds(t'));
  }

  lemma SweepCounts(w: World, u: Update, scope: set<Id>, now: Time)
    requires TableOk(w.rows, w.inserted)
    ensures |ExpiredIds(ExecOn(u, w.rows, scope, now))| ==
              |ExpiredIds(w.rows)| + if u.ExpireActive? then |Affected(u, w.rows, scope, now)| else 0
    ensures |BlankExpiredIds(ExecOn(u, w.rows, scope, now))| ==
              |BlankExpiredIds(w.rows)| + if u.ClearPayloads? then |Affected(u, w.rows, scope, now)| else 0
  {
    hide TableOk, UpdatedOn, ExecOn, Affected, ExpiredIds, BlankExpiredIds;
    SweepUpdates(w.rows, w.inserted, u, scope, now);
    ExpiredGrow(u, w.rows, ExecOn(u, w.rows, scope, now), Affected(u, w.rows, scope, now));
    BlankGrow(u, w.rows, ExecOn(u, w.rows, scope, now), Affected(u, w.rows, scope, now));
  }

  lemma OtherStepsCountNothing(cfg: Config, w: World, a: Step)
    requires RowsOk(w) && Enabled(cfg, w, a) && !a.Sweep?
    ensures ExpiredIds(NextRows(cfg, w, a)) == ExpiredIds(w.rows)
    ensures BlankExpiredIds(NextRows(cfg, w, a)) == BlankExpiredIds(w.rows)
  {
    hide Matches, Assign, StatementOf, IsCandidate, RowOk, UniqueTokens;
    if Sends(a) && a.hit.Some? {
      HitMatches(cfg, w, a);
      RowCounts(StatementOf(cfg, w, a), a.hit.value, w.rows[a.hit.value], w.inserted[a.hit.value], a.now);
      SinglesDoNotSweep(cfg, w, a);
    }
  }

  lemma SinglesDoNotSweep(cfg: Config, w: World, a: Step)
    requires Sends(a) && Ready(cfg, w, a)
    ensures SingleRow(StatementOf(cfg, w, a))
  {
  }

  lemma OthersReportNothing(cfg: Config, w: World, a: Step)
    requires Enabled(cfg, w, a) && Emitted(cfg, w, a).Some?
    ensures Emitted(cfg, w, a).value.Swept? <==> a.Sweep?
  {
    hide Assign;
  }

  /** Every expired row was counted by one cleanup statement, and every cleared one too; the caller learns of it
      unless the reply is lost. */
  lemma {:induction false} CleanupCountsAddUp(cfg: Config, run: seq<Step>)
    requires Valid(cfg, run)
    ensures var w := After(cfg, run);
            && Sum(w.log, true, true) + Sum(w.log, true, false) == |ExpiredIds(w.rows)|
            && Sum(w.log, false, true) + Sum(w.log, false, false) == |BlankExpiredIds(w.rows)|
  {
    hide Enabled, NextRows, Emitted, NextClients, Sum, ExpiredIds, BlankExpiredIds, ClientOk, Affected;
    if run == [] {
      NothingCountedYet();
    } else {
      var before, a := run[..|run| - 1], run[|run| - 1];
      var w := After(cfg, before);
      CleanupCountsAddUp(cfg, before);
      RunKeepsInv(cfg, before);
      StepReports(cfg, w, a);
    }
  }

  /** The counts Cleanup returns never exceed what the table shows, and reach it exactly when no cleanup statement
      that changed a row lost its reply. */
  lemma {:induction false} CleanupReportsAddUp(cfg: Config, run: seq<Step>)
    requires Valid(cfg, run)
    ensures var w := After(cfg, run);
            && Sum(w.log, true, true) <= |ExpiredIds(w.rows)| && Sum(w.log, false, true) <= |BlankExpiredIds(w.rows)|
            && (Sum(w.log, true, true) == |ExpiredIds(w.rows)| <==>
                forall i | 0 <= i < |w.log| && Counted(w.log[i], true, false) :: w.log[i].rows == 0)
            && (Sum(w.log, false, true) == |BlankExpiredIds(w.rows)| <==>
                forall i | 0 <= i < |w.log| && Counted(w.log[i], false, false) :: w.log[i].rows == 0)
  {
    hide Sum, ExpiredIds, BlankExpiredIds, Enabled, Next;
    CleanupCountsAddUp(cfg, run);
    SumIsZeroIff(After(cfg, run).log, true, false);
    SumIsZeroIff(After(cfg, run).log, false, false);
  }

  /** The four Dashboard counts always add up to the number of deliveries ever inserted. */
  lemma {:induction false} DashboardCountsEveryInsert(cfg: Config, run: seq<Step>)
    requires Valid(cfg, run)
    ensures var t := After(cfg, run).rows;
            |WithStatus(t, Active)| + |WithStatus(t, Consuming)| + |WithStatus(t, Consumed)| + |WithStatus(t, Expired)|
            + |WithStatus(t, Revoked)| == |After(cfg, run).inserted|
  {
    hide WithStatus, RowOk, ClientOk;
    RunKeepsInv(cfg, run);
    StatusesPartition(After(cfg, run).rows);
    assert |After(cfg, run).rows.Keys| == |After(cfg, run).inserted.Keys|;
  }

  lemma OneMoreSweep(cfg: Config, run: seq<Step>, u: Update, now: Time, fate: Fate) returns (run': seq<Step>)
    requires Valid(cfg, run) && (u.ExpireActive? || u.ClearPayloads?) && !fate.NeverRan?
    ensures Valid(cfg, run') && After(cfg, run').rows == Exec(u, After(cfg, run).rows, now)
    ensures var w := After(cfg, run);
            After(cfg, run').log == w.log + [Swept(u, |Affected(u, w.rows, w.rows.Keys, now)|, fate.Answered?)]
  {
    hide Matches, Assign, ExecOn, Affected;
    var a := Sweep(u, After(cfg, run).rows.Keys, now, fate);
    run' := run + [a];
    assert run'[..|run'| - 1] == run;
  }

  /** What lost replies do: one delivery is expired and then blanked, and neither count reaches a caller. */
  lemma ReportsFallShort(cfg: Config) returns (expired: seq<Step>, blanked: seq<Step>)
    ensures Valid(cfg, expired) && Sum(After(cfg, expired).log, true, true) < |ExpiredIds(After(cfg, expired).rows)|
    ensures Valid(cfg, blanked)
    ensures Sum(After(cfg, blanked).log, false, true) < |BlankExpiredIds(After(cfg, blanked).rows)|
  {
    hide Valid, After, Sum;
    var run := OneDelivery(cfg, "ciphertext");
    expired := OneMoreSweep(cfg, run, ExpireActive, 10, ReplyLost);
    blanked := OneMoreSweep(cfg, expired, ClearPayloads(0, 0, 0), 10, ReplyLost);
    OneDeliveryExpires("ciphertext");
    CleanupReportsAddUp(cfg, expired);
    CleanupReportsAddUp(cfg, blanked);
    assert After(cfg, expired).log[|After(cfg, run).log|].rows == 1;
    assert After(cfg, blanked).log[|After(cfg, expired).log|].rows == 1;
  }

  lemma OneDeliveryExpires(ciphertext: string)
    requires ciphertext != ""
    ensures var t := map[0 := FreshRow("token", ciphertext, 10, None, 5, 0)];
            && |Affected(ExpireActive, t, t.Keys, 10)| == 1
            && var t1 := Exec(ExpireActive, t, 10); |Affected(ClearPayloads(0, 0, 0), t1, t1.Keys, 10)| == 1
  {
    var t: Table := map[0 := FreshRow("token", ciphertext, 10, None, 5, 0)];
    assert Affected(ExpireActive, t, t.Keys, 10) == {0};
    var t1 := Exec(ExpireActive, t, 10);
    assert Affected(ClearPayloads(0, 0, 0), t1, t1.Keys, 10) == {0};
  }

  lemma NothingCountedYet()
    ensures forall expiring, answered :: Sum(INITIAL.log, expiring, answered) == 0
    ensures |ExpiredIds(INITIAL.rows)| == 0 && |BlankExpiredIds(INITIAL.rows)| == 0
  {
    assert ExpiredIds(INITIAL.rows) == {} && BlankExpiredIds(INITIAL.rows) == {};
  }

  lemma StepReports(cfg: Config, w: World, a: Step)
    requires RowsOk(w) && Enabled(cfg, w, a)
    requires Sum(w.log, true, true) + Sum(w.log, true, false) == |ExpiredIds(w.rows)|
    requires Sum(w.log, false, true) + Sum(w.log, false, false) == |BlankExpiredIds(w.rows)|
    ensures var w' := Next(cfg, w, a);
            && Sum(w'.log, true, true) + Sum(w'.log, true, false) == |ExpiredIds(w'.rows)|
            && Sum(w'.log, false, true) + Sum(w'.log, false, false) == |BlankExpiredIds(w'.rows)|
  {
    hide Ran, IsCandidate, Sum, ExpiredIds, BlankExpiredIds, Affected, Matches, Assign, RowOk, UniqueTokens,
         NextClients;
    if a.Sweep? {
      SweepCounts(w, a.u, a.scope, a.now);
    } else {
      OtherStepsCountNothing(cfg, w, a);
    }
    if Emitted(cfg, w, a).Some? {
      OthersReportNothing(cfg, w, a);
      EventSums(w.log, Emitted(cfg, w, a).value);
    }
  }

  lemma EventSums(log: seq<Event>, e: Event)
    ensures Sum(log + [e], true, true) + Sum(log + [e], true, false) ==
              Sum(log, true, true) + Sum(log, true, false) + if e.Swept? && e.u.ExpireActive? then e.rows else 0
    ensures Sum(log + [e], false, true) + Sum(log + [e], false, false) ==
              Sum(log, false, true) + Sum(log, false, false) + if e.Swept? && e.u.ClearPayloads? then e.rows else 0
  {
    hide Sum;
    SumOf(log, e, true, true);
    SumOf(log, e, true, false);
    SumOf(log, e, false, true);
    SumOf(log, e, false, false);
  }
}
