/** How long an expired delivery keeps its ciphertext, counted from the moment it was marked. */
module Retention {
  import opened Rows
  import opened Protocol
  import opened Invariants
  import opened OneShot

  /** Step k is the cleanup statement that marked the delivery as expired. */
  ghost predicate Marks(cfg: Config, run: seq<Step>, k: nat, id: Id)
    requires Valid(cfg, run)
  {
    && k < |run| && run[k].Sweep? && run[k].u.ExpireActive? && id in run[k].scope
    && var t := At(cfg, run, k).rows;
       id in t && t[id].status.Active? && t[id].expiresAt <= run[k].now
  }

  /** Step j is a cleanup statement that blanks what was marked at `marked` and is past its retention. */
  predicate Blanks(run: seq<Step>, j: nat, id: Id, marked: Time) {
    && j < |run| && run[j].Sweep? && run[j].u.ClearPayloads? && id in run[j].scope
    && Past(marked, run[j].u.expiredSeconds, run[j].now)
  }

  lemma UpdateMarks(u: Update, id: Id, r: Row, o: Row, now: Time)
    requires RowOk(r, o) && Matches(u, id, r, now) && Assign(u, r, now).status.Expired?
    ensures !r.status.Expired? ==>
              && u.ExpireActive? && r.status.Active? && r.expiresAt <= now
              && Assign(u, r, now).updatedAt == now && r.payload != ""
              && Assign(u, r, now).payload == r.payload
    ensures r.status.Expired? ==>
              && u.ClearPayloads? && r.payload != "" && Past(r.updatedAt, u.expiredSeconds, now)
              && Assign(u, r, now).payload == ""
  {
  }

  /** Only ExpireActive makes a row expired, and only a clearing past retention changes one. */
  lemma StepMarks(cfg: Config, w: World, a: Step, id: Id)
    requires RowsOk(w) && Enabled(cfg, w, a) && id in NextRows(cfg, w, a) && NextRows(cfg, w, a)[id].status.Expired?
    requires !(id in w.rows && NextRows(cfg, w, a)[id] == w.rows[id])
    ensures a.Sweep? && id in a.scope && id in w.rows
    ensures !w.rows[id].status.Expired? ==>
              && a.u.ExpireActive? && w.rows[id].status.Active? && w.rows[id].expiresAt <= a.now
              && NextRows(cfg, w, a)[id].updatedAt == a.now && NextRows(cfg, w, a)[id].payload != ""
    ensures w.rows[id].status.Expired? ==>
              && a.u.ClearPayloads? && w.rows[id].payload != "" && NextRows(cfg, w, a)[id].payload == ""
              && Past(w.rows[id].updatedAt, a.u.expiredSeconds, a.now)
  {
    hide Matches, Assign, IsCandidate, UniqueTokens, StatementOf, IsHit, RowOk;
    if id !in w.rows {
      NewRowsAreActive(cfg, w, a, id);
    } else if Sends(a) {
      ChangedRow(cfg, w, a, id);
      UpdateMarks(StatementOf(cfg, w, a), id, w.rows[id], w.inserted[id], a.now);
      SendsNoSweep(cfg, w, a);
    } else if a.Sweep? {
      UpdateMarks(a.u, id, w.rows[id], w.inserted[id], a.now);
    } else {
      OtherStepsKeepRow(cfg, w, a, id);
    }
  }

  lemma SendsNoSweep(cfg: Config, w: World, a: Step)
    requires Sends(a) && Ready(cfg, w, a)
    ensures !StatementOf(cfg, w, a).ExpireActive? && !StatementOf(cfg, w, a).ClearPayloads?
  {
  }

  /** Every expired row was marked once; until it is blanked its updated_at is the marking time, and it is blanked
      only by a clearing at least the retention after that. */
  lemma {:induction false} ExpiredWasMarked(cfg: Config, run: seq<Step>, id: Id) returns (k: nat, j: nat)
    requires Valid(cfg, run) && id in After(cfg, run).rows && After(cfg, run).rows[id].status.Expired?
    ensures Marks(cfg, run, k, id)
    ensures After(cfg, run).rows[id].payload != "" ==> After(cfg, run).rows[id].updatedAt == run[k].now
    ensures After(cfg, run).rows[id].payload == "" ==> k < j && Blanks(run, j, id, run[k].now)
  {
    hide Enabled, NextRows, NextClients, Emitted, ClientOk, Past;
    var before, a := run[..|run| - 1], run[|run| - 1];
    var w := After(cfg, before);
    RunKeepsInv(cfg, before);
    if id in w.rows && w.rows[id].status.Expired? {
      k, j := ExpiredWasMarked(cfg, before, id);
      assert run[..k] == before[..k];
      if After(cfg, run).rows[id] != w.rows[id] {
        StepMarks(cfg, w, a, id);
        j := |before|;
      }
    } else {
      StepMarks(cfg, w, a, id);
      k, j := |before|, 0;
      assert run[..k] == before;
    }
  }

  /** A Cleanup blanks an expired row exactly when the retention has passed since the row was marked. */
  lemma {:induction false} RetentionCountsFromMarking(cfg: Config, run: seq<Step>, id: Id) returns (k: nat)
    requires Valid(cfg, run) && id in After(cfg, run).rows && After(cfg, run).rows[id].status.Expired?
    requires After(cfg, run).rows[id].payload != ""
    ensures Marks(cfg, run, k, id)
    ensures forall c, e, v, now :: Clearable(After(cfg, run).rows[id], c, e, v, now) <==> Past(run[k].now, e, now)
  {
    var j;
    k, j := ExpiredWasMarked(cfg, run, id);
    RunKeepsInv(cfg, run);
    var w := After(cfg, run);
    forall c, e, v, now ensures Clearable(w.rows[id], c, e, v, now) <==> Past(run[k].now, e, now) {
      OnlyExpiredRowsAreClearable(w.rows[id], w.inserted[id], c, e, v, now);
    }
  }
}
