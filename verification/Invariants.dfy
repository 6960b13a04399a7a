/** What every step keeps, whatever the clock, the lease length and the interleaving. */
module Invariants {
  import opened Wrappers
  import opened Rows
  import opened Protocol

  /** A row from one moment to a later one, given the lease ids issued by the first moment. */
  ghost predicate RowEvolves(leases: map<LeaseId, ClientId>, r: Row, r': Row) {
    && (r.status.Consumed? || r.status.Revoked? ==> r' == r)
    && (r.status.Expired? ==>
          r'.status.Expired? && r'.passwordHash == r.passwordHash && (r' == r || (r.payload != "" && r'.payload == "")))
    && (r'.leaseId.Some? && r'.leaseId.value in leases ==>
          r'.leaseId == r.leaseId && r'.startedAt == r.startedAt && r'.passwordHash == r.passwordHash)
  }

  ghost predicate RowsEvolve(leases: map<LeaseId, ClientId>, t: Table, t': Table) {
    t.Keys <= t'.Keys && forall id | id in t :: RowEvolves(leases, t[id], t'[id])
  }

  ghost predicate Grows<K, V>(m: map<K, V>, m': map<K, V>) {
    forall k | k in m :: k in m' && m'[k] == m[k]
  }

  ghost predicate ClientsEvolve(cs: map<ClientId, Client>, cs': map<ClientId, Client>) {
    forall c | c in cs ::
      && c in cs' && (cs[c].phase.Done? ==> cs'[c] == cs[c])
      && cs'[c].token == cs[c].token && cs'[c].password == cs[c].password
  }

  ghost predicate HistoryGrows(w: World, w': World) {
    && Grows(w.inserted, w'.inserted) && Grows(w.leases, w'.leases) && Grows(w.winner, w'.winner)
    && ClientsEvolve(w.clients, w'.clients) && w.log <= w'.log
  }

  /** The history only grows, and rows move forward only. */
  ghost predicate Evolves(w: World, w': World) {
    RowsEvolve(w.leases, w.rows, w'.rows) && HistoryGrows(w, w')
  }

  ghost predicate TableOk(t: Table, inserted: Table) {
    t.Keys == inserted.Keys && UniqueTokens(inserted) && forall id | id in t :: RowOk(t[id], inserted[id])
  }

  ghost predicate LeasesIssued(t: Table, leases: map<LeaseId, ClientId>) {
    forall id | id in t && t[id].leaseId.Some? :: t[id].leaseId.value in leases
  }

  ghost predicate WinnersConsumed(t: Table, winner: map<Id, ClientId>) {
    forall id | id in winner :: id in t && t[id].status.Consumed?
  }

  ghost predicate RowsOk(w: World) {
    TableOk(w.rows, w.inserted) && LeasesIssued(w.rows, w.leases) && WinnersConsumed(w.rows, w.winner)
  }

  /** Client c was issued lease l; while l stands in the row, c's password fits the row's hash. */
  ghost predicate Holds(cfg: Config, w: World, c: ClientId, cl: Client, id: Id, l: LeaseId) {
    && l in w.leases && w.leases[l] == c
    && id in w.rows && id in w.inserted
    && (w.rows[id].leaseId == Some(l) ==> PasswordGood(cfg, cl.password, w.rows[id].passwordHash))
  }

  /** Client c's CompleteConsume is the one that consumed the delivery. */
  ghost predicate Won(cfg: Config, w: World, c: ClientId, cl: Client, id: Id) {
    && id in w.winner && w.winner[id] == c
    && id in w.rows && id in w.inserted && w.rows[id].status.Consumed?
    && PasswordGood(cfg, cl.password, w.rows[id].passwordHash)
  }

  ghost predicate ClientOk(cfg: Config, w: World, c: ClientId, cl: Client) {
    match cl.phase
    case Leased(id, l, ciphertext) => Holds(cfg, w, c, cl, id, l) && ciphertext == w.inserted[id].payload
    case Decrypted(id, l, plain) => Holds(cfg, w, c, cl, id, l) && cfg.decrypt(w.inserted[id].payload) == Some(plain)
    case DecryptFailed(id, l) => Holds(cfg, w, c, cl, id, l)
    case Committed(id, plain) => Won(cfg, w, c, cl, id) && cfg.decrypt(w.inserted[id].payload) == Some(plain)
    case Done(Reveal(id, reply)) =>
      && Won(cfg, w, c, cl, id)
      && cfg.decrypt(w.inserted[id].payload).Some?
      && cfg.decode(cfg.decrypt(w.inserted[id].payload).value) == Some(reply)
    case _ => true
  }

  ghost predicate Inv(cfg: Config, w: World) {
    && RowsOk(w)
    && (forall c | c in w.clients :: ClientOk(cfg, w, c, w.clients[c]))
  }

  /** One statement on one row. */
  lemma RowStep(u: Update, id: Id, r: Row, o: Row, now: Time, leases: map<LeaseId, ClientId>)
    requires RowOk(r, o) && Matches(u, id, r, now) && (u.Begin? ==> u.lease !in leases)
    ensures RowOk(Assign(u, r, now), o) && RowEvolves(leases, r, Assign(u, r, now))
    ensures Assign(u, r, now).leaseId.Some? ==> u.Begin? && Assign(u, r, now).leaseId == Some(u.lease)
    ensures u.Complete? ==> Assign(u, r, now).status.Consumed?
  {
    UpdateKeepsRowOk(u, id, r, o, now);
  }

  lemma RowStays(leases: map<LeaseId, ClientId>, r: Row)
    ensures RowEvolves(leases, r, r)
  {
  }

  /** One statement on the table. */
  lemma TouchStep(u: Update, t: Table, hit: Option<Id>, now: Time, inserted: Table, leases: map<LeaseId, ClientId>,
                  c: ClientId)
    requires TableOk(t, inserted) && LeasesIssued(t, leases) && (u.Begin? ==> u.lease !in leases)
    requires hit.Some? ==> hit.value in t && Matches(u, hit.value, t[hit.value], now)
    ensures TableOk(Touch(u, t, hit, now), inserted) && RowsEvolve(leases, t, Touch(u, t, hit, now))
    ensures LeasesIssued(Touch(u, t, hit, now), if u.Begin? then leases[u.lease := c] else leases)
    ensures u.Complete? && hit.Some? ==> Touch(u, t, hit, now)[hit.value].status.Consumed?
  {
    hide Matches, Assign, RowOk, RowEvolves, UniqueTokens;
    forall id | id in t ensures RowEvolves(leases, t[id], t[id]) {
      RowStays(leases, t[id]);
    }
    if hit.Some? {
      RowStep(u, hit.value, t[hit.value], inserted[hit.value], now, leases);
    }
  }

  lemma SweepStep(u: Update, t: Table, scope: set<Id>, now: Time, inserted: Table, leases: map<LeaseId, ClientId>)
    requires TableOk(t, inserted) && LeasesIssued(t, leases) && !SingleRow(u)
    ensures TableOk(ExecOn(u, t, scope, now), inserted) && RowsEvolve(leases, t, ExecOn(u, t, scope, now))
    ensures LeasesIssued(ExecOn(u, t, scope, now), leases)
  {
    var t' := ExecOn(u, t, scope, now);
    forall id | id in t
      ensures RowOk(t'[id], inserted[id]) && RowEvolves(leases, t[id], t'[id])
      ensures t'[id].leaseId.Some? ==> t'[id].leaseId == t[id].leaseId
    {
      if id in scope && Matches(u, id, t[id], now) {
        RowStep(u, id, t[id], inserted[id], now, leases);
      }
    }
  }

  lemma InsertStep(t: Table, inserted: Table, leases: map<LeaseId, ClientId>, id: Id, r: Row)
    requires TableOk(t, inserted) && LeasesIssued(t, leases) && id !in t
    requires RowOk(r, r) && r.leaseId.None? && (forall i | i in t :: t[i].tokenHash != r.tokenHash)
    ensures TableOk(t[id := r], inserted[id := r]) && LeasesIssued(t[id := r], leases)
    ensures RowsEvolve(leases, t, t[id := r])
  {
    assert forall i | i in inserted :: inserted[i].tokenHash == t[i].tokenHash;
  }

  /** Winners stay consumed when rows evolve. */
  lemma WinnersStay(leases: map<LeaseId, ClientId>, t: Table, t': Table, winner: map<Id, ClientId>)
    requires RowsEvolve(leases, t, t') && WinnersConsumed(t, winner)
    ensures WinnersConsumed(t', winner)
  {
    forall id | id in winner ensures id in t' && t'[id].status.Consumed? {
      assert RowEvolves(leases, t[id], t'[id]);
    }
  }

  lemma HitMatches(cfg: Config, w: World, a: Step)
    requires Enabled(cfg, w, a) && Sends(a) && a.hit.Some?
    ensures a.hit.value in w.rows && Matches(StatementOf(cfg, w, a), a.hit.value, w.rows[a.hit.value], a.now)
    ensures a.Finish? ==> a.hit.value == w.clients[a.c].phase.id && w.rows[a.hit.value].status.Consuming?
    ensures a.Finish? ==> w.rows[a.hit.value].leaseId == Some(w.clients[a.c].phase.lease)
  {
  }

  /** A row that changed under a single-row statement is that statement's hit. */
  lemma ChangedRow(cfg: Config, w: World, a: Step, id: Id)
    requires Enabled(cfg, w, a) && Sends(a) && id in w.rows
    requires id in NextRows(cfg, w, a) && NextRows(cfg, w, a)[id] != w.rows[id]
    ensures Matches(StatementOf(cfg, w, a), id, w.rows[id], a.now) && a.hit == Some(id)
    ensures NextRows(cfg, w, a)[id] == Assign(StatementOf(cfg, w, a), w.rows[id], a.now)
  {
    hide Matches, Assign, StatementOf;
  }

  lemma OtherStepsKeepRow(cfg: Config, w: World, a: Step, id: Id)
    requires Enabled(cfg, w, a) && !Sends(a) && !a.Sweep? && id in w.rows
    ensures id in NextRows(cfg, w, a) && NextRows(cfg, w, a)[id] == w.rows[id]
  {
    hide Matches, Assign, IsCandidate;
  }

  ghost predicate TableStepOk(w: World, w': World) {
    && TableOk(w'.rows, w'.inserted) && LeasesIssued(w'.rows, w'.leases) && RowsEvolve(w.leases, w.rows, w'.rows)
  }

  lemma SingleKeepsTable(cfg: Config, w: World, a: Step)
    requires RowsOk(w) && Enabled(cfg, w, a) && Sends(a)
    ensures TableStepOk(w, Next(cfg, w, a))
    ensures a.Finish? && a.hit.Some? ==> a.hit.value in w.rows && Next(cfg, w, a).rows[a.hit.value].status.Consumed?
  {
    hide NextClients, Emitted, Matches, Assign, Ran, RowOk, RowEvolves, UniqueTokens, IsHit;
    if a.hit.Some? {
      HitMatches(cfg, w, a);
    }
    TouchStep(StatementOf(cfg, w, a), w.rows, a.hit, a.now, w.inserted, w.leases, if a.TakeLease? then a.c else 0);
  }

  lemma InsertKeepsTable(cfg: Config, w: World, a: Step)
    requires RowsOk(w) && Enabled(cfg, w, a) && a.InsertRow?
    ensures TableStepOk(w, Next(cfg, w, a))
  {
    hide NextClients, Emitted;
    var r := FreshRow(a.token, a.payload, a.expiresAt, a.hash, a.max, a.now);
    assert RowOk(r, r);
    InsertStep(w.rows, w.inserted, w.leases, a.id, r);
  }

  lemma SweepKeepsTable(cfg: Config, w: World, a: Step)
    requires RowsOk(w) && Enabled(cfg, w, a) && a.Sweep?
    ensures TableStepOk(w, Next(cfg, w, a))
  {
    hide NextClients, Emitted, Matches, Assign, RowOk, RowEvolves;
    SweepStep(a.u, w.rows, a.scope, a.now, w.inserted, w.leases);
  }

  lemma QuietKeepsTable(w: World, w': World)
    requires RowsOk(w) && w'.rows == w.rows && w'.inserted == w.inserted && w'.leases == w.leases
    ensures TableStepOk(w, w')
  {
  }

  lemma StepKeepsTable(cfg: Config, w: World, a: Step)
    requires RowsOk(w) && Enabled(cfg, w, a)
    ensures TableStepOk(w, Next(cfg, w, a))
    ensures WinnersConsumed(Next(cfg, w, a).rows, Next(cfg, w, a).winner)
  {
    if Sends(a) {
      SingleKeepsTable(cfg, w, a);
    } else if a.InsertRow? {
      InsertKeepsTable(cfg, w, a);
    } else if a.Sweep? {
      SweepKeepsTable(cfg, w, a);
    } else {
      QuietKeepsTable(w, Next(cfg, w, a));
    }
    hide NextRows, NextClients, Emitted, Enabled, RowEvolves, RowOk;
    WinnersStay(w.leases, w.rows, Next(cfg, w, a).rows, w.winner);
  }

  lemma HistoryStep(cfg: Config, w: World, a: Step)
    requires Enabled(cfg, w, a) && (a.Finish? && a.hit.Some? ==> a.hit.value !in w.winner)
    requires w.inserted.Keys == w.rows.Keys
    ensures HistoryGrows(w, Next(cfg, w, a))
  {
    hide NextRows, Emitted, NextPhase, Ran, IsCandidate, StatementOf;
  }

  lemma StepGrowsHistory(cfg: Config, w: World, a: Step)
    requires RowsOk(w) && Enabled(cfg, w, a)
    ensures HistoryGrows(w, Next(cfg, w, a))
  {
    hide Next, RowOk, UniqueTokens, LeasesIssued, HistoryGrows;
    if a.Finish? && a.hit.Some? {
      HitMatches(cfg, w, a);
    }
    HistoryStep(cfg, w, a);
  }

  lemma StepKeepsRows(cfg: Config, w: World, a: Step)
    requires RowsOk(w) && Enabled(cfg, w, a)
    ensures RowsOk(Next(cfg, w, a)) && Evolves(w, Next(cfg, w, a))
  {
    StepKeepsTable(cfg, w, a);
    StepGrowsHistory(cfg, w, a);
  }

  /** What a client knows stays true while others act. */
  lemma OthersKeepClient(cfg: Config, w: World, w': World, c: ClientId, cl: Client)
    requires RowsOk(w) && RowsOk(w') && Evolves(w, w') && ClientOk(cfg, w, c, cl)
    ensures ClientOk(cfg, w', c, cl)
  {
  }

  /** BeginConsume's expected hash was the one the client verified, and it is the row's own. */
  lemma TakerHolds(cfg: Config, w: World, a: Step)
    requires RowsOk(w) && Enabled(cfg, w, a) && a.TakeLease?
    ensures ClientOk(cfg, Next(cfg, w, a), a.c, Next(cfg, w, a).clients[a.c])
  {
    if a.hit.Some? {
      HitMatches(cfg, w, a);
      assert RowOk(w.rows[a.hit.value], w.inserted[a.hit.value]);
    }
  }

  /** CompleteConsume only takes a row that still carries the client's lease, and keeps its hash. */
  lemma FinisherRow(cfg: Config, w: World, a: Step)
    requires Enabled(cfg, w, a) && a.Finish? && a.hit.Some? && a.hit.value in w.rows
    ensures NextRows(cfg, w, a)[a.hit.value].status.Consumed?
    ensures NextRows(cfg, w, a)[a.hit.value].passwordHash == w.rows[a.hit.value].passwordHash
    ensures NextRows(cfg, w, a).Keys == w.rows.Keys
  {
  }

  lemma FinisherWon(cfg: Config, w: World, a: Step)
    requires RowsOk(w) && Enabled(cfg, w, a) && a.Finish? && ClientOk(cfg, w, a.c, w.clients[a.c])
    ensures ClientOk(cfg, Next(cfg, w, a), a.c, Next(cfg, w, a).clients[a.c])
  {
    hide Emitted, Matches, Assign, Ran, IsHit, RowOk, UniqueTokens, NextRows, StatementOf, LeasesIssued;
    if a.hit.Some? {
      HitMatches(cfg, w, a);
      FinisherRow(cfg, w, a);
    }
  }

  /** Vault's answer is the decryption of the inserted ciphertext, and the reply is its decoding. */
  lemma ReaderStaysOk(cfg: Config, w: World, a: Step)
    requires RowsOk(w) && Enabled(cfg, w, a) && (a.Decrypt? || a.Reply?) && ClientOk(cfg, w, a.c, w.clients[a.c])
    ensures ClientOk(cfg, Next(cfg, w, a), a.c, Next(cfg, w, a).clients[a.c])
  {
    hide Emitted, Matches, Ran, IsHit, RowOk, Assign, IsCandidate, UniqueTokens;
  }

  lemma OtherPhases(cfg: Config, cl: Client, a: Step, rows: Table)
    requires Acts(a) && AtPhase(cfg, cl, a) && (a.Find? || a.Fail? || a.GiveBack? || a.Crash?)
    requires (a.Find? || a.Fail?) && a.hit.Some? && a.fate.Answered? ==> a.hit.value in rows
    ensures NextPhase(cfg, cl, a, rows).Found?
              || (NextPhase(cfg, cl, a, rows).Done? && !NextPhase(cfg, cl, a, rows).answer.Reveal?)
  {
  }

  /** The acting client's own knowledge after its step. */
  lemma ActorStaysOk(cfg: Config, w: World, a: Step)
    requires RowsOk(w) && Enabled(cfg, w, a) && Acts(a) && ClientOk(cfg, w, a.c, w.clients[a.c])
    ensures ClientOk(cfg, Next(cfg, w, a), a.c, Next(cfg, w, a).clients[a.c])
  {
    if a.TakeLease? {
      TakerHolds(cfg, w, a);
    } else if a.Finish? {
      FinisherWon(cfg, w, a);
    } else if a.Decrypt? || a.Reply? {
      ReaderStaysOk(cfg, w, a);
    } else {
      OtherPhases(cfg, w.clients[a.c], a, NextRows(cfg, w, a));
    }
  }

  lemma StepKeepsInv(cfg: Config, w: World, a: Step)
    requires Inv(cfg, w) && Enabled(cfg, w, a)
    ensures Inv(cfg, Next(cfg, w, a)) && Evolves(w, Next(cfg, w, a))
  {
    var w' := Next(cfg, w, a);
    StepKeepsRows(cfg, w, a);
    forall c | c in w'.clients ensures ClientOk(cfg, w', c, w'.clients[c]) {
      if Acts(a) && c == a.c {
        ActorStaysOk(cfg, w, a);
      } else if c in w.clients {
        OthersKeepClient(cfg, w, w', c, w.clients[c]);
      }
    }
  }

  lemma {:induction false} RunKeepsInv(cfg: Config, run: seq<Step>)
    requires Valid(cfg, run)
    ensures Inv(cfg, After(cfg, run))
  {
    if run != [] {
      RunKeepsInv(cfg, run[..|run| - 1]);
      StepKeepsInv(cfg, After(cfg, run[..|run| - 1]), run[|run| - 1]);
    }
  }

  lemma EvolvesIsTransitive(w0: World, w1: World, w2: World)
    requires Evolves(w0, w1) && Evolves(w1, w2)
    ensures Evolves(w0, w2)
  {
    forall id | id in w0.rows ensures RowEvolves(w0.leases, w0.rows[id], w2.rows[id]) {
      assert RowEvolves(w0.leases, w0.rows[id], w1.rows[id]);
      assert RowEvolves(w1.leases, w1.rows[id], w2.rows[id]);
    }
  }

  lemma {:induction false} RunEvolves(cfg: Config, run: seq<Step>, k: nat)
    requires Valid(cfg, run) && k <= |run|
    ensures Evolves(At(cfg, run, k), After(cfg, run))
  {
    if k == |run| {
      assert run[..k] == run;
    } else {
      var before := run[..|run| - 1];
      assert before[..k] == run[..k];
      RunEvolves(cfg, before, k);
      RunKeepsInv(cfg, before);
      StepKeepsInv(cfg, After(cfg, before), run[|run| - 1]);
      EvolvesIsTransitive(At(cfg, run, k), After(cfg, before), After(cfg, run));
    }
  }
}
