/** At most one reveal, only with the right password, and never together with a revocation. */
module OneTime {
  import opened Wrappers
  import opened Rows
  import opened Protocol
  import opened Invariants

  /** Every recorded reveal is the final answer of its own client. */
  ghost predicate RevealsAreAnswers(log: seq<Event>, clients: map<ClientId, Client>) {
    && (forall i | 0 <= i < |log| && log[i].Revealed? ::
          log[i].c in clients && clients[log[i].c].phase == Done(Reveal(log[i].id, log[i].reply)))
    && (forall i, j | 0 <= i < j < |log| && log[i].Revealed? && log[j].Revealed? :: log[i].c != log[j].c)
  }

  /** Conversely, every client that revealed has its reveal recorded. */
  ghost predicate AnswersAreRecorded(log: seq<Event>, clients: map<ClientId, Client>) {
    forall c | c in clients && clients[c].phase.Done? && clients[c].phase.answer.Reveal? ::
      Revealed(c, clients[c].phase.answer.id, clients[c].phase.answer.reply) in log
  }

  ghost predicate RevokesAreFinal(log: seq<Event>, rows: Table) {
    forall i | 0 <= i < |log| && log[i].RevokeAnswered? && log[i].revoked ::
      log[i].id in rows && rows[log[i].id].status.Revoked?
  }

  ghost predicate LateRevokesReportConsumed(log: seq<Event>) {
    forall i, j | 0 <= i < j < |log| && log[i].Revealed? && log[j].RevokeAnswered? && log[i].id == log[j].id ::
      !log[j].revoked && log[j].status == Some(Consumed)
  }

  ghost predicate LogOk(w: World) {
    && RevealsAreAnswers(w.log, w.clients) && AnswersAreRecorded(w.log, w.clients)
    && RevokesAreFinal(w.log, w.rows) && LateRevokesReportConsumed(w.log)
  }

  /** The row behind a recorded reveal is consumed, so no revocation can match it. */
  lemma RevealedRowIsConsumed(cfg: Config, w: World, i: nat)
    requires Inv(cfg, w) && RevealsAreAnswers(w.log, w.clients) && i < |w.log| && w.log[i].Revealed?
    ensures w.log[i].id in w.rows && w.rows[w.log[i].id].status.Consumed?
    ensures w.log[i].id in w.winner && w.winner[w.log[i].id] == w.log[i].c
  {
    assert ClientOk(cfg, w, w.log[i].c, w.clients[w.log[i].c]);
  }

  /** A revocation reports success only for a row it has just revoked. */
  lemma RevokeHits(cfg: Config, w: World, a: Step)
    requires Enabled(cfg, w, a) && a.RevokeRow? && a.hit.Some?
    ensures a.id in w.rows && a.id == a.hit.value && (w.rows[a.id].status.Active? || w.rows[a.id].status.Consuming?)
    ensures Next(cfg, w, a).rows[a.id].status.Revoked?
  {
  }

  /** What a step adds to the record of reveals: a Reply's own answer, or nothing. */
  lemma RevealIsReplied(cfg: Config, w: World, a: Step)
    requires Enabled(cfg, w, a)
    ensures Emitted(cfg, w, a).Some? && Emitted(cfg, w, a).value.Revealed? ==>
              && a.Reply? && Emitted(cfg, w, a).value.c == a.c && !w.clients[a.c].phase.Done?
              && Next(cfg, w, a).clients[a.c].phase ==
                  Done(Reveal(Emitted(cfg, w, a).value.id, Emitted(cfg, w, a).value.reply))
    ensures forall c | c in Next(cfg, w, a).clients && Next(cfg, w, a).clients[c].phase.Done?
            && Next(cfg, w, a).clients[c].phase.answer.Reveal? ::
              || (c in w.clients && w.clients[c] == Next(cfg, w, a).clients[c])
              || Emitted(cfg, w, a) == Some(Revealed(c, Next(cfg, w, a).clients[c].phase.answer.id,
                                                     Next(cfg, w, a).clients[c].phase.answer.reply))
  {
    hide Matches, Assign, Ran, IsHit, NextRows, StatementOf, IsCandidate, Affected;
  }

  lemma StepKeepsReveals(cfg: Config, w: World, a: Step)
    requires RevealsAreAnswers(w.log, w.clients) && AnswersAreRecorded(w.log, w.clients) && Enabled(cfg, w, a)
    requires ClientsEvolve(w.clients, Next(cfg, w, a).clients)
    ensures RevealsAreAnswers(Next(cfg, w, a).log, Next(cfg, w, a).clients)
    ensures AnswersAreRecorded(Next(cfg, w, a).log, Next(cfg, w, a).clients)
  {
    RevealIsReplied(cfg, w, a);
    hide Enabled, NextRows, NextClients, Emitted;
    var w' := Next(cfg, w, a);
    if Emitted(cfg, w, a).Some? {
      assert w'.log[|w.log|] == Emitted(cfg, w, a).value;
    }
  }

  lemma StepKeepsRevokes(cfg: Config, w: World, a: Step)
    requires Inv(cfg, w) && LogOk(w) && Enabled(cfg, w, a) && Evolves(w, Next(cfg, w, a))
    ensures RevokesAreFinal(Next(cfg, w, a).log, Next(cfg, w, a).rows)
    ensures LateRevokesReportConsumed(Next(cfg, w, a).log)
  {
    hide Matches, Assign, Ran, IsHit, NextClients, StatementOf, IsCandidate, RowOk, UniqueTokens, ClientOk, NextRows;
    var w' := Next(cfg, w, a);
    forall i | 0 <= i < |w.log| && w.log[i].Revealed?
      ensures w.log[i].id in w.rows && w.rows[w.log[i].id].status.Consumed?
    {
      RevealedRowIsConsumed(cfg, w, i);
    }
    if a.RevokeRow? && a.hit.Some? {
      RevokeHits(cfg, w, a);
    }
    forall i | 0 <= i < |w'.log| && w'.log[i].RevokeAnswered? && w'.log[i].revoked
      ensures w'.log[i].id in w'.rows && w'.rows[w'.log[i].id].status.Revoked?
    {
      if i < |w.log| {
        assert w'.log[i] == w.log[i];
        assert RowEvolves(w.leases, w.rows[w.log[i].id], w'.rows[w.log[i].id]);
      }
    }
  }

  lemma {:induction false} RunKeepsLog(cfg: Config, run: seq<Step>)
    requires Valid(cfg, run)
    ensures Inv(cfg, After(cfg, run)) && LogOk(After(cfg, run))
  {
    RunKeepsInv(cfg, run);
    if run != [] {
      var w, a := After(cfg, run[..|run| - 1]), run[|run| - 1];
      RunKeepsLog(cfg, run[..|run| - 1]);
      StepKeepsInv(cfg, w, a);
      StepKeepsReveals(cfg, w, a);
      StepKeepsRevokes(cfg, w, a);
    }
  }

  /** The client has spent the delivery: it is about to answer with the payload, or has. */
  predicate HasCommitted(p: Phase, id: Id) {
    (p.Committed? && p.id == id) || (p.Done? && p.answer.Reveal? && p.answer.id == id)
  }

  /** At most one Consume, over all interleavings, ever consumes a delivery, let alone answers with its payload. */
  lemma {:induction false} AtMostOneReveal(cfg: Config, run: seq<Step>, id: Id, c1: ClientId, c2: ClientId)
    requires Valid(cfg, run) && c1 in After(cfg, run).clients && c2 in After(cfg, run).clients
    requires HasCommitted(After(cfg, run).clients[c1].phase, id) && HasCommitted(After(cfg, run).clients[c2].phase, id)
    ensures c1 == c2
  {
    RunKeepsInv(cfg, run);
    var w := After(cfg, run);
    assert ClientOk(cfg, w, c1, w.clients[c1]) && ClientOk(cfg, w, c2, w.clients[c2]);
  }

  /** The same in terms of events: no delivery is revealed twice, not even to one caller. */
  lemma {:induction false} NoSecondReveal(cfg: Config, run: seq<Step>, i: nat, j: nat)
    requires Valid(cfg, run) && i < j < |After(cfg, run).log|
    requires After(cfg, run).log[i].Revealed? && After(cfg, run).log[j].Revealed?
    ensures After(cfg, run).log[i].id != After(cfg, run).log[j].id
  {
    RunKeepsLog(cfg, run);
    RevealedRowIsConsumed(cfg, After(cfg, run), i);
    RevealedRowIsConsumed(cfg, After(cfg, run), j);
  }

  /** A reveal is the decoded decryption of the ciphertext that was inserted, and the row is spent. */
  lemma {:induction false} RevealIsTheInsertedPayload(cfg: Config, run: seq<Step>, c: ClientId, id: Id, reply: string)
    requires Valid(cfg, run) && c in After(cfg, run).clients
    requires After(cfg, run).clients[c].phase == Done(Reveal(id, reply))
    ensures id in After(cfg, run).inserted && cfg.decrypt(After(cfg, run).inserted[id].payload).Some?
    ensures cfg.decode(cfg.decrypt(After(cfg, run).inserted[id].payload).value) == Some(reply)
    ensures id in After(cfg, run).rows
    ensures After(cfg, run).rows[id].status.Consumed? && After(cfg, run).rows[id].payload == ""
  {
    RunKeepsInv(cfg, run);
    var w := After(cfg, run);
    assert ClientOk(cfg, w, c, w.clients[c]) && RowOk(w.rows[id], w.inserted[id]);
  }

  predicate HoldsLease(p: Phase, id: Id, l: LeaseId) {
    (p.Leased? || p.Decrypted? || p.DecryptFailed?) && p.id == id && p.lease == l
  }

  /** Step j is c's BeginConsume, which took lease l on id before its expiry; c's password had been accepted for
      `hash`, and `hash` was the row's. */
  ghost predicate TakesFor(cfg: Config, run: seq<Step>, j: nat, c: ClientId, id: Id, l: LeaseId, hash: Option<string>)
    requires Valid(cfg, run)
  {
    && j < |run| && run[j].TakeLease? && run[j].c == c && run[j].lease == l && run[j].hit == Some(id)
    && var w := At(cfg, run, j);
       && c in w.clients && w.clients[c].phase == Found(hash) && PasswordGood(cfg, w.clients[c].password, hash)
       && id in w.rows && w.rows[id].passwordHash == hash && run[j].now < w.rows[id].expiresAt
  }

  /** Step k is c's CompleteConsume, committed on a row that still carries c's lease. */
  ghost predicate CommitsFor(cfg: Config, run: seq<Step>, k: nat, c: ClientId, id: Id)
    requires Valid(cfg, run)
  {
    && k < |run| && run[k].Finish? && run[k].c == c && run[k].hit == Some(id)
    && var w := At(cfg, run, k);
       && c in w.clients && w.clients[c].phase.Decrypted? && w.clients[c].phase.id == id
       && id in w.rows && w.rows[id].status.Consuming? && w.rows[id].leaseId == Some(w.clients[c].phase.lease)
  }

  lemma StepTakes(cfg: Config, w: World, a: Step, c: ClientId, id: Id, l: LeaseId)
    requires Enabled(cfg, w, a) && c in Next(cfg, w, a).clients
    requires HoldsLease(Next(cfg, w, a).clients[c].phase, id, l)
    requires !(c in w.clients && HoldsLease(w.clients[c].phase, id, l))
    ensures a.TakeLease? && a.c == c && a.lease == l && a.hit == Some(id) && c in w.clients && w.clients[c].phase.Found?
    ensures id in Next(cfg, w, a).rows && Next(cfg, w, a).rows[id].passwordHash == w.clients[c].phase.hash
    ensures PasswordGood(cfg, w.clients[c].password, w.clients[c].phase.hash)
    ensures id in w.rows && w.rows[id].passwordHash == w.clients[c].phase.hash && a.now < w.rows[id].expiresAt
  {
    hide Ran, IsHit, Emitted, IsCandidate, RowOk;
    if a.TakeLease? && a.hit.Some? {
      HitMatches(cfg, w, a);
    }
  }

  lemma HolderKeepsHash(cfg: Config, w: World, w': World, c: ClientId, id: Id, l: LeaseId)
    requires Inv(cfg, w) && Evolves(w, w') && c in w.clients && HoldsLease(w.clients[c].phase, id, l)
    ensures id in w.rows && id in w'.rows
    ensures w'.rows[id].leaseId == Some(l) ==>
              w.rows[id].leaseId == Some(l) && w'.rows[id].passwordHash == w.rows[id].passwordHash
  {
    hide RowOk, UniqueTokens;
    assert ClientOk(cfg, w, c, w.clients[c]) && RowEvolves(w.leases, w.rows[id], w'.rows[id]);
  }

  /** A lease holder's BeginConsume, and the hash verified for it: the row's own while the lease stands. */
  lemma {:induction false} HolderWasVerified(cfg: Config, run: seq<Step>, c: ClientId, id: Id, l: LeaseId)
    returns (j: nat, hash: Option<string>)
    requires Valid(cfg, run) && c in After(cfg, run).clients && HoldsLease(After(cfg, run).clients[c].phase, id, l)
    ensures TakesFor(cfg, run, j, c, id, l, hash) && id in After(cfg, run).rows
    ensures After(cfg, run).rows[id].leaseId == Some(l) ==> After(cfg, run).rows[id].passwordHash == hash
  {
    hide Enabled, NextRows, NextClients, Emitted, RowsOk, ClientOk, RowEvolves, PasswordGood;
    var before, a := run[..|run| - 1], run[|run| - 1];
    var w := After(cfg, before);
    RunKeepsInv(cfg, before);
    StepKeepsInv(cfg, w, a);
    if c in w.clients && HoldsLease(w.clients[c].phase, id, l) {
      j, hash := HolderWasVerified(cfg, before, c, id, l);
      assert run[..j] == before[..j];
      HolderKeepsHash(cfg, w, After(cfg, run), c, id, l);
    } else {
      StepTakes(cfg, w, a, c, id, l);
      j, hash := |run| - 1, w.clients[c].phase.hash;
    }
  }

  lemma StepCommits(cfg: Config, w: World, a: Step, c: ClientId, id: Id)
    requires Enabled(cfg, w, a) && c in Next(cfg, w, a).clients
    requires HasCommitted(Next(cfg, w, a).clients[c].phase, id)
    requires !(c in w.clients && HasCommitted(w.clients[c].phase, id))
    ensures a.Finish? && a.c == c && a.hit == Some(id) && c in w.clients
    ensures w.clients[c].phase.Decrypted? && w.clients[c].phase.id == id
    ensures id in w.rows && w.rows[id].status.Consuming? && w.rows[id].leaseId == Some(w.clients[c].phase.lease)
  {
    hide Matches, Assign, Ran, IsHit, Emitted, IsCandidate, RowOk;
    if a.Finish? && a.hit.Some? {
      HitMatches(cfg, w, a);
    }
  }

  lemma {:induction false} RevealWasCommitted(cfg: Config, run: seq<Step>, c: ClientId, id: Id) returns (k: nat)
    requires Valid(cfg, run) && c in After(cfg, run).clients && HasCommitted(After(cfg, run).clients[c].phase, id)
    ensures CommitsFor(cfg, run, k, c, id)
  {
    var before, a := run[..|run| - 1], run[|run| - 1];
    var w := After(cfg, before);
    if c in w.clients && HasCommitted(w.clients[c].phase, id) {
      k := RevealWasCommitted(cfg, before, c, id);
      assert run[..k] == before[..k];
    } else {
      StepCommits(cfg, w, a, c, id);
      k := |run| - 1;
    }
  }

  lemma {:induction false} ExpiryIsFixed(cfg: Config, run: seq<Step>, j: nat, id: Id)
    requires Valid(cfg, run) && j <= |run| && id in At(cfg, run, j).rows
    ensures id in After(cfg, run).inserted
    ensures After(cfg, run).inserted[id].expiresAt == At(cfg, run, j).rows[id].expiresAt
  {
    RunKeepsInv(cfg, run[..j]);
    RunEvolves(cfg, run, j);
    assert RowOk(At(cfg, run, j).rows[id], At(cfg, run, j).inserted[id]);
  }

  /** Password at commit: every reveal goes back to a BeginConsume (step j), sent before the expiry, for which the
      caller's password had been accepted; at the commit (step k), which may come later than the expiry, the row
      still stores the very hash the password was accepted for. */
  lemma {:induction false} PasswordAtCommit(cfg: Config, run: seq<Step>, c: ClientId, id: Id)
    returns (j: nat, k: nat, l: LeaseId, hash: Option<string>)
    requires Valid(cfg, run) && c in After(cfg, run).clients && HasCommitted(After(cfg, run).clients[c].phase, id)
    ensures CommitsFor(cfg, run, k, c, id) && j < k && TakesFor(cfg, run, j, c, id, l, hash)
    ensures id in After(cfg, run).inserted && run[j].now < After(cfg, run).inserted[id].expiresAt
    ensures At(cfg, run, k).rows[id].leaseId == Some(l) && At(cfg, run, k).rows[id].passwordHash == hash
  {
    hide TableOk, LeasesIssued, RowsEvolve, Enabled, Next;
    k := RevealWasCommitted(cfg, run, c, id);
    l := At(cfg, run, k).clients[c].phase.lease;
    j, hash := HolderWasVerified(cfg, run[..k], c, id, l);
    assert run[..k][..j] == run[..j];
    ExpiryIsFixed(cfg, run, j, id);
  }

  /** What a Revoke that reached the table did and answered: success exactly on a delivery it found open, and then the
      row is revoked, blank and unleased. */
  lemma RevokeStep(cfg: Config, w: World, a: Step)
    requires Enabled(cfg, w, a) && a.RevokeRow? && !a.fate.NeverRan?
    ensures var hit := a.id in w.rows && (w.rows[a.id].status.Active? || w.rows[a.id].status.Consuming?);
            var w' := Next(cfg, w, a);
            && a.hit == (if hit then Some(a.id) else None)
            && w'.log == w.log + (if hit && a.fate.Answered? then [RevokeAnswered(a.id, true, Some(Revoked))] else [])
            && (if hit then
                  && w'.rows == w.rows[a.id := w'.rows[a.id]] && w'.rows[a.id].status.Revoked?
                  && w'.rows[a.id].revokedAt == Some(a.now) && w'.rows[a.id].payload == ""
                  && w'.rows[a.id].leaseId.None?
                else w'.rows == w.rows)
  {
    assert a.id in w.rows ==> Matches(Revoke(a.id), a.id, w.rows[a.id], a.now) ==
                                (w.rows[a.id].status.Active? || w.rows[a.id].status.Consuming?);
  }

  /** A Revoke that finds the delivery open ends it for good, whether or not its answer arrives: the row stays revoked
      and blank from then on, and no caller, past or future, ever shows its payload. */
  lemma {:induction false} RevocationTakesEffect(cfg: Config, run: seq<Step>, k: nat)
    requires Valid(cfg, run) && k < |run| && run[k].RevokeRow? && !run[k].fate.NeverRan?
    requires run[k].id in At(cfg, run, k).rows
    requires At(cfg, run, k).rows[run[k].id].status in {Active, Consuming}
    ensures var id, w := run[k].id, After(cfg, run);
            && id in w.rows && w.rows[id].status.Revoked? && w.rows[id].revokedAt == Some(run[k].now)
            && w.rows[id].payload == "" && w.rows[id].leaseId.None?
            && (run[k].fate.Answered? ==> RevokeAnswered(id, true, Some(Revoked)) in w.log)
            && (forall j | 0 <= j < |w.log| && w.log[j].Revealed? :: w.log[j].id != id)
            && (forall c | c in w.clients :: !HasCommitted(w.clients[c].phase, id))
  {
    hide Enabled, Next, NextRows, NextClients, Emitted, RowsOk, RowEvolves, ClientsEvolve;
    var w, w', a, id := At(cfg, run, k), At(cfg, run, k + 1), run[k], run[k].id;
    assert run[..k + 1][..k] == run[..k];
    RevokeStep(cfg, w, a);
    assert a.fate.Answered? ==> w'.log[|w'.log| - 1] == RevokeAnswered(id, true, Some(Revoked));
    FinalRowsAreFrozen(cfg, run, k + 1, id);
    RunEvolves(cfg, run, k + 1);
    RunKeepsLog(cfg, run);
    forall j | 0 <= j < |After(cfg, run).log| && After(cfg, run).log[j].Revealed?
      ensures After(cfg, run).log[j].id != id
    {
      RevealedRowIsConsumed(cfg, After(cfg, run), j);
    }
    forall c | c in After(cfg, run).clients ensures !HasCommitted(After(cfg, run).clients[c].phase, id) {
      assert ClientOk(cfg, After(cfg, run), c, After(cfg, run).clients[c]);
    }
  }

  /** Revoke and reveal exclude each other, in whichever order they happen. */
  lemma {:induction false} RevokedIsNeverRevealed(cfg: Config, run: seq<Step>, i: nat, j: nat)
    requires Valid(cfg, run) && i < |After(cfg, run).log| && j < |After(cfg, run).log|
    requires After(cfg, run).log[i].RevokeAnswered? && After(cfg, run).log[i].revoked
    requires After(cfg, run).log[j].Revealed?
    ensures After(cfg, run).log[i].id != After(cfg, run).log[j].id
  {
    RunKeepsLog(cfg, run);
    RevealedRowIsConsumed(cfg, After(cfg, run), j);
  }

  /** After a reveal every Revoke is told that the delivery is consumed. */
  lemma {:induction false} RevokeAfterRevealReportsConsumed(cfg: Config, run: seq<Step>, i: nat, j: nat)
    requires Valid(cfg, run) && i < j < |After(cfg, run).log|
    requires After(cfg, run).log[i].Revealed? && After(cfg, run).log[j].RevokeAnswered?
    requires After(cfg, run).log[i].id == After(cfg, run).log[j].id
    ensures !After(cfg, run).log[j].revoked && After(cfg, run).log[j].status == Some(Consumed)
  {
    RunKeepsLog(cfg, run);
  }

  /** Row invariant over all runs, and both final states frozen from any point of the run on. */
  lemma {:induction false} FinalRowsAreFrozen(cfg: Config, run: seq<Step>, k: nat, id: Id)
    requires Valid(cfg, run) && k <= |run| && id in At(cfg, run, k).rows
    ensures id in After(cfg, run).rows && id in At(cfg, run, k).inserted
    ensures RowOk(After(cfg, run).rows[id], At(cfg, run, k).inserted[id])
    ensures At(cfg, run, k).rows[id].status in {Consumed, Revoked} ==>
              After(cfg, run).rows[id] == At(cfg, run, k).rows[id]
    ensures At(cfg, run, k).rows[id].status.Expired? ==> After(cfg, run).rows[id].status.Expired?
  {
    RunKeepsInv(cfg, run);
    RunKeepsInv(cfg, run[..k]);
    RunEvolves(cfg, run, k);
    var w, w' := At(cfg, run, k), After(cfg, run);
    assert RowEvolves(w.leases, w.rows[id], w'.rows[id]) && RowOk(w'.rows[id], w'.inserted[id]);
  }

  /** Cleanup's clauses for consumed and for revoked rows match no reachable row. */
  lemma {:induction false} ClearingReachesExpiredRowsOnly(cfg: Config, run: seq<Step>, id: Id, c: int, e: int, v: int,
                                                          now: Time)
    requires Valid(cfg, run) && id in After(cfg, run).rows && Clearable(After(cfg, run).rows[id], c, e, v, now)
    ensures After(cfg, run).rows[id].status.Expired?
    ensures id in After(cfg, run).inserted && After(cfg, run).rows[id].payload == After(cfg, run).inserted[id].payload
  {
    RunKeepsInv(cfg, run);
    OnlyExpiredRowsAreClearable(After(cfg, run).rows[id], After(cfg, run).inserted[id], c, e, v, now);
  }
}
