/** Consume run alone: what it promises its one caller, and that it is a run of the protocol. */
module SoloRuns {
  import opened Wrappers
  import opened Rows
  import opened DeliveryRepository
  import opened Protocol
  import opened Invariants
  import opened Service

  /** Alone and before expiry, Consume reveals exactly when the delivery is active or under a lease that has run out,
      attempts are left, the password fits, Vault decrypts and the payload decodes. */
  lemma SoloRevealsIff(cfg: Config, id: Id, r: Row, password: string, t1: Time, t2: Time, t3: Time, vaultUp: bool)
    ensures Solo(cfg, id, r, password, t1, t2, t3, vaultUp).1.Reveal? <==>
              && t1 < r.expiresAt && t2 < r.expiresAt && r.failedAttempts < r.maxFailedAttempts
              && (|| r.status.Active?
                  || (&& r.status.Consuming? && r.startedAt.Some?
                      && r.startedAt.value + cfg.leaseSeconds * SECOND < t1
                      && r.startedAt.value + cfg.leaseSeconds * SECOND < t2))
              && (r.passwordHash.None? || cfg.verify(password, r.passwordHash.value))
              && vaultUp && cfg.decrypt(r.payload).Some? && cfg.decode(cfg.decrypt(r.payload).value).Some?
  {
  }

  /** After Prepare's yes, the right password and a working Vault yield the payload, and no later Consume does
      anything. */
  lemma RightPasswordReveals(cfg: Config, id: Id, r: Row, password: string, t1: Time, t2: Time, t3: Time,
                             reply: string, password': string, u1: Time, u2: Time, u3: Time, vaultUp': bool)
    requires MayAttempt(r, t1) && t2 < r.expiresAt && PasswordGood(cfg, password, r.passwordHash)
    requires cfg.decrypt(r.payload).Some? && cfg.decode(cfg.decrypt(r.payload).value) == Some(reply)
    ensures var (r', answer) := Solo(cfg, id, r, password, t1, t2, t3, true);
            && answer == Reveal(id, reply) && r'.status.Consumed? && r'.payload == "" && !MayAttempt(r', u1)
            && Solo(cfg, id, r', password', u1, u2, u3, vaultUp') == (r', Unavailable)
  {
  }

  /** A failing Vault leaves an active delivery as it was: nothing but updated_at moves. */
  lemma VaultFailureRestores(cfg: Config, id: Id, r: Row, o: Row, password: string, t1: Time, t2: Time, t3: Time)
    requires RowOk(r, o) && MayAttempt(r, t1) && t2 < r.expiresAt && PasswordGood(cfg, password, r.passwordHash)
    ensures Solo(cfg, id, r, password, t1, t2, t3, false) == (r.(updatedAt := t3), Dependency)
  {
  }

  /** A wrong password takes no lease; it costs one attempt, and the last attempt costs the delivery. */
  lemma WrongPasswordTakesNoLease(cfg: Config, id: Id, r: Row, o: Row, password: string, t1: Time, t2: Time,
                                  t3: Time, vaultUp: bool)
    requires RowOk(r, o) && MayAttempt(r, t1) && t2 < r.expiresAt && !PasswordGood(cfg, password, r.passwordHash)
    ensures var (r', answer) := Solo(cfg, id, r, password, t1, t2, t3, vaultUp);
            && r'.leaseId.None? && r'.failedAttempts == r.failedAttempts + 1
            && (if r'.failedAttempts == r.maxFailedAttempts then
                  answer == Unavailable && r'.status.Revoked? && r'.payload == ""
                else
                  answer == PasswordInvalid && r' == r.(failedAttempts := r.failedAttempts + 1, updatedAt := t2))
  {
  }

  /** `steps` lead from world w to world w'. */
  ghost predicate Leads(cfg: Config, w: World, steps: seq<Step>, w': World)
    decreases |steps|
  {
    if steps == [] then w' == w
    else Enabled(cfg, w, steps[0]) && Leads(cfg, Next(cfg, w, steps[0]), steps[1..], w')
  }

  lemma {:induction false} LeadsExtendsRun(cfg: Config, run: seq<Step>, steps: seq<Step>, w': World)
    requires Valid(cfg, run) && Leads(cfg, After(cfg, run), steps, w')
    ensures Valid(cfg, run + steps) && After(cfg, run + steps) == w'
    decreases |steps|
  {
    hide Enabled, Next;
    if steps == [] {
      assert run + steps == run;
    } else {
      var run' := run + [steps[0]];
      assert run'[..|run'| - 1] == run;
      LeadsExtendsRun(cfg, run', steps[1..], w');
      assert run' + steps[1..] == run + steps;
    }
  }

  /** The table with one fresh delivery, and nobody there. */
  lemma OneDelivery(cfg: Config, ciphertext: string) returns (run: seq<Step>)
    requires ciphertext != ""
    ensures Valid(cfg, run) && After(cfg, run).rows == map[0 := FreshRow("token", ciphertext, 10, None, 5, 0)]
    ensures After(cfg, run).clients == map[] && After(cfg, run).leases == map[]
  {
    run := [InsertRow(0, "token", ciphertext, 10, None, 5, 0)];
    assert run[..0] == [];
  }

  /** The worlds of one Consume: everything is as in w except the row of `id` and client c. */
  ghost predicate Differs(w: World, w': World, id: Id, r: Row, c: ClientId, cl: Client) {
    && w'.rows == w.rows[id := r] && w'.clients == w.clients[c := cl]
    && RowsOk(w') && (forall l | l in w'.leases :: l in w.leases || w'.leases[l] == c)
  }

  lemma HitIs(u: Update, w: World, id: Id, now: Time)
    requires RowsOk(w) && SingleRow(u) && id in w.rows
    requires (u.Begin? || u.RecordFailure? ==> u.token == w.rows[id].tokenHash)
    requires (u.Restore? || u.Complete? ==> u.id == id)
    requires u.Begin? || u.RecordFailure? || u.Restore? || u.Complete?
    ensures IsHit(u, w.rows, if Matches(u, id, w.rows[id], now) then Some(id) else None, now)
  {
    forall i | i in w.rows && i != id ensures !Matches(u, i, w.rows[i], now) {
      assert RowOk(w.rows[i], w.inserted[i]) && RowOk(w.rows[id], w.inserted[id]);
    }
  }

  lemma ArriveStage(cfg: Config, w: World, c: ClientId, id: Id, password: string) returns (a: Step)
    requires RowsOk(w) && c !in w.clients && id in w.rows
    ensures Enabled(cfg, w, a)
    ensures Differs(w, Next(cfg, w, a), id, w.rows[id], c, Client(w.rows[id].tokenHash, password, Start))
    ensures Next(cfg, w, a).leases == w.leases
  {
    a := Arrive(c, w.rows[id].tokenHash, password);
    StepKeepsRows(cfg, w, a);
  }

  lemma FindStage(cfg: Config, w: World, c: ClientId, id: Id, t1: Time) returns (a: Step)
    requires RowsOk(w) && c in w.clients && w.clients[c].phase.Start? && id in w.rows
    requires w.clients[c].token == w.rows[id].tokenHash
    ensures Enabled(cfg, w, a) && Next(cfg, w, a).leases == w.leases
    ensures Differs(w, Next(cfg, w, a), id, w.rows[id], c,
                    w.clients[c].(phase := if Takeable(w.rows[id], cfg.leaseSeconds, t1)
                        then Found(w.rows[id].passwordHash) else Done(Unavailable)))
  {
    a := Find(c, if Takeable(w.rows[id], cfg.leaseSeconds, t1) then Some(id) else None, t1, Answered);
    TokenIsOnlyHis(w, id);
    StepKeepsRows(cfg, w, a);
  }

  lemma TokenIsOnlyHis(w: World, id: Id)
    requires RowsOk(w) && id in w.rows
    ensures forall i | i in w.rows && w.rows[i].tokenHash == w.rows[id].tokenHash :: i == id
  {
    forall i | i in w.rows ensures w.rows[i].tokenHash == w.inserted[i].tokenHash {
      assert RowOk(w.rows[i], w.inserted[i]);
    }
  }

  lemma FailStage(cfg: Config, w: World, c: ClientId, id: Id, t2: Time) returns (a: Step)
    requires RowsOk(w) && c in w.clients && id in w.rows && w.clients[c].token == w.rows[id].tokenHash
    requires w.clients[c].phase == Found(w.rows[id].passwordHash)
    requires !PasswordGood(cfg, w.clients[c].password, w.rows[id].passwordHash)
    ensures Enabled(cfg, w, a)
    ensures var u := RecordFailure(w.rows[id].tokenHash, w.rows[id].passwordHash.value, cfg.leaseSeconds);
            var r' := UpdateRow(u, id, w.rows[id], t2);
            Differs(w, Next(cfg, w, a), id, r', c,
                    w.clients[c].(phase := Done(if !Matches(u, id, w.rows[id], t2)
                        || r'.status.Revoked? then Unavailable else PasswordInvalid)))
  {
    hide Matches, Assign, IsHit, RowOk, UniqueTokens;
    var u := RecordFailure(w.rows[id].tokenHash, w.rows[id].passwordHash.value, cfg.leaseSeconds);
    HitIs(u, w, id, t2);
    a := Fail(c, if Matches(u, id, w.rows[id], t2) then Some(id) else None, t2, Answered);
    assert w.rows == w.rows[id := w.rows[id]];
    StepKeepsRows(cfg, w, a);
  }

  lemma LeaseStage(cfg: Config, w: World, c: ClientId, id: Id, lease: LeaseId, t2: Time) returns (a: Step)
    requires RowsOk(w) && c in w.clients && id in w.rows && w.clients[c].token == w.rows[id].tokenHash
    requires lease !in w.leases
    requires w.clients[c].phase == Found(w.rows[id].passwordHash)
    requires PasswordGood(cfg, w.clients[c].password, w.rows[id].passwordHash)
    ensures Enabled(cfg, w, a)
    ensures var u := Begin(w.rows[id].tokenHash, w.rows[id].passwordHash, lease, cfg.leaseSeconds);
            var r' := UpdateRow(u, id, w.rows[id], t2);
            Differs(w, Next(cfg, w, a), id, r', c,
                    w.clients[c].(phase := if Matches(u, id, w.rows[id], t2) then Leased(id, lease, r'.payload)
                        else Done(Unavailable)))
  {
    hide Matches, Assign, IsHit, RowOk, UniqueTokens;
    var u := Begin(w.rows[id].tokenHash, w.rows[id].passwordHash, lease, cfg.leaseSeconds);
    HitIs(u, w, id, t2);
    a := TakeLease(c, lease, if Matches(u, id, w.rows[id], t2) then Some(id) else None, t2, Answered);
    assert w.rows == w.rows[id := w.rows[id]];
    StepKeepsRows(cfg, w, a);
  }

  lemma DecryptStage(cfg: Config, w: World, c: ClientId, id: Id, lease: LeaseId, vaultUp: bool) returns (a: Step)
    requires RowsOk(w) && c in w.clients && id in w.rows && w.clients[c].phase == Leased(id, lease, w.rows[id].payload)
    ensures Enabled(cfg, w, a)
    ensures var plain := cfg.decrypt(w.rows[id].payload);
            Differs(w, Next(cfg, w, a), id, w.rows[id], c,
                    w.clients[c].(phase := if vaultUp && plain.Some? then Decrypted(id, lease, plain.value)
                        else DecryptFailed(id, lease)))
  {
    hide RowOk, UniqueTokens;
    a := Decrypt(c, vaultUp);
    assert w.rows == w.rows[id := w.rows[id]];
    StepKeepsRows(cfg, w, a);
  }

  lemma RestoreStage(cfg: Config, w: World, c: ClientId, id: Id, lease: LeaseId, t3: Time) returns (a: Step)
    requires RowsOk(w) && c in w.clients && id in w.rows && w.clients[c].phase == DecryptFailed(id, lease)
    ensures Enabled(cfg, w, a)
    ensures Differs(w, Next(cfg, w, a), id, UpdateRow(Restore(id, lease), id, w.rows[id], t3), c,
                    w.clients[c].(phase := Done(Dependency)))
  {
    hide Matches, Assign, IsHit, RowOk, UniqueTokens;
    HitIs(Restore(id, lease), w, id, t3);
    a := GiveBack(c, if Matches(Restore(id, lease), id, w.rows[id], t3) then Some(id) else None, t3, Answered);
    assert w.rows == w.rows[id := w.rows[id]];
    StepKeepsRows(cfg, w, a);
  }

  lemma CompleteStage(cfg: Config, w: World, c: ClientId, id: Id, lease: LeaseId, plain: string, t3: Time)
    returns (a: Step)
    requires RowsOk(w) && c in w.clients && id in w.rows && w.clients[c].phase == Decrypted(id, lease, plain)
    requires Matches(Complete(id, lease), id, w.rows[id], t3)
    ensures Enabled(cfg, w, a)
    ensures Differs(w, Next(cfg, w, a), id, UpdateRow(Complete(id, lease), id, w.rows[id], t3), c,
                    w.clients[c].(phase := Committed(id, plain)))
  {
    hide Matches, Assign, IsHit, RowOk, UniqueTokens;
    HitIs(Complete(id, lease), w, id, t3);
    a := Finish(c, Some(id), t3, Answered);
    StepKeepsRows(cfg, w, a);
  }

  lemma ReplyStage(cfg: Config, w: World, c: ClientId, id: Id, plain: string) returns (a: Step)
    requires RowsOk(w) && c in w.clients && id in w.rows && w.clients[c].phase == Committed(id, plain)
    ensures Enabled(cfg, w, a)
    ensures var reply := cfg.decode(plain);
            Differs(w, Next(cfg, w, a), id, w.rows[id], c,
                    w.clients[c].(phase := Done(if reply.None? then Internal else Reveal(id, reply.value))))
  {
    hide RowOk, UniqueTokens;
    a := Reply(c);
    assert w.rows == w.rows[id := w.rows[id]];
    StepKeepsRows(cfg, w, a);
  }

  lemma LeadsOne(cfg: Config, w: World, a: Step, steps: seq<Step>, w': World)
    requires Enabled(cfg, w, a) && Leads(cfg, Next(cfg, w, a), steps, w')
    ensures Leads(cfg, w, [a] + steps, w')
  {
    assert ([a] + steps)[1..] == steps;
  }

  /** From the lease on. */
  lemma LeasedLeads(cfg: Config, w: World, c: ClientId, id: Id, lease: LeaseId, t3: Time, vaultUp: bool)
    returns (steps: seq<Step>, w': World)
    requires RowsOk(w) && c in w.clients && id in w.rows && w.clients[c].phase == Leased(id, lease, w.rows[id].payload)
    requires Matches(Complete(id, lease), id, w.rows[id], t3)
    ensures Leads(cfg, w, steps, w')
    ensures w'.clients.Keys == w.clients.Keys && c in w'.clients && w'.clients[c].phase.Done?
    ensures var plain := cfg.decrypt(w.rows[id].payload);
            if !vaultUp || plain.None? then
              && w'.rows == w.rows[id := UpdateRow(Restore(id, lease), id, w.rows[id], t3)]
              && w'.clients[c].phase == Done(Dependency)
            else
              && w'.rows == w.rows[id := UpdateRow(Complete(id, lease), id, w.rows[id], t3)]
              && w'.clients[c].phase ==
                 Done(if cfg.decode(plain.value).None? then Internal else Reveal(id, cfg.decode(plain.value).value))
  {
    hide Matches, Enabled, Next, UpdateRow, RowsOk;
    var plain := cfg.decrypt(w.rows[id].payload);
    var a4 := DecryptStage(cfg, w, c, id, lease, vaultUp);
    var w4 := Next(cfg, w, a4);
    if !vaultUp || plain.None? {
      var a5 := RestoreStage(cfg, w4, c, id, lease, t3);
      steps, w' := [a5], Next(cfg, w4, a5);
    } else {
      var a5 := CompleteStage(cfg, w4, c, id, lease, plain.value, t3);
      var a6 := ReplyStage(cfg, Next(cfg, w4, a5), c, id, plain.value);
      steps, w' := [a6], Next(cfg, Next(cfg, w4, a5), a6);
      LeadsOne(cfg, w4, a5, steps, w');
      steps := [a5] + steps;
    }
    LeadsOne(cfg, w, a4, steps, w');
    steps := [a4] + steps;
  }

  /** From the candidate on. */
  lemma FoundLeads(cfg: Config, w: World, c: ClientId, id: Id, lease: LeaseId, t1: Time, t2: Time, t3: Time,
                   vaultUp: bool)
    returns (steps: seq<Step>, w': World)
    requires RowsOk(w) && c in w.clients && id in w.rows && w.clients[c].token == w.rows[id].tokenHash
    requires lease !in w.leases
    requires w.clients[c].phase == Found(w.rows[id].passwordHash) && Takeable(w.rows[id], cfg.leaseSeconds, t1)
    ensures Leads(cfg, w, steps, w') && c in w'.clients
    ensures var solo := Solo(cfg, id, w.rows[id], w.clients[c].password, t1, t2, t3, vaultUp);
            w'.rows == w.rows[id := solo.0] && w'.clients[c].phase == Done(solo.1)
  {
    hide Matches, Enabled, Next, UpdateRow, RowsOk, Solo, Takeable;
    var r, password := w.rows[id], w.clients[c].password;
    if !PasswordGood(cfg, password, r.passwordHash) {
      var a3 := FailStage(cfg, w, c, id, t2);
      FailureRow(cfg, r, id, password, t1, t2, t3, vaultUp);
      steps, w' := [a3], Next(cfg, w, a3);
    } else {
      var a3 := LeaseStage(cfg, w, c, id, lease, t2);
      var w3 := Next(cfg, w, a3);
      LeaseRow(cfg, r, id, password, lease, t1, t2, t3, vaultUp);
      if w3.clients[c].phase.Done? {
        steps, w' := [], w3;
      } else {
        CompleteIgnoresTheClock(id, lease, w3.rows[id], t3);
        steps, w' := LeasedLeads(cfg, w3, c, id, lease, t3, vaultUp);
        assert w'.rows == w.rows[id := w'.rows[id]];
      }
      LeadsOne(cfg, w, a3, steps, w');
      steps := [a3] + steps;
    }
  }

  lemma CompleteIgnoresTheClock(id: Id, lease: LeaseId, r: Row, t: Time)
    ensures Matches(Complete(id, lease), id, r, t) <==> r.status.Consuming? && r.leaseId == Some(lease)
  {
  }

  /** The sequential Consume is a run of the protocol, so whatever holds of every run holds of it. */
  lemma SoloIsARun(cfg: Config, run: seq<Step>, c: ClientId, id: Id, password: string, lease: LeaseId,
                   t1: Time, t2: Time, t3: Time, vaultUp: bool) returns (more: seq<Step>)
    requires Valid(cfg, run) && c !in After(cfg, run).clients && id in After(cfg, run).rows
    requires lease !in After(cfg, run).leases
    ensures Valid(cfg, run + more) && c in After(cfg, run + more).clients
    ensures var solo := Solo(cfg, id, After(cfg, run).rows[id], password, t1, t2, t3, vaultUp);
            && After(cfg, run + more).rows == After(cfg, run).rows[id := solo.0]
            && After(cfg, run + more).clients[c].phase == Done(solo.1)
  {
    hide Matches, Enabled, Next, RowsOk, Solo, Takeable, ClientOk;
    var w := After(cfg, run);
    RunKeepsInv(cfg, run);
    var a1 := ArriveStage(cfg, w, c, id, password);
    var w1 := Next(cfg, w, a1);
    var a2 := FindStage(cfg, w1, c, id, t1);
    var w2 := Next(cfg, w1, a2);
    var steps, w' := [], w2;
    if w2.clients[c].phase.Found? {
      steps, w' := FoundLeads(cfg, w2, c, id, lease, t1, t2, t3, vaultUp);
    } else {
      UntakeableIsUnavailable(cfg, id, w.rows[id], password, t1, t2, t3, vaultUp);
    }
    LeadsOne(cfg, w1, a2, steps, w');
    LeadsOne(cfg, w, a1, [a2] + steps, w');
    more := [a1] + ([a2] + steps);
    LeadsExtendsRun(cfg, run, more, w');
    assert w'.rows == w.rows[id := w'.rows[id]];
  }

  lemma UntakeableIsUnavailable(cfg: Config, id: Id, r: Row, password: string, t1: Time, t2: Time,
                                t3: Time, vaultUp: bool)
    requires !Takeable(r, cfg.leaseSeconds, t1)
    ensures Solo(cfg, id, r, password, t1, t2, t3, vaultUp) == (r, Unavailable)
  {
  }

  /** A step of the protocol that reaches the table runs the statement the repository method runs. */
  lemma StepIsStatement(cfg: Config, w: World, a: Step)
    requires RowsOk(w) && Enabled(cfg, w, a) && Sends(a) && !a.fate.NeverRan?
    ensures Next(cfg, w, a).rows == Exec(StatementOf(cfg, w, a), w.rows, a.now)
  {
    hide Matches, Assign, IsHit, RowOk;
    TokensAreUnique(w);
    StatementIsSingle(cfg, w, a);
    SingleRowUpdate(StatementOf(cfg, w, a), w.rows, a.hit, a.now);
  }

  lemma TokensAreUnique(w: World)
    requires RowsOk(w)
    ensures UniqueTokens(w.rows)
  {
    forall i, j | i in w.rows && j in w.rows && w.rows[i].tokenHash == w.rows[j].tokenHash ensures i == j {
      TokenIsOnlyHis(w, j);
    }
  }

  lemma StatementIsSingle(cfg: Config, w: World, a: Step)
    requires Sends(a) && Ready(cfg, w, a)
    ensures SingleRow(StatementOf(cfg, w, a))
  {
  }

  /** Whatever Insert accepts, with a ciphertext, is a step from every reachable state. */
  lemma InsertIsAStep(cfg: Config, run: seq<Step>, id: Id, token: string, payload: string, expiresAt: Time,
                      hash: Option<string>, max: nat, now: Time) returns (a: Step)
    requires Valid(cfg, run) && id !in After(cfg, run).rows && 1 <= max <= 20 && payload != ""
    requires forall i | i in After(cfg, run).rows :: After(cfg, run).rows[i].tokenHash != token
    ensures Valid(cfg, run + [a])
    ensures After(cfg, run + [a]).rows ==
              After(cfg, run).rows[id :=
                Row(token, payload, Active, expiresAt, None, None, None, None, hash, 0, max, now)]
  {
    a := InsertRow(id, token, payload, expiresAt, hash, max, now);
    assert (run + [a])[..|run|] == run;
  }

  lemma OwnHit(u: Update, t: Table, now: Time)
    requires u.Revoke? || u.SetPassword?
    ensures IsHit(u, t, if u.id in t && Matches(u, u.id, t[u.id], now) then Some(u.id) else None, now)
  {
  }

  lemma OwnerStage(cfg: Config, w: World, u: Update, k: RevokerId, now: Time, fate: Fate) returns (a: Step)
    requires RowsOk(w) && (u.Revoke? || u.SetPassword?) && k !in w.revokers
    ensures Enabled(cfg, w, a) && Sends(a) && a.fate == fate && a.now == now
    ensures if u.Revoke? then a.RevokeRow? && a.k == k && a.id == u.id
            else a.ChangePassword? && a.id == u.id && a.hash == u.hash
    ensures Next(cfg, w, a).rows == if fate.NeverRan? then w.rows else Exec(u, w.rows, now)
  {
    hide Matches, Assign, RowOk, IsHit, Exec, RowsOk;
    OwnHit(u, w.rows, now);
    var hit := if !fate.NeverRan? && u.id in w.rows && Matches(u, u.id, w.rows[u.id], now) then Some(u.id) else None;
    a := if u.Revoke? then RevokeRow(k, u.id, hit, now, fate) else ChangePassword(u.id, u.hash, hit, now, fate);
    if !fate.NeverRan? {
      StepIsStatement(cfg, w, a);
    }
  }

  /** So are a revocation and a change of the password, at any moment, whatever becomes of the reply. */
  lemma OwnerIsAStep(cfg: Config, run: seq<Step>, u: Update, k: RevokerId, now: Time, fate: Fate) returns (a: Step)
    requires Valid(cfg, run) && (u.Revoke? || u.SetPassword?) && k !in After(cfg, run).revokers
    ensures Valid(cfg, run + [a]) && Sends(a) && a.fate == fate && a.now == now
    ensures if u.Revoke? then a.RevokeRow? && a.k == k && a.id == u.id
            else a.ChangePassword? && a.id == u.id && a.hash == u.hash
    ensures After(cfg, run + [a]).rows ==
              if fate.NeverRan? then After(cfg, run).rows else Exec(u, After(cfg, run).rows, now)
  {
    hide Exec, RowsOk, Enabled, Next, ClientOk;
    RunKeepsInv(cfg, run);
    a := OwnerStage(cfg, After(cfg, run), u, k, now, fate);
    assert (run + [a])[..|run|] == run;
  }

  /** A statement with another outcome for its sender. */
  function WithFate(a: Step, hit: Option<Id>, fate: Fate): Step
    requires Sends(a)
  {
    match a
    case Fail(c, _, now, _) => Fail(c, hit, now, fate)
    case TakeLease(c, lease, _, now, _) => TakeLease(c, lease, hit, now, fate)
    case GiveBack(c, _, now, _) => GiveBack(c, hit, now, fate)
    case Finish(c, _, now, _) => Finish(c, hit, now, fate)
    case RevokeRow(k, id, _, now, _) => RevokeRow(k, id, hit, now, fate)
    case ChangePassword(id, hash, _, now, _) => ChangePassword(id, hash, hit, now, fate)
  }

  /** A cleanup statement may run on any of the rows it matches, and its reply may be lost. */
  lemma SweepsMayInterleave(cfg: Config, w: World, u: Update, scope: set<Id>, now: Time, fate: Fate)
    requires !SingleRow(u) && (u.RestoreStale? ==> u.leaseSeconds == cfg.leaseSeconds) && !fate.NeverRan?
    ensures Enabled(cfg, w, Sweep(u, scope, now, fate))
    ensures Next(cfg, w, Sweep(u, scope, now, fate)).rows == ExecOn(u, w.rows, scope, now)
  {
    hide Matches, Assign, ExecOn;
  }

  /** Any statement may lose its reply or never run. */
  lemma StatementsMayFail(cfg: Config, w: World, a: Step)
    requires Enabled(cfg, w, a) && Sends(a) && !a.fate.NeverRan?
    ensures var lost, never := WithFate(a, a.hit, ReplyLost), WithFate(a, None, NeverRan);
            && Enabled(cfg, w, lost) && Next(cfg, w, lost).rows == Next(cfg, w, a).rows
            && Enabled(cfg, w, never) && Next(cfg, w, never).rows == w.rows
  {
    hide Matches, Assign, IsHit;
  }

  /** Any caller may come with any token and password, and die at any point, and leaves everything as it is. */
  lemma CallersComeAndGo(cfg: Config, w: World, c: ClientId, token: string, password: string)
    ensures c !in w.clients ==>
              && Enabled(cfg, w, Arrive(c, token, password))
              && Next(cfg, w, Arrive(c, token, password)) ==
                 w.(clients := w.clients[c := Client(token, password, Start)])
    ensures c in w.clients && !w.clients[c].phase.Done? ==>
              && Enabled(cfg, w, Crash(c))
              && Next(cfg, w, Crash(c)) == w.(clients := w.clients[c := w.clients[c].(phase := Done(Crashed))])
  {
  }

  /** Cleanup's transaction, undisturbed, is three Sweep steps of the protocol. */
  lemma CleanupIsARun(cfg: Config, run: seq<Step>, c: int, e: int, v: int, now: Time) returns (more: seq<Step>)
    requires Valid(cfg, run)
    ensures Valid(cfg, run + more)
    ensures After(cfg, run + more).rows == CleanupTable(After(cfg, run).rows, c, e, v, cfg.leaseSeconds, now)
  {
    hide Matches, Assign, Next, Enabled, ExecOn;
    var w0 := After(cfg, run);
    var a1 := SweepStage(cfg, w0, ExpireActive, now);
    var w1 := Next(cfg, w0, a1);
    var a2 := SweepStage(cfg, w1, RestoreStale(cfg.leaseSeconds), now);
    var w2 := Next(cfg, w1, a2);
    var a3 := SweepStage(cfg, w2, ClearPayloads(c, e, v), now);
    var w3 := Next(cfg, w2, a3);
    LeadsOne(cfg, w2, a3, [], w3);
    LeadsOne(cfg, w1, a2, [a3] + [], w3);
    LeadsOne(cfg, w0, a1, [a2] + ([a3] + []), w3);
    more := [a1] + ([a2] + ([a3] + []));
    LeadsExtendsRun(cfg, run, more, w3);
  }

  lemma SweepStage(cfg: Config, w: World, u: Update, now: Time) returns (a: Step)
    requires !SingleRow(u) && (u.RestoreStale? ==> u.leaseSeconds == cfg.leaseSeconds)
    ensures Enabled(cfg, w, a) && Next(cfg, w, a).rows == Exec(u, w.rows, now)
  {
    hide Matches, Assign, ExecOn;
    a := Sweep(u, w.rows.Keys, now, Answered);
  }
}
