/**
 What becomes of a consumed delivery.  The service promises that it is revealed at most once.  That it is
 revealed at all is another matter: the caller that consumed it may be cut off, may never learn that its
 CompleteConsume was committed, or may hold a plaintext that does not decode.  There is no fourth way.
 */
module Endings {
  import opened Wrappers
  import opened Rows
  import opened Protocol
  import opened Invariants
  import opened OneShot
  import opened SoloRuns
  import opened Stranding

  /** Step k is a CompleteConsume that committed on delivery `id`. */
  predicate Commits(run: seq<Step>, k: nat, id: Id) {
    k < |run| && run[k].Finish? && run[k].hit == Some(id)
  }

  /** The step was taken after step k. */
  ghost predicate Later(run: seq<Step>, k: nat, a: Step) {
    exists j :: k < j < |run| && run[j] == a
  }

  /** Where a caller is after its CompleteConsume committed, given what it learned and did since. */
  function Ending(cfg: Config, id: Id, plain: string, answered: bool, replied: bool, crashed: bool): Phase {
    if !answered then Done(Internal)
    else if crashed then Done(Crashed)
    else if !replied then Committed(id, plain)
    else if cfg.decode(plain).None? then Done(Internal)
    else Done(Reveal(id, cfg.decode(plain).value))
  }

  /** Somebody was shown the payload. */
  ghost predicate Shown(w: World, id: Id) {
    exists c, reply :: c in w.clients && w.clients[c].phase == Done(Reveal(id, reply))
  }

  /** After the commit a caller can only reply or crash, once; nobody else moves it. */
  lemma StepAfterCommit(cfg: Config, w: World, a: Step, c: ClientId)
    requires Enabled(cfg, w, a) && c in w.clients && (w.clients[c].phase.Committed? || w.clients[c].phase.Done?)
    ensures c in Next(cfg, w, a).clients
    ensures w.clients[c].phase.Done? ==> a != Reply(c) && a != Crash(c)
    ensures a != Reply(c) && a != Crash(c) ==> Next(cfg, w, a).clients[c].phase == w.clients[c].phase
    ensures a == Crash(c) ==> Next(cfg, w, a).clients[c].phase == Done(Crashed)
    ensures a == Reply(c) ==>
              Next(cfg, w, a).clients[c].phase ==
              var reply := cfg.decode(w.clients[c].phase.plaintext);
              if reply.None? then Done(Internal) else Done(Reveal(w.clients[c].phase.id, reply.value))
  {
    hide Ran, IsCandidate, StatementOf, NextRows, Emitted;
  }

  lemma CommitStep(cfg: Config, w: World, a: Step, id: Id) returns (plain: string)
    requires Inv(cfg, w) && Enabled(cfg, w, a) && a.Finish? && a.hit == Some(id)
    ensures id in w.inserted && cfg.decrypt(w.inserted[id].payload) == Some(plain)
    ensures a.c in Next(cfg, w, a).clients
    ensures Next(cfg, w, a).clients[a.c].phase == Ending(cfg, id, plain, a.fate.Answered?, false, false)
  {
    hide RowsOk, Emitted, Assign, RowOk;
    HitMatches(cfg, w, a);
    assert ClientOk(cfg, w, a.c, w.clients[a.c]);
    plain := w.clients[a.c].phase.plaintext;
  }

  lemma LaterOneMore(run: seq<Step>, k: nat, a: Step, s: Step)
    requires k < |run|
    ensures Later(run + [a], k, s) <==> Later(run, k, s) || a == s
  {
    if Later(run, k, s) {
      var j :| k < j < |run| && run[j] == s;
      assert (run + [a])[j] == s;
    }
    assert (run + [a])[|run|] == a;
  }

  /** Every commit ends as its fate, its caller's later steps and the decoding of its plaintext say. */
  lemma {:induction false} CommitEnds(cfg: Config, run: seq<Step>, k: nat, id: Id) returns (plain: string)
    requires Valid(cfg, run) && Commits(run, k, id)
    ensures id in After(cfg, run).inserted && cfg.decrypt(After(cfg, run).inserted[id].payload) == Some(plain)
    ensures run[k].c in After(cfg, run).clients
    ensures After(cfg, run).clients[run[k].c].phase ==
              Ending(cfg, id, plain, run[k].fate.Answered?, Later(run, k, Reply(run[k].c)),
                     Later(run, k, Crash(run[k].c)))
    ensures !run[k].fate.Answered? ==> !Later(run, k, Reply(run[k].c)) && !Later(run, k, Crash(run[k].c))
    ensures !(Later(run, k, Reply(run[k].c)) && Later(run, k, Crash(run[k].c)))
  {
    hide Enabled, NextRows, NextClients, Emitted, Inv, RowsEvolve, ClientsEvolve;
    var before, a := run[..|run| - 1], run[|run| - 1];
    var w := After(cfg, before);
    RunKeepsInv(cfg, before);
    StepKeepsInv(cfg, w, a);
    if k == |before| {
      plain := CommitStep(cfg, w, a, id);
    } else {
      plain := CommitEnds(cfg, before, k, id);
      assert run == before + [a];
      LaterOneMore(before, k, a, Reply(run[k].c));
      LaterOneMore(before, k, a, Crash(run[k].c));
      StepAfterCommit(cfg, w, a, run[k].c);
    }
  }

  lemma ConsumerWins(cfg: Config, w: World, a: Step, id: Id)
    requires RowsOk(w) && Enabled(cfg, w, a) && id in Next(cfg, w, a).rows && Next(cfg, w, a).rows[id].status.Consumed?
    requires !(id in w.rows && w.rows[id].status.Consumed?)
    ensures a.Finish? && a.hit == Some(id) && id in Next(cfg, w, a).winner && Next(cfg, w, a).winner[id] == a.c
  {
    OnlyFinishConsumes(cfg, w, a, id);
    hide Enabled, RowsOk, NextRows, NextClients, Emitted;
  }

  /** A consumed delivery was consumed by one CompleteConsume. */
  lemma {:induction false} ConsumedWasCommitted(cfg: Config, run: seq<Step>, id: Id) returns (k: nat)
    requires Valid(cfg, run) && id in After(cfg, run).rows && After(cfg, run).rows[id].status.Consumed?
    ensures Commits(run, k, id) && id in After(cfg, run).winner && After(cfg, run).winner[id] == run[k].c
  {
    hide Enabled, Next, ClientOk, RowsOk, RowsEvolve, ClientsEvolve;
    var before, a := run[..|run| - 1], run[|run| - 1];
    var w := After(cfg, before);
    RunKeepsInv(cfg, before);
    StepKeepsInv(cfg, w, a);
    if id in w.rows && w.rows[id].status.Consumed? {
      k := ConsumedWasCommitted(cfg, before, id);
    } else {
      ConsumerWins(cfg, w, a, id);
      k := |before|;
    }
  }

  lemma ShownToTheWinner(cfg: Config, w: World, c: ClientId, id: Id, reply: string)
    requires Inv(cfg, w) && c in w.clients && w.clients[c].phase == Done(Reveal(id, reply))
    ensures id in w.winner && w.winner[id] == c
  {
    hide RowsOk;
    assert ClientOk(cfg, w, c, w.clients[c]);
  }

  /** The payload of a consumed delivery is shown to somebody if and only if the commit was answered, its caller went
      on to reply, and the plaintext decodes; and then to the caller that committed.  Otherwise that caller is still
      about to reply, or it is done without the payload. */
  lemma {:induction false} ConsumedIsShownIff(cfg: Config, run: seq<Step>, id: Id) returns (k: nat, plain: string)
    requires Valid(cfg, run) && id in After(cfg, run).rows && After(cfg, run).rows[id].status.Consumed?
    ensures Commits(run, k, id) && run[k].c in After(cfg, run).clients
    ensures id in After(cfg, run).inserted && cfg.decrypt(After(cfg, run).inserted[id].payload) == Some(plain)
    ensures Shown(After(cfg, run), id) <==>
            run[k].fate.Answered? && Later(run, k, Reply(run[k].c)) && cfg.decode(plain).Some?
    ensures Shown(After(cfg, run), id) ==>
              After(cfg, run).clients[run[k].c].phase == Done(Reveal(id, cfg.decode(plain).value))
    ensures !Shown(After(cfg, run), id) ==>
              After(cfg, run).clients[run[k].c].phase in {Committed(id, plain), Done(Internal), Done(Crashed)}
    ensures After(cfg, run).clients[run[k].c].phase == Committed(id, plain) <==>
            run[k].fate.Answered? && !Later(run, k, Reply(run[k].c)) && !Later(run, k, Crash(run[k].c))
  {
    k := ConsumedWasCommitted(cfg, run, id);
    plain := CommitEnds(cfg, run, k, id);
    RunKeepsInv(cfg, run);
    hide Inv, Enabled, Next, Later;
    var w := After(cfg, run);
    if Shown(w, id) {
      var c, reply :| c in w.clients && w.clients[c].phase == Done(Reveal(id, reply));
      ShownToTheWinner(cfg, w, c, id, reply);
    }
  }

  lemma {:induction false} LeadsBoth(cfg: Config, w: World, steps: seq<Step>, w1: World, more: seq<Step>, w2: World)
    requires Leads(cfg, w, steps, w1) && Leads(cfg, w1, more, w2)
    ensures Leads(cfg, w, steps + more, w2)
    decreases |steps|
  {
    hide Enabled, Next;
    if steps == [] {
      assert steps + more == more;
    } else {
      LeadsBoth(cfg, Next(cfg, w, steps[0]), steps[1..], w1, more, w2);
      assert (steps + more)[1..] == steps[1..] + more;
    }
  }

  /** A caller in the middle of Consume: it holds the lease and the plaintext. */
  ghost predicate Poised(cfg: Config, w: World, c: ClientId, id: Id, lease: LeaseId, plain: string) {
    && RowsOk(w) && c in w.clients && w.clients[c].phase == Decrypted(id, lease, plain)
    && id in w.rows && w.rows[id].status.Consuming? && w.rows[id].leaseId == Some(lease)
  }

  /** From every reachable state, a caller that may consume a delivery can come to hold its plaintext. */
  lemma PoisedCaller(cfg: Config, w: World, c: ClientId, id: Id, password: string, lease: LeaseId, t1: Time, t2: Time)
    returns (steps: seq<Step>, w': World)
    requires RowsOk(w) && c !in w.clients && id in w.rows && lease !in w.leases
    requires Takeable(w.rows[id], cfg.leaseSeconds, t1) && Takeable(w.rows[id], cfg.leaseSeconds, t2)
    requires PasswordGood(cfg, password, w.rows[id].passwordHash) && cfg.decrypt(w.rows[id].payload).Some?
    ensures Leads(cfg, w, steps, w') && Poised(cfg, w', c, id, lease, cfg.decrypt(w.rows[id].payload).value)
  {
    hide Matches, Enabled, Next, RowsOk, Takeable;
    var a1 := ArriveStage(cfg, w, c, id, password);
    var w1 := Next(cfg, w, a1);
    var a2 := FindStage(cfg, w1, c, id, t1);
    var w2 := Next(cfg, w1, a2);
    var a3 := LeaseStageIssues(cfg, w2, c, id, lease, t2);
    var w3 := Next(cfg, w2, a3);
    var a4 := DecryptStage(cfg, w3, c, id, lease, true);
    w' := Next(cfg, w3, a4);
    LeadsOne(cfg, w3, a4, [], w');
    LeadsOne(cfg, w2, a3, [a4] + [], w');
    LeadsOne(cfg, w1, a2, [a3] + ([a4] + []), w');
    LeadsOne(cfg, w, a1, [a2] + ([a3] + ([a4] + [])), w');
    steps := [a1] + ([a2] + ([a3] + ([a4] + [])));
  }

  /** The ways to lose a delivery at the last moment. */
  datatype Loss = NoReply | CutOff | NotDecodable

  lemma FinishWithFate(cfg: Config, w: World, c: ClientId, id: Id, lease: LeaseId, plain: string, t3: Time, fate: Fate)
    returns (a: Step)
    requires Poised(cfg, w, c, id, lease, plain) && !fate.NeverRan?
    ensures Enabled(cfg, w, a) && c in Next(cfg, w, a).clients
    ensures Next(cfg, w, a).clients[c].phase == if fate.Answered? then Committed(id, plain) else Done(Internal)
    ensures id in Next(cfg, w, a).rows && Next(cfg, w, a).rows[id].status.Consumed?
    ensures id in Next(cfg, w, a).winner && Next(cfg, w, a).winner[id] == c
    ensures Next(cfg, w, a).rows[id].consumedAt == Some(t3)
    ensures Next(cfg, w, a).rows[id].expiresAt == w.rows[id].expiresAt
  {
    hide IsHit, RowOk, UniqueTokens;
    HitIs(Complete(id, lease), w, id, t3);
    a := Finish(c, Some(id), t3, fate);
  }

  lemma LastStep(cfg: Config, w: World, a: Step, c: ClientId, id: Id, plain: string)
    requires c in w.clients && w.clients[c].phase == Committed(id, plain) && (a == Crash(c) || a == Reply(c))
    ensures Enabled(cfg, w, a) && Next(cfg, w, a).rows == w.rows && Next(cfg, w, a).winner == w.winner
    ensures c in Next(cfg, w, a).clients
    ensures Next(cfg, w, a).clients[c].phase ==
              Ending(cfg, id, plain, true, a == Reply(c), a == Crash(c))
  {
  }

  lemma LosingSteps(cfg: Config, w: World, c: ClientId, id: Id, lease: LeaseId, plain: string, t3: Time, how: Loss)
    returns (steps: seq<Step>, w': World)
    requires Poised(cfg, w, c, id, lease, plain) && (how.NotDecodable? ==> cfg.decode(plain).None?)
    ensures Leads(cfg, w, steps, w') && id in w'.rows && w'.rows[id].status.Consumed? && c in w'.clients
    ensures id in w'.winner && w'.winner[id] == c
    ensures w'.clients[c].phase == if how.CutOff? then Done(Crashed) else Done(Internal)
  {
    hide Enabled, Next, Poised;
    var a := FinishWithFate(cfg, w, c, id, lease, plain, t3, if how.NoReply? then ReplyLost else Answered);
    var w1 := Next(cfg, w, a);
    steps, w' := [], w1;
    if !how.NoReply? {
      var b := if how.CutOff? then Crash(c) else Reply(c);
      LastStep(cfg, w1, b, c, id, plain);
      w' := Next(cfg, w1, b);
      LeadsOne(cfg, w1, b, [], w');
      steps := [b] + [];
    }
    LeadsOne(cfg, w, a, steps, w');
    steps := [a] + steps;
  }

  lemma LoserIsNotShown(cfg: Config, run: seq<Step>, c: ClientId, id: Id)
    requires Valid(cfg, run) && id in After(cfg, run).winner && After(cfg, run).winner[id] == c
    requires c in After(cfg, run).clients && After(cfg, run).clients[c].phase in {Done(Internal), Done(Crashed)}
    ensures !Shown(After(cfg, run), id)
  {
    RunKeepsInv(cfg, run);
    hide Inv, Enabled, Next;
    var w := After(cfg, run);
    if Shown(w, id) {
      var c', reply :| c' in w.clients && w.clients[c'].phase == Done(Reveal(id, reply));
      ShownToTheWinner(cfg, w, c', id, reply);
    }
  }

  /** Each of the three losses can befall every delivery that can be consumed, in every reachable state. */
  lemma CanBeLost(cfg: Config, run: seq<Step>, c: ClientId, id: Id, password: string, lease: LeaseId,
                  t1: Time, t2: Time, t3: Time, how: Loss) returns (more: seq<Step>)
    requires Valid(cfg, run) && c !in After(cfg, run).clients && id in After(cfg, run).rows
    requires lease !in After(cfg, run).leases
    requires Takeable(After(cfg, run).rows[id], cfg.leaseSeconds, t1)
    requires Takeable(After(cfg, run).rows[id], cfg.leaseSeconds, t2)
    requires PasswordGood(cfg, password, After(cfg, run).rows[id].passwordHash)
    requires cfg.decrypt(After(cfg, run).rows[id].payload).Some?
    requires how.NotDecodable? ==> cfg.decode(cfg.decrypt(After(cfg, run).rows[id].payload).value).None?
    ensures Valid(cfg, run + more) && id in After(cfg, run + more).rows
    ensures After(cfg, run + more).rows[id].status.Consumed?
    ensures c in After(cfg, run + more).clients && !Shown(After(cfg, run + more), id)
    ensures After(cfg, run + more).clients[c].phase == if how.CutOff? then Done(Crashed) else Done(Internal)
  {
    hide Enabled, Next, Takeable, Poised, RowsOk, ClientOk, Leads;
    RunKeepsInv(cfg, run);
    var w, plain := After(cfg, run), cfg.decrypt(After(cfg, run).rows[id].payload).value;
    var steps, w1 := PoisedCaller(cfg, w, c, id, password, lease, t1, t2);
    var last, w2 := LosingSteps(cfg, w1, c, id, lease, plain, t3, how);
    LeadsBoth(cfg, w, steps, w1, last, w2);
    more := steps + last;
    LeadsExtendsRun(cfg, run, more, w2);
    LoserIsNotShown(cfg, run + more, c, id);
  }

  /** A concrete run for each loss, of one insert and one caller with the right to the payload. */
  lemma LossHappens(cfg: Config, ciphertext: string, how: Loss) returns (run: seq<Step>, id: Id)
    requires ciphertext != "" && cfg.decrypt(ciphertext).Some?
    requires how.NotDecodable? ==> cfg.decode(cfg.decrypt(ciphertext).value).None?
    ensures Valid(cfg, run) && id in After(cfg, run).rows && After(cfg, run).rows[id].status.Consumed?
    ensures !Shown(After(cfg, run), id) && 0 in After(cfg, run).clients
    ensures After(cfg, run).clients[0].phase == if how.CutOff? then Done(Crashed) else Done(Internal)
  {
    hide Enabled, Next, Shown, Leads;
    run := OneDelivery(cfg, ciphertext);
    id := 0;
    var more := CanBeLost(cfg, run, 0, id, "", 0, 1, 2, 3, how);
    run := run + more;
  }

  /** CompleteConsume does not look at the expiry: whatever t3 is, a caller whose first two statements ran before it
      is shown the payload. */
  lemma CompletionIgnoresExpiry(cfg: Config, run: seq<Step>, c: ClientId, id: Id, password: string, lease: LeaseId,
                                t1: Time, t2: Time, t3: Time, reply: string) returns (more: seq<Step>)
    requires Valid(cfg, run) && c !in After(cfg, run).clients && id in After(cfg, run).rows
    requires lease !in After(cfg, run).leases
    requires Takeable(After(cfg, run).rows[id], cfg.leaseSeconds, t1)
    requires Takeable(After(cfg, run).rows[id], cfg.leaseSeconds, t2)
    requires PasswordGood(cfg, password, After(cfg, run).rows[id].passwordHash)
    requires cfg.decrypt(After(cfg, run).rows[id].payload).Some?
    requires cfg.decode(cfg.decrypt(After(cfg, run).rows[id].payload).value) == Some(reply)
    ensures Valid(cfg, run + more) && c in After(cfg, run + more).clients
    ensures After(cfg, run + more).clients[c].phase == Done(Reveal(id, reply))
    ensures id in After(cfg, run + more).rows && After(cfg, run + more).rows[id].consumedAt == Some(t3)
    ensures After(cfg, run + more).rows[id].expiresAt == After(cfg, run).rows[id].expiresAt
  {
    more := SoloIsARun(cfg, run, c, id, password, lease, t1, t2, t3, true);
    hide Enabled, Next, Leads;
  }

  /** A concrete reveal at the very moment of expiry. */
  lemma LateRevealHappens(cfg: Config, ciphertext: string, reply: string) returns (run: seq<Step>, id: Id)
    requires ciphertext != "" && cfg.decrypt(ciphertext).Some?
    requires cfg.decode(cfg.decrypt(ciphertext).value) == Some(reply)
    ensures Valid(cfg, run) && Shown(After(cfg, run), id) && id in After(cfg, run).rows
    ensures After(cfg, run).rows[id].consumedAt == Some(After(cfg, run).rows[id].expiresAt)
  {
    hide Enabled, Next, Leads;
    run := OneDelivery(cfg, ciphertext);
    id := 0;
    var more := CompletionIgnoresExpiry(cfg, run, 0, id, "", 0, 1, 2, 10, reply);
    run := run + more;
  }
}
