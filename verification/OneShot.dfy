/**
 The rows, with all their leases, takeovers and in-flight clients, refine a one-shot object:
 it is available until one caller takes it or something kills it.  CompleteConsume is the
 linearization point; BeginConsume, RestoreConsume, stale takeover and lease recovery stutter.
 */
module OneShot {
  import opened Wrappers
  import opened Rows
  import opened Protocol
  import opened Invariants
  import opened OneTime

  datatype Shot =
    | Absent
    | Available(hash: Option<string>, attemptsLeft: int, allowance: int)
    | Taken(taker: ClientId)
    | Dead

  datatype Action =
    | Tau
    | Create(first: Option<string>, attempts: int)
    | WrongPassword(guess: string)
    | NewPassword(next: Option<string>)
    | Take(c: ClientId, password: string)
    | Kill

  /** The one-shot object; None is a refusal. */
  function Perform(cfg: Config, s: Shot, x: Action): Option<Shot> {
    match (s, x)
    case (_, Tau) => Some(s)
    case (Absent, Create(hash, attempts)) => if attempts > 0 then Some(Available(hash, attempts, attempts)) else None
    case (Available(hash, left, allowance), WrongPassword(guess)) =>
      if PasswordGood(cfg, guess, hash) then None
      else if left <= 1 then Some(Dead)
      else Some(Available(hash, left - 1, allowance))
    case (Available(_, _, allowance), NewPassword(hash)) => Some(Available(hash, allowance, allowance))
    case (Available(hash, _, _), Take(c, password)) =>
      if PasswordGood(cfg, password, hash) then Some(Taken(c)) else None
    case (Available(_, _, _), Kill) => Some(Dead)
    case _ => None
  }

  /** What a delivery is, once its lease is forgotten. */
  function RowView(r: Row, winner: Option<ClientId>): Shot {
    match r.status
    case Active => Available(r.passwordHash, r.maxFailedAttempts - r.failedAttempts, r.maxFailedAttempts)
    case Consuming => Available(r.passwordHash, r.maxFailedAttempts - r.failedAttempts, r.maxFailedAttempts)
    case Consumed => if winner.Some? then Taken(winner.value) else Dead
    case Expired => Dead
    case Revoked => Dead
  }

  function View(w: World, id: Id): Shot {
    if id in w.rows then RowView(w.rows[id], if id in w.winner then Some(w.winner[id]) else None) else Absent
  }

  /** What an update statement means for the row it hits, sent by a caller with this password. */
  function Meaning(u: Update, c: ClientId, password: string): Action {
    match u
    case Begin(_, _, _, _) => Tau
    case RecordFailure(_, _, _) => WrongPassword(password)
    case SetPassword(_, hash) => NewPassword(hash)
    case Restore(_, _) => Tau
    case Complete(_, _) => Take(c, password)
    case Revoke(_) => Kill
    case ExpireActive => Kill
    case RestoreStale(_) => Tau
    case ClearPayloads(_, _, _) => Tau
  }

  function Caller(w: World, a: Step): (ClientId, string)
    requires Acts(a) ==> a.c in w.clients
  {
    if Acts(a) then (a.c, w.clients[a.c].password) else (0, "")
  }

  ghost function ActionOf(cfg: Config, w: World, a: Step, id: Id): Action
    requires Enabled(cfg, w, a)
  {
    if Sends(a) then
      if a.hit == Some(id) then Meaning(StatementOf(cfg, w, a), Caller(w, a).0, Caller(w, a).1) else Tau
    else match a
      case InsertRow(i, _, _, _, hash, max, _) => if i == id then Create(hash, max) else Tau
      case Sweep(u, scope, now, _) => if id in Affected(u, w.rows, scope, now) then Meaning(u, 0, "") else Tau
      case _ => Tau
  }

  /** One statement on one row is the action it means. */
  lemma RowRefines(cfg: Config, u: Update, id: Id, r: Row, o: Row, now: Time, c: ClientId, password: string,
                   winner: Option<ClientId>)
    requires RowOk(r, o) && Matches(u, id, r, now)
    requires u.RecordFailure? ==> !PasswordGood(cfg, password, Some(u.verified))
    requires u.Complete? ==> PasswordGood(cfg, password, r.passwordHash)
    ensures Perform(cfg, RowView(r, winner), Meaning(u, c, password)) ==
              Some(RowView(Assign(u, r, now), if u.Complete? then Some(c) else winner))
  {
  }

  /** The sender's password relates to the row it hits as its statement claims. */
  lemma FailureIsHonest(cfg: Config, w: World, a: Step)
    requires Ready(cfg, w, a) && a.Fail?
    ensures StatementOf(cfg, w, a).RecordFailure?
    ensures !PasswordGood(cfg, w.clients[a.c].password, Some(StatementOf(cfg, w, a).verified))
  {
  }

  lemma FinishIsHonest(cfg: Config, w: World, a: Step)
    requires Inv(cfg, w) && Enabled(cfg, w, a) && a.Finish? && a.hit.Some?
    ensures a.hit.value in w.rows && PasswordGood(cfg, w.clients[a.c].password, w.rows[a.hit.value].passwordHash)
  {
    hide Matches, RowsOk, Emitted, Ran, IsHit;
    HitMatches(cfg, w, a);
    assert ClientOk(cfg, w, a.c, w.clients[a.c]);
  }

  lemma StatementKinds(cfg: Config, w: World, a: Step)
    requires Sends(a) && Ready(cfg, w, a)
    ensures StatementOf(cfg, w, a).Complete? <==> a.Finish?
    ensures StatementOf(cfg, w, a).RecordFailure? <==> a.Fail?
  {
  }

  lemma SingleRefines(cfg: Config, w: World, a: Step, id: Id)
    requires Inv(cfg, w) && Enabled(cfg, w, a) && Sends(a) && a.hit == Some(id)
    ensures Perform(cfg, View(w, id), ActionOf(cfg, w, a, id)) == Some(View(Next(cfg, w, a), id))
  {
    hide Matches, Assign, Ran, IsCandidate, Emitted, NextClients, Perform, Meaning, RowView, StatementOf, ClientOk,
         UniqueTokens;
    HitMatches(cfg, w, a);
    StatementKinds(cfg, w, a);
    if a.Fail? {
      FailureIsHonest(cfg, w, a);
    } else if a.Finish? {
      FinishIsHonest(cfg, w, a);
    }
    RowRefines(cfg, StatementOf(cfg, w, a), id, w.rows[id], w.inserted[id], a.now, Caller(w, a).0, Caller(w, a).1,
               if id in w.winner then Some(w.winner[id]) else None);
  }

  lemma SweepRefines(cfg: Config, w: World, a: Step, id: Id)
    requires RowsOk(w) && Enabled(cfg, w, a) && a.Sweep? && id in w.rows
    ensures Perform(cfg, View(w, id), ActionOf(cfg, w, a, id)) == Some(View(Next(cfg, w, a), id))
  {
    hide Matches, Assign, Emitted, NextClients, RowView, UniqueTokens, Perform, RowOk, Meaning;
    if id in a.scope && Matches(a.u, id, w.rows[id], a.now) {
      SweepMeans(cfg, a.u, id, w.rows[id], w.inserted[id], a.now, if id in w.winner then Some(w.winner[id]) else None);
    } else {
      TauIsSilent(cfg, View(w, id));
    }
  }

  lemma SweepMeans(cfg: Config, u: Update, id: Id, r: Row, o: Row, now: Time, winner: Option<ClientId>)
    requires RowOk(r, o) && Matches(u, id, r, now) && !SingleRow(u)
    ensures Perform(cfg, RowView(r, winner), Meaning(u, 0, "")) == Some(RowView(Assign(u, r, now), winner))
  {
  }

  lemma TauIsSilent(cfg: Config, s: Shot)
    ensures Perform(cfg, s, Tau) == Some(s)
  {
  }

  lemma CreationRefines(cfg: Config, w: World, a: Step, id: Id)
    requires RowsOk(w) && Enabled(cfg, w, a) && a.InsertRow? && a.id == id
    ensures Perform(cfg, View(w, id), ActionOf(cfg, w, a, id)) == Some(View(Next(cfg, w, a), id))
  {
    hide Emitted, NextClients, RowOk, UniqueTokens;
  }

  /** A step that does not reach the row. */
  lemma BystanderSeesNothing(cfg: Config, w: World, a: Step, id: Id)
    requires Enabled(cfg, w, a) && !(Sends(a) && a.hit == Some(id)) && !a.Sweep? && !(a.InsertRow? && a.id == id)
    ensures ActionOf(cfg, w, a, id) == Tau && View(Next(cfg, w, a), id) == View(w, id)
  {
    hide Matches, Assign, IsCandidate, Emitted, NextClients, StatementOf, RowView;
  }

  /** Every step of the system is one action of the one-shot object, or none. */
  lemma StepRefines(cfg: Config, w: World, a: Step, id: Id)
    requires Inv(cfg, w) && Enabled(cfg, w, a)
    ensures Perform(cfg, View(w, id), ActionOf(cfg, w, a, id)) == Some(View(Next(cfg, w, a), id))
  {
    hide Perform, View, ActionOf, Matches, Assign, IsCandidate, Emitted, NextClients, StatementOf, ClientOk, RowsOk,
         Ready, Ran;
    if Sends(a) && a.hit == Some(id) {
      SingleRefines(cfg, w, a, id);
    } else if a.Sweep? {
      if id in w.rows {
        SweepRefines(cfg, w, a, id);
      } else {
        AbsentStaysAbsent(cfg, w, a, id);
      }
    } else if a.InsertRow? && a.id == id {
      CreationRefines(cfg, w, a, id);
    } else {
      BystanderSeesNothing(cfg, w, a, id);
      TauIsSilent(cfg, View(w, id));
    }
  }

  lemma AbsentStaysAbsent(cfg: Config, w: World, a: Step, id: Id)
    requires Enabled(cfg, w, a) && a.Sweep? && id !in w.rows
    ensures Perform(cfg, View(w, id), ActionOf(cfg, w, a, id)) == Some(View(Next(cfg, w, a), id))
  {
    hide Matches, Assign, Emitted, NextClients;
  }

  /** The actions a run performs on one delivery. */
  ghost function Trace(cfg: Config, run: seq<Step>, id: Id): (trace: seq<Action>)
    requires Valid(cfg, run)
    ensures |trace| == |run|
  {
    if run == [] then []
    else Trace(cfg, run[..|run| - 1], id) + [ActionOf(cfg, After(cfg, run[..|run| - 1]), run[|run| - 1], id)]
  }

  /** The one-shot object after a trace, if it accepts the trace. */
  function Outcome(cfg: Config, trace: seq<Action>): Option<Shot> {
    if trace == [] then Some(Absent)
    else match Outcome(cfg, trace[..|trace| - 1])
      case None => None
      case Some(s) => Perform(cfg, s, trace[|trace| - 1])
  }

  /** Refinement: the one-shot object accepts what any run does to a delivery, and ends where the delivery ends. */
  lemma {:induction false} RunRefines(cfg: Config, run: seq<Step>, id: Id)
    requires Valid(cfg, run)
    ensures Outcome(cfg, Trace(cfg, run, id)) == Some(View(After(cfg, run), id))
  {
    if run != [] {
      var before := run[..|run| - 1];
      RunRefines(cfg, before, id);
      RunKeepsInv(cfg, before);
      StepRefines(cfg, After(cfg, before), run[|run| - 1], id);
      var trace := Trace(cfg, run, id);
      assert trace[..|trace| - 1] == Trace(cfg, before, id);
    }
  }

  /** What the object means by one-shot: nothing but silence follows a take. */
  lemma {:induction false} NothingFollowsTake(cfg: Config, trace: seq<Action>, i: nat, j: nat)
    requires Outcome(cfg, trace).Some? && i < j < |trace| && trace[i].Take?
    ensures trace[j].Tau? && Outcome(cfg, trace) == Some(Taken(trace[i].c))
    decreases |trace|
  {
    var before := trace[..|trace| - 1];
    if i == |before| - 1 {
      assert Outcome(cfg, before) == Some(Taken(trace[i].c));
    } else {
      NothingFollowsTake(cfg, before, i, |before| - 1);
    }
    if j < |before| {
      NothingFollowsTake(cfg, before, i, j);
    }
  }

  /** Nor does anything follow a death. */
  lemma {:induction false} NothingFollowsDeath(cfg: Config, trace: seq<Action>, i: nat)
    requires i <= |trace| && Outcome(cfg, trace[..i]) == Some(Dead) && Outcome(cfg, trace).Some?
    ensures Outcome(cfg, trace) == Some(Dead) && forall j | i <= j < |trace| :: trace[j].Tau?
  {
    if i == |trace| {
      assert trace[..i] == trace;
    } else {
      var before := trace[..|trace| - 1];
      assert before[..i] == trace[..i];
      NothingFollowsDeath(cfg, before, i);
      assert forall j | i <= j < |before| :: before[j] == trace[j];
    }
  }

  lemma NewRowsAreActive(cfg: Config, w: World, a: Step, id: Id)
    requires Enabled(cfg, w, a) && id in NextRows(cfg, w, a) && id !in w.rows
    ensures a.InsertRow? && NextRows(cfg, w, a)[id].status.Active?
  {
    hide Matches, Assign, IsCandidate, StatementOf;
  }

  lemma OnlyFinishConsumes(cfg: Config, w: World, a: Step, id: Id)
    requires RowsOk(w) && Enabled(cfg, w, a) && id in NextRows(cfg, w, a) && NextRows(cfg, w, a)[id].status.Consumed?
    requires !(id in w.rows && w.rows[id].status.Consumed?)
    ensures a.Finish? && a.hit == Some(id)
  {
    hide Matches, Assign, IsCandidate, UniqueTokens, StatementOf, IsHit, RowOk;
    if id in w.rows {
      if Sends(a) {
        ChangedRow(cfg, w, a, id);
        UpdateKeepsRowOk(StatementOf(cfg, w, a), id, w.rows[id], w.inserted[id], a.now);
        StatementKinds(cfg, w, a);
      } else if a.Sweep? {
        UpdateKeepsRowOk(a.u, id, w.rows[id], w.inserted[id], a.now);
      } else {
        OtherStepsKeepRow(cfg, w, a, id);
      }
    } else {
      NewRowsAreActive(cfg, w, a, id);
    }
  }

  /** A consumed delivery was taken, and the history knows by whom. */
  lemma {:induction false} ConsumedWasTaken(cfg: Config, run: seq<Step>, id: Id)
    requires Valid(cfg, run) && id in After(cfg, run).rows && After(cfg, run).rows[id].status.Consumed?
    ensures id in After(cfg, run).winner && View(After(cfg, run), id) == Taken(After(cfg, run).winner[id])
  {
    hide Enabled, NextRows, NextClients, Emitted;
    var before, a := run[..|run| - 1], run[|run| - 1];
    var w := After(cfg, before);
    RunKeepsInv(cfg, before);
    StepKeepsInv(cfg, w, a);
    if id in w.rows && w.rows[id].status.Consumed? {
      ConsumedWasTaken(cfg, before, id);
    } else {
      OnlyFinishConsumes(cfg, w, a, id);
    }
  }

  /** What the object's state says of the delivery, and back: absent before the insert, available with this hash and
      this many attempts while active or consuming, taken once consumed, and dead once expired or revoked. */
  lemma {:induction false} OutcomeInColumns(cfg: Config, run: seq<Step>, id: Id)
    requires Valid(cfg, run)
    ensures Outcome(cfg, Trace(cfg, run, id)).Some?
    ensures var s, w := Outcome(cfg, Trace(cfg, run, id)).value, After(cfg, run);
            if id !in w.rows then s == Absent
            else
              var r := w.rows[id];
              match r.status
              case Active => s == Available(r.passwordHash, r.maxFailedAttempts - r.failedAttempts, r.maxFailedAttempts)
              case Consuming =>
                s == Available(r.passwordHash, r.maxFailedAttempts - r.failedAttempts, r.maxFailedAttempts)
              case Consumed => id in w.winner && s == Taken(w.winner[id])
              case Expired => s == Dead
              case Revoked => s == Dead
  {
    RunRefines(cfg, run, id);
    if id in After(cfg, run).rows && After(cfg, run).rows[id].status.Consumed? {
      ConsumedWasTaken(cfg, run, id);
    }
  }

  lemma FinishIsATake(cfg: Config, w: World, a: Step, id: Id)
    requires Enabled(cfg, w, a) && a.Finish? && a.hit == Some(id)
    ensures ActionOf(cfg, w, a, id) == Take(a.c, w.clients[a.c].password)
  {
  }

  /** A caller that reveals did take: its Take is in the trace, and nothing happens to the delivery after it. */
  lemma {:induction false} RevealIsATake(cfg: Config, run: seq<Step>, c: ClientId, id: Id) returns (k: nat)
    requires Valid(cfg, run) && c in After(cfg, run).clients && HasCommitted(After(cfg, run).clients[c].phase, id)
    ensures k < |run| && Trace(cfg, run, id)[k] == Take(c, After(cfg, run).clients[c].password)
    ensures forall j | k < j < |run| :: Trace(cfg, run, id)[j].Tau?
    ensures View(After(cfg, run), id) == Taken(c)
  {
    hide Enabled, Next, ActionOf, View, RowsEvolve;
    k := RevealWasCommitted(cfg, run, c, id);
    TraceAt(cfg, run, id, k);
    FinishIsATake(cfg, At(cfg, run, k), run[k], id);
    RunEvolves(cfg, run, k);
    var trace := Trace(cfg, run, id);
    RunRefines(cfg, run, id);
    forall j | k < j < |run| ensures trace[j].Tau? {
      NothingFollowsTake(cfg, trace, k, j);
    }
    TakeIsKept(cfg, trace, k);
  }

  lemma TakeIsKept(cfg: Config, trace: seq<Action>, k: nat)
    requires Outcome(cfg, trace).Some? && k < |trace| && trace[k].Take?
    ensures Outcome(cfg, trace) == Some(Taken(trace[k].c))
  {
    if k < |trace| - 1 {
      NothingFollowsTake(cfg, trace, k, k + 1);
    }
  }

  lemma {:induction false} TraceAt(cfg: Config, run: seq<Step>, id: Id, k: nat)
    requires Valid(cfg, run) && k < |run|
    ensures Enabled(cfg, At(cfg, run, k), run[k])
    ensures Trace(cfg, run, id)[k] == ActionOf(cfg, At(cfg, run, k), run[k], id)
  {
    var before := run[..|run| - 1];
    if k < |before| {
      assert before[..k] == run[..k] && before[k] == run[k];
      TraceAt(cfg, before, id, k);
    } else {
      assert run[..k] == before;
    }
  }
}
