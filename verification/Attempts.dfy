/** Failed password attempts, counted in the row and counted in the history. */
module Attempts {
  import opened Wrappers
  import opened Rows
  import opened Protocol
  import opened Invariants

  /** Failures recorded on a delivery since its password was last changed. */
  function FailuresSince(log: seq<Event>, id: Id): nat {
    if log == [] then 0
    else match log[|log| - 1]
      case PasswordChanged(i) => if i == id then 0 else FailuresSince(log[..|log| - 1], id)
      case FailureRecorded(_, i, _, _) => FailuresSince(log[..|log| - 1], id) + if i == id then 1 else 0
      case _ => FailuresSince(log[..|log| - 1], id)
  }

  /** LINK_PASSWORD_INVALID answers given for a delivery since its password was last changed. */
  function InvalidSince(log: seq<Event>, id: Id): nat {
    if log == [] then 0
    else match log[|log| - 1]
      case PasswordChanged(i) => if i == id then 0 else InvalidSince(log[..|log| - 1], id)
      case FailureRecorded(_, i, locked, answered) =>
        InvalidSince(log[..|log| - 1], id) + if i == id && !locked && answered then 1 else 0
      case _ => InvalidSince(log[..|log| - 1], id)
  }

  /** Failures that locked a delivery, ever. */
  function Locks(log: seq<Event>, id: Id): nat {
    if log == [] then 0
    else Locks(log[..|log| - 1], id) +
         if log[|log| - 1].FailureRecorded? && log[|log| - 1].id == id && log[|log| - 1].locked then 1 else 0
  }

  lemma Count(log: seq<Event>, e: Event, id: Id)
    ensures FailuresSince(log + [e], id) ==
              if e == PasswordChanged(id) then 0
              else FailuresSince(log, id) + if e.FailureRecorded? && e.id == id then 1 else 0
    ensures InvalidSince(log + [e], id) ==
              if e == PasswordChanged(id) then 0
              else InvalidSince(log, id) + if e.FailureRecorded? && e.id == id && !e.locked && e.answered then 1 else 0
    ensures Locks(log + [e], id) == Locks(log, id) + if e.FailureRecorded? && e.id == id && e.locked then 1 else 0
  {
    assert (log + [e])[..|log|] == log && (log + [e])[|log|] == e;
  }

  /** The row agrees with the history, and a lock is the end of the delivery. */
  ghost predicate RowTallies(r: Row, failures: nat, invalid: nat, locks: nat) {
    && failures == r.failedAttempts && invalid + locks <= failures && locks <= 1
    && (if locks == 1 then r.status.Revoked? && r.failedAttempts == r.maxFailedAttempts
        else r.failedAttempts < r.maxFailedAttempts)
  }

  ghost predicate Tallies(t: Table, log: seq<Event>, id: Id) {
    if id in t then RowTallies(t[id], FailuresSince(log, id), InvalidSince(log, id), Locks(log, id))
    else FailuresSince(log, id) == InvalidSince(log, id) == Locks(log, id) == 0
  }

  /** One statement on one row, with the event it is recorded as. */
  lemma RowTalliesAfter(u: Update, id: Id, r: Row, now: Time, failures: nat, invalid: nat, locks: nat, answered: bool)
    requires RowTallies(r, failures, invalid, locks) && Matches(u, id, r, now)
    ensures var r' := Assign(u, r, now);
            match u
            case RecordFailure(_, _, _) =>
              var locked := r'.status.Revoked?;
              RowTallies(r', failures + 1, invalid + (if !locked && answered then 1 else 0),
                         locks + if locked then 1 else 0)
            case SetPassword(_, _) => RowTallies(r', 0, 0, locks)
            case _ => RowTallies(r', failures, invalid, locks)
  {
  }

  lemma EventOfSingle(cfg: Config, w: World, a: Step)
    requires Enabled(cfg, w, a) && Sends(a)
    ensures var u, e := StatementOf(cfg, w, a), Emitted(cfg, w, a);
            && (a.hit.None? ==> e.None?)
            && (a.hit.Some? && u.RecordFailure? ==>
                  a.Fail? && e == Some(FailureRecorded(a.c, a.hit.value,
                                                       NextRows(cfg, w, a)[a.hit.value].status.Revoked?,
                                                       a.fate.Answered?)))
            && (a.hit.Some? && u.SetPassword? ==> e == Some(PasswordChanged(a.hit.value)))
            && (e.Some? && (e.value.FailureRecorded? || e.value.PasswordChanged?) ==>
                  a.hit.Some? && (u.RecordFailure? || u.SetPassword?))
  {
    hide Assign;
  }

  /** A row its statement has changed, with the event recorded for it. */
  lemma TalliesMove(u: Update, t: Table, t': Table, log: seq<Event>, event: Option<Event>, c: ClientId, id: Id,
                    now: Time, answered: bool)
    requires Tallies(t, log, id) && id in t && id in t' && Matches(u, id, t[id], now) && t'[id] == Assign(u, t[id], now)
    requires u.RecordFailure? ==> event == Some(FailureRecorded(c, id, t'[id].status.Revoked?, answered))
    requires u.SetPassword? ==> event == Some(PasswordChanged(id))
    requires event.Some? && (event.value.FailureRecorded? || event.value.PasswordChanged?) ==>
              u.RecordFailure? || u.SetPassword?
    ensures Tallies(t', if event.Some? then log + [event.value] else log, id)
  {
    hide Matches, Assign, FailuresSince, InvalidSince, Locks, RowTallies;
    RowTalliesAfter(u, id, t[id], now, FailuresSince(log, id), InvalidSince(log, id), Locks(log, id), answered);
    if event.Some? {
      Count(log, event.value, id);
    }
  }

  lemma SingleTallies(cfg: Config, w: World, a: Step, id: Id)
    requires Enabled(cfg, w, a) && Sends(a) && Tallies(w.rows, w.log, id) && a.hit == Some(id)
    ensures Tallies(Next(cfg, w, a).rows, Next(cfg, w, a).log, id)
  {
    hide Matches, Assign, StatementOf, Emitted, NextClients, Ran, Tallies;
    HitMatches(cfg, w, a);
    EventOfSingle(cfg, w, a);
    TalliesMove(StatementOf(cfg, w, a), w.rows, NextRows(cfg, w, a), w.log, Emitted(cfg, w, a),
                if a.Fail? then a.c else 0, id, a.now, a.fate.Answered?);
  }

  lemma SweepTallies(cfg: Config, w: World, a: Step, id: Id)
    requires RowsOk(w) && Enabled(cfg, w, a) && a.Sweep? && Tallies(w.rows, w.log, id)
    ensures Tallies(Next(cfg, w, a).rows, Next(cfg, w, a).log, id)
  {
    hide Matches, Assign, NextClients, FailuresSince, InvalidSince, Locks, RowsOk, RowTallies;
    Count(w.log, Emitted(cfg, w, a).value, id);
    if id in w.rows && id in a.scope && Matches(a.u, id, w.rows[id], a.now) {
      RowTalliesAfter(a.u, id, w.rows[id], a.now, FailuresSince(w.log, id), InvalidSince(w.log, id), Locks(w.log, id),
                      false);
    }
  }

  lemma BystanderRow(cfg: Config, w: World, a: Step, id: Id)
    requires Enabled(cfg, w, a) && !a.Sweep? && (Sends(a) ==> a.hit != Some(id))
    ensures id in w.rows ==> id in NextRows(cfg, w, a) && NextRows(cfg, w, a)[id] == w.rows[id]
    ensures id !in w.rows && id in NextRows(cfg, w, a) ==>
              NextRows(cfg, w, a)[id].failedAttempts == 0 && NextRows(cfg, w, a)[id].maxFailedAttempts >= 1
  {
    hide Matches, Assign, StatementOf, IsCandidate;
  }

  /** A row that keeps its counters, and an event that does not concern it. */
  lemma TalliesKept(t: Table, t': Table, log: seq<Event>, event: Option<Event>, id: Id)
    requires Tallies(t, log, id)
    requires id in t ==> id in t' && t'[id] == t[id]
    requires id !in t && id in t' ==> t'[id].failedAttempts == 0 && t'[id].maxFailedAttempts >= 1
    requires event.Some? && (event.value.FailureRecorded? || event.value.PasswordChanged?) ==> event.value.id != id
    ensures Tallies(t', if event.Some? then log + [event.value] else log, id)
  {
    hide FailuresSince, InvalidSince, Locks;
    if event.Some? {
      Count(log, event.value, id);
    }
  }

  lemma BystanderTallies(cfg: Config, w: World, a: Step, id: Id)
    requires Enabled(cfg, w, a) && Tallies(w.rows, w.log, id) && !a.Sweep? && (Sends(a) ==> a.hit != Some(id))
    ensures Tallies(Next(cfg, w, a).rows, Next(cfg, w, a).log, id)
  {
    hide Enabled, NextRows, NextClients, Emitted, Tallies;
    BystanderRow(cfg, w, a, id);
    BystanderEvent(cfg, w, a, id);
    TalliesKept(w.rows, NextRows(cfg, w, a), w.log, Emitted(cfg, w, a), id);
  }

  lemma BystanderEvent(cfg: Config, w: World, a: Step, id: Id)
    requires Enabled(cfg, w, a) && !a.Sweep? && (Sends(a) ==> a.hit != Some(id))
    ensures var e := Emitted(cfg, w, a);
            e.Some? && (e.value.FailureRecorded? || e.value.PasswordChanged?) ==> e.value.id != id
  {
    hide Assign;
  }

  lemma {:induction false} RunTallies(cfg: Config, run: seq<Step>, id: Id)
    requires Valid(cfg, run)
    ensures Tallies(After(cfg, run).rows, After(cfg, run).log, id)
  {
    if run != [] {
      var before, a := run[..|run| - 1], run[|run| - 1];
      RunTallies(cfg, before, id);
      RunKeepsInv(cfg, before);
      hide Enabled, Next, Tallies, RowsOk, ClientOk;
      var w := After(cfg, before);
      if a.Sweep? {
        SweepTallies(cfg, w, a, id);
      } else if Sends(a) && a.hit == Some(id) {
        SingleTallies(cfg, w, a, id);
      } else {
        BystanderTallies(cfg, w, a, id);
      }
    }
  }

  /** failed_attempts is the number of failures since the last password change.  Each such epoch gives at
      most max-1 LINK_PASSWORD_INVALID answers, and the delivery's whole life at most one lock, which
      leaves it revoked and blank. */
  lemma {:induction false} AttemptsAreAccounted(cfg: Config, run: seq<Step>, id: Id)
    requires Valid(cfg, run) && id in After(cfg, run).rows
    ensures After(cfg, run).rows[id].failedAttempts == FailuresSince(After(cfg, run).log, id)
    ensures InvalidSince(After(cfg, run).log, id) <= After(cfg, run).rows[id].maxFailedAttempts - 1
    ensures Locks(After(cfg, run).log, id) <= 1
    ensures Locks(After(cfg, run).log, id) == 1 <==>
              After(cfg, run).rows[id].failedAttempts == After(cfg, run).rows[id].maxFailedAttempts
    ensures Locks(After(cfg, run).log, id) == 1 ==>
              After(cfg, run).rows[id].status.Revoked? && After(cfg, run).rows[id].payload == ""
  {
    RunTallies(cfg, run, id);
    RunKeepsInv(cfg, run);
    assert RowOk(After(cfg, run).rows[id], After(cfg, run).inserted[id]);
  }

  /** A recorded failure whose caller is told LINK_PASSWORD_INVALID. */
  predicate TellsInvalid(e: Event) {
    e.FailureRecorded? && !e.locked && e.answered
  }

  predicate ToldInvalid(clients: map<ClientId, Client>, c: ClientId) {
    c in clients && clients[c].phase == Done(PasswordInvalid)
  }

  /** A step gives a caller the answer LINK_PASSWORD_INVALID exactly when it records a non-locking, answered failure
      of that caller. */
  lemma AnswerIsCounted(cfg: Config, w: World, a: Step, c: ClientId)
    requires Enabled(cfg, w, a)
    ensures var e := Emitted(cfg, w, a);
            ToldInvalid(Next(cfg, w, a).clients, c) && !ToldInvalid(w.clients, c) <==>
            e.Some? && TellsInvalid(e.value) && e.value.c == c
  {
    hide Assign, Ran, IsCandidate, StatementOf, NextRows;
  }

  /** The failure is recorded on the delivery the caller asked for. */
  lemma FailureIsOfTheCaller(cfg: Config, w: World, a: Step)
    requires Enabled(cfg, w, a) && Emitted(cfg, w, a).Some? && Emitted(cfg, w, a).value.FailureRecorded?
    ensures var e := Emitted(cfg, w, a).value;
            && a.Fail? && e.c == a.c && e.c in w.clients
            && e.id in w.rows && w.rows[e.id].tokenHash == w.clients[e.c].token
  {
    hide Assign;
    HitMatches(cfg, w, a);
  }

  /** Callers told LINK_PASSWORD_INVALID and events that tell it are in bijection, each pair about one delivery. */
  ghost predicate AnswersMatch(log: seq<Event>, clients: map<ClientId, Client>, inserted: Table) {
    && (forall i | 0 <= i < |log| && TellsInvalid(log[i]) ::
          && ToldInvalid(clients, log[i].c)
          && log[i].id in inserted && inserted[log[i].id].tokenHash == clients[log[i].c].token)
    && (forall i, j | 0 <= i < j < |log| && TellsInvalid(log[i]) && TellsInvalid(log[j]) :: log[i].c != log[j].c)
    && (forall c | ToldInvalid(clients, c) :: exists i | 0 <= i < |log| :: TellsInvalid(log[i]) && log[i].c == c)
  }

  /** One more event, and the callers told since. */
  lemma AnswersGrow(log: seq<Event>, cs: map<ClientId, Client>, inserted: Table, event: Option<Event>,
                    cs': map<ClientId, Client>, inserted': Table)
    requires AnswersMatch(log, cs, inserted) && ClientsEvolve(cs, cs') && Grows(inserted, inserted')
    requires forall c ::
               ToldInvalid(cs', c) && !ToldInvalid(cs, c) <==>
               event.Some? && TellsInvalid(event.value) && event.value.c == c
    requires event.Some? && TellsInvalid(event.value) ==>
               && ToldInvalid(cs', event.value.c)
               && event.value.id in inserted' && inserted'[event.value.id].tokenHash == cs'[event.value.c].token
    ensures AnswersMatch(if event.Some? then log + [event.value] else log, cs', inserted')
  {
    var log' := if event.Some? then log + [event.value] else log;
    forall c | ToldInvalid(cs', c) ensures exists i | 0 <= i < |log'| :: TellsInvalid(log'[i]) && log'[i].c == c {
      if ToldInvalid(cs, c) {
        var i :| 0 <= i < |log| && TellsInvalid(log[i]) && log[i].c == c;
        assert log'[i] == log[i];
      } else {
        assert log'[|log|] == event.value;
      }
    }
  }

  lemma StepKeepsAnswers(cfg: Config, w: World, a: Step)
    requires RowsOk(w) && Enabled(cfg, w, a) && HistoryGrows(w, Next(cfg, w, a))
    requires AnswersMatch(w.log, w.clients, w.inserted)
    ensures AnswersMatch(Next(cfg, w, a).log, Next(cfg, w, a).clients, Next(cfg, w, a).inserted)
  {
    hide Enabled, NextRows, NextClients, Emitted, AnswersMatch;
    var e, w' := Emitted(cfg, w, a), Next(cfg, w, a);
    forall c
      ensures ToldInvalid(w'.clients, c) && !ToldInvalid(w.clients, c) <==>
              e.Some? && TellsInvalid(e.value) && e.value.c == c
    {
      AnswerIsCounted(cfg, w, a, c);
    }
    if e.Some? && TellsInvalid(e.value) {
      FailureIsOfTheCaller(cfg, w, a);
      assert RowOk(w.rows[e.value.id], w.inserted[e.value.id]);
    }
    AnswersGrow(w.log, w.clients, w.inserted, e, w'.clients, w'.inserted);
  }

  /** In every run, the callers told LINK_PASSWORD_INVALID are exactly those of the counted failures, one for one. */
  lemma {:induction false} InvalidAnswersAreTheFailures(cfg: Config, run: seq<Step>)
    requires Valid(cfg, run)
    ensures AnswersMatch(After(cfg, run).log, After(cfg, run).clients, After(cfg, run).inserted)
  {
    hide Enabled, NextRows, NextClients, Emitted, ClientOk;
    if run != [] {
      var before, a := run[..|run| - 1], run[|run| - 1];
      InvalidAnswersAreTheFailures(cfg, before);
      RunKeepsInv(cfg, before);
      StepKeepsInv(cfg, After(cfg, before), a);
      StepKeepsAnswers(cfg, After(cfg, before), a);
    }
  }
}
