/**
 The one-time delivery protocol as a transition system: any number of Consume calls, revocations,
 password changes and cleanup statements over one table.  Every SQL statement is one atomic step
 with its own NOW().  A step's label resolves all nondeterminism, so a run is a sequence of labels.
 */
module Protocol {
  import opened Wrappers
  import opened Rows

  type ClientId = nat
  type RevokerId = nat

  /** Password checking, Vault and the payload codec stay uninterpreted. */
  datatype Config = Config(
    leaseSeconds: int,
    verify: (string, string) -> bool,
    decrypt: string -> Option<string>,
    decode: string -> Option<string>)

  datatype Answer =
    | Reveal(id: Id, reply: string)
    | Unavailable
    | PasswordInvalid
    | Dependency
    | Internal
    | Crashed

  datatype Phase =
    | Start
    | Found(hash: Option<string>)
    | Leased(id: Id, lease: LeaseId, ciphertext: string)
    | Decrypted(id: Id, lease: LeaseId, plaintext: string)
    | DecryptFailed(id: Id, lease: LeaseId)
    | Committed(id: Id, plaintext: string)
    | Done(answer: Answer)

  datatype Client = Client(token: string, password: string, phase: Phase)

  /** What the caller of a statement learns: its outcome, nothing though it ran, or nothing and it never ran. */
  datatype Fate = Answered | ReplyLost | NeverRan

  datatype Step =
    | InsertRow(id: Id, token: string, payload: string, expiresAt: Time, hash: Option<string>, max: nat, now: Time)
    | Arrive(c: ClientId, token: string, password: string)
    | Find(c: ClientId, hit: Option<Id>, now: Time, fate: Fate)
    | Fail(c: ClientId, hit: Option<Id>, now: Time, fate: Fate)
    | TakeLease(c: ClientId, lease: LeaseId, hit: Option<Id>, now: Time, fate: Fate)
    | Decrypt(c: ClientId, vaultUp: bool)
    | GiveBack(c: ClientId, hit: Option<Id>, now: Time, fate: Fate)
    | Finish(c: ClientId, hit: Option<Id>, now: Time, fate: Fate)
    | Reply(c: ClientId)
    | Crash(c: ClientId)
    | RevokeRow(k: RevokerId, id: Id, hit: Option<Id>, now: Time, fate: Fate)
    | RevokeRead(k: RevokerId)
    | ChangePassword(id: Id, hash: Option<string>, hit: Option<Id>, now: Time, fate: Fate)
    | Sweep(u: Update, scope: set<Id>, now: Time, fate: Fate)

  /** History of what happened and of what was answered. */
  datatype Event =
    | LeaseTaken(id: Id, lease: LeaseId, at: Time)
    | LeaseReturned(id: Id, lease: LeaseId)
    | FailureRecorded(c: ClientId, id: Id, locked: bool, answered: bool)
    | PasswordChanged(id: Id)
    | Revealed(c: ClientId, id: Id, reply: string)
    | RevokeAnswered(id: Id, revoked: bool, status: Option<Status>)
    | Swept(u: Update, rows: nat, answered: bool)

  /** `rows`, `clients` and `revokers` drive the system; the other fields only record the past. */
  datatype World = World(
    rows: Table,
    clients: map<ClientId, Client>,
    revokers: map<RevokerId, Id>,
    inserted: Table,
    leases: map<LeaseId, ClientId>,
    winner: map<Id, ClientId>,
    log: seq<Event>)

  const INITIAL: World := World(map[], map[], map[], map[], map[], map[], [])

  predicate PasswordGood(cfg: Config, password: string, hash: Option<string>) {
    hash.None? || cfg.verify(password, hash.value)
  }

  /** The label's `hit` is what the statement finds, unless the statement never reached the table. */
  ghost predicate Ran(u: Update, t: Table, hit: Option<Id>, now: Time, fate: Fate) {
    if fate.NeverRan? then hit.None? else IsHit(u, t, hit, now)
  }

  /** FindConsumeCandidate's SELECT, as a hit. */
  ghost predicate IsCandidate(cfg: Config, t: Table, token: string, hit: Option<Id>, now: Time) {
    match hit
    case Some(id) => id in t && t[id].tokenHash == token && Takeable(t[id], cfg.leaseSeconds, now)
    case None => forall id | id in t :: !(t[id].tokenHash == token && Takeable(t[id], cfg.leaseSeconds, now))
  }

  /** The steps that send one single-row statement, and the steps of a client that has arrived. */
  predicate Sends(a: Step) {
    a.Fail? || a.TakeLease? || a.GiveBack? || a.Finish? || a.RevokeRow? || a.ChangePassword?
  }

  predicate Acts(a: Step) {
    a.Find? || a.Fail? || a.TakeLease? || a.Decrypt? || a.GiveBack? || a.Finish? || a.Reply? || a.Crash?
  }

  /** The client is at the point of Consume the step belongs to. */
  predicate AtPhase(cfg: Config, cl: Client, a: Step)
    requires Acts(a)
  {
    match a
    case Find(_, _, _, _) => cl.phase.Start?
    case Fail(_, _, _, _) => cl.phase.Found? && !PasswordGood(cfg, cl.password, cl.phase.hash)
    case TakeLease(_, _, _, _, _) => cl.phase.Found? && PasswordGood(cfg, cl.password, cl.phase.hash)
    case Decrypt(_, _) => cl.phase.Leased?
    case GiveBack(_, _, _, _) => cl.phase.DecryptFailed?
    case Finish(_, _, _, _) => cl.phase.Decrypted?
    case Reply(_) => cl.phase.Committed?
    case Crash(_) => !cl.phase.Done?
  }

  predicate Ready(cfg: Config, w: World, a: Step) {
    Acts(a) ==> a.c in w.clients && AtPhase(cfg, w.clients[a.c], a)
  }

  function StatementOf(cfg: Config, w: World, a: Step): Update
    requires Sends(a) && Ready(cfg, w, a)
  {
    match a
    case Fail(c, _, _, _) => RecordFailure(w.clients[c].token, w.clients[c].phase.hash.value, cfg.leaseSeconds)
    case TakeLease(c, lease, _, _, _) => Begin(w.clients[c].token, w.clients[c].phase.hash, lease, cfg.leaseSeconds)
    case GiveBack(c, _, _, _) => Restore(w.clients[c].phase.id, w.clients[c].phase.lease)
    case Finish(c, _, _, _) => Complete(w.clients[c].phase.id, w.clients[c].phase.lease)
    case RevokeRow(_, id, _, _, _) => Revoke(id)
    case ChangePassword(id, hash, _, _, _) => SetPassword(id, hash)
  }

  ghost predicate Enabled(cfg: Config, w: World, a: Step) {
    && Ready(cfg, w, a)
    && (Sends(a) ==> Ran(StatementOf(cfg, w, a), w.rows, a.hit, a.now, a.fate))
    && match a
       case InsertRow(id, token, payload, _, _, max, _) =>
         && id !in w.rows && (forall i | i in w.rows :: w.rows[i].tokenHash != token)
         && payload != "" && 1 <= max <= 20
       case Arrive(c, _, _) => c !in w.clients
       case Find(c, hit, now, fate) => fate.Answered? ==> IsCandidate(cfg, w.rows, w.clients[c].token, hit, now)
       case TakeLease(_, lease, _, _, _) => lease !in w.leases
       case RevokeRow(k, _, _, _, _) => k !in w.revokers
       case RevokeRead(k) => k in w.revokers
       case Sweep(u, scope, _, fate) =>
         && !SingleRow(u) && (u.RestoreStale? ==> u.leaseSeconds == cfg.leaseSeconds)
         && (fate.NeverRan? ==> scope == {})
       case _ => true
  }

  ghost function NextRows(cfg: Config, w: World, a: Step): Table
    requires Enabled(cfg, w, a)
  {
    if Sends(a) then Touch(StatementOf(cfg, w, a), w.rows, a.hit, a.now)
    else match a
      case InsertRow(id, token, payload, expiresAt, hash, max, now) =>
        w.rows[id := FreshRow(token, payload, expiresAt, hash, max, now)]
      case Sweep(u, scope, now, _) => ExecOn(u, w.rows, scope, now)
      case _ => w.rows
  }

  /** Where the acting client goes; `rows` is the table its own statement has already changed. */
  function NextPhase(cfg: Config, cl: Client, a: Step, rows: Table): Phase
    requires Acts(a) && AtPhase(cfg, cl, a)
    requires (a.Find? || a.Fail? || a.TakeLease?) && a.hit.Some? && a.fate.Answered? ==> a.hit.value in rows
  {
    match a
    case Find(_, hit, _, fate) =>
      if !fate.Answered? then Done(Internal)
      else if hit.None? then Done(Unavailable)
      else Found(rows[hit.value].passwordHash)
    case Fail(_, hit, _, fate) =>
      if !fate.Answered? then Done(Internal)
      else if hit.None? || rows[hit.value].status.Revoked? then Done(Unavailable)
      else Done(PasswordInvalid)
    case TakeLease(_, lease, hit, _, fate) =>
      if !fate.Answered? then Done(Internal)
      else if hit.None? then Done(Unavailable)
      else Leased(hit.value, lease, rows[hit.value].payload)
    case Decrypt(_, vaultUp) =>
      var plain := cfg.decrypt(cl.phase.ciphertext);
      if vaultUp && plain.Some? then Decrypted(cl.phase.id, cl.phase.lease, plain.value)
      else DecryptFailed(cl.phase.id, cl.phase.lease)
    case GiveBack(_, _, _, _) => Done(Dependency)
    case Finish(_, hit, _, fate) =>
      if !fate.Answered? then Done(Internal)
      else if hit.None? then Done(Unavailable)
      else Committed(cl.phase.id, cl.phase.plaintext)
    case Reply(_) =>
      var reply := cfg.decode(cl.phase.plaintext);
      if reply.None? then Done(Internal) else Done(Reveal(cl.phase.id, reply.value))
    case Crash(_) => Done(Crashed)
  }

  ghost function NextClients(cfg: Config, w: World, a: Step): map<ClientId, Client>
    requires Enabled(cfg, w, a)
  {
    if Acts(a) then w.clients[a.c := w.clients[a.c].(phase := NextPhase(cfg, w.clients[a.c], a, NextRows(cfg, w, a)))]
    else if a.Arrive? then w.clients[a.c := Client(a.token, a.password, Start)]
    else w.clients
  }

  /** The event a step adds to the history, if any. */
  ghost function Emitted(cfg: Config, w: World, a: Step): Option<Event>
    requires Enabled(cfg, w, a)
  {
    match a
    case Fail(c, hit, _, fate) =>
      if hit.None? then None
      else Some(FailureRecorded(c, hit.value, NextRows(cfg, w, a)[hit.value].status.Revoked?, fate.Answered?))
    case TakeLease(_, lease, hit, now, _) => if hit.None? then None else Some(LeaseTaken(hit.value, lease, now))
    case GiveBack(c, hit, _, _) => if hit.None? then None else Some(LeaseReturned(hit.value, w.clients[c].phase.lease))
    case Reply(c) =>
      var reply := cfg.decode(w.clients[c].phase.plaintext);
      if reply.None? then None else Some(Revealed(c, w.clients[c].phase.id, reply.value))
    case RevokeRow(_, id, hit, _, fate) =>
      if fate.Answered? && hit.Some? then Some(RevokeAnswered(id, true, Some(Revoked))) else None
    case RevokeRead(k) =>
      var id := w.revokers[k];
      Some(RevokeAnswered(id, false, if id in w.rows then Some(w.rows[id].status) else None))
    case ChangePassword(id, _, hit, _, _) => if hit.None? then None else Some(PasswordChanged(id))
    case Sweep(u, scope, now, fate) => Some(Swept(u, |Affected(u, w.rows, scope, now)|, fate.Answered?))
    case _ => None
  }

  ghost function Next(cfg: Config, w: World, a: Step): World
    requires Enabled(cfg, w, a)
  {
    var event := Emitted(cfg, w, a);
    World(
      NextRows(cfg, w, a),
      NextClients(cfg, w, a),
      match a
      case RevokeRow(k, id, hit, _, fate) => if fate.Answered? && hit.None? then w.revokers[k := id] else w.revokers
      case RevokeRead(k) => w.revokers - {k}
      case _ => w.revokers,
      if a.InsertRow? then w.inserted[a.id := NextRows(cfg, w, a)[a.id]] else w.inserted,
      if a.TakeLease? then w.leases[a.lease := a.c] else w.leases,
      if a.Finish? && a.hit.Some? then w.winner[a.hit.value := a.c] else w.winner,
      if event.Some? then w.log + [event.value] else w.log)
  }

  /** A run: every label is enabled in the world its predecessors lead to. */
  ghost predicate Valid(cfg: Config, run: seq<Step>)
    decreases |run|, 0
  {
    run == [] || (Valid(cfg, run[..|run| - 1]) && Enabled(cfg, After(cfg, run[..|run| - 1]), run[|run| - 1]))
  }

  ghost function After(cfg: Config, run: seq<Step>): World
    requires Valid(cfg, run)
    decreases |run|, 1
  {
    if run == [] then INITIAL else Next(cfg, After(cfg, run[..|run| - 1]), run[|run| - 1])
  }

  lemma {:induction false} PrefixIsValid(cfg: Config, run: seq<Step>, k: nat)
    requires Valid(cfg, run) && k <= |run|
    ensures Valid(cfg, run[..k])
  {
    if k < |run| {
      PrefixIsValid(cfg, run[..|run| - 1], k);
      assert run[..|run| - 1][..k] == run[..k];
    } else {
      assert run[..k] == run;
    }
  }

  /** The world after the first k steps of a run. */
  ghost function At(cfg: Config, run: seq<Step>, k: nat): World
    requires Valid(cfg, run) && k <= |run|
    ensures Valid(cfg, run[..k])
  {
    PrefixIsValid(cfg, run, k);
    After(cfg, run[..k])
  }
}
