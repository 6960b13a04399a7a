/** Two visits of a recipient, one after the other and undisturbed, on the repository itself. */
module Visits {
  import opened Wrappers
  import opened Rows
  import opened DeliveryRepository
  import opened Protocol
  import opened Service

  /** One press of the reveal button: the password typed, the lease id drawn, the moments of the three statements. */
  datatype Attempt = Attempt(password: string, lease: LeaseId, t1: Time, t2: Time, t3: Time, vaultUp: bool)

  /** The attempt runs before the expiry, with the right password and everything working. */
  predicate Succeeds(cfg: Config, r: Row, a: Attempt) {
    && a.t1 < r.expiresAt && a.t2 < r.expiresAt && PasswordGood(cfg, a.password, r.passwordHash) && a.vaultUp
    && cfg.decrypt(r.payload).Some? && cfg.decode(cfg.decrypt(r.payload).value).Some?
  }

  function Spent(r: Row, at: Time): Row {
    r.(status := Consumed, consumedAt := Some(at), payload := "", startedAt := None, leaseId := None, updatedAt := at)
  }

  function Locked(r: Row, at: Time): Row {
    r.(status := Revoked, revokedAt := Some(at), payload := "", failedAttempts := r.failedAttempts + 1,
       startedAt := None, leaseId := None, updatedAt := at)
  }

  /** What a recipient who was told "you may try" is promised over two attempts, the first one before the expiry:
      a wrong password is refused and leaves a right one to be tried, unless it was the last attempt; an unavailable
      Vault leaves the delivery to be tried again; and once Vault has decrypted, the delivery is spent. */
  predicate Promise(cfg: Config, id: Id, r: Row, r': Row, first: Attempt, second: Attempt, one: Answer, two: Answer) {
    if !PasswordGood(cfg, first.password, r.passwordHash) then
      if r.failedAttempts + 1 >= r.maxFailedAttempts then
        one == Unavailable && two == Unavailable && r' == Locked(r, first.t2)
      else
        one == PasswordInvalid && (Succeeds(cfg, r, second) ==> Retried(cfg, id, r, r', second, two))
    else if !first.vaultUp || cfg.decrypt(r.payload).None? then
      one == Dependency && (Succeeds(cfg, r, second) ==> Retried(cfg, id, r, r', second, two))
    else
      var reply := cfg.decode(cfg.decrypt(r.payload).value);
      && one == (if reply.Some? then Reveal(id, reply.value) else Internal) && two == Unavailable
      && r' == Spent(r, first.t3)
  }

  /** The second attempt is answered with the payload and spends the delivery. */
  predicate Retried(cfg: Config, id: Id, r: Row, r': Row, a: Attempt, answer: Answer)
    requires Succeeds(cfg, r, a)
  {
    && answer == Reveal(id, cfg.decode(cfg.decrypt(r.payload).value).value)
    && r'.status.Consumed? && r'.consumedAt == Some(a.t3) && r'.payload == "" && r'.leaseId.None?
  }

  lemma AttemptSucceeds(cfg: Config, id: Id, r: Row, a: Attempt)
    requires MayAttempt(r, a.t1) && Succeeds(cfg, r, a)
    ensures var (r', answer) := Solo(cfg, id, r, a.password, a.t1, a.t2, a.t3, a.vaultUp);
            Retried(cfg, id, r, r', a, answer) && r' == Spent(r, a.t3)
  {
  }

  /** The row an attempt leaves behind: as good as before, or beyond use. */
  lemma AttemptLeaves(cfg: Config, id: Id, r: Row, a: Attempt)
    requires r.status.Active? && r.failedAttempts < r.maxFailedAttempts && a.t1 < r.expiresAt && a.t2 < r.expiresAt
    ensures var (r', answer) := Solo(cfg, id, r, a.password, a.t1, a.t2, a.t3, a.vaultUp);
            if !PasswordGood(cfg, a.password, r.passwordHash) then
              if r.failedAttempts + 1 >= r.maxFailedAttempts then r' == Locked(r, a.t2) && answer == Unavailable
              else
                && answer == PasswordInvalid && r'.failedAttempts == r.failedAttempts + 1
                && r' == r.(failedAttempts := r'.failedAttempts, startedAt := None, leaseId := None, updatedAt := a.t2)
            else if !a.vaultUp || cfg.decrypt(r.payload).None? then
              answer == Dependency && r' == r.(startedAt := None, leaseId := None, updatedAt := a.t3)
            else
              var reply := cfg.decode(cfg.decrypt(r.payload).value);
              && answer == (if reply.Some? then Reveal(id, reply.value) else Internal) && r' == Spent(r, a.t3)
  {
  }

  lemma FinalIsUnavailable(cfg: Config, id: Id, r: Row, a: Attempt)
    requires r.status.Consumed? || r.status.Revoked?
    ensures Solo(cfg, id, r, a.password, a.t1, a.t2, a.t3, a.vaultUp) == (r, Unavailable)
  {
  }

  lemma TwoAttempts(cfg: Config, id: Id, r: Row, first: Attempt, second: Attempt)
    requires r.status.Active? && r.failedAttempts < r.maxFailedAttempts && first.t1 < r.expiresAt
    requires first.t2 < r.expiresAt
    ensures var (r1, one) := Solo(cfg, id, r, first.password, first.t1, first.t2, first.t3, first.vaultUp);
            var (r2, two) := Solo(cfg, id, r1, second.password, second.t1, second.t2, second.t3,
                                  second.vaultUp);
            r1.tokenHash == r.tokenHash && Promise(cfg, id, r, r2, first, second, one, two)
  {
    hide Solo;
    var r1 := Solo(cfg, id, r, first.password, first.t1, first.t2, first.t3, first.vaultUp).0;
    AttemptLeaves(cfg, id, r, first);
    if r1.status.Active? {
      if Succeeds(cfg, r, second) {
        AttemptSucceeds(cfg, id, r1, second);
      }
    } else {
      FinalIsUnavailable(cfg, id, r1, second);
    }
  }

  method Press(cfg: ServiceConfig, repo: Repository, token: string, a: Attempt) returns (answer: Answer)
    requires repo.Valid()
    modifies repo
    ensures repo.Valid()
    ensures forall id | id in old(repo.rows) && TokenHash(cfg, token) == Some(old(repo.rows)[id].tokenHash) ::
              var solo := Solo(cfg.Core(), id, old(repo.rows)[id], a.password, a.t1, a.t2, a.t3, a.vaultUp);
              repo.rows == old(repo.rows)[id := solo.0] && answer == solo.1
  {
    hide Solo;
    answer := Consume(cfg, repo, token, a.password, a.lease, a.t1, a.t2, a.t3, a.vaultUp);
  }

  /** Prepare, and two undisturbed attempts to consume.  `id` is the delivery of the token. */
  method VisitTwice(cfg: ServiceConfig, repo: Repository, token: string, now: Time, first: Attempt, second: Attempt)
    returns (response: PrepareResponse, one: Answer, two: Answer, ghost id: Id)
    requires repo.Valid()
    modifies repo
    ensures repo.Valid()
    ensures response.mayAttempt ==>
              && id in old(repo.rows) && id in repo.rows && TokenHash(cfg, token) == Some(old(repo.rows)[id].tokenHash)
              && MayAttempt(old(repo.rows)[id], now) && repo.rows == old(repo.rows)[id := repo.rows[id]]
              && (first.t1 < old(repo.rows)[id].expiresAt && first.t2 < old(repo.rows)[id].expiresAt ==>
                    Promise(cfg.Core(), id, old(repo.rows)[id], repo.rows[id], first, second, one, two))
  {
    hide Solo, Promise;
    ghost var t := repo.rows;
    response := Service.Prepare(cfg, repo, token, now);
    id := 0;
    if response.mayAttempt {
      id :| id in t && t[id].tokenHash == TokenHash(cfg, token).value && MayAttempt(t[id], now);
    }
    one := Press(cfg, repo, token, first);
    ghost var t1 := repo.rows;
    if response.mayAttempt {
      SoloKeepsToken(cfg.Core(), id, t[id], first);
      assert id in t1 && TokenHash(cfg, token) == Some(t1[id].tokenHash);
    }
    two := Press(cfg, repo, token, second);
    if response.mayAttempt && first.t1 < t[id].expiresAt && first.t2 < t[id].expiresAt {
      TwoAttempts(cfg.Core(), id, t[id], first, second);
    }
  }

  lemma SoloKeepsToken(cfg: Config, id: Id, r: Row, a: Attempt)
    ensures Solo(cfg, id, r, a.password, a.t1, a.t2, a.t3, a.vaultUp).0.tokenHash == r.tokenHash
  {
  }
}
