/** Service.Consume as a sequence of repository calls, its specification, and its place among the protocol's runs. */
module Service {
  import opened Wrappers
  import opened Rows
  import opened DeliveryRepository
  import opened Protocol

  /** Pepper and HMAC turn the raw token into the row's token_hash. */
  datatype ServiceConfig = ServiceConfig(
    pepper: string,
    leaseTTL: int,
    hmac: (string, string) -> string,
    verify: (string, string) -> bool,
    decrypt: string -> Option<string>,
    decode: string -> Option<string>)
  {
    function Core(): Config {
      Config(WholeSeconds(leaseTTL), verify, decrypt, decode)
    }
  }

  function TokenHash(cfg: ServiceConfig, token: string): Option<string> {
    if cfg.pepper == "" || token == "" then None else Some(cfg.hmac(cfg.pepper, token))
  }

  /** Consume run alone on one row: `t1` is FindConsumeCandidate's NOW(), `t2` that of the second statement, `t3` of
      the third. */
  function Solo(cfg: Config, id: Id, r: Row, password: string, t1: Time, t2: Time, t3: Time, vaultUp: bool)
    : (Row, Answer)
  {
    if !Takeable(r, cfg.leaseSeconds, t1) || !Takeable(r, cfg.leaseSeconds, t2) then (r, Unavailable)
    else if r.passwordHash.Some? && !cfg.verify(password, r.passwordHash.value) then
      if r.failedAttempts + 1 == r.maxFailedAttempts then
        (r.(status := Revoked, revokedAt := Some(t2), payload := "", startedAt := None, leaseId := None,
            failedAttempts := r.failedAttempts + 1, updatedAt := t2), Unavailable)
      else
        (r.(status := Active, startedAt := None, leaseId := None, failedAttempts := r.failedAttempts + 1,
            updatedAt := t2), PasswordInvalid)
    else if !vaultUp || cfg.decrypt(r.payload).None? then
      (r.(status := Active, startedAt := None, leaseId := None, updatedAt := t3), Dependency)
    else
      (r.(status := Consumed, consumedAt := Some(t3), payload := "", startedAt := None, leaseId := None,
          updatedAt := t3),
       match cfg.decode(cfg.decrypt(r.payload).value)
       case Some(reply) => Reveal(id, reply)
       case None => Internal)
  }

  lemma OnlyToken(t: Table, id: Id)
    requires UniqueTokens(t) && id in t
    ensures forall i | i in t && t[i].tokenHash == t[id].tokenHash :: i == id
  {
  }

  /** The rows that pass through the statements of one Consume. */
  lemma FailureRow(cfg: Config, r: Row, id: Id, password: string, t1: Time, t2: Time, t3: Time, vaultUp: bool)
    requires Takeable(r, cfg.leaseSeconds, t1) && !PasswordGood(cfg, password, r.passwordHash)
    ensures var u := RecordFailure(r.tokenHash, r.passwordHash.value, cfg.leaseSeconds);
            var r' := UpdateRow(u, id, r, t2);
            Solo(cfg, id, r, password, t1, t2, t3, vaultUp) ==
              (r', if !Matches(u, id, r, t2) || r'.status.Revoked? then Unavailable else PasswordInvalid)
  {
  }

  lemma LeaseRow(cfg: Config, r: Row, id: Id, password: string, lease: LeaseId, t1: Time, t2: Time, t3: Time,
                 vaultUp: bool)
    requires Takeable(r, cfg.leaseSeconds, t1) && PasswordGood(cfg, password, r.passwordHash)
    ensures var u := Begin(r.tokenHash, r.passwordHash, lease, cfg.leaseSeconds);
            var leased := UpdateRow(u, id, r, t2);
            && (!Matches(u, id, r, t2) ==>
                  Solo(cfg, id, r, password, t1, t2, t3, vaultUp) == (r, Unavailable) && leased == r)
            && (Matches(u, id, r, t2) ==>
                  && leased.payload == r.payload && leased.tokenHash == r.tokenHash
                  && Matches(Restore(id, lease), id, leased, t3) && Matches(Complete(id, lease), id, leased, t3)
                  && Solo(cfg, id, r, password, t1, t2, t3, vaultUp) ==
                     var plain := cfg.decrypt(r.payload);
                     if !vaultUp || plain.None? then (UpdateRow(Restore(id, lease), id, leased, t3), Dependency)
                     else (UpdateRow(Complete(id, lease), id, leased, t3),
                           if cfg.decode(plain.value).None? then Internal
                           else Reveal(id, cfg.decode(plain.value).value)))
  {
  }

  /** A token that cannot be hashed is no attempt. */
  method Prepare(cfg: ServiceConfig, repo: Repository, token: string, now: Time) returns (response: PrepareResponse)
    requires repo.Valid()
    ensures response.mayAttempt <==>
            && cfg.pepper != "" && token != ""
            && exists id ::
                 && id in repo.rows && repo.rows[id].tokenHash == cfg.hmac(cfg.pepper, token)
                 && repo.rows[id].status.Active? && repo.rows[id].expiresAt > now
                 && repo.rows[id].failedAttempts < repo.rows[id].maxFailedAttempts
    ensures response.mayAttempt ==>
              forall id | id in repo.rows && TokenHash(cfg, token) == Some(repo.rows[id].tokenHash) ::
                && MayAttempt(repo.rows[id], now)
                && response.passwordRequired == repo.rows[id].passwordHash.Some?
                && response.expiresAt == Some(repo.rows[id].expiresAt)
  {
    if cfg.pepper == "" || token == "" {
      return PrepareResponse(false, false, None);
    }
    response := repo.Prepare(cfg.hmac(cfg.pepper, token), now);
  }

  /** From the lease on: decrypt, then give the lease back or complete and decode. */
  method Redeem(cfg: ServiceConfig, repo: Repository, item: Candidate, lease: LeaseId, t3: Time, vaultUp: bool)
    returns (answer: Answer)
    requires repo.Valid() && item.id in repo.rows
    requires repo.rows[item.id].status.Consuming? && repo.rows[item.id].leaseId == Some(lease)
    modifies repo
    ensures repo.Valid()
    ensures var r, plain := old(repo.rows)[item.id], cfg.decrypt(item.payload);
            if !vaultUp || plain.None? then
              && answer == Dependency
              && repo.rows == old(repo.rows)[item.id :=
                   r.(status := Active, startedAt := None, leaseId := None, updatedAt := t3)]
            else
              && answer == (match cfg.decode(plain.value)
                            case Some(reply) => Reveal(item.id, reply)
                            case None => Internal)
              && repo.rows == old(repo.rows)[item.id :=
                   r.(status := Consumed, consumedAt := Some(t3), payload := "", startedAt := None, leaseId := None,
                      updatedAt := t3)]
  {
    hide Exec, UniqueTokens;
    var plain := cfg.decrypt(item.payload);
    if !vaultUp || plain.None? {
      repo.RestoreConsume(item.id, lease, t3);
      return Dependency;
    }
    var completed := repo.CompleteConsume(item.id, lease, t3);
    if !completed {
      return Unavailable;
    }
    var reply := cfg.decode(plain.value);
    if reply.None? {
      return Internal;
    }
    answer := Reveal(item.id, reply.value);
  }

  /** Consume, statement by statement, once the token is hashed. */
  method ConsumeHashed(cfg: ServiceConfig, repo: Repository, tokenHash: string, password: string, lease: LeaseId,
                       t1: Time, t2: Time, t3: Time, vaultUp: bool) returns (answer: Answer)
    requires repo.Valid()
    modifies repo
    ensures repo.Valid()
    ensures (forall id | id in old(repo.rows) :: old(repo.rows)[id].tokenHash != tokenHash) ==>
              repo.rows == old(repo.rows) && answer == Unavailable
    ensures forall id | id in old(repo.rows) && old(repo.rows)[id].tokenHash == tokenHash ::
              var solo := Solo(cfg.Core(), id, old(repo.rows)[id], password, t1, t2, t3, vaultUp);
              repo.rows == old(repo.rows)[id := solo.0] && answer == solo.1
  {
    hide Exec, UniqueTokens, WholeSeconds, IsHit, Matches, Assign, Touch;
    ghost var before := repo.rows;
    var item := repo.FindConsumeCandidate(tokenHash, cfg.leaseTTL, t1);
    if item.None? {
      return Unavailable;
    }
    ghost var id := item.value.id;
    OnlyToken(before, id);
    var hash := item.value.passwordHash;
    if hash.Some? && !cfg.verify(password, hash.value) {
      var failure := repo.RecordPasswordFailure(tokenHash, hash.value, cfg.leaseTTL, t2);
      assert failure.updated <==> Takeable(before[id], cfg.Core().leaseSeconds, t2);
      if !failure.updated || failure.locked {
        return Unavailable;
      }
      return PasswordInvalid;
    }
    item := repo.BeginConsume(tokenHash, hash, lease, cfg.leaseTTL, t2);
    assert item.Some? <==> Takeable(before[id], cfg.Core().leaseSeconds, t2);
    if item.None? {
      return Unavailable;
    }
    answer := Redeem(cfg, repo, item.value, lease, t3, vaultUp);
  }

  /** The last clause says the same in columns.  A delivery is open to Consume if it is active, or under the lease of
      a holder that has had it too long; an open delivery and the right password give the payload. */
  method Consume(cfg: ServiceConfig, repo: Repository, token: string, password: string, lease: LeaseId,
                 t1: Time, t2: Time, t3: Time, vaultUp: bool) returns (answer: Answer)
    requires repo.Valid()
    modifies repo
    ensures repo.Valid()
    ensures (forall id | id in old(repo.rows) :: TokenHash(cfg, token) != Some(old(repo.rows)[id].tokenHash)) ==>
              repo.rows == old(repo.rows) && answer == Unavailable
    ensures forall id | id in old(repo.rows) && TokenHash(cfg, token) == Some(old(repo.rows)[id].tokenHash) ::
              var solo := Solo(cfg.Core(), id, old(repo.rows)[id], password, t1, t2, t3, vaultUp);
              repo.rows == old(repo.rows)[id := solo.0] && answer == solo.1
    ensures forall id | id in old(repo.rows) && cfg.pepper != "" && token != ""
                     && old(repo.rows)[id].tokenHash == cfg.hmac(cfg.pepper, token) ::
              var r, ttl := old(repo.rows)[id], WholeSeconds(cfg.leaseTTL) * SECOND;
              if || r.expiresAt <= t1 || r.expiresAt <= t2 || r.maxFailedAttempts <= r.failedAttempts
                 || !(|| r.status.Active?
                      || (&& r.status.Consuming? && r.startedAt.Some?
                          && r.startedAt.value + ttl < t1 && r.startedAt.value + ttl < t2)) then
                answer == Unavailable && repo.rows == old(repo.rows)
              else if r.passwordHash.Some? && !cfg.verify(password, r.passwordHash.value) then
                && answer == (if r.failedAttempts + 1 < r.maxFailedAttempts then PasswordInvalid else Unavailable)
                && repo.rows == old(repo.rows)[id := repo.rows[id]]
                && repo.rows[id].failedAttempts == r.failedAttempts + 1 && repo.rows[id].leaseId.None?
                && repo.rows[id].status == (if r.failedAttempts + 1 < r.maxFailedAttempts then Active else Revoked)
                && repo.rows[id].payload == (if r.failedAttempts + 1 < r.maxFailedAttempts then r.payload else "")
              else if !vaultUp || cfg.decrypt(r.payload).None? then
                && answer == Dependency
                && repo.rows == old(repo.rows)[id :=
                     r.(status := Active, startedAt := None, leaseId := None, updatedAt := t3)]
              else
                && answer == (match cfg.decode(cfg.decrypt(r.payload).value)
                              case Some(reply) => Reveal(id, reply)
                              case None => Internal)
                && repo.rows == old(repo.rows)[id :=
                     r.(status := Consumed, consumedAt := Some(t3), payload := "", startedAt := None, leaseId := None,
                        updatedAt := t3)]
  {
    hide WholeSeconds, UniqueTokens;
    if cfg.pepper == "" || token == "" {
      return Unavailable;
    }
    answer := ConsumeHashed(cfg, repo, cfg.hmac(cfg.pepper, token), password, lease, t1, t2, t3, vaultUp);
  }
}
