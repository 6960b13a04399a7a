/**
 The protocol and the payload codec together: what Create accepted and stored is what a recipient is shown, and of
 the three ways to lose a delivery the undecodable plaintext is closed to deliveries the service stored itself.
 */
module EndToEnd {
  import opened Wrappers
  import opened Rows
  import opened Protocol
  import opened PayloadJson
  import opened PayloadCodec
  import opened SoloRuns
  import opened Endings

  /** JSON texts as the service writes and reads them, and a response as it is sent. */
  datatype Texts = Texts(write: Json -> string, read: string -> Raw, respond: Revealed -> string)

  /** What a consumed plaintext becomes. */
  function Decoded(texts: Texts, plain: string): Option<string> {
    match NormalizeConsumedPayload(texts.read(plain))
    case Success(revealed) => Some(texts.respond(revealed))
    case Failure(_) => None
  }

  /** What is written is read back, and a consumed plaintext is decoded by normalizeConsumedPayload. */
  ghost predicate Uses(cfg: Config, texts: Texts) {
    && (forall j :: texts.read(texts.write(j)) == Raw.Valid(j))
    && (forall plain :: cfg.decode(plain) == Decoded(texts, plain))
  }

  /** The ciphertext decrypts to what Create stored for an accepted request. */
  ghost predicate Sealed(cfg: Config, texts: Texts, ciphertext: string, req: Request) {
    && CanonicalPayload(req).Success?
    && cfg.decrypt(ciphertext) == Some(texts.write(CanonicalPayload(req).value.plaintext))
  }

  lemma SealedDecodes(cfg: Config, texts: Texts, ciphertext: string, req: Request) returns (revealed: Revealed)
    requires Uses(cfg, texts) && Sealed(cfg, texts, ciphertext, req)
    ensures Shows(revealed, req) && cfg.decode(cfg.decrypt(ciphertext).value) == Some(texts.respond(revealed))
  {
    hide CanonicalPayload, NormalizeConsumedPayload, Projected, Normalized;
    AcceptedIsRevealed(req);
    revealed := NormalizeConsumedPayload(Raw.Valid(CanonicalPayload(req).value.plaintext)).value;
  }

  lemma SealedIsDecryptable(cfg: Config, texts: Texts, ciphertext: string, req: Request)
    requires Sealed(cfg, texts, ciphertext, req)
    ensures cfg.decrypt(ciphertext).Some?
  {
  }

  /** A consumed delivery that the service stored was shown if and only if its commit was answered and its caller
      replied, and what was shown is the payload that was created. */
  lemma {:induction false} StoredIsShownIff(cfg: Config, texts: Texts, run: seq<Step>, id: Id, req: Request)
    returns (k: nat, revealed: Revealed)
    requires Protocol.Valid(cfg, run) && id in After(cfg, run).rows && After(cfg, run).rows[id].status.Consumed?
    ensures Commits(run, k, id) && run[k].c in After(cfg, run).clients && id in After(cfg, run).inserted
    ensures Uses(cfg, texts) && Sealed(cfg, texts, After(cfg, run).inserted[id].payload, req) ==>
              && Shows(revealed, req)
              && (Shown(After(cfg, run), id) <==> run[k].fate.Answered? && Later(run, k, Reply(run[k].c)))
              && (Shown(After(cfg, run), id) ==>
                    After(cfg, run).clients[run[k].c].phase == Done(Reveal(id, texts.respond(revealed))))
  {
    hide Shown, Later, Shows, Uses, Sealed, Enabled, Next;
    var plain;
    k, plain := ConsumedIsShownIff(cfg, run, id);
    if Uses(cfg, texts) && Sealed(cfg, texts, After(cfg, run).inserted[id].payload, req) {
      SealedIsDecryptable(cfg, texts, After(cfg, run).inserted[id].payload, req);
      revealed := SealedDecodes(cfg, texts, After(cfg, run).inserted[id].payload, req);
    } else {
      revealed := Revealed.Revealed(Json.Null, Plain(Empty));
    }
  }

  /** It does happen: with a Vault that seals and opens, a stored delivery is created, consumed and shown. */
  lemma StoredCanBeShown(cfg: Config, texts: Texts, ciphertext: string, req: Request)
    returns (run: seq<Step>, id: Id, revealed: Revealed)
    requires Uses(cfg, texts) && Sealed(cfg, texts, ciphertext, req) && ciphertext != ""
    ensures Protocol.Valid(cfg, run) && 0 in After(cfg, run).clients && Shows(revealed, req)
    ensures After(cfg, run).clients[0].phase == Done(Reveal(id, texts.respond(revealed)))
  {
    hide Uses, Sealed, Shows, Enabled, Next;
    SealedIsDecryptable(cfg, texts, ciphertext, req);
    revealed := SealedDecodes(cfg, texts, ciphertext, req);
    run := OneDelivery(cfg, ciphertext);
    id := 0;
    var more := CompletionIgnoresExpiry(cfg, run, 0, id, "", 0, 1, 2, 3, texts.respond(revealed));
    run := run + more;
  }
}
