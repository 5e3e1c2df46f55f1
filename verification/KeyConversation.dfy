/** A client of the library with any number of keys against a server of the library, each fed with what the other sends. */
module KeyConversations {
  import opened ByteStrings
  import opened ClientAuth
  import opened PublicKeys
  import opened Results
  import ServerAuth
  import Wire

  type Env = ServerAuth.Env
  type Config = ServerAuth.Config
  type Memory = ServerAuth.Memory

  function KeyOf(env: Env, s: Signer): PublicKey
    requires ParsePublicKey(env.onCurve, s.pubKey).Ok?
  {
    ParsePublicKey(env.onCurve, s.pubKey).value
  }

  /** The server can parse the key, and the client signs with it as the server will verify. */
  ghost predicate Usable(env: Env, user: Bytes, s: Signer) {
    && ServerAuth.IsAcceptableAlgo(s.algo) && ParsePublicKey(env.onCurve, s.pubKey).Ok?
    && var sig := s.sign(SignedData(env.session, user, s));
    && sig.Some? && ServerAuth.IsAcceptableAlgo(sig.value.format) && env.verify(KeyOf(env, s), SignedData(env.session, user, s), sig.value)
    && |ProofMsg(user, s, sig.value)| < TWO32 && |QueryMsg(user, s)| < TWO32 && |ServerAuth.KeyOkMsg(s.algo, s.pubKey)| < TWO32
  }

  ghost predicate AllUsable(env: Env, cfg: Config, user: Bytes, signers: seq<Signer>) {
    && cfg.publicKey.Some? && !cfg.noClientAuth && ServerAuth.Deterministic(cfg)
    && |NoneMsg(user)| < TWO32 && |ServerAuth.FailureMsg(cfg)| < TWO32
    && forall i | 0 <= i < |signers| :: Usable(env, user, signers[i])
  }

  /** What the callback says of the key. */
  function Verdict(env: Env, cfg: Config, user: Bytes, s: Signer): ServerAuth.Verdict
    requires cfg.publicKey.Some?
  {
    match ParsePublicKey(env.onCurve, s.pubKey)
    case Ok(key) => ServerAuth.AskCallback(env, cfg, [], user, key)
    case Err(_) => ServerAuth.Verdict(false, None)
  }

  /** The keys that the callback admits, in order. */
  function Admitted(env: Env, cfg: Config, user: Bytes, signers: seq<Signer>): seq<Signer>
    requires cfg.publicKey.Some?
  {
    if signers == [] then []
    else (if Verdict(env, cfg, user, signers[0]).ok then [signers[0]] else []) + Admitted(env, cfg, user, signers[1..])
  }

  function Queries(user: Bytes, signers: seq<Signer>): seq<Bytes> {
    if signers == [] then [] else [QueryMsg(user, signers[0])] + Queries(user, signers[1..])
  }

  function Answer(env: Env, cfg: Config, user: Bytes, s: Signer): Bytes
    requires cfg.publicKey.Some?
  {
    if Verdict(env, cfg, user, s).ok then ServerAuth.KeyOkMsg(s.algo, s.pubKey) else ServerAuth.FailureMsg(cfg)
  }

  function Answers(env: Env, cfg: Config, user: Bytes, signers: seq<Signer>): seq<Bytes>
    requires cfg.publicKey.Some?
  {
    if signers == [] then [] else [Answer(env, cfg, user, signers[0])] + Answers(env, cfg, user, signers[1..])
  }

  // ----- the server -----

  lemma Judged(env: Env, cfg: Config, mem: Memory, user: Bytes, s: Signer)
    requires cfg.publicKey.Some? && ServerAuth.Deterministic(cfg) && ServerAuth.Sound(env, cfg, mem) && ParsePublicKey(env.onCurve, s.pubKey).Ok?
    ensures var (v, mem') := ServerAuth.JudgeKey(env, cfg, true, mem, user, s.pubKey, KeyOf(env, s));
            v == Verdict(env, cfg, user, s) && ServerAuth.Sound(env, cfg, mem')
  {
    hide ParsePublicKey, ServerAuth.Sound;
    ServerAuth.KeyJudged(env, cfg, mem, user, s.pubKey);
    ServerAuth.SameVerdict(env, cfg, mem, ServerAuth.Memory([], []), user, s.pubKey);
  }

  lemma {:induction false} KeysAsked(env: Env, cfg: Config, mem: Memory, user: Bytes, signers: seq<Signer>, rest: seq<Bytes>) returns (mem': Memory)
    requires AllUsable(env, cfg, user, signers) && ServerAuth.Sound(env, cfg, mem)
    ensures ServerAuth.Sound(env, cfg, mem')
    ensures ServerAuth.Auth(env, cfg, true, mem, Queries(user, signers) + rest)
            == ServerAuth.Before(Answers(env, cfg, user, signers), ServerAuth.Auth(env, cfg, true, mem', rest))
    decreases |signers|
  {
    hide ServerAuth.Auth, ServerAuth.Judge, ServerAuth.ParseRequest, ServerAuth.JudgeKey, ServerAuth.FailureMsg, ServerAuth.KeyOkMsg,
      QueryMsg, Ascii, ParsePublicKey, ServerAuth.IsAcceptableAlgo, ServerAuth.Sound, ServerAuth.Deterministic, Verdict, SignedData, ProofMsg;
    var input := Queries(user, signers) + rest;
    if signers == [] {
      mem' := mem;
      assert input == rest;
      NothingBefore(ServerAuth.Auth(env, cfg, true, mem, rest));
    } else {
      var (s, tail) := (signers[0], signers[1..]);
      assert Usable(env, user, s);
      assert AllUsable(env, cfg, user, tail);
      assert input[0..] == input && input[0] == QueryMsg(user, s) && input[1..] == Queries(user, tail) + rest;
      Judged(env, cfg, mem, user, s);
      QueryRead(env, cfg, mem, user, s, input[1..]);
      ServerAuth.AuthUnfolds(env, cfg, mem, input, 0);
      assert ServerAuth.Methods(cfg) != [] by { OffersPublicKey(cfg); }
      var mem1 := ServerAuth.JudgeKey(env, cfg, true, mem, user, s.pubKey, KeyOf(env, s)).1;
      mem' := KeysAsked(env, cfg, mem1, user, tail, rest);
      var answer := Answer(env, cfg, user, s);
      assert [] + [answer] == [answer];
      ServerAuth.Nested([answer], Answers(env, cfg, user, tail), ServerAuth.Auth(env, cfg, true, mem', rest));
    }
  }

  lemma NothingBefore(o: ServerAuth.Outcome)
    ensures ServerAuth.Before([], o) == o
  {
    assert [] + o.out == o.out;
  }

  lemma ProofTaken(env: Env, cfg: Config, mem: Memory, user: Bytes, s: Signer)
    requires cfg.publicKey.Some? && ServerAuth.Deterministic(cfg) && ServerAuth.Sound(env, cfg, mem)
    requires Usable(env, user, s) && Verdict(env, cfg, user, s).ok
    ensures var o := ServerAuth.Auth(env, cfg, true, mem, ProofOf(env.session, user, [s]));
            o.result == Ok(ServerAuth.Granted(user, Verdict(env, cfg, user, s).perms)) && o.out == [ServerAuth.SUCCESS]
  {
    hide ServerAuth.Auth, ServerAuth.Judge, ServerAuth.ParseRequest, ServerAuth.JudgeKey, QueryMsg, Ascii, ParsePublicKey,
      ServerAuth.IsAcceptableAlgo, ServerAuth.Sound, ServerAuth.Deterministic, Verdict, SignedData, ProofMsg;
    var sig := s.sign(SignedData(env.session, user, s)).value;
    var input := [ProofMsg(user, s, sig)];
    assert input[0..] == input && ProofOf(env.session, user, [s]) == input;
    Judged(env, cfg, mem, user, s);
    HonestClientIsGranted(env, cfg, mem, user, s, sig, KeyOf(env, s), input[1..]);
    ServerAuth.AuthUnfolds(env, cfg, mem, input, 0);
    assert [] + [ServerAuth.SUCCESS] == [ServerAuth.SUCCESS];
  }

  lemma NoneTaken(env: Env, cfg: Config, user: Bytes, rest: seq<Bytes>)
    requires cfg.publicKey.Some? && !cfg.noClientAuth && |NoneMsg(user)| < TWO32
    ensures var mem := ServerAuth.Memory([], []);
            && ServerAuth.Sound(env, cfg, mem)
            && ServerAuth.Auth(env, cfg, true, mem, [NoneMsg(user)] + rest)
               == ServerAuth.Before([ServerAuth.FailureMsg(cfg)], ServerAuth.Auth(env, cfg, true, mem, rest))
  {
    hide ServerAuth.Auth, ServerAuth.Judge, ServerAuth.ParseRequest, NoneMsg, Ascii, ServerAuth.FailureMsg;
    var (mem, input) := (ServerAuth.Memory([], []), [NoneMsg(user)] + rest);
    assert input[0..] == input && input[1..] == rest;
    NoneParses(user);
    NoneRefused(env, cfg, mem, user, rest);
    assert ServerAuth.Methods(cfg) != [] by { OffersPublicKey(cfg); }
    ServerAuth.AuthUnfolds(env, cfg, mem, input, 0);
    assert [] + [ServerAuth.FailureMsg(cfg)] == [ServerAuth.FailureMsg(cfg)];
  }

  // ----- the client -----

  lemma {:induction false} KeysValidated(env: Env, cfg: Config, user: Bytes, signers: seq<Signer>, more: seq<Bytes>)
    requires AllUsable(env, cfg, user, signers)
    ensures Validate(user, signers, Answers(env, cfg, user, signers) + more)
            == Stage(Ok(Admitted(env, cfg, user, signers)), Queries(user, signers), |signers|)
    decreases |signers|
  {
    hide KeyAck, QueryMsg, ServerAuth.FailureMsg, ServerAuth.KeyOkMsg, Verdict, ParsePublicKey, ServerAuth.IsAcceptableAlgo,
      ServerAuth.Deterministic, SignedData, ProofMsg;
    if signers != [] {
      var (s, tail) := (signers[0], signers[1..]);
      var input := Answers(env, cfg, user, signers) + more;
      assert Usable(env, user, s);
      assert AllUsable(env, cfg, user, tail);
      AnswersParse(cfg, s, Answers(env, cfg, user, tail) + more);
      assert input == [Answer(env, cfg, user, s)] + (Answers(env, cfg, user, tail) + more);
      assert input[1..] == Answers(env, cfg, user, tail) + more;
      KeysValidated(env, cfg, user, tail, more);
      assert [] + Admitted(env, cfg, user, tail) == Admitted(env, cfg, user, tail);
    }
  }

  lemma {:induction false} AdmittedMeans(env: Env, cfg: Config, user: Bytes, signers: seq<Signer>)
    requires cfg.publicKey.Some?
    ensures var a := Admitted(env, cfg, user, signers);
            && (a == [] <==> forall i | 0 <= i < |signers| :: !Verdict(env, cfg, user, signers[i]).ok)
            && (a != [] ==> exists i | 0 <= i < |signers| ::
                  && a[0] == signers[i] && Verdict(env, cfg, user, signers[i]).ok
                  && forall j | 0 <= j < i :: !Verdict(env, cfg, user, signers[j]).ok)
    decreases |signers|
  {
    hide Verdict;
    if signers != [] && !Verdict(env, cfg, user, signers[0]).ok {
      var tail := signers[1..];
      AdmittedMeans(env, cfg, user, tail);
      var a := Admitted(env, cfg, user, signers);
      assert a == Admitted(env, cfg, user, tail);
      if a != [] {
        var i :| 0 <= i < |tail| && a[0] == tail[i] && Verdict(env, cfg, user, tail[i]).ok && forall j | 0 <= j < i :: !Verdict(env, cfg, user, tail[j]).ok;
        assert signers[i + 1] == tail[i];
        assert forall j | 0 < j < i + 1 :: signers[j] == tail[j - 1];
      } else {
        assert forall j | 0 < j < |signers| :: signers[j] == tail[j - 1];
      }
    }
  }

  /** The messages after the queries and their answers: a proof with the first key that was admitted, and its success. */
  function ProofOf(session: Bytes, user: Bytes, admitted: seq<Signer>): seq<Bytes> {
    if admitted == [] then []
    else
      match admitted[0].sign(SignedData(session, user, admitted[0]))
      case Some(sig) => [ProofMsg(user, admitted[0], sig)]
      case None => []
  }

  function SuccessFor(admitted: seq<Signer>): seq<Bytes> {
    if admitted == [] then [] else [ServerAuth.SUCCESS]
  }

  lemma SuccessParses()
    ensures Response([ServerAuth.SUCCESS]) == (Ok((true, None)), 1)
  {
  }

  /** Both stages of the publickey method. */
  lemma MethodRuns(env: Env, cfg: Config, user: Bytes, signers: seq<Signer>)
    requires AllUsable(env, cfg, user, signers)
    ensures var a := Admitted(env, cfg, user, signers);
            PublicKeyAuth(signers, env.session, user, Answers(env, cfg, user, signers) + SuccessFor(a)) ==
            Attempt(Ok((a != [], None)), Queries(user, signers) + ProofOf(env.session, user, a), |signers| + |SuccessFor(a)|)
  {
    hide Validate, QueryMsg, ServerAuth.FailureMsg, Queries, Verdict, Answers, ParsePublicKey, ServerAuth.IsAcceptableAlgo, Admitted, Response,
      ServerAuth.KeyOkMsg, ServerAuth.Deterministic, SignedData, ProofMsg;
    var a := Admitted(env, cfg, user, signers);
    var more := SuccessFor(a);
    var input := Answers(env, cfg, user, signers) + more;
    KeysValidated(env, cfg, user, signers, more);
    AnswerCount(env, cfg, user, signers);
    AdmittedMeans(env, cfg, user, signers);
    assert input[|signers|..] == more;
    SuccessParses();
    if a != [] {
      var i :| 0 <= i < |signers| && a[0] == signers[i];
      assert Usable(env, user, signers[i]);
    }
  }

  lemma {:induction false} AnswerCount(env: Env, cfg: Config, user: Bytes, signers: seq<Signer>)
    requires cfg.publicKey.Some?
    ensures |Answers(env, cfg, user, signers)| == |signers|
    decreases |signers|
  {
    if signers != [] {
      AnswerCount(env, cfg, user, signers[1..]);
    }
  }

  // ----- together -----

  function FromClient(env: Env, cfg: Config, user: Bytes, signers: seq<Signer>): seq<Bytes>
    requires cfg.publicKey.Some?
  {
    [NoneMsg(user)] + (Queries(user, signers) + ProofOf(env.session, user, Admitted(env, cfg, user, signers)))
  }

  function FromServer(env: Env, cfg: Config, user: Bytes, signers: seq<Signer>): seq<Bytes>
    requires cfg.publicKey.Some?
  {
    [ServerAuth.FailureMsg(cfg)] + (Answers(env, cfg, user, signers) + SuccessFor(Admitted(env, cfg, user, signers)))
  }

  lemma ServerSide(env: Env, cfg: Config, user: Bytes, signers: seq<Signer>)
    requires AllUsable(env, cfg, user, signers)
    ensures var a := Admitted(env, cfg, user, signers);
            var o := ServerAuth.Auth(env, cfg, true, ServerAuth.Memory([], []), FromClient(env, cfg, user, signers));
            && o.out == FromServer(env, cfg, user, signers)
            && if a == [] then o.result == Err(ServerAuth.NoPacket) else o.result == Ok(ServerAuth.Granted(user, Verdict(env, cfg, user, a[0]).perms))
  {
    hide ServerAuth.Auth, NoneMsg, QueryMsg, ParsePublicKey, ServerAuth.FailureMsg, Queries, Answers, Verdict, Admitted, ServerAuth.KeyOkMsg,
      SignedData, ProofMsg, ServerAuth.IsAcceptableAlgo, ServerAuth.Sound, ServerAuth.Deterministic;
    var a := Admitted(env, cfg, user, signers);
    var (proof, mem) := (ProofOf(env.session, user, a), ServerAuth.Memory([], []));
    NoneTaken(env, cfg, user, Queries(user, signers) + proof);
    var mem' := KeysAsked(env, cfg, mem, user, signers, proof);
    if a == [] {
      ServerAuth.NoMore(env, cfg, mem', proof);
    } else {
      AdmittedMeans(env, cfg, user, signers);
      var i :| 0 <= i < |signers| && a[0] == signers[i] && Verdict(env, cfg, user, signers[i]).ok;
      assert Usable(env, user, signers[i]);
      assert proof == ProofOf(env.session, user, [a[0]]);
      ProofTaken(env, cfg, mem', user, a[0]);
    }
  }

  lemma ClientSide(env: Env, cfg: Config, user: Bytes, signers: seq<Signer>)
    requires AllUsable(env, cfg, user, signers)
    ensures var a := Admitted(env, cfg, user, signers);
            var o := Attempts([PublicKeysMethod(signers)], env.session, user, NoneAuth(), {}, [], FromServer(env, cfg, user, signers));
            && o.sent == FromClient(env, cfg, user, signers) && o.attempts == [Ascii("none"), PublicKeyMethod()]
            && o.result == if a == [] then Err(NoSupportedMethods) else Ok(())
  {
    hide Attempts, FindNext, Response, NoneMsg, ServerAuth.FailureMsg, PublicKeyAuth, Ascii, ServerAuth.Methods, Queries, Answers, Verdict, Admitted,
      QueryMsg, ProofMsg, SignedData, ParsePublicKey, ServerAuth.IsAcceptableAlgo, ServerAuth.KeyOkMsg, ServerAuth.Deterministic, Untried;
    var auths := [PublicKeysMethod(signers)];
    var a := Admitted(env, cfg, user, signers);
    var input := Answers(env, cfg, user, signers) + SuccessFor(a);
    var (none, methods) := (NoneAuth(), ServerAuth.Methods(cfg));
    ServerAuth.MethodNamesDiffer();
    FailureParses(cfg, Signer([], [], _ => None), input);
    assert ([ServerAuth.FailureMsg(cfg)] + input)[1..] == input;
    Only(cfg, auths);
    MethodRuns(env, cfg, user, signers);
    NextAttempt(auths, env.session, user, none, {}, [], [ServerAuth.FailureMsg(cfg)] + input, auths[0]);
    LastAttempt(auths, env.session, user, {} + {none.name}, methods, input);
  }

  lemma Only(cfg: Config, auths: seq<AuthMethod>)
    requires cfg.publicKey.Some? && |auths| == 1 && auths[0].name == PublicKeyMethod()
    ensures FindNext(auths, {} + {Ascii("none")}, ServerAuth.Methods(cfg)) == Some(auths[0])
  {
    hide Ascii, ServerAuth.Methods;
    ServerAuth.MethodNamesDiffer();
    OffersPublicKey(cfg);
  }

  /** A client with any keys that the server can parse and against a server whose callback judges by user and key: both ends succeed
      if and only if the callback admits one of the keys. The client asks about all of them, proves the first that was admitted
      and no other, and is let in with the permissions of that one. */
  lemma FirstAdmittedKeyWins(env: Env, cfg: Config, user: Bytes, signers: seq<Signer>)
    requires AllUsable(env, cfg, user, signers)
    ensures var a := Admitted(env, cfg, user, signers);
            var (toServer, toClient) := (FromClient(env, cfg, user, signers), FromServer(env, cfg, user, signers));
            var server := ServerAuth.Auth(env, cfg, true, ServerAuth.Memory([], []), toServer);
            var client := Attempts([PublicKeysMethod(signers)], env.session, user, NoneAuth(), {}, [], toClient);
            && server.out == toClient && client.sent == toServer
            && (server.result.Ok? <==> a != []) && (client.result.Ok? <==> a != [])
            && (a == [] <==> forall i | 0 <= i < |signers| :: !Verdict(env, cfg, user, signers[i]).ok)
            && (a != [] ==> exists i | 0 <= i < |signers| ::
                  && a[0] == signers[i] && (forall j | 0 <= j < i :: !Verdict(env, cfg, user, signers[j]).ok)
                  && Verdict(env, cfg, user, signers[i]).ok
                  && server.result.value == ServerAuth.Granted(user, Verdict(env, cfg, user, signers[i]).perms))
  {
    hide ServerAuth.Auth, Attempts, FromClient, FromServer, Verdict, Admitted, Usable, ServerAuth.Deterministic, NoneMsg, ServerAuth.FailureMsg;
    ServerSide(env, cfg, user, signers);
    ClientSide(env, cfg, user, signers);
    AdmittedMeans(env, cfg, user, signers);
  }
}
