/** A client of the library that has keys and a keyboard-interactive method, talking to this program's server: each is fed
    with what the other sends. */
module AppConversation {
  import opened AppServer
  import opened ByteStrings
  import opened ClientAuth
  import opened PublicKeys
  import opened Results
  import KeyboardInteractive
  import ServerAuth
  import Wire

  type Env = ServerAuth.Env
  type Memory = ServerAuth.Memory
  type Offer = ServerAuth.Offer

  /** The keys that the server takes note of: those of an algorithm it knows. */
  function Offers(user: Bytes, signers: seq<Signer>): seq<Offer> {
    if signers == [] then []
    else (if ServerAuth.IsAcceptableAlgo(signers[0].algo) then [ServerAuth.Offer(user, signers[0].pubKey)] else []) + Offers(user, signers[1..])
  }

  /** How many keys the server gets through: up to the first one of a known algorithm that it cannot parse. */
  function Readable(env: Env, signers: seq<Signer>): (k: nat)
    ensures k <= |signers|
  {
    if signers == [] || (ServerAuth.IsAcceptableAlgo(signers[0].algo) && ParsePublicKey(env.onCurve, signers[0].pubKey).Err?) then 0
    else 1 + Readable(env, signers[1..])
  }

  /** An offer is added unless it is one of the first sixteen. */
  function Note(record: seq<Offer>, offer: Offer): seq<Offer> {
    if exists i | 0 <= i < |record| && i < ServerAuth.MAX_CACHED_PUB_KEYS :: record[i] == offer then record else record + [offer]
  }

  function Record(record: seq<Offer>, offers: seq<Offer>): seq<Offer>
    decreases |offers|
  {
    if offers == [] then record else Record(Note(record, offers[0]), offers[1..])
  }

  function Queries(user: Bytes, signers: seq<Signer>): seq<Bytes> {
    if signers == [] then [] else [QueryMsg(user, signers[0])] + Queries(user, signers[1..])
  }

  function Failures(n: nat): seq<Bytes> {
    if n == 0 then [] else [ServerAuth.FailureMsg(AppConfig())] + Failures(n - 1)
  }

  /** No message is too long for the length words in it. */
  predicate Fits(user: Bytes, signers: seq<Signer>) {
    && |NoneMsg(user)| < TWO32 && |KeyboardInteractive.InitiateMsg(user)| < TWO32
    && forall i | 0 <= i < |signers| :: |QueryMsg(user, signers[i])| < TWO32
  }

  // ----- the server -----

  lemma NoteExact(env: Env, mem: Memory, user: Bytes, keyData: Bytes, key: PublicKey)
    requires ServerAuth.Mirrors(mem)
    ensures ServerAuth.JudgeKey(env, AppConfig(), true, mem, user, keyData, key).1.calls == Note(mem.calls, ServerAuth.Offer(user, keyData))
  {
    hide ServerAuth.AskCallback;
    ServerAuth.LookupFinds(mem.cache, user, keyData);
    var found := ServerAuth.Lookup(mem.cache, user, keyData);
    if found.Some? {
      var i :| 0 <= i < |mem.cache| && mem.cache[i] == found.value;
      assert mem.calls[i] == ServerAuth.Offer(user, keyData);
    } else {
      forall i | 0 <= i < |mem.calls| && i < ServerAuth.MAX_CACHED_PUB_KEYS ensures mem.calls[i] != ServerAuth.Offer(user, keyData) {
        assert mem.cache[i] in mem.cache;
      }
    }
  }

  /** The server's turn at a key. */
  lemma KeyOffered(env: Env, mem: Memory, user: Bytes, signer: Signer, input: seq<Bytes>) returns (mem': Memory)
    requires ServerAuth.Mirrors(mem) && Refusing(mem) && |QueryMsg(user, signer)| < TWO32
    requires input != [] && input[0] == QueryMsg(user, signer)
    ensures ServerAuth.Mirrors(mem') && Refusing(mem')
    ensures var o := ServerAuth.Auth(env, AppConfig(), true, mem, input);
            if Readable(env, [signer]) == 0 then o.result.Err? && o.out == [] && o.calls == mem.calls
            else mem'.calls == Record(mem.calls, Offers(user, [signer]))
                 && o == ServerAuth.Before(Failures(1), ServerAuth.Auth(env, AppConfig(), true, mem', input[1..]))
  {
    hide ServerAuth.Auth, ServerAuth.Judge, ServerAuth.ParseRequest, ServerAuth.JudgeKey, ServerAuth.FailureMsg, ServerAuth.KeyOkMsg,
      QueryMsg, Ascii, ParsePublicKey, ServerAuth.IsAcceptableAlgo, ServerAuth.Mirrors, Refusing, Note;
    var cfg := AppConfig();
    mem' := mem;
    assert input[0..] == input && [signer][1..] == [];
    assert ServerAuth.Methods(cfg) != [] by { OffersPublicKey(cfg); }
    QueryRead(env, cfg, mem, user, signer, input[1..]);
    ServerAuth.AuthUnfolds(env, cfg, mem, input, 0);
    OneFailure();
    if ServerAuth.IsAcceptableAlgo(signer.algo) && ParsePublicKey(env.onCurve, signer.pubKey).Ok? {
      var key := ParsePublicKey(env.onCurve, signer.pubKey).value;
      NoteExact(env, mem, user, signer.pubKey, key);
      KeyTurn(env, mem, user, signer.pubKey, key);
      mem' := ServerAuth.JudgeKey(env, cfg, true, mem, user, signer.pubKey, key).1;
      assert Offers(user, [signer]) == [ServerAuth.Offer(user, signer.pubKey)];
      RecordOne(mem.calls, ServerAuth.Offer(user, signer.pubKey));
    }
  }

  lemma OneFailure()
    ensures Failures(1) == [ServerAuth.FailureMsg(AppConfig())]
  {
    hide ServerAuth.FailureMsg;
  }

  lemma RecordOne(record: seq<Offer>, offer: Offer)
    ensures Record(record, [offer]) == Note(record, offer)
  {
    hide Note;
    assert [offer][1..] == [];
  }

  lemma {:induction false} RecordJoined(record: seq<Offer>, a: seq<Offer>, b: seq<Offer>)
    ensures Record(record, a + b) == Record(Record(record, a), b)
    decreases |a|
  {
    hide Note;
    if a == [] {
      assert a + b == b;
    } else {
      assert (a + b)[1..] == a[1..] + b;
      RecordJoined(Note(record, a[0]), a[1..], b);
    }
  }

  /** The server takes note of every key in turn, refuses each, and stops at one that it cannot parse. */
  lemma {:induction false} KeysOffered(env: Env, mem: Memory, user: Bytes, signers: seq<Signer>, rest: seq<Bytes>) returns (mem': Memory)
    requires ServerAuth.Mirrors(mem) && Refusing(mem) && forall i | 0 <= i < |signers| :: |QueryMsg(user, signers[i])| < TWO32
    ensures ServerAuth.Mirrors(mem') && Refusing(mem')
    ensures var k := Readable(env, signers);
            var o := ServerAuth.Auth(env, AppConfig(), true, mem, Queries(user, signers) + rest);
            if k < |signers| then o.result.Err? && o.out == Failures(k) && o.calls == Record(mem.calls, Offers(user, signers[..k]))
            else mem'.calls == Record(mem.calls, Offers(user, signers))
                 && o == ServerAuth.Before(Failures(k), ServerAuth.Auth(env, AppConfig(), true, mem', rest))
    decreases |signers|
  {
    hide ServerAuth.Auth, QueryMsg, ParsePublicKey, ServerAuth.IsAcceptableAlgo, ServerAuth.Mirrors, Refusing, Record, ServerAuth.FailureMsg;
    var input := Queries(user, signers) + rest;
    if signers == [] {
      mem' := mem;
      assert input == rest && Record(mem.calls, []) == mem.calls by { RecordNothing(mem.calls); }
      assert Failures(0) == [];
      BeforeNothing(ServerAuth.Auth(env, AppConfig(), true, mem, rest));
    } else {
      var (s, tail) := (signers[0], signers[1..]);
      assert input[0] == QueryMsg(user, s) && input[1..] == Queries(user, tail) + rest;
      var mem1 := KeyOffered(env, mem, user, s, input);
      mem' := KeysOffered(env, mem1, user, tail, rest);
      Split(env, user, signers);
      RecordNothing(mem.calls);
      if Readable(env, [s]) > 0 {
        var k := Readable(env, tail);
        RecordJoined(mem.calls, Offers(user, [s]), Offers(user, tail[..k]));
        RecordJoined(mem.calls, Offers(user, [s]), Offers(user, tail));
        ServerAuth.Nested(Failures(1), Failures(k), ServerAuth.Auth(env, AppConfig(), true, mem', rest));
        OneFailure();
        assert Failures(1) + Failures(k) == Failures(k + 1);
      }
    }
  }

  lemma RecordNothing(record: seq<Offer>)
    ensures Record(record, []) == record
  {
  }

  lemma BeforeNothing(o: ServerAuth.Outcome)
    ensures ServerAuth.Before([], o) == o
  {
    assert [] + o.out == o.out;
  }

  /** The first key and the others. */
  lemma Split(env: Env, user: Bytes, signers: seq<Signer>)
    requires signers != []
    ensures var (s, tail) := (signers[0], signers[1..]);
            var (k, l) := (Readable(env, [s]), Readable(env, tail));
            && Readable(env, signers) == (if k == 0 then 0 else 1 + l)
            && Offers(user, signers) == Offers(user, [s]) + Offers(user, tail)
            && Offers(user, signers[..0]) == []
            && Offers(user, signers[..1 + l]) == Offers(user, [s]) + Offers(user, tail[..l])
  {
    hide ParsePublicKey, ServerAuth.IsAcceptableAlgo, Offers;
    var (s, tail) := (signers[0], signers[1..]);
    var l := Readable(env, tail);
    assert [s][1..] == [];
    NoOffers(user);
    FirstOffer(user, signers);
    assert signers[..1 + l][1..] == tail[..l];
    FirstOffer(user, signers[..1 + l]);
  }

  lemma NoOffers(user: Bytes)
    ensures Offers(user, []) == []
  {
  }

  lemma FirstOffer(user: Bytes, signers: seq<Signer>)
    requires signers != []
    ensures Offers(user, signers) == Offers(user, [signers[0]]) + Offers(user, signers[1..])
  {
    hide ServerAuth.IsAcceptableAlgo;
    assert [signers[0]][1..] == [];
  }

  lemma InitiateParses(user: Bytes)
    requires |KeyboardInteractive.InitiateMsg(user)| < TWO32
    ensures ServerAuth.ParseRequest(KeyboardInteractive.InitiateMsg(user)) ==
            Ok(ServerAuth.Request(user, SshConnection(), Ascii("keyboard-interactive"), Wire.EncodeString([]) + Wire.EncodeString([])))
  {
    hide Wire.UnmarshalSpec, Wire.EncodeFields, Wire.EncodeString, SshConnection, Ascii;
    var (u, c, m) := (Wire.VString(user), Wire.VString(SshConnection()), Wire.VString(Ascii("keyboard-interactive")));
    var e := Wire.VString([]);
    var one := Wire.VRest(Wire.EncodeString([]) + Wire.EncodeString([]));
    FourFields(u, c, m, [e, e]);
    FourFields(u, c, m, [one]);
    Single(one);
    Single(e);
    assert [u, c, m] + [e, e] == [u, c, m, e, e] && [u, c, m] + [one] == [u, c, m, one] && [e, e][1..] == [e];
    assert Wire.EncodeFields([e, e]) == Wire.EncodeField(e) + Wire.EncodeFields([e]) by { Two(e); }
    Wire.UnmarshalMarshal(ServerAuth.USER_AUTH_REQUEST, [u, c, m, one]);
  }

  lemma Two(e: Wire.Field)
    ensures Wire.EncodeFields([e, e]) == Wire.EncodeField(e) + Wire.EncodeFields([e])
  {
    hide Wire.EncodeField;
    assert [e, e][1..] == [e];
  }

  /** keyboard-interactive lets the client in without a question. */
  lemma LetsIn(env: Env, mem: Memory, user: Bytes)
    requires |KeyboardInteractive.InitiateMsg(user)| < TWO32
    ensures ServerAuth.Auth(env, AppConfig(), true, mem, [KeyboardInteractive.InitiateMsg(user)]) ==
            ServerAuth.Outcome(Ok(ServerAuth.Granted(user, None)), [ServerAuth.SUCCESS], mem.calls)
  {
    hide ServerAuth.Auth, ServerAuth.ParseRequest, KeyboardInteractive.InitiateMsg, Wire.EncodeString, Ascii, ServerAuth.JudgePublicKey;
    ServerAuth.MethodNamesDiffer();
    InitiateParses(user);
    var input := [KeyboardInteractive.InitiateMsg(user)];
    assert input[0..] == input;
    ServerAuth.AuthUnfolds(env, AppConfig(), mem, input, 0);
    assert [] + [ServerAuth.SUCCESS] == [ServerAuth.SUCCESS];
  }

  lemma RefusesNone(env: Env, user: Bytes, rest: seq<Bytes>)
    requires |NoneMsg(user)| < TWO32
    ensures var mem := ServerAuth.Memory([], []);
            ServerAuth.Auth(env, AppConfig(), true, mem, [NoneMsg(user)] + rest)
            == ServerAuth.Before(Failures(1), ServerAuth.Auth(env, AppConfig(), true, mem, rest))
  {
    hide ServerAuth.Auth, ServerAuth.Judge, ServerAuth.ParseRequest, NoneMsg, Ascii, ServerAuth.FailureMsg;
    var (cfg, mem, input) := (AppConfig(), ServerAuth.Memory([], []), [NoneMsg(user)] + rest);
    assert input[0..] == input && input[1..] == rest;
    NoneParses(user);
    NoneRefused(env, cfg, mem, user, rest);
    assert ServerAuth.Methods(cfg) != [] by { OffersPublicKey(cfg); }
    ServerAuth.AuthUnfolds(env, cfg, mem, input, 0);
    OneFailure();
    assert [] + [ServerAuth.FailureMsg(cfg)] == [ServerAuth.FailureMsg(cfg)];
  }

  // ----- the client -----

  lemma FailureIsShort()
    ensures |ServerAuth.FailureMsg(AppConfig())| < TWO32
    ensures ServerAuth.Methods(AppConfig()) == [PublicKeyMethod(), KeyboardInteractive.Method()]
  {
    hide Ascii;
    ServerAuth.MethodNamesDiffer();
    var ms := ServerAuth.Methods(AppConfig());
    assert ms == [Ascii("publickey"), Ascii("keyboard-interactive")];
    assert ms[1..] == [Ascii("keyboard-interactive")];
    assert |Wire.Join(ms)| == 30;
    KeyboardInteractive.StringLength(Wire.Join(ms));
    var (a, b) := (Wire.VNames(ms), Wire.VBool(false));
    assert [a, b][1..] == [b];
    Single(b);
  }

  /** While its queries are refused the publickey method goes on to the next key. */
  lemma {:induction false} NoneValidated(user: Bytes, signers: seq<Signer>, j: nat, more: seq<Bytes>)
    requires j <= |signers| && (j < |signers| ==> more == [])
    ensures Validate(user, signers, Failures(j) + more) ==
            if j == |signers| then Stage(Ok([]), Queries(user, signers), j) else Stage(Err(NoPacket), Queries(user, signers[..j + 1]), j)
    decreases |signers|
  {
    hide KeyAck, QueryMsg, ServerAuth.FailureMsg;
    var input := Failures(j) + more;
    if signers != [] {
      var s := signers[0];
      var q := [QueryMsg(user, s)];
      if j == 0 {
        assert input == [];
        assert KeyAck(s, []) == (Err(NoPacket), 0) by { NothingAcknowledged(s); }
        assert signers[..1] == [s] && Queries(user, [s]) == q by { OneQuery(user, s); }
      } else {
        var f := ServerAuth.FailureMsg(AppConfig());
        FailureIsShort();
        FailureParses(AppConfig(), s, Failures(j - 1) + more);
        assert input == [f] + (Failures(j - 1) + more);
        assert input[1..] == Failures(j - 1) + more;
        NoneValidated(user, signers[1..], j - 1, more);
        if j < |signers| {
          assert signers[..j + 1][0] == s && signers[..j + 1][1..] == signers[1..][..j];
        }
      }
    }
  }

  lemma NothingAcknowledged(signer: Signer)
    ensures KeyAck(signer, []) == (Err(NoPacket), 0)
  {
  }

  lemma OneQuery(user: Bytes, signer: Signer)
    ensures Queries(user, [signer]) == [QueryMsg(user, signer)]
  {
    hide QueryMsg;
    assert [signer][1..] == [];
  }

  /** The publickey method, none of whose keys the server accepts. */
  lemma KeysRefused(session: Bytes, user: Bytes, signers: seq<Signer>, j: nat, more: seq<Bytes>)
    requires j <= |signers| && (j < |signers| ==> more == [])
    ensures PublicKeyAuth(signers, session, user, Failures(j) + more) ==
            if j == |signers| then Attempt(Ok((false, None)), Queries(user, signers), j)
            else Attempt(Err(NoPacket), Queries(user, signers[..j + 1]), j)
  {
    hide Validate, QueryMsg, ServerAuth.FailureMsg, Failures, Queries;
    NoneValidated(user, signers, j, more);
    assert Queries(user, signers) + [] == Queries(user, signers);
  }

  lemma {:induction false} FailureCount(n: nat)
    ensures |Failures(n)| == n
  {
    if n > 0 {
      FailureCount(n - 1);
    }
  }

  lemma LetIn(challenge: KeyboardInteractive.Challenge, user: Bytes)
    ensures KeyboardInteractive.Auth(challenge, user, [ServerAuth.SUCCESS]) == Attempt(Ok((true, None)), [KeyboardInteractive.InitiateMsg(user)], 1)
  {
    hide KeyboardInteractive.InitiateMsg;
    assert KeyboardInteractive.Dialogue(challenge, [ServerAuth.SUCCESS]) == Attempt(Ok((true, None)), [], 1);
    assert [KeyboardInteractive.InitiateMsg(user)] + [] == [KeyboardInteractive.InitiateMsg(user)];
  }

  // ----- the conversation -----

  /** What the client sends: it stops at the key that the server cannot parse. */
  function FromClient(env: Env, user: Bytes, signers: seq<Signer>): seq<Bytes> {
    var k := Readable(env, signers);
    [NoneMsg(user)] + if k < |signers| then Queries(user, signers[..k + 1]) else Queries(user, signers) + [KeyboardInteractive.InitiateMsg(user)]
  }

  function FromServer(env: Env, signers: seq<Signer>): seq<Bytes> {
    var k := Readable(env, signers);
    Failures(1) + (Failures(k) + if k < |signers| then [] else [ServerAuth.SUCCESS])
  }

  /** Cut off after the key that cannot be parsed, the list is read as far. */
  lemma {:induction false} ReadableCut(env: Env, signers: seq<Signer>)
    requires Readable(env, signers) < |signers|
    ensures Readable(env, signers[..Readable(env, signers) + 1]) == Readable(env, signers)
  {
    hide ParsePublicKey, ServerAuth.IsAcceptableAlgo;
    var k := Readable(env, signers);
    if k > 0 {
      ReadableCut(env, signers[1..]);
      assert signers[..k + 1][1..] == signers[1..][..k];
    }
  }

  lemma ServerSide(env: Env, user: Bytes, signers: seq<Signer>)
    requires Fits(user, signers)
    ensures var k := Readable(env, signers);
            var o := ServerAuth.Auth(env, AppConfig(), true, ServerAuth.Memory([], []), FromClient(env, user, signers));
            && o.out == FromServer(env, signers) && o.calls == Record([], Offers(user, signers[..k]))
            && if k < |signers| then o.result.Err? else o.result == Ok(ServerAuth.Granted(user, None))
  {
    hide ServerAuth.Auth, NoneMsg, KeyboardInteractive.InitiateMsg, QueryMsg, ParsePublicKey, Record, ServerAuth.FailureMsg, Queries, Failures, Offers,
      Readable;
    var (k, mem) := (Readable(env, signers), ServerAuth.Memory([], []));
    if k < |signers| {
      var cut := signers[..k + 1];
      ReadableCut(env, signers);
      assert Queries(user, cut) + [] == Queries(user, cut) && cut[..k] == signers[..k];
      RefusesNone(env, user, Queries(user, cut));
      var _ := KeysOffered(env, mem, user, cut, []);
      assert Failures(k) + [] == Failures(k);
    } else {
      var last := [KeyboardInteractive.InitiateMsg(user)];
      assert signers[..k] == signers;
      RefusesNone(env, user, Queries(user, signers) + last);
      var mem' := KeysOffered(env, mem, user, signers, last);
      LetsIn(env, mem', user);
    }
  }

  /** The client's first attempt, with "none". */
  lemma AttemptsNone(auths: seq<AuthMethod>, session: Bytes, user: Bytes, more: seq<Bytes>, next: AuthMethod)
    requires next.name == PublicKeyMethod() || next.name == KeyboardInteractive.Method()
    requires FindNext(auths, {Ascii("none")}, ServerAuth.Methods(AppConfig())) == Some(next)
    ensures next.name !in {Ascii("none")}
    ensures var o := Attempts(auths, session, user, next, {Ascii("none")}, ServerAuth.Methods(AppConfig()), more);
            Attempts(auths, session, user, NoneAuth(), {}, [], Failures(1) + more)
            == Outcome(o.result, [NoneMsg(user)] + o.sent, [Ascii("none")] + o.attempts)
  {
    hide Attempts, FindNext, Response, NoneMsg, ServerAuth.FailureMsg, Failures, Ascii, ServerAuth.Methods;
    ServerAuth.MethodNamesDiffer();
    var none := NoneAuth();
    var input := Failures(1) + more;
    FailureIsShort();
    OneFailure();
    FailureParses(AppConfig(), Signer([], [], _ => None), more);
    assert none.auth(session, user, input) == Attempt(Ok((false, Some(ServerAuth.Methods(AppConfig())))), [NoneMsg(user)], 1);
    assert input[1..] == more;
    assert {} + {none.name} == {Ascii("none")};
    NextAttempt(auths, session, user, none, {}, [], input, next);
  }

  function Auths(signers: seq<Signer>, challenge: KeyboardInteractive.Challenge): seq<AuthMethod> {
    [PublicKeysMethod(signers), KeyboardInteractive.KeyboardMethod(challenge)]
  }

  /** Which of the two methods comes next. */
  lemma Order(first: AuthMethod, second: AuthMethod)
    requires {first.name, second.name} == {PublicKeyMethod(), KeyboardInteractive.Method()} && first.name != second.name
    ensures var methods := ServerAuth.Methods(AppConfig());
            && FindNext([first, second], {Ascii("none")}, methods) == Some(first)
            && FindNext([first, second], {Ascii("none"), first.name}, methods) == Some(second)
            && first.name !in {Ascii("none")} && second.name !in {Ascii("none"), first.name}
  {
    hide Ascii, ServerAuth.Methods;
    ServerAuth.MethodNamesDiffer();
    FailureIsShort();
    assert [first, second][1..] == [second];
  }

  /** The server cannot parse one of the keys: the client waits for an answer in vain. */
  lemma ClientEnds(session: Bytes, user: Bytes, signers: seq<Signer>, challenge: KeyboardInteractive.Challenge, k: nat)
    requires k < |signers|
    ensures Attempts(Auths(signers, challenge), session, user, NoneAuth(), {}, [], Failures(1) + Failures(k))
            == Outcome(Err(NoPacket), [NoneMsg(user)] + Queries(user, signers[..k + 1]), [Ascii("none"), PublicKeyMethod()])
  {
    hide Attempts, FindNext, PublicKeyAuth, KeyboardInteractive.Auth, NoneAuth, NoneMsg, Queries, Failures, Ascii, ServerAuth.Methods, Untried, MethodsAfter;
    var (auths, methods, tried) := (Auths(signers, challenge), ServerAuth.Methods(AppConfig()), {Ascii("none")});
    MethodsDiffer();
    Order(auths[0], auths[1]);
    AttemptsNone(auths, session, user, Failures(k), auths[0]);
    KeysRefused(session, user, signers, k, []);
    assert Failures(k) + [] == Failures(k);
    EndingAttempt(auths, session, user, auths[0], tried, methods, Failures(k));
  }

  /** All keys are refused, and keyboard-interactive is next. */
  lemma ClientLetIn(session: Bytes, user: Bytes, signers: seq<Signer>, challenge: KeyboardInteractive.Challenge)
    ensures Attempts(Auths(signers, challenge), session, user, NoneAuth(), {}, [], Failures(1) + (Failures(|signers|) + [ServerAuth.SUCCESS]))
            == Outcome(Ok(()), [NoneMsg(user)] + (Queries(user, signers) + [KeyboardInteractive.InitiateMsg(user)]),
                       [Ascii("none")] + ([PublicKeyMethod()] + [KeyboardInteractive.Method()]))
  {
    hide Attempts, FindNext, PublicKeyAuth, KeyboardInteractive.Auth, NoneAuth, NoneMsg, KeyboardInteractive.InitiateMsg, Queries, Failures, Ascii,
      ServerAuth.Methods, Untried;
    var (auths, methods, tried) := (Auths(signers, challenge), ServerAuth.Methods(AppConfig()), {Ascii("none")});
    var input := Failures(|signers|) + [ServerAuth.SUCCESS];
    MethodsDiffer();
    Order(auths[0], auths[1]);
    AttemptsNone(auths, session, user, input, auths[0]);
    KeysRefused(session, user, signers, |signers|, [ServerAuth.SUCCESS]);
    FailureCount(|signers|);
    assert input[|signers|..] == [ServerAuth.SUCCESS];
    assert tried + {auths[0].name} == {Ascii("none"), auths[0].name};
    NextAttempt(auths, session, user, auths[0], tried, methods, input, auths[1]);
    LetIn(challenge, user);
    EndingAttempt(auths, session, user, auths[1], tried + {auths[0].name}, methods, [ServerAuth.SUCCESS]);
  }

  lemma MethodsDiffer()
    ensures PublicKeyMethod() != KeyboardInteractive.Method()
  {
    hide Ascii;
    ServerAuth.MethodNamesDiffer();
  }

  lemma ClientSide(env: Env, user: Bytes, signers: seq<Signer>, challenge: KeyboardInteractive.Challenge)
    ensures var k := Readable(env, signers);
            var o := Attempts(Auths(signers, challenge), env.session, user, NoneAuth(), {}, [], FromServer(env, signers));
            && o.sent == FromClient(env, user, signers)
            && if k < |signers| then o.result == Err(NoPacket)
               else o.result == Ok(()) && o.attempts == [Ascii("none"), PublicKeyMethod(), KeyboardInteractive.Method()]
  {
    hide Attempts, Auths, NoneAuth, NoneMsg, KeyboardInteractive.InitiateMsg, Queries, Failures, Readable, Ascii;
    var k := Readable(env, signers);
    if k < |signers| {
      ClientEnds(env.session, user, signers, challenge, k);
      assert Failures(k) + [] == Failures(k);
    } else {
      ClientLetIn(env.session, user, signers, challenge);
    }
  }

  /** A client that tries its keys first and then keyboard-interactive, whatever its keys: fed with each other's output, both
      ends succeed if and only if the server can parse every key of an algorithm it knows. It lets the client in without a
      permission bound to a key, nothing has been signed, and its record is that of the keys offered in order, up to the one
      that it cannot parse. */
  lemma EveryKeyIsRecorded(env: Env, user: Bytes, signers: seq<Signer>, challenge: KeyboardInteractive.Challenge)
    requires Fits(user, signers)
    ensures var k := Readable(env, signers);
            var (toServer, toClient) := (FromClient(env, user, signers), FromServer(env, signers));
            var server := ServerAuth.Auth(env, AppConfig(), true, ServerAuth.Memory([], []), toServer);
            var client := Attempts(Auths(signers, challenge), env.session, user, NoneAuth(), {}, [], toClient);
            && server.out == toClient && client.sent == toServer
            && server.calls == Record([], Offers(user, signers[..k]))
            && (server.result.Ok? <==> k == |signers|) && (client.result.Ok? <==> k == |signers|)
            && (k == |signers| ==> server.result.value == ServerAuth.Granted(user, None)
                                   && client.attempts == [Ascii("none"), PublicKeyMethod(), KeyboardInteractive.Method()])
  {
    hide ServerAuth.Auth, Attempts, FromClient, FromServer, Ascii, Record, Readable, Offers, Auths;
    ServerSide(env, user, signers);
    ClientSide(env, user, signers, challenge);
  }

  /** With keyboard-interactive first the client is let in before it has offered a key, and none is recorded. */
  lemma KeyboardFirst(env: Env, user: Bytes, signers: seq<Signer>, challenge: KeyboardInteractive.Challenge)
    requires Fits(user, [])
    ensures var (toServer, toClient) := ([NoneMsg(user), KeyboardInteractive.InitiateMsg(user)], Failures(1) + [ServerAuth.SUCCESS]);
            var server := ServerAuth.Auth(env, AppConfig(), true, ServerAuth.Memory([], []), toServer);
            var client := Attempts([KeyboardInteractive.KeyboardMethod(challenge), PublicKeysMethod(signers)], env.session, user, NoneAuth(), {}, [], toClient);
            && server.out == toClient && client.sent == toServer && server.calls == []
            && server.result == Ok(ServerAuth.Granted(user, None)) && client.result == Ok(())
  {
    hide ServerAuth.Auth, Attempts, FindNext, PublicKeyAuth, KeyboardInteractive.Auth, NoneMsg, KeyboardInteractive.InitiateMsg,
      ServerAuth.FailureMsg, Failures, Ascii, ServerAuth.Methods;
    var auths := [KeyboardInteractive.KeyboardMethod(challenge), PublicKeysMethod(signers)];
    var mem := ServerAuth.Memory([], []);
    assert [NoneMsg(user)] + [KeyboardInteractive.InitiateMsg(user)] == [NoneMsg(user), KeyboardInteractive.InitiateMsg(user)];
    RefusesNone(env, user, [KeyboardInteractive.InitiateMsg(user)]);
    LetsIn(env, mem, user);
    ServerAuth.MethodNamesDiffer();
    Order(auths[0], auths[1]);
    AttemptsNone(auths, env.session, user, [ServerAuth.SUCCESS], auths[0]);
    LetIn(challenge, user);
    EndingAttempt(auths, env.session, user, auths[0], {Ascii("none")}, ServerAuth.Methods(AppConfig()), [ServerAuth.SUCCESS]);
  }

  /** What is recorded is all that is offered, in order, if and only if no offer repeats an earlier one that is among the
      first sixteen. */
  lemma RecordIsOffersIff(offers: seq<Offer>)
    ensures Record([], offers) == offers <==> ServerAuth.AskedOnce(offers)
  {
    hide Record;
    RecordFrom([], offers);
    assert [] + offers == offers;
  }

  lemma {:induction false} RecordFrom(record: seq<Offer>, offers: seq<Offer>)
    requires ServerAuth.AskedOnce(record)
    ensures |Record(record, offers)| <= |record| + |offers|
    ensures Record(record, offers) == record + offers <==> ServerAuth.AskedOnce(record + offers)
    decreases |offers|
  {
    if offers == [] {
      assert record + offers == record;
    } else {
      var (o, rest) := (offers[0], offers[1..]);
      var next := Note(record, o);
      assert record + offers == record + [o] + rest;
      if next == record {
        var i :| 0 <= i < |record| && i < ServerAuth.MAX_CACHED_PUB_KEYS && record[i] == o;
        assert (record + offers)[i] == (record + offers)[|record|];
      }
      RecordFrom(next, rest);
    }
  }
}
