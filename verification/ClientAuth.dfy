/** The client's side of user authentication (client_auth.go; RFC 4252). Packets from the server are a list; each
    authentication method says how many it has read and what it has sent. */
module ClientAuth {
  import opened ByteStrings
  import opened PublicKeys
  import opened Results
  import ServerAuth
  import Wire

  datatype ClientError =
    | NoPacket
    | BadMessage(error: Wire.Error)
    | Unexpected(tag: byte)
    | Disconnected
    | CannotSign
    | NoSupportedMethods
    | PromptFormat
    | ExtraPromptData
    | NoAnswers
    | WrongAnswerCount

  /** What an answer says: whether the attempt has succeeded, and the methods that may continue, None being Go's nil. */
  type Answer = (bool, Option<seq<Bytes>>)

  /** How one attempt ends: an error or an answer; what it has sent, and how many packets it has read. */
  datatype Attempt = Attempt(result: Result<Answer, ClientError>, sent: seq<Bytes>, taken: nat)

  /** The AuthMethod interface: its name, and its auth for a session, a user and the server's packets. */
  datatype AuthMethod = AuthMethod(name: Bytes, auth: (Bytes, Bytes, seq<Bytes>) -> Attempt)

  /** A key pair: the type and encoding of the public key, and Sign. */
  datatype Signer = Signer(algo: Bytes, pubKey: Bytes, sign: Bytes -> Option<Signature>)

  const BANNER: byte := 53
  const DISCONNECT: byte := 1

  function PublicKeyMethod(): Bytes {
    Ascii("publickey")
  }

  function SshConnection(): Bytes {
    Ascii("ssh-connection")
  }

  // ----- handleAuthResponse -----

  /** The answer to a request, after any banners, in which an empty list of methods is not nil; and the number of packets read. */
  function Response(input: seq<Bytes>): (Result<Answer, ClientError>, nat)
    decreases |input|
  {
    if input == [] || input[0] == [] then (Err(NoPacket), 0)
    else if input[0][0] == BANNER then
      var (r, n) := Response(input[1..]);
      (r, n + 1)
    else if input[0][0] == 51 then
      match Wire.UnmarshalSpec(ServerAuth.USER_AUTH_FAILURE, input[0])
      case Err(e) => (Err(BadMessage(e)), 1)
      case Ok(v) => (Ok((false, Some(if v != [] && v[0].VNames? then v[0].names else []))), 1)
    else if input[0][0] == 52 then (Ok((true, None)), 1)
    else if input[0][0] == DISCONNECT then (Err(Disconnected), 1)
    else (Err(Unexpected(input[0][0])), 1)
  }

  lemma {:induction false} ResponseTakes(input: seq<Bytes>)
    ensures Response(input).1 <= |input|
    decreases |input|
  {
    if input != [] && input[0] != [] && input[0][0] == BANNER {
      ResponseTakes(input[1..]);
    }
  }

  method HandleAuthResponse(input: seq<Bytes>) returns (r: Result<Answer, ClientError>, n: nat)
    ensures (r, n) == Response(input)
  {
    n := 0;
    while true
      invariant n <= |input|
      invariant Response(input) == (Response(input[n..]).0, Response(input[n..]).1 + n)
      decreases |input| - n
    {
      if n == |input| || |input[n]| == 0 {
        return Err(NoPacket), n;
      }
      var packet := input[n];
      assert input[n..][0] == packet && input[n..][1..] == input[n + 1..];
      if packet[0] == BANNER {
        n := n + 1;
      } else if packet[0] == 51 {
        var msg := Wire.Unmarshal(ServerAuth.USER_AUTH_FAILURE, packet);
        if msg.Err? {
          return Err(BadMessage(msg.error)), n + 1;
        }
        return Ok((false, Some(if |msg.value| > 0 && msg.value[0].VNames? then msg.value[0].names else []))), n + 1;
      } else if packet[0] == 52 {
        return Ok((true, None)), n + 1;
      } else if packet[0] == DISCONNECT {
        return Err(Disconnected), n + 1;
      } else {
        return Err(Unexpected(packet[0])), n + 1;
      }
    }
  }

  // ----- publickey -----

  /** confirmKeyAck: only an acknowledgement of this very algorithm and key counts. */
  function KeyAck(signer: Signer, input: seq<Bytes>): (Result<bool, ClientError>, nat)
    decreases |input|
  {
    if input == [] || input[0] == [] then (Err(NoPacket), 0)
    else if input[0][0] == BANNER then
      var (r, n) := KeyAck(signer, input[1..]);
      (r, n + 1)
    else if input[0][0] == 60 then
      match Wire.UnmarshalSpec(ServerAuth.PUB_KEY_OK, input[0])
      case Err(e) => (Err(BadMessage(e)), 1)
      case Ok(v) => (Ok(v == [Wire.VString(signer.algo), Wire.VBytes(signer.pubKey)]), 1)
    else if input[0][0] == 51 then (Ok(false), 1)
    else (Err(Unexpected(input[0][0])), 1)
  }

  method ConfirmKeyAck(signer: Signer, input: seq<Bytes>) returns (r: Result<bool, ClientError>, n: nat)
    ensures (r, n) == KeyAck(signer, input) && n <= |input|
  {
    n := 0;
    while true
      invariant n <= |input|
      invariant KeyAck(signer, input) == (KeyAck(signer, input[n..]).0, KeyAck(signer, input[n..]).1 + n)
      decreases |input| - n
    {
      if n == |input| || |input[n]| == 0 {
        return Err(NoPacket), n;
      }
      var packet := input[n];
      assert input[n..][0] == packet && input[n..][1..] == input[n + 1..];
      if packet[0] == BANNER {
        n := n + 1;
      } else if packet[0] == 60 {
        var msg := Wire.Unmarshal(ServerAuth.PUB_KEY_OK, packet);
        if msg.Err? {
          return Err(BadMessage(msg.error)), n + 1;
        }
        return Ok(msg.value == [Wire.VString(signer.algo), Wire.VBytes(signer.pubKey)]), n + 1;
      } else if packet[0] == 51 {
        return Ok(false), n + 1;
      } else {
        return Err(Unexpected(packet[0])), n + 1;
      }
    }
  }

  lemma {:induction false} KeyAckTakes(signer: Signer, input: seq<Bytes>)
    ensures KeyAck(signer, input).1 <= |input|
    decreases |input|
  {
    if input != [] && input[0] != [] && input[0][0] == BANNER {
      KeyAckTakes(signer, input[1..]);
    }
  }

  const PUBLIC_KEY_MSG := Wire.Schema(50, [Wire.KString, Wire.KString, Wire.KString, Wire.KBool, Wire.KString, Wire.KBytes, Wire.KRest])

  /** publickeyAuthMsg; sig is empty in a query. */
  function PublicKeyMsg(user: Bytes, signer: Signer, hasSig: bool, sig: Bytes): Bytes {
    Wire.MarshalSpec(PUBLIC_KEY_MSG, [Wire.VString(user), Wire.VString(SshConnection()), Wire.VString(PublicKeyMethod()), Wire.VBool(hasSig),
                                      Wire.VString(signer.algo), Wire.VBytes(signer.pubKey), Wire.VRest(sig)])
  }

  function QueryMsg(user: Bytes, signer: Signer): Bytes {
    PublicKeyMsg(user, signer, false, [])
  }

  /** What a signer signs. */
  function SignedData(session: Bytes, user: Bytes, signer: Signer): Bytes {
    Wire.BuildDataSignedForAuth(session, user, SshConnection(), PublicKeyMethod(), signer.algo, signer.pubKey)
  }

  function ProofMsg(user: Bytes, signer: Signer, sig: Signature): Bytes {
    PublicKeyMsg(user, signer, true, Wire.EncodeString(MarshalSignature(sig)))
  }

  /** The first stage of publicKeyCallback.auth, for the signers not yet asked about: those the server has acknowledged. */
  datatype Stage = Stage(result: Result<seq<Signer>, ClientError>, sent: seq<Bytes>, taken: nat)

  function Validate(user: Bytes, signers: seq<Signer>, input: seq<Bytes>): Stage {
    if signers == [] then Stage(Ok([]), [], 0)
    else
      var (ok, n) := KeyAck(signers[0], input);
      match ok
      case Err(e) => Stage(Err(e), [QueryMsg(user, signers[0])], n)
      case Ok(b) =>
        var s := Validate(user, signers[1..], if n <= |input| then input[n..] else []);
        Stage(if b && s.result.Ok? then Ok([signers[0]] + s.result.value) else s.result, [QueryMsg(user, signers[0])] + s.sent, n + s.taken)
  }

  /** The second stage, with the methods of the last answer so far. */
  function Prove(session: Bytes, user: Bytes, signers: seq<Signer>, methods: Option<seq<Bytes>>, input: seq<Bytes>): Attempt {
    if signers == [] then Attempt(Ok((false, methods)), [], 0)
    else
      match signers[0].sign(SignedData(session, user, signers[0]))
      case None => Attempt(Err(CannotSign), [], 0)
      case Some(sig) =>
        var (r, n) := Response(input);
        var msg := ProofMsg(user, signers[0], sig);
        match r
        case Err(e) => Attempt(Err(e), [msg], n)
        case Ok((success, ms)) =>
          if success then Attempt(Ok((true, ms)), [msg], n)
          else
            var a := Prove(session, user, signers[1..], ms, if n <= |input| then input[n..] else []);
            Attempt(a.result, [msg] + a.sent, n + a.taken)
  }

  /** publicKeyCallback.auth. */
  function PublicKeyAuth(signers: seq<Signer>, session: Bytes, user: Bytes, input: seq<Bytes>): Attempt {
    var s := Validate(user, signers, input);
    match s.result
    case Err(e) => Attempt(Err(e), s.sent, s.taken)
    case Ok(valid) =>
      var a := Prove(session, user, valid, None, if s.taken <= |input| then input[s.taken..] else []);
      Attempt(a.result, s.sent + a.sent, s.taken + a.taken)
  }

  function PublicKeysMethod(signers: seq<Signer>): AuthMethod {
    AuthMethod(PublicKeyMethod(), (session, user, input) => PublicKeyAuth(signers, session, user, input))
  }

  /** What a stage comes to with what came before it. */
  function Ahead(valid: seq<Signer>, sent: seq<Bytes>, taken: nat, s: Stage): Stage {
    Stage(if s.result.Ok? then Ok(valid + s.result.value) else s.result, sent + s.sent, taken + s.taken)
  }

  lemma AheadNothing(s: Stage)
    ensures Ahead([], [], 0, s) == s
  {
    assert [] + s.sent == s.sent;
    if s.result.Ok? {
      assert [] + s.result.value == s.result.value;
    }
  }

  lemma AheadTwice(v: seq<Signer>, t: seq<Bytes>, n: nat, v': seq<Signer>, t': seq<Bytes>, n': nat, s: Stage)
    ensures Ahead(v, t, n, Ahead(v', t', n', s)) == Ahead(v + v', t + t', n + n', s)
  {
    assert t + (t' + s.sent) == t + t' + s.sent;
    if s.result.Ok? {
      assert v + (v' + s.result.value) == v + v' + s.result.value;
    }
  }

  lemma ValidateUnfolds(user: Bytes, signers: seq<Signer>, input: seq<Bytes>, i: nat, taken: nat)
    requires i < |signers| && taken <= |input|
    ensures var (ok, n) := KeyAck(signers[i], input[taken..]);
            n <= |input| - taken &&
            Validate(user, signers[i..], input[taken..]) ==
            if ok.Err? then Stage(Err(ok.error), [QueryMsg(user, signers[i])], n)
            else Ahead(if ok.value then [signers[i]] else [], [QueryMsg(user, signers[i])], n, Validate(user, signers[i + 1..], input[taken + n..]))
  {
    hide KeyAck, QueryMsg;
    var tail := signers[i..];
    assert tail[1..] == signers[i + 1..];
    KeyAckTakes(signers[i], input[taken..]);
    var n := KeyAck(signers[i], input[taken..]).1;
    assert input[taken..][n..] == input[taken + n..];
    var s := Validate(user, signers[i + 1..], input[taken + n..]);
    if s.result.Ok? {
      assert [] + s.result.value == s.result.value;
    }
  }

  /** The first loop of publicKeyCallback.auth. */
  method RunQueries(user: Bytes, signers: seq<Signer>, input: seq<Bytes>) returns (s: Stage)
    ensures s == Validate(user, signers, input) && (s.result.Ok? ==> s.taken <= |input|)
  {
    hide KeyAck, QueryMsg, Ahead, Validate;
    var sent: seq<Bytes>, taken: nat, valid: seq<Signer> := [], 0, [];
    ghost var all := Validate(user, signers, input);
    assert signers[0..] == signers && input[0..] == input;
    AheadNothing(all);
    for i := 0 to |signers|
      invariant taken <= |input|
      invariant all == Ahead(valid, sent, taken, Validate(user, signers[i..], input[taken..]))
    {
      ValidateUnfolds(user, signers, input, i, taken);
      var ok, n := ConfirmKeyAck(signers[i], input[taken..]);
      ghost var rest := Validate(user, signers[i + 1..], input[taken + n..]);
      if ok.Err? {
        s := Stage(Err(ok.error), sent + [QueryMsg(user, signers[i])], taken + n);
        AheadOfError(valid, sent, taken, ok.error, [QueryMsg(user, signers[i])], n);
        return;
      }
      var new' := if ok.value then [signers[i]] else [];
      AheadTwice(valid, sent, taken, new', [QueryMsg(user, signers[i])], n, rest);
      valid := valid + new';
      sent := sent + [QueryMsg(user, signers[i])];
      taken := taken + n;
    }
    s := Stage(Ok(valid), sent, taken);
    AheadOfNobody(valid, sent, taken, user, signers[|signers|..], input[taken..]);
  }

  lemma AheadOfError(v: seq<Signer>, t: seq<Bytes>, n: nat, e: ClientError, t': seq<Bytes>, n': nat)
    ensures Ahead(v, t, n, Stage(Err(e), t', n')) == Stage(Err(e), t + t', n + n')
  {
  }

  lemma AheadOfNobody(v: seq<Signer>, t: seq<Bytes>, n: nat, user: Bytes, signers: seq<Signer>, input: seq<Bytes>)
    requires signers == []
    ensures Ahead(v, t, n, Validate(user, signers, input)) == Stage(Ok(v), t, n)
  {
    assert v + [] == v && t + [] == t;
  }

  /** publicKeyCallback.auth: its two loops. */
  method RunPublicKeyAuth(signers: seq<Signer>, session: Bytes, user: Bytes, input: seq<Bytes>) returns (a: Attempt)
    ensures a == PublicKeyAuth(signers, session, user, input)
  {
    hide Validate, Prove;
    var s := RunQueries(user, signers, input);
    if s.result.Err? {
      return Attempt(Err(s.result.error), s.sent, s.taken);
    }
    a := RunProofs(session, user, s.result.value, input[s.taken..]);
    a := Attempt(a.result, s.sent + a.sent, s.taken + a.taken);
  }

  /** An attempt with what was sent and read before it. */
  function Following(sent: seq<Bytes>, taken: nat, a: Attempt): Attempt {
    Attempt(a.result, sent + a.sent, taken + a.taken)
  }

  lemma FollowingTwice(t: seq<Bytes>, n: nat, t': seq<Bytes>, n': nat, a: Attempt)
    ensures Following(t, n, Following(t', n', a)) == Following(t + t', n + n', a)
    ensures Following([], 0, a) == a
  {
    assert t + (t' + a.sent) == t + t' + a.sent;
    assert [] + a.sent == a.sent;
  }

  lemma ProveUnfolds(session: Bytes, user: Bytes, valid: seq<Signer>, methods: Option<seq<Bytes>>, input: seq<Bytes>, i: nat, taken: nat)
    requires i < |valid| && taken <= |input|
    ensures var sig := valid[i].sign(SignedData(session, user, valid[i]));
            var (r, n) := Response(input[taken..]);
            n <= |input| - taken &&
            Prove(session, user, valid[i..], methods, input[taken..]) ==
            if sig.None? then Attempt(Err(CannotSign), [], 0)
            else if r.Err? || r.value.0 then Attempt(r, [ProofMsg(user, valid[i], sig.value)], n)
            else Following([ProofMsg(user, valid[i], sig.value)], n, Prove(session, user, valid[i + 1..], r.value.1, input[taken + n..]))
  {
    hide Response, ProofMsg, SignedData;
    assert valid[i..][1..] == valid[i + 1..];
    ResponseTakes(input[taken..]);
    var n := Response(input[taken..]).1;
    assert input[taken..][n..] == input[taken + n..];
  }

  lemma ProveNobody(session: Bytes, user: Bytes, valid: seq<Signer>, methods: Option<seq<Bytes>>, input: seq<Bytes>, sent: seq<Bytes>, taken: nat)
    requires valid == []
    ensures Following(sent, taken, Prove(session, user, valid, methods, input)) == Attempt(Ok((false, methods)), sent, taken)
  {
    assert sent + [] == sent;
  }

  /** The second loop of publicKeyCallback.auth. */
  method RunProofs(session: Bytes, user: Bytes, valid: seq<Signer>, input: seq<Bytes>) returns (a: Attempt)
    ensures a == Prove(session, user, valid, None, input)
  {
    hide Response, ProofMsg, SignedData, Prove, Following;
    var sent: seq<Bytes>, taken: nat, methods: Option<seq<Bytes>> := [], 0, None;
    ghost var all := Prove(session, user, valid, None, input);
    assert valid[0..] == valid && input[0..] == input;
    FollowingTwice([], 0, [], 0, all);
    for i := 0 to |valid|
      invariant taken <= |input|
      invariant all == Following(sent, taken, Prove(session, user, valid[i..], methods, input[taken..]))
    {
      ProveUnfolds(session, user, valid, methods, input, i, taken);
      var sig := valid[i].sign(SignedData(session, user, valid[i]));
      if sig.None? {
        FollowingIs(sent, taken, Attempt(Err(CannotSign), [], 0));
        return Attempt(Err(CannotSign), sent + [], taken + 0);
      }
      var msg := ProofMsg(user, valid[i], sig.value);
      var r, n := HandleAuthResponse(input[taken..]);
      if r.Err? || r.value.0 {
        FollowingIs(sent, taken, Attempt(r, [msg], n));
        return Attempt(r, sent + [msg], taken + n);
      }
      FollowingTwice(sent, taken, [msg], n, Prove(session, user, valid[i + 1..], r.value.1, input[taken + n..]));
      sent := sent + [msg];
      taken := taken + n;
      methods := r.value.1;
    }
    ProveNobody(session, user, valid[|valid|..], methods, input[taken..], sent, taken);
    a := Attempt(Ok((false, methods)), sent, taken);
  }

  lemma FollowingIs(sent: seq<Bytes>, taken: nat, a: Attempt)
    ensures Following(sent, taken, a) == Attempt(a.result, sent + a.sent, taken + a.taken)
  {
  }

  // ----- the loop over the methods -----

  /** Some name in methods is this one. */
  function FindNext(auths: seq<AuthMethod>, tried: set<Bytes>, methods: seq<Bytes>): Option<AuthMethod> {
    if auths == [] then None
    else if auths[0].name !in tried && auths[0].name in methods then Some(auths[0])
    else FindNext(auths[1..], tried, methods)
  }

  lemma {:induction false} FindNextMeans(auths: seq<AuthMethod>, tried: set<Bytes>, methods: seq<Bytes>)
    ensures var r := FindNext(auths, tried, methods);
            && (r.Some? ==> exists i | 0 <= i < |auths| ::
                  && auths[i] == r.value && r.value.name !in tried && r.value.name in methods
                  && forall j | 0 <= j < i :: auths[j].name in tried || auths[j].name !in methods)
            && (r.None? ==> forall i | 0 <= i < |auths| :: auths[i].name in tried || auths[i].name !in methods)
  {
    if auths != [] && !(auths[0].name !in tried && auths[0].name in methods) {
      var t := auths[1..];
      FindNextMeans(t, tried, methods);
      var r := FindNext(t, tried, methods);
      if r.Some? {
        var i :| 0 <= i < |t| && t[i] == r.value && forall j | 0 <= j < i :: t[j].name in tried || t[j].name !in methods;
        assert auths[i + 1] == t[i];
      }
    }
  }

  /** The two inner loops of clientAuthenticate. */
  method NextMethod(auths: seq<AuthMethod>, tried: set<Bytes>, methods: seq<Bytes>) returns (r: Option<AuthMethod>)
    ensures r == FindNext(auths, tried, methods)
  {
    for i := 0 to |auths|
      invariant FindNext(auths, tried, methods) == FindNext(auths[i..], tried, methods)
    {
      assert auths[i..][0] == auths[i] && auths[i..][1..] == auths[i + 1..];
      if auths[i].name in tried {
        continue;
      }
      for j := 0 to |methods|
        invariant forall k | 0 <= k < j :: methods[k] != auths[i].name
      {
        if methods[j] == auths[i].name {
          return Some(auths[i]);
        }
      }
    }
    return None;
  }

  /** How clientAuthenticate ends, what it has sent, and the names of the methods it has attempted. */
  datatype Outcome = Outcome(result: Result<(), ClientError>, sent: seq<Bytes>, attempts: seq<Bytes>)

  function Names(auths: seq<AuthMethod>): set<Bytes> {
    set i | 0 <= i < |auths| :: auths[i].name
  }

  /** The methods still open to the loop when it is about to attempt auth. */
  function Untried(auths: seq<AuthMethod>, tried: set<Bytes>, auth: AuthMethod): nat {
    |Names(auths) - tried| + if auth.name in Names(auths) then 0 else 1
  }

  lemma FewerUntried(auths: seq<AuthMethod>, tried: set<Bytes>, auth: AuthMethod, methods: seq<Bytes>)
    requires auth.name !in tried && FindNext(auths, tried + {auth.name}, methods).Some?
    ensures var next := FindNext(auths, tried + {auth.name}, methods).value;
            && next.name !in tried + {auth.name} && next.name in Names(auths)
            && Untried(auths, tried + {auth.name}, next) < Untried(auths, tried, auth)
  {
    FindNextMeans(auths, tried + {auth.name}, methods);
    var rest := Names(auths) - tried;
    if auth.name in Names(auths) {
      assert Names(auths) - (tried + {auth.name}) == rest - {auth.name};
      assert auth.name in rest;
    } else {
      assert Names(auths) - (tried + {auth.name}) == rest;
    }
  }

  /** The loop of clientAuthenticate, about to attempt auth. */
  function Attempts(auths: seq<AuthMethod>, session: Bytes, user: Bytes, auth: AuthMethod, tried: set<Bytes>, last: seq<Bytes>,
                    input: seq<Bytes>): Outcome
    requires auth.name !in tried
    decreases Untried(auths, tried, auth)
  {
    var a := auth.auth(session, user, input);
    match a.result
    case Err(e) => Outcome(Err(e), a.sent, [auth.name])
    case Ok((true, _)) => Outcome(Ok(()), a.sent, [auth.name])
    case Ok((false, ms)) =>
      var methods := if ms.None? then last else ms.value;
      match FindNext(auths, tried + {auth.name}, methods)
      case None => Outcome(Err(NoSupportedMethods), a.sent, [auth.name])
      case Some(next) =>
        FewerUntried(auths, tried, auth, methods);
        var o := Attempts(auths, session, user, next, tried + {auth.name}, methods, if a.taken <= |input| then input[a.taken..] else []);
        Outcome(o.result, a.sent + o.sent, [auth.name] + o.attempts)
  }

  function NoneMsg(user: Bytes): Bytes {
    Wire.MarshalSpec(ServerAuth.USER_AUTH_REQUEST, [Wire.VString(user), Wire.VString(SshConnection()), Wire.VString(Ascii("none")), Wire.VRest([])])
  }

  function NoneAuth(): AuthMethod {
    AuthMethod(Ascii("none"), (session, user, input) => Attempt(Response(input).0, [NoneMsg(user)], Response(input).1))
  }

  /** The methods after an attempt: those of its answer, or the last ones if the answer has none. */
  function MethodsAfter(a: Attempt, last: seq<Bytes>): seq<Bytes>
    requires a.result.Ok?
  {
    if a.result.value.1.None? then last else a.result.value.1.value
  }

  /** One round that leads to another attempt. */
  lemma NextAttempt(auths: seq<AuthMethod>, session: Bytes, user: Bytes, auth: AuthMethod, tried: set<Bytes>, last: seq<Bytes>,
                    input: seq<Bytes>, next: AuthMethod)
    requires auth.name !in tried
    requires var a := auth.auth(session, user, input);
             a.result.Ok? && !a.result.value.0 && FindNext(auths, tried + {auth.name}, MethodsAfter(a, last)) == Some(next)
    ensures next.name !in tried + {auth.name} && Untried(auths, tried + {auth.name}, next) < Untried(auths, tried, auth)
    ensures var a := auth.auth(session, user, input);
            var left := if a.taken <= |input| then input[a.taken..] else [];
            var o := Attempts(auths, session, user, next, tried + {auth.name}, MethodsAfter(a, last), left);
            Attempts(auths, session, user, auth, tried, last, input) == Outcome(o.result, a.sent + o.sent, [auth.name] + o.attempts)
  {
    hide FindNext, Untried;
    FewerUntried(auths, tried, auth, MethodsAfter(auth.auth(session, user, input), last));
  }

  /** And one that ends it. */
  lemma EndingAttempt(auths: seq<AuthMethod>, session: Bytes, user: Bytes, auth: AuthMethod, tried: set<Bytes>, last: seq<Bytes>, input: seq<Bytes>)
    requires auth.name !in tried
    requires var a := auth.auth(session, user, input);
             a.result.Ok? && !a.result.value.0 ==> FindNext(auths, tried + {auth.name}, MethodsAfter(a, last)).None?
    ensures var a := auth.auth(session, user, input);
            Attempts(auths, session, user, auth, tried, last, input) ==
            Outcome(if a.result.Err? then Err(a.result.error) else if a.result.value.0 then Ok(()) else Err(NoSupportedMethods), a.sent, [auth.name])
  {
    hide FindNext, Untried;
  }

  /** clientAuthenticate after the service has been accepted. */
  method ClientAuthenticate(auths: seq<AuthMethod>, session: Bytes, user: Bytes, input: seq<Bytes>)
    returns (result: Result<(), ClientError>, sent: seq<Bytes>, attempts: seq<Bytes>)
    ensures Outcome(result, sent, attempts) == Attempts(auths, session, user, NoneAuth(), {}, [], input)
  {
    hide Untried, FindNext, NoneAuth, Names, Attempts;
    var auth := NoneAuth();
    var tried: set<Bytes>, last: seq<Bytes>, left := {}, [], input;
    sent, attempts := [], [];
    ghost var all := Attempts(auths, session, user, auth, tried, last, left);
    while true
      invariant auth.name !in tried
      invariant var o := Attempts(auths, session, user, auth, tried, last, left);
                all == Outcome(o.result, sent + o.sent, attempts + o.attempts)
      decreases Untried(auths, tried, auth)
    {
      var a := auth.auth(session, user, left);
      sent := sent + a.sent;
      attempts := attempts + [auth.name];
      if a.result.Err? {
        EndingAttempt(auths, session, user, auth, tried, last, left);
        return Err(a.result.error), sent, attempts;
      }
      if a.result.value.0 {
        EndingAttempt(auths, session, user, auth, tried, last, left);
        return Ok(()), sent, attempts;
      }
      var methods := last;
      if a.result.value.1.Some? {
        methods := a.result.value.1.value;
      }
      var next := NextMethod(auths, tried + {auth.name}, methods);
      if next.None? {
        EndingAttempt(auths, session, user, auth, tried, last, left);
        return Err(NoSupportedMethods), sent, attempts;
      }
      NextAttempt(auths, session, user, auth, tried, last, left, next.value);
      left := if a.taken <= |left| then left[a.taken..] else [];
      last := methods;
      tried := tried + {auth.name};
      auth := next.value;
    }
  }

  // ----- results -----

  lemma {:induction false} AttemptsDistinct(auths: seq<AuthMethod>, session: Bytes, user: Bytes, auth: AuthMethod, tried: set<Bytes>,
                                            last: seq<Bytes>, input: seq<Bytes>)
    requires auth.name !in tried
    ensures var t := Attempts(auths, session, user, auth, tried, last, input).attempts;
            && t != [] && t[0] == auth.name && (forall i | 0 <= i < |t| :: t[i] !in tried)
            && (forall i, j | 0 <= i < j < |t| :: t[i] != t[j])
            && (forall i | 0 < i < |t| :: t[i] in Names(auths))
            && |t| <= Untried(auths, tried, auth)
    decreases Untried(auths, tried, auth)
  {
    var a := auth.auth(session, user, input);
    if a.result.Ok? && !a.result.value.0 {
      var methods := if a.result.value.1.None? then last else a.result.value.1.value;
      if FindNext(auths, tried + {auth.name}, methods).Some? {
        FewerUntried(auths, tried, auth, methods);
        var next := FindNext(auths, tried + {auth.name}, methods).value;
        AttemptsDistinct(auths, session, user, next, tried + {auth.name}, methods, if a.taken <= |input| then input[a.taken..] else []);
      }
    }
    UntriedPositive(auths, tried, auth);
  }

  lemma UntriedPositive(auths: seq<AuthMethod>, tried: set<Bytes>, auth: AuthMethod)
    requires auth.name !in tried
    ensures Untried(auths, tried, auth) >= 1
  {
    if auth.name in Names(auths) {
      assert auth.name in Names(auths) - tried;
    }
  }

  /** The client attempts "none" first, every further method is one of its own, none is attempted twice, and so there
      are at most as many attempts as it has methods, and one more. */
  lemma EachMethodOnce(auths: seq<AuthMethod>, session: Bytes, user: Bytes, input: seq<Bytes>)
    ensures var t := Attempts(auths, session, user, NoneAuth(), {}, [], input).attempts;
            && t != [] && t[0] == Ascii("none") && (forall i | 0 < i < |t| :: t[i] in Names(auths))
            && (forall i, j | 0 <= i < j < |t| :: t[i] != t[j]) && |t| <= |Names(auths)| + 1
  {
    hide Attempts, Names;
    AttemptsDistinct(auths, session, user, NoneAuth(), {}, [], input);
    assert Names(auths) - {} == Names(auths);
  }

  /** A failure message without methods ends it: an empty list is not nil, and leaves nothing to attempt. */
  lemma EmptyListEnds(auths: seq<AuthMethod>, session: Bytes, user: Bytes, auth: AuthMethod, tried: set<Bytes>, last: seq<Bytes>,
                      input: seq<Bytes>)
    requires auth.name !in tried && auth.auth(session, user, input).result == Ok((false, Some([])))
    ensures Attempts(auths, session, user, auth, tried, last, input)
            == Outcome(Err(NoSupportedMethods), auth.auth(session, user, input).sent, [auth.name])
  {
    FindNextMeans(auths, tried + {auth.name}, []);
  }

  /** The packets read before the answer to the i-th query. */
  function Offset(signers: seq<Signer>, input: seq<Bytes>, i: nat): (r: nat)
    requires i <= |signers|
    ensures r <= |input|
  {
    if i == 0 then 0
    else
      var at := Offset(signers, input, i - 1);
      KeyAckTakes(signers[i - 1], input[at..]);
      at + KeyAck(signers[i - 1], input[at..]).1
  }

  lemma {:induction false} OffsetTail(signers: seq<Signer>, input: seq<Bytes>, i: nat)
    requires 0 < i <= |signers|
    ensures KeyAck(signers[0], input).1 <= |input|
    ensures var n := KeyAck(signers[0], input).1; Offset(signers, input, i) == n + Offset(signers[1..], input[n..], i - 1)
    ensures input[Offset(signers, input, i)..] == input[KeyAck(signers[0], input).1..][Offset(signers[1..], input[KeyAck(signers[0], input).1..], i - 1)..]
  {
    hide KeyAck;
    KeyAckTakes(signers[0], input);
    assert input[0..] == input;
    if i == 1 {
      assert Offset(signers, input, 1) == Offset(signers, input, 0) + KeyAck(signers[0], input[Offset(signers, input, 0)..]).1;
    } else {
      OffsetTail(signers, input, i - 1);
    }
  }

  /** The server has acknowledged the i-th key, in its answer to the query for that key. */
  predicate Acknowledged(signers: seq<Signer>, input: seq<Bytes>, i: nat)
    requires i < |signers|
  {
    KeyAck(signers[i], input[Offset(signers, input, i)..]).0 == Ok(true)
  }

  /** The first stage sends a query for every key, in order, and keeps exactly the keys whose own query was acknowledged. */
  lemma {:induction false} ValidatedIff(user: Bytes, signers: seq<Signer>, input: seq<Bytes>)
    ensures var s := Validate(user, signers, input);
            s.result.Ok? ==>
              && s.taken == Offset(signers, input, |signers|)
              && |s.sent| == |signers| && (forall i | 0 <= i < |signers| :: s.sent[i] == QueryMsg(user, signers[i]))
              && (forall v :: v in s.result.value <==> exists i | 0 <= i < |signers| :: signers[i] == v && Acknowledged(signers, input, i))
    decreases |signers|
  {
    hide KeyAck, QueryMsg, Offset;
    if signers == [] {
      assert Offset(signers, input, 0) == 0 by { NoOffset(signers, input); }
    } else {
      var (ok, n) := KeyAck(signers[0], input);
      KeyAckTakes(signers[0], input);
      var (t, rest) := (signers[1..], input[n..]);
      ValidatedIff(user, t, rest);
      NoOffset(signers, input);
      forall i | 0 < i <= |signers| ensures Offset(signers, input, i) == n + Offset(t, rest, i - 1) {
        OffsetTail(signers, input, i);
      }
      var s := Validate(user, signers, input);
      if s.result.Ok? {
        KeptTail(signers, input, s.result.value, Validate(user, t, rest).result.value);
      }
    }
  }

  lemma NoOffset(signers: seq<Signer>, input: seq<Bytes>)
    ensures Offset(signers, input, 0) == 0 && input[0..] == input
  {
  }

  lemma KeptTail(signers: seq<Signer>, input: seq<Bytes>, kept: seq<Signer>, tail: seq<Signer>)
    requires signers != [] && KeyAck(signers[0], input).1 <= |input|
    requires kept == if KeyAck(signers[0], input).0 == Ok(true) then [signers[0]] + tail else tail
    requires var (t, rest) := (signers[1..], input[KeyAck(signers[0], input).1..]);
             forall v :: v in tail <==> exists i | 0 <= i < |t| :: t[i] == v && Acknowledged(t, rest, i)
    ensures forall v :: v in kept <==> exists i | 0 <= i < |signers| :: signers[i] == v && Acknowledged(signers, input, i)
  {
    hide KeyAck, Offset, Acknowledged;
    var (t, rest) := (signers[1..], input[KeyAck(signers[0], input).1..]);
    FirstAcknowledged(signers, input);
    forall i | 0 <= i < |t| ensures Acknowledged(signers, input, i + 1) <==> Acknowledged(t, rest, i) {
      TailAcknowledged(signers, input, i);
    }
    forall v ensures v in kept <==> exists i | 0 <= i < |signers| :: signers[i] == v && Acknowledged(signers, input, i) {
      if v in tail {
        var i :| 0 <= i < |t| && t[i] == v && Acknowledged(t, rest, i);
        assert signers[i + 1] == v && Acknowledged(signers, input, i + 1);
      }
      if i :| 0 <= i < |signers| && signers[i] == v && Acknowledged(signers, input, i) {
        if i > 0 {
          assert t[i - 1] == v && Acknowledged(t, rest, i - 1);
        }
      }
    }
  }

  lemma FirstAcknowledged(signers: seq<Signer>, input: seq<Bytes>)
    requires signers != []
    ensures Acknowledged(signers, input, 0) <==> KeyAck(signers[0], input).0 == Ok(true)
  {
    hide KeyAck;
    NoOffset(signers, input);
  }

  lemma TailAcknowledged(signers: seq<Signer>, input: seq<Bytes>, i: nat)
    requires signers != [] && i < |signers| - 1 && KeyAck(signers[0], input).1 <= |input|
    ensures Acknowledged(signers, input, i + 1) <==> Acknowledged(signers[1..], input[KeyAck(signers[0], input).1..], i)
  {
    hide KeyAck, Offset;
    OffsetTail(signers, input, i + 1);
  }

  predicate IsQuery(user: Bytes, signers: seq<Signer>, m: Bytes) {
    exists i | 0 <= i < |signers| :: m == QueryMsg(user, signers[i])
  }

  predicate IsProofBy(session: Bytes, user: Bytes, signer: Signer, m: Bytes) {
    var sig := signer.sign(SignedData(session, user, signer));
    sig.Some? && m == ProofMsg(user, signer, sig.value)
  }

  lemma {:induction false} QueriesSent(user: Bytes, signers: seq<Signer>, input: seq<Bytes>)
    ensures forall m | m in Validate(user, signers, input).sent :: IsQuery(user, signers, m)
    decreases |signers|
  {
    hide KeyAck, QueryMsg;
    if signers != [] {
      var n := KeyAck(signers[0], input).1;
      var rest := if n <= |input| then input[n..] else [];
      QueriesSent(user, signers[1..], rest);
      forall m | m in Validate(user, signers, input).sent ensures IsQuery(user, signers, m) {
        if m in Validate(user, signers[1..], rest).sent {
          var i :| 0 <= i < |signers[1..]| && m == QueryMsg(user, signers[1..][i]);
          assert m == QueryMsg(user, signers[i + 1]);
        } else {
          assert m == QueryMsg(user, signers[0]);
        }
      }
    }
  }

  lemma {:induction false} ProofsSent(session: Bytes, user: Bytes, valid: seq<Signer>, methods: Option<seq<Bytes>>, input: seq<Bytes>)
    ensures forall m | m in Prove(session, user, valid, methods, input).sent :: exists v | v in valid :: IsProofBy(session, user, v, m)
    decreases |valid|
  {
    hide Response, ProofMsg, SignedData;
    if valid != [] && valid[0].sign(SignedData(session, user, valid[0])).Some? {
      var (r, n) := Response(input);
      if r.Ok? {
        ProofsSent(session, user, valid[1..], r.value.1, if n <= |input| then input[n..] else []);
      }
      var sig := valid[0].sign(SignedData(session, user, valid[0])).value;
      assert IsProofBy(session, user, valid[0], ProofMsg(user, valid[0], sig));
    }
  }

  /** The second stage goes on from one key to the next for as long as the answers are failures: it ends without success only when
      every key has been proved, in order, and with success after the proof that was answered so. */
  lemma {:induction false} ProvesInOrder(session: Bytes, user: Bytes, valid: seq<Signer>, methods: Option<seq<Bytes>>, input: seq<Bytes>)
    ensures var a := Prove(session, user, valid, methods, input);
            && |a.sent| <= |valid| && (forall i | 0 <= i < |a.sent| :: IsProofBy(session, user, valid[i], a.sent[i]))
            && (a.result.Ok? && !a.result.value.0 ==> |a.sent| == |valid|)
            && (a.result.Ok? && a.result.value.0 ==> a.sent != [])
    decreases |valid|
  {
    hide Response, ProofMsg, SignedData;
    if valid != [] && valid[0].sign(SignedData(session, user, valid[0])).Some? {
      var (r, n) := Response(input);
      if r.Ok? {
        var rest := if n <= |input| then input[n..] else [];
        ProvesInOrder(session, user, valid[1..], r.value.1, rest);
        var a := Prove(session, user, valid[1..], r.value.1, rest);
        assert forall i | 0 < i < 1 + |a.sent| :: valid[i] == valid[1..][i - 1];
      }
    }
  }

  /** All that the publickey method sends are queries about its keys, and signatures over this session with keys of its own
      that the server has acknowledged in answer to the query about that very key. */
  lemma SignsOnlyAcknowledged(signers: seq<Signer>, session: Bytes, user: Bytes, input: seq<Bytes>)
    ensures forall m | m in PublicKeyAuth(signers, session, user, input).sent ::
              || IsQuery(user, signers, m)
              || exists i | 0 <= i < |signers| :: Acknowledged(signers, input, i) && IsProofBy(session, user, signers[i], m)
  {
    hide Validate, Prove, Acknowledged, IsQuery, IsProofBy;
    QueriesSent(user, signers, input);
    ValidatedIff(user, signers, input);
    var s := Validate(user, signers, input);
    if s.result.Ok? {
      ProofsSent(session, user, s.result.value, None, if s.taken <= |input| then input[s.taken..] else []);
    }
  }

  /** What an acknowledgement is: after any banners, the OK message for this algorithm and key. */
  lemma {:induction false} AckMeans(signer: Signer, input: seq<Bytes>)
    requires KeyAck(signer, input).0 == Ok(true)
    ensures exists i | 0 <= i < |input| ::
              && Wire.UnmarshalSpec(ServerAuth.PUB_KEY_OK, input[i]) == Ok([Wire.VString(signer.algo), Wire.VBytes(signer.pubKey)])
              && forall j | 0 <= j < i :: input[j] != [] && input[j][0] == BANNER
    decreases |input|
  {
    hide Wire.UnmarshalSpec;
    if input[0][0] == BANNER {
      var t := input[1..];
      AckMeans(signer, t);
      var i :| 0 <= i < |t|
        && Wire.UnmarshalSpec(ServerAuth.PUB_KEY_OK, t[i]) == Ok([Wire.VString(signer.algo), Wire.VBytes(signer.pubKey)])
        && forall j | 0 <= j < i :: t[j] != [] && t[j][0] == BANNER;
      assert input[i + 1] == t[i];
      forall j | 0 <= j < i + 1 ensures input[j] != [] && input[j][0] == BANNER {
        if j > 0 {
          assert input[j] == t[j - 1];
        }
      }
    }
  }

  predicate Banners(l: seq<Bytes>) {
    forall i | 0 <= i < |l| :: l[i] != [] && l[i][0] == BANNER
  }

  /** Any number of banners may come before an answer, and make no difference to it. */
  lemma {:induction false} BannersAreSkipped(banners: seq<Bytes>, signer: Signer, rest: seq<Bytes>)
    requires Banners(banners)
    ensures Response(banners + rest) == (Response(rest).0, |banners| + Response(rest).1)
    ensures KeyAck(signer, banners + rest) == (KeyAck(signer, rest).0, |banners| + KeyAck(signer, rest).1)
    decreases |banners|
  {
    if banners == [] {
      assert banners + rest == rest;
    } else {
      assert (banners + rest)[1..] == banners[1..] + rest && (banners + rest)[0] == banners[0];
      BannersAreSkipped(banners[1..], signer, rest);
    }
  }

  /** What the first packet after the banners decides, whatever follows it. */
  lemma ResponseCases(p: Bytes, rest: seq<Bytes>)
    requires p != [] && p[0] != BANNER
    ensures var (r, n) := Response([p] + rest);
            && n == 1
            && (r.Ok? && r.value.0 <==> p[0] == 52) && (r.Ok? && r.value.0 ==> r.value.1 == None)
            && (r.Ok? && !r.value.0 <==> p[0] == 51 && Wire.UnmarshalSpec(ServerAuth.USER_AUTH_FAILURE, p).Ok?)
            && (r == Err(Disconnected) <==> p[0] == 1)
            && (forall tag :: r == Err(Unexpected(tag)) <==> p[0] == tag && tag != 51 && tag != 52 && tag != 1)
  {
    hide Wire.UnmarshalSpec;
  }

  // ----- client and server -----

  /** The payload of a publickey request, as the server sees it. */
  function Payload(signer: Signer, hasSig: bool, sig: Bytes): Bytes {
    [if hasSig then 1 else 0] + (Wire.EncodeString(signer.algo) + (Wire.EncodeString(signer.pubKey) + sig))
  }

  lemma FourFields(a: Wire.Field, b: Wire.Field, c: Wire.Field, rest: seq<Wire.Field>)
    ensures Wire.EncodeFields([a, b, c] + rest) == Wire.EncodeField(a) + (Wire.EncodeField(b) + (Wire.EncodeField(c) + Wire.EncodeFields(rest)))
  {
    hide Wire.EncodeField;
    var f := [a, b, c] + rest;
    assert f[1..] == [b, c] + rest && ([b, c] + rest)[1..] == [c] + rest && ([c] + rest)[1..] == rest;
    assert Wire.EncodeFields(f) == Wire.EncodeField(a) + Wire.EncodeFields([b, c] + rest);
    assert Wire.EncodeFields([b, c] + rest) == Wire.EncodeField(b) + Wire.EncodeFields([c] + rest);
    assert Wire.EncodeFields([c] + rest) == Wire.EncodeField(c) + Wire.EncodeFields(rest);
  }

  /** publickeyAuthMsg read as a userAuthRequestMsg. */
  lemma MessageIsRequest(user: Bytes, signer: Signer, hasSig: bool, sig: Bytes)
    ensures PublicKeyMsg(user, signer, hasSig, sig) ==
            Wire.MarshalSpec(ServerAuth.USER_AUTH_REQUEST,
              [Wire.VString(user), Wire.VString(SshConnection()), Wire.VString(PublicKeyMethod()), Wire.VRest(Payload(signer, hasSig, sig))])
  {
    hide Wire.EncodeString, SshConnection, PublicKeyMethod;
    var (u, c, m) := (Wire.VString(user), Wire.VString(SshConnection()), Wire.VString(PublicKeyMethod()));
    var tail := [Wire.VBool(hasSig), Wire.VString(signer.algo), Wire.VBytes(signer.pubKey), Wire.VRest(sig)];
    var one := [Wire.VRest(Payload(signer, hasSig, sig))];
    FourFields(u, c, m, tail);
    FourFields(u, c, m, one);
    FourFields(tail[0], tail[1], tail[2], [tail[3]]);
    assert tail == [tail[0], tail[1], tail[2]] + [tail[3]];
    Single(tail[3]);
    Single(one[0]);
    assert [u, c, m] + tail == [u, c, m, tail[0], tail[1], tail[2], tail[3]];
    assert [u, c, m] + one == [u, c, m, one[0]];
  }

  lemma Single(f: Wire.Field)
    ensures Wire.EncodeFields([f]) == Wire.EncodeField(f)
  {
    assert [f][1..] == [];
  }

  lemma RequestParses(user: Bytes, signer: Signer, hasSig: bool, sig: Bytes)
    requires |PublicKeyMsg(user, signer, hasSig, sig)| < TWO32
    ensures ServerAuth.ParseRequest(PublicKeyMsg(user, signer, hasSig, sig)) ==
            Ok(ServerAuth.Request(user, SshConnection(), PublicKeyMethod(), Payload(signer, hasSig, sig)))
  {
    hide Wire.UnmarshalSpec, Wire.EncodeFields, SshConnection, PublicKeyMethod, Payload;
    MessageIsRequest(user, signer, hasSig, sig);
    Wire.UnmarshalMarshal(ServerAuth.USER_AUTH_REQUEST,
      [Wire.VString(user), Wire.VString(SshConnection()), Wire.VString(PublicKeyMethod()), Wire.VRest(Payload(signer, hasSig, sig))]);
  }

  lemma PayloadParses(signer: Signer, hasSig: bool, sig: Bytes)
    requires |Payload(signer, hasSig, sig)| < TWO32
    ensures ServerAuth.SplitPayload(Payload(signer, hasSig, sig)) == Some((!hasSig, signer.algo, Wire.EncodeString(signer.pubKey) + sig))
    ensures Wire.ParseString(Wire.EncodeString(signer.pubKey) + sig) == Wire.Got(signer.pubKey, sig)
  {
    hide Wire.ParseString;
    Wire.StringRoundTrip(signer.algo, Wire.EncodeString(signer.pubKey) + sig);
    Wire.StringRoundTrip(signer.pubKey, sig);
    var p := Payload(signer, hasSig, sig);
    assert p[1..] == Wire.EncodeString(signer.algo) + (Wire.EncodeString(signer.pubKey) + sig);
  }

  /** A client of this library that signs with a key the server's configuration accepts is let in: the server recovers the
      algorithm, key and signature, and rebuilds exactly the data that was signed. */
  lemma HonestClientIsGranted(env: ServerAuth.Env, cfg: ServerAuth.Config, mem: ServerAuth.Memory, user: Bytes, signer: Signer, sig: Signature,
                              key: PublicKey, rest: seq<Bytes>)
    requires cfg.publicKey.Some? && ServerAuth.IsAcceptableAlgo(signer.algo) && ServerAuth.IsAcceptableAlgo(sig.format)
    requires ParsePublicKey(env.onCurve, signer.pubKey) == Ok(key)
    requires signer.sign(SignedData(env.session, user, signer)) == Some(sig) && env.verify(key, SignedData(env.session, user, signer), sig)
    requires |ProofMsg(user, signer, sig)| < TWO32
    ensures ServerAuth.ParseRequest(ProofMsg(user, signer, sig)).Ok?
    ensures var req := ServerAuth.ParseRequest(ProofMsg(user, signer, sig)).value;
            var (v, mem') := ServerAuth.JudgeKey(env, cfg, true, mem, user, signer.pubKey, key);
            && req.service == Ascii("ssh-connection")
            && ServerAuth.Judge(env, cfg, true, mem, req, rest) ==
               (if v.ok then ServerAuth.Grant(ServerAuth.Granted(user, v.perms)) else ServerAuth.Refuse, mem', 0, [])
  {
    hide Wire.UnmarshalSpec, Wire.EncodeFields, Wire.EncodeString, Wire.ParseString, Wire.BuildDataSignedForAuth, ParsePublicKey, Payload,
      MarshalSignature, ParseSignature, ServerAuth.IsAcceptableAlgo, ServerAuth.JudgeKey, Ascii, PublicKeyMsg, ServerAuth.SplitPayload;
    ServerAuth.MethodNamesDiffer();
    var s := Wire.EncodeString(MarshalSignature(sig));
    RequestParses(user, signer, true, s);
    PayloadFits(user, signer, true, s);
    PayloadParses(signer, true, s);
    SignatureParses(sig, |Payload(signer, true, s)|);
  }

  lemma PayloadFits(user: Bytes, signer: Signer, hasSig: bool, sig: Bytes)
    ensures |sig| <= |Payload(signer, hasSig, sig)| <= |PublicKeyMsg(user, signer, hasSig, sig)|
  {
    hide Wire.EncodeString, SshConnection, PublicKeyMethod;
    MessageIsRequest(user, signer, hasSig, sig);
    var one := [Wire.VRest(Payload(signer, hasSig, sig))];
    FourFields(Wire.VString(user), Wire.VString(SshConnection()), Wire.VString(PublicKeyMethod()), one);
    Single(one[0]);
    assert [Wire.VString(user), Wire.VString(SshConnection()), Wire.VString(PublicKeyMethod())] + one ==
           [Wire.VString(user), Wire.VString(SshConnection()), Wire.VString(PublicKeyMethod()), one[0]];
  }

  lemma SignatureParses(sig: Signature, bound: nat)
    requires |Wire.EncodeString(MarshalSignature(sig))| <= bound < TWO32
    ensures ServerAuth.ParseSignatureField(Wire.EncodeString(MarshalSignature(sig))) == Some(sig)
  {
    hide Wire.ParseString;
    var m := MarshalSignature(sig);
    Wire.StringRoundTrip(m, []);
    assert Wire.EncodeString(m) + [] == Wire.EncodeString(m);
    SignatureRoundTrip(sig);
  }

  // ----- a whole conversation -----

  lemma NoneParses(user: Bytes)
    requires |NoneMsg(user)| < TWO32
    ensures ServerAuth.ParseRequest(NoneMsg(user)) == Ok(ServerAuth.Request(user, SshConnection(), Ascii("none"), []))
  {
    hide Wire.UnmarshalSpec, Wire.EncodeFields, SshConnection, Ascii;
    Wire.UnmarshalMarshal(ServerAuth.USER_AUTH_REQUEST, [Wire.VString(user), Wire.VString(SshConnection()), Wire.VString(Ascii("none")), Wire.VRest([])]);
  }

  lemma MethodsSurvive(cfg: ServerAuth.Config)
    ensures Wire.NamesSurvive(ServerAuth.Methods(cfg))
  {
    var all := [Ascii("password"), Ascii("publickey"), Ascii("keyboard-interactive")];
    forall name | name in all ensures name != [] && Wire.COMMA !in name {
      NoComma();
    }
    var ms := ServerAuth.Methods(cfg);
    forall i | 0 <= i < |ms| ensures ms[i] in all {
    }
    assert ms != [[]] by {
      if |ms| == 1 {
        assert ms[0] in all;
      }
    }
  }

  lemma NoComma()
    ensures Wire.COMMA !in Ascii("password") && Wire.COMMA !in Ascii("publickey") && Wire.COMMA !in Ascii("keyboard-interactive")
  {
  }

  lemma FailureParses(cfg: ServerAuth.Config, signer: Signer, more: seq<Bytes>)
    requires |ServerAuth.FailureMsg(cfg)| < TWO32
    ensures Response([ServerAuth.FailureMsg(cfg)] + more) == (Ok((false, Some(ServerAuth.Methods(cfg)))), 1)
    ensures KeyAck(signer, [ServerAuth.FailureMsg(cfg)] + more) == (Ok(false), 1)
  {
    hide Wire.UnmarshalSpec, Wire.EncodeFields, Wire.NamesSurvive, ServerAuth.Methods;
    MethodsSurvive(cfg);
    Wire.UnmarshalMarshal(ServerAuth.USER_AUTH_FAILURE, [Wire.VNames(ServerAuth.Methods(cfg)), Wire.VBool(false)]);
  }

  /** The client understands the server's failure message and its acknowledgement. */
  lemma AnswersParse(cfg: ServerAuth.Config, signer: Signer, more: seq<Bytes>)
    requires |ServerAuth.FailureMsg(cfg)| < TWO32 && |ServerAuth.KeyOkMsg(signer.algo, signer.pubKey)| < TWO32
    ensures Response([ServerAuth.FailureMsg(cfg)] + more) == (Ok((false, Some(ServerAuth.Methods(cfg)))), 1)
    ensures KeyAck(signer, [ServerAuth.FailureMsg(cfg)] + more) == (Ok(false), 1)
    ensures KeyAck(signer, [ServerAuth.KeyOkMsg(signer.algo, signer.pubKey)] + more) == (Ok(true), 1)
    ensures Response([ServerAuth.SUCCESS] + more) == (Ok((true, None)), 1)
  {
    hide Wire.UnmarshalSpec, Wire.EncodeFields, Wire.NamesSurvive, ServerAuth.Methods, ServerAuth.FailureMsg;
    FailureParses(cfg, signer, more);
    Wire.UnmarshalMarshal(ServerAuth.PUB_KEY_OK, [Wire.VString(signer.algo), Wire.VBytes(signer.pubKey)]);
  }

  /** The server's answer to the query. */
  lemma QueryJudged(env: ServerAuth.Env, cfg: ServerAuth.Config, mem: ServerAuth.Memory, user: Bytes, signer: Signer, key: PublicKey, rest: seq<Bytes>)
    requires cfg.publicKey.Some? && ServerAuth.IsAcceptableAlgo(signer.algo) && ParsePublicKey(env.onCurve, signer.pubKey) == Ok(key)
    requires |QueryMsg(user, signer)| < TWO32
    ensures ServerAuth.ParseRequest(QueryMsg(user, signer)).Ok?
    ensures var req := ServerAuth.ParseRequest(QueryMsg(user, signer)).value;
            var (v, mem') := ServerAuth.JudgeKey(env, cfg, true, mem, user, signer.pubKey, key);
            && req.service == Ascii("ssh-connection")
            && ServerAuth.Judge(env, cfg, true, mem, req, rest) ==
               (if v.ok then ServerAuth.KeyOk(signer.algo, signer.pubKey) else ServerAuth.Refuse, mem', 0, [])
  {
    hide ServerAuth.ParseRequest, ServerAuth.Judge, ServerAuth.JudgeKey, ServerAuth.IsAcceptableAlgo, ParsePublicKey, QueryMsg, Ascii;
    QueryRead(env, cfg, mem, user, signer, rest);
  }

  /** The same for any key: one of an algorithm the server does not know is refused, one that it cannot read ends it. */
  lemma QueryRead(env: ServerAuth.Env, cfg: ServerAuth.Config, mem: ServerAuth.Memory, user: Bytes, signer: Signer, rest: seq<Bytes>)
    requires cfg.publicKey.Some? && |QueryMsg(user, signer)| < TWO32
    ensures ServerAuth.ParseRequest(QueryMsg(user, signer)).Ok?
    ensures var req := ServerAuth.ParseRequest(QueryMsg(user, signer)).value;
            var judged := ServerAuth.Judge(env, cfg, true, mem, req, rest);
            && req.service == Ascii("ssh-connection")
            && if !ServerAuth.IsAcceptableAlgo(signer.algo) then judged == (ServerAuth.Refuse, mem, 0, [])
               else match ParsePublicKey(env.onCurve, signer.pubKey)
               case Err(e) => judged == (ServerAuth.Fail(ServerAuth.BadKey(e)), mem, 0, [])
               case Ok(key) =>
                 var (v, mem') := ServerAuth.JudgeKey(env, cfg, true, mem, user, signer.pubKey, key);
                 judged == (if v.ok then ServerAuth.KeyOk(signer.algo, signer.pubKey) else ServerAuth.Refuse, mem', 0, [])
  {
    hide Wire.UnmarshalSpec, Wire.EncodeFields, Wire.EncodeString, Wire.ParseString, Wire.BuildDataSignedForAuth, ParsePublicKey, Payload,
      ServerAuth.IsAcceptableAlgo, ServerAuth.JudgeKey, Ascii, PublicKeyMsg, ServerAuth.SplitPayload;
    ServerAuth.MethodNamesDiffer();
    RequestParses(user, signer, false, []);
    PayloadFits(user, signer, false, []);
    PayloadParses(signer, false, []);
  }

  /** What the server needs to know about the client's key and its signature. */
  ghost predicate Honest(env: ServerAuth.Env, cfg: ServerAuth.Config, user: Bytes, signer: Signer, sig: Signature, key: PublicKey) {
    && cfg.publicKey.Some? && !cfg.noClientAuth
    && ServerAuth.IsAcceptableAlgo(signer.algo) && ServerAuth.IsAcceptableAlgo(sig.format)
    && ParsePublicKey(env.onCurve, signer.pubKey) == Ok(key)
    && signer.sign(SignedData(env.session, user, signer)) == Some(sig) && env.verify(key, SignedData(env.session, user, signer), sig)
  }

  predicate Fits(cfg: ServerAuth.Config, user: Bytes, signer: Signer, sig: Signature) {
    && |NoneMsg(user)| < TWO32 && |QueryMsg(user, signer)| < TWO32 && |ProofMsg(user, signer, sig)| < TWO32
    && |ServerAuth.FailureMsg(cfg)| < TWO32 && |ServerAuth.KeyOkMsg(signer.algo, signer.pubKey)| < TWO32
  }

  /** The server's verdict on the key, which it asks for once. */
  function VerdictOn(env: ServerAuth.Env, cfg: ServerAuth.Config, user: Bytes, key: PublicKey): ServerAuth.Verdict
    requires cfg.publicKey.Some?
  {
    ServerAuth.AskCallback(env, cfg, [], user, key)
  }

  function ToServer(user: Bytes, signer: Signer, sig: Signature, ok: bool): seq<Bytes> {
    [NoneMsg(user), QueryMsg(user, signer)] + if ok then [ProofMsg(user, signer, sig)] else []
  }

  function ToClient(cfg: ServerAuth.Config, signer: Signer, ok: bool): seq<Bytes> {
    [ServerAuth.FailureMsg(cfg)] + if ok then [ServerAuth.KeyOkMsg(signer.algo, signer.pubKey), ServerAuth.SUCCESS] else [ServerAuth.FailureMsg(cfg)]
  }

  /** The memory after the first question about the key, and that the second one is answered from it. */
  lemma KeyRemembered(env: ServerAuth.Env, cfg: ServerAuth.Config, user: Bytes, keyData: Bytes, key: PublicKey)
    requires cfg.publicKey.Some?
    ensures var v := VerdictOn(env, cfg, user, key);
            var mem := ServerAuth.Memory([ServerAuth.Offer(user, keyData)], [ServerAuth.Candidate(user, keyData, v)]);
            && ServerAuth.JudgeKey(env, cfg, true, ServerAuth.Memory([], []), user, keyData, key) == (v, mem)
            && ServerAuth.JudgeKey(env, cfg, true, mem, user, keyData, key) == (v, mem)
  {
    hide ServerAuth.AskCallback;
    var c := ServerAuth.Candidate(user, keyData, VerdictOn(env, cfg, user, key));
    assert [] + [ServerAuth.Offer(user, keyData)] == [ServerAuth.Offer(user, keyData)];
    assert ServerAuth.Remember([], c) == [c];
    assert ServerAuth.Lookup([c], user, keyData) == Some(c);
  }

  lemma NoneRefused(env: ServerAuth.Env, cfg: ServerAuth.Config, mem: ServerAuth.Memory, user: Bytes, rest: seq<Bytes>)
    requires !cfg.noClientAuth
    ensures ServerAuth.Judge(env, cfg, true, mem, ServerAuth.Request(user, SshConnection(), Ascii("none"), []), rest) == (ServerAuth.Refuse, mem, 0, [])
  {
  }

  /** The server's side of the conversation. */
  lemma ServerConverses(env: ServerAuth.Env, cfg: ServerAuth.Config, user: Bytes, signer: Signer, sig: Signature, key: PublicKey)
    requires Honest(env, cfg, user, signer, sig, key) && Fits(cfg, user, signer, sig)
    ensures var v := VerdictOn(env, cfg, user, key);
            ServerAuth.Auth(env, cfg, true, ServerAuth.Memory([], []), ToServer(user, signer, sig, v.ok)) ==
            ServerAuth.Outcome(if v.ok then Ok(ServerAuth.Granted(user, v.perms)) else Err(ServerAuth.NoPacket), ToClient(cfg, signer, v.ok),
                               [ServerAuth.Offer(user, signer.pubKey)])
  {
    hide ServerAuth.Auth, ServerAuth.Judge, ServerAuth.ParseRequest, ServerAuth.JudgeKey, ServerAuth.FailureMsg, ServerAuth.KeyOkMsg, NoneMsg,
      QueryMsg, ProofMsg, Ascii, ParsePublicKey, ServerAuth.IsAcceptableAlgo, SignedData, VerdictOn;
    var v := VerdictOn(env, cfg, user, key);
    var input := ToServer(user, signer, sig, v.ok);
    var mem0 := ServerAuth.Memory([], []);
    var mem := ServerAuth.Memory([ServerAuth.Offer(user, signer.pubKey)], [ServerAuth.Candidate(user, signer.pubKey, v)]);
    NoneParses(user);
    NoneRefused(env, cfg, mem0, user, input[1..]);
    KeyRemembered(env, cfg, user, signer.pubKey, key);
    QueryJudged(env, cfg, mem0, user, signer, key, input[2..]);
    assert input[0..] == input;
    ServerAuth.AuthUnfolds(env, cfg, mem0, input, 0);
    ServerAuth.AuthUnfolds(env, cfg, mem0, input, 1);
    if v.ok {
      HonestClientIsGranted(env, cfg, mem, user, signer, sig, key, input[3..]);
      ServerAuth.AuthUnfolds(env, cfg, mem, input, 2);
    } else {
      ServerAuth.NoMore(env, cfg, mem, input[2..]);
    }
  }

  lemma ValidateOne(user: Bytes, signer: Signer, input: seq<Bytes>, b: bool)
    requires KeyAck(signer, input) == (Ok(b), 1)
    ensures Validate(user, [signer], input) == Stage(Ok(if b then [signer] else []), [QueryMsg(user, signer)], 1)
  {
    hide KeyAck, QueryMsg;
    assert [signer][1..] == [] && [signer] + [] == [signer] && [QueryMsg(user, signer)] + [] == [QueryMsg(user, signer)];
    assert Validate(user, [], if 1 <= |input| then input[1..] else []) == Stage(Ok([]), [], 0);
  }

  /** The publickey method's side of it. */
  lemma MethodConverses(cfg: ServerAuth.Config, session: Bytes, user: Bytes, signer: Signer, sig: Signature, ok: bool)
    requires Fits(cfg, user, signer, sig) && signer.sign(SignedData(session, user, signer)) == Some(sig)
    ensures PublicKeyAuth([signer], session, user, ToClient(cfg, signer, ok)[1..]) ==
            if ok then Attempt(Ok((true, None)), [QueryMsg(user, signer), ProofMsg(user, signer, sig)], 2)
            else Attempt(Ok((false, None)), [QueryMsg(user, signer)], 1)
  {
    hide KeyAck, Response, ServerAuth.FailureMsg, ServerAuth.KeyOkMsg, QueryMsg, ProofMsg, NoneMsg, SignedData;
    var okMsg := ServerAuth.KeyOkMsg(signer.algo, signer.pubKey);
    AnswersParse(cfg, signer, []);
    AnswersParse(cfg, signer, [ServerAuth.SUCCESS]);
    var input := ToClient(cfg, signer, ok)[1..];
    assert input == if ok then [okMsg] + [ServerAuth.SUCCESS] else [ServerAuth.FailureMsg(cfg)] + [];
    ValidateOne(user, signer, input, ok);
    if ok {
      assert input[1..] == [ServerAuth.SUCCESS] + [];
      var proof := ProofMsg(user, signer, sig);
      assert Prove(session, user, [signer], None, input[1..]) == Attempt(Ok((true, None)), [proof], 1);
      assert [QueryMsg(user, signer)] + [proof] == [QueryMsg(user, signer), proof];
    } else {
      assert Prove(session, user, [], None, input[1..]) == Attempt(Ok((false, None)), [], 0);
      assert [QueryMsg(user, signer)] + [] == [QueryMsg(user, signer)];
    }
  }

  /** The client's side. */
  lemma ClientConverses(cfg: ServerAuth.Config, session: Bytes, user: Bytes, signer: Signer, sig: Signature, ok: bool)
    requires cfg.publicKey.Some? && Fits(cfg, user, signer, sig) && signer.sign(SignedData(session, user, signer)) == Some(sig)
    ensures Attempts([PublicKeysMethod([signer])], session, user, NoneAuth(), {}, [], ToClient(cfg, signer, ok)) ==
            Outcome(if ok then Ok(()) else Err(NoSupportedMethods), ToServer(user, signer, sig, ok), [Ascii("none"), PublicKeyMethod()])
  {
    hide KeyAck, Response, ServerAuth.FailureMsg, ServerAuth.KeyOkMsg, QueryMsg, ProofMsg, NoneMsg, SignedData, PublicKeyAuth, Ascii;
    var auths := [PublicKeysMethod([signer])];
    var input := ToClient(cfg, signer, ok);
    AnswersParse(cfg, signer, input[1..]);
    assert [ServerAuth.FailureMsg(cfg)] + input[1..] == input;
    MethodConverses(cfg, session, user, signer, sig, ok);
    assert auths[1..] == [];
    ServerAuth.MethodNamesDiffer();
    var (none, methods) := (NoneAuth(), ServerAuth.Methods(cfg));
    OffersPublicKey(cfg);
    assert none.auth(session, user, input) == Attempt(Ok((false, Some(methods))), [NoneMsg(user)], 1);
    assert FindNext(auths, {} + {none.name}, methods) == Some(auths[0]);
    var o := Attempts(auths, session, user, auths[0], {} + {none.name}, methods, input[1..]);
    assert o == Outcome(if ok then Ok(()) else Err(NoSupportedMethods),
                        if ok then [QueryMsg(user, signer), ProofMsg(user, signer, sig)] else [QueryMsg(user, signer)], [PublicKeyMethod()]) by {
      LastAttempt(auths, session, user, {} + {none.name}, methods, input[1..]);
    }
    assert [NoneMsg(user)] + o.sent == ToServer(user, signer, sig, ok);
    assert [none.name] + o.attempts == [none.name, PublicKeyMethod()];
  }

  /** An attempt with the only method there is. */
  lemma LastAttempt(auths: seq<AuthMethod>, session: Bytes, user: Bytes, tried: set<Bytes>, last: seq<Bytes>, input: seq<Bytes>)
    requires |auths| == 1 && auths[0].name !in tried
    ensures var a := auths[0].auth(session, user, input);
            Attempts(auths, session, user, auths[0], tried, last, input) ==
            Outcome(if a.result.Err? then Err(a.result.error) else if a.result.value.0 then Ok(()) else Err(NoSupportedMethods), a.sent, [auths[0].name])
  {
    var a := auths[0].auth(session, user, input);
    if a.result.Ok? && !a.result.value.0 {
      FindNextMeans(auths, tried + {auths[0].name}, if a.result.value.1.None? then last else a.result.value.1.value);
    }
  }

  lemma OffersPublicKey(cfg: ServerAuth.Config)
    requires cfg.publicKey.Some?
    ensures PublicKeyMethod() in ServerAuth.Methods(cfg)
  {
    hide Ascii;
    var i := if cfg.password.Some? then 1 else 0;
    assert ServerAuth.Methods(cfg)[i] == PublicKeyMethod();
  }

  /** A client of this library with one key against a server of this library, each fed with what the other sends: both end
      the same way, success if and only if the callback admits the key, which it is asked about once. */
  lemma Conversation(env: ServerAuth.Env, cfg: ServerAuth.Config, user: Bytes, signer: Signer, sig: Signature, key: PublicKey)
    requires Honest(env, cfg, user, signer, sig, key) && Fits(cfg, user, signer, sig)
    ensures var ok := VerdictOn(env, cfg, user, key).ok;
            var (toServer, toClient) := (ToServer(user, signer, sig, ok), ToClient(cfg, signer, ok));
            var server := ServerAuth.Auth(env, cfg, true, ServerAuth.Memory([], []), toServer);
            var client := Attempts([PublicKeysMethod([signer])], env.session, user, NoneAuth(), {}, [], toClient);
            && server.out == toClient && client.sent == toServer && server.calls == [ServerAuth.Offer(user, signer.pubKey)]
            && (server.result.Ok? <==> ok) && (client.result.Ok? <==> ok)
            && (ok ==> server.result.value == ServerAuth.Granted(user, VerdictOn(env, cfg, user, key).perms))
  {
    hide ServerAuth.Auth, Attempts, ToServer, ToClient, VerdictOn, Fits;
    ServerConverses(env, cfg, user, signer, sig, key);
    ClientConverses(cfg, env.session, user, signer, sig, VerdictOn(env, cfg, user, key).ok);
  }
}
