/** The server's side of user authentication (server.go of the library: serverAuthenticate, pubKeyCache; RFC 4252),
    and the callbacks this program runs it with (server.go of the program). Packets from the client are a list; the
    callbacks and the signature check are parameters. */
module ServerAuth {
  import opened ByteStrings
  import opened PublicKeys
  import opened Results
  import Wire

  const MAX_CACHED_PUB_KEYS := 16

  /** The part of Permissions that serverAuthenticate looks at: the source-address option, empty if there is none. */
  datatype Perms = Perms(sourceAddress: Bytes)

  datatype Verdict = Verdict(ok: bool, perms: Option<Perms>)

  /** A call of PublicKeyCallback. */
  datatype Offer = Offer(user: Bytes, keyData: Bytes)

  /** How KeyboardInteractiveCallback ends: its challenges take some of the client's packets and send some. */
  datatype Interactive = Interactive(verdict: Verdict, taken: nat, said: seq<Bytes>)

  /** ServerConfig. PublicKeyCallback may depend on all its earlier calls. */
  datatype Config = Config(
    noClientAuth: bool,
    password: Option<(Bytes, Bytes) -> Verdict>,
    publicKey: Option<(seq<Offer>, Bytes, PublicKey) -> Verdict>,
    keyboard: Option<(Bytes, seq<Bytes>) -> Interactive>)

  /** What the connection and the crypto packages contribute: the session id, the curve test, Verify, and the test of
      the client's address against a source-address option. */
  datatype Env = Env(session: Bytes, onCurve: PointTest, verify: (PublicKey, Bytes, Signature) -> bool, addressAllowed: Bytes -> bool)

  datatype AuthError = NoPacket | BadMessage(error: Wire.Error) | UnknownService | BadRequest | BadKey(key: KeyError) | BadSignature | NoMethods

  datatype Request = Request(user: Bytes, service: Bytes, method_: Bytes, payload: Bytes)

  datatype Candidate = Candidate(user: Bytes, keyData: Bytes, verdict: Verdict)

  /** The locals of serverAuthenticate's loop, with a history of the callback's calls. */
  datatype Memory = Memory(calls: seq<Offer>, cache: seq<Candidate>)

  datatype Granted = Granted(user: Bytes, perms: Option<Perms>)

  /** What one request comes to. */
  datatype Turn = Fail(error: AuthError) | Grant(granted: Granted) | Refuse | KeyOk(algo: Bytes, keyData: Bytes)

  const USER_AUTH_REQUEST := Wire.Schema(50, [Wire.KString, Wire.KString, Wire.KString, Wire.KRest])
  const USER_AUTH_FAILURE := Wire.Schema(51, [Wire.KNames, Wire.KBool])
  const PUB_KEY_OK := Wire.Schema(60, [Wire.KString, Wire.KBytes])
  const SUCCESS: Bytes := [52]

  function ParseRequest(packet: Bytes): Result<Request, AuthError> {
    match Wire.UnmarshalSpec(USER_AUTH_REQUEST, packet)
    case Err(e) => Err(BadMessage(e))
    case Ok(v) =>
      if |v| == 4 && v[0].VString? && v[1].VString? && v[2].VString? && v[3].VRest? then Ok(Request(v[0].str, v[1].str, v[2].str, v[3].rest))
      else Err(BadRequest)
  }

  predicate IsAcceptableAlgo(name: Bytes) {
    FindAlgo(name).Some?
  }

  // ----- the cache -----

  function Lookup(cache: seq<Candidate>, user: Bytes, keyData: Bytes): Option<Candidate> {
    if cache == [] then None
    else if cache[0].user == user && cache[0].keyData == keyData then Some(cache[0])
    else Lookup(cache[1..], user, keyData)
  }

  function Remember(cache: seq<Candidate>, c: Candidate): seq<Candidate> {
    if |cache| < MAX_CACHED_PUB_KEYS then cache + [c] else cache
  }

  lemma {:induction false} LookupSnoc(cache: seq<Candidate>, c: Candidate, user: Bytes, keyData: Bytes)
    ensures Lookup(cache + [c], user, keyData)
            == if Lookup(cache, user, keyData).Some? then Lookup(cache, user, keyData)
               else if c.user == user && c.keyData == keyData then Some(c) else None
  {
    if cache != [] {
      assert (cache + [c])[1..] == cache[1..] + [c];
      LookupSnoc(cache[1..], c, user, keyData);
    }
  }

  class PubKeyCache {
    var keys: seq<Candidate>

    predicate Valid()
      reads this
    {
      |keys| <= MAX_CACHED_PUB_KEYS
    }

    constructor ()
      ensures Valid() && keys == []
    {
      keys := [];
    }

    method Get(user: Bytes, keyData: Bytes) returns (r: Option<Candidate>)
      ensures r == Lookup(keys, user, keyData)
    {
      for i := 0 to |keys|
        invariant Lookup(keys, user, keyData) == Lookup(keys[i..], user, keyData)
      {
        assert keys[i..][1..] == keys[i + 1..];
        if keys[i].user == user && keys[i].keyData == keyData {
          return Some(keys[i]);
        }
      }
      return None;
    }

    /** What was found before is found as before, and the new entry is found too, unless there are 16 already. */
    method Add(c: Candidate)
      requires Valid()
      modifies this
      ensures Valid() && old(keys) <= keys
      ensures forall user, keyData | user != c.user || keyData != c.keyData :: Lookup(keys, user, keyData) == Lookup(old(keys), user, keyData)
      ensures var found := Lookup(old(keys), c.user, c.keyData);
              Lookup(keys, c.user, c.keyData) == if found.Some? || |old(keys)| == MAX_CACHED_PUB_KEYS then found else Some(c)
      ensures keys == Remember(old(keys), c)
    {
      ghost var was := keys;
      if |keys| < MAX_CACHED_PUB_KEYS {
        keys := keys + [c];
        forall user, keyData {
          LookupSnoc(was, c, user, keyData);
        }
      }
    }
  }

  // ----- one request -----

  /** PublicKeyCallback and the test of the source-address option. */
  function AskCallback(env: Env, cfg: Config, calls: seq<Offer>, user: Bytes, key: PublicKey): Verdict
    requires cfg.publicKey.Some?
  {
    var v := cfg.publicKey.value(calls, user, key);
    if v.ok && v.perms.Some? && v.perms.value.sourceAddress != [] && !env.addressAllowed(v.perms.value.sourceAddress) then v.(ok := false)
    else v
  }

  /** A publickey payload: the query flag, the algorithm and what follows it. */
  function SplitPayload(payload: Bytes): Option<(bool, Bytes, Bytes)> {
    if |payload| < 1 then None
    else
      match Wire.ParseString(payload[1..])
      case Got(algo, more) => Some((payload[0] == 0, algo, more))
      case _ => None
  }

  function ParseSignatureField(payload: Bytes): Option<Signature> {
    match Wire.ParseString(payload)
    case Got(sig, rest) => if rest == [] then ParseSignature(sig) else None
    case _ => None
  }

  /** The part of the publickey case after the key has been judged. */
  function JudgeProof(env: Env, req: Request, query: bool, algo: Bytes, keyData: Bytes, key: PublicKey, rest: Bytes, v: Verdict): Turn {
    if query then
      if rest != [] then Fail(BadRequest) else if v.ok then KeyOk(algo, keyData) else Refuse
    else
      match ParseSignatureField(rest)
      case None => Fail(BadRequest)
      case Some(sig) =>
        if !IsAcceptableAlgo(sig.format) then Refuse
        else if !env.verify(key, Wire.BuildDataSignedForAuth(env.session, req.user, req.service, req.method_, algo, keyData), sig) then
          Fail(BadSignature)
        else if v.ok then Grant(Granted(req.user, v.perms))
        else Refuse
  }

  /** The verdict on a key, from the cache if it is there. */
  function JudgeKey(env: Env, cfg: Config, useCache: bool, mem: Memory, user: Bytes, keyData: Bytes, key: PublicKey): (Verdict, Memory)
    requires cfg.publicKey.Some?
  {
    var found := if useCache then Lookup(mem.cache, user, keyData) else None;
    if found.Some? then (found.value.verdict, mem)
    else
      var v := AskCallback(env, cfg, mem.calls, user, key);
      (v, Memory(mem.calls + [Offer(user, keyData)], Remember(mem.cache, Candidate(user, keyData, v))))
  }

  function JudgePublicKey(env: Env, cfg: Config, useCache: bool, mem: Memory, req: Request): (Turn, Memory) {
    if cfg.publicKey.None? then (Refuse, mem)
    else
      match SplitPayload(req.payload)
      case None => (Fail(BadRequest), mem)
      case Some((query, algo, more)) =>
        if !IsAcceptableAlgo(algo) then (Refuse, mem)
        else
          match Wire.ParseString(more)
          case Got(keyData, rest) =>
            (match ParsePublicKey(env.onCurve, keyData)
             case Err(e) => (Fail(BadKey(e)), mem)
             case Ok(key) =>
               var (v, mem') := JudgeKey(env, cfg, useCache, mem, req.user, keyData, key);
               (JudgeProof(env, req, query, algo, keyData, key, rest, v), mem'))
          case _ => (Fail(BadRequest), mem)
  }

  /** The password in a password payload. */
  function PasswordIn(payload: Bytes): Option<Bytes> {
    if |payload| < 1 || payload[0] != 0 then None
    else
      match Wire.ParseString(payload[1..])
      case Got(pw, rest) => if rest == [] then Some(pw) else None
      case _ => None
  }

  function JudgePassword(cfg: Config, req: Request): Turn {
    if cfg.password.None? then Refuse
    else
      match PasswordIn(req.payload)
      case None => Fail(BadRequest)
      case Some(pw) =>
        var v := cfg.password.value(req.user, pw);
        if v.ok then Grant(Granted(req.user, v.perms)) else Refuse
  }

  /** The switch over the method: the turn, the new memory, and what a keyboard-interactive dialogue took and sent. */
  function Judge(env: Env, cfg: Config, useCache: bool, mem: Memory, req: Request, rest: seq<Bytes>): (Turn, Memory, nat, seq<Bytes>) {
    if req.method_ == Ascii("none") then
      (if cfg.noClientAuth then Grant(Granted([], None)) else Refuse, mem, 0, [])
    else if req.method_ == Ascii("password") then (JudgePassword(cfg, req), mem, 0, [])
    else if req.method_ == Ascii("keyboard-interactive") then
      if cfg.keyboard.None? then (Refuse, mem, 0, [])
      else
        var d := cfg.keyboard.value(req.user, rest);
        (if d.verdict.ok then Grant(Granted(req.user, d.verdict.perms)) else Refuse, mem, if d.taken <= |rest| then d.taken else |rest|, d.said)
    else if req.method_ == Ascii("publickey") then
      var (turn, mem') := JudgePublicKey(env, cfg, useCache, mem, req);
      (turn, mem', 0, [])
    else (Refuse, mem, 0, [])
  }

  function Methods(cfg: Config): seq<Bytes> {
    (if cfg.password.Some? then [Ascii("password")] else []) + (if cfg.publicKey.Some? then [Ascii("publickey")] else [])
    + (if cfg.keyboard.Some? then [Ascii("keyboard-interactive")] else [])
  }

  function FailureMsg(cfg: Config): Bytes {
    Wire.MarshalSpec(USER_AUTH_FAILURE, [Wire.VNames(Methods(cfg)), Wire.VBool(false)])
  }

  function KeyOkMsg(algo: Bytes, keyData: Bytes): Bytes {
    Wire.MarshalSpec(PUB_KEY_OK, [Wire.VString(algo), Wire.VBytes(keyData)])
  }

  // ----- the loop -----

  /** How serverAuthenticate ends, what it has sent, and the calls of PublicKeyCallback. */
  datatype Outcome = Outcome(result: Result<Granted, AuthError>, out: seq<Bytes>, calls: seq<Offer>)

  function Before(said: seq<Bytes>, o: Outcome): Outcome {
    o.(out := said + o.out)
  }

  /** The loop from its head; with useCache false it is what it would be without pubKeyCache. */
  function Auth(env: Env, cfg: Config, useCache: bool, mem: Memory, input: seq<Bytes>): Outcome
    decreases |input|
  {
    if input == [] then Outcome(Err(NoPacket), [], mem.calls)
    else
      match ParseRequest(input[0])
      case Err(e) => Outcome(Err(e), [], mem.calls)
      case Ok(req) =>
        if req.service != Ascii("ssh-connection") then Outcome(Err(UnknownService), [], mem.calls)
        else
          var (turn, mem', taken, said) := Judge(env, cfg, useCache, mem, req, input[1..]);
          match turn
          case Fail(e) => Outcome(Err(e), said, mem'.calls)
          case Grant(g) => Outcome(Ok(g), said + [SUCCESS], mem'.calls)
          case KeyOk(algo, keyData) => Before(said + [KeyOkMsg(algo, keyData)], Auth(env, cfg, useCache, mem', input[1 + taken..]))
          case Refuse =>
            if Methods(cfg) == [] then Outcome(Err(NoMethods), said, mem'.calls)
            else Before(said + [FailureMsg(cfg)], Auth(env, cfg, useCache, mem', input[1 + taken..]))
  }

  /** The outcome after one turn. */
  function After(env: Env, cfg: Config, turn: Turn, mem: Memory, said: seq<Bytes>, rest: seq<Bytes>): Outcome {
    match turn
    case Fail(e) => Outcome(Err(e), said, mem.calls)
    case Grant(g) => Outcome(Ok(g), said + [SUCCESS], mem.calls)
    case KeyOk(algo, keyData) => Before(said + [KeyOkMsg(algo, keyData)], Auth(env, cfg, true, mem, rest))
    case Refuse =>
      if Methods(cfg) == [] then Outcome(Err(NoMethods), said, mem.calls)
      else Before(said + [FailureMsg(cfg)], Auth(env, cfg, true, mem, rest))
  }

  lemma AuthUnfolds(env: Env, cfg: Config, mem: Memory, input: seq<Bytes>, at: nat)
    requires at < |input|
    ensures ParseRequest(input[at]).Err? ==>
              Auth(env, cfg, true, mem, input[at..]) == Outcome(Err(ParseRequest(input[at]).error), [], mem.calls)
    ensures ParseRequest(input[at]).Ok? && ParseRequest(input[at]).value.service != Ascii("ssh-connection") ==>
              Auth(env, cfg, true, mem, input[at..]) == Outcome(Err(UnknownService), [], mem.calls)
    ensures ParseRequest(input[at]).Ok? && ParseRequest(input[at]).value.service == Ascii("ssh-connection") ==>
              var (turn, mem', taken, said) := Judge(env, cfg, true, mem, ParseRequest(input[at]).value, input[at + 1..]);
              taken <= |input| - at - 1 && Auth(env, cfg, true, mem, input[at..]) == After(env, cfg, turn, mem', said, input[at + 1 + taken..])
  {
    hide ParseRequest, Ascii, KeyOkMsg, FailureMsg, Methods, Judge;
    var tail := input[at..];
    assert tail[1..] == input[at + 1..];
    if ParseRequest(input[at]).Ok? && ParseRequest(input[at]).value.service == Ascii("ssh-connection") {
      TakesNoMore(env, cfg, mem, ParseRequest(input[at]).value, input[at + 1..]);
      var taken := Judge(env, cfg, true, mem, ParseRequest(input[at]).value, input[at + 1..]).2;
      assert tail[1 + taken..] == input[at + 1 + taken..];
    }
  }

  /** serverAuthenticate. */
  method ServerAuthenticate(env: Env, cfg: Config, input: seq<Bytes>) returns (result: Result<Granted, AuthError>, out: seq<Bytes>, calls: seq<Offer>)
    ensures Outcome(result, out, calls) == Auth(env, cfg, true, Memory([], []), input)
  {
    hide ParseRequest, KeyOkMsg, FailureMsg, Methods, Ascii, Auth, Judge;
    var cache := new PubKeyCache();
    out, calls := [], [];
    var at := 0;
    ghost var whole := Auth(env, cfg, true, Memory([], []), input);
    assert input[0..] == input;
    while at < |input|
      invariant at <= |input| && cache.Valid()
      invariant whole == Before(out, Auth(env, cfg, true, Memory(calls, cache.keys), input[at..]))
    {
      AuthUnfolds(env, cfg, Memory(calls, cache.keys), input, at);
      var parsed := ParseRequest(input[at]);
      if parsed.Err? {
        return Err(parsed.error), out, calls;
      }
      if parsed.value.service != Ascii("ssh-connection") {
        return Err(UnknownService), out, calls;
      }
      var turn, taken, said := OneRequest(env, cfg, cache, calls, parsed.value, input[at + 1..]);
      calls := turn.1;
      if turn.0.Fail? {
        return Err(turn.0.error), out + said, calls;
      }
      if turn.0.Grant? {
        assert out + (said + [SUCCESS]) == out + said + [SUCCESS];
        return Ok(turn.0.granted), out + said + [SUCCESS], calls;
      }
      if turn.0.Refuse? && |Methods(cfg)| == 0 {
        return Err(NoMethods), out + said, calls;
      }
      var reply := if turn.0.KeyOk? then KeyOkMsg(turn.0.algo, turn.0.keyData) else FailureMsg(cfg);
      at := at + 1 + taken;
      Nested(out, said + [reply], Auth(env, cfg, true, Memory(calls, cache.keys), input[at..]));
      out := out + (said + [reply]);
    }
    NoMore(env, cfg, Memory(calls, cache.keys), input[at..]);
    return Err(NoPacket), out, calls;
  }

  lemma NoMore(env: Env, cfg: Config, mem: Memory, input: seq<Bytes>)
    requires input == []
    ensures Auth(env, cfg, true, mem, input) == Outcome(Err(NoPacket), [], mem.calls)
  {
  }

  lemma Nested(a: seq<Bytes>, b: seq<Bytes>, o: Outcome)
    ensures Before(a, Before(b, o)) == Before(a + b, o)
  {
    assert a + (b + o.out) == a + b + o.out;
  }

  /** The switch, with the cache updated in place. */
  method OneRequest(env: Env, cfg: Config, cache: PubKeyCache, calls: seq<Offer>, req: Request, rest: seq<Bytes>)
    returns (turn: (Turn, seq<Offer>), taken: nat, said: seq<Bytes>)
    requires cache.Valid()
    modifies cache
    ensures cache.Valid()
    ensures Judge(env, cfg, true, Memory(calls, old(cache.keys)), req, rest) == (turn.0, Memory(turn.1, cache.keys), taken, said)
    ensures taken <= |rest|
  {
    taken, said := 0, [];
    if req.method_ == Ascii("none") {
      turn := (if cfg.noClientAuth then Grant(Granted([], None)) else Refuse, calls);
    } else if req.method_ == Ascii("password") {
      turn := (JudgePassword(cfg, req), calls);
    } else if req.method_ == Ascii("keyboard-interactive") {
      if cfg.keyboard.None? {
        turn := (Refuse, calls);
      } else {
        var d := cfg.keyboard.value(req.user, rest);
        taken := if d.taken <= |rest| then d.taken else |rest|;
        said := d.said;
        turn := (if d.verdict.ok then Grant(Granted(req.user, d.verdict.perms)) else Refuse, calls);
      }
    } else if req.method_ == Ascii("publickey") {
      turn := OnePublicKey(env, cfg, cache, calls, req);
    } else {
      turn := (Refuse, calls);
    }
  }

  method OnePublicKey(env: Env, cfg: Config, cache: PubKeyCache, calls: seq<Offer>, req: Request) returns (turn: (Turn, seq<Offer>))
    requires cache.Valid()
    modifies cache
    ensures cache.Valid()
    ensures JudgePublicKey(env, cfg, true, Memory(calls, old(cache.keys)), req) == (turn.0, Memory(turn.1, cache.keys))
  {
    if cfg.publicKey.None? {
      return (Refuse, calls);
    }
    var parts := SplitPayload(req.payload);
    if parts.None? {
      return (Fail(BadRequest), calls);
    }
    var (query, algo, more) := parts.value;
    if !IsAcceptableAlgo(algo) {
      return (Refuse, calls);
    }
    var keyField := Wire.ParseString(more);
    if !keyField.Got? {
      return (Fail(BadRequest), calls);
    }
    var keyData := keyField.out;
    var key := ParsePublicKey(env.onCurve, keyData);
    if key.Err? {
      return (Fail(BadKey(key.error)), calls);
    }
    var candidate := cache.Get(req.user, keyData);
    var verdict;
    var calls' := calls;
    if candidate.Some? {
      verdict := candidate.value.verdict;
    } else {
      verdict := AskCallback(env, cfg, calls, req.user, key.value);
      calls' := calls + [Offer(req.user, keyData)];
      cache.Add(Candidate(req.user, keyData, verdict));
    }
    turn := (JudgeProof(env, req, query, algo, keyData, key.value, keyField.rest, verdict), calls');
  }

  // ----- success -----

  /** The callback accepted the key with these permissions, and they do not bind it to another address. */
  predicate Admits(env: Env, v: Verdict, perms: Option<Perms>) {
    v.ok && v.perms == perms
    && (perms.Some? && perms.value.sourceAddress != [] ==> env.addressAllowed(perms.value.sourceAddress))
  }

  lemma AskMeans(env: Env, cfg: Config, calls: seq<Offer>, user: Bytes, key: PublicKey, perms: Option<Perms>)
    requires cfg.publicKey.Some?
    ensures AskCallback(env, cfg, calls, user, key) == Verdict(true, perms) <==> Admits(env, cfg.publicKey.value(calls, user, key), perms)
  {
  }

  /** One of the callback's calls was for this user and key, and accepted it. */
  predicate KeyAccepted(env: Env, cfg: Config, calls: seq<Offer>, user: Bytes, keyData: Bytes, key: PublicKey, perms: Option<Perms>)
    requires cfg.publicKey.Some?
  {
    exists n | 0 <= n < |calls| :: calls[n] == Offer(user, keyData) && Admits(env, cfg.publicKey.value(calls[..n], user, key), perms)
  }

  /** A publickey request with a valid signature over this session, this request and this key, by a key the callback
      accepted for this user. */
  predicate ProvesKey(env: Env, cfg: Config, calls: seq<Offer>, req: Request, g: Granted) {
    && cfg.publicKey.Some? && g.user == req.user
    && SplitPayload(req.payload).Some?
    && var (query, algo, more) := SplitPayload(req.payload).value;
    && !query && IsAcceptableAlgo(algo) && Wire.ParseString(more).Got?
    && var (keyData, rest) := (Wire.ParseString(more).out, Wire.ParseString(more).rest);
    && ParsePublicKey(env.onCurve, keyData).Ok? && ParseSignatureField(rest).Some?
    && var (key, sig) := (ParsePublicKey(env.onCurve, keyData).value, ParseSignatureField(rest).value);
    && IsAcceptableAlgo(sig.format)
    && env.verify(key, Wire.BuildDataSignedForAuth(env.session, req.user, req.service, req.method_, algo, keyData), sig)
    && KeyAccepted(env, cfg, calls, req.user, keyData, key, g.perms)
  }

  /** The request is one the configuration accepts; rest is what the client sent after it. */
  predicate Acceptable(env: Env, cfg: Config, calls: seq<Offer>, req: Request, rest: seq<Bytes>, g: Granted) {
    && req.service == Ascii("ssh-connection")
    && if req.method_ == Ascii("none") then cfg.noClientAuth && g == Granted([], None)
       else if req.method_ == Ascii("password") then
         && cfg.password.Some? && PasswordIn(req.payload).Some? && g.user == req.user
         && cfg.password.value(req.user, PasswordIn(req.payload).value) == Verdict(true, g.perms)
       else if req.method_ == Ascii("keyboard-interactive") then
         cfg.keyboard.Some? && g.user == req.user && cfg.keyboard.value(req.user, rest).verdict == Verdict(true, g.perms)
       else req.method_ == Ascii("publickey") && ProvesKey(env, cfg, calls, req, g)
  }

  /** What is in the cache is what the callback has said about that user and key. */
  predicate Sound(env: Env, cfg: Config, mem: Memory) {
    forall c | c in mem.cache ::
      && cfg.publicKey.Some? && ParsePublicKey(env.onCurve, c.keyData).Ok?
      && exists n | 0 <= n < |mem.calls| ::
           && mem.calls[n] == Offer(c.user, c.keyData)
           && AskCallback(env, cfg, mem.calls[..n], c.user, ParsePublicKey(env.onCurve, c.keyData).value) == c.verdict
  }

  lemma {:induction false} LookupFinds(cache: seq<Candidate>, user: Bytes, keyData: Bytes)
    ensures var r := Lookup(cache, user, keyData);
            && (r.Some? ==> r.value in cache && r.value.user == user && r.value.keyData == keyData)
            && (r.None? ==> forall c | c in cache :: !(c.user == user && c.keyData == keyData))
  {
    if cache != [] {
      LookupFinds(cache[1..], user, keyData);
    }
  }

  lemma KeyJudged(env: Env, cfg: Config, mem: Memory, user: Bytes, keyData: Bytes)
    requires cfg.publicKey.Some? && ParsePublicKey(env.onCurve, keyData).Ok? && Sound(env, cfg, mem)
    ensures var key := ParsePublicKey(env.onCurve, keyData).value;
            var (v, mem') := JudgeKey(env, cfg, true, mem, user, keyData, key);
            && mem.calls <= mem'.calls && Sound(env, cfg, mem')
            && (v.ok ==> KeyAccepted(env, cfg, mem'.calls, user, keyData, key, v.perms))
  {
    hide ParsePublicKey, AskCallback;
    var key := ParsePublicKey(env.onCurve, keyData).value;
    var (v, mem') := JudgeKey(env, cfg, true, mem, user, keyData, key);
    LookupFinds(mem.cache, user, keyData);
    if Lookup(mem.cache, user, keyData).Some? {
      var k :| 0 <= k < |mem.calls| && mem.calls[k] == Offer(user, keyData) && AskCallback(env, cfg, mem.calls[..k], user, key) == v;
      AskMeans(env, cfg, mem.calls[..k], user, key, v.perms);
    } else {
      AskMeans(env, cfg, mem.calls, user, key, v.perms);
      var n := |mem.calls|;
      assert mem'.calls[..n] == mem.calls && mem'.calls[n] == Offer(user, keyData);
      forall c | c in mem'.cache
        ensures exists n | 0 <= n < |mem'.calls| ::
          mem'.calls[n] == Offer(c.user, c.keyData) && AskCallback(env, cfg, mem'.calls[..n], c.user, ParsePublicKey(env.onCurve, c.keyData).value) == c.verdict
      {
        if c in mem.cache {
          var k :| 0 <= k < |mem.calls| && mem.calls[k] == Offer(c.user, c.keyData)
            && AskCallback(env, cfg, mem.calls[..k], c.user, ParsePublicKey(env.onCurve, c.keyData).value) == c.verdict;
          assert mem'.calls[..k] == mem.calls[..k];
        }
      }
      SoundIs(env, cfg, mem');
    }
  }

  lemma SoundIs(env: Env, cfg: Config, mem: Memory)
    requires forall c | c in mem.cache ::
      && cfg.publicKey.Some? && ParsePublicKey(env.onCurve, c.keyData).Ok?
      && exists n | 0 <= n < |mem.calls| ::
           && mem.calls[n] == Offer(c.user, c.keyData)
           && AskCallback(env, cfg, mem.calls[..n], c.user, ParsePublicKey(env.onCurve, c.keyData).value) == c.verdict
    ensures Sound(env, cfg, mem)
  {
    hide ParsePublicKey, AskCallback;
  }

  /** A turn grants only what the configuration accepts. */
  lemma GrantIsAcceptable(env: Env, cfg: Config, mem: Memory, req: Request, rest: seq<Bytes>)
    requires Sound(env, cfg, mem) && req.service == Ascii("ssh-connection")
    ensures var (turn, mem', _, _) := Judge(env, cfg, true, mem, req, rest);
            && mem.calls <= mem'.calls && Sound(env, cfg, mem')
            && (turn.Grant? ==> Acceptable(env, cfg, mem'.calls, req, rest, turn.granted))
  {
    hide ParsePublicKey, AskCallback, IsAcceptableAlgo, Sound, KeyAccepted, Wire.BuildDataSignedForAuth, JudgeKey, Ascii, Wire.ParseString;
    if req.method_ == Ascii("publickey") && cfg.publicKey.Some? && SplitPayload(req.payload).Some? {
      var (query, algo, more) := SplitPayload(req.payload).value;
      if IsAcceptableAlgo(algo) && Wire.ParseString(more).Got? && ParsePublicKey(env.onCurve, Wire.ParseString(more).out).Ok? {
        KeyJudged(env, cfg, mem, req.user, Wire.ParseString(more).out);
      }
    }
  }

  lemma {:induction false} GrantedFrom(env: Env, cfg: Config, mem: Memory, input: seq<Bytes>)
    requires Sound(env, cfg, mem)
    ensures var o := Auth(env, cfg, true, mem, input);
            && mem.calls <= o.calls
            && (o.result.Ok? ==> exists i | 0 <= i < |input| ::
                  ParseRequest(input[i]).Ok? && Acceptable(env, cfg, o.calls, ParseRequest(input[i]).value, input[i + 1..], o.result.value))
    decreases |input|
  {
    hide ParseRequest, Judge, Acceptable, Sound, Ascii, KeyOkMsg, FailureMsg, Methods;
    var o := Auth(env, cfg, true, mem, input);
    if input != [] && ParseRequest(input[0]).Ok? && ParseRequest(input[0]).value.service == Ascii("ssh-connection") {
      var req := ParseRequest(input[0]).value;
      GrantIsAcceptable(env, cfg, mem, req, input[1..]);
      var (turn, mem', taken, said) := Judge(env, cfg, true, mem, req, input[1..]);
      assert taken <= |input[1..]| by { TakesNoMore(env, cfg, mem, req, input[1..]); }
      if turn.KeyOk? || (turn.Refuse? && Methods(cfg) != []) {
        var tail := input[1 + taken..];
        GrantedFrom(env, cfg, mem', tail);
        if o.result.Ok? {
          var i :| 0 <= i < |tail| && ParseRequest(tail[i]).Ok?
            && Acceptable(env, cfg, o.calls, ParseRequest(tail[i]).value, tail[i + 1..], o.result.value);
          assert input[1 + taken + i] == tail[i] && input[1 + taken + i + 1..] == tail[i + 1..];
        }
      }
    }
  }

  lemma TakesNoMore(env: Env, cfg: Config, mem: Memory, req: Request, rest: seq<Bytes>)
    ensures Judge(env, cfg, true, mem, req, rest).2 <= |rest|
  {
    hide Ascii, JudgePublicKey, JudgePassword;
  }

  /** serverAuthenticate succeeds only on a request of the client that the configuration accepts: for publickey, with a
      valid signature over this session, request and key, by a key the callback accepted for the user that is logged in. */
  lemma SuccessIsAcceptable(env: Env, cfg: Config, input: seq<Bytes>)
    ensures var o := Auth(env, cfg, true, Memory([], []), input);
            o.result.Ok? ==> exists i | 0 <= i < |input| ::
              ParseRequest(input[i]).Ok? && Acceptable(env, cfg, o.calls, ParseRequest(input[i]).value, input[i + 1..], o.result.value)
  {
    hide ParseRequest, Acceptable, Auth;
    GrantedFrom(env, cfg, Memory([], []), input);
  }

  // ----- the cache -----

  /** The callback's answers depend on the user and the key alone. */
  ghost predicate Deterministic(cfg: Config) {
    cfg.publicKey.Some? ==> forall c1, c2, u, k :: cfg.publicKey.value(c1, u, k) == cfg.publicKey.value(c2, u, k)
  }

  lemma SameVerdict(env: Env, cfg: Config, mem: Memory, mem2: Memory, user: Bytes, keyData: Bytes)
    requires Deterministic(cfg) && cfg.publicKey.Some? && ParsePublicKey(env.onCurve, keyData).Ok? && Sound(env, cfg, mem)
    ensures var key := ParsePublicKey(env.onCurve, keyData).value;
            JudgeKey(env, cfg, true, mem, user, keyData, key).0 == JudgeKey(env, cfg, false, mem2, user, keyData, key).0
  {
    hide ParsePublicKey;
    LookupFinds(mem.cache, user, keyData);
  }

  lemma SameTurn(env: Env, cfg: Config, mem: Memory, mem2: Memory, req: Request, rest: seq<Bytes>)
    requires Deterministic(cfg) && Sound(env, cfg, mem)
    ensures var (j, j2) := (Judge(env, cfg, true, mem, req, rest), Judge(env, cfg, false, mem2, req, rest));
            j.0 == j2.0 && j.2 == j2.2 && j.3 == j2.3
  {
    hide ParsePublicKey, IsAcceptableAlgo, Sound, JudgeKey, JudgeProof, Ascii, Wire.ParseString, Deterministic;
    if cfg.publicKey.Some? && SplitPayload(req.payload).Some? {
      var (query, algo, more) := SplitPayload(req.payload).value;
      if Wire.ParseString(more).Got? && ParsePublicKey(env.onCurve, Wire.ParseString(more).out).Ok? {
        SameVerdict(env, cfg, mem, mem2, req.user, Wire.ParseString(more).out);
      }
    }
  }

  lemma {:induction false} SameFrom(env: Env, cfg: Config, mem: Memory, mem2: Memory, input: seq<Bytes>)
    requires Deterministic(cfg) && Sound(env, cfg, mem)
    ensures var (o, o2) := (Auth(env, cfg, true, mem, input), Auth(env, cfg, false, mem2, input)); o.result == o2.result && o.out == o2.out
    decreases |input|
  {
    hide ParseRequest, Judge, Sound, Ascii, KeyOkMsg, FailureMsg, Methods, Deterministic;
    if input != [] && ParseRequest(input[0]).Ok? && ParseRequest(input[0]).value.service == Ascii("ssh-connection") {
      var req := ParseRequest(input[0]).value;
      SameTurn(env, cfg, mem, mem2, req, input[1..]);
      GrantIsAcceptable(env, cfg, mem, req, input[1..]);
      var (turn, mem', taken, said) := Judge(env, cfg, true, mem, req, input[1..]);
      var mem2' := Judge(env, cfg, false, mem2, req, input[1..]).1;
      TakesNoMore(env, cfg, mem, req, input[1..]);
      if turn.KeyOk? || (turn.Refuse? && Methods(cfg) != []) {
        SameFrom(env, cfg, mem', mem2', input[1 + taken..]);
      }
    }
  }

  /** With a deterministic callback the cache changes neither the outcome nor what is sent. */
  lemma CacheIsTransparent(env: Env, cfg: Config, input: seq<Bytes>)
    requires Deterministic(cfg)
    ensures var (o, o2) := (Auth(env, cfg, true, Memory([], []), input), Auth(env, cfg, false, Memory([], []), input));
            o.result == o2.result && o.out == o2.out
  {
    hide Auth, Deterministic;
    SameFrom(env, cfg, Memory([], []), Memory([], []), input);
  }

  /** The cache holds the first sixteen offers the callback was asked about, and none of them was asked about again. */
  predicate Mirrors(mem: Memory) {
    && |mem.cache| == (if |mem.calls| < MAX_CACHED_PUB_KEYS then |mem.calls| else MAX_CACHED_PUB_KEYS)
    && (forall i | 0 <= i < |mem.cache| :: mem.calls[i] == Offer(mem.cache[i].user, mem.cache[i].keyData))
    && AskedOnce(mem.calls)
  }

  predicate AskedOnce(calls: seq<Offer>) {
    forall i, j | 0 <= i < j < |calls| && i < MAX_CACHED_PUB_KEYS :: calls[i] != calls[j]
  }

  lemma KeyMirrored(env: Env, cfg: Config, mem: Memory, user: Bytes, keyData: Bytes, key: PublicKey)
    requires cfg.publicKey.Some? && Mirrors(mem)
    ensures Mirrors(JudgeKey(env, cfg, true, mem, user, keyData, key).1)
  {
    hide AskCallback;
    LookupFinds(mem.cache, user, keyData);
    if Lookup(mem.cache, user, keyData).None? {
      forall i | 0 <= i < |mem.cache| ensures mem.calls[i] != Offer(user, keyData) {
        assert mem.cache[i] in mem.cache;
      }
    }
  }

  lemma TurnMirrored(env: Env, cfg: Config, mem: Memory, req: Request, rest: seq<Bytes>)
    requires Mirrors(mem)
    ensures Mirrors(Judge(env, cfg, true, mem, req, rest).1)
  {
    hide ParsePublicKey, IsAcceptableAlgo, Mirrors, JudgeKey, JudgeProof, Ascii, Wire.ParseString;
    if cfg.publicKey.Some? && SplitPayload(req.payload).Some? {
      var (query, algo, more) := SplitPayload(req.payload).value;
      if Wire.ParseString(more).Got? && ParsePublicKey(env.onCurve, Wire.ParseString(more).out).Ok? {
        var keyData := Wire.ParseString(more).out;
        KeyMirrored(env, cfg, mem, req.user, keyData, ParsePublicKey(env.onCurve, keyData).value);
      }
    }
  }

  lemma {:induction false} MirroredFrom(env: Env, cfg: Config, mem: Memory, input: seq<Bytes>)
    requires Mirrors(mem)
    ensures AskedOnce(Auth(env, cfg, true, mem, input).calls)
    decreases |input|
  {
    hide ParseRequest, Judge, Mirrors, AskedOnce, Ascii, KeyOkMsg, FailureMsg, Methods;
    assert AskedOnce(mem.calls) by { MirrorsMeans(mem); }
    if input != [] && ParseRequest(input[0]).Ok? && ParseRequest(input[0]).value.service == Ascii("ssh-connection") {
      var req := ParseRequest(input[0]).value;
      TurnMirrored(env, cfg, mem, req, input[1..]);
      var (turn, mem', taken, said) := Judge(env, cfg, true, mem, req, input[1..]);
      MirrorsMeans(mem');
      TakesNoMore(env, cfg, mem, req, input[1..]);
      if turn.KeyOk? || (turn.Refuse? && Methods(cfg) != []) {
        MirroredFrom(env, cfg, mem', input[1 + taken..]);
      }
    }
  }

  lemma MirrorsMeans(mem: Memory)
    requires Mirrors(mem)
    ensures AskedOnce(mem.calls)
  {
  }

  /** However often the client repeats itself, the callback is asked only once about each of the first sixteen pairs of
      user and key that it is asked about. */
  lemma CallbackAskedOnce(env: Env, cfg: Config, input: seq<Bytes>)
    ensures AskedOnce(Auth(env, cfg, true, Memory([], []), input).calls)
  {
    hide Auth;
    MirroredFrom(env, cfg, Memory([], []), input);
  }

  /** About a pair that it has been asked about, it is asked again if and only if the cache is full without it. */
  lemma AskedAgainIff(env: Env, cfg: Config, mem: Memory, user: Bytes, keyData: Bytes, key: PublicKey)
    requires cfg.publicKey.Some? && Mirrors(mem)
    ensures var mem' := JudgeKey(env, cfg, true, mem, user, keyData, key).1;
            JudgeKey(env, cfg, true, mem', user, keyData, key).1.calls != mem'.calls
            <==> |mem.calls| >= 16 && Offer(user, keyData) !in mem.calls[..16]
  {
    hide AskCallback;
    KeyMirrored(env, cfg, mem, user, keyData, key);
    var mem' := JudgeKey(env, cfg, true, mem, user, keyData, key).1;
    LookupFinds(mem.cache, user, keyData);
    LookupFinds(mem'.cache, user, keyData);
    if Lookup(mem.cache, user, keyData).Some? {
      var i :| 0 <= i < |mem.cache| && mem.cache[i] == Lookup(mem.cache, user, keyData).value;
      assert |mem.calls| >= MAX_CACHED_PUB_KEYS ==> mem.calls[..MAX_CACHED_PUB_KEYS][i] == Offer(user, keyData);
    } else {
      forall i | 0 <= i < |mem.cache| ensures mem.calls[i] != Offer(user, keyData) {
        assert mem.cache[i] in mem.cache;
      }
      if |mem.cache| < MAX_CACHED_PUB_KEYS {
        assert mem'.cache[|mem.cache|] in mem'.cache;
      }
    }
  }

  /** With a deterministic callback a request is granted if and only if it is acceptable. */
  lemma GrantIffAcceptable(env: Env, cfg: Config, mem: Memory, req: Request, rest: seq<Bytes>, g: Granted)
    requires Deterministic(cfg) && Sound(env, cfg, mem) && req.service == Ascii("ssh-connection")
    ensures var (turn, mem', _, _) := Judge(env, cfg, true, mem, req, rest);
            turn == Grant(g) <==> Acceptable(env, cfg, mem'.calls, req, rest, g)
  {
    hide ParsePublicKey, IsAcceptableAlgo, Sound, Wire.BuildDataSignedForAuth, JudgeKey, Ascii, Wire.ParseString, Deterministic, AskCallback, KeyAccepted;
    GrantIsAcceptable(env, cfg, mem, req, rest);
    if req.method_ == Ascii("publickey") && cfg.publicKey.Some? && SplitPayload(req.payload).Some? {
      MethodNamesDiffer();
      var (query, algo, more) := SplitPayload(req.payload).value;
      if IsAcceptableAlgo(algo) && Wire.ParseString(more).Got? && ParsePublicKey(env.onCurve, Wire.ParseString(more).out).Ok? {
        VerdictIs(env, cfg, mem, req.user, Wire.ParseString(more).out, g.perms);
      }
    }
  }

  /** A request that is not just refused: it ends the connection. A password request does with anything but a zero byte and one
      string; a publickey request does if its payload does not come apart, and with a known algorithm also if its key does not
      parse, if a query has something after the key, if a proof has no well-formed signature there, or if that signature is of a
      known format and does not verify. Nothing depends on what the callbacks say. */
  predicate EndsConnection(env: Env, cfg: Config, req: Request) {
    || (req.method_ == Ascii("password") && cfg.password.Some? && PasswordIn(req.payload).None?)
    || (req.method_ == Ascii("publickey") && cfg.publicKey.Some? &&
        (SplitPayload(req.payload).None? ||
         var (query, algo, more) := SplitPayload(req.payload).value;
         IsAcceptableAlgo(algo) && !WellFormed(env, req, query, algo, more)))
  }

  predicate WellFormed(env: Env, req: Request, query: bool, algo: Bytes, more: Bytes) {
    && Wire.ParseString(more).Got?
    && var (keyData, rest) := (Wire.ParseString(more).out, Wire.ParseString(more).rest);
    && ParsePublicKey(env.onCurve, keyData).Ok?
    && if query then rest == []
       else
         && ParseSignatureField(rest).Some?
         && var sig := ParseSignatureField(rest).value;
         IsAcceptableAlgo(sig.format) ==>
           env.verify(ParsePublicKey(env.onCurve, keyData).value,
                      Wire.BuildDataSignedForAuth(env.session, req.user, req.service, req.method_, algo, keyData), sig)
  }

  lemma FailsIff(env: Env, cfg: Config, mem: Memory, req: Request, rest: seq<Bytes>)
    ensures Judge(env, cfg, true, mem, req, rest).0.Fail? <==> EndsConnection(env, cfg, req)
  {
    hide ParsePublicKey, IsAcceptableAlgo, Wire.BuildDataSignedForAuth, JudgeKey, Ascii, Wire.ParseString, ParseSignatureField, PasswordIn;
    MethodNamesDiffer();
  }

  /** The next request gets no answer exactly if it is malformed, is for another service, or ends the connection in that sense. */
  lemma NoAnswerIff(env: Env, cfg: Config, mem: Memory, input: seq<Bytes>)
    requires input != [] && Methods(cfg) != []
    ensures var p := ParseRequest(input[0]);
            Auth(env, cfg, true, mem, input).out == [] <==>
            p.Err? || p.value.service != Ascii("ssh-connection")
            || (EndsConnection(env, cfg, p.value) && Judge(env, cfg, true, mem, p.value, input[1..]).3 == [])
  {
    hide ParseRequest, Ascii, KeyOkMsg, FailureMsg, Methods, Judge, EndsConnection;
    var p := ParseRequest(input[0]);
    if p.Ok? {
      FailsIff(env, cfg, mem, p.value, input[1..]);
      TakesNoMore(env, cfg, mem, p.value, input[1..]);
    }
  }

  /** A query is answered with the OK message, for its own algorithm and key, exactly if it is well-formed, its algorithm is known and
      the callback's verdict on the key, as it stands in the cache or is given now, is to accept it. */
  lemma KeyOkIff(env: Env, cfg: Config, mem: Memory, req: Request, rest: seq<Bytes>, algo: Bytes, keyData: Bytes)
    ensures Judge(env, cfg, true, mem, req, rest).0 == KeyOk(algo, keyData) <==>
            && req.method_ == Ascii("publickey") && cfg.publicKey.Some? && IsAcceptableAlgo(algo)
            && SplitPayload(req.payload).Some?
            && var (query, a, more) := SplitPayload(req.payload).value;
            && query && a == algo && Wire.ParseString(more) == Wire.Got(keyData, []) && ParsePublicKey(env.onCurve, keyData).Ok?
            && JudgeKey(env, cfg, true, mem, req.user, keyData, ParsePublicKey(env.onCurve, keyData).value).0.ok
  {
    hide ParsePublicKey, IsAcceptableAlgo, Wire.BuildDataSignedForAuth, JudgeKey, Ascii, Wire.ParseString, ParseSignatureField, PasswordIn;
    MethodNamesDiffer();
  }

  lemma MethodNamesDiffer()
    ensures |Ascii("publickey")| == 9 && |Ascii("none")| == 4 && |Ascii("password")| == 8 && |Ascii("keyboard-interactive")| == 20
  {
  }

  lemma VerdictIs(env: Env, cfg: Config, mem: Memory, user: Bytes, keyData: Bytes, perms: Option<Perms>)
    requires Deterministic(cfg) && cfg.publicKey.Some? && ParsePublicKey(env.onCurve, keyData).Ok? && Sound(env, cfg, mem)
    ensures var key := ParsePublicKey(env.onCurve, keyData).value;
            var (v, mem') := JudgeKey(env, cfg, true, mem, user, keyData, key);
            v == Verdict(true, perms) <==> KeyAccepted(env, cfg, mem'.calls, user, keyData, key, perms)
  {
    hide ParsePublicKey;
    KeyJudged(env, cfg, mem, user, keyData);
    LookupFinds(mem.cache, user, keyData);
  }

  // ----- the payloads -----

  lemma PasswordMeans(payload: Bytes, pw: Bytes)
    requires |payload| < TWO32
    ensures PasswordIn(payload) == Some(pw) <==> payload == [0] + Wire.EncodeString(pw)
  {
    hide Wire.ParseString;
    if PasswordIn(payload) == Some(pw) {
      Wire.StringIsCanonical(payload[1..]);
      assert payload == [0] + payload[1..];
    }
    if payload == [0] + Wire.EncodeString(pw) {
      assert payload[1..] == Wire.EncodeString(pw) + [];
      Wire.StringRoundTrip(pw, []);
    }
  }

  /** A proof is exactly a non-zero byte, the algorithm, the key and a signature, each as a string. */
  lemma ProofMeans(payload: Bytes, algo: Bytes, keyData: Bytes, sig: Signature)
    requires |payload| < TWO32
    ensures && SplitPayload(payload).Some? && !SplitPayload(payload).value.0 && SplitPayload(payload).value.1 == algo
            && Wire.ParseString(SplitPayload(payload).value.2).Got? && Wire.ParseString(SplitPayload(payload).value.2).out == keyData
            && ParseSignatureField(Wire.ParseString(SplitPayload(payload).value.2).rest) == Some(sig)
            <==>
            && payload != [] && payload[0] != 0
            && payload[1..] == Wire.EncodeString(algo) + (Wire.EncodeString(keyData) + Wire.EncodeString(MarshalSignature(sig)))
  {
    hide Wire.ParseString, MarshalSignature, ParseSignature;
    if payload != [] {
      Taking(payload[1..], algo);
      if Wire.ParseString(payload[1..]).Got? {
        var more := Wire.ParseString(payload[1..]).rest;
        Taking(more, keyData);
        if Wire.ParseString(more).Got? {
          SignatureMeans(Wire.ParseString(more).rest, sig);
        }
      }
      var (k, s) := (Wire.EncodeString(keyData), Wire.EncodeString(MarshalSignature(sig)));
      if payload[1..] == Wire.EncodeString(algo) + (k + s) {
        StringFirst(payload[1..], algo, k + s);
        StringFirst(k + s, keyData, s);
        SignatureMeans(s, sig);
      }
    }
  }

  lemma Taking(input: Bytes, s: Bytes)
    ensures Wire.ParseString(input).Got? ==>
              input == Wire.EncodeString(Wire.ParseString(input).out) + Wire.ParseString(input).rest && |Wire.ParseString(input).rest| <= |input|
  {
    hide Wire.ParseString;
    if Wire.ParseString(input).Got? {
      Wire.StringIsCanonical(input);
    }
  }

  lemma StringFirst(input: Bytes, s: Bytes, rest: Bytes)
    requires |input| < TWO32
    ensures input == Wire.EncodeString(s) + rest ==> Wire.ParseString(input) == Wire.Got(s, rest)
  {
    if input == Wire.EncodeString(s) + rest {
      Wire.StringRoundTrip(s, rest);
    }
  }

  lemma SignatureMeans(payload: Bytes, sig: Signature)
    requires |payload| < TWO32
    ensures ParseSignatureField(payload) == Some(sig) <==> payload == Wire.EncodeString(MarshalSignature(sig))
  {
    hide Wire.ParseString, ParseSignature;
    Taking(payload, []);
    StringFirst(payload, MarshalSignature(sig), []);
    assert Wire.EncodeString(MarshalSignature(sig)) + [] == Wire.EncodeString(MarshalSignature(sig));
    if ParseSignatureField(payload) == Some(sig) {
      SignatureRemarshal(Wire.ParseString(payload).out);
    }
    if payload == Wire.EncodeString(MarshalSignature(sig)) {
      SignatureRoundTrip(sig);
    }
  }
}
