/** The program's own ServerConfig (main.go) and callbacks (server.go): every key a client offers is recorded for its
    session and refused, so that the client goes on to offer the next one, and keyboard-interactive lets it in. */
module AppServer {
  import opened ByteStrings
  import opened PublicKeys
  import opened Results
  import opened ServerAuth
  import Wire

  /** publicKeyCallback never accepts; keyboardInteractiveCallback always does, without asking anything. The calls of
      publicKeyCallback, in order, are the entry of sessions.keys for the session. */
  function AppConfig(): Config {
    Config(false, None, Some((calls: seq<Offer>, user: Bytes, key: PublicKey) => Verdict(false, None)),
           Some((user: Bytes, rest: seq<Bytes>) => Interactive(Verdict(true, None), 0, [])))
  }

  /** The user and key a packet offers, if it is a publickey request that gets as far as the callback. */
  function OfferIn(env: Env, packet: Bytes): Option<Offer> {
    match ParseRequest(packet)
    case Err(_) => None
    case Ok(req) =>
      if req.method_ != Ascii("publickey") then None
      else
        match SplitPayload(req.payload)
        case None => None
        case Some((query, algo, more)) =>
          match Wire.ParseString(more)
          case Got(keyData, rest) =>
            if IsAcceptableAlgo(algo) && ParsePublicKey(env.onCurve, keyData).Ok? then Some(Offer(req.user, keyData)) else None
          case _ => None
  }

  predicate IsKeyboard(packet: Bytes) {
    ParseRequest(packet).Ok? && ParseRequest(packet).value.method_ == Ascii("keyboard-interactive")
  }

  predicate Refusing(mem: Memory) {
    forall c | c in mem.cache :: !c.verdict.ok
  }

  lemma KeyTurn(env: Env, mem: Memory, user: Bytes, keyData: Bytes, key: PublicKey)
    requires Mirrors(mem) && Refusing(mem)
    ensures var (v, mem') := JudgeKey(env, AppConfig(), true, mem, user, keyData, key);
            && !v.ok && Mirrors(mem') && Refusing(mem') && Offer(user, keyData) in mem'.calls
            && (mem'.calls == mem.calls || mem'.calls == mem.calls + [Offer(user, keyData)])
  {
    LookupFinds(mem.cache, user, keyData);
    KeyMirrored(env, AppConfig(), mem, user, keyData, key);
    var (v, mem') := JudgeKey(env, AppConfig(), true, mem, user, keyData, key);
    if Lookup(mem.cache, user, keyData).Some? {
      var c := Lookup(mem.cache, user, keyData).value;
      var i :| 0 <= i < |mem.cache| && mem.cache[i] == c;
      assert mem.calls[i] == Offer(user, keyData);
    } else {
      assert mem'.calls[|mem.calls|] == Offer(user, keyData);
    }
  }

  /** One request: an offer is recorded and never accepted, keyboard-interactive is accepted, nothing else is. */
  lemma AppTurn(env: Env, mem: Memory, packet: Bytes, rest: seq<Bytes>)
    requires Mirrors(mem) && Refusing(mem) && ParseRequest(packet).Ok?
    ensures var (turn, mem', taken, said) := Judge(env, AppConfig(), true, mem, ParseRequest(packet).value, rest);
            && Mirrors(mem') && Refusing(mem') && taken == 0 && said == []
            && (turn.Grant? <==> IsKeyboard(packet)) && (turn.Grant? ==> turn.granted.perms == None)
            && !turn.KeyOk? && (turn.Grant? ==> mem'.calls == mem.calls)
            && (mem'.calls == mem.calls || (OfferIn(env, packet).Some? && mem'.calls == mem.calls + [OfferIn(env, packet).value]))
            && (OfferIn(env, packet).Some? ==> OfferIn(env, packet).value in mem'.calls)
  {
    hide ParsePublicKey, IsAcceptableAlgo, ParseRequest, JudgeKey, Ascii, Wire.ParseString, Mirrors, Refusing;
    MethodNamesDiffer();
    var req := ParseRequest(packet).value;
    if req.method_ == Ascii("publickey") && SplitPayload(req.payload).Some? {
      var (query, algo, more) := SplitPayload(req.payload).value;
      if Wire.ParseString(more).Got? && ParsePublicKey(env.onCurve, Wire.ParseString(more).out).Ok? {
        KeyTurn(env, mem, req.user, Wire.ParseString(more).out, ParsePublicKey(env.onCurve, Wire.ParseString(more).out).value);
      }
    }
  }

  /** The record after the first n packets: every offer among them, and nothing else. */
  predicate Recorded(env: Env, before: seq<Offer>, input: seq<Bytes>, n: nat, calls: seq<Offer>)
    requires n <= |input|
  {
    && before <= calls
    && (forall j | 0 <= j < n && OfferIn(env, input[j]).Some? :: OfferIn(env, input[j]).value in calls)
    && (forall c | |before| <= c < |calls| :: exists j | 0 <= j < n :: OfferIn(env, input[j]) == Some(calls[c]))
  }

  lemma RecordedStep(env: Env, before: seq<Offer>, mid: seq<Offer>, input: seq<Bytes>, n: nat, calls: seq<Offer>)
    requires n + 1 <= |input| && Recorded(env, mid, input[1..], n, calls)
    requires mid == before || (OfferIn(env, input[0]).Some? && mid == before + [OfferIn(env, input[0]).value])
    requires OfferIn(env, input[0]).Some? ==> OfferIn(env, input[0]).value in mid
    ensures Recorded(env, before, input, n + 1, calls)
  {
    hide OfferIn;
    forall j | 0 <= j < n + 1 && OfferIn(env, input[j]).Some?
      ensures OfferIn(env, input[j]).value in calls
    {
      if j > 0 {
        assert input[1..][j - 1] == input[j];
      }
    }
    forall c | |before| <= c < |calls|
      ensures exists j | 0 <= j < n + 1 :: OfferIn(env, input[j]) == Some(calls[c])
    {
      if c < |mid| {
        assert calls[c] == mid[c];
      } else {
        var j :| 0 <= j < n && OfferIn(env, input[1..][j]) == Some(calls[c]);
        assert input[j + 1] == input[1..][j];
      }
    }
  }

  lemma {:induction false} AppFrom(env: Env, mem: Memory, input: seq<Bytes>) returns (n: nat)
    requires Mirrors(mem) && Refusing(mem)
    ensures n <= |input|
    ensures var o := Auth(env, AppConfig(), true, mem, input);
            && Recorded(env, mem.calls, input, n, o.calls) && AskedOnce(o.calls)
            && (o.result.Ok? ==> n < |input| && IsKeyboard(input[n]) && o.result.value.perms == None)
            && (forall i | 0 <= i < n && i < |input| :: !IsKeyboard(input[i]))
    decreases |input|
  {
    hide ParseRequest, Judge, Ascii, FailureMsg, KeyOkMsg, OfferIn, IsKeyboard, Refusing;
    n := 0;
    if input != [] && ParseRequest(input[0]).Ok? && ParseRequest(input[0]).value.service == Ascii("ssh-connection") {
      var req := ParseRequest(input[0]).value;
      AppTurn(env, mem, input[0], input[1..]);
      var (turn, mem', taken, said) := Judge(env, AppConfig(), true, mem, req, input[1..]);
      if turn.Fail? {
        n := 1;
        RecordedNone(env, mem'.calls, input[1..]);
        RecordedStep(env, mem.calls, mem'.calls, input, 0, mem'.calls);
      } else if turn.Refuse? {
        assert Methods(AppConfig()) != [] by { assert Methods(AppConfig())[0] == Ascii("publickey"); }
        var k := AppFrom(env, mem', input[1..]);
        n := k + 1;
        RecordedStep(env, mem.calls, mem'.calls, input, k, Auth(env, AppConfig(), true, mem', input[1..]).calls);
        forall i | 0 <= i < n && i < |input| ensures !IsKeyboard(input[i]) {
          if i > 0 {
            assert input[i] == input[1..][i - 1];
          }
        }
      }
    }
  }

  lemma RecordedNone(env: Env, calls: seq<Offer>, input: seq<Bytes>)
    ensures Recorded(env, calls, input, 0, calls)
  {
  }

  /** This program lets a client in only at its first keyboard-interactive request, never by a key; and by then (or
      by the time authentication fails) the session's record holds exactly the keys the client has offered up to there,
      the first sixteen of them once each. */
  lemma AppRecordsAllOffers(env: Env, input: seq<Bytes>) returns (n: nat)
    ensures n <= |input|
    ensures var o := Auth(env, AppConfig(), true, Memory([], []), input);
            && Recorded(env, [], input, n, o.calls) && AskedOnce(o.calls)
            && (o.result.Ok? ==> n < |input| && IsKeyboard(input[n]) && o.result.value.perms == None
                                 && forall i | 0 <= i < n :: !IsKeyboard(input[i]))
  {
    hide Auth, OfferIn, IsKeyboard;
    n := AppFrom(env, Memory([], []), input);
  }

  /** A connection to the end of its authentication: its session id and what the client has sent. */
  datatype Visit = Visit(sessionID: Bytes, env: Env, input: seq<Bytes>)

  function OutcomeOf(v: Visit): Outcome {
    Auth(v.env, AppConfig(), true, Memory([], []), v.input)
  }

  /** What stays of it in the sessions variable once it is over: serve returns before its deferred call when the handshake
      has failed. */
  function LeftBy(v: Visit): seq<Offer> {
    if OutcomeOf(v).result.Ok? then [] else OutcomeOf(v).calls
  }

  /** The sessions variable: the keys offered in each session. */
  class Sessions {
    var keys: map<Bytes, seq<Offer>>

    constructor ()
      ensures keys == map[]
    {
      keys := map[];
    }

    /** publicKeyCallback: the key goes to the end of its session's list, and no other list changes. */
    method PublicKeyCallback(sessionID: Bytes, offer: Offer) returns (v: Verdict)
      modifies this
      ensures Of(sessionID) == old(Of(sessionID)) + [offer] && keys.Keys == old(keys.Keys) + {sessionID}
      ensures forall s | s != sessionID :: Of(s) == old(Of(s))
      ensures v == Verdict(false, None)
    {
      var had := if sessionID in keys then keys[sessionID] else [];
      keys := keys[sessionID := had + [offer]];
      return Verdict(false, None);
    }

    function Of(sessionID: Bytes): seq<Offer>
      reads this
    {
      if sessionID in keys then keys[sessionID] else []
    }

    /** The deferred end of serve. */
    method Forget(sessionID: Bytes)
      modifies this
      ensures Of(sessionID) == [] && keys.Keys == old(keys.Keys) - {sessionID}
      ensures forall s | s != sessionID :: Of(s) == old(Of(s))
    {
      keys := keys - {sessionID};
    }

    /** serve, from beginning to end, for a session that is new. */
    method Serve(v: Visit)
      requires v.sessionID !in keys
      modifies this
      ensures Of(v.sessionID) == LeftBy(v) && (v.sessionID in keys <==> LeftBy(v) != [])
      ensures forall s | s != v.sessionID :: Of(s) == old(Of(s)) && (s in keys <==> s in old(keys))
    {
      hide Auth;
      var result, out, calls := ServerAuthenticate(v.env, AppConfig(), v.input);
      for i := 0 to |calls|
        invariant Of(v.sessionID) == calls[..i] && (v.sessionID in keys <==> i > 0)
        invariant forall s | s != v.sessionID :: Of(s) == old(Of(s)) && (s in keys <==> s in old(keys))
      {
        var _ := PublicKeyCallback(v.sessionID, calls[i]);
        assert calls[..i + 1] == calls[..i] + [calls[i]];
      }
      assert calls[..|calls|] == calls;
      if result.Err? {
        return;
      }
      Forget(v.sessionID);
    }

    /** Any number of sessions: what remains in the end are the keys of exactly those that offered some and then were not
        let in, and these stay for good. */
    method ServeAll(visits: seq<Visit>)
      requires forall i, j | 0 <= i < j < |visits| :: visits[i].sessionID != visits[j].sessionID
      requires keys == map[]
      modifies this
      ensures forall i | 0 <= i < |visits| :: Of(visits[i].sessionID) == LeftBy(visits[i])
      ensures forall s :: s in keys <==> exists i | 0 <= i < |visits| :: visits[i].sessionID == s && LeftBy(visits[i]) != []
    {
      hide LeftBy;
      for n := 0 to |visits|
        invariant forall i | 0 <= i < n :: Of(visits[i].sessionID) == LeftBy(visits[i])
        invariant forall s :: s in keys <==> exists i | 0 <= i < n :: visits[i].sessionID == s && LeftBy(visits[i]) != []
      {
        Serve(visits[n]);
      }
    }
  }
}
