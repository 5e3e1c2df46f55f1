/** The keyboard-interactive method: the client's dialogue (client_auth.go: KeyboardInteractiveChallenge) and the server's
    question to it (server.go of the library: Challenge), RFC 4256. */
module KeyboardInteractive {
  import opened ByteStrings
  import opened ClientAuth
  import opened Results
  import ServerAuth
  import Wire

  /** A question, and whether its answer may be shown. */
  datatype Prompt = Prompt(question: Bytes, echo: bool)

  /** The client's callback: from a user name, an instruction and the prompts to the answers, or an error. */
  type Challenge = (Bytes, Bytes, seq<Prompt>) -> Option<seq<Bytes>>

  const INITIATE := Wire.Schema(50, [Wire.KString, Wire.KString, Wire.KString, Wire.KString, Wire.KString])
  const INFO_REQUEST := Wire.Schema(60, [Wire.KString, Wire.KString, Wire.KString, Wire.KU32, Wire.KRest])

  function Method(): Bytes {
    Ascii("keyboard-interactive")
  }

  function InitiateMsg(user: Bytes): Bytes {
    Wire.MarshalSpec(INITIATE, [Wire.VString(user), Wire.VString(SshConnection()), Wire.VString(Method()), Wire.VString([]), Wire.VString([])])
  }

  // ----- what goes over the wire -----

  function EncodePrompts(prompts: seq<Prompt>): Bytes {
    if prompts == [] then []
    else Wire.EncodeString(prompts[0].question) + ([if prompts[0].echo then 1 else 0] + EncodePrompts(prompts[1..]))
  }

  function InfoRequest(instruction: Bytes, prompts: seq<Prompt>): Bytes {
    Wire.MarshalSpec(INFO_REQUEST,
      [Wire.VString([]), Wire.VString(instruction), Wire.VString([]), Wire.VU32(|prompts| % TWO32), Wire.VRest(EncodePrompts(prompts))])
  }

  function EncodeStrings(answers: seq<Bytes>): Bytes {
    if answers == [] then [] else Wire.EncodeString(answers[0]) + EncodeStrings(answers[1..])
  }

  function AnswerMsg(answers: seq<Bytes>): Bytes {
    [61] + (U32(|answers|) + EncodeStrings(answers))
  }

  // ----- the client -----

  function ReadPrompts(n: nat, data: Bytes): Result<seq<Prompt>, ClientError> {
    if n == 0 then
      if data == [] then Ok([]) else Err(ExtraPromptData)
    else
      match Wire.ParseString(data)
      case Short => Err(PromptFormat)
      case SliceFault => Err(BadMessage(Wire.SliceOutOfRange))
      case Got(question, rest) =>
        if rest == [] then Err(PromptFormat) else After(Prompt(question, rest[0] != 0), ReadPrompts(n - 1, rest[1..]))
  }

  function After<T>(x: T, more: Result<seq<T>, ClientError>): Result<seq<T>, ClientError> {
    match more
    case Err(e) => Err(e)
    case Ok(xs) => Ok([x] + xs)
  }

  /** What comes of what is still to be read, after what has been. */
  function Joined<T>(xs: seq<T>, more: Result<seq<T>, ClientError>): Result<seq<T>, ClientError> {
    match more
    case Err(e) => Err(e)
    case Ok(ys) => Ok(xs + ys)
  }

  lemma JoinedOne<T>(xs: seq<T>, x: T, more: Result<seq<T>, ClientError>)
    ensures Joined(xs, After(x, more)) == Joined(xs + [x], more)
    ensures Joined([], more) == more
  {
    if more.Ok? {
      assert xs + ([x] + more.value) == xs + [x] + more.value;
      assert [] + more.value == more.value;
    }
  }

  /** The loop over the prompts. */
  method UnpackPrompts(n: nat, data: Bytes) returns (r: Result<seq<Prompt>, ClientError>)
    ensures r == ReadPrompts(n, data) && (r.Ok? ==> |r.value| == n)
  {
    hide Wire.ParseString;
    var prompts: seq<Prompt>, rest := [], data;
    JoinedOne([], Prompt([], false), ReadPrompts(n, data));
    for i := 0 to n
      invariant |prompts| == i
      invariant ReadPrompts(n, data) == Joined(prompts, ReadPrompts(n - i, rest))
    {
      var p := Wire.ParseString(rest);
      if p.SliceFault? {
        return Err(BadMessage(Wire.SliceOutOfRange));
      }
      if p.Short? || p.rest == [] {
        return Err(PromptFormat);
      }
      JoinedOne(prompts, Prompt(p.out, p.rest[0] != 0), ReadPrompts(n - i - 1, p.rest[1..]));
      prompts := prompts + [Prompt(p.out, p.rest[0] != 0)];
      rest := p.rest[1..];
    }
    if rest != [] {
      return Err(ExtraPromptData);
    }
    assert prompts + [] == prompts;
    return Ok(prompts);
  }

  /** The answer to one request for information. */
  function Answer(challenge: Challenge, packet: Bytes): Result<Bytes, ClientError> {
    match Wire.UnmarshalSpec(INFO_REQUEST, packet)
    case Err(e) => Err(BadMessage(e))
    case Ok(v) =>
      if !(|v| == 5 && v[0].VString? && v[1].VString? && v[3].VU32? && v[4].VRest?) then Err(PromptFormat)
      else
        match ReadPrompts(v[3].n32, v[4].rest)
        case Err(e) => Err(e)
        case Ok(prompts) =>
          match challenge(v[0].str, v[1].str, prompts)
          case None => Err(NoAnswers)
          case Some(answers) => if |answers| != |prompts| then Err(WrongAnswerCount) else Ok(AnswerMsg(answers))
  }

  /** The loop of auth, after the initial message. */
  function Dialogue(challenge: Challenge, input: seq<Bytes>): Attempt
    decreases |input|
  {
    if input == [] || input[0] == [] then Attempt(Err(NoPacket), [], 0)
    else if input[0][0] == BANNER then Following([], 1, Dialogue(challenge, input[1..]))
    else if input[0][0] == 60 then
      match Answer(challenge, input[0])
      case Err(e) => Attempt(Err(e), [], 1)
      case Ok(m) => Following([m], 1, Dialogue(challenge, input[1..]))
    else if input[0][0] == 51 || input[0][0] == 52 then Attempt(Response([input[0]]).0, [], 1)
    else Attempt(Err(Unexpected(input[0][0])), [], 1)
  }

  function Auth(challenge: Challenge, user: Bytes, input: seq<Bytes>): Attempt {
    Following([InitiateMsg(user)], 0, Dialogue(challenge, input))
  }

  function KeyboardMethod(challenge: Challenge): AuthMethod {
    AuthMethod(Method(), (session, user, input) => Auth(challenge, user, input))
  }

  /** The answers, written one after the other. */
  method WriteAnswers(answers: seq<Bytes>) returns (m: Bytes)
    ensures m == AnswerMsg(answers)
  {
    hide Wire.EncodeString;
    m := [61] + U32(|answers|);
    for i := 0 to |answers|
      invariant m + EncodeStrings(answers[i..]) == AnswerMsg(answers)
    {
      assert answers[i..][1..] == answers[i + 1..];
      m := m + Wire.EncodeString(answers[i]);
    }
    assert m + [] == m;
  }

  /** One request for information, as auth handles it. */
  method AnswerRequest(challenge: Challenge, packet: Bytes) returns (r: Result<Bytes, ClientError>)
    ensures r == Answer(challenge, packet)
  {
    hide ReadPrompts, AnswerMsg, Wire.UnmarshalSpec;
    var msg := Wire.Unmarshal(INFO_REQUEST, packet);
    if msg.Err? {
      return Err(BadMessage(msg.error));
    }
    var v := msg.value;
    if !(|v| == 5 && v[0].VString? && v[1].VString? && v[3].VU32? && v[4].VRest?) {
      return Err(PromptFormat);
    }
    var prompts := UnpackPrompts(v[3].n32, v[4].rest);
    if prompts.Err? {
      return Err(prompts.error);
    }
    var answers := challenge(v[0].str, v[1].str, prompts.value);
    if answers.None? {
      return Err(NoAnswers);
    }
    if |answers.value| != |prompts.value| {
      return Err(WrongAnswerCount);
    }
    var m := WriteAnswers(answers.value);
    return Ok(m);
  }

  /** auth. */
  method RunAuth(challenge: Challenge, user: Bytes, input: seq<Bytes>) returns (a: Attempt)
    ensures a == Auth(challenge, user, input)
  {
    hide Answer, Response, InitiateMsg;
    var sent, taken: nat := [InitiateMsg(user)], 0;
    assert input[0..] == input;
    while taken < |input| && |input[taken]| > 0
      invariant taken <= |input|
      invariant Auth(challenge, user, input) == Following(sent, taken, Dialogue(challenge, input[taken..]))
      decreases |input| - taken
    {
      var packet := input[taken];
      var rest := input[taken + 1..];
      assert input[taken..][0] == packet && input[taken..][1..] == rest;
      if packet[0] == BANNER {
        FollowingTwice(sent, taken, [], 1, Dialogue(challenge, rest));
        assert sent + [] == sent;
      } else if packet[0] == 60 {
        var m := AnswerRequest(challenge, packet);
        if m.Err? {
          return Attempt(Err(m.error), sent + [], taken + 1);
        }
        FollowingTwice(sent, taken, [m.value], 1, Dialogue(challenge, rest));
        sent := sent + [m.value];
      } else if packet[0] == 51 || packet[0] == 52 {
        var r, n := HandleAuthResponse([packet]);
        return Attempt(r, sent + [], taken + 1);
      } else {
        return Attempt(Err(Unexpected(packet[0])), sent + [], taken + 1);
      }
      taken := taken + 1;
    }
    return Attempt(Err(NoPacket), sent + [], taken);
  }

  // ----- the server's question -----

  /** How Challenge ends. */
  datatype AnswerError = NoAnswer | WrongMessage(tag: byte) | BadAnswer | Junk | AnswerFault

  function ReadAnswers(n: nat, data: Bytes): Result<seq<Bytes>, AnswerError> {
    if n == 0 then
      if data == [] then Ok([]) else Err(Junk)
    else
      match Wire.ParseString(data)
      case Short => Err(BadAnswer)
      case SliceFault => Err(AnswerFault)
      case Got(answer, rest) =>
        match ReadAnswers(n - 1, rest)
        case Err(e) => Err(e)
        case Ok(more) => Ok([answer] + more)
  }

  /** Challenge: what it makes of the packet that comes back. */
  function AnswersIn(count: nat, packet: Bytes): Result<seq<Bytes>, AnswerError> {
    if packet == [] then Err(NoAnswer)
    else if packet[0] != 61 then Err(WrongMessage(packet[0]))
    else if |packet| < 5 || BytesToNat(packet[1..5]) != count then Err(BadAnswer)
    else ReadAnswers(count, packet[5..])
  }

  /** The loop of Challenge over its questions. */
  method PackPrompts(prompts: seq<Prompt>) returns (data: Bytes)
    ensures data == EncodePrompts(prompts)
  {
    hide Wire.EncodeString;
    data := [];
    for i := 0 to |prompts|
      invariant data + EncodePrompts(prompts[i..]) == EncodePrompts(prompts)
    {
      assert prompts[i..][1..] == prompts[i + 1..];
      var question := Wire.EncodeString(prompts[i].question);
      var echo := [if prompts[i].echo then 1 else 0];
      Regrouped(data, question, echo, EncodePrompts(prompts[i + 1..]));
      data := data + question + echo;
    }
    assert data + [] == data;
  }

  lemma Regrouped(a: Bytes, b: Bytes, c: Bytes, d: Bytes)
    ensures a + (b + (c + d)) == a + b + c + d
  {
  }

  /** What comes of the answers still to be read, after those that have been. */
  function Read(answers: seq<Bytes>, more: Result<seq<Bytes>, AnswerError>): Result<seq<Bytes>, AnswerError> {
    match more
    case Err(e) => Err(e)
    case Ok(xs) => Ok(answers + xs)
  }

  lemma ReadOne(answers: seq<Bytes>, n: nat, data: Bytes)
    requires n > 0 && Wire.ParseString(data).Got?
    ensures var p := Wire.ParseString(data); Read(answers, ReadAnswers(n, data)) == Read(answers + [p.out], ReadAnswers(n - 1, p.rest))
  {
    hide Wire.ParseString;
    var p := Wire.ParseString(data);
    var more := ReadAnswers(n - 1, p.rest);
    if more.Ok? {
      assert answers + ([p.out] + more.value) == answers + [p.out] + more.value;
    }
  }

  /** What Challenge does with the packet that comes back; its loop over the answers. */
  method TakeAnswers(count: nat, packet: Bytes) returns (r: Result<seq<Bytes>, AnswerError>)
    ensures r == AnswersIn(count, packet)
  {
    hide Wire.ParseString;
    if |packet| == 0 {
      return Err(NoAnswer);
    }
    if packet[0] != 61 {
      return Err(WrongMessage(packet[0]));
    }
    if |packet| < 5 || BytesToNat(packet[1..5]) != count {
      return Err(BadAnswer);
    }
    var answers: seq<Bytes>, rest := [], packet[5..];
    ghost var all := ReadAnswers(count, rest);
    assert all.Ok? ==> [] + all.value == all.value;
    for i := 0 to count
      invariant all == Read(answers, ReadAnswers(count - i, rest))
    {
      var p := Wire.ParseString(rest);
      if p.SliceFault? {
        return Err(AnswerFault);
      }
      if p.Short? {
        return Err(BadAnswer);
      }
      ReadOne(answers, count - i, rest);
      answers := answers + [p.out];
      rest := p.rest;
    }
    if |rest| != 0 {
      return Err(Junk);
    }
    assert answers + [] == answers;
    return Ok(answers);
  }

  // ----- results -----

  lemma {:induction false} PromptsRoundTrip(prompts: seq<Prompt>)
    requires |EncodePrompts(prompts)| < TWO32
    ensures ReadPrompts(|prompts|, EncodePrompts(prompts)) == Ok(prompts) && |prompts| <= |EncodePrompts(prompts)|
  {
    hide Wire.ParseString, Wire.EncodeString;
    if prompts != [] {
      var p := prompts[0];
      var rest := [if p.echo then 1 else 0] + EncodePrompts(prompts[1..]);
      assert |Wire.EncodeString(p.question)| == 4 + |p.question| by { StringLength(p.question); }
      Wire.StringRoundTrip(p.question, rest);
      assert rest[1..] == EncodePrompts(prompts[1..]);
      PromptsRoundTrip(prompts[1..]);
      assert prompts == [p] + prompts[1..];
    }
  }

  lemma StringLength(s: Bytes)
    ensures |Wire.EncodeString(s)| == 4 + |s|
  {
  }

  lemma {:induction false} AnswersRoundTrip(answers: seq<Bytes>)
    requires |EncodeStrings(answers)| < TWO32
    ensures ReadAnswers(|answers|, EncodeStrings(answers)) == Ok(answers) && |answers| <= |EncodeStrings(answers)|
  {
    hide Wire.ParseString, Wire.EncodeString;
    if answers != [] {
      StringLength(answers[0]);
      Wire.StringRoundTrip(answers[0], EncodeStrings(answers[1..]));
      AnswersRoundTrip(answers[1..]);
      assert answers == [answers[0]] + answers[1..];
    }
  }

  /** The server reads a client's answers as what they are, if and only if there is one for every question. */
  lemma AnswersArriveIff(answers: seq<Bytes>, count: nat)
    requires |AnswerMsg(answers)| < TWO32
    ensures AnswersIn(count, AnswerMsg(answers)) == if |answers| == count then Ok(answers) else Err(BadAnswer)
  {
    hide ReadAnswers, EncodeStrings;
    var m := AnswerMsg(answers);
    AnswersRoundTrip(answers);
    WordRoundTrip(|answers|);
    assert m[1..5] == U32(|answers|) && m[5..] == EncodeStrings(answers);
  }

  /** The client's callback is asked exactly what the server asks: the instruction, and the prompts with their echo flags, in
      order; but not for which user. */
  lemma QuestionsArrive(challenge: Challenge, instruction: Bytes, prompts: seq<Prompt>)
    requires |InfoRequest(instruction, prompts)| < TWO32
    ensures var answers := challenge([], instruction, prompts);
            Answer(challenge, InfoRequest(instruction, prompts)) ==
            if answers.None? then Err(NoAnswers) else if |answers.value| != |prompts| then Err(WrongAnswerCount) else Ok(AnswerMsg(answers.value))
  {
    hide Wire.UnmarshalSpec, Wire.EncodeFields, ReadPrompts, EncodePrompts, AnswerMsg;
    var fields := [Wire.VString([]), Wire.VString(instruction), Wire.VString([]), Wire.VU32(|prompts|), Wire.VRest(EncodePrompts(prompts))];
    PromptsFit(instruction, prompts);
    PromptsRoundTrip(prompts);
    Wire.UnmarshalMarshal(INFO_REQUEST, fields);
  }

  lemma PromptsFit(instruction: Bytes, prompts: seq<Prompt>)
    ensures |EncodePrompts(prompts)| <= |InfoRequest(instruction, prompts)|
  {
    hide EncodePrompts, Wire.EncodeString;
    var (a, b, c, d) := (Wire.VString([]), Wire.VString(instruction), Wire.VString([]), Wire.VU32(|prompts| % TWO32));
    var e := Wire.VRest(EncodePrompts(prompts));
    FourFields(a, b, c, [d, e]);
    assert [a, b, c] + [d, e] == [a, b, c, d, e];
    assert [d, e][1..] == [e];
    Single(e);
  }

  /** One question of the server's and the client's answer: the server has in the end exactly what the client's callback
      returns for exactly what the server asked, and the client waits for the next packet. */
  lemma ChallengeRoundTrip(challenge: Challenge, instruction: Bytes, prompts: seq<Prompt>, more: seq<Bytes>)
    requires |InfoRequest(instruction, prompts)| < TWO32
    requires challenge([], instruction, prompts).Some? && |challenge([], instruction, prompts).value| == |prompts|
    requires |AnswerMsg(challenge([], instruction, prompts).value)| < TWO32
    ensures var answers := challenge([], instruction, prompts).value;
            && Dialogue(challenge, [InfoRequest(instruction, prompts)] + more) == Following([AnswerMsg(answers)], 1, Dialogue(challenge, more))
            && AnswersIn(|prompts|, AnswerMsg(answers)) == Ok(answers)
  {
    hide Answer, AnswersIn, AnswerMsg, Wire.EncodeFields, Following;
    QuestionsArrive(challenge, instruction, prompts);
    AnswersArriveIff(challenge([], instruction, prompts).value, |prompts|);
    var m := InfoRequest(instruction, prompts);
    assert ([m] + more)[1..] == more;
    assert m[0] == 60;
  }
}
