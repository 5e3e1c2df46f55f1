/** The messages of user authentication byte by byte: sections 5, 5.1, 5.2 and 7 of RFC 4252 and sections 3.1 to 3.4 of RFC 4256. */
module AuthForms {
  import opened ByteStrings
  import opened ClientAuth
  import opened KeyForms
  import opened PublicKeys
  import opened Results
  import KeyboardInteractive
  import ServerAuth
  import Wire

  const CONNECTION: string := "ssh-connection"

  /** What every request begins with. */
  function Head(user: Bytes, method_: string): Bytes {
    [50] + Str(user) + Str(Ascii(CONNECTION)) + Str(Ascii(method_))
  }

  lemma IsStr()
    ensures forall s :: Wire.EncodeField(Wire.VString(s)) == Str(s) && Wire.EncodeField(Wire.VBytes(s)) == Str(s)
    ensures forall b :: Wire.EncodeField(Wire.VRest(b)) == b && forall b :: Wire.EncodeField(Wire.VBool(b)) == if b then [1] else [0]
  {
  }

  /** The request of method none. */
  lemma NoneForm(user: Bytes)
    ensures NoneMsg(user) == Head(user, "none")
  {
    hide Wire.EncodeFields, Wire.EncodeField, Ascii, Str;
    IsStr();
    Wire.FourFields([Wire.VString(user), Wire.VString(SshConnection()), Wire.VString(Ascii("none")), Wire.VRest([])]);
  }

  /** A publickey request: a query carries 0 and nothing after the key, a proof 1 and the signature, itself a string of two strings. */
  lemma PublicKeyForm(user: Bytes, s: Signer, sig: Signature)
    ensures QueryMsg(user, s) == Head(user, "publickey") + [0] + Str(s.algo) + Str(s.pubKey)
    ensures ProofMsg(user, s, sig) ==
            Head(user, "publickey") + [1] + Str(s.algo) + Str(s.pubKey) + Str(Str(sig.format) + Str(sig.blob))
  {
    hide Wire.EncodeFields, Wire.EncodeField, Ascii, Wire.EncodeString, MarshalSignature;
    SignatureIs(sig);
    Request(user, s, false, []);
    Request(user, s, true, Wire.EncodeString(MarshalSignature(sig)));
  }

  lemma Request(user: Bytes, s: Signer, hasSig: bool, sig: Bytes)
    ensures PublicKeyMsg(user, s, hasSig, sig) == Head(user, "publickey") + [if hasSig then 1 else 0] + Str(s.algo) + Str(s.pubKey) + sig
  {
    hide Wire.EncodeFields, Wire.EncodeField, Ascii, Str;
    IsStr();
    var vs := [Wire.VString(user), Wire.VString(SshConnection()), Wire.VString(PublicKeyMethod()), Wire.VBool(hasSig),
               Wire.VString(s.algo), Wire.VBytes(s.pubKey), Wire.VRest(sig)];
    Wire.FourFields(vs[..4]);
    assert vs[..5] == vs[..4] + [vs[4]] && vs[..6] == vs[..5] + [vs[5]] && vs == vs[..6] + [vs[6]];
    Wire.EncodeFieldsSnoc(vs[..4], vs[4]);
    Wire.EncodeFieldsSnoc(vs[..5], vs[5]);
    Wire.EncodeFieldsSnoc(vs[..6], vs[6]);
  }

  /** The server reads user, service and method from their places, and the rest as the method's own. */
  lemma RequestIsRead(user: Bytes, service: Bytes, method_: Bytes, payload: Bytes)
    requires |[50] + Str(user) + Str(service) + Str(method_) + payload| < TWO32
    ensures ServerAuth.ParseRequest([50] + Str(user) + Str(service) + Str(method_) + payload) ==
            Ok(ServerAuth.Request(user, service, method_, payload))
  {
    hide Wire.EncodeFields, Wire.EncodeField, Str, Wire.UnmarshalSpec;
    IsStr();
    var vs := [Wire.VString(user), Wire.VString(service), Wire.VString(method_), Wire.VRest(payload)];
    Wire.FourFields(vs);
    assert Wire.MarshalSpec(ServerAuth.USER_AUTH_REQUEST, vs) == [50] + Str(user) + Str(service) + Str(method_) + payload;
    Wire.UnmarshalMarshal(ServerAuth.USER_AUTH_REQUEST, vs);
  }

  /** The server's answers: the methods that can go on, and no partial success; or the algorithm and key asked about. */
  lemma AnswerForms(cfg: ServerAuth.Config, algo: Bytes, keyData: Bytes)
    ensures ServerAuth.FailureMsg(cfg) == [51] + Str(Wire.Join(ServerAuth.Methods(cfg))) + [0]
    ensures ServerAuth.KeyOkMsg(algo, keyData) == [60] + Str(algo) + Str(keyData)
  {
    hide Wire.EncodeFields, Wire.EncodeString, Wire.Join, ServerAuth.Methods;
    Wire.TwoFields([Wire.VNames(ServerAuth.Methods(cfg)), Wire.VBool(false)]);
    Wire.TwoFields([Wire.VString(algo), Wire.VBytes(keyData)]);
  }

  // ----- keyboard-interactive -----

  lemma InitiateForm(user: Bytes)
    ensures KeyboardInteractive.InitiateMsg(user) == Head(user, "keyboard-interactive") + Str([]) + Str([])
  {
    hide Wire.EncodeFields, Wire.EncodeField, Ascii, Str;
    IsStr();
    var vs := [Wire.VString(user), Wire.VString(SshConnection()), Wire.VString(KeyboardInteractive.Method()), Wire.VString([]), Wire.VString([])];
    Wire.FourFields(vs[..4]);
    assert vs == vs[..4] + [vs[4]];
    Wire.EncodeFieldsSnoc(vs[..4], vs[4]);
  }

  function PromptForm(p: KeyboardInteractive.Prompt): Bytes {
    Str(p.question) + [if p.echo then 1 else 0]
  }

  /** The server's question: no name, the instruction, no language, the number of prompts, and each with its echo flag. */
  lemma QuestionForm(instruction: Bytes, prompts: seq<KeyboardInteractive.Prompt>)
    requires |prompts| < TWO32
    ensures KeyboardInteractive.InfoRequest(instruction, prompts) ==
            [60] + Str([]) + Str(instruction) + Str([]) + U32(|prompts|)
            + Concat(seq(|prompts|, i requires 0 <= i < |prompts| => PromptForm(prompts[i])))
  {
    hide Wire.EncodeFields, Wire.EncodeField, Str, U32, KeyboardInteractive.EncodePrompts, Concat, PromptForm;
    IsStr();
    PromptsForm(prompts);
    var vs := [Wire.VString([]), Wire.VString(instruction), Wire.VString([]), Wire.VU32(|prompts|),
               Wire.VRest(KeyboardInteractive.EncodePrompts(prompts))];
    Wire.FourFields(vs[..4]);
    assert vs == vs[..4] + [vs[4]];
    Wire.EncodeFieldsSnoc(vs[..4], vs[4]);
    Word(|prompts|);
  }

  lemma Word(n: nat)
    ensures Wire.EncodeField(Wire.VU32(n)) == U32(n)
  {
  }

  lemma {:induction false} PromptsForm(prompts: seq<KeyboardInteractive.Prompt>)
    ensures KeyboardInteractive.EncodePrompts(prompts) == Concat(seq(|prompts|, i requires 0 <= i < |prompts| => PromptForm(prompts[i])))
  {
    hide Wire.EncodeString;
    if prompts != [] {
      PromptsForm(prompts[1..]);
      var parts := seq(|prompts|, i requires 0 <= i < |prompts| => PromptForm(prompts[i]));
      assert parts[1..] == seq(|prompts| - 1, i requires 0 <= i < |prompts| - 1 => PromptForm(prompts[1..][i]));
    }
  }

  /** The client's answers: their number, and each as a string. */
  lemma {:induction false} AnswersForm(answers: seq<Bytes>)
    ensures KeyboardInteractive.AnswerMsg(answers) ==
            [61] + U32(|answers|) + Concat(seq(|answers|, i requires 0 <= i < |answers| => Str(answers[i])))
  {
    hide U32, KeyboardInteractive.EncodeStrings, Concat, Str;
    StringsForm(answers);
  }

  lemma {:induction false} StringsForm(answers: seq<Bytes>)
    ensures KeyboardInteractive.EncodeStrings(answers) == Concat(seq(|answers|, i requires 0 <= i < |answers| => Str(answers[i])))
  {
    hide Wire.EncodeString;
    if answers != [] {
      StringsForm(answers[1..]);
      var parts := seq(|answers|, i requires 0 <= i < |answers| => Str(answers[i]));
      assert parts[1..] == seq(|answers| - 1, i requires 0 <= i < |answers| - 1 => Str(answers[1..][i]));
    }
  }
}
