/** The page's session store and the button handlers that read and update it. */
module Session {
  import opened Text
  import opened Validation
  import opened Bullets
  import opened Parser
  import opened Prompts

  /** The choices of the three selectors; the first of each is its default. */
  const Relationships: seq<string> := ["取引先", "社内（上司）", "社内（同僚）", "お客様"]
  const Purposes: seq<string> := ["依頼", "お礼", "謝罪", "日程調整", "質問", "報告"]
  const Tones: seq<string> := ["丁寧", "ふつう", "カジュアル"]

  /** The keys of the session store: five inputs and the two outputs. */
  datatype Field = Relationship | Purpose | Tone | RequiredInfo | Signature | Subject | Body

  /** Every key, in the order the initialiser and the clear handler visit them. */
  const Fields: seq<Field> := [Relationship, Purpose, Tone, RequiredInfo, Signature, Subject, Body]

  lemma FieldsComplete(f: Field)
    ensures f in Fields
  {
    match f
    case Relationship => assert Fields[0] == f;
    case Purpose => assert Fields[1] == f;
    case Tone => assert Fields[2] == f;
    case RequiredInfo => assert Fields[3] == f;
    case Signature => assert Fields[4] == f;
    case Subject => assert Fields[5] == f;
    case Body => assert Fields[6] == f;
  }

  /** The value a key starts with. */
  function Default(f: Field): string {
    match f
    case Relationship => Relationships[0]
    case Purpose => Purposes[0]
    case Tone => Tones[0]
    case _ => ""
  }

  /** The defaults table, one entry per key. */
  function Defaults(): map<Field, string> {
    map f: Field | f in Fields :: Default(f)
  }

  /** The store after initialisation: values already present win over the defaults. */
  function Initialized(s: map<Field, string>): map<Field, string> {
    Defaults() + s
  }

  /** After initialisation every key is present; a key that was present keeps
      its value and a missing one gets its default, which for the selectors
      is one of their choices and for the texts is empty. Initialising again
      changes nothing. */
  lemma InitializedStore(s: map<Field, string>)
    ensures forall f :: f in Initialized(s)
    ensures forall f :: f in s ==> Initialized(s)[f] == s[f]
    ensures forall f :: f !in s ==> Initialized(s)[f] == Default(f)
    ensures Default(Relationship) in Relationships && Default(Purpose) in Purposes
            && Default(Tone) in Tones
    ensures forall f :: f in {RequiredInfo, Signature, Subject, Body} ==> Default(f) == []
    ensures Initialized(Initialized(s)) == Initialized(s)
  {
    forall f ensures f in Initialized(s) {
      FieldsComplete(f);
    }
  }

  /** Clearing and rerunning the page gives the store of a fresh session. */
  lemma ClearedStoreIsDefaults()
    ensures forall f :: f in Initialized(map[]) && Initialized(map[])[f] == Default(f)
  {
    forall f ensures f in Initialized(map[]) {
      FieldsComplete(f);
    }
  }

  /** The five inputs the generation reads. */
  predicate FormComplete(s: map<Field, string>) {
    Relationship in s && Purpose in s && Tone in s && RequiredInfo in s && Signature in s
  }

  /** The generation prompt for the inputs of a complete form: the stripped
      required info normalised into bullets, and the stripped signature. */
  function GenerationPrompt(s: map<Field, string>): string
    requires FormComplete(s)
  {
    BuildPrompt(s[Relationship], s[Purpose], s[Tone],
                Normalized(Strip(s[RequiredInfo])), Strip(s[Signature]))
  }

  /** What the language model sends back for a prompt: its text, or a failure
      (the network call raising). */
  datatype LlmReply = Answer(content: string) | Failure

  datatype Option<T> = None | Some(value: T)

  /** How a handler ended: the warnings and the error the page shows, or Done. */
  datatype Outcome = Done | MissingApiKey | Invalid(verdict: Verdict) | BodyEmpty | Failed

  /** Streamlit's `st.session_state` for the keys the page uses. A key may be
      missing: the clear handler deletes keys and the initialiser fills only
      the missing ones. */
  class SessionState {
    var state: map<Field, string>

    /** A new session holds no keys. */
    constructor ()
      ensures state == map[]
    {
      state := map[];
    }

    /** The stored value, or `default` when the key is missing. */
    function Get(f: Field, default: string): string
      reads this
    {
      if f in state then state[f] else default
    }

    /** Python's `init_session_state`: every missing key gets its default. */
    method InitSessionState()
      modifies this
      ensures state == Initialized(old(state))
    {
      for i := 0 to |Fields|
        invariant forall f :: f in state <==> f in old(state) || f in Fields[..i]
        invariant forall f :: f in state ==>
                    state[f] == if f in old(state) then old(state)[f] else Default(f)
      {
        var key := Fields[i];
        assert Fields[..i + 1] == Fields[..i] + [key];
        if key !in state {
          state := state[key := Default(key)];
        }
      }
      assert Fields[..|Fields|] == Fields;
      forall f ensures f in state <==> f in Initialized(old(state)) {
        FieldsComplete(f);
      }
    }

    /** Python's `handle_clear`: every key of the page is deleted. The rerun
        that follows runs `InitSessionState` again (see `ClearedStoreIsDefaults`). */
    method HandleClear()
      modifies this
      ensures state == map[]
    {
      for i := 0 to |Fields|
        invariant forall f :: f in state <==> f in old(state) && f !in Fields[..i]
      {
        var key := Fields[i];
        assert Fields[..i + 1] == Fields[..i] + [key];
        if key in state {
          state := state - {key};
        }
      }
      assert Fields[..|Fields|] == Fields;
      forall f ensures f !in state {
        FieldsComplete(f);
      }
    }

    /** Python's `generate_with_llm`. A missing input raises before the model
        is asked (no prompt is sent); otherwise the generation prompt is sent,
        and a reply, when the model gives one, is parsed. The store is only
        read. */
    method GenerateWithLlm(llm: string -> LlmReply) returns (reply: Option<Reply>, sent: Option<string>)
      ensures sent.Some? <==> FormComplete(state)
      ensures sent.Some? ==> sent.value == GenerationPrompt(state)
      ensures reply.Some? <==> sent.Some? && llm(sent.value).Answer?
      ensures reply.Some? ==> reply.value == Parse(llm(sent.value).content)
      ensures reply.Some? ==> reply.value.subject != []
    {
      if !FormComplete(state) {
        return None, None;
      }
      var relationship := state[Relationship];
      var purpose := state[Purpose];
      var tone := state[Tone];
      var requiredInfo := Strip(state[RequiredInfo]);
      var signature := Strip(state[Signature]);
      var normalizedRequiredInfo := NormalizeBullets(requiredInfo);
      var prompt := BuildPrompt(relationship, purpose, tone, normalizedRequiredInfo, signature);
      sent := Some(prompt);
      var output := llm(prompt);
      if output.Failure? {
        return None, sent;
      }
      var subject, body := ParseOutput(output.content);
      reply := Some(Reply(subject, body));
    }

    /** Python's `handle_generate`. The guards run in order: no API key, then
        an invalid required info (both before any prompt is sent), then a
        failed generation. Only a successful generation changes the store, and
        then only the subject and the body, which become the parsed reply. */
    method HandleGenerate(apiKeySet: bool, llm: string -> LlmReply) returns (outcome: Outcome, sent: Option<string>)
      requires apiKeySet ==> RequiredInfo in state
      modifies this
      ensures !apiKeySet ==> outcome == MissingApiKey && sent == None
      ensures apiKeySet && Validate(old(state)[RequiredInfo]) != Ok ==>
                outcome == Invalid(Validate(old(state)[RequiredInfo])) && sent == None
      ensures apiKeySet && Validate(old(state)[RequiredInfo]) == Ok ==>
                (sent.Some? <==> FormComplete(old(state)))
                && (sent.Some? ==> sent.value == GenerationPrompt(old(state)))
                && (outcome == Done <==> sent.Some? && llm(sent.value).Answer?)
                && (outcome != Done ==> outcome == Failed)
      ensures outcome == Done ==>
                state == old(state)[Subject := Parse(llm(sent.value).content).subject]
                                   [Body := Parse(llm(sent.value).content).body]
      ensures outcome != Done ==> state == old(state)
    {
      if !apiKeySet {
        return MissingApiKey, None;
      }
      var requiredInfo := state[RequiredInfo];
      var verdict := Validate(requiredInfo);
      if verdict != Ok {
        return Invalid(verdict), None;
      }
      var reply;
      reply, sent := GenerateWithLlm(llm);
      if reply.None? {
        return Failed, sent;
      }
      state := state[Subject := reply.value.subject][Body := reply.value.body];
      outcome := Done;
    }

    /** Python's `handle_rewrite`. Without an API key, or with a blank body,
        nothing is sent. Otherwise the rewrite prompt over the stripped
        subject and body is sent; a failure leaves the store as it was, and a
        reply replaces the body and, since a parsed subject is never empty,
        always the subject too. */
    method HandleRewrite(apiKeySet: bool, instruction: string, llm: string -> LlmReply)
      returns (outcome: Outcome, sent: Option<string>)
      modifies this
      ensures !apiKeySet ==> outcome == MissingApiKey && sent == None
      ensures apiKeySet && Strip(old(Get(Body, ""))) == [] ==> outcome == BodyEmpty && sent == None
      ensures apiKeySet && Strip(old(Get(Body, ""))) != [] ==>
                sent == Some(BuildRewritePrompt(Strip(old(Get(Subject, ""))),
                                                Strip(old(Get(Body, ""))), instruction))
                && (outcome == Done <==> llm(sent.value).Answer?)
                && (outcome != Done ==> outcome == Failed)
      ensures outcome == Done ==>
                state == old(state)[Subject := Parse(llm(sent.value).content).subject]
                                   [Body := Parse(llm(sent.value).content).body]
      ensures outcome != Done ==> state == old(state)
    {
      if !apiKeySet {
        return MissingApiKey, None;
      }
      var subject := Strip(Get(Subject, ""));
      var body := Strip(Get(Body, ""));
      if body == [] {
        return BodyEmpty, None;
      }
      var prompt := BuildRewritePrompt(subject, body, instruction);
      sent := Some(prompt);
      var output := llm(prompt);
      if output.Failure? {
        return Failed, sent;
      }
      var newSubject, newBody := ParseOutput(output.content);
      if newSubject != [] {
        state := state[Subject := newSubject];
      }
      state := state[Body := newBody];
      outcome := Done;
    }
  }
}
