/**
 * The part of `blog_generate_using_bedrock` that the function itself decides:
 * the request payload it builds from the topic, and the string it hands back
 * for each way the remote inference call can end.  The call itself is remote
 * and is represented only by its outcome.
 */
module Generator {
  import opened Wrappers
  import Strings

  /** The fixed instruction template around the topic. */
  const PromptLead: string := "Write a detailed blog on the topic '"
  const PromptTail: string := "' in markdown format."

  /** The generation cap in every request payload (`max_gen_len`). */
  const MaxGenLen: int := 1024

  /** The string returned when the inference call raises. */
  const FailureSentinel: string := "Error in generating blog"

  /** The value used when the model's response has no `generation` field. */
  const MissingGeneration: string := ""

  /**
   * The request body built for the model.  The sampling parameters
   * (`temperature`, `top_p`) are fixed floating-point constants and are not
   * part of this model.
   */
  datatype InferencePayload = InferencePayload(prompt: string, maxGenLen: int)

  /** The f-string prompt with the topic placed verbatim between lead and tail. */
  function Prompt(topic: string): string
  {
    PromptLead + topic + PromptTail
  }

  /**
   * Reads the topic back out of a prompt: `None` when the text is not of the
   * template's shape.
   */
  function TopicOfPrompt(prompt: string): Option<string>
  {
    if |prompt| >= |PromptLead| + |PromptTail|
       && prompt[..|PromptLead|] == PromptLead
       && prompt[|prompt| - |PromptTail|..] == PromptTail
    then Some(prompt[|PromptLead|..|prompt| - |PromptTail|])
    else None
  }

  /** A prompt is exactly the template filled with a topic iff reading it back yields that topic. */
  lemma PromptParses(prompt: string, topic: string)
    ensures TopicOfPrompt(prompt) == Some(topic) <==> prompt == Prompt(topic)
  {
    var p := Prompt(topic);
    assert p[..|PromptLead|] == PromptLead;
    assert p[|p| - |PromptTail|..] == PromptTail;
    assert p[|PromptLead|..|p| - |PromptTail|] == topic;
    if TopicOfPrompt(prompt) == Some(topic) {
      assert prompt == prompt[..|PromptLead|]
                       + prompt[|PromptLead|..|prompt| - |PromptTail|]
                       + prompt[|prompt| - |PromptTail|..];
    }
  }

  /** Different topics always give different prompts. */
  lemma PromptInjective(t1: string, t2: string)
    requires Prompt(t1) == Prompt(t2)
    ensures t1 == t2
  {
    PromptParses(Prompt(t1), t1);
    PromptParses(Prompt(t2), t2);
  }

  /** The payload `blog_generate_using_bedrock` builds for a topic (and sends, unless its call fails first). */
  function BuildPayload(topic: string): (payload: InferencePayload)
    ensures payload.maxGenLen == 1024
    ensures TopicOfPrompt(payload.prompt) == Some(topic)
    ensures |payload.prompt| == |topic| + 57
  {
    PromptParses(Prompt(topic), topic);
    InferencePayload(Prompt(topic), MaxGenLen)
  }

  /** The topic appears in the prompt verbatim, right after the template's lead. */
  lemma PromptContainsTopic(topic: string)
    ensures Strings.OccursAt(BuildPayload(topic).prompt, topic, |PromptLead|)
    ensures Strings.Contains(BuildPayload(topic).prompt, topic)
  {
    var p := BuildPayload(topic).prompt;
    assert p[|PromptLead|..|PromptLead| + |topic|] == topic;
    Strings.ContainsAt(p, topic, |PromptLead|);
  }

  /**
   * How the remote call ended: a decoded response whose `generation` field
   * may be missing, or an exception anywhere inside the `try` (client set-up,
   * network, timeout, reading or decoding the response).
   */
  datatype InvokeOutcome = Responded(generation: Option<string>) | Raised

  /** The string `blog_generate_using_bedrock` returns for an outcome of the call. */
  function GeneratedText(outcome: InvokeOutcome): (text: string)
    ensures outcome.Raised? ==> Strings.OccursAt(text, "Error", 0)
    ensures outcome == Responded(None) ==> text == ""
    ensures outcome.Responded? && outcome.generation.Some? ==> text == outcome.generation.value
  {
    match outcome
    case Raised => FailureSentinel
    case Responded(None) => MissingGeneration
    case Responded(Some(text)) => text
  }
}
