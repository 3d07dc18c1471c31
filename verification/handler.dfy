/**
 * `lambda_handler`: read the topic from the parsed request body, ask the
 * generator for a blog, decide from the returned text whether generation
 * succeeded, derive the storage key, hand the text to the store and map the
 * outcome to a response envelope.
 *
 * Everything remote or library-provided enters as a value: the parsed body (or
 * the exception that parsing raised), the generator's returned string, the
 * formatted timestamp and what the store call did.  The result records the
 * envelope together with the payload the generator built (sent to the model
 * unless the generator's call fails first) and the arguments the store was
 * called with.
 */
module Handler {
  import opened Wrappers
  import Strings
  import opened Generator

  const TopicField: string := "blog_topic"
  const DefaultTopic: string := "AI and Technology"

  /** The substring whose presence in the generated text marks a failure. */
  const ErrorMarker: string := "Error"

  const Bucket: string := "awsbedrockinifinity"
  const KeyPrefix: string := "blogs/"
  const KeySuffix: string := ".md"

  const SuccessMessage: string := "Blog generated successfully"
  const FailureMessage: string := "Blog generation failed"
  const ErrorPrefix: string := "Lambda error: "

  /**
   * A JSON value found under `blog_topic`.  Only strings have `replace`; any
   * other value (number, boolean, null, list, object) is kept with its Python
   * type name and its `str()` rendering, which is what the prompt f-string uses.
   * The type names `json.loads` can produce here are `int`, `float`, `bool`,
   * `NoneType`, `list` and `dict`; `str` values are always `JString`.
   */
  datatype JsonValue = JString(text: string) | JOther(typeName: string, rendered: string)

  /**
   * The request body after `json.loads(event["body"])`: either a JSON object,
   * or the description of the exception raised on the way there (no `body`
   * key, invalid JSON, or a JSON value that is not an object and so has no
   * `get`).
   */
  datatype Body = Malformed(detail: string) | Parsed(fields: map<string, JsonValue>)

  /**
   * What `save_blog_details_s3` did: it returned its boolean, or creating the
   * S3 client, which sits outside its `try`, raised.
   */
  datatype StoreOutcome = Returned(saved: bool) | ClientRaised(detail: string)

  /** The arguments `save_blog_details_s3` was called with. */
  datatype StoreCall = StoreCall(bucket: string, key: string, content: string)

  /** The envelope: status code, the body's `message` and its optional `s3_key`. */
  datatype Response = Response(statusCode: int, message: string, s3Key: Option<string>)

  /**
   * One invocation: the envelope, the payload the generator built (sent to the
   * model unless its call fails first), the store call made.
   */
  datatype Invocation = Invocation(response: Response, request: Option<InferencePayload>, store: Option<StoreCall>)

  /** `event.get("blog_topic", "AI and Technology")`. */
  function TopicValue(fields: map<string, JsonValue>): (v: JsonValue)
    ensures TopicField in fields ==> v == fields[TopicField]
    ensures v == JString(DefaultTopic) || (TopicField in fields && v == fields[TopicField])
  {
    if TopicField in fields then fields[TopicField] else JString(DefaultTopic)
  }

  /** Python's `str()` of the topic value, as the prompt f-string renders it. */
  function Rendered(v: JsonValue): string
  {
    match v
    case JString(text) => text
    case JOther(_, rendered) => rendered
  }

  /** `generate_blog and "Error" not in generate_blog`. */
  predicate IsSuccessfulGeneration(generated: string): (ok: bool)
    ensures ok <==> |generated| > 0 && forall i :: !Strings.OccursAt(generated, ErrorMarker, i)
  {
    Strings.ContainsIff(generated, ErrorMarker);
    |generated| > 0 && !Strings.Contains(generated, ErrorMarker)
  }

  /** The object key: prefix, topic with spaces as underscores, `_`, timestamp, `.md`. */
  function StorageKey(topic: string, timestamp: string): (key: string)
    ensures |key| == |topic| + |timestamp| + 10
    ensures key[..6] == "blogs/" && key[|key| - 3..] == ".md"
    ensures key[6 + |topic|] == '_' && key[7 + |topic|..|key| - 3] == timestamp
    ensures ' ' !in key[6..6 + |topic|]
  {
    KeyPrefix + Strings.ReplaceChar(topic, ' ', '_') + "_" + timestamp + KeySuffix
  }

  /** The message of the `AttributeError` raised by `replace` on a value that is not a string. */
  function NoReplaceAttribute(typeName: string): string
  {
    "'" + typeName + "' object has no attribute 'replace'"
  }

  /** The envelope built by the top-level `except`. */
  function LambdaError(detail: string): Response
  {
    Response(500, ErrorPrefix + detail, None)
  }

  /**
   * The handler.  Whatever the inputs, the status is 200 or 500, a key is
   * reported exactly on 200, a 200 always reports the key the store was given,
   * and the store is only ever reached after a successful generation.
   */
  function Handle(body: Body, generated: string, timestamp: string, store: StoreOutcome): (inv: Invocation)
    ensures inv.response.statusCode == 200 || inv.response.statusCode == 500
    ensures inv.response.s3Key.Some? <==> inv.response.statusCode == 200
    ensures inv.response.statusCode == 200 ==>
              inv.store.Some? && inv.response.s3Key == Some(inv.store.value.key)
              && inv.store.value.bucket == Bucket && inv.store.value.content == generated
              && inv.response.message == SuccessMessage
    ensures inv.store.Some? ==> inv.request.Some? && IsSuccessfulGeneration(generated)
    ensures inv.request.Some? <==> body.Parsed?
  {
    match body
    case Malformed(detail) => Invocation(LambdaError(detail), None, None)
    case Parsed(fields) =>
      var topic := TopicValue(fields);
      var request := Some(BuildPayload(Rendered(topic)));
      if !IsSuccessfulGeneration(generated) then
        Invocation(Response(500, FailureMessage, None), request, None)
      else
        match topic
        case JOther(typeName, _) => Invocation(LambdaError(NoReplaceAttribute(typeName)), request, None)
        case JString(text) =>
          var key := StorageKey(text, timestamp);
          var call := Some(StoreCall(Bucket, key, generated));
          match store
          case ClientRaised(detail) => Invocation(LambdaError(detail), request, call)
          case Returned(_) => Invocation(Response(200, SuccessMessage, Some(key)), request, call)
  }

  // ---------------------------------------------------------------------------
  // The topic

  /** Without `blog_topic` the prompt is built from the default topic, and so is any key. */
  lemma DefaultTopicUsed(fields: map<string, JsonValue>, generated: string, timestamp: string, store: StoreOutcome)
    requires TopicField !in fields
    ensures var inv := Handle(Parsed(fields), generated, timestamp, store);
      && inv.request.Some? && TopicOfPrompt(inv.request.value.prompt) == Some(DefaultTopic)
      && (inv.store.Some? ==> inv.store.value.key == StorageKey(DefaultTopic, timestamp))
  {
  }

  /** A string topic reaches the prompt verbatim and is the topic the key is derived from. */
  lemma TopicFlowsToPromptAndKey(fields: map<string, JsonValue>, topic: string, generated: string,
                                 timestamp: string, store: StoreOutcome)
    requires TopicValue(fields) == JString(topic)
    ensures var inv := Handle(Parsed(fields), generated, timestamp, store);
      && inv.request.Some? && inv.request.value.maxGenLen == 1024
      && Strings.Contains(inv.request.value.prompt, topic)
      && (inv.store.Some? ==> inv.store.value.key == StorageKey(topic, timestamp))
  {
    PromptContainsTopic(topic);
  }

  // ---------------------------------------------------------------------------
  // Success classification

  /**
   * A parsed request with a string topic succeeds exactly when the generated
   * text is non-empty and "Error" occurs nowhere in it, whatever the store
   * returns.
   */
  lemma SuccessIff(fields: map<string, JsonValue>, generated: string, timestamp: string, saved: bool)
    ensures var inv := Handle(Parsed(fields), generated, timestamp, Returned(saved));
      inv.response.statusCode == 200 <==>
        && |generated| > 0
        && (forall i :: !Strings.OccursAt(generated, ErrorMarker, i))
        && TopicValue(fields).JString?
  {
    Strings.ContainsIff(generated, ErrorMarker);
  }

  /**
   * Both strings the generator returns on its failure paths, the missing
   * `generation` default and the exception sentinel, lead to the
   * "Blog generation failed" envelope with no store call.
   */
  lemma GeneratorFailuresFail(fields: map<string, JsonValue>, outcome: InvokeOutcome, timestamp: string,
                              store: StoreOutcome)
    requires outcome == Raised || outcome == Responded(None)
    ensures var inv := Handle(Parsed(fields), GeneratedText(outcome), timestamp, store);
      && inv.response == Response(500, FailureMessage, None)
      && inv.store == None
  {
    if outcome == Raised {
      assert Strings.OccursAt(FailureSentinel, ErrorMarker, 0);
      Strings.ContainsAt(FailureSentinel, ErrorMarker, 0);
    }
  }

  /**
   * A blog that merely mentions the marker word anywhere is reported as a
   * failed generation, and nothing is stored.
   */
  lemma ErrorMentionRejected(fields: map<string, JsonValue>, text: string, i: int, timestamp: string,
                             store: StoreOutcome)
    requires Strings.OccursAt(text, ErrorMarker, i)
    ensures var inv := Handle(Parsed(fields), text, timestamp, store);
      && inv.response == Response(500, FailureMessage, None)
      && inv.store == None
  {
    Strings.ContainsAt(text, ErrorMarker, i);
  }

  // ---------------------------------------------------------------------------
  // The storage key

  /**
   * The key is the prefix, a topic segment as long as the topic with no space
   * in it that agrees with the topic at every other position, an underscore,
   * the timestamp and the suffix.
   */
  lemma StorageKeyShape(topic: string, timestamp: string)
    ensures var key := StorageKey(topic, timestamp);
      var segment := key[6..6 + |topic|];
      && key == "blogs/" + segment + "_" + timestamp + ".md"
      && |segment| == |topic|
      && (forall i :: 0 <= i < |segment| ==> segment[i] != ' ')
      && (forall i :: 0 <= i < |topic| && topic[i] != ' ' ==> segment[i] == topic[i])
      && (forall i :: 0 <= i < |topic| && topic[i] == ' ' ==> segment[i] == '_')
  {
    var segment := Strings.ReplaceChar(topic, ' ', '_');
    assert StorageKey(topic, timestamp)[6..6 + |topic|] == segment;
  }

  /** Two characters that land on the same key character: equal, or a space and an underscore. */
  predicate SameKeyChar(a: char, b: char)
  {
    a == b || (a == ' ' && b == '_') || (a == '_' && b == ' ')
  }

  /**
   * Two requests stamped in the same second collide exactly when their topics
   * have the same length and differ only by spaces against underscores.
   */
  lemma StorageKeyCollisionIff(t1: string, t2: string, timestamp: string)
    ensures StorageKey(t1, timestamp) == StorageKey(t2, timestamp) <==>
              |t1| == |t2| && forall i :: 0 <= i < |t1| ==> SameKeyChar(t1[i], t2[i])
  {
    var k1, k2 := StorageKey(t1, timestamp), StorageKey(t2, timestamp);
    var s1, s2 := Strings.ReplaceChar(t1, ' ', '_'), Strings.ReplaceChar(t2, ' ', '_');
    if k1 == k2 {
      assert |t1| == |t2|;
      forall i | 0 <= i < |t1| ensures SameKeyChar(t1[i], t2[i]) {
        assert k1[6 + i] == s1[i] && k2[6 + i] == s2[i];
      }
    }
    if |t1| == |t2| && forall i :: 0 <= i < |t1| ==> SameKeyChar(t1[i], t2[i]) {
      assert s1 == s2;
    }
  }

  // ---------------------------------------------------------------------------
  // The envelope and the store call

  /**
   * A successful generation for a string topic calls the store once with the
   * fixed bucket, the derived key and the unchanged text, and answers 200 with
   * that key, whatever the store returns.
   */
  lemma SuccessResponse(fields: map<string, JsonValue>, topic: string, generated: string,
                        timestamp: string, saved: bool)
    requires TopicValue(fields) == JString(topic)
    requires IsSuccessfulGeneration(generated)
    ensures var inv := Handle(Parsed(fields), generated, timestamp, Returned(saved));
      && inv.store == Some(StoreCall("awsbedrockinifinity", StorageKey(topic, timestamp), generated))
      && inv.response == Response(200, "Blog generated successfully", Some(StorageKey(topic, timestamp)))
  {
  }

  /** The boolean the store returns never changes the invocation. */
  lemma StoreResultIgnored(body: Body, generated: string, timestamp: string)
    ensures Handle(body, generated, timestamp, Returned(true)) == Handle(body, generated, timestamp, Returned(false))
  {
  }

  /** When the store returns at all, it was called exactly when the answer is 200. */
  lemma StoreCalledIffOk(body: Body, generated: string, timestamp: string, saved: bool)
    ensures var inv := Handle(body, generated, timestamp, Returned(saved));
      inv.store.Some? <==> inv.response.statusCode == 200
  {
  }

  /** A failed generation answers "Blog generation failed" and never reaches the store. */
  lemma FailureResponse(fields: map<string, JsonValue>, generated: string, timestamp: string, store: StoreOutcome)
    requires !IsSuccessfulGeneration(generated)
    ensures var inv := Handle(Parsed(fields), generated, timestamp, store);
      && inv.response == Response(500, "Blog generation failed", None)
      && inv.store == None
  {
  }

  /**
   * A body that cannot be parsed answers 500 with a message that starts with
   * "Lambda error: ", and neither the model nor the store is called.
   */
  lemma MalformedBodyResponse(detail: string, generated: string, timestamp: string, store: StoreOutcome)
    ensures var inv := Handle(Malformed(detail), generated, timestamp, store);
      && inv.response.statusCode == 500
      && inv.response.message[..14] == "Lambda error: "
      && inv.response.s3Key == None
      && inv.request == None && inv.store == None
  {
  }

  /**
   * A `blog_topic` that is not a string is only noticed when the key is built:
   * the generator has already been called, the store is not called, and the answer
   * is a "Lambda error: " 500 naming the missing `replace` attribute.
   */
  lemma NonStringTopicResponse(fields: map<string, JsonValue>, typeName: string, rendered: string,
                               generated: string, timestamp: string, store: StoreOutcome)
    requires TopicValue(fields) == JOther(typeName, rendered)
    requires IsSuccessfulGeneration(generated)
    ensures var inv := Handle(Parsed(fields), generated, timestamp, store);
      && inv.response == Response(500, "Lambda error: '" + typeName + "' object has no attribute 'replace'", None)
      && inv.request == Some(BuildPayload(rendered))
      && inv.store == None
  {
  }

  /**
   * When creating the S3 client raises, the store call was made with the same
   * arguments as on success, but the answer is a "Lambda error: " 500.
   */
  lemma StoreClientFailureResponse(fields: map<string, JsonValue>, topic: string, generated: string,
                                   timestamp: string, detail: string)
    requires TopicValue(fields) == JString(topic)
    requires IsSuccessfulGeneration(generated)
    ensures var inv := Handle(Parsed(fields), generated, timestamp, ClientRaised(detail));
      && inv.store == Some(StoreCall(Bucket, StorageKey(topic, timestamp), generated))
      && inv.response == Response(500, ErrorPrefix + detail, None)
  {
    assert Rendered(TopicValue(fields)) == topic;
    assert Handle(Parsed(fields), generated, timestamp, ClientRaised(detail))
        == Invocation(LambdaError(detail), Some(BuildPayload(topic)),
                      Some(StoreCall(Bucket, StorageKey(topic, timestamp), generated)));
  }

  /** The key for a two-word topic joins the words with an underscore. */
  lemma TwoWordKey(first: string, second: string, timestamp: string)
    requires ' ' !in first && ' ' !in second
    ensures StorageKey(first + " " + second, timestamp) == "blogs/" + first + "_" + second + "_" + timestamp + ".md"
  {
    var topic, joined := first + " " + second, first + "_" + second;
    var segment := Strings.ReplaceChar(topic, ' ', '_');
    forall i | 0 <= i < |topic| ensures segment[i] == joined[i] {
      if i < |first| {
        assert topic[i] == first[i] && joined[i] == first[i];
      } else if i > |first| {
        assert topic[i] == second[i - |first| - 1] && joined[i] == second[i - |first| - 1];
      }
    }
    assert segment == joined;
  }

  /**
   * End to end for a two-word topic such as "Serverless Computing" and a
   * generated text without the marker: the answer is 200 with key
   * "blogs/Serverless_Computing_<timestamp>.md".
   */
  lemma TwoWordTopicScenario(first: string, second: string, text: string, timestamp: string)
    requires ' ' !in first && ' ' !in second
    requires IsSuccessfulGeneration(text)
    ensures Handle(Parsed(map[TopicField := JString(first + " " + second)]), text, timestamp, Returned(true)).response
            == Response(200, SuccessMessage, Some("blogs/" + first + "_" + second + "_" + timestamp + ".md"))
  {
    var fields := map[TopicField := JString(first + " " + second)];
    assert TopicValue(fields) == JString(first + " " + second);
    SuccessResponse(fields, first + " " + second, text, timestamp, true);
    TwoWordKey(first, second, timestamp);
  }
}
