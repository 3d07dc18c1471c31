# Blog generation Lambda: a Dafny model of the request handler

The system is a serverless handler (`lambda_handler` in `app.py`) that takes a
blog topic from a JSON request body, asks a hosted text-generation model
(Amazon Bedrock) for a markdown blog on that topic, stores the result in an S3
bucket under a timestamped key and answers with a status-code envelope.

This project models the logic the handler owns, with every remote or library
call turned into an input:

- `Strings` — Python's substring test `pat in s` (`Contains`, with an
  independent positional characterisation `OccursAt`) and the single-character
  `str.replace` (`ReplaceChar`).
- `Generator` — the part of `blog_generate_using_bedrock` it decides itself:
  the prompt template and payload (`Prompt`, `BuildPayload`, with
  `TopicOfPrompt` reading a topic back out of a prompt), and the string it
  returns for each way the remote call ends (`GeneratedText`: the generated
  text, `""` when the response has no `generation` field, or the sentinel
  `"Error in generating blog"` when anything in its `try` raises).
- `Handler` — `lambda_handler` as one function `Handle` over a parsed body (or
  the description of the exception parsing raised), the generator's returned
  string, the formatted timestamp and what the store call did. It returns an
  `Invocation`: the envelope (status, `message`, optional `s3_key`), the
  payload the generator built (sent to the model unless the generator's call
  fails first), and the arguments the store was called with.

Two behaviours of the code are easy to miss:

- `save_blog_details_s3` creates its S3 client outside its `try`
  (`app.py:59`), so besides returning `True` or `False` it can raise; the
  handler's top-level `except` then answers 500 `"Lambda error: ..."`.
  `StoreOutcome` has a third case, `ClientRaised`, for this.
- A `blog_topic` that is not a string (number, boolean, null, list, object)
  is accepted: the prompt uses its `str()` rendering, and only `replace` in the
  key derivation (`app.py:88`) raises `AttributeError`, after the model has
  been called and only when generation succeeded. An empty string topic is
  accepted too.

## Model

| member | source | states |
|---|---|---|
| `Strings.ContainsIff` | app.py:85 | `"Error" in text` holds exactly when some index starts a copy of `"Error"`, in both directions |
| `Strings.ReplaceChar` | app.py:88 | `replace(' ', '_')` keeps the length and, position by position, turns every space into an underscore and leaves every other character alone |
| `Generator.GeneratedText` | app.py:49-55 | an exception in the call yields text that starts with "Error", a response without `generation` yields `""`, and a delivered generation is returned unchanged |
| `Generator.BuildPayload` | app.py:8-20 | the payload's `max_gen_len` is 1024 and its prompt is the template around the topic: reading the topic back gives exactly the topic, and the prompt is 57 characters longer |
| `Generator.PromptParses` | app.py:8 | a string is the prompt for a topic iff reading it back through the template yields that topic |
| `Generator.PromptInjective` | app.py:8 | different topics never give the same prompt |
| `Generator.PromptContainsTopic` | app.py:8 | the topic occurs verbatim in the prompt, right after the template's lead text |
| `Handler.Handle` | app.py:73-114 | status is 200 or 500; `s3_key` is present exactly on 200; a 200 carries "Blog generated successfully" and the key the store was given, with the fixed bucket and the unchanged text; the store is reached only after a successful generation; the generator is called, and builds its payload, exactly when the body parsed |
| `Handler.TopicValue` | app.py:78 | a present `blog_topic` is used as it is (even `null`); otherwise the topic is "AI and Technology" |
| `Handler.IsSuccessfulGeneration` | app.py:85 | the success test holds iff the text is non-empty and "Error" starts at no position |
| `Handler.StorageKey` | app.py:88 | the key has length topic + timestamp + 10, starts "blogs/", ends ".md", has '_' right after the topic segment and the timestamp after that, and its topic segment has no space |
| `Handler.DefaultTopicUsed` | app.py:78-88 | without `blog_topic` the prompt's topic is exactly "AI and Technology" and any store key is derived from it |
| `Handler.TopicFlowsToPromptAndKey` | app.py:76-88 | a string topic occurs verbatim in the prompt the generator built, with cap 1024, and is the topic the store key is derived from |
| `Handler.SuccessIff` | app.py:85 | with a storing store, the answer is 200 iff the generated text is non-empty, has "Error" at no position and the topic is a string |
| `Handler.GeneratorFailuresFail` | app.py:49-55 | both generator failure outputs, the missing-`generation` default `""` and the exception sentinel, give 500 "Blog generation failed" with no `s3_key` and no store call |
| `Handler.ErrorMentionRejected` | app.py:85 | any text in which "Error" occurs at some position is answered 500 "Blog generation failed", with no `s3_key` and no store call |
| `Handler.StorageKeyShape` | app.py:88 | the key is "blogs/" + a segment + "_" + timestamp + ".md" whose segment has the topic's length, has no space, has '_' where the topic has a space and agrees with the topic everywhere else |
| `Handler.StorageKeyCollisionIff` | app.py:86-88 | two topics stamped in the same second get the same key iff they have the same length and differ only by spaces against underscores |
| `Handler.TwoWordKey` | app.py:88 | a topic of two space-free words gets key "blogs/" + first + "_" + second + "_" + timestamp + ".md" |
| `Handler.SuccessResponse` | app.py:85-101 | on success the store is called once with bucket "awsbedrockinifinity", the derived key and the unchanged text, and the answer is 200 "Blog generated successfully" with that key |
| `Handler.StoreResultIgnored` | app.py:93-102 | the store returning `True` or `False` gives the same invocation |
| `Handler.StoreCalledIffOk` | app.py:85-107 | when the store returns, it was called exactly when the answer is 200 |
| `Handler.FailureResponse` | app.py:103-107 | a failed generation answers 500 "Blog generation failed", no `s3_key`, no store call |
| `Handler.MalformedBodyResponse` | app.py:109-114 | an unparseable body answers 500 with a message starting "Lambda error: ", no `s3_key`, and calls neither the generator nor the store |
| `Handler.NonStringTopicResponse` | app.py:82-114 | a non-string topic with a successful generation: the generator's prompt was built from the topic's `str()`, the store is not called, the answer is 500 "Lambda error: '<type>' object has no attribute 'replace'" |
| `Handler.StoreClientFailureResponse` | app.py:58-60 | when creating the S3 client raises, the store was called with the success-path arguments but the answer is 500 "Lambda error: " + the exception text |
| `Handler.TwoWordTopicScenario` | app.py:78-102 | end to end, e.g. topic "Serverless Computing" with any text the success test accepts and a storing store: 200 with key "blogs/Serverless_Computing_<timestamp>.md" |

## Left out

- The Bedrock client construction (region, read timeout, pool size, retry policy) and the `invoke_model` call (`app.py:24-40`): remote I/O; its result enters as `Generator.InvokeOutcome`.
- The `temperature` and `top_p` values (`app.py:16-18`): floating-point constants with no logic attached; `InferencePayload` carries only the prompt and `max_gen_len`.
- The S3 `put_object` upload and the UTF-8 encoding of the text (`app.py:61-65`): remote I/O; the store is an opaque call whose arguments are recorded and whose outcome is an input.
- JSON decoding of the event body and of the model's response, and JSON encoding of the response body (`app.py:36`, `app.py:43-45`, `app.py:76`, `app.py:98`): library parsing; the body enters already parsed (or as the text of the exception parsing raised), and the envelope keeps `message` and `s3_key` as fields instead of a JSON string.
- A `generation` field in the model's response that is not a string: `Generator.InvokeOutcome` only carries a string or its absence.
- The clock and `strftime` formatting (`app.py:86`): the timestamp is a parameter.
- The `print` logging (`app.py:54`, `app.py:66`, `app.py:69`, `app.py:110`): no observable contract.
- The text of exception messages raised by libraries (`str(e)`): carried as an opaque `detail` string; only the "Lambda error: " prefix and the `replace` AttributeError text, which the handler's own code determines, are modelled.
- Strings whose characters are not Unicode scalar values: topics, texts and keys are sequences of Dafny `char`, which cannot hold a lone surrogate such as the one `json.loads('"\ud800"')` produces in Python; no branch of the handler depends on this.
- Whether the payload reached Bedrock: `Invocation.request` records the payload the generator built; when the generator's client set-up or `invoke_model` raises before sending (`app.py:24-40`), the model never receives it, and the generator only reports the sentinel.
