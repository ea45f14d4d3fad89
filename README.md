# PII guardrails middleware — a Dafny model

This project models the PII-scrubbing core of a tool-invocation (MCP) server:
the `GuardrailsMiddleware` interceptor of `middleware.py` and the functions it
is built from.

- `redact_text` asks an analyzer for PII spans of the default entity types
  in English. When the analyzer finds nothing, it returns the text untouched
  and never calls the anonymizer. Otherwise it copies every span,
  field for field, into the anonymizer's span type and returns the
  anonymizer's text.
- `redact_dict` and `redact_list` walk a nested payload of dicts, lists,
  strings and other values. Every string leaf is replaced by its
  `redact_text`. Dicts and lists are walked recursively. Every other value
  is left alone.
- `GuardrailsMiddleware.__call__` redacts a dict-valued `params` entry of a
  dict-valued inbound message. It then calls the next stage. A raise from
  that stage is re-raised unchanged. A dict result is redacted, and any other
  result is returned as it came.

Files:

- `payload.dfy` (module `Payload`): the payload as a closed datatype
  `Value = Str | List | Dict | Opaque`. A dict is an ordered sequence of
  entries. `Opaque` is any value that is not a string, dict or list. The module
  also has dict lookup (`Find`), path navigation (`Get`) and `AllStrings`.
- `text_redaction.dfy` (module `TextRedaction`): the two span types, the
  analyzer and anonymizer as function types, `DefaultEntities`, the span
  conversion and `RedactText`.
- `traversal.dfy` (module `Traversal`): `RedactDict` and `RedactList`. Each is
  an index loop whose invariant says the prefix is redacted and the suffix is
  untouched. Both are proved equal to the recursive specification
  `MapStrings` (with `MapItems` and `MapEntries`), which rewrites every string
  leaf with one function. The module also proves shape preservation,
  identity when nothing is detected, and that no string leaf escapes
  redaction.
- `guardrails.dfy` (module `Guardrails`): the call context, the middleware
  class and its `Call` method. `RedactParams` and `RedactOutcome` specify the
  two redaction points. The module ends with lemmas about the whole pipeline.

Modelling assumptions:

- The analyzer and anonymizer are injected total functions. The analyzer
  gets `(text, entities, language)`. The anonymizer gets
  `(text, converted spans)` and returns the `.text` of its result.
- `call_next` is a function from the context's message to an `Outcome`,
  which is either `Returned(value)` or `Raised(exception)`.
- `context.message` is an `Option<Value>`. `None` means the context has no
  `message` attribute.
- Payloads are trees. Python would redact a sub-object twice if it were
  referenced from two places in one payload. The model has no sharing, so it
  does not represent that case.
- Python mutates dicts and lists in place and returns the same object. In the
  model the loops rebuild the entry or element sequence one index at a time
  and return it. The caller stores it back where the container was. Only
  `MiddlewareContext.message` is a heap field that `Call` updates in place.

The code does not do the following, and the model follows the code:

- It does not reject values of an unknown kind. A tuple, for example,
  passes through unredacted.
- It does not limit the nesting depth of a payload.
- It does not catch or recover from analyzer failures.
- It does not make redaction idempotent or choose between overlapping
  spans; both are left to the anonymizer.
- It does not redact a list result on the way back: only a dict result is
  redacted.
- It does not redact dict keys: a key that holds PII reaches the next stage
  or the caller unchanged.

## Model

| member | source | states |
|---|---|---|
| `TextRedaction.DefaultEntitiesAreTwelveDistinct` | middleware.py:6-19 | the default entity list has exactly twelve distinct entries, from EMAIL_ADDRESS to CRYPTO |
| `TextRedaction.ToAnonymizerResults` | middleware.py:30-37 | one anonymizer span per detected span, in the same order, with entity type, start, end and score copied unchanged |
| `TextRedaction.RedactText` | middleware.py:21-41 | with no spans detected the text comes back unchanged; otherwise the result is the anonymizer's text for this text and the converted spans |
| `TextRedaction.AnonymizerNotConsulted` | middleware.py:29-41 | when the analyzer finds nothing, the result is the input whatever the anonymizer is, so the anonymizer is not consulted |
| `TextRedaction.OnlyThisQueryMatters` | middleware.py:22-26 | the result depends on the analyzer only through its answer for this text, these entities and language "en" |
| `Payload.Find` | middleware.py:78 | dict lookup: the position of the first entry with the key, or None exactly when no entry has it |
| `Traversal.RedactDict` | middleware.py:43-52 | the loop over the entries yields the specified walk: same keys in the same order, each string value replaced by its redact_text, nested dicts and lists walked, other values unchanged |
| `Traversal.RedactList` | middleware.py:54-63 | the loop over the elements yields the specified walk: same length and order, each string replaced by its redact_text, nested dicts and lists walked, other values unchanged |
| `Traversal.GetCommutesWithMapStrings` | middleware.py:43-63 | a path reaches a value in the redacted payload exactly when it does in the input, and what it reaches is the input's sub-value walked; a string leaf is rewritten and an opaque leaf is unchanged |
| `Traversal.RedactionPreservesShape` | middleware.py:43-63 | redaction never adds, removes or reorders keys or elements and never changes a non-string value |
| `Traversal.NothingDetectedIsIdentity` | middleware.py:43-63 | when the analyzer finds nothing in any string leaf, the whole payload comes back unchanged |
| `Traversal.RedactedStringsAreSafe` | middleware.py:29-63 | if the anonymizer's output for a text and the spans the analyzer reported in it is always safe, and every text with no detection is safe, then every string value (dict value or list element) of a redacted payload is safe, so no string leaf skips redaction; dict keys are not covered |
| `Traversal.WalkAsksForDefaultEntities` | middleware.py:21-26 | the walk asks the analyzer only about the payload's own string leaves, with the default entities and "en": two analyzers that agree on those leaves give the same redaction |
| `Guardrails.RedactParams` | middleware.py:77-80 | only a dict-valued params entry of a dict-valued message is redacted; keys keep their order, every other entry is identical, and a message that is absent or not a dict or has no dict params is unchanged |
| `Guardrails.RedactOutcome` | middleware.py:83-93 | a raise passes through with the same exception; a dict result is redacted with its keys and shape kept; a list or any other result is returned as it came |
| `Guardrails.GuardrailsMiddleware.constructor` | middleware.py:71-73 | the middleware holds the analyzer and anonymizer it is given |
| `Guardrails.GuardrailsMiddleware.Call` | middleware.py:75-93 | the context's message becomes its inbound-redacted form before the next stage runs; the next stage sees that message; the returned outcome is that stage's outcome after outbound redaction |
| `Guardrails.NothingDetectedPassesThrough` | middleware.py:75-93 | when the analyzer finds nothing in a dict-valued params entry or a dict result, the message and the outcome leave the middleware unchanged; the rest of the message is never consulted |
| `Guardrails.SafeMessageEchoedUnchanged` | test_middleware.py:39-47 | the echo tool's reply `{"result": "Hello, this is a safe message."}` comes back unchanged when the analyzer finds nothing in it |
| `Guardrails.ReturnedStringsAreSafe` | test_middleware.py:19-37 | if the anonymizer's output on the analyzer's own spans is safe and every text with no detection is safe, every string value (dict value or list element) of a redacted dict result is safe, which is what the no-leak test means to check; as written, its `not in` asserts test the keys of the returned dict `{"result": ...}`, not its string, so they hold whether or not anything is redacted |

## Left out

- The Presidio analyzer and anonymizer are not part of this model. They are foreign NLP and regex libraries, so they appear only as function parameters. The guarantee that a PII literal never appears in the output depends on them, so it is stated only conditionally, in `ReturnedStringsAreSafe`.
- The anonymizer's own failures are not modelled. It raises on spans that lie outside the text, but the model treats it as a total function.
- Exceptions raised during redaction are not modelled. In the code, nothing in `__call__` catches an exception raised by the analyzer or the anonymizer, or a `RecursionError` from a deeply nested payload. Inbound, such an exception leaves `__call__` before `call_next` runs, so the call is never forwarded and `params` stays partly redacted in place. Outbound, it replaces the result. The model treats both engines and the walk as total, so `Call` always forwards.
- The `print` logging is left out because it is an I/O side effect.
- `async`/`await` scheduling and cancellation are left out, as is the fastmcp `Middleware`/`MiddlewareContext` plumbing.
- `call_next` is a pure function of the message. Effects it may have on the context or elsewhere are not represented.
- Shared sub-objects are not modelled. A sub-object referenced twice in one payload would be redacted twice by the code, but values here are trees.
- Dict keys are strings and are not required to be unique. `Find` takes the first entry with a key, which agrees with Python whenever the keys are unique, as they are in a real dict.
- Python's `except Exception` catches fewer things than `BaseException`, and this distinction is not modelled. Both kinds end in the same re-raise, so the outcome is the same.
- sfmc_plugin.py, agent.py, main.py, orchestrator_plugin.py and presidio_test.py are not part of this model. They hold credentials, network clients, telemetry, server and tool registration, and a demo script.
