/** `GuardrailsMiddleware`: redacts the inbound call's `params`, calls the
    next stage, and redacts a dict-shaped result on the way back. */
module Guardrails {
  import opened Payload
  import opened TextRedaction
  import opened Traversal

  /** A failure raised by the next stage, passed through by identity. */
  datatype Exception = Exception(kind: string, message: string)

  /** What the next stage (or the middleware) produces: a result or a raise. */
  datatype Outcome = Returned(result: Value) | Raised(error: Exception)

  /** The key whose value holds the call's arguments. */
  const Params: string := "params"

  /** The in-flight call. `message` is None when the context has no
      `message` attribute at all. */
  class MiddlewareContext {
    var message: Option<Value>

    constructor (message: Option<Value>)
      ensures this.message == message
    {
      this.message := message;
    }
  }

  // ---------------------------------------------------------------------------
  // Specification of the two redaction points.
  // ---------------------------------------------------------------------------

  /** The message after inbound redaction: only a dict-valued `params`
      entry of a dict-valued message is walked; every other entry, and any
      message that is not a dict, stays exactly as it was. */
  function RedactParams(message: Option<Value>, analyzer: Analyzer, anonymizer: Anonymizer): (r: Option<Value>)
    ensures !(message.Some? && message.value.Dict?) ==> r == message
    ensures message.Some? && message.value.Dict? ==>
      var entries := message.value.entries;
      && r.Some? && r.value.Dict?
      && Keys(r.value.entries) == Keys(entries)
      && (forall j :: 0 <= j < |entries| && entries[j].0 != Params ==> r.value.entries[j] == entries[j])
      && match Find(entries, Params)
         case Some(k) =>
           && (forall j :: 0 <= j < |entries| && j != k ==> r.value.entries[j] == entries[j])
           && r.value.entries[k].1 == (if entries[k].1.Dict? then MapStrings(entries[k].1, Redactor(analyzer, anonymizer))
                                       else entries[k].1)
         case None => r == message
  {
    match message
    case Some(Dict(entries)) =>
      (match Find(entries, Params)
       case Some(k) =>
         if entries[k].1.Dict? then
           Some(Dict(entries[k := (entries[k].0, MapStrings(entries[k].1, Redactor(analyzer, anonymizer)))]))
         else message
       case None => message)
    case _ => message
  }

  /** The outcome after outbound redaction: a raise passes through as the
      same exception, a dict result is walked, any other result (a list, a
      string, an object) is returned as it came. */
  function RedactOutcome(outcome: Outcome, analyzer: Analyzer, anonymizer: Anonymizer): (r: Outcome)
    ensures outcome.Raised? <==> r.Raised?
    ensures outcome.Raised? ==> r.error == outcome.error
    ensures outcome.Returned? && !outcome.result.Dict? ==> r == outcome
    ensures outcome.Returned? && outcome.result.Dict? ==>
      r.Returned? && r.result.Dict? && Shape(r.result) == Shape(outcome.result)
      && r.result == MapStrings(outcome.result, Redactor(analyzer, anonymizer))
  {
    match outcome
    case Raised(_) => outcome
    case Returned(result) =>
      if result.Dict? then
        RedactionPreservesShape(result, analyzer, anonymizer);
        Returned(MapStrings(result, Redactor(analyzer, anonymizer)))
      else outcome
  }

  // ---------------------------------------------------------------------------
  // The middleware.
  // ---------------------------------------------------------------------------

  class GuardrailsMiddleware {
    const analyzer: Analyzer
    const anonymizer: Anonymizer

    /** The detection and anonymization engines are injected rather than built. */
    constructor (analyzer: Analyzer, anonymizer: Anonymizer)
      ensures this.analyzer == analyzer && this.anonymizer == anonymizer
    {
      this.analyzer := analyzer;
      this.anonymizer := anonymizer;
    }

    /** `__call__(context, call_next)`. The next stage sees the message as
        it stands after inbound redaction; its raise is re-raised as is,
        and its result is redacted only when it is a dict. */
    method Call(context: MiddlewareContext, callNext: Option<Value> -> Outcome) returns (outcome: Outcome)
      modifies context
      ensures context.message == RedactParams(old(context.message), analyzer, anonymizer)
      ensures outcome == RedactOutcome(callNext(context.message), analyzer, anonymizer)
    {
      // Inbound: only a dict-valued params entry of a dict-valued message.
      if context.message.Some? && context.message.value.Dict? {
        var entries := context.message.value.entries;
        var k := Find(entries, Params);
        if k.Some? && entries[k.value].1.Dict? {
          var params := RedactDict(entries[k.value].1.entries, analyzer, anonymizer);
          context.message := Some(Dict(entries[k.value := (entries[k.value].0, Dict(params))]));
        }
      }

      // Forward; a raise leaves without outbound redaction.
      var next := callNext(context.message);
      if next.Raised? {
        outcome := next;
        return;
      }

      // Outbound: only a dict result.
      var result := next.result;
      if result.Dict? {
        var redacted := RedactDict(result.entries, analyzer, anonymizer);
        result := Dict(redacted);
      }
      outcome := Returned(result);
    }
  }

  // ---------------------------------------------------------------------------
  // Properties of the pipeline.
  // ---------------------------------------------------------------------------

  /** `message.get("params")` of a dict-valued message, if it has one. */
  function ParamsOf(message: Option<Value>): Option<Value>
  {
    match message
    case Some(Dict(entries)) =>
      (match Find(entries, Params)
       case Some(k) => Some(entries[k].1)
       case None => None)
    case _ => None
  }

  /** A call goes through the middleware unchanged when the analyzer finds
      nothing in the parts the middleware walks: a dict-valued params entry
      and a dict result. Everything else in the message is never looked at. */
  lemma NothingDetectedPassesThrough(message: Option<Value>, outcome: Outcome, analyzer: Analyzer, anonymizer: Anonymizer)
    requires ParamsOf(message).Some? && ParamsOf(message).value.Dict? ==> NothingDetected(ParamsOf(message).value, analyzer)
    requires outcome.Returned? && outcome.result.Dict? ==> NothingDetected(outcome.result, analyzer)
    ensures RedactParams(message, analyzer, anonymizer) == message
    ensures RedactOutcome(outcome, analyzer, anonymizer) == outcome
  {
    if message.Some? && message.value.Dict? {
      var entries := message.value.entries;
      match Find(entries, Params)
      case Some(k) =>
        if entries[k].1.Dict? {
          NothingDetectedIsIdentity(entries[k].1, analyzer, anonymizer);
          assert entries[k := (entries[k].0, entries[k].1)] == entries;
        }
      case None =>
    }
    if outcome.Returned? && outcome.result.Dict? {
      NothingDetectedIsIdentity(outcome.result, analyzer, anonymizer);
    }
  }

  /** The echo tool's reply to a safe message comes back as it was sent. */
  lemma SafeMessageEchoedUnchanged(analyzer: Analyzer, anonymizer: Anonymizer)
    requires analyzer("Hello, this is a safe message.", DefaultEntities, Language) == []
    ensures
      var reply := Returned(Dict([("result", Str("Hello, this is a safe message."))]));
      RedactOutcome(reply, analyzer, anonymizer) == reply
  {
  }

  /** Every string value (dict value or list element) the caller gets back
      in a dict result is either the anonymizer's output on the spans the
      analyzer reported, or a text the analyzer found nothing in. The dict
      keys come back as they were sent. */
  lemma ReturnedStringsAreSafe(outcome: Outcome, analyzer: Analyzer, anonymizer: Anonymizer, safe: string -> bool)
    requires outcome.Returned? && outcome.result.Dict?
    requires forall t :: analyzer(t, DefaultEntities, Language) != [] ==>
      safe(anonymizer(t, ToAnonymizerResults(analyzer(t, DefaultEntities, Language))))
    requires forall t :: analyzer(t, DefaultEntities, Language) == [] ==> safe(t)
    ensures AllStrings(RedactOutcome(outcome, analyzer, anonymizer).result, safe)
  {
    RedactedStringsAreSafe(outcome.result, analyzer, anonymizer, safe);
  }
}
