/** The earlier single-classifier pipeline: classify, write a reply when
    the intent deserves one, and decide between drafting, escalating and
    ignoring. The classifier and the reply writer are parameters. */
module LegacyPipeline {
  import opened Wrappers

  datatype EmailIntent = BookingRequest | GeneralInquiry | Complaint | FollowUp | Spam | Unknown

  /** The classifier's verdict; its confidence is meant to lie in 0 to 1.
      Extracted details are not modelled. */
  datatype ClassificationResult = ClassificationResult(intent: EmailIntent, confidence: real, reasoning: string)

  datatype GeneratedResponse = GeneratedResponse(subject: string, body: string, confidence: real, reasoning: string)

  datatype Action = DraftAction | EscalateAction | IgnoreAction

  datatype Email = Email(id: string, subject: Option<string>, body: Option<string>, from: Option<string>)

  /** The result without its timing. */
  datatype PipelineResult = PipelineResult(
    emailId: string,
    classification: ClassificationResult,
    response: Option<GeneratedResponse>,
    action: Action)

  datatype Tone = Formal | Friendly | Casual

  datatype BusinessContext = BusinessContext(
    name: string,
    kind: string,
    description: string,
    services: Option<seq<string>>,
    hours: Option<string>,
    tone: Option<Tone>,
    customInstructions: Option<string>)

  /** The configuration as the caller gives it: both settings optional. */
  datatype LegacyConfig = LegacyConfig(context: BusinessContext, confidenceThreshold: Option<real>, autoIgnoreSpam: Option<bool>)

  const DefaultThreshold: real := 0.7
  const DefaultAutoIgnoreSpam: bool := true

  /** The settings after the defaults are spread under the caller's. */
  function Threshold(c: LegacyConfig): (r: real)
    ensures c.confidenceThreshold.Some? ==> r == c.confidenceThreshold.value
    ensures c.confidenceThreshold.None? ==> r == DefaultThreshold
  {
    c.confidenceThreshold.GetOr(DefaultThreshold)
  }

  function AutoIgnoreSpam(c: LegacyConfig): (r: bool)
    ensures c.autoIgnoreSpam.Some? ==> r == c.autoIgnoreSpam.value
    ensures c.autoIgnoreSpam.None? ==> r == DefaultAutoIgnoreSpam
  {
    c.autoIgnoreSpam.GetOr(DefaultAutoIgnoreSpam)
  }

  /** `shouldGenerateResponse` */
  function ShouldGenerateResponse(c: ClassificationResult): bool {
    if c.intent == Spam || c.intent == Unknown then false
    else if c.intent == Complaint then false
    else true
  }

  /** A reply is written for bookings, inquiries and follow-ups only. */
  lemma ShouldGenerateExactly(c: ClassificationResult)
    ensures !ShouldGenerateResponse(c) <==> c.intent in {Spam, Unknown, Complaint}
    ensures ShouldGenerateResponse(c) <==> c.intent in {BookingRequest, GeneralInquiry, FollowUp}
  {
  }

  /** `determineAction` */
  function DetermineAction(c: ClassificationResult, responseConfidence: Option<real>, threshold: real): Action {
    if c.intent == Spam then IgnoreAction
    else if c.intent == Complaint then EscalateAction
    else if c.intent == Unknown then EscalateAction
    else if c.confidence < threshold then EscalateAction
    else if responseConfidence.Some? && responseConfidence.value >= threshold then DraftAction
    else EscalateAction
  }

  /** Spam is ignored and nothing else is; a draft is kept exactly when
      the intent is one a reply is written for and both the
      classification and the reply reach the threshold; everything else
      is escalated. */
  lemma DetermineActionExactly(c: ClassificationResult, responseConfidence: Option<real>, threshold: real)
    ensures var a := DetermineAction(c, responseConfidence, threshold);
            && (a == IgnoreAction <==> c.intent == Spam)
            && (a == DraftAction <==>
                  && ShouldGenerateResponse(c)
                  && c.confidence >= threshold
                  && responseConfidence.Some? && responseConfidence.value >= threshold)
            && (a == EscalateAction <==> c.intent != Spam && !(a == DraftAction))
  {
  }

  /** `processEmail`. `classify` and `respond` stand for the model calls. */
  function ProcessEmail(email: Email, config: LegacyConfig,
                        classify: (Email, BusinessContext) -> ClassificationResult,
                        respond: (Email, ClassificationResult, BusinessContext) -> GeneratedResponse): (r: PipelineResult)
    ensures r.emailId == email.id
    ensures r.classification == classify(email, config.context)
  {
    var classification := classify(email, config.context);
    if AutoIgnoreSpam(config) && classification.intent == Spam then
      PipelineResult(email.id, classification, None, IgnoreAction)
    else
      var response := if ShouldGenerateResponse(classification)
                      then Some(respond(email, classification, config.context)) else None;
      var confidence := if response.Some? then Some(response.value.confidence) else None;
      PipelineResult(email.id, classification, response, DetermineAction(classification, confidence, Threshold(config)))
  }

  /** Spam is ignored without a reply being written, whether or not the
      early exit is switched on. */
  lemma SpamIgnored(email: Email, config: LegacyConfig,
                    classify: (Email, BusinessContext) -> ClassificationResult,
                    respond: (Email, ClassificationResult, BusinessContext) -> GeneratedResponse)
    requires classify(email, config.context).intent == Spam
    ensures var r := ProcessEmail(email, config, classify, respond);
            r.action == IgnoreAction && r.response.None?
  {
  }

  /** A reply exists exactly when the intent deserves one, and the
      action follows the classification and that reply's confidence under
      the effective threshold. */
  lemma ReplyAndAction(email: Email, config: LegacyConfig,
                       classify: (Email, BusinessContext) -> ClassificationResult,
                       respond: (Email, ClassificationResult, BusinessContext) -> GeneratedResponse)
    ensures var r := ProcessEmail(email, config, classify, respond);
            var c := classify(email, config.context);
            && (r.response.Some? <==> ShouldGenerateResponse(c))
            && (r.response.Some? ==> r.response.value == respond(email, c, config.context))
            && (r.action == DraftAction <==>
                  ShouldGenerateResponse(c) && c.confidence >= Threshold(config)
                  && respond(email, c, config.context).confidence >= Threshold(config))
  {
    var c := classify(email, config.context);
    var resp := if ShouldGenerateResponse(c) then Some(respond(email, c, config.context)) else None;
    var conf := if resp.Some? then Some(resp.value.confidence) else None;
    DetermineActionExactly(c, conf, Threshold(config));
  }

  /** The batch size of `processEmails`. */
  const Concurrency: nat := 3

  /** `processEmails`: batches of three are processed together and their
      results appended in order, so the outcome is one result per email,
      in input order. */
  method ProcessEmails(emails: seq<Email>, config: LegacyConfig,
                       classify: (Email, BusinessContext) -> ClassificationResult,
                       respond: (Email, ClassificationResult, BusinessContext) -> GeneratedResponse)
    returns (results: seq<PipelineResult>)
    ensures |results| == |emails|
    ensures forall k :: 0 <= k < |emails| ==> results[k] == ProcessEmail(emails[k], config, classify, respond)
  {
    results := [];
    var i := 0;
    while i < |emails|
      invariant i <= |emails|
      invariant |results| == i
      invariant forall k :: 0 <= k < i ==> results[k] == ProcessEmail(emails[k], config, classify, respond)
    {
      var end := if i + Concurrency <= |emails| then i + Concurrency else |emails|;
      var batch := emails[i..end];
      var batchResults := seq(|batch|, j requires 0 <= j < |batch| => ProcessEmail(batch[j], config, classify, respond));
      results := results + batchResults;
      i := end;
    }
  }
}
