/** The five-step email pipeline's decision logic: the execution decision
    of the last step, the configuration merge, and the early exit for an
    email whose only action is to ignore it. The model calls of the first
    four steps are parameters. */
module Pipeline {
  import opened Wrappers
  import opened Strings
  import opened Sequences
  import opened JsMath

  datatype ActionType =
    | CreateBooking
    | CancelBooking
    | RescheduleBooking
    | AnswerInquiry
    | RequestInfo
    | Escalate
    | Ignore

  /** The wire name of an action type. */
  function ActionName(a: ActionType): string {
    match a
    case CreateBooking => "create_booking"
    case CancelBooking => "cancel_booking"
    case RescheduleBooking => "reschedule_booking"
    case AnswerInquiry => "answer_inquiry"
    case RequestInfo => "request_info"
    case Escalate => "escalate"
    case Ignore => "ignore"
  }

  const AllActionTypes: seq<ActionType> :=
    [CreateBooking, CancelBooking, RescheduleBooking, AnswerInquiry, RequestInfo, Escalate, Ignore]

  /** There are exactly seven action types, each with its own name. */
  lemma ActionTypesClosed()
    ensures |AllActionTypes| == 7 && Distinct(AllActionTypes)
    ensures forall a: ActionType :: a in AllActionTypes
    ensures forall a: ActionType, b: ActionType :: ActionName(a) == ActionName(b) ==> a == b
  {
    forall a: ActionType ensures a in AllActionTypes {
      match a
      case CreateBooking => assert AllActionTypes[0] == a;
      case CancelBooking => assert AllActionTypes[1] == a;
      case RescheduleBooking => assert AllActionTypes[2] == a;
      case AnswerInquiry => assert AllActionTypes[3] == a;
      case RequestInfo => assert AllActionTypes[4] == a;
      case Escalate => assert AllActionTypes[5] == a;
      case Ignore => assert AllActionTypes[6] == a;
    }
  }

  /** A required action. Its free-form parameters are not modelled. */
  datatype RequiredAction = RequiredAction(kind: ActionType, priority: int, reasoning: string)

  datatype CapabilityCheck = CapabilityCheck(
    canProceed: bool,
    missingInfo: seq<string>,
    blockedActions: seq<string>,
    confidence: real)

  datatype ProposedResponse = ProposedResponse(emailSubject: string, emailBody: string, confidence: real, reasoning: string)

  datatype ExecutionDecision = AutoExecute | QueueDraft | Escalation

  /** The outcome of the last step. Action lists hold action types, whose
      names are what the pipeline stores. */
  datatype ExecutionResult = ExecutionResult(
    decision: ExecutionDecision,
    executed: seq<ActionType>,
    pending: seq<ActionType>,
    escalationReason: Option<string>)

  datatype Mode = Draft | Autonomous

  datatype Thresholds = Thresholds(autoExecute: real, queueDraft: real)

  datatype PipelineConfig = PipelineConfig(
    workspaceId: string,
    mode: Mode,
    thresholds: Thresholds,
    allowedAutoActions: seq<ActionType>)

  /** Actions that always need a human to approve them. */
  const AlwaysApprove: seq<ActionType> := [CancelBooking, RescheduleBooking, Escalate]

  const NoResponseReason: string := "No response could be generated"
  const CannotProceedReason: string := "Cannot proceed"

  function Kinds(actions: seq<RequiredAction>): (r: seq<ActionType>)
    ensures |r| == |actions|
    ensures forall i :: 0 <= i < |actions| ==> r[i] == actions[i].kind
  {
    seq(|actions|, i requires 0 <= i < |actions| => actions[i].kind)
  }

  predicate NeedsApproval(actions: seq<RequiredAction>) {
    exists i :: 0 <= i < |actions| && actions[i].kind in AlwaysApprove
  }

  predicate AllAllowed(actions: seq<RequiredAction>, allowed: seq<ActionType>) {
    forall i :: 0 <= i < |actions| ==> actions[i].kind in allowed || actions[i].kind == Ignore
  }

  function Min(a: real, b: real): real {
    if a <= b then a else b
  }

  /** The escalation reason of a blocked request: the blocked actions
      joined by ", ", or "Cannot proceed" when that is empty. */
  function BlockedReason(blocked: seq<string>): string {
    var joined := Join(blocked, ", ");
    if joined == "" then CannotProceedReason else joined
  }

  /** "Low confidence: " with the confidence as a rounded percentage. */
  function LowConfidenceReason(confidence: real): string {
    "Low confidence: " + IntToString(JsRound(confidence * 100.0)) + "%"
  }

  /** `decideExecution`. */
  function DecideExecution(actions: seq<RequiredAction>, capability: CapabilityCheck,
                           proposed: Option<ProposedResponse>, config: PipelineConfig): (r: ExecutionResult)
  {
    if proposed.None? then
      ExecutionResult(Escalation, [], Kinds(actions), Some(NoResponseReason))
    else if NeedsApproval(actions) then
      ExecutionResult(QueueDraft, [], Kinds(actions), None)
    else if !capability.canProceed then
      if |capability.missingInfo| > 0 && proposed.value.confidence >= config.thresholds.autoExecute then
        if config.mode == Autonomous then ExecutionResult(AutoExecute, [RequestInfo], [], None)
        else ExecutionResult(QueueDraft, [], [RequestInfo], None)
      else
        ExecutionResult(Escalation, [], Kinds(actions), Some(BlockedReason(capability.blockedActions)))
    else
      var confidence := Min(capability.confidence, proposed.value.confidence);
      if confidence < config.thresholds.queueDraft then
        ExecutionResult(Escalation, [], Kinds(actions), Some(LowConfidenceReason(confidence)))
      else if confidence >= config.thresholds.autoExecute
              && AllAllowed(actions, config.allowedAutoActions)
              && config.mode == Autonomous then
        ExecutionResult(AutoExecute, Kinds(actions), [], None)
      else
        ExecutionResult(QueueDraft, [], Kinds(actions), None)
  }

  /** Without a proposed response the email is escalated and every action
      is left pending. */
  lemma NoResponseEscalates(actions: seq<RequiredAction>, capability: CapabilityCheck, config: PipelineConfig)
    ensures DecideExecution(actions, capability, None, config)
         == ExecutionResult(Escalation, [], Kinds(actions), Some(NoResponseReason))
  {
  }

  /** A cancellation, a rescheduling or an escalation among the actions
      always goes to a human as a draft, whatever the capability check and
      the confidences say. */
  lemma ApprovalRequiredFirst(actions: seq<RequiredAction>, capability: CapabilityCheck,
                              p: ProposedResponse, config: PipelineConfig)
    requires NeedsApproval(actions)
    ensures DecideExecution(actions, capability, Some(p), config)
         == ExecutionResult(QueueDraft, [], Kinds(actions), None)
  {
  }

  /** When the request cannot proceed only because information is
      missing and the reply asking for it is confident enough, that reply
      is sent in autonomous mode and queued otherwise. */
  lemma MissingInfoRequest(actions: seq<RequiredAction>, capability: CapabilityCheck,
                           p: ProposedResponse, config: PipelineConfig)
    requires !NeedsApproval(actions) && !capability.canProceed
    requires |capability.missingInfo| > 0 && p.confidence >= config.thresholds.autoExecute
    ensures var r := DecideExecution(actions, capability, Some(p), config);
            if config.mode == Autonomous then r == ExecutionResult(AutoExecute, [RequestInfo], [], None)
            else r == ExecutionResult(QueueDraft, [], [RequestInfo], None)
  {
  }

  /** Any other request that cannot proceed is escalated, giving the
      blocked actions, or "Cannot proceed" when none is named. */
  lemma BlockedEscalates(actions: seq<RequiredAction>, capability: CapabilityCheck,
                         p: ProposedResponse, config: PipelineConfig)
    requires !NeedsApproval(actions) && !capability.canProceed
    requires |capability.missingInfo| == 0 || p.confidence < config.thresholds.autoExecute
    ensures DecideExecution(actions, capability, Some(p), config)
         == ExecutionResult(Escalation, [], Kinds(actions), Some(BlockedReason(capability.blockedActions)))
  {
  }

  /** The reason falls back to "Cannot proceed" exactly when no blocked
      action, or a single empty one, is named. */
  lemma BlockedReasonFallback(blocked: seq<string>)
    ensures BlockedReason(blocked) == CannotProceedReason <==>
              |blocked| == 0 || blocked == [""] || Join(blocked, ", ") == CannotProceedReason
    ensures |blocked| == 1 && blocked[0] != "" ==> BlockedReason(blocked) == blocked[0]
  {
    if |blocked| >= 2 {
      assert |Join(blocked, ", ")| >= 2;
    } else if |blocked| == 1 {
      assert blocked == [blocked[0]];
    }
  }

  /** When the request can proceed, the lower of the two confidences
      decides: below the draft threshold the email is escalated; at or
      above the auto threshold, with every action allowed (or an ignore)
      and the pipeline autonomous, everything is executed; otherwise the
      reply is queued as a draft. */
  lemma ConfidenceDecides(actions: seq<RequiredAction>, capability: CapabilityCheck,
                          p: ProposedResponse, config: PipelineConfig)
    requires !NeedsApproval(actions) && capability.canProceed
    ensures var c := Min(capability.confidence, p.confidence);
            var r := DecideExecution(actions, capability, Some(p), config);
            && c <= capability.confidence && c <= p.confidence
            && (c == capability.confidence || c == p.confidence)
            && (r.decision == Escalation <==> c < config.thresholds.queueDraft)
            && (r.decision == Escalation ==> r.escalationReason == Some(LowConfidenceReason(c)))
            && (r.decision == AutoExecute <==>
                  && c >= config.thresholds.queueDraft
                  && c >= config.thresholds.autoExecute
                  && AllAllowed(actions, config.allowedAutoActions)
                  && config.mode == Autonomous)
            && (r.decision == AutoExecute ==> r.executed == Kinds(actions) && r.pending == [])
            && (r.decision != AutoExecute ==> r.executed == [] && r.pending == Kinds(actions))
  {
  }

  /** In draft mode nothing is ever executed automatically. */
  lemma DraftModeNeverAutoExecutes(actions: seq<RequiredAction>, capability: CapabilityCheck,
                                   proposed: Option<ProposedResponse>, config: PipelineConfig)
    requires config.mode == Draft
    ensures DecideExecution(actions, capability, proposed, config).decision != AutoExecute
    ensures DecideExecution(actions, capability, proposed, config).executed == []
  {
  }

  /** Actions are executed only with an automatic decision, which leaves
      nothing pending; only escalations carry a reason; and an action that
      always needs approval is never executed automatically, even when the
      configuration allows it. */
  lemma ExecutionConsistent(actions: seq<RequiredAction>, capability: CapabilityCheck,
                            proposed: Option<ProposedResponse>, config: PipelineConfig)
    ensures var r := DecideExecution(actions, capability, proposed, config);
            && (|r.executed| > 0 ==> r.decision == AutoExecute)
            && (r.decision == AutoExecute ==> r.pending == [] && (|r.executed| > 0 || |actions| == 0))
            && (r.escalationReason.Some? <==> r.decision == Escalation)
            && (r.decision == AutoExecute ==> forall i :: 0 <= i < |actions| ==> actions[i].kind !in AlwaysApprove)
            && (r.decision == Escalation ==> r.pending == Kinds(actions))
  {
  }

  /** The thresholds and fields a caller may supply; absent ones keep
      their defaults. */
  datatype PartialThresholds = PartialThresholds(autoExecute: Option<real>, queueDraft: Option<real>)

  datatype PartialConfig = PartialConfig(
    workspaceId: Option<string>,
    mode: Option<Mode>,
    thresholds: Option<PartialThresholds>,
    allowedAutoActions: Option<seq<ActionType>>)

  const DefaultMode: Mode := Draft
  const DefaultThresholds: Thresholds := Thresholds(0.95, 0.70)
  const DefaultAllowedAutoActions: seq<ActionType> := [AnswerInquiry, RequestInfo, Ignore]
  const DefaultWorkspaceId: string := "default"

  /** The configuration `processEmail` works with. A supplied workspace id
      is kept as given, the empty one included, since the supplied fields
      are spread over the "default" fallback. */
  function MergeConfig(c: PartialConfig): (r: PipelineConfig)
  {
    var t := c.thresholds.GetOr(PartialThresholds(None, None));
    PipelineConfig(
      c.workspaceId.GetOr(DefaultWorkspaceId),
      c.mode.GetOr(DefaultMode),
      Thresholds(t.autoExecute.GetOr(DefaultThresholds.autoExecute),
                 t.queueDraft.GetOr(DefaultThresholds.queueDraft)),
      c.allowedAutoActions.GetOr(DefaultAllowedAutoActions))
  }

  /** Each supplied field, and each supplied threshold on its own,
      overrides its default; every field left out keeps the default. */
  lemma MergeConfigPerKey(c: PartialConfig)
    ensures var r := MergeConfig(c);
            && (c.workspaceId.Some? ==> r.workspaceId == c.workspaceId.value)
            && (c.workspaceId.None? ==> r.workspaceId == DefaultWorkspaceId)
            && (c.mode.Some? ==> r.mode == c.mode.value)
            && (c.mode.None? ==> r.mode == DefaultMode)
            && (c.allowedAutoActions.Some? ==> r.allowedAutoActions == c.allowedAutoActions.value)
            && (c.allowedAutoActions.None? ==> r.allowedAutoActions == DefaultAllowedAutoActions)
            && (c.thresholds.Some? && c.thresholds.value.autoExecute.Some? ==>
                  r.thresholds.autoExecute == c.thresholds.value.autoExecute.value)
            && (c.thresholds.None? || c.thresholds.value.autoExecute.None? ==>
                  r.thresholds.autoExecute == DefaultThresholds.autoExecute)
            && (c.thresholds.Some? && c.thresholds.value.queueDraft.Some? ==>
                  r.thresholds.queueDraft == c.thresholds.value.queueDraft.value)
            && (c.thresholds.None? || c.thresholds.value.queueDraft.None? ==>
                  r.thresholds.queueDraft == DefaultThresholds.queueDraft)
  {
  }

  /** With nothing supplied the pipeline drafts, with thresholds 0.95 and
      0.70, and would only auto-execute inquiries, information requests
      and ignores. */
  lemma DefaultConfig()
    ensures MergeConfig(PartialConfig(None, None, None, None))
         == PipelineConfig("default", Draft, Thresholds(0.95, 0.70), [AnswerInquiry, RequestInfo, Ignore])
  {
  }

  /** What the pipeline returns apart from the email, the assessment, the
      timing and the model name. */
  datatype PipelineOutcome = PipelineOutcome(
    requiredActions: seq<RequiredAction>,
    capabilityCheck: CapabilityCheck,
    proposedResponse: Option<ProposedResponse>,
    execution: ExecutionResult)

  /** The capability check reported for an ignored email. */
  const IgnoreCapability: CapabilityCheck := CapabilityCheck(true, [], [], 1.0)

  /** `processEmail` after the first two steps produced `actions`;
      `checkCapability` and `proposeResponse` stand for the third and
      fourth step's model calls. */
  function ProcessEmail(actions: seq<RequiredAction>, config: PartialConfig,
                        checkCapability: seq<RequiredAction> -> CapabilityCheck,
                        proposeResponse: (seq<RequiredAction>, CapabilityCheck) -> ProposedResponse): (r: PipelineOutcome)
    ensures r.requiredActions == actions
  {
    if |actions| == 1 && actions[0].kind == Ignore then
      PipelineOutcome(actions, IgnoreCapability, None, ExecutionResult(AutoExecute, [Ignore], [], None))
    else
      var capability := checkCapability(actions);
      var proposed := proposeResponse(actions, capability);
      PipelineOutcome(actions, capability, Some(proposed),
                      DecideExecution(actions, capability, Some(proposed), MergeConfig(config)))
  }

  /** A single ignore action ends the pipeline: whatever the later steps
      would say, nothing is proposed and the ignore is executed. */
  lemma IgnoreShortCircuit(a: RequiredAction, config: PartialConfig,
                           checkCapability: seq<RequiredAction> -> CapabilityCheck,
                           proposeResponse: (seq<RequiredAction>, CapabilityCheck) -> ProposedResponse)
    requires a.kind == Ignore
    ensures var r := ProcessEmail([a], config, checkCapability, proposeResponse);
            && r.capabilityCheck == IgnoreCapability
            && r.proposedResponse.None?
            && r.execution == ExecutionResult(AutoExecute, [Ignore], [], None)
  {
  }

  /** Every other email goes through the capability check, gets a
      proposed response, and is decided under the merged configuration. */
  lemma FullPipeline(actions: seq<RequiredAction>, config: PartialConfig,
                     checkCapability: seq<RequiredAction> -> CapabilityCheck,
                     proposeResponse: (seq<RequiredAction>, CapabilityCheck) -> ProposedResponse)
    requires !(|actions| == 1 && actions[0].kind == Ignore)
    ensures var r := ProcessEmail(actions, config, checkCapability, proposeResponse);
            && r.capabilityCheck == checkCapability(actions)
            && r.proposedResponse == Some(proposeResponse(actions, r.capabilityCheck))
            && r.execution == DecideExecution(actions, r.capabilityCheck, r.proposedResponse, MergeConfig(config))
  {
  }

  /** Outside the short cut a response is always proposed, so an email
      is never escalated for want of one: it is escalated exactly when no
      action needs approval and either the request is blocked without a
      confident information request, or the lower confidence falls below
      the merged draft threshold; the reason says which. */
  lemma PipelineEscalationCause(actions: seq<RequiredAction>, config: PartialConfig,
                                checkCapability: seq<RequiredAction> -> CapabilityCheck,
                                proposeResponse: (seq<RequiredAction>, CapabilityCheck) -> ProposedResponse)
    requires !(|actions| == 1 && actions[0].kind == Ignore)
    ensures var r := ProcessEmail(actions, config, checkCapability, proposeResponse);
            var cap := checkCapability(actions);
            var p := proposeResponse(actions, cap);
            var t := MergeConfig(config).thresholds;
            && r.proposedResponse == Some(p)
            && (r.execution.decision == Escalation <==>
                  && !NeedsApproval(actions)
                  && (if cap.canProceed then Min(cap.confidence, p.confidence) < t.queueDraft
                      else |cap.missingInfo| == 0 || p.confidence < t.autoExecute))
            && (r.execution.decision == Escalation ==>
                  r.execution.escalationReason ==
                    Some(if cap.canProceed then LowConfidenceReason(Min(cap.confidence, p.confidence))
                         else BlockedReason(cap.blockedActions)))
  {
    FullPipeline(actions, config, checkCapability, proposeResponse);
    var cap := checkCapability(actions);
    var p := proposeResponse(actions, cap);
    var merged := MergeConfig(config);
    if NeedsApproval(actions) {
      ApprovalRequiredFirst(actions, cap, p, merged);
    } else if cap.canProceed {
      ConfidenceDecides(actions, cap, p, merged);
    } else if |cap.missingInfo| > 0 && p.confidence >= merged.thresholds.autoExecute {
      MissingInfoRequest(actions, cap, p, merged);
    } else {
      BlockedEscalates(actions, cap, p, merged);
    }
  }

  /** With no mode supplied the pipeline drafts: the only thing it ever
      executes by itself is the ignore of an email whose single action is
      to ignore it. */
  lemma DefaultModeExecutesOnlyIgnore(actions: seq<RequiredAction>, config: PartialConfig,
                                      checkCapability: seq<RequiredAction> -> CapabilityCheck,
                                      proposeResponse: (seq<RequiredAction>, CapabilityCheck) -> ProposedResponse)
    requires config.mode.None?
    ensures var r := ProcessEmail(actions, config, checkCapability, proposeResponse);
            && (r.execution.decision == AutoExecute <==> |actions| == 1 && actions[0].kind == Ignore)
            && (r.execution.executed == [] <==> !(|actions| == 1 && actions[0].kind == Ignore))
            && (r.execution.executed != [] ==> r.execution.executed == [Ignore])
  {
    if !(|actions| == 1 && actions[0].kind == Ignore) {
      FullPipeline(actions, config, checkCapability, proposeResponse);
      MergeConfigPerKey(config);
      var cap := checkCapability(actions);
      DraftModeNeverAutoExecutes(actions, cap, Some(proposeResponse(actions, cap)), MergeConfig(config));
    }
  }

  /** In an email with more than one action, even an all-ignore one, the
      short cut does not apply. */
  lemma TwoIgnoresDecided(a: RequiredAction, b: RequiredAction, config: PartialConfig,
                          checkCapability: seq<RequiredAction> -> CapabilityCheck,
                          proposeResponse: (seq<RequiredAction>, CapabilityCheck) -> ProposedResponse)
    ensures ProcessEmail([a, b], config, checkCapability, proposeResponse).proposedResponse.Some?
  {
  }
}
