# Tandela core, modelled in Dafny

Tandela is a dental-practice assistant. This project models its pure
logic, the parts that decide what the program shows, stores or sends,
and proves properties of it. It covers four areas.

- **Periodontal chart.** The 32-tooth examination, with two sites per
  tooth. It covers the empty examination, the reducer behind the chart
  and the summary (bleeding and plaque percentages). It also covers the
  numeric cell's input filter and the jaw tables' cells and header
  clicks. On the voice side it covers turning a `record` tool call into
  chart actions, the conversation log sent to the model, the voice
  route's request check and reply shaping, and the audio worklet that
  resamples microphone input to 24 kHz 16-bit PCM.
- **Secretary page.** Dental codes are taken from final speech results
  and segments are flagged for review. Clarification prompts are spoken
  with a 12-second cooldown.
- **Email pipeline.** This covers the execution decision of the
  five-step pipeline, its configuration merge and its early exit for
  ignored mail. It also covers the legacy classify-and-respond pipeline,
  the JSON extraction of the AI client and the AI configuration check.
- **Gmail and dashboard helpers.** These are header lookup, body
  selection, recipient parsing and read state of fetched mail. They
  include building a raw reply and its URL-safe base 64 encoding
  (section 5 of RFC 4648). They also cover the display helpers of the
  inbox, the review queue and the activity feed.

Every file is one module:

| Module | What it holds |
|---|---|
| `Wrappers` | `Option` and `Result` |
| `Sequences` | distinctness and filtering |
| `Strings` | JavaScript `trim`, split/join, decimal printing and ASCII case |
| `JsMath` | `Math.round` |
| `PerioTypes`, `PerioConstants`, `EmptyExamination`, `PerioReducer`, `PerioCalculations` | the chart's data and logic |
| `NumericCell`, `JawTable` | the chart's input components |
| `VoiceTypes`, `VoiceMapper`, `VoiceHistory`, `VoiceRoute` | voice charting |
| `Resampler` | the PCM worklet |
| `Secretary` | the secretary page |
| `Pipeline`, `LegacyPipeline`, `AiClient`, `AiConfig` | AI email processing |
| `Base64`, `Gmail` | Gmail helpers |
| `EmailDisplay`, `ReviewItem`, `ActivityFeed` | dashboard helpers |

Whatever the code depends on from outside is a parameter of the model.
This includes language-model calls, `JSON.stringify`, UTF-8 encoding,
base 64 decoding of fetched bodies, the clock, id generation, locale
date formatting and regular-expression matching.

## Model

| member | source | states |
|---|---|---|
| PerioTypes.Position | src/lib/perio/types.ts:1-6 | a tooth number is ten times its quadrant (1-4) plus its position (1-8) |
| PerioTypes.FdiCodes | src/lib/perio/types.ts:1-6 | every quadrant 1-4 and position 1-8 gives a valid tooth number, and the two are read back from it |
| PerioTypes.ParseSite | src/lib/perio/types.ts:8-9 | a raw site string names a chart site only when it is "D" or "M", and then it is that site's name |
| PerioTypes.ParseSiteName | src/lib/perio/types.ts:8-9 | parsing a site's name gives the site back |
| PerioTypes.WithFlag | src/lib/perio/types.ts:11-17 | setting one check box changes that box and leaves the other boxes and both numbers alone |
| PerioTypes.WithNumber | src/lib/perio/types.ts:11-17 | setting one measurement changes that number and leaves the other number and every box alone |
| PerioTypes.SiteMeasurementExt | src/lib/perio/types.ts:11-17 | two site records with the same boxes and numbers are equal |
| PerioConstants.UpperJawTeeth | src/lib/perio/constants.ts:3-7 | the upper jaw reads 18 down to 11, then 21 up to 28 |
| PerioConstants.LowerJawTeeth | src/lib/perio/constants.ts:9-13 | the lower jaw reads 48 down to 41, then 31 up to 38 |
| PerioConstants.UpperJawTeethExact | src/lib/perio/constants.ts:3-7 | the upper row lists each tooth of quadrants 1 and 2 once, and no other |
| PerioConstants.LowerJawTeethExact | src/lib/perio/constants.ts:9-13 | the lower row lists each tooth of quadrants 3 and 4 once, and no other |
| PerioConstants.AllTeethExact | src/lib/perio/constants.ts:15 | ALL_TEETH has 32 entries, all different, covering every tooth |
| PerioConstants.AllTeethSet | src/lib/perio/constants.ts:15 | the set of all teeth holds every tooth and has 32 members |
| PerioConstants.MultiRootedTeethExact | src/lib/perio/constants.ts:17-21 | the multi-rooted teeth are positions 4-8 in the upper jaw and 6-8 in the lower jaw |
| PerioConstants.MultiRootedTeethCount | src/lib/perio/constants.ts:17-21 | there are 16 multi-rooted teeth |
| PerioConstants.RowLabelsDistinct | src/lib/perio/constants.ts:23-30 | no two rows share a label |
| PerioConstants.RowOrdersMirror | src/lib/perio/constants.ts:32-48 | both jaws show each of the five rows once, the lower order being the upper one reversed |
| EmptyExamination.CreateEmptySite | src/lib/perio/create-empty-examination.ts:4-12 | a new site has no box ticked and no measurement |
| EmptyExamination.CreateEmptySites | src/lib/perio/create-empty-examination.ts:14-22 | a new tooth has exactly the sites D and M, each empty |
| EmptyExamination.CreateEmptyTooth | src/lib/perio/create-empty-examination.ts:24-31 | a new tooth carries its own number, is present, has no comment and has two empty sites |
| EmptyExamination.CreateEmptyExamination | src/lib/perio/create-empty-examination.ts:33-39 | the empty examination is well formed, has exactly the 32 teeth and holds a new tooth for each |
| PerioReducer.SetCheckboxFrame | src/components/perio/perio-chart.tsx:13-29 | SET_CHECKBOX changes that one box of that one site and nothing else |
| PerioReducer.SetNumericFrame | src/components/perio/perio-chart.tsx:31-47 | SET_NUMERIC changes that one number of that one site and nothing else |
| PerioReducer.ToggleMissingFrame | src/components/perio/perio-chart.tsx:49-59 | TOGGLE_MISSING flips that tooth's missing flag and changes no other flag, comment or site |
| PerioReducer.SetCommentFrame | src/components/perio/perio-chart.tsx:61-71 | SET_COMMENT replaces that tooth's comment and changes nothing else |
| PerioReducer.ClearAllResets | src/components/perio/perio-chart.tsx:73-74 | CLEAR_ALL gives the empty examination whatever the state was |
| PerioReducer.SetIsIdempotent | src/components/perio/perio-chart.tsx:13-47 | repeating a set action changes nothing more |
| PerioReducer.SetIgnoresMissing | src/components/perio/perio-chart.tsx:31-47 | a measurement is stored on a missing tooth too, and the tooth stays missing |
| PerioReducer.ToggleMissingTwice | src/components/perio/perio-chart.tsx:49-59 | toggling a tooth twice restores the examination |
| PerioReducer.ToggleMissingKeepsData | src/components/perio/perio-chart.tsx:49-59 | marking a tooth missing keeps its sites and comment |
| PerioReducer.SetsOnDifferentCellsCommute | src/components/perio/perio-chart.tsx:13-29 | check-box actions on different cells can be applied in either order |
| PerioReducer.ApplyAllAppend | src/components/perio/perio-chart.tsx:11-76 | dispatching two lists of actions one after the other equals dispatching their concatenation |
| PerioCalculations.Tenths | src/lib/perio/calculations.ts:21-22 | the percentage in tenths is the nearest whole number of tenths to count/total (halves round up), lies in 0..1000, and is 0 when nothing is counted |
| PerioCalculations.Summarize | src/lib/perio/calculations.ts:4-27 | the summary counts the sites of present teeth, the bleeding and plaque sites among them, and their rounded percentages |
| PerioCalculations.CalculateSummary | src/lib/perio/calculations.ts:4-27 | the loop over teeth and sites computes that summary |
| PerioCalculations.CountedSitesMissing | src/lib/perio/calculations.ts:9-18 | every tooth accounts for two sites, counted when present and skipped when missing |
| PerioCalculations.TotalSites | src/lib/perio/calculations.ts:9-18 | the total is 64 minus two sites per missing tooth |
| PerioCalculations.SummaryDependsOnCountedData | src/lib/perio/calculations.ts:9-18 | examinations that agree on missing flags and on the bleeding and plaque of present teeth have the same summary |
| PerioCalculations.FurcationKeepsSummary | src/lib/perio/calculations.ts:13-17 | ticking furcation never changes the summary |
| PerioCalculations.NumberKeepsSummary | src/lib/perio/calculations.ts:13-17 | entering a measurement never changes the summary |
| PerioCalculations.MissingToothNotCounted | src/lib/perio/calculations.ts:11 | ticking a box on a missing tooth never changes the summary |
| PerioCalculations.EmptySummary | src/lib/perio/calculations.ts:4-27 | the empty chart shows 0 % bleeding and plaque over 64 sites |
| NumericCell.ParseIntRoundTrip | src/components/perio/numeric-cell.tsx:42 | `parseInt` reads back any printed integer, whatever non-digit text follows it |
| NumericCell.OnNumericInput | src/components/perio/numeric-cell.tsx:36-46 | blank input clears the cell; input that parses to a number within min..max sets it; anything else is dropped |
| NumericCell.OutOfRangeDropped | src/components/perio/numeric-cell.tsx:43-45 | a number outside the range is not accepted |
| NumericCell.TrailingTextIgnored | src/components/perio/numeric-cell.tsx:42-45 | a number in range followed by non-digit text is accepted as that number |
| NumericCell.NonNumberDropped | src/components/perio/numeric-cell.tsx:42 | text that does not start with a digit or sign is dropped |
| JawTable.JawLayout | src/components/perio/jaw-table.tsx:25-26 | the two tables show each tooth once, in the upper or lower table by quadrant, each with the five rows |
| JawTable.CheckboxRowIff | src/components/perio/jaw-table.tsx:17-22 | a row is shown as check boxes exactly when its field is a check-box field |
| JawTable.ColumnsAreSites | src/components/perio/jaw-table.tsx:119 | each tooth has one column per chart site, D and M |
| JawTable.CellEdit | src/components/perio/jaw-table.tsx:124-149 | every edit from a cell addresses that cell's tooth and site and is a set action |
| JawTable.CellEditGated | src/components/perio/jaw-table.tsx:124-146 | the cells of a missing tooth and furcation on a single-rooted tooth produce no action |
| JawTable.ClickToggles | src/components/perio/jaw-table.tsx:133-139 | clicking an enabled box dispatches its negation, and the box then shows it |
| JawTable.TypingFiltered | src/components/perio/jaw-table.tsx:141-149 | typing in a number cell dispatches exactly what the numeric filter accepts, with limits 0..12 for pocket depth and 0..3 for the margin |
| JawTable.MismatchedEventInert | src/components/perio/jaw-table.tsx:133-149 | a box ignores typing and a number cell ignores clicks |
| JawTable.HeaderClickFlipsCells | src/components/perio/jaw-table.tsx:68-70 | a header click flips every cell of that tooth between enabled and disabled and leaves other teeth alone |
| JawTable.TableEditKeepsBounds | src/components/perio/jaw-table.tsx:141-149 | edits through the table keep every measurement within its limits |
| JawTable.HeaderClickKeepsBounds | src/components/perio/jaw-table.tsx:68-70 | header clicks keep every measurement within its limits |
| JawTable.OutOfBoundsStored | src/components/perio/perio-chart.tsx:31-47 | the reducer itself stores any value, so a value over the limit breaks the bound |
| VoiceMapper.ToActions | src/components/perio/voice-input.tsx:85-125 | a non-tooth gives nothing; missing gives one toggle; otherwise one action per field given, all for that tooth |
| VoiceMapper.FieldCommands | src/components/perio/voice-input.tsx:95-122 | the field actions come in the order comment, bleeding, plaque, furcation, pocket depth, margin, all at one site |
| VoiceMapper.ToActionsRoundTrip | src/components/perio/voice-input.tsx:95-122 | reading the actions back gives the record, with the site defaulted to "D" when a site field is given |
| VoiceMapper.ToothOnlyYieldsNothing | src/components/perio/voice-input.tsx:85-125 | a record with only a tooth produces no action |
| VoiceMapper.ChartSitesIff | src/components/perio/voice-input.tsx:99 | all actions address a chart site exactly when no site field is given, or the site is absent, "D" or "M" |
| VoiceMapper.SchemaSiteOffChart | src/app/api/perio/voice/route.ts:21-25 | the tool schema admits "B", and such a record yields an action off the chart |
| VoiceMapper.SingleRootedFurcationStored | src/components/perio/voice-input.tsx:101-111 | a furcation for single-rooted tooth 11 becomes a command and the chart stores it |
| VoiceMapper.VoiceValuesUnbounded | src/components/perio/voice-input.tsx:113-122 | a spoken value beyond the cell limits, such as pocket depth 99, reaches the chart unchanged |
| VoiceMapper.CommitActionsOnChart | src/components/perio/voice-input.tsx:214-221 | when each record's actions address chart sites, so do all the committed actions |
| VoiceMapper.DispatchCommands | src/components/perio/voice-input.tsx:214-221 | the dispatch loop applies every action in order |
| VoiceMapper.DispatchRecords | src/components/perio/voice-input.tsx:214-221 | dispatching the records applies the concatenation of their actions, and counts them |
| VoiceMapper.CombineTranscripts | src/components/perio/voice-input.tsx:179-195 | a blank transcript commits nothing; a second transcript, when present, is labelled alongside the first |
| VoiceMapper.LabelledLayout | src/components/perio/voice-input.tsx:189-195 | the labelled text splits back into the two labels and the two transcripts |
| VoiceHistory.TurnLines | src/components/perio/voice-input.tsx:54-83 | a turn is logged as its header, the words, then actions and text, or "Actions: (none)" when it has neither |
| VoiceHistory.BuildMessages | src/components/perio/voice-input.tsx:54-83 | with no history the message is the transcript; otherwise it starts with the session header and ends with the new-input marker and the transcript |
| VoiceHistory.TurnsNumberedInOrder | src/components/perio/voice-input.tsx:54-83 | turn i of the history is logged under header i+1, followed by its words |
| VoiceHistory.TurnInMessage | src/components/perio/voice-input.tsx:54-83 | the message sent holds, for every turn i, the header numbered i+1, a line break and that turn's clinician line |
| VoiceHistory.TurnOffsetGrows | src/components/perio/voice-input.tsx:54-83 | in the message sent, a later turn stands further on than an earlier one |
| VoiceHistory.TurnHeadersDistinct | src/components/perio/voice-input.tsx:54-83 | no two turns share a header |
| VoiceRoute.NormalizeRequest | src/app/api/perio/voice/route.ts:135-143 | a request with neither messages nor transcript is refused; messages win over a transcript, which otherwise becomes one user message |
| VoiceRoute.ShapeReplyAppend | src/app/api/perio/voice/route.ts:154-170 | the tool calls and actions of two concatenated block lists are the concatenations of each list's; the clarifications are the `clarify` messages of the first list, then of the second, followed by the text clarifications of the first, then of the second |
| VoiceRoute.ShapeText | src/app/api/perio/voice/route.ts:161-170 | a text block becomes a clarification unless it is blank |
| VoiceRoute.ShapeToolUse | src/app/api/perio/voice/route.ts:154-166 | a tool call is listed; a record call adds its input as an action and a clarify call adds its message |
| VoiceRoute.ShapeOther | src/app/api/perio/voice/route.ts:154-170 | other blocks contribute nothing |
| VoiceRoute.HandleVoice | src/app/api/perio/voice/route.ts:131-180 | a missing body and a failed model call give 500, a request without input gives 400, otherwise the shaped reply |
| VoiceRoute.TextOnlyReplyLoggedAsNone | src/components/perio/voice-input.tsx:54-83 | a question asked back in text is logged as "Actions: (none)", since the client keeps no text reply |
| Resampler.OutputLen | public/pcm-processor.js:23-24 | the output length is the whole number of output samples the buffer covers at the rate ratio |
| Resampler.IndicesValid | public/pcm-processor.js:29-33 | both interpolation indices lie within the buffer and the fraction is in [0, 1) |
| Resampler.Clamp16 | public/pcm-processor.js:37 | samples are clamped to the 16-bit range and unchanged within it |
| Resampler.Resample | public/pcm-processor.js:28-38 | one 16-bit sample per output index |
| Resampler.ResampleLoop | public/pcm-processor.js:28-38 | the loop computes exactly those samples |
| Resampler.NoClipping | public/pcm-processor.js:35-37 | for input in [-1, 1] the clamp never acts |
| Resampler.ProcessAccounting | public/pcm-processor.js:9-46 | empty input keeps the buffer; otherwise samples are appended, and a block is posted exactly when a sample is due, after which the consumed prefix is dropped |
| Resampler.SplitChangesOutput | public/pcm-processor.js:23-42 | at ratio 1.5, the samples 0, 1, 0, 1 posted as one block give [0, 16384] and carry one sample; as two blocks they give [0] and then [32767, 16384] |
| Resampler.CarryOverBounded | public/pcm-processor.js:40-42 | fewer than ratio + 1 samples are carried over |
| Secretary.ExtractCodes | src/app/secretary/page.tsx:35-42 | the codes are the upper-cased matches, each once |
| Secretary.ExtractCodesFirstOrder | src/app/secretary/page.tsx:35-42 | codes keep the order of their first match |
| Secretary.LooksGarbled | src/app/secretary/page.tsx:44-49 | a text is garbled when trimmed it is under two characters, or under six with no vowel |
| Secretary.LongTextNotGarbled | src/app/secretary/page.tsx:44-49 | six or more characters are never garbled |
| Secretary.FlagsExact | src/app/secretary/page.tsx:145-155 | each flag is raised exactly on its condition: confidence below 0.78, codes found, garbled text |
| Secretary.FlagsOrdered | src/app/secretary/page.tsx:145-155 | flags come in a fixed order and never repeat |
| Secretary.Prompt | src/app/secretary/page.tsx:170-172 | the prompt repeats the codes when there are any, else the text |
| Secretary.NewSegment | src/app/secretary/page.tsx:139-166 | a segment holds the trimmed text, its codes and its flags |
| Secretary.AskClarifies | src/app/secretary/page.tsx:169-182 | a flagged segment adds one unresolved clarification for it, with the flags joined by " - " |
| Secretary.AskSpeaks | src/app/secretary/page.tsx:184-192 | a prompt is spoken exactly when auto-clarify is on and the cooldown has passed, and the time is then recorded |
| Secretary.OnFinalEffect | src/app/secretary/page.tsx:139-193 | a blank final result changes nothing; otherwise one segment is added and a clarification when it is flagged |
| Secretary.OnFinalCooldown | src/app/secretary/page.tsx:184-192 | at most one prompt per final result, spoken only after the cooldown |
| Secretary.InterimOnlyRecordsNothing | src/app/secretary/page.tsx:133-199 | an event of interim results only sets the trimmed interim text |
| Secretary.SegmentsFollowResults | src/app/secretary/page.tsx:133-199 | the segments gain exactly the trimmed non-blank final results, in order |
| Secretary.OnResultSpacedOut | src/app/secretary/page.tsx:184-192 | spoken prompts stay more than 12 seconds apart |
| Secretary.ResolveClarification | src/app/secretary/page.tsx:296-298 | resolving marks the clarifications with that id and changes nothing else |
| Secretary.ResolveIdempotent | src/app/secretary/page.tsx:296-298 | resolving twice is resolving once, and an unknown id changes nothing |
| Pipeline.ActionTypesClosed | src/lib/ai/pipeline/types.ts:20-27 | there are seven action types with distinct names |
| Pipeline.NoResponseEscalates | src/lib/ai/pipeline/step5-execute.ts:28-36 | without a proposed response the email is escalated with every action pending |
| Pipeline.ApprovalRequiredFirst | src/lib/ai/pipeline/step5-execute.ts:38-46 | cancelling, rescheduling or escalating always queues a draft |
| Pipeline.MissingInfoRequest | src/lib/ai/pipeline/step5-execute.ts:49-61 | when information is missing and the reply is confident, an info request is executed in autonomous mode and queued otherwise |
| Pipeline.BlockedEscalates | src/lib/ai/pipeline/step5-execute.ts:49-69 | otherwise a blocked email is escalated with the blocked actions as reason |
| Pipeline.BlockedReasonFallback | src/lib/ai/pipeline/step5-execute.ts:67 | the reason falls back to "Cannot proceed" exactly when the joined list is empty |
| Pipeline.ConfidenceDecides | src/lib/ai/pipeline/step5-execute.ts:72-107 | the lower confidence decides: below the draft threshold escalate, at or above the auto threshold with allowed actions in autonomous mode execute, else queue |
| Pipeline.DraftModeNeverAutoExecutes | src/lib/ai/pipeline/step5-execute.ts:22-108 | draft mode never executes anything |
| Pipeline.ExecutionConsistent | src/lib/ai/pipeline/step5-execute.ts:22-108 | only auto-execution executes actions, an escalation always has a reason, and nothing needing approval is executed |
| Pipeline.MergeConfigPerKey | src/lib/ai/pipeline/index.ts:37-45 | each configuration key takes the caller's value when given and the default otherwise, thresholds key by key |
| Pipeline.DefaultConfig | src/lib/ai/pipeline/index.ts:22-29 | the default is draft mode, thresholds 0.95 and 0.70, and answer, request-info and ignore allowed |
| Pipeline.IgnoreShortCircuit | src/lib/ai/pipeline/index.ts:64-76 | a lone ignore action is executed at once without a response |
| Pipeline.TwoIgnoresDecided | src/lib/ai/pipeline/index.ts:64-65 | the short cut needs exactly one action: two ignore actions still get a proposed response |
| Pipeline.PipelineEscalationCause | src/lib/ai/pipeline/index.ts:78-113 | outside the short cut a response is always proposed, so "No response could be generated" never arises from the pipeline itself; an email is escalated exactly when nothing needs approval and it is blocked without a confident information request, or the lower confidence is under the merged draft threshold, with the matching reason |
| Pipeline.DefaultModeExecutesOnlyIgnore | src/lib/ai/pipeline/index.ts:22-45 | with no mode supplied, the pipeline auto-executes exactly the lone-ignore emails, and then executes only the ignore |
| LegacyPipeline.Threshold | src/lib/ai/pipeline-legacy.ts:15-18 | the threshold is the configured one or 0.7 |
| LegacyPipeline.ShouldGenerateExactly | src/lib/ai/pipeline-legacy.ts:20-30 | replies are written for bookings, inquiries and follow-ups only |
| LegacyPipeline.DetermineActionExactly | src/lib/ai/pipeline-legacy.ts:32-63 | spam is ignored; a draft is kept exactly when a reply is due and both confidences reach the threshold; all else escalates |
| LegacyPipeline.SpamIgnored | src/lib/ai/pipeline-legacy.ts:83-91 | spam is ignored without a reply, with or without the early exit |
| LegacyPipeline.ReplyAndAction | src/lib/ai/pipeline-legacy.ts:93-112 | a reply exists exactly when one is due, and the action follows both confidences |
| LegacyPipeline.ProcessEmails | src/lib/ai/pipeline-legacy.ts:116-138 | the batches give one result per email, in input order |
| AiClient.SystemPrompt | src/lib/ai/client.ts:20 | the system prompt is the caller's, or nothing, followed by the JSON instruction |
| AiClient.ExtractJsonFails | src/lib/ai/client.ts:24-27 | extraction fails exactly when no '{' comes before a '}' |
| AiClient.ExtractJsonSpan | src/lib/ai/client.ts:24 | the extracted text runs from the first '{' to the last '}' of the response |
| AiClient.ExtractJsonWhole | src/lib/ai/client.ts:24 | a response that is one braced text is taken whole |
| AiConfig.GetModelInfo | src/lib/ai/config.ts:41-46 | the active provider and model are reported |
| AiConfig.ValidateExactly | src/lib/ai/config.ts:48-61 | validation fails exactly when the model is not one of its provider's, with a message naming the model and the valid list |
| AiConfig.ActiveConfigValid | src/lib/ai/config.ts:27-35 | the active configuration passes validation |
| AiConfig.ModelTablesDisjoint | src/lib/ai/config.ts:5-15 | no model belongs to both providers |
| Gmail.GetHeaderExactly | src/lib/gmail.ts:96-97 | a header value is found exactly when the first header with that name, in any case, has a non-empty value |
| Gmail.GetHeaderIgnoresCase | src/lib/gmail.ts:96-97 | header lookup ignores ASCII case |
| Gmail.EmptyFirstHeaderHides | src/lib/gmail.ts:96-97 | an empty first header hides a later one of the same name |
| Gmail.AddressListClean | src/lib/gmail.ts:131-135 | each parsed recipient is trimmed, non-empty and comma-free |
| Gmail.AddressListOfJoin | src/lib/gmail.ts:131-135 | clean addresses joined by commas are parsed back unchanged |
| Gmail.NoToHeaderNoRecipients | src/lib/gmail.ts:131-135 | without a To header there are no recipients |
| Gmail.IsRead | src/lib/gmail.ts:138-139 | a message is read exactly when it has no UNREAD label |
| Gmail.ApplyPartsLastWins | src/lib/gmail.ts:116-127 | each body is the last part of its type with data, or what came before |
| Gmail.ParseBodiesExactly | src/lib/gmail.ts:103-128 | the top-level body fills HTML or text by its type, and the parts override it |
| Gmail.HeaderLines | src/lib/gmail.ts:178-182 | a raw reply starts with To, Subject and the content type |
| Gmail.ThreadingHeaders | src/lib/gmail.ts:185-190 | In-Reply-To and References are added exactly when given |
| Gmail.RawMessageLayout | src/lib/gmail.ts:193 | the raw message is the headers, a blank line and the body, separated by CRLF |
| Gmail.EncodedRawRoundTrip | src/lib/gmail.ts:196-200 | the sent text is the unpadded URL-safe base 64 of the message, and decodes back to it |
| Base64.ToUrlSafeOfStd | src/lib/gmail.ts:196-200 | swapping '+' and '/' and stripping '=' turns standard base 64 into unpadded URL-safe base 64 |
| Base64.DecodeEncodeUrl | src/lib/gmail.ts:196-200 | URL-safe base 64 decodes back to the bytes encoded |
| Base64.UrlAlphabetOnly | src/lib/gmail.ts:196-200 | the URL-safe text holds no '+', '/' or '=' |
| EmailDisplay.ExtractNameOfNamed | src/app/emails/page.tsx:29-37 | `Name <address>` is shown as the name |
| EmailDisplay.ExtractNameOfQuoted | src/app/emails/email-item.tsx:38-45 | `"Name" <address>` is shown as the name without quotes |
| EmailDisplay.ExtractNameFallbacks | src/app/emails/page.tsx:29-37 | a missing sender is "Unknown"; one starting with '<' is shown whole |
| EmailDisplay.ExtractedNameIsClean | src/app/emails/page.tsx:32-34 | a name taken before '<' holds neither '<' nor '"' |
| EmailDisplay.TruncateExactly | src/app/emails/page.tsx:39-43 | text that fits is kept; longer text keeps its first characters and gains "..." |
| EmailDisplay.DayFormatExactly | src/app/emails/page.tsx:6-27 | within a day the time, the day after "Yesterday", up to a week the weekday, then month and day |
| ReviewItem.FormatTimeAgoExactly | src/components/dashboard/review-item.tsx:26-43 | whole days from a day on, hours from an hour, minutes from a minute, else "just now" |
| ReviewItem.SenderNameExactly | src/components/dashboard/review-item.tsx:45-52 | the sender name matches the inbox's except that a bare address is cut at '@' |
| ReviewItem.LowConfidenceExactly | src/components/dashboard/review-item.tsx:58-59 | a draft is marked low exactly when its confidence is below 0.795; a zero reply confidence falls back to the classifier's |
| ReviewItem.BodyPreviewExactly | src/components/dashboard/review-item.tsx:121-122 | the preview is the body up to 500 characters, "..." after a longer one, "(no body)" for none |
| ActivityFeed.MatchesFilterExactly | src/components/dashboard/activity-feed.tsx:104-119 | "all" keeps everything; the other filters keep their own types and do not overlap |
| ActivityFeed.ActivityTitleFallback | src/components/dashboard/activity-feed.tsx:50-69 | an untitled type is shown with its underscores turned to spaces |
| ActivityFeed.EmptySearchFiltersOnly | src/components/dashboard/activity-feed.tsx:125-143 | an empty search leaves only the type filter |
| ActivityFeed.SearchIgnoresCase | src/components/dashboard/activity-feed.tsx:131-139 | searches differing in ASCII case keep the same entries |
| ActivityFeed.SearchFindsType | src/components/dashboard/activity-feed.tsx:136-138 | an entry whose type contains the search is found |
| ActivityFeed.FilterActivities | src/components/dashboard/activity-feed.tsx:125-144 | every kept entry passes the filter and the search |
| ActivityFeed.FilterIsSubsequence | src/components/dashboard/activity-feed.tsx:125-144 | the kept entries are the passing ones, in their order |
| ActivityFeed.DayLabelNonEmpty | src/components/dashboard/activity-feed.tsx:71-84 | headings are never empty |
| ActivityFeed.FormatTimeAgreesWithReview | src/components/dashboard/activity-feed.tsx:86-102 | within a day the feed's time equals the review list's, and from a day on it is the time of day |
| ActivityFeed.GroupByDate | src/components/dashboard/activity-feed.tsx:147-161 | the groups hold the entries in order, each under its own heading, with no empty group and no two neighbours sharing a heading |

## Left out

- Network, database, OAuth, React rendering and state hooks: only the logic they drive is modelled.
- Language-model calls, `JSON.parse` and `JSON.stringify`, UTF-8 encoding and base 64 decoding of fetched bodies are parameters, so their own behaviour is not modelled.
- `Date.now`, `new Date()`, `toLocaleTimeString` and `toLocaleDateString` are not modelled. Times are whole milliseconds passed in, and locale text is a parameter or a label.
- Floating point: numbers are exact reals or integers, so IEEE rounding and NaN are not modelled.
- Case mapping: `toLowerCase` and `toUpperCase` are ASCII only, without Unicode case mapping.
- Regular expressions: the code patterns of the secretary page are not matched here; their matches are passed in.
- `getActivityIcon` returns emoji for display only and is not modelled.
- `createId` uses the clock and randomness; ids come from a parameter.
- Speech synthesis, recognition restarts, the media recorder and the worklet's message port are not modelled. The spoken prompts are recorded as a list.
- Secretary.OnResult: one clock reading `now` serves a whole recognition event, while the page reads the clock per final result.
- `threadId` of a sent reply only goes to the API request, not into the message, so it is not modelled.
- PerioReducer.Reduce: the actions' site must be "D" or "M". The code would build a new site entry for any other string; the model stops at that precondition instead, and VoiceMapper.SchemaSiteOffChart shows that the voice path can produce such a site.
- PerioReducer.ToggleMissingFrame: TOGGLE_MISSING only flips the flag; the tooth keeps its measurements and comment (PerioReducer.ToggleMissingKeepsData).
- PerioReducer.SetIgnoresMissing: set actions are stored on a missing tooth; only the table's disabled cells keep them out (JawTable.CellEditGated).
- EmptyExamination.CreateEmptySites: the per-tooth site table that `createEmptySites` reads is not part of this model, so every tooth gets the general sites D and M.
- VoiceMapper.ToActions: the tooth is an integer, so a fractional or non-numeric tooth is not modelled. In the code such a tooth fails the valid-teeth check, like any integer that is not a tooth, and yields no action.
- VoiceMapper.ToActions: `bleeding`, `plaque`, `furcation` and `comment` are a value or absent. The code tests them against `undefined`, so an explicit JSON null for one of them is emitted as a command with a null value and stored; that case is not modelled.
- VoiceMapper.ToActions: a furcation on a single-rooted tooth is emitted and stored (VoiceMapper.SingleRootedFurcationStored); only the table withholds the cell.
- VoiceMapper.ToActions: values the model returns are whole numbers; fractional measurements are not modelled.
- ActivityFeed.GroupByDate: it requires every heading to be non-empty. With an empty heading the code would index an empty group list; locale dates are never empty.
- Pipeline.MergeConfig: a key present with the value `undefined` is treated as absent. An explicit empty workspace id is kept, as the spread in the code does.
- LegacyPipeline.Threshold: an explicit `undefined` threshold is treated as absent.
- Pipeline: steps 1 to 4 call the model and are parameters; only their results are modelled.
- AiClient.CompleteJsonText: it stops at the extracted JSON text; parsing it into a value is not modelled.
- Resampler.Process: the `sampleRate` global is a positive real parameter.
- Resampler.Process: the fractional read position is not kept between blocks, so where the input is cut changes the output (Resampler.SplitChangesOutput).
- EmailDisplay.Truncate: strings are sequences of Unicode characters. The code counts UTF-16 code units, so a character outside the Basic Multilingual Plane counts two there and one here, and the code's cut can split a surrogate pair, which the model's cannot.
- ReviewItem.BodyPreview: the 500-character limit counts Unicode characters, not UTF-16 code units as the code does, for the same reason as EmailDisplay.Truncate.
- Secretary.LooksGarbled: the limits of two and six count Unicode characters, not UTF-16 code units as the code does.
- NumericCell.OnNumericInput: "-0" parses to the integer 0. In the code `parseInt` gives negative zero, which is stored as such when 0 is within range.
