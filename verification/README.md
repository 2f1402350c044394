# A verified model of the Media Bridge gateway

The gateway stands between a client and a language-model provider. A request is normalized, its media is blocked,
converted to text or, in one case, passed on; the rebuilt request is sealed with a signed receipt, checked again by an
independent guard, and sent; sanitized state is kept for follow-up requests. Around that path stand bounded stores,
protocols between threads and processes, and translations between wire formats. This project models that data plane and
proves what holds of it over whole runs.

| module | models |
|---|---|
| `Common`, `Text`, `Json`, `Contracts` | result types, the string operations relied on, JSON values and the media search over them, identifiers and request contracts |
| `Sanitizer`, `Rewriting` | the text sanitizer, its expressions included, and what its substitutions do to a text |
| `Normalizer`, `Gate`, `Preparation`, `GateOutcomes` | Responses normalization, conversion with its workspaces, the gate's decision, and what exactly it answers |
| `Receipts`, `Sealing`, `Guarding`, `ReadBack` | receipts and replay guard, sealing and the independent guard, what it lets through, what is accepted and rebuilt requests normalized again |
| `Transaction`, `FollowUps`, `Faults` | the transaction and its history, which requests are sent and remembered, uncaught errors |
| `StateStore`, `Idempotency`, `RateLimiter`, `LoginLimiter`, `Assets` | the bounded, time-based stores |
| `Snapshots`, `LocalState`, `ConfigManager` | publication and loading of snapshots, active and previous files, the owned configuration entry |
| `Downstream` | the deployed downstream, uncaught errors of whole transactions, nonces |
| `ChatStream`, `StreamReading`, `ChatTranslation`, `ChatRequests` | the event-stream reader and writer, what any stream is answered with, chat to Responses to chat |
| `ProviderSelection`, `ModelResolver`, `ProviderLookup` | provider choice, the two resolvers from model to provider, and who is found |

`dafny verify dfyconfig.toml` checks all of it.

## How it is built

Objects whose methods update their fields are classes (`GatewayTransaction`, `GatewayStateStore`, `IdempotencyStore`,
`ProviderResponsesDownstream`, `CredentialRouteRateLimiter`, `ReceiptReplayGuard`, `AssetStore`, `PersonalStateStore`,
`OpenCodexConfigManager`, `LoginRateLimiter` and the snapshot objects); loops are loops. Each method is proved to
compute a specification function or to keep a history, and the lemmas are about those. Protocols of several threads
are state machines whose steps are the critical sections; an invariant is proved for every interleaving. The
transaction is split where the original awaits, and `Valid()` holds after every part, so its results cover any number
of requests in progress.

What a run depends on from outside is a parameter: clock readings, random tokens, scheduling, what each acquisition,
rendering, OCR, vision, file or provider call does (success, refusal or exception), Unicode tables, the order in which
a set is walked. Assumed of these are only:

- clocks never go backwards where a lemma says so, and seconds are reals;
- SHA-256 is injective (a constructor, or an injective function); HMAC is any function; Ed25519 signatures cannot be
  forged, so only committed snapshots verify;
- JSON text reads back as the value written (`CodecRoundTrips`, `Lawful`), finite doubles included, within the host's
  limits on digits and nesting; written JSON holds no raw control character, and a JSON text cut inside a string does
  not decode;
- asset ids are fresh, and request nonces are where a lemma says so; both are made of URL-safe characters;
- the backup path of the owned configuration is apart from the configuration and the marker where a
  lemma says so (`BackupIsApart`).

## Where the code does not do what it is meant to do everywhere

In these places the property as one would first state it is false; the model follows the code, and the lemmas named
give the exact condition or a refuting run.

- The guard rejects some requests that the transaction seals: exactly those for a non-vision target whose top-level
  payload names media, or whose passed-through user message has a string starting as media data
  (`GuardAcceptsExactlyCleanRequests`; `MediaLikeTextIsRefused` is one).
- A receipt string is accepted at most once exactly when its lifetime is below 300 seconds. The signer allows 300; the
  transaction uses 30 (`AcceptedOnceExactlyWhenShort`). The guard compares strings, so what was signed is admitted once
  per spelling of its signature (`EverySpellingIsAcceptedOnce`), and there is more than one
  (`PaddedReceiptIsAuthentic`); with canonical spelling it is admitted once (`CanonicalReceiptsAdmitOnce`).
- Purging idle keys of the rate limiter is invisible, and windows are bounded, exactly when idle TTL times refill rate
  reaches the capacity, which the constructor does not demand (`PurgingIsInvisibleExactlyWhenIdleRefills`).
- A file of the asset store is without a record exactly between the two steps of its put, and after a write and its
  clean-up failed (`FilesHaveRecords`; `TornPutLeavesAFile`, `ClearDuringPutIsSurvived`).
- A streamed provider answer loses its whole text exactly when the text holds U+0085, U+2028 or U+2029: the writer
  leaves them unescaped and the reader breaks lines at them (`StreamAgreesWithResponse`).
- A chat stream lacks its stop chunk and end marker exactly when the source announces its end before a completion
  (`StreamReading.ReadsExactly`).
- A PDF that passes the gate alone is refused by the deployed downstream, whose prompt is made of texts only
  (`RebuiltHasPrompt`); a provider whose capabilities are given as the string "text" offers none (`OffersExactly`).
- Malformed requests can end in an uncaught error instead of a refusal. Before the provider is called: a text, file
  name, URL or encoded medium beyond the contract's length, a URL that cannot be split, a list or object where a type,
  detail or status is expected, or texts that are too long together (`PlanEscapesExactly`; `OverlongInputEscapes`,
  `TwoLongTextsEscape`). In the call of the provider: a list or object as reasoning effort, of the request or of the
  snapshot's defaults, or a snapshot whose providers or profile the lookup cannot read (`SealedRaisesExactly`,
  `LookupRaisesExactly`; `ListEffortEndsUncaught`). `EndsUncaughtExactly` puts the two together.
- Applying and removing the owned configuration loses a file that already lay at the backup path (`ApplyThenRemove`);
  applying again with other settings reports success without writing them (`ReapplyChangesNothing`); and a stop between
  two of its writes can leave a configuration that is neither removed nor applied any more (`StopBeforeMarkerOrphans`,
  `StopBeforeUnmarkingBlocks`).
- The strategy configured in a routing profile has no effect on the provider chosen (`StrategyIsIrrelevant`), and the
  health strategy none on any choice (`StrategiesChoose`).
- A skipped snapshot file can be newer than the gateway, since its fingerprint is remembered when reading, verifying or
  building it fails (`SkippingIsBehindExactlyAfterALostLoad`; `UnreadableFileStaysBehind`, `FailedBuildStaysBehind`).

## Model
| member | source | states |
|---|---|---|
| Transaction.GatewayTransaction.Begin | media_bridge_gateway/transaction.py:146-165 | up to the first await: the request is refused unless the scope is granted and its previous response resolves in the put history; the state resolved and the served request behind it are held from then on |
| Transaction.GatewayTransaction.SendOn | media_bridge_gateway/transaction.py:167-246 | from there to the provider: the plan for the state held, whatever other requests did meanwhile, decides; the history gains exactly the entry for what is sent, and what is to be remembered names its subject, the model it asked for, the snapshot version, the prepared texts and the media of the chain |
| Transaction.GatewayTransaction.Answer | media_bridge_gateway/transaction.py:239-298 | after the last await: a provider that fails, or whose call raises anything else, records nothing, a stream is left pending, any other answer is recorded, with the union over the chain of its own request; the reply is an uncaught error exactly when the call raised |
| Transaction.GatewayTransaction.Invoke | media_bridge_gateway/transaction.py:146-298 | the three parts with nothing in between: a request reaches the provider exactly when the scope is granted, its previous response resolves, the plan sends it and the provider's guard takes it; reply, recorded or pending state and history are those of that plan, and a completed answer that persists ends the history with the provider's response id, tenant, selector, model, version and the joined prepared texts; it ends in an uncaught error exactly when its plan does, or its plan sends it and the call of the provider raises |
| Transaction.GatewayTransaction.ResolvePrevious | media_bridge_gateway/transaction.py:153-165 | the state a request continues is the one the history of puts determines, and its modality set is the union over the chain it came from |
| Transaction.GatewayTransaction.RecordState | media_bridge_gateway/transaction.py:374-405 | a completed response is appended to the history exactly when its identifiers, version and text are storable, with the union of old and new modalities; otherwise nothing changes |
| Transaction.GatewayTransaction.CompleteStream | media_bridge_gateway/transaction.py:300-343 | a stream read to its end records exactly the state that was pending for it, field by field, whatever happened in between |
| Transaction.GatewayTransaction.DropStream | media_bridge_gateway/transaction.py:300-343 | a broken stream records nothing |
| Transaction.GatewayTransaction.ClearState | media_bridge_gateway/transaction.py:143-144 | clearing empties the store and its history and keeps pending streams |
| Transaction.GatewayTransaction.Extend | media_bridge_gateway/transaction.py:146-298 | adding a served request keeps the whole history disciplined |
| Transaction.GatewayTransaction.RecordsHoldTheirChain | media_bridge_gateway/transaction.py:374-405 | over every run, with any number of requests in progress, a stored record's modality set is the union of what was passed through along its chain of previous responses, and it is empty or exactly PDF |
| Transaction.GatewayTransaction.FollowUpsWereServed | media_bridge_gateway/transaction.py:345-372 | over every run, each follow-up on a tainted record was served only to a fresh vision target that supports the whole chain and is PDF-verified |
| Transaction.PlanIsDisciplined | media_bridge_gateway/transaction.py:167-246 | a planned request passes media only to a fresh PDF-verified vision target, continues a tainted chain only on a target that serves all of it, and has passed every check of the guard |
| Transaction.TaintIsNothingOrPdf | media_bridge_gateway/transaction.py:374-405 | in every disciplined history the union along any chain is empty or exactly PDF |
| Transaction.TaintedChainIsServed | media_bridge_gateway/transaction.py:345-372 | the last target of a tainted chain was fresh and supports the whole chain, PDF-verified when it holds PDF |
| Transaction.HistoryGrows | media_bridge_gateway/transaction.py:146-298 | one more disciplined request keeps every earlier chain and the discipline of the whole history |
| FollowUps.SendsExactly | media_bridge_gateway/transaction.py:146-240 | a request is sent if and only if it is accepted, its state may be continued, the gate prepares it, both receipts live and the guard finds no media in it; otherwise the first of these that fails is the reason it is refused for |
| FollowUps.ReceiptsVouchFor | media_bridge_gateway/transaction.py:196-222 | both receipts of a request vouch for its target, capability and action; the gate's for its own request and content, the sealed one for the payload as received and the payload sent, with its nonce |
| FollowUps.ContinuesExactly | media_bridge_gateway/transaction.py:345-372 | a state may be continued if and only if it is untainted or the target is fresh, sees all of its media and is verified for PDF where it holds some; every refusal has its own cause |
| FollowUps.SentReadsBack | media_bridge_gateway/transaction.py:101-120 | the input of every request that is sent, copied or rebuilt, reads back as the content that was prepared for it |
| FollowUps.RememberedIsSent | media_bridge_gateway/transaction.py:382-384 | the text remembered of a request is the stripped line-feed join of the texts its provider was sent; for a conversion it is the converted text |
| FollowUps.FollowUpSendsTheRemembered | media_bridge/openai_responses.py:265-270 | a follow-up without media sends the remembered text in front of its own message, and one whose media pass keeps every text behind it |
| Sealing.RebuildInput | media_bridge_gateway/transaction.py:89-98 | the loop computes the rebuilt user message item by item, or nothing when a media part is not normalized |
| Sealing.MessageContains | media_bridge_gateway/downstream.py:62-78 | the guard finds media in a user message exactly when it finds media in one of its items |
| Sealing.RebuiltContains | media_bridge_gateway/transaction.py:73-98 | the rebuilt message contains a media reference exactly when a part is media or a text starts as media data |
| Sealing.PayloadContains | media_bridge_gateway/transaction.py:101-120 | the guard finds media in a downstream payload exactly when the raw payload names media itself or the input holds some |
| Sealing.DownstreamFields | media_bridge_gateway/transaction.py:101-120 | the downstream payload replaces model and input, drops the two conversation fields and copies everything else |
| Sealing.GuardAcceptsExactlyCleanRequests | media_bridge_gateway/downstream.py:389-420 | while the receipt lives, the independent guard accepts a sealed request exactly when its target is a vision target or the request is clean: no media name at top level and, for passthrough, no forwarded string starting as media data; the only possible rejection is the media check |
| Sealing.SealsWhileGateReceiptLives | media_bridge_gateway/transaction.py:191-236 | sealing a prepared request succeeds exactly while the gate's own receipt is valid |
| Sealing.PreparedIsForwardable | media_bridge_gateway/transaction.py:89-98 | everything the gate prepares can be rebuilt as a Responses message |
| ReadBack.DataUriReadsBack | media_bridge/openai_responses.py:69-82 | the data URI written for an admitted type and non-empty valid base64 is read back as that type and data |
| ReadBack.PartReadsBack | media_bridge_gateway/transaction.py:73-86 | a forwardable part, rebuilt as a content item, normalizes to the same part, up to file names and a missing image type |
| ReadBack.ItemsReadBack | media_bridge_gateway/transaction.py:89-98 | the same for all items of a message, in order |
| ReadBack.MessageIsCurrent | media_bridge/openai_responses.py:196-224 | a rebuilt message alone is selected as the current user message |
| ReadBack.RebuiltReadsBack | media_bridge_gateway/transaction.py:89-98 | the rebuilt input is one current user message, and normalizing it again gives the content it was rebuilt from |
| ReadBack.NormalizedTextsFit | media_bridge/openai_responses.py:227-284 | every text of an accepted request is within the contract |
| ReadBack.PreparedReadsBack | media_bridge_gateway/transaction.py:89-120 | whatever the gate prepares for an accepted request, rebuilt for the provider, normalizes to the same content |
| Faults.FaultyItemEscapes | media_bridge/openai_responses.py:92-193 | a content item leaves the normalizer as an uncaught error exactly when its text, name, URL or decodable data is too long, its URL cannot be split, or its detail is a list or object |
| Faults.EscapesExactlyWhenFaulty | media_bridge/openai_responses.py:196-284 | a request does so exactly when its first flaw is such an item, an input text too long, or a type or status that is a list or object |
| GateOutcomes.CrashesExactlyWhenFaulty | media_bridge/gate.py:133-208 | the gate raises exactly for a joined text above the limit, and for acquired media beyond the contract that pass it; a conversion never does |
| Faults.PlanEscapesExactly | media_bridge_gateway/transaction.py:167-236 | before the provider is called a transaction ends in an uncaught error exactly in these cases |
| Faults.OverlongInputEscapes | media_bridge/openai_responses.py:164-193 | an input text above 200 000 characters is such a request |
| Faults.TwoLongTextsEscape | media_bridge_gateway/transaction.py:167-190 | so are two text parts of 150 000 characters each |
| Faults.MediaLikeTextIsRefused | media_bridge_gateway/downstream.py:389-420 | a text that starts like media data, for a model without vision, is normalized, prepared and sealed, and then refused by the guard |
| Downstream.ProviderResponsesDownstream.Invoke | media_bridge_gateway/downstream.py:566-663 | a request whose seal holds uses up its receipt, whatever comes of it, and no other does; options, provider, effort, backend and prompt are then read in order, and the first that is refused or raises decides |
| Downstream.OptionsExactly | media_bridge/openai_chat.py:79-102 | the options of a request are accepted if and only if it has no other fields and each is of its kind, and are then handed on unchanged |
| Downstream.ReachesExactly | media_bridge_gateway/downstream.py:566-600 | a request reaches a backend if and only if its options are accepted, its model has a provider and its effort is one of three or none; the backend is built from that provider, with that effort |
| Downstream.AnswersExactly | media_bridge_gateway/downstream.py:566-663 | it is answered, streamed or not, if and only if moreover the backend takes its options, it has a prompt and the analysis says something |
| Downstream.RebuiltHasPrompt | media_bridge_gateway/downstream.py:423-440 | a rebuilt input has a prompt if and only if one of its texts is not blank, so media alone are refused here |
| Downstream.PromptAtAnyDepth | media_bridge_gateway/downstream.py:423-440 | a request has a prompt if and only if its input is a text that is not blank, or a text item that is not blank stands somewhere in it, at any depth |
| Downstream.PlanKeepsFields | media_bridge_gateway/transaction.py:101-120 | a sent request names the model the caller named, and keeps all of its fields but the conversation ones, all unchanged but the input |
| Downstream.SealedRaisesExactly | media_bridge_gateway/downstream.py:566-600 | for every request that is sent: between the replay guard and the backend it raises if and only if, as it was received, its options are accepted and the lookup of its model raises, or finds a provider while its effort, or the default in its place, is a list or object |
| Downstream.EndsUncaughtExactly | media_bridge_gateway/transaction.py:146-257 | a whole transaction on this downstream ends in an uncaught error if and only if it does so before the provider is called, or it is sent with a fresh receipt and is such a request or meets a backend that raises |
| Downstream.ListEffortIsSent | media_bridge_gateway/transaction.py:167-238 | a short text with a reasoning effort given as a list is normalized, prepared, sealed and approved by the guard |
| Downstream.ListEffortEndsUncaught | media_bridge_gateway/downstream.py:582-590 | and then ends uncaught, wherever its model has a provider |
| Downstream.OneProviderServes | media_bridge_gateway/downstream.py:666-780 | a snapshot with one model and one provider is such a place |
| Downstream.SentReceiptsDiffer | media_bridge_gateway/transaction.py:198-222 | requests sent with different nonces carry different receipts |
| Downstream.FreshNoncesAreNeverReplays | media_bridge_gateway/downstream.py:143-170 | over every run of requests with different nonces the replay guard takes no sent request for a replay; it refuses one exactly when its table is full |
| Downstream.ReplayedExactly | media_bridge_gateway/downstream.py:159-170 | right after one sent request another is refused as a replay if and only if both sealed the same binding within the same second |
| Normalizer.ReadCurrentContent | media_bridge/openai_responses.py:164-193 | the loop over content parts returns the normalized parts or the first error |
| Normalizer.LastUser | media_bridge/openai_responses.py:196-224 | the current message is the last item with role user |
| Normalizer.MessageMedia | media_bridge/openai_responses.py:196-224 | an accepted current message holds a media reference exactly when its content or one of its own strings does |
| Normalizer.NormalizedSteps | media_bridge/openai_responses.py:227-284 | an accepted request carries the previous text followed by the current message's parts, and no other field of its payload holds media |
| Normalizer.NormalizedContent | media_bridge/openai_responses.py:227-284 | the media flag of an accepted request says exactly whether its content holds media |
| ReadBack.AcceptsExactly | media_bridge/openai_responses.py:69-161 | a content item is accepted if and only if its fields describe a part, and then as that part: kind, source, name and type are those of its fields |
| ReadBack.SelectsExactly | media_bridge/openai_responses.py:196-224 | the current content is the input string, or the content of the last message of the user when that message is plain and no other item holds media |
| ReadBack.NormalizesExactly | media_bridge/openai_responses.py:227-284 | a request is accepted if and only if it names the state it continues, holds no media outside the current message and its items are accepted; it then stands for the remembered text followed by exactly their parts, for the model it names, as a document exactly when there is a PDF |
| ReadBack.RejectedForItsReason | media_bridge/openai_responses.py:227-252 | each reason that concerns the whole request is given if and only if it is the case |
| Gate.ExtractContext | media_bridge/gate.py:239-378 | the loop over media computes the specified context or failure and logs exactly the specified workspace events |
| Gate.ConvertItem | media_bridge/gate.py:256-344 | one media item: acquired, read in a workspace, and cleaned up whatever happened; a clean-up that is not verified, or raises anything else, replaces any result |
| Gate.ReadMediaItem | media_bridge/gate.py:280-336 | the loop over the pages of one item stops at the first failed page |
| Gate.WorkspaceDiscipline | media_bridge/gate.py:239-378 | whatever fails, every created workspace is cleaned up exactly once, at most one is open at any time, and none is left |
| Gate.PagesInOrder | media_bridge/gate.py:288-326 | the blocks and descriptions of one item come page by page, what is read before what is seen |
| Gate.TextsInOrder | media_bridge/gate.py:256-350 | OCR texts, descriptions and blocks of all items are listed in media and page order |
| Gate.ExtractionSucceeds | media_bridge/gate.py:239-378 | a conversion returns normally only when every step of every item succeeded, every clean-up included; modalities, OCR texts, descriptions and the blocks for the model, behind the text of the request, are then in media and page order |
| Gate.StructuredIsSafe | media_bridge/gate.py:346-378 | the text for the model holds no forbidden locator, does not start as media data and stays within the limit |
| Preparation.NormalizeVisionContent | media_bridge/gate.py:210-237 | the loop replaces each media part by its acquired base64 form, or reports the failed acquisition |
| Preparation.VisionKeepsShape | media_bridge/gate.py:210-237 | normalization for a vision target keeps text parts, positions and kinds |
| Preparation.MediaPassesOnlyAsVerifiedPdf | media_bridge/gate.py:133-208 | media leave the gate only for PDF-only requests to a fresh vision target verified for PDF; every other prepared payload is text |
| Preparation.ConvertedIsSafeText | media_bridge/gate.py:149-208 | a converted payload is one safe text for the non-vision boundary |
| Preparation.FailuresLeaveNothingPrepared | media_bridge/gate.py:149-208 | a payload is prepared only when every acquisition, and for conversions every step, succeeded |
| GateOutcomes.PreparesExactly | media_bridge/gate.py:133-208 | the gate blocks a request for a reason if and only if that reason is the case, in the order of the code; it converts exactly the requests with media whose fresh target sees nothing, or all of them without the PDF passthrough, when every step succeeds and the sanitizer accepts the texts; it passes exactly media-free ones and verified PDF, with the content given; over registry, request and scripts alone |
| GateOutcomes.EveryPageContributes | media_bridge/gate.py:280-336 | page after page of every medium, the text that was read is listed and stands behind its label, the placeholder only where nothing was read; the text that was seen, stripped, is listed and stands behind its label if it is not blank |
| GateOutcomes.PageHasItsPlace | media_bridge/gate.py:256-288 | the place of a page is behind all pages of the media before and the pages before it |
| GateOutcomes.DecimalReadsBack | media_bridge/gate.py:308-313 | the number in a label reads back as the number of the medium or page, without leading zeros |
| GateOutcomes.ForbiddenAreAcquired | media_bridge/gate.py:269-271 | the forbidden locators are exactly those acquired with some medium and the non-empty file names |
| GateOutcomes.FirstFailsExactly | media_bridge/gate.py:256-336 | a conversion fails for a reason if and only if that is the cause at the first medium, and its first page, that does not succeed |
| GateOutcomes.VisionExactly | media_bridge/gate.py:210-237 | passed media are replaced, each by what was acquired for it, if and only if all are acquired within the contract; otherwise the first that is not decides |
| GateOutcomes.TextHasItsPlace | media_bridge/gate.py:478-480 | every text part of a request is joined, in its place |
| Gate.WorkspacesAreLogged | media_bridge/gate.py:256-344 | a workspace is opened for exactly the media that are reached and acquired, and closed as its clean-up went |
| Rewriting.ReplaceAllReplaces | media_bridge/sanitizer.py:50-51 | replacing a locator replaces every occurrence met from left to right, and leaves everything else in place |
| Rewriting.SubDataUrlsReplaces | media_bridge/sanitizer.py:53 | the same for the data URLs: one marker for each match, everything between them kept |
| Rewriting.SubBlobsReplaces | media_bridge/sanitizer.py:54 | the same for the base64 runs |
| Rewriting.DropControlsKeepsTheRest | media_bridge/sanitizer.py:43 | exactly the characters that are no control characters are kept, in order |
| Rewriting.RewriteReplaces | media_bridge/sanitizer.py:42-55 | the sanitized text is the normalized one after exactly these steps in this order, without the blanks at its ends |
| Rewriting.DataUrlIsLongest | media_bridge/sanitizer.py:15-18 | the data-URL expression matches the longest data URL at a position, or nothing if there is none |
| Rewriting.BlobMatchIsLongest | media_bridge/sanitizer.py:19-22 | the base64 expression matches the longest run of at least 128 symbols with up to two equals signs that is not followed by another symbol |
| Rewriting.ReferenceIsSpelled | media_bridge/sanitizer.py:23-26 | the re-check for references matches exactly the spellings of a media reference, blanks around colon and slash included |
| Rewriting.SanitizesExactly | media_bridge/sanitizer.py:57-70 | a rewritten text is accepted if and only if it fits, holds no locator and no media reference and says something besides its markers; every refusal has its own cause |
| Sanitizer.SanitizeModelText | media_bridge/sanitizer.py:31-70 | the loop over locators and the substitutions compute the specified text or error |
| Sanitizer.SubDataUrlsIsComplete | media_bridge/sanitizer.py:53 | after the data-URL substitution the expression matches nowhere |
| Sanitizer.SubBlobsIsComplete | media_bridge/sanitizer.py:54 | after the base64-run substitution the expression matches nowhere |
| Sanitizer.SubBlobsMakesNoDataUrl | media_bridge/sanitizer.py:53-54 | replacing base64 runs creates no new data URL |
| Sanitizer.OnePassIsComplete | media_bridge/sanitizer.py:42-70 | after one pass neither expression matches, so the re-check for remaining binary data never rejects |
| Sanitizer.SanitizeIsIdempotent | media_bridge/sanitizer.py:42-70 | sanitizing an accepted ASCII text again with the same locators returns it unchanged |
| Sanitizer.SafeTextIsKept | media_bridge/sanitizer.py:42-55 | a text that is already safe passes through every rewriting step unchanged |
| Sanitizer.SanitizedIsNoMediaData | media_bridge/sanitizer.py:61-64 | an accepted text never starts as inline media data, which is what the guard looks for |
| Sanitizer.SanitizedIsSafe | media_bridge/sanitizer.py:31-70 | an accepted text is trimmed, within the limit and free of control characters, locators and leading media data |
| StateStore.GatewayStateStore.constructor | media_bridge_gateway/state.py:44-58 | a store with a legal TTL and bound starts empty |
| StateStore.GatewayStateStore.PurgeExpired | media_bridge_gateway/state.py:122-126 | purging keeps exactly the live records in order and does not change what the history answers |
| StateStore.GatewayStateStore.Trim | media_bridge_gateway/state.py:98-99 | trimming keeps the newest records up to the bound |
| StateStore.GatewayStateStore.Put | media_bridge_gateway/state.py:60-100 | a put with valid arguments appends its record to the history; invalid arguments change nothing |
| StateStore.GatewayStateStore.Resolve | media_bridge_gateway/state.py:102-117 | the record returned is exactly the latest put for tenant and response id, when the selector matches, the TTL has not passed and fewer than the bound of distinct other keys were put since |
| StateStore.GatewayStateStore.Clear | media_bridge_gateway/state.py:119-120 | clearing empties records and history |
| StateStore.LookupMatchesHistory | media_bridge_gateway/state.py:102-117 | a purged store answers exactly as the history of puts |
| StateStore.PurgeRefines | media_bridge_gateway/state.py:122-126 | purging keeps the refinement: expired records are a prefix of the insertion order |
| StateStore.InsertRefines | media_bridge_gateway/state.py:95-99 | replacing, appending and trimming keep the refinement |
| Receipts.DecodeEncode | media_bridge/receipts.py:28-35 | decoding encoded bytes returns them, at every length (base64url without padding, section 5 of RFC 4648) |
| Receipts.SignedIsAuthentic | media_bridge/receipts.py:46-63 | a signed receipt splits, decodes and authenticates to its own claims |
| Receipts.SignThenVerify | media_bridge/receipts.py:46-104 | a signed receipt verifies exactly for its own binding and within its lifetime in whole seconds |
| Guarding.DecodesExactly | media_bridge/receipts.py:32-35 | a string decodes if and only if it is symbols of either alphabet with at most two equals signs after padding, four symbols giving three bytes |
| Guarding.AuthenticExactly | media_bridge/receipts.py:65-101 | a receipt is authentic for some claims if and only if its signature decodes to the code of its payload under the secret and the payload to the claims |
| Guarding.GuardAcceptsExactly | media_bridge_gateway/downstream.py:389-420 | the guard accepts any request, sealed or not, if and only if nonce and digest fit, a living authentic receipt covers its binding, and target, capability, action and conversation are consistent, without media for a non-vision target |
| Guarding.SealedCannotBeAltered | media_bridge_gateway/downstream.py:389-420 | whatever the guard accepts under the receipt of a sealed request is that request: binding, payload and nonce |
| Guarding.MediaAtAnyDepth | media_bridge_gateway/downstream.py:62-78 | the search for media finds a value if and only if something at some depth of it is media |
| Receipts.SameReceiptExactly | media_bridge/receipts.py:46-63 | two signatures give the same receipt if and only if they sign the same binding within the same second |
| Receipts.ReceiptReplayGuard.ConsumeReceipt | media_bridge_gateway/downstream.py:159-170 | consuming drops what is past its retention, refuses a replay or a full table, and otherwise remembers the digest for 300 seconds |
| Receipts.ShortReceiptsAreAcceptedOnce | media_bridge_gateway/downstream.py:143-170 | over every run with an ordered clock, a receipt living less than 300 seconds is accepted at most once |
| Receipts.LongReceiptsAreReplayed | media_bridge_gateway/downstream.py:143-170 | a receipt living 300 seconds or more is accepted twice by a given run |
| Receipts.AcceptedOnceExactlyWhenShort | media_bridge_gateway/downstream.py:143-170 | a receipt string is accepted at most once on every run if and only if its lifetime is below 300 seconds |
| Receipts.EverySpellingIsAcceptedOnce | media_bridge_gateway/downstream.py:159-170 | two receipts for one signed payload are both accepted by some run if and only if they are spelled differently |
| Receipts.CanonicalSpellingIsUnique | media_bridge/receipts.py:28-35 | a signed payload has one receipt whose signature is spelled as the signer spells it |
| Receipts.CanonicalReceiptsAdmitOnce | media_bridge_gateway/downstream.py:143-170 | what was signed for less than 300 seconds is admitted at most once where all receipts for it are canonical |
| Receipts.PaddedReceiptIsAuthentic | media_bridge/receipts.py:28-104 | every signed receipt has a second spelling, with padding, that authenticates alike |
| Idempotency.IdempotencyStore.PurgeLocked | media_bridge/idempotency.py:67-71 | the purge keeps exactly the live entries in order |
| Idempotency.IdempotencyStore.TrimLocked | media_bridge/idempotency.py:73-76 | the trim deletes the earliest expiry, first among equals, until the table fits |
| Idempotency.IdempotencyStore.Enter | media_bridge/idempotency.py:43-48 | the first critical section purges and finds a conflict exactly when the key is live under another fingerprint |
| Idempotency.IdempotencyStore.Recheck | media_bridge/idempotency.py:49-56 | the second critical section purges and looks the key up again |
| Idempotency.IdempotencyStore.Finish | media_bridge/idempotency.py:58-65 | the last critical section stores the result and trims |
| Idempotency.EveryRunKeepsTheInvariant | media_bridge/idempotency.py:40-65 | every interleaving keeps key locks exclusive, running operations uncached, values genuine and the table bounded |
| Idempotency.OperationsForAKeyNeverOverlap | media_bridge/idempotency.py:40-65 | two operations for one key are never in progress together |
| Idempotency.OperationsStartUncached | media_bridge/idempotency.py:49-57 | an operation starts only when no live entry exists for its key |
| Idempotency.ReturnedValuesAreProduced | media_bridge/idempotency.py:40-65 | every returned value was produced by an operation under the same key and fingerprint |
| Idempotency.StoredResultSurvives | media_bridge/idempotency.py:58-76 | the entry just stored survives its own trim, and the table never exceeds its bound after a store |
| Idempotency.FoundDecides | media_bridge/idempotency.py:40-57 | at every critical section of every run: a thread is bound for a conflict if and only if an unexpired entry of its key has another fingerprint; one that looks again leaves with a value and no operation if and only if such an entry has its own; it starts its operation if and only if there is none |
| Idempotency.RetryGetsTheStoredResult | media_bridge/idempotency.py:40-66 | a retry under the key and fingerprint of a stored result gets it without an operation until it expires or as many results as the table holds are stored behind it |
| Idempotency.TableHoldsTheEnd | media_bridge/idempotency.py:58-76 | over every run the table is the end of everything that was stored; what it lost has expired or is beyond its bound |
| RateLimiter.LimitedOnlyForAWindow | media_bridge_gateway/rate_limit.py:58-95 | whatever the configuration, a request is limited only when some window would exceed its budget |
| RateLimiter.GrantedExactlyWhenItFits | media_bridge_gateway/rate_limit.py:58-101 | where idle keys have time to refill, a well-formed request is granted if and only if every window stays within its budget, unless the table is full of other active keys |
| RateLimiter.CredentialRouteRateLimiter.AllowRequest | media_bridge_gateway/rate_limit.py:58-95 | the method computes the specified table and verdict |
| RateLimiter.CredentialRouteRateLimiter.PurgeIdle | media_bridge_gateway/rate_limit.py:97-101 | the purge drops exactly the keys not seen within the idle TTL |
| RateLimiter.EveryRunForgets | media_bridge_gateway/rate_limit.py:58-101 | when idle keys have time to refill, the purging table differs from one that is never purged only in full buckets, and all verdicts agree |
| RateLimiter.KeyCountIsBounded | media_bridge_gateway/rate_limit.py:54-101 | the number of keys never exceeds its maximum |
| RateLimiter.WindowsAreBounded | media_bridge_gateway/rate_limit.py:58-101 | the cost granted to a key in any window is at most the capacity plus what the window refills |
| RateLimiter.PurgingIsInvisibleExactlyWhenIdleRefills | media_bridge_gateway/rate_limit.py:58-101 | the limiter agrees with one that is never purged on all runs, and bounds all windows, if and only if idle TTL times refill is at least the capacity |
| Snapshots.SnapshotPublisher.Publish | media_bridge_control/snapshots.py:101-148 | a publication whose signing key agrees and whose body passes the check appends it under the next version whatever the write does, and an error may come before or after the file is replaced; any other changes nothing; every committed body has passed the check |
| Snapshots.SnapshotPublisher.Rollback | media_bridge_control/snapshots.py:150-156 | a rollback publishes the old body again under the next version, and its check cannot fail again; an unknown version or a key that differs changes nothing |
| Snapshots.VerifiedSnapshotRuntime.Load | media_bridge_gateway/runtime.py:200-216 | a load installs its candidate exactly when the file is read and verified, the candidate is not stale and the build succeeds |
| Snapshots.SnapshotFileReloader.RefreshIfChanged | media_bridge_gateway/runtime.py:238-252 | only a new fingerprint leads to a load, and it is remembered even when the load fails |
| Snapshots.NextVersion | media_bridge_control/snapshots.py:120-128 | the next version is one above the greatest committed one |
| Snapshots.EveryRunKeepsTheInvariants | media_bridge_gateway/runtime.py:200-252 | every interleaving of publishers, loaders and the reloader, with reads, verifications, builds and writes that fail, keeps versions consecutive, everything written, read or installed committed, the current generation newest, writes unique, and a seen file loaded or lost |
| Snapshots.CurrentIsTheMaximum | media_bridge_gateway/runtime.py:200-216 | installed versions strictly increase; once no loader is at work, the current generation is the newest of all candidates that were verified and built anywhere in the run |
| Snapshots.CurrentWasBuilt | media_bridge_gateway/runtime.py:200-216 | whatever is current was built by a move of the run |
| Snapshots.CandidatesAreNotDropped | media_bridge_gateway/runtime.py:200-216 | over every run, a candidate that was read is still being loaded, or the gateway is at its version or a newer one, or its own build failed |
| Snapshots.FailedLoadsChangeNothing | media_bridge_gateway/runtime.py:200-216 | between any two states of a run the current generation is untouched, whatever loads failed, unless a loader swapped in a greater version that was built |
| Snapshots.GatewayServesCommittedBodies | media_bridge_control/snapshots.py:101-148 | committed versions are exactly 1 to n, the gateway's body is the committed body of its version, and its version never decreases |
| Snapshots.RollbackCommitsTheOldBody | media_bridge_control/snapshots.py:150-156 | a rollback commits the old body under the next version even when others publish meanwhile, and no earlier gateway finds it stale |
| Snapshots.SkippingNeverLeavesTheGatewayBehind | media_bridge_gateway/runtime.py:238-252 | a skipped file is one the gateway is not behind, unless the reloader lost its load: reading, verifying or building it failed |
| Snapshots.SkippingIsBehindExactlyAfterALostLoad | media_bridge_gateway/runtime.py:238-252 | with no other loader, the gateway is behind a skipped file if and only if the reloader lost its load |
| Snapshots.UnreadableFileStaysBehind | media_bridge_gateway/runtime.py:200-206 | a run in which the only file is never read, then skipped, with no generation installed |
| Snapshots.FailedBuildStaysBehind | media_bridge_gateway/runtime.py:210-216 | the same with a build that fails |
| StreamReading.LinesExactly | media_bridge/openai_chat.py:327-329 | the lines of an event are what lies between its line boundaries, a carriage return with its line feed being one |
| StreamReading.DataExactly | media_bridge/openai_chat.py:327-329 | its data are exactly its data lines, in order, without the blanks around what they carry |
| StreamReading.ReadsExactly | media_bridge/openai_chat.py:303-372 | whatever the source sends, in whatever pieces: the text is cut at its blank lines from left to right, and the answer is the role once, the deltas up to the first completion or announced end, and one stop and end marker, which are missing exactly when the source announces its end first |
| StreamReading.AnswerTextExactly | media_bridge/openai_chat.py:256-274 | the text of any answer is its own text field or else the texts of all its text parts, one behind the other, whatever items they are in |
| StreamReading.WrittenEventsAgree | media_bridge_gateway/downstream.py:443-522 | the nine events of a provider answer are named and numbered by their places, speak of one response and one item, and every text announced as done, and the text of the completed response, is the text of the answer |
| ChatStream.ChatStreamFromResponses | media_bridge/openai_chat.py:303-364 | the buffered loop yields exactly what reading the pieces one after another yields |
| ChatStream.PiecesAreOnePiece | media_bridge/openai_chat.py:324-364 | a settled reader treats any cut of a text as the uncut text |
| ChatStream.ChunkingIsIrrelevant | media_bridge/openai_chat.py:303-364 | the output depends only on the concatenated text |
| ChatStream.WrittenEventIsUnderstood | media_bridge_gateway/downstream.py:475-477 | the data of a written event decodes to its value, or not at all when its JSON holds a line boundary the writer leaves unescaped |
| ChatStream.FeedWrittenEvent | media_bridge_gateway/downstream.py:475-477 | a written event is exactly one event for the reader (a subset of section 9.2 of the WHATWG HTML standard) |
| ChatStream.DeltaEvent | media_bridge_gateway/downstream.py:498-507 | the delta event is lost exactly when the text holds U+0085, U+2028 or U+2029 |
| ChatStream.DoneEventIsWide | media_bridge_gateway/downstream.py:522 | the completion event is then lost too |
| ChatStream.ProviderEffects | media_bridge_gateway/downstream.py:443-522 | the nine provider events read back to one role chunk, the text, one stop and one end marker, or to an empty answer when the text is lost |
| ChatStream.CollectOutputText | media_bridge/openai_chat.py:256-274 | the nested loops gather the output text of a response |
| ChatStream.CollectParts | media_bridge/openai_chat.py:266-274 | the inner loop gathers the text parts of one item |
| ChatStream.BodyText | media_bridge_gateway/downstream.py:634-648 | the body built from a provider answer has that answer as its text |
| ChatStream.StreamAgreesWithResponse | media_bridge/openai_chat.py:303-364 | for any cut of the provider stream the content equals the text of the answer without streaming if and only if that text holds no U+0085, U+2028 or U+2029; either way there is one role chunk, one stop and one end marker |
| ChatTranslation.TranslateMessages | media_bridge/openai_chat.py:186-216 | the loop over messages gathers instructions and input items, or fails as a whole |
| ChatTranslation.BuildChatMessages | media_bridge_personal/solar_responses.py:93-117 | the loop over input items appends one chat message each, after the instructions |
| ChatTranslation.ContentReadsBack | media_bridge_personal/solar_responses.py:72-90 | the content of a translated message reads back as its stripped parts joined by line feeds, or is refused when a part is blank or not text |
| ChatTranslation.SpokenReadsBack | media_bridge_personal/solar_responses.py:104-114 | a user or assistant message keeps role and meaning through both translations, or is refused |
| ChatTranslation.OthersReadBack | media_bridge/openai_chat.py:188-209 | system and developer messages only add instructions; a tool result is refused downstream |
| ChatTranslation.MessagesReadBack | media_bridge/openai_chat.py:186-216 | the same for whole conversations, in order |
| ChatTranslation.TranslatedFields | media_bridge/openai_chat.py:217-253 | the translated request carries the input items and the joined instructions, unaffected by token limits and response format |
| ChatTranslation.TranslationKeepsMeaning | media_bridge_personal/solar_responses.py:93-117 | a chat request that translates is sent to the provider exactly when nothing in it is a tool result, a tool call, an image or a blank part and something is left to say; then order, roles and texts are kept behind one system message with all system and developer texts in order |
| ChatRequests.MessagesExactly | media_bridge/openai_chat.py:186-216 | a conversation is translated if and only if every message is of a known form, and then to exactly the instructions and items its messages give, tool calls, tool results and images included |
| ChatRequests.TranslatesExactly | media_bridge/openai_chat.py:178-253 | a chat request is translated if and only if model, messages, token limits and response format are as they have to be, and then field by field to exactly this request |
| ChatRequests.SpeaksExactly | media_bridge_personal/solar_responses.py:72-117 | a Responses request becomes these chat messages if and only if they are its instructions, if not blank, and then the messages of its input, in order, roles renamed and texts stripped and joined; any other request is refused |
| Assets.PurgesExactly | media_bridge/assets.py:147-164 | a purge succeeds if and only if every expired file goes, and then exactly the expired records and files are gone |
| Assets.AnswersExactly | media_bridge/assets.py:67-145 | puts, consumptions and deletions answer exactly what the store and their environment make of them, each error for its own cause |
| Assets.ClearsExactly | media_bridge/assets.py:166-177 | a clear succeeds if and only if every recorded file can be unlinked |
| Assets.LiveAssetIsReturned | media_bridge/assets.py:67-127 | over every run a live asset is handed out, unchanged, whenever it can be read and unlinked |
| Assets.AssetStore.Purge | media_bridge/assets.py:147-164 | the purge unlinks the expired files one by one and stops at the first that stays |
| Assets.AssetStore.Put | media_bridge/assets.py:67-101 | a put with nothing in between is its two steps |
| Assets.AssetStore.PutFile | media_bridge/assets.py:76-91 | purge, checks, write, and clean-up of a failed write; the record is still to come |
| Assets.AssetStore.PutRecord | media_bridge/assets.py:93-101 | the record is entered with the expiry read at that moment |
| Assets.AssetStore.Consume | media_bridge/assets.py:103-127 | purge, ownership, read, unlink, check and removal of the record, as specified |
| Assets.AssetStore.Delete | media_bridge/assets.py:129-145 | purge, ownership, unlink, check and removal of the record, as specified |
| Assets.AssetStore.Clear | media_bridge/assets.py:166-177 | every file is unlinked before the table is emptied; a failure keeps the table |
| Assets.AssetStore.Unlinking | media_bridge/assets.py:110-118 | an unlink counts only when the file is seen to be gone |
| Assets.PurgedShrinks | media_bridge/assets.py:147-164 | a purge removes records only with their files, and one that does not raise leaves no expired record |
| Assets.StepEffect | media_bridge/assets.py:67-177 | every step only shrinks table and directory, except for what the two steps of a put add and a torn file it fails to clean up |
| Assets.RunsAreSound | media_bridge/assets.py:67-177 | over every run, puts interleaved with everything else, records and files waiting for theirs come from their puts, unchanged, and all other files are torn ones |
| Assets.DeletionIsTold | media_bridge/assets.py:129-145 | after a deletion that answers the tenant no longer has the asset, and true means its record and file were removed |
| Assets.BytesAreReturnedOnce | media_bridge/assets.py:67-127 | over every run with fresh ids, bytes handed out are those of one earlier put, unchanged, to its tenant, before expiry, and never handed out again |
| Assets.FilesHaveRecords | media_bridge/assets.py:67-177 | a file has no record if and only if its put has not entered it yet, or failed to write it and then to clean it up |
| Assets.ClearLeavesNothing | media_bridge/assets.py:166-177 | a clear that does not raise leaves no record, and no file but those |
| Assets.TornPutLeavesAFile | media_bridge/assets.py:83-91 | a put whose write and clean-up fail leaves a file without a record |
| Assets.ClearDuringPutIsSurvived | media_bridge/assets.py:83-101 | a clear between the two steps of a put succeeds, and the put still enters its record |
| ProviderSelection.SelectionIsLeast | media_bridge_gateway/provider_selection.py:25-49 | a candidate is found exactly when one is eligible; it is eligible and none ranks before it |
| ProviderSelection.SelectionIgnoresOrder | media_bridge_gateway/provider_selection.py:25-49 | with distinct ids the choice depends only on which candidates there are |
| ProviderSelection.StrategyMakesNoDifference | media_bridge_gateway/provider_selection.py:41-49 | candidates alike in all but their ids are ranked alike by every strategy |
| ProviderSelection.StrategiesChoose | media_bridge_gateway/provider_selection.py:25-49 | cost chooses the cheapest, all others the smallest priority, then the first id; health decides nothing, since only healthy candidates are eligible |
| ModelResolver.AutoModel | media_bridge_gateway/runtime.py:46-99 | the search loop returns the first public model whose provider ids meet the enabled ones |
| ModelResolver.SameRoute | media_bridge_gateway/downstream.py:689-720 | both resolvers read the same provider ids for a model when profile ids are strings |
| ModelResolver.NamesAreFound | media_bridge/runtime_snapshot.py:62-79 | with unique names, an id or alias matches exactly its own model |
| ModelResolver.AliasesShareAProvider | media_bridge_gateway/downstream.py:675-688 | every alias of a model reaches the provider of its id |
| ModelResolver.QualifiedIsServed | media_bridge_gateway/downstream.py:666-780 | the request-time lookup serves a model exactly when automatic selection would take it, with an enabled provider of its route |
| ModelResolver.ResolversAgree | media_bridge_gateway/runtime.py:46-99 | automatic selection returns the first public model that the lookup serves, and none exactly when the lookup refuses every public one |
| ModelResolver.ProviderOrderIsIrrelevant | media_bridge_gateway/downstream.py:721-780 | with distinct provider ids, relisting the providers changes no lookup, successful or not |
| ModelResolver.StrategyIsIrrelevant | media_bridge_gateway/downstream.py:733-770 | the strategy named by a routing profile never changes the provider chosen |
| ModelResolver.LookupRaisesExactly | media_bridge_gateway/downstream.py:666-780 | the lookup raises a type error if and only if exactly one model answers, and either some provider has an id that cannot be hashed, or some provider serves the route while the strategy cannot be hashed or its capabilities cannot be read as a set |
| ProviderLookup.ProfileExactly | media_bridge_gateway/downstream.py:689-720 | the profile in force is the first with the id the model names, or that of the first profile not switched off |
| ProviderLookup.RouteExactly | media_bridge_gateway/downstream.py:703-720 | a provider may serve a model if and only if that profile lists it, or lists nothing and it is the model's own |
| ProviderLookup.OffersExactly | media_bridge_gateway/downstream.py:749-757 | a provider offers text if and only if its capabilities say so as a list or an object, or say nothing at all |
| ProviderLookup.ServesExactly | media_bridge_gateway/downstream.py:666-780 | for any snapshot: the lookup finds a provider if and only if one model answers, nothing it has to hash is of the wrong kind, and it is the first on the route under the least id that offers text, with its four fields filled in |
| LocalState.ValidExactly | media_bridge_personal/local_state.py:86-119 | a snapshot is valid if and only if it is an object with a positive version and no unwanted field at any depth |
| LocalState.PersonalStateStore.Publish | media_bridge_personal/local_state.py:45-50 | a publication stopped at any point, by a crash or by a write that raises before or after its replacement, leaves the specified files |
| LocalState.PersonalStateStore.LoadLastKnownGood | media_bridge_personal/local_state.py:52-59 | the active snapshot when it is valid, else the previous one |
| LocalState.SafeMeansNoUnwantedField | media_bridge_personal/local_state.py:93-119 | the recursive check accepts exactly the values that hold, at no depth, a forbidden field or an absolute path under a path field |
| LocalState.FilesTellTheHistory | media_bridge_personal/local_state.py:45-59 | over every run of publications, crashes and corruptions the two files read as the history says |
| LocalState.CrashesLoseNothing | media_bridge_personal/local_state.py:45-59 | a publication stopped before its last replacement leaves the old last-known-good snapshot; one that gets further, even if it then raises, the new |
| LocalState.CorruptionFallsBack | media_bridge_personal/local_state.py:45-59 | with the active file corrupted, loading returns the snapshot last replaced, or the active one itself after a crash between the two writes |
| ConfigManager.OpenCodexConfigManager.ApplyProvider | media_bridge_adapters/opencodex/manager.py:81-148 | checks, then backup, configuration and marker, stopped anywhere, by a crash or by a write that raises before or after its replacement, leave the specified files |
| ConfigManager.OpenCodexConfigManager.RemoveProvider | media_bridge_adapters/opencodex/manager.py:150-168 | checks, then restoration and the two deletions, stopped anywhere, leave the specified files |
| ConfigManager.ManagedKeepsTheRest | media_bridge_adapters/opencodex/manager.py:106-116 | an application adds one provider, refers to its credential by environment name and makes it the default; every other setting and provider stays |
| ConfigManager.ApplyTakesEffect | media_bridge_adapters/opencodex/manager.py:81-148 | without a marker, an application takes effect exactly when the request is valid and the preimage is a configuration without the provider; it touches only configuration, marker and backup |
| ConfigManager.RemoveRestores | media_bridge_adapters/opencodex/manager.py:150-168 | what is owned is removed exactly when the configuration is, byte for byte, what was applied; then the preimage or its absence is back |
| ConfigManager.BackupNamesTellApart | media_bridge_adapters/opencodex/manager.py:129-131 | backups of two configurations share a name if and only if the first 16 digits of the configurations' digests agree |
| ConfigManager.RemovesExactly | media_bridge_adapters/opencodex/manager.py:150-189 | a removal takes effect if and only if there is a sound marker, the configuration is what it vouches for, its backup has a usable name and the preimage it promises is still there; any other is refused and touches no file |
| ConfigManager.RemovalRestores | media_bridge_adapters/opencodex/manager.py:150-168 | what takes effect brings back the preimage or its absence, drops marker and backup, and leaves every other file as it is |
| ConfigManager.ReapplyChangesNothing | media_bridge_adapters/opencodex/manager.py:117-128 | while something is owned, applying writes nothing and reports success exactly when the file is as applied, whatever the new request says |
| ConfigManager.ApplyThenRemove | media_bridge_adapters/opencodex/manager.py:81-168 | applying and removing gives back every file, except one that already lay at the backup path |
| ConfigManager.RunsKeepOwnership | media_bridge_adapters/opencodex/manager.py:81-168 | over every run of applications, removals and edits, each stopped anywhere, marker and backup are those of the last application that wrote its marker, even one that then raised, and was not unmarked |
| ConfigManager.EarlyStopIsHarmless | media_bridge_adapters/opencodex/manager.py:129-147 | an application stopped before it writes the configuration can be made again with the same result |
| ConfigManager.StopBeforeMarkerOrphans | media_bridge_adapters/opencodex/manager.py:129-147 | stopped between configuration and marker, it can neither be removed nor made again for the same provider |
| ConfigManager.StopBeforeUnmarkingBlocks | media_bridge_adapters/opencodex/manager.py:155-168 | a removal stopped between restoring and unlinking the marker makes every later removal and application fail, until the configuration is edited back |
| ConfigManager.StopBeforeCleaningLeavesTheBackup | media_bridge_adapters/opencodex/manager.py:164-168 | stopped after the marker, a removal leaves only the backup |
| ConfigManager.RemovalUndoesTheLastApplication | media_bridge_adapters/opencodex/manager.py:150-168 | over every such run a removal restores what the last application found, or, after any edit, fails with every file untouched |
| LoginLimiter.LoginRateLimiter.Active | media_bridge_control/security.py:101-112 | the key becomes most recently used, with the attempts inside the window |
| LoginLimiter.LoginRateLimiter.Allows | media_bridge_control/security.py:114-115 | allowed when fewer than the limit remain |
| LoginLimiter.LoginRateLimiter.Record | media_bridge_control/security.py:117-118 | a failure is appended to the attempts of its key |
| LoginLimiter.ClearForgetsOnlyItsKey | media_bridge_control/security.py:114-121 | over every run, clearing a key drops its failures, so its next login is allowed, and changes no other key |
| LoginLimiter.AllowedExactlyBelowLimit | media_bridge_control/security.py:101-118 | over every run, a login is allowed exactly when fewer than limit failures, recorded since the key was last untracked, are later than the start of the window |
| LoginLimiter.KeyCountIsBounded | media_bridge_control/security.py:101-121 | at most the maximum number of keys is tracked |
| LoginLimiter.RecentKeysAreTracked | media_bridge_control/security.py:101-112 | a used key stays tracked while it is not cleared and fewer than the maximum of other keys are used |
| LoginLimiter.FailuresAreRemembered | media_bridge_control/security.py:101-118 | until then every failure recorded for it counts |

## Left out

- HTTP applications, middleware, entry points, MCP registration, the web console and settings: transport and plumbing.
- OCR, vision and provider clients, image and PDF libraries, DNS and URL fetching: each is a parameter that succeeds, refuses or fails.
- The size, secret and response checks of the HTTP downstream: they appear only as a provider that rejects or fails.
- The host's recursion limit: a payload nested some 500 lists deep ends the media searches of normalizer and guard, or the prompt's text search, in an uncaught error.
- `ProviderResponsesDownstream` with a fixed backend instead of a snapshot, and the text of its prompt (only whether it is empty decides).
- Cancellation and other exits that are not ordinary exceptions; writes that reach the disk only in part, except in the asset store.
- Streams are sequences of characters: a UTF-8 sequence split across chunks stops the original's reader and is not modelled.
- JSON numbers that are infinite or not a number, and strings with a lone surrogate, which also leave the normalizer as an uncaught error.
- The timestamps and identifiers inside chat chunks, and the usage field of chat completions: copied without decision.
- The insertion order of rate-limiter buckets and receipt digests: nothing depends on it, so both are plain maps.
- `current_user_text` of the normalizer, which no modelled component reads.
- `V2PreparationTransaction.execute`: the gate's preparation behind the idempotency store, an easy composition.
- `LegacyResponsesStateAdapter` and the near-duplicates under `media_bridge_local`.
- Registry entries reach `ModelResolver` in the typed form that building the capability registry enforces; providers and routing profiles are raw JSON.
- Solar's tool definitions, reasoning fields, response parsing and streaming.
- How a publication's body and stored signing key are checked (each is a parameter that agrees or not), and the snapshot's other columns.
- Ownership, permissions and links of files.
- The purge at the beginning of an asset-store call and the section after it are one step; only a put is split.
- ChatRequests.SpeaksExactly: a list or an object in place of a part's type or a message's role counts as refused; the original raises a type error there.
- ModelResolver.ResolversAgree: requires enabled providers to be filled in and able to serve text, string ids and hashable strategies; without that, automatic selection may name a model whose lookup fails, since only the lookup reads those fields.
- ChatStream.StreamAgreesWithResponse: requires the message identifier to hold no line boundary; it is a URL-safe random token.
- Sanitizer.SanitizeIsIdempotent: covers accepted ASCII texts, because normalization of other text depends on Unicode tables.
- LoginLimiter.RecentKeysAreTracked: gives when a key is surely kept; with clears in between, a key may also survive more use of others.
