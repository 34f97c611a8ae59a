# Beckn Data Commons: a verified model of its trust and protocol kernel

This Dafny project models the parts of Beckn Data Commons on which its guarantees rest, and proves
those guarantees over every input, every run and every interleaving. `dafny verify dfyconfig.toml`
checks all of it.

## What is modelled

**Canonical text and message authentication.** `Json` describes JSON trees (an object is the list of
its own entries, so insertion order is visible), their compact text and their normal form.
`JsonText` is a reader that inverts the printer before any suffix; `Canonicalization` concludes that
canonical text forgets the order of object keys and nothing else, and proves the recursive serializer
equal to that specification. `Utf16` and `Utf8` follow a text into the bytes that are signed (RFC 3629).
On top of them stand the wire normalization (`Wire`), the authorization header with its scanning parser
(`Headers`), the evicting replay cache against an unbounded history (`Replay`), the whole of
`verifyMessage` (`MessageAuth`) and what a participant makes of it over whole runs (`Participants`).
Ed25519 (RFC 8032) is an ideal signature: a set of signed `(key, bytes)` pairs on which verification
succeeds (`Signing`), so authenticity is a theorem about what is signed. `Spelling` spells out the names
and literals on the wire.

**Asynchronous fan-out.** `Collectors` is the state machine of registrations, callbacks and timers
that race for a map keyed `transactionId:action`; `Orchestrator` holds the objects that refine it step
by step. `Correlation` follows a request out and its callback back. `Confirmation` interleaves any number
of confirm calls with everything else that happens in the machine. `BapRoutes` puts authentication in
front of both, as the callback routes do.

**The network.** `Contexts` is the schema of contexts, in both directions, and `BppRoutes` a provider's
request routes: authentication, the schema, the callback. `Networks` puts a BAP and any number of
providers together: what their keys sign, message after message, when everyone runs this code while the
network forwards, repeats and re-routes as it likes. `Rerouting` shows what such a network can be made to
sign, `Provenance` who confirmed what the BAP asks grants for, and `Deployment` that both sides of its
results occur.

**Grants and downloads.** `Grants` and `GrantJson` are the claims, their strict schema and their JSON
form in both directions; `GrantCheck` is issuing and offline verification. `Download` is the redemption
as a small program of steps, and the method that runs them uninterrupted. `Marketplace` interleaves any
number of redemptions, at any number of providers, with signing, saving, revoking and sweeping; any
redemption may also be lost where it stands. `Slots` counts downloads in that system, and `Serving`
follows one grant through it from request to download.

**The consent ledger.** `Ledger` holds the in-memory store, the SQL store and their runs.
`Transactions` models its concurrency in Postgres: revokes are row-locked transactions over two tables
whose writes are staged until the commit, sweeps take and mark their rows one by one.
`Serializability` says when all this is as if operations ran one at a time in the order of their commits,
`SerialOrders` that it always is in some order. `Service` is the grant service. `Conservation` balances
the accounts of every concurrent history.

Clocks, random identifiers, signatures and key lookups are parameters. Integers are unbounded; text is
a sequence of UTF-16 code units, as in JavaScript.

## Where a promise holds only under a condition

- *Single use.* `docs/security.md:47` promises that a second use of a nonce is rejected. The cache
  forgets a nonce at `expires`, while the freshness test still lets the message through for the skew;
  and the clock is read twice, the second time after the signature was checked. In a run of any number of
  showings, `Participants.LaterShowing` gives the outcome of each further one. With at most `delay`
  milliseconds between the two readings, `Participants.SingleUseExactly` shows that no run accepts a
  message twice if and only if `skew * 1000 + 999 + delay <= 0`. The default skew is five seconds; from
  its expiry until that has passed a message is accepted as often as it is shown
  (`MessageAuth.PastExpiryNothingBlocks`).
- *Key ids.* The signing base separates fields by newlines but never checks the key id for one.
  `MessageAuth.FramingIsExact` says which pairs of key ids a header can carry can share a base: those
  where one continues the other with lines that read as its timestamps. Key ids without a newline are safe.
- *A registry that holds the BAP's own key.* `deliverCallback` strips `on_` only where it is, so the
  BAP's own signed request, posted back to a callback route, is filed under the fan-out that sent it
  (`BapRoutes.RequestIsFiled`). `infra/gen-beckn-keys.mjs:10-25` puts every participant's key, the BAP's
  too, into the one registry all of them get. `Provenance.OnlyAnswersExactly`: everything the BAP
  collects is an answer of a provider if and only if the registry does not resolve the BAP's own id to
  its own key, or no provider is configured. `Provenance.ReflectedConfirmIssues`: a reflected confirm
  request makes it ask for a grant.
- *Who confirmed.* A provider's route answers every message it can verify and read, under its own id and
  for its own action, whatever provider and action the message names
  (`BppRoutes.EveryRouteAnswersAsItself`); and the BAP compares neither the `bppId` of a callback nor the
  id that signed it with the provider it asked. So a confirm request that is forwarded to another
  provider makes that one confirm, and the BAP ask for a grant that names a provider which said nothing
  (`Provenance.ForwardedConfirmIssues`). `Provenance.GrantsAreConfirmedExactly`: every grant is confirmed
  by the provider it names, in every run of the network, if and only if the BAP's registry holds that
  provider's id alone, and not the BAP's own key. The shared registry fails this
  (`Deployment.BothSidesOccur`).
- *What was confirmed.* Even then a provider may have been asked for something else: a select request
  posted to its `/confirm` makes it sign `on_confirm`, and the BAP ask for the grant, without any confirm
  request (`Provenance.ReroutedSelectIssues`). What does hold of every response is that it goes back to
  some request of the BAP for the same transaction (`Networks.CollectedIsAnswerOrReflection`).
- *Overlapping fan-outs.* Starting a fan-out while an unresolved one holds its key takes its callbacks
  away, and either of them deletes the entry of the other.
  `Collectors.TraceHoldsExactlyWithoutSharing` shows that this is exactly what breaks the trace of a
  fan-out; resolving exactly once survives it.
- *Colons in transaction ids.* A callback that moves the end of a transaction id into its action
  reaches the same collector; `Correlation.EnvelopeReaches` lists all envelopes that do.
- *Sweeps and late saves.* A sweep visits the rows of its snapshot. Runs are serial in the order of
  commits if and only if no sweep overlooks a grant that was saved, already due, after it began
  (`Serializability.ConcurrentRunsAreSerialExactly`). In some order every run is serial
  (`SerialOrders.EveryRunHasSerialOrder`): the saves of overlooked grants come after the sweeps instead.
- *The cap in mid-run.* Served downloads do not number the smaller of cap and counter at every moment:
  a slot is taken before it is compared. `Slots.CapIsExact` accounts for those in between.

## Model

| member | source | states |
|---|---|---|
| Canonicalization.CanonicalIsExact | packages/crypto-utils/src/canonical.ts:27-64 | two serializable trees get one canonical text if and only if they are equal up to recursive reordering of object keys |
| Canonicalization.CanonicalReadsBack | packages/crypto-utils/src/canonical.ts:27-64 | canonical text parses back to a tree in which the keys of every object, at every depth, ascend by code unit and which means the same as the original; it holds no raw newline |
| Canonicalization.CanonicalSucceeds | packages/crypto-utils/src/canonical.ts:36-63 | canonicalization throws exactly on trees with an undefined or a non-finite number somewhere |
| Canonicalization.AnySortAgrees | packages/crypto-utils/src/canonical.ts:54 | distinct keys have one sorted listing, so the result does not depend on how the host sorts |
| Texts.LessIsUnitOrder | packages/crypto-utils/src/canonical.ts:54 | one key sorts before another if and only if it has ended, or has the smaller code unit, at the first place where they differ |
| Canonicalization.CanonicalThrowsFirst | packages/crypto-utils/src/canonical.ts:31-64 | the fault thrown is of the first faulty item, or of the least faulty key, everything before which can be serialized |
| Canonicalization.NormalKeepsMeaning | packages/crypto-utils/src/canonical.ts:51-60 | sorting the keys of every object leaves the information in the tree as it was |
| Canonicalization.MeaningFixesNormal | packages/crypto-utils/src/canonical.ts:51-60 | trees with the same information have the same sorted form |
| Canonicalization.CanonicalJson | packages/crypto-utils/src/canonical.ts:31-64 | the serializer returns text of the same meaning, on one line, with ascending keys throughout, or throws the fault that comes first, arrays item by item and objects by ascending keys |
| Canonicalization.CanonicalArray | packages/crypto-utils/src/canonical.ts:47-49 | the array case keeps item order and throws at the first faulty item |
| Canonicalization.CanonicalObject | packages/crypto-utils/src/canonical.ts:51-61 | the sort-and-push loop over entries returns the text with ascending keys throughout, or throws at the least faulty key |
| JsonText.ReadValueOfPrint | packages/crypto-utils/src/canonical.ts:42-60 | the printed form of every tree is uniquely readable: a reader recovers the tree and stops where its text ends, whatever follows |
| JsonText.ParseOfPrint | packages/crypto-utils/src/beckn-auth.ts:77 | parsing the compact text of a JSON tree returns that tree, with the entries as they stand in the text |
| JsonText.PrintNoControl | packages/crypto-utils/src/beckn-auth.ts:78 | compact JSON text never holds a control character, a newline in particular |
| JsonText.EscapesAreShortest | packages/crypto-utils/src/canonical.ts:42-45 | each code unit of a string is written in the shortest form a reader takes for it, and in lower-case hexadecimal where that takes digits |
| JsonText.PlainIsVerbatim | packages/crypto-utils/src/canonical.ts:42-45 | a string with nothing to escape is written as it is, between quotes |
| Texts.DecimalIsPlaces | packages/crypto-utils/src/canonical.ts:37-40 | integers are written by their places in base ten, without leading zeros, after a minus sign when negative |
| Utf16.CanonicalIsWellPaired | packages/crypto-utils/src/canonical.ts:42-60 | every surrogate in canonical text is half of a pair, whatever the strings of the tree hold |
| Utf8.EncodeScalarIsUtf8 | packages/crypto-utils/src/ed25519.ts:65-70 | each scalar value is encoded in the shortest of the four forms of RFC 3629 (section 3) |
| Utf8.EncodeIsExact | packages/crypto-utils/src/ed25519.ts:65-70 | two texts have the same signed bytes if and only if they agree once surrogates without a partner are replaced |
| Utf8.ScrubExactly | packages/crypto-utils/src/ed25519.ts:65-70 | that replacement puts one U+FFFD for each surrogate without a partner, and leaves everything else in place |
| Utf8.ScrubFixesWellPaired | packages/crypto-utils/src/ed25519.ts:65-70 | that replacement leaves well-formed UTF-16 alone, so its encoding loses nothing |
| Signing.LowerHexExactly | packages/crypto-utils/src/ed25519.ts:32-41 | two hexadecimal texts stand for the same bytes if and only if they are digit by digit the same number |
| Wire.StripIsJson | packages/crypto-utils/src/beckn-auth.ts:72-77 | what crosses the wire is serializable JSON, whatever undefined or non-finite parts the body had |
| Wire.ParseOfStringify | packages/crypto-utils/src/beckn-auth.ts:77 | what JSON.stringify prints is parsed back as the stripped body, whatever undefined or non-finite parts it had |
| Wire.SentArrives | packages/crypto-utils/src/beckn-auth.ts:72-77 | of what is sent, an object arrives with exactly the keys that have a defined value, in their order and each with what arrives for it; arrays keep their length; undefined items and non-finite numbers arrive as null, and all else as it is |
| Wire.Normalized | packages/crypto-utils/src/beckn-auth.ts:77 | the normalized body is total and serializable |
| Wire.WireParity | packages/crypto-utils/src/beckn-auth.ts:72-78 | sender and receiver normalize a body to the same tree, undefined-valued keys at any depth included |
| Headers.ScanUndoesPrint | packages/crypto-utils/src/beckn-auth.ts:105-111 | leftmost scanning of a printed parameter list finds its pairs in order and nothing else |
| Headers.ParsedIsQuotable | packages/crypto-utils/src/beckn-auth.ts:105-119 | whatever the header, the texts the parser returns are nonempty and free of quotes |
| Headers.ParseUndoesPrint | packages/crypto-utils/src/beckn-auth.ts:82-119 | the parser returns exactly the printed fields if and only if key id, nonce and signature are nonempty and quote-free |
| Headers.ParsedExactly | packages/crypto-utils/src/beckn-auth.ts:105-119 | a header is read as these fields if and only if it names the scheme, in any letters, and after its first space the last pairs of the five names hold them, nonempty and with readable times, and no other algorithm is named |
| Headers.OtherAlgorithmIsRefused | packages/crypto-utils/src/beckn-auth.ts:114 | a header whose last algorithm is neither empty nor ed25519 is refused |
| Headers.MatchesOccur | packages/crypto-utils/src/beckn-auth.ts:108 | every pair the scanner finds stands in the text as a word, an equals sign and a quoted value |
| Spelling.HeaderIsPrinted | packages/crypto-utils/src/beckn-auth.ts:92-95 | the header of a signed message, character by character |
| Headers.ParseHeader | packages/crypto-utils/src/beckn-auth.ts:105-119 | the parsing loop returns the fields of the last occurrence of each name, or nothing on a wrong scheme, algorithm, missing field or number |
| Replay.ReplayCache.Seen | packages/crypto-utils/src/beckn-auth.ts:170-175 | answers and updates as specified; afterwards every entry but a just-added one is unexpired |
| Replay.ReplayCache.Prune | packages/crypto-utils/src/beckn-auth.ts:177-182 | the deleting loop keeps exactly the entries whose expiry is not past |
| Replay.CacheAgreesWithHistory | packages/crypto-utils/src/beckn-auth.ts:161-183 | on every run, seen answers true if and only if an earlier call recorded the key and no clock reading since has passed its expiry |
| Replay.BlockerIsLatest | packages/crypto-utils/src/beckn-auth.ts:170-175 | that recording is the most recent one of its key |
| Replay.SteadyClockHistory | packages/crypto-utils/src/beckn-auth.ts:161-183 | with a clock that never runs backwards only the current reading matters |
| MessageAuth.VerifyMessage | packages/crypto-utils/src/beckn-auth.ts:126-154 | the checks in their order; only a message that passes them all reaches the cache, and a refused one leaves it unchanged |
| MessageAuth.RefusedExactly | packages/crypto-utils/src/beckn-auth.ts:126-145 | when each of the refusals is given: missing, malformed, unknown key, early, expired, bad signature, in this order |
| MessageAuth.BaseIsFiveLines | packages/crypto-utils/src/beckn-auth.ts:77-78 | what is signed is the key id, the two times in decimal, the nonce and one line of JSON, which is the body as it arrives, with ascending keys |
| MessageAuth.CanonicalBodyIsExact | packages/crypto-utils/src/beckn-auth.ts:77-78 | the body line has no newline and agrees for two bodies if and only if they are the same JSON once transmitted |
| MessageAuth.TailIsInjective | packages/crypto-utils/src/beckn-auth.ts:78 | the lines after the key id determine times, nonce and body even when nonces hold newlines |
| MessageAuth.BaseIsInjective | packages/crypto-utils/src/beckn-auth.ts:65-79 | for key ids without a newline, equal signing bases mean the same id, times, nonce and JSON body |
| MessageAuth.CollisionIsConfusable | packages/crypto-utils/src/beckn-auth.ts:78 | two messages with one base but different ids have one id that continues the other with timestamp lines |
| MessageAuth.ConfusableIdsCollide | packages/crypto-utils/src/beckn-auth.ts:78 | for every such pair of ids that fit a header there are two messages the parser can return with one base |
| MessageAuth.FramingIsExact | packages/crypto-utils/src/beckn-auth.ts:65-79 | messages under two different ids that can be received share a base if and only if the ids fit a header and one imitates the other's lines |
| MessageAuth.BytesAreInjective | packages/crypto-utils/src/beckn-auth.ts:65-95 | for key ids without a newline the signed bytes determine id, times, nonce and JSON body, up to surrogates without a partner in id and nonce |
| MessageAuth.PassedIsAuthentic | packages/crypto-utils/src/beckn-auth.ts:126-145 | a message is let through only inside its skewed window and only if the holder of the key registered for its id signed that very message, byte for byte |
| MessageAuth.SignedMessagePasses | packages/crypto-utils/src/beckn-auth.ts:82-146 | a freshly signed message, sent and parsed, passes exactly from created minus skew to expires plus skew, and is refused as early or expired otherwise |
| MessageAuth.AcceptedOnce | packages/crypto-utils/src/beckn-auth.ts:147-153 | two messages with one key id and nonce are not both accepted while the cache's clock has not passed the first one's expiry |
| MessageAuth.SlotIsInjective | packages/crypto-utils/src/beckn-auth.ts:149 | colon-free nonces keep the cache keys of different ids and nonces apart |
| MessageAuth.FreshNonceIsAccepted | packages/crypto-utils/src/beckn-auth.ts:147-153 | a message that passes its checks with an unused colon-free nonce is never refused as a replay |
| MessageAuth.FreshMessageIsAccepted | packages/crypto-utils/src/beckn-auth.ts:82-154 | what signMessage prints, with an unused colon-free nonce and once the body has crossed the wire, is accepted at exactly the times from creation minus skew to expiry plus skew |
| MessageAuth.PastExpiryNothingBlocks | packages/crypto-utils/src/beckn-auth.ts:147-182 | once the cache's clock is past every expiry recorded for its id and nonce, a message that passes the checks is accepted, however often it was before |
| MessageAuth.SecondShowing | packages/crypto-utils/src/beckn-auth.ts:138-153 | the outcome of showing an accepted message again at once, for every later reading of the freshness clock and every reading of the cache's clock |
| Participants.PassedWasSigned | packages/crypto-utils/src/beckn-auth.ts:210-236 | a message that passes has the key id and the JSON of one signed with the key registered for that id |
| Participants.LaterShowing | packages/crypto-utils/src/beckn-auth.ts:147-182 | in any run of showings with a forward clock, an accepted message is a replay until its expiry has passed on the cache's clock, and accepted again after that |
| Participants.SingleUseExactly | packages/crypto-utils/src/beckn-auth.ts:138-182 | with at most delay milliseconds from the freshness test to the cache check, no run of showings accepts a message twice if and only if skew * 1000 + 999 + delay <= 0 |
| Collectors.StepKeepsInv | services/bap/src/orchestrator.ts:104-152 | every registration, callback and timer keeps the pending map pointing at unresolved collectors of its key, and each collector resolved at most once |
| Collectors.StepKeepsResolved | services/bap/src/orchestrator.ts:104-152 | a step only appends to response lists and never touches a resolved collector |
| Collectors.ResolvedExactlyOnce | services/bap/src/orchestrator.ts:104-152 | over every interleaving, overlapping keys included, resolve is called at most once, with at most max(1, expected) responses; the unresolved have an armed timer |
| Collectors.OutcomeIsFinal | services/bap/src/orchestrator.ts:109-118 | what a fan-out resolved with never changes afterwards |
| Collectors.FiringResolves | services/bap/src/orchestrator.ts:114-117 | a collector whose timer fires is resolved |
| Collectors.FanOutMeetsTrace | services/bap/src/orchestrator.ts:97-152 | without key sharing, a fan-out resolves with exactly the first max(1, expected) matching callbacks between its registration and its timer, in order, and as soon as they are there or the timer fired |
| Collectors.TakenOverMissesCallback | services/bap/src/orchestrator.ts:119 | a fan-out whose key is overwritten misses the next callback for it |
| Collectors.TraceHoldsExactlyWithoutSharing | services/bap/src/orchestrator.ts:97-152 | the trace specification holds along a run, and after any next callback, if and only if no fan-out starts while an unresolved one holds its key |
| Orchestrator.Pending.Settle | services/bap/src/orchestrator.ts:109-113 | clears the timer and resolves with the responses so far, unless already resolved |
| Orchestrator.BapOrchestrator.FanOut | services/bap/src/orchestrator.ts:97-136 | registers one collector under the key and sends one request to each target, in order; its context names the network, the BAP, the target and the transaction, with an id and a time of its own |
| Orchestrator.BapOrchestrator.Finish | services/bap/src/orchestrator.ts:109-117 | clears the timer, deletes whatever is pending under the collector's key and resolves it, touching no other collector |
| Orchestrator.BapOrchestrator.DeliverCallback | services/bap/src/orchestrator.ts:139-152 | the objects move as the delivery step: stripped action, lookup, append, and finish once enough have arrived |
| Orchestrator.BapOrchestrator.TimerFires | services/bap/src/orchestrator.ts:114-117 | the objects move as the timer step, deletion by key included |
| Correlation.KeyIsInjective | services/bap/src/orchestrator.ts:77-79 | transaction and colon-free action are recovered from their key |
| Correlation.CallbackReachesItsCollector | services/bpp/src/beckn/builders.ts:27-35 | for all four actions, a callback maps to exactly the collector key of its request's transaction and action |
| Correlation.CallbackComesHome | services/bpp/src/app.ts:110-122 | the callback to a fan-out's request goes to that BAP's route for the action, with or without a trailing slash, echoes its ids, names the responder, and is filed under the fan-out |
| Correlation.EnvelopeReaches | services/bap/src/orchestrator.ts:139-146 | which envelopes of any origin reach a collector: those that name it, and those that shift a colon-delimited end of the transaction id into the action |
| Correlation.ResponseHasOrigin | services/bap/src/orchestrator.ts:147-150 | each response of a collector was brought by a delivery of its key |
| Correlation.NoCrossTalk | services/bap/src/orchestrator.ts:139-152 | however a network loses, repeats and reorders honest callbacks, every collected response answers a request of the same transaction and action |
| BapRoutes.MessageArrives | services/bap/src/orchestrator.ts:139-150 | from the JSON of a message, deliverCallback takes exactly its context's action, transaction and bppId and its content |
| BapRoutes.RequestIsFiled | services/bap/src/orchestrator.ts:139-146 | a request itself, delivered as a callback, is filed under the fan-out that sent it |
| BapRoutes.RoutesPlayMoves | services/bap/src/app.ts:46-62 | collectors and confirm calls move by accepted callbacks, fan-outs and timers alone; a refused callback never reaches them |
| BapRoutes.RoutesVerifyInOrder | services/bap/src/app.ts:46-62 | all callback routes verify with one replay cache, callback after callback |
| BapRoutes.AcceptedExactly | services/bap/src/app.ts:46-62 | a callback moves the system if and only if it is accepted in the run of all callbacks up to it, and then by delivering its own envelope |
| BapRoutes.EveryResponseWasBrought | services/bap/src/app.ts:46-62 | every collected response was brought by one accepted callback filed under the collector's key |
| Contexts.ContextIsExact | packages/beckn-schemas/src/context.ts:32-46 | the context schema accepts exactly the JSON of contexts whose fields have their formats, missing optional and added fields included, and reads them back |
| Contexts.ValidExactly | packages/beckn-schemas/src/context.ts:32-46 | what the schema asks of each field, one by one |
| BppRoutes.BecknRoute | services/bpp/src/app.ts:88-126 | the route's reply, callback and effect on the replay cache are those of the specification: authentication, then the schema, then the answer |
| BppRoutes.EveryRouteAnswersAsItself | services/bpp/src/app.ts:88-126 | a message, or the empty object for a missing one, is answered if and only if it is accepted and has a valid context; the reply acknowledges the message's own id and goes to the route's callback under the message's bapUri, less one slash at its end; the callback's context is the message's, field by field, but for action, responder and time; and a BAP files it under that action and the transaction |
| Networks.EveryMessageGoesBack | services/bpp/src/app.ts:88-126 | every message a participant signs about a transaction goes back, through any number of answers, to a request of the BAP for it |
| Networks.CollectedIsAnswerOrReflection | services/bap/src/app.ts:46-62 | whatever is posted to whom, every collected response is what a registered provider answered on its route for the fan-out's action to some message of the fan-out's transaction, or the BAP's own request come back under a registry that trusts its key; and the BAP did sign a request of that transaction |
| Rerouting.AnsweredAnywhere | services/bpp/src/app.ts:88-126 | a request of any action to any configured provider can be answered by every provider that knows the BAP, on its route for any other action |
| Provenance.OnlyAnswersExactly | services/bap/src/index.ts:20-46 | in all runs of the network everything collected is an answer of a provider if and only if the registry does not resolve the BAP's own id to its own key, or no provider is configured |
| Provenance.IssuedAfterAnswerOrReflection | services/bap/src/orchestrator.ts:205-223 | each issue request follows a callback of its call's own fan-out that is an on_confirm of some registered provider for the call's transaction, to whatever message it got, or the BAP's reflected request |
| Provenance.ReflectedConfirmIssues | services/bap/src/orchestrator.ts:139-223 | with its own key registered, the BAP's own confirm request, posted back, makes it ask for the grant, confirmed by nobody |
| Provenance.AnyProviderConfirms | services/bap/src/orchestrator.ts:139-223 | the on_confirm of any registered provider makes the BAP ask for the grant, which is confirmed by the provider it names if and only if that is the one |
| Provenance.ForwardedConfirmIssues | services/bpp/src/app.ts:88-126 | a single confirm request, forwarded to another provider, makes the BAP ask for a grant whose provider said nothing |
| Provenance.ReroutedSelectIssues | services/bpp/src/app.ts:88-126 | a select request posted to the confirm route of its own addressee makes the BAP ask for the grant, although nobody was asked to confirm |
| Provenance.GrantsAreConfirmedExactly | services/bap/src/orchestrator.ts:176-223 | in all runs of the network every grant is confirmed by the provider it names if and only if the BAP's registry resolves no id but that provider's, and not the BAP's own to its own key |
| Deployment.BothSidesOccur | infra/gen-beckn-keys.mjs:10-25 | networks of one or two providers, with a registry that has the BAP's own key or not, all meet the suppositions; every grant is confirmed with one provider and without that key, and in no other |
| Deployment.GrantsOccur | services/bap/src/orchestrator.ts:205-223 | where every grant is confirmed, a grant is asked for, and confirmed, in some run |
| Confirmation.Resolved | services/bap/src/orchestrator.ts:170-174 | finds the first configured provider of that id, or there is none |
| Confirmation.NoGrantWithoutConfirmation | services/bap/src/orchestrator.ts:205-223 | over concurrent confirm calls each issue request belongs to one call whose own fan-out resolved nonempty, and no call makes two; it asks for the call's grantee, license class, purpose, transaction, offer and resource at its configured provider, for its scope or else the full one without fields or cap, under its provider URI or else the target's, and names no lifetime |
| Confirmation.StartedExactly | services/bap/src/orchestrator.ts:170-212 | a confirm call to a configured provider awaits a fan-out of its own for one callback; any other sends and changes nothing |
| Confirmation.ResumedExactly | services/bap/src/orchestrator.ts:190-223 | a call whose fan-out resolved asks for one more grant, as it was asked to, if anything was collected, and times out if nothing was; until then it waits |
| Confirmation.TimeoutNeverIssues | services/bap/src/orchestrator.ts:190-213 | a call that timed out never issues, and its fan-out collected nothing |
| GrantJson.ClaimsAreExact | packages/beckn-schemas/src/grant.ts:44-79 | the strict claims schema accepts exactly the JSON of valid claims and reads them back |
| GrantJson.SchemaAsks | packages/beckn-schemas/src/grant.ts:44-79 | what the claims schema asks of each claim: nonempty texts, UUIDs by their groups of digits, a URL, fields for a subset, a positive cap, times in order |
| GrantJson.SignedIsExact | packages/beckn-schemas/src/grant.ts:82-89 | the signed-grant schema accepts exactly the JSON of valid signed grants, in any key order |
| GrantJson.ClaimsJsonIsJson | packages/beckn-schemas/src/grant.ts:112-114 | the JSON of claims always has a canonical text |
| GrantJson.PayloadIsInjective | packages/beckn-schemas/src/grant.ts:112-114 | claims in shape with the same signing payload are the same claims |
| GrantCheck.PayloadEncodesInjectively | packages/beckn-schemas/src/grant.ts:120-127 | so are claims in shape with the same signed bytes |
| GrantCheck.Overreach | packages/beckn-schemas/src/grant.ts:199-200 | the filter returns exactly the requested fields that were not granted |
| GrantCheck.OverreachInOrder | packages/beckn-schemas/src/grant.ts:199-200 | it keeps them in their order and as often as they were requested |
| GrantCheck.RequestCheckedExactly | packages/beckn-schemas/src/grant.ts:190-209 | a request passes if and only if its resource is the one granted, its offer too where it is named, and every field it names is granted where the grant is for a subset |
| GrantCheck.VerifiesExactly | packages/beckn-schemas/src/grant.ts:161-212 | offline verification accepts if and only if the JSON is a valid grant whose payload the issuer's key signed, in its skewed window, at its provider, within resource and scope |
| GrantCheck.VerifiesByDefault | packages/beckn-schemas/src/grant.ts:161-212 | without provider, request and skew it accepts exactly what is in shape, signed, and in its window give or take 30 seconds |
| GrantCheck.MalformedExactly | packages/beckn-schemas/src/grant.ts:165-168 | malformed is what is the JSON of no grant in shape, and nothing else |
| GrantCheck.RejectedExactly | packages/beckn-schemas/src/grant.ts:170-209 | when each of the other rejections is given, in the order of the checks, and that insufficient scope names exactly the fields not granted |
| GrantCheck.VerifiedWasIssued | packages/beckn-schemas/src/grant.ts:165-176 | a grant that verifies equals, as JSON, one the Access Manager issued |
| GrantCheck.VerifiedIsInBounds | packages/beckn-schemas/src/grant.ts:178-209 | what verifies is inside its window and covers the request, for every configuration of the verifier |
| GrantCheck.IssuedGrantVerifies | services/access-manager/src/service.ts:35-56 | a grant issued at t0 verifies at its own provider for its own resource if and only if t0 - skew <= now <= t0 + ttl + skew and, for a subset, the requested fields were granted |
| Ledger.InMemoryGrantStore.Save | services/access-manager/src/stores/memory.ts:7-9 | writes or overwrites the record of its id and no other |
| Ledger.InMemoryGrantStore.ListByGrantee | services/access-manager/src/stores/memory.ts:16-21 | exactly the grantee's records, each once, none before one that was issued later |
| Ledger.InMemoryGrantStore.Revoke | services/access-manager/src/stores/memory.ts:23-29 | three outcomes by existence and status; only the status of that record changes |
| Ledger.InMemoryGrantStore.MarkExpired | services/access-manager/src/stores/memory.ts:31-40 | an issued record whose expiry is before the clock becomes expired, no other record changes at all, no issued one is left past its expiry, and the count is the number that changed |
| Ledger.SweepingInOrderSweeps | services/access-manager/src/stores/memory.ts:31-40 | visiting the records one at a time in any order has the effect and the count of the whole sweep |
| Ledger.PostgresGrantStore.Save | services/access-manager/src/stores/postgres.ts:86-108 | inserts a row for a new id and leaves an existing row alone |
| Ledger.PostgresGrantStore.ListByGrantee | services/access-manager/src/stores/postgres.ts:117-123 | exactly the grantee's rows, each once, none before one that was issued later, ties in any order |
| Ledger.PostgresGrantStore.Revoke | services/access-manager/src/stores/postgres.ts:125-155 | the committed effect on both tables, and the outcome |
| Ledger.PostgresGrantStore.MarkExpired | services/access-manager/src/stores/postgres.ts:157-163 | the same of the rows; revocations are left alone |
| Ledger.ListingsAgree | services/access-manager/src/stores/postgres.ts:117-123 | any two listings of one table agree in contents and in issue times position by position |
| Ledger.StoresAgreeExactly | services/access-manager/src/stores/memory.ts:7-40 | at every point of a run the two stores answer get, list (up to the order of ties), revoke and sweep alike if and only if no save writes over a different record |
| Ledger.StatusesMoveForward | services/access-manager/src/stores/memory.ts:23-40 | a status only moves from issued to expired or revoked, or from expired to revoked, and nothing else of a record changes |
| Ledger.SweepLeavesNoneDue | services/access-manager/src/service.ts:89-91 | after a sweep no issued grant has its expiry before the clock, and the newly expired are exactly those that had |
| Ledger.ExpiredWasSwept | services/access-manager/src/stores/memory.ts:31-40 | over any run, a grant is expired only if some sweep had a clock past its expiry |
| Ledger.LedgerConserves | services/access-manager/src/stores/memory.ts:7-40 | issued, expired and revoked grants add up to those saved; sweep counts add up to the grants that ever expired, each counted once |
| Transactions.PublishRevokes | services/access-manager/src/stores/postgres.ts:141-147 | the two staged writes, published together, are the whole effect of a revoke on both tables |
| Transactions.ExecuteKeeps | services/access-manager/src/stores/postgres.ts:86-163 | every statement of every transaction, sweeps row by row included, keeps row locks, staged writes and the two tables in order |
| Serializability.SweepIsSerialExactly | services/access-manager/src/stores/postgres.ts:157-163 | a sweep that took its rows one by one takes effect as one operation, at its commit and with its count, if and only if it marked every grant due then |
| Serializability.ConcurrentRunsAreSerialExactly | services/access-manager/src/stores/postgres.ts:86-163 | every interleaving of saves, row-locked revokes and row-by-row sweeps leaves both tables, at all times, as running the operations one at a time in commit order would, with the same replies, if and only if no sweep overlooks a due grant |
| Serializability.TimelyRunsAreSerial | services/access-manager/src/stores/postgres.ts:86-163 | that is so in every run that saves no grant already due for a sweep under way |
| SerialOrders.EveryRunHasSerialOrder | services/access-manager/src/stores/postgres.ts:86-163 | every interleaving, late saves included, leaves the tables and gives the replies of its operations run one at a time in some order, which is a permutation of the commits that leaves everything but the saves in sequence |
| SerialOrders.LateSaveBreaksCommitOrder | services/access-manager/src/stores/postgres.ts:86-163 | a due grant saved while a sweep is under way makes a run that is not serial in the order of its commits |
| Transactions.LedgerMatchesRevocations | services/access-manager/src/stores/postgres.ts:125-155 | in every committed state a grant is revoked if and only if its id is in the revocation table |
| Transactions.OneRevokerWins | services/access-manager/src/stores/postgres.ts:125-155 | among concurrent revokes of an existing grant, once one is answered exactly one of all has the answer revoked, and the others that are answered are told already-revoked |
| Transactions.RevocationIsForever | services/access-manager/src/stores/postgres.ts:141-147 | an id in the revocation table stays there |
| Transactions.RolledBackIsGone | services/access-manager/src/stores/postgres.ts:148-154 | a revoke that is rolled back before it answered leaves both tables as they are, and whatever runs afterwards it holds no row and never answers |
| Service.GrantService.Issue | services/access-manager/src/service.ts:35-75 | signs and saves exactly the valid claims built from the request: its grantee, provider, resource, scope, license class, purpose and transaction, the service's issuer and key id, from the clock on for the requested lifetime or the default one, revocable, with fresh id and nonce; the record repeats them in status issued; claims the schema refuses are neither signed nor saved |
| Service.GrantService.Revoke | services/access-manager/src/service.ts:85-87 | revokes in the store and keeps every record backed by a signed grant |
| Service.GrantService.SweepExpired | services/access-manager/src/service.ts:89-91 | an issued grant whose expiry is before the clock becomes expired, nothing else changes, and the number that changed is returned |
| Download.InMemoryRedemptionStore.RecordRedemption | services/bpp/src/stores/memory.ts:22-26 | adds one to the counter of the id, returns it, touches no other |
| Download.PostgresRedemptionStore.RecordRedemption | services/bpp/src/stores/postgres.ts:68-78 | the upsert has the same effect and result, first row or not |
| Download.RedeemGrant | services/bpp/src/download.ts:60-119 | the method is the uninterrupted run of the redemption's steps, with its effect on the counters; what is served is the resolver's file for the claims' own resource, offer and scope kind, unrevoked and with a count within the cap; and each refusal has its status |
| Download.ServedExactly | services/bpp/src/download.ts:60-119 | a file is served if and only if the JSON is a valid grant signed with the trusted key, in window, for this provider and request, not revoked, the file is the one resolved for the claims' own resource, offer and scope kind, and the count is one more than before and within the cap |
| Download.RefusedOffline | services/bpp/src/download.ts:74-93 | what offline verification refuses is answered with its reason and the status of that reason, before anything else |
| Download.RefusedOnline | services/bpp/src/download.ts:96-116 | when each of the other refusals is given: revoked, no file, over the cap, in this order |
| Download.OnlySlotsAreCounted | services/bpp/src/download.ts:71-116 | offline refusals, revocation and a missing file move no counter; a slot moves its grant's counter by one, served or over the cap |
| Marketplace.OfflineAccepts | services/bpp/src/download.ts:75-90 | whatever passes offline verification was issued, is in window, at its provider and covers the request, at any moment of a history |
| Marketplace.HistoryIsOk | services/bpp/src/download.ts:60-119 | every interleaving of signing, saving, revoking, sweeping, redeeming and losing keeps the database consistent and every redemption justified by what it has shown |
| Marketplace.DatabaseIsRun | services/access-manager/src/service.ts:66-91 | the database of a history is that of its saves and ledger statements, in their order; nothing else touches it |
| Marketplace.PassedMeansChecked | services/bpp/src/download.ts:96-99 | a redemption past its check made it at some point of the history, and the grant was not in the revocation table then |
| Marketplace.DownloadIsSound | services/bpp/src/download.ts:60-119 | whatever is served, in any concurrent history, was issued, is presented as issued, names the provider and the request, is in window, was unrevoked at its check, has a count within its cap, and the file is the one resolved for its own resource, offer and scope kind |
| Marketplace.RevokedIsNeverServed | services/bpp/src/download.ts:96-99 | once a revoke replied revoked, no redemption that has not passed its check by then is ever served with that grant, and each that comes to its check is refused |
| Serving.PresentedIsRedeemed | services/bpp/src/download.ts:60-119 | after any history, a redemption that is presented and not interrupted ends with the answer and the counters of the uninterrupted one |
| Serving.GrantedIsServedExactly | services/bpp/src/download.ts:60-119 | from request to download: a grant signed at any point of a history, whatever happened since, and redeemed without interruption at its provider, is served if and only if it is in its lifetime give or take the skew, covers the fields, was not revoked meanwhile, has a file, and its counter is below its cap; and it is the file of its own resource, offer and scope kind |
| Slots.OnlyReservationsCount | services/bpp/src/download.ts:96-110 | of all events of a history only the reservation of a slot of a grant moves its counter, and by one |
| Slots.ProceedKeepsSlots | services/bpp/src/download.ts:110-116 | every step keeps each slot with one holder, and holders with one slot each |
| Slots.HoldersWithinCap | services/bpp/src/download.ts:110-116 | the redemptions served, or holding an unserved slot within the cap, are exactly the holders of the slots up to the cap |
| Slots.CapIsExact | services/bpp/src/stores/postgres.ts:68-78 | in every state the counter is the number of reservations, and served plus unserved holders within the cap number exactly the smaller of counter and cap; with none unserved, the served do |
| Slots.EarlyRefusalHoldsNoSlot | services/bpp/src/download.ts:77-109 | a redemption refused offline, as revoked or for want of a file holds no slot of any grant |
| Conservation.ConcurrentLedgerConserves | services/access-manager/src/stores/postgres.ts:86-163 | in every concurrent history the three statuses add up to the saves, the counts the sweeps returned to the grants that ever expired, and the revoked grants are the revocation table |
| Conservation.ExpiredOnlyAfterExpiry | services/access-manager/src/stores/postgres.ts:157-163 | in every concurrent history a grant is expired only if a sweep was committed whose clock was past its expiry |

## Left out

- Fractional numbers, integers of magnitude 10^21 and more, and `-0` in JSON: numbers are mathematical integers, printed in decimal.
- `JSON.parse` beyond compact text (whitespace, duplicate keys, `__proto__`) and values with `toJSON`, functions and symbols.
- What `Number()` makes of texts that are not decimal integers: header numbers go through a parameter of which only decimals are assumed.
- Ed25519 itself, the malleability of signatures, and private keys: an ideal signature takes their place.
- `parseKeyRegistry`, `createParticipantAuth` and the default time-to-live: the resolver, clock and times are parameters.
- JsonText.ParseOfPrint: JavaScript lists the keys of an object that look like array indices first, in numeric order; the model keeps the order of the text.
- Canonicalization.CanonicalReadsBack: the same, for the order in which the parsed object lists such keys; its canonical text does not depend on that.
- The Fastify routes, rate limits, transports and environment of all services, but for the BAP's callback routes and the providers' request routes.
- The Access Manager's use of message authentication in its own routes: the same `verifyMessage` in front of other calls.
- Networks in which a registry holds the key of someone who does not run this code: whoever holds such a key can sign anything.
- Provenance.GrantsAreConfirmedExactly: what the provider was asked is left open, because `Provenance.ReroutedSelectIssues` shows that it may be anything.
- The messages that the callback builders compute (offers, contracts, fulfilment) and `extractIntent`: they are parameters of a callback; only its context takes part in correlation.
- `search` aggregation and the `select` and `init` wrappers: they read a resolved fan-out, of which the model says everything.
- The schema of catalogs, and the error texts of refusals. Which texts are URLs, UUIDs, timestamps and durations is a parameter of the schemas.
- `parsePresentedGrant` and `encodePresentedGrant`: library wrappers around base64url and JSON.
- `BppCatalog.resolveFile`: any partial function from resource, offer and scope kind to a file.
- `PostgresRevocationStore.revoke` of the provider side: the shared table is written by the Access Manager's transaction.
- Postgres itself: saves are single steps, a `SELECT ... FOR UPDATE` that ends its transaction at once is one step with its rollback, and any transaction may fail at any point, by deadlock or otherwise.
- The 32-bit range of `downloads_used` and the 64-bit range of times in Postgres.
- Aliasing of records held by callers: the in-memory stores copy on the way in and out, so records are values.
- `confirm` as a class method: its two halves around the await are steps of a machine over values, next to the orchestrator class.
- MessageAuth.AcceptedOnce: single use is stated only until the cache's clock passes the first expiry, because the cache forgets the nonce then; `Participants.SingleUseExactly` gives the exact condition for more.
- The MCP server, gateway, web application, document loader and key generation.
