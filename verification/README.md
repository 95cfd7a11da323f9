# Verification of the stateful cores of the store platform

This project models, in Dafny 4.11, the small stateful modules of the store-automation platform
whose promises are about whole runs rather than about one call, and proves those promises for
every input, every schedule and every run of the model.

| file | component |
|---|---|
| `KeyedMutex.dfy` | the promise-chain lock, cut at its suspension points, as a transition system and as an object |
| `WebhookTenancy.dfy` | inbound webhook admission: reserve, refuse, release, expire, sweep |
| `OrderRoute.dfy` | the order webhook route as the driver of that protocol |
| `Base32.dfy` | Base32 with the unmasked 32-bit accumulator; the TOTP counter bytes and truncation |
| `MarkupEscape.dfy` | entity escaping and the two-layer escape for inline handler arguments |
| `ToastSanitizer.dfy` | toast markup: escape everything, rebuild only our own icons |
| `Csv.dfy` | the quote-aware CSV reader against a printer of section 2 of RFC 4180 |
| `RateLimiter.dfy` | the trimmed sliding-window limiter against one that forgets nothing |
| `LoginThrottle.dfy` | the per-account login throttle and the login that drives it |
| `RetryQueue.dfy` | the outbound webhook retry queue |
| `Privacy.dfy` | customer redaction and export over the row store |
| `RedisStore.dfy` | a Redis collection (hashes beside an index set) against a plain map |
| `PasswordReset.dfy` | issuing, redeeming and voiding reset tokens, and the sessions they revoke |
| `ResetInterleaving.dfy` | the same with every redemption cut in two at its await on the password hash |
| `KeyOrder.dfy`, `Whitespace.dfy`, `Wrappers.dfy` | insertion order of a JavaScript Map; what `trim` removes; `Option` |

`dafny verify dfyconfig.toml` checks everything.

Each stateful component appears twice: as functions from state to state, about which the lemmas
speak, and as a class whose methods update their fields the way the source does and are proved
equal to those functions. What the environment decides (clock readings, network replies, random
tokens, which storage calls throw, the order in which SMEMBERS answers) is an input. Timestamps
are integers in milliseconds. SHA-256 is taken to be injective.

## What the proofs turned up

Where a promise does not hold of the code as it stands, the model keeps the code and the lemma
states exactly when the promise holds.

- Admission: if deleting an expired reservation throws, the old row keeps shadowing the new one
  and the body can be admitted twice within 24 hours (`WebhookTenancy.FailedDeleteAdmitsTwice`).
  A fresh admission is exclusive for 24 hours exactly when no stale row was left in front of it
  (`WebhookTenancy.FreshIsExclusiveIff`); the same question for the order's effect, which also
  passes the route's sweep, is answered by `OrderRoute.EffectIsExclusiveIff`.
- Order route: after a thrown attempt whose release failed in storage too, every retry within the
  24 hours is answered as a duplicate, and the order is lost for that long (`OrderRoute.RetryAfterThrow`).
- Rate limiter: the cap on tracked keys holds exactly when `maxKeys` is at least one
  (`RateLimiter.SizeCapIff`). The bound of `max` admissions per window holds over all runs with at
  most `n` distinct keys exactly when the map has room for `n` keys: one key more, and a key can be
  evicted and start afresh within its window (`RateLimiter.BoundKeptIff`).
- Login throttle: the doubling backoff described in the file's comments never starts on the login
  path, because a locked account is not checked and an expired lockout restarts the count
  (`LoginThrottle.LoginNeverDoubles`); failures recorded directly do double it
  (`LoginThrottle.DirectFailuresDouble`). A threshold of zero acts as one with the base time doubled
  (`LoginThrottle.LocksForBaseTimeIff`). A failure of another account can evict a running lockout
  when the map is full (`LoginThrottle.OtherFailureKeepsIff`, `LoginThrottle.EvictionUnlocks`), so
  that deadlines are kept over all runs with at most `n` failing accounts exactly when the map has
  room for `n` (`LoginThrottle.DeadlinesKeptIff`). An empty email is never counted and never locked
  (`LoginThrottle.EmptyEmailIsNeverLocked`).
- Retry queue: the waits count from the start of a pass, not from the failed delivery. The 156
  minutes from the first failure to the dead letter are promised after `enqueue`
  (`RetryQueue.SafeAfterEnqueue`); after a manual retry they are promised exactly when the first
  failure came at the pass's start or the pass went on for another minute
  (`RetryQueue.SafeAfterManualRetryIff`, with the failing run in `RetryQueue.ManualRetryDiesEarly`).
- Redaction: an identifier survives exactly when the placeholder "anon" or "anon:<row id>" is
  itself one of the customer's identifiers (`Privacy.RedactionCompleteIff`,
  `Privacy.PlaceholderCustomerSurvives`). `updatedAt` changes with every scrub, so it is part of the
  frame. The export, described as the mirror of redaction, agrees with it in number exactly when no
  profile matches by phone only (`Privacy.ExportMirrorsRedactionIff`, `Privacy.SharedPhoneIsNotExported`).
- Redis: rows and index share one key space, so the id "_index" is the index. Deleting that id
  drops the whole index (`RedisStore.DeleteKeepsIndexIff`). Inserting it into a collection that has
  an index stores nothing; inserting it into an empty one puts the row where the index belongs, and
  from then on no row is indexed until that key is freed (`RedisStore.InsertStoresIff`,
  `RedisStore.IndexRowHidesEverything`). An unfiltered count is the number of rows plus that of expired
  rows still indexed (`RedisStore.CollectionRefinesPlainMap`).
- Password reset: sessions are revoked exactly for accounts whose id is not the empty string
  (`PasswordReset.SuccessClearsTheAccount`). `resetPassword` awaits the hash between looking the
  token up and burning it. A token issued once is redeemed at most once exactly when no redemption
  of it passes its checks while another of it is hashing (`ResetInterleaving.SingleUseIff`); two that
  overlap both succeed (`ResetInterleaving.OverlapRedeemsTwice`). A new token issued to the account
  during the hash does not void the old one: the old one still sets the password, and the new reset
  is outstanding after that success (`ResetInterleaving.OvertakenRedemption`). A finishing redemption
  is of the latest token exactly when no issue has overtaken it
  (`ResetInterleaving.RedeemsTheLatestIff`), and leaves a reset behind exactly when one that overtook
  it stands (`ResetInterleaving.FinishClearsTheAccountIff`).

## Model

| member | source | states |
|---|---|---|
| `KeyedMutex.Mutex.Enter` | src/storage/keyedMutex.js:50-58 | the synchronous prefix of `run` is the arrival step: it takes the key's tail as `previous` and installs its own |
| `KeyedMutex.Mutex.SettleTail` | src/storage/keyedMutex.js:57 | a tail settles, in one step, after its predecessor's tail and its own release |
| `KeyedMutex.Mutex.Resume` | src/storage/keyedMutex.js:60-63 | the body starts only when `previous` has settled |
| `KeyedMutex.Mutex.RunSection` | src/storage/keyedMutex.js:63 | a body runs from await to await, reading and writing the shared value as it is at that moment |
| `KeyedMutex.Mutex.Finally` | src/storage/keyedMutex.js:64-69 | release, and clear the key only if the tail is still this call's own |
| `KeyedMutex.SectionSeesLastWrite` | src/storage/keyedMutex.js:10-17 | nothing but the lock keeps calls apart: a section sees what a section of another call on its key has just written, in any state that lets both run |
| `KeyedMutex.InvAlways` | src/storage/keyedMutex.js:49-70 | in every state of every interleaving: `tails` names the latest unfinished call of each key, `previous` is the call just before on the key, and whoever has started has nobody unfinished ahead |
| `KeyedMutex.ExclusiveAndInOrder` | src/storage/keyedMutex.js:49-70 | at most one body per key is between its wait and its release, and bodies of a key start in the order `run` was called, rejections included |
| `KeyedMutex.SerialAlways` | src/storage/keyedMutex.js:7-17 | at every moment the shared value is what the calls would have made of it one after the other, although sections of other keys and new arrivals interleave |
| `KeyedMutex.NoLostUpdate` | src/storage/keyedMutex.js:7-17 | once the calls on a key have drained, the value is the sequential fold of their bodies in arrival order, whatever the interleaving |
| `KeyedMutex.StockCountsEverySale` | src/storage/keyedMutex.js:10-17 | concurrent read-yield-write sales of one product leave the initial stock minus every quantity |
| `KeyedMutex.AtMostOneRowPerKey` | src/storage/keyedMutex.js:15-17 | concurrent insert-if-absent bodies never make a second row, at any moment |
| `KeyedMutex.ArrivalsAreTickets` | src/storage/keyedMutex.js:50-58 | no call is dropped, duplicated or reordered between `run` and its body |
| `KeyedMutex.RejectionsAreTheBodysOwn` | src/storage/keyedMutex.js:45-64 | a finished call has rejected exactly if its body would have rejected running alone after the calls before it: no rejection is swallowed, invented or inherited |
| `KeyedMutex.Progress` | src/storage/keyedMutex.js:60-69 | while a call is unfinished, some step of it or of a call ahead of it on the same key is enabled: no deadlock, no waiting across keys or for later calls |
| `KeyedMutex.AheadWorkStep` | src/storage/keyedMutex.js:49-70 | no step, a new call included, adds to the work of a call and of those ahead of it on its key, and each of their own steps takes some away |
| `KeyedMutex.NoStarvation` | src/storage/keyedMutex.js:49-70 | however many calls keep arriving, every continuation holds at most that much work in steps of the call and of those ahead, and when it is used up the call is done |
| `KeyedMutex.NoEndlessRun` | src/storage/keyedMutex.js:60-69 | every step consumes work, so a schedule without new calls is no longer than the work there was |
| `KeyedMutex.NothingLeftBehind` | src/storage/keyedMutex.js:64-75 | a key is in `tails` exactly while its latest call is unfinished; when nothing can move, every call is done and the size is 0 |
| `WebhookTenancy.AssertTenant` | src/server/webhookTenancy.js:138-176 | a delivery passes exactly when every claim is absent, unknown, or owned by the addressed store |
| `WebhookTenancy.FirstRefusingClaimDecides` | src/server/webhookTenancy.js:146-168 | the first claim that is evidence against the store decides: 503 when its lookup failed, 403 when it is another store's |
| `WebhookTenancy.Deliveries.AdmitDelivery` | src/server/webhookTenancy.js:178-248 | tenant check, lookup, stale delete, 409, duplicate and insert, with each storage call throwing or not, is the admission step |
| `WebhookTenancy.Deliveries.ReleaseDelivery` | src/server/webhookTenancy.js:257-267 | the release step removes the found row, and says whether it did |
| `WebhookTenancy.Deliveries.SweepExpiredDeliveries` | src/server/webhookTenancy.js:278-295 | one deletion per day bucket back from two to eight removes exactly the rows in those buckets, skipping failing days, at most hourly unless forced |
| `WebhookTenancy.AnswersOverRuns` | src/server/webhookTenancy.js:178-248 | over every run with working deletes: 403 or 503 by the claims, 503 when storage fails, a duplicate or 409 exactly while a row of the body is less than 24 hours old, and otherwise admitted |
| `WebhookTenancy.ReleaseMeans` | src/server/webhookTenancy.js:257-267 | over every run with working deletes a release frees the digest exactly when it says so, and touches no other digest |
| `WebhookTenancy.SweepClears` | src/server/webhookTenancy.js:278-295 | a sweep that is forced, or an hour after the last one that ran, deletes exactly the rows of two to eight UTC days back whose deletion does not fail; any other deletes nothing |
| `WebhookTenancy.SweepTakesOnlyExpired` | src/server/webhookTenancy.js:278-295 | a row that a sweep deletes had expired before `now` |
| `WebhookTenancy.UnforcedSweepsAreSpaced` | src/server/webhookTenancy.js:278-282 | in every run, an unforced sweep that runs comes at least an hour after any earlier one that ran |
| `WebhookTenancy.NoRowOutlivesTheEighthDay` | src/server/webhookTenancy.js:60-76 | if a complete sweep runs in every seven consecutive UTC days, no row outlives the eighth day after its bucket |
| `WebhookTenancy.RunKeepsWellFormed` | src/server/webhookTenancy.js:226-248 | in every run every row's bucket and expiry come from its receipt time and its id names it alone |
| `WebhookTenancy.RunKeepsUnique` | src/server/webhookTenancy.js:196-248 | in every run with working deletes there is at most one row per digest |
| `WebhookTenancy.NoFreshBeforeExpiry` | src/server/webhookTenancy.js:196-224 | while a row reserves a digest and nobody releases it, no delivery of the digest is admitted afresh before it expires |
| `WebhookTenancy.FreshAdmissionsAreADayApart` | src/server/webhookTenancy.js:178-248 | over every run: two fresh admissions of one digest with no release between them are at least 24 hours apart, when deletes of expired rows succeed |
| `WebhookTenancy.FreshIsExclusiveIff` | src/server/webhookTenancy.js:196-248 | an admission is the only fresh one for 24 hours, over all continuations without a release, exactly when it left no stale row of its digest standing |
| `WebhookTenancy.FailedDeleteAdmitsTwice` | src/server/webhookTenancy.js:200-206 | the run in which a throwing delete lets one body in twice within a millisecond |
| `WebhookTenancy.WhileReservedAlone` | src/server/webhookTenancy.js:196-224 | over every run, from a fresh admission that left no other row of its digest until its 24 hours end or it is released: another store gets 409, the same store gets `duplicate`, and the table does not change |
| `WebhookTenancy.WhileReserved` | src/server/webhookTenancy.js:178-248 | the same over every run in which deletes of expired rows succeed |
| `WebhookTenancy.RefusalLeavesNoRow` | src/server/webhookTenancy.js:178-248 | a refused delivery leaves no new row |
| `OrderRoute.Route.Post` | src/server/createApp.js:859-888 | the route is admit, opportunistic sweep, process, and release after a throw, with its replies and effects |
| `OrderRoute.ReplyMeans` | src/server/createApp.js:859-888 | 200 exactly when the effect was applied or the body is a duplicate, `duplicate` exactly then, 400 after a decision against the order or a throw, and the refusal's own status |
| `OrderRoute.OkIsBacked` | src/server/createApp.js:866-886 | over every run, an attempt told 200 applied the effect or is backed by one admitted for the same store and body within 24 hours whose row has stood ever since and was not released |
| `OrderRoute.OkMeansDecided` | src/server/createApp.js:875-886 | while deletes and releases reach storage, every 200 stands for a committed or declined attempt: none that threw is told 200, now or through a retry |
| `OrderRoute.SweepAndReleaseCommute` | src/server/createApp.js:1147-1151 | the table is the same whether the sweep that is not waited for falls before or after the release |
| `OrderRoute.HandleKeepsSound` | src/server/createApp.js:1135-1154 | every attempt keeps rows well formed and unique |
| `OrderRoute.AdmittedLeavesReservation` | src/server/createApp.js:859-888 | after an attempt admitted with no other row of its body left, exactly its own row stands for the digest, or none if processing threw and the release went through |
| `OrderRoute.EffectIsExclusiveIff` | src/server/createApp.js:859-888 | an applied effect is the only one of its body for 24 hours, over all continuations, exactly when the row of its digest that the attempt leaves in front lives that long |
| `OrderRoute.EffectAtMostOncePerWindow` | src/server/createApp.js:859-888 | over every run, however often and for whichever stores a body is presented, its effect is applied again at least 24 hours after an attempt that left no stale row of its digest |
| `OrderRoute.EffectOncePerWindowWithDeletes` | src/server/createApp.js:859-888 | so any two applications are that far apart when deletes of expired rows succeed |
| `OrderRoute.RetryAfterThrow` | src/server/createApp.js:880-886 | over every run, after a thrown attempt that left no other row of its body, and any traffic that does not get the body admitted again, a retry is admitted afresh exactly when the release reached storage or 24 hours are over; otherwise it is a duplicate, or 409 for another store |
| `OrderRoute.RetryAfterDecision` | src/server/createApp.js:875-879 | over every run, after a committed or declined attempt that left no other row of its body, and any traffic at all, the store's retry is a duplicate and any other store gets 409 until 24 hours are over; from then on it is admitted afresh unless the body already was |
| `Base32.Base32Encode` | src/server/twoFactorAuth.js:28-44 | with the accumulator wrapping at 32 bits, symbol by symbol the output carries the input's bits in order, zero-filled, in ceil(8n/5) symbols |
| `Base32.Base32Decode` | src/server/twoFactorAuth.js:46-60 | the output is the whole octets carried by the alphabet symbols of the upper-cased input |
| `Base32.RoundTrip` | src/server/twoFactorAuth.js:28-60 | decoding undoes encoding for every byte string of any length |
| `Base32.EncodingIsUnique` | src/server/twoFactorAuth.js:28-44 | the bit-level specification determines the encoded text |
| `Base32.TakeIsOr` | src/server/twoFactorAuth.js:33-52 | adding into the bits that the shift has freed is the bitwise OR of the loops |
| `Base32.DecodingIgnoresInsertions` | src/server/twoFactorAuth.js:47 | inserting any ASCII character outside the alphabet and its lower case changes no decoding |
| `Base32.DecodingIgnoresCase` | src/server/twoFactorAuth.js:47 | ASCII case changes no decoding |
| `Base32.PackCounter` | src/server/twoFactorAuth.js:63-68 | the backward loop leaves in the buffer the counter as an eight-byte big-endian number |
| `Base32.Truncated` | src/server/twoFactorAuth.js:70-76 | the shifts, masks and ORs read the four bytes at the offset as a 31-bit big-endian number, modulo a million |
| `MarkupEscape.EscRoundTrip` | public/js/app.js:63-67 | entity-decoding the escaped text gives back the text |
| `MarkupEscape.EscInjective` | public/js/app.js:63-67 | different texts have different escapes |
| `MarkupEscape.EscIsInert` | public/js/app.js:63-67 | escaped text holds no angle bracket and no quote of either kind |
| `MarkupEscape.PassesArePerCharacter` | public/js/app.js:80-89 | the chain of five replacement passes equals one per-character map |
| `MarkupEscape.JsAttrStaysInAttribute` | public/js/app.js:68-89 | the escaped argument stays inside its double-quoted attribute |
| `MarkupEscape.JsAttrRoundTrip` | public/js/app.js:68-89 | reading the attribute and then the single-quoted literal gives back the argument exactly when it contains no NUL, meeting no bare quote or line terminator |
| `ToastSanitizer.SvgPatterns` | public/js/app.js:217-218 | the escaped wrapper is the pattern the sanitizer searches for |
| `ToastSanitizer.MatchIsLazy` | public/js/app.js:218 | the match is what lazy backtracking finds: it exists exactly when the text decomposes along the pattern, with the shortest first part and for that the shortest second |
| `ToastSanitizer.MatchInEscaped` | public/js/app.js:217-222 | the pattern matches escaped text exactly where raw markup stood in the message, with the escaped captures |
| `ToastSanitizer.NoMatchInLongerName` | public/js/app.js:218 | no match starts where the tag name goes on after `svg` |
| `ToastSanitizer.ReplacementIsOwnIcon` | public/js/app.js:211-222 | a captured body is replaced exactly when it is the body of a table icon, by that icon rebuilt |
| `ToastSanitizer.OutputIsTextAndIcons` | public/js/app.js:210-224 | for every message the output is fully escaped text interleaved with exact icons of the table |
| `ToastSanitizer.StripRemoves` | public/js/app.js:213-216 | exactly the C0 controls other than tab, line feed and carriage return, and DEL, are removed |
| `ToastSanitizer.PlainMessageIsEscaped` | public/js/app.js:210-224 | a message without control characters and without an opening svg tag is shown as its escaped text, without any markup |
| `ToastSanitizer.IconAndTextComeThrough` | public/js/app.js:194-224 | an icon of the table followed by control-free text without an opening svg tag comes out as that icon and the escaped text |
| `Csv.ParseCSV` | src/server/integrations.js:101-132 | the five-variable loop reads as the character-by-character state machine, closes the last line and drops blank rows |
| `Csv.BlankRowsGo` | src/server/integrations.js:131 | of the rows read, exactly those stay that have a cell with a character other than white space |
| `Csv.ParsingUndoesPrinting` | src/server/integrations.js:101-132 | for every table printed with any mixture of quoted and bare parts within and between cells, carriage returns anywhere, LF and CRLF, with or without a final break, parsing gives back its rows less the blank ones |
| `Csv.RoundTrip` | src/server/integrations.js:101-132 | and exactly the rows when each has a non-blank cell |
| `RateLimiter.Limiter.Handle` | src/server/security.js:156-188 | one request: eviction of the oldest key, filter, trim, push and the decision |
| `RateLimiter.Limiter.SweepPass` | src/server/security.js:143-150 | the timer's loop over the keys is the sweep step |
| `RateLimiter.SweepKeepsSurvivors` | src/server/security.js:143-150 | a sweep keeps of every key the timestamps inside the window and forgets the keys that have none |
| `RateLimiter.ListsAreCapped` | src/server/security.js:132-171 | after any run no key holds more than the per-key cap of timestamps |
| `RateLimiter.RequestAgrees` | src/server/security.js:132-174 | the trimmed list of a key decides like the full one and goes on agreeing with it |
| `RateLimiter.TrimmedEqualsUntrimmed` | src/server/security.js:131-190 | on every run with at most `maxKeys` distinct keys and sweeps anywhere, each decision is that of a limiter that keeps every timestamp forever |
| `RateLimiter.AtMostMaxPerWindow` | src/server/security.js:131-190 | at most `max` admissions of a key in any window of `windowMs`, on every run with at most `maxKeys` distinct keys |
| `RateLimiter.BoundKeptIff` | src/server/security.js:131-190 | that bound holds over all runs with at most `n` distinct keys exactly when `n` is at most `maxKeys` (at most one for a cap of zero), or nothing is allowed, or the window is empty |
| `RateLimiter.OverrunIsAdmitted` | src/server/security.js:156-188 | the failing run for every cap and allowance: a key uses its allowance up, `maxKeys` others come, and it is admitted once more, all at one time |
| `RateLimiter.EvictionAdmitsTooMany` | src/server/security.js:160-163 | its smallest instance: with room for one key and an allowance of one, two keys that take turns |
| `RateLimiter.SizeCapIff` | src/server/security.js:160-163 | the number of tracked keys never exceeds `maxKeys`, over all runs, exactly when `maxKeys` is at least one |
| `RateLimiter.EvictsTheLongestTracked` | src/server/security.js:160-163 | after any run a request evicts at most one other key, only for a new key in a full map, and the one that was entered before all that stay |
| `LoginThrottle.Throttle.FindOldest` | src/server/loginThrottle.js:60-70 | the scan finds the first of the least recently touched records |
| `LoginThrottle.Throttle.EvictIfNeeded` | src/server/loginThrottle.js:60-71 | one such record is evicted, and only above the cap |
| `LoginThrottle.Throttle.EntryFor` | src/server/loginThrottle.js:74-82 | reading a record drops it when its lockout has expired |
| `LoginThrottle.Throttle.CheckStatus` | src/server/loginThrottle.js:87-100 | status as reported, and what asking does to the map |
| `LoginThrottle.Throttle.Fail` | src/server/loginThrottle.js:106-130 | counting, doubling, locking, storing and evicting as one step, and the report it returns |
| `LoginThrottle.Throttle.Succeed` | src/server/loginThrottle.js:133-136 | a success forgets the account |
| `LoginThrottle.Throttle.PruneAll` | src/server/loginThrottle.js:139-144 | the loop over all keys is the prune step |
| `LoginThrottle.PruneDropsExpired` | src/server/loginThrottle.js:139-144 | pruning removes exactly the records whose lockout has expired |
| `LoginThrottle.SuccessForgets` | src/server/loginThrottle.js:133-136 | after any run a success leaves no record of the account, and every other account's as it was |
| `LoginThrottle.VictimIsLeastRecent` | src/server/loginThrottle.js:60-71 | a record is evicted exactly above the cap, and none was touched before it |
| `LoginThrottle.SizeIsCapped` | src/server/loginThrottle.js:34-71 | after any run of calls the map holds at most `maxEntries` records |
| `LoginThrottle.WaitIsCapped` | src/server/loginThrottle.js:87-130 | after any run no reported wait exceeds `maxLockoutMs` |
| `LoginThrottle.DeadlineNeverEarlier` | src/server/loginThrottle.js:106-124 | after any run one more failure of the account neither moves its unexpired deadline earlier nor loses it to eviction |
| `LoginThrottle.OtherFailureKeepsIff` | src/server/loginThrottle.js:60-71 | after any run a failure of another account keeps the record as it is exactly when it is not the one evicted to make room |
| `LoginThrottle.DeadlineOverRun` | src/server/loginThrottle.js:60-136 | over any run that neither evicts nor clears the account an unexpired deadline is never lost and never earlier |
| `LoginThrottle.DeadlineKeptWithFewAccounts` | src/server/loginThrottle.js:60-136 | the same, after any run, while failures are counted for at most `maxEntries` accounts and the account has no success |
| `LoginThrottle.EvictionUnlocks` | src/server/loginThrottle.js:60-71 | the smallest failing run, for every pair of accounts and every time in the lockout: with room for one account, another's failure unlocks it |
| `LoginThrottle.DeadlinesKeptIff` | src/server/loginThrottle.js:60-136 | deadlines are kept over all runs in which at most `n` accounts fail exactly when `n` is at most `maxEntries`, or there are no deadlines at all (no room, or lockouts of no time) |
| `LoginThrottle.OneAccountTooMany` | src/server/loginThrottle.js:60-124 | the failing run for every cap and threshold: an account locks itself out, and `maxEntries` others failing once each at that time unlock it |
| `LoginThrottle.DirectFailuresDouble` | src/server/loginThrottle.js:110-121 | after any run, one more direct failure counts below the threshold, locks for the base time at it, and at any time within a lockout doubles the last wait up to the ceiling |
| `LoginThrottle.StreakCounts` | src/server/loginThrottle.js:106-131 | after any run, a streak of failures at any times within the running lockouts adds their number, and the deadline is the base time doubled for each beyond the threshold |
| `LoginThrottle.DriveLogin` | src/server/auth.js:266-319 | the password-only login is gate, check, and failure or success |
| `LoginThrottle.GrantStartsOver` | src/server/auth.js:266-319 | over every run, after a granted login no more failures count against the account than have come since, and only a full new round of them can lock it |
| `LoginThrottle.GrantThenRound` | src/server/auth.js:266-319 | and, undisturbed, all of those count: the next failure reports one, the `n`th reports `n`, and the one that completes the round locks |
| `LoginThrottle.AllowancePays` | src/server/auth.js:273-303 | every check of an account is paid for by what its counter and its lockout leave |
| `LoginThrottle.GuessRate` | src/server/auth.js:266-319 | in any interval of length T an account's failed checks number at most maxAttempts * (T / L + 1), L the base lockout under its ceiling, as long as its record is not evicted or cleared |
| `LoginThrottle.GuessRateFewAccounts` | src/server/loginThrottle.js:5-28 | the same bound whenever at most `maxEntries` accounts are tried and no password for the account is right |
| `LoginThrottle.LoginNeverDoubles` | src/server/loginThrottle.js:114-120 | over any run of logins no record counts past the threshold and every lockout lasts the base wait, which is the base time for a threshold of at least one and twice it for zero |
| `LoginThrottle.LocksForBaseTimeIff` | src/server/loginThrottle.js:114-120 | lockouts set by logins never exceed the base time, over all runs, exactly when the threshold is at least one, the ceiling leaves nothing to double, or no record is kept |
| `LoginThrottle.EmptyEmailIsNeverLocked` | src/server/loginThrottle.js:88-109 | the empty email is never locked and never counted; on the login path only the missing account turns it away |
| `RetryQueue.Service.Add` | src/server/webhookRetryQueue.js:140-177 | insert, post at once, and settle or schedule the first retry |
| `RetryQueue.Service.Record` | src/server/webhookRetryQueue.js:89-127 | what one delivery of a pass does to its row and to the notifications |
| `RetryQueue.Service.ProcessQueue` | src/server/webhookRetryQueue.js:74-131 | the loop over the due rows settles each of them once, leaves all others, and reports the counts |
| `RetryQueue.Service.Retry` | src/server/webhookRetryQueue.js:233-247 | a dead letter, and nothing else, goes back to pending with its counters reset |
| `RetryQueue.Service.Clean` | src/server/webhookRetryQueue.js:253-265 | old settled rows are flagged, nothing else changes, and the count is theirs |
| `RetryQueue.Service.Summary` | src/server/webhookRetryQueue.js:213-227 | the three counts add up to the total and the next retry is the earliest of the pending ones |
| `RetryQueue.EnqueueAdds` | src/server/webhookRetryQueue.js:140-177 | an accepted enqueue adds one entry, delivered at the time of a good reply and otherwise due a minute after a bad one; any other changes nothing |
| `RetryQueue.PassSettles` | src/server/webhookRetryQueue.js:74-128 | after a pass a due entry with a good reply is delivered at its time and otherwise unchanged; one with a bad reply is a dead letter at its fifth attempt and else waits 1, 5, 30 or 120 minutes from the pass's start; the others stay |
| `RetryQueue.PassReports` | src/server/webhookRetryQueue.js:85-131 | a pass reports as delivered and as failed exactly the entries that it moved there |
| `RetryQueue.DeliveredExactlyOnce` | src/server/webhookRetryQueue.js:92-97 | over every run at most one post of an entry succeeds, and the entry is delivered, at the time of that reply, exactly when one did |
| `RetryQueue.RetriedIsDue` | src/server/webhookRetryQueue.js:233-247 | a manually retried dead letter starts afresh and is due from that moment, not before |
| `RetryQueue.CleanupFlags` | src/server/webhookRetryQueue.js:253-265 | exactly the delivered and dead entries older than the given days are flagged |
| `RetryQueue.CleanupCounts` | src/server/webhookRetryQueue.js:253-265 | and the reported count is their number |
| `RetryQueue.ClearedIsSettled` | src/server/webhookRetryQueue.js:253-265 | over every run without a manual retry of it, a flagged entry is delivered or dead |
| `RetryQueue.AllSettled` | src/server/webhookRetryQueue.js:85-128 | settling the due rows one after the other is settling each due row once |
| `RetryQueue.DeadAfterExactlyFive` | src/server/webhookRetryQueue.js:18-26 | after any run a dead letter has failed exactly five times since it was enqueued or manually retried, a pending row fewer than five, its retry counter is the passes' failures that led to another try, and one notification was pushed per death |
| `RetryQueue.DeliveredIsFinal` | src/server/webhookRetryQueue.js:92-97 | a delivered row is never posted, retried or dead-lettered again |
| `RetryQueue.NothingIsLost` | src/server/webhookRetryQueue.js:213-265 | pending, delivered and dead letters together are the accepted enqueues, after every run |
| `RetryQueue.NeverDeadEarlier` | src/server/webhookRetryQueue.js:99-127 | no run dead-letters a row before its next retry time plus the waits still ahead |
| `RetryQueue.EarliestDeathIsReached` | src/server/webhookRetryQueue.js:99-127 | and some run does so at exactly that time |
| `RetryQueue.SafeUntilIff` | src/server/webhookRetryQueue.js:99-127 | so a row is safe until a given time, over all runs, exactly when its earliest death is not before it |
| `RetryQueue.SafeAfterEnqueue` | src/server/webhookRetryQueue.js:169-177 | a first failure inside `enqueue` leaves 156 minutes before the dead letter |
| `RetryQueue.SafeAfterManualRetryIff` | src/server/webhookRetryQueue.js:120-127 | a first failure in a pass leaves 156 minutes exactly when it came at the pass's start or the pass ended a minute or more after it |
| `RetryQueue.ManualRetryDiesEarly` | src/server/webhookRetryQueue.js:120-127 | the failing run: any dead letter, manually retried, whose first post fails 5 ms into the pass can be dead 5 ms too early |
| `Privacy.PlatformStore.ResolveIdentifiers` | src/server/privacy.js:168-177 | the customer id with the profile's email and phone |
| `Privacy.PlatformStore.RedactCustomerData` | src/server/privacy.js:208-264 | the interlocks, and the loops over collections and rows as the redaction step, with its counts |
| `Privacy.PlatformStore.CollectCustomerData` | src/server/privacy.js:273-308 | the loop over collections as the export, with its total |
| `Privacy.RedactAt` | src/server/privacy.js:219-253 | the loops patch exactly the store's matching rows of the inspected collections |
| `Privacy.ScrubbedHitIff` | src/server/privacy.js:184-200 | a scrubbed row still matches exactly when a placeholder is an identifier |
| `Privacy.HitHasPatch` | src/server/privacy.js:245-247 | a row that matches always has something to scrub |
| `Privacy.RedactionReaches` | src/server/privacy.js:106-253 | for all tables, exactly the store's rows outside the platform's own collections that carry the customer's id, or the email or phone of the customer's profile, in an identifying field lose every such field and are stamped; every other row stays |
| `Privacy.ExportReaches` | src/server/privacy.js:273-308 | an export holds exactly those rows, but for profiles that carry the phone only |
| `Privacy.RedactionCompleteIff` | src/server/privacy.js:202-253 | after a redaction some row still matches exactly when a matching row's placeholder was itself an identifier |
| `Privacy.PlaceholderCustomerSurvives` | src/server/privacy.js:184-200 | the failing case: a customer whose id is the placeholder is found again |
| `Privacy.RedactionIsComplete` | src/server/privacy.js:208-308 | if no identifier is a placeholder: nothing matches any more, an export finds nothing, and a second redaction changes and counts nothing |
| `Privacy.RedactionErasesFields` | src/server/privacy.js:106-200 | in a matching row ids become placeholders and every email, phone and name field is emptied, a lead's own name included |
| `Privacy.RedactionErasesProfile` | src/server/privacy.js:228-243 | a matching profile is renamed, emptied and marked as deleted |
| `Privacy.RedactionFrame` | src/server/privacy.js:58-136 | no row appears, goes or moves; global and unlisted collections, other stores and rows that do not match stay; in a matching row only identifier fields, or the profile's own, and `updatedAt` change |
| `Privacy.ReportCountsMatches` | src/server/privacy.js:249-264 | the report's total and each collection's count are the rows that matched before |
| `Privacy.ExportHolds` | src/server/privacy.js:273-308 | an export holds, of every inspected collection, exactly the store's rows carrying an identifier, each once, and its total is their number |
| `Privacy.ExportMirrorsRedactionIff` | src/server/privacy.js:266-308 | for all tables the export's total never exceeds the redaction's, and equals it exactly when no profile of the store matches by phone only |
| `Privacy.SharedPhoneIsNotExported` | src/server/privacy.js:286-290 | the failing case: of two profiles sharing a phone a redaction scrubs both and an export holds one |
| `RedisStore.RedisCollection.InsertRow` | src/storage/redisStore.js:92-115 | the pipeline sets the hash and adds to the index |
| `RedisStore.RedisCollection.Find` | src/storage/redisStore.js:136-165 | the rows of the listed ids that still have data and match, in SMEMBERS order |
| `RedisStore.RedisCollection.FindOne` | src/storage/redisStore.js:172-175 | the first of them |
| `RedisStore.RedisCollection.UpdateRow` | src/storage/redisStore.js:177-184 | read, merge, write back, nothing for a missing row |
| `RedisStore.RedisCollection.UpdateMany` | src/storage/redisStore.js:191-200 | every match is merged and written under its own id |
| `RedisStore.RedisCollection.DeleteRow` | src/storage/redisStore.js:202-208 | the row and its index entry go, and the answer is always true |
| `RedisStore.RedisCollection.DeleteMany` | src/storage/redisStore.js:215-226 | every match and its index entry go, and they are counted |
| `RedisStore.RedisCollection.Count` | src/storage/redisStore.js:228-235 | without a filter the index's size, with one the matches |
| `RedisStore.RedisCollection.ClearAll` | src/storage/redisStore.js:241-251 | all indexed rows and the index go |
| `RedisStore.StepRefines` | src/storage/redisStore.js:92-251 | every operation keeps the key space in step with the plain map and the index equal to its ids and the stale ones |
| `RedisStore.FindAnswers` | src/storage/redisStore.js:136-165 | `find` lists each matching row of the plain map once and nothing else |
| `RedisStore.CollectionRefinesPlainMap` | src/storage/redisStore.js:85-257 | over every run, lookups, finds and filtered counts answer as on a plain map, and an unfiltered count is the rows plus the expired rows still indexed |
| `RedisStore.CountIsExact` | src/storage/redisStore.js:228-230 | unless rows expire, an unfiltered count is exact |
| `RedisStore.MergeReads` | src/storage/redisStore.js:182-195 | a merged record reads the patch where there is one, the old record elsewhere, and the time of the update |
| `RedisStore.UpdateIsRead` | src/storage/redisStore.js:177-184 | after any run an update by id is read back, field by field, under that id and no other |
| `RedisStore.UpdateManyIsRead` | src/storage/redisStore.js:191-200 | and an update by filter under every row that the filter selects and no other |
| `RedisStore.FilterSelects` | src/storage/redisStore.js:136-165 | after any run a find by filter lists exactly the rows whose every named field reads the filter's value, and a delete by it leaves exactly the others |
| `RedisStore.CountAnswers` | src/storage/redisStore.js:172-235 | a filtered count is the number of the rows selected, and `findOne` finds one of them exactly when there is one |
| `RedisStore.DeleteKeepsIndexIff` | src/storage/redisStore.js:86-87 | deleting by id keeps a non-empty collection indexed exactly when the id is not the index's own |
| `RedisStore.InsertKeepsInvIff` | src/storage/redisStore.js:86-107 | an insert keeps rows and index apart exactly when its id is not the index's own |
| `RedisStore.InsertStoresIff` | src/storage/redisStore.js:86-107 | an inserted row can be looked up exactly when its id is not the index's own or there is no index yet, in which case it takes the index's place |
| `RedisStore.IndexRowHidesEverything` | src/storage/redisStore.js:86-251 | after such an insert into an empty collection, over every run that does not free that key, no row is indexed or found, while further inserts are stored unlisted |
| `PasswordReset.AuthService.RequestPasswordReset` | src/server/auth.js:384-414 | a known address with a password gets a new reset in place of its old ones; any other request changes nothing |
| `PasswordReset.AuthService.RevokeUserSessions` | src/server/auth.js:364-369 | the account's sessions go, except for an empty id |
| `PasswordReset.AuthService.ResetPassword` | src/server/auth.js:423-464 | for a redemption in one step: the checks in their order, the burnt rows, the new password, the revocation, and the outcome |
| `PasswordReset.SingleUse` | src/server/auth.js:416-464 | over any run of redemptions in one step, a token is redeemed at most as often as it was issued, so at most once when tokens are fresh |
| `PasswordReset.OneResetPerUser` | src/server/auth.js:400-409 | after any run an account has at most one outstanding reset |
| `PasswordReset.RequestIssuesFor` | src/server/auth.js:384-414 | a request issues a token exactly when the address is well formed and its first user has a password, for that user, in place of the user's old resets |
| `PasswordReset.RedeemsForTheRequester` | src/server/auth.js:384-456 | after any run a redeemed token changes the password of the account it was requested for, less than half an hour after that request |
| `PasswordReset.RedeemedIff` | src/server/auth.js:423-444 | after any run with fresh tokens, a token works exactly when it is the account's last issued one, not presented since, less than half an hour old, the password is acceptable and the account exists |
| `PasswordReset.OutcomeMeans` | src/server/auth.js:423-464 | which answer an attempt gets, and that a success reports the number of the account's sessions |
| `PasswordReset.OnlyTheLatestRedeems` | src/server/auth.js:398-441 | after any run of redemptions in one step, a token works only if it is the latest issued for its account, less than half an hour ago |
| `PasswordReset.SuccessClearsTheAccount` | src/server/auth.js:446-463 | in one step, a success leaves the account no outstanding reset and, its id not being empty, no session, and leaves other accounts, their resets and sessions as they were |
| `PasswordReset.RefusalChangesNothingElse` | src/server/auth.js:426-444 | a refused attempt changes no password and no session, and removes at most the presented token's rows |
| `ResetInterleaving.CheckThenFinish` | src/server/auth.js:430-456 | cut at the await on the hash, check and finish without anything in between are the redemption in one step |
| `ResetInterleaving.FinishedTokenIsVoid` | src/server/auth.js:430-456 | with redemptions cut in two and interleaved in any way, no check of a token passes after a redemption of it has finished, until it is issued again |
| `ResetInterleaving.OverlapRedeemsTwice` | src/server/auth.js:430-456 | two redemptions that both pass their checks before either finishes both succeed, and the later password stands |
| `ResetInterleaving.SingleUseIff` | src/server/auth.js:416-456 | over every run of cut redemptions, a token issued at most once is redeemed at most once exactly when no redemption of it passes its checks while another of it is hashing |
| `ResetInterleaving.FreshSingleUseIff` | src/server/auth.js:396-456 | the same from the empty tables for every token, when every token drawn is new |
| `ResetInterleaving.CheckNeedsLatest` | src/server/auth.js:398-441 | over every run of cut redemptions, a token passes its checks only if it is the latest issued for its account, less than half an hour ago |
| `ResetInterleaving.FinishesForTheRequester` | src/server/auth.js:384-456 | over every run of cut redemptions, a redemption about to finish sets the password of the account its token was requested for |
| `ResetInterleaving.RedeemsTheLatestIff` | src/server/auth.js:398-456 | over every run, the token of a redemption about to finish is its account's latest exactly when none was issued to the account since its checks |
| `ResetInterleaving.FinishClearsTheAccountIff` | src/server/auth.js:446-463 | over every run, what a finish does to passwords, resets and sessions of every account: it leaves its account a reset exactly when one issued since its checks still stands |
| `ResetInterleaving.OneResetInRun` | src/server/auth.js:400-409 | over every run of cut redemptions an account has at most one outstanding reset |
| `ResetInterleaving.OvertakenRedemption` | src/server/auth.js:430-456 | the failing run: a token replaced while its redemption hashes still sets the password, and the new reset is outstanding after that success |

## Left out

- HTTP routing, middleware, headers (including the limiter's `Retry-After`), CORS, OAuth, the shop connectors, crawling and all other UI: input and output around the cores.
- Cryptographic strength: scrypt, HMAC, AES and SHA-256 are not modelled; a digest is identified with what it is a digest of, a stored password with the password.
- The second-factor branch of `login`: `src/server/auth.js:15` imports a function that `src/server/twoFactorAuth.js:232` does not export; the password-only path is modelled.
- Overlapping admissions, overlapping queue passes, overlapping logins and several processes: the code disclaims or does not serialize them, so each of these operations is one step. The keyed mutex is modelled with full interleaving. Password redemption is cut at its await on the hash in `ResetInterleaving.dfy` and interleaved there with requests, other redemptions and sessions; `PasswordReset.dfy` takes it as one step.
- `enqueue` is one step: while it awaits its first post, its row is pending and due at once (src/server/webhookRetryQueue.js:144-158), so a timer pass in that time can post it a second time.
- The parsing of shop domains out of a payload (`normaliseDomain`, `signedShopDomain`) and of emails (`normalizeKey`, the address pattern): the claims, keys and verdicts they yield are inputs.
- `rowsToObjects`, `tieredRateLimiter`, data retention, one-time OAuth tokens and the growth scheduler: the same shapes with easier proofs.
- The bodies of the icon table: the sanitizer is proved for every table with distinct, non-empty names, and for icons without an extra class.
- Row insertion order decides `findOne` where several rows match (deliveries, profiles, users, resets); a Redis-backed store may pick another of them.
- Clock: each operation takes one reading where the source may take two within the same call; a login and a queue pass keep their separate readings.
- The `customers` collection is taken to exist, and the export's convenience keys (first profile, events, deliveries) repeat entries of its per-collection result.
- JSON serialization of Redis rows is the identity; nested values and function-valued filters are not modelled.
- Row stores that throw half-way through a redaction, a queue pass or a password reset; row caps of the in-memory store; a crash between two writes of one operation.
- Numbers are unbounded integers except in Base32: the loss of precision of a JavaScript number beyond 2^53, and of the throttle's power of two beyond the largest double, is not modelled.
- OrderRoute.Route.Post: the sweep that the source starts without waiting for it is one step before processing; that it commutes with the release is proved, its interleaving day by day with other requests is not modelled.
- PasswordReset.AuthService.ResetPassword: one step; `ResetInterleaving.dfy` cuts it at the await on the hash. The checks before that await, and the writes after it, count as one step each, although every store call is awaited.
- PasswordReset.AuthService.RequestPasswordReset: one step; two requests for one account that overlap between the deletion of the old resets and the insertion of the new one would leave two resets outstanding.
- PackCounter: proved for counters that are non-negative integers; other numbers have no big-endian form.
- GuessRate: stated for a positive lockout; with a lockout of zero the rate has no bound to state.
