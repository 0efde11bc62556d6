# Verified model of the gateway's core

This project models the parts of the AI gateway in which state, concurrency or several passes over
data decide whether the system is right, and proves what each of them promises:

- **Payments.** The per-order lock with its reference-counted table, one atomic access per step, and
  on top of it the payment callbacks that settle orders and credit users (`OrderLock`, `Settlement`),
  what each callback does to its order in any interleaving (`Callbacks`), and the amounts an Epay
  order stores and credits (`EpayAmount`).
- **Upstream model lists.** Detecting, selecting, ignoring and applying changes of a channel's model
  list (`ModelNames`, `Upstream`, `UpstreamRules`, `UpstreamSync`), and the batched scan that drives it
  (`BatchScan`).
- **Prices.** The multi-pass comparison of local and upstream prices (`Differences`,
  `PriceRules`, `AnyReport`) and the models.dev candidate selection (`ModelsDev`).
- **Asynchronous tasks.** The Midjourney poller with its compare-and-set refund (`Midjourney`) and
  the video poller with its re-billing (`VideoTask`).
- **Multi-key channels.** Key deletion, disabling and appending (`MultiKey`, `KeyViews`, `KeyAppends`)
  and the paged key status (`KeyPages`).
- **Shared services.** The in-memory rate limiter and its sweeper (`RateLimit`), the Ogg Opus duration
  scanner (`Ogg`), memory and disk body storage (`BodyStorage`), and structs kept as Redis hashes
  (`RedisHash`).

Code that changes things step by step is a class or a method with loops, proved against a function of
its inputs or of its old state; the properties are then lemmas about that function. Protocols are step
systems: a run is any sequence of enabled steps, and the theorems hold at every state of every run.
Clocks, database failures, upstream answers, JSON and regular-expression matching are inputs. Numbers
are unbounded integers and reals except where a width matters (`Ogg`, `RedisHash`).

Some promises do not hold for every input of the code. For those the model keeps the code as it is,
shows an input that breaks the promise, and proves the condition under which it does hold:

- the rate limiter's sweeper can be observed exactly when a window is longer than the expiration plus
  one second;
- an accepted Epay order stores at least the minimum for every request exactly when the minimum in
  tokens is below one or whole;
- after applying a selection a channel is in step with its upstream exactly when none of five named things
  happens to names with commas or names that are patterns; for plain names, exactly when no added name
  contains a comma;
- a Midjourney task is refunded at most once exactly when a response says FAILURE just when it counts
  as failed, provided an answer lists nothing new for a task after its failure;
- a video poll conserves balance and held quota exactly when it does not revive a failed task, bill
  without recording, or record a failure without refunding;
- deleted keys leave the rest of the list intact exactly when the remaining keys survive being written
  as lines and read back; when every key is auto-disabled, deleting them enables them all;
- appending the same keys again changes nothing exactly when the written text settles; a key of several
  lines never does, and is written once more each time;
- memory and disk bodies differ exactly on an empty read at the end;
- a struct comes back from a Redis hash exactly when it has no pointer to the empty string, no set
  deletion time, no value of an unsupported type, and at least one field to write.

## Model

| member | source | states |
|---|---|---|
| OrderLock.StepKeepsInv | controller/topup.go:279-308 | every atomic step of any goroutine keeps the invariant over table, mutexes, reference counts and program counters |
| OrderLock.RunKeepsInv | controller/topup.go:279-308 | the invariant holds at every state of every interleaving of any number of goroutines |
| OrderLock.MutualExclusion | controller/topup.go:279-300 | two goroutines in the critical section of the same trade number are the same goroutine |
| OrderLock.UnlocksWhatItLocked | controller/topup.go:294-300 | the mutex that unlocking loads from the table is the one its caller locked and still owns |
| OrderLock.NoFault | controller/topup.go:294-308 | no run unlocks a mutex that is not held or misses the table entry |
| OrderLock.RefCountIsUsers | controller/topup.go:288-303 | an entry's reference count is the number of goroutines past its increment and not yet past its decrement |
| OrderLock.QuiescentTableIsEmpty | controller/topup.go:302-307 | when no goroutine is inside, the table is empty and no mutex is held |
| OrderLock.DeadlockFree | controller/topup.go:279-308 | as long as a goroutine is inside, some goroutine can take a step |
| Settlement.OneHandlerPerOrder | controller/topup.go:373-408 | at most one handler works on an order at a time |
| Settlement.ActEffect | controller/topup_stripe.go:231-256 | a handler step changes at most its own order, only out of pending, and credits at most that order's user, once |
| Settlement.StepKeepsInv | controller/topup.go:373-408 | every step of lock, handler or order placement keeps the settlement invariant |
| Settlement.RunKeepsInv | controller/topup.go:373-408 | the settlement invariant holds in every run of concurrent and repeated callbacks |
| Settlement.StepKeepsOrders | model/topup.go:82-107 | no step changes an order's terms or anything about an order that has left pending |
| Settlement.SettledIsFinal | controller/topup.go:373-408 | an order that has left pending stays as it is for the rest of the run |
| Settlement.CreditedAtMostOnce | controller/topup.go:385-405 | no order is credited twice, and only successful orders are credited |
| Settlement.QuotaIsCredits | controller/topup.go:398-405 | at every moment a user's quota is the initial quota plus the amounts of that user's credited orders |
| Settlement.RunAccounts | controller/topup.go:390-405 | an order moved to success in the run is credited, about to be credited, or its credit write failed |
| Settlement.OldOrdersUnpaid | controller/topup.go:385-395 | an order settled before the run is never credited in it |
| Settlement.QuotaIsSettledOrders | controller/topup.go:373-408 | when no handler is at work and no credit write failed, the quota is the initial quota plus the amounts of exactly the orders the run moved to success |
| Callbacks.ViewKept | controller/topup.go:373-408 | whatever else runs in between, the order a handler works on, its place in the handler and what it has read stay as they are |
| Callbacks.ReadsPending | controller/topup.go:376-390 | on a pending Epay order a success callback goes on to save the row as success with the method used |
| Callbacks.ReadsFailing | controller/topup_stripe.go:231-256 | on a pending Stripe order a failure callback goes on to save the row as failed |
| Callbacks.EpayCallbackSettles | controller/topup.go:373-408 | a verified success callback on a pending Epay order, in any interleaving: the order is stored as success with the method used, and its user, and no other, gains the floor of amount times quota per unit |
| Callbacks.FailureCallbackSettles | controller/topup_stripe.go:231-256 | a failed payment marks a pending Stripe order as failed and pays nothing |
| Callbacks.ExpiryCallbackSettles | model/topup.go:82-107 | an expired session marks a pending Stripe order as expired |
| Callbacks.CompletionSettles | model/topup.go:320-391 | manual completion settles a pending order of any provider and pays by money for Stripe and by amount otherwise, if that is worth a unit of quota; else nothing changes |
| Callbacks.OtherwiseNothing | controller/topup.go:381-390 | no order, a settled order or an order of another provider: nothing happens |
| Callbacks.RefusedWriteNothing | controller/topup.go:391-395 | a refused write of the order ends the handler with nothing changed or paid |
| EpayAmount.StoredAmountCovers | controller/topup.go:196-257 | in token mode the stored amount times the unit is at most the requested tokens and less than one unit short |
| EpayAmount.StoredAtLeast | controller/topup.go:242-257 | the stored amount reaches n exactly when the tokens reach n units |
| EpayAmount.StoredMeetsMinimum | controller/topup.go:179-187 | every accepted request stores at least the minimum, exactly when the minimum in tokens is below one or whole |
| EpayAmount.WholeUnitMeetsMinimum | controller/topup.go:179-187 | with a whole number of tokens per unit every accepted order stores at least the minimum |
| EpayAmount.CreditedQuotaBounds | controller/topup.go:398-401 | the quota credited later is at most the requested tokens and, for a whole unit, more than the tokens minus one unit |
| RateLimit.InMemoryRateLimiter.ClearExpiredItems | common/rate-limit.go:28-42 | a sweep forgets exactly the keys idle for longer than the expiration |
| RateLimit.InMemoryRateLimiter.Request | common/rate-limit.go:45-70 | the decision and the new queue as functions of the old queue, the limit and the time |
| RateLimit.SweeperUnobservable | common/rate-limit.go:28-70 | from related stores, sweeping at arbitrary moments never changes a decision when no window exceeds the expiration plus one second |
| RateLimit.ExposingDiffers | common/rate-limit.go:28-42 | a longer window has a run in which the sweeper lets a request through that would be refused |
| RateLimit.SweeperUnobservableIff | common/rate-limit.go:28-70 | the sweeper is unobservable in all runs exactly when every window is at most the expiration plus one second |
| RateLimit.CountIsOneLookup | common/rate-limit.go:52-62 | looking at the oldest kept request decides whether the window already holds the maximum |
| RateLimit.FullIsReference | common/rate-limit.go:45-70 | the bounded queue decides as a log of all accepted requests would |
| RateLimit.LimiterIsSlidingWindow | common/rate-limit.go:28-70 | the limiter with its sweeper makes the decisions of the sliding window over all accepted requests |
| RateLimit.WindowBound | common/rate-limit.go:45-70 | in every run the accepted requests of a key that are `max` apart are at least `duration` seconds apart |
| RateLimit.RefusalIsJustified | common/rate-limit.go:45-70 | a refused request finds `max` accepted requests less than `duration` seconds old |
| Ogg.ReadPage | common/audio.go:207-249 | one turn of the loop: stop, step on by one byte, or read a page and skip it |
| Ogg.GetOpusDuration | common/audio.go:196-254 | the scan terminates on every byte string and returns the scanned granule over 48000 |
| Ogg.TurnOnPage | common/audio.go:219-248 | a page at the front is read and skipped whole in one turn |
| Ogg.GranuleRoundTrip | common/audio.go:228-232 | reading eight little-endian bytes as a signed number undoes writing them |
| Ogg.ScanShift | common/audio.go:207-249 | the scan of a suffix does not depend on what precedes it |
| Ogg.SkipJunk | common/audio.go:219-226 | bytes in which no capture pattern starts are passed over |
| Ogg.ScanPage | common/audio.go:228-248 | a well-formed page is consumed whole and contributes its granule to the maximum |
| Ogg.ScanStream | common/audio.go:196-254 | a stream of pages with junk before, between and after them yields the largest granule, floored at the start value |
| Ogg.PeakIsMaximum | common/audio.go:228-232 | that value bounds every granule and is attained |
| Ogg.AllOnesNeverCounts | common/audio.go:228-232 | the granule of all ones reads as -1 and never raises the maximum |
| ModelNames.NormalizeSpec | controller/channel_upstream_update.go:93-98 | normalising yields exactly the distinct non-blank trimmed names, and leaves such a list alone |
| ModelNames.MergeModelNames | controller/channel_upstream_update.go:100-114 | the loop computes the merge |
| ModelNames.MergeSpec | controller/channel_upstream_update.go:100-114 | a merge holds exactly the names of both lists, once each, the base list first and in order |
| ModelNames.SubtractSpec | controller/channel_upstream_update.go:116-125 | subtraction keeps exactly the base names that are not removed |
| ModelNames.IntersectSpec | controller/channel_upstream_update.go:127-136 | intersection keeps exactly the base names that are allowed |
| ModelNames.ApplySelectedSpec | controller/channel_upstream_update.go:138-143 | the result holds the added names and the original ones that are not removed |
| Upstream.RedirectSets | controller/channel_upstream_update.go:172-231 | the sources and targets of the model mapping |
| Upstream.CollectPending | controller/channel_upstream_update.go:172-231 | the sets built by loops and the two filters over them give the pending additions and removals |
| Upstream.PendingSpec | controller/channel_upstream_update.go:172-231 | a name is pending for addition exactly when upstream has it and it is neither local, nor a redirect target, nor ignored; for removal exactly when local, not a redirect source and gone upstream |
| Upstream.ModelsRoundTrip | model/channel.go:289-294 | a list of names without commas survives being stored as one string and read back |
| Upstream.ChannelRecord.Persist | controller/channel_upstream_update.go:345-354 | a successful write stores the settings and, if asked, the models; a failed one nothing |
| Upstream.ChannelRecord.ApplyUpdates | controller/channel_upstream_update.go:802-850 | applying a selection as a function of the stored channel, with the lists it returns, which are empty when the write fails |
| Upstream.ChannelRecord.Check | controller/channel_upstream_update.go:356-403 | a check, skipped, unanswered or run, as a function of the stored channel, with the number of models added; a failed write reports no change |
| Upstream.TakeOver | controller/channel_upstream_update.go:380-394 | what a detection found is stored as pending, or merged into the models at once |
| UpstreamSync.ColumnShows | model/channel.go:289-294 | a list of names is read back from the models column as the trimmed, distinct parts between commas |
| UpstreamSync.StoredShape | controller/channel_upstream_update.go:802-850 | after a selection the models read back are the kept ones, then what the added names show |
| UpstreamSync.ApplySyncIff | controller/channel_upstream_update.go:802-850 | after any selection the stored remainders equal, as lists, a fresh detection, exactly when no added comma name stays wanted, no pending name is caught by a new pattern or piece, no name is ignored in vain, none is un-ignored, and no piece is a stray model |
| UpstreamSync.PatternCoversComma | controller/channel_upstream_update.go:802-850 | with a new pattern over the whole upstream list, a name with a comma can be added and the channel stay in step |
| UpstreamSync.PlainApplyKeepsSync | controller/channel_upstream_update.go:802-850 | for names that are no `regex:` patterns, exactly when no added name has a comma |
| UpstreamSync.CheckSyncs | controller/channel_upstream_update.go:356-403 | after a check the stored lists equal a fresh detection, exactly when no automatically added name has a comma |
| UpstreamSync.SecondCheckChangesNothing | controller/channel_upstream_update.go:356-403 | a second check against the same upstream changes nothing but the check time, unless the first added a name with a comma |
| UpstreamSync.ApplyAllThenDetect | controller/channel_upstream_update.go:856-931 | applying everything and detecting again finds nothing to add or remove |
| UpstreamSync.RunStaysSynced | controller/channel_upstream_update.go:172-231 | along every sequence of checks and applied selections the stored lists equal a fresh detection |
| UpstreamRules.DetectionFinds | controller/channel_upstream_update.go:172-231 | on raw lists: a name is pending for addition when upstream has it and no model, redirect target or ignore entry, plain or pattern, covers it; for removal when only the models have it |
| UpstreamRules.SelectedNames | controller/channel_upstream_update.go:802-850 | which names of a selection are added, dropped and ignored, from the stored channel and the posted lists |
| UpstreamRules.IgnoreListAfter | controller/channel_upstream_update.go:802-850 | the ignore list afterwards: a detected name that was selected for ignoring is on it, one selected for adding is not, every other as before |
| UpstreamRules.DetectedAfter | controller/channel_upstream_update.go:802-850 | a detected name stays pending exactly when it was selected neither for adding nor for ignoring |
| UpstreamRules.RemovalsAfter | controller/channel_upstream_update.go:802-850 | a stored removal stays pending exactly when it was not carried out |
| UpstreamRules.ModelsAfter | controller/channel_upstream_update.go:802-850 | for every selection, the models read back afterwards are the parts between commas of the names added and of the old models that were not dropped |
| UpstreamRules.PlainModelsAfter | controller/channel_upstream_update.go:802-850 | when no added name has a comma, these names themselves |
| UpstreamRules.SkippedOrRun | controller/channel_upstream_update.go:356-367 | a check is skipped exactly when it is not forced and the last one is more recent than the interval |
| UpstreamRules.UnansweredCheck | controller/channel_upstream_update.go:368-378 | a check without an answer records its time only |
| UpstreamRules.AnsweredCheck | controller/channel_upstream_update.go:356-403 | an answered check stores what it finds, name by name, or merges the additions at once when it may, and counts them |
| UpstreamRules.AutoAppliedModels | controller/channel_upstream_update.go:380-394 | the models after an automatic merge are the old ones and exactly the parts between commas of the wanted names |
| BatchScan.FindBatch | controller/channel_upstream_update.go:856-867 | the first ids above the last one, in order, and nothing eligible left out below them |
| BatchScan.VisitBatch | controller/channel_upstream_update.go:581-638 | a batch is visited in order, whole unless cancelled |
| BatchScan.Scan | controller/channel_upstream_update.go:556-643 | however the table changes between queries, no id is visited twice, order ascends, and an uninterrupted scan ends having visited every id enabled throughout |
| BatchScan.ScanAll | controller/channel_upstream_update.go:877-931 | on a fixed table of positive ids each enabled id is visited exactly once, in order |
| BatchScan.VisitOrderUnique | controller/channel_upstream_update.go:556-643 | the order of visits is determined by the table alone |
| Differences.AllModels | controller/ratio_sync.go:542-556 | the first pass finds exactly the models mentioned anywhere |
| Differences.ChannelConfidence | controller/ratio_sync.go:561-591 | a channel is distrusted for a model exactly when its ratio is 37.5 and its completion ratio 1 |
| Differences.CellSpec | controller/ratio_sync.go:605-629 | the branches record the price if it differs, nothing if only the local side has one, and "same" otherwise |
| Differences.CollectUpstreams | controller/ratio_sync.go:600-629 | the loop over the channels collects every channel's value and trust and the two flags |
| Differences.IncludedSpec | controller/ratio_sync.go:631-652 | an entry is included exactly when some channel's price differs or the local one is missing |
| Differences.RawSpec | controller/ratio_sync.go:593-654 | before pruning the report has exactly the right entries and lists every channel |
| Differences.MarkedChannels | controller/ratio_sync.go:656-665 | the marked channels are exactly those with a value that is neither missing nor "same" |
| Differences.Prune | controller/ratio_sync.go:667-693 | deleting in place leaves exactly the marked channels and the entries that are not all "same" |
| Differences.DifferingIsMarked | controller/ratio_sync.go:656-665 | a channel that differs anywhere is marked |
| Differences.MarkedIsDiffering | controller/ratio_sync.go:656-665 | a marked channel differs somewhere |
| Differences.PruningDropsNoEntry | controller/ratio_sync.go:667-693 | pruning to the differing channels keeps every entry |
| Differences.BuildDifferences | controller/ratio_sync.go:536-696 | what the passes compute on any input, which is the declarative report when names are distinct and prices legible |
| Differences.BuiltMeetsSpec | controller/ratio_sync.go:536-696 | entries, channels and values of the report are exactly those of the declarative specification |
| Differences.ReportUnique | controller/ratio_sync.go:536-696 | the specification determines the report |
| AnyReport.BuiltIsGeneral | controller/ratio_sync.go:536-696 | the report for any list of channels, repeated names and illegible prices included: entries, listed names, values and confidence, those of the last channel of each name |
| AnyReport.EnteredLast | controller/ratio_sync.go:605-629 | a map filled channel by channel holds the value of the last channel of each name |
| AnyReport.MarkedIsListed | controller/ratio_sync.go:656-665 | the marked names are those whose last channel has a value of its own in some entry |
| AnyReport.OverwrittenDifferencesAreHidden | controller/ratio_sync.go:626-628 | if the last channel of every name agrees with the local prices the report is empty, whatever the overwritten ones say |
| PriceRules.NumbersDiffer | controller/ratio_sync.go:48-62 | in a numeric field two raw numbers, integers or not, differ exactly when they are at least 1e-9 apart |
| PriceRules.TextsDiffer | controller/ratio_sync.go:55-62 | texts and flags differ exactly when they are unequal |
| PriceRules.BillingDiffers | controller/ratio_sync.go:77-132 | in the two billing fields nothing is converted: floats differ by 1e-9, everything else when unequal |
| PriceRules.MissingDiffers | controller/ratio_sync.go:605-629 | without a local value every price of a channel differs; without a price of the channel none does |
| PriceRules.DoubtfulAnswer | controller/ratio_sync.go:561-591 | a channel is distrusted for a model exactly when its raw ratio is within 1e-9 of 37.5 and its completion ratio within 1e-9 of 1 |
| PriceRules.NumbersReported | controller/ratio_sync.go:536-696 | the built report shows a channel's number beside the local one when they are 1e-9 apart, and never shows a nearer one |
| PriceRules.TextsReported | controller/ratio_sync.go:536-696 | the same for texts and flags that are unequal |
| PriceRules.NewPriceReported | controller/ratio_sync.go:536-696 | a price the local table does not have is reported as it is |
| PriceRules.ReportedForAReason | controller/ratio_sync.go:536-696 | every entry of the report has a channel whose price differs from the local one |
| PriceRules.ConfidenceReported | controller/ratio_sync.go:561-591 | the confidence shown is false exactly for a doubtful answer |
| Differences.NearlyEqualNotTransitive | controller/ratio_sync.go:48-62 | near equality within 1e-9 is not transitive |
| ModelsDev.EnumerationUnique | controller/ratio_sync.go:915-919 | sorting makes the order in which a map was read irrelevant |
| ModelsDev.SortStrings | controller/ratio_sync.go:915-919 | the sorted keys are ascending and the same keys |
| ModelsDev.OfferModels | controller/ratio_sync.go:928-943 | a provider's prices are considered once each against the current choice |
| ModelsDev.SelectCandidates | controller/ratio_sync.go:915-944 | the selection is the fold over the providers in ascending order |
| ModelsDev.SelectionUnique | controller/ratio_sync.go:915-944 | the result is the same for every map iteration order |
| ModelsDev.ChosenSpec | controller/ratio_sync.go:881-895 | after any number of providers the choice beats every offer seen |
| ModelsDev.LaterNameNeverWins | controller/ratio_sync.go:893-894 | among ascending providers the tie-breaker never lets a later one in |
| ModelsDev.SelectionSpec | controller/ratio_sync.go:845-944 | a model is selected exactly when a valid price exists; the choice is an offered one, non-zero if any is, less than 1e-9 dearer than every non-zero one, and the first if all are free |
| ModelsDev.CheapestWhenApart | controller/ratio_sync.go:881-944 | when no two distinct prices are within 1e-9, the choice is the cheapest non-zero price from the first provider that has it |
| ModelsDev.FoldNeedsSorting | controller/ratio_sync.go:881-895 | with three prices within 1e-9 of their neighbours, two orders of the fold choose differently |
| ModelsDev.SelectedPrices | controller/ratio_sync.go:845-879 | on the raw catalogue: a model is selected exactly when some provider has an input price that is not negative, an output price that is missing or not negative, and not a positive one beside a free input; the prices are that provider's, a negative cache price dropped |
| ModelsDev.SelectedIsCheap | controller/ratio_sync.go:881-944 | the selected price is non-zero if such a price is, and then less than 1e-9 above it; a free one comes from the first provider |
| Midjourney.ProcessItem | controller/midjourney.go:153-220 | overwriting the copy, the compare-and-set and the refund for one element of the answer are one step of the protocol |
| Midjourney.ProcessAnswers | controller/midjourney.go:153-232 | in the loop over the answer each task goes through exactly the steps of its own elements, and unknown tasks are ignored |
| Midjourney.ListedOnceIsOneStep | controller/midjourney.go:153-232 | a task listed once takes a single step |
| Midjourney.SkippingIsHarmless | controller/midjourney.go:241-294 | a response needs no update exactly when overwriting would change nothing that is compared |
| Midjourney.StepKeepsInv | controller/midjourney.go:153-232 | with coherent responses a step refunds exactly when a poller moves the row into FAILURE, and FAILURE is final |
| Midjourney.CoherentRunRefundsOnce | controller/midjourney.go:153-232 | in every run of any number of stale pollers with coherent responses, listing a task as often as they like until it fails, there is at most one refund |
| Midjourney.AtMostOneRefundIff | controller/midjourney.go:153-232 | at most one refund in all such runs, exactly when every possible response is coherent, whether the database counts matched or changed rows |
| Midjourney.StatusKeptRefundsTwice | controller/midjourney.go:204-217 | a failing response with another status lets a second stale poller refund after the timeout |
| Midjourney.FailureLeftOpenRefundsTwice | controller/midjourney.go:160-217 | FAILURE that does not count as failed leaves the row open, and two pollers refund after the timeout |
| Midjourney.SecondListing | controller/midjourney.go:153-217 | for any two responses on one copy, the first a failure: the second refunds again exactly when it fails with something new, and takes the row out of FAILURE exactly when it reports another status, after which a failure refunds again |
| Midjourney.BalanceIsRefunds | controller/midjourney.go:212-219 | in every run the balance grows by exactly the quota per refund whose write did not fail |
| Midjourney.WinnerWrites | controller/midjourney.go:153-219 | every field the winning poller stores, told from the response: the timeout override, progress 100% on failure, Properties and Buttons kept when the response has none; and the refund of a failed task |
| Midjourney.OthersWriteNothing | controller/midjourney.go:153-219 | nothing new, a lost race or a failed write change neither row nor balance |
| VideoTask.VideoAccount.Rebill | controller/task_video.go:184-235 | a success is charged or returned the difference, and the recorded quota follows what was written |
| VideoTask.VideoAccount.Update | controller/task_video.go:120-278 | one poll as a function of the stored task and the balance, with every status, fault and refund |
| VideoTask.PollDrift | controller/task_video.go:121-276 | how far a poll moves balance plus held quota, exactly |
| VideoTask.PollConservesIff | controller/task_video.go:121-276 | a poll conserves balance plus held quota exactly when it neither revives a failure, nor bills unrecorded, nor forfeits a refund |
| VideoTask.RunDrift | controller/task_video.go:121-276 | over every run the total moves by the sum of the drifts |
| VideoTask.OrderlyRunConserves | controller/task_video.go:121-276 | along every run without faults or revivals the total is constant, FAILURE is entered at most once, and a failed task has cost nothing |
| VideoTask.RefundExactlyOnFailure | controller/task_video.go:241-276 | the full quota is returned exactly by the poll that enters FAILURE |
| VideoTask.RevivedFailureRefundsAgain | controller/task_video.go:127-139 | a failed task taken out of FAILURE is refunded a second time by the next failure |
| VideoTask.SuccessIsBilled | controller/task_video.go:152-235 | with tokens, a model billed by a positive ratio and a group, the stored quota is the floor of tokens times model ratio times the group's own ratio or else the group ratio, and the balance moves by the difference |
| VideoTask.OtherSuccessIsFree | controller/task_video.go:152-208 | every other success leaves quota and balance |
| VideoTask.SuccessIsStored | controller/task_video.go:143-150 | status, progress, address and finish time of a success |
| VideoTask.FailureIsStored | controller/task_video.go:121-276 | a failure, reported or implied by an empty status, is stored with its reason and time and returns a positive quota once |
| VideoTask.ProgressIsStored | controller/task_video.go:134-142 | submitted, queued and running are stored with the reported progress or 10%, 20% and 30%; the start is timed once |
| VideoTask.UnknownStatusIgnored | controller/task_video.go:258-259 | any other status changes nothing |
| MultiKey.SurvivorsSpec | controller/channel.go:1775-1801 | the surviving indices are exactly those not dropped, in order |
| MultiKey.MovedAt | controller/channel.go:1784-1800 | each new index has what the surviving old index had |
| MultiKey.ReindexKeys | controller/channel.go:1839-1869 | the re-indexing loop keeps the surviving keys and moves status, time and reason with them |
| MultiKey.PruneStatus | model/channel.go:555-563 | exactly the statuses beyond the size are removed |
| MultiKey.MultiKeyChannel.Save | model/channel.go:526-571 | writing back keeps the stored key when the new one is empty, recounts the keys and prunes the statuses |
| MultiKey.MultiKeyChannel.Disable | controller/channel.go:1595-1636 | disables a key in range and refuses any other index |
| MultiKey.MultiKeyChannel.Enable | controller/channel.go:1638-1678 | forgets status, time and reason of a key in range |
| MultiKey.MultiKeyChannel.EnableAllKeys | controller/channel.go:1680-1702 | forgets every status and counts them |
| MultiKey.MultiKeyChannel.DisableAllKeys | controller/channel.go:1704-1749 | disables exactly the enabled keys and refuses when there is none |
| MultiKey.MultiKeyChannel.Delete | controller/channel.go:1751-1829 | deletes a key in range unless it is the last |
| MultiKey.MultiKeyChannel.DeleteDisabledKeys | controller/channel.go:1831-1897 | deletes the auto-disabled keys and counts them |
| MultiKey.MultiKeyChannel.AppendKeys | controller/channel.go:969-1044 | appends the deduplicated new keys to the existing ones |
| MultiKey.Seen | controller/channel.go:1021-1028 | the trimmed non-blank existing keys |
| MultiKey.Dedupe | controller/channel.go:1029-1040 | the loop computes the deduplicated new keys |
| KeyViews.LinesOfJoin | model/channel.go:194-196 | a list of keys reads back from its lines exactly when no key has a line break and no end is lost to trimming |
| KeyViews.StableIff | model/channel.go:175-197 | joined keys read back as themselves exactly when they have no line break, non-empty ends, and do not together read as a JSON array |
| KeyViews.DeletionIff | controller/channel.go:1775-1829 | the list after a deletion is the old one without the dropped keys, status, time and reason following each key, exactly when the remaining keys are stable |
| KeyViews.DeleteKeyIff | controller/channel.go:1751-1829 | the same for delete_key: the old list without position i |
| KeyViews.DeleteDisabledIff | controller/channel.go:1831-1897 | the same for delete_disabled_keys: the old list without the auto-disabled entries |
| KeyViews.DeletingAllEnablesAll | controller/channel.go:1839-1889 | when every key is auto-disabled, none is deleted and all are enabled |
| KeyViews.ActionKeepsSound | controller/channel.go:1480-1898 | every action keeps the size right, the status indices in range and the statuses legal |
| KeyViews.RunStaysSound | controller/channel.go:1480-1898 | over every sequence of actions the size is the number of keys, unless the text is an empty JSON array, and the three counts add up |
| KeyViews.SwitchShowsOne | controller/channel.go:1595-1678 | disabling or enabling a key changes its entry and no other |
| KeyViews.EnableUndoesDisable | controller/channel.go:1595-1678 | enabling a key undoes disabling it |
| KeyViews.SwitchAllShows | controller/channel.go:1680-1749 | disabling all leaves none enabled and the disabled entries as they were; enabling all leaves none disabled |
| KeyViews.ShownKeys | controller/channel.go:1499-1527 | the list on the stored channel: lines or array elements, each with its stored status or enabled, time and reason only if it is not enabled |
| KeyViews.NumberCounts | controller/channel.go:1510-1518 | the counts are the numbers of keys with each status |
| KeyViews.OutOfRangeRefused | controller/channel.go:1595-1773 | an index that is negative or not below the size changes nothing |
| KeyViews.NothingToDoRefused | controller/channel.go:1704-1871 | disabling all changes nothing when none is enabled, deleting disabled keys nothing when none is auto-disabled |
| KeyViews.DeleteKeyWrites | controller/channel.go:1775-1815 | the text written is the other keys in their order; the only key stays |
| KeyViews.DeleteKeyMoves | controller/channel.go:1784-1800 | each remaining key has the time and reason it had |
| KeyViews.DeleteDisabledMoves | controller/channel.go:1839-1869 | the remaining keys that are not enabled have the time and reason they had, enabled ones have none |
| KeyAppends.NoDuplicateAdded | controller/channel.go:1021-1043 | no added key is blank, repeated or already there, and every new key is there afterwards |
| KeyAppends.PostedLinesAppended | controller/channel.go:1012-1043 | what is written: the keys there were, then exactly the posted lines that, trimmed, are not blank and not there before, each once, in the order of their first posting |
| KeyAppends.PostedKeysAppended | controller/channel.go:992-1043 | the same for the posted keys of a Vertex channel |
| KeyAppends.PostedLinesAreKeys | controller/channel.go:1012-1043 | every posted line that is not blank, and every key there was, is afterwards one of the keys, as long as the written text is read as lines |
| KeyAppends.EmptyChannelTakesText | controller/channel.go:972-974 | a channel without a key takes the posted text as it is |
| KeyAppends.AppendKeepsKeysIff | controller/channel.go:969-1044 | the old keys keep their indices and the added follow, exactly when nothing is written or the old text was no broken array and all keys are stable |
| KeyAppends.AppendExtendsView | controller/channel.go:969-1044 | then every old entry is unchanged and every added key is enabled |
| KeyAppends.AppendIdempotentIff | controller/channel.go:969-1044 | appending the same keys again changes nothing, exactly when nothing was written or the text settles: as lines, when none is lost to trimming and every new key is one of them; never as a JSON array with elements; else when it is the new keys themselves |
| KeyAppends.AppendIdempotent | controller/channel.go:969-1044 | in particular for keys that are stable together and do not start like an array |
| KeyAppends.LineBreakNeverSettles | controller/channel.go:994-1009 | a new key with a line break in it is never found again, so appending it is never idempotent |
| KeyAppends.MultiLineKeyGrows | controller/channel.go:994-1009 | each time such a key is appended it is written once more behind the others |
| KeyAppends.TwoLineKeyTwice | controller/channel.go:994-1009 | the same for a two-line key on a channel with one key |
| KeyPages.GetKeyStatus | controller/channel.go:1481-1593 | the counts, the clamped page and its slice of the filtered list, with byte previews of the keys |
| KeyPages.CollectStatuses | controller/channel.go:1499-1554 | the loops count the statuses and filter the list |
| KeyPages.SelectedSpec | controller/channel.go:1544-1554 | the filtered list holds exactly the matching keys under their own index |
| KeyPages.SelectedAscends | controller/channel.go:1544-1554 | in the order of their indices |
| KeyPages.PagesGiveList | controller/channel.go:1556-1577 | all pages in turn give the filtered list exactly once, and none is empty unless the list is |
| KeyPages.PageHolds | controller/channel.go:1565-1577 | which element is at which place of which page, and how long a page is |
| KeyPages.AsciiPreview | controller/channel.go:1529-1533 | an ASCII key shows at most ten characters, with three dots if there are more |
| KeyPages.Utf8CharSpells | controller/channel.go:1529-1533 | the bytes a preview counts: each character takes one to four bytes, as few as its number allows, and they spell it |
| BodyStorage.MemoryStorage.constructor | common/body_storage.go:37-45 | a new body at position 0, counted |
| BodyStorage.MemoryStorage.Read | common/body_storage.go:47-54 | reads as the abstract body |
| BodyStorage.MemoryStorage.Seek | common/body_storage.go:56-63 | seeks as the abstract body |
| BodyStorage.MemoryStorage.Bytes | common/body_storage.go:74-81 | the whole contents, position unchanged |
| BodyStorage.MemoryStorage.Close | common/body_storage.go:65-72 | closes once and uncounts once |
| BodyStorage.DiskStorage.constructor | common/body_storage.go:100-130 | a new body at position 0, counted |
| BodyStorage.DiskStorage.Read | common/body_storage.go:169-176 | reads as the abstract body, without an error on an empty buffer at the end |
| BodyStorage.DiskStorage.Seek | common/body_storage.go:178-185 | seeks as the abstract body |
| BodyStorage.DiskStorage.Bytes | common/body_storage.go:198-230 | reads the whole file and restores the position; an error of the file on the way is reported and leaves the position where it happened |
| BodyStorage.DiskStorage.Close | common/body_storage.go:187-196 | removes the file and uncounts once |
| BodyStorage.Stats.DecrementDiskFiles | common/disk_cache_config.go:115-122 | the disk counters go down by one file, clamped at zero |
| BodyStorage.CreateBodyStorage | common/body_storage.go:241-259 | disk exactly when enabled, at the threshold and within the maximum, memory otherwise or when the file fails |
| BodyStorage.CreateBodyStorageFromReader | common/body_storage.go:262-303 | which kind holds the body, and the errors for long bodies and failed files, which leave the counters alone |
| BodyStorage.StepsAgree | common/body_storage.go:47-230 | both kinds take the same step on every call, with the same answer except on an empty read at the end |
| BodyStorage.RunsAgreeIff | common/body_storage.go:47-230 | every sequence of calls gets the same answers from both, exactly when it has no such read |
| BodyStorage.RewindAndRead | common/body_storage.go:198-230 | rewinding and reading everything gives what Bytes gives from any position |
| BodyStorage.StepKeepsExact | common/disk_cache_config.go:109-134 | every creation and closing keeps the counters equal to the number and bytes of the open storages |
| BodyStorage.ClosedIsExact | common/disk_cache_config.go:115-122 | closing an open storage never reaches the clamp |
| BodyStorage.CloseIdempotent | common/body_storage.go:187-196 | closing twice is closing once |
| BodyStorage.RunStaysExact | common/disk_cache_config.go:109-177 | in every run the counters are exact, and with honest lengths the bytes on disk never exceed the maximum |
| BodyStorage.StreamedOverrunIff | common/body_storage.go:266-281 | a streamed body overruns the maximum exactly when it exceeds the room left, and then it was longer than declared |
| BodyStorage.KindOfBytes | common/body_storage.go:241-259 | a body goes to disk exactly when caching is on, its size has reached the threshold and fits under the maximum beside what is there, and the file can be made |
| BodyStorage.KindOfReader | common/body_storage.go:262-303 | a body that is read goes to disk by its declared length, then a file that cannot be made is an error; otherwise by its size; a body over the limit changes nothing |
| BodyStorage.ReadsAreConsecutive | common/body_storage.go:47-176 | reads of any sizes give the bytes from the position on, each once and in order, until the sizes or the body end |
| BodyStorage.ReadAtEnd | common/body_storage.go:47-176 | at the end a read reports the end, an empty read in memory only |
| BodyStorage.SeekThenRead | common/body_storage.go:56-185 | after seeking by any of the three origins reading goes on from that place |
| RedisHash.ParsePrint | common/redis.go:209-214 | parsing undoes printing exactly on the 64-bit integers |
| RedisHash.HSetObj | common/redis.go:107-159 | the loop writes every field but deletion times, over what the key held; writing nothing is an error |
| RedisHash.HGetObj | common/redis.go:161-239 | the loop overwrites the fields found; an error leaves the fields before it overwritten and those after it as they were |
| RedisHash.FieldRoundTripIff | common/redis.go:118-144 | one field comes back exactly when it is supported, no pointer to the empty string and no set deletion time |
| RedisHash.RoundTripIff | common/redis.go:187-238 | a struct written and read into a zero one comes back exactly when something is written and every field does |
| RedisHash.EmptyStringPointerBecomesNil | common/redis.go:194-203 | a pointer to the empty string comes back as nil |
| RedisHash.FieldIsRead | common/redis.go:187-234 | what a stored text becomes in a field of each kind, and when it is left alone |
| RedisHash.LeftBehind | common/redis.go:187-238 | after an error the fields before it are read, those after it as they were, and a nil pointer that failed points to a zero |

## Left out

- Request binding, JSON answers, logging, audit records and translations of the handlers: no algorithmic content.
- Other payment providers (`Recharge*`), subscription orders and the payment SDKs: they repeat the settlement pattern or are foreign calls.
- Signature checks, OAuth, WebAuthn, mail and upstream HTTP requests: only their results appear, as inputs.
- The relay path, channel selection and billing sessions: not part of this model.
- Other audio formats: they delegate to external decoders.
- Precision of `float64` and `decimal` arithmetic: reals are used, and rounding ratios to six places is not modelled.
- UpstreamSync.RunStaysSynced: for upstream names that are plain and without commas; the regular-expression matcher is an input, and an error of the abilities table is not modelled.
- Differences.BuiltMeetsSpec: for distinct channel names and prices that are neither null nor the literal text "same"; AnyReport.BuiltIsGeneral says what is built otherwise. Numbers decoded as `json.Number` are plain numbers here.
- BatchScan.Scan: for positive ids that stay below some bound; the scan's summary counters and its pauses are not modelled. In findEnabledChannelsAfterID the batch is taken to be what the query found.
- Midjourney: the copied fields other than status, progress and reason are two text fields, one compared and one not; rows are not deleted during a pass.
- VideoTask: failing all tasks of a missing channel in bulk, which refunds nothing, and redaction of the response body are not modelled.
- MultiKey.MultiKeyChannel.Save: a failing database write and the abilities table are not modelled; the JSON parser is an input, of which the size of the elements and the way the first one starts are used.
- KeyAppends: replacing the whole key is not modelled; the keys parsed from a posted Vertex array are an input.
- BodyStorage: reads of regular files are never short; file errors are modelled for `Bytes` only; clean-up, synchronisation and reset of the counters, hit counts and seeks with other whence values are not modelled.
- RedisHash.HGetObj: struct fields other than the deletion time, pointers to a deletion time, and expiry are not modelled.
- RateLimit.InMemoryRateLimiter.Request: a negative maximum, for which the source cannot allocate the queue, is excluded.
