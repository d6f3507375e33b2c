# A verified model of the API gateway's stateful core

The gateway relays requests for language, image and audio models to upstream channels. This
project models, in Dafny, the parts of it that keep state, move quota or parse untrusted bytes,
and proves what they guarantee over every input, every run and every interleaving of steps.

Each operation that updates state is a class method proved equal to a pure step function; the
theorems then speak about whole histories of steps. Where a property that the code or its
documentation suggests does not hold, the code is modelled as it is, a lemma names the failing
inputs, and another gives the exact condition under which the property holds.

| file | part of the gateway |
|---|---|
| `RateLimiter` | in-memory sliding-window rate limiter with a background sweep |
| `OggScanner`, `OggPages` | Ogg page scanner behind the duration of Opus files (page layout: section 6 of RFC 3533) |
| `Text`, `ModelNames` | lists of names and keys stored in strings; the algebra of model name lists |
| `UpstreamSync`, `UpstreamRuns`, `UpstreamRaces` | detecting, applying, auto-adopting and ignoring upstream model changes |
| `ChannelScan` | the batched scan over enabled channels |
| `KeyCipher`, `MultiKey`, `MultiKeyRuns`, `KeyActions`, `OrdinaryKeys` | channels with many keys, encrypted when stored, and per-index metadata |
| `VerificationCodes` | one-time verification codes |
| `MidjourneyPolling` | concurrent polling passes and refunds of failed tasks |
| `BodyStorage`, `BodyCache` | request bodies in memory or on disk, and the usage counters |
| `Tolerance`, `ModelsDev`, `PriceDiff` | choosing prices from models.dev; comparing prices with upstream channels |
| `WalletRefund`, `Billing` | wallet refunds by credit lot; pre-consumption, top-up, settlement and refund |
| `Relay`, `RelayTask` | retry loops and the deferred refund of relayed requests and of tasks |
| `Basics` | shared definitions |

## Results about the code as it is

- Rate limiter: the sweep changes answers unless the window is at most one second longer than the
  expiration; a limit of zero admits one request.
- Upstream sync: an upstream name that contains a comma falls apart when it is stored. As long as
  checks do not overlap with other updates, an ignored model (not itself named like a rule) stays out
  of every run exactly if the upstream offers no name that has it as a comma-separated part, is
  accepted in a model list and is not the target of a redirect. Applying everything is final unless
  an addition contains a comma or a model is named like one of the channel's `regex:` rules. A check
  that writes at all writes back the ignore list it read, so an ignore decision made while it is
  under way is lost; only a check that came too early or whose model list is rejected writes nothing.
- Channel scan: it goes on for ever exactly if at least a full batch of enabled row ids is not
  positive.
- Multi-key channels: key strings are encrypted when a channel is updated, but `Update` counts the
  keys in the stored string, and appending reads its lines, without decrypting it. So the second
  action on the statuses of a pool resets its size to one and forgets every status but the first,
  and an append to an encrypted pool puts the ciphertext in place of its keys. Deletions rewrite the
  key string from the keys and are safe. The condition for each action is exact.
- Multi-key channels: a report about a key is dropped when the channel itself has the reported status,
  so a key of an enabled channel is not enabled again by a report.
- Multi-key channels: deleting the automatically disabled keys when there are no others keeps and
  re-enables all of them, because an empty key string is not written.
- Verification codes: codes are kept apart exactly if no purpose is a prefix of another. The two
  purposes in use are fine.
- Midjourney polling: with passes that see each task once, no task is ever refunded twice exactly if
  every item below 100% that the upstream can report has a reason exactly when it has failed. A pass
  that sees a task twice refunds it twice exactly if both reports are failures and the second does not
  repeat the first word for word as a finished one.
- Request bodies: an empty read at the end of the body is answered differently by the two storages.
  Disk usage stays within the limit, whatever the limit, exactly if no body is longer than declared.
- Price comparison: an upstream null or the marker word `same` does not count as a visible difference,
  so it does not keep its channel in the table; but it can put a cell into the table, where a null is
  then listed for a channel that is kept for another reason.
- Billing: quota topped up before sending is taken from the wallet but not recorded in its split, so
  the wallet does not get it back. Nothing in the repository calls `Reserve`, so sessions with top-ups
  arise only through the session's interface. A settlement after a refund is not refused and charges
  again; requests refund only in their deferred steps, so this too is open only through the interface.
- Relay: a request that ends in an error stays charged exactly if some attempt made a settlement that
  took effect, for instance when a fair-use lease turns out broken after it. A task submission with a
  negative number of retries dereferences a missing result.

The comment on the wallet's settlement says that a surplus is restored as cash; the code restores
paid money first and promotional money after it, lot by lot, and the model follows the code.

## Model

| member | source | states |
|---|---|---|
| `RateLimiter.InMemoryRateLimiter.Init` | common/rate-limit.go:14-26 | The first call creates the empty store and fixes the expiration; every later call changes nothing. |
| `RateLimiter.InMemoryRateLimiter.Request` | common/rate-limit.go:45-70 | The new store and the answer are those of the request step. |
| `RateLimiter.InMemoryRateLimiter.ClearExpiredItems` | common/rate-limit.go:28-42 | One sweep removes exactly the keys whose newest timestamp is older than the expiration, and touches nothing else. |
| `RateLimiter.TrackingQueueDecides` | common/rate-limit.go:49-63 | A queue that is the newest part of the full log, and has forgotten only expired entries, gives the answer of counting in the full log. |
| `RateLimiter.RequestKeepsTracking` | common/rate-limit.go:51-68 | Every request, of any key, keeps the stored queue the relevant newest part of the log. |
| `RateLimiter.SweepKeepsTracking` | common/rate-limit.go:33-39 | A sweep keeps that relation when the window is at most one second longer than the expiration. |
| `RateLimiter.RequestsFollowTheLog` | common/rate-limit.go:45-70 | After every legal history of requests and sweeps a request is admitted if and only if fewer than the limit were admitted in the window before it. |
| `RateLimiter.WindowsNeverOverfull` | common/rate-limit.go:52-62 | Over every history, no interval of the window's length holds more admitted requests than the capacity. |
| `RateLimiter.QueuesStayBounded` | common/rate-limit.go:52-58 | No queue ever outgrows the capacity, whatever the expiration and the clock. |
| `RateLimiter.EarlySweepOveradmits` | common/rate-limit.go:36-37 | For every limit whose sweep comes too early there is a history after which a request is admitted into a full window. |
| `RateLimiter.FullLogIffSweepsLate` | common/rate-limit.go:28-42 | The limiter agrees with the full log after every history if and only if there is no sweep or the window is at most the expiration plus one second. |
| `RateLimiter.StoredAfterSweepIff` | common/rate-limit.go:28-42 | Over every history, whatever the limits: after a sweep a key is stored if and only if it was ever admitted and its newest admission is not older than the expiration. |
| `OggScanner.SumSegments` | common/audio.go:241-245 | The loop over the segment table computes its sum, which by `OggPages.TableSum` is the length of the payload. |
| `OggScanner.SkipPage` | common/audio.go:234-248 | Succeeds if and only if the segment table fits, and then stands at the end of the page. |
| `OggScanner.OpusGranulePosition` | common/audio.go:196-254 | The scan terminates and its total is the largest granule position among the headers the resynchronising walk takes, or zero. |
| `OggPages.EncodedPage` | common/audio.go:219-245 | A page given by its segments and laid out by section 6 of RFC 3533 ends, for the scanner, exactly where its last segment does, and is read back with its own granule position, negative ones included. |
| `OggPages.TableSum` | common/audio.go:241-245 | The entries of a segment table add up to the length of the segments put together. |
| `OggPages.PageIsTaken` | common/audio.go:228-248 | At the start of any page the scan takes the header and continues exactly at the page's end, whatever the payload contains. |
| `OggPages.JunkIsSkipped` | common/audio.go:220-226 | Bytes without the capture pattern are skipped one at a time without losing the page behind them. |
| `OggPages.StreamIsScannedPageByPage` | common/audio.go:207-249 | For every stream of encoded pages with capture-free junk between and after them the scan takes exactly the pages, at their own offsets and with their own granule positions. |
| `OggPages.CutStreamIsScanned` | common/audio.go:208-239 | A stream cut inside a page yields that page if and only if its fixed header survived. |
| `OggPages.TotalOfStream` | common/audio.go:228-232 | The total of a stream is the larger of zero and its largest granule position. |
| `Text.FieldsOfJoined` | model/channel.go:367-376 | Joining names and splitting them again yields the fields of each name in turn: a name with a separator falls apart. |
| `Text.JoinedFieldsRoundTrip` | model/channel.go:204-234 | A list of trimmed, non-blank, separator-free entries survives joining, splitting and cleaning unchanged. |
| `ModelNames.MergeModelNames` | controller/channel_upstream_update.go:100-114 | The loop with the seen-set computes the merge of the two lists. |
| `ModelNames.NormalizeIsNormal` | controller/channel_upstream_update.go:93-98 | Normalised lists hold trimmed, non-blank, distinct names, with the same members; normalising again changes nothing. |
| `ModelNames.MergeMeaning` | controller/channel_upstream_update.go:100-114 | The merge is normal, has the members of both lists and keeps the first list as its beginning. |
| `ModelNames.SubtractMeaning` | controller/channel_upstream_update.go:116-125 | The result is normal and has exactly the members of the first list that are not in the second. |
| `ModelNames.IntersectMeaning` | controller/channel_upstream_update.go:127-136 | The result is normal and has exactly the members common to both lists. |
| `ModelNames.ApplySelectedMeaning` | controller/channel_upstream_update.go:138-143 | The result is normal and holds what is added, and what was there and is not removed: additions win. |
| `UpstreamSync.Channel.CheckAndPersist` | controller/channel_upstream_update.go:345-406 | The stored row becomes that of the detection step, whose effect `UpstreamRuns.CheckMeaning`, `ScheduledCheck` and the auto-sync lemmas state: nothing within the minimum interval, only the time on a failed fetch, nothing on a rejected model list. |
| `UpstreamSync.Channel.ApplyUpdates` | controller/channel_upstream_update.go:805-853 | The stored row becomes that of the apply step; on a rejected model list nothing is stored. |
| `UpstreamRuns.LocalNamesMeaning` | model/channel.go:367-376 | The names read from a stored model list are its cleaned comma-separated fields without repetitions. |
| `UpstreamRuns.PendingAddMeaning` | controller/channel_upstream_update.go:172-231 | A model is a pending addition if and only if upstream offers it, it is not local, no redirect stands for it and no ignore rule matches it. |
| `UpstreamRuns.PendingRemoveMeaning` | controller/channel_upstream_update.go:172-231 | A model is a pending removal if and only if it is local, not offered and not the source of a redirect. |
| `UpstreamRuns.PendingMeaning` | controller/channel_upstream_update.go:172-231 | The same two conditions in terms of the stored row, with the `regex:` prefix and exact rules written out. |
| `UpstreamRuns.ScheduledCheck` | controller/channel_upstream_update.go:359-373 | A check runs, as a forced one would, if and only if it is forced, none ran before, or the interval has passed; otherwise it changes nothing. |
| `UpstreamRuns.CheckMeaning` | controller/channel_upstream_update.go:359-406 | The model list changes only if the check may apply additions and the channel has auto-sync on; otherwise exactly the additions and removals are recorded; a failed fetch records only the time; the ignore list is never touched. |
| `UpstreamRuns.ApplicationMeaning` | controller/channel_upstream_update.go:805-853 | For every selection, partial ones included: exactly the selected pending additions and removals are carried out (additions win), what was not selected stays pending, what was ignored becomes a rule, and what was added stops being one. |
| `UpstreamRuns.StoredNamesFallApart` | model/channel.go:367-376 | The names read back from any stored list are exactly the comma-separated fields of the names that were stored. |
| `UpstreamRuns.StoredNamesRoundTrip` | model/channel.go:367-376 | Comma-free names are read back unchanged and in order. |
| `UpstreamRuns.ApplyAllMeaning` | controller/channel_upstream_update.go:805-853 | Applying everything stores the selected list and drops exactly the adopted names from the ignore list. |
| `UpstreamRuns.ApplyAllIsFinal` | controller/channel_upstream_update.go:805-853 | Check, apply all, check again: nothing is pending if and only if no addition contains a comma and no upstream model the channel lacks was silenced only by rules spelled like an added model. |
| `UpstreamRuns.WithdrawnAreRegex` | controller/channel_upstream_update.go:205-219 | Only `regex:` rules that are also upstream model names are ever withdrawn. |
| `UpstreamRuns.ApplyAllIsFinalForOrdinaryNames` | controller/channel_upstream_update.go:805-853 | If no upstream model is named like a rule, nothing is pending after apply-all if and only if no addition contains a comma. |
| `UpstreamRuns.WithdrawnRuleReopens` | controller/channel_upstream_update.go:834-836 | For every rule that does not match its own text, an upstream that offers the text and a match makes apply-all withdraw the rule and leave something pending. |
| `UpstreamRuns.AutoSyncAdoptsAdditions` | controller/channel_upstream_update.go:359-406 | Auto-sync stores the local names followed by the pending additions and leaves only removals pending. |
| `UpstreamRuns.AutoSyncOutcome` | controller/channel_upstream_update.go:359-406 | Auto-sync fails if and only if there are additions and the resulting list is rejected. |
| `UpstreamRuns.AutoSyncIsFinal` | controller/channel_upstream_update.go:359-406 | After an auto-sync the same upstream list brings no additions if and only if no adopted name contains a comma; then removals are unchanged. |
| `UpstreamRuns.IgnoredStaysIgnored` | controller/channel_upstream_update.go:172-231 | Through every run of checks, auto-syncs and applications whose upstream lists offer nothing harmful, an ignored model stays ignored, out of the models and out of the pending list. |
| `UpstreamRuns.IgnoringIsForever` | controller/channel_upstream_update.go:805-853 | A detected model that is ignored is never local and never pending again, in any run without harmful offers. |
| `UpstreamRuns.AutoSyncAdmitsParts` | controller/channel_upstream_update.go:383-397 | A name that was not local is local after an auto-sync if and only if it is a field of some adopted name. |
| `UpstreamRuns.SmuggledModelReturns` | controller/channel_upstream_update.go:383-397 | Every harmful name brings the ignored model back in one auto-sync. |
| `UpstreamRuns.StaysOutIff` | controller/channel_upstream_update.go:172-231 | For every class of names that the upstream may offer: an ignored model stays out of the channel's models through every run from every row, if and only if no name of the class is harmful (has it as a part, is accepted, is not a redirect target). |
| `UpstreamRaces.FreshReadingIsAtomic` | controller/channel_upstream_update.go:345-406 | Writing back a check of a fresh reading is the atomic check. |
| `UpstreamRaces.IgnoreListIsRestored` | controller/channel_upstream_update.go:345-357 | After a check of an older reading the ignore list is the one that was read, after a failed fetch too, unless the check came too early or its model list was rejected; then it is the stored one. |
| `UpstreamRaces.IgnoreDuringCheckIsLost` | controller/channel_upstream_update.go:597-603 | Every pending model that is ignored while a check is under way is pending again and no longer ignored; a check begun afterwards would have left it ignored. |
| `ChannelScan.FindBatch` | controller/channel_upstream_update.go:859-870 | The batch is the ascending list of the smallest ids above the cursor, of the given length or exhaustive. |
| `ChannelScan.Scan` | controller/channel_upstream_update.go:559-647 | With fewer than a batch of non-positive ids the scan ends, visits enabled channels in ascending order without repetition, never skips one, and visits all unless cancelled. |
| `ChannelScan.StallsIff` | controller/channel_upstream_update.go:566-582 | Without a positive cursor the next batch is full and leaves the cursor non-positive if and only if the non-positive ids fill a batch. |
| `ChannelScan.NeverEndsIff` | controller/channel_upstream_update.go:560-647 | After any number of rounds the next batch is full again and the cursor not positive, if and only if at least a full batch of enabled ids is not positive. |
| `KeyCipher.PlaintextOfEncrypted` | common/crypto.go:105-117 | Encrypting a key string for storage does not change what it decrypts to; one without the prefix becomes a ciphertext. |
| `MultiKey.CiphertextKeys` | model/channel.go:658-687 | A ciphertext read without decryption is one key, which is none of the keys it holds. |
| `MultiKey.Channel.Update` | model/channel.go:652-711 | Counts the keys in the string handed over, encrypted or not, drops statuses beyond the count, encrypts what it writes, and keeps the stored string when the new one is empty. |
| `MultiKey.Channel.DisableKey` | controller/channel.go:1647-1688 | The stored row after the action, for every row: an index below the stored size is needed, and the key string is written as it was read. |
| `MultiKey.Channel.EnableKey` | controller/channel.go:1690-1730 | The stored row after the action, for every row; time and reason go with the status. |
| `MultiKey.Channel.EnableAllKeys` | controller/channel.go:1732-1754 | The stored row after the action, for every row: all metadata is cleared. |
| `MultiKey.Channel.DisableAllKeys` | controller/channel.go:1756-1801 | The stored row after the action, for every row: exactly the enabled ones among the first stored-size keys become manually disabled; nothing is written if there is none. |
| `MultiKey.Channel.DeleteKey` | controller/channel.go:1803-1881 | The stored row after the action, for every row: the remaining entries, re-indexed with their metadata, and the key string rewritten from the decrypted keys. |
| `MultiKey.Channel.DeleteDisabledKeys` | controller/channel.go:1883-1951 | The stored row after the action, for every row: the entries that are not automatically disabled, re-indexed; an empty rest is not written. |
| `MultiKey.Channel.ReportKey` | model/channel.go:781-912 | Nothing if the channel has the reported status; otherwise the status of the first key that matches is set or cleared, the channel is disabled with its last enabled key and enabled with a key; the key string is not written. |
| `MultiKey.Channel.Reconcile` | controller/channel.go:74-98 | More than one key makes the channel multi-key with that size and a valid mode. |
| `MultiKey.Channel.AppendKeys` | controller/channel.go:1013-1100 | The stored row after the action, for every row: the lines of the stored string, encrypted or not, followed by the new ones. |
| `MultiKey.SkipKey` | controller/channel.go:1821-1853 | The loop that deletes one key yields exactly the keys and maps of the other entries, re-indexed. |
| `MultiKey.PurgeKeys` | controller/channel.go:1884-1921 | The loop that deletes disabled keys yields exactly the keys and maps of the others, re-indexed, as `KeyActions.PurgeMeaning` describes them, and reports whether there was one to delete. |
| `MultiKey.EntriesRoundTrip` | controller/channel.go:1827-1853 | The re-indexed maps of a list of entries describe exactly that list, and index nothing beyond it. |
| `MultiKey.DedupNewKeys` | controller/channel.go:1053-1084 | The loop with the seen-set yields the new keys. |
| `MultiKey.NewKeysMeaning` | controller/channel.go:1053-1084 | The new keys are distinct, trimmed, not blank, and exactly the pasted keys that were not there. |
| `MultiKey.KeysRoundTrip` | model/channel.go:204-234 | A list of keys without line breaks survives joining and reading back. |
| `MultiKeyRuns.PurgedToNothing` | controller/channel.go:1884-1921 | A purge leaves nothing if and only if every key was automatically disabled. |
| `MultiKeyRuns.PurgeOfEverything` | controller/channel.go:1884-1936 | Deleting when every key is automatically disabled keeps the key string, enables all keys and counts the keys of the stored string. |
| `MultiKeyRuns.TracksIffCarriedOut` | controller/channel.go:1488-1951 | From a row whose metadata agrees with its keys, an action does what it is meant to do and keeps the agreement, if and only if: for statuses, the stored string is not a ciphertext or there is one key; for deletions, something remains that is not itself a ciphertext; for reports, the channel does not have the reported status or the key says it already; for appends, neither the old nor the new string is a ciphertext, or nothing is added to one key. |
| `MultiKeyRuns.RunTracksIffCarriedOut` | controller/channel.go:1488-1951 | For every run of actions: after each of them the row describes the intended entries, if and only if every action meets its condition. |
| `KeyActions.DisableMeaning` | controller/channel.go:1647-1688 | Where the action is carried out: the key at the index has status 2; every other status, and all times, reasons and keys, stay. |
| `KeyActions.EnableMeaning` | controller/channel.go:1690-1730 | Where it is carried out: the key at the index has status 1 and no time or reason; all others stay as they were. |
| `KeyActions.EnableAllMeaning` | controller/channel.go:1732-1754 | Where it is carried out: every key has status 1 and no time or reason. |
| `KeyActions.DisableAllMeaning` | controller/channel.go:1756-1801 | Where it is carried out: exactly the keys of status 1 get status 2; times and reasons stay. |
| `KeyActions.DeleteMeaning` | controller/channel.go:1803-1881 | Where it is carried out: the keys before the index keep their place and those behind it move up by one, each with its status, time and reason. |
| `KeyActions.PurgeMeaning` | controller/channel.go:1883-1951 | Where it is carried out: the survivors are exactly the keys whose status is not 3, in their order, each with its key and status, and with its time and reason if it is disabled. |
| `KeyActions.ReportMeaning` | model/channel.go:781-912 | A report that reaches a key sets the status of its first occurrence, with time and reason unless it enables, leaves every other key alone, and disables the channel with its last enabled key. |
| `KeyActions.OtherReportMeaning` | model/channel.go:781-912 | A report that the channel already agrees with, or about a key it does not have, changes no key; the channel's own status follows it if the channel is not multi-key, has no keys, or the reported key is empty. |
| `KeyActions.AppendedKeysMeaning` | controller/channel.go:1013-1100 | Where it is carried out: the old keys stay under their indices with their metadata, the new ones follow, enabled and without metadata, and more than one key makes a multi-key channel. |
| `KeyActions.ModeMeaning` | controller/channel.go:74-98 | An append never changes a valid mode, and with more than one key leaves a valid one. |
| `OrdinaryKeys.CarriedOutIffAllowed` | controller/channel.go:1488-1951 | On keys that do not look like ciphertexts the condition needs only the entries, the channel's status and whether the key string was written before. |
| `OrdinaryKeys.OrdinaryRunTracksIff` | controller/channel.go:1488-1951 | A run on an unencrypted channel with such keys stays in step throughout, if and only if, in terms of the intended entries: every action on statuses and every append comes before any other write or finds a single key, no deletion takes everything, and no report is dropped. |
| `MultiKeyRuns.PerformAll` | controller/channel.go:1488-1951 | Driving the channel object through a run of actions leads to the stored row that the theorems are about. |
| `MultiKeyRuns.StatusesSealKey` | model/channel.go:699-703 | The first action on statuses of an unencrypted pool is carried out and leaves a ciphertext. |
| `MultiKeyRuns.StatusesForgotten` | model/channel.go:658-697 | Every action on statuses over a ciphertext sets the size to one and enables every key but the first. |
| `MultiKeyRuns.SecondDisablingEnables` | model/channel.go:652-711 | In every unencrypted pool, disabling two keys other than the first, one after the other, leaves both enabled and the size one. |
| `MultiKeyRuns.AppendLosesKeys` | controller/channel.go:1031-1086 | An append to a ciphertext with new keys leaves the ciphertext and the new keys as the keys. |
| `MultiKeyRuns.AppendMeaning` | controller/channel.go:1013-1100 | An append that is carried out keeps every entry under its index and brings in each new key once, enabled. |
| `MultiKeyRuns.SecondAppend` | controller/channel.go:1013-1086 | Repeating an append is meant to change nothing; after a first append to an unencrypted string the second does so if and only if the input is blank and there is one key. |
| `VerificationCodes.VerificationMap.Register` | common/verification.go:37-47 | Stores the code, and purges expired codes when the map is over its size. |
| `VerificationCodes.VerificationMap.GetOrCreate` | common/verification.go:49-65 | Returns the live code, or stores the new one. |
| `VerificationCodes.VerificationMap.Verify` | common/verification.go:67-82 | Succeeds on the right live code and removes it; an expired one stays. |
| `VerificationCodes.VerificationMap.RemoveExpiredPairs` | common/verification.go:91-98 | Removes exactly the expired codes. |
| `VerificationCodes.ExpiryMeaning` | common/verification.go:26-98 | A code is expired from ten minutes after its issue on, to the nanosecond. |
| `VerificationCodes.PutMeaning` | common/verification.go:37-47 | Storing a code replaces only the one under its key; over the size limit exactly the expired codes go, otherwise none. |
| `VerificationCodes.HistoryAgrees` | common/verification.go:37-98 | After every history the map holds the latest outstanding code of each purpose and key, or nothing of use. |
| `VerificationCodes.VerificationFollowsHistory` | common/verification.go:67-82 | A verification succeeds if and only if the latest unconsumed issue has that code and is valid; purges are invisible. |
| `VerificationCodes.CreationFollowsHistory` | common/verification.go:49-65 | A code is reused if and only if the history has a valid one, and then it is that one. |
| `VerificationCodes.FaithfulIffPrefixFree` | common/verification.go:40-73 | Answers follow the history if and only if no purpose is a prefix of another. |
| `VerificationCodes.CodeCrossesPurposes` | common/verification.go:40-73 | For every purpose that is a proper prefix of another there is a key for which a code crosses over. |
| `VerificationCodes.SuccessesUseUpIssues` | common/verification.go:67-82 | Over every history, successful verifications never outnumber issues: each code is used once. |
| `VerificationCodes.PurposesInUse` | common/verification.go:16-19 | The two purposes in use are prefix-free. |
| `MidjourneyPolling.Database.UpdateWithStatus` | model/midjourney.go:178-184 | Compare-and-set on the status: writes the row and reports success if and only if the stored status is the expected one. |
| `MidjourneyPolling.Database.ProcessItem` | controller/midjourney.go:153-233 | Rows, refunds and the pass's own copy after one response item are those of the item step, which `MidjourneyPolling.ItemMeaning` spells out. |
| `MidjourneyPolling.ItemMeaning` | controller/midjourney.go:153-233 | What is written is the reported status, reason and rest, and the reported progress, or 100% for a failure; it is written if and only if the copy did not say so already and the stored status is still the copy's; a failure that is written refunds the task's quota. |
| `MidjourneyPolling.StartMeaning` | controller/midjourney.go:40-58 | A pass reads exactly the submitted tasks that are not at 100%, as they are stored. |
| `MidjourneyPolling.UnsubmittedFail` | controller/midjourney.go:59-70 | At its start a pass fails exactly the unfinished tasks that were never submitted, and nothing else. |
| `MidjourneyPolling.GoneChannelFails` | controller/midjourney.go:90-102 | A channel that is gone fails exactly the pass's tasks of that channel, with the reason given. |
| `MidjourneyPolling.PollOnce` | controller/midjourney.go:34-240 | A whole pass, with tasks that were never submitted, channels that are gone or do not answer, and items of any task, does what the step machine does with the corresponding steps. |
| `MidjourneyPolling.ItemKeepsInv` | controller/midjourney.go:165-233 | One item keeps rows and refunds in step, and never changes a quota. |
| `MidjourneyPolling.RunKeepsInv` | controller/midjourney.go:34-240 | Every legal interleaving of any number of passes keeps the invariant. |
| `MidjourneyPolling.RefundedAtMostOnce` | controller/midjourney.go:204-219 | In every legal run a task is refunded at most once, only if it is stored as failed, with its own quota; and each task failed by polling is refunded. |
| `MidjourneyPolling.FinishedStays` | controller/midjourney.go:40-233 | Once a task is stored at 100%, no pass that starts later reads it: through every run its row and its refunds stay as they are, apart from reports to the passes that already hold a copy of it and bulk failures that name it. |
| `MidjourneyPolling.RefundsOnceIff` | controller/midjourney.go:153-219 | For every class of items that the upstream may report: no run of any number of passes refunds a task twice, if and only if every item of the class is consistent. |
| `MidjourneyPolling.ReasonWithoutFailureRefundsTwice` | controller/midjourney.go:204-219 | Every unfinished item with a reason but no failure status is refunded by two passes that each see it once. |
| `MidjourneyPolling.FailureWithoutReasonRefundsTwice` | controller/midjourney.go:204-219 | Every unfinished failure without a reason leads to two refunds by passes that each see it once. |
| `MidjourneyPolling.RepeatedIdRefundsTwiceIff` | controller/midjourney.go:153-219 | Two reports about one task in one response refund it twice, if and only if both are failures and the second is not a finished report that repeats the first. |
| `BodyStorage.DiskCache.DecrementDiskFiles` | common/disk_cache_config.go:115-122 | Both disk counters go down and are clamped at zero. |
| `BodyStorage.MemoryStorage.Perform` | common/body_storage.go:47-81 | Every operation on a memory storage gives the reply and the state of the common step function. |
| `BodyStorage.DiskStorage.Perform` | common/body_storage.go:169-230 | Every operation on a disk storage gives the reply and the state of the common step function. |
| `BodyStorage.DiskStorage.Bytes` | common/body_storage.go:198-230 | Returns the whole body and restores the file position. |
| `BodyCache.SameRepliesIff` | common/body_storage.go:47-230 | Over every sequence of operations both storages reply alike if and only if no empty read happens at the end of the body; their states always agree. |
| `BodyCache.BytesIsInvisible` | common/body_storage.go:198-230 | Fetching the contents at any point of any sequence of operations returns the whole body, or fails on a closed storage, and leaves all other replies as they were. |
| `BodyCache.ReadsCollect` | common/body_storage.go:47-176 | Reads into non-empty buffers return the bytes from the cursor on, each once and in order, and move the cursor past them. |
| `BodyCache.RewoundBodyIsRead` | common/body_storage.go:47-185 | A storage that is rewound and read until the buffers have held its size returns exactly the body, from wherever the cursor was, and then the end. |
| `BodyCache.SeekMeaning` | common/body_storage.go:58-66 | A seek goes to the offset from the start, the cursor or the end, and is refused before the start. |
| `BodyCache.ClosedForGood` | common/body_storage.go:47-81 | Once closed, a storage refuses to read, seek or hand out its bytes, whatever comes between. |
| `BodyCache.RunBoth` | common/body_storage.go:14-27 | Two storage objects of different kind give equal replies to every run without empty reads. |
| `BodyCache.CreateBodyStorage` | common/body_storage.go:241-260 | The storage holds the data with the cursor at the start; kind and counters as the step function says, with the fallback to memory. |
| `BodyCache.CreateBodyStorageFromReader` | common/body_storage.go:262-303 | The same for streamed bodies, with the error cases. |
| `BodyCache.CreationStoresBody` | common/body_storage.go:262-303 | Without errors creation succeeds if and only if the body is not too large, and stores it unchanged, wherever it goes. |
| `BodyCache.StreamMeaning` | common/body_storage.go:241-303 | Which streamed bodies fail, which are too large, which go to disk (by declared length, or by size when the disk works) and which to memory; and the counters and hits they leave, with limits in megabytes. |
| `BodyCache.CountersStayAccurate` | common/disk_cache_config.go:108-134 | In every run of creations and repeated closes the counters equal the number and size of open storages, and the clamp never fires. |
| `BodyCache.DiskUsageStaysWithinLimit` | common/disk_cache_config.go:169-177 | With honest lengths the disk space in use never exceeds the configured maximum. |
| `BodyCache.LongerBodyExceedsLimit` | common/body_storage.go:262-290 | For every body longer than declared there is a disk that is within its limit before it and exceeds it afterwards. |
| `BodyCache.StaysWithinIff` | common/disk_cache_config.go:169-177 | For every class of declared and actual lengths: no run under any configuration exceeds the maximum, if and only if no body that declares a length is longer. |
| `ModelsDev.SelectCandidates` | controller/ratio_sync.go:923-961 | The nested loops over sorted providers and their models select, for each model, the fold of all offers. |
| `Tolerance.NearlyEqualMeaning` | controller/ratio_sync.go:48-53 | Two prices are close if and only if they are less than a thousandth of a millionth apart. |
| `ModelsDev.EnumerationIrrelevant` | controller/ratio_sync.go:932-939 | The order in which the providers are enumerated makes no difference. |
| `ModelsDev.CandidateMeaning` | controller/ratio_sync.go:862-896 | A cost becomes a candidate if and only if its input price is finite and not negative, its output price too where there is one, and the input is not free while the output costs; the candidate has exactly the listed prices. |
| `ModelsDev.ChosenIsOffered` | controller/ratio_sync.go:862-896 | A model has a choice if and only if some provider has a valid offer, and the choice is that provider's offer. |
| `ModelsDev.ReplacementsLowerThePrice` | controller/ratio_sync.go:898-921 | In sorted order a candidate is replaced if and only if the next is a non-zero price lower by at least the tolerance, or the first non-zero one. |
| `ModelsDev.ChosenIsCheapest` | controller/ratio_sync.go:898-961 | The choice is non-zero whenever there is a non-zero offer, and costs less than every non-zero offer plus one tolerance, for any number of offers. |
| `ModelsDev.UnsortedVisitsDrift` | controller/ratio_sync.go:898-921 | Without sorting, ties would let the choice drift away by more than the tolerance. |
| `PriceDiff.BuildDifferences` | controller/ratio_sync.go:553-713 | The passes that build and prune the table compute the specified table, whose cells, channels and values `CellsOfTheResult`, `ChannelsOfAnItem` and `ListedValues` determine. |
| `PriceDiff.CellsOfTheResult` | controller/ratio_sync.go:610-711 | The table has a cell if and only if some channel differs there and some channel with a visible difference anywhere shows something else than the marker there; nulls and the marker word as values included. |
| `PriceDiff.CellsOfRealValues` | controller/ratio_sync.go:610-711 | Without nulls and the marker word, the table has a cell if and only if some channel differs there: pruning never loses a difference. |
| `PriceDiff.NothingToShowIff` | controller/ratio_sync.go:673-711 | The table is empty if and only if no channel has a visible difference anywhere. |
| `PriceDiff.ChannelsOfAnItem` | controller/ratio_sync.go:622-702 | Each item lists exactly the channels with a visible difference somewhere, with what they show and how far to trust them, and the local value. |
| `PriceDiff.ListedValues` | controller/ratio_sync.go:622-702 | In every item, for every channel listed: its own value if that is not close to the local one, the marker if it is close, null where only the channel lacks a value, the marker where both do. |
| `PriceDiff.TrustMeaning` | controller/ratio_sync.go:586-606 | A channel's prices for a model are distrusted if and only if its model ratio is about 37.5 and its completion ratio about 1. |
| `PriceDiff.KeptChannels` | controller/ratio_sync.go:673-691 | A channel is kept if and only if it has a visible difference somewhere. |
| `PriceDiff.NullIsListed` | controller/ratio_sync.go:625-702 | A null over a local value is listed as null whenever its channel has a visible difference anywhere. |
| `PriceDiff.MarkerMakesItem` | controller/ratio_sync.go:625-702 | The marker word over another local value makes an item whenever a channel without a value there has a visible difference anywhere. |
| `WalletRefund.TakeWalletRefund` | service/funding_source.go:82-121 | The two backward loops and the compaction in place compute the refund and the rest. |
| `WalletRefund.TakeAmount` | service/funding_source.go:89-106 | A pass takes as much as wanted or as there is, of the one kind only. |
| `WalletRefund.TakeLatestFirst` | service/funding_source.go:89-106 | The latest allocations go first: if anything is taken from one, every later one of the kind has been taken whole. |
| `WalletRefund.RefundConserves` | service/funding_source.go:82-121 | A refund returns the wanted amount or all there is, paid money first; refund and rest add up in every credit lot, and both stay balanced. |
| `Billing.BillingSession.PreConsume` | service/billing_session.go:186-230 | The session after taking quota in advance, with the roll-back of the token. |
| `Billing.BillingSession.Reserve` | service/billing_session.go:152-180 | The session after a top-up, with the roll-back of the wallet. |
| `Billing.BillingSession.Settle` | service/billing_session.go:41-79 | The session after a settlement, including one retried after a failure. |
| `Billing.BillingSession.Refund` | service/billing_session.go:82-124 | The session after a refund. |
| `Billing.PreConsumeHoldsOrNothing` | service/billing_session.go:186-230 | Pre-consumption holds the quota in wallet and token, or leaves nothing taken. |
| `Billing.PreConsumeGrantedIff` | service/billing_session.go:186-230 | Quota is granted if and only if the request is trusted, none is needed, or the wallet has it and so has the token where there is one. |
| `Billing.ReserveMeaning` | service/billing_session.go:152-180 | A top-up is granted on the same terms, and then exactly the difference to the target has been taken; a refused one changes nothing. |
| `Billing.ReservationsHold` | service/billing_session.go:152-180 | Any number of top-ups, failed ones included, keep wallet, token and session in agreement. |
| `Billing.SettlementCost` | service/billing_session.go:41-79 | A settlement that takes effect charges the wallet the larger of the actual amount and the top-ups, and the token the actual amount unless that update fails; one that does not changes nothing. |
| `Billing.SettlementIsExactIff` | service/funding_source.go:51-80 | The wallet is charged exactly the actual amount if and only if the settlement takes effect and the amount covers the top-ups. |
| `Billing.RefundIsCompleteIff` | service/funding_source.go:123-135 | A refund returns everything to the token, and to the wallet if and only if nothing was topped up. |
| `Billing.SettledIsFinal` | service/billing_session.go:41-93 | No sequence of settlements and refunds changes a settled session. |
| `Billing.RefundIsIdempotent` | service/billing_session.go:82-93 | Any number of refunds pays out once. |
| `Billing.SettlingAfterRefund` | service/billing_session.go:41-79 | What a settlement after a refund charges the wallet and the token; it leaves both alone if and only if the amount is the pre-consumed one, the wallet cannot be adjusted, or the amount is lower and the token is not or cannot be adjusted. |
| `Relay.RetriesLeaveResponseUntouched` | controller/relay.go:562-602 | In every run, each attempt that was followed by another had failed and had written nothing to the client. |
| `Relay.RetryMeaning` | controller/relay.go:562-602 | Which errors are retried, as one condition on the error, the context and the retries left. |
| `Relay.LastAttemptDecides` | controller/relay.go:175-265 | The attempts made are the longest run in which every attempt but the last is retried within the limit; the last one alone decides about the error and the response. |
| `Relay.RequestSucceedsIff` | controller/relay.go:72-265 | A request ends without an error if and only if its last attempt succeeded, or none was made, and no lease failure is found before a response is out. |
| `Relay.FinishLease` | controller/relay.go:407-461 | A lease failure becomes the error unless a response is out; the refund is asked for only if there was no error before. |
| `Relay.Relay` | controller/relay.go:72-265 | With quota taken, a request asks for a refund exactly once if it ends in an error and never otherwise. |
| `Relay.FailedRequestCost` | controller/relay.go:72-265 | A request that ends in an error stays charged if and only if some attempt made a settlement that took effect, and then by the first of them; otherwise the token is charged nothing and the wallet the top-ups. |
| `Relay.BrokenLeaseIsCharged` | controller/relay.go:407-461 | A run in which the only attempt succeeds, settles and writes nothing, and the lease then breaks, ends in an error and stays charged. |
| `RelayTask.RelayTaskSubmit` | relay/relay_task.go:145-260 | One submission keeps an open session, and otherwise opens one exactly if it gets as far as taking quota and the quota is granted. |
| `RelayTask.SubmissionMeaning` | relay/relay_task.go:145-260 | How a submission fails or succeeds, given whether a session is open, and when it leaves one open. |
| `RelayTask.RetryMeaning` | controller/relay.go:873-913 | Which task errors are retried, as one condition on the status, the context and the retries left. |
| `RelayTask.LastAttemptDecides` | controller/relay.go:743-863 | The attempts made are the longest run in which every attempt but the last is retried within the limit; how the last one ends, with a session open if and only if an earlier attempt was granted quota, is how the submission ends. |
| `RelayTask.RelayTask` | controller/relay.go:743-863 | If a session was opened, a submission settles it once or refunds it once and never both; it panics if and only if the number of retries is negative. |
| `RelayTask.TaskCost` | controller/relay.go:759-863 | A failed task with a session costs nothing; a submitted one costs its final quota, or what was taken in advance where the settlement fails. |

## Left out

- HTTP handlers, authentication, protocol conversion between providers, and the administrative pages.
- Database, Redis and file system are parameters: the outcome of a call is given, not computed. Failing roll-backs and retries of database calls are not modelled.
- Clocks are integers that do not run backwards; codes and random values are parameters.
- Locks: each critical section is one step. Midjourney passes are interleaved item by item.
- Integer widths: quotas, sizes and times are unbounded, except for the 64-bit granule position.
- Audio: the final division by the sample rate, formats other than Ogg, short reads and I/O errors of the reader.
- OggPages.StreamIsScannedPageByPage: junk between pages must not contain the capture pattern, because such junk is itself taken for a page.
- MultiKey.Channel.Update: key strings in the form of a JSON array are not modelled; a string is a list of lines.
- MultiKey.Channel.AppendKeys: JSON arrays and Vertex keys are not modelled, for the same reason.
- MultiKey.Channel.ReportKey: is about the stored row; the copy in the memory cache, the recorded reason of a channel status and the ability table are not modelled.
- Replacing all keys and the paged key status.
- The cipher is a pair of functions of which only what `KeyCipher` states is known. Real decoding skips line breaks, so a ciphertext that was broken into lines by hand would also open; such strings are not modelled.
- MultiKeyRuns.TracksIffCarriedOut: starts from rows whose metadata agrees with their keys and whose key string, if there is one, has a key in it; creating a channel from pasted lines, some of white space only, can start out otherwise.
- Model redirects are a parameter; parsing their JSON is not modelled. Regular expressions are an uninterpreted predicate.
- Notifications and summary counters of the upstream check.
- MidjourneyPolling.PollOnce: upstream ids are identified with row ids, so two rows with one upstream id are not modelled.
- Midjourney: the one-hour limit is a flag per item, and fields that do not affect refunds are one value. The notification endpoint is not a step.
- ChannelScan.Scan: requires fewer than a batch of non-positive ids, because otherwise the loop does not end, as ChannelScan.NeverEndsIff states.
- Request bodies: the size of a read is a number rather than a buffer; clean-up of old files, resetting and resynchronising the counters, and changes of the configuration during a run.
- Prices are reals, so rounding and overflow of floats are not modelled; infinities and not-a-number are one rejected value. The conversion of chosen candidates to ratios and the other upstream formats.
- PriceDiff.CellsOfTheResult: requires distinct channel names; the caller adds the channel id to a name for that purpose.
- Billing: subscriptions as a source of funds, the trust decision (a parameter), and requests without a billing session.
- Relay: channel selection and how the retry counter moves are part of the given sequence of attempts; errors before pre-consumption and the violation fee.
- RelayTask.RelayTask: settlement of a task without a billing session, and the insertion of the task row.
- The upstream check: interleavings are modelled for one check and what is stored meanwhile (`UpstreamRaces`), not for runs of overlapping checks; the theorems of `UpstreamRuns` are about checks and applications that do not overlap.
