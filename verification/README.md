# dReader backend: verified models of its state machines and plans

A Dafny 4.11 project that models the parts of the dReader backend where several steps must fit together, and proves
what they keep. `dafny verify dfyconfig.toml` checks all of it.

The database is modelled as sequences and maps of rows, the bucket as a set of keys, the chain's guard groups and
config lines as a sequence and a map. Code that changes state in steps is a method or a class; each is proved against
a function on values, and the properties below are proved about those functions, over all inputs and all runs.

| file | what it models |
|---|---|
| `Constants`, `RaritySplit` | share tables, the supply gate, and the split of a supply by rarity |
| `InsertPlan`, `FlatInsert` | the batched insertion of candy-machine items, and the command-line tool's flat one |
| `IssueMachines` | runs of `createComicIssueCM` on one collection |
| `CouponLabels`, `GuardGroups`, `CouponCreation`, `CouponRuns` | coupon labels, their rows and guard groups, what creation stores of a request, and runs of create, add-coupon, add-currency and price update |
| `MintLimit` | mint approval, sending, settling and webhooks as interleaved events |
| `FileReferences`, `Covers`, `FileRuns` | file columns against the bucket: uploads, row updates, garbage collection |
| `NonceLease`, `KeyedMutex`, `Throttle` | the nonce lease, the request mutex, the rate limiter |
| `Revive`, `CacheService` | the JSON round trip with buffers, and the cache in front of a callback |
| `UniqueHandle`, `PrimarySale`, `Referrals`, `MintBalance` | handle generation, daily sales, referrals, the balance check |
| `Text`, `Sequences`, `Wrappers` | decimal numerals, repeated elements, optional values and results |

## Assumptions

Single-row updates are atomic. An uploaded key is no other column's key; it may be the key its own column already has.
A query result may come in any order unless the code sorts it. Arithmetic is exact: lamports, base units, thousandths.
The environment is a parameter: which uploads, row updates and deletions fail, what the chain answers, which rows other
callers mark, how many insertion batches can be built before building one throws, which user sends a transaction, when
the cache drops an entry and whether it returns one at the very end of its time, what Prisma's `not: { lt }` does with
null.

## Where the code does less than it seems to promise

Each point is an if-and-only-if or comes with a concrete run.

- A publication keeps its supply when uploading or inserting throws, and the lines of the batches sent by then; numbers
  it did not reach stay unused (`NumbersWithoutGap`). A first upload that throws is never made up for: no later
  publication of the collection loads anything (`FailedUploadIsForEver`, `FailedUploadLeavesGap`).
- The gate asks for a supply of 20 or 50 where 4 or 34 already gives every rarity an item (`NoEmptyRarityExact`).
- The flat tool depends on the order in which the database returns the metadata, and asks for none
  (`FlatAgreesOnlyInTableOrder`, `FlatOrderMatters`).
- A coupon without currency settings lets its first currency take the next coupon's label; adding that coupon is then
  refused (`NeverRefusedExactly`).
- Adding a currency in a token the coupon already has puts the group on chain before the row is rejected
  (`AddCurrencyAgrees`, `SameTokenOrphansGroup`). The price tool drops the redemption cap of the group it replaces
  (`UpdatePriceDropsCap`), and reprices the row even when its update on chain is lost (`UpdatePriceAgrees`).
- Of two coupons of one type with equally many settings only one gets another currency until a coupon of the type is
  added (`AddCurrencyRefusedExactly`, `SecondCurrencyRefused`).
- Approval counts confirmed items only, so a buyer with m open mints can pass the limit by m - 1 mints
  (`BoundIsAttained`). Four kinds of event pass it even for a buyer with one mint at a time (`OrderlyExactly`): a
  transaction sent again, whose items the receipts count again though the chain runs it once (`ResendBreaksLimit`); one
  sent by another user than it was approved for (`BorrowedApprovalBreaksLimit`); a webhook that confirms a failed
  receipt or gives it to another user (`LateWebhookBreaksLimit`); and a sync task that overlaps another one.
- A comic issue's `updateFile` deletes the old object inside its `try`: when that fails, the new object is deleted while
  the row names it (`IssueFileSoundExactly`). Cover updates lose an image stored under the key it already had
  (`StatelessCoversExactly`, `StatefulCoversExactly`).
- A nonce released by the webhook or the update tool while somebody holds it can be leased twice (`StepKeepsInv`,
  `ForcedReleaseLeasesTwice`).
- The rate limiter lets limit + 1 requests into a window (`WindowIsAttained`), and as many again each time the cache drops
  its counter (`SlidingWindow`).
- A plain object tagged `type: 'Buffer'` does not survive the cache (`RoundTrip`, `TaggedObjectIsLost`).
- Changing the email after completing a referral leaves the completion without a verified email
  (`CompletionKeptExactly`, `EmailChangeUnverifies`).
- The token quote can be short by up to half a thousandth (`TokenQuoteSufficesExactly`, `TokenQuoteCanBeShort`).
- The comment on the daily sales promises machines "that are not deleted"; whether a machine without a deletion date
  passes the filter is left to Prisma, so the results hold for either answer. Failed receipts count as sales.

## Model

| member | source | states |
|---|---|---|
| Constants.MinSupplyExact | src/constants.ts:143-150 | the gate's supply is the least for which every rarity's percentage is at least one whole item |
| Constants.MinSupplyNumbers | src/constants.ts:143-150 | that supply is 1, 20 and 50 for one, three and five rarities, and there is none for any other number |
| RaritySplit.SplitSupply | src/utils/candy-machine.ts:273-291 | the loop gives out exactly the supply, every part but the last is rounded down, and what is left never goes below zero |
| RaritySplit.SplitUnique | src/utils/candy-machine.ts:273-291 | those properties determine the parts |
| RaritySplit.LastPartBounds | src/utils/candy-machine.ts:282-287 | the last part is at least its ideal and above it by less than one item per other rarity |
| RaritySplit.GateFillsEveryRarity | src/comic-issue/comic-issue.service.ts:739-748 | a supply past the publishing gate leaves no rarity without items |
| RaritySplit.NoEmptyRarityExact | src/comic-issue/comic-issue.service.ts:739-748 | exactly which supplies leave no rarity empty |
| RaritySplit.SplitOfHundreds | src/utils/candy-machine.ts:273-291 | of a hundred items the three tables give out 100, then 70, 25 and 5, then 60, 25, 10, 3 and 2, and the same of any number of hundreds |
| InsertPlan.ChunkTransactions | src/utils/candy-machine.ts:337-359 | the transactions tile the items in order, in chunks of one to eight, and are as few as possible |
| InsertPlan.InsertCoreItems | src/utils/candy-machine.ts:312-359 | a batch writes its items from its index, numbered on from the collection's supply |
| InsertPlan.InsertRarity | src/utils/candy-machine.ts:293-309 | the batches of 200 of one rarity tile it without a gap and without an extra transaction, up to the batch whose building throws |
| InsertPlan.BatchInsertCoreItems | src/utils/candy-machine.ts:259-310 | without a table or a file for every rarity nothing is sent; otherwise the transactions tile the plan up to the batch whose building throws, the whole plan if none does; every line carries the next number and the file of an unused, unsigned row of the rarity its index belongs to |
| InsertPlan.BatchPlanExactly | src/utils/candy-machine.ts:267-284 | there is a plan exactly when the number of rows neither used nor signed has a table and every rarity of it occurs among them |
| InsertPlan.PlannedFile | src/utils/candy-machine.ts:272-291 | which rarity each index belongs to, from the rounded shares, and that its line has the file of such a row |
| InsertPlan.FilterKeeps | src/utils/candy-machine.ts:267-269 | the filter keeps exactly the rows neither used nor signed, in their order |
| InsertPlan.ThrowsExactly | src/utils/candy-machine.ts:293-309 | an insertion throws exactly when fewer batches can be built than the plan has |
| InsertPlan.StopsAt | src/utils/candy-machine.ts:293-309 | where an insertion that throws stops: the rarities before, and 200 items for each batch of this one that was built |
| InsertPlan.PlannedNames | src/utils/candy-machine.ts:324-331 | item k of a plan is named with the number offset + k + 1, whatever its rarity |
| InsertPlan.TilesFill | src/utils/candy-machine.ts:341-359 | tiling transactions leave each line of the plan at its own index |
| InsertPlan.TilesWriteOnce | src/utils/candy-machine.ts:341-359 | every index of the range is written once, no other index is written |
| InsertPlan.BatchPlanUsesSupply | src/utils/candy-machine.ts:272-291 | a plan hands out the whole supply |
| InsertPlan.SameTextSameNumber | src/utils/candy-machine.ts:327-330 | rendered item names are equal only for the same name and number |
| FlatInsert.FlatItems | src/cli/insert-items-command.ts:71-99 | the tool's loop over metadata rows builds its flat plan, or throws where the plan does not exist |
| FlatInsert.InsertItems | src/cli/insert-items-command.ts:58-115 | the tool's transactions tile the flat plan from index 0, and every line carries the file of the row its index belongs to |
| FlatInsert.FlatPlanExactly | src/cli/insert-items-command.ts:65-84 | the flat plan exists exactly when a quarter of the rows has a table, every unused, unsigned row has a share in it, and the row at its last position is left no negative number of items |
| FlatInsert.FlatLinesAreRight | src/cli/insert-items-command.ts:71-99 | each item is made from the row whose items, the share of its own rarity or what is left, it falls among |
| FlatInsert.FlatPlanTotal | src/cli/insert-items-command.ts:71-99 | the plan has the items of all rows |
| FlatInsert.BatchRefinesFlat | src/utils/candy-machine.ts:267-309 | with the rows in table order both plans exist and are the same for every supply |
| FlatInsert.SameAccount | src/cli/insert-items-command.ts:101-115 | runs that tile the same plan leave the same name and file at every index below its supply |
| FlatInsert.FlatAgreesOnlyInTableOrder | src/cli/insert-items-command.ts:61-83 | for a supply that fills every rarity the plans agree exactly when the rows are in table order |
| FlatInsert.FlatOrderMatters | src/cli/insert-items-command.ts:61-83 | three concrete rows for which the two plans differ |
| IssueMachines.IssueCollection.CreateComicIssueCM | src/candy-machine/candy-machine.service.ts:177-295 | one publication: the row with its supply, the stored metadata, and the lines on chain, also when uploading throws or inserting does after some batches |
| IssueMachines.RunsNumbered | src/candy-machine/candy-machine.service.ts:1311-1322 | over any runs a machine holds a first part of its lines, all or fewer, numbered on from the total supply of the machines before it |
| IssueMachines.RunsRightFiles | src/candy-machine/candy-machine.service.ts:248-295 | over any runs every line on chain has the file of an unused, unsigned row its run inserts from, of the right rarity |
| IssueMachines.StoredExactly | src/candy-machine/candy-machine.service.ts:269-286 | of the uploaded rows one is skipped exactly when a stored row has its file or its traits |
| IssueMachines.LoadedExactly | src/candy-machine/candy-machine.service.ts:248-295 | a run loads its machine completely exactly when its rows have a plan and no batch throws; the first upload decides the rows of all later runs |
| IssueMachines.NoNameRepeats | src/candy-machine/candy-machine.service.ts:288-295 | over any runs no two items of a collection are given the same name |
| IssueMachines.NumbersWithoutGap | src/candy-machine/candy-machine.service.ts:248-313 | the numbers 1 to total are all used exactly when every run had rows with a plan and threw in no batch |
| IssueMachines.FailedUploadIsForEver | src/candy-machine/candy-machine.service.ts:250-286 | after a first upload that throws the stored metadata stays empty and no publication ever loads a line |
| IssueMachines.UnusableUploadIsForEver | src/candy-machine/candy-machine.service.ts:250-286 | nor does one after a first upload of distinct rows without a plan |
| IssueMachines.FailedUploadLeavesGap | src/candy-machine/candy-machine.service.ts:250-267 | a concrete publication after which number 1 is never used |
| IssueMachines.OneUploadSuffices | src/candy-machine/candy-machine.service.ts:250-286 | a first upload of distinct rows with a plan serves every later run: each loads completely exactly when none of its own batches throws |
| IssueMachines.FirstUploadDecides | src/candy-machine/candy-machine.service.ts:250-295 | where no batch throws all numbers are used exactly when the first upload returns rows that have a plan |
| CouponLabels.LabelTexts | src/utils/helpers.ts:213-225 | what the label strings of each coupon type look like |
| CouponLabels.TextInjective | src/utils/helpers.ts:213-225 | two label strings are equal exactly when type and both iterations are |
| CouponLabels.LabelFits | src/utils/helpers.ts:207-211 | exactly when a label has at most six characters: the documented limits on coupons and currencies |
| CouponLabels.GetCouponsWithLabels | src/candy-machine/candy-machine.service.ts:1404-1446 | the counters that run down give each setting the number of later coupons of its type and of later settings |
| GuardGroups.ToUmiGroups | src/utils/candy-machine.ts:184-254 | one group for the authority and one for each setting, with its payment and cap |
| GuardGroups.CreateStore | src/candy-machine/candy-machine.service.ts:188-251 | creation stores rows and groups unless a coupon of the request prices one token twice, a missing token standing for SOL |
| CouponCreation.CreatedCoupons | src/candy-machine/candy-machine.service.ts:207-251 | each coupon of the request is stored with its type and supply, the vault's after them |
| CouponCreation.CreatedRows | src/candy-machine/candy-machine.service.ts:1404-1446 | each currency setting has a row with its label, token and price, and there is no other row but the vault's |
| CouponCreation.CreatedGroups | src/utils/candy-machine.ts:184-254 | each has a group that asks for that price in that token and is capped by its coupon's supply, and there is no other but the authority's |
| GuardGroups.CandyMachineStore.AddGroupOnChain | src/candy-machine/candy-machine.service.ts:1168-1260 | an existing label is refused; otherwise the group is on chain if the transaction lands |
| GuardGroups.CandyMachineStore.AddCandyMachineCoupon | src/candy-machine/candy-machine.service.ts:728-796 | the new state on every outcome; when done the coupon has the given type and supply, its setting the given token and price, and its group, if the update landed, asks for that price and is capped by that supply |
| GuardGroups.AddCouponStores | src/candy-machine/candy-machine.service.ts:728-796 | the same, and the exact outcome: the token is supported and the label of the type, the number of its coupons and 0 is free |
| GuardGroups.CandyMachineStore.AddCandyMachineCouponCurrency | src/candy-machine/candy-machine.service.ts:798-861 | the new state on every outcome; when done one row with the given token and price, and a group with that price and the coupon's supply as its cap |
| GuardGroups.AddCurrencyStores | src/candy-machine/candy-machine.service.ts:798-861 | the same, and the exact outcome: token supported and not taken, label free |
| GuardGroups.CandyMachineStore.UpdateGroupPrice | src/cli/update-cm-group-price-command.ts:46-114 | the group is replaced without a cap, then the row is repriced if there is one |
| GuardGroups.UpdatePriceStores | src/cli/update-cm-group-price-command.ts:46-114 | only rows of the label change, and only in their price; the group has the given token and price and no cap |
| CouponRuns.AddCouponKeepsInv | src/candy-machine/candy-machine.service.ts:744-752 | from every reachable state a coupon in a supported token is added, with a label nothing uses |
| CouponRuns.AddCurrencyKeepsInv | src/candy-machine/candy-machine.service.ts:820-838 | labels stay unique and in range; a label that exists changes nothing |
| CouponRuns.RunKeepsInv | src/candy-machine/candy-machine.service.ts:728-861 | labels stay unique in rows and groups over every run, lost updates included |
| CouponRuns.CreatedInv | src/candy-machine/candy-machine.service.ts:207-221 | creation, with its vault coupon, establishes that invariant |
| CouponRuns.NeverRefusedExactly | src/candy-machine/candy-machine.service.ts:1228-1236 | add-coupon is never refused, in any run, exactly when every coupon was created with a price |
| CouponRuns.AddCouponAgrees | src/candy-machine/candy-machine.service.ts:764-793 | chain and rows still agree exactly when the update landed or nothing was attempted |
| CouponRuns.AddCurrencyAgrees | src/candy-machine/candy-machine.service.ts:840-861 | they still agree exactly when the update lands and the coupon had no price in that token |
| CouponRuns.SameTokenOrphansGroup | src/candy-machine/candy-machine.service.ts:840-861 | a concrete coupon whose second price in one token leaves a group without a row |
| CouponRuns.UpdatePriceAgrees | src/cli/update-cm-group-price-command.ts:63-114 | they still agree exactly when the tool names the row's own token, or for a lost update when there is no row or the price is the old one |
| CouponRuns.UpdatePriceDropsCap | src/cli/update-cm-group-price-command.ts:91-103 | the repriced group loses its redemption cap, no other group changes |
| CouponRuns.CreatedAgrees | src/candy-machine/candy-machine.service.ts:207-251 | after creation there is one group for each row, with label, payment kind and price |
| CouponRuns.RunAgrees | src/candy-machine/candy-machine.service.ts:728-861 | chain and rows agree after every run of operations used as meant |
| CouponRuns.AddCurrencyRefusedExactly | src/candy-machine/candy-machine.service.ts:820-846 | in any run a further currency is refused exactly when an operation before it put a group under its label |
| CouponRuns.SecondCurrencyRefused | src/candy-machine/candy-machine.service.ts:820-846 | of two coupons of a type with equally many settings the second gets no currency after the first |
| MintLimit.ReceiptTable.SyncCollectibleComicMintReceipts | src/digital-asset/digital-asset.service.ts:1153-1251 | a processing receipt ends confirmed exactly when its transaction landed without an error, failed exactly when it landed with one or is not found, and stays otherwise; all others stay |
| MintLimit.SyncSettles | src/digital-asset/digital-asset.service.ts:1176-1251 | the same for one event, which changes no other receipt |
| MintLimit.ApprovedExactly | src/candy-machine/candy-machine.service.ts:1570-1600 | when a mint is approved, by wallet or by user, with no limit, a limit of zero and any other |
| MintLimit.SendStores | src/candy-machine/candy-machine.service.ts:446-588 | what a first and a repeated send store, and when they are refused |
| MintLimit.WebhookWrites | src/webhooks/helius/helius.service.ts:827-842 | the webhook confirms the receipt and names the owner's user in it if there is one |
| MintLimit.ItemsCounted | src/candy-machine/candy-machine.service.ts:962-993 | what the two queries add up |
| MintLimit.ExposureLaw | src/candy-machine/candy-machine.service.ts:561-588 | how every event changes the approved, open and confirmed items of a buyer, sending by any user and sending again included |
| MintLimit.OrderlyExactly | src/candy-machine/candy-machine.service.ts:446-588 | for every event but an approval the exact condition under which it adds no items: who sends, whether it was sent before, what a late sync or webhook finds |
| MintLimit.SendOrderlyExactly | src/candy-machine/candy-machine.service.ts:582-586 | a first send adds items to a query exactly when it is counted by user, and the sender is not who it was approved for |
| MintLimit.NoExcessExactly | src/candy-machine/candy-machine.service.ts:446-588 | a run adds no unapproved items exactly when all its events meet those conditions |
| MintLimit.ConfirmedWithinExcess | src/candy-machine/candy-machine.service.ts:962-993 | over any interleaving at all they stay within limit + (m - 1) * n and the items the run added unapproved |
| MintLimit.ApprovalFits | src/candy-machine/candy-machine.service.ts:1570-1600 | an approval fits within the limit plus what was open |
| MintLimit.ConfirmedWithinLimit | src/candy-machine/candy-machine.service.ts:962-993 | over any interleaving of such events confirmed items stay within limit + (m - 1) * n, so within the limit for m = 1 |
| MintLimit.BoundIsAttained | src/candy-machine/candy-machine.service.ts:1570-1600 | some run confirms exactly that many, for every limit, m and n |
| MintLimit.SettledIsFinal | src/digital-asset/digital-asset.service.ts:1176-1251 | a confirmed or failed receipt never changes again, unless a webhook or an overlapping sync task writes it |
| MintLimit.LateWebhookBreaksLimit | src/webhooks/helius/helius.service.ts:827-842 | a run in which the webhook confirms a failed receipt and the limit is passed twice over |
| MintLimit.ResendBreaksLimit | src/candy-machine/candy-machine.service.ts:446-588 | a run in which one transaction is sent again and the limit is passed twice over |
| MintLimit.BorrowedApprovalBreaksLimit | src/candy-machine/candy-machine.service.ts:582-586 | a run in which a user sends a transaction approved for somebody else and passes the limit twice over |
| FileReferences.FileStore.GarbageCollectNewFiles | src/aws/s3.service.ts:138-147 | the loop deletes new keys that are not old ones, until a deletion throws |
| FileReferences.FileStore.GarbageCollectOldFiles | src/aws/s3.service.ts:164-173 | the loop deletes old keys that are not new ones, until a deletion throws |
| FileReferences.CollectSpec | src/aws/s3.service.ts:138-173 | only doomed keys that are not kept go; all of them unless a deletion threw; exactly when one throws |
| FileReferences.FileStore.ComicUpdateFiles | src/comic/comic.service.ts:325-380 | the whole new state on every branch; without a refused file and a failed row update the cover, banner and logo columns hold the keys uploaded under their names, or their old ones |
| FileReferences.ComicFilesStored | src/comic/comic.service.ts:325-380 | column by column what a request stores, exactly how it ends, and exactly which objects are there when it went through |
| FileReferences.IssueFilesStored | src/comic-issue/comic-issue.service.ts:575-616 | the same for an issue's pdf; one of more than 104857600 bytes is refused before anything is stored |
| FileReferences.AcceptedExactly | src/aws/s3.service.ts:164-173 | for any files: clean-up fails exactly when the bucket holds on to a replaced object, else exactly the new objects and the old ones not replaced are there |
| FileReferences.FileStore.ComicUpdateFile | src/comic/comic.service.ts:382-413 | the whole new state on every branch |
| FileReferences.FileStore.IssueUpdateFiles | src/comic-issue/comic-issue.service.ts:575-616 | the whole new state on every branch, a pdf over the size limit included |
| FileReferences.FileStore.IssueUpdateFile | src/comic-issue/comic-issue.service.ts:641-667 | the whole new state on every branch, with the deletion inside the try |
| FileReferences.RejectedFilesSound | src/comic/comic.service.ts:364-377 | a rejected request changes no column, nothing dangles, and no new object is left once clean-up went through |
| FileReferences.AcceptedFilesSound | src/comic/comic.service.ts:369-380 | an accepted request stores its keys, nothing dangles or is shared, replaced objects are gone |
| FileReferences.ReplaceFileSound | src/comic/comic.service.ts:394-412 | the same for one file, whatever fails |
| FileReferences.IssueFileSoundExactly | src/comic-issue/comic-issue.service.ts:649-663 | the issue's file dangles exactly when its old object cannot be deleted and its new one can |
| Covers.MergeSpec | src/comic-issue/comic-issue.service.ts:1042-1052 | merging succeeds exactly when every image-less cover has an old one of its rarity, and keeps that image |
| Covers.StatelessCoversExactly | src/comic-issue/comic-issue.service.ts:1011-1078 | exactly when the update goes through, unknown shares included, what every column holds then, which objects go, and exactly when nothing dangles |
| Covers.StatefulCoversExactly | src/comic-issue/comic-issue.service.ts:1080-1128 | the same for stateful covers |
| Covers.StatelessColumns | src/comic-issue/comic-issue.service.ts:1011-1078 | the issue has the stateless covers of the request and no other, every other column stays |
| Covers.StatelessObjects | src/comic-issue/comic-issue.service.ts:1011-1078 | exactly which objects are there after any outcome |
| Covers.StatefulColumns | src/comic-issue/comic-issue.service.ts:1080-1128 | the issue has the stateful covers of the request and no other, every other column stays |
| Covers.StatefulObjects | src/comic-issue/comic-issue.service.ts:1080-1128 | exactly which objects are there after any outcome |
| Covers.HasShareExactly | src/constants.ts:115-141 | which rarities have a share for which number of covers |
| Covers.UpdateStatelessCovers | src/comic-issue/comic-issue.service.ts:1011-1078 | the method reaches the state those results are about |
| Covers.UpdateStatefulCovers | src/comic-issue/comic-issue.service.ts:1080-1128 | the method reaches the state those results are about |
| FileRuns.StepSoundExactly | src/comic-issue/comic-issue.service.ts:618-667 | of all file operations only three can leave a dangling reference, each exactly on its condition |
| FileRuns.RunSound | src/aws/s3.service.ts:131-184 | a run of file operations in any order stays sound throughout exactly when none of them is harmful |
| FileRuns.IssueFileCanDangle | src/comic-issue/comic-issue.service.ts:649-663 | a concrete issue whose pdf is lost |
| FileRuns.CoverCanDangle | src/comic-issue/comic-issue.service.ts:1100-1128 | a concrete stateful cover whose image is lost |
| NonceLease.StepKeepsInv | src/nonce/nonce.service.ts:164-183 | no account is held twice after any step, unless a release is forced on a held account |
| NonceLease.NeverLeasedTwice | src/nonce/nonce.service.ts:152-183 | in every interleaving without such a release no account is leased twice |
| NonceLease.ForcedReleaseLeasesTwice | src/cli/update-nonce-command.ts:30-44 | a run in which a forced release leases one account to two callers |
| NonceLease.Partition | src/nonce/nonce.service.ts:164-183 | accounts split into available, held and abandoned ones, and rows never come or go |
| NonceLease.OnlyLastDepthAbandons | src/nonce/nonce.service.ts:176-177 | an account is abandoned exactly by a successful update at depth 6 |
| NonceLease.AttemptsByDepth | src/nonce/nonce.service.ts:164-183 | the depth counts the attempts, and there are at most seven |
| NonceLease.UpdateExactly | src/nonce/nonce.service.ts:171-182 | what one update does to the row and its caller, depth 6 included |
| NonceLease.LeaseRoundTrip | src/nonce/nonce.service.ts:152-183 | a lease without a rival takes a free account, and its end leaves the table as it was |
| NonceLease.NonceTable.GetNonce | src/nonce/nonce.service.ts:164-183 | a returned account was available and is marked, no rival marked it first; there is an attempt whenever a row is available, and without a result either no row is left, the last race was lost, or this was attempt seven; exactly which rows are marked |
| KeyedMutex.BuildKey | src/mutex/mutex.interceptor.ts:34-60 | the key lists every lock value as its origin, a colon and the value read from there; it throws exactly for a missing user, body or query parameter |
| KeyedMutex.SameKeyExactly | src/mutex/mutex.interceptor.ts:34-63 | two requests of a route share a key exactly when they agree on every lock value |
| KeyedMutex.EntryInjective | src/mutex/mutex.interceptor.ts:17-18 | an entry determines its origin and value |
| KeyedMutex.StepKeepsInv | src/mutex/mutex.interceptor.ts:62-76 | every step keeps the invariant, and the mutex of a key is never replaced |
| KeyedMutex.MutualExclusion | src/mutex/mutex.interceptor.ts:62-76 | in every run equal keys share one mutex, at most one request of a key runs, and nobody overtakes |
| KeyedMutex.WaitingBehindRunner | src/mutex/mutex.interceptor.ts:65-65 | a request waits only while an earlier one of its key runs |
| KeyedMutex.ReleasesOnce | src/mutex/mutex.interceptor.ts:67-76 | a request frees its mutex exactly once, on success or error |
| KeyedMutex.MutexService.GetOrSet | src/mutex/mutex.service.ts:13-21 | a present entry is returned, a missing one created |
| Throttle.GlobalThrottler.Intercept | src/interceptor/global-throttler-interceptor.ts:25-42 | in times: without an entry, or with one older than the cooldown, the request is accepted and counted as the first; with a younger one it is accepted exactly while the count is at most the limit; other routes are untouched |
| Throttle.CounterIsChain | src/interceptor/global-throttler-interceptor.ts:31-40 | the counter is the length of the current chain of accepted requests since the cache last dropped it, at most limit + 1 |
| Throttle.RefusedExactly | src/interceptor/global-throttler-interceptor.ts:33-37 | a request is refused exactly when it continues a chain of limit + 1; after expiry it is accepted |
| Throttle.RefusedInTimes | src/interceptor/global-throttler-interceptor.ts:33-37 | in times: refused exactly when the last limit + 1 accepted requests the counter knows, and this one, follow each other within the cooldown |
| Throttle.ExpiryInTimes | src/interceptor/global-throttler-interceptor.ts:33-40 | over any run, more than a cooldown after the last accepted request one is accepted and the counter is 1; less than one after it the counter goes on |
| Throttle.KeptSinceDrop | src/interceptor/global-throttler-interceptor.ts:33-40 | the counter knows exactly the requests accepted since the cache last dropped it |
| Throttle.SlidingWindow | src/interceptor/global-throttler-interceptor.ts:31-40 | every half-open window of one cooldown holds at most (limit + 1) * (drops in it + 1) accepted requests, so limit + 1 without drops |
| Throttle.WindowIsAttained | src/interceptor/global-throttler-interceptor.ts:33-37 | limit + 1 requests of one instant are accepted |
| Revive.RoundTrip | src/cache/cache.service.ts:14-23 | a value survives stringify and the reviver exactly when no plain object in it is tagged as a buffer |
| Revive.StringifyExactly | src/cache/cache.service.ts:22-23 | the stored text holds no buffer: one becomes a tagged object of its bytes, a tree without buffers stays as it is |
| Revive.TaggedObjectIsLost | src/cache/cache.service.ts:16-18 | a concrete tagged object that the reviver throws on |
| CacheService.HitIsRecent | src/cache/cache.service.ts:8-29 | a hit is the callback's answer of an instant its time to live covers, with no removal since |
| CacheService.FreshIsHit | src/cache/cache.service.ts:14-23 | an answer is served for as long as its time to live covers and nothing removed it |
| CacheService.IncludesExactly | src/cache/cache.service.ts:43-46 | a pattern matches exactly the keys it is a part of |
| CacheService.FetchExactly | src/cache/cache.service.ts:20-28 | a call changes only its own entry, and only when the callback was asked and answered |
| CacheService.RemovedIsMiss | src/cache/cache.service.ts:39-50 | after a removal the next answer is the current one |
| CacheService.Service.FetchAndCache | src/cache/cache.service.ts:8-29 | returned value and new store of one call, a throwing callback included |
| CacheService.Service.DeleteByPattern | src/cache/cache.service.ts:43-50 | exactly the keys that include the pattern are gone |
| UniqueHandle.CreateUniqueHandle | src/creator/creator.service.ts:116-152 | at most 20 characters; the least number no last segment takes; free exactly when the name or some number is free; always with fewer than 998 rivals |
| UniqueHandle.LastSegmentExactly | src/creator/creator.service.ts:136-140 | the last segment is the end of the handle without an underscore in it and with one before it, if anything is |
| UniqueHandle.Pigeonhole | src/creator/creator.service.ts:130-143 | taking k different numbers takes k handles |
| PrimarySale.GetPrimarySale | src/creator/user-creator.service.ts:339-390 | the loops compute the day's sale of the selected machines |
| PrimarySale.SaleIsValue | src/creator/user-creator.service.ts:373-387 | summing by setting is summing by receipt |
| PrimarySale.CountedOnce | src/creator/user-creator.service.ts:373-387 | with unique labels a receipt is counted once, at its own setting's price |
| PrimarySale.KeysAreUnique | prisma/schema.prisma:374-374 | labels unique in each machine make the keys unique |
| PrimarySale.KeysExactly | src/creator/user-creator.service.ts:345-371 | exactly which machines and settings are queried |
| PrimarySale.FilterIsHarmless | src/creator/user-creator.service.ts:345-351 | leaving out machines deleted before the day changes nothing |
| PrimarySale.SnapshotsAddUp | src/creator/user-creator.service.ts:341-390 | over consecutive midnights the daily sales add up to the value of all receipts of the interval |
| PrimarySale.SnapshotsCountOnce | src/creator/user-creator.service.ts:341-390 | with unique labels they add up to each receipt once, at its own setting's price |
| Referrals.UserService.RedeemReferral | src/user/user.service.ts:110-156 | the new rows on every outcome |
| Referrals.UserService.VerifyEmail | src/user/user.service.ts:458-496 | the new rows on every outcome |
| Referrals.ReferralsConserved | src/user/user.service.ts:119-154 | over any run remaining plus used referrals stay each user's quota, none is negative, nobody refers themselves |
| Referrals.ReferrerStays | src/user/user.service.ts:137-141 | nobody is referred twice |
| Referrals.ReferredExactly | src/user/user.service.ts:113-147 | in every run a user is referred by somebody exactly when some operation redeemed a referral of theirs while it could |
| Referrals.RedeemExactly | src/user/user.service.ts:110-156 | exactly when a referral is redeemed, logged or refused, and which columns change |
| Referrals.VerifyExactly | src/user/user.service.ts:458-496 | exactly when a token is accepted, and which columns change |
| Referrals.CompletionKeptExactly | src/user/user.service.ts:481-489 | completed stays referred and verified, except exactly when a completed user changes their email |
| Referrals.CompletedExactly | src/user/user.service.ts:481-489 | in every run a referral is completed exactly by a successful verification that comes after it |
| Referrals.CompletedMeansVerified | src/user/user.service.ts:481-489 | over runs without that, a completed referral means referred and verified |
| Referrals.EmailChangeUnverifies | src/user/user.service.ts:342-348 | a concrete user who completed and is not verified |
| MintBalance.EnoughExactly | src/utils/candy-machine.ts:397-452 | in numbers: the check passes exactly when both balances cover the price of the items and the fees, 5500000 lamports for a Core item, 29000000 for another, none when sponsored; else what is missing first |
| MintBalance.SolQuoteSuffices | src/utils/candy-machine.ts:386-440 | the SOL quote exceeds the whole shortfall by more than 0.0005 and at most 0.0015 SOL, and topping up by it passes every SOL check |
| MintBalance.TokenQuote | src/utils/candy-machine.ts:390-395 | the token quote is within half a thousandth of the shortfall |
| MintBalance.TokenQuoteSufficesExactly | src/utils/candy-machine.ts:441-450 | the token quote is enough exactly when it was not rounded down |
| MintBalance.TokenQuoteCanBeShort | src/utils/candy-machine.ts:390-395 | a concrete short quote |

## Left out

- Solana, Metaplex, Umi, Helius, Irys and S3 calls, transaction building and signatures: only their effect on state is kept.
- Controllers, guards, DTO validation, mail, notifications, raw SQL queries, auctions, seeds: they hold no state machine of their own, or one that foreign programs keep.
- Two calls of createComicIssueCM, add-coupon or add-currency at the same time: each reads its counts and writes in one step here.
- Insertion transactions are sent without waiting for them; a machine's account is what the sent ones write when all land. `landed` covers the guard updates.
- A price tool run on a label that is used neither in the rows nor on chain: excluded from the label invariant by `KnownLabel`.
- Whitelists, coupon dates and supply checks of a mint: they only refuse more mints. A transaction names the items it was approved for; a send whose receipt cannot be stored is not modelled.
- The publication guard in front of an issue's file updates, cover updates of an issue that does not exist (they throw first), and the file updates of campaigns, creators, users and genres: the same pattern.
- Objects nobody refers to (zero-size covers, uploads before a failed row update): only dangling and shared references are excluded.
- Two file operations on one row at the same time, and how a file key is put together: keys are opaque strings, fresh by assumption.
- The JSON text itself and the key text of the mutex: both are modelled as trees, by sections 25.5.1 and 25.5.2 of ECMA-262; dates come back as strings and are not part of the trees.
- A callback of the cache that takes time or returns undefined, and the limit on cached entries other than dropping them (`Evict`).
- A throttler cooldown of 0, which means no expiry to the cache library; and two requests between each other's read and write of the counter.
- A request that neither answers nor fails keeps its mutex, as in the code.
- UniqueHandle.CreateUniqueHandle: snake-casing and the conversion of other last segments to numbers are parameters.
- Daylight saving: midnights are any ordered instants.
