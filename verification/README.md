# Verified models of TORGNEXA's protocol and text cores

This project models the decision logic of ten parts of the repository in Dafny and
proves what callers rely on. Remote systems, clocks and concurrent callers are
parameters: a statement "for every run" ranges over everything a portal, a network
or a scheduler may do within the stated assumptions. Where the source works step by
step, the model is a method or a class with the same steps, proved equal to a
function; the laws are lemmas about that function.

`dafny verify dfyconfig.toml` checks everything.

## The parts

**Bitrix24 calls** (`BitrixCalls.dfy`). How a reply becomes an error and which
failed writes count as ambiguous. A remote error whose metadata is refused is
returned as a typed nil pointer; asking it for its category crashes. `SuccessIff`,
`CrashIff` and `AmbiguousIff` say for every reply which case it is.

**Bitrix24 upsert** (`BitrixUpsert.dfy`). The portal is a map from ids to items.
A write may land whatever it replies, except that a success reply means it landed;
a landed write stores the sent kind and origin, and anything else in the remaining
fields. A read shows the current items or fails; there is no other writer, and a
write does not land after the read-back. Under these assumptions an origin held at most
once stays so through every run in which it is only asked for by origin, whatever
happens to other origins; receipts are truthful, and a retry after a receipt is a
duplicate. Requests by id can move an origin onto a second entity; the exact condition
and an example are proved. A request that repeats a contact id can
never be confirmed, because contacts come back without repetitions, and writes again
on each attempt. For every request, store and behaviour of the portal it is also said, in
terms of the stored fields, when it is a duplicate, when it is written, when it gets a
receipt, and for what reason it fails otherwise.

**Bitrix24 product rows** (`BitrixRows.dfy`). Sorted signatures decide equality of
rows as multisets, the paging loop returns the whole list or an error, and a receipt
means the wanted rows are there; which requests get which receipt, and what the others
fail for, is told from what the portal holds and does. `Reconciled` does not imply that the write landed:
the first reading may fail and still be followed by a write. The exact condition and
an example are proved.

**Bitrix24 paging** (`BitrixPaging.dfy`). Pages of any size up to fifty over remote
pages of fifty: the walk returns the list once, in order, the early stop is never
taken, and cursors strictly advance whatever the portal returns.

**MoySklad stock** (`MoyskladInventory.dfy`). A list of rows with stores inside,
flattened through a cursor into the middle of a row. The list is stable, its rows are
usable and no pair of product and store occurs twice. With windows that do not shrink,
the walk is the flattened list. With a smaller window the page may begin a row again;
`ContinuesIff` gives the exact condition on a single call. Without any assumption on the
remote, `RefusedIff` says which responses are refused and `PageIsStretch` what the page
holds otherwise.

**CBR rates** (`UnitRate.dfy`). Digit-string division of a decimal by a power of ten:
refused exactly for the listed reasons, otherwise exact and canonical.

**Marketplace live smoke** (`LiveSmoke.dfy`). The write section with its recovery
paths, against an arbitrary remote (discipline of writes, bounds on writes and
readings) and against an honest one (restoration safety, and restoration whenever
nothing but the test write fails).

**OpenAPI reader of the SDK generator** (`OpenApiReader.dfy`, `ParameterLists.dfy`,
`OpenApiProperties.dfy`, `OpenApiPrinting.dfy`, `OpenApiRoundTrip.dfy`,
`OpenApiComponents.dfy`). The line-driven
reader: one operation per method line, with what the lines around it say, and reading
undoes printing. It does so not for every document: a `$ref` in a path's own parameter
list is skipped without an error, and a path's parameters written behind an operation
reach only that operation. The exact condition on the written document, for one
operation and for a whole document, and an example of each kind are proved. References
are taken to mean what the published document defines; for documents with definitions of
their own, which the reader never looks at, `ReadingGoesByPublishedIff` says when it reads
what they say. An omitted
`required` means false, as in section 4.8.12 of the OpenAPI Specification 3.1.0. A
parameter that an operation repeats does not override the one of its path, as section
4.8.10 has it; what a document says is taken with the path's parameter first, and
`OverridingMakesNoDifferenceIff` says when that is the same.

**Migration squash and package index** (`MigrationSquash.dfy`, `PackageIndex.dfy`).
Squashing preserves meaning for every way of executing SQL texts, in general and for the
generator's own groups, comments and history insert; stripping recovers payloads;
regeneration keeps curated text and forgets earlier file trees.

**Token cache, load report, exact sets** (`TokenCache.dfy`, `LoadReport.dfy`,
`ExactSets.dfy`). Concurrent completions over the shared cache, read off a log of what
each of them did with the cache and the network; nearest-rank percentiles over the
reals; the event-stream coordinator over every interleaving; and set checks by counting.

`Text.dfy`, `Digits.dfy`, `Ordering.dfy` and `Distinctness.dfy` hold the string,
number, sorting and counting vocabulary the parts share.

## Model

| member | source | states |
|---|---|---|
| BitrixCalls.CrashIff | connectors/crm/bitrix24/connector.go:122-189 | classifying a failed write dereferences a nil error exactly on error replies, by status or by error text, whose request id is refused or whose retry delay is too long or not due for the kind of error |
| BitrixCalls.CrashExample | connectors/crm/bitrix24/connector.go:147-189 | a rate-limited reply with an unusable request id, on which classifying a failed write crashes |
| BitrixCalls.AmbiguousIff | connectors/crm/bitrix24/connector.go:186-189 | ambiguous are exactly: no reply, and error replies worth a retry (any status but nine, or an error text about limits) with accepted metadata |
| BitrixCalls.SuccessIff | connectors/crm/bitrix24/connector.go:122-185 | a call succeeds exactly on a 2xx reply of bounded size with JSON that reports no error |
| BitrixCalls.DelayWithoutOverflow | internal/platform/connectors/errors.go:53-75 | for delays that fit a 64-bit duration, the refusal is about more than a day, or any delay at all on a non-retryable category, in milliseconds |
| BitrixUpsert.CollectContacts | connectors/crm/bitrix24/read.go:62-77 | the projection's loop yields the distinct non-empty contact ids in order of first appearance, with the single contact last |
| BitrixUpsert.DistinctInOrder | connectors/crm/bitrix24/read.go:62-77 | more ids only add at the end: the contacts of a beginning of the list are a beginning of the contacts |
| BitrixUpsert.EqualStringsIsMultisetEquality | connectors/crm/bitrix24/write.go:146-160 | comparing sorted copies is equality of the lists as multisets |
| BitrixUpsert.MatchIff | connectors/crm/bitrix24/write.go:129-145 | a stored item matches a request if and only if it is readable, of its kind and origin, and holds the title (company), the three names and the company (contact), or title, stage, company, opportunity, currency, exactly the requested contacts, each requested once, and for deals the pipeline |
| BitrixUpsert.WritableIff | connectors/crm/bitrix24/write.go:12-83 | a request is refused before anything is sent if and only if a company, contact or pipeline id it would write is not a positive 64-bit number |
| BitrixUpsert.DuplicateIff | connectors/crm/bitrix24/write.go:174-199 | a request is answered as a duplicate, without a write, if and only if it can be written, the lookup answers, and the named item, or the only holder of the origin, shows it field by field |
| BitrixUpsert.WritesIff | connectors/crm/bitrix24/write.go:174-209 | a request goes on to an addition or an update if and only if it can be written, the lookup answers, and it finds nothing of the origin, or one readable item that differs from it in a field |
| BitrixUpsert.StopsFor | connectors/crm/bitrix24/write.go:162-199 | any other request ends before a write, for a reason told from the request and the lookup: ids, a failed reading, an item that is not there, or an unusable response |
| BitrixUpsert.AppliedIff | connectors/crm/bitrix24/write.go:209-249 | a written request gets an applied receipt, reconciled exactly if the call did not succeed, if and only if the reply is success or ambiguous and the read-back finds the requested fields at the target, at the reported id of an addition, or at the only holder of the origin |
| BitrixUpsert.FailsFor | connectors/crm/bitrix24/write.go:209-249 | and otherwise it crashes or fails for a reason told from the reply, with one mutation and the store as the write left it |
| BitrixUpsert.LandKeepsOnePerOriginIff | connectors/crm/bitrix24/write.go:200-209 | after a landed write of an origin at most one entity holds it if and only if nobody but the target held it before |
| BitrixUpsert.UpsertKeepsOnePerOrigin | connectors/crm/bitrix24/write.go:162-252 | an origin held at most once stays so, for every behaviour of the portal and every state of other origins, through requests by origin and through requests by id for another origin |
| BitrixUpsert.RunKeepsOnePerOrigin | connectors/crm/bitrix24/write.go:104-252 | so it does through every mixed run of such requests, with ambiguous failures, crashes and unreadable replies |
| BitrixUpsert.AtMostOneMutationEach | connectors/crm/bitrix24/write.go:162-252 | every run issues at most one mutating request per attempt |
| BitrixUpsert.RunKeepsEveryOrigin | connectors/crm/bitrix24/write.go:104-252 | in particular runs of requests by origin keep at most one entity for every origin at once |
| BitrixUpsert.UpsertByIdKeepsOnePerOriginIff | connectors/crm/bitrix24/write.go:178-187 | after a request by id at most one entity holds the origin if and only if the write does not land or nobody else held it |
| BitrixUpsert.SecondHolderExample | connectors/crm/bitrix24/write.go:178-187 | a request by id after which two entities hold the same origin, in a portal where every origin was held at most once |
| BitrixUpsert.TwoHoldersBlock | connectors/crm/bitrix24/write.go:119-121 | once an origin is held twice, requests by origin fail without writing |
| BitrixUpsert.ReceiptIsTruthful | connectors/crm/bitrix24/write.go:195-249 | a receipt names an entity that holds the requested fields; a duplicate changed nothing; an applied one landed, was needed, and is marked reconciled exactly if the write call failed |
| BitrixUpsert.RetryIsDuplicate | connectors/crm/bitrix24/write.go:195-198 | after a receipt the same request, by origin or by id, is answered as a duplicate for the same entity, without a write |
| BitrixUpsert.LandedAdditionIsFound | connectors/crm/bitrix24/write.go:209-227 | an addition that landed is never added again by a later request for the origin, whatever its caller was told |
| BitrixUpsert.WrittenIsCompared | connectors/crm/bitrix24/write.go:31-145 | on a portal that stores what it is sent, the stored item shows the request if and only if every field the request leaves out was empty and every number is in plain spelling: the fields written and compared agree for every kind |
| BitrixUpsert.RepeatedContactsGetNoReceipt | connectors/crm/bitrix24/write.go:129-160 | a lead or deal request that repeats a contact id is never given a receipt |
| BitrixUpsert.RepeatedContactsWriteAgain | connectors/crm/bitrix24/write.go:195-209 | yet every attempt whose lookup succeeds, by origin or by id, writes |
| BitrixUpsert.UpsertCRMEntity | connectors/crm/bitrix24/write.go:162-252 | the source's steps on a portal object produce the store, the outcome and the number of mutations that the laws above are about |
| BitrixRows.SignatureInjective | connectors/crm/bitrix24/write.go:254-269 | fields without NUL are recovered from a signature, so equal signatures mean equal rows |
| BitrixRows.SameSignatureIffSameRows | connectors/crm/bitrix24/write.go:254-280 | equal sorted signatures if and only if the rows are equal as multisets |
| BitrixRows.ReadAllRows | connectors/crm/bitrix24/write.go:281-300 | the paging loop returns all rows in order exactly if there are at most 100050, every one can be projected and no page that is asked for fails |
| BitrixRows.Compare | connectors/crm/bitrix24/write.go:345-346 | the comparison succeeds exactly if everything can be read and equals the wanted rows as a multiset |
| BitrixRows.ReplaceCRMProductRows | connectors/crm/bitrix24/write.go:322-365 | the source's steps on a portal object produce the rows, the outcome and the mutations that the laws below are about |
| BitrixRows.WritableIff | connectors/crm/bitrix24/write.go:301-335 | a replacement is refused before anything is sent if and only if the owner, or a product that is given, is not a positive number |
| BitrixRows.DuplicateIff | connectors/crm/bitrix24/write.go:344-349 | nothing is sent and the answer is a duplicate if and only if the first reading reads everything and shows the wanted rows as a multiset |
| BitrixRows.AppliedIff | connectors/crm/bitrix24/write.go:345-363 | otherwise, also after a failed first reading, the rows are sent once, and there is an applied receipt, reconciled exactly if the call did not succeed, if and only if the reply is success or ambiguous and the second reading reads everything and shows the wanted rows as a multiset |
| BitrixRows.FailsFor | connectors/crm/bitrix24/write.go:322-363 | without a receipt it crashes or fails for a reason told from the request and the reply |
| BitrixRows.ReceiptMeansRowsAreThere | connectors/crm/bitrix24/write.go:344-363 | a receipt means the portal holds the wanted rows as a multiset; a duplicate changed nothing; an applied receipt that is not reconciled landed |
| BitrixRows.ReconciledMeansLandedIff | connectors/crm/bitrix24/write.go:345-358 | a reconciled receipt implies that the write landed if and only if the first reading did not fail on rows that already were the wanted ones |
| BitrixRows.ReconciledWithoutLandingExample | connectors/crm/bitrix24/write.go:345-358 | a reconciled receipt for a write that never landed |
| BitrixRows.RetryIsDuplicate | connectors/crm/bitrix24/write.go:346-349 | after a receipt the same request changes nothing and is answered as a duplicate |
| BitrixPaging.CollectPage | connectors/crm/bitrix24/read.go:120-151 | the collecting loop yields the projected items of the slice and the next cursor; an item that cannot be projected, and a cursor beyond the remote page, are errors |
| BitrixPaging.CursorRoundTrip | connectors/crm/bitrix24/cursor.go:17-40 | every cursor handed out decodes to itself under its own fingerprint and to an error under any other |
| BitrixPaging.CursorsAdvance | connectors/crm/bitrix24/cursor.go:41-53 | whatever rows and total the portal returns, a follow-up cursor is later in (start, skip) order and starts inside the reported total |
| BitrixPaging.WalkRankDecreases | connectors/crm/bitrix24/cursor.go:41-53 | with totals up to a bound every page that hands out a cursor lowers a natural number |
| BitrixPaging.WalkIsFinite | connectors/crm/bitrix24/cursor.go:41-53 | whatever the portal answers, with totals up to a bound any chain of follow-up cursors is at most as long as the rank of its first one |
| BitrixPaging.HonestPage | connectors/crm/bitrix24/read.go:125-151 | a page of an honest portal is the next stretch of the list, is followed by an encodable cursor right behind it exactly if something is left, and never stops early |
| BitrixPaging.FollowedToTheEnd | connectors/crm/bitrix24/cursor.go:41-53 | following cursors over any reader whose pages take off what is ahead of them returns all that was ahead, within one page more than there are items |
| BitrixPaging.WalkIsList | connectors/crm/bitrix24/read.go:125-151 | for any page sizes 1 to 50, a walk from any cursor returns the rest of the list once and in order |
| BitrixPaging.FullWalk | connectors/crm/bitrix24/read.go:111-153 | from the first page on it returns the whole list |
| MoyskladInventory.ReadERPInventory | connectors/erp/moysklad/inventory.go:22-124 | the nested loops and the next-cursor computation equal the entry-by-entry page function, including every refusal |
| MoyskladInventory.TakeIsStretch | connectors/erp/moysklad/inventory.go:56-100 | whenever the page is not refused, it takes the next stretch of the flattened list from its position, as long as the limit allows, and stops right behind it |
| MoyskladInventory.FreshIff | connectors/erp/moysklad/inventory.go:89-93 | checking each key against those before it passes exactly if all keys are different and none was seen already |
| MoyskladInventory.TakenIff | connectors/erp/moysklad/inventory.go:56-100 | taking entries from a position succeeds if and only if every row and entry it gets to before the limit is usable and the keys of those entries are different and unseen, told from the rows alone |
| MoyskladInventory.RefusedIff | connectors/erp/moysklad/inventory.go:45-124 | a call is refused if and only if the remote's figures do not fit the request, the cursor points behind the rows served or behind the end of its row, the page gets to something unusable, two of its entries have the same product and store, or rows are announced and none served |
| MoyskladInventory.PageIsStretch | connectors/erp/moysklad/inventory.go:50-124 | and otherwise it returns the next entries up to the limit, for every response of the remote |
| MoyskladInventory.HonestPage | connectors/erp/moysklad/inventory.go:50-119 | from a cursor inside the window, a page continues the list, its cursor can be followed, and it is past at least one entry or row |
| MoyskladInventory.ContinuesIff | connectors/erp/moysklad/inventory.go:53-119 | from any cursor and any limit, the page continues the list if and only if the window reaches past the cursor's row, or ends right before it with the cursor at the row's start |
| MoyskladInventory.ShrinkingWindowExample | connectors/erp/moysklad/inventory.go:53-119 | a page of one after a page of two that does not continue the list |
| MoyskladInventory.CursorAccepted | connectors/erp/moysklad/json.go:62-87 | every cursor handed out for a list of up to 100000001 rows passes the limits of the parser and comes back as itself |
| MoyskladInventory.WalkIsRest | connectors/erp/moysklad/inventory.go:50-119 | with windows that do not shrink, a finished walk from a cursor has returned what was ahead, and it finishes |
| MoyskladInventory.FullWalk | connectors/erp/moysklad/inventory.go:50-119 | from the empty cursor the walk is the flattened row-by-row list: each entry once, in order, also over empty rows and pages that cut a row |
| MoyskladInventory.CursorsAdvance | connectors/erp/moysklad/inventory.go:102-118 | whatever the remote returns, a follow-up cursor is later in (offset, row, inner) order |
| MoyskladInventory.WalkRankDecreases | connectors/erp/moysklad/inventory.go:102-118 | with sizes up to a bound every page that hands out a cursor lowers a natural number |
| MoyskladInventory.WalkIsFinite | connectors/erp/moysklad/inventory.go:52-118 | whatever the remote answers, with sizes up to a bound any chain of follow-up cursors is at most as long as the rank of its first one |
| UnitRate.ConvertQuote | connectors/finance/cbr-fx/rates.go:55-108 | a quote is refused exactly for the listed reasons, in their order; otherwise the text is the canonical decimal equal to amount divided by nominal, with at most 9 fraction digits |
| UnitRate.AmountIff | connectors/finance/cbr-fx/rates.go:55-70 | a text is read as an amount if and only if it is digits, perhaps a point or a comma and more digits, between blanks; the digits before and behind the mark are the amount's |
| UnitRate.DecimalShift | connectors/finance/cbr-fx/rates.go:74-82 | the loop finds the exponent of a power of ten and fails on any other nominal |
| UnitRate.PlacePoint | connectors/finance/cbr-fx/rates.go:83-107 | padding, cutting and trimming the digits prints the canonical decimal of the moved value; zero is refused |
| UnitRate.ExponentOfPower | connectors/finance/cbr-fx/rates.go:74-82 | the exponent is k exactly for the nominal 1 followed by k zeros |
| UnitRate.RateTimesNominalIsAmount | connectors/finance/cbr-fx/rates.go:83-102 | the printed rate times the nominal is the quoted amount, as an equation of integers |
| UnitRate.CanonicalUnique | connectors/finance/cbr-fx/rates.go:87-107 | a value has only one canonical decimal |
| UnitRate.EqualRatesPrintAlike | connectors/finance/cbr-fx/rates.go:87-107 | two quotes print the same text if and only if they denote the same rate |
| UnitRate.PrintedIsPlain | connectors/finance/cbr-fx/rates.go:101-106 | the guards after printing (leading point, empty text, zero) never fire for a rate |
| LiveSmoke.SettledIsCurrent | cmd/torgnexa-marketplace-live-smoke/main.go:465-487 | on an honest remote the last observation since the last write is the current quantity |
| LiveSmoke.OnlyTwoQuantities | cmd/torgnexa-marketplace-live-smoke/main.go:405-443 | a disciplined run leaves the original quantity or one more, and nothing else |
| LiveSmoke.Smoke.WaitInventoryQuantity | cmd/torgnexa-marketplace-live-smoke/main.go:465-487 | up to six readings; succeeds exactly on the wanted quantity, keeps the last successful observation when a later reading fails, and says why it failed |
| LiveSmoke.Smoke.SendBack | cmd/torgnexa-marketplace-live-smoke/main.go:429-437 | the write of the original quantity, sent only after seeing one more, and its confirmation |
| LiveSmoke.Smoke.RestoreInventory | cmd/torgnexa-marketplace-live-smoke/main.go:489-514 | restored implies the original was seen since the last write; a second write exactly if one more was observed; each failure for its reason; restores when nothing fails |
| LiveSmoke.Smoke.ReconcileAfterWriteError | cmd/torgnexa-marketplace-live-smoke/main.go:516-542 | after a failed test write: restored exactly if the original is seen at once or after sending it back; on an honest remote that fails nothing more it is restored |
| LiveSmoke.Smoke.ExerciseWrite | cmd/torgnexa-marketplace-live-smoke/main.go:416-442 | at most two writes and thirteen readings, success only with restoration, the three checks passed exactly on success |
| LiveSmoke.Smoke.RunMarketplace | cmd/torgnexa-marketplace-live-smoke/main.go:369-443 | the same from the first reading on, against any remote; a write is attempted if and only if the first reading, orders and taxonomy succeed, writing is asked for, the quantity is below the limit and there is a writer, and otherwise the run ends after that reading with the failure that comes first; on an honest remote the original is restored if nothing but the test write fails |
| LiveSmoke.RunAgainstHonestRemote | cmd/torgnexa-marketplace-live-smoke/main.go:405-443 | reported as restored, or as success, an honest remote holds the original quantity; in any case the original or one more |
| OpenApiReader.AppendParameter | tools/sdkgen/main.go:160-167 | a parameter is added unless one of the same name and location is there |
| OpenApiReader.CheckAll | tools/sdkgen/main.go:316-327 | the closing loop reports the first repeated id or path parameter missing from its path |
| OpenApiReader.ReadSpec | tools/sdkgen/main.go:143-330 | the loop over all lines with its early exits equals the parse function that the laws below are about |
| OpenApiProperties.OperationsConserved | tools/sdkgen/main.go:160-329 | an accepted document yields, sorted by id, exactly one operation per method line under `paths`: with the path of the last path line before it and first the parameters declared since then outside operations, both told from the lines alone; no two parameters of the same name and location, unique non-empty ids, and every path parameter in braces in the path |
| OpenApiProperties.CheckPassesIff | tools/sdkgen/main.go:316-327 | the closing checks pass if and only if ids are pairwise different and path parameters occur in their paths |
| OpenApiProperties.InPathIff | tools/sdkgen/main.go:322-326 | the check of path parameters passes exactly if each of them stands in the path, in braces |
| ParameterLists.FirstOfEachIff | tools/sdkgen/main.go:160-167 | a parameter is in the merged list if and only if it is the first declaration of its name and location |
| ParameterLists.SkippingLosesNothingIff | tools/sdkgen/main.go:160-167 | of a list of declarations some of which are skipped, the first-wins result is that of the whole list if and only if every skipped first declaration of a key is repeated word for word before another new key is declared |
| OpenApiPrinting.PrintedIsRead | tools/sdkgen/main.go:143-330 | what the reader makes of every printed document, in every spelling of its parameters and with those of a path before its operations or behind some of them |
| OpenApiPrinting.OtherLinesIgnored | tools/sdkgen/main.go:194-306 | lines of no recognised form can be put anywhere without changing the result |
| OpenApiRoundTrip.ReadAsWrittenIff | tools/sdkgen/main.go:250-305 | an operation is read as its document says if and only if every declaration of its path that it is read without is repeated, in its place, among those it is read with |
| OpenApiRoundTrip.WithoutReferencesIff | tools/sdkgen/main.go:250-266 | for path parameters written first and different keys: if and only if none of them is a reference |
| OpenApiRoundTrip.LateIsLostIff | tools/sdkgen/main.go:250-305 | for path parameters written behind another operation and different keys: if and only if there are none |
| OpenApiRoundTrip.ReadingUndoesPrintingIff | tools/sdkgen/main.go:143-330 | a printed document is read back as its own operations, sorted by id, if and only if it is acceptable and no operation is read without a declaration of its path, in the sense above |
| OpenApiComponents.ReadingGoesByPublishedIff | tools/sdkgen/main.go:130-330 | for every document with parameter definitions of its own, path parameters first and different keys: it is read back as what it says if and only if that is acceptable, no path with operations has references, and every reference in an operation is to `Limit`, `Cursor` or `IdempotencyKey` and defined as in the published document |
| OpenApiComponents.OtherDefinitionIsMissed | tools/sdkgen/main.go:130-141 | a document that defines such a name as anything else is accepted, and its operation gets the published parameter |
| OpenApiComponents.UnsupportedIsRefused | tools/sdkgen/main.go:130-182 | any document with, under `paths`, a reference inside an operation to another name, or a schema other than `SortableID`, is refused |
| OpenApiRoundTrip.AcceptedIff | tools/sdkgen/main.go:307-329 | a printed document is accepted if and only if it has a header, operations, different ids, and path parameters that occur in the path, for its operations as written |
| OpenApiRoundTrip.RefusedAsWritten | tools/sdkgen/main.go:307-329 | and if no declaration is lost, what is refused is refused for what is wrong with the document |
| OpenApiRoundTrip.LostReferenceExample | tools/sdkgen/main.go:250-266 | an accepted document whose operation silently loses the reference of its path |
| OpenApiRoundTrip.LateParametersExample | tools/sdkgen/main.go:250-305 | an accepted document in which a parameter of a path, written behind its first operation, is lost for the second |
| OpenApiRoundTrip.OverridingMakesNoDifferenceIff | tools/sdkgen/main.go:160-167 | keeping the parameter of the path instead of the overriding one of the operation makes no difference if and only if operations repeat parameters of their path unchanged |
| MigrationSquash.RoomForBoth | scripts/generate-pre-v1-baseline.py:36-41 | a text that begins with BEGIN and ends with COMMIT has room for both, so the search for COMMIT behind BEGIN cannot fail |
| MigrationSquash.EarlyPayloadRecovered | scripts/generate-pre-v1-baseline.py:36-47 | of a migration before version 4, stripping recovers everything between BEGIN and COMMIT |
| MigrationSquash.PayloadRecovered | scripts/generate-pre-v1-baseline.py:36-47 | of later ones, everything before the last history insert, whatever the payload contains |
| MigrationSquash.WriteBaselineFile | scripts/generate-pre-v1-baseline.py:50-80 | the loop writes head, commented payloads in version order and tail, or stops at a migration that cannot be stripped |
| MigrationSquash.FileLayout | scripts/generate-pre-v1-baseline.py:50-80 | piece by piece: BEGIN first, each migration of the group with its file name and its own stripped payload in version order, then the evidence in version 4 only, the history insert and COMMIT |
| MigrationSquash.BuildBaseline | scripts/generate-pre-v1-baseline.py:109-153 | one file per group with consecutive versions from 4, or failure because of some group |
| MigrationSquash.GroupsAreContiguous | scripts/generate-pre-v1-baseline.py:14-23 | the generator's groups cover 4 to 74 in order without gaps |
| MigrationSquash.SquashPreservesMeaning | scripts/generate-pre-v1-baseline.py:50-153 | for every interpreter of SQL texts, every state and every contiguous grouping, the baseline files in order do what the legacy payloads do in version order |
| MigrationSquash.BaselinePreservesMeaning | scripts/generate-pre-v1-baseline.py:14-153 | the same for the generator's own groups, comments and history insert, 4 to 74 from version 4: eight files that do what the legacy payloads do, each of which strips back to its body |
| MigrationSquash.HistoryHasOneMarker | scripts/generate-pre-v1-baseline.py:25-25 | the text of the history insert holds the marker only at its start, so the last marker of a generated file is the one stripping looks for |
| MigrationSquash.GeneratedFileStrips | scripts/generate-pre-v1-baseline.py:50-80 | generated files are well-formed migrations: stripping one gives its body back |
| MigrationSquash.GeneratorCommentsAreComments | scripts/generate-pre-v1-baseline.py:51-62 | the comment lines of the generator are one-line comments, as the law above assumes |
| PackageIndex.CutExisting | scripts/generate-package-index.py:197-219 | the line scan equals the cut function, with its three refusals |
| PackageIndex.CutOfAssembled | scripts/generate-package-index.py:197-225 | around any summary and file list of the right shape the cut finds the same curated text again, also an empty head or narrative |
| PackageIndex.SummaryHoldsCounts | scripts/generate-package-index.py:181-188 | the lines of the summary: its heading, the six counts under their names, the total, and two empty lines |
| PackageIndex.FilesHoldPaths | scripts/generate-package-index.py:191-194 | the lines of the file list: its heading, and every path of the tree as often as the tree has it, sorted |
| PackageIndex.CuratedTextSurvives | scripts/generate-package-index.py:197-225 | cutting the regenerated index gives what cutting the old one gave, for every accepted text and file tree |
| PackageIndex.RegenerationForgets | scripts/generate-package-index.py:222-225 | regenerating twice is regenerating with the last file tree; for one tree it is idempotent |
| PackageIndex.CheckPassesIffGenerated | scripts/generate-package-index.py:228-237 | the check mode passes exactly on texts that the generator writes for the tree |
| TokenCache.ServedIff | connectors/ai/gigachat/connector.go:101-133 | over any history of stores and deletions, a token is served if and only if the account's last update stored it with a lifetime beyond now |
| TokenCache.RunIsSafe | connectors/ai/gigachat/connector.go:222-251 | over every interleaving of callers, every entry in the cache was granted to its account by a logged exchange and carries its shortened expiry |
| TokenCache.CompletionDiscipline | connectors/ai/gigachat/connector.go:222-251 | over every interleaving, the log of a completion is a miss and a renewal, or a call with a token from the cache and, after a 401 and the deletion of that token, a renewal: an exchange, and if it grants a token, storing that as its reported lifetime demands and a call with it; a finished completion has done all of this, so one whose cached token got a 401 is never finished there; the cache is what the logged stores and deletions make of it and holds nothing of an account right after a deletion; it serves a token only to the account it was granted to before, more than a minute before its reported expiry |
| TokenCache.DisciplineCounts | connectors/ai/gigachat/connector.go:222-251 | a finished completion ends in a call or a failed exchange; it makes at most one exchange and two calls, the second exactly after a 401 on a cached token, its deletion and another grant |
| TokenCache.SevenStepsEnd | connectors/ai/gigachat/connector.go:222-251 | whatever the other callers do, a completion has ended after seven steps of its own |
| LoadReport.PercentileIsNearestRank | scripts/runtime-load.py:16-21 | for 0 < q <= 1 the percentile is the only value with at least q*n values up to it and fewer than q*n below it |
| LoadReport.PercentileMonotone | scripts/runtime-load.py:16-21 | percentiles grow with the quantile, also where the rank is clamped |
| LoadReport.DistributionOf | scripts/runtime-load.py:137-142 | the three values are the nearest-rank percentiles at 0.50, 0.95 and 0.99, and in order; without latencies they are zero |
| LoadReport.OrderlyCounts | scripts/runtime-load.py:72-90 | the counter is the number of connected clients, and the peak lies between it and the expected number |
| LoadReport.PeakIffAllAtOnce | scripts/runtime-load.py:72-90 | over every interleaving, the peak is the expected number exactly if all clients were connected at once, exactly if readiness was set |
| ExactSets.SameStringSet | connectors/logistics/pochta-russia/operations.go:512-529 | the loops accept exactly equally long lists without repetitions on the left that contain the right one |
| ExactSets.ValidateIDs | internal/platform/connectors/logistics.go:636-651 | the check of a request passes exactly on bounded lists of well-formed ids without repetitions |
| ExactSets.AcceptsPermutations | connectors/logistics/pochta-russia/operations.go:506-529 | for a request without repetitions, which the check of the request guarantees, exactly its permutations are accepted |
| ExactSets.RestoreLogisticsOrders | connectors/logistics/pochta-russia/operations.go:493-510 | a request that repeats an id never leaves; of the answers to any other request exactly the plain ones whose ids are a permutation of it are passed on |
| ExactSets.AgreesWithMultisetsIff | connectors/logistics/pochta-russia/operations.go:512-529 | of the bare helper: it agrees with multiset equality on every left list if and only if the right one repeats nothing |
| ExactSets.CheckExactList | scripts/production_golden_path.py:161-178 | a list of the required length without unknown or repeated ids covers the required set and binds each id to its item; the completeness test at the end never fires |

## Left out

- Transports, HTTP, secrets, JSON, XML, base64url, SHA-256 and regular expressions: a reply, a cursor text or a classified line is a value of a datatype.
- Bitrix24 request validation: taken as given; only that the external id is not empty and that row fields hold no NUL is used. Error texts of replies are given in upper case, and whether the projection refuses an item is part of the item.
- Bitrix24 stale reads, other writers and writes that land after the read-back: outside the assumptions under which the claims hold.
- Validation of whole pages by the SDK: the pages of the model hold valid, different items, as an honest remote serves them.
- BitrixUpsert.ReceiptIsTruthful: says nothing about items a definite failure may have left behind, because the source gives no receipt then.
- MoySklad keys: a pair of ids instead of the NUL-joined text, which is equivalent for ids without NUL; whether an entry's fields would be refused is one flag.
- UnitRate.ConvertQuote: texts are sequences of characters; the daily document, its dates and the search for a currency are not modelled.
- Live smoke: health, product and location checks before the first inventory reading, the exact error codes of the connectors, and time; a timeout is decided by the remote's answers. Sending the original back and waiting stands for three identical stretches of the source.
- OpenApiRoundTrip.ReadingUndoesPrintingIff: about documents that spell their lines as the printer does; a header in another order, a second `paths:` section or an operation without an id are covered by `OperationsConserved` only.
- OpenApiComponents.ReadingGoesByPublishedIff: about documents whose path parameters come first and that declare no name and location twice; the others are covered by `ReadingUndoesPrintingIff`, with the published definitions.
- OpenAPI reader: the forbidden-token scan, the digest, the patterns that classify raw lines, and rendering. A compact parameter list contributes its first entry, as the pattern does.
- MigrationSquash.SquashPreservesMeaning: comments, BEGIN and COMMIT, the history insert and the baseline evidence are assumed to be silent; catalogs, checksums, phases and the three retained files are not modelled.
- Package index: the walk of the file tree and its skip rules; counts come as decimal texts.
- Token cache: the methods of the cache are tied to the functions that the steps of a completion use; building of messages, decoding of completions, and the range of the host's time type.
- LoadReport.PercentileIsNearestRank: over the reals, not over floating-point numbers. Requests, timing and report writing are not modelled.
- Golden-path documents: the fields of each item besides its id. Restored orders: the patterns of ids, and which status and time an answer must carry.
- Other connectors, validators and command line programs: thin wrappers, or long conjunctions of independent checks.
