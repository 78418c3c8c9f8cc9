# Contract and payment tracker: a Dafny model of its core

This project models the logic of a public-health contract and payment tracker. The tracker is a React front end over Firestore. It keeps:

- **contracts**, with their amendments (aditivos) and validity periods (vigências);
- **payment records**, each an invoice (NF-e) paid by federal and state bank orders (OBs);
- two side sources: the budget-commitment sheet (empenhos) read from Google Drive, and the regulation feed shown on the regulation dashboard.

Everything the tracker computes is sequential and deterministic. The model states it over an in-memory store of sequences, and each Firestore write becomes a function from store to store. Document ids, the clock, the platform's date parser and remote answers are parameters.

| module | models |
|---|---|
| `Wrappers` | `Option` and `Result` (an error carries its message) |
| `Collections` | filters, maps, sums, counts, stable sorts and their lemmas |
| `JsText` | the JavaScript string primitives the code relies on: `trim`, `includes`, `split`, `replace`, ASCII lower-casing, ordinal comparison |
| `JsNumber` | JavaScript numbers as `Finite(real)`, the two infinities and `NaN`; `parseFloat`, `Number` (decimal literals and the unsigned `0x`, `0o` and `0b` integer literals), `Math.round`, decimal rendering |
| `Types` | the records and enumerations of `types.ts`; the store |
| `Contracts` | `contracts.service.ts`: adding, finding and updating a contract |
| `Periods` | the period state machine of `contract-periods.service.ts` (`createContractPeriod`) |
| `PeriodReports` | the period summary, statistics and classifiers of `contract-periods.service.ts` |
| `Amendments` | `contract-amendments.service.ts`: the amendment ledger, soft deletion and the current-term projection |
| `PaymentTotals` | the sums every payment view folds out of payment records |
| `Dashboard` | `Dashboard.tsx`: filters, month buckets, source shares, the date key and the bank-order ledger |
| `ContractDetails` | `ContractDetails.tsx`: progress figures, status and deadline classifiers, the installment chart |
| `ContractList` | `ContractList.tsx`: search and per-contract balance |
| `PaymentHistory` | `PaymentHistory.tsx`: source totals, the invoice list, settlement status, ordering |
| `PaymentForm` | `PaymentForm.tsx`: the entry lists editor and the record built on submit |
| `ValueAmendmentForm` | `ValueAmendmentForm.tsx`: the sign rule, typed money, the zero-value refusal, the preview |
| `TenureAmendmentForm` | `new_features/TenureAmendmentForm.tsx`: the date-order validation |
| `RegulationDashboard` | `RegulationDashboard.tsx`: query guards, range filter, per-date and per-unit tallies, counters |
| `Empenhos` | `empenhos.service.ts`: Drive file ids, amount cells, header lookup, row mapping, lookups by number |
| `CurrencyInput` | `CurrencyInput.tsx`: reading and rendering Brazilian money |

## Where the code and the design description differ

The model follows the code in each of these places:

- A tenure amendment takes its "previous" dates from the contract's own `inicio_vigencia` and `fim_vigencia`. It does not take them from the current period (`services/firebase/contract-amendments.service.ts:48-51`).
- The period an extension creates is worth `valor_original || valor_global_anul`. No amendment delta is added (`services/firebase/contract-amendments.service.ts:108`).
- An early termination rewrites only the contract's dates. No period is closed or shortened, so the projection keeps showing the active period's end (`services/firebase/contract-amendments.service.ts:99-109`).
- Every period in the period summary shows the same paid value: all federal and state bank orders of the contract, not those of the period (`services/firebase/contract-periods.service.ts:64-74`).
- The dashboard groups by each record's own `mes_competencia`. No bank order is attributed to an invoice (`components/Dashboard.tsx:52`).
- Amendments are stored under the contract's stored `id`, but they are listed and projected by the id the caller passed. The two differ for a contract whose stored `id` is not its document id (`Amendments.ValueAmendmentUnderOtherId`).

## Model

| member | source | states |
|---|---|---|
| Types.AmendmentCodeInjective | types.ts:59 | the six amendment kinds are stored under six distinct codes |
| Types.AmendmentTypeOf | types.ts:59 | reading a stored code back gives the one kind with that code, and nothing for any other text |
| Amendments.ActiveSumOrderIndependent | services/firebase/contract-amendments.service.ts:239-240 | the active value sum (`amendment_value \|\| 0` over active value amendments) is the same for any ordering of the same amendments |
| Amendments.ActiveSumIsMasked | services/firebase/contract-amendments.service.ts:239-240 | the filtered active sum equals a sum over every amendment in which an inactive or tenure amendment contributes 0 |
| Amendments.ActiveSumAppend | services/firebase/contract-amendments.service.ts:239-240 | filing one more amendment adds exactly its masked delta to the active sum |
| Amendments.GetContractAmendmentsHistory | services/firebase/contract-amendments.service.ts:212-260 | fails exactly for the empty id, whose contract lookup throws and is rethrown; otherwise the history holds exactly the amendments filed under the id (as a multiset), latest date first; its summary carries their active value sum, value and tenure counts that together equal the history length, and the contract's base value or 0 when it is missing |
| Amendments.TenureValueCounts | services/firebase/contract-amendments.service.ts:241-242 | value-amendment count plus tenure-amendment count, active or not, is the number of amendments |
| Amendments.DeactivateAmendment | services/firebase/contract-amendments.service.ts:180-207 | deleting fails exactly when no amendment has the id; otherwise the amendment with the id becomes inactive, nothing is removed, and every other amendment and collection is unchanged |
| Amendments.DeactivateIdempotent | services/firebase/contract-amendments.service.ts:180-207 | deleting the same amendment twice leaves the store as deleting it once |
| Amendments.DeactivateClears | services/firebase/contract-amendments.service.ts:180-207 | after a delete every amendment with the id is inactive and still present |
| Amendments.DeactivateRemovesContribution | services/firebase/contract-amendments.service.ts:180-207 | a deleted amendment contributes 0 afterwards, and the active sum drops by exactly what it contributed before |
| Amendments.CurrentDates | services/firebase/contract-amendments.service.ts:280-294 | the current term is the first active period's, else the last period's, else the contract's start and `fim_vigencia \|\| inicio_vigencia` |
| Amendments.GetContractWithCurrentInfo | services/firebase/contract-amendments.service.ts:265-321 | fails exactly when the contract is not found; otherwise carries the contract's fields, `total_value` = `valor_original \|\| valor_global_anul`, the active sum and count of the amendments filed under the id, and the current term from the summary, or from the contract alone when the period lookup fails |
| Amendments.NonEmpty | services/firebase/contract-amendments.service.ts:155-166 | an optional text is kept exactly when present and non-empty, and then unchanged |
| Amendments.NewValueAmendment | services/firebase/contract-amendments.service.ts:139-166 | the stored value amendment is active, value-shaped, records the value in force as `previous_value`, the amount exactly as given (no sign derived from its kind) and optional texts only when non-empty |
| Amendments.CreateValueAmendment | services/firebase/contract-amendments.service.ts:121-175 | fails exactly when the contract is not found; otherwise appends one value amendment filed under the contract's stored id whose previous value is base value plus the active sum at creation, and changes nothing else in the store |
| Amendments.ValueAmendmentRaisesTotal | services/firebase/contract-amendments.service.ts:133-146 | filing a value amendment under the contract's own id raises the projected amendment total by the amount typed, whatever its kind, keeps the base value and adds one to the amendment count |
| Amendments.ValueAmendmentUnderOtherId | services/firebase/contract-amendments.service.ts:133-140 | when the contract was found by a document id that differs from its stored id, the new amendment is filed under the stored id and the projection queried by the document id does not change |
| Amendments.SetTerm | services/firebase/contract-amendments.service.ts:99-103 | only the documents with the resolved document id get the new start and end; every document keeps its position and ids |
| Amendments.CreateTenureAmendment | services/firebase/contract-amendments.service.ts:42-116 | fails exactly when the contract is not found; otherwise appends one active tenure amendment that snapshots the contract's `inicio_vigencia` and `fim_vigencia \|\| inicio_vigencia`, writes the new term onto the resolved contract document, and creates an extension period with the base value only for an extension; an early termination leaves every period untouched |
| Amendments.SetTermKeepsLookup | services/firebase/contract-amendments.service.ts:79-103 | rewriting a term never changes which ids find a contract |
| Amendments.SummaryTermsOnlyFromPeriods | services/firebase/contract-periods.service.ts:27-83 | two stores with equal periods have summaries listing the same terms and statuses |
| Amendments.CurrentDatesFromTerms | services/firebase/contract-amendments.service.ts:280-294 | once there is a period, the current term depends only on the periods' terms and statuses, not on the contract |
| Amendments.EarlyTerminationKeepsCurrentTerm | services/firebase/contract-amendments.service.ts:99-109 | after an early termination of a contract that has periods, the projection still shows the same current start and end, although the contract's own dates changed |
| Amendments.SummaryContainsStored | services/firebase/contract-periods.service.ts:27-83 | every stored period of the contract appears, recomputed, in its summary |
| Amendments.ExtensionSetsCurrentTerm | services/firebase/contract-amendments.service.ts:105-109 | after an extension on a contract whose only active period is its top one, the projected current term is the extension's new term |
| Amendments.FormatAmendmentType | services/firebase/contract-amendments.service.ts:326-336 | a stored code is shown as its kind's display name, and any other text is shown unchanged |
| Periods.TopIndex | services/firebase/contract-periods.service.ts:223-229 | the period a descending query by number lists first: one of the contract's periods with the highest number, none exactly when the contract has no period |
| Periods.NextNumber | services/firebase/contract-periods.service.ts:229 | 1 when the contract has no period; otherwise above every existing number and exactly one past the highest |
| Periods.CreateContractPeriod | services/firebase/contract-periods.service.ts:214-255 | appends exactly one period numbered `NextNumber`, active, paid 0, remaining = available, execution 0 and no instalments; the top period becomes completed and every other period is unchanged |
| Periods.CreateLeavesOtherContracts | services/firebase/contract-periods.service.ts:223-238 | a period of another contract is never touched |
| Periods.CreateNewIsTop | services/firebase/contract-periods.service.ts:229-255 | the new period is the contract's top period afterwards |
| Periods.CreateKeepsSingleActive | services/firebase/contract-periods.service.ts:229-255 | if only the top period may be active before, then afterwards the same holds, and exactly one period of the contract is active: the new one |
| Periods.CreateOnlyNewActive | services/firebase/contract-periods.service.ts:232-246 | under the single-active invariant, no old period of the contract is active afterwards and the new one is |
| Periods.OnlyLastActive | services/firebase/contract-periods.service.ts:232-246 | a list whose only active period is the last has an active count of exactly 1 |
| Periods.FirstPeriodIsNumberOne | services/firebase/contract-periods.service.ts:229 | the first period of a contract is appended with number 1 and nothing else changes |
| PeriodReports.Enrich | services/firebase/contract-periods.service.ts:64-87 | one pass of the summary loop fails exactly for a period whose `contract_id` is empty, where the contract lookup throws and the summary rethrows; otherwise it gives the refigured period |
| PeriodReports.Refigure | services/firebase/contract-periods.service.ts:64-78 | with the contract found, paid is everything paid to its contract number, paid + remaining = available, and execution is paid/available in percent, 0 when nothing is available; with it missing the stored figures stay; no other field changes |
| PeriodReports.PeriodsSummary | services/firebase/contract-periods.service.ts:27-83 | one entry per period of the contract, only of that contract, in ascending period number |
| PeriodReports.GetContractPeriodsSummary | services/firebase/contract-periods.service.ts:27-87 | fails exactly when the id is empty and some stored period carries it, so never for a non-empty id; otherwise the summary |
| PeriodReports.SummaryFailsOnFailingPass | services/firebase/contract-periods.service.ts:27-87 | the summary fails exactly when the loop's pass over one of the contract's stored periods fails |
| PeriodReports.SummaryEntriesAreEnriched | services/firebase/contract-periods.service.ts:27-83 | every entry the service returns is the successful pass of the loop over one of the contract's stored periods |
| PeriodReports.SortedPeriods | services/firebase/contract-periods.service.ts:29-33 | sorting the contract's periods by number keeps all of them and only them, ascending |
| PeriodReports.SummaryListsStoredPeriods | services/firebase/contract-periods.service.ts:38-80 | every summary entry is a stored period of the contract, recomputed |
| PeriodReports.SummarySamePaid | services/firebase/contract-periods.service.ts:66-73 | every period of a found contract reports the same paid value: all payments of the contract, not of the period |
| PeriodReports.SummaryAllSamePaid | services/firebase/contract-periods.service.ts:66-73 | the same paid value holds for all summary entries at once |
| PeriodReports.CalculatePeriodStatistics | services/firebase/contract-periods.service.ts:94-119 | totals are sums over the periods, the overall percentage is 0 when nothing is available, completed counts the completed periods, and the current execution is the first active period's figures, or null exactly when none is active |
| PeriodReports.StatisticsOfEqualPaid | services/firebase/contract-periods.service.ts:95 | periods that all report the same paid value add up to that value times their number |
| PeriodReports.StatisticsCountPaidPerPeriod | services/firebase/contract-periods.service.ts:64-95 | over a summary, the total paid counts the contract's payments once per period |
| PeriodReports.PeriodUrgencyStatus | services/firebase/contract-periods.service.ts:180-195 | null gives N/A; below 0 Vencido; up to 30 Urgente; up to 60 Atenção; otherwise Normal — each label exactly on its range |
| PeriodReports.UrgencyMonotone | services/firebase/contract-periods.service.ts:185-194 | more days remaining never gives a more urgent label |
| PeriodReports.UrgencyOfNaN | services/firebase/contract-periods.service.ts:185-194 | a days value that is not a number falls through every comparison to Normal |
| PeriodReports.FormatPeriodNumber | services/firebase/contract-periods.service.ts:143-148 | the original period is labelled "Período Original"; an extension's label starts with "Prorrogação " |
| PeriodReports.ExtensionLabelNumber | services/firebase/contract-periods.service.ts:147 | what follows "Prorrogação " reads back as the number minus one |
| PeriodReports.FormatPeriodNumberInjective | services/firebase/contract-periods.service.ts:147 | two extension labels are equal exactly when the numbers are |
| PeriodReports.MultiplePeriodsOfSummary | services/firebase/contract-periods.service.ts:200-202 | a summary has several periods exactly when the store holds at least two periods of the contract |
| Contracts.Materialize | services/firebase/contracts.service.ts:58-62 | the returned contract is the stored data with `id` = `data.id \|\| docId` |
| Contracts.GetContractById | services/firebase/contracts.service.ts:51-83 | nothing for the empty id; otherwise nothing exactly when no document has the id as document id or stored id, and else a matching document, materialized, whose reported id is never empty |
| Contracts.GetContractByIdPriority | services/firebase/contracts.service.ts:53-76 | the first document with the document id wins; only when none has it, the stored-id match that comes first in document-id order, the order of the `where` query |
| Contracts.FirstWithStoredId | services/firebase/contracts.service.ts:66-70 | the stored-id match a query returns first is the one with the least document id (ordinal order); there is none exactly when no stored id matches |
| Contracts.FirstInIdOrderUnique | services/firebase/contracts.service.ts:66-70 | at most one document comes first among the stored-id matches |
| Contracts.ResolveDocId | services/firebase/contracts.service.ts:146-162 | a write addressed to an id lands nowhere for the empty id, on the document with that document id, else on the stored-id match first in document-id order (the order of the collection scan), else nowhere |
| Contracts.FoundContractResolvable | services/firebase/contract-amendments.service.ts:79-96 | the id a found contract reports always resolves to a document, so the tenure write after it never misses |
| Contracts.AddContract | services/firebase/contracts.service.ts:88-125 | appends exactly one document under the new id, with `id` = the new id and `valor_original` = `valor_original \|\| valor_global_anul`; creates the original period only with a start date, and a failed period write does not fail the call |
| Contracts.AddThenGet | services/firebase/contracts.service.ts:88-100 | looking up a contract just added under a fresh id finds it with the new id and the defaulted original value |
| Contracts.AddContractPeriods | services/firebase/contracts.service.ts:105-118 | a new contract has exactly one period, original, numbered 1, active, over `inicio..(fim \|\| inicio)` with its base value, when it has a start date and the write succeeds; otherwise none |
| Contracts.RemoveUndefinedFields | services/firebase/contracts.service.ts:130-139 | exactly the undefined-valued keys are dropped; nulls and every other value are kept unchanged |
| Contracts.RemoveUndefinedIdempotent | services/firebase/contracts.service.ts:130-139 | cleaning twice is cleaning once |
| Contracts.UpdatePayload | services/firebase/contracts.service.ts:164-171 | the written fields never include `id`, always include `updatedAt`, and are otherwise exactly the patch's defined fields |
| Contracts.UpdateContract | services/firebase/contracts.service.ts:144-178 | fails exactly for the empty id or when no document has the id; otherwise the collection keeps its length, every document id and stored id, and every document but the resolved one, whose stored fields take the cleaned payload merged in |
| Contracts.ApplyPatch | services/firebase/contracts.service.ts:173 | merging written fields into a stored contract: a field the write names takes the written value, a field it does not name keeps its value, a null empties an optional field |
| Contracts.UpdateKeepsLookup | services/firebase/contracts.service.ts:144-178 | after an update every id resolves to the same document as before, and finds a contract exactly when it did |
| Contracts.UpdateThenGet | services/firebase/contracts.service.ts:144-178 | the contract read back after an update keeps its reported id, holds every field the patch writes with a value of the right kind, and keeps every field the patch leaves out |
| Contracts.PatchCommutes | services/firebase/contracts.service.ts:164-173 | because the payload never writes `id`, reading a patched document is patching the read contract |
| PaymentTotals.TotalPaidSplits | components/Dashboard.tsx:71-73 | the paid total of any records is their federal total plus their state total |
| PaymentTotals.PaymentsOf | services/firebase/contract-periods.service.ts:66 | the records of a contract number are an order-preserving subsequence of the store holding exactly the stored records with that number, each as many times as stored |
| PaymentTotals.PaidOrderIndependent | services/firebase/contract-periods.service.ts:66-71 | the paid total of a contract number does not depend on the store's order |
| PaymentTotals.PaidOfIsMasked | services/firebase/contract-periods.service.ts:66-71 | the paid total of a contract number is a sum over all records in which other contracts count 0 |
| Dashboard.FilteredPayments | components/Dashboard.tsx:42-48 | an order-preserving subsequence holding exactly the records that pass both filters, with `all` a wildcard; with both filters `all` it is the whole list, each as many times as in the input |
| Dashboard.YearFilterIsExact | components/Dashboard.tsx:45 | comparing the year's decimal text with the selected year's text is exactly comparing the years |
| Dashboard.SelectedContracts | components/Dashboard.tsx:30-35 | an order-preserving subsequence holding exactly the contracts the contract filter selects, each as many times as in the input |
| Dashboard.ExpectedMonthlyValue | components/Dashboard.tsx:37-40 | twelve times the expected monthly value is the selected contracts' total annual value |
| Dashboard.RemainingForOneContract | components/Dashboard.tsx:80-93 | with one existing contract number selected, what remains is its annual value minus everything ever paid to that number, whatever year is selected |
| Dashboard.Bucket | components/Dashboard.tsx:51-63 | the bucket of a month carries that month and the expected value, and its total is its federal plus its state amount |
| Dashboard.Buckets | components/Dashboard.tsx:51-64 | one bucket per month from the first month asked to December, in month order |
| Dashboard.MonthlyData | components/Dashboard.tsx:50-69 | the twelve buckets with the leading months that have no payment dropped: what is kept is a suffix of the twelve, every dropped month has total 0, the first kept month has a positive total unless all twelve are kept, and all twelve are kept when no month has one |
| Dashboard.BucketsFromCover | components/Dashboard.tsx:51-55 | summing a bucket figure over the months from some month on sums the record figure over the records of those months |
| Dashboard.MonthlyBucketsPartition | components/Dashboard.tsx:51-55 | when every record's month is 1 to 12, the twelve buckets add up to the federal, the state and the invoiced totals of the records |
| Dashboard.FedPartition | components/Dashboard.tsx:53 | the federal amounts of the twelve buckets add up to the records' federal total |
| Dashboard.EstPartition | components/Dashboard.tsx:54 | the state amounts of the twelve buckets add up to the records' state total |
| Dashboard.NfePartition | components/Dashboard.tsx:55 | the invoice amounts of the twelve buckets add up to the records' invoiced total |
| Dashboard.Share | components/Dashboard.tsx:426-433 | a source's share is 0 when nothing is paid, and between 0 and 100 for a part of the total |
| Dashboard.SharesAddUp | components/Dashboard.tsx:426-433 | with something paid, the federal and the state shares add up to 100 |
| Dashboard.ParseDateToTime | components/Dashboard.tsx:107-136 | the empty text, and only it, gives time 0 without a parse; a text handed to the platform's date parser is the trimmed input |
| Dashboard.ParseTrimmed | components/Dashboard.tsx:111-135 | a text with neither `/` nor `-` goes to the platform's date parser unchanged |
| Dashboard.SlashParts | components/Dashboard.tsx:112-117 | three `/`-separated parts read as day, month, year |
| Dashboard.DashParts | components/Dashboard.tsx:121-131 | three `-`-separated parts read as year, month, day when the first part has four characters, and as day, month, year otherwise |
| Dashboard.Split3 | components/Dashboard.tsx:113 | three separator-free texts joined by the separator split back into those three |
| Dashboard.DigitDate | components/Dashboard.tsx:108-122 | three digit groups joined by a separator are non-empty, already trimmed, and split back into the three groups |
| Dashboard.SlashDayFirst | components/Dashboard.tsx:112-117 | `D/M/Y` reads day first |
| Dashboard.IsoYearFirst | components/Dashboard.tsx:124-126 | `YYYY-M-D` reads year first |
| Dashboard.SlashAndIsoAgree | components/Dashboard.tsx:111-126 | `D/M/YYYY` and `YYYY-M-D` with the same digit groups give the same date |
| Dashboard.DashDayFirst | components/Dashboard.tsx:127-129 | `D-M-Y` whose first group is not four characters long reads day first |
| Dashboard.HexMonthSlashDate | components/Dashboard.tsx:111-117 | a `D/M/Y` date whose month part is a `0x` literal reads that part in hexadecimal, as `Number` does: `01/0x0C/2024` is 1 December 2024 |
| JsNumber.ToNumber | components/Dashboard.tsx:116 | `Number`: blank text reads as 0; text that starts with anything but a digit, `.`, `I` or a sign is `NaN`; a `0x`, `0o` or `0b` text is `NaN` exactly when what follows the prefix is not a non-empty run of digits of that radix |
| JsNumber.DigitsNumber | components/Dashboard.tsx:116 | a run of decimal digits reads as its decimal value, leading zeros included |
| JsNumber.PrefixedDigitsNumber | components/Dashboard.tsx:116 | a prefix followed by digits of its radix reads as the value of those digits in that radix |
| JsNumber.PrefixedLiteralNumber | components/Dashboard.tsx:116 | the base-16, base-8 or base-2 digits of `n` after their prefix read back as `n` |
| JsNumber.SignedPrefixIsNaN | components/Dashboard.tsx:116 | a sign in front of a prefixed literal gives `NaN`: the prefixes are read only unsigned |
| Dashboard.RecordRows | components/Dashboard.tsx:153-184 | a record gives one row per federal order, then one per state order, each built from its entry and tagged with its source |
| Dashboard.RecordRowsTotals | components/Dashboard.tsx:153-184 | a record's rows add up to what it paid, and its federal rows to its federal amount |
| Dashboard.AllObsTotals | components/Dashboard.tsx:153-184 | the ledger has exactly one row per bank order; its values add up to the records' paid total and its federal rows to their federal total |
| Dashboard.ObBeforeTotal | components/Dashboard.tsx:186-191 | the ledger comparator lets every pair of rows go one way or the other |
| Dashboard.TimeOf | components/Dashboard.tsx:107-135 | no date is time 0; a civil date is `NaN` as soon as a part is not a finite number; a text is the parser's time, or 0 when that is `NaN` |
| Dashboard.NaNTimeBreaksOrder | components/Dashboard.tsx:186-191 | a `NaN` time makes the comparator inconsistent: such a row may go on either side of two rows that are strictly ordered |
| Dashboard.LedgerOrderPreorder | components/Dashboard.tsx:186-191 | the comparator with `NaN` read as 0 is a total preorder, so a sort by it is one the engine may produce |
| Dashboard.SortObs | components/Dashboard.tsx:186-191 | the sorted ledger is a permutation of the rows and keeps the total; when no date is `NaN`, every row may go before every later row by the comparator: time in the chosen direction, ties by descending OB reference |
| Dashboard.SortObsDirection | components/Dashboard.tsx:186-188 | when no date is `NaN`, ascending order lists earlier times first and descending later first |
| ContractDetails.Progress | components/ContractDetails.tsx:117-125 | against a non-zero value the progress is a whole number; against 0 it is `NaN` for nothing paid and +∞ for something paid |
| ContractDetails.ProgressNearPercent | components/ContractDetails.tsx:117-125 | against a positive value the progress is the exact percentage rounded to the nearest whole number |
| ContractDetails.PaidInFullIsHundred | components/ContractDetails.tsx:117-120 | paying exactly the value is 100 percent |
| ContractDetails.ExpectedProgress | components/ContractDetails.tsx:128-134 | the expected progress is 0 with no records and 100 with any |
| ContractDetails.RecordsOverInstallments | components/ContractDetails.tsx:129-131 | `n` records over `n \|\| 1` installments is 0 for none and 1 otherwise |
| ContractDetails.ProgressComparison | components/ContractDetails.tsx:137-148 | above exactly when actual exceeds expected, below exactly when it falls short, the gap is their distance, and the gap is 0 exactly when on track |
| ContractDetails.NoRecordsOnTrack | components/ContractDetails.tsx:128-148 | with no records a contract is on track whatever its value |
| ContractDetails.OnTargetIsOnTrack | components/ContractDetails.tsx:141-147 | progress equal to the target, or not a number, is on track |
| ContractDetails.ProgressOfNothing | components/ContractDetails.tsx:117-120 | nothing paid is 0 percent, or `NaN` against a value of 0 |
| ContractDetails.WithRecordsAgainstHundred | components/ContractDetails.tsx:128-148 | with records and a positive value, the screen is above target exactly when the rounded progress passes 100, and on track when paid in full |
| ContractDetails.StatusFromEntries | components/ContractDetails.tsx:193-199 | with non-negative orders, one positive order makes a record paid whatever its invoice, and a record without orders is pending exactly when its invoice is positive |
| ContractDetails.DaysLabel | components/ContractDetails.tsx:171-176 | the label is "Vencido" exactly for a negative count |
| ContractDetails.DaysLabelInjective | components/ContractDetails.tsx:171-176 | two counts share a label only when they are equal or both overdue |
| ContractDetails.LabelOfMany | components/ContractDetails.tsx:175 | the label of two or more days starts with a digit and is longer than every fixed label |
| ContractDetails.DaysColorIsUrgencyColor | components/ContractDetails.tsx:178-183 | the day colours are the period urgency colours of the same count |
| ContractDetails.ContractStatusInfo | components/ContractDetails.tsx:158-169 | "Vencido" exactly for a negative count, otherwise "Vence em n dia…", and the red colour exactly up to 30 days |
| ContractDetails.StatusInfoSingular | components/ContractDetails.tsx:163 | the singular "dia" is used for exactly one day |
| ContractDetails.InstallmentKeyOfLabel | components/ContractDetails.tsx:206-233 | the chart's sort key of the label `nª` reads back as `n` |
| ContractDetails.Points | components/ContractDetails.tsx:206-225 | one point per record, numbered consecutively, with the record's invoice and paid amounts |
| ContractDetails.EstimatedInstallment | components/ContractDetails.tsx:202-203 | the estimate times the number of records, or 12 when there are none, is the value with amendments |
| ContractDetails.ChartData | components/ContractDetails.tsx:202-239 | one bucket per record, record `i` labelled installment `i + 1`, each with the same estimate and the record's invoice and paid amounts |
| ContractDetails.ChartKeysAscending | components/ContractDetails.tsx:228-233 | the sort key of point `i` is `i + 1`, so the sort finds the points already in order |
| ContractDetails.ChartTotals | components/ContractDetails.tsx:105-115 | the chart's invoice and paid columns add up to the invoiced and paid totals, and with records the estimates add up to the value with amendments |
| ContractList.Search | components/ContractList.tsx:17-21 | an order-preserving subsequence holding exactly the contracts whose lower-cased company or number contains the lower-cased term, or whose CNPJ contains the raw term; an empty term keeps every contract, each as many times as in the input |
| ContractList.SearchNarrows | components/ContractList.tsx:17-21 | a contract kept for a longer term is kept for each of its prefixes |
| ContractList.SearchResultsNarrow | components/ContractList.tsx:17-21 | typing more never brings back a contract a shorter term dropped |
| ContractList.ContractFinancials | components/ContractList.tsx:26-38 | paid is everything the records with exactly this contract number paid, and paid plus balance is the annual value, amendments playing no part |
| ContractList.BalanceIsRemaining | components/ContractList.tsx:26-38 | for a contract alone under its number, the card's balance is the dashboard's remaining-to-pay with that number selected |
| PaymentHistory.SourceTotal | components/PaymentHistory.tsx:16 | the sum of a list of non-negative bank orders is non-negative |
| PaymentHistory.CardPaidIsRecordPaid | components/PaymentHistory.tsx:28 | the card's paid total is the record's federal plus state total, the figure every other screen folds |
| PaymentHistory.ContractOf | components/PaymentHistory.tsx:27 | the card's contract is the first with the record's number, and there is none exactly when no contract has it |
| PaymentHistory.Invoices | components/PaymentHistory.tsx:31-37 | at most one invoice, the `legacy` one built from the record's own fields, listed exactly when the record has an `invoices` property or an invoice number; missing month and year fall back to the current ones |
| PaymentHistory.TotalInvoiceValue | components/PaymentHistory.tsx:38 | the record's invoice amount when an invoice is listed, else 0 |
| PaymentHistory.SettlementOf | components/PaymentHistory.tsx:111-113 | fully paid exactly when the paid total reaches the listed invoice value |
| PaymentHistory.NoInvoiceNumberIsPaid | components/PaymentHistory.tsx:31-38 | a record without invoice number or `invoices` property shows as fully paid with any non-negative payment, whatever its invoice amount |
| PaymentHistory.OrderedHistory | components/PaymentHistory.tsx:26 | the listed records are a permutation of the records; when no registration date is `NaN`, registration times never increase |
| PaymentHistory.NaNDateBreaksHistoryOrder | components/PaymentHistory.tsx:26 | a `NaN` registration date makes the list comparator inconsistent, so the listed order is left to the engine |
| PaymentHistory.OrderedHistoryKeepsTotals | components/PaymentHistory.tsx:26 | listing does not change the records' paid and invoiced totals |
| PaymentForm.EmptyEntry | components/PaymentForm.tsx:22-28 | a new entry has value 0, empty references and today's date |
| PaymentForm.InitialForm | components/PaymentForm.tsx:16-31 | each list opens with exactly one empty entry, with the given contract selected and the current competence |
| PaymentForm.ContractByNumber | components/PaymentForm.tsx:37 | a listed contract with the number, none exactly when no contract has it |
| PaymentForm.ContractById | components/PaymentForm.tsx:73 | a listed contract with the id, none exactly when no contract has it |
| PaymentForm.LoadInitialData | components/PaymentForm.tsx:34-55 | the record's fields are copied, its contract is selected when one has its number, and each entry list is replaced only when the stored list is non-empty |
| PaymentForm.AddEntry | components/PaymentForm.tsx:57-58 | adding appends exactly one empty entry and keeps the others in order |
| PaymentForm.ApplyEdit | components/PaymentForm.tsx:61 | an edit changes only its named field |
| PaymentForm.UpdateEntry | components/PaymentForm.tsx:60-66 | the edit applies to exactly the entries with the id, in place; length, order and all other entries are unchanged |
| PaymentForm.RemoveEntry | components/PaymentForm.tsx:68-69 | removal keeps, in order, exactly the entries without the id, each as many times as in the input |
| PaymentForm.AddThenRemove | components/PaymentForm.tsx:57-69 | removing an entry just added under a fresh id gives the list back |
| PaymentForm.UpdateThenRemove | components/PaymentForm.tsx:60-69 | an edit that keeps ids is forgotten once the entry is removed |
| PaymentForm.Submit | components/PaymentForm.tsx:71-89 | no record exactly when the selected id names no contract; otherwise the contract's number, the form's fields, the entries with a positive value or a reference, and the edited record's id, else the fresh id, and the edited record's registration date, else the current time |
| PaymentForm.SubmitKeepsMeaningful | components/PaymentForm.tsx:81-82 | the submitted federal and state lists each keep every meaningful entry and only those, in order and as many times as in the form |
| PaymentForm.EditRoundTrip | components/PaymentForm.tsx:34-89 | opening a stored record and submitting it untouched gives the record back, when its contract is listed under a unique id and its entries are all meaningful |
| PaymentForm.UniqueIdFinds | components/PaymentForm.tsx:73 | a contract whose id is unique in the list is the one found by it |
| PaymentForm.LoadedEntriesComeBack | components/PaymentForm.tsx:48-53 | filtering what the load leaves in a list gives the stored list back: the stored entries, or the lone empty entry, which is dropped |
| ValueAmendmentForm.InitialForm | components/ValueAmendmentForm.tsx:46-55 | the form opens on a kind the select offers with value 0 |
| ValueAmendmentForm.HandleInputChange | components/ValueAmendmentForm.tsx:95-100 | the named field takes the value and no other field changes |
| ValueAmendmentForm.HandleAmendmentTypeChange | components/ValueAmendmentForm.tsx:130-139 | the kind changes, a zero value stays, a non-zero value keeps its size, and nothing else changes |
| ValueAmendmentForm.TypeChangeSetsSign | components/ValueAmendmentForm.tsx:130-139 | after choosing a kind the value has that kind's sign: not positive for "Supressão", not negative otherwise |
| ValueAmendmentForm.TypedValue | components/ValueAmendmentForm.tsx:103-117 | typed text reads as its digits over 100: never negative, and `NaN` exactly when it has no digit |
| ValueAmendmentForm.TypedCents | components/ValueAmendmentForm.tsx:104-107 | typing the digits of `n` gives `n / 100` |
| ValueAmendmentForm.HandleValueChangeAsWritten | components/ValueAmendmentForm.tsx:103-128 | with a kind the select offers, the typed value is stored as typed: the comparison with `suppression` never holds |
| ValueAmendmentForm.AsWrittenSuppressionStaysPositive | components/ValueAmendmentForm.tsx:126 | choosing "Supressão" and typing 500 leaves a suppression of +5.00, against the sign rule |
| ValueAmendmentForm.TypedFiveHundred | components/ValueAmendmentForm.tsx:104-107 | typing 500 reads as 5.00 |
| ValueAmendmentForm.HandleValueChange | components/ValueAmendmentForm.tsx:103-128 | comparing with the select's "Supressão": the kind stays, and the stored value is the typed amount or its negation |
| ValueAmendmentForm.ValueChangeKeepsSign | components/ValueAmendmentForm.tsx:103-139 | typing keeps the sign rule whatever kind is chosen |
| ValueAmendmentForm.TypeAndValueCommute | components/ValueAmendmentForm.tsx:103-139 | choosing the kind and typing the amount give the same form in either order |
| ValueAmendmentForm.TypeThenValue | components/ValueAmendmentForm.tsx:103-139 | kind then typed amount gives the kind with the amount signed for it |
| ValueAmendmentForm.ValueThenType | components/ValueAmendmentForm.tsx:103-139 | typed amount then kind gives the same |
| ValueAmendmentForm.Submit | components/ValueAmendmentForm.tsx:83-90 | submission is refused exactly for a value of 0 and otherwise passes the form unchanged |
| ValueAmendmentForm.ServiceInput | components/ValueAmendmentForm.tsx:46-60 | the service receives the form's kind, value, justification and percentage |
| ValueAmendmentForm.CalculateNewValue | components/ValueAmendmentForm.tsx:141-146 | the preview is the loaded projection's base value plus amendments total, or the value passed in when none is loaded, plus the amendment |
| ValueAmendmentForm.PreviewIsNextTotal | components/ValueAmendmentForm.tsx:141-146 | the preview equals what the projection shows once the amendment is filed, for a contract stored under the id the form was opened with |
| TenureAmendmentForm.InitialForm | new_features/TenureAmendmentForm.tsx:42-48 | the form opens as an extension whose new term is the current one, with empty texts |
| TenureAmendmentForm.HandleInputChange | new_features/TenureAmendmentForm.tsx:109-114 | the named field takes the value and no other field changes |
| TenureAmendmentForm.Submit | new_features/TenureAmendmentForm.tsx:82-106 | an extension is refused exactly when its new end is not after the current end, an early termination exactly when its new end is not before it, and what passes is the form unchanged |
| TenureAmendmentForm.UntouchedFormRefused | new_features/TenureAmendmentForm.tsx:42-94 | the untouched form cannot be submitted, since its new end is the current end |
| TenureAmendmentForm.AcceptedMovesEnd | new_features/TenureAmendmentForm.tsx:86-104 | between valid dates, an accepted extension ends strictly later and an accepted early termination strictly earlier |
| TenureAmendmentForm.InvalidEndPasses | new_features/TenureAmendmentForm.tsx:86-104 | an end date the platform cannot read passes both validations |
| TenureAmendmentForm.StartDateIgnored | new_features/TenureAmendmentForm.tsx:82-106 | editing the new start date never changes whether the form goes through |
| TenureAmendmentForm.OneKindFits | new_features/TenureAmendmentForm.tsx:86-104 | with valid, different ends exactly one of the two kinds is accepted; with the same end neither is |
| TenureAmendmentForm.ServiceInput | new_features/TenureAmendmentForm.tsx:42-51 | the service receives the form's kind, dates, justification and legal basis |
| RegulationDashboard.IsoDateParts | components/RegulationDashboard.tsx:40 | a text that passes the date pattern is four, two and two digits joined by dashes |
| RegulationDashboard.IsoDateOfParts | components/RegulationDashboard.tsx:40 | four, two and two digits joined by dashes always pass the date pattern |
| RegulationDashboard.Query | components/RegulationDashboard.tsx:29-50 | nothing is fetched, and the answer is empty, unless both dates and the trimmed code are filled in; then it is an error exactly when a trimmed date fails the pattern, and otherwise the remote answer for the trimmed values |
| RegulationDashboard.QueryTrims | components/RegulationDashboard.tsx:36-48 | blanks around well-formed dates and code do not change the query |
| RegulationDashboard.FilteredData | components/RegulationDashboard.tsx:76-83 | an order-preserving subsequence holding exactly the records whose approval date lies within the bounds under string order, an empty bound imposing nothing, each as many times as in the input |
| RegulationDashboard.RangeNarrows | components/RegulationDashboard.tsx:76-83 | a record kept by a range inside another is kept by the wider one |
| RegulationDashboard.Bump | components/RegulationDashboard.tsx:88 | the entry for the key goes up by one, or a new entry with 1 is appended; no other entry changes |
| RegulationDashboard.BumpKeeps | components/RegulationDashboard.tsx:86-89 | a bump keeps the keys distinct and adds one to the total count |
| RegulationDashboard.Tally | components/RegulationDashboard.tsx:86-89 | the tally has distinct keys and its counts add up to the number of keys tallied |
| RegulationDashboard.TallyCounts | components/RegulationDashboard.tsx:86-89 | each entry counts exactly the occurrences of its key, and every key that occurs has an entry |
| RegulationDashboard.BumpCounts | components/RegulationDashboard.tsx:87-88 | bumping one more key into a correct tally gives a correct tally |
| RegulationDashboard.BumpHasKeys | components/RegulationDashboard.tsx:87-88 | bumping one more key into a tally with every key gives one with every key |
| RegulationDashboard.TallyOnlyPresent | components/RegulationDashboard.tsx:86-89 | a tally has no entry for a key that does not occur |
| RegulationDashboard.Bumped | components/RegulationDashboard.tsx:86-89 | every entry of a tally has a positive count |
| RegulationDashboard.SortDistinct | components/RegulationDashboard.tsx:90-92 | sorting entries with distinct keys keeps them distinct |
| RegulationDashboard.ChartData | components/RegulationDashboard.tsx:85-93 | the chart is a permutation of the date tally, sorted by strictly ascending date, and its counts add up to the number of records |
| RegulationDashboard.ChartCounts | components/RegulationDashboard.tsx:85-93 | each chart entry counts the records approved on its date |
| RegulationDashboard.ChartCoversDates | components/RegulationDashboard.tsx:85-93 | every approval date among the records has a chart entry |
| RegulationDashboard.UnitData | components/RegulationDashboard.tsx:95-101 | one entry per executing unit, each counting the records of that unit: every unit present, no entry for a unit that does not occur, every count at least 1, and the counts add up to the number of records |
| RegulationDashboard.UnitCounterIsDistinctUnits | components/RegulationDashboard.tsx:95-101 | the length of the unit data, which the "Unidades com Demanda" counter shows, is the number of distinct executing units among the records |
| RegulationDashboard.StatusCount | components/RegulationDashboard.tsx:229-238 | the pending and the authorised counters are the number of records whose status contains PENDENTE, respectively AUTORIZADA, and never exceed the records shown |
| RegulationDashboard.CountersBounded | components/RegulationDashboard.tsx:229-238 | when no status carries both words, the two counters together do not exceed the records shown |
| RegulationDashboard.TableRows | components/RegulationDashboard.tsx:304 | the table shows the first fifteen records in order, or all of them when fewer |
| Empenhos.PatternMatch | services/google-drive/empenhos.service.ts:30-40 | nothing exactly when the shape matches nowhere; otherwise the capture of the leftmost match: the whole run of id characters from the capture start, non-empty |
| Empenhos.FromLink | services/google-drive/empenhos.service.ts:30-42 | the capture of the first shape that matches, in the order file path, `id=` parameter, folder path, user folder path; nothing exactly when none matches |
| Empenhos.ExtractFileId | services/google-drive/empenhos.service.ts:16-46 | an error exactly for a blank input; a trimmed input made only of id characters is returned as it is; otherwise the first link capture, or the trimmed input when no shape matches |
| Empenhos.UserFolderShadowed | services/google-drive/empenhos.service.ts:33-34 | wherever the user-folder shape matches, the plain folder shape matches too, so the fourth shape never decides |
| Empenhos.ExtractFileIdIdempotent | services/google-drive/empenhos.service.ts:16-46 | extracting from an extracted id gives the same id |
| Empenhos.FileLinkGivesId | services/google-drive/empenhos.service.ts:31 | a file link gives the id it carries |
| Empenhos.OpenLinkGivesId | services/google-drive/empenhos.service.ts:32 | an open link with an id parameter gives that id |
| Empenhos.OpenLinkNoFilePath | services/google-drive/empenhos.service.ts:31 | an open link does not match the file shape |
| Empenhos.LinkExtracted | services/google-drive/empenhos.service.ts:37-42 | for a trimmed text that is not an id, what the link shapes give is the answer |
| Empenhos.ParseValue | services/google-drive/empenhos.service.ts:134-164 | a blank cell is 0, the answer is never NaN, and a cell without a comma reads as its trimmed text does |
| Empenhos.ParseValueWithComma | services/google-drive/empenhos.service.ts:148-151 | with a comma the dots are dropped and the first comma becomes the decimal point |
| Empenhos.BrazilianAmount | services/google-drive/empenhos.service.ts:148-151 | a dotted, comma-decimal amount reads as its digits with the comma as the decimal point |
| Empenhos.UsAmount | services/google-drive/empenhos.service.ts:152-155 | digits, a dot and digits read as the decimal number they write |
| Empenhos.NormalizeColumnName | services/google-drive/empenhos.service.ts:169-171 | the result has no white-space run other than single spaces and is empty exactly for a blank name |
| Empenhos.NormalizeNoEdgeSpace | services/google-drive/empenhos.service.ts:169-171 | a normalised header neither starts nor ends with white space |
| Empenhos.NormalizeIdempotent | services/google-drive/empenhos.service.ts:169-171 | normalising twice is normalising once |
| Empenhos.Lookup | services/google-drive/empenhos.service.ts:178-179 | the cell under exactly that header, absent exactly when no header is that name |
| Empenhos.GetColumnValue | services/google-drive/empenhos.service.ts:176-199 | the cell under the exact header, else under the normalised header, else the first cell whose header agrees after normalising and lower-casing, else empty |
| Empenhos.HeadersFound | services/google-drive/empenhos.service.ts:183-192 | the exact and the normalised header both agree under the case-insensitive comparison |
| Empenhos.HeaderSpacingIgnored | services/google-drive/empenhos.service.ts:183-196 | a header written with other spacing is still found |
| Empenhos.OrUndefined | services/google-drive/empenhos.service.ts:244-247 | an empty text becomes absent and any other is kept |
| Empenhos.ToEmpenho | services/google-drive/empenhos.service.ts:236-248 | the commitment number is the trimmed EMPENHO cell and the expense group is absent exactly when its cell is empty |
| Empenhos.KeptNumbers | services/google-drive/empenhos.service.ts:228-237 | every commitment built from kept rows has a non-blank, trimmed number |
| Empenhos.ParseRows | services/google-drive/empenhos.service.ts:228-251 | the loop yields the converted rows whose commitment number is not blank, in order, one per such row |
| Empenhos.GetEmpenhoByNumber | services/google-drive/empenhos.service.ts:291-300 | nothing for a blank number; otherwise the first commitment whose number is the trimmed one, absent exactly when none has it |
| Empenhos.Wanted | services/google-drive/empenhos.service.ts:311 | the trimmed, non-blank numbers asked for: each comes from the request and each non-blank request is there |
| Empenhos.GetEmpenhosByNumbers | services/google-drive/empenhos.service.ts:305-314 | an order-preserving subsequence of the sheet holding exactly the commitments whose number is among those asked for, each as many times as in the input |
| Empenhos.ByNumbersAgrees | services/google-drive/empenhos.service.ts:291-314 | asking for one number through the list finds nothing exactly when the single lookup does, and otherwise first the same commitment |
| Empenhos.ByOneNumber | services/google-drive/empenhos.service.ts:305-314 | the list lookup for one number keeps exactly the commitments with that trimmed number |
| CurrencyInput.Normalize | components/CurrencyInput.tsx:44-67 | with a comma the dots are dropped and the comma becomes the decimal point; a text with neither is left alone; the result stays within digits, dots and commas |
| CurrencyInput.ParseFromBRL | components/CurrencyInput.tsx:38-71 | the reading is never negative, and the empty text or one without digits reads as 0 |
| CurrencyInput.SameAmountCharsSameValue | components/CurrencyInput.tsx:42 | two texts with the same digits, dots and commas read the same |
| CurrencyInput.DecorationIgnored | components/CurrencyInput.tsx:42 | a currency sign or any other text around the amount does not change its reading |
| CurrencyInput.BrazilianAmount | components/CurrencyInput.tsx:45-50 | a dotted, comma-decimal amount reads as its digits with the comma as the decimal point |
| CurrencyInput.ThousandsAmount | components/CurrencyInput.tsx:56-59 | with more than one dot and no comma every dot is a thousands separator |
| CurrencyInput.UsAmount | components/CurrencyInput.tsx:61-66 | one dot followed by at most two digits is the decimal point |
| CurrencyInput.SingleThousandsDot | components/CurrencyInput.tsx:62-65 | one dot followed by more than two digits is a thousands separator |
| CurrencyInput.GroupThousands | components/CurrencyInput.tsx:31-34 | the units grouped by dots start with the same digit and give back the digits once the dots are removed |
| CurrencyInput.RoundCents | components/CurrencyInput.tsx:31-34 | rounding to cents keeps the sign, lands within half a cent, and gives at least one cent from half a cent on |
| CurrencyInput.FormatToBRL | components/CurrencyInput.tsx:28-35 | the rendering is empty exactly for NaN and zero |
| CurrencyInput.FormatThenParse | components/CurrencyInput.tsx:28-71 | reading the rendering of a whole number of cents gives back its magnitude |
| CurrencyInput.HandleChange | components/CurrencyInput.tsx:78-96 | the field shows what was typed and the parent receives its reading, never negative, 0 for the empty field |
| CurrencyInput.ShowValue | components/CurrencyInput.tsx:98-101 | on leaving the field, or when the parent's value changes, the field is blank exactly for NaN and zero |
| CurrencyInput.TypedCents | components/CurrencyInput.tsx:78-96 | an amount typed with a comma and two cent digits is sent as a whole number of cents |
| CurrencyInput.BlurKeepsCents | components/CurrencyInput.tsx:98-101 | leaving the field after a whole number of cents was sent shows a text that reads back to the same amount |
| CurrencyInput.TypedCentsSurviveBlur | components/CurrencyInput.tsx:78-101 | an amount typed with two cent digits survives being sent, rendered on blur and read again |
| CurrencyInput.DisplayStable | components/CurrencyInput.tsx:74-101 | once a value of zero or at least half a cent is shown, reading and showing it again gives the same text |

## Left out

- Firestore reads, writes and real-time subscriptions are replaced by the in-memory store. The React Query hooks and the thin payments service are not part of this model: they only move data.
- Document ids, the current time and random entry ids are not generated: fresh ids and the current time are parameters. The registration date `data_cadastro` and the `amendment_date` of an amendment are kept and filled from that parameter. The bookkeeping stamps `created_at`, `updated_at` and `updatedAt` are not kept in the records.
- Clock-driven code is not modelled, because it needs the current date: `getDaysRemaining`, `getDaysRemainingInActivePeriod` and PaymentHistory's current-month defaults. The days remaining are an input to the classifiers.
- The platform's `Date` parser is a parameter: the `new Date(str)` fallback of `parseDateToTime`, the dates PaymentHistory sorts by, and those the tenure form compares. Month and day overflow and time zones are not modelled.
- Numbers are exact reals. `parseFloat` reads the exact decimal value of the longest numeric prefix, and `Number` the exact value of a whole decimal or `0x`/`0o`/`0b` literal, with no rounding to binary. `Math.round` is `floor(x + 1/2)`.
- `toLocaleString` rendering is replaced by the pt-BR format itself, applied to currency and percentages: dot-grouped units, a comma, and two cent digits rounded half away from zero. The infinities render as `∞` and `-∞`, and `formatCurrency` is not modelled separately.
- `localeCompare` is ordinal string order, and `toLowerCase` lowers ASCII letters only.
- Strings are sequences of code points, so UTF-16 surrogate pairs are not modelled.
- `Object.entries` is assumed to list keys in first-insertion order. The JavaScript rule that puts integer-like keys first and in ascending order is not modelled. This matters only for the unit tally, since the date tally is sorted.
- PaymentHistory sorts its input array in place. The model returns a new sequence, so the caller's array is not modelled as reordered.
- `ContractWithCurrentInfo` keeps one field per value. The alias copies `numero_contrato`, `empresa`, `valor_original`, `start_date` and `end_date` repeat other fields and are not kept.
- The optional-chaining fallbacks for missing entry lists (`?.` and `|| []`) have no counterpart: the lists are required fields of a payment record (`types.ts:45-55`).
- The order Firestore gives to records that tie under `orderBy` is not modelled. The model keeps store order for ties.
- Contracts.GetContractById: for the empty id the service throws, because Firestore refuses an empty document path; the model answers nothing. The callers that fail on a missing contract (the current-info projection and the two amendment creations) fail for it as well. The amendment history and the period summary, which carry on without a contract, fail for the empty id explicitly.
- Contracts.FirstWithStoredId: document ids are compared in code-point order, which is the UTF-8 byte order Firestore sorts by. Two documents with one document id cannot exist; the model would take the earlier in store order.
- Contracts.ApplyPatch: a `null` written to a required field is stored as the empty text or 0, and a value of the wrong kind leaves the field as it was, since a contract record cannot hold either. The `updatedAt` stamp and unknown keys are not kept.
- Dashboard.SortObs: with a `NaN` date the comparator is inconsistent and the engine's order is unspecified; only a permutation with the same total is promised then. A civil date out of the clock's range is `NaN` as the clock parameter says.
- PaymentHistory.OrderedHistory: with a `NaN` registration date the comparator is inconsistent and the engine's order is unspecified; only a permutation is promised then.
- The chart key reads the installment label with `parseFloat` instead of `parseInt`. The two agree on the labels the chart builds, which are digits followed by `ª`.
- `formatPeriodType`, `formatPeriodStatus` and `getPeriodStatusColorClass` are fixed label tables. They state nothing beyond their own text and are not modelled.
- `deleteContract`, `getContracts` and the other plain queries are single Firestore calls with no logic of their own.
- The sisreg client, `fetchCSVFromDrive`, the `Papa.parse` call and the five-minute cache of the commitment sheet are network and clock plumbing. The regulation query's remote answer is a parameter, and the sheet arrives as rows of header/value cells.
- React rendering, focus and select handling, PDF generation, the storage migration and the import scripts are not modelled.
- Concurrent writers are not modelled: each service call is one atomic transition of the store.
- PaymentTotals.TotalPaid: carries no contract of its own. Its properties are stated by `TotalPaidSplits`, `PaidOrderIndependent` and the progress and chart lemmas.
- PaymentTotals.TotalInvoiced: carries no contract of its own, for the same reason as `TotalPaid`.
- CurrencyInput.DisplayStable: holds only for zero and for values of at least half a cent. A smaller positive value shows as `0,00`, which reads back as 0 and then shows as the empty field.
- CurrencyInput.FormatThenParse: gives back the magnitude only. A minus sign is not an amount character, so a negative amount reads back positive, exactly as the component does.

## Findings

| source | as written | input that shows it | evidently intended | confidence | as-written member | corrected member |
|---|---|---|---|---|---|---|
| components/ValueAmendmentForm.tsx:126 | a typed value is negated only when the kind is `suppression`, a code the form's select never produces, since it offers `Supressão` | choose `Supressão`, then type `500`: the value becomes `+5.00` and a suppression raises the contract's value | negate the typed value when the kind is `Supressão`, as the kind switch at lines 130-139 does | high; not executed | ValueAmendmentForm.HandleValueChangeAsWritten (lemma ValueAmendmentForm.AsWrittenSuppressionStaysPositive) | ValueAmendmentForm.HandleValueChange (lemma ValueAmendmentForm.ValueChangeKeepsSign) |
