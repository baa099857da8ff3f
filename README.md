# Shared-expense settlement: a Dafny model

This project models the core of a shared-expense tracker. People take part in an *event*, record *expenses* (who paid, how much, and who shares it), and the app works out who should pay whom.

The model covers two parts of the repository.

- **The debt calculator** (`src/lib/debt-calculator.ts`):
  - `calculateBalances` folds an event's expenses into a map from participant id to net balance.
  - `simplifyDebts` turns the net balances into payments. It drops balances within 0.01 of zero and sorts the debtors and the creditors. Then a two-index sweep settles `min(-debt, credit)` between the current pair and moves past each side that is settled.
- **The event registry updates** (`src/context/events-context.tsx`). These are the list transformations that `addEvent`, `addParticipant` and `addExpense` hand to React's `setEvents`, plus `getEventById`.

Modules:

- `Types` (`types.dfy`): the records of `src/lib/types.ts`, plus the expense draft that `addExpense` receives.
- `BalanceMap` (`balance_map.dfy`): the JavaScript `Map<string, number>`. It is a sequence of entries with distinct keys in insertion order. `Put` is `Map.set`, and `Get` is `map.get(k) || 0`.
- `Balances` (`balances.dfy`): `calculateBalances`.
  - `CalculateBalances` is the imperative method, with the source's nested loops.
  - It is proved equal to the specification function `Ledger`.
  - `Ledger` is in turn proved equal to an independent reference, `Net`, the sum of each expense's effect.
- `Settlement` (`settlement.dfy`): `simplifyDebts`.
  - The filter and the stable sorts are functions.
  - The sweep is the specification function `Sweep`. It returns `None` when the loop would never stop.
  - `Settle` is the loop itself. It works on two arrays and updates the balances in place.
  - `SimplifyDebts` builds those arrays and calls `Settle`.
- `EventRegistry` (`events.dfy`): the updaters are functions on `seq<Event>`. `addParticipant` and `addExpense` are also methods with a loop, because they record the new item in an outer variable as a side effect of the update.
- `Scenarios` (`scenarios.dfy`): worked examples. These are a dinner split three ways, one debtor paying two creditors, and the threshold stall described under Findings.

Amounts are exact reals, and the threshold is `1/100`.

The sweep can make more payments than the smaller side has entries: up to `#debtors + #creditors - 1`.
- `Settlement.SweepLength` proves that bound.
- `Scenarios.OneDebtorTwoCreditors` needs two payments for one debtor.

Each turn of the sweep that makes a payment brings one side of the pair to exactly 0 and moves past it. A turn that moves neither index pays nothing and changes no balance, so from there the loop repeats that turn forever. `Settlement.Step` states both.

## Model

| member | source | states |
|---|---|---|
| BalanceMap.Put | src/lib/debt-calculator.ts:17-20 | `Map.set`: the key written reads back as the new value, and every other key reads as before |
| BalanceMap.PutIds | src/lib/debt-calculator.ts:25-28 | Setting a key keeps the key order. A new key is appended at the end, which is the insertion order of a JavaScript `Map` |
| BalanceMap.PutNew | src/lib/debt-calculator.ts:25-28 | Setting a missing key appends one entry holding that value |
| BalanceMap.PutExisting | src/lib/debt-calculator.ts:25-28 | Setting an existing key replaces its value where it stands, and nothing else changes |
| BalanceMap.PutSum | src/lib/debt-calculator.ts:17-20 | Setting a key changes the sum of all balances by the new value minus the value the key had before |
| BalanceMap.PutDistinct | src/lib/debt-calculator.ts:25-28 | Setting a key never creates a duplicate key |
| BalanceMap.GetEntry | src/lib/debt-calculator.ts:19 | In a map with distinct keys, looking up an entry's key gives that entry's balance |
| BalanceMap.GetMissing | src/lib/debt-calculator.ts:19 | A missing key reads as 0 (the `\|\| 0` fallback) |
| Balances.Opening | src/lib/debt-calculator.ts:7-9 | The map starts with exactly the participant ids as keys, each at 0, with no repeats. Its sum is 0 |
| Balances.SharesAddUp | src/lib/debt-calculator.ts:23-29 | Debiting one share per listed sharer removes exactly the expense amount |
| Balances.DebitGet | src/lib/debt-calculator.ts:24-29 | The sharer loop lowers each id's balance by one share per occurrence of that id among the sharers, and leaves every other id alone |
| Balances.DebitSum | src/lib/debt-calculator.ts:24-29 | The sharer loop lowers the total by one share per listed sharer |
| Balances.DebitKeys | src/lib/debt-calculator.ts:24-29 | After the sharer loop, the keys are the old keys plus every sharer, and a missing sharer is created |
| Balances.DebitOrder | src/lib/debt-calculator.ts:24-29 | The sharer loop keeps the existing keys in place and only appends |
| Balances.DebitDistinct | src/lib/debt-calculator.ts:24-29 | The sharer loop never repeats a key |
| Balances.ApplyGet | src/lib/debt-calculator.ts:12-29 | One pass of the expense loop moves every balance by exactly that expense's effect. For an invalid expense (no payer, amount <= 0, no sharers) the effect is 0, so no balance changes. For a valid one the payer gains the amount, each sharer loses a share per listing, and no other key moves |
| Balances.ApplySum | src/lib/debt-calculator.ts:12-29 | One pass of the expense loop leaves the sum of all balances unchanged |
| Balances.ApplyKeys | src/lib/debt-calculator.ts:12-29 | One pass adds exactly the payer and the sharers of a valid expense as keys, and an invalid expense adds none |
| Balances.ApplyOrder | src/lib/debt-calculator.ts:12-29 | One pass keeps the existing keys in order and keeps the keys distinct |
| Balances.LedgerIsNet | src/lib/debt-calculator.ts:3-33 | The result has distinct keys. Its keys are the participants plus every id a valid expense touches. Every balance equals the net effect of all expenses, and the balances sum to 0 |
| Balances.NetPermutation | src/lib/debt-calculator.ts:11-30 | The net effect of a list of expenses does not depend on their order |
| Balances.LedgerOrderIndependent | src/lib/debt-calculator.ts:11-30 | Reordering the expenses gives the same keys and the same balance for every id |
| Balances.NetUntouched | src/lib/debt-calculator.ts:12-29 | An id that no valid expense names as payer or sharer has net effect 0 |
| Balances.UntouchedParticipant | src/lib/debt-calculator.ts:7-9 | A participant that no valid expense touches is a key of the result, with balance exactly 0 |
| Balances.CalculateBalances | src/lib/debt-calculator.ts:3-33 | The nested loops compute `Ledger`. The result has distinct keys, every balance is the net of all expense effects, and the balances sum to 0 |
| Settlement.Filter | src/lib/debt-calculator.ts:37-39 | Keeps exactly the entries that pass the test, and never more entries than the input |
| Settlement.FilterDistinct | src/lib/debt-calculator.ts:37-39 | Filtering keeps keys distinct |
| Settlement.FilterSplit | src/lib/debt-calculator.ts:41-46 | Two filters with exclusive tests together keep at most as many entries as the input |
| Settlement.InsertPerm | src/lib/debt-calculator.ts:43 | One insertion step adds exactly the inserted entry |
| Settlement.InsertSorted | src/lib/debt-calculator.ts:43 | Inserting into a sorted list keeps it sorted |
| Settlement.InsertTier | src/lib/debt-calculator.ts:43 | Inserting keeps each group of equal balances in insertion order, so the sort is stable |
| Settlement.SortSpec | src/lib/debt-calculator.ts:41-46 | The sort is sorted, is a permutation of its input, and keeps every group of equal balances in input order. This is what `Array.prototype.sort` promises with the comparators `a - b` and `b - a` |
| Settlement.InsertDistinct | src/lib/debt-calculator.ts:43 | Inserting an entry with a new key keeps keys distinct |
| Settlement.SortDistinct | src/lib/debt-calculator.ts:41-46 | Sorting keeps keys distinct |
| Settlement.DebtorsSpec | src/lib/debt-calculator.ts:37-43 | The debtors are exactly the entries below -0.01. They are sorted from most negative up, a permutation of the filtered map, and tied balances stay in map order |
| Settlement.CreditorsSpec | src/lib/debt-calculator.ts:37-46 | The creditors are exactly the entries above 0.01. They are sorted from largest down, a permutation of the filtered map, and tied balances stay in map order |
| Settlement.PartiesFit | src/lib/debt-calculator.ts:37-46 | There are at most as many debtors plus creditors as map entries |
| Settlement.Sides | src/lib/debt-calculator.ts:37-46 | In a map with distinct keys: every debtor is a key whose balance is below -0.01, every creditor a key above 0.01, and neither list repeats a key |
| Settlement.Step | src/lib/debt-calculator.ts:53-74 | One turn of the loop changes no list length and advances each index by at most one. A turn that pays brings the debtor or the creditor to exactly 0 and moves past it. A turn that moves neither index pays nothing and changes no balance, so the loop would repeat it forever |
| Settlement.StepSigns | src/lib/debt-calculator.ts:56-66 | Settling `min(-debtor, creditor)` keeps debtor balances at or below 0 and creditor balances at or above 0 |
| Settlement.SweepParties | src/lib/debt-calculator.ts:56-63 | Every payment is above 0.01, from a debtor at or after the current index, to a creditor at or after the current index |
| Settlement.SweepPaid | src/lib/debt-calculator.ts:56-66 | No remaining debtor pays more in total than it owes |
| Settlement.SweepReceived | src/lib/debt-calculator.ts:56-66 | No remaining creditor receives more in total than it is owed |
| Settlement.SweepLength | src/lib/debt-calculator.ts:53-75 | The sweep makes no payment once either side is used up. Otherwise it makes at most `#debtors + #creditors - 1` payments |
| Settlement.InclusiveSweepStops | src/lib/debt-calculator.ts:69-74 | If a side is also closed when it sits exactly at the threshold, the loop always stops |
| Settlement.PlanParties | src/lib/debt-calculator.ts:35-78 | For distinct keys: every payment is above 0.01, from someone who owes more than 0.01, to someone else who is owed more than 0.01. So nobody pays themselves |
| Settlement.PlanBounded | src/lib/debt-calculator.ts:35-78 | For distinct keys: nobody pays more than their initial debt, and nobody receives more than their initial credit |
| Settlement.PlanLength | src/lib/debt-calculator.ts:35-78 | There are fewer payments than map entries. With no debtors, or no creditors, there are none |
| Settlement.Settle | src/lib/debt-calculator.ts:48-77 | The in-place loop over the debtor and creditor arrays emits exactly the sweep's payments |
| Settlement.SimplifyDebts | src/lib/debt-calculator.ts:35-78 | For balances on which the loop stops, it returns the plan. For distinct keys, the plan has the party, amount and bound properties above. It is shorter than the map, or empty |
| Settlement.CorrectedPlanStops | src/lib/debt-calculator.ts:69-74 | With sides closed at `\|balance\| <= 0.01`, the loop stops on every map |
| Settlement.SimplifyDebtsCorrected | src/lib/debt-calculator.ts:35-78 | The corrected version is defined on every map. It returns the corrected plan, with the same party, amount, bound and length properties |
| EventRegistry.GetEventById | src/context/events-context.tsx:62-64 | `find`: none exactly when no event has the id; otherwise the first event with that id |
| EventRegistry.AddEvent | src/context/events-context.tsx:51-59 | Appends one event with the fresh id, the given name, and no participants or expenses. Earlier events are unchanged and keep their order |
| EventRegistry.AddEventLookup | src/context/events-context.tsx:51-64 | With a fresh id, looking up that id finds the new event, and every other lookup is unchanged |
| EventRegistry.WithParticipant | src/context/events-context.tsx:71-78 | A case-insensitive name clash leaves the event as it is. Otherwise `{id: fresh, name}` goes at the end of its participants. Id, name and expenses never change |
| EventRegistry.AddParticipantUpdate | src/context/events-context.tsx:68-82 | Same number of events. Only events with the target id get the participant update, and all others are untouched |
| EventRegistry.AddParticipantUnknown | src/context/events-context.tsx:68-82 | An unknown event id leaves the list unchanged |
| EventRegistry.AddParticipantKeepsNamesDistinct | src/context/events-context.tsx:71-78 | If names within each event are distinct ignoring case, they still are after the update |
| EventRegistry.AddParticipant | src/context/events-context.tsx:66-84 | The list is the updater's result. A participant is returned exactly when some event has the id and the name is not taken there, and then it is `{id: fresh, name}` |
| EventRegistry.AddExpenseUpdate | src/context/events-context.tsx:91-102 | Same number of events; ids, names and participants are unchanged. The target event gets `{...draft, id: fresh}` appended to its expenses, without validation. Others are unchanged |
| EventRegistry.AddExpenseUnknown | src/context/events-context.tsx:91-102 | An unknown event id leaves the list unchanged |
| EventRegistry.AddExpenseKeepsNamesDistinct | src/context/events-context.tsx:93-98 | Adding an expense keeps the distinct-names invariant |
| EventRegistry.AddExpense | src/context/events-context.tsx:86-104 | The list is the updater's result. An expense is returned exactly when some event has the id, and then it is the draft with the fresh id |
| EventRegistry.UpdateLookup | src/context/events-context.tsx:68-102 | After either updater, a lookup by any id finds an event exactly when it did before. A lookup by another id finds the same event |
| Scenarios.TrioOpening | src/lib/debt-calculator.ts:7-9 | Three participants open at 0 in participant order |
| Scenarios.DinnerLedger | src/lib/debt-calculator.ts:3-33 | A pays 90 shared by A, B and C: the balances are A 60, B -30, C -30 |
| Scenarios.DinnerPlan | src/lib/debt-calculator.ts:35-78 | For that dinner, B pays A 30 and then C pays A 30 |
| Scenarios.OneDebtorTwoCreditors | src/lib/debt-calculator.ts:53-75 | One debtor and two creditors need two payments, more than `min(#debtors, #creditors)` |
| Scenarios.StallAsWritten | src/lib/debt-calculator.ts:58-74 | On A -0.024, B 0.014, C 0.012, D -0.002 the loop as written never stops |
| Scenarios.StallCorrected | src/lib/debt-calculator.ts:69-74 | On the same balances the corrected loop stops after A pays B 0.014 |

## Left out

- The React components (event dashboard, expense, participant and summary cards, page layout and header) render UI and keep form state, so they are not part of this model.
- The AI expense-suggestion flow (`src/ai/flows/suggest-expenses-flow.ts`) calls a language model service whose behaviour cannot be stated.
- Loading from and saving to `localStorage` (JSON), the provider's `loading` state and effects, and the context/hook plumbing are I/O and framework glue, so they are left out.
- `generateId` reads the clock and a random source, so each operation takes the new id as a `freshId` parameter. Only `EventRegistry.AddEventLookup` assumes the id is unused.
- EventRegistry.AddParticipantUpdate: every event whose id equals `eventId` gets the same `freshId`. The source calls `generateId()` once per matching event inside the `map` callback (src/context/events-context.tsx:74), so with duplicate event ids it would hand out distinct new ids. The model is exact only when at most one event carries `eventId`.
- EventRegistry.AddParticipant: returns the participant with `freshId`. With duplicate event ids the source returns the one made for the last match, whose generated id differs from the others; the model does not capture that.
- EventRegistry.AddExpenseUpdate: the same gap for expenses. Each matching event gets an expense with the same `freshId`, where the source generates one id per match (src/context/events-context.tsx:94).
- EventRegistry.AddExpense: returns the expense with `freshId`. With duplicate event ids the source returns the one made for the last match; the model does not capture that.
- `toLowerCase` is a parameter `lower: string -> string`, so no Unicode case-folding rules are modelled.
- The model treats React's state updaters as running at once. In the source, the value that `addParticipant`/`addExpense` return is captured inside an updater that React may run later.
- Amounts are exact reals, not IEEE-754 doubles, so rounding residue and the `NaN` that a failed `parseFloat` can produce are not modelled. A `NaN` amount would get past the `amount <= 0` guard in the source.
- `formatCurrency` is not part of this model.
- SimplifyDebts: requires that the loop stops on the given balances (`Plan(balances, false).Some?`). It makes no claim about inputs where a debtor or creditor is left at exactly the threshold. See Findings; `SimplifyDebtsCorrected` has no such precondition.
- Settlement.PlanBounded: bounds what each party pays and receives, but does not claim that everything owed gets settled. A residual of up to 0.01 per party can remain, and the sweep can stop while one side still has balances left.
- `simplifyDebts` leaves its input map untouched because it copies the entries into new objects before changing them. In the model the input map is a value, so this holds without a proof.
- Settle: the debtor and creditor arrays hold entry values. The source holds objects created by `map`, but nothing else refers to those objects, so sharing is not observable.

## Findings

| source | as written | input that shows it | evidently intended | confidence | as-written member | corrected member |
|---|---|---|---|---|---|---|
| src/lib/debt-calculator.ts:58-74 | A pair is settled only when `min(-debtor, creditor) > 0.01`, but a side is passed only when `\|balance\| < 0.01`. A side left at exactly ±0.01 is neither settled nor passed, so the `while` loop never ends | `{A: -0.024, B: 0.014, C: 0.012, D: -0.002}`. A pays B 0.014, B is passed, and A stays at exactly -0.01 facing C at 0.012 with no index moving. In doubles, `-0.024 + 0.014` also gives exactly `-0.01` | Pass a side once `\|balance\| <= 0.01`, the same test the outstanding filter at line 39 uses for "settled", so the loop always stops. `Settlement.CorrectedPlanStops` proves it stops on every input; on the stall input it makes the single payment A→B 0.014 (`Scenarios.StallCorrected`) | not executed; proved over exact reals, while the remark about doubles is not proved | Scenarios.StallAsWritten | Settlement.SimplifyDebtsCorrected |
