# WanderGroup core in Dafny

WanderGroup is a group-travel app. A trip has members, shared expenses,
an activity plan and documents, and everything lives in a browser-local
key-value store. This project models the logic behind those screens and
proves properties of it:

- **Settlement** (`calculateSettlement` in the expenses view). Every member
  starts at zero. Each expense credits its payer with the full amount and
  debits every participant listing an equal share. Members below −0.01 are
  debtors and members above 0.01 are creditors, each list sorted by
  descending magnitude. A greedy two-index loop then pairs the largest
  remaining debtor with the largest remaining creditor and emits transfers.
  - `Balances` holds the balance record.
  - `Settlement` holds the split and the loop. The loop appears twice: as the
    recursive reference `Match` and as the method `PlanTransfers`, whose loop
    invariants prove it computes `Match`.
- **Dashboard figures** (`Dashboard`): total spent, the current user's
  paid/owed/net figures, the per-category totals, the two balance cards,
  and the add/rename member handlers.
- **Store** (`Database`): one optional slot per storage key, where an empty
  slot stands for a key that was never written. The collection operations
  (filter by trip, append, merge by id, delete by id, the membership join)
  act on it. `Seed` is the demo data written on first start, together with
  its balances and settlement.
- **Screens**:
  - `Documents`: filename classification, search and upload.
  - `Activities`: status toggle, form submission, grouping by date and the
    participant picker.
  - `Navigation`: the history stack and which screen is rendered.
  - `Trips`: the home screen's active/archived split and trip form.
- **Support**: `Collections` (filter, toggle, find, dedup) and `Text`
  (ASCII lower-casing, substring search, trimming, first-occurrence
  replace).

Amounts are exact reals. Ids, dates and timestamps are strings. Random ids
and the current date are parameters of the operations that use them.

Where the code and the app's written description disagree, the model
follows the code:

- Recorded payments are never applied to the balances. `calculateSettlement`
  does not read them.
- Nothing validates an expense. A payer or participant who is not a member,
  or an empty participant list, is a precondition (`Balances.WellFormed`),
  because the code would read an absent key or divide by zero.
- A participant listed twice is debited twice. The dashboard counts a listed
  user once, so its net balance agrees with the settlement only when nobody
  is listed twice. `Dashboard.DuplicateParticipantDiverges` gives an
  expense where the two differ.
- Debts can stay open above the 0.01 tolerance. The matching loop stops as
  soon as one side runs out, and a member sitting exactly at +0.01 is not a
  creditor. `Settlement.ResidualAboveTolerance` gives three members where one
  owes 0.02, both creditors are at +0.01, and no transfer is proposed.

## Model

| member | source | states |
|---|---|---|
| Balances.ZeroBalances | views/ExpensesView.tsx:101-102 | the starting record has exactly the members as keys, each at zero |
| Balances.Debit | views/ExpensesView.tsx:108-111 | debiting a participant list lowers each member by the share times the number of times that member is listed; the keys are unchanged |
| Balances.ApplyExpense | views/ExpensesView.tsx:104-112 | one expense raises the payer by the amount and lowers each participant by a share per listing; other entries and the key set are unchanged |
| Balances.ComputeBalances | views/ExpensesView.tsx:101-112 | the record has exactly the members as keys, and each member's balance is what they paid minus the shares debited for every listing that names them |
| Balances.UntouchedMemberIsZero | views/ExpensesView.tsx:101-112 | a member who never pays and is never listed ends at zero |
| Balances.TimesIsProduct | views/ExpensesView.tsx:108-111 | debiting a share once per listing equals the listing count times the share |
| Balances.SharesAddUp | views/ExpensesView.tsx:108-111 | the shares of one expense, taken once per listing, add back up to its amount |
| Balances.SumOverDebit | views/ExpensesView.tsx:108-111 | debiting a participant list lowers the sum over the members by the share times the list's length |
| Balances.ApplyExpenseKeepsSum | views/ExpensesView.tsx:104-112 | applying a well-formed expense leaves the sum of all balances unchanged |
| Balances.ZeroSum | views/ExpensesView.tsx:101-112 | with well-formed expenses the balances of all members sum to exactly zero |
| Settlement.Insert | views/ExpensesView.tsx:118 | inserting a party adds exactly that party to the list's contents |
| Settlement.InsertSorted | views/ExpensesView.tsx:118 | inserting into a list sorted by descending magnitude keeps it sorted |
| Settlement.SortDesc | views/ExpensesView.tsx:118 | the sort returns a permutation of its input ordered by descending magnitude |
| Settlement.SortDistinct | views/ExpensesView.tsx:118 | sorting keeps the ids distinct |
| Settlement.Debtors | views/ExpensesView.tsx:115-118 | the debtors are exactly the members below −0.01, each carried with the magnitude of their balance, sorted by descending magnitude, one entry per member |
| Settlement.Creditors | views/ExpensesView.tsx:120-123 | the creditors are exactly the members above 0.01 with their balances, sorted by descending balance, one entry per member |
| Settlement.ProgressStep | views/ExpensesView.tsx:132-140 | one iteration keeps every remaining magnitude between zero and the original, leaves parties ahead of the index untouched, and only moves past a party once it is below the tolerance |
| Settlement.MatchStep | views/ExpensesView.tsx:129-141 | one iteration emits the next transfer of the reference matching and continues with its remainder |
| Settlement.AdvanceStep | views/ExpensesView.tsx:132-140 | the smaller side of each match drops to zero, so at least one index advances and the loop terminates |
| Settlement.LoopStep | views/ExpensesView.tsx:129-141 | one iteration keeps the loop invariant: flows so far equal what each party has given up, every transfer goes from a debtor to a creditor with at least the tolerance, and the transfer count stays bounded |
| Settlement.LoopExit | views/ExpensesView.tsx:129-141 | when the loop stops its transfers are the whole reference matching, nobody pays beyond their debt or receives beyond their credit, one side is settled to within the tolerance, and there are at most debtors + creditors − 1 transfers |
| Settlement.PlanTransfers | views/ExpensesView.tsx:126-141 | the greedy matching loop computes the reference matching, and its transfers satisfy every guarantee listed for the loop exit |
| Settlement.SidesReady | views/ExpensesView.tsx:115-123 | both sides have magnitudes above the tolerance and distinct ids, which is what the matching loop needs |
| Settlement.TransferEndpoints | views/ExpensesView.tsx:115-134 | every transfer goes from a member below −0.01 to a member above 0.01, so members within the tolerance never appear in a transfer |
| Settlement.DebtorFlowBound | views/ExpensesView.tsx:132-137 | no debtor pays more in total than the magnitude of their balance |
| Settlement.CreditorFlowBound | views/ExpensesView.tsx:132-137 | no creditor receives more in total than their balance |
| Settlement.Match | views/ExpensesView.tsx:126-141 | the matching emits nothing exactly when one side is exhausted, and at most one transfer per remaining party |
| Settlement.Greedy | views/ExpensesView.tsx:126-141 | from the start, there are no transfers exactly when one side is empty, and at most as many transfers as parties |
| Settlement.Settle | views/ExpensesView.tsx:99-141 | the settlement proposes no transfer exactly when no member is below −0.01 or no member is above 0.01 |
| Settlement.NoDebtors | views/ExpensesView.tsx:115-118 | the debtor list is empty exactly when no member is below −0.01 |
| Settlement.NoCreditors | views/ExpensesView.tsx:120-123 | the creditor list is empty exactly when no member is above 0.01 |
| Settlement.SmallDebtsBalances | views/ExpensesView.tsx:101-112 | when two members each pay 0.01 for a third, the balances are −0.02, +0.01 and +0.01 |
| Settlement.ResidualAboveTolerance | views/ExpensesView.tsx:115-141 | in that example a debt of 0.02, above the tolerance, stays open and no transfer is proposed |
| Settlement.DebtorsSettled | views/ExpensesView.tsx:129-141 | when every listed debtor is settled, every member below −0.01 is left within the tolerance |
| Settlement.CreditorsSettled | views/ExpensesView.tsx:129-141 | when every listed creditor is settled, every member above 0.01 is left within the tolerance |
| Settlement.CalculateSettlement | views/ExpensesView.tsx:99-145 | the settlement returns the balance record (paid minus owed per member) and the deterministic transfer list. Each transfer goes from a debtor to a creditor, and nobody pays or receives beyond their balance. All debtors or all creditors end within the tolerance, and there are fewer transfers than members |
| Settlement.SidesFitMembers | views/ExpensesView.tsx:115-123 | debtors and creditors are different members with one entry each, so together they are no more than the members |
| Seed.SeedTripMembers | services/database.ts:26-49 | the seeded trip's members are Diego, Sofía and Marcos, in user order |
| Seed.SeedTripExpenses | services/database.ts:51-72 | the seeded trip has the two seeded expenses, in stored order |
| Seed.SeedPaid | services/database.ts:51-72 | on the seed data Diego paid 85500, Sofía 25300 and Marcos nothing |
| Seed.SeedOwed | services/database.ts:51-72 | on the seed data Diego and Sofía owe 41150 each and Marcos 28500 |
| Seed.SeedBalances | services/database.ts:51-72 | the seed balances are Diego +44350, Sofía −15850 and Marcos −28500 |
| Seed.SeedDebtors | services/database.ts:51-72 | on the seed data the debtors are Marcos (28500) then Sofía (15850) |
| Seed.SeedCreditors | services/database.ts:51-72 | on the seed data Diego (44350) is the only creditor |
| Seed.SeedSettlement | views/ExpensesView.tsx:99-141 | the seeded trip settles as Marcos pays Diego 28500, then Sofía pays Diego 15850 |
| Collections.Filter | services/database.ts:142-144 | the filter keeps exactly the elements that pass, each as often as before, in their original order |
| Collections.FilterAppend | services/database.ts:142-144 | filtering a concatenation filters each part |
| Collections.FilterNoDuplicates | services/database.ts:121-126 | filtering a list without repetitions gives a list without repetitions |
| Collections.Find | services/database.ts:93 | the lookup finds nothing exactly when no element matches, and otherwise returns a matching element of the list |
| Collections.MapWhere | services/database.ts:97 | a merge by id keeps the length and order, changes exactly the matching records and leaves the others as they were |
| Collections.Toggle | views/ExpensesView.tsx:363-367 | the participant toggle adds an absent id and removes a present one, leaves every other id's membership alone, and never introduces a repetition |
| Collections.ToggleTwiceAbsent | views/ExpensesView.tsx:363-367 | toggling an absent id twice gives back the exact list |
| Collections.ToggleTwiceSameSet | views/ExpensesView.tsx:363-367 | toggling any id twice gives back the same set of ids |
| Collections.Dedup | views/ExpensesView.tsx:115 | the balance record's keys are the members without repetition |
| Text.ToLower | views/DocumentsView.tsx:37 | lower-casing keeps the length and lower-cases each character on its own |
| Text.ToLowerIdempotent | views/DocumentsView.tsx:57-59 | lower-casing twice is lower-casing once |
| Text.ContainsAt | views/DocumentsView.tsx:58 | a string contains a substring exactly when the substring occurs at some position |
| Text.TrimEmptyIffBlank | views/TripDashboard.tsx:57 | a trimmed name is empty exactly when the name consists of blanks only |
| Text.ReplaceFirstAt | services/database.ts:136 | position by position, the first occurrence of the character is replaced and every other character is kept |
| Text.ReplaceFirstOnlyFirst | services/database.ts:136 | the replace changes only the first occurrence of the character and keeps the rest |
| Database.Get | services/database.ts:15-18 | reading a key returns the stored value, or the default when the key was never written |
| Database.OrElse | services/database.ts:105-111 | a fallback applies exactly when the given value is absent or empty |
| Database.GetCurrentUser | services/database.ts:79 | the current user is the stored one, or none when the key was never written; no contract of its own, its partner is Database.UpdateCurrentUserReadBack |
| Database.UpdateCurrentUser | services/database.ts:81-89 | with no current user nothing is written and the result is none; otherwise the merged user becomes current and replaces every listed user with that id |
| Database.UpdateCurrentUserReadBack | services/database.ts:79-89 | reading the current user after an update gives the merged user; an empty patch keeps the current user, and keeps the whole store when the user list is stored and agrees with the current user |
| Database.UpdateTripMember | services/database.ts:128-131 | renaming merges the patch into the users with that id and keeps all other users and slots |
| Database.GetTrips | services/database.ts:91 | the trip list is the stored one, or empty when the key was never written; no contract of its own, its partners are Database.GetTripById and Database.CreatedTripIsFound |
| Database.GetTripById | services/database.ts:93 | the lookup finds a trip with that id when one is stored, and none otherwise |
| Database.UpdateTrip | services/database.ts:95-98 | the patch is merged into the trips with that id; other trips, the order and other slots are kept |
| Database.NewTrip | services/database.ts:103-112 | a new trip is active and gets the given id and time. A non-empty draft name is kept; a missing or empty one becomes the default name. Destination and dates fall back to empty text, and the image to the default picture |
| Database.CreateTrip | services/database.ts:100-119 | creating appends the new trip, adds an admin membership for the current user when there is one, and writes nothing else |
| Database.CreatedTripIsFound | services/database.ts:93-126 | a trip created under an unused id is found by that id, and the logged-in user, when listed, is among its members |
| Database.MemberIds | services/database.ts:124 | the membership join lists exactly the users with a membership in the trip |
| Database.GetTripMembers | services/database.ts:121-126 | a trip's members are the stored users holding a membership in it, each as often as stored, in user order |
| Database.MemberEmail | services/database.ts:136 | position by position, the address is the name with ASCII letters lower-cased and its first space made a dot, followed by "@example.com" |
| Database.AddTripMember | services/database.ts:133-140 | adding a member appends one new user and one viewer membership for that trip, and writes nothing else |
| Database.AddedMemberIsListed | services/database.ts:133-140 | after adding a member, the new user is among the trip's members |
| Database.GetExpenses | services/database.ts:142-144 | a trip's expenses are exactly the stored expenses of that trip, each as often as stored, in stored order |
| Database.AddExpense | services/database.ts:146-151 | adding appends one record with exactly the draft's fields and the new id, keeps earlier records and writes no other slot |
| Database.GetExpensesAfterAdd | services/database.ts:142-151 | after an add, a trip's expenses grow by the new record exactly when it belongs to that trip |
| Database.UpdateExpense | services/database.ts:153-157 | the patch is merged into the records with that id; the others, the order and other slots are unchanged |
| Database.UpdateMissingExpense | services/database.ts:153-157 | updating an id that is not stored changes no record |
| Database.DeleteExpense | services/database.ts:159-162 | deleting removes exactly the records with that id and keeps every other record, as often as stored, in order |
| Database.DeleteUndoesAdd | services/database.ts:146-162 | deleting the record just added under a fresh id gives back the earlier expenses |
| Database.GetActivities | services/database.ts:164-166 | a trip's activities are exactly the stored activities of that trip, each as often as stored, in stored order |
| Database.AddActivity | services/database.ts:168-173 | adding appends one activity with exactly the draft's fields and the new id, and writes no other slot |
| Database.GetActivitiesAfterAdd | services/database.ts:164-173 | after an add, a trip's activities grow by the new record exactly when it belongs to that trip |
| Database.UpdateActivity | services/database.ts:175-178 | the patch is merged into the activities with that id; the others are unchanged |
| Database.GetDocuments | services/database.ts:180-182 | a trip's documents are exactly the stored documents of that trip, each as often as stored, in stored order |
| Database.AddDocument | services/database.ts:184-189 | adding appends one document with the draft's fields and the new id |
| Database.GetPayments | services/database.ts:191-193 | a trip's payments are exactly the stored payments of that trip, each as often as stored, in stored order |
| Database.AddPayment | services/database.ts:195-200 | adding appends one payment with the draft's fields and the new id |
| Dashboard.TotalSpent | views/TripDashboard.tsx:32 | the trip total is never negative when no amount is |
| Dashboard.UserPaid | views/TripDashboard.tsx:35-38 | with no current user nothing is paid; otherwise the user paid what the settlement credits them, and never more than the trip total |
| Dashboard.ShareIfIncluded | views/TripDashboard.tsx:39-41 | an expense costs a user nothing unless the user is listed, and at most its amount |
| Dashboard.UserOwes | views/TripDashboard.tsx:35-42 | a user listed in no expense owes nothing, and nobody owes more than the trip total |
| Dashboard.NetBalance | views/TripDashboard.tsx:44 | the net balance lies between minus and plus the trip total; with no user it is minus what the empty id owes |
| Dashboard.OwesAgrees | views/TripDashboard.tsx:36-42 | when the user is listed at most once per expense, the dashboard's amount owed equals the settlement's |
| Dashboard.NetBalanceAgrees | views/TripDashboard.tsx:44 | under the same condition the net balance equals the user's entry in the settlement's balance record |
| Dashboard.DuplicateParticipantDiverges | views/TripDashboard.tsx:39-41 | a user listed twice in one expense is owed differently by the dashboard and by the settlement |
| Dashboard.AddTo | views/TripDashboard.tsx:47-50 | adding an amount to a category adds to its entry when it is listed, and otherwise appends a new entry at the end |
| Dashboard.AddToStep | views/TripDashboard.tsx:47-50 | each step of the reduction keeps one entry per category used so far, holding that category's sum |
| Dashboard.FirstUse | views/TripDashboard.tsx:47-50 | the first-use index of a category points at the first expense in it, or past the end when none is |
| Dashboard.AddToOrder | views/TripDashboard.tsx:47-50 | a category seen for the first time is placed after every category used earlier |
| Dashboard.CategoryTotals | views/TripDashboard.tsx:47-52 | the chart has one entry per distinct category, in order of first use, each holding the sum of that category's amounts; it is empty exactly when there are no expenses |
| Dashboard.UnusedCategorySum | views/TripDashboard.tsx:47-50 | a category no expense uses sums to zero |
| Dashboard.AddToTotal | views/TripDashboard.tsx:47-50 | adding an amount to the chart raises the sum of its values by that amount |
| Dashboard.SlicesAddUpToTotal | views/TripDashboard.tsx:32-52 | the chart's values add up to the total spent |
| Dashboard.NoExpenses | views/TripDashboard.tsx:32-52 | with no expenses the total and the net balance are zero and the chart is empty |
| Dashboard.CardFigures | views/TripDashboard.tsx:98-109 | the first card shows the magnitude of the net balance; the second shows the same when the balance is negative and the amount owed otherwise |
| Dashboard.HandleAddMember | views/TripDashboard.tsx:55-61 | a blank name changes nothing; otherwise the store gains the new member and the shown list gets the new user appended |
| Dashboard.HandleUpdateMember | views/TripDashboard.tsx:63-70 | without a member being edited, or with a blank name, nothing changes; otherwise only the entries with that id are renamed, in the store and in the shown list |
| Documents.ParseType | views/DocumentsView.tsx:20-25 | a stored type string is recognised only when it is the name of one of the four types |
| Documents.ParseTypeName | views/DocumentsView.tsx:20-25 | every type's stored name is recognised as that type |
| Documents.Classify | views/DocumentsView.tsx:36-40 | on the lower-cased name, insurance wins over reservation, which wins over ticket, and any other name is other |
| Documents.ClassifyIgnoresCase | views/DocumentsView.tsx:37 | the classification does not depend on letter case |
| Documents.ConfigFor | views/DocumentsView.tsx:114 | an unknown type falls back to the display of the other type |
| Documents.ConfigForClassified | views/DocumentsView.tsx:36-45 | an uploaded document is displayed with the configuration of its classified type |
| Documents.Search | views/DocumentsView.tsx:57-59 | the search keeps exactly the documents whose lower-cased name contains the lower-cased term, each as often as listed, in order |
| Documents.SearchEmptyKeepsAll | views/DocumentsView.tsx:57-59 | an empty search term keeps every document |
| Documents.SearchIgnoresCase | views/DocumentsView.tsx:57-59 | the search does not depend on the letter case of the term |
| Documents.HandleFileChange | views/DocumentsView.tsx:31-55 | with no file nothing changes; otherwise one classified document with url "#" and the given date is stored, no other slot is written, and it is shown first, ahead of the unchanged earlier list |
| Activities.ToggledStatus | views/ActivitiesView.tsx:40 | done becomes pending, and pending or rescheduled becomes done |
| Activities.ToggledTwice | views/ActivitiesView.tsx:40 | two clicks give back a done or pending status, but a rescheduled one ends up pending |
| Activities.ToggleStatus | views/ActivitiesView.tsx:37-43 | an id that is not shown changes nothing; otherwise exactly the stored activities with that id get the toggled status |
| Activities.HandleSubmit | views/ActivitiesView.tsx:63-83 | without a title or date nothing changes; an edit merges the form into the edited activity, and a new activity is appended as pending |
| Activities.SubmittedActivityIsShown | views/ActivitiesView.tsx:63-83 | a submitted new activity appears, pending, at the end of its trip's activity list |
| Activities.ToggleParticipant | views/ActivitiesView.tsx:213-217 | the participant picker adds an absent id and removes a present one, and never introduces a repetition |
| Activities.OfDate | views/ActivitiesView.tsx:85-89 | a date's bucket holds exactly the activities of that date, each as often as shown, in their shown order |
| Activities.Place | views/ActivitiesView.tsx:86-87 | an activity goes to the end of its date's bucket, or opens a new bucket at the end when the date is new |
| Activities.PlaceStep | views/ActivitiesView.tsx:85-89 | placing the next activity turns a grouping of the earlier ones into a grouping of all |
| Activities.Grouped | views/ActivitiesView.tsx:85-89 | there is one non-empty bucket per distinct date, and each holds exactly the activities of its date in their original order |
| Activities.OneBucket | views/ActivitiesView.tsx:85-89 | every activity lies in exactly one bucket |
| Activities.GroupedHoldsAll | views/ActivitiesView.tsx:85-89 | the buckets together hold as many activities as were shown, so none is lost or copied |
| Navigation.Current | App.tsx:25 | the current view is the last history entry; no contract of its own, its partners are the navigation functions' contracts |
| Navigation.BackFromStart | App.tsx:20-47 | on start-up the current view is home, and going back changes nothing |
| Navigation.NavigateTo | App.tsx:39-41 | navigating appends exactly the view, which becomes current |
| Navigation.GoBack | App.tsx:43-47 | going back pops the current view only when there is more than one |
| Navigation.BackUndoesNavigate | App.tsx:39-47 | going back right after navigating restores the previous state |
| Navigation.GoHome | App.tsx:92 | the title and home buttons reset the history to the home view alone |
| Navigation.NavigateToTrip | App.tsx:49-52 | selecting a trip records it and makes its dashboard current |
| Navigation.Render | App.tsx:58-73 | home and profile render as such; every other view renders its screen for the selected trip, and falls back to home when no trip is selected |
| Navigation.NavigateToTripShowsDashboard | App.tsx:49-65 | after selecting a trip with a non-empty id, its dashboard is rendered |
| Trips.ActiveTrips | views/Home.tsx:64 | the active list holds exactly the active trips, each as often as listed, in their original order |
| Trips.ArchivedTrips | views/Home.tsx:65 | the archived list holds exactly the other trips, each as often as listed, in their original order |
| Trips.Partition | views/Home.tsx:64-65 | every trip lands in exactly one of the two lists, and the archived ones are exactly the finished and archived trips |
| Trips.OpenEdit | views/Home.tsx:36-47 | the edit form starts from the trip's fields, with an empty image address when the trip has none |
| Trips.SaveUnchangedEdit | views/Home.tsx:36-58 | saving the edit form unchanged keeps the trip, except that a missing image address is stored as the empty string |
| Trips.HandleSubmit | views/Home.tsx:49-62 | without a name or destination nothing changes; an edit updates that trip in place; otherwise a new active trip is appended and its dashboard opened |

## Left out

- Browser storage and JSON: each storage key is modelled as an optional slot holding a list or record. A patch is modelled as one optional value per field, so an explicit `undefined` in a patch is not modelled.
- Random ids (`Math.random`) and the current date or time are parameters, not generated.
- Numbers are exact reals. IEEE rounding of `amount / participants.length` and of the sums is not modelled.
- Lower-casing and trimming cover ASCII letters and ASCII white space only. Unicode case mapping and Unicode spaces are not modelled.
- Key order of the balance record: the model uses the members' first-occurrence order. JavaScript lists integer-like keys first, and that reordering is not modelled. Inherited object properties in the `docTypes` and category lookups are not modelled either.
- The date sorts of the expense and activity lists (`refreshData`) are not modelled, because they parse dates. The grouping and settlement take the list in whatever order they are given.
- Settlement.SortDesc: only proves the result is a descending permutation. It does not prove that ties keep their input order, as JavaScript's stable sort does.
- Collections.Dedup: promises the elements without repetition, not their first-occurrence order, which only the body fixes.
- Settlement.PlanTransfers: requires distinct ids and magnitudes above the tolerance. Settlement.SidesReady proves that debtors and creditors built from the balance record meet both.
- Payments: `addPayment` and `getPayments` are modelled as collection operations, but no view applies payments to balances, so the settlement ignores them.
- Expense form handling (`handleSaveExpense`, `openEdit`, `closeModal`, `handleDelete` with its browser confirm, `getUserName`) is not modelled. It only moves form state into `Database.AddExpense`, `Database.UpdateExpense` and `Database.DeleteExpense`, which are modelled, and parses the amount text with `parseFloat`.
- The activity edit form's initial values (`openEdit` in the activities view) and the create forms' reset values are not modelled; they only copy fields.
- The maps view is an embedded map whose pin operations the store does not define. The assistant view calls a remote language model over the network. The profile view only holds form state over `updateCurrentUser`. None of the three is modelled.
- Rendering, modals and menus, the clipboard and timers, the online/offline listeners and the charts library are not modelled.
- `initMockData`'s guard on existing storage is not modelled. `Seed.SeedStore` is the store right after the first start.
