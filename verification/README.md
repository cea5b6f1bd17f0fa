# Venture's browser runtime, modelled and proved

A Dafny model of the parts of Venture's browser code that keep state or
decide something, each proved against the promise its users rely on. Check the
whole project with `dafny verify dfyconfig.toml`.

Code that overwrites variables in place is a class or a method with loops,
proved equal to a step function on values; the promises are then proved about
that function, over every input, every run or every interleaving.

| files | what they model |
|---|---|
| `Consent`, `ConsentRuns`, `ConsentClient` | the analytics-consent protocol: `grant`, `withdraw` and `page` interleaving over one promise queue, browser storage and page reloads, with a ledger of every visitor token |
| `FormRules`, `FormMeaning`, `RuledForm` | conditional form fields: one pass that reads the form it is changing |
| `Requests` | latest request wins: abort, supersede, accept and fail, per element |
| `TableGroups`, `StableSort`, `TableSort`, `TableReading`, `TableDealing`, `TableView`, `SortableTable` | a table sorted in groups by re-appending its rows, with a text filter and a group picker over one visibility flag |
| `Grid`, `GridEditor` | the dashboard grid: drag, resize, swap, cancel, refuse |
| `PlotScale` | chart axes, in exact arithmetic |
| `CoinMarkup`, `CoinAmount` | coins marked up in running text, printed, and read back |
| `SplitTop` | splitting outside quotes and brackets |
| `Csv` | a chart's CSV, with a reader for section 2 of RFC 4180 |
| `Text`, `Options` | string helpers of the script language, and the optional value |

## Where the code falls short of a plain statement

Each of these is proved, with its exact condition.

- A grid request refused late, after another gesture has begun, can spoil the
  layout in two ways. With no room for the cards that go back, two cards stand
  on one place at once (`Grid.LateRefusalOverlaps`). And with a card in hand,
  one may go back onto the place already judged free, where the drop then lands
  unjudged (`Grid.StaleVerdictOverlaps`). Over any run the cards at rest stay
  apart exactly when every refusal finds no staying card where one that goes
  back came from, and every drop on a place judged free finds it still clear
  (`Grid.LayoutStaysValid`, with `Grid.Harmless`).
- A refused gesture restores the layout before it exactly when no other refusal
  in between has left another card elsewhere (`Grid.RefusalRestores`).
- `splitTop` drops a blank last part and no other, so it undoes a join exactly
  when the last part is not blank (`SplitTop.SplitUndoesJoin`).
- `plotCsv` does not quote a cell for a carriage return; its text reads back
  exactly when no cell holds a carriage return without also holding a quote, a
  comma or a line feed (`Csv.ReadsBack`).
- `page` treats an expiry date that cannot be read as not lapsed, while
  `createSubmission` treats it as not live. With something active, `page` sends
  and a submission still carries no token exactly when the expiry cannot be
  read, or is still to come and the record has no token
  (`Consent.PageAndSubmissionPart`); a page gets there when the server's grant
  has such an expiry (`ConsentRuns.UnreadableExpiryIsReached`).

The settling of conditional forms rests on rules that read only fields before
their target. The server guarantees it: it refuses any other rule when a form is
saved and again when it is published (src/forms/venture-forms-rules.c:84,
docs/forms.org:253-257). `FormRules.SelfReadingNeverSettles` shows why.

## Model

| member | source | states |
|---|---|---|
| Consent.StepKeepsValid | data/static/attribution.js:12-110 | every stretch of script and every move of the environment (answers, 404s, failures, clock, reload) keeps: storage mirrors memory, only the newest call owns the current turn, `active` implies an idle queue and agrees with `read()` unmarked, a request in flight carries the token on hand, and object identity is sound |
| Consent.FreshPageValid | data/static/attribution.js:11-11 | a page loaded with whatever is stored satisfies that invariant |
| Consent.StartGrantKeepsValid | data/static/attribution.js:63-75 | beginning a queued grant, current or superseded, keeps the invariant |
| Consent.StartWithdrawKeepsValid | data/static/attribution.js:51-54 | beginning a queued withdrawal keeps the invariant |
| Consent.AnswerKeepsValid | data/static/attribution.js:55-80 | an answer to a grant or withdraw request, however late, keeps the invariant |
| Consent.ObserveAnswerKeepsValid | data/static/attribution.js:92-93 | an observe answer keeps the invariant, so forgetting outside the queue races neither a revoke nor a grant |
| Consent.PageKeepsValid | data/static/attribution.js:83-92 | `page` keeps the invariant |
| Consent.PageSends | data/static/attribution.js:83-93 | `page` sends what is active unless nothing is or its expiry is a date that has come, and then forgets it |
| Consent.ObserveForgets | data/static/attribution.js:92-93 | an observe answer of 404 empties memory and storage exactly when the very object sent is still active, and each request is answered once |
| Consent.CallKeepsValid | data/static/attribution.js:63-66 | calling `grant` or `withdraw` in any state keeps the invariant |
| Consent.OnlyTheNewestAsks | data/static/attribution.js:63-75 | a grant request goes out only for the newest call, with the queue empty; a superseded grant that begins or goes on sends nothing and changes nothing |
| Consent.StaleAnswerIsOwed | data/static/attribution.js:75-80 | the answer to a superseded grant is kept and owed at once, with whatever is active left alone |
| Consent.ReloadKeepsStorage | data/static/attribution.js:11-11 | a reload keeps what is stored and nothing else of the script's |
| Consent.GrantFromRest | data/static/attribution.js:63-75 | from rest, a grant first withdraws what is owed; else makes the record on hand active again when it is under that policy and its expiry is a date still to come; else, and only then, asks the server |
| Consent.WithdrawSendsWhatIsHeld | data/static/attribution.js:51-54 | a withdrawal sends exactly the token on hand, marks it owed, and with no token sends nothing and forgets the record |
| Consent.NeverStuck | data/static/attribution.js:12-16 | whenever work is left something internal can happen: a failed operation does not block the next |
| Consent.QueueDrains | data/static/attribution.js:12-16 | however requests are answered, the queue drains within a bound computed from the state |
| Consent.StaysMuted | data/static/attribution.js:63-80 | with nothing active and no current grant pending, only a new `grant` can change that |
| Consent.WithdrawSilences | data/static/attribution.js:79-110 | from `withdraw()`, or a reload, to the next `grant()`, in every interleaving, nothing is active, `page` sends nothing, a submission carries no token and no grant request goes out |
| Consent.PageAndSubmissionPart | data/static/attribution.js:83-97 | with something active, `page` sends and a submission carries no token exactly when the expiry cannot be read, or is still to come and there is no token |
| Consent.SubmissionCarries | data/static/attribution.js:95-99 | a submission carries a token exactly when the active record has one and its expiry is a date still to come, and then that token |
| Consent.FirstGrant | data/static/attribution.js:63-80 | with nothing stored a grant asks the server, and its answer becomes active |
| ConsentRuns.HeldChanges | data/static/attribution.js:51-93 | one step removes from `read()` exactly the tokens withdrawn, forgotten or superseded by it and adds exactly the one received |
| ConsentRuns.SupersededReason | data/static/attribution.js:71-80 | a record is superseded only by a grant under another policy, or one asked for when its expiry had come or could not be read, and never while it is owed |
| ConsentRuns.EveryTokenAccountedFor | data/static/attribution.js:51-93 | in every state of every run, with working storage or no reload, each token received is in exactly one place: held, withdrawn, forgotten by the server, or superseded at a grant answer asked under another policy or when its record was not live |
| ConsentRuns.EveryExitHasItsReason | data/static/attribution.js:51-93 | in every run, each token withdrawn, forgotten or superseded has the step that did it: its withdrawal answered by success or 404, its observe answered 404 while active, or a grant answer under another policy or asked when it was not live |
| ConsentRuns.ReachableIsGood | data/static/attribution.js:12-110 | the invariant, the marks and the call order hold in every state of every run |
| ConsentRuns.ActiveMeansQuiet | data/static/attribution.js:12-93 | while anything is active nothing is queued or in flight, and `read()` returns that record, unmarked |
| ConsentRuns.NoGrantWhileOwed | data/static/attribution.js:51-75 | no grant request is outstanding while a withdrawal is owed, across failed sends and reloads |
| ConsentRuns.MarkedNeverActive | data/static/attribution.js:53-80 | a token once marked for withdrawal is never active again, reloads included |
| ConsentRuns.SubmissionsCarryLiveTokens | data/static/attribution.js:75-97 | in every state of every run a token a submission carries came from a grant answer, or was stored before the run, with an expiry still to come; and while a record with such an expiry is active its token is carried |
| ConsentRuns.EveryRecordHasItsGrant | data/static/attribution.js:51-93 | in every state of every run what `read()` returns was granted under the policy asked for, or was stored before the run |
| ConsentRuns.GrantsAskForTheLastCall | data/static/attribution.js:63-75 | in every run a grant request is sent only when the last call was a grant, under that call's policy |
| ConsentRuns.StaleNeverActive | data/static/attribution.js:75-80 | in every run the token of an answer whose grant was superseded is never active |
| ConsentRuns.MoveKeepsMarked | data/static/attribution.js:51-80 | a marked token that is still held stays marked through every step |
| ConsentRuns.MoveKeepsLast | data/static/attribution.js:12-110 | operations begin in call order, and the newest call keeps its say through every step |
| ConsentRuns.LastCallDecides | data/static/attribution.js:12-110 | once the queue has drained every call has begun in order, after a withdraw nothing is held or it is owed, and after a grant whose sends succeeded its policy is active |
| ConsentRuns.UnreadableExpiryIsReached | data/static/attribution.js:75-97 | a run of three steps to a page that sends and submits no token |
| ConsentClient.Client.constructor | data/static/attribution.js:11-11 | loading the script leaves a fresh valid page |
| ConsentClient.Client.Remember | data/static/attribution.js:21-24 | memory and, when it works, storage take the value |
| ConsentClient.Client.Read | data/static/attribution.js:17-20 | memory first, then storage |
| ConsentClient.Client.Revoke | data/static/attribution.js:51-54 | marks and sends a record with a token, forgets one without |
| ConsentClient.Client.Grant | data/static/attribution.js:63-66 | updates the fields as the protocol's call of `grant` |
| ConsentClient.Client.Withdraw | data/static/attribution.js:106-110 | updates the fields as the protocol's call of `withdraw` |
| ConsentClient.Client.Page | data/static/attribution.js:83-92 | updates the fields as the protocol's `page`, and says whether a request went out |
| ConsentClient.Client.StartNext | data/static/attribution.js:12-15 | the head of the queue runs to its first await as the protocol says |
| ConsentClient.Client.BeginGrant | data/static/attribution.js:66-75 | a queued grant up to its first await |
| ConsentClient.Client.ResumeGrant | data/static/attribution.js:69-75 | a grant goes on after its revoke, or stops when superseded |
| ConsentClient.Client.WithdrawAnswered | data/static/attribution.js:54-60 | success and 404 forget the record, any other failure keeps it owed |
| ConsentClient.Client.GrantAnswered | data/static/attribution.js:75-80 | a current answer becomes active, a stale one is kept marked |
| ConsentClient.Client.ObserveAnswered | data/static/attribution.js:92-93 | a 404 forgets the record only while it is the very object that is active |
| ConsentClient.Client.CreateSubmission | data/static/attribution.js:95-99 | a token is attached exactly when the active record has one and its expiry is a date after now, and then one `read()` holds, unmarked |
| FormRules.ReadsEarlier | data/static/forms.js:121-140 | under backward-reading rules, whether a rule matches depends only on the flags before its field |
| FormRules.OnePassSettles | data/static/forms.js:141-173 | under backward-reading rules, one pass from any marks reaches the one settled form |
| FormRules.SweepStillIffSettled | data/static/forms.js:141-173 | for any rules, a pass changes nothing exactly when every field already agrees with the rules |
| FormRules.EveryEventSettles | data/static/forms.js:141-176 | after every event of any edit sequence the form is settled, a second pass changes nothing, and only the last answers count |
| FormRules.RuleOrderIrrelevant | data/static/forms.js:141-173 | neither the order of the rules nor repeating one changes a pass |
| FormRules.SelfReadingNeverSettles | data/static/forms.js:129-173 | the backward reading that the server guarantees is needed: under a rule for a field that reads that same field no marks are settled, and every pass flips them |
| FormMeaning.AnswerMeets | data/static/forms.js:121-128 | each operator by the text and the numbers: equal, found somewhere in the answer, one of the lines, above, below; an answer that is blank, ends in space or is no finite number is neither above nor below |
| FormMeaning.DisabledAnswersNothing | data/static/forms.js:129-134 | a field's answers are those given, and none while it is disabled |
| FormMeaning.ConditionMeans | data/static/forms.js:129-138 | is_empty is met when every answer is blank, not_equals when no answer is the value, and any other when some answer does, a missing one counting as blank; one on an earlier page was settled there |
| FormMeaning.RuleMeans | data/static/forms.js:129-140 | an any-rule matches when at least one of its conditions is met, so never without conditions, and an all-rule when all are, so always without |
| FormMeaning.OneMoreCondition | data/static/forms.js:139-139 | with one more condition an any-rule matches when it did before or would with that one alone, an all-rule when both |
| FormMeaning.PassMeans | data/static/forms.js:141-173 | after a pass a field is disabled exactly when a show-rule for it does not hold or a hide-rule does, and required exactly when enabled, no multiple choice, and required by itself or by a rule that holds, all on the marks the pass leaves |
| RuledForm.Page.constructor | data/static/forms.js:141-176 | wiring brings the drawn page up to date once |
| RuledForm.Page.Consult | data/static/forms.js:141-173 | the loop over the rules finds whether a field is active and required |
| RuledForm.Page.Visit | data/static/forms.js:141-173 | one field's hidden, disabled and required flags are overwritten, no other's |
| RuledForm.Page.Update | data/static/forms.js:141-173 | the in-place loop over the fields is the pass |
| RuledForm.Page.Edit | data/static/forms.js:174-176 | after an input or change event the form is settled when rules read backwards |
| Requests.StepKeepsValid | data/static/venture-hx.js:603-802 | the busy marks are the keys of the map, and the map holds exactly each element's newest open request, through abort, send, response, failure and a handler that throws |
| Requests.AcceptedIffNewest | data/static/venture-hx.js:706-801 | a response is accepted exactly when no newer request was sent for its element, and a superseded or late-failing one changes neither the map nor the marks |
| Requests.EveryRunEndsQuiet | data/static/venture-hx.js:616-801 | in every state of every run busy means in flight, an element's accepted responses are in issue order, and once all fetches settle nothing is in flight or busy |
| Requests.SendingAbortsOlder | data/static/venture-hx.js:603-709 | every open request but each element's newest has been aborted, until one is sent for an element whose request in flight was not; nothing takes an abort back |
| Requests.Runtime.constructor | data/static/venture-hx.js:47-47 | the runtime starts quiet |
| Requests.Runtime.Issue | data/static/venture-hx.js:603-709 | aborts the request before unless told to queue, then sends unless refused; without queueing every older open request stays aborted |
| Requests.Runtime.Settled | data/static/venture-hx.js:706-801 | a response or a failure of request k, whether still current or not |
| TableGroups.GroupsOfFlat | data/static/venture.js:5434-5460 | re-appended groups read back as themselves: dividers keep their own rows and totals stay at the foot |
| TableGroups.FlatIsPermutation | data/static/venture.js:5495-5505 | a body re-appended group by group is a permutation of itself |
| TableGroups.GroupsWellFormed | data/static/venture.js:5434-5460 | only the first group has no divider, and data rows and totals are told apart |
| TableGroups.KindMeans | data/static/venture.js:5393-5408 | a divider has no cells, or one that spans columns, or heads a row group; a total is any other row so classed or whose first of several cells spans; the rest are data |
| TableGroups.AppendNext | data/static/venture.js:5498-5503 | appending a row already in a body moves it behind those re-appended and leaves the rest in place |
| StableSort.SortIsStable | data/static/venture.js:5477-5493 | ties keep their prior order |
| StableSort.SortOrders | data/static/venture.js:5477-5493 | no row is ahead of one before it |
| StableSort.OnlyOneArrangement | data/static/venture.js:5477-5493 | an order and the order of its ties fix the arrangement |
| TableSort.RowsStrictWeak | data/static/venture.js:5462-5493 | comparing keys, missing ones last, is a strict weak order in either direction |
| TableSort.CompareMeans | data/static/venture.js:5477-5493 | the comparison is negative exactly when the key comes first, or the keys tie and the row was read first |
| TableSort.EngineSort | data/static/venture.js:5477-5493 | any arrangement strictly in that order is the stable one, whatever algorithm the engine uses |
| TableSort.SectionOfSorted | data/static/venture.js:5477-5495 | sorting all rows in one list and picking out a group is sorting the group alone |
| TableSort.SortedGroup | data/static/venture.js:5434-5505 | each group comes out a permutation, in order, its ties as they were; what the order is in terms of the texts is `TableReading.GroupReadsInOrder` |
| TableSort.MissingLast | data/static/venture.js:5466-5482 | rows without a key come last in either direction |
| TableSort.SortBodyKeepsGroups | data/static/venture.js:5434-5505 | a sorted body has the same groups in the same order, with the same dividers and totals, each group's data rows sorted |
| TableSort.SortBodyPermutes | data/static/venture.js:5495-5505 | sorting a body loses, doubles and adds no row |
| TableSort.LastDirectionDecides | data/static/venture.js:5473-5493 | sorting a group one way undoes the sort the other way before it |
| TableSort.LastSortDecides | data/static/venture.js:5434-5505 | of two sorts of a body by one column only the second shows |
| TableSort.CellAtColumn | data/static/venture.js:5374-5391 | a column finds the cell that starts there, spans counted, and nothing when it falls inside a wider cell or past the last |
| TableReading.ValueIsText | data/static/venture.js:5374-5391 | a column's text is that of the cell which starts there, by its start alone |
| TableReading.HeadingStart | data/static/venture.js:5374-5430 | a heading stands over the cells that start where it does |
| TableReading.AheadIsReading | data/static/venture.js:5462-5493 | one row is ahead of another exactly when they do not read the other way about: by their numbers, or by collation, up or down, and what reads before what does not |
| TableReading.GroupReadsInOrder | data/static/venture.js:5462-5505 | in a sorted group the numbers under the column ascend, or descend, or the texts do by collation, and no row whose text is missing or unreadable stands before one that reads |
| TableReading.NumericMeans | data/static/venture.js:5462-5466 | a column is numeric when said to be, or when nothing is said and at least four in five of its values, rounded up, are numbers |
| TableReading.ArrowAfterClick | data/static/venture.js:5410-5513 | a click turns the arrow round; a first one points down when the heading says so, or says nothing over numbers; every other heading loses its arrow |
| TableReading.ClickReadsInOrder | data/static/venture.js:5410-5513 | after a click the rows of every group of every body read in the order of the arrow then on the heading |
| TableView.FourInFive | data/static/venture.js:5464-5464 | the whole-number form of the four-in-five rule agrees with rounding up |
| TableDealing.ReadRow | data/static/venture.js:5434-5460 | one row read: dividers open groups, totals stay with theirs, data rows join the list marked with their group |
| TableDealing.Deal | data/static/venture.js:5495-5495 | each entry is pushed to its own group, in the list's order |
| TableDealing.DealtSorted | data/static/venture.js:5434-5495 | reading, sorting the one list and dealing it out gives each group sorted alone |
| TableDealing.AppendRows | data/static/venture.js:5502-5503 | re-appending a run of rows puts them, in order, after those re-appended before |
| TableDealing.AppendGroups | data/static/venture.js:5496-5505 | re-appending all groups leaves the body holding just them, in that order |
| TableView.ClicksAlternate | data/static/venture.js:5473-5513 | any number of clicks on a heading alternate its direction, and leave the rows as one click in the last direction would |
| TableView.ThreeClicksAreOne | data/static/venture.js:5473-5513 | three clicks leave the whole table as one did |
| TableView.InputFilters | data/static/venture.js:5562-5603 | after an input event each data row is hidden exactly when left out or not matching, each divider exactly when text is typed and nothing under it shows, the count is the number of data rows on view, and it is blank exactly when nothing is typed and no row is left out; a match by characters is `TableView.ShowsWhenItSays` |
| TableView.FilterDetermines | data/static/venture.js:5562-5603 | what is typed and picked fixes every row's visibility but that of totals, which stay as they were |
| TableView.ControlsFilter | data/static/venture.js:5562-5655 | typing and picking establish that from any state |
| TableView.PickWithoutBox | data/static/venture.js:5640-5655 | without a filter box, picking hides exactly the rows outside the group |
| TableView.SortKeepsFiltered | data/static/venture.js:5410-5505 | a sort leaves every visibility right for where the rows then stand, and the data rows the same |
| TableView.TypingAndPickingCommute | data/static/venture.js:5562-5655 | typing then picking and picking then typing leave the same state, count included |
| TableView.HiddenExactlyWhen | data/static/venture.js:5410-5655 | over any run of typing, picking and sorting, a data row is hidden exactly when the group last picked leaves it out or what was last typed, if anything, stands nowhere in its text |
| TableView.DividerHiddenExactlyWhen | data/static/venture.js:5410-5655 | and a divider is hidden exactly when something is typed and every data row under it is hidden |
| TableView.ShowsWhenItSays | data/static/venture.js:5585-5597 | a row shows exactly when it is not left out and what is typed, if anything, stands somewhere in its text |
| TableView.CountIsWhatSays | data/static/venture.js:5562-5603 | the count is the number of data rows not left out in whose text what is typed stands |
| SortableTable.Sheet.constructor | data/static/venture.js:5536-5560 | a wired table as drawn |
| SortableTable.Sheet.CellText | data/static/venture.js:5374-5391 | the cell that starts at a column, spans counted, none when a wider one covers it |
| SortableTable.Sheet.ColumnOf | data/static/venture.js:5428-5430 | a heading's column, spans counted |
| SortableTable.Sheet.ReadTable | data/static/venture.js:5434-5464 | every body is read into groups and the one list, with the numbers of values and of figures |
| SortableTable.Sheet.Reappend | data/static/venture.js:5496-5505 | every body ends as its groups, sorted alone |
| SortableTable.Sheet.PointArrow | data/static/venture.js:5507-5513 | only the clicked heading keeps a direction |
| SortableTable.Sheet.SortBy | data/static/venture.js:5410-5514 | a click sorts every group of every body in place in the order asked for, and marks the heading |
| SortableTable.Sheet.FilterRow | data/static/venture.js:5577-5597 | one row of the filter's pass: a divider closes the group before it, a data row shows or not |
| SortableTable.Sheet.FilterBody | data/static/venture.js:5567-5600 | one body under the filter, and the rows it shows added to the count |
| SortableTable.Sheet.Input | data/static/venture.js:5562-5603 | the input event over all bodies, and the count it writes |
| SortableTable.Sheet.Type | data/static/venture.js:5562-5603 | typing is that event on the new text |
| SortableTable.Sheet.ListData | data/static/venture.js:5517-5529 | the data rows, neither dividers nor totals |
| SortableTable.Sheet.Pick | data/static/venture.js:5640-5655 | picking marks and hides the rows outside the group, then filters again |
| Grid.OccupantsAre | data/static/venture.js:3722-3735 | the occupants of an area are exactly the other cards that overlap it |
| Grid.PlaceKeepsLayout | data/static/venture.js:3722-3742 | placing a card that fits keeps the layout valid exactly when every other card is clear of it |
| Grid.SwapKeepsLayout | data/static/venture.js:3985-3995 | two cards may trade places, whatever sizes they have by then |
| Grid.Judge | data/static/venture.js:3929-3942 | what a free or a swap verdict promises, one way; both ways in `Grid.VerdictMeans` |
| Grid.VerdictMeans | data/static/venture.js:3929-3942 | free exactly when the area fits and is clear of every other card; a swap exactly when it fits, a card is being moved, and one other card, of its size, is under it; refused otherwise |
| Grid.OverlapIsSharedCell | data/static/venture.js:3722-3735 | two boxes overlap exactly when some cell is under both |
| Grid.FitsIsInside | data/static/venture.js:3737-3742 | a box fits exactly when it has cells, all inside the columns and sixty rows |
| Grid.LiftedOntoSwaps | data/static/venture.js:3822-4006 | a card lifted onto one of its own size and let go trades places with it, and the request says so |
| Grid.CarriedArea | data/static/venture.js:3893-3907 | a carried card keeps its size and stays inside, under the pointer when it can be and at the edge when not |
| Grid.ResizedArea | data/static/venture.js:3908-3925 | a resized card keeps its corner and reaches the cell under the pointer within one cell, the grid's edge and eight rows |
| Grid.MovedMeans | data/static/venture.js:3874-3877 | a drag has moved once the pointer was more than two pixels off, and no pointer move sends or changes where cards rest |
| Grid.ClickOnly | data/static/venture.js:3952-4006 | a drag that never moved leaves everything as it was |
| Grid.StepKeepsSound | data/static/venture.js:3785-4006 | whatever the visitor does and whenever the server answers, every card at rest and every place a card may drop on or go back to is inside the grid |
| Grid.FinishPlaces | data/static/venture.js:3952-4006 | letting go places one card, trades two, or restores the layout the gesture began from |
| Grid.UpdateJudges | data/static/venture.js:3929-3949 | every pointer move leaves a verdict true of the layout as it is |
| Grid.VerdictSurvives | data/static/venture.js:3808-3950 | the verdict stays true until a refusal comes with a card in hand; then a free place stays so exactly when no card goes back onto it, and a swap exactly when its partner keeps its size |
| Grid.TrueVerdictIsHarmless | data/static/venture.js:3952-4006 | a drop on a true verdict finds its place clear |
| Grid.LateRefusal | data/static/venture.js:3808-3819 | a refusal in any state, with a card in hand or not, keeps the cards at rest apart exactly when no card that stays stands where one that goes back came from |
| Grid.StepKeepsGood | data/static/venture.js:3785-4006 | an event keeps the cards at rest inside the grid and apart exactly when it is harmless: a refusal with room for the cards that go back, a drop judged free on a place still clear, or any other event |
| Grid.LayoutStaysValid | data/static/venture.js:3785-4006 | over every run, the layout has been valid throughout exactly when every refusal found room and every drop judged free found its place still clear |
| Grid.RefusalsDecide | data/static/venture.js:3785-4006 | so while each refusal finds room and leaves the verdict on a card in hand true, the layout stays valid whatever the visitor does |
| Grid.WhereAnswersLeave | data/static/venture.js:3808-3819 | after answers alone, a card stands where the last refusal that put it back put it |
| Grid.RefusalRestores | data/static/venture.js:3785-3819 | a gesture refused before another begins leaves exactly the layout before it if and only if the last refusal in between of each other card puts that card where it stood then |
| Grid.FirstRefusalRestores | data/static/venture.js:3785-3819 | so it always does when no other answer in between is a refusal, and keeps a valid layout valid |
| Grid.LateRefusalOverlaps | data/static/venture.js:3808-3819 | two gestures and one late refusal that leave two cards on one place |
| Grid.StaleVerdictOverlaps | data/static/venture.js:3808-4006 | a refusal with a card in hand that spoils nothing at rest, after which the drop lands on the card put back |
| GridEditor.Editor.constructor | data/static/venture.js:3624-3636 | the editor starts on the drawn layout, with nothing in hand |
| GridEditor.Editor.PointerDown | data/static/venture.js:3822-3865 | in any reachable state picks a card up, unless one is in hand |
| GridEditor.Editor.Occupants | data/static/venture.js:3722-3735 | the loop finds the occupants in order |
| GridEditor.Editor.Judge | data/static/venture.js:3929-3942 | free, swap or refused |
| GridEditor.Editor.Update | data/static/venture.js:3867-3950 | in any reachable state a pointer move clamps the area, resizes in place and judges it afresh |
| GridEditor.Editor.Finish | data/static/venture.js:3952-4006 | in any reachable state letting go or cancelling empties the hand on the verdict there is; a valid layout stays valid exactly when a place judged free is still clear |
| GridEditor.Editor.Answered | data/static/venture.js:3794-3819 | at any time a refusal puts the cards of that gesture back; a valid layout stays valid exactly when there is room for them |
| PlotScale.Log10 | data/static/venture.js:5933-5933 | the power of ten at or below a number |
| PlotScale.RoundStepIsLeast | data/static/venture.js:5933-5936 | the step is the least of 1, 2, 2.5 or 5 times a power of ten at or above the raw one |
| PlotScale.StepBounds | data/static/venture.js:5923-5943 | the span is two to four steps, or for integral data at most five whole ones |
| PlotScale.NiceStepIsRound | data/static/venture.js:5923-5943 | the step is still round after being made whole |
| PlotScale.IntegralStep | data/static/venture.js:5938-5942 | for integral data the step is the largest whole number up to the round one, at least 1; else it is the round one |
| PlotScale.TicksAround | data/static/venture.js:5961-5967 | the ticks around a span are whole multiples of the step, less than a step outside it, and as many as promised |
| PlotScale.PlotScale | data/static/venture.js:5945-5969 | the axis covers the data, stays non-negative for non-negative data, is n steps long, with 3 to 5 intervals, or 1 to 6 of a whole step for integral data; the step is round and the one for the padded span, and the ends are less than a step outside that span |
| PlotScale.Pad | data/static/venture.js:5946-5959 | the room on each side is a twenty-fifth of the data's span, or for one value 1 or a tenth of it |
| PlotScale.From | data/static/venture.js:5946-5959 | the axis begins that room below the data, but not below zero for data that is not |
| CoinMarkup.CoinWord | data/static/venture.js:6917-6965 | a word becomes a coin cut before the first suffix it carries, or stays text; its text is kept |
| CoinMarkup.SuffixMeans | data/static/venture.js:6917-6965 | a word carries a suffix exactly when it is an amount that ends in a digit, then the suffix in any letter case; an empty one never |
| CoinMarkup.WordMeans | data/static/venture.js:6917-6965 | a coin is cut between amount and mark at the first unit its word carries, in at most the third colour; a word left as text carries none |
| CoinMarkup.CoinSpan | data/static/venture.js:6917-6965 | a matched stretch keeps its text, word for word |
| CoinMarkup.WordsInPlace | data/static/venture.js:6917-6965 | the words of a stretch stand in order, one space between each two, each as what it becomes |
| CoinMarkup.CoinReplace | data/static/venture.js:7016-7064 | whatever matches were found, overlapping or not, the pieces spell the original text, and just the matches used are marked up |
| CoinMarkup.UsedInOrder | data/static/venture.js:7036-7057 | the matches used never overlap |
| CoinMarkup.UsedAreFound | data/static/venture.js:7036-7057 | the matches used are among those found |
| CoinMarkup.LeftOutOverlaps | data/static/venture.js:7040-7057 | with the matches in order, every one left out starts inside one that is used, so no further one could be marked up |
| CoinAmount.CoinsAreExact | data/static/venture.js:7068-7082 | with a last unit of one, the counts are the only canonical coins worth the amount |
| CoinAmount.CountsBounds | data/static/venture.js:7068-7082 | for any units the coins are worth at most the amount and lose less than one of the last unit |
| CoinAmount.PartsPrintCounts | data/static/venture.js:7074-7082 | what is printed is those counts, zero ones left out |
| CoinAmount.CoinFormat | data/static/venture.js:7068-7089 | the loop prints the amount so, with its sign, and zero as zero of the last unit |
| CoinAmount.CommasByThree | data/static/venture.js:7068-7089 | a printed count has a comma before every third digit from its end and nowhere else |
| CoinAmount.NoLeadingZero | data/static/venture.js:7068-7089 | no printed count but zero begins with a zero |
| CoinAmount.CellReadsGold | data/static/venture.js:5264-5274 | every whole amount of copper printed as gold, silver and copper reads back, zero, negatives and comma grouping included |
| CoinAmount.GroupsMean | data/static/venture.js:5264-5274 | what the pattern finds in a cell is how the cell is spelled, and it is spelled in one way only |
| CoinAmount.CellMeans | data/static/venture.js:5264-5274 | a cell is coins exactly when it is spelled as gold, silver and copper with one there, and is then worth their sum with its sign |
| CoinAmount.RunIsWorth | data/static/venture.js:5264-5274 | a run of digits is worth ten times what comes before its last digit, and the digit |
| SplitTop.SplitTop | data/static/venture-hx.js:89-138 | the loop cuts exactly at the separators outside quotes and brackets |
| SplitTop.CutsMeans | data/static/venture-hx.js:89-138 | a separator cuts exactly where it stands outside quotes at depth zero |
| SplitTop.LexUnquoted | data/static/venture-hx.js:89-138 | outside quotes a stretch without quotes moves the depth by its brackets, counted |
| SplitTop.LexInQuotes | data/static/venture-hx.js:89-138 | an open quote lasts over any text in which it stands only after a backslash |
| SplitTop.LexClosingQuote | data/static/venture-hx.js:89-138 | the same quote closes it, unless a backslash comes right before, and the depth is what it was |
| SplitTop.TrimmedMiddle | data/static/venture-hx.js:89-138 | trimming takes white space off both ends and nothing else |
| SplitTop.PiecesRejoin | data/static/venture-hx.js:89-138 | before trimming, the pieces of any text rejoin to it |
| SplitTop.SplitUndoesJoin | data/static/venture-hx.js:89-138 | splitting a join of balanced, trimmed parts returns them, except that a blank last one is lost: a round trip exactly when the last part is not blank |
| Csv.PlotCsv | data/static/venture.js:6601-6615 | the file is the chart's header and rows, quoted and joined |
| Csv.RowsAre | data/static/venture.js:6601-6615 | the header row, then for each point its label and every series' text for it, in order |
| Csv.QuotedWhenNeeded | data/static/venture.js:6601-6615 | a cell is quoted exactly when it holds a quote, a comma or a line feed |
| Csv.PlotCsvReadsBack | data/static/venture.js:6601-6615 | that file reads back to the header and cells exactly when every row is free of bare carriage returns |
| Csv.ReadsBack | data/static/venture.js:6601-6615 | any table written so reads back cell for cell exactly then, and is refused otherwise |
| Text.Split | data/static/venture.js:6917-6965 | splitting on a character loses nothing: the parts rejoin to the text and hold no separator |
| Text.SplitIsLines | data/static/forms.js:124-124 | splitting on line breaks gives exactly the text's lines |
| Text.FoundWhereItOccurs | data/static/venture.js:5593-5593 | a search finds a text exactly when it stands at some place |

## Left out

- The page itself: drawing, events, `fetch`, timers and `localStorage` are moves of the environment or plain maps; other tabs writing the same storage key are not modelled, and storage works or fails for a whole run.
- Regular expressions other than the one for gold, silver and copper, which is written out by hand: what the coin patterns find, what `cellDate` and the money pattern read, `localeCompare` and `Number()` are parameters, `localeCompare` being any total preorder.
- `Date.now` inside a column of ages: how values read as numbers is fixed over a run of clicks.
- Floating point: plot scales are over exact reals, coin amounts over unbounded integers, so neither rounding nor the 2^53 limit appears, nor a plot span or a table figure that is infinite.
- `sortRefusal` and the wiring of filter boxes: the model starts from a table that may sort, with or without a box; `data-group-out` is followed, the address bar and headings' links are not.
- Nested `data-vf-field` groups: fields are flat; the star beside a required label is not modelled.
- Shared `hx-indicator` elements, delayed swaps and what a swap does to the page: busy marks and acceptance are stated per element.
- `plotZoom` and the rest of the chart drawing; the geometry that turns a pointer position into grid slots.
- The C engine, its server, the plugins and the scripts around them.
- CoinAmount.CellReadsGold: covers the gold, silver and copper reading only; a cell that does not match it goes on to readings that are parameters here.
