# Settlement calculator — a verified Dafny model

The application splits a shared expense among friends. Each friend records
what they paid. `calculateSettlements` then works out:

- the total;
- the even per-person share;
- the transfers that settle the group: who pays whom, and how much.

The friend list behind it is edited by four handlers: add a friend, remove a
friend, rename a friend, and change an amount (the text value handed to
`handleAmountChange`).

The project models both parts in Dafny and proves what they guarantee.

- `sequences.dfy` (`Sequences`): the order-keeping filter, and the stable sort
  by a real-valued key. They stand for JavaScript `filter` and `sort`.
- `amount_input.dfy` (`AmountInput`): the amount field.
  - The cleanup keeps only `0-9 . , -` and cuts the result to 8 characters.
  - The first comma is read as the decimal point.
  - JavaScript `Number` is applied to the cleaned text; NaN falls back to 0.
  - Over the cleaned alphabet `Number` is modelled exactly. `None` stands
    for NaN.
- `friend_list.dfy` (`FriendList`): the friend record and the four list updates.
  - Each update is a pure function from the old list to the new one.
  - Names are trimmed with ECMAScript's whitespace set and cut to 12
    characters.
- `calculator.dfy` (`Calculator`): `calculateSettlements` as a function.
  - Amounts are exact reals.
  - The three tolerances stay distinct: `FilterTolerance` 0.0001,
    `EmitThreshold` 0.01 and `AdvanceThreshold` 0.01.
  - The two-pointer loop is modelled by `Trace`. It lists the loop's rounds:
    debtor index, creditor index and amount moved.
  - `Transfers` keeps the rounds above `EmitThreshold` and names their
    endpoints.
- `settle_loop.dfy` (`SettleLoop`): the same computation written as the source
  writes it, as a summing loop and a `while` loop that updates the residual
  balances in place. It is proved equal to `Calculator.Calculate`.
- `settlement_properties.dfy` (`SettlementProperties`): what the loop
  guarantees.
  - No residual balance crosses zero.
  - When the loop stops, all debtors or all creditors are settled.
  - Equal payments need no transfer. Nor do payments within 0.01 of the
    share.
  - Every transfer runs from someone under the share to someone over it.
- `one_payer.dfy` (`OnePayer`): the complete answer for a group of at least
  two in which one friend paid for everybody and the share is above 0.01.
  With a share of 0.01 or less every round is too small to report, and
  there are no transfers (`NearlyEqualNoTransfers`).
- `worked_example.dfy` (`WorkedExample`): A paid 30, B 10 and C nothing. C
  pays A 40/3, then B pays A 10/3. It also shows that typing `12,5` stores
  12.5.

## Model

| member | source | states |
|---|---|---|
| Sequences.Filter | src/App.jsx:18-23 | `filter` keeps each element exactly as often as it occurs when the predicate holds and drops it otherwise; everything kept satisfies the predicate |
| Sequences.FilterAppend | src/App.jsx:226-228 | filtering distributes over concatenation, so the filter keeps the relative order of what it keeps |
| Sequences.FilterDisjointLength | src/App.jsx:18-23 | two filters with disjoint predicates keep at most as many elements as the input has |
| Sequences.SortBy | src/App.jsx:19-23 | the sort returns a permutation of its input in non-decreasing key order |
| Sequences.SortSortedIsIdentity | src/App.jsx:19-23 | an input already in key order comes back unchanged |
| Sequences.SortByStable | src/App.jsx:19-23 | the sort is stable, as ECMAScript's `sort` is: for every key value, the elements with that key come out in the order they went in |
| AmountInput.Clean | src/App.jsx:200 | the cleanup keeps at most 8 characters, all from `0-9 . , -`, as a prefix of the input's allowed characters in input order |
| AmountInput.CleanIdempotent | src/App.jsx:200 | cleaning a cleaned string changes nothing |
| AmountInput.ReplaceFirstComma | src/App.jsx:201 | `replace(',', '.')` turns exactly the first comma into a point and keeps every other character and the length |
| AmountInput.ReplaceFirstCommaCount | src/App.jsx:201 | the replacement removes one comma when there is one, so a second comma survives |
| AmountInput.ParseUnsigned | src/App.jsx:201 | definition: `Number` of unsigned cleaned text: digits, optionally a point and more digits, at least one digit; anything else is NaN; the contract states that the value is non-negative and below 10^len |
| AmountInput.ParseNumber | src/App.jsx:201 | `Number` of a cleaned string is in range: below 10^len, non-negative without a sign, non-positive with a `-` |
| AmountInput.AmountFromInput | src/App.jsx:199-205 | the stored amount of any typed text lies strictly between -10^7 and 10^8 |
| AmountInput.ParseShowNat | src/App.jsx:201 | round trip: `Number` of the decimal digits of a natural number gives that number back |
| AmountInput.AmountFromShowNat | src/App.jsx:199-205 | round trip through the whole pipeline: typing the digits of a natural below 10^8 stores exactly that number |
| AmountInput.ParseDecimal | src/App.jsx:201 | for digit strings w and f, not both empty, `Number("w.f")` is the decimal value w + f / 10^len(f) |
| AmountInput.CommaIsDecimalPoint | src/App.jsx:199-204 | typing `w,f` (at most 8 characters) stores the decimal w.f: the comma is the decimal separator |
| AmountInput.CommaReplacedByDot | src/App.jsx:201 | when the text before the first comma has no comma, that comma becomes a point and everything after it, later commas included, is untouched |
| AmountInput.ParseDotNonDigits | src/App.jsx:201 | `Number` of digits, a point, then anything that is not all digits is NaN |
| AmountInput.TwoCommasStoreZero | src/App.jsx:199-205 | digit groups `w,m,l` of at most 8 characters in all, such as `1,234,5`, are stored as 0, because only the first comma becomes a point; a second comma beyond the eighth character is cut off before the replacement and never reaches `Number` |
| FriendList.IsWhitespace | src/App.jsx:210 | definition: the characters `trim` removes, ECMAScript's WhiteSpace and LineTerminator code points |
| FriendList.Trim | src/App.jsx:210 | `trim` returns the middle of the input between two whitespace-only runs; it is empty exactly when the input is blank, and otherwise starts and ends with a non-whitespace character |
| FriendList.Cut | src/App.jsx:210 | `slice(0, n)` returns a prefix of at most n characters, the whole input when it fits and exactly n characters otherwise |
| FriendList.MaxId | src/App.jsx:218 | the maximum id bounds every id and is one of them |
| FriendList.NextId | src/App.jsx:218 | the new id is larger than every existing id; it is 1 for an empty list and one more than an existing id otherwise |
| FriendList.AddFriend | src/App.jsx:209-224 | a blank name leaves the list unchanged; otherwise the old list is kept as a prefix and one friend is appended, with the trimmed input cut to 12 characters as its name (non-empty, starting with a non-whitespace character), the id `NextId` (1 for an empty list, else the largest id plus one, so above all others), and the converted amount |
| FriendList.AddKeepsIdsUnique | src/App.jsx:209-224 | adding keeps ids unique |
| FriendList.RemoveFriend | src/App.jsx:226-228 | removal drops every friend with the id and keeps every other friend exactly as often as before |
| FriendList.RemoveKeepsOrder | src/App.jsx:226-228 | removal keeps the order of the rest: it distributes over concatenation |
| FriendList.RemoveAbsentId | src/App.jsx:226-228 | removing an id nobody has changes nothing |
| FriendList.RemoveKeepsIdsUnique | src/App.jsx:226-228 | removal keeps ids unique |
| FriendList.RenameFriend | src/App.jsx:483-489 | renaming changes only the friends with the id; their name becomes the typed text cut to 12 characters (the whole text when it fits, exactly 12 characters otherwise), and their id and amount stay |
| FriendList.RenameOverwrites | src/App.jsx:483-489 | a second rename of the same id replaces the first |
| FriendList.ChangeAmount | src/App.jsx:199-207 | an amount edit changes only the friends with the id; they keep id and name, and their amount becomes the amount converted from the value handed to `handleAmountChange`, a number strictly between -10^7 and 10^8 |
| FriendList.EditsKeepIds | src/App.jsx:199-207 | name and amount edits never change an id, so unique ids stay unique |
| Calculator.Paid | src/App.jsx:15 | definition: a friend's payment is the numeric amount, and a missing or non-numeric amount counts as 0 |
| Calculator.Total | src/App.jsx:10 | definition: the left fold of the payments from 0; `SettleLoop.SumPaid` is the loop that computes it |
| Calculator.Share | src/App.jsx:11 | definition: the total divided by the number of friends; `Calculator.ShareTimesCount` multiplies it back |
| Calculator.Balances | src/App.jsx:13-16 | one balance per friend, in list order; what they sum to is `Calculator.SumOfBalances` |
| Calculator.SumOfBalances | src/App.jsx:10-16 | the balances add up to the total minus n times the share |
| Calculator.BalancesSumToZero | src/App.jsx:10-16 | with `perPerson = total / n`, the balances add up to exactly zero |
| Calculator.ShareTimesCount | src/App.jsx:11 | n shares make up the total |
| Calculator.Creditors | src/App.jsx:18-20 | the creditors are exactly the balances above 0.0001, as a permutation, largest first |
| Calculator.Debtors | src/App.jsx:21-23 | the debtors are exactly the balances below -0.0001, as a permutation, most negative first |
| Calculator.CreditorsDebtorsDisjoint | src/App.jsx:18-23 | nobody is both creditor and debtor, and together there are at most n of them |
| Calculator.Trace | src/App.jsx:29-47 | the loop's rounds use in-range pointers that never move back, with debtor and creditor index non-decreasing and their sum strictly increasing, so the loop ends after at most debtors + creditors - 1 rounds |
| Calculator.Next | src/App.jsx:33-46 | one round zeroes one of the two residuals exactly, so at least one pointer advances by one; a pointer advances exactly when its residual is within 0.01 of zero; neither residual crosses zero; their sum is preserved; every other entry, and every name, is left alone |
| Calculator.Transfers | src/App.jsx:33-40 | a transfer is reported only for a round moving more than 0.01, so there are at most as many transfers as rounds; the naming and threshold facts are `Calculator.TransfersNamed` |
| Calculator.TransfersNamed | src/App.jsx:33-40 | every reported transfer is above 0.01 and names a debtor as `from` and a creditor as `to` |
| Calculator.Rounds | src/App.jsx:25-47 | a group of n friends needs at most n - 1 rounds |
| Calculator.Calculate | src/App.jsx:7-8 | an empty list gives total 0, share 0 and no transfers; a group of n gets at most n - 1 transfers |
| SettleLoop.SumPaid | src/App.jsx:10 | the summing loop computes the total, with non-numbers counted as 0 |
| SettleLoop.Emitted | src/App.jsx:33-40 | one round reports at most one transfer, exactly when `min(creditor, -debtor)` exceeds 0.01, from the debtor's name to the creditor's name, of that amount |
| SettleLoop.LoopStep | src/App.jsx:29-47 | the transfers still to come are this round's transfer followed by those of the next state |
| SettleLoop.RunRound | src/App.jsx:30-46 | the loop body pushes at most one transfer, exactly when the amount is above 0.01, from `debtors[i]` to `creditors[j]`; it zeroes one of the two residuals and keeps their sum; it advances at least one pointer, each by at most one |
| SettleLoop.Match | src/App.jsx:25-47 | the `while` loop returns exactly the transfers the functional model reports |
| SettleLoop.CalculateSettlements | src/App.jsx:7-50 | the imperative `calculateSettlements` computes exactly `Calculator.Calculate` |
| SettlementProperties.TraceNeverOverpays | src/App.jsx:29-47 | every round moves a positive amount, no debtor pays more than it owes, and no creditor receives more than it is owed |
| SettlementProperties.TraceSettles | src/App.jsx:29-47 | when the loop stops, every debtor has paid within 0.01 of its debt, or every creditor has received within 0.01 of its credit |
| SettlementProperties.GroupRoundsSettle | src/App.jsx:18-47 | for a whole group: rounds are positive, nobody overpays or is overpaid, and all debtors or all creditors end settled |
| SettlementProperties.EqualPaymentsNoTransfers | src/App.jsx:10-29 | when everybody paid the same, that amount is the share and no transfer is reported |
| SettlementProperties.TraceSmallDebts | src/App.jsx:33 | when no remaining debtor owes more than e, no round moves more than e |
| SettlementProperties.SmallRoundsUnreported | src/App.jsx:33-40 | rounds that all move at most 0.01 report no transfer |
| SettlementProperties.NearlyEqualNoTransfers | src/App.jsx:10-47 | when nobody paid less than the share by more than 0.01, no transfer is reported |
| SettlementProperties.DebtorIsFriend | src/App.jsx:13-23 | every debtor is a friend who paid less than the share by more than 0.0001, with that friend's name and payment minus the share as its balance |
| SettlementProperties.CreditorIsFriend | src/App.jsx:13-20 | every creditor is a friend who paid more than the share by more than 0.0001, with that friend's name and payment minus the share as its balance |
| SettlementProperties.TransferEndpoints | src/App.jsx:33-40 | every transfer is above 0.01, from a friend under the share and to a friend over it |
| OnePayer.TraceSinglePayee | src/App.jsx:29-47 | when every remaining debtor owes the same share of at least 0.01 and the one creditor is owed their total, the loop runs one round per debtor, each moving that share |
| OnePayer.EqualSharesSum | src/App.jsx:33-40 | for any n >= 1, n - 1 transfers of `total / n` add up to `total - total / n` |
| OnePayer.OnePayerLoop | src/App.jsx:18-47 | when one friend paid for everybody, n >= 2 and the share T / n exceeds 0.01, the transfers are one share from each other friend to the payer |
| OnePayer.OnePayerTransfers | src/App.jsx:18-47 | when one friend paid for everybody, n >= 2 and the share T / n exceeds 0.01: the same transfers, named after the friends in list order |
| OnePayer.OnePayerSettlement | src/App.jsx:7-50 | one payer of T among n >= 2, with the share T / n above 0.01: the share is T / n and there are n - 1 transfers, the k-th from the k-th other friend to the payer, each of T / n |
| WorkedExample.ExampleBalances | src/App.jsx:10-16 | for A 30, B 10, C 0: total 40, share 40/3, balances 50/3, -10/3, -40/3 |
| WorkedExample.ExampleCreditors | src/App.jsx:18-20 | in the example only A is a creditor |
| WorkedExample.ExampleDebtors | src/App.jsx:21-23 | in the example the debtors are C then B, most negative first |
| WorkedExample.ExampleRounds | src/App.jsx:29-47 | in the example the loop runs two rounds: 40/3 from C, then 10/3 from B, both to A |
| WorkedExample.ExampleSettlement | src/App.jsx:7-50 | the example's result is total 40, share 40/3, and the transfers C to A 40/3, then B to A 10/3 |
| WorkedExample.ExampleCommaAmount | src/App.jsx:199-205 | typing `12,5` stores 12.5 |

## Left out

- The screen: `HomeScreen`, the JSX layout and styling, and the React state
  and ref plumbing. These are presentation with no logic. Each handler is
  modelled as the pure update it passes to `setFriends`.
- `downloadAsImage`: DOM construction, the `html2canvas` library, canvas
  encoding, `alert` and `window` calls. All of it is I/O and foreign code.
- IEEE-754 doubles and `toFixed(2)` display rounding. Amounts are exact reals,
  so the model has no rounding residue. The "sum of balances is zero"
  property is therefore exact, not approximate.
- JavaScript strings are UTF-16 code units, but Dafny's `char` is a Unicode
  scalar value. `slice` and `trim` are modelled per character. Names with
  characters outside the Basic Multilingual Plane would be cut differently.
- `String(value)` on non-string input: the model starts from the string.
- `Number` outside the cleaned alphabet `0-9 . , -` is not modelled, because
  no other text reaches it. Inside the alphabet, exponents, hex and
  `Infinity` cannot occur.
- Calculator.Calculate: its own contract covers only the empty case and the
  transfer-count bound. What the transfers are is stated by the lemmas about
  it (`SettleLoop.CalculateSettlements`,
  `SettlementProperties.TransferEndpoints`, `GroupRoundsSettle`,
  `OnePayer.OnePayerSettlement`). This keeps the function's own contract
  cheap to use.
- Calculator.Transfers: its contract is only the length bound. The
  threshold and naming properties are in `Calculator.TransfersNamed`.
- OnePayer.OnePayerSettlement: the sum of the transfers is not restated for
  the whole group. It follows from the stated transfers and
  `OnePayer.EqualSharesSum`.
- The model does not claim the transfers are a minimal set. The greedy
  two-pointer match does not guarantee minimality, and the code does not
  try to; the model follows the code.
