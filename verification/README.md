# TenzoPay money core: model and proofs

A Dafny model of the parts of TenzoPay that move or count money, with proofs of
what they promise over whole runs: the double-entry ledger, card authorizations,
on-chain deposits, plan billing, fee arithmetic, the transaction feed, and the
two decimal parser/printer pairs. `dafny verify dfyconfig.toml` checks all of it.

## How it is laid out

| files | what they hold |
|---|---|
| `Postings` | accounts, signed entries, the append-only log, balances as folds |
| `Commands` | the eight money movements as transactions: plan from reads, commit, what it means |
| `LedgerRuns` | any sequence of movements: redelivery, fees, overdraft, hold and settle |
| `Interleaving` | any number of clients at once: snapshot reads, aborts, retries, lost races |
| `LedgerService` | the ledger class over its tables, each method proved equal to its command |
| `Retry`, `RetriedCommands` | the bounded, jittered retry loop, and a ledger command run inside it |
| `Fees` | basis points, clamps, deposit and card fees |
| `Selection` | the rows a job's query returns: those that meet a condition, in order, up to its limit |
| `Cards`, `CardRuns` | the authorization decision, the webhook, the stale sweep, and runs of them |
| `HeldMoney`, `Decisions`, `DailyLimit`, `DeskWitnesses`, `WebhookEffects` | what those runs keep, and exactly when |
| `CardService` | the card desk class, each method proved equal to `Cards` |
| `Inbox` | the stored webhook events and their retries |
| `Deposits`, `DepositRuns`, `DepositOnce`, `DepositWalks`, `DepositPasses`, `DepositMeanwhile`, `DepositCrashes`, `DepositInterleaving`, `DepositSteps`, `DepositService` | the deposit pipeline: rules, runs, once-only, the confirmation walk, passes as runs, steps around a row, half-done steps, jobs interleaved call by call, one step in full, class |
| `Billing`, `BillingService` | the daily plan pass, dunning and downgrade: runs, class |
| `Feed`, `FeedOrder`, `FeedPaging`, `FeedFilters`, `Spending` | the merged feed, its order, its cursor and a whole scroll, its filters; the spending chart |
| `Decimals`, `Money`, `Amounts`, `SettingsAmounts` | digit strings, `parseAmount`/`formatAmount`, what they read and write, the settings editor's pair |

Each service has the same shape. A pure module says what one operation does to
the tables, with clock, rates, chain answers, database aborts and crashes as
inputs. A class does it step by step on mutable fields, as the service does, and
every method is proved to leave exactly the tables and return exactly the result
the pure function gives. The theorems are then about runs: lists of such
operations of any length, mixed with anything else the ledger does.

The transaction model is this. A command reads a snapshot and decides; at commit,
a SERIALIZABLE command goes through only if the key lookup and the balance it
read still stand, otherwise it aborts and is retried, eight attempts in all. The
other commands commit on their plan, protected by the unique key alone. A unique
violation rolls the whole transaction back.

## Main results

- **Interleaving is serial.** Every interleaving, aborts and retries included,
  leaves the database its committed commands leave one after another
  (`Interleaving.EveryInterleavingIsSerial`). Everything proved of runs follows
  for concurrent clients; in particular racing cards cannot overdraw one pool.
- **At-least-once refines exactly-once** (`LedgerRuns.AtLeastOnceIsExactlyOnce`).
- **Available** is never negative throughout a run, or an interleaving, if and only
  if no settlement takes more beyond its hold than is available and no reversal
  takes back more than is available when its turn comes
  (`LedgerRuns.CoveredIffNeverOverdraws`, `Interleaving.CoveredIffNeverOverdraws`);
  it never falls below minus what those two took (`LedgerRuns.RunsStaySolvent`).
- **Held money** equals the open reservations throughout a run if and only if
  every step of it is clean (`HeldMoney.HeldThroughoutIffClean`), and the
  operating assumptions of the design make every step clean.
- **Deposit money** agrees with deposit status throughout a run if and only if no
  step dies between posting and row update, a condition on what goes into the
  step (`DepositRuns.MatchesThroughoutIffNoneDies`); a confirmation walk credits
  exactly the rows it reads at depth before one that stops it
  (`DepositWalks.PendingWalkCredits`).
- **A deposit is credited once**, and only after it was read deep enough, however
  the jobs interleave call by call and wherever they die
  (`DepositInterleaving.OnceOnly`, `DepositInterleaving.CreditOnlyAtDepth`).
- **The daily limit** of a card is kept throughout a day if and only if every card
  event fits in the room left (`DailyLimit.LimitThroughoutIffFits`).
- **Decisions** and holds say the same throughout a run if and only if no hold goes
  through with its decision unrecorded, and decisions replay stably
  (`Decisions.FaithfulThroughoutIff`, `Decisions.ReplayIsStable`).
- **A scroll of the feed** ends, delivers nothing twice or out of order whatever
  arrives meanwhile, and delivers every row if and only if no page ends between
  two rows of one moment (`FeedPaging.ScrollDeliversIff`).
- **What an answer, a webhook, a deposit step and a fee come to** is stated in the
  terms of the settings and payloads themselves: status texts, posting types,
  basis points as quotients, cents times ten thousand, ten minutes
  (`Decisions.FirstAnswer`, `WebhookEffects.WebhookReleases`,
  `DepositSteps.AdvanceMeaning`, `Fees.DepositFeeIs`).
- **Parsing undoes formatting**, or truncates toward zero by less than one unit
  of the last shown digit (`Money.ParseUndoesFormat`, `Money.TruncationLoss`).

## Where the code is not what it says, or not what one would expect

- I5 (`ledger.service.ts:20`) says available is never negative, and
  `docs/ARCHITECTURE.md:245` has no user balance negative. Over-captures and
  deposit reversals debit it unchecked, and two short runs take it below zero
  (`LedgerRuns.OverCaptureOverdraws`, `LedgerRuns.ReversalOverdraws`). Exactly when
  it holds is proved.
- A deposit credit or settlement re-entered on its posted key does not insert a
  second fee row where there is one: `Fee.ledgerTransactionId` is unique
  (`schema.prisma:633`), so the insert rolls back and the original id is
  returned. A row with no money behind it appears exactly when the original
  posting carried no fee and the re-entry does (`LedgerRuns.FeeTableStep`,
  `LedgerRuns.StrayOnlyWhenTheFeeAppeared`, `LedgerRuns.StrayFeeExists`).
- `creditDeposit` rejects a fee equal to the deposit, which `depositFee` can
  return. Such a deposit is not credited while those rates are in force, every
  confirmation walk that reads it at depth ends there at the latest, and no walk
  credits a deposit after it meanwhile (`DepositWalks.CreditedIff`, `DepositWalks.StarvedBehind`,
  `DepositWalks.SmallDepositSticks`).
- A replayed debit adjustment can be refused although it was posted, because the
  balance is checked before the key (`LedgerRuns.ReplayReturnsOriginal`,
  `LedgerRuns.RefusedReplay`).
- A settlement for a token with no hold takes held money that belongs to other
  authorizations (`HeldMoney.SettlementWithoutHold`).
- A card event's status is written before the ledger is called. If that call
  fails or the process dies, no redelivery of that status repairs it
  (`WebhookEffects.HalfDoneIsNeverFinished`).
- The stale sweep hands a provider record to code that reads other field names,
  so for a transaction the provider knows it changes nothing and still counts it
  as resolved (`Cards.BlankEventDoesNothing`).
- A crash after the deposit credit, followed by a vanished transaction, leaves an
  ORPHANED row with the money standing for good (`DepositCrashes.VanishAfterHalf`).
  Followed by a retry it completes the row - but if the credit charged no fee and
  the rates by then do, a fee row is linked that no money stands behind, and a
  later reversal takes that fee out of revenue
  (`DepositCrashes.ReversalAfterRetry`).
- A crash after a reversal, followed by the transaction coming back, leaves a
  CONFIRMED row with nothing left of its money (`DepositCrashes.ReappearsAfterHalf`).
- The answer for an unknown card is SUSPECTED_FRAUD first and INSUFFICIENT_FUNDS
  on replay; and an approved token is answered with a decline when the lookup of
  its decision fails.
- Capping each capture at its authorization does not protect the daily limit; a
  second, larger capture of the same token goes over it
  (`DeskWitnesses.SecondCaptureExceedsLimit`).
- `parseAmount` refuses `.` and `-` but reads `-.` as zero, the one text without a
  digit that it accepts (`Money.DigitlessIff`).
- Feed rows created at the moment a page ends at, but not on it, are lost
  (`FeedPaging.NothingLostIff`), and the row at `to` exactly is excluded once a
  cursor beyond it is passed (`FeedPaging.CursorWindow`).
- A card limit of zero is no limit.

## Model

| member | source | states |
|---|---|---|
| Postings.BalanceAnyOrder | apps/api/src/ledger/ledger.service.ts:307-321 | Whatever order the entries are handed back in, their signed fold is the balance the log gives. |
| Postings.GroupedIsFolded | apps/api/src/ledger/ledger.service.ts:308-321 | Summing per direction and subtracting gives the same balance as folding entry by entry; a direction that does not occur sums to zero. |
| Postings.BalancesCancel | apps/api/src/ledger/ledger.service.ts:15-20 | If every posting balances and touches known accounts only, the balances of all accounts sum to zero. |
| Postings.FindPrefix | apps/api/src/ledger/ledger.service.ts:112-121 | However much is appended, a posted key keeps its id. |
| Commands.EntriesMeaning | apps/api/src/ledger/ledger.service.ts:281-301 | Past the argument checks, the list a command builds passes assertBalanced exactly when its arguments are well formed, and then moves each account by its table entry. |
| Commands.SettlementNets | apps/api/src/ledger/ledger.service.ts:776-812 | Each branch of the settlement list (under, exact and over-capture, with or without fee) nets to zero for non-negative captures and fees and moves the five accounts as promised; the exact imbalance otherwise. |
| Commands.ExecMeaning | apps/api/src/ledger/ledger.service.ts:343-949 | The contract of every money movement: it succeeds exactly when a stated pre-check holds, a failure changes nothing, a posted key returns its id and leaves the log alone, and otherwise one posting is appended, its fee row with it, and every account moves by its table entry and no other way. |
| Commands.FreshRecord | apps/api/src/ledger/ledger.service.ts:354-949 | A fresh movement leaves one posting of its own type under its own key - hold, reversal of a hold, settlement, refund, fee, adjustment, deposit confirmed or reversed - and exactly the fee row it owes, of its own kind and linked to that posting: for a positive deposit or card fee and for every charge, none otherwise. |
| Commands.Moves | apps/api/src/ledger/ledger.service.ts:343-949 | The same contract for one account, with what must have been true first. |
| LedgerRuns.RunsKeepTheBook | apps/api/src/ledger/ledger.service.ts:14-20 | I1 to I4 over any run: keys stay unique, every posting balanced with positive amounts, fee rows linked, and the old log is a prefix of the new one. |
| LedgerRuns.ReachableBalancesCancel | apps/api/src/ledger/ledger.service.ts:956-986 | In every ledger reachable from the empty one each posting balances and all balances sum to zero. |
| LedgerRuns.ReplayReturnsOriginal | apps/api/src/ledger/ledger.service.ts:632-639 | An accepted command repeated after any other commands posts nothing, and returns its original id if and only if it is not a debit adjustment the balance no longer covers. |
| LedgerRuns.RefusedReplay | apps/api/src/ledger/ledger.service.ts:916-923 | A replay that is refused: a deposit, an adjustment that takes it all back, and the same adjustment again. |
| LedgerRuns.AtLeastOnceIsExactlyOnce | apps/api/src/ledger/ledger.service.ts:117-138 | At-least-once delivery leaves the same ledger entries as delivering each key once. |
| LedgerRuns.RedeliveryIsHarmless | apps/api/src/ledger/ledger.service.ts:117-138 | A redelivery inserted anywhere after its key was posted changes no entry of the run. |
| LedgerRuns.FeeTableStep | apps/api/src/ledger/ledger.service.ts:426-440 | Revenue plus fees taken back equals the sum of fee rows after a command if and only if the command is not a stray fee: a deposit or settlement re-entered with a fee on a posting that has no fee row. |
| LedgerRuns.FeesAgreeIffNeverStray | apps/api/src/ledger/ledger.service.ts:574-590 | Fee revenue equals the sum of fee rows minus what reversals took back at every state of a run if and only if no command of it is a stray fee; replays of chargeFee never are. |
| LedgerRuns.StrayFeeExists | apps/api/src/ledger/ledger.service.ts:426-440 | A run in which they come apart: a deposit credited free of charge and credited again once there is a fee. |
| LedgerRuns.FeesStayRecorded | apps/api/src/ledger/ledger.service.ts:424-440 | Every posting that collects a fee always has its row. |
| LedgerRuns.StrayOnlyWhenTheFeeAppeared | apps/api/prisma/schema.prisma:626-639 | A stray fee row requires that the original posting collected no fee and differs from the one re-entered; redelivering the same command never makes one. |
| LedgerRuns.RunsStaySolvent | apps/api/src/ledger/ledger.service.ts:14-20 | I5 as kept: over any run, available plus all over-capture debits plus all reversed net deposits stays at or above zero. |
| LedgerRuns.OverdrawIff | apps/api/src/ledger/ledger.service.ts:799-805 | The same for one command: available stays at or above zero exactly when the command does not overdraw. |
| LedgerRuns.CoveredIffNeverOverdraws | apps/api/src/ledger/ledger.service.ts:14-20 | I5 holds at every state of a run if and only if no command, when its turn comes, is a fresh settlement taking more beyond its hold than is available, or a fresh reversal of more than is available. |
| LedgerRuns.OverCaptureOverdraws | apps/api/src/ledger/ledger.service.ts:799-805 | A run that ends below zero by over-capture: deposit, hold it all, capture more. |
| LedgerRuns.ReversalOverdraws | apps/api/src/ledger/ledger.service.ts:455-463 | A run that ends below zero by reversal: deposit, hold it all, and the deposit leaves the chain. |
| LedgerRuns.HoldsPlacedBy | apps/api/src/ledger/ledger.service.ts:617-694 | The holds on record for a user grow by exactly the amount of a fresh hold of that user, and by nothing else. |
| LedgerRuns.HoldsFitThePool | apps/api/src/ledger/ledger.service.ts:608-694 | With only holds, fee charges and debit adjustments, by any number of cards, what the holds approved for a user asked for never exceeds the available balance they started from, and is exactly what the log has on record as holds. |
| LedgerRuns.SettleEffect | apps/api/src/ledger/ledger.service.ts:732-844 | A settlement lowers the total by the capture plus the fee, held by what was held, pays settlement and revenue, and leaves available no lower exactly when capture plus fee fit the hold. |
| LedgerRuns.HoldThenSettle | apps/api/src/ledger/ledger.service.ts:747-754 | Hold, then anything, then settle: always accepted, the total falls by exactly the capture plus the fee fixed at the hold, held returns to where it was, and available is debited again exactly when the capture exceeds the authorized spend. |
| Interleaving.CommitIsExec | apps/api/src/ledger/ledger.service.ts:547-608 | A commit whose reads still stand does what running the command alone at that moment does; one that refuses, or lost the race for its key, changes nothing. |
| Interleaving.EveryInterleavingIsSerial | apps/api/src/ledger/ledger.service.ts:167-278 | Every interleaving of any number of clients, aborts and eight-attempt retries included, ends in the database its committed commands give one after another. |
| Interleaving.CommitsIff | apps/api/src/ledger/ledger.service.ts:611-694 | An open transaction may commit exactly when it was refused on what it read, or key and balance still stand for a hold, a charge or a debit adjustment, or the key for a credit adjustment; any other movement always may. |
| Interleaving.EightAttempts | apps/api/src/ledger/ledger.service.ts:212-252 | A submitted hold, charge or adjustment outlives seven aborts and not the eighth, any other command not one; nothing else changes. |
| Interleaving.StaleCommitAborts | apps/api/src/ledger/ledger.service.ts:229-243 | A commit that may not go through ends like an abort. |
| Interleaving.AloneIsExec | apps/api/src/ledger/ledger.service.ts:212-252 | Submitted, read and committed with nobody in between, a command does what it does alone. |
| Interleaving.NoInterleavingOverdraws | apps/api/src/ledger/ledger.service.ts:14-20 | I5 as kept, under every interleaving. |
| Interleaving.NoGuardedInterleavingOverdraws | apps/api/src/ledger/ledger.service.ts:608-616 | With no reversal and no settlement beyond its hold in flight or submitted, no interleaving takes available below zero. |
| Interleaving.CoveredIffNeverOverdraws | apps/api/src/ledger/ledger.service.ts:608-616 | I5 holds at every state of an interleaving if and only if none of its committed commands, in commit order, overdraws. |
| Interleaving.RacingHoldsFitThePool | apps/api/src/ledger/ledger.service.ts:608-694 | Any number of cards racing on one balance: what the approved holds asked for fits in the starting pool, and is what the log has on record as holds. |
| Interleaving.UnvalidatedCommitOverdraws | apps/api/src/ledger/ledger.service.ts:611-614 | Two holds that fit the pool alone but not together, planned on one snapshot: the second fails validation, and committed regardless it would overdraw. |
| LedgerService.Ledger.AssertBalanced | apps/api/src/ledger/ledger.service.ts:281-301 | Accepts exactly the lists of two or more entries, all positive, that net to zero. |
| LedgerService.Ledger.Post | apps/api/src/ledger/ledger.service.ts:122-165 | Refuses an unbalanced list, returns the original id for a posted key, and otherwise appends the posting under the next id. |
| LedgerService.Ledger.GetAccountBalance | apps/api/src/ledger/ledger.service.ts:308-321 | The loop over the grouped sums returns the balance of the log, account without entries included. |
| LedgerService.Ledger.PostWithFee | apps/api/src/ledger/ledger.service.ts:413-441 | Posting and fee row go in together or the tables are as before. |
| LedgerService.Ledger.CreditDeposit | apps/api/src/ledger/ledger.service.ts:354-446 | Leaves the tables and the result that Commands.ExecMeaning is about, for a deposit credit. |
| LedgerService.Ledger.ReverseDeposit | apps/api/src/ledger/ledger.service.ts:464-520 | The same for a deposit reversal, which no balance check guards. |
| LedgerService.Ledger.ChargeFee | apps/api/src/ledger/ledger.service.ts:534-606 | The same for a fee charge: key first, then the balance. |
| LedgerService.Ledger.PlaceHold | apps/api/src/ledger/ledger.service.ts:617-694 | The same for a hold, posted as a card authorization; on success it also reports the balance left, on a replay the balance as it now is. |
| LedgerService.Ledger.ReleaseHold | apps/api/src/ledger/ledger.service.ts:697-730 | The same for a release. |
| LedgerService.Ledger.SettleAuthorization | apps/api/src/ledger/ledger.service.ts:740-844 | The same for a settlement. |
| LedgerService.Ledger.CreditRefund | apps/api/src/ledger/ledger.service.ts:847-880 | The same for a refund. |
| LedgerService.Ledger.PostAdjustment | apps/api/src/ledger/ledger.service.ts:888-949 | The same for an adjustment, whose balance check comes before the key. |
| LedgerService.Ledger.VerifyIntegrity | apps/api/src/ledger/ledger.service.ts:956-986 | Reports how many postings there are, exactly those that do not net to zero and the user accounts below zero; the first list is empty on every ledger the model can reach. |
| Retry.WithSerializableRetry | apps/api/src/ledger/ledger.service.ts:212-252 | Stops within maxAttempts; on success the store is what the one successful attempt made of what others had left, on a rethrow what others had left untouched; only conflicts are retried, only exhaustion or a real failure is rethrown; the total wait is the sum, over the failed attempts but the last, of a random fraction of 8 ms doubled each time, 150 at most, and within the budget. |
| Retry.BudgetBounds | apps/api/src/ledger/ledger.service.ts:231-243 | The total wait over n attempts is at most 8*(2^(n-1)-1) and at most 150*(n-1) milliseconds. |
| Retry.BudgetOfEight | apps/api/src/ledger/ledger.service.ts:215-243 | For the eight attempts used it is 548 ms. |
| RetriedCommands.RunRetried | apps/api/src/ledger/ledger.service.ts:617-694 | A ledger command in the loop takes effect once or not at all, a refusal is not retried, giving up takes eight conflicts in a row, and all waits stay within 548 ms. |
| Fees.ApplyBpsCharges | apps/api/src/ledger/fees.service.ts:34-37 | So many basis points of a positive amount are the one whole number r with 10000*r <= amount*bps < 10000*(r+1); zero if either is not positive. |
| Fees.BpsGrowth | apps/api/src/ledger/fees.service.ts:34-37 | Up to 10000 bps, a larger amount is charged no less, and no more than the difference on top. |
| Fees.BpsSplit | apps/api/src/ledger/fees.service.ts:34-37 | Two parts are charged no more than the whole, and at most one unit less. |
| Fees.DepositFeeIs | apps/api/src/ledger/fees.service.ts:39-63 | The deposit fee is, exactly: the charge plus the flat part; raised to a positive minimum; lowered to a positive maximum, which wins over both; never negative, never more than the deposit. |
| Fees.DepositFeeInRange | apps/api/src/ledger/fees.service.ts:46-63 | A deposit fee lies between zero and the deposit for any settings. |
| Fees.MinimumTakesAll | apps/api/src/ledger/fees.service.ts:52-63 | A minimum fee no smaller than the deposit, with no maximum, is the whole deposit. |
| Fees.DepositFeeMonotone | apps/api/src/ledger/fees.service.ts:52-63 | With bps the settings can hold, both the fee and the net credit are non-decreasing in the deposit. |
| Fees.CreditableUpwards | apps/api/src/ledger/fees.service.ts:52-63 | If the ledger can credit a deposit (fee below amount), it can credit every larger one. |
| Fees.TransactionFeeIs | apps/api/src/ledger/fees.service.ts:72-82 | The card fee is, exactly: the charge plus the flat part, plus the charge at the foreign margin on a foreign tap, or zero if that is negative. |
| Fees.ForeignMargin | apps/api/src/ledger/fees.service.ts:79-81 | With no negative flat part, a foreign tap costs exactly the truncated margin more than a domestic one. |
| Fees.TransactionFeeMonotone | apps/api/src/ledger/fees.service.ts:72-82 | A card fee is never negative, never falls with the spend, and is no smaller abroad. |
| Cards.FirstAmountCounts | apps/api/src/webhooks/asa.service.ts:245-256 | The first amount given decides, as the nearest whole cent of its magnitude; given but not finite, or given nowhere, there is none. |
| Cards.StatusTexts | apps/api/src/webhooks/webhooks.service.ts:393-407 | SETTLED, DECLINED and EXPIRED are read as those states, VOIDED and REVERSED both as reversed, and any other text as pending. |
| CardRuns.StepRunsItsCommand | apps/api/src/webhooks/webhooks.service.ts:271-382 | Every step of the desk moves money by the one command it runs. |
| CardRuns.StepKeepsRows | apps/api/src/webhooks/webhooks.service.ts:302-325 | Rows keep token, owner, amount and fee through every step, tokens stay unique, and at most one row is added. |
| HeldMoney.HeldStep | apps/api/src/webhooks/webhooks.service.ts:330-381 | From a matching desk a step keeps held equal to the open reservations of every user if and only if it is clean, said before it runs: a new hold finds a row of that owner and reservation or persists its own, a new closing finds its own hold open and charges the row's owner. |
| HeldMoney.HeldThroughoutIffClean | apps/api/src/webhooks/webhooks.service.ts:244-381 | Held equals the sum of amount*10000+fee over open authorizations at every state of a run if and only if every step is clean. |
| HeldMoney.FromEmptyIffClean | apps/api/src/webhooks/webhooks.service.ts:244-381 | The same from an empty desk, with nothing assumed of the run. |
| HeldMoney.OrderlyIsClean | apps/api/src/webhooks/asa.service.ts:157-191 | Steps within the operating assumptions (rows persist, events about authorized tokens of their owner, one kind of closing, any number of deliveries) are clean. |
| HeldMoney.OrderlyRunsMatch | apps/api/src/webhooks/webhooks.service.ts:244-381 | So every run within them keeps the equation throughout, faults and redeliveries included. |
| HeldMoney.OrderlyAsa | apps/api/src/webhooks/asa.service.ts:280-313 | An approved authorization whose row persists leaves exactly its own row: the spend, the fee and the owner it held for. |
| HeldMoney.SettlementWithoutHold | apps/api/src/webhooks/webhooks.service.ts:336-350 | A SETTLED event for a token never authorized breaks the equation: held falls by the event's amount. |
| HeldMoney.FirstSettlementBreaks | apps/api/src/webhooks/webhooks.service.ts:336-350 | The shortest run that breaks the equation: on an empty desk, one such event. |
| Decisions.HoldKeysComeFromAsa | apps/api/src/webhooks/asa.service.ts:174-177 | A hold key is posted only by an authorization of that token that reached the balance, and never disappears. |
| Decisions.RunsStayBacked | apps/api/src/webhooks/asa.service.ts:203-221 | Over every run, faults included, every approval on record keeps its hold posted. |
| Decisions.FaithfulThroughoutIff | apps/api/src/webhooks/asa.service.ts:336-376 | A token is held if and only if it is recorded approved, at every state of a run, if and only if no hold of it goes through with its decision unrecorded. |
| DeskWitnesses.ApprovalIsForgotten | apps/api/src/webhooks/asa.service.ts:357-376 | A run in which they come apart: one tap approved while the insert of its decision fails. |
| Decisions.DecisionsSurvive | apps/api/src/webhooks/asa.service.ts:336-376 | A decision once recorded is never changed, whatever runs. |
| Decisions.AnswerMatchesHold | apps/api/src/webhooks/asa.service.ts:71-222 | Whether or not its decision gets recorded, the answer is APPROVED if and only if the hold is posted and the decision lookup did not fail. |
| Decisions.ApprovedIsHeld | apps/api/src/webhooks/asa.service.ts:203-221 | No answer approves without a hold, whatever fails and whatever went unrecorded before. |
| Decisions.FreshApprovalIff | apps/api/src/webhooks/asa.service.ts:112-177 | A first delivery is approved if and only if nothing fails, the card is known and active, its owner active, both limits allow it, and spend plus fee - the charge, flat part and foreign margin of the rates in force - are positive and no more than available. |
| Decisions.FirstAnswer | apps/api/src/webhooks/asa.service.ts:112-222 | The answer to a first delivery, by the first check that fails: unknown card SUSPECTED_FRAUD, closed CARD_CLOSED, frozen or owner not active CARD_PAUSED, a limit VELOCITY_EXCEEDED, a hold that does not fit or fails INSUFFICIENT_FUNDS, else APPROVED. |
| Decisions.ApprovalLeaves | apps/api/src/webhooks/asa.service.ts:157-193 | A fresh approval moves spend plus fee from available to held, adds a pending row with the spend in cents, that fee, owner, card and moment unless the token has a row or the insert fails, and records the decision if it can. |
| Decisions.DeclineMovesNothing | apps/api/src/webhooks/asa.service.ts:71-222 | Any other answer leaves postings, transactions and cards as they were. |
| Decisions.FaultsDecline | apps/api/src/webhooks/asa.service.ts:77-86 | A request that cannot be read is answered SUSPECTED_FRAUD and leaves nothing; a failure before the hold is answered INSUFFICIENT_FUNDS. |
| Decisions.ReplayAnswer | apps/api/src/webhooks/asa.service.ts:90-101 | A delivery of a decided token changes nothing and answers as decided, except that a decision without a code of its own and a lookup that fails come out as INSUFFICIENT_FUNDS. |
| Decisions.ReplayIsStable | apps/api/src/webhooks/asa.service.ts:90-101 | A recorded decision replays with the same approve-or-decline and no second hold whatever has since changed; the code differs only for a card nobody knew, and a replay whose lookup fails is declined. |
| DailyLimit.UpsertMovesSpend | apps/api/src/webhooks/webhooks.service.ts:302-325 | An event moves the counted spend of a card's day by what it makes its row count, or by the row it creates, and by nothing else. |
| DailyLimit.RaisesIff | apps/api/src/webhooks/webhooks.service.ts:302-325 | Exactly which events raise what a row counts: a capture above it, a reopening, or pending again after a smaller capture. |
| DailyLimit.LimitStep | apps/api/src/webhooks/asa.service.ts:144-151 | Any step of the day keeps the counted spend within the limit if and only if it fits: authorizations always do, a card event when it raises the spend by no more than the room left. |
| DailyLimit.LimitThroughoutIffFits | apps/api/src/webhooks/asa.service.ts:144-278 | Over any run of authorizations, webhooks and sweeps within a day, the counted spend is within the card's limit at every state if and only if every card event fits when its turn comes. |
| DailyLimit.NoRaiseFits | apps/api/src/webhooks/webhooks.service.ts:302-325 | An event on an existing authorization that raises nothing fits however full the day is. |
| DeskWitnesses.SecondCaptureExceedsLimit | apps/api/src/webhooks/webhooks.service.ts:312-316 | A run from a limited desk, authorize for the whole limit, capture one cent, authorize the rest, capture all of the first: every capture is within its authorization and the limit is exceeded. |
| WebhookEffects.WebhookRecords | apps/api/src/webhooks/webhooks.service.ts:302-325 | An event creates the row it describes, or sets the status its text names and a positive capture on the row there is, amount and fee untouched. |
| WebhookEffects.WebhookSettles | apps/api/src/webhooks/webhooks.service.ts:330-358 | On SETTLED, at whatever rates now: held falls by ten thousand times the cents authorized plus the stored fee (or by the event's own hold, if the token has no row), the merchant gets the cents captured, revenue the fee, and available makes up the difference. |
| WebhookEffects.WebhookReleases | apps/api/src/webhooks/webhooks.service.ts:360-381 | On VOIDED, REVERSED, DECLINED or EXPIRED the whole reservation goes back if there was a hold, and nothing otherwise. |
| WebhookEffects.HalfDoneIsNeverFinished | apps/api/src/webhooks/webhooks.service.ts:302-328 | After a crash or a ledger error behind the row update, over any run that leaves the row's status as it is, redeliveries included, no webhook ever closes the token. |
| WebhookEffects.WebhookWaits | apps/api/src/webhooks/webhooks.service.ts:327-328 | A redelivery of the status on record, and any text that names no final status, move no money. |
| WebhookEffects.SweepReleases | apps/api/src/webhooks/webhooks.service.ts:242-266 | A stale row the provider does not know gives ten thousand times its cents plus its fee back to its owner, once, and expires. |
| WebhookEffects.SweepAgainCompletes | apps/api/src/webhooks/webhooks.service.ts:244-258 | A sweep that died between release and row update is completed by the next one, without a second release. |
| Cards.StaleRowsAre | apps/api/src/webhooks/webhooks.service.ts:203-217 | The sweep takes the transactions pending since before the cutoff, each once, in order, and passes one over only when its limit is full of earlier ones. |
| WebhookEffects.SweepTouchesStaleOnly | apps/api/src/webhooks/webhooks.service.ts:203-268 | A sweep leaves every transaction that is not pending, or was made at or after the cutoff, as it was, and releases nothing for a token that has no stale one. |
| WebhookEffects.SweepExpiresStale | apps/api/src/webhooks/webhooks.service.ts:219-268 | In a sweep that nothing stops, a stale transaction is expired and released exactly when its turn comes and the provider has never heard of it, and its turn comes unless the limit is full of earlier ones. |
| Cards.BlankEventDoesNothing | apps/api/src/webhooks/webhooks.service.ts:271-276 | An event whose token or card token comes out empty, as a provider record's do, or whose card nobody knows, leaves the desk as it was. |
| CardService.CardDesk.SpentToday | apps/api/src/webhooks/asa.service.ts:258-278 | The reduce equals the counted spend that the limit theorem is about. |
| CardService.CardDesk.DecideAuthorization | apps/api/src/webhooks/asa.service.ts:71-222 | One delivery, with every early return and fault, ends in that desk and response. |
| CardService.CardDesk.SyncCardTransaction | apps/api/src/webhooks/webhooks.service.ts:271-382 | Row first, then at most one ledger call, as the run theorems assume; the error it throws, if any. |
| CardService.CardDesk.SweepStaleAuthorizations | apps/api/src/webhooks/webhooks.service.ts:197-269 | The loop ends in the desk the row-by-row sweep gives, every row that is not pending from before the cutoff is as it was, its four counters say what became of each row, and it throws exactly when a row stopped it. |
| CardService.CountIs | apps/api/src/webhooks/webhooks.service.ts:221-268 | The tally counts every row looked at, and how many were resolved, released and left unresolved. |
| CardRuns.SweepIsRun | apps/api/src/webhooks/webhooks.service.ts:197-269 | A sweep is a run of stale-row steps over its rows, up to the one that stops it; what holds of runs holds of it. |
| Inbox.EventStore.Receive | apps/api/src/webhooks/webhooks.service.ts:49-93 | A provider event is stored once, as received; a second delivery of its id changes nothing. |
| Inbox.EventStore.Process | apps/api/src/webhooks/webhooks.service.ts:96-140 | A processed event is left alone; otherwise it ends processed, failed, dead-lettered at the fifth failure, or stuck in processing if the handler dies; no other event changes. |
| Inbox.EventStore.RetryFailed | apps/api/src/webhooks/webhooks.service.ts:494-508 | The loop handles exactly those events, each once, leaves every other alone, and returns how many there were. |
| Inbox.DueIsOldest | apps/api/src/webhooks/webhooks.service.ts:494-501 | The retry job takes each event failed fewer than five times once, oldest first, and passes one over only when the limit is full of older ones. |
| Inbox.AutomaticHandling | apps/api/src/webhooks/webhooks.service.ts:96-140 | Left to the retry job, an event is handled successfully at most once, fails at most five times, and is dead-lettered exactly at the fifth. |
| Inbox.SucceedsOnce | apps/api/src/webhooks/webhooks.service.ts:96-103 | By any path but an operator's replay, however often it is handled, an event succeeds at most once and is left alone from then on. |
| Inbox.CrashIsNotRetried | apps/api/src/webhooks/webhooks.service.ts:494-508 | An event whose handler died is never picked up by the retry job. |
| DepositRuns.ReversedRow | apps/api/src/deposits/deposits.service.ts:233-257 | Reversing a confirmed row with its linked fee always succeeds and nets every account to zero. |
| DepositRuns.RowInvMatches | apps/api/src/deposits/deposits.service.ts:332-381 | The invariant gives the money: (amount-fee, fee, -amount) on available, revenue and clearing when CONFIRMED, nothing on any account otherwise. |
| DepositRuns.DepositStepMatches | apps/api/src/deposits/deposits.service.ts:201-381 | From a matching book a step leaves every deposit's money agreeing with its status if and only if it does not die half way, a condition on what goes into it. |
| DepositRuns.MatchesThroughoutIffNoneDies | apps/api/src/deposits/deposits.service.ts:201-381 | Money agrees with status at every state of a run if and only if no step dies half way, whatever the fee rates were at each step. |
| DepositRuns.FromEmptyIffNoneDies | apps/api/src/deposits/deposits.service.ts:201-381 | The same from an empty book, with nothing assumed of the run. |
| DepositRuns.FirstSightDies | apps/api/src/deposits/deposits.service.ts:345-366 | A step that dies: the first sighting of a transfer of ours, deep and creditable, by a process that does not survive it. |
| DepositRuns.DiesIff | apps/api/src/deposits/deposits.service.ts:276-366 | A step dies between posting and row update exactly when it crashes on a pending row read at depth with its fee below the amount, or on a confirmed row read as vanished. |
| DepositOnce.OnceOnly | apps/api/src/deposits/deposits.service.ts:61-157 | Over any run, crashes included: one row per (network, txHash, logIndex), rows never lost or changed in owner, amount or depth, one credit and one reversal posting per deposit at most. |
| DepositOnce.SeenAgainSameDeposit | apps/api/src/deposits/deposits.service.ts:142-155 | A transfer seen again after anything else is the same deposit and adds no row; one ignored is ignored again. |
| DepositOnce.CreditOnlyAtDepth | apps/api/src/deposits/deposits.service.ts:312-324 | The credit posting appears only in a step that read a pending row at its required depth or deeper. |
| DepositInterleaving.JobsAloneAreSteps | apps/api/src/deposits/deposits.service.ts:61-413 | A job that makes its calls with nobody in between - insert or find, read, ask the chain, read again, call the ledger, update the row - leaves exactly the book that the whole step does in the runs above; the step that crashes is the job that dies before its last call. |
| DepositInterleaving.OnceOnly | apps/api/src/deposits/deposits.service.ts:61-381 | Any number of jobs interleaved call by call on stale reads, dying anywhere: still one row per transfer, one credit and one reversal per deposit. |
| DepositInterleaving.CreditOnlyAtDepth | apps/api/src/deposits/deposits.service.ts:276-366 | The same with only single database calls atomic: a credit is posted only for a deposit that some job read as deep as its row required. |
| DepositOnce.RecordOurs | apps/api/src/deposits/deposits.service.ts:61-110 | A transfer gets a row if and only if it is of the configured token, to an address of ours, and not below the minimum. |
| DepositOnce.EveryDepositIsOurs | apps/api/src/deposits/deposits.service.ts:78-125 | Over any run every deposit belongs to the owner of an address of ours on its network, meets the minimum, and requires the configured depth. |
| DepositWalks.CreditedIff | apps/api/src/deposits/deposits.service.ts:332-366 | A pending deposit read at depth is confirmed if and only if the fee in force is below the amount, and the step throws, changing nothing, if and only if the fee is all of it. |
| DepositWalks.WalkReaches | apps/api/src/deposits/deposits.service.ts:384-413 | The walk gets past its first k rows if and only if none of them is read at depth with the fee all of the amount, or crashes there. |
| DepositWalks.PendingWalkCredits | apps/api/src/deposits/deposits.service.ts:384-413 | A walk over the pending deposits confirms a row if and only if it reads it at depth and neither it nor any row before it stops the walk. |
| DepositWalks.StarvedBehind | apps/api/src/deposits/deposits.service.ts:384-413 | While a deposit is all fee at the rates in force, however many walks run, it is not credited, and neither is any deposit that comes after it. |
| DepositWalks.SmallDepositSticks | apps/api/src/deposits/deposits.service.ts:332-366 | A deposit that gets stuck so: seen for the first time, no larger than the minimum fee, and deep by the next walk. |
| DepositCrashes.HalfCredited | apps/api/src/deposits/deposits.service.ts:345-366 | A step that died after the credit leaves the row pending and the credit posted with its fee row, and every other deposit intact. |
| DepositCrashes.RetryAfterHalf | apps/api/src/deposits/deposits.service.ts:345-366 | The next reading at depth, after any steps without news of it, adds no posting and completes the row with matching money if and only if the fee now in force is below the amount; the row is sound if and only if the retry charges no fee that the credit did not. |
| DepositCrashes.ReversalAfterRetry | apps/api/src/deposits/deposits.service.ts:233-257 | A re-org after that retry, whenever it is noticed, nets every account to zero if and only if the retry was not such a stray one; otherwise revenue pays out a fee it never received and the user keeps it. |
| DepositCrashes.VanishAfterHalf | apps/api/src/deposits/deposits.service.ts:297-310 | If the transaction vanishes instead, sooner or later, the row is orphaned with the credit standing, whatever runs afterwards. |
| DepositCrashes.RecheckAfterHalf | apps/api/src/deposits/deposits.service.ts:241-257 | A reversal that died half way and is read as vanished again, sooner or later, posts nothing more and is completed, with its money agreeing. |
| DepositCrashes.ReappearsAfterHalf | apps/api/src/deposits/deposits.service.ts:223-231 | If the transaction is back instead, the row stays CONFIRMED with nothing left of its money, whatever runs, until it vanishes anew. |
| DepositMeanwhile.RunSpares | apps/api/src/deposits/deposits.service.ts:276-324 | A run of steps that find nothing to do on a row leaves it, its postings and its fee row: any step on an orphan, any that does not read a confirmed row as vanished, any without news of a pending one. |
| DepositSteps.RecordLeaves | apps/api/src/deposits/deposits.service.ts:61-157 | A transfer not seen before, by network, hash and log index, becomes a detected deposit of the address owner, of its own amount, at the configured depth and moment; one seen before is found and nothing changes. |
| DepositSteps.AdvanceMeaning | apps/api/src/deposits/deposits.service.ts:276-381 | One look at a deposit: orphaned if the node has not heard of it more than ten minutes after it was first seen, confirming below its depth, and at it credited - amount less the fee of the rates to the user, the fee to revenue with its row - unless the fee is all of it; anything else is left alone. |
| DepositSteps.RecheckMeaning | apps/api/src/deposits/deposits.service.ts:223-264 | A second look at a credited deposit: reversed, with the fee it was credited with, and orphaned if the node has never heard of it; otherwise left alone. |
| Deposits.PendingRowsAre | apps/api/src/deposits/deposits.service.ts:384-391 | The walk takes the deposits detected or confirming, each once, in order, up to its limit. |
| Deposits.WatchedRowsAre | apps/api/src/deposits/deposits.service.ts:204-221 | The watch takes the deposits confirmed at or after its window opens, each once, in order, up to its limit. |
| DepositService.DepositDesk.RecordTransfer | apps/api/src/deposits/deposits.service.ts:61-110 | Insert or find, without the advance that follows: the row id and book the once-only theorems are about, ignored transfers changing nothing. |
| DepositService.DepositDesk.Credit | apps/api/src/deposits/deposits.service.ts:332-381 | Ledger call then row update, with the crash between them, as the run theorems assume. |
| DepositService.DepositDesk.AdvanceConfirmations | apps/api/src/deposits/deposits.service.ts:276-324 | Every reading of the chain leads to the book those theorems are about. |
| DepositService.DepositDesk.AdvanceAllPending | apps/api/src/deposits/deposits.service.ts:384-413 | The walk equals advancing the selected rows in order until one throws or dies; the count is of rows newly confirmed. |
| DepositService.DepositDesk.Recheck | apps/api/src/deposits/deposits.service.ts:223-264 | A vanished credited deposit is reversed with its linked fee and orphaned; anything else is left. |
| DepositService.DepositDesk.WatchCreditedForReorg | apps/api/src/deposits/deposits.service.ts:201-268 | The watch equals rechecking the selected rows in order until one throws or dies; the count is of reversals. |
| DepositService.DepositDesk.ReconcileAddress | apps/api/src/deposits/deposits.service.ts:420-445 | The sweep equals observing the transfers in order until one throws or dies, and does nothing when no token is configured. |
| DepositPasses.WalkIsRun | apps/api/src/jobs/jobs.service.ts:61-70 | A confirmation walk is a run of walk steps over its rows, up to the one that stops it; what holds of runs holds of it. |
| DepositPasses.SelectedWatchIsRun | apps/api/src/jobs/jobs.service.ts:137-147 | A re-org watch over the rows it selects is a run of rechecks. |
| DepositPasses.ReconcileIsRun | apps/api/src/jobs/jobs.service.ts:79-105 | A reconciliation sweep is a run of sightings, up to the one that stops it. |
| Billing.DueUsersAre | apps/api/src/billing/billing.service.ts:70-77 | A pass takes the accounts on TEAM or BUSINESS that are not closed, each once, in order, up to its limit. |
| Billing.BillMeaning | apps/api/src/billing/billing.service.ts:85-175 | One billing of one account, at its plan's price: charged exactly when that is positive, unpaid this month, affordable and not aborted; then available falls and revenue rises by it; a shortfall sets the dunning date, or downgrades once that is dunningDays times 86400000 ms ago; nothing else changes and nobody goes below zero. |
| Billing.ChargedOncePerMonth | apps/api/src/billing/billing.service.ts:89-97 | Over any run of passes, plan changes and other movements: at most one charge per user and month, and no STARTER account with a dunning date if there was none. |
| Billing.PassesNeverOverdraw | apps/api/src/billing/billing.service.ts:61-178 | No pass takes a non-negative available balance below zero. |
| Billing.DowngradedIff | apps/api/src/billing/billing.service.ts:128-139 | A pass downgrades an account if and only if its charge was tried and failed and the failing period has reached dunningDays whole days. |
| Billing.PlanChangeStartsAfresh | apps/api/src/billing/billing.service.ts:187-205 | A plan change moves no money and clears dunning: the next failed charge is put on record at its own moment, and downgrades only when there is no dunning period. |
| Billing.DunningHasAFirstFailure | apps/api/src/billing/billing.service.ts:163-168 | A dunning date on record is the moment of an earlier failed charge of that account that had none before. |
| Billing.NoEarlyDowngrade | apps/api/src/billing/billing.service.ts:128-139 | Starting with no dunning dates, a downgrade comes at least dunningDays whole days after such a first failure; the failing charge itself downgrades only when there is no dunning period. |
| BillingService.BillingDesk.BillAccount | apps/api/src/billing/billing.service.ts:85-175 | One account of the loop, with its continues and its rethrow, ends in the state Billing.BillMeaning is about. |
| BillingService.BillingDesk.ChargeDuePlans | apps/api/src/billing/billing.service.ts:61-178 | The pass equals billing the selected accounts in order until one throws, and its counters count what was done. |
| Billing.PassIsRun | apps/api/src/billing/billing.service.ts:61-178 | A pass is a run of billings of its accounts, up to the one that throws; what holds of runs holds of it. |
| FeedPaging.EverythingMeans | apps/api/src/transactions/transactions.service.ts:67-157 | The feed meant has every row of the three tables that the query selects, as often as they have it, newest first. |
| FeedPaging.CutMerge | apps/api/src/transactions/transactions.service.ts:67-110 | Cutting each of three sorted sources and merging starts with the same n rows as the full merge, for n up to the cut, ties included. |
| FeedOrder.NewestConcat | apps/api/src/transactions/transactions.service.ts:112-157 | Sorting rows together is the stable merge of the rows sorted apart. |
| FeedPaging.PageIsNewest | apps/api/src/transactions/transactions.service.ts:67-168 | A page is exactly the newest limit rows of the whole filtered merge below the cursor; hasMore and nextCursor say exactly whether and where it goes on. Rows of one moment are allowed. |
| FeedPaging.CursorWindow | apps/api/src/transactions/transactions.service.ts:48-65 | A cursor leaves exactly the rows of the window before it, less the row at `to` when the cursor lies beyond it. |
| FeedPaging.NothingLostIff | apps/api/src/transactions/transactions.service.ts:54-65 | With the cursor a page gives, the rows left are all the undelivered ones if and only if the page does not end between two rows of one moment. |
| FeedPaging.ArrivalsChangeNothing | apps/api/src/transactions/transactions.service.ts:45-47 | Rows newer than the cursor, and any change to rows the query does not want, other users' included, change no row below it; nor the next page, if the rows there are of distinct moments. |
| FeedPaging.ScrollDeliversIff | apps/api/src/transactions/transactions.service.ts:31-169 | A scroll until hasMore is false, such changes happening meanwhile, delivers rows of the feed as it stood, newest first and none twice, and all of them if and only if no page ends between two rows of one moment. |
| FeedPaging.ScrollDeliversEverything | apps/api/src/transactions/transactions.service.ts:31-169 | If the scrolled rows are of distinct moments, it is the feed itself, row for row. |
| FeedPaging.ScrollExists | apps/api/src/transactions/transactions.service.ts:31-169 | A scroll exists from every table state and cursor: paging ends. |
| FeedPaging.SplitTieIsLost | apps/api/src/transactions/transactions.service.ts:54-65 | The smallest instance: two rows of one moment, one to a page, and the second is never delivered. |
| FeedFilters.OwnRowsOnly | apps/api/src/transactions/transactions.service.ts:72-110 | A feed shows its user's rows only, and unfiltered all of them. |
| FeedFilters.TypesPartition | apps/api/src/transactions/transactions.service.ts:36-38 | The feed of one type (card, deposits, fees) shows exactly the rows of that type in the full feed. |
| FeedFilters.RowsPresentEntries | apps/api/src/transactions/transactions.service.ts:112-157 | The rows of the feed are exactly its entries: a card transaction at minus its settled or else authorized cents times ten thousand, a deposit at its amount, a fee at minus its amount, each with its owner, status and moment. |
| FeedFilters.DeliveredRowsPresent | apps/api/src/transactions/transactions.service.ts:31-169 | Every row of a page is such an entry of the asking user. |
| FeedFilters.WindowShows | apps/api/src/transactions/transactions.service.ts:48-65 | A time window shows the rows from its first to its last moment, both included. |
| FeedFilters.CardFilterShows | apps/api/src/transactions/transactions.service.ts:72-110 | One card's feed is that card's rows: no deposits and no fees. |
| FeedFilters.StatusFilterShows | apps/api/src/transactions/transactions.service.ts:76-100 | A status filter keeps the card and deposit rows of that status, and every fee. |
| FeedFilters.RefundsShow | apps/api/src/transactions/transactions.service.ts:72-86 | The feed of refunds is the card rows in REFUNDED, whatever status is asked for. |
| Spending.RowsAre | apps/api/src/transactions/transactions.service.ts:202-211 | The chart is of the user's pending and settled transactions since its first day, each as often as it is there. |
| Spending.SpendingOverview | apps/api/src/transactions/transactions.service.ts:197-240 | Over the user's pending and settled rows since the first day: each point is its day's spend in USDT units, asked-for days first, every row on some day, and the points add up to the total. |
| Amounts.ParseMeans | packages/shared/src/money.ts:27-48 | The parser accepts a text exactly when, trimmed and without commas, it is not empty, a lone point or a lone sign, and is an optional sign, digits and optionally a point and no more digits than there are decimals; its value is the whole digits times the power of ten plus the fraction digits times theirs, with that sign. |
| Amounts.WholeAmounts | packages/shared/src/money.ts:11-33 | A plain whole number is so many millions of units in USDT, so many hundreds in USD, and refused in any other currency. |
| Amounts.SameMoney | packages/shared/src/money.ts:27-48 | What reads as USD cents reads in USDT as those cents converted. |
| Amounts.TrimMeans | packages/shared/src/money.ts:29-29 | Trimming takes spaces off both ends and leaves none there. |
| Amounts.FormatMeans | packages/shared/src/money.ts:51-76 | The printer writes the sign of a negative amount, the quotient by the power of ten in canonical digits, grouped or not, and as many fraction digits as asked for and available, which are the next digits of the amount, cut off. |
| Amounts.DefaultPrecision | packages/shared/src/money.ts:65-66 | With no precision given two fraction digits are shown: parsing gives a USD amount back, and a USDT one less its last four digits. |
| Money.GroupedShape | packages/shared/src/money.ts:69-72 | Commas stand exactly before every third digit from the end, never first, and no character is lost. |
| Money.ParseUndoesFormat | packages/shared/src/money.ts:27-76 | For every amount, sign, number of decimals, precision and grouping, parsing the formatted text truncates toward zero at the last shown digit; fraction digits of a currency with none are refused. |
| Money.FullRoundTrip | packages/shared/src/money.ts:27-76 | With all fraction digits shown, parsing gives the amount back, grouped or not. |
| Money.TruncationLoss | packages/shared/src/money.ts:65-67 | Truncation is toward zero and loses less than one unit of the last shown digit. |
| Money.TruncatedIsQuotient | packages/shared/src/money.ts:60-67 | Truncation is division toward zero by the power of ten of the dropped digits, times that power. |
| Money.SignAndPointReadAsZero | packages/shared/src/money.ts:31-33 | Empty text, a lone sign and a lone point are refused; sign and point together read as zero. |
| Money.DigitlessIff | packages/shared/src/money.ts:27-48 | A text without any digit is accepted if and only if sign and point are all that is left of it after trimming and removing commas; it then reads as zero. |
| Money.NeverCreditsMore | packages/shared/src/money.ts:78-97 | Converted to our decimals, a token amount is never worth more than received, and less than one unit less. |
| Money.CentsRoundTrip | packages/shared/src/money.ts:105-111 | Cents survive the trip through USDT units; the other way an amount of either sign moves toward zero by less than a cent. |
| SettingsAmounts.EditorRoundTrip | apps/admin/src/components/settings-editor.tsx:46-58 | toMinor undoes fromMinor on every canonical digit string of any length. |
| SettingsAmounts.EditorAgreesWithParser | apps/admin/src/components/settings-editor.tsx:53-58 | Whatever toMinor accepts it saves as a canonical string that denotes what parseAmount reads in USDT. |
| SettingsAmounts.EditorAcceptsIff | apps/admin/src/components/settings-editor.tsx:53-55 | It accepts exactly the texts the parser accepts in USDT that start with a digit and have no commas. |
| SettingsAmounts.EditorWritesShort | apps/admin/src/components/settings-editor.tsx:46-51 | fromMinor writes canonical whole digits, and a point only before a fraction of at most six digits that does not end in zero. |

## Left out

- Idempotency keys as text: a key is a value with its kind, so the one textual collision (`release:stale:X` against the release of a token named `stale:X`) is not expressible. Row ids are positions.
- Currencies other than USDT, and more than one account per kind and owner. The schema's unique index does not by itself rule out two system accounts, since their owner is NULL; one is assumed.
- Postgres and Prisma internals: isolation is the commit rule stated above, a rollback restores the tables, and a transaction that times out is one that did not commit. Which error messages count as conflicts is an input.
- Interleaving: two deliveries of one card token, to the decision or the webhook, at the same time. The ledger is proved under all interleavings, the once-only credit of a deposit under all interleavings of single calls; everything else above the ledger under all sequences of whole steps, with crashes inside a step.
- Interleaving: one billing pass reads its accounts once at the start; here each account is read when its turn comes.
- LedgerService.Ledger.GetAccountBalance: the snapshot of both user accounts that `getBalance` returns is not modelled; it calls this twice and adds.
- CardService.CardDesk.SyncCardTransaction: the later update that stores the settlement's ledger id and time on the row is not modelled; nothing reads it.
- CardService.CardDesk.SweepStaleAuthorizations: `authorizedAt` and `createdAt` are one field.
- DailyLimit.LimitThroughoutIffFits: for one day and one unchanged limit; an authorization of the card checked against another day's start, or a changed limit, is outside it.
- FeedPaging.PageIsNewest: rows of one moment come back from each table in table order; the order a database gives them is its own.
- Sorting by ISO text is sorting by integer time; years beyond 9999 are not modelled.
- Spending.SpendingOverview: the day of a row and the list of days asked for are inputs; the time-zone rules behind them are not modelled.
- Clock, time zones, random jitter, settings, chain and provider answers are inputs of each step. Settings read together are read at one moment.
- Money.ParseUndoesFormat: negative digit counts and numbers passed as JavaScript floats are not modelled; Money.NeverCreditsMore is for non-negative raw values.
- Event status text is taken upper-cased, addresses and contracts lower-cased, and the foreign-currency flag as given; the numeric precision of JavaScript amounts in payloads is not modelled.
- Database row order: a sweep or pass takes its rows in table order, up to its limit.
- Demo deposits, the raw blockchain transaction table, notifications, audit log, descriptions, metadata and merchant fields: no state rule of their own.
- Card creation and its fee, limit editing, card-state webhooks (here: arbitrary changes of a card at any time), authentication, KYC, address derivation, admin lists and dashboards.
