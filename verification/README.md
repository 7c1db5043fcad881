# Monibase: verified model of the wallet, the exchange rates and the login state

Monibase keeps, for every user and currency, a balance; it funds, converts, trades and transfers
money between balances, records every operation in a transactions table, and answers a repeated
idempotency key with the stored response. This project models that behaviour in Dafny and proves
what it keeps. `dafny verify dfyconfig.toml` checks everything.

## What is modelled

- **Money** (`Money`, `Conversion`). Amounts are four-decimal strings that the service parses into
  binary64 numbers, adds, subtracts or compares, and prints with `toFixed(4)`. A stored amount is
  the integer number of ten-thousandths; binary64 rounding (round half to even, 53 bits, section
  4.3.1 of IEEE 754-2019) and `toFixed` (section 21.1.3.3 of ECMA-262) are defined concretely, and
  every operation of the model computes through them.
- **The tables and one operation** (`Ledger`). A database is a sequence of balance rows, a sequence
  of transaction rows and a map of idempotency records. Uniqueness of (user, currency) is proved;
  it is not built into the representation. `Exec` is the meaning of one request executed alone.
- **The classes** (`WalletRepository`, `WalletService`). The repository updates its tables row by
  row; the service sequences debit, credit, inserts, read-back and record, and restores the tables
  when a step fails. Each service method is proved to have the effect and the answer of `Exec`.
- **Serial runs** (`Consistency`, `SerialRuns`, `Outcomes`, `LedgerReplay`). Any list of requests and wallet
  visits, one at a time: the answer to every request and when it is refused with which error,
  consistency, replay of repeated keys, conservation, reconstruction of the balances from the ledger.
- **Concurrent runs** (`Concurrent`, `ConcurrentSafety`, `Progress`, `Waiting`, `Refinement`, `LostUpdate`,
  `Drift`). Any number of
  operations as processes with key lookups outside the transaction, private writes, read-committed
  reads, row locks, and the three constraints: unique (user, currency), unique key on transaction
  rows, primary key (user, key) on records. A schedule is any sequence of actions; an action that
  has to wait, or makes no sense, leaves the state as it is, so every sequence is a schedule.
  `Abort` stands for every other failure (deadlock, lost connection) at any point.
- **Rates and quotes** (`FxRates`, `FxSchedules`, `FxQuote`, `FxServed`). The cache with its time to live, the
  retry loop and the last good answer as a fallback, alone and with overlapping calls.
- **Accounts** (`Auth`, `Lockout`, `LoginRaces`, `FivePerHalfHour`, `DeactivationRaces`, `Tokens`,
  `TokenLife`, `TokenRevival`). The login attempt with its lock check, attempt counting, activation,
  one-time passwords, token versions, refresh and logout; login attempts and logouts one at a time
  and overlapping.
- **Paging** (`Paging`). Clamping, the list result, and following its links.

User ids are uuids. A request may spell one in either letter case; the database compares them
without regard to case and stores the lower case (`Ledger.Canon`). The caller's own id is the one
that the database returned.

What comes from outside is a parameter: the time, the provider's replies, the set of users, whether
a password matches, generated identifiers. Amounts and rates are assumed non-negative, as the
request bodies and the feed supply them.

## Properties that do not hold, and when they do

- **Concurrent operations are not always serial.** A credit reads its row without a lock and writes
  it later, so an update can be lost (`LostUpdate.AnUpdateCanBeLost`: two fundings of one unit leave
  one unit). Where the arithmetic is exact, commits act as in serial execution if and only if every
  credit still finds the amount that it read (`Refinement.SerialExactlyWhenFresh`); it is enough that no
  transaction commits a write to a row between such a read and the write
  (`Refinement.QuietSchedulesAreSerial`). In every schedule the total of a currency is the net inflow
  of the committed operations less all movement that credits wrote over, so money is conserved
  exactly when that adds up to nothing (`Drift.MoneyUpToOverwrites`).
- **The binary64 path is not always exact.** All sums up to 2^k units are exact if and only if k is
  at most 38, and so are differences (`Money.SumsExactUpTo`, `Money.DifferencesExactUpTo`); all
  comparisons are, and every amount survives being parsed and printed, if and only if k is at most
  39 (`Money.ComparisonsExactUpTo`). The failing amounts lie a few ten-thousandths above
  (`Money.InexactAbove38`, `Money.InexactAbove39`). No balance ever becomes negative
  (`Money.NeverNegative`).
- **A transfer to another user can be one to oneself.** The check compares the text of the ids, the
  database does not: the caller's own id in another letter case passes
  (`Consistency.SelfTransferIsAccepted`, and `Consistency.UpperCaseUuidIsAccepted` for a uuid),
  debits and credits one row, and leaves both ledger rows with one user. This happens exactly when
  the recipient's id differs from the caller's as text and is the same in lower case
  (`Consistency.TransferReachesItself`); money is conserved all the same.
- **A stale rate can belong to another base.** The fallback is shared by all bases: after a dollar
  fetch, a failed naira fetch is answered with dollar rates (`FxSchedules.FallbackOfAnotherBase`). It
  fits exactly when the fetch that finished last was for the same base (`FxSchedules.FallbackIsTheLastFetch`).
- **Token versions can decrease.** A logout reads the version and writes the next one later. When a
  second logout of the user ends in between, and a third begins after that and ends too, the last
  write takes the version back, and a token that was refused is accepted again
  (`TokenRevival.ATokenCanRevive`). Versions never decrease, and a version once left never becomes
  current again, exactly when no logout ends so far behind
  (`Tokens.NeverDecreaseExactlyWhenNoneBehind`, `TokenLife.NeverReturnsExactlyWhenNoneBehind`), for
  which it is enough that logouts of one user do not overlap (`Tokens.NoOverlapMeansNoneBehind`).
- **Five wrong passwords per half hour is not always a bound.** Attempts that overlap count from the
  same row. Five for every started half hour of any span is a bound if and only if at most one
  attempt is under way at a time and no deactivation falls into one
  (`FivePerHalfHour.FiveExactlyWhenOneAtATime`): two that overlap reach six at once, and so does a
  single attempt that is admitted before a deactivation and compares its password after the year.
  While at most m attempts overlap there is a bound that depends on m alone, again for every started
  half hour (`LoginRaces.OverlappingWrongPasswordsAreBounded`, `LoginRaces.ReadsPolynomial`); and any
  number of wrong passwords can be compared at once if so many overlap (`LoginRaces.AnyNumberAtOnce`).
- **A deactivation does not always lock for a year.** An attempt under way can count its failure
  afterwards and replace the lock by one of half an hour (`DeactivationRaces.AnAttemptCutsTheYear`).
  The lock stands, and no wrong password is compared, whatever follows within the year, if and only
  if every attempt under way at the deactivation is harmless: it is about to read the user again, or
  it has read no lock that expires within the year, or it has a failure to count that is not the
  fifth (`DeactivationRaces.DeactivationStandsExactly`).
- **A verified account is not always admitted.** A one-time password makes a deactivated account
  active but does not unlock it: while the lock stands the correct password is refused
  (`Lockout.VerifiedButLocked`).

## Where the code differs from its documentation

The model follows the code.

- The repository's README.md:417 says that the first `GET /wallet` ensures a naira row; the code adds one only for a
  user without any balance row (src/modules/wallet/wallet.service.ts:23).
- The repository's README.md:419 says that duplicates return the stored response; fund, convert and trade check
  their currencies first, and a key that another user has used is refused by the database.
- src/modules/wallet/dto/transfer.dto.ts:14 says that `toCurrency` must equal `fromCurrency` in a
  transfer to another user; the code ignores it there.

## Model

| member | source | states |
|---|---|---|
| Money.FlRounds | src/modules/wallet/wallet.repository.ts:79-80 | rounding to binary64 is monotone, keeps the sign, and is off by at most 2^-53 of the magnitude |
| Money.FlPosIsNearest | src/modules/wallet/wallet.repository.ts:79-80 | what a positive number is rounded to is a binary64 number, and no binary64 number is nearer |
| Money.TiesGoToEven | src/modules/wallet/wallet.repository.ts:79-80 | halfway between two significands the even one is taken |
| Money.ToFixedIsNearest | src/modules/wallet/wallet.repository.ts:84 | no integer is nearer to the scaled magnitude than what `toFixed` prints, of two as near it prints the larger one, and a negative number is minus its magnitude |
| Money.AddExact | src/modules/wallet/wallet.repository.ts:70 | parsing, adding and printing equals exact addition of four-decimal amounts, as long as the sum is at most 2^38 units |
| Money.SubExact | src/modules/wallet/wallet.repository.ts:79-84 | the same for the subtraction of an amount from a larger one of at most 2^38 units |
| Money.LessExact | src/modules/wallet/wallet.repository.ts:81 | the comparison of the parsed strings is the comparison of the amounts, as long as one of them is at most 2^39 units |
| Money.PrintedParsed | src/modules/wallet/wallet.repository.ts:79-84 | a stored amount of at most 2^39 units survives being parsed and printed |
| Money.SumsExactUpTo | src/modules/wallet/wallet.repository.ts:70 | all sums up to 2^k units are exact if and only if k is at most 38 |
| Money.DifferencesExactUpTo | src/modules/wallet/wallet.repository.ts:79-84 | all differences of amounts up to 2^k units are exact if and only if k is at most 38 |
| Money.ComparisonsExactUpTo | src/modules/wallet/wallet.repository.ts:79-84 | all comparisons of amounts up to 2^k units, and all prints of parsed ones, are exact if and only if k is at most 39 |
| Money.NeverNegative | src/modules/wallet/wallet.repository.ts:70-84 | at every magnitude a sum is non-negative, and so is a difference once the balance check has passed |
| Money.InexactAbove38 | src/modules/wallet/wallet.repository.ts:70-84 | a sum and a difference just above 2^38 units that come out one ten-thousandth off |
| Money.InexactAbove39 | src/modules/wallet/wallet.repository.ts:79-84 | two amounts just above 2^39 units that compare as equal, one of which is printed as the other |
| Conversion.ConversionError | src/modules/wallet/wallet.service.ts:99-101 | the credit differs from the debit times the rate by at most 0.00005*(1+rate) and one rounding, although one is computed from the unrounded input and the other is rounded |
| Conversion.CreditIsTheProduct | src/modules/wallet/wallet.service.ts:101 | the credit is the product of the unrounded amount and the rate, up to one rounding and half a ten-thousandth |
| Conversion.RowDeterminesCredit | src/modules/wallet/wallet.service.ts:99-119 | the stored debit and eight-decimal rate determine the credited amount up to an explicit slack |
| Conversion.ChainAtMost | src/modules/wallet/wallet.service.ts:99-106 | a chain of conversions, each of what the last one credited, yields at most the amount times the product of the rates plus 0.00005 times the sum of the suffix products, roundings included |
| Conversion.RoundTripGain | src/modules/wallet/wallet.service.ts:99-106 | there and back at rates whose product is at most 1 gains at most 0.00005*(1+rate back), up to four roundings |
| Text.TrimSplits | src/modules/wallet/wallet.service.ts:39 | trimming removes the white space at both ends and nothing else |
| Text.TrimIsThePadded | src/modules/wallet/wallet.service.ts:39 | a string has exactly one trimmed form: the trimmed text that it pads with white space |
| Ledger.KeyIsTheText | src/modules/wallet/wallet.service.ts:39-40 | the key is all of the text between surrounding white space; there is none exactly for an absent or blank text |
| Ledger.SameKeyExactly | src/modules/wallet/wallet.service.ts:39-45 | two requests have one key if and only if their texts differ in surrounding white space only, or neither has any |
| Ledger.Find | src/modules/wallet/wallet.repository.ts:51-61 | the row found is the first of its account; nothing is found only if there is none |
| WalletRepository.Repository.constructor | src/modules/wallet/wallet.repository.ts:25-33 | the tables start out empty |
| WalletRepository.Repository.Restore | src/modules/wallet/wallet.service.ts:104-135 | rolling back brings all three tables back |
| WalletRepository.Repository.FindBalance | src/modules/wallet/wallet.repository.ts:51-61 | the lookup finds the row that `Find` describes |
| WalletRepository.Repository.CreateOrGetBalance | src/modules/wallet/wallet.repository.ts:63-72 | a missing row is appended with the amount, an existing one gets the printed sum, all others stay |
| WalletRepository.Repository.DebitBalance | src/modules/wallet/wallet.repository.ts:74-86 | refused with nothing changed if the row is missing or holds less; otherwise that row gets the printed difference |
| WalletRepository.Repository.CreateTransaction | src/modules/wallet/wallet.repository.ts:92-96 | the row is appended unless it has a key that some row, of whatever user, already has |
| WalletRepository.Repository.FindIdempotency | src/modules/wallet/wallet.repository.ts:98-101 | the record of this user and key, if there is one |
| WalletRepository.Repository.SaveIdempotency | src/modules/wallet/wallet.repository.ts:103-107 | the record is stored, overwriting |
| WalletRepository.Repository.GetBalances | src/modules/wallet/wallet.repository.ts:35-41 | the amounts of the user's rows by currency, as `Consistency.ShownExactly` describes them |
| WalletRepository.Repository.EnsureDefaultWallet | src/modules/wallet/wallet.repository.ts:43-49 | an empty naira row is added only if there is none |
| WalletService.Service.GetBalances | src/modules/wallet/wallet.service.ts:21-28 | what is shown is never empty; a user without rows gets exactly one, with zero naira; anyone else changes nothing |
| WalletService.Service.Fund | src/modules/wallet/wallet.service.ts:30-75 | state and answer are those of executing the funding request alone |
| WalletService.Service.Answer | src/modules/wallet/wallet.service.ts:120-129 | the response shows the balances as they are, and is recorded when there is a key |
| WalletService.Service.MoveBetweenCurrencies | src/modules/wallet/wallet.service.ts:104-135 | debit, credit, row and record all happen, or nothing does |
| WalletService.Service.ConvertOrTrade | src/modules/wallet/wallet.service.ts:77-140 | state and answer are those of executing the request alone |
| WalletService.Service.Convert | src/modules/wallet/wallet.service.ts:142-150 | the same for a conversion |
| WalletService.Service.Trade | src/modules/wallet/wallet.service.ts:152-165 | the same for a trade, whose pair must differ and include naira |
| WalletService.Service.Transfer | src/modules/wallet/wallet.service.ts:167-284 | the same for a transfer, to another user or between currencies |
| WalletService.Service.SendToUser | src/modules/wallet/wallet.service.ts:193-235 | debit, credit, both rows and record all happen, or nothing does |
| Consistency.PlansAreWellFormed | src/modules/wallet/wallet.service.ts:179-192 | a request that passes its checks moves non-negative amounts, debits only its own user, and puts its key on its first row and on no other |
| Consistency.TransferReachesItself | src/modules/wallet/wallet.service.ts:185-193 | an accepted request debits and credits one row exactly when it names a recipient whose id differs from the caller's as text and is the same in lower case |
| Consistency.SelfTransferIsAccepted | src/modules/wallet/wallet.service.ts:185-219 | for every other spelling of the caller's id in letter case: the transfer is accepted, with one account on both sides and both ledger rows of the caller |
| Consistency.UpperCaseUuidIsAccepted | src/modules/wallet/dto/transfer.dto.ts:6-8 | a concrete such request: a uuid whose last digit is in upper case |
| Consistency.PlanPairsDiffer | src/modules/wallet/wallet.service.ts:198-219 | the two rows of an accepted transfer are of different users exactly if it is not one to the caller |
| Consistency.RowShown | src/modules/wallet/wallet.repository.ts:35-41 | what a user is shown of an account is what its row holds |
| Consistency.ShownExactly | src/modules/wallet/wallet.repository.ts:35-41 | of each currency a user is shown exactly what the row of that account holds, and nothing of an account without a row or of another user |
| Consistency.CommitKeepsBooks | src/modules/wallet/wallet.service.ts:198-228 | appending rows and a record under an unused key keeps keys unique, records matching keyed rows, and transfers in pairs |
| Consistency.SettleKeepsConsistent | src/modules/wallet/wallet.service.ts:104-130 | one transaction keeps rows unique and non-negative, keys unique, records matching, transfers paired |
| SerialRuns.StepIsSettleOrNothing | src/modules/wallet/wallet.service.ts:104-135 | an operation is carried out entirely or leaves balances, ledger and records untouched |
| SerialRuns.RunsAreConsistent | src/modules/wallet/wallet.service.ts:30-284 | all of that holds after every serial run |
| SerialRuns.RunsKeepRecords | src/modules/wallet/wallet.repository.ts:103-107 | no run changes or drops a stored record, although saving is an upsert |
| SerialRuns.RepeatedRequestReplays | src/modules/wallet/wallet.service.ts:39-71 | a used key of the same user returns the first response, whatever ran since, changes nothing, and shows the balances right after the first commit |
| SerialRuns.SettleIsExact | src/modules/wallet/wallet.service.ts:104-119 | if the rows it changes are in the exact range, a transaction changes every account, and every currency's total, by exactly its debit and credit |
| SerialRuns.RequestMovesWhatItAsks | src/modules/wallet/wallet.service.ts:99-106 | an executed request changes every account by what is read off the request: source, target or recipient, and no other |
| SerialRuns.RefusedExactly | src/modules/wallet/wallet.service.ts:130-135 | if the payer's balance or the amount is at most 2^39 units, a checked request fails for balance exactly when its payer lacks the row or the amount, for its key exactly when another user has used it, and otherwise succeeds; a failure changes nothing |
| Outcomes.ChecksAnswerExactly | src/modules/wallet/wallet.service.ts:167-246 | for every request on any tables, exactly when the answer is an unsupported or same currency, a trade without naira, an unknown recipient, a transfer to oneself or a missing rate, read off the request, the users and the rate; and when a recorded answer comes first |
| Outcomes.SucceedsExactly | src/modules/wallet/wallet.service.ts:77-140 | a request without a recorded answer succeeds if and only if those checks pass, its payer holds the amount and no other user has its key; only then do the tables change |
| Outcomes.ExecutedAnswers | src/modules/wallet/wallet.service.ts:107-129 | with or without a key, an executed request answers with exactly the user's balances in the tables it leaves and the id of its row, and has appended exactly its rows to the ledger |
| SerialRuns.MoneyIsConserved | src/modules/wallet/wallet.service.ts:104-235 | after every serial run each currency's total is what was funded plus what conversions credited minus what they debited; transfers to others leave it alone |
| LedgerReplay.PlansTell | src/modules/wallet/wallet.service.ts:107-119 | the rows an operation appends tell what it moved, up to the slack of its conversion |
| LedgerReplay.LedgerReconstructsBalances | src/modules/wallet/wallet.service.ts:247-265 | after every serial run each balance is the replay of the ledger within the sum of the slacks of the conversions into it |
| LedgerReplay.LedgerIsExactWithoutConversions | src/modules/wallet/wallet.service.ts:198-219 | and exactly the replay if no conversion has credited the account |
| Concurrent.NextKeepsInvariant | src/modules/wallet/wallet.service.ts:104-130 | every step of every operation keeps the invariant: consistent tables, processes that fit them, locks held by one process only |
| Concurrent.ReachableStates | src/modules/wallet/entities/transaction.entity.ts:59 | hence it holds in every reachable state, including that a key is on at most one transaction row |
| ConcurrentSafety.OnlyCommitsMoveMoney | src/modules/wallet/wallet.service.ts:104-130 | nothing but a commit changes the tables, except that a wallet visit adds an empty row |
| Progress.UninterruptedOperation | src/modules/wallet/wallet.service.ts:30-284 | for every request on any tables, its steps with nobody else under way leave exactly the tables of its serial execution, and the process ends committed, replayed, refused or rolled back with exactly its answer |
| Waiting.LockExactly | src/modules/wallet/wallet.repository.ts:56-61 | locking the payer's row is refused exactly if there is none or, when free, too little in it; it waits exactly while another operation has locked or written it; otherwise the operation goes on with the committed amount |
| Waiting.WriteCreditExactly | src/modules/wallet/wallet.repository.ts:63-72 | the credit is refused exactly if it saw no row and one has been committed; it waits exactly while another operation inserts that row or holds the one it saw; otherwise it writes the sum |
| Waiting.InsertExactly | src/modules/wallet/entities/transaction.entity.ts:59 | inserting a row under a key is refused exactly if a committed row has it and waits exactly while another operation has inserted it; otherwise it goes on |
| Waiting.SaveExactly | src/modules/wallet/wallet.repository.ts:103-107 | saving a record waits exactly while another operation of the user has saved one under the key |
| Waiting.AbortEnds | src/modules/wallet/wallet.service.ts:104-135 | a failure at any step rolls back: the tables stay and everything held is free |
| Waiting.RefusedForAReason | src/modules/wallet/wallet.repository.ts:74-85 | over every schedule without such failures, an operation ends with insufficient balance only if at its locked read its payer had no committed row or too little in it, with a duplicate key only if a committed row had its key, and otherwise only if its missing row was committed by another |
| ConcurrentSafety.SchedulesExtend | src/modules/wallet/wallet.repository.ts:92-107 | the ledger only grows at its end, records stay as they are, a commit is final |
| ConcurrentSafety.MoneyMovesOncePerKey | src/modules/wallet/wallet.service.ts:91-130 | in every schedule at most one transaction with a given key commits |
| ConcurrentSafety.LosersDoNotMoveMoney | src/modules/wallet/wallet.service.ts:91-97 | any other request with that key is refused, has not committed, or gets the stored response and belongs to the same user |
| ConcurrentSafety.BalancesStayProper | src/modules/wallet/entities/wallet-balance.entity.ts:13 | in every reachable state, lost updates included: one row per user and currency, no negative balance |
| ConcurrentSafety.RecordsMatchLedger | src/modules/wallet/entities/idempotency-record.entity.ts:10-14 | in every reachable state a record exists exactly when a row with its user and key does, and names that row |
| ConcurrentSafety.RecordsNeverChange | src/modules/wallet/wallet.repository.ts:103-107 | once committed, a record is the same ever after |
| ConcurrentSafety.PairsBalance | src/modules/wallet/wallet.service.ts:198-219 | paired rows have equal totals out and in per currency |
| ConcurrentSafety.PairsDifferExactly | src/modules/wallet/wallet.service.ts:188-219 | over every schedule, all paired rows are of different users if and only if no committed transfer named its caller in another letter case |
| ConcurrentSafety.TransfersPairUp | src/modules/wallet/wallet.service.ts:190-219 | in every reachable state transfer rows pair up one to one with equal amount and currency, so the totals agree; and with different users under exactly that condition |
| ConcurrentSafety.ResponseShowsOwnWrites | src/modules/wallet/wallet.service.ts:120-125 | a committed response shows the committed amounts of the rows its transaction wrote for its own user |
| Refinement.ToItselfIsFresh | src/modules/wallet/wallet.repository.ts:56-71 | a transaction that credits the row it debits reads its own debit under its own lock, and is always fresh |
| Refinement.FreshCommitIsSerial | src/modules/wallet/wallet.repository.ts:65-71 | a commit whose credit is fresh is the serial execution of its request on the committed tables |
| Refinement.StaleCommitIsNotSerial | src/modules/wallet/wallet.repository.ts:65-71 | in the exact range a commit with a stale credit never is |
| Refinement.SerialExactlyWhenFresh | src/modules/wallet/wallet.repository.ts:65-71 | over every schedule in the exact range, commits act serially if and only if every credit is fresh |
| Refinement.FreshSchedulesAreSerial | src/modules/wallet/wallet.repository.ts:56-86 | with fresh credits the balances, the ledger and the records are those of the committed operations run one at a time in commit order |
| Refinement.QuietSchedulesAreSerial | src/modules/wallet/wallet.service.ts:104-130 | the same if no commit writes a row between another credit's read of it and its write |
| Refinement.QuietSchedulesConserveMoney | src/modules/wallet/wallet.service.ts:104-235 | conservation holds in such schedules |
| Drift.CommitTotal | src/modules/wallet/wallet.repository.ts:65-86 | a commit changes a currency's total by what its operation credits and debits, less the movement of the credited row since it was read |
| Drift.MoneyUpToOverwrites | src/modules/wallet/wallet.repository.ts:65-86 | over every schedule in the exact range the total of a currency is the net inflow of the committed operations less all movement that credits wrote over |
| LostUpdate.AnUpdateCanBeLost | src/modules/wallet/wallet.repository.ts:65-71 | a concrete schedule of two fundings that ends with only one of them in the balance |
| FxRates.Selected | src/modules/fx/fx-rates.service.ts:56-61 | the rates kept are exactly those of the supported currencies other than the base, unchanged |
| FxRates.Service.constructor | src/modules/fx/fx-rates.service.ts:25-31 | the cache and the fallback start empty, and the time to live is in milliseconds |
| FxRates.Service.FetchFromApi | src/modules/fx/fx-rates.service.ts:40-68 | the loop builds the selection; a failed reply, or one without rates, yields nothing |
| FxRates.Service.FetchWithRetry | src/modules/fx/fx-rates.service.ts:70-83 | the first success of three attempts, or nothing |
| FxServed.RetriesExactly | src/modules/fx/fx-rates.service.ts:70-83 | the first attempt that brings rates decides, and there is no answer exactly if none does |
| FxRates.Service.GetRates | src/modules/fx/fx-rates.service.ts:85-107 | an unexpired entry unchanged, else the fetched answer, cached and kept as fallback, else the fallback marked stale |
| FxRates.Service.GetRate | src/modules/fx/fx-rates.service.ts:109-117 | 1 for equal currencies without touching the cache; otherwise the rate in that answer, if it is there |
| FxRates.Service.GetRateWithContext | src/modules/fx/fx-rates.service.ts:122-151 | the rate with its staleness, time and base |
| FxSchedules.AnswersAreJustified | src/modules/fx/fx-rates.service.ts:85-107 | in every schedule of overlapping calls a fresh answer was fetched for the base asked, by its own call or less than the time to live ago, and a stale one is an earlier successful fetch |
| FxServed.FetchAnswers | src/modules/fx/fx-rates.service.ts:50-67 | rates that arrive answer their call with exactly the table's rates of the other supported currencies, under the base that the provider names or else the requested one |
| FxServed.FailureAnswers | src/modules/fx/fx-rates.service.ts:101-106 | a call without rates is answered with the last good ones, marked stale, or not at all if there are none |
| FxServed.WaitingWasAsked | src/modules/fx/fx-rates.service.ts:85-87 | a call that waits for the provider started with an earlier request for its base |
| FxServed.FetchedIsServedUntilItExpires | src/modules/fx/fx-rates.service.ts:88-98 | over every schedule, after a successful fetch and while no later one for the base has ended, every request for the base is answered in that very step with the fetched rates, unmarked, until the time to live has passed since the fetching call started; from then on it waits |
| FxServed.FetchedRateIsUsed | src/modules/fx/fx-rates.service.ts:109-151 | as long as that is so, every rate from the base is the fetched one, other currencies have none, equal currencies have rate 1, and both quotes state it without a fee and with the data of the fetch |
| FxSchedules.UninterruptedCall | src/modules/fx/fx-rates.service.ts:85-107 | a call with nothing in between has the effect and the answer of `GetRates` |
| FxSchedules.AnswerFitsWhenItNamesTheBase | src/modules/fx/fx-rates.service.ts:102-117 | if the provider names the base it was asked for, an answer was fetched for the requested base exactly when it names it, as every fresh one does |
| FxSchedules.FallbackIsTheLastFetch | src/modules/fx/fx-rates.service.ts:99-103 | a failed call gets the fetch that finished last, which fits exactly when that fetch was for the same base |
| FxSchedules.FallbackOfAnotherBase | src/modules/fx/fx-rates.service.ts:26 | a concrete schedule in which a request for naira is answered with a rate from dollars |
| FxQuote.EntryStays | src/modules/fx/fx-rates.service.ts:85-100 | in every schedule of rate calls a cache entry stays as it is while no fetch for its base ends |
| FxQuote.QuoteIsExecuted | src/modules/fx/fx-quote.service.ts:13-82 | in every schedule of rate calls, if no fetch for the base ends between a quote and a later conversion, trade or same-user transfer and both come before the entry expires, the quoted send amount, received amount and rate are the debit, the credit and the ledger rate, and both kinds of quote agree |
| Auth.Service.constructor | src/modules/auth/auth.service.ts:23-28 | the service starts from the users it is given |
| Auth.Service.ActivateAccount | src/modules/auth/auth.service.ts:41-49 | activates, unlocks and resets the count of that user only |
| Lockout.ActivationStartsAfresh | src/modules/auth/auth.service.ts:41-49 | after it the correct password is admitted at once and no failure is counted |
| Auth.Service.DeactivateAccount | src/modules/auth/auth.service.ts:52-59 | deactivates and locks that user for a year |
| Auth.Service.CheckLockedStatus | src/modules/auth/auth.service.ts:62-73 | true exactly while an unexpired lock is on; an expired one is removed with its count |
| Auth.Service.IncreaseLoginLimit | src/modules/auth/auth.service.ts:76-86 | counts one failure from the row as read, and locks for half an hour at the fifth |
| Auth.Service.Validate | src/modules/auth/strategies/local.strategy.ts:20-36 | accepted exactly if the user exists, is active and not locked after the lock check, and the password matches; the row afterwards is that of the attempt |
| Auth.Service.Login | src/modules/auth/auth.service.ts:152-172 | the token carries the version of the row as read; only the last-login time changes |
| Auth.Service.VerifyOtp | src/modules/auth/auth.service.ts:126-150 | verified exactly if a code of the kind is stored and unexpired, and the submitted text is that code in either case of the letters a to z with white space around it; then the code is used up and the account active, otherwise nothing changes |
| Lockout.CodeIsUsedUp | src/modules/auth/auth.service.ts:141-147 | an accepted code is removed and activates the account, whose lock stays; any other changes nothing |
| Lockout.CodeIsAcceptedOnce | src/modules/auth/auth.service.ts:131-147 | over every run an issued code is accepted at most once |
| Auth.Service.Logout | src/modules/auth/auth.service.ts:174-181 | executed alone, raises that user's version by one |
| Lockout.NextKeepsInvariant | src/modules/auth/auth.service.ts:62-86 | every event keeps the lock state consistent and six wrong passwords more than half an hour apart |
| Lockout.RunsKeepInvariant | src/modules/auth/strategies/local.strategy.ts:25-33 | after every run: a lock has an expiry, an unlocked account has fewer than five counted failures, none has more than five |
| Lockout.WrongPasswordsAreBounded | src/modules/auth/auth.service.ts:62-86 | over every run the wrong passwords compared within a span number at most 5*(floor(span / 30 minutes) + 1) |
| Lockout.FiveAtOnce | src/modules/auth/auth.service.ts:76-86 | the bound is reached: five wrong passwords at one time are all compared, and the fifth locks |
| Lockout.LockedByTheLastFailure | src/modules/auth/auth.service.ts:76-86 | over every run without deactivation from an unlocked account, a lock ends half an hour after the last wrong password was counted |
| Lockout.CorrectPasswordAdmitted | src/modules/auth/strategies/local.strategy.ts:25-35 | hence an attempt more than half an hour after the last failure reaches the comparison exactly if the account is active; and while the account is locked, none before |
| Lockout.DeactivationLocksForAYear | src/modules/auth/auth.service.ts:52-73 | with events one at a time, whatever happens to an account within a year of its deactivation, it stays locked and no password is compared |
| Lockout.InactiveUntilVerified | src/modules/auth/auth.service.ts:52-59 | after a deactivation no password is compared, within the year or later, until a one-time password is accepted |
| Lockout.OnlyLogoutsRaise | src/modules/auth/auth.service.ts:174-178 | of the events of an account only a logout touches its token version |
| DeactivationRaces.DeactivationStandsExactly | src/modules/auth/auth.service.ts:52-86 | over every schedule of overlapping attempts, the lock of a deactivation stands for the year and no wrong password is compared, whatever follows, if and only if every attempt under way at that moment is harmless; none under way is |
| DeactivationRaces.AnAttemptCutsTheYear | src/modules/auth/auth.service.ts:76-86 | a concrete schedule in which a failure counted after a deactivation leaves a lock of half an hour, after which the account admits the correct password |
| Lockout.VerifiedButLocked | src/modules/auth/auth.service.ts:52-59 | an account deactivated and then verified by one-time password, with nothing else under way, is active and admits the correct password only after that year |
| LoginRaces.UninterruptedAttempt | src/modules/auth/strategies/local.strategy.ts:20-36 | the steps of an attempt with nothing in between are the attempt of the service |
| LoginRaces.NextLiftsFew | src/modules/auth/auth.service.ts:62-73 | within half an hour locks are lifted at most as often as attempts were under way when the first one was |
| LoginRaces.NextKeepsMetered | src/modules/auth/auth.service.ts:76-86 | each time the stored count becomes some number, at most as many attempts read it as may overlap, and each of them writes the next number once |
| LoginRaces.OverlappingWrongPasswordsAreBounded | src/modules/auth/strategies/local.strategy.ts:20-36 | over every schedule with at most m attempts under way at a time, the wrong passwords compared within a span number at most a number that depends on m alone, for every started half hour |
| LoginRaces.ReadsPolynomial | src/modules/auth/auth.service.ts:76-86 | that number is 5m + 5m^2 + 4m^3 + 3m^4 + 2m^5 + m^6 |
| FivePerHalfHour.OneAtATimeFiveIsABound | src/modules/auth/strategies/local.strategy.ts:20-36 | over every schedule of attempts one at a time, with no deactivation inside one, the wrong passwords compared within a span number at most five for every started half hour |
| FivePerHalfHour.TwoOverlappingExceedFive | src/modules/auth/auth.service.ts:76-86 | a schedule with two attempts under way at a time that compares six wrong passwords at once |
| FivePerHalfHour.InterruptedExceedsFive | src/modules/auth/strategies/local.strategy.ts:25-33 | a schedule of attempts one at a time, one of them interrupted by a deactivation, that compares six within a millisecond |
| FivePerHalfHour.FiveExactlyWhenOneAtATime | src/modules/auth/auth.service.ts:62-86 | five for every started half hour is a bound over all schedules if and only if attempts come one at a time and no deactivation falls into one |
| LoginRaces.AnyNumberAtOnce | src/modules/auth/strategies/local.strategy.ts:25-33 | any number of overlapping attempts compare a wrong password at once without locking the account |
| TokenLife.ReadsWereCurrent | src/modules/auth/auth.service.ts:155-161 | over every schedule, whatever a token, a request or a logout under way claims as the version was current at some point before |
| TokenLife.TokenLivesUntilItsVersionIsLeft | src/modules/auth/strategies/jwt.strategy.ts:29-51 | while no logout is behind, a token is accepted for an active user exactly as long as the version has not changed since it was read for that token |
| TokenLife.NeverReturnsExactlyWhenNoneBehind | src/modules/auth/auth.service.ts:174-178 | over every schedule a version once left never becomes current again if and only if no logout is behind |
| Tokens.NeverDecreaseExactlyWhenNoneBehind | src/modules/auth/auth.service.ts:174-178 | over every schedule versions never decrease if and only if no logout ends after others have raised the version past the one it writes |
| Tokens.NoOverlapMeansNoneBehind | src/modules/auth/auth.service.ts:174-178 | which never happens if the logouts of one user do not overlap |
| Tokens.UninterruptedLogout | src/modules/auth/auth.service.ts:174-181 | a logout with nothing in between is `Logout`: that user's version rises by one, nothing else changes |
| Tokens.UninterruptedLogin | src/modules/auth/auth.service.ts:152-161 | a login with nothing in between issues a token of the current version that is accepted |
| Tokens.UninterruptedRefresh | src/modules/auth/auth.controller.ts:89-98 | a refresh with nothing in between answers an accepted token with one that is accepted |
| Tokens.RefreshedHasTimeLeft | src/modules/auth/token.service.ts:67-85 | a token with at most five hours left is replaced and one with more, or without an expiry, is kept; so the answer has more than five hours left if fresh tokens do |
| Tokens.DescendantsClaimTheSame | src/modules/auth/auth.controller.ts:89-98 | a token refreshed from another, in any number of steps, is for the same user and version |
| Tokens.LogoutRaises | src/modules/auth/auth.service.ts:174-178 | after a logout the version exceeds the one it read, and without overlap the one it replaced |
| Tokens.LogoutKillsTokens | src/modules/auth/auth.service.ts:174-180 | no token issued before a logout began, nor any refreshed from one, is accepted after it ended; without overlap this includes tokens issued while it was under way |
| Tokens.LogoutKillsRequestsUnderWay | src/modules/auth/token.service.ts:78-85 | nor one that a request signs later with what it had read by then |
| TokenRevival.ATokenCanRevive | src/modules/auth/auth.service.ts:174-178 | a concrete schedule of three overlapping logouts after which a token that was refused is accepted |
| Paging.RepositoryKeepsParsed | src/modules/wallet/wallet.repository.ts:110-112 | the repository's clamping leaves a parsed page and limit alone, and these are at least 1 and at most 100 |
| Paging.ParsedExactly | src/common/query/parse-list-query.util.ts:53-57 | pages from 1 and limits from 1 to 100 are kept, others moved to the nearer end, and a missing number or 0 is page 1 or 25 items |
| Paging.RepositoryExactly | src/modules/wallet/wallet.repository.ts:110-112 | the repository's own clamping, with 20 items where no limit is given |
| Paging.BuildListResult | src/common/query/typeorm-list.helper.ts:25-46 | for the items of a page of a list, there is a next page exactly if items remain after these, and then the page is full; there is a previous one exactly after page 1 |
| Paging.FollowIsTheRest | src/common/query/typeorm-list.helper.ts:30-35 | following `next` from a page yields everything from that page's start on |
| Paging.FollowingVisitsEverything | src/common/query/typeorm-list.helper.ts:6-35 | from page 1 it ends and visits every item exactly once, in order |
| Paging.Links | src/common/query/typeorm-list.helper.ts:30-38 | there is a next page exactly if items remain, and a previous one exactly after page 1 |
| Paging.PrevInvertsNext | src/common/query/typeorm-list.helper.ts:33-38 | the previous page of the next is this one; the next of the previous is this one exactly when this page starts within the result |

## Left out

- Money.Fl: rounds to 53 bits without limits on the exponent, so overflow, subnormal numbers and NaN are not modelled; nor are `toFixed` from 10^21 on and the width of the decimal columns.
- Auth.Service.VerifyOtp: upper case is that of the letters a to z; generated codes have no others, but a caller may submit characters whose upper case JavaScript takes from the whole of Unicode.
- Auth.Service.Validate: one attempt executed alone; overlapping attempts are in `LoginRaces` and `FivePerHalfHour`. None of these includes `activateAccount`, which no route calls.
- Refinement.QuietSchedulesAreSerial: compares balances, ledger rows and records with their transaction ids, and not the balance snapshots inside the stored responses, which are read under read committed; `ConcurrentSafety.ResponseShowsOwnWrites` says which part of them is right.
- Concurrent.Next: a commit, an abort and the opening of a default wallet are one action each; the rate and the recipient are looked up when the request arrives; no liveness is claimed.
- Strings of amounts: a stored amount is an integer of ten-thousandths, and its digits are not modelled.
- The order of the balances in a response (a map from currency to amount), the delivery estimate (a flag), the status column, which is always "success", and timestamps.
- Generated identifiers are inputs; collisions are not excluded, and no result needs them to be.
- Saving an unchanged row, and TypeORM's reads before a save, are taken as a write of that row.
- Password hashing, token signatures and expiry, and the randomness of one-time passwords; registration and the format checks of email and password.
- Filters and user-chosen sort columns of lists: paging is over one fixed order.
- The KYC workflow, role guards, audit log, email jobs, profile caches, rate limits and the HTTP layer: they read or write none of the state modelled here, except that they decide which callers reach an operation at all.
- Deletion of users: no route deletes one.
