# Specto: verified core

A Dafny model of the parts of Specto where correctness is not visible in one function: money
transfers, the SIMD status counter, signed session tokens, the Redis rate limiter with the sessions and
the balance cache beside it, the middleware stack, the BoltDB stores, and the rules of the task API.

`dafny verify dfyconfig.toml` checks everything.

## How it is laid out

| files | what they model |
|---|---|
| `int64`, `wrappers`, `bytes`, `sums` | Go integers with their wrap-around, Option and Result, bytes, sums over maps |
| `banking` | accounts, ledger rows and the rules of one transfer |
| `bank_steps`, `bank_aborts`, `bank_runs`, `bank_solvency`, `bank_overlap` | transfers interleaved statement by statement under Read Committed, with row locks, aborts and commits |
| `statements`, `bank_service` | account statements; the repositories, `RunInTx` and the service as objects over tables with a transaction's copy |
| `status_count` | `count_amd64.s` on explicit registers and lanes, and `count_generic.go` |
| `decimal`, `base64url`, `token` | printing and parsing numbers, base64url, `sign` and `verify` |
| `redis`, `shared_redis`, `rate_limit`, `rate_minute`, `redis_clients`, `rate_lifetime` | the Redis commands, one history shared by all users of Redis, the limiter's bounds per window and per rolling minute, the methods that issue the commands, and the lifetime of the counters |
| `response_writers`, `middleware` | nested response writers, panics, and the assembled middleware stack |
| `bolt`, `audit_log`, `task_repo` | byte-ordered buckets, the append-only audit log, `BoltTaskRepo` |
| `tasks`, `task_service`, `task_steps`, `task_server`, `task_stats` | validation, task requests over serial runs, the same interleaved statement by statement, the objects that serve them, statistics |

Operations that only compute are functions (`Banking.Execute`, `BankSteps.Step`, `Token.Verify`,
`SharedRedis.Step`, `MiddlewareStack.Serve`, `TaskService.Handle`); code that changes state is a class whose
methods are proved equal to those functions; the lemmas are about the functions, over all inputs and runs.

## What the code does not promise

These are results about the code as it is, each with the exact condition:

- `-amount` wraps on -2^63. Such a transfer can go through, and then 2^64 is lost
  (`Banking.OvernegatedTransferGoesThrough`); totals are conserved if and only if none is committed
  (`BankRuns.Conservation`).
- The service does not require a positive amount; the front end does. Solvency results say where they need it,
  and `Banking.ExecuteKeepsSolvent` says exactly when a single transfer keeps everyone solvent.
- What a user is told does not depend on the balances of other people's accounts, except that a credit which does not
  fit a bigint is an error (`Banking.AnswersHideBalances`, `Banking.OverflowIsTold`).
- The funds check reads without a lock, so overlapping transfers of one sender can overdraw the account
  (`BankOverlap.OverlapSpendsTwice`), a payment submitted twice included. Any number of acceptable transfers of
  any amounts, with credits that fit, is safe in all interleavings if and only if each account covers all that is
  taken from it (`BankOverlap.SafeIffCovered`).
- `GetByAccountID` does not look at `rows.Err()`, so a cursor that breaks off gives a short statement without
  an error; a result is the whole statement if and only if every row was delivered
  (`BankService.PgTransferRepo.GetByAccountID`).
- The recorder keeps the first code of any kind. If it is informational (1xx other than 101) or no status at
  all, the audit record differs from the status the client gets (`MiddlewareStack.AuditAgreesWithClient`).
- `RedisRateLimit` is described as a rolling bucket; the code counts in fixed windows, and the model follows the
  code. Sixty seconds keep the limit on all runs without errors if and only if they lie in one window, that is,
  start at a full minute (`RateMinute.RollingLimitIffOneWindow`); otherwise some run admits exactly twice the limit
  (`RateMinute.TwiceTheLimit`), and none more (`RateLimit.AnyMinuteBound`).
- A rate counter lives two minutes from its first increment, if that call saw its count and its EXPIRE was applied;
  otherwise, and only then, it stays in Redis for good (`RateLifetime.LivesForeverIffNotExpired`).
- A counter that is to expire is never lost while its window is in use if and only
  if no call takes longer than 60.001 s, or 1.001 s in bucket 0, which is almost two minutes long
  (`RateLimit.NeverDroppedIffCallsAreShort`, `RateLimit.TimeoutsAreShort`).
- No transaction spans the statements of a task request. A task can be deleted between the last read and the write
  of an update, which is then answered 200 (`TaskSteps.UpdateOfDeletedRow`); a success is answered as if the request
  had been handled at once if and only if its row is still there (`TaskSteps.NextStatementIsOk`).
- A status outside the three allowed ones is counted as pending (`TaskStats.ComputeStats`).

## Assumptions

- PostgreSQL: Read Committed with row locks held to the end of the transaction; bigint overflow fails the
  statement; accounts are never deleted. Runs start from any database without open transactions, with any balances.
- Redis: commands take effect one after another under one millisecond clock; a call whose reply is seen took at
  most a timeout, which is a parameter: 200 ms where the client enforces the context's deadline, else its 3 s socket
  timeouts; a call is applied at most once, although the client library repeats a command whose
  connection broke; a call that failed may have been applied, at any later time.
- The MAC, the JSON codecs and the clock are parameters; unmarshalling inverts marshalling.
- net/http connections: the first final header counts, other 1xx codes are announced only, a code outside
  100 to 999 panics while no header was sent, and a silent handler sends 200.
- Slices are no longer than an int and lie inside the address space; fewer than 2^64 entries are ever appended to
  the audit log.

## Model

| member | source | states |
|---|---|---|
| `BankRuns.LedgerAgreement` | backend/internal/service/banking_service.go:66-97 | On every interleaving of any number of transfers, aborts and account openings, the change of each balance is what the ledger rows committed since say, less 2^64 for every committed amount of -2^63 the account sent. |
| `BankRuns.Conservation` | backend/internal/service/banking_service.go:66-74 | On every interleaving the total of a currency is unchanged if and only if no amount of -2^63 was committed in it. |
| `BankRuns.BooksBalance` | backend/internal/database/banking_postgres.go:63-70 | When no request asks for -2^63, balances equal opening plus incoming minus outgoing and no total ever changes, on every interleaving. |
| `BankRuns.NothingNewOvernegated` | backend/internal/service/banking_service.go:89-96 | Committed rows come from begun requests: if none of those asks for -2^63, no such row is committed. |
| `BankRuns.RunKeepsBooks` | backend/internal/database/tx.go:45-62 | The ledger only grows, and the books and the lock discipline hold after every prefix of every run. |
| `BankRuns.StepKeepsBooks` | backend/internal/service/banking_service.go:66-97 | One statement of one transfer keeps every account and every total in agreement with the ledger. |
| `BankRuns.CommitMeaning` | backend/internal/database/tx.go:58-61 | A commit adds to each balance, as it is now and not as it was read, exactly what the transfer moves; owner and currency stay. |
| `BankRuns.CommitTotal` | backend/internal/service/banking_service.go:66-74 | A commit keeps the total of every currency except for the 2^64 lost on the amount -2^63. |
| `BankRuns.OtherStepsAreInvisible` | backend/internal/database/tx.go:53-56 | Nothing but a commit changes a committed balance or the ledger, and a new account opens empty. |
| `BankAborts.AbortUndoes` | backend/internal/database/tx.go:53-60 | A transaction aborted at any point before its commit leaves exactly the state of before, its row locks included. |
| `BankAborts.AbortIsFinal` | backend/internal/database/tx.go:53-60 | After an abort no statement of the transaction runs any more and nothing of it is committed, in any continuation. |
| `BankAborts.AbortReleasesLocks` | backend/internal/database/tx.go:53-60 | A debit that waits for a row of the aborted transaction is executed at its next try. |
| `BankSteps.StepKeepsInv` | backend/internal/database/banking_postgres.go:63-70 | Row locks are exclusive, and the pending balances of every open transaction are its own changes on top of what is committed now. |
| `BankSteps.DebitMeaning` | backend/internal/database/banking_postgres.go:63-70 | The debit waits while another transaction holds the sender's row; then it takes the amount off the balance committed by now, or, when the result is no bigint, ends the transaction. |
| `BankSteps.CreditMeaning` | backend/internal/database/banking_postgres.go:63-70 | The credit waits likewise for the receiver's row and adds to the balance committed by now and, in a self-transfer, to its own debit, or ends the transaction. |
| `BankSteps.UpdateKeepsInv` | backend/internal/database/banking_postgres.go:63-70 | Whichever way it ends, locks stay exclusive and pending balances right. |
| `BankSteps.CommitKeepsInv` | backend/internal/database/tx.go:58-61 | Publishing one transaction leaves the pending balances of all others right. |
| `BankSolvency.SolvencyWithoutOverlap` | backend/internal/service/banking_service.go:43-64 | With positive amounts, if no two transfers of one sender overlap between funds check and end, self-transfers aside, every committed balance stays non-negative, whatever credits land in between. |
| `BankSolvency.SolvencyWithRoom` | backend/internal/service/banking_service.go:48-53 | More generally: if each funds check also leaves room for what is already reserved on the account, every balance stays non-negative. |
| `BankSolvency.SolvencyWithinMeans` | backend/internal/service/banking_service.go:51-53 | With no condition on order or amounts: when every account covers all that the transfers of a run are to take from it, a negative amount taking from the receiver, no interleaving takes it into the red. |
| `BankSolvency.NoOverlapLeavesRoom` | backend/internal/service/banking_service.go:48-53 | A run without overlap is one whose funds checks leave room. |
| `BankSolvency.NextStatementKeepsCovered` | backend/internal/service/banking_service.go:80-97 | Every statement keeps each account able to pay what is reserved on it. |
| `BankSolvency.StepPaysClaims` | backend/internal/service/banking_service.go:66-74 | No step takes more from an account than it takes off the claims on it. |
| `BankOverlap.SoloExecutes` | backend/internal/service/banking_service.go:80-97 | A transfer that meets no lock, run statement by statement, does exactly what the sequential rules say or leaves no trace. |
| `BankOverlap.OverlapSpendsTwice` | backend/internal/service/banking_service.go:51-53 | Two transfers from one account, to one receiver or to two, whose funds checks overlap both go through, so the account stays solvent if and only if it covers both: the check alone does not prevent an overdraft. |
| `BankOverlap.SafeIffCovered` | backend/internal/service/banking_service.go:43-74 | Any number of acceptable transfers of any int64 amounts between any accounts, with credits that fit: every interleaving keeps everyone solvent if and only if each account covers the sum of what is taken from it. |
| `BankOverlap.AllGoThrough` | backend/internal/service/banking_service.go:76-103 | Transfers that are acceptable one by one can all go through in one run, whatever they add up to: the balances change by their sums, and the ledger grows by exactly their rows, each once. |
| `BankOverlap.OverdrawingPart` | backend/internal/service/banking_service.go:51-53 | Requests that together take more than a balance have a smallest part that still does: without any one of it the balance would do, so the excess is at most any amount of the part. |
| `BankOverlap.FinishSettles` | backend/internal/service/banking_service.go:66-97 | From validation on, the remaining statements move the funds and add the row, or undo everything when a balance does not fit. |
| `Banking.ExecuteMeaning` | backend/internal/service/banking_service.go:43-74 | A transfer goes through if and only if owner, funds and currency check out and both updates fit a bigint, and then only the two named balances change, a self-transfer netting to zero. |
| `Banking.ErrorMeaning` | backend/internal/service/banking_service.go:43-64 | Each error is the answer if and only if its own condition on the rows holds: whoever does not own the account is told so, whatever its balance and the amount; then come funds, receiver, currency and range. |
| `Banking.AnswersHideBalances` | backend/internal/service/banking_service.go:48-53 | Two databases that differ only in balances of accounts the user does not own answer his request alike, if and only if an acceptable transfer fits both or neither. |
| `Banking.OverflowIsTold` | backend/internal/database/banking_postgres.go:63-70 | The exception: a payment of 1 tells a receiver at the top of bigint from an empty one. |
| `Banking.ExecuteConserves` | backend/internal/service/banking_service.go:66-74 | A transfer that goes through keeps the total of its currency unless its amount is -2^63, which loses 2^64. |
| `Banking.ExecuteKeepsSolvent` | backend/internal/service/banking_service.go:51-53 | A transfer that goes through leaves everyone solvent if and only if the receiver bears the amount too, as with every amount that is not negative. |
| `Banking.OvernegatedTransferGoesThrough` | backend/internal/service/banking_service.go:67-67 | The wrapped negation is real: between two empty accounts the amount -2^63 passes all checks and both end at -2^63. |
| `Int64.NegIsExactExceptOnMin` | backend/internal/service/banking_service.go:67-67 | Go's unary minus is exact except on the smallest int64. |
| `BankService.BankingService.Transfer` | backend/internal/service/banking_service.go:76-103 | All or nothing: success exactly when no statement fails and the rules accept, then two balances and one row with the request's fields change; on an error accounts and ledger are as before, and the error is that of the failed statement or the first rule the rows break. |
| `BankService.BankingService.TransferInTx` | backend/internal/service/banking_service.go:80-97 | Inside the transaction every statement works on the context's transaction: the committed tables are outside its frame. |
| `BankService.BankingService.LoadAndValidateTransferAccounts` | backend/internal/service/banking_service.go:43-64 | Both accounts as read, or the first read or check that fails, in the order of the source. |
| `BankService.BankingService.ApplyTransferBalances` | backend/internal/service/banking_service.go:66-74 | Debit, then credit on top of it, or the error of the first that fails, with nothing or the debit alone written. |
| `BankService.PgAccountRepo.GetByID` | backend/internal/database/banking_postgres.go:28-39 | The row as the executor of the context sees it. |
| `BankService.PgAccountRepo.UpdateBalance` | backend/internal/database/banking_postgres.go:63-70 | A relative update: out of range is an error, no matching row is none, an error changes nothing. |
| `BankService.PgTransferRepo.Create` | backend/internal/database/banking_postgres.go:80-88 | Adds exactly the row, unless the statement fails or an account does not exist. |
| `BankService.PgTransferRepo.GetByAccountID` | backend/internal/database/banking_postgres.go:90-111 | An error when the query or the reading of a row fails, else the rows delivered, all of them naming the account; every such row of the ledger, as often as it is there, if and only if none was left behind; a cursor that breaks off is returned short without an error. |
| `Statements.StatementsReconcile` | backend/internal/database/banking_postgres.go:90-111 | Over any interleaving, adding up the account's rows, in any order and with a self-transfer listed once, gives its balance change less 2^64 for every new debit of -2^63, hence the balance change itself if and only if the later statement lists no such debit more. |
| `Statements.StatementsMatch` | backend/internal/database/banking_postgres.go:90-111 | Without requests for -2^63, the difference between two statements is the balance change. |
| `Statements.StatementRows` | backend/internal/database/banking_postgres.go:93-95 | A listing holds the ledger's rows that name the account as sender or receiver, each as often as the ledger does and a self-transfer once, and no row of anybody else. |
| `Statements.StatementAddsUp` | backend/internal/database/banking_postgres.go:93-95 | Any listing of the rows naming an account adds up to the account's net effect in the whole ledger, and lists all its debits of -2^63. |
| `Statements.NetOfPermutation` | backend/internal/database/banking_postgres.go:95-95 | Neither the sum of the effects nor the number of debits of -2^63 depends on the order the query returns. |
| `StatusCount.CountStatusesAmd64` | backend/internal/service/count_amd64.s:10-98 | For every slice the assembly returns the same three counts as the portable loop; every load stays inside the slice and both loops end. |
| `StatusCount.SimdLoop` | backend/internal/service/count_amd64.s:32-63 | The 16-byte loop: pointer and length stay in step, the accumulators count the bytes passed, fewer than 16 are left. |
| `StatusCount.ScalarLoop` | backend/internal/service/count_amd64.s:65-92 | The scalar tail counts what is left. |
| `StatusCount.ComparisonVectors` | backend/internal/service/count_amd64.s:19-30 | Self-xor, self-compare and wrapping byte arithmetic give vectors of zeros, ones and twos, whatever the registers held. |
| `StatusCount.BlockCount` | backend/internal/service/count_amd64.s:37-58 | Compare, mask, popcount and add bring an accumulator to the count of sixteen bytes more. |
| `StatusCount.CompareMaskCount` | backend/internal/service/count_amd64.s:40-43 | The population count of the sign-bit mask of a lane-wise comparison is the number of equal lanes. |
| `StatusCount.PointersMove` | backend/internal/service/count_amd64.s:60-62 | Advancing pointer and length by k keeps pointer + length at the end of the slice, also when that is the end of the address space. |
| `StatusCount.CountStatusesGeneric` | backend/internal/service/count_generic.go:8-20 | The portable loop counts the bytes 0, 1 and 2. |
| `Token.VerifySign` | backend/internal/web/auth.go:156-204 | Round trip for every int64 user and every representable expiry: verify returns the user exactly while now is not after the expiry's whole second, in seconds and nanoseconds, else it is expired. |
| `Token.AcceptanceWindow` | backend/internal/web/auth.go:199-203 | Never accepted after its expiry, always accepted while a full second is left. |
| `Token.SignatureBindsPayload` | backend/internal/web/auth.go:180-183 | With the signature of an issued token, that token's payload is accepted as its user until its expiry, and whoever gets another payload accepted has found one with the same MAC. |
| `Token.AcceptedTokens` | backend/internal/web/auth.go:164-204 | A token is accepted as a user if and only if it is two encodings joined by one dot, the second of the first's MAC, around that user's number and an expiry joined by one colon, the expiry not passed. |
| `Token.TokensAreAccepted` | backend/internal/web/auth.go:164-204 | In whatever spelling the decoders allow, such a token names its user until its expiry and is expired from then on. |
| `Token.ForgedTokens` | backend/internal/web/auth.go:180-183 | A signature that does not match is reported whatever the payload says. |
| `Token.VerifySplits` | backend/internal/web/auth.go:165-183 | The split at the dot recovers exactly the two parts that were joined. |
| `Token.VerifyPayloadFields` | backend/internal/web/auth.go:185-203 | The split at the colon recovers user and expiry. |
| `Token.FromUnixOfUnix` | backend/internal/web/auth.go:157-157 | The int64 wraps of Unix and time.Unix cancel on every Time. |
| `Token.SplitTwo` | backend/internal/web/auth.go:165-165 | strings.Split inverts a join when neither part holds the separator. |
| `Token.SplitParts` | backend/internal/web/auth.go:185-185 | When strings.Split gives two parts they are what lies left and right of the only separator. |
| `Base64Url.DecodeEncode` | backend/internal/web/auth.go:158-175 | Unpadded base64url decoding inverts encoding on all byte strings. |
| `Base64Url.CharsAreAlphabet` | backend/internal/web/auth.go:158-158 | The 64 characters are those of table 2 in section 5 of RFC 4648. |
| `Base64Url.PackGroups` | backend/internal/web/auth.go:158-160 | Each group of three bytes is a 24-bit number cut into four characters (section 4 of RFC 4648). |
| `Base64Url.PackTail` | backend/internal/web/auth.go:158-160 | One or two bytes at the end become two or three characters, filled up with zero bits. |
| `Base64Url.DecodeMeaning` | backend/internal/web/auth.go:170-178 | A text decodes to the bytes whose encoding it is once line breaks are dropped and unused bits cleared. |
| `Base64Url.EncodingHasNoDot` | backend/internal/web/auth.go:161-165 | No encoding contains the dot that joins the token. |
| `Base64Url.DecodeDomain` | backend/internal/web/auth.go:170-178 | A text decodes if and only if it holds only alphabet characters and line breaks and no single character is left over. |
| `Base64Url.EncodeDecode` | backend/internal/web/auth.go:170-178 | Decoding is not injective: re-encoding gives the text back if and only if it had no line break and its unused bits are zero. |
| `Decimal.ParseFormat` | backend/internal/web/auth.go:190-195 | Parsing inverts decimal printing on every int64. |
| `Decimal.ParseIntMeaning` | backend/internal/web/auth.go:190-197 | A text parses if and only if it is an optional sign and at least one digit whose place value fits an int64, and that is the result. |
| `Decimal.FormatParse` | backend/internal/web/auth.go:157-157 | Among the texts that parse, printing gives the text back if and only if it has no plus, no leading zero and is not minus zero. |
| `Decimal.FormatInt` | backend/internal/web/auth.go:157-157 | Printed numbers are non-empty and hold only digits and a minus, so no colon. |
| `SharedRedis.RateKeyInjective` | backend/internal/web/middleware.go:145-149 | Client and bucket can be recovered from the key, also when the address contains colons. |
| `SharedRedis.KeysOfOtherKinds` | backend/internal/web/auth.go:220-222 | Rate, session and balance keys never coincide. |
| `SharedRedis.BalanceKeyInjective` | backend/internal/database/balance_cache.go:63-65 | Different accounts have different cache keys. |
| `SharedRedis.SessionKeyInjective` | backend/internal/web/auth.go:220-222 | Different sessions have different keys. |
| `SharedRedis.StepTouchesOneKey` | backend/internal/web/middleware.go:151-168 | Every command of the limiter, the sessions or the cache leaves all keys but its own alone. |
| `SharedRedis.BalanceView` | backend/internal/database/balance_cache.go:22-65 | After any shared run a hit is the last balance put that is neither invalidated nor expired, for every int64. |
| `SharedRedis.SessionView` | backend/internal/web/auth.go:64-154 | After any shared run a session names the user it was issued for until it is revoked or runs out. |
| `RateLimit.AdmissionBound` | backend/internal/web/middleware.go:121-172 | Of n calls of a client in a minute exactly min(n, perMinute) are admitted without errors, in any order at Redis, and at most perMinute + e with e errors. |
| `RateLimit.AnyMinuteBound` | backend/internal/web/middleware.go:121-149 | Any sixty seconds admit at most twice the limit, plus the errors. |
| `RateMinute.RollingLimitIffOneWindow` | backend/internal/web/middleware.go:119-149 | Sixty seconds admit no more than the limit on every run without errors if and only if they lie in one window; since 1970, if and only if they start at a full minute. |
| `RateMinute.TwiceTheLimit` | backend/internal/web/middleware.go:121-149 | From every other start there is a run without errors that admits exactly twice the limit: a burst at the end of a window and one as the next begins. |
| `RateMinute.Burst` | backend/internal/web/middleware.go:121-172 | Calls at one instant, within the limit and alone in their bucket, are all admitted. |
| `RateMinute.ServedCallsCount` | backend/internal/web/middleware.go:151-168 | A run whose commands succeed and whose replies are seen has no errors: its counter is the number of its calls. |
| `RateLimit.ExpiringCounterAgrees` | backend/internal/web/middleware.go:151-168 | A reply that is seen equals a counter that never expires, whether Expire worked, failed or came late. |
| `RateLimit.RunKeepsCounter` | backend/internal/web/middleware.go:151-168 | On every run the stored counter counts the applied calls and outlives its window, for every timeout up to the bound. |
| `RateLimit.StepKeepsCounter` | backend/internal/web/middleware.go:155-165 | One command on the shared store keeps a counter in step with its window. |
| `RateLimit.NeverDroppedIffCallsAreShort` | backend/internal/web/middleware.go:151-165 | Over all runs from an empty store, every reply seen is the true count of its window if and only if no call takes longer than the counter outlives the window. |
| `RateLimit.LateCallIsMiscounted` | backend/internal/web/middleware.go:160-165 | Past that bound, two calls at the ends of a window show the loss: the second is counted as a first one. |
| `RateLimit.TimeoutsAreShort` | backend/internal/web/middleware.go:151-161 | The bound is 60.001 s, so it admits the 200 ms deadline and the 3 s socket timeouts; bucket 0 with its truncating division has 1.001 s. |
| `RateLimit.WindowBounds` | backend/internal/web/middleware.go:147-147 | A bucket's clock readings lie between its first and last millisecond. |
| `RateLimit.OneMinuteMeetsTwoBuckets` | backend/internal/web/middleware.go:147-147 | Sixty seconds meet at most two buckets. |
| `RateLimit.SpanWithinTwoBuckets` | backend/internal/web/middleware.go:145-149 | What sixty seconds admit was admitted in those two buckets. |
| `RedisClients.RateLimiter.IncrementRateCounter` | backend/internal/web/middleware.go:151-168 | Only the client's key changes: its value is the count returned; a count of 1 whose EXPIRE is applied gets a deadline two minutes from now, a higher count leaves the deadline as it was, an error sets none. |
| `RateLifetime.CounterLifetime` | backend/internal/web/middleware.go:155-165 | Over any sequence of calls a counter's deadline is two minutes after its first increment, if that call saw its count and its EXPIRE was applied, else it has none; no later call moves it. |
| `RateLifetime.NoCounterOutlives` | backend/internal/web/middleware.go:161-165 | With no failed EXPIRE and no lost reply a counter is there until two minutes after its first increment, and not a moment longer. |
| `RateLifetime.LivesForeverIffNotExpired` | backend/internal/web/middleware.go:161-165 | A counter stays for good if and only if its first call lost its reply or its EXPIRE. |
| `RedisClients.RateLimiter.Handle` | backend/internal/web/middleware.go:121-182 | Passes if and only if the call failed or the count Redis returned is within the limit, and is off for a limit of zero or less; the store changes by exactly the commands of one call. |
| `RedisClients.RetryAfter` | backend/internal/web/middleware.go:174-182 | The seconds announced are 1 to 60; after them, and not a second earlier, the clock is in the next bucket. |
| `RedisClients.SessionManager.BuildCookieValue` | backend/internal/web/auth.go:64-83 | Without Redis a signed token; with it, stores the user under the session id, or reports the failure. |
| `RedisClients.SessionManager.UserIdFromCookieValue` | backend/internal/web/auth.go:132-154 | Without Redis the user of a token that verifies; with it, the user the store holds for the session. |
| `RedisClients.SessionManager.Revoke` | backend/internal/web/auth.go:98-112 | Deletes that session and nothing else; without Redis, nothing. |
| `RedisClients.BalanceCache.Get` | backend/internal/database/balance_cache.go:22-41 | Hit, miss and error as the store has it; an unreadable value is an error, a missing one or a missing Redis is not. |
| `RedisClients.BalanceCache.Set` | backend/internal/database/balance_cache.go:43-51 | Puts the balance with its lifetime under the account's key; without Redis, nothing and no error. |
| `RedisClients.BalanceCache.Invalidate` | backend/internal/database/balance_cache.go:53-61 | Deletes the account's entry; without Redis, nothing and no error. |
| `MiddlewareStack.AuditedOnce` | backend/internal/web/middleware.go:195-222 | For every handler behaviour, panics and limited requests included, exactly one audit record is attempted; its status is the first header code sent to the client, or 200. |
| `MiddlewareStack.AuditAgreesWithClient` | backend/internal/web/middleware.go:33-53 | The record names the status the client ends up with if and only if that first code is a final one. |
| `MiddlewareStack.ClientGets` | backend/internal/web/middleware.go:77-143 | The client gets 429 when limited, else the handler's first final code, else 500 after a panic, else 200, for every handler behaviour. |
| `MiddlewareStack.StackReaches` | backend/internal/web/middleware.go:31-53 | Recorders and middlewares pass every call on: the connection ends up as if the handler had run on it bare, but for the pages of limiter and recovery. |
| `MiddlewareStack.SecuredUnlessLimited` | backend/internal/web/router.go:43-61 | Every response carries the security headers, that of a panic included, except the limiter's 429, which is sent outside of them. |
| `MiddlewareStack.LogAgreesWithAudit` | backend/internal/web/middleware.go:55-73 | The access log agrees with the record if and only if the handler ran and did not panic; otherwise it has no line. |
| `MiddlewareStack.InnerStackServes` | backend/internal/web/middleware.go:77-98 | Below the limiter every panic ends in Recovery, and all recorders stay in agreement with the connection. |
| `MiddlewareStack.LimitedStackServes` | backend/internal/web/middleware.go:121-143 | A limited request gets 429 and never reaches the handler. |
| `MiddlewareStack.PlayCrashes` | backend/internal/web/middleware.go:40-53 | A script panics by itself exactly when a header that is no status comes before any final one. |
| `MiddlewareStack.PlaySyncs` | backend/internal/web/middleware.go:40-53 | After any script the recorders hold its first code. |
| `MiddlewareStack.Chain` | backend/internal/web/middleware.go:20-29 | The first middleware of the list is the outermost. |
| `MiddlewareStack.NewRouter` | backend/internal/web/router.go:43-61 | Audit trail, rate limiter, recovery, headers, logging, mux, from the outside in. |
| `ResponseWriters.ResponseWriter.DoWriteHeader` | backend/internal/web/middleware.go:40-46 | Records the first code only and passes every call on, through any nesting. |
| `ResponseWriters.ResponseWriter.DoWrite` | backend/internal/web/middleware.go:48-53 | A body without a header sends and records 200 first. |
| `ResponseWriters.WriteHeaderSyncs` | backend/internal/web/middleware.go:40-46 | A header call keeps all nested recorders in agreement, also when it panics. |
| `ResponseWriters.WriteSyncs` | backend/internal/web/middleware.go:48-53 | A body keeps all nested recorders in agreement. |
| `Bolt.ItobOrder` | backend/internal/database/boltdb.go:48-53 | Keys are ordered byte by byte like the ids read as unsigned numbers, and no two ids share a key. |
| `Bolt.WalkIsUnique` | backend/internal/database/boltdb.go:191-204 | The byte order of a bucket's keys is one order only. |
| `Bolt.WalkExists` | backend/internal/database/boltdb.go:191-204 | Every bucket has such an order. |
| `AuditLog.WalkIsAppendOrder` | backend/internal/database/audit_bolt.go:26-48 | After any successful and failed appends, walking the keys in byte order gives the successful records in append order. |
| `AuditLog.NothingIsOverwritten` | backend/internal/database/audit_bolt.go:33-46 | What an earlier state of the log holds, every later one holds under the same key. |
| `AuditLog.SequenceRunsOut` | backend/internal/database/audit_bolt.go:33-43 | The 2^64th append would sort first: the order needs fewer appends than that. |
| `AuditLog.BoltAuditLogger.Append` | backend/internal/database/audit_bolt.go:26-48 | One record under the next number, or, on any failure, no change at all. |
| `TaskRepo.BoltTaskRepo.Create` | backend/internal/database/boltdb.go:156-173 | Stores under the sequence's next id, which was never issued before, not even to a deleted entry, if and only if fewer than 2^64 were. |
| `TaskRepo.BoltTaskRepo.GetByID` | backend/internal/database/boltdb.go:175-188 | Reads the plain map the bucket stands for. |
| `TaskRepo.BoltTaskRepo.ListByUser` | backend/internal/database/boltdb.go:190-205 | Exactly the owner's entries, each once, in ascending order of their ids. |
| `TaskRepo.BoltTaskRepo.Update` | backend/internal/database/boltdb.go:207-221 | Replaces the one entry with that id; a missing id is an error. |
| `TaskRepo.BoltTaskRepo.Delete` | backend/internal/database/boltdb.go:223-227 | Removes that id only; a missing one is no error. |
| `TaskRepo.OwnedMeaning` | backend/internal/database/boltdb.go:193-202 | Filtering a walk of the bucket gives the owner's entries in ascending order. |
| `TaskSteps.RunIsSerial` | backend/internal/web/handlers.go:62-145 | However the statements of requests interleave, the tables end up as if exactly the requests answered with success had been handled one after the other, in the order of their writes. |
| `TaskSteps.InterleavedRunKeeps` | backend/internal/web/handlers.go:62-145 | So after any interleaving titles, statuses, owners and numbers are as after serial runs, and a user without requests owns what he owned. |
| `TaskSteps.NextStatementIsOk` | backend/internal/service/task_service.go:72-106 | Only the write of a request that succeeds changes tables, exactly as the whole request would at that moment; it is also answered like that if and only if its row still exists. |
| `TaskSteps.UpdateOfDeletedRow` | backend/internal/database/postgres.go:167-176 | A task deleted between the last read and the write of an update: 200 is answered, and there is no such task. |
| `TaskSteps.GoneRowIsReadButNotWritten` | backend/internal/service/task_service.go:72-106 | A task deleted in between is reported as missing by the service's read, but not by the write that follows it. |
| `TaskSteps.FlightStaysOk` | backend/internal/web/handlers.go:239-248 | What a request learned about its task's owner stays true whatever others do, as owners never change and numbers are not reused. |
| `TaskSteps.AloneIsHandled` | backend/internal/web/handlers.go:62-145 | The statements of a request that nobody interrupts amount to handling it whole, answer and faults included. |
| `TaskService.RunKeeps` | backend/internal/web/handlers.go:62-145 | After any serial run of requests every stored title is trimmed and non-empty, every status allowed, owners fixed, ids not reused, and a user without requests owns what he owned. |
| `TaskService.HandleKeeps` | backend/internal/web/handlers.go:239-248 | One request touches only the tasks of the user who sent it. |
| `TaskService.CreateAnswers` | backend/internal/web/handlers.go:62-82 | Which of 400, 422, 404, 500 and 201 a create gets, each if and only if its condition holds; a refused one changes nothing. |
| `TaskService.UpdateAnswers` | backend/internal/web/handlers.go:86-118 | Likewise for an update, undecodable path and body included: whoever does not own the task is told there is none before his body is looked at. |
| `TaskService.DeleteAnswers` | backend/internal/web/handlers.go:121-145 | Likewise for a delete. |
| `TaskService.AnswersHideTasks` | backend/internal/web/handlers.go:239-248 | A user's answers are the same on all tables that hold the same tasks of his. |
| `TaskService.ForeignIsAbsent` | backend/internal/web/handlers.go:239-248 | A task of someone else is answered exactly as if it were not there. |
| `TaskService.CreateMeaning` | backend/internal/web/handlers.go:62-82 | Success exactly when title, status, user and database allow it; then one new row with trimmed texts, the session's user and a fresh id. |
| `TaskService.UpdateMeaning` | backend/internal/web/handlers.go:86-118 | Success exactly on one's own row with valid content, when both reads and the write succeed; then title, description and status change, owner and creation time do not. |
| `TaskService.DeleteMeaning` | backend/internal/web/handlers.go:121-145 | Success exactly on one's own row, when both reads and the write succeed; then that row is gone and nothing else changed. |
| `Tasks.ValidateMeaning` | backend/internal/service/task_service.go:108-131 | Accepted exactly with a title that is not blank, a user and an allowed or empty status, and then well formed; otherwise the first field at fault in that order is named. |
| `Tasks.TrimSpaceMeaning` | backend/internal/service/task_service.go:110-111 | Trimming cuts white space off both ends and nothing else. |
| `Tasks.SpacesAreWhiteSpace` | backend/internal/service/task_service.go:110-111 | White space is the 25 characters Unicode gives that property. |
| `TaskServer.Router.HandleTaskCreate` | backend/internal/web/handlers.go:62-82 | The handler is the create step of the request semantics. |
| `TaskServer.Router.HandleTaskUpdate` | backend/internal/web/handlers.go:86-118 | The handler is the update step. |
| `TaskServer.Router.HandleTaskDelete` | backend/internal/web/handlers.go:121-145 | The handler is the delete step. |
| `TaskStats.StatsByUser` | backend/internal/service/stats.go:23-29 | The three counts are the user's tasks by status and sum to the total, on the tables any run of requests leaves; a missing user is not found. |
| `TaskStats.ComputeStats` | backend/internal/service/stats.go:33-53 | For every list the counts sum to the total, whichever counter the build has, and the first is the number of pending ones if and only if every status is an allowed one. |
| `TaskStats.EncodeStatuses` | backend/internal/service/stats.go:60-73 | One byte a task; an unknown status is encoded like a pending one. |
| `TaskStats.EncodedCounts` | backend/internal/service/stats.go:60-73 | How the byte counts relate to the statuses. |
| `TaskStats.ListingCounts` | backend/internal/service/stats.go:23-29 | Counting a listing by status is counting the user's stored ids by status. |

## Left out

- AuditLog.WalkIsAppendOrder: holds for fewer than 2^64 appends; `AuditLog.SequenceRunsOut` shows what the next one does.
- SharedRedis.SessionView: about non-empty session ids; `revoke` ignores an empty cookie and none is ever issued.
- `CreateAccount` appears only as the `Open` event of `BankSteps.Step`, and `GetByUserID` and `GetUserAccounts`, which list
  accounts, not at all.
- SQL text, drivers, pools and the Redis and Bolt clients: replaced by stores with the semantics above.
- Generated ids and timestamps of accounts and transfers, the VARCHAR(3) limit on currencies, and gaps in
  PostgreSQL sequences: they take no part in the properties.
- HMAC-SHA-256, bcrypt and the randomness of session ids: no cryptographic claims are made.
- JSON and form decoding, cookies, HTTP headers but for whether the security headers are set, routing and the splitting of
  host and port: library behaviour; the client's address is a parameter.
- `RunInTx` takes its function as an argument; here it is written out in `BankService.BankingService.Transfer`, the
  only caller.
- The nest of middleware closures runs on writer values (`MiddlewareStack.Serve`); the writer objects themselves are
  proved equal to those values. A handler that recovers from its own panics is not a script.
- A lifetime of exactly -1 ns, which makes the Redis client keep the old one: configuration accepts only positive lifetimes.
- Clocks that differ between servers, and clocks that run backwards at Redis.
- Percentages in `computeStats`: floating point.
- `BoltUserRepo`, user registration and authentication, and the mapping of other errors to status codes: settled by
  single branches.
- Agreement of the balance cache with the accounts: the banking service does not use the cache.
- The front end, configuration, migrations, seeding, logging fan-out, server start and shutdown, deployment.
