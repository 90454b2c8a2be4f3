/**
 Accounts, transfers and the rules of one transfer, shared by the sequential service and the
 interleaved transactions.
 */
module Banking {
  import opened Int64
  import opened Wrappers
  import opened Sums

  /** A row of the accounts table; the primary key is the key of the `Accounts` map. */
  datatype Account = Account(userId: int64, currency: string, balance: int64)

  type Accounts = map<int64, Account>

  datatype Request = Request(senderUserId: int64, senderId: int64, receiverId: int64,
                             amount: int64, currency: string, description: string)

  /** A row of the transfers table. */
  datatype Transfer = Transfer(senderId: int64, receiverId: int64, amount: int64,
                               currency: string, description: string)

  datatype Error =
    | SenderNotFound
    | NotOwner
    | InsufficientFunds
    | ReceiverNotFound
    | CurrencyMismatch
    | OutOfRange
    | Unavailable

  function RowOf(req: Request): Transfer {
    Transfer(req.senderId, req.receiverId, req.amount, req.currency, req.description)
  }

  function Lookup(accounts: Accounts, id: int64): Option<Account> {
    if id in accounts then Some(accounts[id]) else None
  }

  function CheckSender(row: Option<Account>, req: Request): Result<Account, Error> {
    match row
    case None => Failure(SenderNotFound)
    case Some(sender) =>
      if sender.userId != req.senderUserId then Failure(NotOwner)
      else if sender.balance < req.amount then Failure(InsufficientFunds)
      else Success(sender)
  }

  function CheckReceiver(row: Option<Account>, senderCurrency: string, req: Request): Result<Account, Error> {
    match row
    case None => Failure(ReceiverNotFound)
    case Some(receiver) =>
      if senderCurrency != req.currency || receiver.currency != req.currency then Failure(CurrencyMismatch)
      else Success(receiver)
  }

  /** A bigint addition: out of range is an error of the statement. */
  function AddBalance(balance: int64, delta: int64): Option<int64> {
    if InRange(balance + delta) then Some(balance + delta) else None
  }

  // ---------- What the ledger says ----------

  /** What one ledger row promises the holder of account `id`; a self-transfer promises nothing. */
  function Effect(row: Transfer, id: int64): int {
    (if row.receiverId == id then row.amount else 0) - (if row.senderId == id then row.amount else 0)
  }

  function Net(ledger: seq<Transfer>, id: int64): int {
    if ledger == [] then 0
    else Net(ledger[..|ledger| - 1], id) + Effect(ledger[|ledger| - 1], id)
  }

  /** The number of rows debiting `id` whose amount has no int64 negation. */
  function Overnegated(ledger: seq<Transfer>, id: int64): nat {
    if ledger == [] then 0
    else
      var row := ledger[|ledger| - 1];
      Overnegated(ledger[..|ledger| - 1], id) + (if row.senderId == id && row.amount == MIN then 1 else 0)
  }

  /** The number of such rows in one currency. */
  function OvernegatedIn(ledger: seq<Transfer>, currency: string): nat {
    if ledger == [] then 0
    else
      var row := ledger[|ledger| - 1];
      OvernegatedIn(ledger[..|ledger| - 1], currency) + (if row.currency == currency && row.amount == MIN then 1 else 0)
  }

  lemma LedgerGrows(ledger: seq<Transfer>, row: Transfer, id: int64, currency: string)
    ensures Net(ledger + [row], id) == Net(ledger, id) + Effect(row, id)
    ensures Overnegated(ledger + [row], id)
         == Overnegated(ledger, id) + (if row.senderId == id && row.amount == MIN then 1 else 0)
    ensures OvernegatedIn(ledger + [row], currency)
         == OvernegatedIn(ledger, currency) + (if row.currency == currency && row.amount == MIN then 1 else 0)
  {
    assert (ledger + [row])[..|ledger|] == ledger;
  }

  // ---------- Totals ----------

  function BalancesIn(accounts: Accounts, currency: string): map<int64, int> {
    map id | id in accounts && accounts[id].currency == currency :: accounts[id].balance as int
  }

  ghost function Total(accounts: Accounts, currency: string): int {
    Sum(BalancesIn(accounts, currency))
  }

  lemma TotalPut(accounts: Accounts, id: int64, balance: int64, currency: string)
    requires id in accounts
    ensures Total(accounts[id := accounts[id].(balance := balance)], currency)
         == Total(accounts, currency)
          + (if accounts[id].currency == currency then balance - accounts[id].balance else 0)
  {
    var after := accounts[id := accounts[id].(balance := balance)];
    if accounts[id].currency == currency {
      SumPut(BalancesIn(accounts, currency), id, balance);
      assert BalancesIn(after, currency) == BalancesIn(accounts, currency)[id := balance];
    } else {
      assert BalancesIn(after, currency) == BalancesIn(accounts, currency);
    }
  }

  lemma TotalOpen(accounts: Accounts, id: int64, account: Account, currency: string)
    requires id !in accounts && account.balance == 0
    ensures Total(accounts[id := account], currency) == Total(accounts, currency)
  {
    var after := accounts[id := account];
    if account.currency == currency {
      SumPut(BalancesIn(accounts, currency), id, 0);
      assert BalancesIn(after, currency) == BalancesIn(accounts, currency)[id := 0];
    } else {
      assert BalancesIn(after, currency) == BalancesIn(accounts, currency);
    }
  }

  // ---------- The outcome of one transfer that runs alone ----------

  function Credit(accounts: Accounts, id: int64, delta: int64): Result<Accounts, Error> {
    if id !in accounts then Success(accounts)  // the statement matches no row
    else
      match AddBalance(accounts[id].balance, delta)
      case None => Failure(OutOfRange)
      case Some(balance) => Success(accounts[id := accounts[id].(balance := balance)])
  }

  function MoveFunds(accounts: Accounts, req: Request): Result<Accounts, Error> {
    match Credit(accounts, req.senderId, Neg(req.amount))
    case Failure(e) => Failure(e)
    case Success(debited) => Credit(debited, req.receiverId, req.amount)
  }

  function Execute(accounts: Accounts, req: Request): Result<Accounts, Error> {
    match CheckSender(Lookup(accounts, req.senderId), req)
    case Failure(e) => Failure(e)
    case Success(sender) =>
      match CheckReceiver(Lookup(accounts, req.receiverId), sender.currency, req)
      case Failure(e) => Failure(e)
      case Success(_) => MoveFunds(accounts, req)
  }

  /** What an accepted transfer needs of the accounts it is applied to. */
  predicate Acceptable(accounts: Accounts, req: Request) {
    && req.senderId in accounts
    && req.receiverId in accounts
    && accounts[req.senderId].userId == req.senderUserId
    && accounts[req.senderId].balance >= req.amount
    && accounts[req.senderId].currency == req.currency == accounts[req.receiverId].currency
  }

  /** The change a committed transfer makes to the balance of `id`. */
  function Delta(req: Request, id: int64): int {
    (if req.senderId == id then Neg(req.amount) else 0) + (if req.receiverId == id then req.amount else 0)
  }

  /**
   What a committed transfer takes from an account: a positive amount from the sender, a negative one from
   the receiver, and -2^63 from both, as its negation wraps. A self-transfer takes nothing.
   */
  function Taken(req: Request, id: int64): (amount: int)
    ensures amount >= 0
  {
    if req.senderId == req.receiverId || Delta(req, id) >= 0 then 0 else -Delta(req, id)
  }

  /** What it brings the account. */
  function Brought(req: Request, id: int64): (amount: int)
    ensures amount >= 0
  {
    if req.senderId == req.receiverId || Delta(req, id) <= 0 then 0 else Delta(req, id)
  }

  lemma DeltaSplits(req: Request, id: int64)
    requires req.senderId != req.receiverId
    ensures Delta(req, id) == Brought(req, id) - Taken(req, id)
  {
  }

  /** Both updates fit a bigint: the debit first, then the credit on top of it. */
  predicate Fits(accounts: Accounts, req: Request)
    requires req.senderId in accounts && req.receiverId in accounts
  {
    && InRange(accounts[req.senderId].balance + Neg(req.amount))
    && InRange(accounts[req.receiverId].balance + Delta(req, req.receiverId))
  }

  lemma FundsMove(accounts: Accounts, req: Request)
    requires req.senderId in accounts && req.receiverId in accounts
    ensures MoveFunds(accounts, req).Success? <==> Fits(accounts, req)
    ensures MoveFunds(accounts, req).Success? ==>
              var after := MoveFunds(accounts, req).value;
              && after.Keys == accounts.Keys
              && forall id :: id in accounts ==>
                   after[id] == accounts[id].(balance := after[id].balance)
                   && after[id].balance == accounts[id].balance + Delta(req, id)
  {
  }

  /**
   A transfer goes through exactly when it is acceptable and fits, and then it changes the two
   balances it names by `Delta` and nothing else.
   */
  lemma ExecuteMeaning(accounts: Accounts, req: Request)
    ensures Execute(accounts, req).Success? <==> Acceptable(accounts, req) && Fits(accounts, req)
    ensures Execute(accounts, req).Success? ==>
              var after := Execute(accounts, req).value;
              && after.Keys == accounts.Keys
              && forall id :: id in accounts ==>
                   && after[id].balance == accounts[id].balance + Delta(req, id)
                   && after[id].userId == accounts[id].userId
                   && after[id].currency == accounts[id].currency
  {
    if Acceptable(accounts, req) {
      FundsMove(accounts, req);
    }
  }

  predicate CanPay(accounts: Accounts, req: Request) {
    && req.senderId in accounts
    && accounts[req.senderId].userId == req.senderUserId
    && accounts[req.senderId].balance >= req.amount
  }

  /** Why a request is refused, read off the rows. Who may not use an account learns nothing about its funds. */
  predicate Refused(accounts: Accounts, req: Request, e: Error) {
    match e
    case SenderNotFound => req.senderId !in accounts
    case NotOwner => req.senderId in accounts && accounts[req.senderId].userId != req.senderUserId
    case InsufficientFunds =>
      && req.senderId in accounts && accounts[req.senderId].userId == req.senderUserId
      && accounts[req.senderId].balance < req.amount
    case ReceiverNotFound => CanPay(accounts, req) && req.receiverId !in accounts
    case CurrencyMismatch =>
      && CanPay(accounts, req) && req.receiverId in accounts
      && !(accounts[req.senderId].currency == req.currency == accounts[req.receiverId].currency)
    case OutOfRange => Acceptable(accounts, req) && !Fits(accounts, req)
    case Unavailable => false
  }

  /** Each error is the answer exactly when its own condition holds. */
  lemma ErrorMeaning(accounts: Accounts, req: Request, e: Error)
    ensures Execute(accounts, req) == Failure(e) <==> Refused(accounts, req, e)
  {
    ExecuteMeaning(accounts, req);
  }

  /** The two databases differ in nothing but balances of accounts that are not this user's. */
  ghost predicate SameFor(accounts: Accounts, other: Accounts, userId: int64) {
    && other.Keys == accounts.Keys
    && forall id :: id in accounts ==>
         && other[id] == accounts[id].(balance := other[id].balance)
         && (accounts[id].userId == userId ==> other[id] == accounts[id])
  }

  /** The outcome as the user is told it. */
  function Told(r: Result<Accounts, Error>): Option<Error> {
    if r.Success? then None else Some(r.error)
  }

  /**
   What a user is told does not depend on the balances of other people's accounts, except when an acceptable
   transfer fits only one of the two databases; so any other error is the same for both.
   */
  lemma AnswersHideBalances(accounts: Accounts, other: Accounts, req: Request)
    requires SameFor(accounts, other, req.senderUserId)
    ensures Told(Execute(other, req)) == Told(Execute(accounts, req)) <==>
              (Acceptable(accounts, req) ==> (Fits(other, req) <==> Fits(accounts, req)))
    ensures forall e :: Told(Execute(accounts, req)) == Some(e) && e != OutOfRange ==>
              Told(Execute(other, req)) == Some(e)
  {
    ExecuteMeaning(accounts, req);
    ExecuteMeaning(other, req);
    forall e: Error
      ensures Execute(accounts, req) == Failure(e) <==> Refused(accounts, req, e)
      ensures Execute(other, req) == Failure(e) <==> Refused(other, req, e)
    {
      ErrorMeaning(accounts, req, e);
      ErrorMeaning(other, req, e);
    }
  }

  /** The exception is real: a payment of 1 tells an account at the top of the range from an empty one. */
  lemma OverflowIsTold(req: Request, rich: Accounts, poor: Accounts)
    requires req.amount == 1 && req.senderId != req.receiverId
    requires poor == map[req.senderId := Account(req.senderUserId, req.currency, 1),
                         req.receiverId := Account(2, req.currency, 0)]
    requires rich == poor[req.receiverId := Account(2, req.currency, MAX)] && req.senderUserId != 2
    ensures SameFor(poor, rich, req.senderUserId)
    ensures Told(Execute(poor, req)) == None && Told(Execute(rich, req)) == Some(OutOfRange)
  {
    ExecuteMeaning(poor, req);
    ErrorMeaning(rich, req, OutOfRange);
  }

  /** A transfer that goes through keeps the total of its currency exactly when its amount has a negation. */
  lemma ExecuteConserves(accounts: Accounts, req: Request, currency: string)
    requires Execute(accounts, req).Success?
    ensures var after := Execute(accounts, req).value;
            Total(after, currency) == Total(accounts, currency)
              - (if req.currency == currency && req.amount == MIN then TWO_TO_THE_64 else 0)
  {
    var debited := Credit(accounts, req.senderId, Neg(req.amount)).value;
    TotalPut(accounts, req.senderId, debited[req.senderId].balance, currency);
    var after := Execute(accounts, req).value;
    TotalPut(debited, req.receiverId, after[req.receiverId].balance, currency);
    NegIsExactExceptOnMin(req.amount);
  }

  predicate Solvent(accounts: Accounts) {
    forall id :: id in accounts ==> accounts[id].balance >= 0
  }

  /**
   The checks look at the sender only. A transfer that goes through keeps everyone out of the red
   exactly when the receiver can bear the amount too, as it always can when the amount is not negative.
   */
  lemma ExecuteKeepsSolvent(accounts: Accounts, req: Request)
    requires Solvent(accounts) && Execute(accounts, req).Success?
    ensures Solvent(Execute(accounts, req).value) <==>
              req.senderId == req.receiverId || accounts[req.receiverId].balance + req.amount >= 0
    ensures req.amount >= 0 ==> Solvent(Execute(accounts, req).value)
  {
    ExecuteMeaning(accounts, req);
    NegIsExactExceptOnMin(req.amount);
    var after := Execute(accounts, req).value;
    assert after[req.receiverId].balance >= 0 ==> after[req.senderId].balance >= 0;
  }

  /**
   The amount -2^63 passes the funds check of any solvent sender, and between two empty accounts it
   goes through: both end at -2^63 and 2^64 is lost.
   */
  lemma OvernegatedTransferGoesThrough(accounts: Accounts, req: Request)
    requires req.senderId in accounts && req.receiverId in accounts && req.senderId != req.receiverId
    requires accounts[req.senderId] == Account(req.senderUserId, req.currency, 0)
    requires accounts[req.receiverId].currency == req.currency && accounts[req.receiverId].balance == 0
    requires req.amount == MIN
    ensures Execute(accounts, req).Success?
    ensures var after := Execute(accounts, req).value;
            && after[req.senderId].balance == MIN && after[req.receiverId].balance == MIN
            && Total(after, req.currency) == Total(accounts, req.currency) - TWO_TO_THE_64
  {
    NegIsExactExceptOnMin(req.amount);
    ExecuteConserves(accounts, req, req.currency);
  }
}
