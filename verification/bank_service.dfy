/**
 The banking service over a database with transactions. A transaction works on its own copy of the
 tables; a commit publishes the copy, a rollback forgets it. Which statements the driver fails is an
 argument of each call.
 */
module BankService {
  import opened Int64
  import opened Wrappers
  import opened Banking
  import opened Statements

  /** What a statement reads and writes: the committed tables or a transaction's copy of them. */
  class Tables {
    var accounts: Accounts
    var transfers: seq<Transfer>

    constructor (accounts: Accounts, transfers: seq<Transfer>)
      ensures this.accounts == accounts && this.transfers == transfers
    {
      this.accounts := accounts;
      this.transfers := transfers;
    }
  }

  /** A request context, with the transaction it carries, if any. */
  datatype Context = Context(tx: Option<Tables>)

  function WithTx(ctx: Context, tx: Tables): Context {
    ctx.(tx := Some(tx))
  }

  /** The executor of a repository call: the context's transaction, else the bare connection. */
  function Conn(ctx: Context, db: Tables): Tables {
    match ctx.tx
    case Some(tx) => tx
    case None => db
  }

  /** Which statements of one transfer the driver fails. */
  datatype Faults = Faults(begin: bool, readSender: bool, readReceiver: bool,
                           debit: bool, credit: bool, insert: bool, commit: bool)

  const NO_FAULTS := Faults(false, false, false, false, false, false, false)

  class PgAccountRepo {
    const db: Tables

    constructor (db: Tables)
      ensures this.db == db
    {
      this.db := db;
    }

    method GetByID(ctx: Context, id: int64, fails: bool) returns (row: Result<Option<Account>, Error>)
      ensures row == if fails then Failure(Unavailable)
                     else if id in Conn(ctx, db).accounts then Success(Some(Conn(ctx, db).accounts[id]))
                     else Success(None)
    {
      if fails {
        return Failure(Unavailable);
      }
      return Success(Lookup(Conn(ctx, db).accounts, id));
    }

    method UpdateBalance(ctx: Context, id: int64, amount: int64, fails: bool) returns (err: Option<Error>)
      modifies Conn(ctx, db)`accounts
      ensures var accounts := old(Conn(ctx, db).accounts);
              match err
              case None =>
                && !fails
                && (id !in accounts ==> Conn(ctx, db).accounts == accounts)
                && (id in accounts ==>
                      && InRange(accounts[id].balance + amount)
                      && Conn(ctx, db).accounts
                           == accounts[id := accounts[id].(balance := accounts[id].balance + amount)])
              case Some(OutOfRange) => !fails && id in accounts && !InRange(accounts[id].balance + amount)
              case Some(e) => fails && e == Unavailable
      ensures match err
              case None => !fails && Credit(old(Conn(ctx, db).accounts), id, amount) == Success(Conn(ctx, db).accounts)
              case Some(e) =>
                && Conn(ctx, db).accounts == old(Conn(ctx, db).accounts)
                && if fails then e == Unavailable else Credit(old(Conn(ctx, db).accounts), id, amount) == Failure(e)
    {
      var q := Conn(ctx, db);
      if fails {
        return Some(Unavailable);
      }
      if id in q.accounts {
        match AddBalance(q.accounts[id].balance, amount)
        case None => return Some(OutOfRange);
        case Some(balance) => q.accounts := q.accounts[id := q.accounts[id].(balance := balance)];
      }
      return None;
    }
  }

  class PgTransferRepo {
    const db: Tables

    constructor (db: Tables)
      ensures this.db == db
    {
      this.db := db;
    }

    method Create(ctx: Context, row: Transfer, fails: bool) returns (err: Option<Error>)
      modifies Conn(ctx, db)`transfers
      ensures err.None? <==>
                !fails && row.senderId in Conn(ctx, db).accounts && row.receiverId in Conn(ctx, db).accounts
      ensures err.Some? ==> err.value == Unavailable
      ensures Conn(ctx, db).transfers == old(Conn(ctx, db).transfers) + (if err.None? then [row] else [])
    {
      var q := Conn(ctx, db);
      if fails || row.senderId !in q.accounts || row.receiverId !in q.accounts {  // the foreign keys
        return Some(Unavailable);
      }
      q.transfers := q.transfers + [row];
      return None;
    }

    /**
     Collects the rows the driver delivers. The loop does not ask why the rows ended, so a cursor that
     breaks after `delivered` rows returns a short statement without an error; a result is the whole
     statement exactly when no row was left behind, and then it adds up.
     */
    method GetByAccountID(ctx: Context, id: int64, rows: seq<Transfer>, queryFails: bool, delivered: nat,
                          unreadable: set<nat>)
      returns (res: Result<seq<Transfer>, Error>)
      requires IsStatement(rows, Conn(ctx, db).transfers, id) && delivered <= |rows|
      ensures res == if queryFails || exists i :: i in unreadable && i < delivered then Failure(Unavailable)
                     else Success(rows[..delivered])
      ensures res.Success? ==> forall row :: row in res.value ==> row.senderId == id || row.receiverId == id
      ensures res.Success? && delivered == |rows| ==>
                forall row :: multiset(res.value)[row]
                           == if row.senderId == id || row.receiverId == id
                              then multiset(Conn(ctx, db).transfers)[row] else 0
      ensures res.Success? ==> (IsStatement(res.value, Conn(ctx, db).transfers, id) <==> delivered == |rows|)
      ensures res.Success? && delivered == |rows| ==>
                res.value == rows && Net(res.value, id) == Net(Conn(ctx, db).transfers, id)
    {
      if queryFails {
        return Failure(Unavailable);
      }
      var transfers := [];
      for i := 0 to delivered
        invariant transfers == rows[..i]
        invariant forall j :: j in unreadable ==> j >= i
      {
        if i in unreadable {
          return Failure(Unavailable);
        }
        transfers := transfers + [rows[i]];
      }
      StatementAddsUp(rows, Conn(ctx, db).transfers, id);
      StatementRows(rows, Conn(ctx, db).transfers, id);
      assert rows[..|rows|] == rows;
      assert |transfers| == |multiset(transfers)| && |rows| == |multiset(rows)|;
      return Success(transfers);
    }
  }

  class BankingService {
    const db: Tables
    const accounts: PgAccountRepo
    const transfers: PgTransferRepo

    constructor (db: Tables)
      ensures this.db == db && accounts.db == db && transfers.db == db
    {
      this.db := db;
      accounts := new PgAccountRepo(db);
      transfers := new PgTransferRepo(db);
    }

    method LoadAndValidateTransferAccounts(ctx: Context, req: Request, faults: Faults)
      returns (res: Result<(Account, Account), Error>)
      requires accounts.db == db
      ensures var q := Conn(ctx, db);
              match res
              case Success((sender, receiver)) =>
                && !faults.readSender && !faults.readReceiver
                && CheckSender(Lookup(q.accounts, req.senderId), req) == Success(sender)
                && CheckReceiver(Lookup(q.accounts, req.receiverId), sender.currency, req) == Success(receiver)
              case Failure(e) =>
                var sender := CheckSender(Lookup(q.accounts, req.senderId), req);
                if faults.readSender then e == Unavailable
                else if sender.Failure? then e == sender.error
                else if faults.readReceiver then e == Unavailable
                else Failure(e) == CheckReceiver(Lookup(q.accounts, req.receiverId), sender.value.currency, req)
      ensures !faults.readSender && !faults.readReceiver && res.Failure? ==>
                Execute(Conn(ctx, db).accounts, req) == Failure(res.error)
      ensures res.Success? ==>
                && CanPay(Conn(ctx, db).accounts, req)
                && res.value.0 == Conn(ctx, db).accounts[req.senderId]
                && req.receiverId in Conn(ctx, db).accounts
                && res.value.1 == Conn(ctx, db).accounts[req.receiverId]
      ensures res.Failure? && res.error != Unavailable ==> Refused(Conn(ctx, db).accounts, req, res.error)
      ensures res == Failure(Unavailable) <==>
                faults.readSender || (faults.readReceiver && CanPay(Conn(ctx, db).accounts, req))
    {
      var row := accounts.GetByID(ctx, req.senderId, faults.readSender);
      if row.Failure? {
        return Failure(row.error);
      }
      var sender := CheckSender(row.value, req);
      if sender.Failure? {
        return Failure(sender.error);
      }
      row := accounts.GetByID(ctx, req.receiverId, faults.readReceiver);
      if row.Failure? {
        return Failure(row.error);
      }
      var receiver := CheckReceiver(row.value, sender.value.currency, req);
      if receiver.Failure? {
        return Failure(receiver.error);
      }
      return Success((sender.value, receiver.value));
    }

    method ApplyTransferBalances(ctx: Context, req: Request, faults: Faults) returns (err: Option<Error>)
      requires accounts.db == db
      modifies Conn(ctx, db)`accounts
      ensures match err
              case None =>
                && !faults.debit && !faults.credit
                && MoveFunds(old(Conn(ctx, db).accounts), req) == Success(Conn(ctx, db).accounts)
              case Some(e) =>
                var debited := Credit(old(Conn(ctx, db).accounts), req.senderId, Neg(req.amount));
                if faults.debit || debited.Failure?
                then Conn(ctx, db).accounts == old(Conn(ctx, db).accounts)
                     && e == (if faults.debit then Unavailable else debited.error)
                else Conn(ctx, db).accounts == debited.value  // until the rollback
                     && if faults.credit then e == Unavailable
                        else Credit(debited.value, req.receiverId, req.amount) == Failure(e)
      ensures !faults.debit && !faults.credit && err.Some? ==>
                MoveFunds(old(Conn(ctx, db).accounts), req) == Failure(err.value)
    {
      err := accounts.UpdateBalance(ctx, req.senderId, Neg(req.amount), faults.debit);
      if err.Some? {
        return;
      }
      err := accounts.UpdateBalance(ctx, req.receiverId, req.amount, faults.credit);
    }

    /**
     The function that runs inside the transaction. Its frame is the transaction's copy alone: with a
     transaction in the context no statement reaches the committed tables.
     */
    method TransferInTx(ctx: Context, req: Request, faults: Faults) returns (res: Result<Transfer, Error>)
      requires accounts.db == db && transfers.db == db && ctx.tx.Some?
      modifies ctx.tx.value
      ensures match res
              case Success(row) =>
                && faults.(begin := false, commit := false) == NO_FAULTS
                && row == RowOf(req)
                && Execute(old(ctx.tx.value.accounts), req) == Success(ctx.tx.value.accounts)
                && ctx.tx.value.transfers == old(ctx.tx.value.transfers) + [row]
              case Failure(e) =>
                || (faults.(begin := false, commit := false) != NO_FAULTS && e == Unavailable)
                || Execute(old(ctx.tx.value.accounts), req) == Failure(e)
    {
      var loaded := LoadAndValidateTransferAccounts(ctx, req, faults);
      if loaded.Failure? {
        return Failure(loaded.error);
      }
      var err := ApplyTransferBalances(ctx, req, faults);
      if err.Some? {
        return Failure(err.value);
      }
      var row := RowOf(req);
      ExecuteMeaning(old(ctx.tx.value.accounts), req);
      err := transfers.Create(ctx, row, faults.insert);
      if err.Some? {
        return Failure(err.value);
      }
      return Success(row);
    }

    /**
     All or nothing: the transfer goes through exactly when no statement fails and the rules accept it,
     and then the tables change as the rules say; otherwise accounts and ledger are as they were.
     */
    method Transfer(ctx: Context, req: Request, faults: Faults) returns (res: Result<Transfer, Error>)
      requires accounts.db == db && transfers.db == db
      modifies db
      ensures res.Success? <==> faults == NO_FAULTS && Execute(old(db.accounts), req).Success?
      ensures match res
              case Success(row) =>
                && row.senderId == req.senderId && row.receiverId == req.receiverId && row.amount == req.amount
                && row.currency == req.currency && row.description == req.description
                && Execute(old(db.accounts), req) == Success(db.accounts)
                && db.transfers == old(db.transfers) + [row]
              case Failure(e) =>
                && db.accounts == old(db.accounts) && db.transfers == old(db.transfers)
                && (faults == NO_FAULTS ==> Refused(old(db.accounts), req, e))
                && (e == Unavailable || Refused(old(db.accounts), req, e))
    {
      ghost var before := db.accounts;
      forall e: Error
        ensures Execute(before, req) == Failure(e) <==> Refused(before, req, e)
      {
        ErrorMeaning(before, req, e);
      }
      if faults.begin {
        return Failure(Unavailable);
      }
      var tx := new Tables(db.accounts, db.transfers);
      res := TransferInTx(WithTx(ctx, tx), req, faults);
      if res.Failure? {
        return;  // rollback: the copy is dropped
      }
      if faults.commit {
        return Failure(Unavailable);
      }
      db.accounts, db.transfers := tx.accounts, tx.transfers;
    }
  }
}
