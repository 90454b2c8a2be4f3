/** The statement of one account: the ledger rows that name it, in whatever order a query lists them. */
module Statements {
  import opened Int64
  import opened Banking
  import opened BankSteps
  import opened BankRuns

  predicate Names(row: Transfer, id: int64) {
    row.senderId == id || row.receiverId == id
  }

  /** WHERE sender_account_id = id OR receiver_account_id = id: a self-transfer is one row. */
  function Touching(ledger: seq<Transfer>, id: int64): seq<Transfer> {
    if ledger == [] then []
    else
      var row := ledger[|ledger| - 1];
      Touching(ledger[..|ledger| - 1], id) + (if Names(row, id) then [row] else [])
  }

  /** A listing of the statement: all its rows, in any order. */
  ghost predicate IsStatement(rows: seq<Transfer>, ledger: seq<Transfer>, id: int64) {
    multiset(rows) == multiset(Touching(ledger, id))
  }

  lemma OneRowMore(rows: seq<Transfer>, last: Transfer, row: Transfer)
    ensures multiset(rows + [last])[row] == multiset(rows)[row] + (if row == last then 1 else 0)
  {
  }

  lemma {:induction false} TouchingHolds(ledger: seq<Transfer>, id: int64, row: Transfer)
    ensures multiset(Touching(ledger, id))[row]
         == if row.senderId == id || row.receiverId == id then multiset(ledger)[row] else 0
  {
    if ledger == [] {
    } else {
      var front, last := ledger[..|ledger| - 1], ledger[|ledger| - 1];
      TouchingHolds(front, id, row);
      OneRowMore(front, last, row);
      OneRowMore(Touching(front, id), last, row);
      assert ledger == front + [last];
      assert Touching(ledger, id) == Touching(front, id) + (if Names(last, id) then [last] else []);
      assert Touching(front, id) + [] == Touching(front, id);
    }
  }

  /** A listing holds the rows that name the account, each as often as the ledger does, and no others. */
  lemma StatementRows(rows: seq<Transfer>, ledger: seq<Transfer>, id: int64)
    requires IsStatement(rows, ledger, id)
    ensures forall row :: multiset(rows)[row]
                       == if row.senderId == id || row.receiverId == id then multiset(ledger)[row] else 0
    ensures forall row :: row in rows ==> row.senderId == id || row.receiverId == id
  {
    forall row
      ensures multiset(rows)[row] == if row.senderId == id || row.receiverId == id then multiset(ledger)[row] else 0
    {
      TouchingHolds(ledger, id, row);
    }
    forall row | row in rows
      ensures row.senderId == id || row.receiverId == id
    {
      assert row in multiset(rows);
    }
  }

  lemma {:induction false} NetConcat(a: seq<Transfer>, b: seq<Transfer>, id: int64)
    ensures Net(a + b, id) == Net(a, id) + Net(b, id)
    ensures Overnegated(a + b, id) == Overnegated(a, id) + Overnegated(b, id)
  {
    if b == [] {
      assert a + b == a;
    } else {
      NetConcat(a, b[..|b| - 1], id);
      assert (a + b)[..|a + b| - 1] == a + b[..|b| - 1];
    }
  }

  /** A listing without its row number i. */
  function Without(rows: seq<Transfer>, i: nat): seq<Transfer>
    requires i < |rows|
  {
    rows[..i] + rows[i + 1..]
  }

  lemma NetWithout(rows: seq<Transfer>, i: nat, id: int64)
    requires i < |rows|
    ensures Net(rows, id) == Net(Without(rows, i), id) + Effect(rows[i], id)
    ensures Overnegated(rows, id) == Overnegated(Without(rows, i), id)
              + (if rows[i].senderId == id && rows[i].amount == MIN then 1 else 0)
  {
    assert rows == rows[..i] + [rows[i]] + rows[i + 1..];
    LedgerGrows(rows[..i], rows[i], id, "");
    NetConcat(rows[..i] + [rows[i]], rows[i + 1..], id);
    NetConcat(rows[..i], rows[i + 1..], id);
  }

  lemma RowsWithout(rows: seq<Transfer>, i: nat)
    requires i < |rows|
    ensures multiset(Without(rows, i)) == multiset(rows) - multiset{rows[i]}
  {
    assert rows == rows[..i] + ([rows[i]] + rows[i + 1..]);
  }

  /** Neither the sum of the effects nor the number of wrapped debits depends on the order of the rows. */
  lemma {:induction false} NetOfPermutation(p: seq<Transfer>, q: seq<Transfer>, id: int64)
    requires multiset(p) == multiset(q)
    ensures Net(p, id) == Net(q, id) && Overnegated(p, id) == Overnegated(q, id)
    decreases |p|
  {
    assert |p| == |multiset(p)| == |multiset(q)| == |q|;
    if p == [] {
    } else {
      assert p[0] in multiset(q);
      var i :| 0 <= i < |q| && q[i] == p[0];
      RowsWithout(p, 0);
      RowsWithout(q, i);
      NetOfPermutation(Without(p, 0), Without(q, i), id);
      NetWithout(p, 0, id);
      NetWithout(q, i, id);
    }
  }

  lemma {:induction false} NetOfTouching(ledger: seq<Transfer>, id: int64)
    ensures Net(Touching(ledger, id), id) == Net(ledger, id)
    ensures Overnegated(Touching(ledger, id), id) == Overnegated(ledger, id)
  {
    if ledger == [] {
    } else {
      var front, row := ledger[..|ledger| - 1], ledger[|ledger| - 1];
      NetOfTouching(front, id);
      if Names(row, id) {
        LedgerGrows(Touching(front, id), row, id, "");
      } else {
        assert Touching(ledger, id) == Touching(front, id);
      }
    }
  }

  /** Adding up any listing of the statement gives what the whole ledger promises the account. */
  lemma StatementAddsUp(rows: seq<Transfer>, ledger: seq<Transfer>, id: int64)
    requires IsStatement(rows, ledger, id)
    ensures Net(rows, id) == Net(ledger, id) && Overnegated(rows, id) == Overnegated(ledger, id)
  {
    NetOfPermutation(rows, Touching(ledger, id), id);
    NetOfTouching(ledger, id);
  }

  /**
   Over any interleaving, the change of the balance is the difference between two statements, less 2^64 for
   every debit of -2^63 that only the later one lists; so they agree exactly when it lists no such debit more.
   */
  lemma StatementsReconcile(s: State, events: seq<Event>, id: int64, before: seq<Transfer>, after: seq<Transfer>)
    requires Quiescent(s)
    requires IsStatement(before, s.ledger, id) && IsStatement(after, Run(s, events).ledger, id)
    ensures BalanceOf(Run(s, events), id) - BalanceOf(s, id)
         == Net(after, id) - Net(before, id) - TWO_TO_THE_64 * (Overnegated(after, id) - Overnegated(before, id))
    ensures BalanceOf(Run(s, events), id) - BalanceOf(s, id) == Net(after, id) - Net(before, id) <==>
              Overnegated(after, id) == Overnegated(before, id)
  {
    LedgerAgreement(s, events, id);
    StatementAddsUp(before, s.ledger, id);
    StatementAddsUp(after, Run(s, events).ledger, id);
  }

  /** In particular when no request of the run asks for -2^63. */
  lemma StatementsMatch(s: State, events: seq<Event>, id: int64, before: seq<Transfer>, after: seq<Transfer>)
    requires Quiescent(s)
    requires forall e :: e in events && e.Begin? ==> e.req.amount != MIN
    requires IsStatement(before, s.ledger, id) && IsStatement(after, Run(s, events).ledger, id)
    ensures Net(after, id) - Net(before, id) == BalanceOf(Run(s, events), id) - BalanceOf(s, id)
  {
    StatementsReconcile(s, events, id, before, after);
    NothingNewOvernegated(s, events, id, "");
    StatementAddsUp(before, s.ledger, id);
    StatementAddsUp(after, Run(s, events).ledger, id);
  }
}
