/** The books of the bank after any interleaving of any number of transfers, aborts included. */
module BankRuns {
  import opened Int64
  import opened Banking
  import opened BankSteps

  // ---------- The books balance ----------

  /** The balance change the ledger accounts for: each row's effect, less 2^64 where the debit wrapped. */
  function Explained(ledger: seq<Transfer>, id: int64): int {
    Net(ledger, id) - TWO_TO_THE_64 * Overnegated(ledger, id)
  }

  function BalanceOf(s: State, id: int64): int {
    if id in s.accounts then s.accounts[id].balance else 0
  }

  lemma CommitMeaning(s: State, t: FlightId)
    requires Inv(s) && t in s.flights && s.flights[t].phase.Recorded?
    ensures var s' := Commit(s, t);
            && s'.accounts.Keys == s.accounts.Keys
            && forall id :: id in s.accounts ==>
                 && s'.accounts[id].balance == s.accounts[id].balance + Delta(s.flights[t].req, id)
                 && s'.accounts[id].userId == s.accounts[id].userId
                 && s'.accounts[id].currency == s.accounts[id].currency
  {
  }

  lemma InstallBoth(accounts: Accounts, writes: map<int64, int64>, sender: int64, receiver: int64)
    requires writes.Keys == {sender, receiver} <= accounts.Keys
    ensures var debited := accounts[sender := accounts[sender].(balance := writes[sender])];
            Install(accounts, writes) == debited[receiver := debited[receiver].(balance := writes[receiver])]
  {
  }

  lemma CommitTotal(s: State, t: FlightId, currency: string)
    requires Inv(s) && t in s.flights && s.flights[t].phase.Recorded?
    ensures var req := s.flights[t].req;
            Total(Commit(s, t).accounts, currency) == Total(s.accounts, currency)
              - (if req.currency == currency && req.amount == MIN then TWO_TO_THE_64 else 0)
  {
    var f := s.flights[t];
    var sender, receiver := f.req.senderId, f.req.receiverId;
    var debited := s.accounts[sender := s.accounts[sender].(balance := f.writes[sender])];
    TotalPut(s.accounts, sender, f.writes[sender], currency);
    TotalPut(debited, receiver, f.writes[receiver], currency);
    InstallBoth(s.accounts, f.writes, sender, receiver);
    NegIsExactExceptOnMin(f.req.amount);
  }

  /** A step that is not a commit leaves every committed balance and the ledger alone; an account opens empty. */
  lemma OtherStepsAreInvisible(s: State, e: Event)
    requires !(e.Advance? && e.t in s.flights && s.flights[e.t].phase.Recorded?)
    ensures Step(s, e).ledger == s.ledger
    ensures Step(s, e).accounts
         == if e.Open? && e.id !in s.accounts then s.accounts[e.id := Account(e.userId, e.currency, 0)]
            else s.accounts
  {
  }

  lemma CommitKeepsBooks(s: State, t: FlightId, id: int64, currency: string)
    requires Inv(s) && t in s.flights && s.flights[t].phase.Recorded?
    ensures var s' := Commit(s, t);
            && BalanceOf(s', id) - Explained(s'.ledger, id) == BalanceOf(s, id) - Explained(s.ledger, id)
            && Total(s'.accounts, currency) + TWO_TO_THE_64 * OvernegatedIn(s'.ledger, currency)
                 == Total(s.accounts, currency) + TWO_TO_THE_64 * OvernegatedIn(s.ledger, currency)
  {
    LedgerGrows(s.ledger, RowOf(s.flights[t].req), id, currency);
    CommitMeaning(s, t);
    CommitTotal(s, t, currency);
    NegIsExactExceptOnMin(s.flights[t].req.amount);
  }

  lemma StepKeepsBooks(s: State, e: Event, id: int64, currency: string)
    requires Inv(s)
    ensures var s' := Step(s, e);
            && s.ledger <= s'.ledger
            && BalanceOf(s', id) - Explained(s'.ledger, id) == BalanceOf(s, id) - Explained(s.ledger, id)
            && Total(s'.accounts, currency) + TWO_TO_THE_64 * OvernegatedIn(s'.ledger, currency)
                 == Total(s.accounts, currency) + TWO_TO_THE_64 * OvernegatedIn(s.ledger, currency)
  {
    if e.Advance? && e.t in s.flights && s.flights[e.t].phase.Recorded? {
      CommitKeepsBooks(s, e.t, id, currency);
    } else {
      OtherStepsAreInvisible(s, e);
      if e.Open? && e.id !in s.accounts {
        TotalOpen(s.accounts, e.id, Account(e.userId, e.currency, 0), currency);
      }
    }
  }

  lemma {:induction false} RunKeepsBooks(s: State, events: seq<Event>, id: int64, currency: string)
    requires Inv(s)
    ensures var s' := Run(s, events);
            && Inv(s')
            && s.ledger <= s'.ledger
            && BalanceOf(s', id) - Explained(s'.ledger, id) == BalanceOf(s, id) - Explained(s.ledger, id)
            && Total(s'.accounts, currency) + TWO_TO_THE_64 * OvernegatedIn(s'.ledger, currency)
                 == Total(s.accounts, currency) + TWO_TO_THE_64 * OvernegatedIn(s.ledger, currency)
    decreases |events|
  {
    if events == [] {
    } else {
      StepKeepsInv(s, events[0]);
      StepKeepsBooks(s, events[0], id, currency);
      RunKeepsBooks(Step(s, events[0]), events[1..], id, currency);
    }
  }

  /**
   Ledger agreement, on every interleaving: what an account gained since the start is what the rows
   committed since then say, except that each committed amount of -2^63 costs its sender 2^64 more.
   An account opened on the way starts from 0.
   */
  lemma LedgerAgreement(s: State, events: seq<Event>, id: int64)
    requires Quiescent(s)
    ensures var s' := Run(s, events);
            && s.ledger <= s'.ledger
            && BalanceOf(s', id) - BalanceOf(s, id) ==
                 Net(s'.ledger, id) - Net(s.ledger, id)
                 - TWO_TO_THE_64 * (Overnegated(s'.ledger, id) - Overnegated(s.ledger, id))
  {
    RunKeepsBooks(s, events, id, "");
  }

  /** The total of a currency survives a run exactly when no amount of -2^63 was committed in it. */
  lemma Conservation(s: State, events: seq<Event>, currency: string)
    requires Quiescent(s)
    ensures var s' := Run(s, events);
            Total(s'.accounts, currency) == Total(s.accounts, currency) <==>
              OvernegatedIn(s'.ledger, currency) == OvernegatedIn(s.ledger, currency)
  {
    RunKeepsBooks(s, events, 0, currency);
  }

  ghost predicate AllNegatable(s: State) {
    forall t :: t in s.flights ==> s.flights[t].req.amount != MIN
  }

  lemma {:induction false} NothingNewOvernegated(s: State, events: seq<Event>, id: int64, currency: string)
    requires AllNegatable(s)
    requires forall e :: e in events && e.Begin? ==> e.req.amount != MIN
    ensures Overnegated(Run(s, events).ledger, id) == Overnegated(s.ledger, id)
    ensures OvernegatedIn(Run(s, events).ledger, currency) == OvernegatedIn(s.ledger, currency)
    decreases |events|
  {
    if events == [] {
    } else {
      var e := events[0];
      var s' := Step(s, e);
      if e.Advance? && e.t in s.flights && s.flights[e.t].phase.Recorded? {
        LedgerGrows(s.ledger, RowOf(s.flights[e.t].req), id, currency);
      } else {
        OtherStepsAreInvisible(s, e);
      }
      assert AllNegatable(s');
      NothingNewOvernegated(s', events[1..], id, currency);
    }
  }

  /** When every request's amount has a negation, balances follow the ledger exactly and totals never change. */
  lemma BooksBalance(s: State, events: seq<Event>, id: int64, currency: string)
    requires Quiescent(s)
    requires forall e :: e in events && e.Begin? ==> e.req.amount != MIN
    ensures var s' := Run(s, events);
            && BalanceOf(s', id) == BalanceOf(s, id) + Net(s'.ledger, id) - Net(s.ledger, id)
            && Total(s'.accounts, currency) == Total(s.accounts, currency)
  {
    LedgerAgreement(s, events, id);
    Conservation(s, events, currency);
    NothingNewOvernegated(s, events, id, currency);
  }
}
