/**
 * The coin balance rules of the application: a spend request succeeds only
 * when the balance covers it, and earning adds to the balance.
 */
module Ledger {

  /** The outcome of a spend request: whether it succeeded and the new balance. */
  datatype Spent = Spent(ok: bool, balance: int)

  function Spend(balance: int, amount: int): (r: Spent)
    ensures r.ok <==> balance >= amount
    ensures r.ok ==> r.balance == balance - amount
    ensures !r.ok ==> r.balance == balance
    ensures balance >= 0 ==> r.balance >= 0
  {
    if balance >= amount then Spent(true, balance - amount) else Spent(false, balance)
  }

  function Earn(balance: int, amount: int): (r: int)
    ensures r - balance == amount
  {
    balance + amount
  }

  /** Earning back what was just spent restores the balance. */
  lemma EarnUndoesSpend(balance: int, amount: int)
    requires Spend(balance, amount).ok
    ensures Earn(Spend(balance, amount).balance, amount) == balance
  {
  }

  /** A spend of a non-negative amount never raises the balance. */
  lemma SpendNeverRaises(balance: int, amount: int)
    requires amount >= 0
    ensures Spend(balance, amount).balance <= balance
  {
  }
}
