/** An account as the program keeps it: a record whose balance and
    transaction log are updated in place by deposit, withdraw and
    addInterest. */
module Accounts {
  import opened Ledger

  class Account {
    const number: string
    const holderName: string
    const password: string
    var balance: real
    var transactions: seq<Transaction>
    /** The balance the account was created with; the program does not keep
        it, the ledger invariant is stated against it. */
    ghost const opening: real

    /** The account's contents as a value. */
    ghost function State(): AccountState
      reads this
    {
      AccountState(number, holderName, password, balance, transactions)
    }

    /** The ledger invariant: balance = opening + deposits + interest - withdrawals. */
    ghost predicate Valid()
      reads this
    {
      Balanced(opening, State())
    }

    /** createAccount: the given identity and balance, an empty log. */
    constructor (number: string, holderName: string, password: string, initialBalance: real)
      ensures Valid() && opening == initialBalance
      ensures State() == Open(number, holderName, password, initialBalance)
    {
      this.number := number;
      this.holderName := holderName;
      this.password := password;
      this.opening := initialBalance;
      balance := initialBalance;
      transactions := [];
    }

    /** deposit: `accepted` tells which message the program prints. */
    method Deposit(amount: real, now: Timestamp) returns (accepted: bool)
      requires Valid()
      modifies this
      ensures Valid()
      ensures accepted == DepositAccepted(amount)
      ensures State() == ApplyDeposit(old(State()), amount, now)
    {
      accepted := amount > 0.0;
      if accepted {
        balance := balance + amount;
        transactions := transactions + [Transaction(Kind.Deposit, amount, now)];
      }
      assert State() == ApplyDeposit(old(State()), amount, now);
    }

    /** withdraw: refused unless 0 < amount <= balance. */
    method Withdraw(amount: real, now: Timestamp) returns (accepted: bool)
      requires Valid()
      modifies this
      ensures Valid()
      ensures accepted == WithdrawAccepted(old(State()), amount)
      ensures State() == ApplyWithdraw(old(State()), amount, now)
    {
      accepted := amount > 0.0 && amount <= balance;
      if accepted {
        balance := balance - amount;
        transactions := transactions + [Transaction(Kind.Withdraw, amount, now)];
      }
      assert State() == ApplyWithdraw(old(State()), amount, now);
    }

    /** addInterest: unguarded; credits balance * rate / 100 and logs it. */
    method AddInterest(rate: real, now: Timestamp)
      requires Valid()
      modifies this
      ensures Valid()
      ensures State() == ApplyInterest(old(State()), rate, now)
    {
      var interest := balance * rate / 100.0;
      balance := balance + interest;
      transactions := transactions + [Transaction(Kind.Interest, interest, now)];
      assert State() == ApplyInterest(old(State()), rate, now);
    }

    /** checkPassword: plain, exact comparison with the stored password. */
    function CheckPassword(pwd: string): (ok: bool)
      ensures ok <==> pwd == password
    {
      password == pwd
    }
  }
}
