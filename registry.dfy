/** The bank registry as a value: the ordered sequence of accounts and what
    each bank-wide operation does to it. The `Bank` class is proved to behave
    as these functions say. */
module Registry {
  import opened Ledger

  datatype Option<T> = None | Some(value: T)

  /** The message each bank operation ends with. */
  datatype Outcome =
    | Done                  // the operation's success message
    | AccountNotFound       // "Account not found!" / "One or both accounts not found!"
    | IncorrectPassword     // "Incorrect Password! Withdrawal denied."
    | InvalidDepositAmount  // deposit refused a non-positive amount
    | WithdrawalRefused     // withdraw refused: non-positive amount or insufficient balance
    | TransferRefused       // "Insufficient balance for transfer!"

  /** findAccountInBank: the lowest index holding `number`, or None when no
      account has it. */
  function Find(v: seq<AccountState>, number: string): (r: Option<nat>)
    ensures r.Some? ==> r.value < |v| && v[r.value].number == number
    ensures r.Some? ==> forall j :: 0 <= j < r.value ==> v[j].number != number
    ensures r.None? <==> forall j :: 0 <= j < |v| ==> v[j].number != number
  {
    if v == [] then None
    else if v[0].number == number then Some(0)
    else match Find(v[1..], number)
      case None => None
      case Some(i) => Some(i + 1)
  }

  /** addAccountToBank: a new account at the end, no duplicate check. */
  function Add(v: seq<AccountState>, number: string, holderName: string, password: string, initialBalance: real): (r: seq<AccountState>)
    ensures |r| == |v| + 1 && r[..|v|] == v
    ensures r[|v|] == Open(number, holderName, password, initialBalance)
  {
    v + [Open(number, holderName, password, initialBalance)]
  }

  /** deleteAccountFromBank: removes the first account holding `number`. */
  function Delete(v: seq<AccountState>, number: string): (r: (seq<AccountState>, Outcome))
    ensures Find(v, number).None? ==> r == (v, AccountNotFound)
    ensures Find(v, number).Some? ==> r.1 == Done && |r.0| == |v| - 1
    ensures Find(v, number).Some? ==>
              forall k :: 0 <= k < |r.0| ==> r.0[k] == v[if k < Find(v, number).value then k else k + 1]
    ensures Find(v, number).Some? ==>
              multiset(r.0) + multiset{v[Find(v, number).value]} == multiset(v)
  {
    match Find(v, number)
    case None => (v, AccountNotFound)
    case Some(i) =>
      assert v == v[..i] + [v[i]] + v[i + 1..];
      (v[..i] + v[i + 1..], Done)
  }

  /** depositToAccount: look up, then deposit. */
  function DepositTo(v: seq<AccountState>, number: string, amount: real, now: Timestamp): (r: (seq<AccountState>, Outcome))
    ensures |r.0| == |v|
    ensures r.1 == Done <==> Find(v, number).Some? && DepositAccepted(amount)
    ensures r.1 == AccountNotFound <==> Find(v, number).None?
    ensures r.1 != Done ==> r.0 == v
  {
    match Find(v, number)
    case None => (v, AccountNotFound)
    case Some(i) =>
      (v[i := ApplyDeposit(v[i], amount, now)],
       if DepositAccepted(amount) then Done else InvalidDepositAmount)
  }

  /** withdrawFromAccount: look up, check the password, then withdraw. */
  function WithdrawFrom(v: seq<AccountState>, number: string, password: string, amount: real, now: Timestamp): (r: (seq<AccountState>, Outcome))
    ensures |r.0| == |v|
    ensures r.1 == AccountNotFound <==> Find(v, number).None?
    ensures r.1 == IncorrectPassword <==> Find(v, number).Some? && v[Find(v, number).value].password != password
    ensures r.1 != Done ==> r.0 == v
  {
    match Find(v, number)
    case None => (v, AccountNotFound)
    case Some(i) =>
      if v[i].password != password then (v, IncorrectPassword)
      else (v[i := ApplyWithdraw(v[i], amount, now)],
            if WithdrawAccepted(v[i], amount) then Done else WithdrawalRefused)
  }

  /** transferFunds: both lookups, one balance pre-check, then withdraw from
      the source and deposit into the destination. The program reports
      success whenever the pre-check passes, even if the inner calls refuse
      the amount. */
  function Transfer(v: seq<AccountState>, from: string, to: string, amount: real, now: Timestamp): (r: (seq<AccountState>, Outcome))
    ensures |r.0| == |v|
    ensures r.1 == AccountNotFound <==> Find(v, from).None? || Find(v, to).None?
    ensures r.1 == TransferRefused <==>
              Find(v, from).Some? && Find(v, to).Some? && amount > v[Find(v, from).value].balance
    ensures r.1 != Done ==> r.0 == v
  {
    match (Find(v, from), Find(v, to))
    case (Some(i), Some(j)) =>
      if v[i].balance >= amount then
        var w := v[i := ApplyWithdraw(v[i], amount, now)];
        (w[j := ApplyDeposit(w[j], amount, now)], Done)
      else (v, TransferRefused)
    case _ => (v, AccountNotFound)
  }

  /** addInterestToAllAccounts: addInterest on each account, in order. */
  function InterestAll(v: seq<AccountState>, rate: real, now: Timestamp): (r: seq<AccountState>)
    ensures |r| == |v|
  {
    if v == [] then [] else [ApplyInterest(v[0], rate, now)] + InterestAll(v[1..], rate, now)
  }

  /** Sum of all balances. */
  function TotalBalance(v: seq<AccountState>): real
  {
    if v == [] then 0.0 else v[0].balance + TotalBalance(v[1..])
  }

  // ---------------------------------------------------------------------
  // Properties of the registry operations

  lemma {:induction false} TotalBalanceUpdate(v: seq<AccountState>, i: nat, x: AccountState)
    requires i < |v|
    ensures TotalBalance(v[i := x]) == TotalBalance(v) - v[i].balance + x.balance
  {
    if i > 0 {
      assert v[i := x][1..] == v[1..][i - 1 := x];
      TotalBalanceUpdate(v[1..], i - 1, x);
    }
  }

  /** Adding keeps every existing account and may repeat an identifier:
      lookups of that identifier keep finding the older account. */
  lemma AddKeepsFirstMatch(v: seq<AccountState>, number: string, holderName: string, password: string, initialBalance: real)
    requires Find(v, number).Some?
    ensures Find(Add(v, number, holderName, password, initialBalance), number) == Find(v, number)
    ensures |Add(v, number, holderName, password, initialBalance)| == |v| + 1
  {
    var r := Add(v, number, holderName, password, initialBalance);
    var i := Find(v, number).value;
    assert r[i] == v[i];
  }

  /** depositToAccount: only the found account changes, exactly as deposit
      says; an unknown number or a refused amount changes nothing. */
  lemma DepositToEffect(v: seq<AccountState>, number: string, amount: real, now: Timestamp)
    ensures Find(v, number).None? ==> DepositTo(v, number, amount, now) == (v, AccountNotFound)
    ensures !DepositAccepted(amount) ==> DepositTo(v, number, amount, now).0 == v
    ensures Find(v, number).Some? && DepositAccepted(amount) ==>
              var i := Find(v, number).value;
              var r := DepositTo(v, number, amount, now);
              && r.1 == Done && |r.0| == |v|
              && r.0[i].balance == v[i].balance + amount
              && r.0[i].transactions == v[i].transactions + [Transaction(Deposit, amount, now)]
              && (forall k :: 0 <= k < |v| && k != i ==> r.0[k] == v[k])
    ensures TotalBalance(DepositTo(v, number, amount, now).0)
            == TotalBalance(v) + (if Find(v, number).Some? && DepositAccepted(amount) then amount else 0.0)
  {
    match Find(v, number)
    case None =>
    case Some(i) =>
      TotalBalanceUpdate(v, i, ApplyDeposit(v[i], amount, now));
  }

  /** withdrawFromAccount: an unknown number or a wrong password changes
      nothing; otherwise only the found account changes, exactly as
      withdraw says. */
  lemma WithdrawFromEffect(v: seq<AccountState>, number: string, password: string, amount: real, now: Timestamp)
    ensures Find(v, number).None? ==> WithdrawFrom(v, number, password, amount, now) == (v, AccountNotFound)
    ensures Find(v, number).Some? && v[Find(v, number).value].password != password ==>
              WithdrawFrom(v, number, password, amount, now) == (v, IncorrectPassword)
    ensures WithdrawFrom(v, number, password, amount, now).1 == Done <==>
              Find(v, number).Some? && v[Find(v, number).value].password == password
              && WithdrawAccepted(v[Find(v, number).value], amount)
    ensures WithdrawFrom(v, number, password, amount, now).1 != Done ==>
              WithdrawFrom(v, number, password, amount, now).0 == v
    ensures WithdrawFrom(v, number, password, amount, now).1 == Done ==>
              var i := Find(v, number).value;
              var r := WithdrawFrom(v, number, password, amount, now).0;
              && |r| == |v|
              && r[i].balance == v[i].balance - amount
              && r[i].transactions == v[i].transactions + [Transaction(Withdraw, amount, now)]
              && (forall k :: 0 <= k < |v| && k != i ==> r[k] == v[k])
    ensures TotalBalance(WithdrawFrom(v, number, password, amount, now).0)
            == TotalBalance(v) - (if WithdrawFrom(v, number, password, amount, now).1 == Done then amount else 0.0)
  {
    match Find(v, number)
    case None =>
    case Some(i) =>
      if v[i].password == password {
        TotalBalanceUpdate(v, i, ApplyWithdraw(v[i], amount, now));
      }
  }

  /** transferFunds never creates or destroys money: the sum of all
      balances is the same afterwards, whatever the inputs. */
  lemma TransferConservesTotal(v: seq<AccountState>, from: string, to: string, amount: real, now: Timestamp)
    ensures |Transfer(v, from, to, amount, now).0| == |v|
    ensures TotalBalance(Transfer(v, from, to, amount, now).0) == TotalBalance(v)
  {
    match (Find(v, from), Find(v, to))
    case (Some(i), Some(j)) =>
      if v[i].balance >= amount {
        var w := v[i := ApplyWithdraw(v[i], amount, now)];
        TotalBalanceUpdate(v, i, w[i]);
        TotalBalanceUpdate(w, j, ApplyDeposit(w[j], amount, now));
        if WithdrawAccepted(v[i], amount) {
          assert DepositAccepted(amount);
        } else {
          assert !DepositAccepted(amount);
        }
      }
    case _ =>
  }

  /** transferFunds between two distinct accounts with 0 < amount <= source
      balance: the source loses the amount, the destination gains it, each
      gains one entry and no other account changes. */
  lemma TransferMoves(v: seq<AccountState>, from: string, to: string, amount: real, now: Timestamp)
    requires Find(v, from).Some? && Find(v, to).Some? && from != to
    requires 0.0 < amount <= v[Find(v, from).value].balance
    ensures var i, j, r := Find(v, from).value, Find(v, to).value, Transfer(v, from, to, amount, now);
            && r.1 == Done && |r.0| == |v|
            && r.0[i].balance == v[i].balance - amount
            && r.0[j].balance == v[j].balance + amount
            && r.0[i].transactions == v[i].transactions + [Transaction(Withdraw, amount, now)]
            && r.0[j].transactions == v[j].transactions + [Transaction(Deposit, amount, now)]
            && (forall k :: 0 <= k < |v| && k != i && k != j ==> r.0[k] == v[k])
  {
  }

  /** transferFunds changes nothing when an account is missing, when the
      amount exceeds the source balance, or when the amount is not positive
      (both inner calls refuse it; the outcome still reads as success). */
  lemma TransferRejects(v: seq<AccountState>, from: string, to: string, amount: real, now: Timestamp)
    ensures Find(v, from).None? || Find(v, to).None? ==>
              Transfer(v, from, to, amount, now) == (v, AccountNotFound)
    ensures Find(v, from).Some? && Find(v, to).Some? && amount > v[Find(v, from).value].balance ==>
              Transfer(v, from, to, amount, now) == (v, TransferRefused)
    ensures Find(v, from).Some? && Find(v, to).Some? && amount <= 0.0
            && amount <= v[Find(v, from).value].balance ==>
              Transfer(v, from, to, amount, now) == (v, Done)
  {
    match (Find(v, from), Find(v, to))
    case (Some(i), Some(j)) =>
      if amount <= 0.0 && amount <= v[i].balance {
        var w := v[i := ApplyWithdraw(v[i], amount, now)];
        assert w == v;
        assert w[j := ApplyDeposit(w[j], amount, now)] == v;
      }
    case _ =>
  }

  /** addInterestToAllAccounts applies addInterest exactly once to every
      account and keeps the number and order of accounts. */
  lemma {:induction false} InterestAllAt(v: seq<AccountState>, rate: real, now: Timestamp)
    ensures |InterestAll(v, rate, now)| == |v|
    ensures forall k :: 0 <= k < |v| ==> InterestAll(v, rate, now)[k] == ApplyInterest(v[k], rate, now)
  {
    if v != [] {
      InterestAllAt(v[1..], rate, now);
      var r := InterestAll(v, rate, now);
      forall k | 0 <= k < |v| ensures r[k] == ApplyInterest(v[k], rate, now) {
        if k > 0 {
          assert r[k] == InterestAll(v[1..], rate, now)[k - 1];
        }
      }
    }
  }

  /** Every account keeps the ledger invariant through the interest sweep,
      and each gains exactly one Interest entry. */
  lemma InterestAllKeepsLedger(openings: seq<real>, v: seq<AccountState>, rate: real, now: Timestamp)
    requires |openings| == |v|
    requires forall k :: 0 <= k < |v| ==> Balanced(openings[k], v[k])
    ensures forall k :: 0 <= k < |v| ==> Balanced(openings[k], InterestAll(v, rate, now)[k])
    ensures forall k :: 0 <= k < |v| ==>
              InterestAll(v, rate, now)[k].transactions
              == v[k].transactions + [Transaction(Interest, InterestOn(v[k].balance, rate), now)]
  {
    InterestAllAt(v, rate, now);
  }

  // ---------------------------------------------------------------------
  // Worked sessions

  /** Open an account with 100, deposit 50, try to withdraw 60 with a wrong
      password, then withdraw 60 with the right one: the balance ends at 90
      and the log holds the deposit and the second withdrawal only. */
  lemma CounterSession(number: string, holderName: string, password: string, wrong: string,
                       t1: Timestamp, t2: Timestamp, t3: Timestamp)
    requires wrong != password
    ensures var v0 := Add([], number, holderName, password, 100.0);
            var r1 := DepositTo(v0, number, 50.0, t1);
            var r2 := WithdrawFrom(r1.0, number, wrong, 60.0, t2);
            var r3 := WithdrawFrom(r2.0, number, password, 60.0, t3);
            && [r1.1, r2.1, r3.1] == [Done, IncorrectPassword, Done]
            && r2.0 == r1.0 && r1.0[0].balance == 150.0
            && |r3.0| == 1 && r3.0[0].balance == 90.0
            && r3.0[0].transactions == [Transaction(Deposit, 50.0, t1), Transaction(Withdraw, 60.0, t3)]
  {
    var v0 := Add([], number, holderName, password, 100.0);
    assert Find(v0, number) == Some(0);
    var r1 := DepositTo(v0, number, 50.0, t1);
    assert Find(r1.0, number) == Some(0);
    var r2 := WithdrawFrom(r1.0, number, wrong, 60.0, t2);
    assert r2.0 == r1.0;
  }

  /** X holds 100 and Y 50: moving 30 leaves 70 and 80, moving 150 is
      refused, and a 10% sweep then brings them to 77 and 88. */
  lemma TransferSession(x: string, y: string, t1: Timestamp, t2: Timestamp, t3: Timestamp)
    requires x != y
    ensures var v0 := Add(Add([], x, "X", "px", 100.0), y, "Y", "py", 50.0);
            var r1 := Transfer(v0, x, y, 30.0, t1);
            var r2 := Transfer(r1.0, x, y, 150.0, t2);
            var v3 := InterestAll(r2.0, 10.0, t3);
            && r1.1 == Done && r1.0[0].balance == 70.0 && r1.0[1].balance == 80.0
            && r2.1 == TransferRefused && r2.0 == r1.0
            && v3[0].balance == 77.0 && v3[1].balance == 88.0
            && r1.0[0].transactions == [Transaction(Withdraw, 30.0, t1)]
            && r1.0[1].transactions == [Transaction(Deposit, 30.0, t1)]
            && v3[0].transactions == [Transaction(Withdraw, 30.0, t1), Transaction(Interest, 7.0, t3)]
            && v3[1].transactions == [Transaction(Deposit, 30.0, t1), Transaction(Interest, 8.0, t3)]
  {
    var v0 := Add(Add([], x, "X", "px", 100.0), y, "Y", "py", 50.0);
    assert Find(v0, x) == Some(0) && Find(v0, y) == Some(1);
    var r1 := Transfer(v0, x, y, 30.0, t1);
    assert Find(r1.0, x) == Some(0) && Find(r1.0, y) == Some(1);
    InterestAllAt(r1.0, 10.0, t3);
  }
}
