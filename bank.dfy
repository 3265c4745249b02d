/** The bank as the program keeps it: a growable, ordered array of accounts,
    updated in place. Each operation is proved to act on the accounts'
    contents exactly as the matching `Registry` function says. */
module Banking {
  import opened Ledger
  import opened Accounts
  import opened Registry

  /** The left shift that closes the gap of a deleted slot: every later
      element moves down one place and the last slot is dropped. */
  method RemoveAt<T>(a: seq<T>, i: nat) returns (r: seq<T>)
    requires i < |a|
    ensures |r| == |a| - 1
    ensures forall k :: 0 <= k < i ==> r[k] == a[k]
    ensures forall k :: i <= k < |r| ==> r[k] == a[k + 1]
  {
    var shifted := a;
    var j := i;
    while j < |shifted| - 1
      invariant i <= j < |shifted| == |a|
      invariant forall k :: 0 <= k < i ==> shifted[k] == a[k]
      invariant forall k :: i <= k < j ==> shifted[k] == a[k + 1]
      invariant forall k :: j <= k < |shifted| ==> shifted[k] == a[k]
    {
      shifted := shifted[j := shifted[j + 1]];
      j := j + 1;
    }
    r := shifted[..|shifted| - 1];
  }

  class Bank {
    var accounts: seq<Account>

    /** No account object sits in two slots, and every account keeps the
        ledger invariant. (Identifiers need not be distinct.) */
    ghost predicate Valid()
      reads this, accounts
    {
      && (forall i, j :: 0 <= i < j < |accounts| ==> accounts[i] != accounts[j])
      && (forall i :: 0 <= i < |accounts| ==> accounts[i].Valid())
    }

    /** The contents of the accounts, in array order. */
    ghost function View(): (v: seq<AccountState>)
      reads this, accounts
      ensures |v| == |accounts|
      ensures forall i :: 0 <= i < |accounts| ==> v[i] == accounts[i].State()
    {
      var a := accounts;
      seq(|a|, i requires 0 <= i < |a| reads a => a[i].State())
    }

    /** createBank: no accounts. */
    constructor ()
      ensures Valid() && accounts == [] && View() == []
    {
      accounts := [];
    }

    /** addAccountToBank: appends a fresh account, even when the identifier
        is already in use. */
    method AddAccount(number: string, holderName: string, password: string, initialBalance: real)
      requires Valid()
      modifies this
      ensures Valid()
      ensures View() == Add(old(View()), number, holderName, password, initialBalance)
      ensures |accounts| == |old(accounts)| + 1 && accounts[..|old(accounts)|] == old(accounts)
      ensures fresh(accounts[|accounts| - 1]) && accounts[|accounts| - 1].opening == initialBalance
    {
      var account := new Account(number, holderName, password, initialBalance);
      accounts := accounts + [account];
    }

    /** findAccountInBank: linear scan for the first account holding `number`. */
    method FindAccount(number: string) returns (r: Option<nat>)
      ensures r == Find(View(), number)
      ensures r.Some? ==> r.value < |accounts| && accounts[r.value].number == number
    {
      var i := 0;
      while i < |accounts|
        invariant 0 <= i <= |accounts|
        invariant forall j :: 0 <= j < i ==> accounts[j].number != number
      {
        if accounts[i].number == number {
          return Some(i);
        }
        i := i + 1;
      }
      return None;
    }

    /** deleteAccountFromBank: removes the first account holding `number`,
        shifting the later ones one place to the left; its log goes with it. */
    method DeleteAccount(number: string) returns (outcome: Outcome)
      requires Valid()
      modifies this
      ensures Valid()
      ensures (View(), outcome) == Delete(old(View()), number)
      ensures Find(old(View()), number).Some? ==>
                var i := Find(old(View()), number).value;
                accounts == old(accounts)[..i] + old(accounts)[i + 1..]
    {
      var i := 0;
      while i < |accounts|
        invariant 0 <= i <= |accounts|
        invariant accounts == old(accounts)
        invariant forall j :: 0 <= j < i ==> accounts[j].number != number
      {
        if accounts[i].number == number {
          ghost var v := View();
          assert Find(v, number) == Some(i);
          assert Delete(v, number) == (v[..i] + v[i + 1..], Done);
          label before:
          accounts := RemoveAt(accounts, i);
          assert accounts == old(accounts)[..i] + old(accounts)[i + 1..];
          SlotRemoved@before(i);
          return Done;
        }
        i := i + 1;
      }
      return AccountNotFound;
    }

    /** depositToAccount: look up, then deposit into the account found. */
    method DepositTo(number: string, amount: real, now: Timestamp) returns (outcome: Outcome)
      requires Valid()
      modifies accounts
      ensures Valid() && accounts == old(accounts)
      ensures (View(), outcome) == Registry.DepositTo(old(View()), number, amount, now)
    {
      var found := FindAccount(number);
      if found.Some? {
        var i := found.value;
        label before:
        var accepted := accounts[i].Deposit(amount, now);
        outcome := if accepted then Done else InvalidDepositAmount;
        SlotUpdated@before(i);
      } else {
        outcome := AccountNotFound;
      }
    }

    /** withdrawFromAccount: look up, check the password, then withdraw. The
        password the program reads from the console is a parameter here. */
    method WithdrawFrom(number: string, password: string, amount: real, now: Timestamp) returns (outcome: Outcome)
      requires Valid()
      modifies accounts
      ensures Valid() && accounts == old(accounts)
      ensures (View(), outcome) == Registry.WithdrawFrom(old(View()), number, password, amount, now)
    {
      var found := FindAccount(number);
      if found.Some? {
        var i := found.value;
        if accounts[i].CheckPassword(password) {
          label before:
          var accepted := accounts[i].Withdraw(amount, now);
          outcome := if accepted then Done else WithdrawalRefused;
          SlotUpdated@before(i);
        } else {
          outcome := IncorrectPassword;
        }
      } else {
        outcome := AccountNotFound;
      }
    }

    /** transferFunds: both lookups, the balance pre-check, then withdraw
        from the source and deposit into the destination. */
    method TransferFunds(from: string, to: string, amount: real, now: Timestamp) returns (outcome: Outcome)
      requires Valid()
      modifies accounts
      ensures Valid() && accounts == old(accounts)
      ensures (View(), outcome) == Transfer(old(View()), from, to, amount, now)
    {
      var source := FindAccount(from);
      var target := FindAccount(to);
      if source.Some? && target.Some? {
        var i, j := source.value, target.value;
        if accounts[i].balance >= amount {
          label beforeWithdraw:
          var withdrawn := accounts[i].Withdraw(amount, now);
          SlotUpdated@beforeWithdraw(i);
          label beforeDeposit:
          var deposited := accounts[j].Deposit(amount, now);
          SlotUpdated@beforeDeposit(j);
          outcome := Done;
        } else {
          outcome := TransferRefused;
        }
      } else {
        outcome := AccountNotFound;
      }
    }

    /** After a step that changed at most the account in slot `i`, the
        bank is still valid and its contents are the earlier ones with slot
        `i` replaced. */
    twostate lemma SlotUpdated(i: nat)
      requires old(Valid()) && accounts == old(accounts) && i < |accounts|
      requires forall k :: 0 <= k < |accounts| && k != i ==> unchanged(accounts[k])
      requires accounts[i].Valid()
      ensures Valid()
      ensures View() == old(View())[i := accounts[i].State()]
    {
      assert forall k :: 0 <= k < |accounts| && k != i ==> accounts[k] != accounts[i];
    }

    /** After the account array lost slot `i` and no account changed, the
        bank is still valid and its contents are the earlier ones without
        slot `i`. */
    twostate lemma SlotRemoved(i: nat)
      requires old(Valid()) && i < |old(accounts)|
      requires accounts == old(accounts)[..i] + old(accounts)[i + 1..]
      requires forall k :: 0 <= k < |old(accounts)| ==> unchanged(old(accounts)[k])
      ensures Valid()
      ensures View() == old(View())[..i] + old(View())[i + 1..]
    {
      assert forall k :: 0 <= k < |accounts| ==>
               accounts[k] == old(accounts)[if k < i then k else k + 1];
    }

    /** addInterestToAllAccounts: addInterest on every account, in order. */
    method AddInterestToAll(rate: real, now: Timestamp)
      requires Valid()
      modifies accounts
      ensures Valid() && accounts == old(accounts)
      ensures View() == InterestAll(old(View()), rate, now)
    {
      InterestAllAt(View(), rate, now);
      var i := 0;
      while i < |accounts|
        invariant 0 <= i <= |accounts|
        invariant Valid()
        invariant forall k :: 0 <= k < i ==> accounts[k].State() == ApplyInterest(old(accounts[k].State()), rate, now)
        invariant forall k :: i <= k < |accounts| ==> accounts[k].State() == old(accounts[k].State())
      {
        accounts[i].AddInterest(rate, now);
        i := i + 1;
      }
    }
  }
}
