# Banking ledger in Dafny

This project models the in-memory ledger of a small C banking program
(`bankingManagementSystemC.cpp`). The ledger has two layers:

- **Accounts.** Each account has a number, a holder name, a plaintext
  password, a balance and an append-only transaction log. `deposit` and
  `withdraw` are guarded updates. `addInterest` is unguarded. Each
  successful call appends one `Deposit`, `Withdraw` or `Interest` entry.
- **The bank.** The bank is an ordered, growable array of accounts.
  - Accounts are appended on creation.
  - Delete removes the first account with a matching number and shifts the
    later accounts left.
  - Lookup is a linear scan for the first match.
  - Deposit-to, withdraw-from (password-gated), transfer and the interest
    sweep look up accounts and then delegate to the account operations.

The model has four modules:

- `Ledger` (ledger.dfy) holds values: `Transaction`, `AccountState`, and
  the effect of each account operation as a function. It also defines the
  ledger invariant `Balanced`: balance = opening balance + Σ Deposit
  + Σ Interest − Σ Withdraw over the log.
  - `RunKeepsLedger` proves that invariant for any sequence of calls.
  - It also proves that the log grows by exactly one entry per successful
    call.
- `Accounts` (account.dfy) holds `class Account`. Its `balance` and
  `transactions` fields are updated in place. Each method is proved to
  produce `ApplyDeposit` / `ApplyWithdraw` / `ApplyInterest` of its old
  state and to keep the ledger invariant. The identity fields are `const`.
- `Registry` (registry.dfy) specifies every bank operation as a function on
  the sequence of account states. It also holds the lemmas about them:
  - first-match lookup;
  - delete-first-match;
  - only the found account changes;
  - the password gate;
  - transfer conserves the total of all balances;
  - the sweep applies interest once per account;
  - two worked sessions.
- `Banking` (bank.dfy) holds `class Bank` over `accounts: seq<Account>`. Its
  invariant is that no account object is in two slots and every account is
  balanced. Each method is proved to equal the matching `Registry`
  function applied to the old contents. The lookup scan, the left shift of
  delete and the interest sweep keep the source's loops.

Three behaviours of the code are worth stating outright, since an
account system is often expected to do otherwise:

- `addAccountToBank` does not check for duplicate numbers, so there is no
  duplicate-identifier error. Lookups find the older account
  (`AddKeepsFirstMatch`).
- The initial balance and the interest rate are not checked, so the balance
  can be negative. The only non-negativity fact is that a successful
  withdrawal from a non-negative balance leaves it non-negative.
- `transferFunds` reports success whenever both accounts exist and
  `amount <= source balance`. With a non-positive amount, both inner calls
  refuse it, so nothing changes even though the outcome reads `Done`
  (`TransferRejects`).

Amounts are exact `real`s. The clock reading written into each entry is a
`Timestamp` parameter that the model never inspects.

## Model

| member | source | states |
|---|---|---|
| Ledger.Open | bankingManagementSystemC.cpp:37-44 | A created account has the given number, holder, password and balance, and an empty log |
| Ledger.NetAppend | bankingManagementSystemC.cpp:46-88 | Appending one entry moves the log's net effect by that entry's amount (negated for Withdraw) |
| Ledger.ApplyDeposit | bankingManagementSystemC.cpp:46-59 | amount > 0: balance rises by the amount and one Deposit entry is appended after the unchanged old log. Otherwise the account is unchanged. The balance change always equals the change in the log's net effect |
| Ledger.ApplyWithdraw | bankingManagementSystemC.cpp:62-75 | 0 < amount ≤ balance: balance falls by the amount and one Withdraw entry is appended. Otherwise the account is unchanged. A non-negative balance stays non-negative. The balance change equals the log's net change |
| Ledger.ApplyInterest | bankingManagementSystemC.cpp:78-88 | Always appends one Interest entry of balance*rate/100 and raises the balance by that same value, for any rate; the balance change equals the log's net change |
| Ledger.StepKeepsLedger | bankingManagementSystemC.cpp:46-88 | One deposit, withdraw or interest call keeps the ledger invariant and the account number. It keeps earlier entries and adds exactly one entry iff it passes its guard |
| Ledger.RunKeepsLedger | bankingManagementSystemC.cpp:46-88 | After any sequence of calls: balance = opening + Σ Deposit + Σ Interest − Σ Withdraw over the log. Earlier entries are kept, and the log grows by the number of successful calls |
| Ledger.OpenedAccountLedger | bankingManagementSystemC.cpp:37-88 | From creation with balance b, after any calls: balance = b + net effect of the log, and the entry count equals the number of successful calls |
| Accounts.Account.constructor | bankingManagementSystemC.cpp:37-44 | createAccount: the given identity and balance, an empty log, ledger invariant established |
| Accounts.Account.Deposit | bankingManagementSystemC.cpp:46-59 | In-place deposit. Reports acceptance iff amount > 0. The new state is ApplyDeposit of the old one, and the ledger invariant is kept |
| Accounts.Account.Withdraw | bankingManagementSystemC.cpp:62-75 | In-place withdraw. Reports acceptance iff 0 < amount ≤ old balance. The new state is ApplyWithdraw of the old one, and the ledger invariant is kept |
| Accounts.Account.AddInterest | bankingManagementSystemC.cpp:78-88 | In-place interest: the new state is ApplyInterest of the old one; the ledger invariant is kept |
| Accounts.Account.CheckPassword | bankingManagementSystemC.cpp:105-107 | Accepts exactly the stored password (exact equality, no hashing) |
| Registry.Find | bankingManagementSystemC.cpp:141-148 | Returns the lowest index whose account has the number, or None iff no account has it |
| Registry.Add | bankingManagementSystemC.cpp:114-123 | Count rises by one. Existing accounts are unchanged and in place. The new last account is freshly opened with the given balance, with no duplicate check |
| Registry.AddKeepsFirstMatch | bankingManagementSystemC.cpp:114-123 | Adding a number that already exists succeeds, and lookups keep returning the older account |
| Registry.Delete | bankingManagementSystemC.cpp:125-139 | No match: bank unchanged, not-found reported. Match: exactly the first match is removed, the others keep their relative order, the count falls by one, and the multiset of accounts loses exactly that one |
| Registry.DepositTo | bankingManagementSystemC.cpp:150-157 | Keeps the account count. Success iff the number is found and amount > 0; not-found iff no account has the number; any other outcome leaves the bank unchanged. The found account's new balance and entry are in DepositToEffect |
| Registry.WithdrawFrom | bankingManagementSystemC.cpp:159-173 | Keeps the account count. Not-found iff no account has the number; the password error iff the found account's password differs; any outcome but success leaves the bank unchanged. Success and its effect are in WithdrawFromEffect |
| Registry.Transfer | bankingManagementSystemC.cpp:175-189 | Keeps the account count. Not-found iff either number is missing; refused iff both exist and amount > source balance; any outcome but success leaves the bank unchanged. Conservation, the moved amount and the rejections are in TransferConservesTotal, TransferMoves and TransferRejects |
| Registry.DepositToEffect | bankingManagementSystemC.cpp:150-157 | Unknown number or refused amount: nothing changes. Otherwise only the found account gains the amount and one Deposit entry. The total of all balances rises by exactly the amount deposited |
| Registry.WithdrawFromEffect | bankingManagementSystemC.cpp:159-173 | Unknown number: nothing changes. Wrong password: nothing changes and the password error is reported. Success iff found, password right and 0 < amount ≤ balance. Then only that account loses the amount and gains one Withdraw entry, and the total falls by the amount |
| Registry.TransferConservesTotal | bankingManagementSystemC.cpp:175-189 | Transfer keeps the account count and the sum of all balances, for every input, including transfer to the same account |
| Registry.TransferMoves | bankingManagementSystemC.cpp:175-189 | Distinct accounts and 0 < amount ≤ source balance: source falls by the amount, destination rises by it, each gains one entry, and no other account changes |
| Registry.TransferRejects | bankingManagementSystemC.cpp:175-189 | Missing account: nothing changes. Amount above the source balance: nothing changes. Non-positive amount: both inner calls refuse, so nothing changes, yet success is reported |
| Registry.InterestAll | bankingManagementSystemC.cpp:191-196 | The sweep keeps the number of accounts |
| Registry.InterestAllAt | bankingManagementSystemC.cpp:191-196 | The sweep applies addInterest exactly once to each account, position by position |
| Registry.InterestAllKeepsLedger | bankingManagementSystemC.cpp:191-196 | After the sweep every account is still balanced and has gained exactly one Interest entry of balance*rate/100 |
| Registry.CounterSession | bankingManagementSystemC.cpp:150-173 | Open with 100, deposit 50, withdraw 60 with a wrong password (denied, balance stays 150, nothing changes), withdraw 60 with the right one: balance 90, log = Deposit 50, Withdraw 60 |
| Registry.TransferSession | bankingManagementSystemC.cpp:175-196 | X=100, Y=50: transferring 30 gives 70/80 with logs [Withdraw 30] and [Deposit 30]; transferring 150 is refused with nothing changed; a 10% sweep gives 77/88 and appends Interest 7 and Interest 8 |
| Banking.RemoveAt | bankingManagementSystemC.cpp:129-133 | The left-shift loop: earlier slots are kept, each later slot takes its successor, and the array is one shorter |
| Banking.Bank.constructor | bankingManagementSystemC.cpp:109-112 | createBank: no accounts |
| Banking.Bank.AddAccount | bankingManagementSystemC.cpp:114-123 | The contents become Add of the old contents. The old account objects stay in their slots, and a fresh account is appended |
| Banking.Bank.FindAccount | bankingManagementSystemC.cpp:141-148 | The scan returns exactly Find of the current contents, whose slot holds the number |
| Banking.Bank.DeleteAccount | bankingManagementSystemC.cpp:125-139 | Contents and outcome are Delete of the old contents. On a match, the account array is the old one without the first matching slot |
| Banking.Bank.DepositTo | bankingManagementSystemC.cpp:150-157 | Contents and outcome are DepositTo of the old contents; the invariant is kept |
| Banking.Bank.WithdrawFrom | bankingManagementSystemC.cpp:159-173 | Contents and outcome are WithdrawFrom of the old contents, with the password checked before withdrawing; the invariant is kept |
| Banking.Bank.TransferFunds | bankingManagementSystemC.cpp:175-189 | Contents and outcome are Transfer of the old contents; the invariant is kept |
| Banking.Bank.AddInterestToAll | bankingManagementSystemC.cpp:191-196 | The loop leaves the contents equal to InterestAll of the old contents, with the same account objects in the same order; the invariant is kept |

## Left out

- Console I/O is not modelled: the `printf`/`scanf` calls, the `main` menu
  loop and `displayTransaction`, `displayAccount`,
  `displayTransactionHistory` and `displayAllAccounts`. They have no effect
  on the ledger. The printed messages appear only as the `Outcome` value
  (or the `accepted` flag) of each operation.
- The password-gated display options of the menu (view details, view
  history) are menu code, not ledger operations.
- The password that `withdrawFromAccount` reads from the console is a
  parameter.
- Timestamps come from `time`/`ctime` in the source. Here each operation
  receives one opaque `Timestamp`. A transfer writes both of its entries
  with that value, and the interest sweep writes every entry with it. The
  source reads the clock once per entry, so its entries may differ by a
  second.
- `realloc`/`free` and the "Memory allocation failed" branches are not
  modelled: allocation always succeeds. In the source, `deposit`,
  `withdraw` and `addInterest` change the balance before that check, so a
  failed allocation would leave the balance changed with no log entry; the
  model does not reproduce this.
- Fixed `char[N]` buffers and `strcpy` overflow are not modelled. Numbers,
  names and passwords are unbounded strings compared by equality.
- `double` rounding is not modelled; amounts and rates are exact reals.
- `findAccountInBank` returns a pointer into the array; the model returns
  the slot index.
- The source stores accounts by value in the array, and delete copies later
  structs one slot down. The model stores references to `Account` objects
  and moves the references. The contents seen through `View()` are the
  same.
