/** The value layer of one account: transactions, the account record and the
    effect of deposit, withdraw and interest on it, with the ledger invariant
    (balance = opening balance + deposits + interest - withdrawals). */
module Ledger {

  /** The text the system clock gave when an entry was recorded. The model
      never looks inside it: every operation receives it as a parameter. */
  type Timestamp = string

  /** The three entry types the ledger writes. */
  datatype Kind = Deposit | Withdraw | Interest

  /** One entry of an account's transaction log. */
  datatype Transaction = Transaction(kind: Kind, amount: real, timestamp: Timestamp)

  /** The contents of one account. */
  datatype AccountState = AccountState(
    number: string,
    holderName: string,
    password: string,
    balance: real,
    transactions: seq<Transaction>)

  /** A freshly created account: the given balance and an empty log. */
  function Open(number: string, holderName: string, password: string, initialBalance: real): (s: AccountState)
    ensures s.balance == initialBalance && s.transactions == []
    ensures s.number == number && s.holderName == holderName && s.password == password
  {
    AccountState(number, holderName, password, initialBalance, [])
  }

  /** Sum of the amounts of the entries of kind `k`. */
  function Total(log: seq<Transaction>, k: Kind): real
  {
    if log == [] then 0.0
    else (if log[0].kind == k then log[0].amount else 0.0) + Total(log[1..], k)
  }

  /** What the log says the balance has moved by since the account was opened. */
  function Net(log: seq<Transaction>): real
  {
    Total(log, Deposit) + Total(log, Interest) - Total(log, Withdraw)
  }

  /** The ledger invariant of an account opened with balance `opening`. */
  predicate Balanced(opening: real, s: AccountState)
  {
    s.balance == opening + Net(s.transactions)
  }

  lemma {:induction false} TotalAppend(log: seq<Transaction>, t: Transaction, k: Kind)
    ensures Total(log + [t], k) == Total(log, k) + (if t.kind == k then t.amount else 0.0)
  {
    if log != [] {
      assert (log + [t])[1..] == log[1..] + [t];
      TotalAppend(log[1..], t, k);
    }
  }

  /** Appending one entry moves Net by exactly that entry's signed amount. */
  lemma NetAppend(log: seq<Transaction>, t: Transaction)
    ensures Net(log + [t]) == Net(log) + (if t.kind == Withdraw then -t.amount else t.amount)
  {
    TotalAppend(log, t, Deposit);
    TotalAppend(log, t, Interest);
    TotalAppend(log, t, Withdraw);
  }

  /** The guard of deposit. */
  predicate DepositAccepted(amount: real)
  {
    amount > 0.0
  }

  /** The guard of withdraw. */
  predicate WithdrawAccepted(s: AccountState, amount: real)
  {
    amount > 0.0 && amount <= s.balance
  }

  /** The interest `addInterest` credits: `rate` is a percentage and may be
      of either sign. */
  function InterestOn(balance: real, rate: real): real
  {
    balance * rate / 100.0
  }

  /** deposit: a positive amount is credited and logged; anything else is
      refused and changes nothing. */
  function ApplyDeposit(s: AccountState, amount: real, now: Timestamp): (r: AccountState)
    ensures r.number == s.number && r.holderName == s.holderName && r.password == s.password
    ensures DepositAccepted(amount) ==> r.balance == s.balance + amount
    ensures DepositAccepted(amount) ==> r.transactions == s.transactions + [Transaction(Deposit, amount, now)]
    ensures !DepositAccepted(amount) ==> r == s
    ensures r.balance >= s.balance
    ensures r.balance - s.balance == Net(r.transactions) - Net(s.transactions)
  {
    if DepositAccepted(amount) then
      NetAppend(s.transactions, Transaction(Deposit, amount, now));
      s.(balance := s.balance + amount,
         transactions := s.transactions + [Transaction(Deposit, amount, now)])
    else s
  }

  /** withdraw: succeeds exactly when 0 < amount <= balance. */
  function ApplyWithdraw(s: AccountState, amount: real, now: Timestamp): (r: AccountState)
    ensures r.number == s.number && r.holderName == s.holderName && r.password == s.password
    ensures WithdrawAccepted(s, amount) ==> r.balance == s.balance - amount
    ensures WithdrawAccepted(s, amount) ==> r.transactions == s.transactions + [Transaction(Withdraw, amount, now)]
    ensures !WithdrawAccepted(s, amount) ==> r == s
    ensures r.balance <= s.balance
    ensures s.balance >= 0.0 ==> r.balance >= 0.0
    ensures r.balance - s.balance == Net(r.transactions) - Net(s.transactions)
  {
    if WithdrawAccepted(s, amount) then
      NetAppend(s.transactions, Transaction(Withdraw, amount, now));
      s.(balance := s.balance - amount,
         transactions := s.transactions + [Transaction(Withdraw, amount, now)])
    else s
  }

  /** addInterest: no guard; always credits balance * rate / 100 (possibly a
      negative value) and logs it as one Interest entry. */
  function ApplyInterest(s: AccountState, rate: real, now: Timestamp): (r: AccountState)
    ensures r.number == s.number && r.holderName == s.holderName && r.password == s.password
    ensures r.balance == s.balance + InterestOn(s.balance, rate)
    ensures r.transactions == s.transactions + [Transaction(Interest, InterestOn(s.balance, rate), now)]
    ensures r.balance - s.balance == Net(r.transactions) - Net(s.transactions)
  {
    var interest := InterestOn(s.balance, rate);
    NetAppend(s.transactions, Transaction(Interest, interest, now));
    s.(balance := s.balance + interest,
       transactions := s.transactions + [Transaction(Interest, interest, now)])
  }

  /** One call on an account, with the clock reading it would record. */
  datatype Op =
    | DepositOp(amount: real, at: Timestamp)
    | WithdrawOp(amount: real, at: Timestamp)
    | InterestOp(rate: real, at: Timestamp)

  function Step(s: AccountState, op: Op): AccountState
  {
    match op
    case DepositOp(amount, at) => ApplyDeposit(s, amount, at)
    case WithdrawOp(amount, at) => ApplyWithdraw(s, amount, at)
    case InterestOp(rate, at) => ApplyInterest(s, rate, at)
  }

  /** Whether `op` passes its guard in state `s`. */
  predicate Succeeds(s: AccountState, op: Op)
  {
    match op
    case DepositOp(amount, _) => DepositAccepted(amount)
    case WithdrawOp(amount, _) => WithdrawAccepted(s, amount)
    case InterestOp(_, _) => true
  }

  /** The account after the calls `ops`, in order. */
  function Run(s: AccountState, ops: seq<Op>): AccountState
    decreases |ops|
  {
    if ops == [] then s else Run(Step(s, ops[0]), ops[1..])
  }

  /** How many of the calls `ops` pass their guard when run from `s`. */
  function Successes(s: AccountState, ops: seq<Op>): nat
    decreases |ops|
  {
    if ops == [] then 0
    else (if Succeeds(s, ops[0]) then 1 else 0) + Successes(Step(s, ops[0]), ops[1..])
  }

  /** One call keeps the ledger invariant, leaves earlier entries alone and
      adds an entry exactly when it passes its guard. */
  lemma StepKeepsLedger(opening: real, s: AccountState, op: Op)
    requires Balanced(opening, s)
    ensures Balanced(opening, Step(s, op))
    ensures Step(s, op).number == s.number
    ensures |Step(s, op).transactions| == |s.transactions| + (if Succeeds(s, op) then 1 else 0)
    ensures Step(s, op).transactions[..|s.transactions|] == s.transactions
  {
  }

  /** The ledger invariant over any sequence of calls: the balance is the
      opening balance plus deposits plus interest minus withdrawals recorded
      in the log, earlier entries are never rewritten, and the log grows by
      one entry per successful call. */
  lemma {:induction false} RunKeepsLedger(opening: real, s: AccountState, ops: seq<Op>)
    requires Balanced(opening, s)
    ensures Balanced(opening, Run(s, ops))
    ensures |Run(s, ops).transactions| == |s.transactions| + Successes(s, ops)
    ensures Run(s, ops).transactions[..|s.transactions|] == s.transactions
    decreases |ops|
  {
    if ops != [] {
      var t := Step(s, ops[0]);
      StepKeepsLedger(opening, s, ops[0]);
      RunKeepsLedger(opening, t, ops[1..]);
      assert Run(s, ops) == Run(t, ops[1..]);
      var log := Run(t, ops[1..]).transactions;
      assert log[..|t.transactions|] == t.transactions;
      assert log[..|s.transactions|] == t.transactions[..|s.transactions|];
    }
  }

  /** From account creation: balance = initial balance + Net(log), and the
      log holds exactly one entry per successful call. */
  lemma OpenedAccountLedger(number: string, holderName: string, password: string, initialBalance: real, ops: seq<Op>)
    ensures Run(Open(number, holderName, password, initialBalance), ops).balance
            == initialBalance + Net(Run(Open(number, holderName, password, initialBalance), ops).transactions)
    ensures |Run(Open(number, holderName, password, initialBalance), ops).transactions|
            == Successes(Open(number, holderName, password, initialBalance), ops)
  {
    RunKeepsLedger(initialBalance, Open(number, holderName, password, initialBalance), ops);
  }
}
