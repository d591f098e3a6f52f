/** The ledger of src/services/account.services.ts: `recordPayment` and
    `recordTransfer` over the `accounts`, `payments`, `transfers` and
    `transactions` tables.

    Each call is one database transaction. A call that ends in ROLLBACK
    leaves every table exactly as it found it, one that ends in COMMIT
    applies all of its steps. The tables are fields of `LedgerDb`; the
    methods take the source's steps in the source's order on a copy of the
    tables, which COMMIT assigns to the fields and ROLLBACK drops. */
module Ledger {
  import opened Base

  /** A row of `payments`: the unique key is the external payment id. */
  datatype Payment = Payment(accountId: int, amount: int, externalPaymentId: string)

  /** A row of `transfers`: the unique key is the external transfer id. */
  datatype Transfer = Transfer(fromId: int, toId: int, amountCents: int, externalTransferId: string)

  /** `trans_type` of a row of `transactions`. */
  datatype EntryType = Debit | Credit

  /** A row of `transactions`: it refers to its transfer by the transfer's
      row id, which here is the transfer's position in `transfers`. */
  datatype Entry = Entry(transferRow: nat, amount: int, kind: EntryType)

  /** `{ success: true, idempotent }` returned by `recordPayment`. */
  datatype PaymentReply = PaymentReply(idempotent: bool)

  /** The two results of `recordTransfer` that do not throw:
      `{ message: 'Transfer successful' }` and `{ success: true, idempotent: true }`. */
  datatype TransferReply = Transferred | AlreadyApplied

  /** The errors `recordTransfer` throws. */
  datatype TransferError =
    | SameAccount         // 'You cannot transfer to and from the same account'
    | NotPositiveInteger  // 'Amount must be a positive integer'
    | AccountsNotFound    // 'One or both accounts not found'
    | InsufficientFunds   // 'Insufficient funds'

  // ------------------------------------------------------------------
  // Balances

  /** The sum of all balances. */
  ghost function Total(m: map<int, int>): int
    decreases |m|
  {
    if m == map[] then 0
    else
      var k := SomeKey(m);
      m[k] + Total(m - {k})
  }

  /** The account that `Total` takes out first. */
  ghost function SomeKey(m: map<int, int>): (k: int)
    requires m != map[]
    ensures k in m
  {
    assert exists k :: k in m by {
      if forall k :: k !in m {
        assert false;
      }
    }
    var k :| k in m;
    k
  }

  lemma {:induction false} TotalRemove(m: map<int, int>, k: int)
    requires k in m
    ensures Total(m) == m[k] + Total(m - {k})
    decreases |m|
  {
    var j := SomeKey(m);
    if j != k {
      TotalRemove(m - {j}, k);
      TotalRemove(m - {k}, j);
      assert (m - {j}) - {k} == (m - {k}) - {j};
    }
  }

  /** Setting one balance changes the total by the difference. */
  lemma TotalUpdate(m: map<int, int>, k: int, v: int)
    requires k in m
    ensures Total(m[k := v]) == Total(m) - m[k] + v
  {
    TotalRemove(m, k);
    TotalRemove(m[k := v], k);
    assert m[k := v] - {k} == m - {k};
  }

  ghost predicate NonNegative(m: map<int, int>)
  {
    forall k :: k in m ==> m[k] >= 0
  }

  /** The balances after the debit of `fromId` and the credit of `toId`. */
  function Moved(m: map<int, int>, fromId: int, toId: int, amount: int): map<int, int>
    requires fromId in m && toId in m
  {
    m[fromId := m[fromId] - amount][toId := m[toId] + amount]
  }

  /** The two balance updates of a transfer that passed the funds check keep
      the set of accounts, the total and non-negative balances, take `amount`
      from `fromId`, give it to `toId`, leave `fromId` with a balance of at
      least zero and change no other account. */
  lemma DebitCredit(m: map<int, int>, fromId: int, toId: int, amount: int)
    requires fromId != toId && fromId in m && toId in m && m[fromId] >= amount
    ensures var m' := Moved(m, fromId, toId, amount);
      && m'.Keys == m.Keys
      && m'[fromId] == m[fromId] - amount >= 0
      && m'[toId] == m[toId] + amount
      && (forall k :: k in m && k != fromId && k != toId ==> m'[k] == m[k])
      && Total(m') == Total(m)
      && (amount >= 0 && NonNegative(m) ==> NonNegative(m'))
  {
    var m1 := m[fromId := m[fromId] - amount];
    var m' := m1[toId := m1[toId] + amount];
    assert m' == Moved(m, fromId, toId, amount);
    assert Total(m') == Total(m) by {
      TotalUpdate(m, fromId, m[fromId] - amount);
      TotalUpdate(m1, toId, m1[toId] + amount);
    }
    if amount >= 0 && NonNegative(m) {
      forall k | k in m'
        ensures m'[k] >= 0
      {
        if k != fromId && k != toId {
          assert m'[k] == m[k];
        }
      }
    }
  }

  /** `UPDATE accounts SET balance = balance + amount WHERE id = accountId`:
      no row changes when there is no such account. */
  function Credited(m: map<int, int>, accountId: int, amount: int): map<int, int>
  {
    if accountId in m then m[accountId := m[accountId] + amount] else m
  }

  /** A payment credits `amount` to its account and to no other, and so
      raises the total by `amount`; no balance changes when the account does
      not exist. A payment of a non-negative amount keeps balances
      non-negative. */
  lemma CreditEffect(m: map<int, int>, accountId: int, amount: int)
    ensures Credited(m, accountId, amount).Keys == m.Keys
    ensures forall k :: k in m && k != accountId ==> Credited(m, accountId, amount)[k] == m[k]
    ensures accountId in m ==> Credited(m, accountId, amount)[accountId] == m[accountId] + amount
    ensures Total(Credited(m, accountId, amount)) == Total(m) + (if accountId in m then amount else 0)
    ensures amount >= 0 && NonNegative(m) ==> NonNegative(Credited(m, accountId, amount))
  {
    if accountId in m {
      TotalUpdate(m, accountId, m[accountId] + amount);
    }
  }

  // ------------------------------------------------------------------
  // Lock order

  /** The order in which `recordTransfer` locks the two account rows: the
      lower id first. */
  function LockOrder(fromId: int, toId: int): (r: (int, int))
    ensures r == (fromId, toId) || r == (toId, fromId)
    ensures r.0 <= r.1 && {r.0, r.1} == {fromId, toId}
    ensures fromId != toId ==> r.0 < r.1
  {
    if fromId < toId then (fromId, toId) else (toId, fromId)
  }

  // ------------------------------------------------------------------
  // Double entry

  /** The `transactions` rows that the committed transfers `ts` have written:
      for each transfer, in order, a debit and then a credit of its amount. */
  function EntriesFor(ts: seq<Transfer>): (es: seq<Entry>)
    ensures |es| == 2 * |ts|
  {
    if ts == [] then []
    else
      var row := |ts| - 1;
      EntriesFor(ts[..row]) + [Entry(row, ts[row].amountCents, Debit), Entry(row, ts[row].amountCents, Credit)]
  }

  lemma EntriesForAppend(ts: seq<Transfer>, t: Transfer)
    ensures EntriesFor(ts + [t])
         == EntriesFor(ts) + [Entry(|ts|, t.amountCents, Debit), Entry(|ts|, t.amountCents, Credit)]
  {
    assert (ts + [t])[..|ts|] == ts;
  }

  /** Entry j belongs to transfer row j / 2; entries 2i and 2i+1 are the debit
      and the credit of transfer i, and carry its amount. */
  lemma {:induction false} EntriesForAt(ts: seq<Transfer>, j: nat)
    requires j < 2 * |ts|
    ensures EntriesFor(ts)[j].transferRow == j / 2
    ensures EntriesFor(ts)[j].amount == ts[j / 2].amountCents
    ensures EntriesFor(ts)[j].kind == if j % 2 == 0 then Debit else Credit
  {
    var row := |ts| - 1;
    if j < 2 * row {
      EntriesForAt(ts[..row], j);
    }
  }

  /** Double entry: every committed transfer owns exactly two entries, a debit
      and a credit of its amount. */
  lemma DoubleEntry(ts: seq<Transfer>, i: nat)
    requires i < |ts|
    ensures EntriesFor(ts)[2 * i] == Entry(i, ts[i].amountCents, Debit)
    ensures EntriesFor(ts)[2 * i + 1] == Entry(i, ts[i].amountCents, Credit)
    ensures forall j :: 0 <= j < |EntriesFor(ts)| && EntriesFor(ts)[j].transferRow == i ==> j == 2 * i || j == 2 * i + 1
  {
    EntriesForAt(ts, 2 * i);
    EntriesForAt(ts, 2 * i + 1);
    forall j | 0 <= j < |EntriesFor(ts)| && EntriesFor(ts)[j].transferRow == i
      ensures j == 2 * i || j == 2 * i + 1
    {
      EntriesForAt(ts, j);
    }
  }

  /** The effect of an entry on the ledger's net: a debit takes, a credit gives. */
  function Signed(e: Entry): int
  {
    if e.kind == Debit then -e.amount else e.amount
  }

  function Net(es: seq<Entry>): int
  {
    if es == [] then 0 else Net(es[..|es| - 1]) + Signed(es[|es| - 1])
  }

  lemma NetAppend(es: seq<Entry>, e: Entry)
    ensures Net(es + [e]) == Net(es) + Signed(e)
  {
    assert (es + [e])[..|es|] == es;
  }

  /** The entries of all committed transfers sum to zero. */
  lemma {:induction false} EntriesBalanced(ts: seq<Transfer>)
    ensures Net(EntriesFor(ts)) == 0
  {
    if ts != [] {
      var row := |ts| - 1;
      var d := Entry(row, ts[row].amountCents, Debit);
      var c := Entry(row, ts[row].amountCents, Credit);
      EntriesBalanced(ts[..row]);
      NetAppend(EntriesFor(ts[..row]), d);
      NetAppend(EntriesFor(ts[..row]) + [d], c);
      assert EntriesFor(ts) == EntriesFor(ts[..row]) + [d] + [c];
    }
  }

  /** The external ids of the committed transfers. */
  function TransferIds(ts: seq<Transfer>): set<string>
  {
    if ts == [] then {} else TransferIds(ts[..|ts| - 1]) + {ts[|ts| - 1].externalTransferId}
  }

  // ------------------------------------------------------------------
  // The tables

  /** The committed transfers, oldest first, each with an external id not
      used before it, distinct parties that are accounts, and a positive
      amount. */
  ghost predicate TransfersOk(ts: seq<Transfer>, accounts: set<int>)
  {
    ts == [] ||
    var row := |ts| - 1;
    && TransfersOk(ts[..row], accounts)
    && ts[row].externalTransferId !in TransferIds(ts[..row])
    && ts[row].fromId != ts[row].toId
    && ts[row].amountCents > 0
    && ts[row].fromId in accounts
    && ts[row].toId in accounts
  }

  lemma TransfersOkAppend(ts: seq<Transfer>, accounts: set<int>, t: Transfer)
    requires TransfersOk(ts, accounts)
    requires t.externalTransferId !in TransferIds(ts)
    requires t.fromId != t.toId && t.amountCents > 0 && t.fromId in accounts && t.toId in accounts
    ensures TransfersOk(ts + [t], accounts)
    ensures TransferIds(ts + [t]) == TransferIds(ts) + {t.externalTransferId}
  {
    assert (ts + [t])[..|ts|] == ts;
  }

  lemma {:induction false} TransferIdsHas(ts: seq<Transfer>, i: nat)
    requires i < |ts|
    ensures ts[i].externalTransferId in TransferIds(ts)
  {
    var row := |ts| - 1;
    if i < row {
      TransferIdsHas(ts[..row], i);
    }
  }

  lemma {:induction false} TransfersOkPrefix(ts: seq<Transfer>, accounts: set<int>, n: nat)
    requires TransfersOk(ts, accounts) && n <= |ts|
    ensures TransfersOk(ts[..n], accounts)
    decreases |ts|
  {
    if n < |ts| {
      var row := |ts| - 1;
      TransfersOkPrefix(ts[..row], accounts, n);
      assert ts[..row][..n] == ts[..n];
    } else {
      assert ts[..n] == ts;
    }
  }

  /** Every committed transfer, the first one included, is between two
      distinct existing accounts and of a positive amount. */
  lemma TransferRowOk(ts: seq<Transfer>, accounts: set<int>, j: nat)
    requires TransfersOk(ts, accounts) && j < |ts|
    ensures ts[j].fromId != ts[j].toId && ts[j].amountCents > 0
    ensures ts[j].fromId in accounts && ts[j].toId in accounts
  {
    TransfersOkPrefix(ts, accounts, j + 1);
    assert ts[..j + 1][..j] == ts[..j];
  }

  /** No two committed transfers share an external id; the later of the two
      is a valid transfer (see `TransferRowOk` for every row). */
  lemma TransfersUnique(ts: seq<Transfer>, accounts: set<int>, i: nat, j: nat)
    requires TransfersOk(ts, accounts)
    requires i < j < |ts|
    ensures ts[i].externalTransferId != ts[j].externalTransferId
    ensures ts[j].fromId != ts[j].toId && ts[j].amountCents > 0
    ensures ts[j].fromId in accounts && ts[j].toId in accounts
  {
    TransfersOkPrefix(ts, accounts, j + 1);
    var p := ts[..j + 1];
    assert p[..j] == ts[..j];
    TransferIdsHas(ts[..j], i);
  }

  /** What the unique keys and the two operations keep true of the tables. */
  ghost predicate TablesOk(balances: map<int, int>, payments: map<string, Payment>,
                           transfers: seq<Transfer>, entries: seq<Entry>)
  {
    && (forall id :: id in payments ==> payments[id].externalPaymentId == id)
    && TransfersOk(transfers, balances.Keys)
    && entries == EntriesFor(transfers)
  }

  class LedgerDb {
    /** `accounts`: balance by account id. Accounts are neither created nor
        deleted here. */
    var balances: map<int, int>
    /** `payments`, keyed by its unique column `external_payment_id`. */
    var payments: map<string, Payment>
    /** `transfers`, in insertion order; a row's id is its position. */
    var transfers: seq<Transfer>
    /** `transactions`, in insertion order. */
    var entries: seq<Entry>

    /** The invariant of the tables. */
    ghost predicate Valid()
      reads this
    {
      TablesOk(balances, payments, transfers, entries)
    }

    /** A ledger whose accounts hold `balances` and that has recorded nothing yet. */
    constructor (balances: map<int, int>)
      ensures Valid()
      ensures this.balances == balances
      ensures payments == map[] && transfers == [] && entries == []
    {
      this.balances := balances;
      payments := map[];
      transfers := [];
      entries := [];
    }

    /** `recordPayment(accountId, amount, externalPaymentId)`. */
    method RecordPayment(accountId: int, amount: int, externalPaymentId: string) returns (reply: PaymentReply)
      requires Valid()
      modifies this
      ensures Valid()
      ensures reply.idempotent <==> externalPaymentId in old(payments)
      ensures transfers == old(transfers) && entries == old(entries)
      ensures reply.idempotent ==> payments == old(payments) && balances == old(balances)
      ensures !reply.idempotent ==>
                && payments == old(payments)[externalPaymentId := Payment(accountId, amount, externalPaymentId)]
                && balances == Credited(old(balances), accountId, amount)
    {
      // BEGIN; INSERT ... ON CONFLICT (external_payment_id) DO NOTHING
      if externalPaymentId in payments {
        // no row inserted: ROLLBACK
        return PaymentReply(true);
      }
      payments := payments[externalPaymentId := Payment(accountId, amount, externalPaymentId)];
      // UPDATE accounts SET balance = balance + amount WHERE id = accountId
      if accountId in balances {
        balances := balances[accountId := balances[accountId] + amount];
      }
      assert balances.Keys == old(balances).Keys;
      // COMMIT
      return PaymentReply(false);
    }

    /** `recordTransfer(fromId, toId, amount, transferId)`. */
    method RecordTransfer(fromId: int, toId: int, amount: int, transferId: string)
      returns (r: Result<TransferReply, TransferError>)
      requires Valid()
      modifies this
      ensures Valid()
      ensures payments == old(payments)
      ensures fromId == toId ==> r == Err(SameAccount)
      ensures fromId != toId && amount <= 0 ==> r == Err(NotPositiveInteger)
      ensures fromId != toId && amount > 0 && transferId in TransferIds(old(transfers)) ==> r == Ok(AlreadyApplied)
      ensures fromId != toId && amount > 0 && transferId !in TransferIds(old(transfers)) ==>
                if fromId !in old(balances) || toId !in old(balances) then r == Err(AccountsNotFound)
                else if old(balances)[fromId] < amount then r == Err(InsufficientFunds)
                else r == Ok(Transferred)
      ensures r != Ok(Transferred) ==>
                balances == old(balances) && transfers == old(transfers) && entries == old(entries)
      ensures r == Ok(Transferred) ==>
                && balances == Moved(old(balances), fromId, toId, amount)
                && transfers == old(transfers) + [Transfer(fromId, toId, amount, transferId)]
                && entries == old(entries) + [Entry(|old(transfers)|, amount, Debit), Entry(|old(transfers)|, amount, Credit)]
    {
      if fromId == toId {
        return Err(SameAccount);
      }
      if amount <= 0 {
        return Err(NotPositiveInteger);
      }
      // BEGIN: the transaction works on its own copy of the tables, which
      // COMMIT publishes and ROLLBACK drops.
      var bal, ts, es := balances, transfers, entries;

      // INSERT INTO transfers ... ON CONFLICT (external_transfer_id) DO NOTHING
      if transferId in TransferIds(ts) {
        return Ok(AlreadyApplied);  // no row inserted: ROLLBACK
      }
      var row := |ts|;
      var t := Transfer(fromId, toId, amount, transferId);
      ts := ts + [t];

      // SELECT id FROM accounts WHERE id IN (firstId, secondId) ORDER BY id FOR UPDATE
      var (firstId, secondId) := LockOrder(fromId, toId);
      if !(firstId in bal && secondId in bal) {
        return Err(AccountsNotFound);  // ROLLBACK
      }

      // UPDATE accounts SET balance = balance - amount WHERE id = fromId AND balance >= amount
      if bal[fromId] < amount {
        return Err(InsufficientFunds);  // ROLLBACK
      }
      bal := bal[fromId := bal[fromId] - amount];

      // UPDATE accounts SET balance = balance + amount WHERE id = toId
      bal := bal[toId := bal[toId] + amount];

      // the debit and the credit rows of `transactions`
      es := es + [Entry(row, amount, Debit)];
      es := es + [Entry(row, amount, Credit)];

      assert bal.Keys == balances.Keys;
      assert TablesOk(bal, payments, ts, es) by {
        EntriesForAppend(transfers, t);
        TransfersOkAppend(transfers, balances.Keys, t);
      }
      // COMMIT
      balances, transfers, entries := bal, ts, es;
      return Ok(Transferred);
    }
  }

  // ------------------------------------------------------------------
  // Scenarios

  /** Accounts 1 and 2 hold 1000 and 500. Transfer t1 of 300 from 1 to 2
      leaves 700 and 800 and one debit and one credit of 300 under t1;
      repeating the identical call is an idempotent replay that changes
      nothing. */
  method TransferReplayScenario()
    returns (first: Result<TransferReply, TransferError>, second: Result<TransferReply, TransferError>,
             balance1: int, balance2: int, entries: seq<Entry>)
    ensures first == Ok(Transferred) && second == Ok(AlreadyApplied)
    ensures balance1 == 700 && balance2 == 800
    ensures entries == [Entry(0, 300, Debit), Entry(0, 300, Credit)]
  {
    var db := new LedgerDb(map[1 := 1000, 2 := 500]);
    first := db.RecordTransfer(1, 2, 300, "t1");
    assert db.transfers == [Transfer(1, 2, 300, "t1")];
    assert TransferIds(db.transfers) == {"t1"} by {
      assert db.transfers[..0] == [];
    }
    second := db.RecordTransfer(1, 2, 300, "t1");
    balance1, balance2, entries := db.balances[1], db.balances[2], db.entries;
  }

  /** A transfer from an account to itself is refused before any table is
      touched. */
  method SameAccountScenario() returns (r: Result<TransferReply, TransferError>, balance: int, transfers: nat)
    ensures r == Err(SameAccount) && balance == 100 && transfers == 0
  {
    var db := new LedgerDb(map[1 := 100]);
    r := db.RecordTransfer(1, 1, 100, "t2");
    balance, transfers := db.balances[1], |db.transfers|;
  }

  /** A transfer refused for insufficient funds leaves no transfer row, so the
      same transfer id succeeds once a payment has covered the amount; the
      payment is credited once however often it is replayed. */
  method RetryAfterInsufficientFundsScenario()
    returns (refused: Result<TransferReply, TransferError>, paid: PaymentReply, replayed: PaymentReply,
             accepted: Result<TransferReply, TransferError>, balance1: int, balance2: int)
    ensures refused == Err(InsufficientFunds)
    ensures !paid.idempotent && replayed.idempotent
    ensures accepted == Ok(Transferred)
    ensures balance1 == 300 && balance2 == 300
  {
    var db := new LedgerDb(map[1 := 100, 2 := 0]);
    refused := db.RecordTransfer(1, 2, 300, "t3");
    paid := db.RecordPayment(1, 500, "p1");
    replayed := db.RecordPayment(1, 500, "p1");
    accepted := db.RecordTransfer(1, 2, 300, "t3");
    balance1, balance2 := db.balances[1], db.balances[2];
  }

  /** `recordPayment` does not check the sign of the amount, so a negative
      payment can take a balance below zero. */
  method NegativePaymentScenario() returns (reply: PaymentReply, balance: int)
    ensures !reply.idempotent && balance == -50
  {
    var db := new LedgerDb(map[1 := 100]);
    reply := db.RecordPayment(1, -150, "p2");
    balance := db.balances[1];
  }
}
