/**
 * The records of the Node service (`shared/schema.ts`): users, pool tables,
 * payment/withdrawal transactions and withdrawals, with their unique keys and
 * column defaults. Money columns are cents; timestamps are abstract naturals
 * that only order events; a nullable column is an `Option`.
 */
module Schema {
  import opened Results
  import opened Money

  datatype User = User(
    id: nat,
    username: string,
    password: string,
    name: string,
    email: Option<string>,
    phoneNumber: Option<string>)

  datatype PoolTable = PoolTable(
    id: nat,
    deviceId: string,
    serialNumber: string,
    name: string,
    location: string,
    accountNumber: string,
    balance: Cents,
    dailyEarnings: Cents,
    dailyGamesPlayed: int,
    totalGamesPlayed: int,
    status: string,
    registrationDate: Option<nat>,
    lastUpdated: Option<nat>)

  /** `kind` is the `type` column: "payment" or "withdrawal". */
  datatype Transaction = Transaction(
    id: nat,
    transactionId: string,
    deviceId: string,
    accountNumber: string,
    payerName: string,
    payerPhone: string,
    amount: Cents,
    kind: string,
    status: string,
    transactionDate: Option<nat>)

  datatype Withdrawal = Withdrawal(
    id: nat,
    withdrawalId: string,
    accountNumber: string,
    amount: Cents,
    status: string,
    withdrawalDate: nat)

  const ActiveStatus := "active"
  const CompletedStatus := "completed"

  /** The insert shape of a pool table: the columns with a default may be left out. */
  datatype NewPoolTable = NewPoolTable(
    deviceId: string,
    serialNumber: string,
    name: string,
    location: string,
    accountNumber: string,
    balance: Option<Cents>,
    dailyEarnings: Option<Cents>,
    dailyGamesPlayed: Option<int>,
    totalGamesPlayed: Option<int>,
    status: Option<string>)

  /** The insert shape of a withdrawal: the status may be left out. */
  datatype NewWithdrawal = NewWithdrawal(
    withdrawalId: string,
    accountNumber: string,
    amount: Cents,
    status: Option<string>)

  /** The row a pool-table insert stores at time `now`, defaults filled in. */
  function InsertPoolTable(id: nat, n: NewPoolTable, now: nat): (t: PoolTable)
    ensures t.deviceId == n.deviceId && t.accountNumber == n.accountNumber && t.name == n.name
    ensures t.balance == GetOr(n.balance, 0) && t.dailyEarnings == GetOr(n.dailyEarnings, 0)
    ensures t.dailyGamesPlayed == GetOr(n.dailyGamesPlayed, 0) && t.totalGamesPlayed == GetOr(n.totalGamesPlayed, 0)
    ensures t.status == GetOr(n.status, ActiveStatus)
    ensures t.registrationDate == Some(now) && t.lastUpdated == Some(now)
  {
    PoolTable(id, n.deviceId, n.serialNumber, n.name, n.location, n.accountNumber,
      GetOr(n.balance, 0), GetOr(n.dailyEarnings, 0),
      GetOr(n.dailyGamesPlayed, 0), GetOr(n.totalGamesPlayed, 0),
      GetOr(n.status, ActiveStatus), Some(now), Some(now))
  }

  /** The row a withdrawal insert stores at time `now`, status defaulting to "completed". */
  function InsertWithdrawal(id: nat, n: NewWithdrawal, now: nat): (w: Withdrawal)
    ensures w.withdrawalId == n.withdrawalId && w.accountNumber == n.accountNumber && w.amount == n.amount
    ensures w.status == GetOr(n.status, CompletedStatus)
    ensures w.withdrawalDate == now
  {
    Withdrawal(id, n.withdrawalId, n.accountNumber, n.amount, GetOr(n.status, CompletedStatus), now)
  }

  /** `users.username` is unique. */
  predicate UniqueUsernames(us: seq<User>)
  {
    forall i, j :: 0 <= i < j < |us| ==> us[i].username != us[j].username
  }

  /** `pool_tables.device_id` is unique. */
  predicate UniqueDeviceIds(ts: seq<PoolTable>)
  {
    forall i, j :: 0 <= i < j < |ts| ==> ts[i].deviceId != ts[j].deviceId
  }

  /** `transactions.transaction_id` is unique. */
  predicate UniqueTransactionIds(ts: seq<Transaction>)
  {
    forall i, j :: 0 <= i < j < |ts| ==> ts[i].transactionId != ts[j].transactionId
  }

  /** `withdrawals.withdrawal_id` is unique. */
  predicate UniqueWithdrawalIds(ws: seq<Withdrawal>)
  {
    forall i, j :: 0 <= i < j < |ws| ==> ws[i].withdrawalId != ws[j].withdrawalId
  }

  /** Every money column of every table row is storable as `decimal(10,2)`. */
  predicate TableMoneyFits(ts: seq<PoolTable>)
  {
    forall i :: 0 <= i < |ts| ==> FitsDecimal(ts[i].balance) && FitsDecimal(ts[i].dailyEarnings)
  }

  /** The balances of a list of tables, in the same order. */
  function Balances(ts: seq<PoolTable>): (bs: seq<Cents>)
    ensures |bs| == |ts|
    ensures forall k :: 0 <= k < |ts| ==> bs[k] == ts[k].balance
    decreases |ts|
  {
    if |ts| == 0 then [] else [ts[0].balance] + Balances(ts[1..])
  }

  lemma BalancesCons(t: PoolTable, ts: seq<PoolTable>)
    ensures Balances([t] + ts) == [t.balance] + Balances(ts)
  {
    assert ([t] + ts)[1..] == ts;
  }
}
