/**
 * The Node service's in-memory store (`MemStorage` in `server/storage.ts`).
 * Each JavaScript `Map` is kept as the sequence of its values in insertion
 * order, which is the order `Map.prototype.values()` yields them; a `set` on
 * an existing key replaces that entry in place.
 */
module Storage {
  import opened Results
  import opened Seqs
  import opened Money
  import opened Schema
  import Allocation

  datatype Store = Store(
    users: seq<User>,
    poolTables: seq<PoolTable>,
    transactions: seq<Transaction>,
    withdrawals: seq<Withdrawal>)

  /** The schema's unique keys hold and every table's money fits its column. */
  predicate Valid(s: Store)
  {
    && UniqueUsernames(s.users)
    && UniqueDeviceIds(s.poolTables)
    && UniqueTransactionIds(s.transactions)
    && UniqueWithdrawalIds(s.withdrawals)
    && TableMoneyFits(s.poolTables)
  }

  function HasId(id: nat): User -> bool { (u: User) => u.id == id }
  function HasUsername(name: string): User -> bool { (u: User) => u.username == name }
  function TableOf(account: string): PoolTable -> bool { (t: PoolTable) => t.accountNumber == account }
  function TransactionOf(account: string): Transaction -> bool { (t: Transaction) => t.accountNumber == account }
  function WithdrawalOf(account: string): Withdrawal -> bool { (w: Withdrawal) => w.accountNumber == account }

  /** The sort key of a transaction: its date, a missing date counting as 0. */
  function TransactionDate(t: Transaction): int
  {
    match t.transactionDate
    case Some(d) => d
    case None => 0
  }

  function WithdrawalDate(w: Withdrawal): int
  {
    w.withdrawalDate
  }

  /** `getUser(id)`: the user stored under numeric id `id`. */
  function GetUser(s: Store, id: nat): (r: Option<User>)
    ensures r.Some? ==> r.value in s.users && r.value.id == id
    ensures r.None? <==> forall u :: u in s.users ==> u.id != id
  {
    Find(s.users, HasId(id))
  }

  /** `getUserByUsername`: the first user, in insertion order, with that username. */
  function GetUserByUsername(s: Store, username: string): (r: Option<User>)
    ensures r.Some? ==> r.value in s.users && r.value.username == username
    ensures r.None? <==> forall u :: u in s.users ==> u.username != username
    ensures UniqueUsernames(s.users) ==> forall u :: u in s.users && u.username == username ==> r == Some(u)
  {
    var r := Find(s.users, HasUsername(username));
    assert UniqueUsernames(s.users) ==> forall u :: u in s.users && u.username == username ==> r == Some(u) by {
      if UniqueUsernames(s.users) {
        forall u | u in s.users && u.username == username ensures r == Some(u) {
          var i :| 0 <= i < |s.users| && s.users[i] == r.value && HasUsername(username)(s.users[i]);
          var j :| 0 <= j < |s.users| && s.users[j] == u;
          assert i == j;
        }
      }
    }
    r
  }

  /**
   * `validateUserPassword`: true exactly when a user with that username
   * exists and its password matches character for character (the first such
   * user; the only one, since usernames are unique).
   */
  function ValidateUserPassword(s: Store, username: string, password: string): (ok: bool)
    ensures ok ==> exists u :: u in s.users && u.username == username && u.password == password
    ensures UniqueUsernames(s.users) ==>
      (ok <==> exists u :: u in s.users && u.username == username && u.password == password)
  {
    match GetUserByUsername(s, username)
    case Some(u) => u.password == password
    case None => false
  }

  /** `getPoolTablesByAccount`: the account's tables in store order. */
  function GetPoolTablesByAccount(s: Store, account: string): (r: seq<PoolTable>)
    ensures forall t :: t in r <==> t in s.poolTables && t.accountNumber == account
    ensures IsSubsequence(r, s.poolTables)
  {
    FilterIsSubsequence(s.poolTables, TableOf(account));
    Filter(s.poolTables, TableOf(account))
  }

  /** `getTransactionsByAccount`: the account's transactions, newest first. */
  function GetTransactionsByAccount(s: Store, account: string): (r: seq<Transaction>)
    ensures forall t :: t in r <==> t in s.transactions && t.accountNumber == account
    ensures multiset(r) == multiset(Filter(s.transactions, TransactionOf(account)))
    ensures SortedDesc(r, TransactionDate)
  {
    var own := Filter(s.transactions, TransactionOf(account));
    var r := SortDesc(own, TransactionDate);
    assert forall t :: t in r <==> t in own by {
      forall t ensures t in r <==> t in own {
        assert t in r <==> t in multiset(r);
        assert t in own <==> t in multiset(own);
      }
    }
    r
  }

  /** `getWithdrawalsByAccount`: the account's withdrawals, newest first. */
  function GetWithdrawalsByAccount(s: Store, account: string): (r: seq<Withdrawal>)
    ensures forall w :: w in r <==> w in s.withdrawals && w.accountNumber == account
    ensures multiset(r) == multiset(Filter(s.withdrawals, WithdrawalOf(account)))
    ensures SortedDesc(r, WithdrawalDate)
  {
    var own := Filter(s.withdrawals, WithdrawalOf(account));
    var r := SortDesc(own, WithdrawalDate);
    assert forall w :: w in r <==> w in own by {
      forall w ensures w in r <==> w in own {
        assert w in r <==> w in multiset(r);
        assert w in own <==> w in multiset(own);
      }
    }
    r
  }

  /** Transactions with the same date are listed in store order: the sort is stable. */
  lemma TransactionListingKeepsTies(s: Store, account: string, date: int)
    ensures WithKey(GetTransactionsByAccount(s, account), TransactionDate, date)
         == WithKey(Filter(s.transactions, TransactionOf(account)), TransactionDate, date)
  {
    SortDescIsStable(Filter(s.transactions, TransactionOf(account)), TransactionDate, date);
  }

  /** The sum of the account's table balances, the figure both guards compare against. */
  function AccountTotal(s: Store, account: string): (r: Cents)
    ensures r == Reduce(0, Balances(GetPoolTablesByAccount(s, account)))
    ensures GetPoolTablesByAccount(s, account) == [] ==> r == 0
  {
    var bs := Balances(GetPoolTablesByAccount(s, account));
    ReduceIsSum(0, bs);
    Sum(bs)
  }

  /** `t'` is `t` with, at most, a different balance and update stamp. */
  predicate Touched(t': PoolTable, t: PoolTable)
  {
    t' == t.(balance := t'.balance, lastUpdated := t'.lastUpdated)
  }

  /** One table giving up `d`: untouched when `d` is zero (the loop's `continue`). */
  function DrainTable(t: PoolTable, d: Cents, now: nat): (t': PoolTable)
    ensures Touched(t', t) && t'.balance == t.balance - d
    ensures d == 0 ==> t' == t
    ensures d != 0 ==> t'.lastUpdated == Some(now)
  {
    if d == 0 then t else t.(balance := t.balance - d, lastUpdated := Some(now))
  }

  /**
   * The drain loop of `createWithdrawal`, run over the whole store: tables of
   * other accounts are passed over, each table of the account gives up
   * `Deduction(balance, remaining)`, and a table that gives up something is
   * stamped `now`. Writing the new table back under its own device id replaces
   * it in place, so the walk rebuilds the store in order.
   */
  function DrainAccount(ts: seq<PoolTable>, account: string, remaining: Cents, now: nat): (r: seq<PoolTable>)
    ensures |r| == |ts|
    decreases |ts|
  {
    if |ts| == 0 then []
    else
      var t := ts[0];
      if t.accountNumber != account then [t] + DrainAccount(ts[1..], account, remaining, now)
      else
        var d := Allocation.Deduction(t.balance, remaining);
        [DrainTable(t, d, now)] + DrainAccount(ts[1..], account, remaining - d, now)
  }

  /**
   * What the drain may do to one table of the store: change only its balance
   * and update stamp; leave a table of another account, or one without a
   * positive balance, alone; never push a balance below zero or raise it; and
   * stamp `now` on a table it changes, whose balance then drops.
   */
  predicate Drained(t': PoolTable, t: PoolTable, account: string, now: nat)
  {
    && Touched(t', t)
    && (t.accountNumber != account || t.balance <= 0 ==> t' == t)
    && (t.balance > 0 ==> 0 <= t'.balance <= t.balance)
    && (t' != t ==> t'.balance < t.balance && t'.lastUpdated == Some(now))
  }

  /** The drain treats every table as `Drained` says, and changes nothing when nothing is owed. */
  lemma {:induction false} DrainAccountPointwise(ts: seq<PoolTable>, account: string, remaining: Cents, now: nat)
    ensures var r := DrainAccount(ts, account, remaining, now);
      && (forall i :: 0 <= i < |ts| ==> Drained(r[i], ts[i], account, now))
      && (remaining <= 0 ==> r == ts)
    decreases |ts|
  {
    if |ts| > 0 {
      var t := ts[0];
      var d := if t.accountNumber != account then 0 else Allocation.Deduction(t.balance, remaining);
      var rest := DrainAccount(ts[1..], account, remaining - d, now);
      DrainAccountPointwise(ts[1..], account, remaining - d, now);
      var r := DrainAccount(ts, account, remaining, now);
      assert r[0] == DrainTable(t, d, now);
      assert r[1..] == rest;
      forall i | 0 < i < |ts| ensures Drained(r[i], ts[i], account, now) {
        assert r[i] == rest[i - 1] && ts[i] == ts[1..][i - 1];
      }
    }
  }

  /** `a` is `b` with, at most, a different balance and a new update stamp, table by table. */
  predicate SameTables(a: seq<PoolTable>, b: seq<PoolTable>)
  {
    |a| == |b| && forall k :: 0 <= k < |b| ==> Touched(a[k], b[k])
  }

  /** The drain keeps the account's tables, in order, changing only balances and update stamps. */
  lemma {:induction false} DrainAccountKeepsOwnTables(ts: seq<PoolTable>, account: string, remaining: Cents, now: nat)
    ensures SameTables(Filter(DrainAccount(ts, account, remaining, now), TableOf(account)), Filter(ts, TableOf(account)))
    decreases |ts|
  {
    if |ts| > 0 {
      var t, p := ts[0], TableOf(account);
      assert ts == [t] + ts[1..];
      FilterCons(t, ts[1..], p);
      if t.accountNumber != account {
        var rest := DrainAccount(ts[1..], account, remaining, now);
        assert DrainAccount(ts, account, remaining, now) == [t] + rest;
        DrainAccountKeepsOwnTables(ts[1..], account, remaining, now);
        FilterCons(t, rest, p);
      } else {
        var d := Allocation.Deduction(t.balance, remaining);
        var t' := DrainTable(t, d, now);
        var rest := DrainAccount(ts[1..], account, remaining - d, now);
        assert DrainAccount(ts, account, remaining, now) == [t'] + rest;
        DrainAccountKeepsOwnTables(ts[1..], account, remaining - d, now);
        FilterCons(t', rest, p);
        var own, own' := Filter(ts[1..], p), Filter(rest, p);
        var a, b := [t'] + own', [t] + own;
        forall k | 0 <= k < |b| ensures Touched(a[k], b[k]) {
          if k > 0 {
            assert a[k] == own'[k - 1] && b[k] == own[k - 1];
          }
        }
      }
    }
  }

  /**
   * The account's balances after the drain are what the generic allocator
   * gives the account's balances before it, visited in store order.
   */
  lemma {:induction false} DrainAccountIsAllocate(ts: seq<PoolTable>, account: string, remaining: Cents, now: nat)
    ensures Balances(Filter(DrainAccount(ts, account, remaining, now), TableOf(account)))
         == Allocation.Allocate(Balances(Filter(ts, TableOf(account))), remaining)
    decreases |ts|, 1
  {
    if |ts| > 0 {
      var t, p := ts[0], TableOf(account);
      if t.accountNumber != account {
        assert ts == [t] + ts[1..];
        FilterCons(t, ts[1..], p);
        var rest := DrainAccount(ts[1..], account, remaining, now);
        var r := DrainAccount(ts, account, remaining, now);
        assert r[0] == t;
        assert r[1..] == rest;
        assert r == [t] + rest;
        DrainAccountIsAllocate(ts[1..], account, remaining, now);
        FilterCons(t, rest, p);
      } else {
        DrainOwnFirstIsAllocate(ts, account, remaining, now);
      }
    }
  }

  /** The step of `DrainAccountIsAllocate` where the first table is the account's own. */
  lemma {:induction false} DrainOwnFirstIsAllocate(ts: seq<PoolTable>, account: string, remaining: Cents, now: nat)
    requires |ts| > 0 && ts[0].accountNumber == account
    ensures Balances(Filter(DrainAccount(ts, account, remaining, now), TableOf(account)))
         == Allocation.Allocate(Balances(Filter(ts, TableOf(account))), remaining)
    decreases |ts|, 0
  {
    var t, p := ts[0], TableOf(account);
    assert ts == [t] + ts[1..];
    FilterCons(t, ts[1..], p);
    var d := Allocation.Deduction(t.balance, remaining);
    var t' := DrainTable(t, d, now);
    var rest := DrainAccount(ts[1..], account, remaining - d, now);
    var r := DrainAccount(ts, account, remaining, now);
    assert r[0] == t';
    assert r[1..] == rest;
    assert r == [t'] + rest;
    DrainAccountIsAllocate(ts[1..], account, remaining - d, now);
    FilterCons(t', rest, p);
    var own, own' := Filter(ts[1..], p), Filter(rest, p);
    BalancesCons(t, own);
    BalancesCons(t', own');
    Allocation.AllocateCons(t.balance, Balances(own), remaining);
    assert Filter(ts, p) == [t] + own;
    assert Filter(r, p) == [t'] + own';
  }

  /** `withdrawals.set(id, w)`: replace the entry with that id, or append when there is none. */
  function PutWithdrawal(ws: seq<Withdrawal>, w: Withdrawal): (r: seq<Withdrawal>)
    ensures w in r
    ensures (forall x :: x in ws ==> x.withdrawalId != w.withdrawalId) ==> r == ws + [w]
    ensures forall x :: x in ws && x.withdrawalId != w.withdrawalId ==> x in r
    ensures forall x :: x in r ==> x == w || x in ws
    decreases |ws|
  {
    if |ws| == 0 then [w]
    else if ws[0].withdrawalId == w.withdrawalId then [w] + ws[1..]
    else
      assert ws == [ws[0]] + ws[1..];
      [ws[0]] + PutWithdrawal(ws[1..], w)
  }

  /** A withdrawal whose id is new to a list with unique ids can lead it. */
  lemma UniqueWithdrawalIdsCons(x: Withdrawal, ws: seq<Withdrawal>)
    requires UniqueWithdrawalIds(ws)
    requires forall y :: y in ws ==> y.withdrawalId != x.withdrawalId
    ensures UniqueWithdrawalIds([x] + ws)
  {
    var r := [x] + ws;
    forall i, j | 0 <= i < j < |r| ensures r[i].withdrawalId != r[j].withdrawalId {
      assert r[j] == ws[j - 1];
      if i > 0 {
        assert r[i] == ws[i - 1];
      }
    }
  }

  /** The tail of a list with unique ids has unique ids none of which is the head's. */
  lemma UniqueWithdrawalIdsTail(ws: seq<Withdrawal>)
    requires |ws| > 0 && UniqueWithdrawalIds(ws)
    ensures UniqueWithdrawalIds(ws[1..])
    ensures forall y :: y in ws[1..] ==> y.withdrawalId != ws[0].withdrawalId
  {
    forall y | y in ws[1..] ensures y.withdrawalId != ws[0].withdrawalId {
      var j :| 0 <= j < |ws[1..]| && ws[1..][j] == y;
      assert ws[j + 1] == y;
    }
  }

  /** Putting under an existing id replaces; under a new one appends: either way the ids stay unique. */
  lemma {:induction false} PutWithdrawalKeepsIdsUnique(ws: seq<Withdrawal>, w: Withdrawal)
    requires UniqueWithdrawalIds(ws)
    ensures UniqueWithdrawalIds(PutWithdrawal(ws, w))
    decreases |ws|
  {
    if |ws| > 0 {
      UniqueWithdrawalIdsTail(ws);
      var tail := ws[1..];
      if ws[0].withdrawalId == w.withdrawalId {
        UniqueWithdrawalIdsCons(w, tail);
      } else {
        PutWithdrawalKeepsIdsUnique(tail, w);
        UniqueWithdrawalIdsCons(ws[0], PutWithdrawal(tail, w));
      }
    }
  }

  datatype StorageError = InvalidPassword

  /** A created withdrawal together with the store it was written into. */
  datatype Created = Created(withdrawal: Withdrawal, store: Store)

  /**
   * `createWithdrawal`: check the password, store a "completed" withdrawal
   * record, then, only when the account's balances total at least the amount,
   * drain them in store order. `withdrawalId` and `now` stand for the
   * generated id and the clock.
   */
  function CreateWithdrawal(s: Store, account: string, amount: Cents, password: string,
                            withdrawalId: string, now: nat): (r: Result<Created, StorageError>)
    ensures r.Failure? <==> !ValidateUserPassword(s, account, password)
    ensures r.Success? ==>
      && r.value.withdrawal.withdrawalId == withdrawalId
      && r.value.withdrawal.accountNumber == account
      && r.value.withdrawal.amount == amount
      && r.value.withdrawal.status == CompletedStatus
      && r.value.withdrawal in r.value.store.withdrawals
    ensures r.Success? ==> r.value.store.users == s.users && r.value.store.transactions == s.transactions
    ensures r.Success? ==>
      var ts, ts' := s.poolTables, r.value.store.poolTables;
      && |ts'| == |ts|
      && (forall i :: 0 <= i < |ts| ==> Drained(ts'[i], ts[i], account, now))
  {
    if !ValidateUserPassword(s, account, password) then Failure(InvalidPassword)
    else
      var w := InsertWithdrawal(|s.withdrawals| + 1, NewWithdrawal(withdrawalId, account, amount, None), now);
      var withdrawals := PutWithdrawal(s.withdrawals, w);
      var tables :=
        if AccountTotal(s, account) >= amount then
          DrainAccountPointwise(s.poolTables, account, amount, now);
          DrainAccount(s.poolTables, account, amount, now)
        else s.poolTables;
      Success(Created(w, s.(withdrawals := withdrawals, poolTables := tables)))
  }

  /**
   * Conservation: a withdrawal the account's balances cover lowers their sum
   * by exactly the amount.
   */
  lemma CreateWithdrawalConserves(s: Store, account: string, amount: Cents, password: string,
                                  withdrawalId: string, now: nat)
    requires CreateWithdrawal(s, account, amount, password, withdrawalId, now).Success?
    requires 0 <= amount <= AccountTotal(s, account)
    ensures AccountTotal(CreateWithdrawal(s, account, amount, password, withdrawalId, now).value.store, account)
         == AccountTotal(s, account) - amount
  {
    DrainAccountIsAllocate(s.poolTables, account, amount, now);
    Allocation.Conservation(Balances(Filter(s.poolTables, TableOf(account))), amount);
  }

  /** Draining the whole total of an account none of whose tables is in debt empties every one of them. */
  lemma DrainEverythingEmpties(ts: seq<PoolTable>, account: string, now: nat)
    requires forall t :: t in ts && t.accountNumber == account ==> t.balance >= 0
    ensures var own := Filter(ts, TableOf(account));
      forall t :: t in Filter(DrainAccount(ts, account, Sum(Balances(own)), now), TableOf(account)) ==> t.balance == 0
  {
    var own := Filter(ts, TableOf(account));
    var bs := Balances(own);
    forall k | 0 <= k < |bs| ensures bs[k] >= 0 {
      assert own[k] in own;
    }
    NonNegativeSum(bs);
    DrainAccountIsAllocate(ts, account, Sum(bs), now);
    Allocation.Conservation(bs, Sum(bs));
    var own' := Filter(DrainAccount(ts, account, Sum(bs), now), TableOf(account));
    var bs' := Balances(own');
    ZeroSumOfNonNegatives(bs');
    forall t | t in own' ensures t.balance == 0 {
      var k :| 0 <= k < |own'| && own'[k] == t;
      assert bs'[k] == t.balance;
    }
  }

  /**
   * A withdrawal the balances do not cover changes no balance, yet the
   * "completed" withdrawal record is stored all the same.
   */
  lemma CreateWithdrawalUncovered(s: Store, account: string, amount: Cents, password: string,
                                  withdrawalId: string, now: nat)
    requires ValidateUserPassword(s, account, password)
    requires AccountTotal(s, account) < amount
    ensures CreateWithdrawal(s, account, amount, password, withdrawalId, now).Success?
    ensures CreateWithdrawal(s, account, amount, password, withdrawalId, now).value.store.poolTables == s.poolTables
    ensures CreateWithdrawal(s, account, amount, password, withdrawalId, now).value.withdrawal.status == CompletedStatus
  {
  }

  /** A fresh withdrawal id appends exactly one record to the withdrawals. */
  lemma CreateWithdrawalAppendsOne(s: Store, account: string, amount: Cents, password: string,
                                   withdrawalId: string, now: nat)
    requires CreateWithdrawal(s, account, amount, password, withdrawalId, now).Success?
    requires forall w :: w in s.withdrawals ==> w.withdrawalId != withdrawalId
    ensures var c := CreateWithdrawal(s, account, amount, password, withdrawalId, now).value;
      c.store.withdrawals == s.withdrawals + [c.withdrawal]
  {
  }

  /** `createWithdrawal` keeps the store's unique keys and money ranges. */
  lemma CreateWithdrawalKeepsValid(s: Store, account: string, amount: Cents, password: string,
                                   withdrawalId: string, now: nat)
    requires Valid(s)
    requires CreateWithdrawal(s, account, amount, password, withdrawalId, now).Success?
    ensures Valid(CreateWithdrawal(s, account, amount, password, withdrawalId, now).value.store)
  {
    var c := CreateWithdrawal(s, account, amount, password, withdrawalId, now).value;
    PutWithdrawalKeepsIdsUnique(s.withdrawals, c.withdrawal);
    assert c.store.withdrawals == PutWithdrawal(s.withdrawals, c.withdrawal);
    var ts, ts' := s.poolTables, c.store.poolTables;
    assert forall i :: 0 <= i < |ts| ==> ts'[i].deviceId == ts[i].deviceId && ts'[i].dailyEarnings == ts[i].dailyEarnings;
    assert forall i :: 0 <= i < |ts| ==> FitsDecimal(ts'[i].balance) by {
      forall i | 0 <= i < |ts| ensures FitsDecimal(ts'[i].balance) {
        assert FitsDecimal(ts[i].balance);
      }
    }
  }
}
