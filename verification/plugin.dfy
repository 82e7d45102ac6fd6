/**
 * The WordPress plugin that serves the Android app
 * (`attached_assets/pooltable-api_1749385824034.php`), over an in-memory copy
 * of its three tables: device registrations, device balances and the device
 * transaction ledger. Each request runs atomically. A balance row is addressed
 * by its position; the plugin's `WHERE device_id = …` updates address the same
 * row as long as `device_balances` holds one row per device.
 */
module Plugin {
  import opened Results
  import opened Seqs
  import opened Money
  import opened Text
  import Allocation

  datatype Registration = Registration(
    deviceId: nat,
    serialNumber: string,
    ownerName: string,
    ownerNumber: string,
    location: string,
    accountNo: string,
    status: string,
    password: string)

  datatype BalanceRow = BalanceRow(
    deviceId: nat,
    balance: Cents,
    gamesPaid: int,
    dailyEarnings: Cents,
    dailyGamesPaid: int)

  /** A row of `device_transactions`; `amount` is negative for a withdrawal. */
  datatype LedgerRow = LedgerRow(
    accountNo: string,
    deviceId: nat,
    transactionId: string,
    amount: Cents,
    runningBalance: Cents,
    payerName: string,
    phoneNumber: string,
    timestamp: nat)

  datatype PluginState = PluginState(
    registrations: seq<Registration>,
    balances: seq<BalanceRow>,
    ledger: seq<LedgerRow>)

  datatype PluginError =
    | InvalidWithdrawalAmount
    | InsufficientFunds
    | DeviceNotFound

  function StatusCode(e: PluginError): nat
  {
    match e
    case InvalidWithdrawalAmount => 400
    case InsufficientFunds => 400
    case DeviceNotFound => 404
  }

  // ------------------------------------------------------ get_device_balance

  function RowOf(deviceId: nat): BalanceRow -> bool { (b: BalanceRow) => b.deviceId == deviceId }

  /** Row `i` is the first balance row of the device. */
  predicate FirstRowAt(rows: seq<BalanceRow>, deviceId: nat, i: nat)
  {
    i < |rows| && rows[i].deviceId == deviceId && forall j :: 0 <= j < i ==> rows[j].deviceId != deviceId
  }

  /** `get_device_balance`: the balance of the device's first balance row, 0 when it has none. */
  function GetDeviceBalance(st: PluginState, deviceId: nat): (r: Cents)
    ensures (forall b :: b in st.balances ==> b.deviceId != deviceId) ==> r == 0
    ensures forall i: nat :: FirstRowAt(st.balances, deviceId, i) ==> r == st.balances[i].balance
  {
    assert forall i: nat :: FirstRowAt(st.balances, deviceId, i) ==> Find(st.balances, RowOf(deviceId)) == Some(st.balances[i]) by {
      forall i: nat | FirstRowAt(st.balances, deviceId, i)
        ensures Find(st.balances, RowOf(deviceId)) == Some(st.balances[i])
      {
        FindIsFirst(st.balances, RowOf(deviceId), i);
      }
    }
    match Find(st.balances, RowOf(deviceId))
    case None => 0
    case Some(b) => b.balance
  }

  // ---------------------------------------------------------- withdraw_funds

  /** The registration table joins device `deviceId` to account `accountNo`. */
  predicate Owns(regs: seq<Registration>, deviceId: nat, accountNo: string)
  {
    exists r :: r in regs && r.deviceId == deviceId && r.accountNo == accountNo
  }

  /** What balance row `i` contributes to the account's `SUM(b.balance)`: its balance when joined, else nothing. */
  function OwnedBalance(regs: seq<Registration>, accountNo: string, rows: seq<BalanceRow>): nat -> int
  {
    (i: nat) => if i < |rows| && Owns(regs, rows[i].deviceId, accountNo) then rows[i].balance else 0
  }

  /** The account's total over the balance rows its registrations join. */
  function TotalOf(regs: seq<Registration>, accountNo: string, rows: seq<BalanceRow>): Cents
  {
    Sum(Map(Range(|rows|), OwnedBalance(regs, accountNo, rows)))
  }

  /** Row `i` is among the rows the `JOIN … WHERE r.account_no = %s` selects. */
  function Joined(regs: seq<Registration>, accountNo: string, rows: seq<BalanceRow>): nat -> bool
  {
    (i: nat) => i < |rows| && Owns(regs, rows[i].deviceId, accountNo)
  }

  /**
   * `SELECT SUM(b.balance) … JOIN … WHERE r.account_no = %s`: the balances
   * of the joined rows added up; no joined row at all gives 0.
   */
  function AccountTotal(st: PluginState, accountNo: string): (r: Cents)
    ensures r == Sum(Map(Filter(Range(|st.balances|), Joined(st.registrations, accountNo, st.balances)), BalanceAt(st.balances)))
  {
    var rows := st.balances;
    SumMapFilter(Range(|rows|), Joined(st.registrations, accountNo, rows), BalanceAt(rows), OwnedBalance(st.registrations, accountNo, rows));
    TotalOf(st.registrations, accountNo, rows)
  }

  function BalanceAt(rows: seq<BalanceRow>): nat -> int
  {
    (i: nat) => if i < |rows| then rows[i].balance else 0
  }

  /** Row `i` is one the withdrawal may draw on: joined to the account and in credit. */
  function IsCandidate(regs: seq<Registration>, accountNo: string, rows: seq<BalanceRow>): nat -> bool
  {
    (i: nat) => i < |rows| && Owns(regs, rows[i].deviceId, accountNo) && rows[i].balance > 0
  }

  /**
   * The rows the loop visits: the account's rows with a positive balance,
   * largest balance first; rows with equal balances keep table order.
   */
  function Candidates(st: PluginState, accountNo: string): (r: seq<nat>)
    ensures forall i :: i in r <==> IsCandidate(st.registrations, accountNo, st.balances)(i)
    ensures SortedDesc(r, BalanceAt(st.balances))
    ensures Distinct(r)
  {
    var n := |st.balances|;
    var p := IsCandidate(st.registrations, accountNo, st.balances);
    var own := Filter(Range(n), p);
    RangeDistinct(n);
    FilterKeepsDistinct(Range(n), p);
    SortDescKeepsDistinct(own, BalanceAt(st.balances));
    var r := SortDesc(own, BalanceAt(st.balances));
    assert forall i :: i in r <==> i in own by {
      forall i ensures i in r <==> i in own {
        assert i in r <==> i in multiset(r);
        assert i in own <==> i in multiset(own);
      }
    }
    assert forall i: nat :: p(i) ==> i in Range(n) by {
      forall i: nat | p(i) ensures i in Range(n) {
        assert Range(n)[i] == i;
      }
    }
    r
  }

  /** One pass of the loop body that takes money: row `row` gave up `deducted` and now holds `newBalance`. */
  datatype Step = Step(row: nat, deducted: Cents, newBalance: Cents)

  function StepRow(s: Step): nat { s.row }
  function StepDeducted(s: Step): int { s.deducted }

  /** The total the steps took. */
  function Deducted(steps: seq<Step>): Cents
  {
    Sum(Map(steps, StepDeducted))
  }

  /**
   * The `foreach` over the visiting order: take `min(balance, remaining)`
   * when that is positive, and leave the loop once nothing remains owed.
   */
  function Visit(rows: seq<BalanceRow>, order: seq<nat>, remaining: Cents): (r: seq<Step>)
    ensures |r| <= |order|
    ensures remaining <= 0 ==> r == []
    decreases |order|
  {
    if |order| == 0 then []
    else
      var b := BalanceAt(rows)(order[0]);
      var w := Min(b, remaining);
      if w > 0 then
        var step := Step(order[0], w, b - w);
        if remaining - w <= 0 then [step] else [step] + Visit(rows, order[1..], remaining - w)
      else Visit(rows, order[1..], remaining)
  }

  /** `$wpdb->update(… array('balance' => $new_balance) …)` on one row. */
  function SetBalance(rows: seq<BalanceRow>, i: nat, b: Cents): (r: seq<BalanceRow>)
    ensures |r| == |rows|
    ensures forall j :: 0 <= j < |rows| ==> r[j] == if j == i then rows[j].(balance := b) else rows[j]
  {
    if i < |rows| then rows[i := rows[i].(balance := b)] else rows
  }

  /** The balance updates of the loop, in the order it made them. */
  function ApplySteps(rows: seq<BalanceRow>, steps: seq<Step>): (r: seq<BalanceRow>)
    ensures |r| == |rows|
    decreases |steps|
  {
    if |steps| == 0 then rows
    else ApplySteps(SetBalance(rows, steps[0].row, steps[0].newBalance), steps[1..])
  }

  /** A step read its row's balance, took a positive amount no larger than it, and left the difference. */
  predicate Fits(rows: seq<BalanceRow>, s: Step)
  {
    0 < s.deducted <= BalanceAt(rows)(s.row) && s.newBalance == BalanceAt(rows)(s.row) - s.deducted
  }

  /**
   * The loop takes exactly what is owed when the positive balances it visits
   * cover it, and all of them otherwise.
   */
  lemma {:induction false} VisitDeducts(rows: seq<BalanceRow>, order: seq<nat>, remaining: Cents)
    requires remaining > 0
    ensures Deducted(Visit(rows, order, remaining)) == Min(remaining, SumPos(Map(order, BalanceAt(rows))))
    decreases |order|
  {
    if |order| > 0 {
      var b := BalanceAt(rows)(order[0]);
      var w := Min(b, remaining);
      var tail := order[1..];
      assert Map(order, BalanceAt(rows))[1..] == Map(tail, BalanceAt(rows));
      var step := Step(order[0], w, b - w);
      if w > 0 {
        if remaining - w > 0 {
          VisitDeducts(rows, tail, remaining - w);
          var rest := Visit(rows, tail, remaining - w);
          assert Map([step] + rest, StepDeducted)[1..] == Map(rest, StepDeducted);
        } else {
          assert Visit(rows, order, remaining) == [step];
          assert Map([step], StepDeducted) == [w];
          assert Sum([w]) == w + Sum([w][1..]);
          assert SumPos(Map(order, BalanceAt(rows))) >= b;
        }
      } else {
        VisitDeducts(rows, tail, remaining);
      }
    }
  }

  /**
   * Every step of the loop fits its row and takes no more than was owed;
   * the rows it draws on come from the visiting order, each at most once
   * when the order has no repetitions.
   */
  lemma VisitSteps(rows: seq<BalanceRow>, order: seq<nat>, remaining: Cents)
    ensures var steps := Visit(rows, order, remaining);
      && (forall k :: 0 <= k < |steps| ==> steps[k].row in order && Fits(rows, steps[k]) && steps[k].deducted <= remaining)
      && (Distinct(order) ==> Distinct(Map(steps, StepRow)))
  {
    VisitStepsFit(rows, order, remaining);
    if Distinct(order) {
      VisitStepsDistinct(rows, order, remaining);
    }
  }

  /** Every step of the loop draws on a visited row, fits it, and takes no more than was owed. */
  lemma {:induction false} VisitStepsFit(rows: seq<BalanceRow>, order: seq<nat>, remaining: Cents)
    ensures var steps := Visit(rows, order, remaining);
      forall k :: 0 <= k < |steps| ==> steps[k].row in order && Fits(rows, steps[k]) && steps[k].deducted <= remaining
    decreases |order|
  {
    if |order| > 0 {
      var b := BalanceAt(rows)(order[0]);
      var w := Min(b, remaining);
      var tail := order[1..];
      var steps := Visit(rows, order, remaining);
      assert forall x :: x in tail ==> x in order;
      if w > 0 {
        var step := Step(order[0], w, b - w);
        assert order[0] in order && Fits(rows, step);
        if remaining - w > 0 {
          VisitStepsFit(rows, tail, remaining - w);
          var rest := Visit(rows, tail, remaining - w);
          assert var st := Visit(rows, tail, remaining - w);
            forall k :: 0 <= k < |st| ==> st[k].row in tail && Fits(rows, st[k]) && st[k].deducted <= remaining - w;
          assert steps == [step] + rest;
          forall k | 0 < k < |steps|
            ensures steps[k].row in order && Fits(rows, steps[k]) && steps[k].deducted <= remaining
          {
            assert steps[k] == rest[k - 1];
            assert rest[k - 1].row in tail;
          }
        } else {
          assert steps == [step];
        }
      } else {
        VisitStepsFit(rows, tail, remaining);
        assert var st := Visit(rows, tail, remaining);
          forall k :: 0 <= k < |st| ==> st[k].row in tail && Fits(rows, st[k]) && st[k].deducted <= remaining;
        assert steps == Visit(rows, tail, remaining);
      }
    }
  }

  /** Visiting each row at most once, the loop updates each row at most once. */
  lemma {:induction false} VisitStepsDistinct(rows: seq<BalanceRow>, order: seq<nat>, remaining: Cents)
    requires Distinct(order)
    ensures Distinct(Map(Visit(rows, order, remaining), StepRow))
    decreases |order|
  {
    if |order| > 0 {
      var b := BalanceAt(rows)(order[0]);
      var w := Min(b, remaining);
      var tail := order[1..];
      var steps := Visit(rows, order, remaining);
      DistinctTail(order);
      if w > 0 {
        var step := Step(order[0], w, b - w);
        if remaining - w > 0 {
          VisitStepsDistinct(rows, tail, remaining - w);
          VisitStepsFit(rows, tail, remaining - w);
          var rest := Visit(rows, tail, remaining - w);
          assert var st := Visit(rows, tail, remaining - w);
            forall k :: 0 <= k < |st| ==> st[k].row in tail && Fits(rows, st[k]) && st[k].deducted <= remaining - w;
          assert steps == [step] + rest;
          assert steps[0] == step && steps[1..] == rest;
          MapCons(steps, StepRow);
          var m := Map(rest, StepRow);
          forall k | 0 <= k < |m| ensures m[k] != order[0] {
            assert m[k] == rest[k].row;
            assert rest[k].row in tail;
          }
          DistinctCons(order[0], m);
        } else {
          assert steps == [step];
          assert Map(steps, StepRow) == [order[0]];
        }
      } else {
        VisitStepsDistinct(rows, tail, remaining);
        assert steps == Visit(rows, tail, remaining);
      }
    }
  }

  /** The loop only reads the balances of the rows it visits. */
  lemma {:induction false} VisitFrame(rows: seq<BalanceRow>, rows': seq<BalanceRow>, order: seq<nat>, remaining: Cents)
    requires forall i :: i in order ==> BalanceAt(rows)(i) == BalanceAt(rows')(i)
    ensures Visit(rows, order, remaining) == Visit(rows', order, remaining)
    decreases |order|
  {
    if |order| > 0 {
      assert order[0] in order;
      VisitFrame(rows, rows', order[1..], remaining - Min(BalanceAt(rows)(order[0]), remaining));
      VisitFrame(rows, rows', order[1..], remaining);
    }
  }

  /** What the updates do: a step's row ends with the step's new balance, every other row is untouched. */
  lemma {:induction false} ApplyStepsEffect(rows: seq<BalanceRow>, steps: seq<Step>)
    requires Distinct(Map(steps, StepRow))
    ensures var r := ApplySteps(rows, steps);
      && (forall k :: 0 <= k < |steps| && steps[k].row < |rows| ==>
            r[steps[k].row] == rows[steps[k].row].(balance := steps[k].newBalance))
      && (forall j :: 0 <= j < |rows| && j !in Map(steps, StepRow) ==> r[j] == rows[j])
    decreases |steps|
  {
    if |steps| > 0 {
      var s0 := steps[0];
      var rows1 := SetBalance(rows, s0.row, s0.newBalance);
      var tail := steps[1..];
      var m := Map(steps, StepRow);
      assert m[1..] == Map(tail, StepRow);
      assert Distinct(Map(tail, StepRow));
      ApplyStepsEffect(rows1, tail);
      var r := ApplySteps(rows, steps);
      assert r == ApplySteps(rows1, tail);
      forall k | 0 < k < |steps| ensures steps[k].row != s0.row {
        assert m[k] == steps[k].row && m[0] == s0.row;
      }
      if s0.row < |rows| {
        assert s0.row !in Map(tail, StepRow) by {
          forall k | 0 <= k < |tail| ensures Map(tail, StepRow)[k] != s0.row {
            assert tail[k] == steps[k + 1];
          }
        }
      }
      forall k | 0 < k < |steps| && steps[k].row < |rows|
        ensures r[steps[k].row] == rows[steps[k].row].(balance := steps[k].newBalance)
      {
        assert tail[k - 1] == steps[k];
      }
      forall j | 0 <= j < |rows| && j !in m ensures r[j] == rows[j] {
        assert m[0] == s0.row;
        assert j !in Map(tail, StepRow) by {
          forall k | 0 <= k < |tail| ensures Map(tail, StepRow)[k] != j {
            assert Map(tail, StepRow)[k] == m[k + 1];
          }
        }
      }
    }
  }

  /** Changing the balance of one joined row changes the account's total by the same difference. */
  lemma SetBalanceTotal(regs: seq<Registration>, accountNo: string, rows: seq<BalanceRow>, i: nat, b: Cents)
    requires i < |rows| && Owns(regs, rows[i].deviceId, accountNo)
    ensures TotalOf(regs, accountNo, SetBalance(rows, i, b)) == TotalOf(regs, accountNo, rows) - rows[i].balance + b
  {
    var rows' := SetBalance(rows, i, b);
    var m, m' := Map(Range(|rows|), OwnedBalance(regs, accountNo, rows)), Map(Range(|rows|), OwnedBalance(regs, accountNo, rows'));
    assert m' == m[i := b] by {
      forall k | 0 <= k < |m| ensures m'[k] == m[i := b][k] {
        assert Range(|rows|)[k] == k;
        assert rows'[k].deviceId == rows[k].deviceId;
      }
    }
    assert m[i] == rows[i].balance by {
      assert Range(|rows|)[i] == i;
    }
    SumUpdate(m, i, b);
  }

  /**
   * Updates to distinct joined rows, each leaving its row's balance less the
   * step's deduction, lower the account's total by what the steps took.
   */
  lemma {:induction false} ApplyStepsTotal(regs: seq<Registration>, accountNo: string, rows: seq<BalanceRow>, steps: seq<Step>)
    requires Distinct(Map(steps, StepRow))
    requires forall k :: 0 <= k < |steps| ==>
      steps[k].row < |rows| && Owns(regs, rows[steps[k].row].deviceId, accountNo)
      && steps[k].newBalance == rows[steps[k].row].balance - steps[k].deducted
    ensures TotalOf(regs, accountNo, ApplySteps(rows, steps)) == TotalOf(regs, accountNo, rows) - Deducted(steps)
    decreases |steps|
  {
    if |steps| > 0 {
      var s0, tail := steps[0], steps[1..];
      var rows1 := SetBalance(rows, s0.row, s0.newBalance);
      var m := Map(steps, StepRow);
      assert m[1..] == Map(tail, StepRow);
      assert Distinct(Map(tail, StepRow));
      forall k | 0 <= k < |tail|
        ensures tail[k].row < |rows1| && Owns(regs, rows1[tail[k].row].deviceId, accountNo)
        ensures tail[k].newBalance == rows1[tail[k].row].balance - tail[k].deducted
      {
        assert tail[k] == steps[k + 1];
        assert m[k + 1] != m[0];
      }
      SetBalanceTotal(regs, accountNo, rows, s0.row, s0.newBalance);
      ApplyStepsTotal(regs, accountNo, rows1, tail);
      assert Map(steps, StepDeducted)[1..] == Map(tail, StepDeducted);
    }
  }

  /**
   * The plugin's loop is the generic drain of `Allocation` run in the
   * visiting order: the balances of the visited rows, in that order, end up
   * as `Allocate` leaves them, whatever the order.
   */
  lemma {:induction false} VisitIsAllocate(rows: seq<BalanceRow>, order: seq<nat>, remaining: Cents)
    requires Distinct(order)
    ensures Map(order, BalanceAt(ApplySteps(rows, Visit(rows, order, remaining))))
         == Allocation.Allocate(Map(order, BalanceAt(rows)), remaining)
    decreases |order|, 1
  {
    if |order| > 0 {
      var i, tail := order[0], order[1..];
      var b := BalanceAt(rows)(i);
      var d := Allocation.Deduction(b, remaining);
      var r := ApplySteps(rows, Visit(rows, order, remaining));
      var rest := Map(tail, BalanceAt(rows));
      if Min(b, remaining) > 0 {
        VisitTakes(rows, order, remaining);
        assert d == Min(b, remaining);
      } else {
        VisitSkips(rows, order, remaining);
        assert d == 0;
      }
      assert BalanceAt(r)(i) == b - d;
      assert Map(tail, BalanceAt(r)) == Allocation.Allocate(rest, remaining - d);
      MapCons(order, BalanceAt(rows));
      MapCons(order, BalanceAt(r));
      Allocation.AllocateCons(b, rest, remaining);
    }
  }

  /** The first visited row has money to give: it gives `min(balance, remaining)` and the rest is drained for what is left. */
  lemma {:induction false} VisitTakes(rows: seq<BalanceRow>, order: seq<nat>, remaining: Cents)
    requires Distinct(order) && |order| > 0 && Min(BalanceAt(rows)(order[0]), remaining) > 0
    ensures var b, r := BalanceAt(rows)(order[0]), ApplySteps(rows, Visit(rows, order, remaining));
      && BalanceAt(r)(order[0]) == b - Min(b, remaining)
      && Map(order[1..], BalanceAt(r)) == Allocation.Allocate(Map(order[1..], BalanceAt(rows)), remaining - Min(b, remaining))
    decreases |order|, 0
  {
    var i, tail := order[0], order[1..];
    var b := BalanceAt(rows)(i);
    var w := Min(b, remaining);
    DistinctTail(order);
    var rows1 := SetBalance(rows, i, b - w);
    assert forall j :: j in tail ==> BalanceAt(rows1)(j) == BalanceAt(rows)(j);
    assert Map(tail, BalanceAt(rows1)) == Map(tail, BalanceAt(rows));
    var step := Step(i, w, b - w);
    var steps := Visit(rows, order, remaining);
    var r := ApplySteps(rows, steps);
    if remaining - w > 0 {
      var rest := Visit(rows, tail, remaining - w);
      assert steps == [step] + rest;
      assert steps[0] == step && steps[1..] == rest;
      assert r == ApplySteps(rows1, rest);
      VisitFrame(rows, rows1, tail, remaining - w);
      VisitSteps(rows1, tail, remaining - w);
      ApplyStepsEffect(rows1, rest);
      assert i !in Map(rest, StepRow);
      VisitIsAllocate(rows1, tail, remaining - w);
    } else {
      assert steps == [step];
      assert steps[0] == step && steps[1..] == [];
      assert r == ApplySteps(rows1, []);
    }
  }

  /** The first visited row has nothing to give: it keeps its balance and the rest is drained for the whole amount. */
  lemma {:induction false} VisitSkips(rows: seq<BalanceRow>, order: seq<nat>, remaining: Cents)
    requires Distinct(order) && |order| > 0 && Min(BalanceAt(rows)(order[0]), remaining) <= 0
    ensures var r := ApplySteps(rows, Visit(rows, order, remaining));
      && BalanceAt(r)(order[0]) == BalanceAt(rows)(order[0])
      && Map(order[1..], BalanceAt(r)) == Allocation.Allocate(Map(order[1..], BalanceAt(rows)), remaining)
    decreases |order|, 0
  {
    var i, tail := order[0], order[1..];
    DistinctTail(order);
    var steps := Visit(rows, tail, remaining);
    assert Visit(rows, order, remaining) == steps;
    VisitSteps(rows, tail, remaining);
    ApplyStepsEffect(rows, steps);
    VisitIsAllocate(rows, tail, remaining);
    assert i !in Map(steps, StepRow);
  }

  /** What row `i` offers the loop: its balance when it is a candidate, nothing otherwise. */
  function CandidateBalance(regs: seq<Registration>, accountNo: string, rows: seq<BalanceRow>): nat -> int
  {
    (i: nat) => if IsCandidate(regs, accountNo, rows)(i) then BalanceAt(rows)(i) else 0
  }

  /** The candidates' positive balances add up to at least the account's `SUM(b.balance)`. */
  lemma CandidatesCover(st: PluginState, accountNo: string)
    ensures SumPos(Map(Candidates(st, accountNo), BalanceAt(st.balances))) >= AccountTotal(st, accountNo)
  {
    var regs, rows := st.registrations, st.balances;
    var n := |rows|;
    var p, key := IsCandidate(regs, accountNo, rows), BalanceAt(rows);
    var g := CandidateBalance(regs, accountNo, rows);
    var own := Filter(Range(n), p);
    assert Candidates(st, accountNo) == SortDesc(own, key);
    SumMapSortDesc(own, key, key);
    SumMapFilter(Range(n), p, key, g);
    SumMonotone(Map(Range(n), OwnedBalance(regs, accountNo, rows)), Map(Range(n), g));
    SumAtMostSumPos(Map(Candidates(st, accountNo), key));
  }

  /** The updates `withdraw_funds` makes: the loop over the candidates, largest balance first. */
  function WithdrawSteps(st: PluginState, accountNo: string, amount: Cents): seq<Step>
  {
    Visit(st.balances, Candidates(st, accountNo), amount)
  }

  /**
   * When the account's total covers a positive amount, the loop takes exactly
   * the amount, in at least one step, each step from a different candidate
   * and fitting that candidate's balance.
   */
  lemma WithdrawStepsFacts(st: PluginState, accountNo: string, amount: Cents)
    requires 0 < amount <= AccountTotal(st, accountNo)
    ensures var steps := WithdrawSteps(st, accountNo, amount);
      && Deducted(steps) == amount && |steps| > 0
      && Distinct(Map(steps, StepRow))
      && forall k :: 0 <= k < |steps| ==>
           IsCandidate(st.registrations, accountNo, st.balances)(steps[k].row) && Fits(st.balances, steps[k])
           && steps[k].deducted <= amount
  {
    var c := Candidates(st, accountNo);
    var steps := WithdrawSteps(st, accountNo, amount);
    CandidatesCover(st, accountNo);
    VisitDeducts(st.balances, c, amount);
    VisitSteps(st.balances, c, amount);
    assert |steps| == 0 ==> Deducted(steps) == 0;
  }

  function AccountIs(accountNo: string): Registration -> bool { (r: Registration) => r.accountNo == accountNo }

  /** `SELECT owner_name, owner_number … WHERE account_no = %s LIMIT 1`: the account's first registration. */
  function FirstOwner(regs: seq<Registration>, accountNo: string): (r: Option<Registration>)
    ensures r.None? <==> forall g :: g in regs ==> g.accountNo != accountNo
    ensures r.Some? ==> r.value in regs && r.value.accountNo == accountNo
  {
    Find(regs, AccountIs(accountNo))
  }

  /** The balance table after the loop. */
  function WithdrawBalances(st: PluginState, accountNo: string, amount: Cents): seq<BalanceRow>
  {
    ApplySteps(st.balances, WithdrawSteps(st, accountNo, amount))
  }

  /** The owner recorded on the ledger when the loop drew on at least one of the account's rows. */
  function LedgerOwner(st: PluginState, accountNo: string, amount: Cents): (o: Registration)
    requires 0 < amount <= AccountTotal(st, accountNo)
    ensures o in st.registrations && o.accountNo == accountNo
  {
    WithdrawStepsFacts(st, accountNo, amount);
    var s0 := WithdrawSteps(st, accountNo, amount)[0];
    assert IsCandidate(st.registrations, accountNo, st.balances)(s0.row);
    var g :| g in st.registrations && g.deviceId == st.balances[s0.row].deviceId && g.accountNo == accountNo;
    assert AccountIs(accountNo)(g);
    FirstOwner(st.registrations, accountNo).value
  }

  /**
   * `withdraw_funds` as written: the amount must be positive and covered by
   * the account's total; the balances are drained largest first; and one
   * ledger row is written from the loop's variables as they stand after the
   * loop, that is, from its last step: the last device, minus what was taken
   * from it, and its new balance.
   */
  function WithdrawFundsAsWritten(st: PluginState, accountNo: string, amount: Cents, transactionId: string, now: nat)
    : (r: Result<PluginState, PluginError>)
    ensures r == Failure(InvalidWithdrawalAmount) <==> amount <= 0
    ensures r == Failure(InsufficientFunds) <==> 0 < amount && AccountTotal(st, accountNo) < amount
    ensures r.Success? <==> 0 < amount <= AccountTotal(st, accountNo)
    ensures r.Success? ==> r.value.registrations == st.registrations
    ensures r.Success? ==> r.value.balances == WithdrawBalances(st, accountNo, amount)
    ensures r.Success? ==> |r.value.ledger| == |st.ledger| + 1 && r.value.ledger[..|st.ledger|] == st.ledger
    ensures r.Success? ==> var e := r.value.ledger[|st.ledger|];
      && e.accountNo == accountNo && e.transactionId == transactionId && e.timestamp == now
      && -amount <= e.amount < 0
      && e.runningBalance >= 0
    ensures r.Success? ==> var steps, e := WithdrawSteps(st, accountNo, amount), r.value.ledger[|st.ledger|];
      && |steps| > 0
      && steps[|steps| - 1].row < |st.balances|
      && e.deviceId == st.balances[steps[|steps| - 1].row].deviceId
      && e.amount == -steps[|steps| - 1].deducted
      && e.runningBalance == steps[|steps| - 1].newBalance
    ensures r.Success? ==> var e := r.value.ledger[|st.ledger|];
      ShowsBalance(r.value.balances, e) && Owns(st.registrations, e.deviceId, accountNo)
  {
    if amount <= 0 then Failure(InvalidWithdrawalAmount)
    else if AccountTotal(st, accountNo) < amount then Failure(InsufficientFunds)
    else
      WithdrawStepsFacts(st, accountNo, amount);
      var steps := WithdrawSteps(st, accountNo, amount);
      var last := steps[|steps| - 1];
      assert IsCandidate(st.registrations, accountNo, st.balances)(last.row) && Fits(st.balances, last);
      var owner := LedgerOwner(st, accountNo, amount);
      var e := LedgerRow(accountNo, st.balances[last.row].deviceId, transactionId,
        -last.deducted, last.newBalance, owner.ownerName, owner.ownerNumber, now);
      ApplyStepsEffect(st.balances, steps);
      assert WithdrawBalances(st, accountNo, amount)[last.row] == st.balances[last.row].(balance := last.newBalance);
      Success(PluginState(st.registrations, WithdrawBalances(st, accountNo, amount), st.ledger + [e]))
  }

  /** Conservation: a withdrawal the total covers lowers the account's total by exactly the amount. */
  lemma WithdrawConserves(st: PluginState, accountNo: string, amount: Cents)
    requires 0 < amount <= AccountTotal(st, accountNo)
    ensures TotalOf(st.registrations, accountNo, WithdrawBalances(st, accountNo, amount)) == AccountTotal(st, accountNo) - amount
  {
    var steps := WithdrawSteps(st, accountNo, amount);
    WithdrawStepsFacts(st, accountNo, amount);
    forall k | 0 <= k < |steps|
      ensures steps[k].row < |st.balances| && Owns(st.registrations, st.balances[steps[k].row].deviceId, accountNo)
      ensures steps[k].newBalance == st.balances[steps[k].row].balance - steps[k].deducted
    {
      assert IsCandidate(st.registrations, accountNo, st.balances)(steps[k].row) && Fits(st.balances, steps[k]);
    }
    ApplyStepsTotal(st.registrations, accountNo, st.balances, steps);
  }

  /**
   * Only candidates change, only in their balance, and each goes down but
   * not below zero; every other row, including every row of any other
   * account, keeps its value.
   */
  lemma WithdrawTouchesCandidatesOnly(st: PluginState, accountNo: string, amount: Cents)
    requires 0 < amount <= AccountTotal(st, accountNo)
    ensures var rows, rows' := st.balances, WithdrawBalances(st, accountNo, amount);
      && |rows'| == |rows|
      && forall j :: 0 <= j < |rows| ==>
           rows'[j] == rows[j]
           || (IsCandidate(st.registrations, accountNo, rows)(j)
               && rows'[j] == rows[j].(balance := rows'[j].balance) && 0 <= rows'[j].balance < rows[j].balance)
  {
    var steps := WithdrawSteps(st, accountNo, amount);
    var rows, rows' := st.balances, WithdrawBalances(st, accountNo, amount);
    WithdrawStepsFacts(st, accountNo, amount);
    ApplyStepsEffect(rows, steps);
    forall j | 0 <= j < |rows| && j in Map(steps, StepRow)
      ensures IsCandidate(st.registrations, accountNo, rows)(j)
      ensures rows'[j] == rows[j].(balance := rows'[j].balance) && 0 <= rows'[j].balance < rows[j].balance
    {
      var k :| 0 <= k < |steps| && Map(steps, StepRow)[k] == j;
      assert steps[k].row == j && Fits(rows, steps[k]);
    }
  }

  /**
   * The plugin's drain is the generic drain run over the candidates, largest
   * balance first: the candidates' balances end up as `Allocate` leaves them.
   */
  lemma WithdrawIsAllocate(st: PluginState, accountNo: string, amount: Cents)
    ensures var c := Candidates(st, accountNo);
      Map(c, BalanceAt(WithdrawBalances(st, accountNo, amount))) == Allocation.Allocate(Map(c, BalanceAt(st.balances)), amount)
  {
    VisitIsAllocate(st.balances, Candidates(st, accountNo), amount);
  }

  /**
   * The ledger row written as the code stands records the full withdrawal
   * only when the loop drew on a single device; as soon as it drew on two or
   * more, the row records just the last device's share.
   */
  lemma LedgerRecordsLastStepOnly(st: PluginState, accountNo: string, amount: Cents, transactionId: string, now: nat)
    requires 0 < amount <= AccountTotal(st, accountNo)
    ensures var r := WithdrawFundsAsWritten(st, accountNo, amount, transactionId, now);
      r.Success? && (r.value.ledger[|st.ledger|].amount == -amount <==> |WithdrawSteps(st, accountNo, amount)| == 1)
  {
    var steps := WithdrawSteps(st, accountNo, amount);
    WithdrawStepsFacts(st, accountNo, amount);
    var ds := Map(steps, StepDeducted);
    if |steps| >= 2 {
      forall k | 0 <= k < |ds| ensures ds[k] > 0 {
        assert Fits(st.balances, steps[k]);
      }
      LastBelowSum(ds);
    } else {
      assert Sum(ds) == ds[0] + Sum(ds[1..]);
    }
  }

  function ExampleRegistration(deviceId: nat): Registration
  {
    Registration(deviceId, "SN", "Owner", "0700000000", "Nairobi", "ACC", "active", "pw")
  }

  /** Devices 1, 2 and 3 of account "ACC", holding 300, 100 and 50 shillings. */
  function ExampleState(): PluginState
  {
    PluginState([ExampleRegistration(1), ExampleRegistration(2), ExampleRegistration(3)],
      [BalanceRow(1, 30000, 0, 0, 0), BalanceRow(2, 10000, 0, 0, 0), BalanceRow(3, 5000, 0, 0, 0)], [])
  }

  lemma ExampleOwns()
    ensures forall j :: 0 <= j < 3 ==> Owns(ExampleState().registrations, ExampleState().balances[j].deviceId, "ACC")
  {
    var regs := ExampleState().registrations;
    assert regs[0] in regs && regs[1] in regs && regs[2] in regs;
  }

  lemma ExampleFilter()
    ensures Filter(Range(3), IsCandidate(ExampleState().registrations, "ACC", ExampleState().balances)) == [0, 1, 2]
  {
    var st := ExampleState();
    var p := IsCandidate(st.registrations, "ACC", st.balances);
    ExampleOwns();
    assert Range(3) == [0, 1, 2];
    assert p(0) && p(1) && p(2);
    FilterCons<nat>(2, [], p);
    FilterCons<nat>(1, [2], p);
    FilterCons<nat>(0, [1, 2], p);
  }

  lemma ExampleSorted()
    ensures SortDesc<nat>([0, 1, 2], BalanceAt(ExampleState().balances)) == [0, 1, 2]
  {
    var c: seq<nat> := [0, 1, 2];
    var key := BalanceAt(ExampleState().balances);
    assert key(0) == 30000 && key(1) == 10000 && key(2) == 5000;
    SortDescOfSorted(c, key);
  }

  lemma ExampleCandidates()
    ensures Candidates(ExampleState(), "ACC") == [0, 1, 2]
  {
    ExampleFilter();
    ExampleSorted();
  }

  lemma ExampleTotal()
    ensures AccountTotal(ExampleState(), "ACC") == 45000
  {
    var st := ExampleState();
    ExampleOwns();
    assert Range(3) == [0, 1, 2];
    var m := Map(Range(3), OwnedBalance(st.registrations, "ACC", st.balances));
    assert m == [30000, 10000, 5000];
    assert Sum(m) == 30000 + Sum(m[1..]);
    assert Sum(m[1..]) == 10000 + Sum(m[2..]);
    assert Sum(m[2..]) == 5000 + Sum(m[3..]);
  }

  lemma ExampleSteps()
    ensures WithdrawSteps(ExampleState(), "ACC", 35000) == [Step(0, 30000, 0), Step(1, 5000, 5000)]
  {
    ExampleCandidates();
    var rows := ExampleState().balances;
    var order: seq<nat> := [0, 1, 2];
    assert BalanceAt(rows)(0) == 30000 && BalanceAt(rows)(1) == 10000;
    assert order[1..] == [1, 2];
    assert Visit(rows, [1, 2], 5000) == [Step(1, 5000, 5000)];
    assert Visit(rows, order, 35000) == [Step(0, 30000, 0)] + Visit(rows, [1, 2], 5000);
  }

  /**
   * The discrepancy on a concrete account: withdrawing 350 from balances of
   * 300, 100 and 50 takes 300 from the first device and 50 from the second,
   * yet the one ledger row written says -50 with a running balance of 50.
   */
  lemma LedgerExample()
    ensures var r := WithdrawFundsAsWritten(ExampleState(), "ACC", 35000, "WD1", 0);
      && r.Success?
      && r.value.ledger == [LedgerRow("ACC", 2, "WD1", -5000, 5000, "Owner", "0700000000", 0)]
  {
    var st := ExampleState();
    ExampleTotal();
    ExampleSteps();
    assert AccountIs("ACC")(st.registrations[0]);
    assert FirstOwner(st.registrations, "ACC") == Some(ExampleRegistration(1));
  }

  /** The ledger row for one step: minus what the step took, and the row's balance after it. */
  function LedgerEntry(rows: seq<BalanceRow>, accountNo: string, transactionId: string, owner: Registration, now: nat): Step -> LedgerRow
  {
    (s: Step) => LedgerRow(accountNo, if s.row < |rows| then rows[s.row].deviceId else 0, transactionId,
      -s.deducted, s.newBalance, owner.ownerName, owner.ownerNumber, now)
  }

  function LedgerAmount(e: LedgerRow): int { e.amount }

  /**
   * `withdraw_funds` as evidently intended: the same checks and the same
   * drain, but one ledger row per device drawn on, so that the ledger
   * records the whole withdrawal.
   */
  function WithdrawFunds(st: PluginState, accountNo: string, amount: Cents, transactionId: string, now: nat)
    : (r: Result<PluginState, PluginError>)
    ensures r == Failure(InvalidWithdrawalAmount) <==> amount <= 0
    ensures r == Failure(InsufficientFunds) <==> 0 < amount && AccountTotal(st, accountNo) < amount
    ensures r.Success? <==> 0 < amount <= AccountTotal(st, accountNo)
    ensures r.Success? ==> r.value.registrations == st.registrations
    ensures r.Success? ==> r.value.balances == WithdrawBalances(st, accountNo, amount)
    ensures r.Success? ==> |r.value.ledger| > |st.ledger| && r.value.ledger[..|st.ledger|] == st.ledger
    ensures r.Success? ==> forall k :: |st.ledger| <= k < |r.value.ledger| ==>
      var e := r.value.ledger[k];
      e.accountNo == accountNo && e.transactionId == transactionId && e.timestamp == now && -amount <= e.amount < 0
  {
    if amount <= 0 then Failure(InvalidWithdrawalAmount)
    else if AccountTotal(st, accountNo) < amount then Failure(InsufficientFunds)
    else
      WithdrawStepsFacts(st, accountNo, amount);
      var steps := WithdrawSteps(st, accountNo, amount);
      var owner := LedgerOwner(st, accountNo, amount);
      var entries := Map(steps, LedgerEntry(st.balances, accountNo, transactionId, owner, now));
      Success(PluginState(st.registrations, WithdrawBalances(st, accountNo, amount), st.ledger + entries))
  }

  /** The rows the corrected withdrawal adds to the ledger. */
  function NewEntries(st: PluginState, st': PluginState): seq<LedgerRow>
    requires |st.ledger| <= |st'.ledger|
  {
    st'.ledger[|st.ledger|..]
  }

  /** The ledger row's running balance is what some balance row of its device holds. */
  predicate ShowsBalance(rows: seq<BalanceRow>, e: LedgerRow)
  {
    exists j :: 0 <= j < |rows| && rows[j].deviceId == e.deviceId && rows[j].balance == e.runningBalance
  }

  /**
   * The corrected ledger adds up: its new rows total minus the amount, and
   * each names a device of the account and that device's balance after the
   * withdrawal.
   */
  lemma WithdrawFundsLedger(st: PluginState, accountNo: string, amount: Cents, transactionId: string, now: nat)
    requires 0 < amount <= AccountTotal(st, accountNo)
    ensures var r := WithdrawFunds(st, accountNo, amount, transactionId, now);
      && r.Success?
      && Sum(Map(NewEntries(st, r.value), LedgerAmount)) == -amount
      && forall e :: e in NewEntries(st, r.value) ==>
           ShowsBalance(r.value.balances, e) && Owns(st.registrations, e.deviceId, accountNo)
  {
    WithdrawStepsFacts(st, accountNo, amount);
    var steps := WithdrawSteps(st, accountNo, amount);
    var r := WithdrawFunds(st, accountNo, amount, transactionId, now);
    var owner := LedgerOwner(st, accountNo, amount);
    var entries := Map(steps, LedgerEntry(st.balances, accountNo, transactionId, owner, now));
    assert NewEntries(st, r.value) == entries;
    SumNegate(Map(steps, StepDeducted), Map(entries, LedgerAmount));
    ApplyStepsEffect(st.balances, steps);
    forall e | e in entries
      ensures ShowsBalance(r.value.balances, e) && Owns(st.registrations, e.deviceId, accountNo)
    {
      var k :| 0 <= k < |entries| && entries[k] == e;
      var j := steps[k].row;
      assert IsCandidate(st.registrations, accountNo, st.balances)(j) && Fits(st.balances, steps[k]);
      assert r.value.balances[j].deviceId == e.deviceId;
    }
  }

  // ------------------------------------------------------ update_device_info

  /** The request's fields; a field that is absent or null is `None`. */
  datatype DeviceUpdate = DeviceUpdate(
    name: Option<string>,
    location: Option<string>,
    status: Option<string>,
    phoneNumber: Option<string>,
    balance: Option<Cents>,
    gamesPlayed: Option<int>,
    dailyEarnings: Option<Cents>,
    dailyGamesPlayed: Option<int>)

  predicate HasRegistrationFields(u: DeviceUpdate)
  {
    u.name.Some? || u.location.Some? || u.status.Some? || u.phoneNumber.Some?
  }

  predicate HasBalanceFields(u: DeviceUpdate)
  {
    u.balance.Some? || u.gamesPlayed.Some? || u.dailyEarnings.Some? || u.dailyGamesPlayed.Some?
  }

  /** A registration row after the update: the supplied columns overwritten. */
  function UpdateRegistration(g: Registration, u: DeviceUpdate): Registration
  {
    g.(ownerName := GetOr(u.name, g.ownerName), location := GetOr(u.location, g.location),
       status := GetOr(u.status, g.status), ownerNumber := GetOr(u.phoneNumber, g.ownerNumber))
  }

  /** A balance row after the update: the supplied columns overwritten. */
  function UpdateBalanceRow(b: BalanceRow, u: DeviceUpdate): BalanceRow
  {
    b.(balance := GetOr(u.balance, b.balance), gamesPaid := GetOr(u.gamesPlayed, b.gamesPaid),
       dailyEarnings := GetOr(u.dailyEarnings, b.dailyEarnings), dailyGamesPaid := GetOr(u.dailyGamesPlayed, b.dailyGamesPaid))
  }

  /** `UPDATE … WHERE device_id = %d` on the registrations: every row of the device. */
  function RegistrationUpdate(deviceId: nat, u: DeviceUpdate): Registration -> Registration
  {
    (g: Registration) => if g.deviceId == deviceId then UpdateRegistration(g, u) else g
  }

  /** `UPDATE … WHERE device_id = %d` on the balances: every row of the device. */
  function BalanceUpdate(deviceId: nat, u: DeviceUpdate): BalanceRow -> BalanceRow
  {
    (b: BalanceRow) => if b.deviceId == deviceId then UpdateBalanceRow(b, u) else b
  }

  /** The balance row inserted for a device that had none; the columns left out take their default, zero. */
  function InsertedBalanceRow(deviceId: nat, u: DeviceUpdate): BalanceRow
  {
    UpdateBalanceRow(BalanceRow(deviceId, 0, 0, 0, 0), u)
  }

  predicate HasBalanceRow(rows: seq<BalanceRow>, deviceId: nat)
  {
    exists b :: b in rows && b.deviceId == deviceId
  }

  predicate Registered(regs: seq<Registration>, deviceId: nat)
  {
    exists g :: g in regs && g.deviceId == deviceId
  }

  /** The registrations after the update: only the device's rows change, and only in the supplied columns. */
  function UpdatedRegistrations(regs: seq<Registration>, deviceId: nat, u: DeviceUpdate): (regs': seq<Registration>)
    ensures |regs'| == |regs|
    ensures forall k :: 0 <= k < |regs| ==>
      var g, g' := regs[k], regs'[k];
      && g'.deviceId == g.deviceId && g'.serialNumber == g.serialNumber
      && g'.accountNo == g.accountNo && g'.password == g.password
      && (g.deviceId == deviceId ==> g'.ownerName == GetOr(u.name, g.ownerName) && g'.location == GetOr(u.location, g.location)
                                     && g'.status == GetOr(u.status, g.status) && g'.ownerNumber == GetOr(u.phoneNumber, g.ownerNumber))
      && (g.deviceId != deviceId ==> g' == g)
    ensures !HasRegistrationFields(u) ==> regs' == regs
  {
    if HasRegistrationFields(u) then Map(regs, RegistrationUpdate(deviceId, u)) else regs
  }

  /**
   * The balance rows after the update: untouched without balance fields;
   * otherwise the device's rows take the supplied columns, or, when it has
   * none, a row for it is appended.
   */
  function UpdatedBalances(rows: seq<BalanceRow>, deviceId: nat, u: DeviceUpdate): (rows': seq<BalanceRow>)
    ensures !HasBalanceFields(u) ==> rows' == rows
    ensures HasBalanceFields(u) && HasBalanceRow(rows, deviceId) ==>
      |rows'| == |rows|
      && forall k :: 0 <= k < |rows| ==>
           rows'[k] == if rows[k].deviceId == deviceId then UpdateBalanceRow(rows[k], u) else rows[k]
    ensures HasBalanceFields(u) && !HasBalanceRow(rows, deviceId) ==> rows' == rows + [InsertedBalanceRow(deviceId, u)]
  {
    if !HasBalanceFields(u) then rows
    else if HasBalanceRow(rows, deviceId) then Map(rows, BalanceUpdate(deviceId, u))
    else rows + [InsertedBalanceRow(deviceId, u)]
  }

  /**
   * `update_device_info`: 404 for an unregistered device, with nothing
   * written; otherwise both tables take the update and the ledger is left
   * alone.
   */
  function UpdateDeviceInfo(st: PluginState, deviceId: nat, u: DeviceUpdate): (r: Result<PluginState, PluginError>)
    ensures r.Failure? <==> !Registered(st.registrations, deviceId)
    ensures r.Failure? ==> r.error == DeviceNotFound
    ensures r.Success? ==> r.value.ledger == st.ledger
    ensures r.Success? ==> r.value.registrations == UpdatedRegistrations(st.registrations, deviceId, u)
    ensures r.Success? ==> r.value.balances == UpdatedBalances(st.balances, deviceId, u)
  {
    if !Registered(st.registrations, deviceId) then Failure(DeviceNotFound)
    else Success(PluginState(UpdatedRegistrations(st.registrations, deviceId, u), UpdatedBalances(st.balances, deviceId, u), st.ledger))
  }

  /** The registrations after a second, identical update are those after the first. */
  lemma {:induction false} UpdatedRegistrationsTwice(regs: seq<Registration>, deviceId: nat, u: DeviceUpdate)
    ensures var regs' := UpdatedRegistrations(regs, deviceId, u); UpdatedRegistrations(regs', deviceId, u) == regs'
  {
    var f := RegistrationUpdate(deviceId, u);
    assert Map(Map(regs, f), f) == Map(regs, f);
  }

  /** The balance rows after a second, identical update are those after the first. */
  lemma {:induction false} UpdatedBalancesTwice(rows: seq<BalanceRow>, deviceId: nat, u: DeviceUpdate)
    ensures var rows' := UpdatedBalances(rows, deviceId, u); UpdatedBalances(rows', deviceId, u) == rows'
  {
    if HasBalanceFields(u) {
      if HasBalanceRow(rows, deviceId) {
        UpdatedExistingTwice(rows, deviceId, u);
      } else {
        UpdatedInsertedTwice(rows, deviceId, u);
      }
    }
  }

  /** A second update of a device that has balance rows rewrites them to what they already hold. */
  lemma UpdatedExistingTwice(rows: seq<BalanceRow>, deviceId: nat, u: DeviceUpdate)
    requires HasBalanceFields(u) && HasBalanceRow(rows, deviceId)
    ensures var rows' := UpdatedBalances(rows, deviceId, u); UpdatedBalances(rows', deviceId, u) == rows'
  {
    var f := BalanceUpdate(deviceId, u);
    var rows' := Map(rows, f);
    var x :| x in rows && x.deviceId == deviceId;
    var i :| 0 <= i < |rows| && rows[i] == x;
    assert rows'[i] in rows' && rows'[i].deviceId == deviceId;
    MapIdempotent(rows, f);
  }

  /** A second update of a device whose row was just appended rewrites that row to what it already holds. */
  lemma UpdatedInsertedTwice(rows: seq<BalanceRow>, deviceId: nat, u: DeviceUpdate)
    requires HasBalanceFields(u) && !HasBalanceRow(rows, deviceId)
    ensures var rows' := UpdatedBalances(rows, deviceId, u); UpdatedBalances(rows', deviceId, u) == rows'
  {
    var f := BalanceUpdate(deviceId, u);
    var rows' := rows + [InsertedBalanceRow(deviceId, u)];
    assert rows'[|rows|] in rows';
    forall k | 0 <= k < |rows'| ensures f(rows'[k]) == rows'[k] {
      if k < |rows| {
        assert rows[k] in rows;
      }
    }
    assert Map(rows', f) == rows';
  }

  /** The device is still registered after the update, and has a balance row if balance fields were sent. */
  lemma {:induction false} UpdateKeepsDevice(st: PluginState, deviceId: nat, u: DeviceUpdate)
    requires Registered(st.registrations, deviceId)
    ensures Registered(UpdatedRegistrations(st.registrations, deviceId, u), deviceId)
    ensures HasBalanceFields(u) ==> HasBalanceRow(UpdatedBalances(st.balances, deviceId, u), deviceId)
  {
    var regs' := UpdatedRegistrations(st.registrations, deviceId, u);
    var g :| g in st.registrations && g.deviceId == deviceId;
    var k :| 0 <= k < |st.registrations| && st.registrations[k] == g;
    assert regs'[k] in regs';
    if HasBalanceFields(u) {
      var rows' := UpdatedBalances(st.balances, deviceId, u);
      if HasBalanceRow(st.balances, deviceId) {
        var x :| x in st.balances && x.deviceId == deviceId;
        var i :| 0 <= i < |st.balances| && st.balances[i] == x;
        assert rows'[i] in rows';
      } else {
        assert rows'[|st.balances|] in rows';
      }
    }
  }

  /** Sending the same update twice leaves the tables as sending it once. */
  lemma UpdateDeviceInfoIdempotent(st: PluginState, deviceId: nat, u: DeviceUpdate)
    requires UpdateDeviceInfo(st, deviceId, u).Success?
    ensures var st' := UpdateDeviceInfo(st, deviceId, u).value;
      UpdateDeviceInfo(st', deviceId, u) == Success(st')
  {
    UpdateKeepsDevice(st, deviceId, u);
    UpdatedRegistrationsTwice(st.registrations, deviceId, u);
    UpdatedBalancesTwice(st.balances, deviceId, u);
  }

  /** An update that supplies no field changes nothing for a registered device. */
  lemma EmptyUpdateChangesNothing(st: PluginState, deviceId: nat)
    requires Registered(st.registrations, deviceId)
    ensures UpdateDeviceInfo(st, deviceId, DeviceUpdate(None, None, None, None, None, None, None, None)) == Success(st)
  {
  }

  /** A supplied balance is what `get_device_balance` then reports. */
  lemma UpdatedBalanceReadsBack(st: PluginState, deviceId: nat, u: DeviceUpdate, b: Cents)
    requires Registered(st.registrations, deviceId) && u.balance == Some(b)
    ensures GetDeviceBalance(UpdateDeviceInfo(st, deviceId, u).value, deviceId) == b
  {
    var st' := UpdateDeviceInfo(st, deviceId, u).value;
    var first := UpdatedFirstRow(st.balances, deviceId, u, b);
    assert st'.balances == UpdatedBalances(st.balances, deviceId, u);
  }

  /** After an update carrying a balance, the device's first balance row holds that balance. */
  lemma UpdatedFirstRow(rows: seq<BalanceRow>, deviceId: nat, u: DeviceUpdate, b: Cents) returns (first: nat)
    requires u.balance == Some(b)
    ensures var rows' := UpdatedBalances(rows, deviceId, u);
      FirstRowAt(rows', deviceId, first) && rows'[first].balance == b
  {
    var rows' := UpdatedBalances(rows, deviceId, u);
    if HasBalanceRow(rows, deviceId) {
      var x :| x in rows && x.deviceId == deviceId;
      var i :| 0 <= i < |rows| && rows[i] == x;
      first := FirstIndex(rows, deviceId, i);
      assert FirstRowAt(rows', deviceId, first);
    } else {
      first := |rows|;
      assert FirstRowAt(rows', deviceId, first);
    }
  }

  /** The first row of the device, given some row of it. */
  lemma {:induction false} FirstIndex(rows: seq<BalanceRow>, deviceId: nat, i: nat) returns (first: nat)
    requires i < |rows| && rows[i].deviceId == deviceId
    ensures FirstRowAt(rows, deviceId, first)
    decreases i
  {
    if exists j :: 0 <= j < i && rows[j].deviceId == deviceId {
      var j :| 0 <= j < i && rows[j].deviceId == deviceId;
      first := FirstIndex(rows, deviceId, j);
    } else {
      first := i;
    }
  }

  // -------------------------------------------------- get_device_transactions

  /** PHP's `if ($search)`: a search is applied when present and neither "" nor "0". */
  predicate SearchGiven(search: Option<string>)
  {
    search.Some? && search.value != "" && search.value != "0"
  }

  /**
   * `phone_number LIKE %s OR transaction_id LIKE %s` with the escaped search
   * wrapped in `%`: a substring test, case-insensitive under the table's
   * collation.
   */
  predicate LikeMatch(e: LedgerRow, search: string)
  {
    Contains(Lower(e.phoneNumber), Lower(search)) || Contains(Lower(e.transactionId), Lower(search))
  }

  /** The `WHERE` clause of the query. */
  function Selects(deviceId: nat, search: Option<string>): LedgerRow -> bool
  {
    (e: LedgerRow) => e.deviceId == deviceId && (SearchGiven(search) ==> LikeMatch(e, search.value))
  }

  function Timestamp(e: LedgerRow): int { e.timestamp }

  /**
   * The rows the query returns: the device's ledger rows that match the
   * search, newest first; rows with the same timestamp keep ledger order.
   */
  function DeviceLedger(st: PluginState, deviceId: nat, search: Option<string>): (r: seq<LedgerRow>)
    ensures forall e :: e in r <==> e in st.ledger && e.deviceId == deviceId && (SearchGiven(search) ==> LikeMatch(e, search.value))
    ensures SortedDesc(r, Timestamp)
  {
    var rows := Filter(st.ledger, Selects(deviceId, search));
    var r := SortDesc(rows, Timestamp);
    assert forall e :: e in r <==> e in rows by {
      forall e ensures e in r <==> e in rows {
        assert e in r <==> e in multiset(r);
        assert e in rows <==> e in multiset(rows);
      }
    }
    r
  }

  /** The rows stamped with one timestamp come back in ledger order. */
  lemma DeviceLedgerIsStable(st: PluginState, deviceId: nat, search: Option<string>, t: int)
    ensures WithKey(DeviceLedger(st, deviceId, search), Timestamp, t) == WithKey(Filter(st.ledger, Selects(deviceId, search)), Timestamp, t)
  {
    SortDescIsStable(Filter(st.ledger, Selects(deviceId, search)), Timestamp, t);
  }

  /** An absent, empty or "0" search returns every ledger row of the device. */
  lemma FalsySearchReturnsAll(st: PluginState, deviceId: nat, search: Option<string>)
    requires !SearchGiven(search)
    ensures forall e :: e in DeviceLedger(st, deviceId, search) <==> e in st.ledger && e.deviceId == deviceId
  {
  }

  /** `DATE(transaction_date)`: the day a timestamp in seconds falls on. */
  function Day(e: LedgerRow): nat { e.timestamp / 86400 }

  /** One transaction of a day's bucket, as the response lists it. */
  datatype Entry = Entry(
    transactionId: string,
    amount: Cents,
    runningBalance: Cents,
    payerName: string,
    phoneNumber: string,
    timestamp: nat)

  function ToEntry(e: LedgerRow): Entry
  {
    Entry(e.transactionId, e.amount, e.runningBalance, e.payerName, e.phoneNumber, e.timestamp)
  }

  function EntryTime(e: Entry): int { e.timestamp }

  /** One key of `$grouped_transactions` and the list under it. */
  datatype DayGroup = DayGroup(day: nat, entries: seq<Entry>)

  function OnDay(d: nat): LedgerRow -> bool { (e: LedgerRow) => Day(e) == d }

  /** The position of the bucket for day `d`, or `|groups|` when there is none yet. */
  function DayIndex(groups: seq<DayGroup>, d: nat): (k: nat)
    ensures k <= |groups|
    ensures k < |groups| ==> groups[k].day == d
    ensures k == |groups| ==> forall j :: 0 <= j < |groups| ==> groups[j].day != d
    decreases |groups|
  {
    if |groups| == 0 then 0
    else if groups[0].day == d then 0
    else 1 + DayIndex(groups[1..], d)
  }

  /** Appending one row to the processed rows adds it to its own day's list only. */
  lemma FilterSnoc(prefix: seq<LedgerRow>, e: LedgerRow, d: nat)
    ensures Map(Filter(prefix + [e], OnDay(d)), ToEntry)
         == Map(Filter(prefix, OnDay(d)), ToEntry) + (if Day(e) == d then [ToEntry(e)] else [])
  {
    FilterAppend(prefix, [e], OnDay(d));
    assert Filter([e], OnDay(d)) == if Day(e) == d then [e] else [] by {
      FilterCons(e, [], OnDay(d));
    }
    MapAppend(Filter(prefix, OnDay(d)), Filter([e], OnDay(d)), ToEntry);
  }

  /** A bucket found before a step is still found after it, when the step keeps every bucket's day. */
  lemma {:induction false} DayIndexKept(groups: seq<DayGroup>, groups': seq<DayGroup>, d: nat)
    requires |groups| <= |groups'|
    requires forall k :: 0 <= k < |groups| ==> groups'[k].day == groups[k].day
    ensures DayIndex(groups, d) < |groups| ==> DayIndex(groups', d) < |groups'|
  {
    var k := DayIndex(groups, d);
    if k < |groups| {
      assert groups'[k].day == d;
    }
  }

  /** No row of a prefix whose days all have buckets falls on a day without one. */
  lemma {:induction false} FilterEmptyWhenAbsent(prefix: seq<LedgerRow>, d: nat, groups: seq<DayGroup>)
    requires forall j :: 0 <= j < |prefix| ==> DayIndex(groups, Day(prefix[j])) < |groups|
    requires DayIndex(groups, d) == |groups|
    ensures Filter(prefix, OnDay(d)) == []
  {
    assert forall j :: 0 <= j < |prefix| ==> Day(prefix[j]) != d;
    FilterNone(prefix, OnDay(d));
  }

  predicate DistinctDays(groups: seq<DayGroup>)
  {
    forall a, b :: 0 <= a < b < |groups| ==> groups[a].day != groups[b].day
  }

  /**
   * `groups` is the grouping of `rows`: distinct days, each bucket exactly
   * its day's rows in order and never empty, and a bucket for every row.
   */
  predicate Grouped(rows: seq<LedgerRow>, groups: seq<DayGroup>)
  {
    && DistinctDays(groups)
    && (forall k :: 0 <= k < |groups| ==> groups[k].entries == Map(Filter(rows, OnDay(groups[k].day)), ToEntry))
    && (forall k :: 0 <= k < |groups| ==> |groups[k].entries| > 0)
    && (forall j :: 0 <= j < |rows| ==> DayIndex(groups, Day(rows[j])) < |groups|)
  }

  /** One pass of the loop body: append to the day's bucket, opening it when the day is new. */
  function AddRow(groups: seq<DayGroup>, e: LedgerRow): (groups': seq<DayGroup>)
    ensures DayIndex(groups', Day(e)) < |groups'|
  {
    var k := DayIndex(groups, Day(e));
    if k < |groups| then
      var r := groups[k := DayGroup(Day(e), groups[k].entries + [ToEntry(e)])];
      assert r[k].day == Day(e);
      r
    else
      var r := groups + [DayGroup(Day(e), [ToEntry(e)])];
      assert r[|groups|].day == Day(e);
      r
  }

  /** The loop body keeps every bucket's day and adds at most one bucket, for a new day. */
  lemma {:induction false} AddRowDays(groups: seq<DayGroup>, e: LedgerRow)
    requires DistinctDays(groups)
    ensures var groups' := AddRow(groups, e);
      && |groups| <= |groups'| <= |groups| + 1
      && (forall g :: 0 <= g < |groups| ==> groups'[g].day == groups[g].day && |groups'[g].entries| >= |groups[g].entries|)
      && (|groups'| > |groups| ==> groups'[|groups|] == DayGroup(Day(e), [ToEntry(e)]) && DayIndex(groups, Day(e)) == |groups|)
      && DistinctDays(groups')
  {
  }

  /** The loop body keeps each bucket equal to its day's rows. */
  lemma AddRowEntries(prefix: seq<LedgerRow>, e: LedgerRow, groups: seq<DayGroup>)
    requires Grouped(prefix, groups)
    ensures var groups' := AddRow(groups, e);
      forall g :: 0 <= g < |groups'| ==> groups'[g].entries == Map(Filter(prefix + [e], OnDay(groups'[g].day)), ToEntry)
  {
    var d := Day(e);
    var k := DayIndex(groups, d);
    var groups' := AddRow(groups, e);
    AddRowDays(groups, e);
    forall g | 0 <= g < |groups'|
      ensures groups'[g].entries == Map(Filter(prefix + [e], OnDay(groups'[g].day)), ToEntry)
    {
      FilterSnoc(prefix, e, groups'[g].day);
      if g == |groups| {
        FilterEmptyWhenAbsent(prefix, d, groups);
      }
    }
  }

  /** The loop body keeps a bucket for every row processed so far, the new one included. */
  lemma AddRowCovers(prefix: seq<LedgerRow>, e: LedgerRow, groups: seq<DayGroup>)
    requires Grouped(prefix, groups)
    ensures var groups' := AddRow(groups, e);
      forall j :: 0 <= j < |prefix + [e]| ==> DayIndex(groups', Day((prefix + [e])[j])) < |groups'|
  {
    var groups' := AddRow(groups, e);
    AddRowDays(groups, e);
    forall j | 0 <= j < |prefix + [e]| ensures DayIndex(groups', Day((prefix + [e])[j])) < |groups'| {
      if j < |prefix| {
        assert (prefix + [e])[j] == prefix[j];
        DayIndexKept(groups, groups', Day(prefix[j]));
      }
    }
  }

  /** The loop body keeps the grouping. */
  lemma AddRowKeepsGrouped(prefix: seq<LedgerRow>, e: LedgerRow, groups: seq<DayGroup>)
    requires Grouped(prefix, groups)
    ensures Grouped(prefix + [e], AddRow(groups, e))
  {
    AddRowDays(groups, e);
    AddRowEntries(prefix, e, groups);
    AddRowCovers(prefix, e, groups);
  }

  /** The loop body, stated on the prefix the loop has read. */
  lemma GroupStep(rows: seq<LedgerRow>, i: nat, groups: seq<DayGroup>)
    requires i < |rows|
    requires Grouped(rows[..i], groups)
    ensures Grouped(rows[..i + 1], AddRow(groups, rows[i]))
  {
    TakeSnoc(rows, i);
    AddRowKeepsGrouped(rows[..i], rows[i], groups);
  }

  /** Once the loop has read every row, the grouping is of the whole query. */
  lemma GroupedWhole(rows: seq<LedgerRow>, groups: seq<DayGroup>)
    requires Grouped(rows[..|rows|], groups)
    ensures Grouped(rows, groups)
  {
    assert rows[..|rows|] == rows;
  }

  /**
   * The `foreach` that groups the query's rows by day: the buckets have
   * distinct days, every row lands in the bucket of its day, and each
   * bucket lists exactly that day's rows in query order.
   */
  method GroupByDay(rows: seq<LedgerRow>) returns (groups: seq<DayGroup>)
    ensures DistinctDays(groups)
    ensures forall k :: 0 <= k < |groups| ==> groups[k].entries == Map(Filter(rows, OnDay(groups[k].day)), ToEntry)
    ensures forall k :: 0 <= k < |groups| ==> |groups[k].entries| > 0
    ensures forall j :: 0 <= j < |rows| ==> DayIndex(groups, Day(rows[j])) < |groups|
  {
    groups := [];
    var i := 0;
    while i < |rows|
      invariant i <= |rows|
      invariant Grouped(rows[..i], groups)
    {
      GroupStep(rows, i, groups);
      groups := AddRow(groups, rows[i]);
      i := i + 1;
    }
    GroupedWhole(rows, groups);
  }

  /** A bucket of rows that came back newest first lists its transactions newest first. */
  lemma BucketKeepsOrder(rows: seq<LedgerRow>, d: nat)
    requires SortedDesc(rows, Timestamp)
    ensures SortedDesc(Map(Filter(rows, OnDay(d)), ToEntry), EntryTime)
  {
    FilterKeepsSorted(rows, OnDay(d), Timestamp);
    var f := Filter(rows, OnDay(d));
    var m := Map(f, ToEntry);
    forall a, b | 0 <= a < b < |m| ensures EntryTime(m[a]) >= EntryTime(m[b]) {
      assert Timestamp(f[a]) >= Timestamp(f[b]);
    }
  }

  /**
   * `get_device_transactions`: the device's ledger rows that match the
   * search, newest first, grouped by day; each transaction appears in the
   * bucket of its day and nowhere else, and each bucket is newest first.
   */
  method GetDeviceTransactions(st: PluginState, deviceId: nat, search: Option<string>) returns (groups: seq<DayGroup>)
    ensures DistinctDays(groups)
    ensures forall k :: 0 <= k < |groups| ==>
      groups[k].entries == Map(Filter(DeviceLedger(st, deviceId, search), OnDay(groups[k].day)), ToEntry)
    ensures forall k :: 0 <= k < |groups| ==> |groups[k].entries| > 0 && SortedDesc(groups[k].entries, EntryTime)
    ensures forall e :: e in st.ledger && Selects(deviceId, search)(e) ==> DayIndex(groups, Day(e)) < |groups|
  {
    var rows := DeviceLedger(st, deviceId, search);
    groups := GroupByDay(rows);
    forall k | 0 <= k < |groups| ensures SortedDesc(groups[k].entries, EntryTime) {
      BucketKeepsOrder(rows, groups[k].day);
    }
    forall e | e in st.ledger && Selects(deviceId, search)(e) ensures DayIndex(groups, Day(e)) < |groups| {
      assert e in rows;
      var j :| 0 <= j < |rows| && rows[j] == e;
    }
  }
}
