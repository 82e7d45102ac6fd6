/**
 * The request handlers of `server/routes.ts`: the request-body schemas, the
 * login check, the dashboard fold, the transaction search and the withdrawal
 * handler with its ordered checks. A body field that is missing or of the
 * wrong JSON type is `None`; a query parameter that is absent is `None`.
 */
module Routes {
  import opened Results
  import opened Seqs
  import opened Money
  import opened Text
  import opened Schema
  import opened Storage

  /** Every failure a handler answers with; `StatusCode` gives its HTTP status. */
  datatype RouteError =
    | InvalidRequestData
    | InvalidCredentials
    | UserNotFound
    | AccountRequired
    | InvalidWithdrawalData
    | AccountNotFound
    | InsufficientBalance
    | PasswordRejected

  function StatusCode(e: RouteError): nat
  {
    match e
    case InvalidRequestData => 400
    case InvalidCredentials => 401
    case UserNotFound => 404
    case AccountRequired => 400
    case InvalidWithdrawalData => 400
    case AccountNotFound => 404
    case InsufficientBalance => 400
    case PasswordRejected => 401
  }

  /** The account holder as the handlers show it. */
  datatype UserView = UserView(id: nat, name: string, accountNumber: string, phoneNumber: string)

  /** Every view carries the same placeholder phone number. */
  const PlaceholderPhone := "+254700000000"

  function ViewOf(u: User): UserView
  {
    UserView(u.id, "Account Holder " + u.username, u.username, PlaceholderPhone)
  }

  // ---------------------------------------------------------------- login

  datatype LoginBody = LoginBody(accountId: Option<string>, password: Option<string>)

  /**
   * `POST /api/auth/login`: a body without both strings is bad request data;
   * an unknown account or a differing password is bad credentials; otherwise
   * the user's view. The token is left out.
   */
  function Login(s: Store, body: LoginBody): (r: Result<UserView, RouteError>)
    ensures r.Success? || r == Failure(InvalidRequestData) || r == Failure(InvalidCredentials)
    ensures r == Failure(InvalidRequestData) <==> body.accountId.None? || body.password.None?
    ensures r == Failure(InvalidCredentials) <==>
      body.accountId.Some? && body.password.Some? && !ValidateUserPassword(s, body.accountId.value, body.password.value)
    ensures r.Success? ==>
      exists u :: u in s.users && u.username == body.accountId.value && u.password == body.password.value && r.value == ViewOf(u)
  {
    if body.accountId.None? || body.password.None? then Failure(InvalidRequestData)
    else
      match GetUserByUsername(s, body.accountId.value)
      case None => Failure(InvalidCredentials)
      case Some(u) =>
        if u.password != body.password.value then Failure(InvalidCredentials)
        else Success(ViewOf(u))
  }

  // ------------------------------------------------------------ dashboard

  /** The five dashboard figures. */
  datatype Summary = Summary(
    totalBalance: Cents,
    dailyEarnings: Cents,
    dailyGames: int,
    totalTables: nat,
    activeTables: nat)

  function Earnings(t: PoolTable): int { t.dailyEarnings }
  function GamesToday(t: PoolTable): int { t.dailyGamesPlayed }
  function IsActive(t: PoolTable): bool { t.status == ActiveStatus }

  /**
   * The dashboard fold: three running totals, the table count and the count
   * of tables whose status is "active".
   */
  function Summarize(ts: seq<PoolTable>): (r: Summary)
    ensures r.totalBalance == Sum(Balances(ts))
    ensures r.dailyEarnings == Sum(Map(ts, Earnings))
    ensures r.dailyGames == Sum(Map(ts, GamesToday))
    ensures r.totalTables == |ts|
    ensures r.activeTables == Count(ts, IsActive)
    ensures r.activeTables <= r.totalTables
    ensures r.activeTables == r.totalTables <==> forall i :: 0 <= i < |ts| ==> IsActive(ts[i])
  {
    FilterLengthIsCount(ts, IsActive);
    ReduceIsSum(0, Balances(ts));
    ReduceIsSum(0, Map(ts, Earnings));
    ReduceIsSum(0, Map(ts, GamesToday));
    FilterKeepsAll(ts, IsActive);
    Summary(
      Reduce(0, Balances(ts)),
      Reduce(0, Map(ts, Earnings)),
      Reduce(0, Map(ts, GamesToday)),
      |ts|,
      |Filter(ts, IsActive)|)
  }

  datatype DashboardView = DashboardView(
    user: UserView,
    summary: Summary,
    poolTables: seq<PoolTable>,
    recentTransactions: seq<Transaction>)

  /** How many transactions the dashboard shows. */
  const RecentCount := 10

  /** `getUser(parseInt(id))`: a non-number or negative id finds nobody. */
  function LookupUser(s: Store, userId: Option<int>): (r: Option<User>)
    ensures r.Some? ==> userId.Some? && r.value.id == userId.value && r.value in s.users
    ensures r.None? <==> userId.None? || forall u :: u in s.users ==> u.id != userId.value
  {
    if userId.None? || userId.value < 0 then None else GetUser(s, userId.value)
  }

  /**
   * `GET /api/users/:id/dashboard`: the user's view, the figures over the
   * user's tables, the tables themselves and the ten newest transactions.
   */
  function Dashboard(s: Store, userId: Option<int>): (r: Result<DashboardView, RouteError>)
    ensures r.Failure? <==> LookupUser(s, userId).None?
    ensures r.Failure? ==> r.error == UserNotFound
    ensures r.Success? ==>
      var u := LookupUser(s, userId).value;
      var listing := GetTransactionsByAccount(s, u.username);
      && r.value.user == ViewOf(u)
      && r.value.poolTables == GetPoolTablesByAccount(s, u.username)
      && r.value.summary.totalBalance == AccountTotal(s, u.username)
      && r.value.summary == Summarize(r.value.poolTables)
      && r.value.summary.totalTables == |r.value.poolTables|
      && r.value.summary.activeTables == Count(r.value.poolTables, IsActive)
      && |r.value.recentTransactions| == Min(RecentCount, |listing|)
      && r.value.recentTransactions == listing[..|r.value.recentTransactions|]
  {
    match LookupUser(s, userId)
    case None => Failure(UserNotFound)
    case Some(u) =>
      var tables := GetPoolTablesByAccount(s, u.username);
      Success(DashboardView(ViewOf(u), Summarize(tables), tables,
        Take(GetTransactionsByAccount(s, u.username), RecentCount)))
  }

  /**
   * The recent transactions are the newest: none of those left out is newer
   * than any of those shown.
   */
  lemma {:induction false} RecentAreNewest(s: Store, userId: Option<int>)
    requires Dashboard(s, userId).Success?
    ensures var v := Dashboard(s, userId).value;
      var listing := GetTransactionsByAccount(s, LookupUser(s, userId).value.username);
      forall t, t' :: t in v.recentTransactions && t' in listing[|v.recentTransactions|..] ==>
        TransactionDate(t) >= TransactionDate(t')
  {
    var v := Dashboard(s, userId).value;
    var listing := GetTransactionsByAccount(s, LookupUser(s, userId).value.username);
    SortedSplit(listing, |v.recentTransactions|, TransactionDate);
  }

  /** A table inserted with every default adds nothing to the totals and counts as one more active table. */
  lemma DefaultTableAddsNothing(ts: seq<PoolTable>, id: nat, n: NewPoolTable, now: nat)
    requires n.balance.None? && n.dailyEarnings.None? && n.dailyGamesPlayed.None? && n.status.None?
    ensures var before, after := Summarize(ts), Summarize(ts + [InsertPoolTable(id, n, now)]);
      && after.totalBalance == before.totalBalance
      && after.dailyEarnings == before.dailyEarnings
      && after.dailyGames == before.dailyGames
      && after.totalTables == before.totalTables + 1
      && after.activeTables == before.activeTables + 1
  {
    var t := InsertPoolTable(id, n, now);
    var ts' := ts + [t];
    assert Balances(ts') == Balances(ts) + Balances([t]);
    assert Map(ts', Earnings) == Map(ts, Earnings) + Map([t], Earnings);
    assert Map(ts', GamesToday) == Map(ts, GamesToday) + Map([t], GamesToday);
    SumAppend(Balances(ts), Balances([t]));
    SumAppend(Map(ts, Earnings), Map([t], Earnings));
    SumAppend(Map(ts, GamesToday), Map([t], GamesToday));
    assert ts'[..|ts'| - 1] == ts && IsActive(ts'[|ts'| - 1]);
  }

  // ------------------------------------------------------ transaction search

  /** A query parameter JavaScript treats as true: present and not empty. */
  predicate Given(o: Option<string>)
  {
    o.Some? && o.value != ""
  }

  /**
   * The search box: the payer's phone contains the text as typed, or the
   * transaction id or payer name contains it ignoring letter case.
   */
  predicate MatchesSearch(t: Transaction, search: string)
  {
    || Contains(t.payerPhone, search)
    || Contains(Lower(t.transactionId), Lower(search))
    || Contains(Lower(t.payerName), Lower(search))
  }

  function SearchFor(search: string): Transaction -> bool { (t: Transaction) => MatchesSearch(t, search) }
  function OnTable(deviceId: string): Transaction -> bool { (t: Transaction) => t.deviceId == deviceId }

  /** The search filter, applied only when a search text is given. */
  function BySearch(ts: seq<Transaction>, search: Option<string>): seq<Transaction>
  {
    if Given(search) then Filter(ts, SearchFor(search.value)) else ts
  }

  /** The table filter, applied only when a table is given. */
  function ByTable(ts: seq<Transaction>, table: Option<string>): seq<Transaction>
  {
    if Given(table) then Filter(ts, OnTable(table.value)) else ts
  }

  /**
   * `GET /api/transactions`: the account's transactions, newest first, cut
   * down by the search text and then by the table, each only when given.
   */
  function SearchTransactions(s: Store, account: Option<string>, search: Option<string>, table: Option<string>)
    : (r: Result<seq<Transaction>, RouteError>)
    ensures r.Failure? <==> !Given(account)
    ensures r.Failure? ==> r.error == AccountRequired
    ensures r.Success? ==> forall t :: t in r.value <==>
      && t in s.transactions && t.accountNumber == account.value
      && (Given(search) ==> MatchesSearch(t, search.value))
      && (Given(table) ==> t.deviceId == table.value)
    ensures r.Success? ==> IsSubsequence(r.value, GetTransactionsByAccount(s, account.value))
    ensures r.Success? ==> SortedDesc(r.value, TransactionDate)
  {
    if !Given(account) then Failure(AccountRequired)
    else
      var listing := GetTransactionsByAccount(s, account.value);
      FiltersKeepOrder(listing, search, table);
      Success(ByTable(BySearch(listing, search), table))
  }

  /** Both filters keep a subsequence of the listing, still newest first. */
  lemma FiltersKeepOrder(listing: seq<Transaction>, search: Option<string>, table: Option<string>)
    requires SortedDesc(listing, TransactionDate)
    ensures IsSubsequence(ByTable(BySearch(listing, search), table), listing)
    ensures SortedDesc(ByTable(BySearch(listing, search), table), TransactionDate)
  {
    var searched := BySearch(listing, search);
    if Given(search) {
      FilterIsSubsequence(listing, SearchFor(search.value));
      FilterKeepsSorted(listing, SearchFor(search.value), TransactionDate);
    } else {
      SubsequenceReflexive(listing);
    }
    if Given(table) {
      FilterIsSubsequence(searched, OnTable(table.value));
      FilterKeepsSorted(searched, OnTable(table.value), TransactionDate);
      SubsequenceTransitive(ByTable(searched, table), searched, listing);
    }
  }

  /** Filtering by table first and by search text second gives the same list. */
  lemma SearchAndTableCommute(s: Store, account: string, search: Option<string>, table: Option<string>)
    ensures SearchTransactions(s, Some(account), search, table).Success? <==> account != ""
    ensures account != "" ==>
      SearchTransactions(s, Some(account), search, table).value
        == BySearch(ByTable(GetTransactionsByAccount(s, account), table), search)
  {
    if Given(search) && Given(table) {
      FilterCommutes(GetTransactionsByAccount(s, account), SearchFor(search.value), OnTable(table.value));
    }
  }

  /** Every transaction matches the empty search text, so skipping the filter for it loses nothing. */
  lemma EmptySearchMatchesAll(t: Transaction)
    ensures MatchesSearch(t, "")
  {
    ContainsEmpty(t.payerPhone);
  }

  // ------------------------------------------------------------ withdrawal

  datatype WithdrawBody = WithdrawBody(accountNumber: Option<string>, amount: Option<Cents>, password: Option<string>)
  datatype WithdrawRequest = WithdrawRequest(accountNumber: string, amount: Cents, password: string)

  /** `WithdrawSchema`: three fields of the right types and an amount of at least 100. */
  function ParseWithdraw(b: WithdrawBody): (r: Option<WithdrawRequest>)
    ensures r.Some? <==> b.accountNumber.Some? && b.amount.Some? && b.password.Some? && b.amount.value >= MinWithdrawal
    ensures r.Some? ==> r.value == WithdrawRequest(b.accountNumber.value, b.amount.value, b.password.value)
  {
    if b.accountNumber.None? || b.amount.None? || b.password.None? || b.amount.value < MinWithdrawal then None
    else Some(WithdrawRequest(b.accountNumber.value, b.amount.value, b.password.value))
  }

  /**
   * `POST /api/withdrawals`: the schema, then the account, then the balance
   * (strictly less than the amount fails), then the password inside
   * `createWithdrawal`; the first failing check decides the answer.
   */
  function HandleWithdrawal(s: Store, body: WithdrawBody, withdrawalId: string, now: nat)
    : (r: Result<Created, RouteError>)
    ensures r.Success? || r.error in {InvalidWithdrawalData, AccountNotFound, InsufficientBalance, PasswordRejected}
    ensures r == Failure(InvalidWithdrawalData) <==> ParseWithdraw(body).None?
    ensures r == Failure(AccountNotFound) <==>
      ParseWithdraw(body).Some? && GetUserByUsername(s, ParseWithdraw(body).value.accountNumber).None?
    ensures r == Failure(InsufficientBalance) <==>
      && ParseWithdraw(body).Some?
      && GetUserByUsername(s, ParseWithdraw(body).value.accountNumber).Some?
      && AccountTotal(s, ParseWithdraw(body).value.accountNumber) < ParseWithdraw(body).value.amount
    ensures r == Failure(PasswordRejected) <==>
      && ParseWithdraw(body).Some?
      && var q := ParseWithdraw(body).value;
      && GetUserByUsername(s, q.accountNumber).Some?
      && AccountTotal(s, q.accountNumber) >= q.amount
      && !ValidateUserPassword(s, q.accountNumber, q.password)
    ensures r.Success? ==>
      var q := ParseWithdraw(body).value;
      CreateWithdrawal(s, q.accountNumber, q.amount, q.password, withdrawalId, now) == Success(r.value)
  {
    match ParseWithdraw(body)
    case None => Failure(InvalidWithdrawalData)
    case Some(q) =>
      if GetUserByUsername(s, q.accountNumber).None? then Failure(AccountNotFound)
      else if AccountTotal(s, q.accountNumber) < q.amount then Failure(InsufficientBalance)
      else
        match CreateWithdrawal(s, q.accountNumber, q.amount, q.password, withdrawalId, now)
        case Failure(_) => Failure(PasswordRejected)
        case Success(c) => Success(c)
  }

  /** A withdrawal the handler accepts lowers the account's total by exactly the amount. */
  lemma HandledWithdrawalConserves(s: Store, body: WithdrawBody, withdrawalId: string, now: nat)
    requires HandleWithdrawal(s, body, withdrawalId, now).Success?
    ensures var q := ParseWithdraw(body).value;
      AccountTotal(HandleWithdrawal(s, body, withdrawalId, now).value.store, q.accountNumber)
        == AccountTotal(s, q.accountNumber) - q.amount
  {
    var q := ParseWithdraw(body).value;
    CreateWithdrawalConserves(s, q.accountNumber, q.amount, q.password, withdrawalId, now);
  }

  /**
   * Withdrawing exactly the total passes the balance check; when no table of
   * the account is in debt it leaves every table of the account at zero.
   */
  lemma WithdrawingEverything(s: Store, account: string, password: string, withdrawalId: string, now: nat)
    requires ValidateUserPassword(s, account, password)
    requires AccountTotal(s, account) >= MinWithdrawal
    requires forall t :: t in s.poolTables && t.accountNumber == account ==> t.balance >= 0
    ensures var r := HandleWithdrawal(s, WithdrawBody(Some(account), Some(AccountTotal(s, account)), Some(password)),
                                     withdrawalId, now);
      && r.Success?
      && forall t :: t in GetPoolTablesByAccount(r.value.store, account) ==> t.balance == 0
  {
    var amount := AccountTotal(s, account);
    var body := WithdrawBody(Some(account), Some(amount), Some(password));
    var c := CreateWithdrawal(s, account, amount, password, withdrawalId, now).value;
    assert HandleWithdrawal(s, body, withdrawalId, now) == Success(c);
    assert c.store.poolTables == DrainAccount(s.poolTables, account, amount, now);
    DrainEverythingEmpties(s.poolTables, account, now);
  }
}
