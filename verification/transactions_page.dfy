/**
 * The transaction history page of the web client
 * (`client/src/pages/transactions.tsx`): the type and table selections it
 * applies to the list the server returned, and the table name it shows for
 * a transaction's device.
 */
module TransactionsPage {
  import opened Results
  import opened Seqs
  import opened Schema

  /** The type selection: "payments" and "withdrawals" narrow the list, anything else keeps it whole. */
  function TypeFilter(selection: string): Transaction -> bool
  {
    (t: Transaction) =>
      if selection == "payments" then t.kind == "payment"
      else if selection == "withdrawals" then t.kind == "withdrawal"
      else true
  }

  /** The table selection: "" and "all" keep every transaction, a device id keeps that device's. */
  function TableFilter(selection: string): Transaction -> bool
  {
    (t: Transaction) => selection == "all" || selection == "" || t.deviceId == selection
  }

  /**
   * `finalFilteredTransactions`: the type filter, then the table filter, over
   * the loaded list (nothing while it has not loaded). The result keeps the
   * server's order.
   */
  function FinalFiltered(loaded: Option<seq<Transaction>>, kind: string, table: string): (r: seq<Transaction>)
    ensures loaded.None? ==> r == []
    ensures loaded.Some? ==> IsSubsequence(r, loaded.value)
    ensures loaded.Some? ==> forall t :: t in r <==> t in loaded.value && TypeFilter(kind)(t) && TableFilter(table)(t)
  {
    match loaded
    case None => []
    case Some(ts) =>
      var byType := Filter(ts, TypeFilter(kind));
      var r := Filter(byType, TableFilter(table));
      FilterIsSubsequence(ts, TypeFilter(kind));
      FilterIsSubsequence(byType, TableFilter(table));
      SubsequenceTransitive(r, byType, ts);
      r
  }

  /** "payments" keeps exactly the payments; "withdrawals" exactly the withdrawals. */
  lemma TypeSelectionKeepsItsKind(ts: seq<Transaction>, kind: string)
    requires kind == "payments" || kind == "withdrawals"
    ensures forall t :: t in FinalFiltered(Some(ts), kind, "all") <==>
      t in ts && t.kind == (if kind == "payments" then "payment" else "withdrawal")
  {
  }

  /** Any other type selection and an "" or "all" table selection show the list exactly as loaded. */
  lemma NoSelectionShowsAll(ts: seq<Transaction>, kind: string, table: string)
    requires kind != "payments" && kind != "withdrawals"
    requires table == "" || table == "all"
    ensures FinalFiltered(Some(ts), kind, table) == ts
  {
    FilterAll(ts, TypeFilter(kind));
    FilterAll(ts, TableFilter(table));
  }

  function HasDevice(deviceId: string): PoolTable -> bool { (t: PoolTable) => t.deviceId == deviceId }

  /**
   * `getTableName`: the name of the first loaded table with the device id,
   * falling back to the device id itself when there is no such table or its
   * name is empty.
   */
  function GetTableName(tables: Option<seq<PoolTable>>, deviceId: string): (r: string)
    ensures tables.None? ==> r == deviceId
    ensures tables.Some? && (forall t :: t in tables.value ==> t.deviceId != deviceId) ==> r == deviceId
    ensures r != deviceId ==> tables.Some? && exists t :: t in tables.value && t.deviceId == deviceId && t.name == r
  {
    match tables
    case None => deviceId
    case Some(ts) =>
      match Find(ts, HasDevice(deviceId))
      case None => deviceId
      case Some(t) => if t.name == "" then deviceId else t.name
  }

  /** With device ids unique, the name shown is the table's own name whenever it has one. */
  lemma {:induction false} TableNameOfUniqueDevice(ts: seq<PoolTable>, t: PoolTable)
    requires UniqueDeviceIds(ts) && t in ts && t.name != ""
    ensures GetTableName(Some(ts), t.deviceId) == t.name
  {
    var i :| 0 <= i < |ts| && ts[i] == t;
    FindIsFirst(ts, HasDevice(t.deviceId), i);
  }
}
