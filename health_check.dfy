/** The readiness and liveness check of the catalog's store: every required
    table must exist and have at least one unit of read and of write
    capacity.  The two store calls, `listTables` and `describeTable`, are
    inputs: a listing (or the message of the exception it threw) and a
    function from table name to provisioned throughput (or a message). */
module HealthCheck {
  import opened Java
  import opened DynamoStore

  /** The name every response of the check carries. */
  const CheckName: string := "DynamoDB health check"

  /** `REQUIRED_TABLES`, checked in this order. */
  const RequiredTables: seq<string> := ["CartDB", "CommentDB", "OrdersDB", "ProductCatalog"]

  /** The provisioned throughput `describeTable` reports. */
  datatype Throughput = Throughput(readCapacityUnits: int, writeCapacityUnits: int)

  /** The status: UP, or DOWN with the `error` data. */
  datatype Health = Up | Down(error: string)

  /** The response: the check's name and its status. */
  datatype HealthResponse = HealthResponse(name: string, health: Health)

  type Describe = string -> StoreResult<Throughput>

  function MissingMessage(table: string): string {
    "Table " + table + " does not exist"
  }

  function CapacityMessage(table: string): string {
    "Table " + table + " has insufficient read/write capacity"
  }

  /** What is wrong with one table, if anything: nothing exactly when it is
      healthy.  Absence is decided from the listing before the table is
      described, so a missing table is reported as missing whatever a
      describe would say; a failed `describeTable` reports its exception's
      message; a single capacity below 1 is enough to fail. */
  function TableProblem(table: string, listing: seq<string>, describe: Describe): (r: Option<string>)
    ensures r.None? <==> Healthy(table, listing, describe)
    ensures table !in listing ==> r == Some(MissingMessage(table))
    ensures table in listing && describe(table).Fault? ==> r == Some(describe(table).message)
    ensures table in listing && describe(table).Ok? &&
            (describe(table).value.readCapacityUnits < 1 || describe(table).value.writeCapacityUnits < 1) ==>
            r == Some(CapacityMessage(table))
  {
    if table !in listing then Some(MissingMessage(table))
    else match describe(table)
      case Fault(message) => Some(message)
      case Ok(t) =>
        if t.readCapacityUnits < 1 || t.writeCapacityUnits < 1 then Some(CapacityMessage(table)) else None
  }

  /** The tables checked in order; the first problem decides, so a DOWN
      message is the problem of one of the tables. */
  function Verdict(tables: seq<string>, listing: seq<string>, describe: Describe): (r: Health)
    ensures r.Down? ==> exists t :: t in tables && TableProblem(t, listing, describe) == Some(r.error)
    decreases |tables|
  {
    if tables == [] then Up
    else match TableProblem(tables[0], listing, describe)
      case Some(message) => Down(message)
      case None => Verdict(tables[1..], listing, describe)
  }

  /** The whole check: a failed `listTables` reports its exception's
      message; otherwise a DOWN message is the problem of a required table. */
  function Check(listTables: StoreResult<seq<string>>, describe: Describe): (r: Health)
    ensures listTables.Fault? ==> r == Down(listTables.message)
    ensures listTables.Ok? && r.Down? ==>
              exists t :: t in RequiredTables && TableProblem(t, listTables.value, describe) == Some(r.error)
  {
    match listTables
    case Fault(message) => Down(message)
    case Ok(listing) => Verdict(RequiredTables, listing, describe)
  }

  /** A table passes when it is listed, described, and has read and write
      capacity of at least 1. */
  ghost predicate Healthy(table: string, listing: seq<string>, describe: Describe) {
    && table in listing
    && describe(table).Ok?
    && describe(table).value.readCapacityUnits >= 1
    && describe(table).value.writeCapacityUnits >= 1
  }

  /** `call()`: the loop over `REQUIRED_TABLES` returns at the first failure;
      every response is named `CheckName`. */
  method Call(listTables: StoreResult<seq<string>>, describeTable: Describe) returns (response: HealthResponse)
    ensures response == HealthResponse(CheckName, Check(listTables, describeTable))
  {
    if listTables.Fault? {
      return HealthResponse(CheckName, Down(listTables.message));
    }
    var tables := listTables.value;
    var i := 0;
    while i < |RequiredTables|
      invariant 0 <= i <= |RequiredTables|
      invariant forall j :: 0 <= j < i ==> Healthy(RequiredTables[j], tables, describeTable)
      invariant Verdict(RequiredTables[i..], tables, describeTable) == Verdict(RequiredTables, tables, describeTable)
    {
      var requiredTable := RequiredTables[i];
      if requiredTable !in tables {
        return HealthResponse(CheckName, Down(MissingMessage(requiredTable)));
      }
      var described := describeTable(requiredTable);
      if described.Fault? {
        return HealthResponse(CheckName, Down(described.message));
      }
      var throughput := described.value;
      if throughput.readCapacityUnits < 1 || throughput.writeCapacityUnits < 1 {
        return HealthResponse(CheckName, Down(CapacityMessage(requiredTable)));
      }
      assert RequiredTables[i..][1..] == RequiredTables[i + 1..];
      i := i + 1;
    }
    return HealthResponse(CheckName, Up);
  }

  /** UP exactly when every table in the list is healthy. */
  lemma {:induction false} VerdictUp(tables: seq<string>, listing: seq<string>, describe: Describe)
    ensures Verdict(tables, listing, describe) == Up <==>
            forall t :: t in tables ==> Healthy(t, listing, describe)
    decreases |tables|
  {
    if tables != [] {
      VerdictUp(tables[1..], listing, describe);
      assert forall t :: t in tables <==> t == tables[0] || t in tables[1..];
    }
  }

  /** The check is UP exactly when the listing succeeded and CartDB,
      CommentDB, OrdersDB and ProductCatalog are all healthy. */
  lemma CheckUp(listTables: StoreResult<seq<string>>, describe: Describe)
    ensures Check(listTables, describe) == Up <==>
            listTables.Ok? && forall t :: t in RequiredTables ==> Healthy(t, listTables.value, describe)
  {
    if listTables.Ok? {
      VerdictUp(RequiredTables, listTables.value, describe);
    }
  }

  /** The first table with a problem decides the message; the tables after
      it are never examined. */
  lemma {:induction false} FirstProblemDecides(tables: seq<string>, k: int, listing: seq<string>, describe: Describe)
    requires 0 <= k < |tables|
    requires forall j :: 0 <= j < k ==> TableProblem(tables[j], listing, describe).None?
    requires TableProblem(tables[k], listing, describe).Some?
    ensures Verdict(tables, listing, describe) == Down(TableProblem(tables[k], listing, describe).value)
    decreases k
  {
    if k > 0 {
      FirstProblemDecides(tables[1..], k - 1, listing, describe);
    }
  }

  /** `describeTable` is consulted only for listed tables: two describers
      that agree on them give the same verdict. */
  lemma {:induction false} DescribeOnlyListed(tables: seq<string>, listing: seq<string>, d1: Describe, d2: Describe)
    requires forall t :: t in tables && t in listing ==> d1(t) == d2(t)
    ensures Verdict(tables, listing, d1) == Verdict(tables, listing, d2)
    decreases |tables|
  {
    if tables != [] {
      assert TableProblem(tables[0], listing, d1) == TableProblem(tables[0], listing, d2);
      DescribeOnlyListed(tables[1..], listing, d1, d2);
    }
  }

  /** Only membership of the listing matters: extra tables and their order
      do not change the verdict. */
  lemma {:induction false} ListingMembershipOnly(tables: seq<string>, l1: seq<string>, l2: seq<string>, describe: Describe)
    requires forall t :: t in tables ==> (t in l1 <==> t in l2)
    ensures Verdict(tables, l1, describe) == Verdict(tables, l2, describe)
    decreases |tables|
  {
    if tables != [] {
      assert TableProblem(tables[0], l1, describe) == TableProblem(tables[0], l2, describe);
      ListingMembershipOnly(tables[1..], l1, l2, describe);
    }
  }
}
