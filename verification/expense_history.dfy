/** The expense history screen: the status drop-down that narrows the list. */
module ExpenseHistory {
  import opened Sequences

  datatype ExpenseStatus = Pending | Approved | Rejected

  function StatusValue(s: ExpenseStatus): string {
    match s
    case Pending => "pending"
    case Approved => "approved"
    case Rejected => "rejected"
  }

  datatype ExpenseRecord = ExpenseRecord(id: string, date: string, name: string, purpose: string, amount: int, status: ExpenseStatus)

  const AllStatuses := "all"

  /** `filteredRecords`: the whole list for "all", otherwise the records whose status value
      equals the filter, in order. */
  function FilteredRecords(records: seq<ExpenseRecord>, filter: string): (r: seq<ExpenseRecord>)
    ensures filter == AllStatuses ==> r == records
    ensures filter != AllStatuses ==> forall x :: x in r <==> x in records && StatusValue(x.status) == filter
    ensures filter != AllStatuses ==>
      forall x :: multiset(r)[x] == if StatusValue(x.status) == filter then multiset(records)[x] else 0
    ensures IsSubsequence(r, records)
  {
    if filter == AllStatuses then
      SubsequenceRefl(records);
      records
    else
      var p := (x: ExpenseRecord) => StatusValue(x.status) == filter;
      FilterIsSubsequence(records, p);
      FilterMultiplicity(records, p);
      forall x ensures x in Filter(records, p) <==> x in records && p(x) {
        FilterMembership(records, p, x);
      }
      Filter(records, p)
  }

  /** A filter value that is no status lists nothing. */
  lemma UnknownFilterListsNothing(records: seq<ExpenseRecord>, filter: string)
    requires filter !in {"all", "pending", "approved", "rejected"}
    ensures FilteredRecords(records, filter) == []
  {
    FilterDropsAll(records, (x: ExpenseRecord) => StatusValue(x.status) == filter);
  }

  /** The three status filters split the list: every record is listed under exactly its own
      status, and the three lists together are as long as the whole. */
  lemma StatusFiltersPartition(records: seq<ExpenseRecord>)
    ensures |FilteredRecords(records, "pending")| + |FilteredRecords(records, "approved")|
          + |FilteredRecords(records, "rejected")| == |records|
  {
    var pending := (x: ExpenseRecord) => StatusValue(x.status) == "pending";
    var approved := (x: ExpenseRecord) => StatusValue(x.status) == "approved";
    var rejected := (x: ExpenseRecord) => StatusValue(x.status) == "rejected";
    StatusFilterCount(records, "pending");
    StatusFilterCount(records, "approved");
    StatusFilterCount(records, "rejected");
    forall i | 0 <= i < |records|
      ensures (if pending(records[i]) then 1 else 0) + (if approved(records[i]) then 1 else 0)
            + (if rejected(records[i]) then 1 else 0) == 1
    {
      OneStatusValue(records[i].status);
    }
    CountPartition3(records, pending, approved, rejected);
  }

  /** Each status has exactly one of the three filter values. */
  lemma OneStatusValue(s: ExpenseStatus)
    ensures (if StatusValue(s) == "pending" then 1 else 0) + (if StatusValue(s) == "approved" then 1 else 0)
          + (if StatusValue(s) == "rejected" then 1 else 0) == 1
  {
    assert "pending" != "approved" && "pending" != "rejected" && "approved" != "rejected";
  }

  lemma StatusFilterCount(records: seq<ExpenseRecord>, v: string)
    requires v != AllStatuses
    ensures |FilteredRecords(records, v)| == Count(records, (x: ExpenseRecord) => StatusValue(x.status) == v)
  {
  }
}
