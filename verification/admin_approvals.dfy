/** The administrator's approval queue: the type and status filters, their reset, the status
    counts, and which rows offer the approve and reject buttons. */
module AdminApprovals {
  import opened Sequences

  datatype RequestType = Expense | Allowance | PaidLeave
  datatype ApprovalStatus = Pending | Approved | Rejected

  /** The values the drop-downs compare against. */
  function TypeValue(t: RequestType): string {
    match t
    case Expense => "expense"
    case Allowance => "allowance"
    case PaidLeave => "paid-leave"
  }

  function StatusValue(s: ApprovalStatus): string {
    match s
    case Pending => "pending"
    case Approved => "approved"
    case Rejected => "rejected"
  }

  datatype ApprovalItem = ApprovalItem(
    id: string,
    kind: RequestType,
    employeeId: string,
    employeeName: string,
    department: string,
    title: string,
    reason: string,
    applicationDate: string,
    status: ApprovalStatus)

  datatype ApprovalFilter = ApprovalFilter(kind: string, status: string)

  predicate Matches(f: ApprovalFilter, a: ApprovalItem) {
    (f.kind == "" || TypeValue(a.kind) == f.kind) && (f.status == "" || StatusValue(a.status) == f.status)
  }

  /** `filteredApprovals`: the matching items, in queue order. */
  function FilteredApprovals(items: seq<ApprovalItem>, f: ApprovalFilter): (r: seq<ApprovalItem>)
    ensures IsSubsequence(r, items)
    ensures forall a :: a in r <==> a in items && Matches(f, a)
    ensures forall a :: multiset(r)[a] == if Matches(f, a) then multiset(items)[a] else 0
  {
    var p := (a: ApprovalItem) => Matches(f, a);
    FilterIsSubsequence(items, p);
    FilterMultiplicity(items, p);
    forall a ensures a in Filter(items, p) <==> a in items && Matches(f, a) {
      FilterMembership(items, p, a);
    }
    Filter(items, p)
  }

  /** The reset button clears both filters. */
  function ResetFilters(f: ApprovalFilter): (g: ApprovalFilter)
    ensures g.kind == "" && g.status == ""
  {
    ApprovalFilter("", "")
  }

  /** After a reset the whole queue is listed again. */
  lemma ResetListsAll(items: seq<ApprovalItem>, f: ApprovalFilter)
    ensures FilteredApprovals(items, ResetFilters(f)) == items
  {
    FilterKeepsAll(items, (a: ApprovalItem) => Matches(ResetFilters(f), a));
  }

  /** A status filter that names no status lists nothing. */
  lemma UnknownStatusListsNothing(items: seq<ApprovalItem>, f: ApprovalFilter)
    requires f.status !in {"pending", "approved", "rejected", ""}
    ensures FilteredApprovals(items, f) == []
  {
    FilterDropsAll(items, (a: ApprovalItem) => Matches(f, a));
  }

  function PendingCount(items: seq<ApprovalItem>): nat {
    Count(items, (a: ApprovalItem) => a.status == Pending)
  }

  function ApprovedCount(items: seq<ApprovalItem>): nat {
    Count(items, (a: ApprovalItem) => a.status == Approved)
  }

  function RejectedCount(items: seq<ApprovalItem>): nat {
    Count(items, (a: ApprovalItem) => a.status == Rejected)
  }

  /** The three status cards add up to the size of the queue. */
  lemma CountsPartitionQueue(items: seq<ApprovalItem>)
    ensures PendingCount(items) + ApprovedCount(items) + RejectedCount(items) == |items|
  {
    CountPartition3(items, (a: ApprovalItem) => a.status == Pending,
                    (a: ApprovalItem) => a.status == Approved, (a: ApprovalItem) => a.status == Rejected);
  }

  /** Each card counts what the list shows under the matching status filter. */
  lemma PendingCardMatchesFilter(items: seq<ApprovalItem>)
    ensures PendingCount(items) == |FilteredApprovals(items, ApprovalFilter("", "pending"))|
  {
    FilterCongruent(items, (a: ApprovalItem) => Matches(ApprovalFilter("", "pending"), a),
                    (a: ApprovalItem) => a.status == Pending);
  }

  /** The action cell of a row: the two buttons, bound to the row's id, or the "処理済み" note. */
  datatype ActionCell = ApproveOrReject(id: string) | Processed

  function Actions(a: ApprovalItem): (cell: ActionCell)
    ensures cell.ApproveOrReject? <==> a.status == Pending
    ensures cell.ApproveOrReject? ==> cell.id == a.id
  {
    if a.status == Pending then ApproveOrReject(a.id) else Processed
  }

  /** A decided request can never be decided again from this screen. */
  lemma DecidedRowsOfferNothing(items: seq<ApprovalItem>, f: ApprovalFilter)
    ensures forall a :: a in FilteredApprovals(items, f) && a.status != Pending ==> Actions(a) == Processed
  {
  }
}
