/** The data side of the admin actions page (src/pages/admin/AdminActions.tsx). */
module AdminActions {
  import opened Wrappers
  import opened Types
  import ReportStore
  import Seqs

  /** `getDisastersByStatus(s)`: the reports with status `s`, in store order. */
  function ByStatus(ds: seq<Report>, s: Status): (r: seq<Report>)
    ensures forall i :: 0 <= i < |r| ==> r[i] in ds && r[i].status == s
    ensures forall i :: 0 <= i < |ds| && ds[i].status == s ==> ds[i] in r
  {
    Seqs.Filter(ds, (d: Report) => d.status == s)
  }

  lemma ByStatusIsSubsequence(ds: seq<Report>, s: Status)
    ensures Seqs.IsSubsequence(ByStatus(ds, s), ds)
  {
    Seqs.FilterIsSubsequence(ds, (d: Report) => d.status == s);
  }

  /** The five per-status counts the page shows add up to the number of reports. */
  lemma {:induction false} StatusCountsAddUp(ds: seq<Report>)
    ensures |ByStatus(ds, Reported)| + |ByStatus(ds, Reviewing)| + |ByStatus(ds, Responding)|
          + |ByStatus(ds, Resolved)| + |ByStatus(ds, Closed)| == |ds|
    decreases |ds|
  {
    if ds != [] {
      StatusCountsAddUp(ds[1..]);
    }
  }

  /**
   * The data `handleExport(format, status)` hands to the exporter: the whole store without a
   * status, only the reports with that status otherwise.
   */
  function ExportSelection(ds: seq<Report>, status: Option<Status>): (r: seq<Report>)
    ensures status.None? ==> r == ds
    ensures status.Some? ==> forall i :: 0 <= i < |r| ==> r[i] in ds && r[i].status == status.value
    ensures status.Some? ==> forall i :: 0 <= i < |ds| && ds[i].status == status.value ==> ds[i] in r
    ensures status.Some? ==> |r| == |ByStatus(ds, status.value)|
  {
    if status.Some? then ByStatus(ds, status.value) else ds
  }

  /** `handleBatchAction` only shows a message: the store is left exactly as it was. */
  method HandleBatchAction(store: ReportStore.Store, action: string, status: Status)
    requires store.Valid()
    ensures store.reports == old(store.reports)
    ensures store.idCalls == old(store.idCalls) && store.clockCalls == old(store.clockCalls)
  {
  }
}
