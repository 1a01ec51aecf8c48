/** The three figures of the admin dashboard (src/pages/admin/AdminDashboard.tsx). */
module AdminDashboard {
  import opened Types
  import Seqs
  import ReportStore

  /** Still being handled: neither resolved nor closed. */
  predicate IsActive(d: Report) {
    d.status != Resolved && d.status != Closed
  }

  predicate IsCritical(d: Report) {
    d.severity == Critical
  }

  datatype Stats = Stats(total: nat, active: nat, critical: nat)

  /** `totalDisasters`, `activeDisasters` and `criticalDisasters` over the store's list. */
  function DashboardStats(ds: seq<Report>): (s: Stats)
    ensures s.total == |ds|
    ensures s.active <= s.total && s.critical <= s.total
  {
    Stats(|ds|, |Seqs.Filter(ds, IsActive)|, |Seqs.Filter(ds, IsCritical)|)
  }

  /** Every report is active, resolved or closed, and only one of these. */
  lemma ActiveResolvedClosed(ds: seq<Report>)
    ensures DashboardStats(ds).active
          + |Seqs.Filter(ds, (d: Report) => d.status == Resolved)|
          + |Seqs.Filter(ds, (d: Report) => d.status == Closed)| == DashboardStats(ds).total
  {
    var finished := (d: Report) => d.status == Resolved || d.status == Closed;
    Seqs.FilterPartition(ds, IsActive, finished);
    Seqs.FilterDisjointUnion(ds, (d: Report) => d.status == Resolved, (d: Report) => d.status == Closed, finished);
  }

  /** The critical reports and the others make up the whole list, and no report is both. */
  lemma CriticalCount(ds: seq<Report>)
    ensures DashboardStats(ds).critical + |Seqs.Filter(ds, (d: Report) => d.severity != Critical)|
         == DashboardStats(ds).total
  {
    Seqs.FilterPartition(ds, IsCritical, (d: Report) => d.severity != Critical);
  }

  /** One filtering step: the head counts exactly when it passes. */
  lemma FilterStep(s: seq<Report>, p: Report -> bool)
    requires s != []
    ensures |Seqs.Filter(s, p)| == (if p(s[0]) then 1 else 0) + |Seqs.Filter(s[1..], p)|
  {
  }

  /** Four of five reports still being handled, the fourth one finished. */
  lemma FiveActive(s: seq<Report>)
    requires |s| == 5 && IsActive(s[0]) && IsActive(s[1]) && IsActive(s[2]) && !IsActive(s[3]) && IsActive(s[4])
    ensures |Seqs.Filter(s, IsActive)| == 4
  {
    assert s[1..][1..] == s[2..] && s[2..][1..] == s[3..] && s[3..][1..] == s[4..] && s[4..][1..] == [];
    FilterStep(s[4..], IsActive);
    FilterStep(s[3..], IsActive);
    FilterStep(s[2..], IsActive);
    FilterStep(s[1..], IsActive);
    FilterStep(s, IsActive);
  }

  /** Two of five reports critical, the first and the third. */
  lemma FiveCritical(s: seq<Report>)
    requires |s| == 5 && IsCritical(s[0]) && !IsCritical(s[1]) && IsCritical(s[2]) && !IsCritical(s[3]) && !IsCritical(s[4])
    ensures |Seqs.Filter(s, IsCritical)| == 2
  {
    assert s[1..][1..] == s[2..] && s[2..][1..] == s[3..] && s[3..][1..] == s[4..] && s[4..][1..] == [];
    FilterStep(s[4..], IsCritical);
    FilterStep(s[3..], IsCritical);
    FilterStep(s[2..], IsCritical);
    FilterStep(s[1..], IsCritical);
    FilterStep(s, IsCritical);
  }

  /**
   * The dashboard over the five sample reports: five in all, four still being handled (only the
   * chemical spill is resolved) and two critical (the earthquake and the wildfire).
   */
  lemma SeedStats(genId: nat -> string, clock: nat -> int)
    ensures DashboardStats(ReportStore.Seed(genId, clock)) == Stats(5, 4, 2)
  {
    var s := ReportStore.Seed(genId, clock);
    ReportStore.SeedSamples(genId, clock);
    FiveActive(s);
    FiveCritical(s);
  }
}
