/**
 * The admin report table (src/components/admin/DisasterTable.tsx): a search that also looks at
 * the type label, the status change that goes through the store and patches the table's own
 * copy of the list, and the export of what the search shows.
 */
module DisasterTable {
  import opened Wrappers
  import opened Types
  import opened Strings
  import ReportStore
  import Seqs
  import DisastersPage
  import Export
  import Csv

  /** The lower-cased term occurs in the title, location, type label or description. */
  predicate Matches(term: string, d: Report) {
    var t := Lower(term);
    || Contains(Lower(d.title), t)
    || Contains(Lower(d.location), t)
    || Contains(Lower(TypeLabel(d.kind)), t)
    || Contains(Lower(d.description), t)
  }

  /** `filteredDisasters` of the table. */
  function Search(ds: seq<Report>, term: string): (r: seq<Report>)
    ensures |r| <= |ds|
    ensures forall i :: 0 <= i < |r| ==> r[i] in ds && Matches(term, r[i])
    ensures forall i :: 0 <= i < |ds| && Matches(term, ds[i]) ==> ds[i] in r
  {
    Seqs.Filter(ds, d => Matches(term, d))
  }

  lemma SearchIsSubsequence(ds: seq<Report>, term: string)
    ensures Seqs.IsSubsequence(Search(ds, term), ds)
  {
    Seqs.FilterIsSubsequence(ds, d => Matches(term, d));
  }

  /** A report of the table is shown exactly when it matches the term. */
  lemma SearchMembership(ds: seq<Report>, term: string, d: Report)
    requires d in ds
    ensures d in Search(ds, term) <==> Matches(term, d)
  {
    var r := Search(ds, term);
    if d in r {
      var i :| 0 <= i < |r| && r[i] == d;
    }
  }

  /** The empty term is part of every string, so it keeps the whole table. */
  lemma EmptyTermKeepsAll(ds: seq<Report>)
    ensures Search(ds, "") == ds
  {
    forall d | d in ds
      ensures Matches("", d)
    {
      ContainsEmpty(d.title);
    }
    Seqs.FilterKeepsAll(ds, d => Matches("", d));
  }

  /** Whatever the public list page's search shows, the table's search shows as well. */
  lemma PageSearchImpliesTableSearch(term: string, d: Report)
    requires DisastersPage.MatchesSearch(term, d)
    ensures Matches(term, d)
  {
    if term == "" {
      ContainsEmpty(d.title);
    }
  }

  /** `prev.map(d => d.id === id ? updated : d)`: every entry carrying `id` becomes `updated`. */
  function ReplaceById(ds: seq<Report>, id: string, updated: Report): (r: seq<Report>)
    ensures |r| == |ds|
    ensures forall j :: 0 <= j < |ds| && ds[j].id != id ==> r[j] == ds[j]
    ensures forall j :: 0 <= j < |ds| && ds[j].id == id ==> r[j] == updated
    decreases |ds|
  {
    if ds == [] then []
    else
      var rest := ReplaceById(ds[1..], id, updated);
      assert forall j :: 1 <= j < |ds| ==> ds[j] == ds[1..][j - 1];
      [if ds[0].id == id then updated else ds[0]] + rest
  }

  /**
   * When the table's copy is the store's list and ids are unique, patching the copy with the
   * report the store returned gives exactly the store's new list.
   */
  lemma ReplaceAgreesWithStore(ds: seq<Report>, id: string, s: Status, now: int)
    requires ReportStore.UniqueIds(ds) && ReportStore.FindIndex(ds, id) >= 0
    ensures var after := ReportStore.WithStatus(ds, id, s, now);
            ReplaceById(ds, id, after[ReportStore.FindIndex(ds, id)]) == after
  {
  }

  /**
   * `handleStatusChange(id, s)`: the store updates its first report with `id`; when it returns
   * the updated report, the table's copy has every entry with `id` replaced by it, otherwise the
   * copy stays as it was.
   */
  method HandleStatusChange(store: ReportStore.Store, local: seq<Report>, id: string, newStatus: Status)
    returns (next: seq<Report>)
    requires store.Valid()
    modifies store
    ensures store.Valid()
    ensures store.reports == ReportStore.WithStatus(old(store.reports), id, newStatus, store.clock(old(store.clockCalls)))
    ensures store.idCalls == old(store.idCalls)
    ensures store.clockCalls == old(store.clockCalls) + (if ReportStore.FindIndex(old(store.reports), id) >= 0 then 1 else 0)
    ensures ReportStore.FindIndex(old(store.reports), id) < 0 ==> next == local
    ensures ReportStore.FindIndex(old(store.reports), id) >= 0 ==>
      next == ReplaceById(local, id, store.reports[ReportStore.FindIndex(old(store.reports), id)])
  {
    var updated := store.UpdateDisasterStatus(id, newStatus);
    if updated.Some? {
      next := ReplaceById(local, id, updated.value);
    } else {
      next := local;
    }
  }

  /**
   * The table exports the rows its search currently shows with the exporter as written; as long
   * as the table's rows are readable, the file reads back as the header and one record per
   * shown report, in table order, carrying its id, title, location and status.
   */
  function ExportCsv(ds: seq<Report>, term: string, formatTime: int -> string): (r: string)
    ensures (forall d :: d in ds ==> Export.ReadableAsWritten(d, formatTime)) ==>
              Csv.ReadCsv(r).Some? && Export.KeepsText(Csv.ReadCsv(r).value, Search(ds, term))
  {
    ExportKeepsText(ds, term, formatTime);
    Export.CsvContent(Search(ds, term), formatTime)
  }

  lemma ExportKeepsText(ds: seq<Report>, term: string, formatTime: int -> string)
    ensures var out := Export.CsvContent(Search(ds, term), formatTime);
      (forall d :: d in ds ==> Export.ReadableAsWritten(d, formatTime)) ==>
        Csv.ReadCsv(out).Some? && Export.KeepsText(Csv.ReadCsv(out).value, Search(ds, term))
  {
    if forall d :: d in ds ==> Export.ReadableAsWritten(d, formatTime) {
      Export.CsvAsWrittenKeepsText(Search(ds, term), formatTime);
    }
  }

  /**
   * When no shown cell that the exporter leaves bare holds a comma, quote or line break, the
   * export reads back as the header and exactly the searched reports' values, in table order.
   */
  lemma ExportIsOfSearch(ds: seq<Report>, term: string, formatTime: int -> string)
    requires forall d :: d in ds ==> Export.BareCellsAreBare(d, formatTime)
    ensures Csv.ReadCsv(ExportCsv(ds, term, formatTime)) == Some(Export.ExpectedRecords(Search(ds, term), formatTime))
  {
    Export.CsvRoundTrip(Search(ds, term), formatTime);
  }
}
