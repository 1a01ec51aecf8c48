/**
 * The public list page (src/pages/DisastersPage.tsx): a free-text search combined with a type
 * filter and a severity filter, each of which has an "all" setting.
 */
module DisastersPage {
  import opened Types
  import opened Strings
  import Seqs

  datatype TypeFilter = AllTypes | OfType(kind: DisasterType)
  datatype SeverityFilter = AllSeverities | OfSeverity(severity: Severity)

  /** The page's three filter inputs. */
  datatype FilterState = FilterState(searchTerm: string, typeFilter: TypeFilter, severityFilter: SeverityFilter)

  /** The search part: an empty term, or the lower-cased term inside the lower-cased title, location or description. */
  predicate MatchesSearch(term: string, d: Report) {
    || term == ""
    || Contains(Lower(d.title), Lower(term))
    || Contains(Lower(d.location), Lower(term))
    || Contains(Lower(d.description), Lower(term))
  }

  predicate MatchesType(f: TypeFilter, d: Report) {
    f.AllTypes? || d.kind == f.kind
  }

  predicate MatchesSeverity(f: SeverityFilter, d: Report) {
    f.AllSeverities? || d.severity == f.severity
  }

  /** The callback given to `filter`: all three parts must hold. */
  predicate Keeps(f: FilterState, d: Report) {
    MatchesSearch(f.searchTerm, d) && MatchesType(f.typeFilter, d) && MatchesSeverity(f.severityFilter, d)
  }

  /** `filteredDisasters`. */
  function Filtered(ds: seq<Report>, f: FilterState): (r: seq<Report>)
    ensures |r| <= |ds|
    ensures forall i :: 0 <= i < |r| ==> r[i] in ds && Keeps(f, r[i])
    ensures forall i :: 0 <= i < |ds| && Keeps(f, ds[i]) ==> ds[i] in r
  {
    Seqs.Filter(ds, d => Keeps(f, d))
  }

  /** The filtered list is the page's list with some reports deleted, the rest in their order. */
  lemma FilteredIsSubsequence(ds: seq<Report>, f: FilterState)
    ensures Seqs.IsSubsequence(Filtered(ds, f), ds)
  {
    Seqs.FilterIsSubsequence(ds, d => Keeps(f, d));
  }

  /** A report of the list is shown exactly when it passes search, type and severity. */
  lemma FilteredMembership(ds: seq<Report>, f: FilterState, d: Report)
    requires d in ds
    ensures d in Filtered(ds, f) <==> MatchesSearch(f.searchTerm, d) && MatchesType(f.typeFilter, d) && MatchesSeverity(f.severityFilter, d)
  {
    var r := Filtered(ds, f);
    if d in r {
      var i :| 0 <= i < |r| && r[i] == d;
    }
  }

  /**
   * Whatever the term, the search is substring search: the empty term is part of every string,
   * so the explicit `searchTerm === ""` test changes nothing.
   */
  lemma SearchIsSubstring(term: string, d: Report)
    ensures MatchesSearch(term, d) <==>
      || Contains(Lower(d.title), Lower(term))
      || Contains(Lower(d.location), Lower(term))
      || Contains(Lower(d.description), Lower(term))
  {
    if term == "" {
      ContainsEmpty(d.title);
    }
  }

  /** A concrete type filter keeps exactly the reports of that type; likewise for severity. */
  lemma ConcreteFilters(d: Report, t: DisasterType, s: Severity)
    ensures MatchesType(OfType(t), d) <==> d.kind == t
    ensures MatchesSeverity(OfSeverity(s), d) <==> d.severity == s
    ensures MatchesType(AllTypes, d) && MatchesSeverity(AllSeverities, d)
  {
  }

  /** `resetFilters`: the three inputs after the reset, which keep every report. */
  function ResetFilters(): (f: FilterState)
    ensures f.searchTerm == [] && f.typeFilter.AllTypes? && f.severityFilter.AllSeverities?
    ensures forall d :: Keeps(f, d)
  {
    FilterState("", AllTypes, AllSeverities)
  }

  /** After a reset the page shows its whole list. */
  lemma ResetShowsAll(ds: seq<Report>)
    ensures Filtered(ds, ResetFilters()) == ds
  {
    Seqs.FilterKeepsAll(ds, d => Keeps(ResetFilters(), d));
  }

  /**
   * A severity filter together with a search gives what the search alone shows, filtered again
   * by severity alone: the intersection of the two single-filter results, in list order.
   */
  lemma SearchAndSeverity(ds: seq<Report>, term: string, s: SeverityFilter)
    ensures Filtered(ds, FilterState(term, AllTypes, s))
         == Filtered(Filtered(ds, FilterState(term, AllTypes, AllSeverities)), FilterState("", AllTypes, s))
  {
    Seqs.FilterConjunction(ds, d => Keeps(FilterState(term, AllTypes, AllSeverities), d),
                           d => Keeps(FilterState("", AllTypes, s), d),
                           d => Keeps(FilterState(term, AllTypes, s), d));
  }
}
