/**
 * The admin detail page of one report (src/pages/admin/AdminDisasterDetail.tsx): looking the
 * report up by the id in the path, the status select, and the response form with its parsing of
 * the optional fields.
 */
module AdminDisasterDetail {
  import opened Wrappers
  import opened Types
  import opened Strings
  import ReportStore

  /**
   * `resources ? resources.split(",").map(r => r.trim()) : undefined`: no list for the empty
   * text; otherwise one entry per comma-separated piece, empty pieces kept, each free of commas
   * and of whitespace at either end.
   */
  function ParseResources(text: string): (r: Option<seq<string>>)
    ensures r.None? <==> text == []
    ensures r.Some? ==> |r.value| == Occurrences(text, ',') + 1
    ensures r.Some? ==> forall i :: 0 <= i < |r.value| ==>
      && FreeOf(r.value[i], ',')
      && (r.value[i] == [] || (!IsWhitespace(r.value[i][0]) && !IsWhitespace(r.value[i][|r.value[i]| - 1])))
    ensures r.Some? ==> |r.value| == |Split(text, ',')|
    ensures r.Some? ==> forall i :: 0 <= i < |r.value| ==> r.value[i] == Trim(Split(text, ',')[i])
  {
    if text == [] then None
    else
      var parts := Split(text, ',');
      SplitCount(text, ',');
      SplitPiecesAreFree(text, ',');
      var trimmed := seq(|parts|, i requires 0 <= i < |parts| => Trim(parts[i]));
      assert forall i :: 0 <= i < |parts| ==> FreeOf(trimmed[i], ',') by {
        forall i | 0 <= i < |parts|
          ensures FreeOf(trimmed[i], ',')
        {
          TrimIsFree(parts[i], ',');
        }
      }
      Some(trimmed)
  }

  /** Trimming keeps a piece free of a character it was free of. */
  lemma TrimIsFree(s: string, c: char)
    requires FreeOf(s, c)
    ensures FreeOf(Trim(s), c)
  {
    var lo, r := LeadingWhitespace(s), Trim(s);
    forall j | 0 <= j < |r|
      ensures r[j] != c
    {
      assert r[j] == s[lo + j];
    }
  }

  /** Each piece with some whitespace written before it and some after it. */
  function Padded(pieces: seq<string>, pre: seq<string>, post: seq<string>): (r: seq<string>)
    requires |pre| == |pieces| && |post| == |pieces|
    ensures |r| == |pieces|
    ensures forall i :: 0 <= i < |r| ==> r[i] == pre[i] + pieces[i] + post[i]
  {
    seq(|pieces|, i requires 0 <= i < |pieces| => pre[i] + pieces[i] + post[i])
  }

  /** Whitespace holds no comma, so padding keeps a comma-free piece comma-free. */
  lemma PaddedIsFree(pre: string, p: string, post: string)
    requires AllWhitespace(pre) && AllWhitespace(post) && FreeOf(p, ',')
    ensures FreeOf(pre + p + post, ',')
  {
    var s := pre + p + post;
    forall j | 0 <= j < |s|
      ensures s[j] != ','
    {
      if j < |pre| {
        assert s[j] == pre[j];
      } else if j < |pre| + |p| {
        assert s[j] == p[j - |pre|];
      } else {
        assert s[j] == post[j - |pre| - |p|];
      }
    }
  }

  /**
   * Comma-free pieces without whitespace at their ends, written out with commas and any
   * whitespace around each piece, are read back as exactly those pieces: the parsing loses
   * nothing such a list holds and drops only the padding. The one text refused is the empty one.
   */
  lemma ResourcesRoundTrip(pieces: seq<string>, pre: seq<string>, post: seq<string>)
    requires |pieces| >= 1 && |pre| == |pieces| && |post| == |pieces|
    requires forall i :: 0 <= i < |pieces| ==> AllWhitespace(pre[i]) && AllWhitespace(post[i])
    requires forall i :: 0 <= i < |pieces| ==> FreeOf(pieces[i], ',')
    requires forall i :: 0 <= i < |pieces| ==>
      pieces[i] == [] || (!IsWhitespace(pieces[i][0]) && !IsWhitespace(pieces[i][|pieces[i]| - 1]))
    requires Join(Padded(pieces, pre, post), ",") != []
    ensures ParseResources(Join(Padded(pieces, pre, post), ",")) == Some(pieces)
  {
    var q := Padded(pieces, pre, post);
    forall i | 0 <= i < |q|
      ensures FreeOf(q[i], ',') && Trim(q[i]) == pieces[i]
    {
      PaddedIsFree(pre[i], pieces[i], post[i]);
      TrimPadded(pre[i], pieces[i], post[i]);
    }
    assert [','] == ",";
    JoinSplit(q, ',');
    var r := ParseResources(Join(q, ","));
    assert r.Some? && |r.value| == |pieces|;
    assert forall i :: 0 <= i < |pieces| ==> r.value[i] == Trim(q[i]);
    assert r.value == pieces;
  }

  /** The three texts of the response form. */
  datatype Draft = Draft(message: string, actionTaken: string, resources: string)

  const EmptyDraft: Draft := Draft("", "", "")

  /** The fixed responder every response of this page is filed under. */
  const Coordinator: Responder := Responder("admin1", "Sarah Johnson", "Emergency Coordinator")

  /** The response input built from the form. */
  function ResponseOf(d: Draft): (r: ResponseInput)
    ensures r.responder == Coordinator && r.message == d.message
    ensures r.actionTaken.None? <==> d.actionTaken == []
    ensures d.actionTaken != [] ==> r.actionTaken == Some(d.actionTaken)
    ensures r.resourcesAllocated.None? <==> d.resources == []
    ensures r.resourcesAllocated.Some? ==> |r.resourcesAllocated.value| == |Split(d.resources, ',')|
    ensures r.resourcesAllocated.Some? ==> forall i :: 0 <= i < |r.resourcesAllocated.value| ==>
      r.resourcesAllocated.value[i] == Trim(Split(d.resources, ',')[i])
  {
    ResponseInput(Coordinator, d.message, OptionalText(d.actionTaken), ParseResources(d.resources))
  }

  /** What the page shows: the not-found notice, or the report with the select and the form. */
  datatype DetailView = NotFound | Found(disaster: Report, selected: Status, draft: Draft)

  /** The page opened on `id`: the first report with that id, its status selected and the form empty. */
  function Open(ds: seq<Report>, id: string): (v: DetailView)
    ensures v.NotFound? <==> forall j :: 0 <= j < |ds| ==> ds[j].id != id
    ensures v.Found? ==> v.disaster.id == id && v.disaster in ds
    ensures v.Found? ==> v.selected == v.disaster.status && v.draft == EmptyDraft
    ensures v.Found? ==> ReportStore.FindIndex(ds, id) >= 0 && v.disaster == ds[ReportStore.FindIndex(ds, id)]
  {
    match ReportStore.Find(ds, id)
    case None => NotFound
    case Some(d) => Found(d, d.status, EmptyDraft)
  }

  /** Opened on a report the list holds, the page finds it when the ids are unique. */
  lemma OpenFindsReport(ds: seq<Report>, k: nat)
    requires k < |ds|
    requires ReportStore.UniqueIds(ds)
    ensures Open(ds, ds[k].id).Found? && Open(ds, ds[k].id).disaster == ds[k]
  {
  }

  /**
   * `handleStatusChange`: the select shows the new status whatever happens next, and the store
   * updates the first report with the page's id.
   */
  method HandleStatusChange(store: ReportStore.Store, view: DetailView, newStatus: Status)
    returns (next: DetailView, updated: Option<Report>)
    requires view.Found? && store.Valid()
    modifies store
    ensures next == view.(selected := newStatus)
    ensures store.Valid()
    ensures store.reports == ReportStore.WithStatus(old(store.reports), view.disaster.id, newStatus, store.clock(old(store.clockCalls)))
    ensures updated.Some? <==> ReportStore.FindIndex(old(store.reports), view.disaster.id) >= 0
    ensures updated.Some? ==> updated.value == store.reports[ReportStore.FindIndex(old(store.reports), view.disaster.id)]
    ensures store.idCalls == old(store.idCalls)
    ensures store.clockCalls == old(store.clockCalls) + (if updated.Some? then 1 else 0)
  {
    next := view.(selected := newStatus);
    updated := store.UpdateDisasterStatus(view.disaster.id, newStatus);
  }

  /**
   * `handleAddResponse`: an empty message is refused and nothing changes; otherwise the store is
   * asked to add the response, and the form is cleared exactly when a response was created.
   */
  method HandleAddResponse(store: ReportStore.Store, view: DetailView)
    returns (next: DetailView, created: Option<Response>)
    requires view.Found? && store.Valid()
    modifies store
    ensures store.Valid()
    ensures view.draft.message == [] ==>
      && created.None?
      && store.reports == old(store.reports)
      && store.idCalls == old(store.idCalls) && store.clockCalls == old(store.clockCalls)
    ensures view.draft.message != [] && ReportStore.FindIndex(old(store.reports), view.disaster.id) < 0 ==>
      && created.None?
      && store.reports == old(store.reports)
      && store.idCalls == old(store.idCalls) && store.clockCalls == old(store.clockCalls)
    ensures view.draft.message != [] && ReportStore.FindIndex(old(store.reports), view.disaster.id) >= 0 ==>
      && created == Some(ReportStore.NewResponse(ResponseOf(view.draft), view.disaster.id,
                           store.genId(old(store.idCalls)), store.clock(old(store.clockCalls))))
      && store.reports == ReportStore.WithResponse(old(store.reports), view.disaster.id, created.value,
                            store.clock(old(store.clockCalls) + 1))
      && store.idCalls == old(store.idCalls) + 1 && store.clockCalls == old(store.clockCalls) + 2
    ensures next == if created.Some? then view.(draft := EmptyDraft) else view
  {
    if view.draft.message == [] {
      return view, None;
    }
    created := store.AddDisasterResponse(view.disaster.id, ResponseOf(view.draft));
    if created.Some? {
      next := view.(draft := EmptyDraft);
    } else {
      next := view;
    }
  }
}
