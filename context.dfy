/**
 * The React-state variant of the store (src/context/DisasterContext.tsx): the list is never
 * changed in place; `addDisaster` and `updateDisaster` compute the next list from the current one.
 * The id generator and the clock reading are parameters.
 */
module DisasterContext {
  import opened Wrappers
  import opened Types
  import ReportStore

  /**
   * `addDisaster(data)` at time `now` with generated id `id`: the new report and the next list.
   * Unlike the module-level store, one clock reading serves both timestamps, and the response
   * list starts out present and empty whatever `data` says.
   */
  function AddDisaster(ds: seq<Report>, data: ReportInput, id: string, now: int): (res: (Report, seq<Report>))
    ensures var (r, next) := res;
      && r.id == id && r.status == Reported
      && r.reportedAt == now && r.updatedAt == now
      && r.responses == Some([])
      && ReportStore.InputOf(r) == data.(responses := Some([]))
    ensures var (r, next) := res;
      && |next| == |ds| + 1 && next[0] == r
      && forall j :: 0 <= j < |ds| ==> next[j + 1] == ds[j]
  {
    var r := ReportStore.NewReport(data.(responses := Some([])), id, now, now);
    (r, [r] + ds)
  }

  /** `Partial<DisasterReport>`: every key may be absent (`None`). */
  datatype PartialReport = PartialReport(
    id: Option<string>,
    kind: Option<DisasterType>,
    title: Option<string>,
    description: Option<string>,
    location: Option<string>,
    coordinates: Option<Option<Coordinates>>,
    affectedArea: Option<string>,
    severity: Option<Severity>,
    reportedAt: Option<int>,
    updatedAt: Option<int>,
    status: Option<Status>,
    reporter: Option<Reporter>,
    images: Option<Option<seq<string>>>,
    responses: Option<Option<seq<Response>>>)

  /** The update with no key at all. */
  const NoChange: PartialReport :=
    PartialReport(None, None, None, None, None, None, None, None, None, None, None, None, None, None)

  /**
   * `{...d, ...p, updatedAt: now}`: every key the update has wins, every key it lacks keeps the
   * report's value, and `updatedAt` is `now` whatever the update says.
   */
  function Merge(d: Report, p: PartialReport, now: int): (r: Report)
    ensures r.updatedAt == now
    ensures (p.id.Some? ==> r.id == p.id.value) && (p.id.None? ==> r.id == d.id)
    ensures (p.kind.Some? ==> r.kind == p.kind.value) && (p.kind.None? ==> r.kind == d.kind)
    ensures (p.title.Some? ==> r.title == p.title.value) && (p.title.None? ==> r.title == d.title)
    ensures (p.description.Some? ==> r.description == p.description.value) && (p.description.None? ==> r.description == d.description)
    ensures (p.location.Some? ==> r.location == p.location.value) && (p.location.None? ==> r.location == d.location)
    ensures (p.coordinates.Some? ==> r.coordinates == p.coordinates.value) && (p.coordinates.None? ==> r.coordinates == d.coordinates)
    ensures (p.affectedArea.Some? ==> r.affectedArea == p.affectedArea.value) && (p.affectedArea.None? ==> r.affectedArea == d.affectedArea)
    ensures (p.severity.Some? ==> r.severity == p.severity.value) && (p.severity.None? ==> r.severity == d.severity)
    ensures (p.reportedAt.Some? ==> r.reportedAt == p.reportedAt.value) && (p.reportedAt.None? ==> r.reportedAt == d.reportedAt)
    ensures (p.status.Some? ==> r.status == p.status.value) && (p.status.None? ==> r.status == d.status)
    ensures (p.reporter.Some? ==> r.reporter == p.reporter.value) && (p.reporter.None? ==> r.reporter == d.reporter)
    ensures (p.images.Some? ==> r.images == p.images.value) && (p.images.None? ==> r.images == d.images)
    ensures (p.responses.Some? ==> r.responses == p.responses.value) && (p.responses.None? ==> r.responses == d.responses)
  {
    Report(p.id.GetOr(d.id), p.kind.GetOr(d.kind), p.title.GetOr(d.title),
           p.description.GetOr(d.description), p.location.GetOr(d.location),
           p.coordinates.GetOr(d.coordinates), p.affectedArea.GetOr(d.affectedArea),
           p.severity.GetOr(d.severity), p.reportedAt.GetOr(d.reportedAt), now,
           p.status.GetOr(d.status), p.reporter.GetOr(d.reporter), p.images.GetOr(d.images),
           p.responses.GetOr(d.responses))
  }

  /** Spreading `q` after `p`: the keys of `q` win over those of `p`. */
  function Then(p: PartialReport, q: PartialReport): PartialReport {
    PartialReport(Or(q.id, p.id), Or(q.kind, p.kind), Or(q.title, p.title),
                  Or(q.description, p.description), Or(q.location, p.location),
                  Or(q.coordinates, p.coordinates), Or(q.affectedArea, p.affectedArea),
                  Or(q.severity, p.severity), Or(q.reportedAt, p.reportedAt),
                  Or(q.updatedAt, p.updatedAt), Or(q.status, p.status),
                  Or(q.reporter, p.reporter), Or(q.images, p.images), Or(q.responses, p.responses))
  }

  function Or<T>(a: Option<T>, b: Option<T>): Option<T> {
    if a.Some? then a else b
  }

  /** Merging nothing only refreshes `updatedAt`. */
  lemma MergeNoChange(d: Report, now: int)
    ensures Merge(d, NoChange, now) == d.(updatedAt := now)
  {
  }

  /** A supplied `updatedAt` is overwritten: it never reaches the result. */
  lemma MergeIgnoresUpdatedAt(d: Report, p: PartialReport, t: Option<int>, now: int)
    ensures Merge(d, p.(updatedAt := t), now) == Merge(d, p, now)
  {
  }

  /** Applying the same update twice at the same time is applying it once. */
  lemma MergeIdempotent(d: Report, p: PartialReport, now: int)
    ensures Merge(Merge(d, p, now), p, now) == Merge(d, p, now)
  {
  }

  /** Two successive updates are one update with the later keys winning, stamped with the later time. */
  lemma MergeThen(d: Report, p: PartialReport, q: PartialReport, t1: int, t2: int)
    ensures Merge(Merge(d, p, t1), q, t2) == Merge(d, Then(p, q), t2)
  {
  }

  /**
   * `updateDisaster(id, p)` at time `now`: `ds.map(d => d.id === id ? {...d, ...p, updatedAt} : d)`.
   * Every report carrying `id` is merged, not only the first.
   */
  function UpdateDisaster(ds: seq<Report>, id: string, p: PartialReport, now: int): (r: seq<Report>)
    ensures |r| == |ds|
    ensures forall j :: 0 <= j < |ds| && ds[j].id != id ==> r[j] == ds[j]
    ensures forall j :: 0 <= j < |ds| && ds[j].id == id ==> r[j] == Merge(ds[j], p, now)
    decreases |ds|
  {
    if ds == [] then []
    else
      var rest := UpdateDisaster(ds[1..], id, p, now);
      assert forall j :: 1 <= j < |ds| ==> ds[j] == ds[1..][j - 1];
      [if ds[0].id == id then Merge(ds[0], p, now) else ds[0]] + rest
  }

  /** An id that no report carries leaves the list as it was. */
  lemma UpdateUnknownId(ds: seq<Report>, id: string, p: PartialReport, now: int)
    requires forall j :: 0 <= j < |ds| ==> ds[j].id != id
    ensures UpdateDisaster(ds, id, p, now) == ds
  {
  }

  /** An update that does not supply an id keeps every report's id where it was. */
  lemma UpdateKeepsIds(ds: seq<Report>, id: string, p: PartialReport, now: int)
    requires p.id.None?
    ensures ReportStore.SameIds(UpdateDisaster(ds, id, p, now), ds)
  {
  }

  /** Looking the id up after the update finds the merge of what it found before. */
  lemma FindAfterUpdate(ds: seq<Report>, id: string, p: PartialReport, now: int)
    requires p.id.None? && ReportStore.Find(ds, id).Some?
    ensures ReportStore.Find(UpdateDisaster(ds, id, p, now), id) == Some(Merge(ReportStore.Find(ds, id).value, p, now))
  {
    UpdateKeepsIds(ds, id, p, now);
    ReportStore.FindIndexSameIds(UpdateDisaster(ds, id, p, now), ds, id);
  }
}
