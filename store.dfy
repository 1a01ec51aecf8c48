/**
 * The module-level report store of src/data/mockData.ts: the seeded `mockDisasters` array and
 * the three functions that change it in place, `addDisaster`, `updateDisasterStatus` and
 * `addDisasterResponse`.
 *
 * `generateId()` (Math.random) and `new Date()` are oracles owned by the store: `genId(k)` is
 * the value of the k-th id generation and `clock(k)` the k-th clock reading, a monotone
 * sequence of abstract millisecond timestamps. Nothing makes the generated ids unique.
 */
module ReportStore {
  import opened Wrappers
  import opened Types

  /** `findIndex(d => d.id === id)`: the first position whose report has `id`, or -1. */
  function FindIndex(rs: seq<Report>, id: string): (k: int)
    ensures -1 <= k < |rs|
    ensures k >= 0 ==> rs[k].id == id
    ensures forall j :: 0 <= j < |rs| && (k < 0 || j < k) ==> rs[j].id != id
  {
    if rs == [] then -1
    else if rs[0].id == id then 0
    else
      var k := FindIndex(rs[1..], id);
      assert forall j :: 1 <= j < |rs| ==> rs[j] == rs[1..][j - 1];
      if k < 0 then -1 else k + 1
  }

  /** No two reports of the list share an id. */
  ghost predicate UniqueIds(rs: seq<Report>) {
    forall i, j :: 0 <= i < j < |rs| ==> rs[i].id != rs[j].id
  }

  /** `find(d => d.id === id)`: the first report with `id`, or nothing when none has it. */
  function Find(rs: seq<Report>, id: string): (r: Option<Report>)
    ensures r.None? <==> forall j :: 0 <= j < |rs| ==> rs[j].id != id
    ensures r.Some? ==> r.value.id == id && r.value in rs
    ensures r.Some? ==> FindIndex(rs, id) >= 0 && r.value == rs[FindIndex(rs, id)]
  {
    var k := FindIndex(rs, id);
    if k < 0 then None else Some(rs[k])
  }

  /** Two lists whose reports carry the same ids position by position. */
  ghost predicate SameIds(a: seq<Report>, b: seq<Report>) {
    |a| == |b| && forall j :: 0 <= j < |a| ==> a[j].id == b[j].id
  }

  /** `findIndex` looks at the ids only. */
  lemma FindIndexSameIds(a: seq<Report>, b: seq<Report>, id: string)
    requires SameIds(a, b)
    ensures FindIndex(a, id) == FindIndex(b, id)
  {
    var ka, kb := FindIndex(a, id), FindIndex(b, id);
    if ka >= 0 { assert b[ka].id == id; }
    if kb >= 0 { assert a[kb].id == id; }
  }

  /** The submitted part of a report: everything but id, timestamps and status. */
  function InputOf(r: Report): ReportInput {
    ReportInput(r.kind, r.title, r.description, r.location, r.coordinates, r.affectedArea,
                r.severity, r.reporter, r.images, r.responses)
  }

  /** `{...disaster, id, reportedAt, updatedAt, status: "reported"}`. */
  function NewReport(input: ReportInput, id: string, reportedAt: int, updatedAt: int): (r: Report)
    ensures r.id == id && r.status == Reported
    ensures r.reportedAt == reportedAt && r.updatedAt == updatedAt
    ensures InputOf(r) == input
  {
    Report(id, input.kind, input.title, input.description, input.location, input.coordinates,
           input.affectedArea, input.severity, reportedAt, updatedAt, Reported, input.reporter,
           input.images, input.responses)
  }

  /** The supplied part of a response: everything but id, parent id and creation time. */
  function ResponseInputOf(r: Response): ResponseInput {
    ResponseInput(r.responder, r.message, r.actionTaken, r.resourcesAllocated)
  }

  /** `{...response, id, disasterId, createdAt}`. */
  function NewResponse(input: ResponseInput, disasterId: string, id: string, createdAt: int): (r: Response)
    ensures r.id == id && r.disasterId == disasterId && r.createdAt == createdAt
    ensures ResponseInputOf(r) == input
  {
    Response(id, disasterId, input.responder, input.message, input.actionTaken,
             input.resourcesAllocated, createdAt)
  }

  /** The list after `updateDisasterStatus(id, s)` at time `now`. */
  function WithStatus(rs: seq<Report>, id: string, s: Status, now: int): (r: seq<Report>)
    ensures |r| == |rs|
    ensures FindIndex(rs, id) < 0 ==> r == rs
    ensures forall j :: 0 <= j < |rs| && j != FindIndex(rs, id) ==> r[j] == rs[j]
    ensures FindIndex(rs, id) >= 0 ==> r[FindIndex(rs, id)] == rs[FindIndex(rs, id)].(status := s, updatedAt := now)
  {
    var k := FindIndex(rs, id);
    if k < 0 then rs else rs[k := rs[k].(status := s, updatedAt := now)]
  }

  /** The list after `addDisasterResponse(id, ...)` created `resp`, with `updatedAt` set to `now`. */
  function WithResponse(rs: seq<Report>, id: string, resp: Response, now: int): (r: seq<Report>)
    ensures |r| == |rs|
    ensures FindIndex(rs, id) < 0 ==> r == rs
    ensures forall j :: 0 <= j < |rs| && j != FindIndex(rs, id) ==> r[j] == rs[j]
    ensures FindIndex(rs, id) >= 0 ==>
      r[FindIndex(rs, id)] == rs[FindIndex(rs, id)].(responses := Some(ResponsesOf(rs[FindIndex(rs, id)]) + [resp]), updatedAt := now)
  {
    var k := FindIndex(rs, id);
    if k < 0 then rs else rs[k := rs[k].(responses := Some(ResponsesOf(rs[k]) + [resp]), updatedAt := now)]
  }

  /**
   * After a status update on a known id, looking the id up finds the updated report: its status
   * is the new one, its `updatedAt` is `now`, and nothing else about it changed.
   */
  lemma FindAfterStatusUpdate(rs: seq<Report>, id: string, s: Status, now: int)
    requires Find(rs, id).Some?
    ensures Find(WithStatus(rs, id, s, now), id) == Some(Find(rs, id).value.(status := s, updatedAt := now))
  {
    FindIndexSameIds(rs, WithStatus(rs, id, s, now), id);
  }

  /**
   * After a response is added on a known id, looking the id up finds a report whose response list
   * is the old one (empty when absent) followed by exactly the new response.
   */
  lemma FindAfterResponse(rs: seq<Report>, id: string, resp: Response, now: int)
    requires Find(rs, id).Some?
    ensures Find(WithResponse(rs, id, resp, now), id).Some?
    ensures ResponsesOf(Find(WithResponse(rs, id, resp, now), id).value) == ResponsesOf(Find(rs, id).value) + [resp]
    ensures Find(WithResponse(rs, id, resp, now), id).value.updatedAt == now
  {
    FindIndexSameIds(rs, WithResponse(rs, id, resp, now), id);
  }

  /**
   * After a prepend, the new report is what its id finds, and every other id is found one
   * position further down than before.
   */
  lemma FindIndexAfterPrepend(rs: seq<Report>, r: Report, id: string)
    ensures FindIndex([r] + rs, r.id) == 0
    ensures id != r.id ==> FindIndex([r] + rs, id) == (if FindIndex(rs, id) < 0 then -1 else FindIndex(rs, id) + 1)
  {
    assert ([r] + rs)[1..] == rs;
  }

  ghost predicate Monotone(clock: nat -> int) {
    forall i, j :: 0 <= i <= j ==> clock(i) <= clock(j)
  }

  /** Every report was updated no earlier than it was reported, and no later than `bound`. */
  ghost predicate TimesOrdered(rs: seq<Report>, bound: int) {
    forall j :: 0 <= j < |rs| ==> rs[j].reportedAt <= rs[j].updatedAt <= bound
  }

  /** Each report of `after` was updated no earlier than the same report of `before`. */
  predicate NoEarlier(before: seq<Report>, after: seq<Report>) {
    |before| == |after| && forall k :: 0 <= k < |before| ==> before[k].updatedAt <= after[k].updatedAt
  }

  /** A status update stamped no earlier than any report's `updatedAt` moves no time backwards. */
  lemma StatusUpdateNoEarlier(rs: seq<Report>, id: string, s: Status, now: int)
    requires forall k :: 0 <= k < |rs| ==> rs[k].updatedAt <= now
    ensures NoEarlier(rs, WithStatus(rs, id, s, now))
  {
  }

  /** Adding a response stamped no earlier than any report's `updatedAt` moves no time backwards. */
  lemma ResponseNoEarlier(rs: seq<Report>, id: string, resp: Response, now: int)
    requires forall k :: 0 <= k < |rs| ==> rs[k].updatedAt <= now
    ensures NoEarlier(rs, WithResponse(rs, id, resp, now))
  {
  }

  const Minute: int := 1000 * 60
  const Hour: int := 1000 * 60 * 60

  /** The five sample reports of `mockDisasters`, with ids and clock readings in evaluation order. */
  function Seed(genId: nat -> string, clock: nat -> int): (r: seq<Report>)
    ensures |r| == 5
  {
    [ NewReport(EarthquakeSample, genId(0), clock(0) - 2 * Hour, clock(1) - 30 * Minute)
        .(status := Responding,
          responses := Some([NewResponse(EarthquakeResponse, "1", genId(1), clock(2) - 45 * Minute)])),
      NewReport(FloodSample, genId(2), clock(3) - 12 * Hour, clock(4) - 3 * Hour).(status := Reviewing),
      NewReport(WildfireSample, genId(3), clock(5) - 5 * Hour, clock(6) - 1 * Hour).(status := Responding),
      NewReport(ChemicalSpillSample, genId(4), clock(7) - 8 * Hour, clock(8) - 6 * Hour)
        .(status := Resolved,
          responses := Some([NewResponse(ChemicalSpillResponse, "4", genId(5), clock(9) - 4 * Hour)])),
      NewReport(TornadoSample, genId(6), clock(10) - 30 * Minute, clock(11) - 15 * Minute) ]
  }

  /**
   * The samples, in order: the earthquake, flood, wildfire, chemical spill and tornado, with
   * generated ids 0, 2, 3, 4 and 6 (ids 1 and 5 go to the two seeded responses), their
   * statuses and their severities.
   */
  lemma SeedSamples(genId: nat -> string, clock: nat -> int)
    ensures var r := Seed(genId, clock);
      && r[0].id == genId(0) && r[1].id == genId(2) && r[2].id == genId(3)
      && r[3].id == genId(4) && r[4].id == genId(6)
      && r[0].status == Responding && r[1].status == Reviewing && r[2].status == Responding
      && r[3].status == Resolved && r[4].status == Reported
      && r[0].severity == Critical && r[1].severity == High && r[2].severity == Critical
      && r[3].severity == Medium && r[4].severity == High
  {
  }

  /** With an id generator that never repeats itself, the seeded reports have unique ids. */
  lemma SeedIdsUnique(genId: nat -> string, clock: nat -> int)
    requires forall a: nat, b: nat :: a != b ==> genId(a) != genId(b)
    ensures UniqueIds(Seed(genId, clock))
  {
    SeedSamples(genId, clock);
    FiveIdsUnique(Seed(genId, clock), genId);
  }

  /** Five reports with the generated ids 0, 2, 3, 4 and 6 of an injective generator. */
  lemma FiveIdsUnique(r: seq<Report>, genId: nat -> string)
    requires forall a: nat, b: nat :: a != b ==> genId(a) != genId(b)
    requires |r| == 5 && r[0].id == genId(0) && r[1].id == genId(2) && r[2].id == genId(3)
    requires r[3].id == genId(4) && r[4].id == genId(6)
    ensures UniqueIds(r)
  {
    var ids: seq<nat> := [0, 2, 3, 4, 6];
    assert forall i :: 0 <= i < 5 ==> r[i].id == genId(ids[i]);
  }

  const EarthquakeSample: ReportInput := ReportInput(
    Earthquake, "7.2 Magnitude Earthquake",
    "Strong earthquake causing significant building damage and infrastructure disruption.",
    "San Francisco, CA", Some(Coordinates(37.7749, -122.4194)),
    "Downtown and surrounding areas within 10-mile radius", Critical,
    Reporter("John Smith", "+1 (415) 555-1234", "john.smith@example.com", Some("City Emergency Services")),
    None, None)

  const EarthquakeResponse: ResponseInput := ResponseInput(
    Responder("admin1", "Sarah Johnson", "Emergency Coordinator"),
    "Dispatching search and rescue teams to the most affected areas.",
    Some("Deployed 5 rescue teams, set up 2 emergency shelters"),
    Some(["Medical supplies", "Emergency shelter", "Rescue teams"]))

  const FloodSample: ReportInput := ReportInput(
    Flood, "Severe Flooding on 5th Street",
    "Flash flooding after heavy rainfall. Multiple streets underwater and several homes affected.",
    "Miami, FL", Some(Coordinates(25.7617, -80.1918)),
    "5th Street and surrounding neighborhoods", High,
    Reporter("Maria Rodriguez", "+1 (305) 555-2468", "maria.r@example.com", None),
    None, None)

  const WildfireSample: ReportInput := ReportInput(
    Wildfire, "Hillside Wildfire",
    "Rapidly spreading wildfire moving towards residential areas. Immediate evacuation recommended.",
    "Los Angeles, CA", Some(Coordinates(34.0522, -118.2437)),
    "Western hills, extending 15 miles", Critical,
    Reporter("David Chen", "+1 (213) 555-3690", "d.chen@example.com", Some("Local Fire Department")),
    None, None)

  const ChemicalSpillSample: ReportInput := ReportInput(
    IndustrialAccident, "Chemical Spill at Industrial Park",
    "Hazardous chemical spill at the northern industrial complex. Air quality affected.",
    "Houston, TX", Some(Coordinates(29.7604, -95.3698)),
    "2-mile radius around North Industrial Park", Medium,
    Reporter("Robert Williams", "+1 (713) 555-7890", "r.williams@example.com", Some("Facility Management")),
    None, None)

  const ChemicalSpillResponse: ResponseInput := ResponseInput(
    Responder("admin3", "Michael Douglas", "Environmental Specialist"),
    "Containment teams have successfully contained the spill. Air quality returning to normal levels.",
    Some("Chemical neutralization and containment procedures"),
    Some(["HazMat team", "Air quality monitoring", "Decontamination equipment"]))

  const TornadoSample: ReportInput := ReportInput(
    Tornado, "Tornado Sighting",
    "Tornado spotted moving northeast. Seeking confirmation and assessment of damage.",
    "Oklahoma City, OK", Some(Coordinates(35.4676, -97.5164)),
    "Eastern suburbs", High,
    Reporter("Emily Johnson", "+1 (405) 555-1122", "emily.j@example.com", None),
    None, None)

  /** Under a monotone clock the sample reports were updated after they were reported. */
  lemma SeedTimesOrdered(genId: nat -> string, clock: nat -> int)
    requires Monotone(clock)
    ensures TimesOrdered(Seed(genId, clock), clock(12))
  {
  }

  /** The store: `mockDisasters` and the state of its two oracles. */
  class Store {
    const genId: nat -> string
    const clock: nat -> int
    var idCalls: nat
    var clockCalls: nat
    var reports: seq<Report>

    /** The clock never runs backwards, and every report's timestamps are ordered and in the past. */
    ghost predicate Valid()
      reads this
    {
      Monotone(clock) && TimesOrdered(reports, clock(clockCalls))
    }

    /** The module's initial state: the seeded reports, after 7 id generations and 12 clock readings. */
    constructor (genId: nat -> string, clock: nat -> int)
      requires Monotone(clock)
      ensures Valid()
      ensures this.genId == genId && this.clock == clock
      ensures reports == Seed(genId, clock)
      ensures idCalls == 7 && clockCalls == 12
    {
      this.genId := genId;
      this.clock := clock;
      idCalls := 7;
      clockCalls := 12;
      reports := Seed(genId, clock);
      new;
      SeedTimesOrdered(genId, clock);
    }

    /** `generateId()`. */
    method GenerateId() returns (id: string)
      modifies this`idCalls
      ensures id == genId(old(idCalls)) && idCalls == old(idCalls) + 1
    {
      id := genId(idCalls);
      idCalls := idCalls + 1;
    }

    /** `new Date()`: the next clock reading. */
    method Now() returns (t: int)
      requires Valid()
      modifies this`clockCalls
      ensures Valid()
      ensures t == clock(old(clockCalls)) && clockCalls == old(clockCalls) + 1
    {
      t := clock(clockCalls);
      clockCalls := clockCalls + 1;
    }

    /** `addDisaster`: a new report with status "reported" goes to the front of the list. */
    method AddDisaster(input: ReportInput) returns (r: Report)
      requires Valid()
      modifies this
      ensures Valid()
      ensures r == NewReport(input, genId(old(idCalls)), clock(old(clockCalls)), clock(old(clockCalls) + 1))
      ensures reports == [r] + old(reports)
      ensures idCalls == old(idCalls) + 1 && clockCalls == old(clockCalls) + 2
    {
      var id := GenerateId();
      var reportedAt := Now();
      var updatedAt := Now();
      r := NewReport(input, id, reportedAt, updatedAt);
      reports := [r] + reports;
    }

    /**
     * `updateDisasterStatus`: the first report with `id` gets the new status and a fresh `updatedAt`
     * and is returned; an unknown id changes nothing and returns null.
     */
    method UpdateDisasterStatus(id: string, status: Status) returns (res: Option<Report>)
      requires Valid()
      modifies this
      ensures Valid()
      ensures reports == WithStatus(old(reports), id, status, clock(old(clockCalls)))
      ensures NoEarlier(old(reports), reports)
      ensures FindIndex(old(reports), id) < 0 ==> res.None? && clockCalls == old(clockCalls)
      ensures FindIndex(old(reports), id) >= 0 ==>
        res == Some(reports[FindIndex(old(reports), id)]) && clockCalls == old(clockCalls) + 1
      ensures idCalls == old(idCalls)
    {
      var k := FindIndex(reports, id);
      if k >= 0 {
        var now := Now();
        reports := reports[k := reports[k].(status := status, updatedAt := now)];
        res := Some(reports[k]);
      } else {
        res := None;
      }
    }

    /**
     * `addDisasterResponse`: for a known id, builds the response, appends it to the first matching
     * report's list (creating the list if absent), refreshes that report's `updatedAt` and returns
     * the response; an unknown id changes nothing and returns null.
     */
    method AddDisasterResponse(disasterId: string, input: ResponseInput) returns (res: Option<Response>)
      requires Valid()
      modifies this
      ensures Valid()
      ensures FindIndex(old(reports), disasterId) < 0 ==>
        res.None? && reports == old(reports) && idCalls == old(idCalls) && clockCalls == old(clockCalls)
      ensures FindIndex(old(reports), disasterId) >= 0 ==>
        && res == Some(NewResponse(input, disasterId, genId(old(idCalls)), clock(old(clockCalls))))
        && reports == WithResponse(old(reports), disasterId, res.value, clock(old(clockCalls) + 1))
        && idCalls == old(idCalls) + 1 && clockCalls == old(clockCalls) + 2
      ensures NoEarlier(old(reports), reports)
    {
      var k := FindIndex(reports, disasterId);
      if k >= 0 {
        var rid := GenerateId();
        var createdAt := Now();
        var resp := NewResponse(input, disasterId, rid, createdAt);
        var updatedAt := Now();
        var target := reports[k];
        reports := reports[k := target.(responses := Some(ResponsesOf(target) + [resp]), updatedAt := updatedAt)];
        res := Some(resp);
      } else {
        res := None;
      }
    }
  }
}
