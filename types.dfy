/**
 * The entities of the disaster-report store (src/types/index.ts) and the label tables that
 * go with their enumerations (src/data/mockData.ts).
 */
module Types {
  import opened Wrappers

  /** The thirteen disaster categories. */
  datatype DisasterType =
    | Earthquake | Flood | Wildfire | Hurricane | Tornado | Tsunami | Landslide
    | Avalanche | VolcanicEruption | Drought | Epidemic | IndustrialAccident | Other

  datatype Severity = Low | Medium | High | Critical

  /** The five workflow states of a report. */
  datatype Status = Reported | Reviewing | Responding | Resolved | Closed

  /** A map position; the numbers are never computed with. */
  datatype Coordinates = Coordinates(lat: real, lng: real)

  datatype Responder = Responder(id: string, name: string, role: string)

  /** One administrative response attached to a report. Timestamps are clock readings. */
  datatype Response = Response(
    id: string,
    disasterId: string,
    responder: Responder,
    message: string,
    actionTaken: Option<string>,
    resourcesAllocated: Option<seq<string>>,
    createdAt: int)

  datatype Reporter = Reporter(name: string, contact: string, email: string, organization: Option<string>)

  /** A disaster report; `responses` is an optional key, absent until the first response. */
  datatype Report = Report(
    id: string,
    kind: DisasterType,
    title: string,
    description: string,
    location: string,
    coordinates: Option<Coordinates>,
    affectedArea: string,
    severity: Severity,
    reportedAt: int,
    updatedAt: int,
    status: Status,
    reporter: Reporter,
    images: Option<seq<string>>,
    responses: Option<seq<Response>>)

  /** `Omit<DisasterReport, "id" | "reportedAt" | "updatedAt" | "status">`: what a submitter supplies. */
  datatype ReportInput = ReportInput(
    kind: DisasterType,
    title: string,
    description: string,
    location: string,
    coordinates: Option<Coordinates>,
    affectedArea: string,
    severity: Severity,
    reporter: Reporter,
    images: Option<seq<string>>,
    responses: Option<seq<Response>>)

  /** `Omit<DisasterResponse, "id" | "disasterId" | "createdAt">`: what a responder supplies. */
  datatype ResponseInput = ResponseInput(
    responder: Responder,
    message: string,
    actionTaken: Option<string>,
    resourcesAllocated: Option<seq<string>>)

  datatype Role = UserRole | AdminRole

  datatype User = User(
    id: string,
    name: string,
    email: string,
    role: Role,
    organization: Option<string>,
    contact: Option<string>)

  /** The response list of a report, an absent list read as empty. */
  function ResponsesOf(r: Report): seq<Response> {
    r.responses.GetOr([])
  }

  /** `disasterTypes[t].label`. */
  function TypeLabel(t: DisasterType): string {
    match t
    case Earthquake => "Earthquake"
    case Flood => "Flood"
    case Wildfire => "Wildfire"
    case Hurricane => "Hurricane"
    case Tornado => "Tornado"
    case Tsunami => "Tsunami"
    case Landslide => "Landslide"
    case Avalanche => "Avalanche"
    case VolcanicEruption => "Volcanic Eruption"
    case Drought => "Drought"
    case Epidemic => "Epidemic"
    case IndustrialAccident => "Industrial Accident"
    case Other => "Other"
  }

  /** `severityLevels[s].label`. */
  function SeverityLabel(s: Severity): string {
    match s
    case Low => "Low"
    case Medium => "Medium"
    case High => "High"
    case Critical => "Critical"
  }

  /** `statusTypes[s].label`. */
  function StatusLabel(s: Status): string {
    match s
    case Reported => "Reported"
    case Reviewing => "Reviewing"
    case Responding => "Responding"
    case Resolved => "Resolved"
    case Closed => "Closed"
  }

  /** Reads a status back from its label: the inverse of `StatusLabel`. */
  function StatusFromLabel(l: string): Option<Status> {
    if l == "Reported" then Some(Reported)
    else if l == "Reviewing" then Some(Reviewing)
    else if l == "Responding" then Some(Responding)
    else if l == "Resolved" then Some(Resolved)
    else if l == "Closed" then Some(Closed)
    else None
  }

  lemma StatusLabelRoundTrip(s: Status)
    ensures StatusFromLabel(StatusLabel(s)) == Some(s)
  {
  }
}
