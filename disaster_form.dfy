/**
 * The public report form (src/components/disasters/DisasterForm.tsx): the required-field check
 * of `handleSubmit`, the report input it builds from the form, and the submission itself, which
 * adds the report to the store and navigates to its page.
 */
module DisasterForm {
  import opened Wrappers
  import opened Types
  import ReportStore
  import Strings

  /**
   * The form's state. The two selects start out as the empty string, modelled as `None`; every
   * other field is the text typed so far.
   */
  datatype FormData = FormData(
    title: string,
    kind: Option<DisasterType>,
    description: string,
    location: string,
    affectedArea: string,
    severity: Option<Severity>,
    reporterName: string,
    reporterContact: string,
    reporterEmail: string,
    reporterOrganization: string)

  /** The form as it is first shown: every field empty. */
  const EmptyForm: FormData := FormData("", None, "", "", "", None, "", "", "", "")

  /** Some required field is empty: title, type, description, location, severity, or the reporter's name, contact or email. */
  predicate Missing(f: FormData) {
    || f.title == [] || f.kind.None? || f.description == [] || f.location == []
    || f.severity.None? || f.reporterName == [] || f.reporterContact == [] || f.reporterEmail == []
  }

  /** `newDisaster`: the form's fields under the report's names; no coordinates, images or responses. */
  function BuildInput(f: FormData): (r: ReportInput)
    requires !Missing(f)
    ensures FormOf(r) == f
    ensures r.coordinates.None? && r.images.None? && r.responses.None?
    ensures r.reporter.organization.None? <==> f.reporterOrganization == []
  {
    ReportInput(f.kind.value, f.title, f.description, f.location, None, f.affectedArea,
                f.severity.value,
                Reporter(f.reporterName, f.reporterContact, f.reporterEmail, Strings.OptionalText(f.reporterOrganization)),
                None, None)
  }

  /** The form a report input would be typed into: the inverse of `BuildInput`. */
  function FormOf(input: ReportInput): FormData {
    FormData(input.title, Some(input.kind), input.description, input.location, input.affectedArea,
             Some(input.severity), input.reporter.name, input.reporter.contact, input.reporter.email,
             input.reporter.organization.GetOr([]))
  }

  /**
   * The check and the construction together: rejected exactly when a required field is empty,
   * and otherwise an input from which the whole form can be read back.
   */
  function Validate(f: FormData): (r: Option<ReportInput>)
    ensures r.None? <==>
      || f.title == [] || f.kind.None? || f.description == [] || f.location == []
      || f.severity.None? || f.reporterName == [] || f.reporterContact == [] || f.reporterEmail == []
    ensures r.Some? ==> FormOf(r.value) == f
    ensures r.Some? ==> r.value.coordinates.None? && r.value.images.None? && r.value.responses.None?
    ensures r.Some? ==> (r.value.reporter.organization.None? <==> f.reporterOrganization == [])
  {
    if Missing(f) then None else Some(BuildInput(f))
  }

  /** The affected area and the organization are optional: what they hold never decides rejection. */
  lemma OptionalFieldsNeverReject(f: FormData, area: string, organization: string)
    ensures Validate(f.(affectedArea := area, reporterOrganization := organization)).None? <==> Validate(f).None?
  {
  }

  /** The empty form is always rejected. */
  lemma EmptyFormRejected()
    ensures Validate(EmptyForm).None?
  {
  }

  /**
   * Every input the form can produce comes back from the form it is typed into: required text
   * present, no coordinates, images or responses, and no empty organization.
   */
  lemma FormRoundTrip(input: ReportInput)
    requires input.title != [] && input.description != [] && input.location != []
    requires input.reporter.name != [] && input.reporter.contact != [] && input.reporter.email != []
    requires input.coordinates.None? && input.images.None? && input.responses.None?
    requires input.reporter.organization != Some([])
    ensures Validate(FormOf(input)) == Some(input)
  {
  }

  /**
   * `handleSubmit`: a form with a required field empty leaves the store alone and stays on the
   * page; otherwise its input is added to the store once, and the page navigates to the new
   * report's detail path.
   */
  method HandleSubmit(store: ReportStore.Store, f: FormData) returns (navigateTo: Option<string>)
    requires store.Valid()
    modifies store
    ensures store.Valid()
    ensures Missing(f) ==>
      && navigateTo.None?
      && store.reports == old(store.reports)
      && store.idCalls == old(store.idCalls) && store.clockCalls == old(store.clockCalls)
    ensures !Missing(f) ==>
      && |store.reports| == |old(store.reports)| + 1 && store.reports[1..] == old(store.reports)
      && store.reports[0] == ReportStore.NewReport(BuildInput(f), store.genId(old(store.idCalls)),
           store.clock(old(store.clockCalls)), store.clock(old(store.clockCalls) + 1))
      && navigateTo == Some("/disasters/" + store.reports[0].id)
      && store.idCalls == old(store.idCalls) + 1 && store.clockCalls == old(store.clockCalls) + 2
  {
    var input := Validate(f);
    if input.None? {
      navigateTo := None;
      return;
    }
    var added := store.AddDisaster(input.value);
    navigateTo := Some("/disasters/" + added.id);
  }
}
