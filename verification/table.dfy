/** The dashboard's survey table (survey-table.component.ts): how a status
    is shown, and the events its buttons raise. */
module SurveyTable {
  import SurveyForm

  /** `getStatusBadgeClass(status)`. */
  function GetStatusBadgeClass(status: string): (r: string)
    ensures r != []
    ensures status == "PUBLISHED" ==> r == "bg-success"
    ensures status == "DRAFT" ==> r == "bg-warning text-dark"
    ensures r == "bg-secondary" <==> status != "PUBLISHED" && status != "DRAFT"
  {
    if status == "PUBLISHED" then "bg-success"
    else if status == "DRAFT" then "bg-warning text-dark"
    else if status == "CLOSED" then "bg-secondary"
    else "bg-secondary"
  }

  /** `getStatusLabel(status)`. */
  function GetStatusLabel(status: string): (r: string)
    ensures r == status <==> status !in ["PUBLISHED", "DRAFT", "CLOSED"]
  {
    if status == "PUBLISHED" then "Publicada"
    else if status == "DRAFT" then "Borrador"
    else if status == "CLOSED" then "Cerrada"
    else status
  }

  /** Two statuses share a badge exactly when they are the same status or
      neither is published or draft: of the editor's status choices, only
      closed surveys share the grey badge with unrecognised statuses. */
  lemma BadgeClasses(a: string, b: string)
    ensures GetStatusBadgeClass(a) == GetStatusBadgeClass(b) <==>
      a == b || (a !in ["PUBLISHED", "DRAFT"] && b !in ["PUBLISHED", "DRAFT"])
    ensures forall k :: 0 <= k < |SurveyForm.StatusOptions| ==>
      (GetStatusBadgeClass(SurveyForm.StatusOptions[k].0) == "bg-secondary" <==> SurveyForm.StatusOptions[k].0 == "CLOSED")
  {
  }

  /** The table labels a status exactly as the editor's status choices do;
      the three labels differ, none is itself a status, and any other
      status is shown as it is. */
  lemma StatusLabels(status: string)
    ensures forall k :: 0 <= k < |SurveyForm.StatusOptions| ==>
      GetStatusLabel(SurveyForm.StatusOptions[k].0) == SurveyForm.StatusOptions[k].1
    ensures forall i, j :: 0 <= i < j < |SurveyForm.StatusOptions| ==>
      GetStatusLabel(SurveyForm.StatusOptions[i].0) != GetStatusLabel(SurveyForm.StatusOptions[j].0)
    ensures status !in ["PUBLISHED", "DRAFT", "CLOSED"] ==> GetStatusLabel(status) == status
    ensures status in ["PUBLISHED", "DRAFT", "CLOSED"] ==> GetStatusLabel(status) !in ["PUBLISHED", "DRAFT", "CLOSED"]
  {
  }

  // ---------------------------------------------------------------------------
  // Outputs
  // ---------------------------------------------------------------------------

  /** A click the table reports to its parent. */
  datatype Click =
    | EditClick(id: int)
    | CopyLinkClick(id: int)
    | ResultsClick(id: int)
    | DeleteClick(id: int)
    | CreateClick
    | ReloadClick

  /** What each `@Output` has emitted so far: the ids, or the number of
      emissions for the two without a value. */
  datatype Outputs = Outputs(
    editSurvey: seq<int>,
    copyPublicLink: seq<int>,
    viewResults: seq<int>,
    deleteSurvey: seq<int>,
    createNewSurvey: nat,
    reloadSurveys: nat)

  /** The `on*` handlers: each emits on its own output, with the id given. */
  function Handle(o: Outputs, c: Click): (r: Outputs)
    ensures c.EditClick? ==> r == o.(editSurvey := o.editSurvey + [c.id])
    ensures c.CopyLinkClick? ==> r == o.(copyPublicLink := o.copyPublicLink + [c.id])
    ensures c.ResultsClick? ==> r == o.(viewResults := o.viewResults + [c.id])
    ensures c.DeleteClick? ==> r == o.(deleteSurvey := o.deleteSurvey + [c.id])
    ensures c.CreateClick? ==> r == o.(createNewSurvey := o.createNewSurvey + 1)
    ensures c.ReloadClick? ==> r == o.(reloadSurveys := o.reloadSurveys + 1)
  {
    match c
    case EditClick(id) => o.(editSurvey := o.editSurvey + [id])
    case CopyLinkClick(id) => o.(copyPublicLink := o.copyPublicLink + [id])
    case ResultsClick(id) => o.(viewResults := o.viewResults + [id])
    case DeleteClick(id) => o.(deleteSurvey := o.deleteSurvey + [id])
    case CreateClick => o.(createNewSurvey := o.createNewSurvey + 1)
    case ReloadClick => o.(reloadSurveys := o.reloadSurveys + 1)
  }

  function HandleAll(o: Outputs, clicks: seq<Click>): Outputs
    decreases |clicks|
  {
    if clicks == [] then o else HandleAll(Handle(o, clicks[0]), clicks[1..])
  }

  /** The ids of the delete clicks, in click order. */
  function DeleteIds(clicks: seq<Click>): seq<int> {
    if clicks == [] then []
    else (if clicks[0].DeleteClick? then [clicks[0].id] else []) + DeleteIds(clicks[1..])
  }

  /** The ids of the edit clicks, in click order. */
  function EditIds(clicks: seq<Click>): seq<int> {
    if clicks == [] then []
    else (if clicks[0].EditClick? then [clicks[0].id] else []) + EditIds(clicks[1..])
  }

  /** After any clicks, the delete and edit outputs carry exactly the ids of
      the delete and edit clicks, in order, and nothing is lost or moved to
      another output. */
  lemma {:induction false} OutputsFollowClicks(o: Outputs, clicks: seq<Click>)
    ensures HandleAll(o, clicks).deleteSurvey == o.deleteSurvey + DeleteIds(clicks)
    ensures HandleAll(o, clicks).editSurvey == o.editSurvey + EditIds(clicks)
    decreases |clicks|
  {
    if clicks != [] {
      var o' := Handle(o, clicks[0]);
      OutputsFollowClicks(o', clicks[1..]);
      assert o.deleteSurvey + DeleteIds(clicks)
        == o.deleteSurvey + (if clicks[0].DeleteClick? then [clicks[0].id] else []) + DeleteIds(clicks[1..]);
      assert o.editSurvey + EditIds(clicks)
        == o.editSurvey + (if clicks[0].EditClick? then [clicks[0].id] else []) + EditIds(clicks[1..]);
    }
  }
}
