/** The survey editor of survey-form.component.ts: the draft being edited,
    its list of questions and each question's list of options, the checks
    made before adding a question or saving, the request sent on save, and
    the "unsaved changes" flag. */
module SurveyForm {
  import opened Wrappers
  import opened Seqs
  import opened Text
  import opened Models
  import Json
  import SurveyPublic
  import SurveyResultsViews

  // ---------------------------------------------------------------------------
  // State
  // ---------------------------------------------------------------------------

  /** A question as the editor holds it: options as a list, plus the inline
      editing flag and the text box for the next option. */
  datatype EditorQuestion = EditorQuestion(
    id: Option<int>,
    title: string,
    questionType: string,
    options: seq<string>,
    order: int,
    required: bool,
    isEditing: bool,
    tempOption: string)

  /** The survey being edited. */
  datatype Draft = Draft(
    id: Option<int>,
    title: string,
    description: string,
    status: string,
    expiresAt: string,
    questions: seq<EditorQuestion>)

  /** The part of the draft that counts as a change: everything but its id.
      The component compares `JSON.stringify` texts of this record; here two
      snapshots are compared as values. */
  datatype Snapshot = Snapshot(
    title: string,
    description: string,
    status: string,
    expiresAt: string,
    questions: seq<EditorQuestion>)

  function SnapshotOf(d: Draft): Snapshot {
    Snapshot(d.title, d.description, d.status, d.expiresAt, d.questions)
  }

  /** The component's fields. `initial` is `None` until the first capture
      (the component then holds the empty string, which no snapshot equals). */
  datatype Editor = Editor(
    survey: Draft,
    isEditMode: bool,
    surveyId: Option<int>,
    initial: Option<Snapshot>,
    hasUnsavedChanges: bool,
    newQuestion: EditorQuestion,
    newQuestionOptionInput: string)

  /** The status choices of the editor, with the labels it shows. */
  const StatusOptions: seq<(string, string)> := [("DRAFT", "Borrador"), ("PUBLISHED", "Publicada"), ("CLOSED", "Cerrada")]

  /** The type choices of the editor, with the labels it shows. */
  const QuestionTypes: seq<(string, string)> := [
    (TEXT, "Texto Corto"), (TEXTAREA, "Texto Largo"), (RADIO, "Opción Única (Radio)"),
    (CHECKBOX, "Opción Múltiple (Checkbox)"), (SELECT, "Lista Desplegable (Select)")]

  /** `choices.find(c => c.value === t)`, keeping only the label. */
  function FindLabel(choices: seq<(string, string)>, t: string): (r: Option<string>)
    ensures r.None? <==> forall k :: 0 <= k < |choices| ==> choices[k].0 != t
    ensures r.Some? ==> (t, r.value) in choices
  {
    if choices == [] then None
    else if choices[0].0 == t then Some(choices[0].1)
    else
      assert forall k :: 1 <= k < |choices| ==> choices[k] == choices[1..][k - 1];
      FindLabel(choices[1..], t)
  }

  /** The editor's `getQuestionTypeLabel(type)`: the label of its choice for
      the type, the type itself when there is none. */
  function EditorTypeLabel(questionType: string): string {
    FindLabel(QuestionTypes, questionType).GetOr(questionType)
  }

  /** The editor labels every listed type with its own label and anything
      else as itself. */
  lemma EditorTypeLabels(questionType: string)
    ensures forall k :: 0 <= k < |QuestionTypes| ==> EditorTypeLabel(QuestionTypes[k].0) == QuestionTypes[k].1
    ensures questionType !in SurveyResultsViews.KnownTypes ==> EditorTypeLabel(questionType) == questionType
  {
    forall k | 0 <= k < |QuestionTypes| ensures EditorTypeLabel(QuestionTypes[k].0) == QuestionTypes[k].1 {
      ListedLabel(k);
    }
    if questionType !in SurveyResultsViews.KnownTypes {
      UnlistedLabel(questionType);
    }
  }

  /** A type the choices do not list is shown as itself. */
  lemma UnlistedLabel(questionType: string)
    requires questionType !in SurveyResultsViews.KnownTypes
    ensures EditorTypeLabel(questionType) == questionType
  {
    forall k | 0 <= k < |QuestionTypes| ensures QuestionTypes[k].0 != questionType {
      assert QuestionTypes[k].0 == SurveyResultsViews.KnownTypes[k];
    }
  }

  /** The choices name distinct types, so the one found is the one listed. */
  lemma ListedLabel(k: int)
    requires 0 <= k < |QuestionTypes|
    ensures EditorTypeLabel(QuestionTypes[k].0) == QuestionTypes[k].1
  {
    var t := QuestionTypes[k].0;
    var r := FindLabel(QuestionTypes, t);
    assert r.Some?;
    var j :| 0 <= j < |QuestionTypes| && QuestionTypes[j] == (t, r.value);
    assert j == k;
  }

  /** What the editor adds after the results page's label of each type. */
  const Brackets: seq<string> := ["", "", " (Radio)", " (Checkbox)", " (Select)"]

  /** The results page names the five types as the editor does, without the
      part in brackets. Any other type both show as it is. */
  lemma LabelsAgree(questionType: string)
    ensures forall k :: 0 <= k < |SurveyResultsViews.KnownTypes| ==>
      EditorTypeLabel(SurveyResultsViews.KnownTypes[k])
        == SurveyResultsViews.QuestionTypeLabel(SurveyResultsViews.KnownTypes[k]) + Brackets[k]
    ensures questionType !in SurveyResultsViews.KnownTypes ==>
      SurveyResultsViews.QuestionTypeLabel(questionType) == questionType == EditorTypeLabel(questionType)
  {
    forall k | 0 <= k < |SurveyResultsViews.KnownTypes|
      ensures EditorTypeLabel(SurveyResultsViews.KnownTypes[k])
        == SurveyResultsViews.QuestionTypeLabel(SurveyResultsViews.KnownTypes[k]) + Brackets[k]
    {
      LabelAgrees(k);
    }
    if questionType !in SurveyResultsViews.KnownTypes {
      UnlistedLabel(questionType);
    }
  }

  lemma LabelAgrees(k: int)
    requires 0 <= k < |SurveyResultsViews.KnownTypes|
    ensures EditorTypeLabel(SurveyResultsViews.KnownTypes[k])
      == SurveyResultsViews.QuestionTypeLabel(SurveyResultsViews.KnownTypes[k]) + Brackets[k]
  {
    ListedLabel(k);
    var t := SurveyResultsViews.KnownTypes[k];
    assert QuestionTypes[k].0 == t;
    if k == 0 {
      assert SurveyResultsViews.QuestionTypeLabel(t) == "Texto Corto";
    } else if k == 1 {
      assert SurveyResultsViews.QuestionTypeLabel(t) == "Texto Largo";
    } else if k == 2 {
      assert SurveyResultsViews.QuestionTypeLabel(t) == "Opción Única";
      assert QuestionTypes[2].1 == "Opción Única" + " (Radio)";
    } else if k == 3 {
      assert SurveyResultsViews.QuestionTypeLabel(t) == "Opción Múltiple";
      assert QuestionTypes[3].1 == "Opción Múltiple" + " (Checkbox)";
    } else {
      assert SurveyResultsViews.QuestionTypeLabel(t) == "Lista Desplegable";
      assert QuestionTypes[4].1 == "Lista Desplegable" + " (Select)";
    }
  }


  /** `order` is one more than the position, as the editor renumbers it. */
  predicate OrderedByIndex(qs: seq<EditorQuestion>) {
    forall i :: 0 <= i < |qs| ==> qs[i].order == i + 1
  }

  /** Two questions that differ at most in `order`. */
  predicate SameButOrder(a: EditorQuestion, b: EditorQuestion) {
    a.(order := 0) == b.(order := 0)
  }

  // ---------------------------------------------------------------------------
  // The unsaved-changes flag
  // ---------------------------------------------------------------------------

  /** `captureInitialState()`: remembers the current draft as saved. */
  function CaptureInitialState(e: Editor): (r: Editor)
    ensures r == e.(initial := r.initial, hasUnsavedChanges := false)
    ensures r.initial.Some?
    ensures !MarkAsChanged(r).hasUnsavedChanges
  {
    e.(initial := Some(SnapshotOf(e.survey)), hasUnsavedChanges := false)
  }

  /** `markAsChanged()`: the draft has unsaved changes exactly when it
      differs from the captured one, or when nothing was captured yet. */
  function MarkAsChanged(e: Editor): (r: Editor)
    ensures r == e.(hasUnsavedChanges := r.hasUnsavedChanges)
    ensures r.hasUnsavedChanges <==> e.initial.None? || e.initial.value != SnapshotOf(e.survey)
  {
    e.(hasUnsavedChanges := e.initial != Some(SnapshotOf(e.survey)))
  }

  /** Editing the captured draft into `d` and marking sets the flag exactly
      when `d` differs in something other than the id; so an edit that is
      undone clears it again. */
  lemma ChangedMeansDifferent(e: Editor, d: Draft)
    ensures var m := MarkAsChanged(CaptureInitialState(e).(survey := d));
      m.hasUnsavedChanges <==> SnapshotOf(d) != SnapshotOf(e.survey)
  {
  }

  // ---------------------------------------------------------------------------
  // Options to and from the server
  // ---------------------------------------------------------------------------

  /** `convertOptionsFromBackend(options)`: the stored JSON array, or no
      options when the text is missing, empty, not JSON or not an array. */
  function ConvertOptionsFromBackend(options: Option<string>): (r: seq<string>)
    ensures options.Some? && Json.Parse(options.value).Arr? ==> Json.Parse(options.value) == Json.Arr(r)
    ensures options.None? || !Json.Parse(options.value).Arr? ==> r == []
  {
    SurveyPublic.ParseOptions(options).GetOr([])
  }

  /** `options.map(o => o.trim())`. */
  function TrimAll(options: seq<string>): (r: seq<string>)
    ensures |r| == |options|
    ensures forall i :: 0 <= i < |options| ==> r[i] == Trim(options[i])
  {
    seq(|options|, i requires 0 <= i < |options| => Trim(options[i]))
  }

  predicate NonEmpty(o: string) {
    o != []
  }

  /** `options.map(o => o.trim()).filter(o => o.length > 0)`: each entry
      is non-empty and already trimmed, and the list is empty exactly when
      every option is blank. */
  function TrimmedNonBlank(options: seq<string>): (r: seq<string>)
    ensures |r| <= |options|
    ensures forall k :: 0 <= k < |r| ==> r[k] != [] && Trim(r[k]) == r[k]
    ensures r == [] <==> forall i :: 0 <= i < |options| ==> Blank(options[i])
  {
    TrimmedClean(options);
    TrimmedEmpty(options);
    Filter(NonEmpty, TrimAll(options))
  }

  lemma TrimmedClean(options: seq<string>)
    ensures var r := Filter(NonEmpty, TrimAll(options));
      forall k :: 0 <= k < |r| ==> r[k] != [] && Trim(r[k]) == r[k]
  {
    var t := TrimAll(options);
    var r := Filter(NonEmpty, t);
    forall k | 0 <= k < |r| ensures r[k] != [] && Trim(r[k]) == r[k] {
      assert NonEmpty(r[k]) && r[k] in t;
      TrimmedEntryClean(options, r[k]);
    }
  }

  lemma TrimmedEntryClean(options: seq<string>, x: string)
    requires x in TrimAll(options)
    ensures Trim(x) == x
  {
    var t := TrimAll(options);
    var i :| 0 <= i < |t| && t[i] == x;
    TrimIdempotent(options[i]);
  }

  lemma TrimmedEmpty(options: seq<string>)
    ensures Filter(NonEmpty, TrimAll(options)) == [] <==> forall i :: 0 <= i < |options| ==> Blank(options[i])
  {
    var r := Filter(NonEmpty, TrimAll(options));
    if r != [] {
      var i := KeptFromNonBlank(options);
    }
    if exists i :: 0 <= i < |options| && !Blank(options[i]) {
      var i :| 0 <= i < |options| && !Blank(options[i]);
      NonBlankKept(options, i);
    }
  }

  lemma KeptFromNonBlank(options: seq<string>) returns (i: int)
    requires Filter(NonEmpty, TrimAll(options)) != []
    ensures 0 <= i < |options| && !Blank(options[i])
  {
    var t := TrimAll(options);
    var x := Filter(NonEmpty, t)[0];
    assert NonEmpty(x) && x in t;
    i :| 0 <= i < |t| && t[i] == x;
  }

  lemma NonBlankKept(options: seq<string>, i: int)
    requires 0 <= i < |options| && !Blank(options[i])
    ensures Filter(NonEmpty, TrimAll(options)) != []
  {
    var t := TrimAll(options);
    assert NonEmpty(t[i]);
    assert t[i] in Filter(NonEmpty, t);
  }

  /** An option with something besides white space. */
  predicate Filled(o: string) {
    !Blank(o)
  }

  /** Trimming every option and then dropping the empty results is dropping
      the blank options and then trimming the rest: so the converted list is
      the filled options, trimmed, in their order. */
  lemma {:induction false} TrimThenFilter(options: seq<string>)
    ensures TrimmedNonBlank(options) == TrimAll(Filter(Filled, options))
  {
    if options != [] {
      var o, rest := options[0], options[1..];
      assert options == [o] + rest;
      TrimThenFilter(rest);
      TrimAllCons(o, rest);
      assert Filter(NonEmpty, TrimAll(options)) == if Filled(o) then [Trim(o)] + TrimmedNonBlank(rest) else TrimmedNonBlank(rest);
      assert Filter(Filled, options) == if Filled(o) then [o] + Filter(Filled, rest) else Filter(Filled, rest);
      if Filled(o) {
        TrimAllCons(o, Filter(Filled, rest));
      }
    }
  }

  lemma TrimAllCons(o: string, rest: seq<string>)
    ensures TrimAll([o] + rest) == [Trim(o)] + TrimAll(rest)
  {
    var s := [o] + rest;
    var l, r := TrimAll(s), [Trim(o)] + TrimAll(rest);
    forall i | 0 <= i < |s| ensures l[i] == r[i] {
      if i > 0 {
        assert s[i] == rest[i - 1];
      }
    }
  }

  /** The filled option `i` becomes the entry after one entry for each filled
      option before it; so there is one entry per filled option, in order. */
  lemma TrimmedNonBlankAt(options: seq<string>, i: int)
    requires 0 <= i < |options| && !Blank(options[i])
    ensures |TrimmedNonBlank(options)| == |Filter(Filled, options)|
    ensures var k := |Filter(Filled, options[..i])|;
      k < |TrimmedNonBlank(options)| && TrimmedNonBlank(options)[k] == Trim(options[i])
  {
    TrimThenFilter(options);
    FilterAt(Filled, options, i);
  }

  /** Every entry is the trimmed form of an option that is not blank. */
  lemma TrimmedNonBlankFrom(options: seq<string>, k: int) returns (i: int)
    requires 0 <= k < |TrimmedNonBlank(options)|
    ensures 0 <= i < |options| && !Blank(options[i])
    ensures TrimmedNonBlank(options)[k] == Trim(options[i])
  {
    var t := TrimAll(options);
    var r := TrimmedNonBlank(options);
    assert r[k] in t;
    i :| 0 <= i < |t| && t[i] == r[k];
  }

  /** Every option that is not blank is there, trimmed. */
  lemma TrimmedNonBlankHas(options: seq<string>)
    ensures forall i :: 0 <= i < |options| && !Blank(options[i]) ==> Trim(options[i]) in TrimmedNonBlank(options)
  {
    var t := TrimAll(options);
    forall i | 0 <= i < |options| && !Blank(options[i]) ensures Trim(options[i]) in TrimmedNonBlank(options) {
      assert NonEmpty(t[i]);
    }
  }

  /** `convertOptionsToBackend(options)`: the trimmed, non-blank options in
      their order, or nothing at all when none is left. */
  function ConvertOptionsToBackend(options: seq<string>): (r: Option<seq<string>>)
    ensures r.None? <==> forall i :: 0 <= i < |options| ==> Blank(options[i])
    ensures r.Some? ==> r.value == TrimmedNonBlank(options)
  {
    if |options| == 0 then None
    else
      var filtered := TrimmedNonBlank(options);
      if |filtered| > 0 then Some(filtered) else None
  }

  /** Options already trimmed and non-blank pass through unchanged. */
  lemma TrimmedNonBlankKeeps(options: seq<string>)
    requires forall k :: 0 <= k < |options| ==> options[k] != [] && Trim(options[k]) == options[k]
    ensures TrimmedNonBlank(options) == options
  {
    assert TrimAll(options) == options;
    FilterAll(NonEmpty, options);
  }

  /** Converting is idempotent: what the editor sends converts to itself. */
  lemma ToBackendIdempotent(options: seq<string>)
    requires exists i :: 0 <= i < |options| && !Blank(options[i])
    ensures var sent := ConvertOptionsToBackend(options).value;
      ConvertOptionsToBackend(sent) == Some(sent)
  {
    TrimmedNonBlankKeeps(ConvertOptionsToBackend(options).value);
  }

  /** What the editor sends, once stored as JSON by the server, loads back
      as the same list, and is sent again unchanged. */
  lemma OptionsSurviveSave(options: seq<string>)
    requires exists i :: 0 <= i < |options| && !Blank(options[i])
    ensures var sent := ConvertOptionsToBackend(options).value;
      var loaded := ConvertOptionsFromBackend(Some(Json.Stringify(sent)));
      loaded == sent && ConvertOptionsToBackend(loaded) == Some(sent)
  {
    assert ConvertOptionsToBackend(options).Some?;
    var sent := ConvertOptionsToBackend(options).value;
    LoadStored(sent);
    ToBackendIdempotent(options);
  }

  /** Any list stored as JSON loads back as itself. */
  lemma LoadStored(sent: seq<string>)
    ensures ConvertOptionsFromBackend(Some(Json.Stringify(sent))) == sent
  {
    SurveyPublic.ParseOptionsRoundTrip(sent);
  }

  /** `needsOptions(type)`: the choice types, the same ones the results page
      draws a table for. */
  function NeedsOptions(questionType: string): (b: bool)
    ensures b <==> questionType == RADIO || questionType == CHECKBOX || questionType == SELECT
    ensures b == SurveyResultsViews.HasOptions(questionType)
  {
    questionType in [RADIO, CHECKBOX, SELECT]
  }

  // ---------------------------------------------------------------------------
  // Outcomes
  // ---------------------------------------------------------------------------

  /** An action either goes through, or is refused with the title and text of
      the warning the modal shows, leaving the editor as it was. */
  datatype Outcome<T> = Done(value: T) | Refused(title: string, message: string)

  const TitleRequired: string := "Campo requerido"
  const QuestionTitleMessage: string := "El título de la pregunta es obligatorio."
  const OptionsRequired: string := "Opciones requeridas"
  const OptionsMessage: string := "Debes agregar al menos una opción para este tipo de pregunta."
  const SurveyTitleMessage: string := "El título de la encuesta es obligatorio."
  const NoQuestions: string := "Sin preguntas"
  const NoQuestionsMessage: string := "Debes agregar al menos una pregunta a la encuesta."

  /** The check shared by `addQuestion` and `saveQuestionEdit`: a title that
      is not blank, and at least one option for a choice type. */
  function QuestionProblem(q: EditorQuestion): (r: Outcome<()>)
    ensures r.Done? <==> !Blank(q.title) && (NeedsOptions(q.questionType) ==> q.options != [])
    ensures r.Refused? && Blank(q.title) ==> r == Refused(TitleRequired, QuestionTitleMessage)
    ensures r.Refused? && !Blank(q.title) ==> r == Refused(OptionsRequired, OptionsMessage)
  {
    if Trim(q.title) == [] then Refused(TitleRequired, QuestionTitleMessage)
    else if NeedsOptions(q.questionType) && |q.options| == 0 then Refused(OptionsRequired, OptionsMessage)
    else Done(())
  }

  // ---------------------------------------------------------------------------
  // Questions
  // ---------------------------------------------------------------------------

  /** `getEmptyQuestion()` for a survey with `count` questions. */
  function EmptyQuestion(count: nat): EditorQuestion {
    EditorQuestion(None, "", TEXT, [], count + 1, false, false, "")
  }

  /** `addQuestion()`: appends the question being composed, numbered after
      the existing ones, and starts a new empty one; refused when its title
      is blank or a choice type has no option. */
  function AddQuestion(e: Editor): (r: Outcome<Editor>)
    ensures r.Done? <==> QuestionProblem(e.newQuestion).Done?
    ensures r.Refused? ==> var p := QuestionProblem(e.newQuestion); r == Refused(p.title, p.message)
    ensures r.Done? ==> var qs := e.survey.questions; var qs' := r.value.survey.questions;
      && |qs'| == |qs| + 1
      && qs'[..|qs|] == qs
      && qs'[|qs|] == e.newQuestion.(order := |qs| + 1, tempOption := [])
      && r.value.survey == e.survey.(questions := qs')
      && r.value.newQuestion == EmptyQuestion(|qs'|) && r.value.newQuestionOptionInput == []
      && r.value.hasUnsavedChanges == MarkAsChanged(r.value).hasUnsavedChanges
    ensures r.Done? ==> r.value == MarkAsChanged(e.(
      survey := e.survey.(questions := r.value.survey.questions),
      newQuestion := EmptyQuestion(|r.value.survey.questions|),
      newQuestionOptionInput := []))
  {
    match QuestionProblem(e.newQuestion)
    case Refused(t, m) => Refused(t, m)
    case Done(_) =>
      var qs := e.survey.questions;
      var qs' := qs + [e.newQuestion.(order := |qs| + 1, tempOption := [])];
      assert qs'[..|qs|] == qs;
      Done(MarkAsChanged(e.(
        survey := e.survey.(questions := qs'),
        newQuestion := EmptyQuestion(|qs'|),
        newQuestionOptionInput := [])))
  }

  /** Adding keeps the list numbered by position and, right after a
      capture, always counts as a change. */
  lemma AddQuestionFacts(e: Editor)
    requires AddQuestion(e).Done?
    ensures OrderedByIndex(e.survey.questions) ==> OrderedByIndex(AddQuestion(e).value.survey.questions)
    ensures e.initial == Some(SnapshotOf(e.survey)) ==> AddQuestion(e).value.hasUnsavedChanges
  {
    var qs := e.survey.questions;
    var qs' := AddQuestion(e).value.survey.questions;
    assert |qs'| != |qs|;
  }

  /** `forEach((q, i) => q.order = i + 1)`. */
  function Renumber(qs: seq<EditorQuestion>): (r: seq<EditorQuestion>)
    ensures |r| == |qs| && OrderedByIndex(r)
    ensures forall i :: 0 <= i < |qs| ==> SameButOrder(r[i], qs[i])
    ensures OrderedByIndex(qs) ==> r == qs
  {
    seq(|qs|, i requires 0 <= i < |qs| => qs[i].(order := i + 1))
  }

  /** `removeQuestion(index)` once the user answered the confirmation:
      declined, nothing happens; confirmed, the question at `index` (counted
      from the end when negative, as `splice` does) is removed and the rest
      renumbered. */
  function RemoveQuestion(e: Editor, index: int, confirmed: bool): (r: Editor)
    ensures !confirmed ==> r == e
    ensures confirmed ==> var qs := e.survey.questions; var qs' := r.survey.questions;
      var k := SpliceStart(qs, index);
      && OrderedByIndex(qs')
      && r == MarkAsChanged(e.(survey := e.survey.(questions := qs')))
      && (k < |qs| ==>
        && |qs'| == |qs| - 1
        && (forall i :: 0 <= i < k ==> SameButOrder(qs'[i], qs[i]))
        && (forall i :: k <= i < |qs'| ==> SameButOrder(qs'[i], qs[i + 1])))
      && (k == |qs| ==> qs' == Renumber(qs))
  {
    if !confirmed then e
    else
      var qs' := Renumber(Splice1(e.survey.questions, index));
      MarkAsChanged(e.(survey := e.survey.(questions := qs')))
  }

  /** Exchanges the entry at `index` with the one before it; nothing happens
      at the top. */
  function MoveUp<T>(s: seq<T>, index: int): (r: seq<T>)
    requires index < |s|
    ensures |r| == |s| && multiset(r) == multiset(s)
    ensures index <= 0 ==> r == s
    ensures index > 0 ==>
      && r[index - 1] == s[index] && r[index] == s[index - 1]
      && forall k :: 0 <= k < |s| && k != index - 1 && k != index ==> r[k] == s[k]
  {
    if index > 0 then Swap(s, index, index - 1) else s
  }

  /** Exchanges the entry at `index` with the one after it; nothing happens
      at the bottom. */
  function MoveDown<T>(s: seq<T>, index: int): (r: seq<T>)
    requires 0 <= index
    ensures |r| == |s| && multiset(r) == multiset(s)
    ensures index >= |s| - 1 ==> r == s
    ensures index < |s| - 1 ==>
      && r[index] == s[index + 1] && r[index + 1] == s[index]
      && forall k :: 0 <= k < |s| && k != index && k != index + 1 ==> r[k] == s[k]
  {
    if index < |s| - 1 then Swap(s, index, index + 1) else s
  }

  /** Moving an entry up and then down again puts it back, and the other
      way round. */
  lemma MoveUpDownInverse<T>(s: seq<T>, index: int)
    requires 0 < index < |s|
    ensures MoveDown(MoveUp(s, index), index - 1) == s
    ensures MoveUp(MoveDown(s, index - 1), index) == s
  {
    UpThenDown(s, index);
    DownThenUp(s, index);
  }

  lemma UpThenDown<T>(s: seq<T>, index: int)
    requires 0 < index < |s|
    ensures MoveDown(MoveUp(s, index), index - 1) == s
  {
    var u := MoveUp(s, index);
    var a := MoveDown(u, index - 1);
    forall k | 0 <= k < |s| ensures a[k] == s[k] {
      if k == index - 1 || k == index {
        assert a[k] == u[if k == index then index - 1 else index];
      }
    }
  }

  lemma DownThenUp<T>(s: seq<T>, index: int)
    requires 0 < index < |s|
    ensures MoveUp(MoveDown(s, index - 1), index) == s
  {
    var d := MoveDown(s, index - 1);
    var b := MoveUp(d, index);
    forall k | 0 <= k < |s| ensures b[k] == s[k] {
      if k == index - 1 || k == index {
        assert b[k] == d[if k == index then index - 1 else index];
      }
    }
  }

  /** `moveQuestionUp(index)`: swaps the question with the previous one and
      renumbers; at the top nothing happens at all. */
  function MoveQuestionUp(e: Editor, index: int): (r: Editor)
    requires index < |e.survey.questions|
    ensures index <= 0 ==> r == e
    ensures index > 0 ==>
      && r == MarkAsChanged(e.(survey := e.survey.(questions := r.survey.questions)))
      && r.survey.questions == Renumber(MoveUp(e.survey.questions, index))
  {
    if index > 0 then
      MarkAsChanged(e.(survey := e.survey.(questions := Renumber(MoveUp(e.survey.questions, index)))))
    else e
  }

  /** `moveQuestionDown(index)`: swaps the question with the next one and
      renumbers; at the bottom nothing happens at all. */
  function MoveQuestionDown(e: Editor, index: int): (r: Editor)
    requires 0 <= index
    ensures index >= |e.survey.questions| - 1 ==> r == e
    ensures index < |e.survey.questions| - 1 ==>
      && r == MarkAsChanged(e.(survey := e.survey.(questions := r.survey.questions)))
      && r.survey.questions == Renumber(MoveDown(e.survey.questions, index))
  {
    if index < |e.survey.questions| - 1 then
      MarkAsChanged(e.(survey := e.survey.(questions := Renumber(MoveDown(e.survey.questions, index)))))
    else e
  }

  /** Every list edit leaves the questions numbered by position, and moving
      keeps the same questions. */
  lemma MovesKeepNumbering(e: Editor, index: int)
    requires 0 <= index < |e.survey.questions|
    ensures OrderedByIndex(MoveQuestionUp(e, index).survey.questions)
      || MoveQuestionUp(e, index) == e
    ensures OrderedByIndex(MoveQuestionDown(e, index).survey.questions)
      || MoveQuestionDown(e, index) == e
    ensures |MoveQuestionUp(e, index).survey.questions| == |e.survey.questions|
    ensures |MoveQuestionDown(e, index).survey.questions| == |e.survey.questions|
  {
  }

  /** On a numbered list, moving a question up and back down restores the
      list, and then the flag says whether the draft still differs from
      the captured one, exactly as before the two moves. */
  lemma MoveUpThenDown(e: Editor, index: int)
    requires 0 < index < |e.survey.questions| && OrderedByIndex(e.survey.questions)
    ensures var back := MoveQuestionDown(MoveQuestionUp(e, index), index - 1);
      back.survey == e.survey && back == MarkAsChanged(e)
  {
    var qs := e.survey.questions;
    var up := Renumber(MoveUp(qs, index));
    SwapBack(qs, index);
    var e1 := MoveQuestionUp(e, index);
    assert e1.survey.questions == up;
    var e2 := MoveQuestionDown(e1, index - 1);
    assert e2.survey.questions == qs;
  }

  /** The list part of `MoveUpThenDown`: renumbering does not get in the
      way of undoing the swap. */
  lemma SwapBack(qs: seq<EditorQuestion>, index: int)
    requires 0 < index < |qs| && OrderedByIndex(qs)
    ensures Renumber(MoveDown(Renumber(MoveUp(qs, index)), index - 1)) == qs
  {
    var m := MoveUp(qs, index);
    var up := Renumber(m);
    UpThenDown(qs, index);
    MoveDownSameButOrder(up, m, index - 1);
    var d := MoveDown(up, index - 1);
    assert forall i :: 0 <= i < |d| ==> SameButOrder(d[i], qs[i]);
    RenumberSameButOrder(d, qs);
  }

  /** Moving entries in two lists that agree up to `order` keeps them in
      agreement. */
  lemma MoveDownSameButOrder(a: seq<EditorQuestion>, b: seq<EditorQuestion>, index: nat)
    requires |a| == |b| && forall i :: 0 <= i < |a| ==> SameButOrder(a[i], b[i])
    ensures var (x, y) := (MoveDown(a, index), MoveDown(b, index));
      |x| == |y| && forall i :: 0 <= i < |x| ==> SameButOrder(x[i], y[i])
  {
    var x, y := MoveDown(a, index), MoveDown(b, index);
    forall i | 0 <= i < |x| ensures SameButOrder(x[i], y[i]) {
      if index < |a| - 1 && i == index {
        assert x[i] == a[i + 1] && y[i] == b[i + 1];
      } else if index < |a| - 1 && i == index + 1 {
        assert x[i] == a[i - 1] && y[i] == b[i - 1];
      }
    }
  }

  /** Lists equal up to `order` renumber to the same list. */
  lemma RenumberSameButOrder(a: seq<EditorQuestion>, b: seq<EditorQuestion>)
    requires |a| == |b| && forall i :: 0 <= i < |a| ==> SameButOrder(a[i], b[i])
    requires OrderedByIndex(b)
    ensures Renumber(a) == b
  {
    var r := Renumber(a);
    forall i | 0 <= i < |a| ensures r[i] == b[i] {
      assert r[i] == a[i].(order := i + 1);
      assert a[i].(order := 0) == b[i].(order := 0);
      assert b[i] == b[i].(order := 0).(order := i + 1);
    }
  }

  // ---------------------------------------------------------------------------
  // Options of the question being composed
  // ---------------------------------------------------------------------------

  /** `addOptionToNewQuestion()`: appends the trimmed input and clears it;
      blank input changes nothing, not even the input box. */
  function AddOptionToNewQuestion(e: Editor): (r: Editor)
    ensures Blank(e.newQuestionOptionInput) ==> r == e
    ensures !Blank(e.newQuestionOptionInput) ==>
      && r == e.(newQuestion := r.newQuestion, newQuestionOptionInput := [])
      && r.newQuestion == e.newQuestion.(options := e.newQuestion.options + [Trim(e.newQuestionOptionInput)])
      && Trim(e.newQuestionOptionInput) != []
  {
    var option := Trim(e.newQuestionOptionInput);
    if option != [] then
      e.(newQuestion := e.newQuestion.(options := e.newQuestion.options + [option]),
         newQuestionOptionInput := [])
    else e
  }

  /** `removeOptionFromNewQuestion(index)`: removes exactly that option. */
  function RemoveOptionFromNewQuestion(e: Editor, index: int): (r: Editor)
    ensures r == e.(newQuestion := e.newQuestion.(options := r.newQuestion.options))
    ensures var s := e.newQuestion.options; var k := SpliceStart(s, index);
      k < |s| ==> r.newQuestion.options == s[..k] + s[k + 1..]
    ensures SpliceStart(e.newQuestion.options, index) == |e.newQuestion.options| ==> r == e
    ensures 0 <= index < |e.newQuestion.options| ==>
      multiset(r.newQuestion.options) + multiset{e.newQuestion.options[index]} == multiset(e.newQuestion.options)
  {
    e.(newQuestion := e.newQuestion.(options := Splice1(e.newQuestion.options, index)))
  }

  /** `moveOptionUpInNewQuestion(index)`: swaps the option with the one
      above it; at the top nothing happens. Nothing but the option list of
      the question being composed changes, and no change is marked. */
  function MoveOptionUpInNewQuestion(e: Editor, index: int): (r: Editor)
    requires index < |e.newQuestion.options|
    ensures r == e.(newQuestion := e.newQuestion.(options := r.newQuestion.options))
    ensures var s := e.newQuestion.options; var t := r.newQuestion.options;
      && |t| == |s|
      && (index <= 0 ==> t == s)
      && (index > 0 ==>
        && t[index - 1] == s[index] && t[index] == s[index - 1]
        && forall k :: 0 <= k < |s| && k != index - 1 && k != index ==> t[k] == s[k])
  {
    e.(newQuestion := e.newQuestion.(options := MoveUp(e.newQuestion.options, index)))
  }

  /** `moveOptionDownInNewQuestion(index)`: swaps the option with the one
      below it; at the bottom nothing happens. */
  function MoveOptionDownInNewQuestion(e: Editor, index: int): (r: Editor)
    requires 0 <= index
    ensures r == e.(newQuestion := e.newQuestion.(options := r.newQuestion.options))
    ensures var s := e.newQuestion.options; var t := r.newQuestion.options;
      && |t| == |s|
      && (index >= |s| - 1 ==> t == s)
      && (index < |s| - 1 ==>
        && t[index] == s[index + 1] && t[index + 1] == s[index]
        && forall k :: 0 <= k < |s| && k != index && k != index + 1 ==> t[k] == s[k])
  {
    e.(newQuestion := e.newQuestion.(options := MoveDown(e.newQuestion.options, index)))
  }

  /** Removing the option just added gives the options back; only the
      input box stays cleared. */
  lemma AddThenRemoveOption(e: Editor)
    requires !Blank(e.newQuestionOptionInput)
    ensures RemoveOptionFromNewQuestion(AddOptionToNewQuestion(e), |e.newQuestion.options|)
      == e.(newQuestionOptionInput := [])
  {
    var s := e.newQuestion.options;
    assert (s + [Trim(e.newQuestionOptionInput)])[..|s|] == s;
  }

  /** Moving an option of the question being composed down and back up
      restores the list. */
  lemma NewOptionMoveBack(e: Editor, index: int)
    requires 0 <= index < |e.newQuestion.options| - 1
    ensures MoveOptionUpInNewQuestion(MoveOptionDownInNewQuestion(e, index), index + 1) == e
  {
    DownThenUp(e.newQuestion.options, index + 1);
  }

  // ---------------------------------------------------------------------------
  // Options of a question already in the list
  // ---------------------------------------------------------------------------

  /** The editor with question `q` replaced by `x`. */
  function WithQuestion(e: Editor, q: nat, x: EditorQuestion): (r: Editor)
    requires q < |e.survey.questions|
    ensures |r.survey.questions| == |e.survey.questions| && r.survey.questions[q] == x
    ensures forall i :: 0 <= i < |e.survey.questions| && i != q ==> r.survey.questions[i] == e.survey.questions[i]
  {
    e.(survey := e.survey.(questions := e.survey.questions[q := x]))
  }

  /** `addOptionToQuestion(question)`: appends the question's trimmed option
      input and clears it, then marks; blank input changes nothing. */
  function AddOptionToQuestion(e: Editor, q: nat): (r: Editor)
    requires q < |e.survey.questions|
    ensures OnlyOptionsOf(r, e, q)
    ensures var x := e.survey.questions[q];
      if Blank(x.tempOption) then r == e
      else r == MarkAsChanged(WithQuestion(e, q, x.(options := x.options + [Trim(x.tempOption)], tempOption := [])))
  {
    var x := e.survey.questions[q];
    var option := Trim(x.tempOption);
    if option != [] then
      MarkAsChanged(WithQuestion(e, q, x.(options := x.options + [option], tempOption := [])))
    else e
  }

  /** `removeOptionFromQuestion(question, index)`: removes that option (if
      any) and marks. */
  function RemoveOptionFromQuestion(e: Editor, q: nat, index: int): (r: Editor)
    requires q < |e.survey.questions|
    ensures OnlyOptionsOf(r, e, q)
    ensures |r.survey.questions| == |e.survey.questions|
    ensures var x := e.survey.questions[q]; var k := SpliceStart(x.options, index);
      && r == MarkAsChanged(WithQuestion(e, q, x.(options := r.survey.questions[q].options)))
      && (k < |x.options| ==> r.survey.questions[q].options == x.options[..k] + x.options[k + 1..])
      && (k == |x.options| ==> r.survey.questions[q].options == x.options)
  {
    var x := e.survey.questions[q];
    MarkAsChanged(WithQuestion(e, q, x.(options := Splice1(x.options, index))))
  }

  /** `moveOptionUpInQuestion(question, index)`: at the top nothing happens. */
  function MoveOptionUpInQuestion(e: Editor, q: nat, index: int): (r: Editor)
    requires q < |e.survey.questions| && index < |e.survey.questions[q].options|
    ensures OnlyOptionsOf(r, e, q)
    ensures index <= 0 ==> r == e
    ensures var x := e.survey.questions[q];
      index > 0 ==> r == MarkAsChanged(WithQuestion(e, q, x.(options := MoveUp(x.options, index))))
  {
    var x := e.survey.questions[q];
    if index > 0 then MarkAsChanged(WithQuestion(e, q, x.(options := MoveUp(x.options, index)))) else e
  }

  /** `moveOptionDownInQuestion(question, index)`: at the bottom nothing
      happens. */
  function MoveOptionDownInQuestion(e: Editor, q: nat, index: int): (r: Editor)
    requires q < |e.survey.questions| && 0 <= index
    ensures OnlyOptionsOf(r, e, q)
    ensures var x := e.survey.questions[q];
      index >= |x.options| - 1 ==> r == e
    ensures var x := e.survey.questions[q];
      index < |x.options| - 1 ==> r == MarkAsChanged(WithQuestion(e, q, x.(options := MoveDown(x.options, index))))
  {
    var x := e.survey.questions[q];
    if index < |x.options| - 1 then MarkAsChanged(WithQuestion(e, q, x.(options := MoveDown(x.options, index)))) else e
  }

  /** `r` differs from `e` at most in question `q`'s options and option
      input, and in the unsaved-changes flag. */
  predicate OnlyOptionsOf(r: Editor, e: Editor, q: nat)
    requires q < |e.survey.questions|
  {
    && r.(survey := e.survey, hasUnsavedChanges := e.hasUnsavedChanges) == e
    && r.survey.(questions := e.survey.questions) == e.survey
    && |r.survey.questions| == |e.survey.questions|
    && r.survey.questions[q] == e.survey.questions[q].(
      options := r.survey.questions[q].options, tempOption := r.survey.questions[q].tempOption)
    && forall i :: 0 <= i < |e.survey.questions| && i != q ==> r.survey.questions[i] == e.survey.questions[i]
  }

  /** Removing the option just added to a question gives its options back. */
  lemma AddThenRemoveOptionInQuestion(e: Editor, q: nat)
    requires q < |e.survey.questions| && !Blank(e.survey.questions[q].tempOption)
    ensures var x := e.survey.questions[q];
      RemoveOptionFromQuestion(AddOptionToQuestion(e, q), q, |x.options|).survey.questions[q]
        == x.(tempOption := [])
  {
    var x := e.survey.questions[q];
    assert (x.options + [Trim(x.tempOption)])[..|x.options|] == x.options;
  }

  /** `saveQuestionEdit(question)`: the same checks as when adding; if they
      pass, editing ends and the draft is marked. */
  function SaveQuestionEdit(e: Editor, q: nat): (r: Outcome<Editor>)
    requires q < |e.survey.questions|
    ensures r.Done? <==> QuestionProblem(e.survey.questions[q]).Done?
    ensures r.Refused? ==> var p := QuestionProblem(e.survey.questions[q]); r == Refused(p.title, p.message)
    ensures r.Done? ==> r.value == MarkAsChanged(WithQuestion(e, q, e.survey.questions[q].(isEditing := false)))
  {
    var x := e.survey.questions[q];
    match QuestionProblem(x)
    case Refused(t, m) => Refused(t, m)
    case Done(_) => Done(MarkAsChanged(WithQuestion(e, q, x.(isEditing := false))))
  }

  /** Opening the editor of a question that passes the checks and saving it
      straight away changes nothing but the unsaved-changes flag. */
  lemma EditThenSave(e: Editor, q: nat)
    requires q < |e.survey.questions| && !e.survey.questions[q].isEditing
    requires QuestionProblem(e.survey.questions[q]).Done?
    ensures SaveQuestionEdit(EditQuestion(e, q), q) == Done(MarkAsChanged(e))
  {
    var x := EditQuestion(e, q);
    assert x.survey.questions[q] == e.survey.questions[q].(isEditing := true);
    assert WithQuestion(x, q, x.survey.questions[q].(isEditing := false)).survey.questions == e.survey.questions;
  }

  /** `editQuestion(question)`: opens the inline editor; not a change. */
  function EditQuestion(e: Editor, q: nat): (r: Editor)
    requires q < |e.survey.questions|
    ensures SameButEditing(r, e, q)
    ensures r.survey.questions[q].isEditing
  {
    WithQuestion(e, q, e.survey.questions[q].(isEditing := true))
  }

  /** `cancelQuestionEdit(question)`: closes the inline editor, keeping
      whatever was typed and leaving the flag alone. */
  function CancelQuestionEdit(e: Editor, q: nat): (r: Editor)
    requires q < |e.survey.questions|
    ensures SameButEditing(r, e, q)
    ensures !r.survey.questions[q].isEditing
  {
    WithQuestion(e, q, e.survey.questions[q].(isEditing := false))
  }

  /** `r` is `e` with at most the editing flag of question `q` changed. */
  predicate SameButEditing(r: Editor, e: Editor, q: nat)
    requires q < |e.survey.questions|
  {
    && r.(survey := e.survey) == e
    && r.survey.(questions := e.survey.questions) == e.survey
    && |r.survey.questions| == |e.survey.questions|
    && r.survey.questions[q] == e.survey.questions[q].(isEditing := r.survey.questions[q].isEditing)
    && forall i :: 0 <= i < |e.survey.questions| && i != q ==> r.survey.questions[i] == e.survey.questions[i]
  }

  /** Opening and cancelling an edit of a question that was not being
      edited gives back the editor as it was. */
  lemma EditThenCancel(e: Editor, q: nat)
    requires q < |e.survey.questions| && !e.survey.questions[q].isEditing
    ensures CancelQuestionEdit(EditQuestion(e, q), q) == e
  {
    var r := CancelQuestionEdit(EditQuestion(e, q), q);
    assert r.survey.questions == e.survey.questions;
  }

  /** `cancel()`: whether the editor is left for the dashboard. Without
      unsaved changes it is left at once; otherwise a confirmation is shown
      and `confirmed` is the user's answer to it. */
  function Cancel(e: Editor, confirmed: bool): (leaves: bool)
    ensures !e.hasUnsavedChanges ==> leaves
    ensures e.hasUnsavedChanges ==> (leaves <==> confirmed)
  {
    !e.hasUnsavedChanges || confirmed
  }

  /** After edits that bring the draft back to what was captured, leaving
      needs no confirmation, and after edits that did not, declining the
      confirmation keeps the editor open. */
  lemma LeaveAfterUndo(e: Editor, d: Draft)
    ensures SnapshotOf(d) == SnapshotOf(e.survey) ==>
      Cancel(MarkAsChanged(CaptureInitialState(e).(survey := d)), false)
    ensures SnapshotOf(d) != SnapshotOf(e.survey) ==>
      !Cancel(MarkAsChanged(CaptureInitialState(e).(survey := d)), false)
  {
    ChangedMeansDifferent(e, d);
  }

  // ---------------------------------------------------------------------------
  // Saving
  // ---------------------------------------------------------------------------

  /** Which endpoint the request goes to. */
  datatype Target = Create | Update(id: int)

  datatype SaveRequest = SaveRequest(target: Target, payload: CreateSurveyRequest)

  /** One question of the request body. */
  function QuestionPayload(q: EditorQuestion): CreateQuestionRequest {
    CreateQuestionRequest(Trim(q.title), q.questionType, ConvertOptionsToBackend(q.options), q.order, q.required)
  }

  /** `saveSurvey()` up to the HTTP call: refused when the title is blank or
      there is no question; otherwise a request with trimmed texts and
      cleaned options, sent as an update only in edit mode with a non-zero
      id. The expiry date travels as entered, or not at all when empty. */
  function SaveSurvey(e: Editor): (r: Outcome<SaveRequest>)
    ensures Blank(e.survey.title) ==> r == Refused(TitleRequired, SurveyTitleMessage)
    ensures !Blank(e.survey.title) && e.survey.questions == [] ==> r == Refused(NoQuestions, NoQuestionsMessage)
    ensures r.Done? <==> !Blank(e.survey.title) && e.survey.questions != []
    ensures r.Done? ==> var p := r.value.payload; var qs := e.survey.questions;
      && p.title == Trim(e.survey.title) && p.title != []
      && p.description == Trim(e.survey.description)
      && p.status == e.survey.status
      && (p.expiresAt.None? <==> e.survey.expiresAt == [])
      && |p.questions| == |qs|
      && (forall k :: 0 <= k < |qs| ==> p.questions[k] == QuestionPayload(qs[k]))
    ensures r.Done? ==>
      (r.value.target.Update? <==> e.isEditMode && e.surveyId.Some? && e.surveyId.value != 0)
      && (r.value.target.Update? ==> r.value.target.id == e.surveyId.value)
  {
    var d := e.survey;
    if Trim(d.title) == [] then Refused(TitleRequired, SurveyTitleMessage)
    else if |d.questions| == 0 then Refused(NoQuestions, NoQuestionsMessage)
    else Done(SaveRequest(SaveTarget(e), SurveyPayload(d)))
  }

  /** The request body built from the draft. */
  function SurveyPayload(d: Draft): (p: CreateSurveyRequest)
    ensures p.title == Trim(d.title) && p.description == Trim(d.description)
    ensures p.status == d.status
    ensures p.expiresAt.None? <==> d.expiresAt == []
    ensures p.expiresAt.Some? ==> p.expiresAt.value == d.expiresAt
    ensures |p.questions| == |d.questions|
    ensures forall k :: 0 <= k < |d.questions| ==> p.questions[k] == QuestionPayload(d.questions[k])
  {
    CreateSurveyRequest(
      Trim(d.title),
      Trim(d.description),
      d.status,
      if d.expiresAt != [] then Some(d.expiresAt) else None,
      seq(|d.questions|, k requires 0 <= k < |d.questions| => QuestionPayload(d.questions[k])))
  }

  /** The endpoint: an update of the edited survey only in edit mode with a
      known, non-zero id. */
  function SaveTarget(e: Editor): (t: Target)
    ensures t.Update? <==> e.isEditMode && e.surveyId.Some? && e.surveyId.value != 0
    ensures t.Update? ==> t.id == e.surveyId.value
  {
    if e.isEditMode && e.surveyId.Some? && e.surveyId.value != 0 then Update(e.surveyId.value) else Create
  }

  /** The request never carries a blank option, and a numbered list goes out
      numbered 1, 2, 3, ... */
  lemma SavedPayloadClean(e: Editor)
    requires SaveSurvey(e).Done?
    ensures var p := SaveSurvey(e).value.payload;
      && (forall k :: 0 <= k < |p.questions| && p.questions[k].options.Some? ==>
        var o := p.questions[k].options.value;
        o != [] && forall j :: 0 <= j < |o| ==> o[j] != [] && Trim(o[j]) == o[j])
      && (OrderedByIndex(e.survey.questions) ==> forall k :: 0 <= k < |p.questions| ==> p.questions[k].order == k + 1)
  {
  }
}
