/** The answer form of survey-public.component.ts: what counts as an answer,
    validation of required questions, the payload sent to the server, the
    checkbox selection and the error messages. */
module SurveyPublic {
  import opened Wrappers
  import opened Seqs
  import opened Text
  import opened Models
  import Json
  import SurveyResults
  import SurveyResultsViews

  // ---------------------------------------------------------------------------
  // Loading
  // ---------------------------------------------------------------------------

  /** `parseOptions(options)`: the option list when the stored text is a JSON
      array, nothing when it is null, empty, not JSON or not an array. */
  function ParseOptions(options: Option<string>): (r: Option<seq<string>>)
    ensures r.Some? <==> options.Some? && Json.Parse(options.value).Arr?
    ensures r.Some? ==> Json.Parse(options.value) == Json.Arr(r.value)
  {
    if options.None? || options.value == [] then None
    else
      match Json.Parse(options.value)
      case Arr(items) => Some(items)
      case _ => None
  }

  /** Options written by `JSON.stringify` are read back unchanged. */
  lemma ParseOptionsRoundTrip(options: seq<string>)
    ensures ParseOptions(Some(Json.Stringify(options))) == Some(options)
  {
    Json.StringifyRoundTrip(options);
  }

  /** A question of the survey with nothing entered yet. */
  function InitialAnswer(q: Question): QuestionAnswer {
    QuestionAnswer(q.id, q.title, q.questionType, q.required, ParseOptions(q.options), "", "", [])
  }

  /** `initializeQuestionAnswers(questions)`: one blank entry per question,
      in the survey's order, carrying the question's identity, with no text,
      no chosen option and no ticked box. */
  function InitializeQuestionAnswers(questions: seq<Question>): (r: seq<QuestionAnswer>)
    ensures |r| == |questions|
    ensures forall k :: 0 <= k < |r| ==>
      && r[k].questionId == questions[k].id
      && r[k].questionTitle == questions[k].title
      && r[k].questionType == questions[k].questionType
      && r[k].required == questions[k].required
      && r[k].options == ParseOptions(questions[k].options)
    ensures forall k :: 0 <= k < |r| ==>
      r[k].textValue == [] && r[k].selectedOption == [] && r[k].selectedOptions == []
    ensures forall k :: 0 <= k < |r| ==> !HasValidAnswer(r[k])
  {
    seq(|questions|, k requires 0 <= k < |questions| => InitialAnswer(questions[k]))
  }

  // ---------------------------------------------------------------------------
  // Validation
  // ---------------------------------------------------------------------------

  /** `hasValidAnswer(qa)`: text that is not blank, a chosen option, or at
      least one ticked box, according to the type; never for other types. */
  function HasValidAnswer(qa: QuestionAnswer): (b: bool)
    ensures b <==>
      || ((qa.questionType == TEXT || qa.questionType == TEXTAREA) && !Blank(qa.textValue))
      || ((qa.questionType == RADIO || qa.questionType == SELECT) && qa.selectedOption != [])
      || (qa.questionType == CHECKBOX && qa.selectedOptions != [])
  {
    if qa.questionType == TEXT || qa.questionType == TEXTAREA then Trim(qa.textValue) != []
    else if qa.questionType == RADIO || qa.questionType == SELECT then qa.selectedOption != []
    else if qa.questionType == CHECKBOX then |qa.selectedOptions| > 0
    else false
  }

  /** A required question without a valid answer stops the submission. */
  predicate Blocks(qa: QuestionAnswer) {
    qa.required && !HasValidAnswer(qa)
  }

  /** The message naming the question that stopped the submission. */
  function RequiredMessage(title: string): string {
    "La pregunta \"" + title + "\" es obligatoria"
  }

  /** `validateForm()`: succeeds, clearing the message, when no required
      question lacks an answer; otherwise fails naming the first one. */
  method ValidateForm(answers: seq<QuestionAnswer>) returns (ok: bool, errorMessage: string)
    ensures ok <==> forall k :: 0 <= k < |answers| ==> !Blocks(answers[k])
    ensures ok ==> errorMessage == ""
    ensures !ok ==> exists i ::
      && 0 <= i < |answers| && Blocks(answers[i])
      && (forall j :: 0 <= j < i ==> !Blocks(answers[j]))
      && errorMessage == RequiredMessage(answers[i].questionTitle)
  {
    var i := 0;
    while i < |answers|
      invariant 0 <= i <= |answers|
      invariant forall j :: 0 <= j < i ==> !Blocks(answers[j])
    {
      var qa := answers[i];
      if qa.required {
        var hasAnswer := HasValidAnswer(qa);
        if !hasAnswer {
          return false, RequiredMessage(qa.questionTitle);
        }
      }
      i := i + 1;
    }
    return true, "";
  }

  // ---------------------------------------------------------------------------
  // The payload
  // ---------------------------------------------------------------------------

  /** `getAnswerValue(qa)`: the text as typed (not trimmed), the chosen
      option, or the ticked options as a JSON array, which the results page
      reads back as exactly that selection. */
  function GetAnswerValue(qa: QuestionAnswer): (v: string)
    ensures qa.questionType == TEXT || qa.questionType == TEXTAREA ==> v == qa.textValue
    ensures qa.questionType == RADIO || qa.questionType == SELECT ==> v == qa.selectedOption
    ensures qa.questionType == CHECKBOX ==>
      && SurveyResultsViews.ParseCheckboxAnswer(v) == qa.selectedOptions
      && SurveyResults.AnswerLabels(CHECKBOX, v) == qa.selectedOptions
    ensures qa.questionType !in {TEXT, TEXTAREA, RADIO, SELECT, CHECKBOX} ==> v == []
  {
    if qa.questionType == TEXT || qa.questionType == TEXTAREA then qa.textValue
    else if qa.questionType == RADIO || qa.questionType == SELECT then qa.selectedOption
    else if qa.questionType == CHECKBOX then
      SurveyResultsViews.CheckboxRoundTrip(qa.selectedOptions);
      Json.Stringify(qa.selectedOptions)
    else []
  }

  /** One answer of the request body. */
  function Encode(qa: QuestionAnswer): CreateAnswerRequest {
    CreateAnswerRequest(qa.questionId, GetAnswerValue(qa))
  }

  /** `buildAnswersPayload()`: an entry for each question with a valid
      answer, and for no other; as many entries as answered questions. */
  function BuildAnswersPayload(answers: seq<QuestionAnswer>): (r: seq<CreateAnswerRequest>)
    ensures |r| == |Filter(HasValidAnswer, answers)| <= |answers|
    ensures forall k :: 0 <= k < |r| ==> EntryOfAnswered(answers, r[k])
    ensures forall i :: 0 <= i < |answers| && HasValidAnswer(answers[i]) ==> Encode(answers[i]) in r
  {
    PayloadFromAnswered(answers);
    PayloadCoversAnswered(answers);
    EncodeAll(Filter(HasValidAnswer, answers))
  }

  /** The `map` step: each kept answer encoded in place. */
  function EncodeAll(kept: seq<QuestionAnswer>): (r: seq<CreateAnswerRequest>)
    ensures |r| == |kept| && forall k :: 0 <= k < |r| ==> r[k] == Encode(kept[k])
  {
    seq(|kept|, k requires 0 <= k < |kept| => Encode(kept[k]))
  }

  /** `e` is the entry of some answered question. */
  predicate EntryOfAnswered(answers: seq<QuestionAnswer>, e: CreateAnswerRequest) {
    exists i :: 0 <= i < |answers| && HasValidAnswer(answers[i]) && e == Encode(answers[i])
  }

  lemma PayloadFromAnswered(answers: seq<QuestionAnswer>)
    ensures var r := EncodeAll(Filter(HasValidAnswer, answers));
      forall k :: 0 <= k < |r| ==> EntryOfAnswered(answers, r[k])
  {
    var kept := Filter(HasValidAnswer, answers);
    var r := EncodeAll(kept);
    forall k | 0 <= k < |r| ensures EntryOfAnswered(answers, r[k]) {
      var i := FilterOrigin(HasValidAnswer, answers, k);
      assert 0 <= i < |answers| && HasValidAnswer(answers[i]) && r[k] == Encode(answers[i]);
    }
  }

  lemma PayloadCoversAnswered(answers: seq<QuestionAnswer>)
    ensures var r := EncodeAll(Filter(HasValidAnswer, answers));
      forall i :: 0 <= i < |answers| && HasValidAnswer(answers[i]) ==> Encode(answers[i]) in r
  {
    var r := EncodeAll(Filter(HasValidAnswer, answers));
    forall i | 0 <= i < |answers| && HasValidAnswer(answers[i]) ensures Encode(answers[i]) in r {
      FilterAt(HasValidAnswer, answers, i);
      assert r[|Filter(HasValidAnswer, answers[..i])|] == Encode(answers[i]);
    }
  }

  /** Where the entry for the answered question `i` sits: after one entry
      for each answered question before it. */
  lemma PayloadPosition(answers: seq<QuestionAnswer>, i: int)
    requires 0 <= i < |answers| && HasValidAnswer(answers[i])
    ensures var k := |Filter(HasValidAnswer, answers[..i])|;
      k < |BuildAnswersPayload(answers)| && BuildAnswersPayload(answers)[k] == Encode(answers[i])
  {
    FilterAt(HasValidAnswer, answers, i);
  }

  /** Entries keep the order of their questions: of two answered questions,
      the earlier one's entry comes first. */
  lemma PayloadOrder(answers: seq<QuestionAnswer>, i: int, j: int)
    requires 0 <= i < j < |answers| && HasValidAnswer(answers[i]) && HasValidAnswer(answers[j])
    ensures var (ki, kj) := (|Filter(HasValidAnswer, answers[..i])|, |Filter(HasValidAnswer, answers[..j])|);
      var r := BuildAnswersPayload(answers);
      && ki < kj < |r|
      && r[ki] == Encode(answers[i]) && r[kj] == Encode(answers[j])
  {
    FilterRankMonotone(HasValidAnswer, answers, i, j);
    PayloadPosition(answers, i);
    PayloadPosition(answers, j);
  }

  /** Every entry is the one of exactly one answered question: the one with
      as many answered questions before it as entries before the entry. So
      no question is sent twice and none is left out. */
  lemma PayloadEntry(answers: seq<QuestionAnswer>, k: int) returns (i: int)
    requires 0 <= k < |BuildAnswersPayload(answers)|
    ensures 0 <= i < |answers| && HasValidAnswer(answers[i])
    ensures |Filter(HasValidAnswer, answers[..i])| == k && BuildAnswersPayload(answers)[k] == Encode(answers[i])
    ensures forall j :: 0 <= j < |answers| && j != i && HasValidAnswer(answers[j]) ==>
      |Filter(HasValidAnswer, answers[..j])| != k
  {
    i := FilterOrigin(HasValidAnswer, answers, k);
    forall j | 0 <= j < |answers| && j != i && HasValidAnswer(answers[j])
      ensures |Filter(HasValidAnswer, answers[..j])| != k
    {
      if j < i {
        FilterRankMonotone(HasValidAnswer, answers, j, i);
      } else {
        FilterRankMonotone(HasValidAnswer, answers, i, j);
      }
    }
  }

  /** A form nobody filled in sends no answers, and passes validation only
      when no question is required. */
  lemma FreshForm(questions: seq<Question>)
    ensures BuildAnswersPayload(InitializeQuestionAnswers(questions)) == []
    ensures var answers := InitializeQuestionAnswers(questions);
      forall k :: 0 <= k < |answers| ==> (Blocks(answers[k]) <==> questions[k].required)
  {
    FilterNone(HasValidAnswer, InitializeQuestionAnswers(questions));
  }

  // ---------------------------------------------------------------------------
  // Checkboxes
  // ---------------------------------------------------------------------------

  /** `isCheckboxChecked(qa, option)`. */
  predicate IsCheckboxChecked(qa: QuestionAnswer, option: string) {
    option in qa.selectedOptions
  }

  /** `onCheckboxChange(qa, option, event)` with `checked` the box's new
      state: ticking appends the option unless it is already there,
      unticking removes every copy of it and keeps the rest in order
      (`Untick`, `UntickAt`). Only the selection changes, only `option`
      changes state, and a selection without duplicates keeps none. */
  function OnCheckboxChange(qa: QuestionAnswer, option: string, checked: bool): (r: QuestionAnswer)
    ensures r == qa.(selectedOptions := r.selectedOptions)
    ensures IsCheckboxChecked(r, option) == checked
    ensures forall o :: o != option ==> (IsCheckboxChecked(r, o) <==> IsCheckboxChecked(qa, o))
    ensures NoDuplicates(qa.selectedOptions) ==> NoDuplicates(r.selectedOptions)
    ensures checked ==> (|qa.selectedOptions| <= |r.selectedOptions| <= |qa.selectedOptions| + 1
      && r.selectedOptions[..|qa.selectedOptions|] == qa.selectedOptions)
    ensures !checked ==> r.selectedOptions == Untick(qa.selectedOptions, option)
  {
    var s := qa.selectedOptions;
    if checked then
      if option in s then qa
      else
        assert (s + [option])[..|s|] == s;
        qa.(selectedOptions := s + [option])
    else qa.(selectedOptions := Untick(s, option))
  }

  /** The test `o => o !== x` of the filter that unticks `x`. */
  function Other(x: string): string -> bool {
    o => o != x
  }

  /** `selectedOptions.filter(o => o !== option)`: every copy of `x` goes and
      nothing else does. */
  function Untick(s: seq<string>, x: string): (t: seq<string>)
    ensures |t| == |s| - Occurrences(s, x)
    ensures forall o :: o in t <==> o in s && o != x
    ensures NoDuplicates(s) ==> NoDuplicates(t)
  {
    RemoveAllCount(s, x);
    RemoveAllKeeps(s, x);
    Filter(Other(x), s)
  }

  lemma {:induction false} RemoveAllCount(s: seq<string>, x: string)
    ensures |Filter(Other(x), s)| == |s| - Occurrences(s, x)
  {
    if s != [] {
      RemoveAllCount(s[1..], x);
    }
  }

  /** Unticking moves each other entry forward by the number of copies of `x`
      before it, so the others keep their order. */
  lemma UntickAt(s: seq<string>, x: string, i: int)
    requires 0 <= i < |s| && s[i] != x
    ensures i - Occurrences(s[..i], x) < |Untick(s, x)|
    ensures Untick(s, x)[i - Occurrences(s[..i], x)] == s[i]
  {
    FilterAt(Other(x), s, i);
    RemoveAllCount(s[..i], x);
  }

  /** Removing every copy of `x` keeps the others and leaves them
      unduplicated. */
  lemma {:induction false} RemoveAllKeeps(s: seq<string>, x: string)
    ensures forall o :: o in Filter(Other(x), s) <==> o in s && o != x
    ensures NoDuplicates(s) ==> NoDuplicates(Filter(Other(x), s))
  {
    if s != [] {
      RemoveAllKeeps(s[1..], x);
      assert s == [s[0]] + s[1..];
      if s[0] != x && NoDuplicates(s) {
        var t := Filter(Other(x), s[1..]);
        assert Filter(Other(x), s) == [s[0]] + t;
        assert NoDuplicates(s[1..]);
        assert s[0] !in s[1..];
      }
    }
  }

  /** Unticking a box that was just ticked restores the selection. */
  lemma CheckThenUncheck(qa: QuestionAnswer, option: string)
    requires !IsCheckboxChecked(qa, option)
    ensures OnCheckboxChange(OnCheckboxChange(qa, option, true), option, false) == qa
  {
    var s := qa.selectedOptions;
    var p := Other(option);
    FilterConcat(p, s, [option]);
    assert Filter(p, [option]) == [];
    KeepAll(s, option);
  }

  /** Filtering out a value that does not occur changes nothing. */
  lemma {:induction false} KeepAll(s: seq<string>, x: string)
    requires x !in s
    ensures Filter(Other(x), s) == s
  {
    if s != [] {
      KeepAll(s[1..], x);
      assert s == [s[0]] + s[1..];
    }
  }

  /** Ticking twice is ticking once, and so is unticking. */
  lemma CheckboxIdempotent(qa: QuestionAnswer, option: string, checked: bool)
    ensures var once := OnCheckboxChange(qa, option, checked);
      OnCheckboxChange(once, option, checked) == once
  {
    var once := OnCheckboxChange(qa, option, checked);
    if !checked {
      KeepAll(once.selectedOptions, option);
    }
  }

  // ---------------------------------------------------------------------------
  // Error messages
  // ---------------------------------------------------------------------------

  /** The parts of an HTTP error the form looks at: the status and the
      server's `error.message`, if any. */
  datatype HttpError = HttpError(status: int, message: Option<string>)

  const NotFoundText: string := "Encuesta no encontrada o no disponible"
  const ExpiredText: string := "Esta encuesta ha expirado"
  const GenericText: string := "Ocurrió un error. Por favor, intenta nuevamente"

  /** `getErrorMessage(error)`: 404 and 410 have fixed texts that win over
      anything the server says; otherwise the server's non-empty message,
      otherwise a generic text. The user never sees an empty message. */
  function GetErrorMessage(error: HttpError): (m: string)
    ensures m != []
    ensures error.status == 404 ==> m == NotFoundText
    ensures error.status == 410 ==> m == ExpiredText
    ensures error.status != 404 && error.status != 410 ==>
      if error.message.Some? && error.message.value != [] then m == error.message.value
      else m == GenericText
  {
    if error.status == 404 then NotFoundText
    else if error.status == 410 then ExpiredText
    else if error.message.Some? && error.message.value != [] then error.message.value
    else GenericText
  }

  /** What the user reads is one of the three fixed texts or the server's
      own words; for 404 and 410 the server's words make no difference, and
      otherwise they are shown whenever there are any. */
  lemma ErrorMessageSources(error: HttpError, other: Option<string>)
    ensures var m := GetErrorMessage(error);
      m in [NotFoundText, ExpiredText, GenericText] || (error.message.Some? && m == error.message.value)
    ensures error.status == 404 || error.status == 410 ==>
      GetErrorMessage(error.(message := other)) == GetErrorMessage(error)
    ensures error.status != 404 && error.status != 410 && other.Some? && other.value != [] ==>
      GetErrorMessage(error.(message := other)) == other.value
  {
  }
}
