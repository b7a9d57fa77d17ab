/** The record shapes the components exchange with the server and with each
    other (analytics.model.ts, response.model.ts, survey.model.ts). */
module Models {
  import opened Wrappers

  /** Question type tags, as they travel on the wire. */
  const TEXT: string := "TEXT"
  const TEXTAREA: string := "TEXTAREA"
  const RADIO: string := "RADIO"
  const CHECKBOX: string := "CHECKBOX"
  const SELECT: string := "SELECT"

  /** The question types whose answers are picked from a list of options. */
  const ChoiceTypes: set<string> := {RADIO, CHECKBOX, SELECT}

  /** A stored question as the server returns it; `options` is the JSON text
      of the option list, or null. */
  datatype Question = Question(
    id: int,
    surveyId: int,
    title: string,
    questionType: string,
    options: Option<string>,
    order: int,
    required: bool)

  /** All answers given to one question, one string per respondent. */
  datatype QuestionAnalytics = QuestionAnalytics(
    questionId: int,
    questionTitle: string,
    questionType: string,
    totalAnswers: int,
    answers: seq<string>)

  /** One row of the frequency table. */
  datatype OptionCount = OptionCount(option: string, count: nat, percentage: real)

  /** One answer of a submitted response. */
  datatype CreateAnswerRequest = CreateAnswerRequest(questionId: int, value: string)

  /** A question together with the respondent's input so far. */
  datatype QuestionAnswer = QuestionAnswer(
    questionId: int,
    questionTitle: string,
    questionType: string,
    required: bool,
    options: Option<seq<string>>,
    textValue: string,
    selectedOption: string,
    selectedOptions: seq<string>)

  /** A question of a survey being created or updated. */
  datatype CreateQuestionRequest = CreateQuestionRequest(
    title: string,
    questionType: string,
    options: Option<seq<string>>,
    order: int,
    required: bool)

  /** The body of a create or update request. */
  datatype CreateSurveyRequest = CreateSurveyRequest(
    title: string,
    description: string,
    status: string,
    expiresAt: Option<string>,
    questions: seq<CreateQuestionRequest>)
}
