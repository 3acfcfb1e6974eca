/**
  The quiz contract of src/shared/contracts/quiz.ts: what counts as a quiz, and which
  tool responses answer it. JSON.parse after JSON.stringify gives the value back, so a text item
  carries the value it encodes.
*/
module QuizContract {
  import opened Wrappers
  import opened Json

  type Value = Json<string>

  datatype Choice = Choice(text: string, description: string)
  datatype Question = Question(
    id: string, header: string, question: string, choices: seq<Choice>, allowCustom: bool, isSecret: bool)
  datatype Quiz = Quiz(questions: seq<Question>)
  datatype Answer = Answer(id: string, answer: string)

  /** A content item; `encoded` is absent when its text is no string or does not parse. */
  datatype Item = Item(inputText: bool, encoded: Option<Value>)
  datatype ToolResponse = ToolResponse(success: bool, contentItems: seq<Item>)

  // ----- Texts -----

  predicate IsIdTail(c: char) {
    IsLetter(c) || IsDigit(c) || c == '_' || c == '-'
  }

  predicate IsQuestionId(id: string) {
    1 <= |id| <= 64 && IsLetter(id[0]) && forall i | 1 <= i < |id| :: IsIdTail(id[i])
  }

  predicate IsBoundedText(value: Option<Value>, maximum: nat) {
    value.Some? && value.value.Str? && BoundedText(value.value.s, maximum)
  }

  // ----- Parsing a quiz -----

  function ParseChoice(value: Value): Option<Choice> {
    var text, description := Field(Some(value), "label"), Field(Some(value), "description");
    if IsBoundedText(text, 160) && IsBoundedText(description, 600)
    then Some(Choice(Text(text), Text(description)))
    else None
  }

  /** `map(parse)`, refused as a whole when one element is. */
  function ParseChoices(values: seq<Value>): (r: Option<seq<Choice>>)
    ensures r.Some? ==> |r.value| == |values|
  {
    if values == [] then Some([])
    else
      var first, rest := ParseChoice(values[0]), ParseChoices(values[1..]);
      if first.None? || rest.None? then None else Some([first.value] + rest.value)
  }

  function ParseQuestion(value: Value, minimumChoices: nat): Option<Question> {
    var question := Some(value);
    var choices, id := Field(question, "choices"), Field(question, "id");
    var header, prompt := Field(question, "header"), Field(question, "question");
    var allowCustom := Field(question, "allowCustom");
    if || choices.None? || !choices.value.Arr? || !(minimumChoices <= |Elements(choices)| <= 5)
       || id.None? || !id.value.Str? || !IsQuestionId(id.value.s)
       || !IsBoundedText(header, 120) || !IsBoundedText(prompt, 600)
       || allowCustom.None? || !allowCustom.value.Bool?
       || ParseChoices(Elements(choices)).None?
    then None
    else Some(Question(id.value.s, Text(header), Text(prompt), ParseChoices(Elements(choices)).value,
                       allowCustom.value.b, Field(question, "isSecret") == Some(Bool(true))))
  }

  function ParseQuestions(values: seq<Value>, minimumChoices: nat): (r: Option<seq<Question>>)
    ensures r.Some? ==> |r.value| == |values|
  {
    if values == [] then Some([])
    else
      var first, rest := ParseQuestion(values[0], minimumChoices), ParseQuestions(values[1..], minimumChoices);
      if first.None? || rest.None? then None else Some([first.value] + rest.value)
  }

  function Ids(questions: seq<Question>): set<string> {
    set i | 0 <= i < |questions| :: questions[i].id
  }

  function ParseQuiz(value: Option<Value>, minimumChoices: nat): Option<Quiz> {
    var questions := Field(value, "questions");
    if questions.None? || !questions.value.Arr? || !(1 <= |Elements(questions)| <= 8) then None
    else
      var parsed := ParseQuestions(Elements(questions), minimumChoices);
      if parsed.Some? && |Ids(parsed.value)| == |parsed.value| then Some(Quiz(parsed.value)) else None
  }

  // ----- Checking a response -----

  /** `parseQuizResponse`, on the decoded text; the answers come back as strings. */
  function ParseResponse(value: Value): Option<map<string, string>> {
    var answers := Field(Some(value), "answers");
    if answers.None? || !answers.value.Obj? then None
    else
      var entries := answers.value.fields;
      if entries == map[] || exists id | id in entries :: !IsQuestionId(id) || !IsBoundedText(Some(entries[id]), 2000)
      then None
      else Some(map id | id in entries :: Text(Some(entries[id])))
  }

  predicate IsComplete(quiz: Quiz, answers: map<string, string>) {
    && |answers| == |quiz.questions|
    && (forall id | id in answers :: exists i | 0 <= i < |quiz.questions| :: quiz.questions[i].id == id)
    && (forall i | 0 <= i < |quiz.questions| ::
          quiz.questions[i].id in answers && Allowed(quiz.questions[i], answers[quiz.questions[i].id]))
  }

  predicate Allowed(question: Question, answer: string) {
    question.allowCustom || exists k | 0 <= k < |question.choices| :: question.choices[k].text == answer
  }

  predicate IsResponseFor(quiz: Quiz, response: ToolResponse) {
    && response.success
    && |response.contentItems| == 1
    && response.contentItems[0].inputText
    && response.contentItems[0].encoded.Some?
    && (var answers := ParseResponse(response.contentItems[0].encoded.value);
        answers.Some? && IsComplete(quiz, answers.value))
  }

  // ----- Answering -----

  /** `Object.fromEntries`: a repeated id keeps its last answer. */
  function FromEntries(answers: seq<Answer>): map<string, Value> {
    if answers == [] then map[]
    else
      var last := answers[|answers| - 1];
      var earlier := FromEntries(answers[..|answers| - 1]);
      if NonBlank(last.answer) then earlier[last.id := Str(last.answer)] else earlier
  }

  function ToToolResponse(answers: seq<Answer>): ToolResponse {
    ToolResponse(true, [Item(true, Some(Obj(map["answers" := Obj(FromEntries(answers))])))])
  }

  // ----- Exactness -----

  /** What every parsed quiz is. */
  ghost predicate WellFormed(quiz: Quiz, minimumChoices: nat) {
    && 1 <= |quiz.questions| <= 8
    && (forall i, j | 0 <= i < j < |quiz.questions| :: quiz.questions[i].id != quiz.questions[j].id)
    && WellFormedQuestions(quiz.questions, minimumChoices)
  }

  predicate WellFormedQuestions(questions: seq<Question>, minimumChoices: nat) {
    forall i | 0 <= i < |questions| :: WellFormedQuestion(questions[i], minimumChoices)
  }

  predicate WellFormedQuestion(q: Question, minimumChoices: nat) {
    && IsQuestionId(q.id) && BoundedText(q.header, 120) && BoundedText(q.question, 600)
    && minimumChoices <= |q.choices| <= 5 && BoundedChoices(q.choices)
  }

  /** A question id is a letter and up to 63 letters, digits, underscores and hyphens. */
  lemma QuestionIdExactly(id: string)
    ensures IsQuestionId(id) <==>
      && 1 <= |id| <= 64 && ('a' <= id[0] <= 'z' || 'A' <= id[0] <= 'Z')
      && forall i | 0 <= i < |id| ::
           'a' <= id[i] <= 'z' || 'A' <= id[i] <= 'Z' || (i > 0 && ('0' <= id[i] <= '9' || id[i] in "_-"))
  {
  }

  /** Property access finds the choice's texts under their own names. */
  predicate ListsChoice(value: Value, c: Choice) {
    Field(Some(value), "label") == Some(Str(c.text)) && Field(Some(value), "description") == Some(Str(c.description))
  }

  predicate ListsChoices(values: seq<Value>, choices: seq<Choice>) {
    |values| == |choices| && forall k | 0 <= k < |values| :: ListsChoice(values[k], choices[k])
  }

  predicate ListsQuestion(value: Value, q: Question) {
    var question := Some(value);
    && Field(question, "id") == Some(Str(q.id)) && Field(question, "header") == Some(Str(q.header))
    && Field(question, "question") == Some(Str(q.question)) && Field(question, "allowCustom") == Some(Bool(q.allowCustom))
    && Field(question, "choices").Some? && Field(question, "choices").value.Arr?
    && ListsChoices(Field(question, "choices").value.items, q.choices)
    && (Field(question, "isSecret") == Some(Bool(true)) <==> q.isSecret)
  }

  predicate ListsQuestions(values: seq<Value>, questions: seq<Question>) {
    |values| == |questions| && forall i | 0 <= i < |values| :: ListsQuestion(values[i], questions[i])
  }

  /** Every part of the quiz is in the value under its own name; what else the value has is free. */
  predicate ListsQuiz(value: Option<Value>, quiz: Quiz) {
    && Field(value, "questions").Some? && Field(value, "questions").value.Arr?
    && ListsQuestions(Field(value, "questions").value.items, quiz.questions)
  }

  predicate BoundedChoices(choices: seq<Choice>) {
    forall k | 0 <= k < |choices| :: BoundedText(choices[k].text, 160) && BoundedText(choices[k].description, 600)
  }

  lemma {:induction false} ChoicesExact(values: seq<Value>, choices: seq<Choice>)
    ensures ParseChoices(values) == Some(choices) <==> ListsChoices(values, choices) && BoundedChoices(choices)
  {
    if values != [] && choices != [] {
      ChoicesExact(values[1..], choices[1..]);
      ListInParts(values, choices, ListsChoice);
      assert choices == [choices[0]] + choices[1..];
      assert BoundedChoices(choices) <==> BoundedChoices([choices[0]]) && BoundedChoices(choices[1..]) by {
        assert forall k | 0 < k < |choices| :: choices[k] == choices[1..][k - 1];
      }
    }
  }

  /** Two lists agree element by element when their heads and their tails do. */
  lemma ListInParts<T>(values: seq<Value>, parts: seq<T>, lists: (Value, T) -> bool)
    requires values != [] && parts != []
    ensures (|values| == |parts| && forall i | 0 <= i < |values| :: lists(values[i], parts[i])) <==>
      && lists(values[0], parts[0])
      && |values[1..]| == |parts[1..]| && forall i | 0 <= i < |values[1..]| :: lists(values[1..][i], parts[1..][i])
  {
    assert forall i | 0 < i < |values| :: values[i] == values[1..][i - 1];
    assert forall i | 0 < i < |parts| :: parts[i] == parts[1..][i - 1];
  }

  lemma QuestionExact(value: Value, minimumChoices: nat, q: Question)
    ensures ParseQuestion(value, minimumChoices) == Some(q) <==>
      WellFormedQuestion(q, minimumChoices) && ListsQuestion(value, q)
  {
    ChoicesExact(Elements(Field(Some(value), "choices")), q.choices);
  }

  lemma {:induction false} QuestionsExact(values: seq<Value>, minimumChoices: nat, questions: seq<Question>)
    ensures ParseQuestions(values, minimumChoices) == Some(questions) <==>
      ListsQuestions(values, questions) && WellFormedQuestions(questions, minimumChoices)
  {
    if values != [] && questions != [] {
      QuestionExact(values[0], minimumChoices, questions[0]);
      QuestionsExact(values[1..], minimumChoices, questions[1..]);
      ListInParts(values, questions, ListsQuestion);
      assert questions == [questions[0]] + questions[1..];
      assert forall i | 0 < i < |questions| :: questions[i] == questions[1..][i - 1];
    }
  }

  /** As many distinct ids as questions means that no id repeats. */
  lemma {:induction false} DistinctIds(questions: seq<Question>)
    ensures |Ids(questions)| <= |questions|
    ensures |Ids(questions)| == |questions| <==>
      forall i, j | 0 <= i < j < |questions| :: questions[i].id != questions[j].id
  {
    if questions != [] {
      var n := |questions| - 1;
      DistinctIds(questions[..n]);
      assert Ids(questions) == Ids(questions[..n]) + {questions[n].id};
      if questions[n].id in Ids(questions[..n]) {
        assert Ids(questions) == Ids(questions[..n]);
      }
    }
  }

  /** The parser returns a quiz exactly when it is well formed and the value lists it. */
  lemma QuizExact(value: Option<Value>, minimumChoices: nat, quiz: Quiz)
    ensures ParseQuiz(value, minimumChoices) == Some(quiz) <==> WellFormed(quiz, minimumChoices) && ListsQuiz(value, quiz)
  {
    QuestionsExact(Elements(Field(value, "questions")), minimumChoices, quiz.questions);
    DistinctIds(quiz.questions);
  }

  lemma ParsedQuizIsWellFormed(value: Option<Value>, minimumChoices: nat)
    requires ParseQuiz(value, minimumChoices).Some?
    ensures WellFormed(ParseQuiz(value, minimumChoices).value, minimumChoices)
  {
    QuizExact(value, minimumChoices, ParseQuiz(value, minimumChoices).value);
  }

  /** The answers object holds the question ids and nothing else, each with an allowed text. */
  predicate AnswersExactly(quiz: Quiz, answers: Value) {
    && answers.Obj?
    && answers.fields.Keys == Ids(quiz.questions)
    && forall i | 0 <= i < |quiz.questions| :: Answered(quiz.questions[i], answers.fields)
  }

  predicate Answered(question: Question, fields: map<string, Value>) {
    && question.id in fields && IsBoundedText(Some(fields[question.id]), 2000)
    && (question.allowCustom
        || exists k | 0 <= k < |question.choices| :: fields[question.id] == Str(question.choices[k].text))
  }

  lemma CompleteKeys(quiz: Quiz, answers: map<string, string>)
    requires |Ids(quiz.questions)| == |quiz.questions|
    ensures IsComplete(quiz, answers) <==>
      && answers.Keys == Ids(quiz.questions)
      && forall i | 0 <= i < |quiz.questions| ::
           quiz.questions[i].id in answers && Allowed(quiz.questions[i], answers[quiz.questions[i].id])
  {
    assert |answers.Keys| == |answers|;
    if forall i | 0 <= i < |quiz.questions| :: quiz.questions[i].id in answers {
      assert Ids(quiz.questions) <= answers.Keys;
    }
    forall id | id in answers && answers.Keys == Ids(quiz.questions)
      ensures exists i | 0 <= i < |quiz.questions| :: quiz.questions[i].id == id
    {
    }
  }

  /**
    Response exactness: for every parsed quiz, a response is accepted exactly when it is successful,
    is one input text that decodes, and its answers object answers each question once, and nothing
    else, with text the question allows.
  */
  lemma ResponseExact(input: Option<Value>, minimumChoices: nat, response: ToolResponse)
    requires ParseQuiz(input, minimumChoices).Some?
    ensures var quiz := ParseQuiz(input, minimumChoices).value;
      IsResponseFor(quiz, response) <==>
      && response.success
      && (exists encoded :: response.contentItems == [Item(true, Some(encoded))] && Answers(quiz, encoded))
  {
    var quiz := ParseQuiz(input, minimumChoices).value;
    ParsedQuizIsWellFormed(input, minimumChoices);
    if |response.contentItems| == 1 && response.contentItems[0].encoded.Some? {
      DecodedExact(quiz, response.contentItems[0].encoded.value, minimumChoices);
      assert response.contentItems == [response.contentItems[0]];
    }
  }

  lemma AnswersAreAccepted(quiz: Quiz, minimumChoices: nat, fields: map<string, Value>)
    requires WellFormed(quiz, minimumChoices) && AnswersExactly(quiz, Obj(fields))
    ensures IsResponseFor(quiz, ToolResponse(true, [Item(true, Some(Obj(map["answers" := Obj(fields)])))]))
  {
    var encoded := Obj(map["answers" := Obj(fields)]);
    assert Field(Some(encoded), "answers") == Some(Obj(fields));
    DecodedExact(quiz, encoded, minimumChoices);
  }

  predicate Answers(quiz: Quiz, encoded: Value) {
    Field(Some(encoded), "answers").Some? && AnswersExactly(quiz, Field(Some(encoded), "answers").value)
  }

  lemma DecodedExact(quiz: Quiz, encoded: Value, minimumChoices: nat)
    requires WellFormed(quiz, minimumChoices)
    ensures
      (ParseResponse(encoded).Some? && IsComplete(quiz, ParseResponse(encoded).value)) <==>
      (Field(Some(encoded), "answers").Some? && AnswersExactly(quiz, Field(Some(encoded), "answers").value))
  {
    var answers := Field(Some(encoded), "answers");
    if answers.Some? && answers.value.Obj? {
      FieldsExact(quiz, answers.value.fields, ParseResponse(encoded), minimumChoices);
    }
  }

  predicate EntriesOk(fields: map<string, Value>) {
    fields != map[] && forall id | id in fields :: IsQuestionId(id) && IsBoundedText(Some(fields[id]), 2000)
  }

  lemma FieldsExact(quiz: Quiz, fields: map<string, Value>, response: Option<map<string, string>>, minimumChoices: nat)
    requires WellFormed(quiz, minimumChoices)
    requires response == if EntriesOk(fields) then Some(map id | id in fields :: Text(Some(fields[id]))) else None
    ensures (response.Some? && IsComplete(quiz, response.value)) <==> AnswersExactly(quiz, Obj(fields))
  {
    if AnswersExactly(quiz, Obj(fields)) {
      EntriesAreBounded(quiz, fields, minimumChoices);
    }
    if response.Some? {
      DistinctIds(quiz.questions);
      CompleteKeys(quiz, response.value);
      AnsweredByText(quiz, fields, response.value);
    }
  }

  /** Bounded entries answer a question as their texts do. */
  lemma AnsweredByText(quiz: Quiz, fields: map<string, Value>, texts: map<string, string>)
    requires EntriesOk(fields) && texts == map id | id in fields :: Text(Some(fields[id]))
    ensures texts.Keys == fields.Keys
    ensures forall i | 0 <= i < |quiz.questions| :: var q := quiz.questions[i];
      Answered(q, fields) <==> q.id in texts && Allowed(q, texts[q.id])
  {
    assert texts.Keys == fields.Keys;
  }

  /** An exact set of answers has nothing for the entry checks to refuse. */
  lemma EntriesAreBounded(quiz: Quiz, fields: map<string, Value>, minimumChoices: nat)
    requires WellFormed(quiz, minimumChoices) && AnswersExactly(quiz, Obj(fields))
    ensures fields != map[]
    ensures forall id | id in fields :: IsQuestionId(id) && IsBoundedText(Some(fields[id]), 2000)
  {
    assert Answered(quiz.questions[0], fields);
    forall id | id in fields ensures IsQuestionId(id) && IsBoundedText(Some(fields[id]), 2000) {
      assert id in Ids(quiz.questions);
      var i :| 0 <= i < |quiz.questions| && quiz.questions[i].id == id;
      assert WellFormedQuestion(quiz.questions[i], minimumChoices) && Answered(quiz.questions[i], fields);
    }
  }

  // ----- A full set of choices is a response -----

  /** One label picked for each question, in question order. */
  predicate Picks(quiz: Quiz, picked: seq<nat>) {
    |picked| == |quiz.questions| && forall i | 0 <= i < |picked| :: picked[i] < |quiz.questions[i].choices|
  }

  function AnswersOf(quiz: Quiz, picked: seq<nat>): seq<Answer>
    requires Picks(quiz, picked)
  {
    seq(|picked|, i requires 0 <= i < |picked| =>
      Answer(quiz.questions[i].id, quiz.questions[i].choices[picked[i]].text))
  }

  function AnswerIds(answers: seq<Answer>): set<string> {
    set i | 0 <= i < |answers| :: answers[i].id
  }

  predicate Keeps(fields: map<string, Value>, answer: Answer) {
    answer.id in fields && fields[answer.id] == Str(answer.answer)
  }

  lemma {:induction false} EntriesKeys(answers: seq<Answer>)
    requires forall i | 0 <= i < |answers| :: NonBlank(answers[i].answer)
    ensures FromEntries(answers).Keys == AnswerIds(answers)
  {
    if answers != [] {
      var n := |answers| - 1;
      EntriesKeys(answers[..n]);
      assert AnswerIds(answers) == AnswerIds(answers[..n]) + {answers[n].id};
    }
  }

  lemma {:induction false} EntryKept(answers: seq<Answer>, i: nat)
    requires i < |answers|
    requires forall k | i <= k < |answers| :: NonBlank(answers[k].answer)
    requires forall k | i < k < |answers| :: answers[i].id != answers[k].id
    ensures Keeps(FromEntries(answers), answers[i])
  {
    var n := |answers| - 1;
    if i < n {
      EntryKept(answers[..n], i);
    }
  }

  /** The response holds, for each id, its last answer that is not blank, and nothing else. */
  lemma {:induction false} LastAnswersExactly(answers: seq<Answer>, id: string)
    ensures var fields := FromEntries(answers);
      if forall i | 0 <= i < |answers| && answers[i].id == id :: !NonBlank(answers[i].answer) then id !in fields
      else exists i | 0 <= i < |answers| ::
             && answers[i].id == id && NonBlank(answers[i].answer)
             && (forall k | i < k < |answers| && answers[k].id == id :: !NonBlank(answers[k].answer))
             && id in fields && fields[id] == Str(answers[i].answer)
  {
    if answers != [] {
      var n := |answers| - 1;
      LastAnswersExactly(answers[..n], id);
      assert forall i | 0 <= i < n :: answers[..n][i] == answers[i];
      if answers[n].id == id && NonBlank(answers[n].answer) {
        assert FromEntries(answers)[id] == Str(answers[n].answer);
      } else if i :| 0 <= i < n && answers[i].id == id && NonBlank(answers[i].answer)
                     && (forall k | i < k < n && answers[k].id == id :: !NonBlank(answers[k].answer))
                     && id in FromEntries(answers[..n]) && FromEntries(answers[..n])[id] == Str(answers[i].answer) {
        assert FromEntries(answers)[id] == Str(answers[i].answer);
      }
    }
  }

  /** A tool response is that, as one text. */
  lemma ResponseCarries(answers: seq<Answer>)
    ensures var r := ToToolResponse(answers);
      r.success && |r.contentItems| == 1 && r.contentItems[0].inputText && r.contentItems[0].encoded.Some?
      && Field(r.contentItems[0].encoded, "answers") == Some(Obj(FromEntries(answers)))
  {
    assert "answers" in map["answers" := Obj(FromEntries(answers))];
  }

  lemma SameIds(quiz: Quiz, answers: seq<Answer>)
    requires |answers| == |quiz.questions|
    requires forall i | 0 <= i < |answers| :: answers[i].id == quiz.questions[i].id
    ensures AnswerIds(answers) == Ids(quiz.questions)
  {
    forall id | id in Ids(quiz.questions) ensures id in AnswerIds(answers) {
      var i :| 0 <= i < |quiz.questions| && quiz.questions[i].id == id;
      assert answers[i].id == id;
    }
  }

  lemma PickAnswers(quiz: Quiz, minimumChoices: nat, picked: seq<nat>, i: nat)
    requires WellFormed(quiz, minimumChoices) && Picks(quiz, picked) && i < |quiz.questions|
    ensures var answer := AnswersOf(quiz, picked)[i];
      answer.id == quiz.questions[i].id && BoundedText(answer.answer, 160) && Allowed(quiz.questions[i], answer.answer)
  {
    assert WellFormedQuestion(quiz.questions[i], minimumChoices);
  }

  lemma PicksAreAnswers(quiz: Quiz, minimumChoices: nat, picked: seq<nat>)
    requires WellFormed(quiz, minimumChoices) && Picks(quiz, picked)
    ensures AnswersExactly(quiz, Obj(FromEntries(AnswersOf(quiz, picked))))
  {
    var answers := AnswersOf(quiz, picked);
    var fields := FromEntries(answers);
    forall i | 0 <= i < |quiz.questions|
      ensures NonBlank(answers[i].answer) && answers[i].id == quiz.questions[i].id
    {
      PickAnswers(quiz, minimumChoices, picked, i);
    }
    EntriesKeys(answers);
    SameIds(quiz, answers);
    forall i | 0 <= i < |quiz.questions| ensures Answered(quiz.questions[i], fields) {
      PickAnswers(quiz, minimumChoices, picked, i);
      EntryKept(answers, i);
    }
  }

  /** Every choice of one label per question survives the tool response and is accepted. */
  lemma PickedLabelsAreAccepted(input: Option<Value>, minimumChoices: nat, picked: seq<nat>)
    requires ParseQuiz(input, minimumChoices).Some? && Picks(ParseQuiz(input, minimumChoices).value, picked)
    ensures var quiz := ParseQuiz(input, minimumChoices).value;
      IsResponseFor(quiz, ToToolResponse(AnswersOf(quiz, picked)))
  {
    var quiz := ParseQuiz(input, minimumChoices).value;
    ParsedQuizIsWellFormed(input, minimumChoices);
    PicksAreAnswers(quiz, minimumChoices, picked);
    AnswersAreAccepted(quiz, minimumChoices, FromEntries(AnswersOf(quiz, picked)));
  }

  // ----- Nothing of a quiz is lost -----

  function ChoiceJson(c: Choice): Value {
    Obj(map["label" := Str(c.text), "description" := Str(c.description)])
  }

  function QuestionJson(q: Question): Value {
    Obj(map["id" := Str(q.id), "header" := Str(q.header), "question" := Str(q.question),
            "choices" := Arr(seq(|q.choices|, i requires 0 <= i < |q.choices| => ChoiceJson(q.choices[i]))),
            "allowCustom" := Bool(q.allowCustom), "isSecret" := Bool(q.isSecret)])
  }

  function QuizJson(quiz: Quiz): Value {
    Obj(map["questions" := Arr(seq(|quiz.questions|, i requires 0 <= i < |quiz.questions| => QuestionJson(quiz.questions[i])))])
  }

  lemma ChoiceIsListed(c: Choice)
    ensures ListsChoice(ChoiceJson(c), c)
  {
    assert |"label"| == 5 && |"description"| == 11;
  }

  lemma QuestionJsonFields(q: Question)
    ensures var value := Some(QuestionJson(q));
      && Field(value, "id") == Some(Str(q.id)) && Field(value, "header") == Some(Str(q.header))
      && Field(value, "question") == Some(Str(q.question)) && Field(value, "allowCustom") == Some(Bool(q.allowCustom))
      && Field(value, "isSecret") == Some(Bool(q.isSecret))
      && Elements(Field(value, "choices")) == seq(|q.choices|, i requires 0 <= i < |q.choices| => ChoiceJson(q.choices[i]))
      && Field(value, "choices").Some? && Field(value, "choices").value.Arr?
  {
    assert "choices"[0] == 'c' && "header"[0] == 'h' && "isSecret"[1] == 's';
    assert |"id"| == 2 && |"header"| == 6 && |"choices"| == 7 && |"question"| == 8 && |"isSecret"| == 8 && |"allowCustom"| == 11;
    assert "question"[0] == 'q' && "isSecret"[0] == 'i';
  }

  lemma QuestionIsListed(q: Question)
    ensures ListsQuestion(QuestionJson(q), q)
  {
    QuestionJsonFields(q);
    var values := Elements(Field(Some(QuestionJson(q)), "choices"));
    forall k | 0 <= k < |values| ensures ListsChoice(values[k], q.choices[k]) {
      ChoiceIsListed(q.choices[k]);
    }
  }

  /** The parser accepts every well-formed quiz and gives it back unchanged. */
  lemma QuizRoundTrip(quiz: Quiz, minimumChoices: nat)
    requires WellFormed(quiz, minimumChoices)
    ensures ParseQuiz(Some(QuizJson(quiz)), minimumChoices) == Some(quiz)
  {
    var values := Elements(Field(Some(QuizJson(quiz)), "questions"));
    forall i | 0 <= i < |values| ensures ListsQuestion(values[i], quiz.questions[i]) {
      QuestionIsListed(quiz.questions[i]);
    }
    QuizExact(Some(QuizJson(quiz)), minimumChoices, quiz);
  }
}
