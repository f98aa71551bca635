/**
 * The validation engine: `validateFormSubmission` and its helpers, in the
 * CommonJS tree (validation/formValidation.js) and in the TypeScript tree
 * (src/validation/formValidation.ts, compiled to
 * dist/src/validation/formValidation.js). The two trees differ only in the
 * guards before the first property read and in one message, so each
 * operation takes the `Variant` it follows.
 *
 * A thrown error is a `Fail`/`Failure` carrying a `ValidationError`; the
 * first check that fails decides the error, as the first `throw` does.
 */
module FormValidation {
  import opened Wrappers
  import opened JsStrings
  import opened JsValues
  import opened EmailPattern
  import Config

  /** Which tree's validator: the CommonJS one or the TypeScript one (source and build output). */
  datatype Variant = CommonJs | TypeScript

  datatype QuestionType = Text | Email | MultipleChoice

  /** The `QuestionType` string of each type. */
  function TypeName(t: QuestionType): string {
    match t
    case Text => "text"
    case Email => "email"
    case MultipleChoice => "multiple-choice"
  }

  /** `Object.values(QuestionType).includes(type)`, returning the type it names. */
  function ParseQuestionType(v: Value): Option<QuestionType> {
    if !v.Str? then None
    else if SameString(v.s, "text") then Some(Text)
    else if SameString(v.s, "email") then Some(Email)
    else if SameString(v.s, "multiple-choice") then Some(MultipleChoice)
    else None
  }

  /** A type value is accepted exactly when it is one of the three names, and it names that type. */
  lemma ParseQuestionTypeNames(v: Value, t: QuestionType)
    ensures ParseQuestionType(v) == Some(t) <==> v == Str(TypeName(t))
  {
    if v.Str? {
      SameStringIsEquality(v.s, "text");
      SameStringIsEquality(v.s, "email");
      SameStringIsEquality(v.s, "multiple-choice");
    }
  }

  /** A question as the answer checks read it. */
  datatype Question = Question(id: string, qtype: QuestionType, title: string, required: bool, options: seq<Value>)

  datatype ValidationError =
    | PayloadRequired
    | CannotReadProperty(target: Value, name: string)
    | QuestionsNotArray
    | NoQuestions
    | TooManyQuestions(max: int)
    | QuestionNotObject
    | InvalidId
    | DuplicateId(id: string)
    | InvalidType(given: Value)
    | MissingTitle
    | MissingOptions
    | AnswersNotObject
    | UnknownQuestion(key: string)
    | RequiredUnanswered(title: string)
    | AnswerNotString(title: string)
    | AnswerTooLong(title: string)
    | InvalidEmailAnswer(title: string)
    | NotAnOption(title: string)
    | RequiredMissing(title: string)
    | InvalidEmail

  /** The message each error carries; `CannotReadProperty` is the engine's own TypeError. */
  function Message(e: ValidationError): string {
    match e
    case PayloadRequired => "Submission payload is required"
    case CannotReadProperty(target, name) =>
      "Cannot read properties of " + ToJsString(target) + " (reading '" + name + "')"
    case QuestionsNotArray => "Questions must be an array"
    case NoQuestions => "At least one question is required"
    case TooManyQuestions(max) => "Maximum " + IntToString(max) + " questions allowed"
    case QuestionNotObject => "Each question must be an object"
    case InvalidId => "Each question must have a valid id"
    case DuplicateId(id) => "Duplicate question id: " + id
    case InvalidType(given) => "Invalid question type: " + ToJsString(given)
    case MissingTitle => "Each question must have a title"
    case MissingOptions => "Multiple choice questions must have options"
    case AnswersNotObject => "Answers must be an object"
    case UnknownQuestion(key) => "Answer provided for unknown question: " + key
    case RequiredUnanswered(title) => "Required question '" + title + "' must be answered"
    case AnswerNotString(title) => "Answer for '" + title + "' must be a string"
    case AnswerTooLong(title) => "Answer for '" + title + "' is too long"
    case InvalidEmailAnswer(title) => "Answer for '" + title + "' must be a valid email"
    case NotAnOption(title) => "Answer for '" + title + "' must be one of the provided options"
    case RequiredMissing(title) => "Required question '" + title + "' is missing"
    case InvalidEmail => "Invalid email format"
  }

  // ---------------------------------------------------------------------
  // Questions
  // ---------------------------------------------------------------------

  /** `!v || typeof v !== 'string'` negated. */
  predicate IsNonEmptyString(v: Value) {
    v.Str? && v.s != ""
  }

  lemma NotAnIndex()
    ensures !IsDigits("id") && !IsDigits("type") && !IsDigits("title") && !IsDigits("options")
    ensures !IsDigits("questions") && !IsDigits("answers") && !IsDigits("userEmail") && !IsDigits("required")
  {
    assert !IsDigit("id"[0]) && !IsDigit("type"[0]) && !IsDigit("title"[0]) && !IsDigit("options"[0]);
    assert !IsDigit("questions"[0]) && !IsDigit("answers"[0]) && !IsDigit("userEmail"[0]) && !IsDigit("required"[0]);
  }

  /**
   * A question together with the properties the validator reads from it:
   * `id`, `type`, `title`, `options` and `required`.
   */
  datatype QuestionView = QuestionView(question: Value, id: Value, qtype: Value, title: Value, options: Value, required: Value)

  /** A primitive question has none of the properties the validator reads. */
  predicate Consistent(v: QuestionView) {
    !IsObject(v.question) ==>
      v.id == Undefined && v.qtype == Undefined && v.title == Undefined && v.options == Undefined && v.required == Undefined
  }

  /** The properties read from `q`. */
  function View(q: Value): (v: QuestionView)
    ensures v.question == q && Consistent(v)
  {
    NotAnIndex();
    QuestionView(q, Prop(q, "id"), Prop(q, "type"), Prop(q, "title"), Prop(q, "options"), Prop(q, "required"))
  }

  /** The views of a list of questions, one per question. */
  function Views(qs: seq<Value>): (vs: seq<QuestionView>)
    ensures |vs| == |qs|
    ensures forall i :: 0 <= i < |qs| ==> vs[i].question == qs[i] && Consistent(vs[i])
  {
    if |qs| == 0 then [] else Views(qs[..|qs| - 1]) + [View(qs[|qs| - 1])]
  }

  lemma {:induction false} ViewsAt(qs: seq<Value>, i: nat)
    requires i < |qs|
    ensures Views(qs)[i] == View(qs[i])
  {
    if i < |qs| - 1 {
      ViewsAt(qs[..|qs| - 1], i);
    }
  }

  /** What one question must look like to be accepted, whatever its position and the tree. */
  predicate ShapeOk(v: QuestionView) {
    && IsObject(v.question)
    && IsNonEmptyString(v.id)
    && ParseQuestionType(v.qtype).Some?
    && IsNonEmptyString(v.title)
    && (ParseQuestionType(v.qtype) == Some(MultipleChoice) ==> v.options.Arr? && |v.options.items| > 0)
  }

  function IdOf(v: QuestionView): string {
    if v.id.Str? then v.id.s else ""
  }

  /** The question as the answer checks read it. */
  function ToQuestion(v: QuestionView): Question {
    Question(IdOf(v),
             match ParseQuestionType(v.qtype) case Some(t) => t case None => Text,
             if v.title.Str? then v.title.s else "",
             Truthy(v.required),
             if v.options.Arr? then v.options.items else [])
  }

  function Parsed(vs: seq<QuestionView>): (r: seq<Question>)
    ensures |r| == |vs|
  {
    seq(|vs|, i requires 0 <= i < |vs| => ToQuestion(vs[i]))
  }

  predicate DistinctIds(vs: seq<QuestionView>) {
    forall i, j :: 0 <= i < j < |vs| ==> IdOf(vs[i]) != IdOf(vs[j])
  }

  function IdSet(parsed: seq<Question>): set<string> {
    set q | q in parsed :: q.id
  }

  /**
   * The checks of one loop iteration over `questions`, given the ids seen
   * before it. The TypeScript tree has no object check, so a `null` or
   * `undefined` question fails on reading its `id`.
   */
  function CheckQuestion(variant: Variant, v: QuestionView, seen: set<string>): Result<Question, ValidationError> {
    if variant == CommonJs && !IsObject(v.question) then Failure(QuestionNotObject)
    else if v.question.Undefined? || v.question.Null? then Failure(CannotReadProperty(v.question, "id"))
    else if !IsNonEmptyString(v.id) then Failure(InvalidId)
    else if v.id.s in seen then Failure(DuplicateId(v.id.s))
    else match ParseQuestionType(v.qtype)
      case None => Failure(InvalidType(v.qtype))
      case Some(t) =>
        if !IsNonEmptyString(v.title) then Failure(MissingTitle)
        else if t == MultipleChoice && !(v.options.Arr? && |v.options.items| > 0) then Failure(MissingOptions)
        else Success(ToQuestion(v))
  }

  /**
   * One question passes exactly when it is well shaped and its id is new;
   * it then reads as `ToQuestion`. A well-shaped question with a seen id is
   * reported as a duplicate of that id, and only such a question is.
   */
  lemma CheckQuestionMeaning(variant: Variant, v: QuestionView, seen: set<string>)
    ensures Consistent(v) ==> (CheckQuestion(variant, v, seen).Success? <==> ShapeOk(v) && IdOf(v) !in seen)
    ensures CheckQuestion(variant, v, seen).Success? ==> CheckQuestion(variant, v, seen).value == ToQuestion(v)
    ensures ShapeOk(v) && IdOf(v) in seen ==> CheckQuestion(variant, v, seen) == Failure(DuplicateId(IdOf(v)))
    ensures CheckQuestion(variant, v, seen).Failure? && CheckQuestion(variant, v, seen).error.DuplicateId? ==>
      CheckQuestion(variant, v, seen).error.id == IdOf(v) && IdOf(v) in seen
  {
  }

  /** The loop over the first `n` questions: the first failing question decides. */
  function CheckQuestionsUpTo(variant: Variant, vs: seq<QuestionView>, n: nat): (r: Result<seq<Question>, ValidationError>)
    requires n <= |vs|
  {
    if n == 0 then Success([])
    else match CheckQuestionsUpTo(variant, vs, n - 1)
      case Failure(e) => Failure(e)
      case Success(parsed) =>
        match CheckQuestion(variant, vs[n - 1], IdSet(parsed))
        case Failure(e) => Failure(e)
        case Success(q) => Success(parsed + [q])
  }

  /** `validateQuestions(questions)`, returning the questions as the later checks read them. */
  function QuestionsSpec(variant: Variant, questions: Value, limits: Config.Limits): Result<seq<Question>, ValidationError> {
    if !questions.Arr? then Failure(QuestionsNotArray)
    else if |questions.items| == 0 then Failure(NoQuestions)
    else if |questions.items| > limits.maxQuestionnaireLength then Failure(TooManyQuestions(limits.maxQuestionnaireLength))
    else CheckQuestionsUpTo(variant, Views(questions.items), |questions.items|)
  }

  /** What an accepted question list looks like, stated without the loop. */
  predicate QuestionsOk(questions: Value, limits: Config.Limits) {
    && questions.Arr?
    && 0 < |questions.items| <= limits.maxQuestionnaireLength
    && (forall v :: v in Views(questions.items) ==> ShapeOk(v))
    && DistinctIds(Views(questions.items))
  }

  lemma {:induction false} FailureSticks(variant: Variant, vs: seq<QuestionView>, m: nat, n: nat)
    requires m <= n <= |vs| && CheckQuestionsUpTo(variant, vs, m).Failure?
    ensures CheckQuestionsUpTo(variant, vs, n) == CheckQuestionsUpTo(variant, vs, m)
    decreases n
  {
    if m < n {
      FailureSticks(variant, vs, m, n - 1);
    }
  }

  /** The ids seen after some questions are exactly theirs. */
  lemma IdSetOfParsed(vs: seq<QuestionView>)
    ensures forall x :: x in IdSet(Parsed(vs)) <==> exists i :: 0 <= i < |vs| && IdOf(vs[i]) == x
  {
    var parsed := Parsed(vs);
    forall x | x in IdSet(parsed) ensures exists i :: 0 <= i < |vs| && IdOf(vs[i]) == x {
      var q :| q in parsed && q.id == x;
      var i :| 0 <= i < |parsed| && parsed[i] == q;
      assert IdOf(vs[i]) == x;
    }
    forall x | exists i :: 0 <= i < |vs| && IdOf(vs[i]) == x ensures x in IdSet(parsed) {
      var i :| 0 <= i < |vs| && IdOf(vs[i]) == x;
      assert parsed[i] in parsed;
    }
  }

  /** Appending one question keeps the ids distinct exactly when its id is new. */
  lemma DistinctIdsSnoc(prefix: seq<QuestionView>, v: QuestionView)
    ensures DistinctIds(prefix + [v]) <==>
      DistinctIds(prefix) && forall i :: 0 <= i < |prefix| ==> IdOf(prefix[i]) != IdOf(v)
  {
    var all := prefix + [v];
    assert forall i :: 0 <= i < |prefix| ==> all[i] == prefix[i];
    assert all[|prefix|] == v;
  }

  /** What the loop returns when it succeeds: the questions it read, in order. */
  lemma {:induction false} CheckQuestionsUpToValue(variant: Variant, vs: seq<QuestionView>, n: nat)
    requires n <= |vs| && CheckQuestionsUpTo(variant, vs, n).Success?
    ensures CheckQuestionsUpTo(variant, vs, n).value == Parsed(vs[..n])
  {
    if n > 0 {
      CheckQuestionsUpToValue(variant, vs, n - 1);
      var r := CheckQuestionsUpTo(variant, vs, n - 1);
      var c := CheckQuestion(variant, vs[n - 1], IdSet(r.value));
      CheckQuestionMeaning(variant, vs[n - 1], IdSet(r.value));
      assert Parsed(vs[..n]) == r.value + [c.value];
    }
  }

  /** The loop accepts exactly the well-shaped questions with pairwise distinct ids. */
  lemma {:induction false} CheckQuestionsUpToIff(variant: Variant, vs: seq<QuestionView>, n: nat)
    requires n <= |vs|
    requires forall i :: 0 <= i < |vs| ==> Consistent(vs[i])
    ensures CheckQuestionsUpTo(variant, vs, n).Success? <==>
      (forall i :: 0 <= i < n ==> ShapeOk(vs[i])) && DistinctIds(vs[..n])
  {
    if n > 0 {
      CheckQuestionsUpToIff(variant, vs, n - 1);
      var prefix := vs[..n - 1];
      assert vs[..n] == prefix + [vs[n - 1]];
      DistinctIdsSnoc(prefix, vs[n - 1]);
      var r := CheckQuestionsUpTo(variant, vs, n - 1);
      if r.Success? {
        CheckQuestionsUpToValue(variant, vs, n - 1);
        IdSetOfParsed(prefix);
        CheckQuestionMeaning(variant, vs[n - 1], IdSet(r.value));
      }
    }
  }

  /**
   * How the question loop fails: a duplicate-id error names an id that two
   * questions share, and when every question is well shaped the loop can only
   * fail on a duplicate id.
   */
  lemma {:induction false} CheckQuestionsUpToFailure(variant: Variant, vs: seq<QuestionView>, n: nat)
    requires n <= |vs| && CheckQuestionsUpTo(variant, vs, n).Failure?
    requires forall i :: 0 <= i < |vs| ==> Consistent(vs[i])
    ensures CheckQuestionsUpTo(variant, vs, n).error.DuplicateId? ==>
      exists i, j :: 0 <= i < j < n && IdOf(vs[i]) == CheckQuestionsUpTo(variant, vs, n).error.id
                                    && IdOf(vs[j]) == CheckQuestionsUpTo(variant, vs, n).error.id
    ensures (forall i :: 0 <= i < n ==> ShapeOk(vs[i])) ==>
      CheckQuestionsUpTo(variant, vs, n).error.DuplicateId?
  {
    var r := CheckQuestionsUpTo(variant, vs, n - 1);
    if r.Failure? {
      CheckQuestionsUpToFailure(variant, vs, n - 1);
    } else {
      CheckQuestionsUpToValue(variant, vs, n - 1);
      IdSetOfParsed(vs[..n - 1]);
      CheckQuestionMeaning(variant, vs[n - 1], IdSet(r.value));
      var e := CheckQuestion(variant, vs[n - 1], IdSet(r.value)).error;
      if e.DuplicateId? {
        var i :| 0 <= i < n - 1 && IdOf(vs[..n - 1][i]) == e.id;
        assert IdOf(vs[i]) == e.id && IdOf(vs[n - 1]) == e.id;
      }
    }
  }

  /** `validateQuestions` accepts exactly the lists `QuestionsOk` describes. */
  lemma QuestionsAccepted(variant: Variant, questions: Value, limits: Config.Limits)
    ensures QuestionsSpec(variant, questions, limits).Success? <==> QuestionsOk(questions, limits)
    ensures QuestionsSpec(variant, questions, limits).Success? ==>
      QuestionsSpec(variant, questions, limits).value == Parsed(Views(questions.items))
  {
    if questions.Arr? {
      var vs := Views(questions.items);
      CheckQuestionsUpToIff(variant, vs, |vs|);
      if CheckQuestionsUpTo(variant, vs, |vs|).Success? {
        CheckQuestionsUpToValue(variant, vs, |vs|);
      }
      assert vs[..|vs|] == vs;
    }
  }

  /**
   * Among well-shaped questions within the size bounds, the list is refused
   * exactly when two questions share an id, and the error names that id.
   */
  lemma DuplicateIdsRejected(variant: Variant, questions: Value, limits: Config.Limits)
    requires questions.Arr? && 0 < |questions.items| <= limits.maxQuestionnaireLength
    requires forall v :: v in Views(questions.items) ==> ShapeOk(v)
    ensures QuestionsSpec(variant, questions, limits).Failure? <==> !DistinctIds(Views(questions.items))
    ensures QuestionsSpec(variant, questions, limits).Failure? ==>
      var e := QuestionsSpec(variant, questions, limits).error;
      e.DuplicateId? && (exists i, j :: 0 <= i < j < |questions.items| &&
                           IdOf(Views(questions.items)[i]) == e.id && IdOf(Views(questions.items)[j]) == e.id)
  {
    var vs := Views(questions.items);
    QuestionsAccepted(variant, questions, limits);
    if CheckQuestionsUpTo(variant, vs, |vs|).Failure? {
      CheckQuestionsUpToFailure(variant, vs, |vs|);
      var e := CheckQuestionsUpTo(variant, vs, |vs|).error;
    }
  }

  lemma IdSetSnoc(parsed: seq<Question>, q: Question)
    ensures IdSet(parsed + [q]) == IdSet(parsed) + {q.id}
  {
    var all := parsed + [q];
    forall x | x in IdSet(all) ensures x in IdSet(parsed) + {q.id} {
      var p :| p in all && p.id == x;
      if p != q {
        assert p in parsed;
      }
    }
    forall x | x in IdSet(parsed) ensures x in IdSet(all) {
      var p :| p in parsed && p.id == x;
      assert p in all;
    }
    assert q in all;
  }

  /** One iteration of the question loop: a failing question decides the outcome, a passing one extends it. */
  lemma QuestionsLoopStep(variant: Variant, vs: seq<QuestionView>, i: nat, parsed: seq<Question>)
    requires i < |vs|
    requires CheckQuestionsUpTo(variant, vs, i) == Success(parsed)
    ensures var c := CheckQuestion(variant, vs[i], IdSet(parsed));
      && (c.Failure? ==> CheckQuestionsUpTo(variant, vs, |vs|) == Failure(c.error))
      && (c.Success? ==> CheckQuestionsUpTo(variant, vs, i + 1) == Success(parsed + [c.value]))
  {
    if CheckQuestion(variant, vs[i], IdSet(parsed)).Failure? {
      FailureSticks(variant, vs, i + 1, |vs|);
    }
  }

  /** The body of the loop in `validateQuestions`, for one question and the ids seen before it. */
  method CheckOneQuestion(variant: Variant, q: QuestionView, ids: set<string>)
    returns (r: Result<Question, ValidationError>)
    ensures r == CheckQuestion(variant, q, ids)
  {
    if variant == CommonJs && !IsObject(q.question) {
      return Failure(QuestionNotObject);
    }
    if q.question.Undefined? || q.question.Null? {
      return Failure(CannotReadProperty(q.question, "id"));
    }
    if !IsNonEmptyString(q.id) {
      return Failure(InvalidId);
    }
    if q.id.s in ids {
      return Failure(DuplicateId(q.id.s));
    }
    var t := ParseQuestionType(q.qtype);
    if t.None? {
      return Failure(InvalidType(q.qtype));
    }
    if !IsNonEmptyString(q.title) {
      return Failure(MissingTitle);
    }
    if t.value == MultipleChoice && !(q.options.Arr? && |q.options.items| > 0) {
      return Failure(MissingOptions);
    }
    return Success(ToQuestion(q));
  }

  /** The loop of `validateQuestions`, growing the set of seen ids. */
  method CheckEachQuestion(variant: Variant, vs: seq<QuestionView>) returns (r: Result<seq<Question>, ValidationError>)
    ensures r == CheckQuestionsUpTo(variant, vs, |vs|)
  {
    var ids: set<string> := {};
    var parsed: seq<Question> := [];
    var i := 0;
    while i < |vs|
      invariant 0 <= i <= |vs|
      invariant CheckQuestionsUpTo(variant, vs, i) == Success(parsed)
      invariant ids == IdSet(parsed)
    {
      QuestionsLoopStep(variant, vs, i, parsed);
      var checked := CheckOneQuestion(variant, vs[i], ids);
      if checked.Failure? {
        return Failure(checked.error);
      }
      IdSetSnoc(parsed, checked.value);
      ids := ids + {checked.value.id};
      parsed := parsed + [checked.value];
      i := i + 1;
    }
    return Success(parsed);
  }

  /** `validateQuestions(questions)`: the three list checks, then the loop. */
  method ValidateQuestions(variant: Variant, questions: Value, limits: Config.Limits)
    returns (r: Result<seq<Question>, ValidationError>)
    ensures r == QuestionsSpec(variant, questions, limits)
  {
    if !questions.Arr? {
      return Failure(QuestionsNotArray);
    }
    if |questions.items| == 0 {
      return Failure(NoQuestions);
    }
    if |questions.items| > limits.maxQuestionnaireLength {
      return Failure(TooManyQuestions(limits.maxQuestionnaireLength));
    }
    r := CheckEachQuestion(variant, Views(questions.items));
  }

  // ---------------------------------------------------------------------
  // Answers
  // ---------------------------------------------------------------------

  /** `questionMap.get(id)`: the Map built from the questions keeps the last one with that id. */
  function FindQuestion(qs: seq<Question>, id: string): (r: Option<Question>)
    ensures r.Some? ==> r.value in qs && r.value.id == id
    ensures r.None? <==> forall i :: 0 <= i < |qs| ==> qs[i].id != id
  {
    if |qs| == 0 then None
    else if qs[|qs| - 1].id == id then Some(qs[|qs| - 1])
    else FindQuestion(qs[..|qs| - 1], id)
  }

  /** With distinct ids, the lookup finds the one question with that id. */
  lemma {:induction false} FindQuestionDistinct(qs: seq<Question>, k: nat)
    requires k < |qs|
    requires forall i, j :: 0 <= i < j < |qs| ==> qs[i].id != qs[j].id
    ensures FindQuestion(qs, qs[k].id) == Some(qs[k])
  {
    if k < |qs| - 1 {
      FindQuestionDistinct(qs[..|qs| - 1], k);
    }
  }

  /** The rule a non-empty answer must meet for its question's type, whatever the tree. */
  predicate TypeRuleHolds(q: Question, answer: Value, maxAnswerLength: int) {
    answer.Str? &&
    match q.qtype
    case Text => Utf16Length(answer.s) <= maxAnswerLength
    case Email => IsEmail(answer.s)
    case MultipleChoice => answer in q.options
  }

  /**
   * `validateAnswerByType(question, answer)`. The CommonJS tree reports a
   * non-string e-mail answer as an invalid e-mail, the TypeScript tree as a
   * non-string.
   */
  function CheckAnswerByType(variant: Variant, q: Question, answer: Value, maxAnswerLength: int): (r: Outcome<ValidationError>)
    ensures r.Pass? <==> TypeRuleHolds(q, answer, maxAnswerLength)
    ensures r.Fail? ==> r.error in {AnswerNotString(q.title), AnswerTooLong(q.title),
                                    InvalidEmailAnswer(q.title), NotAnOption(q.title)}
    ensures !answer.Str? && (q.qtype != Email || variant == TypeScript) ==> r == Fail(AnswerNotString(q.title))
  {
    match q.qtype
    case Text =>
      if !answer.Str? then Fail(AnswerNotString(q.title))
      else if Utf16Length(answer.s) > maxAnswerLength then Fail(AnswerTooLong(q.title))
      else Pass
    case Email =>
      if variant == TypeScript && !answer.Str? then Fail(AnswerNotString(q.title))
      else if !answer.Str? || !IsEmail(answer.s) then Fail(InvalidEmailAnswer(q.title))
      else Pass
    case MultipleChoice =>
      if !answer.Str? then Fail(AnswerNotString(q.title))
      else if answer !in q.options then Fail(NotAnOption(q.title))
      else Pass
  }

  /** What one answer must satisfy: an empty one only for an optional question. */
  predicate AnswerAcceptable(q: Question, answer: Value, maxAnswerLength: int) {
    if IsEmptyAnswer(answer) then !q.required else TypeRuleHolds(q, answer, maxAnswerLength)
  }

  /** One iteration of the loop over `Object.entries(answers)`. */
  function CheckEntry(variant: Variant, key: string, answer: Value, qs: seq<Question>, maxAnswerLength: int): (r: Outcome<ValidationError>)
    ensures r.Pass? <==> FindQuestion(qs, key).Some? && AnswerAcceptable(FindQuestion(qs, key).value, answer, maxAnswerLength)
    ensures r == Fail(UnknownQuestion(key)) <==> FindQuestion(qs, key).None?
    ensures r.Fail? && r.error.UnknownQuestion? ==> r == Fail(UnknownQuestion(key))
  {
    match FindQuestion(qs, key)
    case None => Fail(UnknownQuestion(key))
    case Some(q) =>
      if q.required && IsEmptyAnswer(answer) then Fail(RequiredUnanswered(q.title))
      else if IsEmptyAnswer(answer) then Pass
      else CheckAnswerByType(variant, q, answer, maxAnswerLength)
  }

  /** The first failure in a run of checks, or `Pass`. */
  function FirstFail<E(==)>(os: seq<Outcome<E>>): (r: Outcome<E>)
    ensures r.Pass? <==> forall i :: 0 <= i < |os| ==> os[i].Pass?
    ensures r.Fail? ==> exists i :: 0 <= i < |os| && os[i] == r && forall j :: 0 <= j < i ==> os[j].Pass?
  {
    if |os| == 0 then Pass
    else if os[0].Fail? then os[0]
    else
      var rest := FirstFail(os[1..]);
      assert rest.Fail? ==> exists i :: 0 <= i < |os[1..]| && os[1..][i] == rest && forall j :: 0 <= j < i ==> os[1..][j].Pass?;
      if rest.Fail? then
        var i :| 0 <= i < |os[1..]| && os[1..][i] == rest && forall j :: 0 <= j < i ==> os[1..][j].Pass?;
        assert os[i + 1] == rest && forall j :: 0 <= j < i + 1 ==> os[j].Pass?;
        rest
      else rest
  }

  /** After a run of passes, the next failure is the first one. */
  lemma {:induction false} FirstFailAt<E>(os: seq<Outcome<E>>, i: nat)
    requires i < |os| && os[i].Fail?
    requires forall j :: 0 <= j < i ==> os[j].Pass?
    ensures FirstFail(os) == os[i]
  {
    if i > 0 {
      FirstFailAt(os[1..], i - 1);
    }
  }

  function EntryOutcomes(variant: Variant, entries: seq<(string, Value)>, qs: seq<Question>, maxAnswerLength: int): (os: seq<Outcome<ValidationError>>)
    ensures |os| == |entries|
  {
    seq(|entries|, i requires 0 <= i < |entries| => CheckEntry(variant, entries[i].0, entries[i].1, qs, maxAnswerLength))
  }

  /** The second loop: each required question's id must be `in` the answers. */
  function RequiredOutcomes(qs: seq<Question>, answers: Value): (os: seq<Outcome<ValidationError>>)
    requires IsObject(answers)
    ensures |os| == |qs|
  {
    seq(|qs|, i requires 0 <= i < |qs| =>
      if qs[i].required && !HasProperty(answers, qs[i].id) then Fail(RequiredMissing(qs[i].title)) else Pass)
  }

  /** `validateAnswers(answers, questions)`. */
  function AnswersSpec(variant: Variant, answers: Value, qs: seq<Question>, maxAnswerLength: int): Outcome<ValidationError> {
    if !IsObject(answers) then Fail(AnswersNotObject)
    else match FirstFail(EntryOutcomes(variant, OwnEntries(answers), qs, maxAnswerLength))
      case Fail(e) => Fail(e)
      case Pass => FirstFail(RequiredOutcomes(qs, answers))
  }

  /** What accepted answers look like, stated without the loops. */
  predicate AnswersOk(answers: Value, qs: seq<Question>, maxAnswerLength: int) {
    && IsObject(answers)
    && (forall i :: 0 <= i < |OwnEntries(answers)| ==>
          FindQuestion(qs, OwnEntries(answers)[i].0).Some? &&
          AnswerAcceptable(FindQuestion(qs, OwnEntries(answers)[i].0).value, OwnEntries(answers)[i].1, maxAnswerLength))
    && (forall i :: 0 <= i < |qs| && qs[i].required ==> HasProperty(answers, qs[i].id))
  }

  /** `validateAnswers` accepts exactly the answers `AnswersOk` describes. */
  lemma AnswersAccepted(variant: Variant, answers: Value, qs: seq<Question>, maxAnswerLength: int)
    ensures AnswersSpec(variant, answers, qs, maxAnswerLength) == Pass <==> AnswersOk(answers, qs, maxAnswerLength)
  {
    if IsObject(answers) {
      var es := OwnEntries(answers);
      var os := EntryOutcomes(variant, es, qs, maxAnswerLength);
      assert forall i :: 0 <= i < |es| ==> os[i] == CheckEntry(variant, es[i].0, es[i].1, qs, maxAnswerLength);
      var rs := RequiredOutcomes(qs, answers);
      assert forall i :: 0 <= i < |qs| ==> (rs[i].Pass? <==> !(qs[i].required && !HasProperty(answers, qs[i].id)));
    }
  }

  /** An answer keyed by an id no question has is refused, and the refusal names a key without a question. */
  lemma UnknownKeyRejected(variant: Variant, answers: Value, qs: seq<Question>, maxAnswerLength: int, k: nat)
    requires IsObject(answers) && k < |OwnEntries(answers)|
    requires forall i :: 0 <= i < |qs| ==> qs[i].id != OwnEntries(answers)[k].0
    ensures AnswersSpec(variant, answers, qs, maxAnswerLength).Fail?
  {
    var es := OwnEntries(answers);
    var os := EntryOutcomes(variant, es, qs, maxAnswerLength);
    assert os[k] == CheckEntry(variant, es[k].0, es[k].1, qs, maxAnswerLength);
  }

  /** An `Unknown question ID` error names an answer key that no question has. */
  lemma UnknownQuestionNamesAnAnswer(variant: Variant, answers: Value, qs: seq<Question>, maxAnswerLength: int, key: string)
    requires AnswersSpec(variant, answers, qs, maxAnswerLength) == Fail(UnknownQuestion(key))
    ensures exists i :: 0 <= i < |OwnEntries(answers)| && OwnEntries(answers)[i].0 == key
    ensures FindQuestion(qs, key).None?
  {
    var es := OwnEntries(answers);
    var os := EntryOutcomes(variant, es, qs, maxAnswerLength);
    var r := FirstFail(os);
    if r.Pass? {
      assert false;
    }
    var i :| 0 <= i < |os| && os[i] == r && forall j :: 0 <= j < i ==> os[j].Pass?;
    assert os[i] == CheckEntry(variant, es[i].0, es[i].1, qs, maxAnswerLength);
  }

  /**
   * A required question fails validation both when its answer is present but
   * empty (`undefined`, `null` or `''`) and when its id is absent, with
   * different messages; whichever failure comes first is reported.
   */
  lemma RequiredQuestionNeedsAnswer(variant: Variant, answers: Value, qs: seq<Question>, maxAnswerLength: int, k: nat)
    requires IsObject(answers) && k < |qs| && qs[k].required
    requires forall i, j :: 0 <= i < j < |qs| ==> qs[i].id != qs[j].id
    requires !HasProperty(answers, qs[k].id) ||
             exists i :: 0 <= i < |OwnEntries(answers)| && OwnEntries(answers)[i].0 == qs[k].id && IsEmptyAnswer(OwnEntries(answers)[i].1)
    ensures AnswersSpec(variant, answers, qs, maxAnswerLength).Fail?
  {
    FindQuestionDistinct(qs, k);
    AnswersAccepted(variant, answers, qs, maxAnswerLength);
  }

  /** Answers that satisfy every rule of their questions pass. */
  lemma ValidAnswersPass(variant: Variant, fields: seq<(string, Value)>, qs: seq<Question>, maxAnswerLength: int)
    requires forall i, j :: 0 <= i < j < |qs| ==> qs[i].id != qs[j].id
    requires forall i :: 0 <= i < |fields| ==> exists k :: 0 <= k < |qs| && qs[k].id == fields[i].0 && AnswerAcceptable(qs[k], fields[i].1, maxAnswerLength)
    requires forall k :: 0 <= k < |qs| && qs[k].required ==> exists i :: 0 <= i < |fields| && fields[i].0 == qs[k].id
    ensures AnswersSpec(variant, Obj(fields), qs, maxAnswerLength) == Pass
  {
    var answers := Obj(fields);
    forall i | 0 <= i < |fields|
      ensures FindQuestion(qs, fields[i].0).Some? && AnswerAcceptable(FindQuestion(qs, fields[i].0).value, fields[i].1, maxAnswerLength)
    {
      var k :| 0 <= k < |qs| && qs[k].id == fields[i].0 && AnswerAcceptable(qs[k], fields[i].1, maxAnswerLength);
      FindQuestionDistinct(qs, k);
    }
    forall k | 0 <= k < |qs| && qs[k].required ensures HasProperty(answers, qs[k].id) {
      var i :| 0 <= i < |fields| && fields[i].0 == qs[k].id;
      assert OwnKeys(answers)[i] == qs[k].id;
    }
    AnswersAccepted(variant, answers, qs, maxAnswerLength);
  }

  /** `validateAnswers(answers, questions)`: the loop over the entries, then the loop over the questions. */
  method ValidateAnswers(variant: Variant, answers: Value, qs: seq<Question>, maxAnswerLength: int)
    returns (r: Outcome<ValidationError>)
    ensures r == AnswersSpec(variant, answers, qs, maxAnswerLength)
  {
    if !IsObject(answers) {
      return Fail(AnswersNotObject);
    }
    var entries := OwnEntries(answers);
    ghost var checks := EntryOutcomes(variant, entries, qs, maxAnswerLength);
    var i := 0;
    while i < |entries|
      invariant 0 <= i <= |entries|
      invariant forall j :: 0 <= j < i ==> checks[j].Pass?
    {
      var (key, answer) := entries[i];
      var question := FindQuestion(qs, key);
      if question.None? {
        FirstFailAt(checks, i);
        return Fail(UnknownQuestion(key));
      }
      var q := question.value;
      if q.required && IsEmptyAnswer(answer) {
        FirstFailAt(checks, i);
        return Fail(RequiredUnanswered(q.title));
      }
      if !IsEmptyAnswer(answer) {
        var typeCheck := CheckAnswerByType(variant, q, answer, maxAnswerLength);
        if typeCheck.Fail? {
          FirstFailAt(checks, i);
          return typeCheck;
        }
      }
      i := i + 1;
    }
    ghost var required := RequiredOutcomes(qs, answers);
    var k := 0;
    while k < |qs|
      invariant 0 <= k <= |qs|
      invariant forall j :: 0 <= j < k ==> required[j].Pass?
    {
      if qs[k].required && !HasProperty(answers, qs[k].id) {
        FirstFailAt(required, k);
        return Fail(RequiredMissing(qs[k].title));
      }
      k := k + 1;
    }
    return Pass;
  }

  // ---------------------------------------------------------------------
  // The submission
  // ---------------------------------------------------------------------

  /** `validateEmailIfPresent(email)`: a truthy e-mail, as a string, must match the pattern. */
  function EmailIfPresent(email: Value): (r: Outcome<ValidationError>)
    ensures r.Pass? <==> !Truthy(email) || IsEmail(ToJsString(email))
    ensures r.Fail? ==> r.error == InvalidEmail
  {
    if Truthy(email) && !IsEmail(ToJsString(email)) then Fail(InvalidEmail) else Pass
  }

  /**
   * The questions value each tree validates: the CommonJS tree substitutes
   * `[]` for a falsy `questions`; the TypeScript tree reads it as it is.
   */
  function QuestionsOf(variant: Variant, payload: Value): Value {
    var questions := Prop(payload, "questions");
    if variant == CommonJs && !Truthy(questions) then Arr([]) else questions
  }

  /**
   * `validateFormSubmission(submission)`. The CommonJS tree first requires an
   * object; the TypeScript tree throws a TypeError reading `questions` of
   * `null` or `undefined`.
   */
  function ValidateSpec(variant: Variant, payload: Value, limits: Config.Limits): Outcome<ValidationError> {
    if variant == CommonJs && !IsObject(payload) then Fail(PayloadRequired)
    else if payload.Undefined? || payload.Null? then Fail(CannotReadProperty(payload, "questions"))
    else match QuestionsSpec(variant, QuestionsOf(variant, payload), limits)
      case Failure(e) => Fail(e)
      case Success(qs) =>
        match AnswersSpec(variant, Prop(payload, "answers"), qs, limits.maxAnswerLength)
        case Fail(e) => Fail(e)
        case Pass => EmailIfPresent(Prop(payload, "userEmail"))
  }

  /** What an accepted submission looks like, stated once for both trees. */
  predicate SubmissionOk(payload: Value, limits: Config.Limits) {
    var questions := Prop(payload, "questions");
    && IsObject(payload)
    && QuestionsOk(questions, limits)
    && AnswersOk(Prop(payload, "answers"), Parsed(Views(questions.items)), limits.maxAnswerLength)
    && (!Truthy(Prop(payload, "userEmail")) || IsEmail(ToJsString(Prop(payload, "userEmail"))))
  }

  /** Each tree accepts exactly the submissions `SubmissionOk` describes. */
  lemma SubmissionAccepted(variant: Variant, payload: Value, limits: Config.Limits)
    ensures ValidateSpec(variant, payload, limits) == Pass <==> SubmissionOk(payload, limits)
  {
    NotAnIndex();
    var questions := QuestionsOf(variant, payload);
    QuestionsAccepted(variant, questions, limits);
    if QuestionsSpec(variant, questions, limits).Success? {
      AnswersAccepted(variant, Prop(payload, "answers"), Parsed(Views(questions.items)), limits.maxAnswerLength);
    }
  }

  /**
   * The two trees accept the same submissions; they differ only in the
   * error they report for some refused ones.
   */
  lemma TreesAgree(payload: Value, limits: Config.Limits)
    ensures ValidateSpec(CommonJs, payload, limits) == Pass <==> ValidateSpec(TypeScript, payload, limits) == Pass
  {
    SubmissionAccepted(CommonJs, payload, limits);
    SubmissionAccepted(TypeScript, payload, limits);
  }

  /** Where the trees' errors differ: a missing payload, a `null` question, a non-string e-mail answer. */
  lemma TreesDifferInMessages(limits: Config.Limits, title: string)
    requires limits.maxQuestionnaireLength >= 1
    ensures ValidateSpec(CommonJs, Null, limits) == Fail(PayloadRequired)
    ensures ValidateSpec(TypeScript, Null, limits) == Fail(CannotReadProperty(Null, "questions"))
    ensures Message(ValidateSpec(TypeScript, Null, limits).error) == "Cannot read properties of null (reading 'questions')"
    ensures QuestionsSpec(CommonJs, Arr([Null]), limits) == Failure(QuestionNotObject)
    ensures QuestionsSpec(TypeScript, Arr([Null]), limits) == Failure(CannotReadProperty(Null, "id"))
    ensures CheckAnswerByType(CommonJs, Question("q", Email, title, false, []), Num(Finite(1)), 0) == Fail(InvalidEmailAnswer(title))
    ensures CheckAnswerByType(TypeScript, Question("q", Email, title, false, []), Num(Finite(1)), 0) == Fail(AnswerNotString(title))
  {
    NullQuestionRejected(CommonJs, limits);
    NullQuestionRejected(TypeScript, limits);
  }

  /** A one-question list whose question is `null` fails on that question. */
  lemma NullQuestionRejected(variant: Variant, limits: Config.Limits)
    requires limits.maxQuestionnaireLength >= 1
    ensures CheckQuestion(variant, View(Null), {}).Failure? ==>
      QuestionsSpec(variant, Arr([Null]), limits) == Failure(CheckQuestion(variant, View(Null), {}).error)
  {
    var vs := Views([Null]);
    ViewsAt([Null], 0);
    assert CheckQuestionsUpTo(variant, vs, 0) == Success([]);
    assert IdSet([]) == {};
  }

  /** `validateFormSubmission(submission)`: questions, then answers, then the e-mail. */
  method ValidateFormSubmission(variant: Variant, payload: Value, limits: Config.Limits)
    returns (r: Outcome<ValidationError>)
    ensures r == ValidateSpec(variant, payload, limits)
  {
    if variant == CommonJs && !IsObject(payload) {
      return Fail(PayloadRequired);
    }
    if payload.Undefined? || payload.Null? {
      return Fail(CannotReadProperty(payload, "questions"));
    }
    var questions := ValidateQuestions(variant, QuestionsOf(variant, payload), limits);
    if questions.Failure? {
      return Fail(questions.error);
    }
    r := ValidateAnswers(variant, Prop(payload, "answers"), questions.value, limits.maxAnswerLength);
    if r.Fail? {
      return r;
    }
    r := EmailIfPresent(Prop(payload, "userEmail"));
  }
}
