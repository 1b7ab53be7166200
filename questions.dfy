/** The `questions` array (index.js:5-99): six questions in a fixed order,
    three of them gated by a `when` predicate over the `format` answer and
    one checked by a `validate` predicate. Display labels, prompt messages
    and the default `checked` state of the checkboxes are UI text and are
    not part of the model. */
module Questions {

  import opened Wrappers
  import opened CommitTypes

  /** The prompt kind named by each question's `type` field. */
  datatype Kind = Checkbox | List | Input | Editor

  /** The `name` under which each question stores its answer. */
  datatype Name = Format | Type | Scope | Subject | Body | Footer

  /** A question's `when` field: absent (always asked) or a test that the
      `format` answer includes a tag. */
  datatype Gate = Always | WhenFormatIncludes(tag: string)

  /** A question's `validate` field: absent, or the subject's `!!input` test. */
  datatype Check = Unchecked | Mandatory

  datatype Question = Question(kind: Kind, name: Name, choices: seq<string>, gate: Gate, check: Check)

  /** What a `validate` predicate returns: `true`, or the message to show. */
  datatype Validation = Accepted | Rejected(message: string)

  /** The `value` fields of the format checkbox's three choices. */
  const FORMAT_CHOICES: seq<string> := ["scope", "body", "footer"]

  const SUBJECT_MANDATORY: string := "Subject is mandatory"

  const QUESTIONS: seq<Question> := [
    Question(Checkbox, Format, FORMAT_CHOICES, Always, Unchecked),
    Question(List, Type, TYPE_CHOICES, Always, Unchecked),
    Question(Input, Scope, [], WhenFormatIncludes("scope"), Unchecked),
    Question(Input, Subject, [], Always, Mandatory),
    Question(Editor, Body, [], WhenFormatIncludes("body"), Unchecked),
    Question(Input, Footer, [], WhenFormatIncludes("footer"), Unchecked)
  ]

  /** The question stored under `n`. */
  function Lookup(n: Name): (q: Question)
    ensures q in QUESTIONS && q.name == n
  {
    match n
    case Format => QUESTIONS[0]
    case Type => QUESTIONS[1]
    case Scope => QUESTIONS[2]
    case Subject => QUESTIONS[3]
    case Body => QUESTIONS[4]
    case Footer => QUESTIONS[5]
  }

  /** The question's `when` predicate applied to the `format` answer
      (`answers.format.includes(tag)`); a question without one is asked. */
  predicate Asked(q: Question, format: seq<string>) {
    match q.gate
    case Always => true
    case WhenFormatIncludes(tag) => tag in format
  }

  /** The subject's `validate`: `!!input` is JavaScript truthiness of a
      string, false only for the empty string; nothing is trimmed. */
  function ValidateSubject(input: string): (v: Validation)
    ensures v == Accepted <==> |input| > 0
    ensures v.Rejected? ==> v.message == SUBJECT_MANDATORY
  {
    if input != "" then Accepted else Rejected(SUBJECT_MANDATORY)
  }

  /** The answer of a question to `input`, as its `validate` field decides. */
  function Validate(q: Question, input: string): Validation {
    match q.check
    case Unchecked => Accepted
    case Mandatory => ValidateSubject(input)
  }

  /** The names of the questions of `qs` that are asked, in order. */
  function AskedNames(qs: seq<Question>, format: seq<string>): seq<Name>
  {
    if qs == [] then []
    else
      var rest := AskedNames(qs[1..], format);
      if Asked(qs[0], format) then [qs[0].name] + rest else rest
  }

  /** A name is planned exactly when some question of `qs` under that name
      is asked. */
  lemma {:induction false} AskedNamesMembers(qs: seq<Question>, format: seq<string>, n: Name)
    ensures n in AskedNames(qs, format) <==> exists q :: q in qs && Asked(q, format) && q.name == n
  {
    if qs != [] {
      AskedNamesMembers(qs[1..], format, n);
      assert forall q :: q in qs <==> q == qs[0] || q in qs[1..];
    }
  }

  /** The questions asked once `format` has been answered, in order. */
  function Plan(format: seq<string>): seq<Name> {
    AskedNames(QUESTIONS, format)
  }

  /** The flow is exactly: format, type, scope if chosen, subject, body if
      chosen, footer if chosen. */
  lemma PlanOrder(format: seq<string>)
    ensures Plan(format) ==
      [Format, Type]
      + (if "scope" in format then [Scope] else [])
      + [Subject]
      + (if "body" in format then [Body] else [])
      + (if "footer" in format then [Footer] else [])
  {
    var qs := QUESTIONS;
    assert AskedNames(qs[5..], format) == (if "footer" in format then [Footer] else []) by {
      assert qs[5..][1..] == [];
    }
    assert qs[4..][1..] == qs[5..];
    assert qs[3..][1..] == qs[4..];
    assert qs[2..][1..] == qs[3..];
    assert qs[1..][1..] == qs[2..];
    assert AskedNames(qs[4..], format) == (if "body" in format then [Body] else []) + AskedNames(qs[5..], format);
    assert AskedNames(qs[3..], format) == [Subject] + AskedNames(qs[4..], format);
    assert AskedNames(qs[2..], format) == (if "scope" in format then [Scope] else []) + AskedNames(qs[3..], format);
    assert AskedNames(qs[1..], format) == [Type] + AskedNames(qs[2..], format);
  }

  /** The scope, body and footer questions are asked if and only if the
      format answer includes their tag; format, type and subject always are. */
  lemma WhenGates(format: seq<string>)
    ensures Asked(Lookup(Scope), format) <==> "scope" in format
    ensures Asked(Lookup(Body), format) <==> "body" in format
    ensures Asked(Lookup(Footer), format) <==> "footer" in format
    ensures Asked(Lookup(Format), format) && Asked(Lookup(Type), format) && Asked(Lookup(Subject), format)
  {
  }

  /** Only the subject question validates; it rejects exactly the empty
      input, and every other question accepts anything. */
  lemma OnlySubjectValidates(q: Question, input: string)
    requires q in QUESTIONS
    ensures Validate(q, input) == Accepted <==> q.name != Subject || input != ""
  {
  }

  /** A subject made only of blanks passes the validator. */
  lemma BlankSubjectAccepted(input: string)
    requires |input| > 0
    requires forall i | 0 <= i < |input| :: input[i] == ' '
    ensures ValidateSubject(input) == Accepted
  {
  }

  /** The record the prompt resolves to: an unasked question leaves its
      property `undefined`, modelled as `None`. */
  datatype Answers = Answers(
    format: seq<string>,
    kind: CommitType,
    scope: Option<string>,
    subject: string,
    body: Option<string>,
    footer: Option<string>)

  /** The answers the questions admit: each gated answer is present exactly
      when its question is asked, the format answer holds only choice
      values, and the subject passed its validator. */
  predicate Admissible(a: Answers) {
    && (forall i | 0 <= i < |a.format| :: a.format[i] in FORMAT_CHOICES)
    && (a.scope.Some? <==> Asked(Lookup(Scope), a.format))
    && (a.body.Some? <==> Asked(Lookup(Body), a.format))
    && (a.footer.Some? <==> Asked(Lookup(Footer), a.format))
    && Validate(Lookup(Subject), a.subject) == Accepted
  }

  /** The answers record built from what the user typed: an input whose
      question is not asked is not recorded. The subject is the input that
      finally passed validation. */
  function Collect(format: seq<string>, kind: CommitType, scope: string, subject: string, body: string, footer: string): (a: Answers)
    requires forall i | 0 <= i < |format| :: format[i] in FORMAT_CHOICES
    requires ValidateSubject(subject) == Accepted
    ensures Admissible(a)
    ensures a.scope == (if "scope" in format then Some(scope) else None)
    ensures a.body == (if "body" in format then Some(body) else None)
    ensures a.footer == (if "footer" in format then Some(footer) else None)
    ensures a.format == format && a.kind == kind && a.subject == subject
  {
    Answers(
      format,
      kind,
      if Asked(QUESTIONS[2], format) then Some(scope) else None,
      subject,
      if Asked(QUESTIONS[4], format) then Some(body) else None,
      if Asked(QUESTIONS[5], format) then Some(footer) else None)
  }
}
