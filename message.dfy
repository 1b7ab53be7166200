/** The callback that turns the resolved answers into the commit message
    (index.js:101-111): `type`, then `(scope)` when the scope is truthy,
    then `": "` and the subject, then a blank-line-separated body and footer
    when each is truthy. Printing the result (index.js:112) is I/O and is
    not part of the model. */
module Message {

  import opened Wrappers
  import opened CommitTypes
  import opened Questions

  /** JavaScript truthiness of an answer that is a string or `undefined`:
      false for `undefined` and for the empty string, true otherwise. */
  predicate Truthy(o: Option<string>) {
    o.Some? && o.value != ""
  }

  /** What a truthy scope contributes to the header: the scope in
      parentheses; otherwise nothing. */
  function ScopePart(scope: Option<string>): string
  {
    if Truthy(scope) then "(" + scope.value + ")" else ""
  }

  /** What a truthy body or footer contributes: a blank line, then the
      text; otherwise nothing. */
  function Paragraph(part: Option<string>): string
  {
    if Truthy(part) then "\n\n" + part.value else ""
  }

  /** The commit message the callback prints for `a`. */
  function Render(a: Answers): string {
    Value(a.kind) + ScopePart(a.scope) + ": " + a.subject + Paragraph(a.body) + Paragraph(a.footer)
  }

  /** The callback's own steps: start from the empty string and append to
      it piece by piece. */
  method BuildMessage(a: Answers) returns (message: string)
    ensures message == Render(a)
  {
    message := "";
    message := message + Value(a.kind);
    assert message == Value(a.kind);
    if Truthy(a.scope) {
      message := message + "(" + a.scope.value + ")";
    }
    assert message == Value(a.kind) + ScopePart(a.scope);
    message := message + ": ";
    message := message + a.subject;
    ghost var header := message;
    assert header == Value(a.kind) + ScopePart(a.scope) + ": " + a.subject;
    if Truthy(a.body) {
      message := message + "\n\n" + a.body.value;
    }
    assert message == header + Paragraph(a.body);
    ghost var withBody := message;
    if Truthy(a.footer) {
      message := message + "\n\n" + a.footer.value;
    }
    assert message == withBody + Paragraph(a.footer);
  }

  /** With scope, body and footer absent or empty the message is exactly
      the type, `": "` and the subject. */
  lemma PlainMessage(a: Answers)
    requires !Truthy(a.scope) && !Truthy(a.body) && !Truthy(a.footer)
    ensures Render(a) == Value(a.kind) + ": " + a.subject
  {
  }

  /** An empty scope, body or footer renders exactly as an absent one. */
  lemma EmptyIsAbsent(a: Answers)
    ensures Render(a.(scope := Some(""))) == Render(a.(scope := None))
    ensures Render(a.(body := Some(""))) == Render(a.(body := None))
    ensures Render(a.(footer := Some(""))) == Render(a.(footer := None))
  {
  }

  /** A non-empty scope inserts exactly `"(" + scope + ")"` right after the
      type, and the rest of the message is what it would be without it. */
  lemma ScopeInsertion(a: Answers, scope: string)
    requires scope != ""
    ensures var t := Value(a.kind);
      var without := Render(a.(scope := None));
      && without[..|t|] == t
      && Render(a.(scope := Some(scope))) == t + "(" + scope + ")" + without[|t|..]
  {
    var t := Value(a.kind);
    var tail := ": " + a.subject + Paragraph(a.body) + Paragraph(a.footer);
    assert Render(a.(scope := None)) == t + tail;
    assert Render(a.(scope := Some(scope))) == t + "(" + scope + ")" + tail;
    assert (t + tail)[..|t|] == t;
    assert (t + tail)[|t|..] == tail;
  }

  /** A non-empty body appends exactly a blank line and the body to the
      header line; the footer's part, if any, comes after it. */
  lemma BodyAppended(a: Answers, body: string)
    requires body != ""
    ensures Render(a.(body := Some(body), footer := None)) == Render(a.(body := None, footer := None)) + "\n\n" + body
    ensures Render(a.(body := Some(body))) == Render(a.(body := None, footer := None)) + "\n\n" + body + Paragraph(a.footer)
  {
  }

  /** A non-empty footer appends exactly a blank line and the footer at the
      very end. */
  lemma FooterAppended(a: Answers, footer: string)
    requires footer != ""
    ensures Render(a.(footer := Some(footer))) == Render(a.(footer := None)) + "\n\n" + footer
  {
  }

  /** The last non-empty part of the message. */
  function LastPart(a: Answers): string {
    if Truthy(a.footer) then a.footer.value
    else if Truthy(a.body) then a.body.value
    else a.subject
  }

  /** Everything the message holds before its last non-empty part. */
  function Front(a: Answers): string {
    var header := Value(a.kind) + ScopePart(a.scope) + ": ";
    if Truthy(a.footer) then header + a.subject + Paragraph(a.body) + "\n\n"
    else if Truthy(a.body) then header + a.subject + "\n\n"
    else header
  }

  /** The message is its front followed by its last non-empty part. */
  lemma FrontThenLast(a: Answers)
    ensures Render(a) == Front(a) + LastPart(a)
  {
    var header := Value(a.kind) + ScopePart(a.scope) + ": ";
    if Truthy(a.footer) {
      assert Render(a) == header + a.subject + Paragraph(a.body) + ("\n\n" + a.footer.value);
    } else if Truthy(a.body) {
      assert Render(a) == header + a.subject + ("\n\n" + a.body.value);
    } else {
      assert Render(a) == header + a.subject;
    }
  }

  /** The message starts with the type and ends with its last non-empty
      part: nothing, not even a newline, follows it. */
  lemma Bounds(a: Answers)
    ensures Value(a.kind) <= Render(a)
    ensures |LastPart(a)| <= |Render(a)|
    ensures Render(a)[|Render(a)| - |LastPart(a)|..] == LastPart(a)
  {
    var t := Value(a.kind);
    assert Render(a) == t + (ScopePart(a.scope) + ": " + a.subject + Paragraph(a.body) + Paragraph(a.footer));
    FrontThenLast(a);
    var front, last := Front(a), LastPart(a);
    assert (front + last)[|front|..] == last;
  }

  /** End to end: answers the questions admit render as the format answer
      dictates; a tag not chosen never contributes to the message. */
  lemma AdmissibleMessage(a: Answers)
    requires Admissible(a)
    ensures a.subject != ""
    ensures "scope" !in a.format ==> ScopePart(a.scope) == ""
    ensures "body" !in a.format ==> Paragraph(a.body) == ""
    ensures "footer" !in a.format ==> Paragraph(a.footer) == ""
    ensures a.format == [] ==> Render(a) == Value(a.kind) + ": " + a.subject
  {
    WhenGates(a.format);
  }

  /** A scoped fix renders as a one-line header. */
  lemma ExampleScoped()
    ensures Render(Answers(["scope"], Fix, Some("parser"), "handle empty input", None, None))
      == "fix(parser): handle empty input"
  {
  }

  /** A feature with a body renders as header, blank line, body. */
  lemma ExampleWithBody()
    ensures Render(Answers(["body"], Feat, None, "add retry", Some("Previously failed silently."), None))
      == "feat: add retry\n\nPreviously failed silently."
  {
    var body := "Previously failed silently.";
    assert Render(Answers(["body"], Feat, None, "add retry", Some(body), None))
      == "feat: add retry" + "\n\n" + body;
  }
}
