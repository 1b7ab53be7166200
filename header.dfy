/** A reader for the header line `type(scope): subject` that the message
    callback (index.js:101-107) writes. It is not part of the program; it is
    used to show that `Render` keeps the type, scope and subject
    recoverable. */
module Header {

  import opened Wrappers
  import opened CommitTypes
  import opened Questions
  import opened Message

  datatype HeaderLine = HeaderLine(kind: CommitType, scope: Option<string>, subject: string)

  /** The header fields the message records for `a`: a falsy scope is
      recorded as no scope at all. */
  function HeaderOf(a: Answers): HeaderLine {
    HeaderLine(a.kind, if Truthy(a.scope) then a.scope else None, a.subject)
  }

  function HeaderText(h: HeaderLine): string {
    Value(h.kind) + ScopePart(h.scope) + ": " + h.subject
  }

  /** The longest prefix of `s` made of lower-case letters. */
  function LeadingWord(s: string): (w: string)
    ensures w <= s
    ensures forall i | 0 <= i < |w| :: IsLower(w[i])
    ensures |w| < |s| ==> !IsLower(s[|w|])
  {
    if s == [] || !IsLower(s[0]) then [] else [s[0]] + LeadingWord(s[1..])
  }

  /** The position of the first `c` in `s`, or `|s|` when there is none. */
  function IndexOf(s: string, c: char): (i: nat)
    ensures i <= |s|
    ensures forall k | 0 <= k < i :: s[k] != c
    ensures i < |s| ==> s[i] == c
  {
    if s == [] then 0
    else if s[0] == c then 0
    else 1 + IndexOf(s[1..], c)
  }

  /** Reads an optional non-empty `(scope)` free of `)`, and returns it with
      what follows it. */
  function DecodeScope(r: string): Option<(Option<string>, string)> {
    if |r| > 0 && r[0] == '(' then
      var i := IndexOf(r[1..], ')');
      if i == 0 || i == |r| - 1 then None else Some((Some(r[1..i + 1]), r[i + 2..]))
    else Some((None, r))
  }

  /** Reads `": "` and the subject up to the first line break, and returns
      it with what follows it. */
  function DecodeSubject(r: string): Option<(string, string)> {
    if |r| >= 2 && r[..2] == ": " then
      var tail := r[2..];
      var j := IndexOf(tail, '\n');
      Some((tail[..j], tail[j..]))
    else None
  }

  /** Splits a message into its header fields and the text after the
      header line. */
  function Decode(m: string): Option<(HeaderLine, string)> {
    var w := LeadingWord(m);
    var kind := Parse(w);
    if kind.None? then None
    else
      var scope := DecodeScope(m[|w|..]);
      if scope.None? then None
      else
        var subject := DecodeSubject(scope.value.1);
        if subject.None? then None
        else Some((HeaderLine(kind.value, scope.value.0, subject.value.0), subject.value.1))
  }

  /** A word of lower-case letters followed by anything that does not start
      with one is the leading word. */
  lemma {:induction false} LeadingWordOf(w: string, r: string)
    requires forall i | 0 <= i < |w| :: IsLower(w[i])
    requires r == [] || !IsLower(r[0])
    ensures LeadingWord(w + r) == w
  {
    if w != [] {
      assert (w + r)[0] == w[0];
      assert (w + r)[1..] == w[1..] + r;
      LeadingWordOf(w[1..], r);
    }
  }

  /** The commit type is read back from any message, whatever the other
      answers hold. */
  lemma TypeRecovered(a: Answers)
    ensures LeadingWord(Render(a)) == Value(a.kind)
    ensures Parse(LeadingWord(Render(a))) == Some(a.kind)
  {
    var t := Value(a.kind);
    var r := ScopePart(a.scope) + ": " + a.subject + Paragraph(a.body) + Paragraph(a.footer);
    assert Render(a) == t + r;
    assert r[0] == '(' || r[0] == ':';
    LeadingWordOf(t, r);
    ParseValue(a.kind);
  }

  /** The first `c` of `s + t` is where `t` starts, when `s` holds no `c`
      and `t` is empty or starts with one. */
  lemma IndexOfJoin(s: string, t: string, c: char)
    requires c !in s
    requires t == [] || t[0] == c
    ensures IndexOf(s + t, c) == |s|
  {
    if t != [] {
      assert (s + t)[|s|] == t[0];
    }
  }

  /** The scope part of a header is read back, normalised to no scope when
      it is falsy, with the `": "` that follows left in place. */
  lemma DecodeScopePart(scope: Option<string>, r: string)
    requires scope.Some? ==> ')' !in scope.value
    requires |r| > 0 && r[0] == ':'
    ensures DecodeScope(ScopePart(scope) + r) == Some((if Truthy(scope) then scope else None, r))
  {
    if Truthy(scope) {
      var s := scope.value;
      var whole := ScopePart(scope) + r;
      assert whole == "(" + s + ")" + r;
      assert whole[1..] == s + (")" + r);
      IndexOfJoin(s, ")" + r, ')');
      assert whole[1..|s| + 1] == s;
      assert whole[|s| + 2..] == r;
    } else {
      assert ScopePart(scope) + r == r;
    }
  }

  /** The separator and a one-line subject are read back, with what follows
      left in place. */
  lemma DecodeSubjectPart(subject: string, tail: string)
    requires '\n' !in subject
    requires tail == [] || tail[0] == '\n'
    ensures DecodeSubject(": " + subject + tail) == Some((subject, tail))
  {
    var r := ": " + subject + tail;
    assert r[..2] == ": " && r[2..] == subject + tail;
    IndexOfJoin(subject, tail, '\n');
    assert (subject + tail)[..|subject|] == subject;
    assert (subject + tail)[|subject|..] == tail;
  }

  /** Round trip: when the scope holds no `)` and the subject no line break,
      the header fields are recovered from the message, and what follows the
      header line is exactly the body and footer paragraphs. */
  lemma DecodeRender(a: Answers)
    requires a.scope.Some? ==> ')' !in a.scope.value
    requires '\n' !in a.subject
    ensures Decode(Render(a)) == Some((HeaderOf(a), Paragraph(a.body) + Paragraph(a.footer)))
  {
    var m := Render(a);
    var t := Value(a.kind);
    var tail := Paragraph(a.body) + Paragraph(a.footer);
    var afterScope := ": " + a.subject + tail;
    var r := ScopePart(a.scope) + afterScope;
    assert m == t + r;
    TypeRecovered(a);
    assert m[|t|..] == r;
    DecodeScopePart(a.scope, afterScope);
    assert tail == [] || tail[0] == '\n';
    DecodeSubjectPart(a.subject, tail);
  }

  /** Whatever the scope reader accepts writes back to its input, and a
      scope it reads is non-empty and free of `)`. */
  lemma DecodeScopeWrites(r: string)
    requires DecodeScope(r).Some?
    ensures var (scope, rest) := DecodeScope(r).value;
      && ScopePart(scope) + rest == r
      && (scope.Some? ==> scope.value != "" && ')' !in scope.value)
  {
    var (scope, rest) := DecodeScope(r).value;
    if |r| > 0 && r[0] == '(' {
      var i := IndexOf(r[1..], ')');
      var s := r[1..i + 1];
      assert s == r[1..][..i];
      assert r == "(" + s + ")" + rest;
      forall k | 0 <= k < |s| ensures s[k] != ')' {
        assert s[k] == r[1..][k];
      }
    }
  }

  /** Whatever the subject reader accepts writes back to its input, and the
      subject it reads holds no line break. */
  lemma DecodeSubjectWrites(r: string)
    requires DecodeSubject(r).Some?
    ensures var (subject, rest) := DecodeSubject(r).value;
      && ": " + subject + rest == r
      && '\n' !in subject
      && (rest == [] || rest[0] == '\n')
  {
    var (subject, rest) := DecodeSubject(r).value;
    var tail := r[2..];
    assert r == ": " + tail;
    assert tail == subject + rest;
    forall k | 0 <= k < |subject| ensures subject[k] != '\n' {
      assert subject[k] == tail[k];
    }
  }

  /** A header the reader can take back: a non-empty scope free of `)`, a
      subject without line break, and a rest that is empty or starts a new
      line. */
  predicate OneLine(h: HeaderLine, rest: string) {
    && (h.scope.Some? ==> h.scope.value != "" && ')' !in h.scope.value)
    && '\n' !in h.subject
    && (rest == [] || rest[0] == '\n')
  }

  /** Five pieces joined left to right are the first joined to the rest. */
  lemma Regroup(a: string, b: string, c: string, d: string, e: string)
    ensures a + b + c + d + e == a + (b + (c + d + e))
  {
    assert a + b + c + d + e == a + b + (c + d + e);
  }

  /** Conversely, whatever is decoded writes back to the very message it
      came from, its scope is non-empty and free of `)`, its subject holds
      no line break, and what follows the header is empty or starts a new
      line. */
  lemma DecodeWrites(m: string)
    requires Decode(m).Some?
    ensures HeaderText(Decode(m).value.0) + Decode(m).value.1 == m
    ensures OneLine(Decode(m).value.0, Decode(m).value.1)
  {
    var d := Decode(m).value;
    var w := LeadingWord(m);
    assert Value(d.0.kind) == w;
    var r := m[|w|..];
    assert m == w + r;
    DecodeScopeWrites(r);
    var sc := DecodeScope(r).value;
    DecodeSubjectWrites(sc.1);
    var sb := DecodeSubject(sc.1).value;
    assert d.0 == HeaderLine(d.0.kind, sc.0, sb.0) && d.1 == sb.1;
    var sp := ScopePart(sc.0);
    assert HeaderText(d.0) == w + sp + ": " + sb.0;
    Regroup(w, sp, ": ", sb.0, sb.1);
  }

  /** The text after the header line does not determine the body and the
      footer on its own: a body holding a blank line renders exactly like a
      shorter body followed by a footer. */
  lemma BodyFooterAmbiguous(a: Answers, b1: string, b2: string)
    requires b1 != "" && b2 != ""
    ensures Render(a.(body := Some(b1 + "\n\n" + b2), footer := None)) == Render(a.(body := Some(b1), footer := Some(b2)))
  {
    assert "\n\n" + (b1 + "\n\n" + b2) == "\n\n" + b1 + ("\n\n" + b2);
  }

  /** The header does not determine the scope and the subject on its own: a
      scope holding `"): "` renders exactly like a shorter scope followed by
      a longer subject. */
  lemma ScopeSubjectAmbiguous(a: Answers, s1: string, s2: string)
    requires s1 != ""
    ensures Render(a.(scope := Some(s1 + "): " + s2))) == Render(a.(scope := Some(s1), subject := s2 + "): " + a.subject))
  {
    assert "(" + (s1 + "): " + s2) + ")" + ": " + a.subject == "(" + s1 + ")" + ": " + (s2 + "): " + a.subject);
  }

  /** Nor do the subject and the body stand apart: a subject holding a blank
      line renders exactly like a shorter subject followed by a body. */
  lemma SubjectBodyAmbiguous(a: Answers, p: string, q: string)
    requires q != ""
    ensures Render(a.(subject := p + "\n\n" + q, body := None)) == Render(a.(subject := p, body := Some(q)))
  {
    assert ": " + (p + "\n\n" + q) == ": " + p + ("\n\n" + q);
  }
}
