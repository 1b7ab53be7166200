# Conventional commit message builder, modelled in Dafny

The program asks six questions in a fixed order through an interactive
prompt library and prints a commit message in the conventional-commit shape
`type(scope): subject`, optionally followed by a body and a footer paragraph.
The model covers its two pieces of logic:

- **The question flow** (`questions.dfy`, `commit_types.dfy`). The questions
  are a checkbox `format` over the tags `scope`, `body` and `footer`, a list
  `type` over ten commit types, a free-text `scope`, a free-text `subject`, an
  editor `body` and a free-text `footer`. The `scope`, `body` and `footer`
  questions carry a `when` predicate that tests whether the `format` answer
  includes their tag. The `subject` question carries a `validate` predicate,
  `!!input`. The questions are a constant sequence of `Question` values.
  `Asked` is the `when` predicate and `ValidateSubject`/`Validate` are the
  `validate` predicate. `Plan` lists the questions that get asked once
  `format` is known. `Answers` is the record the prompt resolves to; an
  unasked question leaves its field `None`, as JavaScript leaves it
  `undefined`.
- **The message assembly** (`message.dfy`). `Render` is the message as a
  function of the answers. `BuildMessage` follows the callback step by step,
  from `let message = ''` through each conditional `+=`, and is proved equal
  to `Render`. Inclusion of scope, body and footer follows JavaScript
  truthiness (`Truthy`): an absent or empty string adds neither its text nor
  its delimiters.
- **A header reader** (`header.dfy`). `Decode` is not part of the program. It
  is a reader for the header line, used to show that `Render` keeps the
  type, scope and subject recoverable: it splits a message into the header
  fields and the text after the header line. Two lemmas connect the
  two directions. `DecodeRender` shows that rendering loses nothing of the
  header when the scope holds no `)` and the subject no line break.
  `DecodeWrites` shows that whatever is decoded writes back to the same text.

Two points about the code as written:

- The subject validator is `!!input`. It rejects only the empty string; a
  subject of blanks passes, because nothing is trimmed (`BlankSubjectAccepted`).
- `index.js` has no command-line flags that force or skip questions, no
  shell-quoting routine, no `git commit` subprocess and no `commit`/`print`
  subcommands. The format question is always asked, and the message is only
  printed. The model has none of these either.

## Model

| member | source | states |
|---|---|---|
| CommitTypes.Value | index.js:32-73 | every commit type's choice value is a non-empty word of lower-case letters |
| CommitTypes.Parse | index.js:32-73 | a string read as a commit type is the choice value of the type it yields |
| CommitTypes.ParseValue | index.js:32-73 | every commit type is read back from its choice value |
| CommitTypes.ValueInjective | index.js:32-73 | no two commit types share a choice value |
| CommitTypes.ChoicesAreValues | index.js:28-73 | the list question offers exactly the ten types, each once, in the listed order; a string is a choice value iff it reads as a commit type |
| Questions.QUESTIONS | index.js:5-99 | the six questions in array order: checkbox `format` over scope, body, footer; list `type` over the ten type values; input `scope` gated on "scope"; input `subject` with the mandatory check; editor `body` gated on "body"; input `footer` gated on "footer" |
| Questions.Asked | index.js:78-96 | a question without `when` is asked; one with `when` is asked exactly when the format answer includes its tag (`answers.format.includes(tag)`) |
| Questions.Validate | index.js:81-86 | a question without `validate` accepts every input; the subject question applies `ValidateSubject` |
| Questions.AskedNames | index.js:5-99 | the names of the questions of a list whose `when` holds, in list order |
| Questions.Plan | index.js:5-99 | the names of the questions asked for a given format answer, in array order |
| Questions.ValidateSubject | index.js:85 | the subject is accepted iff it is non-empty; a rejection carries the message "Subject is mandatory" |
| Questions.BlankSubjectAccepted | index.js:85 | a subject made only of blanks is accepted, since nothing is trimmed |
| Questions.OnlySubjectValidates | index.js:5-99 | of the six questions only the subject can reject an input, and it rejects exactly the empty one |
| Questions.WhenGates | index.js:75-98 | scope, body and footer are asked iff the format answer includes their tag; format, type and subject have no `when` and are always asked |
| Questions.AskedNamesMembers | index.js:78-96 | a question name is planned iff a question under that name is asked |
| Questions.PlanOrder | index.js:5-99 | the flow is exactly format, type, scope if chosen, subject, body if chosen, footer if chosen, in that order |
| Questions.Collect | index.js:75-98 | the answers record holds a scope, body or footer exactly when the format answer includes its tag, and so satisfies what the questions admit |
| Message.Truthy | index.js:104-110 | JavaScript truthiness of an answer that is a string or `undefined`: false for `undefined` and for `""`, true otherwise |
| Message.Render | index.js:102-111 | the message: the type, then `"(" + scope + ")"` when the scope is truthy, then `": "` and the subject, then `"\n\n" + body` and `"\n\n" + footer` when each is truthy |
| Message.BuildMessage | index.js:102-111 | the step-by-step appends produce exactly the rendered message |
| Message.PlainMessage | index.js:102-107 | with scope, body and footer absent or empty the message is exactly type, `": "`, subject |
| Message.EmptyIsAbsent | index.js:104-110 | an empty scope, body or footer renders exactly as an absent one |
| Message.ScopeInsertion | index.js:103-106 | a non-empty scope inserts exactly `"(" + scope + ")"` right after the type and changes nothing else |
| Message.BodyAppended | index.js:107-111 | a non-empty body adds exactly a blank line and the body to the message without body and footer; a footer's part then follows it |
| Message.FooterAppended | index.js:110-111 | a non-empty footer adds exactly a blank line and the footer at the very end |
| Message.Bounds | index.js:102-111 | the message starts with the type and ends with its last non-empty part (footer, else body, else subject), so no trailing newline is added |
| Message.AdmissibleMessage | index.js:78-111 | for answers the questions admit, the subject is non-empty, a tag not chosen contributes nothing, and with no tag chosen the message is type, `": "`, subject |
| Message.ExampleScoped | index.js:102-107 | type fix with scope parser and subject "handle empty input" renders as "fix(parser): handle empty input" |
| Message.ExampleWithBody | index.js:102-109 | type feat with a body renders as the header, a blank line and the body |
| Header.TypeRecovered | index.js:103-106 | the commit type is read back from any message, whatever the other answers hold |
| Header.DecodeRender | index.js:102-111 | when the scope holds no `)` and the subject no line break, the type, scope (a falsy one as none) and subject are read back and the rest is exactly the body and footer paragraphs |
| Header.DecodeWrites | index.js:102-107 | whatever is read as a header writes back to the same text, with a non-empty scope free of `)` and a one-line subject |
| Header.BodyFooterAmbiguous | index.js:108-111 | for every non-empty `b1`, `b2`, a body `b1 + "\n\n" + b2` without footer renders exactly like body `b1` with footer `b2` |
| Header.ScopeSubjectAmbiguous | index.js:103-107 | for non-empty `s1`, a scope `s1 + "): " + s2` renders exactly like scope `s1` with the subject prefixed by `s2 + "): "` |
| Header.SubjectBodyAmbiguous | index.js:107-109 | for non-empty `q`, a subject `p + "\n\n" + q` without body renders exactly like subject `p` with body `q` |

## Left out

- The prompt engine of the `inquirer` library (the `inquirer.prompt` call at index.js:101): rendering, reading input, re-asking after a rejected subject and opening the editor. It is external code; every answer is a parameter of the model, and `Collect` only states which answers the `when` predicates let through.
- Printing the message with `console.log` (index.js:112): it is output.
- Choice labels, prompt messages and the default `checked` state of the format checkboxes (index.js:9-26, 31-73, 79-97): display text and defaults with no logic.
- Reading back a header whose scope holds `)` or whose subject holds a line break: `Decode` stops at the first `)` and at the first line break, so the round trip of `Header.DecodeRender` is stated only for answers without them. Some such answers could in principle be read back (a lone `)` in a scope, a single line break in a subject), but not all: a scope `s1 + "): " + s2` with `s1` non-empty, and a subject `p + "\n\n" + q` with `q` non-empty, can each be read two ways (`Header.ScopeSubjectAmbiguous`, `Header.SubjectBodyAmbiguous`); when `p` is empty, the second reading of that subject has an empty subject, which the validator rejects. The program itself forbids none of them.
