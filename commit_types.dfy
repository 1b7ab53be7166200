/** The closed set of commit types offered by the `type` list question
    (index.js:28-73), their `value` strings and the way back from a string. */
module CommitTypes {

  import opened Wrappers

  datatype CommitType = Feat | Fix | Refactor | Perf | Style | Test | Docs | Build | Ops | Chore

  predicate IsLower(c: char) {
    'a' <= c <= 'z'
  }

  /** The `value` of the list choice that stands for `t`: the text that
      `answers.type` holds and that starts the commit message. */
  function Value(t: CommitType): (s: string)
    ensures |s| > 0
    ensures forall i | 0 <= i < |s| :: IsLower(s[i])
  {
    match t
    case Feat => "feat"
    case Fix => "fix"
    case Refactor => "refactor"
    case Perf => "perf"
    case Style => "style"
    case Test => "test"
    case Docs => "docs"
    case Build => "build"
    case Ops => "ops"
    case Chore => "chore"
  }

  /** The commit types in the order the list question offers them. */
  const ALL_TYPES: seq<CommitType> :=
    [Feat, Fix, Refactor, Perf, Style, Test, Docs, Build, Ops, Chore]

  /** The `value` fields of the ten list choices, as written in the question. */
  const TYPE_CHOICES: seq<string> :=
    ["feat", "fix", "refactor", "perf", "style", "test", "docs", "build", "ops", "chore"]

  /** The commit type whose choice value is `s`, if there is one. */
  function Parse(s: string): (r: Option<CommitType>)
    ensures r.Some? ==> Value(r.value) == s
  {
    if s == "feat" then Some(Feat)
    else if s == "fix" then Some(Fix)
    else if s == "refactor" then Some(Refactor)
    else if s == "perf" then Some(Perf)
    else if s == "style" then Some(Style)
    else if s == "test" then Some(Test)
    else if s == "docs" then Some(Docs)
    else if s == "build" then Some(Build)
    else if s == "ops" then Some(Ops)
    else if s == "chore" then Some(Chore)
    else None
  }

  /** Every commit type is recovered from its choice value. */
  lemma ParseValue(t: CommitType)
    ensures Parse(Value(t)) == Some(t)
  {
  }

  /** Two commit types never share a choice value. */
  lemma ValueInjective(t: CommitType, u: CommitType)
    ensures Value(t) == Value(u) ==> t == u
  {
    ParseValue(t);
    ParseValue(u);
  }

  /** The list question offers exactly the ten types, once each, in order:
      a string is a choice value exactly when it parses to a commit type. */
  lemma ChoicesAreValues()
    ensures |ALL_TYPES| == |TYPE_CHOICES| == 10
    ensures forall i | 0 <= i < 10 :: TYPE_CHOICES[i] == Value(ALL_TYPES[i])
    ensures forall t: CommitType :: t in ALL_TYPES
    ensures forall i, j | 0 <= i < j < 10 :: ALL_TYPES[i] != ALL_TYPES[j]
    ensures forall s :: Parse(s).Some? <==> s in TYPE_CHOICES
  {
    forall t: CommitType ensures t in ALL_TYPES {
      match t
      case Feat => assert ALL_TYPES[0] == t;
      case Fix => assert ALL_TYPES[1] == t;
      case Refactor => assert ALL_TYPES[2] == t;
      case Perf => assert ALL_TYPES[3] == t;
      case Style => assert ALL_TYPES[4] == t;
      case Test => assert ALL_TYPES[5] == t;
      case Docs => assert ALL_TYPES[6] == t;
      case Build => assert ALL_TYPES[7] == t;
      case Ops => assert ALL_TYPES[8] == t;
      case Chore => assert ALL_TYPES[9] == t;
    }
  }
}
