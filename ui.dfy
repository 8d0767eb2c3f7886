/** Interactive option resolution (src/cli/ui.ts): which questions `promptUser`
    asks, and how the answers are spread over the options already supplied. */
module Ui {
  import opened Wrappers
  import Validators

  /** `Partial<ProjectOptions>`: every property may be `undefined` (`None`).
      `transport` is any string here, since `-t` is passed through unchecked. */
  datatype Options = Options(
    projectName: Option<string>,
    projectDescription: Option<string>,
    transport: Option<string>,
    includeExamples: Option<bool>,
    initializeGit: Option<bool>,
    installDeps: Option<bool>)

  /** The property names of `ProjectOptions`, which are also the question names. */
  datatype Field = ProjectName | ProjectDescription | Transport | IncludeExamples | InitializeGit | InstallDeps

  /** A property value: a string or a boolean. */
  datatype Value = Text(text: string) | Flag(flag: bool)

  /** An entry of a `list` question's `choices`. */
  datatype Choice = Choice(name: string, value: string)

  /** The question types used: `input` (with or without `validate: isValidProjectName`),
      `list` with its choices, and `confirm`. */
  datatype Kind = Input(validated: bool) | List(choices: seq<Choice>) | Confirm

  /** One entry of the question list handed to the prompt library. */
  datatype Question = Question(name: Field, kind: Kind, default: Value, when: bool)

  /** JavaScript truthiness of an optional string: `undefined` and `""` are falsy. */
  predicate Falsy(s: Option<string>) {
    s == None || s == Some("")
  }

  function TextOf(s: Option<string>): Option<Value> {
    if s.Some? then Some(Text(s.value)) else None
  }

  function FlagOf(b: Option<bool>): Option<Value> {
    if b.Some? then Some(Flag(b.value)) else None
  }

  /** `o[f]`, with `None` for an absent or `undefined` property. */
  function Lookup(o: Options, f: Field): Option<Value> {
    match f
    case ProjectName => TextOf(o.projectName)
    case ProjectDescription => TextOf(o.projectDescription)
    case Transport => TextOf(o.transport)
    case IncludeExamples => FlagOf(o.includeExamples)
    case InitializeGit => FlagOf(o.initializeGit)
    case InstallDeps => FlagOf(o.installDeps)
  }

  /** Every property of `ProjectOptions` is defined. */
  predicate Complete(o: Options) {
    forall f :: Lookup(o, f).Some?
  }

  const DefaultProjectName := "my-mcp-server"
  const DefaultDescription := "Um servidor MCP personalizado"
  const DefaultTransport := "stdio"

  /** The two transports the `list` question offers. */
  const TransportChoices := [
    Choice("STDIO (Recomendado para assistentes)", "stdio"),
    Choice("HTTP (Para APIs REST)", "http")
  ]

  /** The question list `promptUser` builds: strings are asked when falsy,
      booleans only when `undefined`. */
  function Questions(options: Options): (qs: seq<Question>)
    ensures |qs| == 6
    ensures forall i, j :: 0 <= i < j < |qs| ==> qs[i].name != qs[j].name
  {
    [ Question(ProjectName, Input(true), Text(DefaultProjectName), Falsy(options.projectName)),
      Question(ProjectDescription, Input(false), Text(DefaultDescription), Falsy(options.projectDescription)),
      Question(Transport, List(TransportChoices), Text(DefaultTransport), Falsy(options.transport)),
      Question(IncludeExamples, Confirm, Flag(true), options.includeExamples == None),
      Question(InitializeGit, Confirm, Flag(true), options.initializeGit == None),
      Question(InstallDeps, Confirm, Flag(true), options.installDeps == None) ]
  }

  /** The names of the questions whose `when` holds. */
  function Asked(options: Options): set<Field> {
    set q | q in Questions(options) && q.when :: q.name
  }

  /** An answer the prompt library can give to a question of this kind: an
      `input` with `validate` only returns a value the validator accepts, a
      `list` one of its choice values, a `confirm` a boolean. */
  predicate Accepts(kind: Kind, v: Value) {
    match kind
    case Input(validated) => v.Text? && (validated ==> Validators.IsValidProjectName(v.text))
    case List(choices) => v.Text? && exists c :: c in choices && c.value == v.text
    case Confirm => v.Flag?
  }

  /** The answers object holds a property exactly for each question asked,
      and each such answer is one the question admits. */
  predicate AnswersFit(options: Options, answers: Options) {
    forall q :: q in Questions(options) ==>
      && (Lookup(answers, q.name).Some? <==> q.when)
      && (q.when ==> Accepts(q.kind, Lookup(answers, q.name).value))
  }

  /** `promptUser(options)`, given the `answers` the prompt library returned for
      `Questions(options)`: the result is `{ ...options, ...answers }`, where a
      property present in the answers wins. */
  function PromptUser(options: Options, answers: Options): (r: Options)
    ensures forall f :: Lookup(r, f) == if Lookup(answers, f).Some? then Lookup(answers, f) else Lookup(options, f)
  {
    Options(
      if answers.projectName.Some? then answers.projectName else options.projectName,
      if answers.projectDescription.Some? then answers.projectDescription else options.projectDescription,
      if answers.transport.Some? then answers.transport else options.transport,
      if answers.includeExamples.Some? then answers.includeExamples else options.includeExamples,
      if answers.initializeGit.Some? then answers.initializeGit else options.initializeGit,
      if answers.installDeps.Some? then answers.installDeps else options.installDeps)
  }

  /** A question's name is in `Asked` exactly when its own `when` holds: no two
      questions share a name. */
  lemma AskedAt(options: Options, k: nat)
    requires k < |Questions(options)|
    ensures Questions(options)[k].name in Asked(options) <==> Questions(options)[k].when
  {
    var qs := Questions(options);
    assert qs[k] in qs;
    if qs[k].name in Asked(options) {
      var q :| q in qs && q.when && q.name == qs[k].name;
    }
  }

  /** Which questions are asked: a string property when it is falsy (so both a
      missing value and `""`), a boolean property only when it is `undefined`. */
  lemma AskedExactly(options: Options)
    ensures ProjectName in Asked(options) <==> Falsy(options.projectName)
    ensures ProjectDescription in Asked(options) <==> Falsy(options.projectDescription)
    ensures Transport in Asked(options) <==> Falsy(options.transport)
    ensures IncludeExamples in Asked(options) <==> options.includeExamples == None
    ensures InitializeGit in Asked(options) <==> options.initializeGit == None
    ensures InstallDeps in Asked(options) <==> options.installDeps == None
  {
    AskedAt(options, 0);
    AskedAt(options, 1);
    AskedAt(options, 2);
    AskedAt(options, 3);
    AskedAt(options, 4);
    AskedAt(options, 5);
  }

  /** The question that asks for property `f`. */
  lemma QuestionFor(options: Options, f: Field) returns (q: Question)
    ensures q in Questions(options) && q.name == f
    ensures f in Asked(options) <==> q.when
  {
    var k := match f
      case ProjectName => 0 case ProjectDescription => 1 case Transport => 2
      case IncludeExamples => 3 case InitializeGit => 4 case InstallDeps => 5;
    AskedAt(options, k);
    q := Questions(options)[k];
  }

  /** The answers have a property exactly for the questions asked. */
  lemma AnswerPresentIffAsked(options: Options, answers: Options, f: Field)
    requires AnswersFit(options, answers)
    ensures Lookup(answers, f).Some? <==> f in Asked(options)
  {
    var q := QuestionFor(options, f);
  }

  /** The merge: each property of the result is the answer when its question was
      asked, and the supplied value otherwise. */
  lemma PromptUserFields(options: Options, answers: Options)
    requires AnswersFit(options, answers)
    ensures forall f :: Lookup(PromptUser(options, answers), f)
                     == if f in Asked(options) then Lookup(answers, f) else Lookup(options, f)
  {
    forall f ensures Lookup(PromptUser(options, answers), f)
                  == if f in Asked(options) then Lookup(answers, f) else Lookup(options, f)
    {
      AnswerPresentIffAsked(options, answers, f);
    }
  }

  /** After prompting every property is defined, so the `as ProjectOptions` cast
      leaves no property `undefined`. */
  lemma PromptUserComplete(options: Options, answers: Options)
    requires AnswersFit(options, answers)
    ensures Complete(PromptUser(options, answers))
  {
    forall f ensures Lookup(PromptUser(options, answers), f).Some? {
      AnswerPresentIffAsked(options, answers, f);
      if f !in Asked(options) {
        AskedExactly(options);
        match f
        case ProjectName => assert !Falsy(options.projectName);
        case ProjectDescription => assert !Falsy(options.projectDescription);
        case Transport => assert !Falsy(options.transport);
        case _ =>
      }
    }
  }

  /** A prompted project name passes `isValidProjectName`, and a prompted
      transport is `stdio` or `http`. */
  lemma PromptedValues(options: Options, answers: Options)
    requires AnswersFit(options, answers)
    ensures var r := PromptUser(options, answers);
      && (Falsy(options.projectName) ==>
            r.projectName.Some? && Validators.IsValidProjectName(r.projectName.value))
      && (Falsy(options.transport) ==>
            r.transport == Some("stdio") || r.transport == Some("http"))
  {
    var qs := Questions(options);
    assert qs[0] in qs && qs[2] in qs;
    if Falsy(options.transport) {
      var c :| c in TransportChoices && c.value == answers.transport.value;
    }
  }

  /** An explicit `false` is neither asked again nor overwritten. */
  lemma ExplicitFalseKept(options: Options, answers: Options)
    requires AnswersFit(options, answers)
    ensures options.includeExamples == Some(false) ==>
      IncludeExamples !in Asked(options) && PromptUser(options, answers).includeExamples == Some(false)
    ensures options.initializeGit == Some(false) ==>
      InitializeGit !in Asked(options) && PromptUser(options, answers).initializeGit == Some(false)
    ensures options.installDeps == Some(false) ==>
      InstallDeps !in Asked(options) && PromptUser(options, answers).installDeps == Some(false)
  {
    AskedExactly(options);
    AnswerPresentIffAsked(options, answers, IncludeExamples);
    AnswerPresentIffAsked(options, answers, InitializeGit);
    AnswerPresentIffAsked(options, answers, InstallDeps);
  }

  /** When every string is truthy and every boolean defined, nothing is asked
      and the options come back unchanged. */
  lemma NothingToAsk(options: Options, answers: Options)
    requires !Falsy(options.projectName) && !Falsy(options.projectDescription) && !Falsy(options.transport)
    requires options.includeExamples.Some? && options.initializeGit.Some? && options.installDeps.Some?
    requires AnswersFit(options, answers)
    ensures Asked(options) == {}
    ensures PromptUser(options, answers) == options
  {
    AskedExactly(options);
    forall f ensures f !in Asked(options) {
      match f
      case ProjectName =>
      case ProjectDescription =>
      case Transport =>
      case IncludeExamples =>
      case InitializeGit =>
      case InstallDeps =>
    }
    assert answers == Options(None, None, None, None, None, None) by {
      AnswerPresentIffAsked(options, answers, ProjectName);
      AnswerPresentIffAsked(options, answers, ProjectDescription);
      AnswerPresentIffAsked(options, answers, Transport);
      AnswerPresentIffAsked(options, answers, IncludeExamples);
      AnswerPresentIffAsked(options, answers, InitializeGit);
      AnswerPresentIffAsked(options, answers, InstallDeps);
    }
  }
}
