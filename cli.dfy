/** The command-line entry point (src/index.ts): the positional project-name
    check, the partial options built from the flags, and the choice between
    prompting and filling in defaults under `--yes`. */
module Cli {
  import opened Wrappers
  import Validators
  import opened Ui

  /** The option values the argument parser hands to the action. `examples`,
      `git` and `install` come from the `--no-examples`, `--no-git` and
      `--no-install` flags and may be `undefined` (`None`), `false` or `true`;
      the action reads all three the same way. `yes` defaults to false. */
  datatype Flags = Flags(
    projectDescription: Option<string>,
    transport: Option<string>,
    examples: Option<bool>,
    git: Option<bool>,
    install: Option<bool>,
    yes: bool)

  /** The outcome of the positional argument's parser callback. */
  datatype NameCheck = Accepted(name: string) | Exit(status: int)

  /** How a run ends: the process exits with a status, or the options are resolved. */
  datatype Outcome = Exited(status: int) | Configured(options: Options)

  /** The `[projectName]` argument callback: an invalid name exits with status 1,
      a valid one is passed on unchanged. */
  function CheckProjectNameArg(name: string): (r: NameCheck)
    ensures r.Accepted? <==> Validators.IsValidProjectName(name)
    ensures r.Accepted? ==> r.name == name
    ensures r.Exit? ==> r.status == 1
  {
    if !Validators.IsValidProjectName(name) then Exit(1) else Accepted(name)
  }

  /** The `projectOptions` object literal built from the argument and the flags. */
  function InitialOptions(projectName: Option<string>, flags: Flags): Options {
    Options(projectName, flags.projectDescription, flags.transport, flags.examples, flags.git, flags.install)
  }

  /** The value `--yes` puts in property `f` when it is `undefined`. */
  function DefaultFor(f: Field): Value {
    match f
    case ProjectName => Text(DefaultProjectName)
    case ProjectDescription => Text(DefaultDescription)
    case Transport => Text(DefaultTransport)
    case IncludeExamples => Flag(true)
    case InitializeGit => Flag(true)
    case InstallDeps => Flag(true)
  }

  /** The `--yes` branch as a function of the options: every property the
      options define is kept, every `undefined` one gets its default. */
  function WithDefaults(o: Options): (r: Options)
    ensures Complete(r)
    ensures forall f :: Lookup(r, f) == if Lookup(o, f).Some? then Lookup(o, f) else Some(DefaultFor(f))
  {
    Options(
      Some(o.projectName.GetOr(DefaultProjectName)),
      Some(o.projectDescription.GetOr(DefaultDescription)),
      Some(o.transport.GetOr(DefaultTransport)),
      Some(o.includeExamples.GetOr(true)),
      Some(o.initializeGit.GetOr(true)),
      Some(o.installDeps.GetOr(true)))
  }

  /** The mutable `projectOptions` object of the action, whose properties the
      `--yes` branch assigns one by one. */
  class OptionsDraft {
    var projectName: Option<string>
    var projectDescription: Option<string>
    var transport: Option<string>
    var includeExamples: Option<bool>
    var initializeGit: Option<bool>
    var installDeps: Option<bool>

    /** The object's current property values. */
    function Snapshot(): Options
      reads this
    {
      Options(projectName, projectDescription, transport, includeExamples, initializeGit, installDeps)
    }

    constructor (o: Options)
      ensures Snapshot() == o
    {
      projectName := o.projectName;
      projectDescription := o.projectDescription;
      transport := o.transport;
      includeExamples := o.includeExamples;
      initializeGit := o.initializeGit;
      installDeps := o.installDeps;
    }

    /** `x = x ?? default` for each of the six properties, in order. */
    method FillDefaults()
      modifies this
      ensures Snapshot() == WithDefaults(old(Snapshot()))
    {
      projectName := Some(projectName.GetOr(DefaultProjectName));
      projectDescription := Some(projectDescription.GetOr(DefaultDescription));
      transport := Some(transport.GetOr(DefaultTransport));
      includeExamples := Some(includeExamples.GetOr(true));
      initializeGit := Some(initializeGit.GetOr(true));
      installDeps := Some(installDeps.GetOr(true));
    }
  }

  /** What a run produces, given the positional argument (`None` when absent),
      the flags, and the prompt answers used when prompting happens. */
  function Resolve(projectName: Option<string>, flags: Flags, answers: Options): (r: Outcome)
    ensures r.Exited? <==> projectName.Some? && !Validators.IsValidProjectName(projectName.value)
    ensures r.Exited? ==> r.status == 1
  {
    if projectName.Some? && CheckProjectNameArg(projectName.value).Exit? then
      Exited(CheckProjectNameArg(projectName.value).status)
    else
      var initial := InitialOptions(projectName, flags);
      Configured(if !flags.yes then PromptUser(initial, answers) else WithDefaults(initial))
  }

  /** The run: check the argument, build `projectOptions`, then either prompt or
      fill in the defaults in place. */
  method Run(projectName: Option<string>, flags: Flags, answers: Options) returns (outcome: Outcome)
    ensures outcome == Resolve(projectName, flags, answers)
  {
    var name := projectName;
    if projectName.Some? {
      var checked := CheckProjectNameArg(projectName.value);
      if checked.Exit? {
        return Exited(checked.status);
      }
      name := Some(checked.name);
    }
    var draft := new OptionsDraft(InitialOptions(name, flags));
    var resolved: Options;
    if !flags.yes {
      resolved := PromptUser(draft.Snapshot(), answers);
    } else {
      draft.FillDefaults();
      resolved := draft.Snapshot();
    }
    outcome := Configured(resolved);
  }

  /** Which questions the flags leave to the prompt: the name exactly when no
      positional name was given (a given one is valid, hence non-empty), the
      description and transport when their flags are missing or empty, and a
      boolean only when its flag is `undefined`, so never when the parser
      supplies `true` or `false`. */
  lemma QuestionsFromFlags(projectName: Option<string>, flags: Flags)
    requires projectName.Some? ==> Validators.IsValidProjectName(projectName.value)
    ensures var asked := Asked(InitialOptions(projectName, flags));
      && (ProjectName in asked <==> projectName.None?)
      && (ProjectDescription in asked <==> Falsy(flags.projectDescription))
      && (Transport in asked <==> Falsy(flags.transport))
      && (IncludeExamples in asked <==> flags.examples.None?)
      && (InitializeGit in asked <==> flags.git.None?)
      && (InstallDeps in asked <==> flags.install.None?)
  {
    AskedExactly(InitialOptions(projectName, flags));
  }

  // ---------------------------------------------------------------------------
  // Properties of a run
  // ---------------------------------------------------------------------------

  /** An invalid positional name ends the run with status 1 whatever the flags
      and answers, so option resolution never takes place. */
  lemma InvalidNameExits(name: string, flags: Flags, answers: Options)
    requires !Validators.IsValidProjectName(name)
    ensures Resolve(Some(name), flags, answers) == Exited(1)
  {
  }

  /** The built-in default name is itself a valid project name. */
  lemma DefaultNameValid()
    ensures Validators.IsValidProjectName(DefaultProjectName)
  {
    assert Validators.NameShape(DefaultProjectName);
    Validators.ValidProjectNameIff(DefaultProjectName);
  }

  /** Without `--yes` the options are whatever `promptUser` makes of the initial
      ones; with it, the defaults are filled in and no question is asked. */
  lemma ResolveBranches(projectName: Option<string>, flags: Flags, answers: Options)
    requires projectName.Some? ==> Validators.IsValidProjectName(projectName.value)
    ensures !flags.yes ==>
      Resolve(projectName, flags, answers) == Configured(PromptUser(InitialOptions(projectName, flags), answers))
    ensures flags.yes ==> forall other: Options ::
      Resolve(projectName, flags, other) == Resolve(projectName, flags, answers)
  {
  }

  /** Filling in the defaults is idempotent. */
  lemma WithDefaultsIdempotent(o: Options)
    ensures WithDefaults(WithDefaults(o)) == WithDefaults(o)
  {
  }

  /** Under `--yes`: every property ends up defined; a value the argument or a
      flag supplied (including `""` and an explicit `false`) is kept; a missing
      one gets `my-mcp-server`, `Um servidor MCP personalizado`, `stdio` or `true`. */
  lemma YesFillsDefaults(projectName: Option<string>, flags: Flags, answers: Options)
    requires flags.yes
    requires projectName.Some? ==> Validators.IsValidProjectName(projectName.value)
    ensures var out := Resolve(projectName, flags, answers);
      && out.Configured?
      && Complete(out.options)
      && out.options.projectName == Some(projectName.GetOr("my-mcp-server"))
      && out.options.projectDescription == Some(flags.projectDescription.GetOr("Um servidor MCP personalizado"))
      && out.options.transport == Some(flags.transport.GetOr("stdio"))
      && out.options.includeExamples == Some(flags.examples.GetOr(true))
      && out.options.initializeGit == Some(flags.git.GetOr(true))
      && out.options.installDeps == Some(flags.install.GetOr(true))
  {
  }

  /** Whenever a run is configured, its project name is defined and valid: a
      positional name passed the check, a prompted one passed the validator,
      and the `--yes` default is valid. */
  lemma ConfiguredNameValid(projectName: Option<string>, flags: Flags, answers: Options)
    requires !flags.yes ==> AnswersFit(InitialOptions(projectName, flags), answers)
    requires Resolve(projectName, flags, answers).Configured?
    ensures var o := Resolve(projectName, flags, answers).options;
      o.projectName.Some? && Validators.IsValidProjectName(o.projectName.value)
  {
    var initial := InitialOptions(projectName, flags);
    if flags.yes {
      DefaultNameValid();
    } else {
      PromptedValues(initial, answers);
      if !Falsy(initial.projectName) {
        AskedExactly(initial);
        AnswerPresentIffAsked(initial, answers, ProjectName);
      }
    }
  }

  /** Whenever a run is configured, every property is defined. */
  lemma ConfiguredComplete(projectName: Option<string>, flags: Flags, answers: Options)
    requires !flags.yes ==> AnswersFit(InitialOptions(projectName, flags), answers)
    requires Resolve(projectName, flags, answers).Configured?
    ensures Complete(Resolve(projectName, flags, answers).options)
  {
    if !flags.yes {
      PromptUserComplete(InitialOptions(projectName, flags), answers);
    }
  }

  /** `--no-examples`, `--no-git` and `--no-install` survive both branches. */
  lemma NoFlagsSurvive(projectName: Option<string>, flags: Flags, answers: Options)
    requires !flags.yes ==> AnswersFit(InitialOptions(projectName, flags), answers)
    requires Resolve(projectName, flags, answers).Configured?
    ensures var o := Resolve(projectName, flags, answers).options;
      && (flags.examples == Some(false) ==> o.includeExamples == Some(false))
      && (flags.git == Some(false) ==> o.initializeGit == Some(false))
      && (flags.install == Some(false) ==> o.installDeps == Some(false))
  {
    if !flags.yes {
      ExplicitFalseKept(InitialOptions(projectName, flags), answers);
    }
  }

  /** The two `when` styles differ on an empty description (`-d ""`): `--yes`
      keeps it, since `??` only replaces `undefined`, while the prompt asks for
      it again, since `""` is falsy. */
  lemma EmptyDescriptionDiverges(projectName: Option<string>, flags: Flags, answers: Options)
    requires flags.projectDescription == Some("")
    requires projectName.Some? ==> Validators.IsValidProjectName(projectName.value)
    ensures flags.yes ==> Resolve(projectName, flags, answers).options.projectDescription == Some("")
    ensures !flags.yes ==> ProjectDescription in Asked(InitialOptions(projectName, flags))
  {
    AskedExactly(InitialOptions(projectName, flags));
  }

  /** A `-t` value is never checked: under `--yes`, and without it when it is a
      non-empty string, any transport reaches the resolved options unchanged. */
  lemma TransportUnchecked(projectName: Option<string>, flags: Flags, answers: Options, t: string)
    requires flags.transport == Some(t) && t != ""
    requires projectName.Some? ==> Validators.IsValidProjectName(projectName.value)
    requires !flags.yes ==> AnswersFit(InitialOptions(projectName, flags), answers)
    ensures Resolve(projectName, flags, answers).options.transport == Some(t)
  {
    if !flags.yes {
      var initial := InitialOptions(projectName, flags);
      AskedExactly(initial);
      AnswerPresentIffAsked(initial, answers, Transport);
    }
  }
}
