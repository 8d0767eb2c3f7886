# create-mcp-server: name validation and option resolution, in Dafny

`create-mcp-server` is a command-line scaffolder for MCP servers. Before any
project is generated it does two things, and they are what this project models:

1. **Validation** (`src/cli/validators.ts`). `isValidProjectName` decides whether
   a project name is acceptable. It refuses falsy and blank names, then tests the
   pattern `/^(?![_.-])(?!.*[\\/!*?"<>|])[a-z0-9-~._]+$/`. `isDirectoryValid`
   decides whether a target path may be used. It may when the path does not exist,
   or when it is a directory holding only hidden entries. Errors other than ENOENT
   are rethrown.
2. **Option resolution** (`src/cli/ui.ts`, `src/index.ts`). The positional project
   name is checked, and an invalid one ends the process with status 1. A partial
   `ProjectOptions` object is built from the flags. Without `--yes`, `promptUser`
   asks only the missing questions and spreads the answers over the options. String
   properties are asked when falsy; boolean properties only when `undefined`. With
   `--yes`, each `undefined` property is set in place to its default (`??`).

Files:

- `wrappers.dfy`: `Option` (a property that may be `undefined`) and `Result`
  (a return value or a thrown error).
- `validators.dfy`: module `Validators`. It holds the ECMAScript white-space and
  line-terminator sets, `trim`, the regular expression taken apart piece by piece,
  `isValidProjectName`, and `isDirectoryValid` over an abstract `stat`/`readdir`
  outcome.
- `ui.dfy`: module `Ui`. The `Options` record stands for `Partial<ProjectOptions>`.
  The question list is data: name, kind, default and `when`. The prompt answers are
  an input that satisfies `AnswersFit`: one property per asked question, each an
  answer the question admits. The object spread is `PromptUser`.
- `cli.dfy`: module `Cli`. It holds the argument callback, the `projectOptions`
  object as the class `OptionsDraft` (the `--yes` branch assigns its fields one by
  one in `FillDefaults`), the specification `Resolve` of a run, and the imperative
  `Run` proved equal to it.

The regular expression is modelled as written, and two facts are proved about it.
The denylist lookahead `(?!.*[\\/!*?"<>|])` never rejects a string that the class
`[a-z0-9-~._]+` accepts. The `trim()` check never rejects a string that the pattern
accepts. So a name is valid exactly when it is non-empty, uses only a–z, 0–9, `-`,
`~`, `.` and `_`, and does not start with `_`, `.` or `-` (`ValidProjectNameIff`).

Template rendering, directory composition, clean-up and the git/install steps do
not exist in the code: `src/generator.ts` only copies a base template, and
`src/index.ts:76` has the call to it commented out. In `isDirectoryValid`, an ENOENT raised by `readdir` is also caught by the single
`try`/`catch` and yields `true`; the model keeps that case.

## Model

| member | source | states |
|---|---|---|
| Validators.TrimStart | src/cli/validators.ts:11 | the leading half of `trim()`: never longer than its input, and the result is empty or starts with a non-space |
| Validators.TrimEnd | src/cli/validators.ts:11 | the trailing half of `trim()`: never longer than its input, and the result is empty or ends with a non-space |
| Validators.Trim | src/cli/validators.ts:11 | `name.trim()`: never longer than the name, and empty or bounded by non-space characters on both ends |
| Validators.TrimStartRemovesLeadingSpace | src/cli/validators.ts:11 | `trim` drops exactly the leading run of ECMAScript white space: the rest is a suffix that starts with a non-space |
| Validators.TrimEndRemovesTrailingSpace | src/cli/validators.ts:11 | `trim` drops exactly the trailing run of white space: the rest is a prefix that ends with a non-space |
| Validators.TrimEmptyIffBlank | src/cli/validators.ts:11 | `name.trim().length === 0` holds exactly when every character is white space |
| Validators.BlankNameRejected | src/cli/validators.ts:11-13 | the empty name and all-white-space names are refused |
| Validators.DeniedLookaheadRedundant | src/cli/validators.ts:17 | a string over `[a-z0-9-~._]` never contains a character of `[\\/!*?"<>|]`, so the second lookahead never rejects it |
| Validators.MatchesNamePattern | src/cli/validators.ts:17 | the regular expression, lookaheads and all, matches exactly the names of `NameShape`: non-empty, every character in the class, first not `_`, `.` or `-` |
| Validators.IsValidProjectName | src/cli/validators.ts:10-19 | falsy and blank names are refused before the pattern; every accepted name has the `NameShape` |
| Validators.ValidProjectNameIff | src/cli/validators.ts:10-19 | valid iff non-empty, every character in a–z, 0–9, `-`, `~`, `.`, `_`, and the first not `_`, `.` or `-` (both directions) |
| Validators.ForeignCharacterRejected | src/cli/validators.ts:17 | a name with an upper-case letter, white space or a denylist character anywhere is refused |
| Validators.AcceptedNameTable | tests/validators.test.ts:20-26 | the names of this file and of tests/cli/validators.test.ts:25-27, `my-project`, `project123`, `p`, `a.b.c`, `my-project_v1`, `project-123`, `project_name` are accepted |
| Validators.RejectedNameTable | tests/validators.test.ts:28-37 | the names of this file and of tests/cli/validators.test.ts:31-36, `""`, `" "`, `MyProject`, `my project`, `/my-project`, `.my-project`, `_my-project`, `-my-project`, `my-project!`, `my-project-!` are refused |
| Validators.Visible | src/cli/validators.ts:31 | the filter keeps exactly the entries that do not start with `.`, and never grows the list |
| Validators.Caught | src/cli/validators.ts:35-42 | the catch block turns ENOENT into `true` and rethrows every other error code unchanged |
| Validators.IsDirectoryValid | src/cli/validators.ts:25-43 | `true` iff the path is missing (ENOENT) or is a directory whose entries are all hidden; an error reaches the caller iff stat or readdir failed with a code other than ENOENT, and it carries that code |
| Validators.DirectoryVerdict | src/cli/validators.ts:28-31 | a listed directory yields `true` exactly when every entry starts with `.` |
| Validators.InsertedEntry | src/cli/validators.ts:29-31 | inserting a hidden entry anywhere leaves the verdict unchanged; inserting a visible one makes it `false` |
| Validators.DirectoryTestTable | tests/validators.test.ts:40-71 | missing path, empty directory and `.DS_Store`-only directory give `true`; `file.txt` and a plain file give `false` |
| Ui.Questions | src/cli/ui.ts:24-72 | the question list has six entries, one per `ProjectOptions` property, no two with the same name |
| Ui.PromptUser | src/cli/ui.ts:23-80 | in `{...options, ...answers}` every property is the answer's when present, otherwise the option's |
| Ui.AskedAt | src/cli/ui.ts:24-72 | a question is in the asked set exactly when its own `when` holds (no two questions share a name) |
| Ui.AskedExactly | src/cli/ui.ts:30-70 | name, description and transport are asked iff falsy (so `undefined` and `""`); examples, git and install iff `undefined` |
| Ui.AnswerPresentIffAsked | src/cli/ui.ts:74 | states the contract of `AnswersFit` (the answers `inquirer.prompt` returns): under well-formed answers, an answer property is present exactly for each asked question |
| Ui.PromptUserFields | src/cli/ui.ts:74-79 | each property of the result is the answer if its question was asked, otherwise the supplied value |
| Ui.PromptUserComplete | src/cli/ui.ts:76-79 | after prompting every `ProjectOptions` property is defined |
| Ui.PromptedValues | src/cli/ui.ts:25-50 | a prompted name passes `isValidProjectName`; a prompted transport is `stdio` or `http` |
| Ui.ExplicitFalseKept | src/cli/ui.ts:51-71 | an explicit `false` for examples, git or install is not asked and stays `false` |
| Ui.NothingToAsk | src/cli/ui.ts:24-79 | truthy strings and defined booleans mean no question is asked and the options come back unchanged |
| Cli.CheckProjectNameArg | src/index.ts:31-38 | the callback accepts exactly the valid names, returning them unchanged, and otherwise exits with status 1 |
| Cli.QuestionsFromFlags | src/index.ts:46-56 | for the `projectOptions` literal built from a checked name and the flags, the name is asked iff no name was given, description and transport iff their flags are missing or `""`, each boolean iff its flag is `undefined` |
| Cli.WithDefaults | src/index.ts:62-69 | after `--yes` every property is defined; a defined property keeps its value; an undefined one gets its default |
| Cli.OptionsDraft.constructor | src/index.ts:46-56 | the `projectOptions` object starts with the argument's and flags' values |
| Cli.OptionsDraft.FillDefaults | src/index.ts:63-68 | the six in-place `??` assignments leave the object equal to `WithDefaults` of its old value |
| Cli.Resolve | src/index.ts:31-69 | a run exits iff a positional name was given and is invalid, and then with status 1; otherwise it is configured |
| Cli.Run | src/index.ts:31-69 | the imperative run (argument check, object literal, prompt or in-place defaults) yields exactly `Resolve` |
| Cli.InvalidNameExits | src/index.ts:31-36 | an invalid positional name exits with status 1 whatever the flags and answers |
| Cli.DefaultNameValid | src/index.ts:63 | the default name `my-mcp-server` is itself a valid project name |
| Cli.ResolveBranches | src/index.ts:59-69 | without `--yes` the result is `promptUser` of the initial options; with it the answers play no part |
| Cli.WithDefaultsIdempotent | src/index.ts:63-68 | filling the defaults twice equals filling them once |
| Cli.YesFillsDefaults | src/index.ts:62-69 | under `--yes` supplied values (also `""` and `false`) are kept and missing ones become `my-mcp-server`, `Um servidor MCP personalizado`, `stdio`, `true`, `true`, `true` |
| Cli.ConfiguredNameValid | src/index.ts:31-69 | whenever a run is configured, its project name is defined and valid, in either branch |
| Cli.ConfiguredComplete | src/index.ts:58-69 | whenever a run is configured, every property is defined, in either branch |
| Cli.NoFlagsSurvive | src/index.ts:53-55 | `--no-examples`, `--no-git` and `--no-install` give `false` in the resolved options, in either branch |
| Cli.EmptyDescriptionDiverges | src/index.ts:59-64 | `-d ""` is kept under `--yes` (`??`) but asked again without it (falsy test) |
| Cli.TransportUnchecked | src/index.ts:49 | a non-empty `-t` value reaches the resolved options unchanged in both branches; nothing checks it against `stdio`/`http` |

## Left out

- `isNodeVersionValid` (src/cli/validators.ts:49-52) and the version gate in `main` are not modelled. The verdict comes from the `semver` library applied to `process.version`, which is foreign code.
- `displayBanner`, `chalk` styling, the console messages and the `package.json` lookup are output only. The question `message` texts are display text and are not part of the `Question` record.
- The prompt library (`inquirer.prompt`) is not modelled. Its result is an input constrained by `AnswersFit`. How it applies a question's `default` to an empty reply is its own behaviour.
- Argument and flag parsing, `process.exit` and the `main().catch` handler are not modelled. The parsed values are inputs, and an exit is the outcome `Exited(status)`. The comment at src/index.ts:50-52 expects `undefined` for an absent `--no-x` flag, but a lone `--no-x` option gets the default `true` from the parser, so from the command line the three `confirm` questions are never asked. The parser is not modelled: `Flags` admits `undefined`, `false` and `true`, and `QuestionsFromFlags` shows which of them lead to a question.
- The `??` operator also replaces `null`. The parser never produces `null`, so `None` stands for `undefined` only.
- `generateProject` (src/generator.ts) is not modelled. The action never calls it, and it is only `fs-extra` copying. The template rendering, composition, clean-up, git and install steps are not in the code at all.
- `bin/create-mcp-server.js` (it spawns `tsx`) and `jest.config.js` (test configuration) are not part of this model.
- Strings are sequences of Unicode scalar values, not UTF-16 code units. Every character the pattern admits is ASCII, so no verdict changes.
- `isDirectoryValid`'s file system is abstracted as the outcome of `stat` followed by `readdir`. An error that carries no `code` behaves like any code other than ENOENT.
