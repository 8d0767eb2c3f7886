/** Project-name and target-directory validation (src/cli/validators.ts). */
module Validators {
  import opened Wrappers

  // ---------------------------------------------------------------------------
  // Characters as ECMAScript classifies them
  // ---------------------------------------------------------------------------

  /** LineTerminator: the characters `.` in a regular expression does not match. */
  predicate IsLineTerminator(c: char) {
    c == '\n' || c == '\r' || c == '\U{2028}' || c == '\U{2029}'
  }

  /** WhiteSpace or LineTerminator: the characters `String.prototype.trim` removes. */
  predicate IsWhiteSpace(c: char) {
    || IsLineTerminator(c)
    || c == '\t' || c == '\U{000B}' || c == '\U{000C}' || c == ' '
    || c == '\U{00A0}' || c == '\U{1680}' || ('\U{2000}' <= c <= '\U{200A}')
    || c == '\U{202F}' || c == '\U{205F}' || c == '\U{3000}' || c == '\U{FEFF}'
  }

  /** Leading white space removed. */
  function TrimStart(s: string): (r: string)
    ensures |r| <= |s|
    ensures r == [] || !IsWhiteSpace(r[0])
    decreases |s|
  {
    if s != [] && IsWhiteSpace(s[0]) then TrimStart(s[1..]) else s
  }

  /** Trailing white space removed. */
  function TrimEnd(s: string): (r: string)
    ensures |r| <= |s|
    ensures r == [] || !IsWhiteSpace(r[|r| - 1])
    decreases |s|
  {
    if s != [] && IsWhiteSpace(s[|s| - 1]) then TrimEnd(s[..|s| - 1]) else s
  }

  /** `s.trim()`: what is left neither starts nor ends with white space. */
  function Trim(s: string): (r: string)
    ensures |r| <= |s|
    ensures r == [] || (!IsWhiteSpace(r[0]) && !IsWhiteSpace(r[|r| - 1]))
  {
    TrimEndRemovesTrailingSpace(TrimStart(s));
    TrimEnd(TrimStart(s))
  }

  /** TrimStart removes exactly the leading run of white space. */
  lemma {:induction false} TrimStartRemovesLeadingSpace(s: string)
    ensures var r := TrimStart(s);
      && r == s[|s| - |r|..]
      && (forall i :: 0 <= i < |s| - |r| ==> IsWhiteSpace(s[i]))
      && (r == [] || !IsWhiteSpace(r[0]))
    decreases |s|
  {
    if s != [] && IsWhiteSpace(s[0]) {
      TrimStartRemovesLeadingSpace(s[1..]);
      var r := TrimStart(s);
      forall i | 0 <= i < |s| - |r| ensures IsWhiteSpace(s[i]) {
        if i > 0 { assert s[i] == s[1..][i - 1]; }
      }
    }
  }

  /** TrimEnd removes exactly the trailing run of white space. */
  lemma {:induction false} TrimEndRemovesTrailingSpace(s: string)
    ensures var r := TrimEnd(s);
      && r == s[..|r|]
      && (forall i :: |r| <= i < |s| ==> IsWhiteSpace(s[i]))
      && (r == [] || !IsWhiteSpace(r[|r| - 1]))
    decreases |s|
  {
    if s != [] && IsWhiteSpace(s[|s| - 1]) {
      TrimEndRemovesTrailingSpace(s[..|s| - 1]);
      var r := TrimEnd(s);
      forall i | |r| <= i < |s| ensures IsWhiteSpace(s[i]) {
        if i < |s| - 1 { assert s[i] == s[..|s| - 1][i]; }
      }
    }
  }

  /** A string trims to nothing exactly when every character in it is white space. */
  lemma TrimEmptyIffBlank(s: string)
    ensures |Trim(s)| == 0 <==> forall i :: 0 <= i < |s| ==> IsWhiteSpace(s[i])
  {
    var t := TrimStart(s);
    TrimStartRemovesLeadingSpace(s);
    TrimEndRemovesTrailingSpace(t);
  }

  // ---------------------------------------------------------------------------
  // The pattern /^(?![_.-])(?!.*[\\/!*?"<>|])[a-z0-9-~._]+$/
  // ---------------------------------------------------------------------------

  /** `[a-z0-9-~._]`: the hyphen after the range `0-9` is a literal. */
  predicate InNameClass(c: char) {
    ('a' <= c <= 'z') || ('0' <= c <= '9') || c == '-' || c == '~' || c == '.' || c == '_'
  }

  /** `[_.-]`, the characters the first lookahead forbids at the start. */
  predicate IsForbiddenLead(c: char) {
    c == '_' || c == '.' || c == '-'
  }

  /** `[\\/!*?"<>|]`, the characters the second lookahead forbids anywhere. */
  predicate IsDenied(c: char) {
    c == '\\' || c == '/' || c == '!' || c == '*' || c == '?' || c == '"' || c == '<' || c == '>' || c == '|'
  }

  /** `.*[\\/!*?"<>|]` matches at the start of `s`: some denied character is
      preceded only by characters `.` matches (anything but a line terminator). */
  predicate DeniedAhead(s: string) {
    exists k :: 0 <= k < |s| && IsDenied(s[k]) && forall j :: 0 <= j < k ==> !IsLineTerminator(s[j])
  }

  /** `[a-z0-9-~._]+$` matches at the start of `s`: one or more class characters,
      then the end of input (`$` without the multiline flag). */
  predicate ClassPlusToEnd(s: string) {
    |s| >= 1 && forall i :: 0 <= i < |s| ==> InNameClass(s[i])
  }

  /** The whole pattern, tested at position 0 (no flags, so `^` is the start of input). */
  predicate MatchesNamePattern(s: string)
    ensures MatchesNamePattern(s) <==> NameShape(s)
  {
    && !(s != [] && IsForbiddenLead(s[0]))
    && !DeniedAhead(s)
    && ClassPlusToEnd(s)
  }

  /** `isValidProjectName`: falsy and blank names are refused, then the pattern decides. */
  predicate IsValidProjectName(name: string)
    ensures IsValidProjectName(name) ==> NameShape(name)
  {
    if name == [] || |Trim(name)| == 0 then false else MatchesNamePattern(name)
  }

  /** The shape a valid project name has, stated without the regular expression:
      no lookahead, no trimming. */
  predicate NameShape(name: string) {
    && |name| > 0
    && !IsForbiddenLead(name[0])
    && forall i :: 0 <= i < |name| ==> InNameClass(name[i])
  }

  /** No denied character belongs to the class, so the second lookahead never
      rejects a string the class accepts. */
  lemma DeniedLookaheadRedundant(s: string)
    requires ClassPlusToEnd(s)
    ensures !DeniedAhead(s)
  {
    forall k | 0 <= k < |s| ensures !IsDenied(s[k]) {
      assert InNameClass(s[k]);
    }
  }

  /** A name is valid exactly when it is non-empty, uses only a-z, 0-9, `-`, `~`,
      `.` and `_`, and does not start with `_`, `.` or `-`. */
  lemma ValidProjectNameIff(name: string)
    ensures IsValidProjectName(name) <==> NameShape(name)
  {
    if NameShape(name) {
      DeniedLookaheadRedundant(name);
      TrimEmptyIffBlank(name);
      assert !IsWhiteSpace(name[0]);
    }
  }

  /** The empty name and names made only of white space are refused. */
  lemma BlankNameRejected(name: string)
    requires forall i :: 0 <= i < |name| ==> IsWhiteSpace(name[i])
    ensures !IsValidProjectName(name)
  {
    TrimEmptyIffBlank(name);
  }

  /** A name holding an upper-case letter, white space or a denied character is refused. */
  lemma ForeignCharacterRejected(name: string, i: int)
    requires 0 <= i < |name|
    requires ('A' <= name[i] <= 'Z') || IsWhiteSpace(name[i]) || IsDenied(name[i])
    ensures !IsValidProjectName(name)
  {
    ValidProjectNameIff(name);
  }

  /** The names the repository's tests accept are accepted. */
  lemma AcceptedNameTable(name: string)
    requires || name == "my-project" || name == "project123" || name == "p" || name == "a.b.c"
             || name == "my-project_v1" || name == "project-123" || name == "project_name"
    ensures IsValidProjectName(name)
  {
    assert NameShape(name);
    ValidProjectNameIff(name);
  }

  /** The names the repository's tests reject are rejected. */
  lemma RejectedNameTable(name: string)
    requires || name == "" || name == " " || name == "MyProject" || name == "my project"
             || name == "/my-project" || name == ".my-project" || name == "_my-project"
             || name == "-my-project" || name == "my-project!" || name == "my-project-!"
    ensures !IsValidProjectName(name)
  {
    ValidProjectNameIff(name);
    if name != "" && name != " " {
      assert !NameShape(name) by {
        if name == "MyProject" { assert !InNameClass(name[0]); }
        else if name == "my project" { assert !InNameClass(name[2]); }
        else if name == "my-project!" { assert !InNameClass(name[10]); }
        else if name == "my-project-!" { assert !InNameClass(name[11]); }
      }
    }
  }

  // ---------------------------------------------------------------------------
  // isDirectoryValid
  // ---------------------------------------------------------------------------

  /** What `fs.readdir` gives: the entry names, or an error with its `code`. */
  datatype ReaddirResult = Entries(names: seq<string>) | ReaddirFailed(code: string)

  /** What `fs.stat` gives: an error with its `code`, something that is not a
      directory, or a directory (which is then listed). */
  datatype StatResult = StatFailed(code: string) | NotADirectory | Directory(listing: ReaddirResult)

  const ENOENT := "ENOENT"

  /** `file.startsWith('.')` */
  predicate IsHidden(name: string) {
    |name| > 0 && name[0] == '.'
  }

  /** `files.filter(file => !file.startsWith('.'))` */
  function Visible(names: seq<string>): (r: seq<string>)
    ensures |r| <= |names|
    ensures forall n :: n in r <==> n in names && !IsHidden(n)
  {
    if names == [] then []
    else if IsHidden(names[0]) then Visible(names[1..])
    else [names[0]] + Visible(names[1..])
  }

  /** The `catch` block: a missing path is fine, any other error is rethrown. */
  function Caught(code: string): (r: Result<bool, string>)
    ensures r == Ok(true) || r == Err(code)
    ensures r.Ok? <==> code == ENOENT
  {
    if code == ENOENT then Ok(true) else Err(code)
  }

  /** `isDirectoryValid`: a target directory may be used when it does not exist or
      holds nothing but hidden entries; stat and readdir errors other than ENOENT
      reach the caller unchanged. */
  function IsDirectoryValid(stat: StatResult): (r: Result<bool, string>)
    ensures r.Err? ==> r.error != ENOENT
    ensures r.Err? <==> ((stat.StatFailed? && stat.code != ENOENT)
                      || (stat.Directory? && stat.listing.ReaddirFailed? && stat.listing.code != ENOENT))
    ensures r.Err? && stat.StatFailed? ==> r.error == stat.code
    ensures r.Err? && stat.Directory? ==> r.error == stat.listing.code
    ensures r == Ok(true) <==> ((stat.StatFailed? && stat.code == ENOENT)
                             || (stat.Directory? && stat.listing.ReaddirFailed? && stat.listing.code == ENOENT)
                             || (stat.Directory? && stat.listing.Entries?
                                 && forall i :: 0 <= i < |stat.listing.names| ==> IsHidden(stat.listing.names[i])))
  {
    match stat
    case StatFailed(code) => Caught(code)
    case NotADirectory => Ok(false)
    case Directory(Entries(names)) =>
      assert (|Visible(names)| == 0) <==> forall i :: 0 <= i < |names| ==> IsHidden(names[i]) by {
        if |Visible(names)| > 0 { assert Visible(names)[0] in Visible(names); }
        forall i | 0 <= i < |names| && !IsHidden(names[i]) ensures |Visible(names)| > 0 {
          assert names[i] in Visible(names);
        }
      }
      Ok(|Visible(names)| == 0)
    case Directory(ReaddirFailed(code)) => Caught(code)
  }

  /** A listed directory is acceptable exactly when every entry is hidden. */
  lemma DirectoryVerdict(names: seq<string>)
    ensures IsDirectoryValid(Directory(Entries(names)))
         == Ok(forall i :: 0 <= i < |names| ==> IsHidden(names[i]))
  {
  }

  /** Inserting a hidden entry never changes the verdict; inserting a visible one
      makes it false. */
  lemma InsertedEntry(names: seq<string>, k: nat, e: string)
    requires k <= |names|
    ensures var more := names[..k] + [e] + names[k..];
      IsDirectoryValid(Directory(Entries(more)))
        == if IsHidden(e) then IsDirectoryValid(Directory(Entries(names))) else Ok(false)
  {
    var more := names[..k] + [e] + names[k..];
    assert more[k] == e;
    assert forall i :: 0 <= i < |names| ==> names[i] == more[if i < k then i else i + 1];
    assert forall i :: 0 <= i < |more| && i != k ==> more[i] == names[if i < k then i else i - 1];
  }

  /** The directory cases the repository's tests exercise. */
  lemma DirectoryTestTable()
    ensures IsDirectoryValid(StatFailed(ENOENT)) == Ok(true)
    ensures IsDirectoryValid(Directory(Entries([]))) == Ok(true)
    ensures IsDirectoryValid(Directory(Entries([".DS_Store"]))) == Ok(true)
    ensures IsDirectoryValid(Directory(Entries(["file.txt"]))) == Ok(false)
    ensures IsDirectoryValid(NotADirectory) == Ok(false)
  {
    DirectoryVerdict([".DS_Store"]);
    DirectoryVerdict(["file.txt"]);
  }
}
