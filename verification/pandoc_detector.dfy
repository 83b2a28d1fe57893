/**
 * PandocDetector: finds a usable pandoc executable.  Discovery tries, in
 * order, the path saved under "pandocPath", the environment variables
 * PANDOC_HOME, PANDOC_PATH and PANDOC, the bare executable name, and the
 * platform's usual install locations, and returns the first candidate that
 * answers `--version`.
 */
module PandocDetector {
  import opened Wrappers
  import opened Text
  import opened EnvUtils
  import opened Discovery

  /** A validated pandoc: where it is and the first line of its version report. */
  datatype PandocInfo = PandocInfo(path: string, version: string)

  /** The settings key of the user's saved pandoc path. */
  const EnvKey := "pandocPath"

  /** The environment variables the second stage reads, in order. */
  const EnvVariableNames: seq<string> := ["PANDOC_HOME", "PANDOC_PATH", "PANDOC"]

  /** ExecutableFileName: "pandoc.exe" on Windows, "pandoc" elsewhere. */
  function ExecutableFileName(os: Platform): (name: string)
    ensures |name| >= 6 && name[..6] == "pandoc"
    ensures name == "pandoc.exe" <==> os == Windows
    ensures os != Windows ==> name == "pandoc"
  {
    if os == Windows then "pandoc.exe" else "pandoc"
  }

  /** An absolute path of a file named pandoc. */
  predicate IsUnixPandocPath(p: string) {
    |p| > 7 && p[0] == '/' && p[|p| - 7..] == "/pandoc"
  }

  /** CommonInstallPaths: the usual install locations of the platform, in the
      order they are tried. */
  function CommonInstallPaths(host: Host): (paths: seq<string>)
    ensures |paths| == match host.os case Windows => 5 case MacOS => 3 case Linux => 4
    ensures host.os != Windows ==> forall k | 0 <= k < |paths| :: IsUnixPandocPath(paths[k])
  {
    match host.os
    case Windows => WindowsInstallPaths(host)
    case MacOS => MacInstallPaths()
    case Linux => LinuxInstallPaths(host.userName)
  }

  /** Under Program Files (64- and 32-bit), scoop's shims and the user's bin. */
  function WindowsInstallPaths(host: Host): (paths: seq<string>)
    ensures |paths| == 5
  {
    [ CombinePath(host, host.programFiles, ["Pandoc", "pandoc.exe"]),
      CombinePath(host, host.programFilesX86, ["Pandoc", "pandoc.exe"]),
      CombinePath(host, host.programFiles, ["pandoc", "pandoc.exe"]),
      CombinePath(host, host.userProfile, ["scoop", "shims", "pandoc.exe"]),
      CombinePath(host, host.userProfile, ["bin", "pandoc.exe"]) ]
  }

  /** Homebrew's two prefixes, then the system's. */
  function MacInstallPaths(): (paths: seq<string>)
    ensures |paths| == 3 && forall k | 0 <= k < |paths| :: IsUnixPandocPath(paths[k])
  {
    ["/usr/local/bin/pandoc", "/opt/homebrew/bin/pandoc", "/usr/bin/pandoc"]
  }

  /** The system's, /usr/local, snap, then the user's ~/.local/bin. */
  function LinuxInstallPaths(userName: string): (paths: seq<string>)
    ensures |paths| == 4 && forall k | 0 <= k < |paths| :: IsUnixPandocPath(paths[k])
    ensures paths[3] == "/home/" + userName + "/.local/bin/pandoc"
  {
    var local := "/home/" + userName + "/.local/bin/pandoc";
    assert IsUnixPandocPath(local) by {
      assert local[|local| - 7..] == "/.local/bin/pandoc"[11..];
    }
    ["/usr/bin/pandoc", "/usr/local/bin/pandoc", "/snap/bin/pandoc", local]
  }

  /** The version line of GetPandocVersionAsync, given what `--version`
      wrote: the first non-empty line of stdout when stdout is not blank,
      otherwise that of stderr when stderr is not blank, otherwise null. */
  function VersionLine(output: ProcessOutput): (v: Option<string>)
    ensures v.None? <==> IsBlank(output.stdout) && IsBlank(output.stderr)
    ensures v.Some? ==> v.value != "" && NoneIn(v.value, LineBreaks)
    ensures !IsBlank(output.stdout) ==> v == FirstLine(output.stdout)
    ensures IsBlank(output.stdout) && !IsBlank(output.stderr) ==> v == FirstLine(output.stderr)
  {
    if !IsBlank(output.stdout) then FirstLine(output.stdout)
    else if !IsBlank(output.stderr) then FirstLine(output.stderr)
    else None
  }

  /** GetPandocVersionAsync: runs `exe --version`; null for a blank name and
      whenever the process fails, is cancelled or reports nothing. */
  function GetPandocVersion(host: Host, exe: string): (v: Option<string>)
    ensures v.Some? ==> !IsBlank(exe) && host.runVersion(exe).Some?
    ensures !IsBlank(exe) && host.runVersion(exe).Some? ==> v == VersionLine(host.runVersion(exe).value)
  {
    if IsBlank(exe) then None
    else match host.runVersion(exe)
      case None => None
      case Some(output) => VersionLine(output)
  }

  /** ResolveFullPathAsync: the first non-empty line `where`/`which` prints. */
  function ResolveFullPath(host: Host, exe: string): (p: Option<string>)
    ensures p.Some? ==> p.value != "" && NoneIn(p.value, LineBreaks) && !IsBlank(exe) && host.locate(exe).Some?
    ensures !IsBlank(exe) && host.locate(exe).Some? ==> p == FirstLine(host.locate(exe).value)
  {
    if IsBlank(exe) then None
    else match host.locate(exe)
      case None => None
      case Some(output) => FirstLine(output)
  }

  /** An existing directory stands for the pandoc executable inside it. */
  function Expand(host: Host, candidate: string): (exe: string)
    ensures candidate !in host.directories ==> exe == candidate
    ensures candidate in host.directories ==> exe == host.combine(candidate, ExecutableFileName(host.os))
  {
    if candidate in host.directories then host.combine(candidate, ExecutableFileName(host.os)) else candidate
  }

  /** TryValidatePandocPathAsync: null for a blank candidate, for a rooted
      path that is not a file (before any process starts) and when pandoc
      gives no usable version line; otherwise the trimmed version line and the
      resolved path, or the candidate itself when nothing was resolved. */
  function TryValidatePandocPath(host: Host, candidate: string): (r: Option<PandocInfo>)
    ensures IsBlank(candidate) ==> r.None?
    ensures var exe := Expand(host, candidate);
      r.Some? <==>
        && !IsBlank(candidate)
        && !(host.isRooted(exe) && exe !in host.files)
        && GetPandocVersion(host, exe).Some? && !IsBlank(GetPandocVersion(host, exe).value)
    ensures var exe := Expand(host, candidate);
      r.Some? ==>
        && GetPandocVersion(host, exe).Some?
        && r.value.version == Trim(GetPandocVersion(host, exe).value)
        && r.value.version != "" && NoneIn(r.value.version, LineBreaks)
        && r.value.path == (var resolved := ResolveFullPath(host, exe);
                            if IsNullOrWhiteSpace(resolved) then exe else resolved.value)
  {
    if IsBlank(candidate) then None
    else
      var exe := Expand(host, candidate);
      if host.isRooted(exe) && exe !in host.files then None
      else match GetPandocVersion(host, exe)
        case None => None
        case Some(version) =>
          if IsBlank(version) then None
          else
            var resolved := ResolveFullPath(host, exe);
            var path := if IsNullOrWhiteSpace(resolved) then exe else resolved.value;
            TrimKeepsInside(version, LineBreaks);
            Some(PandocInfo(path, Trim(version)))
  }

  /** A rooted candidate that is not an existing file is rejected before any
      process starts: the answer is the same whatever the processes would
      print. */
  lemma MissingRootedPathStartsNothing(host: Host, candidate: string,
                                       run: string -> Option<ProcessOutput>, locate: string -> Option<string>)
    requires var exe := Expand(host, candidate); host.isRooted(exe) && exe !in host.files
    ensures TryValidatePandocPath(host, candidate).None?
    ensures TryValidatePandocPath(host.(runVersion := run, locate := locate), candidate).None?
  {
  }

  /** When `--version` prints a version line first on stdout, that line,
      trimmed, is the version, whatever follows it and whatever stderr holds. */
  lemma {:induction false} VersionIsFirstStdoutLine(host: Host, candidate: string, line: string, rest: string, stderr: string)
    requires candidate !in host.directories && !IsBlank(candidate)
    requires !(host.isRooted(candidate) && candidate !in host.files)
    requires host.runVersion(candidate) == Some(ProcessOutput(line + rest, stderr))
    requires !IsBlank(line) && NoneIn(line, LineBreaks)
    requires rest == [] || rest[0] in LineBreaks
    ensures TryValidatePandocPath(host, candidate).Some?
    ensures TryValidatePandocPath(host, candidate).value.version == Trim(line)
  {
    var k :| 0 <= k < |line| && !IsWhiteSpace(line[k]);
    FirstLineOfLine(line, rest);
    NotBlankPrefix(line, rest);
    assert VersionLine(ProcessOutput(line + rest, stderr)) == Some(line);
    assert GetPandocVersion(host, candidate) == Some(line);
  }

  /** When stdout is not blank, its first non-empty line (wherever it starts)
      decides: a line that is not blank is the version, trimmed. */
  lemma StdoutFirstLineValidates(host: Host, candidate: string, output: ProcessOutput)
    requires candidate !in host.directories && !IsBlank(candidate)
    requires !(host.isRooted(candidate) && candidate !in host.files)
    requires host.runVersion(candidate) == Some(output)
    requires !IsBlank(output.stdout) && !IsBlank(FirstLine(output.stdout).value)
    ensures TryValidatePandocPath(host, candidate).Some?
    ensures TryValidatePandocPath(host, candidate).value.version == Trim(FirstLine(output.stdout).value)
  {
    assert GetPandocVersion(host, candidate) == FirstLine(output.stdout);
  }

  /** When stdout is blank, stderr's first non-empty line is the version,
      trimmed, provided it is not blank. */
  lemma StderrFirstLineValidates(host: Host, candidate: string, output: ProcessOutput)
    requires candidate !in host.directories && !IsBlank(candidate)
    requires !(host.isRooted(candidate) && candidate !in host.files)
    requires host.runVersion(candidate) == Some(output)
    requires IsBlank(output.stdout) && !IsBlank(output.stderr) && !IsBlank(FirstLine(output.stderr).value)
    ensures TryValidatePandocPath(host, candidate).Some?
    ensures TryValidatePandocPath(host, candidate).value.version == Trim(FirstLine(output.stderr).value)
  {
    assert GetPandocVersion(host, candidate) == FirstLine(output.stderr);
  }

  /** A whitespace-only first line on stdout rejects the candidate, even when
      stderr holds a perfectly good version line: stderr is read only when
      stdout is blank as a whole. */
  lemma WhiteSpaceFirstLineRejects(host: Host, candidate: string, output: ProcessOutput)
    requires candidate !in host.directories && !IsBlank(candidate)
    requires host.runVersion(candidate) == Some(output)
    requires !IsBlank(output.stdout)
    requires FirstLine(output.stdout).Some? && IsBlank(FirstLine(output.stdout).value)
    ensures TryValidatePandocPath(host, candidate).None?
  {
  }

  /** Validating a directory is validating the executable inside it (as long
      as that is not a directory in turn). */
  lemma DirectoryMeansItsExecutable(host: Host, dir: string)
    requires dir in host.directories && !IsBlank(dir)
    requires host.combine(dir, ExecutableFileName(host.os)) !in host.directories
    ensures TryValidatePandocPath(host, dir) == TryValidatePandocPath(host, host.combine(dir, ExecutableFileName(host.os)))
  {
  }

  /** Validation as a function value, for the searches. */
  function Validator(host: Host): string -> Option<PandocInfo> {
    candidate => TryValidatePandocPath(host, candidate)
  }

  /** The candidate an environment variable gives: its value (process, user,
      then machine scope), expanded when it names a directory; none when the
      value is missing or blank. */
  function EnvCandidate(store: SettingsStore, host: Host, name: string): (c: seq<string>)
    reads store
    ensures c == [] <==> IsNullOrWhiteSpace(store.EnvValue(name))
    ensures c != [] ==> c == [Expand(host, store.EnvValue(name).value)]
  {
    var v := store.EnvValue(name);
    if IsNullOrWhiteSpace(v) then [] else [Expand(host, v.value)]
  }

  /** The candidates of stage 2: each variable's candidate, in list order. */
  function EnvCandidates(store: SettingsStore, host: Host, names: seq<string>): (cs: seq<string>)
    reads store
    ensures |cs| <= |names|
    ensures |names| == 1 ==> cs == EnvCandidate(store, host, names[0])
  {
    if names == [] then [] else EnvCandidate(store, host, names[0]) + EnvCandidates(store, host, names[1..])
  }

  lemma {:induction false} EnvCandidatesAppend(store: SettingsStore, host: Host, a: seq<string>, b: seq<string>)
    ensures EnvCandidates(store, host, a + b) == EnvCandidates(store, host, a) + EnvCandidates(store, host, b)
  {
    if a == [] {
      assert a + b == b;
    } else {
      assert (a + b)[1..] == a[1..] + b;
      EnvCandidatesAppend(store, host, a[1..], b);
    }
  }

  /** Variables that are all unset or blank give no candidate. */
  lemma {:induction false} EnvCandidatesNone(store: SettingsStore, host: Host, names: seq<string>)
    requires forall k | 0 <= k < |names| :: IsNullOrWhiteSpace(store.EnvValue(names[k]))
    ensures EnvCandidates(store, host, names) == []
  {
    if names != [] {
      assert IsNullOrWhiteSpace(store.EnvValue(names[0]));
      assert forall k | 0 <= k < |names[1..]| :: names[1..][k] == names[k + 1];
      EnvCandidatesNone(store, host, names[1..]);
    }
  }

  /** The four stages of DetectPandocAsync, in order: the saved path, the
      environment variables, the bare name (resolved through PATH), the
      usual install locations. */
  function Stages(store: SettingsStore, host: Host): (stages: seq<seq<string>>)
    reads store
    ensures |stages| == 4
    ensures Flatten(stages)
         == SavedCandidate(store, EnvKey)
          + EnvCandidates(store, host, EnvVariableNames)
          + [ExecutableFileName(host.os)]
          + CommonInstallPaths(host)
  {
    var stages := [SavedCandidate(store, EnvKey), EnvCandidates(store, host, EnvVariableNames),
                   [ExecutableFileName(host.os)], CommonInstallPaths(host)];
    assert stages[..1][..0] == [] && stages[..2][..1] == stages[..1] && stages[..3][..2] == stages[..2];
    assert Flatten(stages[..1]) == stages[0];
    assert Flatten(stages[..2]) == stages[0] + stages[1];
    assert Flatten(stages[..3]) == stages[0] + stages[1] + stages[2];
    assert stages[..4] == stages;
    stages
  }

  /** DetectPandocAsync: tries the candidates of the four stages in order and
      returns the first validation that succeeds, probing nothing after it;
      null when all fail. */
  method DetectPandoc(store: SettingsStore, host: Host) returns (r: Option<PandocInfo>, probed: seq<string>)
    ensures StopsAtFirst(Validator(host), Flatten(Stages(store, host)), probed, r)
    ensures r == FirstSome(Validator(host), Flatten(Stages(store, host)))
  {
    r, probed := SearchStages(Validator(host), Stages(store, host));
  }

  /** A saved path that validates ends discovery at once: it is the only
      candidate probed and its validation is the answer. */
  lemma SavedPathShortCircuits(store: SettingsStore, host: Host, r: Option<PandocInfo>, probed: seq<string>)
    requires StopsAtFirst(Validator(host), Flatten(Stages(store, host)), probed, r)
    requires !IsNullOrWhiteSpace(store.GetString(EnvKey))
    requires TryValidatePandocPath(host, store.GetString(EnvKey).value).Some?
    ensures probed == [store.GetString(EnvKey).value]
    ensures r == TryValidatePandocPath(host, store.GetString(EnvKey).value)
  {
    StopsAtFirstHead(Validator(host), Flatten(Stages(store, host)), probed, r);
  }

  /** With no saved path and no environment variable set, the bare executable
      name is the first candidate tried. */
  lemma BareNameFirstWithoutSettings(store: SettingsStore, host: Host)
    requires IsNullOrWhiteSpace(store.GetString(EnvKey))
    requires forall k | 0 <= k < |EnvVariableNames| :: IsNullOrWhiteSpace(store.EnvValue(EnvVariableNames[k]))
    ensures Flatten(Stages(store, host)) == [ExecutableFileName(host.os)] + CommonInstallPaths(host)
  {
    EnvCandidatesNone(store, host, EnvVariableNames);
    var saved, env := SavedCandidate(store, EnvKey), EnvCandidates(store, host, EnvVariableNames);
    assert saved == [] && env == [];
    assert saved + env + [ExecutableFileName(host.os)] + CommonInstallPaths(host)
        == [ExecutableFileName(host.os)] + CommonInstallPaths(host);
  }

  /** A pandoc that prints a trimmed version line first validates to that
      line and the path the locator reports. */
  lemma {:induction false} ValidatesToLineAndLocation(host: Host, candidate: string, line: string, rest: string,
                                                     stderr: string, located: string, path: string)
    requires candidate !in host.directories && !IsBlank(candidate)
    requires !(host.isRooted(candidate) && candidate !in host.files)
    requires host.runVersion(candidate) == Some(ProcessOutput(line + rest, stderr))
    requires host.locate(candidate) == Some(located)
    requires line != [] && NoneIn(line, LineBreaks) && !IsWhiteSpace(line[0]) && !IsWhiteSpace(line[|line| - 1])
    requires rest == [] || rest[0] in LineBreaks
    requires FirstLine(located) == Some(path) && !IsBlank(path)
    ensures TryValidatePandocPath(host, candidate) == Some(PandocInfo(path, line))
  {
    assert !IsBlank(line) by { assert !IsWhiteSpace(line[0]); }
    VersionIsFirstStdoutLine(host, candidate, line, rest, stderr);
    TrimmedIsFixed(line);
  }

  /** The end-to-end case of a pandoc found on PATH: no saved path, none of
      the environment variables set, and the bare name answers `--version`
      with a version line; discovery returns that line and the path
      `where`/`which` reports. */
  lemma {:induction false} FoundOnSearchPath(store: SettingsStore, host: Host, line: string, rest: string, stderr: string,
                                            located: string, path: string)
    requires IsNullOrWhiteSpace(store.GetString(EnvKey))
    requires forall k | 0 <= k < |EnvVariableNames| :: IsNullOrWhiteSpace(store.EnvValue(EnvVariableNames[k]))
    requires var bare := ExecutableFileName(host.os);
      && bare !in host.directories && !(host.isRooted(bare) && bare !in host.files)
      && host.runVersion(bare) == Some(ProcessOutput(line + rest, stderr))
      && host.locate(bare) == Some(located)
    requires line != [] && NoneIn(line, LineBreaks) && !IsWhiteSpace(line[0]) && !IsWhiteSpace(line[|line| - 1])
    requires rest == [] || rest[0] in LineBreaks
    requires FirstLine(located) == Some(path) && !IsBlank(path)
    ensures FirstSome(Validator(host), Flatten(Stages(store, host))) == Some(PandocInfo(path, line))
  {
    var bare := ExecutableFileName(host.os);
    BareNameFirstWithoutSettings(store, host);
    assert !IsBlank(bare) by { assert !IsWhiteSpace(bare[0]); }
    ValidatesToLineAndLocation(host, bare, line, rest, stderr, located, path);
    assert Validator(host)(bare) == Some(PandocInfo(path, line));
    FirstSomeHead(Validator(host), bare, CommonInstallPaths(host));
  }

  /** SaveUserSelectedPath: nothing for a blank path, otherwise exactly
      SetString("pandocPath", path) at user scope. */
  method SaveUserSelectedPath(store: SettingsStore, fullPath: string) returns (r: Outcome<SetError>)
    modifies store
    ensures IsBlank(fullPath) ==> r == Pass && unchanged(store)
    ensures !IsBlank(fullPath) ==> store.SetStringDone(EnvKey, Some(fullPath), User, r)
  {
    if IsBlank(fullPath) {
      return Pass;
    }
    r := store.SetString(EnvKey, Some(fullPath), User);
  }
}
