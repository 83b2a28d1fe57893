/**
 * WkHtmlToPdfDetector: finds a usable wkhtmltopdf.  Discovery tries the path
 * saved under "wkhtmltopdfPath", then every directory of the process's PATH
 * in order with "wkhtmltopdf.exe" before "wkhtmltopdf" in each, validating
 * only files that exist; the first candidate that answers `--version` wins.
 */
module WkHtmlToPdfDetector {
  import opened Wrappers
  import opened Text
  import opened EnvUtils
  import opened Discovery

  /** A validated executable: its full path and its version line. */
  datatype ExecutableInfo = ExecutableInfo(path: string, version: string)

  /** How DetectWkhtmlAsync ends: with an executable, with null, or by raising
      OperationCanceledException. */
  datatype Detection = Found(info: ExecutableInfo) | NotFound | Cancelled
  {
    /** The detection as the nullable result it stands for. */
    function Result(): Option<ExecutableInfo> {
      if Found? then Some(info) else None
    }
  }

  /** The settings key of the user's saved wkhtmltopdf path. */
  const SavedPathKey := "wkhtmltopdfPath"

  /** The file names tried in each PATH directory, in order. */
  const CandidateNames: seq<string> := ["wkhtmltopdf.exe", "wkhtmltopdf"]

  /** Path.PathSeparator */
  function PathSeparator(os: Platform): (c: char)
    ensures c == ';' <==> os == Windows
    ensures os != Windows ==> c == ':'
    ensures !IsWhiteSpace(c) && c !in LineBreaks
  {
    if os == Windows then ';' else ':'
  }

  /** The PATH directories searched: the process-scope PATH (empty when
      unset) split on the path separator, empty entries dropped. */
  function PathDirectories(store: SettingsStore, host: Host): (dirs: seq<string>)
    reads store
    ensures forall k | 0 <= k < |dirs| :: dirs[k] != "" && NoneIn(dirs[k], {PathSeparator(host.os)})
    ensures dirs == [] <==> ("PATH" in store.processEnv ==> AllIn(store.processEnv["PATH"], {PathSeparator(host.os)}))
  {
    var pathEnv := if "PATH" in store.processEnv then store.processEnv["PATH"] else "";
    Split(pathEnv, {PathSeparator(host.os)})
  }

  /** A separator in PATH ends one directory and starts the next: the
      directories are those of the text before it, then those after it. */
  lemma PathEntriesInOrder(store: SettingsStore, host: Host, before: string, after: string)
    requires "PATH" in store.processEnv && store.processEnv["PATH"] == before + [PathSeparator(host.os)] + after
    ensures PathDirectories(store, host)
         == Split(before, {PathSeparator(host.os)}) + Split(after, {PathSeparator(host.os)})
  {
    SplitAtSeparator(before, PathSeparator(host.os), after, {PathSeparator(host.os)});
  }

  /** A PATH without a separator is one directory, kept whole. */
  lemma OnePathEntry(store: SettingsStore, host: Host)
    requires "PATH" in store.processEnv && store.processEnv["PATH"] != []
    requires NoneIn(store.processEnv["PATH"], {PathSeparator(host.os)})
    ensures PathDirectories(store, host) == [store.processEnv["PATH"]]
  {
    SplitOfPart(store.processEnv["PATH"], {PathSeparator(host.os)});
  }

  /** Two non-empty entries around one separator are two directories, in order. */
  lemma TwoPathEntries(store: SettingsStore, host: Host, first: string, second: string)
    requires first != [] && NoneIn(first, {PathSeparator(host.os)})
    requires second != [] && NoneIn(second, {PathSeparator(host.os)})
    requires "PATH" in store.processEnv && store.processEnv["PATH"] == first + [PathSeparator(host.os)] + second
    ensures PathDirectories(store, host) == [first, second]
  {
    PathEntriesInOrder(store, host, first, second);
    SplitOfPart(first, {PathSeparator(host.os)});
    SplitOfPart(second, {PathSeparator(host.os)});
  }

  /** The streams that are not blank once trimmed, stdout first. */
  function NonBlankStreams(output: ProcessOutput): (parts: seq<string>)
    ensures |parts| <= 2
    ensures forall k | 0 <= k < |parts| :: !IsBlank(parts[k])
    ensures parts == [] <==> IsBlank(output.stdout) && IsBlank(output.stderr)
    ensures !IsBlank(output.stdout) ==> parts[0] == Trim(output.stdout)
    ensures !IsBlank(output.stdout) && !IsBlank(output.stderr) ==> parts == [Trim(output.stdout), Trim(output.stderr)]
    ensures IsBlank(output.stdout) && !IsBlank(output.stderr) ==> parts == [Trim(output.stderr)]
    ensures !IsBlank(output.stdout) && IsBlank(output.stderr) ==> parts == [Trim(output.stdout)]
  {
    var out, err := Trim(output.stdout), Trim(output.stderr);
    (if IsBlank(out) then [] else [out]) + (if IsBlank(err) then [] else [err])
  }

  /** The version string of TryValidateWkhtmlPathAsync: trimmed stdout and
      stderr, the non-blank ones joined by one space; null when that is blank,
      otherwise its first non-empty line (the whole string if it had none). */
  function VersionString(output: ProcessOutput): (v: Option<string>)
    ensures v.None? <==> IsBlank(output.stdout) && IsBlank(output.stderr)
    ensures v.Some? ==> v.value != "" && NoneIn(v.value, LineBreaks)
  {
    var parts := NonBlankStreams(output);
    var combined := Join(" ", parts);
    NonBlankJoin(parts);
    if IsBlank(combined) then None
    else Some(FirstLine(combined).GetOr(combined))
  }

  /** Joining non-blank pieces gives a blank string only when there are none. */
  lemma NonBlankJoin(parts: seq<string>)
    requires |parts| <= 2 && forall k | 0 <= k < |parts| :: !IsBlank(parts[k])
    ensures IsBlank(Join(" ", parts)) <==> parts == []
  {
    if parts != [] {
      var k :| 0 <= k < |parts[0]| && !IsWhiteSpace(parts[0][k]);
      assert Join(" ", parts)[k] == parts[0][k];
    }
  }

  /** Whenever a stream is not blank, the version is the first line of the
      joined streams. */
  lemma VersionOfJoined(output: ProcessOutput)
    requires !(IsBlank(output.stdout) && IsBlank(output.stderr))
    ensures VersionString(output) == FirstLine(Join(" ", NonBlankStreams(output)))
  {
    NonBlankJoin(NonBlankStreams(output));
  }

  /** With neither stream blank, both take part, stdout first. */
  lemma BothStreamsJoined(output: ProcessOutput)
    requires !IsBlank(output.stdout) && !IsBlank(output.stderr)
    ensures Join(" ", NonBlankStreams(output)) == Trim(output.stdout) + " " + Trim(output.stderr)
  {
    assert NonBlankStreams(output) == [Trim(output.stdout), Trim(output.stderr)];
  }

  /** When trimmed stdout is a single line, stderr's first line is appended
      to it after one space. */
  lemma {:induction false} OneLineStdoutTakesStderrFirstLine(output: ProcessOutput)
    requires !IsBlank(output.stdout) && !IsBlank(output.stderr)
    requires NoneIn(Trim(output.stdout), LineBreaks)
    ensures VersionString(output) == Some(Trim(output.stdout) + " " + FirstLine(Trim(output.stderr)).value)
  {
    BothStreamsJoined(output);
    VersionOfJoined(output);
    LineThenFirstLine(Trim(output.stdout), Trim(output.stderr));
  }

  /** A single line, one space, then text that starts a line: the first line
      runs on into that text's own first line. */
  lemma LineThenFirstLine(line: string, text: string)
    requires line != [] && NoneIn(line, LineBreaks)
    requires text != [] && text[0] !in LineBreaks
    ensures FirstLine(line + " " + text) == Some(line + " " + FirstLine(text).value)
  {
    var head := line + " ";
    assert line + " " + text == head + text;
    SpaceKeepsUnbroken(line);
    FirstLineAfterUnbroken(head, text);
    FirstLineOfNonBreak(text);
    var seg := text[..SegmentLength(text, LineBreaks)];
    assert head + seg == line + " " + seg;
  }

  /** Appending a space to a line adds no line break. */
  lemma SpaceKeepsUnbroken(line: string)
    requires NoneIn(line, LineBreaks)
    ensures NoneIn(line + " ", LineBreaks)
  {
    forall i | 0 <= i < |line + " "| ensures (line + " ")[i] !in LineBreaks {
      if i < |line| { assert (line + " ")[i] == line[i]; }
    }
  }

  /** When trimmed stdout has several lines, the version is its first line. */
  lemma {:induction false} MultiLineStdoutGivesItsFirstLine(output: ProcessOutput, line: string, rest: string)
    requires Trim(output.stdout) == line + rest
    requires line != [] && NoneIn(line, LineBreaks) && rest != [] && rest[0] in LineBreaks
    ensures VersionString(output) == Some(line)
  {
    var out, err := Trim(output.stdout), Trim(output.stderr);
    var parts := NonBlankStreams(output);
    assert !IsBlank(out) by { assert !IsWhiteSpace(out[0]); }
    assert parts[0] == out;
    var tail := if IsBlank(err) then rest else rest + " " + err;
    assert Join(" ", parts) == line + tail by {
      if !IsBlank(err) {
        assert parts == [out, err];
        assert out + " " + err == line + (rest + " " + err);
      } else {
        assert parts == [out];
      }
    }
    FirstLineAfterUnbroken(line, tail);
    assert tail[0] == rest[0];
    assert SegmentLength(tail, LineBreaks) == 0;
    assert line + tail[..0] == line;
    NonBlankJoin(parts);
  }

  /** With a blank stderr and a one-line stdout, the version is trimmed
      stdout as a whole. */
  lemma StdoutAloneIsTheVersion(output: ProcessOutput)
    requires !IsBlank(output.stdout) && IsBlank(output.stderr)
    requires NoneIn(Trim(output.stdout), LineBreaks)
    ensures VersionString(output) == Some(Trim(output.stdout))
  {
    var out := Trim(output.stdout);
    VersionOfJoined(output);
    assert Join(" ", NonBlankStreams(output)) == out;
    FirstLineOfLine(out, []);
    assert out + [] == out;
  }

  /** With a blank stdout the version is stderr's first non-empty line. */
  lemma BlankStdoutFallsBackToStderr(output: ProcessOutput)
    requires IsBlank(output.stdout) && !IsBlank(output.stderr)
    ensures VersionString(output) == FirstLine(Trim(output.stderr))
  {
    var err := Trim(output.stderr);
    assert NonBlankStreams(output) == [err];
    NonBlankJoin([err]);
  }

  /** TryValidateWkhtmlPathAsync: null for a blank path and for a directory
      (which is not searched), and when `--version` fails or prints nothing;
      otherwise the full path of the candidate and its version string. */
  function TryValidateWkhtmlPath(host: Host, exePath: string): (r: Option<ExecutableInfo>)
    ensures r.Some? <==>
      && !IsBlank(exePath) && exePath !in host.directories
      && host.runVersion(exePath).Some?
      && !(IsBlank(host.runVersion(exePath).value.stdout) && IsBlank(host.runVersion(exePath).value.stderr))
    ensures r.Some? ==>
      && r.value.path == host.fullPath(exePath)
      && Some(r.value.version) == VersionString(host.runVersion(exePath).value)
  {
    if IsBlank(exePath) then None
    else if exePath in host.directories then None
    else match host.runVersion(exePath)
      case None => None
      case Some(output) =>
        match VersionString(output)
        case None => None
        case Some(version) => Some(ExecutableInfo(host.fullPath(exePath), version))
  }

  /** Validation as a function value, for the searches. */
  function Validator(host: Host): string -> Option<ExecutableInfo> {
    exePath => TryValidateWkhtmlPath(host, exePath)
  }

  /** The paths among `paths` that are existing files, in order. */
  function ExistingFiles(host: Host, paths: seq<string>): (files: seq<string>)
    ensures |files| <= |paths|
    ensures forall k | 0 <= k < |files| :: files[k] in host.files
    decreases |paths|
  {
    if paths == [] then []
    else
      var last := paths[|paths| - 1];
      ExistingFiles(host, paths[..|paths| - 1]) + (if last in host.files then [last] else [])
  }

  /** Each candidate name inside `dir`. */
  function NamesIn(host: Host, dir: string): (paths: seq<string>)
    ensures |paths| == |CandidateNames|
  {
    [host.combine(dir, CandidateNames[0]), host.combine(dir, CandidateNames[1])]
  }

  /** What the PATH scan validates: for each directory in order, the
      candidate names inside it that are existing files. */
  function PathCandidates(host: Host, dirs: seq<string>): (cs: seq<string>)
    ensures forall k | 0 <= k < |cs| :: cs[k] in host.files
    decreases |dirs|
  {
    if dirs == [] then []
    else PathCandidates(host, dirs[..|dirs| - 1]) + ExistingFiles(host, NamesIn(host, dirs[|dirs| - 1]))
  }

  /** Every candidate of DetectWkhtmlAsync, in the order it tries them. */
  function Candidates(store: SettingsStore, host: Host): (cs: seq<string>)
    reads store
    ensures forall k | |SavedCandidate(store, SavedPathKey)| <= k < |cs| :: cs[k] in host.files
  {
    SavedCandidate(store, SavedPathKey) + PathCandidates(host, PathDirectories(store, host))
  }

  /** One directory of the PATH scan, after the candidates `done` that all
      failed: each candidate name inside `dir` that is an existing file is
      validated, and the first success ends the scan. */
  method ScanDirectory<T>(validate: string -> Option<T>, host: Host, dir: string, done: seq<string>)
    returns (r: Option<T>, probed: seq<string>)
    requires AllFail(validate, done)
    ensures StopsAtFirst(validate, done + ExistingFiles(host, NamesIn(host, dir)), probed, r)
  {
    var names := NamesIn(host, dir);
    r, probed := None, done;
    for j := 0 to |CandidateNames|
      invariant r.None?
      invariant probed == done + ExistingFiles(host, names[..j]) && AllFail(validate, probed)
    {
      var full := host.combine(dir, CandidateNames[j]);
      ExistingFilesNext(host, names, j);
      if full in host.files {
        r := validate(full);
        if r.Some? {
          ExistingFilesAround(host, names, j);
          StopAtWithin(validate, done, ExistingFiles(host, names[..j]), full, ExistingFiles(host, names[j + 1..]),
                       ExistingFiles(host, names));
          probed := probed + [full];
          return;
        }
        probed := probed + [full];
      }
    }
    assert names[..|CandidateNames|] == names;
  }

  /** The existing files among the first j + 1 paths. */
  lemma ExistingFilesNext(host: Host, paths: seq<string>, j: nat)
    requires j < |paths|
    ensures ExistingFiles(host, paths[..j + 1])
         == ExistingFiles(host, paths[..j]) + (if paths[j] in host.files then [paths[j]] else [])
  {
    assert paths[..j + 1][..j] == paths[..j];
  }

  /** The existing files around an existing path j. */
  lemma ExistingFilesAround(host: Host, paths: seq<string>, j: nat)
    requires j < |paths| && paths[j] in host.files
    ensures ExistingFiles(host, paths)
         == ExistingFiles(host, paths[..j]) + [paths[j]] + ExistingFiles(host, paths[j + 1..])
  {
    ExistingFilesNext(host, paths, j);
    ExistingFilesAppend(host, paths[..j + 1], paths[j + 1..]);
    assert paths[..j + 1] + paths[j + 1..] == paths;
  }

  /** The PATH scan of DetectWkhtmlAsync, after the candidates `done` that all
      failed: a cancellation request raises before each directory, and the
      directories are scanned in order until one yields a success. */
  method ScanPath<T>(validate: string -> Option<T>, host: Host, dirs: seq<string>, cancelled: bool,
                     done: seq<string>)
    returns (r: Option<T>, probed: seq<string>, raised: bool)
    requires AllFail(validate, done)
    ensures raised <==> cancelled && dirs != []
    ensures raised ==> r.None? && probed == done
    ensures !raised ==> StopsAtFirst(validate, done + PathCandidates(host, dirs), probed, r)
  {
    r, probed, raised := None, done, false;
    for i := 0 to |dirs|
      invariant r.None? && !raised && (cancelled ==> i == 0)
      invariant probed == done + PathCandidates(host, dirs[..i]) && AllFail(validate, probed)
    {
      if cancelled {
        return None, done, true;
      }
      r, probed := ScanDirectory(validate, host, dirs[i], probed);
      if r.Some? {
        PathScanStop(validate, host, done, dirs, i, probed, r);
        return;
      }
      PathCandidatesNext(host, dirs, i);
    }
    assert dirs[..|dirs|] == dirs;
  }

  /** The candidates of the first i + 1 directories. */
  lemma PathCandidatesNext(host: Host, dirs: seq<string>, i: nat)
    requires i < |dirs|
    ensures PathCandidates(host, dirs[..i + 1]) == PathCandidates(host, dirs[..i]) + ExistingFiles(host, NamesIn(host, dirs[i]))
  {
    assert dirs[..i + 1][..i] == dirs[..i];
  }

  /** The PATH candidates around directory i. */
  lemma PathCandidatesAround(host: Host, dirs: seq<string>, i: nat)
    requires i < |dirs|
    ensures PathCandidates(host, dirs)
         == PathCandidates(host, dirs[..i]) + ExistingFiles(host, NamesIn(host, dirs[i])) + PathCandidates(host, dirs[i + 1..])
  {
    PathCandidatesNext(host, dirs, i);
    PathCandidatesAppend(host, dirs[..i + 1], dirs[i + 1..]);
    assert dirs[..i + 1] + dirs[i + 1..] == dirs;
  }

  /** A success in directory i ends the whole scan. */
  lemma PathScanStop<T>(validate: string -> Option<T>, host: Host, done: seq<string>, dirs: seq<string>, i: nat,
                        probed: seq<string>, r: Option<T>)
    requires i < |dirs| && r.Some?
    requires StopsAtFirst(validate, done + PathCandidates(host, dirs[..i]) + ExistingFiles(host, NamesIn(host, dirs[i])), probed, r)
    ensures StopsAtFirst(validate, done + PathCandidates(host, dirs), probed, r)
  {
    PathCandidatesAround(host, dirs, i);
    StopsAtFirstWithin(validate, done, PathCandidates(host, dirs[..i]), ExistingFiles(host, NamesIn(host, dirs[i])),
                       PathCandidates(host, dirs[i + 1..]), PathCandidates(host, dirs), probed, r);
  }

  lemma {:induction false} ExistingFilesAppend(host: Host, a: seq<string>, b: seq<string>)
    ensures ExistingFiles(host, a + b) == ExistingFiles(host, a) + ExistingFiles(host, b)
    decreases |b|
  {
    if b == [] {
      assert a + b == a;
    } else {
      var c := b[..|b| - 1];
      assert (a + b)[..|a + b| - 1] == a + c;
      assert (a + b)[|a + b| - 1] == b[|b| - 1];
      ExistingFilesAppend(host, a, c);
    }
  }

  lemma {:induction false} PathCandidatesAppend(host: Host, a: seq<string>, b: seq<string>)
    ensures PathCandidates(host, a + b) == PathCandidates(host, a) + PathCandidates(host, b)
    decreases |b|
  {
    if b == [] {
      assert a + b == a;
    } else {
      var c := b[..|b| - 1];
      assert (a + b)[..|a + b| - 1] == a + c;
      assert (a + b)[|a + b| - 1] == b[|b| - 1];
      PathCandidatesAppend(host, a, c);
    }
  }

  /** DetectWkhtmlAsync.  Without a cancellation request it tries the saved
      path and then the PATH scan, returning the first validation that
      succeeds and probing nothing after it, null when all fail.  With one,
      nothing is validated: it raises as soon as there is a saved path to
      validate or a PATH directory to scan, and returns null otherwise. */
  method DetectWkhtml(store: SettingsStore, host: Host, cancelled: bool) returns (r: Detection, probed: seq<string>)
    ensures cancelled ==>
      (probed == [] &&
       r == if SavedCandidate(store, SavedPathKey) != [] || PathDirectories(store, host) != [] then Cancelled else NotFound)
    ensures !cancelled ==> r != Cancelled && StopsAtFirst(Validator(host), Candidates(store, host), probed, r.Result())
    ensures !cancelled ==> r.Result() == FirstSome(Validator(host), Candidates(store, host))
  {
    var validate := Validator(host);
    probed := [];
    // 1) the saved path
    var saved := store.GetString(SavedPathKey);
    if !IsNullOrWhiteSpace(saved) {
      if cancelled {
        return Cancelled, [];
      }
      var v := TryValidateWkhtmlPath(host, saved.value);
      probed := [saved.value];
      if v.Some? {
        StopAt(validate, [], saved.value, PathCandidates(host, PathDirectories(store, host)));
        r := Found(v.value);
        StopsAtFirstFindsFirst(validate, Candidates(store, host), probed, r.Result());
        return;
      }
    }
    // 2) the PATH scan
    var dirs := PathDirectories(store, host);
    var found, raised;
    found, probed, raised := ScanPath(validate, host, dirs, cancelled, probed);
    r := if raised then Cancelled else if found.Some? then Found(found.value) else NotFound;
    if !raised {
      StopsAtFirstFindsFirst(validate, Candidates(store, host), probed, r.Result());
    }
  }

  /** Without a cancellation request, a saved path that validates ends
      discovery at once: it is the only candidate probed and its validation
      is the answer. */
  lemma SavedPathShortCircuits(store: SettingsStore, host: Host, r: Option<ExecutableInfo>, probed: seq<string>)
    requires StopsAtFirst(Validator(host), Candidates(store, host), probed, r)
    requires !IsNullOrWhiteSpace(store.GetString(SavedPathKey))
    requires TryValidateWkhtmlPath(host, store.GetString(SavedPathKey).value).Some?
    ensures probed == [store.GetString(SavedPathKey).value]
    ensures r == TryValidateWkhtmlPath(host, store.GetString(SavedPathKey).value)
  {
    StopsAtFirstHead(Validator(host), Candidates(store, host), probed, r);
  }

  /** SaveUserSelectedPath: nothing for a blank path, otherwise exactly
      SetString("wkhtmltopdfPath", path) at user scope. */
  method SaveUserSelectedPath(store: SettingsStore, path: string) returns (r: Outcome<SetError>)
    modifies store
    ensures IsBlank(path) ==> r == Pass && unchanged(store)
    ensures !IsBlank(path) ==> store.SetStringDone(SavedPathKey, Some(path), User, r)
  {
    if IsBlank(path) {
      return Pass;
    }
    r := store.SetString(SavedPathKey, Some(path), User);
  }
}
