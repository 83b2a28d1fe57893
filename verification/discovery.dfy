/**
 * What the two tool locators share: the machine they look at, given as data
 * and oracles (file system, System.IO.Path primitives, the processes they
 * start), and the search that tries candidates in order and stops at the
 * first one that validates.
 */
module Discovery {
  import opened Wrappers
  import opened Text
  import opened EnvUtils

  datatype Platform = Windows | MacOS | Linux

  /** What a finished child process wrote to its two output streams. */
  datatype ProcessOutput = ProcessOutput(stdout: string, stderr: string)

  /** The machine the locators probe. */
  datatype Host = Host(
    os: Platform,
    files: set<string>,                         // File.Exists
    directories: set<string>,                   // Directory.Exists
    isRooted: string -> bool,                   // Path.IsPathRooted
    combine: (string, string) -> string,        // Path.Combine
    fullPath: string -> string,                 // Path.GetFullPath
    runVersion: string -> Option<ProcessOutput>, // `<name> --version`; None: did not start, failed or was cancelled
    locate: string -> Option<string>,           // stdout of `where <name>` (Windows) or `which <name>`; None: failed
    programFiles: string,                       // Environment.SpecialFolder.ProgramFiles
    programFilesX86: string,                    // Environment.SpecialFolder.ProgramFilesX86
    userProfile: string,                        // Environment.SpecialFolder.UserProfile
    userName: string)                           // Environment.UserName

  /** Path.Combine(first, rest[0], rest[1], ...). */
  function CombinePath(host: Host, first: string, rest: seq<string>): string
    decreases |rest|
  {
    if rest == [] then first else CombinePath(host, host.combine(first, rest[0]), rest[1..])
  }

  /** No candidate validates. */
  ghost predicate AllFail<T>(validate: string -> Option<T>, candidates: seq<string>) {
    forall i | 0 <= i < |candidates| :: validate(candidates[i]).None?
  }

  /** The validation of the first candidate that validates, in order; null
      when none does. */
  function FirstSome<T>(validate: string -> Option<T>, candidates: seq<string>): (r: Option<T>)
    ensures r.None? <==> AllFail(validate, candidates)
    ensures r.Some? ==> exists i | 0 <= i < |candidates| :: validate(candidates[i]) == r
  {
    if candidates == [] then None
    else if validate(candidates[0]).Some? then validate(candidates[0])
    else FirstSome(validate, candidates[1..])
  }

  /** FirstSome answers with the validation of a candidate before which every
      candidate fails. */
  lemma {:induction false} FirstSomeIsFirst<T>(validate: string -> Option<T>, candidates: seq<string>)
    requires FirstSome(validate, candidates).Some?
    ensures exists i | 0 <= i < |candidates| ::
              validate(candidates[i]) == FirstSome(validate, candidates) && AllFail(validate, candidates[..i])
  {
    if validate(candidates[0]).Some? {
      assert AllFail(validate, candidates[..0]);
    } else {
      var tail := candidates[1..];
      FirstSomeIsFirst(validate, tail);
      var i :| 0 <= i < |tail| && validate(tail[i]) == FirstSome(validate, tail) && AllFail(validate, tail[..i]);
      assert candidates[..i + 1] == [candidates[0]] + tail[..i];
      assert validate(candidates[i + 1]) == FirstSome(validate, candidates);
    }
  }

  /** A first candidate that validates answers the search. */
  lemma FirstSomeHead<T>(validate: string -> Option<T>, x: string, rest: seq<string>)
    requires validate(x).Some?
    ensures FirstSome(validate, [x] + rest) == validate(x)
  {
    assert ([x] + rest)[0] == x;
  }

  /** Searching two lists one after the other is searching their concatenation. */
  lemma {:induction false} FirstSomeAppend<T>(validate: string -> Option<T>, a: seq<string>, b: seq<string>)
    ensures FirstSome(validate, a + b)
         == if FirstSome(validate, a).Some? then FirstSome(validate, a) else FirstSome(validate, b)
  {
    if a == [] {
      assert a + b == b;
    } else {
      assert (a + b)[1..] == a[1..] + b;
      FirstSomeAppend(validate, a[1..], b);
    }
  }

  /** `probed` is what a search that stops at its first success tries: a
      prefix of the candidates in which only the last one validated, giving
      r, or all of them, none validating, when r is null. */
  ghost predicate StopsAtFirst<T>(validate: string -> Option<T>, candidates: seq<string>,
                                  probed: seq<string>, r: Option<T>)
  {
    && probed <= candidates
    && match r
       case None => probed == candidates && AllFail(validate, candidates)
       case Some(_) =>
         probed != [] && AllFail(validate, probed[..|probed| - 1])
         && validate(probed[|probed| - 1]) == r
  }

  /** A search that stops at its first success returns what FirstSome specifies. */
  lemma StopsAtFirstFindsFirst<T>(validate: string -> Option<T>, candidates: seq<string>,
                                  probed: seq<string>, r: Option<T>)
    requires StopsAtFirst(validate, candidates, probed, r)
    ensures r == FirstSome(validate, candidates)
  {
    if r.Some? {
      var done := probed[..|probed| - 1];
      var x := probed[|probed| - 1];
      var rest := candidates[|probed|..];
      assert candidates == done + [x] + rest;
      FirstSomeAppend(validate, done + [x], rest);
      FirstSomeAppend(validate, done, [x]);
      assert FirstSome(validate, [x]) == validate(x) by {
        assert [x][1..] == [];
      }
    }
  }

  /** Closing a search at a candidate that validates, all earlier ones having failed. */
  lemma StopAt<T>(validate: string -> Option<T>, done: seq<string>, x: string, rest: seq<string>)
    requires AllFail(validate, done) && validate(x).Some?
    ensures StopsAtFirst(validate, done + [x] + rest, done + [x], validate(x))
  {
    assert (done + [x])[..|done|] == done;
  }

  /** A success at `x`, after `done + before` all failed, ends a search over
      `done + whole` when `x` follows `before` in `whole`. */
  lemma StopAtWithin<T>(validate: string -> Option<T>, done: seq<string>, before: seq<string>, x: string,
                        after: seq<string>, whole: seq<string>)
    requires whole == before + [x] + after
    requires AllFail(validate, done + before) && validate(x).Some?
    ensures StopsAtFirst(validate, done + whole, done + before + [x], validate(x))
  {
    assert done + whole == (done + before) + [x] + after;
    StopAt(validate, done + before, x, after);
  }

  /** A search stage that stopped at a success stays stopped whatever
      candidates later stages would have tried. */
  lemma StopsAtFirstExtend<T>(validate: string -> Option<T>, candidates: seq<string>,
                              probed: seq<string>, r: Option<T>, later: seq<string>)
    requires StopsAtFirst(validate, candidates, probed, r) && r.Some?
    ensures StopsAtFirst(validate, candidates + later, probed, r)
  {
    assert (candidates + later)[..|probed|] == candidates[..|probed|];
  }

  /** A success among `done + before + here` also ends a search over
      `done + whole` when `whole` continues `before + here`. */
  lemma StopsAtFirstWithin<T>(validate: string -> Option<T>, done: seq<string>, before: seq<string>,
                              here: seq<string>, after: seq<string>, whole: seq<string>,
                              probed: seq<string>, r: Option<T>)
    requires whole == before + here + after
    requires StopsAtFirst(validate, done + before + here, probed, r) && r.Some?
    ensures StopsAtFirst(validate, done + whole, probed, r)
  {
    assert done + whole == (done + before + here) + after;
    StopsAtFirstExtend(validate, done + before + here, probed, r, after);
  }

  /** The loop both locators run over a list of candidates: validate each in
      turn and stop at the first success, after the candidates `done` that
      all failed. */
  method SearchInOrder<T>(validate: string -> Option<T>, done: seq<string>, candidates: seq<string>)
    returns (r: Option<T>, probed: seq<string>)
    requires AllFail(validate, done)
    ensures StopsAtFirst(validate, done + candidates, probed, r)
  {
    probed := done;
    for i := 0 to |candidates|
      invariant probed == done + candidates[..i]
      invariant AllFail(validate, probed)
    {
      var result := validate(candidates[i]);
      ghost var before := probed;
      probed := probed + [candidates[i]];
      assert candidates[..i + 1] == candidates[..i] + [candidates[i]];
      if result.Some? {
        assert done + candidates == before + [candidates[i]] + candidates[i + 1..];
        StopAt(validate, before, candidates[i], candidates[i + 1..]);
        return result, probed;
      }
    }
    assert candidates[..|candidates|] == candidates;
    r := None;
  }

  /** The candidate lists of consecutive search stages, one after the other. */
  function Flatten(stages: seq<seq<string>>): (cs: seq<string>)
  {
    if stages == [] then [] else Flatten(stages[..|stages| - 1]) + stages[|stages| - 1]
  }

  /** A locator's search: its stages run in order, each with SearchInOrder,
      and the first success ends the whole search. */
  method SearchStages<T>(validate: string -> Option<T>, stages: seq<seq<string>>)
    returns (r: Option<T>, probed: seq<string>)
    ensures StopsAtFirst(validate, Flatten(stages), probed, r)
    ensures r == FirstSome(validate, Flatten(stages))
  {
    r, probed := None, [];
    for k := 0 to |stages|
      invariant r.None? && probed == Flatten(stages[..k]) && AllFail(validate, probed)
    {
      assert stages[..k + 1][..k] == stages[..k];
      r, probed := SearchInOrder(validate, probed, stages[k]);
      if r.Some? {
        StopsAtFirstExtend(validate, Flatten(stages[..k + 1]), probed, r, Flatten(stages[k + 1..]));
        FlattenAppend(stages[..k + 1], stages[k + 1..]);
        assert stages[..k + 1] + stages[k + 1..] == stages;
        StopsAtFirstFindsFirst(validate, Flatten(stages), probed, r);
        return;
      }
    }
    assert stages[..|stages|] == stages;
    StopsAtFirstFindsFirst(validate, Flatten(stages), probed, r);
  }

  lemma {:induction false} FlattenAppend(a: seq<seq<string>>, b: seq<seq<string>>)
    ensures Flatten(a + b) == Flatten(a) + Flatten(b)
    decreases |b|
  {
    if b == [] {
      assert a + b == a;
    } else {
      var c := b[..|b| - 1];
      assert (a + b)[..|a + b| - 1] == a + c;
      FlattenAppend(a, c);
      assert b[..|b| - 1] == c;
    }
  }

  /** When the first candidate validates, the search probes it alone. */
  lemma StopsAtFirstHead<T>(validate: string -> Option<T>, candidates: seq<string>,
                            probed: seq<string>, r: Option<T>)
    requires StopsAtFirst(validate, candidates, probed, r)
    requires candidates != [] && validate(candidates[0]).Some?
    ensures probed == [candidates[0]] && r == validate(candidates[0])
  {
    assert probed[0] == candidates[0];
    assert probed == candidates[..1];
  }

  /** The first stage of both locators: the path saved under `key`, unless it is blank. */
  function SavedCandidate(store: SettingsStore, key: string): (c: seq<string>)
    reads store
    ensures |c| <= 1
    ensures c != [] ==> Some(c[0]) == store.GetString(key) && !IsBlank(c[0])
    ensures c == [] <==> IsNullOrWhiteSpace(store.GetString(key))
  {
    var saved := store.GetString(key);
    if IsNullOrWhiteSpace(saved) then [] else [saved.value]
  }
}
