/**
 * The .NET string primitives the configuration store and the tool locators
 * rely on: char.IsWhiteSpace, string.IsNullOrWhiteSpace, Trim,
 * Split(separators, StringSplitOptions.RemoveEmptyEntries), FirstOrDefault
 * and string.Join.  Strings are sequences of Unicode characters.
 */
module Text {
  import opened Wrappers

  /** char.IsWhiteSpace: U+0009..U+000D, U+0020, U+0085, U+00A0 and the Unicode
      space, line and paragraph separators. */
  predicate IsWhiteSpace(c: char) {
    || c == ' ' || ('\t' <= c <= '\r') || c == '\U{85}' || c == '\U{A0}' || c == '\U{1680}'
    || ('\U{2000}' <= c <= '\U{200A}') || c == '\U{2028}' || c == '\U{2029}'
    || c == '\U{202F}' || c == '\U{205F}' || c == '\U{3000}'
  }

  /** string.IsNullOrWhiteSpace of a string that is not null. */
  predicate IsBlank(s: string) {
    forall i | 0 <= i < |s| :: IsWhiteSpace(s[i])
  }

  /** string.IsNullOrWhiteSpace */
  predicate IsNullOrWhiteSpace(s: Option<string>) {
    s.None? || IsBlank(s.value)
  }

  /** string.IsNullOrEmpty */
  predicate IsNullOrEmpty(s: Option<string>) {
    s.None? || s.value == ""
  }

  /** The separators of `Split(new[] { '\r', '\n' }, ...)`. */
  const LineBreaks: set<char> := {'\r', '\n'}

  predicate AllIn(s: string, seps: set<char>) {
    forall i | 0 <= i < |s| :: s[i] in seps
  }

  predicate NoneIn(s: string, seps: set<char>) {
    forall i | 0 <= i < |s| :: s[i] !in seps
  }

  /** The number of white-space characters at the front of s. */
  function LeadingWhiteSpace(s: string): (n: nat)
    ensures n <= |s| && forall i | 0 <= i < n :: IsWhiteSpace(s[i])
    ensures n < |s| ==> !IsWhiteSpace(s[n])
  {
    if s != [] && IsWhiteSpace(s[0]) then 1 + LeadingWhiteSpace(s[1..]) else 0
  }

  /** The number of white-space characters at the end of s. */
  function TrailingWhiteSpace(s: string): (n: nat)
    ensures n <= |s| && forall i | |s| - n <= i < |s| :: IsWhiteSpace(s[i])
    ensures n < |s| ==> !IsWhiteSpace(s[|s| - n - 1])
  {
    if s != [] && IsWhiteSpace(s[|s| - 1]) then 1 + TrailingWhiteSpace(s[..|s| - 1]) else 0
  }

  /** string.Trim(): the part of s between its leading and its trailing white
      space; empty exactly when s is blank. */
  function Trim(s: string): (r: string)
    ensures var a := LeadingWhiteSpace(s); a + |r| <= |s| && r == s[a..a + |r|]
    ensures IsBlank(s[LeadingWhiteSpace(s) + |r|..])
    ensures r == [] <==> IsBlank(s)
    ensures r != [] ==> !IsWhiteSpace(r[0]) && !IsWhiteSpace(r[|r| - 1])
  {
    var a := LeadingWhiteSpace(s);
    if a == |s| then "" else s[a..|s| - TrailingWhiteSpace(s)]
  }

  /** Trimming keeps only characters of s: a string without any of `seps`
      stays without them. */
  lemma TrimKeepsInside(s: string, seps: set<char>)
    requires NoneIn(s, seps)
    ensures NoneIn(Trim(s), seps)
  {
    var a := LeadingWhiteSpace(s);
    var r := Trim(s);
    forall i | 0 <= i < |r| ensures r[i] !in seps {
      assert r[i] == s[a + i];
    }
  }

  /** A string without white space at either end trims to itself. */
  lemma TrimmedIsFixed(s: string)
    requires s != [] && !IsWhiteSpace(s[0]) && !IsWhiteSpace(s[|s| - 1])
    ensures Trim(s) == s
  {
    assert LeadingWhiteSpace(s) == 0;
    assert TrailingWhiteSpace(s) == 0;
  }

  /** The number of separators at the front of s. */
  function LeadingSeps(s: string, seps: set<char>): (n: nat)
    ensures n <= |s| && forall i | 0 <= i < n :: s[i] in seps
    ensures n < |s| ==> s[n] !in seps
  {
    if s != [] && s[0] in seps then 1 + LeadingSeps(s[1..], seps) else 0
  }

  /** The length of the run of non-separators at the front of s. */
  function SegmentLength(s: string, seps: set<char>): (n: nat)
    ensures n <= |s| && forall i | 0 <= i < n :: s[i] !in seps
    ensures n < |s| ==> s[n] in seps
  {
    if s != [] && s[0] !in seps then 1 + SegmentLength(s[1..], seps) else 0
  }

  /** Where the first part of s ends: after its leading separators and the
      run of non-separators that follows them. */
  function PartEnd(s: string, seps: set<char>): (e: nat)
    ensures LeadingSeps(s, seps) <= e <= |s|
    ensures e == LeadingSeps(s, seps) + SegmentLength(s[LeadingSeps(s, seps)..], seps)
  {
    LeadingSeps(s, seps) + SegmentLength(s[LeadingSeps(s, seps)..], seps)
  }

  /** s.Split(seps, StringSplitOptions.RemoveEmptyEntries): the maximal runs of
      non-separators of s, in order. */
  function Split(s: string, seps: set<char>): (parts: seq<string>)
    ensures forall k | 0 <= k < |parts| :: parts[k] != [] && NoneIn(parts[k], seps)
    ensures parts == [] <==> AllIn(s, seps)
    decreases |s|
  {
    if LeadingSeps(s, seps) == |s| then
      assert s[..LeadingSeps(s, seps)] == s;
      []
    else
      var a, e := LeadingSeps(s, seps), PartEnd(s, seps);
      assert s[a..][..e - a] == s[a..e];
      [s[a..e]] + Split(s[e..], seps)
  }

  /** s with every separator removed. */
  function Strip(s: string, seps: set<char>): string {
    if s == [] then [] else (if s[0] in seps then [] else [s[0]]) + Strip(s[1..], seps)
  }

  /** The concatenation of parts. */
  function Concat(parts: seq<string>): string {
    if parts == [] then [] else parts[0] + Concat(parts[1..])
  }

  lemma {:induction false} StripAppend(x: string, y: string, seps: set<char>)
    ensures Strip(x + y, seps) == Strip(x, seps) + Strip(y, seps)
  {
    if x != [] {
      assert (x + y)[1..] == x[1..] + y;
      StripAppend(x[1..], y, seps);
    } else {
      assert x + y == y;
    }
  }

  lemma {:induction false} StripAllIn(x: string, seps: set<char>)
    requires AllIn(x, seps)
    ensures Strip(x, seps) == []
  {
    if x != [] {
      StripAllIn(x[1..], seps);
    }
  }

  lemma {:induction false} StripNoneIn(x: string, seps: set<char>)
    requires NoneIn(x, seps)
    ensures Strip(x, seps) == x
  {
    if x != [] {
      StripNoneIn(x[1..], seps);
      assert x == [x[0]] + x[1..];
    }
  }

  /** Splitting with RemoveEmptyEntries loses nothing but the separators:
      the parts put back together are s without its separators. */
  lemma {:induction false} SplitKeepsEverythingElse(s: string, seps: set<char>)
    ensures Concat(Split(s, seps)) == Strip(s, seps)
    decreases |s|
  {
    var a := LeadingSeps(s, seps);
    if a == |s| {
      assert s[..a] == s;
      StripAllIn(s, seps);
    } else {
      var e := PartEnd(s, seps);
      var lead, part, rest := s[..a], s[a..e], s[e..];
      SplitStep(s, seps);
      SplitStepPieces(s, seps);
      assert Concat([part] + Split(rest, seps)) == part + Concat(Split(rest, seps)) by {
        assert ([part] + Split(rest, seps))[1..] == Split(rest, seps);
      }
      SplitKeepsEverythingElse(rest, seps);
      StripAroundPart(s, lead, part, rest, seps);
    }
  }

  /** One step of Split: the first part, then the split of the rest. */
  lemma SplitStep(s: string, seps: set<char>)
    requires LeadingSeps(s, seps) < |s|
    ensures Split(s, seps) == [s[LeadingSeps(s, seps)..PartEnd(s, seps)]] + Split(s[PartEnd(s, seps)..], seps)
  {
  }

  /** The three pieces a step of Split cuts s into: separators, a part
      without separators, and the rest. */
  lemma SplitStepPieces(s: string, seps: set<char>)
    ensures var a, e := LeadingSeps(s, seps), PartEnd(s, seps);
      && AllIn(s[..a], seps) && NoneIn(s[a..e], seps)
      && s == s[..a] + s[a..e] + s[e..]
  {
    var a, e := LeadingSeps(s, seps), PartEnd(s, seps);
    var part := s[a..e];
    assert NoneIn(part, seps) by {
      forall i | 0 <= i < e - a ensures part[i] !in seps {
        assert part[i] == s[a..][i];
      }
    }
    assert s == s[..a] + part + s[e..];
  }

  /** Strip of a leading run of separators, a separator-free part and the rest. */
  lemma StripAroundPart(s: string, lead: string, part: string, rest: string, seps: set<char>)
    requires s == lead + part + rest && AllIn(lead, seps) && NoneIn(part, seps)
    ensures Strip(s, seps) == part + Strip(rest, seps)
  {
    StripAppend(lead + part, rest, seps);
    StripAppend(lead, part, seps);
    StripAllIn(lead, seps);
    StripNoneIn(part, seps);
  }

  /** LeadingSeps is the one count of leading separators that is followed
      by a non-separator or by the end. */
  lemma LeadingSepsIs(s: string, seps: set<char>, n: nat)
    requires n <= |s| && (forall i | 0 <= i < n :: s[i] in seps) && (n < |s| ==> s[n] !in seps)
    ensures LeadingSeps(s, seps) == n
  {
  }

  /** SegmentLength is the one length of a leading separator-free run that is
      followed by a separator or by the end. */
  lemma SegmentLengthIs(s: string, seps: set<char>, n: nat)
    requires n <= |s| && (forall i | 0 <= i < n :: s[i] !in seps) && (n < |s| ==> s[n] in seps)
    ensures SegmentLength(s, seps) == n
  {
  }

  /** Text without a separator is a single part. */
  lemma SplitOfPart(x: string, seps: set<char>)
    requires x != [] && NoneIn(x, seps)
    ensures Split(x, seps) == [x]
  {
    LeadingSepsIs(x, seps, 0);
    assert x[0..] == x;
    SegmentLengthIs(x, seps, |x|);
    assert x[|x|..] == [];
    assert x[0..|x|] == x;
  }

  /** A leading separator contributes no part. */
  lemma SplitSkipsSeparator(c: char, y: string, seps: set<char>)
    requires c in seps
    ensures Split([c] + y, seps) == Split(y, seps)
  {
    if AllIn(y, seps) {
      SeparatorsOnly(c, y, seps);
    } else {
      SplitAfterHead(c, y, seps);
    }
  }

  /** A separator before separators is all separators. */
  lemma SeparatorsOnly(c: char, y: string, seps: set<char>)
    requires c in seps && AllIn(y, seps)
    ensures AllIn([c] + y, seps)
  {
    var s := [c] + y;
    forall i | 0 <= i < |s| ensures s[i] in seps {
      if i > 0 { assert s[i] == y[i - 1]; }
    }
  }

  /** A separator before text with a part leaves its parts as they are. */
  lemma SplitAfterHead(c: char, y: string, seps: set<char>)
    requires c in seps && !AllIn(y, seps)
    ensures Split([c] + y, seps) == Split(y, seps)
  {
    var b, e := LeadingSeps(y, seps), PartEnd(y, seps);
    PartEndAfterHead(c, y, seps);
    SlicesAfterHead(c, y, b, e);
    SplitShifted([c] + y, y, seps, b, e);
  }

  /** Two texts whose first parts are equal and whose rests are equal split alike. */
  lemma SplitShifted(s: string, y: string, seps: set<char>, b: nat, e: nat)
    requires LeadingSeps(y, seps) == b < |y| && PartEnd(y, seps) == e
    requires LeadingSeps(s, seps) == b + 1 && PartEnd(s, seps) == e + 1
    requires s[b + 1..e + 1] == y[b..e] && s[e + 1..] == y[e..]
    ensures Split(s, seps) == Split(y, seps)
  {
    SplitStep(s, seps);
    SplitStep(y, seps);
  }

  /** A leading separator shifts where the first part of y starts and ends by one. */
  lemma PartEndAfterHead(c: char, y: string, seps: set<char>)
    requires c in seps && LeadingSeps(y, seps) < |y|
    ensures LeadingSeps([c] + y, seps) == LeadingSeps(y, seps) + 1
    ensures PartEnd([c] + y, seps) == PartEnd(y, seps) + 1
  {
    var s, b := [c] + y, LeadingSeps(y, seps);
    LeadingSepsIs(s, seps, b + 1);
    assert s[b + 1..] == y[b..];
  }

  /** Slices of `[c] + y` past its head are slices of y. */
  lemma SlicesAfterHead(c: char, y: string, i: nat, j: nat)
    requires i <= j <= |y|
    ensures ([c] + y)[i + 1..] == y[i..] && ([c] + y)[j + 1..] == y[j..] && ([c] + y)[i + 1..j + 1] == y[i..j]
  {
  }

  /** Text that all is separators contributes no part before what follows. */
  lemma {:induction false} SplitAfterSeparators(x: string, z: string, seps: set<char>)
    requires AllIn(x, seps)
    ensures Split(x + z, seps) == Split(z, seps)
  {
    if x != [] {
      assert x + z == [x[0]] + (x[1..] + z);
      SplitSkipsSeparator(x[0], x[1..] + z, seps);
      SplitAfterSeparators(x[1..], z, seps);
    } else {
      assert x + z == z;
    }
  }

  /** Text cut just before a separator splits into the parts of each side. */
  lemma {:induction false} SplitBeforeSeparator(x: string, z: string, seps: set<char>)
    requires z != [] && z[0] in seps
    ensures Split(x + z, seps) == Split(x, seps) + Split(z, seps)
    decreases |x|
  {
    if LeadingSeps(x, seps) == |x| {
      assert AllIn(x, seps);
      SplitAfterSeparators(x, z, seps);
    } else {
      var a, e := LeadingSeps(x, seps), PartEnd(x, seps);
      PartEndBeforeSeparator(x, z, seps);
      SlicesBeforeTail(x, z, a, e);
      SplitSameFirstPart(x + z, x, x[e..] + z, seps, a, e);
      SplitBeforeSeparator(x[e..], z, seps);
      var part, rest := [x[a..e]], Split(x[e..], seps);
      assert part + (rest + Split(z, seps)) == (part + rest) + Split(z, seps);
    }
  }

  /** Text whose first part is that of x splits into that part and the parts
      of what follows it. */
  lemma SplitSameFirstPart(s: string, x: string, rest: string, seps: set<char>, a: nat, e: nat)
    requires LeadingSeps(x, seps) == a < |x| && PartEnd(x, seps) == e
    requires LeadingSeps(s, seps) == a && PartEnd(s, seps) == e
    requires s[a..e] == x[a..e] && s[e..] == rest
    ensures Split(s, seps) == [x[a..e]] + Split(rest, seps)
    ensures Split(x, seps) == [x[a..e]] + Split(x[e..], seps)
  {
    SplitStep(s, seps);
    SplitStep(x, seps);
  }

  /** A separator after x leaves where the first part of x starts and ends. */
  lemma PartEndBeforeSeparator(x: string, z: string, seps: set<char>)
    requires z != [] && z[0] in seps && LeadingSeps(x, seps) < |x|
    ensures LeadingSeps(x + z, seps) == LeadingSeps(x, seps)
    ensures PartEnd(x + z, seps) == PartEnd(x, seps)
  {
    var a := LeadingSeps(x, seps);
    LeadingSepsBeforeTail(x, z, seps);
    assert (x + z)[a..] == x[a..] + z;
    SegmentLengthBeforeSeparator(x[a..], z, seps);
  }

  /** Leading separators that end inside x are not extended by what follows x. */
  lemma LeadingSepsBeforeTail(x: string, z: string, seps: set<char>)
    requires LeadingSeps(x, seps) < |x|
    ensures LeadingSeps(x + z, seps) == LeadingSeps(x, seps)
  {
    var a := LeadingSeps(x, seps);
    assert (x + z)[a] == x[a];
    assert forall i | 0 <= i < a :: (x + z)[i] == x[i];
    LeadingSepsIs(x + z, seps, a);
  }

  /** A separator after w ends w's leading run where w ends at the latest. */
  lemma SegmentLengthBeforeSeparator(w: string, z: string, seps: set<char>)
    requires z != [] && z[0] in seps
    ensures SegmentLength(w + z, seps) == SegmentLength(w, seps)
  {
    var n := SegmentLength(w, seps);
    assert (w + z)[n] in seps by {
      if n < |w| { assert (w + z)[n] == w[n]; } else { assert (w + z)[n] == z[0]; }
    }
    assert forall i | 0 <= i < n :: (w + z)[i] == w[i];
    SegmentLengthIs(w + z, seps, n);
  }

  /** Slices of `x + z` within x, and from inside x to the end. */
  lemma SlicesBeforeTail(x: string, z: string, i: nat, j: nat)
    requires i <= j <= |x|
    ensures (x + z)[i..j] == x[i..j] && (x + z)[j..] == x[j..] + z
  {
  }

  /** A separator between two pieces of text ends the parts of the first and
      starts those of the second: nothing is merged across it. */
  lemma SplitAtSeparator(x: string, c: char, y: string, seps: set<char>)
    requires c in seps
    ensures Split(x + [c] + y, seps) == Split(x, seps) + Split(y, seps)
  {
    assert x + [c] + y == x + ([c] + y);
    SplitBeforeSeparator(x, [c] + y, seps);
    SplitSkipsSeparator(c, y, seps);
  }

  /** Enumerable.FirstOrDefault on a string sequence. */
  function FirstOrDefault(xs: seq<string>): Option<string> {
    if xs == [] then None else Some(xs[0])
  }

  /** `s.Split(new[] { '\r', '\n' }, RemoveEmptyEntries).FirstOrDefault()`: the
      first non-empty line of s, i.e. the run that starts at the first character
      that is not a line break and ends at the next line break or at the end. */
  function FirstLine(s: string): (r: Option<string>)
    ensures r.None? <==> AllIn(s, LineBreaks)
    ensures !IsBlank(s) ==> r.Some?
    ensures r.Some? ==>
      var a, e := LeadingSeps(s, LineBreaks), LeadingSeps(s, LineBreaks) + |r.value|;
      && r.value != [] && NoneIn(r.value, LineBreaks)
      && e <= |s| && r.value == s[a..e]
      && (e == |s| || s[e] in LineBreaks)
  {
    FirstOrDefault(Split(s, LineBreaks))
  }

  /** A separator-free prefix extends the first segment of what follows it. */
  lemma {:induction false} SegmentLengthAppend(x: string, y: string, seps: set<char>)
    requires NoneIn(x, seps)
    ensures SegmentLength(x + y, seps) == |x| + SegmentLength(y, seps)
  {
    if x == [] {
      assert x + y == y;
    } else {
      assert (x + y)[1..] == x[1..] + y;
      SegmentLengthAppend(x[1..], y, seps);
    }
  }

  /** The first line of `x + y`, when x is a non-empty piece of text without a
      line break, is x followed by whatever y has before its first line break. */
  lemma FirstLineAfterUnbroken(x: string, y: string)
    requires x != [] && NoneIn(x, LineBreaks)
    ensures FirstLine(x + y) == Some(x + y[..SegmentLength(y, LineBreaks)])
  {
    var s := x + y;
    assert s[0] == x[0];
    SplitFromNonSeparator(s, LineBreaks);
    SegmentLengthAppend(x, y, LineBreaks);
    assert s[..|x| + SegmentLength(y, LineBreaks)] == x + y[..SegmentLength(y, LineBreaks)];
  }

  /** A break-free line followed by nothing or by a line break is the first
      line of the text. */
  lemma FirstLineOfLine(line: string, rest: string)
    requires line != [] && NoneIn(line, LineBreaks)
    requires rest == [] || rest[0] in LineBreaks
    ensures FirstLine(line + rest) == Some(line)
  {
    FirstLineAfterUnbroken(line, rest);
    assert SegmentLength(rest, LineBreaks) == 0;
    assert line + rest[..0] == line;
  }

  /** Text that begins with something other than white space is not blank. */
  lemma NotBlankPrefix(x: string, y: string)
    requires !IsBlank(x)
    ensures !IsBlank(x + y)
  {
    var k :| 0 <= k < |x| && !IsWhiteSpace(x[k]);
    assert (x + y)[k] == x[k];
  }

  /** The first line of a string that does not start with a line break is
      its leading run. */
  lemma FirstLineOfNonBreak(s: string)
    requires s != [] && s[0] !in LineBreaks
    ensures FirstLine(s) == Some(s[..SegmentLength(s, LineBreaks)])
  {
    SplitFromNonSeparator(s, LineBreaks);
  }

  /** When s starts with a non-separator, its first part is its leading run. */
  lemma SplitFromNonSeparator(s: string, seps: set<char>)
    requires s != [] && s[0] !in seps
    ensures Split(s, seps) != [] && Split(s, seps)[0] == s[..SegmentLength(s, seps)]
  {
    assert LeadingSeps(s, seps) == 0;
    assert s[0..] == s;
  }

  /** string.Join(sep, xs) */
  function Join(sep: string, xs: seq<string>): (r: string)
    ensures xs == [] ==> r == ""
    ensures |xs| == 1 ==> r == xs[0]
    ensures |xs| == 2 ==> r == xs[0] + sep + xs[1]
  {
    if xs == [] then "" else if |xs| == 1 then xs[0] else xs[0] + sep + Join(sep, xs[1..])
  }
}
