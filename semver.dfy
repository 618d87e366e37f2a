/** The Semantic Versioning 2.0.0 grammar (semver.org, items 2, 9 and 10 and
    the Backus-Naur form at the end of that document): the check that
    `TagFilter.is_semantic_version` delegates to `semver.parse`. */
module SemVer {

  import opened Wrappers

  predicate IsDigit(c: char) { '0' <= c <= '9' }

  predicate IsLetter(c: char) { 'A' <= c <= 'Z' || 'a' <= c <= 'z' }

  /** A character allowed in an identifier: ASCII alphanumerics and hyphen. */
  predicate IsIdentifierChar(c: char) { IsDigit(c) || IsLetter(c) || c == '-' }

  predicate AllDigits(s: string) {
    forall i :: 0 <= i < |s| ==> IsDigit(s[i])
  }

  predicate AllIdentifierChars(s: string) {
    forall i :: 0 <= i < |s| ==> IsIdentifierChar(s[i])
  }

  /** A numeric identifier: `0`, or digits that do not start with `0`. */
  predicate IsNumericIdentifier(s: string) {
    |s| > 0 && AllDigits(s) && (s[0] == '0' ==> |s| == 1)
  }

  /** An alphanumeric identifier: identifier characters, at least one of
      them not a digit. */
  predicate IsAlphanumericIdentifier(s: string) {
    |s| > 0 && AllIdentifierChars(s) && !AllDigits(s)
  }

  /** Item 9: a pre-release identifier is numeric (no leading zero) or
      alphanumeric. */
  predicate IsPreReleaseIdentifier(s: string) {
    IsNumericIdentifier(s) || IsAlphanumericIdentifier(s)
  }

  /** Item 10: a build identifier is any non-empty run of identifier
      characters, leading zeros allowed. */
  predicate IsBuildIdentifier(s: string) {
    |s| > 0 && AllIdentifierChars(s)
  }

  /** The position of the first `c` in `s`, or `|s|` when there is none. */
  function IndexOf(s: string, c: char): (i: nat)
    ensures i <= |s|
    ensures c !in s[..i]
    ensures i < |s| ==> s[i] == c
  {
    if s == [] || s[0] == c then 0 else 1 + IndexOf(s[1..], c)
  }

  /** The pieces of `s` between occurrences of `sep`, as Python's
      `s.split(sep)`. */
  function Split(s: string, sep: char): (parts: seq<string>)
    ensures |parts| >= 1
    ensures parts[0] <= s
    ensures forall k :: 0 <= k < |parts| ==> sep !in parts[k]
  {
    if s == [] then [[]]
    else if s[0] == sep then [[]] + Split(s[1..], sep)
    else
      var rest := Split(s[1..], sep);
      [[s[0]] + rest[0]] + rest[1..]
  }

  /** The pieces glued back together with `sep` between them, as Python's
      `sep.join(parts)`. */
  function Join(parts: seq<string>, sep: char): string
    requires |parts| >= 1
  {
    if |parts| == 1 then parts[0] else parts[0] + [sep] + Join(parts[1..], sep)
  }

  /** Splitting loses nothing: joining the pieces gives back the text. */
  lemma {:induction false} JoinSplit(s: string, sep: char)
    ensures Join(Split(s, sep), sep) == s
  {
    if s != [] {
      JoinSplit(s[1..], sep);
      if s[0] != sep {
        var rest := Split(s[1..], sep);
        if |rest| > 1 {
          assert Join(rest, sep) == rest[0] + [sep] + Join(rest[1..], sep);
          assert ([s[0]] + rest[0]) + [sep] + Join(rest[1..], sep) == [s[0]] + Join(rest, sep);
        }
      }
    }
  }

  /** Splitting recovers pieces that were joined, when no piece holds the
      separator. */
  lemma {:induction false} SplitJoin(parts: seq<string>, sep: char)
    requires |parts| >= 1
    requires forall k :: 0 <= k < |parts| ==> sep !in parts[k]
    ensures Split(Join(parts, sep), sep) == parts
  {
    if |parts| == 1 {
      SplitNoSeparator(parts[0], sep);
    } else {
      SplitJoin(parts[1..], sep);
      SplitAcross(parts[0], Join(parts[1..], sep), sep);
      assert [parts[0]] + parts[1..] == parts;
    }
  }

  /** Text without the separator is a single piece. */
  lemma {:induction false} SplitNoSeparator(s: string, sep: char)
    requires sep !in s
    ensures Split(s, sep) == [s]
  {
    if s != [] {
      SplitNoSeparator(s[1..], sep);
      assert [s[0]] + s[1..] == s;
    }
  }

  /** Splitting `a + [sep] + b` where `a` holds no separator gives `a`
      followed by the pieces of `b`. */
  lemma {:induction false} SplitAcross(a: string, b: string, sep: char)
    requires sep !in a
    ensures Split(a + [sep] + b, sep) == [a] + Split(b, sep)
  {
    if a == [] {
      assert (a + [sep] + b)[1..] == b;
    } else {
      SplitAcross(a[1..], b, sep);
      assert (a + [sep] + b)[0] == a[0] && (a + [sep] + b)[1..] == a[1..] + [sep] + b;
      assert [a[0]] + a[1..] == a;
    }
  }

  /** Item 2: the version core is exactly three dot-separated numeric
      identifiers (major, minor, patch). */
  predicate IsVersionCore(s: string) {
    var parts := Split(s, '.');
    |parts| == 3 && forall k :: 0 <= k < 3 ==> IsNumericIdentifier(parts[k])
  }

  /** Item 9: the text after the hyphen is dot-separated pre-release
      identifiers, none of them empty. */
  predicate IsPreRelease(s: string) {
    var parts := Split(s, '.');
    forall k :: 0 <= k < |parts| ==> IsPreReleaseIdentifier(parts[k])
  }

  /** Item 10: the text after the plus sign is dot-separated build
      identifiers, none of them empty. */
  predicate IsBuild(s: string) {
    var parts := Split(s, '.');
    forall k :: 0 <= k < |parts| ==> IsBuildIdentifier(parts[k])
  }

  /** A version string taken apart at its first `+` and at the first `-`
      before that: the version core, the pre-release text after the hyphen
      and the build metadata after the plus sign. */
  datatype Parts = Parts(core: string, preRelease: Option<string>, build: Option<string>)

  /** `a`, followed by `c` and `rest` when there is a rest. */
  function Glue(a: string, c: char, rest: Option<string>): string {
    a + (match rest case None => [] case Some(r) => [c] + r)
  }

  /** `s` taken apart at its first `c`: the text before it and, when there
      is a `c`, the text after it (Python's `s.split(c, 1)`). */
  function Cut(s: string, c: char): (r: (string, Option<string>))
    ensures c !in r.0
  {
    var i := IndexOf(s, c);
    (s[..i], if i < |s| then Some(s[i + 1..]) else None)
  }

  /** Gluing the two sides of a cut together again gives the text back. */
  lemma GlueCut(s: string, c: char)
    ensures Glue(Cut(s, c).0, c, Cut(s, c).1) == s
  {
    var i := IndexOf(s, c);
    if i < |s| {
      assert s == s[..i] + ([s[i]] + s[i + 1..]);
    } else {
      assert s == s[..i] + [];
    }
  }

  /** Cutting glued text at a character its first side lacks gives the two
      sides back. */
  lemma CutGlue(a: string, c: char, rest: Option<string>)
    requires c !in a
    ensures Cut(Glue(a, c, rest), c) == (a, rest)
  {
    var s := Glue(a, c, rest);
    assert s[..|a|] == a;
    IndexOfAt(s, c, |a|);
    if rest.Some? {
      assert s[|a| + 1..] == rest.value;
    }
  }

  /** A character missing from both sides, other than the glue, is missing
      from the glued text; and what is missing from the glued text is
      missing from both sides. */
  lemma GlueKeepsOut(a: string, c: char, rest: Option<string>, x: char)
    ensures x != c && x !in a && (rest.Some? ==> x !in rest.value) ==> x !in Glue(a, c, rest)
    ensures x !in Glue(a, c, rest) ==> x !in a && (rest.Some? ==> x !in rest.value)
  {
    var s := Glue(a, c, rest);
    assert s[..|a|] == a;
    if rest.Some? {
      assert s[|a| + 1..] == rest.value;
    }
  }

  /** The text the parts come from. */
  function Assemble(p: Parts): string {
    Glue(Glue(p.core, '-', p.preRelease), '+', p.build)
  }

  /** The parts can be told apart again: the core holds neither separator
      and the pre-release holds no plus sign. */
  predicate Separable(p: Parts) {
    && '+' !in p.core && '-' !in p.core
    && (p.preRelease.Some? ==> '+' !in p.preRelease.value)
  }

  /** Takes a version string apart at its first `+` and at the first `-`
      before that. */
  function Decompose(s: string): (p: Parts)
    ensures Separable(p)
  {
    var (head, build) := Cut(s, '+');
    var (core, pre) := Cut(head, '-');
    GlueCut(head, '-');
    GlueKeepsOut(core, '-', pre, '+');
    Parts(core, pre, build)
  }

  /** Putting the parts of a text back together gives the text again. */
  lemma AssembleDecompose(s: string)
    ensures Assemble(Decompose(s)) == s
  {
    GlueCut(s, '+');
    GlueCut(Cut(s, '+').0, '-');
  }

  /** Taking apart the text of separable parts gives those parts back. */
  lemma DecomposeAssemble(p: Parts)
    requires Separable(p)
    ensures Decompose(Assemble(p)) == p
  {
    var head := Glue(p.core, '-', p.preRelease);
    GlueKeepsOut(p.core, '-', p.preRelease, '+');
    CutGlue(head, '+', p.build);
    CutGlue(p.core, '-', p.preRelease);
  }

  /** `s` is a valid semantic version: a version core, optionally a hyphen
      and a pre-release, optionally a plus sign and build metadata. */
  predicate IsValid(s: string) {
    var p := Decompose(s);
    && IsVersionCore(p.core)
    && (p.preRelease.Some? ==> IsPreRelease(p.preRelease.value))
    && (p.build.Some? ==> IsBuild(p.build.value))
  }

  /** A version as its grammar builds it: three numeric identifiers, then
      the pre-release and build identifiers (either list may be empty). */
  datatype Version = Version(core: seq<string>, preRelease: seq<string>, build: seq<string>)

  predicate WellFormed(v: Version) {
    && |v.core| == 3
    && (forall k :: 0 <= k < 3 ==> IsNumericIdentifier(v.core[k]))
    && (forall k :: 0 <= k < |v.preRelease| ==> IsPreReleaseIdentifier(v.preRelease[k]))
    && (forall k :: 0 <= k < |v.build| ==> IsBuildIdentifier(v.build[k]))
  }

  /** The parts of a version's text. */
  function PartsOf(v: Version): Parts
    requires |v.core| == 3
  {
    Parts(Join(v.core, '.'),
          if v.preRelease == [] then None else Some(Join(v.preRelease, '.')),
          if v.build == [] then None else Some(Join(v.build, '.')))
  }

  /** The text of a version: `major.minor.patch[-pre][+build]`. */
  function Format(v: Version): string
    requires |v.core| == 3
  {
    Assemble(PartsOf(v))
  }

  /** A character that no piece holds does not occur in their join either,
      unless it is the separator. */
  lemma {:induction false} JoinKeepsOut(parts: seq<string>, sep: char, c: char)
    requires |parts| >= 1 && c != sep
    requires forall k :: 0 <= k < |parts| ==> c !in parts[k]
    ensures c !in Join(parts, sep)
  {
    if |parts| > 1 {
      JoinKeepsOut(parts[1..], sep, c);
    }
  }

  lemma IdentifierKeepsOut(s: string, c: char)
    requires AllIdentifierChars(s) && !IsIdentifierChar(c)
    ensures c !in s
  {
  }

  lemma DigitsKeepOut(s: string, c: char)
    requires AllDigits(s) && !IsDigit(c)
    ensures c !in s
  {
  }

  /** `IndexOf` stops exactly at the first `c`. */
  lemma IndexOfAt(s: string, c: char, i: nat)
    requires i <= |s| && c !in s[..i]
    requires i < |s| ==> s[i] == c
    ensures IndexOf(s, c) == i
  {
  }

  /** The parts of a well-formed version can be told apart again. */
  lemma PartsOfSeparable(v: Version)
    requires WellFormed(v)
    ensures Separable(PartsOf(v))
  {
    forall k | 0 <= k < 3 ensures '+' !in v.core[k] && '-' !in v.core[k] {
      DigitsKeepOut(v.core[k], '+');
      DigitsKeepOut(v.core[k], '-');
    }
    JoinKeepsOut(v.core, '.', '+');
    JoinKeepsOut(v.core, '.', '-');
    if v.preRelease != [] {
      forall k | 0 <= k < |v.preRelease| ensures '+' !in v.preRelease[k] {
        IdentifierKeepsOut(v.preRelease[k], '+');
      }
      JoinKeepsOut(v.preRelease, '.', '+');
    }
  }

  /** Every well-formed version formats to a valid semantic version. */
  lemma FormatIsValid(v: Version)
    requires WellFormed(v)
    ensures IsValid(Format(v))
  {
    PartsOfSeparable(v);
    DecomposeAssemble(PartsOf(v));
    forall k | 0 <= k < 3 ensures '.' !in v.core[k] {
      DigitsKeepOut(v.core[k], '.');
    }
    SplitJoin(v.core, '.');
    if v.preRelease != [] {
      forall k | 0 <= k < |v.preRelease| ensures '.' !in v.preRelease[k] {
        IdentifierKeepsOut(v.preRelease[k], '.');
      }
      SplitJoin(v.preRelease, '.');
    }
    if v.build != [] {
      forall k | 0 <= k < |v.build| ensures '.' !in v.build[k] {
        IdentifierKeepsOut(v.build[k], '.');
      }
      SplitJoin(v.build, '.');
    }
  }

  /** Every valid semantic version is the text of some well-formed version:
      together with `FormatIsValid`, `IsValid` accepts exactly the texts the
      grammar generates. */
  lemma ValidIsFormat(s: string)
    requires IsValid(s)
    ensures exists v :: WellFormed(v) && Format(v) == s
  {
    var p := Decompose(s);
    AssembleDecompose(s);
    var v := Version(Split(p.core, '.'),
                     if p.preRelease.Some? then Split(p.preRelease.value, '.') else [],
                     if p.build.Some? then Split(p.build.value, '.') else []);
    JoinSplit(p.core, '.');
    if p.preRelease.Some? {
      JoinSplit(p.preRelease.value, '.');
    }
    if p.build.Some? {
      JoinSplit(p.build.value, '.');
    }
    assert PartsOf(v) == p;
    assert WellFormed(v) && Format(v) == s;
  }

  /** `IsValid` accepts exactly the texts of well-formed versions. */
  lemma ValidIffFormat(s: string)
    ensures IsValid(s) <==> exists v :: WellFormed(v) && Format(v) == s
  {
    if IsValid(s) {
      ValidIsFormat(s);
    }
    if exists v :: WellFormed(v) && Format(v) == s {
      var v :| WellFormed(v) && Format(v) == s;
      FormatIsValid(v);
    }
  }

  /** A valid semantic version starts with a digit: in particular the empty
      text and anything still carrying a prefix such as `v` are rejected. */
  lemma ValidStartsWithDigit(s: string)
    requires IsValid(s)
    ensures |s| > 0 && IsDigit(s[0])
  {
    var head := Cut(s, '+').0;
    var core := Decompose(s).core;
    var major := Split(core, '.')[0];
    assert IsNumericIdentifier(major);
    assert major[0] == core[0] == head[0] == s[0];
  }

  /** A text without `+` or `-` is valid exactly when it is a version core. */
  lemma PlainCore(s: string)
    requires '+' !in s && '-' !in s
    ensures IsValid(s) <==> IsVersionCore(s)
  {
    DecomposeAssemble(Parts(s, None, None));
    assert Assemble(Parts(s, None, None)) == s;
  }

  lemma CoreJoin(major: string, minor: string, patch: string)
    ensures Join([major, minor, patch], '.') == major + "." + minor + "." + patch
  {
    assert [major, minor, patch][1..] == [minor, patch];
    assert [minor, patch][1..] == [patch];
    assert Join([minor, patch], '.') == minor + ['.'] + patch;
    assert Join([major, minor, patch], '.') == major + ['.'] + (minor + ['.'] + patch);
  }

  /** `major.minor.patch`, each a numeric identifier, is valid. */
  lemma CoreIsValid(major: string, minor: string, patch: string)
    requires IsNumericIdentifier(major) && IsNumericIdentifier(minor) && IsNumericIdentifier(patch)
    ensures IsValid(major + "." + minor + "." + patch)
  {
    var v := Version([major, minor, patch], [], []);
    FormatIsValid(v);
    CoreJoin(major, minor, patch);
    assert Format(v) == major + "." + minor + "." + patch;
  }

  /** `major.minor.patch-pre`, with one pre-release identifier, is valid. */
  lemma PreReleaseIsValid(major: string, minor: string, patch: string, pre: string)
    requires IsNumericIdentifier(major) && IsNumericIdentifier(minor) && IsNumericIdentifier(patch)
    requires IsPreReleaseIdentifier(pre)
    ensures IsValid(major + "." + minor + "." + patch + "-" + pre)
  {
    var v := Version([major, minor, patch], [pre], []);
    FormatIsValid(v);
    PreReleaseFormat(major, minor, patch, pre);
  }

  lemma PreReleaseFormat(major: string, minor: string, patch: string, pre: string)
    ensures Format(Version([major, minor, patch], [pre], [])) == major + "." + minor + "." + patch + "-" + pre
  {
    CoreJoin(major, minor, patch);
    var core := major + "." + minor + "." + patch;
    assert PartsOf(Version([major, minor, patch], [pre], [])) == Parts(core, Some(pre), None);
    assert Assemble(Parts(core, Some(pre), None)) == core + (['-'] + pre) + [];
  }

  /** Versions of tests/test_tag_filter.py that are accepted. */
  lemma AcceptedExamples()
    ensures IsValid("1.2.0") && IsValid("1.2.0-3") && IsValid("0.1.2")
    ensures IsValid("22.33.1-YADA") && IsValid("99.88.77-654321")
  {
    AcceptedCore();
    AcceptedZeroMajor();
    AcceptedShortPreRelease();
    AcceptedAlphaPreRelease();
    AcceptedNumericPreRelease();
  }

  lemma AcceptedCore()
    ensures IsValid("1.2.0")
  {
    assert "1" + "." + "2" + "." + "0" == "1.2.0";
    CoreIsValid("1", "2", "0");
  }

  lemma AcceptedZeroMajor()
    ensures IsValid("0.1.2")
  {
    assert "0" + "." + "1" + "." + "2" == "0.1.2";
    CoreIsValid("0", "1", "2");
  }

  lemma AcceptedShortPreRelease()
    ensures IsValid("1.2.0-3")
  {
    assert "1" + "." + "2" + "." + "0" + "-" + "3" == "1.2.0-3";
    PreReleaseIsValid("1", "2", "0", "3");
  }

  lemma AcceptedNumericPreRelease()
    ensures IsValid("99.88.77-654321")
  {
    assert "99" + "." + "88" + "." + "77" + "-" + "654321" == "99.88.77-654321";
    PreReleaseIsValid("99", "88", "77", "654321");
  }

  lemma AcceptedAlphaPreRelease()
    ensures IsValid("22.33.1-YADA")
  {
    assert "22" + "." + "33" + "." + "1" + "-" + "YADA" == "22.33.1-YADA";
    assert !IsDigit("YADA"[0]);
    PreReleaseIsValid("22", "33", "1", "YADA");
  }

  /** A version core with fewer than three parts is rejected. */
  lemma ShortCoreRejected(parts: seq<string>)
    requires 1 <= |parts| < 3
    requires forall k :: 0 <= k < |parts| ==> AllDigits(parts[k])
    ensures !IsValid(Join(parts, '.'))
  {
    forall k | 0 <= k < |parts| ensures '.' !in parts[k] && '+' !in parts[k] && '-' !in parts[k] {
      DigitsKeepOut(parts[k], '.');
      DigitsKeepOut(parts[k], '+');
      DigitsKeepOut(parts[k], '-');
    }
    JoinKeepsOut(parts, '.', '+');
    JoinKeepsOut(parts, '.', '-');
    SplitJoin(parts, '.');
    PlainCore(Join(parts, '.'));
  }

  /** Versions of tests/test_tag_filter.py that are rejected. */
  lemma RejectedExamples()
    ensures !IsValid("1") && !IsValid("1.2") && !IsValid("1.4") && !IsValid("1.2.3_5")
    ensures !IsValid("v1.2.3") && !IsValid("v1.2")
  {
    RejectedShortCores();
    RejectedUnderscore();
    RejectedPrefixed();
  }

  lemma RejectedShortCores()
    ensures !IsValid("1") && !IsValid("1.2") && !IsValid("1.4")
  {
    ShortCoreRejected(["1"]);
    assert Join(["1"], '.') == "1";
    ShortCoreRejected(["1", "2"]);
    assert Join(["1", "2"], '.') == "1.2";
    ShortCoreRejected(["1", "4"]);
    assert Join(["1", "4"], '.') == "1.4";
  }

  lemma RejectedPrefixed()
    ensures !IsValid("v1.2.3") && !IsValid("v1.2")
  {
    if IsValid("v1.2.3") { ValidStartsWithDigit("v1.2.3"); }
    if IsValid("v1.2") { ValidStartsWithDigit("v1.2"); }
  }

  lemma RejectedUnderscore()
    ensures !IsValid("1.2.3_5")
  {
    assert "1" + "." + "2" + "." + "3_5" == "1.2.3_5";
    assert AllDigits("1") && AllDigits("2");
    assert !IsDigit("3_5"[1]) && '.' !in "3_5" && '+' !in "3_5" && '-' !in "3_5";
    BadPatchRejected("1", "2", "3_5");
  }

  /** `major.minor.patch` whose patch is not made of digits is rejected. */
  lemma BadPatchRejected(major: string, minor: string, patch: string)
    requires AllDigits(major) && AllDigits(minor)
    requires !AllDigits(patch) && '.' !in patch && '+' !in patch && '-' !in patch
    ensures !IsValid(major + "." + minor + "." + patch)
  {
    var parts := [major, minor, patch];
    DigitsKeepOut(major, '.');
    DigitsKeepOut(minor, '.');
    DigitsKeepOut(major, '+');
    DigitsKeepOut(minor, '+');
    DigitsKeepOut(major, '-');
    DigitsKeepOut(minor, '-');
    SplitJoin(parts, '.');
    JoinKeepsOut(parts, '.', '+');
    JoinKeepsOut(parts, '.', '-');
    CoreJoin(major, minor, patch);
    PlainCore(major + "." + minor + "." + patch);
    assert Split(major + "." + minor + "." + patch, '.')[2] == patch;
  }
}
