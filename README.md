# git-changelog-generator, the core in Dafny

git-changelog-generator (`gcg`) writes an RPM or Debian changelog from a
git history. It walks the commits from newest to oldest. Each commit that
carries a release tag starts a new release, and the commits below it, down
to the next release tag, belong to that release. Commits above the newest
release tag form an unnamed release; its key is the empty string, the
*sentinel*, and its changelog header shows `--current-version`. Merge
commits, and commits without a bug-tracker reference, can be left out.
Each release then gets a header: a date, an author and an e-mail, taken
from its newest commit or, with `--prefer-tags`, from its annotated tag.
Jinja templates render the result.

This project models that core and proves what it computes:

- `tag_filter.dfy` (module `TagFilters`): which tag names are release
  versions. A name qualifies under the Semantic Versioning 2.0.0 grammar
  (`semver.dfy`, module `SemVer`) or under a user pattern, after an
  optional prefix is removed.
- `entrypoint.dfy` (module `Entrypoint`): the commit filter, the mapping
  from `-v` counts to log levels, and the check that `deb` output has a
  package name and a distribution.
- `traversal.dfy` (module `Traversal`): the walk that cuts the history into
  releases, as an imperative loop proved against a specification function
  (`Segment`). When the sentinel and the release-starting tags are all
  distinct, `Segment` is then proved equal to an independent "cut, then
  group" definition (`Reference`).
- `collation.dfy` (module `Collation`): the loop that builds one header
  per release, with the exceptions it can raise.
- `jinja_filters.dfy` (module `JinjaFilters`): the `commit_headline`
  filter.
- `tag_filter_examples.dfy`, `traversal_findings.dfy`: the repository's
  unit-test scenarios, and the finding below, as lemmas.

Two consequences of the code are worth stating on their own. Under
`--prefer-tags` a lightweight tag makes `repo.tags[version].tag` `None`,
and the next attribute access raises; `Collation.HeaderFor` gives a
`Failure` (`NotAnnotated`). A kept commit joins the release of the nearest
qualifying tag at or above it, as `Traversal.SegmentIsReference` states.

A compiled regular expression is modelled by `Re.Pattern`. It holds the
pattern's source text and a predicate that stands for
`re.match(...) is not None`, a match anchored at index 0. Python's `None`
is `Option`. An exception is the `Failure` side of a `Result`.

## Model

| member | source | states |
|---|---|---|
| JinjaFilters.CommitHeadline | gcg/jinja_filters.py:9-16 | the headline contains no newline and neither starts nor ends with whitespace |
| JinjaFilters.Strip | gcg/jinja_filters.py:16 | the result of `strip()` neither starts nor ends with whitespace |
| JinjaFilters.StripBounds | gcg/jinja_filters.py:16 | `strip()` keeps the slice of its input between the leading and the trailing whitespace, with only whitespace outside it |
| JinjaFilters.StripKeepsOut | gcg/jinja_filters.py:16 | `strip()` brings in no character its input lacks |
| JinjaFilters.StripTrimmed | gcg/jinja_filters.py:16 | a text without whitespace at either end is unchanged by `strip()` |
| JinjaFilters.FirstLine | gcg/jinja_filters.py:16 | `split('\n', 1)[0]` is a prefix of the message without a newline, followed in the message by a newline or by nothing |
| JinjaFilters.StripUnique | gcg/jinja_filters.py:16 | any slice framed by whitespace and non-whitespace at both ends is the result of `strip()` |
| JinjaFilters.HeadlineWithinFirstLine | gcg/jinja_filters.py:16 | the headline is a slice of the first line with only whitespace around it |
| JinjaFilters.HeadlineUnique | gcg/jinja_filters.py:16 | the headline is the only such slice of the first line that starts and ends with non-whitespace |
| JinjaFilters.SingleLineHeadline | gcg/jinja_filters.py:16 | for a message without a newline the headline is the stripped message; an empty message gives an empty headline |
| JinjaFilters.HeadlineIdempotent | gcg/jinja_filters.py:9-16 | the headline of a headline is itself |
| JinjaFilters.HeadlineExample | tests/test_output_templates.py:9-20 | the multi-line message of the unit test has the headline `This is a` |
| SemVer.GlueCut | gcg/tag_filter.py:37-41 | the text before the first separator, the separator and the text after it make up the whole string |
| SemVer.CutGlue | gcg/tag_filter.py:37-41 | cutting at the first separator finds exactly the two sides it was glued from, when the first side lacks it |
| SemVer.AssembleDecompose | gcg/tag_filter.py:37-41 | joining the core, pre-release and build parts found in a string gives the string back |
| SemVer.DecomposeAssemble | gcg/tag_filter.py:37-41 | splitting a version string at its first `+` and first `-` undoes joining its core, pre-release and build parts |
| SemVer.FormatIsValid | gcg/tag_filter.py:37-41 | every well-formed version (numeric major, minor and patch without leading zeros; valid pre-release and build identifiers), when written out, is accepted by the grammar |
| SemVer.ValidIsFormat | gcg/tag_filter.py:37-41 | every accepted string is the written form of some well-formed version |
| SemVer.ValidIffFormat | gcg/tag_filter.py:37-41 | a string is accepted exactly when it is the written form of a well-formed version |
| SemVer.ValidStartsWithDigit | gcg/tag_filter.py:37-41 | an accepted string is non-empty and starts with a digit |
| SemVer.PlainCore | gcg/tag_filter.py:37-41 | without `+` or `-`, a string is accepted exactly when it is `MAJOR.MINOR.PATCH` |
| SemVer.ShortCoreRejected | gcg/tag_filter.py:37-41 | one or two dot-separated numbers are never a version |
| SemVer.AcceptedExamples | tests/test_tag_filter.py:50-65 | `1.2.0`, `1.2.0-3`, `0.1.2`, `22.33.1-YADA` and `99.88.77-654321` are versions |
| SemVer.RejectedExamples | tests/test_tag_filter.py:20-27 | `1`, `1.2`, `1.4`, `1.2.3_5`, `v1.2.3` and `v1.2` are not versions |
| TagFilters.NewTagFilter | gcg/tag_filter.py:17-23 | the filter keeps the constructor's prefix; it uses the semantic check exactly when no pattern is given, and otherwise uses that pattern |
| TagFilters.StripPrefix | gcg/tag_filter.py:75-90 | the result is a suffix of the value; a non-empty effective prefix that starts the value is removed once, anything else leaves the value unchanged; the argument overrides the constructor's prefix |
| SemVer.IsValid | gcg/tag_filter.py:37-41 | the acceptance of `semver.parse`: a version core, an optional pre-release after the first `-` and optional build metadata after the first `+`, each checked against the Semantic Versioning 2.0.0 grammar; `SemVer.ValidIffFormat` characterises it as the written forms of well-formed versions |
| TagFilters.IsCustomVersion | gcg/tag_filter.py:43-59 | the filter's pattern is matched, anchored at the start, against the value with the effective prefix removed once when it is non-empty and leading, and against the value itself otherwise |
| TagFilters.Matches | gcg/tag_filter.py:17-23 | a semantic filter accepts exactly the stripped values the grammar generates; a custom filter accepts exactly the stripped values its pattern matches at the start |
| TagFilters.IsSemanticVersion | gcg/tag_filter.py:25-41 | a value qualifies exactly when its stripped form is the written form of a well-formed semantic version; a value the parser rejects is a plain `false` |
| TagFilters.MatchingOnly | gcg/tag_filter.py:61-73 | every version kept qualifies, and every qualifying version is kept |
| TagFilters.MatchingOnlyKeepsOrder | gcg/tag_filter.py:72-73 | the result is a subsequence of the input |
| TagFilters.MatchingOnlyCounts | gcg/tag_filter.py:72-73 | a qualifying version occurs as often in the result as in the input; any other version does not occur |
| TagFilters.MatchingOnlyIdempotent | gcg/tag_filter.py:61-73 | filtering the result again changes nothing |
| TagFilters.MatchingOnlyEmpty | gcg/tag_filter.py:61-73 | the result is empty exactly when no version qualifies |
| TagFilters.MatchingOnlyHead | gcg/tag_filter.py:72-73 | the first element of the result is the first qualifying version of the input |
| TagFilters.MatchingOnlyAppend | gcg/tag_filter.py:72-73 | filtering a concatenation is the concatenation of the filtered parts |
| TagFilters.StripAddedPrefix | gcg/tag_filter.py:87-90 | stripping a non-empty prefix undoes putting it in front |
| TagFilters.StripOnce | gcg/tag_filter.py:87-90 | only one copy of a repeated prefix is removed |
| TagFilters.StripAbsentPrefix | gcg/tag_filter.py:87-90 | a value that does not start with the prefix is unchanged |
| TagFilters.ExplicitPrefixOverrides | gcg/tag_filter.py:84-85 | a prefix argument decides alone, and the empty prefix strips nothing |
| TagFilters.ModeFixedAtConstruction | gcg/tag_filter.py:17-23 | `matches` is the semantic grammar when the filter was made without a pattern and that pattern's anchored match otherwise |
| TagFilterExamples.SemanticAccepts | tests/test_tag_filter.py:9-13 | `1.2.0` and `1.2.0-3` qualify under `TagFilter()` |
| TagFilterExamples.SemanticRejects | tests/test_tag_filter.py:25-27 | `1`, `1.2` and `v1.2.3` do not qualify under `TagFilter()` |
| TagFilterExamples.PrefixedValid | gcg/tag_filter.py:36-41 | any valid version behind a non-empty prefix qualifies under the semantic check with that prefix |
| TagFilterExamples.PrefixExamples | tests/test_tag_filter.py:14-17 | `foo1.2.0` with prefix `foo` (argument or constructor) and `v1.2.0` with prefix `v` qualify |
| TagFilterExamples.WrongPrefixExample | tests/test_tag_filter.py:24 | `foo1.2.0` with prefix `oof` does not qualify |
| TagFilterListExamples.PrefixedInvalid | gcg/tag_filter.py:36-41 | an invalid version behind the prefix does not qualify |
| TagFilterListExamples.UnprefixedJudged | tests/test_tag_filter.py:44-46 | the prefix is optional: a value not starting with it is judged as it stands |
| TagFilterListExamples.SemverOnlyExample | tests/test_tag_filter.py:50-65 | `matching_only` keeps exactly `0.1.2`, `99.88.77-654321` and `22.33.1-YADA` of the test's list |
| TagFilterListExamples.PrefixedListExample | tests/test_tag_filter.py:68-87 | with prefix `v`, given to the constructor or to `matching_only`, the test's list keeps exactly the four expected versions |
| TagFilterCustomExamples.CustomWithoutPrefix | gcg/tag_filter.py:43-59 | under `^(\d+)\.(\d+)$` a value qualifies exactly when it is two numbers separated by a dot |
| TagFilterCustomExamples.CustomWithPrefix | gcg/tag_filter.py:55-57 | with prefix `v`, `v` followed by two numbers qualifies, and so does an unprefixed value that is two numbers |
| TagFilterCustomExamples.CustomMatchExamples | tests/test_tag_filter.py:38-47 | `v123.123` and `1.2.3` fail the anchored pattern; with prefix `v`, `v123.123` passes |
| TagFilterCustomExamples.CustomListExample | tests/test_tag_filter.py:90-106 | the test's list filters to `01.02`, and to `v123.123`, `01.02` with prefix `v` |
| TagFilterCustomExamples.UnanchoredAcceptsPrefixed | tests/test_tag_filter.py:30-35 | `v(\d+)\.(\d+)` accepts `v123.123` |
| Entrypoint.CommitFilteredOut | gcg/entrypoint.py:348-367 | merges go first when `--exclude-merges` is set; otherwise, with `--bug-tracking-only`, a commit goes exactly when the pattern does not match at the start of its message; without that flag only the merge rule applies |
| Entrypoint.FilteredOutEitherRule | gcg/entrypoint.py:359-367 | a commit is left out exactly when one of the two rules rejects it |
| Entrypoint.NothingFilteredByDefault | gcg/entrypoint.py:89-99 | with the default options no commit is left out |
| Entrypoint.LogLevelFromVerbosity | gcg/entrypoint.py:235-246 | INFO exactly for one `-v`, DEBUG exactly for two, WARNING for every other count |
| Entrypoint.MoreVerboseLowersThreshold | gcg/entrypoint.py:235-246 | each of the first two `-v` lowers the numeric logging threshold |
| Entrypoint.LogLevelExamples | tests/test_standalone_functions.py:30-39 | counts -1, 0 and 3 give WARNING, 1 gives INFO, 2 gives DEBUG |
| Entrypoint.CheckDebOptions | gcg/entrypoint.py:150-154 | the options pass, unchanged, exactly for `rpm` or for `deb` with both package name and distribution; a missing package name is reported before a missing distribution, each with its message |
| Entrypoint.DebOptionExamples | tests/test_input.py:27-37 | `-O deb` lacks the package name, `-O deb -n pkgname` lacks the distribution, both given or `rpm` pass |
| Traversal.Put | gcg/entrypoint.py:415 | assigning a present key keeps the key order and replaces its group; a new key is appended; no other entry appears |
| Traversal.PutKeepsKeysDistinct | gcg/entrypoint.py:415 | the ordered dictionary never holds a key twice |
| Traversal.Traverse | gcg/entrypoint.py:403-424 | the loop, with the given tag filter, returns the walk's dictionary `Segment` of the commits |
| Traversal.TraverseVersionTree | gcg/entrypoint.py:390-424 | `traverse_version_tree` as written: the walk's dictionary under `TagFilter(None)`, with the bug pattern the options name |
| Traversal.TraverseVersionTreeConfigured | gcg/entrypoint.py:115-122 | the walk's dictionary under the filter `--custom-tag-pattern` selects |
| Traversal.SegmentWellFormed | gcg/entrypoint.py:413-423 | no release in the result is empty, and every key occurs once |
| Traversal.SentinelOnlyFirst | gcg/entrypoint.py:405 | when no release-starting tag is the empty string, the sentinel can only be the first key |
| Traversal.SemanticNeverOpensSentinel | gcg/entrypoint.py:407 | under the semantic check the empty string never starts a release |
| Traversal.RunsConcat | gcg/entrypoint.py:409-421 | cutting the history before each release-starting commit loses and reorders nothing |
| Traversal.RunsKeys | gcg/entrypoint.py:413-417 | the cut pieces are keyed by the sentinel, then by the first qualifying tag of each release-starting commit, in walk order |
| Traversal.GroupedFlatten | gcg/entrypoint.py:420-421 | grouping the pieces keeps exactly the commits that are not filtered out, in order |
| Traversal.GroupedKeys | gcg/entrypoint.py:413-423 | every key of the grouping is the key of a piece |
| Traversal.WalkFollowsRuns | gcg/entrypoint.py:409-421 | with distinct keys, after any prefix of the history the loop's variables are the grouping of the finished pieces, the last piece's key and its kept commits |
| Traversal.SegmentIsReference | gcg/entrypoint.py:390-424 | when the sentinel and the release-starting tags are all distinct, the walk equals "cut before each tagged commit, drop filtered commits, drop empty pieces" |
| Traversal.PartitionLaw | gcg/entrypoint.py:409-423 | under the same condition the releases, concatenated, are exactly the kept commits in walk order |
| Traversal.NoQualifyingTags | gcg/entrypoint.py:413-423 | with no qualifying tag everything kept is one release under the sentinel, or there are no releases |
| Traversal.SingleCommit | gcg/entrypoint.py:409-424 | one kept commit forms one release, keyed by its first qualifying tag or by the sentinel |
| Traversal.FirstQualifyingTagWins | gcg/entrypoint.py:416-417 | of several tags on a commit the first qualifying one in git's order names the release |
| Traversal.ExcludedCommitStillOpens | gcg/entrypoint.py:412-421 | tags are read before the filter: a filtered-out tagged commit still starts the release that the commits below it join |
| Traversal.EmptyReleaseDropped | gcg/entrypoint.py:414-415 | a release whose commits are all filtered out is not recorded |
| Traversal.RepeatedTagReplaces | gcg/entrypoint.py:415 | when two releases get the same key, the later one replaces the earlier group |
| TraversalFindings.CustomTagPatternIgnored | gcg/entrypoint.py:407 | as written, with `--custom-tag-pattern '^(\d+)\.(\d+)$'`, a commit tagged `1.2` lands under the sentinel |
| TraversalFindings.ConfiguredPatternOpensGroup | gcg/entrypoint.py:115-122 | with the filter the option asks for, the same commit forms the release `1.2` |
| Collation.ReleaseFromCommit | gcg/entrypoint.py:202-215 | succeeds exactly when the author's name and e-mail are ASCII, and then gives the commit's author timestamp, name and e-mail; otherwise the failure carries the name, or the e-mail when only it is not ASCII, which `str()` raises on |
| Collation.ReleaseFromTag | gcg/entrypoint.py:218-232 | succeeds exactly when the tagger's name and e-mail are ASCII, and then gives the tag's date, tagger name and tagger e-mail; otherwise the failure carries the first value `str()` raises on |
| Collation.HeaderFor | gcg/entrypoint.py:189-197 | from the newest commit for the sentinel, or for a non-empty release without `--prefer-tags`; otherwise from the tag. An empty commit list fails with `EmptyRelease`, a missing tag with `NoSuchTag`, a lightweight tag with `NotAnnotated`, a non-ASCII name or e-mail with `NotAscii`; it succeeds exactly when none of these applies. The version is the tag, or `--current-version` for the sentinel; the deb fields are copied from the options |
| Collation.CollateEntryHeaderData | gcg/entrypoint.py:178-199 | the loop returns the dictionary of headers, or the exception the first failing entry raises |
| Collation.CollatedKeys | gcg/entrypoint.py:198 | on success the keys are exactly the entries' tags |
| Collation.CollatedHeaders | gcg/entrypoint.py:188-198 | when keys are distinct each key maps to the header of its entry |
| Collation.CollatedWalk | gcg/entrypoint.py:188-198 | for a walk's dictionary each key maps to the header of its release |
| Collation.CollateFailsAtFirst | gcg/entrypoint.py:188-198 | the loop succeeds exactly when every entry's header succeeds; otherwise it fails with the error of the first failing entry |
| Collation.CollateWalkWithoutPreferTags | gcg/entrypoint.py:188-197 | without `--prefer-tags`, collating a walk's dictionary succeeds exactly when the newest commit of every release has an ASCII author name and e-mail |
| Collation.CollateWalkPreferTags | gcg/entrypoint.py:188-197 | with `--prefer-tags`, collating a walk's dictionary succeeds exactly when every non-sentinel release is named by an annotated tag whose tagger name and e-mail are ASCII, and the sentinel's newest commit has an ASCII author name and e-mail |

## Left out

- Git access (`repo_iterate`, `get_commit_tags`, `repo.tags`): the commits come as a sequence, newest first; the tags at a commit as a function `tagsAt`; the repository's tags by name as a function `Tags`.
- The `--since`/`--until` range and the revision string `repo_iterate` builds from it are not modelled; the walk sees whatever commits it is given.
- The regular-expression engine: `Re.Pattern` stands for a compiled pattern; `re.error` for an invalid pattern and the `re.MULTILINE` flag are not modelled.
- TagFilters.IsSemanticVersion: modelled by the Semantic Versioning 2.0.0 grammar; the `semver` package's own regular expression differs at the edges (for example `$` accepts a trailing newline), and its version is not pinned.
- `parse_args` apart from its final deb check, `main`, exit codes and configuration files: argument parsing is replaced by the `Options` value.
- Dates: `time.gmtime`, `strftime` and `email.utils.formatdate` renderings; a release keeps the raw timestamp from which they derive.
- Text encodings: strings are `seq<char>`. Python 2's `str()` on GitPython's unicode names and e-mail addresses is modelled as the ASCII test `Collation.IsAscii`; byte strings and other default encodings are not modelled.
- Template selection and rendering (Jinja), and logging calls.
- TagFilters.IsCustomVersion: defined only for a filter made with a pattern, as in the source, where a semantic filter has no `custom_pattern`.

## Findings

| source | as written | input that shows it | evidently intended | confidence | as-written member | corrected member |
|---|---|---|---|---|---|---|
| gcg/entrypoint.py:407 | the walk builds `TagFilter(None)`, so `--custom-tag-pattern` (gcg/entrypoint.py:115-122) is parsed and never used | `--custom-tag-pattern '^(\d+)\.(\d+)$'` and one commit tagged `1.2`: the commit lands under the sentinel | the tag filter is built from the option, and the commit forms the release `1.2` | not executed | TraversalFindings.CustomTagPatternIgnored | TraversalFindings.ConfiguredPatternOpensGroup |
