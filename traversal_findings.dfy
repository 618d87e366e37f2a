/** `--custom-tag-pattern` and the walk: the option is parsed but the walk
    builds its filter as `TagFilter(None)` (gcg/entrypoint.py:407), so a
    tag the pattern accepts but semantic versioning rejects never starts a
    release. */
module TraversalFindings {

  import opened Wrappers
  import SemVer
  import opened TagFilters
  import opened Entrypoint
  import opened Traversal
  import opened TagFilterExamples
  import opened TagFilterListExamples
  import opened TagFilterCustomExamples

  /** Every commit carries the one tag `1.2`. */
  function TaggedOneTwo(): Commit -> seq<string> {
    c => ["1.2"]
  }

  /** The default options with `--custom-tag-pattern '^(\d+)\.(\d+)$'`. */
  function PatternOptions(): Options {
    DefaultOptions(Rpm).(customTagPattern := Some(TWO_NUMBERS.source))
  }

  lemma TwoNumbersShort()
    ensures IsTwoNumbers("1.2")
  {
    assert SemVer.Join(["1", "2"], '.') == "1.2";
    SemVer.SplitJoin(["1", "2"], '.');
  }

  /** The semantic check turns `1.2` down; the two-number pattern takes it. */
  lemma OneTwoJudged()
    ensures MatchingOnly(Plain(), ["1.2"], None) == []
    ensures MatchingOnly(Anchored(), ["1.2"], None) == ["1.2"]
  {
    SemanticRejects();
    TwoNumbersShort();
    CustomWithoutPrefix("1.2");
    FilterCons("1.2", [], Qualifies(Plain(), None));
    FilterCons("1.2", [], Qualifies(Anchored(), None));
    assert ["1.2"] == ["1.2"] + [];
  }

  /** As written: with the pattern given, a commit tagged `1.2` still lands
      under the sentinel, as if it had no release tag. */
  lemma CustomTagPatternIgnored(c: Commit, bugRegex: Re.Pattern)
    requires bugRegex.source == PatternOptions().bugTrackingPattern
    ensures Segment(Context(TaggedOneTwo(), NewTagFilter(None, None), PatternOptions(), bugRegex), [c])
            == [Entry(SENTINEL, [c])]
  {
    var ctx := Context(TaggedOneTwo(), NewTagFilter(None, None), PatternOptions(), bugRegex);
    OneTwoJudged();
    assert Qualifying(ctx, c) == MatchingOnly(Plain(), ["1.2"], None);
    SingleCommit(ctx, c);
  }

  /** Corrected: the filter built from the pattern makes `1.2` the key of
      the commit's release. */
  lemma ConfiguredPatternOpensGroup(c: Commit, bugRegex: Re.Pattern)
    requires bugRegex.source == PatternOptions().bugTrackingPattern
    ensures Segment(Context(TaggedOneTwo(), NewTagFilter(Some(TWO_NUMBERS), None), PatternOptions(), bugRegex), [c])
            == [Entry("1.2", [c])]
  {
    var ctx := Context(TaggedOneTwo(), NewTagFilter(Some(TWO_NUMBERS), None), PatternOptions(), bugRegex);
    OneTwoJudged();
    assert Qualifying(ctx, c) == MatchingOnly(Anchored(), ["1.2"], None);
    SingleCommit(ctx, c);
  }
}
