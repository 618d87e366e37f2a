/** The behaviour tests/test_tag_filter.py expects of `TagFilter`, derived
    from the model. */
module TagFilterExamples {

  import opened Wrappers
  import Re
  import SemVer
  import opened TagFilters

  /** A filter made with neither pattern nor prefix: the semantic check. */
  function Plain(): TagFilter { NewTagFilter(None, None) }

  lemma SemanticAccepts()
    ensures Matches(Plain(), "1.2.0", None) && Matches(Plain(), "1.2.0-3", None)
  {
    SemVer.AcceptedCore();
    SemVer.AcceptedShortPreRelease();
  }

  lemma SemanticRejects()
    ensures !Matches(Plain(), "1", None) && !Matches(Plain(), "1.2", None)
    ensures !Matches(Plain(), "v1.2.3", None)
  {
    SemVer.RejectedShortCores();
    SemVer.RejectedPrefixed();
    PlainJudgesAsIs("1");
    PlainJudgesAsIs("1.2");
    PlainJudgesAsIs("v1.2.3");
  }

  /** Without a prefix the semantic filter judges the value as it stands. */
  lemma PlainJudgesAsIs(value: string)
    ensures Matches(Plain(), value, None) <==> SemVer.IsValid(value)
  {
  }

  /** A semantic filter accepts a valid version behind its prefix. */
  lemma PrefixedValid(f: TagFilter, p: string, v: string, prefix: Option<string>)
    requires f.mode.Semantic? && EffectivePrefix(f, prefix) == Some(p) && p != []
    requires SemVer.IsValid(v)
    ensures Matches(f, p + v, prefix)
  {
    StripAddedPrefix(f, p, v, prefix);
  }

  /** A prefix, given to the call or to the constructor, is taken off before
      the check. */
  lemma PrefixExamples()
    ensures Matches(Plain(), "foo1.2.0", Some("foo"))
    ensures Matches(NewTagFilter(None, Some("v")), "v1.2.0", None)
    ensures Matches(NewTagFilter(None, Some("foo")), "foo1.2.0", None)
  {
    PrefixGivenToCall();
    PrefixGivenToConstructor();
    LongPrefixGivenToConstructor();
  }

  lemma PrefixGivenToCall()
    ensures Matches(Plain(), "foo1.2.0", Some("foo"))
  {
    SemVer.AcceptedCore();
    FooText();
    PrefixedValid(Plain(), "foo", "1.2.0", Some("foo"));
  }

  lemma PrefixGivenToConstructor()
    ensures Matches(NewTagFilter(None, Some("v")), "v1.2.0", None)
  {
    SemVer.AcceptedCore();
    VText();
    PrefixedValid(NewTagFilter(None, Some("v")), "v", "1.2.0", None);
  }

  lemma LongPrefixGivenToConstructor()
    ensures Matches(NewTagFilter(None, Some("foo")), "foo1.2.0", None)
  {
    SemVer.AcceptedCore();
    FooText();
    PrefixedValid(NewTagFilter(None, Some("foo")), "foo", "1.2.0", None);
  }

  /** Text equality on literals, stated once so callers need not unfold it. */
  lemma FooText()
    ensures "foo" + "1.2.0" == "foo1.2.0"
  {
  }

  /** Text equality on literals, stated once so callers need not unfold it. */
  lemma VText()
    ensures "v" + "1.2.0" == "v1.2.0"
  {
  }

  /** A prefix the value does not start with is not taken off. */
  lemma WrongPrefixExample()
    ensures !Matches(Plain(), "foo1.2.0", Some("oof"))
  {
    assert "foo1.2.0"[0] != "oof"[0];
    StripAbsentPrefix(Plain(), "foo1.2.0", Some("oof"));
    if SemVer.IsValid("foo1.2.0") {
      SemVer.ValidStartsWithDigit("foo1.2.0");
    }
  }
}

module TagFilterListExamples {
  import opened Wrappers
  import SemVer
  import opened Sequences
  import opened TagFilters
  import opened TagFilterExamples

  /** `x` alone, when `keep` accepts it. */
  function Pick<T>(x: T, keep: T -> bool): seq<T> {
    if keep(x) then [x] else []
  }

  /** One element in front of a list: kept when `keep` accepts it. */
  lemma FilterCons<T>(x: T, rest: seq<T>, keep: T -> bool)
    ensures Filter([x] + rest, keep) == Pick(x, keep) + Filter(rest, keep)
  {
    assert ([x] + rest)[0] == x && ([x] + rest)[1..] == rest;
  }

  /** The filtering of the semantic-only test list, for any test that
      judges its elements as the semantic check does. */
  lemma SemverOnlyShape(keep: string -> bool)
    requires !keep("v1.2") && !keep("1.4") && keep("0.1.2")
    requires keep("99.88.77-654321") && keep("22.33.1-YADA") && !keep("1.2.3_5")
    ensures Filter(["v1.2", "1.4", "0.1.2", "99.88.77-654321", "22.33.1-YADA", "1.2.3_5"], keep)
            == ["0.1.2", "99.88.77-654321", "22.33.1-YADA"]
  {
    var t5: seq<string> := [];
    var t4 := ["1.2.3_5"] + t5;
    var t3 := ["22.33.1-YADA"] + t4;
    var t2 := ["99.88.77-654321"] + t3;
    var t1 := ["0.1.2"] + t2;
    var t0 := ["1.4"] + t1;
    FilterCons("1.2.3_5", t5, keep);
    FilterCons("22.33.1-YADA", t4, keep);
    FilterCons("99.88.77-654321", t3, keep);
    FilterCons("0.1.2", t2, keep);
    FilterCons("1.4", t1, keep);
    FilterCons("v1.2", t0, keep);
    SemverOnlyList();
  }

  /** Text equality on literals, stated once so callers need not unfold it. */
  lemma SemverOnlyList()
    ensures ["v1.2"] + (["1.4"] + (["0.1.2"] + (["99.88.77-654321"] + (["22.33.1-YADA"] + (["1.2.3_5"] + [])))))
            == ["v1.2", "1.4", "0.1.2", "99.88.77-654321", "22.33.1-YADA", "1.2.3_5"]
  {
  }

  /** tests/test_tag_filter.py, `test_filter_semvers_only`. */
  lemma SemverOnlyExample()
    ensures MatchingOnly(Plain(), ["v1.2", "1.4", "0.1.2", "99.88.77-654321", "22.33.1-YADA", "1.2.3_5"], None)
            == ["0.1.2", "99.88.77-654321", "22.33.1-YADA"]
  {
    SemverOnlyJudgements();
    SemverOnlyShape(Qualifies(Plain(), None));
  }

  /** How the semantic filter judges each element of the semantic-only test
      list. */
  lemma SemverOnlyJudgements()
    ensures !Matches(Plain(), "v1.2", None) && !Matches(Plain(), "1.4", None) && Matches(Plain(), "0.1.2", None)
    ensures Matches(Plain(), "99.88.77-654321", None) && Matches(Plain(), "22.33.1-YADA", None)
    ensures !Matches(Plain(), "1.2.3_5", None)
  {
    SemverOnlyRejections();
    SemverOnlyAcceptances();
  }

  lemma SemverOnlyRejections()
    ensures !Matches(Plain(), "v1.2", None) && !Matches(Plain(), "1.4", None)
    ensures !Matches(Plain(), "1.2.3_5", None)
  {
    SemVer.RejectedShortCores();
    SemVer.RejectedPrefixed();
    SemVer.RejectedUnderscore();
    PlainJudgesAsIs("v1.2");
    PlainJudgesAsIs("1.4");
    PlainJudgesAsIs("1.2.3_5");
  }

  lemma SemverOnlyAcceptances()
    ensures Matches(Plain(), "0.1.2", None) && Matches(Plain(), "99.88.77-654321", None)
    ensures Matches(Plain(), "22.33.1-YADA", None)
  {
    SemVer.AcceptedZeroMajor();
    SemVer.AcceptedNumericPreRelease();
    SemVer.AcceptedAlphaPreRelease();
    PlainJudgesAsIs("0.1.2");
    PlainJudgesAsIs("99.88.77-654321");
    PlainJudgesAsIs("22.33.1-YADA");
  }

  /** A semantic filter rejects an invalid version behind its prefix. */
  lemma PrefixedInvalid(f: TagFilter, p: string, v: string, prefix: Option<string>)
    requires f.mode.Semantic? && EffectivePrefix(f, prefix) == Some(p) && p != []
    requires !SemVer.IsValid(v)
    ensures !Matches(f, p + v, prefix)
  {
    StripAddedPrefix(f, p, v, prefix);
  }

  /** A semantic filter judges a value without its prefix as it stands. */
  lemma UnprefixedJudged(f: TagFilter, value: string, prefix: Option<string>)
    requires f.mode.Semantic? && EffectivePrefix(f, prefix).Some?
    requires value != [] && EffectivePrefix(f, prefix).value != [] && value[0] != EffectivePrefix(f, prefix).value[0]
    ensures Matches(f, value, prefix) <==> SemVer.IsValid(value)
  {
    StripAbsentPrefix(f, value, prefix);
    SemVer.ValidIffFormat(value);
  }

  /** How a filter with prefix `v` judges the prefixed test list. */
  lemma PrefixedJudgements(f: TagFilter, prefix: Option<string>)
    requires f.mode.Semantic? && EffectivePrefix(f, prefix) == Some("v")
    ensures !Matches(f, "v1.2", prefix) && !Matches(f, "1.4", prefix) && Matches(f, "0.1.2", prefix)
    ensures Matches(f, "v0.1.2", prefix) && Matches(f, "v99.88.77-654321", prefix)
    ensures Matches(f, "22.33.1-YADA", prefix) && !Matches(f, "1.2.3_5", prefix)
  {
    SemVer.RejectedShortCores();
    SemVer.RejectedUnderscore();
    SemVer.AcceptedZeroMajor();
    SemVer.AcceptedAlphaPreRelease();
    PrefixedJudgementsOfPrefixed(f, prefix);
    UnprefixedJudged(f, "1.4", prefix);
    UnprefixedJudged(f, "0.1.2", prefix);
    UnprefixedJudged(f, "22.33.1-YADA", prefix);
    UnprefixedJudged(f, "1.2.3_5", prefix);
  }

  lemma PrefixedJudgementsOfPrefixed(f: TagFilter, prefix: Option<string>)
    requires f.mode.Semantic? && EffectivePrefix(f, prefix) == Some("v")
    ensures !Matches(f, "v1.2", prefix)
    ensures Matches(f, "v0.1.2", prefix) && Matches(f, "v99.88.77-654321", prefix)
  {
    PrefixedShortRejected(f, prefix);
    PrefixedCoreAccepted(f, prefix);
    PrefixedPreReleaseAccepted(f, prefix);
  }

  lemma PrefixedShortRejected(f: TagFilter, prefix: Option<string>)
    requires f.mode.Semantic? && EffectivePrefix(f, prefix) == Some("v")
    ensures !Matches(f, "v1.2", prefix)
  {
    assert "v1.2" == "v" + "1.2";
    SemVer.RejectedShortCores();
    PrefixedInvalid(f, "v", "1.2", prefix);
  }

  lemma PrefixedCoreAccepted(f: TagFilter, prefix: Option<string>)
    requires f.mode.Semantic? && EffectivePrefix(f, prefix) == Some("v")
    ensures Matches(f, "v0.1.2", prefix)
  {
    PrefixedZeroText();
    SemVer.AcceptedZeroMajor();
    PrefixedValid(f, "v", "0.1.2", prefix);
  }

  /** Text equality on literals, stated once so callers need not unfold it. */
  lemma PrefixedZeroText()
    ensures "v" + "0.1.2" == "v0.1.2"
  {
  }

  lemma PrefixedPreReleaseText()
    ensures "v" + "99.88.77-654321" == "v99.88.77-654321"
  {
  }

  lemma PrefixedPreReleaseAccepted(f: TagFilter, prefix: Option<string>)
    requires f.mode.Semantic? && EffectivePrefix(f, prefix) == Some("v")
    ensures Matches(f, "v99.88.77-654321", prefix)
  {
    SemVer.AcceptedNumericPreRelease();
    PrefixedValid(f, "v", "99.88.77-654321", prefix);
    PrefixedPreReleaseText();
  }

  /** `Filter` of a three-element list, element by element. */
  lemma FilterThree<T>(a: T, b: T, c: T, keep: T -> bool)
    ensures Filter([a, b, c], keep) == Pick(a, keep) + Pick(b, keep) + Pick(c, keep)
  {
    FilterCons(c, [], keep);
    assert [c] + [] == [c];
    FilterCons(b, [c], keep);
    assert [b] + [c] == [b, c];
    FilterCons(a, [b, c], keep);
    assert [a] + [b, c] == [a, b, c];
    AppendAssoc(Pick(a, keep), Pick(b, keep), Pick(c, keep));
  }

  /** `Filter` of a four-element list, element by element. */
  lemma FilterFour<T>(a: T, b: T, c: T, d: T, keep: T -> bool)
    ensures Filter([a, b, c, d], keep) == Pick(a, keep) + Pick(b, keep) + Pick(c, keep) + Pick(d, keep)
  {
    FilterThree(b, c, d, keep);
    assert [a] + [b, c, d] == [a, b, c, d];
    FilterCons(a, [b, c, d], keep);
    AppendAssoc(Pick(a, keep), Pick(b, keep) + Pick(c, keep), Pick(d, keep));
    AppendAssoc(Pick(a, keep), Pick(b, keep), Pick(c, keep));
  }

  /** The filtering of the prefixed test list, for any test that judges its
      elements as the semantic check with prefix `v` does. */
  lemma PrefixedShape(keep: string -> bool)
    requires !keep("v1.2") && !keep("1.4") && keep("0.1.2") && keep("v0.1.2")
    requires keep("v99.88.77-654321") && keep("22.33.1-YADA") && !keep("1.2.3_5")
    ensures Filter(["v1.2", "1.4", "0.1.2", "v0.1.2", "v99.88.77-654321", "22.33.1-YADA", "1.2.3_5"], keep)
            == ["0.1.2", "v0.1.2", "v99.88.77-654321", "22.33.1-YADA"]
  {
    var t6: seq<string> := [];
    var t5 := ["1.2.3_5"] + t6;
    var t4 := ["22.33.1-YADA"] + t5;
    var t3 := ["v99.88.77-654321"] + t4;
    var t2 := ["v0.1.2"] + t3;
    var t1 := ["0.1.2"] + t2;
    var t0 := ["1.4"] + t1;
    FilterCons("1.2.3_5", t6, keep);
    FilterCons("22.33.1-YADA", t5, keep);
    FilterCons("v99.88.77-654321", t4, keep);
    FilterCons("v0.1.2", t3, keep);
    FilterCons("0.1.2", t2, keep);
    FilterCons("1.4", t1, keep);
    FilterCons("v1.2", t0, keep);
    PrefixedList();
  }

  /** Text equality on literals, stated once so callers need not unfold it. */
  lemma PrefixedList()
    ensures ["v1.2"] + (["1.4"] + (["0.1.2"] + (["v0.1.2"] + (["v99.88.77-654321"] + (["22.33.1-YADA"] + (["1.2.3_5"] + []))))))
            == ["v1.2", "1.4", "0.1.2", "v0.1.2", "v99.88.77-654321", "22.33.1-YADA", "1.2.3_5"]
  {
  }

  /** tests/test_tag_filter.py, `test_matching_only_with_prefix`: the prefix
      given to the constructor and the prefix given to the call act alike. */
  lemma PrefixedListExample()
    ensures MatchingOnly(NewTagFilter(None, Some("v")), ["v1.2", "1.4", "0.1.2", "v0.1.2", "v99.88.77-654321", "22.33.1-YADA", "1.2.3_5"], None)
            == ["0.1.2", "v0.1.2", "v99.88.77-654321", "22.33.1-YADA"]
    ensures MatchingOnly(Plain(), ["v1.2", "1.4", "0.1.2", "v0.1.2", "v99.88.77-654321", "22.33.1-YADA", "1.2.3_5"], Some("v"))
            == ["0.1.2", "v0.1.2", "v99.88.77-654321", "22.33.1-YADA"]
  {
    PrefixedListByConstructor();
    PrefixedListByCall();
  }

  lemma PrefixedListByConstructor()
    ensures MatchingOnly(NewTagFilter(None, Some("v")), ["v1.2", "1.4", "0.1.2", "v0.1.2", "v99.88.77-654321", "22.33.1-YADA", "1.2.3_5"], None)
            == ["0.1.2", "v0.1.2", "v99.88.77-654321", "22.33.1-YADA"]
  {
    PrefixedJudgements(NewTagFilter(None, Some("v")), None);
    PrefixedShape(Qualifies(NewTagFilter(None, Some("v")), None));
  }

  lemma PrefixedListByCall()
    ensures MatchingOnly(Plain(), ["v1.2", "1.4", "0.1.2", "v0.1.2", "v99.88.77-654321", "22.33.1-YADA", "1.2.3_5"], Some("v"))
            == ["0.1.2", "v0.1.2", "v99.88.77-654321", "22.33.1-YADA"]
  {
    PrefixedJudgements(Plain(), Some("v"));
    PrefixedShape(Qualifies(Plain(), Some("v")));
  }
}

module TagFilterCustomExamples {
  import opened Wrappers
  import Re
  import SemVer
  import opened TagFilters
  import opened TagFilterListExamples

  /** What `re.compile(r'^(\d+)\.(\d+)$').match(s)` accepts: two runs of
      ASCII digits around one dot, optionally followed by one line feed
      (Python's `$` also matches just before a final line feed). */
  predicate IsTwoNumbers(s: string) {
    var t := if s != [] && s[|s| - 1] == '\n' then s[..|s| - 1] else s;
    var parts := SemVer.Split(t, '.');
    && |parts| == 2
    && parts[0] != [] && SemVer.AllDigits(parts[0])
    && parts[1] != [] && SemVer.AllDigits(parts[1])
  }

  /** The pattern of tests/test_tag_filter.py. */
  const TWO_NUMBERS: Re.Pattern := Re.Pattern(@"^(\d+)\.(\d+)$", s => IsTwoNumbers(s))

  /** A custom filter without a prefix judges the value as it stands. */
  lemma CustomWithoutPrefix(value: string)
    ensures Matches(NewTagFilter(Some(TWO_NUMBERS), None), value, None) <==> IsTwoNumbers(value)
  {
  }

  /** A custom filter with prefix `v` judges the value with one `v` taken off. */
  lemma CustomWithPrefix(value: string)
    ensures Matches(NewTagFilter(Some(TWO_NUMBERS), Some("v")), "v" + value, None) <==> IsTwoNumbers(value)
    ensures value == [] || value[0] != 'v' ==>
              (Matches(NewTagFilter(Some(TWO_NUMBERS), Some("v")), value, None) <==> IsTwoNumbers(value))
  {
    var f := NewTagFilter(Some(TWO_NUMBERS), Some("v"));
    StripAddedPrefix(f, "v", value, None);
    if value == [] || value[0] != 'v' {
      StripAbsentPrefix(f, value, None);
    }
  }


  lemma TwoNumbersLeadingZeros()
    ensures IsTwoNumbers("01.02")
  {
    assert SemVer.Join(["01", "02"], '.') == "01.02";
    SemVer.SplitJoin(["01", "02"], '.');
  }

  lemma TwoNumbersPlain()
    ensures IsTwoNumbers("123.123")
  {
    assert SemVer.Join(["123", "123"], '.') == "123.123";
    SemVer.SplitJoin(["123", "123"], '.');
  }

  lemma TwoNumbersPrefixed()
    ensures !IsTwoNumbers("v123.123")
  {
    assert SemVer.Join(["v123", "123"], '.') == "v123.123";
    SemVer.SplitJoin(["v123", "123"], '.');
    assert !SemVer.IsDigit("v123"[0]);
  }

  lemma TwoNumbersThreeParts()
    ensures !IsTwoNumbers("1.2.3")
  {
    assert SemVer.Join(["1", "2", "3"], '.') == "1.2.3";
    SemVer.SplitJoin(["1", "2", "3"], '.');
  }

  lemma TwoNumbersBuild()
    ensures !IsTwoNumbers("1.2.3-4+bld5")
  {
    assert SemVer.Join(["1", "2", "3-4+bld5"], '.') == "1.2.3-4+bld5";
    SemVer.SplitJoin(["1", "2", "3-4+bld5"], '.');
  }

  /** The filter of tests/test_tag_filter.py without a prefix. */
  function Anchored(): TagFilter { NewTagFilter(Some(TWO_NUMBERS), None) }

  /** The same pattern with prefix `v`. */
  function AnchoredV(): TagFilter { NewTagFilter(Some(TWO_NUMBERS), Some("v")) }

  lemma AnchoredRejectsPrefixed()
    ensures !Matches(Anchored(), "v123.123", None)
  {
    TwoNumbersPrefixed();
    CustomWithoutPrefix("v123.123");
  }

  lemma AnchoredRejectsThreeParts()
    ensures !Matches(Anchored(), "1.2.3", None) && !Matches(AnchoredV(), "1.2.3", None)
  {
    TwoNumbersThreeParts();
    CustomWithoutPrefix("1.2.3");
    CustomWithPrefix("1.2.3");
  }

  lemma AnchoredRejectsBuild()
    ensures !Matches(Anchored(), "1.2.3-4+bld5", None) && !Matches(AnchoredV(), "1.2.3-4+bld5", None)
  {
    TwoNumbersBuild();
    CustomWithoutPrefix("1.2.3-4+bld5");
    CustomWithPrefix("1.2.3-4+bld5");
  }

  lemma AnchoredAcceptsLeadingZeros()
    ensures Matches(Anchored(), "01.02", None) && Matches(AnchoredV(), "01.02", None)
  {
    TwoNumbersLeadingZeros();
    CustomWithoutPrefix("01.02");
    CustomWithPrefix("01.02");
  }

  lemma AnchoredVAcceptsPrefixed()
    ensures Matches(AnchoredV(), "v123.123", None)
  {
    TwoNumbersPlain();
    CustomWithPrefix("123.123");
    PrefixedNumbersText();
  }

  /** Text equality on literals, stated once so callers need not unfold it. */
  lemma PrefixedNumbersText()
    ensures "v" + "123.123" == "v123.123"
  {
  }

  /** tests/test_tag_filter.py, `test_custom_tag_pattern_fails` and
      `test_prefix_is_optional`: the pattern is anchored, and a prefix given
      at construction is taken off first. */
  lemma CustomMatchExamples()
    ensures !Matches(Anchored(), "v123.123", None) && !Matches(Anchored(), "1.2.3", None)
    ensures Matches(AnchoredV(), "v123.123", None)
  {
    AnchoredRejectsPrefixed();
    AnchoredRejectsThreeParts();
    AnchoredVAcceptsPrefixed();
  }

  /** The filtering of the custom test list, for any test that judges its
      elements as given. */
  lemma CustomShape(keep: string -> bool, first: bool)
    requires keep("v123.123") == first && keep("01.02") && !keep("1.2.3") && !keep("1.2.3-4+bld5")
    ensures Filter(["v123.123", "01.02", "1.2.3", "1.2.3-4+bld5"], keep)
            == if first then ["v123.123", "01.02"] else ["01.02"]
  {
    FilterFour("v123.123", "01.02", "1.2.3", "1.2.3-4+bld5", keep);
  }

  /** tests/test_tag_filter.py, `test_matching_only_custom`. */
  lemma CustomListExample()
    ensures MatchingOnly(Anchored(), ["v123.123", "01.02", "1.2.3", "1.2.3-4+bld5"], None) == ["01.02"]
    ensures MatchingOnly(AnchoredV(), ["v123.123", "01.02", "1.2.3", "1.2.3-4+bld5"], None)
            == ["v123.123", "01.02"]
  {
    AnchoredRejectsPrefixed();
    AnchoredRejectsThreeParts();
    AnchoredRejectsBuild();
    AnchoredAcceptsLeadingZeros();
    AnchoredVAcceptsPrefixed();
    CustomShape(Qualifies(Anchored(), None), false);
    CustomShape(Qualifies(AnchoredV(), None), true);
  }

  /** What `re.compile(r'v(\d+)\.(\d+)').match(s)` accepts: a `v`, then two
      runs of ASCII digits around one dot, then anything at all. */
  predicate StartsWithVTwoNumbers(s: string) {
    s != [] && s[0] == 'v' && exists j :: 1 < j <= |s| && IsTwoNumbers(s[1..j])
  }

  /** The unanchored pattern of tests/test_tag_filter.py. */
  const V_TWO_NUMBERS: Re.Pattern := Re.Pattern(@"v(\d+)\.(\d+)", s => StartsWithVTwoNumbers(s))

  /** tests/test_tag_filter.py, `test_custom_tag_pattern_success`: the `v`
      is part of the pattern, and no prefix is taken off. */
  lemma UnanchoredAcceptsPrefixed()
    ensures Matches(NewTagFilter(Some(V_TWO_NUMBERS), None), "v123.123", None)
  {
    TwoNumbersPlain();
    VThenTwoNumbers("123.123");
    PrefixedNumbersText();
  }

  /** A `v` followed by two numbers is what the unanchored pattern accepts. */
  lemma VThenTwoNumbers(rest: string)
    requires IsTwoNumbers(rest)
    ensures StartsWithVTwoNumbers("v" + rest)
  {
    var s := "v" + rest;
    assert s[1..|s|] == rest;
    assert 1 < |s| && IsTwoNumbers(s[1..|s|]);
  }
}
