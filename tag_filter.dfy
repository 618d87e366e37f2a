/** Tag qualification (gcg/tag_filter.py): deciding which tag names are
    release versions, either by the Semantic Versioning rules or by a
    user-supplied pattern, after an optional prefix such as `v` is taken off. */
module TagFilters {

  import opened Wrappers
  import Re
  import SemVer

  /** How a filter judges a version string; fixed when the filter is made. */
  datatype Mode = Semantic | Custom(pattern: Re.Pattern)

  /** A `TagFilter` object: its mode and the prefix given at construction. */
  datatype TagFilter = TagFilter(mode: Mode, prefix: Option<string>)

  /** `TagFilter(pattern, prefix)`: no pattern selects the semantic check,
      any pattern (already compiled) selects the custom check. */
  function NewTagFilter(pattern: Option<Re.Pattern>, prefix: Option<string>): (f: TagFilter)
    ensures f.prefix == prefix
    ensures f.mode.Semantic? <==> pattern.None?
    ensures pattern.Some? ==> f.mode.Custom? && f.mode.pattern == pattern.value
  {
    TagFilter(if pattern.None? then Semantic else Custom(pattern.value), prefix)
  }

  /** The prefix `strip_prefix` works with: the argument when one is given,
      the constructor's otherwise. */
  function EffectivePrefix(f: TagFilter, prefix: Option<string>): Option<string> {
    if prefix.None? then f.prefix else prefix
  }

  /** `strip_prefix(value, prefix)`: when the effective prefix is non-empty
      and `value` starts with it, one copy of it is removed; otherwise
      `value` comes back unchanged. The result is always a suffix of `value`. */
  function StripPrefix(f: TagFilter, value: string, prefix: Option<string>): (r: string)
    ensures |r| <= |value| && r == value[|value| - |r|..]
    ensures match EffectivePrefix(f, prefix)
              case Some(p) => if p != [] && p <= value then value == p + r else r == value
              case None => r == value
  {
    var p := EffectivePrefix(f, prefix);
    if p.Some? && p.value != [] && p.value <= value then value[|p.value|..] else value
  }

  /** `is_semantic_version`: the stripped value is accepted exactly when the
      Semantic Versioning grammar generates it; a value it cannot parse is
      rejected rather than raising. */
  function IsSemanticVersion(f: TagFilter, value: string, prefix: Option<string>): (ok: bool)
    ensures ok <==> exists v :: SemVer.WellFormed(v) && SemVer.Format(v) == StripPrefix(f, value, prefix)
    ensures ok ==> StripPrefix(f, value, prefix) != [] && SemVer.IsDigit(StripPrefix(f, value, prefix)[0])
  {
    var s := StripPrefix(f, value, prefix);
    SemVer.ValidIffFormat(s);
    if SemVer.IsValid(s) then SemVer.ValidStartsWithDigit(s); true else false
  }

  /** `is_custom_version`: whether the filter's pattern matches at the start
      of the stripped value. Only a filter made with a pattern has one. */
  function IsCustomVersion(f: TagFilter, value: string, prefix: Option<string>): (ok: bool)
    requires f.mode.Custom?
    ensures match EffectivePrefix(f, prefix)
              case Some(p) =>
                if p != [] && p <= value then ok == f.mode.pattern.matchesAtStart(value[|p|..])
                else ok == f.mode.pattern.matchesAtStart(value)
              case None => ok == f.mode.pattern.matchesAtStart(value)
  {
    f.mode.pattern.matchesAtStart(StripPrefix(f, value, prefix))
  }

  /** `matches`: the check the constructor selected. */
  function Matches(f: TagFilter, value: string, prefix: Option<string>): (ok: bool)
    ensures f.mode.Semantic? ==>
              (ok <==> exists v :: SemVer.WellFormed(v) && SemVer.Format(v) == StripPrefix(f, value, prefix))
    ensures f.mode.Custom? ==> (ok <==> f.mode.pattern.matchesAtStart(StripPrefix(f, value, prefix)))
  {
    match f.mode
    case Semantic => IsSemanticVersion(f, value, prefix)
    case Custom(_) => IsCustomVersion(f, value, prefix)
  }

  /** `a` is `b` with some elements left out, the rest in their order. */
  predicate IsSubsequence<T(==)>(a: seq<T>, b: seq<T>) {
    if a == [] then true
    else if b == [] then false
    else if a[0] == b[0] then IsSubsequence(a[1..], b[1..])
    else IsSubsequence(a, b[1..])
  }

  /** The elements of `xs` that `keep` accepts, in their order. */
  function Filter<T(==)>(xs: seq<T>, keep: T -> bool): (r: seq<T>)
    ensures forall k :: 0 <= k < |r| ==> keep(r[k])
    ensures forall k :: 0 <= k < |xs| && keep(xs[k]) ==> xs[k] in r
  {
    if xs == [] then []
    else
      var rest := Filter(xs[1..], keep);
      assert forall k :: 1 <= k < |xs| ==> xs[k] == xs[1..][k - 1];
      if keep(xs[0]) then [xs[0]] + rest else rest
  }

  lemma {:induction false} FilterSubsequence<T>(xs: seq<T>, keep: T -> bool)
    ensures IsSubsequence(Filter(xs, keep), xs)
  {
    if xs != [] {
      FilterSubsequence(xs[1..], keep);
      var rest := Filter(xs[1..], keep);
      if !keep(xs[0]) {
        SubsequenceOfTail(rest, xs);
      }
    }
  }

  /** What is a subsequence of the tail is one of the whole. */
  lemma {:induction false} SubsequenceOfTail<T>(a: seq<T>, b: seq<T>)
    requires b != [] && IsSubsequence(a, b[1..])
    ensures IsSubsequence(a, b)
    decreases |b|, 0
  {
    if a != [] && a[0] == b[0] {
      DropHead(a, b[1..]);
    }
  }

  /** Leaving out the first element keeps a subsequence one. */
  lemma {:induction false} DropHead<T>(a: seq<T>, c: seq<T>)
    requires a != [] && IsSubsequence(a, c)
    ensures IsSubsequence(a[1..], c)
    decreases |c|, 1
  {
    if a[0] == c[0] {
      SubsequenceOfTail(a[1..], c);
    } else {
      DropHead(a, c[1..]);
      SubsequenceOfTail(a[1..], c);
    }
  }

  lemma {:induction false} FilterCounts<T>(xs: seq<T>, keep: T -> bool, x: T)
    ensures multiset(Filter(xs, keep))[x] == if keep(x) then multiset(xs)[x] else 0
  {
    if xs != [] {
      FilterCounts(xs[1..], keep, x);
      assert xs == [xs[0]] + xs[1..];
    }
  }

  lemma {:induction false} FilterIdempotent<T>(xs: seq<T>, keep: T -> bool)
    ensures Filter(Filter(xs, keep), keep) == Filter(xs, keep)
  {
    if xs != [] {
      FilterIdempotent(xs[1..], keep);
    }
  }

  lemma {:induction false} FilterEmpty<T>(xs: seq<T>, keep: T -> bool)
    ensures Filter(xs, keep) == [] <==> forall k :: 0 <= k < |xs| ==> !keep(xs[k])
  {
    if xs != [] {
      FilterEmpty(xs[1..], keep);
      if Filter(xs, keep) == [] {
        forall k | 0 <= k < |xs| ensures !keep(xs[k]) {
          if k > 0 { assert xs[k] == xs[1..][k - 1]; }
        }
      }
    }
  }

  lemma {:induction false} FilterHead<T>(xs: seq<T>, keep: T -> bool, i: nat)
    requires i < |xs| && keep(xs[i])
    requires forall j :: 0 <= j < i ==> !keep(xs[j])
    ensures Filter(xs, keep) != [] && Filter(xs, keep)[0] == xs[i]
  {
    if i > 0 {
      forall j | 0 <= j < i - 1 ensures !keep(xs[1..][j]) {
        assert xs[1..][j] == xs[j + 1];
      }
      FilterHead(xs[1..], keep, i - 1);
    }
  }

  lemma {:induction false} FilterAppend<T>(a: seq<T>, b: seq<T>, keep: T -> bool)
    ensures Filter(a + b, keep) == Filter(a, keep) + Filter(b, keep)
  {
    if a == [] {
      assert a + b == b;
    } else {
      FilterAppend(a[1..], b, keep);
      assert (a + b)[0] == a[0] && (a + b)[1..] == a[1..] + b;
    }
  }

  /** The test `matching_only` applies to each version. */
  function Qualifies(f: TagFilter, prefix: Option<string>): string -> bool {
    x => Matches(f, x, prefix)
  }

  /** `matching_only`: the versions that qualify, in their original order. */
  function MatchingOnly(f: TagFilter, versions: seq<string>, prefix: Option<string>): (r: seq<string>)
    ensures forall k :: 0 <= k < |r| ==> Matches(f, r[k], prefix)
    ensures forall k :: 0 <= k < |versions| && Matches(f, versions[k], prefix) ==> versions[k] in r
  {
    Filter(versions, Qualifies(f, prefix))
  }

  /** The result keeps the input's order: it is a subsequence of it. */
  lemma MatchingOnlyKeepsOrder(f: TagFilter, versions: seq<string>, prefix: Option<string>)
    ensures IsSubsequence(MatchingOnly(f, versions, prefix), versions)
  {
    FilterSubsequence(versions, Qualifies(f, prefix));
  }

  /** Each qualifying version is kept exactly as often as it occurs; every
      other one is dropped. With `IsSubsequence` this pins the result down. */
  lemma MatchingOnlyCounts(f: TagFilter, versions: seq<string>, prefix: Option<string>, x: string)
    ensures multiset(MatchingOnly(f, versions, prefix))[x] == if Matches(f, x, prefix) then multiset(versions)[x] else 0
  {
    FilterCounts(versions, Qualifies(f, prefix), x);
  }

  /** Filtering what was already filtered changes nothing. */
  lemma MatchingOnlyIdempotent(f: TagFilter, versions: seq<string>, prefix: Option<string>)
    ensures MatchingOnly(f, MatchingOnly(f, versions, prefix), prefix) == MatchingOnly(f, versions, prefix)
  {
    FilterIdempotent(versions, Qualifies(f, prefix));
  }

  /** Nothing qualifies exactly when the result is empty. */
  lemma MatchingOnlyEmpty(f: TagFilter, versions: seq<string>, prefix: Option<string>)
    ensures MatchingOnly(f, versions, prefix) == [] <==> forall k :: 0 <= k < |versions| ==> !Matches(f, versions[k], prefix)
  {
    FilterEmpty(versions, Qualifies(f, prefix));
  }

  /** The first element of the result is the first qualifying version. */
  lemma MatchingOnlyHead(f: TagFilter, versions: seq<string>, prefix: Option<string>, i: nat)
    requires i < |versions| && Matches(f, versions[i], prefix)
    requires forall j :: 0 <= j < i ==> !Matches(f, versions[j], prefix)
    ensures MatchingOnly(f, versions, prefix) != []
    ensures MatchingOnly(f, versions, prefix)[0] == versions[i]
  {
    FilterHead(versions, Qualifies(f, prefix), i);
  }

  /** Filtering a concatenation filters each part. */
  lemma MatchingOnlyAppend(f: TagFilter, a: seq<string>, b: seq<string>, prefix: Option<string>)
    ensures MatchingOnly(f, a + b, prefix) == MatchingOnly(f, a, prefix) + MatchingOnly(f, b, prefix)
  {
    FilterAppend(a, b, Qualifies(f, prefix));
  }

  /** Stripping a non-empty prefix undoes putting it in front. */
  lemma StripAddedPrefix(f: TagFilter, p: string, value: string, prefix: Option<string>)
    requires EffectivePrefix(f, prefix) == Some(p) && p != []
    ensures StripPrefix(f, p + value, prefix) == value
  {
  }

  /** Only one copy of the prefix is removed. */
  lemma StripOnce(f: TagFilter, p: string, value: string, prefix: Option<string>)
    requires EffectivePrefix(f, prefix) == Some(p) && p != []
    ensures StripPrefix(f, p + p + value, prefix) == p + value
  {
    assert p + p + value == p + (p + value);
  }

  /** A value that does not start with the prefix is left alone. */
  lemma StripAbsentPrefix(f: TagFilter, value: string, prefix: Option<string>)
    requires EffectivePrefix(f, prefix).Some? && !(EffectivePrefix(f, prefix).value <= value)
    ensures StripPrefix(f, value, prefix) == value
  {
  }

  /** A prefix argument, when given, decides alone: the constructor's prefix
      plays no part. */
  lemma ExplicitPrefixOverrides(f: TagFilter, value: string, p: string)
    ensures StripPrefix(f, value, Some(p)) == StripPrefix(TagFilter(f.mode, None), value, Some(p))
    ensures p == [] ==> StripPrefix(f, value, Some(p)) == value
  {
  }

  /** The check depends on the mode alone: a filter made without a pattern
      applies the semantic check, one made with a pattern applies that
      pattern. */
  lemma ModeFixedAtConstruction(pattern: Option<Re.Pattern>, ctorPrefix: Option<string>, value: string, prefix: Option<string>)
    ensures var f := NewTagFilter(pattern, ctorPrefix);
            Matches(f, value, prefix)
            <==> match pattern
                 case None => SemVer.IsValid(StripPrefix(f, value, prefix))
                 case Some(pat) => pat.matchesAtStart(StripPrefix(f, value, prefix))
  {
    var f := NewTagFilter(pattern, ctorPrefix);
    SemVer.ValidIffFormat(StripPrefix(f, value, prefix));
  }
}
