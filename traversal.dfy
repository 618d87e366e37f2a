/** `traverse_version_tree` (gcg/entrypoint.py:390-424): one pass over the
    commits, newest first, that cuts the history into releases at commits
    carrying a qualifying tag and gathers the commits that are not filtered
    out into an ordered dictionary keyed by tag name. */
module Traversal {

  import opened Wrappers
  import Re
  import opened TagFilters
  import opened Entrypoint
  import opened Sequences

  /** The key of the release that holds the commits above the newest
      qualifying tag. */
  const SENTINEL: string := ""

  /** One item of the ordered dictionary: a tag name and the commits of that
      release, newest first. */
  datatype Entry = Entry(tag: string, commits: seq<Commit>)

  /** What the walk consults for each commit: the tags pointing at it (in
      the order git lists them), the tag filter, the options and the
      compiled bug-tracking pattern. */
  datatype Context = Context(tagsAt: Commit -> seq<string>, filter: TagFilter, options: Options, bugRegex: Re.Pattern)

  function Keys(entries: seq<Entry>): (keys: seq<string>)
    ensures |keys| == |entries|
    ensures forall i :: 0 <= i < |entries| ==> keys[i] == entries[i].tag
  {
    if entries == [] then [] else [entries[0].tag] + Keys(entries[1..])
  }

  predicate Distinct(keys: seq<string>) {
    forall i, j :: 0 <= i < j < |keys| ==> keys[i] != keys[j]
  }

  /** All the commits of the entries, in order. */
  function Flatten(entries: seq<Entry>): seq<Commit> {
    if entries == [] then [] else entries[0].commits + Flatten(entries[1..])
  }

  /** `entries[key] = group` on an `OrderedDict`: a key already present keeps
      its place and gets the new group, a new key goes at the end. */
  function Put(entries: seq<Entry>, key: string, group: seq<Commit>): (r: seq<Entry>)
    ensures key in Keys(entries) ==> Keys(r) == Keys(entries)
    ensures key !in Keys(entries) ==> r == entries + [Entry(key, group)]
    ensures Entry(key, group) in r
    ensures forall e :: e in r ==> e in entries || e == Entry(key, group)
  {
    if entries == [] then [Entry(key, group)]
    else if entries[0].tag == key then [Entry(key, group)] + entries[1..]
    else
      var rest := Put(entries[1..], key, group);
      ConsTail(entries);
      AppendAssoc([entries[0]], entries[1..], [Entry(key, group)]);
      [entries[0]] + rest
  }

  /** An ordered dictionary has each key once. */
  lemma {:induction false} PutKeepsKeysDistinct(entries: seq<Entry>, key: string, group: seq<Commit>)
    requires Distinct(Keys(entries))
    ensures Distinct(Keys(Put(entries, key, group)))
  {
    if key !in Keys(entries) {
      assert Keys(entries + [Entry(key, group)]) == Keys(entries) + [key];
    }
  }

  /** The tags of `c` that qualify, in the order git lists them. */
  function Qualifying(ctx: Context, c: Commit): seq<string> {
    MatchingOnly(ctx.filter, ctx.tagsAt(c), None)
  }

  /** `c` carries a qualifying tag and so starts a new release. */
  predicate Opens(ctx: Context, c: Commit) { Qualifying(ctx, c) != [] }

  predicate Excluded(ctx: Context, c: Commit) {
    CommitFilteredOut(c, ctx.options, ctx.bugRegex)
  }

  /** The loop's variables: `entries`, `curr_tag` and `curr_entry`. */
  datatype WalkState = WalkState(entries: seq<Entry>, currTag: string, currEntry: seq<Commit>)

  const START: WalkState := WalkState([], SENTINEL, [])

  /** One turn of the loop: a qualifying tag records the current release,
      if it has commits, and starts a new one keyed by the first qualifying
      tag; then the commit joins the current release unless it is filtered
      out. Tags are looked at before the filter. */
  function Step(ctx: Context, st: WalkState, c: Commit): WalkState {
    StepWith(st, c, OpeningTag(ctx, c), Excluded(ctx, c))
  }

  /** The same turn, given the key the commit opens, if any, and whether it
      is filtered out. */
  function StepWith(st: WalkState, c: Commit, opening: Option<string>, excluded: bool): WalkState {
    var st' := if opening.Some? then
                 WalkState(if st.currEntry != [] then Put(st.entries, st.currTag, st.currEntry) else st.entries,
                           opening.value, [])
               else st;
    if excluded then st' else st'.(currEntry := st'.currEntry + [c])
  }

  /** The variables after the loop has seen `cs`. */
  function WalkOf(ctx: Context, cs: seq<Commit>): WalkState {
    if cs == [] then START else Step(ctx, WalkOf(ctx, cs[..|cs| - 1]), cs[|cs| - 1])
  }

  /** After the loop: the last release is recorded if it has commits. */
  function Close(st: WalkState): seq<Entry> {
    if st.currEntry != [] then Put(st.entries, st.currTag, st.currEntry) else st.entries
  }

  /** The dictionary `traverse_version_tree` returns for the commits `cs`. */
  function Segment(ctx: Context, cs: seq<Commit>): seq<Entry> {
    Close(WalkOf(ctx, cs))
  }

  /** The loop of `traverse_version_tree`, for a given tag filter. */
  method Traverse(commits: seq<Commit>, tagsAt: Commit -> seq<string>, tagFilter: TagFilter,
                  options: Options, bugRegex: Re.Pattern) returns (entries: seq<Entry>)
    ensures entries == Segment(Context(tagsAt, tagFilter, options, bugRegex), commits)
  {
    ghost var ctx := Context(tagsAt, tagFilter, options, bugRegex);
    entries := [];
    var currEntry: seq<Commit> := [];
    var currTag := SENTINEL;
    for i := 0 to |commits|
      invariant WalkState(entries, currTag, currEntry) == WalkOf(ctx, commits[..i])
    {
      var commit := commits[i];
      var tags := MatchingOnly(tagFilter, tagsAt(commit), None);
      if tags != [] {
        if currEntry != [] {
          entries := Put(entries, currTag, currEntry);
        }
        currTag := tags[0];
        currEntry := [];
      }
      if !CommitFilteredOut(commit, options, bugRegex) {
        currEntry := currEntry + [commit];
      }
      TakeOfTake(commits, i);
    }
    TakeAll(commits);
    if currEntry != [] {
      entries := Put(entries, currTag, currEntry);
    }
  }

  /** `traverse_version_tree` as written: the tag filter is `TagFilter(None)`,
      the semantic check without prefix, whatever the options say. The
      bug-tracking pattern is the one the options name. */
  method TraverseVersionTree(commits: seq<Commit>, tagsAt: Commit -> seq<string>,
                             options: Options, bugRegex: Re.Pattern) returns (entries: seq<Entry>)
    requires bugRegex.source == options.bugTrackingPattern
    ensures entries == Segment(Context(tagsAt, NewTagFilter(None, None), options, bugRegex), commits)
  {
    entries := Traverse(commits, tagsAt, NewTagFilter(None, None), options, bugRegex);
  }

  /** `traverse_version_tree` with the filter `--custom-tag-pattern` asks
      for: the pattern when one is given, the semantic check otherwise. */
  method TraverseVersionTreeConfigured(commits: seq<Commit>, tagsAt: Commit -> seq<string>,
                                       options: Options, bugRegex: Re.Pattern,
                                       tagPattern: Option<Re.Pattern>) returns (entries: seq<Entry>)
    requires bugRegex.source == options.bugTrackingPattern
    requires tagPattern.None? <==> options.customTagPattern.None?
    requires tagPattern.Some? ==> tagPattern.value.source == options.customTagPattern.value
    ensures entries == Segment(Context(tagsAt, NewTagFilter(tagPattern, None), options, bugRegex), commits)
  {
    entries := Traverse(commits, tagsAt, NewTagFilter(tagPattern, None), options, bugRegex);
  }

  // ----- What holds of every walk ---------------------------------------

  /** No recorded release is empty, and no key is recorded twice. */
  predicate WellFormed(entries: seq<Entry>) {
    && (forall e :: e in entries ==> e.commits != [])
    && Distinct(Keys(entries))
  }

  lemma {:induction false} WalkWellFormed(ctx: Context, cs: seq<Commit>)
    ensures WellFormed(WalkOf(ctx, cs).entries)
  {
    if cs != [] {
      var st := WalkOf(ctx, cs[..|cs| - 1]);
      WalkWellFormed(ctx, cs[..|cs| - 1]);
      PutKeepsKeysDistinct(st.entries, st.currTag, st.currEntry);
    }
  }

  /** Whatever the tags and the filter, no release in the result is empty
      and every key is there once. */
  lemma SegmentWellFormed(ctx: Context, cs: seq<Commit>)
    ensures WellFormed(Segment(ctx, cs))
  {
    var st := WalkOf(ctx, cs);
    WalkWellFormed(ctx, cs);
    PutKeepsKeysDistinct(st.entries, st.currTag, st.currEntry);
  }

  /** The key of the release `c` starts, if it starts one. */
  function OpeningTag(ctx: Context, c: Commit): Option<string> {
    if Opens(ctx, c) then Some(Qualifying(ctx, c)[0]) else None
  }

  function TagList(tag: Option<string>): seq<string> {
    if tag.Some? then [tag.value] else []
  }

  /** The first qualifying tag of each commit that starts a release, in the
      order of the walk. */
  function OpeningTags(ctx: Context, cs: seq<Commit>): seq<string> {
    if cs == [] then []
    else OpeningTags(ctx, cs[..|cs| - 1]) + TagList(OpeningTag(ctx, cs[|cs| - 1]))
  }

  /** When no commit opens a release under the empty name, the walk keeps
      the sentinel first at every turn. */
  lemma {:induction false} WalkSentinelFirst(ctx: Context, cs: seq<Commit>)
    requires SENTINEL !in OpeningTags(ctx, cs)
    ensures SentinelFirst(WalkOf(ctx, cs))
  {
    if cs != [] {
      var p := cs[..|cs| - 1];
      var c := cs[|cs| - 1];
      var o := OpeningTag(ctx, c);
      assert OpeningTags(ctx, cs) == OpeningTags(ctx, p) + TagList(o);
      assert o.Some? ==> TagList(o)[0] == o.value;
      WalkSentinelFirst(ctx, p);
      StepKeepsSentinelFirst(WalkOf(ctx, p), c, o, Excluded(ctx, c));
    }
  }

  /** While the sentinel is the current key nothing has been recorded, and
      only the first recorded key can be the sentinel. */
  predicate SentinelFirst(st: WalkState) {
    && (st.currTag == SENTINEL ==> st.entries == [])
    && forall i :: 0 < i < |st.entries| ==> st.entries[i].tag != SENTINEL
  }

  /** A turn of the loop that does not open a release under the sentinel
      keeps it first. */
  lemma StepKeepsSentinelFirst(st: WalkState, c: Commit, opening: Option<string>, excluded: bool)
    requires SentinelFirst(st) && opening != Some(SENTINEL)
    ensures SentinelFirst(StepWith(st, c, opening, excluded))
  {
    if opening.Some? && st.currEntry != [] {
      PutKeepsSentinelFirst(st.entries, st.currTag, st.currEntry);
    }
  }

  /** Recording under the sentinel only into an empty dictionary, or under
      another key, keeps the sentinel at the front. */
  lemma PutKeepsSentinelFirst(entries: seq<Entry>, key: string, group: seq<Commit>)
    requires key == SENTINEL ==> entries == []
    requires forall i :: 0 < i < |entries| ==> entries[i].tag != SENTINEL
    ensures forall i :: 0 < i < |Put(entries, key, group)| ==> Put(entries, key, group)[i].tag != SENTINEL
  {
    var r := Put(entries, key, group);
    if key in Keys(entries) {
      forall i | 0 < i < |r| ensures r[i].tag != SENTINEL {
        assert Keys(r)[i] == Keys(entries)[i];
      }
    }
  }

  /** When no tag that starts a release is empty, the sentinel can only be
      the first key. */
  lemma SentinelOnlyFirst(ctx: Context, cs: seq<Commit>)
    requires SENTINEL !in OpeningTags(ctx, cs)
    ensures forall i :: 0 < i < |Segment(ctx, cs)| ==> Segment(ctx, cs)[i].tag != SENTINEL
  {
    var st := WalkOf(ctx, cs);
    WalkSentinelFirst(ctx, cs);
    if st.currEntry != [] {
      PutKeepsSentinelFirst(st.entries, st.currTag, st.currEntry);
    }
  }

  /** The semantic check never accepts the empty tag name, so under
      `TagFilter(None)` the sentinel never starts a release. */
  lemma {:induction false} SemanticNeverOpensSentinel(ctx: Context, cs: seq<Commit>)
    requires ctx.filter.mode.Semantic?
    ensures SENTINEL !in OpeningTags(ctx, cs)
  {
    if cs != [] {
      SemanticNeverOpensSentinel(ctx, cs[..|cs| - 1]);
      var c := cs[|cs| - 1];
      if Opens(ctx, c) {
        var t := Qualifying(ctx, c)[0];
        assert Matches(ctx.filter, t, None);
      }
    }
  }

  // ----- An independent description: cut, then group ---------------------

  /** A stretch of history between two commits that start releases. */
  datatype Run = Run(key: string, commits: seq<Commit>)

  /** `cs` cut before every commit that carries a qualifying tag. The first
      run holds what comes before the first such commit and is keyed by the
      sentinel; every other run starts with such a commit and is keyed by
      its first qualifying tag. */
  function Runs(ctx: Context, cs: seq<Commit>): (runs: seq<Run>)
    ensures |runs| >= 1 && runs[0].key == SENTINEL
  {
    if cs == [] then [Run(SENTINEL, [])] else Extend(Runs(ctx, cs[..|cs| - 1]), cs[|cs| - 1], OpeningTag(ctx, cs[|cs| - 1]))
  }

  /** The runs after one more commit: a new run if it starts a release,
      otherwise the last run grows. */
  function Extend(runs: seq<Run>, c: Commit, tag: Option<string>): (r: seq<Run>)
    requires |runs| >= 1
    ensures |r| >= 1 && r[0].key == runs[0].key
  {
    var last := runs[|runs| - 1];
    if tag.Some? then runs + [Run(tag.value, [c])]
    else runs[..|runs| - 1] + [Run(last.key, last.commits + [c])]
  }

  function RunKeys(runs: seq<Run>): seq<string> {
    seq(|runs|, i requires 0 <= i < |runs| => runs[i].key)
  }

  /** All the commits of the runs, in order. */
  function Concat(runs: seq<Run>): seq<Commit> {
    if runs == [] then [] else Concat(runs[..|runs| - 1]) + runs[|runs| - 1].commits
  }

  function Kept(ctx: Context): Commit -> bool {
    c => !Excluded(ctx, c)
  }

  /** The commits that are not filtered out, in order. */
  function Included(ctx: Context, cs: seq<Commit>): seq<Commit> {
    Filter(cs, Kept(ctx))
  }

  /** One entry per run that keeps a commit after filtering. */
  function Grouped(ctx: Context, runs: seq<Run>): seq<Entry> {
    if runs == [] then []
    else
      var g := Included(ctx, runs[0].commits);
      (if g != [] then [Entry(runs[0].key, g)] else []) + Grouped(ctx, runs[1..])
  }

  /** What the walk is meant to compute. */
  function Reference(ctx: Context, cs: seq<Commit>): seq<Entry> {
    Grouped(ctx, Runs(ctx, cs))
  }

  lemma {:induction false} RunKeysAppend(a: seq<Run>, b: seq<Run>)
    ensures RunKeys(a + b) == RunKeys(a) + RunKeys(b)
  {
    if a != [] {
      assert (a + b)[0] == a[0];
      assert (a + b)[1..] == a[1..] + b;
      RunKeysAppend(a[1..], b);
    }
  }

  lemma {:induction false} ConcatAppend(a: seq<Run>, b: seq<Run>)
    ensures Concat(a + b) == Concat(a) + Concat(b)
  {
    if b == [] {
      assert a + b == a;
    } else {
      var init := b[..|b| - 1];
      var last := b[|b| - 1];
      assert (a + b)[..|a + b| - 1] == a + init;
      assert (a + b)[|a + b| - 1] == last;
      ConcatAppend(a, init);
      calc {
        Concat(a + b);
        Concat(a + init) + last.commits;
        (Concat(a) + Concat(init)) + last.commits;
        Concat(a) + (Concat(init) + last.commits);
      }
    }
  }

  lemma ConcatCons(run: Run, rest: seq<Run>)
    ensures Concat([run] + rest) == run.commits + Concat(rest)
  {
    ConcatAppend([run], rest);
    assert [run][..0] == [];
  }

  lemma {:induction false} GroupedAppend(ctx: Context, a: seq<Run>, b: seq<Run>)
    ensures Grouped(ctx, a + b) == Grouped(ctx, a) + Grouped(ctx, b)
  {
    if a != [] {
      assert (a + b)[0] == a[0];
      assert (a + b)[1..] == a[1..] + b;
      GroupedAppend(ctx, a[1..], b);
      var g := Included(ctx, a[0].commits);
      var head := if g != [] then [Entry(a[0].key, g)] else [];
      calc {
        Grouped(ctx, a + b);
        head + Grouped(ctx, a[1..] + b);
        head + (Grouped(ctx, a[1..]) + Grouped(ctx, b));
        (head + Grouped(ctx, a[1..])) + Grouped(ctx, b);
      }
    } else {
      assert a + b == b;
    }
  }

  lemma {:induction false} FlattenAppend(a: seq<Entry>, b: seq<Entry>)
    ensures Flatten(a + b) == Flatten(a) + Flatten(b)
  {
    if a != [] {
      assert (a + b)[0] == a[0];
      assert (a + b)[1..] == a[1..] + b;
      FlattenAppend(a[1..], b);
      calc {
        Flatten(a + b);
        a[0].commits + Flatten(a[1..] + b);
        a[0].commits + (Flatten(a[1..]) + Flatten(b));
        (a[0].commits + Flatten(a[1..])) + Flatten(b);
      }
    } else {
      assert a + b == b;
    }
  }

  /** Every key of the grouping is the key of one of the runs. */
  lemma {:induction false} GroupedKeys(ctx: Context, runs: seq<Run>)
    ensures forall k :: k in Keys(Grouped(ctx, runs)) ==> k in RunKeys(runs)
  {
    if runs != [] {
      GroupedKeys(ctx, runs[1..]);
      assert RunKeys(runs)[0] == runs[0].key;
      forall k | k in RunKeys(runs[1..]) ensures k in RunKeys(runs) {
        var j :| 0 <= j < |runs| - 1 && RunKeys(runs[1..])[j] == k;
        assert RunKeys(runs)[j + 1] == k;
      }
      var g := Included(ctx, runs[0].commits);
      var head := if g != [] then [Entry(runs[0].key, g)] else [];
      assert Keys(head + Grouped(ctx, runs[1..])) == Keys(head) + Keys(Grouped(ctx, runs[1..]));
    }
  }

  /** Grouping keeps exactly the commits the filter keeps. */
  lemma {:induction false} GroupedFlatten(ctx: Context, runs: seq<Run>)
    ensures Flatten(Grouped(ctx, runs)) == Included(ctx, Concat(runs))
  {
    if runs != [] {
      GroupedFlatten(ctx, runs[1..]);
      var g := Included(ctx, runs[0].commits);
      var head := if g != [] then [Entry(runs[0].key, g)] else [];
      FlattenAppend(head, Grouped(ctx, runs[1..]));
      FilterAppend(runs[0].commits, Concat(runs[1..]), Kept(ctx));
      ConcatCons(runs[0], runs[1..]);
      assert [runs[0]] + runs[1..] == runs;
    }
  }

  /** Adding a run at the end adds its commits at the end. */
  lemma ConcatSnoc(init: seq<Run>, last: Run)
    ensures Concat(init + [last]) == Concat(init) + last.commits
  {
    TakeOfSnoc(init, last);
  }

  /** Extending the runs by a commit extends their concatenation by it. */
  lemma ExtendConcat(runs: seq<Run>, c: Commit, tag: Option<string>)
    requires |runs| >= 1
    ensures Concat(Extend(runs, c, tag)) == Concat(runs) + [c]
  {
    if tag.Some? {
      assert Extend(runs, c, tag) == runs + [Run(tag.value, [c])];
      ConcatSnoc(runs, Run(tag.value, [c]));
    } else {
      var init := runs[..|runs| - 1];
      var last := runs[|runs| - 1];
      assert Extend(runs, c, tag) == init + [Run(last.key, last.commits + [c])];
      ConcatSnoc(init, Run(last.key, last.commits + [c]));
      assert Concat(runs) == Concat(init) + last.commits;
      AppendAssoc(Concat(init), last.commits, [c]);
    }
  }

  /** The runs put back together are the commits. */
  lemma {:induction false} RunsConcat(ctx: Context, cs: seq<Commit>)
    ensures Concat(Runs(ctx, cs)) == cs
  {
    if cs != [] {
      RunsConcat(ctx, cs[..|cs| - 1]);
      ExtendConcat(Runs(ctx, cs[..|cs| - 1]), cs[|cs| - 1], OpeningTag(ctx, cs[|cs| - 1]));
      SplitLast(cs);
    }
  }

  /** Extending the runs adds the commit's first qualifying tag to the keys
      when it starts a release, and nothing otherwise. */
  lemma ExtendKeys(runs: seq<Run>, c: Commit, tag: Option<string>)
    requires |runs| >= 1
    ensures RunKeys(Extend(runs, c, tag)) == RunKeys(runs) + TagList(tag)
  {
    var init := runs[..|runs| - 1];
    var last := runs[|runs| - 1];
    if tag.Some? {
      var run := Run(tag.value, [c]);
      RunKeysAppend(runs, [run]);
      assert RunKeys([run]) == [tag.value] + RunKeys([]);
    } else {
      var run := Run(last.key, last.commits + [c]);
      SplitLast(runs);
      RunKeysAppend(init, [last]);
      RunKeysAppend(init, [run]);
      assert RunKeys([last]) == [last.key] + RunKeys([]);
      assert RunKeys([run]) == [last.key] + RunKeys([]);
    }
  }

  /** The keys of the runs are the sentinel and then the opening tags. */
  lemma {:induction false} RunsKeys(ctx: Context, cs: seq<Commit>)
    ensures RunKeys(Runs(ctx, cs)) == [SENTINEL] + OpeningTags(ctx, cs)
  {
    if cs != [] {
      var p := cs[..|cs| - 1];
      var o := OpeningTag(ctx, cs[|cs| - 1]);
      RunsKeys(ctx, p);
      ExtendKeys(Runs(ctx, p), cs[|cs| - 1], o);
      AppendAssoc([SENTINEL], OpeningTags(ctx, p), TagList(o));
    }
  }

  lemma IncludedOne(ctx: Context, c: Commit)
    ensures Included(ctx, [c]) == if Excluded(ctx, c) then [] else [c]
  {
    assert [c][1..] == [];
    assert Kept(ctx)(c) == !Excluded(ctx, c);
    assert Filter([c][1..], Kept(ctx)) == [];
  }

  lemma DistinctPrefix(keys: seq<string>, n: nat)
    requires n <= |keys| && Distinct(keys)
    ensures Distinct(keys[..n])
  {
  }

  /** Recording a run's group under a key no earlier run has appends it. */
  lemma RecordRun(ctx: Context, runs: seq<Run>, last: Run)
    requires Distinct(RunKeys(runs + [last]))
    ensures var g := Included(ctx, last.commits);
            Grouped(ctx, runs + [last])
            == if g != [] then Put(Grouped(ctx, runs), last.key, g) else Grouped(ctx, runs)
  {
    var g := Included(ctx, last.commits);
    GroupedAppend(ctx, runs, [last]);
    assert Grouped(ctx, [last]) == (if g != [] then [Entry(last.key, g)] else []) + Grouped(ctx, []);
    RunKeysAppend(runs, [last]);
    assert RunKeys([last]) == [last.key] + RunKeys([]);
    assert last.key !in RunKeys(runs) by {
      forall k | 0 <= k < |runs| ensures runs[k].key != last.key {
        assert RunKeys(runs + [last])[k] == runs[k].key;
        assert RunKeys(runs + [last])[|runs|] == last.key;
      }
    }
    GroupedKeys(ctx, runs);
  }

  /** The loop's variables after `cs`: the complete runs grouped, the key of
      the open run, and the kept commits of the open run. */
  lemma {:induction false} WalkFollowsRuns(ctx: Context, cs: seq<Commit>)
    requires Distinct(RunKeys(Runs(ctx, cs)))
    ensures WalkOf(ctx, cs) == Follows(ctx, Runs(ctx, cs))
  {
    if cs != [] {
      var p := cs[..|cs| - 1];
      var c := cs[|cs| - 1];
      var r := Runs(ctx, p);
      var o := OpeningTag(ctx, c);
      ExtendKeys(r, c, o);
      TakeOfAppend(RunKeys(r), TagList(o));
      DistinctPrefix(RunKeys(Extend(r, c, o)), |r|);
      WalkFollowsRuns(ctx, p);
      FollowStep(ctx, r, c, o);
    }
  }

  /** The loop's variables that the runs `r` stand for: the runs before the
      last one recorded, the last one current. */
  function Follows(ctx: Context, r: seq<Run>): WalkState
    requires |r| >= 1
  {
    WalkState(Grouped(ctx, r[..|r| - 1]), r[|r| - 1].key, Included(ctx, r[|r| - 1].commits))
  }

  /** One turn of the loop keeps the variables in step with the runs. */
  lemma FollowStep(ctx: Context, r: seq<Run>, c: Commit, o: Option<string>)
    requires |r| >= 1 && Distinct(RunKeys(Extend(r, c, o)))
    ensures StepWith(Follows(ctx, r), c, o, Excluded(ctx, c)) == Follows(ctx, Extend(r, c, o))
  {
    var init := r[..|r| - 1];
    var last := r[|r| - 1];
    SplitLast(r);
    IncludedOne(ctx, c);
    if o.Some? {
      ExtendKeys(r, c, o);
      TakeOfAppend(RunKeys(r), TagList(o));
      DistinctPrefix(RunKeys(Extend(r, c, o)), |r|);
      RecordRun(ctx, init, last);
      TakeOfSnoc(r, Run(o.value, [c]));
    } else {
      FilterAppend(last.commits, [c], Kept(ctx));
      TakeOfSnoc(init, Run(last.key, last.commits + [c]));
    }
  }

  lemma SegmentIsReference(ctx: Context, cs: seq<Commit>)
    requires Distinct([SENTINEL] + OpeningTags(ctx, cs))
    ensures Segment(ctx, cs) == Reference(ctx, cs)
  {
    var r := Runs(ctx, cs);
    RunsKeys(ctx, cs);
    WalkFollowsRuns(ctx, cs);
    SplitLast(r);
    RecordRun(ctx, r[..|r| - 1], r[|r| - 1]);
  }

  /** Partition: every commit the filter keeps lands in exactly one
      release, in the order of the walk, and nothing else does. */
  lemma PartitionLaw(ctx: Context, cs: seq<Commit>)
    requires Distinct([SENTINEL] + OpeningTags(ctx, cs))
    ensures Flatten(Segment(ctx, cs)) == Included(ctx, cs)
  {
    SegmentIsReference(ctx, cs);
    GroupedFlatten(ctx, Runs(ctx, cs));
    RunsConcat(ctx, cs);
  }

  /** Without any qualifying tag everything kept goes under the sentinel,
      and nothing at all is returned when everything is filtered out. */
  lemma NoQualifyingTags(ctx: Context, cs: seq<Commit>)
    requires forall k :: 0 <= k < |cs| ==> !Opens(ctx, cs[k])
    ensures Segment(ctx, cs) == if Included(ctx, cs) == [] then [] else [Entry(SENTINEL, Included(ctx, cs))]
  {
    NoOpeningTags(ctx, cs);
    SegmentIsReference(ctx, cs);
    assert Grouped(ctx, [Run(SENTINEL, cs)]) == (if Included(ctx, cs) != [] then [Entry(SENTINEL, Included(ctx, cs))] else []) + Grouped(ctx, []);
  }

  lemma {:induction false} NoOpeningTags(ctx: Context, cs: seq<Commit>)
    requires forall k :: 0 <= k < |cs| ==> !Opens(ctx, cs[k])
    ensures OpeningTags(ctx, cs) == [] && Runs(ctx, cs) == [Run(SENTINEL, cs)]
  {
    if cs != [] {
      var p := cs[..|cs| - 1];
      var c := cs[|cs| - 1];
      assert !Opens(ctx, c);
      assert OpeningTag(ctx, c) == None;
      NoOpeningTags(ctx, p);
      assert OpeningTags(ctx, cs) == OpeningTags(ctx, p) + TagList(None);
      assert Runs(ctx, cs) == Extend([Run(SENTINEL, p)], c, None);
      assert [Run(SENTINEL, p)][..0] == [];
      assert Extend([Run(SENTINEL, p)], c, None) == [Run(SENTINEL, p + [c])];
      SplitLast(cs);
    }
  }

  // ----- Small histories ----------------------------------------------

  lemma WalkSnoc(ctx: Context, p: seq<Commit>, c: Commit)
    ensures WalkOf(ctx, p + [c]) == Step(ctx, WalkOf(ctx, p), c)
  {
    TakeOfSnoc(p, c);
  }

  /** One more commit, whose decisions are known. */
  lemma WalkStep(ctx: Context, p: seq<Commit>, c: Commit, opening: Option<string>, excluded: bool)
    requires OpeningTag(ctx, c) == opening && Excluded(ctx, c) == excluded
    ensures WalkOf(ctx, p + [c]) == StepWith(WalkOf(ctx, p), c, opening, excluded)
  {
    WalkSnoc(ctx, p, c);
  }

  lemma OneStep(ctx: Context, a: Commit)
    ensures WalkOf(ctx, [a]) == Step(ctx, START, a)
  {
    WalkSnoc(ctx, [], a);
    assert [] + [a] == [a];
  }

  lemma TwoSteps(ctx: Context, a: Commit, b: Commit)
    ensures WalkOf(ctx, [a, b]) == Step(ctx, Step(ctx, START, a), b)
  {
    OneStep(ctx, a);
    WalkSnoc(ctx, [a], b);
    assert [a] + [b] == [a, b];
  }

  lemma ThreeSteps(ctx: Context, a: Commit, b: Commit, c: Commit)
    ensures WalkOf(ctx, [a, b, c]) == Step(ctx, Step(ctx, Step(ctx, START, a), b), c)
  {
    TwoSteps(ctx, a, b);
    WalkSnoc(ctx, [a, b], c);
    assert [a, b] + [c] == [a, b, c];
  }

  /** A single kept commit forms one release, keyed by its first
      qualifying tag, or by the sentinel when it has none. */
  lemma SingleCommit(ctx: Context, c: Commit)
    requires !Excluded(ctx, c)
    ensures Segment(ctx, [c]) == [Entry(if Opens(ctx, c) then Qualifying(ctx, c)[0] else SENTINEL, [c])]
  {
    OneStep(ctx, c);
    var key := if Opens(ctx, c) then Qualifying(ctx, c)[0] else SENTINEL;
    assert Step(ctx, START, c) == WalkState([], key, [c]);
  }

  /** Of several tags on one commit, the first one git lists that qualifies
      names the release. */
  lemma FirstQualifyingTagWins(ctx: Context, c: Commit, i: nat)
    requires i < |ctx.tagsAt(c)| && Matches(ctx.filter, ctx.tagsAt(c)[i], None)
    requires forall j :: 0 <= j < i ==> !Matches(ctx.filter, ctx.tagsAt(c)[j], None)
    requires !Excluded(ctx, c)
    ensures Segment(ctx, [c]) == [Entry(ctx.tagsAt(c)[i], [c])]
  {
    MatchingOnlyHead(ctx.filter, ctx.tagsAt(c), None, i);
    SingleCommit(ctx, c);
  }

  /** Two commits whose decisions are known. */
  lemma WalkTwo(ctx: Context, a: Commit, b: Commit, oa: Option<string>, ea: bool, ob: Option<string>, eb: bool)
    requires OpeningTag(ctx, a) == oa && Excluded(ctx, a) == ea
    requires OpeningTag(ctx, b) == ob && Excluded(ctx, b) == eb
    ensures Segment(ctx, [a, b]) == Close(StepWith(StepWith(START, a, oa, ea), b, ob, eb))
  {
    TwoSteps(ctx, a, b);
  }

  /** Three commits whose decisions are known. */
  lemma WalkThree(ctx: Context, a: Commit, b: Commit, c: Commit, oa: Option<string>, ea: bool,
                  ob: Option<string>, eb: bool, oc: Option<string>, ec: bool)
    requires OpeningTag(ctx, a) == oa && Excluded(ctx, a) == ea
    requires OpeningTag(ctx, b) == ob && Excluded(ctx, b) == eb
    requires OpeningTag(ctx, c) == oc && Excluded(ctx, c) == ec
    ensures Segment(ctx, [a, b, c]) == Close(StepWith(StepWith(StepWith(START, a, oa, ea), b, ob, eb), c, oc, ec))
  {
    ThreeSteps(ctx, a, b, c);
  }

  /** A commit that is filtered out still starts the release its tag names:
      the commit above it stays under the sentinel and the commit below it
      joins the new release, which does not contain the tagged commit. */
  lemma ExcludedCommitStillOpens(ctx: Context, a: Commit, b: Commit, c: Commit, t: string)
    requires OpeningTag(ctx, a).None? && !Excluded(ctx, a)
    requires OpeningTag(ctx, b) == Some(t) && t != SENTINEL && Excluded(ctx, b)
    requires OpeningTag(ctx, c).None? && !Excluded(ctx, c)
    ensures Segment(ctx, [a, b, c]) == [Entry(SENTINEL, [a]), Entry(t, [c])]
  {
    WalkThree(ctx, a, b, c, None, false, Some(t), true, None, false);
    ExcludedOpensWalk(a, b, c, t);
  }

  lemma ExcludedOpensWalk(a: Commit, b: Commit, c: Commit, t: string)
    requires t != SENTINEL
    ensures Close(StepWith(StepWith(StepWith(START, a, None, false), b, Some(t), true), c, None, false))
            == [Entry(SENTINEL, [a]), Entry(t, [c])]
  {
    var s1 := StepWith(START, a, None, false);
    assert s1.entries == [] && s1.currTag == SENTINEL && s1.currEntry == [a];
    var s2 := StepWith(s1, b, Some(t), true);
    var first := [Entry(SENTINEL, [a])];
    assert s2.entries == first && s2.currTag == t && s2.currEntry == [];
    var s3 := StepWith(s2, c, None, false);
    assert s3.entries == first && s3.currTag == t && s3.currEntry == [c];
    PutAfter(first, t, [c]);
    assert first + [Entry(t, [c])] == [Entry(SENTINEL, [a]), Entry(t, [c])];
  }

  /** A key not yet in the dictionary goes at its end. */
  lemma PutAfter(entries: seq<Entry>, key: string, group: seq<Commit>)
    requires forall i :: 0 <= i < |entries| ==> entries[i].tag != key
    ensures Put(entries, key, group) == entries + [Entry(key, group)]
  {
    assert key !in Keys(entries);
  }

  /** A release whose commits are all filtered out leaves no entry: the
      tagged commit `b` is dropped and only the release `c` starts is
      recorded. */
  lemma EmptyReleaseDropped(ctx: Context, b: Commit, c: Commit, t: string)
    requires OpeningTag(ctx, b).Some? && Excluded(ctx, b)
    requires OpeningTag(ctx, c) == Some(t) && !Excluded(ctx, c)
    ensures Segment(ctx, [b, c]) == [Entry(t, [c])]
  {
    WalkTwo(ctx, b, c, OpeningTag(ctx, b), true, Some(t), false);
    var s1 := StepWith(START, b, OpeningTag(ctx, b), true);
    assert s1 == WalkState([], OpeningTag(ctx, b).value, []);
    assert StepWith(s1, c, Some(t), false) == WalkState([], t, [c]);
  }

  /** Why the reference grouping asks for distinct opening tags: should
      two commits start releases under the same name, the later group
      replaces the earlier one in the dictionary and the earlier commit is
      lost. */
  lemma RepeatedTagReplaces(ctx: Context, a: Commit, b: Commit, t: string)
    requires OpeningTag(ctx, a) == Some(t) && !Excluded(ctx, a)
    requires OpeningTag(ctx, b) == Some(t) && !Excluded(ctx, b)
    ensures Segment(ctx, [a, b]) == [Entry(t, [b])]
  {
    WalkTwo(ctx, a, b, Some(t), false, Some(t), false);
    RepeatedTagWalk(a, b, t);
  }

  lemma RepeatedTagWalk(a: Commit, b: Commit, t: string)
    ensures Close(StepWith(StepWith(START, a, Some(t), false), b, Some(t), false)) == [Entry(t, [b])]
  {
    var s1 := StepWith(START, a, Some(t), false);
    assert s1 == WalkState([], t, [a]);
    var s2 := StepWith(s1, b, Some(t), false);
    assert Put([], t, [a]) == [Entry(t, [a])];
    assert s2 == WalkState([Entry(t, [a])], t, [b]);
    assert [Entry(t, [a])][1..] == [];
    assert Put([Entry(t, [a])], t, [b]) == [Entry(t, [b])];
  }
}
