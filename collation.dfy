/** `collate_entry_header_data` (gcg/entrypoint.py:178-199) and the two
    header builders it calls (gcg/entrypoint.py:202-232): for every release
    of the walk, the date, author and e-mail of its changelog header, taken
    from the newest commit of the release or from the annotated tag that
    names it. */
module Collation {

  import opened Wrappers
  import opened Entrypoint
  import opened Traversal
  import opened Sequences

  /** The parts of a `git.TagObject` the header reads. */
  datatype TagObject = TagObject(taggerName: string, taggerEmail: string, taggedDate: int)

  /** What `repo.tags[name].tag` gives: nothing for a lightweight tag, the
      tag object for an annotated one. */
  datatype TagRef = Lightweight | Annotated(tagObject: TagObject)

  /** The repository's tags by name; `None` when there is no such tag. */
  type Tags = string -> Option<TagRef>

  /** Where a release was made and by whom. `timestamp` is seconds since
      the epoch; the three date renderings are derived from it. */
  datatype Release = Release(timestamp: int, author: string, email: string)

  /** The header of one release of the changelog. */
  datatype Header = Header(
    release: Release,
    version: string,
    debUrgency: Urgency,
    debDistro: Option<string>,
    debName: Option<string>)

  /** The exceptions the collation can raise: `KeyError`/`IndexError` from
      `repo.tags[version]` for a missing tag, `AttributeError` on `None`
      for a lightweight tag, `IndexError` for an empty commit list, and
      `UnicodeEncodeError` from `str()` on a name or e-mail address that is
      not ASCII (`text` is the first such value). */
  datatype CollateError =
    | NoSuchTag(tag: string)
    | NotAnnotated(tag: string)
    | EmptyRelease(tag: string)
    | NotAscii(tag: string, text: string)

  /** Python 2's `str()` on a unicode value encodes it as ASCII: it succeeds
      exactly when every character is below 128. */
  predicate IsAscii(s: string) {
    forall k :: 0 <= k < |s| ==> s[k] as int < 128
  }

  /** `log_entry_header_from_commit`: the author's timestamp, name and
      e-mail, or, when `str()` raises, the name or e-mail it raised on. */
  function ReleaseFromCommit(commit: Commit): (r: Result<Release, string>)
    ensures r.Success? <==> IsAscii(commit.authorName) && IsAscii(commit.authorEmail)
    ensures r.Success? ==> && r.value.timestamp == commit.authoredDate
                           && r.value.author == commit.authorName
                           && r.value.email == commit.authorEmail
    ensures r.Failure? ==> r.error == if IsAscii(commit.authorName) then commit.authorEmail else commit.authorName
  {
    if !IsAscii(commit.authorName) then Failure(commit.authorName)
    else if !IsAscii(commit.authorEmail) then Failure(commit.authorEmail)
    else Success(Release(commit.authoredDate, commit.authorName, commit.authorEmail))
  }

  /** `log_entry_header_from_tag`: the tag's date, tagger name and tagger
      e-mail, or, when `str()` raises, the name or e-mail it raised on. */
  function ReleaseFromTag(tag: TagObject): (r: Result<Release, string>)
    ensures r.Success? <==> IsAscii(tag.taggerName) && IsAscii(tag.taggerEmail)
    ensures r.Success? ==> && r.value.timestamp == tag.taggedDate
                           && r.value.author == tag.taggerName
                           && r.value.email == tag.taggerEmail
    ensures r.Failure? ==> r.error == if IsAscii(tag.taggerName) then tag.taggerEmail else tag.taggerName
  {
    if !IsAscii(tag.taggerName) then Failure(tag.taggerName)
    else if !IsAscii(tag.taggerEmail) then Failure(tag.taggerEmail)
    else Success(Release(tag.taggedDate, tag.taggerName, tag.taggerEmail))
  }

  /** The header comes from the newest commit for the sentinel, and for
      a non-empty release when tags are not preferred; from the tag
      otherwise. */
  predicate FromCommit(entry: Entry, options: Options) {
    entry.tag == SENTINEL || (entry.commits != [] && !options.preferTags)
  }

  /** The author data of `c` survives `str()`. */
  predicate AsciiAuthor(c: Commit) {
    IsAscii(c.authorName) && IsAscii(c.authorEmail)
  }

  /** The tagger data of `t` survives `str()`. */
  predicate AsciiTagger(t: TagObject) {
    IsAscii(t.taggerName) && IsAscii(t.taggerEmail)
  }

  /** The body of the loop of `collate_entry_header_data` for one entry. */
  function HeaderFor(entry: Entry, tags: Tags, options: Options): (r: Result<Header, CollateError>)
    ensures FromCommit(entry, options) ==>
              && (r.Success? <==> entry.commits != [] && AsciiAuthor(entry.commits[0]))
              && (entry.commits == [] ==> r == Failure(EmptyRelease(entry.tag)))
              && (entry.commits != [] && !AsciiAuthor(entry.commits[0]) ==>
                    r == Failure(NotAscii(entry.tag, ReleaseFromCommit(entry.commits[0]).error)))
              && (r.Success? ==> r.value.release == ReleaseFromCommit(entry.commits[0]).value)
    ensures !FromCommit(entry, options) ==>
              && (r.Success? <==> tags(entry.tag).Some? && tags(entry.tag).value.Annotated?
                                  && AsciiTagger(tags(entry.tag).value.tagObject))
              && (tags(entry.tag) == None ==> r == Failure(NoSuchTag(entry.tag)))
              && (tags(entry.tag) == Some(Lightweight) ==> r == Failure(NotAnnotated(entry.tag)))
              && (tags(entry.tag).Some? && tags(entry.tag).value.Annotated?
                  && !AsciiTagger(tags(entry.tag).value.tagObject) ==>
                    r == Failure(NotAscii(entry.tag, ReleaseFromTag(tags(entry.tag).value.tagObject).error)))
              && (r.Success? ==> r.value.release == ReleaseFromTag(tags(entry.tag).value.tagObject).value)
    ensures r.Success? ==> r.value.version == (if entry.tag == SENTINEL then options.currentVersion else entry.tag)
    ensures r.Success? ==> && r.value.debUrgency == options.debUrgency
                           && r.value.debDistro == options.debDistribution
                           && r.value.debName == options.debPackageName
  {
    var release: Result<Release, CollateError> :=
      if FromCommit(entry, options) then
        if entry.commits == [] then Failure(EmptyRelease(entry.tag))
        else match ReleaseFromCommit(entry.commits[0])
          case Failure(text) => Failure(NotAscii(entry.tag, text))
          case Success(release) => Success(release)
      else
        match tags(entry.tag)
        case None => Failure(NoSuchTag(entry.tag))
        case Some(Lightweight) => Failure(NotAnnotated(entry.tag))
        case Some(Annotated(t)) =>
          match ReleaseFromTag(t)
          case Failure(text) => Failure(NotAscii(entry.tag, text))
          case Success(release) => Success(release);
    if release.Failure? then Failure(release.error)
    else
      var version := if entry.tag != SENTINEL then entry.tag else options.currentVersion;
      Success(Header(release.value, version, options.debUrgency, options.debDistribution, options.debPackageName))
  }

  /** The dictionary the loop builds, or the first exception it raises. */
  function Collate(entries: seq<Entry>, tags: Tags, options: Options): Result<map<string, Header>, CollateError> {
    if entries == [] then Success(map[])
    else CollateStep(Collate(entries[..|entries| - 1], tags, options), entries[|entries| - 1], tags, options)
  }

  /** One turn of the loop: `retval[version] = hdr`, unless an exception
      has already been raised or this entry raises one. */
  function CollateStep(acc: Result<map<string, Header>, CollateError>, entry: Entry, tags: Tags, options: Options)
    : Result<map<string, Header>, CollateError>
  {
    match acc
    case Failure(e) => Failure(e)
    case Success(headers) =>
      match HeaderFor(entry, tags, options)
      case Failure(e) => Failure(e)
      case Success(h) => Success(headers[entry.tag := h])
  }

  lemma CollateSnoc(init: seq<Entry>, last: Entry, tags: Tags, options: Options)
    ensures Collate(init + [last], tags, options) == CollateStep(Collate(init, tags, options), last, tags, options)
  {
    TakeOfSnoc(init, last);
  }

  /** `collate_entry_header_data`. */
  method CollateEntryHeaderData(entries: seq<Entry>, tags: Tags, options: Options)
    returns (r: Result<map<string, Header>, CollateError>)
    ensures r == Collate(entries, tags, options)
  {
    var headers: map<string, Header> := map[];
    for i := 0 to |entries|
      invariant Collate(entries[..i], tags, options) == Success(headers)
    {
      TakeOfTake(entries, i);
      var h := HeaderFor(entries[i], tags, options);
      if h.Failure? {
        r := Failure(h.error);
        CollateFailureSticks(entries, i + 1, tags, options);
        return;
      }
      headers := headers[entries[i].tag := h.value];
    }
    TakeAll(entries);
    r := Success(headers);
  }

  /** Once the loop has raised, the whole call raises the same exception. */
  lemma {:induction false} CollateFailureSticks(entries: seq<Entry>, n: nat, tags: Tags, options: Options)
    requires n <= |entries| && Collate(entries[..n], tags, options).Failure?
    ensures Collate(entries, tags, options) == Collate(entries[..n], tags, options)
    decreases |entries| - n
  {
    if n < |entries| {
      TakeOfTake(entries, n);
      CollateFailureSticks(entries, n + 1, tags, options);
    } else {
      TakeAll(entries);
    }
  }

  /** On success the dictionary has exactly the keys of the entries. */
  lemma {:induction false} CollatedKeys(entries: seq<Entry>, tags: Tags, options: Options)
    requires Collate(entries, tags, options).Success?
    ensures Collate(entries, tags, options).value.Keys == (set e | e in entries :: e.tag)
  {
    if entries != [] {
      var init := entries[..|entries| - 1];
      var last := entries[|entries| - 1];
      SplitLast(entries);
      CollateSnoc(init, last, tags, options);
      CollatedKeys(init, tags, options);
      assert forall e :: e in entries <==> e in init || e == last;
    }
  }

  /** `headers` has, for each entry, the header `HeaderFor` makes of it,
      under the entry's key. */
  predicate HeadersOf(headers: map<string, Header>, entries: seq<Entry>, tags: Tags, options: Options) {
    forall k :: 0 <= k < |entries| ==>
      && entries[k].tag in headers
      && HeaderFor(entries[k], tags, options).Success?
      && headers[entries[k].tag] == HeaderFor(entries[k], tags, options).value
  }

  /** When no key repeats, each header is what `HeaderFor` makes of the
      entry with that key. */
  lemma {:induction false} CollatedHeaders(entries: seq<Entry>, tags: Tags, options: Options)
    requires Collate(entries, tags, options).Success? && Distinct(Keys(entries))
    ensures HeadersOf(Collate(entries, tags, options).value, entries, tags, options)
  {
    if entries != [] {
      var init := entries[..|entries| - 1];
      var last := entries[|entries| - 1];
      SplitLast(entries);
      CollateSnoc(init, last, tags, options);
      forall i, j | 0 <= i < j < |init| ensures Keys(init)[i] != Keys(init)[j] {
        assert Keys(entries)[i] != Keys(entries)[j];
      }
      CollatedHeaders(init, tags, options);
      forall k | 0 <= k < |init| ensures init[k].tag != last.tag {
        assert Keys(entries)[k] != Keys(entries)[|init|];
      }
      HeadersStep(Collate(init, tags, options).value, init, last, tags, options);
    }
  }

  /** Recording a new key keeps the headers already recorded. */
  lemma HeadersStep(headers: map<string, Header>, init: seq<Entry>, last: Entry, tags: Tags, options: Options)
    requires HeadersOf(headers, init, tags, options)
    requires forall k :: 0 <= k < |init| ==> init[k].tag != last.tag
    requires HeaderFor(last, tags, options).Success?
    ensures HeadersOf(headers[last.tag := HeaderFor(last, tags, options).value], init + [last], tags, options)
  {
    var entries := init + [last];
    forall k | 0 <= k < |init| ensures entries[k] == init[k] {
    }
  }

  /** The header of every release of a walk, as `HeaderFor` describes it. */
  lemma CollatedWalk(ctx: Context, cs: seq<Commit>, tags: Tags, options: Options)
    requires Collate(Segment(ctx, cs), tags, options).Success?
    ensures HeadersOf(Collate(Segment(ctx, cs), tags, options).value, Segment(ctx, cs), tags, options)
  {
    SegmentWellFormed(ctx, cs);
    CollatedHeaders(Segment(ctx, cs), tags, options);
  }

  /** The loop fails exactly when one of the entries fails, and then with
      the error of the first one that does. */
  lemma CollateFailsAtFirst(entries: seq<Entry>, tags: Tags, options: Options)
    ensures Collate(entries, tags, options).Success? <==> forall e :: e in entries ==> HeaderFor(e, tags, options).Success?
    ensures Collate(entries, tags, options).Failure? ==>
              exists k :: && 0 <= k < |entries|
                          && (forall j :: 0 <= j < k ==> HeaderFor(entries[j], tags, options).Success?)
                          && HeaderFor(entries[k], tags, options).Failure?
                          && Collate(entries, tags, options).error == HeaderFor(entries[k], tags, options).error
  {
    var k := FirstFailure(entries, tags, options);
    FirstFailureIsFirst(entries, tags, options);
    CollateStopsAtFirstFailure(entries, tags, options);
  }

  /** The position of the first entry whose header fails, or the number of
      entries when none does. */
  function FirstFailure(entries: seq<Entry>, tags: Tags, options: Options): nat {
    if entries == [] then 0
    else
      var init := entries[..|entries| - 1];
      var k := FirstFailure(init, tags, options);
      if k < |init| then k
      else if HeaderFor(entries[|entries| - 1], tags, options).Failure? then |init|
      else |entries|
  }

  lemma {:induction false} FirstFailureIsFirst(entries: seq<Entry>, tags: Tags, options: Options)
    ensures var k := FirstFailure(entries, tags, options);
            && k <= |entries|
            && (forall j :: 0 <= j < k ==> HeaderFor(entries[j], tags, options).Success?)
            && (k < |entries| ==> HeaderFor(entries[k], tags, options).Failure?)
  {
    if entries != [] {
      var init := entries[..|entries| - 1];
      FirstFailureIsFirst(init, tags, options);
      forall j | 0 <= j < |init| ensures entries[j] == init[j] {
      }
    }
  }

  /** The loop raises exactly when some entry fails, with that entry's
      error. */
  lemma {:induction false} CollateStopsAtFirstFailure(entries: seq<Entry>, tags: Tags, options: Options)
    ensures var k := FirstFailure(entries, tags, options);
            && (Collate(entries, tags, options).Failure? <==> k < |entries|)
            && (k < |entries| ==> && Collate(entries, tags, options).Failure?
                                  && HeaderFor(entries[k], tags, options).Failure?
                                  && Collate(entries, tags, options).error == HeaderFor(entries[k], tags, options).error)
  {
    if entries != [] {
      var init := entries[..|entries| - 1];
      CollateStopsAtFirstFailure(init, tags, options);
      FirstFailureIsFirst(init, tags, options);
      FirstFailureIsFirst(entries, tags, options);
      var k := FirstFailure(init, tags, options);
      if k < |init| {
        assert entries[k] == init[k];
      }
    }
  }

  /** Without `--prefer-tags` every header of a walk comes from the newest
      commit of its release, so the collation of a walk's result raises only
      where `str()` does: it succeeds exactly when the author of each
      release's newest commit has an ASCII name and e-mail. */
  lemma CollateWalkWithoutPreferTags(ctx: Context, cs: seq<Commit>, tags: Tags, options: Options)
    requires !options.preferTags
    ensures Collate(Segment(ctx, cs), tags, options).Success?
            <==> forall e :: e in Segment(ctx, cs) ==> e.commits != [] && AsciiAuthor(e.commits[0])
  {
    SegmentWellFormed(ctx, cs);
    CollateFailsAtFirst(Segment(ctx, cs), tags, options);
  }

  /** With `--prefer-tags`, the collation of a walk's result succeeds
      exactly when every release other than the sentinel's is named by an
      annotated tag, and every name and e-mail the headers read is ASCII. */
  lemma CollateWalkPreferTags(ctx: Context, cs: seq<Commit>, tags: Tags, options: Options)
    requires options.preferTags
    ensures Collate(Segment(ctx, cs), tags, options).Success?
            <==> forall e :: e in Segment(ctx, cs) ==>
                   if e.tag == SENTINEL then e.commits != [] && AsciiAuthor(e.commits[0])
                   else tags(e.tag).Some? && tags(e.tag).value.Annotated? && AsciiTagger(tags(e.tag).value.tagObject)
  {
    SegmentWellFormed(ctx, cs);
    CollateFailsAtFirst(Segment(ctx, cs), tags, options);
  }
}
