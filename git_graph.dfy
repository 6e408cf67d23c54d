/**
  `graph_log` of the git graph: the commits of a revision walk, filtered, skipped and
  limited, each turned into a `CommitEntry` with its short hash, parents, ref decoration,
  summary, author and relative date. libgit2 is not modelled: the walk, each commit's tree
  and diff, and the repository's refs are inputs.
*/
module GitGraph {
  import opened Base
  import opened Strings
  import opened Seqs
  import opened GitTime

  /** One changed file of a diff against the first parent; a path libgit2 cannot give is `None`. */
  datatype Delta = Delta(oldPath: Option<string>, newPath: Option<string>)

  /**
    What the walk yields for one commit. `tree` is `None` when the commit's tree cannot be
    read, else the paths that resolve in it; `diff` is `None` when the first parent's tree
    or the diff against it cannot be had.
  */
  datatype Commit = Commit(
    id: string,
    parents: seq<string>,
    author: Option<string>,
    message: Option<string>,
    summary: Option<string>,
    time: int,
    tree: Option<set<string>>,
    diff: Option<seq<Delta>>)

  /**
    `GraphFilter`. `branch`, `topoOrder` and `firstParentOnly` choose and order the walk,
    which is an input here; the others decide which commits are kept.
  */
  datatype GraphFilter = GraphFilter(
    branch: Option<string>,
    author: Option<string>,
    searchText: Option<string>,
    afterTimestamp: int,
    topoOrder: bool,
    firstParentOnly: bool,
    noMerges: bool,
    paths: seq<string>)

  datatype CommitEntry = CommitEntry(
    hash: string,
    parents: string,
    shortHash: string,
    refs: string,
    message: string,
    author: string,
    dateRelative: string)

  // ---------------------------------------------------------------------------
  // commit_touches_paths
  // ---------------------------------------------------------------------------

  predicate DeltaTouches(d: Delta, path: string) {
    StartsWith(d.oldPath.GetOr(""), path) || StartsWith(d.newPath.GetOr(""), path)
  }

  /**
    A root commit touches the paths present in its tree; any other commit touches a path
    when an old or new path of its first-parent diff starts with it. Unreadable trees or
    diffs touch nothing.
  */
  predicate Touches(c: Commit, paths: seq<string>) {
    if c.tree.None? then false
    else if |c.parents| == 0 then exists i :: 0 <= i < |paths| && paths[i] in c.tree.value
    else if c.diff.None? then false
    else exists k, i :: 0 <= k < |c.diff.value| && 0 <= i < |paths| && DeltaTouches(c.diff.value[k], paths[i])
  }

  /** `commit_touches_paths`: a search that returns at the first hit. */
  method CommitTouchesPaths(c: Commit, paths: seq<string>) returns (touches: bool)
    ensures touches == Touches(c, paths)
  {
    if c.tree.None? {
      return false;
    }
    if |c.parents| == 0 {
      for i := 0 to |paths|
        invariant forall j :: 0 <= j < i ==> paths[j] !in c.tree.value
      {
        if paths[i] in c.tree.value {
          return true;
        }
      }
      return false;
    }
    if c.diff.None? {
      return false;
    }
    var deltas := c.diff.value;
    for k := 0 to |deltas|
      invariant forall k', i :: 0 <= k' < k && 0 <= i < |paths| ==> !DeltaTouches(deltas[k'], paths[i])
    {
      var oldPath, newPath := deltas[k].oldPath.GetOr(""), deltas[k].newPath.GetOr("");
      for i := 0 to |paths|
        invariant forall j :: 0 <= j < i ==> !DeltaTouches(deltas[k], paths[j])
      {
        if StartsWith(oldPath, paths[i]) || StartsWith(newPath, paths[i]) {
          return true;
        }
      }
    }
    return false;
  }

  // ---------------------------------------------------------------------------
  // build_ref_decoration
  // ---------------------------------------------------------------------------

  /** `repo.head()` when it succeeds: its target, whether it is a branch, and its short name. */
  datatype Head = Head(target: Option<string>, isBranch: bool, shorthand: Option<string>)

  /** A branch: the commit its reference resolves to, and its name when it is valid UTF-8. */
  datatype BranchRef = BranchRef(target: Option<string>, name: Option<string>)

  /** A tag: the commit it peels to, else its direct target; `None` when it has neither. */
  datatype TagRef = TagRef(name: string, target: Option<string>)

  datatype Refs = Refs(head: Option<Head>, branches: seq<BranchRef>, tags: seq<TagRef>)

  /** The HEAD entry: "HEAD -> name" for a named branch, else "HEAD", when HEAD is the commit. */
  function HeadEntries(head: Option<Head>, id: string): (decs: seq<string>)
    ensures |decs| <= 1
    ensures head.None? || head.value.target != Some(id) ==> decs == []
    ensures head.Some? && head.value.target == Some(id) && !(head.value.isBranch && head.value.shorthand.Some?) ==>
      decs == ["HEAD"]
  {
    if head.Some? && head.value.target == Some(id) then
      if head.value.isBranch && head.value.shorthand.Some? then ["HEAD -> " + head.value.shorthand.value] else ["HEAD"]
    else []
  }

  predicate AnyContains(decs: seq<string>, name: string) {
    exists j :: 0 <= j < |decs| && Contains(decs[j], name)
  }

  /** One branch: its name is added when it points at the commit and no entry so far contains it. */
  function AddBranch(decs: seq<string>, b: BranchRef, id: string): seq<string> {
    if b.target == Some(id) && b.name.Some? && !AnyContains(decs, b.name.value) then decs + [b.name.value] else decs
  }

  /** The branches in order, each through `AddBranch`. */
  function AddBranches(decs: seq<string>, branches: seq<BranchRef>, id: string): (r: seq<string>)
    ensures decs <= r
    decreases |branches|
  {
    if branches == [] then decs
    else AddBranch(AddBranches(decs, branches[..|branches| - 1], id), branches[|branches| - 1], id)
  }

  /** "tag: name" for every tag on the commit, in order. */
  function TagEntries(tags: seq<TagRef>, id: string): (r: seq<string>)
    ensures |r| <= |tags|
    decreases |tags|
  {
    if tags == [] then []
    else
      var t := tags[|tags| - 1];
      TagEntries(tags[..|tags| - 1], id) + (if t.target == Some(id) then ["tag: " + t.name] else [])
  }

  /** Every tag on the commit gives "tag: name", and every entry comes from such a tag. */
  lemma {:induction false} TagEntriesMembers(tags: seq<TagRef>, id: string)
    ensures forall t :: t in tags && t.target == Some(id) ==> "tag: " + t.name in TagEntries(tags, id)
    ensures forall e :: e in TagEntries(tags, id) ==>
      exists t :: t in tags && t.target == Some(id) && e == "tag: " + t.name
    decreases |tags|
  {
    if tags != [] {
      var init, last := tags[..|tags| - 1], tags[|tags| - 1];
      assert tags == init + [last];
      TagEntriesMembers(init, id);
      forall t | t in tags && t.target == Some(id)
        ensures "tag: " + t.name in TagEntries(tags, id)
      {
        if t != last {
          assert t in init;
        }
      }
      forall e | e in TagEntries(tags, id)
        ensures exists t :: t in tags && t.target == Some(id) && e == "tag: " + t.name
      {
        if e in TagEntries(init, id) {
          var t :| t in init && t.target == Some(id) && e == "tag: " + t.name;
          assert t in tags;
        } else {
          assert last in tags;
        }
      }
    }
  }

  function Decorations(refs: Refs, id: string): seq<string> {
    AddBranches(HeadEntries(refs.head, id), refs.branches, id) + TagEntries(refs.tags, id)
  }

  /** Nothing for no entries, else " (" + the entries joined by ", " + ")". */
  function Decorate(decs: seq<string>): (s: string)
    ensures s == "" <==> decs == []
    ensures decs != [] ==> s == " (" + Join(decs, ", ") + ")"
  {
    if decs == [] then "" else " (" + Join(decs, ", ") + ")"
  }

  /** `build_ref_decoration`: HEAD, then the branches, then the tags, each pushed in turn. */
  method BuildRefDecoration(refs: Refs, id: string) returns (s: string)
    ensures s == Decorate(Decorations(refs, id))
  {
    var decorations: seq<string> := [];
    if refs.head.Some? && refs.head.value.target == Some(id) {
      var head := refs.head.value;
      if head.isBranch && head.shorthand.Some? {
        decorations := decorations + ["HEAD -> " + head.shorthand.value];
      } else {
        decorations := decorations + ["HEAD"];
      }
    }
    assert decorations == HeadEntries(refs.head, id);
    decorations := PushBranches(decorations, refs.branches, id);
    decorations := PushTags(decorations, refs.tags, id);
    if decorations == [] {
      s := "";
    } else {
      s := " (" + Join(decorations, ", ") + ")";
    }
  }

  /** The branch loop of `build_ref_decoration`. */
  method PushBranches(start: seq<string>, branches: seq<BranchRef>, id: string) returns (decorations: seq<string>)
    ensures decorations == AddBranches(start, branches, id)
  {
    decorations := start;
    for k := 0 to |branches|
      invariant decorations == AddBranches(start, branches[..k], id)
    {
      var b := branches[k];
      if b.target == Some(id) && b.name.Some? {
        var seen := SomeEntryContains(decorations, b.name.value);
        if !seen {
          decorations := decorations + [b.name.value];
        }
      }
      assert branches[..k + 1][..k] == branches[..k];
    }
    assert branches[..|branches|] == branches;
  }

  /** `decorations.iter().any(|d| d.contains(name))`. */
  method SomeEntryContains(decorations: seq<string>, name: string) returns (seen: bool)
    ensures seen == AnyContains(decorations, name)
  {
    seen := false;
    for j := 0 to |decorations|
      invariant seen <==> exists j' :: 0 <= j' < j && Contains(decorations[j'], name)
    {
      if Contains(decorations[j], name) {
        seen := true;
      }
    }
  }

  /** The tag loop of `build_ref_decoration`. */
  method PushTags(start: seq<string>, tags: seq<TagRef>, id: string) returns (decorations: seq<string>)
    ensures decorations == start + TagEntries(tags, id)
  {
    decorations := start;
    for k := 0 to |tags|
      invariant decorations == start + TagEntries(tags[..k], id)
    {
      var t := tags[k];
      if t.target == Some(id) {
        decorations := decorations + ["tag: " + t.name];
      }
      assert tags[..k + 1][..k] == tags[..k];
    }
    assert tags[..|tags|] == tags;
  }

  /**
    Every named branch on the commit is shown: its name is found in some entry, either its
    own or an earlier one that contains it (such as "HEAD -> name").
  */
  lemma {:induction false} BranchShown(decs: seq<string>, branches: seq<BranchRef>, id: string, k: nat)
    requires k < |branches| && branches[k].target == Some(id) && branches[k].name.Some?
    ensures AnyContains(AddBranches(decs, branches, id), branches[k].name.value)
    decreases |branches|
  {
    var n := |branches| - 1;
    var prefix := AddBranches(decs, branches[..n], id);
    var name := branches[k].name.value;
    if k < n {
      BranchShown(decs, branches[..n], id, k);
      var j :| 0 <= j < |prefix| && Contains(prefix[j], name);
      assert AddBranches(decs, branches, id)[j] == prefix[j];
    } else if !AnyContains(prefix, name) {
      var r := AddBranches(decs, branches, id);
      assert r[|r| - 1] == name;
      ContainsAt(name, name, 0);
    }
  }

  /** A branch entry is never contained in an entry before it: the dedupe check holds for every branch added. */
  lemma {:induction false} BranchEntriesNew(decs: seq<string>, branches: seq<BranchRef>, id: string, i: nat, j: nat)
    requires i < j < |AddBranches(decs, branches, id)| && j >= |decs|
    ensures !Contains(AddBranches(decs, branches, id)[i], AddBranches(decs, branches, id)[j])
    decreases |branches|
  {
    var n := |branches| - 1;
    var prefix := AddBranches(decs, branches[..n], id);
    if j < |prefix| {
      BranchEntriesNew(decs, branches[..n], id, i, j);
    }
  }

  /** When HEAD is a named branch on the commit, the decoration starts with "HEAD -> name". */
  lemma HeadComesFirst(refs: Refs, id: string, name: string)
    requires refs.head == Some(Head(Some(id), true, Some(name)))
    ensures Decorations(refs, id)[0] == "HEAD -> " + name
  {
    var h := HeadEntries(refs.head, id);
    assert h == ["HEAD -> " + name];
    assert h <= AddBranches(h, refs.branches, id);
  }

  // ---------------------------------------------------------------------------
  // graph_log
  // ---------------------------------------------------------------------------

  /**
    The filters of `graph_log`: no merges when asked, the author containing the filter
    (case-insensitively), not before `afterTimestamp` when it is positive, the search text
    in the message or starting the hash (case-insensitively), and a listed path touched.
  */
  predicate Keep(f: GraphFilter, c: Commit) {
    && !(f.noMerges && |c.parents| > 1)
    && (f.author.Some? ==> Contains(Lower(c.author.GetOr("")), Lower(f.author.value)))
    && (f.afterTimestamp > 0 ==> c.time >= f.afterTimestamp)
    && (f.searchText.Some? ==>
          Contains(Lower(c.message.GetOr("")), Lower(f.searchText.value)) || StartsWith(Lower(c.id), Lower(f.searchText.value)))
    && (|f.paths| > 0 ==> Touches(c, f.paths))
  }

  /** The commits of the walk that pass the filters, in walk order; failed walk steps are `None` and dropped. */
  function Kept(walk: seq<Option<Commit>>, f: GraphFilter): (r: seq<Commit>)
    ensures |r| <= |walk|
    decreases |walk|
  {
    if walk == [] then []
    else
      var last := walk[|walk| - 1];
      Kept(walk[..|walk| - 1], f) + (if last.Some? && Keep(f, last.value) then [last.value] else [])
  }

  /** Every kept commit passes the filters. */
  lemma {:induction false} KeptPass(walk: seq<Option<Commit>>, f: GraphFilter)
    ensures forall i :: 0 <= i < |Kept(walk, f)| ==> Keep(f, Kept(walk, f)[i])
    decreases |walk|
  {
    if walk != [] {
      var n := |walk| - 1;
      KeptPass(walk[..n], f);
      var before := Kept(walk[..n], f);
      assert forall i :: 0 <= i < |before| ==> Kept(walk, f)[i] == before[i];
    }
  }

  /** One more step of the walk adds its commit to the kept ones exactly when it is present and passes. */
  lemma KeptStep(walk: seq<Option<Commit>>, i: nat, f: GraphFilter)
    requires i < |walk|
    ensures Kept(walk[..i + 1], f) ==
      Kept(walk[..i], f) + (if walk[i].Some? && Keep(f, walk[i].value) then [walk[i].value] else [])
  {
    assert walk[..i + 1][..i] == walk[..i];
  }

  lemma {:induction false} KeptAppend(a: seq<Option<Commit>>, b: seq<Option<Commit>>, f: GraphFilter)
    ensures Kept(a + b, f) == Kept(a, f) + Kept(b, f)
    decreases |b|
  {
    if b == [] {
      assert a + b == a;
    } else {
      var n := |b| - 1;
      assert (a + b)[..|a + b| - 1] == a + b[..n];
      KeptAppend(a, b[..n], f);
    }
  }

  /** The entry for one commit. */
  function Entry(c: Commit, refs: Refs, now: int): CommitEntry {
    CommitEntry(
      c.id, Join(c.parents, " "), Take(c.id, 7), Decorate(Decorations(refs, c.id)),
      c.summary.GetOr(""), c.author.GetOr(""), FormatRelativeTime(now, c.time))
  }

  function Entries(cs: seq<Commit>, refs: Refs, now: int): seq<CommitEntry> {
    seq(|cs|, i requires 0 <= i < |cs| => Entry(cs[i], refs, now))
  }

  /**
    What `graph_log` returns: of the kept commits, the first `skip` are dropped and at most
    `max(limit, 1)` follow, because the limit is checked only after an entry is pushed.
  */
  function GraphLogSpec(walk: seq<Option<Commit>>, limit: nat, skip: nat, f: GraphFilter, refs: Refs, now: int): seq<CommitEntry> {
    Entries(Take(Drop(Kept(walk, f), skip), Max(limit, 1)), refs, now)
  }

  /** `graph_log` over a given walk, with `now` read once by the caller. */
  method GraphLog(walk: seq<Option<Commit>>, limit: nat, skip: nat, f: GraphFilter, refs: Refs, now: int)
    returns (results: seq<CommitEntry>)
    ensures results == GraphLogSpec(walk, limit, skip, f, refs, now)
  {
    results := [];
    var skipped := 0;
    var i := 0;
    while i < |walk|
      invariant i <= |walk|
      invariant skipped == Min(skip, |Kept(walk[..i], f)|)
      invariant results == Entries(Drop(Kept(walk[..i], f), skip), refs, now)
      invariant |results| < Max(limit, 1)
    {
      KeptStep(walk, i, f);
      var full;
      skipped, results, full := GraphLogStep(walk[i], Kept(walk[..i], f), skipped, results, limit, skip, f, refs, now);
      i := i + 1;
      if full {
        WindowFull(walk, i, limit, skip, f, refs, now);
        return;
      }
    }
    assert walk[..|walk|] == walk;
  }

  /**
    One pass of the `graph_log` loop over the walk item `item`, with `before` the commits
    kept so far: filter, then skip or push, then report whether the limit is reached.
  */
  method GraphLogStep(item: Option<Commit>, ghost before: seq<Commit>, skipped: nat, results: seq<CommitEntry>,
                      limit: nat, skip: nat, f: GraphFilter, refs: Refs, now: int)
    returns (skipped': nat, results': seq<CommitEntry>, full: bool)
    requires skipped == Min(skip, |before|)
    requires results == Entries(Drop(before, skip), refs, now)
    requires |results| < Max(limit, 1)
    ensures var after := before + (if item.Some? && Keep(f, item.value) then [item.value] else []);
      && skipped' == Min(skip, |after|)
      && results' == Entries(Drop(after, skip), refs, now)
      && (full ==> |results'| == Max(limit, 1))
      && (!full ==> |results'| < Max(limit, 1))
  {
    skipped', results', full := skipped, results, false;
    if item.Some? {
      var keep := PassesFilter(f, item.value);
      if keep {
        if skipped < skip {
          SkipStep(before, item.value, skip);
          skipped' := skipped + 1;
        } else {
          var entry := BuildEntry(item.value, refs, now);
          TakeStep(before, item.value, skip, refs, now);
          results' := results + [entry];
          full := |results'| >= limit;
        }
      }
    }
  }

  /** A kept commit within the first `skip` is skipped: no entry, one more skipped. */
  lemma SkipStep(before: seq<Commit>, c: Commit, skip: nat)
    requires |before| < skip
    ensures Drop(before + [c], skip) == Drop(before, skip) == []
    ensures Min(skip, |before + [c]|) == Min(skip, |before|) + 1
  {
  }

  /** A kept commit past the first `skip` adds its entry at the end. */
  lemma TakeStep(before: seq<Commit>, c: Commit, skip: nat, refs: Refs, now: int)
    requires skip <= |before|
    ensures Entries(Drop(before + [c], skip), refs, now) == Entries(Drop(before, skip), refs, now) + [Entry(c, refs, now)]
    ensures Min(skip, |before + [c]|) == Min(skip, |before|)
  {
    DropPush(before, c, skip);
    EntriesPush(Drop(before, skip), c, refs, now);
  }

  /** The `continue` checks of the `graph_log` loop, in their order. */
  method PassesFilter(f: GraphFilter, c: Commit) returns (keep: bool)
    ensures keep == Keep(f, c)
  {
    if f.noMerges && |c.parents| > 1 {
      return false;
    }
    if f.author.Some? && !Contains(Lower(c.author.GetOr("")), Lower(f.author.value)) {
      return false;
    }
    if f.afterTimestamp > 0 && c.time < f.afterTimestamp {
      return false;
    }
    if f.searchText.Some? {
      var search := Lower(f.searchText.value);
      if !Contains(Lower(c.message.GetOr("")), search) && !StartsWith(Lower(c.id), search) {
        return false;
      }
    }
    if |f.paths| > 0 {
      keep := CommitTouchesPaths(c, f.paths);
      return;
    }
    return true;
  }

  /** "Build entry" in `graph_log`. */
  method BuildEntry(c: Commit, refs: Refs, now: int) returns (e: CommitEntry)
    ensures e == Entry(c, refs, now)
  {
    var refsStr := BuildRefDecoration(refs, c.id);
    e := CommitEntry(c.id, Join(c.parents, " "), Take(c.id, 7), refsStr,
      c.summary.GetOr(""), c.author.GetOr(""), FormatRelativeTime(now, c.time));
  }

  lemma DropPush<T>(s: seq<T>, x: T, n: nat)
    requires n <= |s|
    ensures Drop(s + [x], n) == Drop(s, n) + [x]
  {
    DropAppend(s, [x], n);
  }

  lemma EntriesPush(cs: seq<Commit>, c: Commit, refs: Refs, now: int)
    ensures Entries(cs + [c], refs, now) == Entries(cs, refs, now) + [Entry(c, refs, now)]
  {
  }

  /** Once `max(limit, 1)` entries are out, the rest of the walk cannot add to the result. */
  lemma WindowFull(walk: seq<Option<Commit>>, i: nat, limit: nat, skip: nat, f: GraphFilter, refs: Refs, now: int)
    requires i <= |walk|
    requires |Drop(Kept(walk[..i], f), skip)| == Max(limit, 1)
    ensures Entries(Drop(Kept(walk[..i], f), skip), refs, now) == GraphLogSpec(walk, limit, skip, f, refs, now)
  {
    var before := Kept(walk[..i], f);
    assert walk == walk[..i] + walk[i..];
    KeptAppend(walk[..i], walk[i..], f);
    DropAppend(before, Kept(walk[i..], f), skip);
    TakeAppend(Drop(before, skip), Kept(walk[i..], f));
  }

  /** No more than `max(limit, 1)` entries, each of a commit that passed every filter, in walk order. */
  lemma GraphLogBounds(walk: seq<Option<Commit>>, limit: nat, skip: nat, f: GraphFilter, refs: Refs, now: int)
    ensures var r := GraphLogSpec(walk, limit, skip, f, refs, now);
      var kept := Kept(walk, f);
      && |r| <= Max(limit, 1)
      && (|kept| <= skip ==> r == [])
      && forall i :: 0 <= i < |r| ==> skip + i < |kept| && r[i].hash == kept[skip + i].id && Keep(f, kept[skip + i])
  {
    KeptPass(walk, f);
  }

  /** The short hash is the first seven characters of the hash, or all of a shorter one. */
  lemma ShortHashPrefix(c: Commit, refs: Refs, now: int)
    ensures var e := Entry(c, refs, now);
      && e.shortHash <= e.hash
      && |e.shortHash| == if |c.id| < 7 then |c.id| else 7
  {
  }
}
