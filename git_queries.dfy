/**
  The smaller queries of the git graph: the first-parent chain, branch and author
  listings, tracked files and the default branch. What libgit2 yields (walks, branch
  iterators, the tree walk, ref lookups) is an input.
*/
module GitQueries {
  import opened Base
  import opened Strings
  import opened Seqs
  import opened Sorting
  import opened GitGraph

  /** The values of the items that are present, in order. */
  function Somes<T(!new)>(items: seq<Option<T>>): (r: seq<T>)
    ensures |r| <= |items|
    ensures forall x :: x in r <==> Some(x) in items
    decreases |items|
  {
    if items == [] then []
    else
      var last := items[|items| - 1];
      var init := items[..|items| - 1];
      assert items == init + [last];
      Somes(init) + (if last.Some? then [last.value] else [])
  }

  lemma {:induction false} SomesAppend<T(!new)>(a: seq<Option<T>>, b: seq<Option<T>>)
    ensures Somes(a + b) == Somes(a) + Somes(b)
    decreases |b|
  {
    if b == [] {
      assert a + b == a;
    } else {
      var n := |b| - 1;
      assert (a + b)[..|a + b| - 1] == a + b[..n];
      SomesAppend(a, b[..n]);
    }
  }

  // ---------------------------------------------------------------------------
  // first_parent_chain
  // ---------------------------------------------------------------------------

  /**
    `first_parent_chain` over the walk's ids (`None` for a failed step): the ids in walk
    order, at most `max(limit, 1)` of them, since the limit is checked after each push.
  */
  method FirstParentChain(walk: seq<Option<string>>, limit: nat) returns (hashes: seq<string>)
    ensures hashes == Take(Somes(walk), Max(limit, 1))
  {
    hashes := [];
    var i := 0;
    while i < |walk|
      invariant i <= |walk|
      invariant hashes == Somes(walk[..i]) && |hashes| < Max(limit, 1)
    {
      assert walk[..i + 1][..i] == walk[..i];
      var item := walk[i];
      i := i + 1;
      if item.Some? {
        hashes := hashes + [item.value];
        if |hashes| >= limit {
          assert walk == walk[..i] + walk[i..];
          SomesAppend(walk[..i], walk[i..]);
          TakeAppend(hashes, Somes(walk[i..]));
          return;
        }
      }
    }
    assert walk[..|walk|] == walk;
  }

  // ---------------------------------------------------------------------------
  // list_branches
  // ---------------------------------------------------------------------------

  /** `list_branches`: the valid local names, then the valid remote names, sorted. */
  method ListBranches(local: seq<Option<string>>, remote: seq<Option<string>>) returns (names: seq<string>)
    ensures SortedBy(names, StrLe)
    ensures multiset(names) == multiset(Somes(local) + Somes(remote))
  {
    var collected := [];
    for i := 0 to |local|
      invariant collected == Somes(local[..i])
    {
      if local[i].Some? {
        collected := collected + [local[i].value];
      }
      assert local[..i + 1][..i] == local[..i];
    }
    assert local[..|local|] == local;
    for i := 0 to |remote|
      invariant collected == Somes(local) + Somes(remote[..i])
    {
      if remote[i].Some? {
        collected := collected + [remote[i].value];
      }
      assert remote[..i + 1][..i] == remote[..i];
    }
    assert remote[..|remote|] == remote;
    StrLeIsTotalPreorder();
    names := SortBy(collected, StrLe);
  }

  lemma StrLeIsTotalPreorder()
    ensures TotalPreorder(StrLe)
  {
    forall a, b ensures StrLe(a, b) || StrLe(b, a) {
      StrLeTotal(a, b);
    }
    forall a, b, c | StrLe(a, b) && StrLe(b, c) ensures StrLe(a, c) {
      StrLeTransitive(a, b, c);
    }
  }

  // ---------------------------------------------------------------------------
  // list_authors
  // ---------------------------------------------------------------------------

  /** The author names of the given commits; a commit without a name adds none. */
  function AuthorNames(cs: seq<Commit>): set<string>
    decreases |cs|
  {
    if cs == [] then {}
    else
      var last := cs[|cs| - 1];
      AuthorNames(cs[..|cs| - 1]) + (if last.author.Some? then {last.author.value} else {})
  }

  /** A name is collected exactly when some commit has it as its author. */
  lemma {:induction false} AuthorNamesMembers(cs: seq<Commit>, n: string)
    ensures n in AuthorNames(cs) <==> exists i :: 0 <= i < |cs| && cs[i].author == Some(n)
    decreases |cs|
  {
    if cs != [] {
      var init := cs[..|cs| - 1];
      AuthorNamesMembers(init, n);
      if exists i :: 0 <= i < |init| && init[i].author == Some(n) {
        var i :| 0 <= i < |init| && init[i].author == Some(n);
        assert cs[i] == init[i];
      }
      if exists i :: 0 <= i < |cs| && cs[i].author == Some(n) {
        var i :| 0 <= i < |cs| && cs[i].author == Some(n);
        if i < |init| {
          assert init[i] == cs[i];
        }
      }
    }
  }

  /** Strictly ascending: sorted and without repeats. */
  ghost predicate StrictlySorted(s: seq<string>) {
    forall i, j :: 0 <= i < j < |s| ==> StrLe(s[i], s[j]) && s[i] != s[j]
  }

  /**
    `list_authors`: the distinct author names of the first `limit` commits the walk finds
    (the limit is checked before each commit is read), sorted.
  */
  method ListAuthors(walk: seq<Option<Commit>>, limit: nat) returns (result: seq<string>)
    ensures StrictlySorted(result)
    ensures forall n :: n in result <==> n in AuthorNames(Take(Somes(walk), limit))
  {
    var authors := CollectAuthors(walk, limit);
    var list := SetToSeq(authors);
    StrLeIsTotalPreorder();
    result := SortBy(list, StrLe);
    forall a, b | 0 <= a < b < |result| ensures result[a] != result[b] {
      DistinctSorted(list, result, a, b);
    }
    forall n ensures n in result <==> n in list {
      assert n in result <==> n in multiset(result);
    }
  }

  /** The walk loop of `list_authors`: stop once `limit` commits are read, collecting names into a set. */
  method CollectAuthors(walk: seq<Option<Commit>>, limit: nat) returns (authors: set<string>)
    ensures authors == AuthorNames(Take(Somes(walk), limit))
  {
    authors := {};
    var count := 0;
    var i := 0;
    while i < |walk| && count < limit
      invariant i <= |walk| && count <= limit
      invariant count == |Somes(walk[..i])|
      invariant authors == AuthorNames(Somes(walk[..i]))
    {
      CollectStep(walk, i);
      if walk[i].Some? {
        if walk[i].value.author.Some? {
          authors := authors + {walk[i].value.author.value};
        }
        count := count + 1;
      }
      i := i + 1;
    }
    TakeStopped(walk, i, limit);
  }

  /** One step of the walk loop: what reading `walk[i]` adds to the count and to the names. */
  lemma CollectStep(walk: seq<Option<Commit>>, i: nat)
    requires i < |walk|
    ensures |Somes(walk[..i + 1])| == |Somes(walk[..i])| + (if walk[i].Some? then 1 else 0)
    ensures AuthorNames(Somes(walk[..i + 1])) == AuthorNames(Somes(walk[..i]))
      + (if walk[i].Some? && walk[i].value.author.Some? then {walk[i].value.author.value} else {})
  {
    SomesStep(walk, i);
    if walk[i].Some? {
      AuthorNamesPush(Somes(walk[..i]), walk[i].value);
    } else {
      assert Somes(walk[..i + 1]) == Somes(walk[..i]);
    }
  }

  lemma SomesStep<T(!new)>(items: seq<Option<T>>, i: nat)
    requires i < |items|
    ensures Somes(items[..i + 1]) == Somes(items[..i]) + (if items[i].Some? then [items[i].value] else [])
  {
    assert items[..i + 1][..i] == items[..i];
  }

  lemma AuthorNamesPush(cs: seq<Commit>, c: Commit)
    ensures AuthorNames(cs + [c]) == AuthorNames(cs) + (if c.author.Some? then {c.author.value} else {})
  {
    assert (cs + [c])[..|cs|] == cs;
  }

  /** Where the walk loop stops: the walk is over, or `limit` commits were read. */
  lemma TakeStopped<T(!new)>(items: seq<Option<T>>, i: nat, limit: nat)
    requires i <= |items| && |Somes(items[..i])| <= limit
    requires i == |items| || |Somes(items[..i])| == limit
    ensures Somes(items[..i]) == Take(Somes(items), limit)
  {
    assert items == items[..i] + items[i..];
    SomesAppend(items[..i], items[i..]);
    if i < |items| {
      TakeAppend(Somes(items[..i]), Somes(items[i..]));
    }
  }

  /** `HashSet::into_iter().collect()`: every element once, in no promised order. */
  method SetToSeq(s: set<string>) returns (r: seq<string>)
    ensures forall x :: x in r <==> x in s
    ensures forall x :: x in multiset(r) ==> multiset(r)[x] == 1
  {
    r := [];
    var rest := s;
    while rest != {}
      invariant forall x :: x in s <==> x in r || x in rest
      invariant forall x :: x in r ==> x !in rest
      invariant forall x :: multiset(r)[x] <= 1
      decreases |rest|
    {
      var x :| x in rest;
      assert multiset(r + [x]) == multiset(r) + multiset{x};
      r := r + [x];
      rest := rest - {x};
    }
  }

  /** A permutation of a list without repeats has no repeats either. */
  lemma DistinctSorted(list: seq<string>, sorted: seq<string>, a: nat, b: nat)
    requires multiset(sorted) == multiset(list)
    requires forall x :: x in multiset(list) ==> multiset(list)[x] == 1
    requires a < b < |sorted|
    ensures sorted[a] != sorted[b]
  {
    var rest := sorted[a + 1..b] + [sorted[b]] + sorted[b + 1..];
    assert sorted == sorted[..a] + [sorted[a]] + rest;
    assert sorted[b] in multiset(rest);
    assert multiset(sorted)[sorted[a]] == multiset(sorted[..a])[sorted[a]] + 1 + multiset(rest)[sorted[a]];
  }

  // ---------------------------------------------------------------------------
  // list_tracked_files
  // ---------------------------------------------------------------------------

  /** One entry of the pre-order tree walk: the directory prefix ("" or ending in '/'), its name, whether it is a blob. */
  datatype TreeEntry = TreeEntry(dir: string, name: Option<string>, isBlob: bool)

  /** The path the walk callback builds: the name alone at the root, else the prefix followed by the name. */
  function EntryPath(e: TreeEntry): string {
    if e.dir == "" then e.name.GetOr("") else e.dir + e.name.GetOr("")
  }

  /** Both cases of the callback are the same concatenation. */
  lemma EntryPathIsConcat(e: TreeEntry)
    ensures EntryPath(e) == e.dir + e.name.GetOr("")
  {
    if e.dir == "" {
      assert e.dir + e.name.GetOr("") == e.name.GetOr("");
    }
  }

  /** The paths of the blobs, in walk order. */
  function BlobPaths(entries: seq<TreeEntry>): (paths: seq<string>)
    ensures |paths| <= |entries|
    decreases |entries|
  {
    if entries == [] then []
    else
      var e := entries[|entries| - 1];
      BlobPaths(entries[..|entries| - 1]) + (if e.isBlob then [EntryPath(e)] else [])
  }

  /** Every listed path is the prefix and name of some blob of the walk. */
  lemma {:induction false} BlobPathsFromBlobs(entries: seq<TreeEntry>, k: nat)
    requires k < |BlobPaths(entries)|
    ensures exists i :: 0 <= i < |entries| && entries[i].isBlob && BlobPaths(entries)[k] == entries[i].dir + entries[i].name.GetOr("")
    decreases |entries|
  {
    var n := |entries| - 1;
    var init := BlobPaths(entries[..n]);
    if k < |init| {
      BlobPathsFromBlobs(entries[..n], k);
      var i :| 0 <= i < n && entries[..n][i].isBlob && init[k] == entries[..n][i].dir + entries[..n][i].name.GetOr("");
      assert entries[i] == entries[..n][i];
    } else {
      EntryPathIsConcat(entries[n]);
    }
  }

  /**
    `list_tracked_files`: the blobs of HEAD's tree. A missing HEAD or tree is the error
    the caller formats; errors inside the walk are ignored.
  */
  method ListTrackedFiles(tree: Result<seq<TreeEntry>, string>) returns (r: Result<seq<string>, string>)
    ensures tree.Failure? ==> r == Failure(tree.error)
    ensures tree.Success? ==> r == Success(BlobPaths(tree.value))
  {
    if tree.Failure? {
      return Failure(tree.error);
    }
    var entries := tree.value;
    var files := [];
    for i := 0 to |entries|
      invariant files == BlobPaths(entries[..i])
    {
      var e := entries[i];
      if e.isBlob {
        var path := if e.dir == "" then e.name.GetOr("") else e.dir + e.name.GetOr("");
        files := files + [path];
      }
      assert entries[..i + 1][..i] == entries[..i];
    }
    assert entries[..|entries|] == entries;
    return Success(files);
  }

  // ---------------------------------------------------------------------------
  // detect_default_branch
  // ---------------------------------------------------------------------------

  /** `refs/remotes/origin/HEAD` when it exists: the short name it resolves to, and its symbolic target. */
  datatype OriginHead = OriginHead(resolvedShorthand: Option<string>, symbolicTarget: Option<string>)

  /** The strategies in priority order; each gives a name or nothing. */
  function Candidates(originHead: Option<OriginHead>, remoteBranches: set<string>, localBranches: set<string>,
                      prefix: string, originMaster: string, originMain: string, master: string, main: string): seq<Option<string>>
    requires prefix != []
  {
    var oh := originHead;
    [ if oh.Some? then oh.value.resolvedShorthand else None,
      if oh.Some? && oh.value.symbolicTarget.Some? && StartsWith(oh.value.symbolicTarget.value, prefix)
        then Some(TrimStartMatches(oh.value.symbolicTarget.value, prefix)) else None,
      if originMaster in remoteBranches then Some(originMaster) else None,
      if originMain in remoteBranches then Some(originMain) else None,
      if master in localBranches then Some(master) else None,
      if main in localBranches then Some(main) else None ]
  }

  /** The first candidate that gives a name, else the fallback. */
  function FirstAvailable(cands: seq<Option<string>>, fallback: string): (r: string)
    ensures (exists k :: 0 <= k < |cands| && cands[k].Some? && r == cands[k].value && forall j :: 0 <= j < k ==> cands[j].None?)
         || (r == fallback && forall j :: 0 <= j < |cands| ==> cands[j].None?)
  {
    if cands == [] then fallback
    else if cands[0].Some? then cands[0].value
    else
      var r := FirstAvailable(cands[1..], fallback);
      assert forall j :: 1 <= j < |cands| ==> cands[j] == cands[1..][j - 1];
      r
  }

  /**
    `detect_default_branch`: origin/HEAD's resolved short name; else its symbolic target
    under "refs/remotes/" with that prefix trimmed; else origin/master, origin/main, master,
    main, whichever exists first; else "HEAD".
  */
  function DetectDefaultBranch(originHead: Option<OriginHead>, remoteBranches: set<string>, localBranches: set<string>): string {
    if originHead.Some? && originHead.value.resolvedShorthand.Some? then originHead.value.resolvedShorthand.value
    else if originHead.Some? && originHead.value.symbolicTarget.Some? && StartsWith(originHead.value.symbolicTarget.value, "refs/remotes/")
      then TrimStartMatches(originHead.value.symbolicTarget.value, "refs/remotes/")
    else if "origin/master" in remoteBranches then "origin/master"
    else if "origin/main" in remoteBranches then "origin/main"
    else if "master" in localBranches then "master"
    else if "main" in localBranches then "main"
    else "HEAD"
  }

  /** The if-chain is the priority list: the answer is the first strategy that yields a name. */
  lemma DetectFollowsPriority(originHead: Option<OriginHead>, remoteBranches: set<string>, localBranches: set<string>)
    ensures DetectDefaultBranch(originHead, remoteBranches, localBranches)
         == FirstAvailable(Candidates(originHead, remoteBranches, localBranches,
              "refs/remotes/", "origin/master", "origin/main", "master", "main"), "HEAD")
  {
    var c := Candidates(originHead, remoteBranches, localBranches,
      "refs/remotes/", "origin/master", "origin/main", "master", "main");
    assert c[6..] == [];
    forall k | 0 <= k < 6
      ensures FirstAvailable(c[k..], "HEAD") == if c[k].Some? then c[k].value else FirstAvailable(c[k + 1..], "HEAD")
    {
      assert c[k..][1..] == c[k + 1..];
    }
  }
}
