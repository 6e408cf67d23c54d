/**
  File search and directory listing on the local disk. The gitignore-aware walker and the
  filesystem are inputs: `search_files` sees whether the root exists and the walker's
  entries, `list_directory` sees `read_dir`'s answer entry by entry.
*/
module Search {
  import opened Base
  import opened Strings
  import opened Seqs
  import opened Sorting
  import opened Listing

  datatype SearchResult = SearchResult(path: string, name: string, isDir: bool, size: uint64)

  // ---------------------------------------------------------------------------
  // search_files
  // ---------------------------------------------------------------------------

  /**
    One entry the walker yields: its path, its file name when it has one that is valid
    UTF-8, its file type when known and its length when its metadata could be read.
  */
  datatype WalkEntry = WalkEntry(path: string, fileName: Option<string>, isDir: Option<bool>, len: Option<uint64>)

  /** The name `search_files` matches against: the file name, or "" when there is none. */
  function NameOf(w: WalkEntry): string {
    w.fileName.GetOr("")
  }

  /** The result built from a matching entry: an unknown type is a file, an unknown size 0. */
  function ToResult(w: WalkEntry): SearchResult {
    SearchResult(w.path, NameOf(w), w.isDir.GetOr(false), w.len.GetOr(0))
  }

  /** The entry's lower-cased name contains the lower-cased pattern. */
  predicate NameMatches(w: WalkEntry, patternLower: string) {
    Contains(Lower(NameOf(w)), patternLower)
  }

  /**
    Every match of the walk in walk order: entries the walker failed on are skipped
    (`flatten`), and so are entries whose name does not contain the pattern.
  */
  function Matches(walk: seq<Result<WalkEntry, string>>, patternLower: string): (r: seq<SearchResult>)
    ensures |r| <= |walk|
    decreases |walk|
  {
    if walk == [] then []
    else
      var last := walk[|walk| - 1];
      Matches(walk[..|walk| - 1], patternLower)
        + (if last.Success? && NameMatches(last.value, patternLower) then [ToResult(last.value)] else [])
  }

  lemma {:induction false} MatchesAppend(a: seq<Result<WalkEntry, string>>, b: seq<Result<WalkEntry, string>>, patternLower: string)
    ensures Matches(a + b, patternLower) == Matches(a, patternLower) + Matches(b, patternLower)
    decreases |b|
  {
    if b == [] {
      assert a + b == a;
    } else {
      var n := |b| - 1;
      assert (a + b)[..|a + b| - 1] == a + b[..n];
      MatchesAppend(a, b[..n], patternLower);
    }
  }

  /** `x` is the result made of the walker item `w`, read without error and matching. */
  predicate FoundAs(w: Result<WalkEntry, string>, patternLower: string, x: SearchResult) {
    w.Success? && NameMatches(w.value, patternLower) && x == ToResult(w.value)
  }

  /** Every match was made from some walker item that was read and matches. */
  lemma {:induction false} MatchesSound(walk: seq<Result<WalkEntry, string>>, patternLower: string, x: SearchResult)
    requires x in Matches(walk, patternLower)
    ensures exists k :: 0 <= k < |walk| && FoundAs(walk[k], patternLower, x)
    decreases |walk|
  {
    var n := |walk| - 1;
    var init := walk[..n];
    MatchesPush(walk, patternLower, x);
    if x in Matches(init, patternLower) {
      MatchesSound(init, patternLower, x);
      var k :| 0 <= k < n && FoundAs(init[k], patternLower, x);
      assert walk[k] == init[k];
    } else {
      assert FoundAs(walk[n], patternLower, x);
    }
  }

  /** Every walker item that was read and matches is found. */
  lemma {:induction false} MatchesComplete(walk: seq<Result<WalkEntry, string>>, patternLower: string, k: nat)
    requires k < |walk| && walk[k].Success? && NameMatches(walk[k].value, patternLower)
    ensures ToResult(walk[k].value) in Matches(walk, patternLower)
    decreases |walk|
  {
    var n := |walk| - 1;
    var init := walk[..n];
    MatchesPush(walk, patternLower, ToResult(walk[k].value));
    if k < n {
      assert init[k] == walk[k];
      MatchesComplete(init, patternLower, k);
    }
  }

  /** The last walker item adds its result, if any, after the earlier matches. */
  lemma MatchesPush(walk: seq<Result<WalkEntry, string>>, patternLower: string, x: SearchResult)
    requires walk != []
    ensures x in Matches(walk, patternLower) <==>
      x in Matches(walk[..|walk| - 1], patternLower) || FoundAs(walk[|walk| - 1], patternLower, x)
  {
  }

  /** Every match's name contains the pattern once both are lower-cased. */
  lemma MatchesContainPattern(walk: seq<Result<WalkEntry, string>>, patternLower: string)
    ensures forall x :: x in Matches(walk, patternLower) ==> Contains(Lower(x.name), patternLower)
  {
    forall x | x in Matches(walk, patternLower) ensures Contains(Lower(x.name), patternLower) {
      MatchesSound(walk, patternLower, x);
    }
  }

  /**
    `search_files`: nothing when the root does not exist; otherwise the first
    `maxResults` matches in walk order, as the bound is checked before each entry.
  */
  method SearchFiles(rootExists: bool, walk: seq<Result<WalkEntry, string>>, pattern: string, maxResults: nat)
    returns (results: seq<SearchResult>)
    ensures !rootExists ==> results == []
    ensures rootExists ==> results == Take(Matches(walk, Lower(pattern)), maxResults)
    ensures |results| <= maxResults
    ensures forall x :: x in results ==> Contains(Lower(x.name), Lower(pattern))
  {
    results := [];
    if !rootExists {
      return;
    }
    var patternLower := Lower(pattern);
    var i := 0;
    while i < |walk|
      invariant i <= |walk|
      invariant results == Matches(walk[..i], patternLower)
      invariant |results| <= maxResults
    {
      if |results| >= maxResults {
        break;
      }
      assert walk[..i + 1][..i] == walk[..i];
      if walk[i].Success? && NameMatches(walk[i].value, patternLower) {
        results := results + [ToResult(walk[i].value)];
      }
      i := i + 1;
    }
    SearchStopped(walk, i, patternLower, maxResults);
    MatchesContainPattern(walk, patternLower);
  }

  /** Where the search loop stops: the walk is over, or `maxResults` matches were found. */
  lemma SearchStopped(walk: seq<Result<WalkEntry, string>>, i: nat, patternLower: string, maxResults: nat)
    requires i <= |walk| && |Matches(walk[..i], patternLower)| <= maxResults
    requires i == |walk| || |Matches(walk[..i], patternLower)| == maxResults
    ensures Matches(walk[..i], patternLower) == Take(Matches(walk, patternLower), maxResults)
  {
    assert walk == walk[..i] + walk[i..];
    MatchesAppend(walk[..i], walk[i..], patternLower);
    if i < |walk| {
      TakeAppend(Matches(walk[..i], patternLower), Matches(walk[i..], patternLower));
    }
  }

  // ---------------------------------------------------------------------------
  // list_directory
  // ---------------------------------------------------------------------------

  /** File metadata as `list_directory` reads it. */
  datatype Metadata = Metadata(isDir: bool, len: uint64)

  /** One directory entry: its path, its name and the outcome of reading its metadata. */
  datatype DirItem = DirItem(path: string, name: string, metadata: Result<Metadata, IoError>)

  /** Reading the entry or its metadata failed. */
  predicate ItemFails(item: Result<DirItem, IoError>) {
    item.Failure? || item.value.metadata.Failure?
  }

  function ItemError(item: Result<DirItem, IoError>): IoError
    requires ItemFails(item)
  {
    if item.Failure? then item.error else item.value.metadata.error
  }

  function ItemResult(d: DirItem): SearchResult
    requires d.metadata.Success?
  {
    SearchResult(d.path, d.name, d.metadata.value.isDir, d.metadata.value.len)
  }

  /**
    The entries in `read_dir`'s order, or the error of the first entry whose reading or
    metadata failed: the `?` operators return at the first error.
  */
  function Collected(items: seq<Result<DirItem, IoError>>): (r: Result<seq<SearchResult>, IoError>)
    ensures r.Success? <==> forall k :: 0 <= k < |items| ==> !ItemFails(items[k])
    ensures r.Success? ==> |r.value| == |items|
    ensures r.Success? ==> forall k :: 0 <= k < |items| ==> r.value[k] == ItemResult(items[k].value)
    decreases |items|
  {
    if items == [] then Success([])
    else
      var n := |items| - 1;
      var init := items[..n];
      assert forall k :: 0 <= k < n ==> init[k] == items[k];
      match Collected(init)
      case Failure(e) => Failure(e)
      case Success(es) =>
        if ItemFails(items[n]) then Failure(ItemError(items[n]))
        else Success(es + [ItemResult(items[n].value)])
  }

  /** The error reported is the first failing entry's. */
  lemma {:induction false} CollectedFirstError(items: seq<Result<DirItem, IoError>>, k: nat)
    requires k < |items| && ItemFails(items[k])
    requires forall j :: 0 <= j < k ==> !ItemFails(items[j])
    ensures Collected(items) == Failure(ItemError(items[k]))
    decreases |items|
  {
    var n := |items| - 1;
    var init := items[..n];
    if k < n {
      assert init[k] == items[k];
      assert forall j :: 0 <= j < k ==> init[j] == items[j];
      CollectedFirstError(init, k);
    } else {
      assert forall j :: 0 <= j < n ==> init[j] == items[j];
    }
  }

  /** The reading loop of `list_directory`, returning at the first error. */
  method CollectItems(items: seq<Result<DirItem, IoError>>) returns (r: Result<seq<SearchResult>, IoError>)
    ensures r == Collected(items)
  {
    var entries := [];
    for i := 0 to |items|
      invariant Collected(items[..i]) == Success(entries)
    {
      assert items[..i + 1][..i] == items[..i];
      var item := items[i];
      if item.Failure? {
        ItemFailsAt(items, i);
        return Failure(item.error);
      }
      var entry := item.value;
      if entry.metadata.Failure? {
        ItemFailsAt(items, i);
        return Failure(entry.metadata.error);
      }
      entries := entries + [ItemResult(entry)];
    }
    assert items[..|items|] == items;
    return Success(entries);
  }

  /** Once the entries before `i` were read, a failure at `i` is the listing's error. */
  lemma ItemFailsAt(items: seq<Result<DirItem, IoError>>, i: nat)
    requires i < |items| && Collected(items[..i]).Success? && ItemFails(items[i])
    ensures Collected(items) == Failure(ItemError(items[i]))
  {
    forall j | 0 <= j < i ensures !ItemFails(items[j]) {
      assert items[..i][j] == items[j];
    }
    CollectedFirstError(items, i);
  }

  /** The comparator of `list_directory`'s `sort_by`. */
  predicate ResultLe(a: SearchResult, b: SearchResult) {
    DirsFirstLe(a.isDir, a.name, b.isDir, b.name)
  }

  lemma ResultLeIsTotalPreorder()
    ensures TotalPreorder(ResultLe)
  {
    forall a, b ensures ResultLe(a, b) || ResultLe(b, a) {
      DirsFirstTotal(a.isDir, a.name, b.isDir, b.name);
    }
    forall a, b, c | ResultLe(a, b) && ResultLe(b, c) ensures ResultLe(a, c) {
      DirsFirstTransitive(a.isDir, a.name, b.isDir, b.name, c.isDir, c.name);
    }
  }

  /** Every directory before every file, and within each kind lower-cased names ascending. */
  ghost predicate DirsFirst(es: seq<SearchResult>) {
    forall i, j :: 0 <= i < j < |es| ==>
      && (es[j].isDir ==> es[i].isDir)
      && (es[i].isDir == es[j].isDir ==> StrLe(Lower(es[i].name), Lower(es[j].name)))
  }

  /**
    `list_directory`: a failed `read_dir`, entry or metadata read is returned as the
    error; otherwise every entry, directories first and then by lower-cased name.
  */
  method ListDirectory(readDir: Result<seq<Result<DirItem, IoError>>, IoError>) returns (r: Result<seq<SearchResult>, IoError>)
    ensures readDir.Failure? ==> r == Failure(readDir.error)
    ensures readDir.Success? && Collected(readDir.value).Failure? ==> r == Collected(readDir.value)
    ensures readDir.Success? && Collected(readDir.value).Success? ==> r.Success?
    ensures r.Success? ==> DirsFirst(r.value) && multiset(r.value) == multiset(Collected(readDir.value).value)
  {
    if readDir.Failure? {
      return Failure(readDir.error);
    }
    var collected := CollectItems(readDir.value);
    if collected.Failure? {
      return collected;
    }
    ResultLeIsTotalPreorder();
    var sorted := SortBy(collected.value, ResultLe);
    forall i, j | 0 <= i < j < |sorted|
      ensures sorted[j].isDir ==> sorted[i].isDir
      ensures sorted[i].isDir == sorted[j].isDir ==> StrLe(Lower(sorted[i].name), Lower(sorted[j].name))
    {
      assert ResultLe(sorted[i], sorted[j]);
    }
    return Success(sorted);
  }
}
