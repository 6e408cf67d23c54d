/**
  `SftpClient`: an optional SFTP session and the operations over it. What the server
  answers (the directory listing, transfers, the working directory) is a parameter; the
  client's own logic is the guard against a missing session and the post-processing of
  `list_dir`.
*/
module Sftp {
  import opened Base
  import opened Strings
  import opened Sorting
  import opened Listing

  /** The error every operation reports on a client that was never initialised. */
  const NotInitialized: string := "SFTP session not initialized"

  /** A remote file entry as `list_dir` returns it. */
  datatype RemoteFileEntry = RemoteFileEntry(
    name: string,
    path: string,
    isDir: bool,
    size: uint64,
    modified: Option<uint64>,
    permissions: Option<uint32>)

  /** One entry of the server's `read_dir` answer: its name, its file type and its attributes. */
  datatype DirEntry = DirEntry(
    fileName: string,
    isDir: bool,
    size: Option<uint64>,
    mtime: Option<uint32>,
    permissions: Option<uint32>)

  /** The protocol session; its state lives in the SFTP library and is not modelled. */
  datatype SftpSession = SftpSession

  /** The name is "." or "..", spelled out character by character. */
  predicate IsDotEntry(name: string) {
    0 < |name| <= 2 && name[0] == '.' && name[|name| - 1] == '.'
  }

  lemma DotEntries(name: string)
    ensures IsDotEntry(name) <==> name == "." || name == ".."
  {
    if IsDotEntry(name) && |name| == 2 {
      assert name == [name[0], name[1]];
    }
  }

  /** The path of `name` inside `dir`: `format!("{}/{}", dir.trim_end_matches('/'), name)`. */
  function EntryPath(dir: string, name: string): string {
    TrimEndMatches(dir, '/') + "/" + name
  }

  /**
    What the path is made of: the name, after one '/', after a prefix of `dir` that ends
    in no '/' and that only slashes of `dir` follow.
  */
  lemma EntryPathParts(dir: string, name: string)
    ensures var p := EntryPath(dir, name);
      && |p| == |TrimEndMatches(dir, '/')| + 1 + |name|
      && p[|p| - |name|..] == name && p[|p| - |name| - 1] == '/'
      && var parent := p[..|p| - |name| - 1];
      && parent <= dir
      && (parent == [] || parent[|parent| - 1] != '/')
      && (forall i :: |parent| <= i < |dir| ==> dir[i] == '/')
  {
    var parent := TrimEndMatches(dir, '/');
    var p := EntryPath(dir, name);
    assert p[..|p| - |name| - 1] == parent;
  }

  /** The entry `list_dir` builds from one server entry: a missing size reads as 0. */
  function ToEntry(dir: string, d: DirEntry): RemoteFileEntry
  {
    RemoteFileEntry(
      d.fileName,
      EntryPath(dir, d.fileName),
      d.isDir,
      d.size.GetOr(0),
      if d.mtime.Some? then Some(d.mtime.value as uint64) else None,
      d.permissions)
  }

  /** The entries of `dir`'s listing other than "." and "..", in the server's order. */
  function Listed(dir: string, entries: seq<DirEntry>): (r: seq<RemoteFileEntry>)
    ensures |r| <= |entries|
    ensures forall e :: e in r ==> !IsDotEntry(e.name)
    decreases |entries|
  {
    if entries == [] then []
    else
      var last := entries[|entries| - 1];
      Listed(dir, entries[..|entries| - 1]) + (if IsDotEntry(last.fileName) then [] else [ToEntry(dir, last)])
  }

  /** `e` is what `list_dir` makes of the server entry `d`. */
  predicate ListsAs(dir: string, d: DirEntry, e: RemoteFileEntry) {
    !IsDotEntry(d.fileName) && e == ToEntry(dir, d)
  }

  /** Every listed entry was made from a server entry other than "." and "..". */
  lemma {:induction false} ListedSound(dir: string, entries: seq<DirEntry>, e: RemoteFileEntry)
    requires e in Listed(dir, entries)
    ensures exists k :: 0 <= k < |entries| && ListsAs(dir, entries[k], e)
    decreases |entries|
  {
    var n := |entries| - 1;
    var init := entries[..n];
    ListedPush(dir, entries, e);
    if e in Listed(dir, init) {
      ListedSound(dir, init, e);
      var k :| 0 <= k < n && ListsAs(dir, init[k], e);
      assert entries[k] == init[k];
    } else {
      assert ListsAs(dir, entries[n], e);
    }
  }

  /** Every server entry other than "." and ".." is listed. */
  lemma {:induction false} ListedComplete(dir: string, entries: seq<DirEntry>, k: nat)
    requires k < |entries| && !IsDotEntry(entries[k].fileName)
    ensures ToEntry(dir, entries[k]) in Listed(dir, entries)
    decreases |entries|
  {
    var n := |entries| - 1;
    var init := entries[..n];
    var e := ToEntry(dir, entries[k]);
    ListedPush(dir, entries, e);
    if k < n {
      assert init[k] == entries[k];
      ListedComplete(dir, init, k);
    } else {
      assert ListsAs(dir, entries[n], e);
    }
  }

  /** The last server entry adds its listed entry, if any, after the earlier ones. */
  lemma ListedPush(dir: string, entries: seq<DirEntry>, e: RemoteFileEntry)
    requires entries != []
    ensures e in Listed(dir, entries) <==>
      e in Listed(dir, entries[..|entries| - 1]) || ListsAs(dir, entries[|entries| - 1], e)
  {
  }

  /** The comparator of `list_dir`'s `sort_by`. */
  predicate EntryLe(a: RemoteFileEntry, b: RemoteFileEntry) {
    DirsFirstLe(a.isDir, a.name, b.isDir, b.name)
  }

  lemma EntryLeIsTotalPreorder()
    ensures TotalPreorder(EntryLe)
  {
    forall a, b ensures EntryLe(a, b) || EntryLe(b, a) {
      DirsFirstTotal(a.isDir, a.name, b.isDir, b.name);
    }
    forall a, b, c | EntryLe(a, b) && EntryLe(b, c) ensures EntryLe(a, c) {
      DirsFirstTransitive(a.isDir, a.name, b.isDir, b.name, c.isDir, c.name);
    }
  }

  /** Every directory before every file, and within each kind lower-cased names ascending. */
  ghost predicate DirsFirst(es: seq<RemoteFileEntry>) {
    forall i, j :: 0 <= i < j < |es| ==>
      && (es[j].isDir ==> es[i].isDir)
      && (es[i].isDir == es[j].isDir ==> StrLe(Lower(es[i].name), Lower(es[j].name)))
  }

  /** The filtering loop of `list_dir`: one entry per server entry other than "." and "..". */
  method CollectEntries(dir: string, entries: seq<DirEntry>) returns (r: seq<RemoteFileEntry>)
    ensures r == Listed(dir, entries)
  {
    r := [];
    for i := 0 to |entries|
      invariant r == Listed(dir, entries[..i])
    {
      assert entries[..i + 1][..i] == entries[..i];
      var d := entries[i];
      if IsDotEntry(d.fileName) {
        continue;
      }
      r := r + [ToEntry(dir, d)];
    }
    assert entries[..|entries|] == entries;
  }

  class SftpClient {
    var session: Option<SftpSession>

    /** `new`: a client without a session. */
    constructor()
      ensures session == None
    {
      session := None;
    }

    /**
      `init`: opening the "sftp" subsystem on the channel and starting the session is
      one fallible step whose outcome is `started`; only on success is a session kept.
    */
    method Init(started: Outcome<string>) returns (r: Outcome<string>)
      modifies this
      ensures r == started
      ensures started.Pass? ==> session == Some(SftpSession)
      ensures started.Fail? ==> session == old(session)
    {
      if started.Fail? {
        return started;
      }
      session := Some(SftpSession);
      return Pass;
    }

    /**
      `list_dir`: without a session the "not initialized" error; a failed `read_dir` is
      returned as is; otherwise the listed entries, directories first and then by
      lower-cased name, a permutation of what the server sent minus "." and "..".
    */
    method ListDir(path: string, readDir: Result<seq<DirEntry>, string>) returns (r: Result<seq<RemoteFileEntry>, string>)
      ensures session.None? ==> r == Failure(NotInitialized)
      ensures session.Some? && readDir.Failure? ==> r == Failure(readDir.error)
      ensures session.Some? && readDir.Success? ==> r.Success?
      ensures r.Success? ==> DirsFirst(r.value) && multiset(r.value) == multiset(Listed(path, readDir.value))
    {
      if session.None? {
        return Failure(NotInitialized);
      }
      if readDir.Failure? {
        return Failure(readDir.error);
      }
      var entries := CollectEntries(path, readDir.value);
      EntryLeIsTotalPreorder();
      var sorted := SortBy(entries, EntryLe);
      forall i, j | 0 <= i < j < |sorted|
        ensures sorted[j].isDir ==> sorted[i].isDir
        ensures sorted[i].isDir == sorted[j].isDir ==> StrLe(Lower(sorted[i].name), Lower(sorted[j].name))
      {
        assert EntryLe(sorted[i], sorted[j]);
      }
      return Success(sorted);
    }

    /** `download`: the guard, then the transfer's outcome. */
    method Download(remotePath: string, localPath: string, transfer: Outcome<string>) returns (r: Outcome<string>)
      ensures session.None? ==> r == Fail(NotInitialized)
      ensures session.Some? ==> r == transfer
    {
      if session.None? {
        return Fail(NotInitialized);
      }
      return transfer;
    }

    /** `upload`: the guard, then the transfer's outcome. */
    method Upload(localPath: string, remotePath: string, transfer: Outcome<string>) returns (r: Outcome<string>)
      ensures session.None? ==> r == Fail(NotInitialized)
      ensures session.Some? ==> r == transfer
    {
      if session.None? {
        return Fail(NotInitialized);
      }
      return transfer;
    }

    /** `remove_file`: the guard, then the server's answer. */
    method RemoveFile(path: string, server: Outcome<string>) returns (r: Outcome<string>)
      ensures session.None? ==> r == Fail(NotInitialized)
      ensures session.Some? ==> r == server
    {
      if session.None? {
        return Fail(NotInitialized);
      }
      return server;
    }

    /** `create_dir`: the guard, then the server's answer. */
    method CreateDir(path: string, server: Outcome<string>) returns (r: Outcome<string>)
      ensures session.None? ==> r == Fail(NotInitialized)
      ensures session.Some? ==> r == server
    {
      if session.None? {
        return Fail(NotInitialized);
      }
      return server;
    }

    /** `pwd`: the guard, then the server's canonical form of ".". */
    method Pwd(canonical: Result<string, string>) returns (r: Result<string, string>)
      ensures session.None? ==> r == Failure(NotInitialized)
      ensures session.Some? ==> r == canonical
    {
      if session.None? {
        return Failure(NotInitialized);
      }
      return canonical;
    }
  }

  /** A fresh client refuses every operation with the "not initialized" error. */
  method FreshClientRefuses(path: string, listing: Result<seq<DirEntry>, string>, answer: Outcome<string>)
    returns (listed: Result<seq<RemoteFileEntry>, string>, removed: Outcome<string>)
    ensures listed == Failure(NotInitialized) && removed == Fail(NotInitialized)
  {
    var client := new SftpClient();
    listed := client.ListDir(path, listing);
    removed := client.RemoveFile(path, answer);
  }
}
