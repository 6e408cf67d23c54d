# Pier core in Dafny

This project models the core of `pier-core`, the Rust library behind the Pier terminal
and server manager. It proves properties of that model. The model covers:

- **Git graph queries** (`git_graph.rs`):
  - the commit log with its filters, skip and limit;
  - the ref decoration of each commit;
  - the relative commit age;
  - the first-parent chain;
  - the branch, author and tracked-file lists;
  - default-branch detection.
- **SSH client** (`ssh/`):
  - the default configuration;
  - the session: trust-on-first-use host key check, connection, port-forward bookkeeping, and collecting a command's exit status and output;
  - service detection for MySQL, Redis, PostgreSQL and Docker, with version parsing;
  - the SFTP client's guards and its directory listing.
- **Terminal** (`terminal/`):
  - the VT screen emulator: printing, control characters, and the CSI cursor and erase functions;
  - the terminal session's grid and resize.
- **File search** (`search/mod.rs`): the name search over a directory walk, and the sorted directory listing.

Everything the library asks of the outside world is a parameter of the model. That
covers the git repository, the SSH transport and server, the PTY, the file system,
and the clock. Each such input is a sequence of walk items, a map of known hosts and
the library's answer about them, a channel's message sequence, or a pass/fail outcome.

Where the source changes state in place, the model is a class with fields:

| class | fields |
|---|---|
| `SshSession.Session` | the handle and the forward map |
| `Sftp.SftpClient` | the optional session |
| `Emulator.VtEmulator` | the cursor and the cell grid |
| `TerminalSession.Terminal` | the size and the screen |

The methods of these classes are proved against pure specification functions on
values (for example `VtScreen.Csi` and `SshSession.Handshake`). Lemmas state the
properties of those functions.

Modules:

| module | what it holds |
|---|---|
| `Base` | fixed-width integers and the Option, Result and Outcome types |
| `Strings` | ASCII lower-casing, trimming, substring search, joining, decimal rendering, byte-wise string order, whitespace splitting |
| `Seqs` | Take and Drop |
| `Sorting` | a sort proved sorted and a permutation for any total preorder; it stands in for Rust's `sort`/`sort_by` |
| `Grids` | `Vec::resize` on rows and grids |
| `Listing` | the "directories first, then lower-cased name" order |
| `GitTime`, `GitGraph`, `GitQueries` | `git_graph.rs` |
| `SshConfig` | `ssh/mod.rs` |
| `SshSession` | `ssh/session.rs` |
| `VersionParsing`, `ServiceDetector` | `ssh/service_detector.rs` |
| `Sftp` | `ssh/sftp.rs` |
| `VtScreen`, `Emulator` | `terminal/emulator.rs` |
| `TerminalSession` | `terminal/mod.rs` |
| `Search` | `search/mod.rs` |

## Model

| member | source | states |
|---|---|---|
| GitTime.AgeOf | pier-core/src/git_graph.rs:41-76 | The age is "in the future" exactly when the commit time is after now. Otherwise the count of whole units elapsed brackets the difference: count×unit ≤ diff < (count+1)×unit. |
| GitTime.AgeUnitBands | pier-core/src/git_graph.rs:51-75 | The unit is chosen by the bands: under 60 s seconds, under an hour minutes, under a day hours, under 7 days days, under 35 days weeks, under 360 days months, else years. Each holds in both directions. |
| GitTime.ZeroYearsQuirk | pier-core/src/git_graph.rs:62-75 | An age of 360 to 364 days renders as 0 years, because the month band ends at day 360 but a year is 365 days. |
| GitTime.RenderPlural | pier-core/src/git_graph.rs:51-75 | The phrase takes the plural "s" exactly when it counts seconds or a count other than 1. |
| GitTime.FutureOnlyWhenAhead | pier-core/src/git_graph.rs:46-49 | `format_relative_time` says "in the future" exactly when the commit is ahead of the clock. |
| GitTime.RenderedCountReadsBack | pier-core/src/git_graph.rs:51-75 | The phrase starts with the decimal count, and that count of units does not exceed the elapsed time. |
| GitGraph.CommitTouchesPaths | pier-core/src/git_graph.rs:290-327 | The early-return search over the diff deltas answers exactly `Touches`. A root commit matches on its tree entries. A delta matches when its old or new path starts with a filter path. |
| GitGraph.HeadEntries | pier-core/src/git_graph.rs:86-100 | HEAD contributes at most one entry: none when HEAD is missing or on another commit, and "HEAD" when it is on the commit but is not a named branch. The "HEAD -> name" case is `GitGraph.HeadComesFirst`. |
| GitGraph.AddBranches | pier-core/src/git_graph.rs:103-118 | The branch pass only appends to the entries before it. |
| GitGraph.TagEntries | pier-core/src/git_graph.rs:121-136 | The tag pass adds at most one entry per tag. |
| GitGraph.TagEntriesMembers | pier-core/src/git_graph.rs:121-136 | Every tag on the commit contributes "tag: name", and every tag entry is "tag: name" for some tag on the commit. |
| GitGraph.Decorate | pier-core/src/git_graph.rs:138-142 | The decoration is empty exactly when there are no entries. Otherwise it is " (" + the entries joined by ", " + ")". |
| GitGraph.BuildRefDecoration | pier-core/src/git_graph.rs:82-143 | The imperative build (HEAD, then branches, then tags) equals `Decorate` of the decoration list. |
| GitGraph.PushBranches | pier-core/src/git_graph.rs:103-118 | The branch loop equals the specification `AddBranches`. |
| GitGraph.SomeEntryContains | pier-core/src/git_graph.rs:110 | The `any(contains)` scan answers whether some entry contains the name. |
| GitGraph.PushTags | pier-core/src/git_graph.rs:121-136 | The tag loop appends exactly `TagEntries`. |
| GitGraph.BranchShown | pier-core/src/git_graph.rs:103-118 | Every valid branch on the commit ends up contained in some entry: added, or already covered. |
| GitGraph.BranchEntriesNew | pier-core/src/git_graph.rs:110-113 | No branch entry is contained in an entry before it, so the dedupe check holds for every added branch. |
| GitGraph.HeadComesFirst | pier-core/src/git_graph.rs:86-100 | When HEAD is a named branch on the commit, the first entry is "HEAD -> name". |
| GitGraph.Kept | pier-core/src/git_graph.rs:203-250 | The filtered walk is never longer than the walk. |
| GitGraph.KeptPass | pier-core/src/git_graph.rs:214-250 | Every commit that survives the filters passes all of them. |
| GitGraph.KeptAppend | pier-core/src/git_graph.rs:203-250 | Filtering distributes over concatenation of the walk. |
| GitGraph.PassesFilter | pier-core/src/git_graph.rs:214-250 | The chain of `continue` checks (merges, author, date, text or hash prefix, paths) keeps exactly the commits `Keep` accepts. |
| GitGraph.BuildEntry | pier-core/src/git_graph.rs:259-279 | The built entry is the specification entry of the commit. |
| GitGraph.GraphLogStep | pier-core/src/git_graph.rs:252-283 | One loop step keeps the loop invariant: skipped = min(skip, kept), results = entries of the kept commits past skip. It reports full exactly when max(limit,1) entries exist. |
| GitGraph.GraphLog | pier-core/src/git_graph.rs:150-287 | `graph_log` returns the entries of the filtered walk, after dropping `skip` and taking max(limit, 1). A limit of 0 still yields one entry, because the length check follows the push. |
| GitGraph.GraphLogBounds | pier-core/src/git_graph.rs:252-283 | At most max(limit,1) entries, and none when the skip covers every kept commit. Entry i is kept commit skip+i, in walk order, and passed every filter. |
| GitGraph.ShortHashPrefix | pier-core/src/git_graph.rs:260 | The short hash is a prefix of the hash, of length min(7, hash length). |
| GitQueries.Somes | pier-core/src/git_graph.rs:359-367 | The successfully read items are no more than the items, and contain exactly the present values. |
| GitQueries.SomesAppend | pier-core/src/git_graph.rs:359-367 | Reading the successful items distributes over concatenation. |
| GitQueries.FirstParentChain | pier-core/src/git_graph.rs:330-369 | The chain is the first max(limit,1) successfully read hashes, in walk order. |
| GitQueries.ListBranches | pier-core/src/git_graph.rs:372-392 | The names are sorted and are a permutation of the valid local names followed by the valid remote names. |
| GitQueries.AuthorNamesMembers | pier-core/src/git_graph.rs:403-415 | A name is collected exactly when some commit has it as its author. |
| GitQueries.CollectAuthors | pier-core/src/git_graph.rs:400-415 | The walk loop collects exactly the author names of the first `limit` readable commits. |
| GitQueries.SetToSeq | pier-core/src/git_graph.rs:416 | Turning the set into a list keeps exactly its members, each once. |
| GitQueries.DistinctSorted | pier-core/src/git_graph.rs:416-417 | Sorting a list without repeats leaves no repeats. |
| GitQueries.ListAuthors | pier-core/src/git_graph.rs:395-419 | The authors come out strictly ascending, and are exactly the names of the first `limit` readable commits. |
| GitQueries.EntryPathIsConcat | pier-core/src/git_graph.rs:430-436 | Both branches of the tree-walk callback build the path as the directory prefix followed by the name. |
| GitQueries.BlobPaths | pier-core/src/git_graph.rs:428-440 | At most one path per tree entry. |
| GitQueries.BlobPathsFromBlobs | pier-core/src/git_graph.rs:430-438 | Every listed path is the prefix and name of some blob of the walk. |
| GitQueries.ListTrackedFiles | pier-core/src/git_graph.rs:422-443 | A failure to read the tree is returned as is. Otherwise the result is the blob paths in walk order. |
| GitQueries.FirstAvailable | pier-core/src/git_graph.rs:446-481 | The answer is the first candidate that yields a name, with no earlier candidate yielding one, or else the fallback. |
| GitQueries.DetectFollowsPriority | pier-core/src/git_graph.rs:446-481 | `detect_default_branch` is the first available of six candidates, in order: the name origin/HEAD resolves to; its symbolic target under `refs/remotes/` with that prefix removed; origin/master; origin/main; master; main. The fallback is "HEAD". |
| SshConfig.DefaultConfig | pier-core/src/ssh/mod.rs:25-34 | The default configuration is localhost, port 22, user root, agent authentication. |
| SshSession.CheckServerKey | pier-core/src/ssh/session.rs:35-60 | On the library's answer: `Ok(false)`, and only that, rejects the connection with a host key mismatch for this host and port; `Ok(true)` and an error accept the key. |
| SshSession.LearnHostKey | pier-core/src/ssh/session.rs:52-59 | Only an error answer with a save that works records the server's key for this host and port. Every other host's entry is kept, and otherwise the file is unchanged. |
| SshSession.CommentedAnswer | pier-core/src/ssh/session.rs:35-60 | The meaning the handler's comments give the answers: `Ok(true)` exactly for a matching remembered key, `Ok(false)` exactly for a different one, an error exactly for an unknown host. |
| SshSession.TrustOnFirstUse | pier-core/src/ssh/session.rs:35-60 | Under the commented meaning, an unknown host is accepted and its key learned. On the next connection that key is accepted and any other key is rejected as a mismatch. |
| SshSession.ErrorAnswerTrustsAnyKey | pier-core/src/ssh/session.rs:52-59 | Whatever an error answer means, the key is accepted and, when the save works, recorded, even over a different key already remembered. |
| SshSession.Handshake | pier-core/src/ssh/session.rs:74-128 | A connect timeout and an unreachable host fail, and so does an `Ok(false)` host key answer, as a mismatch. Once the key is accepted: agent authentication fails as not implemented, a key file that does not load fails, and otherwise an accepted reply gives the new handle, a rejected one fails as an authentication failure and a protocol error as a transport error. A success needs all of this. The known hosts afterwards are the host key check's when the server was reached, and unchanged otherwise. |
| SshSession.DefaultConfigNeverConnects | pier-core/src/ssh/session.rs:96-123 | With the default configuration, agent authentication, no connection ever succeeds; once the host key is accepted, the error is that agent authentication is not implemented. |
| SshSession.AsI32 | pier-core/src/ssh/session.rs:365 | `exit_status as i32` is the u32 reinterpreted in two's complement, within the i32 range. |
| SshSession.Decode | pier-core/src/ssh/session.rs:390 | Lossy decoding keeps one character per byte, and ASCII bytes unchanged. |
| SshSession.ExecReply | pier-core/src/ssh/session.rs:327-336 | Not connected, or a channel that fails to open or exec, is an error. Otherwise the reply is the result collected from the channel's events. |
| SshSession.StepAgrees | pier-core/src/ssh/session.rs:344-388 | One loop step moves the state to the state after one more event. It stops exactly on Close, a stream end, a timeout, or the EOF/exit-status pair. |
| SshSession.DrainFrom | pier-core/src/ssh/session.rs:344-388 | Running the loop from any point ends in the state after the events up to the stopping point. |
| SshSession.ExecResultMeaning | pier-core/src/ssh/session.rs:337-391 | The result is the last exit status before the stop, and the trimmed lossy text of all stdout and stderr data before it. |
| SshSession.NoStatusMeansMinusOne | pier-core/src/ssh/session.rs:338 | Without an exit-status message the exit code is the -1 sentinel. |
| SshSession.EndsLikeClose | pier-core/src/ssh/session.rs:375-386 | A stream end or a timeout stops the loop exactly like a Close message. |
| SshSession.TimeoutGivesCloseResult | pier-core/src/ssh/session.rs:375-386 | A timeout or a stream end gives the same result as a Close at that point, whatever follows. |
| SshSession.CancelSender.Send | pier-core/src/ssh/session.rs:305 | Sending on the cancel channel marks the forward as told to stop. |
| SshSession.Session.constructor | pier-core/src/ssh/session.rs:65-71 | A new session keeps the configuration, is not connected, and has no forwards. |
| SshSession.Session.Connect | pier-core/src/ssh/session.rs:74-128 | On success the handle is the handshake's. On failure the error is returned and the handle is unchanged. The known hosts are the handshake's. |
| SshSession.Session.Disconnect | pier-core/src/ssh/session.rs:153-172 | Disconnecting always succeeds and drops the handle. The forwards are left as they are. |
| SshSession.Session.StartPortForward | pier-core/src/ssh/session.rs:182-243 | The error cases are checked in order: already forwarded, then not connected, then bind failed. A success adds exactly one fresh, uncancelled forward for the port, and a failure changes nothing. |
| SshSession.Session.StopPortForward | pier-core/src/ssh/session.rs:303-311 | A forwarded port is removed and cancelled. An unknown port is an error and changes nothing. No other forward's cancel flag changes. |
| SshSession.Session.StopAllForwards | pier-core/src/ssh/session.rs:314-319 | Every forward is cancelled and the map is emptied. |
| SshSession.Session.ActiveForwards | pier-core/src/ssh/session.rs:322-324 | The ports listed are exactly the forwarded ones, each once. |
| SshSession.Session.ExecCommand | pier-core/src/ssh/session.rs:327-392 | Not connected gives "Not connected". A failed open or exec is a transport error. Otherwise the result is the events' exit status and output. |
| VersionParsing.CleanWord | pier-core/src/ssh/service_detector.rs:170 | Trimming the trailing ',' then ';' gives a prefix of the word that does not end in ';'. A word ending in neither is unchanged. |
| VersionParsing.VersionWordIndex | pier-core/src/ssh/service_detector.rs:169-176 | The index found is the first word that, cleaned, starts with a digit and contains a '.'. No earlier word does. |
| VersionParsing.ParseVersionShape | pier-core/src/ssh/service_detector.rs:161-180 | The result is the first word that looks like a version once trailing commas and semicolons are removed, and that word has no whitespace. Without one it is "unknown" for empty output and otherwise the first line of the output: all of it when it has no line feed, else followed in it by "\n" or "\r\n". |
| VersionParsing.ParseVersionTakesFirst | pier-core/src/ssh/service_detector.rs:169-176 | When some word looks like a version, the first such word is returned and no later one. |
| VersionParsing.ParseVersionFirstWord | pier-core/src/ssh/service_detector.rs:169-176 | A leading version-like word is returned cleaned. |
| VersionParsing.VersionAfterOneWord | pier-core/src/ssh/service_detector.rs:169-176 | Text like "redis-cli 7.0.11" yields the version word, cleaned. |
| VersionParsing.VersionAfterTwoWords | pier-core/src/ssh/service_detector.rs:169-176 | Text like "psql (PostgreSQL) 15.4", "mysql  Ver 8.0.35 ..." or "Docker version 24.0.5," yields the version word, cleaned. |
| VersionParsing.ParseVersionMysql | pier-core/src/ssh/service_detector.rs:186-190 | The MySQL sample parses to "8.0.35". |
| VersionParsing.ParseVersionRedis | pier-core/src/ssh/service_detector.rs:192-196 | The Redis sample parses to "7.0.11". |
| VersionParsing.ParseVersionDocker | pier-core/src/ssh/service_detector.rs:198-202 | The Docker sample parses to "24.0.5", with the comma removed. |
| VersionParsing.ParseVersionPsql | pier-core/src/ssh/service_detector.rs:204-208 | The PostgreSQL sample parses to "15.4". |
| ServiceDetector.StatusJson | pier-core/src/ssh/service_detector.rs:10-16 | A status serializes as its variant name, lower-cased and quoted. |
| ServiceDetector.StatusJsonInjective | pier-core/src/ssh/service_detector.rs:10-16 | Distinct statuses serialize differently. |
| ServiceDetector.EscapePlain | pier-core/src/ssh/service_detector.rs:18-25 | A string without quotes, backslashes or control characters serializes unescaped. |
| ServiceDetector.ServiceJsonMembers | pier-core/src/ssh/service_detector.rs:18-25 | The JSON object contains each of its four "key":value members. |
| ServiceDetector.DetectedServiceJsonSample | pier-core/src/ssh/service_detector.rs:210-221 | A running service on 3306 serializes with "status":"running" and "port":3306. |
| ServiceDetector.CheckServiceStatus | pier-core/src/ssh/service_detector.rs:148-158 | Running exactly when some probe exits 0 with output containing "active". Otherwise stopped, and never Installed. |
| ServiceDetector.StatusProbes | pier-core/src/ssh/service_detector.rs:149-157 | The probes sent are a prefix of the list, and all but the last report inactive. The answer is Running exactly when the last one reports active. A Stopped answer sent every probe. |
| ServiceDetector.InactiveNeedsExitCode | pier-core/src/ssh/service_detector.rs:151 | Output "inactive" contains "active", so only the exit code separates it from a running service. |
| ServiceDetector.Status | pier-core/src/ssh/service_detector.rs:59-137 | Running exactly when the quick probe succeeds or some status command reports active; never Installed. The quick probe is the Redis ping answering PONG (lines 80-90) or `docker info` succeeding (lines 129-137); MySQL has none (lines 59-62). |
| ServiceDetector.Detect | pier-core/src/ssh/service_detector.rs:49-145 | A service is found exactly when its `which` probe exits 0. |
| ServiceDetector.VersionUnknownWhenProbeFails | pier-core/src/ssh/service_detector.rs:55-56 | A failed `--version` probe gives the version "unknown". |
| ServiceDetector.RedisPongRunning | pier-core/src/ssh/service_detector.rs:81-83 | A PONG answer to ping with exit 0 makes Redis running. |
| ServiceDetector.DockerInfoRunning | pier-core/src/ssh/service_detector.rs:130-132 | A `docker info` that exits 0 makes Docker running. |
| ServiceDetector.DisconnectedDetectsNothing | pier-core/src/ssh/service_detector.rs:51-52 | On a disconnected session no service is found. |
| ServiceDetector.Present | pier-core/src/ssh/service_detector.rs:39-42 | The found services are services of the list whose binaries exist. |
| ServiceDetector.PresentIff | pier-core/src/ssh/service_detector.rs:39-42 | A service is found exactly when it is listed and its binary exists. |
| ServiceDetector.PresentAscending | pier-core/src/ssh/service_detector.rs:39-42 | The found services keep the order of the list. |
| ServiceDetector.FindingsMatchPresent | pier-core/src/ssh/service_detector.rs:39-42 | The detections and the found services line up one to one, in order. |
| ServiceDetector.DetectionOrder | pier-core/src/ssh/service_detector.rs:32-42 | At most four services are found, in the order MySQL, Redis, PostgreSQL, Docker. |
| ServiceDetector.DetectAll | pier-core/src/ssh/service_detector.rs:28-46 | The pushes build exactly the findings of the four detectors in order. |
| ServiceDetector.PushFound | pier-core/src/ssh/service_detector.rs:39-42 | `if let Some(s) = x { push(s) }` appends the value when there is one. |
| ServiceDetector.DetectAllFindings | pier-core/src/ssh/service_detector.rs:28-46 | `detect_all` returns at most four services in fixed order. The i-th is the detection of the i-th service whose binary exists. |
| ServiceDetector.DetectAllDisconnected | pier-core/src/ssh/service_detector.rs:28-46 | On a disconnected session `detect_all` returns nothing. |
| Sftp.DotEntries | pier-core/src/ssh/sftp.rs:49 | The dot-entry test holds exactly for "." and "..". |
| Sftp.EntryPathParts | pier-core/src/ssh/sftp.rs:52 | The entry path is the directory stripped of trailing slashes, one '/', then the name. |
| Sftp.Listed | pier-core/src/ssh/sftp.rs:47-65 | The listing has no "." or ".." entries and no more entries than the server sent. |
| Sftp.ListedSound | pier-core/src/ssh/sftp.rs:47-65 | Every listed entry is built from a server entry other than "." and "..". |
| Sftp.ListedComplete | pier-core/src/ssh/sftp.rs:47-65 | Every server entry other than "." and ".." is listed, with a missing size as 0. |
| Sftp.EntryLeIsTotalPreorder | pier-core/src/ssh/sftp.rs:68-72 | The comparator of `sort_by` is total and transitive. |
| Sftp.CollectEntries | pier-core/src/ssh/sftp.rs:47-65 | The filtering loop builds exactly `Listed`. |
| Sftp.SftpClient.constructor | pier-core/src/ssh/sftp.rs:22-24 | A new client has no session. |
| Sftp.SftpClient.Init | pier-core/src/ssh/sftp.rs:27-35 | The session is kept only when starting it succeeds. A failure is returned and leaves the client as it was. |
| Sftp.SftpClient.ListDir | pier-core/src/ssh/sftp.rs:38-75 | No session gives "SFTP session not initialized", and a failed `read_dir` is returned. Otherwise the result is the listed entries, directories first then by lower-cased name, as a permutation of the listing. |
| Sftp.SftpClient.Download | pier-core/src/ssh/sftp.rs:78-97 | No session gives the "not initialized" error. Otherwise the result is the transfer's outcome. |
| Sftp.SftpClient.Upload | pier-core/src/ssh/sftp.rs:100-119 | No session gives the "not initialized" error. Otherwise the result is the transfer's outcome. |
| Sftp.SftpClient.RemoveFile | pier-core/src/ssh/sftp.rs:122-129 | No session gives the "not initialized" error. Otherwise the result is the server's answer. |
| Sftp.SftpClient.CreateDir | pier-core/src/ssh/sftp.rs:132-139 | No session gives the "not initialized" error. Otherwise the result is the server's answer. |
| Sftp.SftpClient.Pwd | pier-core/src/ssh/sftp.rs:142-149 | No session gives the "not initialized" error. Otherwise the result is the server's canonical ".". |
| Sftp.FreshClientRefuses | pier-core/src/ssh/sftp.rs:22-24 | A new client refuses listing and removal with the "not initialized" error. |
| SshSession.ForwardLifecycle | pier-core/src/ssh/session.rs:182-324 | On a connected session, a forward succeeds, a second one on the same port is refused as already forwarded, the port is listed, a stop succeeds and unlists it, and a second stop fails as no forward. The table ends as it began. |
| SshSession.DisconnectKeepsForwards | pier-core/src/ssh/session.rs:153-172 | Disconnecting twice succeeds twice, leaves the session disconnected and keeps the forwards. |
| Listing.DirsFirstTotal | pier-core/src/search/mod.rs:86-90 | The directories-first order relates any two entries. |
| Listing.DirsFirstTransitive | pier-core/src/search/mod.rs:86-90 | The directories-first order is transitive. |
| Sorting.SortBy | pier-core/src/search/mod.rs:86-90 | For any total preorder the output is sorted and a permutation of the input. |
| Sorting.InsertKeepsSorted | pier-core/src/search/mod.rs:86-90 | Inserting at the first greater element keeps the sequence sorted and adds exactly that element. |
| Search.Matches | pier-core/src/search/mod.rs:36-59 | At most one match per walker item. |
| Search.MatchesAppend | pier-core/src/search/mod.rs:36-59 | Matching distributes over concatenation of the walk. |
| Search.MatchesSound | pier-core/src/search/mod.rs:36-59 | Every match comes from a walker item that was read and whose lower-cased name contains the pattern. |
| Search.MatchesComplete | pier-core/src/search/mod.rs:36-59 | Every readable walker item whose name matches is found. |
| Search.MatchesContainPattern | pier-core/src/search/mod.rs:47 | Every match's lower-cased name contains the lower-cased pattern. |
| Search.SearchStopped | pier-core/src/search/mod.rs:36-39 | Stopping at the end of the walk or at `max_results` matches leaves the first `max_results` matches. |
| Search.SearchFiles | pier-core/src/search/mod.rs:16-62 | A missing root gives no results. Otherwise the results are the first `max_results` matches in walk order, each with the pattern in its lower-cased name. |
| Search.Collected | pier-core/src/search/mod.rs:69-83 | The listing succeeds exactly when no entry or metadata read fails. Then it has one result per entry, built from its metadata. |
| Search.CollectedFirstError | pier-core/src/search/mod.rs:69-71 | The error reported is the first failing entry's. |
| Search.CollectItems | pier-core/src/search/mod.rs:69-83 | The reading loop, which returns at the first error, equals `Collected`. |
| Search.ItemFailsAt | pier-core/src/search/mod.rs:69-71 | A failure after successful entries is the listing's error. |
| Search.ResultLeIsTotalPreorder | pier-core/src/search/mod.rs:86-90 | The comparator of `sort_by` is total and transitive. |
| Search.ListDirectory | pier-core/src/search/mod.rs:65-93 | A failed `read_dir` or entry read is returned. Otherwise the result is directories first then by lower-cased name, a permutation of the entries read. |
| Strings.LowerIdempotent | pier-core/src/search/mod.rs:26 | Lower-casing twice is lower-casing once. |
| Strings.TrimIdempotent | pier-core/src/ssh/session.rs:390 | Trimming twice is trimming once. |
| Strings.TrimPadded | pier-core/src/terminal/emulator.rs:275-281 | A row of text padded with blanks trims back to the text. |
| Strings.JoinContainsPart | pier-core/src/git_graph.rs:138-142 | The joined string contains every part. |
| Strings.NatToStringRoundTrip | pier-core/src/ssh/service_detector.rs:218-220 | The decimal rendering reads back as the number. |
| Strings.NatToStringInjective | pier-core/src/ssh/service_detector.rs:218-220 | Distinct numbers render differently. |
| Strings.StrLeTotal | pier-core/src/git_graph.rs:390 | The byte-wise string order is total. |
| Strings.StrLeTransitive | pier-core/src/git_graph.rs:390 | The byte-wise string order is transitive. |
| Strings.StrLeAntisymmetric | pier-core/src/git_graph.rs:416-417 | The byte-wise string order is antisymmetric. |
| Strings.SplitWhitespaceKeepsText | pier-core/src/ssh/service_detector.rs:169 | The split words, concatenated, are the text without its whitespace. |
| Strings.SplitWhitespaceTakesWord | pier-core/src/ssh/service_detector.rs:169 | A leading word followed by whitespace is the first split word. |
| Strings.FirstLineShape | pier-core/src/ssh/service_detector.rs:179 | The first line is a prefix without '\n'. It is followed by "\n" or "\r\n" when the text has a newline, and is the whole text otherwise. |
| Grids.ResizeRow | pier-core/src/terminal/emulator.rs:71-84 | `Vec::resize` keeps the overlap and fills the rest. |
| Grids.ResizeGrid | pier-core/src/terminal/mod.rs:52-56 | The resized grid has the new shape. It keeps the old cells where both shapes overlap and fills the rest. |
| Grids.GrowThenShrinkRestores | pier-core/src/terminal/mod.rs:52-56 | Growing a grid and shrinking it back restores it. |
| VtScreen.NewScreen | pier-core/src/terminal/emulator.rs:46-56 | A new screen is valid, cursor at the origin, all cells blank. |
| VtScreen.ScrollUp | pier-core/src/terminal/emulator.rs:106-109 | Each row moves up one, the bottom row is blank, and nothing else changes. |
| VtScreen.LineFeedKeepsValid | pier-core/src/terminal/emulator.rs:111-118 | Above the bottom the cursor moves down. At the bottom the screen scrolls. The column is kept. |
| VtScreen.PrintWrites | pier-core/src/terminal/emulator.rs:122-130 | Past the last column the cursor wraps to a new line first. The character lands at the cursor, the cursor advances, and no other cell changes. |
| VtScreen.PrintInRow | pier-core/src/terminal/emulator.rs:122-130 | A print inside the row writes the character and moves one column right. |
| VtScreen.PrintKeepsValid | pier-core/src/terminal/emulator.rs:122-130 | Printing keeps the screen well formed and its size. |
| VtScreen.TabStop | pier-core/src/terminal/emulator.rs:153-156 | A tab goes to the next multiple of 8, capped at the last column. |
| VtScreen.ExecuteMovesColumn | pier-core/src/terminal/emulator.rs:143-156 | CR goes to column 0, BS back one but not below 0, and TAB stays in the row. Only the column changes. |
| VtScreen.ExecuteKeepsValid | pier-core/src/terminal/emulator.rs:132-161 | Control characters keep the screen well formed. |
| VtScreen.Blank | pier-core/src/terminal/emulator.rs:205-260 | Erasing resets exactly the chosen cells and keeps the shape. |
| VtScreen.CsiMovesCursor | pier-core/src/terminal/emulator.rs:178-203 | CUU, CUD, CUF and CUB move by the count, stopping at the edges. CUP (`H` and `f`) goes to the 1-based row and column, each clamped to the screen, a missing or zero parameter counting as 1. No cell changes. |
| VtScreen.CsiKeepsValid | pier-core/src/terminal/emulator.rs:171-265 | Every CSI function keeps the screen well formed and its size. |
| VtScreen.CursorPositionOneBased | pier-core/src/terminal/emulator.rs:198-203 | `ESC[r;cH` puts the cursor at row r-1, column c-1. |
| VtScreen.EraseDisplayAll | pier-core/src/terminal/emulator.rs:229-236 | ED 2 and ED 3 blank every cell and keep the cursor. |
| VtScreen.EraseDisplayBelow | pier-core/src/terminal/emulator.rs:207-217 | ED 0 blanks from the cursor to the end and nothing before it. |
| VtScreen.EraseLineOnlyCursorRow | pier-core/src/terminal/emulator.rs:241-260 | EL touches only the cursor row: from the cursor on, up to the cursor, or all of it. |
| VtScreen.ResizeShape | pier-core/src/terminal/emulator.rs:71-84 | After a resize the grid has the new shape, overlapping cells survive, new cells are blank, and the cursor is inside. |
| VtScreen.LineText | pier-core/src/terminal/emulator.rs:87-93 | A row's text is its characters; past the last row it is "". |
| VtScreen.Step | pier-core/src/terminal/emulator.rs:59-68 | Every action keeps the screen well formed and its size. |
| VtScreen.Run | pier-core/src/terminal/emulator.rs:59-68 | Processing a stream keeps the screen well formed and its size, unless the source would panic. |
| VtScreen.RunAppend | pier-core/src/terminal/emulator.rs:59-68 | Processing two streams is processing one after the other. |
| VtScreen.Prints | pier-core/src/terminal/emulator.rs:59-68 | Plain text is one print action per character. |
| VtScreen.RunPrints | pier-core/src/terminal/emulator.rs:122-130 | Text that fits the row is written at the cursor, with the cursor after it. |
| VtScreen.CrLf | pier-core/src/terminal/emulator.rs:135-145 | CR then LF above the bottom row goes to column 0 of the next row and changes no cell. |
| VtScreen.TrimmedRow | pier-core/src/terminal/emulator.rs:87-93 | A row holding a word padded with blanks reads back, trimmed, as the word. |
| VtScreen.TwoLines | pier-core/src/terminal/emulator.rs:284-289 | Text, CR LF, text writes the two texts on the first two rows. |
| VtScreen.PrintBasic | pier-core/src/terminal/emulator.rs:275-281 | "Hello, Pier!" on a fresh screen reads back from row 0, with the cursor at column 12. |
| VtScreen.NewlineTest | pier-core/src/terminal/emulator.rs:284-289 | "Line1", CR LF, "Line2" reads back as the first two lines. |
| VtScreen.CursorMovementTest | pier-core/src/terminal/emulator.rs:292-297 | `ESC[5;10H` then 'X' writes X at row 4, column 9. |
| VtScreen.ClearScreenTest | pier-core/src/terminal/emulator.rs:300-305 | Text then `ESC[2J` leaves the first line blank. |
| VtScreen.FullRowThenEraseToCursorPanics | pier-core/src/terminal/emulator.rs:218-228 | After filling a row the cursor is at `cols`, where `ESC[1J` and `ESC[1K` would index past the row. |
| Emulator.ErasedIsBlank | pier-core/src/terminal/emulator.rs:205-260 | The erase loops' cell-by-cell result is the specification `Blank`. |
| Emulator.VtEmulator.constructor | pier-core/src/terminal/emulator.rs:46-56 | The emulator starts as the new screen. |
| Emulator.VtEmulator.Resize | pier-core/src/terminal/emulator.rs:71-84 | The new state is the specification resize of the old. |
| Emulator.VtEmulator.GetLineText | pier-core/src/terminal/emulator.rs:87-93 | The text is the row's characters. |
| Emulator.VtEmulator.ScrollUp | pier-core/src/terminal/emulator.rs:106-109 | The new state is the scrolled screen. |
| Emulator.VtEmulator.Newline | pier-core/src/terminal/emulator.rs:111-118 | The new state is the specification newline. |
| Emulator.VtEmulator.Print | pier-core/src/terminal/emulator.rs:122-130 | The new state is the specification print. |
| Emulator.VtEmulator.Execute | pier-core/src/terminal/emulator.rs:132-161 | The new state is the specification control action. |
| Emulator.VtEmulator.EraseRow | pier-core/src/terminal/emulator.rs:241-260 | Resets exactly the given span of one row. |
| Emulator.VtEmulator.EraseRows | pier-core/src/terminal/emulator.rs:205-239 | Resets exactly the given rows. |
| Emulator.VtEmulator.EraseInDisplay | pier-core/src/terminal/emulator.rs:205-239 | The grid becomes the display region blanked, by mode. |
| Emulator.VtEmulator.EraseInLine | pier-core/src/terminal/emulator.rs:241-260 | The grid becomes the line region blanked, by mode. |
| Emulator.VtEmulator.MoveCursor | pier-core/src/terminal/emulator.rs:178-196 | Cursor movement is the specification CSI. |
| Emulator.VtEmulator.MoveTo | pier-core/src/terminal/emulator.rs:198-203 | CUP goes to the 1-based position, clamped. |
| Emulator.VtEmulator.CsiDispatch | pier-core/src/terminal/emulator.rs:171-265 | The new state is the specification CSI; unknown finals change nothing. |
| Emulator.VtEmulator.Process | pier-core/src/terminal/emulator.rs:59-68 | The new state is the specification run of the actions. |
| TerminalSession.Terminal.constructor | pier-core/src/terminal/mod.rs:22-32 | The size is kept, the scrollback is empty, and the screen is a blank grid. |
| TerminalSession.Terminal.Resize | pier-core/src/terminal/mod.rs:48-58 | The size always changes. The screen is resized only when the PTY resize succeeds, and the PTY's outcome is returned. |
| TerminalSession.Terminal.Write | pier-core/src/terminal/mod.rs:61-63 | The PTY write's outcome is returned. |
| TerminalSession.Terminal.Read | pier-core/src/terminal/mod.rs:67-69 | The PTY read's outcome is returned. |
| TerminalSession.NewSession | pier-core/src/terminal/mod.rs:22-45 | A failed spawn is returned. Otherwise the result is a new terminal of the requested size with a blank screen and empty scrollback. |

## Left out

- The `vte` byte parser is not part of this model. The emulator takes the parser's callbacks as a sequence of actions (print, control, CSI). OSC, ESC, DCS and CSI intermediates are ignored, as in the source.
- Lower-casing and whitespace are ASCII only.
  - Rust's `to_lowercase` and `split_whitespace` also handle non-ASCII characters; those are not modelled.
  - Lossy UTF-8 decoding maps each non-ASCII byte to U+FFFD. Multi-byte sequences are not decoded.
- Async execution is modelled sequentially: tokio, `join!`, locks, `Arc`/`Mutex`.
  - The four detectors run one after another. Their results do not depend on the order.
  - The 60-second and 10-second timeouts of `exec_command` are a `WaitTimedOut` event in the channel's sequence.
- External systems are parameters of the model:
  - the SSH transport, the russh handshake and the server's answers;
  - the `known_hosts` file;
  - libgit2's revision walk, refs, diffs and tree walk;
  - the PTY;
  - the file system, file types and metadata;
  - the `ignore` crate's walker (gitignore rules, hidden files, depth 10), which becomes its item sequence;
  - the clock.
- The SFTP transfer contents and local file I/O are outcomes. Only the guard and the result are modelled.
- `open_shell` and the forward relay (`handle_forward_connection`, the accept loop and the data copy) are not part of this model. Only the forward map and its cancel signals are.
- `pty.rs`, `ffi.rs`, `lib.rs`, the crypto module, `build.rs` and the C header are not part of this model.
- `new_with_command` behaves as `new` once the PTY is spawned. `TerminalSession.NewSession` covers both.
- Opening the repository, creating the revision walk and resolving `first_parent_chain`'s starting ref are done by libgit2. Their outcome is the walk given to the model, and the "Failed to open repo" errors are not modelled.
- The unused `_tool` parameter of `parse_version` is dropped.
- Logging is left out.
- GitTime.AgeOf: the i64 subtraction of the commit time from now is taken on unbounded integers. Overflow on extreme timestamps is not modelled.
- GitGraph.GraphLog: one clock reading `now` serves the whole log, whereas the source reads the system clock again for every entry it formats. The model ages every entry against the same instant.
- Sorting.SortBy: Rust's `sort_by` is stable. The model proves sortedness and permutation, but not stability.
- GitQueries.SetToSeq: the order of a `HashSet`'s iteration is unspecified. The model picks any order, and only the sort after it fixes the result.
- SshSession.Handshake: the key exchange and authentication exchanges are one reply, accepted, rejected or a protocol error. Key-file loading is one flag.
- SshSession.CheckServerKey: russh's `check_known_hosts` is not part of this model, so its answer is an input. `SshSession.CommentedAnswer` reads `Ok(true)` as a matching remembered key, `Ok(false)` as a different remembered key, and an error as an unknown host, as the handler's comments say; this reading is assumed, not derived from the library. Should the library report a changed key as an error, the handler would accept and record it, which `SshSession.ErrorAnswerTrustsAnyKey` states.
- Panics become preconditions of the methods, which callers must meet. These are indexing past a row, and the `usize` subtraction in `cols - 1` / `rows - 1` for a zero-sized screen, which panics in debug builds (overflow-checked) and wraps in release builds. `VtScreen.FullRowThenEraseToCursorPanics` shows that an index past the row is reachable.
- Cell colours, bold and underline are carried in every cell but only ever hold their defaults, because no SGR sequence is handled.
