/**
 Torrent folder to client: how a torrent is mapped onto files still standing under their original
 names (`map_seed_side`), what the executor checks again before adding it, and that the two agree.
 */
module SeedSide {
  import opened Basics
  import opened Candidates
  import opened SeedJobs
  import opened Executor
  import opened Layouts

  // ---------------------------------------------------------------- strings

  predicate EndsWith(s: string, suffix: string) {
    |suffix| <= |s| && s[|s| - |suffix|..] == suffix
  }

  /** `s[: -len(suffix)]`: everything but the suffix, except that an empty suffix leaves nothing. */
  function Head(s: string, suffix: string): string
    requires |suffix| <= |s|
  {
    if suffix == "" then "" else s[..|s| - |suffix|]
  }

  /** `s.rstrip("/")` */
  function RStrip(s: string): (r: string)
    ensures r <= s
  {
    if s != "" && s[|s| - 1] == '/' then RStrip(s[..|s| - 1]) else s
  }

  // ---------------------------------------------------------------- mapping

  type PathIndex = map<(nat, string), nat>

  /** The index over the rows: one entry for each row, under its disk and path (both are unique together). */
  ghost predicate Indexes(index: PathIndex, rows: Rows) {
    && (forall key :: key in index ==>
          index[key] in rows && rows[index[key]].diskId == key.0 && rows[index[key]].relativePath == key.1)
    && (forall id :: id in rows ==>
          (rows[id].diskId, rows[id].relativePath) in index && index[(rows[id].diskId, rows[id].relativePath)] == id)
  }

  /** The anchor can be file `lf` of the torrent, and this is the root it then implies. */
  function RootFrom(layout: Layout, lf: LayoutFile, anchor: LocalRow): Option<string> {
    var suffix := lf.FullPath(layout.folder);
    if EndsWith(anchor.relativePath, suffix) && (lf.size.None? || lf.size.value == anchor.size) then
      var head := Head(anchor.relativePath, suffix);
      if head == "" || head[|head| - 1] == '/' then Some(head) else None
    else None
  }

  /** The first file that gives a root decides. */
  function RootOf(layout: Layout, files: seq<LayoutFile>, anchor: LocalRow): (r: Option<string>)
    ensures r.Some? ==> exists lf :: lf in files && RootFrom(layout, lf, anchor) == r
    ensures r.None? ==> forall lf :: lf in files ==> RootFrom(layout, lf, anchor).None?
  {
    if files == [] then None
    else if RootFrom(layout, files[0], anchor).Some? then
      assert files[0] in files;
      RootFrom(layout, files[0], anchor)
    else
      assert forall lf :: lf in files <==> lf == files[0] || lf in files[1..];
      RootOf(layout, files[1..], anchor)
  }

  lemma NextFile(layout: Layout, i: nat, anchor: LocalRow)
    requires i < |layout.files|
    ensures RootOf(layout, layout.files[i..], anchor) ==
            if RootFrom(layout, layout.files[i], anchor).Some? then RootFrom(layout, layout.files[i], anchor)
            else RootOf(layout, layout.files[i + 1..], anchor)
  {
    hide RootFrom;
    assert layout.files[i..][0] == layout.files[i] && layout.files[i..][1..] == layout.files[i + 1..];
  }

  /** The loop that stops at the first file giving a root. */
  method FindRoot(layout: Layout, anchor: LocalRow) returns (root: Option<string>)
    ensures root == RootOf(layout, layout.files, anchor)
  {
    hide RootOf;
    assert layout.files[0..] == layout.files;
    for i := 0 to |layout.files|
      invariant RootOf(layout, layout.files, anchor) == RootOf(layout, layout.files[i..], anchor)
    {
      var lf := layout.files[i];
      NextFile(layout, i, anchor);
      var suffix := lf.FullPath(layout.folder);
      if EndsWith(anchor.relativePath, suffix) && (lf.size.None? || lf.size.value == anchor.size) {
        var head := Head(anchor.relativePath, suffix);
        if head == "" || head[|head| - 1] == '/' {
          return Some(head);
        }
      }
    }
    NoFile(layout, anchor);
    return None;
  }

  lemma NoFile(layout: Layout, anchor: LocalRow)
    ensures RootOf(layout, layout.files[|layout.files|..], anchor).None?
  {
  }

  /** `map_seed_side`: the id of the row found for each file of the torrent, in torrent order. */
  method MapSeedSide(layout: Layout, anchor: LocalRow, index: PathIndex) returns (found: seq<Option<nat>>)
    ensures |found| == |layout.files|
    ensures var root := RootOf(layout, layout.files, anchor);
            forall k :: 0 <= k < |found| ==>
              found[k] == if root.None? then None else Lookup(layout, k, root.value, anchor, index)
  {
    var root := FindRoot(layout, anchor);
    found := [];
    for k := 0 to |layout.files|
      invariant |found| == k
      invariant forall j :: 0 <= j < k ==>
                  found[j] == if root.None? then None else Lookup(layout, j, root.value, anchor, index)
    {
      found := found + [if root.None? then None else Lookup(layout, k, root.value, anchor, index)];
    }
  }

  function Lookup(layout: Layout, k: nat, root: string, anchor: LocalRow, index: PathIndex): Option<nat>
    requires k < |layout.files|
  {
    var key := (anchor.diskId, root + layout.files[k].FullPath(layout.folder));
    if key in index then Some(index[key]) else None
  }

  // ---------------------------------------------------------------- the executor's second look

  /** The first row of the candidate that is the anchor. */
  function AnchorRow(files: seq<CandidateFile>, anchorId: nat): (r: Option<nat>)
    ensures r.Some? ==> r.value < |files| && files[r.value].seedFile == Some(anchorId)
    ensures r.None? ==> forall f :: f in files ==> f.seedFile != Some(anchorId)
  {
    if files == [] then None
    else if files[0].seedFile == Some(anchorId) then Some(0)
    else
      assert forall f :: f in files <==> f == files[0] || f in files[1..];
      match AnchorRow(files[1..], anchorId)
      case None => None
      case Some(k) => Some(k + 1)
  }

  function Expected(c: Candidate, f: CandidateFile, rootRel: string): string {
    if rootRel != "" then rootRel + "/" + RelPath(c.folder, f.torrentPath) else RelPath(c.folder, f.torrentPath)
  }

  predicate HasSeedRow(f: CandidateFile, rows: Rows) {
    f.seedFile.Some? && f.seedFile.value in rows
  }

  /** The matched row stands where the torrent expects it, on the anchor's disk. */
  predicate InPlace(c: Candidate, f: CandidateFile, rows: Rows, rootRel: string, diskId: nat) {
    HasSeedRow(f, rows) ==>
      rows[f.seedFile.value].diskId == diskId && rows[f.seedFile.value].relativePath == Expected(c, f, rootRel)
  }

  predicate OnDisk(f: CandidateFile, rows: Rows, disk: DiskRow, fs: FileSystem)
    reads fs
  {
    HasSeedRow(f, rows) ==> Join(disk.root, rows[f.seedFile.value].relativePath) in fs.names
  }

  /** The root the executor rebuilds from the anchor's own row. */
  function RebuiltRoot(c: Candidate, anchorId: nat, rows: Rows): Option<string>
    requires anchorId in rows
  {
    match AnchorRow(c.files, anchorId)
    case None => None
    case Some(k) =>
      var suffix := RelPath(c.folder, c.files[k].torrentPath);
      if EndsWith(rows[anchorId].relativePath, suffix) then
        Some(RStrip(Head(rows[anchorId].relativePath, suffix)))
      else None
  }

  /** The location checks of `_execute_layout_torrent_to_client`: the save path, relative to the disk. */
  method LocateOnDisk(c: Candidate, anchorId: nat, rows: Rows, disk: DiskRow, fs: FileSystem)
    returns (r: Attempt<string>)
    requires anchorId in rows && rows[anchorId].diskId == disk.id
    ensures r.Ok? <==>
              && RebuiltRoot(c, anchorId, rows).Some?
              && forall f :: f in c.files ==>
                   InPlace(c, f, rows, RebuiltRoot(c, anchorId, rows).value, disk.id) && OnDisk(f, rows, disk, fs)
    ensures r.Ok? ==> Some(r.value) == RebuiltRoot(c, anchorId, rows)
    ensures r.Err? ==> r.error !in {RolledBack, AfterAdd}
  {
    var k := AnchorRow(c.files, anchorId);
    if k.None? {
      return Err(NotInCandidate);
    }
    var path := rows[anchorId].relativePath;
    var suffix := RelPath(c.folder, c.files[k.value].torrentPath);
    if !EndsWith(path, suffix) {
      return Err(NotASuffix);
    }
    var rootRel := RStrip(Head(path, suffix));
    for i := 0 to |c.files|
      invariant forall j :: 0 <= j < i ==>
                  InPlace(c, c.files[j], rows, rootRel, disk.id) && OnDisk(c.files[j], rows, disk, fs)
    {
      var f := c.files[i];
      assert f in c.files;
      if HasSeedRow(f, rows) {
        var row := rows[f.seedFile.value];
        if row.diskId != disk.id || row.relativePath != Expected(c, f, rootRel) {
          return Err(WrongPlace(row.relativePath));
        }
        if Join(disk.root, row.relativePath) !in fs.names {
          return Err(SourceMissing(row.relativePath));
        }
      }
    }
    return Ok(rootRel);
  }

  /** Everything that is checked before the job row is written. */
  predicate Addable(c: Candidate, anchorId: Option<nat>, rows: Rows, disk: DiskRow, fs: FileSystem)
    requires anchorId.Some? ==> anchorId.value in rows
    reads fs
  {
    && anchorId.Some? && Executor.StructureError(c).None? && Given(c.downloadLink)
    && RebuiltRoot(c, anchorId.value, rows).Some?
    && var root := RebuiltRoot(c, anchorId.value, rows).value;
    && (forall f :: f in c.files ==> InPlace(c, f, rows, root, disk.id) && OnDisk(f, rows, disk, fs))
    && (root != "" ==> fs.world.resolve(disk.root, root).Some?)
  }

  /**
   `_execute_layout_torrent_to_client`: adds the torrent where its files already are. No path is
   created, changed or removed on any way out (the file system is not in the frame).
   */
  method ExecuteTorrentToClient(c: Candidate, anchorId: Option<nat>, rows: Rows, disk: DiskRow, fs: FileSystem)
    returns (error: Option<Error>, job: SeedJob?, savePath: string)
    requires anchorId.Some? ==> anchorId.value in rows && rows[anchorId.value].diskId == disk.id
    ensures error in {None, Some(RolledBack), Some(AfterAdd)}
        <==> Addable(c, anchorId, rows, disk, fs) && !fs.world.commitFails(0)
    ensures error in {None, Some(RolledBack), Some(AfterAdd)} ==>
              && var root := RebuiltRoot(c, anchorId.value, rows).value;
              && Some(savePath) == (if root == "" then Some(disk.root) else fs.world.resolve(disk.root, root))
              && (error != Some(RolledBack) <==> fs.world.added.Some?)
              && (error.None? <==> fs.world.added.Some? && !fs.world.commitFails(1))
    ensures error in {None, Some(RolledBack), Some(AfterAdd)} ==>
              && job != null && fresh(job) && job.expectedMissing == Some(MissingBytesFor(c))
              && job.finalStatus == (if error.None? then InProgress else Broken)
              && job.infoHash == (if error == Some(RolledBack) then None else fs.world.added)
    ensures error !in {None, Some(RolledBack), Some(AfterAdd)} ==> job == null
  {
    error, job, savePath := None, null, disk.root;
    if anchorId.None? {
      return Some(NoLinkedFile), job, savePath;
    }
    var problem := StructureError(c);
    if problem.Some? {
      return problem, job, savePath;
    }
    if !Given(c.downloadLink) {
      return Some(NoDownloadLink), job, savePath;
    }
    var root := LocateOnDisk(c, anchorId.value, rows, disk, fs);
    if root.Err? {
      return Some(root.error), job, savePath;
    }
    if root.value != "" {
      var scoped := fs.world.resolve(disk.root, root.value);
      if scoped.None? {
        return Some(OutsideScope), job, savePath;
      }
      savePath := scoped.value;
    }
    if fs.world.commitFails(0) {
      return Some(CommitFailed), job, savePath;
    }
    job := new SeedJob(Some(MissingBytesFor(c)));
    if fs.world.added.None? {
      error := Some(RolledBack);
    } else {
      job.infoHash := fs.world.added;
      job.recheck := Some(Pending);
      if fs.world.commitFails(1) {
        error := Some(AfterAdd);
      }
    }
    if error.Some? {
      job.finalStatus := Broken;
      job.error := Some("execution failed");
    }
  }

  // ---------------------------------------------------------------- agreement

  /** The candidate that `_persist` writes from a mapping. */
  ghost predicate PersistedFrom(c: Candidate, layout: Layout, found: seq<Option<nat>>) {
    && c.folder == layout.folder && |c.files| == |layout.files| == |found|
    && forall k :: 0 <= k < |c.files| ==>
         && c.files[k].torrentPath == layout.files[k].path
         && c.files[k].seedFile == found[k]
  }

  ghost predicate MappedFrom(found: seq<Option<nat>>, layout: Layout, root: string, anchor: LocalRow,
                             index: PathIndex)
  {
    && |found| == |layout.files|
    && forall k :: 0 <= k < |found| ==> found[k] == Lookup(layout, k, root, anchor, index)
  }

  /** A root that is empty or ends in exactly one slash after something else. */
  predicate Normal(root: string) {
    root == "" || (|root| >= 2 && root[|root| - 1] == '/' && root[|root| - 2] != '/')
  }

  lemma RStripOfNormal(root: string)
    requires Normal(root)
    ensures if root == "" then RStrip(root) == "" else RStrip(root) != "" && root == RStrip(root) + "/"
  {
    if root != "" {
      var r := root[..|root| - 1];
      assert r[|r| - 1] == root[|root| - 2];
      assert RStrip(r) == r;
    }
  }

  lemma {:induction false} RStripEnds(s: string)
    ensures RStrip(s) == "" || RStrip(s)[|RStrip(s)| - 1] != '/'
  {
    if s != "" && s[|s| - 1] == '/' {
      RStripEnds(s[..|s| - 1]);
    }
  }

  lemma SplitAt(root: string, suffix: string)
    requires suffix != ""
    ensures EndsWith(root + suffix, suffix) && Head(root + suffix, suffix) == root
  {
  }

  /** The row that decides the root is itself found, so the anchor is among the matches. */
  lemma AnchorIsFound(layout: Layout, root: string, anchorId: nat, rows: Rows, index: PathIndex, k: nat)
    requires Indexes(index, rows) && anchorId in rows && k < |layout.files|
    requires layout.files[k].FullPath(layout.folder) != ""
    requires RootFrom(layout, layout.files[k], rows[anchorId]) == Some(root)
    ensures Lookup(layout, k, root, rows[anchorId], index) == Some(anchorId)
  {
    var path, suffix := rows[anchorId].relativePath, layout.files[k].FullPath(layout.folder);
    assert path == root + suffix;
  }

  /** The mapping of a torrent with a root, stored as it is, with the rows unchanged since. */
  ghost predicate Stored(layout: Layout, anchorId: nat, rows: Rows, index: PathIndex, root: string,
                         found: seq<Option<nat>>, c: Candidate)
  {
    && Indexes(index, rows) && anchorId in rows
    && (forall lf :: lf in layout.files ==> lf.FullPath(layout.folder) != "")
    && RootOf(layout, layout.files, rows[anchorId]) == Some(root)
    && MappedFrom(found, layout, root, rows[anchorId], index) && PersistedFrom(c, layout, found)
  }

  /** The executor finds the anchor among the rows and takes the mapped root from it. */
  lemma RootIsRebuilt(layout: Layout, anchorId: nat, rows: Rows, index: PathIndex, root: string,
                      found: seq<Option<nat>>, c: Candidate)
    requires Stored(layout, anchorId, rows, index, root, found, c)
    ensures RebuiltRoot(c, anchorId, rows) == Some(RStrip(root))
    ensures exists k: nat :: k < |c.files| && c.files[k].seedFile == Some(anchorId)
  {
    hide RStrip, RootOf, Indexes, Lookup, RootFrom, EndsWith, Head;
    var lf :| lf in layout.files && RootFrom(layout, lf, rows[anchorId]) == Some(root);
    var k0: nat :| k0 < |layout.files| && layout.files[k0] == lf;
    AnchorIsFound(layout, root, anchorId, rows, index, k0);
    assert c.files[k0].seedFile == Some(anchorId) && c.files[k0] in c.files;
    var k := AnchorRow(c.files, anchorId).value;
    MatchedPath(layout, anchorId, rows, index, root, k, anchorId);
    assert layout.files[k] in layout.files;
    SplitAt(root, layout.files[k].FullPath(layout.folder));
  }

  lemma ExpectedPath(layout: Layout, anchorId: nat, rows: Rows, index: PathIndex, root: string,
                     found: seq<Option<nat>>, c: Candidate, k: nat)
    requires Stored(layout, anchorId, rows, index, root, found, c) && k < |c.files|
    requires Normal(root)
    ensures InPlace(c, c.files[k], rows, RStrip(root), rows[anchorId].diskId)
  {
    hide RStrip, RootOf, Indexes, Lookup, Normal;
    RStripOfNormal(root);
    if HasSeedRow(c.files[k], rows) {
      MatchedPath(layout, anchorId, rows, index, root, k, c.files[k].seedFile.value);
    }
  }

  lemma MisplacedAnchor(layout: Layout, anchorId: nat, rows: Rows, index: PathIndex, root: string,
                        found: seq<Option<nat>>, c: Candidate, k: nat)
    requires Stored(layout, anchorId, rows, index, root, found, c) && k < |c.files|
    requires !Normal(root) && c.files[k].seedFile == Some(anchorId)
    ensures !InPlace(c, c.files[k], rows, RStrip(root), rows[anchorId].diskId)
  {
    hide RStrip, RootOf, Indexes, Lookup, Normal;
    RStripEnds(root);
    MatchedPath(layout, anchorId, rows, index, root, k, anchorId);
    AbnormalRoot(root, layout.files[k].FullPath(layout.folder));
  }

  /**
   Planner and executor agree. For a mapping with a root, stored as it is and with the rows unchanged,
   the executor rebuilds the root, and its suffix and location checks accept every matched file if and
   only if the root is normal; the rebuilt root then is the mapped one without its slash.
   */
  lemma ExecutorAgreesWithMapping(layout: Layout, anchorId: nat, rows: Rows, index: PathIndex, root: string,
                                  found: seq<Option<nat>>, c: Candidate)
    requires Stored(layout, anchorId, rows, index, root, found, c)
    ensures RebuiltRoot(c, anchorId, rows) == Some(RStrip(root))
    ensures Normal(root)
       <==> forall k :: 0 <= k < |c.files| ==> InPlace(c, c.files[k], rows, RStrip(root), rows[anchorId].diskId)
    ensures Normal(root) ==> root == if RStrip(root) == "" then "" else RStrip(root) + "/"
  {
    hide RStrip, Normal, InPlace, RebuiltRoot, Indexes, RootOf, MappedFrom;
    RootIsRebuilt(layout, anchorId, rows, index, root, found, c);
    if Normal(root) {
      RStripOfNormal(root);
      forall k | 0 <= k < |c.files| ensures InPlace(c, c.files[k], rows, RStrip(root), rows[anchorId].diskId) {
        ExpectedPath(layout, anchorId, rows, index, root, found, c, k);
      }
    } else {
      var k: nat :| k < |c.files| && c.files[k].seedFile == Some(anchorId);
      MisplacedAnchor(layout, anchorId, rows, index, root, found, c, k);
    }
  }

  lemma MatchedPath(layout: Layout, anchorId: nat, rows: Rows, index: PathIndex, root: string, k: nat, id: nat)
    requires Indexes(index, rows) && anchorId in rows && k < |layout.files|
    requires Lookup(layout, k, root, rows[anchorId], index) == Some(id)
    ensures id in rows && rows[id].diskId == rows[anchorId].diskId
    ensures rows[id].relativePath == root + layout.files[k].FullPath(layout.folder)
  {
  }

  /** A root such as `/` or `a//` is not rebuilt: the expected path of the anchor itself differs. */
  lemma AbnormalRoot(root: string, suffix: string)
    requires !Normal(root)
    requires RStrip(root) == "" || RStrip(root)[|RStrip(root)| - 1] != '/'
    ensures root + suffix != if RStrip(root) != "" then RStrip(root) + "/" + suffix else suffix
  {
    var r := RStrip(root);
    assert |root + suffix| == |root| + |suffix|;
    assert |r + "/" + suffix| == |r| + 1 + |suffix|;
  }

  /** Relative paths with no leading and no double slash only give normal roots. */
  lemma NormalPathsGiveNormalRoots(layout: Layout, anchor: LocalRow, root: string)
    requires RootOf(layout, layout.files, anchor) == Some(root)
    requires forall lf :: lf in layout.files ==> lf.FullPath(layout.folder) != ""
    requires anchor.relativePath == "" || anchor.relativePath[0] != '/'
    requires forall i :: 0 <= i < |anchor.relativePath| - 1 ==>
               !(anchor.relativePath[i] == '/' && anchor.relativePath[i + 1] == '/')
    ensures Normal(root)
  {
    var lf :| lf in layout.files && RootFrom(layout, lf, anchor) == Some(root);
    if root != "" {
      assert root[0] == anchor.relativePath[0];
      if |root| >= 2 {
        assert root[|root| - 2] == anchor.relativePath[|root| - 2];
        assert root[|root| - 1] == anchor.relativePath[|root| - 2 + 1];
      }
    }
  }

  /**
   A file standing at `/a` for a torrent of the single file `a`: it is mapped with the root `/`, and the executor
   refuses it. Scanned paths are relative and never begin with a slash.
   */
  lemma AbnormalRootIsRefused(size: int)
    ensures var row := LocalRow(1, "/a", size);
      var rows, index := map[7 := row], map[(1, "/a") := 7];
      var layout := Layout(None, [LayoutFile("a", Some(size), true)], None);
      var c := Candidate([CandidateFile("a", Some(size), true, None, Some(7))], None, None, None, TorrentToClient);
      && Stored(layout, 7, rows, index, "/", [Some(7)], c) && !Normal("/")
      && !InPlace(c, c.files[0], rows, RStrip("/"), 1)
  {
    var row := LocalRow(1, "/a", size);
    var rows, index := map[7 := row], map[(1, "/a") := 7];
    var layout := Layout(None, [LayoutFile("a", Some(size), true)], None);
    var c := Candidate([CandidateFile("a", Some(size), true, None, Some(7))], None, None, None, TorrentToClient);
    assert layout.files[0].FullPath(None) == "a" && "/a"[1..] == "a" && "/a"[..1] == "/" && "/" + "a" == "/a";
    assert RootFrom(layout, layout.files[0], row) == Some("/");
    assert RStrip("") == "" && RStrip("/") == "";
    assert Expected(c, c.files[0], "") == "a" != "/a";
  }
}
