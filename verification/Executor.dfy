/**
 The executor of app/executor.py for candidates with file rows. Library to torrent folder: check
 everything, link file by file, add to the client, and on any failure remove what this call created.
 Torrent folder to client: only check that every matched file stands where the torrent expects it.
 */
module Executor {
  import opened Basics
  import opened Candidates
  import opened SeedJobs

  /** A row of `media_file` or `seed_file`. */
  datatype LocalRow = LocalRow(diskId: nat, relativePath: string, size: int)

  type Rows = map<nat, LocalRow>

  datatype DiskRow = DiskRow(
    id: nat, root: string, torrentsRelPath: Option<string>, newTorrentRelPath: Option<string>)
  {
    /** `effective_new_torrent_rel_path` */
    function TargetRelPath(): Option<string> {
      if Given(newTorrentRelPath) then newTorrentRelPath else torrentsRelPath
    }
  }

  /**
   What the operating system and the services decide. `resolve` is `resolve_scoped` (None: outside
   the scope), `added` the info hash the client returns (None: it raised), `commitFails(k)` says
   whether the k-th commit of the call raises.
   */
  datatype World = World(
    resolve: (string, string) -> Option<string>, isDir: string -> bool, sameDevice: (string, string) -> bool,
    dirFails: string -> bool, linkFails: (string, string) -> bool, unlinkFails: string -> bool,
    commitFails: nat -> bool, added: Option<string>)

  datatype Error =
    | NoLinkedFile | UnknownFolder | VideoMissing(path: string) | NoTorrentsPath | OutsideScope | NoTargetFolder
    | OtherDisk(path: string) | SourceMissing(path: string) | TargetExists(path: string) | OtherDevice
    | NoDownloadLink | CommitFailed | NotInCandidate | NotASuffix | WrongPlace(path: string) | RolledBack | AfterAdd

  type Attempt<+T> = Result<T, Error>

  type Names = map<string, nat>

  // ---------------------------------------------------------------- the file system

  /** Which inode each path names, and every path ever unlinked. Directories are not modelled. */
  class FileSystem {
    var names: Names
    var removed: set<string>
    const world: World

    constructor (names: Names, world: World)
      ensures this.names == names && removed == {} && this.world == world
    {
      this.names, this.world, removed := names, world, {};
    }

    /** `os.makedirs` of the parent, then `os.link`. */
    method Link(source: string, target: string) returns (ok: bool)
      modifies this
      ensures ok <==> CanLink(old(names), source, target, world)
      ensures names == if ok then old(names)[target := old(names)[source]] else old(names)
      ensures removed == old(removed)
    {
      ok := CanLink(names, source, target, world);
      if ok {
        names := names[target := names[source]];
      }
    }

    /** `os.unlink`, its failure swallowed. */
    method Unlink(path: string)
      modifies this
      ensures names == if world.unlinkFails(path) then old(names) else old(names) - {path}
      ensures removed == if world.unlinkFails(path) then old(removed) else old(removed) + {path}
    {
      if !world.unlinkFails(path) {
        names := names - {path};
        removed := removed + {path};
      }
    }
  }

  predicate CanLink(names: Names, source: string, target: string, world: World) {
    !world.dirFails(target) && !world.linkFails(source, target) && source in names && target !in names
  }

  // ---------------------------------------------------------------- meaning of linking and rolling back

  /** How many links of the plan are made before the first that cannot be. */
  function Linked(names: Names, links: seq<(string, string)>, world: World): (n: nat)
    ensures n <= |links|
    decreases |links|
  {
    if links == [] || !CanLink(names, links[0].0, links[0].1, world) then 0
    else 1 + Linked(names[links[0].1 := names[links[0].0]], links[1..], world)
  }

  function Targets(links: seq<(string, string)>): (r: seq<string>)
    ensures |r| == |links| && forall k :: 0 <= k < |links| ==> r[k] == links[k].1
  {
    seq(|links|, k requires 0 <= k < |links| => links[k].1)
  }

  /** The planned links and nothing else: every target names its source's inode, the rest is as before. */
  ghost predicate LinkedExactly(before: Names, links: seq<(string, string)>, after: Names) {
    && (forall p :: p in after <==> p in before || p in Targets(links))
    && (forall p :: p in before ==> p in after && after[p] == before[p])
    && (forall k :: 0 <= k < |links| ==>
          links[k].0 in before && links[k].1 in after && after[links[k].1] == before[links[k].0])
  }

  /** A plan whose sources exist and whose targets do not: what the checks before the first link leave. */
  predicate Plannable(names: Names, links: seq<(string, string)>) {
    forall k :: 0 <= k < |links| ==> links[k].0 in names && links[k].1 !in names
  }

  predicate Distinct(s: seq<string>) {
    forall a, b :: 0 <= a < b < |s| ==> s[a] != s[b]
  }

  /** The state left by a failed call: only created paths whose removal failed remain. */
  ghost predicate Undone(before: Names, created: seq<string>, world: World, after: Names) {
    && (forall p :: p in after <==> p in before || (p in created && world.unlinkFails(p)))
    && (forall p :: p in before ==> p in after && after[p] == before[p])
  }

  /** When every removal works, the file set is the initial one. */
  lemma UndoneIsInitial(before: Names, created: seq<string>, world: World, after: Names)
    requires Undone(before, created, world, after)
    requires forall p :: p in created ==> !world.unlinkFails(p)
    ensures after == before
  {
    assert forall p :: p in after <==> p in before;
  }

  /** The whole plan is linked exactly when no operation fails and no two rows want the same path. */
  lemma {:induction false} AllLinkedIff(names: Names, links: seq<(string, string)>, world: World)
    requires Plannable(names, links)
    ensures Linked(names, links, world) == |links|
       <==> && Distinct(Targets(links))
            && forall k :: 0 <= k < |links| ==> !world.dirFails(links[k].1) && !world.linkFails(links[k].0, links[k].1)
    decreases |links|
  {
    if links != [] {
      var (source, target) := links[0];
      var rest, more := links[1..], names[links[0].1 := names[links[0].0]];
      assert forall k :: 0 <= k < |rest| ==> rest[k] == links[k + 1] && Targets(rest)[k] == Targets(links)[k + 1];
      if CanLink(names, source, target, world) {
        if target in Targets(rest) {
          var k :| 0 <= k < |rest| && rest[k].1 == target;
          StopsAtCollision(more, rest, world, k);
          assert Targets(links)[0] == Targets(links)[k + 1];
        } else {
          AllLinkedIff(more, rest, world);
          DistinctCons(Targets(links));
          assert Targets(links)[1..] == Targets(rest);
        }
      }
    }
  }

  lemma DistinctCons(s: seq<string>)
    requires s != []
    ensures Distinct(s) <==> s[0] !in s[1..] && Distinct(s[1..])
  {
    if s[0] !in s[1..] && Distinct(s[1..]) {
      forall a, b | 0 <= a < b < |s| ensures s[a] != s[b] {
        assert s[b] == s[1..][b - 1];
        assert a > 0 ==> s[a] == s[1..][a - 1];
      }
    }
    if Distinct(s) {
      assert forall k :: 0 <= k < |s| - 1 ==> s[1..][k] == s[k + 1];
    }
  }

  /** A link whose target is already a name is never made. */
  lemma {:induction false} StopsAtCollision(names: Names, links: seq<(string, string)>, world: World, k: nat)
    requires k < |links| && links[k].1 in names
    ensures Linked(names, links, world) <= k
    decreases |links|
  {
    if k > 0 && CanLink(names, links[0].0, links[0].1, world) {
      StopsAtCollision(names[links[0].1 := names[links[0].0]], links[1..], world, k - 1);
    }
  }

  // ---------------------------------------------------------------- library to torrent folder

  /** `_require_known_structure` and `_require_every_video` */
  function StructureError(c: Candidate): (e: Option<Error>)
    ensures e == Some(UnknownFolder) <==> |c.files| > 1 && !Given(c.folder)
    ensures e.None? <==> (|c.files| <= 1 || Given(c.folder)) && forall f :: f in c.files && f.isVideo ==> f.HasLocal()
    ensures e.Some? && e.value != UnknownFolder ==> exists k :: LacksFileFirst(c.files, k, e.value)
  {
    if |c.files| > 1 && !Given(c.folder) then Some(UnknownFolder) else FirstMissingVideo(c.files)
  }

  /** Row `k` is the first video without a local file, and the error names it. */
  predicate LacksFileFirst(files: seq<CandidateFile>, k: int, e: Error) {
    && 0 <= k < |files| && files[k].isVideo && !files[k].HasLocal() && e == VideoMissing(files[k].torrentPath)
    && forall j :: 0 <= j < k ==> files[j].isVideo ==> files[j].HasLocal()
  }

  function FirstMissingVideo(files: seq<CandidateFile>): (e: Option<Error>)
    ensures e.None? <==> forall f :: f in files && f.isVideo ==> f.HasLocal()
    ensures e.Some? ==> e.value.VideoMissing? && exists k :: LacksFileFirst(files, k, e.value)
  {
    if files == [] then None
    else if files[0].isVideo && !files[0].HasLocal() then
      assert files[0] in files && LacksFileFirst(files, 0, VideoMissing(files[0].torrentPath));
      Some(VideoMissing(files[0].torrentPath))
    else
      assert forall f :: f in files <==> f == files[0] || f in files[1..];
      assert forall k, e :: LacksFileFirst(files[1..], k, e) ==> LacksFileFirst(files, k + 1, e);
      FirstMissingVideo(files[1..])
  }

  function Join(root: string, rel: string): string {
    root + "/" + rel
  }

  /** One row of the plan: its check, in the order of the source. */
  function LinkOf(c: Candidate, f: CandidateFile, row: LocalRow, disk: DiskRow, root: string, names: Names,
                  world: World)
    : (r: Attempt<(string, string)>)
    ensures r.Ok? ==> r.value.0 in names && r.value.1 !in names && !world.isDir(r.value.1)
    ensures r.Ok? ==> r.value.0 == Join(disk.root, row.relativePath) && row.diskId == disk.id
    ensures r.Ok? ==> world.resolve(root, RelPath(c.folder, f.torrentPath)) == Some(r.value.1)
    ensures r.Err? ==> r.error !in {RolledBack, AfterAdd}
  {
    if row.diskId != disk.id then Err(OtherDisk(row.relativePath))
    else
      var source := Join(disk.root, row.relativePath);
      if source !in names then Err(SourceMissing(source))
      else
        match world.resolve(root, RelPath(c.folder, f.torrentPath))
        case None => Err(OutsideScope)
        case Some(target) =>
          if target in names || world.isDir(target) then Err(TargetExists(target))
          else if !world.sameDevice(source, root) then Err(OtherDevice)
          else Ok((source, target))
  }

  /** Row `k` of the candidate is link `j` of the plan. */
  predicate PlannedAs(c: Candidate, k: nat, link: (string, string), media: Rows, disk: DiskRow,
                      root: string, world: World)
    requires k < |c.files|
  {
    && c.files[k].mediaFile.Some? && c.files[k].mediaFile.value in media
    && link.0 == Join(disk.root, media[c.files[k].mediaFile.value].relativePath)
    && world.resolve(root, RelPath(c.folder, c.files[k].torrentPath)) == Some(link.1)
  }

  predicate HasMediaRow(f: CandidateFile, media: Rows) {
    f.mediaFile.Some? && f.mediaFile.value in media
  }

  ghost predicate FailsFirst(c: Candidate, k: nat, media: Rows, disk: DiskRow, root: string,
                             names: Names, world: World, error: Error)
  {
    && k < |c.files| && HasMediaRow(c.files[k], media)
    && LinkOf(c, c.files[k], media[c.files[k].mediaFile.value], disk, root, names, world) == Err(error)
    && forall i :: 0 <= i < k ==> RowReady(c, c.files[i], media, disk, root, names, world)
  }

  /** `links` has one link for each row with a library file, in row order: `rows` says which. */
  ghost predicate PlanOf(c: Candidate, rows: seq<nat>, links: seq<(string, string)>, media: Rows,
                         disk: DiskRow, root: string, world: World)
  {
    && |rows| == |links|
    && (forall a, b :: 0 <= a < b < |rows| ==> rows[a] < rows[b])
    && (forall j :: 0 <= j < |rows| ==>
          rows[j] < |c.files| && PlannedAs(c, rows[j], links[j], media, disk, root, world))
    && (forall k :: 0 <= k < |c.files| && HasMediaRow(c.files[k], media) ==> k in rows)
  }

  /** The row asks for a link, and none of its checks fails. */
  predicate RowReady(c: Candidate, f: CandidateFile, media: Rows, disk: DiskRow, root: string,
                     names: Names, world: World)
  {
    HasMediaRow(f, media) ==> LinkOf(c, f, media[f.mediaFile.value], disk, root, names, world).Ok?
  }

  /** The loop of checks, all of them before the first link is made; the first row that fails one decides. */
  method PlanLinks(c: Candidate, media: Rows, disk: DiskRow, root: string, fs: FileSystem)
    returns (r: Attempt<seq<(string, string)>>, ghost rows: seq<nat>)
    ensures r.Ok? <==> forall f :: f in c.files ==> RowReady(c, f, media, disk, root, fs.names, fs.world)
    ensures r.Ok? ==> Plannable(fs.names, r.value) && PlanOf(c, rows, r.value, media, disk, root, fs.world)
    ensures r.Err? ==>
              && r.error !in {RolledBack, AfterAdd}
              && exists k: nat :: FailsFirst(c, k, media, disk, root, fs.names, fs.world, r.error)
  {
    var links: seq<(string, string)> := [];
    rows := [];
    for k: nat := 0 to |c.files|
      invariant Plannable(fs.names, links) && |rows| == |links|
      invariant forall a, b :: 0 <= a < b < |rows| ==> rows[a] < rows[b]
      invariant forall j :: 0 <= j < |rows| ==>
                  rows[j] < k && PlannedAs(c, rows[j], links[j], media, disk, root, fs.world)
      invariant forall i :: 0 <= i < k && HasMediaRow(c.files[i], media) ==> i in rows
      invariant forall i :: 0 <= i < k ==> RowReady(c, c.files[i], media, disk, root, fs.names, fs.world)
    {
      var f := c.files[k];
      if HasMediaRow(f, media) {
        var link := LinkOf(c, f, media[f.mediaFile.value], disk, root, fs.names, fs.world);
        if link.Err? {
          assert FailsFirst(c, k, media, disk, root, fs.names, fs.world, link.error);
          assert f in c.files && !RowReady(c, f, media, disk, root, fs.names, fs.world);
          return Err(link.error), rows;
        }
        links, rows := links + [link.value], rows + [k];
      }
    }
    forall f | f in c.files ensures RowReady(c, f, media, disk, root, fs.names, fs.world) {
      var i :| 0 <= i < |c.files| && c.files[i] == f;
    }
    return Ok(links), rows;
  }

  /** The first loop of the `try`: make the links in order, stop at the first failure. */
  method MakeLinks(fs: FileSystem, links: seq<(string, string)>) returns (created: seq<string>, ok: bool)
    requires Plannable(fs.names, links)
    modifies fs
    ensures created == Targets(links)[..Linked(old(fs.names), links, fs.world)]
    ensures ok <==> Linked(old(fs.names), links, fs.world) == |links|
    ensures Distinct(created) && LinkedExactly(old(fs.names), links[..|created|], fs.names)
    ensures fs.removed == old(fs.removed)
  {
    created := [];
    ghost var before := fs.names;
    ghost var total := Linked(before, links, fs.world);
    for k := 0 to |links|
      invariant created == Targets(links)[..k] && Distinct(created) && fs.removed == old(fs.removed)
      invariant LinkedExactly(before, links[..k], fs.names)
      invariant total == k + Linked(fs.names, links[k..], fs.world)
    {
      var (source, target) := links[k];
      assert links[k..][0] == links[k] && links[k..][1..] == links[k + 1..];
      ghost var middle := fs.names;
      assert middle[source] == before[source];
      var linked := fs.Link(source, target);
      if !linked {
        assert links[..|created|] == links[..k];
        return created, false;
      }
      OneMoreLink(before, links, k, middle, fs.names);
      created := created + [target];
    }
    assert links[..|links|] == links && links[|links|..] == [];
    return created, true;
  }

  lemma OneMoreLink(before: Names, links: seq<(string, string)>, k: nat, middle: Names, after: Names)
    requires k < |links| && LinkedExactly(before, links[..k], middle)
    requires links[k].0 in before && links[k].1 !in middle
    requires after == middle[links[k].1 := middle[links[k].0]]
    ensures LinkedExactly(before, links[..k + 1], after)
    ensures links[k].1 !in Targets(links)[..k]
    ensures Targets(links)[..k + 1] == Targets(links)[..k] + [links[k].1]
  {
    var more := links[..k + 1];
    assert Targets(more) == Targets(links[..k]) + [links[k].1];
    assert Targets(links)[..k] == Targets(links[..k]);
    assert forall p :: p in Targets(more) <==> p in Targets(links[..k]) || p == links[k].1;
  }

  /** The rollback: unlink what this call created. */
  method RollBack(fs: FileSystem, created: seq<string>, ghost before: Names)
    requires Distinct(created) && forall p :: p in created ==> p !in before
    requires forall p :: p in fs.names <==> p in before || p in created
    requires forall p :: p in before ==> p in fs.names && fs.names[p] == before[p]
    modifies fs
    ensures Undone(before, created, fs.world, fs.names)
    ensures forall p :: p in fs.removed ==> p in old(fs.removed) || p in created
  {
    ghost var tried: set<string> := {};
    for k := 0 to |created|
      invariant forall p :: p in fs.names <==> p in before || (p in created && (p !in tried || fs.world.unlinkFails(p)))
      invariant forall p :: p in before ==> p in fs.names && fs.names[p] == before[p]
      invariant forall j :: 0 <= j < |created| ==> (created[j] in tried <==> j < k)
      invariant forall p :: p in fs.removed ==> p in old(fs.removed) || p in created
    {
      tried := tried + {created[k]};
      fs.Unlink(created[k]);
    }
  }

  /** The folder new links go to, when it is configured, inside the disk and there. */
  function TargetRoot(disk: DiskRow, world: World): Option<string> {
    if !Given(disk.torrentsRelPath) then None
    else
      var root := world.resolve(disk.root, disk.TargetRelPath().value);
      if root.Some? && world.isDir(root.value) then root else None
  }

  /** Everything that is checked before the job row is written. */
  predicate Prechecked(c: Candidate, anchor: Option<LocalRow>, media: Rows, disk: DiskRow, names: Names,
                       world: World)
  {
    && anchor.Some? && StructureError(c).None? && TargetRoot(disk, world).Some? && Given(c.downloadLink)
    && forall f :: f in c.files ==> RowReady(c, f, media, disk, TargetRoot(disk, world).value, names, world)
  }

  /** Errors that only the checks of a row give. */
  predicate OfARow(e: Error) {
    e.OtherDisk? || e.SourceMissing? || e.TargetExists? || e.OtherDevice?
  }

  /** All the checks, in their order, before anything is written; the links planned when they pass. */
  method Precheck(c: Candidate, anchor: Option<LocalRow>, media: Rows, disk: DiskRow, fs: FileSystem)
    returns (error: Option<Error>, links: seq<(string, string)>, ghost rows: seq<nat>)
    ensures error.None? <==> Prechecked(c, anchor, media, disk, fs.names, fs.world)
    ensures error.None? ==>
              && Plannable(fs.names, links)
              && PlanOf(c, rows, links, media, disk, TargetRoot(disk, fs.world).value, fs.world)
    ensures error !in {Some(RolledBack), Some(AfterAdd)}
    ensures error.Some? && OfARow(error.value) ==>
              && TargetRoot(disk, fs.world).Some?
              && exists k: nat ::
                   FailsFirst(c, k, media, disk, TargetRoot(disk, fs.world).value, fs.names, fs.world, error.value)
  {
    hide FailsFirst;
    hide PlanOf, RowReady, Plannable, LinkOf, PlannedAs, FirstMissingVideo;
    links, rows := [], [];
    if anchor.None? {
      return Some(NoLinkedFile), links, rows;
    }
    var problem := StructureError(c);
    if problem.Some? {
      return problem, links, rows;
    }
    if !Given(disk.torrentsRelPath) {
      return Some(NoTorrentsPath), links, rows;
    }
    var root := fs.world.resolve(disk.root, disk.TargetRelPath().value);
    if root.None? {
      return Some(OutsideScope), links, rows;
    }
    if !fs.world.isDir(root.value) {
      return Some(NoTargetFolder), links, rows;
    }
    var plan, planned := PlanLinks(c, media, disk, root.value, fs);
    if plan.Err? {
      return Some(plan.error), links, planned;
    }
    if !Given(c.downloadLink) {
      return Some(NoDownloadLink), links, planned;
    }
    return None, plan.value, planned;
  }

  /**
   `_execute_layout_media_to_torrent`. Whatever fails, no path that existed before is touched or ever
   unlinked. With no info hash obtained, all that can remain is a created link whose own removal
   failed. On success, and when only the last commit fails, the links are exactly the plan.
   */
  method ExecuteMediaToTorrent(c: Candidate, anchor: Option<LocalRow>, media: Rows, disk: DiskRow,
                               fs: FileSystem)
    returns (error: Option<Error>, job: SeedJob?, ghost links: seq<(string, string)>, ghost created: seq<string>)
    modifies fs
    ensures forall p :: p in old(fs.names) ==> p in fs.names && fs.names[p] == old(fs.names)[p]
    ensures forall p :: p in fs.removed ==> p in old(fs.removed) || p !in old(fs.names)
    ensures Plannable(old(fs.names), links) && |created| <= |links| && created == Targets(links)[..|created|]
    ensures error !in {None, Some(AfterAdd)} ==> Undone(old(fs.names), created, fs.world, fs.names)
    ensures error !in {None, Some(AfterAdd), Some(RolledBack)} ==> fs.names == old(fs.names) && job == null
    ensures error in {None, Some(AfterAdd)} ==>
              LinkedExactly(old(fs.names), links, fs.names) && Distinct(Targets(links)) && fs.removed == old(fs.removed)
    ensures error in {None, Some(AfterAdd), Some(RolledBack)} <==>
              Prechecked(c, anchor, media, disk, old(fs.names), fs.world) && !fs.world.commitFails(0)
    ensures error in {None, Some(AfterAdd), Some(RolledBack)} ==>
              && (exists rows :: PlanOf(c, rows, links, media, disk, TargetRoot(disk, fs.world).value, fs.world))
              && (error != Some(RolledBack) <==>
                    Linked(old(fs.names), links, fs.world) == |links| && !fs.world.commitFails(1)
                        && fs.world.added.Some?)
              && (error.None? <==> error != Some(RolledBack) && !fs.world.commitFails(2))
    ensures error in {None, Some(AfterAdd), Some(RolledBack)} ==>
              && job != null && fresh(job) && job.expectedMissing == Some(MissingBytesFor(c))
              && job.finalStatus == (if error.None? then InProgress else Broken)
              && job.infoHash == (if error == Some(RolledBack) then None else fs.world.added)
              && (error != Some(RolledBack) ==> fs.world.added.Some?)
    ensures error.Some? && OfARow(error.value) ==>
              && TargetRoot(disk, fs.world).Some?
              && exists k: nat ::
                   FailsFirst(c, k, media, disk, TargetRoot(disk, fs.world).value, old(fs.names), fs.world, error.value)
  {
    hide FailsFirst;
    hide PlanOf, RowReady, Plannable, LinkOf, PlannedAs, FirstMissingVideo, Prechecked;
    error, job, links, created := None, null, [], [];
    NothingPlanned(fs.names);
    var problem, plan, rows := Precheck(c, anchor, media, disk, fs);
    if problem.Some? {
      return problem, job, links, created;
    }
    links := plan;
    if fs.world.commitFails(0) {
      return Some(CommitFailed), job, links, created;
    }
    job := new SeedJob(Some(MissingBytesFor(c)));
    ghost var before := fs.names;
    var made, ok := MakeLinks(fs, plan);
    created := made;
    CreatedAreNew(before, links, |made|, fs.names);
    if ok && !fs.world.commitFails(1) && fs.world.added.Some? {
      assert links[..|made|] == links && Targets(links)[..|made|] == Targets(links);
      job.infoHash := fs.world.added;
      job.recheck := Some(Pending);
      if fs.world.commitFails(2) {
        error := Some(AfterAdd);
      }
    } else {
      RollBack(fs, made, before);
      error := Some(RolledBack);
    }
    if error.Some? {
      job.finalStatus := Broken;
      job.error := Some("execution failed");
    }
  }

  lemma NothingPlanned(names: Names)
    ensures Plannable(names, [])
  {
  }

  lemma CreatedAreNew(before: Names, links: seq<(string, string)>, n: nat, after: Names)
    requires n <= |links| && Plannable(before, links) && LinkedExactly(before, links[..n], after)
    ensures forall p :: p in Targets(links)[..n] ==> p !in before
    ensures forall p :: p in after <==> p in before || p in Targets(links)[..n]
  {
    assert Targets(links[..n]) == Targets(links)[..n];
  }
}
