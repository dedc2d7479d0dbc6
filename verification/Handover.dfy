/**
 From the mapping to the executor: what the two mappings of app/torrent_layout.py find is scored and stored by
 app/matching.py, and read again by app/executor.py, which checks it once more. This module proves which of those
 checks a plausible candidate can still fail.
 */
module Handover {
  import opened Basics
  import opened Candidates
  import opened Layouts
  import opened Executor
  import opened Scoring
  import Matching
  import MediaSide
  import SeedSide

  type Mapping = Layout -> seq<FileMatch>

  /** `_media_local` and `_seed_local`; `at` gives the absolute path of a row. */
  function LocalAt(kind: Kind, id: nat, row: LocalRow, at: LocalRow -> string): LocalFile {
    LocalFile(kind, id, row.diskId, row.relativePath, at(row), row.size)
  }

  /** A match as both mappings create it. */
  function Fresh(lf: LayoutFile, local: Option<LocalFile>): FileMatch {
    FileMatch(lf, local, None, None, None, None, CONFIDENCE_NO_MATCH)
  }

  // ---------------------------------------------------------------- torrent folder to client

  /** The rows of the torrent folders, with their index by path. */
  datatype SeedFiles = SeedFiles(rows: Rows, index: SeedSide.PathIndex, at: LocalRow -> string) {
    ghost predicate Valid() {
      SeedSide.Indexes(index, rows)
    }

    function Local(id: Option<nat>): Option<LocalFile> {
      if id.Some? && id.value in rows then Some(LocalAt(Seed, id.value, rows[id.value], at)) else None
    }
  }

  /** The id `map_seed_side` finds for file `k`. */
  function SeedFound(l: Layout, k: nat, anchor: LocalRow, s: SeedFiles): Option<nat>
    requires k < |l.files|
  {
    var root := SeedSide.RootOf(l, l.files, anchor);
    if root.None? then None else SeedSide.Lookup(l, k, root.value, anchor, s.index)
  }

  /** `map_seed_side` */
  function SeedMatches(l: Layout, anchor: LocalRow, s: SeedFiles): (ms: seq<FileMatch>)
    ensures Matching.Maps(ms, l)
  {
    seq(|l.files|, k requires 0 <= k < |l.files| => Fresh(l.files[k], s.Local(SeedFound(l, k, anchor, s))))
  }

  method MapSeed(l: Layout, anchor: LocalRow, s: SeedFiles) returns (ms: seq<FileMatch>)
    ensures ms == SeedMatches(l, anchor, s)
  {
    var found := SeedSide.MapSeedSide(l, anchor, s.index);
    ms := [];
    for k := 0 to |found|
      invariant |ms| == k && forall j :: 0 <= j < k ==> ms[j] == Fresh(l.files[j], s.Local(found[j]))
    {
      ms := ms + [Fresh(l.files[k], s.Local(found[k]))];
    }
  }

  /** The mapping of one search: its anchor stands in the torrent folder. */
  function SeedMapping(anchor: LocalRow, s: SeedFiles): Mapping {
    l => SeedMatches(l, anchor, s)
  }

  lemma SeedMapsAll(anchor: LocalRow, s: SeedFiles)
    ensures Matching.MapsAll(SeedMapping(anchor, s))
  {
    hide SeedMatches, Matching.Maps;
    forall l ensures Matching.Maps(SeedMapping(anchor, s)(l), l) {
      assert SeedMapping(anchor, s)(l) == SeedMatches(l, anchor, s);
    }
  }

  /** A match with a local file means that the mapping found a root. */
  lemma MatchedHasRoot(l: Layout, anchor: LocalRow, s: SeedFiles, anchorId: nat)
    requires MappingReason(SeedMatches(l, anchor, s), anchorId).None?
    ensures SeedSide.RootOf(l, l.files, anchor).Some?
  {
    hide SeedSide.RootOf;
    LocalOfVideos(SeedMatches(l, anchor, s), anchorId);
  }

  /** The stored candidate is one the executor's agreement theorem speaks of. */
  lemma StoredFromSeed(r: Matching.Record, l: Layout, anchorId: nat, s: SeedFiles, ev: Evidence)
    requires s.Valid() && anchorId in s.rows && ev.anchorId == anchorId
    requires Matching.MappedOn(r, l, SeedMapping(s.rows[anchorId], s), ev)
    requires r.evaluation.confidence > CONFIDENCE_NO_MATCH
    requires forall lf :: lf in l.files ==> lf.FullPath(l.folder) != ""
    ensures SeedSide.RootOf(l, l.files, s.rows[anchorId]).Some?
    ensures SeedSide.Stored(l, anchorId, s.rows, s.index, SeedSide.RootOf(l, l.files, s.rows[anchorId]).value,
              seq(|l.files|, k requires 0 <= k < |l.files| => SeedFound(l, k, s.rows[anchorId], s)), r.candidate)
  {
    hide SeedSide.RootOf, MappingReason, Sound;
    var anchor := s.rows[anchorId];
    assert SeedMapping(anchor, s)(l) == SeedMatches(l, anchor, s);
    MatchedHasRoot(l, anchor, s, anchorId);
    var found := seq(|l.files|, k requires 0 <= k < |l.files| => SeedFound(l, k, anchor, s));
    forall k | 0 <= k < |l.files|
      ensures r.candidate.files[k].torrentPath == l.files[k].path && r.candidate.files[k].seedFile == found[k]
    {
      assert r.candidate.files[k] == Matching.RowOf(r.evaluation.files[k]);
      assert r.evaluation.files[k].local == SeedMatches(l, anchor, s)[k].local;
    }
  }

  /** A relative path as the scanner stores it: no leading slash and no double one. */
  predicate Clean(path: string) {
    && (path == "" || path[0] != '/')
    && forall i :: 0 <= i < |path| - 1 ==> !(path[i] == '/' && path[i + 1] == '/')
  }

  /** What the executor can still object to in a candidate whose rows stand where the mapping found them. */
  predicate Acceptable(c: Candidate, root: string, rows: Rows, disk: DiskRow, fs: FileSystem)
    reads fs
  {
    && (|c.files| > 1 ==> c.folder != Some("")) && Given(c.downloadLink) && SeedSide.Normal(root)
    && (forall f :: f in c.files ==> SeedSide.OnDisk(f, rows, disk, fs))
    && (SeedSide.RStrip(root) != "" ==> fs.world.resolve(disk.root, SeedSide.RStrip(root)).Some?)
  }

  /**
   Torrent folder to client, from the mapping to the client. Of all its checks, the executor refuses a plausible
   candidate only for an empty folder name, a missing link, an abnormal root, a file no longer on disk or a root
   outside the scope; never for the anchor, a video, a suffix or the place of a file. Paths as the scanner stores
   them give normal roots.
   */
  lemma SeedCandidateAddableIff(tracker: Matching.Tracker, m: Matching.Memo, r: Matching.Record, anchorId: nat,
                                s: SeedFiles, ev: Evidence, disk: DiskRow, fs: FileSystem) returns (root: string)
    requires Matching.MemoHolds(tracker, m) && Matching.Executable(r, m)
    requires r.evaluation.confidence > CONFIDENCE_NO_MATCH
    requires s.Valid() && anchorId in s.rows && ev.anchorId == anchorId && s.rows[anchorId].diskId == disk.id
    requires Matching.MappedBy(r, SeedMapping(s.rows[anchorId], s), ev)
    requires forall f :: f in r.candidate.files ==> RelPath(r.candidate.folder, f.torrentPath) != ""
    ensures SeedSide.RebuiltRoot(r.candidate, anchorId, s.rows) == Some(SeedSide.RStrip(root))
    ensures Clean(s.rows[anchorId].relativePath) ==> SeedSide.Normal(root)
    ensures SeedSide.Addable(r.candidate, Some(anchorId), s.rows, disk, fs)
       <==> Acceptable(r.candidate, root, s.rows, disk, fs)
  {
    hide Matching.MemoHolds, Matching.Executable, Matching.MappedOn, SeedSide.Stored, SeedSide.RebuiltRoot;
    hide SeedSide.Normal, SeedSide.InPlace, SeedSide.OnDisk, SeedSide.RStrip, StructureError;
    var c, mapping := r.candidate, SeedMapping(s.rows[anchorId], s);
    var l :| Matching.MappedOn(r, l, mapping, ev);
    PathsOfLayout(r, l, mapping, ev);
    StoredFromSeed(r, l, anchorId, s, ev);
    root := SeedSide.RootOf(l, l.files, s.rows[anchorId]).value;
    var found := seq(|l.files|, k requires 0 <= k < |l.files| => SeedFound(l, k, s.rows[anchorId], s));
    SeedSide.ExecutorAgreesWithMapping(l, anchorId, s.rows, s.index, root, found, c);
    Matching.ExecutionFindsTheStructure(tracker, m, r);
    if Clean(s.rows[anchorId].relativePath) {
      SeedSide.NormalPathsGiveNormalRoots(l, s.rows[anchorId], root);
    }
    assert (forall f :: f in c.files ==> SeedSide.InPlace(c, f, s.rows, SeedSide.RStrip(root), disk.id))
        <==> forall k :: 0 <= k < |c.files| ==>
               SeedSide.InPlace(c, c.files[k], s.rows, SeedSide.RStrip(root), disk.id);
  }

  lemma PathsOfLayout(r: Matching.Record, l: Layout, mapping: Mapping, ev: Evidence)
    requires Matching.MappedOn(r, l, mapping, ev) && Matching.Maps(mapping(l), l)
    requires forall f :: f in r.candidate.files ==> RelPath(r.candidate.folder, f.torrentPath) != ""
    ensures forall lf :: lf in l.files ==> lf.FullPath(l.folder) != ""
  {
    hide MappingReason, Sound;
    forall k | 0 <= k < |l.files| ensures l.files[k].FullPath(l.folder) != "" {
      assert r.candidate.files[k] == Matching.RowOf(r.evaluation.files[k]) && r.candidate.files[k] in r.candidate.files;
    }
  }

  // ---------------------------------------------------------------- library to torrent folder

  /** One local file of the library mapping: a row of the library on the anchor's disk, of the size looked for. */
  predicate MediaMatch(m: FileMatch, exact: bool, anchorDisk: nat, lib: MediaSide.Library, at: LocalRow -> string) {
    m.local.Some? ==>
      && m.local.value.id in lib.rows
      && var row := lib.rows[m.local.value.id];
      && m.local.value == LocalAt(Media, m.local.value.id, row, at) && row.diskId == anchorDisk
      && (exact && m.file.size.Some? ==> row.size == m.file.size.value)
  }

  /** What `map_media_side` gives: every match fits, and all but the single video of a torrent have the exact size. */
  ghost predicate MediaMatches(ms: seq<FileMatch>, l: Layout, anchorDisk: nat, lib: MediaSide.Library,
                               at: LocalRow -> string)
  {
    && Matching.Maps(ms, l)
    && forall k :: 0 <= k < |ms| ==>
         MediaMatch(ms[k], !(l.files[k].isVideo && Videos(l.files) == 1), anchorDisk, lib, at)
  }

  method MapMedia(l: Layout, anchorId: nat, lib: MediaSide.Library, at: LocalRow -> string)
    returns (ms: seq<FileMatch>, ghost found: seq<Option<nat>>)
    requires lib.Valid() && anchorId in lib.rows
    ensures MediaMatches(ms, l, lib.rows[anchorId].diskId, lib, at)
    ensures |found| == |ms| && MediaSide.Exclusive(l, found)
    ensures forall k :: 0 <= k < |ms| ==>
              found[k] == if ms[k].local.Some? then Some(ms[k].local.value.id) else None
  {
    hide Videos, MediaSide.PackVideo, MediaSide.Beside, MediaSide.ExtraMatched, MediaSide.Exclusive;
    var ids, neighbours, matches := MediaSide.MapMediaSide(l, anchorId, lib);
    ms := [];
    for k := 0 to |ids|
      invariant |ms| == k
      invariant forall j :: 0 <= j < k ==>
                  ms[j] == Fresh(l.files[j],
                      if ids[j].Some? then Some(LocalAt(Media, ids[j].value, lib.rows[ids[j].value], at)) else None)
    {
      var local := if ids[k].Some? then Some(LocalAt(Media, ids[k].value, lib.rows[ids[k].value], at)) else None;
      ms := ms + [Fresh(l.files[k], local)];
    }
    found := ids;
  }

  ghost predicate MapsMedia(mapping: Mapping, anchorDisk: nat, lib: MediaSide.Library, at: LocalRow -> string) {
    forall l :: MediaMatches(mapping(l), l, anchorDisk, lib, at)
  }

  /** Row `k` of a plausible candidate: its library file is on the anchor's disk and has the size of the torrent's. */
  lemma MediaRowFits(r: Matching.Record, mapping: Mapping, ev: Evidence, anchorDisk: nat, lib: MediaSide.Library,
                     at: LocalRow -> string, k: nat)
    requires r.evaluation.confidence > CONFIDENCE_NO_MATCH && k < |r.candidate.files|
    requires Matching.MappedBy(r, mapping, ev) && MapsMedia(mapping, anchorDisk, lib, at)
    ensures var f := r.candidate.files[k];
      && f.seedFile.None? && (f.mediaFile.Some? ==> f.mediaFile.value in lib.rows)
      && (f.isVideo ==> f.mediaFile.Some? && f.size.Some?)
      && (f.mediaFile.Some? ==>
            && lib.rows[f.mediaFile.value].diskId == anchorDisk
            && (f.size.Some? ==> lib.rows[f.mediaFile.value].size == f.size.value))
  {
    hide MappingReason, Videos;
    var l :| Matching.MappedOn(r, l, mapping, ev);
    var ms, e := mapping(l), r.evaluation;
    assert MediaMatches(ms, l, anchorDisk, lib, at);
    assert r.candidate.files[k] == Matching.RowOf(e.files[k]);
    assert MediaMatch(ms[k], !(l.files[k].isVideo && Videos(l.files) == 1), anchorDisk, lib, at);
    if e.files[k].file.isVideo {
      assert Backed(e.files[k]) && e.files[k].confidence >= e.confidence;
    }
  }

  /**
   Library to torrent folder, from the mapping to the links. No row of a plausible candidate fails the executor's
   check for another disk, whatever the file system says and wherever the links go.
   */
  lemma NeverOnAnotherDisk(r: Matching.Record, mapping: Mapping, ev: Evidence, lib: MediaSide.Library,
                           at: LocalRow -> string, disk: DiskRow, root: string, names: Names, world: World,
                           k: nat, error: Error)
    requires r.evaluation.confidence > CONFIDENCE_NO_MATCH
    requires Matching.MappedBy(r, mapping, ev) && MapsMedia(mapping, disk.id, lib, at)
    requires FailsFirst(r.candidate, k, lib.rows, disk, root, names, world, error)
    ensures !error.OtherDisk?
  {
    hide Matching.MappedBy, MapsMedia;
    MediaRowFits(r, mapping, ev, disk.id, lib, at, k);
  }

  /** And every planned link leads to a library file of exactly the size the torrent gives. */
  lemma LinksHaveTheSize(r: Matching.Record, mapping: Mapping, ev: Evidence, lib: MediaSide.Library,
                         at: LocalRow -> string, disk: DiskRow, root: string, world: World,
                         rows: seq<nat>, links: seq<(string, string)>, j: nat)
    requires r.evaluation.confidence > CONFIDENCE_NO_MATCH
    requires Matching.MappedBy(r, mapping, ev) && MapsMedia(mapping, disk.id, lib, at)
    requires PlanOf(r.candidate, rows, links, lib.rows, disk, root, world) && j < |links|
    ensures rows[j] < |r.candidate.files| && r.candidate.files[rows[j]].mediaFile.Some?
    ensures var f := r.candidate.files[rows[j]];
      && f.mediaFile.value in lib.rows && links[j].0 == Join(disk.root, lib.rows[f.mediaFile.value].relativePath)
      && (f.size.Some? ==> lib.rows[f.mediaFile.value].size == f.size.value)
  {
    hide Matching.MappedBy, MapsMedia;
    MediaRowFits(r, mapping, ev, disk.id, lib, at, rows[j]);
  }
}
