/**
 Library to torrent folder: `map_media_side` and `_match_extra` of app/torrent_layout.py. Every file
 of a torrent is matched to a library file on the anchor's disk: videos first, then the extras among
 the neighbours of the matched videos, no neighbour twice.
 */
module MediaSide {
  import opened Basics
  import opened Executor
  import opened Layouts

  /**
   The in-memory index and what comes with it: rows by import path and size, by episode and by
   directory; the import history; the episode numbers read from a file name.
   */
  datatype Library = Library(
    rows: Rows,
    byKey: map<(string, int), seq<nat>>, byEpisode: map<(nat, nat, nat), seq<nat>>, byDir: map<(nat, string), seq<nat>>,
    importedFor: (string, int) -> Option<(string, int)>, episodeNumbers: string -> Option<(nat, nat)>,
    show: Option<nat>, fold: string -> string, extension: string -> string)
  {
    /** Every id in an index is a row, and the directory index files each row under its disk and directory. */
    ghost predicate Valid() {
      && (forall key :: key in byKey ==> forall id :: id in byKey[key] ==> id in rows)
      && (forall key :: key in byEpisode ==> forall id :: id in byEpisode[key] ==> id in rows)
      && (forall key :: key in byDir ==> forall id :: id in byDir[key] ==>
            id in rows && rows[id].diskId == key.0 && Dirname(rows[id].relativePath) == key.1)
    }
  }

  /** `os.path.dirname` of a relative path. */
  function Dirname(path: string): string {
    if path == "" then "" else if path[|path| - 1] == '/' then path[..|path| - 1] else Dirname(path[..|path| - 1])
  }

  function Find<K, V>(m: map<K, seq<V>>, key: K): seq<V> {
    if key in m then m[key] else []
  }

  // ---------------------------------------------------------------- videos

  /** `_pick_same_disk`: the first file of the right size on the disk; another disk is of no use. */
  function PickSameDisk(ids: seq<nat>, rows: Rows, diskId: nat, size: Option<int>): (r: Option<nat>)
    requires forall id :: id in ids ==> id in rows
    ensures r.Some? ==> r.value in ids && rows[r.value].diskId == diskId
    ensures r.Some? && size.Some? ==> rows[r.value].size == size.value
    ensures r.None? ==> forall id :: id in ids ==>
              rows[id].diskId != diskId || (size.Some? && rows[id].size != size.value)
  {
    if ids == [] then None
    else if (size.None? || rows[ids[0]].size == size.value) && rows[ids[0]].diskId == diskId then Some(ids[0])
    else
      assert forall id :: id in ids <==> id == ids[0] || id in ids[1..];
      PickSameDisk(ids[1..], rows, diskId, size)
  }

  /** The library file of one video of a pack: import history first, then season and episode. */
  function PackVideo(layout: Layout, lf: LayoutFile, anchorDisk: nat, lib: Library): (r: Option<nat>)
    requires lib.Valid()
    ensures r.Some? ==> r.value in lib.rows && lib.rows[r.value].diskId == anchorDisk
    ensures r.Some? && lf.size.Some? ==> lib.rows[r.value].size == lf.size.value
  {
    var imported := if lf.size.Some? then lib.importedFor(lf.FullPath(layout.folder), lf.size.value) else None;
    var byHistory :=
      if imported.Some? then PickSameDisk(Find(lib.byKey, imported.value), lib.rows, anchorDisk, lf.size) else None;
    if byHistory.Some? then byHistory
    else if lib.show.None? then None
    else
      match lib.episodeNumbers(Basename(lf.path))
      case None => None
      case Some((season, episode)) =>
        PickSameDisk(Find(lib.byEpisode, (lib.show.value, season, episode)), lib.rows, anchorDisk, lf.size)
  }

  // ---------------------------------------------------------------- extras

  predicate SameName(row: LocalRow, lf: LayoutFile, lib: Library) {
    lib.fold(Basename(row.relativePath)) == lib.fold(Basename(lf.path)) && (lf.size.None? || row.size == lf.size.value)
  }

  predicate SameKind(row: LocalRow, lf: LayoutFile, lib: Library)
    requires lf.size.Some?
  {
    var ext := lib.extension(lib.fold(Basename(lf.path)));
    var path := lib.fold(row.relativePath);
    row.size == lf.size.value && |ext| <= |path| && path[|path| - |ext|..] == ext
  }

  function FirstNamed(neighbours: seq<nat>, lf: LayoutFile, lib: Library): (r: Option<nat>)
    requires forall id :: id in neighbours ==> id in lib.rows
    ensures r.Some? ==> r.value in neighbours && SameName(lib.rows[r.value], lf, lib)
    ensures r.Some? ==> exists i :: 0 <= i < |neighbours| && neighbours[i] == r.value
                          && forall j :: 0 <= j < i ==> !SameName(lib.rows[neighbours[j]], lf, lib)
    ensures r.None? ==> forall id :: id in neighbours ==> !SameName(lib.rows[id], lf, lib)
  {
    if neighbours == [] then None
    else if SameName(lib.rows[neighbours[0]], lf, lib) then Some(neighbours[0])
    else
      assert forall id :: id in neighbours <==> id == neighbours[0] || id in neighbours[1..];
      assert forall i :: 0 <= i < |neighbours| - 1 ==> neighbours[1..][i] == neighbours[i + 1];
      FirstNamed(neighbours[1..], lf, lib)
  }

  function OfSameKind(neighbours: seq<nat>, lf: LayoutFile, lib: Library): (r: seq<nat>)
    requires lf.size.Some? && forall id :: id in neighbours ==> id in lib.rows
    ensures forall id :: id in r <==> id in neighbours && SameKind(lib.rows[id], lf, lib)
  {
    if neighbours == [] then []
    else
      assert forall id :: id in neighbours <==> id == neighbours[0] || id in neighbours[1..];
      (if SameKind(lib.rows[neighbours[0]], lf, lib) then [neighbours[0]] else [])
          + OfSameKind(neighbours[1..], lf, lib)
  }

  /** Some neighbour has the name of the file, and its size if that is known. */
  predicate SomeNamed(lf: LayoutFile, neighbours: seq<nat>, lib: Library)
    requires forall id :: id in neighbours ==> id in lib.rows
  {
    exists i :: 0 <= i < |neighbours| && SameName(lib.rows[neighbours[i]], lf, lib)
  }

  /** `_match_extra`: the first by name; if there is none, the only neighbour of that extension and exact size. */
  function MatchExtra(lf: LayoutFile, neighbours: seq<nat>, lib: Library): (r: Option<nat>)
    requires forall id :: id in neighbours ==> id in lib.rows
    ensures r.Some? ==> r.value in neighbours
    ensures r.Some? && lf.size.Some? ==> lib.rows[r.value].size == lf.size.value
    ensures SomeNamed(lf, neighbours, lib) ==>
              r.Some? && SameName(lib.rows[r.value], lf, lib)
              && exists i :: 0 <= i < |neighbours| && neighbours[i] == r.value
                   && forall j :: 0 <= j < i ==> !SameName(lib.rows[neighbours[j]], lf, lib)
    ensures !SomeNamed(lf, neighbours, lib) ==>
              (r.Some? <==> lf.size.Some? && |OfSameKind(neighbours, lf, lib)| == 1)
              && (r.Some? ==> SameKind(lib.rows[r.value], lf, lib) && OfSameKind(neighbours, lf, lib) == [r.value])
  {
    var named := FirstNamed(neighbours, lf, lib);
    assert named.Some? <==> SomeNamed(lf, neighbours, lib);
    if named.Some? then named
    else if lf.size.None? then None
    else
      var same := OfSameKind(neighbours, lf, lib);
      if |same| == 1 then
        assert same[0] in same;
        Some(same[0])
      else None
  }

  function Without(ids: seq<nat>, used: set<nat>): (r: seq<nat>)
    ensures forall id :: id in r <==> id in ids && id !in used
  {
    if ids == [] then []
    else
      assert forall id :: id in ids <==> id == ids[0] || id in ids[1..];
      (if ids[0] in used then [] else [ids[0]]) + Without(ids[1..], used)
  }

  // ---------------------------------------------------------------- the mapping

  /** What is true of the matches of the videos alone. */
  ghost predicate VideoMatches(layout: Layout, anchorId: nat, lib: Library, found: map<nat, Option<nat>>)
    requires lib.Valid() && anchorId in lib.rows
  {
    && (forall k :: k in found <==> 0 <= k < |layout.files| && layout.files[k].isVideo)
    && (forall k :: k in found ==>
          found[k] == if Videos(layout.files) == 1 then Some(anchorId)
                      else PackVideo(layout, layout.files[k], lib.rows[anchorId].diskId, lib))
  }

  /** The loop over the videos. */
  method MatchVideos(layout: Layout, anchorId: nat, lib: Library) returns (found: map<nat, Option<nat>>)
    requires lib.Valid() && anchorId in lib.rows
    ensures VideoMatches(layout, anchorId, lib, found)
  {
    found := map[];
    var videos := Videos(layout.files);
    for i: nat := 0 to |layout.files|
      invariant forall k :: k in found <==> 0 <= k < i && layout.files[k].isVideo
      invariant forall k :: k in found ==>
                  found[k] == if videos == 1 then Some(anchorId)
                              else PackVideo(layout, layout.files[k], lib.rows[anchorId].diskId, lib)
    {
      if layout.files[i].isVideo {
        var mf := if videos == 1 then Some(anchorId)
            else PackVideo(layout, layout.files[i], lib.rows[anchorId].diskId, lib);
        found := found[i := mf];
      }
    }
  }

  /** The file lies in the directory of a matched video. */
  ghost predicate BesideVideo(id: nat, found: map<nat, Option<nat>>, anchorDisk: nat, lib: Library)
    requires forall k :: k in found && found[k].Some? ==> found[k].value in lib.rows
  {
    exists k :: k in found && found[k].Some? && id in Beside(found[k].value, anchorDisk, lib)
  }

  function Beside(video: nat, anchorDisk: nat, lib: Library): seq<nat>
    requires video in lib.rows
  {
    Find(lib.byDir, (anchorDisk, Dirname(lib.rows[video].relativePath)))
  }

  /** The directories of the matched videos, and the files in them, in whatever order the set gives. */
  method Neighbours(found: map<nat, Option<nat>>, anchorDisk: nat, lib: Library) returns (ids: seq<nat>)
    requires lib.Valid() && forall k :: k in found && found[k].Some? ==> found[k].value in lib.rows
    ensures forall id :: id in ids ==> id in lib.rows && lib.rows[id].diskId == anchorDisk
    ensures forall id :: id in ids <==> BesideVideo(id, found, anchorDisk, lib)
  {
    var dirs := set k | k in found && found[k].Some? :: Dirname(lib.rows[found[k].value].relativePath);
    ids := [];
    var todo := dirs;
    while todo != {}
      invariant todo <= dirs
      invariant forall id :: id in ids <==> exists d :: d in dirs - todo && id in Find(lib.byDir, (anchorDisk, d))
      invariant forall id :: id in ids ==> id in lib.rows && lib.rows[id].diskId == anchorDisk
      decreases todo
    {
      var d :| d in todo;
      ghost var before := ids;
      ids := ids + Find(lib.byDir, (anchorDisk, d));
      todo := todo - {d};
      forall id ensures id in ids <==> exists e :: e in dirs - todo && id in Find(lib.byDir, (anchorDisk, e)) {
        if id in before {
          var e :| e in dirs - (todo + {d}) && id in Find(lib.byDir, (anchorDisk, e));
          assert e in dirs - todo;
        } else if id in ids {
          assert d in dirs - todo;
        }
      }
    }
    forall id ensures id in ids <==> BesideVideo(id, found, anchorDisk, lib) {
      if id in ids {
        var d :| d in dirs && id in Find(lib.byDir, (anchorDisk, d));
        var k :| k in found && found[k].Some? && Dirname(lib.rows[found[k].value].relativePath) == d;
        assert id in Beside(found[k].value, anchorDisk, lib);
      }
    }
  }

  /** No local file serves two extras, or an extra and a video. */
  ghost predicate Exclusive(layout: Layout, found: seq<Option<nat>>)
    requires |found| == |layout.files|
  {
    forall a, b :: 0 <= a < |found| && 0 <= b < |found| && a != b && !layout.files[a].isVideo && found[a].Some? ==>
      found[b] != found[a]
  }

  /** The matches after the videos and the extras below `i`. */
  ghost predicate MatchedBelow(layout: Layout, videos: map<nat, Option<nat>>, matches: map<nat, Option<nat>>, i: nat,
                               neighbours: seq<nat>, lib: Library)
    requires forall id :: id in neighbours ==> id in lib.rows
  {
    && (forall k :: k in matches <==> 0 <= k < |layout.files| && (layout.files[k].isVideo || k < i))
    && (forall k :: k in matches && layout.files[k].isVideo ==> k in videos && matches[k] == videos[k])
    && (forall k :: k in matches && !layout.files[k].isVideo ==> ExtraMatched(layout, matches, k, neighbours, lib))
    && (forall a, b :: a in matches && b in matches && a != b && !layout.files[a].isVideo && matches[a].Some? ==>
          matches[b] != matches[a])
  }

  /** The local files taken before extra `k` gets its turn: those of the videos and of the extras before it. */
  function TakenBefore(layout: Layout, matches: map<nat, Option<nat>>, k: nat): set<nat> {
    set j | j in matches && j < |layout.files| && (layout.files[j].isVideo || j < k) && matches[j].Some? ::
        matches[j].value
  }

  /** An extra gets the neighbour that matches it best among those not taken before, if there is one. */
  ghost predicate ExtraMatched(layout: Layout, matches: map<nat, Option<nat>>, k: nat, neighbours: seq<nat>,
                               lib: Library)
    requires k in matches && k < |layout.files| && forall id :: id in neighbours ==> id in lib.rows
  {
    matches[k] == MatchExtra(layout.files[k], Without(neighbours, TakenBefore(layout, matches, k)), lib)
  }

  /** The loop over the extras, with the set of local files already used. */
  method MatchExtras(layout: Layout, videos: map<nat, Option<nat>>, neighbours: seq<nat>, lib: Library)
    returns (matches: map<nat, Option<nat>>)
    requires forall id :: id in neighbours ==> id in lib.rows
    requires forall k :: k in videos <==> 0 <= k < |layout.files| && layout.files[k].isVideo
    ensures MatchedBelow(layout, videos, matches, |layout.files|, neighbours, lib)
  {
    hide MatchExtra, MatchedBelow, TakenBefore, Without;
    matches := videos;
    var used := set k | k in matches && matches[k].Some? :: matches[k].value;
    OnlyVideos(layout, videos, neighbours, lib);
    for i: nat := 0 to |layout.files|
      invariant MatchedBelow(layout, videos, matches, i, neighbours, lib) && used == TakenBefore(layout, matches, i)
    {
      var lf := layout.files[i];
      if !lf.isVideo {
        var found := MatchExtra(lf, Without(neighbours, used), lib);
        ExtraAdded(layout, videos, matches, i, neighbours, lib, found);
        if found.Some? {
          used := used + {found.value};
        }
        matches := matches[i := found];
      } else {
        VideoPassed(layout, videos, matches, i, neighbours, lib);
      }
    }
  }

  lemma VideoPassed(layout: Layout, videos: map<nat, Option<nat>>, matches: map<nat, Option<nat>>, i: nat,
                    neighbours: seq<nat>, lib: Library)
    requires forall id :: id in neighbours ==> id in lib.rows
    requires MatchedBelow(layout, videos, matches, i, neighbours, lib) && i < |layout.files| && layout.files[i].isVideo
    ensures MatchedBelow(layout, videos, matches, i + 1, neighbours, lib)
    ensures TakenBefore(layout, matches, i + 1) == TakenBefore(layout, matches, i)
  {
    hide ExtraMatched;
    forall id: nat ensures id in TakenBefore(layout, matches, i + 1) <==> id in TakenBefore(layout, matches, i) {
      if id in TakenBefore(layout, matches, i) {
        var j :| j in matches && j < |layout.files| && (layout.files[j].isVideo || j < i) && matches[j] == Some(id);
        assert layout.files[j].isVideo || j < i + 1;
      }
    }
  }

  lemma OnlyVideos(layout: Layout, videos: map<nat, Option<nat>>, neighbours: seq<nat>, lib: Library)
    requires forall id :: id in neighbours ==> id in lib.rows
    requires forall k :: k in videos <==> 0 <= k < |layout.files| && layout.files[k].isVideo
    ensures MatchedBelow(layout, videos, videos, 0, neighbours, lib)
    ensures TakenBefore(layout, videos, 0) == set k | k in videos && videos[k].Some? :: videos[k].value
  {
    hide MatchExtra, Without;
  }

  lemma TakenStays(layout: Layout, matches: map<nat, Option<nat>>, i: nat, found: Option<nat>, k: nat)
    requires i !in matches && k <= i < |layout.files| && !layout.files[i].isVideo
    ensures TakenBefore(layout, matches[i := found], k) == TakenBefore(layout, matches, k)
  {
    var more := matches[i := found];
    forall id: nat ensures id in TakenBefore(layout, more, k) <==> id in TakenBefore(layout, matches, k) {
      if id in TakenBefore(layout, matches, k) {
        var j :| j in matches && j < |layout.files| && (layout.files[j].isVideo || j < k) && matches[j] == Some(id);
        assert j in more && more[j] == Some(id);
      }
    }
  }

  lemma TakenByNext(layout: Layout, matches: map<nat, Option<nat>>, i: nat, found: Option<nat>)
    requires i !in matches && i < |layout.files| && !layout.files[i].isVideo
    ensures TakenBefore(layout, matches[i := found], i + 1) ==
            TakenBefore(layout, matches, i) + if found.Some? then {found.value} else {}
  {
    var more := matches[i := found];
    TakenStays(layout, matches, i, found, i);
    assert i in more && more[i] == found;
    forall id: nat
      ensures id in TakenBefore(layout, more, i + 1) <==> id in TakenBefore(layout, more, i) || found == Some(id)
    {
      if id in TakenBefore(layout, more, i + 1) {
        var j :| j in more && j < |layout.files| && (layout.files[j].isVideo || j < i + 1) && more[j] == Some(id);
        assert j == i || layout.files[j].isVideo || j < i;
      }
      if id in TakenBefore(layout, more, i) {
        var j :| j in more && j < |layout.files| && (layout.files[j].isVideo || j < i) && more[j] == Some(id);
        assert j < i + 1 || layout.files[j].isVideo;
      }
    }
  }

  lemma ExtraAdded(layout: Layout, videos: map<nat, Option<nat>>, matches: map<nat, Option<nat>>, i: nat,
                   neighbours: seq<nat>, lib: Library, found: Option<nat>)
    requires forall id :: id in neighbours ==> id in lib.rows
    requires MatchedBelow(layout, videos, matches, i, neighbours, lib)
    requires i < |layout.files| && !layout.files[i].isVideo
    requires found == MatchExtra(layout.files[i], Without(neighbours, TakenBefore(layout, matches, i)), lib)
    ensures MatchedBelow(layout, videos, matches[i := found], i + 1, neighbours, lib)
    ensures TakenBefore(layout, matches[i := found], i + 1) ==
            TakenBefore(layout, matches, i) + if found.Some? then {found.value} else {}
  {
    hide MatchExtra, Without, TakenBefore;
    TakenByNext(layout, matches, i, found);
    TakenStays(layout, matches, i, found, i);
    forall k: nat | k in matches && !layout.files[k].isVideo
      ensures ExtraMatched(layout, matches[i := found], k, neighbours, lib)
    {
      TakenStays(layout, matches, i, found, k);
    }
    forall k: nat | k in matches && found.Some? ensures matches[k] != found {
      NotTaken(layout, matches, i, k, found.value);
    }
  }

  lemma NotTaken(layout: Layout, matches: map<nat, Option<nat>>, i: nat, k: nat, id: nat)
    requires id !in TakenBefore(layout, matches, i) && k in matches && k < |layout.files|
    requires (layout.files[k].isVideo || k < i)
    ensures matches[k] != Some(id)
  {
  }

  /**
   `map_media_side`: one match per torrent file, in torrent order, all on the anchor's disk. A single
   video is the anchor; in a pack a match of known size has exactly that size, and so has any extra.
   */
  method MapMediaSide(layout: Layout, anchorId: nat, lib: Library)
    returns (found: seq<Option<nat>>, ghost neighbours: seq<nat>, ghost matches: map<nat, Option<nat>>)
    requires lib.Valid() && anchorId in lib.rows
    ensures |found| == |layout.files| && Exclusive(layout, found)
    ensures forall k :: 0 <= k < |found| ==> k in matches && found[k] == matches[k]
    ensures forall k :: 0 <= k < |found| && found[k].Some? ==>
              found[k].value in lib.rows && lib.rows[found[k].value].diskId == lib.rows[anchorId].diskId
    ensures forall k :: 0 <= k < |found| && layout.files[k].isVideo ==>
              found[k] == if Videos(layout.files) == 1 then Some(anchorId)
                          else PackVideo(layout, layout.files[k], lib.rows[anchorId].diskId, lib)
    ensures forall id :: id in neighbours <==>
              exists k :: 0 <= k < |found| && layout.files[k].isVideo && found[k].Some?
                && id in Beside(found[k].value, lib.rows[anchorId].diskId, lib)
    ensures forall k :: 0 <= k < |found| && !layout.files[k].isVideo ==>
              (forall id :: id in neighbours ==> id in lib.rows) && ExtraMatched(layout, matches, k, neighbours, lib)
    ensures forall k :: 0 <= k < |found| && found[k].Some? && layout.files[k].size.Some?
                        && !(layout.files[k].isVideo && Videos(layout.files) == 1) ==>
              lib.rows[found[k].value].size == layout.files[k].size.value
  {
    hide Videos, PackVideo, Beside, ExtraMatched;
    var videos := MatchVideos(layout, anchorId, lib);
    var disk := lib.rows[anchorId].diskId;
    var near := Neighbours(videos, disk, lib);
    neighbours := near;
    var all := MatchExtras(layout, videos, near, lib);
    matches := all;
    found := seq(|layout.files|, k requires 0 <= k < |layout.files| && k in all => all[k]);
    forall k | 0 <= k < |found| && found[k].Some?
      ensures found[k].value in lib.rows && lib.rows[found[k].value].diskId == disk
      ensures layout.files[k].size.Some? && !(layout.files[k].isVideo && Videos(layout.files) == 1) ==>
                lib.rows[found[k].value].size == layout.files[k].size.value
    {
      if !layout.files[k].isVideo {
        MatchedIsNeighbour(layout, matches, k, near, lib);
      }
    }
    forall id ensures id in neighbours <==>
        exists k :: 0 <= k < |found| && layout.files[k].isVideo && found[k].Some?
            && id in Beside(found[k].value, disk, lib)
    {
      if id in neighbours {
        var k :| k in videos && videos[k].Some? && id in Beside(videos[k].value, disk, lib);
        assert found[k] == videos[k];
      }
    }
  }

  lemma MatchedIsNeighbour(layout: Layout, matches: map<nat, Option<nat>>, k: nat, neighbours: seq<nat>, lib: Library)
    requires k in matches && k < |layout.files| && forall id :: id in neighbours ==> id in lib.rows
    requires ExtraMatched(layout, matches, k, neighbours, lib) && matches[k].Some?
    ensures matches[k].value in neighbours
    ensures layout.files[k].size.Some? ==> lib.rows[matches[k].value].size == layout.files[k].size.value
  {
  }
}
