/**
 Confidence of a whole torrent (`evaluate`, `_score_video`, `_verify_pieces` of
 app/torrent_layout.py): each video is scored by size, then mediainfo id, then sampled piece hashes,
 and the weakest video decides.
 */
module Scoring {
  import opened Basics
  import opened Candidates
  import opened Metainfo
  import opened SampledCheck
  import opened Layouts
  import PieceRanges
  import Sweep

  const CONFIDENCE_PIECE_VERIFIED := 0.99
  const CONFIDENCE_SIZE_AND_MEDIAINFO_MATCH := 0.9
  const CONFIDENCE_SIZE_ONLY := 0.5
  const CONFIDENCE_NO_MATCH := 0.0

  datatype FileMatch = FileMatch(
    file: LayoutFile, local: Option<LocalFile>, sizeMatch: Option<bool>, mediainfoMatch: Option<bool>,
    pieceVerified: Option<bool>, boundaryCount: Option<nat>, confidence: real)

  /** A match as the mapping creates it. */
  predicate Unscored(m: FileMatch) {
    m.sizeMatch.None? && m.mediainfoMatch.None? && m.pieceVerified.None? && m.boundaryCount.None?
    && m.confidence == CONFIDENCE_NO_MATCH
  }

  datatype Reason =
    | NoVideoInTorrent | SeasonPackPartial | NoLocalFile | AnchorNotInTorrent
    | SizeMismatch | MediainfoMismatch | PieceMismatch

  datatype Evaluation = Evaluation(
    files: seq<FileMatch>, confidence: real, reason: Option<Reason>, sizeMatch: Option<bool>,
    mediainfoMatch: Option<bool>, pieceVerified: Option<bool>, boundaryCount: Option<nat>,
    missingExtraBytes: int, missingExtraCount: nat)

  /**
   What scoring asks of the outside: ids from the tracker, ids of local files, the disk and the hash. `untiled`
   stands for the sampled check of an entry outside the stream, which only negative lengths can give.
   */
  datatype Evidence = Evidence(
    anchorId: nat, uniqueIds: map<string, string>, singleUniqueId: Option<string>,
    computeUniqueId: string -> Option<string>, fold: string -> string, disk: Sweep.Disk, sha1: Sweep.Sha1,
    untiled: Target -> PieceVerifyResult)

  // ---------------------------------------------------------------- one video

  /** The id the tracker gives for this file: by name in a pack, else the single one first. */
  function ExpectedId(m: FileMatch, videoCount: nat, ev: Evidence): Option<string> {
    var name := Basename(m.file.path);
    var byName := if name in ev.uniqueIds then Some(ev.uniqueIds[name]) else None;
    if videoCount > 1 then byName else if Given(ev.singleUniqueId) then ev.singleUniqueId else byName
  }

  /** `_score_video` */
  function ScoreVideo(m: FileMatch, videoCount: nat, ev: Evidence): FileMatch
    requires m.local.Some?
  {
    if m.file.size.None? then m.(sizeMatch := None, confidence := CONFIDENCE_NO_MATCH)
    else if m.local.value.size != m.file.size.value then m.(sizeMatch := Some(false), confidence := CONFIDENCE_NO_MATCH)
    else
      var expected := ExpectedId(m, videoCount, ev);
      var localId := if expected.Some? then ev.computeUniqueId(m.local.value.absPath) else None;
      var id := if localId.Some? then Some(localId == expected) else m.mediainfoMatch;
      m.(sizeMatch := Some(true), mediainfoMatch := id,
         confidence := if id == Some(true) then CONFIDENCE_SIZE_AND_MEDIAINFO_MATCH
                       else if id == Some(false) then CONFIDENCE_NO_MATCH
                       else CONFIDENCE_SIZE_ONLY)
  }

  /** The torrent entry of a layout file: by path, else by folded base name. */
  function EntryFor(path: string, files: seq<FileEntry>, fold: string -> string): Option<FileEntry> {
    var exact := FirstWhere(files, (e: FileEntry) => e.path == path);
    if exact.Some? then exact
    else FirstWhere(files, (e: FileEntry) => fold(Basename(e.path)) == fold(Basename(path)))
  }

  function FirstWhere(s: seq<FileEntry>, p: FileEntry -> bool): (r: Option<FileEntry>)
    ensures r.Some? ==> r.value in s && p(r.value)
    ensures r.None? ==> forall x :: x in s ==> !p(x)
  {
    if s == [] then None
    else if p(s[0]) then Some(s[0])
    else
      assert forall x :: x in s <==> x == s[0] || x in s[1..];
      FirstWhere(s[1..], p)
  }

  /** Pieces sampled per video. */
  const PIECE_SAMPLE_SIZE := 8

  /** The call of the sampled check for this local file and torrent entry. */
  function TargetFor(local: LocalFile, entry: FileEntry, parsed: TorrentInfo, ev: Evidence): Target {
    Target(local.absPath, parsed.pieceLength, parsed.pieces, parsed.totalLength, entry.offset, entry.length, ev.disk,
        ev.sha1)
  }

  function Sampled(local: LocalFile, entry: FileEntry, parsed: TorrentInfo, ev: Evidence): PieceVerifyResult {
    var t := TargetFor(local, entry, parsed, ev);
    if t.Valid() then t.Checked(Some(PIECE_SAMPLE_SIZE)) else ev.untiled(t)
  }

  /** `_verify_pieces` */
  function VerifyPieces(m: FileMatch, parsed: TorrentInfo, ev: Evidence): FileMatch
    requires m.local.Some?
  {
    match EntryFor(m.file.path, parsed.files, ev.fold)
    case None => m
    case Some(entry) =>
      var result := Sampled(m.local.value, entry, parsed, ev);
      var seen := m.(boundaryCount := Some(result.boundary));
      if result.mismatches > 0 then seen.(pieceVerified := Some(false), confidence := CONFIDENCE_NO_MATCH)
      else if result.Clean() then seen.(pieceVerified := Some(true), confidence := CONFIDENCE_PIECE_VERIFIED)
      else seen
  }

  // ---------------------------------------------------------------- the program

  function VideoCount(ms: seq<FileMatch>): nat {
    if ms == [] then 0 else VideoCount(ms[..|ms| - 1]) + if ms[|ms| - 1].file.isVideo then 1 else 0
  }

  // The questions `any(... for m in videos)` of the source.

  predicate SomeVideoLacksFile(ms: seq<FileMatch>) {
    exists k :: 0 <= k < |ms| && ms[k].file.isVideo && ms[k].local.None?
  }

  predicate SomeSizeWrong(ms: seq<FileMatch>) {
    exists k :: 0 <= k < |ms| && ms[k].file.isVideo && ms[k].sizeMatch == Some(false)
  }

  predicate SomeIdWrong(ms: seq<FileMatch>) {
    exists k :: 0 <= k < |ms| && ms[k].file.isVideo && ms[k].mediainfoMatch == Some(false)
  }

  predicate SomePieceWrong(ms: seq<FileMatch>) {
    exists k :: 0 <= k < |ms| && ms[k].file.isVideo && ms[k].pieceVerified == Some(false)
  }

  predicate SomeNeedsPieces(ms: seq<FileMatch>) {
    exists k :: 0 <= k < |ms| && NeedsPieces(ms[k])
  }

  /** `c` is the lowest confidence of a video. */
  predicate Weakest(ms: seq<FileMatch>, c: real) {
    && (exists k :: 0 <= k < |ms| && ms[k].file.isVideo && ms[k].confidence == c)
    && (forall k :: 0 <= k < |ms| && ms[k].file.isVideo ==> c <= ms[k].confidence)
  }

  predicate AnchorMatched(ms: seq<FileMatch>, anchorId: nat) {
    exists k :: 0 <= k < |ms| && ms[k].local.Some? && ms[k].local.value.id == anchorId
  }

  /** Why the torrent cannot be scored at all, from the mapping alone. */
  function MappingReason(ms: seq<FileMatch>, anchorId: nat): Option<Reason> {
    if VideoCount(ms) == 0 then Some(NoVideoInTorrent)
    else if SomeVideoLacksFile(ms) then
      Some(if VideoCount(ms) > 1 then SeasonPackPartial else NoLocalFile)
    else if !AnchorMatched(ms, anchorId) then Some(AnchorNotInTorrent)
    else None
  }

  function MissingBytes(ms: seq<FileMatch>): int {
    if ms == [] then 0
    else
      var m := ms[|ms| - 1];
      MissingBytes(ms[..|ms| - 1])
      + if !m.file.isVideo && m.local.None? then (match m.file.size case None => 0 case Some(n) => n) else 0
  }

  function MissingExtras(ms: seq<FileMatch>): nat {
    if ms == [] then 0
    else
      var m := ms[|ms| - 1];
      MissingExtras(ms[..|ms| - 1]) + if !m.file.isVideo && m.local.None? then 1 else 0
  }

  predicate VideosHaveLocal(ms: seq<FileMatch>) {
    forall k :: 0 <= k < |ms| && ms[k].file.isVideo ==> ms[k].local.Some?
  }

  /** Every video scored, the extras as they were. */
  function Scored(ms: seq<FileMatch>, ev: Evidence): (r: seq<FileMatch>)
    requires VideosHaveLocal(ms)
    ensures |r| == |ms|
    ensures forall k :: 0 <= k < |ms| ==>
              r[k] == if ms[k].file.isVideo then ScoreVideo(ms[k], VideoCount(ms), ev) else ms[k]
  {
    seq(|ms|, k requires 0 <= k < |ms| =>
      if ms[k].file.isVideo then ScoreVideo(ms[k], VideoCount(ms), ev) else ms[k])
  }

  /** Every video known by size alone checked against the .torrent. */
  function Verified(ms: seq<FileMatch>, parsed: TorrentInfo, ev: Evidence): (r: seq<FileMatch>)
    requires VideosHaveLocal(ms)
    ensures |r| == |ms|
    ensures forall k :: 0 <= k < |ms| ==>
              r[k] == if NeedsPieces(ms[k]) then VerifyPieces(ms[k], parsed, ev) else ms[k]
  {
    seq(|ms|, k requires 0 <= k < |ms| => if NeedsPieces(ms[k]) then VerifyPieces(ms[k], parsed, ev) else ms[k])
  }

  /** The reason scoring alone can give. */
  function ScoreReason(scored: seq<FileMatch>): Option<Reason> {
    if SomeSizeWrong(scored) then Some(SizeMismatch)
    else if SomeIdWrong(scored) then Some(MediainfoMismatch)
    else None
  }

  /** The .torrent is looked at: nothing speaks against the torrent and a video is known by size alone. */
  predicate LooksAtTorrent(ms: seq<FileMatch>, ev: Evidence) {
    MappingReason(ms, ev.anchorId).None? && VideosHaveLocal(ms)
    && ScoreReason(Scored(ms, ev)).None? && SomeNeedsPieces(Scored(ms, ev))
  }

  // The columns of the whole torrent: wrong if a video is wrong, right if every video is right.

  predicate EverySizeRight(ms: seq<FileMatch>) {
    forall k :: 0 <= k < |ms| && ms[k].file.isVideo ==> ms[k].sizeMatch == Some(true)
  }

  predicate EveryIdRight(ms: seq<FileMatch>) {
    forall k :: 0 <= k < |ms| && ms[k].file.isVideo ==> ms[k].mediainfoMatch == Some(true)
  }

  predicate EveryPieceRight(ms: seq<FileMatch>) {
    forall k :: 0 <= k < |ms| && ms[k].file.isVideo ==> ms[k].pieceVerified == Some(true)
  }

  /** `_all`, over at least one video. */
  function Together(videos: nat, wrong: bool, right: bool): Option<bool> {
    if videos == 0 then None else if wrong then Some(false) else if right then Some(true) else None
  }

  function Boundaries(ms: seq<FileMatch>): Option<nat> {
    if ms == [] then None
    else
      var before, m := Boundaries(ms[..|ms| - 1]), ms[|ms| - 1];
      if !m.file.isVideo || m.boundaryCount.None? then before
      else Some(m.boundaryCount.value + if before.Some? then before.value else 0)
  }

  /** The lowest confidence of a video, if there is one. */
  function Lowest(ms: seq<FileMatch>): (c: Option<real>)
    ensures c.Some? ==> Weakest(ms, c.value)
    ensures c.None? <==> VideoCount(ms) == 0
    ensures c.None? ==> forall k :: 0 <= k < |ms| ==> !ms[k].file.isVideo
  {
    if ms == [] then None
    else
      var before, m := Lowest(ms[..|ms| - 1]), ms[|ms| - 1];
      WeakestOfMore(ms);
      if !m.file.isVideo then before
      else if before.Some? && before.value <= m.confidence then before
      else Some(m.confidence)
  }

  lemma WeakestOfMore(ms: seq<FileMatch>)
    requires ms != []
    ensures var before, m := ms[..|ms| - 1], ms[|ms| - 1];
      && (forall k :: 0 <= k < |before| ==> before[k] == ms[k])
      && (!m.file.isVideo ==> forall c :: Weakest(before, c) ==> Weakest(ms, c))
      && (m.file.isVideo ==> forall c :: Weakest(before, c) ==>
            Weakest(ms, if c <= m.confidence then c else m.confidence))
      && (m.file.isVideo && (forall k :: 0 <= k < |before| ==> !before[k].file.isVideo) ==> Weakest(ms, m.confidence))
  {
    var before, m := ms[..|ms| - 1], ms[|ms| - 1];
    assert ms[|before|] == m;
    forall c | Weakest(before, c) ensures m.file.isVideo ==> Weakest(ms, if c <= m.confidence then c else m.confidence)
      ensures !m.file.isVideo ==> Weakest(ms, c)
    {
      var k :| 0 <= k < |before| && before[k].file.isVideo && before[k].confidence == c;
      assert ms[k].file.isVideo && ms[k].confidence == c;
    }
  }

  /** The matches after the two loops; `torrent` is what is known of the .torrent by then. */
  function FinalFiles(ms: seq<FileMatch>, torrent: Option<TorrentInfo>, ev: Evidence): seq<FileMatch> {
    if MappingReason(ms, ev.anchorId).Some? || !VideosHaveLocal(ms) then ms
    else if LooksAtTorrent(ms, ev) && torrent.Some? then
      ScoredHaveLocal(ms, ev);
      Verified(Scored(ms, ev), torrent.value, ev)
    else Scored(ms, ev)
  }

  function FinalReason(ms: seq<FileMatch>, torrent: Option<TorrentInfo>, ev: Evidence): Option<Reason> {
    var files := FinalFiles(ms, torrent, ev);
    if MappingReason(ms, ev.anchorId).Some? || !VideosHaveLocal(ms) then MappingReason(ms, ev.anchorId)
    else if LooksAtTorrent(ms, ev) && torrent.Some? then
      if SomePieceWrong(files) then Some(PieceMismatch) else None
    else ScoreReason(files)
  }

  lemma ScoredHaveLocal(ms: seq<FileMatch>, ev: Evidence)
    requires VideosHaveLocal(ms)
    ensures VideosHaveLocal(Scored(ms, ev))
  {
  }

  function EvaluationOf(ms: seq<FileMatch>, torrent: Option<TorrentInfo>, ev: Evidence): Evaluation {
    var files, reason, videos := FinalFiles(ms, torrent, ev), FinalReason(ms, torrent, ev), VideoCount(ms);
    Evaluation(
      files, if reason.None? && Lowest(files).Some? then Lowest(files).value else CONFIDENCE_NO_MATCH, reason,
      Together(videos, SomeSizeWrong(files), EverySizeRight(files)),
      Together(videos, SomeIdWrong(files), EveryIdRight(files)),
      Together(videos, SomePieceWrong(files), EveryPieceRight(files)),
      Boundaries(files), MissingBytes(ms), MissingExtras(ms))
  }

  /** The first scoring loop. */
  method ScoreAll(ms: seq<FileMatch>, ev: Evidence) returns (scored: seq<FileMatch>)
    requires VideosHaveLocal(ms)
    ensures scored == Scored(ms, ev)
  {
    scored := ms;
    var count := VideoCount(ms);
    for k := 0 to |ms|
      invariant |scored| == |ms|
      invariant forall j :: 0 <= j < |ms| ==>
                  scored[j] == if j < k && ms[j].file.isVideo then ScoreVideo(ms[j], count, ev) else ms[j]
    {
      if scored[k].file.isVideo {
        scored := scored[k := ScoreVideo(scored[k], count, ev)];
      }
    }
  }

  /** The second one: piece hashes, only for the videos known by size alone. */
  method VerifyAll(ms: seq<FileMatch>, parsed: TorrentInfo, ev: Evidence) returns (verified: seq<FileMatch>)
    requires VideosHaveLocal(ms)
    ensures verified == Verified(ms, parsed, ev)
  {
    hide VerifyPieces, Verified;
    verified := ms;
    for k := 0 to |ms|
      invariant |verified| == |ms|
      invariant forall j :: 0 <= j < |ms| ==>
                  verified[j] == if j < k && NeedsPieces(ms[j]) then VerifyPieces(ms[j], parsed, ev) else ms[j]
    {
      if NeedsPieces(verified[k]) {
        verified := verified[k := VerifyPieces(verified[k], parsed, ev)];
      }
    }
  }

  predicate NeedsPieces(m: FileMatch) {
    m.file.isVideo && m.confidence == CONFIDENCE_SIZE_ONLY
  }

  /** `min` over the videos, of which there is at least one. */
  method WeakestVideo(ms: seq<FileMatch>) returns (confidence: real)
    requires VideoCount(ms) > 0
    ensures Weakest(ms, confidence) && Lowest(ms) == Some(confidence)
  {
    var found: Option<real> := None;
    for k := 0 to |ms|
      invariant found.Some? <==> exists j :: 0 <= j < k && ms[j].file.isVideo
      invariant found.Some? ==> exists j :: 0 <= j < k && ms[j].file.isVideo && ms[j].confidence == found.value
      invariant found.Some? ==> forall j :: 0 <= j < k && ms[j].file.isVideo ==> found.value <= ms[j].confidence
    {
      if ms[k].file.isVideo && (found.None? || ms[k].confidence < found.value) {
        found := Some(ms[k].confidence);
      }
    }
    VideosCounted(ms);
    confidence := found.value;
    OneWeakest(ms, confidence, Lowest(ms).value);
  }

  lemma OneWeakest(ms: seq<FileMatch>, a: real, b: real)
    requires Weakest(ms, a) && Weakest(ms, b)
    ensures a == b
  {
  }

  lemma {:induction false} VideosCounted(ms: seq<FileMatch>)
    ensures VideoCount(ms) > 0 <==> exists k :: 0 <= k < |ms| && ms[k].file.isVideo
  {
    if ms != [] {
      var front := ms[..|ms| - 1];
      VideosCounted(front);
      assert forall k :: 0 <= k < |front| ==> front[k] == ms[k];
      if exists k :: 0 <= k < |ms| && ms[k].file.isVideo {
        var k :| 0 <= k < |ms| && ms[k].file.isVideo;
        assert k < |front| ==> front[k].file.isVideo;
      }
    }
  }

  /** A confidence the rules can give. */
  predicate Level(c: real) {
    c == CONFIDENCE_NO_MATCH || c == CONFIDENCE_SIZE_ONLY || c == CONFIDENCE_SIZE_AND_MEDIAINFO_MATCH
    || c == CONFIDENCE_PIECE_VERIFIED
  }

  /** What stands behind each level of a single video. */
  predicate Backed(m: FileMatch) {
    && Level(m.confidence)
    && (m.confidence > CONFIDENCE_NO_MATCH ==>
          && m.local.Some? && m.file.size == Some(m.local.value.size) && m.sizeMatch == Some(true)
          && m.mediainfoMatch != Some(false) && m.pieceVerified != Some(false))
    && (m.confidence == CONFIDENCE_SIZE_AND_MEDIAINFO_MATCH ==> m.mediainfoMatch == Some(true))
    && (m.confidence == CONFIDENCE_PIECE_VERIFIED <==> m.pieceVerified == Some(true))
  }

  lemma ScoreIsBacked(m: FileMatch, count: nat, ev: Evidence)
    requires m.local.Some? && Unscored(m)
    ensures Backed(ScoreVideo(m, count, ev))
    ensures ScoreVideo(m, count, ev).pieceVerified.None?
  {
  }

  lemma VerifyKeepsBacking(m: FileMatch, parsed: TorrentInfo, ev: Evidence)
    requires m.local.Some? && Backed(m) && m.confidence == CONFIDENCE_SIZE_ONLY && m.pieceVerified.None?
    ensures Backed(VerifyPieces(m, parsed, ev))
    ensures VerifyPieces(m, parsed, ev).pieceVerified == Some(false) ==>
              VerifyPieces(m, parsed, ev).confidence == CONFIDENCE_NO_MATCH
  {
  }

  /** The sampled check of the torrent's entry for this video came out clean. */
  predicate SampledClean(m: FileMatch, parsed: TorrentInfo, ev: Evidence) {
    m.local.Some? && EntryFor(m.file.path, parsed.files, ev.fold).Some?
    && Sampled(m.local.value, EntryFor(m.file.path, parsed.files, ev.fold).value, parsed, ev).Clean()
  }

  /** It found a piece that differs. */
  predicate SampledWrong(m: FileMatch, parsed: TorrentInfo, ev: Evidence) {
    m.local.Some? && EntryFor(m.file.path, parsed.files, ev.fold).Some?
    && Sampled(m.local.value, EntryFor(m.file.path, parsed.files, ev.fold).value, parsed, ev).mismatches > 0
  }

  /** A video says its pieces are right, or wrong, only when the check of the .torrent said so. */
  predicate Evidenced(ms: seq<FileMatch>, torrent: Option<TorrentInfo>, ev: Evidence) {
    forall k :: 0 <= k < |ms| && ms[k].file.isVideo ==>
      && (ms[k].pieceVerified == Some(true) ==> torrent.Some? && SampledClean(ms[k], torrent.value, ev))
      && (ms[k].pieceVerified == Some(false) ==> torrent.Some? && SampledWrong(ms[k], torrent.value, ev))
  }

  lemma VerifyIsEvidence(m: FileMatch, parsed: TorrentInfo, ev: Evidence)
    requires m.local.Some? && m.pieceVerified.None?
    ensures var v := VerifyPieces(m, parsed, ev);
      && v.file == m.file && v.local == m.local
      && (v.pieceVerified == Some(true) <==> SampledClean(v, parsed, ev))
      && (v.pieceVerified == Some(false) <==> SampledWrong(v, parsed, ev))
  {
    hide EntryFor, Sampled;
  }

  lemma VerifiedIsEvidenced(scored: seq<FileMatch>, parsed: TorrentInfo, ev: Evidence)
    requires VideosHaveLocal(scored)
    requires forall k :: 0 <= k < |scored| && scored[k].file.isVideo ==> scored[k].pieceVerified.None?
    ensures Evidenced(Verified(scored, parsed, ev), Some(parsed), ev)
  {
    hide EntryFor, Sampled, SampledClean, SampledWrong, VerifyPieces;
    var verified := Verified(scored, parsed, ev);
    forall k | 0 <= k < |scored| && NeedsPieces(scored[k])
      ensures verified[k].pieceVerified == Some(true) ==> SampledClean(verified[k], parsed, ev)
      ensures verified[k].pieceVerified == Some(false) ==> SampledWrong(verified[k], parsed, ev)
      ensures verified[k].file == scored[k].file
    {
      VerifyIsEvidence(scored[k], parsed, ev);
    }
  }

  /** The final matches keep what the mapping found: same file, same local file, extras untouched. */
  predicate SameMapping(before: seq<FileMatch>, after: seq<FileMatch>) {
    && |after| == |before|
    && forall k :: 0 <= k < |before| ==>
         && after[k].file == before[k].file && after[k].local == before[k].local
         && (!before[k].file.isVideo ==> after[k] == before[k])
  }

  /**
   `evaluate`. A positive confidence is the weakest video's, and then every video is backed by a local
   file of exactly the torrent's size with no contradicting evidence, and the anchor is among the
   matches. The .torrent is fetched at most once, and only for a video known by size alone.
   */
  method Evaluate(ms: seq<FileMatch>, layout: Layout, ev: Evidence, fetch: Option<TorrentInfo>)
    returns (e: Evaluation, torrent: Option<TorrentInfo>, fetches: nat)
    requires forall k :: 0 <= k < |ms| ==> Unscored(ms[k])
    ensures e == EvaluationOf(ms, torrent, ev) && SameMapping(ms, e.files) && Sound(e)
    ensures Evidenced(e.files, torrent, ev)
    ensures e.reason.None? ==> MappingReason(ms, ev.anchorId).None? && Weakest(e.files, e.confidence)
    ensures MappingReason(ms, ev.anchorId).Some? ==> e.reason == MappingReason(ms, ev.anchorId) && e.files == ms
    ensures fetches == if LooksAtTorrent(ms, ev) && layout.torrent.None? then 1 else 0
    ensures MappingReason(ms, ev.anchorId).None? ==>
              && VideosHaveLocal(ms)
              && if LooksAtTorrent(ms, ev) && torrent.Some?
                 then
                   && e.files == Verified(Scored(ms, ev), torrent.value, ev)
                   && e.reason == if SomePieceWrong(e.files)
                                  then Some(PieceMismatch) else None
                 else e.files == Scored(ms, ev) && e.reason == ScoreReason(e.files)
    ensures layout.torrent.Some? ==> torrent == layout.torrent
    ensures layout.torrent.None? ==> torrent == if fetches == 1 then fetch else None
    ensures e.missingExtraBytes == MissingBytes(ms) && e.missingExtraCount == MissingExtras(ms)
  {
    hide ScoreVideo, VerifyPieces, VideoCount, MissingBytes, MissingExtras, Weakest, SameMapping, Sound, Evidenced;
    hide Boundaries;
    hide SomeSizeWrong, SomeIdWrong, SomePieceWrong, SomeNeedsPieces, SomeVideoLacksFile, AnchorMatched;
    hide EverySizeRight, EveryIdRight, EveryPieceRight, Together, Scored, Verified;
    var files := ms;
    torrent, fetches := layout.torrent, 0;
    var reason := MappingReason(ms, ev.anchorId);
    if reason.None? {
      LocalOfVideos(ms, ev.anchorId);
      ScoredHaveLocal(ms, ev);
      files := ScoreAll(ms, ev);
      if SomeSizeWrong(files) {
        reason := Some(SizeMismatch);
      } else if SomeIdWrong(files) {
        reason := Some(MediainfoMismatch);
      }
      if reason.None? && SomeNeedsPieces(files) {
        if torrent.None? {
          torrent, fetches := fetch, 1;
        }
        if torrent.Some? {
          files := VerifyAll(files, torrent.value, ev);
          if SomePieceWrong(files) {
            reason := Some(PieceMismatch);
          }
        }
      }
    }
    assert files == FinalFiles(ms, torrent, ev) && reason == FinalReason(ms, torrent, ev);
    EvaluationIsSound(ms, torrent, ev);
    var confidence := CONFIDENCE_NO_MATCH;
    if reason.None? {
      SameCount(ms, files);
      confidence := WeakestVideo(files);
    }
    var videos := VideoCount(ms);
    e := Evaluation(
      files, confidence, reason,
      Together(videos, SomeSizeWrong(files), EverySizeRight(files)),
      Together(videos, SomeIdWrong(files), EveryIdRight(files)),
      Together(videos, SomePieceWrong(files), EveryPieceRight(files)),
      Boundaries(files), MissingBytes(ms), MissingExtras(ms));
  }

  /** What every evaluation of fresh matches guarantees. */
  lemma EvaluationIsSound(ms: seq<FileMatch>, torrent: Option<TorrentInfo>, ev: Evidence)
    requires forall k :: 0 <= k < |ms| ==> Unscored(ms[k])
    ensures var e := EvaluationOf(ms, torrent, ev);
      SameMapping(ms, e.files) && Sound(e) && Evidenced(e.files, torrent, ev)
  {
    hide ScoreVideo, VerifyPieces, VideoCount, MissingBytes, MissingExtras, SameMapping, Boundaries, Together, Backed;
    hide SomeSizeWrong, SomeIdWrong, SomePieceWrong, SomeNeedsPieces, SomeVideoLacksFile, AnchorMatched, Weakest;
    hide SampledClean, SampledWrong;
    SameMappingIsReflexive(ms);
    var files := FinalFiles(ms, torrent, ev);
    if MappingReason(ms, ev.anchorId).None? {
      LocalOfVideos(ms, ev.anchorId);
      AllBacked(ms, Scored(ms, ev), ev);
      if LooksAtTorrent(ms, ev) && torrent.Some? {
        StillBacked(Scored(ms, ev), files, torrent.value, ev);
        VerifiedIsEvidenced(Scored(ms, ev), torrent.value, ev);
        SameMappingComposes(ms, Scored(ms, ev), files);
      }
      SameCount(ms, files);
      LowestIsLevel(files);
    }
  }

  /**
   Exactly when a video's pieces are called right, or wrong: when the .torrent is looked at, the video is known by
   size alone, and its sampled check is clean, or finds a difference.
   */
  lemma PieceVerdictIff(ms: seq<FileMatch>, torrent: Option<TorrentInfo>, ev: Evidence, k: nat)
    requires (forall j :: 0 <= j < |ms| ==> Unscored(ms[j])) && k < |ms| && ms[k].file.isVideo
    ensures var files := EvaluationOf(ms, torrent, ev).files;
      var checked := LooksAtTorrent(ms, ev) && torrent.Some? && NeedsPieces(Scored(ms, ev)[k]);
      && |files| == |ms|
      && (files[k].pieceVerified == Some(true) <==> checked && SampledClean(files[k], torrent.value, ev))
      && (files[k].pieceVerified == Some(false) <==> checked && SampledWrong(files[k], torrent.value, ev))
  {
    hide VerifyPieces, VideoCount, MissingBytes, MissingExtras, Boundaries, Together, Backed, SampledClean;
    hide SampledWrong, SomeSizeWrong, SomeIdWrong, SomePieceWrong, SomeNeedsPieces, SomeVideoLacksFile, AnchorMatched;
    hide ExpectedId, Lowest;
    if VideosHaveLocal(ms) {
      var scored := Scored(ms, ev);
      assert scored[k].pieceVerified.None? && scored[k].local.Some?;
      if torrent.Some? {
        VerifyIsEvidence(scored[k], torrent.value, ev);
      }
    }
  }

  lemma LowestIsLevel(ms: seq<FileMatch>)
    requires VideoCount(ms) > 0 && forall k :: 0 <= k < |ms| && ms[k].file.isVideo ==> Backed(ms[k])
    ensures Lowest(ms).Some? && Level(Lowest(ms).value)
  {
  }

  lemma SameMappingIsReflexive(ms: seq<FileMatch>)
    ensures SameMapping(ms, ms)
  {
  }

  lemma SameMappingComposes(a: seq<FileMatch>, b: seq<FileMatch>, c: seq<FileMatch>)
    requires SameMapping(a, b) && SameMapping(b, c)
    ensures SameMapping(a, c)
  {
  }

  lemma LocalOfVideos(ms: seq<FileMatch>, anchorId: nat)
    requires MappingReason(ms, anchorId).None?
    ensures VideosHaveLocal(ms) && VideoCount(ms) > 0 && AnchorMatched(ms, anchorId)
  {
  }

  lemma AllBacked(ms: seq<FileMatch>, scored: seq<FileMatch>, ev: Evidence)
    requires VideosHaveLocal(ms) && (forall k :: 0 <= k < |ms| ==> Unscored(ms[k])) && scored == Scored(ms, ev)
    ensures SameMapping(ms, scored) && VideosHaveLocal(scored)
    ensures forall k :: 0 <= k < |scored| && scored[k].file.isVideo ==>
              Backed(scored[k]) && scored[k].pieceVerified.None?
  {
    hide VideoCount, ExpectedId, Backed;
    forall k | 0 <= k < |ms| && ms[k].file.isVideo ensures Backed(scored[k]) && scored[k].pieceVerified.None? {
      ScoreIsBacked(ms[k], VideoCount(ms), ev);
    }
  }

  lemma StillBacked(scored: seq<FileMatch>, verified: seq<FileMatch>, parsed: TorrentInfo, ev: Evidence)
    requires VideosHaveLocal(scored) && verified == Verified(scored, parsed, ev)
    requires forall k :: 0 <= k < |scored| && scored[k].file.isVideo ==>
              Backed(scored[k]) && scored[k].pieceVerified.None?
    ensures SameMapping(scored, verified)
    ensures forall k :: 0 <= k < |verified| && verified[k].file.isVideo ==> Backed(verified[k])
  {
    hide EntryFor, Backed;
    forall k | 0 <= k < |scored| && scored[k].file.isVideo ensures Backed(verified[k]) {
      if NeedsPieces(scored[k]) {
        VerifyKeepsBacking(scored[k], parsed, ev);
      }
    }
  }

  lemma {:induction false} SameCount(ms: seq<FileMatch>, after: seq<FileMatch>)
    requires SameMapping(ms, after)
    ensures VideoCount(after) == VideoCount(ms)
  {
    if ms != [] {
      SameCount(ms[..|ms| - 1], after[..|after| - 1]);
    }
  }

  /** What `Evaluate` guarantees of its answer, as one predicate over the answer. */
  ghost predicate Sound(e: Evaluation) {
    && Level(e.confidence)
    && (e.reason.Some? ==> e.confidence == CONFIDENCE_NO_MATCH)
    && (e.reason.None? ==>
          Weakest(e.files, e.confidence) && forall k :: 0 <= k < |e.files| && e.files[k].file.isVideo ==>
              Backed(e.files[k]))
  }

  /** Thresholds above which a review is recommended, and may run by itself (app/review.py). */
  const DEFAULT_THRESHOLD_MEDIA_TO_TORRENT := 0.95
  const DEFAULT_THRESHOLD_TORRENT_TO_CLIENT := 0.98

  function DefaultThreshold(d: Direction): real {
    if d == MediaToTorrent then DEFAULT_THRESHOLD_MEDIA_TO_TORRENT else DEFAULT_THRESHOLD_TORRENT_TO_CLIENT
  }

  /**
   At the default thresholds a recommended torrent has had every video sampled against the .torrent with a
   clean answer: no combination of sizes and mediainfo ids reaches them.
   */
  lemma RecommendedIsPieceVerified(e: Evaluation, torrent: Option<TorrentInfo>, ev: Evidence, d: Direction)
    requires Sound(e) && Evidenced(e.files, torrent, ev) && e.confidence >= DefaultThreshold(d)
    ensures e.confidence == CONFIDENCE_PIECE_VERIFIED && torrent.Some?
    ensures forall k :: 0 <= k < |e.files| && e.files[k].file.isVideo ==>
              && e.files[k].pieceVerified == Some(true) && SampledClean(e.files[k], torrent.value, ev)
              && e.files[k].local.Some? && e.files[k].file.size == Some(e.files[k].local.value.size)
  {
    hide SampledClean, SampledWrong;
    forall k | 0 <= k < |e.files| && e.files[k].file.isVideo
      ensures Backed(e.files[k]) && e.confidence <= e.files[k].confidence
    {
    }
  }

  /** Every entry of a torrent without negative lengths lies inside the stream. */
  lemma EntryIsInside(m: FileMatch, parsed: TorrentInfo, ev: Evidence)
    requires Sweep.Tiles(parsed) && SampledClean(m, parsed, ev)
    ensures TargetFor(m.local.value, EntryFor(m.file.path, parsed.files, ev.fold).value, parsed, ev).Valid()
  {
    hide Target.Checked;
    var entry := EntryFor(m.file.path, parsed.files, ev.fold).value;
    var k :| 0 <= k < |parsed.files| && parsed.files[k] == entry;
    var job := Sweep.Job(parsed, seq(|parsed.files|, i => None), ev.disk, ev.sha1);
    PieceRanges.WithinStream(job, k);
  }

  /**
   What that means for each video, in a torrent without negative lengths: its local file was opened, and of the
   pieces lying wholly inside it, all of them up to eight were read and hash to what the torrent says. Nothing
   was hashed exactly when no piece lies wholly inside the video.
   */
  lemma RecommendedIsHashed(e: Evaluation, parsed: TorrentInfo, ev: Evidence, d: Direction, k: nat)
    requires Sound(e) && Evidenced(e.files, Some(parsed), ev) && e.confidence >= DefaultThreshold(d)
    requires Sweep.Tiles(parsed) && k < |e.files| && e.files[k].file.isVideo
    ensures e.files[k].local.Some? && EntryFor(e.files[k].file.path, parsed.files, ev.fold).Some?
    ensures var t := TargetFor(e.files[k].local.value, EntryFor(e.files[k].file.path, parsed.files, ev.fold).value,
        parsed, ev);
      && t.Valid() && t.disk.Opens(t.path)
      && var sample := SampleFrom(t.InnerPieces(), Some(PIECE_SAMPLE_SIZE));
      && t.AllUsable(sample) && |sample| == Min(|t.InnerPieces()|, PIECE_SAMPLE_SIZE)
      && (forall x :: x in sample ==> t.IsInner(x) && t.Matches(x))
      && (sample == [] <==> forall idx: nat :: !t.IsInner(idx))
  {
    hide EntryFor, SampleFrom, Sound, Evidenced, Target.InnerPieces, Target.IsInner, Target.Usable, Target.Matches;
    hide Target.Valid;
    RecommendedIsPieceVerified(e, Some(parsed), ev, d);
    EntryIsInside(e.files[k], parsed, ev);
    var entry := EntryFor(e.files[k].file.path, parsed.files, ev.fold).value;
    CleanMeans(TargetFor(e.files[k].local.value, entry, parsed, ev), PIECE_SAMPLE_SIZE);
  }

  /** A video of three bytes between its neighbours' pieces gets the highest confidence with nothing hashed. */
  lemma VerifiedWithNothingHashed(m: FileMatch, parsed: TorrentInfo, ev: Evidence)
    requires m.file.path == "v" && m.local.Some? && ev.disk.Opens(m.local.value.absPath)
    requires parsed.files == [FileEntry("a", 1, 0), FileEntry("v", 3, 1), FileEntry("b", 6, 4)]
    requires parsed.pieceLength == 3 && parsed.totalLength == 10
    ensures VerifyPieces(m, parsed, ev).confidence == CONFIDENCE_PIECE_VERIFIED
    ensures VerifyPieces(m, parsed, ev).pieceVerified == Some(true)
    ensures var t := TargetFor(m.local.value, parsed.files[1], parsed, ev);
      t.Valid() && t.Checked(Some(PIECE_SAMPLE_SIZE)) == PieceVerifyResult(0, 0, 2)
  {
    hide Target.Checked;
    assert EntryFor("v", parsed.files, ev.fold) == Some(parsed.files[1]) by {
      VideoIsFound(parsed.files);
    }
    CleanWithNothingHashed(TargetFor(m.local.value, parsed.files[1], parsed, ev), PIECE_SAMPLE_SIZE);
  }

  lemma VideoIsFound(files: seq<FileEntry>)
    requires files == [FileEntry("a", 1, 0), FileEntry("v", 3, 1), FileEntry("b", 6, 4)]
    ensures FirstWhere(files, (e: FileEntry) => e.path == "v") == Some(files[1])
  {
    var found := FirstWhere(files, (e: FileEntry) => e.path == "v");
    assert files[1] in files && files[0].path != "v" && files[2].path != "v";
  }
}
