/** The candidate rows that matching stores and everything after it reads (app/models.py). */
module Candidates {
  import opened Basics

  datatype Direction = MediaToTorrent | TorrentToClient

  /** A file of the torrent and the local file it was matched to. */
  datatype CandidateFile = CandidateFile(
    torrentPath: string, size: Option<int>, isVideo: bool, mediaFile: Option<nat>, seedFile: Option<nat>)
  {
    predicate HasLocal() {
      mediaFile.Some? || seedFile.Some?
    }
  }

  datatype Candidate = Candidate(
    files: seq<CandidateFile>, folder: Option<string>, pieceLength: Option<int>, downloadLink: Option<string>,
    direction: Direction)

  /** An optional text that Python would take as true. */
  predicate Given(s: Option<string>) {
    s.Some? && s.value != ""
  }

  /** `_torrent_rel_path`, and `LayoutFile.full_path`. */
  function RelPath(folder: Option<string>, torrentPath: string): string {
    if Given(folder) then folder.value + "/" + torrentPath else torrentPath
  }

  const DEFAULT_PIECE_LENGTH := 16 * 1024 * 1024

  /** `piece_length or DEFAULT_PIECE_LENGTH` */
  function PieceLengthOr(pieceLength: Option<int>): int {
    if pieceLength.Some? && pieceLength.value != 0 then pieceLength.value else DEFAULT_PIECE_LENGTH
  }

  /** `expected_missing_bytes` */
  function ExpectedMissingBytes(bytes: int, count: nat, pieceLength: Option<int>): int {
    if count == 0 then 0 else bytes + 2 * PieceLengthOr(pieceLength) * count
  }

  predicate MissingExtra(f: CandidateFile) {
    !f.isVideo && !f.HasLocal()
  }

  function MissingCount(files: seq<CandidateFile>): nat {
    if files == [] then 0
    else MissingCount(files[..|files| - 1]) + if MissingExtra(files[|files| - 1]) then 1 else 0
  }

  function MissingSize(files: seq<CandidateFile>): int {
    if files == [] then 0
    else
      var f := files[|files| - 1];
      MissingSize(files[..|files| - 1])
      + if MissingExtra(f) then (match f.size case None => 0 case Some(n) => n) else 0
  }

  /** `_missing_bytes_for` */
  function MissingBytesFor(c: Candidate): int {
    ExpectedMissingBytes(MissingSize(c.files), MissingCount(c.files), c.pieceLength)
  }
}
