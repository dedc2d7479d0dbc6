/** The layout of a torrent as matching sees it, and a local file (app/torrent_layout.py). */
module Layouts {
  import opened Basics
  import opened Candidates
  import opened Metainfo

  datatype LayoutFile = LayoutFile(path: string, size: Option<int>, isVideo: bool) {
    /** `full_path` */
    function FullPath(folder: Option<string>): string {
      RelPath(folder, path)
    }
  }

  datatype Layout = Layout(folder: Option<string>, files: seq<LayoutFile>, torrent: Option<TorrentInfo>)

  datatype Kind = Media | Seed

  datatype LocalFile = LocalFile(kind: Kind, id: nat, diskId: nat, relativePath: string, absPath: string, size: int)

  /** The part of a path after its last slash. */
  function Basename(path: string): string {
    if path == "" then "" else if path[|path| - 1] == '/' then "" else Basename(path[..|path| - 1]) + [path[|path| - 1]]
  }

  function Videos(files: seq<LayoutFile>): nat {
    if files == [] then 0 else Videos(files[..|files| - 1]) + if files[|files| - 1].isVideo then 1 else 0
  }
}
