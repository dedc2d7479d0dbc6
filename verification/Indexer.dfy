/**
 What a torrent client seeds, copied into tables (app/torrent_indexer.py, app/db_utils.py): rows are
 written in chunks, keyed by client and info hash and by torrent and path; what the client no longer
 lists is removed. `locate` stands for the joined and normalised path of a file as the client sees it.
 */
module Indexer {
  import opened Basics

  /** The rows of one statement, here as in the deletions. */
  const CHUNK_ROWS := 500

  // ---------------------------------------------------------------- tables

  datatype Entry<V> = Entry(id: nat, value: V)

  /** A table with a unique key and a primary key of its own. */
  type Table<K, V> = map<K, Entry<V>>

  function IdsOf<K, V>(t: Table<K, V>): set<nat> {
    set k | k in t :: t[k].id
  }

  /** SQLite gives a new row one more than the largest identifier there is. */
  function NextId(ids: set<nat>): nat {
    if ids == {} then 1 else MaxOf(ids) + 1
  }

  /** INSERT ... ON CONFLICT DO UPDATE, for one row. */
  function Upsert<K, V>(t: Table<K, V>, k: K, v: V): Table<K, V> {
    t[k := Entry(if k in t then t[k].id else NextId(IdsOf(t)), v)]
  }

  function UpsertAll<K, V>(t: Table<K, V>, rows: seq<(K, V)>): Table<K, V> {
    if rows == [] then t
    else Upsert(UpsertAll(t, rows[..|rows| - 1]), rows[|rows| - 1].0, rows[|rows| - 1].1)
  }

  /** `bulk_upsert`: a statement per chunk, each row of it in order; the chunks do not show in the result. */
  method BulkUpsert<K, V>(table: Table<K, V>, rows: seq<(K, V)>, chunkRows: nat) returns (after: Table<K, V>)
    requires chunkRows > 0
    ensures after == UpsertAll(table, rows)
  {
    after := table;
    var start := 0;
    while start < |rows|
      invariant 0 <= start
      invariant after == UpsertAll(table, rows[..Min(start, |rows|)])
    {
      var end := Min(start + chunkRows, |rows|);
      for k := start to end
        invariant after == UpsertAll(table, rows[..k])
      {
        assert rows[..k + 1][..k] == rows[..k];
        after := Upsert(after, rows[k].0, rows[k].1);
      }
      start := start + chunkRows;
    }
    assert rows[..|rows|] == rows;
  }

  /** The last row written for a key. */
  function LastRow<K(==), V>(rows: seq<(K, V)>, k: K): Option<V> {
    if rows == [] then None
    else if rows[|rows| - 1].0 == k then Some(rows[|rows| - 1].1)
    else LastRow(rows[..|rows| - 1], k)
  }

  predicate UniqueIds<K, V>(t: Table<K, V>) {
    forall a, b :: a in t && b in t && a != b ==> t[a].id != t[b].id
  }

  lemma NextIsNew(ids: set<nat>)
    ensures NextId(ids) !in ids
  {
    if ids != {} {
      MaxIsMax(ids);
    }
  }

  lemma UpsertOne<K, V>(t: Table<K, V>, k: K, v: V)
    requires UniqueIds(t)
    ensures UniqueIds(Upsert(t, k, v)) && IdsOf(t) <= IdsOf(Upsert(t, k, v))
  {
    hide NextId;
    NextIsNew(IdsOf(t));
    var after := Upsert(t, k, v);
    forall a | a in t ensures t[a].id in IdsOf(t) && after[a].id == t[a].id {
    }
    forall id | id in IdsOf(t) ensures id in IdsOf(after) {
      var a :| a in t && t[a].id == id;
      assert after[a].id == id;
    }
  }

  /** A table after any number of rows, key by key: the last row counts, and identifiers once given stay. */
  lemma {:induction false} UpsertAllAt<K, V>(t: Table<K, V>, rows: seq<(K, V)>)
    ensures var after := UpsertAll(t, rows);
      && (forall k :: k in after <==> k in t || LastRow(rows, k).Some?)
      && (forall k :: k in t ==> after[k].id == t[k].id)
      && (forall k :: k in after && LastRow(rows, k).Some? ==> after[k].value == LastRow(rows, k).value)
      && (forall k :: k in after && LastRow(rows, k).None? ==> k in t && after[k] == t[k])
  {
    hide IdsOf, NextId;
    if rows != [] {
      UpsertAllAt(t, rows[..|rows| - 1]);
    }
  }

  lemma {:induction false} UpsertAllIds<K, V>(t: Table<K, V>, rows: seq<(K, V)>)
    requires UniqueIds(t)
    ensures UniqueIds(UpsertAll(t, rows)) && IdsOf(t) <= IdsOf(UpsertAll(t, rows))
  {
    hide UniqueIds, IdsOf, NextId;
    if rows != [] {
      var before, last := rows[..|rows| - 1], rows[|rows| - 1];
      UpsertAllIds(t, before);
      UpsertOne(UpsertAll(t, before), last.0, last.1);
    }
  }

  // ---------------------------------------------------------------- linking to files on disk

  /** A disk as the client sees it, with the indexed files of its torrent side. */
  datatype Disk = Disk(root: string, index: map<string, nat>)

  function RelativeTo(root: string, candidate: string): Option<string> {
    if candidate == root then Some(".")
    else if root + "/" <= candidate then Some(candidate[|root| + 1..])
    else None
  }

  predicate KnownOn(disk: Disk, candidate: string) {
    var rel := RelativeTo(disk.root, candidate);
    rel.Some? && rel.value in disk.index
  }

  /** Disk `k` knows the file as `id`, and no disk before it knows it. */
  predicate FirstKnownOn(disks: seq<Disk>, k: nat, candidate: string, id: nat) {
    && k < |disks| && KnownOn(disks[k], candidate)
    && disks[k].index[RelativeTo(disks[k].root, candidate).value] == id
    && forall j :: 0 <= j < k ==> !KnownOn(disks[j], candidate)
  }

  function Resolve(disks: seq<Disk>, candidate: string): Option<nat> {
    if disks == [] then None
    else if KnownOn(disks[0], candidate) then Some(disks[0].index[RelativeTo(disks[0].root, candidate).value])
    else Resolve(disks[1..], candidate)
  }

  /** `_resolve_seed_file_id`: the first disk that contains the path and knows the file. */
  method ResolveSeedFile(candidate: string, disks: seq<Disk>) returns (found: Option<nat>)
    ensures found == Resolve(disks, candidate)
    ensures found.None? <==> forall k :: 0 <= k < |disks| ==> !KnownOn(disks[k], candidate)
    ensures found.Some? ==> exists k: nat :: FirstKnownOn(disks, k, candidate, found.value)
  {
    for k := 0 to |disks|
      invariant Resolve(disks, candidate) == Resolve(disks[k..], candidate)
      invariant forall j :: 0 <= j < k ==> !KnownOn(disks[j], candidate)
    {
      var rel := RelativeTo(disks[k].root, candidate);
      if rel.Some? && rel.value in disks[k].index {
        assert FirstKnownOn(disks, k, candidate, disks[k].index[rel.value]);
        return Some(disks[k].index[rel.value]);
      }
    }
    return None;
  }

  // ---------------------------------------------------------------- the database

  datatype TorrentKey = TorrentKey(client: nat, hash: string)

  datatype Info = Info(
    name: string, savePath: string, category: Option<string>, trackerUrl: Option<string>, state: string, polledAt: int)

  datatype FileKey = FileKey(torrent: nat, path: string)

  datatype FileInfo = FileInfo(size: int, seedFile: Option<nat>, lastScan: nat)

  /** `jobs` holds, per seed job, the torrent it ended in. */
  datatype Db = Db(torrents: Table<TorrentKey, Info>, files: Table<FileKey, FileInfo>, jobs: map<nat, Option<nat>>)

  datatype ClientFile = ClientFile(path: string, size: int)

  datatype Listed = Listed(hash: string, info: Info, files: seq<ClientFile>)

  type Locate = (string, string) -> string

  function TorrentRows(client: nat, listed: seq<Listed>): seq<(TorrentKey, Info)> {
    if listed == [] then []
    else
      var t := listed[|listed| - 1];
      TorrentRows(client, listed[..|listed| - 1]) + [(TorrentKey(client, t.hash), t.info)]
  }

  function FileValue(t: Listed, f: ClientFile, disks: seq<Disk>, locate: Locate, run: nat): FileInfo {
    FileInfo(f.size, Resolve(disks, locate(t.info.savePath, f.path)), run)
  }

  function RowsOfTorrent(id: nat, t: Listed, files: seq<ClientFile>, disks: seq<Disk>, locate: Locate, run: nat)
    : seq<(FileKey, FileInfo)>
  {
    if files == [] then []
    else
      var f := files[|files| - 1];
      RowsOfTorrent(id, t, files[..|files| - 1], disks, locate, run)
      + [(FileKey(id, f.path), FileValue(t, f, disks, locate, run))]
  }

  predicate Knows(torrents: Table<TorrentKey, Info>, client: nat, listed: seq<Listed>) {
    forall k :: 0 <= k < |listed| ==> TorrentKey(client, listed[k].hash) in torrents
  }

  function FileRows(torrents: Table<TorrentKey, Info>, client: nat, listed: seq<Listed>, disks: seq<Disk>,
                    locate: Locate, run: nat)
    : seq<(FileKey, FileInfo)>
    requires Knows(torrents, client, listed)
  {
    if listed == [] then []
    else
      var t := listed[|listed| - 1];
      FileRows(torrents, client, listed[..|listed| - 1], disks, locate, run)
      + RowsOfTorrent(torrents[TorrentKey(client, t.hash)].id, t, t.files, disks, locate, run)
  }

  function Stored(db: Db, client: nat, listed: seq<Listed>, disks: seq<Disk>, locate: Locate, run: nat): Db {
    var torrents := UpsertAll(db.torrents, TorrentRows(client, listed));
    if Knows(torrents, client, listed) then
      Db(torrents, UpsertAll(db.files, FileRows(torrents, client, listed, disks, locate, run)), db.jobs)
    else db
  }

  /** The torrents with these identifiers leave, with their files and with the pointers of seed jobs to them. */
  function Drop(db: Db, ids: set<nat>): Db {
    Db(map k | k in db.torrents && db.torrents[k].id !in ids :: db.torrents[k],
       map k | k in db.files && k.torrent !in ids :: db.files[k],
       map j | j in db.jobs :: if db.jobs[j].Some? && db.jobs[j].value in ids then None else db.jobs[j])
  }

  function Present(listed: seq<Listed>): set<string> {
    set k | 0 <= k < |listed| :: listed[k].hash
  }

  function StaleIds(torrents: Table<TorrentKey, Info>, client: nat, present: set<string>): set<nat> {
    StaleAmong(torrents, torrents.Keys, client, present)
  }

  function StaleAmong(torrents: Table<TorrentKey, Info>, keys: set<TorrentKey>, client: nat, present: set<string>)
    : set<nat>
  {
    set k | k in keys && k in torrents && k.client == client && k.hash !in present :: torrents[k].id
  }

  function ClientIds(torrents: Table<TorrentKey, Info>, client: nat): set<nat> {
    set k | k in torrents && k.client == client :: torrents[k].id
  }

  /** The files of the kept torrents that this run did not write leave too. */
  function DropUnseen(db: Db, client: nat, run: nat): Db {
    var kept := ClientIds(db.torrents, client);
    db.(files := map k | k in db.files && !(k.torrent in kept && db.files[k].value.lastScan != run) :: db.files[k])
  }

  function Pruned(db: Db, client: nat, listed: seq<Listed>, run: nat): Db {
    DropUnseen(Drop(db, StaleIds(db.torrents, client, Present(listed))), client, run)
  }

  function Elements(ids: seq<nat>): set<nat> {
    set k | 0 <= k < |ids| :: ids[k]
  }

  lemma ElementsSplit(ids: seq<nat>, start: nat, end: nat)
    requires start <= end <= |ids|
    ensures Elements(ids[..end]) == Elements(ids[..start]) + Elements(ids[start..end])
  {
    forall id ensures id in Elements(ids[..end]) <==> id in Elements(ids[..start]) || id in Elements(ids[start..end]) {
      if id in Elements(ids[..end]) {
        var k :| 0 <= k < end && ids[k] == id;
        assert if k < start then ids[..start][k] == id else ids[start..end][k - start] == id;
      }
      if id in Elements(ids[..start]) {
        var k :| 0 <= k < start && ids[k] == id;
        assert ids[..end][k] == id;
      }
      if id in Elements(ids[start..end]) {
        var k :| 0 <= k < end - start && ids[start..end][k] == id;
        assert ids[..end][start + k] == id;
      }
    }
  }

  lemma NoElements(ids: seq<nat>)
    requires ids == []
    ensures Elements(ids) == {}
  {
  }

  lemma DropNothing(db: Db)
    ensures Drop(db, {}) == db
  {
    var after := Drop(db, {});
    assert after.torrents == db.torrents && after.files == db.files && after.jobs == db.jobs;
  }

  /** Dropping in chunks is dropping at once. */
  lemma DropDrop(db: Db, a: set<nat>, b: set<nat>)
    ensures Drop(Drop(db, a), b) == Drop(db, a + b)
  {
    var once, twice := Drop(db, a + b), Drop(Drop(db, a), b);
    assert once.torrents == twice.torrents && once.files == twice.files && once.jobs == twice.jobs;
  }

  /** The identifiers of the torrents of the client that are not present, as a list. */
  method StaleList(torrents: Table<TorrentKey, Info>, client: nat, present: set<string>) returns (stale: seq<nat>)
    ensures Elements(stale) == StaleIds(torrents, client, present)
  {
    stale := [];
    var todo := torrents.Keys;
    while todo != {}
      invariant todo <= torrents.Keys
      invariant Elements(stale) == StaleAmong(torrents, torrents.Keys - todo, client, present)
    {
      var key :| key in todo;
      ghost var done := torrents.Keys - todo;
      todo := todo - {key};
      assert torrents.Keys - todo == done + {key};
      StaleOneMore(torrents, done, key, client, present);
      if key.client == client && key.hash !in present {
        ElementsAppend(stale, torrents[key].id);
        stale := stale + [torrents[key].id];
      }
    }
    assert torrents.Keys - todo == torrents.Keys;
  }

  lemma StaleOneMore(torrents: Table<TorrentKey, Info>, keys: set<TorrentKey>, key: TorrentKey, client: nat,
                     present: set<string>)
    requires key in torrents
    ensures StaleAmong(torrents, keys + {key}, client, present) ==
            StaleAmong(torrents, keys, client, present)
            + if key.client == client && key.hash !in present then {torrents[key].id} else {}
  {
  }

  lemma ElementsAppend(ids: seq<nat>, id: nat)
    ensures Elements(ids + [id]) == Elements(ids) + {id}
  {
    var more := ids + [id];
    ElementsSplit(more, |ids|, |more|);
    assert more[..|ids|] == ids && more[|ids|..] == [id] && more[..|more|] == more;
    assert Elements([id]) == {id} by {
      assert [id][0] == id;
    }
  }

  /** The rows for the files, in the order of the list. */
  method ListFileRows(torrents: Table<TorrentKey, Info>, client: nat, listed: seq<Listed>, disks: seq<Disk>,
                      locate: Locate, run: nat)
    returns (rows: seq<(FileKey, FileInfo)>)
    requires Knows(torrents, client, listed)
    ensures rows == FileRows(torrents, client, listed, disks, locate, run)
  {
    rows := [];
    for k := 0 to |listed|
      invariant rows == FileRows(torrents, client, listed[..k], disks, locate, run)
    {
      var t := listed[k];
      var id := torrents[TorrentKey(client, t.hash)].id;
      ghost var before := rows;
      for f := 0 to |t.files|
        invariant rows == before + RowsOfTorrent(id, t, t.files[..f], disks, locate, run)
      {
        assert t.files[..f + 1][..f] == t.files[..f];
        var seedFile := ResolveSeedFile(locate(t.info.savePath, t.files[f].path), disks);
        rows := rows + [(FileKey(id, t.files[f].path), FileInfo(t.files[f].size, seedFile, run))];
      }
      assert t.files[..|t.files|] == t.files && listed[..k + 1][..k] == listed[..k];
    }
    assert listed[..|listed|] == listed;
  }

  class Database {
    var torrents: Table<TorrentKey, Info>
    var files: Table<FileKey, FileInfo>
    var jobs: map<nat, Option<nat>>

    constructor ()
      ensures Current() == Db(map[], map[], map[])
    {
      torrents, files, jobs := map[], map[], map[];
    }

    ghost function Current(): Db
      reads this
    {
      Db(torrents, files, jobs)
    }

    /** `store_client_torrents` */
    method Store(client: nat, listed: seq<Listed>, disks: seq<Disk>, locate: Locate, run: nat)
      modifies this
      ensures Current() == Stored(old(Current()), client, listed, disks, locate, run)
    {
      var torrentRows := [];
      for k := 0 to |listed|
        invariant unchanged(this) && torrentRows == TorrentRows(client, listed[..k])
      {
        assert listed[..k + 1][..k] == listed[..k];
        torrentRows := torrentRows + [(TorrentKey(client, listed[k].hash), listed[k].info)];
      }
      assert listed[..|listed|] == listed;
      torrents := BulkUpsert(torrents, torrentRows, CHUNK_ROWS);
      AllKnown(old(torrents), client, listed);
      var fileRows := ListFileRows(torrents, client, listed, disks, locate, run);
      files := BulkUpsert(files, fileRows, CHUNK_ROWS);
    }

    /** The three statements of one chunk. */
    method DeleteChunk(chunk: set<nat>)
      modifies this
      ensures Current() == Drop(old(Current()), chunk)
    {
      jobs := map j | j in jobs :: if jobs[j].Some? && jobs[j].value in chunk then None else jobs[j];
      files := map k | k in files && k.torrent !in chunk :: files[k];
      torrents := map k | k in torrents && torrents[k].id !in chunk :: torrents[k];
    }

    /** `prune_missing_torrents` */
    method PruneMissing(client: nat, listed: seq<Listed>, run: nat, chunkRows: nat) returns (removed: nat)
      requires chunkRows > 0
      modifies this
      ensures Current() == Pruned(old(Current()), client, listed, run)
    {
      hide Drop, StaleIds, Elements, Present;
      var stale := StaleList(torrents, client, Present(listed));
      DropNothing(Current());
      NoElements(stale[..0]);
      var start := 0;
      while start < |stale|
        invariant 0 <= start
        invariant Current() == Drop(old(Current()), Elements(stale[..Min(start, |stale|)]))
      {
        var end := Min(start + chunkRows, |stale|);
        var chunk := Elements(stale[start..end]);
        DropDrop(old(Current()), Elements(stale[..start]), chunk);
        ElementsSplit(stale, start, end);
        DeleteChunk(chunk);
        start := start + chunkRows;
      }
      assert stale[..|stale|] == stale;
      var kept := set k | k in torrents && k.client == client :: torrents[k].id;
      files := map k | k in files && !(k.torrent in kept && files[k].value.lastScan != run) :: files[k];
      removed := |stale|;
    }

    /** `index_torrent_client` */
    method Index(client: nat, listed: seq<Listed>, disks: seq<Disk>, locate: Locate, run: nat) returns (removed: nat)
      modifies this
      ensures Current() == Indexed(old(Current()), client, listed, disks, locate, run)
    {
      Store(client, listed, disks, locate, run);
      removed := PruneMissing(client, listed, run, CHUNK_ROWS);
    }
  }

  function Indexed(db: Db, client: nat, listed: seq<Listed>, disks: seq<Disk>, locate: Locate, run: nat): Db {
    Pruned(Stored(db, client, listed, disks, locate, run), client, listed, run)
  }

  /** Every listed torrent has a row once the torrents are written. */
  lemma AllKnown(t: Table<TorrentKey, Info>, client: nat, listed: seq<Listed>)
    ensures Knows(UpsertAll(t, TorrentRows(client, listed)), client, listed)
  {
    UpsertAllAt(t, TorrentRows(client, listed));
    forall k | 0 <= k < |listed|
      ensures LastRow(TorrentRows(client, listed), TorrentKey(client, listed[k].hash)).Some?
    {
      TorrentRowOf(client, listed, listed[k].hash);
      assert listed[k].hash in Present(listed);
    }
  }

  /** The last listed torrent with this hash. */
  function LastListed(listed: seq<Listed>, hash: string): Option<Info> {
    if listed == [] then None
    else if listed[|listed| - 1].hash == hash then Some(listed[|listed| - 1].info)
    else LastListed(listed[..|listed| - 1], hash)
  }

  lemma {:induction false} TorrentRowOf(client: nat, listed: seq<Listed>, hash: string)
    ensures LastRow(TorrentRows(client, listed), TorrentKey(client, hash)) == LastListed(listed, hash)
    ensures forall other: TorrentKey :: other.client != client ==> LastRow(TorrentRows(client, listed), other).None?
    ensures LastListed(listed, hash).Some? <==> hash in Present(listed)
  {
    if listed != [] {
      var n := |listed| - 1;
      TorrentRowOf(client, listed[..n], hash);
      var rows := TorrentRows(client, listed);
      assert rows[..|rows| - 1] == TorrentRows(client, listed[..n]);
      assert Present(listed) == Present(listed[..n]) + {listed[n].hash} by {
        forall h ensures h in Present(listed) <==> h in Present(listed[..n]) || h == listed[n].hash {
          PresentOneMore(listed, h);
        }
      }
    }
  }

  lemma PresentOneMore(listed: seq<Listed>, h: string)
    requires listed != []
    ensures h in Present(listed) <==> h in Present(listed[..|listed| - 1]) || h == listed[|listed| - 1].hash
  {
    var n := |listed| - 1;
    if h in Present(listed[..n]) {
      var k :| 0 <= k < n && listed[..n][k].hash == h;
      assert listed[k].hash == h;
    }
    if h in Present(listed) {
      var k :| 0 <= k < |listed| && listed[k].hash == h;
      assert k == n || listed[..n][k].hash == h;
    }
  }

  // ---------------------------------------------------------------- what the client lists

  /** The last file of a torrent at this path. */
  function FileIn(t: Listed, files: seq<ClientFile>, path: string, disks: seq<Disk>, locate: Locate, run: nat)
    : Option<FileInfo>
  {
    if files == [] then None
    else if files[|files| - 1].path == path then Some(FileValue(t, files[|files| - 1], disks, locate, run))
    else FileIn(t, files[..|files| - 1], path, disks, locate, run)
  }

  /** The same over the whole list: torrents listed twice under one hash are one torrent. */
  function LastFile(listed: seq<Listed>, hash: string, path: string, disks: seq<Disk>, locate: Locate, run: nat)
    : Option<FileInfo>
  {
    if listed == [] then None
    else
      var t := listed[|listed| - 1];
      var here := if t.hash == hash then FileIn(t, t.files, path, disks, locate, run) else None;
      if here.Some? then here else LastFile(listed[..|listed| - 1], hash, path, disks, locate, run)
  }

  lemma {:induction false} LastRowConcat<K, V>(a: seq<(K, V)>, b: seq<(K, V)>, k: K)
    ensures LastRow(a + b, k) == if LastRow(b, k).Some? then LastRow(b, k) else LastRow(a, k)
  {
    if b == [] {
      assert a + b == a;
    } else {
      assert (a + b)[..|a + b| - 1] == a + b[..|b| - 1];
      LastRowConcat(a, b[..|b| - 1], k);
    }
  }

  lemma {:induction false} TorrentFileRow(id: nat, t: Listed, files: seq<ClientFile>, key: FileKey, disks: seq<Disk>,
                                          locate: Locate, run: nat)
    ensures LastRow(RowsOfTorrent(id, t, files, disks, locate, run), key) ==
            if key.torrent == id then FileIn(t, files, key.path, disks, locate, run) else None
  {
    hide FileValue;
    if files != [] {
      var before, f := files[..|files| - 1], files[|files| - 1];
      TorrentFileRow(id, t, before, key, disks, locate, run);
      var rows := RowsOfTorrent(id, t, files, disks, locate, run);
      assert rows[..|rows| - 1] == RowsOfTorrent(id, t, before, disks, locate, run);
    }
  }

  /** The rows written for a listed torrent are its files, those for other torrents are none. */
  lemma {:induction false} FileRowOf(torrents: Table<TorrentKey, Info>, client: nat, listed: seq<Listed>,
                                     key: FileKey, disks: seq<Disk>, locate: Locate, run: nat)
    requires UniqueIds(torrents) && Knows(torrents, client, listed)
    ensures forall h :: TorrentKey(client, h) in torrents && torrents[TorrentKey(client, h)].id == key.torrent ==>
              LastRow(FileRows(torrents, client, listed, disks, locate, run), key) ==
                  LastFile(listed, h, key.path, disks, locate, run)
    ensures LastRow(FileRows(torrents, client, listed, disks, locate, run), key).Some? ==>
              exists h :: h in Present(listed) && torrents[TorrentKey(client, h)].id == key.torrent
  {
    hide Present, FileIn, RowsOfTorrent;
    if listed != [] {
      var n := |listed| - 1;
      var t := listed[n];
      var id := torrents[TorrentKey(client, t.hash)].id;
      FileRowOf(torrents, client, listed[..n], key, disks, locate, run);
      TorrentFileRow(id, t, t.files, key, disks, locate, run);
      LastRowConcat(FileRows(torrents, client, listed[..n], disks, locate, run),
          RowsOfTorrent(id, t, t.files, disks, locate, run), key);
      forall h ensures h in Present(listed) <==> h in Present(listed[..n]) || h == t.hash {
        PresentOneMore(listed, h);
      }
      if LastRow(FileRows(torrents, client, listed, disks, locate, run), key).Some? && key.torrent == id {
        assert t.hash in Present(listed);
      }
    }
  }

  // ---------------------------------------------------------------- the mirror

  /** The references between the tables hold. */
  predicate Sound(db: Db) {
    && UniqueIds(db.torrents)
    && (forall k :: k in db.files ==> k.torrent in IdsOf(db.torrents))
    && (forall j :: j in db.jobs && db.jobs[j].Some? ==> db.jobs[j].value in IdsOf(db.torrents))
  }

  predicate FreshRun(db: Db, run: nat) {
    forall k :: k in db.files ==> db.files[k].value.lastScan != run
  }

  /** The torrents after the first write: the listed ones, with what was there. */
  lemma StoredTorrents(db: Db, client: nat, listed: seq<Listed>, disks: seq<Disk>, locate: Locate, run: nat)
    requires Sound(db)
    ensures var s := Stored(db, client, listed, disks, locate, run);
      && UniqueIds(s.torrents) && IdsOf(db.torrents) <= IdsOf(s.torrents) && Knows(s.torrents, client, listed)
      && s.jobs == db.jobs && s.files == UpsertAll(db.files, FileRows(s.torrents, client, listed, disks, locate, run))
      && (forall h :: h in Present(listed) ==>
            && TorrentKey(client, h) in s.torrents && LastListed(listed, h).Some?
            && s.torrents[TorrentKey(client, h)].value == LastListed(listed, h).value)
      && (forall k :: k in s.torrents <==> k in db.torrents || (k.client == client && k.hash in Present(listed)))
      && (forall k :: k in db.torrents ==> s.torrents[k].id == db.torrents[k].id)
      && (forall k :: k in db.torrents && (k.client != client || k.hash !in Present(listed)) ==>
            s.torrents[k] == db.torrents[k])
  {
    var rows := TorrentRows(client, listed);
    AllKnown(db.torrents, client, listed);
    UpsertAllAt(db.torrents, rows);
    UpsertAllIds(db.torrents, rows);
    hide UpsertAll, TorrentRows, Present, IdsOf, UniqueIds;
    forall k ensures LastRow(rows, k) == if k.client == client then LastListed(listed, k.hash) else None {
      TorrentRowOf(client, listed, k.hash);
    }
    forall h ensures LastListed(listed, h).Some? <==> h in Present(listed) {
      TorrentRowOf(client, listed, h);
    }
  }

  lemma DroppedIds(torrents: Table<TorrentKey, Info>, ids: set<nat>)
    ensures IdsOf(map k | k in torrents && torrents[k].id !in ids :: torrents[k]) == IdsOf(torrents) - ids
  {
    var left := map k | k in torrents && torrents[k].id !in ids :: torrents[k];
    forall id | id in IdsOf(torrents) - ids ensures id in IdsOf(left) {
      var k :| k in torrents && torrents[k].id == id;
      assert left[k].id == id;
    }
  }

  lemma StaleIff(torrents: Table<TorrentKey, Info>, client: nat, present: set<string>, k: TorrentKey)
    requires UniqueIds(torrents) && k in torrents
    ensures torrents[k].id in StaleIds(torrents, client, present) <==> k.client == client && k.hash !in present
  {
  }

  /** The torrents at the end: of this client exactly those listed, of the others those there were. */
  lemma IndexedTorrents(db: Db, client: nat, listed: seq<Listed>, disks: seq<Disk>, locate: Locate, run: nat)
    requires Sound(db)
    ensures var s, a := Stored(db, client, listed, disks, locate, run), Indexed(db, client, listed, disks, locate, run);
      && UniqueIds(a.torrents) && IdsOf(a.torrents) == IdsOf(s.torrents) - StaleIds(s.torrents, client, Present(listed))
      && (forall k :: k in a.torrents <==> if k.client == client then k.hash in Present(listed) else k in db.torrents)
      && (forall k :: k in a.torrents ==> k in s.torrents && a.torrents[k] == s.torrents[k])
      && (forall k :: k in a.torrents && k in db.torrents ==> a.torrents[k].id == db.torrents[k].id)
      && (forall h :: h in Present(listed) ==>
            && LastListed(listed, h).Some? && TorrentKey(client, h) in a.torrents
            && a.torrents[TorrentKey(client, h)].value == LastListed(listed, h).value)
      && (forall k :: k in db.torrents && k.client != client ==> k in a.torrents && a.torrents[k] == db.torrents[k])
  {
    hide Stored, Present, StaleIds;
    StoredTorrents(db, client, listed, disks, locate, run);
    var s := Stored(db, client, listed, disks, locate, run);
    DroppedIds(s.torrents, StaleIds(s.torrents, client, Present(listed)));
    forall k | k in s.torrents
      ensures s.torrents[k].id in StaleIds(s.torrents, client, Present(listed))
          <==> k.client == client && k.hash !in Present(listed)
    {
      StaleIff(s.torrents, client, Present(listed), k);
    }
  }

  lemma {:induction false} LastFileIsOfTheRun(listed: seq<Listed>, hash: string, path: string, disks: seq<Disk>,
                                              locate: Locate, run: nat)
    ensures var f := LastFile(listed, hash, path, disks, locate, run); f.Some? ==> f.value.lastScan == run
  {
    if listed != [] {
      var t := listed[|listed| - 1];
      FileInIsOfTheRun(t, t.files, path, disks, locate, run);
      LastFileIsOfTheRun(listed[..|listed| - 1], hash, path, disks, locate, run);
    }
  }

  lemma {:induction false} FileInIsOfTheRun(t: Listed, files: seq<ClientFile>, path: string, disks: seq<Disk>,
                                            locate: Locate, run: nat)
    ensures var f := FileIn(t, files, path, disks, locate, run); f.Some? ==> f.value.lastScan == run
  {
    if files != [] {
      FileInIsOfTheRun(t, files[..|files| - 1], path, disks, locate, run);
    }
  }

  /** The row there is for a file after the second write. */
  lemma StoredFile(db: Db, client: nat, listed: seq<Listed>, disks: seq<Disk>, locate: Locate, run: nat,
                   k: TorrentKey, path: string)
    requires Sound(db) && k in Stored(db, client, listed, disks, locate, run).torrents
    ensures var s := Stored(db, client, listed, disks, locate, run);
      var key := FileKey(s.torrents[k].id, path);
      var now := if k.client == client then LastFile(listed, k.hash, path, disks, locate, run) else None;
      && (key in s.files <==> now.Some? || key in db.files)
      && (now.Some? ==> s.files[key].value == now.value)
      && (now.None? && key in db.files ==> s.files[key] == db.files[key])
  {
    hide Stored, Present, LastFile, FileRows;
    StoredTorrents(db, client, listed, disks, locate, run);
    var s := Stored(db, client, listed, disks, locate, run);
    var key := FileKey(s.torrents[k].id, path);
    var rows := FileRows(s.torrents, client, listed, disks, locate, run);
    FileRowOf(s.torrents, client, listed, key, disks, locate, run);
    UpsertAllAt(db.files, rows);
    hide UpsertAll;
    if k.client == client {
      assert k == TorrentKey(client, k.hash);
    }
  }

  lemma ClientIdsIff(torrents: Table<TorrentKey, Info>, client: nat, k: TorrentKey)
    requires UniqueIds(torrents) && k in torrents
    ensures torrents[k].id in ClientIds(torrents, client) <==> k.client == client
  {
  }

  /** What is stored for a file at the end, by the torrent it belongs to. */
  lemma IndexedFile(db: Db, client: nat, listed: seq<Listed>, disks: seq<Disk>, locate: Locate, run: nat,
                    k: TorrentKey, path: string)
    requires Sound(db) && k in Indexed(db, client, listed, disks, locate, run).torrents
    ensures var a := Indexed(db, client, listed, disks, locate, run);
      var key := FileKey(a.torrents[k].id, path);
      var now := LastFile(listed, k.hash, path, disks, locate, run);
      && (k.client != client ==>
            (key in a.files <==> key in db.files) && (key in a.files ==> a.files[key] == db.files[key]))
      && (k.client == client ==>
            (key in a.files <==> now.Some? || (key in db.files && db.files[key].value.lastScan == run)))
      && (k.client == client && now.Some? ==> a.files[key].value == now.value)
  {
    hide Stored, Present, LastFile, StaleIds, ClientIds;
    IndexedTorrents(db, client, listed, disks, locate, run);
    var s, a := Stored(db, client, listed, disks, locate, run), Indexed(db, client, listed, disks, locate, run);
    StoredTorrents(db, client, listed, disks, locate, run);
    StoredFile(db, client, listed, disks, locate, run, k, path);
    LastFileIsOfTheRun(listed, k.hash, path, disks, locate, run);
    StaleIff(s.torrents, client, Present(listed), k);
    ClientIdsIff(a.torrents, client, k);
    FilesAfterPrune(s, client, listed, run, FileKey(s.torrents[k].id, path));
  }

  lemma FilesAfterPrune(s: Db, client: nat, listed: seq<Listed>, run: nat, key: FileKey)
    ensures var a := Pruned(s, client, listed, run);
      && (key in a.files <==> key in s.files && key.torrent !in StaleIds(s.torrents, client, Present(listed))
                              && (key.torrent !in ClientIds(a.torrents, client) || s.files[key].value.lastScan == run))
      && (key in a.files ==> a.files[key] == s.files[key])
  {
    hide StaleIds, ClientIds, Present;
  }

  lemma StoredFilesAreKnown(db: Db, client: nat, listed: seq<Listed>, disks: seq<Disk>, locate: Locate, run: nat,
                            key: FileKey)
    requires Sound(db) && key in Stored(db, client, listed, disks, locate, run).files
    ensures key.torrent in IdsOf(Stored(db, client, listed, disks, locate, run).torrents)
  {
    hide Stored, Present, LastFile, FileRows;
    StoredTorrents(db, client, listed, disks, locate, run);
    var s := Stored(db, client, listed, disks, locate, run);
    var rows := FileRows(s.torrents, client, listed, disks, locate, run);
    UpsertAllAt(db.files, rows);
    FileRowOf(s.torrents, client, listed, key, disks, locate, run);
    if key !in db.files {
      var h :| h in Present(listed) && s.torrents[TorrentKey(client, h)].id == key.torrent;
      assert TorrentKey(client, h) in s.torrents;
    }
  }

  /** No file row and no seed job is left pointing to a torrent that is gone. */
  lemma IndexKeepsSound(db: Db, client: nat, listed: seq<Listed>, disks: seq<Disk>, locate: Locate, run: nat)
    requires Sound(db)
    ensures Sound(Indexed(db, client, listed, disks, locate, run))
  {
    hide Stored, Present, StaleIds, IdsOf, UniqueIds;
    var s, a := Stored(db, client, listed, disks, locate, run), Indexed(db, client, listed, disks, locate, run);
    var stale := StaleIds(s.torrents, client, Present(listed));
    IndexedTorrents(db, client, listed, disks, locate, run);
    StoredTorrents(db, client, listed, disks, locate, run);
    forall key | key in a.files ensures key.torrent in IdsOf(a.torrents) {
      FilesAfterPrune(s, client, listed, run, key);
      StoredFilesAreKnown(db, client, listed, disks, locate, run, key);
    }
    forall j | j in a.jobs && a.jobs[j].Some? ensures a.jobs[j].value in IdsOf(a.torrents) {
      assert a.jobs[j] == db.jobs[j] && a.jobs[j].value !in stale;
    }
  }

  /** The pointer of a seed job is cleared exactly when the torrent it names leaves. */
  lemma JobsFollow(db: Db, client: nat, listed: seq<Listed>, disks: seq<Disk>, locate: Locate, run: nat, j: nat,
                   k: TorrentKey)
    requires Sound(db) && j in db.jobs && k in db.torrents && db.jobs[j] == Some(db.torrents[k].id)
    ensures var a := Indexed(db, client, listed, disks, locate, run);
      && j in a.jobs
      && (k in a.torrents ==> a.jobs[j] == Some(a.torrents[k].id))
      && (k !in a.torrents ==> a.jobs[j] == None)
  {
    hide Stored, Present, StaleIds, IdsOf, UniqueIds;
    var s := Stored(db, client, listed, disks, locate, run);
    IndexedTorrents(db, client, listed, disks, locate, run);
    StoredTorrents(db, client, listed, disks, locate, run);
    StaleIff(s.torrents, client, Present(listed), k);
  }

  /**
   After a full index under a new run, the torrents and the files of the client are those it listed, whatever
   was stored before; the torrents and the files of every other client are untouched.
   */
  lemma IndexIsMirror(db: Db, client: nat, listed: seq<Listed>, disks: seq<Disk>, locate: Locate, run: nat)
    requires Sound(db) && FreshRun(db, run)
    ensures var a := Indexed(db, client, listed, disks, locate, run);
      && (forall h :: TorrentKey(client, h) in a.torrents <==> h in Present(listed))
      && (forall h :: h in Present(listed) ==>
            && LastListed(listed, h).Some?
            && a.torrents[TorrentKey(client, h)].value == LastListed(listed, h).value)
      && (forall h, path :: h in Present(listed) ==>
            FileAt(a, TorrentKey(client, h), path) == LastFile(listed, h, path, disks, locate, run))
      && (forall k: TorrentKey :: k.client != client ==>
            (k in a.torrents <==> k in db.torrents) && (k in db.torrents ==> a.torrents[k] == db.torrents[k]))
      && (forall k: TorrentKey, path :: k.client != client && k in db.torrents ==>
            FileAt(a, k, path) == FileAt(db, k, path))
  {
    hide Indexed, Present, LastFile, LastListed, Sound;
    IndexedTorrents(db, client, listed, disks, locate, run);
    var a := Indexed(db, client, listed, disks, locate, run);
    forall k, path | k in a.torrents
      ensures k.client == client ==> FileAt(a, k, path) == LastFile(listed, k.hash, path, disks, locate, run)
      ensures k.client != client ==> FileAt(a, k, path) == FileAt(db, k, path)
    {
      IndexedFile(db, client, listed, disks, locate, run, k, path);
    }
  }

  /** The row of a file of a torrent, if there is one. */
  function FileAt(db: Db, k: TorrentKey, path: string): Option<FileInfo> {
    if k in db.torrents && FileKey(db.torrents[k].id, path) in db.files
    then Some(db.files[FileKey(db.torrents[k].id, path)].value) else None
  }

  /** A run identifier used before is not enough: a file written under it stays although the client lost it. */
  lemma OldRunKeepsLostFiles(info: Info, locate: Locate)
    ensures var k := TorrentKey(1, "h");
      var db := Db(map[k := Entry(1, info)], map[FileKey(1, "gone") := Entry(1, FileInfo(5, None, 9))], map[]);
      var listed := [Listed("h", info, [])];
      Sound(db) && FileAt(Indexed(db, 1, listed, [], locate, 9), k, "gone").Some?
      && LastFile(listed, "h", "gone", [], locate, 9).None?
  {
    var k := TorrentKey(1, "h");
    var db := Db(map[k := Entry(1, info)], map[FileKey(1, "gone") := Entry(1, FileInfo(5, None, 9))], map[]);
    var listed := [Listed("h", info, [])];
    assert db.torrents[k].id == 1;
    assert listed[0].hash in Present(listed);
    IndexedTorrents(db, 1, listed, [], locate, 9);
    IndexedFile(db, 1, listed, [], locate, 9, k, "gone");
  }
}
