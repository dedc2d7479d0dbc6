/**
 What app/torrent_file.py reads from a .torrent: the byte span of the `info` dictionary, the info
 hash, and the file table with its offsets in the concatenated stream (BEP 3, section "metainfo files").
 */
module Metainfo {
  import opened Basics
  import opened Bencode

  // The keys, as the bytes they are in the file.
  const INFO: seq<byte> := [105, 110, 102, 111]
  const NAME: seq<byte> := [110, 97, 109, 101]
  const FILES: seq<byte> := [102, 105, 108, 101, 115]
  const LENGTH: seq<byte> := [108, 101, 110, 103, 116, 104]
  const PATH: seq<byte> := [112, 97, 116, 104]
  const PIECES: seq<byte> := [112, 105, 101, 99, 101, 115]
  const PIECE_LENGTH: seq<byte> := PIECES[..5] + [32] + LENGTH

  const HASH_SIZE := 20

  datatype FileEntry = FileEntry(path: string, length: int, offset: int) {
    function End(): int {
      offset + length
    }
  }

  datatype TorrentInfo = TorrentInfo(
    name: string, pieceLength: int, pieces: seq<seq<byte>>, files: seq<FileEntry>, isMultiFile: bool, totalLength: int)

  // ---------------------------------------------------------------- info span

  /** The loop of `_find_info_span` from position `i`: it stops at the first `info` key it meets. */
  function SpanFrom(data: seq<byte>, i: nat): Parsed<(nat, nat)>
    decreases Left(data, i)
  {
    if AtEnd(data, i) then Err(Malformed)
    else
      match DecodeAt(data, i)
      case Err(e) => Err(e)
      case Ok((key, j)) =>
        match DecodeAt(data, j)
        case Err(e) => Err(e)
        case Ok((_, k)) => if key == Bytes(INFO) then Ok((j, k)) else SpanFrom(data, k)
  }

  function InfoSpan(data: seq<byte>): Parsed<(nat, nat)> {
    if data == [] || data[0] != D then Err(Malformed) else SpanFrom(data, 1)
  }

  /** `_find_info_span` */
  method FindInfoSpan(data: seq<byte>) returns (r: Parsed<(nat, nat)>)
    ensures r == InfoSpan(data)
  {
    if data == [] || data[0] != D {
      return Err(Malformed);
    }
    var i := 1;
    while !AtEnd(data, i)
      invariant InfoSpan(data) == SpanFrom(data, i)
      decreases Left(data, i)
    {
      var key := Decode(data, i);
      if key.Err? {
        return Err(key.error);
      }
      var value := Decode(data, key.value.1);
      if value.Err? {
        return Err(value.error);
      }
      if key.value.0 == Bytes(INFO) {
        return Ok((key.value.1, value.value.1));
      }
      i := value.value.1;
    }
    return Err(Malformed);
  }

  /** `compute_info_hash`: SHA-1 of the raw span. */
  method ComputeInfoHash(data: seq<byte>, sha1: seq<byte> -> seq<byte>) returns (r: Parsed<seq<byte>>)
    ensures InfoSpan(data).Err? ==> r == Err(InfoSpan(data).error)
    ensures InfoSpan(data).Ok? ==>
              r == Ok(sha1(Slice(data, InfoSpan(data).value.0, InfoSpan(data).value.1)))
  {
    var span := FindInfoSpan(data);
    if span.Err? {
      return Err(span.error);
    }
    return Ok(sha1(Slice(data, span.value.0, span.value.1)));
  }

  /** On any input whose pairs decode, the span found is that of the first `info` value. */
  lemma {:induction false} SpanIsFirst(data: seq<byte>, i: nat, pairs: seq<Entry>, end: nat)
    requires DecodePairs(data, i) == Ok((pairs, end))
    ensures FirstKey(pairs, Bytes(INFO)).None? ==> SpanFrom(data, i) == Err(Malformed)
    ensures var k := FirstKey(pairs, Bytes(INFO));
            k.Some? ==>
              && SpanFrom(data, i).Ok?
              && DecodeAt(data, SpanFrom(data, i).value.0) == Ok((pairs[k.value].value, SpanFrom(data, i).value.1))
    decreases Left(data, i)
  {
    hide DecodeAt, Hashable;
    if !AtEnd(data, i) && pairs[0].key != Bytes(INFO) {
      var j := DecodeEntry(data, i).value.1;
      SpanIsFirst(data, j, pairs[1..], end);
    }
  }

  /**
   The span against the value `decode` keeps under `info`. They agree exactly when the first and the
   last assignment to `info` carry the same value: `decode` keeps the last one, the span is the first.
   */
  lemma SpanAgreesWithDecode(data: seq<byte>, pairs: seq<Entry>, end: nat)
    requires data != [] && data[0] == D && DecodePairs(data, 1) == Ok((pairs, end))
    ensures DecodeAt(data, 0) == Ok((Dict(AsDict(pairs)), end + 1))
    ensures InfoSpan(data).Err? <==> Get(AsDict(pairs), Bytes(INFO)).None?
    ensures InfoSpan(data).Err? <==> FirstKey(pairs, Bytes(INFO)).None?
    ensures InfoSpan(data).Err? <==> LastKey(pairs, Bytes(INFO)).None?
    ensures InfoSpan(data).Ok? ==>
              (SpanHolds(data, Get(AsDict(pairs), Bytes(INFO)).value)
               <==> pairs[FirstKey(pairs, Bytes(INFO)).value].value == pairs[LastKey(pairs, Bytes(INFO)).value].value)
    ensures InfoSpan(data).Ok? && DistinctKeys(pairs) ==>
              SpanHolds(data, Get(AsDict(pairs), Bytes(INFO)).value)
  {
    hide AsDict, DecodePairs, SpanFrom, FirstKey, LastKey, Get;
    SpanIsFirst(data, 1, pairs, end);
    LastAssignmentWins(pairs, Bytes(INFO));
  }

  /** The bytes of the span decode to `v`, up to the end of the span. */
  predicate SpanHolds(data: seq<byte>, v: Value)
    requires InfoSpan(data).Ok?
  {
    DecodeAt(data, InfoSpan(data).value.0) == Ok((v, InfoSpan(data).value.1))
  }

  /** In an encoding the span holds exactly the bytes of the value, whatever the order of the keys. */
  lemma {:induction false} SpanInPairs(entries: seq<Entry>, data: seq<byte>, i: nat, k: nat)
    requires forall e :: e in entries ==> Hashable(e.key) && WellFormed(e.value)
    requires At(data, i, EncodePairs(entries) + [E])
    requires FirstKey(entries, Bytes(INFO)) == Some(k)
    ensures SpanFrom(data, i).Ok?
    ensures var (from, to) := SpanFrom(data, i).value;
            At(data, from, Encode(entries[k].value)) && to == from + |Encode(entries[k].value)|
    decreases entries
  {
    hide DecodeAt, Encode, WellFormed, Hashable;
    var e := entries[0];
    EntryHead(e);
    HeadAt(data, i, EncodeEntry(e), EncodePairs(entries[1..]));
    EntryRoundTrip(e, data, i);
    AtParts(data, i, Encode(e.key), Encode(e.value));
    assert WellFormed(e.key) by {
      KeysAreWellFormed(e.key);
    }
    RoundTrip(e.key, data, i);
    RoundTrip(e.value, data, i + |Encode(e.key)|);
    if e.key != Bytes(INFO) {
      SpanInPairs(entries[1..], data, i + |EncodeEntry(e)|, k - 1);
    }
  }

  lemma DictParts(entries: seq<Entry>)
    requires WellFormed(Dict(entries))
    ensures DistinctKeys(entries)
    ensures forall e :: e in entries ==> Hashable(e.key) && WellFormed(e.value)
  {
  }

  lemma KeysAreWellFormed(key: Value)
    requires Hashable(key)
    ensures WellFormed(key)
  {
  }

  /**
   The info hash of any .torrent is the hash of the encoded `info` value: the other keys, their order
   and whatever follows the dictionary play no part.
   */
  lemma InfoHashOfEncoding(entries: seq<Entry>, tail: seq<byte>, info: Value)
    requires WellFormed(Dict(entries)) && Get(entries, Bytes(INFO)) == Some(info)
    ensures var data := Encode(Dict(entries)) + tail;
            && InfoSpan(data).Ok?
            && InfoSpan(data).value.0 <= InfoSpan(data).value.1 <= |data|
            && data[InfoSpan(data).value.0..InfoSpan(data).value.1] == Encode(info)
  {
    hide EncodePairs, EncodeItems, SpanFrom, WellFormed, FirstKey, Get, DecodeAt;
    var data := Encode(Dict(entries)) + tail;
    assert forall e :: e in entries ==> Hashable(e.key) && WellFormed(e.value) by {
      DictParts(entries);
    }
    BodyAt(data, 0, D, EncodePairs(entries));
    GetIsFirst(entries, Bytes(INFO));
    SpanInPairs(entries, data, 1, FirstKey(entries, Bytes(INFO)).value);
    var (from, to) := InfoSpan(data).value;
    assert data[from..to] == Encode(info);
  }

  lemma {:induction false} GetIsFirst(entries: seq<Entry>, key: Value)
    ensures var k := FirstKey(entries, key);
            Get(entries, key) == if k.Some? then Some(entries[k.value].value) else None
  {
    if entries != [] && entries[0].key != key {
      GetIsFirst(entries[1..], key);
    }
  }

  /** A repeated `info` key separates the two readings: the hash is then of a value `decode` drops. */
  lemma RepeatedInfoKeyDisagrees()
    ensures exists data: seq<byte> ::
              && InfoSpan(data).Ok? && Loads(data).Ok? && Loads(data).value.Dict?
              && Get(Loads(data).value.entries, Bytes(INFO)).Some?
              && !SpanHolds(data, Get(Loads(data).value.entries, Bytes(INFO)).value)
  {
    hide Encode, EncodePairs, SpanFrom, DecodePairs, DecodeAt, AsDict, InfoSpan;
    var pairs := [Entry(Bytes(INFO), Int(1)), Entry(Bytes(INFO), Int(2))];
    assert forall e :: e in pairs ==> Hashable(e.key) && WellFormed(e.value);
    var data := Encode(Dict(pairs));
    PairsDecode(pairs);
    SpanAgreesWithDecode(data, pairs, 1 + |EncodePairs(pairs)|);
    assert FirstKey(pairs, Bytes(INFO)) == Some(0);
    assert LastKey(pairs, Bytes(INFO)) == Some(1);
  }

  lemma PairsDecode(pairs: seq<Entry>)
    requires forall e :: e in pairs ==> Hashable(e.key) && WellFormed(e.value)
    ensures var data := Encode(Dict(pairs));
      data != [] && data[0] == D && DecodePairs(data, 1) == Ok((pairs, 1 + |EncodePairs(pairs)|))
  {
    hide EncodePairs, DecodePairs;
    var data := Encode(Dict(pairs));
    BodyAt(data, 0, D, EncodePairs(pairs));
    PairsRoundTrip(pairs, data, 1);
  }

  // ---------------------------------------------------------------- file table

  /** `text`: how bytes become a string, UTF-8 and otherwise Latin-1 (`_decode_str`). */
  type Text = seq<byte> -> string

  /** What `for x in v` runs over: a dictionary gives its keys, a byte string its bytes. */
  function Iterate(v: Value): Parsed<seq<Value>> {
    match v
    case List(items) => Ok(items)
    case Dict(entries) => Ok(Keys(entries))
    case Bytes(s) => Ok(seq(|s|, k requires 0 <= k < |s| => Int(s[k] as int)))
    case Int(_) => Err(Crash)
  }

  function Keys(entries: seq<Entry>): seq<Value> {
    if entries == [] then [] else [entries[0].key] + Keys(entries[1..])
  }

  predicate Truthy(v: Value) {
    match v
    case Int(n) => n != 0
    case Bytes(s) => s != []
    case List(items) => items != []
    case Dict(entries) => entries != []
  }

  function Join(parts: seq<string>): string {
    if parts == [] then "" else if |parts| == 1 then parts[0] else parts[0] + "/" + Join(parts[1..])
  }

  /** `_decode_str` of each part; anything that is not bytes has no `.decode`. */
  function Texts(parts: seq<Value>, text: Text): Parsed<seq<string>> {
    if parts == [] then Ok([])
    else if !parts[0].Bytes? then Err(Crash)
    else
      match Texts(parts[1..], text)
      case Err(e) => Err(e)
      case Ok(rest) => Ok([text(parts[0].s)] + rest)
  }

  /** One entry of `info.files`, standing at `offset`. */
  function EntryOf(v: Value, offset: int, text: Text): (r: Parsed<FileEntry>)
    ensures r.Ok? ==> r.value.offset == offset
  {
    if !v.Dict? then Err(Malformed)
    else
      var length, path := Get(v.entries, Bytes(LENGTH)), Get(v.entries, Bytes(PATH));
      if length.None? || !length.value.Int? || path.None? || !Truthy(path.value) then Err(Malformed)
      else
        match Iterate(path.value)
        case Err(e) => Err(e)
        case Ok(parts) =>
          match Texts(parts, text)
          case Err(e) => Err(e)
          case Ok(names) => Ok(FileEntry(Join(names), length.value.n, offset))
  }

  /** Each file starts where the previous one ends, from 0, and the last one ends at `total`. */
  predicate Contiguous(files: seq<FileEntry>, total: int) {
    && (forall k {:trigger StartOf(files, k)} :: 0 <= k < |files| ==> files[k].offset == StartOf(files, k))
    && total == StartOf(files, |files|)
  }

  function StartOf(files: seq<FileEntry>, k: nat): int
    requires k <= |files|
  {
    if k == 0 then 0 else files[k - 1].End()
  }

  lemma ContiguousGrows(files: seq<FileEntry>, total: int, f: FileEntry)
    requires Contiguous(files, total) && f.offset == total
    ensures Contiguous(files + [f], f.End())
  {
    var more := files + [f];
    forall k {:trigger StartOf(more, k)} | 0 <= k < |more| ensures more[k].offset == StartOf(more, k) {
      assert k <= |files| && StartOf(more, k) == StartOf(files, k);
    }
  }

  /** The files in order from `offset`. */
  function EntriesFrom(items: seq<Value>, offset: int, text: Text): Parsed<seq<FileEntry>> {
    if items == [] then Ok([])
    else
      match EntryOf(items[0], offset, text)
      case Err(e) => Err(e)
      case Ok(f) =>
        match EntriesFrom(items[1..], f.End(), text)
        case Err(e) => Err(e)
        case Ok(rest) => Ok([f] + rest)
  }

  /** The loop over `info.files`: `offset` accumulates the lengths. */
  method ReadFiles(items: seq<Value>, text: Text) returns (r: Parsed<seq<FileEntry>>, total: int)
    ensures r == EntriesFrom(items, 0, text)
    ensures r.Ok? ==> |r.value| == |items| && Contiguous(r.value, total)
  {
    total := 0;
    var files: seq<FileEntry> := [];
    hide EntryOf;
    assert items[0..] == items;
    AppendNothing(EntriesFrom(items, 0, text));
    for k := 0 to |items|
      invariant |files| == k && Contiguous(files, total)
      invariant EntriesFrom(items, 0, text) == Append(files, EntriesFrom(items[k..], total, text))
    {
      var entry := EntryOf(items[k], total, text);
      if entry.Err? {
        return Err(entry.error), total;
      }
      ghost var rest := EntriesFrom(items[k + 1..], entry.value.End(), text);
      assert items[k..][1..] == items[k + 1..];
      assert rest.Ok? ==> files + ([entry.value] + rest.value) == files + [entry.value] + rest.value;
      ContiguousGrows(files, total, entry.value);
      files := files + [entry.value];
      total := total + entry.value.length;
    }
    assert files + [] == files;
    return Ok(files), total;
  }

  function Append<T>(xs: seq<T>, r: Parsed<seq<T>>): Parsed<seq<T>> {
    match r
    case Err(e) => Err(e)
    case Ok(ys) => Ok(xs + ys)
  }

  lemma AppendNothing<T>(r: Parsed<seq<T>>)
    ensures Append([], r) == r
  {
    assert r.Ok? ==> [] + r.value == r.value;
  }

  /** `[blob[i:i+20] for i in range(0, len(blob), 20)]` */
  function Hashes(blob: seq<byte>): (r: seq<seq<byte>>)
    requires |blob| % HASH_SIZE == 0
    ensures forall h :: h in r ==> |h| == HASH_SIZE
    ensures |r| == |blob| / HASH_SIZE
  {
    if blob == [] then [] else [blob[..HASH_SIZE]] + Hashes(blob[HASH_SIZE..])
  }

  function Concat<T>(parts: seq<seq<T>>): seq<T> {
    if parts == [] then [] else parts[0] + Concat(parts[1..])
  }

  /** `parse_torrent_info`, after the decoding. */
  function InfoOf(metainfo: Value, text: Text): Parsed<TorrentInfo> {
    if !metainfo.Dict? || Get(metainfo.entries, Bytes(INFO)).None? then Err(Malformed)
    else
      var info := Get(metainfo.entries, Bytes(INFO)).value;
      if !info.Dict? then Err(Malformed)
      else
        var name := Get(info.entries, Bytes(NAME));
        if name.None? then Err(Malformed)
        else if !name.value.Bytes? then Err(Crash)
        else
          var pieceLength, blob := Get(info.entries, Bytes(PIECE_LENGTH)), Get(info.entries, Bytes(PIECES));
          if pieceLength.None? || !pieceLength.value.Int? || pieceLength.value.n <= 0 then Err(Malformed)
          else if blob.None? || !blob.value.Bytes? || |blob.value.s| % HASH_SIZE != 0 then Err(Malformed)
          else FilesOf(info, text(name.value.s), pieceLength.value.n, Hashes(blob.value.s), text)
  }

  function FilesOf(info: Value, name: string, pieceLength: int, pieces: seq<seq<byte>>, text: Text): Parsed<TorrentInfo>
    requires info.Dict?
  {
    var files := Get(info.entries, Bytes(FILES));
    if files.Some? then
      match Iterate(files.value)
      case Err(e) => Err(e)
      case Ok(items) =>
        match EntriesFrom(items, 0, text)
        case Err(e) => Err(e)
        case Ok(fs) => Ok(TorrentInfo(name, pieceLength, pieces, fs, true, StartOf(fs, |fs|)))
    else
      var length := Get(info.entries, Bytes(LENGTH));
      if length.None? || !length.value.Int? then Err(Malformed)
      else Ok(TorrentInfo(name, pieceLength, pieces, [FileEntry(name, length.value.n, 0)], false, length.value.n))
  }

  /**
   `parse_torrent_info`: a result is complete (no partial data), its files tile the stream in the
   declared order and every piece hash has 20 bytes.
   */
  method ParseTorrentInfo(data: seq<byte>, text: Text) returns (r: Parsed<TorrentInfo>)
    ensures r == (match Loads(data) case Err(e) => Err(e) case Ok(v) => InfoOf(v, text))
    ensures r.Ok? ==>
              && r.value.pieceLength > 0
              && (forall h :: h in r.value.pieces ==> |h| == HASH_SIZE)
              && Contiguous(r.value.files, r.value.totalLength)
  {
    hide Contiguous, StartOf, Hashes, EntriesFrom, Get, DecodeAt, Iterate;
    var decoded := Decode(data, 0);
    if decoded.Err? {
      return Err(if decoded.error == BadValue then Malformed else decoded.error);
    }
    var metainfo := decoded.value.0;
    if !metainfo.Dict? || Get(metainfo.entries, Bytes(INFO)).None? {
      return Err(Malformed);
    }
    var info := Get(metainfo.entries, Bytes(INFO)).value;
    if !info.Dict? {
      return Err(Malformed);
    }
    var name := Get(info.entries, Bytes(NAME));
    if name.None? {
      return Err(Malformed);
    }
    if !name.value.Bytes? {
      return Err(Crash);
    }
    var pieceLength, blob := Get(info.entries, Bytes(PIECE_LENGTH)), Get(info.entries, Bytes(PIECES));
    if pieceLength.None? || !pieceLength.value.Int? || pieceLength.value.n <= 0 {
      return Err(Malformed);
    }
    if blob.None? || !blob.value.Bytes? || |blob.value.s| % HASH_SIZE != 0 {
      return Err(Malformed);
    }
    var pieces := Hashes(blob.value.s);
    var title := text(name.value.s);
    var files := Get(info.entries, Bytes(FILES));
    if files.Some? {
      var items := Iterate(files.value);
      if items.Err? {
        return Err(items.error);
      }
      var entries, total := ReadFiles(items.value, text);
      if entries.Err? {
        return Err(entries.error);
      }
      EndOfContiguous(entries.value, total);
      return Ok(TorrentInfo(title, pieceLength.value.n, pieces, entries.value, true, total));
    }
    var length := Get(info.entries, Bytes(LENGTH));
    if length.None? || !length.value.Int? {
      return Err(Malformed);
    }
    var only := FileEntry(title, length.value.n, 0);
    OneIsContiguous(only);
    return Ok(TorrentInfo(title, pieceLength.value.n, pieces, [only], false, length.value.n));
  }

  // ---------------------------------------------------------------- writing and reading back

  lemma EndOfContiguous(files: seq<FileEntry>, total: int)
    requires Contiguous(files, total)
    ensures total == StartOf(files, |files|)
  {
  }

  lemma OneIsContiguous(f: FileEntry)
    requires f.offset == 0
    ensures Contiguous([f], f.length)
  {
    assert StartOf([f], 0) == 0 && StartOf([f], 1) == f.End();
  }

  /** A file as BEP 3 writes it: path components and a length. */
  datatype RawFile = RawFile(parts: seq<seq<byte>>, length: int)

  /** A file entry says this length and this path; it may say more, in any order. */
  predicate DescribesFile(v: Value, f: RawFile) {
    && v.Dict? && Get(v.entries, Bytes(LENGTH)) == Some(Int(f.length))
    && Get(v.entries, Bytes(PATH)) == Some(List(BytesValues(f.parts)))
  }

  predicate DescribesFiles(values: seq<Value>, files: seq<RawFile>) {
    |values| == |files| && forall k :: 0 <= k < |files| ==> DescribesFile(values[k], files[k])
  }

  /** An info dictionary says this name, piece length and hashes; it may say more, in any order. */
  predicate DescribesInfo(info: Value, name: seq<byte>, pieceLength: int, pieces: seq<seq<byte>>) {
    && info.Dict? && Get(info.entries, Bytes(NAME)) == Some(Bytes(name))
    && Get(info.entries, Bytes(PIECE_LENGTH)) == Some(Int(pieceLength))
    && Get(info.entries, Bytes(PIECES)) == Some(Bytes(Concat(pieces)))
  }

  function BytesValues(parts: seq<seq<byte>>): (r: seq<Value>)
    ensures |r| == |parts| && forall v :: v in r ==> v.Bytes?
  {
    if parts == [] then [] else [Bytes(parts[0])] + BytesValues(parts[1..])
  }

  function MapText(parts: seq<seq<byte>>, text: Text): seq<string> {
    if parts == [] then [] else [text(parts[0])] + MapText(parts[1..], text)
  }

  /** The table a client would compute: the offset of a file is the sum of the lengths before it. */
  function Expected(files: seq<RawFile>, offset: int, text: Text): seq<FileEntry> {
    if files == [] then []
    else [FileEntry(Join(MapText(files[0].parts, text)), files[0].length, offset)]
         + Expected(files[1..], offset + files[0].length, text)
  }

  function TotalOf(files: seq<RawFile>): int {
    if files == [] then 0 else files[0].length + TotalOf(files[1..])
  }

  lemma {:induction false} HashesOfConcat(pieces: seq<seq<byte>>)
    requires forall h :: h in pieces ==> |h| == HASH_SIZE
    ensures |Concat(pieces)| % HASH_SIZE == 0 && Hashes(Concat(pieces)) == pieces
  {
    if pieces != [] {
      HashesOfConcat(pieces[1..]);
      assert |pieces[0]| == HASH_SIZE;
      assert Concat(pieces)[..HASH_SIZE] == pieces[0] && Concat(pieces)[HASH_SIZE..] == Concat(pieces[1..]);
    }
  }

  lemma {:induction false} TextsOfBytes(parts: seq<seq<byte>>, text: Text)
    ensures Texts(BytesValues(parts), text) == Ok(MapText(parts, text))
  {
    if parts != [] {
      TextsOfBytes(parts[1..], text);
      assert BytesValues(parts)[1..] == BytesValues(parts[1..]);
    }
  }

  lemma EntryOfFile(v: Value, f: RawFile, offset: int, text: Text)
    requires DescribesFile(v, f) && f.parts != []
    ensures EntryOf(v, offset, text) == Ok(FileEntry(Join(MapText(f.parts, text)), f.length, offset))
  {
    hide Join, Texts, Get;
    TextsOfBytes(f.parts, text);
  }

  lemma {:induction false} EntriesOfFiles(values: seq<Value>, files: seq<RawFile>, offset: int, text: Text)
    requires DescribesFiles(values, files) && forall f :: f in files ==> f.parts != []
    ensures EntriesFrom(values, offset, text) == Ok(Expected(files, offset, text))
    ensures StartOf(Expected(files, 0, text), |Expected(files, 0, text)|) == TotalOf(files)
  {
    hide EntryOf, DescribesFile;
    if files != [] {
      EntryOfFile(values[0], files[0], offset, text);
      EntriesOfFiles(values[1..], files[1..], offset + files[0].length, text);
    }
    ExpectedEnds(files, 0, text);
  }

  lemma {:induction false} ExpectedEnds(files: seq<RawFile>, offset: int, text: Text)
    ensures var es := Expected(files, offset, text);
            |es| == |files| && (es != [] ==> es[|es| - 1].End() == offset + TotalOf(files))
  {
    if files != [] {
      ExpectedEnds(files[1..], offset + files[0].length, text);
      if |files| > 1 {
        assert Expected(files, offset, text)[|files| - 1]
            == Expected(files[1..], offset + files[0].length, text)[|files| - 2];
      }
    }
  }

  /**
   End to end: the .torrent written for a torrent of several files reads back as exactly that torrent. Other keys
   may stand at the top, in the info dictionary and in the file entries, all in any order, and anything may follow.
   Lengths may be negative: the parser does not object.
   */
  lemma ParseOfEncoding(entries: seq<Entry>, tail: seq<byte>, info: Value, values: seq<Value>, name: seq<byte>,
                        pieceLength: int,
                        pieces: seq<seq<byte>>, files: seq<RawFile>, text: Text)
    requires WellFormed(Dict(entries)) && Get(entries, Bytes(INFO)) == Some(info)
    requires DescribesInfo(info, name, pieceLength, pieces)
    requires Get(info.entries, Bytes(FILES)) == Some(List(values)) && DescribesFiles(values, files)
    requires pieceLength > 0 && (forall h :: h in pieces ==> |h| == HASH_SIZE)
    requires forall f :: f in files ==> f.parts != []
    ensures Loads(Encode(Dict(entries)) + tail) == Ok(Dict(entries))
    ensures InfoOf(Dict(entries), text)
         == Ok(TorrentInfo(text(name), pieceLength, pieces, Expected(files, 0, text), true, TotalOf(files)))
  {
    hide Encode, DecodeAt, WellFormed, EntriesFrom, Expected, Hashes, Concat, StartOf, EntryOf, Get, DescribesFiles;
    RoundTrip(Dict(entries), Encode(Dict(entries)) + tail, 0);
    HashesOfConcat(pieces);
    EntriesOfFiles(values, files, 0, text);
  }

  /** The same for a torrent of a single file, which is named like the torrent. */
  lemma ParseOfSingleFile(entries: seq<Entry>, tail: seq<byte>, info: Value, name: seq<byte>, pieceLength: int,
                          pieces: seq<seq<byte>>,
                          length: int, text: Text)
    requires WellFormed(Dict(entries)) && Get(entries, Bytes(INFO)) == Some(info)
    requires DescribesInfo(info, name, pieceLength, pieces)
    requires Get(info.entries, Bytes(FILES)).None? && Get(info.entries, Bytes(LENGTH)) == Some(Int(length))
    requires pieceLength > 0 && (forall h :: h in pieces ==> |h| == HASH_SIZE)
    ensures Loads(Encode(Dict(entries)) + tail) == Ok(Dict(entries))
    ensures InfoOf(Dict(entries), text)
         == Ok(TorrentInfo(text(name), pieceLength, pieces, [FileEntry(text(name), length, 0)], false, length))
  {
    hide Encode, DecodeAt, WellFormed, Hashes, Concat, Get;
    RoundTrip(Dict(entries), Encode(Dict(entries)) + tail, 0);
    HashesOfConcat(pieces);
  }
}
