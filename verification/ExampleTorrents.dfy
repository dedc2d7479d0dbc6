/** Two small .torrent files, as bytes: what the examples of other modules are about can be parsed from a file. */
module ExampleTorrents {
  import opened Basics
  import opened Bencode
  import opened Metainfo

  /** A decoding of text: each byte is a character. */
  function Letters(s: seq<byte>): string {
    seq(|s|, k requires 0 <= k < |s| => s[k] as int as char)
  }

  lemma LettersOf(b: byte, c: char)
    requires b as int == c as int
    ensures Letters([b]) == [c]
  {
  }

  // ---------------------------------------------------------------- lookups

  lemma {:induction false} GetAt(d: seq<Entry>, k: nat)
    requires DistinctKeys(d) && k < |d|
    ensures Get(d, d[k].key) == Some(d[k].value)
  {
    if k > 0 {
      GetAt(d[1..], k - 1);
    }
  }

  lemma {:induction false} GetNone(d: seq<Entry>, key: Value)
    requires forall e :: e in d ==> e.key != key
    ensures Get(d, key).None?
  {
    if d != [] {
      GetNone(d[1..], key);
    }
  }

  lemma KeysDiffer()
    ensures |LENGTH| == |PIECES| == 6 && LENGTH != PIECES && |NAME| == 4 && |FILES| == 5 && |PIECE_LENGTH| == 12
    ensures |PATH| == 4 && PATH != NAME
  {
    assert LENGTH[0] != PIECES[0] && PATH[0] != NAME[0];
  }

  /** A .torrent with nothing but its info dictionary. */
  function TorrentOf(info: Value): Value {
    Dict([Entry(Bytes(INFO), info)])
  }

  lemma TorrentOfInfo(info: Value)
    requires WellFormed(info)
    ensures WellFormed(TorrentOf(info)) && Get(TorrentOf(info).entries, Bytes(INFO)) == Some(info)
  {
    var top := TorrentOf(info).entries;
    assert forall e :: e in top ==> e == top[0];
  }

  /** A dictionary of four keys with values of its own. */
  lemma FourEntries(d: seq<Entry>)
    requires |d| == 4 && DistinctKeys(d) && forall e :: e in d ==> e.key.Bytes? && WellFormed(e.value)
    ensures WellFormed(Dict(d)) && forall k :: 0 <= k < 4 ==> Get(d, d[k].key) == Some(d[k].value)
  {
    hide Get, DistinctKeys;
    forall k | 0 <= k < 4 ensures Get(d, d[k].key) == Some(d[k].value) {
      GetAt(d, k);
    }
  }

  // ---------------------------------------------------------------- one file

  /** A single file `f`, in pieces of one byte. */
  function OneFileTorrent(pieces: seq<seq<byte>>): Value {
    TorrentOf(OneFileInfo(pieces))
  }

  function OneFileInfo(pieces: seq<seq<byte>>): Value {
    Dict([Entry(Bytes(LENGTH), Int(|pieces|)), Entry(Bytes(NAME), Bytes([102])),
          Entry(Bytes(PIECE_LENGTH), Int(1)), Entry(Bytes(PIECES), Bytes(Concat(pieces)))])
  }

  lemma OneFileIsDescribed(pieces: seq<seq<byte>>)
    ensures var info := OneFileInfo(pieces);
      && WellFormed(info) && DescribesInfo(info, [102], 1, pieces)
      && Get(info.entries, Bytes(FILES)).None? && Get(info.entries, Bytes(LENGTH)) == Some(Int(|pieces|))
  {
    hide Concat, Get, WellFormed;
    var d := OneFileInfo(pieces).entries;
    KeysDiffer();
    NumbersAndBytes(|pieces|, [102]);
    NumbersAndBytes(1, Concat(pieces));
    FourEntries(d);
    assert d[0].key == Bytes(LENGTH) && d[1].key == Bytes(NAME) && d[2].key == Bytes(PIECE_LENGTH)
        && d[3].key == Bytes(PIECES);
    GetNone(d, Bytes(FILES));
  }

  lemma NumbersAndBytes(n: int, s: seq<byte>)
    ensures WellFormed(Int(n)) && WellFormed(Bytes(s))
  {
  }

  lemma OneFileParses(pieces: seq<seq<byte>>, text: Text)
    requires text([102]) == "f" && forall h :: h in pieces ==> |h| == HASH_SIZE
    ensures ParsesTo(OneFileTorrent(pieces), text,
              TorrentInfo("f", 1, pieces, [FileEntry("f", |pieces|, 0)], false, |pieces|))
  {
    hide Encode, DecodeAt, InfoOf, Concat, Get, WellFormed, DescribesInfo;
    var info := OneFileInfo(pieces);
    OneFileIsDescribed(pieces);
    TorrentOfInfo(info);
    assert Encode(TorrentOf(info)) + [] == Encode(TorrentOf(info));
    ParseOfSingleFile(TorrentOf(info).entries, [], info, [102], 1, pieces, |pieces|, text);
  }

  /** The bytes of this value are a .torrent that parses to `t`. */
  predicate ParsesTo(v: Value, text: Text, t: TorrentInfo) {
    Loads(Encode(v)) == Ok(v) && InfoOf(v, text) == Ok(t)
  }

  // ---------------------------------------------------------------- two files

  /** The torrent `t` of two files of one byte, `v` and `n`, one piece each. */
  function TwoFileTorrent(a: seq<byte>, b: seq<byte>): Value {
    TorrentOf(TwoFileInfo(a, b))
  }

  function TwoFileInfo(a: seq<byte>, b: seq<byte>): Value {
    Dict([Entry(Bytes(FILES), List([FileValue(118), FileValue(110)])), Entry(Bytes(NAME), Bytes([116])),
          Entry(Bytes(PIECE_LENGTH), Int(1)), Entry(Bytes(PIECES), Bytes(Concat([a, b])))])
  }

  function FileValue(name: byte): Value {
    Dict([Entry(Bytes(LENGTH), Int(1)), Entry(Bytes(PATH), List([Bytes([name])]))])
  }

  lemma FileIsDescribed(name: byte)
    ensures DescribesFile(FileValue(name), RawFile([[name]], 1)) && WellFormed(FileValue(name))
  {
    hide Get;
    var d := FileValue(name).entries;
    KeysDiffer();
    assert DistinctKeys(d);
    GetAt(d, 0);
    GetAt(d, 1);
    assert BytesValues([[name]]) == [Bytes([name])] + BytesValues([]) == [Bytes([name])];
    assert forall v :: v in [Bytes([name])] ==> WellFormed(v);
  }

  lemma TwoFilesAreDescribed(a: seq<byte>, b: seq<byte>)
    ensures var info, values := TwoFileInfo(a, b), [FileValue(118), FileValue(110)];
      && WellFormed(info) && DescribesInfo(info, [116], 1, [a, b])
      && Get(info.entries, Bytes(FILES)) == Some(List(values))
      && DescribesFiles(values, [RawFile([[118]], 1), RawFile([[110]], 1)])
  {
    hide Concat, Get, DescribesFile, FileValue;
    var values, d := [FileValue(118), FileValue(110)], TwoFileInfo(a, b).entries;
    FileIsDescribed(118);
    FileIsDescribed(110);
    assert WellFormed(List(values));
    hide WellFormed;
    KeysDiffer();
    NumbersAndBytes(1, [116]);
    NumbersAndBytes(1, Concat([a, b]));
    FourEntries(d);
    assert d[0].key == Bytes(FILES) && d[1].key == Bytes(NAME) && d[2].key == Bytes(PIECE_LENGTH)
        && d[3].key == Bytes(PIECES);
  }

  lemma TwoFilesParse(a: seq<byte>, b: seq<byte>, text: Text)
    requires text([116]) == "t" && text([118]) == "v" && text([110]) == "n" && |a| == |b| == HASH_SIZE
    ensures ParsesTo(TwoFileTorrent(a, b), text,
              TorrentInfo("t", 1, [a, b], [FileEntry("v", 1, 0), FileEntry("n", 1, 1)], true, 2))
  {
    hide Encode, DecodeAt, InfoOf, Get, WellFormed, DescribesInfo, DescribesFiles, Expected, FileValue;
    var info := TwoFileInfo(a, b);
    TwoFilesAreDescribed(a, b);
    TorrentOfInfo(info);
    TwoFilesExpected(text);
    assert Encode(TorrentOf(info)) + [] == Encode(TorrentOf(info));
    ParseOfEncoding(TorrentOf(info).entries, [], info, [FileValue(118), FileValue(110)], [116], 1, [a, b],
      [RawFile([[118]], 1), RawFile([[110]], 1)], text);
  }

  lemma TwoFilesExpected(text: Text)
    requires text([118]) == "v" && text([110]) == "n"
    ensures var files := [RawFile([[118]], 1), RawFile([[110]], 1)];
      Expected(files, 0, text) == [FileEntry("v", 1, 0), FileEntry("n", 1, 1)] && TotalOf(files) == 2
  {
    var files := [RawFile([[118]], 1), RawFile([[110]], 1)];
    assert files[1..] == [files[1]] && files[1..][1..] == [];
    assert MapText([[118]], text) == ["v"] && MapText([[110]], text) == ["n"];
  }
}
