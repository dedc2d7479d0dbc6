/**
 The bencode reader of app/torrent_file.py, and the encoder of BEP 3 (section "bencoding") that it
 must undo.

 `DecodeAt` is the meaning of `_decode` as a function of the input and the position; `Decode` is the
 program, with the loops of the source, proved to compute it. The lemmas are about `DecodeAt`.
 */
module Bencode {
  import opened Basics

  const I: byte := 105
  const L: byte := 108
  const D: byte := 100
  const E: byte := 101
  const COLON: byte := 58
  const MINUS: byte := 45
  const PLUS: byte := 43
  const UNDERSCORE: byte := 95
  const ZERO: byte := 48

  /** A decoded value. A dictionary keeps Python's insertion order. */
  datatype Value =
    | Int(n: int)
    | Bytes(s: seq<byte>)
    | List(items: seq<Value>)
    | Dict(entries: seq<Entry>)

  datatype Entry = Entry(key: Value, value: Value)

  /**
   How a call ends when it does not return: `Malformed` is TorrentMetainfoError, `BadValue` is the
   ValueError of `int()` and `index()`, `Crash` is any exception `decode` does not translate.
   */
  datatype Error = Malformed | BadValue | Crash

  type Parsed<+T> = Result<T, Error>

  type Decoded = Parsed<(Value, nat)>

  // ---------------------------------------------------------------- numbers

  predicate IsDigit(c: byte) {
    ZERO <= c <= 57
  }

  predicate IsSpace(c: byte) {
    9 <= c <= 13 || c == 32
  }

  /** Digits with single underscores between them, as `int()` reads them. */
  function Digits(s: seq<byte>): Option<nat> {
    if s == [] || !IsDigit(s[|s| - 1]) then None
    else
      var d := (s[|s| - 1] - ZERO) as int;
      if |s| == 1 then Some(d)
      else
        match Digits(if s[|s| - 2] == UNDERSCORE then s[..|s| - 2] else s[..|s| - 1])
        case None => None
        case Some(v) => Some(10 * v + d)
  }

  function StripLeft(s: seq<byte>): seq<byte> {
    if s != [] && IsSpace(s[0]) then StripLeft(s[1..]) else s
  }

  function StripRight(s: seq<byte>): (r: seq<byte>)
    ensures r <= s
  {
    if s != [] && IsSpace(s[|s| - 1]) then StripRight(s[..|s| - 1]) else s
  }

  /** `int(s)` of Python on bytes: blanks around, one sign, digits with single underscores. */
  function ParseInt(s: seq<byte>): (r: Option<int>)
    ensures r.Some? && s != [] && IsDigit(s[0]) ==> r.value >= 0
  {
    var t := StripRight(StripLeft(s));
    if t != [] && t[0] == MINUS then
      match Digits(t[1..])
      case None => None
      case Some(v) => Some(0 - v)
    else if t != [] && t[0] == PLUS then Digits(t[1..])
    else Digits(t)
  }

  /** `data.index(c, i)`: the first position from `i` that holds `c`. */
  function IndexOf(data: seq<byte>, c: byte, i: nat): (r: Option<nat>)
    ensures r.Some? ==> i <= r.value < |data| && data[r.value] == c
    ensures r.Some? ==> forall j :: i <= j < r.value ==> data[j] != c
    ensures r.None? ==> forall j :: i <= j < |data| ==> data[j] != c
    decreases |data| - i
  {
    if i >= |data| then None else if data[i] == c then Some(i) else IndexOf(data, c, i + 1)
  }

  // ---------------------------------------------------------------- decoder

  predicate Hashable(v: Value) {
    v.Int? || v.Bytes?
  }

  /** `d[key] = value`: an existing key keeps its place. */
  function Put(d: seq<Entry>, key: Value, value: Value): seq<Entry> {
    if d == [] then [Entry(key, value)]
    else if d[0].key == key then [Entry(key, value)] + d[1..]
    else [d[0]] + Put(d[1..], key, value)
  }

  /** The dictionary that a sequence of assignments leaves. */
  function AsDict(pairs: seq<Entry>): seq<Entry> {
    if pairs == [] then []
    else
      var last := pairs[|pairs| - 1];
      Put(AsDict(pairs[..|pairs| - 1]), last.key, last.value)
  }

  /** `d.get(key)` */
  function Get(d: seq<Entry>, key: Value): Option<Value> {
    if d == [] then None else if d[0].key == key then Some(d[0].value) else Get(d[1..], key)
  }

  function Left(data: seq<byte>, i: nat): nat {
    if i < |data| then |data| - i else 0
  }

  /** True when a loop over items stops at `i`: `data[i:i+1] == b"e"`. */
  predicate AtEnd(data: seq<byte>, i: nat) {
    i < |data| && data[i] == E
  }

  function DecodeAt(data: seq<byte>, i: nat): (r: Decoded)
    ensures r.Ok? ==> i < |data| && i < r.value.1
    decreases Left(data, i), 0
  {
    if i >= |data| then Err(Malformed)
    else if data[i] == I then
      match IndexOf(data, E, i)
      case None => Err(BadValue)
      case Some(end) =>
        match ParseInt(data[i + 1..end])
        case None => Err(BadValue)
        case Some(n) => Ok((Int(n), end + 1))
    else if data[i] == L then
      match DecodeItems(data, i + 1)
      case Err(e) => Err(e)
      case Ok((items, j)) => Ok((List(items), j + 1))
    else if data[i] == D then
      match DecodePairs(data, i + 1)
      case Err(e) => Err(e)
      case Ok((pairs, j)) => Ok((Dict(AsDict(pairs)), j + 1))
    else if IsDigit(data[i]) then
      match IndexOf(data, COLON, i)
      case None => Err(BadValue)
      case Some(colon) =>
        match ParseInt(data[i..colon])
        case None => Err(BadValue)
        case Some(length) =>
          assert data[i..colon][0] == data[i];
          Ok((Bytes(Slice(data, colon + 1, colon + 1 + length)), colon + 1 + length))
    else Err(Malformed)
  }

  /** The items from `i` up to the closing `e`, and the position of that `e`. */
  function DecodeItems(data: seq<byte>, i: nat): (r: Parsed<(seq<Value>, nat)>)
    ensures r.Ok? ==> i <= r.value.1 && AtEnd(data, r.value.1)
    decreases Left(data, i), 1
  {
    if AtEnd(data, i) then Ok(([], i))
    else
      match DecodeAt(data, i)
      case Err(e) => Err(e)
      case Ok((item, j)) =>
        match DecodeItems(data, j)
        case Err(e) => Err(e)
        case Ok((items, k)) => Ok(([item] + items, k))
  }

  /** The assignments `result[key] = value` from `i` up to the closing `e`, in input order. */
  function DecodePairs(data: seq<byte>, i: nat): (r: Parsed<(seq<Entry>, nat)>)
    ensures r.Ok? ==> i <= r.value.1 && AtEnd(data, r.value.1)
    decreases Left(data, i), 2
  {
    if AtEnd(data, i) then Ok(([], i))
    else
      match DecodeEntry(data, i)
      case Err(e) => Err(e)
      case Ok((entry, j)) =>
        match DecodePairs(data, j)
        case Err(e) => Err(e)
        case Ok((pairs, k)) => Ok(([entry] + pairs, k))
  }

  /** One key, then its value; a key that cannot be hashed fails only after the value was read. */
  function DecodeEntry(data: seq<byte>, i: nat): (r: Parsed<(Entry, nat)>)
    ensures r.Ok? ==> i < |data| && i < r.value.1
    decreases Left(data, i), 1
  {
    match DecodeAt(data, i)
    case Err(e) => Err(e)
    case Ok((key, j)) =>
      match DecodeAt(data, j)
      case Err(e) => Err(e)
      case Ok((value, k)) => if Hashable(key) then Ok((Entry(key, value), k)) else Err(Crash)
  }

  function Prepend<T>(xs: seq<T>, r: Parsed<(seq<T>, nat)>): Parsed<(seq<T>, nat)> {
    match r
    case Err(e) => Err(e)
    case Ok((ys, j)) => Ok((xs + ys, j))
  }

  lemma PrependNothing<T>(r: Parsed<(seq<T>, nat)>)
    ensures Prepend([], r) == r
  {
    assert r.Ok? ==> [] + r.value.0 == r.value.0;
  }

  lemma PrependMore<T>(xs: seq<T>, x: T, r: Parsed<(seq<T>, nat)>)
    ensures Prepend(xs, Prepend([x], r)) == Prepend(xs + [x], r)
  {
    assert r.Ok? ==> xs + ([x] + r.value.0) == xs + [x] + r.value.0;
  }

  /** `_decode`: recursive; a list and a dictionary are read by a loop over their items. */
  method Decode(data: seq<byte>, i: nat) returns (r: Decoded)
    ensures r == DecodeAt(data, i)
    decreases Left(data, i), 0
  {
    if i >= |data| {
      return Err(Malformed);
    }
    if data[i] == I {
      var end := IndexOf(data, E, i);
      if end.None? {
        return Err(BadValue);
      }
      var n := ParseInt(data[i + 1..end.value]);
      return if n.None? then Err(BadValue) else Ok((Int(n.value), end.value + 1));
    }
    if data[i] == L {
      r := DecodeList(data, i);
      return;
    }
    if data[i] == D {
      r := DecodeDict(data, i);
      return;
    }
    if IsDigit(data[i]) {
      var colon := IndexOf(data, COLON, i);
      if colon.None? {
        return Err(BadValue);
      }
      var length := ParseInt(data[i..colon.value]);
      if length.None? {
        return Err(BadValue);
      }
      assert data[i..colon.value][0] == data[i];
      var from := colon.value + 1;
      return Ok((Bytes(Slice(data, from, from + length.value)), from + length.value));
    }
    return Err(Malformed);
  }

  method DecodeList(data: seq<byte>, start: nat) returns (r: Decoded)
    requires start < |data| && data[start] == L
    ensures r == DecodeAt(data, start)
    decreases Left(data, start), 0, 0
  {
    var i := start + 1;
    var result: seq<Value> := [];
    ghost var whole := DecodeItems(data, i);
    PrependNothing(whole);
    while !AtEnd(data, i)
      invariant start < i
      invariant whole == Prepend(result, DecodeItems(data, i))
      decreases Left(data, i)
    {
      var item := Decode(data, i);
      if item.Err? {
        return Err(item.error);
      }
      PrependMore(result, item.value.0, DecodeItems(data, item.value.1));
      result := result + [item.value.0];
      i := item.value.1;
    }
    assert result + [] == result;
    return Ok((List(result), i + 1));
  }

  method DecodeDict(data: seq<byte>, start: nat) returns (r: Decoded)
    requires start < |data| && data[start] == D
    ensures r == DecodeAt(data, start)
    decreases Left(data, start), 0, 0
  {
    var i := start + 1;
    var result: seq<Entry> := [];
    ghost var whole := DecodePairs(data, i);
    ghost var pairs: seq<Entry> := [];
    PrependNothing(whole);
    while !AtEnd(data, i)
      invariant start < i
      invariant result == AsDict(pairs)
      invariant whole == Prepend(pairs, DecodePairs(data, i))
      decreases Left(data, i)
    {
      var key := Decode(data, i);
      if key.Err? {
        return Err(key.error);
      }
      var value := Decode(data, key.value.1);
      if value.Err? {
        return Err(value.error);
      }
      if !Hashable(key.value.0) {
        return Err(Crash);
      }
      ghost var entry := Entry(key.value.0, value.value.0);
      PrependMore(pairs, entry, DecodePairs(data, value.value.1));
      result := Put(result, key.value.0, value.value.0);
      assert (pairs + [entry])[..|pairs|] == pairs;
      pairs := pairs + [entry];
      i := value.value.1;
    }
    assert pairs + [] == pairs;
    return Ok((Dict(result), i + 1));
  }

  /** `decode`: the value alone; only ValueError becomes TorrentMetainfoError. */
  function Loads(data: seq<byte>): Parsed<Value> {
    match DecodeAt(data, 0)
    case Ok((v, _)) => Ok(v)
    case Err(BadValue) => Err(Malformed)
    case Err(e) => Err(e)
  }

  // ---------------------------------------------------------------- encoder

  function Decimal(n: nat): (s: seq<byte>)
    ensures s != [] && forall c :: c in s ==> IsDigit(c)
  {
    if n < 10 then [n as byte + ZERO] else Decimal(n / 10) + [(n % 10) as byte + ZERO]
  }

  function Encode(v: Value): (s: seq<byte>)
    ensures s != [] && s[0] != E
  {
    match v
    case Int(n) => [I] + (if n < 0 then [MINUS] + Decimal(-n) else Decimal(n)) + [E]
    case Bytes(s) =>
      assert Decimal(|s|)[0] in Decimal(|s|);
      Decimal(|s|) + [COLON] + s
    case List(items) => [L] + EncodeItems(items) + [E]
    case Dict(entries) => [D] + EncodePairs(entries) + [E]
  }

  function EncodeItems(items: seq<Value>): seq<byte> {
    if items == [] then [] else Encode(items[0]) + EncodeItems(items[1..])
  }

  function EncodePairs(entries: seq<Entry>): seq<byte> {
    if entries == [] then [] else EncodeEntry(entries[0]) + EncodePairs(entries[1..])
  }

  function EncodeEntry(e: Entry): seq<byte> {
    Encode(e.key) + Encode(e.value)
  }

  predicate DistinctKeys(entries: seq<Entry>) {
    forall a, b :: 0 <= a < b < |entries| ==> entries[a].key != entries[b].key
  }

  /** Every dictionary inside has distinct, hashable keys; nothing else is asked. */
  predicate WellFormed(v: Value) {
    match v
    case Int(_) => true
    case Bytes(_) => true
    case List(items) => forall x :: x in items ==> WellFormed(x)
    case Dict(entries) =>
      && DistinctKeys(entries)
      && forall e :: e in entries ==> Hashable(e.key) && WellFormed(e.value)
  }

  // ---------------------------------------------------------------- round trip

  lemma {:induction false} DigitsOfDecimal(n: nat)
    ensures Digits(Decimal(n)) == Some(n)
  {
    if n >= 10 {
      var s := Decimal(n);
      assert s[..|s| - 1] == Decimal(n / 10);
      assert s[|s| - 2] in Decimal(n / 10);
      DigitsOfDecimal(n / 10);
    }
  }

  lemma NoBlanks(s: seq<byte>)
    requires s != [] && !IsSpace(s[0]) && !IsSpace(s[|s| - 1])
    ensures StripRight(StripLeft(s)) == s
  {
  }

  lemma ParseDecimal(n: int)
    ensures ParseInt(if n < 0 then [MINUS] + Decimal(-n) else Decimal(n)) == Some(n)
  {
    var digits := Decimal(if n < 0 then -n else n);
    DigitsOfDecimal(if n < 0 then -n else n);
    var s := if n < 0 then [MINUS] + digits else digits;
    assert digits[0] in digits && digits[|digits| - 1] in digits;
    assert s[|s| - 1] == digits[|digits| - 1];
    NoBlanks(s);
    if n < 0 {
      assert s[1..] == digits;
    }
  }

  /** `chunk` stands in `data` at position `i`. */
  predicate At(data: seq<byte>, i: nat, chunk: seq<byte>) {
    && i + |chunk| <= |data|
    && forall j :: i <= j < i + |chunk| ==> data[j] == chunk[j - i]
  }

  lemma AtParts(data: seq<byte>, i: nat, a: seq<byte>, b: seq<byte>)
    requires At(data, i, a + b)
    ensures At(data, i, a) && At(data, i + |a|, b)
  {
  }

  /** Reading an encoding anywhere in the input gives back the value and the position just after it. */
  lemma {:induction false} RoundTrip(v: Value, data: seq<byte>, i: nat)
    requires WellFormed(v) && At(data, i, Encode(v))
    ensures DecodeAt(data, i) == Ok((v, i + |Encode(v)|))
    decreases v, 0
  {
    hide DecodeItems, DecodePairs, EncodeItems, EncodePairs;
    match v
    case Int(n) =>
      IntRoundTrip(n, data, i);
    case Bytes(b) =>
      StringRoundTrip(b, data, i);
    case List(items) =>
      BodyAt(data, i, L, EncodeItems(items));
      ItemsRoundTrip(items, data, i + 1);
    case Dict(entries) =>
      BodyAt(data, i, D, EncodePairs(entries));
      PairsRoundTrip(entries, data, i + 1);
      DistinctAsDict(entries);
  }

  lemma BodyAt(data: seq<byte>, i: nat, open: byte, body: seq<byte>)
    requires At(data, i, [open] + body + [E])
    ensures i < |data| && data[i] == open && At(data, i + 1, body + [E])
  {
    assert [open] + body + [E] == [open] + (body + [E]);
    AtParts(data, i, [open], body + [E]);
  }

  lemma HeadAt(data: seq<byte>, i: nat, head: seq<byte>, rest: seq<byte>)
    requires head != [] && head[0] != E
    requires At(data, i, head + rest + [E])
    ensures At(data, i, head) && At(data, i + |head|, rest + [E]) && !AtEnd(data, i)
  {
    assert head + rest + [E] == head + (rest + [E]);
    AtParts(data, i, head, rest + [E]);
  }

  lemma IntRoundTrip(n: int, data: seq<byte>, i: nat)
    requires At(data, i, Encode(Int(n)))
    ensures DecodeAt(data, i) == Ok((Int(n), i + |Encode(Int(n))|))
  {
    hide DecodeItems, DecodePairs, ParseInt, Decimal, IndexOf;
    var text := if n < 0 then [MINUS] + Decimal(-n) else Decimal(n);
    var end := i + 1 + |text|;
    assert Encode(Int(n)) == [I] + (text + [E]);
    AtParts(data, i, [I], text + [E]);
    AtParts(data, i + 1, text, [E]);
    forall j | i <= j < end ensures data[j] != E {
      assert j > i ==> data[j] == text[j - (i + 1)] && text[j - (i + 1)] in text;
    }
    FoundAt(data, E, i, end);
    assert data[i + 1..end] == text;
    ParseDecimal(n);
  }

  lemma FoundAt(data: seq<byte>, c: byte, i: nat, k: nat)
    requires i <= k < |data| && data[k] == c
    requires forall j :: i <= j < k ==> data[j] != c
    ensures IndexOf(data, c, i) == Some(k)
  {
  }

  lemma StringRoundTrip(b: seq<byte>, data: seq<byte>, i: nat)
    requires At(data, i, Encode(Bytes(b)))
    ensures DecodeAt(data, i) == Ok((Bytes(b), i + |Encode(Bytes(b))|))
  {
    hide DecodeItems, DecodePairs, ParseInt, Decimal, IndexOf;
    var digits := Decimal(|b|);
    var colon := i + |digits|;
    AtParts(data, i, digits + [COLON], b);
    AtParts(data, i, digits, [COLON]);
    forall j | i <= j < colon ensures IsDigit(data[j]) {
      assert data[j] == digits[j - i] && digits[j - i] in digits;
    }
    FoundAt(data, COLON, i, colon);
    assert data[i..colon] == digits;
    assert data[colon + 1..colon + 1 + |b|] == b;
    ParseDecimal(|b|);
  }

  lemma {:induction false} ItemsRoundTrip(items: seq<Value>, data: seq<byte>, i: nat)
    requires forall x :: x in items ==> WellFormed(x)
    requires At(data, i, EncodeItems(items) + [E])
    ensures DecodeItems(data, i) == Ok((items, i + |EncodeItems(items)|))
    decreases items, 1
  {
    hide DecodeAt, Encode, WellFormed;
    if items == [] {
    } else {
      HeadAt(data, i, Encode(items[0]), EncodeItems(items[1..]));
      RoundTrip(items[0], data, i);
      ItemsRoundTrip(items[1..], data, i + |Encode(items[0])|);
      assert [items[0]] + items[1..] == items;
    }
  }

  lemma EntryHead(e: Entry)
    ensures EncodeEntry(e) != [] && EncodeEntry(e)[0] != E
  {
  }

  lemma {:induction false} PairsRoundTrip(entries: seq<Entry>, data: seq<byte>, i: nat)
    requires forall e :: e in entries ==> Hashable(e.key) && WellFormed(e.value)
    requires At(data, i, EncodePairs(entries) + [E])
    ensures DecodePairs(data, i) == Ok((entries, i + |EncodePairs(entries)|))
    decreases entries, 1
  {
    hide DecodeEntry, EncodeEntry, WellFormed, Hashable;
    if entries == [] {
    } else {
      var e := entries[0];
      EntryHead(e);
      HeadAt(data, i, EncodeEntry(e), EncodePairs(entries[1..]));
      EntryRoundTrip(e, data, i);
      PairsRoundTrip(entries[1..], data, i + |EncodeEntry(e)|);
      assert [e] + entries[1..] == entries;
    }
  }

  lemma {:induction false} EntryRoundTrip(e: Entry, data: seq<byte>, i: nat)
    requires Hashable(e.key) && WellFormed(e.value)
    requires At(data, i, EncodeEntry(e))
    ensures DecodeEntry(data, i) == Ok((e, i + |EncodeEntry(e)|))
    decreases e, 1
  {
    hide DecodeAt, Encode, Digits;
    AtParts(data, i, Encode(e.key), Encode(e.value));
    RoundTrip(e.key, data, i);
    RoundTrip(e.value, data, i + |Encode(e.key)|);
  }

  /** Encoding is injective on well-formed values, even as a prefix of a longer input. */
  lemma EncodeInjective(v: Value, w: Value, tail: seq<byte>)
    requires WellFormed(v) && WellFormed(w)
    requires Encode(v) <= Encode(w) + tail
    ensures v == w
  {
    var data := Encode(w) + tail;
    RoundTrip(v, data, 0);
    RoundTrip(w, data, 0);
  }

  // ---------------------------------------------------------------- dictionaries

  lemma {:induction false} PutNew(d: seq<Entry>, key: Value, value: Value)
    requires forall e :: e in d ==> e.key != key
    ensures Put(d, key, value) == d + [Entry(key, value)]
  {
    if d != [] {
      PutNew(d[1..], key, value);
      assert d == [d[0]] + d[1..];
    }
  }

  lemma {:induction false} DistinctAsDict(entries: seq<Entry>)
    requires DistinctKeys(entries)
    ensures AsDict(entries) == entries
  {
    if entries != [] {
      var front, last := entries[..|entries| - 1], entries[|entries| - 1];
      DistinctAsDict(front);
      forall e | e in front ensures e.key != last.key {
        var k :| 0 <= k < |front| && front[k] == e;
        assert entries[k].key != entries[|entries| - 1].key;
      }
      PutNew(front, last.key, last.value);
    }
  }

  lemma {:induction false} GetPut(d: seq<Entry>, key: Value, value: Value, k: Value)
    ensures Get(Put(d, key, value), k) == if k == key then Some(value) else Get(d, k)
  {
    if d != [] && d[0].key != key {
      GetPut(d[1..], key, value, k);
    }
  }

  /** The position of the first (last) assignment to `key`, when there is one. */
  function FirstKey(pairs: seq<Entry>, key: Value): (r: Option<nat>)
    ensures r.None? <==> forall e :: e in pairs ==> e.key != key
    ensures r.Some? ==> r.value < |pairs| && pairs[r.value].key == key
    ensures r.Some? ==> forall a :: 0 <= a < r.value ==> pairs[a].key != key
  {
    if pairs == [] then None
    else if pairs[0].key == key then
      assert pairs[0] in pairs;
      Some(0)
    else
      assert forall e :: e in pairs <==> e == pairs[0] || e in pairs[1..];
      match FirstKey(pairs[1..], key)
      case None => None
      case Some(k) => Some(k + 1)
  }

  function LastKey(pairs: seq<Entry>, key: Value): (r: Option<nat>)
    ensures r.None? <==> forall e :: e in pairs ==> e.key != key
    ensures r.Some? ==> r.value < |pairs| && pairs[r.value].key == key
    ensures r.Some? ==> forall a :: r.value < a < |pairs| ==> pairs[a].key != key
  {
    if pairs == [] then None
    else if pairs[|pairs| - 1].key == key then
      assert pairs[|pairs| - 1] in pairs;
      Some(|pairs| - 1)
    else
      assert pairs == pairs[..|pairs| - 1] + [pairs[|pairs| - 1]];
      LastKey(pairs[..|pairs| - 1], key)
  }

  /** In the decoded dictionary the last assignment to a key wins. */
  lemma {:induction false} LastAssignmentWins(pairs: seq<Entry>, key: Value)
    ensures var k := LastKey(pairs, key);
            Get(AsDict(pairs), key) == if k.Some? then Some(pairs[k.value].value) else None
  {
    if pairs != [] {
      var front, last := pairs[..|pairs| - 1], pairs[|pairs| - 1];
      LastAssignmentWins(front, key);
      GetPut(AsDict(front), last.key, last.value, key);
    }
  }
}
