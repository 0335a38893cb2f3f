/** Chunks of data and padding in a byte stream (common/encapsulation/encapsulation.go). Masks and shifts are
    written as the arithmetic they are: `b & 0x3f` is `b % 64`, `n << 7 | x` is `n * 128 + x`, and the
    arithmetic shift `n >> k` is floor division by 2^k. */
module Encapsulation {
  import opened Options
  import opened Bytes
  import opened Sequences

  datatype Error = NoError | Eof | UnexpectedEof | ShortBuffer | TooLong

  /** One length prefix read off the front of a stream. */
  datatype Prefix =
    | AtEnd
    | CutShort
    | Overlong(rest: seq<byte>)
    | Length(isData: bool, n: nat, rest: seq<byte>)

  /** The prefix after its first byte: `more` says another byte follows, of at most `left`. */
  function ParseMore(isData: bool, n: nat, more: bool, left: nat, s: seq<byte>): Prefix
    decreases left, |s|
  {
    if !more then Length(isData, n, s)
    else if left == 0 then Overlong(s)
    else if s == [] then CutShort
    else ParseMore(isData, n * 128 + s[0] % 128, s[0] >= 128, left - 1, s[1..])
  }

  function ParsePrefix(s: seq<byte>): Prefix {
    if s == [] then AtEnd else ParseMore(s[0] >= 128, s[0] % 64, s[0] / 64 % 2 == 1, 2, s[1..])
  }

  lemma ParseMoreRest(isData: bool, n: nat, more: bool, left: nat, s: seq<byte>)
    ensures ParseMore(isData, n, more, left, s).Length? ==> |ParseMore(isData, n, more, left, s).rest| <= |s|
    decreases left
  {
    if more && left > 0 && s != [] {
      ParseMoreRest(isData, n * 128 + s[0] % 128, s[0] >= 128, left - 1, s[1..]);
    }
  }

  datatype ReadResult = ReadResult(data: seq<byte>, error: Error, rest: seq<byte>)

  function Min(a: int, b: int): int {
    if a < b then a else b
  }

  /** The body of a data chunk of `n` bytes, read into a buffer of `room` bytes. */
  function ReadBody(s: seq<byte>, n: nat, room: nat): ReadResult {
    var m := Min(room, n);
    if |s| < m then ReadResult(s, UnexpectedEof, [])
    else if |s| < n then ReadResult(s[..m], UnexpectedEof, [])
    else ReadResult(s[..m], if m < n then ShortBuffer else NoError, s[n..])
  }

  /** ReadData: skip padding chunks, then deliver one data chunk. */
  function Read(s: seq<byte>, room: nat): ReadResult
    decreases |s|
  {
    match ParsePrefix(s)
    case AtEnd => ReadResult([], Eof, [])
    case CutShort => ReadResult([], UnexpectedEof, [])
    case Overlong(rest) => ReadResult([], TooLong, rest)
    case Length(isData, n, rest) =>
      ParseMoreRest(s[0] >= 128, s[0] % 64, s[0] / 64 % 2 == 1, 2, s[1..]);
      if isData then ReadBody(rest, n, room)
      else if |rest| < n then ReadResult([], UnexpectedEof, [])
      else Read(rest[n..], room)
  }

  /** dataPrefixForLength. */
  function DataPrefix(n: int): Option<seq<byte>> {
    if 0 <= n < 64 then Some([128 + n])
    else if 0 <= n / 128 < 64 then Some([192 + n / 128, n % 128])
    else if 0 <= n / 16384 < 64 then Some([192 + n / 16384, 128 + n / 128 % 128, n % 128])
    else None
  }

  const MAX_LENGTH := 0x10_0000

  lemma PrefixLength(n: int)
    ensures DataPrefix(n).Some? <==> 0 <= n < MAX_LENGTH
    ensures 0 <= n < MAX_LENGTH ==> |DataPrefix(n).value| == if n < 64 then 1 else if n < 8192 then 2 else 3
  {
  }

  /** The first byte of a longer prefix: data bit, continuation bit, six bits of length. */
  lemma TopBits(isData: bool, q: nat)
    requires q < 64
    ensures var b := (if isData then 192 else 64) + q; (b >= 128 <==> isData) && b % 64 == q && b / 64 % 2 == 1
  {
  }

  lemma ParseByte(isData: bool, n: nat, left: nat, b: byte, s: seq<byte>)
    requires left > 0
    ensures ParseMore(isData, n, true, left, [b] + s) == ParseMore(isData, n * 128 + b % 128, b >= 128, left - 1, s)
  {
    assert ([b] + s)[1..] == s;
  }

  lemma ParseTwo(isData: bool, q: nat, r: byte, s: seq<byte>)
    requires q < 64 && r < 128
    ensures ParsePrefix([(if isData then 192 else 64) + q, r] + s) == Length(isData, q * 128 + r, s)
  {
    var b: byte := (if isData then 192 else 64) + q;
    TopBits(isData, q);
    assert ([b, r] + s)[1..] == [r] + s;
    ParseByte(isData, q, 2, r, s);
  }

  lemma ParseThree(isData: bool, q: nat, r: byte, t: byte, s: seq<byte>)
    requires q < 64 && r < 128 && t < 128
    ensures ParsePrefix([(if isData then 192 else 64) + q, 128 + r, t] + s) ==
            Length(isData, (q * 128 + r) * 128 + t, s)
  {
    var b: byte := (if isData then 192 else 64) + q;
    TopBits(isData, q);
    assert ([b, 128 + r, t] + s)[1..] == [128 + r] + ([t] + s);
    ParseByte(isData, q, 2, 128 + r, [t] + s);
    ParseByte(isData, q * 128 + r, 1, t, s);
  }

  lemma PrefixDigits(n: nat)
    requires n < MAX_LENGTH
    ensures n < 64 ==> DataPrefix(n) == Some([128 + n])
    ensures 64 <= n < 8192 ==> DataPrefix(n) == Some([192 + n / 128, n % 128])
    ensures 8192 <= n ==> DataPrefix(n) == Some([192 + n / 16384, 128 + n / 128 % 128, n % 128])
  {
  }

  lemma ThreeDigits(n: nat)
    ensures (n / 16384 * 128 + n / 128 % 128) * 128 + n % 128 == n
  {
    assert n / 16384 == n / 128 / 128;
  }

  /** A data prefix is read back as its length, whatever follows. */
  lemma PrefixRoundTrip(n: nat, s: seq<byte>)
    requires n < MAX_LENGTH
    ensures ParsePrefix(DataPrefix(n).value + s) == Length(true, n, s)
  {
    PrefixDigits(n);
    if n < 64 {
      assert ([128 + n] + s)[1..] == s;
    } else if n < 8192 {
      ParseTwo(true, n / 128, n % 128, s);
    } else {
      ParseThree(true, n / 16384, n / 128 % 128, n % 128, s);
      ThreeDigits(n);
    }
  }

  // ---------- Length budgets ----------

  /** How many bytes WriteData emits for `m` bytes of data. */
  function EncodedSize(m: nat): nat
    requires m < MAX_LENGTH
  {
    PrefixLength(m);
    |DataPrefix(m).value| + m
  }

  predicate Fits(m: int, n: int) {
    0 <= m < MAX_LENGTH && EncodedSize(m) <= n
  }

  /** MaxDataForSize, which panics on 0. */
  function MaxDataForSize(n: int): int
    requires n != 0
  {
    match DataPrefix(n)
    case None => MAX_LENGTH - 1 - 3
    case Some(prefix) => n - |prefix|
  }

  /** The advertised size always fits a positive budget, and never a negative one. */
  lemma MaxDataFits(n: int)
    requires n != 0
    ensures Fits(MaxDataForSize(n), n) <==> n > 0
  {
    PrefixLength(n);
    if n > 0 { PrefixLength(MaxDataForSize(n)); }
  }

  /** The longest slice that can be written in `n` bytes. */
  ghost predicate Longest(m: int, n: int) {
    Fits(m, n) && forall k :: Fits(k, n) ==> k <= m
  }

  /** What is shorter fits too. */
  lemma FitsDown(m: int, k: int, n: int)
    requires Fits(m, n) && 0 <= k <= m
    ensures Fits(k, n)
  {
    PrefixLength(m);
    PrefixLength(k);
  }

  /** So the longest is the one whose successor does not fit. */
  lemma LongestIff(m: int, n: int)
    ensures Longest(m, n) <==> Fits(m, n) && !Fits(m + 1, n)
  {
    if Fits(m, n) && !Fits(m + 1, n) {
      forall k | Fits(k, n) ensures k <= m {
        if k > m { FitsDown(k, m + 1, n); }
      }
    }
  }

  /** MaxDataForSize is documented to be the longest slice that fits. It is, exactly for the budgets below
      2^20 other than 64, 8192 and 8193. */
  lemma MaxDataIsLongestIff(n: int)
    requires n > 0
    ensures Longest(MaxDataForSize(n), n) <==> n < MAX_LENGTH && n !in {64, 8192, 8193}
  {
    PrefixLength(n);
    PrefixLength(MaxDataForSize(n));
    PrefixLength(MaxDataForSize(n) + 1);
    LongestIff(MaxDataForSize(n), n);
  }

  /** At the three exceptions it is one byte short. */
  lemma MaxDataOneShort(n: int)
    requires n in {64, 8192, 8193}
    ensures Longest(MaxDataForSize(n) + 1, n)
  {
    PrefixLength(n);
    PrefixLength(MaxDataForSize(n) + 1);
    PrefixLength(MaxDataForSize(n) + 2);
    LongestIff(MaxDataForSize(n) + 1, n);
  }

  // ---------- Padding ----------

  function Zeros(n: nat): (z: seq<byte>)
    ensures |z| == n
  {
    seq(n, _ => 0)
  }

  /** One padding chunk of `p` bytes in all, its prefix included. */
  function PaddingChunk(p: nat): seq<byte>
    requires 1 <= p <= 1024
  {
    if p - 1 < 64 then [p - 1] + Zeros(p - 1)
    else [64 + (p - 2) / 128, (p - 2) % 128] + Zeros(p - 2)
  }

  /** What WritePadding emits for `n`. */
  function PaddingBytes(n: nat): seq<byte> {
    if n == 0 then []
    else var p := Min(1024, n); PaddingChunk(p) + PaddingBytes(n - p)
  }

  lemma PaddingChunkParses(p: nat, s: seq<byte>)
    requires 1 <= p <= 1024
    ensures |PaddingChunk(p)| == p
    ensures var n := if p <= 64 then p - 1 else p - 2;
            ParsePrefix(PaddingChunk(p) + s) == Length(false, n, Zeros(n) + s)
  {
    if p <= 64 {
      assert (PaddingChunk(p) + s)[1..] == Zeros(p - 1) + s;
    } else {
      ParseTwo(false, (p - 2) / 128, (p - 2) % 128, Zeros(p - 2) + s);
      assert [64 + (p - 2) / 128, (p - 2) % 128] + (Zeros(p - 2) + s) == PaddingChunk(p) + s;
    }
  }

  lemma SkipsPaddingChunk(p: nat, s: seq<byte>, room: nat)
    requires 1 <= p <= 1024
    ensures Read(PaddingChunk(p) + s, room) == Read(s, room)
  {
    PaddingChunkParses(p, s);
    var n := if p <= 64 then p - 1 else p - 2;
    assert (Zeros(n) + s)[n..] == s;
  }

  /** WritePadding(n) is exactly n bytes ... */
  lemma {:induction false} PaddingLength(n: nat)
    ensures |PaddingBytes(n)| == n
  {
    if n > 0 {
      PaddingChunkParses(Min(1024, n), []);
      PaddingLength(n - Min(1024, n));
    }
  }

  /** ... and reading skips all of them. */
  lemma {:induction false} PaddingIsSkipped(n: nat, s: seq<byte>, room: nat)
    ensures Read(PaddingBytes(n) + s, room) == Read(s, room)
  {
    if n == 0 {
      assert PaddingBytes(n) + s == s;
    } else {
      var p := Min(1024, n);
      var rest := PaddingBytes(n - p);
      PaddingIsSkipped(n - p, s, room);
      SkipsPaddingChunk(p, rest + s, room);
      Assoc(PaddingChunk(p), rest, s);
    }
  }

  // ---------- Streams ----------

  datatype Op = Data(bytes: seq<byte>) | Padding(n: nat)

  predicate Writable(ops: seq<Op>) {
    forall k :: 0 <= k < |ops| && ops[k].Data? ==> |ops[k].bytes| < MAX_LENGTH
  }

  function DataChunk(d: seq<byte>): (c: seq<byte>)
    requires |d| < MAX_LENGTH
  {
    PrefixLength(|d|);
    DataPrefix(|d|).value + d
  }

  /** The stream a list of WriteData and WritePadding calls produces. */
  function Encode(ops: seq<Op>): seq<byte>
    requires Writable(ops)
  {
    if ops == [] then [] else EncodeOp(ops[0]) + Encode(ops[1..])
  }

  function EncodeOp(op: Op): seq<byte>
    requires op.Data? ==> |op.bytes| < MAX_LENGTH
  {
    match op
    case Data(d) => DataChunk(d)
    case Padding(n) => PaddingBytes(n)
  }

  function Payloads(ops: seq<Op>): seq<seq<byte>> {
    if ops == [] then []
    else (match ops[0] case Data(d) => [d] case Padding(_) => []) + Payloads(ops[1..])
  }

  /** What is left to read once the first data chunk is gone. */
  function AfterData(ops: seq<Op>): seq<Op> {
    if ops == [] then [] else if ops[0].Data? then ops[1..] else AfterData(ops[1..])
  }

  /** The outcome a reader with room for `room` bytes should see on a data chunk. */
  function Delivery(d: seq<byte>, room: nat): (seq<byte>, Error) {
    (d[..Min(room, |d|)], if room < |d| then ShortBuffer else NoError)
  }

  lemma ReadsDataChunk(d: seq<byte>, s: seq<byte>, room: nat)
    requires |d| < MAX_LENGTH
    ensures Read(DataChunk(d) + s, room) == ReadResult(Delivery(d, room).0, Delivery(d, room).1, s)
  {
    PrefixLength(|d|);
    assert DataChunk(d) + s == DataPrefix(|d|).value + (d + s);
    PrefixRoundTrip(|d|, d + s);
    assert (d + s)[|d|..] == s;
    assert (d + s)[..Min(room, |d|)] == d[..Min(room, |d|)];
  }

  lemma {:induction false} AfterDataPayloads(ops: seq<Op>)
    requires Writable(ops)
    ensures Writable(AfterData(ops))
    ensures Payloads(ops) != [] ==> Payloads(AfterData(ops)) == Payloads(ops)[1..]
    decreases |ops|
  {
    if ops != [] && ops[0].Padding? {
      assert Payloads(ops) == Payloads(ops[1..]);
      AfterDataPayloads(ops[1..]);
    }
  }

  /** What one read of a written stream should give: the first data chunk cut to the buffer, the stream left
      exactly at the next chunk; with no data chunk left, whatever the tail gives. */
  function ExpectedRead(ops: seq<Op>, tail: seq<byte>, room: nat): ReadResult
    requires Writable(ops) && Writable(AfterData(ops))
  {
    if Payloads(ops) == [] then Read(tail, room)
    else var (d, e) := Delivery(Payloads(ops)[0], room); ReadResult(d, e, Encode(AfterData(ops)) + tail)
  }

  lemma {:induction false} ReadsNext(ops: seq<Op>, tail: seq<byte>, room: nat)
    requires Writable(ops) && Writable(AfterData(ops))
    ensures Read(Encode(ops) + tail, room) == ExpectedRead(ops, tail, room)
    decreases |ops|
  {
    if ops == [] {
      assert Encode(ops) + tail == tail;
    } else {
      var rest := Encode(ops[1..]) + tail;
      assert Encode(ops) + tail == EncodeOp(ops[0]) + rest by { Assoc(EncodeOp(ops[0]), Encode(ops[1..]), tail); }
      match ops[0]
      case Data(d) =>
        ReadsDataChunk(d, rest, room);
      case Padding(n) =>
        assert Payloads(ops) == Payloads(ops[1..]) && AfterData(ops) == AfterData(ops[1..]);
        PaddingIsSkipped(n, rest, room);
        ReadsNext(ops[1..], tail, room);
    }
  }

  /** The results of repeated reads with the given buffer sizes. */
  function ReadMany(s: seq<byte>, rooms: seq<nat>): seq<(seq<byte>, Error)>
    decreases |rooms|
  {
    if rooms == [] then []
    else var r := Read(s, rooms[0]); [(r.data, r.error)] + ReadMany(r.rest, rooms[1..])
  }

  /** Every sequence of writes, read back with buffers of any sizes: the k-th read is the k-th data chunk, cut
      to its buffer without losing step, and the read after the last chunk sees only the tail. */
  lemma {:induction false} ReadsEverything(ops: seq<Op>, tail: seq<byte>, rooms: seq<nat>, k: nat)
    requires Writable(ops) && k < |rooms| && k <= |Payloads(ops)|
    ensures |ReadMany(Encode(ops) + tail, rooms)| == |rooms|
    ensures ReadMany(Encode(ops) + tail, rooms)[k] ==
            if k < |Payloads(ops)| then Delivery(Payloads(ops)[k], rooms[k])
            else (Read(tail, rooms[k]).data, Read(tail, rooms[k]).error)
    decreases |rooms|
  {
    AfterDataPayloads(ops);
    ReadsNext(ops, tail, rooms[0]);
    ReadManyLength(Encode(ops) + tail, rooms);
    if k > 0 {
      ReadsEverything(AfterData(ops), tail, rooms[1..], k - 1);
    }
  }

  lemma {:induction false} ReadManyLength(s: seq<byte>, rooms: seq<nat>)
    ensures |ReadMany(s, rooms)| == |rooms|
    decreases |rooms|
  {
    if rooms != [] { ReadManyLength(Read(s, rooms[0]).rest, rooms[1..]); }
  }

  /** After the last chunk comes EOF, if the stream ends there ... */
  lemma EndIsEof(room: nat)
    ensures Read([], room) == ReadResult([], Eof, [])
  {
  }

  /** ... and an unexpected EOF if it ends anywhere inside another chunk. */
  lemma CutDataIsUnexpected(d: seq<byte>, k: nat, room: nat)
    requires |d| < MAX_LENGTH && 0 < k < |DataChunk(d)|
    ensures Read(DataChunk(d)[..k], room).error == UnexpectedEof
  {
    PrefixLength(|d|);
    var p := DataPrefix(|d|).value;
    if k < |p| {
      CutPrefix(|d|, k);
      assert DataChunk(d)[..k] == p[..k];
    } else {
      assert DataChunk(d)[..k] == p + d[..k - |p|];
      PrefixRoundTrip(|d|, d[..k - |p|]);
    }
  }

  lemma CutPrefix(n: nat, k: nat)
    requires n < MAX_LENGTH && DataPrefix(n).Some? && 0 < k < |DataPrefix(n).value|
    ensures ParsePrefix(DataPrefix(n).value[..k]) == CutShort
  {
    var p := DataPrefix(n).value;
    PrefixLength(n);
    TopBits(true, if n < 8192 then n / 128 else n / 16384);
    if k == 1 {
      assert p[..1][1..] == [];
    } else {
      assert p[..2][1..] == [p[1]] + [];
      ParseByte(true, n / 16384, 2, p[1], []);
    }
  }

  lemma CutPaddingIsUnexpected(p: nat, k: nat, room: nat)
    requires 1 <= p <= 1024 && 0 < k < p
    ensures |PaddingChunk(p)| == p && Read(PaddingChunk(p)[..k], room).error == UnexpectedEof
  {
    PaddingChunkParses(p, []);
    var cut := PaddingChunk(p)[..k];
    if p <= 64 {
      assert cut[1..] == Zeros(k - 1);
    } else {
      var q := (p - 2) / 128;
      TopBits(false, q);
      if k == 1 {
        assert cut[1..] == [];
      } else {
        assert cut == [64 + q, (p - 2) % 128] + Zeros(k - 2);
        ParseTwo(false, q, (p - 2) % 128, Zeros(k - 2));
      }
    }
  }

  // ---------- The operations ----------

  /** An io.Reader over bytes already available. */
  class Source {
    var bytes: seq<byte>

    constructor (bytes: seq<byte>)
      ensures this.bytes == bytes
    {
      this.bytes := bytes;
    }
  }

  /** The length prefix at the front of the stream. */
  method ReadPrefix(r: Source) returns (p: Prefix)
    modifies r
    ensures p == ParsePrefix(old(r.bytes))
    ensures r.bytes == if p.Length? || p.Overlong? then p.rest else []
    ensures p.Length? ==> |r.bytes| < |old(r.bytes)|
  {
    if r.bytes == [] {
      return AtEnd;
    }
    var b := r.bytes[0];
    r.bytes := r.bytes[1..];
    var isData, moreLength, n: nat := b >= 128, b / 64 % 2 == 1, b % 64;
    var i := 0;
    while moreLength
      invariant 0 <= i <= 2 && |r.bytes| < |old(r.bytes)|
      invariant ParseMore(isData, n, moreLength, 2 - i, r.bytes) == ParsePrefix(old(r.bytes))
      decreases 2 - i
    {
      if i >= 2 {
        return Overlong(r.bytes);
      }
      if r.bytes == [] {
        return CutShort;
      }
      b := r.bytes[0];
      r.bytes := r.bytes[1..];
      moreLength := b >= 128;
      n := n * 128 + b % 128;
      i := i + 1;
    }
    return Length(isData, n, r.bytes);
  }

  /** The data of a chunk of `n` bytes. */
  method ReadChunk(r: Source, n: nat, room: nat) returns (data: seq<byte>, err: Error)
    modifies r
    ensures ReadResult(data, err, r.bytes) == ReadBody(old(r.bytes), n, room)
  {
    var m := if room > n then n else room;
    if |r.bytes| < m {
      data := r.bytes;
      r.bytes := [];
      return data, UnexpectedEof;
    }
    data := r.bytes[..m];
    if m < n {
      if |r.bytes| < n {
        r.bytes := [];
        return data, UnexpectedEof;
      }
      r.bytes := r.bytes[n..];
      return data, ShortBuffer;
    }
    r.bytes := r.bytes[n..];
    return data, NoError;
  }

  /** ReadData into a buffer of `room` bytes; `data` is what ends up in the buffer. */
  method ReadData(r: Source, room: nat) returns (data: seq<byte>, err: Error)
    modifies r
    ensures ReadResult(data, err, r.bytes) == Read(old(r.bytes), room)
  {
    ghost var goal := Read(r.bytes, room);
    while true
      invariant Read(r.bytes, room) == goal
      decreases |r.bytes|
    {
      var p := ReadPrefix(r);
      match p
      case AtEnd => return [], Eof;
      case CutShort => return [], UnexpectedEof;
      case Overlong(_) => return [], TooLong;
      case Length(isData, n, _) =>
        if isData {
          data, err := ReadChunk(r, n, room);
          return;
        }
        if |r.bytes| < n {
          r.bytes := [];
          return [], UnexpectedEof;
        }
        r.bytes := r.bytes[n..];
    }
  }

  /** An io.Writer that never fails. */
  class Sink {
    var out: seq<byte>

    constructor ()
      ensures out == []
    {
      out := [];
    }
  }

  method WriteData(w: Sink, data: seq<byte>) returns (total: nat, err: Error)
    modifies w
    ensures err == if |data| < MAX_LENGTH then NoError else TooLong
    ensures |data| < MAX_LENGTH ==> w.out == old(w.out) + DataChunk(data) && total == EncodedSize(|data|)
    ensures |data| >= MAX_LENGTH ==> w.out == old(w.out) && total == 0
  {
    PrefixLength(|data|);
    var prefix := DataPrefix(|data|);
    if prefix.None? {
      return 0, TooLong;
    }
    w.out := w.out + prefix.value;
    total := |prefix.value|;
    w.out := w.out + data;
    total := total + |data|;
    err := NoError;
  }

  /** One round of WritePadding's loop. */
  method WritePaddingChunk(w: Sink, size: nat) returns (wrote: nat)
    requires 1 <= size <= 1024
    modifies w
    ensures w.out == old(w.out) + PaddingChunk(size) && wrote == size
  {
    var p := size;
    var prefix: seq<byte>;
    if p - 1 < 64 {
      p := p - 1;
      prefix := [p];
    } else {
      p := p - 2;
      prefix := [64 + p / 128, p % 128];
    }
    assert PaddingChunk(size) == prefix + Zeros(p);
    wrote := |prefix| + p;
    w.out := w.out + prefix;
    w.out := w.out + Zeros(p);
    Assoc(old(w.out), prefix, Zeros(p));
  }

  lemma PaddingFirst(before: seq<byte>, n: nat)
    requires n > 0
    ensures before + PaddingBytes(n) == before + PaddingChunk(Min(1024, n)) + PaddingBytes(n - Min(1024, n))
  {
    Assoc(before, PaddingChunk(Min(1024, n)), PaddingBytes(n - Min(1024, n)));
  }

  method WritePadding(w: Sink, n: int) returns (total: nat)
    requires n >= 0
    modifies w
    ensures w.out == old(w.out) + PaddingBytes(n) && total == n
  {
    total := 0;
    var left: nat := n;
    ghost var goal := w.out + PaddingBytes(n);
    while left > 0
      invariant w.out + PaddingBytes(left) == goal
      invariant total + left == n
    {
      var p := 1024;
      if p > left {
        p := left;
      }
      PaddingFirst(w.out, left);
      left := left - p;
      var wrote := WritePaddingChunk(w, p);
      total := total + wrote;
    }
    assert PaddingBytes(0) == [];
  }
}
