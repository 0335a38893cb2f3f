/** The element layer of the AMP armor (common/amp/armor_encoder.go, common/amp/armor_decoder.go). */
module Armor {
  import opened Bytes
  import opened Sequences

  const ELEMENT_SIZE_LIMIT := 32 * 1024
  const BYTES_PER_CHUNK := 32
  const CHUNKS_PER_ELEMENT := (ELEMENT_SIZE_LIMIT - 1) / (BYTES_PER_CHUNK + 1)

  const LT: byte := 60
  const GT: byte := 62
  const NL: seq<byte> := [10]
  const PRE: seq<byte> := [112, 114, 101]
  const OPEN_TAG: seq<byte> := [60, 112, 114, 101, 62, 10]
  const CLOSE_TAG: seq<byte> := [60, 47, 112, 114, 101, 62, 10]

  // ---------- Encoder ----------

  /** The two counters of elementEncoder: bytes in the current chunk, chunks in the current element. */
  datatype Counters = Counters(chunk: nat, element: nat)

  predicate InRange(c: Counters) {
    c.chunk < BYTES_PER_CHUNK && c.element < CHUNKS_PER_ELEMENT
  }

  const START := Counters(0, 0)

  function NextCounters(c: Counters): Counters {
    var filled := c.chunk + 1 >= BYTES_PER_CHUNK;
    var element := if filled then c.element + 1 else c.element;
    Counters(if filled then 0 else c.chunk + 1, if element >= CHUNKS_PER_ELEMENT then 0 else element)
  }

  /** What one byte of payload adds to the output. */
  function ByteOutput(c: Counters, b: byte): seq<byte> {
    var filled := c.chunk + 1 >= BYTES_PER_CHUNK;
    (if c == START then OPEN_TAG else []) + [b] +
    (if filled then NL else []) +
    (if filled && c.element + 1 >= CHUNKS_PER_ELEMENT then CLOSE_TAG else [])
  }

  function Advance(c: Counters, p: seq<byte>): Counters {
    if p == [] then c else NextCounters(Advance(c, p[..|p| - 1]))
  }

  function Output(c: Counters, p: seq<byte>): seq<byte> {
    if p == [] then []
    else var init := p[..|p| - 1]; Output(c, init) + ByteOutput(Advance(c, init), p[|p| - 1])
  }

  /** Close. */
  function Trailer(c: Counters): seq<byte> {
    if c == START then [] else if c.chunk == 0 then CLOSE_TAG else NL + CLOSE_TAG
  }

  lemma {:induction false} StaysInRange(c: Counters, p: seq<byte>)
    requires InRange(c)
    ensures InRange(Advance(c, p))
  {
    if p != [] { StaysInRange(c, p[..|p| - 1]); }
  }

  /** Any split of the payload into Write calls gives the same output and the same counters. */
  lemma {:induction false} SplitWrites(c: Counters, a: seq<byte>, b: seq<byte>)
    ensures Advance(c, a + b) == Advance(Advance(c, a), b)
    ensures Output(c, a + b) == Output(c, a) + Output(Advance(c, a), b)
  {
    if b == [] {
      assert a + b == a;
    } else {
      var init := b[..|b| - 1];
      SplitWrites(c, a, init);
      assert (a + b)[..|a + b| - 1] == a + init;
      Assoc(Output(c, a), Output(Advance(c, a), init), ByteOutput(Advance(Advance(c, a), init), b[|b| - 1]));
    }
  }

  /** Write's output so far and one more run of it. */
  lemma OneMoreRun(start: Counters, p: seq<byte>, i: nat, k: nat, before: seq<byte>)
    requires i + k <= |p|
    ensures Advance(start, p[..i + k]) == Advance(Advance(start, p[..i]), p[i..i + k])
    ensures before + Output(start, p[..i + k]) ==
            before + Output(start, p[..i]) + Output(Advance(start, p[..i]), p[i..i + k])
  {
    SplitWrites(start, p[..i], p[i..i + k]);
    assert p[..i] + p[i..i + k] == p[..i + k];
    Assoc(before, Output(start, p[..i]), Output(Advance(start, p[..i]), p[i..i + k]));
  }

  class ElementEncoder {
    var out: seq<byte>
    var chunkCounter: nat
    var elementCounter: nat

    ghost function Position(): Counters
      reads this
    {
      Counters(chunkCounter, elementCounter)
    }

    constructor ()
      ensures out == [] && Position() == START
    {
      out, chunkCounter, elementCounter := [], 0, 0;
    }

    /** Write. The returned count includes the newlines and closing tags, so it is len(p) exactly when the
        call completes no chunk. */
    method Write(p: seq<byte>) returns (n: nat)
      requires InRange(Position())
      modifies this
      ensures InRange(Position()) && Position() == Advance(old(Position()), p)
      ensures out == old(out) + Output(old(Position()), p)
      ensures |p| <= n && (n == |p| <==> old(chunkCounter) + |p| < BYTES_PER_CHUNK)
    {
      ghost var start := Position();
      n := 0;
      var i := 0;
      while i < |p|
        invariant 0 <= i <= |p| && InRange(Position())
        invariant Position() == Advance(start, p[..i]) && out == old(out) + Output(start, p[..i])
        invariant if start.chunk + i < BYTES_PER_CHUNK then n == i && chunkCounter == start.chunk + i else n > i
      {
        var k := BYTES_PER_CHUNK - chunkCounter;
        if k > |p| - i {
          k := |p| - i;
        }
        OneMoreRun(start, p, i, k, old(out));
        var wrote := WriteRun(p[i..i + k]);
        n := n + wrote;
        i := i + k;
      }
      assert p[..i] == p;
    }

    /** One round of Write's loop: bytes that stay within the current chunk, or just fill it. */
    method WriteRun(run: seq<byte>) returns (n: nat)
      requires InRange(Position()) && 0 < |run| <= BYTES_PER_CHUNK - chunkCounter
      modifies this
      ensures InRange(Position()) && Position() == Advance(old(Position()), run)
      ensures out == old(out) + Output(old(Position()), run)
      ensures n == |run| + (if chunkCounter == 0 then 1 else 0) + (if Position() == START then |CLOSE_TAG| else 0)
      ensures chunkCounter == 0 || chunkCounter == old(chunkCounter) + |run|
      ensures chunkCounter == 0 <==> old(chunkCounter) + |run| == BYTES_PER_CHUNK
    {
      RunOutput(Position(), run);
      ghost var (nl, close) := Closing(Position(), chunkCounter + |run|);
      Regroup5(out, Opening(Position()), run, nl, close);
      if elementCounter == 0 && chunkCounter == 0 {
        out := out + OPEN_TAG;
      }
      assert out == old(out) + Opening(old(Position()));
      out := out + run;
      n := |run|;
      chunkCounter := chunkCounter + |run|;
      if chunkCounter >= BYTES_PER_CHUNK {
        chunkCounter := 0;
        elementCounter := elementCounter + 1;
        out := out + NL;
        n := n + 1;
      }
      assert out == old(out) + Opening(old(Position())) + run + nl;
      if elementCounter >= CHUNKS_PER_ELEMENT {
        elementCounter := 0;
        out := out + CLOSE_TAG;
        n := n + |CLOSE_TAG|;
      }
      assert out == old(out) + Opening(old(Position())) + run + nl + close;
    }

    method Close()
      modifies this`out
      ensures out == old(out) + Trailer(Position())
    {
      if elementCounter != 0 || chunkCounter != 0 {
        if chunkCounter == 0 {
          out := out + CLOSE_TAG;
        } else {
          out := out + NL + CLOSE_TAG;
        }
      }
    }
  }

  function Opening(c: Counters): seq<byte> {
    if c == START then OPEN_TAG else []
  }

  /** What follows a run that brings the chunk to `size` bytes. */
  function Closing(c: Counters, size: nat): (seq<byte>, seq<byte>) {
    var filled := size >= BYTES_PER_CHUNK;
    (if filled then NL else [], if filled && c.element + 1 >= CHUNKS_PER_ELEMENT then CLOSE_TAG else [])
  }

  /** A run that does not fill the current chunk, byte by byte and all at once. */
  lemma {:induction false} PartialRun(c: Counters, run: seq<byte>)
    requires InRange(c) && 0 < |run| < BYTES_PER_CHUNK - c.chunk
    ensures Advance(c, run) == Counters(c.chunk + |run|, c.element) && Output(c, run) == Opening(c) + run
  {
    var init, x := run[..|run| - 1], run[|run| - 1];
    assert run == init + [x];
    if init == [] {
      assert Output(c, run) == [] + ByteOutput(c, x);
    } else {
      PartialRun(c, init);
      assert ByteOutput(Counters(c.chunk + |init|, c.element), x) == [x];
      Assoc(Opening(c), init, [x]);
    }
  }

  lemma LastOfRun(c: Counters, x: byte)
    requires InRange(c)
    ensures var (nl, close) := Closing(c, c.chunk + 1); ByteOutput(c, x) == Opening(c) + [x] + nl + close
  {
  }

  lemma RunAdvance(c: Counters, run: seq<byte>)
    requires InRange(c) && 0 < |run| <= BYTES_PER_CHUNK - c.chunk
    ensures var filled := c.chunk + |run| == BYTES_PER_CHUNK;
            var ended := filled && c.element + 1 == CHUNKS_PER_ELEMENT;
            Advance(c, run) == Counters(if filled then 0 else c.chunk + |run|,
                                        if ended then 0 else if filled then c.element + 1 else c.element)
  {
    var init := run[..|run| - 1];
    if init == [] {
      assert Advance(c, init) == c;
    } else {
      PartialRun(c, init);
    }
  }

  /** A run that at most fills the current chunk. */
  lemma RunOutput(c: Counters, run: seq<byte>)
    requires InRange(c) && 0 < |run| <= BYTES_PER_CHUNK - c.chunk
    ensures var filled := c.chunk + |run| == BYTES_PER_CHUNK;
            var ended := filled && c.element + 1 == CHUNKS_PER_ELEMENT;
            && Advance(c, run) == Counters(if filled then 0 else c.chunk + |run|,
                                           if ended then 0 else if filled then c.element + 1 else c.element)
            && Output(c, run) ==
               Opening(c) + run + Closing(c, c.chunk + |run|).0 + Closing(c, c.chunk + |run|).1
  {
    RunAdvance(c, run);
    var init, x := run[..|run| - 1], run[|run| - 1];
    var (nl, close) := Closing(c, c.chunk + |run|);
    assert run == init + [x];
    if init == [] {
      LastOfRun(c, x);
      assert Output(c, run) == [] + ByteOutput(c, x) && run == [x];
      EmptyLeft(ByteOutput(c, x));
    } else {
      PartialRun(c, init);
      var at := Counters(c.chunk + |init|, c.element);
      LastOfRun(at, x);
      assert Output(c, run) == Opening(c) + init + ([] + [x] + nl + close);
      Weave(Opening(c), init, [x], nl, close);
    }
  }

  // ---------- Decoder ----------

  predicate IsSpace(b: byte) {
    b in {9, 10, 12, 13, 32}
  }

  /** The text with its ASCII whitespace taken out. */
  function Strip(s: seq<byte>): seq<byte> {
    if s == [] then []
    else Strip(s[..|s| - 1]) + if IsSpace(s[|s| - 1]) then [] else [s[|s| - 1]]
  }

  lemma {:induction false} StripAppend(a: seq<byte>, b: seq<byte>)
    ensures Strip(a + b) == Strip(a) + Strip(b)
  {
    if b == [] {
      assert a + b == a;
    } else {
      StripAppend(a, b[..|b| - 1]);
      assert (a + b)[..|a + b| - 1] == a + b[..|b| - 1];
    }
  }

  lemma {:induction false} StripSpaces(s: seq<byte>)
    requires forall k :: 0 <= k < |s| ==> IsSpace(s[k])
    ensures Strip(s) == []
  {
    if s != [] { StripSpaces(s[..|s| - 1]); }
  }

  lemma {:induction false} StripWord(s: seq<byte>)
    requires forall k :: 0 <= k < |s| ==> !IsSpace(s[k])
    ensures Strip(s) == s
  {
    if s != [] { StripWord(s[..|s| - 1]); }
  }

  datatype Split = Split(advance: nat, token: seq<byte>, found: bool)

  lemma WordThenSpace(data: seq<byte>, i: nat, j: nat)
    requires i <= j < |data| && IsSpace(data[j])
    requires forall k :: 0 <= k < i ==> IsSpace(data[k])
    requires forall k :: i <= k < j ==> !IsSpace(data[k])
    ensures Strip(data[..j + 1]) == data[i..j]
  {
    assert data[..j + 1][..j] == data[..j];
    assert data[..i] + data[i..j] == data[..j];
    StripAppend(data[..i], data[i..j]);
    StripSpaces(data[..i]);
    StripWord(data[i..j]);
  }

  lemma WordAtEnd(data: seq<byte>, i: nat, j: nat)
    requires i <= j <= |data|
    requires forall k :: 0 <= k < i ==> IsSpace(data[k])
    requires forall k :: i <= k < j ==> !IsSpace(data[k])
    ensures Strip(data[..j]) == data[i..j]
  {
    assert data[..i] + data[i..j] == data[..j];
    StripAppend(data[..i], data[i..j]);
    StripSpaces(data[..i]);
    StripWord(data[i..j]);
  }

  /** Where the leading whitespace ends. */
  method SkipSpaces(data: seq<byte>) returns (i: nat)
    ensures i <= |data| && (i < |data| ==> !IsSpace(data[i])) && forall k :: 0 <= k < i ==> IsSpace(data[k])
  {
    i := 0;
    while i < |data| && IsSpace(data[i])
      invariant 0 <= i <= |data|
      invariant forall k :: 0 <= k < i ==> IsSpace(data[k])
    {
      i := i + 1;
    }
  }

  /** Where the word that starts at `i` ends. */
  method SkipWord(data: seq<byte>, i: nat) returns (j: nat)
    requires i <= |data|
    ensures i <= j <= |data| && (j < |data| ==> IsSpace(data[j])) && forall k :: i <= k < j ==> !IsSpace(data[k])
  {
    j := i;
    while j < |data| && !IsSpace(data[j])
      invariant i <= j <= |data|
      invariant forall k :: i <= k < j ==> !IsSpace(data[k])
    {
      j := j + 1;
    }
  }

  /** splitASCIIWhitespace: what is advanced over, stripped, is the token; without a token only whitespace
      is advanced over, and at the end of the input that is all there was. */
  method SplitASCIIWhitespace(data: seq<byte>, atEOF: bool) returns (r: Split)
    ensures r.advance <= |data| && Strip(data[..r.advance]) == r.token
    ensures r.found <==> r.token != []
    ensures forall k :: 0 <= k < |r.token| ==> !IsSpace(r.token[k])
    ensures r.found ==> r.advance > 0
    ensures !r.found && atEOF ==> r.advance == |data|
  {
    var i := SkipSpaces(data);
    var j := SkipWord(data, i);
    if j < |data| {
      WordThenSpace(data, i, j);
      return Split(j + 1, data[i..j], true);
    }
    if atEOF && i < j {
      WordAtEnd(data, i, j);
      return Split(j, data[i..j], true);
    }
    StripSpaces(data[..i]);
    return Split(i, [], false);
  }

  /** The Scanner loop over one text token, however its reads happen to be cut: the words are joined. */
  method JoinWords(text: seq<byte>) returns (out: seq<byte>)
    ensures out == Strip(text)
  {
    out := [];
    var start, end, atEOF := 0, 0, false;
    while true
      invariant 0 <= start <= end <= |text| && (atEOF ==> end == |text|)
      invariant out == Strip(text[..start])
      decreases |text| - start, |text| - end, !atEOF
    {
      var r := SplitASCIIWhitespace(text[start..end], atEOF);
      StripAppend(text[..start], text[start..end][..r.advance]);
      assert text[start..end][..r.advance] == text[start..start + r.advance];
      assert text[..start] + text[start..start + r.advance] == text[..start + r.advance];
      out := out + r.token;
      start := start + r.advance;
      if !r.found {
        if atEOF {
          assert text[..start] == text;
          return;
        }
        if end < |text| {
          var more :| 0 < more <= |text| - end;
          end := end + more;
        } else {
          atEOF := true;
        }
      }
    }
  }
}
