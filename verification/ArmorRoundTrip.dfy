/** Decoding what was armored: tokenizer, token loop, and the round trip over any payload. */
module ArmorRoundTrip {
  import opened Bytes
  import opened Sequences
  import opened Armor

  /** The tokens of a document whose tags carry no attributes. */
  datatype Token = StartTag(name: seq<byte>) | EndTag(name: seq<byte>) | Text(text: seq<byte>)

  /** Index of the first byte equal to `b`, or the length. */
  function Find(s: seq<byte>, b: byte): (k: nat)
    ensures k <= |s| && (k < |s| ==> s[k] == b)
    ensures forall i :: 0 <= i < k ==> s[i] != b
  {
    if s == [] || s[0] == b then 0 else 1 + Find(s[1..], b)
  }

  function TagToken(inner: seq<byte>): Token {
    if inner != [] && inner[0] == 47 then EndTag(inner[1..]) else StartTag(inner)
  }

  function Tokenize(s: seq<byte>): seq<Token>
    decreases |s|
  {
    if s == [] then []
    else if s[0] == LT then
      var j := Find(s, GT);
      if j == |s| then [] else [TagToken(s[1..j])] + Tokenize(s[j + 1..])
    else
      var k := Find(s, LT);
      [Text(s[..k])] + Tokenize(s[k..])
  }

  datatype Error = NoError | MissingEndTag | UnexpectedTag

  datatype TagEffect = Becomes(active: bool) | Rejected

  /** A pre tag opens or closes; nesting and stray ends are refused. Other tags change nothing. */
  function OnTag(tag: Token, active: bool): TagEffect {
    match tag
    case Text(_) => Becomes(active)
    case StartTag(name) => if name != PRE then Becomes(active) else if active then Rejected else Becomes(true)
    case EndTag(name) => if name != PRE then Becomes(active) else if active then Becomes(false) else Rejected
  }

  /** What the token loop of decodeToWriter writes and how it ends. */
  function Decode(tokens: seq<Token>, active: bool): (seq<byte>, Error)
    decreases |tokens|
  {
    if tokens == [] then ([], if active then MissingEndTag else NoError)
    else if tokens[0].Text? then
      var (out, e) := Decode(tokens[1..], active);
      (if active then Strip(tokens[0].text) + out else out, e)
    else match OnTag(tokens[0], active)
      case Rejected => ([], UnexpectedTag)
      case Becomes(now) => Decode(tokens[1..], now)
  }

  method DecodeToWriter(tokens: seq<Token>) returns (out: seq<byte>, total: nat, err: Error)
    ensures (out, err) == Decode(tokens, false) && total == |out|
  {
    out, total := [], 0;
    var active := false;
    assert tokens[0..] == tokens && [] + Decode(tokens, false).0 == Decode(tokens, false).0;
    for i := 0 to |tokens|
      invariant total == |out|
      invariant Decode(tokens, false) == (out + Decode(tokens[i..], active).0, Decode(tokens[i..], active).1)
    {
      assert tokens[i..][1..] == tokens[i + 1..];
      match tokens[i]
      case Text(t) =>
        if active {
          var words := JoinWords(t);
          Assoc(out, words, Decode(tokens[i + 1..], active).0);
          out := out + words;
          total := total + |words|;
        }
      case StartTag(name) =>
        if name == PRE {
          if active {
            EmptyLeft(out);
            return out, total, UnexpectedTag;
          }
          active := true;
        }
      case EndTag(name) =>
        if name == PRE {
          if !active {
            EmptyLeft(out);
            return out, total, UnexpectedTag;
          }
          active := false;
        }
    }
    EmptyLeft(out);
    assert tokens[|tokens|..] == [];
    err := if active then MissingEndTag else NoError;
  }

  /** The same decoder one byte at a time: text bytes count one by one. */
  function DecodeBytes(s: seq<byte>, active: bool): (seq<byte>, Error)
    decreases |s|
  {
    if s == [] then ([], if active then MissingEndTag else NoError)
    else if s[0] == LT then
      var j := Find(s, GT);
      if j == |s| then ([], if active then MissingEndTag else NoError)
      else match OnTag(TagToken(s[1..j]), active)
        case Rejected => ([], UnexpectedTag)
        case Becomes(now) => DecodeBytes(s[j + 1..], now)
    else
      var (out, e) := DecodeBytes(s[1..], active);
      (if active then Strip([s[0]]) + out else out, e)
  }

  lemma {:induction false} TextRun(t: seq<byte>, s: seq<byte>, active: bool)
    requires forall k :: 0 <= k < |t| ==> t[k] != LT
    ensures DecodeBytes(t + s, active) ==
            (if active then Strip(t) + DecodeBytes(s, active).0 else DecodeBytes(s, active).0, DecodeBytes(s, active).1)
    decreases |t|
  {
    if t == [] {
      EmptyLeft(s);
      EmptyLeft(DecodeBytes(s, active).0);
    } else {
      var rest := t[1..];
      assert (t + s)[1..] == rest + s;
      TextRun(rest, s, active);
      assert t == [t[0]] + rest;
      StripAppend([t[0]], rest);
      Assoc(Strip([t[0]]), Strip(rest), DecodeBytes(s, active).0);
    }
  }

  lemma TokenizeOnce(s: seq<byte>, j: nat)
    requires s != [] && s[0] == LT && j == Find(s, GT) < |s|
    ensures Tokenize(s) == [TagToken(s[1..j])] + Tokenize(s[j + 1..])
  {
  }

  lemma TokenizeTag(s: seq<byte>)
    requires s != [] && s[0] == LT && Find(s, GT) < |s|
    ensures Tokenize(s) != [] && Tokenize(s)[0] == TagToken(s[1..Find(s, GT)])
    ensures Tokenize(s)[1..] == Tokenize(s[Find(s, GT) + 1..])
  {
    var j := Find(s, GT);
    TokenizeOnce(s, j);
    ConsTail(TagToken(s[1..j]), Tokenize(s[j + 1..]));
  }

  lemma TokenizeText(s: seq<byte>)
    requires s != [] && s[0] != LT
    ensures Tokenize(s) != [] && Tokenize(s)[0] == Text(s[..Find(s, LT)])
    ensures Tokenize(s)[1..] == Tokenize(s[Find(s, LT)..])
  {
    var k := Find(s, LT);
    ConsTail(Text(s[..k]), Tokenize(s[k..]));
  }

  lemma AgreesOnText(s: seq<byte>, active: bool)
    requires s != [] && s[0] != LT
    requires var rest := s[Find(s, LT)..]; Decode(Tokenize(rest), active) == DecodeBytes(rest, active)
    ensures Decode(Tokenize(s), active) == DecodeBytes(s, active)
  {
    var k := Find(s, LT);
    var (out, e) := DecodeBytes(s[k..], active);
    var expected := (if active then Strip(s[..k]) + out else out, e);
    assert DecodeBytes(s, active) == expected by {
      assert s[..k] + s[k..] == s;
      TextRun(s[..k], s[k..], active);
    }
    assert Decode(Tokenize(s), active) == expected by { TokenizeText(s); }
  }

  lemma AgreesOnTag(s: seq<byte>, active: bool)
    requires s != [] && s[0] == LT && Find(s, GT) < |s|
    requires var rest := s[Find(s, GT) + 1..];
             forall a :: Decode(Tokenize(rest), a) == DecodeBytes(rest, a)
    ensures Decode(Tokenize(s), active) == DecodeBytes(s, active)
  {
    TokenizeTag(s);
    assert !TagToken(s[1..Find(s, GT)]).Text?;
  }

  /** Decoding by tokens and by bytes agree on every input. */
  lemma {:induction false} DecodeAgrees(s: seq<byte>, active: bool)
    ensures Decode(Tokenize(s), active) == DecodeBytes(s, active)
    decreases |s|
  {
    if s != [] && s[0] != LT {
      DecodeAgrees(s[Find(s, LT)..], active);
      AgreesOnText(s, active);
    } else if s != [] && Find(s, GT) < |s| {
      var rest := s[Find(s, GT) + 1..];
      forall a ensures Decode(Tokenize(rest), a) == DecodeBytes(rest, a) { DecodeAgrees(rest, a); }
      AgreesOnTag(s, active);
    }
  }

  /** Payload bytes that mean nothing in HTML and are not whitespace. */
  predicate Plain(p: seq<byte>) {
    forall k :: 0 <= k < |p| ==> !IsSpace(p[k]) && p[k] != LT && p[k] != GT && p[k] != 38
  }

  /** The armored payload: everything written, then Close. */
  function Document(p: seq<byte>): seq<byte> {
    Output(START, p) + Trailer(Advance(START, p))
  }

  lemma OpensPre(s: seq<byte>)
    ensures DecodeBytes(OPEN_TAG + s, false) == DecodeBytes(s, true)
  {
    var d := OPEN_TAG + s;
    FindAt(d, GT, 4);
    assert d[1..4] == PRE;
    assert d[5..] == NL + s;
    NewlineSkipped(s, true);
  }

  lemma ClosesPre(s: seq<byte>)
    ensures DecodeBytes(CLOSE_TAG + s, true) == DecodeBytes(s, false)
  {
    var d := CLOSE_TAG + s;
    FindAt(d, GT, 5);
    assert d[1..5] == [47] + PRE;
    assert d[1..5][1..] == PRE;
    assert d[6..] == NL + s;
    NewlineSkipped(s, false);
  }

  lemma {:induction false} FindAt(s: seq<byte>, b: byte, k: nat)
    requires k < |s| && s[k] == b && forall i :: 0 <= i < k ==> s[i] != b
    ensures Find(s, b) == k
  {
    if k > 0 { FindAt(s[1..], b, k - 1); }
  }

  lemma NewlineSkipped(s: seq<byte>, active: bool)
    ensures DecodeBytes(NL + s, active) == DecodeBytes(s, active)
  {
    TextRun(NL, s, active);
    StripSpaces(NL);
    assert [] + DecodeBytes(s, active).0 == DecodeBytes(s, active).0;
  }

  predicate Active(c: Counters) {
    c != START
  }

  lemma PlainByte(b: byte, s: seq<byte>)
    requires !IsSpace(b) && b != LT
    ensures DecodeBytes([b] + s, true) == ([b] + DecodeBytes(s, true).0, DecodeBytes(s, true).1)
  {
    TextRun([b], s, true);
    StripWord([b]);
  }

  /** One payload byte with its markup decodes to that byte. */
  lemma ByteDecodes(c: Counters, b: byte, s: seq<byte>)
    requires InRange(c) && !IsSpace(b) && b != LT
    ensures var (out, e) := DecodeBytes(s, Active(NextCounters(c)));
            DecodeBytes(ByteOutput(c, b) + s, Active(c)) == ([b] + out, e)
  {
    var (nl, close) := Closing(c, c.chunk + 1);
    var s1 := close + s;
    var s2 := nl + s1;
    Nest(Opening(c), [b], nl, close, s);
    assert ByteOutput(c, b) == Opening(c) + [b] + nl + close;
    if close == [] { EmptyLeft(s); } else { ClosesPre(s); }
    assert DecodeBytes(s1, true) == DecodeBytes(s, Active(NextCounters(c)));
    if nl == [] { EmptyLeft(s1); } else { NewlineSkipped(s1, true); }
    PlainByte(b, s2);
    if c == START { OpensPre([b] + s2); } else { EmptyLeft([b] + s2); }
  }

  lemma TrailerDecodes(c: Counters)
    ensures DecodeBytes(Trailer(c), Active(c)) == ([], NoError)
  {
    if c != START {
      ClosesPre([]);
      EmptyLeft(CLOSE_TAG);
      if c.chunk != 0 { NewlineSkipped(CLOSE_TAG, true); }
    }
  }

  /** The rest of a document from its first payload byte on. */
  lemma FirstByte(c: Counters, p: seq<byte>)
    requires p != []
    ensures Output(c, p) + Trailer(Advance(c, p)) ==
            ByteOutput(c, p[0]) + (Output(NextCounters(c), p[1..]) + Trailer(Advance(NextCounters(c), p[1..])))
  {
    var first, rest := [p[0]], p[1..];
    var c' := NextCounters(c);
    assert p == first + rest && first[..0] == [];
    SplitWrites(c, first, rest);
    EmptyLeft(ByteOutput(c, p[0]));
    assert Output(c, first) == ByteOutput(c, p[0]) && Advance(c, first) == c';
    Assoc(ByteOutput(c, p[0]), Output(c', rest), Trailer(Advance(c', rest)));
  }

  lemma {:induction false} DecodesFrom(c: Counters, p: seq<byte>)
    requires InRange(c) && Plain(p)
    ensures DecodeBytes(Output(c, p) + Trailer(Advance(c, p)), Active(c)) == (p, NoError)
    decreases |p|
  {
    if p == [] {
      TrailerDecodes(c);
      EmptyLeft(Trailer(c));
    } else {
      var c' := NextCounters(c);
      DecodesFrom(c', p[1..]);
      FirstByte(c, p);
      assert p == [p[0]] + p[1..];
      ByteDecodes(c, p[0], Output(c', p[1..]) + Trailer(Advance(c', p[1..])));
    }
  }

  /** For every payload free of whitespace and markup bytes, the decoder recovers it from the armored
      document; in particular every pre element is closed and none is nested. */
  lemma RoundTrip(p: seq<byte>)
    requires Plain(p)
    ensures Decode(Tokenize(Document(p)), false) == (p, NoError)
  {
    DecodeAgrees(Document(p), false);
    DecodesFrom(START, p);
  }

  // ---------- Element sizes ----------

  const MAX_TEXT := 1 + (BYTES_PER_CHUNK + 1) * CHUNKS_PER_ELEMENT

  /** No text between tags is longer than `limit`, `run` bytes of text having been seen already. */
  predicate ShortTexts(s: seq<byte>, run: nat, limit: nat)
    decreases |s|
  {
    if s == [] then run <= limit
    else if s[0] == LT then
      run <= limit && (Find(s, GT) == |s| || ShortTexts(s[Find(s, GT) + 1..], 0, limit))
    else ShortTexts(s[1..], run + 1, limit)
  }

  lemma {:induction false} ShortRun(t: seq<byte>, s: seq<byte>, run: nat, limit: nat)
    requires forall k :: 0 <= k < |t| ==> t[k] != LT
    ensures ShortTexts(t + s, run, limit) <==> ShortTexts(s, run + |t|, limit)
    decreases |t|
  {
    if t == [] {
      EmptyLeft(s);
    } else {
      assert (t + s)[1..] == t[1..] + s;
      ShortRun(t[1..], s, run + 1, limit);
    }
  }

  lemma ShortBoundsRun(s: seq<byte>, run: nat, limit: nat)
    requires ShortTexts(s, run, limit) && (s == [] || s[0] == LT)
    ensures run <= limit && ShortTexts(s, 0, limit)
  {
  }

  lemma ShortFirstText(s: seq<byte>, limit: nat)
    requires s != [] && s[0] != LT && ShortTexts(s, 0, limit)
    ensures Find(s, LT) <= limit && ShortTexts(s[Find(s, LT)..], 0, limit)
  {
    var k := Find(s, LT);
    assert s[..k] + s[k..] == s;
    ShortRun(s[..k], s[k..], 0, limit);
    ShortBoundsRun(s[k..], k, limit);
  }

  /** The predicate speaks about the tokenizer's own text tokens. */
  lemma {:induction false} ShortTokens(s: seq<byte>, limit: nat, i: nat)
    requires ShortTexts(s, 0, limit) && i < |Tokenize(s)| && Tokenize(s)[i].Text?
    ensures |Tokenize(s)[i].text| <= limit
    decreases |s|
  {
    var tail := Tokenize(s)[1..];
    if s[0] == LT {
      TokenizeTag(s);
      assert i > 0 && Tokenize(s)[i] == tail[i - 1];
      ShortTokens(s[Find(s, GT) + 1..], limit, i - 1);
    } else {
      TokenizeText(s);
      ShortFirstText(s, limit);
      if i > 0 {
        assert Tokenize(s)[i] == tail[i - 1];
        ShortTokens(s[Find(s, LT)..], limit, i - 1);
      }
    }
  }

  /** Text bytes since the last tag. After a closed element that is the newline behind its end tag. */
  predicate RunAt(c: Counters, run: nat) {
    if c == START then run <= 1 else run == 1 + (BYTES_PER_CHUNK + 1) * c.element + c.chunk
  }

  lemma ShortOpen(s: seq<byte>, run: nat, limit: nat)
    requires run <= limit
    ensures ShortTexts(OPEN_TAG + s, run, limit) <==> ShortTexts(s, 1, limit)
  {
    var d := OPEN_TAG + s;
    FindAt(d, GT, 4);
    assert d[5..] == NL + s;
    ShortRun(NL, s, 0, limit);
  }

  lemma ShortClose(s: seq<byte>, run: nat, limit: nat)
    requires run <= limit
    ensures ShortTexts(CLOSE_TAG + s, run, limit) <==> ShortTexts(s, 1, limit)
  {
    var d := CLOSE_TAG + s;
    FindAt(d, GT, 5);
    assert d[6..] == NL + s;
    ShortRun(NL, s, 0, limit);
  }

  /** The text run once byte and newline are out, and after a possible end tag. */
  function BeforeClose(c: Counters, run: nat): nat {
    (if c == START then 1 else run) + 1 + if c.chunk + 1 >= BYTES_PER_CHUNK then 1 else 0
  }

  function AfterByte(c: Counters, run: nat): nat {
    if c.chunk + 1 >= BYTES_PER_CHUNK && c.element + 1 >= CHUNKS_PER_ELEMENT then 1 else BeforeClose(c, run)
  }

  lemma RunAfterByte(c: Counters, run: nat)
    requires InRange(c) && RunAt(c, run)
    ensures BeforeClose(c, run) <= MAX_TEXT && RunAt(NextCounters(c), AfterByte(c, run))
  {
  }

  lemma OpeningShort(c: Counters, s: seq<byte>, run: nat, limit: nat)
    requires run <= limit
    ensures ShortTexts(Opening(c) + s, run, limit) <==> ShortTexts(s, if c == START then 1 else run, limit)
  {
    if c == START { ShortOpen(s, run, limit); } else { EmptyLeft(s); }
  }

  lemma ClosingShort(c: Counters, size: nat, s: seq<byte>, run: nat, limit: nat)
    requires run + |Closing(c, size).0| <= limit
    ensures ShortTexts(Closing(c, size).0 + (Closing(c, size).1 + s), run, limit) <==>
            ShortTexts(s, if Closing(c, size).1 == [] then run + |Closing(c, size).0| else 1, limit)
  {
    var (nl, close) := Closing(c, size);
    ShortRun(nl, close + s, run, limit);
    if close == [] { EmptyLeft(s); } else { ShortClose(s, run + |nl|, limit); }
  }

  lemma ByteShort(c: Counters, b: byte, s: seq<byte>, run: nat, limit: nat)
    requires b != LT && run <= limit && BeforeClose(c, run) <= limit
    ensures ShortTexts(ByteOutput(c, b) + s, run, limit) <==> ShortTexts(s, AfterByte(c, run), limit)
  {
    var (nl, close) := Closing(c, c.chunk + 1);
    var inside := if c == START then 1 else run;
    assert ByteOutput(c, b) == Opening(c) + [b] + nl + close;
    Nest(Opening(c), [b], nl, close, s);
    OpeningShort(c, [b] + (nl + (close + s)), run, limit);
    ShortRun([b], nl + (close + s), inside, limit);
    ClosingShort(c, c.chunk + 1, s, inside + 1, limit);
  }

  lemma LastCloseShort(run: nat, limit: nat)
    requires 1 <= run <= limit
    ensures ShortTexts(CLOSE_TAG, run, limit)
  {
    EmptyLeft(CLOSE_TAG);
    ShortClose([], run, limit);
  }

  lemma EndsShort(c: Counters, run: nat, limit: nat)
    requires 1 <= run < limit
    ensures ShortTexts(Trailer(c), run, limit)
  {
    if c != START {
      if c.chunk != 0 {
        LastCloseShort(run + 1, limit);
        ShortRun(NL, CLOSE_TAG, run, limit);
      } else {
        LastCloseShort(run, limit);
      }
    }
  }

  lemma TrailerShort(c: Counters, run: nat)
    requires InRange(c) && RunAt(c, run)
    ensures ShortTexts(Trailer(c), run, MAX_TEXT)
  {
    if c != START { EndsShort(c, run, MAX_TEXT); }
  }

  lemma {:induction false} OutputShort(c: Counters, p: seq<byte>, run: nat)
    requires InRange(c) && Plain(p) && RunAt(c, run)
    ensures ShortTexts(Output(c, p) + Trailer(Advance(c, p)), run, MAX_TEXT)
    decreases |p|
  {
    if p == [] {
      EmptyLeft(Trailer(c));
      TrailerShort(c, run);
    } else {
      var c' := NextCounters(c);
      RunAfterByte(c, run);
      OutputShort(c', p[1..], AfterByte(c, run));
      FirstByte(c, p);
      ByteShort(c, p[0], Output(c', p[1..]) + Trailer(Advance(c', p[1..])), run, MAX_TEXT);
    }
  }

  lemma DocumentShort(p: seq<byte>)
    requires Plain(p)
    ensures ShortTexts(Document(p), 0, MAX_TEXT)
  {
    OutputShort(START, p, 0);
  }

  /** No text token of the document is longer than `limit`. */
  ghost predicate TextsWithin(doc: seq<byte>, limit: nat) {
    forall i :: 0 <= i < |Tokenize(doc)| && Tokenize(doc)[i].Text? ==> |Tokenize(doc)[i].text| <= limit
  }

  lemma ShortIsWithin(doc: seq<byte>, limit: nat)
    requires ShortTexts(doc, 0, limit)
    ensures TextsWithin(doc, limit)
  {
    forall i | 0 <= i < |Tokenize(doc)| && Tokenize(doc)[i].Text? ensures |Tokenize(doc)[i].text| <= limit {
      ShortTokens(doc, limit, i);
    }
  }

  /** For every payload, no text in the armored document reaches the limit on element text, so the decoder's
      tokenizer never runs out of its buffer. */
  lemma ElementsWithinLimit(p: seq<byte>)
    requires Plain(p)
    ensures TextsWithin(Document(p), MAX_TEXT) && MAX_TEXT < ELEMENT_SIZE_LIMIT
  {
    DocumentShort(p);
    ShortIsWithin(Document(p), MAX_TEXT);
  }
}
