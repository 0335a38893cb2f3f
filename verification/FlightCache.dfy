/** The flight cache of whole handshake messages (dtls/internal/flight/cache.go). */
module FlightCache {
  import opened Options
  import opened Bytes
  import opened HandshakeWire

  const CLIENT_HELLO: byte := 1
  const SERVER_HELLO: byte := 2
  const CERTIFICATE: byte := 11
  const SERVER_KEY_EXCHANGE: byte := 12
  const CERTIFICATE_REQUEST: byte := 13
  const SERVER_HELLO_DONE: byte := 14
  const CERTIFICATE_VERIFY: byte := 15
  const CLIENT_KEY_EXCHANGE: byte := 16
  const FINISHED: byte := 20

  datatype Item = Item(typ: byte, isClient: bool, epoch: u16, messageSequence: u16, data: seq<byte>)

  datatype Rule = Rule(typ: byte, epoch: u16, isClient: bool, optional: bool)

  predicate Matches(c: Item, r: Rule) {
    c.typ == r.typ && c.isClient == r.isClient && c.epoch == r.epoch
  }

  /** The item a rule selects: among the matching ones the highest message sequence number, and the
      earliest pushed of those. */
  function Last(items: seq<Item>, r: Rule): Option<Item> {
    if items == [] then None
    else
      var n := |items| - 1;
      var before := Last(items[..n], r);
      if Matches(items[n], r) && (before.None? || before.value.messageSequence < items[n].messageSequence)
      then Some(items[n]) else before
  }

  ghost predicate Highest(items: seq<Item>, r: Rule, x: Item) {
    x in items && Matches(x, r) &&
    forall y :: y in items && Matches(y, r) ==> y.messageSequence <= x.messageSequence
  }

  lemma {:induction false} LastIsHighest(items: seq<Item>, r: Rule)
    ensures Last(items, r).None? <==> forall y :: y in items ==> !Matches(y, r)
    ensures Last(items, r).Some? ==> Highest(items, r, Last(items, r).value)
  {
    if items != [] {
      var n := |items| - 1;
      LastIsHighest(items[..n], r);
      assert items == items[..n] + [items[n]];
    }
  }

  function Selected(items: seq<Item>, r: Rule): seq<byte> {
    match Last(items, r)
    case None => []
    case Some(x) => x.data
  }

  /** The bytes PullAndMerge returns. */
  function Merge(items: seq<Item>, rules: seq<Rule>): seq<byte> {
    Concat(Parts(items, rules))
  }

  function Parts(items: seq<Item>, rules: seq<Rule>): (parts: seq<seq<byte>>)
    ensures |parts| == |rules| && forall k :: 0 <= k < |rules| ==> parts[k] == Selected(items, rules[k])
  {
    seq(|rules|, k requires 0 <= k < |rules| => Selected(items, rules[k]))
  }

  lemma MergeAppend(items: seq<Item>, a: seq<Rule>, b: seq<Rule>)
    ensures Merge(items, a + b) == Merge(items, a) + Merge(items, b)
  {
    assert Parts(items, a + b) == Parts(items, a) + Parts(items, b);
    ConcatAppend(Parts(items, a), Parts(items, b));
  }

  lemma MergeOne(items: seq<Item>, r: Rule)
    ensures Merge(items, [r]) == Selected(items, r)
  {
    var parts := Parts(items, [r]);
    assert parts[0] == Selected(items, [r][0]);
    assert parts == [] + [Selected(items, r)];
    ConcatSnoc([], Selected(items, r));
  }

  predicate SameKey(x: Item, y: Item) {
    x.typ == y.typ && x.isClient == y.isClient && x.epoch == y.epoch && x.messageSequence == y.messageSequence
  }

  /** Entries that agree on type, side, epoch and sequence number carry the same bytes. */
  ghost predicate Functional(items: seq<Item>) {
    forall x, y :: x in items && y in items && SameKey(x, y) ==> x.data == y.data
  }

  /** Two caches with the same entries as far as a rule can see, in any order and any number of copies. */
  ghost predicate SameFor(a: seq<Item>, b: seq<Item>, r: Rule) {
    forall x :: Matches(x, r) ==> (x in a <==> x in b)
  }

  lemma SelectedSame(a: seq<Item>, b: seq<Item>, r: Rule)
    requires Functional(a) && SameFor(a, b, r)
    ensures Selected(a, r) == Selected(b, r)
  {
    LastIsHighest(a, r);
    LastIsHighest(b, r);
    if Last(a, r).Some? {
      var x, y := Last(a, r).value, Last(b, r).value;
      assert x in b && y in a && SameKey(x, y);
    }
  }

  /** The merged bytes do not depend on the order in which entries were pushed nor on how often. */
  lemma MergeSame(a: seq<Item>, b: seq<Item>, rules: seq<Rule>)
    requires Functional(a) && forall k :: 0 <= k < |rules| ==> SameFor(a, b, rules[k])
    ensures Merge(a, rules) == Merge(b, rules)
  {
    forall k | 0 <= k < |rules| ensures Selected(a, rules[k]) == Selected(b, rules[k]) {
      SelectedSame(a, b, rules[k]);
    }
    assert Parts(a, rules) == Parts(b, rules);
  }

  /** The messages an extended master secret covers, in handshake order. */
  function SessionRules(epoch: u16): (rules: seq<Rule>) {
    [Rule(CLIENT_HELLO, epoch, true, false), Rule(SERVER_HELLO, epoch, false, false),
     Rule(CERTIFICATE, epoch, false, false), Rule(SERVER_KEY_EXCHANGE, epoch, false, false),
     Rule(CERTIFICATE_REQUEST, epoch, false, false), Rule(SERVER_HELLO_DONE, epoch, false, false),
     Rule(CERTIFICATE, epoch, true, false), Rule(CLIENT_KEY_EXCHANGE, epoch, true, false)]
  }

  /** A decoded handshake message. */
  datatype Decoded = Decoded(header: Header, body: seq<byte>)

  predicate KnownType(typ: byte) {
    typ in {1, 2, 3, 8, 11, 12, 13, 14, 15, 16, 20}
  }

  /** Handshake.Unmarshal; `parses` says whether the body parser of the message type accepts the body. */
  function UnmarshalHandshake(data: seq<byte>, parses: (byte, seq<byte>) -> bool): Option<Decoded> {
    match UnmarshalHeader(data)
    case None => None
    case Some(h) =>
      if (|data| - HEADER_LENGTH) % U32_LIMIT != h.length || h.length != h.fragmentLength then None
      else if !KnownType(data[0]) || !parses(data[0], data[HEADER_LENGTH..]) then None
      else Some(Decoded(h, data[HEADER_LENGTH..]))
  }

  datatype PullResult = PullResult(nextSeq: int, msgs: map<byte, Decoded>, items: seq<Item>, ok: bool)

  /** The items selected by the rules that select one, in rule order. */
  function Chosen(items: seq<Item>, rules: seq<Rule>): seq<Item> {
    if rules == [] then []
    else
      var rest := Chosen(items, rules[..|rules| - 1]);
      match Last(items, rules[|rules| - 1])
      case None => rest
      case Some(x) => rest + [x]
  }

  /** The decoded messages of the selected items by type; a later rule of the same type replaces an
      earlier one. */
  function Messages(items: seq<Item>, rules: seq<Rule>, parses: (byte, seq<byte>) -> bool): map<byte, Decoded> {
    if rules == [] then map[]
    else
      var rest := Messages(items, rules[..|rules| - 1], parses);
      var r := rules[|rules| - 1];
      match Last(items, r)
      case None => rest
      case Some(x) =>
        match UnmarshalHandshake(x.data, parses)
        case None => rest
        case Some(d) => rest[r.typ := d]
  }

  predicate Mandatory(items: seq<Item>, rules: seq<Rule>) {
    forall k :: 0 <= k < |rules| && !rules[k].optional ==> Last(items, rules[k]).Some?
  }

  /** Item `k` decodes and its header carries sequence number `startSeq + k`. */
  predicate InSequence(x: Item, seqNo: int, parses: (byte, seq<byte>) -> bool) {
    var d := UnmarshalHandshake(x.data, parses);
    d.Some? && d.value.header.messageSequence == Wrap16(seqNo)
  }

  predicate Consecutive(chosen: seq<Item>, startSeq: int, parses: (byte, seq<byte>) -> bool) {
    forall k :: 0 <= k < |chosen| ==> InSequence(chosen[k], startSeq + k, parses)
  }

  class Cache {
    var items: seq<Item>

    constructor ()
      ensures items == []
    {
      items := [];
    }

    method Push(data: seq<byte>, epoch: u16, messageSequence: u16, typ: byte, isClient: bool)
      modifies this
      ensures items == old(items) + [Item(typ, isClient, epoch, messageSequence, data)]
    {
      items := items + [Item(typ, isClient, epoch, messageSequence, data)];
    }

    method LastCacheItemForRule(r: Rule) returns (last: Option<Item>)
      ensures last == Last(items, r)
    {
      last := None;
      for i := 0 to |items|
        invariant last == Last(items[..i], r)
      {
        assert items[..i + 1][..i] == items[..i];
        var c := items[i];
        if Matches(c, r) && (last.None? || last.value.messageSequence < c.messageSequence) {
          last := Some(c);
        }
      }
      assert items[..|items|] == items;
    }

    method Pull(rules: seq<Rule>) returns (out: seq<Option<Item>>)
      ensures |out| == |rules| && forall k :: 0 <= k < |rules| ==> out[k] == Last(items, rules[k])
    {
      out := [];
      for i := 0 to |rules|
        invariant |out| == i && forall k :: 0 <= k < i ==> out[k] == Last(items, rules[k])
      {
        var x := LastCacheItemForRule(rules[i]);
        out := out + [x];
      }
    }

    method PullAndMerge(rules: seq<Rule>) returns (merged: seq<byte>)
      ensures merged == Merge(items, rules)
    {
      merged := [];
      var pulled := Pull(rules);
      for i := 0 to |rules|
        invariant merged == Merge(items, rules[..i])
      {
        MergeAppend(items, rules[..i], [rules[i]]);
        assert rules[..i] + [rules[i]] == rules[..i + 1];
        MergeOne(items, rules[i]);
        if pulled[i].Some? {
          merged := merged + pulled[i].value.data;
        }
      }
      assert rules[..|rules|] == rules;
    }

    /** The digest is a parameter: only the bytes fed to it are the repository's. */
    method SessionHash(digest: seq<byte> -> seq<byte>, epoch: u16, additional: seq<seq<byte>>) returns (h: seq<byte>)
      ensures h == digest(Merge(items, SessionRules(epoch)) + Concat(additional))
    {
      var merged := PullAndMerge(SessionRules(epoch));
      for i := 0 to |additional|
        invariant merged == Merge(items, SessionRules(epoch)) + Concat(additional[..i])
      {
        ConcatSnoc(additional[..i], additional[i]);
        assert additional[..i] + [additional[i]] == additional[..i + 1];
        merged := merged + additional[i];
      }
      assert additional[..|additional|] == additional;
      h := digest(merged);
    }

    /** FullPullMapItems: succeeds exactly when every mandatory rule selects an item, some rule does, and
        the selected items, in rule order, decode and carry consecutive sequence numbers from startSeq.
        A failure returns startSeq unchanged and nothing else. */
    method FullPullMapItems(startSeq: int, parses: (byte, seq<byte>) -> bool, rules: seq<Rule>) returns (r: PullResult)
      ensures r.ok <==> Mandatory(items, rules) && Chosen(items, rules) != [] &&
                        Consecutive(Chosen(items, rules), startSeq, parses)
      ensures r.ok ==> r.items == Chosen(items, rules) && r.nextSeq == startSeq + |r.items|
      ensures r.ok ==> r.msgs == Messages(items, rules, parses)
      ensures !r.ok ==> r.nextSeq == startSeq && r.items == [] && r.msgs == map[]
    {
      var ci := [];
      for i := 0 to |rules|
        invariant |ci| == i && forall k :: 0 <= k < i ==> ci[k] == Last(items, rules[k])
        invariant Mandatory(items, rules[..i])
      {
        var x := LastCacheItemForRule(rules[i]);
        ci := ci + [x];
        if !rules[i].optional && x.None? {
          return PullResult(startSeq, map[], [], false);
        }
      }
      assert rules[..|rules|] == rules;
      r := MapCacheItems(startSeq, parses, rules, ci);
    }

    /** fullPullMapCacheItems. */
    method MapCacheItems(startSeq: int, parses: (byte, seq<byte>) -> bool, rules: seq<Rule>, ci: seq<Option<Item>>)
      returns (r: PullResult)
      requires |ci| == |rules| && forall k :: 0 <= k < |rules| ==> ci[k] == Last(items, rules[k])
      ensures r.ok <==> Chosen(items, rules) != [] && Consecutive(Chosen(items, rules), startSeq, parses)
      ensures r.ok ==> r.items == Chosen(items, rules) && r.nextSeq == startSeq + |r.items|
      ensures r.ok ==> r.msgs == Messages(items, rules, parses)
      ensures !r.ok ==> r.nextSeq == startSeq && r.items == [] && r.msgs == map[]
    {
      var out: map<byte, Decoded> := map[];
      var chosen: seq<Item> := [];
      var next := startSeq;
      for i := 0 to |rules|
        invariant chosen == Chosen(items, rules[..i]) && next == startSeq + |chosen|
        invariant Consecutive(chosen, startSeq, parses)
        invariant out == Messages(items, rules[..i], parses)
      {
        assert rules[..i + 1][..i] == rules[..i];
        if ci[i].Some? {
          var item := ci[i].value;
          var d := UnmarshalHandshake(item.data, parses);
          if d.None? || Wrap16(next) != d.value.header.messageSequence {
            ChosenGrows(items, rules, i + 1);
            assert Chosen(items, rules[..i + 1])[|chosen|] == item;
            return PullResult(startSeq, map[], [], false);
          }
          next := next + 1;
          out := out[rules[i].typ := d.value];
          chosen := chosen + [item];
        }
      }
      assert rules[..|rules|] == rules;
      if |chosen| == 0 {
        return PullResult(next, map[], [], false);
      }
      r := PullResult(next, out, chosen, true);
    }
  }

  lemma {:induction false} ChosenGrows(items: seq<Item>, rules: seq<Rule>, i: nat)
    requires i <= |rules|
    ensures Chosen(items, rules[..i]) <= Chosen(items, rules)
    decreases |rules| - i
  {
    if i == |rules| {
      assert rules[..i] == rules;
    } else {
      assert rules[..i + 1][..i] == rules[..i];
      ChosenGrows(items, rules, i + 1);
    }
  }

  /** The positions of the rules that select something. */
  function Selecting(items: seq<Item>, rules: seq<Rule>): seq<nat> {
    if rules == [] then []
    else
      var n := |rules| - 1;
      Selecting(items, rules[..n]) + if Last(items, rules[n]).Some? then [n] else []
  }

  /** What FullPullMapItems hands over, in rule order: item `j` is a highest match of the j-th rule that selects, and
      the rules in between match nothing. */
  lemma {:induction false} ChosenAreHighest(items: seq<Item>, rules: seq<Rule>)
    ensures var at, chosen := Selecting(items, rules), Chosen(items, rules);
            && |at| == |chosen|
            && (forall j, k :: 0 <= j < k < |at| ==> at[j] < at[k])
            && (forall j :: 0 <= j < |at| ==> at[j] < |rules| && Highest(items, rules[at[j]], chosen[j]))
            && (forall i :: 0 <= i < |rules| ==> (i in at <==> exists y :: y in items && Matches(y, rules[i])))
  {
    if rules != [] {
      var n := |rules| - 1;
      var before := Selecting(items, rules[..n]);
      ChosenAreHighest(items, rules[..n]);
      LastIsHighest(items, rules[n]);
      forall i | 0 <= i < n ensures i in Selecting(items, rules) <==> i in before {
      }
      assert forall i :: 0 <= i < n ==> rules[..n][i] == rules[i];
      assert n !in before;
    }
  }
}
