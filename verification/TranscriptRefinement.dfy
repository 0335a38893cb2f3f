/** The incremental transcript refines the definition of section 4.4.1 of RFC 8446: a log of the first-seen
    messages, from which the transcript bytes are computed. */
module TranscriptRefinement {
  import opened Options
  import opened Bytes
  import opened Transcript13

  datatype Logged = Logged(id: MessageId, message: seq<byte>, retry: bool)

  /** The reference: which messages were accepted, in order, and the hash once it is known. */
  datatype Reference = Reference(log: seq<Logged>, hash: HashSource)

  function Messages(log: seq<Logged>): (ms: seq<seq<byte>>)
    ensures |ms| == |log|
  {
    seq(|log|, k requires 0 <= k < |log| => log[k].message)
  }

  predicate Retried(log: seq<Logged>) {
    |log| >= 2 && log[1].retry
  }

  /** Section 4.4.1: the messages concatenated, ClientHello1 standing as message_hash if the server answered
      it with a HelloRetryRequest. */
  function RfcBytes(ref: Reference): seq<byte> {
    if Retried(ref.log) && ref.hash.Usable?
    then MessageHash(ref.hash.digest(ref.log[0].message)) + Concat(Messages(ref.log[1..]))
    else Concat(Messages(ref.log))
  }

  function Lookup(log: seq<Logged>, id: MessageId): Option<Logged> {
    if log == [] then None
    else if log[|log| - 1].id == id then Some(log[|log| - 1])
    else Lookup(log[..|log| - 1], id)
  }

  predicate OnlyClientHello(log: seq<Logged>) {
    |log| == 1 && log[0].id.sender.Client? && log[0].message != [] && log[0].message[0] == TYPE_CLIENT_HELLO
  }

  function RefSelect(ref: Reference, source: HashSource): (Reference, Outcome) {
    if source.NoFunction? then (ref, Err(NotSelected))
    else if ref.hash.Usable? then (ref, Err(AlreadySelected))
    else if source.NoHash? then (ref, Err(NotSelected))
    else (ref.(hash := source), Ok)
  }

  /** A HelloRetryRequest needs a hash: the selected one, else the cipher suite's. */
  function RefAppend(ref: Reference, sha256: Digest, m: Logged, suite: Option<HashSource>): (Reference, Outcome) {
    var known := Lookup(ref.log, m.id);
    if Validate(m.message).Err? then (ref, Validate(m.message))
    else if known.Some? then
      (ref, if |known.value.message| == |m.message| && sha256(known.value.message) == sha256(m.message)
            then Ok else Err(MessageChanged))
    else if !m.retry then (ref.(log := ref.log + [m]), Ok)
    else if suite.Some? && suite.value.NoFunction? then (ref, Err(NotSelected))
    else
      var hash := if ref.hash.Usable? || suite.None? then ref.hash else suite.value;
      if !hash.Usable? then (ref, Err(NotSelected))
      else if OnlyClientHello(ref.log) then (Reference(ref.log + [m], hash), Ok)
      else (ref.(hash := hash), Err(RetryInvalid))
  }

  /** A log as runs build it. */
  ghost predicate GoodLog(ref: Reference) {
    && (forall k :: 0 <= k < |ref.log| ==> Validate(ref.log[k].message).Ok?)
    && (forall k :: 0 <= k < |ref.log| && ref.log[k].retry ==> k == 1 && ref.hash.Usable?)
  }

  ghost predicate SeenAs(t: Transcript, log: seq<Logged>, sha256: Digest) {
    forall id ::
      if Lookup(log, id).None? then id !in t.seen
      else id in t.seen && t.seen[id] == SeenMessage(|Lookup(log, id).value.message|,
                                                     sha256(Lookup(log, id).value.message))
  }

  ghost predicate OrderAs(t: Transcript, log: seq<Logged>) {
    |t.order| == |log| &&
    forall k :: 0 <= k < |log| ==> log[k].message != [] && t.order[k] == OrderEntry(log[k].id, log[k].message[0])
  }

  /** Pending, or the running hash once selected, holds exactly the transcript bytes. */
  ghost predicate HoldsBytes(t: Transcript) {
    if t.Selected() then t.absorbed == t.bytes && t.pending == [] else Concat(t.pending) == t.bytes && t.absorbed == []
  }

  ghost predicate Refines(t: Transcript, ref: Reference, sha256: Digest) {
    && t.hash == ref.hash
    && t.bytes == RfcBytes(ref)
    && HoldsBytes(t)
    && t.retryApplied == Retried(ref.log)
    && GoodLog(ref) && SeenAs(t, ref.log, sha256) && OrderAs(t, ref.log)
  }

  lemma SelectRefines(t: Transcript, ref: Reference, sha256: Digest, source: HashSource)
    requires Refines(t, ref, sha256)
    ensures SelectHash(t, source).1 == RefSelect(ref, source).1
    ensures Refines(SelectHash(t, source).0, RefSelect(ref, source).0, sha256)
  {
  }

  lemma RfcBytesSnoc(ref: Reference, m: Logged)
    requires !m.retry
    ensures RfcBytes(ref.(log := ref.log + [m])) == RfcBytes(ref) + m.message
  {
    var log' := ref.log + [m];
    assert Messages(log') == Messages(ref.log) + [m.message];
    ConcatSnoc(Messages(ref.log), m.message);
    if Retried(ref.log) {
      assert log'[1..] == ref.log[1..] + [m];
      assert Messages(log'[1..]) == Messages(ref.log[1..]) + [m.message];
      ConcatSnoc(Messages(ref.log[1..]), m.message);
    }
  }

  lemma LookupSnoc(log: seq<Logged>, m: Logged)
    ensures forall id :: Lookup(log + [m], id) == if id == m.id then Some(m) else Lookup(log, id)
  {
    assert (log + [m])[..|log|] == log;
  }

  /** A new message in the log and in the tables. */
  lemma TablesSnoc(t: Transcript, log: seq<Logged>, sha256: Digest, m: Logged, t': Transcript)
    requires SeenAs(t, log, sha256) && OrderAs(t, log) && m.message != []
    requires t'.seen == t.seen[m.id := SeenMessage(|m.message|, sha256(m.message))]
    requires t'.order == t.order + [OrderEntry(m.id, m.message[0])]
    ensures SeenAs(t', log + [m], sha256) && OrderAs(t', log + [m])
  {
    LookupSnoc(log, m);
  }

  lemma PlainAppendRefines(t: Transcript, ref: Reference, sha256: Digest, m: Logged)
    requires Refines(t, ref, sha256) && !m.retry && Validate(m.message).Ok? && m.id !in t.seen
    ensures var (t', r) := AppendCanonical(t, sha256, m.id, m.message);
            r == Ok && Refines(t', ref.(log := ref.log + [m]), sha256)
  {
    RfcBytesSnoc(ref, m);
    TablesSnoc(t, ref.log, sha256, m, AppendCanonical(t, sha256, m.id, m.message).0);
    ConcatSnoc(t.pending, m.message);
  }

  lemma RetryBytes(ref: Reference, m: Logged)
    requires OnlyClientHello(ref.log) && ref.hash.Usable? && m.retry
    ensures RfcBytes(ref) == ref.log[0].message
    ensures RfcBytes(ref.(log := ref.log + [m])) == MessageHash(ref.hash.digest(ref.log[0].message)) + m.message
  {
    assert Messages(ref.log) == [] + [ref.log[0].message];
    ConcatSnoc([], ref.log[0].message);
    assert (ref.log + [m])[1..] == [m];
    assert Messages([m]) == [] + [m.message];
    ConcatSnoc([], m.message);
  }

  /** Replacing ClientHello1 and appending the HelloRetryRequest is one step of the reference. */
  lemma RetryAppendRefines(t: Transcript, ref: Reference, sha256: Digest, m: Logged)
    requires Refines(t, ref, sha256) && m.retry && Validate(m.message).Ok? && m.id !in t.seen
    requires ref.hash.Usable? && OnlyClientHello(ref.log)
    ensures var (t1, r1) := ApplyHelloRetryRequest(t);
            r1 == Ok && AppendCanonical(t1, sha256, m.id, m.message).1 == Ok &&
            Refines(AppendCanonical(t1, sha256, m.id, m.message).0, ref.(log := ref.log + [m]), sha256)
  {
    RetryBytes(ref, m);
    var t1 := ApplyHelloRetryRequest(t).0;
    TablesSnoc(t1, ref.log, sha256, m, AppendCanonical(t1, sha256, m.id, m.message).0);
  }

  lemma HasInitialIffOnly(t: Transcript, ref: Reference, sha256: Digest)
    requires Refines(t, ref, sha256)
    ensures !t.retryApplied && HasInitialClientHello(t) <==> OnlyClientHello(ref.log)
  {
  }

  lemma AppendRefines(t: Transcript, ref: Reference, sha256: Digest, m: Logged, suite: Option<HashSource>)
    requires Refines(t, ref, sha256)
    ensures var (t', r) := AppendHandshake(t, sha256, m.id, suite, m.retry, m.message);
            var (ref', r') := RefAppend(ref, sha256, m, suite);
            r == r' && Refines(t', ref', sha256)
  {
    if Validate(m.message).Ok? && m.id !in t.seen {
      if !m.retry {
        PlainAppendRefines(t, ref, sha256, m);
      } else {
        RetryStepRefines(t, ref, sha256, m, suite);
      }
    }
  }

  /** appendHandshake13 for a HelloRetryRequest, past the hash selection. */
  function ApplyThenAppend(t: Transcript, sha256: Digest, m: Logged): (Transcript, Outcome) {
    var (t1, r1) := ApplyHelloRetryRequest(t);
    if r1.Err? then (t1, r1) else AppendCanonical(t1, sha256, m.id, m.message)
  }

  function RefRetry(ref: Reference, m: Logged): (Reference, Outcome) {
    if !ref.hash.Usable? then (ref, Err(NotSelected))
    else if OnlyClientHello(ref.log) then (ref.(log := ref.log + [m]), Ok)
    else (ref, Err(RetryInvalid))
  }

  lemma ApplyThenAppendRefines(t: Transcript, ref: Reference, sha256: Digest, m: Logged)
    requires Refines(t, ref, sha256) && m.retry && Validate(m.message).Ok? && m.id !in t.seen
    ensures ApplyThenAppend(t, sha256, m).1 == RefRetry(ref, m).1
    ensures Refines(ApplyThenAppend(t, sha256, m).0, RefRetry(ref, m).0, sha256)
  {
    HasInitialIffOnly(t, ref, sha256);
    if ref.hash.Usable? && OnlyClientHello(ref.log) {
      RetryAppendRefines(t, ref, sha256, m);
    }
  }

  /** appendHandshake13 and its reference for a new HelloRetryRequest: select, then apply and append. */
  lemma RetryInTwoSteps(t: Transcript, sha256: Digest, m: Logged, suite: Option<HashSource>)
    requires m.retry && Validate(m.message).Ok? && m.id !in t.seen
    ensures AppendHandshake(t, sha256, m.id, suite, true, m.message) ==
            if SelectIfReady(t, suite).1.Err? then SelectIfReady(t, suite)
            else ApplyThenAppend(SelectIfReady(t, suite).0, sha256, m)
  {
  }

  function RefSelectIfReady(ref: Reference, suite: Option<HashSource>): (Reference, Outcome) {
    if suite.None? then (ref, Ok)
    else (RefSelect(ref, suite.value).0,
          if RefSelect(ref, suite.value).1 == Err(AlreadySelected) then Ok else RefSelect(ref, suite.value).1)
  }

  lemma RefRetryInTwoSteps(ref: Reference, sha256: Digest, m: Logged, suite: Option<HashSource>)
    requires m.retry && Validate(m.message).Ok? && Lookup(ref.log, m.id).None?
    ensures RefAppend(ref, sha256, m, suite) ==
            if RefSelectIfReady(ref, suite).1.Err? then RefSelectIfReady(ref, suite)
            else RefRetry(RefSelectIfReady(ref, suite).0, m)
  {
  }

  lemma SelectIfReadyRefines(t: Transcript, ref: Reference, sha256: Digest, suite: Option<HashSource>)
    requires Refines(t, ref, sha256)
    ensures SelectIfReady(t, suite).1 == RefSelectIfReady(ref, suite).1 && SelectIfReady(t, suite).0.seen == t.seen
    ensures Refines(SelectIfReady(t, suite).0, RefSelectIfReady(ref, suite).0, sha256)
  {
    if suite.Some? { SelectRefines(t, ref, sha256, suite.value); }
  }

  lemma RetryStepRefines(t: Transcript, ref: Reference, sha256: Digest, m: Logged, suite: Option<HashSource>)
    requires Refines(t, ref, sha256) && m.retry && Validate(m.message).Ok? && m.id !in t.seen
    ensures var (t', r) := AppendHandshake(t, sha256, m.id, suite, m.retry, m.message);
            var (ref', r') := RefAppend(ref, sha256, m, suite);
            r == r' && Refines(t', ref', sha256)
  {
    assert Lookup(ref.log, m.id).None?;
    RetryInTwoSteps(t, sha256, m, suite);
    RefRetryInTwoSteps(ref, sha256, m, suite);
    SelectIfReadyRefines(t, ref, sha256, suite);
    var t1, ref1 := SelectIfReady(t, suite).0, RefSelectIfReady(ref, suite).0;
    if SelectIfReady(t, suite).1.Ok? {
      ApplyThenAppendRefines(t1, ref1, sha256, m);
    }
  }

  datatype Event = Select(source: HashSource) | Append(m: Logged, suite: Option<HashSource>)

  function Step(t: Transcript, sha256: Digest, e: Event): (Transcript, Outcome) {
    match e
    case Select(source) => SelectHash(t, source)
    case Append(m, suite) => AppendHandshake(t, sha256, m.id, suite, m.retry, m.message)
  }

  function RefStep(ref: Reference, sha256: Digest, e: Event): (Reference, Outcome) {
    match e
    case Select(source) => RefSelect(ref, source)
    case Append(m, suite) => RefAppend(ref, sha256, m, suite)
  }

  /** Final state and every outcome of a run. */
  function Run(sha256: Digest, events: seq<Event>): (Transcript, seq<Outcome>) {
    if events == [] then (NewTranscript(), [])
    else
      var (t, out) := Run(sha256, events[..|events| - 1]);
      var (t', r) := Step(t, sha256, events[|events| - 1]);
      (t', out + [r])
  }

  function RefRun(sha256: Digest, events: seq<Event>): (Reference, seq<Outcome>) {
    if events == [] then (Reference([], NoFunction), [])
    else
      var (ref, out) := RefRun(sha256, events[..|events| - 1]);
      var (ref', r) := RefStep(ref, sha256, events[|events| - 1]);
      (ref', out + [r])
  }

  /** Every run of hash selections and appends, in any order: the same outcomes as the reference, and the
      transcript is the RFC's transcript of the messages the reference logged. */
  lemma {:induction false} EveryRunRefines(sha256: Digest, events: seq<Event>)
    ensures Run(sha256, events).1 == RefRun(sha256, events).1
    ensures Refines(Run(sha256, events).0, RefRun(sha256, events).0, sha256)
  {
    if events == [] {
      assert RfcBytes(Reference([], NoFunction)) == Concat(Messages([]));
    } else {
      var before := events[..|events| - 1];
      EveryRunRefines(sha256, before);
      var t, ref := Run(sha256, before).0, RefRun(sha256, before).0;
      match events[|events| - 1]
      case Select(source) => SelectRefines(t, ref, sha256, source);
      case Append(m, suite) => AppendRefines(t, ref, sha256, m, suite);
    }
  }

  /** The transcript hash is the digest of the RFC's bytes, and sumWithSuffix is the hash the transcript
      would have with the suffix absorbed as well. */
  lemma SumIsTranscriptHash(sha256: Digest, events: seq<Event>, suffix: seq<byte>)
    ensures var t, ref := Run(sha256, events).0, RefRun(sha256, events).0;
            && (Sum(t).Some? <==> ref.hash.Usable?)
            && (ref.hash.Usable? ==> Sum(t) == Some(ref.hash.digest(RfcBytes(ref))))
            && (ref.hash.Usable? ==> SumWithSuffix(t, suffix) == Some(ref.hash.digest(RfcBytes(ref) + suffix)))
            && (ref.hash.Usable? ==> SumWithSuffix(t, suffix) == Sum(t.(absorbed := t.absorbed + suffix)))
  {
    EveryRunRefines(sha256, events);
  }

  /** Over every run at most one logged message is a HelloRetryRequest: the second, right after a lone
      client ClientHello. */
  lemma {:induction false} RetryAtMostOnce(sha256: Digest, events: seq<Event>, k: nat)
    requires k < |RefRun(sha256, events).0.log| && RefRun(sha256, events).0.log[k].retry
    ensures k == 1 && OnlyClientHello(RefRun(sha256, events).0.log[..1])
  {
    if events != [] {
      var before := events[..|events| - 1];
      EveryRunRefines(sha256, events);
      var log, log' := RefRun(sha256, before).0.log, RefRun(sha256, events).0.log;
      if k < |log| {
        RetryAtMostOnce(sha256, before, k);
        assert log'[..1] == log[..1];
      } else {
        assert log'[..1] == log;
      }
    }
  }

  /** A retransmission under a known id never changes anything. It is accepted exactly when length and
      fingerprint agree; so an identical one always is, and a changed one never is unless SHA-256 collides. */
  lemma Retransmission(t: Transcript, ref: Reference, sha256: Digest, m: Logged, suite: Option<HashSource>)
    requires Refines(t, ref, sha256) && Validate(m.message).Ok? && Lookup(ref.log, m.id).Some?
    ensures var old_ := Lookup(ref.log, m.id).value.message;
            var (t', r) := AppendHandshake(t, sha256, m.id, suite, m.retry, m.message);
            && t' == t
            && (r == Ok <==> |m.message| == |old_| && sha256(m.message) == sha256(old_))
            && (r != Ok ==> r == Err(MessageChanged))
            && (m.message == old_ ==> r == Ok)
            && (m.message != old_ && r == Ok ==> sha256(m.message) == sha256(old_))
  {
  }
}
