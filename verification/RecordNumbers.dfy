/** Record sequence numbers per epoch (dtls/conn.go, processPacket and processHandshakePacket) and the AEAD
    nonces built from them (dtls/pkg/crypto/ciphersuite/chacha20poly1305.go, ciphersuite.go). */
module RecordNumbers {
  import opened Bytes

  const MAX_SEQUENCE_NUMBER := 0xFFFF_FFFF_FFFF
  const U64_LIMIT := 0x1_0000_0000_0000_0000

  type u64 = x: int | 0 <= x < U64_LIMIT

  /** A record that was given a number. */
  datatype Record = Record(epoch: u16, number: nat)

  /** LocalSequenceNumber: the next number of each epoch that has been used. */
  function Next(counters: seq<u64>, epoch: u16): u64 {
    if epoch < |counters| then counters[epoch] else 0
  }

  datatype State = State(counters: seq<u64>, sent: seq<Record>)

  function Grown(counters: seq<u64>, epoch: u16): (c: seq<u64>)
    ensures |c| > epoch && |c| >= |counters|
    ensures forall e :: 0 <= e < |c| ==> c[e] == if e < |counters| then counters[e] else 0
    decreases epoch as int - |counters|
  {
    if |counters| > epoch then counters else Grown(counters + [0], epoch)
  }

  /** One number taken for a record of an epoch. The counter is a uint64 and moves on even when the number is
      past the limit and refused. */
  function Allocate(s: State, epoch: u16): State {
    var counters := Grown(s.counters, epoch);
    var n := counters[epoch];
    State(counters[epoch := (n + 1) % U64_LIMIT],
          if n <= MAX_SEQUENCE_NUMBER then s.sent + [Record(epoch, n)] else s.sent)
  }

  function AllocateAll(s: State, epochs: seq<u16>): State {
    if epochs == [] then s
    else Allocate(AllocateAll(s, epochs[..|epochs| - 1]), epochs[|epochs| - 1])
  }

  const Fresh := State([], [])

  /** Allocations made for an epoch. */
  function Attempts(epochs: seq<u16>, e: u16): nat {
    if epochs == [] then 0
    else Attempts(epochs[..|epochs| - 1], e) + if epochs[|epochs| - 1] == e then 1 else 0
  }

  /** The number the allocation `j` allocations ahead gets. */
  function NumberAt(counters: seq<u64>, epoch: u16, j: nat): nat {
    (Next(counters, epoch) + j) % U64_LIMIT
  }

  lemma NextNumber(counters: seq<u64>, epoch: u16, j: nat)
    ensures (NumberAt(counters, epoch, j) + 1) % U64_LIMIT == NumberAt(counters, epoch, j + 1)
  {
  }

  class RecordWriter {
    var localSequenceNumber: seq<u64>
    ghost var sent: seq<Record>

    ghost function Value(): State
      reads this
    {
      State(localSequenceNumber, sent)
    }

    constructor ()
      ensures Value() == Fresh
    {
      localSequenceNumber, sent := [], [];
    }

    method Extend(epoch: u16)
      modifies this`localSequenceNumber
      ensures localSequenceNumber == Grown(old(localSequenceNumber), epoch)
    {
      while |localSequenceNumber| <= epoch
        invariant Grown(localSequenceNumber, epoch) == Grown(old(localSequenceNumber), epoch)
        decreases epoch as int - |localSequenceNumber|
      {
        localSequenceNumber := localSequenceNumber + [0];
      }
    }

    /** processPacket's numbering: the number of the record, or an overflow. */
    method ProcessPacket(epoch: u16) returns (ok: bool, number: nat)
      modifies this
      ensures Value() == Allocate(old(Value()), epoch)
      ensures ok <==> Next(old(localSequenceNumber), epoch) <= MAX_SEQUENCE_NUMBER
      ensures ok ==> sent == old(sent) + [Record(epoch, number)]
    {
      Extend(epoch);
      number := localSequenceNumber[epoch];
      localSequenceNumber := localSequenceNumber[epoch := (number + 1) % U64_LIMIT];
      ok := number <= MAX_SEQUENCE_NUMBER;
      if ok {
        sent := sent + [Record(epoch, number)];
      }
    }

    /** processHandshakePacket's numbering without a connection ID: one number per fragment, stopping at the
        first overflow. */
    method ProcessHandshakePacket(epoch: u16, fragments: nat) returns (ok: bool, taken: nat)
      modifies this
      ensures ok <==> forall j :: 0 <= j < fragments ==>
                        NumberAt(old(localSequenceNumber), epoch, j) <= MAX_SEQUENCE_NUMBER
      ensures ok ==> taken == fragments
      ensures !ok ==> 0 < taken <= fragments
      ensures !ok ==> NumberAt(old(localSequenceNumber), epoch, taken - 1) > MAX_SEQUENCE_NUMBER
      ensures forall j :: 0 <= j < taken - (if ok then 0 else 1) ==>
                NumberAt(old(localSequenceNumber), epoch, j) <= MAX_SEQUENCE_NUMBER
      ensures Value() == AllocateAll(old(Value()).(counters := Grown(old(localSequenceNumber), epoch)),
                                     seq(taken, _ => epoch))
    {
      Extend(epoch);
      ghost var start := Value();
      taken, ok := 0, true;
      while ok && taken < fragments
        invariant 0 <= taken <= fragments && |localSequenceNumber| > epoch
        invariant localSequenceNumber[epoch] == NumberAt(old(localSequenceNumber), epoch, taken)
        invariant forall j :: 0 <= j < taken - (if ok then 0 else 1) ==>
                    NumberAt(old(localSequenceNumber), epoch, j) <= MAX_SEQUENCE_NUMBER
        invariant !ok ==> 0 < taken && NumberAt(old(localSequenceNumber), epoch, taken - 1) > MAX_SEQUENCE_NUMBER
        invariant Value() == AllocateAll(start, seq(taken, _ => epoch))
        decreases fragments - taken
      {
        var number;
        NextNumber(old(localSequenceNumber), epoch, taken);
        ok, number := ProcessPacket(epoch);
        taken := taken + 1;
        assert seq(taken, _ => epoch)[..taken - 1] == seq(taken - 1, _ => epoch);
      }
    }
  }

  // ---------- Every run ----------

  lemma Modulo(a: nat)
    ensures (a % U64_LIMIT + 1) % U64_LIMIT == (a + 1) % U64_LIMIT
  {
  }

  lemma {:induction false} CounterIsAttempts(epochs: seq<u16>, e: u16)
    ensures Next(AllocateAll(Fresh, epochs).counters, e) == Attempts(epochs, e) % U64_LIMIT
  {
    if epochs != [] {
      var before := epochs[..|epochs| - 1];
      CounterIsAttempts(before, e);
      Modulo(Attempts(before, e));
    }
  }

  /** Up to 2^64 allocations in an epoch, its records carry increasing numbers below the allocation count. */
  ghost predicate Rising(sent: seq<Record>, e: u16, bound: nat) {
    && (forall i :: 0 <= i < |sent| && sent[i].epoch == e ==> sent[i].number < bound)
    && (forall i, j :: 0 <= i < j < |sent| && sent[i].epoch == sent[j].epoch == e ==> sent[i].number < sent[j].number)
  }

  lemma {:induction false} NumbersRise(epochs: seq<u16>, e: u16)
    requires Attempts(epochs, e) <= U64_LIMIT
    ensures Rising(AllocateAll(Fresh, epochs).sent, e, Attempts(epochs, e))
  {
    if epochs != [] {
      var before := epochs[..|epochs| - 1];
      NumbersRise(before, e);
      CounterIsAttempts(before, e);
    }
  }

  lemma {:induction false} NumbersWithinLimit(epochs: seq<u16>, i: nat)
    requires i < |AllocateAll(Fresh, epochs).sent|
    ensures AllocateAll(Fresh, epochs).sent[i].number <= MAX_SEQUENCE_NUMBER
  {
    if epochs != [] {
      var before := epochs[..|epochs| - 1];
      if i < |AllocateAll(Fresh, before).sent| { NumbersWithinLimit(before, i); }
    }
  }

  lemma {:induction false} ZeroIsSent(epochs: seq<u16>, e: u16)
    requires Attempts(epochs, e) >= 1
    ensures Record(e, 0) in AllocateAll(Fresh, epochs).sent
  {
    var before := epochs[..|epochs| - 1];
    var s, s' := AllocateAll(Fresh, before), AllocateAll(Fresh, epochs);
    if Attempts(before, e) >= 1 {
      ZeroIsSent(before, e);
      assert s.sent <= s'.sent;
    } else {
      CounterIsAttempts(before, e);
      assert s'.sent[|s'.sent| - 1] == Record(e, 0);
    }
  }

  /** Past 2^64 allocations the counter has wrapped and number 0 has been used twice. */
  lemma {:induction false} ZeroIsSentAgain(epochs: seq<u16>, e: u16) returns (i: nat, j: nat)
    requires Attempts(epochs, e) > U64_LIMIT
    ensures var sent := AllocateAll(Fresh, epochs).sent; i < j < |sent| && sent[i] == sent[j] == Record(e, 0)
  {
    var before := epochs[..|epochs| - 1];
    var s, s' := AllocateAll(Fresh, before), AllocateAll(Fresh, epochs);
    assert s.sent <= s'.sent;
    if Attempts(before, e) > U64_LIMIT {
      i, j := ZeroIsSentAgain(before, e);
    } else {
      ZeroIsSent(before, e);
      CounterIsAttempts(before, e);
      i :| 0 <= i < |s.sent| && s.sent[i] == Record(e, 0);
      j := |s.sent|;
    }
  }

  ghost predicate Distinct<T(!new)>(s: seq<T>) {
    forall i, j :: 0 <= i < j < |s| ==> s[i] != s[j]
  }

  /** No record number is used twice in an epoch exactly as long as no epoch sees more than 2^64 allocations,
      refused ones included. */
  lemma NumbersDistinctIff(epochs: seq<u16>)
    ensures Distinct(AllocateAll(Fresh, epochs).sent) <==> forall e :: Attempts(epochs, e) <= U64_LIMIT
  {
    var sent := AllocateAll(Fresh, epochs).sent;
    if forall e :: Attempts(epochs, e) <= U64_LIMIT {
      forall i, j | 0 <= i < j < |sent| ensures sent[i] != sent[j] {
        NumbersRise(epochs, sent[i].epoch);
      }
    } else {
      var e :| Attempts(epochs, e) > U64_LIMIT;
      var i, j := ZeroIsSentAgain(epochs, e);
    }
  }

  // ---------- Nonces ----------

  /** Big-endian, `k` bytes. */
  function BigEndian(x: nat, k: nat): (b: seq<byte>)
    ensures |b| == k
  {
    if k == 0 then [] else BigEndian(x / 256, k - 1) + [x % 256]
  }

  /** `x` fits in `k` bytes. */
  predicate Fits(x: nat, k: nat) {
    if k == 0 then x == 0 else Fits(x / 256, k - 1)
  }

  lemma {:induction false} BigEndianInjective(x: nat, y: nat, k: nat)
    requires Fits(x, k) && Fits(y, k) && BigEndian(x, k) == BigEndian(y, k)
    ensures x == y
  {
    if k > 0 {
      var a, b := BigEndian(x / 256, k - 1), BigEndian(y / 256, k - 1);
      assert (a + [x % 256])[k - 1] == (b + [y % 256])[k - 1];
      assert a == (a + [x % 256])[..k - 1] == (b + [y % 256])[..k - 1] == b;
      BigEndianInjective(x / 256, y / 256, k - 1);
    }
  }

  /** Exclusive or of two numbers, bit by bit, on `k` bits. */
  function XorBits(a: nat, b: nat, k: nat): nat {
    if k == 0 then 0 else 2 * XorBits(a / 2, b / 2, k - 1) + if a % 2 == b % 2 then 0 else 1
  }

  lemma {:induction false} XorInjective(a: nat, b: nat, c: nat, k: nat, bound: nat)
    requires b < bound && c < bound && Doubled(bound, k) && XorBits(a, b, k) == XorBits(a, c, k)
    ensures b == c
  {
    if k > 0 {
      XorInjective(a / 2, b / 2, c / 2, k - 1, bound / 2);
    }
  }

  /** `bound` is 2^k. */
  predicate Doubled(bound: nat, k: nat) {
    if k == 0 then bound == 1 else bound % 2 == 0 && Doubled(bound / 2, k - 1)
  }

  lemma {:induction false} XorBelow(a: nat, b: nat, k: nat, bound: nat)
    requires Doubled(bound, k)
    ensures XorBits(a, b, k) < bound
  {
    if k > 0 { XorBelow(a / 2, b / 2, k - 1, bound / 2); }
  }

  function Xor(a: byte, b: byte): byte {
    assert Doubled(256, 8);
    XorBelow(a, b, 8, 256);
    XorBits(a, b, 8)
  }

  /** epoch in the top 16 bits, the 48-bit number below. */
  function Seq64(r: Record): nat {
    r.epoch as nat * 0x1_0000_0000_0000 + r.number % 0x1_0000_0000_0000
  }

  lemma Seq64Injective(r: Record, q: Record)
    requires r.number <= MAX_SEQUENCE_NUMBER && q.number <= MAX_SEQUENCE_NUMBER && Seq64(r) == Seq64(q)
    ensures r == q
  {
  }

  lemma Seq64Fits(r: Record)
    ensures Seq64(r) < U64_LIMIT && Fits(Seq64(r), 8)
  {
    FitsChain(Seq64(r));
  }

  lemma FitsChain(x: nat)
    requires x < U64_LIMIT
    ensures Fits(x, 8)
  {
    var x1 := x / 256;
    var x2 := x1 / 256;
    var x3 := x2 / 256;
    var x4 := x3 / 256;
    var x5 := x4 / 256;
    var x6 := x5 / 256;
    var x7 := x6 / 256;
    assert x7 < 256;
    assert Fits(x7, 1);
    assert Fits(x6, 2);
    assert Fits(x5, 3);
    assert Fits(x4, 4);
    assert Fits(x3, 5);
    assert Fits(x2, 6);
    assert Fits(x1, 7);
  }

  /** The explicit nonce of the AEAD suites: four bytes of the write IV, then the sequence. */
  function ExplicitNonce(iv: seq<byte>, r: Record): (n: seq<byte>)
    requires |iv| >= 4
    ensures |n| == 12
  {
    iv[..4] + BigEndian(Seq64(r), 8)
  }

  /** The ChaCha20-Poly1305 nonce: the write IV with its last eight bytes masked by the sequence. */
  function MaskedNonce(iv: seq<byte>, r: Record): (n: seq<byte>)
    requires |iv| == 12
    ensures |n| == 12
  {
    iv[..4] + seq(8, i requires 0 <= i < 8 => Xor(iv[4 + i], BigEndian(Seq64(r), 8)[i]))
  }

  /** ChaCha20Poly1305.Encrypt's nonce loop. */
  method BuildMaskedNonce(iv: seq<byte>, r: Record) returns (nonce: array<byte>)
    requires |iv| == 12
    ensures nonce.Length == 12 && nonce[..] == MaskedNonce(iv, r)
  {
    nonce := new byte[12](i requires 0 <= i < 12 => iv[i]);
    var seq64 := BigEndian(Seq64(r), 8);
    for i := 0 to 8
      invariant forall k :: 0 <= k < 12 && !(4 <= k < 4 + i) ==> nonce[k] == iv[k]
      invariant forall k :: 0 <= k < i ==> nonce[4 + k] == Xor(iv[4 + k], seq64[k])
    {
      nonce[4 + i] := Xor(nonce[4 + i], seq64[i]);
    }
  }

  /** aead.encrypt's nonce: a pooled buffer is overwritten in place, so nothing of its last use remains. */
  method FillExplicitNonce(nonce: array<byte>, iv: seq<byte>, r: Record)
    requires nonce.Length == 12 && |iv| >= 4
    modifies nonce
    ensures nonce[..] == ExplicitNonce(iv, r)
  {
    var seq64 := BigEndian(Seq64(r), 8);
    forall i | 0 <= i < 4 {
      nonce[i] := iv[i];
    }
    forall i | 0 <= i < 8 {
      nonce[4 + i] := seq64[i];
    }
    assert nonce[..4] == iv[..4];
    assert nonce[4..] == seq64;
  }

  lemma ExplicitNonceInjective(iv: seq<byte>, r: Record, q: Record)
    requires |iv| >= 4 && r.number <= MAX_SEQUENCE_NUMBER && q.number <= MAX_SEQUENCE_NUMBER
    requires ExplicitNonce(iv, r) == ExplicitNonce(iv, q)
    ensures r == q
  {
    assert ExplicitNonce(iv, r)[4..] == BigEndian(Seq64(r), 8);
    assert ExplicitNonce(iv, q)[4..] == BigEndian(Seq64(q), 8);
    Seq64Fits(r);
    Seq64Fits(q);
    BigEndianInjective(Seq64(r), Seq64(q), 8);
    Seq64Injective(r, q);
  }

  /** Masking byte by byte with one IV loses nothing. */
  lemma MaskInjective(mask: seq<byte>, a: seq<byte>, b: seq<byte>)
    requires |mask| == |a| == |b| && forall i :: 0 <= i < |a| ==> Xor(mask[i], a[i]) == Xor(mask[i], b[i])
    ensures a == b
  {
    forall i | 0 <= i < |a| ensures a[i] == b[i] {
      XorInjective(mask[i], a[i], b[i], 8, 256);
    }
  }

  lemma MaskedNonceInjective(iv: seq<byte>, r: Record, q: Record)
    requires |iv| == 12 && r.number <= MAX_SEQUENCE_NUMBER && q.number <= MAX_SEQUENCE_NUMBER
    requires MaskedNonce(iv, r) == MaskedNonce(iv, q)
    ensures r == q
  {
    var a, b := BigEndian(Seq64(r), 8), BigEndian(Seq64(q), 8);
    forall i | 0 <= i < 8 ensures Xor(iv[4..][i], a[i]) == Xor(iv[4..][i], b[i]) {
      assert MaskedNonce(iv, r)[4 + i] == Xor(iv[4 + i], a[i]);
      assert MaskedNonce(iv, q)[4 + i] == Xor(iv[4 + i], b[i]);
    }
    MaskInjective(iv[4..], a, b);
    Seq64Fits(r);
    Seq64Fits(q);
    BigEndianInjective(Seq64(r), Seq64(q), 8);
    Seq64Injective(r, q);
  }

  function ExplicitNonces(sent: seq<Record>, iv: seq<byte>): seq<seq<byte>>
    requires |iv| >= 4
  {
    seq(|sent|, i requires 0 <= i < |sent| => ExplicitNonce(iv, sent[i]))
  }

  function MaskedNonces(sent: seq<Record>, iv: seq<byte>): seq<seq<byte>>
    requires |iv| == 12
  {
    seq(|sent|, i requires 0 <= i < |sent| => MaskedNonce(iv, sent[i]))
  }

  /** Over every run, and in both constructions, the records sent have pairwise different nonces exactly when no
      epoch sees more than 2^64 allocations. */
  lemma NoncesDistinctIff(epochs: seq<u16>, salt: seq<byte>, iv: seq<byte>)
    requires |salt| >= 4 && |iv| == 12
    ensures Distinct(ExplicitNonces(AllocateAll(Fresh, epochs).sent, salt)) <==>
            forall e :: Attempts(epochs, e) <= U64_LIMIT
    ensures Distinct(MaskedNonces(AllocateAll(Fresh, epochs).sent, iv)) <==>
            forall e :: Attempts(epochs, e) <= U64_LIMIT
  {
    var sent := AllocateAll(Fresh, epochs).sent;
    NumbersDistinctIff(epochs);
    forall i | 0 <= i < |sent| ensures sent[i].number <= MAX_SEQUENCE_NUMBER {
      NumbersWithinLimit(epochs, i);
    }
    ExplicitFollows(sent, salt);
    MaskedFollows(sent, iv);
  }

  lemma ExplicitFollows(sent: seq<Record>, iv: seq<byte>)
    requires |iv| >= 4 && forall i :: 0 <= i < |sent| ==> sent[i].number <= MAX_SEQUENCE_NUMBER
    ensures Distinct(ExplicitNonces(sent, iv)) <==> Distinct(sent)
  {
    var nonces := ExplicitNonces(sent, iv);
    if Distinct(sent) {
      forall i, j | 0 <= i < j < |nonces| ensures nonces[i] != nonces[j] {
        if nonces[i] == nonces[j] { ExplicitNonceInjective(iv, sent[i], sent[j]); }
      }
    } else {
      var i, j :| 0 <= i < j < |sent| && sent[i] == sent[j];
      assert nonces[i] == nonces[j];
    }
  }

  lemma MaskedFollows(sent: seq<Record>, iv: seq<byte>)
    requires |iv| == 12 && forall i :: 0 <= i < |sent| ==> sent[i].number <= MAX_SEQUENCE_NUMBER
    ensures Distinct(MaskedNonces(sent, iv)) <==> Distinct(sent)
  {
    var nonces := MaskedNonces(sent, iv);
    if Distinct(sent) {
      forall i, j | 0 <= i < j < |nonces| ensures nonces[i] != nonces[j] {
        if nonces[i] == nonces[j] { MaskedNonceInjective(iv, sent[i], sent[j]); }
      }
    } else {
      var i, j :| 0 <= i < j < |sent| && sent[i] == sent[j];
      assert nonces[i] == nonces[j];
    }
  }
}
