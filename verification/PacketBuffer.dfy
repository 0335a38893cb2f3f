/** The growing ring of packets (dtls/internal/net/buffer.go), refining a FIFO queue of packets with their
    addresses. */
module PacketBuffer {
  import opened Bytes

  datatype AddrPacket<Addr> = AddrPacket(addr: Addr, data: seq<byte>)

  /** What the buffer stands for: unread packets, closed or not, and whether a reader waits for news. */
  datatype Queue<Addr> = Queue(items: seq<AddrPacket<Addr>>, closed: bool, waiting: bool)

  datatype WriteResult = Wrote(n: nat, wake: bool) | ClosedPipe

  function WriteStep<Addr>(q: Queue<Addr>, pkt: seq<byte>, addr: Addr): (Queue<Addr>, WriteResult) {
    if q.closed then (q, ClosedPipe)
    else (Queue(q.items + [AddrPacket(addr, pkt)], false, false), Wrote(|pkt|, q.waiting))
  }

  datatype ReadResult<Addr> = Got(packet: AddrPacket<Addr>) | ShortBuffer | Eof | Timeout | Blocked

  /** One attempt to read into a buffer of `room` bytes. bytes.Buffer answers a read of an empty packet
      with EOF unless there is no room at all, and the packet is then not consumed. */
  function ReadStep<Addr>(q: Queue<Addr>, room: nat): (Queue<Addr>, ReadResult<Addr>) {
    if q.items != [] then
      var head := q.items[0];
      if room < |head.data| then (q, ShortBuffer)
      else if head.data == [] && room > 0 then (q, Eof)
      else (q.(items := q.items[1..]), Got(head))
    else if q.closed then (q, Eof)
    else (q.(waiting := true), Blocked)
  }

  function CloseStep<Addr>(q: Queue<Addr>): Queue<Addr> {
    if q.closed then q else q.(closed := true, waiting := false)
  }

  /** A reader waits only while there is nothing to read and more may come: no wake-up is lost. */
  ghost predicate NoLostWakeup<Addr>(q: Queue<Addr>) {
    q.waiting ==> q.items == [] && !q.closed
  }

  /** The unread part of a ring. */
  function Unread<T>(ring: seq<T>, read: nat, write: nat, full: bool): seq<T>
    requires read < |ring| && write < |ring|
  {
    if read == write && !full then []
    else if read < write then ring[read..write]
    else ring[read..] + ring[..write]
  }

  function NextIndex(i: nat, n: nat): nat
    requires i < n
  {
    if i + 1 == n then 0 else i + 1
  }

  lemma StoreNext<T>(ring: seq<T>, read: nat, write: nat, x: T)
    requires read < |ring| && write < |ring|
    ensures var write' := NextIndex(write, |ring|);
            Unread(ring[write := x], read, write', write' == read) == Unread(ring, read, write, false) + [x]
  {
  }

  lemma TakeNext<T>(ring: seq<T>, read: nat, write: nat, full: bool)
    requires read < |ring| && write < |ring| && (full ==> read == write) && (read != write || full)
    ensures Unread(ring, read, write, full) == [ring[read]] + Unread(ring, NextIndex(read, |ring|), write, false)
  {
  }

  class Buffer<Addr> {
    var packets: array<AddrPacket<Addr>>
    var write: nat
    var read: nat
    var full: bool
    var closed: bool
    var notify: bool

    ghost predicate Shaped()
      reads this
    {
      read < packets.Length && write < packets.Length && (full ==> read == write)
    }

    ghost function View(): (q: Queue<Addr>)
      reads this, packets
      requires Shaped()
    {
      Queue(Unread(packets[..], read, write, full), closed, notify)
    }

    ghost predicate Valid()
      reads this, packets
    {
      Shaped() && NoLostWakeup(View())
    }

    constructor (zero: AddrPacket<Addr>)
      ensures Valid() && fresh(packets) && View() == Queue([], false, false)
    {
      packets := new AddrPacket<Addr>[1](_ => zero);
      write, read, full, closed, notify := 0, 0, false, false, false;
    }

    /** The growth step of WriteTo. */
    method Grow(zero: AddrPacket<Addr>)
      requires Shaped() && full
      modifies this
      ensures Shaped() && !full && fresh(packets) && View() == old(View())
    {
      var n := packets.Length;
      var newSize := if n < 128 then n * 2 else 5 * n / 4;
      var newBuf := new AddrPacket<Addr>[newSize](_ => zero);
      forall k | 0 <= k < n {
        newBuf[k] := packets[if read + k < n then read + k else read + k - n];
      }
      assert newBuf[..n] == packets[read..] + packets[..write];
      packets := newBuf;
      read, write, full := 0, n, false;
    }

    /** Storing at the write index and moving it. */
    method Store(packet: AddrPacket<Addr>)
      requires Shaped() && !full
      modifies this`write, this`full, packets
      ensures Shaped() && View() == old(View()).(items := old(View()).items + [packet])
    {
      ghost var ring := packets[..];
      StoreNext(ring, read, write, packet);
      packets[write] := packet;
      assert packets[..] == ring[write := packet];
      write := write + 1;
      if packets.Length == write {
        write := 0;
      }
      if write == read {
        full := true;
      }
    }

    method WriteTo(pkt: seq<byte>, addr: Addr) returns (r: WriteResult)
      requires Valid()
      modifies this, packets
      ensures Valid() && (packets == old(packets) || fresh(packets))
      ensures (View(), r) == WriteStep(old(View()), pkt, addr)
    {
      if closed {
        return ClosedPipe;
      }
      var wake := notify;
      notify := false;
      if full {
        Grow(packets[0]);
      }
      Store(AddrPacket(addr, pkt));
      return Wrote(|pkt|, wake);
    }

    /** One pass of ReadFrom's loop; `deadlinePassed` is what the deadline channel says on entry. */
    method ReadFrom(room: nat, deadlinePassed: bool) returns (r: ReadResult<Addr>)
      requires Valid()
      modifies this
      ensures Valid() && packets == old(packets)
      ensures if deadlinePassed then View() == old(View()) && r == Timeout
              else (View(), r) == ReadStep(old(View()), room)
    {
      if deadlinePassed {
        return Timeout;
      }
      if read != write || full {
        TakeNext(packets[..], read, write, full);
        var ap := packets[read];
        if room < |ap.data| {
          return ShortBuffer;
        }
        if |ap.data| == 0 && room > 0 {
          return Eof;
        }
        read := read + 1;
        if packets.Length == read {
          read := 0;
        }
        if full {
          full := false;
        }
        return Got(ap);
      }
      if closed {
        return Eof;
      }
      notify := true;
      return Blocked;
    }

    method Close()
      requires Valid()
      modifies this
      ensures Valid() && packets == old(packets) && View() == CloseStep(old(View()))
    {
      if !closed {
        notify := false;
        closed := true;
      }
    }
  }

  datatype Event<Addr> = Write(pkt: seq<byte>, addr: Addr) | Read(room: nat) | CloseIt

  /** A run of the queue: its state, the packets accepted so far and the packets handed out so far. */
  datatype Run<Addr> = Run(q: Queue<Addr>, accepted: seq<AddrPacket<Addr>>, taken: seq<AddrPacket<Addr>>)

  function RunStep<Addr>(r: Run<Addr>, e: Event<Addr>): Run<Addr> {
    match e
    case Write(pkt, addr) =>
      var (q, w) := WriteStep(r.q, pkt, addr);
      Run(q, if w.Wrote? then r.accepted + [AddrPacket(addr, pkt)] else r.accepted, r.taken)
    case Read(room) =>
      var (q, g) := ReadStep(r.q, room);
      Run(q, r.accepted, if g.Got? then r.taken + [g.packet] else r.taken)
    case CloseIt => r.(q := CloseStep(r.q))
  }

  function RunAll<Addr>(events: seq<Event<Addr>>): Run<Addr> {
    if events == [] then Run(Queue([], false, false), [], [])
    else RunStep(RunAll(events[..|events| - 1]), events[|events| - 1])
  }

  /** Every run: what was handed out followed by what is still held is what was accepted, in order; so reads
      return a prefix of the writes. No reader is left waiting beside data or a close. */
  lemma {:induction false} Fifo<Addr>(events: seq<Event<Addr>>)
    ensures var r := RunAll(events); r.accepted == r.taken + r.q.items && NoLostWakeup(r.q)
  {
    if events != [] {
      Fifo(events[..|events| - 1]);
      var r, e := RunAll(events[..|events| - 1]), events[|events| - 1];
      if e.Read? && ReadStep(r.q, e.room).1.Got? {
        assert r.q.items == [r.q.items[0]] + r.q.items[1..];
        assert r.taken + r.q.items == r.taken + [r.q.items[0]] + r.q.items[1..];
      } else if e.Write? && !r.q.closed {
        assert r.taken + (r.q.items + [AddrPacket(e.addr, e.pkt)]) == r.taken + r.q.items + [AddrPacket(e.addr, e.pkt)];
      }
    }
  }

  /** EOF means drained: closed with nothing left. */
  predicate EofMeansDrained<Addr>(q: Queue<Addr>, room: nat) {
    ReadStep(q, room).1.Eof? ==> q.closed && q.items == []
  }

  /** That holds exactly when the packet at the head, if any, is not empty or the reader has no room. */
  lemma EofMeansDrainedIff<Addr>(q: Queue<Addr>, room: nat)
    ensures EofMeansDrained(q, room) <==> !(q.items != [] && q.items[0].data == [] && room > 0)
  {
  }

  /** An empty packet written to an open buffer is answered with EOF, again and again. */
  lemma EmptyPacketReadsEof<Addr>(addr: Addr, room: nat)
    requires room > 0
    ensures var q := WriteStep(Queue([], false, false), [], addr).0;
            !q.closed && ReadStep(q, room) == (q, Eof) && !EofMeansDrained(q, room)
  {
  }

  ghost predicate NonemptyWrites<Addr>(events: seq<Event<Addr>>) {
    forall k :: 0 <= k < |events| && events[k].Write? ==> events[k].pkt != []
  }

  /** In every run whose packets are all nonempty, a read reports EOF only once the buffer is closed and
      everything accepted has been handed out; a read without enough room consumes nothing. */
  lemma EofOnlyAtTheEnd<Addr(!new)>(events: seq<Event<Addr>>, room: nat)
    requires NonemptyWrites(events)
    ensures var r := RunAll(events);
            && (ReadStep(r.q, room).1.Eof? <==> r.q.closed && r.taken == r.accepted)
            && (ReadStep(r.q, room).1.ShortBuffer? ==> ReadStep(r.q, room).0 == r.q)
  {
    Fifo(events);
    AcceptedNonempty(events);
    var r := RunAll(events);
    if r.q.items != [] {
      assert r.accepted[|r.taken|] == r.q.items[0];
    } else {
      assert r.accepted == r.taken;
    }
  }

  lemma {:induction false} AcceptedNonempty<Addr>(events: seq<Event<Addr>>)
    requires NonemptyWrites(events)
    ensures forall k :: 0 <= k < |RunAll(events).accepted| ==> RunAll(events).accepted[k].data != []
  {
    if events != [] {
      AcceptedNonempty(events[..|events| - 1]);
    }
  }
}
