/** The packet queue of fftools/ffplay.c: a singly linked list shared by the reader and one decoder. */
module PacketQueues {
  import opened Wrappers

  /** FlushPacket is the distinguished `flush_pkt`; NullPacket is the drain packet, whose data is NULL. */
  datatype Packet = FlushPacket | NullPacket | DataPacket(id: int, bytes: nat, length: int)
  {
    function Size(): nat { if DataPacket? then bytes else 0 }
    function Duration(): int { if DataPacket? then length else 0 }
  }

  datatype Entry = Entry(pkt: Packet, serial: int)

  /** The queue as its clients see it: a FIFO of stamped packets. */
  datatype QueueState = QueueState(entries: seq<Entry>, serial: int, aborted: bool)

  const INITIAL_QUEUE := QueueState([], 0, true)

  function Put(q: QueueState, pkt: Packet): QueueState {
    if q.aborted then q
    else
      var serial := if pkt.FlushPacket? then q.serial + 1 else q.serial;
      q.(entries := q.entries + [Entry(pkt, serial)], serial := serial)
  }

  function Flush(q: QueueState): QueueState { q.(entries := []) }

  function Abort(q: QueueState): QueueState { q.(aborted := true) }

  function Start(q: QueueState): QueueState { Put(q.(aborted := false), FlushPacket) }

  function TotalSize(entries: seq<Entry>, overhead: nat): nat {
    if entries == [] then 0 else entries[0].pkt.Size() + overhead + TotalSize(entries[1..], overhead)
  }

  function TotalDuration(entries: seq<Entry>): int {
    if entries == [] then 0 else entries[0].pkt.Duration() + TotalDuration(entries[1..])
  }

  lemma {:induction false} TotalsAppend(entries: seq<Entry>, e: Entry, overhead: nat)
    ensures TotalSize(entries + [e], overhead) == TotalSize(entries, overhead) + e.pkt.Size() + overhead
    ensures TotalDuration(entries + [e]) == TotalDuration(entries) + e.pkt.Duration()
  {
    if entries == [] {
      assert entries + [e] == [e];
    } else {
      assert (entries + [e])[1..] == entries[1..] + [e];
      TotalsAppend(entries[1..], e, overhead);
    }
  }

  class PacketNode {
    const pkt: Packet
    const serial: int
    var next: PacketNode?

    constructor (pkt: Packet, serial: int)
      ensures this.pkt == pkt && this.serial == serial && next == null
    {
      this.pkt, this.serial, next := pkt, serial, null;
    }
  }

  ghost function EntriesOf(nodes: seq<PacketNode>): (entries: seq<Entry>)
    ensures |entries| == |nodes|
    ensures forall i :: 0 <= i < |nodes| ==> entries[i] == Entry(nodes[i].pkt, nodes[i].serial)
  {
    seq(|nodes|, i requires 0 <= i < |nodes| => Entry(nodes[i].pkt, nodes[i].serial))
  }

  lemma EntriesAppend(nodes: seq<PacketNode>, n: PacketNode)
    ensures EntriesOf(nodes + [n]) == EntriesOf(nodes) + [Entry(n.pkt, n.serial)]
  {
  }

  class PacketQueue {
    var firstPkt: PacketNode?
    var lastPkt: PacketNode?
    var nbPackets: int
    var size: int
    var duration: int
    var abortRequest: bool
    var serial: int
    const overhead: nat  // sizeof(MyAVPacketList)
    ghost var nodes: seq<PacketNode>

    ghost predicate Linked()
      reads this, nodes
    {
      && (forall i, j :: 0 <= i < j < |nodes| ==> nodes[i] != nodes[j])
      && (forall i :: 0 <= i < |nodes| - 1 ==> nodes[i].next == nodes[i + 1])
      && (if nodes == [] then firstPkt == lastPkt == null
          else firstPkt == nodes[0] && lastPkt == nodes[|nodes| - 1] && lastPkt.next == null)
    }

    ghost function View(): QueueState
      reads this
    {
      QueueState(EntriesOf(nodes), serial, abortRequest)
    }

    /** The list is well linked and the three counters are exact sums over it. */
    ghost predicate Valid()
      reads this, nodes
    {
      && Linked()
      && nbPackets == |nodes|
      && size == TotalSize(EntriesOf(nodes), overhead)
      && duration == TotalDuration(EntriesOf(nodes))
    }

    constructor Init(overhead: nat)
      ensures Valid() && nodes == [] && View() == INITIAL_QUEUE
    {
      firstPkt, lastPkt := null, null;
      nbPackets, size, duration, serial, abortRequest := 0, 0, 0, 0, true;
      this.overhead := overhead;
      nodes := [];
    }

    /** The part of packet_queue_put_private that links the new node. */
    method Link(pkt1: PacketNode)
      requires Linked() && pkt1 !in nodes && pkt1.next == null
      modifies this`firstPkt, this`lastPkt, this`nodes, if lastPkt == null then {} else {lastPkt}
      ensures Linked() && nodes == old(nodes) + [pkt1]
    {
      if lastPkt == null {
        firstPkt := pkt1;
      } else {
        lastPkt.next := pkt1;
      }
      lastPkt := pkt1;
      nodes := nodes + [pkt1];
    }

    /** Links and counts the new node. */
    method Append(pkt1: PacketNode)
      requires Valid() && pkt1 !in nodes && pkt1.next == null
      modifies this`firstPkt, this`lastPkt, this`nodes, this`nbPackets, this`size, this`duration
      modifies if lastPkt == null then {} else {lastPkt}
      ensures Valid() && nodes == old(nodes) + [pkt1]
      ensures EntriesOf(nodes) == old(EntriesOf(nodes)) + [Entry(pkt1.pkt, pkt1.serial)]
    {
      EntriesAppend(nodes, pkt1);
      TotalsAppend(EntriesOf(nodes), Entry(pkt1.pkt, pkt1.serial), overhead);
      Link(pkt1);
      nbPackets := nbPackets + 1;
      size := size + pkt1.pkt.Size() + overhead;
      duration := duration + pkt1.pkt.Duration();
    }

    method PutPrivate(pkt: Packet) returns (ret: int)
      requires Valid()
      modifies this, nodes
      ensures Valid() && forall n :: n in nodes ==> n in old(nodes) || fresh(n)
      ensures View() == Put(old(View()), pkt)
      ensures ret == if old(abortRequest) then -1 else 0
    {
      if abortRequest {
        return -1;
      }
      var pkt1 := new PacketNode(pkt, if pkt.FlushPacket? then serial + 1 else serial);
      if pkt.FlushPacket? {
        serial := serial + 1;
      }
      Append(pkt1);
      return 0;
    }

    /** Frees the nodes one by one, following the links as they stood before each node was freed. */
    method FlushQueue()
      requires Valid()
      modifies this
      ensures Valid() && nodes == []
      ensures View() == Flush(old(View()))
    {
      var pkt := firstPkt;
      ghost var freed := 0;
      while pkt != null
        invariant unchanged(this) && Valid()
        invariant 0 <= freed <= |nodes|
        invariant pkt == if freed < |nodes| then nodes[freed] else null
        decreases |nodes| - freed
      {
        pkt := pkt.next;
        freed := freed + 1;
      }
      lastPkt := null;
      firstPkt := null;
      nbPackets := 0;
      size := 0;
      duration := 0;
      nodes := [];
    }

    method AbortQueue()
      requires Valid()
      modifies this`abortRequest
      ensures Valid() && View() == Abort(old(View()))
    {
      abortRequest := true;
    }

    method StartQueue()
      requires Valid()
      modifies this, nodes
      ensures Valid() && forall n :: n in nodes ==> n in old(nodes) || fresh(n)
      ensures View() == Start(old(View()))
    {
      abortRequest := false;
      var _ := PutPrivate(FlushPacket);
    }

    /** One pass of the waiting loop: 1 with the oldest packet, -1 when aborted, 0 when the caller would wait. */
    method TryGet() returns (ret: int, e: Option<Entry>)
      requires Valid()
      modifies this
      ensures Valid()
      ensures old(abortRequest) ==> ret == -1 && e == None && View() == old(View())
      ensures !old(abortRequest) && old(nodes) == [] ==> ret == 0 && e == None && View() == old(View())
      ensures !old(abortRequest) && old(nodes) != [] ==>
                && ret == 1 && e == Some(old(View().entries[0]))
                && View() == old(View()).(entries := old(View()).entries[1..])
    {
      if abortRequest {
        return -1, None;
      }
      var pkt1 := firstPkt;
      if pkt1 == null {
        return 0, None;
      }
      firstPkt := pkt1.next;
      if firstPkt == null {
        lastPkt := null;
      }
      nbPackets := nbPackets - 1;
      size := size - (pkt1.pkt.Size() + overhead);
      duration := duration - pkt1.pkt.Duration();
      ghost var before := EntriesOf(nodes);
      nodes := nodes[1..];
      assert EntriesOf(nodes) == before[1..];
      return 1, Some(Entry(pkt1.pkt, pkt1.serial));
    }
  }
}
