/** The receiver's linked list as apps/oam.c keeps it: a sentinel head, nodes added in front, and one
    payload buffer per node that fragments are copied into.
    The nodes in list order are a ghost chain, and each routine's effect on their records is the function of
    OamReceiver or the step of OamRuns that it carries out. */
module OamMessageList {
  import opened Common
  import opened OamFrames
  import opened OamReceiver
  import Runs = OamRuns

  /** memcpy of `bytes` to position `start` of a buffer. */
  function Copied(buffer: seq<Byte>, start: nat, bytes: seq<Byte>): seq<Byte>
    requires start + |bytes| <= |buffer|
  {
    buffer[..start] + bytes + buffer[start + |bytes|..]
  }

  class Node {
    var next: Node?
    var opcode: Byte
    var serial: U32
    var session: seq<Byte>
    var wholePktLen: nat
    var revPktLen: nat
    var payload: seq<Byte>  // the buffer, one byte longer than the message

    /** GwOamMessageListNodeNew. */
    constructor (messLen: U16)
      ensures |payload| == messLen + 1 && next == null && revPktLen == 0
    {
      next, opcode, serial, session, wholePktLen, revPktLen := null, 0, 0, [], 0, 0;
      payload := seq(messLen + 1, _ => 0);
    }

    ghost predicate Holds(r: Rec)
      reads this
    {
      && |payload| == wholePktLen + 1 && revPktLen <= wholePktLen
      && r == Rec(opcode, serial, session, wholePktLen, payload[..revPktLen])
    }
  }

  class MessageList {
    const head: Node
    ghost var chain: seq<Node?>  // the sentinel, the listed nodes in order, and the final null
    ghost var recs: seq<Rec>     // what the listed nodes hold

    ghost predicate Valid()
      reads this, chain
    {
      && |chain| == |recs| + 2 && chain[0] == head && chain[|recs| + 1] == null
      && (forall i :: 0 <= i <= |recs| ==> chain[i] != null && chain[i].next == chain[i + 1])
      && (forall i :: 0 <= i < |recs| ==> chain[i + 1].Holds(recs[i]))
      && (forall i, j :: 0 <= i < j < |chain| ==> chain[i] != chain[j])
    }

    ghost predicate Listed(node: Node)
      reads this
    {
      node in chain && node != head
    }

    constructor ()
      ensures Valid() && fresh(head) && recs == []
    {
      var h := new Node(0);
      head := h;
      chain, recs := [h, null], [];
    }

    method GetNode(serial: U32) returns (node: Node?, ghost at: nat)
      requires Valid()
      ensures at == IndexOf(recs, serial) && node == chain[at + 1]
    {
      node, at := head.next, 0;
      while node != null
        invariant at <= |recs| && node == chain[at + 1]
        invariant forall j :: 0 <= j < at ==> recs[j].serial != serial
        decreases |recs| - at
      {
        assert node.Holds(recs[at]);
        if serial == node.serial {
          break;
        }
        node, at := node.next, at + 1;
      }
    }

    method NodeAdd(node: Node, ghost r: Rec)
      requires Valid() && node !in chain && node.Holds(r)
      modifies this, head, node
      ensures Valid() && recs == [r] + old(recs) && chain == [head, node] + old(chain)[1..]
    {
      node.next := head.next;
      head.next := node;
      chain, recs := [head, node] + chain[1..], [r] + recs;
    }

    /** Takes the node behind `prev` out of the chain. */
    method Unlink(prev: Node, node: Node, ghost at: nat)
      requires Valid() && at < |recs| && prev == chain[at] && node == chain[at + 1]
      modifies this, prev, node
      ensures Valid() && recs == Without(old(recs), at) && chain == Without(old(chain), at + 1)
    {
      prev.next := node.next;
      node.next := null;
      chain, recs := Without(chain, at + 1), Without(recs, at);
    }

    /** GwOamMessageListNodeRem: unlinks the node if it is in the list. */
    method NodeRem(node: Node) returns (found: bool, ghost at: nat)
      requires Valid() && node != head
      modifies this, chain
      ensures Valid()
      ensures found <==> old(Listed(node))
      ensures !found ==> recs == old(recs) && chain == old(chain)
      ensures found ==> at < |old(recs)| && node == old(chain)[at + 1]
                        && recs == Without(old(recs), at) && chain == Without(old(chain), at + 1)
    {
      var prev := head;
      at := 0;
      while prev.next != null
        invariant at <= |recs| && prev == chain[at]
        invariant node !in chain[..at + 1]
        decreases |recs| - at
      {
        if node == prev.next {
          assert chain[at] in chain && chain[at + 1] in chain;
          Unlink(prev, node, at);
          return true, at;
        }
        prev, at := prev.next, at + 1;
      }
      assert chain[at].next == chain[at + 1] == chain[|recs| + 1];
      assert chain == chain[..at + 1] + [null];
      return false, at;
    }

    /** GwOamMessageListNodeFree: a listed node is unlinked, another leaves the list as it is (releasing the memory has
        no further effect here). */
    method NodeFree(node: Node)
      requires Valid() && node != head && Distinct(recs)
      modifies this, chain
      ensures Valid() && recs == if old(Listed(node)) then Remove(old(recs), old(node.serial)) else old(recs)
      ensures forall i :: 0 <= i < |chain| ==> chain[i] in old(chain)
    {
      var found, at := NodeRem(node);
      if found {
        assert old(chain[at + 1].Holds(recs[at]));
        assert IndexOf(old(recs), old(recs)[at].serial) == at;
      }
    }

    /** OamMessageRecevTimeOut. */
    method TimeOut(serial: U32)
      requires Valid() && Distinct(recs)
      modifies this, chain
      ensures Valid() && recs == Remove(old(recs), serial)
      ensures forall i :: 0 <= i < |chain| ==> chain[i] in old(chain)
    {
      var node, at := GetNode(serial);
      if node != null {
        assert node.Holds(recs[at]);
        NodeFree(node);
      }
    }

    /** A node for a first fragment, put in front of the list. */
    method NewNode(f: Frame) returns (node: Node)
      requires Valid() && f.offset == 0 && |f.payload| <= f.whole
      modifies this, head
      ensures Valid() && fresh(node)
      ensures recs == [FromFrame(f)] + old(recs) && chain == [head, node] + old(chain)[1..]
    {
      node := new Node(f.whole);
      node.opcode, node.serial, node.session := f.opcode, f.serial, f.session;
      node.revPktLen, node.wholePktLen := |f.payload|, f.whole;
      node.payload := Copied(node.payload, 0, f.payload);
      assert node.Holds(FromFrame(f));
      NodeAdd(node, FromFrame(f));
    }

    /** Copies a fragment behind what this node already holds. */
    method Extend(node: Node, f: Frame, ghost at: nat)
      requires Valid() && at < |recs| && chain[at + 1] == node
      requires |recs[at].data| + |f.payload| <= recs[at].whole
      modifies this, node
      ensures Valid() && chain == old(chain)
      ensures recs == old(recs)[at := Append(old(recs)[at], f)]
    {
      assert node.Holds(recs[at]);
      node.payload := Copied(node.payload, node.revPktLen, f.payload);
      node.revPktLen := node.revPktLen + |f.payload|;
      recs := recs[at := Append(recs[at], f)];
      assert node.Holds(recs[at]);
    }

    /** CommOnuMsgReveive; `message` is what it stores through ppMessage. */
    method Receive(f: Frame) returns (code: Code, message: Node?)
      requires Valid() && CopyFits(Table(recs), f)
      modifies this, chain
      ensures Valid()
      ensures forall i :: 0 <= i < |chain| ==> chain[i] in old(chain) || fresh(chain[i])
      ensures var o := OamReceiver.Receive(old(recs), f);
              && recs == o.recs && code == o.code
              && (message == null <==> o.handed == [])
              && (message != null ==> Listed(message) && message.Holds(o.handed[0]))
    {
      message := null;
      if !f.gwOui {
        return RecvErr, null;
      }
      if !RecvOpcode(f.opcode) {
        return OpcodeErr, null;
      }
      if OAM_DATA_LEN < f.whole {
        return TooLong, null;
      }
      var node, at := GetNode(f.serial);
      Lookup(recs, f.serial);
      if f.offset == 0 {
        if node != null {
          return RecvErr, null;
        }
        node := NewNode(f);
        if f.whole == |f.payload| {
          assert node.Holds(recs[0]);
          return RecvOk, node;
        }
        return RecvErr, null;
      }
      if node == null {
        return RecvErr, null;
      }
      assert node.Holds(recs[at]);
      if node.revPktLen + |f.payload| > node.wholePktLen || node.revPktLen != f.offset {
        return RecvErr, null;
      }
      Extend(node, f, at);
      assert node.Holds(recs[at]);
      if node.revPktLen == node.wholePktLen {
        return RecvOk, node;
      }
      return NotComplete, null;
    }

    /** What Gwd_Oam_Handle does with a complete message. */
    method HandOn(message: Node, ghost r: Rec) returns (queued: seq<U32>)
      requires Valid() && Distinct(recs) && Listed(message) && message.Holds(r)
      modifies this, chain
      ensures Valid() && Distinct(recs)
      ensures Runs.State(recs, queued, [r]) == Runs.Dispatch(Runs.State(old(recs), [], []), r)
      ensures forall i :: 0 <= i < |chain| ==> chain[i] in old(chain)
    {
      if message.opcode == Runs.CLI_REQ_TRANSMIT {
        return [message.serial];
      }
      RemoveDistinct(recs, r.serial);
      NodeFree(message);
      return [];
    }

    /** Gwd_Oam_Handle: receive, hand a complete message on, and free it unless the CLI thread will. */
    method Handle(f: Frame) returns (ghost delivered: seq<Rec>, queued: seq<U32>)
      requires Valid() && Distinct(recs) && CopyFits(Table(recs), f)
      modifies this, chain
      ensures Valid() && Distinct(recs)
      ensures Runs.State(recs, queued, delivered) == Runs.Step(Runs.State(old(recs), [], []), Runs.Arrive(f))
      ensures forall i :: 0 <= i < |chain| ==> chain[i] in old(chain) || fresh(chain[i])
    {
      delivered, queued := [], [];
      ReceiveOnTable(recs, f);
      CodeIff(recs, f);
      ghost var o := OamReceiver.Receive(recs, f);
      var code, message := Receive(f);
      if code != RecvOk {
        return;
      }
      if message == null {
        return;
      }
      delivered := o.handed;
      queued := HandOn(message, o.handed[0]);
    }

    /** One event: a frame arrives, a timer strikes, or the CLI thread serves the first message queued for it. */
    method Turn(e: Runs.Event, queue0: seq<U32>, ghost delivered0: seq<Rec>)
      returns (queue: seq<U32>, ghost delivered: seq<Rec>)
      requires Valid() && Distinct(recs) && (e.Arrive? ==> CopyFits(Table(recs), e.frame))
      modifies this, chain
      ensures Valid() && Distinct(recs)
      ensures Runs.State(recs, queue, delivered) == Runs.Step(Runs.State(old(recs), queue0, delivered0), e)
      ensures forall i :: 0 <= i < |chain| ==> chain[i] in old(chain) || fresh(chain[i])
    {
      queue, delivered := queue0, delivered0;
      match e
      case Arrive(f) =>
        Runs.ArriveFrom(recs, queue, delivered, f);
        var queued;
        ghost var got;
        got, queued := Handle(f);
        queue, delivered := queue + queued, delivered + got;
      case Expire(s) =>
        RemoveDistinct(recs, s);
        TimeOut(s);
      case Serve =>
        if queue != [] {
          RemoveDistinct(recs, queue[0]);
          TimeOut(queue[0]);
          queue := queue[1..];
        }
    }

    /** Any events, one after another, are a run of the receiver. */
    method Process(es: seq<Runs.Event>, queue0: seq<U32>) returns (queue: seq<U32>, ghost delivered: seq<Rec>)
      requires Valid() && Distinct(recs) && Runs.AllFit(Runs.State(recs, queue0, []), es)
      modifies this, chain
      ensures Valid() && Distinct(recs)
      ensures Runs.State(recs, queue, delivered) == Runs.Run(Runs.State(old(recs), queue0, []), es)
      ensures forall i :: 0 <= i < |chain| ==> chain[i] in old(chain) || fresh(chain[i])
    {
      queue, delivered := queue0, [];
      var n := 0;
      ghost var st0 := Runs.State(recs, queue0, []);
      while n < |es|
        invariant 0 <= n <= |es| && Valid() && Distinct(recs)
        invariant Runs.State(recs, queue, delivered) == Runs.Run(st0, es[..n])
        invariant forall i :: 0 <= i < |chain| ==> chain[i] in old(chain) || fresh(chain[i])
      {
        assert Runs.FitsAt(st0, es, n);
        assert es[..n + 1][..n] == es[..n];
        queue, delivered := Turn(es[n], queue, delivered);
        n := n + 1;
      }
      assert es[..n] == es;
    }

    /** So the list puts together what senders have cut: with the pieces of each message in order, interleaved in any
        way and not timed out, each message is handed up once, byte for byte, and nothing else is. */
    method Rebuild(es: seq<Runs.Event>, ghost msgs: map<U32, Message>)
      returns (queue: seq<U32>, ghost delivered: seq<Rec>)
      requires Valid() && recs == [] && forall s: U32 :: Runs.Expire(s) !in es
      requires forall s :: s in msgs ==>
                 msgs[s].serial == s && |msgs[s].data| <= MAX_MESSAGE && RecvOpcode(msgs[s].opcode)
      requires forall s: U32 :: Runs.Arrivals(es, s) == if s in msgs then Fragments(msgs[s]) else []
      modifies this, chain
      ensures Valid() && Distinct(recs)
      ensures forall s: U32 :: Runs.DeliveredOf(delivered, s) == if s in msgs then [Runs.Whole(msgs[s])] else []
    {
      Runs.PiecesFit(es, msgs);
      queue, delivered := Process(es, []);
      Runs.RoundTrip(es, msgs);
    }
  }
}
