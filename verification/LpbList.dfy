/** The detector's head/tail linked list of VLAN records and the routines that update it in place
    (apps/gwd_eth_loop_detect.c).
    A record's per-port byte arrays are one sequence of ports.  The nodes in list order are a ghost chain,
    and what each routine makes of its records is a function of LpbSystem. */
module LpbList {
  import opened Common
  import opened LpbCycles
  import opened LpbPort
  import opened LpbSystem

  class Node {
    var ctrl: Rec
    var next: Node?

    constructor (ctrl: Rec)
      ensures this.ctrl == ctrl && next == null
    {
      this.ctrl, next := ctrl, null;
    }
  }

  /** A loop over the ports 1..25 that has reached port i. */
  lemma UptoStep(ports: Ports, f: (int, Port) -> Port, i: int)
    requires 1 <= i < NUM_PORTS
    ensures Upto(ports, f, i + 1) == Upto(ports, f, i)[i := f(i, ports[i])]
    ensures Upto(ports, f, i)[i] == ports[i]
  {
  }

  class RecordList {
    var head: Node?
    var tail: Node?
    ghost var chain: seq<Node?>  // the nodes in order and the final null
    ghost var recs: seq<Rec>     // what the nodes hold

    ghost predicate Valid()
      reads this, chain
    {
      && |chain| == |recs| + 1 && chain[|recs|] == null
      && head == chain[0] && tail == (if recs == [] then null else chain[|recs| - 1])
      && (forall i :: 0 <= i < |recs| ==> chain[i] != null && chain[i].next == chain[i + 1] && chain[i].ctrl == recs[i])
      && (forall i, j :: 0 <= i < j < |chain| ==> chain[i] != chain[j])
    }

    constructor ()
      ensures Valid() && recs == []
    {
      head, tail, chain, recs := null, null, [null], [];
    }

    /** getVlanLpbStasNode. */
    method GetNode(vid: U16) returns (node: Node?, ghost at: nat)
      requires Valid()
      ensures at == Find(recs, vid) && node == chain[at]
    {
      node, at := head, 0;
      while node != null
        invariant at <= |recs| && node == chain[at]
        invariant forall j :: 0 <= j < at ==> recs[j].vid != vid
        decreases |recs| - at
      {
        if node.ctrl.vid == vid {
          break;
        }
        node, at := node.next, at + 1;
      }
      ghost var k := Find(recs, vid);
      assert k < |recs| ==> recs[k].vid == vid;
    }

    /** The list part of setPortLpbStatus for a new VLAN: the record goes to the tail. */
    method Append(r: Rec)
      requires Valid()
      modifies this, chain
      ensures Valid() && recs == old(recs) + [r]
      ensures forall i :: 0 <= i < |chain| ==> chain[i] in old(chain) || fresh(chain[i])
    {
      var node := new Node(r);
      if head == null && tail == null {
        head, tail := node, node;
      } else {
        tail.next := node;
        tail := tail.next;
      }
      chain, recs := chain[..|recs|] + [node, null], recs + [r];
    }

    /** deleteLpbStatsNode: at the head, at the tail, or in between. */
    method DeleteNode(vid: U16)
      requires Valid()
      modifies this, chain
      ensures Valid() && recs == Delete(old(recs), vid)
      ensures forall i :: 0 <= i < |chain| ==> chain[i] in old(chain)
    {
      var node: Node?, prev: Node? := head, null;
      ghost var at := 0;
      while node != null
        invariant at <= |recs| && node == chain[at] && prev == (if at == 0 then null else chain[at - 1])
        invariant forall j :: 0 <= j < at ==> recs[j].vid != vid
        invariant Valid() && recs == old(recs) && chain == old(chain)
        decreases |recs| - at
      {
        if node.ctrl.vid == vid {
          FindAt(recs, at);
          Unlink(node, prev, at);
          return;
        }
        prev, node, at := node, node.next, at + 1;
      }
    }

    method Unlink(node: Node, prev: Node?, ghost at: nat)
      requires Valid() && at < |recs| && node == chain[at] && prev == (if at == 0 then null else chain[at - 1])
      modifies this, chain
      ensures Valid() && recs == Without(old(recs), at)
      ensures forall i :: 0 <= i < |chain| ==> chain[i] in old(chain)
    {
      if node == head {
        head := head.next;
        if head == null {
          tail := null;
        }
      } else if node == tail {
        tail := prev;
        prev.next := null;
      } else {
        prev.next := node.next;
      }
      chain, recs := Without(chain, at), Without(recs, at);
    }

    /** freeLpbStatusList. */
    method FreeAll()
      requires Valid()
      modifies this
      ensures Valid() && recs == []
      ensures forall i :: 0 <= i < |chain| ==> chain[i] in old(chain) || fresh(chain[i])
    {
      while head != null
        invariant chain != [] && chain[|chain| - 1] == null && head == chain[0]
        invariant forall i :: 0 <= i < |chain| - 1 ==> chain[i] != null && chain[i].next == chain[i + 1]
        decreases |chain|
      {
        head, chain := head.next, chain[1..];
      }
      tail, chain, recs := null, [null], [];
    }

    /** Writes a node's record and keeps the list's view of it. */
    method Store(node: Node, r: Rec, ghost at: nat)
      requires Valid() && at < |recs| && node == chain[at]
      modifies this`recs, node`ctrl
      ensures Valid() && recs == old(recs)[at := r] && node.ctrl == r
      ensures chain == old(chain)
    {
      node.ctrl := r;
      recs := recs[at := r];
    }

    /** setPortLpbStatus. */
    method SetPortStatus(vid: U16, port: int, shutdown: bool, c: Config)
      requires Valid() && Uni(port)
      modifies this, chain
      ensures Valid() && recs == SetStatus(old(recs), vid, port, shutdown, c)
      ensures forall i :: 0 <= i < |chain| ==> chain[i] in old(chain) || fresh(chain[i])
    {
      var node, at := GetNode(vid);
      if node == null {
        Append(NewRec(vid, port, shutdown));
        return;
      }
      var p := node.ctrl.ports[port];
      p := p.(cnt := 0, mask := true);
      if !shutdown {
        p := p.(down := false);
      } else {
        if (!c.localEnable && p.wake < c.oamMax) || (c.localEnable && p.wake < c.localMax) {
          p := p.(slp := 0);
        } else if p.wake == PARKED {
          p := p.(wake := 0, slp := 0);
        } else {
          p := p.(wake := PARKED);
        }
        p := p.(down := true);
      }
      Store(node, node.ctrl.(ports := node.ctrl.ports[port := p]), at);
    }

    /** clsPortLpbStatus. */
    method ClearPortStatus(vid: U16, ready: set<int>)
      requires Valid()
      modifies this, chain
      ensures Valid() && recs == ClearStatus(old(recs), vid, ready)
      ensures chain == old(chain)
    {
      var node, at := GetNode(vid);
      if node != null {
        var ports := QuietLoop(node.ctrl.ports, ready);
        Store(node, node.ctrl.(ports := ports), at);
      }
    }

    /** lpbDetectWakeupPorts; `woken` are the ports it re-enables. */
    method WakeupPorts(vid: U16, c: Config) returns (woken: set<int>)
      requires Valid()
      modifies this, chain
      ensures Valid() && recs == WakePorts(old(recs), vid, c)
      ensures chain == old(chain)
      ensures woken == Woken(old(recs), vid, c)
    {
      woken := {};
      var node, at := GetNode(vid);
      if node != null {
        var ports: Ports;
        ports, woken := WakeLoop(node.ctrl.ports, c);
        Store(node, node.ctrl.(ports := ports), at);
      }
    }

    /** reportPortsLpbStatus. */
    method ReportPortsStatus(vid: U16, up: set<int>)
      requires Valid()
      modifies this, chain
      ensures Valid() && recs == ReportStatus(old(recs), vid, up)
      ensures forall i :: 0 <= i < |chain| ==> chain[i] in old(chain)
    {
      var node, at := GetNode(vid);
      if node != null {
        var ports, masked := ReportLoop(node.ctrl.ports, up);
        var r := node.ctrl.(ports := ports);
        assert Masked(r) <==> masked > 0;
        Store(node, r, at);
        if masked == 0 {
          DeleteNode(vid);
        }
      }
    }

    /** resetLpbPort when it is not denied. */
    method ResetPorts(sent: set<(U16, int)>)
      requires Valid()
      modifies this, chain
      ensures Valid() && recs == ResetAll(old(recs), sent)
      ensures chain == old(chain)
    {
      var node := head;
      ghost var at := 0;
      while node != null
        invariant Valid() && at <= |recs| == |old(recs)| && node == chain[at] && chain == old(chain)
        invariant forall j :: 0 <= j < |recs| ==>
                    recs[j] == if j < at then ResetRec(old(recs)[j], sent) else old(recs)[j]
        decreases |recs| - at
      {
        var ports := ResetLoop(node.ctrl.vid, node.ctrl.ports, sent);
        assert node.ctrl.(ports := ports) == ResetRec(old(recs)[at], sent);
        Store(node, node.ctrl.(ports := ports), at);
        node, at := node.next, at + 1;
      }
    }

    /** What looking the VLAN over leads to. */
    method LookOver(k: Check, c: Config)
      requires Valid()
      modifies this, chain
      ensures Valid() && recs == LookedOver(old(recs), k, c)
      ensures forall i :: 0 <= i < |chain| ==> chain[i] in old(chain) || fresh(chain[i])
    {
      match k.found
      case NoLoop(ready) => ClearPortStatus(k.vid, ready);
      case Loop(port, shutdown) => SetPortStatus(k.vid, port, shutdown, c);
      case Ignored =>
    }

    /** The VLAN's turn in an interval: wake, look, report. */
    method CheckVlan(k: Check, c: Config) returns (woken: set<int>)
      requires Valid()
      modifies this, chain
      ensures Valid() && PortsOk(CheckActions(k)) && recs == RecsAfter(old(recs), CheckActions(k), c)
      ensures forall i :: 0 <= i < |chain| ==> chain[i] in old(chain) || fresh(chain[i])
    {
      CheckIs(recs, k, c);
      woken := WakeupPorts(k.vid, c);
      LookOver(k, c);
      ReportPortsStatus(k.vid, k.up);
    }

    /** The VLAN loop. */
    method CheckAll(checks: seq<Check>, c: Config)
      requires Valid()
      modifies this, chain
      ensures Valid() && PortsOk(ChecksActions(checks)) && recs == RecsAfter(old(recs), ChecksActions(checks), c)
      ensures forall i :: 0 <= i < |chain| ==> chain[i] in old(chain) || fresh(chain[i])
    {
      var n := 0;
      while n < |checks|
        invariant 0 <= n <= |checks| && Valid()
        invariant PortsOk(ChecksActions(checks[..n])) && recs == RecsAfter(old(recs), ChecksActions(checks[..n]), c)
        invariant forall i :: 0 <= i < |chain| ==> chain[i] in old(chain) || fresh(chain[i])
      {
        ChecksMore(old(recs), checks, n, c);
        var woken := CheckVlan(checks[n], c);
        n := n + 1;
      }
      assert checks[..n] == checks;
    }

    /** ethLoopBackDetectActionCall: with detection enabled, reset the ports unless that is denied, then each VLAN in
        turn; otherwise reset and forget everything. */
    method DetectAction(interval: Interval, c: Config)
      requires Valid()
      modifies this, chain
      ensures Valid() && PortsOk(IntervalActions(interval))
      ensures recs == RecsAfter(old(recs), IntervalActions(interval), c)
      ensures forall i :: 0 <= i < |chain| ==> chain[i] in old(chain) || fresh(chain[i])
    {
      match interval
      case Disabling(sent) =>
        RecsOne(recs, Disable(sent), c);
        ResetPorts(sent);
        FreeAll();
      case Detecting(reset, checks) =>
        ghost var recs0 := recs;
        if reset.Some? {
          ResetPorts(reset.value);
        }
        CheckAll(checks, c);
        DetectingIs(recs0, reset, checks, c);
    }

    /** EthPortLoopBackDetectTask: one call after another. */
    method DetectAll(intervals: seq<Interval>, c: Config)
      requires Valid()
      modifies this, chain
      ensures Valid() && PortsOk(Intervals(intervals)) && recs == RecsAfter(old(recs), Intervals(intervals), c)
      ensures forall i :: 0 <= i < |chain| ==> chain[i] in old(chain) || fresh(chain[i])
      ensures old(recs) == [] ==> forall i, k :: 0 <= i < |recs| && Uni(k) ==> recs[i].ports[k].cnt <= QUIET_LIMIT
    {
      var n := 0;
      while n < |intervals|
        invariant 0 <= n <= |intervals| && Valid()
        invariant PortsOk(Intervals(intervals[..n])) && recs == RecsAfter(old(recs), Intervals(intervals[..n]), c)
        invariant forall i :: 0 <= i < |chain| ==> chain[i] in old(chain) || fresh(chain[i])
      {
        DetectAction(intervals[n], c);
        IntervalsMore(old(recs), intervals, n, c);
        n := n + 1;
      }
      assert intervals[..n] == intervals;
      IntervalsBounded(intervals, c);
    }
  }

  /** The port loop of clsPortLpbStatus. */
  method QuietLoop(p0: Ports, ready: set<int>) returns (ports: Ports)
    ensures ports == Upto(p0, (k, p) => Quiet(p, k in ready), NUM_PORTS)
  {
    ports := p0;
    ghost var f := (k: int, p: Port) => Quiet(p, k in ready);
    for i := 1 to NUM_PORTS
      invariant ports == Upto(p0, f, i)
    {
      UptoStep(p0, f, i);
      if ports[i].mask && !ports[i].down {
        if i in ready {
          ports := ports[i := ports[i].(cnt := (ports[i].cnt + 1) % 0x100)];
        }
      }
    }
  }

  /** One turn of the port loop of lpbDetectWakeupPorts. */
  method WakeOne(p0: Port, c: Config) returns (p: Port, wakes: bool)
    ensures p == WakeUp(p0, c) && wakes == Wakes(p0, c)
  {
    p, wakes := p0, false;
    if p.mask && QUIET_LIMIT <= p.cnt {
      p := p.(mask := false, wake := 0, slp := 0, cnt := 0);
    }
    if p.mask && QUIET_LIMIT >= p.cnt && p.down {
      if (!c.localEnable && p.wake < c.oamMax) || (c.localEnable && p.wake < c.localMax) {
        p := p.(slp := p.slp + 1);
        wakes := p.slp >= (if c.localEnable then c.localWait else c.oamWait);
      }
      if wakes {
        p := p.(down := false, slp := 0, wake := (p.wake + 1) % 0x100);
      }
    }
  }

  method WakeLoop(p0: Ports, c: Config) returns (ports: Ports, woken: set<int>)
    ensures ports == Upto(p0, (k, p) => WakeUp(p, c), NUM_PORTS)
    ensures woken == set k | 1 <= k < NUM_PORTS && Wakes(p0[k], c)
  {
    ports, woken := p0, {};
    ghost var f := (k: int, p: Port) => WakeUp(p, c);
    for i := 1 to NUM_PORTS
      invariant ports == Upto(p0, f, i)
      invariant woken == set k | 1 <= k < i && Wakes(p0[k], c)
    {
      UptoStep(p0, f, i);
      var p, wakes := WakeOne(ports[i], c);
      ports := ports[i := p];
      if wakes {
        woken := woken + {i};
      }
    }
  }

  /** The port loop of reportPortsLpbStatus, counting the masked ports. */
  method ReportLoop(p0: Ports, up: set<int>) returns (ports: Ports, masked: nat)
    ensures ports == Upto(p0, (k, p) => Report(p, k in up), NUM_PORTS)
    ensures masked > 0 <==> exists k :: 1 <= k < NUM_PORTS && ports[k].mask
  {
    ports, masked := p0, 0;
    ghost var f := (k: int, p: Port) => Report(p, k in up);
    for i := 1 to NUM_PORTS
      invariant ports == Upto(p0, f, i)
      invariant masked > 0 <==> exists k :: 1 <= k < i && p0[k].mask
    {
      UptoStep(p0, f, i);
      if ports[i].down && i in up {
        ports := ports[i := ports[i].(down := false)];
      }
      if ports[i].mask {
        masked := masked + 1;
      }
    }
    assert forall k :: 1 <= k < NUM_PORTS ==> ports[k].mask == p0[k].mask;
  }

  /** The port loop of resetLpbPort. */
  method ResetLoop(vid: U16, p0: Ports, sent: set<(U16, int)>) returns (ports: Ports)
    ensures ports == Upto(p0, (k, p) => Reset(p, (vid, k) in sent), NUM_PORTS)
  {
    ports := p0;
    ghost var f := (k: int, p: Port) => Reset(p, (vid, k) in sent);
    for i := 1 to NUM_PORTS
      invariant ports == Upto(p0, f, i)
    {
      UptoStep(p0, f, i);
      if ports[i].down && (vid, i) in sent {
        ports := ports[i := ports[i].(down := false, mask := false, cnt := 0)];
      }
    }
  }
}
