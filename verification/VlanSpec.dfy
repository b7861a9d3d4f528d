/** VLAN membership of a remote switch (apps/rcp_switch_cli.c over apps/rcp_gwd.c).  A command is a plan of
    register writes; a write that fails changes nothing and ends the command, so what a command does is to
    carry out a prefix of its plan. */
module VlanSpec {

  type U16 = x: int | 0 <= x < 0x1_0000

  const MAX_RCP_VLAN_NUM := 32

  /** The 32-entry table (VID and member ports of each entry) and, per port, the entry its PVID names, the
      output tag mode and the insert-PVID switch.  Ports are 1..ports. */
  datatype Raw = Sw(ports: nat, vids: seq<U16>, member: seq<set<nat>>, pvid: seq<nat>, tag: seq<nat>, insert: seq<bool>)
  {
    predicate Ok() {
      && |vids| == |member| == MAX_RCP_VLAN_NUM
      && |pvid| == |tag| == |insert| == ports + 1
      && forall p :: 0 <= p <= ports ==> pvid[p] < MAX_RCP_VLAN_NUM
    }

    predicate Port(p: nat) { 1 <= p <= ports }

    /** RCP_GetVlanPVID. */
    function Pvid(p: nat): U16
      requires Ok() && Port(p)
    {
      vids[pvid[p]]
    }
  }

  type Switch = s: Raw | s.Ok()
    witness Sw(0, seq(32, _ => 0), seq(32, _ => {}), [0], [0], [false])

  datatype Op =
    | AddPort(port: nat, vlan: nat)
    | DelPort(port: nat, vlan: nat)
    | ClearVlan(vlan: nat)
    | SetVid(vlan: nat, vid: U16)
    | SetPvid(port: nat, vid: U16)
    | SetTag(port: nat, mode: nat)
    | SetInsert(port: nat, on: bool)

  /** RCP_GetVlanNumFromVID: the first entry with this VID, or entry 0. */
  function NumFrom(vids: seq<U16>, vid: U16, i: nat): (n: nat)
    requires i <= |vids|
    ensures n == 0 || (i <= n < |vids| && vids[n] == vid)
    ensures (exists j :: i <= j < |vids| && vids[j] == vid) ==> n < |vids| && vids[n] == vid
    ensures n != 0 ==> forall j :: i <= j < n ==> vids[j] != vid
    decreases |vids| - i
  {
    if i == |vids| then 0 else if vids[i] == vid then i else NumFrom(vids, vid, i + 1)
  }

  function Num(sw: Switch, vid: U16): (n: nat)
    ensures n < MAX_RCP_VLAN_NUM
  {
    NumFrom(sw.vids, vid, 0)
  }

  /** RCP_GetVlanExist. */
  predicate Exists(sw: Switch, vid: U16) { vid in sw.vids }

  /** RCP_GetVlanIdleNum: the first free entry from 1 on, and 0 when there is none. */
  function Idle(sw: Switch): (n: nat)
    ensures n < MAX_RCP_VLAN_NUM
  {
    NumFrom(sw.vids, 0, 1)
  }

  function Apply(sw: Switch, op: Op): Switch {
    match op
    case AddPort(p, v) => if v < MAX_RCP_VLAN_NUM then sw.(member := sw.member[v := sw.member[v] + {p}]) else sw
    case DelPort(p, v) => if v < MAX_RCP_VLAN_NUM then sw.(member := sw.member[v := sw.member[v] - {p}]) else sw
    case ClearVlan(v) => if v < MAX_RCP_VLAN_NUM then sw.(member := sw.member[v := {}]) else sw
    case SetVid(v, vid) => if v < MAX_RCP_VLAN_NUM then sw.(vids := sw.vids[v := vid]) else sw
    case SetPvid(p, vid) => if p <= sw.ports then sw.(pvid := sw.pvid[p := Num(sw, vid)]) else sw
    case SetTag(p, mode) => if p <= sw.ports then sw.(tag := sw.tag[p := mode]) else sw
    case SetInsert(p, on) => if p <= sw.ports then sw.(insert := sw.insert[p := on]) else sw
  }

  function Exec(sw: Switch, ops: seq<Op>): Switch
    decreases ops
  {
    if ops == [] then sw else Exec(Apply(sw, ops[0]), ops[1..])
  }

  // ---- the plans ----

  /** The number of VLANs from entry n on that the port is in. */
  function CountFrom(sw: Switch, p: nat, n: nat): nat
    decreases |sw.member| - n
  {
    if n >= MAX_RCP_VLAN_NUM then 0 else (if p in sw.member[n] then 1 else 0) + CountFrom(sw, p, n + 1)
  }

  /** Taking a port out of every other VLAN, from entry i on. */
  function Evict(sw: Switch, p: nat, keep: nat, i: nat): seq<Op>
    decreases |sw.member| - i
  {
    if i >= MAX_RCP_VLAN_NUM then []
    else (if p in sw.member[i] && i != keep then [DelPort(p, i)] else []) + Evict(sw, p, keep, i + 1)
  }

  /** Adding a port untagged, up to the evictions: settle the port, then add it to entry v. */
  function Prepare(vid: U16, p: nat, v: nat, mgt: nat): seq<Op> {
    (if p != mgt then [SetInsert(p, false), SetPvid(p, vid)] else []) + [AddPort(p, v)]
  }

  /** cli_int_vlan_dotlq_port_add for one port. */
  function Join(sw: Switch, vid: U16, p: nat, untagged: bool, mgt: nat): seq<Op> {
    var v := Num(sw, vid);
    if untagged then Prepare(vid, p, v, mgt) + Evict(sw, p, v, 0) + [SetTag(p, 0)]
    else [SetInsert(p, true), AddPort(p, v), SetTag(p, 3)]
  }

  /** What both deletion commands do to a tagged member port before it leaves the VLAN. */
  function RetireTagged(sw: Switch, vid: U16, p: nat): seq<Op>
    requires sw.Port(p)
  {
    var tagnum, pvid := CountFrom(sw, p, 0), sw.Pvid(p);
    (if (pvid == 1 && tagnum == 2) || tagnum == 1 then
       if p != 1 then [SetPvid(p, 1), SetInsert(p, false), SetTag(p, 0), AddPort(p, 0)]
       else if tagnum == 2 then (if p in sw.member[0] then [SetInsert(p, false), SetTag(p, 0)] else [])
       else if p !in sw.member[0] then [SetInsert(p, false), SetTag(p, 0), AddPort(p, 0)] else []
     else [])
    + if pvid == vid then [SetPvid(p, 1)] else []
  }

  /** cli_int_vlan_dotlq_del for one port. */
  function Release(sw: Switch, vid: U16, p: nat): seq<Op>
    requires sw.Port(p)
  {
    if p !in sw.member[Num(sw, vid)] then []
    else if sw.tag[p] == 0 then [SetPvid(p, 1), AddPort(p, 0)]
    else RetireTagged(sw, vid, p)
  }

  /** cli_int_vlan_dotlq_port_del for one port of the VLAN. */
  function Leave(sw: Switch, vid: U16, p: nat): seq<Op>
    requires sw.Port(p)
  {
    (if sw.tag[p] == 0 then [SetPvid(p, 1), SetTag(p, 0), AddPort(p, 0)] else RetireTagged(sw, vid, p))
    + [DelPort(p, Num(sw, vid))]
  }

  function JoinAll(sw: Switch, vid: U16, ps: seq<nat>, untagged: bool, mgt: nat): seq<Op>
    decreases ps
  {
    if ps == [] || !sw.Port(ps[0]) then []
    else
      var ops := Join(sw, vid, ps[0], untagged, mgt);
      ops + JoinAll(Exec(sw, ops), vid, ps[1..], untagged, mgt)
  }

  function LeaveAll(sw: Switch, vid: U16, ps: seq<nat>): seq<Op>
    decreases ps
  {
    if ps == [] || !sw.Port(ps[0]) || ps[0] !in sw.member[Num(sw, vid)] then []
    else
      var ops := Leave(sw, vid, ps[0]);
      ops + LeaveAll(Exec(sw, ops), vid, ps[1..])
  }

  function ReleaseFrom(sw: Switch, vid: U16, p: nat, ports: nat): seq<Op>
    requires p >= 1 && sw.ports == ports
    decreases ports + 1 - p
  {
    if p > ports then []
    else
      var ops := Release(sw, vid, p);
      ExecKeepsPorts(sw, ops);
      ops + ReleaseFrom(Exec(sw, ops), vid, p + 1, ports)
  }

  lemma {:induction false} ExecKeepsPorts(sw: Switch, ops: seq<Op>)
    ensures Exec(sw, ops).ports == sw.ports
    decreases ops
  {
    if ops != [] {
      ExecKeepsPorts(Apply(sw, ops[0]), ops[1..]);
    }
  }

  datatype Command =
    | Add(vid: U16)
    | Del(vid: U16)
    | PortAdd(vid: U16, list: seq<nat>, untagged: bool)
    | PortDel(vid: U16, list: seq<nat>)

  /** The writes a command makes, in order, if none fails. */
  function Plan(sw: Switch, c: Command, mgt: nat): seq<Op> {
    match c
    case Add(vid) => if Exists(sw, vid) then [] else [SetVid(Idle(sw), vid)]
    case Del(vid) =>
      if !Exists(sw, vid) then []
      else
        var v := Num(sw, vid);
        ReleaseFrom(sw, vid, 1, sw.ports) + [ClearVlan(v), SetVid(v, 0)]
    case PortAdd(vid, ps, untagged) => if !Exists(sw, vid) then [] else JoinAll(sw, vid, ps, untagged, mgt)
    case PortDel(vid, ps) => if !Exists(sw, vid) then [] else LeaveAll(sw, vid, ps)
  }
}
