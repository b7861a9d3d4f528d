/** What a port-add and a port-delete that meet no failed write do to each port, and that the second undoes the
    first (apps/rcp_switch_cli.c). */
module VlanMoves {
  import opened VlanSpec
  import opened VlanRuns

  predicate AllPortsOf(sw: Switch, ps: seq<nat>) { forall p :: p in ps ==> sw.Port(p) }

  predicate Distinct(ps: seq<nat>) { forall i, j :: 0 <= i < j < |ps| ==> ps[i] != ps[j] }

  /** The port is in entry v and no other, and its frames leave untagged. */
  ghost predicate OnlyIn(sw: Switch, q: nat, v: nat) {
    && sw.Port(q)
    && (forall n: nat :: In(sw, q, n) <==> n == v)
    && sw.tag[q] == 0
  }

  /** A successful untagged port-add puts each listed port in exactly that VLAN and touches no other port. */
  lemma {:induction false} PortAddExact(sw: Switch, vid: U16, ps: seq<nat>, mgt: nat, q: nat)
    requires AllPortsOf(sw, ps)
    ensures var s := Exec(sw, JoinAll(sw, vid, ps, true, mgt));
      && s.ports == sw.ports && s.vids == sw.vids
      && if q in ps then
           && OnlyIn(s, q, Num(sw, vid))
           && if q == mgt then s.pvid[q] == sw.pvid[q] && s.insert[q] == sw.insert[q]
              else s.pvid[q] == Num(sw, vid) && !s.insert[q]
         else SamePort(s, sw, q)
    decreases ps
  {
    if ps != [] {
      var p := ps[0];
      var ops := Join(sw, vid, p, true, mgt);
      var s1 := Exec(sw, ops);
      JoinUntagged(sw, vid, p, mgt);
      assert forall r: nat :: r in ps[1..] ==> r in ps;
      PortAddExact(s1, vid, ps[1..], mgt, q);
      ExecJoin(sw, ops, JoinAll(s1, vid, ps[1..], true, mgt));
      if q != p {
        JoinAbout(sw, vid, p, true, mgt);
        AboutExec(sw, ops, p, q);
      }
    }
  }

  /** An untagged member that leaves a VLAN is back in the default VLAN. */
  lemma LeaveUntagged(sw: Switch, vid: U16, p: nat)
    requires sw.Port(p) && sw.vids[0] == 1 && vid != 1 && Exists(sw, vid) && sw.tag[p] == 0
    ensures var s, v := Exec(sw, Leave(sw, vid, p)), Num(sw, vid);
      && s.ports == sw.ports && s.vids == sw.vids
      && (forall n: nat :: In(s, p, n) <==> n == 0 || (n != v && In(sw, p, n)))
      && s.pvid[p] == 0 && s.tag[p] == 0 && s.insert[p] == sw.insert[p]
    ensures forall op :: op in Leave(sw, vid, p) ==> About(op, p)
  {
    var v := Num(sw, vid);
    var ops := Leave(sw, vid, p);
    assert ops == [SetPvid(p, 1), SetTag(p, 0), AddPort(p, 0), DelPort(p, v)];
    var s1 := Apply(sw, ops[0]);
    var s2 := Apply(s1, ops[1]);
    var s3 := Apply(s2, ops[2]);
    var s4 := Apply(s3, ops[3]);
    assert Exec(s2, [ops[2], ops[3]]) == Exec(s3, [ops[3]]) == s4;
    assert Exec(sw, ops) == Exec(s1, [ops[1], ops[2], ops[3]]) == Exec(s2, [ops[2], ops[3]]);
  }

  /** What the switch holds about a port. */
  datatype View = View(vlans: set<nat>, pvid: nat, tag: nat, insert: bool)

  function Vlans(sw: Switch, q: nat): set<nat> { set n: nat | n < MAX_RCP_VLAN_NUM && q in sw.member[n] }

  function ViewOf(sw: Switch, q: nat): View
    requires sw.Port(q)
  {
    View(Vlans(sw, q), sw.pvid[q], sw.tag[q], sw.insert[q])
  }

  /** How a port-delete from the VLAN in entry v leaves a member port.  A tagged one that is in no other VLAN goes back
      to the default VLAN untagged, and so does one with the default PVID that is in one other, except port 1; what
      else is in other VLANs just leaves. */
  function Left(w: View, p: nat, vid: U16, v: nat, pvid: U16): View {
    var others := w.vlans - {v};
    if w.tag == 0 then View(others + {0}, 0, 0, w.insert)
    else if others == {} then View({0}, if p != 1 || pvid == vid then 0 else w.pvid, 0, false)
    else if pvid == 1 && |others| == 1 && p != 1 then View(others + {0}, 0, 0, false)
    else if pvid == 1 && |others| == 1 && 0 in others then View(others, w.pvid, 0, false)
    else View(others, if pvid == vid then 0 else w.pvid, w.tag, w.insert)
  }

  function VlansFrom(sw: Switch, p: nat, n: nat): set<nat> {
    set m: nat | n <= m < MAX_RCP_VLAN_NUM && p in sw.member[m]
  }

  lemma VlansStep(sw: Switch, p: nat, n: nat)
    requires n < MAX_RCP_VLAN_NUM
    ensures n !in VlansFrom(sw, p, n + 1)
    ensures VlansFrom(sw, p, n) == if p in sw.member[n] then {n} + VlansFrom(sw, p, n + 1) else VlansFrom(sw, p, n + 1)
  {
  }

  lemma {:induction false} CountIsSize(sw: Switch, p: nat, n: nat)
    ensures CountFrom(sw, p, n) == |VlansFrom(sw, p, n)|
    decreases MAX_RCP_VLAN_NUM - n
  {
    if n < MAX_RCP_VLAN_NUM {
      CountIsSize(sw, p, n + 1);
      VlansStep(sw, p, n);
    }
  }

  /** The writes about one port, on what the switch holds about it. */
  function ViewApply(w: View, op: Op, sw: Switch): View {
    match op
    case AddPort(_, n) => if n < MAX_RCP_VLAN_NUM then w.(vlans := w.vlans + {n}) else w
    case DelPort(_, n) => w.(vlans := w.vlans - {n})
    case SetPvid(_, x) => w.(pvid := Num(sw, x))
    case SetTag(_, mode) => w.(tag := mode)
    case SetInsert(_, on) => w.(insert := on)
    case _ => w
  }

  lemma ViewStep(sw: Switch, op: Op, p: nat)
    requires sw.Port(p) && About(op, p)
    ensures var s := Apply(sw, op);
      s.vids == sw.vids && s.ports == sw.ports && ViewOf(s, p) == ViewApply(ViewOf(sw, p), op, sw)
  {
    var s := Apply(sw, op);
    if op.AddPort? && op.vlan < MAX_RCP_VLAN_NUM {
      assert Vlans(s, p) == Vlans(sw, p) + {op.vlan};
    } else if op.DelPort? {
      assert Vlans(s, p) == Vlans(sw, p) - {op.vlan};
    } else {
      assert Vlans(s, p) == Vlans(sw, p);
    }
  }

  /** Writes one after another, on the view. */
  function ViewExec(w: View, ops: seq<Op>, sw: Switch): View
    decreases ops
  {
    if ops == [] then w else ViewExec(ViewApply(w, ops[0], sw), ops[1..], sw)
  }

  lemma {:induction false} ViewRun(sw: Switch, ops: seq<Op>, p: nat, base: Switch)
    requires sw.Port(p) && base.vids == sw.vids && forall op :: op in ops ==> About(op, p)
    ensures var s := Exec(sw, ops);
      s.vids == sw.vids && s.ports == sw.ports && ViewOf(s, p) == ViewExec(ViewOf(sw, p), ops, base)
    decreases ops
  {
    if ops != [] {
      assert About(ops[0], p);
      ViewStep(sw, ops[0], p);
      ViewRun(Apply(sw, ops[0]), ops[1..], p, base);
    }
  }

  lemma {:induction false} ViewJoin(w: View, a: seq<Op>, b: seq<Op>, sw: Switch)
    ensures ViewExec(w, a + b, sw) == ViewExec(ViewExec(w, a, sw), b, sw)
    decreases a
  {
    if a == [] {
      assert a + b == b;
    } else {
      assert (a + b)[1..] == a[1..] + b;
      ViewJoin(ViewApply(w, a[0], sw), a[1..], b, sw);
    }
  }

  lemma ViewOne(w: View, op: Op, sw: Switch)
    ensures ViewExec(w, [op], sw) == ViewApply(w, op, sw)
  {
    assert [op][1..] == [];
  }

  /** The settling of a tagged member that is in these other VLANs. */
  function SettleOps(p: nat, others: set<nat>, pvid: U16): seq<Op> {
    if (pvid == 1 && |others| == 1) || others == {} then
      if p != 1 then [SetPvid(p, 1), SetInsert(p, false), SetTag(p, 0), AddPort(p, 0)]
      else if |others| == 1 then (if 0 in others then [SetInsert(p, false), SetTag(p, 0)] else [])
      else [SetInsert(p, false), SetTag(p, 0), AddPort(p, 0)]
    else []
  }

  lemma RetireIs(sw: Switch, vid: U16, p: nat, v: nat)
    requires sw.Port(p) && v != 0 && In(sw, p, v)
    ensures var pv := sw.Pvid(p);
      RetireTagged(sw, vid, p) == SettleOps(p, Vlans(sw, p) - {v}, pv) + if pv == vid then [SetPvid(p, 1)] else []
  {
    var others := Vlans(sw, p) - {v};
    CountIsSize(sw, p, 0);
    assert Vlans(sw, p) == VlansFrom(sw, p, 0);
    assert v in Vlans(sw, p) && CountFrom(sw, p, 0) == |others| + 1;
    assert 0 in others <==> p in sw.member[0];
    assert |others| == 0 <==> others == {};
  }

  /** What the settling makes of the view. */
  function Settled(w: View, p: nat, others: set<nat>, pvid: U16): View {
    if others == {} then View(w.vlans + {0}, if p != 1 then 0 else w.pvid, 0, false)
    else if pvid == 1 && |others| == 1 && p != 1 then View(w.vlans + {0}, 0, 0, false)
    else if pvid == 1 && |others| == 1 && 0 in others then View(w.vlans, w.pvid, 0, false)
    else w
  }

  lemma SettledIs(w: View, p: nat, others: set<nat>, pvid: U16, sw: Switch)
    requires Num(sw, 1) == 0
    ensures ViewExec(w, SettleOps(p, others, pvid), sw) == Settled(w, p, others, pvid)
  {
    var a := SettleOps(p, others, pvid);
    if others == {} {
      assert |others| == 0;
    }
    ViewSettle(w, a, sw, p);
  }

  lemma SettledLeft(w: View, p: nat, vid: U16, v: nat, pv: U16)
    requires vid != 1 && v != 0 && w.tag != 0
    ensures var w1 := Settled(w, p, w.vlans - {v}, pv);
      Left(w, p, vid, v, pv) == View(w1.vlans - {v}, if pv == vid then 0 else w1.pvid, w1.tag, w1.insert)
  {
    var others := w.vlans - {v};
    assert w.vlans + {0} - {v} == others + {0};
  }

  /** The settling of a tagged member and its leaving, on the view. */
  lemma RetireView(w: View, vid: U16, p: nat, v: nat, pv: U16, sw: Switch)
    requires Num(sw, 1) == 0 && vid != 1 && v != 0 && w.tag != 0
    ensures var b := if pv == vid then [SetPvid(p, 1)] else [];
      ViewExec(w, SettleOps(p, w.vlans - {v}, pv) + b + [DelPort(p, v)], sw) == Left(w, p, vid, v, pv)
  {
    var others := w.vlans - {v};
    var a, b, d := SettleOps(p, others, pv), if pv == vid then [SetPvid(p, 1)] else [], [DelPort(p, v)];
    ViewJoin(w, a + b, d, sw);
    ViewJoin(w, a, b, sw);
    SettledIs(w, p, others, pv, sw);
    SettledLeft(w, p, vid, v, pv);
    var w1 := ViewExec(w, a, sw);
    if pv == vid {
      ViewOne(w1, b[0], sw);
    }
    ViewOne(ViewExec(w1, b, sw), d[0], sw);
  }

  lemma ViewSettle(w: View, a: seq<Op>, sw: Switch, p: nat)
    requires Num(sw, 1) == 0
    ensures a == [SetPvid(p, 1), SetInsert(p, false), SetTag(p, 0), AddPort(p, 0)] ==>
              ViewExec(w, a, sw) == View(w.vlans + {0}, 0, 0, false)
    ensures a == [SetInsert(p, false), SetTag(p, 0), AddPort(p, 0)] ==>
              ViewExec(w, a, sw) == View(w.vlans + {0}, w.pvid, 0, false)
    ensures a == [SetInsert(p, false), SetTag(p, 0)] ==> ViewExec(w, a, sw) == View(w.vlans, w.pvid, 0, false)
    ensures a == [SetPvid(p, 1), SetTag(p, 0), AddPort(p, 0)] ==>
              ViewExec(w, a, sw) == View(w.vlans + {0}, 0, 0, w.insert)
  {
    var i, t, d := [SetInsert(p, false)], [SetTag(p, 0)], [AddPort(p, 0)];
    var n := [SetPvid(p, 1)];
    ViewOne(w, n[0], sw);
    var wn := ViewApply(w, n[0], sw);
    ViewOne(w, i[0], sw);
    ViewOne(wn, i[0], sw);
    ViewOne(wn, t[0], sw);
    var wi, wni, wnt := ViewApply(w, i[0], sw), ViewApply(wn, i[0], sw), ViewApply(wn, t[0], sw);
    ViewOne(wi, t[0], sw);
    ViewOne(wni, t[0], sw);
    ViewOne(wnt, d[0], sw);
    ViewOne(ViewApply(wi, t[0], sw), d[0], sw);
    ViewOne(ViewApply(wni, t[0], sw), d[0], sw);
    ViewJoin(w, i, t, sw);
    ViewJoin(w, i + t, d, sw);
    ViewJoin(w, n, i, sw);
    ViewJoin(w, n + i, t, sw);
    ViewJoin(w, n + i + t, d, sw);
    ViewJoin(w, n, t, sw);
    ViewJoin(w, n + t, d, sw);
    assert i + t == [SetInsert(p, false), SetTag(p, 0)];
    assert i + t + d == [SetInsert(p, false), SetTag(p, 0), AddPort(p, 0)];
    assert n + i + t + d == [SetPvid(p, 1), SetInsert(p, false), SetTag(p, 0), AddPort(p, 0)];
    assert n + t + d == [SetPvid(p, 1), SetTag(p, 0), AddPort(p, 0)];
  }

  /** How one member port, tagged or not, is left. */
  lemma {:induction false} LeaveExact(sw: Switch, vid: U16, p: nat)
    requires sw.Port(p) && sw.vids[0] == 1 && vid != 1 && Exists(sw, vid) && In(sw, p, Num(sw, vid))
    ensures var s, v := Exec(sw, Leave(sw, vid, p)), Num(sw, vid);
      s.vids == sw.vids && s.ports == sw.ports && ViewOf(s, p) == Left(ViewOf(sw, p), p, vid, v, sw.Pvid(p))
    ensures forall op :: op in Leave(sw, vid, p) ==> About(op, p)
  {
    var v := Num(sw, vid);
    var ops := Leave(sw, vid, p);
    if sw.tag[p] == 0 {
      var a := [SetPvid(p, 1), SetTag(p, 0), AddPort(p, 0)];
      assert Num(sw, 1) == 0 && ops == a + [DelPort(p, v)];
      ViewSettle(ViewOf(sw, p), a, sw, p);
      ViewJoin(ViewOf(sw, p), a, [DelPort(p, v)], sw);
      ViewOne(ViewExec(ViewOf(sw, p), a, sw), DelPort(p, v), sw);
      assert ViewOf(sw, p).vlans + {0} - {v} == ViewOf(sw, p).vlans - {v} + {0};
    } else {
      RetireKeeps(sw, vid, p, v);
      assert Num(sw, 1) == 0 && v in ViewOf(sw, p).vlans;
      RetireIs(sw, vid, p, v);
      RetireView(ViewOf(sw, p), vid, p, v, sw.Pvid(p), sw);
      assert ops == RetireTagged(sw, vid, p) + [DelPort(p, v)];
    }
    ViewRun(sw, ops, p, sw);
  }

  lemma SameViews(a: Switch, b: Switch, q: nat)
    requires SamePort(a, b, q) && a.Port(q)
    ensures ViewOf(a, q) == ViewOf(b, q)
  {
    assert forall n: nat :: n in Vlans(a, q) <==> In(a, q, n);
    assert forall n: nat :: n in Vlans(b, q) <==> In(b, q, n);
  }

  lemma ViewsSame(a: Switch, b: Switch, q: nat)
    requires a.Port(q) && b.Port(q) && a.ports == b.ports && ViewOf(a, q) == ViewOf(b, q)
    ensures SamePort(a, b, q)
  {
    assert forall n: nat :: In(a, q, n) <==> n in Vlans(a, q);
    assert forall n: nat :: In(b, q, n) <==> n in Vlans(b, q);
  }

  lemma OnlyInView(a: Switch, q: nat, v: nat)
    requires OnlyIn(a, q, v)
    ensures ViewOf(a, q) == View({v}, a.pvid[q], 0, a.insert[q])
  {
    assert In(a, q, v);
    assert forall n: nat :: n in Vlans(a, q) <==> In(a, q, n);
  }

  /** The exact effect of a port-delete: each listed port is left as its own state says, and no other is touched. */
  lemma {:induction false} PortDelExact(sw: Switch, vid: U16, ps: seq<nat>, q: nat)
    requires AllPortsOf(sw, ps) && Distinct(ps) && sw.vids[0] == 1 && vid != 1 && Exists(sw, vid)
    requires forall p :: p in ps ==> In(sw, p, Num(sw, vid))
    ensures var s := Exec(sw, LeaveAll(sw, vid, ps));
      && s.ports == sw.ports && s.vids == sw.vids
      && if q in ps then ViewOf(s, q) == Left(ViewOf(sw, q), q, vid, Num(sw, vid), sw.Pvid(q)) else SamePort(s, sw, q)
    decreases ps
  {
    if ps != [] {
      var p := ps[0];
      var ops := Leave(sw, vid, p);
      var s1 := Exec(sw, ops);
      assert In(sw, p, Num(sw, vid));
      LeaveExact(sw, vid, p);
      assert forall r: nat :: r in ps[1..] ==> r in ps;
      forall r: nat | r in ps[1..]
        ensures In(s1, r, Num(s1, vid)) && SamePort(s1, sw, r) && r != p
      {
        assert In(sw, r, Num(sw, vid));
        AboutExec(sw, ops, p, r);
      }
      assert Distinct(ps[1..]);
      PortDelExact(s1, vid, ps[1..], q);
      ExecJoin(sw, ops, LeaveAll(s1, vid, ps[1..]));
      if q == p {
        SameViews(Exec(s1, LeaveAll(s1, vid, ps[1..])), s1, q);
      } else {
        AboutExec(sw, ops, p, q);
        if q in ps {
          SameViews(s1, sw, q);
        }
      }
    }
  }

  /** A port as it is out of the box: in the default VLAN only, untagged, with the default PVID. */
  ghost predicate Default(sw: Switch, p: nat) {
    OnlyIn(sw, p, 0) && sw.pvid[p] == 0 && !sw.insert[p]
  }

  lemma SameSwitch(a: Switch, b: Switch)
    requires a.vids == b.vids && a.ports == b.ports && forall q: nat :: SamePort(a, b, q)
    ensures a == b
  {
    forall n | 0 <= n < MAX_RCP_VLAN_NUM
      ensures a.member[n] == b.member[n]
    {
      forall q: nat
        ensures q in a.member[n] <==> q in b.member[n]
      {
        assert SamePort(a, b, q);
        assert In(a, q, n) <==> In(b, q, n);
      }
    }
    forall q: nat | q <= a.ports
      ensures a.pvid[q] == b.pvid[q] && a.tag[q] == b.tag[q] && a.insert[q] == b.insert[q]
    {
      assert SamePort(a, b, q);
    }
    assert a.member == b.member && a.pvid == b.pvid && a.tag == b.tag && a.insert == b.insert;
  }

  /** Adding untagged and deleting again, as one port sees it. */
  lemma AddThenDelAt(sw: Switch, vid: U16, ps: seq<nat>, mgt: nat, q: nat)
    requires AllPortsOf(sw, ps) && Distinct(ps) && sw.vids[0] == 1 && vid != 1 && Exists(sw, vid)
    requires forall p :: p in ps ==> Default(sw, p)
    ensures var s := Exec(sw, JoinAll(sw, vid, ps, true, mgt));
      var e := Exec(s, LeaveAll(s, vid, ps));
      s.vids == sw.vids && e.vids == sw.vids && e.ports == sw.ports && SamePort(e, sw, q)
  {
    var s := Exec(sw, JoinAll(sw, vid, ps, true, mgt));
    PortAddExact(sw, vid, ps, mgt, q);
    forall p | p in ps
      ensures In(s, p, Num(s, vid)) && s.tag[p] == 0
    {
      PortAddExact(sw, vid, ps, mgt, p);
    }
    PortDelExact(s, vid, ps, q);
    if q in ps {
      assert Default(sw, q);
      OnlyInView(sw, q, 0);
      OnlyInView(s, q, Num(sw, vid));
      ViewsSame(Exec(s, LeaveAll(s, vid, ps)), sw, q);
    }
  }

  /** Adding default ports to a VLAN untagged and deleting them from it again leaves the switch as it was. */
  lemma {:induction false} PortAddThenDel(sw: Switch, vid: U16, ps: seq<nat>, mgt: nat)
    requires AllPortsOf(sw, ps) && Distinct(ps) && sw.vids[0] == 1 && vid != 1 && Exists(sw, vid)
    requires forall p :: p in ps ==> Default(sw, p)
    ensures var s := Exec(sw, Plan(sw, PortAdd(vid, ps, true), mgt));
      Exec(s, Plan(s, PortDel(vid, ps), mgt)) == sw
  {
    var s := Exec(sw, JoinAll(sw, vid, ps, true, mgt));
    var e := Exec(s, LeaveAll(s, vid, ps));
    AddThenDelAt(sw, vid, ps, mgt, 0);
    forall q: nat
      ensures SamePort(e, sw, q)
    {
      AddThenDelAt(sw, vid, ps, mgt, q);
    }
    SameSwitch(e, sw);
  }

  /** A successful tagged port-add puts the port in the VLAN beside the ones it is in, its frames left as they
      are. */
  lemma JoinTagged(sw: Switch, vid: U16, p: nat, mgt: nat)
    requires sw.Port(p)
    ensures var s, v := Exec(sw, Join(sw, vid, p, false, mgt)), Num(sw, vid);
      && s.ports == sw.ports && s.vids == sw.vids && s.pvid == sw.pvid
      && (forall n: nat :: In(s, p, n) <==> n == v || In(sw, p, n))
      && s.tag[p] == 3 && s.insert[p]
  {
    var v := Num(sw, vid);
    var ops := Join(sw, vid, p, false, mgt);
    assert ops == [SetInsert(p, true), AddPort(p, v), SetTag(p, 3)];
    var s1 := Apply(sw, ops[0]);
    var s2 := Apply(s1, ops[1]);
    var s3 := Apply(s2, ops[2]);
    assert Exec(sw, ops) == Exec(s1, [ops[1], ops[2]]) == Exec(s2, [ops[2]]) == Exec(s3, []) == s3;
  }

  lemma {:induction false} ReleaseFromAbout(sw: Switch, vid: U16, p: nat, q: nat)
    requires p >= 1 && !(p <= q <= sw.ports && q in sw.member[Num(sw, vid)])
    ensures forall op :: op in ReleaseFrom(sw, vid, p, sw.ports) && op.AddPort? ==> op.port != q
    decreases sw.ports + 1 - p
  {
    if p <= sw.ports {
      var ops := Release(sw, vid, p);
      var s := Exec(sw, ops);
      ReleaseTame(sw, vid, p);
      TameExec(sw, ops, 0);
      ReleasesItself(sw, vid, p);
      if q > p {
        AboutExec(sw, ops, p, q);
        assert In(s, q, Num(sw, vid)) <==> In(sw, q, Num(sw, vid));
      }
      ReleaseFromAbout(s, vid, p + 1, q);
    }
  }

  lemma ReleasesItself(sw: Switch, vid: U16, p: nat)
    requires sw.Port(p)
    ensures forall op :: op in Release(sw, vid, p) ==> About(op, p)
    ensures p !in sw.member[Num(sw, vid)] ==> Release(sw, vid, p) == []
  {
    if p in sw.member[Num(sw, vid)] && sw.tag[p] != 0 {
      assert forall op :: op in RetireTagged(sw, vid, p) ==> About(op, p);
    }
  }

  lemma {:induction false} NothingAdded(sw: Switch, ops: seq<Op>, q: nat)
    requires forall op :: op in ops ==> Tame(op, 0) && (op.AddPort? ==> op.port != q)
    ensures In(Exec(sw, ops), q, 0) <==> In(sw, q, 0)
    decreases ops
  {
    if ops != [] {
      assert Tame(ops[0], 0) && ops[0] in ops;
      NothingAdded(Apply(sw, ops[0]), ops[1..], q);
    }
  }

  lemma FreeExec(sw: Switch, v: nat)
    requires v < MAX_RCP_VLAN_NUM
    ensures Exec(sw, [ClearVlan(v), SetVid(v, 0)]) == sw.(member := sw.member[v := {}], vids := sw.vids[v := 0])
  {
    ExecJoin(sw, [ClearVlan(v)], [SetVid(v, 0)]);
    assert [ClearVlan(v)] + [SetVid(v, 0)] == [ClearVlan(v), SetVid(v, 0)];
    ExecOne(sw, ClearVlan(v));
    ExecOne(Exec(sw, [ClearVlan(v)]), SetVid(v, 0));
  }

  /** A successful deletion empties and frees the VLAN's entry, leaves every other VLAN but the default one as it
      was, and adds to the default one none but ports of the deleted VLAN. */
  lemma DelExact(sw: Switch, vid: U16, mgt: nat, q: nat)
    requires sw.vids[0] == 1 && vid != 1 && Exists(sw, vid)
    ensures var s, v := Exec(sw, Plan(sw, Del(vid), mgt)), Num(sw, vid);
      && s.ports == sw.ports && s.vids == sw.vids[v := 0] && s.member[v] == {}
      && (forall n :: 0 < n < MAX_RCP_VLAN_NUM && n != v ==> s.member[n] == sw.member[n])
      && (In(sw, q, 0) ==> In(s, q, 0))
      && (In(s, q, 0) && !In(sw, q, 0) ==> In(sw, q, v))
  {
    var v := Num(sw, vid);
    var a, d := ReleaseFrom(sw, vid, 1, sw.ports), [ClearVlan(v), SetVid(v, 0)];
    ReleaseFromTame(sw, vid, 1);
    TameExec(sw, a, 0);
    ExecJoin(sw, a, d);
    var t := Exec(sw, a);
    FreeExec(t, v);
    if !In(sw, q, v) {
      ReleaseFromAbout(sw, vid, 1, q);
      NothingAdded(sw, a, q);
    }
  }

  /** The view without one VLAN. */
  function Off(w: View, v: nat): View { w.(vlans := w.vlans - {v}) }

  /** One turn of the deletion loop: but for the VLAN itself, which is cleared later, a member port is left as by a
      port-delete, and no other port is touched. */
  lemma {:induction false} ReleaseExact(sw: Switch, vid: U16, p: nat)
    requires sw.Port(p) && sw.vids[0] == 1 && vid != 1 && Exists(sw, vid)
    ensures var s, v := Exec(sw, Release(sw, vid, p)), Num(sw, vid);
      && s.vids == sw.vids && s.ports == sw.ports
      && (In(sw, p, v) ==> Off(ViewOf(s, p), v) == Left(ViewOf(sw, p), p, vid, v, sw.Pvid(p)))
      && (!In(sw, p, v) ==> s == sw)
  {
    var v, ops, w := Num(sw, vid), Release(sw, vid, p), ViewOf(sw, p);
    ReleasesItself(sw, vid, p);
    ViewRun(sw, ops, p, sw);
    if In(sw, p, v) {
      assert Num(sw, 1) == 0 && v in w.vlans;
      if sw.tag[p] == 0 {
        assert ops == [SetPvid(p, 1)] + [AddPort(p, 0)];
        ViewJoin(w, [SetPvid(p, 1)], [AddPort(p, 0)], sw);
        ViewOne(w, SetPvid(p, 1), sw);
        ViewOne(ViewApply(w, SetPvid(p, 1), sw), AddPort(p, 0), sw);
        assert w.vlans + {0} - {v} == w.vlans - {v} + {0};
      } else {
        RetireIs(sw, vid, p, v);
        RetireView(w, vid, p, v, sw.Pvid(p), sw);
        ViewJoin(w, ops, [DelPort(p, v)], sw);
        ViewOne(ViewExec(w, ops, sw), DelPort(p, v), sw);
      }
    }
  }

  lemma {:induction false} ReleasedView(sw: Switch, vid: U16, p: nat, q: nat)
    requires p >= 1 && sw.Port(q) && sw.vids[0] == 1 && vid != 1 && Exists(sw, vid)
    ensures var t, v := Released(sw, vid, p), Num(sw, vid);
      && t.ports == sw.ports && t.vids == sw.vids
      && if q >= p && In(sw, q, v) then Off(ViewOf(t, q), v) == Left(ViewOf(sw, q), q, vid, v, sw.Pvid(q))
         else SamePort(t, sw, q)
    decreases sw.ports + 1 - p
  {
    if p <= sw.ports {
      var s := Exec(sw, Release(sw, vid, p));
      ReleaseExact(sw, vid, p);
      ReleasesItself(sw, vid, p);
      if q != p {
        AboutExec(sw, Release(sw, vid, p), p, q);
        SameViews(s, sw, q);
      }
      ReleasedView(s, vid, p + 1, q);
      if q == p {
        SameViews(Released(s, vid, p + 1), s, q);
      }
    }
  }

  /** What a successful deletion leaves of a port: a member is left as by a port-delete from that VLAN, so an untagged
      one is in the default VLAN with the default PVID, and no PVID of a member names the deleted VLAN; any other port
      is as it was. */
  lemma {:induction false} DelView(sw: Switch, vid: U16, mgt: nat, q: nat)
    requires sw.Port(q) && sw.vids[0] == 1 && vid != 1 && Exists(sw, vid)
    ensures var s, v := Exec(sw, Plan(sw, Del(vid), mgt)), Num(sw, vid);
      && s.ports == sw.ports
      && if In(sw, q, v) then ViewOf(s, q) == Left(ViewOf(sw, q), q, vid, v, sw.Pvid(q)) else SamePort(s, sw, q)
  {
    var v := Num(sw, vid);
    var a, d := ReleaseFrom(sw, vid, 1, sw.ports), [ClearVlan(v), SetVid(v, 0)];
    var t := Exec(sw, a);
    ReleasedIs(sw, vid, 1);
    ReleasedView(sw, vid, 1, q);
    ExecJoin(sw, a, d);
    FreeExec(t, v);
    var s := Exec(t, d);
    assert Vlans(s, q) == Vlans(t, q) - {v};
    assert forall n: nat :: In(s, q, n) <==> n != v && In(t, q, n);
  }

  /** What leaving comes to, in words: an untagged member goes to the default VLAN with the default PVID; a tagged one
      does so, untagged, when it would be nowhere, or only in one VLAN beside its default PVID; and the PVID never
      stays on the VLAN that is left. */
  lemma LeftIs(w: View, p: nat, vid: U16, v: nat, pvid: U16)
    requires v in w.vlans && v != 0
    ensures var l := Left(w, p, vid, v, pvid); var others := w.vlans - {v};
      && v !in l.vlans && others <= l.vlans <= others + {0} && l.vlans != {}
      && (w.tag == 0 ==> 0 in l.vlans && l.pvid == 0 && l.tag == 0 && l.insert == w.insert)
      && (w.tag != 0 && others == {} ==> l.vlans == {0} && l.tag == 0 && !l.insert && (p != 1 ==> l.pvid == 0))
      && (w.tag != 0 && pvid == vid && vid != 1 ==> l.pvid == 0)
      && (w.tag != 0 && pvid == 1 && |others| == 1 && p != 1 ==> l == View(others + {0}, 0, 0, false))
      && (w.tag != 0 && |others| >= 2 && pvid != vid ==> l == View(others, w.pvid, w.tag, w.insert))
      && (w.tag != 0 && |others| == 1 && pvid != 1 && pvid != vid ==> l == View(others, w.pvid, w.tag, w.insert))
      && (w.tag != 0 && p == 1 && pvid == 1 && |others| == 1 && vid != 1 ==>
            l == if 0 in others then View(others, w.pvid, 0, false) else View(others, w.pvid, w.tag, w.insert))
  {
  }

  /** No VID but 0 names two entries. */
  predicate VidsDistinct(vids: seq<U16>) {
    forall i, j :: 0 <= i < j < |vids| && vids[i] != 0 ==> vids[i] != vids[j]
  }

  predicate KeepsVids(op: Op) { !op.SetVid? }

  lemma {:induction false} KeepsVidsExec(sw: Switch, ops: seq<Op>)
    requires forall op :: op in ops ==> KeepsVids(op)
    ensures Exec(sw, ops).vids == sw.vids
    decreases ops
  {
    if ops != [] {
      assert KeepsVids(ops[0]);
      KeepsVidsExec(Apply(sw, ops[0]), ops[1..]);
    }
  }

  lemma {:induction false} JoinAllVids(sw: Switch, vid: U16, ps: seq<nat>, untagged: bool, mgt: nat)
    ensures forall op :: op in JoinAll(sw, vid, ps, untagged, mgt) ==> KeepsVids(op)
    decreases ps
  {
    if ps != [] && sw.Port(ps[0]) {
      JoinAbout(sw, vid, ps[0], untagged, mgt);
      JoinAllVids(Exec(sw, Join(sw, vid, ps[0], untagged, mgt)), vid, ps[1..], untagged, mgt);
    }
  }

  lemma {:induction false} LeaveAllVids(sw: Switch, vid: U16, ps: seq<nat>)
    ensures forall op :: op in LeaveAll(sw, vid, ps) ==> KeepsVids(op)
    decreases ps
  {
    if ps != [] && sw.Port(ps[0]) && ps[0] in sw.member[Num(sw, vid)] {
      assert forall op :: op in Leave(sw, vid, ps[0]) ==> KeepsVids(op);
      LeaveAllVids(Exec(sw, Leave(sw, vid, ps[0])), vid, ps[1..]);
    }
  }

  lemma DelVids(sw: Switch, vid: U16, mgt: nat, k: nat)
    requires Exists(sw, vid) && k <= |Plan(sw, Del(vid), mgt)|
    ensures Exec(sw, Plan(sw, Del(vid), mgt)[..k]).vids == sw.vids
            || Exec(sw, Plan(sw, Del(vid), mgt)[..k]).vids == sw.vids[Num(sw, vid) := 0]
  {
    var a, v := ReleaseFrom(sw, vid, 1, sw.ports), Num(sw, vid);
    var b, last := a + [ClearVlan(v)], [SetVid(v, 0)];
    assert Plan(sw, Del(vid), mgt) == b + last;
    ReleaseFromTame(sw, vid, 1);
    forall op | op in b
      ensures KeepsVids(op)
    {
      assert op in a || op == ClearVlan(v);
      assert op in a ==> Tame(op, 0);
    }
    if k <= |b| {
      assert (b + last)[..k] == b[..k];
      assert forall op :: op in b[..k] ==> op in b;
      KeepsVidsExec(sw, b[..k]);
    } else {
      assert (b + last)[..k] == b + last;
      KeepsVidsExec(sw, b);
      ExecJoin(sw, b, last);
      ExecOne(Exec(sw, b), SetVid(v, 0));
    }
  }

  /** No command, cut short anywhere, gives two entries one VID, not even into a full table. */
  lemma VidsStayDistinct(sw: Switch, c: Command, mgt: nat, k: nat)
    requires VidsDistinct(sw.vids) && c.vid != 0 && k <= |Plan(sw, c, mgt)|
    ensures VidsDistinct(Exec(sw, Plan(sw, c, mgt)[..k]).vids)
  {
    var ops := Plan(sw, c, mgt)[..k];
    match c
    case Add(vid) =>
      if k == 1 {
        assert ops == [SetVid(Idle(sw), vid)] && ops[1..] == [];
        assert Exec(sw, ops) == Apply(sw, ops[0]);
      } else {
        assert ops == [];
      }
    case Del(vid) =>
      if Exists(sw, vid) {
        DelVids(sw, vid, mgt, k);
      }
    case PortAdd(vid, ps, untagged) =>
      if Exists(sw, vid) {
        JoinAllVids(sw, vid, ps, untagged, mgt);
        assert forall op :: op in ops ==> op in JoinAll(sw, vid, ps, untagged, mgt);
        KeepsVidsExec(sw, ops);
      }
    case PortDel(vid, ps) =>
      if Exists(sw, vid) {
        LeaveAllVids(sw, vid, ps);
        assert forall op :: op in ops ==> op in LeaveAll(sw, vid, ps);
        KeepsVidsExec(sw, ops);
      }
  }

  // ---- the default VLAN in its entry ----

  /** The first entry holds VID 1 at every point at which the writes may be cut short. */
  predicate KeepsDefault(sw: Switch, ops: seq<Op>)
    decreases ops
  {
    sw.vids[0] == 1 && (ops == [] || KeepsDefault(Apply(sw, ops[0]), ops[1..]))
  }

  lemma {:induction false} KeepsFirstVid(sw: Switch, ops: seq<Op>)
    requires sw.vids[0] == 1 && forall op :: op in ops && op.SetVid? ==> op.vlan != 0
    ensures KeepsDefault(sw, ops)
    decreases ops
  {
    if ops != [] {
      assert ops[0] in ops;
      KeepsFirstVid(Apply(sw, ops[0]), ops[1..]);
    }
  }

  lemma {:induction false} KeepsDefaultEnd(sw: Switch, ops: seq<Op>)
    requires KeepsDefault(sw, ops)
    ensures Exec(sw, ops).vids[0] == 1
    decreases ops
  {
    if ops != [] {
      KeepsDefaultEnd(Apply(sw, ops[0]), ops[1..]);
    }
  }

  lemma DelKeepsDefault(sw: Switch, vid: U16, mgt: nat)
    requires sw.vids[0] == 1
    ensures KeepsDefault(sw, Plan(sw, Del(vid), mgt)) <==> vid != 1
  {
    if Exists(sw, vid) {
      var a, v := ReleaseFrom(sw, vid, 1, sw.ports), Num(sw, vid);
      var b, last := a + [ClearVlan(v)], [SetVid(v, 0)];
      var ops := Plan(sw, Del(vid), mgt);
      assert ops == b + last;
      ReleaseFromTame(sw, vid, 1);
      assert forall op :: op in a ==> Tame(op, 0);
      if vid == 1 {
        ExecJoin(sw, b, last);
        ExecOne(Exec(sw, b), last[0]);
        if KeepsDefault(sw, ops) {
          KeepsDefaultEnd(sw, ops);
        }
      } else {
        assert v != 0;
        forall op | op in ops && op.SetVid?
          ensures op.vlan != 0
        {
          assert op in a || op == ClearVlan(v) || op == SetVid(v, 0);
        }
        KeepsFirstVid(sw, ops);
      }
    }
  }

  /** A command, cut short anywhere, leaves the default VLAN in the first entry exactly unless it adds a VLAN to a full
      table or deletes the default VLAN. */
  lemma {:induction false} DefaultStaysIff(sw: Switch, c: Command, mgt: nat)
    requires sw.vids[0] == 1
    ensures KeepsDefault(sw, Plan(sw, c, mgt)) <==> !TakesDefault(sw, c) && c != Del(1)
  {
    var ops := Plan(sw, c, mgt);
    match c
    case Add(vid) =>
      if !Exists(sw, vid) {
        assert ops == [SetVid(Idle(sw), vid)] && ops[1..] == [];
        assert Idle(sw) == 0 <==> TakesDefault(sw, c);
      }
    case Del(vid) => DelKeepsDefault(sw, vid, mgt);
    case PortAdd(vid, ps, untagged) =>
      JoinAllVids(sw, vid, ps, untagged, mgt);
      assert forall op :: op in ops ==> KeepsVids(op);
      KeepsFirstVid(sw, ops);
    case PortDel(vid, ps) =>
      LeaveAllVids(sw, vid, ps);
      assert forall op :: op in ops ==> KeepsVids(op);
      KeepsFirstVid(sw, ops);
  }
}
