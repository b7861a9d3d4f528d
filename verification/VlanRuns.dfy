/** What runs of VLAN commands, cut short anywhere by a failed write, keep: every port is in some VLAN. */
module VlanRuns {
  import opened VlanSpec

  predicate In(sw: Switch, p: nat, n: nat) { n < MAX_RCP_VLAN_NUM && p in sw.member[n] }

  /** Every port is in at least one VLAN. */
  ghost predicate Covered(sw: Switch) {
    forall p: nat :: sw.Port(p) ==> exists n: nat :: In(sw, p, n)
  }

  /** Every port stays in some VLAN at every point at which the writes may be cut short. */
  ghost predicate Safe(sw: Switch, ops: seq<Op>)
    decreases ops
  {
    Covered(sw) && (ops == [] || Safe(Apply(sw, ops[0]), ops[1..]))
  }

  lemma {:induction false} ExecJoin(sw: Switch, a: seq<Op>, b: seq<Op>)
    ensures Exec(sw, a + b) == Exec(Exec(sw, a), b)
    decreases a
  {
    if a == [] {
      assert a + b == b;
    } else {
      assert (a + b)[1..] == a[1..] + b;
      ExecJoin(Apply(sw, a[0]), a[1..], b);
    }
  }

  lemma ExecOne(sw: Switch, op: Op)
    ensures Exec(sw, [op]) == Apply(sw, op)
  {
    assert [op][1..] == [];
  }

  lemma {:induction false} SafeJoin(sw: Switch, a: seq<Op>, b: seq<Op>)
    requires Safe(sw, a) && Safe(Exec(sw, a), b)
    ensures Safe(sw, a + b)
    decreases a
  {
    if a == [] {
      assert a + b == b;
    } else {
      assert (a + b)[1..] == a[1..] + b;
      SafeJoin(Apply(sw, a[0]), a[1..], b);
    }
  }

  lemma {:induction false} SafeSplit(sw: Switch, a: seq<Op>, b: seq<Op>)
    requires Safe(sw, a + b)
    ensures Safe(sw, a) && Safe(Exec(sw, a), b)
    decreases a
  {
    if a == [] {
      assert a + b == b;
    } else {
      assert (a + b)[1..] == a[1..] + b;
      SafeSplit(Apply(sw, a[0]), a[1..], b);
    }
  }

  lemma {:induction false} SafeAtEveryCut(sw: Switch, ops: seq<Op>, k: nat)
    requires Safe(sw, ops) && k <= |ops|
    ensures Covered(Exec(sw, ops[..k]))
    decreases ops
  {
    if k > 0 {
      assert ops[..k][1..] == ops[1..][..k - 1];
      SafeAtEveryCut(Apply(sw, ops[0]), ops[1..], k - 1);
    }
  }

  // ---- the order of the writes, which is what a cut leaves ----

  lemma {:induction false} NumFromFinds(vids: seq<U16>, vid: U16, i: nat)
    requires i <= |vids|
    ensures (exists j :: i <= j < |vids| && vids[j] == vid) ==> NumFrom(vids, vid, i) >= i
    decreases |vids| - i
  {
    if i < |vids| && vids[i] != vid {
      NumFromFinds(vids, vid, i + 1);
    }
  }

  /** The entry a new VLAN gets: the first free one from 1 on, and 0 just when there is none. */
  lemma IdleIs(sw: Switch)
    ensures var n := Idle(sw);
      && (n == 0 <==> forall i :: 1 <= i < MAX_RCP_VLAN_NUM ==> sw.vids[i] != 0)
      && (n > 0 ==> sw.vids[n] == 0 && forall i :: 1 <= i < n ==> sw.vids[i] != 0)
  {
    NumFromFinds(sw.vids, 0, 1);
  }

  lemma {:induction false} EvictsOnly(sw: Switch, p: nat, keep: nat, i: nat)
    ensures forall op :: op in Evict(sw, p, keep, i) ==> op.DelPort? && op.port == p
    decreases MAX_RCP_VLAN_NUM - i
  {
    if i < MAX_RCP_VLAN_NUM {
      EvictsOnly(sw, p, keep, i + 1);
    }
  }

  /** A port is settled before it is added, added before it is taken out of the others, and untagged last. */
  lemma JoinOrder(sw: Switch, vid: U16, p: nat, mgt: nat)
    ensures var ops, a, v := Join(sw, vid, p, true, mgt), if p == mgt then 0 else 2, Num(sw, vid);
      && |ops| >= a + 2 && ops[a] == AddPort(p, v) && ops[|ops| - 1] == SetTag(p, 0)
      && (p != mgt ==> ops[0] == SetInsert(p, false) && ops[1] == SetPvid(p, vid))
      && (forall i :: a < i < |ops| - 1 ==> ops[i].DelPort? && ops[i].port == p)
    ensures Join(sw, vid, p, false, mgt) == [SetInsert(p, true), AddPort(p, Num(sw, vid)), SetTag(p, 3)]
  {
    EvictsOnly(sw, p, Num(sw, vid), 0);
  }

  /** A tagged member is given the default PVID before it is untagged and put into the default VLAN; what is settled is
      settled before the PVID is taken off the VLAN. */
  lemma RetireOrder(sw: Switch, vid: U16, p: nat)
    requires sw.Port(p)
    ensures var n, pvid, last := CountFrom(sw, p, 0), sw.Pvid(p), if sw.Pvid(p) == vid then [SetPvid(p, 1)] else [];
      RetireTagged(sw, vid, p) ==
        if n != 1 && !(n == 2 && pvid == 1) then last
        else if p != 1 then [SetPvid(p, 1), SetInsert(p, false), SetTag(p, 0), AddPort(p, 0)] + last
        else if n == 2 && p in sw.member[0] then [SetInsert(p, false), SetTag(p, 0)] + last
        else if n == 1 && p !in sw.member[0] then [SetInsert(p, false), SetTag(p, 0), AddPort(p, 0)] + last
        else last
  {
  }

  /** Leaving ends with the deletion from the VLAN; an untagged member has by then got its PVID, its tag mode and the
      default VLAN, in this order. */
  lemma LeaveOrder(sw: Switch, vid: U16, p: nat)
    requires sw.Port(p)
    ensures var ops := Leave(sw, vid, p);
      && ops != [] && ops[|ops| - 1] == DelPort(p, Num(sw, vid))
      && ops[..|ops| - 1] == if sw.tag[p] == 0 then [SetPvid(p, 1), SetTag(p, 0), AddPort(p, 0)]
                             else RetireTagged(sw, vid, p)
    ensures sw.tag[p] == 0 && p in sw.member[Num(sw, vid)] ==> Release(sw, vid, p) == [SetPvid(p, 1), AddPort(p, 0)]
  {
  }

  // ---- writes that only settle a port, or add it to entry v ----

  predicate Tame(op: Op, v: nat) {
    match op
    case AddPort(_, n) => n == v
    case SetPvid(_, _) => true
    case SetTag(_, _) => true
    case SetInsert(_, _) => true
    case _ => false
  }

  lemma {:induction false} TameExec(sw: Switch, ops: seq<Op>, v: nat)
    requires forall op :: op in ops ==> Tame(op, v)
    ensures var s := Exec(sw, ops);
      && s.ports == sw.ports && s.vids == sw.vids
      && (forall p: nat, n: nat :: In(sw, p, n) ==> In(s, p, n))
      && (forall n :: 0 <= n < MAX_RCP_VLAN_NUM && n != v ==> s.member[n] == sw.member[n])
    ensures Covered(sw) ==> Safe(sw, ops)
    decreases ops
  {
    if ops != [] {
      var s := Apply(sw, ops[0]);
      assert Tame(ops[0], v);
      assert forall p: nat, n: nat :: In(sw, p, n) ==> In(s, p, n);
      TameExec(s, ops[1..], v);
      if Covered(sw) {
        forall p: nat | s.Port(p)
          ensures exists n: nat :: In(s, p, n)
        {
          assert sw.Port(p);
          var n: nat :| In(sw, p, n);
          assert In(s, p, n);
        }
      }
    }
  }

  // ---- writes about one port ----

  predicate About(op: Op, p: nat) {
    match op
    case AddPort(q, _) => q == p
    case DelPort(q, _) => q == p
    case SetPvid(q, _) => q == p
    case SetTag(q, _) => q == p
    case SetInsert(q, _) => q == p
    case _ => false
  }

  /** What the switch holds about a port. */
  ghost predicate SamePort(a: Switch, b: Switch, q: nat) {
    && a.ports == b.ports
    && (forall n: nat :: In(a, q, n) <==> In(b, q, n))
    && (q <= a.ports ==> a.pvid[q] == b.pvid[q] && a.tag[q] == b.tag[q] && a.insert[q] == b.insert[q])
  }

  lemma {:induction false} AboutExec(sw: Switch, ops: seq<Op>, p: nat, q: nat)
    requires p != q && forall op :: op in ops ==> About(op, p)
    ensures SamePort(Exec(sw, ops), sw, q) && Exec(sw, ops).vids == sw.vids
    decreases ops
  {
    if ops != [] {
      assert About(ops[0], p);
      AboutExec(Apply(sw, ops[0]), ops[1..], p, q);
    }
  }

  // ---- joining a VLAN ----

  lemma {:induction false} EvictIs(sw: Switch, p: nat, keep: nat, i: nat, op: Op)
    ensures op in Evict(sw, p, keep, i) <==>
            exists n :: i <= n < MAX_RCP_VLAN_NUM && n != keep && p in sw.member[n] && op == DelPort(p, n)
    decreases MAX_RCP_VLAN_NUM - i
  {
    if i < MAX_RCP_VLAN_NUM {
      EvictIs(sw, p, keep, i + 1, op);
    }
  }

  /** Taking p out of VLANs, but not out of VLAN v, which it is in. */
  lemma {:induction false} DropExec(sw: Switch, ops: seq<Op>, p: nat, v: nat)
    requires In(sw, p, v)
    requires forall op :: op in ops ==> op.DelPort? && op.port == p && op.vlan != v
    ensures var s := Exec(sw, ops);
      && s == sw.(member := s.member) && |s.member| == MAX_RCP_VLAN_NUM
      && (forall n: nat :: In(s, p, n) <==> In(sw, p, n) && DelPort(p, n) !in ops)
    ensures Covered(sw) ==> Safe(sw, ops)
    decreases ops
  {
    if ops != [] {
      var s := Apply(sw, ops[0]);
      assert ops[0] == DelPort(p, ops[0].vlan);
      assert forall n: nat :: In(s, p, n) <==> In(sw, p, n) && ops[0] != DelPort(p, n);
      DropExec(s, ops[1..], p, v);
      if Covered(sw) {
        forall q: nat | s.Port(q)
          ensures exists n: nat :: In(s, q, n)
        {
          assert sw.Port(q);
          var n: nat :| In(sw, q, n);
          assert In(s, q, n) || (q == p && In(s, q, v));
        }
      }
    }
  }

  lemma PrepareExec(sw: Switch, vid: U16, p: nat, mgt: nat)
    requires sw.Port(p)
    ensures var v := Num(sw, vid);
      var s := Exec(sw, Prepare(vid, p, v, mgt));
      && s.member == sw.member[v := sw.member[v] + {p}]
      && s.ports == sw.ports && s.vids == sw.vids
      && if p == mgt then s.pvid[p] == sw.pvid[p] && s.insert[p] == sw.insert[p] else s.pvid[p] == v && !s.insert[p]
    ensures Covered(sw) ==> Safe(sw, Prepare(vid, p, Num(sw, vid), mgt))
  {
    var v := Num(sw, vid);
    var ops := Prepare(vid, p, v, mgt);
    TameExec(sw, ops, v);
    if p == mgt {
      assert Exec(sw, ops) == Exec(Apply(sw, ops[0]), []);
    } else {
      var s1 := Apply(sw, ops[0]);
      var s2 := Apply(s1, ops[1]);
      assert Exec(sw, ops) == Exec(s1, [ops[1], ops[2]]) == Exec(s2, [ops[2]]) == Apply(s2, ops[2]);
    }
  }

  /** The evictions planned before the port was added to v leave it in v only. */
  lemma {:induction false} EvictExec(sw: Switch, s: Switch, p: nat, v: nat)
    requires v < MAX_RCP_VLAN_NUM && s.member == sw.member[v := sw.member[v] + {p}]
    ensures var e := Exec(s, Evict(sw, p, v, 0));
      && e == s.(member := e.member) && |e.member| == MAX_RCP_VLAN_NUM
      && (forall n: nat :: In(e, p, n) <==> n == v)
    ensures Covered(s) ==> Safe(s, Evict(sw, p, v, 0))
  {
    var ops := Evict(sw, p, v, 0);
    forall op
      ensures op in ops <==> op.DelPort? && op.port == p && op.vlan != v && In(sw, p, op.vlan)
    {
      EvictIs(sw, p, v, 0, op);
    }
    assert In(s, p, v);
    DropExec(s, ops, p, v);
    assert forall n: nat :: In(sw, p, n) && n != v ==> DelPort(p, n) in ops;
  }

  lemma SafeEnd(sw: Switch, ops: seq<Op>)
    requires Safe(sw, ops)
    ensures Covered(Exec(sw, ops))
  {
    SafeAtEveryCut(sw, ops, |ops|);
    assert ops[..|ops|] == ops;
  }

  /** A port added untagged is afterwards in that VLAN and no other, and its frames leave untagged. */
  lemma JoinUntagged(sw: Switch, vid: U16, p: nat, mgt: nat)
    requires sw.Port(p)
    ensures var s, v := Exec(sw, Join(sw, vid, p, true, mgt)), Num(sw, vid);
      && s.ports == sw.ports && s.vids == sw.vids
      && (forall n: nat :: In(s, p, n) <==> n == v)
      && s.tag[p] == 0
      && if p == mgt then s.pvid[p] == sw.pvid[p] && s.insert[p] == sw.insert[p] else s.pvid[p] == v && !s.insert[p]
    ensures Covered(sw) ==> Safe(sw, Join(sw, vid, p, true, mgt))
  {
    var v := Num(sw, vid);
    var a, e, t := Prepare(vid, p, v, mgt), Evict(sw, p, v, 0), [SetTag(p, 0)];
    var s1 := Exec(sw, a);
    PrepareExec(sw, vid, p, mgt);
    EvictExec(sw, s1, p, v);
    var s2 := Exec(s1, e);
    TameExec(s2, t, v);
    assert Exec(s2, t) == Apply(s2, t[0]);
    assert Exec(s2, t).member == s2.member;
    assert forall n: nat :: In(Exec(s2, t), p, n) <==> In(s2, p, n);
    ExecJoin(sw, a, e);
    ExecJoin(sw, a + e, t);
    assert Join(sw, vid, p, true, mgt) == a + e + t;
    if Covered(sw) {
      SafeEnd(sw, a);
      SafeJoin(sw, a, e);
      SafeEnd(sw, a + e);
      SafeJoin(sw, a + e, t);
    }
  }

  lemma JoinAbout(sw: Switch, vid: U16, p: nat, untagged: bool, mgt: nat)
    ensures forall op :: op in Join(sw, vid, p, untagged, mgt) ==> About(op, p)
  {
    forall op | op in Evict(sw, p, Num(sw, vid), 0)
      ensures About(op, p)
    {
      EvictIs(sw, p, Num(sw, vid), 0, op);
    }
  }

  lemma {:induction false} JoinAllSafe(sw: Switch, vid: U16, ps: seq<nat>, untagged: bool, mgt: nat)
    requires Covered(sw)
    ensures Safe(sw, JoinAll(sw, vid, ps, untagged, mgt))
    decreases ps
  {
    if ps != [] && sw.Port(ps[0]) {
      var ops := Join(sw, vid, ps[0], untagged, mgt);
      if untagged {
        JoinUntagged(sw, vid, ps[0], mgt);
      } else {
        TameExec(sw, ops, Num(sw, vid));
      }
      SafeEnd(sw, ops);
      JoinAllSafe(Exec(sw, ops), vid, ps[1..], untagged, mgt);
      SafeJoin(sw, ops, JoinAll(Exec(sw, ops), vid, ps[1..], untagged, mgt));
    }
  }

  // ---- leaving a VLAN ----

  ghost predicate Elsewhere(sw: Switch, p: nat, v: nat) {
    exists n: nat :: n != v && In(sw, p, n)
  }

  /** The count the deletion commands take is above what entry v gives it just when the port is elsewhere. */
  lemma {:induction false} CountElsewhere(sw: Switch, p: nat, v: nat, n: nat)
    ensures CountFrom(sw, p, n) > (if n <= v && In(sw, p, v) then 1 else 0) <==>
            exists m: nat :: n <= m && m != v && In(sw, p, m)
    ensures CountFrom(sw, p, n) >= (if n <= v && In(sw, p, v) then 1 else 0)
    decreases MAX_RCP_VLAN_NUM - n
  {
    if n < MAX_RCP_VLAN_NUM {
      CountElsewhere(sw, p, v, n + 1);
      if CountFrom(sw, p, n) > (if n <= v && In(sw, p, v) then 1 else 0) {
        assert n == v || !In(sw, p, n) || exists m: nat :: n <= m && m != v && In(sw, p, m);
      }
    }
  }

  lemma TameAdds(sw: Switch, ops: seq<Op>, p: nat, v: nat)
    requires AddPort(p, v) in ops && v < MAX_RCP_VLAN_NUM && forall op :: op in ops ==> Tame(op, v)
    ensures In(Exec(sw, ops), p, v)
  {
    var i :| 0 <= i < |ops| && ops[i] == AddPort(p, v);
    var a, b := ops[..i], ops[i + 1..];
    assert ops == a + [ops[i]] + b;
    ExecJoin(sw, a, [ops[i]]);
    ExecJoin(sw, a + [ops[i]], b);
    assert In(Exec(sw, a + [ops[i]]), p, v);
    TameExec(Exec(sw, a + [ops[i]]), b, v);
  }

  lemma RetireKeeps(sw: Switch, vid: U16, p: nat, v: nat)
    requires sw.Port(p) && v != 0 && In(sw, p, v)
    ensures forall op :: op in RetireTagged(sw, vid, p) ==> Tame(op, 0) && About(op, p)
    ensures Elsewhere(Exec(sw, RetireTagged(sw, vid, p)), p, v)
  {
    var ops := RetireTagged(sw, vid, p);
    CountElsewhere(sw, p, v, 0);
    if Elsewhere(sw, p, v) {
      TameExec(sw, ops, 0);
      var n: nat :| n != v && In(sw, p, n);
      assert In(Exec(sw, ops), p, n);
    } else {
      assert p !in sw.member[0] by {
        assert !In(sw, p, 0);
      }
      assert CountFrom(sw, p, 0) == 1;
      assert AddPort(p, 0) in ops;
      TameAdds(sw, ops, p, 0);
    }
  }

  lemma LeaveSafe(sw: Switch, vid: U16, p: nat)
    requires Covered(sw) && sw.Port(p) && Num(sw, vid) != 0 && p in sw.member[Num(sw, vid)]
    ensures Safe(sw, Leave(sw, vid, p))
    ensures Exec(sw, Leave(sw, vid, p)).vids == sw.vids && Exec(sw, Leave(sw, vid, p)).ports == sw.ports
    ensures !In(Exec(sw, Leave(sw, vid, p)), p, Num(sw, vid))
  {
    var v := Num(sw, vid);
    var ops := Leave(sw, vid, p);
    var a, d := ops[..|ops| - 1], [DelPort(p, v)];
    assert ops == a + d;
    assert In(sw, p, v);
    if sw.tag[p] == 0 {
      assert a == [SetPvid(p, 1), SetTag(p, 0), AddPort(p, 0)];
      TameAdds(sw, a, p, 0);
    } else {
      assert a == RetireTagged(sw, vid, p);
      RetireKeeps(sw, vid, p, v);
    }
    TameExec(sw, a, 0);
    var s := Exec(sw, a);
    assert In(s, p, v);
    var n: nat :| n != v && In(s, p, n);
    SafeEnd(sw, a);
    DropExec(s, d, p, n);
    SafeJoin(sw, a, d);
    ExecJoin(sw, a, d);
    assert DelPort(p, v) in d;
  }

  lemma {:induction false} LeaveAllSafe(sw: Switch, vid: U16, ps: seq<nat>)
    requires Covered(sw) && Num(sw, vid) != 0
    ensures Safe(sw, LeaveAll(sw, vid, ps))
    decreases ps
  {
    if ps != [] && sw.Port(ps[0]) && ps[0] in sw.member[Num(sw, vid)] {
      var ops := Leave(sw, vid, ps[0]);
      LeaveSafe(sw, vid, ps[0]);
      SafeEnd(sw, ops);
      LeaveAllSafe(Exec(sw, ops), vid, ps[1..]);
      SafeJoin(sw, ops, LeaveAll(Exec(sw, ops), vid, ps[1..]));
    }
  }

  // ---- deleting a VLAN ----

  lemma ReleaseTame(sw: Switch, vid: U16, p: nat)
    requires sw.Port(p)
    ensures forall op :: op in Release(sw, vid, p) ==> Tame(op, 0)
  {
    if p in sw.member[Num(sw, vid)] && sw.tag[p] != 0 {
      assert forall op :: op in RetireTagged(sw, vid, p) ==> Tame(op, 0);
    }
  }

  lemma {:induction false} ReleaseFromTame(sw: Switch, vid: U16, p: nat)
    requires p >= 1
    ensures forall op :: op in ReleaseFrom(sw, vid, p, sw.ports) ==> Tame(op, 0)
    decreases sw.ports + 1 - p
  {
    if p <= sw.ports {
      ExecKeepsPorts(sw, Release(sw, vid, p));
      ReleaseTame(sw, vid, p);
      ReleaseFromTame(Exec(sw, Release(sw, vid, p)), vid, p + 1);
    }
  }

  lemma ReleaseKeeps(sw: Switch, vid: U16, p: nat, n: nat)
    requires sw.Port(p) && Num(sw, vid) != 0 && In(sw, p, n)
    ensures Elsewhere(Exec(sw, Release(sw, vid, p)), p, Num(sw, vid))
  {
    var v := Num(sw, vid);
    ReleaseTame(sw, vid, p);
    if p in sw.member[v] && sw.tag[p] == 0 {
      TameAdds(sw, Release(sw, vid, p), p, 0);
    } else if p in sw.member[v] {
      assert In(sw, p, v);
      RetireKeeps(sw, vid, p, v);
    }
  }

  /** The switch after the loop's turns from port p on. */
  function Released(sw: Switch, vid: U16, p: nat): Switch
    requires p >= 1
    decreases sw.ports + 1 - p
  {
    if p > sw.ports then sw
    else
      ExecKeepsPorts(sw, Release(sw, vid, p));
      Released(Exec(sw, Release(sw, vid, p)), vid, p + 1)
  }

  lemma {:induction false} ReleasedIs(sw: Switch, vid: U16, p: nat)
    requires p >= 1
    ensures Exec(sw, ReleaseFrom(sw, vid, p, sw.ports)) == Released(sw, vid, p)
    decreases sw.ports + 1 - p
  {
    if p <= sw.ports {
      var ops := Release(sw, vid, p);
      ExecKeepsPorts(sw, ops);
      var s := Exec(sw, ops);
      ReleasedIs(s, vid, p + 1);
      ExecJoin(sw, ops, ReleaseFrom(s, vid, p + 1, s.ports));
    }
  }

  lemma {:induction false} StaysElsewhere(sw: Switch, vid: U16, p: nat, q: nat, n: nat)
    requires p >= 1 && In(sw, q, n)
    ensures In(Released(sw, vid, p), q, n)
  {
    ReleaseFromTame(sw, vid, p);
    TameExec(sw, ReleaseFrom(sw, vid, p, sw.ports), 0);
    ReleasedIs(sw, vid, p);
  }

  /** The loop's turn for port p: another port stays where it is. */
  lemma ReleaseTurn(sw: Switch, vid: U16, p: nat, q: nat, n: nat) returns (s: Switch)
    requires sw.Port(p) && Num(sw, vid) != 0 && In(sw, q, n)
    ensures s.ports == sw.ports && Num(s, vid) == Num(sw, vid) && In(s, q, n)
    ensures q == p ==> Elsewhere(s, p, Num(sw, vid))
    ensures Released(sw, vid, p) == Released(s, vid, p + 1)
  {
    s := Exec(sw, Release(sw, vid, p));
    ReleaseTame(sw, vid, p);
    TameExec(sw, Release(sw, vid, p), 0);
    if q == p {
      ReleaseKeeps(sw, vid, p, n);
    }
  }

  /** The loop comes to port q, which is still where it was. */
  lemma {:induction false} ReachTurn(sw: Switch, vid: U16, p: nat, q: nat, n: nat) returns (s: Switch)
    requires 1 <= p <= q <= sw.ports && Num(sw, vid) != 0 && In(sw, q, n)
    ensures s.ports == sw.ports && Num(s, vid) == Num(sw, vid) && In(s, q, n)
    ensures Released(sw, vid, p) == Released(s, vid, q)
    decreases q - p
  {
    if p == q {
      s := sw;
    } else {
      var s1 := ReleaseTurn(sw, vid, p, q, n);
      s := ReachTurn(s1, vid, p + 1, q, n);
    }
  }

  /** From port q's own turn on it is somewhere else. */
  lemma KeptAtItsTurn(sw: Switch, vid: U16, q: nat, n: nat) returns (m: nat)
    requires sw.Port(q) && Num(sw, vid) != 0 && In(sw, q, n)
    ensures m != Num(sw, vid) && In(Released(sw, vid, q), q, m)
  {
    var s := ReleaseTurn(sw, vid, q, q, n);
    m :| m != Num(sw, vid) && In(s, q, m);
    StaysElsewhere(s, vid, q + 1, q, m);
  }

  /** Before entry v is cleared, a port that is in some VLAN has been put somewhere else as well. */
  lemma ReleaseFromKeeps(sw: Switch, vid: U16, q: nat, n: nat)
    requires sw.Port(q) && Num(sw, vid) != 0 && In(sw, q, n)
    ensures Elsewhere(Exec(sw, ReleaseFrom(sw, vid, 1, sw.ports)), q, Num(sw, vid))
  {
    var s := ReachTurn(sw, vid, 1, q, n);
    var m := KeptAtItsTurn(s, vid, q, n);
    ReleasedIs(sw, vid, 1);
  }

  /** Entry v may be cleared and freed just when every port is somewhere else. */
  lemma FreeSafeIff(sw: Switch, v: nat)
    requires Covered(sw) && v < MAX_RCP_VLAN_NUM
    ensures Safe(sw, [ClearVlan(v), SetVid(v, 0)]) <==> forall p: nat :: sw.Port(p) ==> Elsewhere(sw, p, v)
  {
    var d := [ClearVlan(v), SetVid(v, 0)];
    var s1 := Apply(sw, d[0]);
    var s2 := Apply(s1, d[1]);
    assert d[1..] == [d[1]] && d[1..][1..] == [];
    assert forall q: nat, n: nat :: In(s1, q, n) <==> n != v && In(sw, q, n);
    assert forall q: nat, n: nat :: In(s2, q, n) <==> In(s1, q, n);
    SameCover(s1, s2);
    assert Safe(s2, []) <==> Covered(s2);
    assert Safe(s1, d[1..]) <==> Covered(s1);
    if Covered(s1) {
      forall p: nat | sw.Port(p)
        ensures Elsewhere(sw, p, v)
      {
        assert s1.Port(p);
        var n: nat :| In(s1, p, n);
        assert n != v && In(sw, p, n);
      }
    }
    if forall p: nat :: sw.Port(p) ==> Elsewhere(sw, p, v) {
      forall p: nat | s1.Port(p)
        ensures exists n: nat :: In(s1, p, n)
      {
        assert sw.Port(p) && Elsewhere(sw, p, v);
        var n: nat :| n != v && In(sw, p, n);
        assert In(s1, p, n);
      }
    }
  }

  lemma SameCover(a: Switch, b: Switch)
    requires a.ports == b.ports && forall q: nat, n: nat :: In(a, q, n) <==> In(b, q, n)
    ensures Covered(a) <==> Covered(b)
  {
    if Covered(a) {
      forall p: nat | b.Port(p)
        ensures exists n: nat :: In(b, p, n)
      {
        assert a.Port(p);
        var n: nat :| In(a, p, n);
        assert In(b, p, n);
      }
    }
    if Covered(b) {
      forall p: nat | a.Port(p)
        ensures exists n: nat :: In(a, p, n)
      {
        assert b.Port(p);
        var n: nat :| In(b, p, n);
        assert In(a, p, n);
      }
    }
  }

  /** What the loop of a deletion leads to, before the entry is cleared. */
  lemma ReleasedAll(sw: Switch, vid: U16) returns (s: Switch)
    requires Covered(sw)
    ensures s == Exec(sw, ReleaseFrom(sw, vid, 1, sw.ports)) && s.ports == sw.ports && s.vids == sw.vids
    ensures Safe(sw, ReleaseFrom(sw, vid, 1, sw.ports)) && Covered(s)
    ensures forall p: nat, n: nat :: n != 0 ==> (In(s, p, n) <==> In(sw, p, n))
  {
    var a := ReleaseFrom(sw, vid, 1, sw.ports);
    ReleaseFromTame(sw, vid, 1);
    TameExec(sw, a, 0);
    SafeEnd(sw, a);
    s := Exec(sw, a);
  }

  /** A VLAN of any entry but the first is deleted without stranding a port. */
  lemma DelSafe(sw: Switch, vid: U16, mgt: nat)
    requires Covered(sw) && Num(sw, vid) != 0
    ensures Safe(sw, Plan(sw, Del(vid), mgt))
  {
    var v := Num(sw, vid);
    var a, d := ReleaseFrom(sw, vid, 1, sw.ports), [ClearVlan(v), SetVid(v, 0)];
    var s := ReleasedAll(sw, vid);
    forall p: nat | s.Port(p)
      ensures Elsewhere(s, p, v)
    {
      assert sw.Port(p);
      var n: nat :| In(sw, p, n);
      ReleaseFromKeeps(sw, vid, p, n);
    }
    FreeSafeIff(s, v);
    SafeJoin(sw, a, d);
  }

  /** The VLAN of the first entry exactly if every port is in another. */
  lemma DelFirstIff(sw: Switch, vid: U16, mgt: nat)
    requires Covered(sw) && Exists(sw, vid) && Num(sw, vid) == 0
    ensures Safe(sw, Plan(sw, Del(vid), mgt)) <==> forall p: nat :: sw.Port(p) ==> Elsewhere(sw, p, 0)
  {
    var a, d := ReleaseFrom(sw, vid, 1, sw.ports), [ClearVlan(0), SetVid(0, 0)];
    var s := ReleasedAll(sw, vid);
    FreeSafeIff(s, 0);
    assert forall p: nat :: Elsewhere(s, p, 0) <==> Elsewhere(sw, p, 0);
    assert forall p: nat :: s.Port(p) <==> sw.Port(p);
    if Safe(s, d) {
      SafeJoin(sw, a, d);
    }
    if Safe(sw, a + d) {
      SafeSplit(sw, a, d);
    }
  }

  // ---- the VLAN of the first entry, as a rule the default VLAN ----

  /** What precedes the deletion when a port leaves a VLAN. */
  function BeforeLeaving(sw: Switch, vid: U16, p: nat): seq<Op>
    requires sw.Port(p)
  {
    if sw.tag[p] == 0 then [SetPvid(p, 1), SetTag(p, 0), AddPort(p, 0)] else RetireTagged(sw, vid, p)
  }

  /** A port that leaves the VLAN of the first entry is stranded unless it is elsewhere. */
  lemma LeaveFirst(sw: Switch, vid: U16, p: nat)
    requires Covered(sw) && sw.Port(p) && In(sw, p, 0) && Num(sw, vid) == 0
    ensures var s := Exec(sw, Leave(sw, vid, p));
      && s.vids == sw.vids && s.ports == sw.ports
      && (forall n: nat :: In(s, p, n) <==> n != 0 && In(sw, p, n))
    ensures Safe(sw, Leave(sw, vid, p)) <==> Elsewhere(sw, p, 0)
    ensures forall op :: op in Leave(sw, vid, p) ==> About(op, p)
  {
    var a, d := BeforeLeaving(sw, vid, p), [DelPort(p, 0)];
    assert Leave(sw, vid, p) == a + d;
    assert forall op :: op in a ==> Tame(op, 0) && About(op, p);
    TameExec(sw, a, 0);
    ExecJoin(sw, a, d);
    var t := Exec(sw, a);
    ExecOne(t, d[0]);
    var s := Apply(t, d[0]);
    assert forall n: nat :: n != 0 ==> (In(t, p, n) <==> In(sw, p, n));
    assert forall n: nat :: In(s, p, n) <==> n != 0 && In(sw, p, n);
    if Elsewhere(sw, p, 0) {
      var n: nat :| n != 0 && In(sw, p, n);
      SafeEnd(sw, a);
      assert In(t, p, n);
      DropExec(t, d, p, n);
      SafeJoin(sw, a, d);
    } else {
      assert s.Port(p) && forall n: nat :: !(n != 0 && In(sw, p, n));
      if Safe(sw, a + d) {
        SafeEnd(sw, a + d);
        assert false;
      }
    }
  }

  /** A port-delete comes to the i-th port of its list: the ones up to it are ports of the VLAN in entry v, without
      repetition. */
  predicate Reaches(sw: Switch, ps: seq<nat>, v: nat, i: nat) {
    && i < |ps|
    && (forall j :: 0 <= j <= i ==> sw.Port(ps[j]) && In(sw, ps[j], v))
    && (forall j, k :: 0 <= j < k <= i ==> ps[j] != ps[k])
  }

  ghost predicate KeepsAll(sw: Switch, ps: seq<nat>) {
    forall i: nat :: Reaches(sw, ps, 0, i) ==> Elsewhere(sw, ps[i], 0)
  }

  /** One port further, on the rest of the list. */
  lemma KeepsRest(sw: Switch, s: Switch, ps: seq<nat>)
    requires ps != [] && sw.Port(ps[0]) && In(sw, ps[0], 0) && Elsewhere(sw, ps[0], 0) && s.ports == sw.ports
    requires !In(s, ps[0], 0) && forall q: nat :: q != ps[0] ==> SamePort(s, sw, q)
    ensures KeepsAll(s, ps[1..]) <==> KeepsAll(sw, ps)
  {
    var p, r := ps[0], ps[1..];
    forall i: nat | i < |r|
      ensures Reaches(s, r, 0, i) <==> Reaches(sw, ps, 0, i + 1)
      ensures r[i] != p ==> (Elsewhere(s, r[i], 0) <==> Elsewhere(sw, ps[i + 1], 0))
    {
      ReachesRest(sw, s, ps, i);
      if r[i] != p {
        assert SamePort(s, sw, r[i]);
      }
    }
    if KeepsAll(s, r) {
      forall i: nat | Reaches(sw, ps, 0, i)
        ensures Elsewhere(sw, ps[i], 0)
      {
        if i > 0 {
          assert Reaches(s, r, 0, i - 1);
          assert ps[0] != ps[i];
        }
      }
    }
    if KeepsAll(sw, ps) {
      forall i: nat | Reaches(s, r, 0, i)
        ensures Elsewhere(s, r[i], 0)
      {
        assert Reaches(sw, ps, 0, i + 1);
        assert ps[0] != ps[i + 1];
      }
    }
  }

  lemma ReachesRest(sw: Switch, s: Switch, ps: seq<nat>, i: nat)
    requires i + 1 < |ps| && sw.Port(ps[0]) && In(sw, ps[0], 0) && s.ports == sw.ports
    requires !In(s, ps[0], 0) && forall q: nat :: q != ps[0] ==> SamePort(s, sw, q)
    ensures Reaches(s, ps[1..], 0, i) <==> Reaches(sw, ps, 0, i + 1)
  {
    var p, r := ps[0], ps[1..];
    if Reaches(s, r, 0, i) {
      forall j | 0 <= j <= i + 1
        ensures sw.Port(ps[j]) && In(sw, ps[j], 0) && (j > 0 ==> ps[j] != p)
      {
        if j > 0 {
          assert In(s, r[j - 1], 0) && r[j - 1] != p;
          assert SamePort(s, sw, r[j - 1]);
        }
      }
      forall j, k | 0 <= j < k <= i + 1
        ensures ps[j] != ps[k]
      {
        if j > 0 {
          assert r[j - 1] != r[k - 1];
        }
      }
    }
    if Reaches(sw, ps, 0, i + 1) {
      forall j | 0 <= j <= i
        ensures s.Port(r[j]) && In(s, r[j], 0)
      {
        assert In(sw, ps[j + 1], 0) && ps[0] != ps[j + 1];
        assert SamePort(s, sw, r[j]);
      }
    }
  }

  lemma {:induction false} LeaveAllFirstIff(sw: Switch, vid: U16, ps: seq<nat>)
    requires Covered(sw) && Num(sw, vid) == 0
    ensures Safe(sw, LeaveAll(sw, vid, ps)) <==> KeepsAll(sw, ps)
    decreases ps
  {
    if ps != [] && sw.Port(ps[0]) && ps[0] in sw.member[0] {
      var p, ops := ps[0], Leave(sw, vid, ps[0]);
      var s := Exec(sw, ops);
      LeaveFirst(sw, vid, p);
      var rest := LeaveAll(s, vid, ps[1..]);
      assert LeaveAll(sw, vid, ps) == ops + rest;
      if Elsewhere(sw, p, 0) {
        SafeEnd(sw, ops);
        LeaveAllFirstIff(s, vid, ps[1..]);
        forall q: nat | q != p
          ensures SamePort(s, sw, q)
        {
          AboutExec(sw, ops, p, q);
        }
        KeepsRest(sw, s, ps);
        if Safe(s, rest) {
          SafeJoin(sw, ops, rest);
        }
        if Safe(sw, ops + rest) {
          SafeSplit(sw, ops, rest);
        }
      } else {
        assert Reaches(sw, ps, 0, 0);
        if Safe(sw, ops + rest) {
          SafeSplit(sw, ops, rest);
        }
      }
    } else {
      assert forall i: nat :: Reaches(sw, ps, 0, i) ==> sw.Port(ps[0]) && In(sw, ps[0], 0);
    }
  }

  // ---- every command, cut short anywhere ----

  /** The VLAN of the first entry is deleted although some port is in no other, or deleted from such a port. */
  ghost predicate EmptiesFirst(sw: Switch, c: Command) {
    && Exists(sw, c.vid) && Num(sw, c.vid) == 0
    && ((c.Del? && exists p: nat :: sw.Port(p) && !Elsewhere(sw, p, 0)) || (c.PortDel? && !KeepsAll(sw, c.list)))
  }

  /** From any state in which every port is in a VLAN, a command on any VID keeps it so, at every point where a failed
      write can end it, exactly unless it takes a port out of the first entry's VLAN that is in no other. */
  lemma {:induction false} CommandSafeIff(sw: Switch, c: Command, mgt: nat)
    requires Covered(sw)
    ensures Safe(sw, Plan(sw, c, mgt)) <==> !EmptiesFirst(sw, c)
  {
    if !Exists(sw, c.vid) {
      if c.Add? {
        AddSafe(sw, c.vid, mgt);
      }
    } else {
      match c
      case Add(vid) =>
      case Del(vid) =>
        if Num(sw, vid) == 0 {
          DelFirstIff(sw, vid, mgt);
        } else {
          DelSafe(sw, vid, mgt);
        }
      case PortAdd(vid, ps, untagged) => JoinAllSafe(sw, vid, ps, untagged, mgt);
      case PortDel(vid, ps) =>
        if Num(sw, vid) == 0 {
          LeaveAllFirstIff(sw, vid, ps);
        } else {
          LeaveAllSafe(sw, vid, ps);
        }
    }
  }

  lemma AddSafe(sw: Switch, vid: U16, mgt: nat)
    requires Covered(sw)
    ensures Safe(sw, Plan(sw, Add(vid), mgt))
  {
    if !Exists(sw, vid) {
      var s := Apply(sw, SetVid(Idle(sw), vid));
      SameCover(sw, s);
      assert Plan(sw, Add(vid), mgt)[1..] == [] && Safe(s, []);
    }
  }

  /** A command of a run: after the given number of its writes the next one fails; the number of writes is
      enough for the whole plan when none does. */
  datatype Turn = Turn(c: Command, good: nat, mgt: nat)

  function Carry(sw: Switch, ops: seq<Op>, good: nat): Switch {
    Exec(sw, if good < |ops| then ops[..good] else ops)
  }

  function Run(sw: Switch, turns: seq<Turn>): Switch
    decreases turns
  {
    if turns == [] then sw
    else Run(Carry(sw, Plan(sw, turns[0].c, turns[0].mgt), turns[0].good), turns[1..])
  }

  /** No turn takes a port out of the first entry's VLAN that is in no other. */
  ghost predicate Orderly(sw: Switch, turns: seq<Turn>)
    decreases turns
  {
    turns == []
    || (&& !EmptiesFirst(sw, turns[0].c)
        && Orderly(Carry(sw, Plan(sw, turns[0].c, turns[0].mgt), turns[0].good), turns[1..]))
  }

  /** Whole runs, additions to a full table and all: whichever writes fail, every port stays in some VLAN. */
  lemma {:induction false} NoPortIsStranded(sw: Switch, turns: seq<Turn>)
    requires Covered(sw) && Orderly(sw, turns)
    ensures Covered(Run(sw, turns))
    decreases turns
  {
    if turns != [] {
      var t := turns[0];
      var ops := Plan(sw, t.c, t.mgt);
      CommandSafeIff(sw, t.c, t.mgt);
      if t.good < |ops| {
        SafeAtEveryCut(sw, ops, t.good);
      } else {
        SafeEnd(sw, ops);
      }
      NoPortIsStranded(Carry(sw, ops, t.good), turns[1..]);
    }
  }

  // ---- what the full table costs ----

  /** A new VLAN finds the table full: RCP_GetVlanIdleNum then answers 0, which is the default VLAN's entry. */
  predicate TakesDefault(sw: Switch, c: Command) {
    c.Add? && !Exists(sw, c.vid) && forall i :: 1 <= i < MAX_RCP_VLAN_NUM ==> sw.vids[i] != 0
  }

  ghost predicate Stranded(sw: Switch, p: nat) { forall n: nat :: !In(sw, p, n) }

  /** Adding a VLAN to a full table and deleting it again strands exactly the ports that were in the default
      VLAN only. */
  lemma {:induction false} StrandedIff(sw: Switch, vid: U16, mgt: nat, p: nat)
    requires vid != 0 && TakesDefault(sw, Add(vid))
    ensures var s := Exec(sw, Plan(sw, Add(vid), mgt));
      Stranded(Exec(s, Plan(s, Del(vid), mgt)), p) <==> !Elsewhere(sw, p, 0)
  {
    assert Idle(sw) == 0;
    var ops := Plan(sw, Add(vid), mgt);
    assert ops == [SetVid(0, vid)] && ops[1..] == [];
    var s := Exec(sw, ops);
    assert s == Exec(Apply(sw, ops[0]), []) == Apply(sw, ops[0]);
    assert Num(s, vid) == 0 && s.vids[0] == vid;
    var a, d := ReleaseFrom(s, vid, 1, s.ports), [ClearVlan(0), SetVid(0, 0)];
    ReleaseFromTame(s, vid, 1);
    TameExec(s, a, 0);
    ExecJoin(s, a, d);
    var t := Exec(s, a);
    assert d[1..] == [d[1]];
    assert Exec(t, d) == Apply(Apply(t, d[0]), d[1]);
    assert Plan(s, Del(vid), mgt) == a + d;
    var e := Exec(s, Plan(s, Del(vid), mgt));
    assert e == Exec(t, d);
    assert forall n: nat :: In(e, p, n) <==> n != 0 && In(sw, p, n);
  }

  function AllPorts(ports: nat): (s: set<nat>)
    ensures forall p: nat :: p in s <==> 1 <= p <= ports
  {
    if ports == 0 then {} else AllPorts(ports - 1) + {ports}
  }

  /** The switch with its ports in the default VLAN and VLANs 2 .. k+1 added. */
  function Filled(ports: nat, k: nat): Switch
    requires k < MAX_RCP_VLAN_NUM
  {
    Sw(ports, seq(MAX_RCP_VLAN_NUM, i => if 0 <= i <= k then (i + 1) % 0x1_0000 else 0),
       seq(MAX_RCP_VLAN_NUM, i => if i == 0 then AllPorts(ports) else {}),
       seq(ports + 1, _ => 0), seq(ports + 1, _ => 0), seq(ports + 1, _ => false))
  }

  /** VLANs first .. last, added one after another. */
  function Adds(first: nat, last: nat): seq<Turn>
    requires last < 0x1_0000
    decreases last + 1 - first
  {
    if first > last then [] else [Turn(Add(first), 1, 0)] + Adds(first + 1, last)
  }

  lemma {:induction false} AddsFill(ports: nat, k: nat)
    requires k < MAX_RCP_VLAN_NUM
    ensures Covered(Filled(ports, k))
    ensures Run(Filled(ports, k), Adds(k + 2, MAX_RCP_VLAN_NUM)) == Filled(ports, MAX_RCP_VLAN_NUM - 1)
    decreases MAX_RCP_VLAN_NUM - k
  {
    var sw := Filled(ports, k);
    forall p: nat | sw.Port(p)
      ensures exists n: nat :: In(sw, p, n)
    {
      assert In(sw, p, 0);
    }
    if k + 1 < MAX_RCP_VLAN_NUM {
      var c := Add(k + 2);
      assert !Exists(sw, k + 2);
      assert sw.vids[k + 1] == 0;
      assert Idle(sw) == k + 1;
      assert Plan(sw, c, 0) == [SetVid(k + 1, k + 2)];
      assert Apply(sw, SetVid(k + 1, k + 2)).vids == Filled(ports, k + 1).vids;
      assert Exec(sw, Plan(sw, c, 0)) == Apply(sw, SetVid(k + 1, k + 2)) == Filled(ports, k + 1);
      var turns := Adds(k + 2, MAX_RCP_VLAN_NUM);
      assert turns == [Turn(c, 1, 0)] + Adds(k + 3, MAX_RCP_VLAN_NUM);
      assert turns[1..] == Adds(k + 3, MAX_RCP_VLAN_NUM);
      AddsFill(ports, k + 1);
    } else {
      assert Adds(k + 2, MAX_RCP_VLAN_NUM) == [];
    }
  }

  /** The addition itself strands no port; the deletion then strands every port that was in the first entry only. */
  lemma TakenThenDeleted(sw: Switch, vid: U16, mgt: nat, p: nat)
    requires Covered(sw) && vid != 0 && TakesDefault(sw, Add(vid)) && sw.Port(p) && !Elsewhere(sw, p, 0)
    ensures var s := Exec(sw, Plan(sw, Add(vid), mgt));
      Covered(s) && !Covered(Exec(s, Plan(s, Del(vid), mgt)))
  {
    var s := Exec(sw, Plan(sw, Add(vid), mgt));
    AddSafe(sw, vid, mgt);
    SafeEnd(sw, Plan(sw, Add(vid), mgt));
    StrandedIff(sw, vid, mgt, p);
    ExecKeepsPorts(sw, Plan(sw, Add(vid), mgt));
    ExecKeepsPorts(s, Plan(s, Del(vid), mgt));
    assert Exec(s, Plan(s, Del(vid), mgt)).Port(p);
  }

  lemma FilledIsFull(ports: nat, vid: U16)
    requires ports >= 1 && vid > 32
    ensures var s := Filled(ports, MAX_RCP_VLAN_NUM - 1);
      Covered(s) && TakesDefault(s, Add(vid)) && s.Port(1) && !Elsewhere(s, 1, 0)
  {
    AddsFill(ports, MAX_RCP_VLAN_NUM - 1);
  }

  /** A run of successful commands on VIDs from 2 on that leaves port 1 in no VLAN: 31 additions fill the table,
      a 32nd takes the default entry, and deleting that VLAN clears it. */
  lemma FullTableStrands(ports: nat, turns: seq<Turn>, vid: U16)
    requires ports >= 1 && turns == Adds(2, MAX_RCP_VLAN_NUM) && vid > 32
    ensures var s0 := Run(Filled(ports, 0), turns);
      var s1 := Exec(s0, Plan(s0, Add(vid), 0));
      Covered(Filled(ports, 0)) && Covered(s1) && !Covered(Exec(s1, Plan(s1, Del(vid), 0)))
  {
    var s0 := Filled(ports, MAX_RCP_VLAN_NUM - 1);
    assert Run(Filled(ports, 0), turns) == s0 && Covered(Filled(ports, 0)) by {
      AddsFill(ports, 0);
    }
    FilledIsFull(ports, vid);
    TakenThenDeleted(s0, vid, 0, 1);
  }
}
