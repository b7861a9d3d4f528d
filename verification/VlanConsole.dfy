/** The four VLAN commands as loops over live registers (apps/rcp_switch_cli.c), proved to carry out the plans of
    VlanSpec up to the first write that fails.
    The registers are the fields of Console: each write changes them in place, and a command that reads a
    membership again after a write sees what the write has made of it. */
module VlanConsole {
  import opened VlanSpec
  import opened VlanRuns

  /** From s0, with g0 writes to go before one fails, the writes were made up to their end (ok) or up to the one
      that failed; the switch is then s and g good writes are left. */
  ghost predicate Carried(s0: Switch, g0: nat, ops: seq<Op>, ok: bool, s: Switch, g: nat) {
    && ok == (|ops| <= g0)
    && s == Carry(s0, ops, g0)
    && g == if ok then g0 - |ops| else 0
  }

  /** After a has been carried out, b carries out a + b; and if b is cut short, so is everything after it. */
  lemma CarriedThen(s0: Switch, g0: nat, a: seq<Op>, s1: Switch, g1: nat, b: seq<Op>, rest: seq<Op>,
                    ok: bool, s: Switch, g: nat)
    requires Carried(s0, g0, a, true, s1, g1) && Carried(s1, g1, b, ok, s, g)
    ensures Carried(s0, g0, a + b, ok, s, g)
    ensures !ok ==> Carried(s0, g0, a + (b + rest), false, s, g)
  {
    ExecJoin(s0, a, b);
    if !ok {
      assert (a + b)[..g0] == a + b[..g1];
      assert (a + (b + rest))[..g0] == a + b[..g1];
      ExecJoin(s0, a, b[..g1]);
    }
  }

  lemma CutShort(s0: Switch, g0: nat, a: seq<Op>, b: seq<Op>, s: Switch, g: nat)
    requires Carried(s0, g0, a, false, s, g)
    ensures Carried(s0, g0, a + b, false, s, g)
  {
    assert (a + b)[..g0] == a[..g0];
  }

  lemma Regroup(a: seq<Op>, b: seq<Op>, c: seq<Op>)
    ensures a + (b + c) == (a + b) + c
  {
  }

  lemma JoinAllStep(s: Switch, vid: U16, ps: seq<nat>, i: nat, untagged: bool, mgt: nat)
    requires i < |ps| && s.Port(ps[i])
    ensures var ops := Join(s, vid, ps[i], untagged, mgt);
      JoinAll(s, vid, ps[i..], untagged, mgt) == ops + JoinAll(Exec(s, ops), vid, ps[i + 1..], untagged, mgt)
  {
    assert ps[i..][1..] == ps[i + 1..];
  }

  lemma LeaveAllStep(s: Switch, vid: U16, ps: seq<nat>, i: nat)
    requires i < |ps| && s.Port(ps[i]) && ps[i] in s.member[Num(s, vid)]
    ensures var ops := Leave(s, vid, ps[i]);
      LeaveAll(s, vid, ps[i..]) == ops + LeaveAll(Exec(s, ops), vid, ps[i + 1..])
  {
    assert ps[i..][1..] == ps[i + 1..];
  }

  class Console {
    /** The switch's registers. */
    var sw: Switch
    /** The number of writes that still reach the switch; the one after them fails. */
    var good: nat

    method Write(op: Op) returns (ok: bool)
      modifies this
      ensures ok == (old(good) > 0)
      ensures sw == if ok then Apply(old(sw), op) else old(sw)
      ensures good == if ok then old(good) - 1 else 0
    {
      ok := good > 0;
      if ok {
        sw, good := Apply(sw, op), good - 1;
      }
    }

    /** Writes one after another, giving up at the first that fails. */
    method Writes(ops: seq<Op>) returns (ok: bool)
      modifies this
      ensures Carried(old(sw), old(good), ops, ok, sw, good)
    {
      ok := true;
      assert ops[..0] == [];
      var i := 0;
      while i < |ops|
        invariant 0 <= i <= |ops| && ok
        invariant Carried(old(sw), old(good), ops[..i], true, sw, good)
      {
        ghost var s := sw;
        ok := Write(ops[i]);
        if !ok { return; }
        ExecJoin(old(sw), ops[..i], [ops[i]]);
        assert ops[..i + 1] == ops[..i] + [ops[i]];
        assert Exec(s, [ops[i]]) == Apply(s, ops[i]);
        i := i + 1;
      }
      assert ops[..|ops|] == ops;
    }

    /** The loop that takes a port, just added to entry v, out of every other entry it finds the port in. */
    method EvictOthers(p: nat, v: nat) returns (ok: bool)
      modifies this
      ensures Carried(old(sw), old(good), Evict(old(sw), p, v, 0), ok, sw, good)
    {
      ghost var plan, done: seq<Op> := Evict(sw, p, v, 0), [];
      var i: nat := 0;
      ok := true;
      while i < MAX_RCP_VLAN_NUM
        invariant i <= MAX_RCP_VLAN_NUM && ok
        invariant plan == done + Evict(old(sw), p, v, i)
        invariant Carried(old(sw), old(good), done, true, sw, good)
        invariant forall n :: i <= n < MAX_RCP_VLAN_NUM ==> sw.member[n] == old(sw).member[n]
      {
        if p in sw.member[i] && i != v {
          ghost var s, g, op, rest := sw, good, [DelPort(p, i)], Evict(old(sw), p, v, i + 1);
          ok := Writes([DelPort(p, i)]);
          CarriedThen(old(sw), old(good), done, s, g, op, rest, ok, sw, good);
          if !ok { return; }
          ExecOne(s, DelPort(p, i));
          Regroup(done, op, rest);
          done := done + op;
        } else {
          assert Evict(old(sw), p, v, i) == Evict(old(sw), p, v, i + 1);
        }
        i := i + 1;
      }
      assert plan == done;
    }

    /** One port of a port-add. */
    method JoinPort(vid: U16, p: nat, untagged: bool, mgt: nat) returns (ok: bool)
      modifies this
      ensures Carried(old(sw), old(good), Join(old(sw), vid, p, untagged, mgt), ok, sw, good)
    {
      var v := Num(sw, vid);
      if !untagged {
        ok := Writes([SetInsert(p, true), AddPort(p, v), SetTag(p, 3)]);
        return;
      }
      ghost var s0, g0 := sw, good;
      ok := Writes((if p != mgt then [SetInsert(p, false), SetPvid(p, vid)] else []) + [AddPort(p, v)]);
      ghost var a, e, t := Prepare(vid, p, v, mgt), Evict(s0, p, v, 0), [SetTag(p, 0)];
      assert Join(s0, vid, p, true, mgt) == a + (e + t);
      if !ok {
        CutShort(s0, g0, a, e + t, sw, good);
        return;
      }
      ghost var s1, g1 := sw, good;
      PrepareMembers(s0, vid, p, v, mgt);
      EvictSame(s0, s1, p, v, 0);
      ok := EvictOthers(p, v);
      CarriedThen(s0, g0, a, s1, g1, e, t, ok, sw, good);
      if !ok { return; }
      ghost var s2, g2 := sw, good;
      ok := Writes([SetTag(p, 0)]);
      CarriedThen(s0, g0, a + e, s2, g2, t, [], ok, sw, good);
      assert a + e + t == a + (e + t);
    }

    /** cli_int_vlan_dotlq_port_add. */
    method PortAddCommand(vid: U16, ps: seq<nat>, untagged: bool, mgt: nat) returns (ok: bool)
      modifies this
      ensures Carried(old(sw), old(good), Plan(old(sw), PortAdd(vid, ps, untagged), mgt), ok, sw, good)
    {
      if Exists(sw, vid) {
        ok := JoinPorts(vid, ps, untagged, mgt);
      } else {
        ok := true;
      }
    }

    method JoinPorts(vid: U16, ps: seq<nat>, untagged: bool, mgt: nat) returns (ok: bool)
      modifies this
      ensures Carried(old(sw), old(good), JoinAll(old(sw), vid, ps, untagged, mgt), ok, sw, good)
    {
      ok := true;
      ghost var plan := JoinAll(sw, vid, ps, untagged, mgt);
      ghost var done: seq<Op>, rest := [], plan;
      assert ps[0..] == ps;
      var i := 0;
      while i < |ps| && sw.Port(ps[i])
        invariant 0 <= i <= |ps| && ok
        invariant Carried(old(sw), old(good), done, true, sw, good)
        invariant plan == done + rest
        invariant rest == JoinAll(sw, vid, ps[i..], untagged, mgt)
      {
        ghost var s, g, ops := sw, good, Join(sw, vid, ps[i], untagged, mgt);
        rest := JoinAll(Exec(s, ops), vid, ps[i + 1..], untagged, mgt);
        JoinAllStep(s, vid, ps, i, untagged, mgt);
        ok := JoinPort(vid, ps[i], untagged, mgt);
        CarriedThen(old(sw), old(good), done, s, g, ops, rest, ok, sw, good);
        if !ok { return; }
        Regroup(done, ops, rest);
        done := done + ops;
        i := i + 1;
      }
      assert rest == [];
      assert done + [] == done;
    }

    /** The count loop of both deletion commands. */
    method CountMemberships(p: nat) returns (tagnum: nat)
      ensures tagnum == CountFrom(sw, p, 0)
    {
      tagnum := 0;
      var num: nat := 0;
      while num < MAX_RCP_VLAN_NUM
        invariant num <= MAX_RCP_VLAN_NUM
        invariant tagnum + CountFrom(sw, p, num) == CountFrom(sw, p, 0)
      {
        if p in sw.member[num] {
          tagnum := tagnum + 1;
        }
        num := num + 1;
      }
    }

    /** What both deletion commands do to a port that is a tagged member. */
    method Retire(vid: U16, p: nat) returns (ok: bool)
      requires sw.Port(p)
      modifies this
      ensures Carried(old(sw), old(good), RetireTagged(old(sw), vid, p), ok, sw, good)
    {
      ghost var s0, g0 := sw, good;
      ghost var a: seq<Op> := [];
      var tagnum := CountMemberships(p);
      var pvid := sw.Pvid(p);
      ok := true;
      if (pvid == 1 && tagnum == 2) || tagnum == 1 {
        if p != 1 {
          a := [SetPvid(p, 1), SetInsert(p, false), SetTag(p, 0), AddPort(p, 0)];
          ok := Writes([SetPvid(p, 1), SetInsert(p, false), SetTag(p, 0), AddPort(p, 0)]);
        } else if tagnum == 2 && p in sw.member[0] {
          a := [SetInsert(p, false), SetTag(p, 0)];
          ok := Writes([SetInsert(p, false), SetTag(p, 0)]);
        } else if tagnum == 1 && p !in sw.member[0] {
          a := [SetInsert(p, false), SetTag(p, 0), AddPort(p, 0)];
          ok := Writes([SetInsert(p, false), SetTag(p, 0), AddPort(p, 0)]);
        }
      }
      ghost var b := if pvid == vid then [SetPvid(p, 1)] else [];
      assert RetireTagged(s0, vid, p) == a + b;
      if !ok {
        CutShort(s0, g0, a, b, sw, good);
        return;
      }
      ghost var s1, g1 := sw, good;
      if pvid == vid {
        ok := Writes([SetPvid(p, 1)]);
      }
      CarriedThen(s0, g0, a, s1, g1, b, [], ok, sw, good);
    }

    /** One port of a VLAN that is being deleted. */
    method ReleasePort(vid: U16, p: nat) returns (ok: bool)
      requires sw.Port(p)
      modifies this
      ensures Carried(old(sw), old(good), Release(old(sw), vid, p), ok, sw, good)
    {
      ok := true;
      if p in sw.member[Num(sw, vid)] {
        if sw.tag[p] == 0 {
          ok := Writes([SetPvid(p, 1), AddPort(p, 0)]);
        } else {
          ok := Retire(vid, p);
        }
      }
    }

    /** The port loop of cli_int_vlan_dotlq_del. */
    method ReleasePorts(vid: U16, v: nat) returns (ok: bool)
      requires v == Num(sw, vid)
      modifies this
      ensures Carried(old(sw), old(good), ReleaseFrom(old(sw), vid, 1, old(sw).ports), ok, sw, good)
    {
      ok := true;
      ghost var plan := ReleaseFrom(sw, vid, 1, sw.ports);
      ghost var done: seq<Op>, rest := [], plan;
      var port: nat := 1;
      while port <= sw.ports
        invariant port >= 1 && ok
        invariant Carried(old(sw), old(good), done, true, sw, good)
        invariant sw.ports == old(sw).ports
        invariant plan == done + rest
        invariant rest == ReleaseFrom(sw, vid, port, sw.ports)
        decreases old(sw).ports + 1 - port
      {
        ghost var s, g, ops := sw, good, Release(sw, vid, port);
        ExecKeepsPorts(s, ops);
        rest := ReleaseFrom(Exec(s, ops), vid, port + 1, s.ports);
        ok := ReleasePort(vid, port);
        CarriedThen(old(sw), old(good), done, s, g, ops, rest, ok, sw, good);
        if !ok { return; }
        Regroup(done, ops, rest);
        done := done + ops;
        port := port + 1;
      }
      assert rest == [];
      assert done + [] == done;
    }

    /** cli_int_vlan_dotlq_del. */
    method DelCommand(vid: U16, ghost mgt: nat) returns (ok: bool)
      modifies this
      ensures Carried(old(sw), old(good), Plan(old(sw), Del(vid), mgt), ok, sw, good)
    {
      ok := true;
      if !Exists(sw, vid) { return; }
      var v := Num(sw, vid);
      ghost var s0, g0 := sw, good;
      ghost var a, d := ReleaseFrom(sw, vid, 1, sw.ports), [ClearVlan(v), SetVid(v, 0)];
      ok := ReleasePorts(vid, v);
      if !ok {
        CutShort(s0, g0, a, d, sw, good);
        return;
      }
      ghost var s1, g1 := sw, good;
      ok := Writes([ClearVlan(v), SetVid(v, 0)]);
      CarriedThen(s0, g0, a, s1, g1, d, [], ok, sw, good);
    }

    /** One member port of a port-delete. */
    method LeavePort(vid: U16, p: nat) returns (ok: bool)
      requires sw.Port(p)
      modifies this
      ensures Carried(old(sw), old(good), Leave(old(sw), vid, p), ok, sw, good)
    {
      ghost var s0, g0 := sw, good;
      ghost var a := if sw.tag[p] == 0 then [SetPvid(p, 1), SetTag(p, 0), AddPort(p, 0)] else RetireTagged(sw, vid, p);
      var v := Num(sw, vid);
      if sw.tag[p] == 0 {
        ok := Writes([SetPvid(p, 1), SetTag(p, 0), AddPort(p, 0)]);
      } else {
        ok := Retire(vid, p);
      }
      if !ok {
        CutShort(s0, g0, a, [DelPort(p, v)], sw, good);
        return;
      }
      ghost var s1, g1 := sw, good;
      ok := Writes([DelPort(p, v)]);
      CarriedThen(s0, g0, a, s1, g1, [DelPort(p, v)], [], ok, sw, good);
    }

    method LeavePorts(vid: U16, ps: seq<nat>) returns (ok: bool)
      modifies this
      ensures Carried(old(sw), old(good), LeaveAll(old(sw), vid, ps), ok, sw, good)
    {
      ok := true;
      ghost var plan := LeaveAll(sw, vid, ps);
      ghost var done: seq<Op>, rest := [], plan;
      assert ps[0..] == ps;
      var i := 0;
      while i < |ps| && sw.Port(ps[i]) && ps[i] in sw.member[Num(sw, vid)]
        invariant 0 <= i <= |ps| && ok
        invariant Carried(old(sw), old(good), done, true, sw, good)
        invariant plan == done + rest
        invariant rest == LeaveAll(sw, vid, ps[i..])
      {
        ghost var s, g, ops := sw, good, Leave(sw, vid, ps[i]);
        rest := LeaveAll(Exec(s, ops), vid, ps[i + 1..]);
        LeaveAllStep(s, vid, ps, i);
        ok := LeavePort(vid, ps[i]);
        CarriedThen(old(sw), old(good), done, s, g, ops, rest, ok, sw, good);
        if !ok { return; }
        Regroup(done, ops, rest);
        done := done + ops;
        i := i + 1;
      }
      assert rest == [];
      assert done + [] == done;
    }

    /** cli_int_vlan_dotlq_port_del. */
    method PortDelCommand(vid: U16, ps: seq<nat>, ghost mgt: nat) returns (ok: bool)
      modifies this
      ensures Carried(old(sw), old(good), Plan(old(sw), PortDel(vid, ps), mgt), ok, sw, good)
    {
      if Exists(sw, vid) {
        ok := LeavePorts(vid, ps);
      } else {
        ok := true;
      }
    }

    /** RCP_GetVlanIdleNum, as the loop it is. */
    method IdleNum() returns (n: nat)
      ensures n == Idle(sw)
    {
      var num: nat := 1;
      while num < MAX_RCP_VLAN_NUM
        invariant 1 <= num <= MAX_RCP_VLAN_NUM
        invariant NumFrom(sw.vids, 0, num) == Idle(sw)
      {
        if sw.vids[num] == 0 { return num; }
        num := num + 1;
      }
      return 0;
    }

    /** cli_int_vlan_dotlq_add. */
    method AddCommand(vid: U16, ghost mgt: nat) returns (ok: bool)
      modifies this
      ensures Carried(old(sw), old(good), Plan(old(sw), Add(vid), mgt), ok, sw, good)
    {
      ok := true;
      var idle := IdleNum();
      if !Exists(sw, vid) {
        ok := Writes([SetVid(idle, vid)]);
      }
    }

    /** Any of the four commands is a turn of a run, so what VlanRuns proves of runs holds of the registers. */
    method Execute(t: Turn) returns (ok: bool)
      requires good == t.good
      modifies this
      ensures sw == Run(old(sw), [t])
      ensures ok <==> |Plan(old(sw), t.c, t.mgt)| <= t.good
    {
      match t.c
      case Add(vid) => ok := AddCommand(vid, t.mgt);
      case Del(vid) => ok := DelCommand(vid, t.mgt);
      case PortAdd(vid, ps, untagged) => ok := PortAddCommand(vid, ps, untagged, t.mgt);
      case PortDel(vid, ps) => ok := PortDelCommand(vid, ps, t.mgt);
      assert [t][1..] == [];
    }
  }

  lemma PrepareMembers(sw: Switch, vid: U16, p: nat, v: nat, mgt: nat)
    requires v < MAX_RCP_VLAN_NUM
    ensures Exec(sw, Prepare(vid, p, v, mgt)).member == sw.member[v := sw.member[v] + {p}]
  {
    var ops := Prepare(vid, p, v, mgt);
    if p == mgt {
      assert Exec(sw, ops) == Exec(Apply(sw, ops[0]), []);
    } else {
      var s1 := Apply(sw, ops[0]);
      var s2 := Apply(s1, ops[1]);
      assert Exec(sw, ops) == Exec(s1, [ops[1], ops[2]]) == Exec(s2, [ops[2]]) == Apply(s2, ops[2]);
    }
  }

  /** Adding the port to entry v first does not change which entries it is taken out of. */
  lemma {:induction false} EvictSame(a: Switch, b: Switch, p: nat, v: nat, i: nat)
    requires v < MAX_RCP_VLAN_NUM && b.member == a.member[v := a.member[v] + {p}]
    ensures Evict(a, p, v, i) == Evict(b, p, v, i)
    decreases MAX_RCP_VLAN_NUM - i
  {
    if i < MAX_RCP_VLAN_NUM {
      EvictSame(a, b, p, v, i + 1);
    }
  }
}
