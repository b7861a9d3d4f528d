/** The order in which a detection interval calls the routines (ethLoopBackDetectActionCall in
    apps/gwd_eth_loop_detect.c), with received loop frames handled in between at any time. */
module LpbCycles {
  import opened Common
  import opened LpbPort
  import opened LpbSystem

  /** What looking a VLAN over found: no loop, a loop at a port, or a loop that is not acted on. */
  datatype Found = NoLoop(ready: set<int>) | Loop(port: int, shutdown: bool) | Ignored

  /** One VLAN's turn in an interval. */
  datatype AnyCheck = Check(vid: U16, found: Found, up: set<int>)

  type Check = k: AnyCheck | k.found.Loop? ==> Uni(k.found.port) witness Check(0, Ignored, {})

  /** One call: an interval with detection enabled, in which resetting may be denied, or detection being disabled. */
  datatype Interval = Detecting(reset: Option<set<(U16, int)>>, checks: seq<Check>) | Disabling(sent: set<(U16, int)>)

  /** Wake the ports, look, count or detect, report. */
  function CheckActions(k: Check): seq<Action> {
    [WakeCycle(k.vid)]
    + (match k.found
       case NoLoop(ready) => [QuietCycle(k.vid, ready)]
       case Loop(port, shutdown) => [Detection(k.vid, port, shutdown)]
       case Ignored => [])
    + [ReportCycle(k.vid, k.up)]
  }

  function ChecksActions(ks: seq<Check>): seq<Action> {
    if ks == [] then [] else CheckActions(ks[0]) + ChecksActions(ks[1..])
  }

  function ResetActions(reset: Option<set<(U16, int)>>): seq<Action> {
    if reset.None? then [] else [ResetCycle(reset.value)]
  }

  function IntervalActions(i: Interval): seq<Action> {
    match i
    case Detecting(reset, checks) => ResetActions(reset) + ChecksActions(checks)
    case Disabling(sent) => [Disable(sent)]
  }

  function Intervals(ivs: seq<Interval>): seq<Action> {
    if ivs == [] then [] else IntervalActions(ivs[0]) + Intervals(ivs[1..])
  }

  /** What happens outside the intervals: a received loop frame is handled, its VLAN reported, a port re-enabled. */
  predicate Foreign(x: Action) { x.Detection? || x.ReportCycle? || x.Reopened? }

  /** The intervals' calls in their order, with foreign actions anywhere between them. */
  predicate Weave(xs: seq<Action>, calls: seq<Action>)
    decreases xs
  {
    if xs == [] then calls == []
    else
      || (calls != [] && xs[0] == calls[0] && Weave(xs[1..], calls[1..]))
      || (Foreign(xs[0]) && Weave(xs[1..], calls))
  }

  // ---- a wake-up pass before every quiet pass ----

  /** The VLANs that have had a quiet pass since their last wake-up pass. */
  function Due(x: Action, due: set<U16>): set<U16> {
    match x
    case QuietCycle(v, _) => due + {v}
    case WakeCycle(v) => due - {v}
    case _ => due
  }

  /** No VLAN has two quiet passes without a wake-up pass between them. */
  predicate WokenFirst(xs: seq<Action>, due: set<U16>)
    decreases xs
  {
    xs == [] || ((xs[0].QuietCycle? ==> xs[0].vid !in due) && WokenFirst(xs[1..], Due(xs[0], due)))
  }

  function DueAfter(xs: seq<Action>, due: set<U16>): set<U16>
    decreases xs
  {
    if xs == [] then due else DueAfter(xs[1..], Due(xs[0], due))
  }

  lemma {:induction false} WokenJoin(a: seq<Action>, b: seq<Action>, due: set<U16>)
    ensures WokenFirst(a + b, due) <==> WokenFirst(a, due) && WokenFirst(b, DueAfter(a, due))
    decreases a
  {
    if a == [] {
      assert a + b == b;
    } else {
      assert (a + b)[1..] == a[1..] + b;
      WokenJoin(a[1..], b, Due(a[0], due));
    }
  }

  lemma CheckWakesFirst(k: Check, due: set<U16>)
    ensures WokenFirst(CheckActions(k), due)
  {
    var xs := CheckActions(k);
    assert xs[0] == WakeCycle(k.vid);
    var r := xs[1..];
    var last := [ReportCycle(k.vid, k.up)];
    assert last[1..] == [] && WokenFirst(last, due - {k.vid}) && WokenFirst(last, due - {k.vid} + {k.vid});
    if k.found.Ignored? {
      assert r == last;
    } else {
      assert r[1..] == last;
    }
    assert WokenFirst(r, due - {k.vid});
  }

  lemma {:induction false} ChecksWakeFirst(ks: seq<Check>, due: set<U16>)
    ensures WokenFirst(ChecksActions(ks), due)
    decreases ks
  {
    if ks != [] {
      CheckWakesFirst(ks[0], due);
      ChecksWakeFirst(ks[1..], DueAfter(CheckActions(ks[0]), due));
      WokenJoin(CheckActions(ks[0]), ChecksActions(ks[1..]), due);
    }
  }

  lemma {:induction false} IntervalsWakeFirst(ivs: seq<Interval>, due: set<U16>)
    ensures WokenFirst(Intervals(ivs), due)
    decreases ivs
  {
    if ivs != [] {
      var a := IntervalActions(ivs[0]);
      match ivs[0] {
        case Detecting(reset, checks) =>
          var r := ResetActions(reset);
          assert r != [] ==> r[1..] == [];
          ChecksWakeFirst(checks, DueAfter(r, due));
          WokenJoin(r, ChecksActions(checks), due);
        case Disabling(sent) =>
          assert a[1..] == [];
      }
      IntervalsWakeFirst(ivs[1..], DueAfter(a, due));
      WokenJoin(a, Intervals(ivs[1..]), due);
    }
  }

  lemma {:induction false} WeaveWakesFirst(xs: seq<Action>, calls: seq<Action>, due: set<U16>)
    requires Weave(xs, calls) && WokenFirst(calls, due)
    ensures WokenFirst(xs, due)
    decreases xs
  {
    if xs != [] {
      if Foreign(xs[0]) && Weave(xs[1..], calls) {
        WeaveWakesFirst(xs[1..], calls, due);
      } else {
        WeaveWakesFirst(xs[1..], calls[1..], Due(xs[0], due));
      }
    }
  }

  lemma CyclicStep(e: seq<Event>, r: seq<Event>, due: bool)
    requires |e| <= 1
    ensures Cyclic(e + r, due) <==>
            if e == [] then Cyclic(r, due)
            else if e[0].QuietPass? then !due && Cyclic(r, true)
            else Cyclic(r, due && !e[0].WakePass?)
  {
    if e == [] {
      assert e + r == r;
    } else {
      assert (e + r)[1..] == r;
    }
  }

  lemma {:induction false} WokenIsCyclic(xs: seq<Action>, due: set<U16>, vid: U16, k: int)
    requires WokenFirst(xs, due)
    ensures Cyclic(PortTrace(xs, vid, k), vid in due)
    decreases xs
  {
    if xs != [] {
      WokenIsCyclic(xs[1..], Due(xs[0], due), vid, k);
      CyclicStep(PortEvent(xs[0], vid, k), PortTrace(xs[1..], vid, k), vid in due);
    }
  }

  /** In any sequence of intervals, with frames handled in between at any time, every port sees a wake-up pass
      between any two quiet passes. */
  lemma {:induction false} IntervalsAreCyclic(ivs: seq<Interval>, xs: seq<Action>, vid: U16, k: int)
    requires Weave(xs, Intervals(ivs))
    ensures Cyclic(PortTrace(xs, vid, k), false)
  {
    IntervalsWakeFirst(ivs, {});
    WeaveWakesFirst(xs, Intervals(ivs), {});
    WokenIsCyclic(xs, {}, vid, k);
  }

  // ---- so the quiet counts of the whole detector stay at most ten ----

  /** Every port on record within its bound. */
  ghost predicate AllBounded(st: State, due: set<U16>) {
    forall v: U16, k :: OnRecord(st, v) && Uni(k) ==> Bounded(PortOf(st, v, k), v in due)
  }

  /** Only a detection brings a VLAN on record. */
  lemma OnlyDetectionAdds(st: State, x: Action, c: Config, i: nat)
    requires Enabled(st, x) && i < |LpbSystem.Next(st, x, c).recs|
    ensures var v := LpbSystem.Next(st, x, c).recs[i].vid;
      (exists j :: 0 <= j < |st.recs| && st.recs[j].vid == v) || (x.Detection? && x.vid == v)
  {
    var out := LpbSystem.Next(st, x, c).recs;
    if i < |st.recs| && out[i].vid == st.recs[i].vid {
    } else if x.ReportCycle? {
      assert out[i].vid == st.recs[i + 1].vid;
    } else {
      assert x.Detection? && i == |st.recs|;
    }
  }

  /** A record that was not there is a detection's new one, blank but for the port it is about. */
  lemma NewRecord(st: State, x: Action, c: Config, v: U16, k: int)
    requires Enabled(st, x) && !OnRecord(st, v) && OnRecord(LpbSystem.Next(st, x, c), v) && Uni(k)
    ensures x.Detection? && x.vid == v
    ensures PortOf(LpbSystem.Next(st, x, c), v, k) == if k == x.port then First(x.shutdown) else BLANK
  {
    var out := LpbSystem.Next(st, x, c).recs;
    OnlyDetectionAdds(st, x, c, Find(out, v));
    assert out == st.recs + [NewRec(v, x.port, x.shutdown)];
    assert Find(out, v) == |st.recs|;
  }

  lemma {:induction false} StepBounded(st: State, x: Action, c: Config, due: set<U16>)
    requires RecsInv(st.recs) && Enabled(st, x) && AllBounded(st, due) && (x.QuietCycle? ==> x.vid !in due)
    ensures AllBounded(LpbSystem.Next(st, x, c), Due(x, due))
  {
    var st' := LpbSystem.Next(st, x, c);
    forall v: U16, k | OnRecord(st', v) && Uni(k)
      ensures Bounded(PortOf(st', v, k), v in Due(x, due))
    {
      if OnRecord(st, v) {
        PortProjects(st, x, c, v, k);
        MoveBounded(PortOf(st, v, k), x, v, k, c, due);
      } else {
        NewRecord(st, x, c, v, k);
      }
    }
  }

  lemma MoveBounded(p: Port, x: Action, v: U16, k: int, c: Config, due: set<U16>)
    requires Bounded(p, v in due) && (x.QuietCycle? ==> x.vid !in due)
    ensures Bounded(PortMove(p, x, v, k, c), v in Due(x, due))
  {
  }

  lemma {:induction false} RunBounded(st: State, xs: seq<Action>, c: Config, due: set<U16>)
    requires RecsInv(st.recs) && Legal(st, xs, c) && AllBounded(st, due) && WokenFirst(xs, due)
    ensures RecsInv(LpbSystem.Run(st, xs, c).recs) && AllBounded(LpbSystem.Run(st, xs, c), DueAfter(xs, due))
    decreases xs
  {
    if xs != [] {
      StepBounded(st, xs[0], c, due);
      NextRecs(st, xs[0], c);
      RunBounded(LpbSystem.Next(st, xs[0], c), xs[1..], c, Due(xs[0], due));
    }
  }

  /** After any intervals, with frames handled in between at any time, the quiet count of every port of every record
      is at most ten, and zero where the port is unmasked or held shut. */
  lemma {:induction false} QuietCountsStayBounded(ivs: seq<Interval>, xs: seq<Action>, c: Config)
    requires Weave(xs, Intervals(ivs)) && Legal(INIT, xs, c)
    ensures var recs := LpbSystem.Run(INIT, xs, c).recs;
      forall i, k :: 0 <= i < |recs| && Uni(k) ==>
        recs[i].ports[k].cnt <= QUIET_LIMIT && Sound(recs[i].ports[k])
  {
    IntervalsWakeFirst(ivs, {});
    WeaveWakesFirst(xs, Intervals(ivs), {});
    RunBounded(INIT, xs, c, {});
    var st := LpbSystem.Run(INIT, xs, c);
    forall i, k | 0 <= i < |st.recs| && Uni(k)
      ensures st.recs[i].ports[k].cnt <= QUIET_LIMIT && Sound(st.recs[i].ports[k])
    {
      FindAt(st.recs, i);
      assert PortOf(st, st.recs[i].vid, k) == st.recs[i].ports[k];
    }
  }

  // ---- and an alarm clears after ten quiet intervals ----

  lemma ReportKeepsRecord(recs: seq<Rec>, v: U16, up: set<int>, vid: U16, k: int)
    requires Uni(k) && Distinct(recs) && Find(recs, vid) < |recs| && recs[Find(recs, vid)].ports[k].mask
    ensures Find(ReportStatus(recs, v, up), vid) < |ReportStatus(recs, v, up)|
  {
    var d := Find(recs, v);
    if d < |recs| {
      var mid := recs[d := Each(recs[d], (j, p) => Report(p, j in up))];
      FindSame(recs, mid, vid);
      if v == vid {
        assert mid[d].ports[k].mask;
      } else if !Masked(mid[d]) {
        FindAfterDelete(mid, v, vid);
      }
    }
  }

  /** A record with a masked port goes only when detection is disabled. */
  lemma StaysOnRecord(st: State, x: Action, c: Config, vid: U16, k: int)
    requires RecsInv(st.recs) && Enabled(st, x) && !x.Disable? && Uni(k)
    requires OnRecord(st, vid) && PortOf(st, vid, k).mask
    ensures OnRecord(LpbSystem.Next(st, x, c), vid)
  {
    if x.ReportCycle? {
      ReportKeepsRecord(st.recs, x.vid, x.up, vid, k);
    } else {
      FindSame(st.recs, LpbSystem.Next(st, x, c).recs, vid);
    }
  }

  predicate NeverDisabled(xs: seq<Action>) { forall x :: x in xs ==> !x.Disable? }

  /** With no news at the port and no wake-up pass that has found ten, its record lives. */
  lemma {:induction false} RecordLives(st: State, xs: seq<Action>, c: Config, vid: U16, k: int, due: set<U16>)
    requires RecsInv(st.recs) && Legal(st, xs, c) && NeverDisabled(xs) && OnRecord(st, vid) && Uni(k)
    requires WokenFirst(xs, due) && Bounded(PortOf(st, vid, k), vid in due) && PortOf(st, vid, k).mask
    requires NoNews(PortTrace(xs, vid, k))
    requires NeverTen(PortOf(st, vid, k), PortTrace(xs, vid, k), c, PortOf(st, vid, k).cnt)
    ensures Lives(st, xs, c, vid)
    decreases xs
  {
    if xs != [] {
      var x, p, e, r := xs[0], PortOf(st, vid, k), PortEvent(xs[0], vid, k), PortTrace(xs[1..], vid, k);
      NextRecs(st, x, c);
      StaysOnRecord(st, x, c, vid, k);
      PortProjects(st, x, c, vid, k);
      QuietStep(p, e, r, c);
      MoveBounded(p, x, vid, k, c, due);
      RecordLives(LpbSystem.Next(st, x, c), xs[1..], c, vid, k, Due(x, due));
    }
  }

  /** One event of such a trace, if there is one. */
  lemma QuietStep(p: Port, e: seq<Event>, r: seq<Event>, c: Config)
    requires |e| <= 1 && p.mask && p.cnt <= QUIET_LIMIT && NoNews(e + r) && NeverTen(p, e + r, c, p.cnt)
    ensures var p' := if e == [] then p else LpbPort.Next(p, e[0], c);
      p'.mask && NoNews(r) && NeverTen(p', r, c, p'.cnt)
  {
    assert forall i :: 0 <= i < |r| ==> r[i] == (e + r)[|e| + i];
    if e == [] {
      assert e + r == r;
    } else {
      assert (e + r)[1..] == r && (e + r)[0] == e[0];
    }
  }

  /** Inside any such run, from any moment on at which a port's alarm is up with a zero count: until something new is
      found at the port, detection is disabled or a wake-up pass finds ten, its count is the number of quiet
      intervals, and the next wake-up pass clears the alarm exactly when that number is ten. */
  lemma {:induction false} AlarmClearsInRuns(ivs: seq<Interval>, before: seq<Action>, st: State, xs: seq<Action>,
                                             c: Config, vid: U16, k: int)
    requires Weave(before + xs, Intervals(ivs)) && Legal(INIT, before, c) && st == LpbSystem.Run(INIT, before, c)
    requires Legal(st, xs, c) && NeverDisabled(xs)
    requires OnRecord(st, vid) && Uni(k) && PortOf(st, vid, k).mask && PortOf(st, vid, k).cnt == 0
    requires NoNews(PortTrace(xs, vid, k)) && NeverTen(PortOf(st, vid, k), PortTrace(xs, vid, k), c, 0)
    ensures OnRecord(LpbSystem.Run(st, xs, c), vid)
    ensures var p := PortOf(LpbSystem.Run(st, xs, c), vid, k);
      var n := QuietIntervals(PortOf(st, vid, k), PortTrace(xs, vid, k), c);
      p.mask && p.cnt == n <= QUIET_LIMIT && (WakeUp(p, c).mask <==> n < QUIET_LIMIT)
  {
    IntervalsWakeFirst(ivs, {});
    WeaveWakesFirst(before + xs, Intervals(ivs), {});
    WokenJoin(before, xs, {});
    var due := DueAfter(before, {});
    RunBounded(INIT, before, c, {});
    RecordLives(st, xs, c, vid, k, due);
    RunProjects(st, xs, c, vid, k);
    WokenIsCyclic(xs, due, vid, k);
    AlarmClearsAfterTen(PortOf(st, vid, k), PortTrace(xs, vid, k), c, vid in due, 0);
  }

  // ---- what a sequence of calls does to the records ----

  /** Detections are of the ports 1..25. */
  predicate PortsOk(xs: seq<Action>) { forall x :: x in xs && x.Detection? ==> Uni(x.port) }

  function RecsAfter(recs: seq<Rec>, xs: seq<Action>, c: Config): seq<Rec>
    requires PortsOk(xs)
    decreases xs
  {
    if xs == [] then recs else RecsAfter(LpbSystem.Next(State(recs, {}), xs[0], c).recs, xs[1..], c)
  }

  lemma {:induction false} RunRecs(st: State, xs: seq<Action>, c: Config)
    requires Legal(st, xs, c) && PortsOk(xs)
    ensures LpbSystem.Run(st, xs, c).recs == RecsAfter(st.recs, xs, c)
    decreases xs
  {
    if xs != [] {
      RunRecs(LpbSystem.Next(st, xs[0], c), xs[1..], c);
    }
  }

  lemma {:induction false} RecsJoin(recs: seq<Rec>, a: seq<Action>, b: seq<Action>, c: Config)
    requires PortsOk(a) && PortsOk(b)
    ensures PortsOk(a + b) && RecsAfter(recs, a + b, c) == RecsAfter(RecsAfter(recs, a, c), b, c)
    decreases a
  {
    if a == [] {
      assert a + b == b;
    } else {
      assert (a + b)[1..] == a[1..] + b;
      RecsJoin(LpbSystem.Next(State(recs, {}), a[0], c).recs, a[1..], b, c);
    }
  }

  lemma RecsOne(recs: seq<Rec>, x: Action, c: Config)
    requires x.Detection? ==> Uni(x.port)
    ensures PortsOk([x]) && RecsAfter(recs, [x], c) == LpbSystem.Next(State(recs, {}), x, c).recs
  {
    assert [x][1..] == [];
  }

  /** What was found, on the records. */
  function LookedOver(recs: seq<Rec>, k: Check, c: Config): seq<Rec> {
    match k.found
    case NoLoop(ready) => ClearStatus(recs, k.vid, ready)
    case Loop(port, shutdown) => SetStatus(recs, k.vid, port, shutdown, c)
    case Ignored => recs
  }

  lemma CheckIs(recs: seq<Rec>, k: Check, c: Config)
    ensures PortsOk(CheckActions(k))
    ensures RecsAfter(recs, CheckActions(k), c) ==
            ReportStatus(LookedOver(WakePorts(recs, k.vid, c), k, c), k.vid, k.up)
  {
    var a, b := [WakeCycle(k.vid)], [ReportCycle(k.vid, k.up)];
    var found := match k.found
      case NoLoop(ready) => [QuietCycle(k.vid, ready)]
      case Loop(port, shutdown) => [Detection(k.vid, port, shutdown)]
      case Ignored => [];
    var recs1 := WakePorts(recs, k.vid, c);
    RecsOne(recs, a[0], c);
    if found != [] {
      RecsOne(recs1, found[0], c);
    }
    var recs2 := LookedOver(recs1, k, c);
    RecsOne(recs2, b[0], c);
    RecsJoin(recs, a, found, c);
    RecsJoin(recs, a + found, b, c);
    assert CheckActions(k) == a + found + b;
  }

  /** The VLAN loop, one VLAN further. */
  lemma ChecksMore(recs: seq<Rec>, ks: seq<Check>, i: nat, c: Config)
    requires i < |ks| && PortsOk(ChecksActions(ks[..i]))
    ensures PortsOk(ChecksActions(ks[..i + 1])) && PortsOk(CheckActions(ks[i]))
    ensures RecsAfter(recs, ChecksActions(ks[..i + 1]), c) ==
            RecsAfter(RecsAfter(recs, ChecksActions(ks[..i]), c), CheckActions(ks[i]), c)
  {
    ChecksSnoc(ks[..i], ks[i]);
    assert ks[..i + 1] == ks[..i] + [ks[i]];
    CheckIs(recs, ks[i], c);
    RecsJoin(recs, ChecksActions(ks[..i]), CheckActions(ks[i]), c);
  }

  lemma {:induction false} ChecksSnoc(ks: seq<Check>, k: Check)
    ensures ChecksActions(ks + [k]) == ChecksActions(ks) + CheckActions(k)
    decreases ks
  {
    if ks == [] {
      assert [] + [k] == [k] && [k][1..] == [];
      assert CheckActions(k) + [] == CheckActions(k);
    } else {
      assert (ks + [k])[1..] == ks[1..] + [k];
      ChecksSnoc(ks[1..], k);
    }
  }

  /** An interval with detection enabled, on the records. */
  lemma DetectingIs(recs: seq<Rec>, reset: Option<set<(U16, int)>>, ks: seq<Check>, c: Config)
    requires PortsOk(ChecksActions(ks))
    ensures PortsOk(IntervalActions(Detecting(reset, ks)))
    ensures RecsAfter(recs, IntervalActions(Detecting(reset, ks)), c) ==
            RecsAfter(if reset.None? then recs else ResetAll(recs, reset.value), ChecksActions(ks), c)
  {
    if reset.Some? {
      RecsOne(recs, ResetCycle(reset.value), c);
    }
    RecsJoin(recs, ResetActions(reset), ChecksActions(ks), c);
  }

  /** One interval further. */
  lemma IntervalsMore(recs: seq<Rec>, ivs: seq<Interval>, i: nat, c: Config)
    requires i < |ivs| && PortsOk(Intervals(ivs[..i])) && PortsOk(IntervalActions(ivs[i]))
    ensures PortsOk(Intervals(ivs[..i + 1]))
    ensures RecsAfter(recs, Intervals(ivs[..i + 1]), c) ==
            RecsAfter(RecsAfter(recs, Intervals(ivs[..i]), c), IntervalActions(ivs[i]), c)
  {
    IntervalsSnoc(ivs[..i], ivs[i]);
    assert ivs[..i + 1] == ivs[..i] + [ivs[i]];
    RecsJoin(recs, Intervals(ivs[..i]), IntervalActions(ivs[i]), c);
  }

  lemma {:induction false} IntervalsSnoc(ivs: seq<Interval>, iv: Interval)
    ensures Intervals(ivs + [iv]) == Intervals(ivs) + IntervalActions(iv)
    decreases ivs
  {
    if ivs == [] {
      assert [] + [iv] == [iv] && [iv][1..] == [];
      assert IntervalActions(iv) + [] == IntervalActions(iv);
    } else {
      assert (ivs + [iv])[1..] == ivs[1..] + [iv];
      IntervalsSnoc(ivs[1..], iv);
    }
  }

  lemma {:induction false} RecsBounded(recs: seq<Rec>, xs: seq<Action>, c: Config, due: set<U16>)
    requires PortsOk(xs) && RecsInv(recs) && AllBounded(State(recs, {}), due) && WokenFirst(xs, due)
    ensures RecsInv(RecsAfter(recs, xs, c)) && AllBounded(State(RecsAfter(recs, xs, c), {}), DueAfter(xs, due))
    decreases xs
  {
    if xs != [] {
      var st := State(recs, {});
      StepBounded(st, xs[0], c, due);
      NextRecs(st, xs[0], c);
      var recs' := LpbSystem.Next(st, xs[0], c).recs;
      forall v: U16, k | OnRecord(State(recs', {}), v) && Uni(k)
        ensures Bounded(PortOf(State(recs', {}), v, k), v in Due(xs[0], due))
      {
        assert OnRecord(LpbSystem.Next(st, xs[0], c), v);
      }
      RecsBounded(recs', xs[1..], c, Due(xs[0], due));
    }
  }

  /** Intervals alone, from the empty list on. */
  lemma {:induction false} IntervalsBounded(ivs: seq<Interval>, c: Config)
    requires PortsOk(Intervals(ivs))
    ensures var recs := RecsAfter([], Intervals(ivs), c);
      forall i, k :: 0 <= i < |recs| && Uni(k) ==> recs[i].ports[k].cnt <= QUIET_LIMIT && Sound(recs[i].ports[k])
  {
    IntervalsWakeFirst(ivs, {});
    RecsBounded([], Intervals(ivs), c, {});
    var st := State(RecsAfter([], Intervals(ivs), c), {});
    forall i, k | 0 <= i < |st.recs| && Uni(k)
      ensures st.recs[i].ports[k].cnt <= QUIET_LIMIT && Sound(st.recs[i].ports[k])
    {
      FindAt(st.recs, i);
      assert PortOf(st, st.recs[i].vid, k) == st.recs[i].ports[k];
    }
  }
}
