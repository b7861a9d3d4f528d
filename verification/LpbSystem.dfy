/** The loopback detector as a whole: one record per VLAN in first-detection order, and the ports it has shut down. */
module LpbSystem {
  // What the switch driver answers (admin states, whether a notice could be sent, which loop frames wait to be
  // reported) is input to each action.

  import opened Common
  import opened LpbPort

  const NUM_PORTS := 26  // loops run over the ports 1..25

  predicate Uni(i: int) { 1 <= i < NUM_PORTS }

  type Ports = s: seq<Port> | |s| == NUM_PORTS + 1 witness seq(NUM_PORTS + 1, _ => BLANK)

  datatype Rec = Rec(vid: U16, ports: Ports)

  /** Applies a routine's effect to the ports 1..n-1. */
  function Upto(ports: Ports, f: (int, Port) -> Port, n: int): Ports {
    seq(NUM_PORTS + 1, i requires 0 <= i < NUM_PORTS + 1 => if 1 <= i < n && Uni(i) then f(i, ports[i]) else ports[i])
  }

  function Each(r: Rec, f: (int, Port) -> Port): Rec {
    r.(ports := Upto(r.ports, f, NUM_PORTS))
  }

  /** getVlanLpbStasNode: the place of the record of this VLAN, or the length of the list. */
  function Find(recs: seq<Rec>, vid: U16): (i: nat)
    ensures i <= |recs|
    ensures i < |recs| ==> recs[i].vid == vid
    ensures forall j :: 0 <= j < i ==> recs[j].vid != vid
  {
    if recs == [] || recs[0].vid == vid then 0 else 1 + Find(recs[1..], vid)
  }

  lemma FindAt(recs: seq<Rec>, i: nat)
    requires i < |recs| && forall j :: 0 <= j < i ==> recs[j].vid != recs[i].vid
    ensures Find(recs, recs[i].vid) == i
  {
    assert !(i < Find(recs, recs[i].vid));
  }

  function NewRec(vid: U16, port: int, shutdown: bool): Rec
    requires Uni(port)
  {
    Rec(vid, seq(NUM_PORTS + 1, i => if i == port then First(shutdown) else BLANK))
  }

  /** setPortLpbStatus. */
  function SetStatus(recs: seq<Rec>, vid: U16, port: int, shutdown: bool, c: Config): seq<Rec>
    requires Uni(port)
  {
    var i := Find(recs, vid);
    if i == |recs| then recs + [NewRec(vid, port, shutdown)]
    else recs[i := recs[i].(ports := recs[i].ports[port := Detect(recs[i].ports[port], shutdown, c)])]
  }

  /** clsPortLpbStatus. */
  function ClearStatus(recs: seq<Rec>, vid: U16, ready: set<int>): seq<Rec> {
    var i := Find(recs, vid);
    if i == |recs| then recs else recs[i := Each(recs[i], (k, p) => Quiet(p, k in ready))]
  }

  /** lpbDetectWakeupPorts. */
  function WakePorts(recs: seq<Rec>, vid: U16, c: Config): seq<Rec> {
    var i := Find(recs, vid);
    if i == |recs| then recs else recs[i := Each(recs[i], (k, p) => WakeUp(p, c))]
  }

  /** The ports that pass re-enables. */
  function Woken(recs: seq<Rec>, vid: U16, c: Config): set<int> {
    var i := Find(recs, vid);
    if i == |recs| then {} else set k | 1 <= k < NUM_PORTS && Wakes(recs[i].ports[k], c)
  }

  predicate Masked(r: Rec) { exists k :: 1 <= k < NUM_PORTS && r.ports[k].mask }

  /** deleteLpbStatsNode. */
  function Delete(recs: seq<Rec>, vid: U16): seq<Rec> {
    var i := Find(recs, vid);
    if i == |recs| then recs else Without(recs, i)
  }

  /** reportPortsLpbStatus: a record without a masked port is dropped. */
  function ReportStatus(recs: seq<Rec>, vid: U16, up: set<int>): seq<Rec> {
    var i := Find(recs, vid);
    if i == |recs| then recs
    else
      var r := Each(recs[i], (k, p) => Report(p, k in up));
      if Masked(r) then recs[i := r] else Delete(recs[i := r], vid)
  }

  /** resetLpbPort when it is not denied. */
  function ResetRec(r: Rec, sent: set<(U16, int)>): Rec {
    Each(r, (k, p) => Reset(p, (r.vid, k) in sent))
  }

  function ResetAll(recs: seq<Rec>, sent: set<(U16, int)>): (out: seq<Rec>)
    ensures |out| == |recs|
  {
    seq(|recs|, i requires 0 <= i < |recs| => ResetRec(recs[i], sent))
  }

  /** The routines act on the ports 1..25 of a record and on no other place of its arrays. */
  lemma EachIs(r: Rec, f: (int, Port) -> Port, k: int)
    requires 0 <= k <= NUM_PORTS
    ensures Each(r, f).vid == r.vid
    ensures Each(r, f).ports[k] == if 1 <= k <= 25 then f(k, r.ports[k]) else r.ports[k]
  {
  }

  /** And so does what they look at. */
  lemma SeenPorts(recs: seq<Rec>, vid: U16, c: Config, r: Rec, k: int)
    ensures Masked(r) <==> exists k :: 1 <= k <= 25 && r.ports[k].mask
    ensures k in Woken(recs, vid, c) <==>
            Find(recs, vid) < |recs| && 1 <= k <= 25 && Wakes(recs[Find(recs, vid)].ports[k], c)
  {
  }

  predicate HeldBy(recs: seq<Rec>, k: int)
    requires Uni(k)
  {
    exists i :: 0 <= i < |recs| && recs[i].ports[k].down
  }

  function Held(recs: seq<Rec>): set<int> { set k | 1 <= k < NUM_PORTS && HeldBy(recs, k) }

  // ---- whole runs ----

  /** `shut` holds the ports the detector has disabled and nothing has re-enabled since. */
  datatype State = State(recs: seq<Rec>, shut: set<int>)

  const INIT := State([], {})

  datatype Action =
    | Detection(vid: U16, port: int, shutdown: bool)
    | QuietCycle(vid: U16, ready: set<int>)
    | WakeCycle(vid: U16)
    | ReportCycle(vid: U16, up: set<int>)
    | ResetCycle(sent: set<(U16, int)>)
    | Disable(sent: set<(U16, int)>)
    | Reopened(port: int)      // somebody else re-enables the port

  /** A port is shut down only when it was up; a port that is shut does not read as up. */
  predicate Enabled(st: State, x: Action) {
    match x
    case Detection(_, port, shutdown) => Uni(port) && (shutdown ==> port !in st.shut)
    case ReportCycle(_, up) => up !! st.shut
    case _ => true
  }

  function Next(st: State, x: Action, c: Config): State
    requires Enabled(st, x)
  {
    match x
    case Detection(vid, port, shutdown) =>
      State(SetStatus(st.recs, vid, port, shutdown, c), if shutdown then st.shut + {port} else st.shut)
    case QuietCycle(vid, ready) => st.(recs := ClearStatus(st.recs, vid, ready))
    case WakeCycle(vid) => State(WakePorts(st.recs, vid, c), st.shut - Woken(st.recs, vid, c))
    case ReportCycle(vid, up) => st.(recs := ReportStatus(st.recs, vid, up))
    case ResetCycle(sent) => State(ResetAll(st.recs, sent), st.shut - Held(st.recs))
    case Disable(sent) => State([], st.shut - Held(st.recs))
    case Reopened(port) => st.(shut := st.shut - {port})
  }

  ghost predicate SoundRec(r: Rec) { forall k :: Uni(k) ==> Sound(r.ports[k]) }

  ghost predicate Distinct(recs: seq<Rec>) {
    forall i, j :: 0 <= i < j < |recs| ==> recs[i].vid != recs[j].vid
  }

  /** Every record is sound, and no VLAN has two. */
  ghost predicate RecsInv(recs: seq<Rec>) {
    Distinct(recs) && forall i :: 0 <= i < |recs| ==> SoundRec(recs[i])
  }

  /** And every port the detector holds shut is on record. */
  ghost predicate Inv(st: State) {
    RecsInv(st.recs) && forall k :: k in st.shut ==> Uni(k) && HeldBy(st.recs, k)
  }

  /** A detection under the no-shutdown policy of a port that is shut, and that no other VLAN's record holds shut. */
  predicate Forgets(st: State, x: Action) {
    && x.Detection? && !x.shutdown && x.port in st.shut && Uni(x.port)
    && forall i :: 0 <= i < |st.recs| && i != Find(st.recs, x.vid) ==> !st.recs[i].ports[x.port].down
  }

  /** Replacing one record keeps the invariant if the ports that record alone may have held are no longer shut. */
  lemma ReplaceInv(st: State, i: nat, r: Rec, shut: set<int>)
    requires Inv(st) && i < |st.recs| && r.vid == st.recs[i].vid && SoundRec(r) && shut <= st.shut
    requires forall k :: k in shut && st.recs[i].ports[k].down ==> r.ports[k].down
    ensures Inv(State(st.recs[i := r], shut))
  {
    var recs := st.recs[i := r];
    forall k | k in shut ensures Uni(k) && HeldBy(recs, k) {
      var j :| 0 <= j < |st.recs| && st.recs[j].ports[k].down;
      assert recs[j].ports[k].down;
    }
  }

  lemma AppendInv(st: State, r: Rec)
    requires Inv(st) && SoundRec(r) && forall i :: 0 <= i < |st.recs| ==> st.recs[i].vid != r.vid
    ensures Inv(State(st.recs + [r], st.shut))
  {
    var recs := st.recs + [r];
    forall k | k in st.shut ensures Uni(k) && HeldBy(recs, k) {
      var j :| 0 <= j < |st.recs| && st.recs[j].ports[k].down;
      assert recs[j].ports[k].down;
    }
  }

  lemma {:induction false} DetectedInv(st: State, vid: U16, port: int, shutdown: bool, c: Config)
    requires Inv(st) && Enabled(st, Detection(vid, port, shutdown)) && (shutdown || port !in st.shut)
    ensures Inv(Next(st, Detection(vid, port, shutdown), c))
  {
    var i, recs := Find(st.recs, vid), SetStatus(st.recs, vid, port, shutdown, c);
    if i < |st.recs| {
      ReplaceInv(st, i, recs[i], st.shut);
    } else {
      AppendInv(st, NewRec(vid, port, shutdown));
    }
    assert Inv(State(recs, st.shut));
    if shutdown {
      assert recs[i].ports[port].down;
      assert HeldBy(recs, port);
    }
  }

  /** Each routine keeps the invariant exactly unless it forgets a port. */
  lemma {:induction false} NextInv(st: State, x: Action, c: Config)
    requires Inv(st) && Enabled(st, x)
    ensures Inv(Next(st, x, c)) <==> !Forgets(st, x)
  {
    match x {
      case Detection(vid, port, shutdown) =>
        if shutdown {
          DetectedInv(st, vid, port, shutdown, c);
        } else {
          ForgottenIff(st, vid, port, c);
        }
      case QuietCycle(vid, ready) =>
        var i := Find(st.recs, vid);
        if i < |st.recs| {
          ReplaceInv(st, i, ClearStatus(st.recs, vid, ready)[i], st.shut);
        }
      case WakeCycle(vid) =>
        var i := Find(st.recs, vid);
        if i < |st.recs| {
          ReplaceInv(st, i, WakePorts(st.recs, vid, c)[i], st.shut - Woken(st.recs, vid, c));
        }
      case ReportCycle(vid, up) => ReportInv(st, vid, up);
      case ResetCycle(sent) =>
        assert forall k :: k in st.shut ==> k in Held(st.recs);
      case Disable(sent) => DisableReopens(st, sent, c);
      case Reopened(port) =>
    }
  }

  /** A record without a masked port holds no port shut. */
  lemma {:induction false} WithoutInv(st: State, i: nat)
    requires Inv(st) && i < |st.recs| && !Masked(st.recs[i])
    ensures Inv(State(Without(st.recs, i), st.shut))
  {
    var out := Without(st.recs, i);
    forall k | k in st.shut ensures Uni(k) && HeldBy(out, k) {
      var j :| 0 <= j < |st.recs| && st.recs[j].ports[k].down;
      assert j != i;
      assert out[if j < i then j else j - 1] == st.recs[j];
    }
  }

  /** So the report cycle, which drops the record once no port of it is masked, forgets no port. */
  lemma {:induction false} ReportInv(st: State, vid: U16, up: set<int>)
    requires Inv(st) && Enabled(st, ReportCycle(vid, up))
    ensures Inv(State(ReportStatus(st.recs, vid, up), st.shut))
  {
    var i := Find(st.recs, vid);
    if i < |st.recs| {
      var r := Each(st.recs[i], (k, p) => Report(p, k in up));
      ReplaceInv(st, i, r, st.shut);
      var recs := st.recs[i := r];
      if !Masked(r) {
        FindAt(recs, i);
        WithoutInv(State(recs, st.shut), i);
      }
    }
  }

  /** Disabling detection re-opens every port the detector had shut. */
  lemma DisableReopens(st: State, sent: set<(U16, int)>, c: Config)
    requires Inv(st)
    ensures Next(st, Disable(sent), c) == INIT
  {
    assert forall k :: k in st.shut ==> k in Held(st.recs);
  }

  /** Exactly when a no-shutdown detection loses track of a port: the port is shut, and only the record of
      that VLAN knows it. */
  lemma {:induction false} ForgottenIff(st: State, vid: U16, port: int, c: Config)
    requires Inv(st) && Uni(port)
    ensures Inv(Next(st, Detection(vid, port, false), c)) <==>
            port !in st.shut || exists i :: 0 <= i < |st.recs| && i != Find(st.recs, vid) && st.recs[i].ports[port].down
  {
    var i, recs := Find(st.recs, vid), SetStatus(st.recs, vid, port, false, c);
    assert !recs[i].ports[port].down;
    if port !in st.shut {
      DetectedInv(st, vid, port, false, c);
    } else if j :| 0 <= j < |st.recs| && j != i && st.recs[j].ports[port].down {
      DetectedInv(st.(shut := st.shut - {port}), vid, port, false, c);
      assert recs[j].ports[port].down;
      assert HeldBy(recs, port);
    } else {
      assert !HeldBy(recs, port);
    }
  }

  // ---- runs, whatever they forget ----

  predicate Legal(st: State, xs: seq<Action>, c: Config)
    decreases xs
  {
    xs == [] || (Enabled(st, xs[0]) && Legal(Next(st, xs[0], c), xs[1..], c))
  }

  function Run(st: State, xs: seq<Action>, c: Config): State
    requires Legal(st, xs, c)
    decreases xs
  {
    if xs == [] then st else Run(Next(st, xs[0], c), xs[1..], c)
  }

  /** The records do not depend on which ports are taken to be shut. */
  lemma {:induction false} NextRecs(st: State, x: Action, c: Config)
    requires RecsInv(st.recs) && Enabled(st, x)
    ensures RecsInv(Next(st, x, c).recs)
  {
    NextInv(st.(shut := {}), x, c);
  }

  /** Distinct VLAN ids and sound records are kept by every run. */
  lemma {:induction false} RunRecsInv(st: State, xs: seq<Action>, c: Config)
    requires RecsInv(st.recs) && Legal(st, xs, c)
    ensures RecsInv(Run(st, xs, c).recs)
    decreases xs
  {
    if xs != [] {
      NextRecs(st, xs[0], c);
      RunRecsInv(Next(st, xs[0], c), xs[1..], c);
    }
  }

  /** The detector holds the port shut and no record says so. */
  predicate Lost(st: State, k: int)
    requires Uni(k)
  {
    k in st.shut && !HeldBy(st.recs, k)
  }

  /** No step puts a lost port back on record: it is shut, so no detection can shut it down. */
  lemma HeldAfter(st: State, x: Action, c: Config, k: int)
    requires Enabled(st, x) && Uni(k) && Lost(st, k)
    ensures !HeldBy(Next(st, x, c).recs, k)
  {
    var out := Next(st, x, c).recs;
    forall i | 0 <= i < |out|
      ensures !out[i].ports[k].down
    {
      if x.ReportCycle? {
        var d := Find(st.recs, x.vid);
        assert d < |st.recs| ==> !st.recs[d].ports[k].down;
        assert i + 1 < |st.recs| ==> !st.recs[i + 1].ports[k].down;
      }
      assert i < |st.recs| ==> !st.recs[i].ports[k].down;
    }
  }

  /** What one step does to the track of one port, whatever has become of the others: it is lost exactly by being
      forgotten, and only by being re-enabled from outside is it no longer lost. */
  lemma {:induction false} LostIff(st: State, x: Action, c: Config, k: int)
    requires RecsInv(st.recs) && Enabled(st, x) && Uni(k)
    ensures Lost(Next(st, x, c), k) <==> x != Reopened(k) && (Lost(st, k) || (Forgets(st, x) && x.port == k))
  {
    if Lost(st, k) {
      HeldAfter(st, x, c, k);
    } else {
      var own := st.(shut := st.shut * {k});
      NextInv(own, x, c);
      NextRecs(st, x, c);
      assert Next(own, x, c).recs == Next(st, x, c).recs;
      assert k in Next(own, x, c).shut <==> k in Next(st, x, c).shut;
    }
  }

  /** Whether the port has been forgotten in the run and not been re-enabled from outside since. */
  predicate Forgotten(st: State, xs: seq<Action>, c: Config, k: int, lost: bool)
    requires Legal(st, xs, c)
    decreases xs
  {
    if xs == [] then lost
    else
      Forgotten(Next(st, xs[0], c), xs[1..], c, k,
                xs[0] != Reopened(k) && (lost || (Forgets(st, xs[0]) && xs[0].port == k)))
  }

  lemma {:induction false} RunLostIff(st: State, xs: seq<Action>, c: Config, k: int)
    requires RecsInv(st.recs) && Legal(st, xs, c) && Uni(k)
    ensures Lost(Run(st, xs, c), k) <==> Forgotten(st, xs, c, k, Lost(st, k))
    decreases xs
  {
    if xs != [] {
      LostIff(st, xs[0], c, k);
      NextRecs(st, xs[0], c);
      RunLostIff(Next(st, xs[0], c), xs[1..], c, k);
    }
  }

  lemma {:induction false} ShutAreUni(st: State, xs: seq<Action>, c: Config)
    requires Legal(st, xs, c) && forall k :: k in st.shut ==> Uni(k)
    ensures forall k :: k in Run(st, xs, c).shut ==> Uni(k)
    decreases xs
  {
    if xs != [] {
      ShutAreUni(Next(st, xs[0], c), xs[1..], c);
    }
  }

  /** After any run, for every port held shut that has not been forgotten: it is masked, with a zero quiet count, in
      some record.  And disabling detection leaves exactly the forgotten ports shut. */
  lemma {:induction false} NoPortIsForgotten(xs: seq<Action>, c: Config, sent: set<(U16, int)>, k: int)
    requires Legal(INIT, xs, c)
    ensures var st := Run(INIT, xs, c);
            && (k in st.shut && !Forgotten(INIT, xs, c, k, false) ==>
                  Uni(k) && exists i :: 0 <= i < |st.recs| && st.recs[i].ports[k].down
                                        && st.recs[i].ports[k].mask && st.recs[i].ports[k].cnt == 0)
            && (k in Next(st, Disable(sent), c).shut <==> Uni(k) && Forgotten(INIT, xs, c, k, false))
  {
    RunRecsInv(INIT, xs, c);
    ShutAreUni(INIT, xs, c);
    var st := Run(INIT, xs, c);
    if Uni(k) {
      RunLostIff(INIT, xs, c, k);
      if k in st.shut && !Lost(st, k) {
        var i :| 0 <= i < |st.recs| && st.recs[i].ports[k].down;
        assert Sound(st.recs[i].ports[k]);
      }
    }
  }

  /** It is reached: a port shut for a loop is detected again after the policy has changed to no shutdown. */
  lemma ForgettingHappens(vid: U16, port: int, c: Config)
    requires Uni(port)
    ensures var xs := [Detection(vid, port, true), Detection(vid, port, false)];
      Legal(INIT, xs, c) && Forgotten(INIT, xs, c, port, false) && Lost(Run(INIT, xs, c), port)
  {
    var x, y := Detection(vid, port, true), Detection(vid, port, false);
    var st := Next(INIT, x, c);
    assert st == State([NewRec(vid, port, true)], {port});
    assert Find(st.recs, vid) == 0 && Forgets(st, y);
    assert [x, y][1..] == [y] && [y][1..] == [];
    assert Legal(st, [y], c) && Forgotten(st, [y], c, port, false);
    RunLostIff(INIT, [x, y], c, port);
  }

  // ---- what a run of the whole means for one port ----

  /** What an action is for port k of the record of VLAN vid. */
  function PortEvent(x: Action, vid: U16, k: int): seq<Event> {
    match x
    case Detection(v, port, shutdown) => if v == vid && port == k then [Detected(shutdown)] else []
    case QuietCycle(v, ready) => if v == vid then [QuietPass(k in ready)] else []
    case WakeCycle(v) => if v == vid then [WakePass] else []
    case ReportCycle(v, up) => if v == vid then [ReportPass(k in up)] else []
    case ResetCycle(sent) => [ResetPass((vid, k) in sent)]
    case _ => []
  }

  function PortTrace(xs: seq<Action>, vid: U16, k: int): seq<Event> {
    if xs == [] then [] else PortEvent(xs[0], vid, k) + PortTrace(xs[1..], vid, k)
  }

  predicate OnRecord(st: State, vid: U16) { Find(st.recs, vid) < |st.recs| }

  function PortOf(st: State, vid: U16, k: int): Port
    requires OnRecord(st, vid) && Uni(k)
  {
    st.recs[Find(st.recs, vid)].ports[k]
  }

  lemma FindSame(a: seq<Rec>, b: seq<Rec>, vid: U16)
    requires |a| <= |b| && forall i :: 0 <= i < |a| ==> a[i].vid == b[i].vid
    requires Find(a, vid) < |a|
    ensures Find(b, vid) == Find(a, vid)
  {
    FindAt(b, Find(a, vid));
  }

  /** Deleting one record leaves the others findable, with their contents. */
  lemma FindAfterDelete(recs: seq<Rec>, v: U16, vid: U16)
    requires v != vid && Find(recs, vid) < |recs|
    ensures var out := Delete(recs, v); Find(out, vid) < |out| && out[Find(out, vid)] == recs[Find(recs, vid)]
  {
    var i, d := Find(recs, v), Find(recs, vid);
    if i < |recs| {
      var out := Without(recs, i);
      var k := if d < i then d else d - 1;
      assert out[k] == recs[d];
      forall j | 0 <= j < k ensures out[j].vid != out[k].vid {
        assert out[j] == recs[if j < i then j else j + 1];
      }
      FindAt(out, k);
    }
  }

  lemma DeleteGone(recs: seq<Rec>, v: U16)
    requires Distinct(recs)
    ensures Find(Delete(recs, v), v) == |Delete(recs, v)|
  {
    var i, out := Find(recs, v), Delete(recs, v);
    if i < |recs| {
      assert forall j :: 0 <= j < |out| ==> out[j] == recs[if j < i then j else j + 1] && out[j].vid != v;
    }
  }

  lemma ReportOthers(recs: seq<Rec>, v: U16, up: set<int>, vid: U16)
    requires Distinct(recs) && Find(recs, vid) < |recs|
    ensures var out := ReportStatus(recs, v, up);
            Find(out, vid) < |out| ==>
              out[Find(out, vid)] == if v == vid then Each(recs[Find(recs, vid)], (j, p) => Report(p, j in up))
                                     else recs[Find(recs, vid)]
  {
    var i := Find(recs, v);
    if i < |recs| {
      var mid := recs[i := Each(recs[i], (j, p) => Report(p, j in up))];
      FindSame(recs, mid, vid);
      if !Masked(mid[i]) {
        if v == vid {
          DeleteGone(mid, v);
        } else {
          FindAfterDelete(mid, v, vid);
        }
      }
    }
  }

  /** The report cycle drops the VLAN's record exactly when no port of it is masked. */
  lemma ReportDropsIff(recs: seq<Rec>, v: U16, up: set<int>)
    requires Distinct(recs) && Find(recs, v) < |recs|
    ensures var out := ReportStatus(recs, v, up);
      Find(out, v) == |out| <==> forall k :: 1 <= k <= 25 ==> !recs[Find(recs, v)].ports[k].mask
  {
    var i := Find(recs, v);
    var r := Each(recs[i], (j, p) => Report(p, j in up));
    var mid := recs[i := r];
    assert forall k :: 1 <= k <= 25 ==> r.ports[k].mask == recs[i].ports[k].mask;
    FindSame(recs, mid, v);
    if Masked(r) {
      var k :| 1 <= k < NUM_PORTS && r.ports[k].mask;
      assert recs[i].ports[k].mask;
    } else {
      assert forall j, l :: 0 <= j < l < |mid| ==> mid[j].vid != mid[l].vid;
      DeleteGone(mid, v);
    }
  }

  /** The port's own move, if it has one. */
  function PortMove(p: Port, x: Action, vid: U16, k: int, c: Config): Port {
    var e := PortEvent(x, vid, k);
    if e == [] then p else LpbPort.Next(p, e[0], c)
  }

  lemma ReportProjects(st: State, v: U16, up: set<int>, c: Config, vid: U16, k: int)
    requires RecsInv(st.recs) && Enabled(st, ReportCycle(v, up)) && Uni(k) && OnRecord(st, vid)
    requires OnRecord(Next(st, ReportCycle(v, up), c), vid)
    ensures var x := ReportCycle(v, up);
            PortOf(Next(st, x, c), vid, k) == PortMove(PortOf(st, vid, k), x, vid, k, c)
  {
    ReportOthers(st.recs, v, up, vid);
  }

  lemma DetectionProjects(st: State, v: U16, port: int, shutdown: bool, c: Config, vid: U16, k: int)
    requires RecsInv(st.recs) && Enabled(st, Detection(v, port, shutdown)) && Uni(k) && OnRecord(st, vid)
    ensures var x := Detection(v, port, shutdown);
            && OnRecord(Next(st, x, c), vid)
            && PortOf(Next(st, x, c), vid, k) == PortMove(PortOf(st, vid, k), x, vid, k, c)
  {
    FindSame(st.recs, SetStatus(st.recs, v, port, shutdown, c), vid);
  }

  lemma QuietProjects(st: State, v: U16, ready: set<int>, c: Config, vid: U16, k: int)
    requires RecsInv(st.recs) && Uni(k) && OnRecord(st, vid)
    ensures var x := QuietCycle(v, ready);
            && OnRecord(Next(st, x, c), vid)
            && PortOf(Next(st, x, c), vid, k) == PortMove(PortOf(st, vid, k), x, vid, k, c)
  {
    FindSame(st.recs, Next(st, QuietCycle(v, ready), c).recs, vid);
  }

  lemma WakeProjects(st: State, v: U16, c: Config, vid: U16, k: int)
    requires RecsInv(st.recs) && Uni(k) && OnRecord(st, vid)
    ensures var x := WakeCycle(v);
            && OnRecord(Next(st, x, c), vid)
            && PortOf(Next(st, x, c), vid, k) == PortMove(PortOf(st, vid, k), x, vid, k, c)
  {
    FindSame(st.recs, Next(st, WakeCycle(v), c).recs, vid);
  }

  lemma ResetProjects(st: State, sent: set<(U16, int)>, c: Config, vid: U16, k: int)
    requires RecsInv(st.recs) && Uni(k) && OnRecord(st, vid)
    ensures var x := ResetCycle(sent);
            && OnRecord(Next(st, x, c), vid)
            && PortOf(Next(st, x, c), vid, k) == PortMove(PortOf(st, vid, k), x, vid, k, c)
  {
    FindSame(st.recs, Next(st, ResetCycle(sent), c).recs, vid);
  }

  /** As long as its record lives, each port moves only by its own events, so all that is proved of one port's
      runs holds of it. */
  lemma {:induction false} PortProjects(st: State, x: Action, c: Config, vid: U16, k: int)
    requires RecsInv(st.recs) && Enabled(st, x) && Uni(k) && OnRecord(st, vid) && OnRecord(Next(st, x, c), vid)
    ensures PortOf(Next(st, x, c), vid, k) == PortMove(PortOf(st, vid, k), x, vid, k, c)
  {
    match x {
      case ReportCycle(v, up) => ReportProjects(st, v, up, c, vid, k);
      case Detection(v, port, shutdown) => DetectionProjects(st, v, port, shutdown, c, vid, k);
      case Disable(_) =>
      case Reopened(_) =>
      case QuietCycle(v, ready) => QuietProjects(st, v, ready, c, vid, k);
      case WakeCycle(v) => WakeProjects(st, v, c, vid, k);
      case ResetCycle(sent) => ResetProjects(st, sent, c, vid, k);
    }
  }

  /** The record of the VLAN is there all through the run. */
  predicate Lives(st: State, xs: seq<Action>, c: Config, vid: U16)
    requires Legal(st, xs, c)
    decreases xs
  {
    OnRecord(st, vid) && (xs != [] ==> Lives(Next(st, xs[0], c), xs[1..], c, vid))
  }

  lemma RunJoin(p: Port, x: Action, vid: U16, k: int, b: seq<Event>, c: Config)
    ensures LpbPort.Run(p, PortEvent(x, vid, k) + b, c) == LpbPort.Run(PortMove(p, x, vid, k, c), b, c)
  {
    var a := PortEvent(x, vid, k);
    if a == [] {
      assert a + b == b;
    } else {
      assert (a + b)[1..] == b;
    }
  }

  lemma {:induction false} RunProjects(st: State, xs: seq<Action>, c: Config, vid: U16, k: int)
    requires RecsInv(st.recs) && Legal(st, xs, c) && Lives(st, xs, c, vid) && Uni(k)
    ensures OnRecord(Run(st, xs, c), vid)
    ensures PortOf(Run(st, xs, c), vid, k) == LpbPort.Run(PortOf(st, vid, k), PortTrace(xs, vid, k), c)
    decreases xs
  {
    if xs != [] {
      var st' := Next(st, xs[0], c);
      NextRecs(st, xs[0], c);
      PortProjects(st, xs[0], c, vid, k);
      RunProjects(st', xs[1..], c, vid, k);
      RunJoin(PortOf(st, vid, k), xs[0], vid, k, PortTrace(xs[1..], vid, k), c);
    }
  }
}
