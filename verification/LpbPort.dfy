/** One port of one VLAN record of the loopback detector (apps/gwd_eth_loop_detect.c): what its routines do to it. */
module LpbPort {

  type Byte = x: int | 0 <= x < 0x100
  type U16 = x: int | 0 <= x < 0x1_0000

  const PARKED: Byte := 255   // value of the wake-up counter that stops automatic wake-ups
  const QUIET_LIMIT := 10

  /** lpbmask, lpbportdown, lpbportwakeupcounter, slpcounter and lpbClearCnt at one index. */
  datatype Port = Port(mask: bool, down: bool, wake: Byte, slp: nat, cnt: Byte)

  const BLANK := Port(false, false, 0, 0, 0)

  /** The two configurations and the flag that chooses between them. */
  datatype Config = Config(localEnable: bool, oamMax: U16, oamWait: U16, localMax: U16, localWait: U16)
  {
    function Max(): U16 { if localEnable then localMax else oamMax }
    function Wait(): U16 { if localEnable then localWait else oamWait }
  }

  /** setPortLpbStatus on an existing record. */
  function Detect(p: Port, shutdown: bool, c: Config): Port {
    var q := p.(mask := true, cnt := 0);
    if !shutdown then q.(down := false)
    else if (!c.localEnable && p.wake < c.oamMax) || (c.localEnable && p.wake < c.localMax) then
      q.(slp := 0, down := true)
    else if p.wake == PARKED then q.(wake := 0, slp := 0, down := true)
    else q.(wake := PARKED, down := true)
  }

  /** setPortLpbStatus on a new record. */
  function First(shutdown: bool): Port { BLANK.(mask := true, down := shutdown) }

  /** clsPortLpbStatus; `ready` when no loop frame of this port waits to be reported. */
  function Quiet(p: Port, ready: bool): Port {
    if p.mask && !p.down && ready then p.(cnt := (p.cnt + 1) % 0x100) else p
  }

  predicate Clears(p: Port) { p.mask && QUIET_LIMIT <= p.cnt }

  predicate Wakes(p: Port, c: Config) {
    && p.mask && p.cnt < QUIET_LIMIT && p.down
    && ((!c.localEnable && p.wake < c.oamMax && p.slp + 1 >= c.oamWait)
        || (c.localEnable && p.wake < c.localMax && p.slp + 1 >= c.localWait))
  }

  /** lpbDetectWakeupPorts. */
  function WakeUp(p: Port, c: Config): Port {
    var q := if Clears(p) then p.(mask := false, wake := 0, slp := 0, cnt := 0) else p;
    if q.mask && QUIET_LIMIT >= q.cnt && q.down then
      if (!c.localEnable && q.wake < c.oamMax && q.slp + 1 >= c.oamWait)
         || (c.localEnable && q.wake < c.localMax && q.slp + 1 >= c.localWait) then
        q.(down := false, slp := 0, wake := (q.wake + 1) % 0x100)
      else if (!c.localEnable && q.wake < c.oamMax) || (c.localEnable && q.wake < c.localMax) then
        q.(slp := q.slp + 1)
      else q
    else q
  }

  /** reportPortsLpbStatus; `up` when the port's admin state reads as up. */
  function Report(p: Port, up: bool): Port {
    if p.down && up then p.(down := false) else p
  }

  /** resetLpbPort when resetting is allowed; `sent` when its notice could be sent. */
  function Reset(p: Port, sent: bool): Port {
    if p.down && sent then p.(down := false, mask := false, cnt := 0) else p
  }

  datatype Event =
    | Detected(shutdown: bool)
    | QuietPass(ready: bool)
    | WakePass
    | ReportPass(up: bool)
    | ResetPass(sent: bool)

  function Next(p: Port, x: Event, c: Config): Port {
    match x
    case Detected(shutdown) => Detect(p, shutdown, c)
    case QuietPass(ready) => Quiet(p, ready)
    case WakePass => WakeUp(p, c)
    case ReportPass(up) => Report(p, up)
    case ResetPass(sent) => Reset(p, sent)
  }

  function Run(p: Port, xs: seq<Event>, c: Config): Port
    decreases xs
  {
    if xs == [] then p else Run(Next(p, xs[0], c), xs[1..], c)
  }

  // ---- the invariant no single routine shows ----

  /** A port held shut is masked and has a zero quiet count, and so has every unmasked port. */
  predicate Sound(p: Port) {
    (p.down ==> p.mask && p.cnt == 0) && (!p.mask ==> p.cnt == 0)
  }

  lemma NextSound(p: Port, x: Event, c: Config)
    requires Sound(p)
    ensures Sound(Next(p, x, c))
  {
  }

  lemma {:induction false} RunSound(p: Port, xs: seq<Event>, c: Config)
    requires Sound(p)
    ensures Sound(Run(p, xs, c))
    decreases xs
  {
    if xs != [] {
      NextSound(p, xs[0], c);
      RunSound(Next(p, xs[0], c), xs[1..], c);
    }
  }

  // ---- the quiet counter ----

  /** Every two quiet passes have a wake-up pass between them, as in each detection cycle; `due` when a
      quiet pass has been made since the last wake-up pass. */
  predicate Cyclic(xs: seq<Event>, due: bool) {
    xs == [] ||
    (if xs[0].QuietPass? then !due && Cyclic(xs[1..], true)
     else Cyclic(xs[1..], due && !xs[0].WakePass?))
  }

  predicate Bounded(p: Port, due: bool) {
    Sound(p) && p.cnt <= QUIET_LIMIT - (if due then 0 else 1)
  }

  /** In every detection cycle the quiet counter stays at most ten. */
  lemma {:induction false} QuietCountBounded(p: Port, xs: seq<Event>, c: Config, due: bool)
    requires Bounded(p, due) && Cyclic(xs, due)
    ensures Sound(Run(p, xs, c)) && Run(p, xs, c).cnt <= QUIET_LIMIT
    decreases xs
  {
    if xs != [] {
      var due' := if xs[0].QuietPass? then true else due && !xs[0].WakePass?;
      QuietCountBounded(Next(p, xs[0], c), xs[1..], c, due');
    }
  }

  predicate Counted(p: Port, x: Event) {
    x.QuietPass? && x.ready && !p.down
  }

  /** Nothing but quiet passes, wake-up passes and reports: no new detection, no reset that takes effect. */
  predicate NoNews(xs: seq<Event>) {
    forall i :: 0 <= i < |xs| ==> !xs[i].Detected? && !(xs[i].ResetPass? && xs[i].sent)
  }

  /** The quiet intervals counted over a run. */
  function QuietIntervals(p: Port, xs: seq<Event>, c: Config): nat
    decreases xs
  {
    if xs == [] then 0
    else (if Counted(p, xs[0]) then 1 else 0) + QuietIntervals(Next(p, xs[0], c), xs[1..], c)
  }

  /** No wake-up pass of the run finds ten quiet intervals. */
  predicate NeverTen(p: Port, xs: seq<Event>, c: Config, q: nat)
    decreases xs
  {
    xs == [] ||
    (&& (xs[0].WakePass? ==> q < QUIET_LIMIT)
     && NeverTen(Next(p, xs[0], c), xs[1..], c, q + if Counted(p, xs[0]) then 1 else 0))
  }

  /** A masked port's alarm is cleared by a wake-up pass exactly when ten quiet intervals have been counted
      since its last detection, never sooner. */
  lemma {:induction false} AlarmClearsAfterTen(p: Port, xs: seq<Event>, c: Config, due: bool, q: nat)
    requires Bounded(p, due) && Cyclic(xs, due) && NoNews(xs)
    requires p.mask && p.cnt == q && NeverTen(p, xs, c, q)
    ensures var p' := Run(p, xs, c);
            && p'.mask && p'.cnt == q + QuietIntervals(p, xs, c) <= QUIET_LIMIT
            && (WakeUp(p', c).mask <==> q + QuietIntervals(p, xs, c) < QUIET_LIMIT)
    decreases xs
  {
    if xs != [] {
      var due' := if xs[0].QuietPass? then true else due && !xs[0].WakePass?;
      AlarmClearsAfterTen(Next(p, xs[0], c), xs[1..], c, due', q + if Counted(p, xs[0]) then 1 else 0);
    }
  }

  // ---- automatic wake-ups ----

  /** The counter is within the configured limit or parked. */
  predicate InRange(p: Port, c: Config) { p.wake <= c.Max() || p.wake == PARKED }

  /** The counter starts over: an alarm is cleared, or a parked port is detected again. */
  predicate StartsOver(p: Port, x: Event, c: Config) {
    (x.WakePass? && Clears(p)) || (x.Detected? && x.shutdown && p.wake == PARKED >= c.Max())
  }

  predicate KeepsCount(p: Port, xs: seq<Event>, c: Config)
    decreases xs
  {
    xs == [] || (!StartsOver(p, xs[0], c) && KeepsCount(Next(p, xs[0], c), xs[1..], c))
  }

  function WakeUps(p: Port, xs: seq<Event>, c: Config): nat
    decreases xs
  {
    if xs == [] then 0
    else (if xs[0].WakePass? && Wakes(p, c) then 1 else 0) + WakeUps(Next(p, xs[0], c), xs[1..], c)
  }

  lemma NextInRange(p: Port, x: Event, c: Config)
    requires c.Max() <= 255 && InRange(p, c)
    ensures InRange(Next(p, x, c), c)
  {
  }

  /** With a limit of at most 255, a looping port is re-enabled at most `maxwakeup` times until its counter
      starts over, and a parked port is not re-enabled at all. */
  lemma {:induction false} WakeUpsAreLimited(p: Port, xs: seq<Event>, c: Config)
    requires c.Max() <= 255 && Sound(p) && InRange(p, c) && KeepsCount(p, xs, c)
    ensures p.wake == PARKED ==> WakeUps(p, xs, c) == 0 && Run(p, xs, c).wake == PARKED
    ensures p.wake != PARKED ==> p.wake + WakeUps(p, xs, c) <= c.Max()
    ensures p.wake != PARKED && Run(p, xs, c).wake != PARKED ==> Run(p, xs, c).wake == p.wake + WakeUps(p, xs, c)
    decreases xs
  {
    if xs != [] {
      NextSound(p, xs[0], c);
      NextInRange(p, xs[0], c);
      WakeUpsAreLimited(Next(p, xs[0], c), xs[1..], c);
    }
  }

  /** A shut-down can park a port exactly when the configured limit is at most 254; with a larger one every
      shut-down leaves the port due for another wake-up. */
  lemma ParkingIff(c: Config)
    ensures (exists p: Port :: Detect(p, true, c).wake >= c.Max()) <==> c.Max() <= 254
  {
    if c.Max() <= 254 {
      assert Detect(BLANK.(wake := c.Max()), true, c).wake >= c.Max();
    }
  }

  /** A shutting detection below the limit starts the sleep over and leaves the counter; one at the limit or beyond it
      parks the port, or, if it is parked, starts the counter over. */
  lemma ShuttingIs(p: Port, c: Config)
    ensures var q := Detect(p, true, c);
      && q.down && q.mask && q.cnt == 0
      && (p.wake < c.Max() ==> q.wake == p.wake && q.slp == 0)
      && (p.wake >= c.Max() ==> q.wake == if p.wake == 255 then 0 else 255)
      && (p.wake >= c.Max() ==> q.slp == if p.wake == 255 then 0 else p.slp)
  {
  }

  /** A detection without shutdown opens the port and leaves its counters; it stays masked. */
  lemma NotShuttingIs(p: Port, c: Config)
    ensures Detect(p, false, c) == p.(mask := true, cnt := 0, down := false)
  {
  }

  /** The port stays shut: nothing detects it, nobody re-enables it, no reset takes effect. */
  predicate HeldShut(xs: seq<Event>) {
    forall i :: 0 <= i < |xs| ==>
                  !xs[i].Detected? && !(xs[i].ReportPass? && xs[i].up) && !(xs[i].ResetPass? && xs[i].sent)
  }

  function Passes(xs: seq<Event>): nat {
    if xs == [] then 0 else (if xs[0].WakePass? then 1 else 0) + Passes(xs[1..])
  }

  function WaitPasses(c: Config): nat { if c.Wait() == 0 then 1 else c.Wait() }

  lemma {:induction false} SleepsOn(p: Port, xs: seq<Event>, c: Config)
    requires Sound(p) && p.down && p.wake < c.Max() && HeldShut(xs)
    requires p.slp + Passes(xs) < WaitPasses(c)
    ensures Run(p, xs, c) == p.(slp := p.slp + Passes(xs))
    decreases xs
  {
    if xs != [] {
      var q := Next(p, xs[0], c);
      assert q == if xs[0].WakePass? then p.(slp := p.slp + 1) else p;
      SleepsOn(q, xs[1..], c);
    }
  }

  /** A shut-down port whose counter is below the limit is re-enabled exactly on the max(1, waitforwakeup)-th
      wake-up pass after its shutdown. */
  lemma WokenOnPass(p: Port, xs: seq<Event>, c: Config)
    requires Sound(p) && Detect(p, true, c).wake < c.Max() && HeldShut(xs)
    requires Passes(xs) < WaitPasses(c)
    ensures var p' := Run(Detect(p, true, c), xs, c);
            p'.down && (Wakes(p', c) <==> Passes(xs) + 1 == WaitPasses(c))
    ensures var p' := Run(Detect(p, true, c), xs, c);
            !WakeUp(p', c).down <==> Passes(xs) + 1 == WaitPasses(c)
  {
    SleepsOn(Detect(p, true, c), xs, c);
  }

  /** A parked port stays shut for good: no number of wake-up passes re-enables it. */
  lemma {:induction false} ParkedStaysShut(p: Port, xs: seq<Event>, c: Config)
    requires c.Max() <= 254 && Sound(p) && p.down && p.wake == PARKED && HeldShut(xs)
    ensures Run(p, xs, c) == p
    decreases xs
  {
    if xs != [] {
      ParkedStaysShut(Next(p, xs[0], c), xs[1..], c);
    }
  }

  /** Once the counter is used up, the next shutting detection parks the port: until it is detected again it is not
      woken, whatever else happens.  The detection after that gives a fresh counter, whose first wake-up comes on the
      max(1, waitforwakeup)-th wake-up pass. */
  lemma {:induction false} UsedUpThenFresh(p: Port, xs: seq<Event>, ys: seq<Event>, c: Config)
    requires 0 < c.Max() <= 254 && Sound(p) && c.Max() <= p.wake && p.wake != PARKED
    requires KeepsCount(Detect(p, true, c), xs, c) && HeldShut(ys) && Passes(ys) < WaitPasses(c)
    ensures WakeUps(Detect(p, true, c), xs, c) == 0
    ensures var q := Detect(Run(Detect(p, true, c), xs, c), true, c);
      && q.down && q.wake == 0 && Run(q, ys, c).down
      && (!WakeUp(Run(q, ys, c), c).down <==> Passes(ys) + 1 == WaitPasses(c))
      && (!WakeUp(Run(q, ys, c), c).down ==> WakeUp(Run(q, ys, c), c).wake == 1)
  {
    var parked := Detect(p, true, c);
    ShuttingIs(p, c);
    NextSound(p, Detected(true), c);
    WakeUpsAreLimited(parked, xs, c);
    RunSound(parked, xs, c);
    var p' := Run(parked, xs, c);
    ShuttingIs(p', c);
    WokenOnPass(p', ys, c);
    SleepsOn(Detect(p', true, c), ys, c);
  }

  // ---- what wake-up passes, reports and resets do ----

  /** A wake-up pass clears an alarm that has been quiet for ten intervals, with all counters.  Otherwise it re-enables
      a masked port held shut when it is below the limit and has waited, counting the wake-up and starting the sleep
      over; below the limit it counts the pass; and it leaves every other port as it is. */
  lemma WakeUpIs(p: Port, c: Config)
    ensures Wakes(p, c) <==> p.mask && p.cnt < 10 && p.down && p.wake < c.Max() && p.slp + 1 >= c.Wait()
    ensures var q := WakeUp(p, c);
      if p.mask && p.cnt >= 10 then q == Port(false, p.down, 0, 0, 0)
      else if Wakes(p, c) then q == Port(true, false, if p.wake < 255 then p.wake + 1 else 0, 0, p.cnt)
      else if p.mask && p.down && p.wake < c.Max() then q == p.(slp := p.slp + 1)
      else q == p
  {
  }

  /** A quiet pass counts one more quiet interval of a masked open port with no loop frame waiting, and does nothing to
      any other. */
  lemma QuietIs(p: Port, ready: bool)
    ensures Quiet(p, ready) ==
            if p.mask && !p.down && ready then p.(cnt := if p.cnt < 255 then p.cnt + 1 else 0) else p
  {
  }

  /** A port that reads as up is open after the report, and nothing else about it changes; one that does not is left
      as it is. */
  lemma ReportIs(p: Port, up: bool)
    ensures Report(p, up).(down := p.down) == p
    ensures Report(p, up).down <==> p.down && !up
  {
  }

  /** A reset whose notice was sent leaves a shut port open, unmasked and uncounted, with its wake-up counters; any
      other reset leaves the port as it is. */
  lemma ResetIs(p: Port, sent: bool)
    ensures var q := Reset(p, sent);
      && q.wake == p.wake && q.slp == p.slp
      && (q.down <==> p.down && !sent) && (q.mask <==> p.mask && !(p.down && sent))
      && q.cnt == if p.down && sent then 0 else p.cnt
  {
  }

  // ---- limits that do not fit the counter ----

  lemma {:induction false} WakeUpsJoin(p: Port, a: seq<Event>, b: seq<Event>, c: Config)
    ensures Run(p, a + b, c) == Run(Run(p, a, c), b, c)
    ensures WakeUps(p, a + b, c) == WakeUps(p, a, c) + WakeUps(Run(p, a, c), b, c)
    ensures KeepsCount(p, a + b, c) <==> KeepsCount(p, a, c) && KeepsCount(Run(p, a, c), b, c)
    decreases a
  {
    if a == [] {
      assert a + b == b;
    } else {
      assert (a + b)[1..] == a[1..] + b;
      WakeUpsJoin(Next(p, a[0], c), a[1..], b, c);
    }
  }

  function Waits(n: nat): seq<Event> {
    if n == 0 then [] else [WakePass] + Waits(n - 1)
  }

  lemma {:induction false} WaitsSleep(p: Port, n: nat, c: Config)
    requires Sound(p) && p.down && p.wake < c.Max() && p.slp + n < WaitPasses(c)
    ensures Run(p, Waits(n), c) == p.(slp := p.slp + n)
    ensures WakeUps(p, Waits(n), c) == 0 && KeepsCount(p, Waits(n), c)
    decreases n
  {
    if n > 0 {
      assert Waits(n)[1..] == Waits(n - 1);
      WaitsSleep(Next(p, WakePass, c), n - 1, c);
    }
  }

  /** A port just shut down, and still below the limit. */
  predicate JustShut(p: Port, c: Config) { Sound(p) && p.down && p.slp == 0 && p.wake < c.Max() }

  /** One round: the port sleeps, is re-enabled, and is found looping again. */
  lemma WakeRound(p: Port, c: Config) returns (xs: seq<Event>)
    requires c.Max() >= 256 && JustShut(p, c)
    ensures KeepsCount(p, xs, c) && WakeUps(p, xs, c) == 1 && JustShut(Run(p, xs, c), c)
  {
    var n := WaitPasses(c) - 1;
    var a, b := Waits(n), [WakePass, Detected(true)];
    WaitsSleep(p, n, c);
    var q := p.(slp := n);
    assert b[1..] == [Detected(true)] && b[1..][1..] == [];
    assert Wakes(q, c);
    var r := WakeUp(q, c);
    assert Run(q, b, c) == Run(r, b[1..], c) == Detect(r, true, c);
    assert WakeUps(q, b, c) == 1 + WakeUps(r, b[1..], c);
    assert KeepsCount(r, b[1..], c);
    WakeUpsJoin(p, a, b, c);
    xs := a + b;
  }

  lemma {:induction false} WakeRounds(p: Port, n: nat, c: Config) returns (xs: seq<Event>)
    requires c.Max() >= 256 && JustShut(p, c)
    ensures KeepsCount(p, xs, c) && WakeUps(p, xs, c) == n
    decreases n
  {
    if n == 0 {
      xs := [];
    } else {
      var a := WakeRound(p, c);
      var b := WakeRounds(Run(p, a, c), n - 1, c);
      WakeUpsJoin(p, a, b, c);
      xs := a + b;
    }
  }

  /** No run that keeps its count re-enables the port more than b times. */
  ghost predicate AtMost(p: Port, c: Config, b: nat) {
    forall xs :: KeepsCount(p, xs, c) ==> WakeUps(p, xs, c) <= b
  }

  /** How often a looping port is re-enabled is bounded exactly when the limit is at most 255: the one-byte counter
      never reaches a larger one and wraps around. */
  lemma WakeUpsBoundedIff(c: Config)
    ensures (exists b :: AtMost(First(true), c, b)) <==> c.Max() <= 255
  {
    if c.Max() <= 255 {
      forall xs | KeepsCount(First(true), xs, c)
        ensures WakeUps(First(true), xs, c) <= c.Max()
      {
        WakeUpsAreLimited(First(true), xs, c);
      }
      assert AtMost(First(true), c, c.Max());
    } else {
      forall b: nat
        ensures !AtMost(First(true), c, b)
      {
        var xs := WakeRounds(First(true), b + 1, c);
      }
    }
  }
}
