/** The broadcast-storm controller of one port (apps/gwd_broadstorm.c), sample by sample. */
module BroadStorm {

  /** A sample taken while the port is up: whether its rate is over the threshold, and whether the controller is
      then set to shut storming ports down rather than limit their rate. */
  datatype Sample = Sample(over: bool, shutdown: bool)

  /** What a sample leads to: shutting the port down, limiting its rate, a storm alarm in rate-limit mode, lifting
      the limit, and an alarm that the storm has stopped. */
  datatype Acts = Acts(down: bool, limit: bool, alarm: bool, lift: bool, stopped: bool)

  /** ulBcStormEventCnt, ulBcStormStopCnt, havebroadcaststorm, havebroadcaststorm_end, timeCouter, startCouter. */
  datatype Counters = Counters(event: nat, stop: nat, have: bool, end: bool, time: nat, start: bool)

  const ZERO := Counters(0, 0, false, false, 0, false)
  const NOTHING := Acts(false, false, false, false, false)

  function Over(c: Counters, shutdown: bool): (Counters, Acts) {
    var d := c.(event := c.event + 1, stop := 0, time := 0);
    if d.event <= 3 then (d, NOTHING)
    else if shutdown then (d.(event := 0, have := true, end := true), NOTHING.(down := true))
    else if d.have then (d.(event := 0), NOTHING.(limit := true))
    else (d.(event := 0, have := true, end := true), NOTHING.(limit := true, alarm := true))
  }

  function Calm(c: Counters): (Counters, Acts) {
    var d := c.(event := 0, stop := if c.end then c.stop + 1 else c.stop, time := if c.start then c.time + 1 else 0);
    if d.end && d.stop > 3 then (d.(start := true, time := 0, end := false, have := false), NOTHING.(lift := true))
    else if d.time > 2 then (d.(start := false, time := 0), NOTHING.(stopped := true))
    else (d, NOTHING)
  }

  function Step(c: Counters, s: Sample): (Counters, Acts) {
    if s.over then Over(c, s.shutdown) else Calm(c)
  }

  /** The counters after a whole history of samples. */
  function After(h: seq<Sample>): Counters
    decreases h
  {
    if h == [] then ZERO else Step(After(h[..|h| - 1]), h[|h| - 1]).0
  }

  /** What the last sample of a history led to. */
  function Done(h: seq<Sample>): Acts {
    if h == [] then NOTHING else Step(After(h[..|h| - 1]), h[|h| - 1]).1
  }

  /** The number of samples on end, at the end of the history, that are (not) over the threshold. */
  function Trailing(h: seq<Sample>, over: bool): nat
    decreases h
  {
    if h == [] || h[|h| - 1].over != over then 0 else 1 + Trailing(h[..|h| - 1], over)
  }

  predicate StormAction(h: seq<Sample>) { Done(h).down || Done(h).limit }

  /** What the counters are, after any history. */
  predicate Inv(c: Counters, h: seq<Sample>) {
    && c.event == Trailing(h, true) % 4
    && c.have == c.end
    && (c.end ==> c.stop == Trailing(h, false) <= 3)
    && c.time <= 2 && c.time <= Trailing(h, false)
    && (!c.start ==> c.time == 0)
  }

  lemma {:induction false} CountersMean(h: seq<Sample>)
    ensures Inv(After(h), h)
    decreases h
  {
    if h != [] {
      CountersMean(h[..|h| - 1]);
    }
  }

  /** A storm action happens exactly at every fourth sample on end over the threshold. */
  lemma ActsEveryFourth(h: seq<Sample>)
    ensures StormAction(h) <==> Trailing(h, true) > 0 && Trailing(h, true) % 4 == 0
  {
    if h != [] {
      CountersMean(h[..|h| - 1]);
    }
  }

  /** What the action is: the port is shut down exactly if that is what the sample asks for, otherwise its rate is
      limited; the alarm comes with a limit that is not in force yet. */
  lemma ActionIs(h: seq<Sample>)
    requires h != []
    ensures var s, d := h[|h| - 1], Done(h);
      && (d.down <==> StormAction(h) && s.shutdown) && (d.limit <==> StormAction(h) && !s.shutdown)
      && (d.alarm <==> d.limit && !After(h[..|h| - 1]).have)
      && (d.lift || d.stopped ==> !s.over) && !(d.lift && d.stopped)
  {
    CountersMean(h[..|h| - 1]);
  }

  /** The calm counter counts calm samples only while there is something to lift. */
  lemma CalmCounts(h: seq<Sample>)
    requires h != []
    ensures var c, p := After(h), After(h[..|h| - 1]);
      c.stop == if h[|h| - 1].over then 0 else if p.end then p.stop + 1 else p.stop
  {
  }

  /** A limit is in force: a storm action was taken, and no four calm samples on end have come since. */
  ghost predicate InForce(h: seq<Sample>) {
    exists i: nat :: Standing(h, i)
  }

  /** The storm action of history h[..i] is still in force. */
  predicate Standing(h: seq<Sample>, i: nat) {
    && 0 < i <= |h| && StormAction(h[..i])
    && forall j :: i <= j <= |h| ==> Trailing(h[..j], false) < 4
  }

  lemma StandingStep(h: seq<Sample>, i: nat)
    requires h != [] && i < |h|
    ensures Standing(h, i) <==> Standing(h[..|h| - 1], i) && Trailing(h, false) < 4
  {
    var p := h[..|h| - 1];
    assert h[..|h|] == h;
    forall j | 0 <= j < |h|
      ensures p[..j] == h[..j]
    {
    }
    if Standing(p, i) && Trailing(h, false) < 4 {
      forall j | i <= j <= |h|
        ensures Trailing(h[..j], false) < 4
      {
        if j < |h| {
          assert Trailing(p[..j], false) < 4;
        }
      }
    }
    if Standing(h, i) {
      forall j | i <= j <= |p|
        ensures Trailing(p[..j], false) < 4
      {
        assert Trailing(h[..j], false) < 4;
      }
    }
  }

  lemma StandingNow(h: seq<Sample>)
    requires h != []
    ensures Standing(h, |h|) <==> StormAction(h)
  {
    assert h[..|h|] == h;
    ActsEveryFourth(h);
  }

  /** In force after one more sample: a storm action now, or in force before and not four calm samples on end. */
  lemma InForceStep(h: seq<Sample>)
    requires h != []
    ensures InForce(h) <==> StormAction(h) || (InForce(h[..|h| - 1]) && Trailing(h, false) < 4)
  {
    StandingNow(h);
    if InForce(h) {
      var i: nat :| Standing(h, i);
      if i < |h| {
        StandingStep(h, i);
      }
    } else if InForce(h[..|h| - 1]) {
      var i: nat :| Standing(h[..|h| - 1], i);
      StandingStep(h, i);
    }
  }

  /** Both flags say whether a limit is in force, and a limit is lifted exactly when one is in force and the fourth
      calm sample on end arrives. */
  lemma {:induction false} LiftsOnFourthCalm(h: seq<Sample>)
    ensures After(h).have == After(h).end == InForce(h)
    ensures Done(h).lift <==> h != [] && InForce(h[..|h| - 1]) && Trailing(h, false) == 4
    decreases h
  {
    if h != [] {
      var p := h[..|h| - 1];
      LiftsOnFourthCalm(p);
      CountersMean(p);
      InForceStep(h);
    }
  }

  // ---- alarms ----

  /** All start alarms and lifts of a history, in order: true for an alarm. */
  function Marks(h: seq<Sample>): seq<bool>
    decreases h
  {
    if h == [] then []
    else Marks(h[..|h| - 1]) + (if Done(h).alarm then [true] else if Done(h).lift then [false] else [])
  }

  predicate Alternate(m: seq<bool>) { forall i :: 0 <= i < |m| ==> m[i] == (i % 2 == 0) }

  lemma AlternateMore(m: seq<bool>, b: bool)
    requires Alternate(m) && b == (|m| % 2 == 0)
    ensures Alternate(m + [b]) && |m + [b]| % 2 == 1 - |m| % 2
  {
  }

  /** What a sample does to the flags in rate-limit mode. */
  lemma FlagsTurn(c: Counters, s: Sample)
    requires c.have == c.end && !s.shutdown
    ensures var (d, a) := Step(c, s);
      && d.have == d.end && !(a.alarm && a.lift)
      && (a.alarm ==> !c.end && d.end) && (a.lift ==> c.end && !d.end) && (!a.alarm && !a.lift ==> d.end == c.end)
  {
  }

  /** With the controller set to limit rates, start alarms and lifts take strict turns, an alarm first. */
  lemma {:induction false} AlarmsAndLiftsAlternate(h: seq<Sample>)
    requires forall s :: s in h ==> !s.shutdown
    ensures Alternate(Marks(h)) && After(h).end == (|Marks(h)| % 2 == 1)
    ensures !(Done(h).alarm && Done(h).lift)
    decreases h
  {
    if h != [] {
      var p := h[..|h| - 1];
      assert h[|h| - 1] in h;
      assert forall s :: s in p ==> s in h;
      AlarmsAndLiftsAlternate(p);
      CountersMean(p);
      var m := Marks(p);
      FlagsTurn(After(p), h[|h| - 1]);
      AlternateMore(m, |m| % 2 == 0);
      if Done(h).alarm {
        assert Marks(h) == m + [true];
      } else if Done(h).lift {
        assert Marks(h) == m + [false];
      } else {
        assert Marks(h) == m;
      }
    }
  }

  /** Calm samples on end since the later of the last sample over the threshold and the last lift or stop alarm. */
  function CalmSince(h: seq<Sample>): nat
    decreases h
  {
    if h == [] then 0
    else
      var p := h[..|h| - 1];
      if h[|h| - 1].over || Done(h).lift || Done(h).stopped then 0 else 1 + CalmSince(p)
  }

  /** A lift has happened that no stop alarm has followed yet. */
  predicate Pending(h: seq<Sample>)
    decreases h
  {
    h != [] && (Done(h).lift || (!Done(h).stopped && Pending(h[..|h| - 1])))
  }

  /** A stop alarm is sent exactly on the third calm sample on end after a lift it has not been sent for yet. */
  lemma {:induction false} StopAlarmIff(h: seq<Sample>)
    ensures After(h).start == Pending(h) && (Pending(h) ==> After(h).time == CalmSince(h))
    ensures Done(h).stopped <==>
            && h != [] && !h[|h| - 1].over && !Done(h).lift
            && Pending(h[..|h| - 1]) && CalmSince(h[..|h| - 1]) == 2
    decreases h
  {
    if h != [] {
      StopAlarmIff(h[..|h| - 1]);
      CountersMean(h[..|h| - 1]);
    }
  }

  lemma More(h: seq<Sample>, s: Sample)
    ensures After(h + [s]) == Step(After(h), s).0 && Done(h + [s]) == Step(After(h), s).1
    ensures Trailing(h + [s], false) == if s.over then 0 else Trailing(h, false) + 1
  {
    assert (h + [s])[..|h|] == h;
  }

  /** When a storm has followed a lift before its stop alarm was sent, the alarm comes on the third calm sample, with
      the new limit still in force. */
  lemma StopAlarmComes(h: seq<Sample>, a: Sample, b: Sample, c: Sample)
    requires h != [] && h[|h| - 1].over && Pending(h) && InForce(h)
    requires !a.over && !b.over && !c.over
    ensures var g := h + [a] + [b] + [c];
      Done(g).stopped && InForce(g)
  {
    var h1, h2, g := h + [a], h + [a] + [b], h + [a] + [b] + [c];
    StopAlarmIff(h);
    LiftsOnFourthCalm(h);
    CountersMean(h);
    More(h, a);
    More(h1, b);
    More(h2, c);
    assert CalmSince(h) == 0;
    LiftsOnFourthCalm(g);
  }

  /** One calm sample back, a limit in force was in force already. */
  lemma {:induction false} CalmBack(h: seq<Sample>)
    requires h != [] && !h[|h| - 1].over && InForce(h)
    ensures InForce(h[..|h| - 1]) && Trailing(h, false) == Trailing(h[..|h| - 1], false) + 1 < 4
  {
    ActsEveryFourth(h);
    InForceStep(h);
  }

  /** One calm sample back that neither lifted nor sent the alarm, the alarm was pending already. */
  lemma PendingBack(h: seq<Sample>)
    requires Pending(h) && CalmSince(h) > 0
    ensures h != [] && !h[|h| - 1].over && Pending(h[..|h| - 1]) && CalmSince(h[..|h| - 1]) == CalmSince(h) - 1
  {
  }

  lemma BackAt(g: seq<Sample>, n: nat)
    requires 0 < n <= |g| && Pending(g[..n]) && CalmSince(g[..n]) > 0 && InForce(g[..n])
    ensures !g[n - 1].over && Pending(g[..n - 1]) && CalmSince(g[..n - 1]) == CalmSince(g[..n]) - 1
    ensures InForce(g[..n - 1]) && Trailing(g[..n], false) == Trailing(g[..n - 1], false) + 1
  {
    var h := g[..n];
    assert h[..|h| - 1] == g[..n - 1];
    PendingBack(h);
    CalmBack(h);
  }

  /** Where the calm samples begin, a limit in force means a sample over the threshold. */
  lemma {:induction false} CalmBegins(h: seq<Sample>)
    requires Pending(h) && CalmSince(h) == 0 && InForce(h)
    ensures h != [] && h[|h| - 1].over && Trailing(h, false) == 0
  {
    LiftsOnFourthCalm(h);
    ActsEveryFourth(h);
    InForceStep(h);
  }

  /** Three samples back from one that sends the stop alarm with a limit in force. */
  lemma {:induction false} StopAlarmBack(g: seq<Sample>)
    requires Done(g).stopped && InForce(g)
    ensures |g| >= 4 && Trailing(g, false) == 3 && g[|g| - 4].over
    ensures Pending(g[..|g| - 3]) && InForce(g[..|g| - 3])
  {
    var n := |g|;
    StopAlarmIff(g);
    CalmBack(g);
    assert Pending(g[..n - 1]) && CalmSince(g[..n - 1]) == 2;
    BackAt(g, n - 1);
    assert CalmSince(g[..n - 2]) == 1;
    BackAt(g, n - 2);
    CalmBegins(g[..n - 3]);
  }

  /** A stop alarm is no sign of a lift.  It is sent with a limit in force exactly on the third calm sample behind
      one over the threshold at which a limit was in force and an earlier lift still waited for its alarm. */
  lemma {:induction false} StopAlarmUnderLimitIff(g: seq<Sample>)
    ensures Done(g).stopped && InForce(g) <==>
            && |g| >= 4 && Trailing(g, false) == 3 && g[|g| - 4].over
            && Pending(g[..|g| - 3]) && InForce(g[..|g| - 3])
  {
    if Done(g).stopped && InForce(g) {
      StopAlarmBack(g);
    } else if |g| >= 4 && Trailing(g, false) == 3 && g[|g| - 4].over {
      var h := g[..|g| - 3];
      if Pending(h) && InForce(h) {
        LastCalm(g);
        SplitThree(g);
        StopAlarmComes(h, g[|g| - 3], g[|g| - 2], g[|g| - 1]);
      }
    }
  }

  lemma SplitThree(g: seq<Sample>)
    requires |g| >= 3
    ensures g == g[..|g| - 3] + [g[|g| - 3]] + [g[|g| - 2]] + [g[|g| - 1]]
  {
  }

  lemma LastCalm(g: seq<Sample>)
    requires |g| >= 3 && Trailing(g, false) == 3
    ensures !g[|g| - 1].over && !g[|g| - 2].over && !g[|g| - 3].over
  {
    var g1 := g[..|g| - 1];
    var g2 := g1[..|g1| - 1];
    assert Trailing(g1, false) == 2 && Trailing(g2, false) == 1;
  }

  /** A history followed by n equal samples. */
  function Then(h: seq<Sample>, s: Sample, n: nat): seq<Sample> {
    if n == 0 then h else Then(h, s, n - 1) + [s]
  }

  lemma ThenMore(h: seq<Sample>, s: Sample, n: nat, c: Counters)
    requires After(Then(h, s, n)) == c
    ensures After(Then(h, s, n + 1)) == Step(c, s).0
  {
    More(Then(h, s, n), s);
  }

  lemma FourOver(h: seq<Sample>, o: Sample, start: bool, stop: nat, n: nat)
    requires o == Sample(true, false) && After(h) == Counters(0, stop, false, false, 0, start) && n == 4
    ensures After(Then(h, o, n)) == Counters(0, 0, true, true, 0, start)
  {
    ThenMore(h, o, 0, After(h));
    ThenMore(h, o, 1, Counters(1, 0, false, false, 0, start));
    ThenMore(h, o, 2, Counters(2, 0, false, false, 0, start));
    ThenMore(h, o, 3, Counters(3, 0, false, false, 0, start));
  }

  lemma FourCalm(h: seq<Sample>, c: Sample, n: nat)
    requires !c.over && After(h) == Counters(0, 0, true, true, 0, false) && n == 4
    ensures After(Then(h, c, n)) == Counters(0, 4, false, false, 0, true)
  {
    ThenMore(h, c, 0, After(h));
    ThenMore(h, c, 1, Counters(0, 1, true, true, 0, false));
    ThenMore(h, c, 2, Counters(0, 2, true, true, 0, false));
    ThenMore(h, c, 3, Counters(0, 3, true, true, 0, false));
  }

  /** It happens: four samples over the threshold, four calm ones, four over it and three calm ones. */
  lemma StopAlarmUnderLimitHappens()
    ensures var o, c := Sample(true, false), Sample(false, false);
      var g := Then(Then(Then(Then([], o, 4), c, 4), o, 4), c, 3);
      Done(g).stopped && InForce(g)
  {
    var o, c := Sample(true, false), Sample(false, false);
    var h1 := Then([], o, 4);
    FourOver([], o, false, 0, 4);
    var h2 := Then(h1, c, 4);
    FourCalm(h1, c, 4);
    var h3 := Then(h2, o, 4);
    FourOver(h2, o, true, 4, 4);
    StopAlarmIff(h3);
    LiftsOnFourthCalm(h3);
    assert h3 == Then(h2, o, 3) + [o];
    StopAlarmComes(h3, c, c, c);
    assert Then(h3, c, 3) == h3 + [c] + [c] + [c] by {
      assert Then(h3, c, 1) == h3 + [c];
      assert Then(h3, c, 2) == h3 + [c] + [c];
    }
  }

  /** What one pass of the endless loop finds at a port: nothing to count (the port is down, or a reading failed),
      or a sample. */
  datatype Reading = Skipped | Taken(s: Sample)

  function Look(c: Counters, r: Reading): (Counters, Acts) {
    match r
    case Skipped => (c, NOTHING)
    case Taken(s) => Step(c, s)
  }

  /** The per-port arrays of broad_storm_thread. */
  class Monitor {
    const ports: nat
    const eventCnt: array<nat>
    const stopCnt: array<nat>
    const have: array<nat>
    const end: array<nat>
    const timeCounter: array<nat>
    const startCounter: array<nat>

    ghost predicate Valid() {
      && eventCnt.Length == stopCnt.Length == have.Length == end.Length == ports
      && timeCounter.Length == startCounter.Length == ports
      && eventCnt !in {stopCnt, have, end, timeCounter, startCounter}
      && stopCnt !in {have, end, timeCounter, startCounter}
      && have !in {end, timeCounter, startCounter} && end !in {timeCounter, startCounter}
      && timeCounter != startCounter
    }

    ghost function Arrays(): set<object> { {eventCnt, stopCnt, have, end, timeCounter, startCounter} }

    ghost function At(p: nat): Counters
      requires Valid() && p < ports
      reads Arrays()
    {
      Counters(eventCnt[p], stopCnt[p], have[p] != 0, end[p] != 0, timeCounter[p], startCounter[p] != 0)
    }

    constructor (n: nat)
      ensures Valid() && ports == n && fresh(Arrays())
      ensures forall p: nat :: p < n ==> At(p) == ZERO
    {
      ports := n;
      eventCnt := new nat[n](_ => 0);
      stopCnt := new nat[n](_ => 0);
      have := new nat[n](_ => 0);
      end := new nat[n](_ => 0);
      timeCounter := new nat[n](_ => 0);
      startCounter := new nat[n](_ => 0);
    }

    /** One sample of port p. */
    method Watch(p: nat, s: Sample) returns (acts: Acts)
      requires Valid() && p < ports
      modifies Arrays()
      ensures (At(p), acts) == Step(old(At(p)), s)
      ensures forall q: nat :: q < ports && q != p ==> At(q) == old(At(q))
    {
      acts := NOTHING;
      if s.over {
        eventCnt[p] := eventCnt[p] + 1;
        stopCnt[p] := 0;
        timeCounter[p] := 0;
      } else {
        eventCnt[p] := 0;
        timeCounter[p] := if startCounter[p] != 0 then timeCounter[p] + 1 else 0;
        if end[p] != 0 {
          stopCnt[p] := stopCnt[p] + 1;
          if stopCnt[p] > 3 {
            acts := acts.(lift := true);
            startCounter[p] := 1;
            timeCounter[p] := 0;
            end[p] := 0;
            have[p] := 0;
          }
        }
      }
      if eventCnt[p] > 3 {
        if s.shutdown {
          acts := acts.(down := true);
          have[p] := 1;
          end[p] := 1;
        } else {
          acts := acts.(limit := true);
          if have[p] == 0 {
            acts := acts.(alarm := true);
            have[p] := 1;
            end[p] := 1;
          }
        }
        eventCnt[p] := 0;
      }
      if timeCounter[p] > 2 {
        acts := acts.(stopped := true);
        startCounter[p] := 0;
        timeCounter[p] := 0;
      }
    }

    /** One pass over all ports: every port takes its own step, whatever the others do. */
    method Pass(readings: seq<Reading>) returns (acts: seq<Acts>)
      requires Valid() && |readings| == ports
      modifies Arrays()
      ensures |acts| == ports
      ensures forall p: nat :: p < ports ==> (At(p), acts[p]) == Look(old(At(p)), readings[p])
    {
      acts := [];
      var p: nat := 0;
      while p < ports
        invariant p <= ports && |acts| == p
        invariant forall q: nat :: q < p ==> (At(q), acts[q]) == Look(old(At(q)), readings[q])
        invariant forall q: nat :: p <= q < ports ==> At(q) == old(At(q))
      {
        var did := NOTHING;
        if readings[p].Taken? {
          did := Watch(p, readings[p].s);
        }
        acts := acts + [did];
        p := p + 1;
      }
    }
  }
}
