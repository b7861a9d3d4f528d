/** Exactly when stopping a timer silences it (system/gw_timer.c): the stop flag is looked at only for a circular
    timer that has expired and not been called yet. */
module TimerStop {
  import opened Common
  import opened TimerSpec
  import opened TimerRuns

  /** However the module goes on, timer h makes no further callback until somebody touches it. */
  ghost predicate SilentForever(st: State, h: nat) {
    forall xs :: Legal(st, xs) && Untouched(xs, h) ==> Fires(Run(st, xs).log, h) == Fires(st.log, h)
  }

  /** Where a silenced timer may be. */
  predicate Silenced(st: State, h: nat) {
    && !Has(st.active, h)
    && (Has(st.expired, h) ==> Get(st.expired, h).circle && Get(st.expired, h).stopped)
    && (InCallback(st, h) ==> !st.running.value.circle)
  }

  /** The two places in which a stop comes too late. */
  predicate StopTooLate(st: State, h: nat) {
    || (InCallback(st, h) && st.running.value.circle)
    || (Has(st.expired, h) && !Get(st.expired, h).circle)
  }

  lemma FiresMore(log: seq<Fire>, f: Fire, h: nat)
    ensures Fires(log + [f], h) == Fires(log, h) + One(f.handle == h)
  {
    assert (log + [f])[..|log|] == log;
  }

  lemma {:induction false} GetFlagged(s: seq<Entry>, h: nat)
    requires Has(s, h)
    ensures Has(SetStopped(s, h), h) && Get(SetStopped(s, h), h) == Get(s, h).(stopped := true)
  {
    assert SetStopped(s, h)[1..] == SetStopped(s[1..], h);
    if s[0].handle != h {
      GetFlagged(s[1..], h);
    }
  }

  lemma {:induction false} LacksFlagged(s: seq<Entry>, g: nat, h: nat)
    requires !Has(s, h)
    ensures !Has(SetStopped(s, g), h)
  {
    if s != [] {
      assert SetStopped(s, g)[1..] == SetStopped(s[1..], g);
      LacksFlagged(s[1..], g, h);
    }
  }

  /** What Stop leaves of a timer, wherever it was. */
  lemma AfterStop(st: State, h: nat)
    requires Base(st) && Enabled(st, Stop(h))
    ensures Silenced(Next(st, Stop(h)), h) <==> !StopTooLate(st, h)
  {
    HasCount(st.active, h);
    HasCount(st.expired, h);
    HasCount(Take(st.active, h), h);
    assert Total(st, h) <= 1;
    if Has(st.active, h) {
      TakeCount(st.active, h, h);
    }
    if !Has(st.active, h) && !InCallback(st, h) {
      if Has(st.expired, h) {
        GetFlagged(st.expired, h);
      } else {
        LacksFlagged(st.expired, h, h);
      }
    }
  }

  lemma BeginStaysSilenced(st: State, h: nat)
    requires Base(st) && Enabled(st, Begin) && Silenced(st, h)
    ensures Silenced(Next(st, Begin), h) && Fires(Next(st, Begin).log, h) == Fires(st.log, h)
  {
    HasCount(st.expired, h);
    HasCount(st.expired[1..], h);
    assert Total(st, h) <= 1;
    FiresMore(st.log, Stamp(st.expired[0]), h);
  }

  /** No step on other timers wakes a silenced timer or makes its callback. */
  lemma {:induction false} StaysSilenced(st: State, x: Step, h: nat)
    requires Base(st) && Enabled(st, x) && !Touches(x, h) && Silenced(st, h)
    ensures Silenced(Next(st, x), h) && Fires(Next(st, x).log, h) == Fires(st.log, h)
  {
    match x
    case Scan(d) => ScanLacks(st.active, d, h);
    case Begin => BeginStaysSilenced(st, h);
    case End =>
      if !InCallback(st, h) {
        OthersLeave(st, x, h);
      }
    case Stop(g) =>
      OthersLeave(st, x, h);
      GetSetStopped(st.expired, g, h);
    case _ => OthersLeave(st, x, h);
  }

  lemma {:induction false} SilencedRuns(st: State, xs: seq<Step>, h: nat)
    requires Base(st) && Legal(st, xs) && Untouched(xs, h) && Silenced(st, h)
    ensures Fires(Run(st, xs).log, h) == Fires(st.log, h)
    decreases xs
  {
    if xs != [] {
      StaysSilenced(st, xs[0], h);
      NextBase(st, xs[0]);
      SilencedRuns(Next(st, xs[0]), xs[1..], h);
    }
  }

  // ---- a continuation that sounds what is not silenced ----

  /** The steps that serve all expired timers. */
  function Serve(st: State): seq<Step>
    requires st.running.None?
    decreases |st.expired|
  {
    if st.expired == [] then []
    else
      var st1 := Next(st, Begin);
      if st1.running.Some? then [Begin, End] + Serve(Next(st1, End)) else [Begin] + Serve(st1)
  }

  lemma {:induction false} FiresGrow(st: State, xs: seq<Step>, h: nat)
    requires Legal(st, xs)
    ensures Fires(Run(st, xs).log, h) >= Fires(st.log, h)
    decreases xs
  {
    if xs != [] {
      if xs[0] == Begin {
        FiresMore(st.log, Stamp(st.expired[0]), h);
      }
      FiresGrow(Next(st, xs[0]), xs[1..], h);
    }
  }

  /** One expired timer served: the steps, and where they lead. */
  lemma ServeOne(st: State, h: nat) returns (a: seq<Step>)
    requires st.running.None? && st.expired != []
    ensures Legal(st, a) && Untouched(a, h) && (forall x :: x in a ==> !x.Scan?)
    ensures var st1, e := Run(st, a), st.expired[0];
      && st1.running.None? && st1.expired == st.expired[1..] && Serve(st) == a + Serve(st1)
      && Fires(st1.log, h) == Fires(st.log, h) + One(e.handle == h && !(e.circle && e.stopped))
  {
    FiresMore(st.log, Stamp(st.expired[0]), h);
    var st1 := Next(st, Begin);
    OneStep(st, Begin);
    a := [Begin];
    if st1.running.Some? {
      OneStep(st1, End);
      RunJoin(st, [Begin], [End]);
      a := [Begin] + [End];
    }
  }

  lemma {:induction false} ServeServes(st: State, h: nat)
    requires st.running.None?
    ensures Legal(st, Serve(st)) && Untouched(Serve(st), h) && forall x :: x in Serve(st) ==> !x.Scan?
    ensures Run(st, Serve(st)).expired == [] && Run(st, Serve(st)).running.None?
    ensures Has(st.expired, h) && !Get(st.expired, h).circle ==> Fires(Run(st, Serve(st)).log, h) > Fires(st.log, h)
    decreases |st.expired|
  {
    if st.expired != [] {
      var a := ServeOne(st, h);
      var st1 := Run(st, a);
      ServeServes(st1, h);
      FiresGrow(st1, Serve(st1), h);
      RunJoin(st, a, Serve(st1));
    }
  }

  /** Ending the callback in progress, if there is one, and serving what has expired. */
  function Settle(st: State): seq<Step> {
    if st.running.Some? then [End] + Serve(Next(st, End)) else Serve(st)
  }

  lemma Settles(st: State, h: nat)
    ensures var xs := Settle(st);
      && Legal(st, xs) && Untouched(xs, h) && (forall x :: x in xs ==> !x.Scan?)
      && Run(st, xs).expired == [] && Run(st, xs).running.None?
      && (Has(st.expired, h) && !Get(st.expired, h).circle ==> Fires(Run(st, xs).log, h) > Fires(st.log, h))
  {
    if st.running.Some? {
      ServeServes(Next(st, End), h);
      assert Settle(st)[1..] == Serve(Next(st, End));
    } else {
      ServeServes(st, h);
    }
  }

  /** With no pass in them, steps leave a circular timer's rounds where they are. */
  lemma {:induction false} NoRounds(xs: seq<Step>, n: nat, left: nat)
    requires forall x :: x in xs ==> !x.Scan?
    ensures Rounds(xs, n, left) == (0, left)
  {
    if xs != [] {
      NoRounds(xs[1..], n, left);
    }
  }

  /** Serving what has expired sounds no armed circular timer, and leaves it its time. */
  lemma SettleCircles(st: State, h: nat, n: nat, left: nat)
    requires Base(st) && Circling(st, h, n, left)
    ensures Legal(st, Settle(st)) && Untouched(Settle(st), h)
    ensures var st1 := Run(st, Settle(st));
      && Base(st1) && Circling(st1, h, n, left) && st1.expired == [] && st1.running.None?
      && Fires(st1.log, h) == Sounded(st, h)
  {
    Settles(st, h);
    NoRounds(Settle(st), n, left);
    CirclesInRounds(st, Settle(st), h, n, left);
    RunBase(st, Settle(st));
  }

  /** Between passes a circular timer sounds when its time has passed and what has expired is served. */
  lemma PassSounds(st: State, h: nat, n: nat, left: nat) returns (xs: seq<Step>)
    requires Base(st) && Circling(st, h, n, left) && st.expired == [] && st.running.None?
    ensures Legal(st, xs) && Untouched(xs, h) && Fires(Run(st, xs).log, h) == Fires(st.log, h) + 1
  {
    var x := Scan(left);
    OneStep(st, x);
    ScanCircles(st, left, h, n, left);
    NextBase(st, x);
    var st1 := Next(st, x);
    SettleCircles(st1, h, n, n);
    RunJoin(st, [x], Settle(st1));
    xs := [x] + Settle(st1);
  }

  /** A circular timer that is armed sounds again: serve what has expired, let its time pass, serve again. */
  lemma {:induction false} ArmedSounds(st: State, h: nat, n: nat, left: nat)
    requires Base(st) && Circling(st, h, n, left)
    ensures !SilentForever(st, h)
  {
    var a := Settle(st);
    SettleCircles(st, h, n, left);
    var b := PassSounds(Run(st, a), h, n, left);
    RunJoin(st, a, b);
    assert Untouched(a + b, h);
  }

  /** Stopping a timer silences it, in every continuation that does not touch it, exactly unless it is a circular
      timer in its own callback or a one-shot timer that has expired and not been called yet. */
  lemma {:induction false} StopSilencesIff(st: State, h: nat)
    requires Base(st) && Enabled(st, Stop(h))
    ensures SilentForever(Next(st, Stop(h)), h) <==> !StopTooLate(st, h)
  {
    var st1 := Next(st, Stop(h));
    NextBase(st, Stop(h));
    AfterStop(st, h);
    if !StopTooLate(st, h) {
      forall xs | Legal(st1, xs) && Untouched(xs, h)
        ensures Fires(Run(st1, xs).log, h) == Fires(st1.log, h)
      {
        SilencedRuns(st1, xs, h);
      }
    } else if InCallback(st, h) && st.running.value.circle {
      SelfStopSounds(st, h);
    } else {
      HasCount(st.active, h);
      HasCount(st.expired, h);
      assert Total(st, h) <= 1;
      GetFlagged(st.expired, h);
      Settles(st1, h);
    }
  }

  /** Inside its own callback a stopped circular timer is armed again by the callback's end. */
  lemma SelfStopCircles(st: State, h: nat)
    requires Base(st) && InCallback(st, h) && st.running.value.circle
    ensures var st2, n := Next(Next(st, Stop(h)), End), st.running.value.interval;
      Base(st2) && Circling(st2, h, n, n) && st2.log == st.log
  {
    var st1 := Next(st, Stop(h));
    NextBase(st, Stop(h));
    NextBase(st1, End);
    HasCount(st.active, h);
    HasCount(st.expired, h);
    assert Total(st, h) <= 1;
    if Has(st.active, h) {
      TakeCount(st.active, h, h);
    }
    HasCount(st1.active, h);
    GetInsert(st1.active, Armed(st1, st1.running.value), h);
  }

  /** So it sounds again. */
  lemma SelfStopSounds(st: State, h: nat)
    requires Base(st) && InCallback(st, h) && st.running.value.circle
    ensures !SilentForever(Next(st, Stop(h)), h)
  {
    var st1, n := Next(st, Stop(h)), st.running.value.interval;
    var st2 := Next(st1, End);
    SelfStopCircles(st, h);
    ArmedSounds(st2, h, n, n);
    var xs :| Legal(st2, xs) && Untouched(xs, h) && Fires(Run(st2, xs).log, h) != Fires(st2.log, h);
    var ys := [End] + xs;
    assert ys[1..] == xs && Legal(st1, ys) && Untouched(ys, h) && Run(st1, ys) == Run(st2, xs);
  }

  /** Both failing cases are reached: a circular timer stopped in its callback, */
  lemma CircularStoppedTooLate(h: nat)
    ensures var xs := [Add(h, 10, true), Scan(0), Begin];
      Legal(INIT, xs) && InCallback(Run(INIT, xs), h) && Run(INIT, xs).running.value.circle
      && !SilentForever(Next(Run(INIT, xs), Stop(h)), h)
  {
    assert Base(INIT);
    var st1 := Next(INIT, Add(h, 10, true));
    var e := Entry(h, 1, 1, true, false, 1, 0);
    assert st1.active == [e];
    var st2 := Next(st1, Scan(0));
    assert [e][1..] == [];
    assert Survive([e], 0) == [] && Lapse([e], 0) == [e.(remain := 0)];
    var xs := [Add(h, 10, true), Scan(0), Begin];
    ThreeSteps(INIT, xs[0], xs[1], xs[2]);
    RunBase(INIT, xs);
    StopSilencesIff(Run(INIT, xs), h);
  }

  /** and a one-shot timer stopped by another's callback of the same batch. */
  lemma OneShotStoppedTooLate()
    ensures var xs := [Add(1, 10, false), Add(2, 10, false), Scan(0)] + [Begin];
      Legal(INIT, xs) && InCallback(Run(INIT, xs), 1) && Has(Run(INIT, xs).expired, 2)
      && !SilentForever(Next(Run(INIT, xs), Stop(2)), 2)
  {
    assert Base(INIT);
    var e1, e2 := Entry(1, 1, 1, false, false, 1, 0), Entry(2, 1, 1, false, false, 1, 1);
    var st1 := Next(INIT, Add(1, 10, false));
    assert st1.active == [e1];
    var st2 := Next(st1, Add(2, 10, false));
    assert [e1][1..] == [] && st2.active == [e1, e2];
    var st3 := Next(st2, Scan(0));
    assert [e1, e2][1..] == [e2] && [e2][1..] == [];
    assert Lapse([e2], 0) == [e2.(remain := 0)];
    assert st3.expired == [e1.(remain := 0), e2.(remain := 0)];
    var xs := [Add(1, 10, false), Add(2, 10, false), Scan(0)];
    ThreeSteps(INIT, xs[0], xs[1], xs[2]);
    OneStep(st3, Begin);
    RunJoin(INIT, xs, [Begin]);
    assert Run(INIT, xs + [Begin]).expired == [e2.(remain := 0)];
    RunBase(INIT, xs + [Begin]);
    StopSilencesIff(Run(INIT, xs + [Begin]), 2);
  }
}
