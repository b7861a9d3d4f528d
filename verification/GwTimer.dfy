/** system/gw_timer.c on its own data: timer records whose fields are updated in place, and the two lists
    they are moved between.
    The list library's operations are sequence operations.  What the two lists hold is a state of TimerSpec,
    and each routine's effect on it is the step of that name. */
module GwTimer {
  import opened Common
  import opened TimerSpec
  import Runs = TimerRuns
  import Stops = TimerStop

  class Timer {
    const handle: nat
    const circle: bool
    var interval: nat
    var remain: nat
    var stopped: bool
    ghost var deadline: nat
    ghost var born: nat

    /** gw_create_timer. */
    constructor (handle: nat, timeout: nat, circle: bool)
      ensures Value() == Fresh(handle, timeout, circle).(remain := Ticks(timeout))
    {
      this.handle, this.circle := handle, circle;
      interval, remain := Ticks(timeout), Ticks(timeout);
      stopped, deadline, born := false, 0, 0;
    }

    ghost function Value(): Entry
      reads this
    {
      Entry(handle, remain, interval, circle, stopped, deadline, born)
    }

    /** One pass over one timer. */
    method Tick(delta: nat)
      modifies this
      ensures Value() == old(Value()).(remain := Decrement(old(remain), delta))
    {
      if remain < delta {
        remain := 0;
      } else {
        remain := remain - delta;
      }
      if remain > 0 {
        remain := remain - 1;
      }
    }
  }

  lemma {:induction false} SplitSnoc(s: seq<Entry>, e: Entry, d: nat)
    ensures var e' := e.(remain := Decrement(e.remain, d));
            if e'.remain >= 1 then Survive(s + [e], d) == Survive(s, d) + [e'] && Lapse(s + [e], d) == Lapse(s, d)
            else Survive(s + [e], d) == Survive(s, d) && Lapse(s + [e], d) == Lapse(s, d) + [e']
  {
    if s == [] {
      assert s + [e] == [e];
    } else {
      assert (s + [e])[1..] == s[1..] + [e];
      SplitSnoc(s[1..], e, d);
    }
  }

  lemma {:induction false} InsertBehind(a: seq<Entry>, b: seq<Entry>, e: Entry)
    requires forall x :: x in a ==> x.remain <= e.remain
    ensures Insert(a + b, e) == a + Insert(b, e)
  {
    if a == [] {
      assert a + b == b;
    } else {
      assert (a + b)[1..] == a[1..] + b;
      InsertBehind(a[1..], b, e);
    }
  }

  lemma AtFirst<T>(a: seq<T>, b: seq<T>, y: T)
    requires b != []
    ensures (a + b)[|a|] == b[0] && a + b == (a + [b[0]]) + b[1..]
    ensures (a + b)[|a| := y] == (a + [y]) + b[1..]
    ensures Without(a + b, |a|) == a + b[1..]
  {
  }

  /** A pass that has dealt with `seen` and not yet with `todo`. */
  predicate Midway(all: seq<Entry>, d: nat, seen: seq<Entry>, todo: seq<Entry>,
                   active: seq<Entry>, expired: seq<Entry>)
  {
    all == seen + todo && active == Survive(seen, d) + todo && expired == Lapse(seen, d)
  }

  lemma MidwayStep(all: seq<Entry>, d: nat, seen: seq<Entry>, todo: seq<Entry>, active: seq<Entry>, expired: seq<Entry>)
    requires Midway(all, d, seen, todo, active, expired) && todo != []
    ensures var e, k := todo[0].(remain := Decrement(todo[0].remain, d)), |Survive(seen, d)|;
            && active[k] == todo[0]
            && if e.remain >= 1 then
                 && Midway(all, d, seen + [todo[0]], todo[1..], active[k := e], expired)
                 && |Survive(seen + [todo[0]], d)| == k + 1
               else
                 && Midway(all, d, seen + [todo[0]], todo[1..], Without(active, k), expired + [e])
                 && |Survive(seen + [todo[0]], d)| == k
  {
    var e := todo[0].(remain := Decrement(todo[0].remain, d));
    SplitSnoc(seen, todo[0], d);
    AtFirst(seen, todo, todo[0]);
    AtFirst(Survive(seen, d), todo, e);
  }

  function Spliced<T>(s: seq<T>, i: nat, x: T): (r: seq<T>)
    requires i <= |s|
    ensures |r| == |s| + 1
    ensures forall j {:trigger r[j]} :: 0 <= j < |r| ==> r[j] == if j < i then s[j] else if j == i then x else s[j - 1]
  {
    s[..i] + [x] + s[i..]
  }

  class TimerControl {
    var timers: seq<Timer>
    var expire: seq<Timer>
    ghost var active: seq<Entry>   // what the timers in the two lists hold
    ghost var expired: seq<Entry>
    ghost var now: nat
    ghost var arms: nat
    ghost var log: seq<Fire>
    ghost var Repr: set<Timer>

    ghost predicate Valid()
      reads this, Repr
    {
      && |timers| == |active| && |expire| == |expired|
      && (forall i :: 0 <= i < |timers| ==> timers[i] in Repr && timers[i].Value() == active[i])
      && (forall i :: 0 <= i < |expire| ==> expire[i] in Repr && expire[i].Value() == expired[i])
      && (forall i, j :: 0 <= i < j < |timers| ==> timers[i] != timers[j])
      && (forall i, j :: 0 <= i < j < |expire| ==> expire[i] != expire[j])
      && (forall i, j :: 0 <= i < |timers| && 0 <= j < |expire| ==> timers[i] != expire[j])
    }

    /** The module's state, apart from the timers that are in neither list. */
    ghost function Seen(): State
      reads this
    {
      State(active, expired, None, [], now, arms, log)
    }

    constructor ()
      ensures Valid() && Seen() == INIT && Repr == {}
    {
      timers, expire, active, expired, Repr := [], [], [], [], {};
      now, arms, log := 0, 0, [];
    }

    /** The locked loop of gw_process_timer. */
    method Scan(delta: nat)
      requires Valid() && expire == []
      modifies this, timers
      ensures Valid() && Repr == old(Repr)
      ensures forall t :: t in timers || t in expire <==> t in old(timers)
      ensures Seen() == Next(old(Seen()), TimerSpec.Scan(delta))
    {
      var i := 0;
      ghost var all, seen, todo := active, [], active;
      while i < |timers|
        invariant 0 <= i <= |timers| && Valid() && Repr == old(Repr) && i == |Survive(seen, delta)|
        invariant forall t :: t in timers || t in expire <==> t in old(timers)
        invariant Midway(all, delta, seen, todo, active, expired)
        invariant now == old(now) && arms == old(arms) && log == old(log)
        decreases |todo|
      {
        MidwayStep(all, delta, seen, todo, active, expired);
        assert timers[i] in timers;
        seen, todo := seen + [todo[0]], todo[1..];
        var kept := ScanOne(i, delta);
        i := if kept then i + 1 else i;
      }
      assert todo == [] && seen == all;
      now := now + delta + 1;
    }

    /** The body of that loop: this timer stays with its time reduced, or moves to the expired list. */
    method ScanOne(i: nat, delta: nat) returns (kept: bool)
      requires Valid() && i < |timers|
      modifies this, timers[i]
      ensures Valid() && Repr == old(Repr) && now == old(now) && arms == old(arms) && log == old(log)
      ensures forall t :: t in timers || t in expire <==> t in old(timers) || t in old(expire)
      ensures var e := old(active)[i].(remain := Decrement(old(active)[i].remain, delta));
              && kept == (e.remain >= 1)
              && active == (if kept then old(active)[i := e] else Without(old(active), i))
              && expired == (if kept then old(expired) else old(expired) + [e])
    {
      var t := timers[i];
      t.Tick(delta);
      kept := t.remain >= 1;
      if kept {
        active := active[i := t.Value()];
      } else {
        timers, active := Without(timers, i), Without(active, i);
        expire, expired := expire + [t], expired + [t.Value()];
      }
    }

    /** gw_start_timer's scan for the place in front of the first timer with more time left. */
    method FindPlace(remain: nat) returns (i: nat)
      requires Valid()
      ensures i <= |timers|
      ensures forall e: Entry :: e.remain == remain ==> Insert(active, e) == Spliced(active, i, e)
    {
      i := 0;
      while i < |timers| && timers[i].remain <= remain
        invariant 0 <= i <= |timers|
        invariant forall x :: x in active[..i] ==> x.remain <= remain
      {
        assert active[..i + 1] == active[..i] + [active[i]];
        i := i + 1;
      }
      forall e: Entry | e.remain == remain ensures Insert(active, e) == Spliced(active, i, e) {
        InsertBehind(active[..i], active[i..], e);
        assert active == active[..i] + active[i..];
      }
    }

    /** gw_lst_insert. */
    method InsertAt(i: nat, t: Timer)
      requires Valid() && i <= |timers| && t !in timers && t !in expire
      modifies this`timers, this`active, this`Repr
      ensures Valid() && Repr == old(Repr) + {t}
      ensures active == Spliced(old(active), i, t.Value())
      ensures forall u :: u in timers <==> u in old(timers) || u == t
    {
      Repr := Repr + {t};
      timers, active := Spliced(timers, i, t), Spliced(active, i, t.Value());
      assert timers == old(timers)[..i] + [t] + old(timers)[i..];
    }

    /** The part of gw_start_timer that arms a timer of neither list. */
    method ArmTimer(t: Timer)
      requires Valid() && t !in timers && t !in expire
      modifies this, t
      ensures Valid() && Repr == old(Repr) + {t} && expire == old(expire)
      ensures Seen() == Arm(old(Seen()), old(t.Value()))
      ensures forall u :: u in timers <==> u in old(timers) || u == t
      ensures t.interval == old(t.interval)
    {
      ghost var e := Armed(Seen(), t.Value());
      var i := FindPlace(t.interval);
      assert Insert(active, e) == Spliced(active, i, e);
      t.stopped, t.remain := false, t.interval;
      t.deadline, t.born := now + t.interval, arms;
      arms := arms + 1;
      assert t.Value() == e;
      InsertAt(i, t);
    }

    /** gw_start_timer: a timer that is active already is left alone, another is armed.  (A timer that has expired and
        not been called yet is still linked in the other list, which linking it again would corrupt.) */
    method StartTimer(t: Timer)
      requires Valid() && t !in expire && (t in timers ==> !t.stopped)
      modifies this, t
      ensures Valid() && Repr == old(Repr) + {t} && expire == old(expire)
      ensures Seen() == if t in old(timers) then old(Seen()) else Arm(old(Seen()), old(t.Value()))
      ensures forall u :: u in timers <==> u in old(timers) || u == t
      ensures t.interval == old(t.interval)
    {
      var listed := Lookup(t);
      if !listed {
        ArmTimer(t);
      }
    }

    /** gw_lookup_timer, in the active list. */
    method Lookup(t: Timer) returns (found: bool)
      ensures found <==> t in timers
    {
      var i := 0;
      while i < |timers|
        invariant 0 <= i <= |timers| && t !in timers[..i]
      {
        if timers[i] == t {
          return true;
        }
        i := i + 1;
      }
      return false;
    }

    /** Each list has the timer's handle as often as the timer: handles are addresses. */
    ghost predicate OwnHandle(t: Timer)
      reads this
    {
      && !(t in timers && t in expire)
      && Runs.Count(active, t.handle) == Runs.One(t in timers)
      && Runs.Count(expired, t.handle) == Runs.One(t in expire)
    }

    /** gw_stop_timer: flagged in any case, wherever it is, and taken out of the list if it is active. */
    method StopTimer(t: Timer)
      requires Valid() && OwnHandle(t)
      modifies this, t
      ensures Valid() && Repr == old(Repr) && expire == old(expire)
      ensures forall u :: u in timers <==> u in old(timers) && u != t
      ensures Seen() == old(Seen()).(active := Take(old(active), t.handle),
                                     expired := SetStopped(old(expired), t.handle))
      ensures t.Value() == old(t.Value()).(stopped := true)
    {
      var listed := Lookup(t);
      if listed {
        NoneFlagged(expired, t.handle);
        Unlist(t);
      } else {
        NoneFlagged(active, t.handle);
        FlagInactive(t);
      }
    }

    method Unlist(t: Timer)
      requires Valid() && t in timers && t !in expire && Runs.Count(active, t.handle) == 1
      modifies this`timers, this`active, t
      ensures Valid() && active == Take(old(active), t.handle)
      ensures forall u :: u in timers <==> u in old(timers) && u != t
      ensures t.Value() == old(t.Value()).(stopped := true)
    {
      var i := 0;
      while timers[i] != t
        invariant 0 <= i < |timers| && t in timers[i..]
        decreases |timers| - i
      {
        i := i + 1;
      }
      TakeAt(active, i);
      t.stopped := true;
      timers, active := Without(timers, i), Without(active, i);
      assert old(timers) == old(timers)[..i] + [t] + old(timers)[i + 1..];
    }

    method FlagInactive(t: Timer)
      requires Valid() && OwnHandle(t) && t !in timers
      modifies this`expired, t
      ensures Valid() && expired == SetStopped(old(expired), t.handle) && t.Value() == old(t.Value()).(stopped := true)
    {
      ghost var e := expired;
      t.stopped := true;
      expired := SetStopped(e, t.handle);
      forall k | 0 <= k < |expire|
        ensures expire[k].Value() == expired[k]
      {
        if t in expire {
          var j :| 0 <= j < |expire| && expire[j] == t;
          if e[k].handle == t.handle {
            OnlyOne(e, t.handle, j, k);
          }
        } else {
          NoneFlagged(e, t.handle);
        }
      }
    }

    /** gw_retiming_timer: an active timer gets a new time in place, another is left alone. */
    method RetimeTimer(t: Timer, timeout: nat)
      requires Valid() && OwnHandle(t) && (t in timers ==> !t.stopped)
      modifies this`arms, this`active, t
      ensures Valid() && t.stopped == old(t.stopped)
      ensures t.interval == if t in timers then Ticks(timeout) else old(t.interval)
      ensures var was := old(Seen());
        if t !in timers then Seen() == was && t.Value() == old(t.Value())
        else
          var e := Armed(was, old(t.Value()).(interval := Ticks(timeout)));
          Seen() == was.(active := Put(was.active, t.handle, e), arms := was.arms + 1)
    {
      var listed := Lookup(t);
      if listed {
        SetTime(t, Ticks(timeout));
      }
    }

    method SetTime(t: Timer, ticks: nat)
      requires Valid() && t in timers && t !in expire && Runs.Count(active, t.handle) == 1 && !t.stopped
      modifies this`arms, this`active, t
      ensures Valid() && t.Value() == Armed(old(Seen()), old(t.Value()).(interval := ticks))
      ensures arms == old(arms) + 1 && active == Put(old(active), t.handle, t.Value())
    {
      ghost var i :| 0 <= i < |timers| && timers[i] == t;
      t.interval, t.remain := ticks, ticks;
      t.deadline, t.born := now + ticks, arms;
      PutAt(active, i, t.Value());
      arms, active := arms + 1, active[i := t.Value()];
    }

    /** No handle is in the lists twice. */
    ghost predicate Once()
      reads this
    {
      forall h: nat :: Runs.Total(Seen(), h) <= 1
    }

    /** Takes the first expired timer and makes its callback, gw_timer_app_callback; the application's own
        callback is taken to leave the timer module alone. */
    method RunFirst()
      requires Valid() && Once() && expire != []
      modifies this, Repr
      ensures Valid() && Repr == old(Repr)
      ensures Seen() == RunOne(old(Seen()))
    {
      var t := expire[0];
      FirstNotActive(Seen());
      expire, expired := expire[1..], expired[1..];
      if t.circle && t.stopped {
        return;
      }
      t.stopped := false;
      log := log + [Fire(t.handle, t.deadline, t.born)];
      if t.circle {
        StartTimer(t);
      }
    }

    /** gw_process_timer: one pass, then the callbacks of everything it expired. */
    method Process(delta: nat)
      requires Valid() && Once() && expire == []
      modifies this, Repr
      ensures Valid() && Repr == old(Repr) && expire == []
      ensures Seen() == Drain(Next(old(Seen()), TimerSpec.Scan(delta)))
    {
      ScanOnce(Seen(), delta);
      Scan(delta);
      while expire != []
        invariant Valid() && Once() && Repr == old(Repr)
        invariant Drain(Seen()) == Drain(Next(old(Seen()), TimerSpec.Scan(delta)))
        decreases |expire|
      {
        RunOneOnce(Seen());
        RunFirst();
      }
    }
  }

  lemma FirstNotActive(st: State)
    requires st.expired != [] && Runs.Total(st, st.expired[0].handle) <= 1
    ensures !Has(st.active, st.expired[0].handle)
  {
    Runs.HasCount(st.active, st.expired[0].handle);
  }

  lemma ScanOnce(st: State, d: nat)
    requires Enabled(st, Scan(d)) && forall h: nat :: Runs.Total(st, h) <= 1
    ensures forall h: nat :: Runs.Total(Next(st, Scan(d)), h) <= 1
  {
    forall h: nat
      ensures Runs.Total(Next(st, Scan(d)), h) <= 1
    {
      assert Runs.Total(st, h) <= 1;
      Runs.TotalStays(st, Scan(d), h);
    }
  }

  /** The callback of the first expired timer, from begin to end, forgetting timers that are in no list. */
  function RunOne(st: State): (st': State)
    requires st.expired != [] && st.running.None?
    ensures st'.expired == st.expired[1..] && st'.running.None?
  {
    var st1 := Next(st, Begin);
    (if st1.running.Some? then Next(st1, End) else st1).(idle := [])
  }

  lemma RunOneOnce(st: State)
    requires st.expired != [] && st.running.None? && forall h: nat :: Runs.Total(st, h) <= 1
    ensures forall h: nat :: Runs.Total(RunOne(st), h) <= 1
  {
    forall h: nat
      ensures Runs.Total(RunOne(st), h) <= 1
    {
      assert Runs.Total(st, h) <= 1;
      Runs.TotalStays(st, Begin, h);
      var st1 := Next(st, Begin);
      if st1.running.Some? {
        Runs.TotalStays(st1, End, h);
      }
    }
  }

  function Drain(st: State): State
    requires st.running.None?
    decreases |st.expired|
  {
    if st.expired == [] then st else Drain(RunOne(st))
  }

  lemma {:induction false} TakeAt(s: seq<Entry>, i: nat)
    requires i < |s| && Runs.Count(s, s[i].handle) == 1
    ensures Take(s, s[i].handle) == Without(s, i) && Has(s, s[i].handle) && Get(s, s[i].handle) == s[i]
  {
    if i > 0 {
      Runs.HasCount(s[1..], s[i].handle);
      InCount(s[1..], i - 1);
      TakeAt(s[1..], i - 1);
      assert Without(s, i) == [s[0]] + Without(s[1..], i - 1);
    }
  }

  lemma {:induction false} OnlyOne(s: seq<Entry>, h: nat, i: nat, j: nat)
    requires i < |s| && j < |s| && s[i].handle == h == s[j].handle && Runs.Count(s, h) <= 1
    ensures i == j
  {
    if i > 0 && j > 0 {
      OnlyOne(s[1..], h, i - 1, j - 1);
    } else if i > 0 {
      InCount(s[1..], i - 1);
    } else if j > 0 {
      InCount(s[1..], j - 1);
    }
  }

  lemma {:induction false} NoneFlagged(s: seq<Entry>, h: nat)
    requires Runs.Count(s, h) == 0
    ensures SetStopped(s, h) == s && Take(s, h) == s
  {
    if s != [] {
      NoneFlagged(s[1..], h);
      assert SetStopped(s, h) == [s[0]] + SetStopped(s[1..], h);
    }
  }

  lemma {:induction false} InCount(s: seq<Entry>, i: nat)
    requires i < |s|
    ensures Runs.Count(s, s[i].handle) >= 1
  {
    if i > 0 {
      InCount(s[1..], i - 1);
    }
  }

  lemma {:induction false} PutAt(s: seq<Entry>, i: nat, e: Entry)
    requires i < |s| && e.handle == s[i].handle && Runs.Count(s, s[i].handle) == 1
    ensures Put(s, s[i].handle, e) == s[i := e] && Has(s, s[i].handle) && Get(s, s[i].handle) == s[i]
  {
    if i > 0 {
      Runs.HasCount(s[1..], s[i].handle);
      InCount(s[1..], i - 1);
      PutAt(s[1..], i - 1, e);
      assert s[i := e] == [s[0]] + s[1..][i - 1 := e];
    }
  }

  /** One call of gw_process_timer is a run of the state machine that takes delta + 1 ticks, so all that holds
      of runs holds of it. */
  lemma {:induction false} ProcessIsARun(st: State, idle: seq<Entry>)
    requires st.running.None?
    ensures var st1 := st.(idle := idle);
            && Runs.Legal(st1, Stops.Serve(st1)) && Runs.Elapsed(Stops.Serve(st1)) == 0
            && Runs.Run(st1, Stops.Serve(st1)).(idle := []) == Drain(st).(idle := [])
    decreases |st.expired|
  {
    if st.expired != [] {
      var st1 := st.(idle := idle);
      var xs, st2 := Stops.Serve(st1), Next(st1, Begin);
      assert xs[0] == Begin;
      if st2.running.Some? {
        var st3 := Next(st2, End);
        assert xs[1] == End && xs[1..][1..] == Stops.Serve(st3);
        assert Runs.Elapsed(xs) == Runs.Elapsed(xs[1..]) == Runs.Elapsed(xs[1..][1..]);
        assert st3 == RunOne(st).(idle := st3.idle);
        ProcessIsARun(RunOne(st), st3.idle);
      } else {
        assert xs[1..] == Stops.Serve(st2);
        assert st2 == RunOne(st).(idle := st2.idle);
        ProcessIsARun(RunOne(st), st2.idle);
      }
    }
  }
}
