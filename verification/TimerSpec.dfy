/** The software timers of system/gw_timer.c as a state machine on values.  Each locked routine is one
    step; a callback's own calls into the timer module are further steps between its begin and its end. */
module TimerSpec {
  import opened Common

  /** A timer.  `deadline` (the tick count it is due at) and `born` (the order it was armed in) are
      bookkeeping for the proofs: no step looks at them to decide anything. */
  datatype Entry = Entry(handle: nat, remain: nat, interval: nat, circle: bool, stopped: bool,
                         deadline: nat, born: nat)

  datatype Fire = Fire(handle: nat, deadline: nat, born: nat)

  /** `running` is the timer whose callback is in progress, `idle` the allocated timers in no list. */
  datatype State = State(active: seq<Entry>, expired: seq<Entry>, running: Option<Entry>, idle: seq<Entry>,
                         now: nat, arms: nat, log: seq<Fire>)

  const INIT := State([], [], None, [], 0, 0, [])

  datatype Step =
    | Scan(delta: nat)                                     // gw_process_timer, the locked loop
    | Begin                                                // take an expired timer and enter its callback
    | End                                                  // its callback returns
    | Add(handle: nat, timeout: nat, circle: bool)         // gw_timer_add, gw_circle_timer_add
    | Stop(handle: nat)
    | Start(handle: nat)
    | Del(handle: nat)
    | Retime(handle: nat, timeout: nat)

  /** gw_milli_to_ticks. */
  function Ticks(timeout: nat): nat {
    if timeout / 10 == 0 then 1 else timeout / 10
  }

  /** What one pass does to remain_interval when the previous pass overran by `delta` ticks. */
  function Decrement(remain: nat, delta: nat): nat {
    var r := if remain < delta then 0 else remain - delta;
    if r > 0 then r - 1 else r
  }

  /** The timers a pass leaves in the list, and the ones it moves out, both in list order. */
  function Survive(s: seq<Entry>, delta: nat): seq<Entry> {
    if s == [] then []
    else if Decrement(s[0].remain, delta) >= 1 then
      [s[0].(remain := Decrement(s[0].remain, delta))] + Survive(s[1..], delta)
    else Survive(s[1..], delta)
  }

  function Lapse(s: seq<Entry>, delta: nat): seq<Entry> {
    if s == [] then []
    else if Decrement(s[0].remain, delta) >= 1 then Lapse(s[1..], delta)
    else [s[0].(remain := 0)] + Lapse(s[1..], delta)
  }

  /** gw_start_timer's scan: in front of the first timer that has more time left. */
  function Insert(s: seq<Entry>, e: Entry): seq<Entry> {
    if s == [] then [e] else if s[0].remain <= e.remain then [s[0]] + Insert(s[1..], e) else [e] + s
  }

  predicate Has(s: seq<Entry>, h: nat) {
    s != [] && (s[0].handle == h || Has(s[1..], h))
  }

  function Get(s: seq<Entry>, h: nat): Entry
    requires Has(s, h)
  {
    if s[0].handle == h then s[0] else Get(s[1..], h)
  }

  function Take(s: seq<Entry>, h: nat): seq<Entry> {
    if s == [] then [] else if s[0].handle == h then s[1..] else [s[0]] + Take(s[1..], h)
  }

  /** Puts e in the place of the timer of that handle. */
  function Put(s: seq<Entry>, h: nat, e: Entry): seq<Entry> {
    if s == [] then [] else if s[0].handle == h then [e] + s[1..] else [s[0]] + Put(s[1..], h, e)
  }

  function SetStopped(s: seq<Entry>, h: nat): seq<Entry> {
    seq(|s|, i requires 0 <= i < |s| => if s[i].handle == h then s[i].(stopped := true) else s[i])
  }

  function Fresh(h: nat, timeout: nat, circle: bool): Entry {
    Entry(h, 0, Ticks(timeout), circle, false, 0, 0)
  }

  function Armed(st: State, e: Entry): Entry {
    e.(remain := e.interval, stopped := false, deadline := st.now + e.interval, born := st.arms)
  }

  /** Arming: a full interval, in the list by remaining time. */
  function Arm(st: State, e: Entry): State {
    st.(active := Insert(st.active, Armed(st, e)), arms := st.arms + 1)
  }

  predicate InCallback(st: State, h: nat) {
    st.running.Some? && st.running.value.handle == h
  }

  predicate Known(st: State, h: nat) {
    Has(st.active, h) || Has(st.expired, h) || Has(st.idle, h) || InCallback(st, h)
  }

  /** The timer thread is sequential, and handles are addresses.  A timer that has expired and not been called yet must
      not be started or deleted, nor a timer be deleted in its own callback. */
  predicate Enabled(st: State, x: Step) {
    match x
    case Scan(_) => st.expired == [] && st.running.None?
    case Begin => st.expired != [] && st.running.None?
    case End => st.running.Some?
    case Add(h, timeout, _) => !Known(st, h) && timeout > 0
    case Stop(h) => Known(st, h)
    case Start(h) => Has(st.active, h) || Has(st.idle, h) || InCallback(st, h)
    case Del(h) => (Has(st.active, h) || Has(st.idle, h)) && !InCallback(st, h)
    case Retime(h, _) => Known(st, h)
  }

  /** A timer started in its own callback is active while the callback goes on; `running` then still stands for the
      same timer.  If it is a one-shot timer, the callback's end leaves it active (with a flag that is never looked
      at for a one-shot timer, and not modelled). */
  function Next(st: State, x: Step): State
    requires Enabled(st, x)
  {
    match x
    case Scan(d) =>
      st.(active := Survive(st.active, d), expired := Lapse(st.active, d), now := st.now + d + 1)
    case Begin =>
      var e := st.expired[0];
      if e.circle && e.stopped then st.(expired := st.expired[1..], idle := st.idle + [e])
      else st.(expired := st.expired[1..], running := Some(e.(stopped := false)),
               log := st.log + [Fire(e.handle, e.deadline, e.born)])
    case End =>
      var e := st.running.value;
      if e.circle && !Has(st.active, e.handle) then Arm(st.(running := None), e) else st.(running := None)
    case Add(h, timeout, circle) =>
      Arm(st, Fresh(h, timeout, circle))
    case Stop(h) =>
      if InCallback(st, h) then
        st.(active := if Has(st.active, h) then Take(st.active, h) else st.active,
            running := Some(st.running.value.(stopped := true)))
      else if Has(st.active, h) then
        st.(active := Take(st.active, h), idle := st.idle + [Get(st.active, h).(stopped := true)])
      else st.(expired := SetStopped(st.expired, h))
    case Start(h) =>
      if Has(st.active, h) then st
      else if InCallback(st, h) then
        Arm(st.(running := Some(st.running.value.(stopped := false))), st.running.value)
      else Arm(st.(idle := Take(st.idle, h)), Get(st.idle, h))
    case Del(h) =>
      if Has(st.active, h) then st.(active := Take(st.active, h)) else st.(idle := Take(st.idle, h))
    case Retime(h, timeout) =>
      if !Has(st.active, h) then st
      else
        var n := Ticks(timeout);
        st.(active := Put(st.active, h, Armed(st, Get(st.active, h).(interval := n))), arms := st.arms + 1,
            running := if InCallback(st, h) then Some(st.running.value.(interval := n)) else st.running)
  }
}
