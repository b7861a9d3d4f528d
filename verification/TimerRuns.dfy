/** Whole runs of the timer module: nothing is lost, order is kept, and every expiry is exactly on time. */
module TimerRuns {
  import opened Common
  import opened TimerSpec

  // ---- order ----

  function Stamp(e: Entry): Fire { Fire(e.handle, e.deadline, e.born) }

  function Stamps(s: seq<Entry>): (r: seq<Fire>)
    ensures |r| == |s|
  {
    if s == [] then [] else [Stamp(s[0])] + Stamps(s[1..])
  }

  /** Earlier deadline first, and among equal deadlines the one armed first. */
  predicate Before(a: Fire, b: Fire) {
    a.deadline < b.deadline || (a.deadline == b.deadline && a.born < b.born)
  }

  predicate Sorted(s: seq<Fire>) {
    |s| < 2 || (Before(s[0], s[1]) && Sorted(s[1..]))
  }

  lemma {:induction false} SortedPairs(s: seq<Fire>, i: nat, j: nat)
    requires Sorted(s) && i < j < |s|
    ensures Before(s[i], s[j])
  {
    if i > 0 {
      SortedPairs(s[1..], i - 1, j - 1);
    } else if j > 1 {
      SortedPairs(s[1..], 0, j - 1);
    }
  }

  lemma {:induction false} SortedJoin(a: seq<Fire>, b: seq<Fire>)
    requires Sorted(a) && Sorted(b)
    requires a != [] && b != [] ==> Before(a[|a| - 1], b[0])
    ensures Sorted(a + b)
  {
    if a == [] {
      assert a + b == b;
    } else {
      assert (a + b)[1..] == a[1..] + b;
      SortedJoin(a[1..], b);
    }
  }

  lemma {:induction false} SortedParts(a: seq<Fire>, b: seq<Fire>)
    requires Sorted(a + b)
    ensures Sorted(a) && Sorted(b)
  {
    if a == [] {
      assert a + b == b;
    } else {
      assert (a + b)[1..] == a[1..] + b;
      SortedParts(a[1..], b);
      assert |a| > 1 ==> (a + b)[1] == a[1];
    }
  }

  // ---- one pass over the list ----

  /** The armed timers: in order, and each with exactly the time left until its deadline. */
  predicate Waiting(s: seq<Entry>, now: nat) {
    s == [] ||
    (&& s[0].deadline == now + s[0].remain && s[0].remain >= 1 && s[0].interval >= 1 && !s[0].stopped
     && (|s| > 1 ==> Before(Stamp(s[0]), Stamp(s[1])))
     && Waiting(s[1..], now))
  }

  lemma {:induction false} WaitingSorted(s: seq<Entry>, now: nat)
    requires Waiting(s, now)
    ensures Sorted(Stamps(s))
  {
    if s != [] {
      WaitingSorted(s[1..], now);
    }
  }

  lemma DecrementIs(r: nat, d: nat)
    ensures Decrement(r, d) == if r <= d + 1 then 0 else r - (d + 1)
  {
  }

  lemma {:induction false} NoneLapse(s: seq<Entry>, now: nat, d: nat)
    requires Waiting(s, now) && (s != [] ==> s[0].remain > d + 1)
    ensures Lapse(s, d) == []
    ensures Waiting(Survive(s, d), now + d + 1) && Stamps(Survive(s, d)) == Stamps(s)
  {
    if s != [] {
      NoneLapse(s[1..], now, d);
      var rest := Survive(s[1..], d);
      assert |rest| == |Stamps(rest)| == |s| - 1;
      assert |s| > 1 ==> Stamp(rest[0]) == Stamps(rest)[0] == Stamp(s[1]);
    }
  }

  /** All deadlines in the list are at most `t`. */
  predicate DueBy(s: seq<Fire>, t: nat) {
    forall f :: f in s ==> f.deadline <= t
  }

  /** A pass moves out a prefix of the list, exactly the timers due by the new time, and keeps the rest in
      order with exactly the time they have left. */
  lemma {:induction false} ScanTakesPrefix(s: seq<Entry>, now: nat, d: nat)
    requires Waiting(s, now)
    ensures Stamps(s) == Stamps(Lapse(s, d)) + Stamps(Survive(s, d))
    ensures Waiting(Survive(s, d), now + d + 1) && DueBy(Stamps(Lapse(s, d)), now + d + 1)
    ensures forall f :: f in Stamps(Survive(s, d)) ==> f in Stamps(s)
  {
    if s != [] {
      DecrementIs(s[0].remain, d);
      if s[0].remain > d + 1 {
        NoneLapse(s, now, d);
      } else {
        ScanTakesPrefix(s[1..], now, d);
        var out := Lapse(s, d);
        assert out[1..] == Lapse(s[1..], d) && Stamp(out[0]) == Stamp(s[0]);
      }
    }
  }

  // ---- arming ----

  lemma {:induction false} InsertWaiting(s: seq<Entry>, e: Entry, now: nat)
    requires Waiting(s, now)
    requires e.deadline == now + e.remain && e.remain >= 1 && e.interval >= 1 && !e.stopped
    requires forall f :: f in Stamps(s) ==> f.born < e.born
    ensures Waiting(Insert(s, e), now)
    ensures forall f :: f in Stamps(Insert(s, e)) ==> f in Stamps(s) || f == Stamp(e)
  {
    if s == [] {
      assert Stamps([e]) == [Stamp(e)];
    } else if s[0].remain <= e.remain {
      assert Stamps(s)[0] in Stamps(s);
      assert forall f :: f in Stamps(s[1..]) ==> f in Stamps(s);
      InsertWaiting(s[1..], e, now);
      assert Insert(s, e)[1..] == Insert(s[1..], e);
    } else {
      assert Insert(s, e)[1..] == s;
    }
  }

  lemma {:induction false} TakeWaiting(s: seq<Entry>, h: nat, now: nat)
    requires Waiting(s, now)
    ensures Waiting(Take(s, h), now)
    ensures forall f :: f in Stamps(Take(s, h)) ==> f in Stamps(s)
    ensures Take(s, h) != [] ==> s != [] && (Take(s, h)[0] == s[0] || (|s| > 1 && Take(s, h)[0] == s[1]))
  {
    if s != [] && s[0].handle != h {
      TakeWaiting(s[1..], h, now);
      assert Take(s, h)[1..] == Take(s[1..], h);
      if |s| > 2 && Take(s[1..], h)[0] == s[2] {
        assert Before(Stamp(s[0]), Stamp(s[1])) && Before(Stamp(s[1]), Stamp(s[2]));
      }
    }
  }

  // ---- conservation ----

  function One(b: bool): nat { if b then 1 else 0 }

  /** How often the timer `h` occurs in a list. */
  function Count(s: seq<Entry>, h: nat): nat {
    if s == [] then 0 else One(s[0].handle == h) + Count(s[1..], h)
  }

  /** In its callback and in no list. */
  predicate Away(st: State, h: nat) { InCallback(st, h) && !Has(st.active, h) }

  /** How often the timer `h` occurs among all allocated timers, wherever they are. */
  function Total(st: State, h: nat): nat {
    Count(st.active, h) + Count(st.expired, h) + Count(st.idle, h) + One(Away(st, h))
  }

  lemma {:induction false} HasCount(s: seq<Entry>, h: nat)
    ensures Has(s, h) <==> Count(s, h) >= 1
  {
    if s != [] {
      HasCount(s[1..], h);
    }
  }

  lemma {:induction false} SplitCount(s: seq<Entry>, d: nat, h: nat)
    ensures Count(Survive(s, d), h) + Count(Lapse(s, d), h) == Count(s, h)
  {
    if s != [] {
      SplitCount(s[1..], d, h);
    }
  }

  lemma {:induction false} InsertCount(s: seq<Entry>, e: Entry, h: nat)
    ensures Count(Insert(s, e), h) == Count(s, h) + One(e.handle == h)
  {
    if s == [] || s[0].remain > e.remain {
      assert Insert(s, e)[1..] == s;
    } else {
      InsertCount(s[1..], e, h);
    }
  }

  lemma {:induction false} TakeCount(s: seq<Entry>, g: nat, h: nat)
    requires Has(s, g)
    ensures Count(s, h) == Count(Take(s, g), h) + One(g == h)
  {
    if s[0].handle != g {
      TakeCount(s[1..], g, h);
    }
  }

  lemma {:induction false} TakeGet(s: seq<Entry>, h: nat)
    requires Has(s, h)
    ensures Get(s, h).handle == h && Get(s, h) in s
  {
    if s[0].handle != h {
      TakeGet(s[1..], h);
    }
  }

  lemma {:induction false} TakeIn(s: seq<Entry>, h: nat)
    ensures forall e :: e in Take(s, h) ==> e in s
  {
    if s != [] && s[0].handle != h {
      TakeIn(s[1..], h);
    }
  }

  lemma {:induction false} SnocCount(s: seq<Entry>, e: Entry, h: nat)
    ensures Count(s + [e], h) == Count(s, h) + One(e.handle == h)
  {
    if s == [] {
      assert s + [e] == [e];
    } else {
      SnocCount(s[1..], e, h);
      assert (s + [e])[1..] == s[1..] + [e];
    }
  }

  lemma {:induction false} StopKeeps(s: seq<Entry>, g: nat, h: nat)
    ensures Count(SetStopped(s, g), h) == Count(s, h) && Stamps(SetStopped(s, g)) == Stamps(s)
  {
    if s != [] {
      assert SetStopped(s, g)[1..] == SetStopped(s[1..], g);
      StopKeeps(s[1..], g, h);
    }
  }

  lemma {:induction false} PutCount(s: seq<Entry>, g: nat, e: Entry, h: nat)
    requires e.handle == g
    ensures Count(Put(s, g, e), h) == Count(s, h)
  {
    if s != [] && s[0].handle != g {
      PutCount(s[1..], g, e, h);
      assert Put(s, g, e)[1..] == Put(s[1..], g, e);
    }
  }

  lemma ArmCount(st: State, e: Entry, h: nat)
    ensures Count(Arm(st, e).active, h) == Count(st.active, h) + One(e.handle == h)
  {
    InsertCount(st.active, Armed(st, e), h);
  }

  lemma StopCount(st: State, g: nat, h: nat)
    requires Enabled(st, Stop(g)) && Total(st, h) <= 1
    ensures Total(Next(st, Stop(g)), h) == Total(st, h)
  {
    HasCount(st.active, h);
    HasCount(Next(st, Stop(g)).active, h);
    if Has(st.active, g) {
      TakeCount(st.active, g, h);
      TakeGet(st.active, g);
      SnocCount(st.idle, Get(st.active, g).(stopped := true), h);
    } else if !InCallback(st, g) {
      StopKeeps(st.expired, g, h);
    }
  }

  lemma StartCount(st: State, g: nat, h: nat)
    requires Enabled(st, Start(g)) && Total(st, h) <= 1
    ensures Total(Next(st, Start(g)), h) == Total(st, h)
  {
    var st' := Next(st, Start(g));
    HasCount(st.active, h);
    HasCount(st'.active, h);
    if Has(st.active, g) {
    } else if InCallback(st, g) {
      ArmCount(st, st.running.value, h);
    } else {
      TakeCount(st.idle, g, h);
      TakeGet(st.idle, g);
      ArmCount(st.(idle := Take(st.idle, g)), Get(st.idle, g), h);
    }
  }

  lemma DelCount(st: State, g: nat, h: nat)
    requires Enabled(st, Del(g)) && Total(st, h) <= 1
    ensures Total(Next(st, Del(g)), h) == Total(st, h) - One(g == h)
  {
    HasCount(st.active, h);
    HasCount(Next(st, Del(g)).active, h);
    if Has(st.active, g) {
      TakeCount(st.active, g, h);
    } else {
      TakeCount(st.idle, g, h);
    }
  }

  lemma RetimeCount(st: State, g: nat, timeout: nat, h: nat)
    requires Enabled(st, Retime(g, timeout))
    ensures Total(Next(st, Retime(g, timeout)), h) == Total(st, h)
  {
    if Has(st.active, g) {
      TakeGet(st.active, g);
      PutCount(st.active, g, Armed(st, Get(st.active, g).(interval := Ticks(timeout))), h);
    }
    HasCount(st.active, h);
    HasCount(Next(st, Retime(g, timeout)).active, h);
  }

  lemma CallbackCount(st: State, x: Step, h: nat)
    requires Enabled(st, x) && (x.Begin? || x.End?) && Total(st, h) <= 1
    ensures Total(Next(st, x), h) == Total(st, h) - One(x.End? && !st.running.value.circle && Away(st, h))
  {
    HasCount(st.active, h);
    HasCount(st.expired, h);
    HasCount(Next(st, x).active, h);
    if x.Begin? {
      SnocCount(st.idle, st.expired[0], h);
    } else {
      ArmCount(st.(running := None), st.running.value, h);
    }
  }

  /** No step loses or duplicates a timer: adding and deleting change its occurrences by one, a one-shot timer that has
      not been started again is released when its callback returns, and every other step only moves timers about. */
  lemma Conservation(st: State, x: Step, h: nat)
    requires Enabled(st, x) && Total(st, h) <= 1
    ensures Total(Next(st, x), h) == match x
                                     case Add(g, _, _) => Total(st, h) + One(g == h)
                                     case Del(g) => Total(st, h) - One(g == h)
                                     case End => Total(st, h) - One(!st.running.value.circle && Away(st, h))
                                     case _ => Total(st, h)
  {
    match x {
      case Scan(d) => SplitCount(st.active, d, h);
      case Begin => CallbackCount(st, x, h);
      case End => CallbackCount(st, x, h);
      case Add(g, timeout, circle) =>
        ArmCount(st, Fresh(g, timeout, circle), h);
        HasCount(st.active, h);
        HasCount(Next(st, x).active, h);
      case Stop(g) => StopCount(st, g, h);
      case Start(g) => StartCount(st, g, h);
      case Del(g) => DelCount(st, g, h);
      case Retime(g, timeout) => RetimeCount(st, g, timeout, h);
    }
  }

  // ---- every reachable state ----

  predicate Healthy(s: seq<Entry>) {
    forall e :: e in s ==> e.interval >= 1
  }

  /** Every active timer has exactly the time left until its deadline. */
  predicate Exact(s: seq<Entry>, now: nat) {
    forall e :: e in s ==> e.deadline == now + e.remain && e.remain >= 1 && e.interval >= 1 && !e.stopped
  }

  /** No timer is in two places, the active ones are armed and have exactly their time left, and whatever is in no
      list has been stopped. */
  ghost predicate Base(st: State) {
    && (forall h: nat :: Total(st, h) <= 1)
    && Exact(st.active, st.now)
    && Healthy(st.expired) && Healthy(st.idle) && (st.running.Some? ==> st.running.value.interval >= 1)
    && forall e :: e in st.idle ==> e.stopped
  }

  lemma {:induction false} ScanExact(s: seq<Entry>, now: nat, d: nat)
    requires Exact(s, now)
    ensures Exact(Survive(s, d), now + d + 1) && Healthy(Lapse(s, d))
  {
    if s != [] {
      assert s[0] in s && forall e :: e in s[1..] ==> e in s;
      ScanExact(s[1..], now, d);
    }
  }

  lemma {:induction false} InsertIn(s: seq<Entry>, e: Entry)
    ensures forall x :: x in Insert(s, e) <==> x in s || x == e
  {
    if s != [] && s[0].remain <= e.remain {
      InsertIn(s[1..], e);
    }
  }

  lemma {:induction false} PutIn(s: seq<Entry>, h: nat, e: Entry)
    ensures forall x :: x in Put(s, h, e) ==> x in s || x == e
  {
    if s != [] && s[0].handle != h {
      PutIn(s[1..], h, e);
    }
  }

  lemma ArmExact(st: State, e: Entry)
    requires Exact(st.active, st.now) && e.interval >= 1
    ensures Exact(Arm(st, e).active, st.now)
  {
    InsertIn(st.active, Armed(st, e));
  }

  lemma TotalStays(st: State, x: Step, h: nat)
    requires Enabled(st, x) && Total(st, h) <= 1
    ensures Total(Next(st, x), h) <= 1
  {
    Conservation(st, x, h);
    HasCount(st.active, h);
    HasCount(st.expired, h);
    HasCount(st.idle, h);
  }

  lemma ListsStay(st: State, x: Step)
    requires Base(st) && Enabled(st, x)
    ensures var st' := Next(st, x);
      && Exact(st'.active, st'.now) && Healthy(st'.expired) && Healthy(st'.idle)
      && (st'.running.Some? ==> st'.running.value.interval >= 1) && forall e :: e in st'.idle ==> e.stopped
  {
    match x {
      case Scan(d) => ScanExact(st.active, st.now, d);
      case Begin =>
      case End => ArmExact(st.(running := None), st.running.value);
      case Add(h, timeout, circle) => ArmExact(st, Fresh(h, timeout, circle));
      case Stop(h) =>
        TakeIn(st.active, h);
        if Has(st.active, h) {
          TakeGet(st.active, h);
        } else {
          FlaggedHealthy(st.expired, h);
        }
      case Start(h) =>
        if !Has(st.active, h) && InCallback(st, h) {
          ArmExact(st, st.running.value);
        } else if !Has(st.active, h) {
          TakeIn(st.idle, h);
          TakeGet(st.idle, h);
          ArmExact(st.(idle := Take(st.idle, h)), Get(st.idle, h));
        }
      case Del(h) =>
        TakeIn(st.active, h);
        TakeIn(st.idle, h);
      case Retime(h, timeout) =>
        if Has(st.active, h) {
          PutIn(st.active, h, Armed(st, Get(st.active, h).(interval := Ticks(timeout))));
        }
    }
  }

  lemma FlaggedHealthy(s: seq<Entry>, h: nat)
    requires Healthy(s)
    ensures Healthy(SetStopped(s, h))
  {
    forall e | e in SetStopped(s, h)
      ensures e.interval >= 1
    {
      var i :| 0 <= i < |s| && e == SetStopped(s, h)[i];
      assert s[i] in s;
    }
  }

  /** Whatever the module is asked to do, and whenever. */
  lemma NextBase(st: State, x: Step)
    requires Base(st) && Enabled(st, x)
    ensures Base(Next(st, x))
  {
    ListsStay(st, x);
    forall h: nat
      ensures Total(Next(st, x), h) <= 1
    {
      TotalStays(st, x, h);
    }
  }

  predicate Legal(st: State, xs: seq<Step>)
    decreases xs
  {
    xs == [] || (Enabled(st, xs[0]) && Legal(Next(st, xs[0]), xs[1..]))
  }

  function Run(st: State, xs: seq<Step>): State
    requires Legal(st, xs)
    decreases xs
  {
    if xs == [] then st else Run(Next(st, xs[0]), xs[1..])
  }

  lemma {:induction false} RunBase(st: State, xs: seq<Step>)
    requires Base(st) && Legal(st, xs)
    ensures Base(Run(st, xs))
    decreases xs
  {
    if xs != [] {
      NextBase(st, xs[0]);
      RunBase(Next(st, xs[0]), xs[1..]);
    }
  }

  /** Between passes every timer there is, circular or not, is either in the active list, once and not stopped, or has
      been stopped and is in no list. */
  lemma {:induction false} EveryTimerInPlace(xs: seq<Step>, h: nat)
    requires Legal(INIT, xs) && Run(INIT, xs).expired == [] && Run(INIT, xs).running.None?
    requires Known(Run(INIT, xs), h)
    ensures var st := Run(INIT, xs);
      if Has(st.active, h) then Count(st.active, h) == 1 && !Get(st.active, h).stopped && !Has(st.idle, h)
      else Has(st.idle, h) && Get(st.idle, h).stopped
  {
    RunBase(INIT, xs);
    var st := Run(INIT, xs);
    HasCount(st.active, h);
    HasCount(st.idle, h);
    assert Total(st, h) <= 1;
    if Has(st.active, h) {
      TakeGet(st.active, h);
    } else {
      TakeGet(st.idle, h);
    }
  }

  // ---- order, as long as every retiming fits in ----

  /** The list is in order, and so are the callbacks made and due. */
  ghost predicate Ordered(st: State) {
    && Waiting(st.active, st.now)
    && (forall f :: f in Stamps(st.active) ==> f.born < st.arms)
    && Sorted(st.log + Stamps(st.expired)) && DueBy(st.log + Stamps(st.expired), st.now)
  }

  ghost predicate Inv(st: State) { Base(st) && Ordered(st) }

  lemma {:induction false} LapseLater(s: seq<Entry>, now: nat, d: nat)
    requires Waiting(s, now)
    ensures Lapse(s, d) != [] ==> Stamps(Lapse(s, d))[0].deadline > now
  {
    if s != [] {
      LapseLater(s[1..], now, d);
      assert s[0].deadline > now;
    }
  }

  lemma {:induction false} StampsIn(s: seq<Entry>, e: Entry)
    requires e in s
    ensures Stamp(e) in Stamps(s)
  {
    if s[0] != e {
      StampsIn(s[1..], e);
    }
  }

  lemma LogGrows(log: seq<Fire>, due: seq<Fire>, now: nat, now': nat)
    requires Sorted(log) && Sorted(due) && DueBy(log, now) && DueBy(due, now') && now <= now'
    requires due != [] ==> due[0].deadline > now
    ensures Sorted(log + due) && DueBy(log + due, now')
  {
    if log != [] {
      assert log[|log| - 1] in log;
    }
    SortedJoin(log, due);
  }

  lemma ScanParts(s: seq<Entry>, now: nat, d: nat, arms: nat)
    requires Waiting(s, now) && forall f :: f in Stamps(s) ==> f.born < arms
    ensures Waiting(Survive(s, d), now + d + 1)
    ensures forall f :: f in Stamps(Survive(s, d)) ==> f.born < arms
    ensures Sorted(Stamps(Lapse(s, d))) && DueBy(Stamps(Lapse(s, d)), now + d + 1)
    ensures Lapse(s, d) != [] ==> Stamps(Lapse(s, d))[0].deadline > now
  {
    ScanTakesPrefix(s, now, d);
    LapseLater(s, now, d);
    WaitingSorted(s, now);
    SortedParts(Stamps(Lapse(s, d)), Stamps(Survive(s, d)));
  }

  lemma ScanOrdered(st: State, d: nat)
    requires Ordered(st) && Enabled(st, Scan(d))
    ensures Ordered(Next(st, Scan(d)))
  {
    ScanParts(st.active, st.now, d, st.arms);
    assert st.log + Stamps(st.expired) == st.log;
    LogGrows(st.log, Stamps(Lapse(st.active, d)), st.now, st.now + d + 1);
  }

  lemma ArmOrdered(st: State, e: Entry)
    requires Ordered(st) && e.interval >= 1
    ensures Ordered(Arm(st, e))
  {
    InsertWaiting(st.active, Armed(st, e), st.now);
  }

  lemma StopOrdered(st: State, h: nat)
    requires Ordered(st) && Enabled(st, Stop(h))
    ensures Ordered(Next(st, Stop(h)))
  {
    TakeWaiting(st.active, h, st.now);
    StopKeeps(st.expired, h, h);
  }

  lemma BeginOrdered(st: State)
    requires Ordered(st) && Enabled(st, Begin)
    ensures Ordered(Next(st, Begin))
  {
    var e, rest := st.expired[0], Stamps(st.expired[1..]);
    assert st.log + Stamps(st.expired) == (st.log + [Stamp(e)]) + rest;
    if e.circle && e.stopped {
      SkipSorted(st.log, Stamp(e), rest);
    }
  }

  lemma {:induction false} SkipSorted(a: seq<Fire>, f: Fire, b: seq<Fire>)
    requires Sorted(a + [f] + b)
    ensures Sorted(a + b)
  {
    var s := a + ([f] + b);
    assert s == a + [f] + b;
    SortedParts(a, [f] + b);
    SortedParts(a + [f], b);
    if a != [] && b != [] {
      SortedPairs(s, |a| - 1, |a| + 1);
    }
    SortedJoin(a, b);
  }

  /** Where the list holds the timer. */
  function Place(s: seq<Entry>, h: nat): (i: nat)
    requires Has(s, h)
    ensures i < |s| && s[i] == Get(s, h) && forall j :: 0 <= j < i ==> s[j].handle != h
  {
    if s[0].handle == h then 0 else 1 + Place(s[1..], h)
  }

  /** The new time lies between what its neighbours have left. */
  predicate FitsBetween(s: seq<Entry>, h: nat, ticks: nat)
    requires Has(s, h)
  {
    var i := Place(s, h);
    (i > 0 ==> s[i - 1].remain <= ticks) && (i + 1 < |s| ==> ticks < s[i + 1].remain)
  }

  predicate FitsIn(st: State, x: Step) {
    x.Retime? && Has(st.active, x.handle) ==> FitsBetween(st.active, x.handle, Ticks(x.timeout))
  }

  lemma {:induction false} PutOrderIff(s: seq<Entry>, h: nat, e: Entry, now: nat)
    requires Waiting(s, now) && Has(s, h) && e.handle == h
    requires e.deadline == now + e.remain && e.remain >= 1 && e.interval >= 1 && !e.stopped
    requires forall f :: f in Stamps(s) ==> f.born < e.born
    ensures Waiting(Put(s, h, e), now) <==> FitsBetween(s, h, e.remain)
    ensures forall f :: f in Stamps(Put(s, h, e)) ==> f in Stamps(s) || f == Stamp(e)
    ensures Put(s, h, e) != [] && Put(s, h, e)[0] == if s[0].handle == h then e else s[0]
  {
    var r := Put(s, h, e);
    assert Stamps(s)[0] in Stamps(s) && forall f :: f in Stamps(s[1..]) ==> f in Stamps(s);
    if s[0].handle == h {
      assert r[1..] == s[1..];
      if |s| > 1 {
        assert Stamps(s[1..])[0] == Stamp(s[1]) && Stamp(s[1]) in Stamps(s[1..]);
      }
    } else {
      PutOrderIff(s[1..], h, e, now);
      assert r[1..] == Put(s[1..], h, e);
      assert Place(s, h) == 1 + Place(s[1..], h);
    }
  }

  /** Retiming keeps the list in order exactly when the new time lies between those of the neighbours. */
  lemma RetimeOrderIff(st: State, h: nat, timeout: nat)
    requires Inv(st) && Enabled(st, Retime(h, timeout))
    ensures Ordered(Next(st, Retime(h, timeout))) <==> FitsIn(st, Retime(h, timeout))
  {
    if Has(st.active, h) {
      TakeGet(st.active, h);
      var e := Armed(st, Get(st.active, h).(interval := Ticks(timeout)));
      PutOrderIff(st.active, h, e, st.now);
    }
  }

  /** Every step keeps the order, exactly unless it is a retiming that does not fit. */
  lemma NextInv(st: State, x: Step)
    requires Inv(st) && Enabled(st, x)
    ensures Inv(Next(st, x)) <==> FitsIn(st, x)
  {
    NextBase(st, x);
    match x {
      case Scan(d) => ScanOrdered(st, d);
      case Begin => BeginOrdered(st);
      case End => ArmOrdered(st.(running := None), st.running.value);
      case Add(h, timeout, circle) => ArmOrdered(st, Fresh(h, timeout, circle));
      case Stop(h) => StopOrdered(st, h);
      case Start(h) =>
        if !Has(st.active, h) && InCallback(st, h) {
          ArmOrdered(st, st.running.value);
        } else if !Has(st.active, h) {
          TakeGet(st.idle, h);
          ArmOrdered(st.(idle := Take(st.idle, h)), Get(st.idle, h));
        }
      case Del(h) => TakeWaiting(st.active, h, st.now);
      case Retime(h, timeout) => RetimeOrderIff(st, h, timeout);
    }
  }

  /** Every retiming of the run fits in. */
  predicate AllFitIn(st: State, xs: seq<Step>)
    requires Legal(st, xs)
    decreases xs
  {
    xs == [] || (FitsIn(st, xs[0]) && AllFitIn(Next(st, xs[0]), xs[1..]))
  }

  lemma {:induction false} RunInv(st: State, xs: seq<Step>)
    requires Inv(st) && Legal(st, xs) && AllFitIn(st, xs)
    ensures Inv(Run(st, xs))
    decreases xs
  {
    if xs != [] {
      NextInv(st, xs[0]);
      RunInv(Next(st, xs[0]), xs[1..]);
    }
  }

  lemma {:induction false} RunJoin(st: State, a: seq<Step>, b: seq<Step>)
    requires Legal(st, a) && Legal(Run(st, a), b)
    ensures Legal(st, a + b) && Run(st, a + b) == Run(Run(st, a), b)
    decreases a
  {
    if a == [] {
      assert a + b == b;
    } else {
      assert (a + b)[1..] == a[1..] + b;
      RunJoin(Next(st, a[0]), a[1..], b);
    }
  }

  lemma OneStep(st: State, x: Step)
    requires Enabled(st, x)
    ensures Legal(st, [x]) && Run(st, [x]) == Next(st, x)
  {
    assert [x][1..] == [];
    assert Run(Next(st, x), []) == Next(st, x);
  }

  lemma ThreeSteps(st: State, x: Step, y: Step, z: Step)
    requires Enabled(st, x) && Enabled(Next(st, x), y) && Enabled(Next(Next(st, x), y), z)
    ensures Legal(st, [x, y, z]) && Run(st, [x, y, z]) == Next(Next(Next(st, x), y), z)
  {
    OneStep(st, x);
    OneStep(Next(st, x), y);
    OneStep(Next(Next(st, x), y), z);
    RunJoin(st, [x], [y]);
    RunJoin(st, [x] + [y], [z]);
    assert [x] + [y] + [z] == [x, y, z];
  }

  /** Over a whole run the callbacks are made in deadline order, equal deadlines in the order of arming, and
      none before its deadline. */
  lemma {:induction false} CallbacksInDeadlineOrder(xs: seq<Step>, i: nat, j: nat)
    requires Legal(INIT, xs) && AllFitIn(INIT, xs) && i < j < |Run(INIT, xs).log|
    ensures Before(Run(INIT, xs).log[i], Run(INIT, xs).log[j])
    ensures Run(INIT, xs).log[j].deadline <= Run(INIT, xs).now
  {
    RunInv(INIT, xs);
    var st := Run(INIT, xs);
    SortedParts(st.log, Stamps(st.expired));
    SortedPairs(st.log, i, j);
    assert st.log[j] in st.log + Stamps(st.expired);
  }

  /** The timer in front is retimed past the one behind it. */
  lemma RetimedPast(g: nat, h: nat)
    requires g != h
    ensures var xs := [Add(g, 20, false), Add(h, 30, false), Retime(g, 50)];
      var e1, e2 := Entry(g, 5, 5, false, false, 5, 2), Entry(h, 3, 3, false, false, 3, 1);
      Legal(INIT, xs) && Run(INIT, xs) == State([e1, e2], [], None, [], 0, 3, [])
  {
    var e1, e2 := Entry(g, 2, 2, false, false, 2, 0), Entry(h, 3, 3, false, false, 3, 1);
    var e3 := Entry(g, 5, 5, false, false, 5, 2);
    var st1 := Next(INIT, Add(g, 20, false));
    assert [e1][1..] == [] && st1.active == [e1] && !Has([e1], h);
    var st2 := Next(st1, Add(h, 30, false));
    assert Insert([e1], e2) == [e1, e2];
    assert [e1, e2][1..] == [e2] && Put([e1, e2], g, e3) == [e3, e2];
    ThreeSteps(INIT, Add(g, 20, false), Add(h, 30, false), Retime(g, 50));
  }

  /** One pass then expires both, and they are called in list order. */
  lemma CalledInListOrder(st: State, a: Entry, b: Entry)
    requires st.active == [a, b] && st.expired == [] && st.running.None? && st.log == []
    requires a.remain <= 11 && b.remain <= 11 && !a.circle && !b.circle
    ensures var xs := [Scan(10), Begin, End] + [Begin];
      Legal(st, xs) && Run(st, xs).log == [Stamp(a), Stamp(b)]
  {
    var a0, b0 := a.(remain := 0), b.(remain := 0);
    assert [a, b][1..] == [b] && [b][1..] == [] && Lapse([b], 10) == [b0] && Lapse([a, b], 10) == [a0, b0];
    assert [a0, b0][1..] == [b0];
    ThreeSteps(st, Scan(10), Begin, End);
    var st3 := Run(st, [Scan(10), Begin, End]);
    assert st3.expired == [b0] && st3.log == [Stamp(a)];
    OneStep(st3, Begin);
    RunJoin(st, [Scan(10), Begin, End], [Begin]);
  }

  /** So a retiming that does not fit is reached, and with it callbacks that leave deadline order. */
  lemma RetimingBreaksOrder(g: nat, h: nat)
    requires g != h
    ensures var xs := [Add(g, 20, false), Add(h, 30, false), Retime(g, 50)] + ([Scan(10), Begin, End] + [Begin]);
      && Legal(INIT, xs) && !AllFitIn(INIT, xs)
      && |Run(INIT, xs).log| == 2 && !Before(Run(INIT, xs).log[0], Run(INIT, xs).log[1])
  {
    var a, b := [Add(g, 20, false), Add(h, 30, false), Retime(g, 50)], [Scan(10), Begin, End] + [Begin];
    RetimedPast(g, h);
    var st := Run(INIT, a);
    CalledInListOrder(st, st.active[0], st.active[1]);
    RunJoin(INIT, a, b);
    if AllFitIn(INIT, a + b) {
      CallbacksInDeadlineOrder(a + b, 0, 1);
    }
  }

  // ---- exact expiry ----

  lemma {:induction false} GetInsert(s: seq<Entry>, e: Entry, h: nat)
    ensures e.handle != h ==> (Has(Insert(s, e), h) <==> Has(s, h))
    ensures e.handle != h && Has(s, h) ==> Get(Insert(s, e), h) == Get(s, h)
    ensures e.handle == h ==> Has(Insert(s, e), h)
    ensures e.handle == h && !Has(s, h) ==> Get(Insert(s, e), h) == e
  {
    if s == [] || s[0].remain > e.remain {
      assert Insert(s, e)[1..] == s;
    } else {
      GetInsert(s[1..], e, h);
      assert Insert(s, e)[1..] == Insert(s[1..], e);
    }
  }

  lemma {:induction false} GetTake(s: seq<Entry>, g: nat, h: nat)
    requires g != h
    ensures Has(Take(s, g), h) <==> Has(s, h)
    ensures Has(s, h) ==> Get(Take(s, g), h) == Get(s, h)
  {
    if s != [] && s[0].handle != g {
      GetTake(s[1..], g, h);
      assert Take(s, g)[1..] == Take(s[1..], g);
    }
  }

  lemma {:induction false} GetPut(s: seq<Entry>, g: nat, e: Entry, h: nat)
    requires g != h && e.handle == g
    ensures Has(Put(s, g, e), h) <==> Has(s, h)
    ensures Has(s, h) ==> Get(Put(s, g, e), h) == Get(s, h)
  {
    if s != [] && s[0].handle != g {
      GetPut(s[1..], g, e, h);
      assert Put(s, g, e)[1..] == Put(s[1..], g, e);
    }
  }

  lemma {:induction false} GetSetStopped(s: seq<Entry>, g: nat, h: nat)
    requires g != h
    ensures Has(SetStopped(s, g), h) <==> Has(s, h)
    ensures Has(s, h) ==> Get(SetStopped(s, g), h) == Get(s, h)
  {
    if s != [] {
      assert SetStopped(s, g)[1..] == SetStopped(s[1..], g);
      GetSetStopped(s[1..], g, h);
    }
  }

  lemma {:induction false} GetSnoc(s: seq<Entry>, e: Entry, h: nat)
    requires e.handle != h
    ensures Has(s + [e], h) <==> Has(s, h)
  {
    if s == [] {
      assert s + [e] == [e];
    } else {
      GetSnoc(s[1..], e, h);
      assert (s + [e])[1..] == s[1..] + [e];
    }
  }

  lemma {:induction false} ScanLacks(s: seq<Entry>, d: nat, h: nat)
    requires !Has(s, h)
    ensures !Has(Survive(s, d), h) && !Has(Lapse(s, d), h)
  {
    if s != [] {
      ScanLacks(s[1..], d, h);
      assert Survive(s, d) != [] && Survive(s, d) != Survive(s[1..], d) ==> Survive(s, d)[1..] == Survive(s[1..], d);
      assert Lapse(s, d) != [] && Lapse(s, d) != Lapse(s[1..], d) ==> Lapse(s, d)[1..] == Lapse(s[1..], d);
    }
  }

  /** A pass with overrun d expires a timer exactly when at most d + 1 ticks are left of it, and otherwise
      takes d + 1 ticks off. */
  lemma {:induction false} ScanOne(s: seq<Entry>, d: nat, h: nat)
    requires Has(s, h) && Count(s, h) == 1
    ensures Has(Survive(s, d), h) <==> Get(s, h).remain > d + 1
    ensures Has(Lapse(s, d), h) <==> Get(s, h).remain <= d + 1
    ensures Has(Survive(s, d), h) ==> Get(Survive(s, d), h) == Get(s, h).(remain := Get(s, h).remain - (d + 1))
    ensures Has(Lapse(s, d), h) ==> Get(Lapse(s, d), h) == Get(s, h).(remain := 0)
  {
    DecrementIs(s[0].remain, d);
    var a, b := Survive(s[1..], d), Lapse(s[1..], d);
    if Decrement(s[0].remain, d) >= 1 {
      assert Survive(s, d)[1..] == a && Lapse(s, d) == b;
    } else {
      assert Survive(s, d) == a && Lapse(s, d)[1..] == b;
    }
    if s[0].handle == h {
      HasCount(s[1..], h);
      ScanLacks(s[1..], d, h);
    } else {
      ScanOne(s[1..], d, h);
    }
  }

  predicate Touches(x: Step, h: nat) {
    (x.Add? || x.Stop? || x.Start? || x.Del? || x.Retime?) && x.handle == h
  }

  predicate Untouched(xs: seq<Step>, h: nat) {
    forall i :: 0 <= i < |xs| ==> !Touches(xs[i], h)
  }

  /** The time a run takes: each pass counts one tick and its overrun. */
  function Elapsed(xs: seq<Step>): nat {
    if xs == [] then 0 else (if xs[0].Scan? then xs[0].delta + 1 else 0) + Elapsed(xs[1..])
  }

  /** A step on other timers, and no pass, leaves an active timer as it is and an inactive one inactive, but for the end
      of its own callback. */
  lemma OthersLeave(st: State, x: Step, h: nat)
    requires Enabled(st, x) && !x.Scan? && !Touches(x, h) && (x.End? && InCallback(st, h) ==> Has(st.active, h))
    ensures Has(Next(st, x).active, h) <==> Has(st.active, h)
    ensures Has(st.active, h) ==> Get(Next(st, x).active, h) == Get(st.active, h)
  {
    match x {
      case Begin =>
      case End => GetInsert(st.active, Armed(st, st.running.value), h);
      case Add(g, timeout, circle) => GetInsert(st.active, Armed(st, Fresh(g, timeout, circle)), h);
      case Start(g) => StartLeaves(st, g, h);
      case Stop(g) => GetTake(st.active, g, h);
      case Del(g) => GetTake(st.active, g, h);
      case Retime(g, timeout) =>
        if Has(st.active, g) {
          TakeGet(st.active, g);
          GetPut(st.active, g, Armed(st, Get(st.active, g).(interval := Ticks(timeout))), h);
        }
    }
  }

  lemma StartLeaves(st: State, g: nat, h: nat)
    requires Enabled(st, Start(g)) && g != h
    ensures Has(Next(st, Start(g)).active, h) <==> Has(st.active, h)
    ensures Has(st.active, h) ==> Get(Next(st, Start(g)).active, h) == Get(st.active, h)
  {
    if !Has(st.active, g) && InCallback(st, g) {
      GetInsert(st.active, Armed(st, st.running.value), h);
    } else if !Has(st.active, g) {
      TakeGet(st.idle, g);
      GetInsert(st.active, Armed(st, Get(st.idle, g)), h);
    }
  }

  lemma StepWaits(st: State, x: Step, h: nat)
    requires Base(st) && Enabled(st, x) && Has(st.active, h) && !Touches(x, h)
    requires Elapsed([x]) < Get(st.active, h).remain
    ensures var st', e := Next(st, x), Get(st.active, h);
            Has(st'.active, h) && Get(st'.active, h) == e.(remain := e.remain - Elapsed([x]))
  {
    if x.Scan? {
      HasCount(st.active, h);
      assert Total(st, h) <= 1;
      ScanOne(st.active, x.delta, h);
    } else {
      OthersLeave(st, x, h);
    }
  }

  /** While less time has passed than a timer had left, it waits, with exactly the difference left. */
  lemma {:induction false} WaitsUntilDue(st: State, xs: seq<Step>, h: nat)
    requires Base(st) && Legal(st, xs) && Has(st.active, h) && Untouched(xs, h)
    requires Elapsed(xs) < Get(st.active, h).remain
    ensures var st', e := Run(st, xs), Get(st.active, h);
            Has(st'.active, h) && Get(st'.active, h) == e.(remain := e.remain - Elapsed(xs))
    decreases xs
  {
    if xs != [] {
      assert Elapsed(xs) == Elapsed([xs[0]]) + Elapsed(xs[1..]);
      StepWaits(st, xs[0], h);
      NextBase(st, xs[0]);
      WaitsUntilDue(Next(st, xs[0]), xs[1..], h);
    }
  }

  /** An untouched timer with r ticks left expires exactly on the pass on which the time reaches r. */
  lemma {:induction false} ExpiresExactlyOnTime(st: State, xs: seq<Step>, d: nat, h: nat)
    requires Base(st) && Legal(st, xs) && Has(st.active, h) && Untouched(xs, h)
    requires Elapsed(xs) < Get(st.active, h).remain
    requires Enabled(Run(st, xs), Scan(d))
    ensures Has(Next(Run(st, xs), Scan(d)).expired, h) <==> Elapsed(xs) + d + 1 >= Get(st.active, h).remain
    ensures Has(Next(Run(st, xs), Scan(d)).active, h) <==> Elapsed(xs) + d + 1 < Get(st.active, h).remain
  {
    WaitsUntilDue(st, xs, h);
    RunBase(st, xs);
    HasCount(Run(st, xs).active, h);
    assert Total(Run(st, xs), h) <= 1;
    ScanOne(Run(st, xs).active, d, h);
  }

  // ---- circular timers ----

  function Fires(log: seq<Fire>, h: nat): nat {
    if log == [] then 0 else Fires(log[..|log| - 1], h) + One(log[|log| - 1].handle == h)
  }

  /** What a circular timer of n ticks does over a run, on its own: how often it goes off, and the time it
      then still has to wait.  Overruns that carry it past its due time are not made up. */
  function Rounds(xs: seq<Step>, n: nat, left: nat): (nat, nat)
    decreases xs
  {
    if xs == [] then (0, left)
    else if !xs[0].Scan? then Rounds(xs[1..], n, left)
    else if left > xs[0].delta + 1 then Rounds(xs[1..], n, left - (xs[0].delta + 1))
    else var (count, rest) := Rounds(xs[1..], n, n); (count + 1, rest)
  }

  predicate Going(e: Entry, n: nat) {
    e.circle && e.interval == n && !e.stopped
  }

  /** The timer h is armed with `left` ticks to go, or on its way to being armed again in full. */
  predicate Circling(st: State, h: nat, n: nat, left: nat) {
    if Has(st.expired, h) then left == n && Going(Get(st.expired, h), n)
    else if Has(st.active, h) then Going(Get(st.active, h), n) && Get(st.active, h).remain == left
    else InCallback(st, h) && left == n && Going(st.running.value, n)
  }

  /** Callbacks made and callback due. */
  function Sounded(st: State, h: nat): nat {
    Fires(st.log, h) + One(Has(st.expired, h))
  }

  lemma ScanCircles(st: State, d: nat, h: nat, n: nat, left: nat)
    requires Base(st) && Enabled(st, Scan(d)) && Circling(st, h, n, left)
    ensures var st' := Next(st, Scan(d));
            if left > d + 1 then Circling(st', h, n, left - (d + 1)) && Sounded(st', h) == Sounded(st, h)
            else Circling(st', h, n, n) && Sounded(st', h) == Sounded(st, h) + 1
  {
    HasCount(st.active, h);
    assert Total(st, h) <= 1;
    ScanOne(st.active, d, h);
  }

  lemma {:induction false} BeginCircles(st: State, h: nat, n: nat, left: nat)
    requires Base(st) && Enabled(st, Begin) && Circling(st, h, n, left)
    ensures Circling(Next(st, Begin), h, n, left)
  {
    HasCount(st.expired, h);
    HasCount(st.expired[1..], h);
    HasCount(st.active, h);
    assert Total(st, h) <= 1;
  }

  lemma {:induction false} BeginSounds(st: State, h: nat)
    requires Enabled(st, Begin) && Count(st.expired, h) <= 1
    requires Has(st.expired, h) ==> Going(Get(st.expired, h), Get(st.expired, h).interval)
    ensures Sounded(Next(st, Begin), h) == Sounded(st, h)
  {
    var e := st.expired[0];
    HasCount(st.expired, h);
    HasCount(st.expired[1..], h);
    assert (st.log + [Stamp(e)])[..|st.log|] == st.log;
  }

  lemma OthersCircle(st: State, x: Step, h: nat, n: nat, left: nat)
    requires Base(st) && Enabled(st, x) && !x.Scan? && !x.Begin? && !Touches(x, h) && Circling(st, h, n, left)
    ensures Circling(Next(st, x), h, n, left) && Sounded(Next(st, x), h) == Sounded(st, h)
  {
    HasCount(st.active, h);
    HasCount(st.expired, h);
    assert Total(st, h) <= 1;
    if x.Stop? {
      GetSetStopped(st.expired, x.handle, h);
    }
    if x.End? && Away(st, h) {
      GetInsert(st.active, Armed(st, st.running.value), h);
    } else {
      OthersLeave(st, x, h);
    }
  }

  lemma {:induction false} CirclesInRounds(st: State, xs: seq<Step>, h: nat, n: nat, left: nat)
    requires Base(st) && Legal(st, xs) && Untouched(xs, h) && Circling(st, h, n, left)
    ensures Circling(Run(st, xs), h, n, Rounds(xs, n, left).1)
    ensures Sounded(Run(st, xs), h) == Sounded(st, h) + Rounds(xs, n, left).0
    decreases xs
  {
    if xs != [] {
      var x, st' := xs[0], Next(st, xs[0]);
      NextBase(st, x);
      if x.Scan? {
        ScanCircles(st, x.delta, h, n, left);
        CirclesInRounds(st', xs[1..], h, n, if left > x.delta + 1 then left - (x.delta + 1) else n);
      } else {
        if x.Begin? {
          BeginCircles(st, h, n, left);
          assert Total(st, h) <= 1;
          BeginSounds(st, h);
        } else {
          OthersCircle(st, x, h, n, left);
        }
        CirclesInRounds(st', xs[1..], h, n, left);
      }
    }
  }

  predicate NoOverrun(xs: seq<Step>) {
    forall i :: 0 <= i < |xs| && xs[i].Scan? ==> xs[i].delta == 0
  }

  /** Without overruns the rounds are the quotient and the waiting time is what the remainder leaves. */
  lemma {:induction false} RoundsDivide(xs: seq<Step>, n: nat, left: nat)
    requires NoOverrun(xs) && 1 <= left <= n
    ensures var (count, rest) := Rounds(xs, n, left);
            1 <= rest <= n && Elapsed(xs) + (n - left) == count * n + (n - rest)
    decreases xs
  {
    if xs != [] {
      if !xs[0].Scan? {
        RoundsDivide(xs[1..], n, left);
      } else if left > 1 {
        RoundsDivide(xs[1..], n, left - 1);
      } else {
        RoundsDivide(xs[1..], n, n);
        var count := Rounds(xs[1..], n, n).0;
        assert (count + 1) * n == count * n + n;
      }
    }
  }

  lemma Quotient(a: nat, n: nat, q: nat, r: nat)
    requires a == q * n + r && r < n
    ensures a / n == q
  {
    var k := a / n - q;
    assert a == a / n * n + a % n;
    assert k * n == a / n * n - q * n == r - a % n;
    if k >= 1 {
      MulGrows(k, n);
    } else if k <= -1 {
      MulGrows(-k, n);
    }
  }

  lemma MulGrows(k: nat, n: nat)
    requires k >= 1
    ensures k * n >= n
  {
  }

  /** Without overruns a freshly armed circular timer of n ticks has gone off exactly T / n times when T
      passes have been made and their callbacks have run, whatever the other timers do; and between passes it
      is in the active list, once. */
  lemma {:induction false} CircularFiresExactly(st: State, xs: seq<Step>, h: nat)
    requires Base(st) && Legal(st, xs) && Untouched(xs, h) && NoOverrun(xs)
    requires Has(st.active, h) && !Has(st.expired, h)
    requires Get(st.active, h).circle && Get(st.active, h).remain == Get(st.active, h).interval
    requires Run(st, xs).expired == [] && Run(st, xs).running == None
    ensures var n := Get(st.active, h).interval;
            n >= 1 && Fires(Run(st, xs).log, h) == Fires(st.log, h) + Elapsed(xs) / n
    ensures Count(Run(st, xs).active, h) == 1
  {
    var e := Get(st.active, h);
    TakeGet(st.active, h);
    HasCount(st.active, h);
    assert Total(st, h) <= 1;
    CirclesInRounds(st, xs, h, e.interval, e.interval);
    RoundsDivide(xs, e.interval, e.interval);
    var (count, rest) := Rounds(xs, e.interval, e.interval);
    Quotient(Elapsed(xs), e.interval, count, e.interval - rest);
    RunBase(st, xs);
    HasCount(Run(st, xs).active, h);
    assert Total(Run(st, xs), h) <= 1;
  }

  // ---- from the call on ----

  /** An interval of ms milliseconds is ms / 10 ticks of ten milliseconds, rounded down, but never none. */
  lemma TicksIs(ms: nat)
    ensures ms < 10 ==> Ticks(ms) == 1
    ensures ms >= 10 ==> 10 * Ticks(ms) <= ms < 10 * (Ticks(ms) + 1)
  {
  }

  /** The entry is armed for its own interval, which is the given time in ticks. */
  predicate ArmedFor(e: Entry, ms: nat, now: nat) {
    && e.remain == e.interval && !e.stopped && e.deadline == now + e.interval
    && (if ms < 10 then e.interval == 1 else 10 * e.interval <= ms < 10 * (e.interval + 1))
  }

  /** A timer added is active, armed for the time it was added with, and circular just if it was added so. */
  lemma AddedIs(st: State, h: nat, ms: nat, circle: bool)
    requires Enabled(st, Add(h, ms, circle))
    ensures var st' := Next(st, Add(h, ms, circle));
      && Has(st'.active, h) && ArmedFor(Get(st'.active, h), ms, st.now) && (Get(st'.active, h).circle <==> circle)
      && st'.expired == st.expired && st'.running == st.running && st'.idle == st.idle && st'.log == st.log
  {
    TicksIs(ms);
    GetInsert(st.active, Armed(st, Fresh(h, ms, circle)), h);
  }

  lemma {:induction false} PutGet(s: seq<Entry>, h: nat, e: Entry)
    requires Has(s, h) && e.handle == h
    ensures Has(Put(s, h, e), h) && Get(Put(s, h, e), h) == e
  {
    if s[0].handle != h {
      PutGet(s[1..], h, e);
      assert Put(s, h, e)[1..] == Put(s[1..], h, e);
    }
  }

  /** A timer that is active when it is retimed is armed for the new time; another is left alone. */
  lemma RetimedIs(st: State, h: nat, ms: nat)
    requires Enabled(st, Retime(h, ms))
    ensures var st' := Next(st, Retime(h, ms));
      if Has(st.active, h) then
        && Has(st'.active, h) && ArmedFor(Get(st'.active, h), ms, st.now)
        && Get(st'.active, h).circle == Get(st.active, h).circle
        && st'.expired == st.expired && st'.idle == st.idle && st'.log == st.log
        && st'.running == (if InCallback(st, h) then Some(st.running.value.(interval := Get(st'.active, h).interval))
                           else st.running)
      else st' == st
  {
    if Has(st.active, h) {
      TicksIs(ms);
      TakeGet(st.active, h);
      PutGet(st.active, h, Armed(st, Get(st.active, h).(interval := Ticks(ms))));
    }
  }

  /** A timer that is in no list when it is started is armed for its own interval and keeps its kind; an active one is
      left alone. */
  lemma StartedIs(st: State, h: nat)
    requires Base(st) && Enabled(st, Start(h))
    ensures var st' := Next(st, Start(h));
      if Has(st.active, h) then st' == st
      else
        var e := if InCallback(st, h) then st.running.value else Get(st.idle, h);
        && Has(st'.active, h) && Get(st'.active, h).remain == Get(st'.active, h).interval == e.interval
        && !Get(st'.active, h).stopped && Get(st'.active, h).deadline == st.now + e.interval
        && Get(st'.active, h).circle == e.circle && !Has(st'.idle, h)
        && st'.expired == st.expired && st'.log == st.log
        && st'.running == (if InCallback(st, h) then Some(st.running.value.(stopped := false)) else st.running)
        && st'.(running := None, idle := []) == Arm(st.(running := None, idle := []), e)
  {
    if !Has(st.active, h) {
      HasCount(st.idle, h);
      HasCount(Take(st.idle, h), h);
      assert Total(st, h) <= 1;
      var e := if InCallback(st, h) then st.running.value else Get(st.idle, h);
      if !InCallback(st, h) {
        TakeGet(st.idle, h);
        TakeCount(st.idle, h, h);
      }
      GetInsert(st.active, Armed(st, e), h);
    }
  }

  /** A timer stopped while it is active is in no list; stopped anywhere else it is flagged where it is. */
  lemma StoppedIs(st: State, h: nat)
    requires Base(st) && Enabled(st, Stop(h))
    ensures var st' := Next(st, Stop(h));
      && !Has(st'.active, h) && st'.log == st.log && st'.now == st.now
      && (Has(st.active, h) && !InCallback(st, h) ==>
            && Has(st'.idle, h) && Get(st'.idle, h) == Get(st.active, h).(stopped := true) && st'.expired == st.expired)
      && (InCallback(st, h) ==>
            && st'.running == Some(st.running.value.(stopped := true))
            && st'.idle == st.idle && st'.expired == st.expired)
  {
    HasCount(st.active, h);
    HasCount(Next(st, Stop(h)).active, h);
    HasCount(st.idle, h);
    assert Total(st, h) <= 1;
    if Has(st.active, h) {
      TakeCount(st.active, h, h);
      TakeGet(st.active, h);
      SnocGet(st.idle, Get(st.active, h).(stopped := true), h);
    }
  }

  lemma {:induction false} SnocGet(s: seq<Entry>, e: Entry, h: nat)
    requires !Has(s, h) && e.handle == h
    ensures Has(s + [e], h) && Get(s + [e], h) == e
  {
    if s == [] {
      assert s + [e] == [e];
    } else {
      SnocGet(s[1..], e, h);
      assert (s + [e])[1..] == s[1..] + [e];
    }
  }

  /** The first expired timer is called, with its flag cleared, exactly unless it is circular and stopped; then it is
      in no list and no callback is made. */
  lemma BegunIs(st: State)
    requires Enabled(st, Begin)
    ensures var st', e := Next(st, Begin), st.expired[0];
      && st'.expired == st.expired[1..] && st'.active == st.active && st'.now == st.now
      && if e.circle && e.stopped then st'.running.None? && st'.log == st.log && st'.idle == st.idle + [e]
         else st'.running == Some(e.(stopped := false)) && st'.log == st.log + [Stamp(e)] && st'.idle == st.idle
  {
  }

  /** A circular timer added with ms milliseconds has made, when T passes without overruns have been made and their
      callbacks have run, T / n callbacks, where n is ms / 10, or 1 if that is 0; if ten divides ms, one for every ms
      of the 10 * T milliseconds. */
  lemma {:induction false} CircularFiresFromAdd(st: State, h: nat, ms: nat, xs: seq<Step>)
    requires Base(st) && Enabled(st, Add(h, ms, true))
    requires var st1 := Next(st, Add(h, ms, true));
      && Legal(st1, xs) && Untouched(xs, h) && NoOverrun(xs)
      && Run(st1, xs).expired == [] && Run(st1, xs).running == None
    ensures var fires := Fires(Run(Next(st, Add(h, ms, true)), xs).log, h) - Fires(st.log, h);
      && fires == Elapsed(xs) / (if ms < 10 then 1 else ms / 10)
      && (ms % 10 == 0 ==> fires == 10 * Elapsed(xs) / ms)
  {
    var st1 := Next(st, Add(h, ms, true));
    NextBase(st, Add(h, ms, true));
    AddedIs(st, h, ms, true);
    HasCount(st1.active, h);
    HasCount(st1.expired, h);
    assert Total(st1, h) <= 1;
    CircularFiresExactly(st1, xs, h);
    if ms % 10 == 0 {
      TenTimes(Elapsed(xs), ms / 10);
    }
  }

  lemma TenTimes(a: nat, n: nat)
    requires n > 0
    ensures 10 * a / (10 * n) == a / n
  {
    var q, r := a / n, a % n;
    assert 10 * a == q * (10 * n) + 10 * r;
    Quotient(10 * a, 10 * n, q, 10 * r);
  }

  // ---- one-shot timers ----

  /** Callbacks made, and one to come. */
  function Owed(st: State, h: nat): nat {
    Fires(st.log, h) + One(Has(st.expired, h)) + One(Has(st.active, h))
  }

  /** Wherever the timer is, it is a one-shot timer, and nobody has stopped it while it was active. */
  predicate OneShot(st: State, h: nat) {
    && (Has(st.active, h) ==> !Get(st.active, h).circle) && (Has(st.expired, h) ==> !Get(st.expired, h).circle)
    && (InCallback(st, h) ==> !st.running.value.circle)
  }

  lemma OneShotStep(st: State, x: Step, h: nat)
    requires Base(st) && Enabled(st, x) && !Touches(x, h) && OneShot(st, h)
    ensures OneShot(Next(st, x), h) && Owed(Next(st, x), h) == Owed(st, h)
  {
    HasCount(st.active, h);
    HasCount(st.expired, h);
    assert Total(st, h) <= 1;
    if x.Scan? {
      if Has(st.active, h) {
        ScanOne(st.active, x.delta, h);
      } else {
        ScanLacks(st.active, x.delta, h);
      }
    } else if x.Begin? {
      HasCount(st.expired[1..], h);
      assert (st.log + [Stamp(st.expired[0])])[..|st.log|] == st.log;
    } else {
      if x.Stop? {
        GetSetStopped(st.expired, x.handle, h);
      }
      if !(x.End? && Away(st, h)) {
        OthersLeave(st, x, h);
      }
    }
  }

  lemma {:induction false} OneShotRuns(st: State, xs: seq<Step>, h: nat)
    requires Base(st) && Legal(st, xs) && Untouched(xs, h) && OneShot(st, h)
    ensures OneShot(Run(st, xs), h) && Owed(Run(st, xs), h) == Owed(st, h)
    decreases xs
  {
    if xs != [] {
      OneShotStep(st, xs[0], h);
      NextBase(st, xs[0]);
      OneShotRuns(Next(st, xs[0]), xs[1..], h);
    }
  }

  /** A one-shot timer that nobody touches makes exactly one callback: none as long as it is active or has expired and
      not been called, one from then on. */
  lemma {:induction false} OneShotFiresOnce(st: State, h: nat, ms: nat, xs: seq<Step>)
    requires Base(st) && Enabled(st, Add(h, ms, false))
    requires Legal(Next(st, Add(h, ms, false)), xs) && Untouched(xs, h)
    ensures var st' := Run(Next(st, Add(h, ms, false)), xs);
      Fires(st'.log, h) == Fires(st.log, h) + One(!Has(st'.active, h) && !Has(st'.expired, h))
  {
    var st1 := Next(st, Add(h, ms, false));
    NextBase(st, Add(h, ms, false));
    AddedIs(st, h, ms, false);
    OneShotRuns(st1, xs, h);
    RunBase(st1, xs);
    var st' := Run(st1, xs);
    HasCount(st'.active, h);
    HasCount(st'.expired, h);
    assert Total(st', h) <= 1;
    HasCount(st.expired, h);
    HasCount(st1.active, h);
  }
}
