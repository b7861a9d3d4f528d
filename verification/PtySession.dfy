/** The PTY console session of the ONU (apps/oam_core.c): one session record, changed by the messages of one
    queue, which are served in order. */
module PtySession {

  /** The eight bytes of an OAM session id, as a number; a closed session's id is all zero. */
  type Id = x: int | 0 <= x < 0x1_0000_0000_0000_0000

  const PTY_SHELL_CLOSE_FLAG := 0x5192
  const PTY_TIMEOUT := 30
  const RESP_ACCEPT := 3
  const RESP_REJECT := 2

  /** The control code in the first byte of a console frame. */
  datatype Code = Kpl | ConReq | ConRes | FreeReq | FreeRes | Data | Unknown

  /** What the queue carries: a console frame of some session, a close notice, or the one-second timer. */
  datatype Msg = Packet(from: Id, code: Code) | Notice(flag: nat, fd: int) | Tick

  datatype Sent = Sent(to: Id, ser: nat, code: Code, arg: nat)

  datatype State = State(connect: bool, id: Id, timeOut: nat, serNo: nat, fd: int, queue: seq<Msg>, sent: seq<Sent>)
  {
    function Send(to: Id, code: Code, arg: nat): State {
      this.(sent := sent + [Sent(to, serNo, code, arg)], serNo := serNo + 1)
    }
  }

  function Connect(s: State, from: Id, master: int): State {
    if s.connect then s.Send(from, ConRes, if s.id == from then RESP_ACCEPT else RESP_REJECT)
    else if master > 0 then
      s.(connect := true, id := from, timeOut := 0, serNo := 0, fd := master).Send(from, ConRes, RESP_ACCEPT)
    else s.(connect := false, id := 0, timeOut := 0, serNo := 0, fd := master).Send(from, ConRes, RESP_REJECT)
  }

  function Handle(s: State, m: Msg, master: int): State {
    match m
    case Packet(from, code) =>
      (match code
       case Kpl => if s.connect && s.id == from then s.(timeOut := 0) else s
       case Data => if s.connect && s.id == from then s.(timeOut := 0) else s
       case ConReq => Connect(s, from, master)
       case FreeReq => if s.connect && s.id == from then s.Send(from, FreeRes, RESP_ACCEPT) else s
       case _ => s)
    case Notice(flag, fd) =>
      if s.connect && flag == PTY_SHELL_CLOSE_FLAG && fd == s.fd then
        s.Send(s.id, FreeReq, 0).Send(s.id, FreeReq, 0).(connect := false, timeOut := 0, fd := 0, id := 0)
      else s
    case Tick =>
      if !s.connect then s
      else
        var t := s.(timeOut := s.timeOut + 1);
        if t.timeOut >= PTY_TIMEOUT then t.(queue := t.queue + [Notice(PTY_SHELL_CLOSE_FLAG, master)]) else t
  }

  /** What can happen next: something is put on the queue, its first message is served, or the relay thread sends
      shell output to the session. */
  datatype Event = Post(m: Msg) | Serve | Relay

  function Step(s: State, e: Event, master: int): State {
    match e
    case Post(m) => s.(queue := s.queue + [m])
    case Serve => if s.queue == [] then s else Handle(s.(queue := s.queue[1..]), s.queue[0], master)
    case Relay => s.Send(s.id, Data, 0)
  }

  function Run(s: State, es: seq<Event>, master: int): State
    decreases es
  {
    if es == [] then s else Run(Step(s, es[0], master), es[1..], master)
  }

  /** The messages a run serves. */
  function Served(s: State, es: seq<Event>, master: int): seq<Msg>
    decreases es
  {
    if es == [] then []
    else
      (if es[0] == Serve && s.queue != [] then [s.queue[0]] else [])
      + Served(Step(s, es[0], master), es[1..], master)
  }

  // ---- the session keeps its owner ----

  predicate Closes(m: Msg, fd: int) { m.Notice? && m.flag == PTY_SHELL_CLOSE_FLAG && m.fd == fd }

  /** A session ends, and its owner can change, only by serving a close notice for its descriptor. */
  lemma {:induction false} OwnerKeepsSession(s: State, es: seq<Event>, master: int)
    requires s.connect
    requires forall m :: m in Served(s, es, master) ==> !Closes(m, s.fd)
    ensures var t := Run(s, es, master);
      t.connect && t.id == s.id && t.fd == s.fd
    decreases es
  {
    if es != [] {
      var rest := Served(Step(s, es[0], master), es[1..], master);
      assert forall m :: m in rest ==> m in Served(s, es, master);
      if es[0] == Serve && s.queue != [] {
        assert Served(s, es, master)[0] == s.queue[0];
        assert s.queue[0] in Served(s, es, master);
      }
      OwnerKeepsSession(Step(s, es[0], master), es[1..], master);
    }
  }

  /** While a session is up, a request of its owner is accepted and one of any other session rejected, in one frame to
      whoever asked, and nothing else changes. */
  lemma RequestAnswered(s: State, from: Id, master: int)
    requires s.connect
    ensures var t := Handle(s, Packet(from, ConReq), master);
      && |t.sent| == |s.sent| + 1 && t.sent[..|s.sent|] == s.sent && t.serNo == s.serNo + 1
      && (var a := t.sent[|s.sent|];
          && a.to == from && a.ser == s.serNo && a.code == ConRes
          && a.arg == if from == s.id then 3 else 2)
      && t == s.(sent := t.sent, serNo := t.serNo)
  {
  }

  /** A request that finds no session up is accepted exactly if there is a descriptor; the session is then its, with a
      fresh counter, and the answer is frame 0. */
  lemma FreeRequestAnswered(s: State, from: Id, master: int)
    requires !s.connect
    ensures var t := Handle(s, Packet(from, ConReq), master);
      && |t.sent| == |s.sent| + 1 && t.sent[..|s.sent|] == s.sent && t.serNo == 1
      && (var a := t.sent[|s.sent|];
          && a.to == from && a.ser == 0 && a.code == ConRes
          && a.arg == if master > 0 then 3 else 2)
      && (t.connect <==> master > 0) && t.id == (if master > 0 then from else 0)
      && t.timeOut == 0 && t.fd == master && t.queue == s.queue
  {
  }

  /** A request to end a session is granted to its owner only; the session stays up until the notice comes. */
  lemma FreeAnswered(s: State, from: Id, master: int)
    ensures var t := Handle(s, Packet(from, FreeReq), master);
      if s.connect && s.id == from then
        && |t.sent| == |s.sent| + 1 && t.sent[..|s.sent|] == s.sent
        && t.sent[|s.sent|] == Sent(from, s.serNo, FreeRes, RESP_ACCEPT)
        && t == s.(sent := t.sent, serNo := s.serNo + 1)
      else t == s
  {
  }

  /** A close notice for the session's descriptor tells its owner twice, in two frames numbered on, and clears the
      record; any other notice does nothing. */
  lemma NoticeTells(s: State, flag: nat, fd: int, master: int)
    ensures var t := Handle(s, Notice(flag, fd), master);
      if s.connect && Closes(Notice(flag, fd), s.fd) then
        && |t.sent| == |s.sent| + 2 && t.sent[..|s.sent|] == s.sent
        && t.sent[|s.sent|] == Sent(s.id, s.serNo, FreeReq, 0)
        && t.sent[|s.sent| + 1] == Sent(s.id, s.serNo + 1, FreeReq, 0)
        && !t.connect && t.id == 0 && t.fd == 0 && t.timeOut == 0 && t.queue == s.queue
      else t == s
  {
  }

  /** Without a session nothing but a request is heeded.  With one, the owner's KPL and DATA start its timeout over and
      change nothing else, other sessions' frames of these kinds change nothing; and shell output goes to the owner in
      one frame. */
  lemma OtherMessages(s: State, from: Id, code: Code, master: int)
    requires code == Kpl || code == Data || code == ConRes || code == FreeRes || code == Unknown
    ensures var t := Handle(s, Packet(from, code), master);
      t == if s.connect && s.id == from && (code == Kpl || code == Data) then s.(timeOut := 0) else s
    ensures !s.connect ==> Handle(s, Tick, master) == s
    ensures var t := Step(s, Relay, master);
      t.sent == s.sent + [Sent(s.id, s.serNo, Data, 0)] && t == s.(sent := t.sent, serNo := s.serNo + 1)
  {
  }

  /** So as long as a session lasts, every answer to a request accepts its owner and rejects everybody else. */
  lemma {:induction false} OnlyOwnerAccepted(s: State, es: seq<Event>, master: int)
    requires s.connect
    requires forall m :: m in Served(s, es, master) ==> !Closes(m, s.fd)
    ensures var t := Run(s, es, master);
      && s.sent <= t.sent
      && forall i :: |s.sent| <= i < |t.sent| && t.sent[i].code == ConRes ==>
           t.sent[i].arg == if t.sent[i].to == s.id then RESP_ACCEPT else RESP_REJECT
    decreases es
  {
    if es != [] {
      var s1 := Step(s, es[0], master);
      var rest := Served(s1, es[1..], master);
      assert forall m :: m in rest ==> m in Served(s, es, master);
      if es[0] == Serve && s.queue != [] {
        assert Served(s, es, master)[0] == s.queue[0];
        assert s.queue[0] in Served(s, es, master);
      }
      OnlyOwnerAccepted(s1, es[1..], master);
    }
  }

  // ---- messages of others do not disturb it ----

  /** The messages without the console frames of sessions other than id's. */
  function OnlyOf(ms: seq<Msg>, id: Id): seq<Msg>
    decreases ms
  {
    if ms == [] then []
    else (if ms[0].Packet? && ms[0].from != id then [] else [ms[0]]) + OnlyOf(ms[1..], id)
  }

  function HandleAll(s: State, ms: seq<Msg>, master: int): State
    decreases ms
  {
    if ms == [] then s else HandleAll(Handle(s, ms[0], master), ms[1..], master)
  }

  /** The frames to one session, without their serial numbers. */
  function Heard(sent: seq<Sent>, id: Id): seq<(Code, nat)>
    decreases sent
  {
    if sent == [] then []
    else
      var last := sent[|sent| - 1];
      Heard(sent[..|sent| - 1], id) + if last.to == id then [(last.code, last.arg)] else []
  }

  lemma HeardSend(s: State, to: Id, code: Code, arg: nat, id: Id)
    ensures Heard(s.Send(to, code, arg).sent, id) == Heard(s.sent, id) + if to == id then [(code, arg)] else []
  {
    var t := s.Send(to, code, arg);
    assert t.sent[..|t.sent| - 1] == s.sent;
  }

  /** Two states in which the owner of a session sees the same. */
  predicate SameFor(a: State, b: State, id: Id) {
    && a.connect && b.connect && a.id == b.id == id
    && a.timeOut == b.timeOut && a.fd == b.fd && a.queue == b.queue
    && Heard(a.sent, id) == Heard(b.sent, id)
  }

  lemma HandleSameFor(a: State, b: State, m: Msg, master: int, id: Id)
    requires SameFor(a, b, id) && !Closes(m, a.fd)
    ensures SameFor(Handle(a, m, master), Handle(b, m, master), id)
    ensures m.Packet? && m.from != id ==> SameFor(Handle(a, m, master), b, id)
  {
    if m.Packet? {
      var arg := if m.from == id then RESP_ACCEPT else RESP_REJECT;
      HeardSend(a, m.from, ConRes, arg, id);
      HeardSend(b, m.from, ConRes, arg, id);
      HeardSend(a, m.from, FreeRes, RESP_ACCEPT, id);
      HeardSend(b, m.from, FreeRes, RESP_ACCEPT, id);
    }
  }

  /** For as long as a session lasts, its owner hears the same answers, and its timeout runs the same, as if no
      other session had sent anything. */
  lemma {:induction false} OthersDoNotDisturb(a: State, b: State, ms: seq<Msg>, master: int, id: Id)
    requires SameFor(a, b, id) && forall m :: m in ms ==> !Closes(m, a.fd)
    ensures SameFor(HandleAll(a, ms, master), HandleAll(b, OnlyOf(ms, id), master), id)
    decreases ms
  {
    if ms != [] {
      HandleSameFor(a, b, ms[0], master, id);
      var a1 := Handle(a, ms[0], master);
      assert a1.fd == a.fd;
      if ms[0].Packet? && ms[0].from != id {
        OthersDoNotDisturb(a1, b, ms[1..], master, id);
        assert OnlyOf(ms, id) == OnlyOf(ms[1..], id);
      } else {
        OthersDoNotDisturb(a1, Handle(b, ms[0], master), ms[1..], master, id);
        var rest := OnlyOf(ms[1..], id);
        assert OnlyOf(ms, id)[1..] == rest;
      }
    }
  }

  // ---- the timeout, exactly ----

  predicate KeepAlive(m: Msg, id: Id) { m.Packet? && m.from == id && (m.code == Kpl || m.code == Data) }

  /** The owner's silence, in timer messages, after one more message. */
  function Counted(m: Msg, id: Id, before: nat): nat {
    if KeepAlive(m, id) then 0 else if m == Tick then before + 1 else before
  }

  /** Timer messages since the owner's last KPL or DATA, given how many there were before. */
  function Silence(ms: seq<Msg>, id: Id, before: nat): nat
    decreases ms
  {
    if ms == [] then before
    else Silence(ms[1..], id, Counted(ms[0], id, before))
  }

  function Ticks(ms: seq<Msg>): nat
    decreases ms
  {
    if ms == [] then 0 else (if ms[0] == Tick then 1 else 0) + Ticks(ms[1..])
  }

  /** In every stretch of messages without a KPL or DATA of the owner there are fewer than 30 timer messages. */
  ghost predicate Kept(ms: seq<Msg>, id: Id) {
    forall i, j :: 0 <= i <= j <= |ms| && Silent(ms[i..j], id) ==> Ticks(ms[i..j]) < 30
  }

  predicate Silent(ms: seq<Msg>, id: Id) { forall m :: m in ms ==> !KeepAlive(m, id) }

  /** The counter never reaches the limit at any message. */
  predicate InTime(ms: seq<Msg>, id: Id, before: nat)
    decreases ms
  {
    ms == []
    || (var now := Counted(ms[0], id, before);
        (ms[0] == Tick ==> now < PTY_TIMEOUT) && InTime(ms[1..], id, now))
  }

  predicate NoNotice(ms: seq<Msg>) { forall m :: m in ms ==> !m.Notice? }

  /** While a session lasts, its timeout counter is the number of timer messages since its owner was last heard,
      and the timer has queued a close notice just when that number ever reached 30. */
  lemma {:induction false} CounterIsSilence(s: State, ms: seq<Msg>, master: int)
    requires s.connect && NoNotice(ms)
    ensures var t := HandleAll(s, ms, master);
      && t.connect && t.id == s.id && t.fd == s.fd
      && t.timeOut == Silence(ms, s.id, s.timeOut)
      && |t.queue| >= |s.queue|
      && (t.queue == s.queue <==> InTime(ms, s.id, s.timeOut))
    decreases ms
  {
    if ms != [] {
      CounterIsSilence(Handle(s, ms[0], master), ms[1..], master);
    }
  }

  /** Kept, with the timer messages that were already counted before. */
  ghost predicate KeptFrom(ms: seq<Msg>, id: Id, before: nat) {
    && Kept(ms, id)
    && forall j :: 0 <= j <= |ms| && Silent(ms[..j], id) && Ticks(ms[..j]) > 0 ==> before + Ticks(ms[..j]) < PTY_TIMEOUT
  }

  lemma Prefix(ms: seq<Msg>, id: Id, j: nat)
    requires 1 <= j <= |ms|
    ensures Silent(ms[..j], id) <==> !KeepAlive(ms[0], id) && Silent(ms[1..][..j - 1], id)
    ensures Ticks(ms[..j]) == (if ms[0] == Tick then 1 else 0) + Ticks(ms[1..][..j - 1])
  {
    var t, r := ms[..j], ms[1..][..j - 1];
    assert t == [ms[0]] + r;
    assert t[1..] == r;
    if Silent(t, id) {
      assert forall m :: m in r ==> m in t;
      assert t[0] in t;
    }
  }

  lemma KeptTail(ms: seq<Msg>, id: Id)
    requires ms != []
    ensures Kept(ms, id) <==>
            Kept(ms[1..], id) && forall j :: 0 <= j <= |ms| && Silent(ms[..j], id) ==> Ticks(ms[..j]) < PTY_TIMEOUT
  {
    var r := ms[1..];
    if Kept(ms, id) {
      forall i, j | 0 <= i <= j <= |r| && Silent(r[i..j], id)
        ensures Ticks(r[i..j]) < PTY_TIMEOUT
      {
        assert r[i..j] == ms[i + 1..j + 1];
      }
      forall j | 0 <= j <= |ms| && Silent(ms[..j], id)
        ensures Ticks(ms[..j]) < PTY_TIMEOUT
      {
        assert ms[..j] == ms[0..j];
      }
    }
    if Kept(r, id) && forall j :: 0 <= j <= |ms| && Silent(ms[..j], id) ==> Ticks(ms[..j]) < PTY_TIMEOUT {
      forall i, j | 0 <= i <= j <= |ms| && Silent(ms[i..j], id)
        ensures Ticks(ms[i..j]) < PTY_TIMEOUT
      {
        if i > 0 {
          assert ms[i..j] == r[i - 1..j - 1];
        } else {
          assert ms[i..j] == ms[..j];
        }
      }
    }
  }

  /** The counter stays below the limit just when no 30 timer messages come without a word from the owner. */
  lemma {:induction false} InTimeIff(ms: seq<Msg>, id: Id, before: nat)
    ensures InTime(ms, id, before) <==> KeptFrom(ms, id, before)
    decreases ms
  {
    if ms != [] {
      var m, r := ms[0], ms[1..];
      var now := Counted(m, id, before);
      InTimeIff(r, id, now);
      KeptTail(ms, id);
      forall j | 1 <= j <= |ms|
        ensures Silent(ms[..j], id) <==> !KeepAlive(m, id) && Silent(r[..j - 1], id)
        ensures Ticks(ms[..j]) == (if m == Tick then 1 else 0) + Ticks(r[..j - 1])
      {
        Prefix(ms, id, j);
      }
      if KeptFrom(ms, id, before) {
        forall j | 0 <= j <= |r| && Silent(r[..j], id) && Ticks(r[..j]) > 0
          ensures now + Ticks(r[..j]) < PTY_TIMEOUT
        {
          assert j + 1 <= |ms|;
          if KeepAlive(m, id) {
            assert r[..j] == r[0..j];
          } else {
            assert Silent(ms[..j + 1], id);
          }
        }
        if m == Tick {
          assert Silent(ms[..1], id) && Ticks(ms[..1]) == 1;
        }
      }
      if InTime(ms, id, before) {
        forall j | 0 <= j <= |ms| && Silent(ms[..j], id) && Ticks(ms[..j]) > 0
          ensures before + Ticks(ms[..j]) < PTY_TIMEOUT
        {
          assert j > 0;
          assert Silent(r[..j - 1], id);
        }
      }
    }
  }

  // ---- whole runs ----

  predicate NoNoticePosted(es: seq<Event>) { forall e :: e in es && e.Post? ==> !e.m.Notice? }

  lemma {:induction false} NoticeIsNotLost(s: State, es: seq<Event>, master: int)
    requires !NoNotice(s.queue)
    ensures !(NoNotice(Run(s, es, master).queue) && NoNotice(Served(s, es, master)))
    decreases es
  {
    if es != [] {
      var m :| m in s.queue && m.Notice?;
      var t := Step(s, es[0], master);
      var rest := Served(t, es[1..], master);
      if m in t.queue {
        NoticeIsNotLost(t, es[1..], master);
        assert forall n :: n in rest ==> n in Served(s, es, master);
      } else {
        assert m == s.queue[0];
        assert Served(s, es, master)[0] == m;
      }
    }
  }

  lemma ServedStep(s: State, es: seq<Event>, master: int)
    requires es != []
    ensures var ms, rest := Served(s, es, master), Served(Step(s, es[0], master), es[1..], master);
      if es[0] == Serve && s.queue != [] then
        && ms == [s.queue[0]] + rest && ms[0] == s.queue[0] && ms[1..] == rest
        && (NoNotice(ms) <==> !s.queue[0].Notice? && NoNotice(rest))
      else ms == rest
  {
    var ms, rest := Served(s, es, master), Served(Step(s, es[0], master), es[1..], master);
    if es[0] == Serve && s.queue != [] {
      assert ms == [s.queue[0]] + rest;
      assert forall m :: m in ms <==> m == s.queue[0] || m in rest;
    }
  }

  /** Serving anything but a close notice counts the silence, and queues a notice just when it reaches 30. */
  lemma ServeCounts(s: State, master: int)
    requires s.connect && s.queue != [] && NoNotice(s.queue)
    ensures var t, m := Step(s, Serve, master), s.queue[0];
      && t.connect && t.id == s.id && t.timeOut == Counted(m, s.id, s.timeOut)
      && (NoNotice(t.queue) <==> !(m == Tick && t.timeOut >= PTY_TIMEOUT))
  {
    var t, m := Step(s, Serve, master), s.queue[0];
    assert !m.Notice?;
    assert forall n :: n in s.queue[1..] ==> n in s.queue;
    if m == Tick && t.timeOut >= PTY_TIMEOUT {
      assert t.queue[|t.queue| - 1].Notice?;
    }
  }

  /** While no close notice comes from outside, the timer queues one just when the owner's silence reaches the
      limit; until then the session stays up. */
  lemma {:induction false} TimesOutIff(s: State, es: seq<Event>, master: int)
    requires s.connect && NoNotice(s.queue) && NoNoticePosted(es)
    ensures InTime(Served(s, es, master), s.id, s.timeOut) <==>
            NoNotice(Run(s, es, master).queue) && NoNotice(Served(s, es, master))
    ensures InTime(Served(s, es, master), s.id, s.timeOut) ==>
            Run(s, es, master).connect && Run(s, es, master).id == s.id
    decreases es
  {
    if es != [] {
      var t := Step(s, es[0], master);
      ServedStep(s, es, master);
      assert NoNoticePosted(es[1..]);
      if es[0] != Serve {
        assert es[0] in es;
        assert NoNotice(t.queue) && t.connect && t.id == s.id && t.timeOut == s.timeOut;
        TimesOutIff(t, es[1..], master);
      } else if s.queue == [] {
        TimesOutIff(s, es[1..], master);
      } else {
        ServeCounts(s, master);
        if NoNotice(t.queue) {
          TimesOutIff(t, es[1..], master);
        } else {
          NoticeIsNotLost(t, es[1..], master);
        }
      }
    }
  }

  /** A session accepted while no close notice is waiting, and whose shell does not exit, stays its owner's for as
      long as every 30 timer messages have a KPL or DATA of the owner among them; and exactly until then does
      the timer queue no close notice. */
  lemma {:induction false} AcceptedSessionIsKept(s: State, from: Id, es: seq<Event>, master: int)
    requires !s.connect && master > 0 && s.queue != [] && s.queue[0] == Packet(from, ConReq)
    requires NoNotice(s.queue) && NoNoticePosted(es)
    ensures var a := Step(s, Serve, master);
      var t, ms := Run(a, es, master), Served(a, es, master);
      && a.connect && a.id == from && a.fd == master
      && a.sent == s.sent + [Sent(from, 0, ConRes, RESP_ACCEPT)]
      && (Kept(ms, from) <==> NoNotice(t.queue) && NoNotice(ms))
      && (Kept(ms, from) ==> t.connect && t.id == from)
  {
    var a := Step(s, Serve, master);
    var ms := Served(a, es, master);
    TimesOutIff(a, es, master);
    InTimeIff(ms, from, 0);
    assert KeptFrom(ms, from, 0) <==> Kept(ms, from) by {
      assert forall j :: 0 <= j <= |ms| ==> ms[..j] == ms[0..j];
    }
  }

  function Serves(es: seq<Event>): nat
    decreases es
  {
    if es == [] then 0 else (if es[0] == Serve then 1 else 0) + Serves(es[1..])
  }

  lemma {:induction false} FirstInFirstOut(s: State, es: seq<Event>, master: int, k: nat)
    requires Serves(es) <= k < |s.queue|
    ensures var t := Run(s, es, master);
      k - Serves(es) < |t.queue| && t.queue[k - Serves(es)] == s.queue[k]
    decreases es
  {
    if es != [] {
      FirstInFirstOut(Step(s, es[0], master), es[1..], master, if es[0] == Serve then k - 1 else k);
    }
  }

  lemma {:induction false} OneDescriptor(s: State, es: seq<Event>, master: int)
    requires s.connect ==> s.fd == master
    ensures Run(s, es, master).connect ==> Run(s, es, master).fd == master
    decreases es
  {
    if es != [] {
      OneDescriptor(Step(s, es[0], master), es[1..], master);
    }
  }

  /** A close notice closes whatever session is up when its turn comes, whoever owns it. */
  lemma NoticeCloses(s: State, es: seq<Event>, master: int, k: nat)
    requires s.connect ==> s.fd == master
    requires k < |s.queue| && s.queue[k] == Notice(PTY_SHELL_CLOSE_FLAG, master) && Serves(es) == k
    ensures !Step(Run(s, es, master), Serve, master).connect
  {
    FirstInFirstOut(s, es, master, k);
    OneDescriptor(s, es, master);
  }

  /** The session of id is up now and after every event. */
  predicate UpThroughout(s: State, es: seq<Event>, master: int, id: Id)
    decreases es
  {
    s.connect && s.id == id && (es == [] || UpThroughout(Step(s, es[0], master), es[1..], master, id))
  }

  lemma {:induction false} UpAtEveryPrefix(s: State, es: seq<Event>, master: int, id: Id)
    ensures UpThroughout(s, es, master, id) <==>
            forall k :: 0 <= k <= |es| ==> Run(s, es[..k], master).connect && Run(s, es[..k], master).id == id
    decreases es
  {
    assert es[..0] == [];
    if es != [] {
      var t, r := Step(s, es[0], master), es[1..];
      UpAtEveryPrefix(t, r, master, id);
      forall k | 1 <= k <= |es|
        ensures Run(s, es[..k], master) == Run(t, r[..k - 1], master)
      {
        assert es[..k][1..] == r[..k - 1];
      }
      if UpThroughout(s, es, master, id) {
        forall k | 0 <= k <= |es|
          ensures Run(s, es[..k], master).connect && Run(s, es[..k], master).id == id
        {
          if k > 0 {
            assert Run(t, r[..k - 1], master).connect;
          }
        }
      }
      if forall k :: 0 <= k <= |es| ==> Run(s, es[..k], master).connect && Run(s, es[..k], master).id == id {
        assert Run(s, es[..0], master) == s;
        forall k | 0 <= k <= |r|
          ensures Run(t, r[..k], master).connect && Run(t, r[..k], master).id == id
        {
          assert Run(s, es[..k + 1], master).connect;
        }
      }
    }
  }

  /** None of the first n messages closes the session. */
  predicate NoneCloses(queue: seq<Msg>, n: nat, master: int) {
    forall i :: 0 <= i < n && i < |queue| ==> !Closes(queue[i], master)
  }

  /** A session that is up throughout has been served no close notice of those that were waiting. */
  lemma {:induction false} UpServesNoNotice(s: State, es: seq<Event>, master: int, id: Id)
    requires UpThroughout(s, es, master, id) && s.fd == master
    ensures NoneCloses(s.queue, Serves(es), master)
    decreases es
  {
    if es != [] {
      var t := Step(s, es[0], master);
      UpServesNoNotice(t, es[1..], master, id);
      forall i | 0 <= i < Serves(es) && i < |s.queue|
        ensures !Closes(s.queue[i], master)
      {
        if es[0] == Serve {
          assert i > 0 ==> t.queue[i - 1] == s.queue[i];
        } else {
          assert t.queue[i] == s.queue[i];
        }
      }
    }
  }

  /** What serving anything but a close notice for its descriptor does to a session. */
  lemma ServeKeeps(s: State, master: int)
    requires s.connect && s.fd == master && s.queue != [] && !Closes(s.queue[0], master)
    ensures var t, m := Step(s, Serve, master), s.queue[0];
      && t.connect && t.id == s.id && t.fd == master && t.timeOut == Counted(m, s.id, s.timeOut)
      && (!(m == Tick && t.timeOut >= PTY_TIMEOUT) ==> t.queue == s.queue[1..])
  {
  }

  /** Of the first messages in the queue, none that is served among n is a close notice. */
  predicate FirstClosesNot(queue: seq<Msg>, first: nat, n: nat, master: int)
    requires first <= |queue|
  {
    forall i :: 0 <= i < first && i < n ==> !Closes(queue[i], master)
  }

  /** While its owner is heard in time, and none of the first messages waiting is served and a close notice, a
      session stays up, given that no message behind these is a notice. */
  lemma {:induction false} StaysUp(s: State, es: seq<Event>, master: int, first: nat)
    requires s.connect && s.fd == master && NoNoticePosted(es)
    requires InTime(Served(s, es, master), s.id, s.timeOut)
    requires first <= |s.queue| && NoNotice(s.queue[first..]) && FirstClosesNot(s.queue, first, Serves(es), master)
    ensures UpThroughout(s, es, master, s.id)
    decreases es
  {
    if es != [] {
      var t := Step(s, es[0], master);
      ServedStep(s, es, master);
      assert NoNoticePosted(es[1..]);
      if es[0] == Serve && s.queue != [] {
        StaysUpServe(s, master, first);
        var less := if first > 0 then first - 1 else 0;
        forall i | 0 <= i < less && i < Serves(es[1..])
          ensures !Closes(t.queue[i], master)
        {
          assert t.queue[i] == s.queue[i + 1];
        }
        StaysUp(t, es[1..], master, less);
      } else {
        if es[0].Post? {
          assert es[0] in es;
          assert t.queue[first..] == s.queue[first..] + [es[0].m];
        }
        StaysUp(t, es[1..], master, first);
      }
    }
  }

  lemma StaysUpServe(s: State, master: int, first: nat)
    requires s.connect && s.fd == master && s.queue != []
    requires first <= |s.queue| && NoNotice(s.queue[first..]) && FirstClosesNot(s.queue, first, 1, master)
    ensures var t, m, less := Step(s, Serve, master), s.queue[0], if first > 0 then first - 1 else 0;
      && t.connect && t.id == s.id && t.fd == master && t.timeOut == Counted(m, s.id, s.timeOut)
      && (!(m == Tick && t.timeOut >= PTY_TIMEOUT) ==> t.queue == s.queue[1..] && NoNotice(t.queue[less..]))
  {
    if first == 0 {
      assert s.queue[0..] == s.queue && s.queue[0] in s.queue[0..];
      assert forall m :: m in s.queue[1..] ==> m in s.queue[0..];
    }
    ServeKeeps(s, master);
    assert first > 0 ==> s.queue[1..][first - 1..] == s.queue[first..];
    assert s.queue[1..][0..] == s.queue[1..];
  }

  /** A session accepted with anything at all waiting in the queue, whose owner keeps within the timeout and whose
      shell does not exit, is up after every event exactly if none of the messages that were waiting and have
      been served is a close notice for its descriptor. */
  lemma {:induction false} KeptSessionIsUpIff(s: State, from: Id, es: seq<Event>, master: int)
    requires !s.connect && master > 0 && s.queue != [] && s.queue[0] == Packet(from, ConReq)
    requires NoNoticePosted(es) && Kept(Served(Step(s, Serve, master), es, master), from)
    ensures var a := Step(s, Serve, master);
      (forall k :: 0 <= k <= |es| ==> Run(a, es[..k], master).connect && Run(a, es[..k], master).id == from) <==>
      NoneCloses(a.queue, Serves(es), master)
  {
    var a := Step(s, Serve, master);
    var ms := Served(a, es, master);
    InTimeIff(ms, from, 0);
    assert KeptFrom(ms, from, 0) by {
      assert forall j :: 0 <= j <= |ms| ==> ms[..j] == ms[0..j];
    }
    UpAtEveryPrefix(a, es, master, from);
    if NoneCloses(a.queue, Serves(es), master) {
      StaysUp(a, es, master, |a.queue|);
    } else if UpThroughout(a, es, master, from) {
      UpServesNoNotice(a, es, master, from);
    }
  }

  /** So a session that another's timeout left a notice behind for is closed at once: two timer messages at the
      limit queue two notices, and a request that gets between them is accepted by the one and closed by the
      other. */
  lemma StaleNoticeCloses(s: State, other: Id, master: int)
    requires s.connect && s.fd == master > 0 && s.timeOut >= PTY_TIMEOUT - 1 && s.queue == [Tick, Tick]
    ensures var es := [Serve, Post(Packet(other, ConReq)), Serve, Serve, Serve];
      var t := Run(s, es, master);
      && t.connect && t.id == other && t.timeOut == 0
      && !Step(t, Serve, master).connect
  {
    var n, req := Notice(PTY_SHELL_CLOSE_FLAG, master), Packet(other, ConReq);
    var s1 := Step(s, Serve, master);
    assert s1.queue == [Tick, n];
    var s2 := Step(s1, Post(req), master);
    assert s2.queue == [Tick, n, req];
    var s3 := Step(s2, Serve, master);
    assert s3.queue == [n, req, n];
    var s4 := Step(s3, Serve, master);
    assert s4.queue == [req, n] && !s4.connect;
    var s5 := Step(s4, Serve, master);
    assert s5.queue == [n] && s5.connect && s5.id == other && s5.fd == master;
    assert Run(s, [Serve, Post(req), Serve, Serve, Serve], master) == s5 by {
      assert Run(s4, [Serve], master) == Run(s5, [], master) == s5;
      assert Run(s3, [Serve, Serve], master) == Run(s4, [Serve], master);
      assert Run(s2, [Serve, Serve, Serve], master) == Run(s3, [Serve, Serve], master);
      assert Run(s1, [Post(req), Serve, Serve, Serve], master) == Run(s2, [Serve, Serve, Serve], master);
      assert [Serve, Post(req), Serve, Serve, Serve][1..] == [Post(req), Serve, Serve, Serve];
    }
  }

  const CLOSED := State(false, 0, 0, 0, 0, [], [])

  lemma {:induction false} RunJoin(s: State, a: seq<Event>, b: seq<Event>, master: int)
    ensures Run(s, a + b, master) == Run(Run(s, a, master), b, master)
    decreases a
  {
    if a == [] {
      assert a + b == b;
    } else {
      assert (a + b)[1..] == a[1..] + b;
      RunJoin(Step(s, a[0], master), a[1..], b, master);
    }
  }

  lemma TwoSteps(s: State, x: Event, y: Event, master: int)
    ensures Run(s, [x, y], master) == Step(Step(s, x, master), y, master)
  {
    assert [x, y][1..] == [y] && [y][1..] == [];
    assert Run(Step(s, x, master), [y], master) == Run(Step(Step(s, x, master), y, master), [], master);
  }

  /** n seconds in which each timer message is served at once. */
  function Seconds(n: nat): seq<Event> {
    if n == 0 then [] else [Post(Tick), Serve] + Seconds(n - 1)
  }

  lemma {:induction false} SecondsCount(s: State, n: nat, master: int)
    requires s.connect && s.queue == [] && s.timeOut + n < PTY_TIMEOUT
    ensures Run(s, Seconds(n), master) == s.(timeOut := s.timeOut + n)
    decreases n
  {
    if n > 0 {
      TwoSteps(s, Post(Tick), Serve, master);
      assert s.queue + [Tick] == [Tick] && [Tick][1..] == [];
      var t := s.(timeOut := s.timeOut + 1);
      assert Run(s, [Post(Tick), Serve], master) == t;
      SecondsCount(t, n - 1, master);
      RunJoin(s, [Post(Tick), Serve], Seconds(n - 1), master);
    }
  }

  /** It is reached from the start: a session is accepted and its owner falls silent for 29 seconds; two more timer
      messages are waiting when the next one is served. */
  lemma StaleNoticeHappens(owner: Id, other: Id, n: nat, master: int)
    requires master > 0 && n == PTY_TIMEOUT - 1
    ensures var es := ([Post(Packet(owner, ConReq)), Serve] + Seconds(n)) + [Post(Tick), Post(Tick)];
      var s := Run(CLOSED, es, master);
      var t := Run(s, [Serve, Post(Packet(other, ConReq)), Serve, Serve, Serve], master);
      && s.connect && s.id == owner
      && t.connect && t.id == other && t.timeOut == 0 && !Step(t, Serve, master).connect
  {
    var a, b := [Post(Packet(owner, ConReq)), Serve], [Post(Tick), Post(Tick)];
    TwoSteps(CLOSED, a[0], a[1], master);
    var s1 := Run(CLOSED, a, master);
    assert s1.connect && s1.id == owner && s1.queue == [] && s1.timeOut == 0 && s1.fd == master;
    SecondsCount(s1, n, master);
    RunJoin(CLOSED, a, Seconds(n), master);
    var s2 := s1.(timeOut := n);
    TwoSteps(s2, b[0], b[1], master);
    RunJoin(CLOSED, a + Seconds(n), b, master);
    var s := Run(CLOSED, a + Seconds(n) + b, master);
    assert s.queue == [Tick, Tick];
    StaleNoticeCloses(s, other, master);
  }

  // ---- serial numbers ----

  /** The frames sent from n on carry the serial numbers 0, 1, 2, ... of their session. */
  predicate Numbered(sent: seq<Sent>, n: nat, next: nat) {
    && n + next == |sent|
    && forall i :: n <= i < |sent| ==> sent[i].ser == i - n
  }

  /** Until the next session is accepted or refused, frames are numbered one by one. */
  lemma {:induction false} FramesAreNumbered(s: State, es: seq<Event>, master: int, n: nat)
    requires Numbered(s.sent, n, s.serNo) && s.connect
    requires forall m :: m in Served(s, es, master) ==> !Closes(m, s.fd)
    ensures Numbered(Run(s, es, master).sent, n, Run(s, es, master).serNo)
    decreases es
  {
    if es != [] {
      var rest := Served(Step(s, es[0], master), es[1..], master);
      assert forall m :: m in rest ==> m in Served(s, es, master);
      if es[0] == Serve && s.queue != [] {
        assert Served(s, es, master)[0] == s.queue[0];
        assert s.queue[0] in Served(s, es, master);
      }
      FramesAreNumbered(Step(s, es[0], master), es[1..], master, n);
    }
  }

  /** gmCliPtyCtrl and its queue, changed in place by one handler per kind of message. */
  class PtyControl {
    var lConnect: bool
    var lFd: int
    var bSessionId: Id
    var lTimeOut: nat
    var lSerNo: nat
    var queue: seq<Msg>
    var sent: seq<Sent>
    /** g_pty_master, the descriptor of the one PTY. */
    const master: int

    function Now(): State
      reads this
    {
      State(lConnect, bSessionId, lTimeOut, lSerNo, lFd, queue, sent)
    }

    constructor (master: int)
      ensures Now() == State(false, 0, 0, 0, 0, [], []) && this.master == master
    {
      this.master := master;
      lConnect, lFd, bSessionId, lTimeOut, lSerNo, queue, sent := false, 0, 0, 0, 0, [], [];
    }

    /** CommOnuMsgSend with the running serial number. */
    method SendMsg(to: Id, code: Code, arg: nat)
      modifies this
      ensures Now() == old(Now()).Send(to, code, arg)
    {
      sent := sent + [Sent(to, lSerNo, code, arg)];
      lSerNo := lSerNo + 1;
    }

    method Put(m: Msg)
      modifies this`queue
      ensures Now() == Step(old(Now()), Post(m), master)
    {
      queue := queue + [m];
    }

    /** OamPtyShellCloseNoti. */
    method ShellCloseNoti(fd: int)
      modifies this`queue
      ensures Now() == Step(old(Now()), Post(Notice(PTY_SHELL_CLOSE_FLAG, fd)), master)
    {
      Put(Notice(PTY_SHELL_CLOSE_FLAG, fd));
    }

    /** OamPtyConnectReqPro. */
    method ConnectReqPro(from: Id)
      modifies this
      ensures Now() == Connect(old(Now()), from, master)
    {
      if lConnect {
        SendMsg(from, ConRes, if bSessionId == from then RESP_ACCEPT else RESP_REJECT);
        return;
      }
      lFd := master;
      var answer;
      if lFd > 0 {
        lConnect, lSerNo, lTimeOut, bSessionId := true, 0, 0, from;
        answer := RESP_ACCEPT;
      } else {
        lConnect, lSerNo, lTimeOut, bSessionId := false, 0, 0, 0;
        answer := RESP_REJECT;
      }
      SendMsg(from, ConRes, answer);
    }

    /** OamPtyConFreeReqPro: the session stays up until the shell it tells to quit has posted its notice. */
    method ConFreeReqPro(from: Id)
      modifies this
      ensures Now() == Handle(old(Now()), Packet(from, FreeReq), master)
    {
      if lConnect && bSessionId == from {
        SendMsg(from, FreeRes, RESP_ACCEPT);
      }
    }

    /** OamPtyPacketProcess. */
    method PacketProcess(from: Id, code: Code)
      modifies this
      ensures Now() == Handle(old(Now()), Packet(from, code), master)
    {
      match code
      case Kpl =>
        if lConnect && bSessionId == from { lTimeOut := 0; }
      case Data =>
        if lConnect && bSessionId == from { lTimeOut := 0; }
      case ConReq => ConnectReqPro(from);
      case FreeReq => ConFreeReqPro(from);
      case _ =>
    }

    /** OamPtyNotiMsgProcess. */
    method NotiMsgProcess(flag: nat, fd: int)
      modifies this
      ensures Now() == Handle(old(Now()), Notice(flag, fd), master)
    {
      if lConnect && flag == PTY_SHELL_CLOSE_FLAG && fd == lFd {
        SendMsg(bSessionId, FreeReq, 0);
        SendMsg(bSessionId, FreeReq, 0);
        lConnect, lTimeOut, lFd, bSessionId := false, 0, 0, 0;
      }
    }

    /** OamPtyTimerMsgProcess. */
    method TimerMsgProcess()
      modifies this
      ensures Now() == Handle(old(Now()), Tick, master)
    {
      if lConnect {
        lTimeOut := lTimeOut + 1;
        if lTimeOut >= PTY_TIMEOUT {
          ShellCloseNoti(master);
        }
      }
    }

    /** One turn of the main thread, with a message to serve. */
    method ServeOne()
      requires queue != []
      modifies this
      ensures Now() == Step(old(Now()), Serve, master)
    {
      var m := queue[0];
      queue := queue[1..];
      match m
      case Packet(from, code) => PacketProcess(from, code);
      case Notice(flag, fd) => NotiMsgProcess(flag, fd);
      case Tick => TimerMsgProcess();
    }
  }
}
