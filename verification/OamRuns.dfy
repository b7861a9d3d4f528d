/** Whole runs of the OAM receiver: frames in any order, timeouts, and the CLI thread freeing what it has served. */
module OamRuns {
  // Gwd_Oam_Handle, OamMessageRecevTimeOut, gw_oam_async_thread_entry.  Which timer belongs to which node is left
  // abstract: a timeout may strike any serial at any time.

  import opened OamFrames
  import opened OamReceiver

  const CLI_REQ_TRANSMIT: Byte := 0x10

  /** `queue` holds the messages waiting for the CLI thread, `delivered` all that was handed up so far. */
  datatype State = State(recs: seq<Rec>, queue: seq<U32>, delivered: seq<Rec>)

  datatype Event = Arrive(frame: Frame) | Expire(serial: U32) | Serve

  const INIT := State([], [], [])

  /** Gwd_Oam_Handle once a message is complete: a CLI request stays listed until the CLI thread has
      served it, every other message is freed as soon as its handler returns. */
  function Dispatch(st: State, r: Rec): State {
    var st' := st.(delivered := st.delivered + [r]);
    if r.opcode == CLI_REQ_TRANSMIT then st'.(queue := st.queue + [r.serial])
    else st'.(recs := Remove(st.recs, r.serial))
  }

  function Step(st: State, e: Event): State {
    match e
    case Arrive(f) =>
      var o := Receive(st.recs, f);
      if o.handed == [] then st.(recs := o.recs) else Dispatch(st.(recs := o.recs), o.handed[0])
    case Expire(s) => st.(recs := Remove(st.recs, s))
    case Serve =>
      if st.queue == [] then st else st.(recs := Remove(st.recs, st.queue[0]), queue := st.queue[1..])
  }

  function Run(st: State, es: seq<Event>): State {
    if es == [] then st else Step(Run(st, es[..|es| - 1]), es[|es| - 1])
  }

  /** The event at i, if it is a frame, fits the buffer it is copied into. */
  ghost predicate FitsAt(st: State, es: seq<Event>, i: nat)
    requires i < |es|
  {
    es[i].Arrive? ==> CopyFits(Table(Run(st, es[..i]).recs), es[i].frame)
  }

  ghost predicate AllFit(st: State, es: seq<Event>) { forall i: nat :: i < |es| ==> FitsAt(st, es, i) }

  /** A frame's effect does not depend on what is queued or has been delivered. */
  lemma ArriveFrom(recs: seq<Rec>, queue: seq<U32>, delivered: seq<Rec>, f: Frame)
    ensures var own, st := Step(State(recs, [], []), Arrive(f)), Step(State(recs, queue, delivered), Arrive(f));
      st == State(own.recs, queue + own.queue, delivered + own.delivered)
  {
  }

  /** A step seen on the table of messages. */
  lemma {:induction false} StepOnTable(st: State, e: Event)
    requires Distinct(st.recs)
    ensures var st' := Step(st, e); var t := Table(st.recs);
            && Distinct(st'.recs)
            && match e
               case Expire(s) => Table(st'.recs) == t - {s} && st'.queue == st.queue && st'.delivered == st.delivered
               case Serve =>
                 && st'.delivered == st.delivered
                 && (st.queue == [] ==> st' == st)
                 && (st.queue != [] ==> Table(st'.recs) == t - {st.queue[0]} && st'.queue == st.queue[1..])
               case Arrive(f) =>
                 if !Accepts(t, f) then st' == st
                 else
                   var r := Taken(t, f);
                   if !Complete(r) then
                     Table(st'.recs) == t[f.serial := r] && st'.queue == st.queue && st'.delivered == st.delivered
                   else
                     && st'.delivered == st.delivered + [r]
                     && (r.opcode == CLI_REQ_TRANSMIT ==>
                           Table(st'.recs) == t[r.serial := r] && st'.queue == st.queue + [r.serial])
                     && (r.opcode != CLI_REQ_TRANSMIT ==>
                           Table(st'.recs) == t[f.serial := r] - {r.serial} && st'.queue == st.queue)
  {
    match e {
      case Arrive(f) =>
        ReceiveOnTable(st.recs, f);
        var o := Receive(st.recs, f);
        if o.handed != [] {
          RemoveDistinct(o.recs, o.handed[0].serial);
          RemoveTable(o.recs, o.handed[0].serial);
        }
      case Expire(s) =>
        RemoveDistinct(st.recs, s);
        RemoveTable(st.recs, s);
      case Serve =>
        if st.queue != [] {
          RemoveDistinct(st.recs, st.queue[0]);
          RemoveTable(st.recs, st.queue[0]);
        }
    }
  }

  // ---- the receiver refines a ledger of accepted frames ----

  /** The simple form: under each serial, the frames taken since its message began. */
  datatype Ledger = Ledger(pages: map<U32, seq<Frame>>, queue: seq<U32>, closed: seq<seq<Frame>>)

  const EMPTY_LEDGER := Ledger(map[], [], [])

  predicate Fits(pages: map<U32, seq<Frame>>, f: Frame) {
    && f.gwOui && RecvOpcode(f.opcode)
    && if f.offset == 0 then f.serial !in pages
       else f.serial in pages && pages[f.serial] != []
            && |Concat(pages[f.serial])| == f.offset
            && |Concat(pages[f.serial] + [f])| <= pages[f.serial][0].whole
  }

  function NewPage(pages: map<U32, seq<Frame>>, f: Frame): (page: seq<Frame>)
    requires f.offset == 0 || f.serial in pages
    ensures page != []
  {
    (if f.offset == 0 then [] else pages[f.serial]) + [f]
  }

  function Enter(l: Ledger, e: Event): Ledger {
    match e
    case Expire(s) => l.(pages := l.pages - {s})
    case Serve => if l.queue == [] then l else l.(pages := l.pages - {l.queue[0]}, queue := l.queue[1..])
    case Arrive(f) =>
      if !Fits(l.pages, f) then l
      else
        var page := NewPage(l.pages, f);
        if |Concat(page)| != page[0].whole then l.(pages := l.pages[f.serial := page])
        else if page[0].opcode == CLI_REQ_TRANSMIT then
          Ledger(l.pages[f.serial := page], l.queue + [f.serial], l.closed + [page])
        else Ledger(l.pages - {f.serial}, l.queue, l.closed + [page])
  }

  function Book(es: seq<Event>): Ledger {
    if es == [] then EMPTY_LEDGER else Enter(Book(es[..|es| - 1]), es[|es| - 1])
  }

  /** What a page of the ledger says a node must contain. */
  function Render(page: seq<Frame>): Rec
    requires page != []
  {
    FromFrame(page[0]).(data := Concat(page))
  }

  /** No message outgrows its declared length, unless its first frame did so alone. */
  predicate InBounds(page: seq<Frame>)
    requires page != []
  {
    |Concat(page)| <= page[0].whole || |page| == 1
  }

  ghost predicate SamePages(t: map<U32, Rec>, pages: map<U32, seq<Frame>>) {
    && t.Keys == pages.Keys
    && forall s :: s in t ==> pages[s] != [] && t[s] == Render(pages[s]) && InBounds(pages[s])
  }

  ghost predicate SameClosed(delivered: seq<Rec>, closed: seq<seq<Frame>>) {
    && |delivered| == |closed|
    && forall i :: 0 <= i < |closed| ==>
                     closed[i] != [] && delivered[i] == Render(closed[i]) && Complete(delivered[i])
  }

  ghost predicate Refines(st: State, l: Ledger) {
    && Distinct(st.recs)
    && SamePages(Table(st.recs), l.pages)
    && st.queue == l.queue
    && SameClosed(st.delivered, l.closed)
  }

  lemma ConcatOne(page: seq<Frame>, f: Frame)
    ensures Concat(page + [f]) == Concat(page) + f.payload
  {
    assert (page + [f])[..|page|] == page;
  }

  /** A frame finds its place in the ledger exactly when the receiver takes it, and adds the same bytes. */
  lemma FrameRefines(t: map<U32, Rec>, pages: map<U32, seq<Frame>>, f: Frame)
    requires SamePages(t, pages)
    ensures Fits(pages, f) <==> Accepts(t, f)
    ensures Fits(pages, f) ==>
              && Taken(t, f) == Render(NewPage(pages, f))
              && InBounds(NewPage(pages, f))
  {
    if f.offset == 0 {
      ConcatOne([], f);
      assert [] + [f] == [f];
    } else if f.serial in pages {
      ConcatOne(pages[f.serial], f);
    }
  }

  lemma PageRefines(t: map<U32, Rec>, pages: map<U32, seq<Frame>>, s: U32, page: seq<Frame>)
    requires SamePages(t, pages) && page != [] && InBounds(page)
    ensures SamePages(t[s := Render(page)], pages[s := page])
    ensures SamePages(t - {s}, pages - {s})
    ensures t[s := Render(page)] - {s} == t - {s}
  {
  }

  lemma ClosedRefines(delivered: seq<Rec>, closed: seq<seq<Frame>>, page: seq<Frame>)
    requires SameClosed(delivered, closed) && page != [] && Complete(Render(page))
    ensures SameClosed(delivered + [Render(page)], closed + [page])
  {
  }

  lemma ArriveRefines(st: State, l: Ledger, f: Frame)
    requires Refines(st, l) && Fits(l.pages, f)
    ensures Refines(Step(st, Arrive(f)), Enter(l, Arrive(f)))
  {
    var t, page := Table(st.recs), NewPage(l.pages, f);
    StepOnTable(st, Arrive(f));
    FrameRefines(t, l.pages, f);
    PageRefines(t, l.pages, f.serial, page);
    if Complete(Render(page)) {
      ClosedRefines(st.delivered, l.closed, page);
    }
  }

  /** Whatever frames, timeouts and services come in whatever order: serials stay distinct, each node holds
      exactly the joined payloads of the frames accepted for it, and only complete messages, again the
      joined payloads of their accepted frames, are ever handed up. */
  lemma {:induction false} ReceiverRefinesLedger(es: seq<Event>)
    ensures Refines(Run(INIT, es), Book(es))
  {
    if es != [] {
      var before, e := es[..|es| - 1], es[|es| - 1];
      ReceiverRefinesLedger(before);
      var st, l := Run(INIT, before), Book(before);
      StepOnTable(st, e);
      if e.Arrive? {
        FrameRefines(Table(st.recs), l.pages, e.frame);
        if Fits(l.pages, e.frame) {
          ArriveRefines(st, l, e.frame);
        }
      }
    }
  }

  /** A complete message still listed is reached, and handed up twice: a CLI request of one byte, and an empty frame
      behind its end before the CLI thread has served it. */
  lemma HandedTwice(s: U32, session: seq<Byte>, b: Byte)
    ensures var f := Frame(true, CLI_REQ_TRANSMIT, s, 1, 0, [b], session);
      var r := Rec(CLI_REQ_TRANSMIT, s, session, 1, [b]);
      var st := Run(INIT, [Arrive(f), Arrive(f.(offset := 1, payload := []))]);
      st.delivered == [r, r] && st.queue == [s, s] && st.recs == [r]
  {
    var f, r := Frame(true, CLI_REQ_TRANSMIT, s, 1, 0, [b], session), Rec(CLI_REQ_TRANSMIT, s, session, 1, [b]);
    var x, y := Arrive(f), Arrive(f.(offset := 1, payload := []));
    var st := Step(INIT, x);
    assert [x][..0] == [] && Run(INIT, [x]) == st == State([r], [s], [r]);
    assert [x, y][..1] == [x] && Append(r, y.frame) == r;
    assert Receive([r], y.frame).handed == [r];
  }

  // ---- no message is ever delivered altered ----

  function Whole(m: Message): Rec {
    Rec(m.opcode, m.serial, m.session, |m.data|, m.data)
  }

  /** A frame that some sender cut out of its message, at any place. */
  predicate Genuine(msgs: map<U32, Message>, f: Frame) {
    && f.serial in msgs
    && var m := msgs[f.serial];
       && f.opcode == m.opcode && f.session == m.session && m.serial == f.serial
       && f.whole == |m.data| && f.offset + |f.payload| <= |m.data|
       && f.payload == m.data[f.offset..f.offset + |f.payload|]
  }

  /** A partly received message is a prefix of the original. */
  predicate Prefix(r: Rec, m: Message) {
    && |r.data| <= |m.data| && r == Whole(m).(data := m.data[..|r.data|])
  }

  ghost predicate Unaltered(st: State, msgs: map<U32, Message>) {
    var t := Table(st.recs);
    && Distinct(st.recs)
    && (forall s :: s in t ==> s in msgs && Prefix(t[s], msgs[s]))
    && (forall d :: d in st.delivered ==> d.serial in msgs && d == Whole(msgs[d.serial]))
  }

  lemma TakenPrefix(t: map<U32, Rec>, f: Frame, m: Message)
    requires Accepts(t, f) && Genuine(map[f.serial := m], f) && (f.serial in t ==> Prefix(t[f.serial], m))
    ensures Prefix(Taken(t, f), m) && (Complete(Taken(t, f)) ==> Taken(t, f) == Whole(m))
  {
    var r := Taken(t, f);
    assert r.data == m.data[..|r.data|];
    assert m.data[..|m.data|] == m.data;
  }

  lemma {:induction false} StepUnaltered(st: State, e: Event, msgs: map<U32, Message>)
    requires Unaltered(st, msgs) && (e.Arrive? ==> Genuine(msgs, e.frame))
    ensures Unaltered(Step(st, e), msgs)
  {
    StepOnTable(st, e);
    if e.Arrive? && Accepts(Table(st.recs), e.frame) {
      TakenPrefix(Table(st.recs), e.frame, msgs[e.frame.serial]);
    }
  }

  /** Pieces may be lost, repeated, reordered, mixed and timed out: every message handed up is, byte for
      byte, one that was sent. */
  lemma {:induction false} DeliveryIsFaithful(es: seq<Event>, msgs: map<U32, Message>)
    requires forall i :: 0 <= i < |es| && es[i].Arrive? ==> Genuine(msgs, es[i].frame)
    ensures Unaltered(Run(INIT, es), msgs)
  {
    if es != [] {
      DeliveryIsFaithful(es[..|es| - 1], msgs);
      StepUnaltered(Run(INIT, es[..|es| - 1]), es[|es| - 1], msgs);
    }
  }

  // ---- every message sent whole arrives exactly once ----

  /** The frames of one serial, in the order they arrive. */
  function Arrivals(es: seq<Event>, s: U32): seq<Frame> {
    if es == [] then []
    else
      var e := es[|es| - 1];
      Arrivals(es[..|es| - 1], s) + if e.Arrive? && e.frame.serial == s then [e.frame] else []
  }

  function DeliveredOf(rs: seq<Rec>, s: U32): seq<Rec> {
    if rs == [] then []
    else
      var r := rs[|rs| - 1];
      DeliveredOf(rs[..|rs| - 1], s) + if r.serial == s then [r] else []
  }

  /** A cut of a message into contiguous pieces that is complete only with its last piece. */
  predicate IsCut(m: Message, fs: seq<Frame>) {
    && fs != [] && |m.data| <= MAX_MESSAGE && Concat(fs) == m.data
    && (forall k :: 0 <= k < |fs| ==>
          && |Concat(fs[..k])| + |fs[k].payload| <= |m.data|
          && fs[k] == Slice(m, |Concat(fs[..k])|, |fs[k].payload|))
    && forall k :: 0 < k < |fs| ==> 0 < |Concat(fs[..k])| < |m.data|
  }

  lemma PieceOfCut(m: Message, k: nat)
    requires |m.data| <= MAX_MESSAGE && k < PieceCount(|m.data|)
    ensures var fs := Fragments(m); var done := |Concat(fs[..k])|;
            && done + |fs[k].payload| <= |m.data| && fs[k] == Slice(m, done, |fs[k].payload|)
            && (0 < k ==> 0 < done < |m.data|)
  {
    FragmentsJoin(m, k);
    PieceBounds(|m.data|, k);
    if k > 0 {
      PieceBounds(|m.data|, k - 1);
    }
    assert Fragments(m)[k] == Piece(m, k);
  }

  lemma FragmentsAreACut(m: Message)
    requires |m.data| <= MAX_MESSAGE
    ensures IsCut(m, Fragments(m))
  {
    var fs := Fragments(m);
    AllFragmentsJoin(m);
    forall k | 0 <= k < |fs|
      ensures |Concat(fs[..k])| + |fs[k].payload| <= |m.data| && fs[k] == Slice(m, |Concat(fs[..k])|, |fs[k].payload|)
      ensures 0 < k ==> 0 < |Concat(fs[..k])| < |m.data|
    {
      PieceOfCut(m, k);
    }
  }

  /** Where the receiver stands with message m after k of its pieces fs. */
  ghost predicate Progress(st: State, m: Message, fs: seq<Frame>, k: nat)
    requires k <= |fs|
  {
    var t := Table(st.recs);
    && Distinct(st.recs)
    && DeliveredOf(st.delivered, m.serial) == (if k == |fs| then [Whole(m)] else [])
    && (k < |fs| ==> m.serial !in st.queue)
    && (k == 0 ==> m.serial !in t)
    && (0 < k < |fs| ==> m.serial in t && t[m.serial] == Whole(m).(data := Concat(fs[..k])))
  }

  lemma NextPiece(t: map<U32, Rec>, m: Message, fs: seq<Frame>, k: nat)
    requires RecvOpcode(m.opcode) && IsCut(m, fs) && k < |fs|
    requires k == 0 ==> m.serial !in t
    requires 0 < k ==> m.serial in t && t[m.serial] == Whole(m).(data := Concat(fs[..k]))
    ensures fs[k].serial == m.serial && Accepts(t, fs[k])
    ensures Taken(t, fs[k]) == Whole(m).(data := Concat(fs[..k + 1]))
    ensures Complete(Taken(t, fs[k])) <==> k + 1 == |fs|
    ensures k + 1 == |fs| ==> Taken(t, fs[k]) == Whole(m)
  {
    assert fs[k] == Slice(m, |Concat(fs[..k])|, |fs[k].payload|);
    assert fs[..k + 1][..k] == fs[..k];
    assert Concat(fs[..k + 1]) == Concat(fs[..k]) + fs[k].payload;
    if k + 1 == |fs| {
      assert fs[..k + 1] == fs;
    } else {
      assert |Concat(fs[..k + 1])| < |m.data|;
    }
  }

  lemma DeliveredSnoc(rs: seq<Rec>, r: Rec, s: U32)
    ensures DeliveredOf(rs + [r], s) == DeliveredOf(rs, s) + if r.serial == s then [r] else []
  {
    assert (rs + [r])[..|rs|] == rs;
  }

  lemma PieceProgress(st: State, m: Message, fs: seq<Frame>, k: nat)
    requires RecvOpcode(m.opcode) && IsCut(m, fs) && k < |fs| && Progress(st, m, fs, k)
    ensures Progress(Step(st, Arrive(fs[k])), m, fs, k + 1)
  {
    StepOnTable(st, Arrive(fs[k]));
    NextPiece(Table(st.recs), m, fs, k);
    DeliveredSnoc(st.delivered, Whole(m), m.serial);
  }

  lemma OtherStep(st: State, e: Event, s: U32)
    requires Distinct(st.recs)
    requires e.Arrive? ==> e.frame.serial != s
    requires e.Expire? ==> e.serial != s
    ensures var st' := Step(st, e); var t, t' := Table(st.recs), Table(st'.recs);
            && Distinct(st'.recs)
            && DeliveredOf(st'.delivered, s) == DeliveredOf(st.delivered, s)
            && (s !in st.queue ==> s !in st'.queue)
            && (s !in t ==> s !in t')
            && (s !in st.queue && s in t ==> s in t' && t'[s] == t[s])
  {
    StepOnTable(st, e);
    if e.Arrive? && Accepts(Table(st.recs), e.frame) {
      var r := Taken(Table(st.recs), e.frame);
      assert r.serial == e.frame.serial;
      DeliveredSnoc(st.delivered, r, s);
    }
  }

  lemma OtherProgress(st: State, m: Message, fs: seq<Frame>, k: nat, e: Event)
    requires k <= |fs| && Progress(st, m, fs, k)
    requires e.Arrive? ==> e.frame.serial != m.serial
    requires e.Expire? ==> e.serial != m.serial
    ensures Progress(Step(st, e), m, fs, k)
  {
    OtherStep(st, e, m.serial);
  }

  lemma ArrivalsSnoc(es: seq<Event>, s: U32)
    requires es != []
    ensures var got, e := Arrivals(es[..|es| - 1], s), es[|es| - 1];
            && got <= Arrivals(es, s)
            && Arrivals(es, s) == got + if e.Arrive? && e.frame.serial == s then [e.frame] else []
  {
  }

  lemma StepProgress(st: State, m: Message, fs: seq<Frame>, k: nat, e: Event, got: seq<Frame>)
    requires RecvOpcode(m.opcode) && IsCut(m, fs) && k <= |fs| && Progress(st, m, fs, k)
    requires e != Expire(m.serial)
    requires got == fs[..k] + if e.Arrive? && e.frame.serial == m.serial then [e.frame] else []
    requires got <= fs
    ensures Progress(Step(st, e), m, fs, |got|)
  {
    if e.Arrive? && e.frame.serial == m.serial {
      assert fs[k] == got[k];
      PieceProgress(st, m, fs, k);
    } else {
      OtherProgress(st, m, fs, k, e);
    }
  }

  lemma PrefixTrans(a: seq<Frame>, b: seq<Frame>, c: seq<Frame>)
    requires a <= b <= c
    ensures a <= c && a == c[..|a|] && b == c[..|b|]
  {
  }

  lemma {:induction false} RunProgress(es: seq<Event>, m: Message, fs: seq<Frame>)
    requires Expire(m.serial) !in es
    requires RecvOpcode(m.opcode) && IsCut(m, fs) && Arrivals(es, m.serial) <= fs
    ensures Progress(Run(INIT, es), m, fs, |Arrivals(es, m.serial)|)
  {
    if es != [] {
      var es', e := es[..|es| - 1], es[|es| - 1];
      var got := Arrivals(es', m.serial);
      ArrivalsSnoc(es, m.serial);
      PrefixTrans(got, Arrivals(es, m.serial), fs);
      assert e in es && forall x :: x in es' ==> x in es;
      RunProgress(es', m, fs);
      StepProgress(Run(INIT, es'), m, fs, |got|, e, Arrivals(es, m.serial));
    }
  }

  /** If the pieces of m arrive in order and nothing times m out, m is handed up exactly once with its
      original bytes, whatever other frames (good, bad, of any message), timeouts and services come in
      between. */
  lemma {:induction false} DeliveredExactlyOnce(es: seq<Event>, m: Message)
    requires Expire(m.serial) !in es
    requires |m.data| <= MAX_MESSAGE && RecvOpcode(m.opcode) && IsCut(m, Arrivals(es, m.serial))
    ensures DeliveredOf(Run(INIT, es).delivered, m.serial) == [Whole(m)]
  {
    RunProgress(es, m, Arrivals(es, m.serial));
  }

  /** The sender's own 84-byte pieces of any set of messages with distinct serials, under every
      interleaving and no timeout: each message is delivered exactly once, and nothing else is. */
  lemma {:induction false} RoundTrip(es: seq<Event>, msgs: map<U32, Message>)
    requires forall s: U32 :: Expire(s) !in es
    requires forall s :: s in msgs ==>
               msgs[s].serial == s && |msgs[s].data| <= MAX_MESSAGE && RecvOpcode(msgs[s].opcode)
    requires forall s: U32 :: Arrivals(es, s) == if s in msgs then Fragments(msgs[s]) else []
    ensures forall s: U32 :: DeliveredOf(Run(INIT, es).delivered, s) == if s in msgs then [Whole(msgs[s])] else []
  {
    forall s: U32
      ensures DeliveredOf(Run(INIT, es).delivered, s) == if s in msgs then [Whole(msgs[s])] else []
    {
      if s in msgs {
        FragmentsAreACut(msgs[s]);
        DeliveredExactlyOnce(es, msgs[s]);
      } else {
        NothingOf(es, s);
      }
    }
  }

  lemma {:induction false} NothingOf(es: seq<Event>, s: U32)
    requires Arrivals(es, s) == []
    ensures DeliveredOf(Run(INIT, es).delivered, s) == []
    ensures Distinct(Run(INIT, es).recs)
  {
    if es != [] {
      var es', e := es[..|es| - 1], es[|es| - 1];
      NothingOf(es', s);
      var st := Run(INIT, es');
      StepOnTable(st, e);
      if e.Arrive? && Accepts(Table(st.recs), e.frame) {
        DeliveredSnoc(st.delivered, Taken(Table(st.recs), e.frame), s);
      }
    }
  }

  lemma {:induction false} ArrivalsHas(es: seq<Event>, e: Event)
    requires e in es && e.Arrive?
    ensures e.frame in Arrivals(es, e.frame.serial)
  {
    if es[|es| - 1] != e {
      ArrivalsHas(es[..|es| - 1], e);
    }
  }

  /** The pieces a sender cuts never exceed the buffer they are copied into. */
  lemma PiecesFit(es: seq<Event>, msgs: map<U32, Message>)
    requires forall s :: s in msgs ==> |msgs[s].data| <= MAX_MESSAGE
    requires forall s: U32 :: Arrivals(es, s) == if s in msgs then Fragments(msgs[s]) else []
    ensures AllFit(INIT, es)
  {
    forall i: nat | i < |es|
      ensures FitsAt(INIT, es, i)
    {
      if es[i].Arrive? {
        var f := es[i].frame;
        ArrivalsHas(es, es[i]);
        var m := msgs[f.serial];
        var k: nat :| k < |Fragments(m)| && Fragments(m)[k] == f;
        PieceTakes(m, k);
        assert f == Piece(m, k);
      }
    }
  }
}
