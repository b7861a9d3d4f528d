/** What the receiving half of apps/oam.c does to its list of partly received messages, on values, frame by frame. */
module OamReceiver {
  import opened Common
  import opened OamFrames

  /** A list node.  `data` is the part of its buffer that has been received (the first RevPktLen bytes). */
  datatype Rec = Rec(opcode: Byte, serial: U32, session: seq<Byte>, whole: nat, data: seq<Byte>)

  datatype Code = RecvOk | RecvErr | NotComplete | TooLong | OpcodeErr

  /** The new list, the return code, and the node handed up through ppMessage, if any. */
  datatype Outcome = Outcome(recs: seq<Rec>, code: Code, handed: seq<Rec>)

  predicate Complete(r: Rec) { |r.data| == r.whole }

  /** GwOamMessageListGetNode: the first node with this serial, or the length of the list. */
  function IndexOf(recs: seq<Rec>, serial: U32): (i: nat)
    ensures i <= |recs|
    ensures i < |recs| ==> recs[i].serial == serial
    ensures forall j :: 0 <= j < i ==> recs[j].serial != serial
  {
    if recs == [] then 0 else if recs[0].serial == serial then 0 else 1 + IndexOf(recs[1..], serial)
  }

  function Append(r: Rec, f: Frame): Rec { r.(data := r.data + f.payload) }

  function FromFrame(f: Frame): Rec { Rec(f.opcode, f.serial, f.session, f.whole, f.payload) }

  /** CommOnuMsgReveive. */
  function Receive(recs: seq<Rec>, f: Frame): Outcome {
    if !f.gwOui then Outcome(recs, RecvErr, [])
    else if !RecvOpcode(f.opcode) then Outcome(recs, OpcodeErr, [])
    else if OAM_DATA_LEN < f.whole then Outcome(recs, TooLong, [])
    else
      var i := IndexOf(recs, f.serial);
      if f.offset == 0 then
        if i < |recs| then Outcome(recs, RecvErr, [])
        else if f.whole == |f.payload| then Outcome([FromFrame(f)] + recs, RecvOk, [FromFrame(f)])
        else Outcome([FromFrame(f)] + recs, RecvErr, [])
      else if i == |recs| then Outcome(recs, RecvErr, [])
      else if |recs[i].data| + |f.payload| > recs[i].whole || |recs[i].data| != f.offset then
        Outcome(recs, RecvErr, [])
      else
        var r := Append(recs[i], f);
        if Complete(r) then Outcome(recs[i := r], RecvOk, [r])
        else Outcome(recs[i := r], NotComplete, [])
  }

  /** GwOamMessageListNodeRem for the node with this serial; also all that a timeout does. */
  function Remove(recs: seq<Rec>, serial: U32): seq<Rec> {
    var i := IndexOf(recs, serial);
    if i < |recs| then Without(recs, i) else recs
  }

  // ---- the list seen as a table ----

  ghost predicate Distinct(recs: seq<Rec>) {
    forall i, j :: 0 <= i < j < |recs| ==> recs[i].serial != recs[j].serial
  }

  ghost function Table(recs: seq<Rec>): (t: map<U32, Rec>)
    ensures forall s :: s in t ==> t[s].serial == s
  {
    if recs == [] then map[] else Table(recs[1..])[recs[0].serial := recs[0]]
  }

  lemma {:induction false} Lookup(recs: seq<Rec>, s: U32)
    ensures s in Table(recs) <==> IndexOf(recs, s) < |recs|
    ensures s in Table(recs) ==> Table(recs)[s] == recs[IndexOf(recs, s)]
  {
    if recs != [] {
      Lookup(recs[1..], s);
    }
  }

  lemma {:induction false} UpdateTable(recs: seq<Rec>, r: Rec)
    requires IndexOf(recs, r.serial) < |recs|
    ensures Table(recs[IndexOf(recs, r.serial) := r]) == Table(recs)[r.serial := r]
  {
    var i := IndexOf(recs, r.serial);
    if i > 0 {
      UpdateTable(recs[1..], r);
      assert recs[i := r][1..] == recs[1..][i - 1 := r];
    }
  }

  lemma RemoveDistinct(recs: seq<Rec>, serial: U32)
    requires Distinct(recs)
    ensures Distinct(Remove(recs, serial))
  {
    var k, out := IndexOf(recs, serial), Remove(recs, serial);
    forall i, j | 0 <= i < j < |out| ensures out[i].serial != out[j].serial {
      assert out[i] == recs[if i < k then i else i + 1];
      assert out[j] == recs[if j < k then j else j + 1];
    }
  }

  lemma MinusUpdate<K, V>(m: map<K, V>, k: K, v: V, s: K)
    ensures k != s ==> m[k := v] - {s} == (m - {s})[k := v]
    ensures s !in m ==> m[s := v] - {s} == m
  {
  }

  lemma {:induction false} RemoveTable(recs: seq<Rec>, serial: U32)
    requires Distinct(recs)
    ensures Table(Remove(recs, serial)) == Table(recs) - {serial}
  {
    if recs != [] {
      var rest, r := recs[1..], recs[0];
      MinusUpdate(Table(rest), r.serial, r, serial);
      if r.serial == serial {
        assert serial !in Table(rest) by {
          Lookup(rest, serial);
        }
        assert Remove(recs, serial) == rest;
      } else {
        assert Distinct(rest);
        RemoveTable(rest, serial);
        RemoveCons(recs, serial);
      }
    }
  }

  lemma RemoveCons(recs: seq<Rec>, serial: U32)
    requires recs != [] && recs[0].serial != serial
    ensures Remove(recs, serial) == [recs[0]] + Remove(recs[1..], serial)
    ensures Remove(recs, serial) != [] && Remove(recs, serial)[1..] == Remove(recs[1..], serial)
    ensures Remove(recs, serial)[0] == recs[0]
  {
  }

  // ---- one frame, on the table ----

  /** What a frame must be to be taken: a first frame of an unknown serial, or the exact continuation
      of a known one. */
  predicate Accepts(t: map<U32, Rec>, f: Frame) {
    && f.gwOui && RecvOpcode(f.opcode)
    && if f.offset == 0 then f.serial !in t
       else f.serial in t && |t[f.serial].data| == f.offset && f.offset + |f.payload| <= t[f.serial].whole
  }

  /** What keeps the C code within its buffers: it copies the payload of a first frame it takes unchecked into a
      buffer of the declared whole length. */
  predicate CopyFits(t: map<U32, Rec>, f: Frame) {
    Accepts(t, f) && f.offset == 0 ==> |f.payload| <= f.whole
  }

  function Taken(t: map<U32, Rec>, f: Frame): Rec
    requires Accepts(t, f)
  {
    if f.offset == 0 then FromFrame(f) else Append(t[f.serial], f)
  }

  lemma AddTable(recs: seq<Rec>, r: Rec)
    requires Distinct(recs) && IndexOf(recs, r.serial) == |recs|
    ensures Distinct([r] + recs) && Table([r] + recs) == Table(recs)[r.serial := r]
  {
    assert ([r] + recs)[1..] == recs;
  }

  lemma {:induction false} ReceiveOnTable(recs: seq<Rec>, f: Frame)
    requires Distinct(recs)
    ensures var o := Receive(recs, f); var t := Table(recs);
            && Distinct(o.recs)
            && (Accepts(t, f) ==> Table(o.recs) == t[f.serial := Taken(t, f)])
            && (!Accepts(t, f) ==> o.recs == recs)
            && o.handed == (if Accepts(t, f) && Complete(Taken(t, f)) then [Taken(t, f)] else [])
  {
    Lookup(recs, f.serial);
    var i := IndexOf(recs, f.serial);
    if i < |recs| {
      UpdateTable(recs, Append(recs[i], f));
    } else {
      AddTable(recs, FromFrame(f));
    }
  }

  /** A frame leaves the list alone exactly when it is refused or is an empty continuation. */
  lemma UnchangedIff(recs: seq<Rec>, f: Frame)
    requires Distinct(recs)
    ensures Receive(recs, f).recs == recs <==> !Accepts(Table(recs), f) || (f.offset != 0 && f.payload == [])
  {
    ReceiveOnTable(recs, f);
    Lookup(recs, f.serial);
    if Accepts(Table(recs), f) {
      var r := Taken(Table(recs), f);
      assert f.payload == [] ==> r.data == if f.offset == 0 then [] else Table(recs)[f.serial].data;
    }
  }

  /** The return code does not tell refusal: an accepted first piece of a longer message also answers
      OAM_MESSAGE_RECEV_ERR, and that is the only accepted frame that does. */
  lemma ErrCodeWhenAccepted(recs: seq<Rec>, f: Frame)
    requires Distinct(recs) && Accepts(Table(recs), f)
    ensures Receive(recs, f).code == RecvErr <==> f.offset == 0 && |f.payload| != f.whole
  {
    ReceiveOnTable(recs, f);
    Lookup(recs, f.serial);
  }

  /** What the codes mean.  The one for success comes exactly with a message handed up; the one for an incomplete
      message exactly with a continuation that does not end it; the one for a wrong opcode exactly for those. */
  lemma CodeIff(recs: seq<Rec>, f: Frame)
    requires Distinct(recs)
    ensures var o := Receive(recs, f); var took := Accepts(Table(recs), f);
      && (o.code == RecvOk <==> o.handed != [])
      && (o.code == NotComplete <==> took && f.offset != 0 && o.handed == [])
      && (o.code == OpcodeErr <==> f.gwOui && !RecvOpcode(f.opcode))
      && (o.code == RecvErr <==> if took then f.offset == 0 && o.handed == [] else f.gwOui ==> RecvOpcode(f.opcode))
  {
    ReceiveOnTable(recs, f);
    Lookup(recs, f.serial);
  }

  /** A message whose node is still listed is handed up again by exactly one kind of frame: an empty
      piece at the very end of the message. */
  lemma HandedAgainIff(recs: seq<Rec>, f: Frame)
    requires Distinct(recs) && f.serial in Table(recs) && Complete(Table(recs)[f.serial])
    ensures Receive(recs, f).handed != [] <==>
            f.gwOui && RecvOpcode(f.opcode) && f.payload == [] && f.offset != 0
            && f.offset == Table(recs)[f.serial].whole
  {
    ReceiveOnTable(recs, f);
  }
}
