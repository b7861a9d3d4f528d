/** Vendor OAM frames and the way a message is cut into them (apps/oam.h, apps/oam.c).
    Header fields are plain numbers; the outer Ethernet header is not part of the model. */
module OamFrames {
  import opened Common

  type Byte = x: int | 0 <= x < 0x100
  type U16 = x: int | 0 <= x < 0x1_0000
  type U32 = x: int | 0 <= x < 0x1_0000_0000

  const OAM_DATA_LEN := 65535
  const OAM_HEADER_LEN := 40           // 18 standard bytes and 22 vendor bytes
  const MAX_MESSAGE := OAM_DATA_LEN - OAM_HEADER_LEN
  const PIECE_LEN: nat := 128 - 22 - 22  // negotiated frame length less both overheads

  /** One frame.  `payload` holds exactly as many bytes as the header's payload length says. */
  datatype Frame = Frame(
    gwOui: bool, opcode: Byte, serial: U32, whole: U16, offset: U16, payload: seq<Byte>, session: seq<Byte>)

  datatype Message = Message(opcode: Byte, serial: U32, session: seq<Byte>, data: seq<Byte>)

  predicate SendOpcode(op: Byte) {
    op in {0x02, 0x03, 0x05, 0x07, 0x08, 0x0C, 0x0D, 0x11, 0x12, 0x13, 0x14, 0x16, 0x17}
  }

  predicate RecvOpcode(op: Byte) {
    op in {0x01, 0x04, 0x05, 0x07, 0x08, 0x0B, 0x10, 0x12, 0x13, 0x14, 0x16, 0x17}
  }

  /** How many frames a message of `size` bytes takes. */
  function PieceCount(size: nat): nat {
    if size == 0 then 1 else (size + PIECE_LEN - 1) / PIECE_LEN
  }

  /** The frame that carries `count` bytes of `m` from `start`. */
  function Slice(m: Message, start: nat, count: nat): Frame
    requires start + count <= |m.data| <= MAX_MESSAGE
  {
    Frame(true, m.opcode, m.serial, |m.data|, start, m.data[start..start + count], m.session)
  }

  /** The k-th piece, in closed form: bytes 84k up to 84(k+1) or the end of the message. */
  function Piece(m: Message, k: nat): Frame
    requires |m.data| <= MAX_MESSAGE && k < PieceCount(|m.data|)
  {
    Slice(m, PIECE_LEN * k, Min(PIECE_LEN, |m.data| - PIECE_LEN * k))
  }

  function Fragments(m: Message): (fs: seq<Frame>)
    requires |m.data| <= MAX_MESSAGE
  {
    seq(PieceCount(|m.data|), k requires 0 <= k < PieceCount(|m.data|) => Piece(m, k))
  }

  function Concat(fs: seq<Frame>): seq<Byte> {
    if fs == [] then [] else Concat(fs[..|fs| - 1]) + fs[|fs| - 1].payload
  }

  /** All pieces but the last are full, and the last one ends the message. */
  lemma PieceBounds(size: nat, k: nat)
    requires k < PieceCount(size)
    ensures 84 * k <= size
    ensures k + 1 < PieceCount(size) ==> 84 * (k + 1) < size
    ensures k + 1 == PieceCount(size) ==> size <= 84 * (k + 1)
  {
  }

  lemma PieceTakes(m: Message, k: nat)
    requires |m.data| <= MAX_MESSAGE && k < PieceCount(|m.data|)
    ensures PIECE_LEN * k <= |m.data| && Fragments(m)[k].offset == PIECE_LEN * k
    ensures Fragments(m)[k].payload == m.data[PIECE_LEN * k..Min(PIECE_LEN * (k + 1), |m.data|)]
  {
    PieceBounds(|m.data|, k);
  }

  lemma ConcatSnoc(fs: seq<Frame>, k: nat)
    requires k < |fs|
    ensures Concat(fs[..k + 1]) == Concat(fs[..k]) + fs[k].payload
  {
    assert fs[..k + 1][..k] == fs[..k];
  }

  lemma NextJoins(m: Message, k: nat)
    requires |m.data| <= MAX_MESSAGE && k < PieceCount(|m.data|)
    requires Concat(Fragments(m)[..k]) == m.data[..Min(PIECE_LEN * k, |m.data|)]
    ensures Concat(Fragments(m)[..k + 1]) == m.data[..Min(PIECE_LEN * (k + 1), |m.data|)]
  {
    ConcatSnoc(Fragments(m), k);
    PieceTakes(m, k);
    var a, b := PIECE_LEN * k, Min(PIECE_LEN * (k + 1), |m.data|);
    assert m.data[..a] + m.data[a..b] == m.data[..b];
  }

  /** Cutting loses nothing: the pieces are contiguous and join to the message. */
  lemma {:induction false} FragmentsJoin(m: Message, k: nat)
    requires |m.data| <= MAX_MESSAGE && k <= PieceCount(|m.data|)
    ensures Concat(Fragments(m)[..k]) == m.data[..Min(PIECE_LEN * k, |m.data|)]
    ensures k < PieceCount(|m.data|) ==> Fragments(m)[k].offset == |Concat(Fragments(m)[..k])|
  {
    if k > 0 {
      FragmentsJoin(m, k - 1);
      NextJoins(m, k - 1);
    }
    if k < PieceCount(|m.data|) {
      PieceTakes(m, k);
    }
  }

  lemma AllFragmentsJoin(m: Message)
    requires |m.data| <= MAX_MESSAGE
    ensures Concat(Fragments(m)) == m.data
  {
    var n := PieceCount(|m.data|);
    FragmentsJoin(m, n);
    PieceBounds(|m.data|, n - 1);
    assert Fragments(m)[..n] == Fragments(m);
  }
}

/** CommOnuMsgSend (apps/oam.c:583). */
module OamSender {
  import opened OamFrames

  datatype SendResult = SendOk | ReturnErr | SendError

  /** The frames handed to the port are the closed-form pieces, or none when the call is refused. */
  method Send(m: Message) returns (result: SendResult, frames: seq<Frame>)
    ensures result == ReturnErr <==> |m.data| > MAX_MESSAGE
    ensures result == SendError <==> |m.data| <= MAX_MESSAGE && !SendOpcode(m.opcode)
    ensures result == SendOk ==> frames == Fragments(m)
    ensures result != SendOk ==> frames == []
  {
    frames := [];
    if |m.data| > MAX_MESSAGE {
      return ReturnErr, frames;
    }
    if !SendOpcode(m.opcode) {
      return SendError, frames;
    }
    var size := |m.data|;
    if PIECE_LEN < size {
      var sent: nat := 0;
      while PIECE_LEN + sent < size
        invariant sent < size
        invariant sent == PIECE_LEN * |frames|
        invariant |frames| < PieceCount(size)
        invariant frames == Fragments(m)[..|frames|]
      {
        frames := frames + [Slice(m, sent, PIECE_LEN)];
        sent := sent + PIECE_LEN;
      }
      frames := frames + [Slice(m, sent, size - sent)];
    } else {
      frames := [Slice(m, 0, size)];
    }
    assert |frames| == PieceCount(size);
    return SendOk, frames;
  }
}
