/** The event-log ring (apps/gw_log.c): 1024 slots written in turn, the first record in slot 1, and a search that
    visits the records still held from any slot on.
    A slot that has never been written is not in use, and the search passes over it. */
module EventLog {
  import opened Common

  type Byte = bv8

  const SLOTS := 1024
  const TEXT_LEN := 126

  datatype Entry = Entry(valid: bool, text: seq<Byte>)

  /** What a record keeps of its text. */
  function Cut(rec: seq<Byte>): seq<Byte> {
    if |rec| < TEXT_LEN then rec else rec[..TEXT_LEN]
  }

  /** The longest part of it from the start that has at most 126 bytes. */
  lemma CutIs(rec: seq<Byte>)
    ensures Cut(rec) <= rec && |Cut(rec)| <= 126
    ensures forall p :: p <= rec && |p| <= 126 ==> p <= Cut(rec)
    ensures Cut(rec) == rec <==> |rec| <= 126
  {
  }

  /** The number of records still held of n ever added. */
  function Held(n: nat): nat { Min(n, SLOTS) }

  /** Records are numbered from 1; the slot of record i. */
  function SlotOf(i: nat): nat { i % SLOTS }

  /** The slots after the records of h, oldest first, were added: each holds the newest record of its number, if
      there is one. */
  ghost predicate Holds(slots: seq<Entry>, h: seq<seq<Byte>>) {
    && |slots| == SLOTS
    && (forall i :: |h| - Held(|h|) < i <= |h| ==> slots[SlotOf(i)] == Entry(true, Cut(h[i - 1])))
    && (|h| < SLOTS ==> forall s :: 0 <= s < SLOTS && (s == 0 || s > |h|) ==> !slots[s].valid)
  }

  lemma AddHolds(slots: seq<Entry>, h: seq<seq<Byte>>, rec: seq<Byte>)
    requires Holds(slots, h)
    ensures Holds(slots[SlotOf(|h| + 1) := Entry(true, Cut(rec))], h + [rec]) && |slots| == 1024
  {
    var n := |h|;
    var t, g := slots[SlotOf(n + 1) := Entry(true, Cut(rec))], h + [rec];
    forall i | |g| - Held(|g|) < i <= |g|
      ensures t[SlotOf(i)] == Entry(true, Cut(g[i - 1]))
    {
      if i <= n {
        SlotsDiffer(i, n + 1);
      }
    }
  }

  lemma SlotsDiffer(i: nat, j: nat)
    requires i < j < i + SLOTS
    ensures SlotOf(i) != SlotOf(j)
  {
  }

  // ---- the search ----

  function After(s: nat): nat { if s == SLOTS - 1 then 0 else s + 1 }

  /** The slot reached from i in at most `left` steps to the next slot, stopping at the first valid one. */
  function Search(slots: seq<Entry>, i: nat, left: nat): (j: nat)
    requires |slots| == SLOTS && i < SLOTS
    ensures j < SLOTS
    decreases |slots| + left
  {
    if slots[i].valid || left == 0 then i else Search(slots, After(i), left - 1)
  }

  /** Whether the slot d steps on from i is in use. */
  predicate Used(slots: seq<Entry>, i: nat, d: nat)
    requires |slots| == SLOTS
  {
    slots[SlotOf(i + d)].valid
  }

  lemma {:induction false} SearchSkips(slots: seq<Entry>, i: nat, d: nat, left: nat)
    requires |slots| == SLOTS && i < SLOTS && d <= left
    requires Used(slots, i, d) && forall k :: 0 <= k < d ==> !Used(slots, i, k)
    ensures Search(slots, i, left) == SlotOf(i + d)
    decreases d
  {
    if d > 0 {
      assert !Used(slots, i, 0);
      StepOn(slots, i, d - 1);
      forall k | 0 <= k < d - 1
        ensures !Used(slots, After(i), k)
      {
        StepOn(slots, i, k);
        assert !Used(slots, i, k + 1);
      }
      SearchSkips(slots, After(i), d - 1, left - 1);
    }
  }

  lemma StepOn(slots: seq<Entry>, i: nat, d: nat)
    requires |slots| == SLOTS && i < SLOTS
    ensures SlotOf(After(i) + d) == SlotOf(i + (d + 1))
    ensures Used(slots, After(i), d) <==> Used(slots, i, d + 1)
  {
  }

  /** The endless-looking search of the source ends just when some slot is valid, and then within one round. */
  lemma SearchEndsIff(slots: seq<Entry>, i: nat)
    requires |slots| == SLOTS && i < SLOTS
    ensures slots[Search(slots, i, SLOTS - 1)].valid <==> exists s :: 0 <= s < SLOTS && slots[s].valid
  {
    if exists s :: 0 <= s < SLOTS && slots[s].valid {
      var s :| 0 <= s < SLOTS && slots[s].valid;
      var d := (s + SLOTS - i) % SLOTS;
      assert SlotOf(i + d) == s;
      var e := FirstFrom(slots, i, d);
      SearchSkips(slots, i, e, SLOTS - 1);
    }
  }

  /** The nearest slot in use, given one at distance d. */
  lemma {:induction false} FirstFrom(slots: seq<Entry>, i: nat, d: nat) returns (e: nat)
    requires |slots| == SLOTS && i < SLOTS && Used(slots, i, d)
    ensures e <= d && Used(slots, i, e) && forall k :: 0 <= k < e ==> !Used(slots, i, k)
  {
    e := 0;
    while !Used(slots, i, e)
      invariant e <= d
      invariant forall k :: 0 <= k < e ==> !Used(slots, i, k)
      decreases d - e
    {
      e := e + 1;
    }
  }

  /** gw_log_getnext_record: the slot it moves to.  A slot out of range stands for the current one. */
  function Next(slots: seq<Entry>, current: nat, slot: int): (s: nat)
    requires |slots| == SLOTS && current < SLOTS
    ensures s < SLOTS
  {
    Search(slots, if 0 <= slot < SLOTS then After(slot) else current, |slots| - 1)
  }

  /** Past the newest record of a ring that is not full yet, the search comes round to record 1. */
  lemma NextWraps(slots: seq<Entry>, h: seq<seq<Byte>>)
    requires Holds(slots, h) && 0 < |h| < SLOTS
    ensures Search(slots, After(|h|), SLOTS - 1) == SlotOf(1)
  {
    var start := After(|h|);
    var d := if |h| == SLOTS - 1 then 1 else SLOTS - |h|;
    assert SlotOf(start + d) == SlotOf(1);
    forall k | 0 <= k < d
      ensures !Used(slots, start, k)
    {
      assert SlotOf(start + k) == 0 || SlotOf(start + k) > |h|;
    }
    assert slots[SlotOf(1)].valid;
    SearchSkips(slots, start, d, SLOTS - 1);
  }

  lemma NextInUse(slots: seq<Entry>, h: seq<seq<Byte>>, i: nat, j: nat)
    requires Holds(slots, h) && |h| - Held(|h|) < j <= |h| && After(SlotOf(i)) == SlotOf(j)
    ensures Next(slots, SlotOf(|h|), SlotOf(i)) == SlotOf(j)
  {
    assert slots[SlotOf(j)].valid;
  }

  lemma Around(n: nat)
    ensures After(SlotOf(n)) == SlotOf(n + 1)
    ensures n >= SLOTS ==> SlotOf(n + 1) == SlotOf(n - SLOTS + 1)
  {
  }

  /** From the slot of a held record the search goes to the next newer one, and from the newest to the oldest. */
  lemma NextIsNewer(slots: seq<Entry>, h: seq<seq<Byte>>, i: nat)
    requires Holds(slots, h) && h != [] && |h| - Held(|h|) < i <= |h|
    ensures Next(slots, SlotOf(|h|), SlotOf(i)) == SlotOf(if i < |h| then i + 1 else |h| - Held(|h|) + 1)
  {
    Around(i);
    if i < |h| {
      NextInUse(slots, h, i, i + 1);
    } else if |h| >= SLOTS {
      NextInUse(slots, h, i, |h| - SLOTS + 1);
    } else {
      NextWraps(slots, h);
    }
  }

  /** The records that k searches in a row come upon, from a slot on, and the slot they end at. */
  function Replay(slots: seq<Entry>, current: nat, slot: nat, k: nat): (r: (seq<seq<Byte>>, nat))
    requires |slots| == SLOTS && current < SLOTS
    decreases k
  {
    if k == 0 then ([], slot)
    else
      var s := Next(slots, current, slot);
      var (texts, end) := Replay(slots, current, s, k - 1);
      ([slots[s].text] + texts, end)
  }

  function Texts(h: seq<seq<Byte>>): seq<seq<Byte>> {
    if h == [] then [] else [Cut(h[0])] + Texts(h[1..])
  }

  lemma {:induction false} TextsAre(h: seq<seq<Byte>>, i: nat)
    requires i < |h|
    ensures |Texts(h)| == |h| && Texts(h)[i] == Cut(h[i])
  {
    if i > 0 {
      TextsAre(h[1..], i - 1);
    } else if |h| > 1 {
      TextsAre(h[1..], 0);
    }
  }

  lemma TextsTail(h: seq<seq<Byte>>, o: nat)
    requires o < |h|
    ensures Texts(h[o..]) == [Cut(h[o])] + Texts(h[o + 1..])
  {
    assert h[o..][0] == h[o] && h[o..][1..] == h[o + 1..];
  }

  lemma ReplayStep(slots: seq<Entry>, current: nat, slot: nat, next: nat, k: nat)
    requires |slots| == SLOTS && current < SLOTS && k > 0 && next == Next(slots, current, slot)
    ensures Replay(slots, current, slot, k).0 == [slots[next].text] + Replay(slots, current, next, k - 1).0
    ensures Replay(slots, current, slot, k).1 == Replay(slots, current, next, k - 1).1
  {
  }

  lemma {:induction false} ReplayFrom(slots: seq<Entry>, h: seq<seq<Byte>>, i: nat, current: nat, k: nat)
    requires Holds(slots, h) && h != [] && |h| - Held(|h|) < i <= |h| && current == SlotOf(|h|) && k == |h| - i
    ensures Replay(slots, current, SlotOf(i), k).0 == Texts(h[i..])
    ensures Replay(slots, current, SlotOf(i), k).1 == current
    decreases k
  {
    if k == 0 {
      assert h[i..] == [];
    } else {
      NextIsNewer(slots, h, i);
      ReplayFrom(slots, h, i + 1, current, k - 1);
      ReplayStep(slots, current, SlotOf(i), SlotOf(i + 1), k);
      TextsTail(h, i);
      HeldText(slots, h, i + 1);
    }
  }

  lemma HeldText(slots: seq<Entry>, h: seq<seq<Byte>>, i: nat)
    requires Holds(slots, h) && |h| - Held(|h|) < i <= |h|
    ensures SlotOf(i) < SLOTS && slots[SlotOf(i)].text == Cut(h[i - 1])
  {
  }

  lemma ReplayAll(slots: seq<Entry>, h: seq<seq<Byte>>, o: nat, current: nat, next: nat)
    requires Holds(slots, h) && o < |h| && o == |h| - Held(|h|) && current == SlotOf(|h|)
    requires next == SlotOf(o + 1) == Next(slots, current, current)
    ensures Replay(slots, current, current, |h| - o) == (Texts(h[o..]), current)
  {
    ReplayStep(slots, current, current, next, |h| - o);
    ReplayFrom(slots, h, o + 1, current, |h| - (o + 1));
    TextsTail(h, o);
    HeldText(slots, h, o + 1);
  }

  /** From the current slot, as many searches as records are held visit exactly those records, oldest first, and
      end at the current slot again. */
  lemma {:induction false} ReplayIsHistory(slots: seq<Entry>, h: seq<seq<Byte>>)
    requires Holds(slots, h) && h != []
    ensures Replay(slots, SlotOf(|h|), SlotOf(|h|), Held(|h|)) == (Texts(h[|h| - Held(|h|)..]), SlotOf(|h|))
  {
    var o := |h| - Held(|h|);
    NextIsNewer(slots, h, |h|);
    ReplayAll(slots, h, o, SlotOf(|h|), SlotOf(o + 1));
  }

  /** g_eventmsgqueue and log_current_slot. */
  class Ring {
    const slots: array<Entry>
    var current: nat
    /** Every record added so far, oldest first. */
    ghost var history: seq<seq<Byte>>

    ghost predicate Valid()
      reads this, slots
    {
      && Holds(slots[..], history)
      && current == SlotOf(|history|)
      && slots.Length == SLOTS
    }

    constructor ()
      ensures Valid() && history == [] && fresh(slots)
    {
      slots := new Entry[SLOTS](_ => Entry(false, []));
      current := 0;
      history := [];
    }

    /** gw_log_add_record. */
    method AddRecord(rec: seq<Byte>) returns (slot: nat)
      requires Valid()
      modifies this, slots
      ensures Valid()
      ensures history == if rec == [] then old(history) else old(history) + [rec]
      ensures slot == current
    {
      if |rec| > 0 {
        var at := if current < SLOTS - 1 then current + 1 else 0;
        AddHolds(slots[..], history, rec);
        assert at == SlotOf(|history| + 1);
        slots[at] := Entry(true, if |rec| < TEXT_LEN then rec else rec[..TEXT_LEN]);
        assert slots[..] == old(slots[..])[at := Entry(true, Cut(rec))];
        if current == SLOTS - 1 {
          current := 0;
        } else {
          current := current + 1;
        }
        history := history + [rec];
      }
      slot := current;
    }

    /** gw_log_get_record: record i is readable in its slot while it is among the last 1024. */
    method GetRecord(slot: int) returns (text: Option<seq<Byte>>)
      requires Valid()
      ensures forall i: nat :: |history| - Held(|history|) < i <= |history| && SlotOf(i) == slot ==>
                text == Some(Cut(history[i - 1]))
      ensures text.Some? ==> 0 <= slot < SLOTS && slots[slot] == Entry(true, text.value)
      ensures text.None? <==> !(0 <= slot < SLOTS && slots[slot].valid)
    {
      if slot < 0 || slot >= SLOTS || !slots[slot].valid { return None; }
      return Some(slots[slot].text);
    }

    /** gw_log_getnext_record.  With no record at all the search would not end. */
    method GetNextRecord(slot: int) returns (text: seq<Byte>, next: nat)
      requires Valid() && history != []
      ensures next == Next(slots[..], current, slot)
      ensures slots[next] == Entry(true, text)
    {
      var start := if 0 <= slot < SLOTS then (if slot == SLOTS - 1 then 0 else slot + 1) else current;
      assert slots[..][SlotOf(|history|)].valid;
      SearchEndsIff(slots[..], start);
      var i: nat := start;
      ghost var left := SLOTS - 1;
      while !slots[i].valid
        invariant i < SLOTS && left >= 0
        invariant Search(slots[..], i, left) == Search(slots[..], start, SLOTS - 1)
        decreases left
      {
        if i == SLOTS - 1 {
          i := 0;
        } else {
          i := i + 1;
        }
        left := left - 1;
      }
      return slots[i].text, i;
    }
  }
}
