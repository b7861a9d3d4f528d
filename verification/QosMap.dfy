/** The per-port VLAN-to-queue table (qos/qos.c): a list searched by a packed key, written out as words for the
    configuration file and restored from them.
    The key packs the port above 16 bits of VID, so it stands for its entry only while both fit; restoring reads the
    port back through an 8-bit variable. */
module QosMap {

  type Word = bv32

  datatype Entry = Entry(port: Word, vid: Word, queue: Word)

  const ALL_PORTS: Word := 0xff

  /** What an entry is compared with (qos_vlan_queue_compare): the two halves of the key (port << 16) | vlanid. */
  function Target(port: Word, vid: Word): (Word, Word) {
    var key := (port << 16) | vid;
    (key >> 16, key & 0xffff)
  }

  /** The packed key stands for its port and VID exactly when both fit in 16 bits. */
  lemma TargetIff(port: Word, vid: Word)
    ensures Target(port, vid) == (port, vid) <==> port <= 0xffff && vid <= 0xffff
  {
  }

  predicate Is(e: Entry, k: (Word, Word)) { e.port == k.0 && e.vid == k.1 }

  /** gw_lst_find: the first entry that matches, or the length of the list. */
  function Find(t: seq<Entry>, k: (Word, Word)): (i: nat)
    ensures i <= |t| && (i < |t| ==> Is(t[i], k))
    ensures i == |t| <==> forall e :: e in t ==> !Is(e, k)
    decreases t
  {
    if t == [] then 0 else if Is(t[0], k) then 0 else 1 + Find(t[1..], k)
  }

  /** An entry whose key stands for it; in particular every entry on port 0..255 with a VID in 0..65535. */
  predicate Fits(e: Entry) { Target(e.port, e.vid) == (e.port, e.vid) }

  function Add(t: seq<Entry>, e: Entry): seq<Entry> {
    if Find(t, Target(e.port, e.vid)) < |t| then t else t + [e]
  }

  function Remove(t: seq<Entry>, port: Word, vid: Word): seq<Entry> {
    var i := Find(t, Target(port, vid));
    if i < |t| then t[..i] + t[i + 1..] else t
  }

  predicate Has(t: seq<Entry>, k: (Word, Word)) { exists e :: e in t && Is(e, k) }

  /** No two entries for one port and VID. */
  predicate Distinct(t: seq<Entry>)
    decreases t
  {
    t == [] || (!Has(t[..|t| - 1], (t[|t| - 1].port, t[|t| - 1].vid)) && Distinct(t[..|t| - 1]))
  }

  lemma {:induction false} DistinctIff(t: seq<Entry>)
    ensures Distinct(t) <==> forall i, j :: 0 <= i < j < |t| ==> !Is(t[i], (t[j].port, t[j].vid))
    decreases t
  {
    if t != [] {
      DistinctIff(t[..|t| - 1]);
    }
  }

  /** What the table says: the queue of each port and VID. */
  function Dict(t: seq<Entry>): map<(Word, Word), Word>
    decreases t
  {
    if t == [] then map[]
    else Dict(t[..|t| - 1])[(t[|t| - 1].port, t[|t| - 1].vid) := t[|t| - 1].queue]
  }

  lemma HasLast(p: seq<Entry>, e: Entry, k: (Word, Word))
    ensures Has(p + [e], k) <==> Has(p, k) || k == (e.port, e.vid)
  {
    assert forall x :: x in p + [e] <==> x in p || x == e;
    assert Is(e, k) <==> k == (e.port, e.vid);
    assert Has(p, k) ==> exists x :: x in p + [e] && Is(x, k);
    assert e in p + [e];
  }

  /** Distinct and Dict, read from the last entry. */
  lemma Last(p: seq<Entry>, e: Entry)
    ensures Distinct(p + [e]) <==> Distinct(p) && !Has(p, (e.port, e.vid))
    ensures Dict(p + [e]) == Dict(p)[(e.port, e.vid) := e.queue]
  {
    assert (p + [e])[..|p|] == p;
  }

  lemma {:induction false} DictHas(t: seq<Entry>, k: (Word, Word))
    ensures k in Dict(t) <==> Has(t, k)
    decreases t
  {
    if t != [] {
      var p, e := t[..|t| - 1], t[|t| - 1];
      assert t == p + [e];
      HasLast(p, e, k);
      DictHas(p, k);
    }
  }

  /** Adding never makes a second entry for a port and VID, and is insertion of a new key: an existing one keeps
      its queue. */
  lemma AddInserts(t: seq<Entry>, e: Entry)
    requires Distinct(t) && Fits(e)
    ensures Distinct(Add(t, e))
    ensures var k := (e.port, e.vid);
      Dict(Add(t, e)) == if k in Dict(t) then Dict(t) else Dict(t)[k := e.queue]
  {
    var k := (e.port, e.vid);
    DictHas(t, k);
    if !Has(t, k) {
      assert (t + [e])[..|t|] == t;
    }
  }

  /** A VID beyond 16 bits is never found again, so adding it twice makes two entries. */
  lemma AddTwiceIff(t: seq<Entry>, e: Entry)
    requires !Has(t, Target(e.port, e.vid))
    ensures Add(Add(t, e), e) == t + [e, e] <==> e.port > 0xffff || e.vid > 0xffff
  {
    TargetIff(e.port, e.vid);
    var u := t + [e];
    assert Find(u, Target(e.port, e.vid)) == |u| <==> !Is(e, Target(e.port, e.vid));
    assert u + [e] == t + [e, e];
  }

  lemma HasMore(a: seq<Entry>, e: Entry, b: seq<Entry>, k: (Word, Word))
    ensures Has(a + [e] + b, k) <==> Has(a + b, k) || k == (e.port, e.vid)
  {
    var t := a + [e] + b;
    assert forall x :: x in t <==> x in a + b || x == e;
    assert Is(e, k) <==> k == (e.port, e.vid);
    assert e in t;
  }

  lemma {:induction false} RemoveAt(a: seq<Entry>, e: Entry, b: seq<Entry>)
    requires Distinct(a + [e] + b)
    ensures Distinct(a + b) && Dict(a + b) == Dict(a + [e] + b) - {(e.port, e.vid)}
    decreases b
  {
    if b == [] {
      assert a + b == a && a + [e] + b == a + [e];
      Last(a, e);
      DictHas(a, (e.port, e.vid));
    } else {
      var c, f := b[..|b| - 1], b[|b| - 1];
      assert a + b == (a + c) + [f] && a + [e] + b == (a + [e] + c) + [f];
      Last(a + c, f);
      Last(a + [e] + c, f);
      RemoveAt(a, e, c);
      HasMore(a, e, c, (f.port, f.vid));
    }
  }

  lemma {:induction false} WithoutKey(t: seq<Entry>, k: (Word, Word))
    requires Distinct(t)
    ensures var i := Find(t, k);
      var r := if i < |t| then t[..i] + t[i + 1..] else t;
      Distinct(r) && Dict(r) == Dict(t) - {k}
  {
    var i := Find(t, k);
    if i < |t| {
      assert t == t[..i] + [t[i]] + t[i + 1..];
      RemoveAt(t[..i], t[i], t[i + 1..]);
    } else {
      DictHas(t, k);
    }
  }

  /** Removing deletes exactly the key the packed one stands for (TargetIff says when that is the port and VID). */
  lemma RemoveDeletes(t: seq<Entry>, port: Word, vid: Word)
    requires Distinct(t)
    ensures Distinct(Remove(t, port, vid)) && Dict(Remove(t, port, vid)) == Dict(t) - {Target(port, vid)}
  {
    WithoutKey(t, Target(port, vid));
  }

  /** A change of the table, by command. */
  datatype Change = Insert(e: Entry) | Delete(port: Word, vid: Word)

  function Apply(t: seq<Entry>, cs: seq<Change>): seq<Entry>
    decreases cs
  {
    if cs == [] then t
    else
      Apply(match cs[0] { case Insert(e) => Add(t, e) case Delete(p, v) => Remove(t, p, v) }, cs[1..])
  }

  /** In runs on ports and VIDs that fit their halves of the key, no port and VID ever has two entries. */
  lemma {:induction false} RunsStayDistinct(t: seq<Entry>, cs: seq<Change>)
    requires Distinct(t)
    requires forall c :: c in cs && c.Insert? ==> c.e.port <= 0xffff && c.e.vid <= 0xffff
    ensures Distinct(Apply(t, cs))
    decreases cs
  {
    if cs != [] {
      match cs[0]
      case Insert(e) =>
        assert cs[0] in cs && cs[0].e == e;
        TargetIff(e.port, e.vid);
        AddInserts(t, e);
        RunsStayDistinct(Add(t, e), cs[1..]);
      case Delete(p, v) =>
        var i := Find(t, Target(p, v));
        if i < |t| {
          assert t == t[..i] + [t[i]] + t[i + 1..];
          RemoveAt(t[..i], t[i], t[i + 1..]);
        }
        RunsStayDistinct(Remove(t, p, v), cs[1..]);
    }
  }

  // ---- writing out and restoring ----

  /** gw_qos_vlan_showrun. */
  function Words(t: seq<Entry>): (w: seq<Word>)
    ensures |w| == 3 * |t|
    decreases t
  {
    if t == [] then [] else Words(t[..|t| - 1]) + [t[|t| - 1].port, t[|t| - 1].vid, t[|t| - 1].queue]
  }

  /** The entry that restoring reads from three words: the port goes through an 8-bit variable. */
  function EntryAt(w: seq<Word>, i: nat): Entry
    requires 3 * i + 2 < |w|
  {
    Entry(w[3 * i] & 0xff, w[3 * i + 1], w[3 * i + 2])
  }

  function Entries(w: seq<Word>, n: nat): seq<Entry>
    requires 3 * n <= |w|
  {
    if n == 0 then [] else Entries(w, n - 1) + [EntryAt(w, n - 1)]
  }

  lemma {:induction false} EntriesPrefix(w: seq<Word>, v: seq<Word>, n: nat)
    requires 3 * n <= |w|
    ensures Entries(w + v, n) == Entries(w, n)
  {
    if n > 0 {
      EntriesPrefix(w, v, n - 1);
      assert EntryAt(w + v, n - 1) == EntryAt(w, n - 1);
    }
  }

  /** The entry as it comes back: its port cut to 8 bits. */
  function Narrow(e: Entry): Entry { e.(port := e.port & 0xff) }

  function NarrowAll(t: seq<Entry>): (r: seq<Entry>)
    ensures |r| == |t| && forall i :: 0 <= i < |t| ==> r[i] == Narrow(t[i])
  {
    seq(|t|, i requires 0 <= i < |t| => Narrow(t[i]))
  }

  lemma WordsLast(p: seq<Entry>, e: Entry)
    ensures Words(p + [e]) == Words(p) + [e.port, e.vid, e.queue]
  {
    assert (p + [e])[..|p|] == p;
  }

  lemma EntryLast(w: seq<Word>, n: nat, e: Entry)
    requires |w| == 3 * n
    ensures EntryAt(w + [e.port, e.vid, e.queue], n) == Narrow(e)
  {
  }

  lemma {:induction false} WordsStep(p: seq<Entry>, e: Entry)
    ensures Entries(Words(p + [e]), |p| + 1) == Entries(Words(p), |p|) + [Narrow(e)]
  {
    WordsLast(p, e);
    EntriesPrefix(Words(p), [e.port, e.vid, e.queue], |p|);
    EntryLast(Words(p), |p|, e);
  }

  /** Reading back what was written gives the table with its ports cut to 8 bits. */
  lemma {:induction false} WordsRead(t: seq<Entry>)
    ensures Entries(Words(t), |t|) == NarrowAll(t)
    decreases t
  {
    if t != [] {
      var p, e := t[..|t| - 1], t[|t| - 1];
      assert t == p + [e];
      WordsRead(p);
      WordsStep(p, e);
      assert NarrowAll(t) == NarrowAll(p) + [Narrow(e)];
    }
  }

  /** So it gives the table again exactly when every port fits in 8 bits. */
  lemma {:induction false} WordsRoundTripIff(t: seq<Entry>)
    ensures Entries(Words(t), |t|) == t <==> forall e :: e in t ==> e.port <= 0xff
  {
    WordsRead(t);
    forall i | 0 <= i < |t|
      ensures Narrow(t[i]) == t[i] <==> t[i].port <= 0xff
    {
      NarrowIff(t[i]);
    }
    if forall e :: e in t ==> e.port <= 0xff {
      assert forall i :: 0 <= i < |t| ==> t[i] in t;
      assert NarrowAll(t) == t;
    }
  }

  lemma NarrowIff(e: Entry)
    ensures Narrow(e) == e <==> e.port <= 0xff
    ensures Narrow(e).port <= 0xff
  {
  }

  function AddAll(t: seq<Entry>, es: seq<Entry>): seq<Entry>
    decreases es
  {
    if es == [] then t else Add(AddAll(t, es[..|es| - 1]), es[|es| - 1])
  }

  /** The entries whose port and VID neither the table nor an earlier one of them has. */
  function Lacking(t: seq<Entry>, es: seq<Entry>): seq<Entry>
    decreases es
  {
    if es == [] then []
    else
      var p, e := es[..|es| - 1], es[|es| - 1];
      Lacking(t, p) + if Has(t, (e.port, e.vid)) || Has(p, (e.port, e.vid)) then [] else [e]
  }

  lemma LackingLast(t: seq<Entry>, p: seq<Entry>, e: Entry)
    ensures Lacking(t, p + [e]) ==
            Lacking(t, p) + if Has(t, (e.port, e.vid)) || Has(p, (e.port, e.vid)) then [] else [e]
  {
    assert (p + [e])[..|p|] == p;
  }

  lemma {:induction false} LackingHas(t: seq<Entry>, es: seq<Entry>, k: (Word, Word))
    ensures Has(Lacking(t, es), k) <==> Has(es, k) && !Has(t, k)
    decreases es
  {
    if es != [] {
      var p, e := es[..|es| - 1], es[|es| - 1];
      assert es == p + [e];
      LackingHas(t, p, k);
      LackingLast(t, p, e);
      HasLast(p, e, k);
      HasLast(Lacking(t, p), e, k);
      assert Lacking(t, p) + [] == Lacking(t, p);
    }
  }

  lemma HasJoin(a: seq<Entry>, b: seq<Entry>, k: (Word, Word))
    ensures Has(a + b, k) <==> Has(a, k) || Has(b, k)
  {
    assert forall x :: x in a + b <==> x in a || x in b;
  }

  predicate AllFit(es: seq<Entry>) { forall e :: e in es ==> Fits(e) }

  lemma AddLast(t: seq<Entry>, p: seq<Entry>, e: Entry)
    requires Fits(e)
    ensures Add(t + Lacking(t, p), e) == t + Lacking(t, p + [e])
  {
    var k := (e.port, e.vid);
    LackingHas(t, p, k);
    HasJoin(t, Lacking(t, p), k);
    LackingLast(t, p, e);
    assert t + Lacking(t, p) + [e] == t + (Lacking(t, p) + [e]);
    assert Lacking(t, p) + [] == Lacking(t, p);
  }

  lemma {:induction false} AddAllIs(t: seq<Entry>, es: seq<Entry>)
    requires AllFit(es)
    ensures AddAll(t, es) == t + Lacking(t, es)
    decreases es
  {
    if es == [] {
      assert t + [] == t;
    } else {
      var p, e := es[..|es| - 1], es[|es| - 1];
      assert es == p + [e] && e in es;
      assert forall x :: x in p ==> x in es;
      AddAllIs(t, p);
      AddLast(t, p, e);
    }
  }

  /** Into an empty table all of them go exactly when none repeats another's port and VID. */
  lemma {:induction false} AllLackingIff(es: seq<Entry>)
    ensures |Lacking([], es)| <= |es|
    ensures |Lacking([], es)| == |es| <==> Distinct(es)
    ensures Distinct(es) ==> Lacking([], es) == es
    decreases es
  {
    if es != [] {
      var p, e := es[..|es| - 1], es[|es| - 1];
      assert es == p + [e];
      AllLackingIff(p);
      LackingLast([], p, e);
    }
  }

  /** Restoring a saved table with VIDs of 16 bits appends the entries read back that the present table lacks, in
      order. */
  lemma {:induction false} RestoreIs(t: seq<Entry>, saved: seq<Entry>)
    requires forall e :: e in saved ==> e.vid <= 0xffff
    ensures AddAll(t, Entries(Words(saved), |saved|)) == t + Lacking(t, NarrowAll(saved))
  {
    var es := NarrowAll(saved);
    WordsRead(saved);
    forall e | e in es
      ensures Fits(e)
    {
      var i :| 0 <= i < |es| && es[i] == e;
      assert saved[i] in saved;
      NarrowIff(saved[i]);
      TargetIff(e.port, e.vid);
    }
    AddAllIs(t, es);
  }

  /** Restoring into an empty table brings the saved one back exactly when its ports fit in 8 bits and none of its
      entries repeats another's port and VID. */
  lemma {:induction false} RestoreRoundTripIff(saved: seq<Entry>)
    requires forall e :: e in saved ==> e.vid <= 0xffff
    ensures AddAll([], Entries(Words(saved), |saved|)) == saved <==>
            Distinct(saved) && forall e :: e in saved ==> e.port <= 0xff
  {
    RestoreIs([], saved);
    WordsRead(saved);
    WordsRoundTripIff(saved);
    AllLackingIff(NarrowAll(saved));
    AllLackingIff(saved);
  }

  /** gw_qos_vlan_queue_entry_get_by_port; port 255 asks for every entry. */
  function ByPort(t: seq<Entry>, port: Word): (r: seq<Entry>)
    ensures forall e :: e in r <==> e in t && (port == ALL_PORTS || e.port == port)
    decreases t
  {
    if t == [] then []
    else
      var p, e := t[..|t| - 1], t[|t| - 1];
      assert t == p + [e];
      ByPort(p, port) + if port == ALL_PORTS || e.port == port then [e] else []
  }

  lemma {:induction false} ByPortAll(t: seq<Entry>)
    ensures ByPort(t, ALL_PORTS) == t
    decreases t
  {
    if t != [] {
      ByPortAll(t[..|t| - 1]);
    }
  }

  lemma {:induction false} ByPortJoin(a: seq<Entry>, b: seq<Entry>, port: Word)
    ensures ByPort(a + b, port) == ByPort(a, port) + ByPort(b, port)
    decreases b
  {
    if b == [] {
      assert a + b == a;
    } else {
      assert (a + b)[..|a + b| - 1] == a + b[..|b| - 1];
      ByPortJoin(a, b[..|b| - 1], port);
    }
  }

  /** A restore brings each port back the entries it lacked, after the ones it has. */
  lemma {:induction false} RestoreByPort(t: seq<Entry>, saved: seq<Entry>, port: Word)
    requires forall e :: e in saved ==> e.vid <= 0xffff
    ensures ByPort(AddAll(t, Entries(Words(saved), |saved|)), port) ==
            ByPort(t, port) + ByPort(Lacking(t, NarrowAll(saved)), port)
  {
    RestoreIs(t, saved);
    ByPortJoin(t, Lacking(t, NarrowAll(saved)), port);
  }

  /** s_qos_vlan_queue_list. */
  class QueueMap {
    var list: seq<Entry>

    constructor ()
      ensures list == []
    {
      list := [];
    }

    /** gw_qos_vlan_queue_add. */
    method QueueAdd(port: Word, vid: Word, queue: Word) returns (ok: bool)
      modifies this
      ensures list == Add(old(list), Entry(port, vid, queue))
      ensures ok <==> list != old(list)
    {
      ok := Find(list, Target(port, vid)) == |list|;
      if ok {
        list := list + [Entry(port, vid, queue)];
      }
    }

    /** gw_qos_vlan_queue_remove. */
    method QueueRemove(port: Word, vid: Word) returns (ok: bool)
      modifies this
      ensures list == Remove(old(list), port, vid)
      ensures ok <==> list != old(list)
    {
      var i := Find(list, Target(port, vid));
      ok := i < |list|;
      if ok {
        list := list[..i] + list[i + 1..];
      }
    }

    /** gw_qos_vlan_queue_entry_get_by_port: the count, and the entries when there are any. */
    method GetByPort(port: Word) returns (count: nat, data: seq<Entry>)
      ensures data == ByPort(list, port) && count == |data|
    {
      var found := list;
      if port == ALL_PORTS {
        ByPortAll(list);
      } else {
        found := [];
        var i := 0;
        while i < |list|
          invariant 0 <= i <= |list|
          invariant found == ByPort(list[..i], port)
        {
          assert list[..i + 1][..i] == list[..i];
          if list[i].port == port {
            found := found + [list[i]];
          }
          i := i + 1;
        }
        assert list[..|list|] == list;
      }
      return |found|, found;
    }

    /** gw_qos_vlan_showrun. */
    method ShowRun() returns (words: seq<Word>)
      ensures words == Words(list)
    {
      words := [];
      var i := 0;
      while i < |list|
        invariant 0 <= i <= |list|
        invariant words == Words(list[..i])
      {
        assert list[..i + 1][..i] == list[..i];
        words := words + [list[i].port, list[i].vid, list[i].queue];
        i := i + 1;
      }
      assert list[..|list|] == list;
    }

    /** gw_qos_vlan_restore, without the reapplying of the rules to the switch. */
    method Restore(words: seq<Word>)
      modifies this
      ensures list == AddAll(old(list), Entries(words, |words| / 3))
    {
      var num := |words| / 3;
      var i := 0;
      while i < num
        invariant 0 <= i <= num
        invariant list == AddAll(old(list), Entries(words, i))
      {
        var _ := QueueAdd(words[3 * i] & 0xff, words[3 * i + 1], words[3 * i + 2]);
        i := i + 1;
        assert Entries(words, i)[..|Entries(words, i)| - 1] == Entries(words, i - 1);
      }
    }
  }
}
