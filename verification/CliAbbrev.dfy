/** Abbreviated commands (cli_lib/cli_parser.c): the shortest unique lengths that gw_cli_build_shortest
    writes into a command tree, and the matching in gw_cli_find_command.
    The lengths are computed with case, the matching is done without. */
module CliAbbrev {

  /** Length of the longest common prefix. */
  function Lcp(a: string, b: string): (n: nat)
    ensures n <= |a| && n <= |b|
    ensures a[..n] == b[..n]
    ensures n < |a| && n < |b| ==> a[n] != b[n]
  {
    if a == [] || b == [] || a[0] != b[0] then 0
    else
      var n := Lcp(a[1..], b[1..]);
      assert a[..n + 1] == [a[0]] + a[1..][..n] && b[..n + 1] == [b[0]] + b[1..][..n];
      n + 1
  }

  function Max(a: nat, b: nat): nat { if a < b then b else a }

  /** The shortest length at which name i differs from the names before place n. */
  function ShortestUpto(names: seq<string>, i: nat, n: nat): (u: nat)
    requires i < |names| && n <= |names|
    ensures u >= 1
  {
    if n == 0 then 1
    else if n - 1 == i then ShortestUpto(names, i, n - 1)
    else Max(ShortestUpto(names, i, n - 1), 1 + Lcp(names[i], names[n - 1]))
  }

  /** It is one more than the longest prefix shared with one of those names, or 1. */
  lemma {:induction false} ShortestBounds(names: seq<string>, i: nat, n: nat)
    requires i < |names| && n <= |names|
    ensures var u := ShortestUpto(names, i, n);
            && (forall j :: 0 <= j < n && j != i ==> u >= 1 + Lcp(names[i], names[j]))
            && (u == 1 || exists j :: 0 <= j < n && j != i && u == 1 + Lcp(names[i], names[j]))
  {
    if n > 0 {
      ShortestBounds(names, i, n - 1);
    }
  }

  function Shortest(names: seq<string>, i: nat): nat
    requires i < |names|
  {
    ShortestUpto(names, i, |names|)
  }

  /** A rebuild from place k on, as the registration of a command below another starts it, compares only with the
      siblings from there on. */
  function ShortestFrom(names: seq<string>, k: nat, i: nat): nat
    requires k <= i < |names|
  {
    Shortest(names[k..], i - k)
  }

  /** It gives the right length exactly when every prefix shared with an earlier sibling is matched by one at least as
      long that is shared with a later sibling. */
  lemma PartialRebuildIff(names: seq<string>, k: nat, i: nat)
    requires k <= i < |names|
    ensures ShortestFrom(names, k, i) <= Shortest(names, i)
    ensures ShortestFrom(names, k, i) == Shortest(names, i) <==>
            forall j :: 0 <= j < k && Lcp(names[i], names[j]) > 0 ==>
              exists m :: k <= m < |names| && m != i && Lcp(names[i], names[m]) >= Lcp(names[i], names[j])
  {
    var u, v := ShortestFrom(names, k, i), Shortest(names, i);
    ShortestBounds(names, i, |names|);
    FromBounds(names, k, i);
    if u == v {
      forall j | 0 <= j < k && Lcp(names[i], names[j]) > 0
        ensures exists m :: k <= m < |names| && m != i && Lcp(names[i], names[m]) >= Lcp(names[i], names[j])
      {
        assert u >= 1 + Lcp(names[i], names[j]);
      }
    } else {
      var j :| 0 <= j < |names| && j != i && v == 1 + Lcp(names[i], names[j]);
      assert j < k;
    }
  }

  /** It is one more than the longest prefix shared with a later sibling, or 1. */
  lemma FromBounds(names: seq<string>, k: nat, i: nat)
    requires k <= i < |names|
    ensures var u := ShortestFrom(names, k, i);
      && (forall m :: k <= m < |names| && m != i ==> u >= 1 + Lcp(names[i], names[m]))
      && (u == 1 || exists m :: k <= m < |names| && m != i && u == 1 + Lcp(names[i], names[m]))
  {
    var r, u := names[k..], ShortestFrom(names, k, i);
    ShortestBounds(r, i - k, |r|);
    assert r[i - k] == names[i];
    forall m | k <= m < |names| && m != i
      ensures u >= 1 + Lcp(names[i], names[m])
    {
      assert r[m - k] == names[m];
    }
    if u != 1 {
      var j :| 0 <= j < |r| && j != i - k && u == 1 + Lcp(r[i - k], r[j]);
      assert r[j] == names[k + j];
    }
  }

  // ---- matching ----

  function Fold(c: char): char {
    if 'A' <= c <= 'Z' then (c as int + 32) as char else c
  }

  /** Capitals become small letters of the same place in the alphabet; everything else stays, so folding twice is
      folding once. */
  lemma FoldIs(c: char)
    ensures 'A' <= c <= 'Z' ==> 'a' <= Fold(c) <= 'z' && Fold(c) as int - 'a' as int == c as int - 'A' as int
    ensures !('A' <= c <= 'Z') ==> Fold(c) == c
    ensures Fold(Fold(c)) == Fold(c)
  {
  }

  function FoldAll(s: string): (r: string)
    ensures |r| == |s|
  {
    seq(|s|, i requires 0 <= i < |s| => Fold(s[i]))
  }

  /** strncasecmp(a, b, n) == 0. */
  predicate SameUpto(a: string, b: string, n: nat) {
    n == 0 || (if a == [] || b == [] then a == b else Fold(a[0]) == Fold(b[0]) && SameUpto(a[1..], b[1..], n - 1))
  }

  /** The two comparisons a command has to pass. */
  predicate Selects(name: string, uniqueLen: nat, word: string) {
    SameUpto(name, word, uniqueLen) && SameUpto(name, word, |word|)
  }

  lemma FoldCons(s: string)
    requires s != []
    ensures FoldAll(s) == [Fold(s[0])] + FoldAll(s[1..])
  {
  }

  /** Comparing n characters without case: the folded texts agree up to n, an end counting as a character. */
  lemma {:induction false} SameUptoIff(a: string, b: string, n: nat)
    ensures SameUpto(a, b, n) <==>
            FoldAll(a) == FoldAll(b) || (n <= |a| && n <= |b| && FoldAll(a)[..n] == FoldAll(b)[..n])
  {
    if n > 0 && a != [] && b != [] {
      var fa, fb := FoldAll(a), FoldAll(b);
      FoldCons(a);
      FoldCons(b);
      SameUptoIff(a[1..], b[1..], n - 1);
      assert fa[1..] == FoldAll(a[1..]) && fb[1..] == FoldAll(b[1..]);
      if n <= |a| && n <= |b| {
        assert fa[..n] == [fa[0]] + fa[1..][..n - 1] && fb[..n] == [fb[0]] + fb[1..][..n - 1];
      }
      assert fa == [fa[0]] + fa[1..] && fb == [fb[0]] + fb[1..];
    }
  }

  /** A word selects a command exactly when, apart from case, it is the name or a prefix of it that is at
      least `unique_len` long. */
  lemma SelectsIff(name: string, u: nat, word: string)
    requires 1 <= u
    ensures Selects(name, u, word) <==>
            FoldAll(word) == FoldAll(name) || (u <= |word| && FoldAll(word) <= FoldAll(name))
  {
    SameUptoIff(name, word, u);
    SameUptoIff(name, word, |word|);
    var fn, fw := FoldAll(name), FoldAll(word);
    assert fw[..|word|] == fw;
    if u <= |word| && fw <= fn {
      assert fn[..u] == fw[..u];
    }
  }

  /** Upper and lower case do not hide a difference between the two names. */
  predicate CaseClear(a: string, b: string) {
    Lcp(FoldAll(a), FoldAll(b)) == Lcp(a, b)
  }

  predicate Upper(c: char) { 'A' <= c <= 'Z' }

  predicate Lower(c: char) { 'a' <= c <= 'z' }

  /** The letters of the two names are all of one case. */
  predicate OneCase(a: string, b: string) {
    (forall c :: c in a + b ==> !Upper(c)) || (forall c :: c in a + b ==> !Lower(c))
  }

  lemma {:induction false} OneCaseIsClear(a: string, b: string)
    requires OneCase(a, b)
    ensures CaseClear(a, b)
  {
    if a != [] && b != [] {
      assert a[0] in a + b && b[0] in a + b;
      assert Fold(a[0]) == Fold(b[0]) <==> a[0] == b[0];
      FoldCons(a);
      FoldCons(b);
      if a[0] == b[0] {
        assert forall c :: c in a[1..] + b[1..] ==> c in a + b;
        OneCaseIsClear(a[1..], b[1..]);
        LcpCons(a, b);
        assert FoldAll(a)[1..] == FoldAll(a[1..]) && FoldAll(b)[1..] == FoldAll(b[1..]);
        LcpCons(FoldAll(a), FoldAll(b));
      }
    }
  }

  lemma LcpCons(a: string, b: string)
    requires a != [] && b != [] && a[0] == b[0]
    ensures Lcp(a, b) == 1 + Lcp(a[1..], b[1..])
  {
  }

  lemma {:induction false} CommonPrefix(a: string, b: string, w: string)
    requires w <= a && w <= b
    ensures |w| <= Lcp(a, b)
  {
    if w != [] {
      assert a[0] == w[0] && b[0] == w[0];
      CommonPrefix(a[1..], b[1..], w[1..]);
    }
  }

  /** No word selects two siblings with different names. */
  lemma SelectionIsUnique(names: seq<string>, i: nat, j: nat, word: string)
    requires i < |names| && j < |names| && i != j
    requires CaseClear(names[i], names[j]) && CaseClear(names[j], names[i])
    requires Selects(names[i], Shortest(names, i), word) && Selects(names[j], Shortest(names, j), word)
    ensures FoldAll(names[i]) == FoldAll(names[j])
  {
    var a, b, w := FoldAll(names[i]), FoldAll(names[j]), FoldAll(word);
    SelectsIff(names[i], Shortest(names, i), word);
    SelectsIff(names[j], Shortest(names, j), word);
    ShortestBounds(names, i, |names|);
    ShortestBounds(names, j, |names|);
    CommonPrefix(a, b, w);
    CommonPrefix(b, a, w);
  }

  /** How long a word must at least be to select the name. */
  function Need(name: string, u: nat): nat { if u <= |name| then u else |name| }

  /** Two siblings can be selected by one word exactly when their common prefix without case is long enough
      for both: the names that differ in case early are the ones that go wrong. */
  lemma AmbiguousIff(a: string, ua: nat, b: string, ub: nat)
    requires ua >= 1 && ub >= 1
    ensures (exists word :: Selects(a, ua, word) && Selects(b, ub, word)) <==>
            Max(Need(a, ua), Need(b, ub)) <= Lcp(FoldAll(a), FoldAll(b))
  {
    var fa, fb := FoldAll(a), FoldAll(b);
    var n := Lcp(fa, fb);
    if n >= Max(Need(a, ua), Need(b, ub)) {
      var word := a[..n];
      assert FoldAll(word) == fa[..n] == fb[..n];
      SelectsIff(a, ua, word);
      SelectsIff(b, ub, word);
      assert n == |a| ==> word == a;
      assert n == |b| ==> FoldAll(word) == fb;
      assert Selects(a, ua, word) && Selects(b, ub, word);
    }
    forall word | Selects(a, ua, word) && Selects(b, ub, word) ensures Max(Need(a, ua), Need(b, ub)) <= n {
      SelectsIff(a, ua, word);
      SelectsIff(b, ub, word);
      CommonPrefix(fa, fb, FoldAll(word));
    }
  }

  /** Mixed case does go wrong: "a" selects both of these siblings. */
  lemma MixedCaseIsAmbiguous()
    ensures var names := ["Abc", "abd"];
            FoldAll(names[0]) != FoldAll(names[1])
            && Selects(names[0], Shortest(names, 0), "a") && Selects(names[1], Shortest(names, 1), "a")
  {
    var names := ["Abc", "abd"];
    assert FoldAll(names[0])[2] == 'c' && FoldAll(names[1])[2] == 'd';
    assert Lcp("Abc", "abd") == 0 && Lcp("abd", "Abc") == 0;
    assert ShortestUpto(names, 0, 0) == 1 && ShortestUpto(names, 0, 1) == 1 && ShortestUpto(names, 0, 2) == 1;
    assert ShortestUpto(names, 1, 0) == 1 && ShortestUpto(names, 1, 1) == 1 && ShortestUpto(names, 1, 2) == 1;
    SelectsIff(names[0], 1, "a");
    SelectsIff(names[1], 1, "a");
    assert FoldAll("a") == ['a'];
    assert FoldAll("Abc") == ['a', 'b', 'c'] && FoldAll("abd") == ['a', 'b', 'd'];
  }

  /** The lengths are as short as can be: every shorter prefix is also a prefix of another sibling. */
  lemma ShortestIsLeast(names: seq<string>, i: nat, k: nat)
    requires i < |names| && k < Shortest(names, i) && k <= |names[i]| && k >= 1
    ensures exists j :: 0 <= j < |names| && j != i && names[i][..k] <= names[j]
  {
    ShortestBounds(names, i, |names|);
    var j :| 0 <= j < |names| && j != i && Shortest(names, i) == 1 + Lcp(names[i], names[j]);
    var n := Lcp(names[i], names[j]);
    assert names[i][..k] == names[i][..n][..k] == names[j][..n][..k] == names[j][..k];
  }

  const MODE_ANY := -1
  const MODE_CONFIG := 1

  /** A sibling as the matching loop sees it. */
  datatype Sibling = Sibling(name: string, uniqueLen: nat, privilege: int, mode: int)

  /** Selected by the word, and not above the user's privilege. */
  predicate Matches(c: Sibling, word: string, privilege: int) {
    c.privilege <= privilege && Selects(c.name, c.uniqueLen, word)
  }

  predicate InMode(c: Sibling, mode: int) { c.mode == mode || c.mode == MODE_ANY }

  /** Matched from a submode of the configuration mode, to which the command line would have to go back. */
  predicate FallsBack(c: Sibling, mode: int) { mode > MODE_CONFIG && c.mode == MODE_CONFIG }

  /** A command above the user's privilege is never matched, whatever the word; a command of any mode is in every
      mode, and another only in its own; and only a submode falls back, to the configuration mode. */
  lemma ReachIs(c: Sibling, word: string, privilege: int, mode: int)
    ensures c.privilege > privilege ==> !Matches(c, word, privilege)
    ensures c.privilege <= privilege ==> (Matches(c, word, privilege) <==> Selects(c.name, c.uniqueLen, word))
    ensures InMode(c, mode) <==> c.mode in {mode, -1}
    ensures FallsBack(c, mode) ==> !InMode(c, mode)
    ensures FallsBack(c, mode) <==> c.mode == 1 && mode >= 2
  {
  }

  /** The matching loop of gw_cli_find_command: the first matching sibling of the mode; failing that, in a submode,
      the last matching one of the configuration mode, with the mode left for it. */
  method FindMatch(cs: seq<Sibling>, word: string, privilege: int, mode: int) returns (found: int, newMode: int)
    ensures -1 <= found < |cs|
    ensures found >= 0 ==> Matches(cs[found], word, privilege) && InMode(cs[found], newMode)
    ensures newMode == mode || (newMode == MODE_CONFIG && found >= 0 && FallsBack(cs[found], mode))
    ensures found >= 0 && InMode(cs[found], mode) ==>
              && newMode == mode
              && forall k :: 0 <= k < found ==> !(Matches(cs[k], word, privilege) && InMode(cs[k], mode))
    ensures found < 0 || !InMode(cs[found], mode) ==>
              forall k :: 0 <= k < |cs| ==> !(Matches(cs[k], word, privilege) && InMode(cs[k], mode))
    ensures found < 0 || !InMode(cs[found], mode) ==>
              forall k :: found < k < |cs| && k >= 0 ==> !(Matches(cs[k], word, privilege) && FallsBack(cs[k], mode))
  {
    var again := -1;
    for i := 0 to |cs|
      invariant -1 <= again < i
      invariant again >= 0 ==> Matches(cs[again], word, privilege) && FallsBack(cs[again], mode)
      invariant forall k :: 0 <= k < i ==> !(Matches(cs[k], word, privilege) && InMode(cs[k], mode))
      invariant forall k :: again < k < i && k >= 0 ==> !(Matches(cs[k], word, privilege) && FallsBack(cs[k], mode))
    {
      if privilege < cs[i].privilege {
        continue;
      }
      if !SameUpto(cs[i].name, word, cs[i].uniqueLen) {
        continue;
      }
      if !SameUpto(cs[i].name, word, |word|) {
        continue;
      }
      if cs[i].mode == mode || cs[i].mode == MODE_ANY {
        return i, mode;
      } else if mode > MODE_CONFIG && cs[i].mode == MODE_CONFIG {
        again := i;
      }
    }
    if again >= 0 {
      return again, MODE_CONFIG;
    }
    return -1, mode;
  }

  // ---- the command tree ----

  class Command {
    const name: string
    const children: seq<Command>
    var uniqueLen: nat
    ghost const height: nat
    ghost const family: set<Command>  // this command and all below it

    /** A command over its children, whose heights are below h. */
    constructor (name: string, children: seq<Command>, ghost h: nat)
      requires Siblings(children, h)
      ensures this.name == name && this.children == children && height == h
      ensures family == {this} + Families(children) && Tree()
    {
      this.name, this.children, uniqueLen := name, children, 0;
      height, family := h, {this} + Families(children);
    }

    ghost predicate Tree()
      decreases height
    {
      && this in family
      && (forall i :: 0 <= i < |children| ==>
            children[i].height < height && this !in children[i].family && children[i].family <= family)
      && Siblings(children, height)
    }
  }

  /** The commands head disjoint trees of bounded height. */
  ghost predicate Siblings(cs: seq<Command>, h: nat)
    decreases h, 0
  {
    && (forall i :: 0 <= i < |cs| ==> cs[i].height < h && cs[i].Tree())
    && Apart(cs)
  }

  ghost predicate Apart(cs: seq<Command>) {
    forall i, j :: 0 <= i < j < |cs| ==> cs[i].family !! cs[j].family
  }

  ghost function Families(cs: seq<Command>): set<Command> {
    set i, d | 0 <= i < |cs| && d in cs[i].family :: d
  }

  function Names(cs: seq<Command>): seq<string> {
    seq(|cs|, i requires 0 <= i < |cs| => cs[i].name)
  }

  lemma Below(cs: seq<Command>, h: nat, i: nat)
    requires Siblings(cs, h) && i < |cs|
    ensures var c := cs[i];
            && c in c.family && c.family <= Families(cs) && Siblings(c.children, c.height)
            && Families(c.children) <= c.family - {c}
  {
    var c := cs[i];
    assert c.Tree();
    forall d | d in Families(c.children) ensures d in c.family - {c} {
      var k :| 0 <= k < |c.children| && d in c.children[k].family;
    }
  }

  /** Every command below has the shortest unique length among its siblings. */
  ghost predicate Built(cs: seq<Command>, h: nat)
    requires Siblings(cs, h)
    reads Families(cs)
    decreases h
  {
    forall i :: 0 <= i < |cs| ==> BuiltAt(cs, h, i, Shortest(Names(cs), i))
  }

  /** The same of one sibling and all below it. */
  ghost predicate BuiltAt(cs: seq<Command>, h: nat, i: nat, len: nat)
    requires Siblings(cs, h) && i < |cs|
    reads cs[i].family
    decreases h, 0
  {
    Below(cs, h, i);
    cs[i].uniqueLen == len && Built(cs[i].children, cs[i].height)
  }

  /** The pointer walk over two names. */
  method CompareLen(c: string, p: string) returns (len: nat)
    ensures len == 1 + Lcp(c, p)
  {
    var k := 0;
    len := 1;
    while k < |c| && k < |p| && c[k] == p[k]
      invariant k <= |c| && k <= |p| && len == 1 + k && c[..k] == p[..k]
    {
      k, len := k + 1, len + 1;
    }
    CommonPrefix(c, p, c[..k]);
  }

  /** The inner loop: one command against all its siblings. */
  method BuildOne(cs: seq<Command>, i: nat)
    requires i < |cs|
    modifies cs[i]
    ensures cs[i].uniqueLen == Shortest(Names(cs), i)
  {
    var c := cs[i];
    ghost var names := Names(cs);
    assert names[i] == c.name;
    c.uniqueLen := 1;
    for j := 0 to |cs|
      invariant c.uniqueLen == ShortestUpto(names, i, j)
    {
      if j != i {
        assert names[j] == cs[j].name;
        var len := CompareLen(c.name, cs[j].name);
        if len > c.uniqueLen {
          c.uniqueLen := len;
        }
      }
    }
  }

  /** gw_cli_build_shortest: each sibling in turn, and the tree below it. */
  method BuildShortest(cs: seq<Command>, ghost h: nat)
    requires Siblings(cs, h)
    modifies Families(cs)
    ensures Built(cs, h)
    decreases h, 1
  {
    for i := 0 to |cs|
      invariant forall k :: 0 <= k < i ==> BuiltAt(cs, h, k, Shortest(Names(cs), k))
    {
      Below(cs, h, i);
      BuildSubtree(cs, h, i);
    }
  }

  method BuildSubtree(cs: seq<Command>, ghost h: nat, i: nat)
    requires Siblings(cs, h) && i < |cs|
    modifies cs[i].family
    ensures BuiltAt(cs, h, i, Shortest(Names(cs), i))
    decreases h, 0
  {
    Below(cs, h, i);
    BuildOne(cs, i);
    BuildShortest(cs[i].children, cs[i].height);
  }

  lemma FamiliesMore(cs: seq<Command>, c: Command)
    ensures Families(cs + [c]) == Families(cs) + c.family
    ensures forall i :: 0 <= i < |cs| ==> cs[i].family <= Families(cs)
  {
    var all := cs + [c];
    forall d
      ensures d in Families(all) <==> d in Families(cs) || d in c.family
    {
      if d in Families(all) {
        var i :| 0 <= i < |all| && d in all[i].family;
        assert i < |cs| ==> all[i] == cs[i];
      }
      if d in Families(cs) {
        var i :| 0 <= i < |cs| && d in cs[i].family;
        assert d in all[i].family;
      }
      if d in c.family {
        assert d in all[|cs|].family;
      }
    }
  }

  lemma ApartMore(cs: seq<Command>, c: Command)
    requires Apart(cs) && c.family !! Families(cs)
    ensures Apart(cs + [c])
  {
    var all := cs + [c];
    forall i, j | 0 <= i < j < |all|
      ensures all[i].family !! all[j].family
    {
      assert all[i] == cs[i] && cs[i].family <= Families(cs);
      assert if j < |cs| then all[j] == cs[j] else all[j] == c;
    }
  }

  lemma AddSibling(cs: seq<Command>, h: nat, c: Command)
    requires Siblings(cs, h) && c.Tree() && c.height < h && c.family !! Families(cs)
    ensures Siblings(cs + [c], h)
  {
    ApartMore(cs, c);
    forall i | 0 <= i < |cs + [c]|
      ensures (cs + [c])[i].height < h && (cs + [c])[i].Tree()
    {
      assert if i < |cs| then (cs + [c])[i] == cs[i] else (cs + [c])[i] == c;
    }
  }

  /** gw_cli_register_command at the root: the new command goes behind the others, and all are rebuilt. */
  method RegisterRoot(cs: seq<Command>, ghost h: nat, name: string, children: seq<Command>, ghost below: nat)
    returns (c: Command)
    requires Siblings(cs, h) && Siblings(children, below) && below < h && Families(cs) !! Families(children)
    modifies Families(cs), Families(children)
    ensures fresh(c) && c.name == name && c.children == children && c.family == {c} + Families(children)
    ensures Siblings(cs + [c], h) && Families(cs + [c]) == Families(cs) + c.family && Built(cs + [c], h)
  {
    c := new Command(name, children, below);
    FamiliesMore(cs, c);
    AddSibling(cs, h, c);
    BuildShortest(cs + [c], h);
  }

  lemma NamesMore(cs: seq<Command>, c: Command, names: seq<string>, k: nat)
    requires k < |names| && Names(cs) == names[..k] && c.name == names[k]
    ensures Names(cs + [c]) == names[..k + 1]
  {
    assert names[..k + 1] == names[..k] + [names[k]];
    assert Names(cs + [c]) == Names(cs) + [c.name];
  }

  /** Root commands registered one after another end up with their shortest unique lengths. */
  method RegisterAll(names: seq<string>) returns (cs: seq<Command>)
    ensures Names(cs) == names
    ensures forall i :: 0 <= i < |names| ==> cs[i].uniqueLen == Shortest(names, i)
  {
    cs := [];
    for k := 0 to |names|
      invariant |cs| == k && Siblings(cs, 1) && fresh(Families(cs)) && Built(cs, 1)
      invariant Names(cs) == names[..k]
    {
      assert Families([]) == {};
      var c := RegisterRoot(cs, 1, names[k], [], 0);
      NamesMore(cs, c, names, k);
      cs := cs + [c];
    }
    assert names[..|names|] == names;
    assert forall i :: 0 <= i < |cs| ==> BuiltAt(cs, 1, i, Shortest(Names(cs), i));
  }
}
