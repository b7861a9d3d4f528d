/** The line editor inside gw_cli_loop (cli_lib/cli_parser.c): a 256-byte buffer, a length and a cursor,
    against a text cut in two at the cursor.
    The keys move bytes in place, one position at a time, and some of them read one byte behind the buffer.
    Echo, history, completion and login are left out. */
module CliEditor {

  const MAX_LINE_LENTH := 256
  const NUL := '\0'
  const LAST := MAX_LINE_LENTH - 1

  // ---- the abstract text ----

  datatype Zipper = Zipper(left: seq<char>, right: seq<char>)
  {
    function Text(): seq<char> { left + right }
  }

  datatype Key = Type(c: char) | Backspace | DeleteWord | KillToEnd | ClearLine | Left | Right | Home | End

  function StripSpaces(s: seq<char>): seq<char> {
    if s != [] && s[|s| - 1] == ' ' then StripSpaces(s[..|s| - 1]) else s
  }

  function StripWord(s: seq<char>): seq<char> {
    if s != [] && s[|s| - 1] != ' ' then StripWord(s[..|s| - 1]) else s
  }

  function Apply(z: Zipper, k: Key): Zipper {
    match k
    case Type(c) => if |z.Text()| < LAST then Zipper(z.left + [c], z.right) else z
    case Backspace => if z.left == [] then z else z.(left := z.left[..|z.left| - 1])
    case DeleteWord => z.(left := StripWord(StripSpaces(z.left)))
    case KillToEnd => z.(right := [])
    case ClearLine => Zipper([], [])
    case Left => if z.left == [] then z else Zipper(z.left[..|z.left| - 1], [z.left[|z.left| - 1]] + z.right)
    case Right => if z.right == [] then z else Zipper(z.left + [z.right[0]], z.right[1..])
    case Home => Zipper([], z.Text())
    case End => Zipper(z.Text(), [])
  }

  /** A character typed inside a line of 254 or 255 characters. */
  predicate Crowds(z: Zipper, k: Key) { k.Type? && z.right != [] && |z.Text()| >= LAST - 1 }

  /** What the keys do to any line, full or not: a character typed inside a line of 254 or 255 characters pushes the
      last one out. */
  function Does(z: Zipper, k: Key): Zipper {
    if Crowds(z, k) then Zipper(z.left + [k.c], z.right[..|z.right| - 1]) else Apply(z, k)
  }

  function DoesAll(z: Zipper, ks: seq<Key>): Zipper {
    if ks == [] then z else Does(DoesAll(z, ks[..|ks| - 1]), ks[|ks| - 1])
  }

  lemma DoesIff(z: Zipper, k: Key)
    requires |z.Text()| <= LAST
    ensures Does(z, k) == Apply(z, k) <==> !(k.Type? && z.right != [] && |z.Text()| >= 254)
  {
    if Crowds(z, k) {
      assert |Does(z, k).left| == |z.left| + 1;
    }
  }

  function ApplyAll(z: Zipper, ks: seq<Key>): Zipper {
    if ks == [] then z else Apply(ApplyAll(z, ks[..|ks| - 1]), ks[|ks| - 1])
  }

  /** What the buffer can take: inserting inside the line while it holds at most 253 characters, deleting
      inside it while it holds at most 254 or the byte behind the buffer happens to be zero. */
  predicate Safe(z: Zipper, k: Key, beyond: char) {
    match k
    case Type(c) => c != NUL && (z.right == [] || |z.Text()| <= LAST - 2)
    case Backspace => z.left == [] || z.right == [] || |z.Text()| < LAST || beyond == NUL
    case DeleteWord => z.left == [] || z.right == [] || |z.Text()| < LAST || beyond == NUL
    case _ => true
  }

  predicate AllSafe(z: Zipper, ks: seq<Key>, beyond: char) {
    ks == [] || (AllSafe(z, ks[..|ks| - 1], beyond) && Safe(ApplyAll(z, ks[..|ks| - 1]), ks[|ks| - 1], beyond))
  }

  lemma {:induction false} StripSpacesPrefix(s: seq<char>)
    ensures StripSpaces(s) <= s
    ensures forall i :: |StripSpaces(s)| <= i < |s| ==> s[i] == ' '
    ensures StripSpaces(s) != [] ==> StripSpaces(s)[|StripSpaces(s)| - 1] != ' '
  {
    if s != [] && s[|s| - 1] == ' ' {
      StripSpacesPrefix(s[..|s| - 1]);
    }
  }

  lemma {:induction false} StripWordPrefix(s: seq<char>)
    ensures StripWord(s) <= s
    ensures forall i :: |StripWord(s)| <= i < |s| ==> s[i] != ' '
    ensures StripWord(s) != [] ==> StripWord(s)[|StripWord(s)| - 1] == ' '
  {
    if s != [] && s[|s| - 1] != ' ' {
      StripWordPrefix(s[..|s| - 1]);
    }
  }

  /** Deleting a word takes exactly the last word before the cursor and the spaces behind it: what is left
      is empty or ends in a space, and what goes is one word without spaces followed by spaces only. */
  lemma DeleteWordTakesOneWord(z: Zipper)
    ensures var kept, m := Apply(z, DeleteWord).left, |StripSpaces(z.left)|;
            && kept <= z.left && |kept| <= m <= |z.left| && Apply(z, DeleteWord).right == z.right
            && (kept != [] ==> kept[|kept| - 1] == ' ')
            && (forall i :: |kept| <= i < m ==> z.left[i] != ' ')
            && (forall i :: m <= i < |z.left| ==> z.left[i] == ' ')
            && (kept == z.left ==> z.left == [])
  {
    StripSpacesPrefix(z.left);
    StripWordPrefix(StripSpaces(z.left));
  }

  /** Cursor moves never change the text, and each move is undone by its opposite. */
  lemma MovesKeepText(z: Zipper, k: Key)
    requires k.Left? || k.Right? || k.Home? || k.End?
    ensures Apply(z, k).Text() == z.Text()
    ensures z.left != [] ==> Apply(Apply(z, Left), Right) == z
    ensures z.right != [] ==> Apply(Apply(z, Right), Left) == z
  {
    if z.left != [] {
      assert z.left[..|z.left| - 1] + [z.left[|z.left| - 1]] == z.left;
    }
    if z.right != [] {
      assert [z.right[0]] + z.right[1..] == z.right;
    }
  }

  /** What the two clearing keys keep: Ctrl-K the text before the cursor and the cursor, Ctrl-U nothing. */
  lemma ClearingKeys(z: Zipper)
    ensures Apply(z, KillToEnd).Text() == z.left && Apply(z, KillToEnd).left == z.left
    ensures Apply(z, ClearLine).Text() == [] && Apply(z, ClearLine).left == []
  {
  }

  /** A character that fits goes before the cursor, which stays behind it, and backspace takes it away again; backspace
      takes the last character before the cursor and nothing else. */
  lemma TypedIs(z: Zipper, c: char)
    ensures |z.Text()| < LAST ==>
              && Apply(z, Type(c)).Text() == z.left + [c] + z.right && Apply(z, Type(c)).right == z.right
              && Apply(Apply(z, Type(c)), Backspace) == z
    ensures |z.Text()| >= LAST ==> Apply(z, Type(c)) == z
    ensures z.left != [] ==>
              Apply(z, Backspace).left + [z.left[|z.left| - 1]] == z.left && Apply(z, Backspace).right == z.right
    ensures z.left == [] ==> Apply(z, Backspace) == z
  {
  }

  /** What a character typed inside a full line does: it takes its place before the cursor, and the last one is gone. */
  lemma CrowdedIs(z: Zipper, c: char)
    requires Crowds(z, Type(c))
    ensures Does(z, Type(c)).left == z.left + [c]
    ensures Does(z, Type(c)).right + [z.right[|z.right| - 1]] == z.right
    ensures |Does(z, Type(c)).Text()| == |z.Text()|
  {
  }

  // ---- the buffer ----

  /** Moves the bytes at from..upto one place to the right. */
  method ShiftRight(a: array<char>, from: nat, upto: nat)
    requires from <= upto < a.Length - 1
    modifies a
    ensures forall j :: 0 <= j < a.Length ==> a[j] == if from < j <= upto + 1 then old(a[j - 1]) else old(a[j])
  {
    var i: int := upto;
    while i >= from
      invariant from - 1 <= i <= upto
      invariant forall j :: 0 <= j < a.Length ==> a[j] == if i + 1 < j <= upto + 1 then old(a[j - 1]) else old(a[j])
    {
      a[i + 1] := a[i];
      i := i - 1;
    }
  }

  /** Overwrites the bytes at from..upto with their right neighbours; the last byte of the buffer has the
      byte beyond it for a neighbour. */
  method ShiftLeft(a: array<char>, from: nat, upto: nat, beyond: char)
    requires from <= upto < a.Length
    modifies a
    ensures forall j :: 0 <= j < a.Length ==>
              a[j] == if !(from <= j <= upto) then old(a[j]) else if j + 1 < a.Length then old(a[j + 1]) else beyond
  {
    for i := from to upto + 1
      invariant forall j :: 0 <= j < a.Length ==>
                  a[j] == if !(from <= j < i) then old(a[j]) else if j + 1 < a.Length then old(a[j + 1]) else beyond
    {
      a[i] := if i + 1 < a.Length then a[i + 1] else beyond;
    }
  }

  /** memset to zero. */
  method Zero(a: array<char>, from: nat, upto: nat)
    requires from <= upto <= a.Length
    modifies a
    ensures forall j :: 0 <= j < a.Length ==> a[j] == if from <= j < upto then NUL else old(a[j])
  {
    forall j | from <= j < upto {
      a[j] := NUL;
    }
  }

  /** A line cut at the cursor, and what the cursor keys make of the cut. */
  function Cut(line: seq<char>, i: nat): Zipper
    requires i <= |line|
  {
    Zipper(line[..i], line[i..])
  }

  lemma CutMoves(line: seq<char>, i: nat)
    requires i <= |line|
    ensures Apply(Cut(line, i), Left) == Cut(line, if i > 0 then i - 1 else i)
    ensures Apply(Cut(line, i), Right) == Cut(line, if i < |line| then i + 1 else i)
    ensures Apply(Cut(line, i), Home) == Cut(line, 0) && Apply(Cut(line, i), End) == Cut(line, |line|)
  {
    assert line[..i] + line[i..] == line;
    if i > 0 {
      assert line[..i][..i - 1] == line[..i - 1] && [line[i - 1]] + line[i..] == line[i - 1..];
    }
    if i < |line| {
      assert line[..i] + [line[i]] == line[..i + 1] && line[i..][1..] == line[i + 1..];
    }
  }

  class LineEditor {
    const cmd: array<char>
    var l: nat
    var cursor: nat

    /** The line is a C string of length l: no NUL before l, nothing but NUL from l on. */
    ghost predicate Valid()
      reads this, cmd
    {
      && cmd.Length == MAX_LINE_LENTH && cursor <= l <= LAST
      && (forall i :: 0 <= i < l ==> cmd[i] != NUL)
      && (forall i :: l <= i < MAX_LINE_LENTH ==> cmd[i] == NUL)
    }

    /** Length and cursor within the buffer, whatever its bytes. */
    ghost predicate Bounded()
      reads this, cmd
    {
      cmd.Length == MAX_LINE_LENTH && cursor <= l <= LAST
    }

    ghost function View(): Zipper
      requires Bounded()
      reads this, cmd
    {
      Zipper(cmd[..cursor], cmd[cursor..l])
    }

    constructor ()
      ensures Valid() && fresh(cmd) && View() == Zipper([], [])
    {
      cmd := new char[MAX_LINE_LENTH](_ => NUL);
      l, cursor := 0, 0;
    }

    /** The bytes from the cursor up to `upto` move on by one, and c takes the cursor's place. */
    method InsertByte(c: char, upto: nat)
      requires cmd.Length == MAX_LINE_LENTH && cursor <= upto < LAST
      modifies cmd
      ensures cmd[..cursor + 1] == old(cmd[..cursor]) + [c]
      ensures cmd[cursor + 1..upto + 2] == old(cmd[cursor..upto + 1])
      ensures forall j :: 0 <= j < MAX_LINE_LENTH ==>
                cmd[j] == if cursor < j <= upto + 1 then old(cmd[j - 1]) else if j == cursor then c else old(cmd[j])
    {
      ShiftRight(cmd, cursor, upto);
      cmd[cursor] := c;
    }

    /** A character typed inside the line.  A C string remains one exactly when the line holds at most 253
        characters; then it is the abstract insertion. */
    method InsertInside(c: char)
      requires Bounded() && c != NUL && cursor < l
      modifies this, cmd
      ensures Bounded() && View() == Does(old(View()), Type(c))
      ensures old(Valid()) ==> (Valid() <==> old(l) <= LAST - 2)
    {
      ghost var z := View();
      if l >= MAX_LINE_LENTH - 2 {
        l := l - 1;
      }
      InsertByte(c, l);
      assert z.right[..l - cursor] == old(cmd[..])[cursor..l];
      l := l + 1;
      cursor := cursor + 1;
      assert old(Valid() && l > LAST - 2) ==> cmd[l] == old(cmd[l - 1]);
    }

    /** A normal character. */
    method TypeChar(c: char)
      requires Bounded() && c != NUL
      modifies this, cmd
      ensures Bounded() && View() == Does(old(View()), Type(c))
      ensures old(Valid()) ==> (Valid() <==> Safe(old(View()), Type(c), NUL))
    {
      if cursor == l {
        cmd[cursor] := c;
        if l < LAST {
          l, cursor := l + 1, cursor + 1;
        } else {
          cmd[LAST] := NUL;
        }
      } else {
        InsertInside(c);
      }
    }

    /** One turn of the deletion loop.  `beyond` is the byte that follows the buffer, which the shift reads
        when the line is full. */
    method DeleteBefore(beyond: char)
      requires Bounded() && cursor > 0
      modifies this, cmd
      ensures Bounded() && l == old(l) - 1 && cursor == old(cursor) - 1
      ensures View() == Apply(old(View()), Backspace)
      ensures old(Valid()) ==> (Valid() <==> old(cursor == l || l < LAST) || beyond == NUL)
      ensures old(cursor < l) ==> cmd[LAST] == if old(l) == LAST then beyond else old(cmd[LAST])
    {
      if l == cursor {
        cursor := cursor - 1;
        cmd[cursor] := NUL;
      } else {
        cursor := cursor - 1;
        ShiftLeft(cmd, cursor, l, beyond);
        assert l == LAST ==> cmd[LAST] == beyond;
      }
      l := l - 1;
    }

    /** Ctrl-H. */
    method BackspaceKey(beyond: char)
      requires Bounded()
      modifies this, cmd
      ensures Bounded() && View() == Does(old(View()), Backspace)
      ensures old(Valid()) ==> (Valid() <==> Safe(old(View()), Backspace, beyond))
    {
      if l == 0 || cursor == 0 {
        return;
      }
      DeleteBefore(beyond);
    }

    /** How many characters Ctrl-W takes: the spaces before the cursor and the word before them. */
    method WordBefore() returns (back: nat)
      requires Bounded()
      ensures back <= cursor && (back == 0 <==> cursor == 0)
      ensures View().left[..cursor - back] == StripWord(StripSpaces(View().left))
    {
      var nc := cursor;
      back := 0;
      ghost var left := View().left;
      assert left[..nc] == left;
      while nc > 0 && cmd[nc - 1] == ' '
        invariant nc + back == cursor && StripSpaces(left[..nc]) == StripSpaces(left)
      {
        assert left[..nc][..nc - 1] == left[..nc - 1];
        nc, back := nc - 1, back + 1;
      }
      assert back == 0 && cursor > 0 ==> cmd[nc - 1] != ' ';
      while nc > 0 && cmd[nc - 1] != ' '
        invariant nc + back == cursor && StripWord(left[..nc]) == StripWord(StripSpaces(left))
        invariant back == 0 && cursor > 0 ==> cmd[nc - 1] != ' '
      {
        assert left[..nc][..nc - 1] == left[..nc - 1];
        nc, back := nc - 1, back + 1;
      }
    }

    /** Ctrl-W. */
    method DeleteWordKey(beyond: char)
      requires Bounded()
      modifies this, cmd
      ensures Bounded() && View() == Does(old(View()), DeleteWord)
      ensures old(Valid()) ==> (Valid() <==> Safe(old(View()), DeleteWord, beyond))
    {
      if l == 0 || cursor == 0 {
        return;
      }
      var back := WordBefore();
      DeleteMany(back, beyond);
    }

    method DeleteMany(back: nat, beyond: char)
      requires Bounded() && 0 < back <= cursor
      modifies this, cmd
      ensures Bounded() && View() == old(Zipper(View().left[..cursor - back], View().right))
      ensures old(Valid()) ==> (Valid() <==> Safe(old(View()), Backspace, beyond))
    {
      ghost var safe := Safe(View(), Backspace, beyond);
      var i := 0;
      while i < back
        invariant i <= back && Bounded() && cursor == old(cursor) - i && l == old(l) - i
        invariant View() == old(View()).(left := old(View()).left[..cursor])
        invariant old(Valid()) && (safe || i == 0) ==> Valid()
        invariant !safe && i > 0 ==> cmd[LAST] == beyond
      {
        DeleteBefore(beyond);
        i := i + 1;
      }
    }

    /** Ctrl-K. */
    method KillToEndKey()
      requires Bounded()
      modifies this, cmd
      ensures Bounded() && View() == Does(old(View()), KillToEnd) && (old(Valid()) ==> Valid())
    {
      if cursor == l {
        return;
      }
      Zero(cmd, cursor, l);
      l := cursor;
    }

    /** Ctrl-U. */
    method ClearLineKey()
      requires Bounded()
      modifies this, cmd
      ensures Bounded() && View() == Does(old(View()), ClearLine) && (old(Valid()) ==> Valid())
    {
      Zero(cmd, 0, l);
      l, cursor := 0, 0;
    }

    /** Ctrl-B, Ctrl-F, Ctrl-A and Ctrl-E. */
    method MoveKey(k: Key)
      requires Bounded() && (k.Left? || k.Right? || k.Home? || k.End?)
      modifies this`cursor
      ensures Bounded() && View() == Does(old(View()), k) && (old(Valid()) ==> Valid())
    {
      CutMoves(cmd[..l], cursor);
      assert forall i :: 0 <= i <= l ==> cmd[..i] == cmd[..l][..i] && cmd[i..l] == cmd[..l][i..];
      match k {
        case Left => if cursor > 0 { cursor := cursor - 1; }
        case Right => if cursor < l { cursor := cursor + 1; }
        case Home => cursor := 0;
        case End => cursor := l;
      }
    }

    /** One key. */
    method Press(k: Key, beyond: char)
      requires Bounded() && k != Type(NUL)
      modifies this, cmd
      ensures Bounded() && View() == Does(old(View()), k)
      ensures old(Valid()) ==> (Valid() <==> Safe(old(View()), k, beyond))
    {
      match k {
        case Type(c) => TypeChar(c);
        case Backspace => BackspaceKey(beyond);
        case DeleteWord => DeleteWordKey(beyond);
        case KillToEnd => KillToEndKey();
        case ClearLine => ClearLineKey();
        case _ => MoveKey(k);
      }
    }

    /** The editing part of gw_cli_loop.  Whatever keys are typed, length and cursor stay within the buffer and the
        bytes up to the length are the text the keys make.  If all are safe, that is the abstract text, and the
        buffer stays a C string of that length. */
    method Edit(keys: seq<Key>, beyond: char)
      requires Bounded() && Type(NUL) !in keys
      modifies this, cmd
      ensures Bounded() && View() == DoesAll(old(View()), keys)
      ensures old(Valid() && AllSafe(View(), keys, beyond)) ==> Valid() && View() == ApplyAll(old(View()), keys)
    {
      ghost var z := View();
      ghost var safe := Valid() && AllSafe(z, keys, beyond);
      var i := 0;
      while i < |keys|
        invariant i <= |keys| && Bounded() && View() == DoesAll(z, keys[..i])
        invariant safe ==> Valid() && View() == ApplyAll(z, keys[..i])
      {
        assert keys[..i + 1][..i] == keys[..i];
        if safe {
          SafeAt(z, keys, beyond, i);
          SafeDoes(View(), keys[i], beyond);
        }
        Press(keys[i], beyond);
        i := i + 1;
      }
      assert keys[..|keys|] == keys;
    }
  }

  /** A safe key that leaves a line of at most 255 characters crowds nothing out. */
  lemma SafeDoes(z: Zipper, k: Key, beyond: char)
    requires Safe(z, k, beyond)
    ensures Does(z, k) == Apply(z, k)
  {
  }

  lemma {:induction false} SafeAt(z: Zipper, ks: seq<Key>, beyond: char, i: nat)
    requires AllSafe(z, ks, beyond) && i < |ks|
    ensures Safe(ApplyAll(z, ks[..i]), ks[i], beyond)
  {
    var init := ks[..|ks| - 1];
    if i < |ks| - 1 {
      SafeAt(z, init, beyond, i);
      assert init[..i] == ks[..i];
    }
  }
}
