/** Splitting a command line into words and joining words again: gw_cli_parse_line and join_words
    (cli_lib/cli_parser.c).
    A word ends at a space outside quotes; a quote of either kind starts a word that only the same quote ends, and a
    bar where a word would start is a word of its own. */
module CliTokens {
  import opened Common

  const MAX_WORDS_LEN := 192
  const MAX_WORDS_NUM := 32

  predicate IsSpace(c: char) {
    c == ' ' || c == '\t' || c == '\n' || c == '\r' || c == 11 as char || c == 12 as char
  }

  /** isspace: the blank and the five codes from the tabulator to the carriage return. */
  lemma SpaceIs(c: char)
    ensures IsSpace(c) <==> c == ' ' || 9 <= c as int <= 13
  {
  }

  predicate IsQuote(c: char) { c == '"' || c == '\'' }

  function Prepend(a: seq<string>, r: Option<seq<string>>): Option<seq<string>> {
    if r.None? then None else Some(a + r.value)
  }

  /** What the loop of gw_cli_parse_line still adds, given the unread input, the word that is open (from
      word_start to the read position), the quote it is inside, and the room left; None when a word is too
      long and the whole line is refused. */
  function Scan(s: string, word: Option<string>, quote: Option<char>, room: nat): Option<seq<string>>
    decreases 2 * |s| + if word.Some? then 1 else 0
  {
    if room == 0 then Some([])
    else if s == [] || quote == Some(s[0]) || (word.Some? && quote.None? && IsSpace(s[0])) then
      if word.Some? && |word.value| >= MAX_WORDS_LEN then None
      else
        var done := if word.Some? then [word.value] else [];
        if s == [] then Some(done)
        else Prepend(done, Scan(if quote.Some? then s[1..] else s, None, None, room - |done|))
    else if IsQuote(s[0]) then Scan(s[1..], Some(""), Some(s[0]), room)
    else if word.Some? then Scan(s[1..], Some(word.value + [s[0]]), quote, room)
    else if s[0] == '|' then Prepend(["|"], Scan(s[1..], None, quote, room - 1))
    else if !IsSpace(s[0]) then Scan(s[1..], Some([s[0]]), quote, room)
    else Scan(s[1..], None, quote, room)
  }

  function SkipSpaces(s: string): string {
    if s != [] && IsSpace(s[0]) then SkipSpaces(s[1..]) else s
  }

  /** The line as a whole: leading space is skipped and the first word is open from its first character. */
  function Parse(line: string): Option<seq<string>> {
    var s := SkipSpaces(line);
    Scan(s, if s == [] then None else Some(""), None, MAX_WORDS_NUM - 1)
  }

  ghost predicate Position(line: string, p: nat, start: Option<nat>) {
    p <= |line| && (start.Some? ==> start.value <= p)
  }

  /** The same with the read position and word_start as places in the line. */
  ghost function ScanAt(line: string, p: nat, start: Option<nat>, quote: Option<char>, room: nat): Option<seq<string>>
    requires Position(line, p, start)
  {
    Scan(line[p..], if start.Some? then Some(line[start.value..p]) else None, quote, room)
  }

  predicate Ends(line: string, p: nat, start: Option<nat>, quote: Option<char>)
    requires p <= |line|
  {
    p == |line| || quote == Some(line[p]) || (start.Some? && quote.None? && IsSpace(line[p]))
  }

  lemma EndTurn(line: string, p: nat, start: Option<nat>, quote: Option<char>, room: nat)
    requires Position(line, p, start) && room > 0 && Ends(line, p, start, quote)
    ensures var all := ScanAt(line, p, start, quote, room);
            if start.Some? && p - start.value >= MAX_WORDS_LEN then all == None
            else
              var done := if start.Some? then [line[start.value..p]] else [];
              if p == |line| then all == Some(done)
              else all == Prepend(done, ScanAt(line, if quote.Some? then p + 1 else p, None, None, room - |done|))
  {
    if p < |line| {
      assert line[p..][1..] == line[p + 1..];
    }
  }

  lemma MoveTurn(line: string, p: nat, start: Option<nat>, quote: Option<char>, room: nat)
    requires Position(line, p, start) && room > 0 && !Ends(line, p, start, quote)
    ensures var all, c := ScanAt(line, p, start, quote, room), line[p];
            if IsQuote(c) then all == ScanAt(line, p + 1, Some(p + 1), Some(c), room)
            else if start.Some? then all == ScanAt(line, p + 1, start, quote, room)
            else if c == '|' then all == Prepend(["|"], ScanAt(line, p + 1, None, quote, room - 1))
            else all == ScanAt(line, p + 1, if IsSpace(c) then None else Some(p), quote, room)
  {
    assert line[p..][1..] == line[p + 1..];
    assert line[p + 1..p + 1] == "" && line[p..p + 1] == [line[p]];
    assert start.Some? ==> line[start.value..p + 1] == line[start.value..p] + [line[p]];
  }

  lemma PrependTwice(a: seq<string>, b: seq<string>, r: Option<seq<string>>)
    ensures Prepend(a, Prepend(b, r)) == Prepend(a + b, r)
    ensures Prepend([], r) == r
  {
    if r.Some? {
      assert a + (b + r.value) == (a + b) + r.value;
      assert [] + r.value == r.value;
    }
  }

  /** The first loop of gw_cli_parse_line: past the leading space. */
  method FirstWord(line: string) returns (p: nat, wordStart: Option<nat>)
    ensures p <= |line| && wordStart == (if p == |line| then None else Some(p))
    ensures Parse(line) == ScanAt(line, p, wordStart, None, MAX_WORDS_NUM - 1)
  {
    p, wordStart := 0, None;
    while p < |line|
      invariant 0 <= p <= |line| && wordStart.None?
      invariant SkipSpaces(line[p..]) == SkipSpaces(line)
    {
      if !IsSpace(line[p]) {
        wordStart := Some(p);
        break;
      }
      p := p + 1;
    }
    assert line[p..p] == "" && SkipSpaces(line) == line[p..];
  }

  /** gw_cli_parse_line.  A refused line gives no words, as an empty one does. */
  method ParseLine(line: string) returns (words: seq<string>)
    ensures words == if Parse(line).Some? then Parse(line).value else []
  {
    words := [];
    var p, wordStart := FirstWord(line);
    var inquote: Option<char> := None;
    ghost var all := Parse(line);
    PrependTwice([], [], all);
    while |words| < MAX_WORDS_NUM - 1
      invariant Position(line, p, wordStart) && |words| <= MAX_WORDS_NUM - 1
      invariant all == Prepend(words, ScanAt(line, p, wordStart, inquote, MAX_WORDS_NUM - 1 - |words|))
      decreases 2 * (|line| - p) + if wordStart.Some? then 1 else 0
    {
      ghost var before, room := words, MAX_WORDS_NUM - 1 - |words|;
      if p == |line| || inquote == Some(line[p]) || (wordStart.Some? && inquote.None? && IsSpace(line[p])) {
        EndTurn(line, p, wordStart, inquote, room);
        if wordStart.Some? {
          var len := p - wordStart.value;
          if len >= MAX_WORDS_LEN || |words| >= MAX_WORDS_NUM {
            return [];
          }
          words := words + [line[wordStart.value..p]];
        }
        if p == |line| {
          break;
        }
        ghost var done := if wordStart.Some? then [line[wordStart.value..p]] else [];
        if inquote.Some? {
          p := p + 1;
        }
        inquote, wordStart := None, None;
        PrependTwice(before, done, ScanAt(line, p, None, None, room - |done|));
      } else {
        MoveTurn(line, p, wordStart, inquote, room);
        if IsQuote(line[p]) {
          inquote := Some(line[p]);
          p := p + 1;
          wordStart := Some(p);
        } else {
          if wordStart.None? {
            if line[p] == '|' {
              words := words + ["|"];
              PrependTwice(before, ["|"], ScanAt(line, p + 1, None, inquote, room - 1));
            } else if !IsSpace(line[p]) {
              wordStart := Some(p);
            }
          }
          p := p + 1;
        }
      }
    }
  }

  // ---- what the words of an unquoted line are ----

  function TakeWord(s: string): string {
    if s == [] || IsSpace(s[0]) then [] else [s[0]] + TakeWord(s[1..])
  }

  function DropWord(s: string): (r: string)
    ensures |r| <= |s|
  {
    if s == [] || IsSpace(s[0]) then s else DropWord(s[1..])
  }

  /** The maximal runs without space; a bar at the start of a run is a word of its own. */
  function Fields(s: string): seq<string>
    decreases |s|
  {
    if s == [] then []
    else if IsSpace(s[0]) then Fields(s[1..])
    else if s[0] == '|' then ["|"] + Fields(s[1..])
    else [TakeWord(s)] + Fields(DropWord(s[1..]))
  }

  /** The fields of a line: its first word may start with a bar. */
  function LineFields(line: string): seq<string> {
    var s := SkipSpaces(line);
    if s == [] then [] else [TakeWord(s)] + Fields(DropWord(s[1..]))
  }

  /** At most `room` words, none of them too long. */
  function Limit(ws: seq<string>, room: nat): Option<seq<string>> {
    if ws == [] || room == 0 then Some([])
    else if |ws[0]| >= MAX_WORDS_LEN then None
    else Prepend([ws[0]], Limit(ws[1..], room - 1))
  }

  predicate NoQuotes(s: string) { forall c :: c in s ==> !IsQuote(c) }

  lemma {:induction false} ScanFields(s: string, word: Option<string>, room: nat)
    requires NoQuotes(s)
    ensures word.None? ==> Scan(s, None, None, room) == Limit(Fields(s), room)
    ensures word.Some? ==> Scan(s, word, None, room) == Limit([word.value + TakeWord(s)] + Fields(DropWord(s)), room)
    decreases |s|
  {
    if room == 0 {
    } else if s == [] {
      if word.Some? {
        assert word.value + TakeWord(s) == word.value;
        assert [word.value] + Fields(s) == [word.value];
        assert [word.value][1..] == [];
      }
    } else if word.Some? {
      var w := word.value;
      if IsSpace(s[0]) {
        assert w + TakeWord(s) == w && DropWord(s) == s;
        ScanFieldsNone(s, room - 1);
        assert ([w] + Fields(s))[1..] == Fields(s);
      } else {
        ScanFields(s[1..], Some(w + [s[0]]), room);
        assert w + TakeWord(s) == (w + [s[0]]) + TakeWord(s[1..]);
      }
    } else {
      ScanFieldsNone(s, room);
    }
  }

  lemma {:induction false} ScanFieldsNone(s: string, room: nat)
    requires NoQuotes(s)
    ensures Scan(s, None, None, room) == Limit(Fields(s), room)
    decreases |s|, 0
  {
    if s != [] && room > 0 {
      if IsSpace(s[0]) {
        ScanFieldsNone(s[1..], room);
      } else if s[0] == '|' {
        ScanFieldsNone(s[1..], room - 1);
        assert (["|"] + Fields(s[1..]))[1..] == Fields(s[1..]);
      } else {
        ScanFields(s[1..], Some([s[0]]), room);
      }
    }
  }

  lemma {:induction false} SkipKeeps(s: string)
    requires NoQuotes(s)
    ensures NoQuotes(SkipSpaces(s)) && (SkipSpaces(s) != [] ==> !IsSpace(SkipSpaces(s)[0]))
  {
    if s != [] && IsSpace(s[0]) {
      SkipKeeps(s[1..]);
    }
  }

  /** On every line without quotes the words are the first 31 fields, or none at all if one of these is too
      long for its buffer. */
  lemma ParseIsFields(line: string)
    requires NoQuotes(line)
    ensures Parse(line) == Limit(LineFields(line), MAX_WORDS_NUM - 1)
  {
    SkipKeeps(line);
    var s := SkipSpaces(line);
    if s != [] {
      ScanFields(s, Some(""), MAX_WORDS_NUM - 1);
      assert "" + TakeWord(s) == TakeWord(s);
    }
  }

  // ---- joining ----

  function Join(ws: seq<string>): string {
    if ws == [] then "" else if |ws| == 1 then ws[0] else Join(ws[..|ws| - 1]) + " " + ws[|ws| - 1]
  }

  /** join_words. */
  method JoinWords(words: seq<string>) returns (line: string)
    ensures line == Join(words)
  {
    line := "";
    for i := 0 to |words|
      invariant line == Join(words[..i])
    {
      if i > 0 {
        line := line + " ";
      }
      line := line + words[i];
      assert words[..i + 1][..i] == words[..i];
    }
    assert words[..|words|] == words;
  }

  /** A word that can stand in a line: the first may begin with a bar, another only if it is just the bar. */
  predicate Plain(w: string, first: bool) {
    && w != "" && |w| < MAX_WORDS_LEN
    && (forall c :: c in w ==> !IsSpace(c) && !IsQuote(c))
    && (w[0] == '|' ==> first || w == "|")
  }

  /** Plain but for its length. */
  predicate Shaped(w: string, first: bool) {
    && w != "" && (forall c :: c in w ==> !IsSpace(c) && !IsQuote(c)) && (w[0] == '|' ==> first || w == "|")
  }

  predicate AllPlain(ws: seq<string>) {
    forall i :: 0 <= i < |ws| ==> Plain(ws[i], i == 0)
  }

  lemma {:induction false} TakeRun(w: string, rest: string)
    requires (forall c :: c in w ==> !IsSpace(c)) && (rest != [] ==> IsSpace(rest[0]))
    ensures TakeWord(w + rest) == w && DropWord(w + rest) == rest
  {
    if w == [] {
      assert w + rest == rest;
    } else {
      assert (w + rest)[1..] == w[1..] + rest;
      TakeRun(w[1..], rest);
    }
  }

  /** Words behind the first, each with a space in front. */
  function Tail(ws: seq<string>): string {
    if ws == [] then "" else " " + ws[0] + Tail(ws[1..])
  }

  lemma {:induction false} JoinTail(ws: seq<string>)
    requires ws != []
    ensures Join(ws) == ws[0] + Tail(ws[1..])
  {
    var n := |ws| - 1;
    if n > 0 {
      JoinTail(ws[..n]);
      TailSnoc(ws[..n][1..], ws[n]);
      assert ws[..n][1..] + [ws[n]] == ws[1..];
    }
  }

  lemma {:induction false} TailSnoc(ws: seq<string>, w: string)
    ensures Tail(ws + [w]) == Tail(ws) + " " + w
  {
    if ws == [] {
      assert [w][1..] == [] && [] + [w] == [w];
    } else {
      assert (ws + [w])[1..] == ws[1..] + [w];
      TailSnoc(ws[1..], w);
    }
  }

  lemma FieldsOfWord(w: string, rest: string)
    requires Shaped(w, false) && (rest != [] ==> IsSpace(rest[0]))
    ensures Fields(w + rest) == [w] + Fields(rest)
  {
    var s := w + rest;
    assert w[0] in w && s[1..] == w[1..] + rest;
    if w[0] == '|' {
      assert s[1..] == rest;
    } else {
      TakeRun(w, rest);
      TakeRun(w[1..], rest);
    }
  }

  lemma {:induction false} FieldsOfTail(ws: seq<string>)
    requires forall i :: 0 <= i < |ws| ==> Plain(ws[i], false)
    ensures Fields(Tail(ws)) == ws
  {
    if ws != [] {
      FieldsOfTail(ws[1..]);
      FieldsOfWord(ws[0], Tail(ws[1..]));
      assert Tail(ws)[1..] == ws[0] + Tail(ws[1..]);
      assert ws == [ws[0]] + ws[1..];
    }
  }

  lemma {:induction false} LimitFits(ws: seq<string>, room: nat)
    requires |ws| <= room && forall w :: w in ws ==> |w| < MAX_WORDS_LEN
    ensures Limit(ws, room) == Some(ws)
  {
    if ws != [] {
      LimitFits(ws[1..], room - 1);
      assert [ws[0]] + ws[1..] == ws;
    }
  }

  lemma {:induction false} TailNoQuotes(ws: seq<string>)
    requires forall i :: 0 <= i < |ws| ==> Plain(ws[i], false)
    ensures NoQuotes(Tail(ws))
  {
    if ws != [] {
      TailNoQuotes(ws[1..]);
    }
  }

  lemma LineFieldsOfJoin(ws: seq<string>)
    requires AllPlain(ws) && ws != []
    ensures LineFields(Join(ws)) == ws && NoQuotes(Join(ws))
  {
    var w, rest := ws[0], Tail(ws[1..]);
    JoinTail(ws);
    FieldsOfTail(ws[1..]);
    TailNoQuotes(ws[1..]);
    TakeRun(w, rest);
    TakeRun(w[1..], rest);
    assert w[0] in w;
    assert (w + rest)[1..] == w[1..] + rest;
    assert ws == [w] + ws[1..];
  }

  /** Tokenizing the space-joined form of up to 31 plain words gives back those words. */
  lemma {:induction false} ParseJoin(ws: seq<string>)
    requires AllPlain(ws) && |ws| <= MAX_WORDS_NUM - 1
    ensures Parse(Join(ws)) == Some(ws)
  {
    if ws != [] {
      LineFieldsOfJoin(ws);
      ParseIsFields(Join(ws));
      LimitFits(ws, MAX_WORDS_NUM - 1);
    }
  }

  // ---- the words of a line are plain ----

  lemma {:induction false} TakeWordPlain(s: string)
    ensures forall c :: c in TakeWord(s) ==> c in s && !IsSpace(c)
    ensures forall c :: c in DropWord(s) ==> c in s
  {
    if s != [] && !IsSpace(s[0]) {
      TakeWordPlain(s[1..]);
    }
  }

  lemma {:induction false} FieldsShaped(s: string)
    requires NoQuotes(s)
    ensures forall i :: 0 <= i < |Fields(s)| ==> Shaped(Fields(s)[i], false)
    decreases |s|
  {
    if s != [] {
      TakeWordPlain(s);
      TakeWordPlain(s[1..]);
      if IsSpace(s[0]) || s[0] == '|' {
        FieldsShaped(s[1..]);
      } else {
        FieldsShaped(DropWord(s[1..]));
      }
    }
  }

  lemma {:induction false} LimitPrefix(ws: seq<string>, room: nat)
    requires Limit(ws, room).Some?
    ensures var r := Limit(ws, room).value; r <= ws && |r| <= room && forall w :: w in r ==> |w| < MAX_WORDS_LEN
  {
    if ws != [] && room > 0 {
      LimitPrefix(ws[1..], room - 1);
      assert ws == [ws[0]] + ws[1..];
    }
  }

  /** Joining the words of any unquoted line that was accepted, and tokenizing again, changes nothing. */
  lemma ReparseIsStable(line: string)
    requires NoQuotes(line) && Parse(line).Some?
    ensures Parse(Join(Parse(line).value)) == Parse(line)
  {
    var s, ws := SkipSpaces(line), Parse(line).value;
    ParseIsFields(line);
    LimitPrefix(LineFields(line), MAX_WORDS_NUM - 1);
    SkipKeeps(line);
    if s != [] {
      TakeWordPlain(s);
      TakeWordPlain(s[1..]);
      FieldsShaped(DropWord(s[1..]));
      forall i | 0 <= i < |ws| ensures Plain(ws[i], i == 0) {
        assert ws[i] == LineFields(line)[i];
        assert i > 0 ==> ws[i] == Fields(DropWord(s[1..]))[i - 1];
      }
    }
    ParseJoin(ws);
  }

  // ---- quotes ----

  /** Inside quotes everything but a quote character belongs to the word. */
  lemma {:induction false} ScanInside(body: string, rest: string, acc: string, q: char, room: nat)
    requires IsQuote(q) && NoQuotes(body) && room > 0
    ensures Scan(body + [q] + rest, Some(acc), Some(q), room) ==
            if |acc + body| >= MAX_WORDS_LEN then None else Prepend([acc + body], Scan(rest, None, None, room - 1))
    ensures Scan(body, Some(acc), Some(q), room) == Limit([acc + body], room)
    decreases body
  {
    var s := body + [q] + rest;
    if body == [] {
      assert s == [q] + rest && s[1..] == rest && acc + body == acc;
      assert [acc][1..] == [] && [acc] + [] == [acc];
    } else {
      assert s[1..] == body[1..] + [q] + rest;
      assert body[0] in body && forall c :: c in body[1..] ==> c in body;
      assert acc + body == (acc + [body[0]]) + body[1..];
      ScanInside(body[1..], rest, acc + [body[0]], q, room);
    }
  }

  /** A quoted word is what stands between its quotes, spaces and bars included; the text of a word that was still
      open at the opening quote is dropped. */
  lemma QuotedWord(q: char, body: string, rest: string, open: Option<string>, room: nat)
    requires IsQuote(q) && NoQuotes(body) && room > 0
    ensures Scan([q] + body + [q] + rest, open, None, room) ==
            if |body| >= MAX_WORDS_LEN then None else Prepend([body], Scan(rest, None, None, room - 1))
  {
    var s := [q] + body + [q] + rest;
    assert s[1..] == body + [q] + rest;
    assert "" + body == body;
    ScanInside(body, rest, "", q, room);
  }

  /** An opening quote that is not closed takes the rest of the line. */
  lemma UnclosedQuote(q: char, body: string, open: Option<string>, room: nat)
    requires IsQuote(q) && NoQuotes(body) && room > 0
    ensures Scan([q] + body, open, None, room) == Limit([body], room)
  {
    var s := [q] + body;
    assert s[0] == q && s[1..] == body;
    assert "" + body == body && ["" + body] == [body];
    ScanInside(body, "", "", q, room);
    assert Scan(body, Some(""), Some(q), room) == Limit([body], room);
    assert Scan(s, open, None, room) == Scan(s[1..], Some(""), Some(s[0]), room);
  }

  /** And so does one of the other kind before it is closed: the text since the first quote is dropped. */
  lemma {:induction false} OtherQuoteDrops(q: char, body: string, q': char, rest: string, acc: string, room: nat)
    requires IsQuote(q) && IsQuote(q') && q != q' && NoQuotes(body) && room > 0
    ensures Scan(body + [q'] + rest, Some(acc), Some(q), room) == Scan(rest, Some(""), Some(q'), room)
    decreases body
  {
    var s := body + [q'] + rest;
    if body == [] {
      assert s == [q'] + rest && s[1..] == rest;
    } else {
      assert s[1..] == body[1..] + [q'] + rest;
      assert body[0] in body && forall c :: c in body[1..] ==> c in body;
      OtherQuoteDrops(q, body[1..], q', rest, acc + [body[0]], room);
    }
  }

  /** Words in double quotes, a space in front of each. */
  function QuoteAll(ws: seq<string>): string {
    if ws == [] then "" else " " + ['"'] + ws[0] + ['"'] + QuoteAll(ws[1..])
  }

  predicate Quotable(w: string) { |w| < MAX_WORDS_LEN && NoQuotes(w) }

  lemma {:induction false} ScanQuoteAll(ws: seq<string>, room: nat)
    requires |ws| <= room && forall w :: w in ws ==> Quotable(w)
    ensures Scan(QuoteAll(ws), None, None, room) == Some(ws)
    decreases ws
  {
    if ws != [] {
      var s, q := QuoteAll(ws), ['"'] + ws[0] + ['"'] + QuoteAll(ws[1..]);
      assert s == " " + q && s[1..] == q;
      assert ws[0] in ws && forall w :: w in ws[1..] ==> w in ws;
      QuotedWord('"', ws[0], QuoteAll(ws[1..]), None, room);
      ScanQuoteAll(ws[1..], room - 1);
      assert [ws[0]] + ws[1..] == ws;
    }
  }

  lemma ScanFirstQuoted(ws: seq<string>, room: nat)
    requires ws != [] && |ws| <= room && forall w :: w in ws ==> Quotable(w)
    ensures Scan(['"'] + ws[0] + ['"'] + QuoteAll(ws[1..]), Some(""), None, room) == Some(ws)
  {
    assert ws[0] in ws && forall w :: w in ws[1..] ==> w in ws;
    QuotedWord('"', ws[0], QuoteAll(ws[1..]), Some(""), room);
    ScanQuoteAll(ws[1..], room - 1);
    assert [ws[0]] + ws[1..] == ws;
  }

  lemma SkipToQuote(s: string)
    requires s != [] && !IsSpace(s[0])
    ensures SkipSpaces(" " + s) == s
  {
    assert (" " + s)[1..] == s;
  }

  /** Up to 31 quoted words of fewer than 192 characters come back, whatever they hold but quotes. */
  lemma {:induction false} ParseQuoteAll(ws: seq<string>)
    requires |ws| <= MAX_WORDS_NUM - 1 && forall w :: w in ws ==> Quotable(w)
    ensures Parse(QuoteAll(ws)) == Some(ws)
  {
    if ws != [] {
      var s := ['"'] + ws[0] + ['"'] + QuoteAll(ws[1..]);
      assert QuoteAll(ws) == " " + s;
      SkipToQuote(s);
      ScanFirstQuoted(ws, MAX_WORDS_NUM - 1);
    }
  }

  lemma {:induction false} ScannedWords(s: string, word: Option<string>, quote: Option<char>, room: nat)
    requires word.Some? ==> NoQuotes(word.value)
    requires Scan(s, word, quote, room).Some?
    ensures var ws := Scan(s, word, quote, room).value;
      |ws| <= room && forall w :: w in ws ==> Quotable(w)
    decreases 2 * |s| + if word.Some? then 1 else 0
  {
    if room == 0 {
    } else if s == [] || quote == Some(s[0]) || (word.Some? && quote.None? && IsSpace(s[0])) {
      var done := if word.Some? then [word.value] else [];
      if s != [] {
        ScannedWords(if quote.Some? then s[1..] else s, None, None, room - |done|);
      }
    } else if IsQuote(s[0]) {
      ScannedWords(s[1..], Some(""), Some(s[0]), room);
    } else if word.Some? {
      assert NoQuotes(word.value + [s[0]]);
      ScannedWords(s[1..], Some(word.value + [s[0]]), quote, room);
    } else if s[0] == '|' {
      ScannedWords(s[1..], None, quote, room - 1);
    } else if !IsSpace(s[0]) {
      ScannedWords(s[1..], Some([s[0]]), quote, room);
    } else {
      ScannedWords(s[1..], None, quote, room);
    }
  }

  /** The lists of words that some line yields are exactly those of at most 31 words, each shorter than 192
      characters and without quotes. */
  lemma {:induction false} YieldedIff(ws: seq<string>)
    ensures (exists line :: Parse(line) == Some(ws)) <==>
            |ws| <= MAX_WORDS_NUM - 1 && forall w :: w in ws ==> Quotable(w)
  {
    if line :| Parse(line) == Some(ws) {
      var s := SkipSpaces(line);
      ScannedWords(s, if s == [] then None else Some(""), None, MAX_WORDS_NUM - 1);
    }
    if |ws| <= MAX_WORDS_NUM - 1 && forall w :: w in ws ==> Quotable(w) {
      ParseQuoteAll(ws);
    }
  }
}
