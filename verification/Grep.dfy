/** The regular-expression search of user/grep.c: `match`, `matchhere` and `matchstar`, and the loop
  * of `grep` that slides a 1024-byte buffer over its input. Their meaning is given by splitting the
  * text into one piece for each item of the pattern, and by cutting the input into lines. */
module Grep {
  import opened CStrings

  // ---------- What a pattern means ----------

  datatype Item = One(c: char) | Many(c: char) | EndOfText

  // A character of a pattern stands for itself, except that '.' stands for any character.
  predicate Fits(c: char, x: char) {
    c == '.' || c == x
  }

  predicate AllFit(c: char, s: string) {
    forall i :: 0 <= i < |s| ==> Fits(c, s[i])
  }

  // The items of a pattern after its '^': a character followed by '*' repeats, whatever it is, a
  // final '$' is the end of the text, and any other character is one character.
  function Items(re: string): seq<Item> {
    if re == [] then []
    else if |re| > 1 && re[1] == '*' then [Many(re[0])] + Items(re[2..])
    else if re == "$" then [EndOfText]
    else [One(re[0])] + Items(re[1..])
  }

  predicate Takes(item: Item, piece: string) {
    match item
    case One(c) => |piece| == 1 && Fits(c, piece[0])
    case Many(c) => AllFit(c, piece)
    case EndOfText => piece == []
  }

  function Concat(pieces: seq<string>): string {
    if pieces == [] then [] else pieces[0] + Concat(pieces[1..])
  }

  // `text` begins with one piece for each item, and is no longer if the items hold an end mark.
  predicate Splits(items: seq<Item>, text: string, pieces: seq<string>) {
    && |pieces| == |items|
    && (forall i :: 0 <= i < |items| ==> Takes(items[i], pieces[i]))
    && Concat(pieces) <= text
    && (EndOfText in items ==> Concat(pieces) == text)
  }

  ghost predicate Begins(items: seq<Item>, text: string) {
    exists pieces :: Splits(items, text, pieces)
  }

  // What a line must satisfy: a leading '^' fixes the match at its beginning.
  ghost predicate Matches(re: string, text: string) {
    if re != [] && re[0] == '^' then Begins(Items(re[1..]), text)
    else exists k: nat :: k <= |text| && Begins(Items(re), text[k..])
  }

  // ---------- The meaning, one item at a time ----------

  lemma BeginsEmpty(text: string)
    ensures Begins([], text)
  {
    assert Splits([], text, []);
  }

  lemma BeginsEnd(text: string)
    ensures Begins([EndOfText], text) <==> text == []
  {
    if text == [] {
      assert Concat([[]]) == [] + Concat([]);
      assert Splits([EndOfText], text, [[]]);
    }
    forall pieces | Splits([EndOfText], text, pieces)
      ensures text == []
    {
      assert Takes([EndOfText][0], pieces[0]);
      assert Concat(pieces) == pieces[0] + Concat(pieces[1..]);
    }
  }

  lemma PrefixOfPrefix(a: string, b: string, c: string)
    ensures a + b <= c ==> a <= c
  {
    assert (a + b)[..|a|] == a;
  }

  // The first piece and the others can be chosen apart.
  lemma SplitsCons(item: Item, items: seq<Item>, text: string, pieces: seq<string>)
    requires !item.EndOfText? && pieces != []
    ensures Splits([item] + items, text, pieces) <==>
            Takes(item, pieces[0]) && pieces[0] <= text && Splits(items, text[|pieces[0]|..], pieces[1..])
  {
    hide Takes;
    var all, first, rest := [item] + items, pieces[0], Concat(pieces[1..]);
    assert Concat(pieces) == first + rest;
    if first <= text {
      assert text == first + text[|first|..];
      assert first + rest <= text <==> rest <= text[|first|..];
      assert first + rest == text <==> rest == text[|first|..];
    } else {
      PrefixOfPrefix(first, rest, text);
    }
    assert EndOfText in all <==> EndOfText in items;
    if |pieces| == |all| {
      TakesCons(item, items, pieces);
    }
  }

  lemma TakesCons(item: Item, items: seq<Item>, pieces: seq<string>)
    requires |pieces| == |items| + 1
    ensures (forall i :: 0 <= i < |pieces| ==> Takes(([item] + items)[i], pieces[i])) <==>
            Takes(item, pieces[0]) && forall i :: 0 <= i < |items| ==> Takes(items[i], pieces[1..][i])
  {
    hide Takes;
    var all := [item] + items;
    assert all[0] == item && forall i :: 0 <= i < |items| ==> all[i + 1] == items[i] && pieces[1..][i] == pieces[i + 1];
    if Takes(item, pieces[0]) && forall i :: 0 <= i < |items| ==> Takes(items[i], pieces[1..][i]) {
      forall i | 0 <= i < |pieces|
        ensures Takes(all[i], pieces[i])
      {
        if i > 0 {
          assert Takes(items[i - 1], pieces[1..][i - 1]);
        }
      }
    }
    if forall i :: 0 <= i < |pieces| ==> Takes(all[i], pieces[i]) {
      forall i | 0 <= i < |items|
        ensures Takes(items[i], pieces[1..][i])
      {
        assert Takes(all[i + 1], pieces[i + 1]);
      }
    }
  }

  lemma BeginsCons(item: Item, items: seq<Item>, text: string, k: nat)
    requires !item.EndOfText? && k <= |text|
    requires Takes(item, text[..k]) && Begins(items, text[k..])
    ensures Begins([item] + items, text)
  {
    var rest :| Splits(items, text[k..], rest);
    var pieces := [text[..k]] + rest;
    assert pieces[1..] == rest;
    SplitsCons(item, items, text, pieces);
  }

  lemma BeginsUncons(item: Item, items: seq<Item>, text: string) returns (k: nat)
    requires !item.EndOfText? && Begins([item] + items, text)
    ensures k <= |text| && Takes(item, text[..k]) && Begins(items, text[k..])
  {
    var pieces :| Splits([item] + items, text, pieces);
    SplitsCons(item, items, text, pieces);
    k := |pieces[0]|;
    assert text[..k] == pieces[0];
  }

  lemma BeginsOne(c: char, items: seq<Item>, text: string)
    ensures Begins([One(c)] + items, text) <==> text != [] && Fits(c, text[0]) && Begins(items, text[1..])
  {
    if text != [] && Fits(c, text[0]) && Begins(items, text[1..]) {
      BeginsCons(One(c), items, text, 1);
    }
    if Begins([One(c)] + items, text) {
      var k := BeginsUncons(One(c), items, text);
    }
  }

  lemma BeginsMany(c: char, items: seq<Item>, text: string)
    ensures Begins([Many(c)] + items, text) <==>
            exists k: nat :: k <= |text| && AllFit(c, text[..k]) && Begins(items, text[k..])
  {
    if k: nat :| k <= |text| && AllFit(c, text[..k]) && Begins(items, text[k..]) {
      BeginsCons(Many(c), items, text, k);
    }
    if Begins([Many(c)] + items, text) {
      var k := BeginsUncons(Many(c), items, text);
    }
  }

  // ---------- match, matchhere, matchstar ----------

  // match: `text` need not begin where the match does, and the match may be of its empty end.
  method Match(re: string, text: string) returns (found: bool)
    ensures found <==> Matches(re, text)
  {
    hide Begins, Items;
    if re != [] && re[0] == '^' {
      found := MatchHere(re[1..], text);
      return;
    }
    var i := 0;
    while true
      invariant 0 <= i <= |text|
      invariant forall k :: 0 <= k < i ==> !Begins(Items(re), text[k..])
      decreases |text| - i
    {
      found := MatchHere(re, text[i..]);
      if found || i == |text| {
        return;
      }
      i := i + 1;
    }
  }

  // matchhere: does `text` begin with a match of `re`?
  method MatchHere(re: string, text: string) returns (found: bool)
    ensures found <==> Begins(Items(re), text)
    decreases |re|, |text|, 0
  {
    hide Begins;
    if re == [] {
      BeginsEmpty(text);
      return true;
    }
    if |re| > 1 && re[1] == '*' {
      BeginsMany(re[0], Items(re[2..]), text);
      found := MatchStar(re[0], re[2..], text);
      return;
    }
    if re[0] == '$' && |re| == 1 {
      assert re == "$";
      BeginsEnd(text);
      return text == [];
    }
    BeginsOne(re[0], Items(re[1..]), text);
    if text != [] && Fits(re[0], text[0]) {
      found := MatchHere(re[1..], text[1..]);
      return;
    }
    return false;
  }

  // matchstar: does `text` begin with some run of characters that fit `c` and then a match of `re`?
  method MatchStar(c: char, re: string, text: string) returns (found: bool)
    ensures found <==> exists k: nat :: k <= |text| && AllFit(c, text[..k]) && Begins(Items(re), text[k..])
    decreases |re|, |text|, 1
  {
    hide Begins, Items;
    var i := 0;
    while true
      invariant 0 <= i <= |text| && AllFit(c, text[..i])
      invariant forall k :: 0 <= k < i ==> !Begins(Items(re), text[k..])
      decreases |text| - i
    {
      found := MatchHere(re, text[i..]);
      if found {
        return;
      }
      if i == |text| || !Fits(c, text[i]) {
        forall k | i < k <= |text|
          ensures !AllFit(c, text[..k])
        {
          assert text[..k][i] == text[i];
        }
        return;
      }
      i := i + 1;
    }
  }

  // ---------- The input as lines ----------

  const BUFFER: nat := 1024

  // Where the first newline or NUL of `s` is, or its length if it has none.
  function LineEnd(s: string): (k: nat)
    ensures k <= |s|
    ensures k < |s| ==> s[k] == '\n' || s[k] == '\0'
    ensures forall i :: 0 <= i < k ==> s[i] != '\n' && s[i] != '\0'
  {
    if s == [] || s[0] == '\n' || s[0] == '\0' then 0 else 1 + LineEnd(s[1..])
  }

  predicate EndsWithin(s: string, k: nat) {
    k < |s| && s[k] == '\n' && k + 1 < BUFFER
  }

  // What grep writes for `input`: its matching lines, up to the first line that does not fit into
  // the buffer with its newline, is cut by a NUL, or has no newline.
  ghost function Selected(re: string, input: string): string
    decreases |input|
  {
    var k := LineEnd(input);
    if !EndsWithin(input, k) then []
    else (if Matches(re, input[..k]) then input[..k + 1] else []) + Selected(re, input[k + 1..])
  }

  lemma SelectedStep(re: string, input: string)
    ensures var k := LineEnd(input);
            Selected(re, input) ==
              if !EndsWithin(input, k) then []
              else (if Matches(re, input[..k]) then input[..k + 1] else []) + Selected(re, input[k + 1..])
  {
    hide Matches, LineEnd;
  }

  predicate IsLine(line: string) {
    '\n' !in line
  }

  // The line fits into the buffer with its newline and a NUL, and has no NUL itself.
  predicate Whole(line: string) {
    |line| + 1 < BUFFER && '\0' !in line
  }

  function Text(lines: seq<string>, tail: string): string {
    if lines == [] then tail else lines[0] + "\n" + Text(lines[1..], tail)
  }

  // The lines that match, each with its newline.
  ghost function Matching(re: string, lines: seq<string>): string {
    if lines == [] then []
    else (if Matches(re, lines[0]) then lines[0] + "\n" else []) + Matching(re, lines[1..])
  }

  // How many lines there are before the first that fills the buffer or holds a NUL.
  function WholeLines(lines: seq<string>): (n: nat)
    ensures n <= |lines|
    ensures forall i :: 0 <= i < n ==> Whole(lines[i])
    ensures n < |lines| ==> !Whole(lines[n])
  {
    if lines == [] || !Whole(lines[0]) then 0 else 1 + WholeLines(lines[1..])
  }

  lemma LineEndIs(s: string, k: nat)
    requires k <= |s| && (forall i :: 0 <= i < k ==> s[i] != '\n' && s[i] != '\0')
    requires k < |s| ==> s[k] == '\n' || s[k] == '\0'
    ensures LineEnd(s) == k
  {
  }

  // Every input is made of lines and an unfinished one.
  lemma {:induction false} TextHasLines(input: string) returns (lines: seq<string>, tail: string)
    ensures Text(lines, tail) == input
    ensures (forall l :: l in lines ==> IsLine(l)) && IsLine(tail)
  {
    if input == [] {
      return [], [];
    }
    lines, tail := TextHasLines(input[1..]);
    assert input == [input[0]] + input[1..];
    if input[0] == '\n' {
      assert ([[]] + lines)[1..] == lines && forall l :: l in [[]] + lines ==> l == [] || l in lines;
      lines := [[]] + lines;
    } else if lines == [] {
      tail := [input[0]] + tail;
    } else {
      assert lines[0] in lines && forall l :: l in lines[1..] ==> l in lines;
      var first := [input[0]] + lines[0];
      assert ([first] + lines[1..])[1..] == lines[1..];
      assert input == first + "\n" + Text(lines[1..], tail);
      lines := [first] + lines[1..];
    }
  }

  lemma {:induction false} SelectsWholeLines(re: string, lines: seq<string>, tail: string)
    requires (forall l :: l in lines ==> IsLine(l)) && IsLine(tail)
    ensures Selected(re, Text(lines, tail)) == Matching(re, lines[..WholeLines(lines)])
  {
    hide Matches;
    var text := Text(lines, tail);
    if lines == [] {
      NoNewlineSelectsNothing(re, text);
    } else {
      var line, rest := lines[0], Text(lines[1..], tail);
      assert IsLine(line);
      assert text == line + "\n" + rest;
      if Whole(line) {
        LineEndIs(text, |line|);
        assert text[..|line|] == line && text[..|line| + 1] == line + "\n" && text[|line| + 1..] == rest;
        SelectsWholeLines(re, lines[1..], tail);
        assert lines[..WholeLines(lines)][1..] == lines[1..][..WholeLines(lines[1..])];
      } else {
        CutLine(line, rest);
      }
    }
  }

  lemma NoNewlineSelectsNothing(re: string, text: string)
    requires IsLine(text)
    ensures Selected(re, text) == []
  {
    hide Matches;
  }

  // A NUL ends the line before its newline does.
  lemma CutLine(line: string, rest: string)
    requires IsLine(line) && !Whole(line)
    ensures var text := line + "\n" + rest; !EndsWithin(text, LineEnd(text))
  {
    var text, k := line + "\n" + rest, LineEnd(line);
    assert forall i :: 0 <= i < |line| ==> text[i] == line[i];
    LineEndIs(text, k);
  }

  lemma {:induction false} MatchingSplits(re: string, lines: seq<string>, n: nat)
    requires n <= |lines|
    ensures Matching(re, lines) == Matching(re, lines[..n]) + Matching(re, lines[n..])
  {
    hide Matches;
    if n > 0 {
      MatchingSplits(re, lines[1..], n - 1);
      assert lines[..n][1..] == lines[1..][..n - 1];
      assert lines[1..][n - 1..] == lines[n..];
    } else {
      assert lines[..n] == [] && lines[n..] == lines;
    }
  }

  lemma {:induction false} MatchingEmpty(re: string, lines: seq<string>)
    ensures Matching(re, lines) == [] <==> forall l :: l in lines ==> !Matches(re, l)
  {
    hide Matches;
    if lines != [] {
      MatchingEmpty(re, lines[1..]);
      assert forall l :: l in lines <==> l == lines[0] || l in lines[1..];
    }
  }

  // For every input: grep writes exactly the matching lines if and only if no matching line
  // comes at or after the first that has 1023 or more bytes before its newline, or a NUL.
  lemma SelectsAllLines(re: string, lines: seq<string>, tail: string)
    requires (forall l :: l in lines ==> IsLine(l)) && IsLine(tail)
    ensures Selected(re, Text(lines, tail)) == Matching(re, lines) <==>
            forall l :: l in lines[WholeLines(lines)..] ==> !Matches(re, l)
  {
    hide Matches;
    var n := WholeLines(lines);
    SelectsWholeLines(re, lines, tail);
    MatchingSplits(re, lines, n);
    MatchingEmpty(re, lines[n..]);
    assert |Matching(re, lines)| == |Matching(re, lines[..n])| + |Matching(re, lines[n..])|;
  }

  lemma SelectsWhenShort(re: string, lines: seq<string>, tail: string)
    requires (forall l :: l in lines ==> IsLine(l) && Whole(l)) && IsLine(tail)
    ensures Selected(re, Text(lines, tail)) == Matching(re, lines)
  {
    SelectsWholeLines(re, lines, tail);
    assert lines[..WholeLines(lines)] == lines;
  }

  // A NUL in the input hides everything from its own line on.
  lemma {:induction false} StopsAtNul(re: string, before: string, after: string)
    requires '\0' !in before
    ensures Selected(re, before + "\0" + after) == Selected(re, before)
    decreases |before|
  {
    hide Matches, Selected, LineEnd;
    var all, k := before + "\0" + after, LineEnd(before);
    LineEndIs(all, k);
    if EndsWithin(before, k) {
      assert all[..k] == before[..k] && all[..k + 1] == before[..k + 1];
      assert all[k + 1..] == before[k + 1..] + "\0" + after;
      StopsAtNul(re, before[k + 1..], after);
    }
    SelectedStep(re, before);
    SelectedStep(re, all);
  }

  // Once nothing more can be read, what the buffer holds has no line to write.
  lemma NothingMore(re: string, held: string, rest: string)
    requires !EndsWithin(held, LineEnd(held)) && |held| < BUFFER
    requires rest == [] || |held| == BUFFER - 1
    ensures Selected(re, held + rest) == []
  {
    var k := LineEnd(held);
    var all := held + rest;
    if k < |held| {
      LineEndIs(all, k);
    } else if rest == [] {
      assert all == held;
    } else {
      assert LineEnd(all) >= k by {
        assert forall i :: 0 <= i < k ==> all[i] == held[i];
      }
    }
  }

  // ---------- The buffer ----------

  // read: some of what is left, as long as there is any and room for it.
  method Read(input: string, pos: nat, buf: array<char>, at: nat, room: nat) returns (n: nat)
    requires pos <= |input| && at + room <= buf.Length
    modifies buf
    ensures n <= room && pos + n <= |input|
    ensures n == 0 <==> room == 0 || pos == |input|
    ensures buf[..at] == old(buf[..at]) && buf[at..at + n] == input[pos..pos + n]
  {
    if room == 0 || pos == |input| {
      return 0;
    }
    n :| 0 < n <= room && n <= |input| - pos;
    for i := 0 to n
      invariant buf[..at] == old(buf[..at])
      invariant buf[at..at + i] == input[pos..pos + i]
    {
      buf[at + i] := input[pos + i];
    }
  }

  lemma NulAt(mem: string, p: nat) returns (z: nat)
    requires p <= |mem| && '\0' in mem[p..]
    ensures p <= z < |mem| && mem[z] == '\0'
  {
    var i :| 0 <= i < |mem[p..]| && mem[p..][i] == '\0';
    z := p + i;
  }

  // strchr(p, '\n'): where the first newline of the C string at `p` is.
  method FindNewline(buf: array<char>, p: nat) returns (q: int)
    requires p <= buf.Length && '\0' in buf[p..]
    ensures q == if buf[p + LineEnd(buf[p..])] == '\n' then p + LineEnd(buf[p..]) else -1
  {
    q := p;
    ghost var z := NulAt(buf[..], p);
    while buf[q] != '\0'
      invariant p <= q <= z < buf.Length && buf[z] == '\0'
      invariant forall i :: p <= i < q ==> buf[i] != '\n' && buf[i] != '\0'
      decreases buf.Length - q
    {
      if buf[q] == '\n' {
        LineEndIs(buf[p..], q - p);
        return;
      }
      q := q + 1;
    }
    LineEndIs(buf[p..], q - p);
    return -1;
  }

  // memmove(buf, p, n)
  method MoveDown(buf: array<char>, p: nat, n: nat)
    requires p + n <= buf.Length
    modifies buf
    ensures buf[..n] == old(buf[p..p + n])
  {
    for i := 0 to n
      invariant buf[..i] == old(buf[p..p + i])
      invariant buf[p + i..] == old(buf[p + i..])
    {
      assert buf[p + i] == buf[p + i..][0] == old(buf[p + i]);
      buf[i] := buf[p + i];
    }
  }

  // What strchr finds in the buffer is the end of the first line of the bytes read.
  lemma LineInBuffer(mem: string, p: nat, m: nat)
    requires p <= m < |mem| && m < BUFFER && mem[m] == '\0'
    ensures var k := LineEnd(mem[p..m]);
            k <= m - p && LineEnd(mem[p..]) == k && (EndsWithin(mem[p..m], k) <==> mem[p + k] == '\n')
  {
    var k := LineEnd(mem[p..m]);
    assert forall i :: 0 <= i < k ==> mem[p..][i] == mem[p..m][i];
    assert k < m - p ==> mem[p..m][k] == mem[p..][k];
    LineEndIs(mem[p..], k);
  }

  // One line of the buffer is one line of the input.
  lemma StepOver(re: string, held: string, more: string, p: nat, q: nat)
    requires p <= q < |held| < BUFFER && q == p + LineEnd(held[p..]) && held[q] == '\n'
    ensures Selected(re, held[p..] + more) ==
            (if Matches(re, held[p..q]) then held[p..q + 1] else []) + Selected(re, held[q + 1..] + more)
  {
    hide Matches, Selected, LineEnd;
    var all, k := held[p..] + more, q - p;
    assert forall i :: 0 <= i <= k ==> all[i] == held[p..][i];
    LineEndIs(all, k);
    SelectedStep(re, all);
    assert all[..k] == held[p..q] && all[..k + 1] == held[p..q + 1];
    assert all[k + 1..] == held[q + 1..] + more;
  }

  // One turn of the inner loop of grep: the line that begins at `p` ends at `q`; write it if it matches.
  method ScanLine(re: string, buf: array<char>, p: nat, m: nat) returns (q: int, out: string)
    requires buf.Length == BUFFER && p <= m < BUFFER && buf[m] == '\0'
    modifies buf
    ensures q < 0 ==> !EndsWithin(buf[p..m], LineEnd(buf[p..m])) && buf[p..m] == old(buf[p..m]) && out == []
    ensures q >= 0 ==> p <= q < m && q == p + LineEnd(old(buf[p..m])) && old(buf[q]) == '\n'
    ensures q >= 0 ==> out == if Matches(re, old(buf[p..q])) then old(buf[p..q + 1]) else []
    ensures q >= 0 ==> buf[q + 1..] == old(buf[q + 1..])
  {
    hide Matches, LineEnd, CString;
    out := [];
    ghost var mem := buf[..];
    assert mem[p..] == buf[p..] && mem[p..m] == buf[p..m];
    assert buf[p..][m - p] == '\0';
    LineInBuffer(mem, p, m);
    q := FindNewline(buf, p);
    if q < 0 {
      return;
    }
    assert mem[p..q] == mem[p..m][..q - p] && buf[p..q] == mem[p..q];
    buf[q] := '\0';
    CStringIs(mem[q := '\0'], p, q);
    assert buf[..] == mem[q := '\0'] && mem[q := '\0'][p..q] == mem[p..q];
    var found := Match(re, CString(buf[..], p));
    if found {
      buf[q] := '\n';
      assert buf[..] == mem;
      out := buf[p..q + 1];
    }
  }

  lemma SliceAgain(mem: string, held: string, p: nat, q: nat, m: nat)
    requires p <= q < m <= |mem| && m == |held| && mem[p..m] == held[p..]
    ensures mem[q] == held[q] && mem[p..q] == held[p..q] && mem[p..q + 1] == held[p..q + 1]
    ensures mem[q + 1..m] == held[q + 1..]
  {
    assert forall i :: p <= i < m ==> mem[i] == mem[p..m][i - p] == held[p..][i - p] == held[i];
  }

  lemma SameTail(mem: string, was: string, p: nat, m: nat)
    requires p <= m < |mem| == |was| && mem[p..] == was[p..]
    ensures mem[m] == was[m] && mem[p..m] == was[p..m]
  {
    assert mem[p..][m - p] == was[p..][m - p];
    assert mem[p..m] == mem[p..][..m - p] && was[p..m] == was[p..][..m - p];
  }

  // The inner loop of grep: write the lines of buf[..m] that match, and step over all of them.
  method ScanLines(re: string, buf: array<char>, m: nat, ghost more: string) returns (p: nat, out: string)
    requires buf.Length == BUFFER && m < BUFFER && buf[m] == '\0'
    modifies buf
    ensures p <= m && buf[p..m] == old(buf[p..m])
    ensures !EndsWithin(buf[p..m], LineEnd(buf[p..m]))
    ensures Selected(re, old(buf[..m]) + more) == out + Selected(re, buf[p..m] + more)
  {
    hide Matches, Selected, LineEnd, EndsWithin;
    p, out := 0, [];
    ghost var held := buf[..m];
    assert held[0..] == held;
    while true
      invariant p <= m && buf[p..m] == held[p..] && buf[m] == '\0'
      invariant Selected(re, held + more) == out + Selected(re, held[p..] + more)
      decreases m - p
    {
      ghost var mem := buf[..];
      assert mem[p..m] == held[p..];
      var q, line := ScanLine(re, buf, p, m);
      if q < 0 {
        return;
      }
      SliceAgain(mem, held, p, q, m);
      SameTail(buf[..], mem, q + 1, m);
      StepOver(re, held, more, p, q);
      out := out + line;
      p := q + 1;
    }
  }

  // read() after the `m` bytes that the buffer holds already.
  method Fill(input: string, pos: nat, buf: array<char>, m: nat) returns (n: nat)
    requires buf.Length == BUFFER && m < BUFFER && pos <= |input|
    modifies buf
    ensures m + n < BUFFER && pos + n <= |input|
    ensures n == 0 ==> m == BUFFER - 1 || pos == |input|
    ensures buf[..m + n] == old(buf[..m]) + input[pos..pos + n] && buf[m + n] == '\0'
  {
    n := Read(input, pos, buf, m, BUFFER - m - 1);
    assert buf[..m + n] == buf[..m] + buf[m..m + n];
    ghost var held := buf[..m + n];
    buf[m + n] := '\0';
    assert buf[..m + n] == held;
  }

  // What is written so far, and what the held and the unread bytes still give, is the whole output.
  ghost predicate Remains(re: string, input: string, out: string, held: string, pos: nat) {
    pos <= |input| && Selected(re, input) == out + Selected(re, held + input[pos..])
  }

  lemma RemainsFilled(re: string, input: string, out: string, held: string, pos: nat, n: nat)
    requires Remains(re, input, out, held, pos) && pos + n <= |input|
    ensures Remains(re, input, out, held + input[pos..pos + n], pos + n)
  {
    hide Selected;
    assert held + input[pos..pos + n] + input[pos + n..] == held + input[pos..];
  }

  lemma RemainsScanned(re: string, input: string, out: string, held: string, pos: nat, found: string, rest: string)
    requires Remains(re, input, out, held, pos)
    requires Selected(re, held + input[pos..]) == found + Selected(re, rest + input[pos..])
    ensures Remains(re, input, out + found, rest, pos)
  {
    hide Selected;
  }

  lemma RemainsNothing(re: string, input: string, out: string, held: string, pos: nat)
    requires Remains(re, input, out, held, pos) && Selected(re, held + input[pos..]) == []
    ensures out == Selected(re, input)
  {
    hide Selected;
  }

  lemma NothingHeld(re: string, input: string)
    ensures !EndsWithin([], LineEnd([])) && Remains(re, input, [], [], 0)
  {
    hide Selected;
    assert [] + input[0..] == input;
  }

  // grep: write the matching lines of `input`, however read() cuts it up.
  method Grep(re: string, input: string) returns (out: string)
    ensures out == Selected(re, input)
  {
    hide Matches, Selected, LineEnd, EndsWithin, Remains;
    var buf := new char[BUFFER];
    var m: nat, pos: nat := 0, 0;
    out := [];
    NothingHeld(re, input);
    while true
      invariant m < BUFFER && pos <= |input| && Remains(re, input, out, buf[..m], pos)
      invariant !EndsWithin(buf[..m], LineEnd(buf[..m]))
      decreases |input| - pos
    {
      ghost var held := buf[..m];
      var n := Fill(input, pos, buf, m);
      if n == 0 {
        NothingMore(re, held, input[pos..]);
        RemainsNothing(re, input, out, held, pos);
        return;
      }
      RemainsFilled(re, input, out, held, pos, n);
      m, pos := m + n, pos + n;
      held := buf[..m];
      var p, found := ScanLines(re, buf, m, input[pos..]);
      RemainsScanned(re, input, out, held, pos, found, buf[p..m]);
      out := out + found;
      m := m - p;
      MoveDown(buf, p, m);
    }
  }
}
