/** Tokens of a command line of user/sh.c, as gettoken cuts them, and the printer that parsecmd
  * undoes. */
module ShellLexer {
  import opened ShellGrammar

  // Where a word is in the command line: from `start` up to `end`.
  datatype Span = Span(start: nat, end: nat)

  // " \t\r\n\v"
  predicate IsSpace(c: char) {
    c == ' ' || c == '\t' || c == '\r' || c == '\n' || c == '\U{0B}'
  }

  // "<|>&;()"
  predicate IsSymbol(c: char) {
    c == '<' || c == '|' || c == '>' || c == '&' || c == ';' || c == '(' || c == ')'
  }

  predicate InWord(c: char) {
    !IsSpace(c) && !IsSymbol(c)
  }

  function SkipSpaces(s: string, p: nat): (q: nat)
    requires p <= |s|
    ensures p <= q <= |s| && (forall i :: p <= i < q ==> IsSpace(s[i])) && (q < |s| ==> !IsSpace(s[q]))
    decreases |s| - p
  {
    if p < |s| && IsSpace(s[p]) then SkipSpaces(s, p + 1) else p
  }

  function WordEnd(s: string, p: nat): (q: nat)
    requires p <= |s|
    ensures p <= q <= |s| && (forall i :: p <= i < q ==> InWord(s[i])) && (q < |s| ==> !InWord(s[q]))
    decreases |s| - p
  {
    if p < |s| && InWord(s[p]) then WordEnd(s, p + 1) else p
  }

  predicate DoubleArrow(s: string, q: nat) {
    q + 1 < |s| && s[q] == '>' && s[q + 1] == '>'
  }

  // The end of the token that begins at `q`.
  function TokEnd(s: string, q: nat): (e: nat)
    requires q < |s| && !IsSpace(s[q])
    ensures q < e <= |s|
  {
    if DoubleArrow(s, q) then q + 2 else if IsSymbol(s[q]) then q + 1 else WordEnd(s, q)
  }

  function TokAt(s: string, q: nat): Tok<Span>
    requires q < |s| && !IsSpace(s[q])
  {
    if DoubleArrow(s, q) then Sym('+') else if IsSymbol(s[q]) then Sym(s[q]) else Word(Span(q, WordEnd(s, q)))
  }

  // The tokens from `p` on.
  function Lex(s: string, p: nat): seq<Tok<Span>>
    requires p <= |s|
    decreases |s| - p
  {
    var q := SkipSpaces(s, p);
    if q == |s| then [] else [TokAt(s, q)] + Lex(s, TokEnd(s, q))
  }

  predicate IsTokenSymbol(c: char) {
    IsSymbol(c) || c == '+'
  }

  // A whole word: spaces, symbols or the ends of the line are on both sides of it.
  predicate WholeWord(s: string, w: Span) {
    && w.start < w.end <= |s|
    && (forall i :: w.start <= i < w.end ==> InWord(s[i]))
    && (w.end < |s| ==> !InWord(s[w.end]))
  }

  lemma {:induction false} LexGives(s: string, p: nat)
    requires p <= |s|
    ensures forall t :: t in Lex(s, p) ==> if t.Sym? then IsTokenSymbol(t.c) else WholeWord(s, t.w)
    decreases |s| - p
  {
    var q := SkipSpaces(s, p);
    if q < |s| {
      LexGives(s, TokEnd(s, q));
    }
  }

  lemma LexSkips(s: string, p: nat)
    requires p <= |s|
    ensures Lex(s, SkipSpaces(s, p)) == Lex(s, p)
    ensures Lex(s, p) == [] <==> SkipSpaces(s, p) == |s|
    ensures Lex(s, p) != [] ==> Lex(s, p) == [TokAt(s, SkipSpaces(s, p))] + Lex(s, TokEnd(s, SkipSpaces(s, p)))
  {
    var q := SkipSpaces(s, p);
    assert SkipSpaces(s, q) == q;
  }

  // ---------- Texts in place of places ----------

  function TextOf(s: string, w: Span): string {
    if w.start <= w.end <= |s| then s[w.start..w.end] else []
  }

  function TextsOf(s: string, ws: seq<Span>): (ts: seq<string>)
    ensures |ts| == |ws| && forall i :: 0 <= i < |ws| ==> ts[i] == TextOf(s, ws[i])
  {
    if ws == [] then [] else [TextOf(s, ws[0])] + TextsOf(s, ws[1..])
  }

  function TokText(s: string, t: Tok<Span>): Tok<string> {
    match t
    case Sym(c) => Sym(c)
    case Word(w) => Word(TextOf(s, w))
  }

  function TokTexts(s: string, ts: seq<Tok<Span>>): (r: seq<Tok<string>>)
    ensures |r| == |ts| && forall i :: 0 <= i < |ts| ==> r[i] == TokText(s, ts[i])
  {
    if ts == [] then [] else [TokText(s, ts[0])] + TokTexts(s, ts[1..])
  }

  function ArrowTexts(s: string, arrows: seq<Arrow<Span>>): (r: seq<Arrow<string>>)
    ensures |r| == |arrows|
    ensures forall i :: 0 <= i < |arrows| ==> r[i] == Arrow(arrows[i].op, TextOf(s, arrows[i].file))
  {
    if arrows == [] then [] else [Arrow(arrows[0].op, TextOf(s, arrows[0].file))] + ArrowTexts(s, arrows[1..])
  }

  function CmdText(s: string, c: Cmd<Span>): Cmd<string> {
    match c
    case Exec(argv) => Exec(TextsOf(s, argv))
    case Redir(sub, file, mode, fd) => Redir(CmdText(s, sub), TextOf(s, file), mode, fd)
    case Pipe(l, r) => Pipe(CmdText(s, l), CmdText(s, r))
    case List(l, r) => List(CmdText(s, l), CmdText(s, r))
    case Back(sub) => Back(CmdText(s, sub))
  }

  // Parsing does not look into words: it gives the same tree for their texts as for their places.
  ghost predicate SameCmd(s: string, a: Result<Cmd<Span>, Span>, b: Result<Cmd<string>, string>) {
    match a
    case Bad(m) => b == Bad(m)
    case Ok(c, rest) => b == Ok(CmdText(s, c), TokTexts(s, rest))
  }

  ghost predicate SameArrows(s: string, a: Result<seq<Arrow<Span>>, Span>, b: Result<seq<Arrow<string>>, string>) {
    match a
    case Bad(m) => b == Bad(m)
    case Ok(arrows, rest) => b == Ok(ArrowTexts(s, arrows), TokTexts(s, rest))
  }

  ghost predicate SameParts(s: string, a: Result<Parts<Span>, Span>, b: Result<Parts<string>, string>) {
    match a
    case Bad(m) => b == Bad(m)
    case Ok(parts, rest) => b == Ok(Parts(TextsOf(s, parts.argv), ArrowTexts(s, parts.arrows)), TokTexts(s, rest))
  }

  lemma DropTokTexts(s: string, ts: seq<Tok<Span>>, n: nat)
    requires n <= |ts|
    ensures TokTexts(s, ts)[n..] == TokTexts(s, ts[n..])
  {
  }

  lemma {:induction false} TextRedirs(s: string, ts: seq<Tok<Span>>)
    ensures SameArrows(s, ParseRedirs(ts), ParseRedirs(TokTexts(s, ts)))
    decreases |ts|
  {
    hide TokTexts, ArrowTexts;
    if AtArrow(ts) {
      DropTokTexts(s, ts, 1);
      if AtWord(ts[1..]) {
        DropTokTexts(s, ts, 2);
        TextRedirs(s, ts[2..]);
        var more := ParseRedirs(ts[2..]);
        if more.Ok? {
          var first := Arrow(ts[0].c, ts[1].w);
          assert ArrowTexts(s, [first] + more.value) == [Arrow(ts[0].c, TextOf(s, ts[1].w))]
            + ArrowTexts(s, more.value);
        }
      }
    }
  }

  lemma {:induction false} TextArgs(s: string, ts: seq<Tok<Span>>, argc: nat)
    ensures SameParts(s, ParseArgs(ts, argc), ParseArgs(TokTexts(s, ts), argc))
    decreases |ts|
  {
    hide TokTexts, ArrowTexts, TextsOf, TextOf, ParseRedirs;
    if !AtStop(ts) && AtWord(ts) {
      DropTokTexts(s, ts, 1);
      TextRedirs(s, ts[1..]);
      if argc + 1 < MAXARGS && ParseRedirs(ts[1..]).Ok? {
        var redirs := ParseRedirs(ts[1..]);
        TextArgs(s, redirs.rest, argc + 1);
        var more := ParseArgs(redirs.rest, argc + 1);
        if more.Ok? {
          var parts := more.value;
          assert TextsOf(s, [ts[0].w] + parts.argv) == [TextOf(s, ts[0].w)] + TextsOf(s, parts.argv);
          assert ArrowTexts(s, redirs.value + parts.arrows) == ArrowTexts(s, redirs.value)
            + ArrowTexts(s, parts.arrows);
        }
      }
    }
  }

  lemma {:induction false} TextWrap(s: string, c: Cmd<Span>, arrows: seq<Arrow<Span>>)
    ensures CmdText(s, Wrap(c, arrows)) == Wrap(CmdText(s, c), ArrowTexts(s, arrows))
    decreases arrows
  {
    if arrows != [] {
      var a := arrows[0];
      TextWrap(s, Redir(c, a.file, Mode(a.op), Fd(a.op)), arrows[1..]);
      assert ArrowTexts(s, arrows)[1..] == ArrowTexts(s, arrows[1..]);
    }
  }

  lemma {:induction false} TextExec(s: string, ts: seq<Tok<Span>>)
    ensures SameCmd(s, ParseExec(ts), ParseExec(TokTexts(s, ts)))
    decreases |ts|, 1
  {
    hide TokTexts, ArrowTexts, TextsOf, ParseRedirs, ParseArgs, Wrap, ParseBlock;
    if At(ts, '(') {
      TextBlock(s, ts);
    } else {
      TextRedirs(s, ts);
      var redirs := ParseRedirs(ts);
      if redirs.Ok? {
        TextArgs(s, redirs.rest, 0);
        var args := ParseArgs(redirs.rest, 0);
        if args.Ok? {
          TextWrap(s, Exec(args.value.argv), redirs.value + args.value.arrows);
          assert ArrowTexts(s, redirs.value + args.value.arrows) == ArrowTexts(s, redirs.value)
            + ArrowTexts(s, args.value.arrows);
        }
      }
    }
  }

  lemma {:induction false} TextBlock(s: string, ts: seq<Tok<Span>>)
    ensures SameCmd(s, ParseBlock(ts), ParseBlock(TokTexts(s, ts)))
    decreases |ts|, 0
  {
    hide TokTexts, ArrowTexts, CmdText, ParseRedirs, ParseLine, Wrap;
    if At(ts, '(') {
      DropTokTexts(s, ts, 1);
      TextLine(s, ts[1..]);
      var line := ParseLine(ts[1..]);
      if line.Ok? && At(line.rest, ')') {
        DropTokTexts(s, line.rest, 1);
        TextRedirs(s, line.rest[1..]);
        var redirs := ParseRedirs(line.rest[1..]);
        if redirs.Ok? {
          TextWrap(s, line.value, redirs.value);
        }
      }
    }
  }

  lemma {:induction false} TextPipe(s: string, ts: seq<Tok<Span>>)
    ensures SameCmd(s, ParsePipe(ts), ParsePipe(TokTexts(s, ts)))
    decreases |ts|, 2
  {
    hide TokTexts, ParseExec;
    TextExec(s, ts);
    var first := ParseExec(ts);
    if first.Ok? && At(first.rest, '|') {
      DropTokTexts(s, first.rest, 1);
      TextPipe(s, first.rest[1..]);
    }
  }

  lemma {:induction false} TextBacks(s: string, c: Cmd<Span>, ts: seq<Tok<Span>>)
    ensures SameCmd(s, ParseBacks(c, ts), ParseBacks(CmdText(s, c), TokTexts(s, ts)))
    decreases |ts|
  {
    hide TokTexts;
    if At(ts, '&') {
      DropTokTexts(s, ts, 1);
      TextBacks(s, Back(c), ts[1..]);
    }
  }

  lemma {:induction false} TextLine(s: string, ts: seq<Tok<Span>>)
    ensures SameCmd(s, ParseLine(ts), ParseLine(TokTexts(s, ts)))
    decreases |ts|, 3
  {
    hide TokTexts, ParsePipe, ParseBacks;
    TextPipe(s, ts);
    var first := ParsePipe(ts);
    if first.Ok? {
      TextBacks(s, first.value, first.rest);
      var backed := ParseBacks(first.value, first.rest);
      if At(backed.rest, ';') {
        DropTokTexts(s, backed.rest, 1);
        TextLine(s, backed.rest[1..]);
      }
    }
  }

  // ---------- Printing ----------

  predicate IsWord(w: string) {
    w != [] && forall i :: 0 <= i < |w| ==> InWord(w[i]) && w[i] != '\0'
  }

  function ShowTok(t: Tok<string>): string {
    match t
    case Sym(c) => if c == '+' then ">>" else [c]
    case Word(w) => w
  }

  predicate GoodTok(t: Tok<string>) {
    if t.Sym? then IsTokenSymbol(t.c) else IsWord(t.w)
  }

  predicate Showable(ts: seq<Tok<string>>) {
    forall t :: t in ts ==> GoodTok(t)
  }

  // Each token after a space.
  function Show(ts: seq<Tok<string>>): string {
    if ts == [] then [] else " " + ShowTok(ts[0]) + Show(ts[1..])
  }

  lemma WordEndIs(s: string, p: nat, q: nat)
    requires p <= q <= |s| && (forall i :: p <= i < q ==> InWord(s[i])) && (q < |s| ==> !InWord(s[q]))
    ensures WordEnd(s, p) == q
  {
  }

  lemma TokShown(s: string, q: nat, e: nat, t: Tok<string>)
    requires q <= e <= |s| && s[q..e] == ShowTok(t) && GoodTok(t) && (e < |s| ==> s[e] == ' ')
    ensures q < e && !IsSpace(s[q]) && TokEnd(s, q) == e && TokText(s, TokAt(s, q)) == t
  {
    hide WordEnd;
    assert forall i :: q <= i < e ==> s[i] == ShowTok(t)[i - q];
    if t.Word? {
      WordEndIs(s, q, e);
    }
  }

  // A token that stands between spaces is read back.
  lemma LexShownTok(s: string, p: nat, t: Tok<string>, rest: string)
    requires p <= |s| && s[p..] == " " + ShowTok(t) + rest && GoodTok(t)
    requires rest == [] || rest[0] == ' '
    ensures var e := p + 1 + |ShowTok(t)|;
            e <= |s| && s[e..] == rest && p < e && Lex(s, p) != [] && Lex(s, p)[1..] == Lex(s, e)
              && TokText(s, Lex(s, p)[0]) == t
  {
    hide WordEnd, Lex, ShowTok, GoodTok, TokText, TokAt, TokEnd;
    var x, e := ShowTok(t), p + 1 + |ShowTok(t)|;
    assert |s| == e + |rest|;
    assert s[p] == s[p..][0] && s[p + 1..e] == s[p..][1..1 + |x|] == x && s[e..] == s[p..][1 + |x|..] == rest;
    TokShown(s, p + 1, e, t);
    assert SkipSpaces(s, p) == p + 1 by {
      assert SkipSpaces(s, p + 1) == p + 1;
    }
    LexSkips(s, p);
  }

  lemma ShowEmpty()
    ensures Show([]) == []
  {
  }

  lemma ShowCons(ts: seq<Tok<string>>)
    requires ts != [] && Showable(ts)
    ensures Show(ts) == " " + ShowTok(ts[0]) + Show(ts[1..])
    ensures Show(ts[1..]) == [] || Show(ts[1..])[0] == ' '
    ensures GoodTok(ts[0]) && Showable(ts[1..])
  {
    hide ShowTok, GoodTok;
  }

  lemma {:induction false} LexShow(s: string, p: nat, ts: seq<Tok<string>>)
    requires p <= |s| && s[p..] == Show(ts) && Showable(ts)
    ensures TokTexts(s, Lex(s, p)) == ts
    decreases ts
  {
    hide ShowTok, Lex, TokText, TokTexts, Show, Showable;
    if ts == [] {
      assert Show(ts) == [] && SkipSpaces(s, p) == |s| by { ShowEmpty(); }
      LexSkips(s, p);
    } else {
      ShowCons(ts);
      LexShownTok(s, p, ts[0], Show(ts[1..]));
      LexShow(s, p + 1 + |ShowTok(ts[0])|, ts[1..]);
      var all := Lex(s, p);
      DropTokTexts(s, all, 1);
      assert ts == [ts[0]] + ts[1..];
      assert TokTexts(s, all) == [TokTexts(s, all)[0]] + TokTexts(s, all)[1..];
    }
  }

  // Every tree of at most nine words in a command, with redirections of one of the three kinds.
  predicate Printable(c: Cmd<string>) {
    match c
    case Exec(argv) => |argv| < MAXARGS && forall i :: 0 <= i < |argv| ==> IsWord(argv[i])
    case Redir(sub, file, mode, fd) => Printable(sub) && IsWord(file) && mode == Mode(OpOf(mode))
      && fd == Fd(OpOf(mode))
    case Pipe(l, r) => Printable(l) && Printable(r)
    case List(l, r) => Printable(l) && Printable(r)
    case Back(sub) => Printable(sub)
  }

  function OpOf(mode: int): char {
    if mode == Mode('<') then '<' else if mode == Mode('>') then '>' else '+'
  }

  function Bare(argv: seq<string>): (args: seq<Arg<string>>)
    ensures |args| == |argv| && forall i :: 0 <= i < |argv| ==> args[i] == Arg(argv[i], [])
  {
    if argv == [] then [] else [Arg(argv[0], [])] + Bare(argv[1..])
  }

  // The tree as a sentence, with each subtree in parentheses.
  function Sentence(c: Cmd<string>): Line<string> {
    match c
    case Exec(argv) => Last(Single(Plain([], Bare(argv))), 0)
    case Redir(sub, file, mode, fd) => Last(Single(Block(Sentence(sub), [Arrow(OpOf(mode), file)])), 0)
    case Pipe(l, r) => Last(Bar(Block(Sentence(l), []), Single(Block(Sentence(r), []))), 0)
    case List(l, r) => Then(Single(Block(Sentence(l), [])), 0, Last(Single(Block(Sentence(r), [])), 0))
    case Back(sub) => Last(Single(Block(Sentence(sub), [])), 1)
  }

  // The parenthesising printer.
  function Print(c: Cmd<string>): string {
    Show(SpellLine(Sentence(c)))
  }

  // What is written for any tokens is read back as those tokens.
  lemma ShownSentence(l: Line<string>) returns (parsed: Cmd<Span>)
    requires GoodLine(l) && Showable(SpellLine(l))
    ensures var s := Show(SpellLine(l));
            ParseAll(Lex(s, 0)) == Ok(parsed, []) && CmdText(s, parsed) == MeansLine(l)
  {
    hide Lex, Show, SpellLine, MeansLine, GoodLine, ParseLine, Showable, TokTexts;
    var ts := SpellLine(l);
    var s := Show(ts);
    LexShow(s, 0, ts);
    var places := Lex(s, 0);
    LineComplete(l, []);
    assert ts + [] == ts;
    TextLine(s, places);
    parsed := ParseLine(places).value;
    assert |TokTexts(s, ParseLine(places).rest)| == 0;
  }

  lemma {:induction false} BareArgs(argv: seq<string>)
    requires forall i :: 0 <= i < |argv| ==> IsWord(argv[i])
    ensures GoodArgs(Bare(argv)) && Argv(Bare(argv)) == argv && Arrows(Bare(argv)) == []
    ensures Showable(SpellArgs(Bare(argv)))
  {
    hide IsWord;
    if argv != [] {
      var rest := argv[1..];
      BareArgs(rest);
      assert Bare(argv) == [Arg(argv[0], [])] + Bare(rest);
      ArgsCons(Arg(argv[0], []), Bare(rest));
      assert argv == [argv[0]] + rest;
      assert SpellArrows<string>([]) == [];
    }
  }

  ghost predicate Reads(l: Line<string>, c: Cmd<string>) {
    GoodLine(l) && MeansLine(l) == c && Showable(SpellLine(l))
  }

  ghost predicate UnitReads(u: Unit<string>, c: Cmd<string>) {
    GoodUnit(u) && MeansUnit(u) == c && Showable(SpellUnit(u))
  }

  lemma BlockReads(l: Line<string>, c: Cmd<string>)
    requires Reads(l, c)
    ensures UnitReads(Block(l, []), c)
  {
    hide SpellLine, MeansLine, GoodLine;
    assert SpellArrows<string>([]) == [];
  }

  lemma RedirReads(l: Line<string>, c: Cmd<string>, a: Arrow<string>)
    requires Reads(l, c) && IsOp(a.op) && IsWord(a.file)
    ensures UnitReads(Block(l, [a]), Redir(c, a.file, Mode(a.op), Fd(a.op)))
  {
    hide SpellLine, MeansLine, GoodLine, IsWord, Mode, Fd;
    assert [a][0] == a && [a][1..] == [];
    assert SpellArrows([a]) == [Sym(a.op), Word(a.file)] + SpellArrows<string>([]);
    var inner := Redir(c, a.file, Mode(a.op), Fd(a.op));
    assert Wrap(inner, []) == inner;
  }

  lemma PlainReads(argv: seq<string>)
    requires |argv| < MAXARGS && forall i :: 0 <= i < |argv| ==> IsWord(argv[i])
    ensures UnitReads(Plain([], Bare(argv)), Exec(argv))
  {
    hide IsWord, SpellArgs, Argv, Arrows;
    BareArgs(argv);
    assert SpellArrows<string>([]) == [];
  }

  lemma NoBacks(p: Pipeline<string>)
    ensures SpellLine(Last(p, 0)) == SpellPipe(p) && MeansLine(Last(p, 0)) == MeansPipe(p)
  {
    hide SpellPipe, MeansPipe;
    var l := Last(p, 0);
    assert SpellLine(l) == SpellPipe(l.pipe) + Ampersands(l.backs) == SpellPipe(p);
    assert MeansLine(l) == Backed(MeansPipe(l.pipe), l.backs);
  }

  // One unit, two units joined, or one put into the background, as a line.
  lemma LineReads(u: Unit<string>, c: Cmd<string>, v: Unit<string>, d: Cmd<string>)
    requires UnitReads(u, c) && UnitReads(v, d)
    ensures Reads(Last(Single(u), 0), c)
    ensures Reads(Last(Single(u), 1), Back(c))
    ensures Reads(Last(Bar(u, Single(v)), 0), Pipe(c, d))
    ensures Reads(Then(Single(u), 0, Last(Single(v), 0)), List(c, d))
  {
    hide SpellUnit, MeansUnit, GoodUnit;
    NoBacks(Single(u));
    NoBacks(Single(v));
    NoBacks(Bar(u, Single(v)));
    assert SpellPipe(Single(u)) == SpellUnit(u) && GoodPipe(Single(u)) && GoodPipe(Single(v));
    assert SpellPipe(Bar(u, Single(v))) == SpellUnit(u) + [Sym('|')] + SpellUnit(v) && GoodPipe(Bar(u, Single(v)));
    assert Ampersands<string>(1) == [Sym('&')] + Ampersands<string>(0);
    assert Backed(c, 1) == Backed(Back(c), 0);
    var both := Then(Single(u), 0, Last(Single(v), 0));
    assert SpellLine(both) == SpellUnit(u) + [Sym(';')] + SpellUnit(v);
    assert MeansLine(both) == List(c, d) && GoodLine(both.more);
  }

  lemma {:induction false} SentenceMeans(c: Cmd<string>)
    requires Printable(c)
    ensures Reads(Sentence(c), c)
  {
    hide Reads, UnitReads, IsWord;
    match c
    case Exec(argv) =>
      PlainReads(argv);
      var u := Plain([], Bare(argv));
      LineReads(u, c, u, c);
    case Redir(sub, file, mode, fd) =>
      SentenceMeans(sub);
      RedirReads(Sentence(sub), sub, Arrow(OpOf(mode), file));
      var u := Block(Sentence(sub), [Arrow(OpOf(mode), file)]);
      LineReads(u, c, u, c);
    case Pipe(l, r) =>
      SentenceMeans(l);
      SentenceMeans(r);
      BlockReads(Sentence(l), l);
      BlockReads(Sentence(r), r);
      LineReads(Block(Sentence(l), []), l, Block(Sentence(r), []), r);
    case List(l, r) =>
      SentenceMeans(l);
      SentenceMeans(r);
      BlockReads(Sentence(l), l);
      BlockReads(Sentence(r), r);
      LineReads(Block(Sentence(l), []), l, Block(Sentence(r), []), r);
    case Back(sub) =>
      SentenceMeans(sub);
      BlockReads(Sentence(sub), sub);
      LineReads(Block(Sentence(sub), []), sub, Block(Sentence(sub), []), sub);
  }

  lemma {:induction false} ShowNoNul(ts: seq<Tok<string>>)
    requires Showable(ts)
    ensures '\0' !in Show(ts)
  {
    if ts != [] {
      var t := ts[0];
      assert t in ts && GoodTok(t);
      assert '\0' !in ShowTok(t);
      ShowNoNul(ts[1..]);
    }
  }

  // parsecmd undoes the printer.
  lemma ParsesPrinted(c: Cmd<string>) returns (parsed: Cmd<Span>)
    requires Printable(c)
    ensures '\0' !in Print(c)
    ensures ParseAll(Lex(Print(c), 0)) == Ok(parsed, []) && CmdText(Print(c), parsed) == c
  {
    hide Lex, Show, ParseLine;
    SentenceMeans(c);
    ShowNoNul(SpellLine(Sentence(c)));
    parsed := ShownSentence(Sentence(c));
  }

  // ---------- What a parsed tree is made of ----------

  // Its words are whole words of the line, at most nine in a command, and its redirections are of
  // the three kinds.
  ghost predicate Whole(s: string, c: Cmd<Span>) {
    match c
    case Exec(argv) => |argv| < MAXARGS && forall i :: 0 <= i < |argv| ==> WholeWord(s, argv[i])
    case Redir(sub, file, mode, fd) =>
      Whole(s, sub) && WholeWord(s, file) && mode == Mode(OpOf(mode)) && fd == Fd(OpOf(mode))
    case Pipe(l, r) => Whole(s, l) && Whole(s, r)
    case List(l, r) => Whole(s, l) && Whole(s, r)
    case Back(sub) => Whole(s, sub)
  }

  ghost predicate WholeWords(s: string, ts: seq<Tok<Span>>) {
    forall t :: t in ts && t.Word? ==> WholeWord(s, t.w)
  }

  ghost predicate WholeArrows(s: string, arrows: seq<Arrow<Span>>) {
    forall i :: 0 <= i < |arrows| ==> IsOp(arrows[i].op) && WholeWord(s, arrows[i].file)
  }

  lemma {:induction false} WholeWrap(s: string, c: Cmd<Span>, arrows: seq<Arrow<Span>>)
    requires Whole(s, c) && WholeArrows(s, arrows)
    ensures Whole(s, Wrap(c, arrows))
    decreases arrows
  {
    hide WholeWord;
    if arrows != [] {
      var a := arrows[0];
      WholeWrap(s, Redir(c, a.file, Mode(a.op), Fd(a.op)), arrows[1..]);
    }
  }

  lemma {:induction false} WholeRedirs(s: string, arrows: seq<Arrow<Span>>)
    requires GoodArrows(arrows) && WholeWords(s, SpellArrows(arrows))
    ensures WholeArrows(s, arrows)
  {
    hide WholeWord;
    if arrows != [] {
      var ts := SpellArrows(arrows);
      assert ts[1] == Word(arrows[0].file) && ts[1] in ts;
      assert ts == [ts[0], ts[1]] + SpellArrows(arrows[1..]);
      WholeRedirs(s, arrows[1..]);
      assert forall i :: 1 <= i < |arrows| ==> arrows[i] == arrows[1..][i - 1];
    }
  }

  lemma {:induction false} WholeArgs(s: string, args: seq<Arg<Span>>)
    requires GoodArgs(args) && WholeWords(s, SpellArgs(args))
    ensures WholeArrows(s, Arrows(args)) && forall i :: 0 <= i < |args| ==> WholeWord(s, Argv(args)[i])
  {
    hide WholeWord, SpellArrows, GoodArrows;
    if args != [] {
      var ts, first := SpellArgs(args), SpellArrows(args[0].arrows);
      assert ts == [Word(args[0].w)] + first + SpellArgs(args[1..]);
      assert ts[0] in ts && forall t :: t in first || t in SpellArgs(args[1..]) ==> t in ts;
      WholeRedirs(s, args[0].arrows);
      WholeArgs(s, args[1..]);
    }
  }

  lemma WordsOfParts(s: string, a: seq<Tok<Span>>, b: seq<Tok<Span>>)
    ensures WholeWords(s, a + b) <==> WholeWords(s, a) && WholeWords(s, b)
  {
    hide WholeWord;
    assert forall t :: t in a + b <==> t in a || t in b;
  }

  lemma {:induction false} WholeUnit(s: string, u: Unit<Span>)
    requires GoodUnit(u) && WholeWords(s, SpellUnit(u))
    ensures Whole(s, MeansUnit(u))
    decreases u, 0
  {
    hide WholeWords, SpellArrows, SpellArgs, SpellLine, GoodArrows, GoodArgs, GoodLine, WholeWord;
    match u
    case Plain(arrows, args) =>
      WordsOfParts(s, SpellArrows(arrows), SpellArgs(args));
      WholeRedirs(s, arrows);
      WholeArgs(s, args);
      WholeWrap(s, Exec(Argv(args)), arrows + Arrows(args));
    case Block(line, arrows) =>
      WordsOfParts(s, [Sym('(')] + SpellLine(line) + [Sym(')')], SpellArrows(arrows));
      WordsOfParts(s, [Sym('(')] + SpellLine(line), [Sym(')')]);
      WordsOfParts(s, [Sym('(')], SpellLine(line));
      WholeLine(s, line);
      WholeRedirs(s, arrows);
      WholeWrap(s, MeansLine(line), arrows);
  }

  lemma {:induction false} WholePipe(s: string, p: Pipeline<Span>)
    requires GoodPipe(p) && WholeWords(s, SpellPipe(p))
    ensures Whole(s, MeansPipe(p))
    decreases p, 0
  {
    hide WholeWords, SpellUnit, GoodUnit, MeansUnit, WholeWord;
    if p.Bar? {
      WordsOfParts(s, SpellUnit(p.unit) + [Sym('|')], SpellPipe(p.more));
      WordsOfParts(s, SpellUnit(p.unit), [Sym('|')]);
      WholePipe(s, p.more);
    }
    WholeUnit(s, p.unit);
  }

  lemma {:induction false} WholeBacked(s: string, c: Cmd<Span>, n: nat)
    requires Whole(s, c)
    ensures Whole(s, Backed(c, n))
    decreases n
  {
    hide WholeWord;
    if n > 0 {
      WholeBacked(s, Back(c), n - 1);
    }
  }

  lemma {:induction false} WholeLine(s: string, l: Line<Span>)
    requires GoodLine(l) && WholeWords(s, SpellLine(l))
    ensures Whole(s, MeansLine(l))
    decreases l, 0
  {
    hide WholeWords, SpellPipe, GoodPipe, MeansPipe, Ampersands, Backed, WholeWord;
    if l.Then? {
      WordsOfParts(s, SpellPipe(l.pipe) + Ampersands(l.backs) + [Sym(';')], SpellLine(l.more));
      WordsOfParts(s, SpellPipe(l.pipe) + Ampersands(l.backs), [Sym(';')]);
      WholeLine(s, l.more);
    }
    WordsOfParts(s, SpellPipe(l.pipe), Ampersands(l.backs));
    WholePipe(s, l.pipe);
    WholeBacked(s, MeansPipe(l.pipe), l.backs);
  }

  lemma ParsedIsWhole(s: string, c: Cmd<Span>)
    requires ParseAll(Lex(s, 0)) == Ok(c, [])
    ensures Whole(s, c)
  {
    hide Lex, ParseLine, SpellLine, GoodLine, MeansLine, Whole, WholeWord;
    LexGives(s, 0);
    var l := LineSound(Lex(s, 0));
    assert Lex(s, 0) == SpellLine(l) + [] == SpellLine(l);
    WholeLine(s, l);
  }

  lemma WholeText(s: string, w: Span)
    requires WholeWord(s, w) && '\0' !in s
    ensures IsWord(TextOf(s, w))
  {
  }

  lemma {:induction false} WholeIsPrintable(s: string, c: Cmd<Span>)
    requires Whole(s, c) && '\0' !in s
    ensures Printable(CmdText(s, c))
  {
    hide WholeWord, IsWord, TextOf;
    match c
    case Exec(argv) =>
      forall i | 0 <= i < |argv|
        ensures IsWord(TextOf(s, argv[i]))
      {
        WholeText(s, argv[i]);
      }
    case Redir(sub, file, mode, fd) =>
      WholeIsPrintable(s, sub);
      WholeText(s, file);
    case Pipe(l, r) =>
      WholeIsPrintable(s, l);
      WholeIsPrintable(s, r);
    case List(l, r) =>
      WholeIsPrintable(s, l);
      WholeIsPrintable(s, r);
    case Back(sub) =>
      WholeIsPrintable(s, sub);
  }

  // The printable trees are exactly those that some command line is parsed to.
  lemma PrintableIffParsed(c: Cmd<string>)
    ensures Printable(c) <==>
            exists s: string, parsed :: '\0' !in s && ParseAll(Lex(s, 0)) == Ok(parsed, []) && CmdText(s, parsed) == c
  {
    hide Printable, CmdText, Lex, ParseAll, Print;
    if Printable(c) {
      var parsed := ParsesPrinted(c);
    }
    if s: string, parsed :| '\0' !in s && ParseAll(Lex(s, 0)) == Ok(parsed, []) && CmdText(s, parsed) == c {
      ParsedIsWhole(s, parsed);
      WholeIsPrintable(s, parsed);
    }
  }
}
