/** The parser of user/sh.c over the command line in memory: a cursor that gettoken and peek move,
  * the recursive descent, and nulterminate, which writes NULs into the line. */
module ShellParser {
  import opened CStrings
  import opened ShellGrammar
  import opened ShellLexer

  datatype Outcome<T> = Parsed(value: T) | Panic(message: string)

  // A method did what the parser over tokens does.
  ghost predicate Agrees<T>(spec: Result<T, Span>, outcome: Outcome<T>, left: seq<Tok<Span>>) {
    match spec
    case Bad(m) => outcome == Panic(m)
    case Ok(value, rest) => outcome == Parsed(value) && left == rest
  }

  // peek looks at the first character of the next token: '>' for ">>".
  predicate AtAny(ts: seq<Tok<Span>>, toks: string) {
    |ts| > 0 && ts[0].Sym? && (if ts[0].c == '+' then '>' else ts[0].c) in toks
  }

  predicate Symbols(toks: string) {
    forall c :: c in toks ==> IsSymbol(c)
  }

  lemma PeekSees(s: string, p: nat, toks: string)
    requires p <= |s| && Symbols(toks)
    ensures var q := SkipSpaces(s, p);
            AtAny(Lex(s, p), toks) <==> q < |s| && s[q] in toks
  {
    hide Lex;
    LexSkips(s, p);
  }

  // What gettoken returns for the next token.
  predicate Returned(ts: seq<Tok<Span>>, ret: char, q: nat, eq: nat) {
    if |ts| == 0 then ret == '\0'
    else if ts[0].Sym? then ret == ts[0].c && IsTokenSymbol(ret)
    else ret == 'a' && ts[0].w == Span(q, eq)
  }

  function Prepend<W>(first: seq<Arrow<W>>, r: Result<seq<Arrow<W>>, W>): Result<seq<Arrow<W>>, W> {
    match r
    case Bad(m) => Bad(m)
    case Ok(arrows, rest) => Ok(first + arrows, rest)
  }

  // One turn of parseredirs, after `first`.
  lemma RedirsTurn(first: seq<Arrow<Span>>, ts: seq<Tok<Span>>)
    ensures Prepend([], ParseRedirs(ts)) == ParseRedirs(ts)
    ensures AtAny(ts, "<>") <==> AtArrow(ts)
    ensures var r := Prepend(first, ParseRedirs(ts));
            if !AtArrow(ts) then r == Ok(first, ts)
            else if !AtWord(ts[1..]) then r == Bad("missing file for redirection")
            else r == Prepend(first + [Arrow(ts[0].c, ts[1].w)], ParseRedirs(ts[2..]))
  {
    assert ParseRedirs(ts).Ok? ==> [] + ParseRedirs(ts).value == ParseRedirs(ts).value;
    assert first + [] == first;
    if AtArrow(ts) && AtWord(ts[1..]) && ParseRedirs(ts[2..]).Ok? {
      var a, rest := Arrow(ts[0].c, ts[1].w), ParseRedirs(ts[2..]).value;
      assert first + ([a] + rest) == first + [a] + rest;
    }
  }

  function Extend<W>(first: Parts<W>, r: Result<Parts<W>, W>): Result<Parts<W>, W> {
    match r
    case Bad(m) => Bad(m)
    case Ok(parts, rest) => Ok(Parts(first.argv + parts.argv, first.arrows + parts.arrows), rest)
  }

  // One turn of the loop of parseexec, after `first`.
  lemma ArgsTurn(first: Parts<Span>, ts: seq<Tok<Span>>, argc: nat)
    ensures Extend(Parts([], []), ParseArgs(ts, argc)) == ParseArgs(ts, argc)
    ensures AtAny(ts, "|)&;") || ts == [] <==> AtStop(ts)
    ensures var r := Extend(first, ParseArgs(ts, argc));
            if AtStop(ts) then r == Ok(first, ts)
            else if !AtWord(ts) then r == Bad("syntax")
            else if argc + 1 >= MAXARGS then r == Bad("too many args")
            else
              match ParseRedirs(ts[1..])
              case Bad(m) => r == Bad(m)
              case Ok(arrows, more) =>
                r == Extend(Parts(first.argv + [ts[0].w], first.arrows + arrows), ParseArgs(more, argc + 1))
  {
    hide ParseRedirs;
    var r := ParseArgs(ts, argc);
    assert r.Ok? ==> [] + r.value.argv == r.value.argv && [] + r.value.arrows == r.value.arrows;
    assert first.argv + [] == first.argv && first.arrows + [] == first.arrows;
    if !AtStop(ts) && r.Ok? {
      hide ParseArgs;
      ArgsStep(ts, argc);
      var arrows := ParseRedirs(ts[1..]).value;
      var more := ParseArgs(ParseRedirs(ts[1..]).rest, argc + 1).value;
      assert first.argv + ([ts[0].w] + more.argv) == first.argv + [ts[0].w] + more.argv;
      assert first.arrows + (arrows + more.arrows) == first.arrows + arrows + more.arrows;
    }
  }

  const NULL := -1

  // The words of an exec node: up to the first null pointer.
  function Words(argv: seq<int>, eargv: seq<int>): seq<Span>
    requires |argv| == |eargv|
  {
    if argv == [] || argv[0] < 0 || eargv[0] < 0 then []
    else [Span(argv[0], eargv[0])] + Words(argv[1..], eargv[1..])
  }

  lemma {:induction false} WordsAre(argv: seq<int>, eargv: seq<int>, words: seq<Span>)
    requires |argv| == |eargv| && |words| < |argv| && argv[|words|] == NULL
    requires forall i :: 0 <= i < |words| ==> argv[i] == words[i].start && eargv[i] == words[i].end
    ensures Words(argv, eargv) == words
    decreases words
  {
    if words != [] {
      WordsAre(argv[1..], eargv[1..], words[1..]);
      assert words == [words[0]] + words[1..];
    }
  }

  class Parser {
    const buf: array<char>
    const es: nat
    var ps: nat

    ghost predicate Valid()
      reads this, buf
    {
      es < buf.Length && buf[es] == '\0' && '\0' !in buf[..es] && ps <= es
    }

    ghost function Line(): string
      requires es <= buf.Length
      reads buf
    {
      buf[..es]
    }

    // The tokens not yet consumed.
    ghost function Left(): seq<Tok<Span>>
      requires Valid()
      reads this, buf
    {
      Lex(Line(), ps)
    }

    constructor (buf: array<char>, es: nat)
      requires es < buf.Length && buf[es] == '\0' && '\0' !in buf[..es]
      ensures this.buf == buf && this.es == es && ps == 0 && Valid()
    {
      this.buf, this.es, ps := buf, es, 0;
    }

    // while(s < es && strchr(whitespace, *s)) s++
    method Skip(from: nat) returns (s: nat)
      requires Valid() && from <= es
      ensures s == SkipSpaces(Line(), from)
    {
      s := from;
      while s < es && IsSpace(buf[s])
        invariant from <= s <= es && SkipSpaces(Line(), s) == SkipSpaces(Line(), from)
      {
        s := s + 1;
      }
    }

    // peek
    method Peek(toks: string) returns (found: bool)
      requires Valid() && Symbols(toks)
      modifies this`ps
      ensures Valid() && Left() == old(Left())
      ensures found <==> AtAny(Left(), toks)
      ensures ps == es <==> Left() == []
    {
      hide Lex, SkipSpaces;
      LexSkips(Line(), ps);
      PeekSees(Line(), ps, toks);
      ps := Skip(ps);
      assert ps < es ==> Line()[ps] == buf[ps] && buf[ps] in buf[..es];
      found := buf[ps] != '\0' && buf[ps] in toks;
    }

    // gettoken
    method GetToken() returns (ret: char, q: nat, eq: nat)
      requires Valid()
      modifies this`ps
      ensures Valid() && Returned(old(Left()), ret, q, eq)
      ensures Left() == if old(Left()) == [] then [] else old(Left())[1..]
    {
      hide Lex, SkipSpaces, WordEnd;
      ghost var line := Line();
      LexSkips(line, ps);
      var s := Skip(ps);
      q := s;
      ret := buf[s];
      assert s < es ==> line[s] == buf[s] && buf[s] in buf[..es];
      if ret == '\0' {
      } else if ret == '|' || ret == '(' || ret == ')' || ret == ';' || ret == '&' || ret == '<' {
        s := s + 1;
      } else if ret == '>' {
        s := s + 1;
        assert s < es ==> line[s] == buf[s];
        if buf[s] == '>' {
          ret := '+';
          s := s + 1;
        }
      } else {
        ret := 'a';
        s := ScanWord(s);
      }
      eq := s;
      LexSkips(line, s);
      ps := Skip(s);
    }

    // while(s < es && !strchr(whitespace, *s) && !strchr(symbols, *s)) s++
    method ScanWord(from: nat) returns (s: nat)
      requires Valid() && from <= es
      ensures s == WordEnd(Line(), from)
    {
      s := from;
      while s < es && !IsSpace(buf[s]) && !IsSymbol(buf[s])
        invariant from <= s <= es && WordEnd(Line(), s) == WordEnd(Line(), from)
      {
        s := s + 1;
      }
    }

    // parseredirs, without the node that the redirections wrap
    method ParseRedirs() returns (r: Outcome<seq<Arrow<Span>>>)
      requires Valid()
      modifies this`ps
      ensures Valid() && Agrees(ShellGrammar.ParseRedirs(old(Left())), r, Left())
    {
      hide ShellGrammar.ParseRedirs, Prepend, Left;
      var arrows := [];
      ghost var all := Left();
      RedirsTurn(arrows, all);
      while true
        invariant Valid()
        invariant ShellGrammar.ParseRedirs(all) == Prepend(arrows, ShellGrammar.ParseRedirs(Left()))
        decreases |Left()|
      {
        ghost var ts := Left();
        RedirsTurn(arrows, ts);
        var more := Peek("<>");
        if !more {
          return Parsed(arrows);
        }
        var tok, _, _ := GetToken();
        var file, q, eq := GetToken();
        if file != 'a' {
          return Panic("missing file for redirection");
        }
        arrows := arrows + [Arrow(tok, Span(q, eq))];
      }
    }

    // The loop of parseexec, which fills the arrays of the exec node.
    method ParseArgs(argv: array<int>, eargv: array<int>) returns (r: Outcome<Parts<Span>>)
      requires Valid() && argv != eargv && argv.Length == eargv.Length == MAXARGS
      modifies this`ps, argv, eargv
      ensures Valid() && Agrees(ShellGrammar.ParseArgs(old(Left()), 0), r, Left())
      ensures r.Parsed? ==> Words(argv[..], eargv[..]) == r.value.argv
    {
      hide ShellGrammar.ParseRedirs, ShellGrammar.ParseArgs, Extend, Left, Lex, AtAny, Words;
      var argc := 0;
      ghost var start := Left();
      var arrows := [];
      ghost var words := [];
      ArgsTurn(Parts(words, arrows), start, 0);
      while true
        invariant Valid()
        invariant 0 <= argc < MAXARGS && argc == |words|
        invariant forall i :: 0 <= i < argc ==> argv[i] == words[i].start && eargv[i] == words[i].end
        invariant ShellGrammar.ParseArgs(start, 0) == Extend(Parts(words, arrows), ShellGrammar.ParseArgs(Left(), argc))
        decreases |Left()|
      {
        ghost var ts := Left();
        ArgsTurn(Parts(words, arrows), ts, argc);
        var stop := Peek("|)&;");
        if stop {
          break;
        }
        var tok, q, eq := GetToken();
        if tok == '\0' {
          break;
        }
        if tok != 'a' {
          return Panic("syntax");
        }
        argv[argc], eargv[argc] := q, eq;
        argc := argc + 1;
        if argc >= MAXARGS {
          return Panic("too many args");
        }
        var more := ParseRedirs();
        if more.Panic? {
          return Panic(more.message);
        }
        arrows := arrows + more.value;
        words := words + [Span(q, eq)];
      }
      argv[argc], eargv[argc] := NULL, NULL;
      WordsAre(argv[..], eargv[..], words);
      return Parsed(Parts(Words(argv[..], eargv[..]), arrows));
    }

    // parseexec
    method ParseExec() returns (r: Outcome<Cmd<Span>>)
      requires Valid()
      modifies this`ps
      ensures Valid() && Agrees(ShellGrammar.ParseExec(old(Left())), r, Left())
      decreases |Left()|, 1
    {
      hide ShellGrammar.ParseRedirs, ShellGrammar.ParseBlock, ShellGrammar.ParseArgs, Left, Wrap, Lex;
      var block := Peek("(");
      if block {
        r := ParseBlock();
        return;
      }
      var argv := new int[MAXARGS](_ => NULL);
      var eargv := new int[MAXARGS](_ => NULL);
      var redirs := ParseRedirs();
      if redirs.Panic? {
        return Panic(redirs.message);
      }
      var args := ParseArgs(argv, eargv);
      if args.Panic? {
        return Panic(args.message);
      }
      return Parsed(Wrap(Exec(Words(argv[..], eargv[..])), redirs.value + args.value.arrows));
    }

    // parseblock
    method ParseBlock() returns (r: Outcome<Cmd<Span>>)
      requires Valid()
      modifies this`ps
      ensures Valid() && Agrees(ShellGrammar.ParseBlock(old(Left())), r, Left())
      decreases |Left()|, 0
    {
      hide ShellGrammar.ParseRedirs, ShellGrammar.ParseLine, Left, Wrap, Lex;
      var open := Peek("(");
      if !open {
        return Panic("parseblock");
      }
      var _, _, _ := GetToken();
      var line := ParseLine();
      if line.Panic? {
        return line;
      }
      var close := Peek(")");
      if !close {
        return Panic("syntax - missing )");
      }
      var _, _, _ := GetToken();
      var redirs := ParseRedirs();
      if redirs.Panic? {
        return Panic(redirs.message);
      }
      return Parsed(Wrap(line.value, redirs.value));
    }

    // parsepipe
    method ParsePipe() returns (r: Outcome<Cmd<Span>>)
      requires Valid()
      modifies this`ps
      ensures Valid() && Agrees(ShellGrammar.ParsePipe(old(Left())), r, Left())
      decreases |Left()|, 2
    {
      hide ShellGrammar.ParseExec, Left, Lex;
      r := ParseExec();
      if r.Panic? {
        return;
      }
      var bar := Peek("|");
      if bar {
        var _, _, _ := GetToken();
        var right := ParsePipe();
        if right.Panic? {
          return right;
        }
        r := Parsed(Pipe(r.value, right.value));
      }
    }

    // parseline
    method ParseLine() returns (r: Outcome<Cmd<Span>>)
      requires Valid()
      modifies this`ps
      ensures Valid() && Agrees(ShellGrammar.ParseLine(old(Left())), r, Left())
      decreases |Left()|, 3
    {
      hide ShellGrammar.ParsePipe, Left, Lex;
      ghost var all := Left();
      r := ParsePipe();
      if r.Panic? {
        return;
      }
      var cmd := r.value;
      ghost var first := ShellGrammar.ParsePipe(all);
      var ampersand := Peek("&");
      while ampersand
        invariant Valid() && |Left()| <= |all|
        invariant ampersand <==> AtAny(Left(), "&")
        invariant ParseBacks(cmd, Left()) == ParseBacks(first.value, first.rest)
        decreases |Left()|
      {
        var _, _, _ := GetToken();
        cmd := Back(cmd);
        ampersand := Peek("&");
      }
      var semicolon := Peek(";");
      if semicolon {
        var _, _, _ := GetToken();
        var right := ParseLine();
        if right.Panic? {
          return right;
        }
        return Parsed(List(cmd, right.value));
      }
      return Parsed(cmd);
    }
  }

  // ---------- nulterminate ----------

  ghost function SetOf(ws: seq<Span>): set<Span> {
    set w | w in ws
  }

  // The words and files of a tree.
  ghost function WordsIn(c: Cmd<Span>): set<Span> {
    match c
    case Exec(argv) => SetOf(argv)
    case Redir(sub, file, _, _) => WordsIn(sub) + {file}
    case Pipe(l, r) => WordsIn(l) + WordsIn(r)
    case List(l, r) => WordsIn(l) + WordsIn(r)
    case Back(sub) => WordsIn(sub)
  }

  ghost predicate IsEnd(words: set<Span>, i: nat) {
    exists w :: w in words && w.end == i
  }

  // `mem` with a NUL at the end of each of the words.
  ghost predicate Terminated(words: set<Span>, was: string, mem: string) {
    |mem| == |was| && forall i :: 0 <= i < |mem| ==> mem[i] == if IsEnd(words, i) then '\0' else was[i]
  }

  lemma TerminatedBoth(a: set<Span>, b: set<Span>, was: string, mid: string, mem: string)
    requires Terminated(a, was, mid) && Terminated(b, mid, mem)
    ensures Terminated(a + b, was, mem)
  {
    assert forall i: nat :: IsEnd(a + b, i) <==> IsEnd(a, i) || IsEnd(b, i);
  }

  lemma TerminatedOne(w: Span, was: string)
    requires w.end < |was|
    ensures Terminated({w}, was, was[w.end := '\0'])
  {
    assert forall i: nat :: IsEnd({w}, i) <==> i == w.end by {
      assert w in {w};
    }
  }

  method NulTerminate(buf: array<char>, cmd: Cmd<Span>)
    requires forall w :: w in WordsIn(cmd) ==> w.end < buf.Length
    modifies buf
    ensures Terminated(WordsIn(cmd), old(buf[..]), buf[..])
    decreases cmd
  {
    hide Terminated;
    ghost var was := buf[..];
    match cmd
    case Exec(argv) =>
      NoneTerminated(was);
      assert SetOf(argv[..0]) == {};
      for i := 0 to |argv|
        invariant Terminated(SetOf(argv[..i]), was, buf[..])
      {
        ghost var mid := buf[..];
        assert argv[i] in WordsIn(cmd);
        buf[argv[i].end] := '\0';
        assert buf[..] == mid[argv[i].end := '\0'];
        TerminatedOne(argv[i], mid);
        TerminatedBoth(SetOf(argv[..i]), {argv[i]}, was, mid, buf[..]);
        assert SetOf(argv[..i + 1]) == SetOf(argv[..i]) + {argv[i]};
      }
      assert argv[..|argv|] == argv;
    case Redir(sub, file, _, _) =>
      NulTerminate(buf, sub);
      ghost var mid := buf[..];
      buf[file.end] := '\0';
      assert buf[..] == mid[file.end := '\0'];
      TerminatedOne(file, mid);
      TerminatedBoth(WordsIn(sub), {file}, was, mid, buf[..]);
    case Pipe(l, r) =>
      NulTerminate(buf, l);
      ghost var mid := buf[..];
      NulTerminate(buf, r);
      TerminatedBoth(WordsIn(l), WordsIn(r), was, mid, buf[..]);
    case List(l, r) =>
      NulTerminate(buf, l);
      ghost var mid := buf[..];
      NulTerminate(buf, r);
      TerminatedBoth(WordsIn(l), WordsIn(r), was, mid, buf[..]);
    case Back(sub) =>
      NulTerminate(buf, sub);
  }

  lemma NoneTerminated(was: string)
    ensures Terminated({}, was, was)
  {
  }

  lemma {:induction false} WholeWordsIn(line: string, c: Cmd<Span>)
    requires Whole(line, c)
    ensures forall w :: w in WordsIn(c) ==> WholeWord(line, w) && w.end <= |line|
  {
    match c
    case Exec(_) =>
    case Redir(sub, _, _, _) =>
      WholeWordsIn(line, sub);
    case Pipe(l, r) =>
      WholeWordsIn(line, l);
      WholeWordsIn(line, r);
    case List(l, r) =>
      WholeWordsIn(line, l);
      WholeWordsIn(line, r);
    case Back(sub) =>
      WholeWordsIn(line, sub);
  }

  // The NUL after one word is not inside another: each C string is the word that was scanned.
  lemma WordsStand(words: set<Span>, was: string, mem: string, line: string, w: Span)
    requires |line| < |was| && was[..|line|] == line && '\0' !in line
    requires forall v :: v in words ==> WholeWord(line, v)
    requires Terminated(words, was, mem) && w in words
    ensures w.start <= |mem| && CString(mem, w.start) == TextOf(line, w)
  {
    assert WholeWord(line, w) && IsEnd(words, w.end);
    assert mem[w.end] == '\0';
    forall i | w.start <= i < w.end
      ensures mem[i] == line[i] && mem[i] != '\0'
    {
      assert InWord(line[i]) && line[i] in line && was[i] == was[..|line|][i];
      forall v | v in words
        ensures v.end != i
      {
        assert WholeWord(line, v);
      }
    }
    assert mem[w.start..w.end] == line[w.start..w.end];
    CStringIs(mem, w.start, w.end);
  }

  // strlen
  method Strlen(buf: array<char>) returns (n: nat)
    requires '\0' in buf[..]
    ensures n < buf.Length && buf[n] == '\0' && '\0' !in buf[..n]
  {
    n := 0;
    while buf[n] != '\0'
      invariant n < buf.Length && '\0' !in buf[..n]
      decreases buf.Length - n
    {
      assert n + 1 < buf.Length by {
        var k :| 0 <= k < buf.Length && buf[k] == '\0';
        assert k < n ==> buf[k] in buf[..n];
      }
      n := n + 1;
    }
  }

  // What parsecmd promises for the command line that was in `was`.
  ghost predicate CmdParsed(was: string, r: Outcome<Cmd<Span>>, mem: string) {
    var line := CString(was, 0);
    match ParseAll(Lex(line, 0))
    case Bad(m) => r == Panic(m) && mem == was
    case Ok(cmd, _) =>
      && r == Parsed(cmd) && Whole(line, cmd)
      && Terminated(WordsIn(cmd), was, mem)
      && forall w :: w in WordsIn(cmd) ==> w.start <= |mem| && CString(mem, w.start) == TextOf(line, w)
  }

  // parsecmd
  method ParseCmd(buf: array<char>) returns (r: Outcome<Cmd<Span>>)
    requires '\0' in buf[..]
    modifies buf
    ensures CmdParsed(old(buf[..]), r, buf[..])
  {
    hide Lex, ParseLine, Terminated, Whole, WordsIn, WholeWord, TextOf;
    ghost var was := buf[..];
    var es := Strlen(buf);
    assert was[0..es] == buf[..es];
    CStringIs(was, 0, es);
    ghost var line := was[..es];
    var parser := new Parser(buf, es);
    assert parser.Line() == line;
    r := parser.ParseLine();
    if r.Panic? {
      return;
    }
    var _ := parser.Peek("");
    if parser.ps != es {
      return Panic("syntax");
    }
    ParsedIsWhole(line, r.value);
    WholeWordsIn(line, r.value);
    NulTerminate(buf, r.value);
    forall w | w in WordsIn(r.value)
      ensures w.start <= |buf[..]| && CString(buf[..], w.start) == TextOf(line, w)
    {
      WordsStand(WordsIn(r.value), was, buf[..], line, w);
    }
  }
}
