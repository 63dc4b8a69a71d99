/** The command language of user/sh.c over tokens: what its recursive-descent parser computes, the
  * grammar it decides, and the parenthesising printer it undoes.  A word is of any type `W`: the
  * text itself, or the place of the text in the command line. */
module ShellGrammar {
  const MAXARGS: nat := 10

  datatype Tok<W> = Sym(c: char) | Word(w: W)

  datatype Cmd<W> =
    | Exec(argv: seq<W>)
    | Redir(cmd: Cmd<W>, file: W, mode: int, fd: int)
    | Pipe(left: Cmd<W>, right: Cmd<W>)
    | List(left: Cmd<W>, right: Cmd<W>)
    | Back(cmd: Cmd<W>)

  // A redirection: '<', '>' or '+', which stands for ">>", and its file.
  datatype Arrow<W> = Arrow(op: char, file: W)

  predicate IsOp(c: char) {
    c == '<' || c == '>' || c == '+'
  }

  const O_RDONLY := 0x000
  const O_WRONLY := 0x001
  const O_CREATE := 0x200
  const O_TRUNC := 0x400

  function Mode(op: char): int {
    if op == '<' then O_RDONLY else if op == '>' then O_WRONLY + O_CREATE + O_TRUNC else O_WRONLY + O_CREATE
  }

  function Fd(op: char): int {
    if op == '<' then 0 else 1
  }

  // The first redirection is the innermost.
  function Wrap<W>(cmd: Cmd<W>, arrows: seq<Arrow<W>>): Cmd<W>
    decreases arrows
  {
    if arrows == [] then cmd
    else Wrap(Redir(cmd, arrows[0].file, Mode(arrows[0].op), Fd(arrows[0].op)), arrows[1..])
  }

  // ---------- The parser ----------

  predicate At<W>(ts: seq<Tok<W>>, c: char) {
    |ts| > 0 && ts[0].Sym? && ts[0].c == c
  }

  predicate AtWord<W>(ts: seq<Tok<W>>) {
    |ts| > 0 && ts[0].Word?
  }

  predicate AtArrow<W>(ts: seq<Tok<W>>) {
    At(ts, '<') || At(ts, '>') || At(ts, '+')
  }

  // What ends the words of a command.
  predicate AtStop<W>(ts: seq<Tok<W>>) {
    |ts| == 0 || At(ts, '|') || At(ts, ')') || At(ts, '&') || At(ts, ';')
  }

  datatype Result<T, W> = Ok(value: T, rest: seq<Tok<W>>) | Bad(message: string)

  // The arguments of a command and the redirections among them.
  datatype Parts<W> = Parts(argv: seq<W>, arrows: seq<Arrow<W>>)

  function ParseRedirs<W>(ts: seq<Tok<W>>): (r: Result<seq<Arrow<W>>, W>)
    ensures r.Ok? ==> |r.rest| <= |ts| && !AtArrow(r.rest)
  {
    if !AtArrow(ts) then Ok([], ts)
    else if !AtWord(ts[1..]) then Bad("missing file for redirection")
    else
      match ParseRedirs(ts[2..])
      case Bad(m) => Bad(m)
      case Ok(arrows, rest) => Ok([Arrow(ts[0].c, ts[1].w)] + arrows, rest)
  }

  // The loop of parseexec, with `argc` words already found.
  function ParseArgs<W>(ts: seq<Tok<W>>, argc: nat): (r: Result<Parts<W>, W>)
    ensures r.Ok? ==> |r.rest| <= |ts| && AtStop(r.rest)
    decreases |ts|
  {
    if AtStop(ts) then Ok(Parts([], []), ts)
    else if !AtWord(ts) then Bad("syntax")
    else if argc + 1 >= MAXARGS then Bad("too many args")
    else
      match ParseRedirs(ts[1..])
      case Bad(m) => Bad(m)
      case Ok(arrows, more) =>
        match ParseArgs(more, argc + 1)
        case Bad(m) => Bad(m)
        case Ok(parts, rest) => Ok(Parts([ts[0].w] + parts.argv, arrows + parts.arrows), rest)
  }

  function ParseExec<W>(ts: seq<Tok<W>>): (r: Result<Cmd<W>, W>)
    ensures r.Ok? ==> |r.rest| <= |ts|
    decreases |ts|, 1
  {
    if At(ts, '(') then ParseBlock(ts)
    else
      match ParseRedirs(ts)
      case Bad(m) => Bad(m)
      case Ok(arrows, more) =>
        match ParseArgs(more, 0)
        case Bad(m) => Bad(m)
        case Ok(parts, rest) => Ok(Wrap(Exec(parts.argv), arrows + parts.arrows), rest)
  }

  function ParseBlock<W>(ts: seq<Tok<W>>): (r: Result<Cmd<W>, W>)
    ensures r.Ok? ==> |r.rest| <= |ts|
    decreases |ts|, 0
  {
    if !At(ts, '(') then Bad("parseblock")
    else
      match ParseLine(ts[1..])
      case Bad(m) => Bad(m)
      case Ok(cmd, more) =>
        if !At(more, ')') then Bad("syntax - missing )")
        else
          match ParseRedirs(more[1..])
          case Bad(m) => Bad(m)
          case Ok(arrows, rest) => Ok(Wrap(cmd, arrows), rest)
  }

  function ParsePipe<W>(ts: seq<Tok<W>>): (r: Result<Cmd<W>, W>)
    ensures r.Ok? ==> |r.rest| <= |ts|
    decreases |ts|, 2
  {
    match ParseExec(ts)
    case Bad(m) => Bad(m)
    case Ok(cmd, more) =>
      if !At(more, '|') then Ok(cmd, more)
      else
        match ParsePipe(more[1..])
        case Bad(m) => Bad(m)
        case Ok(right, rest) => Ok(Pipe(cmd, right), rest)
  }

  // The loop of parseline over '&'.
  function ParseBacks<W>(cmd: Cmd<W>, ts: seq<Tok<W>>): (r: Result<Cmd<W>, W>)
    ensures r.Ok? && |r.rest| <= |ts|
    decreases |ts|
  {
    if At(ts, '&') then ParseBacks(Back(cmd), ts[1..]) else Ok(cmd, ts)
  }

  function ParseLine<W>(ts: seq<Tok<W>>): (r: Result<Cmd<W>, W>)
    ensures r.Ok? ==> |r.rest| <= |ts|
    decreases |ts|, 3
  {
    match ParsePipe(ts)
    case Bad(m) => Bad(m)
    case Ok(first, more) =>
      var backed := ParseBacks(first, more);
      if !At(backed.rest, ';') then backed
      else
        match ParseLine(backed.rest[1..])
        case Bad(m) => Bad(m)
        case Ok(right, rest) => Ok(List(backed.value, right), rest)
  }

  // parsecmd, before nulterminate.
  function ParseAll<W>(ts: seq<Tok<W>>): Result<Cmd<W>, W> {
    match ParseLine(ts)
    case Bad(m) => Bad(m)
    case Ok(cmd, rest) => if |rest| > 0 then Bad("syntax") else Ok(cmd, rest)
  }

  // ---------- The grammar ----------

  //   line   ::= pipe '&'* [';' line]
  //   pipe   ::= unit ['|' pipe]
  //   unit   ::= redir* (word redir*)*  |  '(' line ')' redir*
  datatype Arg<W> = Arg(w: W, arrows: seq<Arrow<W>>)
  datatype Unit<W> = Plain(arrows: seq<Arrow<W>>, args: seq<Arg<W>>) | Block(line: Line<W>, arrows: seq<Arrow<W>>)
  datatype Pipeline<W> = Single(unit: Unit<W>) | Bar(unit: Unit<W>, more: Pipeline<W>)
  datatype Line<W> = Last(pipe: Pipeline<W>, backs: nat) | Then(pipe: Pipeline<W>, backs: nat, more: Line<W>)

  // How it is written.
  function SpellArrows<W>(arrows: seq<Arrow<W>>): seq<Tok<W>> {
    if arrows == [] then [] else [Sym(arrows[0].op), Word(arrows[0].file)] + SpellArrows(arrows[1..])
  }

  function SpellArgs<W>(args: seq<Arg<W>>): seq<Tok<W>> {
    if args == [] then [] else [Word(args[0].w)] + SpellArrows(args[0].arrows) + SpellArgs(args[1..])
  }

  function SpellUnit<W>(u: Unit<W>): seq<Tok<W>> {
    match u
    case Plain(arrows, args) => SpellArrows(arrows) + SpellArgs(args)
    case Block(line, arrows) => [Sym('(')] + SpellLine(line) + [Sym(')')] + SpellArrows(arrows)
  }

  function SpellPipe<W>(p: Pipeline<W>): seq<Tok<W>> {
    match p
    case Single(u) => SpellUnit(u)
    case Bar(u, more) => SpellUnit(u) + [Sym('|')] + SpellPipe(more)
  }

  function Ampersands<W>(n: nat): seq<Tok<W>> {
    if n == 0 then [] else [Sym('&')] + Ampersands(n - 1)
  }

  function SpellLine<W>(l: Line<W>): seq<Tok<W>> {
    match l
    case Last(p, n) => SpellPipe(p) + Ampersands(n)
    case Then(p, n, more) => SpellPipe(p) + Ampersands(n) + [Sym(';')] + SpellLine(more)
  }

  // What it means.
  function Argv<W>(args: seq<Arg<W>>): (argv: seq<W>)
    ensures |argv| == |args|
  {
    if args == [] then [] else [args[0].w] + Argv(args[1..])
  }

  function Arrows<W>(args: seq<Arg<W>>): seq<Arrow<W>> {
    if args == [] then [] else args[0].arrows + Arrows(args[1..])
  }

  function MeansUnit<W>(u: Unit<W>): Cmd<W> {
    match u
    case Plain(arrows, args) => Wrap(Exec(Argv(args)), arrows + Arrows(args))
    case Block(line, arrows) => Wrap(MeansLine(line), arrows)
  }

  function MeansPipe<W>(p: Pipeline<W>): Cmd<W> {
    match p
    case Single(u) => MeansUnit(u)
    case Bar(u, more) => Pipe(MeansUnit(u), MeansPipe(more))
  }

  function Backed<W>(cmd: Cmd<W>, n: nat): Cmd<W>
    decreases n
  {
    if n == 0 then cmd else Backed(Back(cmd), n - 1)
  }

  function MeansLine<W>(l: Line<W>): Cmd<W> {
    match l
    case Last(p, n) => Backed(MeansPipe(p), n)
    case Then(p, n, more) => List(Backed(MeansPipe(p), n), MeansLine(more))
  }

  // Redirections use one of the three operators, and a command has at most nine words.
  predicate GoodArrows<W>(arrows: seq<Arrow<W>>) {
    forall i :: 0 <= i < |arrows| ==> IsOp(arrows[i].op)
  }

  predicate GoodArgs<W>(args: seq<Arg<W>>) {
    forall i :: 0 <= i < |args| ==> GoodArrows(args[i].arrows)
  }

  predicate GoodUnit<W>(u: Unit<W>) {
    match u
    case Plain(arrows, args) => GoodArrows(arrows) && GoodArgs(args) && |args| < MAXARGS
    case Block(line, arrows) => GoodLine(line) && GoodArrows(arrows)
  }

  predicate GoodPipe<W>(p: Pipeline<W>) {
    GoodUnit(p.unit) && (p.Bar? ==> GoodPipe(p.more))
  }

  predicate GoodLine<W>(l: Line<W>) {
    GoodPipe(l.pipe) && (l.Then? ==> GoodLine(l.more))
  }

  // ---------- Whatever is parsed is a sentence ----------

  lemma {:induction false} RedirsSound<W>(ts: seq<Tok<W>>)
    requires ParseRedirs(ts).Ok?
    ensures var r := ParseRedirs(ts); ts == SpellArrows(r.value) + r.rest && GoodArrows(r.value)
  {
    if AtArrow(ts) {
      RedirsSound(ts[2..]);
      var r := ParseRedirs(ts);
      assert r.value[1..] == ParseRedirs(ts[2..]).value;
      assert ts == [ts[0], ts[1]] + ts[2..];
    }
  }

  lemma NoArgs<W>()
    ensures SpellArgs<W>([]) == [] && Argv<W>([]) == [] && Arrows<W>([]) == [] && GoodArgs<W>([])
  {
  }

  lemma ArgsCons<W>(arg: Arg<W>, more: seq<Arg<W>>)
    ensures var args := [arg] + more;
            && SpellArgs(args) == [Word(arg.w)] + SpellArrows(arg.arrows) + SpellArgs(more)
            && Argv(args) == [arg.w] + Argv(more) && Arrows(args) == arg.arrows + Arrows(more)
            && (GoodArrows(arg.arrows) && GoodArgs(more) ==> GoodArgs(args))
  {
    hide SpellArrows, GoodArrows;
    assert ([arg] + more)[1..] == more;
  }

  lemma HeadThenTail<T>(ts: seq<T>, a: seq<T>, b: seq<T>, c: seq<T>)
    requires |ts| > 0 && ts[1..] == a + (b + c)
    ensures ts == [ts[0]] + a + b + c
  {
    assert ts == [ts[0]] + ts[1..];
  }

  lemma ArgsStep<W>(ts: seq<Tok<W>>, argc: nat)
    requires ParseArgs(ts, argc).Ok? && !AtStop(ts)
    ensures AtWord(ts) && argc + 1 < MAXARGS && ParseRedirs(ts[1..]).Ok?
    ensures var redirs := ParseRedirs(ts[1..]);
            var more := ParseArgs(redirs.rest, argc + 1);
            && more.Ok? && ParseArgs(ts, argc).rest == more.rest
            && ParseArgs(ts, argc).value == Parts([ts[0].w] + more.value.argv, redirs.value + more.value.arrows)
  {
    hide ParseRedirs, AtStop, AtWord;
  }

  lemma {:induction false} ArgsSound<W>(ts: seq<Tok<W>>, argc: nat) returns (args: seq<Arg<W>>)
    requires ParseArgs(ts, argc).Ok?
    ensures var r := ParseArgs(ts, argc);
            && ts == SpellArgs(args) + r.rest && GoodArgs(args)
            && r.value == Parts(Argv(args), Arrows(args))
            && (argc < MAXARGS ==> argc + |args| < MAXARGS)
    decreases |ts|
  {
    hide ParseRedirs, SpellArrows, SpellArgs, Argv, Arrows, GoodArrows, GoodArgs;
    if AtStop(ts) {
      args := [];
      NoArgs<W>();
      assert ParseArgs(ts, argc) == Ok(Parts([], []), ts);
    } else {
      hide ParseArgs;
      ArgsStep(ts, argc);
      var redirs := ParseRedirs(ts[1..]);
      RedirsSound(ts[1..]);
      var more := ArgsSound(redirs.rest, argc + 1);
      ArgsCons(Arg(ts[0].w, redirs.value), more);
      args := [Arg(ts[0].w, redirs.value)] + more;
      HeadThenTail(ts, SpellArrows(redirs.value), SpellArgs(more), ParseArgs(ts, argc).rest);
    }
  }

  lemma {:induction false} ExecSound<W>(ts: seq<Tok<W>>) returns (u: Unit<W>)
    requires ParseExec(ts).Ok?
    ensures var r := ParseExec(ts); ts == SpellUnit(u) + r.rest && GoodUnit(u) && MeansUnit(u) == r.value
    decreases |ts|, 1
  {
    hide ParseRedirs, ParseArgs, ParseLine, SpellArrows, SpellArgs, SpellLine, MeansLine, GoodLine, GoodArrows,
         GoodArgs, Wrap, Argv, Arrows, AtStop, AtArrow;
    if At(ts, '(') {
      var line := LineSound(ts[1..]);
      var more := ParseLine(ts[1..]).rest;
      RedirsSound(more[1..]);
      u := Block(line, ParseRedirs(more[1..]).value);
      assert ts == [Sym('(')] + ts[1..] && more == [Sym(')')] + more[1..];
    } else {
      RedirsSound(ts);
      var redirs := ParseRedirs(ts);
      var args := ArgsSound(redirs.rest, 0);
      u := Plain(redirs.value, args);
    }
  }

  lemma {:induction false} PipeSound<W>(ts: seq<Tok<W>>) returns (p: Pipeline<W>)
    requires ParsePipe(ts).Ok?
    ensures var r := ParsePipe(ts); ts == SpellPipe(p) + r.rest && GoodPipe(p) && MeansPipe(p) == r.value
    decreases |ts|, 2
  {
    hide ParseExec, SpellUnit, MeansUnit, GoodUnit;
    var u := ExecSound(ts);
    var more := ParseExec(ts).rest;
    if At(more, '|') {
      var right := PipeSound(more[1..]);
      p := Bar(u, right);
      assert more == [Sym('|')] + more[1..];
    } else {
      p := Single(u);
    }
  }

  lemma {:induction false} BacksSound<W>(cmd: Cmd<W>, ts: seq<Tok<W>>) returns (n: nat)
    ensures var r := ParseBacks(cmd, ts); ts == Ampersands(n) + r.rest && r.value == Backed(cmd, n)
    decreases |ts|
  {
    if At(ts, '&') {
      n := BacksSound(Back(cmd), ts[1..]);
      n := n + 1;
      assert ts == [Sym('&')] + ts[1..];
    } else {
      n := 0;
    }
  }

  lemma {:induction false} LineSound<W>(ts: seq<Tok<W>>) returns (l: Line<W>)
    requires ParseLine(ts).Ok?
    ensures var r := ParseLine(ts); ts == SpellLine(l) + r.rest && GoodLine(l) && MeansLine(l) == r.value
    decreases |ts|, 3
  {
    hide ParsePipe, ParseBacks, SpellPipe, Ampersands, MeansPipe, Backed, GoodPipe;
    var p := PipeSound(ts);
    var first := ParsePipe(ts);
    var n := BacksSound(first.value, first.rest);
    var more := ParseBacks(first.value, first.rest).rest;
    if At(more, ';') {
      var right := LineSound(more[1..]);
      l := Then(p, n, right);
      assert more == [Sym(';')] + more[1..];
    } else {
      l := Last(p, n);
    }
  }

  // ---------- Every sentence is parsed ----------

  lemma {:induction false} RedirsComplete<W>(arrows: seq<Arrow<W>>, rest: seq<Tok<W>>)
    requires GoodArrows(arrows) && !AtArrow(rest)
    ensures ParseRedirs(SpellArrows(arrows) + rest) == Ok(arrows, rest)
  {
    var ts := SpellArrows(arrows) + rest;
    if arrows == [] {
      assert ts == rest;
    } else {
      RedirsComplete(arrows[1..], rest);
      assert ts[2..] == SpellArrows(arrows[1..]) + rest;
      assert arrows == [arrows[0]] + arrows[1..];
    }
  }

  lemma {:induction false} ArgsComplete<W>(args: seq<Arg<W>>, argc: nat, rest: seq<Tok<W>>)
    requires GoodArgs(args) && AtStop(rest) && argc + |args| < MAXARGS
    ensures ParseArgs(SpellArgs(args) + rest, argc) == Ok(Parts(Argv(args), Arrows(args)), rest)
    decreases |args|
  {
    hide ParseRedirs, SpellArrows, GoodArrows;
    var ts := SpellArgs(args) + rest;
    if args == [] {
      assert ts == rest;
    } else {
      var more := SpellArgs(args[1..]) + rest;
      RedirsComplete(args[0].arrows, more);
      assert ts[1..] == SpellArrows(args[0].arrows) + more;
      ArgsComplete(args[1..], argc + 1, rest);
    }
  }

  lemma ArgsBeginNoArrow<W>(args: seq<Arg<W>>, rest: seq<Tok<W>>)
    requires AtStop(rest)
    ensures !AtArrow(SpellArgs(args) + rest)
  {
    hide SpellArrows;
    if args == [] {
      assert SpellArgs(args) + rest == rest;
    }
  }

  lemma ArgsBeginNoBlock<W>(arrows: seq<Arrow<W>>, args: seq<Arg<W>>, rest: seq<Tok<W>>)
    requires AtStop(rest) && GoodArrows(arrows)
    ensures !At(SpellArrows(arrows) + SpellArgs(args) + rest, '(')
  {
    if arrows == [] {
      ArgsBeginNoArrow(args, rest);
      if args == [] {
        assert SpellArrows(arrows) + SpellArgs(args) + rest == rest;
      }
    } else {
      assert IsOp(arrows[0].op);
    }
  }

  lemma {:induction false} ExecComplete<W>(u: Unit<W>, rest: seq<Tok<W>>)
    requires GoodUnit(u) && AtStop(rest)
    ensures ParseExec(SpellUnit(u) + rest) == Ok(MeansUnit(u), rest)
    decreases u, 0
  {
    hide ParseRedirs, ParseArgs, ParseLine, SpellArrows, SpellArgs, SpellLine, MeansLine, GoodLine, GoodArrows,
         GoodArgs, Wrap, Argv, Arrows;
    var ts := SpellUnit(u) + rest;
    match u
    case Plain(arrows, args) =>
      var more := SpellArgs(args) + rest;
      assert ts == SpellArrows(arrows) + more;
      ArgsBeginNoArrow(args, rest);
      RedirsComplete(arrows, more);
      ArgsComplete(args, 0, rest);
      assert !At(ts, '(') by { ArgsBeginNoBlock(arrows, args, rest); }
    case Block(line, arrows) =>
      var more := [Sym(')')] + SpellArrows(arrows) + rest;
      assert ts[1..] == SpellLine(line) + more;
      LineComplete(line, more);
      assert more[1..] == SpellArrows(arrows) + rest;
      RedirsComplete(arrows, rest);
  }

  lemma {:induction false} PipeComplete<W>(p: Pipeline<W>, rest: seq<Tok<W>>)
    requires GoodPipe(p) && AtStop(rest) && !At(rest, '|')
    ensures ParsePipe(SpellPipe(p) + rest) == Ok(MeansPipe(p), rest)
    decreases p, 0
  {
    hide ParseExec, SpellUnit, MeansUnit, GoodUnit;
    var ts := SpellPipe(p) + rest;
    match p
    case Single(u) =>
      ExecComplete(u, rest);
    case Bar(u, right) =>
      var more := [Sym('|')] + SpellPipe(right) + rest;
      assert ts == SpellUnit(u) + more;
      ExecComplete(u, more);
      assert more[1..] == SpellPipe(right) + rest;
      PipeComplete(right, rest);
  }

  lemma {:induction false} BacksComplete<W>(cmd: Cmd<W>, n: nat, rest: seq<Tok<W>>)
    requires !At(rest, '&')
    ensures ParseBacks(cmd, Ampersands(n) + rest) == Ok(Backed(cmd, n), rest)
    decreases n
  {
    var ts := Ampersands(n) + rest;
    if n == 0 {
      assert ts == rest;
    } else {
      assert ts[1..] == Ampersands(n - 1) + rest;
      BacksComplete(Back(cmd), n - 1, rest);
    }
  }

  lemma AmpersandsBegin<W>(n: nat, rest: seq<Tok<W>>)
    requires AtStop(rest) && !At(rest, '|')
    ensures AtStop(Ampersands(n) + rest) && !At(Ampersands(n) + rest, '|')
  {
    if n == 0 {
      assert Ampersands(n) + rest == rest;
    }
  }

  lemma SpellLineThen<W>(l: Line<W>, rest: seq<Tok<W>>, end: seq<Tok<W>>)
    requires end == if l.Last? then rest else [Sym(';')] + SpellLine(l.more) + rest
    ensures SpellLine(l) + rest == SpellPipe(l.pipe) + (Ampersands(l.backs) + end)
    ensures l.Then? ==> end[1..] == SpellLine(l.more) + rest
  {
    hide SpellPipe, Ampersands;
  }

  lemma {:induction false} LineComplete<W>(l: Line<W>, rest: seq<Tok<W>>)
    requires GoodLine(l) && (rest == [] || At(rest, ')'))
    ensures ParseLine(SpellLine(l) + rest) == Ok(MeansLine(l), rest)
    decreases l, 0
  {
    hide ParsePipe, ParseBacks, SpellPipe, SpellLine, Ampersands, MeansPipe, Backed, GoodPipe;
    var end := if l.Last? then rest else [Sym(';')] + SpellLine(l.more) + rest;
    var more := Ampersands(l.backs) + end;
    SpellLineThen(l, rest, end);
    AmpersandsBegin(l.backs, end);
    PipeComplete(l.pipe, more);
    BacksComplete(MeansPipe(l.pipe), l.backs, end);
    if l.Then? {
      LineComplete(l.more, rest);
    }
  }

  // parsecmd accepts exactly the sentences of the grammar, and gives each its meaning.
  lemma ParsesGrammar<W>(ts: seq<Tok<W>>, cmd: Cmd<W>)
    ensures ParseAll(ts) == Ok(cmd, []) <==>
      exists l: Line<W> :: GoodLine(l) && SpellLine(l) == ts && MeansLine(l) == cmd
  {
    hide SpellLine, MeansLine, GoodLine, ParseLine;
    if ParseAll(ts) == Ok(cmd, []) {
      var l := LineSound(ts);
      assert ParseLine(ts).rest == [];
      assert SpellLine(l) == ts;
    }
    if l: Line<W> :| GoodLine(l) && SpellLine(l) == ts && MeansLine(l) == cmd {
      LineComplete(l, []);
      assert ts + [] == ts;
    }
  }
}
