/** src/sh.c: the tokens, the recursive-descent parser and nulterminate. */
module Shell {
  const MAXARGS := 10
  const NUL := '\0'

  predicate IsSpace(c: char) {
    c == ' ' || c == '\t' || c == '\r' || c == '\n' || c == '\U{000B}'
  }

  predicate IsSymbol(c: char) {
    c == '<' || c == '|' || c == '>' || c == '&' || c == ';' || c == '(' || c == ')'
  }

  predicate IsWord(c: char) {
    !IsSpace(c) && !IsSymbol(c)
  }

  // ---- the tokens of a line ----

  /** A word, or what gettoken returns for a symbol: '+' is ">>". */
  datatype Token = Word(w: string) | Sym(c: char)
  datatype Tokens = Nil | Cons(head: Token, tail: Tokens)

  function Len(ts: Tokens): nat {
    if ts.Nil? then 0 else 1 + Len(ts.tail)
  }

  function SkipSpaces(line: string, p: nat): (r: nat)
    requires p <= |line|
    ensures p <= r <= |line| && (r < |line| ==> !IsSpace(line[r]))
    decreases |line| - p
  {
    if p < |line| && IsSpace(line[p]) then SkipSpaces(line, p + 1) else p
  }

  function SkipWord(line: string, p: nat): (r: nat)
    requires p <= |line|
    ensures p <= r <= |line| && (r < |line| ==> !IsWord(line[r]))
    ensures forall i | p <= i < r :: IsWord(line[i])
    ensures p < |line| && IsWord(line[p]) ==> p < r
    decreases |line| - p
  {
    if p < |line| && IsWord(line[p]) then SkipWord(line, p + 1) else p
  }

  /** The end of the first token from `s` on, where no space is. */
  function TokenEnd(line: string, s: nat): (e: nat)
    requires s < |line|
    ensures !IsSpace(line[s]) ==> s < e <= |line|
  {
    if line[s] == '>' && s + 1 < |line| && line[s + 1] == '>' then s + 2
    else if IsSymbol(line[s]) then s + 1
    else SkipWord(line, s)
  }

  function TokenAt(line: string, s: nat): Token
    requires s < |line| && !IsSpace(line[s])
  {
    if line[s] == '>' && s + 1 < |line| && line[s + 1] == '>' then Sym('+')
    else if IsSymbol(line[s]) then Sym(line[s])
    else Word(line[s..SkipWord(line, s)])
  }

  /** The tokens of a line from `p` on. */
  function Scan(line: string, p: nat): Tokens
    requires p <= |line|
    decreases |line| - p
  {
    var s := SkipSpaces(line, p);
    if s == |line| then Nil else Cons(TokenAt(line, s), Scan(line, TokenEnd(line, s)))
  }

  lemma {:induction false} ScanSkips(line: string, p: nat)
    requires p <= |line|
    ensures SkipSpaces(line, SkipSpaces(line, p)) == SkipSpaces(line, p)
    ensures Scan(line, SkipSpaces(line, p)) == Scan(line, p)
  {}

  /** The character a token starts with. */
  function First(t: Token): char {
    match t
    case Word(w) => if w == "" then NUL else w[0]
    case Sym(c) => if c == '+' then '>' else c
  }

  /** What gettoken returns for a token. */
  function Kind(t: Token): char {
    if t.Word? then 'a' else t.c
  }

  // ---- the grammar ----

  /** A command tree over words of any kind. */
  datatype Cmd<W> = Exec(args: seq<W>) | Redir(cmd: Cmd<W>, file: W, output: bool) | Pipe(left: Cmd<W>, right: Cmd<W>)
    | List(left: Cmd<W>, right: Cmd<W>) | Back(cmd: Cmd<W>)

  datatype Parsed = Ok(cmd: Cmd<string>, rest: Tokens) | Bad

  predicate Starts(ts: Tokens, c: char) {
    ts.Cons? && ts.head == Sym(c)
  }

  predicate StartsRedir(ts: Tokens) {
    Starts(ts, '<') || Starts(ts, '>') || Starts(ts, '+')
  }

  predicate StopsArgs(ts: Tokens) {
    Starts(ts, '|') || Starts(ts, ')') || Starts(ts, '&') || Starts(ts, ';')
  }

  function Line(ts: Tokens): (r: Parsed)
    ensures r.Ok? ==> Len(r.rest) <= Len(ts)
    decreases Len(ts), 4
  {
    var p := PipeLine(ts);
    if p.Bad? then Bad
    else
      var b := Backs(p.cmd, p.rest);
      if Starts(b.rest, ';') then
        var l := Line(b.rest.tail);
        if l.Bad? then Bad else Ok(List(b.cmd, l.cmd), l.rest)
      else b
  }

  function Backs(c: Cmd<string>, ts: Tokens): (r: Parsed)
    ensures r.Ok? && Len(r.rest) <= Len(ts)
    decreases Len(ts)
  {
    if Starts(ts, '&') then Backs(Back(c), ts.tail) else Ok(c, ts)
  }

  function PipeLine(ts: Tokens): (r: Parsed)
    ensures r.Ok? ==> Len(r.rest) <= Len(ts)
    decreases Len(ts), 3
  {
    var e := Command(ts);
    if e.Ok? && Starts(e.rest, '|') then
      var p := PipeLine(e.rest.tail);
      if p.Bad? then Bad else Ok(Pipe(e.cmd, p.cmd), p.rest)
    else e
  }

  function Command(ts: Tokens): (r: Parsed)
    ensures r.Ok? ==> Len(r.rest) <= Len(ts)
    decreases Len(ts), 2
  {
    if Starts(ts, '(') then
      var l := Line(ts.tail);
      if l.Ok? && Starts(l.rest, ')') then Redirs(l.cmd, l.rest.tail) else Bad
    else
      var r := Redirs(Exec([]), ts);
      if r.Bad? then Bad else Args(r.cmd, r.rest)
  }

  /** parseredirs */
  function Redirs(c: Cmd<string>, ts: Tokens): (r: Parsed)
    ensures r.Ok? ==> Len(r.rest) <= Len(ts)
    decreases Len(ts)
  {
    if !StartsRedir(ts) then Ok(c, ts)
    else if ts.tail.Cons? && ts.tail.head.Word? then
      assert Len(ts) == 2 + Len(ts.tail.tail);
      Redirs(Redir(c, ts.tail.head.w, ts.head != Sym('<')), ts.tail.tail)
    else Bad
  }

  function WithArg<W>(c: Cmd<W>, w: W): Cmd<W> {
    match c
    case Exec(args) => Exec(args + [w])
    case Redir(d, file, output) => Redir(WithArg(d, w), file, output)
    case _ => c
  }

  function ArgCount<W>(c: Cmd<W>): nat {
    match c
    case Exec(args) => |args|
    case Redir(d, _, _) => ArgCount(d)
    case _ => 0
  }

  /** parseexec's loop: arguments go to the command inside the redirections so far. */
  function Args(c: Cmd<string>, ts: Tokens): (r: Parsed)
    ensures r.Ok? ==> Len(r.rest) <= Len(ts)
    decreases Len(ts)
  {
    if ts.Nil? || StopsArgs(ts) then Ok(c, ts)
    else if !ts.head.Word? || ArgCount(c) + 1 >= MAXARGS then Bad
    else
      var r := Redirs(WithArg(c, ts.head.w), ts.tail);
      if r.Bad? then Bad else Args(r.cmd, r.rest)
  }

  /** parsecmd: a line, and nothing after it. */
  function Whole(ts: Tokens): Parsed {
    var l := Line(ts);
    if l.Ok? && l.rest.Nil? then l else Bad
  }

  // ---- the language: what lines there are, and their trees ----

  /** '+' is ">>". */
  datatype Redirection = Redirection(op: char, file: string)
  /** An argument and the redirections after it. */
  datatype Arg = Arg(w: string, redirs: seq<Redirection>)
  datatype CommandSyntax = Plain(before: seq<Redirection>, args: seq<Arg>)
    | Group(line: LineSyntax, after: seq<Redirection>)
  datatype PipeSyntax = One(command: CommandSyntax) | Bar(command: CommandSyntax, next: PipeSyntax)
  /** `amps`: how many times "&" follows. */
  datatype LineSyntax = Last(pipe: PipeSyntax, amps: nat) | Then(pipe: PipeSyntax, amps: nat, next: LineSyntax)

  /** The tokens, with `rest` after them. */
  function RedirTokens(rs: seq<Redirection>, rest: Tokens): Tokens {
    if rs == [] then rest else Cons(Sym(rs[0].op), Cons(Word(rs[0].file), RedirTokens(rs[1..], rest)))
  }

  function ArgTokens(args: seq<Arg>, rest: Tokens): Tokens {
    if args == [] then rest else Cons(Word(args[0].w), RedirTokens(args[0].redirs, ArgTokens(args[1..], rest)))
  }

  function CommandTokens(c: CommandSyntax, rest: Tokens): Tokens
    decreases c
  {
    match c
    case Plain(before, args) => RedirTokens(before, ArgTokens(args, rest))
    case Group(l, after) => Cons(Sym('('), LineTokens(l, Cons(Sym(')'), RedirTokens(after, rest))))
  }

  function PipeTokens(p: PipeSyntax, rest: Tokens): Tokens
    decreases p
  {
    match p
    case One(c) => CommandTokens(c, rest)
    case Bar(c, next) => CommandTokens(c, Cons(Sym('|'), PipeTokens(next, rest)))
  }

  function Amps(n: nat, rest: Tokens): Tokens {
    if n == 0 then rest else Cons(Sym('&'), Amps(n - 1, rest))
  }

  function LineTokens(l: LineSyntax, rest: Tokens): Tokens
    decreases l
  {
    match l
    case Last(p, n) => PipeTokens(p, Amps(n, rest))
    case Then(p, n, next) => PipeTokens(p, Amps(n, Cons(Sym(';'), LineTokens(next, rest))))
  }

  /** The trees: redirections in the order in which they are written, around the one command
      that has all the words. */
  function Redirected(c: Cmd<string>, rs: seq<Redirection>): Cmd<string>
    decreases |rs|
  {
    if rs == [] then c else Redirected(Redir(c, rs[0].file, rs[0].op != '<'), rs[1..])
  }

  function ArgWords(args: seq<Arg>): seq<string> {
    if args == [] then [] else [args[0].w] + ArgWords(args[1..])
  }

  function ArgRedirs(args: seq<Arg>): seq<Redirection> {
    if args == [] then [] else args[0].redirs + ArgRedirs(args[1..])
  }

  function CommandTree(c: CommandSyntax): Cmd<string>
    decreases c
  {
    match c
    case Plain(before, args) => Redirected(Exec(ArgWords(args)), before + ArgRedirs(args))
    case Group(l, after) => Redirected(LineTree(l), after)
  }

  function PipeTree(p: PipeSyntax): Cmd<string>
    decreases p
  {
    match p
    case One(c) => CommandTree(c)
    case Bar(c, next) => Pipe(CommandTree(c), PipeTree(next))
  }

  function InBack(c: Cmd<string>, n: nat): Cmd<string>
    decreases n
  {
    if n == 0 then c else InBack(Back(c), n - 1)
  }

  function LineTree(l: LineSyntax): Cmd<string>
    decreases l
  {
    match l
    case Last(p, n) => InBack(PipeTree(p), n)
    case Then(p, n, next) => List(InBack(PipeTree(p), n), LineTree(next))
  }

  predicate RedirsFit(rs: seq<Redirection>) {
    forall i {:trigger rs[i]} | 0 <= i < |rs| :: rs[i].op == '<' || rs[i].op == '>' || rs[i].op == '+'
  }

  /** At most nine words to a command. */
  predicate CommandFits(c: CommandSyntax)
    decreases c
  {
    match c
    case Plain(before, args) =>
      && RedirsFit(before) && |args| < MAXARGS
      && forall i {:trigger args[i]} | 0 <= i < |args| :: RedirsFit(args[i].redirs)
    case Group(l, after) => LineFits(l) && RedirsFit(after)
  }

  predicate PipeFits(p: PipeSyntax)
    decreases p
  {
    CommandFits(p.command) && (p.Bar? ==> PipeFits(p.next))
  }

  predicate LineFits(l: LineSyntax)
    decreases l
  {
    PipeFits(l.pipe) && (l.Then? ==> LineFits(l.next))
  }

  // ---- the parser reads all of it ----

  /** What may follow a line: its end, or the parenthesis that closes it. */
  predicate Closes(rest: Tokens) {
    rest.Nil? || Starts(rest, ')')
  }

  lemma {:induction false} RedirsRead(c: Cmd<string>, rs: seq<Redirection>, rest: Tokens)
    requires RedirsFit(rs) && !StartsRedir(rest)
    ensures Redirs(c, RedirTokens(rs, rest)) == Ok(Redirected(c, rs), rest)
    decreases |rs|
  {
    if rs != [] {
      assert rs[0].op == '<' || rs[0].op == '>' || rs[0].op == '+';
      RedirsRead(Redir(c, rs[0].file, rs[0].op != '<'), rs[1..], rest);
    }
  }

  lemma {:induction false} RedirectedTwice(c: Cmd<string>, rs: seq<Redirection>, qs: seq<Redirection>)
    ensures Redirected(Redirected(c, rs), qs) == Redirected(c, rs + qs)
    decreases |rs|
  {
    if rs == [] {
      assert rs + qs == qs;
    } else {
      RedirectedTwice(Redir(c, rs[0].file, rs[0].op != '<'), rs[1..], qs);
      assert (rs + qs)[1..] == rs[1..] + qs;
    }
  }

  /** An argument goes to the command inside the redirections. */
  lemma {:induction false} ArgGoesInside(c: Cmd<string>, rs: seq<Redirection>, w: string)
    ensures WithArg(Redirected(c, rs), w) == Redirected(WithArg(c, w), rs) && ArgCount(Redirected(c, rs)) == ArgCount(c)
    decreases |rs|
  {
    if rs != [] {
      ArgGoesInside(Redir(c, rs[0].file, rs[0].op != '<'), rs[1..], w);
    }
  }

  /** The words and redirections of the first argument, and of those after it. */
  lemma ArgParts(ws: seq<string>, rs: seq<Redirection>, args: seq<Arg>)
    ensures args == [] ==> ws + ArgWords(args) == ws && rs + ArgRedirs(args) == rs
    ensures args != [] ==>
      && ws + ArgWords(args) == ws + [args[0].w] + ArgWords(args[1..])
      && rs + ArgRedirs(args) == rs + args[0].redirs + ArgRedirs(args[1..])
  {}

  lemma NotARedir(args: seq<Arg>, rest: Tokens)
    requires !StartsRedir(rest)
    ensures !StartsRedir(ArgTokens(args, rest))
  {}

  /** One argument more. */
  lemma ArgStep(c: Cmd<string>, w: string, tail: Tokens, d: Cmd<string>, rest: Tokens)
    requires ArgCount(c) + 1 < MAXARGS && Redirs(WithArg(c, w), tail) == Ok(d, rest)
    ensures Args(c, Cons(Word(w), tail)) == Args(d, rest)
  {}

  lemma {:induction false} ArgsRead(ws: seq<string>, rs: seq<Redirection>, args: seq<Arg>, rest: Tokens)
    requires rest.Nil? || Starts(rest, '|') || Starts(rest, ')') || Starts(rest, '&') || Starts(rest, ';')
    requires |ws| + |args| < MAXARGS && forall i {:trigger args[i]} | 0 <= i < |args| :: RedirsFit(args[i].redirs)
    ensures Args(Redirected(Exec(ws), rs), ArgTokens(args, rest))
      == Ok(Redirected(Exec(ws + ArgWords(args)), rs + ArgRedirs(args)), rest)
    decreases |args|
  {
    hide Args, Redirs, Redirected, ArgWords, ArgRedirs, WithArg, ArgCount;
    ArgParts(ws, rs, args);
    if args == [] {
      NoArgs(Redirected(Exec(ws), rs), rest);
    } else {
      var w, qs, more := args[0].w, args[0].redirs, args[1..];
      assert RedirsFit(args[0].redirs) && forall i | 0 <= i < |more| :: more[i] == args[i + 1];
      ArgGoesInside(Exec(ws), rs, w);
      WithOneArg(ws, w);
      NotARedir(more, rest);
      RedirsRead(Redirected(Exec(ws + [w]), rs), qs, ArgTokens(more, rest));
      RedirectedTwice(Exec(ws + [w]), rs, qs);
      ArgStep(Redirected(Exec(ws), rs), w, RedirTokens(qs, ArgTokens(more, rest)), Redirected(Exec(ws + [w]), rs + qs),
        ArgTokens(more, rest));
      ArgsRead(ws + [w], rs + qs, more, rest);
    }
  }

  lemma WithOneArg(ws: seq<string>, w: string)
    ensures WithArg(Exec(ws), w) == Exec(ws + [w]) && ArgCount(Exec(ws)) == |ws|
  {}

  lemma NoArgs(c: Cmd<string>, rest: Tokens)
    requires rest.Nil? || Starts(rest, '|') || Starts(rest, ')') || Starts(rest, '&') || Starts(rest, ';')
    ensures Args(c, rest) == Ok(c, rest)
  {}

  lemma {:induction false} CommandRead(c: CommandSyntax, rest: Tokens)
    requires CommandFits(c)
    requires rest.Nil? || Starts(rest, '|') || Starts(rest, ')') || Starts(rest, '&') || Starts(rest, ';')
    ensures Command(CommandTokens(c, rest)) == Ok(CommandTree(c), rest)
    decreases c
  {
    match c
    case Plain(before, args) =>
      RedirsRead(Exec([]), before, ArgTokens(args, rest));
      ArgsRead([], before, args, rest);
      assert [] + ArgWords(args) == ArgWords(args);
    case Group(l, after) =>
      LineRead(l, Cons(Sym(')'), RedirTokens(after, rest)));
      RedirsRead(LineTree(l), after, rest);
  }

  lemma {:induction false} PipeRead(p: PipeSyntax, rest: Tokens)
    requires PipeFits(p) && (rest.Nil? || Starts(rest, ')') || Starts(rest, '&') || Starts(rest, ';'))
    ensures PipeLine(PipeTokens(p, rest)) == Ok(PipeTree(p), rest)
    decreases p
  {
    match p
    case One(c) => CommandRead(c, rest);
    case Bar(c, next) =>
      CommandRead(c, Cons(Sym('|'), PipeTokens(next, rest)));
      PipeRead(next, rest);
  }

  lemma {:induction false} AmpsRead(c: Cmd<string>, n: nat, rest: Tokens)
    requires rest.Nil? || Starts(rest, ')') || Starts(rest, ';')
    ensures Backs(c, Amps(n, rest)) == Ok(InBack(c, n), rest)
    decreases n
  {
    if n > 0 {
      AmpsRead(Back(c), n - 1, rest);
    }
  }

  /** Every line of the language is read as its tree. */
  lemma {:induction false} LineRead(l: LineSyntax, rest: Tokens)
    requires LineFits(l) && Closes(rest)
    ensures Line(LineTokens(l, rest)) == Ok(LineTree(l), rest)
    decreases l
  {
    match l
    case Last(p, n) =>
      PipeRead(p, Amps(n, rest));
      AmpsRead(PipeTree(p), n, rest);
    case Then(p, n, next) =>
      var tail := Cons(Sym(';'), LineTokens(next, rest));
      PipeRead(p, Amps(n, tail));
      AmpsRead(PipeTree(p), n, tail);
      LineRead(next, rest);
  }

  // ---- and nothing else ----

  lemma {:induction false} RedirsDerive(c: Cmd<string>, ts: Tokens) returns (rs: seq<Redirection>)
    requires Redirs(c, ts).Ok?
    ensures RedirsFit(rs) && ts == RedirTokens(rs, Redirs(c, ts).rest) && Redirs(c, ts).cmd == Redirected(c, rs)
    decreases Len(ts)
  {
    rs := [];
    if StartsRedir(ts) {
      var r := Redirection(ts.head.c, ts.tail.head.w);
      assert Len(ts) == 2 + Len(ts.tail.tail);
      var more := RedirsDerive(Redir(c, r.file, ts.head != Sym('<')), ts.tail.tail);
      rs := [r] + more;
      assert rs[1..] == more;
    }
  }

  lemma {:induction false} ArgsDerive(ws: seq<string>, rs: seq<Redirection>, ts: Tokens) returns (args: seq<Arg>)
    requires Args(Redirected(Exec(ws), rs), ts).Ok? && |ws| < MAXARGS
    ensures var r := Args(Redirected(Exec(ws), rs), ts);
      && |ws| + |args| < MAXARGS && (forall i {:trigger args[i]} | 0 <= i < |args| :: RedirsFit(args[i].redirs))
      && ts == ArgTokens(args, r.rest)
      && r.cmd == Redirected(Exec(ws + ArgWords(args)), rs + ArgRedirs(args))
    decreases Len(ts)
  {
    hide Redirs, Redirected, ArgWords, ArgRedirs, WithArg, ArgCount;
    args := [];
    if ts.Nil? || StopsArgs(ts) {
      ArgParts(ws, rs, args);
    } else {
      var w := ts.head.w;
      ArgGoesInside(Exec(ws), rs, w);
      WithOneArg(ws, w);
      var c := Redirected(Exec(ws + [w]), rs);
      var qs := RedirsDerive(c, ts.tail);
      RedirectedTwice(Exec(ws + [w]), rs, qs);
      var more := ArgsDerive(ws + [w], rs + qs, Redirs(c, ts.tail).rest);
      args := [Arg(w, qs)] + more;
      assert args[1..] == more;
      ArgParts(ws, rs, args);
    }
  }

  lemma {:induction false} CommandDerives(ts: Tokens) returns (c: CommandSyntax)
    requires Command(ts).Ok?
    ensures CommandFits(c) && ts == CommandTokens(c, Command(ts).rest) && Command(ts).cmd == CommandTree(c)
    decreases Len(ts), 2
  {
    if Starts(ts, '(') {
      var l := LineDerives(ts.tail);
      var inner := Line(ts.tail);
      var rs := RedirsDerive(inner.cmd, inner.rest.tail);
      c := Group(l, rs);
    } else {
      var rs := RedirsDerive(Exec([]), ts);
      var args := ArgsDerive([], rs, Redirs(Exec([]), ts).rest);
      assert [] + ArgWords(args) == ArgWords(args);
      c := Plain(rs, args);
    }
  }

  lemma {:induction false} PipeDerives(ts: Tokens) returns (p: PipeSyntax)
    requires PipeLine(ts).Ok?
    ensures PipeFits(p) && ts == PipeTokens(p, PipeLine(ts).rest) && PipeLine(ts).cmd == PipeTree(p)
    decreases Len(ts), 3
  {
    var c := CommandDerives(ts);
    p := One(c);
    var e := Command(ts);
    if Starts(e.rest, '|') {
      var next := PipeDerives(e.rest.tail);
      p := Bar(c, next);
    }
  }

  lemma {:induction false} AmpsDerive(c: Cmd<string>, ts: Tokens) returns (n: nat)
    ensures ts == Amps(n, Backs(c, ts).rest) && Backs(c, ts).cmd == InBack(c, n)
    decreases Len(ts)
  {
    n := 0;
    if Starts(ts, '&') {
      var k := AmpsDerive(Back(c), ts.tail);
      n := k + 1;
    }
  }

  lemma {:induction false} LineDerives(ts: Tokens) returns (l: LineSyntax)
    requires Line(ts).Ok?
    ensures LineFits(l) && ts == LineTokens(l, Line(ts).rest) && Line(ts).cmd == LineTree(l)
    decreases Len(ts), 4
  {
    var p := PipeDerives(ts);
    var q := PipeLine(ts);
    var n := AmpsDerive(q.cmd, q.rest);
    var b := Backs(q.cmd, q.rest);
    l := Last(p, n);
    if Starts(b.rest, ';') {
      var next := LineDerives(b.rest.tail);
      l := Then(p, n, next);
    }
  }

  ghost predicate Derives(l: LineSyntax, ts: Tokens, c: Cmd<string>) {
    LineFits(l) && LineTokens(l, Nil) == ts && LineTree(l) == c
  }

  /** The parser accepts exactly the language, and gives a line the only tree it has. */
  lemma ParserIsGrammar(ts: Tokens, c: Cmd<string>)
    ensures Whole(ts) == Ok(c, Nil) <==> exists l :: Derives(l, ts, c)
    ensures Whole(ts).Bad? <==> !exists l, d :: Derives(l, ts, d)
  {
    if Whole(ts).Ok? {
      var l := LineDerives(ts);
      assert Derives(l, ts, Whole(ts).cmd);
    }
    forall l, d | Derives(l, ts, d)
      ensures Whole(ts) == Ok(d, Nil)
    {
      LineRead(l, Nil);
    }
  }

  // ---- printing a tree ----

  predicate OrdinaryWord(w: string) {
    w != "" && forall i | 0 <= i < |w| :: IsWord(w[i])
  }

  /** At most nine ordinary words to a command. */
  predicate Ordinary(c: Cmd<string>) {
    match c
    case Exec(args) => |args| < MAXARGS && forall i | 0 <= i < |args| :: OrdinaryWord(args[i])
    case Redir(d, file, _) => Ordinary(d) && OrdinaryWord(file)
    case Pipe(l, r) => Ordinary(l) && Ordinary(r)
    case List(l, r) => Ordinary(l) && Ordinary(r)
    case Back(d) => Ordinary(d)
  }

  /** What redirections are around, and which they are. */
  function Core(c: Cmd<string>): (r: Cmd<string>)
    ensures !r.Redir? && (r == c || r < c)
  {
    if c.Redir? then Core(c.cmd) else c
  }

  function RedirsOf(c: Cmd<string>): seq<Redirection> {
    if c.Redir? then RedirsOf(c.cmd) + [Redirection(if c.output then '>' else '<', c.file)] else []
  }

  lemma {:induction false} CoreRedirected(c: Cmd<string>)
    ensures Redirected(Core(c), RedirsOf(c)) == c && RedirsFit(RedirsOf(c))
    decreases c
  {
    if c.Redir? {
      CoreRedirected(c.cmd);
      var r := Redirection(if c.output then '>' else '<', c.file);
      RedirectedTwice(Core(c), RedirsOf(c.cmd), [r]);
      assert Redirected(c.cmd, [r]) == Redirected(c, []);
    }
  }

  function BackCore(c: Cmd<string>): (r: Cmd<string>)
    ensures !r.Back? && (r == c || r < c)
  {
    if c.Back? then BackCore(c.cmd) else c
  }

  function BackCount(c: Cmd<string>): nat {
    if c.Back? then 1 + BackCount(c.cmd) else 0
  }

  lemma {:induction false} InBackOnceMore(c: Cmd<string>, n: nat)
    ensures Back(InBack(c, n)) == InBack(c, n + 1)
    decreases n
  {
    if n > 0 {
      InBackOnceMore(Back(c), n - 1);
    }
  }

  lemma {:induction false} BackCoreInBack(c: Cmd<string>)
    ensures InBack(BackCore(c), BackCount(c)) == c
    decreases c
  {
    if c.Back? {
      BackCoreInBack(c.cmd);
      InBackOnceMore(BackCore(c), BackCount(c.cmd));
    }
  }

  /** The words of a command, with nothing between them. */
  function Bare(args: seq<string>): (r: seq<Arg>)
    ensures |r| == |args| && forall i {:trigger r[i]} | 0 <= i < |r| :: r[i] == Arg(args[i], [])
  {
    seq(|args|, i requires 0 <= i < |args| => Arg(args[i], []))
  }

  lemma {:induction false} BareWords(args: seq<string>)
    ensures ArgWords(Bare(args)) == args && ArgRedirs(Bare(args)) == []
    decreases |args|
  {
    if args != [] {
      BareWords(args[1..]);
      assert Bare(args)[1..] == Bare(args[1..]);
    }
  }

  /** How a tree is written, with parentheses only where they are needed. */
  function AsLine(c: Cmd<string>): LineSyntax
    decreases c, 3
  {
    if c.List? then Then(AsPipe(BackCore(c.left)), BackCount(c.left), AsLine(c.right))
    else Last(AsPipe(BackCore(c)), BackCount(c))
  }

  function AsPipe(c: Cmd<string>): PipeSyntax
    decreases c, 2
  {
    if c.Pipe? then Bar(AsCommand(c.left), AsPipe(c.right)) else One(AsCommand(c))
  }

  function AsCommand(c: Cmd<string>): CommandSyntax
    decreases c, 1
  {
    var d := Core(c);
    if d.Exec? then Plain(RedirsOf(c), Bare(d.args)) else Group(Inside(d), RedirsOf(c))
  }

  function Inside(c: Cmd<string>): LineSyntax
    requires !c.Exec? && !c.Redir?
    decreases c, 0
  {
    match c
    case Pipe(l, r) => Last(Bar(AsCommand(l), AsPipe(r)), 0)
    case List(l, r) => Then(AsPipe(BackCore(l)), BackCount(l), AsLine(r))
    case Back(d) => Last(AsPipe(BackCore(d)), 1 + BackCount(d))
  }

  lemma {:induction false} OrdinaryCores(c: Cmd<string>)
    requires Ordinary(c)
    ensures Ordinary(Core(c)) && Ordinary(BackCore(c))
    ensures forall i {:trigger RedirsOf(c)[i]} | 0 <= i < |RedirsOf(c)| :: OrdinaryWord(RedirsOf(c)[i].file)
    decreases c
  {
    match c
    case Redir(d, _, _) => OrdinaryCores(d);
    case Back(d) => OrdinaryCores(d);
    case _ =>
  }

  lemma {:induction false} CommandWritten(c: Cmd<string>)
    requires Ordinary(c)
    ensures CommandFits(AsCommand(c)) && CommandTree(AsCommand(c)) == c
    decreases c, 1
  {
    var d := Core(c);
    CoreRedirected(c);
    OrdinaryCores(c);
    if d.Exec? {
      BareWords(d.args);
      assert RedirsOf(c) + [] == RedirsOf(c);
    } else {
      InsideWritten(d);
    }
  }

  lemma {:induction false} InsideWritten(c: Cmd<string>)
    requires Ordinary(c) && !c.Exec? && !c.Redir?
    ensures LineFits(Inside(c)) && LineTree(Inside(c)) == c
    decreases c, 0
  {
    match c
    case Pipe(l, r) =>
      CommandWritten(l);
      PipeWritten(r);
    case List(l, r) =>
      OrdinaryCores(l);
      PipeWritten(BackCore(l));
      BackCoreInBack(l);
      LineWritten(r);
    case Back(d) =>
      OrdinaryCores(d);
      PipeWritten(BackCore(d));
      BackCoreInBack(d);
      InBackOnceMore(BackCore(d), BackCount(d));
  }

  lemma {:induction false} PipeWritten(c: Cmd<string>)
    requires Ordinary(c)
    ensures PipeFits(AsPipe(c)) && PipeTree(AsPipe(c)) == c
    decreases c, 2
  {
    if c.Pipe? {
      CommandWritten(c.left);
      PipeWritten(c.right);
    } else {
      CommandWritten(c);
    }
  }

  /** Every tree can be written. */
  lemma {:induction false} LineWritten(c: Cmd<string>)
    requires Ordinary(c)
    ensures LineFits(AsLine(c)) && LineTree(AsLine(c)) == c
    decreases c, 3
  {
    var d := if c.List? then c.left else c;
    OrdinaryCores(d);
    PipeWritten(BackCore(d));
    BackCoreInBack(d);
    if c.List? {
      LineWritten(c.right);
    }
  }

  function Print(c: Cmd<string>, rest: Tokens): Tokens {
    LineTokens(AsLine(c), rest)
  }

  /** Reading what was printed gives the tree back. */
  lemma PrintRead(c: Cmd<string>, rest: Tokens)
    requires Ordinary(c) && Closes(rest)
    ensures Line(Print(c, rest)) == Ok(c, rest)
  {
    LineWritten(c);
    LineRead(AsLine(c), rest);
  }

  /** A tree that needs no parentheses: commands with redirections, joined by "|", then put
      in the background, then joined by ";". */
  predicate Flat(c: Cmd<string>) {
    if c.List? then FlatPipe(BackCore(c.left)) && Flat(c.right) else FlatPipe(BackCore(c))
  }

  predicate FlatPipe(c: Cmd<string>) {
    if c.Pipe? then Core(c.left).Exec? && FlatPipe(c.right) else Core(c).Exec?
  }

  predicate Has(ts: Tokens, c: char) {
    ts.Cons? && (ts.head == Sym(c) || Has(ts.tail, c))
  }

  lemma {:induction false} RedirsHaveNone(rs: seq<Redirection>, rest: Tokens)
    requires RedirsFit(rs)
    ensures Has(RedirTokens(rs, rest), '(') == Has(rest, '(')
    decreases |rs|
  {
    if rs != [] {
      assert rs[0].op != '(';
      RedirsHaveNone(rs[1..], rest);
    }
  }

  lemma {:induction false} BareHasNone(args: seq<string>, rest: Tokens)
    ensures Has(ArgTokens(Bare(args), rest), '(') == Has(rest, '(')
    decreases |args|
  {
    if args != [] {
      BareHasNone(args[1..], rest);
      assert Bare(args)[1..] == Bare(args[1..]);
    }
  }

  lemma {:induction false} FlatPipeHasNone(c: Cmd<string>, rest: Tokens)
    requires FlatPipe(c)
    ensures Has(PipeTokens(AsPipe(c), rest), '(') == Has(rest, '(')
    decreases c
  {
    var d := if c.Pipe? then c.left else c;
    var tail := if c.Pipe? then Cons(Sym('|'), PipeTokens(AsPipe(c.right), rest)) else rest;
    CoreRedirected(d);
    RedirsHaveNone(RedirsOf(d), ArgTokens(Bare(Core(d).args), tail));
    BareHasNone(Core(d).args, tail);
    if c.Pipe? {
      FlatPipeHasNone(c.right, rest);
    }
  }

  lemma {:induction false} AmpsHaveNone(n: nat, rest: Tokens)
    ensures Has(Amps(n, rest), '(') == Has(rest, '(')
    decreases n
  {
    if n > 0 {
      AmpsHaveNone(n - 1, rest);
    }
  }

  /** Such a tree is printed without parentheses. */
  lemma {:induction false} FlatHasNone(c: Cmd<string>, rest: Tokens)
    requires Flat(c)
    ensures Has(Print(c, rest), '(') == Has(rest, '(')
    decreases c
  {
    var d := if c.List? then c.left else c;
    var tail := if c.List? then Cons(Sym(';'), Print(c.right, rest)) else rest;
    FlatPipeHasNone(BackCore(d), Amps(BackCount(d), tail));
    AmpsHaveNone(BackCount(d), tail);
    if c.List? {
      FlatHasNone(c.right, rest);
    }
  }

  // ---- tokens as characters ----

  function Spelled(t: Token): string {
    match t
    case Word(w) => w
    case Sym(c) => if c == '+' then ">>" else [c]
  }

  predicate White(g: string) {
    forall i | 0 <= i < |g| :: g[i] == ' ' || g[i] == '\t' || g[i] == '\r' || g[i] == '\n' || g[i] == '\U{000B}'
  }

  /** Tokens that would be one if nothing were between them. */
  predicate Fuses(t: Token, u: Token) {
    (t.Word? && u.Word?) || (t == Sym('>') && (u == Sym('>') || u == Sym('+')))
  }

  /** White space before, between and after tokens. */
  predicate Spaced(ts: Tokens, gaps: seq<string>) {
    && |gaps| == Len(ts) + 1 && White(gaps[0])
    && (ts.Cons? ==>
         && Spaced(ts.tail, gaps[1..])
         && (ts.tail.Cons? && Fuses(ts.head, ts.tail.head) ==> gaps[1] != ""))
  }

  function Render(ts: Tokens, gaps: seq<string>): string
    requires |gaps| == Len(ts) + 1
  {
    if ts.Nil? then gaps[0] else gaps[0] + Spelled(ts.head) + Render(ts.tail, gaps[1..])
  }

  predicate OrdinaryTokens(ts: Tokens) {
    ts.Cons? ==>
      && (match ts.head
          case Word(w) => OrdinaryWord(w)
          case Sym(c) => c == '<' || c == '|' || c == '>' || c == '&' || c == ';' || c == '(' || c == ')' || c == '+')
      && OrdinaryTokens(ts.tail)
  }

  /** Scanning looks only ahead. */
  lemma {:induction false} SpacesAhead(a: string, b: string, p: nat)
    requires p <= |b|
    ensures SkipSpaces(a + b, |a| + p) == |a| + SkipSpaces(b, p)
    decreases |b| - p
  {
    if p < |b| {
      SpacesAhead(a, b, p + 1);
    }
  }

  lemma {:induction false} WordAhead(a: string, b: string, p: nat)
    requires p <= |b|
    ensures SkipWord(a + b, |a| + p) == |a| + SkipWord(b, p)
    decreases |b| - p
  {
    if p < |b| {
      WordAhead(a, b, p + 1);
    }
  }

  lemma TokenAhead(a: string, b: string, s: nat)
    requires s < |b| && !IsSpace(b[s])
    ensures (a + b)[|a| + s] == b[s]
    ensures TokenAt(a + b, |a| + s) == TokenAt(b, s) && TokenEnd(a + b, |a| + s) == |a| + TokenEnd(b, s)
  {
    assert s + 1 < |b| ==> (a + b)[|a| + s + 1] == b[s + 1];
    WordAhead(a, b, s);
    assert (a + b)[|a| + s..|a| + SkipWord(b, s)] == b[s..SkipWord(b, s)];
  }

  lemma {:induction false} ScanAhead(a: string, b: string, p: nat)
    requires p <= |b|
    ensures Scan(a + b, |a| + p) == Scan(b, p)
    decreases |b| - p
  {
    SpacesAhead(a, b, p);
    var s := SkipSpaces(b, p);
    if s < |b| {
      TokenAhead(a, b, s);
      ScanAhead(a, b, TokenEnd(b, s));
    }
  }

  lemma {:induction false} GapSkipped(g: string, rest: string, p: nat)
    requires White(g) && p <= |g| && (rest == "" || !IsSpace(rest[0]))
    ensures SkipSpaces(g + rest, p) == |g|
    decreases |g| - p
  {
    if p < |g| {
      assert (g + rest)[p] == g[p];
      GapSkipped(g, rest, p + 1);
    } else if rest != "" {
      assert (g + rest)[p] == rest[0];
    }
  }

  lemma {:induction false} WordEnds(w: string, rest: string, p: nat)
    requires OrdinaryWord(w) && p <= |w| && (rest == "" || !IsWord(rest[0]))
    ensures SkipWord(w + rest, p) == |w|
    decreases |w| - p
  {
    if p < |w| {
      assert (w + rest)[p] == w[p];
      WordEnds(w, rest, p + 1);
    } else if rest != "" {
      assert (w + rest)[p] == rest[0];
    }
  }

  lemma FirstToken(t: Token, rest: string)
    requires OrdinaryTokens(Cons(t, Nil))
    requires rest != "" ==> (t.Word? ==> !IsWord(rest[0])) && (t == Sym('>') ==> rest[0] != '>')
    ensures var line := Spelled(t) + rest;
      && |line| > 0 && !IsSpace(line[0]) && SkipSpaces(line, 0) == 0
      && TokenAt(line, 0) == t && TokenEnd(line, 0) == |Spelled(t)|
  {
    var line := Spelled(t) + rest;
    assert line[0] == Spelled(t)[0];
    if t.Word? {
      WordEnds(t.w, rest, 0);
      assert line[0..|t.w|] == t.w;
    } else {
      assert |line| > 1 ==> line[1] == if t.c == '+' then '>' else rest[0];
    }
  }

  /** What a rendering begins with. */
  lemma RenderStarts(ts: Tokens, gaps: seq<string>)
    requires OrdinaryTokens(ts) && Spaced(ts, gaps)
    ensures var r := Render(ts, gaps);
      if gaps[0] != "" then r != "" && r[0] == gaps[0][0]
      else if ts.Cons? then r != "" && r[0] == First(ts.head) else r == ""
  {}

  /** Tokens written with any white space around them are scanned back. */
  lemma {:induction false} RenderScanned(ts: Tokens, gaps: seq<string>)
    requires OrdinaryTokens(ts) && Spaced(ts, gaps)
    ensures Scan(Render(ts, gaps), 0) == ts
    decreases ts
  {
    var g := gaps[0];
    if ts.Nil? {
      GapSkipped(g, "", 0);
      assert g + "" == g;
    } else {
      var t, rest := Spelled(ts.head), Render(ts.tail, gaps[1..]);
      RenderScanned(ts.tail, gaps[1..]);
      RenderStarts(ts.tail, gaps[1..]);
      FirstToken(ts.head, rest);
      GapSkipped(g, t + rest, 0);
      assert g + t + rest == g + (t + rest);
      ScanSkips(g + (t + rest), 0);
      ScanAhead(g, t + rest, 0);
      ScanAhead(t, rest, 0);
    }
  }

  lemma {:induction false} SpacesAreWhite(line: string, p: nat)
    requires p <= |line|
    ensures White(line[p..SkipSpaces(line, p)])
    decreases |line| - p
  {
    if p < |line| && IsSpace(line[p]) {
      SpacesAreWhite(line, p + 1);
      var r := SkipSpaces(line, p);
      assert line[p..r] == [line[p]] + line[p + 1..r];
    }
  }

  /** ... and every line is such a rendering of its tokens. */
  lemma {:induction false} LineIsRendered(line: string, p: nat) returns (gaps: seq<string>)
    requires p <= |line|
    ensures OrdinaryTokens(Scan(line, p)) && Spaced(Scan(line, p), gaps) && Render(Scan(line, p), gaps) == line[p..]
    decreases |line| - p
  {
    var s := SkipSpaces(line, p);
    var g := line[p..s];
    SpacesAreWhite(line, p);
    gaps := [g];
    if s == |line| {
      assert g == line[p..];
    } else {
      var e := TokenEnd(line, s);
      var more := LineIsRendered(line, e);
      gaps := [g] + more;
      assert gaps[1..] == more;
      TokenIsSpelled(line, s);
      assert line[p..] == g + line[s..e] + line[e..];
      RenderStarts(Scan(line, e), more);
      if e < |line| {
        TokensApart(line, s);
      }
    }
  }

  lemma TokenIsSpelled(line: string, s: nat)
    requires s < |line| && !IsSpace(line[s])
    ensures Spelled(TokenAt(line, s)) == line[s..TokenEnd(line, s)] && OrdinaryTokens(Cons(TokenAt(line, s), Nil))
  {
    var e := TokenEnd(line, s);
    if line[s] == '>' && s + 1 < |line| && line[s + 1] == '>' {
      assert line[s..e] == [line[s], line[s + 1]];
    } else if IsSymbol(line[s]) {
      assert line[s..e] == [line[s]];
    }
  }

  /** Where a token ends nothing follows that would belong to it. */
  lemma TokensApart(line: string, s: nat)
    requires s < |line| && !IsSpace(line[s]) && TokenEnd(line, s) < |line|
    ensures TokenAt(line, s).Word? ==> !IsWord(line[TokenEnd(line, s)])
    ensures TokenAt(line, s) == Sym('>') ==> line[TokenEnd(line, s)] != '>'
  {}

  // ---- both together ----

  predicate OrdinaryRedirs(rs: seq<Redirection>) {
    RedirsFit(rs) && forall i {:trigger rs[i]} | 0 <= i < |rs| :: OrdinaryWord(rs[i].file)
  }

  lemma {:induction false} RedirsOrdinary(rs: seq<Redirection>, rest: Tokens)
    requires OrdinaryRedirs(rs) && OrdinaryTokens(rest)
    ensures OrdinaryTokens(RedirTokens(rs, rest))
    decreases |rs|
  {
    if rs != [] {
      assert OrdinaryWord(rs[0].file) && (rs[0].op == '<' || rs[0].op == '>' || rs[0].op == '+');
      RedirsOrdinary(rs[1..], rest);
    }
  }

  lemma {:induction false} BareOrdinary(args: seq<string>, rest: Tokens)
    requires (forall i | 0 <= i < |args| :: OrdinaryWord(args[i])) && OrdinaryTokens(rest)
    ensures OrdinaryTokens(ArgTokens(Bare(args), rest))
    decreases |args|
  {
    if args != [] {
      BareOrdinary(args[1..], rest);
      assert Bare(args)[1..] == Bare(args[1..]);
    }
  }

  lemma {:induction false} CommandOrdinary(c: Cmd<string>, rest: Tokens)
    requires Ordinary(c) && OrdinaryTokens(rest)
    ensures OrdinaryTokens(CommandTokens(AsCommand(c), rest))
    decreases c, 1
  {
    var d := Core(c);
    OrdinaryCores(c);
    CoreRedirected(c);
    if d.Exec? {
      BareOrdinary(d.args, rest);
      RedirsOrdinary(RedirsOf(c), ArgTokens(Bare(d.args), rest));
    } else {
      RedirsOrdinary(RedirsOf(c), rest);
      InsideOrdinary(d, Cons(Sym(')'), RedirTokens(RedirsOf(c), rest)));
    }
  }

  lemma {:induction false} AmpsOrdinary(n: nat, rest: Tokens)
    requires OrdinaryTokens(rest)
    ensures OrdinaryTokens(Amps(n, rest))
    decreases n
  {
    if n > 0 {
      AmpsOrdinary(n - 1, rest);
    }
  }

  lemma {:induction false} InsideOrdinary(c: Cmd<string>, rest: Tokens)
    requires Ordinary(c) && !c.Exec? && !c.Redir? && OrdinaryTokens(rest)
    ensures OrdinaryTokens(LineTokens(Inside(c), rest))
    decreases c, 0
  {
    match c
    case Pipe(l, r) =>
      PipeOrdinary(r, rest);
      CommandOrdinary(l, Cons(Sym('|'), PipeTokens(AsPipe(r), rest)));
    case List(l, r) =>
      OrdinaryCores(l);
      PrintOrdinary(r, rest);
      var tail := Cons(Sym(';'), LineTokens(AsLine(r), rest));
      AmpsOrdinary(BackCount(l), tail);
      PipeOrdinary(BackCore(l), Amps(BackCount(l), tail));
    case Back(d) =>
      OrdinaryCores(d);
      AmpsOrdinary(1 + BackCount(d), rest);
      PipeOrdinary(BackCore(d), Amps(1 + BackCount(d), rest));
  }

  lemma {:induction false} PipeOrdinary(c: Cmd<string>, rest: Tokens)
    requires Ordinary(c) && OrdinaryTokens(rest)
    ensures OrdinaryTokens(PipeTokens(AsPipe(c), rest))
    decreases c, 2
  {
    if c.Pipe? {
      PipeOrdinary(c.right, rest);
      CommandOrdinary(c.left, Cons(Sym('|'), PipeTokens(AsPipe(c.right), rest)));
    } else {
      CommandOrdinary(c, rest);
    }
  }

  lemma {:induction false} PrintOrdinary(c: Cmd<string>, rest: Tokens)
    requires Ordinary(c) && OrdinaryTokens(rest)
    ensures OrdinaryTokens(Print(c, rest))
    decreases c, 3
  {
    var d := if c.List? then c.left else c;
    var tail := if c.List? then Cons(Sym(';'), Print(c.right, rest)) else rest;
    OrdinaryCores(d);
    if c.List? {
      PrintOrdinary(c.right, rest);
    }
    AmpsOrdinary(BackCount(d), tail);
    PipeOrdinary(BackCore(d), Amps(BackCount(d), tail));
  }

  /** Any line of the language, with redirections before, between and after the words, and
      with white space as one likes, parses to its tree. */
  lemma LineIsParsed(l: LineSyntax, gaps: seq<string>)
    requires LineFits(l) && OrdinaryTokens(LineTokens(l, Nil)) && Spaced(LineTokens(l, Nil), gaps)
    ensures Whole(Scan(Render(LineTokens(l, Nil), gaps), 0)) == Ok(LineTree(l), Nil)
  {
    RenderScanned(LineTokens(l, Nil), gaps);
    LineRead(l, Nil);
  }

  /** The round trip: the printed form of a tree, with parentheses only where they are needed
      and white space as one likes, parses to that tree. */
  lemma RoundTrip(c: Cmd<string>, gaps: seq<string>)
    requires Ordinary(c) && Spaced(Print(c, Nil), gaps)
    ensures Whole(Scan(Render(Print(c, Nil), gaps), 0)) == Ok(c, Nil)
    ensures Flat(c) ==> !Has(Print(c, Nil), '(')
  {
    PrintOrdinary(c, Nil);
    RenderScanned(Print(c, Nil), gaps);
    PrintRead(c, Nil);
    if Flat(c) {
      FlatHasNone(c, Nil);
    }
  }

  // ---- spans of the line ----

  /** Where a word is: from `q` up to `eq`. */
  datatype Span = Span(q: nat, eq: nat)

  /** A span of a whole word: only word characters, and none where it ends. */
  predicate IsToken(line: string, w: Span) {
    && w.q < w.eq <= |line| && (w.eq < |line| ==> !IsWord(line[w.eq]))
    && forall i | w.q <= i < w.eq :: IsWord(line[i])
  }

  predicate Spans(line: string, c: Cmd<Span>) {
    match c
    case Exec(args) => forall i | 0 <= i < |args| :: IsToken(line, args[i])
    case Redir(d, file, _) => Spans(line, d) && IsToken(line, file)
    case Pipe(l, r) => Spans(line, l) && Spans(line, r)
    case List(l, r) => Spans(line, l) && Spans(line, r)
    case Back(d) => Spans(line, d)
  }

  function Text(line: string, w: Span): string {
    if w.q <= w.eq <= |line| then line[w.q..w.eq] else ""
  }

  /** The same tree, with the words themselves. */
  function Words(line: string, c: Cmd<Span>): Cmd<string> {
    match c
    case Exec(args) => Exec(seq(|args|, i requires 0 <= i < |args| => Text(line, args[i])))
    case Redir(d, file, output) => Redir(Words(line, d), Text(line, file), output)
    case Pipe(l, r) => Pipe(Words(line, l), Words(line, r))
    case List(l, r) => List(Words(line, l), Words(line, r))
    case Back(d) => Back(Words(line, d))
  }

  lemma {:induction false} WordsWithArg(line: string, c: Cmd<Span>, w: Span)
    requires Spans(line, c) && IsToken(line, w)
    ensures Words(line, WithArg(c, w)) == WithArg(Words(line, c), Text(line, w)) && Spans(line, WithArg(c, w))
    ensures ArgCount(Words(line, c)) == ArgCount(c)
    ensures ArgCount(WithArg(c, w)) == ArgCount(c) + 1 || ArgCount(WithArg(c, w)) == ArgCount(c) == 0
  {
    match c
    case Exec(args) => assert Words(line, Exec(args + [w])).args == Words(line, c).args + [Text(line, w)];
    case Redir(d, _, _) => WordsWithArg(line, d, w);
    case _ =>
  }

  // ---- the C code ----

  datatype Outcome = Done(cmd: Cmd<Span>) | Panic

  /** A parsing function did what the grammar says: panicked, or left the tree and the
      rest of the line. */
  ghost predicate Agrees(line: string, r: Outcome, ahead: Tokens, spec: Parsed) {
    if spec.Bad? then r.Panic?
    else r.Done? && Spans(line, r.cmd) && Words(line, r.cmd) == spec.cmd && ahead == spec.rest
  }

  /** A line being parsed; `s` is the cursor `*ps`. */
  class Parser {
    const line: string
    var s: nat

    constructor (line: string)
      ensures this.line == line && s == 0
    {
      this.line, s := line, 0;
    }

    ghost predicate Valid()
      reads this
    {
      s <= |line|
    }

    ghost function Ahead(): Tokens
      requires Valid()
      reads this
    {
      Scan(line, s)
    }

    method Skip()
      requires Valid()
      modifies this
      ensures Valid() && s == SkipSpaces(line, old(s)) && Ahead() == old(Ahead())
    {
      ScanSkips(line, s);
      while s < |line| && IsSpace(line[s])
        invariant Valid() && SkipSpaces(line, s) == SkipSpaces(line, old(s))
      {
        s := s + 1;
      }
    }

    /** gettoken: the next token, NUL at the end; for a word `tok` is 'a' and `w` tells
        where it is. */
    method GetToken() returns (tok: char, w: Span)
      requires Valid()
      modifies this
      ensures Valid()
      ensures old(Ahead()).Nil? ==> tok == NUL && Ahead() == Nil
      ensures old(Ahead()).Cons? ==> Ahead() == old(Ahead()).tail && tok == Kind(old(Ahead()).head)
      ensures old(Ahead()).Cons? && old(Ahead()).head.Word? ==> IsToken(line, w) && old(Ahead()).head.w == Text(line, w)
      ensures s == |line| || !IsSpace(line[s])
    {
      Skip();
      var q := s;
      if s == |line| {
        tok := NUL;
      } else if line[s] == '>' {
        tok := '>';
        s := s + 1;
        if s < |line| && line[s] == '>' {
          tok := '+';
          s := s + 1;
        }
      } else if IsSymbol(line[s]) {
        tok := line[s];
        s := s + 1;
      } else {
        tok := 'a';
        while s < |line| && IsWord(line[s])
          invariant q <= s <= |line| && SkipWord(line, s) == SkipWord(line, q)
        {
          s := s + 1;
        }
      }
      w := Span(q, s);
      Skip();
    }

    /** peek: is the next character one of `toks`? */
    method Peek(toks: string) returns (b: bool)
      requires Valid() && forall i | 0 <= i < |toks| :: IsSymbol(toks[i])
      modifies this
      ensures Valid() && Ahead() == old(Ahead()) && (s == |line| <==> Ahead().Nil?)
      ensures b <==> Ahead().Cons? && Ahead().head.Sym? && First(Ahead().head) in toks
    {
      Skip();
      ScanSkips(line, s);
      b := s < |line| && line[s] in toks;
    }
 
    method ParseRedirs(cmd: Cmd<Span>) returns (r: Outcome)
      requires Valid() && Spans(line, cmd)
      modifies this
      ensures Valid() && Agrees(line, r, Ahead(), Redirs(Words(line, cmd), old(Ahead())))
      ensures Len(Ahead()) <= Len(old(Ahead()))
    {
      r := Done(cmd);
      ghost var spec := Redirs(Words(line, cmd), Ahead());
      var more := Peek("<>");
      while more
        invariant Valid() && r.Done? && Spans(line, r.cmd) && Redirs(Words(line, r.cmd), Ahead()) == spec
        invariant Len(Ahead()) <= Len(old(Ahead()))
        invariant more == StartsRedir(Ahead())
        decreases Len(Ahead())
      {
        r := ParseRedir(r.cmd);
        if r.Panic? { return; }
        more := Peek("<>");
      }
    }

    /** One redirection. */
    method ParseRedir(c: Cmd<Span>) returns (r: Outcome)
      requires Valid() && Spans(line, c) && StartsRedir(Ahead())
      modifies this
      ensures Valid() && Len(Ahead()) < Len(old(Ahead()))
      ensures r.Panic? ==> Redirs(Words(line, c), old(Ahead())).Bad?
      ensures r.Done? ==>
        Spans(line, r.cmd) && Redirs(Words(line, r.cmd), Ahead()) == Redirs(Words(line, c), old(Ahead()))
    {
      var tok, _ := GetToken();
      var a, file := GetToken();
      if a != 'a' {
        return Panic;
      }
      return Done(Redir(c, file, tok != '<'));
    }

    method ParseLine() returns (r: Outcome)
      requires Valid()
      modifies this
      ensures Valid() && Agrees(line, r, Ahead(), Line(old(Ahead()))) && Len(Ahead()) <= Len(old(Ahead()))
      decreases Len(Ahead()), 4
    {
      r := ParsePipe();
      if r.Panic? { return; }
      r := ParseBacks(r.cmd);
      var semi := Peek(";");
      if semi {
        var _, _ := GetToken();
        var l := ParseLine();
        if l.Panic? { return Panic; }
        r := Done(List(r.cmd, l.cmd));
      }
    }

    /** parseline's loop over '&'. */
    method ParseBacks(cmd: Cmd<Span>) returns (r: Outcome)
      requires Valid() && Spans(line, cmd)
      modifies this
      ensures Valid() && Agrees(line, r, Ahead(), Backs(Words(line, cmd), old(Ahead())))
      ensures Len(Ahead()) <= Len(old(Ahead()))
    {
      var c := cmd;
      ghost var spec := Backs(Words(line, cmd), Ahead());
      var more := Peek("&");
      while more
        invariant Valid() && Spans(line, c) && Backs(Words(line, c), Ahead()) == spec
        invariant Len(Ahead()) <= Len(old(Ahead()))
        invariant more == Starts(Ahead(), '&')
        decreases Len(Ahead())
      {
        var _, _ := GetToken();
        c := Back(c);
        more := Peek("&");
      }
      return Done(c);
    }

    method ParsePipe() returns (r: Outcome)
      requires Valid()
      modifies this
      ensures Valid() && Agrees(line, r, Ahead(), PipeLine(old(Ahead()))) && Len(Ahead()) <= Len(old(Ahead()))
      decreases Len(Ahead()), 3
    {
      r := ParseExec();
      if r.Panic? { return; }
      var bar := Peek("|");
      if bar {
        var _, _ := GetToken();
        var p := ParsePipe();
        if p.Panic? { return Panic; }
        r := Done(Pipe(r.cmd, p.cmd));
      }
    }

    /** parseblock; its first panic is never met. */
    method ParseBlock() returns (r: Outcome)
      requires Valid() && Starts(Ahead(), '(')
      modifies this
      ensures Valid() && Agrees(line, r, Ahead(), Command(old(Ahead()))) && Len(Ahead()) <= Len(old(Ahead()))
      decreases Len(Ahead()), 1
    {
      var open := Peek("(");
      var _, _ := GetToken();
      r := ParseLine();
      if r.Panic? { return; }
      var close := Peek(")");
      if !close {
        return Panic;
      }
      var _, _ := GetToken();
      r := ParseRedirs(r.cmd);
    }

    method ParseExec() returns (r: Outcome)
      requires Valid()
      modifies this
      ensures Valid() && Agrees(line, r, Ahead(), Command(old(Ahead()))) && Len(Ahead()) <= Len(old(Ahead()))
      decreases Len(Ahead()), 2
    {
      var open := Peek("(");
      if open {
        r := ParseBlock();
        return;
      }
      r := ParseRedirs(Exec([]));
      if r.Panic? { return; }
      r := ParseArgs(r.cmd);
    }

    /** The guard of parseexec's loop. */
    method PeekStop() returns (b: bool)
      requires Valid()
      modifies this
      ensures Valid() && Ahead() == old(Ahead()) && b == StopsArgs(Ahead())
    {
      b := Peek("|)&;");
    }

    /** parseexec's loop. */
    method ParseArgs(cmd: Cmd<Span>) returns (r: Outcome)
      requires Valid() && Spans(line, cmd)
      modifies this
      ensures Valid() && Agrees(line, r, Ahead(), Args(Words(line, cmd), old(Ahead())))
      ensures Len(Ahead()) <= Len(old(Ahead()))
    {
      r := Done(cmd);
      ghost var spec := Args(Words(line, cmd), Ahead());
      var stop := PeekStop();
      while !stop
        invariant Valid() && r.Done? && Spans(line, r.cmd) && Args(Words(line, r.cmd), Ahead()) == spec
        invariant Len(Ahead()) <= Len(old(Ahead()))
        invariant stop == StopsArgs(Ahead())
        decreases Len(Ahead())
      {
        var end;
        r, end := ParseArg(r.cmd);
        if end || r.Panic? { return; }
        stop := PeekStop();
      }
    }

    /** One pass of it: the end of the line, or one argument and the redirections after it. */
    method ParseArg(c: Cmd<Span>) returns (r: Outcome, end: bool)
      requires Valid() && Spans(line, c) && !StopsArgs(Ahead())
      modifies this
      ensures Valid() && end == old(Ahead()).Nil?
      ensures if end then r == Done(c) && Ahead().Nil? else Len(Ahead()) < Len(old(Ahead()))
      ensures r.Panic? ==> Args(Words(line, c), old(Ahead())).Bad?
      ensures r.Done? ==> Spans(line, r.cmd) && Args(Words(line, r.cmd), Ahead()) == Args(Words(line, c), old(Ahead()))
    {
      var tok, w := GetToken();
      if tok == NUL {
        return Done(c), true;
      }
      end := false;
      if tok != 'a' {
        return Panic, end;
      }
      WordsWithArg(line, c, w);
      var ret := WithArg(c, w);
      if ArgCount(ret) >= MAXARGS {
        return Panic, end;
      }
      r := ParseRedirs(ret);
    }

    /** parsecmd, but for the NULs. */
    method ParseWhole() returns (r: Outcome)
      requires s == 0
      modifies this
      ensures Agrees(line, r, Nil, Whole(Scan(line, 0)))
    {
      r := ParseLine();
      if r.Panic? { return; }
      var more := Peek("");
      if s != |line| {
        return Panic;
      }
    }
  }

  // ---- nulterminate ----

  /** Every word of the tree ends in NUL. */
  ghost predicate Terminated(buf: seq<char>, c: Cmd<Span>) {
    match c
    case Exec(args) => forall i | 0 <= i < |args| :: args[i].eq < |buf| && buf[args[i].eq] == NUL
    case Redir(d, file, _) => Terminated(buf, d) && file.eq < |buf| && buf[file.eq] == NUL
    case Pipe(l, r) => Terminated(buf, l) && Terminated(buf, r)
    case List(l, r) => Terminated(buf, l) && Terminated(buf, r)
    case Back(d) => Terminated(buf, d)
  }

  /** More NULs, but none in place of a word character of the line. */
  ghost predicate Punched(line: string, a: seq<char>, b: seq<char>) {
    && |a| == |b| == |line| + 1
    && (forall i {:trigger b[i]} | 0 <= i < |a| :: b[i] == a[i] || b[i] == NUL)
    && (forall i {:trigger b[i]} | 0 <= i < |line| && IsWord(line[i]) :: b[i] == a[i])
  }

  lemma {:induction false} StaysTerminated(line: string, a: seq<char>, b: seq<char>, c: Cmd<Span>)
    requires Punched(line, a, b) && Terminated(a, c)
    ensures Terminated(b, c)
  {
    match c
    case Exec(_) =>
    case Redir(d, _, _) => StaysTerminated(line, a, b, d);
    case Pipe(l, r) => StaysTerminated(line, a, b, l); StaysTerminated(line, a, b, r);
    case List(l, r) => StaysTerminated(line, a, b, l); StaysTerminated(line, a, b, r);
    case Back(d) => StaysTerminated(line, a, b, d);
  }

  /** nulterminate on the characters of `line` and its NUL: every word of the tree comes
      to end in NUL, and no word, of this tree or not, loses a character. */
  method NulTerminate(line: string, buf: array<char>, c: Cmd<Span>)
    requires buf.Length == |line| + 1 && Spans(line, c)
    modifies buf
    ensures Terminated(buf[..], c) && Punched(line, old(buf[..]), buf[..])
    decreases c
  {
    match c
    case Exec(args) =>
      var i := 0;
      while i < |args|
        invariant 0 <= i <= |args| && Punched(line, old(buf[..]), buf[..])
        invariant forall j | 0 <= j < i :: buf[args[j].eq] == NUL
      {
        assert IsToken(line, args[i]);
        buf[args[i].eq] := NUL;
        i := i + 1;
      }
    case Redir(d, file, _) =>
      NulTerminate(line, buf, d);
      ghost var b := buf[..];
      buf[file.eq] := NUL;
      StaysTerminated(line, b, buf[..], d);
    case Pipe(l, r) =>
      NulTerminate(line, buf, l);
      ghost var b := buf[..];
      NulTerminate(line, buf, r);
      StaysTerminated(line, b, buf[..], l);
    case List(l, r) =>
      NulTerminate(line, buf, l);
      ghost var b := buf[..];
      NulTerminate(line, buf, r);
      StaysTerminated(line, b, buf[..], l);
    case Back(d) =>
      NulTerminate(line, buf, d);
  }

  /** The C string that starts at `q`. */
  function CString(buf: seq<char>, q: nat): string
    requires q <= |buf|
    decreases |buf| - q
  {
    if q == |buf| || buf[q] == NUL then "" else [buf[q]] + CString(buf, q + 1)
  }

  /** So each argument, as a C string, is the word that was read. */
  lemma {:induction false} TerminatedWordIsText(line: string, buf: seq<char>, w: Span, q: nat)
    requires IsToken(line, w) && Punched(line, line + [NUL], buf) && buf[w.eq] == NUL && w.q <= q <= w.eq
    requires forall i | 0 <= i < |line| :: line[i] != NUL
    ensures CString(buf, q) == line[q..w.eq]
    decreases w.eq - q
  {
    if q < w.eq {
      TerminatedWordIsText(line, buf, w, q + 1);
      assert buf[q] == (line + [NUL])[q];
      assert line[q..w.eq] == [line[q]] + line[q + 1..w.eq];
    }
  }

  /** parsecmd on a line in a buffer. */
  method ParseCmd(line: string, buf: array<char>) returns (r: Outcome)
    requires buf[..] == line + [NUL]
    modifies buf
    ensures r.Panic? <==> Whole(Scan(line, 0)).Bad?
    ensures r.Panic? <==> !exists l, c :: Derives(l, Scan(line, 0), c)
    ensures r.Done? ==> exists l :: Derives(l, Scan(line, 0), Words(line, r.cmd))
    ensures r.Done? ==> Spans(line, r.cmd) && Words(line, r.cmd) == Whole(Scan(line, 0)).cmd
    ensures r.Done? ==> Terminated(buf[..], r.cmd) && Punched(line, line + [NUL], buf[..])
  {
    var p := new Parser(line);
    r := p.ParseWhole();
    ParserIsGrammar(Scan(line, 0), if r.Done? then Words(line, r.cmd) else Exec([]));
    if r.Done? {
      NulTerminate(line, buf, r.cmd);
    }
  }
}
