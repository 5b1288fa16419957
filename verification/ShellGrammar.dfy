/**
 sh.c: command trees, the grammar of the parser over tokens, and a printer. Parsing what was
 printed gives the tree back.
 */
module ShellGrammar {
  import opened ShellTokens

  const MAXARGS := 10

  datatype Tree =
    | Exec(args: seq<string>)
    | Redir(cmd: Tree, file: string, input: bool)
    | Pipe(left: Tree, right: Tree)
    | List(left: Tree, right: Tree)
    | Back(cmd: Tree)

  datatype Redirection = Redirection(file: string, input: bool)

  datatype Parsed = Parsed(tree: Tree, rest: seq<Token>) | Bad
  datatype Redirs = Redirs(rs: seq<Redirection>, rest: seq<Token>) | BadRedirs
  datatype Args = Args(args: seq<string>, rs: seq<Redirection>, rest: seq<Token>) | BadArgs

  predicate Starts(ts: seq<Token>, c: char) {
    |ts| > 0 && ts[0] == Sym(c)
  }

  predicate StartsRedir(ts: seq<Token>) {
    |ts| > 0 && (ts[0] == Sym('<') || ts[0] == Sym('>') || ts[0] == Append)
  }

  /** The tokens that end the arguments of a command. */
  predicate EndsArgs(ts: seq<Token>) {
    |ts| == 0 || Starts(ts, '|') || Starts(ts, ')') || Starts(ts, '&') || Starts(ts, ';')
  }

  /** `t` with the redirections around it, the first innermost. */
  function Wrap(t: Tree, rs: seq<Redirection>): (r: Tree)
    decreases |rs|
  {
    if |rs| == 0 then t else Wrap(Redir(t, rs[0].file, rs[0].input), rs[1..])
  }

  // ----- parsing -----

  function ParseRedirs(ts: seq<Token>): (r: Redirs)
    ensures r.Redirs? ==> |r.rest| <= |ts| && !StartsRedir(r.rest)
  {
    if !StartsRedir(ts) then Redirs([], ts)
    else if |ts| < 2 || !ts[1].Word? then BadRedirs
    else
      var more := ParseRedirs(ts[2..]);
      if more.BadRedirs? then BadRedirs
      else Redirs([Redirection(ts[1].text, ts[0] == Sym('<'))] + more.rs, more.rest)
  }

  function ParseArgs(args: seq<string>, rs: seq<Redirection>, ts: seq<Token>): (r: Args)
    ensures r.Args? ==> |r.rest| <= |ts|
    decreases |ts|
  {
    if EndsArgs(ts) then Args(args, rs, ts)
    else if !ts[0].Word? || |args| + 1 >= MAXARGS then BadArgs
    else
      var more := ParseRedirs(ts[1..]);
      if more.BadRedirs? then BadArgs else ParseArgs(args + [ts[0].text], rs + more.rs, more.rest)
  }

  function ParseExec(ts: seq<Token>): (r: Parsed)
    ensures r.Parsed? ==> |r.rest| <= |ts|
    decreases |ts|, 0
  {
    if Starts(ts, '(') then
      var inner := ParseLine(ts[1..]);
      if inner.Bad? || !Starts(inner.rest, ')') then Bad
      else
        var after := ParseRedirs(inner.rest[1..]);
        if after.BadRedirs? then Bad else Parsed(Wrap(inner.tree, after.rs), after.rest)
    else
      var front := ParseRedirs(ts);
      if front.BadRedirs? then Bad
      else
        var all := ParseArgs([], front.rs, front.rest);
        if all.BadArgs? then Bad else Parsed(Wrap(Exec(all.args), all.rs), all.rest)
  }

  function ParsePipe(ts: seq<Token>): (r: Parsed)
    ensures r.Parsed? ==> |r.rest| <= |ts|
    decreases |ts|, 1
  {
    var left := ParseExec(ts);
    if left.Bad? || !Starts(left.rest, '|') then left
    else
      var right := ParsePipe(left.rest[1..]);
      if right.Bad? then Bad else Parsed(Pipe(left.tree, right.tree), right.rest)
  }

  function ParseBacks(t: Tree, ts: seq<Token>): (r: Parsed)
    ensures r.Parsed? && |r.rest| <= |ts| && !Starts(r.rest, '&')
    decreases |ts|
  {
    if Starts(ts, '&') then ParseBacks(Back(t), ts[1..]) else Parsed(t, ts)
  }

  function ParseLine(ts: seq<Token>): (r: Parsed)
    ensures r.Parsed? ==> |r.rest| <= |ts|
    decreases |ts|, 2
  {
    var first := ParsePipe(ts);
    if first.Bad? then Bad
    else
      var left := ParseBacks(first.tree, first.rest);
      if !Starts(left.rest, ';') then left
      else
        var right := ParseLine(left.rest[1..]);
        if right.Bad? then Bad else Parsed(List(left.tree, right.tree), right.rest)
  }

  // ----- printing -----

  predicate WordOk(w: string) {
    |w| > 0 && forall i :: 0 <= i < |w| ==> IsWordChar(w[i])
  }

  /** Words that a command line can hold, and not too many of them. */
  predicate WellFormed(t: Tree) {
    match t
    case Exec(args) => |args| < MAXARGS && forall i :: 0 <= i < |args| ==> WordOk(args[i])
    case Redir(cmd, file, _) => WellFormed(cmd) && WordOk(file)
    case Pipe(l, r) => WellFormed(l) && WellFormed(r)
    case List(l, r) => WellFormed(l) && WellFormed(r)
    case Back(cmd) => WellFormed(cmd)
  }

  function Words(args: seq<string>): (ts: seq<Token>)
    ensures |ts| == |args| && forall i :: 0 <= i < |ts| ==> ts[i] == Word(args[i])
  {
    seq(|args|, i requires 0 <= i < |args| => Word(args[i]))
  }

  function ShowRedir(file: string, input: bool): (ts: seq<Token>) {
    [Sym(if input then '<' else '>'), Word(file)]
  }

  function Parens(ts: seq<Token>): (r: seq<Token>) {
    [Sym('(')] + ts + [Sym(')')]
  }

  function ShowExec(t: Tree): (ts: seq<Token>)
    decreases t, 0
  {
    match t
    case Exec(args) => Words(args)
    case Redir(cmd, file, input) => ShowExec(cmd) + ShowRedir(file, input)
    case Pipe(l, r) => Parens(ShowExec(l) + [Sym('|')] + ShowPipe(r))
    case List(l, r) => Parens(ShowBacks(l) + [Sym(';')] + ShowLine(r))
    case Back(cmd) => Parens(ShowBacks(cmd) + [Sym('&')])
  }

  function ShowPipe(t: Tree): (ts: seq<Token>)
    decreases t, 1
  {
    match t
    case Pipe(l, r) => ShowExec(l) + [Sym('|')] + ShowPipe(r)
    case _ => ShowExec(t)
  }

  function ShowBacks(t: Tree): (ts: seq<Token>)
    decreases t, 2
  {
    match t
    case Back(cmd) => ShowBacks(cmd) + [Sym('&')]
    case _ => ShowPipe(t)
  }

  function ShowLine(t: Tree): (ts: seq<Token>)
    decreases t, 3
  {
    match t
    case List(l, r) => ShowBacks(l) + [Sym(';')] + ShowLine(r)
    case _ => ShowBacks(t)
  }

  /** A command line for tree `t`, with parentheses where the grammar needs them. */
  function Show(t: Tree): (s: string) {
    Render(ShowLine(t))
  }

  // ----- the round trip -----

  function Base(t: Tree): (b: Tree)
    ensures !b.Redir?
  {
    if t.Redir? then Base(t.cmd) else t
  }

  function RedirsOf(t: Tree): (rs: seq<Redirection>) {
    if t.Redir? then RedirsOf(t.cmd) + [Redirection(t.file, t.input)] else []
  }

  function ShowRedirs(rs: seq<Redirection>): (ts: seq<Token>) {
    if |rs| == 0 then [] else ShowRedir(rs[0].file, rs[0].input) + ShowRedirs(rs[1..])
  }

  lemma {:induction false} WrapLast(t: Tree, rs: seq<Redirection>, r: Redirection)
    ensures Wrap(t, rs + [r]) == Redir(Wrap(t, rs), r.file, r.input)
    ensures ShowRedirs(rs + [r]) == ShowRedirs(rs) + ShowRedir(r.file, r.input)
    decreases |rs|
  {
    if |rs| > 0 {
      assert (rs + [r])[1..] == rs[1..] + [r];
      WrapLast(Redir(t, rs[0].file, rs[0].input), rs[1..], r);
    }
  }

  /** A tree is its base with redirections around it, and is printed so. */
  lemma {:induction false} Unwrap(t: Tree)
    ensures t == Wrap(Base(t), RedirsOf(t)) && ShowExec(t) == ShowExec(Base(t)) + ShowRedirs(RedirsOf(t))
    ensures Base(t) == t || Base(t) < t
  {
    if t.Redir? {
      Unwrap(t.cmd);
      WrapLast(Base(t.cmd), RedirsOf(t.cmd), Redirection(t.file, t.input));
    }
  }

  lemma {:induction false} RedirsBack(rs: seq<Redirection>, rest: seq<Token>)
    requires !StartsRedir(rest)
    ensures ParseRedirs(ShowRedirs(rs) + rest) == Redirs(rs, rest)
  {
    if |rs| > 0 {
      var ts := ShowRedirs(rs) + rest;
      assert ts[2..] == ShowRedirs(rs[1..]) + rest;
      RedirsBack(rs[1..], rest);
    } else {
      assert ShowRedirs(rs) + rest == rest;
    }
  }

  lemma ArgsStep(args: seq<string>, rs: seq<Redirection>, ts: seq<Token>)
    ensures EndsArgs(ts) ==> ParseArgs(args, rs, ts) == Args(args, rs, ts)
    ensures !EndsArgs(ts) && (!ts[0].Word? || |args| + 1 >= MAXARGS) ==> ParseArgs(args, rs, ts) == BadArgs
    ensures !EndsArgs(ts) && ts[0].Word? && |args| + 1 < MAXARGS ==>
              var more := ParseRedirs(ts[1..]);
              ParseArgs(args, rs, ts) ==
              if more.BadRedirs? then BadArgs
              else ParseArgs(args + [ts[0].text], rs + more.rs, more.rest)
  {
  }

  lemma {:induction false} ArgsBack(args: seq<string>, ws: seq<string>, rs: seq<Redirection>, rest: seq<Token>)
    requires |ws| > 0 && |args| + |ws| < MAXARGS && EndsArgs(rest)
    ensures ParseArgs(args, [], Words(ws) + (ShowRedirs(rs) + rest)) == Args(args + ws, rs, rest)
    decreases |ws|
  {
    hide ParseArgs, ParseRedirs, ShowRedirs, Words;
    if |ws| == 1 {
      assert ws == [ws[0]];
      LastArg(args, ws[0], rs, rest);
    } else {
      ArgsOne(args, ws, ShowRedirs(rs) + rest);
      assert args + ws == args + [ws[0]] + ws[1..];
      ArgsBack(args + [ws[0]], ws[1..], rs, rest);
    }
  }

  /** One argument is read, and no redirection behind it if a word follows. */
  lemma {:induction false} ArgsOne(args: seq<string>, ws: seq<string>, tail: seq<Token>)
    requires |ws| > 1 && |args| + |ws| < MAXARGS
    ensures ParseArgs(args, [], Words(ws) + tail) == ParseArgs(args + [ws[0]], [], Words(ws[1..]) + tail)
  {
    hide ParseArgs;
    var ts, none: seq<Redirection> := Words(ws) + tail, [];
    assert ts[0] == Word(ws[0]) && ts[1..] == Words(ws[1..]) + tail;
    assert ts[1..][0] == Word(ws[1]);
    assert ParseRedirs(ts[1..]) == Redirs(none, ts[1..]) && none + none == none;
    ArgsStep(args, none, ts);
  }

  lemma {:induction false} LastArg(args: seq<string>, w: string, rs: seq<Redirection>, rest: seq<Token>)
    requires EndsArgs(rest) && |args| + 1 < MAXARGS
    ensures ParseArgs(args, [], Words([w]) + (ShowRedirs(rs) + rest)) == Args(args + [w], rs, rest)
  {
    hide ParseArgs, ParseRedirs, ShowRedirs;
    var tail, none: seq<Redirection> := ShowRedirs(rs) + rest, [];
    var ts := Words([w]) + tail;
    assert ts[0] == Word(w) && ts[1..] == tail && none + rs == rs;
    RedirsBack(rs, rest);
    ArgsStep(args, none, ts);
    ArgsStep(args + [w], rs, rest);
  }

  lemma ExecBack(args: seq<string>, rs: seq<Redirection>, rest: seq<Token>)
    requires |args| < MAXARGS && EndsArgs(rest)
    ensures ParseExec(Words(args) + (ShowRedirs(rs) + rest)) == Parsed(Wrap(Exec(args), rs), rest)
  {
    var ts := Words(args) + (ShowRedirs(rs) + rest);
    if |args| == 0 {
      assert ts == ShowRedirs(rs) + rest;
      RedirsBack(rs, rest);
      assert !Starts(ts, '(') by { if |rs| > 0 { assert ts[0] == ShowRedirs(rs)[0]; } else { assert ts == rest; } }
    } else {
      assert ParseRedirs(ts) == Redirs([], ts);
      ArgsBack([], args, rs, rest);
      assert [] + args == args;
    }
  }

  /** What comes in parentheses is read as a line. */
  ghost predicate ReadsAs(inner: seq<Token>, t: Tree, rest: seq<Token>) {
    ParseLine(inner + rest) == Parsed(t, rest)
  }

  lemma BlockBack(inner: seq<Token>, t: Tree, rs: seq<Redirection>, rest: seq<Token>)
    requires EndsArgs(rest) && ReadsAs(inner, t, [Sym(')')] + (ShowRedirs(rs) + rest))
    ensures ParseExec(Parens(inner) + (ShowRedirs(rs) + rest)) == Parsed(Wrap(t, rs), rest)
  {
    var tail := ShowRedirs(rs) + rest;
    var ts := Parens(inner) + tail;
    assert ts[1..] == inner + ([Sym(')')] + tail);
    assert ([Sym(')')] + tail)[1..] == tail;
    RedirsBack(rs, rest);
  }

  lemma PipeBack(t: Tree, rest: seq<Token>)
    requires t.Pipe? && WellFormed(t) && EndsArgs(rest) && !Starts(rest, '|')
    ensures ParsePipe(ShowExec(t.left) + [Sym('|')] + ShowPipe(t.right) + rest) == Parsed(t, rest)
    decreases t, 0
  {
    var more := [Sym('|')] + ShowPipe(t.right) + rest;
    assert ShowExec(t.left) + [Sym('|')] + ShowPipe(t.right) + rest == ShowExec(t.left) + more;
    assert more[1..] == ShowPipe(t.right) + rest;
    ExecTrip(t.left, more);
    PipeTrip(t.right, rest);
  }

  /** Up to its ampersands the line is read, and the ampersands that follow are yet to come. */
  ghost predicate BacksTo(ts: seq<Token>, t: Tree, rest: seq<Token>) {
    var p := ParsePipe(ts + rest);
    p.Parsed? && ParseBacks(p.tree, p.rest) == ParseBacks(t, rest)
  }

  lemma BackBack(t: Tree, rest: seq<Token>)
    requires t.Back? && WellFormed(t) && EndsArgs(rest) && !Starts(rest, '|')
    ensures BacksTo(ShowBacks(t.cmd) + [Sym('&')], t, rest)
    decreases t, 0
  {
    var more := [Sym('&')] + rest;
    assert ShowBacks(t.cmd) + [Sym('&')] + rest == ShowBacks(t.cmd) + more;
    assert more[1..] == rest;
    BacksTrip(t.cmd, more);
  }

  lemma ListBack(t: Tree, rest: seq<Token>)
    requires t.List? && WellFormed(t) && (rest == [] || Starts(rest, ')'))
    ensures ReadsAs(ShowBacks(t.left) + [Sym(';')] + ShowLine(t.right), t, rest)
    decreases t, 0
  {
    var more := [Sym(';')] + ShowLine(t.right) + rest;
    assert ShowBacks(t.left) + [Sym(';')] + ShowLine(t.right) + rest == ShowBacks(t.left) + more;
    assert more[1..] == ShowLine(t.right) + rest;
    BacksTrip(t.left, more);
    LineTrip(t.right, rest);
  }

  lemma ExecTrip(t: Tree, rest: seq<Token>)
    requires WellFormed(t) && EndsArgs(rest)
    ensures ParseExec(ShowExec(t) + rest) == Parsed(t, rest)
    decreases t, 1
  {
    Unwrap(t);
    var b, rs := Base(t), RedirsOf(t);
    BaseOk(t);
    assert ShowExec(t) + rest == ShowExec(b) + (ShowRedirs(rs) + rest);
    var after := [Sym(')')] + (ShowRedirs(rs) + rest);
    match b
    case Exec(args) => ExecBack(args, rs, rest);
    case Pipe(l, r) =>
      PipeBack(b, after);
      BlockBack(ShowExec(l) + [Sym('|')] + ShowPipe(r), b, rs, rest);
    case List(l, r) =>
      ListBack(b, after);
      BlockBack(ShowBacks(l) + [Sym(';')] + ShowLine(r), b, rs, rest);
    case Back(c) =>
      BackBack(b, after);
      BlockBack(ShowBacks(c) + [Sym('&')], b, rs, rest);
  }

  lemma {:induction false} BaseOk(t: Tree)
    requires WellFormed(t)
    ensures WellFormed(Base(t))
  {
    if t.Redir? { BaseOk(t.cmd); }
  }

  lemma PipeTrip(t: Tree, rest: seq<Token>)
    requires WellFormed(t) && EndsArgs(rest) && !Starts(rest, '|')
    ensures ParsePipe(ShowPipe(t) + rest) == Parsed(t, rest)
    decreases t, 2
  {
    if t.Pipe? { PipeBack(t, rest); } else { ExecTrip(t, rest); }
  }

  lemma BacksTrip(t: Tree, rest: seq<Token>)
    requires WellFormed(t) && EndsArgs(rest) && !Starts(rest, '|')
    ensures BacksTo(ShowBacks(t), t, rest)
    decreases t, 3
  {
    if t.Back? { BackBack(t, rest); } else { PipeTrip(t, rest); }
  }

  lemma LineTrip(t: Tree, rest: seq<Token>)
    requires WellFormed(t) && (rest == [] || Starts(rest, ')'))
    ensures ParseLine(ShowLine(t) + rest) == Parsed(t, rest)
    decreases t, 4
  {
    if t.List? { ListBack(t, rest); } else { BacksTrip(t, rest); }
  }

  // ----- printed lines -----

  lemma {:induction false} ShowPlain(t: Tree)
    requires WellFormed(t)
    ensures forall i :: 0 <= i < |ShowExec(t)| ==> Plain(ShowExec(t)[i])
    ensures forall i :: 0 <= i < |ShowPipe(t)| ==> Plain(ShowPipe(t)[i])
    ensures forall i :: 0 <= i < |ShowBacks(t)| ==> Plain(ShowBacks(t)[i])
    ensures forall i :: 0 <= i < |ShowLine(t)| ==> Plain(ShowLine(t)[i])
  {
    match t
    case Exec(args) =>
    case Redir(cmd, file, input) => ShowPlain(cmd);
    case Pipe(l, r) => ShowPlain(l); ShowPlain(r);
    case List(l, r) => ShowPlain(l); ShowPlain(r);
    case Back(cmd) => ShowPlain(cmd);
  }

  /** Parsing the printed form of any command tree yields that tree. */
  lemma RoundTrip(t: Tree)
    requires WellFormed(t)
    ensures ParseLine(Lex(Show(t))) == Parsed(t, [])
  {
    ShowPlain(t);
    LexRender(ShowLine(t));
    LineTrip(t, []);
    assert ShowLine(t) + [] == ShowLine(t);
  }

  // ----- what the parser accepts -----

  ghost predicate RedirsOk(rs: seq<Redirection>) {
    forall i :: 0 <= i < |rs| ==> WordOk(rs[i].file)
  }

  lemma {:induction false} WrapOk(t: Tree, rs: seq<Redirection>)
    requires WellFormed(t) && RedirsOk(rs)
    ensures WellFormed(Wrap(t, rs))
    decreases |rs|
  {
    if |rs| > 0 { WrapOk(Redir(t, rs[0].file, rs[0].input), rs[1..]); }
  }

  lemma {:induction false} ParseRedirsOk(ts: seq<Token>)
    requires AllPlain(ts)
    ensures ParseRedirs(ts).Redirs? ==> RedirsOk(ParseRedirs(ts).rs) && AllPlain(ParseRedirs(ts).rest)
  {
    if StartsRedir(ts) && |ts| >= 2 && ts[1].Word? { ParseRedirsOk(ts[2..]); }
  }

  lemma {:induction false} ParseArgsOk(args: seq<string>, rs: seq<Redirection>, ts: seq<Token>)
    requires AllPlain(ts) && RedirsOk(rs) && WellFormed(Exec(args))
    ensures var p := ParseArgs(args, rs, ts); p.Args? ==> WellFormed(Exec(p.args)) && RedirsOk(p.rs) && AllPlain(p.rest)
    decreases |ts|
  {
    if !EndsArgs(ts) && ts[0].Word? && |args| + 1 < MAXARGS {
      ParseRedirsOk(ts[1..]);
      var more := ParseRedirs(ts[1..]);
      if more.Redirs? { ParseArgsOk(args + [ts[0].text], rs + more.rs, more.rest); }
    }
  }

  ghost predicate ParsedOk(p: Parsed) {
    p.Parsed? ==> WellFormed(p.tree) && AllPlain(p.rest)
  }

  lemma {:induction false} ParseExecOk(ts: seq<Token>)
    requires AllPlain(ts)
    ensures ParsedOk(ParseExec(ts))
    decreases |ts|, 0
  {
    if Starts(ts, '(') {
      ParseLineOk(ts[1..]);
      var inner := ParseLine(ts[1..]);
      if inner.Parsed? && Starts(inner.rest, ')') {
        ParseRedirsOk(inner.rest[1..]);
        var after := ParseRedirs(inner.rest[1..]);
        if after.Redirs? { WrapOk(inner.tree, after.rs); }
      }
    } else {
      ParseRedirsOk(ts);
      var front := ParseRedirs(ts);
      if front.Redirs? {
        ParseArgsOk([], front.rs, front.rest);
        var all := ParseArgs([], front.rs, front.rest);
        if all.Args? { WrapOk(Exec(all.args), all.rs); }
      }
    }
  }

  lemma {:induction false} ParsePipeOk(ts: seq<Token>)
    requires AllPlain(ts)
    ensures ParsedOk(ParsePipe(ts))
    decreases |ts|, 1
  {
    ParseExecOk(ts);
    var left := ParseExec(ts);
    if left.Parsed? && Starts(left.rest, '|') { ParsePipeOk(left.rest[1..]); }
  }

  lemma {:induction false} ParseBacksOk(t: Tree, ts: seq<Token>)
    requires WellFormed(t) && AllPlain(ts)
    ensures ParsedOk(ParseBacks(t, ts))
    decreases |ts|
  {
    if Starts(ts, '&') { ParseBacksOk(Back(t), ts[1..]); }
  }

  lemma {:induction false} ParseLineOk(ts: seq<Token>)
    requires AllPlain(ts)
    ensures ParsedOk(ParseLine(ts))
    decreases |ts|, 2
  {
    ParsePipeOk(ts);
    var first := ParsePipe(ts);
    if first.Parsed? {
      ParseBacksOk(first.tree, first.rest);
      var left := ParseBacks(first.tree, first.rest);
      if Starts(left.rest, ';') { ParseLineOk(left.rest[1..]); }
    }
  }

  /** The trees that lines are parsed to are exactly the well-formed ones. */
  lemma ParsesIff(t: Tree)
    ensures WellFormed(t) <==> exists s :: ParseLine(Lex(s)) == Parsed(t, [])
  {
    if WellFormed(t) { RoundTrip(t); }
    if s :| ParseLine(Lex(s)) == Parsed(t, []) {
      LexPlain(s);
      ParseLineOk(Lex(s));
    }
  }
}
