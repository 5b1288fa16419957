/**
 sh.c: the parser as it works on the characters of a command line. A recorded word is a span of
 the line; the cursor is a position in it. Each method is tied to the grammar over tokens.
 */
module Shell {
  import opened ShellTokens
  import opened ShellGrammar
  import S = ShellSyntax

  /** The word from position `q` up to `eq`. */
  datatype Span = Span(q: nat, eq: nat)

  datatype File = File(name: Span, input: bool)

  datatype Cmd =
    | ExecCmd(argv: seq<Span>)
    | RedirCmd(cmd: Cmd, file: File)
    | PipeCmd(left: Cmd, right: Cmd)
    | ListCmd(left: Cmd, right: Cmd)
    | BackCmd(cmd: Cmd)

  datatype Outcome<T> = Ok(value: T) | Panic

  // ----- what was recorded -----

  /** A whole word of the line: word characters with none behind. */
  predicate SpanOk(s: string, w: Span) {
    && w.q < w.eq <= |s| && (forall i :: w.q <= i < w.eq ==> IsWordChar(s[i]))
    && (w.eq < |s| ==> !IsWordChar(s[w.eq]))
  }

  function Read(s: string, w: Span): string {
    if w.q <= w.eq <= |s| then s[w.q..w.eq] else ""
  }

  predicate CmdOk(s: string, c: Cmd) {
    match c
    case ExecCmd(argv) => forall k :: 0 <= k < |argv| ==> SpanOk(s, argv[k])
    case RedirCmd(cmd, file) => CmdOk(s, cmd) && SpanOk(s, file.name)
    case PipeCmd(l, r) => CmdOk(s, l) && CmdOk(s, r)
    case ListCmd(l, r) => CmdOk(s, l) && CmdOk(s, r)
    case BackCmd(cmd) => CmdOk(s, cmd)
  }

  function ReadAll(s: string, argv: seq<Span>): (r: seq<string>)
    ensures |r| == |argv| && forall k :: 0 <= k < |argv| ==> r[k] == Read(s, argv[k])
  {
    seq(|argv|, k requires 0 <= k < |argv| => Read(s, argv[k]))
  }

  function ReadFiles(s: string, files: seq<File>): (r: seq<Redirection>)
    ensures |r| == |files|
    ensures forall k :: 0 <= k < |files| ==>
              r[k] == Redirection(Read(s, files[k].name), files[k].input)
  {
    seq(|files|, k requires 0 <= k < |files| => Redirection(Read(s, files[k].name), files[k].input))
  }

  function TreeOf(s: string, c: Cmd): (t: Tree) {
    match c
    case ExecCmd(argv) => Exec(ReadAll(s, argv))
    case RedirCmd(cmd, file) => Redir(TreeOf(s, cmd), Read(s, file.name), file.input)
    case PipeCmd(l, r) => Pipe(TreeOf(s, l), TreeOf(s, r))
    case ListCmd(l, r) => List(TreeOf(s, l), TreeOf(s, r))
    case BackCmd(cmd) => Back(TreeOf(s, cmd))
  }

  // ----- tokens -----

  /** The tokens that are left at position `i`. */
  function Left(s: string, i: nat): (ts: seq<Token>)
    requires i <= |s|
  {
    Lex(s[i..])
  }

  function CodeOf(t: Token): char {
    match t
    case Sym(c) => c
    case Append => '+'
    case Word(_) => 'a'
  }

  lemma LeftSkips(s: string, i: nat, j: nat)
    requires i <= j <= |s| && forall k :: i <= k < j ==> IsSpace(s[k])
    ensures Left(s, i) == Left(s, j)
    decreases j - i
  {
    if i < j {
      assert s[i..][1..] == s[i + 1..];
      LeftSkips(s, i + 1, j);
    }
  }

  lemma LeftAt(s: string, i: nat)
    requires i < |s| && !IsSpace(s[i])
    ensures |Left(s, i)| > 0 && Left(s, i)[0] == First(s[i..])
    ensures var n := |Text(First(s[i..]))|;
            0 < n <= |s| - i && Left(s, i)[1..] == Left(s, i + n) && Read(s, Span(i, i + n)) == Text(First(s[i..]))
  {
    FirstText(s[i..]);
    var n := |Text(First(s[i..]))|;
    assert s[i..][n..] == s[i + n..] && s[i..][..n] == s[i..i + n];
  }

  lemma WordLenIs(s: string, i: nat, j: nat)
    requires i <= j <= |s| && (forall k :: i <= k < j ==> IsWordChar(s[k])) && (j < |s| ==> !IsWordChar(s[j]))
    ensures WordLen(s[i..]) == j - i
    decreases j - i
  {
    if i < j {
      assert s[i..][1..] == s[i + 1..];
      WordLenIs(s, i + 1, j);
    }
  }

  method SkipSpaces(s: string, i: nat) returns (j: nat)
    requires i <= |s|
    ensures i <= j <= |s| && Left(s, j) == Left(s, i) && (j < |s| ==> !IsSpace(s[j]))
  {
    j := i;
    while j < |s| && IsSpace(s[j])
      invariant i <= j <= |s| && forall k :: i <= k < j ==> IsSpace(s[k])
    {
      j := j + 1;
    }
    LeftSkips(s, i, j);
  }

  /** The token that begins at `q`, and the position behind it. */
  method ScanToken(s: string, q: nat) returns (ret: char, j: nat)
    requires q < |s| && !IsSpace(s[q])
    ensures ret == CodeOf(First(s[q..])) && j == q + |Text(First(s[q..]))|
  {
    ret, j := s[q], q;
    if s[q] == '|' || s[q] == '(' || s[q] == ')' || s[q] == ';' || s[q] == '&' || s[q] == '<' {
      j := j + 1;
    } else if s[q] == '>' {
      j := j + 1;
      if j < |s| && s[j] == '>' {
        ret := '+';
        j := j + 1;
      }
    } else {
      ret := 'a';
      while j < |s| && !IsSpace(s[j]) && !IsSymbol(s[j])
        invariant q <= j <= |s| && forall k :: q <= k < j ==> IsWordChar(s[k])
      {
        j := j + 1;
      }
      WordLenIs(s, q, j);
    }
  }

  lemma WordSpan(s: string, q: nat)
    requires q < |s| && !IsSpace(s[q]) && First(s[q..]).Word?
    ensures SpanOk(s, Span(q, q + |Text(First(s[q..]))|))
  {
    var n := WordLen(s[q..]);
    assert forall i :: q <= i < q + n ==> s[i] == s[q..][i - q];
  }

  /** The next token: its code, 0 at the end, its span, and the position behind it and the spaces that follow. */
  method Gettoken(s: string, i: nat) returns (ret: char, w: Span, j: nat)
    requires i <= |s|
    ensures i <= j <= |s|
    ensures |Left(s, i)| == 0 ==> ret == 0 as char && j == |s|
    ensures |Left(s, i)| > 0 ==> ret == CodeOf(Left(s, i)[0]) && Left(s, j) == Left(s, i)[1..] && i < j
    ensures |Left(s, i)| > 0 && Left(s, i)[0].Word? ==> SpanOk(s, w) && Read(s, w) == Left(s, i)[0].text
    ensures ret == 'a' <==> |Left(s, i)| > 0 && Left(s, i)[0].Word?
    ensures ret == 0 as char <==> |Left(s, i)| == 0
  {
    LeftEnd(s);
    hide Left, First, SpanOk, Read;
    var q := SkipSpaces(s, i);
    if q == |s| {
      return 0 as char, Span(q, q), q;
    }
    LeftAt(s, q);
    FirstPlain(s[q..]);
    ret, j := ScanToken(s, q);
    w := Span(q, j);
    if First(s[q..]).Word? { WordSpan(s, q); }
    j := SkipSpaces(s, j);
  }

  lemma LeftEnd(s: string)
    ensures Left(s, |s|) == []
  {
  }

  /** Is the next character one of `toks`? */
  method Peek(s: string, i: nat, toks: string) returns (yes: bool, j: nat)
    requires i <= |s| && forall k :: 0 <= k < |toks| ==> IsSymbol(toks[k])
    ensures i <= j <= |s| && Left(s, j) == Left(s, i) && (j < |s| ==> !IsSpace(s[j]))
    ensures yes <==>
              && |Left(s, i)| > 0 && !Left(s, i)[0].Word?
              && (if Left(s, i)[0].Append? then '>' else Left(s, i)[0].c) in toks
  {
    LeftEnd(s);
    j := SkipSpaces(s, i);
    if j < |s| { LeftAt(s, j); }
    yes := j < |s| && s[j] in toks;
  }

  // ----- the parser -----

  function WrapCmd(c: Cmd, files: seq<File>): (r: Cmd)
    decreases |files|
  {
    if |files| == 0 then c else WrapCmd(RedirCmd(c, files[0]), files[1..])
  }

  predicate FilesOk(s: string, files: seq<File>) {
    forall k :: 0 <= k < |files| ==> SpanOk(s, files[k].name)
  }

  lemma {:induction false} WrapReads(s: string, c: Cmd, files: seq<File>)
    requires CmdOk(s, c) && FilesOk(s, files)
    ensures CmdOk(s, WrapCmd(c, files)) && TreeOf(s, WrapCmd(c, files)) == Wrap(TreeOf(s, c), ReadFiles(s, files))
    decreases |files|
  {
    if |files| > 0 {
      assert ReadFiles(s, files)[1..] == ReadFiles(s, files[1..]);
      WrapReads(s, RedirCmd(c, files[0]), files[1..]);
    }
  }

  /** Redirections already read, and then those that `r` has read. */
  function Join(rs: seq<Redirection>, r: Redirs): (j: Redirs) {
    if r.BadRedirs? then BadRedirs else Redirs(rs + r.rs, r.rest)
  }

  lemma {:induction false} JoinOne(rs: seq<Redirection>, ts: seq<Token>)
    requires StartsRedir(ts)
    ensures |ts| < 2 || !ts[1].Word? ==> Join(rs, ParseRedirs(ts)) == BadRedirs
    ensures |ts| >= 2 && ts[1].Word? ==>
              Join(rs, ParseRedirs(ts)) == Join(rs + [Redirection(ts[1].text, ts[0] == Sym('<'))], ParseRedirs(ts[2..]))
  {
    if |ts| >= 2 && ts[1].Word? {
      var one := [Redirection(ts[1].text, ts[0] == Sym('<'))];
      var more := ParseRedirs(ts[2..]);
      if more.Redirs? { assert rs + (one + more.rs) == rs + one + more.rs; }
    }
  }

  lemma JoinNone(ts: seq<Token>)
    ensures Join([], ParseRedirs(ts)) == ParseRedirs(ts)
  {
    var r := ParseRedirs(ts);
    if r.Redirs? { assert [] + r.rs == r.rs; }
  }

  lemma JoinEnd(rs: seq<Redirection>, ts: seq<Token>)
    requires !StartsRedir(ts)
    ensures Join(rs, ParseRedirs(ts)) == Redirs(rs, ts)
  {
    assert rs + [] == rs;
  }

  method Parseredirs(s: string, i: nat) returns (r: Outcome<seq<File>>, j: nat)
    requires i <= |s|
    ensures i <= j <= |s|
    ensures var p := ParseRedirs(Left(s, i));
            if p.BadRedirs? then r.Panic?
            else r.Ok? && FilesOk(s, r.value) && ReadFiles(s, r.value) == p.rs && Left(s, j) == p.rest
  {
    hide Left, ParseRedirs, SpanOk, Join;
    var files: seq<File> := [];
    JoinNone(Left(s, i));
    assert ReadFiles(s, files) == [];
    var more;
    more, j := Peek(s, i, "<>");
    while more
      invariant i <= j <= |s| && FilesOk(s, files)
      invariant Join(ReadFiles(s, files), ParseRedirs(Left(s, j))) == ParseRedirs(Left(s, i))
      invariant more <==> StartsRedir(Left(s, j))
      decreases |s| - j
    {
      ghost var ts := Left(s, j);
      JoinOne(ReadFiles(s, files), ts);
      var tok, tok2, w;
      tok, w, j := Gettoken(s, j);
      tok2, w, j := Gettoken(s, j);
      if tok2 != 'a' {
        return Panic, j;
      }
      ghost var before := ReadFiles(s, files);
      files := files + [File(w, tok == '<')];
      assert ReadFiles(s, files) == before + [Redirection(Read(s, w), tok == '<')];
      more, j := Peek(s, j, "<>");
    }
    JoinEnd(ReadFiles(s, files), Left(s, j));
    return Ok(files), j;
  }

  /** The method's result is the grammar's. */
  ghost predicate Agrees(s: string, p: Parsed, r: Outcome<Cmd>, j: nat) {
    if p.Bad? then r.Panic?
    else r.Ok? && j <= |s| && CmdOk(s, r.value) && TreeOf(s, r.value) == p.tree && Left(s, j) == p.rest
  }

  /** What has been read of a simple command: its arguments and redirections. */
  datatype Simple = Simple(argv: seq<Span>, files: seq<File>)

  ghost predicate SimpleOk(s: string, c: Simple) {
    (forall k :: 0 <= k < |c.argv| ==> SpanOk(s, c.argv[k])) && FilesOk(s, c.files) && |c.argv| < MAXARGS
  }

  /** What the grammar makes of `c` and the tokens at `j`. */
  ghost function Going(s: string, c: Simple, j: nat): (r: Args)
    requires j <= |s|
  {
    ParseArgs(ReadAll(s, c.argv), ReadFiles(s, c.files), Left(s, j))
  }

  /** One more argument, and the redirections behind it. */
  method Argument(s: string, i: nat, c: Simple) returns (r: Outcome<Simple>, j: nat)
    requires i <= |s| && SimpleOk(s, c) && !EndsArgs(Left(s, i))
    ensures i < j <= |s|
    ensures r.Panic? ==> Going(s, c, i) == BadArgs
    ensures r.Ok? ==> SimpleOk(s, r.value) && Going(s, r.value, j) == Going(s, c, i)
  {
    hide Left, ParseArgs, ParseRedirs, SpanOk;
    ghost var ts := Left(s, i);
    ArgsStep(ReadAll(s, c.argv), ReadFiles(s, c.files), ts);
    var tok, w;
    tok, w, j := Gettoken(s, i);
    if tok != 'a' {
      return Panic, j;
    }
    assert ReadAll(s, c.argv + [w]) == ReadAll(s, c.argv) + [Read(s, w)];
    if |c.argv| + 1 >= MAXARGS {
      return Panic, j;
    }
    var more;
    more, j := Parseredirs(s, j);
    if more.Panic? {
      return Panic, j;
    }
    assert ReadFiles(s, c.files + more.value) == ReadFiles(s, c.files) + ReadFiles(s, more.value);
    return Ok(Simple(c.argv + [w], c.files + more.value)), j;
  }

  /** The arguments of a command and the redirections among them. */
  method Parseargs(s: string, i: nat, front: seq<File>) returns (r: Outcome<Cmd>, j: nat)
    requires i <= |s| && FilesOk(s, front)
    ensures i <= j <= |s|
    ensures var p := ParseArgs([], ReadFiles(s, front), Left(s, i));
            Agrees(s, if p.BadArgs? then Bad else Parsed(Wrap(Exec(p.args), p.rs), p.rest), r, j)
  {
    LeftEnd(s);
    hide Left, SpanOk, Wrap, Going, SimpleOk, ParseArgs;
    var c := Simple([], front);
    Begins(s, c, i);
    var ends;
    ends, j := Peek(s, i, "|)&;");
    Moves(s, c, i, j);
    while !ends
      invariant i <= j <= |s| && SimpleOk(s, c) && Going(s, c, j) == Going(s, Simple([], front), i)
      invariant ends || j == |s| ==> EndsArgs(Left(s, j))
      invariant !ends && |Left(s, j)| > 0 ==> !EndsArgs(Left(s, j))
      invariant j == |s| || !IsSpace(s[j])
      decreases |s| - j, !ends
    {
      if j == |s| {
        break;      // gettoken returns 0
      }
      LeftAt(s, j);
      var more;
      more, j := Argument(s, j, c);
      if more.Panic? {
        return Panic, j;
      }
      c := more.value;
      ghost var j0 := j;
      ends, j := Peek(s, j, "|)&;");
      Moves(s, c, j0, j);
    }
    Finishes(s, c, j);
    return Ok(WrapCmd(ExecCmd(c.argv), c.files)), j;
  }

  lemma Begins(s: string, c: Simple, i: nat)
    requires i <= |s| && FilesOk(s, c.files) && c.argv == []
    ensures SimpleOk(s, c) && Going(s, c, i) == ParseArgs([], ReadFiles(s, c.files), Left(s, i))
  {
    assert ReadAll(s, c.argv) == [];
  }

  lemma Moves(s: string, c: Simple, i: nat, j: nat)
    requires i <= |s| && j <= |s| && Left(s, j) == Left(s, i)
    ensures Going(s, c, j) == Going(s, c, i)
  {
  }

  lemma Finishes(s: string, c: Simple, j: nat)
    requires j <= |s| && SimpleOk(s, c) && EndsArgs(Left(s, j))
    ensures var p := Going(s, c, j);
            p.Args? && Agrees(s, Parsed(Wrap(Exec(p.args), p.rs), p.rest), Ok(WrapCmd(ExecCmd(c.argv), c.files)), j)
  {
    ArgsStep(ReadAll(s, c.argv), ReadFiles(s, c.files), Left(s, j));
    WrapReads(s, ExecCmd(c.argv), c.files);
    hide ParseArgs, Wrap, WrapCmd, Left;
  }

  method Parseexec(s: string, i: nat) returns (r: Outcome<Cmd>, j: nat)
    requires i <= |s|
    ensures i <= j <= |s| && Agrees(s, ParseExec(Left(s, i)), r, j)
    decreases |s| - i, 1
  {
    hide Left, ParseLine, ParseArgs, Agrees;
    var block;
    block, j := Peek(s, i, "(");
    ExecStep(Left(s, i));
    if block {
      r, j := Parseblock(s, j);
      return;
    }
    var front;
    front, j := Parseredirs(s, j);
    if front.Panic? {
      Failed(s, j);
      return Panic, j;
    }
    r, j := Parseargs(s, j, front.value);
  }

  method Parseblock(s: string, i: nat) returns (r: Outcome<Cmd>, j: nat)
    requires i <= |s| && Starts(Left(s, i), '(')
    ensures i <= j <= |s| && Agrees(s, Block(Left(s, i)), r, j)
    decreases |s| - i, 0
  {
    hide Left, ParseLine, Wrap, WrapCmd;
    var tok, w;
    tok, w, j := Gettoken(s, i);
    r, j := Parseline(s, j);
    if r.Panic? {
      return;
    }
    var cmd, closed := r.value, false;
    closed, j := Peek(s, j, ")");
    if !closed {
      return Panic, j;
    }
    tok, w, j := Gettoken(s, j);
    var files;
    files, j := Parseredirs(s, j);
    if files.Panic? {
      return Panic, j;
    }
    WrapReads(s, cmd, files.value);
    return Ok(WrapCmd(cmd, files.value)), j;
  }

  method Parsepipe(s: string, i: nat) returns (r: Outcome<Cmd>, j: nat)
    requires i <= |s|
    ensures i <= j <= |s| && Agrees(s, ParsePipe(Left(s, i)), r, j)
    decreases |s| - i, 2
  {
    hide Left, ParseExec;
    PipeStep(Left(s, i));
    r, j := Parseexec(s, i);
    if r.Panic? {
      return;
    }
    var left, more := r.value, false;
    more, j := Peek(s, j, "|");
    if more {
      var tok, w;
      tok, w, j := Gettoken(s, j);
      r, j := Parsepipe(s, j);
      if r.Ok? {
        r := Ok(PipeCmd(left, r.value));
      }
    }
  }

  method Parseline(s: string, i: nat) returns (r: Outcome<Cmd>, j: nat)
    requires i <= |s|
    ensures i <= j <= |s| && Agrees(s, ParseLine(Left(s, i)), r, j)
    decreases |s| - i, 3
  {
    hide Left, ParsePipe, ParseBacks, ParseLine;
    LineStep(Left(s, i));
    r, j := Parsepipe(s, i);
    if r.Panic? {
      return;
    }
    var cmd, more := r.value, false;
    ghost var first := ParsePipe(Left(s, i));
    more, j := Peek(s, j, "&");
    BacksStep(TreeOf(s, cmd), Left(s, j));
    while more
      invariant i <= j <= |s| && CmdOk(s, cmd)
      invariant ParseBacks(TreeOf(s, cmd), Left(s, j)) == ParseBacks(first.tree, first.rest)
      invariant more <==> Starts(Left(s, j), '&')
      decreases |s| - j
    {
      BacksStep(TreeOf(s, cmd), Left(s, j));
      var tok, w;
      tok, w, j := Gettoken(s, j);
      cmd := BackCmd(cmd);
      more, j := Peek(s, j, "&");
    }
    BacksStep(TreeOf(s, cmd), Left(s, j));
    more, j := Peek(s, j, ";");
    if more {
      var tok, w;
      tok, w, j := Gettoken(s, j);
      r, j := Parseline(s, j);
      if r.Ok? {
        r := Ok(ListCmd(cmd, r.value));
      }
      return;
    }
    return Ok(cmd), j;
  }

  lemma Failed(s: string, j: nat)
    ensures Agrees(s, Bad, Panic, j)
  {
  }

  function Block(ts: seq<Token>): (r: Parsed)
    requires Starts(ts, '(')
  {
    var inner := ParseLine(ts[1..]);
    if inner.Bad? || !Starts(inner.rest, ')') then Bad
    else
      var after := ParseRedirs(inner.rest[1..]);
      if after.BadRedirs? then Bad else Parsed(Wrap(inner.tree, after.rs), after.rest)
  }

  lemma ExecStep(ts: seq<Token>)
    ensures Starts(ts, '(') ==> ParseExec(ts) == Block(ts)
    ensures !Starts(ts, '(') ==>
              var front := ParseRedirs(ts);
              ParseExec(ts) == if front.BadRedirs? then Bad
                               else var all := ParseArgs([], front.rs, front.rest);
                                    if all.BadArgs? then Bad else Parsed(Wrap(Exec(all.args), all.rs), all.rest)
  {
    hide ParseLine, ParseRedirs, ParseArgs, Wrap;
  }

  lemma PipeStep(ts: seq<Token>)
    ensures var left := ParseExec(ts);
            ParsePipe(ts) == if left.Bad? || !Starts(left.rest, '|') then left
                             else var right := ParsePipe(left.rest[1..]);
                                  if right.Bad? then Bad else Parsed(Pipe(left.tree, right.tree), right.rest)
  {
  }

  lemma BacksStep(t: Tree, ts: seq<Token>)
    ensures ParseBacks(t, ts) == if Starts(ts, '&') then ParseBacks(Back(t), ts[1..]) else Parsed(t, ts)
  {
  }

  lemma LineStep(ts: seq<Token>)
    ensures var first := ParsePipe(ts);
            ParseLine(ts) == if first.Bad? then Bad
                             else var left := ParseBacks(first.tree, first.rest);
                                  if !Starts(left.rest, ';') then left
                                  else var right := ParseLine(left.rest[1..]);
                                       if right.Bad? then Bad else Parsed(List(left.tree, right.tree), right.rest)
  {
  }

  /** Parse a whole line. What a tree is printed as is parsed to that tree. */
  method ParseAll(s: string) returns (r: Outcome<Cmd>)
    ensures var p := ParseLine(Lex(s));
            if p.Bad? || p.rest != [] then r.Panic? else r.Ok? && CmdOk(s, r.value) && TreeOf(s, r.value) == p.tree
    ensures forall t :: WellFormed(t) && s == Show(t) ==> r.Ok? && TreeOf(s, r.value) == t
  {
    assert s[0..] == s;
    forall t | WellFormed(t) && s == Show(t) ensures ParseLine(Lex(s)) == Parsed(t, []) { RoundTrip(t); }
    hide ParseLine, Show, WellFormed;
    var j;
    r, j := Parseline(s, 0);
    if r.Panic? {
      return;
    }
    LeftEnd(s);
    var _, k := Peek(s, j, "");
    if k != |s| {
      LeftAt(s, k);
      return Panic;
    }
  }

  // ----- terminating the words -----

  const NUL := 0 as char

  /** The buffer still has every word character of the line; only delimiters have been overwritten. */
  ghost predicate WordsKept(s: string, b: seq<char>) {
    |s| < |b| && forall k :: 0 <= k < |s| && IsWordChar(s[k]) ==> b[k] == s[k]
  }

  /** Every recorded word is followed by a NUL. */
  ghost predicate Terminated(b: seq<char>, c: Cmd) {
    match c
    case ExecCmd(argv) => forall k :: 0 <= k < |argv| ==> argv[k].eq < |b| && b[argv[k].eq] == NUL
    case RedirCmd(cmd, file) => Terminated(b, cmd) && file.name.eq < |b| && b[file.name.eq] == NUL
    case PipeCmd(l, r) => Terminated(b, l) && Terminated(b, r)
    case ListCmd(l, r) => Terminated(b, l) && Terminated(b, r)
    case BackCmd(cmd) => Terminated(b, cmd)
  }

  /** What is NUL stays NUL. */
  ghost predicate MoreNuls(b: seq<char>, b': seq<char>) {
    |b'| == |b| && forall k :: 0 <= k < |b| ==> b'[k] == b[k] || b'[k] == NUL
  }

  lemma {:induction false} StaysTerminated(b: seq<char>, b': seq<char>, c: Cmd)
    requires Terminated(b, c) && MoreNuls(b, b')
    ensures Terminated(b', c)
  {
    match c
    case ExecCmd(argv) =>
    case RedirCmd(cmd, file) => StaysTerminated(b, b', cmd);
    case PipeCmd(l, r) => StaysTerminated(b, b', l); StaysTerminated(b, b', r);
    case ListCmd(l, r) => StaysTerminated(b, b', l); StaysTerminated(b, b', r);
    case BackCmd(cmd) => StaysTerminated(b, b', cmd);
  }

  /** Put a NUL behind every word of `c`. */
  method Nulterminate(c: Cmd, buf: array<char>, ghost s: string)
    requires CmdOk(s, c) && WordsKept(s, buf[..])
    modifies buf
    ensures WordsKept(s, buf[..]) && Terminated(buf[..], c) && MoreNuls(old(buf[..]), buf[..])
    decreases c
  {
    match c
    case ExecCmd(argv) =>
      var i := 0;
      while i < |argv|
        invariant 0 <= i <= |argv| && WordsKept(s, buf[..]) && MoreNuls(old(buf[..]), buf[..])
        invariant Terminated(buf[..], ExecCmd(argv[..i]))
      {
        assert SpanOk(s, argv[i]);
        buf[argv[i].eq] := NUL;
        i := i + 1;
      }
      assert argv[..i] == argv;
    case RedirCmd(cmd, file) =>
      Nulterminate(cmd, buf, s);
      ghost var b := buf[..];
      buf[file.name.eq] := NUL;
      StaysTerminated(b, buf[..], cmd);
    case PipeCmd(l, r) =>
      Nulterminate(l, buf, s);
      ghost var b := buf[..];
      Nulterminate(r, buf, s);
      StaysTerminated(b, buf[..], l);
    case ListCmd(l, r) =>
      Nulterminate(l, buf, s);
      ghost var b := buf[..];
      Nulterminate(r, buf, s);
      StaysTerminated(b, buf[..], l);
    case BackCmd(cmd) => Nulterminate(cmd, buf, s);
  }

  /** The C string that begins at `i`. */
  function CString(b: seq<char>, i: nat): (r: string)
    decreases |b| - i
  {
    if i >= |b| || b[i] == NUL then "" else [b[i]] + CString(b, i + 1)
  }

  /** A terminated word reads as the word that was on the line. */
  lemma {:induction false} WordReads(s: string, b: seq<char>, w: Span, i: nat)
    requires SpanOk(s, w) && WordsKept(s, b) && b[w.eq] == NUL && NUL !in s && w.q <= i <= w.eq
    ensures CString(b, i) == s[i..w.eq]
    decreases w.eq - i
  {
    if i < w.eq {
      WordReads(s, b, w, i + 1);
      assert s[i..w.eq] == [s[i]] + s[i + 1..w.eq];
    }
  }

  /** `t` is what the strings of the terminated command say. */
  ghost predicate Says(b: seq<char>, c: Cmd, t: Tree) {
    match (c, t)
    case (ExecCmd(argv), Exec(args)) =>
      |args| == |argv| && forall k :: 0 <= k < |argv| ==> CString(b, argv[k].q) == args[k]
    case (RedirCmd(cmd, file), Redir(u, name, input)) =>
      Says(b, cmd, u) && CString(b, file.name.q) == name && file.input == input
    case (PipeCmd(l, r), Pipe(x, y)) => Says(b, l, x) && Says(b, r, y)
    case (ListCmd(l, r), List(x, y)) => Says(b, l, x) && Says(b, r, y)
    case (BackCmd(cmd), Back(u)) => Says(b, cmd, u)
    case _ => false
  }

  /** After termination the command holds the words of its tree. */
  lemma {:induction false} CommandReads(s: string, b: seq<char>, c: Cmd)
    requires CmdOk(s, c) && WordsKept(s, b) && Terminated(b, c) && NUL !in s
    ensures Says(b, c, TreeOf(s, c))
  {
    match c
    case ExecCmd(argv) =>
      forall k | 0 <= k < |argv|
        ensures CString(b, argv[k].q) == Read(s, argv[k]) { WordReads(s, b, argv[k], argv[k].q); }
    case RedirCmd(cmd, file) =>
      WordReads(s, b, file.name, file.name.q);
      CommandReads(s, b, cmd);
    case PipeCmd(l, r) => CommandReads(s, b, l); CommandReads(s, b, r);
    case ListCmd(l, r) => CommandReads(s, b, l); CommandReads(s, b, r);
    case BackCmd(cmd) => CommandReads(s, b, cmd);
  }

  /** The string up to the first NUL. */
  lemma {:induction false} CStringIs(b: seq<char>, i: nat, n: nat)
    requires i <= n < |b| && b[n] == NUL && NUL !in b[i..n]
    ensures CString(b, i) == b[i..n]
    decreases n - i
  {
    if i < n {
      assert b[i..n] == [b[i]] + b[i + 1..n];
      assert b[i] in b[i..n];
      CStringIs(b, i + 1, n);
    }
  }

  method Strlen(buf: array<char>) returns (n: nat)
    requires NUL in buf[..]
    ensures n < buf.Length && buf[n] == NUL && NUL !in buf[..n] && CString(buf[..], 0) == buf[..n]
  {
    n := 0;
    while buf[n] != NUL
      invariant n < buf.Length && NUL in buf[n..] && NUL !in buf[..n]
      decreases buf.Length - n
    {
      assert buf[n..] == [buf[n]] + buf[n + 1..];
      assert buf[..n + 1] == buf[..n] + [buf[n]];
      n := n + 1;
    }
    CStringIs(buf[..], 0, n);
    assert buf[..][0..n] == buf[..n];
  }

  lemma SyntaxDecides(s: string)
    ensures var p := ParseLine(Lex(s));
            && (p.Parsed? && p.rest == [] <==> exists l :: S.LineFits(l) && S.LineTokens(l) == Lex(s))
            && forall l :: S.LineFits(l) && S.LineTokens(l) == Lex(s) ==> p == Parsed(S.LineTree(l), [])
  {
    hide ParseLine, S.LineTokens, S.LineFits, S.LineTree, Lex;
    var p := ParseLine(Lex(s));
    if p.Parsed? && p.rest == [] { S.ParsesAs(Lex(s), p.tree); }
    forall l | S.LineFits(l) && S.LineTokens(l) == Lex(s) ensures p == Parsed(S.LineTree(l), []) {
      S.ParsesAs(Lex(s), S.LineTree(l));
    }
  }

  /**
   `parsecmd` on the buffer that holds the line: it succeeds if and only if the line is one of the
   syntax, and then the command it leaves behind says what the line means. For a printed tree that is
   the tree.
   */
  method Parsecmd(buf: array<char>) returns (r: Outcome<Cmd>)
    requires NUL in buf[..]
    modifies buf
    ensures var p := ParseLine(Lex(CString(old(buf[..]), 0)));
            if p.Bad? || p.rest != [] then r.Panic? && buf[..] == old(buf[..])
            else r.Ok? && Says(buf[..], r.value, p.tree)
    ensures forall t :: WellFormed(t) && CString(old(buf[..]), 0) == Show(t) ==> r.Ok? && Says(buf[..], r.value, t)
    ensures r.Ok? <==> exists l :: S.LineFits(l) && S.LineTokens(l) == Lex(CString(old(buf[..]), 0))
    ensures forall l :: S.LineFits(l) && S.LineTokens(l) == Lex(CString(old(buf[..]), 0)) ==>
              r.Ok? && Says(buf[..], r.value, S.LineTree(l))
  {
    SyntaxDecides(CString(buf[..], 0));
    hide S.LineFits, S.LineTokens, S.LineTree;
    hide ParseLine, Show, WellFormed, Lex, Says, Terminated, CmdOk, CString;
    var n := Strlen(buf);
    var s := buf[..n];
    r := ParseAll(s);
    if r.Panic? {
      return;
    }
    Nulterminate(r.value, buf, s);
    CommandReads(s, buf[..], r.value);
  }
}
