/**
 sh.c: the syntax of command lines, written down as it is typed: redirections anywhere among the words,
 `>>` for `>`, parentheses where they are not needed, empty commands. A line is accepted if and only if
 it is of this form, with the tree of that form.
 */
module ShellSyntax {
  import opened ShellTokens
  import opened ShellGrammar

  /** A redirection: `<`, `>` or `>>` and a file. */
  datatype To = From(file: string) | Into(file: string) | Onto(file: string)

  /** A word and the redirections behind it. */
  datatype Item = Item(word: string, tos: seq<To>)

  datatype Command =
    | Simple(front: seq<To>, items: seq<Item>)
    | Block(line: Line, tos: seq<To>)

  datatype Pipeline = Only(c: Command) | Piped(c: Command, more: Pipeline)

  /** A pipeline with ampersands behind it, and after a semicolon perhaps another line. */
  datatype Line = Last(p: Pipeline, backs: nat) | Then(p: Pipeline, backs: nat, more: Line)

  // ----- how they are typed -----

  function ToTokens(t: To): (ts: seq<Token>)
    ensures |ts| == 2
  {
    match t
    case From(f) => [Sym('<'), Word(f)]
    case Into(f) => [Sym('>'), Word(f)]
    case Onto(f) => [Append, Word(f)]
  }

  function TosTokens(tos: seq<To>): (ts: seq<Token>) {
    if |tos| == 0 then [] else ToTokens(tos[0]) + TosTokens(tos[1..])
  }

  function ItemsTokens(items: seq<Item>): (ts: seq<Token>) {
    if |items| == 0 then [] else [Word(items[0].word)] + (TosTokens(items[0].tos) + ItemsTokens(items[1..]))
  }

  function Amps(n: nat): (ts: seq<Token>) {
    if n == 0 then [] else [Sym('&')] + Amps(n - 1)
  }

  function CommandTokens(c: Command): (ts: seq<Token>) {
    match c
    case Simple(front, items) => TosTokens(front) + ItemsTokens(items)
    case Block(line, tos) => [Sym('(')] + (LineTokens(line) + ([Sym(')')] + TosTokens(tos)))
  }

  function PipelineTokens(p: Pipeline): (ts: seq<Token>) {
    match p
    case Only(c) => CommandTokens(c)
    case Piped(c, more) => CommandTokens(c) + ([Sym('|')] + PipelineTokens(more))
  }

  function LineTokens(l: Line): (ts: seq<Token>) {
    match l
    case Last(p, backs) => PipelineTokens(p) + Amps(backs)
    case Then(p, backs, more) => PipelineTokens(p) + (Amps(backs) + ([Sym(';')] + LineTokens(more)))
  }

  // ----- what they mean -----

  function Meaning(tos: seq<To>): (rs: seq<Redirection>)
    ensures |rs| == |tos| && forall i :: 0 <= i < |tos| ==> rs[i] == Redirection(tos[i].file, tos[i].From?)
  {
    seq(|tos|, i requires 0 <= i < |tos| => Redirection(tos[i].file, tos[i].From?))
  }

  function WordsOf(items: seq<Item>): (ws: seq<string>)
    ensures |ws| == |items| && forall i :: 0 <= i < |items| ==> ws[i] == items[i].word
  {
    seq(|items|, i requires 0 <= i < |items| => items[i].word)
  }

  function TosOf(items: seq<Item>): (tos: seq<To>) {
    if |items| == 0 then [] else items[0].tos + TosOf(items[1..])
  }

  function Backed(t: Tree, n: nat): (r: Tree)
    decreases n
  {
    if n == 0 then t else Backed(Back(t), n - 1)
  }

  function CommandTree(c: Command): (t: Tree) {
    match c
    case Simple(front, items) => Wrap(Exec(WordsOf(items)), Meaning(front + TosOf(items)))
    case Block(line, tos) => Wrap(LineTree(line), Meaning(tos))
  }

  function PipelineTree(p: Pipeline): (t: Tree) {
    match p
    case Only(c) => CommandTree(c)
    case Piped(c, more) => Pipe(CommandTree(c), PipelineTree(more))
  }

  function LineTree(l: Line): (t: Tree) {
    match l
    case Last(p, backs) => Backed(PipelineTree(p), backs)
    case Then(p, backs, more) => List(Backed(PipelineTree(p), backs), LineTree(more))
  }

  /** No command has more words than the shell has room for. */
  predicate CommandFits(c: Command) {
    match c
    case Simple(_, items) => |items| < MAXARGS
    case Block(line, _) => LineFits(line)
  }

  predicate PipelineFits(p: Pipeline) {
    match p
    case Only(c) => CommandFits(c)
    case Piped(c, more) => CommandFits(c) && PipelineFits(more)
  }

  predicate LineFits(l: Line) {
    match l
    case Last(p, _) => PipelineFits(p)
    case Then(p, _, more) => PipelineFits(p) && LineFits(more)
  }

  // ----- every such line is read -----

  lemma MeaningJoins(a: seq<To>, b: seq<To>)
    ensures Meaning(a + b) == Meaning(a) + Meaning(b)
  {
  }

  lemma RedirsStep(t: To, ts: seq<Token>)
    ensures var more := ParseRedirs(ts);
            ParseRedirs(ToTokens(t) + ts) ==
            if more.BadRedirs? then BadRedirs else Redirs(Meaning([t]) + more.rs, more.rest)
  {
    var r := ToTokens(t) + ts;
    assert StartsRedir(r) && r[1] == Word(t.file) && r[2..] == ts && (r[0] == Sym('<') <==> t.From?);
    assert Meaning([t]) == [Redirection(t.file, t.From?)];
    hide ToTokens, Meaning;
  }

  lemma {:induction false} TosRead(tos: seq<To>, rest: seq<Token>)
    requires !StartsRedir(rest)
    ensures ParseRedirs(TosTokens(tos) + rest) == Redirs(Meaning(tos), rest)
  {
    if |tos| == 0 {
      assert TosTokens(tos) + rest == rest && Meaning(tos) == [];
    } else {
      hide ParseRedirs, ToTokens, Meaning;
      assert TosTokens(tos) + rest == ToTokens(tos[0]) + (TosTokens(tos[1..]) + rest);
      TosRead(tos[1..], rest);
      RedirsStep(tos[0], TosTokens(tos[1..]) + rest);
      MeaningJoins([tos[0]], tos[1..]);
      assert tos == [tos[0]] + tos[1..];
    }
  }

  lemma ItemsStart(items: seq<Item>, rest: seq<Token>)
    requires EndsArgs(rest)
    ensures !StartsRedir(ItemsTokens(items) + rest) && !Starts(ItemsTokens(items) + rest, '(')
    ensures |items| == 0 ==> ItemsTokens(items) + rest == rest
  {
  }

  lemma ItemReads(args: seq<string>, rs: seq<Redirection>, item: Item, tail: seq<Token>)
    requires |args| + 1 < MAXARGS && !StartsRedir(tail)
    ensures ParseArgs(args, rs, [Word(item.word)] + (TosTokens(item.tos) + tail)) ==
            ParseArgs(args + [item.word], rs + Meaning(item.tos), tail)
  {
    hide ParseArgs, ParseRedirs;
    var ts := [Word(item.word)] + (TosTokens(item.tos) + tail);
    assert ts[0] == Word(item.word) && ts[1..] == TosTokens(item.tos) + tail;
    TosRead(item.tos, tail);
    ArgsStep(args, rs, ts);
  }

  lemma {:induction false} ItemsRead(args: seq<string>, rs: seq<Redirection>, items: seq<Item>, rest: seq<Token>)
    requires |args| + |items| < MAXARGS && EndsArgs(rest)
    ensures ParseArgs(args, rs, ItemsTokens(items) + rest) ==
            Args(args + WordsOf(items), rs + Meaning(TosOf(items)), rest)
    decreases |items|
  {
    hide ParseArgs, ParseRedirs, TosTokens, Meaning, EndsArgs;
    if |items| == 0 {
      assert ItemsTokens(items) + rest == rest && args + WordsOf(items) == args && rs + Meaning(TosOf(items)) == rs;
      ArgsStep(args, rs, rest);
    } else {
      var more, tail := items[1..], ItemsTokens(items[1..]) + rest;
      assert ItemsTokens(items) + rest == [Word(items[0].word)] + (TosTokens(items[0].tos) + tail);
      ItemsStart(more, rest);
      ItemReads(args, rs, items[0], tail);
      ItemsRead(args + [items[0].word], rs + Meaning(items[0].tos), more, rest);
      assert args + WordsOf(items) == args + [items[0].word] + WordsOf(more);
      MeaningJoins(items[0].tos, TosOf(more));
    }
  }

  lemma FrontStart(tos: seq<To>, tail: seq<Token>)
    requires !Starts(tail, '(')
    ensures !Starts(TosTokens(tos) + tail, '(')
  {
    if |tos| > 0 {
      assert (TosTokens(tos) + tail)[0] == ToTokens(tos[0])[0];
    } else {
      assert TosTokens(tos) + tail == tail;
    }
  }

  lemma SimpleReads(front: seq<To>, items: seq<Item>, rest: seq<Token>)
    requires |items| < MAXARGS && EndsArgs(rest)
    ensures ParseExec(CommandTokens(Simple(front, items)) + rest) == Parsed(CommandTree(Simple(front, items)), rest)
  {
    hide ParseArgs, ParseRedirs, ItemsTokens, TosTokens, ToTokens, Meaning, WordsOf, TosOf;
    var ts, tail := CommandTokens(Simple(front, items)) + rest, ItemsTokens(items) + rest;
    assert ts == TosTokens(front) + tail;
    ItemsStart(items, rest);
    TosRead(front, tail);
    ItemsRead([], Meaning(front), items, rest);
    assert [] + WordsOf(items) == WordsOf(items);
    MeaningJoins(front, TosOf(items));
    FrontStart(front, tail);
  }

  lemma CommandReads(c: Command, rest: seq<Token>)
    requires CommandFits(c) && EndsArgs(rest)
    ensures ParseExec(CommandTokens(c) + rest) == Parsed(CommandTree(c), rest)
    decreases c, 0
  {
    match c
    case Simple(front, items) => SimpleReads(front, items, rest);
    case Block(line, tos) =>
      var tail := TosTokens(tos) + rest;
      var ts := CommandTokens(c) + rest;
      assert ts[0] == Sym('(') && ts[1..] == LineTokens(line) + ([Sym(')')] + tail);
      LineReads(line, [Sym(')')] + tail);
      assert ([Sym(')')] + tail)[1..] == tail;
      TosRead(tos, rest);
  }

  lemma PipelineReads(p: Pipeline, rest: seq<Token>)
    requires PipelineFits(p) && EndsArgs(rest) && !Starts(rest, '|')
    ensures ParsePipe(PipelineTokens(p) + rest) == Parsed(PipelineTree(p), rest)
    decreases p, 0
  {
    match p
    case Only(c) => CommandReads(c, rest);
    case Piped(c, more) =>
      var tail := [Sym('|')] + (PipelineTokens(more) + rest);
      assert PipelineTokens(p) + rest == CommandTokens(c) + tail && tail[1..] == PipelineTokens(more) + rest;
      CommandReads(c, tail);
      PipelineReads(more, rest);
  }

  lemma {:induction false} AmpsRead(t: Tree, n: nat, rest: seq<Token>)
    requires !Starts(rest, '&')
    ensures ParseBacks(t, Amps(n) + rest) == Parsed(Backed(t, n), rest)
    decreases n
  {
    if n == 0 {
      assert Amps(n) + rest == rest;
    } else {
      assert (Amps(n) + rest)[1..] == Amps(n - 1) + rest;
      AmpsRead(Back(t), n - 1, rest);
    }
  }

  lemma BacksRead(p: Pipeline, backs: nat, rest: seq<Token>)
    requires PipelineFits(p) && EndsArgs(rest) && !Starts(rest, '|') && !Starts(rest, '&')
    ensures var first := ParsePipe(PipelineTokens(p) + (Amps(backs) + rest));
            first.Parsed? && ParseBacks(first.tree, first.rest) == Parsed(Backed(PipelineTree(p), backs), rest)
    decreases p, 1
  {
    var tail := Amps(backs) + rest;
    assert backs == 0 ==> tail == rest;
    assert backs > 0 ==> tail[0] == Sym('&');
    PipelineReads(p, tail);
    AmpsRead(PipelineTree(p), backs, rest);
  }

  lemma LineReads(l: Line, rest: seq<Token>)
    requires LineFits(l) && (rest == [] || Starts(rest, ')'))
    ensures ParseLine(LineTokens(l) + rest) == Parsed(LineTree(l), rest)
    decreases l, 0
  {
    match l
    case Last(p, backs) =>
      assert LineTokens(l) + rest == PipelineTokens(p) + (Amps(backs) + rest);
      BacksRead(p, backs, rest);
    case Then(p, backs, more) =>
      var tail := [Sym(';')] + (LineTokens(more) + rest);
      assert LineTokens(l) + rest == PipelineTokens(p) + (Amps(backs) + tail);
      assert tail[1..] == LineTokens(more) + rest;
      BacksRead(p, backs, tail);
      LineReads(more, rest);
  }

  // ----- nothing else is -----

  lemma Glue(a: seq<Token>, b: seq<Token>, c: seq<Token>)
    ensures a + (b + c) == (a + b) + c
  {
  }

  lemma TosCons(t: To, tos: seq<To>)
    ensures TosTokens([t] + tos) == ToTokens(t) + TosTokens(tos)
    ensures Meaning([t] + tos) == [Redirection(t.file, t.From?)] + Meaning(tos)
  {
    assert ([t] + tos)[1..] == tos;
    MeaningJoins([t], tos);
  }

  /** The redirection that two tokens are. */
  lemma ToFound(ts: seq<Token>) returns (t: To)
    requires StartsRedir(ts) && |ts| >= 2 && ts[1].Word?
    ensures ts == ToTokens(t) + ts[2..] && t.file == ts[1].text && (t.From? <==> ts[0] == Sym('<'))
  {
    t := if ts[0] == Sym('<') then From(ts[1].text) else if ts[0] == Append then Onto(ts[1].text) else Into(ts[1].text);
  }

  lemma RedirsCases(ts: seq<Token>)
    requires ParseRedirs(ts).Redirs?
    ensures !StartsRedir(ts) ==> ParseRedirs(ts) == Redirs([], ts)
    ensures StartsRedir(ts) ==>
              && |ts| >= 2 && ts[1].Word? && ParseRedirs(ts[2..]).Redirs?
              && ParseRedirs(ts).rs == [Redirection(ts[1].text, ts[0] == Sym('<'))] + ParseRedirs(ts[2..]).rs
              && ParseRedirs(ts).rest == ParseRedirs(ts[2..]).rest
  {
  }

  lemma {:induction false} TosFound(ts: seq<Token>) returns (tos: seq<To>)
    requires ParseRedirs(ts).Redirs?
    ensures ts == TosTokens(tos) + ParseRedirs(ts).rest && Meaning(tos) == ParseRedirs(ts).rs
  {
    hide ParseRedirs, ToTokens;
    RedirsCases(ts);
    if !StartsRedir(ts) {
      tos := [];
    } else {
      hide TosTokens, Meaning;
      var t := ToFound(ts);
      var more := TosFound(ts[2..]);
      tos := [t] + more;
      TosCons(t, more);
      Glue(ToTokens(t), TosTokens(more), ParseRedirs(ts).rest);
    }
  }

  lemma ItemsCons(item: Item, items: seq<Item>)
    ensures ItemsTokens([item] + items) == [Word(item.word)] + (TosTokens(item.tos) + ItemsTokens(items))
    ensures WordsOf([item] + items) == [item.word] + WordsOf(items)
    ensures Meaning(TosOf([item] + items)) == Meaning(item.tos) + Meaning(TosOf(items))
  {
    assert ([item] + items)[1..] == items;
    MeaningJoins(item.tos, TosOf(items));
  }

  /** `p` is what parsing `ts` gives, and `items` are the words and redirections it has read. */
  ghost predicate IsItems(args: seq<string>, rs: seq<Redirection>, ts: seq<Token>, p: Args, items: seq<Item>) {
    && p.Args? && ts == ItemsTokens(items) + p.rest && p.args == args + WordsOf(items)
    && p.rs == rs + Meaning(TosOf(items)) && (|args| < MAXARGS ==> |args| + |items| < MAXARGS)
  }

  lemma ItemsGrow(args: seq<string>, rs: seq<Redirection>, w: string, tos: seq<To>, ts: seq<Token>, p: Args,
                  items: seq<Item>)
    requires IsItems(args + [w], rs + Meaning(tos), ts, p, items) && |args| + 1 < MAXARGS
    ensures IsItems(args, rs, [Word(w)] + (TosTokens(tos) + ts), p, [Item(w, tos)] + items)
  {
    hide ItemsTokens, WordsOf, TosTokens, Meaning, TosOf;
    ItemsCons(Item(w, tos), items);
    Glue(TosTokens(tos), ItemsTokens(items), p.rest);
    Glue([Word(w)], TosTokens(tos) + ItemsTokens(items), p.rest);
    assert args + [w] + WordsOf(items) == args + ([w] + WordsOf(items));
    assert rs + Meaning(tos) + Meaning(TosOf(items)) == rs + (Meaning(tos) + Meaning(TosOf(items)));
  }

  lemma {:induction false} ItemsFound(args: seq<string>, rs: seq<Redirection>, ts: seq<Token>)
    returns (items: seq<Item>)
    requires ParseArgs(args, rs, ts).Args?
    ensures IsItems(args, rs, ts, ParseArgs(args, rs, ts), items)
    decreases |ts|
  {
    hide ParseArgs, ParseRedirs;
    ArgsStep(args, rs, ts);
    if EndsArgs(ts) {
      items := [];
    } else {
      hide EndsArgs, IsItems, TosTokens, Meaning;
      var tos := TosFound(ts[1..]);
      var w, after := ts[0].text, ParseRedirs(ts[1..]);
      var more := ItemsFound(args + [w], rs + after.rs, after.rest);
      items := [Item(w, tos)] + more;
      ItemsGrow(args, rs, w, tos, after.rest, ParseArgs(args, rs, ts), more);
      assert ts == [Word(w)] + ts[1..];
    }
  }

  lemma SimpleFound(ts: seq<Token>) returns (c: Command)
    requires ParseExec(ts).Parsed? && !Starts(ts, '(')
    ensures var p := ParseExec(ts); CommandFits(c) && ts == CommandTokens(c) + p.rest && CommandTree(c) == p.tree
  {
    hide ParseArgs, ParseRedirs, TosTokens, ItemsTokens, Meaning, TosOf, WordsOf, Wrap;
    var front := TosFound(ts);
    var p := ParseRedirs(ts);
    var items := ItemsFound([], p.rs, p.rest);
    c := Simple(front, items);
    var ws, rest := WordsOf(items), ParseArgs([], p.rs, p.rest).rest;
    assert [] + ws == ws;
    MeaningJoins(front, TosOf(items));
    Glue(TosTokens(front), ItemsTokens(items), rest);
  }

  lemma BlockFound(ts: seq<Token>, line: Line) returns (c: Command)
    requires ParseExec(ts).Parsed? && Starts(ts, '(') && ParseLine(ts[1..]).Parsed?
    requires LineFits(line)
    requires var p := ParseLine(ts[1..]); ts[1..] == LineTokens(line) + p.rest && LineTree(line) == p.tree
    ensures var p := ParseExec(ts); CommandFits(c) && ts == CommandTokens(c) + p.rest && CommandTree(c) == p.tree
  {
    hide ParseRedirs, ParseLine, TosTokens, LineTokens, Meaning, Wrap;
    var inner := ParseLine(ts[1..]);
    var tos := TosFound(inner.rest[1..]);
    c := Block(line, tos);
    var rest := ParseRedirs(inner.rest[1..]).rest;
    assert ts == [Sym('(')] + ts[1..] && inner.rest == [Sym(')')] + inner.rest[1..];
    Glue([Sym(')')], TosTokens(tos), rest);
    Glue(LineTokens(line), [Sym(')')] + TosTokens(tos), rest);
    Glue([Sym('(')], LineTokens(line) + ([Sym(')')] + TosTokens(tos)), rest);
  }

  lemma {:induction false} CommandFound(ts: seq<Token>) returns (c: Command)
    requires ParseExec(ts).Parsed?
    ensures var p := ParseExec(ts); CommandFits(c) && ts == CommandTokens(c) + p.rest && CommandTree(c) == p.tree
    decreases |ts|, 0
  {
    hide CommandTokens, CommandTree, CommandFits;
    if Starts(ts, '(') {
      assert ParseLine(ts[1..]).Parsed?;
      hide ParseExec;
      var line := LineFound(ts[1..]);
      c := BlockFound(ts, line);
    } else {
      hide ParseExec;
      c := SimpleFound(ts);
    }
  }

  lemma {:induction false} PipelineFound(ts: seq<Token>) returns (l: Pipeline)
    requires ParsePipe(ts).Parsed?
    ensures var p := ParsePipe(ts); PipelineFits(l) && ts == PipelineTokens(l) + p.rest && PipelineTree(l) == p.tree
    decreases |ts|, 1
  {
    hide ParseExec, CommandTokens, CommandTree, CommandFits;
    var c := CommandFound(ts);
    var left := ParseExec(ts);
    if Starts(left.rest, '|') {
      var more := PipelineFound(left.rest[1..]);
      l := Piped(c, more);
      assert left.rest == [Sym('|')] + left.rest[1..];
      Glue([Sym('|')], PipelineTokens(more), ParsePipe(ts).rest);
      Glue(CommandTokens(c), [Sym('|')] + PipelineTokens(more), ParsePipe(ts).rest);
    } else {
      l := Only(c);
    }
  }

  lemma {:induction false} AmpsFound(t: Tree, ts: seq<Token>) returns (n: nat)
    ensures ts == Amps(n) + ParseBacks(t, ts).rest && ParseBacks(t, ts).tree == Backed(t, n)
    decreases |ts|
  {
    if Starts(ts, '&') {
      n := AmpsFound(Back(t), ts[1..]);
      n := n + 1;
      assert ts == [Sym('&')] + ts[1..];
    } else {
      n := 0;
    }
  }

  lemma {:induction false} LineFound(ts: seq<Token>) returns (l: Line)
    requires ParseLine(ts).Parsed?
    ensures var p := ParseLine(ts); LineFits(l) && ts == LineTokens(l) + p.rest && LineTree(l) == p.tree
    decreases |ts|, 2
  {
    hide ParsePipe, ParseBacks, PipelineTokens, PipelineTree, PipelineFits, Amps, Backed;
    var p := PipelineFound(ts);
    var first := ParsePipe(ts);
    var n := AmpsFound(first.tree, first.rest);
    var left := ParseBacks(first.tree, first.rest);
    if Starts(left.rest, ';') {
      var more := LineFound(left.rest[1..]);
      l := Then(p, n, more);
      assert left.rest == [Sym(';')] + left.rest[1..];
      var rest := ParseLine(ts).rest;
      Glue([Sym(';')], LineTokens(more), rest);
      Glue(Amps(n), [Sym(';')] + LineTokens(more), rest);
      Glue(PipelineTokens(p), Amps(n) + ([Sym(';')] + LineTokens(more)), rest);
    } else {
      l := Last(p, n);
      Glue(PipelineTokens(p), Amps(n), left.rest);
    }
  }

  /** Tokens are parsed to a tree if and only if they are a line of the syntax that means it. */
  lemma ParsesAs(ts: seq<Token>, t: Tree)
    ensures ParseLine(ts) == Parsed(t, []) <==> exists l :: LineFits(l) && LineTokens(l) == ts && LineTree(l) == t
  {
    if ParseLine(ts) == Parsed(t, []) {
      var l := LineFound(ts);
      assert LineTokens(l) + [] == LineTokens(l);
    }
    forall l | LineFits(l) && LineTokens(l) == ts ensures ParseLine(ts) == Parsed(LineTree(l), []) {
      LineReads(l, []);
      assert LineTokens(l) + [] == LineTokens(l);
    }
  }

  // ----- `>>` does what `>` does -----

  function Swap(t: Token): (r: Token) {
    if t == Append then Sym('>') else t
  }

  /** The tokens with `>` for every `>>`. */
  function Swapped(ts: seq<Token>): (r: seq<Token>)
    ensures |r| == |ts| && forall i :: 0 <= i < |ts| ==> r[i] == Swap(ts[i])
  {
    seq(|ts|, i requires 0 <= i < |ts| => Swap(ts[i]))
  }

  lemma SwappedRest(ts: seq<Token>, k: nat)
    requires k <= |ts|
    ensures Swapped(ts)[k..] == Swapped(ts[k..])
  {
  }

  lemma SwappedStarts(ts: seq<Token>)
    ensures StartsRedir(Swapped(ts)) <==> StartsRedir(ts)
    ensures EndsArgs(Swapped(ts)) <==> EndsArgs(ts)
    ensures forall c :: c != '>' ==> (Starts(Swapped(ts), c) <==> Starts(ts, c))
  {
  }

  ghost predicate SameParse(p: Parsed, q: Parsed) {
    if p.Bad? then q.Bad? else q == Parsed(p.tree, Swapped(p.rest))
  }

  lemma {:induction false} RedirsSwap(ts: seq<Token>)
    ensures var p, q := ParseRedirs(ts), ParseRedirs(Swapped(ts));
            if p.BadRedirs? then q.BadRedirs? else q == Redirs(p.rs, Swapped(p.rest))
  {
    SwappedStarts(ts);
    if StartsRedir(ts) && |ts| >= 2 && ts[1].Word? {
      SwappedRest(ts, 2);
      RedirsSwap(ts[2..]);
    }
  }

  lemma {:induction false} ArgsSwap(args: seq<string>, rs: seq<Redirection>, ts: seq<Token>)
    ensures var p, q := ParseArgs(args, rs, ts), ParseArgs(args, rs, Swapped(ts));
            if p.BadArgs? then q.BadArgs? else q == Args(p.args, p.rs, Swapped(p.rest))
    decreases |ts|
  {
    hide ParseArgs, ParseRedirs;
    SwappedStarts(ts);
    ArgsStep(args, rs, ts);
    ArgsStep(args, rs, Swapped(ts));
    if !EndsArgs(ts) && ts[0].Word? && |args| + 1 < MAXARGS {
      SwappedRest(ts, 1);
      RedirsSwap(ts[1..]);
      var more := ParseRedirs(ts[1..]);
      if more.Redirs? { ArgsSwap(args + [ts[0].text], rs + more.rs, more.rest); }
    }
  }

  lemma {:induction false} ExecSwap(ts: seq<Token>)
    ensures SameParse(ParseExec(ts), ParseExec(Swapped(ts)))
    decreases |ts|, 0
  {
    hide ParseArgs, ParseRedirs, Wrap, Swapped;
    SwappedStarts(ts);
    if Starts(ts, '(') {
      SwappedRest(ts, 1);
      LineSwap(ts[1..]);
      hide ParseLine;
      var inner := ParseLine(ts[1..]);
      if inner.Parsed? {
        SwappedStarts(inner.rest);
        if Starts(inner.rest, ')') {
          SwappedRest(inner.rest, 1);
          RedirsSwap(inner.rest[1..]);
        }
      }
    } else {
      RedirsSwap(ts);
      var front := ParseRedirs(ts);
      if front.Redirs? { ArgsSwap([], front.rs, front.rest); }
    }
  }

  lemma {:induction false} PipeSwap(ts: seq<Token>)
    ensures SameParse(ParsePipe(ts), ParsePipe(Swapped(ts)))
    decreases |ts|, 1
  {
    hide ParseExec, Swapped;
    ExecSwap(ts);
    var left := ParseExec(ts);
    if left.Parsed? {
      SwappedStarts(left.rest);
      if Starts(left.rest, '|') {
        SwappedRest(left.rest, 1);
        PipeSwap(left.rest[1..]);
      }
    }
  }

  lemma {:induction false} BacksSwap(t: Tree, ts: seq<Token>)
    ensures SameParse(ParseBacks(t, ts), ParseBacks(t, Swapped(ts)))
    decreases |ts|
  {
    SwappedStarts(ts);
    if Starts(ts, '&') {
      SwappedRest(ts, 1);
      BacksSwap(Back(t), ts[1..]);
    }
  }

  /** A line is parsed as the line with `>` for `>>` is: to the same tree, or not at all. */
  lemma {:induction false} LineSwap(ts: seq<Token>)
    ensures SameParse(ParseLine(ts), ParseLine(Swapped(ts)))
    decreases |ts|, 2
  {
    hide ParsePipe, ParseBacks, Swapped;
    PipeSwap(ts);
    var first := ParsePipe(ts);
    if first.Parsed? {
      BacksSwap(first.tree, first.rest);
      var left := ParseBacks(first.tree, first.rest);
      SwappedStarts(left.rest);
      if Starts(left.rest, ';') {
        SwappedRest(left.rest, 1);
        LineSwap(left.rest[1..]);
      }
    }
  }
}
