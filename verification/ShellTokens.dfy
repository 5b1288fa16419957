/** sh.c: the tokens of a command line, and writing tokens down again. */
module ShellTokens {

  predicate IsSpace(c: char): (b: bool)
    ensures b <==> c in [' ', '\t', '\r', '\n', 11 as char]
  {
    c == ' ' || c == '\t' || c == '\r' || c == '\n' || c == 11 as char
  }

  predicate IsSymbol(c: char): (b: bool)
    ensures b <==> c in ['<', '|', '>', '&', ';', '(', ')']
  {
    c == '<' || c == '|' || c == '>' || c == '&' || c == ';' || c == '(' || c == ')'
  }

  predicate IsWordChar(c: char) {
    !IsSpace(c) && !IsSymbol(c)
  }

  datatype Token = Sym(c: char) | Append | Word(text: string)

  /** How many word characters `s` begins with. */
  function WordLen(s: string): (n: nat)
    ensures n <= |s| && (forall i :: 0 <= i < n ==> IsWordChar(s[i])) && (n < |s| ==> !IsWordChar(s[n]))
  {
    if |s| > 0 && IsWordChar(s[0]) then 1 + WordLen(s[1..]) else 0
  }

  /** The token that `s` begins with. */
  function First(s: string): (t: Token)
    requires |s| > 0 && !IsSpace(s[0])
  {
    if s[0] == '>' && |s| > 1 && s[1] == '>' then Append
    else if IsSymbol(s[0]) then Sym(s[0])
    else Word(s[..WordLen(s)])
  }

  function Text(t: Token): (s: string) {
    match t
    case Sym(c) => [c]
    case Append => ">>"
    case Word(w) => w
  }

  lemma FirstText(s: string)
    requires |s| > 0 && !IsSpace(s[0])
    ensures 0 < |Text(First(s))| <= |s| && Text(First(s)) == s[..|Text(First(s))|]
  {
  }

  function Lex(s: string): (ts: seq<Token>)
    decreases |s|
  {
    if |s| == 0 then []
    else if IsSpace(s[0]) then Lex(s[1..])
    else FirstText(s); [First(s)] + Lex(s[|Text(First(s))|..])
  }

  /** A token that reads back as itself. */
  predicate Plain(t: Token) {
    match t
    case Sym(c) => IsSymbol(c)
    case Append => true
    case Word(w) => |w| > 0 && forall i :: 0 <= i < |w| ==> IsWordChar(w[i])
  }

  lemma FirstPlain(s: string)
    requires |s| > 0 && !IsSpace(s[0])
    ensures Plain(First(s))
  {
  }

  ghost predicate AllPlain(ts: seq<Token>) {
    forall i :: 0 <= i < |ts| ==> Plain(ts[i])
  }

  lemma {:induction false} LexPlain(s: string)
    ensures AllPlain(Lex(s))
    decreases |s|
  {
    if |s| > 0 {
      if IsSpace(s[0]) {
        LexPlain(s[1..]);
      } else {
        FirstText(s);
        FirstPlain(s);
        LexPlain(s[|Text(First(s))|..]);
      }
    }
  }

  // ----- any spacing -----

  ghost predicate AllSpace(s: string) {
    forall i :: 0 <= i < |s| ==> IsSpace(s[i])
  }

  /** Written without a space between them, the two would be read as something else. */
  predicate Merge(a: Token, b: Token) {
    (a.Word? && b.Word?) || (a == Sym('>') && (b == Sym('>') || b == Append))
  }

  /** The tokens, with `gaps` before, between and behind them. */
  function Spell(ts: seq<Token>, gaps: seq<string>): (s: string)
    requires |gaps| == |ts| + 1
  {
    if |ts| == 0 then gaps[0] else gaps[0] + (Text(ts[0]) + Spell(ts[1..], gaps[1..]))
  }

  /** Gaps are white space, and there is some where tokens would merge. */
  ghost predicate GapsOk(ts: seq<Token>, gaps: seq<string>) {
    && |gaps| == |ts| + 1 && (forall i :: 0 <= i < |gaps| ==> AllSpace(gaps[i]))
    && forall i :: 0 < i < |ts| && gaps[i] == "" ==> !Merge(ts[i - 1], ts[i])
  }

  lemma {:induction false} LexSkips(gap: string, rest: string)
    requires AllSpace(gap)
    ensures Lex(gap + rest) == Lex(rest)
  {
    if gap == "" {
      assert gap + rest == rest;
    } else {
      assert (gap + rest)[1..] == gap[1..] + rest;
      LexSkips(gap[1..], rest);
    }
  }

  lemma {:induction false} WordEnds(w: string, rest: string)
    requires (forall i :: 0 <= i < |w| ==> IsWordChar(w[i])) && (rest == "" || !IsWordChar(rest[0]))
    ensures WordLen(w + rest) == |w|
  {
    if w == "" {
      assert w + rest == rest;
    } else {
      assert (w + rest)[1..] == w[1..] + rest;
      WordEnds(w[1..], rest);
    }
  }

  /** A token is read as itself unless what follows merges with it. */
  lemma ReadsFirst(t: Token, rest: string)
    requires Plain(t) && (t.Word? && rest != "" ==> !IsWordChar(rest[0]))
    requires t == Sym('>') && rest != "" ==> rest[0] != '>'
    ensures var s := Text(t) + rest; |s| > 0 && !IsSpace(s[0]) && First(s) == t && s[|Text(t)|..] == rest
  {
    if t.Word? { WordEnds(t.text, rest); }
  }

  lemma SpellNext(ts: seq<Token>, gaps: seq<string>, t: Token)
    requires GapsOk(ts, gaps) && AllPlain(ts) && (|ts| > 0 && gaps[0] == "" ==> !Merge(t, ts[0]))
    ensures var s := Spell(ts, gaps);
            && (t.Word? && s != "" ==> !IsWordChar(s[0])) && (t == Sym('>') && s != "" ==> s[0] != '>')
  {
    if gaps[0] != "" {
      assert Spell(ts, gaps)[0] == gaps[0][0];
    } else if |ts| > 0 {
      assert Spell(ts, gaps)[0] == Text(ts[0])[0];
    }
  }

  /** Tokens are read back whatever white space there is around them. */
  lemma {:induction false} LexSpell(ts: seq<Token>, gaps: seq<string>)
    requires AllPlain(ts) && GapsOk(ts, gaps)
    ensures Lex(Spell(ts, gaps)) == ts
  {
    if |ts| == 0 {
      assert gaps[0] + "" == gaps[0];
      LexSkips(gaps[0], "");
    } else {
      var rest := Spell(ts[1..], gaps[1..]);
      LexSkips(gaps[0], Text(ts[0]) + rest);
      assert GapsOk(ts[1..], gaps[1..]);
      SpellNext(ts[1..], gaps[1..], ts[0]);
      ReadsFirst(ts[0], rest);
      LexSpell(ts[1..], gaps[1..]);
    }
  }

  /** Every line is such a spelling of its tokens. */
  lemma {:induction false} SpellLex(s: string) returns (gaps: seq<string>)
    ensures GapsOk(Lex(s), gaps) && Spell(Lex(s), gaps) == s
    decreases |s|
  {
    if s == "" {
      gaps := [""];
    } else if IsSpace(s[0]) {
      gaps := SpellLex(s[1..]);
      var more := gaps[0 := [s[0]] + gaps[0]];
      assert more[1..] == gaps[1..];
      assert s == [s[0]] + s[1..];
      gaps := more;
    } else {
      FirstText(s);
      var t, rest := First(s), s[|Text(First(s))|..];
      var tail := SpellLex(rest);
      gaps := [""] + tail;
      assert gaps[1..] == tail && Lex(s)[1..] == Lex(rest);
      assert s == Text(t) + rest;
      if |Lex(rest)| > 0 && tail[0] == "" { Apart(s, tail); }
    }
  }

  lemma Apart(s: string, tail: seq<string>)
    requires s != "" && !IsSpace(s[0]) && |Text(First(s))| <= |s|
    requires var rest := s[|Text(First(s))|..];
             GapsOk(Lex(rest), tail) && Spell(Lex(rest), tail) == rest && |Lex(rest)| > 0 && tail[0] == ""
    ensures !Merge(First(s), Lex(s[|Text(First(s))|..])[0])
  {
    var rest := s[|Text(First(s))|..];
    var b := Lex(rest)[0];
    LexPlain(rest);
    assert |Text(b)| > 0 && rest[0] == Text(b)[0];
  }

  /** So the tokens of a line are `ts` if and only if it spells them, with some white space. */
  lemma LexIff(s: string, ts: seq<Token>)
    ensures Lex(s) == ts <==> AllPlain(ts) && exists gaps :: GapsOk(ts, gaps) && Spell(ts, gaps) == s
  {
    if Lex(s) == ts {
      LexPlain(s);
      var gaps := SpellLex(s);
    }
    if AllPlain(ts) {
      forall gaps | GapsOk(ts, gaps) && Spell(ts, gaps) == s ensures Lex(s) == ts { LexSpell(ts, gaps); }
    }
  }

  // ----- writing -----

  /** The tokens with a space behind each. */
  function Render(ts: seq<Token>): (s: string) {
    if |ts| == 0 then "" else Text(ts[0]) + " " + Render(ts[1..])
  }

  lemma {:induction false} RenderSpells(ts: seq<Token>)
    ensures Spell(ts, seq(|ts| + 1, _ => " ")) == " " + Render(ts)
  {
    if |ts| > 0 {
      RenderSpells(ts[1..]);
      assert seq(|ts| + 1, _ => " ")[1..] == seq(|ts|, _ => " ");
    }
  }

  /** Reading back what was written. */
  lemma LexRender(ts: seq<Token>)
    requires AllPlain(ts)
    ensures Lex(Render(ts)) == ts
  {
    RenderSpells(ts);
    LexSpell(ts, seq(|ts| + 1, _ => " "));
    LexSkips(" ", Render(ts));
  }
}
