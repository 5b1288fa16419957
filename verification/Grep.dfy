/**
 grep.c: the regular expression matcher. A pattern is a row of items, each one character or a
 character followed by a star, where `.` stands for any character; `^` in front ties it to the
 beginning of the text and `$` at the end to its end.
 */
module Grep {

  datatype Item = One(c: char) | Star(c: char)

  predicate Accepts(c: char, ch: char) {
    c == '.' || c == ch
  }

  /** The items of a pattern, without a leading `^` and a final `$`. */
  function Items(re: string): (items: seq<Item>) {
    if |re| == 0 then []
    else if |re| >= 2 && re[1] == '*' then [Star(re[0])] + Items(re[2..])
    else if re == "$" then []
    else [One(re[0])] + Items(re[1..])
  }

  /** The pattern ends in a `$` that is not an item. */
  predicate AtEnd(re: string) {
    if |re| == 0 then false
    else if |re| >= 2 && re[1] == '*' then AtEnd(re[2..])
    else re == "$" || AtEnd(re[1..])
  }

  predicate AllAccepted(c: char, s: string) {
    forall i :: 0 <= i < |s| ==> Accepts(c, s[i])
  }

  /** `s` is in the language of `items`: a concatenation of one string per item. */
  ghost predicate InLanguage(items: seq<Item>, s: string) {
    if |items| == 0 then s == []
    else match items[0]
      case One(c) => |s| > 0 && Accepts(c, s[0]) && InLanguage(items[1..], s[1..])
      case Star(c) => exists k :: 0 <= k <= |s| && AllAccepted(c, s[..k]) && InLanguage(items[1..], s[k..])
  }

  /** The first `n` characters of `text` match, and are all of it if the pattern says so. */
  ghost predicate MatchesTo(re: string, text: string, n: nat) {
    n <= |text| && InLanguage(Items(re), text[..n]) && (AtEnd(re) ==> n == |text|)
  }

  ghost predicate Here(re: string, text: string) {
    exists n: nat :: MatchesTo(re, text, n)
  }

  /** Some substring of `text` is in the pattern's language, where the pattern allows it to be. */
  ghost predicate Matches(re: string, text: string) {
    if |re| > 0 && re[0] == '^' then Here(re[1..], text)
    else exists i :: 0 <= i <= |text| && Here(re, text[i..])
  }

  lemma HereNothing(text: string)
    ensures Here("", text)
  {
    assert MatchesTo("", text, 0);
  }

  lemma HereEnd(text: string)
    ensures Here("$", text) <==> text == []
  {
    if text == [] { assert MatchesTo("$", text, 0); }
  }

  lemma HereOne(re: string, text: string)
    requires |re| > 0 && re != "$" && !(|re| >= 2 && re[1] == '*')
    ensures Here(re, text) <==> |text| > 0 && Accepts(re[0], text[0]) && Here(re[1..], text[1..])
  {
    assert Items(re)[1..] == Items(re[1..]);
    if Here(re, text) {
      var n: nat :| MatchesTo(re, text, n);
      assert text[..n][1..] == text[1..][..n - 1];
      assert MatchesTo(re[1..], text[1..], n - 1);
    }
    if |text| > 0 && Accepts(re[0], text[0]) && Here(re[1..], text[1..]) {
      var n: nat :| MatchesTo(re[1..], text[1..], n);
      assert text[..n + 1][1..] == text[1..][..n];
      assert MatchesTo(re, text, n + 1);
    }
  }

  /** The rest of the pattern matches behind `k` characters that the star takes. */
  ghost predicate StarTakes(c: char, re: string, text: string, k: nat) {
    k <= |text| && AllAccepted(c, text[..k]) && Here(re, text[k..])
  }

  lemma HereStar(re: string, text: string)
    requires |re| >= 2 && re[1] == '*'
    ensures Here(re, text) <==> exists k: nat :: StarTakes(re[0], re[2..], text, k)
  {
    assert Items(re)[1..] == Items(re[2..]);
    if Here(re, text) {
      var n: nat :| MatchesTo(re, text, n);
      var k :| 0 <= k <= n && AllAccepted(re[0], text[..n][..k]) && InLanguage(Items(re[2..]), text[..n][k..]);
      assert text[..n][..k] == text[..k] && text[..n][k..] == text[k..][..n - k];
      assert MatchesTo(re[2..], text[k..], n - k);
      assert StarTakes(re[0], re[2..], text, k);
    }
    if k: nat :| StarTakes(re[0], re[2..], text, k) {
      var n: nat :| MatchesTo(re[2..], text[k..], n);
      assert text[..k + n][..k] == text[..k] && text[..k + n][k..] == text[k..][..n];
      assert MatchesTo(re, text, k + n);
    }
  }

  method MatchHere(re: string, text: string) returns (r: bool)
    ensures r <==> Here(re, text)
    decreases |re|
  {
    if |re| == 0 {
      HereNothing(text);
      return true;
    }
    if |re| >= 2 && re[1] == '*' {
      HereStar(re, text);
      r := MatchStar(re[0], re[2..], text);
      return;
    }
    if re == "$" {
      HereEnd(text);
      return text == "";
    }
    HereOne(re, text);
    if text != "" && (re[0] == '.' || re[0] == text[0]) {
      r := MatchHere(re[1..], text[1..]);
      return;
    }
    return false;
  }

  method MatchStar(c: char, re: string, text: string) returns (r: bool)
    ensures r <==> exists k: nat :: StarTakes(c, re, text, k)
    decreases |re| + 1
  {
    var i := 0;
    while true
      invariant 0 <= i <= |text| && AllAccepted(c, text[..i]) && forall k :: 0 <= k < i ==> !Here(re, text[k..])
      decreases |text| - i
    {
      var here := MatchHere(re, text[i..]);
      if here {
        assert StarTakes(c, re, text, i);
        return true;
      }
      if i == |text| || !(text[i] == c || c == '.') {
        forall k | i < k <= |text| ensures !AllAccepted(c, text[..k]) { assert !Accepts(c, text[..k][i]); }
        return false;
      }
      i := i + 1;
    }
  }

  /** The matcher is exact. */
  method Match(re: string, text: string) returns (r: bool)
    ensures r <==> Matches(re, text)
  {
    if |re| > 0 && re[0] == '^' {
      r := MatchHere(re[1..], text);
      return;
    }
    var i := 0;
    while true
      invariant 0 <= i <= |text| && forall k :: 0 <= k < i ==> !Here(re, text[k..])
      decreases |text| - i
    {
      r := MatchHere(re, text[i..]);
      if r || i == |text| {
        return;
      }
      i := i + 1;
    }
  }
}
