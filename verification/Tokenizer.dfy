/** The scanner's language as a pure maximal-munch tokenizer on whole strings. */
module Tokenizer {
  import opened Grammar
  import opened Option
  import opened Characters

  /** The next token, if there is one, and what is left to scan. */
  datatype Scan = Scan(token: Option<Token>, rest: string)

  /** Length of the longest prefix of characters in the class `p`. */
  function Span(p: char -> bool, s: string): (n: nat)
    ensures n <= |s|
    ensures forall i :: 0 <= i < n ==> p(s[i])
    ensures n < |s| ==> !p(s[n])
  {
    if s != "" && p(s[0]) then 1 + Span(p, s[1..]) else 0
  }

  predicate NotQuote(c: char) { c != '"' }

  predicate IsQuotable(c: char) { c != '"' && c != NUL }

  function WithoutNul(s: string): string {
    if s == "" then ""
    else if s[0] == NUL then WithoutNul(s[1..])
    else [s[0]] + WithoutNul(s[1..])
  }

  /** The rest of a string literal whose characters so far are `prefix`. */
  function QuotedFrom(prefix: string, s: string): Scan {
    var n := Span(NotQuote, s);
    if n == |s| then Scan(None, "")
    else Scan(Some(StringTok(prefix + WithoutNul(s[..n]))), s[n + 1..])
  }

  /** The rest of a number whose characters so far are `prefix`. */
  function NumberFrom(prefix: string, s: string): Scan {
    var n := Span(IsNumeric, s);
    Scan(Some(NumberTok(prefix + s[..n])), s[n..])
  }

  function NameFrom(s: string): Scan {
    var n := Span(IsName, s);
    Scan(Some(VariableTok(s[..n])), s[n..])
  }

  predicate IsSkipped(c: char) {
    IsSpace(c) || c == NUL
  }

  function Next(s: string): (r: Scan)
    ensures r.token.Some? ==> |r.rest| < |s|
    ensures r.token.None? ==> r.rest == ""
    ensures r.rest == s[|s| - |r.rest|..]
    decreases |s|
  {
    if s == "" then Scan(None, "")
    else if IsSkipped(s[0]) then Next(s[1..])
    else if s[0] == '"' then QuotedFrom("", s[1..])
    else if s[0] == '(' then Scan(Some(LParen), s[1..])
    else if s[0] == ')' then Scan(Some(RParen), s[1..])
    else if s[0] == ',' then Scan(Some(Comma), s[1..])
    else if IsDigit(s[0]) then NumberFrom([s[0]], s[1..])
    else NameFrom(s)
  }

  /** All tokens of `s`. */
  function Tokens(s: string): seq<Token>
    decreases |s|
  {
    var r := Next(s);
    if r.token.None? then [] else [r.token.value] + Tokens(r.rest)
  }

  /** What is left of `s` after its first `k` tokens, or after its end when there are fewer. */
  function Dropped(s: string, k: nat): string {
    if k == 0 then s else Next(Dropped(s, k - 1)).rest
  }

  /** One more character of a string literal: NULs are dropped, others are kept. */
  lemma QuotedStep(prefix: string, s: string)
    requires s != "" && s[0] != '"'
    ensures QuotedFrom(prefix, s) == QuotedFrom(if s[0] == NUL then prefix else prefix + [s[0]], s[1..])
  {
    var n := Span(NotQuote, s[1..]);
    assert Span(NotQuote, s) == n + 1;
    assert s[..n + 1][1..] == s[1..][..n];
    assert s[n + 1..] == s[1..][n..];
    if s[0] != NUL {
      assert prefix + ([s[0]] + WithoutNul(s[1..][..n])) == prefix + [s[0]] + WithoutNul(s[1..][..n]);
    }
  }

  /** A whole run of a string literal's characters. */
  lemma {:induction false} QuotedRun(prefix: string, s: string)
    ensures QuotedFrom(prefix, s) == QuotedFrom(prefix + s[..Span(IsQuotable, s)], s[Span(IsQuotable, s)..])
    decreases |s|
  {
    var n := Span(IsQuotable, s);
    hide QuotedFrom;
    if n == 0 {
      assert prefix + s[..0] == prefix && s[0..] == s;
    } else {
      var t := s[1..];
      assert Span(IsQuotable, t) == n - 1;
      QuotedStep(prefix, s);
      QuotedRun(prefix + [s[0]], t);
      assert prefix + [s[0]] + t[..n - 1] == prefix + s[..n];
      assert t[n - 1..] == s[n..];
    }
  }
}
