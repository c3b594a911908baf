/**
 * The CXQ tokeniser (cxq/parser.py:141-197): an index loop over the text, the function it
 * computes, and what the tokens say about the text.
 */
module CxqLexer {
  import opened CxqSyntax
  import opened Options
  import opened Text

  /** The words that take a trailing `+` or `*` into the token. */
  const SUFFIXED: set<string> := CLOSURE_OPS + METRIC_DIRS

  predicate IsWordStart(c: char) {
    IsAlpha(c) || c == '_'
  }

  predicate IsWordChar(c: char) {
    IsAlpha(c) || IsDigit(c) || c == '_' || c == ':'
  }

  /** The end of the word at the front of `s`, with its suffix when that makes a known operator. */
  function WordEnd(s: string): (n: nat)
    ensures Run(s, IsWordChar) <= n <= |s|
  {
    var n := Run(s, IsWordChar);
    if n < |s| && s[n] in "+*" && s[..n + 1] in SUFFIXED then n + 1 else n
  }

  /** The length of the token `s` starts with; None when no token starts there. */
  function TokenEnd(s: string): (n: Option<nat>)
    requires s != ""
    ensures n.Some? ==> 0 < n.value <= |s|
  {
    if IsQuote(s[0]) then
      var j := 1 + Run(s[1..], Other(s[0]));
      if j < |s| then Some(j + 1) else None
    else if |s| > 1 && s[..2] == "!=" then Some(2)
    else if s[0] in "=~.,()[]" then Some(1)
    else if IsDigit(s[0]) then Some(Run(s, IsDigit))
    else if IsWordStart(s[0]) then Some(WordEnd(s))
    else None
  }

  function Lex(s: string): Result<seq<string>> {
    if s == "" then Ok([])
    else if IsSpace(s[0]) then Lex(s[1..])
    else
      var n := TokenEnd(s);
      if n.None? then Err(SyntaxError)
      else
        var rest := Lex(s[n.value..]);
        if rest.Err? then rest else Ok([s[..n.value]] + rest.value)
  }

  // ---- The tokeniser as the source runs it ---------------------------------------------

  function After(tokens: seq<string>, rest: Result<seq<string>>): Result<seq<string>> {
    if rest.Err? then rest else Ok(tokens + rest.value)
  }

  method Scan(text: string, start: nat, p: char -> bool) returns (j: nat)
    requires start <= |text|
    ensures j == start + Run(text[start..], p)
  {
    j := start;
    while j < |text| && p(text[j])
      invariant start <= j <= |text|
      invariant start + Run(text[start..], p) == j + Run(text[j..], p)
    {
      assert text[j..][1..] == text[j + 1..];
      j := j + 1;
    }
  }

  /** One non-blank turn of the loop: the index after the token at `i`. */
  method NextToken(text: string, i: nat) returns (j: Option<nat>)
    requires i < |text| && !IsSpace(text[i])
    ensures TokenEnd(text[i..]) == if j.Some? then Some(j.value - i) else None
    ensures j.Some? ==> i < j.value <= |text|
  {
    ghost var s := text[i..];
    if IsQuote(text[i]) {
      assert s[1..] == text[i + 1..];
      var k := Scan(text, i + 1, Other(text[i]));
      return if k < |text| then Some(k + 1) else None;
    }
    if i + 1 < |text| && text[i..i + 2] == "!=" {
      assert s[..2] == text[i..i + 2];
      return Some(i + 2);
    }
    assert |s| > 1 ==> s[..2] == text[i..i + 2];
    if text[i] in "=~.,()[]" {
      return Some(i + 1);
    }
    if IsDigit(text[i]) {
      var k := Scan(text, i, IsDigit);
      return Some(k);
    }
    if IsWordStart(text[i]) {
      var k := Scan(text, i, IsWordChar);
      if k < |text| && text[k] in "+*" {
        assert s[..k - i + 1] == text[i..k + 1];
        if text[i..k + 1] in SUFFIXED {
          return Some(k + 1);
        }
      }
      return Some(k);
    }
    return None;
  }

  method Tokenize(text: string) returns (r: Result<seq<string>>)
    ensures r == Lex(text)
  {
    var tokens: seq<string> := [];
    var i := 0;
    AtStart(text);
    while i < |text|
      invariant i <= |text|
      invariant After(tokens, Lex(text[i..])) == Lex(text)
    {
      OtherTurn(tokens, text, i);
      if IsSpace(text[i]) {
        i := i + 1;
      } else {
        var j := NextToken(text, i);
        if j.None? {
          return Err(SyntaxError);
        }
        Turn(tokens, text, i, j.value);
        tokens := tokens + [text[i..j.value]];
        i := j.value;
      }
    }
    AtEnd(tokens, text[i..]);
    return Ok(tokens);
  }

  lemma {:induction false} AtEnd(tokens: seq<string>, rest: string)
    requires rest == ""
    ensures After(tokens, Lex(rest)) == Ok(tokens)
  {
    assert tokens + [] == tokens;
  }

  lemma {:induction false} AtStart(text: string)
    ensures After([], Lex(text[0..])) == Lex(text)
  {
    assert text[0..] == text && (Lex(text).Ok? ==> [] + Lex(text).value == Lex(text).value);
  }

  /** Blanks and what no token starts with: the other two turns of the loop. */
  lemma {:induction false} OtherTurn(tokens: seq<string>, text: string, i: nat)
    requires i < |text|
    ensures IsSpace(text[i]) ==> After(tokens, Lex(text[i..])) == After(tokens, Lex(text[i + 1..]))
    ensures !IsSpace(text[i]) && TokenEnd(text[i..]).None? ==> After(tokens, Lex(text[i..])) == Err(SyntaxError)
  {
    assert text[i..][1..] == text[i + 1..];
  }

  lemma {:induction false} Turn(tokens: seq<string>, text: string, i: nat, j: nat)
    requires i < j <= |text| && !IsSpace(text[i]) && TokenEnd(text[i..]) == Some(j - i)
    ensures After(tokens, Lex(text[i..])) == After(tokens + [text[i..j]], Lex(text[j..]))
  {
    assert text[i..][j - i..] == text[j..] && text[i..][..j - i] == text[i..j];
    var rest := Lex(text[j..]);
    if rest.Ok? {
      assert tokens + ([text[i..j]] + rest.value) == tokens + [text[i..j]] + rest.value;
    }
  }

  // ---- What a token is -----------------------------------------------------------------

  /** A token the lexer can produce: read alone, it is one token, whole. */
  predicate IsToken(t: string) {
    t != "" && !IsSpace(t[0]) && TokenEnd(t) == Some(|t|)
  }

  predicate Tokens(ts: seq<string>) {
    forall t :: t in ts ==> IsToken(t)
  }

  predicate StartsWithQuote(t: string) {
    t != "" && IsQuote(t[0])
  }

  lemma {:induction false} WordEndOf(s: string, t: string)
    requires t != "" && t <= s && WordEnd(t) == |t|
    requires |t| < |s| ==> !IsWordChar(s[|t|]) && s[|t|] !in "+*"
    ensures WordEnd(s) == |t|
  {
    var n := Run(t, IsWordChar);
    if n == |t| {
      RunIs(s, IsWordChar, |t|);
    } else {
      RunIs(s, IsWordChar, n);
      assert s[..n + 1] == t[..n + 1] && s[n] == t[n];
    }
  }

  /** The closing quote of a quoted token is found whatever follows it. */
  lemma {:induction false} QuotedRun(t: string, rest: string)
    requires t != "" && IsQuote(t[0]) && TokenEnd(t) == Some(|t|)
    ensures |t| > 1 && Run((t + rest)[1..], Other(t[0])) == |t| - 2
  {
    var n := Run(t[1..], Other(t[0]));
    assert |t| == n + 2;
    assert forall k :: 0 <= k <= n ==> (t + rest)[1..][k] == t[1..][k];
    RunIs((t + rest)[1..], Other(t[0]), n);
  }

  /** A token read in front of anything that starts with a blank ends where the blank does. */
  lemma {:induction false} TokenEndsAtBlank(t: string, rest: string)
    requires IsToken(t) && (rest == "" || IsSpace(rest[0]))
    ensures TokenEnd(t + rest) == Some(|t|)
  {
    var s := t + rest;
    if IsQuote(t[0]) {
      QuotedRun(t, rest);
    } else if |t| > 1 && t[..2] == "!=" {
      assert s[..2] == t[..2];
    } else if t[0] in "=~.,()[]" {
      assert |s| > 1 ==> s[0] == t[0] && s[..2][0] == t[0];
    } else if IsDigit(t[0]) {
      RunIs(s, IsDigit, |t|);
      assert |s| > 1 ==> s[..2][0] == t[0];
    } else {
      WordEndOf(s, t);
      assert |s| > 1 ==> s[..2][0] == t[0];
    }
  }

  lemma {:induction false} WordSlice(s: string)
    requires s != "" && IsWordStart(s[0])
    ensures 0 < WordEnd(s) && WordEnd(s[..WordEnd(s)]) == WordEnd(s)
  {
    var n, k := WordEnd(s), Run(s, IsWordChar);
    var t := s[..n];
    RunIs(t, IsWordChar, k);
    if n > k {
      assert t[..k + 1] == s[..k + 1];
    }
  }

  /** Every slice the lexer cuts off is itself a token. */
  lemma {:induction false} SliceIsToken(s: string)
    requires s != "" && !IsSpace(s[0]) && TokenEnd(s).Some?
    ensures IsToken(s[..TokenEnd(s).value])
  {
    var n := TokenEnd(s).value;
    var t := s[..n];
    assert n > 1 ==> t[..2] == s[..2];
    if IsQuote(s[0]) {
      RunIs(t[1..], Other(s[0]), n - 2);
    } else if |s| > 1 && s[..2] == "!=" {
    } else if s[0] in "=~.,()[]" {
    } else if IsDigit(s[0]) {
      RunIs(t, IsDigit, n);
    } else {
      WordSlice(s);
    }
  }

  lemma {:induction false} LexGivesTokens(s: string)
    requires Lex(s).Ok?
    ensures Tokens(Lex(s).value)
  {
    if s == "" {
    } else if IsSpace(s[0]) {
      LexGivesTokens(s[1..]);
    } else {
      SliceIsToken(s);
      LexGivesTokens(s[TokenEnd(s).value..]);
    }
  }

  // ---- Characters are conserved --------------------------------------------------------

  predicate Blank(s: string) {
    forall k :: 0 <= k < |s| ==> IsSpace(s[k])
  }

  /** The tokens with a gap before each and one after the last. */
  function Interleave(gaps: seq<string>, tokens: seq<string>): string
    requires |gaps| == |tokens| + 1
  {
    if tokens == [] then gaps[0] else gaps[0] + tokens[0] + Interleave(gaps[1..], tokens[1..])
  }

  /** The text is its tokens, in order and unchanged, with nothing but blanks between them. */
  lemma {:induction false} LexConserves(s: string) returns (gaps: seq<string>)
    requires Lex(s).Ok?
    ensures |gaps| == |Lex(s).value| + 1 && forall k :: 0 <= k < |gaps| ==> Blank(gaps[k])
    ensures Interleave(gaps, Lex(s).value) == s
  {
    if s == "" {
      gaps := [""];
    } else if IsSpace(s[0]) {
      var inner := LexConserves(s[1..]);
      gaps := [[s[0]] + inner[0]] + inner[1..];
      WidenGap(s[0], inner, Lex(s).value);
      assert s == [s[0]] + s[1..];
    } else {
      var n := TokenEnd(s).value;
      var inner := LexConserves(s[n..]);
      gaps := [""] + inner;
      PrependToken(s[..n], inner, Lex(s[n..]).value);
      assert s == s[..n] + s[n..];
      BlankFront(inner);
    }
  }

  lemma {:induction false} BlankFront(gaps: seq<string>)
    requires forall k :: 0 <= k < |gaps| ==> Blank(gaps[k])
    ensures forall k :: 0 <= k < |gaps| + 1 ==> Blank(([""] + gaps)[k])
  {
  }

  lemma {:induction false} PrependToken(tok: string, gaps: seq<string>, tokens: seq<string>)
    requires |gaps| == |tokens| + 1
    ensures Interleave([""] + gaps, [tok] + tokens) == tok + Interleave(gaps, tokens)
  {
    assert ([""] + gaps)[1..] == gaps && ([tok] + tokens)[1..] == tokens && "" + tok == tok;
  }

  lemma {:induction false} WidenGap(c: char, gaps: seq<string>, tokens: seq<string>)
    requires |gaps| == |tokens| + 1
    ensures Interleave([[c] + gaps[0]] + gaps[1..], tokens) == [c] + Interleave(gaps, tokens)
  {
    var wide := [[c] + gaps[0]] + gaps[1..];
    assert wide[1..] == gaps[1..];
    if tokens != [] {
      var rest := Interleave(gaps[1..], tokens[1..]);
      assert [c] + gaps[0] + tokens[0] + rest == [c] + (gaps[0] + tokens[0] + rest);
    }
  }

  // ---- Writing tokens back ----------------------------------------------------------------

  /** The tokens as text, one blank between neighbours. */
  function Spaced(tokens: seq<string>): string {
    if tokens == [] then ""
    else if |tokens| == 1 then tokens[0]
    else tokens[0] + (" " + Spaced(tokens[1..]))
  }

  lemma {:induction false} LexSpaced(tokens: seq<string>)
    requires Tokens(tokens)
    ensures Lex(Spaced(tokens)) == Ok(tokens)
  {
    if tokens != [] {
      var t, s := tokens[0], Spaced(tokens);
      var rest := if |tokens| == 1 then "" else " " + Spaced(tokens[1..]);
      assert s == t + rest;
      TokenEndsAtBlank(t, rest);
      assert s[..|t|] == t && s[|t|..] == rest;
      if |tokens| > 1 {
        assert rest[1..] == Spaced(tokens[1..]);
        LexSpaced(tokens[1..]);
      }
      assert [t] + tokens[1..] == tokens;
    }
  }

  /** Lexing normalises blanks and nothing else: the tokens re-spaced lex to the same tokens. */
  lemma {:induction false} RelexedIsSame(s: string)
    requires Lex(s).Ok?
    ensures Lex(Spaced(Lex(s).value)) == Lex(s)
  {
    LexGivesTokens(s);
    LexSpaced(Lex(s).value);
  }

  lemma {:induction false} TokenIsBare(t: string)
    requires IsToken(t)
    ensures Bare(t, IsSpace)
  {
    var last := t[|t| - 1];
    if IsDigit(t[0]) {
      assert IsDigit(t[|t| - 1]);
    } else if IsWordStart(t[0]) {
      var k := Run(t, IsWordChar);
      assert k == |t| ==> IsWordChar(t[k - 1]);
    } else if IsQuote(t[0]) {
      assert t[1..][|t| - 2] == last;
    }
  }

  lemma {:induction false} SpacedIsBare(tokens: seq<string>)
    requires Tokens(tokens)
    ensures Bare(Spaced(tokens), IsSpace) && (tokens != [] ==> Spaced(tokens) != "")
  {
    if tokens != [] {
      TokenIsBare(tokens[0]);
      if |tokens| > 1 {
        SpacedIsBare(tokens[1..]);
      }
    }
  }

  /** A token that is not quoted holds no quote character. */
  lemma {:induction false} UnquotedHasNoQuote(t: string)
    requires IsToken(t) && !StartsWithQuote(t)
    ensures forall k :: 0 <= k < |t| ==> !IsQuote(t[k])
  {
    if !IsDigit(t[0]) && IsWordStart(t[0]) {
      assert forall k :: 0 <= k < Run(t, IsWordChar) ==> IsWordChar(t[k]);
    }
  }
}
