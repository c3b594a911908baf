/**
 What the tokens of CXQ are, character by character, and that the tokeniser cuts off the
 longest one each time (cxq/parser.py:141-197).
 */
module CxqTokens {
  import opened CxqLexer
  import opened CxqNormalForm
  import opened CxqSyntax
  import opened Options
  import opened Text

  // ---- The tokens there are ------------------------------------------------------------------

  /** Text between two quotes of one kind, with none of that kind inside. */
  predicate IsQuoted(t: string) {
    |t| >= 2 && (t[0] == '"' || t[0] == '\'') && t[|t| - 1] == t[0] && forall k :: 0 < k < |t| - 1 ==> t[k] != t[0]
  }

  predicate IsSymbol(t: string) {
    t in {"=", "~", ".", ",", "(", ")", "[", "]", "!="}
  }

  predicate IsNumber(t: string) {
    t != "" && forall k :: 0 <= k < |t| ==> '0' <= t[k] <= '9'
  }

  predicate IsLetter(c: char) {
    'a' <= c <= 'z' || 'A' <= c <= 'Z' || c == '_'
  }

  /** A letter or `_`, then letters, digits, `_` and `:`. */
  predicate IsWord(t: string) {
    t != "" && IsLetter(t[0]) && forall k :: 0 <= k < |t| ==> IsLetter(t[k]) || '0' <= t[k] <= '9' || t[k] == ':'
  }

  predicate IsOperator(t: string) {
    t in {"calls+", "calls*", "inherits+", "inherits*", "implements+", "callers+", "callees+"}
  }

  lemma {:induction false} TokenIff(t: string)
    ensures IsToken(t) <==> IsQuoted(t) || IsSymbol(t) || IsNumber(t) || IsWord(t) || IsOperator(t)
  {
    if IsToken(t) {
      TokenIsOne(t);
    }
    if IsQuoted(t) {
      QuotedIsToken(t);
    } else if IsSymbol(t) {
      SymbolIsToken(t);
    } else if IsNumber(t) {
      RunIs(t, IsDigit, |t|);
      assert |t| > 1 ==> t[..2][0] == t[0];
    } else if IsWord(t) {
      RunIs(t, IsWordChar, |t|);
      assert |t| > 1 ==> t[..2][0] == t[0];
    } else if IsOperator(t) {
      ClosureOpsAreTokens(t);
    }
  }

  lemma {:induction false} QuotedIsToken(t: string)
    requires IsQuoted(t)
    ensures IsToken(t)
  {
    assert forall k :: 0 <= k < |t| - 2 ==> t[1..][k] == t[k + 1];
    RunIs(t[1..], Other(t[0]), |t| - 2);
  }

  lemma {:induction false} SymbolIsToken(t: string)
    requires IsSymbol(t)
    ensures IsToken(t)
  {
    if t == "!=" {
      assert t[..2] == t;
    }
  }

  lemma {:induction false} TokenIsOne(t: string)
    requires IsToken(t)
    ensures IsQuoted(t) || IsSymbol(t) || IsNumber(t) || IsWord(t) || IsOperator(t)
  {
    if IsQuote(t[0]) {
      TokenIsQuoted(t);
    } else if |t| > 1 && t[..2] == "!=" {
      assert t == t[..2];
    } else if t[0] in "=~.,()[]" {
      assert t == [t[0]];
    } else if !IsDigit(t[0]) {
      WordOrOperator(t);
    }
  }

  lemma {:induction false} TokenIsQuoted(t: string)
    requires IsToken(t) && IsQuote(t[0])
    ensures IsQuoted(t)
  {
    var n := Run(t[1..], Other(t[0]));
    assert |t| == n + 2 && t[1..][n] == t[n + 1];
    forall k | 0 < k < |t| - 1 ensures t[k] != t[0] {
      assert t[1..][k - 1] == t[k];
    }
  }

  lemma {:induction false} WordOrOperator(t: string)
    requires t != "" && IsWordStart(t[0]) && WordEnd(t) == |t|
    ensures IsWord(t) || IsOperator(t)
  {
    var n := Run(t, IsWordChar);
    if n < |t| {
      assert t[..n + 1] == t && t in SUFFIXED && t[|t| - 1] in "+*";
      SuffixedIsOperator(t);
    }
  }

  lemma {:induction false} SuffixedIsOperator(t: string)
    requires t in SUFFIXED && t != "" && t[|t| - 1] in "+*"
    ensures IsOperator(t)
  {
  }

  // ---- Maximal munch -----------------------------------------------------------------------

  /** The first n characters are a token, and no more of them are. */
  predicate IsLongest(s: string, n: nat) {
    0 < n <= |s| && IsToken(s[..n]) && forall m :: n < m <= |s| ==> !IsToken(s[..m])
  }

  /** A token in front of the text is no longer than the one cut off. */
  lemma {:induction false} NoLonger(s: string, m: nat)
    requires s != "" && !IsSpace(s[0]) && 0 < m <= |s| && IsToken(s[..m])
    ensures TokenEnd(s).Some? && m <= TokenEnd(s).value
  {
    var t := s[..m];
    TokenIsOne(t);
    assert t[0] == s[0] && t + s[m..] == s;
    if IsQuote(s[0]) {
      QuotedRun(t, s[m..]);
    } else if |t| > 1 && t[..2] == "!=" {
      assert s[..2] == t[..2];
    } else if t[0] in "=~.,()[]" {
      assert |s| > 1 ==> s[..2][0] == s[0];
    } else if IsDigit(t[0]) {
      assert forall k :: 0 <= k < m ==> IsDigit(s[k]);
      LongRun(s, IsDigit, m);
      assert |s| > 1 ==> s[..2][0] == s[0];
    } else {
      assert |s| > 1 ==> s[..2][0] == s[0];
      WordNoLonger(s, m);
    }
  }

  lemma {:induction false} LongRun(s: string, p: char -> bool, m: nat)
    requires m <= |s| && forall k :: 0 <= k < m ==> p(s[k])
    ensures m <= Run(s, p)
  {
  }

  lemma {:induction false} WordNoLonger(s: string, m: nat)
    requires 0 < m <= |s| && IsWordStart(s[0]) && WordEnd(s[..m]) == m
    ensures m <= WordEnd(s)
  {
    var t := s[..m];
    var n := Run(t, IsWordChar);
    if n == m {
      assert forall k :: 0 <= k < m ==> s[k] == t[k];
      LongRun(s, IsWordChar, m);
    } else {
      assert n == m - 1 && t[..n + 1] == t && s[n] == t[n];
      assert forall k :: 0 <= k < n ==> s[k] == t[k];
      RunIs(s, IsWordChar, n);
      assert s[..n + 1] == t;
    }
  }

  /** What is cut off is the longest token there is, and nothing is where no token starts. */
  lemma {:induction false} CutsLongest(s: string)
    requires s != "" && !IsSpace(s[0])
    ensures forall n: nat :: TokenEnd(s) == Some(n) <==> IsLongest(s, n)
  {
    forall m | 0 < m <= |s| && IsToken(s[..m]) ensures TokenEnd(s).Some? && m <= TokenEnd(s).value {
      NoLonger(s, m);
    }
    if TokenEnd(s).Some? {
      SliceIsToken(s);
    }
  }

  /** The text is blanks and tokens, each of them the longest at its place. */
  predicate Munches(s: string, ts: seq<string>)
    decreases |s|
  {
    if s == "" then ts == []
    else if IsSpace(s[0]) then Munches(s[1..], ts)
    else ts != [] && IsLongest(s, |ts[0]|) && s[..|ts[0]|] == ts[0] && Munches(s[|ts[0]|..], ts[1..])
  }

  lemma {:induction false} LexTurn(s: string, n: nat, ts: seq<string>)
    requires s != "" && !IsSpace(s[0]) && TokenEnd(s) == Some(n)
    ensures Lex(s) == Ok(ts) <==> ts != [] && ts[0] == s[..n] && Lex(s[n..]) == Ok(ts[1..])
  {
    var rest := Lex(s[n..]);
    if rest.Ok? {
      assert Lex(s) == Ok([s[..n]] + rest.value);
      assert ts != [] ==> ts == [ts[0]] + ts[1..];
    }
  }

  lemma {:induction false} OneLongest(s: string, m: nat, n: nat)
    requires IsLongest(s, m) && IsLongest(s, n)
    ensures m == n
  {
  }

  lemma {:induction false} MunchTurn(s: string, n: nat, ts: seq<string>)
    requires s != "" && !IsSpace(s[0]) && IsLongest(s, n)
    ensures Munches(s, ts) <==> ts != [] && ts[0] == s[..n] && Munches(s[n..], ts[1..])
  {
    if ts != [] && IsLongest(s, |ts[0]|) {
      OneLongest(s, |ts[0]|, n);
    }
  }

  /** The tokeniser cuts the text into blanks and longest tokens, and fails where there is no such cut. */
  lemma {:induction false} LexIff(s: string, ts: seq<string>)
    ensures Lex(s) == Ok(ts) <==> Munches(s, ts)
    decreases |s|
  {
    if s != "" {
      if IsSpace(s[0]) {
        LexIff(s[1..], ts);
      } else {
        CutsLongest(s);
        var n := TokenEnd(s);
        if n.Some? {
          LexTurn(s, n.value, ts);
          MunchTurn(s, n.value, ts);
          if ts != [] {
            LexIff(s[n.value..], ts[1..]);
          }
        }
      }
    }
  }
}
