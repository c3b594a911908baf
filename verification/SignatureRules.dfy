/**
 * The signature scanners on any text, by counting brackets: which parenthesis opens the
 * argument list and which closes it, which blank splits a head, where an argument list is
 * cut, and what the parsers refuse.
 */
module SignatureRules {
  import opened Options
  import opened Signatures
  import opened Text

  /** How many parentheses are open before position k. */
  function OpenParens(s: string, k: nat): int
    requires k <= |s|
  {
    (multiset(s[..k])['('] as int) - multiset(s[..k])[')']
  }

  /** How many brackets of the three kinds are open before position k. */
  function OpenBrackets(s: string, k: nat): int
    requires k <= |s|
  {
    var m := multiset(s[..k]);
    (m['('] as int) + m['['] + m['<'] - m[')'] - m[']'] - m['>']
  }

  lemma {:induction false} CountsFromFront(s: string, k: nat)
    requires k < |s|
    ensures multiset(s[..k + 1]) == multiset{s[0]} + multiset(s[1..][..k])
  {
    assert s[..k + 1] == [s[0]] + s[1..][..k];
  }

  lemma {:induction false} ParensFromFront(s: string, k: nat)
    requires k < |s|
    ensures OpenParens(s, k + 1) == Paren(s[0]) + OpenParens(s[1..], k)
  {
    CountsFromFront(s, k);
  }

  lemma {:induction false} BracketsFromFront(s: string, k: nat)
    requires k < |s|
    ensures OpenBrackets(s, k + 1) == Step(s[0]) + OpenBrackets(s[1..], k)
  {
    CountsFromFront(s, k);
  }

  // ---- The argument list -----------------------------------------------------------------

  /** A parenthesis at position k that opens with nothing open. */
  predicate OpensAt(s: string, depth: int, k: nat) {
    k < |s| && s[k] == '(' && depth + OpenParens(s, k) == 0
  }

  /** A parenthesis at position k that closes the only one open. */
  predicate ClosesAt(s: string, depth: int, k: nat) {
    k < |s| && s[k] == ')' && depth + OpenParens(s, k) == 1
  }

  /** The first parenthesis opened at top level is at a, and b is the first after it that closes it. */
  ghost predicate ListAt(s: string, depth: int, a: nat, b: nat) {
    && OpensAt(s, depth, a) && NoneOpens(s, depth, a)
    && a < b && ClosesAt(s, depth, b) && NoneCloses(s, depth, a + 1, b)
  }

  ghost predicate NoneOpens(s: string, depth: int, n: nat) {
    forall k: nat :: k < n ==> !OpensAt(s, depth, k)
  }

  ghost predicate NoneCloses(s: string, depth: int, m: nat, n: nat) {
    forall k: nat :: m <= k < n ==> !ClosesAt(s, depth, k)
  }

  lemma {:induction false} OpensLater(s: string, depth: int, k: nat)
    requires s != ""
    ensures OpensAt(s, depth, k + 1) <==> OpensAt(s[1..], depth + Paren(s[0]), k)
    ensures ClosesAt(s, depth, k + 1) <==> ClosesAt(s[1..], depth + Paren(s[0]), k)
  {
    if k + 1 < |s| {
      ParensFromFront(s, k);
    }
  }

  lemma {:induction false} NoneOpensLater(s: string, depth: int, n: nat)
    requires s != ""
    ensures NoneOpens(s, depth, n + 1) <==> !OpensAt(s, depth, 0) && NoneOpens(s[1..], depth + Paren(s[0]), n)
  {
    var rest, d := s[1..], depth + Paren(s[0]);
    forall k: nat ensures OpensAt(rest, d, k) <==> OpensAt(s, depth, k + 1) {
      OpensLater(s, depth, k);
    }
    forall k: nat | k > 0 ensures OpensAt(s, depth, k) <==> OpensAt(rest, d, k - 1) {
      OpensLater(s, depth, k - 1);
    }
  }

  lemma {:induction false} NoneClosesLater(s: string, depth: int, m: nat, n: nat)
    requires s != ""
    ensures NoneCloses(s, depth, m + 1, n + 1) <==> NoneCloses(s[1..], depth + Paren(s[0]), m, n)
  {
    var rest, d := s[1..], depth + Paren(s[0]);
    forall k: nat ensures ClosesAt(rest, d, k) <==> ClosesAt(s, depth, k + 1) {
      OpensLater(s, depth, k);
    }
    forall k: nat | k > 0 ensures ClosesAt(s, depth, k) <==> ClosesAt(rest, d, k - 1) {
      OpensLater(s, depth, k - 1);
    }
  }

  lemma {:induction false} CloseIsLater(s: string, depth: int, b: nat)
    requires s != "" && !(s[0] == ')' && depth == 1)
    ensures FindClose(s, depth) == Some(b) <==> b > 0 && FindClose(s[1..], depth + Paren(s[0])) == Some(b - 1)
  {
  }

  lemma {:induction false} NoneClosesFirst(s: string, depth: int, n: nat)
    requires !ClosesAt(s, depth, 0)
    ensures NoneCloses(s, depth, 0, n) <==> NoneCloses(s, depth, 1, n)
  {
  }

  /** The first closing parenthesis that leaves nothing open. */
  lemma {:induction false} CloseIff(s: string, depth: int, b: nat)
    ensures FindClose(s, depth) == Some(b) <==> ClosesAt(s, depth, b) && NoneCloses(s, depth, 0, b)
    decreases |s|
  {
    if s != "" {
      if s[0] == ')' && depth == 1 {
        assert ClosesAt(s, depth, 0);
      } else {
        assert !ClosesAt(s, depth, 0);
        CloseIsLater(s, depth, b);
        if b > 0 {
          CloseIff(s[1..], depth + Paren(s[0]), b - 1);
          OpensLater(s, depth, b - 1);
          NoneClosesLater(s, depth, 0, b - 1);
          NoneClosesFirst(s, depth, b);
        }
      }
    }
  }

  lemma {:induction false} ListIffFrom(s: string, depth: int, a: nat, b: nat)
    ensures FindList(s, depth) == Some((a, b)) <==> ListAt(s, depth, a, b)
    decreases |s|
  {
    if s != "" {
      if OpensAt(s, depth, 0) {
        ListStartsHere(s, depth, a, b);
      } else if a == 0 || b == 0 {
        LaterIsPositive(s, depth, a, b);
      } else {
        ListIffFrom(s[1..], depth + Paren(s[0]), a - 1, b - 1);
        ListMoves(s, depth, a, b);
        LaterIsShifted(s, depth, a, b);
      }
    }
  }

  lemma {:induction false} ListMoves(s: string, depth: int, a: nat, b: nat)
    requires s != "" && !OpensAt(s, depth, 0) && a > 0 && b > 0
    ensures ListAt(s, depth, a, b) <==> ListAt(s[1..], depth + Paren(s[0]), a - 1, b - 1)
  {
    OpensLater(s, depth, a - 1);
    OpensLater(s, depth, b - 1);
    NoneOpensLater(s, depth, a - 1);
    NoneClosesLater(s, depth, a, b - 1);
  }

  lemma {:induction false} LaterIsPositive(s: string, depth: int, a: nat, b: nat)
    requires s != "" && !(s[0] == '(' && depth == 0) && (a == 0 || b == 0)
    ensures FindList(s, depth) != Some((a, b)) && !ListAt(s, depth, a, b)
  {
  }

  lemma {:induction false} LaterIsShifted(s: string, depth: int, a: nat, b: nat)
    requires s != "" && !(s[0] == '(' && depth == 0) && a > 0 && b > 0
    ensures FindList(s, depth) == Some((a, b)) <==> FindList(s[1..], depth + Paren(s[0])) == Some((a - 1, b - 1))
  {
  }

  lemma {:induction false} ListStartsHere(s: string, depth: int, a: nat, b: nat)
    requires s != "" && OpensAt(s, depth, 0)
    ensures FindList(s, depth) == Some((a, b)) <==> ListAt(s, depth, a, b)
  {
    if a > 0 {
      assert !NoneOpens(s, depth, a);
    } else if b > 0 {
      CloseIff(s[1..], 1, b - 1);
      OpensLater(s, depth, b - 1);
      NoneClosesLater(s, depth, 0, b - 1);
    }
  }

  /** On every text the scan finds exactly that pair of parentheses, or nothing where there is none. */
  lemma {:induction false} ArgumentListIff(s: string, a: nat, b: nat)
    ensures FindList(s, 0) == Some((a, b)) <==> ListAt(s, 0, a, b)
  {
    ListIffFrom(s, 0, a, b);
  }

  // ---- What the parsers refuse -----------------------------------------------------------

  ghost predicate HasList(s: string) {
    exists a: nat, b: nat :: ListAt(s, 0, a, b)
  }

  lemma {:induction false} FoundIff(s: string)
    ensures FindList(s, 0).Some? <==> HasList(s)
  {
    if FindList(s, 0).Some? {
      ArgumentListIff(s, FindList(s, 0).value.0, FindList(s, 0).value.1);
    } else if HasList(s) {
      var a: nat, b: nat :| ListAt(s, 0, a, b);
      ArgumentListIff(s, a, b);
    }
  }

  /** The last word of a trimmed text is not empty. */
  lemma {:induction false} NameIsThere(text: string)
    ensures SplitRetAndName(text).1 == "" <==> Trim(text) == ""
  {
    var head := Trim(text);
    var k := LastTopSpace(head, 0);
    StripIsBare(text, IsSpace);
    if k.Some? {
      var last := head[k.value + 1..];
      SpaceAtSplit(head, 0);
      assert last != "" && !IsSpace(last[|last| - 1]);
      StripIsEmptyIff(last, IsSpace);
    }
  }

  lemma {:induction false} SpaceAtSplit(s: string, depth: int)
    requires LastTopSpace(s, depth).Some?
    ensures IsSpace(s[LastTopSpace(s, depth).value])
  {
    var rest := LastTopSpace(s[1..], depth + Step(s[0]));
    if rest.Some? {
      SpaceAtSplit(s[1..], depth + Step(s[0]));
    }
  }

  lemma {:induction false} StripIsEmptyIff(s: string, p: char -> bool)
    ensures Strip(s, p) == "" <==> forall k :: 0 <= k < |s| ==> p(s[k])
  {
    var a, b := Run(s, p), End(s, p);
    assert a < b ==> a < |s|;
  }

  /** The parts of a text with an argument list: what stands before it and what stands in it, trimmed; `void` alone is no argument. */
  lemma {:induction false} PartsIff(sig: string, a: nat, b: nat)
    requires ListAt(sig, 0, a, b)
    ensures var inside := Trim(sig[a + 1..b]);
            ParseSignature(sig) == (Some(Trim(sig[..a])), Some(if inside == "" || inside == "void" then [] else SplitFrom(inside, 0, "")))
  {
    ArgumentListIff(sig, a, b);
  }

  /** A text is refused for want of an argument list when it has none, and for want of a name when nothing stands before it. */
  lemma {:induction false} RefusedIff(sig: string)
    ensures ParseFull(sig) == Err(NoArgumentList) <==> !HasList(sig)
    ensures ParseFull(sig) == Err(NoFunctionName) <==> exists a: nat, b: nat :: ListAt(sig, 0, a, b) && Trim(sig[..a]) == ""
    ensures ParseRetParams(sig).Err? <==> !HasList(sig)
    ensures ParseRetParams(sig).Err? ==> ParseRetParams(sig) == Err(NoArgumentList)
  {
    FoundIff(sig);
    if HasList(sig) {
      var found := FindList(sig, 0).value;
      ArgumentListIff(sig, found.0, found.1);
      NameIsThere(Trim(sig[..found.0]));
      TrimTwice(sig[..found.0]);
      forall a: nat, b: nat | ListAt(sig, 0, a, b) ensures a == found.0 {
        ArgumentListIff(sig, a, b);
      }
    }
  }

  lemma {:induction false} TrimTwice(s: string)
    ensures Trim(Trim(s)) == Trim(s)
  {
    StripIsBare(s, IsSpace);
    StripIsBare(Trim(s), IsSpace);
  }

  // ---- Blanks and commas outside brackets ------------------------------------------------

  predicate BlankAt(s: string, depth: int, k: nat) {
    k < |s| && IsSpace(s[k]) && depth + OpenBrackets(s, k) == 0
  }

  predicate CommaAt(s: string, depth: int, k: nat) {
    k < |s| && s[k] == ',' && depth + OpenBrackets(s, k) == 0
  }

  lemma {:induction false} AtLater(s: string, depth: int, k: nat)
    requires s != ""
    ensures BlankAt(s, depth, k + 1) <==> BlankAt(s[1..], depth + Step(s[0]), k)
    ensures CommaAt(s, depth, k + 1) <==> CommaAt(s[1..], depth + Step(s[0]), k)
  {
    if k + 1 < |s| {
      BracketsFromFront(s, k);
    }
  }

  ghost predicate NoBlankFrom(s: string, depth: int, n: nat) {
    forall k: nat :: n <= k ==> !BlankAt(s, depth, k)
  }

  lemma {:induction false} NoBlankLater(s: string, depth: int, n: nat)
    requires s != ""
    ensures NoBlankFrom(s, depth, n + 1) <==> NoBlankFrom(s[1..], depth + Step(s[0]), n)
  {
    var rest, d := s[1..], depth + Step(s[0]);
    forall k: nat ensures BlankAt(rest, d, k) <==> BlankAt(s, depth, k + 1) {
      AtLater(s, depth, k);
    }
    forall k: nat | k > 0 ensures BlankAt(s, depth, k) <==> BlankAt(rest, d, k - 1) {
      AtLater(s, depth, k - 1);
    }
  }

  lemma {:induction false} NoSpaceStep(s: string, depth: int)
    requires s != ""
    ensures LastTopSpace(s, depth).None? <==> !BlankAt(s, depth, 0) && LastTopSpace(s[1..], depth + Step(s[0])).None?
  {
    assert OpenBrackets(s, 0) == 0;
  }

  lemma {:induction false} NoBlankStep(s: string, depth: int)
    requires s != ""
    ensures NoBlankFrom(s, depth, 0) <==> !BlankAt(s, depth, 0) && NoBlankFrom(s[1..], depth + Step(s[0]), 0)
  {
    NoBlankLater(s, depth, 0);
    NoBlankFirst(s, depth);
  }

  lemma {:induction false} NoSpaceIff(s: string, depth: int)
    ensures LastTopSpace(s, depth).None? <==> NoBlankFrom(s, depth, 0)
    decreases |s|
  {
    if s != "" {
      var rest, d := s[1..], depth + Step(s[0]);
      NoSpaceIff(rest, d);
      NoBlankStep(s, depth);
      NoSpaceStep(s, depth);
    }
  }

  lemma {:induction false} NoBlankFirst(s: string, depth: int)
    ensures NoBlankFrom(s, depth, 0) <==> !BlankAt(s, depth, 0) && NoBlankFrom(s, depth, 1)
  {
  }

  ghost predicate IsLastBlank(s: string, depth: int, k: nat) {
    BlankAt(s, depth, k) && NoBlankFrom(s, depth, k + 1)
  }

  lemma {:induction false} LastBlankMoves(s: string, depth: int, k: nat)
    requires s != "" && k > 0
    ensures IsLastBlank(s, depth, k) <==> IsLastBlank(s[1..], depth + Step(s[0]), k - 1)
  {
    AtLater(s, depth, k - 1);
    NoBlankLater(s, depth, k);
  }

  lemma {:induction false} FirstIsLast(s: string, depth: int)
    requires s != ""
    ensures LastTopSpace(s, depth) == Some(0) <==> IsLastBlank(s, depth, 0)
  {
    NoSpaceIff(s[1..], depth + Step(s[0]));
    NoBlankLater(s, depth, 0);
    LastSpaceHere(s, depth);
    assert OpenBrackets(s, 0) == 0;
  }

  lemma {:induction false} LastSpaceFrom(s: string, depth: int, k: nat)
    ensures LastTopSpace(s, depth) == Some(k) <==> IsLastBlank(s, depth, k)
    decreases |s|
  {
    if s != "" {
      if k == 0 {
        FirstIsLast(s, depth);
      } else {
        LastSpaceFrom(s[1..], depth + Step(s[0]), k - 1);
        LastBlankMoves(s, depth, k);
        LastSpaceLater(s, depth, k);
      }
    }
  }

  lemma {:induction false} LastSpaceHere(s: string, depth: int)
    requires s != ""
    ensures LastTopSpace(s, depth) == Some(0) <==> LastTopSpace(s[1..], depth + Step(s[0])).None? && IsSpace(s[0]) && depth == 0
  {
  }

  lemma {:induction false} LastSpaceLater(s: string, depth: int, k: nat)
    requires s != "" && k > 0
    ensures LastTopSpace(s, depth) == Some(k) <==> LastTopSpace(s[1..], depth + Step(s[0])) == Some(k - 1)
  {
  }

  /** A head is split at its last blank outside all brackets. */
  lemma {:induction false} SplitBlankIff(s: string, k: nat)
    ensures LastTopSpace(s, 0) == Some(k) <==> IsLastBlank(s, 0, k)
  {
    LastSpaceFrom(s, 0, k);
  }

  ghost predicate NoCommaBefore(s: string, depth: int, n: nat) {
    forall k: nat :: k < n ==> !CommaAt(s, depth, k)
  }

  lemma {:induction false} NoCommaLater(s: string, depth: int, n: nat)
    requires s != ""
    ensures NoCommaBefore(s, depth, n + 1) <==> !CommaAt(s, depth, 0) && NoCommaBefore(s[1..], depth + Step(s[0]), n)
  {
    var rest, d := s[1..], depth + Step(s[0]);
    forall k: nat ensures CommaAt(rest, d, k) <==> CommaAt(s, depth, k + 1) {
      AtLater(s, depth, k);
    }
    forall k: nat | k > 0 ensures CommaAt(s, depth, k) <==> CommaAt(rest, d, k - 1) {
      AtLater(s, depth, k - 1);
    }
  }

  lemma {:induction false} CopiesOne(s: string, depth: int, cur: string)
    requires s != "" && !CommaAt(s, depth, 0)
    ensures SplitFrom(s, depth, cur) == SplitFrom(s[1..], depth + Step(s[0]), cur + [s[0]])
  {
    assert OpenBrackets(s, 0) == 0;
  }

  lemma {:induction false} CutsHere(s: string, depth: int, cur: string)
    requires CommaAt(s, depth, 0)
    ensures SplitFrom(s, depth, cur) == [Trim(cur)] + SplitFrom(s[1..], 0, "")
  {
  }

  lemma {:induction false} OneMoved(s: string, cur: string, k: nat)
    requires 0 < k < |s|
    ensures s[1..][k..] == s[k + 1..] && cur + [s[0]] + s[1..][..k - 1] == cur + s[..k]
  {
  }

  lemma {:induction false} CutFrom(s: string, depth: int, cur: string, k: nat)
    requires CommaAt(s, depth, k) && NoCommaBefore(s, depth, k)
    ensures SplitFrom(s, depth, cur) == [Trim(cur + s[..k])] + SplitFrom(s[k + 1..], 0, "")
    decreases |s|
  {
    if k == 0 {
      CutsHere(s, depth, cur);
      assert cur + s[..0] == cur;
    } else {
      var rest, d := s[1..], depth + Step(s[0]);
      NoCommaLater(s, depth, k - 1);
      AtLater(s, depth, k - 1);
      CutFrom(rest, d, cur + [s[0]], k - 1);
      CutMoves(s, depth, cur, k);
    }
  }

  lemma {:induction false} CutMoves(s: string, depth: int, cur: string, k: nat)
    requires 0 < k < |s| && !CommaAt(s, depth, 0)
    requires SplitFrom(s[1..], depth + Step(s[0]), cur + [s[0]])
          == [Trim(cur + [s[0]] + s[1..][..k - 1])] + SplitFrom(s[1..][k..], 0, "")
    ensures SplitFrom(s, depth, cur) == [Trim(cur + s[..k])] + SplitFrom(s[k + 1..], 0, "")
  {
    CopiesOne(s, depth, cur);
    OneMoved(s, cur, k);
  }

  lemma {:induction false} UncutFrom(s: string, depth: int, cur: string)
    requires NoCommaBefore(s, depth, |s|)
    ensures SplitFrom(s, depth, cur) == if Trim(cur + s) == "" then [] else [Trim(cur + s)]
    decreases |s|
  {
    if s == "" {
      assert cur + s == cur;
    } else {
      NoCommaLater(s, depth, |s| - 1);
      UncutFrom(s[1..], depth + Step(s[0]), cur + [s[0]]);
      assert cur + [s[0]] + s[1..] == cur + s;
    }
  }

  /**
   * An argument list is cut at its first comma outside all brackets and again behind it; the
   * last piece is dropped when it is blank, and the others are kept even when they are.
   */
  lemma {:induction false} CutsAtCommas(s: string, k: nat)
    ensures CommaAt(s, 0, k) && NoCommaBefore(s, 0, k) ==>
              k < |s| && SplitFrom(s, 0, "") == [Trim(s[..k])] + SplitFrom(s[k + 1..], 0, "")
    ensures NoCommaBefore(s, 0, |s|) ==> SplitFrom(s, 0, "") == if Trim(s) == "" then [] else [Trim(s)]
  {
    if CommaAt(s, 0, k) && NoCommaBefore(s, 0, k) {
      CutFrom(s, 0, "", k);
      assert "" + s[..k] == s[..k];
    }
    if NoCommaBefore(s, 0, |s|) {
      UncutFrom(s, 0, "");
      assert "" + s == s;
    }
  }
}
