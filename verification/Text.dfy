/** Python string helpers: ASCII character classes, longest runs, and `str.strip`. */
module Text {
  predicate IsSpace(c: char) {
    '\t' <= c <= '\r' || 28 as char <= c <= ' '
  }

  /** Blanks are the tab to the carriage return, the four separators, and the space. */
  lemma {:induction false} SpaceIff(c: char)
    ensures IsSpace(c) <==> c as int in {9, 10, 11, 12, 13, 28, 29, 30, 31, 32}
  {
  }

  predicate IsDigit(c: char) {
    '0' <= c <= '9'
  }

  predicate IsAlpha(c: char) {
    'a' <= c <= 'z' || 'A' <= c <= 'Z'
  }

  predicate IsQuote(c: char) {
    c == '"' || c == '\''
  }

  function Other(q: char): char -> bool {
    c => c != q
  }

  /** The length of the longest prefix of `s` whose characters all satisfy `p`. */
  function Run(s: string, p: char -> bool): (n: nat)
    ensures n <= |s|
    ensures forall k :: 0 <= k < n ==> p(s[k])
    ensures n < |s| ==> !p(s[n])
  {
    if s == "" || !p(s[0]) then 0 else 1 + Run(s[1..], p)
  }

  /** The end of `s` once its longest suffix of characters satisfying `p` is dropped. */
  function End(s: string, p: char -> bool): (n: nat)
    ensures n <= |s|
    ensures forall k :: n <= k < |s| ==> p(s[k])
    ensures n > 0 ==> !p(s[n - 1])
  {
    if s == "" || !p(s[|s| - 1]) then |s| else End(s[..|s| - 1], p)
  }

  /** `str.strip` for the characters satisfying `p`. */
  function Strip(s: string, p: char -> bool): string {
    var a, b := Run(s, p), End(s, p);
    if a < b then s[a..b] else ""
  }

  /** `str.strip()`. */
  function Trim(s: string): (t: string)
    ensures |t| <= |s|
  {
    Strip(s, IsSpace)
  }

  /** Neither end of `s` satisfies `p`: stripping would change nothing. */
  predicate Bare(s: string, p: char -> bool) {
    s != "" ==> !p(s[0]) && !p(s[|s| - 1])
  }

  lemma {:induction false} RunIs(s: string, p: char -> bool, n: nat)
    requires n <= |s| && (n < |s| ==> !p(s[n]))
    requires forall k :: 0 <= k < n ==> p(s[k])
    ensures Run(s, p) == n
  {
  }

  lemma {:induction false} EndIs(s: string, p: char -> bool, n: nat)
    requires n <= |s| && (n > 0 ==> !p(s[n - 1]))
    requires forall k :: n <= k < |s| ==> p(s[k])
    ensures End(s, p) == n
  {
  }

  lemma {:induction false} StripIsBare(s: string, p: char -> bool)
    ensures Bare(Strip(s, p), p)
    ensures Bare(s, p) ==> Strip(s, p) == s
  {
  }

  lemma {:induction false} StripWrapped(q: char, s: string, p: char -> bool)
    requires p(q) && Bare(s, p)
    ensures Strip([q] + s + [q], p) == s
  {
    var t := [q] + s + [q];
    if s == "" {
      RunIs(t, p, 2);
    } else {
      RunIs(t, p, 1);
      EndIs(t, p, |t| - 1);
    }
  }

  lemma {:induction false} Reassociate(a: string, b: string, c: string)
    ensures a + b + c == a + (b + c)
  {
  }
}
