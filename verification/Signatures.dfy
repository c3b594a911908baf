/**
 * Function signatures as text (project/indexer/model.py:2584-2630, 2784-2803, 2882-2922): the
 * depth-aware splitter, the search for the argument list, and the parsers that undo printing.
 */
module Signatures {
  import opened Options
  import opened Text

  datatype Signature = Signature(ret: Option<string>, params: Option<seq<string>>)

  datatype ParseError = NoArgumentList | NoFunctionName

  datatype Parsed<T> = Ok(value: T) | Err(error: ParseError)

  /** How a character changes the bracket depth. */
  function Step(c: char): int {
    if c in "<([" then 1 else if c in ">)]" then -1 else 0
  }

  // ---- Splitting at top-level commas ---------------------------------------------------

  function SplitFrom(s: string, depth: int, cur: string): seq<string> {
    if s == "" then if Trim(cur) != "" then [Trim(cur)] else []
    else if s[0] == ',' && depth == 0 then [Trim(cur)] + SplitFrom(s[1..], 0, "")
    else SplitFrom(s[1..], depth + Step(s[0]), cur + [s[0]])
  }

  method SplitTopLevel(text: string) returns (out: seq<string>)
    ensures out == SplitFrom(text, 0, "")
  {
    out := [];
    var depth, buf := 0, "";
    for i := 0 to |text|
      invariant out + SplitFrom(text[i..], depth, buf) == SplitFrom(text, 0, "")
    {
      assert text[i..][1..] == text[i + 1..];
      var ch := text[i];
      if ch in "<([" {
        depth := depth + 1;
      } else if ch in ">)]" {
        depth := depth - 1;
      }
      if ch == ',' && depth == 0 {
        out := out + [Trim(buf)];
        buf := "";
      } else {
        buf := buf + [ch];
      }
    }
    var tail := Trim(buf);
    if tail != "" {
      out := out + [tail];
    }
  }

  // ---- Finding the argument list --------------------------------------------------------

  function Paren(c: char): int {
    if c == '(' then 1 else if c == ')' then -1 else 0
  }

  /** The first `(` at depth 0 and its `)`, in `s` read from depth `depth`, before any `(` was taken. */
  function FindList(s: string, depth: int): Option<(nat, nat)> {
    if s == "" then None
    else if s[0] == '(' && depth == 0 then
      var end := FindClose(s[1..], 1);
      if end.None? then None else Some((0, end.value + 1))
    else
      var rest := FindList(s[1..], depth + Paren(s[0]));
      if rest.None? then None else Some((rest.value.0 + 1, rest.value.1 + 1))
  }

  /** The first `)` that brings the depth back to 0. */
  function FindClose(s: string, depth: int): Option<nat> {
    if s == "" then None
    else if s[0] == ')' && depth == 1 then Some(0)
    else
      var rest := FindClose(s[1..], depth + Paren(s[0]));
      if rest.None? then None else Some(rest.value + 1)
  }

  lemma {:induction false} ListIsInside(s: string, depth: int)
    requires FindList(s, depth).Some?
    ensures var r := FindList(s, depth).value; r.0 < r.1 < |s|
  {
    if s[0] == '(' && depth == 0 {
      CloseIsInside(s[1..], 1);
    } else {
      ListIsInside(s[1..], depth + Paren(s[0]));
    }
  }

  lemma {:induction false} CloseIsInside(s: string, depth: int)
    requires FindClose(s, depth).Some?
    ensures FindClose(s, depth).value < |s|
  {
    if !(s[0] == ')' && depth == 1) {
      CloseIsInside(s[1..], depth + Paren(s[0]));
    }
  }

  function Shift(r: Option<(nat, nat)>, n: nat): Option<(nat, nat)> {
    if r.None? then None else Some((r.value.0 + n, r.value.1 + n))
  }

  /** What the loop will return once `start` is where it is. */
  function Outcome(s: string, i: nat, depth: int, start: Option<nat>): Option<(nat, nat)>
    requires i <= |s|
  {
    if start.None? then Shift(FindList(s[i..], depth), i)
    else
      var end := FindClose(s[i..], depth);
      if end.None? then None else Some((start.value, end.value + i))
  }

  lemma {:induction false} OutcomeStep(s: string, i: nat, depth: int, start: Option<nat>)
    requires i < |s|
    ensures Outcome(s, i, depth, start)
         == if start.Some? && s[i] == ')' && depth == 1 then Some((start.value, i))
            else
              var taken := if start.None? && s[i] == '(' && depth == 0 then Some(i) else start;
              Outcome(s, i + 1, depth + Paren(s[i]), taken)
  {
    assert s[i..][1..] == s[i + 1..];
  }

  /** The loop that looks for the argument list. */
  method FindArguments(sig: string) returns (found: Option<(nat, nat)>)
    ensures found == FindList(sig, 0)
  {
    var depth := 0;
    var start: Option<nat> := None;
    assert sig[0..] == sig;
    for i := 0 to |sig|
      invariant Outcome(sig, i, depth, start) == FindList(sig, 0)
    {
      OutcomeStep(sig, i, depth, start);
      if sig[i] == '(' {
        if depth == 0 && start.None? {
          start := Some(i);
        }
        depth := depth + 1;
      } else if sig[i] == ')' {
        depth := depth - 1;
        if depth == 0 && start.Some? {
          return Some((start.value, i));
        }
      }
    }
    return None;
  }

  function Parameters(list: string): seq<string> {
    var inside := Trim(list);
    if inside == "" || inside == "void" then [] else SplitFrom(inside, 0, "")
  }

  /** `_parse_signature`: the text before the argument list and the arguments. */
  function ParseSignature(sig: string): (Option<string>, Option<seq<string>>) {
    var found := FindList(sig, 0);
    if sig == "" then (None, None)
    else if found.None? then (Some(Trim(sig)), None)
    else
      ListIsInside(sig, 0);
      var (start, end) := found.value;
      (Some(Trim(sig[..start])), Some(Parameters(sig[start + 1..end])))
  }

  // ---- The last top-level blank ----------------------------------------------------------

  function LastTopSpace(s: string, depth: int): (k: Option<nat>)
    ensures k.Some? ==> k.value < |s|
  {
    if s == "" then None
    else
      var rest := LastTopSpace(s[1..], depth + Step(s[0]));
      if rest.Some? then Some(rest.value + 1)
      else if IsSpace(s[0]) && depth == 0 then Some(0) else None
  }

  method FindSplit(head: string) returns (splitAt: Option<nat>)
    ensures splitAt == LastTopSpace(head, 0)
  {
    splitAt := None;
    var depth := 0;
    assert head[0..] == head;
    for i := 0 to |head|
      invariant LastTopSpace(head, 0)
             == var rest := LastTopSpace(head[i..], depth); if rest.Some? then Some(rest.value + i) else splitAt
    {
      assert head[i..][1..] == head[i + 1..];
      if head[i] in "<([" {
        depth := depth + 1;
      } else if head[i] in ">)]" {
        depth := depth - 1;
      } else if IsSpace(head[i]) && depth == 0 {
        splitAt := Some(i);
      }
    }
  }

  /** `_split_ret_and_name`. */
  function SplitRetAndName(text: string): (Option<string>, string) {
    var head := Trim(text);
    var k := LastTopSpace(head, 0);
    if k.None? then (None, head)
    else
      var ret := Trim(head[..k.value]);
      (if ret == "" then None else Some(ret), Trim(head[k.value + 1..]))
  }

  // ---- The parsers -------------------------------------------------------------------------

  function ParseFull(sig: string): Parsed<(Signature, string)> {
    var (head, params) := ParseSignature(sig);
    if params.None? || head.None? then Err(NoArgumentList)
    else
      var (ret, name) := SplitRetAndName(head.value);
      if name == "" then Err(NoFunctionName) else Ok((Signature(ret, params), name))
  }

  function ParseRetParams(sig: string): Parsed<Signature> {
    var (ret, params) := ParseSignature(sig);
    if params.None? then Err(NoArgumentList)
    else Ok(Signature(if ret == Some("") then None else ret, params))
  }

  // ---- Printing ----------------------------------------------------------------------------

  function Join(args: seq<string>): string {
    if args == [] then "" else if |args| == 1 then args[0] else args[0] + (", " + Join(args[1..]))
  }

  function Listed(args: seq<string>): string {
    "(" + (Join(args) + ")")
  }

  /** `RET NAME(A, B)`, or `NAME(A, B)` without a return type. */
  function Print(ret: Option<string>, name: string, args: seq<string>): string {
    (if ret.None? then name else ret.value + " " + name) + Listed(args)
  }

  // ---- What prints back --------------------------------------------------------------------

  function Net(s: string): int {
    if s == "" then 0 else Step(s[0]) + Net(s[1..])
  }

  /** No comma of `s` is at top level when `s` is read from depth `depth`. */
  predicate CommasInside(s: string, depth: int) {
    s == "" || ((s[0] == ',' ==> depth != 0) && CommasInside(s[1..], depth + Step(s[0])))
  }

  /** The parentheses of `s` nest, `open` of them being open before it. */
  predicate Nested(s: string, open: nat) {
    if s == "" then open == 0
    else if s[0] == '(' then Nested(s[1..], open + 1)
    else if s[0] == ')' then open > 0 && Nested(s[1..], open - 1)
    else Nested(s[1..], open)
  }

  predicate HasNoParens(s: string) {
    '(' !in s && ')' !in s
  }

  /** A trimmed argument whose brackets balance and whose commas are inside them. */
  predicate IsArgument(a: string) {
    a != "" && Bare(a, IsSpace) && CommasInside(a, 0) && Net(a) == 0 && Nested(a, 0)
  }

  predicate AreArguments(args: seq<string>) {
    forall a :: a in args ==> IsArgument(a)
  }

  /** A trimmed type whose brackets balance. */
  predicate IsReturnType(s: string) {
    s != "" && Bare(s, IsSpace) && Nested(s, 0) && Net(s) == 0
  }

  /** A trimmed name whose parentheses nest. */
  predicate IsName(s: string) {
    s != "" && Bare(s, IsSpace) && Nested(s, 0)
  }

  /** No blank of the name stands outside brackets, as it does in `operator new`. */
  predicate IsOneWord(name: string) {
    LastTopSpace(name, 0).None?
  }

  // ---- The splitter inverts joining --------------------------------------------------------

  lemma {:induction false} CopyArgument(a: string, rest: string, depth: int, cur: string)
    requires CommasInside(a, depth)
    ensures SplitFrom(a + rest, depth, cur) == SplitFrom(rest, depth + Net(a), cur + a)
    decreases |a|
  {
    if a == "" {
      assert a + rest == rest && cur + a == cur;
    } else {
      assert (a + rest)[1..] == a[1..] + rest;
      CopyArgument(a[1..], rest, depth + Step(a[0]), cur + [a[0]]);
      assert cur + [a[0]] + a[1..] == cur + a;
    }
  }

  lemma {:induction false} TrimLead(a: string, cur: string)
    requires a != "" && Bare(a, IsSpace) && (cur == "" || cur == " ")
    ensures Trim(cur + a) == a
  {
    if cur == "" {
      assert cur + a == a;
      StripIsBare(a, IsSpace);
    } else {
      RunIs(cur + a, IsSpace, 1);
      EndIs(cur + a, IsSpace, |a| + 1);
    }
  }

  lemma {:induction false} SplitAtComma(rest: string, cur: string)
    ensures SplitFrom(", " + rest, 0, cur) == [Trim(cur)] + SplitFrom(rest, 0, " ")
  {
    assert (", " + rest)[1..] == " " + rest;
    SkipBlank(rest);
  }

  lemma {:induction false} SkipBlank(rest: string)
    ensures SplitFrom(" " + rest, 0, "") == SplitFrom(rest, 0, " ")
  {
    assert (" " + rest)[1..] == rest && "" + [' '] == " ";
  }

  lemma {:induction false} SplitOne(a: string, cur: string)
    requires IsArgument(a) && (cur == "" || cur == " ")
    ensures SplitFrom(a, 0, cur) == [a]
  {
    CopyArgument(a, "", 0, cur);
    TrimLead(a, cur);
    assert a + "" == a;
  }

  lemma {:induction false} SplitFirst(a: string, rest: string, cur: string)
    requires IsArgument(a) && (cur == "" || cur == " ")
    ensures SplitFrom(a + (", " + rest), 0, cur) == [a] + SplitFrom(rest, 0, " ")
  {
    CopyArgument(a, ", " + rest, 0, cur);
    SplitAtComma(rest, cur + a);
    TrimLead(a, cur);
  }

  lemma {:induction false} SplitJoinedFrom(args: seq<string>, cur: string)
    requires args != [] && AreArguments(args) && (cur == "" || cur == " ")
    ensures SplitFrom(Join(args), 0, cur) == args
  {
    var a, more := args[0], args[1..];
    assert IsArgument(a) && args == [a] + more;
    if more == [] {
      SplitOne(a, cur);
    } else {
      SplitFirst(a, Join(more), cur);
      SplitJoinedFrom(more, " ");
    }
  }

  /** Splitting at top-level commas undoes joining with `, `. */
  lemma {:induction false} SplitInvertsJoin(args: seq<string>)
    requires AreArguments(args)
    ensures SplitFrom(Join(args), 0, "") == args
  {
    if args != [] {
      SplitJoinedFrom(args, "");
    } else {
      StripIsBare("", IsSpace);
    }
  }

  // ---- The argument list is found ----------------------------------------------------------

  lemma {:induction false} NestedAppend(a: string, b: string, open: nat)
    requires Nested(a, open) && Nested(b, 0)
    ensures Nested(a + b, open)
    decreases |a|
  {
    if a == "" {
      assert a + b == b;
    } else {
      assert (a + b)[1..] == a[1..] + b;
      NestedAppend(a[1..], b, if a[0] == '(' then open + 1 else if a[0] == ')' then open - 1 else open);
    }
  }

  lemma {:induction false} JoinNests(args: seq<string>)
    requires AreArguments(args)
    ensures Nested(Join(args), 0)
  {
    if args != [] {
      assert IsArgument(args[0]);
      if |args| > 1 {
        JoinNests(args[1..]);
        assert (", " + Join(args[1..]))[1..][1..] == Join(args[1..]);
        NestedAppend(args[0], ", " + Join(args[1..]), 0);
      }
    }
  }

  lemma {:induction false} CloseFound(inside: string, tail: string, open: nat)
    requires Nested(inside, open)
    ensures FindClose(inside + (")" + tail), open + 1) == Some(|inside|)
    decreases |inside|
  {
    var s := inside + (")" + tail);
    if inside == "" {
      assert s[0] == ')';
    } else {
      assert s[1..] == inside[1..] + (")" + tail);
      CloseFound(inside[1..], tail, if inside[0] == '(' then open + 1 else if inside[0] == ')' then open - 1 else open);
    }
  }

  lemma {:induction false} ListFound(head: string, inside: string, tail: string)
    requires HasNoParens(head) && Nested(inside, 0)
    ensures FindList(head + ("(" + (inside + (")" + tail))), 0) == Some((|head|, |head| + 1 + |inside|))
    decreases |head|
  {
    var list := "(" + (inside + (")" + tail));
    if head == "" {
      assert head + list == list && list[1..] == inside + (")" + tail);
      CloseFound(inside, tail, 0);
    } else {
      assert (head + list)[1..] == head[1..] + list;
      ListFound(head[1..], inside, tail);
    }
  }

  lemma {:induction false} JoinIsBare(args: seq<string>)
    requires args != [] && AreArguments(args)
    ensures Join(args) != "" && Bare(Join(args), IsSpace)
  {
    assert IsArgument(args[0]);
    if |args| > 1 {
      JoinIsBare(args[1..]);
    }
  }

  lemma {:induction false} JoinIsVoidIff(args: seq<string>)
    requires AreArguments(args)
    ensures (Join(args) == "void" <==> args == ["void"]) && (Join(args) == "" <==> args == [])
  {
    if args != [] {
      JoinIsBare(args);
      if |args| > 1 {
        assert Join(args)[|args[0]|] == ',';
      } else {
        assert [args[0]] == args;
      }
    }
  }

  /** The parameters a printed list is read as: `void` alone means none. */
  function Read(args: seq<string>): seq<string> {
    if args == ["void"] then [] else args
  }

  lemma {:induction false} InsideBack(args: seq<string>)
    requires AreArguments(args)
    ensures Parameters(Join(args)) == Read(args)
  {
    JoinIsVoidIff(args);
    SplitInvertsJoin(args);
    if args != [] {
      JoinIsBare(args);
    }
    StripIsBare(Join(args), IsSpace);
  }

  lemma {:induction false} Slices(head: string, inside: string, tail: string)
    ensures (head + ("(" + (inside + tail)))[..|head|] == head
    ensures (head + ("(" + (inside + tail)))[|head| + 1..|head| + 1 + |inside|] == inside
  {
  }

  lemma {:induction false} ParseAt(sig: string, start: nat, end: nat)
    requires FindList(sig, 0) == Some((start, end)) && start < end < |sig|
    ensures ParseSignature(sig) == (Some(Trim(sig[..start])), Some(Parameters(sig[start + 1..end])))
  {
  }

  /** The first list after a head without parentheses is the one that is read. */
  lemma {:induction false} SignatureBack(head: string, args: seq<string>, tail: string)
    requires HasNoParens(head) && AreArguments(args)
    ensures ParseSignature(head + ("(" + (Join(args) + (")" + tail)))) == (Some(Trim(head)), Some(Read(args)))
  {
    var inside := Join(args);
    var sig := head + ("(" + (inside + (")" + tail)));
    JoinNests(args);
    ListFound(head, inside, tail);
    ParseAt(sig, |head|, |head| + 1 + |inside|);
    Slices(head, inside, ")" + tail);
    InsideBack(args);
  }

  // ---- The name is found -------------------------------------------------------------------

  lemma {:induction false} SpaceFound(ret: string, name: string, depth: int)
    requires depth + Net(ret) == 0 && LastTopSpace(name, 0).None?
    ensures LastTopSpace(ret + (" " + name), depth) == Some(|ret|)
    decreases |ret|
  {
    var s := ret + (" " + name);
    if ret == "" {
      assert s[1..] == name;
    } else {
      assert s[1..] == ret[1..] + (" " + name);
      SpaceFound(ret[1..], name, depth + Step(ret[0]));
    }
  }

  lemma {:induction false} HeadBack(ret: string, name: string)
    requires IsReturnType(ret) && IsName(name) && IsOneWord(name)
    ensures SplitRetAndName(ret + " " + name) == (Some(ret), name)
  {
    var head := ret + " " + name;
    assert head == ret + (" " + name);
    StripIsBare(head, IsSpace);
    SpaceFound(ret, name, 0);
    assert head[..|ret|] == ret && head[|ret| + 1..] == name;
    StripIsBare(ret, IsSpace);
    StripIsBare(name, IsSpace);
  }

  function Head(ret: Option<string>, name: string): string {
    if ret.None? then name else ret.value + " " + name
  }

  lemma {:induction false} FullBack(ret: Option<string>, name: string, args: seq<string>, tail: string)
    requires (ret.Some? ==> IsReturnType(ret.value)) && IsName(name) && IsOneWord(name)
    requires AreArguments(args) && HasNoParens(Head(ret, name))
    ensures ParseFull(Head(ret, name) + ("(" + (Join(args) + (")" + tail)))) == Ok((Signature(ret, Some(Read(args))), name))
  {
    var head := Head(ret, name);
    SignatureBack(head, args, tail);
    StripIsBare(head, IsSpace);
    if ret.Some? {
      HeadBack(ret.value, name);
    }
  }

  // ---- A name or return type with parentheses of its own --------------------------------------

  lemma {:induction false} NoParensUnlessOpen(s: string)
    requires Nested(s, 0) && '(' !in s
    ensures HasNoParens(s)
    decreases |s|
  {
    if s != "" {
      NoParensUnlessOpen(s[1..]);
      assert s == [s[0]] + s[1..];
    }
  }

  /** The list that is read starts at the first parenthesis of a head that has one. */
  lemma {:induction false} ListStartsInHead(head: string, list: string)
    requires Nested(head, 0) && '(' in head && FindList(head + list, 0).Some?
    ensures var start := FindList(head + list, 0).value.0; start < |head| && '(' !in (head + list)[..start]
    decreases |head|
  {
    var s := head + list;
    if head[0] != '(' {
      assert s[1..] == head[1..] + list;
      ListStartsInHead(head[1..], list);
      var start := FindList(s, 0).value.0;
      assert s[..start] == [s[0]] + s[1..][..start - 1];
    }
  }

  lemma {:induction false} SplitKeepsOut(text: string, c: char)
    requires c !in text
    ensures var (ret, name) := SplitRetAndName(text); (ret.Some? ==> c !in ret.value) && c !in name
  {
    var head := Trim(text);
    SliceKeepsOut(text, Run(text, IsSpace), End(text, IsSpace), c);
    var k := LastTopSpace(head, 0);
    if k.Some? {
      var left, right := head[..k.value], head[k.value + 1..];
      SliceKeepsOut(head, 0, k.value, c);
      SliceKeepsOut(head, k.value + 1, |head|, c);
      SliceKeepsOut(left, Run(left, IsSpace), End(left, IsSpace), c);
      SliceKeepsOut(right, Run(right, IsSpace), End(right, IsSpace), c);
    }
  }

  lemma {:induction false} SliceKeepsOut(text: string, i: nat, j: nat, c: char)
    requires c !in text && j <= |text|
    ensures i < j ==> c !in text[i..j]
    ensures i == 0 ==> c !in text[..j]
    ensures i <= j && j == |text| ==> c !in text[i..]
  {
  }

  lemma {:induction false} HeadParenIsLost(head: string, list: string)
    requires Nested(head, 0) && '(' in head
    ensures var sig := ParseSignature(head + list);
            sig.1.Some? ==> sig.0.Some? && '(' !in sig.0.value
  {
    if FindList(head + list, 0).Some? {
      ListStartsInHead(head, list);
    }
  }

  /** Whatever follows, a name or return type with parentheses is not read back. */
  lemma {:induction false} ParenthesesAreMisread(ret: Option<string>, name: string, list: string, sig: Signature)
    requires (ret.Some? ==> IsReturnType(ret.value)) && IsName(name) && !HasNoParens(Head(ret, name)) && sig.ret == ret
    ensures ParseFull(Head(ret, name) + list) != Ok((sig, name))
  {
    var head := Head(ret, name);
    HeadNests(ret, name);
    if '(' !in head {
      NoParensUnlessOpen(head);
    }
    HeadParenIsLost(head, list);
    var (parsed, params) := ParseSignature(head + list);
    if params.Some? {
      SplitKeepsOut(parsed.value, '(');
    }
  }

  lemma {:induction false} HeadNests(ret: Option<string>, name: string)
    requires (ret.Some? ==> IsReturnType(ret.value)) && IsName(name)
    ensures Nested(Head(ret, name), 0)
  {
    if ret.Some? {
      assert (" " + name)[1..] == name;
      NestedAppend(ret.value, " " + name, 0);
      assert ret.value + (" " + name) == ret.value + " " + name;
    }
  }

  // ---- A name with a blank of its own -------------------------------------------------------------

  lemma {:induction false} SpaceInName(ret: string, name: string, depth: int)
    requires depth + Net(ret) == 0 && LastTopSpace(name, 0).Some?
    ensures LastTopSpace(ret + (" " + name), depth) == Some(|ret| + 1 + LastTopSpace(name, 0).value)
    decreases |ret|
  {
    var s := ret + (" " + name);
    if ret == "" {
      assert s[1..] == name;
    } else {
      assert s[1..] == ret[1..] + (" " + name);
      SpaceInName(ret[1..], name, depth + Step(ret[0]));
    }
  }

  /** The part of the name after its last blank outside brackets is all that is read as the name. */
  lemma {:induction false} NameIsCut(ret: Option<string>, name: string)
    requires (ret.Some? ==> IsReturnType(ret.value)) && IsName(name) && !IsOneWord(name)
    ensures SplitRetAndName(Head(ret, name)).1 != name
  {
    var head, k := Head(ret, name), LastTopSpace(name, 0).value;
    HeadIsBare(ret, name);
    if ret.Some? {
      SpaceInName(ret.value, name, 0);
      Reassociate(ret.value, " ", name);
    }
    CutAt(head, |head| - |name| + k, name);
  }

  lemma {:induction false} HeadIsBare(ret: Option<string>, name: string)
    requires (ret.Some? ==> IsReturnType(ret.value)) && IsName(name)
    ensures Trim(Head(ret, name)) == Head(ret, name)
  {
    StripIsBare(Head(ret, name), IsSpace);
  }

  lemma {:induction false} CutAt(head: string, cut: nat, name: string)
    requires Trim(head) == head && LastTopSpace(head, 0) == Some(cut) && |head| - cut <= |name|
    ensures SplitRetAndName(head).1 != name
  {
  }

  lemma {:induction false} BlankIsMisread(ret: Option<string>, name: string, args: seq<string>)
    requires (ret.Some? ==> IsReturnType(ret.value)) && IsName(name) && !IsOneWord(name)
    requires AreArguments(args) && HasNoParens(Head(ret, name))
    ensures ParseFull(Print(ret, name, args)) != Ok((Signature(ret, Some(args)), name))
  {
    var head := Head(ret, name);
    SignatureBack(head, args, "");
    assert ")" + "" == ")";
    StripIsBare(head, IsSpace);
    NameIsCut(ret, name);
  }

  // ---- The round trips ---------------------------------------------------------------------------

  lemma {:induction false} HeadHasNoParensIff(ret: Option<string>, name: string)
    ensures HasNoParens(Head(ret, name)) <==> (ret.Some? ==> HasNoParens(ret.value)) && HasNoParens(name)
  {
  }

  /**
   A printed signature parses back to itself exactly when its name is one word, neither its
   name nor its return type has parentheses and its arguments are not the one word `void`.
   */
  lemma {:induction false} FullRoundTripIff(ret: Option<string>, name: string, args: seq<string>)
    requires (ret.Some? ==> IsReturnType(ret.value)) && IsName(name) && AreArguments(args)
    ensures ParseFull(Print(ret, name, args)) == Ok((Signature(ret, Some(args)), name))
       <==> (ret.Some? ==> HasNoParens(ret.value)) && HasNoParens(name) && IsOneWord(name) && args != ["void"]
  {
    HeadHasNoParensIff(ret, name);
    if HasNoParens(Head(ret, name)) && !IsOneWord(name) {
      BlankIsMisread(ret, name, args);
    } else if HasNoParens(Head(ret, name)) {
      FullBack(ret, name, args, "");
      assert ")" + "" == ")";
    } else {
      ParenthesesAreMisread(ret, name, Listed(args), Signature(ret, Some(args)));
    }
  }

  /** Without a name, a return type and arguments come back under the same condition. */
  lemma {:induction false} RetParamsRoundTripIff(ret: Option<string>, args: seq<string>)
    requires ret.Some? ==> ret.value != "" && Bare(ret.value, IsSpace) && Nested(ret.value, 0)
    requires AreArguments(args)
    ensures ParseRetParams((if ret.None? then "" else ret.value) + Listed(args)) == Ok(Signature(ret, Some(args)))
       <==> (ret.Some? ==> HasNoParens(ret.value)) && args != ["void"]
  {
    var head := if ret.None? then "" else ret.value;
    if HasNoParens(head) {
      SignatureBack(head, args, "");
      StripIsBare(head, IsSpace);
      assert ")" + "" == ")";
    } else {
      if '(' !in head {
        NoParensUnlessOpen(head);
      }
      HeadParenIsLost(head, Listed(args));
    }
  }

  /** A call operator's own parentheses are taken for the argument list, whatever the arguments are. */
  lemma {:induction false} CallOperatorIsMisread(ret: Option<string>, name: string, args: seq<string>)
    requires (ret.Some? ==> IsReturnType(ret.value)) && IsName(name) && IsOneWord(name) && HasNoParens(Head(ret, name))
    ensures ParseFull(Print(ret, name + "()", args)) == Ok((Signature(ret, Some([])), name))
  {
    FullBack(ret, name, [], Listed(args));
    OperatorText(Head(ret, name), Listed(args));
    if ret.Some? {
      Reassociate(ret.value + " ", name, "()");
    }
  }

  lemma {:induction false} OperatorText(head: string, list: string)
    ensures head + "()" + list == head + ("(" + ("" + (")" + list)))
  {
    assert "()" + list == "(" + ("" + (")" + list));
    Reassociate(head, "()", list);
  }

}
