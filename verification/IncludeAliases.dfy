/**
 * Include-path aliasing: absolute directories written as `<label>` tokens and read back
 * (project/indexer/compiledb.py:302-425, project/indexer/pathx.py:28-30, 97-167).
 */
module IncludeAliases {
  import opened FsPaths
  import opened Options
  import opened Text
  import PathRules

  // ---- Rewriting the include values of an option list --------------------------------------

  const INCLUDE_FLAGS: seq<string> := ["-I", "-isystem", "-iquote"]

  /** The include flag a token is or starts with. */
  function FlagOf(tok: string): (flag: Option<string>)
    ensures flag.Some? ==> flag.value in INCLUDE_FLAGS && flag.value <= tok
  {
    if "-I" <= tok then Some("-I")
    else if "-isystem" <= tok then Some("-isystem")
    else if "-iquote" <= tok then Some("-iquote")
    else None
  }

  /** The flags are three, and a token has at most one of them. */
  lemma {:induction false} FlagIff(tok: string, flag: string)
    ensures FlagOf(tok) == Some(flag) <==> (flag == "-I" || flag == "-isystem" || flag == "-iquote") && flag <= tok
  {
    if "-I" <= tok {
      assert tok[1] == "-I"[1];
    }
    if "-isystem" <= tok {
      assert tok[1] == "-isystem"[1] && tok[2] == "-isystem"[2];
    }
    if "-iquote" <= tok {
      assert tok[1] == "-iquote"[1] && tok[2] == "-iquote"[2];
    }
  }

  /** `_map_include_values`: a flag alone takes the next token, or "" at the end of the list. */
  function MapInclude(options: seq<string>, fn: string -> string): seq<string> {
    if options == [] then []
    else
      var tok, flag := options[0], FlagOf(options[0]);
      if flag.None? then [tok] + MapInclude(options[1..], fn)
      else if tok == flag.value then
        if |options| == 1 then [tok, fn("")] else [tok, fn(options[1])] + MapInclude(options[2..], fn)
      else [flag.value + fn(tok[|flag.value|..])] + MapInclude(options[1..], fn)
  }

  /** What the token at `i` adds to the output. */
  function Added(options: seq<string>, i: nat, fn: string -> string): seq<string>
    requires i < |options|
  {
    var tok, flag := options[i], FlagOf(options[i]);
    if flag.None? then [tok]
    else if tok == flag.value then [tok, fn(if i + 1 < |options| then options[i + 1] else "")]
    else [flag.value + fn(tok[|flag.value|..])]
  }

  /** Where the iterator is after the token at `i`. */
  function After(options: seq<string>, i: nat): (j: nat)
    requires i < |options|
    ensures i < j <= |options|
  {
    if FlagOf(options[i]) == Some(options[i]) && i + 1 < |options| then i + 2 else i + 1
  }

  function Written(out: seq<string>, options: seq<string>, i: nat, fn: string -> string): seq<string>
    requires i <= |options|
  {
    out + MapInclude(options[i..], fn)
  }

  lemma {:induction false} MapTurn(out: seq<string>, options: seq<string>, i: nat, fn: string -> string)
    requires i < |options|
    ensures Written(out, options, i, fn) == Written(out + Added(options, i, fn), options, After(options, i), fn)
  {
    var j := After(options, i);
    assert options[i..][j - i..] == options[j..];
    assert MapInclude(options[i..], fn) == Added(options, i, fn) + MapInclude(options[j..], fn) by {
      if FlagOf(options[i]) == Some(options[i]) && i + 1 == |options| {
        assert [options[i], fn("")] + [] == [options[i], fn("")];
      }
    }
  }

  method MapIncludeValues(options: seq<string>, fn: string -> string) returns (out: seq<string>)
    ensures out == MapInclude(options, fn)
  {
    out := [];
    var i := 0;
    ghost var whole := MapInclude(options, fn);
    assert options[0..] == options && [] + whole == whole;
    while i < |options|
      invariant i <= |options|
      invariant Written(out, options, i, fn) == whole
    {
      MapTurn(out, options, i, fn);
      var tok := options[i];
      var flag := FlagOf(tok);
      i := i + 1;
      if flag.None? {
        out := out + [tok];
      } else if tok == flag.value {
        out := out + [tok, fn(if i < |options| then options[i] else "")];
        i := if i < |options| then i + 1 else i;
      } else {
        out := out + [flag.value + fn(tok[|flag.value|..])];
      }
    }
    assert out + [] == out;
  }

  predicate IsFlag(flag: string) {
    flag == "-I" || flag == "-isystem" || flag == "-iquote"
  }

  /** What becomes of a flag with the token after it, of a flag at the end, of a flag with its value glued on, and of any other token. */
  lemma {:induction false} MapIncludeTokens(flag: string, v: string, tok: string, fn: string -> string)
    requires IsFlag(flag) && forall f :: IsFlag(f) ==> !(f <= tok)
    ensures MapInclude([flag, v], fn) == [flag, fn(v)]
    ensures MapInclude([flag], fn) == [flag, fn("")]
    ensures v != "" ==> MapInclude([flag + v], fn) == [flag + fn(v)]
    ensures MapInclude([tok], fn) == [tok]
  {
    FlagIff(flag, flag);
    MapSpaced(flag, v, [], fn);
    assert [flag, v] + [] == [flag, v] && [flag, fn(v)] + [] == [flag, fn(v)];
    if v != "" {
      FlagOfGlued(flag, v);
      MapGlued(flag, v, [], fn);
      assert [flag + v] + [] == [flag + v] && [flag + fn(v)] + [] == [flag + fn(v)];
    }
    NoFlag(tok);
    MapPlain(tok, [], fn);
    assert [tok] + [] == [tok];
  }

  lemma {:induction false} NoFlag(tok: string)
    requires forall f :: IsFlag(f) ==> !(f <= tok)
    ensures FlagOf(tok).None?
  {
    assert IsFlag("-I") && IsFlag("-isystem") && IsFlag("-iquote");
  }

  /** A list whose front does not end in a flag that waits for its value is rewritten piece by piece. */
  lemma {:induction false} MapIncludeSplits(front: seq<string>, back: seq<string>, fn: string -> string)
    requires !Dangling(front)
    ensures MapInclude(front + back, fn) == MapInclude(front, fn) + MapInclude(back, fn)
    decreases |front|
  {
    if front == [] {
      assert front + back == back && [] + MapInclude(back, fn) == MapInclude(back, fn);
    } else {
      var rest := front[After(front, 0)..];
      SameTurn(front, back, fn);
      TurnAtFront(front, fn);
      TurnAtFront(front + back, fn);
      MapIncludeSplits(rest, back, fn);
      Regrouped(Added(front, 0, fn), MapInclude(rest, fn), MapInclude(back, fn));
    }
  }

  lemma {:induction false} Regrouped(a: seq<string>, b: seq<string>, c: seq<string>)
    ensures a + (b + c) == a + b + c
  {
  }

  lemma {:induction false} SameTurn(front: seq<string>, back: seq<string>, fn: string -> string)
    requires front != [] && !Dangling(front)
    ensures After(front + back, 0) == After(front, 0) && Added(front + back, 0, fn) == Added(front, 0, fn)
    ensures (front + back)[After(front, 0)..] == front[After(front, 0)..] + back && !Dangling(front[After(front, 0)..])
  {
  }

  lemma {:induction false} TurnAtFront(options: seq<string>, fn: string -> string)
    requires options != []
    ensures MapInclude(options, fn) == Added(options, 0, fn) + MapInclude(options[After(options, 0)..], fn)
  {
    MapTurn([], options, 0, fn);
    var added, rest := Added(options, 0, fn), MapInclude(options[After(options, 0)..], fn);
    assert options[0..] == options && [] + MapInclude(options, fn) == MapInclude(options, fn) && [] + added + rest == added + rest;
  }

  /** The include values of a list, in order; a flag at the end has the value "". */
  function IncludeValues(options: seq<string>): seq<string> {
    if options == [] then []
    else
      var tok, flag := options[0], FlagOf(options[0]);
      if flag.None? then IncludeValues(options[1..])
      else if tok == flag.value then
        if |options| == 1 then [""] else [options[1]] + IncludeValues(options[2..])
      else [tok[|flag.value|..]] + IncludeValues(options[1..])
  }

  /** The list ends in an include flag that waits for its value. */
  predicate Dangling(options: seq<string>) {
    if options == [] then false
    else
      var tok, flag := options[0], FlagOf(options[0]);
      if flag.Some? && tok == flag.value then |options| == 1 || Dangling(options[2..]) else Dangling(options[1..])
  }

  /** No value becomes empty, so a glued flag stays glued. */
  ghost predicate KeepsValues(fn: string -> string) {
    forall v :: v != "" ==> fn(v) != ""
  }

  function Compose(g: string -> string, f: string -> string): string -> string {
    v => g(f(v))
  }

  lemma {:induction false} FlagOfGlued(flag: string, v: string)
    requires flag in INCLUDE_FLAGS && v != ""
    ensures FlagOf(flag + v) == Some(flag) && flag + v != flag && (flag + v)[|flag|..] == v
  {
    var tok := flag + v;
    assert flag <= tok;
    if flag != "-I" {
      assert tok[1] == 'i' && "-I"[1] == 'I';
    }
    if flag == "-iquote" {
      assert tok[2] == 'q' && "-isystem"[2] == 's';
    }
  }

  /** Rewriting twice is rewriting once by both, as long as no value is rewritten to nothing. */
  lemma {:induction false} MapIncludeComposes(options: seq<string>, f: string -> string, g: string -> string)
    requires KeepsValues(f)
    ensures MapInclude(MapInclude(options, f), g) == MapInclude(options, Compose(g, f))
  {
    if options != [] {
      var tok, flag := options[0], FlagOf(options[0]);
      if flag.None? {
        MapIncludeComposes(options[1..], f, g);
        MapPlain(tok, MapInclude(options[1..], f), g);
      } else if tok == flag.value {
        if |options| > 1 {
          MapIncludeComposes(options[2..], f, g);
          MapSpaced(tok, f(options[1]), MapInclude(options[2..], f), g);
        }
      } else {
        MapIncludeComposes(options[1..], f, g);
        var v := tok[|flag.value|..];
        FlagOfGlued(flag.value, f(v));
        MapGlued(flag.value, f(v), MapInclude(options[1..], f), g);
      }
    }
  }

  lemma {:induction false} MapPlain(tok: string, rest: seq<string>, g: string -> string)
    requires FlagOf(tok).None?
    ensures MapInclude([tok] + rest, g) == [tok] + MapInclude(rest, g)
  {
    assert ([tok] + rest)[1..] == rest;
  }

  lemma {:induction false} MapSpaced(tok: string, v: string, rest: seq<string>, g: string -> string)
    requires FlagOf(tok) == Some(tok)
    ensures MapInclude([tok, v] + rest, g) == [tok, g(v)] + MapInclude(rest, g)
  {
    assert ([tok, v] + rest)[2..] == rest;
  }

  lemma {:induction false} MapGlued(flag: string, v: string, rest: seq<string>, g: string -> string)
    requires FlagOf(flag + v) == Some(flag) && v != ""
    ensures MapInclude([flag + v] + rest, g) == [flag + g(v)] + MapInclude(rest, g)
  {
    assert ([flag + v] + rest)[1..] == rest && (flag + v)[|flag|..] == v;
  }

  /** Only what a rewriting does to the list's own values counts. */
  lemma {:induction false} MapIncludeAgrees(options: seq<string>, f: string -> string, g: string -> string)
    requires forall v :: v in IncludeValues(options) ==> f(v) == g(v)
    ensures MapInclude(options, f) == MapInclude(options, g)
  {
    if options != [] {
      var tok, flag := options[0], FlagOf(options[0]);
      if flag.None? {
        MapIncludeAgrees(options[1..], f, g);
      } else if tok == flag.value {
        if |options| == 1 {
          assert "" in IncludeValues(options);
        } else {
          assert options[1] in IncludeValues(options);
          MapIncludeAgrees(options[2..], f, g);
        }
      } else {
        assert tok[|flag.value|..] in IncludeValues(options);
        MapIncludeAgrees(options[1..], f, g);
      }
    }
  }

  function Same(v: string): string {
    v
  }

  /** Rewriting nothing changes nothing exactly when no flag is left without a value. */
  lemma {:induction false} MapIncludeIdentityIff(options: seq<string>)
    ensures MapInclude(options, Same) == options <==> !Dangling(options)
    ensures Dangling(options) ==> MapInclude(options, Same) == options + [""]
  {
    if options != [] {
      var tok, flag := options[0], FlagOf(options[0]);
      if flag.Some? && tok == flag.value {
        if |options| == 1 {
          assert options == [tok] && MapInclude(options, Same) == [tok, ""];
        } else {
          MapIncludeIdentityIff(options[2..]);
          assert options == [tok, options[1]] + options[2..];
        }
      } else {
        MapIncludeIdentityIff(options[1..]);
        assert options == [tok] + options[1..];
        assert flag.Some? ==> flag.value + tok[|flag.value|..] == tok;
      }
    }
  }

  // ---- Matching a directory ----------------------------------------------------------------

  /** A row of the label map: a label, the directory it stands for, and whether a version may follow. */
  datatype Entry = Entry(name: string, dir: string, versioned: bool)

  /** What a match leaves: the label, the version segment taken out, and the rest of the path. */
  datatype Match = Match(name: string, version: Option<string>, rest: string)

  predicate Fields(s: string) {
    var n := Run(s, IsDigit);
    n > 0 && (n == |s| || (s[n] in "._-" && Fields(s[n + 1..])))
  }

  /** `^v?[0-9]+([._-][0-9]+)*$`, whose `$` also matches before a final newline. */
  predicate IsVersionSegment(s: string) {
    var body := if "v" <= s then s[1..] else s;
    Fields(body) || (body != "" && body[|body| - 1] == '\n' && Fields(body[..|body| - 1]))
  }

  predicate IsSeparator(c: char) {
    c == '.' || c == '_' || c == '-'
  }

  /** Digits with single separators between them. */
  predicate IsDotted(s: string) {
    && s != "" && '0' <= s[0] <= '9' && '0' <= s[|s| - 1] <= '9'
    && (forall k :: 0 <= k < |s| ==> '0' <= s[k] <= '9' || IsSeparator(s[k]))
    && forall k :: 0 <= k < |s| - 1 && IsSeparator(s[k]) ==> !IsSeparator(s[k + 1])
  }

  lemma {:induction false} FieldsIff(s: string)
    ensures Fields(s) <==> IsDotted(s)
    decreases |s|
  {
    var n := Run(s, IsDigit);
    if 0 < n < |s| && IsSeparator(s[n]) {
      var rest := s[n + 1..];
      FieldsIff(rest);
      DottedRest(s, n);
    } else if n == |s| && n > 0 {
      assert IsDigit(s[0]) && IsDigit(s[|s| - 1]);
    }
  }

  /** After the first digits and a separator the rest must be dotted again. */
  lemma {:induction false} DottedRest(s: string, n: nat)
    requires 0 < n < |s| && IsSeparator(s[n]) && forall k :: 0 <= k < n ==> IsDigit(s[k])
    ensures IsDotted(s) <==> IsDotted(s[n + 1..])
  {
    var rest := s[n + 1..];
    assert forall k :: 0 <= k < |rest| ==> rest[k] == s[n + 1 + k];
    if IsDotted(rest) {
      forall k | 0 <= k < |s| ensures '0' <= s[k] <= '9' || IsSeparator(s[k]) {
        if k > n {
          assert s[k] == rest[k - n - 1];
        }
      }
      forall k | 0 <= k < |s| - 1 && IsSeparator(s[k]) ensures !IsSeparator(s[k + 1]) {
        if k > n {
          assert s[k] == rest[k - n - 1] && s[k + 1] == rest[k - n];
        }
      }
    }
  }

  /** A version is digits with single dots, underscores or dashes between them, perhaps behind a `v` and before one newline. */
  lemma {:induction false} VersionIff(s: string)
    ensures IsVersionSegment(s) <==>
              || IsDotted(s)
              || (|s| > 1 && s[0] == 'v' && IsDotted(s[1..]))
              || (|s| > 1 && s[|s| - 1] == '\n' && IsDotted(s[..|s| - 1]))
              || (|s| > 2 && s[0] == 'v' && s[|s| - 1] == '\n' && IsDotted(s[1..|s| - 1]))
  {
    var body := if "v" <= s then s[1..] else s;
    FieldsIff(body);
    if body != "" {
      FieldsIff(body[..|body| - 1]);
    }
    if s != "" && s[0] == 'v' {
      assert s[..1] == "v" && (|s| > 1 ==> body[..|body| - 1] == s[1..|s| - 1]);
    }
  }

  /** The first directory name below the base of a versioned label is taken out exactly when it is a version. */
  lemma {:induction false} VersionTakenIff(e: Entry, val: string, version: string, rest: string)
    requires Contains(e, val) && version != "" && '/' !in version && (rest == "" || rest[0] == '/')
    requires val == e.dir + ("/" + version + rest)
    ensures MatchOf(e, val) == if e.versioned && IsVersionSegment(version) then Match(e.name, Some(version), rest)
                               else Match(e.name, None, "/" + version + rest)
  {
    var below := "/" + version + rest;
    assert val[|e.dir|..] == below && below[1..] == version + rest;
    RunIs(below[1..], Other('/'), |version|);
    assert below[1..1 + |version|] == version && below[1 + |version|..] == rest;
  }

  /** Without such a name nothing is taken out. */
  lemma {:induction false} NothingTaken(e: Entry, val: string)
    requires Contains(e, val) && (val == e.dir || val == e.dir + "/" || "//" <= val[|e.dir|..])
    ensures MatchOf(e, val) == Match(e.name, None, val[|e.dir|..])
  {
    var below := val[|e.dir|..];
    if "//" <= below {
      assert below[1] == '/' && below[1..][0] == '/';
    }
  }

  predicate Contains(e: Entry, val: string) {
    val == e.dir || e.dir + "/" <= val
  }

  function FirstMatch(labels: seq<Entry>, val: string): (e: Option<Entry>)
    ensures e.Some? ==> Contains(e.value, val)
  {
    if labels == [] then None
    else if Contains(labels[0], val) then Some(labels[0])
    else FirstMatch(labels[1..], val)
  }

  function MatchOf(e: Entry, val: string): Match
    requires Contains(e, val)
  {
    var rest := val[|e.dir|..];
    var head := if rest == "" then "" else rest[1..1 + Run(rest[1..], Other('/'))];
    if e.versioned && "/" <= rest && head != "" && IsVersionSegment(head) then
      Match(e.name, Some(head), rest[1 + |head|..])
    else Match(e.name, None, rest)
  }

  /** `match_alias`: the first entry that contains the path. */
  method MatchAlias(val: string, labels: seq<Entry>) returns (m: Option<Match>)
    ensures var e := FirstMatch(labels, val); m == if e.None? then None else Some(MatchOf(e.value, val))
  {
    for i := 0 to |labels|
      invariant FirstMatch(labels[i..], val) == FirstMatch(labels, val)
    {
      assert labels[i..][1..] == labels[i + 1..];
      if val == labels[i].dir || labels[i].dir + "/" <= val {
        return Some(MatchOf(labels[i], val));
      }
    }
    return None;
  }

  /** Lexicographic order on labels. */
  predicate NameLe(a: string, b: string) {
    a == "" || (b != "" && (a[0] < b[0] || (a[0] == b[0] && NameLe(a[1..], b[1..]))))
  }

  /** The sort key of `build_label_map`: longest directory first, then by label. */
  predicate Before(a: Entry, b: Entry) {
    |a.dir| > |b.dir| || (|a.dir| == |b.dir| && NameLe(a.name, b.name))
  }

  predicate MostSpecificFirst(labels: seq<Entry>) {
    forall i, j :: 0 <= i < j < |labels| ==> Before(labels[i], labels[j])
  }

  // ---- Building the label map --------------------------------------------------------------

  /** A registered label: its name, the path stored for it, and whether a version may follow. */
  datatype Label = Label(name: string, stored: string, versioned: bool)

  /** `resolve` stands for the lookup of the stored path as an absolute directory. */
  function Resolved(labels: seq<Label>, resolve: string -> string): seq<Entry> {
    if labels == [] then []
    else
      var last := labels[|labels| - 1];
      Resolved(labels[..|labels| - 1], resolve) + [Entry(last.name, resolve(last.stored), last.versioned)]
  }

  /** Into a sorted list, before the first entry not strictly ahead of it: equals keep their order. */
  function InsertEntry(e: Entry, es: seq<Entry>): seq<Entry> {
    if es == [] || Before(e, es[0]) then [e] + es else [es[0]] + InsertEntry(e, es[1..])
  }

  function SortEntries(es: seq<Entry>): seq<Entry> {
    if es == [] then [] else InsertEntry(es[0], SortEntries(es[1..]))
  }

  method BuildLabelMap(labels: seq<Label>, resolve: string -> string) returns (out: seq<Entry>)
    ensures out == SortEntries(Resolved(labels, resolve))
  {
    out := [];
    for i := 0 to |labels|
      invariant out == Resolved(labels[..i], resolve)
    {
      assert labels[..i + 1][..i] == labels[..i];
      out := out + [Entry(labels[i].name, resolve(labels[i].stored), labels[i].versioned)];
    }
    assert labels[..|labels|] == labels;
    out := SortEntries(out);
  }

  /** The texts agree up to position k, and there a has the smaller character. */
  predicate SmallerAt(a: string, b: string, k: nat) {
    k < |a| && k < |b| && a[..k] == b[..k] && a[k] < b[k]
  }

  /** Labels are ordered as in a dictionary. */
  lemma {:induction false} NameLeIff(a: string, b: string)
    ensures NameLe(a, b) <==> a <= b || exists k: nat :: SmallerAt(a, b, k)
    decreases |a|
  {
    if a != "" && b != "" {
      if a[0] == b[0] {
        NameLeIff(a[1..], b[1..]);
        SmallerLater(a, b);
        assert a <= b <==> a[1..] <= b[1..];
      } else {
        assert SmallerAt(a, b, 0) <==> a[0] < b[0];
        assert forall k: nat :: k > 0 && SmallerAt(a, b, k) ==> a[..k][0] == b[..k][0];
      }
    }
  }

  lemma {:induction false} SmallerLater(a: string, b: string)
    requires a != "" && b != "" && a[0] == b[0]
    ensures (exists k: nat :: SmallerAt(a, b, k)) <==> exists k: nat :: SmallerAt(a[1..], b[1..], k)
  {
    var s, t := a[1..], b[1..];
    forall k: nat ensures SmallerAt(s, t, k) ==> SmallerAt(a, b, k + 1) {
      if SmallerAt(s, t, k) {
        assert a[..k + 1] == [a[0]] + s[..k] && b[..k + 1] == [b[0]] + t[..k];
      }
    }
    forall k: nat | k > 0 ensures SmallerAt(a, b, k) ==> SmallerAt(s, t, k - 1) {
      if SmallerAt(a, b, k) {
        assert s[..k - 1] == a[..k][1..] && t[..k - 1] == b[..k][1..];
      }
    }
    if exists k: nat :: SmallerAt(a, b, k) {
      var k: nat :| SmallerAt(a, b, k);
      assert k > 0 && SmallerAt(s, t, k - 1);
    }
    if exists k: nat :: SmallerAt(s, t, k) {
      var k: nat :| SmallerAt(s, t, k);
      assert SmallerAt(a, b, k + 1);
    }
  }

  lemma {:induction false} NameLeTotal(a: string, b: string)
    ensures NameLe(a, b) || NameLe(b, a)
    decreases |a|
  {
    if a != "" && b != "" {
      NameLeTotal(a[1..], b[1..]);
    }
  }

  lemma {:induction false} NameLeTransitive(a: string, b: string, c: string)
    requires NameLe(a, b) && NameLe(b, c)
    ensures NameLe(a, c)
    decreases |a|
  {
    if a != "" && a[0] == b[0] && b[0] == c[0] {
      NameLeTransitive(a[1..], b[1..], c[1..]);
    }
  }

  lemma {:induction false} BeforeIsOrder(a: Entry, b: Entry, c: Entry)
    ensures Before(a, b) || Before(b, a)
    ensures Before(a, b) && Before(b, c) ==> Before(a, c)
  {
    NameLeTotal(a.name, b.name);
    if NameLe(a.name, b.name) && NameLe(b.name, c.name) {
      NameLeTransitive(a.name, b.name, c.name);
    }
  }

  lemma {:induction false} InsertKeepsOrder(e: Entry, es: seq<Entry>)
    requires MostSpecificFirst(es)
    ensures MostSpecificFirst(InsertEntry(e, es)) && multiset(InsertEntry(e, es)) == multiset{e} + multiset(es)
    decreases |es|
  {
    if es != [] && !Before(e, es[0]) {
      InsertKeepsOrder(e, es[1..]);
      BeforeIsOrder(e, es[0], e);
      PutBehind(e, es, InsertEntry(e, es[1..]));
    } else {
      PutInFront(e, es);
    }
  }

  lemma {:induction false} PutInFront(e: Entry, es: seq<Entry>)
    requires MostSpecificFirst(es) && (es != [] ==> Before(e, es[0]))
    ensures MostSpecificFirst([e] + es)
  {
    forall j | 0 <= j < |es| ensures Before(e, es[j]) {
      BeforeIsOrder(e, es[0], es[j]);
    }
  }

  lemma {:induction false} PutBehind(e: Entry, es: seq<Entry>, more: seq<Entry>)
    requires es != [] && MostSpecificFirst(es) && Before(es[0], e)
    requires MostSpecificFirst(more) && multiset(more) == multiset{e} + multiset(es[1..])
    ensures MostSpecificFirst([es[0]] + more) && multiset([es[0]] + more) == multiset{e} + multiset(es)
  {
    assert es == [es[0]] + es[1..];
    forall j | 0 <= j < |more| ensures Before(es[0], more[j]) {
      assert more[j] in multiset(more);
      if more[j] != e {
        var k :| 0 <= k < |es[1..]| && es[1..][k] == more[j];
        assert more[j] == es[k + 1];
      }
    }
  }

  /** The label map is sorted as the matcher expects, and holds every label once. */
  lemma {:induction false} LabelMapIsSorted(es: seq<Entry>)
    ensures MostSpecificFirst(SortEntries(es)) && multiset(SortEntries(es)) == multiset(es)
    decreases |es|
  {
    if es != [] {
      LabelMapIsSorted(es[1..]);
      InsertKeepsOrder(es[0], SortEntries(es[1..]));
      assert es == [es[0]] + es[1..];
    }
  }

  lemma {:induction false} ResolvedHolds(labels: seq<Label>, resolve: string -> string, l: Label)
    requires l in labels
    ensures Entry(l.name, resolve(l.stored), l.versioned) in Resolved(labels, resolve)
    decreases |labels|
  {
    if l != labels[|labels| - 1] {
      assert labels == labels[..|labels| - 1] + [labels[|labels| - 1]];
      ResolvedHolds(labels[..|labels| - 1], resolve, l);
    }
  }

  /**
   * Whatever the labels and the order they are registered in: a path inside the directory of
   * some label is matched by a label of a longest such directory, the first one by name.
   */
  lemma {:induction false} LongestLabelMatches(labels: seq<Label>, resolve: string -> string, val: string, l: Label)
    requires l in labels && Contains(Entry(l.name, resolve(l.stored), l.versioned), val)
    ensures var e := FirstMatch(SortEntries(Resolved(labels, resolve)), val);
            && e.Some? && e.value in Resolved(labels, resolve) && |resolve(l.stored)| <= |e.value.dir|
            && (|resolve(l.stored)| == |e.value.dir| ==> resolve(l.stored) == e.value.dir && NameLe(e.value.name, l.name))
  {
    var es, own := Resolved(labels, resolve), Entry(l.name, resolve(l.stored), l.versioned);
    ResolvedHolds(labels, resolve, l);
    LabelMapIsSorted(es);
    assert own in multiset(SortEntries(es));
    MatchIsLongest(SortEntries(es), val, own);
    NameLeTotal(l.name, l.name);
    var e := FirstMatch(SortEntries(es), val).value;
    assert e in multiset(SortEntries(es));
  }

  // ---- The longest match -------------------------------------------------------------------

  /** The matched entry is a longest containing directory, and the first label of that directory. */
  lemma {:induction false} MatchIsLongest(labels: seq<Entry>, val: string, other: Entry)
    requires MostSpecificFirst(labels) && other in labels && Contains(other, val)
    ensures var e := FirstMatch(labels, val);
            && e.Some? && e.value in labels && |other.dir| <= |e.value.dir|
            && (|other.dir| == |e.value.dir| ==> other.dir == e.value.dir)
            && (other == e.value || |other.dir| < |e.value.dir| || NameLe(e.value.name, other.name))
  {
    if !Contains(labels[0], val) {
      MatchIsLongest(labels[1..], val, other);
    } else {
      var j :| 0 <= j < |labels| && labels[j] == other;
      if |labels[0].dir| == |other.dir| {
        SameLengthSameDir(labels[0], other, val);
      }
    }
  }

  lemma {:induction false} SameLengthSameDir(a: Entry, b: Entry, val: string)
    requires Contains(a, val) && Contains(b, val) && |a.dir| == |b.dir|
    ensures a.dir == b.dir
  {
    assert a.dir == val[..|a.dir|] && b.dir == val[..|b.dir|];
  }

  /** Containment is by whole components, except that the root directory contains only itself. */
  lemma {:induction false} ContainsIffPrefix(e: Entry, dir: seq<string>, path: seq<string>)
    requires AreNames(dir) && AreNames(path) && e.dir == Render(dir)
    ensures Contains(e, Render(path)) <==> dir <= path && (dir != [] || path == [])
  {
    StartsWithIffPrefix(dir, path);
  }

  // ---- Encoding --------------------------------------------------------------------------

  predicate Indirected(val: string) {
    '<' in val || '$' in val
  }

  function EncodeWith(labels: seq<Entry>, val: string): string {
    var e := if Indirected(val) || !IsAbsolute(val) then None else FirstMatch(labels, NormPath(val));
    if e.None? then val
    else
      var m := MatchOf(e.value, NormPath(val));
      "<" + (m.name + (">" + m.rest))
  }

  function Encode(labels: seq<Entry>): string -> string {
    val => EncodeWith(labels, val)
  }

  /** `alias_options`. */
  function AliasOptions(options: seq<string>, labels: seq<Entry>): seq<string> {
    MapInclude(options, Encode(labels))
  }

  /** An encoded value is left alone, and so is a value no entry contains: encoding is idempotent. */
  lemma {:induction false} AliasIsIdempotent(options: seq<string>, labels: seq<Entry>)
    ensures AliasOptions(AliasOptions(options, labels), labels) == AliasOptions(options, labels)
  {
    var enc := Encode(labels);
    MapIncludeComposes(options, enc, enc);
    forall v
      ensures Compose(enc, enc)(v) == enc(v)
    {
      if enc(v) != v {
        assert enc(v)[0] == '<';
      }
    }
    MapIncludeAgrees(options, Compose(enc, enc), enc);
  }

  // ---- Decoding --------------------------------------------------------------------------

  function Dashed(name: string): string {
    if name == "" then "" else [if name[0] == '-' then '/' else name[0]] + Dashed(name[1..])
  }

  /** Every dash becomes a slash and nothing else changes. */
  lemma {:induction false} DashedIs(name: string)
    ensures |Dashed(name)| == |name|
    ensures forall k :: 0 <= k < |name| ==> Dashed(name)[k] == if name[k] == '-' then '/' else name[k]
  {
    if name != "" {
      DashedIs(name[1..]);
      assert forall k :: 0 < k < |name| ==> name[k] == name[1..][k - 1];
    }
  }

  predicate NoAngle(c: char) {
    c != '<' && c != '>'
  }

  /** What a placeholder becomes: the registered directory, the derived one, or itself. */
  function Expansion(name: string, lookup: string -> Option<string>, autoderive: bool): string {
    if lookup(name).Some? then lookup(name).value
    else if autoderive && name != "" then "/" + Dashed(name)
    else "<" + name + ">"
  }

  /** `label_expand`: every `<name>` from left to right. */
  function LabelExpand(s: string, lookup: string -> Option<string>, autoderive: bool): string
    decreases |s|
  {
    if s == "" then ""
    else
      var n := Run(s[1..], NoAngle);
      if s[0] == '<' && n + 1 < |s| && s[n + 1] == '>' then
        Expansion(s[1..n + 1], lookup, autoderive) + LabelExpand(s[n + 2..], lookup, autoderive)
      else [s[0]] + LabelExpand(s[1..], lookup, autoderive)
  }

  /** The registry, the expansion of variables and `~`, and the working directory. */
  datatype World = World(lookup: string -> Option<string>, autoderive: bool, env: string -> string, cwd: string)

  /** `os.path.abspath`. */
  function AbsPath(w: World, s: string): string {
    NormPath(JoinPath(w.cwd, s))
  }

  function ResolveFsPath(w: World, stored: string): string {
    NormPath(w.env(LabelExpand(stored, w.lookup, w.autoderive)))
  }

  function DecodeWith(w: World, val: string): string {
    if Indirected(val) || "~" <= val then AbsPath(w, ResolveFsPath(w, val)) else val
  }

  function Decode(w: World): string -> string {
    val => DecodeWith(w, val)
  }

  /** A value with a bracket or a dollar in it, or a tilde in front, becomes an absolute normal path; any other stays. */
  lemma {:induction false} DecodedForm(w: World, val: string)
    requires IsAbsolute(w.cwd)
    ensures if '<' in val || '$' in val || (val != "" && val[0] == '~')
            then IsAbsolute(DecodeWith(w, val)) && NormPath(DecodeWith(w, val)) == DecodeWith(w, val)
            else DecodeWith(w, val) == val
  {
    assert "~" <= val <==> val != "" && val[0] == '~';
    var s := ResolveFsPath(w, val);
    assert IsAbsolute(JoinPath(w.cwd, s));
    NormPathIsNormal(JoinPath(w.cwd, s));
  }

  /** `resolve_options`. */
  function ResolveOptions(options: seq<string>, w: World): seq<string> {
    MapInclude(options, Decode(w))
  }

  /** A relative path is taken from the working directory: a name is looked for in it, `..` is the directory above it. */
  lemma {:induction false} RelativeToHere(w: World, name: string)
    requires IsAbsolute(w.cwd) && IsName(name)
    ensures AbsPath(w, name) == PathRules.JoinTo(NormPath(w.cwd), name)
    ensures AbsPath(w, "..") == PathRules.Above(NormPath(w.cwd)) && AbsPath(w, ".") == NormPath(w.cwd)
  {
    PathRules.AbsoluteRules(w.cwd, name);
    PathRules.AbsoluteRules(w.cwd, "..");
    PathRules.AbsoluteRules(w.cwd, ".");
    assert name[0] in name;
    HereIsJoin(w, name);
    HereIsJoin(w, "..");
    HereIsJoin(w, ".");
  }

  lemma {:induction false} HereIsJoin(w: World, part: string)
    requires IsAbsolute(w.cwd) && '/' !in part && part != ""
    ensures JoinPath(w.cwd, part) == PathRules.JoinTo(w.cwd, part)
  {
    assert part[0] in part;
    assert w.cwd + "/" + part == w.cwd + ("/" + part);
  }

  /** Labels are expanded before variables, so that a variable in a registered directory counts. */
  lemma {:induction false} LabelsBeforeVariables(w: World, name: string, rest: string, dir: string)
    requires '<' !in name && '>' !in name && '<' !in rest && w.lookup(name) == Some(dir)
    ensures ResolveFsPath(w, "<" + (name + (">" + rest))) == NormPath(w.env(dir + rest))
  {
    ExpandOne(name, rest, w.lookup, w.autoderive);
  }

  /** Variables and `~` expand only where they are written. */
  ghost predicate EnvIsPlain(w: World) {
    forall s :: '$' !in s && !("~" <= s) ==> w.env(s) == s
  }

  lemma {:induction false} NothingToExpand(s: string, lookup: string -> Option<string>, autoderive: bool)
    requires '<' !in s
    ensures LabelExpand(s, lookup, autoderive) == s
  {
    if s != "" {
      NothingToExpand(s[1..], lookup, autoderive);
    }
  }

  lemma {:induction false} ExpandOne(name: string, rest: string, lookup: string -> Option<string>, autoderive: bool)
    requires '<' !in name && '>' !in name && '<' !in rest
    ensures LabelExpand("<" + (name + (">" + rest)), lookup, autoderive) == Expansion(name, lookup, autoderive) + rest
  {
    var s := "<" + (name + (">" + rest));
    assert s[1..] == name + (">" + rest);
    RunIs(s[1..], NoAngle, |name|);
    assert s[1..|name| + 1] == name && s[|name| + 2..] == rest;
    NothingToExpand(rest, lookup, autoderive);
  }

  /** A label that is not registered expands to the directory its dashes spell, or stays as it is. */
  lemma {:induction false} UnregisteredLabel(name: string, rest: string, lookup: string -> Option<string>, autoderive: bool)
    requires '<' !in name && '>' !in name && '<' !in rest && lookup(name).None?
    ensures exists text ::
              && LabelExpand("<" + (name + (">" + rest)), lookup, autoderive) == text + rest
              && if autoderive && name != "" then SpellsOut(name, text) else text == "<" + name + ">"
  {
    ExpandOne(name, rest, lookup, autoderive);
    DashedSpells(name);
    var text := Expansion(name, lookup, autoderive);
    assert LabelExpand("<" + (name + (">" + rest)), lookup, autoderive) == text + rest;
  }

  /** A slash and the name, with a slash for every dash. */
  predicate SpellsOut(name: string, text: string) {
    && |text| == |name| + 1 && text[0] == '/'
    && forall k :: 0 <= k < |name| ==> text[k + 1] == if name[k] == '-' then '/' else name[k]
  }

  lemma {:induction false} DashedSpells(name: string)
    ensures SpellsOut(name, "/" + Dashed(name))
  {
    DashedIs(name);
    assert forall k :: 0 <= k < |name| ==> ("/" + Dashed(name))[k + 1] == Dashed(name)[k];
  }

  lemma {:induction false} ExpandStep(c: char, s: string, lookup: string -> Option<string>, autoderive: bool)
    requires c != '<'
    ensures LabelExpand([c] + s, lookup, autoderive) == [c] + LabelExpand(s, lookup, autoderive)
  {
    assert ([c] + s)[1..] == s;
  }

  /** Text without an opening bracket stays. */
  lemma {:induction false} ExpandBehind(before: string, s: string, lookup: string -> Option<string>, autoderive: bool)
    requires '<' !in before
    ensures LabelExpand(before + s, lookup, autoderive) == before + LabelExpand(s, lookup, autoderive)
    decreases |before|
  {
    if before == "" {
      assert before + s == s && before + LabelExpand(s, lookup, autoderive) == LabelExpand(s, lookup, autoderive);
    } else {
      var c, more := before[0], before[1..];
      ExpandBehind(more, s, lookup, autoderive);
      ExpandStep(c, more + s, lookup, autoderive);
      assert before == [c] + more;
      Reassociate([c], more, s);
      Reassociate([c], more, LabelExpand(s, lookup, autoderive));
    }
  }

  /** Placeholders expand one after the other. */
  lemma {:induction false} ExpandFront(name: string, rest: string, lookup: string -> Option<string>, autoderive: bool)
    requires '<' !in name && '>' !in name
    ensures LabelExpand("<" + (name + (">" + rest)), lookup, autoderive)
         == Expansion(name, lookup, autoderive) + LabelExpand(rest, lookup, autoderive)
  {
    var s := "<" + (name + (">" + rest));
    assert s[1..] == name + (">" + rest);
    RunIs(s[1..], NoAngle, |name|);
    assert s[1..|name| + 1] == name && s[|name| + 2..] == rest;
  }

  /** An opening bracket that meets another one, or the end, before a closing one stays as it is. */
  lemma {:induction false} ExpandStray(name: string, rest: string, lookup: string -> Option<string>, autoderive: bool)
    requires '<' !in name && '>' !in name && (rest == "" || rest[0] == '<')
    ensures LabelExpand("<" + (name + rest), lookup, autoderive) == "<" + (name + LabelExpand(rest, lookup, autoderive))
  {
    var s := "<" + (name + rest);
    assert s[1..] == name + rest;
    RunIs(s[1..], NoAngle, |name|);
    assert |name| + 1 < |s| ==> s[|name| + 1] == rest[0];
    ExpandBehind(name, rest, lookup, autoderive);
  }

  // ---- Decoding undoes encoding ----------------------------------------------------------

  /** The directory an entry's label must stand for to give this path back. */
  function Reinjected(e: Entry, val: string): string
    requires Contains(e, val)
  {
    var m := MatchOf(e, val);
    e.dir + if m.version.Some? then "/" + m.version.value else ""
  }

  lemma {:induction false} MatchParts(e: Entry, val: string)
    requires Contains(e, val)
    ensures Reinjected(e, val) + MatchOf(e, val).rest == val
  {
    var rest := val[|e.dir|..];
    var m := MatchOf(e, val);
    assert val == e.dir + rest;
    if m.version.Some? {
      var n := |m.version.value|;
      assert m.version.value == rest[1..1 + n] && m.rest == rest[1 + n..];
      VersionCut(e.dir, rest, n);
    } else {
      assert e.dir + "" == e.dir;
    }
  }

  lemma {:induction false} VersionCut(dir: string, rest: string, n: nat)
    requires "/" <= rest && 1 + n <= |rest|
    ensures dir + ("/" + rest[1..1 + n]) + rest[1 + n..] == dir + rest
  {
    assert "/" + rest[1..1 + n] + rest[1 + n..] == rest;
    Reassociate(dir, "/" + rest[1..1 + n], rest[1 + n..]);
  }

  predicate IsLabel(name: string) {
    '<' !in name && '>' !in name
  }

  lemma {:induction false} EncodedForm(labels: seq<Entry>, val: string)
    requires IsAbsolute(val) && !Indirected(val) && FirstMatch(labels, NormPath(val)).Some?
    ensures var m := MatchOf(FirstMatch(labels, NormPath(val)).value, NormPath(val));
            EncodeWith(labels, val) == "<" + (m.name + (">" + m.rest)) && '<' !in m.rest && '$' !in m.rest
  {
    var e := FirstMatch(labels, NormPath(val)).value;
    NormPathKeepsOut(val, '<');
    NormPathKeepsOut(val, '$');
    MatchParts(e, NormPath(val));
  }

  /** An encoded value decodes to its label's directory followed by the rest, normalised. */
  lemma {:induction false} DecodeEncoded(labels: seq<Entry>, w: World, val: string, dir: string)
    requires IsAbsolute(val) && !Indirected(val) && EnvIsPlain(w) && FirstMatch(labels, NormPath(val)).Some?
    requires var e := FirstMatch(labels, NormPath(val)).value; IsLabel(e.name) && w.lookup(e.name) == Some(dir)
    requires IsAbsolute(dir) && '$' !in dir
    ensures var m := MatchOf(FirstMatch(labels, NormPath(val)).value, NormPath(val));
            DecodeWith(w, EncodeWith(labels, val)) == NormPath(dir + m.rest)
  {
    var m := MatchOf(FirstMatch(labels, NormPath(val)).value, NormPath(val));
    EncodedForm(labels, val);
    ExpandOne(m.name, m.rest, w.lookup, w.autoderive);
    var enc, s := EncodeWith(labels, val), dir + m.rest;
    assert enc[0] == '<' && s[0] == dir[0] && s[..1] == "/";
    NormPathIsNormal(s);
    assert w.env(s) == s;
    assert ResolveFsPath(w, enc) == NormPath(s);
  }

  /** A matched absolute value comes back normalised when its label stands for the re-injected directory. */
  lemma {:induction false} ValueRoundTrip(labels: seq<Entry>, w: World, val: string)
    requires IsAbsolute(val) && !Indirected(val) && EnvIsPlain(w) && FirstMatch(labels, NormPath(val)).Some?
    requires var e := FirstMatch(labels, NormPath(val)).value;
             IsLabel(e.name) && IsAbsolute(e.dir) && w.lookup(e.name) == Some(Reinjected(e, NormPath(val)))
    ensures DecodeWith(w, EncodeWith(labels, val)) == NormPath(val)
  {
    var e := FirstMatch(labels, NormPath(val)).value;
    var dir := Reinjected(e, NormPath(val));
    MatchParts(e, NormPath(val));
    NormPathKeepsOut(val, '$');
    assert dir[..1] == e.dir[..1];
    DecodeEncoded(labels, w, val, dir);
    NormPathIsNormal(val);
  }

  /** And only then, for a label whose directory with the rest of the path is already normal. */
  lemma {:induction false} ValueRoundTripIff(labels: seq<Entry>, w: World, val: string, dir: string)
    requires IsAbsolute(val) && !Indirected(val) && EnvIsPlain(w) && FirstMatch(labels, NormPath(val)).Some?
    requires var e := FirstMatch(labels, NormPath(val)).value; IsLabel(e.name) && w.lookup(e.name) == Some(dir)
    requires var m := MatchOf(FirstMatch(labels, NormPath(val)).value, NormPath(val));
             IsAbsolute(dir) && '$' !in dir && NormPath(dir + m.rest) == dir + m.rest
    ensures DecodeWith(w, EncodeWith(labels, val)) == NormPath(val)
       <==> dir == Reinjected(FirstMatch(labels, NormPath(val)).value, NormPath(val))
  {
    var e := FirstMatch(labels, NormPath(val)).value;
    DecodeEncoded(labels, w, val, dir);
    MatchParts(e, NormPath(val));
    SameFront(dir, Reinjected(e, NormPath(val)), MatchOf(e, NormPath(val)).rest);
  }

  lemma {:induction false} SameFront(a: string, b: string, rest: string)
    ensures a + rest == b + rest <==> a == b
  {
    if a + rest == b + rest {
      assert (a + rest)[..|a|] == a && (b + rest)[..|b|] == b;
    }
  }

  // ---- Whole option lists ------------------------------------------------------------------

  /** What the round trip makes of a value: a matched absolute one is normalised. */
  function Normalised(labels: seq<Entry>): string -> string {
    val => if IsAbsolute(val) && FirstMatch(labels, NormPath(val)).Some? then NormPath(val) else val
  }

  /** A value written plainly, whose label, if it has one, stands for the directory to re-inject. */
  predicate ComesBack(labels: seq<Entry>, w: World, val: string) {
    && !Indirected(val) && !("~" <= val)
    && var e := FirstMatch(labels, NormPath(val));
       IsAbsolute(val) && e.Some? ==>
         && IsLabel(e.value.name) && IsAbsolute(e.value.dir)
         && w.lookup(e.value.name) == Some(Reinjected(e.value, NormPath(val)))
  }

  /** Resolving aliased options gives the options back, matched absolute values normalised. */
  lemma {:induction false} OptionsRoundTrip(options: seq<string>, labels: seq<Entry>, w: World)
    requires EnvIsPlain(w) && forall v :: v in IncludeValues(options) ==> ComesBack(labels, w, v)
    ensures ResolveOptions(AliasOptions(options, labels), w) == MapInclude(options, Normalised(labels))
  {
    var enc, dec, both := Encode(labels), Decode(w), Normalised(labels);
    MapIncludeComposes(options, enc, dec);
    forall v | v in IncludeValues(options)
      ensures Compose(dec, enc)(v) == both(v)
    {
      if IsAbsolute(v) && FirstMatch(labels, NormPath(v)).Some? {
        ValueRoundTrip(labels, w, v);
      }
    }
    MapIncludeAgrees(options, Compose(dec, enc), both);
  }
}
