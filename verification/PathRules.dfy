/**
 `os.path.normpath` by rules: what joining one more component to a path does to its normal
 form. With the roots they determine the normal form of every path.
 */
module PathRules {
  import opened FsPaths
  import opened Text

  /** `os.path.join` of a component without slashes. */
  function JoinTo(s: string, part: string): string {
    if s != "" && s[|s| - 1] == '/' then s + part else s + ("/" + part)
  }

  /** The directory above a normal absolute path: up to its last slash, the root above itself. */
  function Above(p: string): string {
    var k := LastSlash(p);
    if k < |Slashes(p)| then Slashes(p) else p[..k]
  }

  /** Where the last slash of the text is; 0 without one. */
  function LastSlash(p: string): (k: nat)
    ensures k <= |p|
  {
    if p == "" then 0 else if p[|p| - 1] == '/' then |p| - 1 else LastSlash(p[..|p| - 1])
  }

  // ---- Splitting off the last component ---------------------------------------------------

  lemma {:induction false} SplitLast(s: string, part: string)
    requires '/' !in part
    ensures Split(s + ("/" + part)) == Split(s) + [part]
    decreases |s|
  {
    var n := Run(s, Other('/'));
    if n == |s| {
      assert '/' !in s;
      SplitName(s, part);
      SplitName(part, "");
    } else {
      var name, rest := s[..n], s[n + 1..];
      assert '/' !in name && s == name + ("/" + rest);
      SplitLast(rest, part);
      SplitFirstName(name, rest, part);
    }
  }

  lemma {:induction false} SplitFirstName(name: string, rest: string, part: string)
    requires '/' !in name && Split(rest + ("/" + part)) == Split(rest) + [part]
    ensures Split(name + ("/" + rest) + ("/" + part)) == Split(name + ("/" + rest)) + [part]
  {
    SplitNameFirst(name, rest, "/" + part);
    SplitName(name, rest);
    assert [name] + (Split(rest) + [part]) == [name] + Split(rest) + [part];
  }

  lemma {:induction false} ComponentsLast(done: seq<string>, parts: seq<string>, part: string, absolute: bool)
    ensures Components(done, parts + [part], absolute) == Component(Components(done, parts, absolute), part, absolute)
    decreases |parts|
  {
    if parts == [] {
      assert [] + [part] == [part] && [part][1..] == [];
    } else {
      assert (parts + [part])[1..] == parts[1..] + [part];
      ComponentsLast(Component(done, parts[0], absolute), parts[1..], part, absolute);
    }
  }

  /** Joining a component adds it to the components of the path, whether or not the path ends in a slash. */
  lemma {:induction false} ComponentsOfJoin(s: string, part: string, absolute: bool)
    requires '/' !in part
    ensures Components([], Split(JoinTo(s, part)), absolute) == Component(Components([], Split(s), absolute), part, absolute)
  {
    if s != "" && s[|s| - 1] == '/' {
      var front := s[..|s| - 1];
      assert s == front + ("/" + "") && s + part == front + ("/" + part);
      SplitLast(front, "");
      SplitLast(front, part);
      ComponentsLast([], Split(front), "", absolute);
      ComponentsLast([], Split(front), part, absolute);
    } else {
      SplitLast(s, part);
      ComponentsLast([], Split(s), part, absolute);
    }
  }

  lemma {:induction false} RootOfJoin(s: string, part: string)
    requires IsAbsolute(s) && '/' !in part
    ensures IsAbsolute(JoinTo(s, part)) && Slashes(JoinTo(s, part)) == Slashes(s)
  {
    var t := JoinTo(s, part);
    assert s[0] == '/' && t[0] == '/' && t[..1] == "/";
    assert |s| > 1 ==> t[1] == s[1];
    assert |s| > 2 ==> t[2] == s[2];
    SlashesBySight(s);
    SlashesBySight(t);
  }

  lemma {:induction false} SlashesBySight(s: string)
    requires IsAbsolute(s)
    ensures Slashes(s) == if |s| > 1 && s[1] == '/' && (|s| == 2 || s[2] != '/') then "//" else "/"
  {
    assert "//" <= s <==> |s| > 1 && s[1] == '/' by {
      assert |s| > 1 ==> s[..2] == [s[0], s[1]];
    }
    assert "///" <= s <==> |s| > 2 && s[1] == '/' && s[2] == '/' by {
      assert |s| > 2 ==> s[..3] == [s[0], s[1], s[2]];
    }
  }

  // ---- Absolute paths -----------------------------------------------------------------------

  lemma {:induction false} AbsoluteParts(s: string)
    requires IsAbsolute(s)
    ensures var parts := Components([], Split(s), true);
            AreNames(parts) && NormPath(s) == Slashes(s) + Join(parts) && (Slashes(s) == "/" || Slashes(s) == "//")
  {
    SplitHasNoSlash(s);
    ComponentsAreNames([], Split(s));
  }

  lemma {:induction false} JoinSnoc(parts: seq<string>, name: string)
    requires parts != []
    ensures Join(parts + [name]) == Join(parts) + ("/" + name)
  {
    JoinConcat(parts, [name]);
  }

  lemma {:induction false} LastOfJoin(parts: seq<string>)
    requires parts != [] && AreNames(parts)
    ensures Join(parts) != "" && Join(parts)[|Join(parts)| - 1] != '/'
  {
    var last := parts[|parts| - 1];
    assert IsName(last) && last[|last| - 1] in last;
    if |parts| > 1 {
      JoinSnoc(parts[..|parts| - 1], last);
      assert parts == parts[..|parts| - 1] + [last];
    }
  }

  /** Joining a name to a normal path. */
  lemma {:induction false} RenderedJoin(root: string, parts: seq<string>, name: string)
    requires (root == "/" || root == "//") && AreNames(parts)
    ensures JoinTo(root + Join(parts), name) == root + Join(parts + [name])
  {
    if parts == [] {
      assert root + "" == root && [] + [name] == [name];
    } else {
      LastOfJoin(parts);
      JoinSnoc(parts, name);
      Reassociate(root, Join(parts), "/" + name);
    }
  }

  lemma {:induction false} LastSlashOf(front: string, name: string)
    requires '/' !in name
    ensures LastSlash(front + ("/" + name)) == |front|
    decreases |name|
  {
    var s := front + ("/" + name);
    if name != "" {
      assert s[|s| - 1] == name[|name| - 1] && name[|name| - 1] in name;
      assert s[..|s| - 1] == front + ("/" + name[..|name| - 1]);
      LastSlashOf(front, name[..|name| - 1]);
    }
  }

  lemma {:induction false} AboveRendered(root: string, parts: seq<string>)
    requires (root == "/" || root == "//") && AreNames(parts)
    ensures Above(root + Join(parts)) == root + Join(if parts == [] then [] else parts[..|parts| - 1])
  {
    JoinStart(parts);
    RootStays(root, Join(parts));
    if parts == [] {
      assert root + "" == root;
    } else {
      var front, last := parts[..|parts| - 1], parts[|parts| - 1];
      assert parts == front + [last] && IsName(last);
      if front == [] {
        assert root + last == root[..|root| - 1] + ("/" + last) && root + "" == root;
        LastSlashOf(root[..|root| - 1], last);
      } else {
        JoinSnoc(front, last);
        Reassociate(root, Join(front), "/" + last);
        LastSlashOf(root + Join(front), last);
      }
    }
  }

  /**
   The rules for absolute paths: a name is appended to the normal form, an empty component or
   `.` changes nothing, and `..` goes to the directory above.
   */
  lemma {:induction false} AbsoluteRules(s: string, part: string)
    requires IsAbsolute(s) && '/' !in part
    ensures NormPath(JoinTo(s, part)) == if part == "" || part == "." then NormPath(s)
                                         else if part == ".." then Above(NormPath(s))
                                         else JoinTo(NormPath(s), part)
  {
    var parts := Components([], Split(s), true);
    AbsoluteParts(s);
    RootOfJoin(s, part);
    ComponentsOfJoin(s, part, true);
    AbsoluteParts(JoinTo(s, part));
    if part == ".." {
      AboveRendered(Slashes(s), parts);
      assert parts != [] ==> IsName(parts[|parts| - 1]);
    } else if part != "" && part != "." {
      RenderedJoin(Slashes(s), parts, part);
    }
  }

  /** The roots are normal, and any run of slashes but two is the single one. */
  lemma {:induction false} RootRule(n: nat)
    requires n > 0
    ensures NormPath(seq(n, _ => '/')) == if n == 2 then "//" else "/"
    decreases n
  {
    var s: string := seq(n, _ => '/');
    assert s[..1] == "/";
    SlashesBySight(s);
    OnlySlashes(n);
    AbsoluteParts(s);
  }

  lemma {:induction false} OnlySlashes(n: nat)
    ensures Components([], Split(seq(n, _ => '/')), true) == []
  {
    var s: string := seq(n, _ => '/');
    if n == 0 {
      assert s == "" && Split("") == [""];
      assert Components([], [""], true) == Components([], [""][1..], true);
    } else {
      var rest: string := seq(n - 1, _ => '/');
      assert s == "/" + rest;
      OnlySlashes(n - 1);
      SlashSkipped(rest);
    }
  }

  // ---- Relative paths -------------------------------------------------------------------------

  /** The directory above a normal relative path: `..` where there is nothing to drop. */
  function AboveRelative(p: string): string {
    if p == "." then ".."
    else if p == ".." || (|p| > 3 && p[|p| - 3..] == "/..") then p + "/.."
    else if '/' in p then p[..LastSlash(p)]
    else "."
  }

  predicate ArePlain(parts: seq<string>) {
    forall p :: p in parts ==> p != "" && p != "." && '/' !in p
  }

  lemma {:induction false} ComponentsArePlain(done: seq<string>, parts: seq<string>)
    requires ArePlain(done) && forall p :: p in parts ==> '/' !in p
    ensures ArePlain(Components(done, parts, false))
    decreases |parts|
  {
    if parts != [] {
      ComponentIsPlain(done, parts[0]);
      ComponentsArePlain(Component(done, parts[0], false), parts[1..]);
    }
  }

  lemma {:induction false} ComponentIsPlain(done: seq<string>, part: string)
    requires ArePlain(done) && '/' !in part
    ensures ArePlain(Component(done, part, false))
  {
    forall p | p in Component(done, part, false) ensures p in done || p == part {
    }
  }

  lemma {:induction false} RelativeParts(s: string)
    requires !IsAbsolute(s)
    ensures var parts := Components([], Split(s), false);
            ArePlain(parts) && NormPath(s) == if parts == [] then "." else Join(parts)
  {
    SplitHasNoSlash(s);
    ComponentsArePlain([], Split(s));
    var parts := Components([], Split(s), false);
    assert "" + Join(parts) == Join(parts);
    if parts != [] {
      assert parts[0] in parts;
    }
  }

  lemma {:induction false} JoinedIsNoDot(parts: seq<string>)
    requires parts != [] && ArePlain(parts)
    ensures Join(parts) != "." && Join(parts) != ""
  {
    assert parts[0] in parts;
  }

  /** The last component of a joined path, read off the text. */
  lemma {:induction false} EndsInDots(parts: seq<string>)
    requires parts != [] && ArePlain(parts)
    ensures var p := Join(parts);
            (parts[|parts| - 1] == ".." <==> p == ".." || (|p| > 3 && p[|p| - 3..] == "/.."))
            && ('/' in p <==> |parts| > 1) && (|parts| > 1 ==> p[..LastSlash(p)] == Join(parts[..|parts| - 1]))
  {
    var p, front, last := Join(parts), parts[..|parts| - 1], parts[|parts| - 1];
    assert parts == front + [last] && last in parts;
    if front == [] {
      assert p == last;
      assert |p| > 3 ==> p[|p| - 3] in p && p[|p| - 3..][0] == p[|p| - 3];
    } else {
      JoinSnoc(front, last);
      LastSlashOf(Join(front), last);
      assert front[0] in parts;
      EndsAs(Join(front), last);
    }
  }

  lemma {:induction false} EndsAs(front: string, last: string)
    requires front != "" && '/' !in last
    ensures var p := front + ("/" + last); p != ".." && '/' in p && p[..|front|] == front
    ensures var p := front + ("/" + last); last == ".." <==> |p| > 3 && p[|p| - 3..] == "/.."
  {
    var p := front + ("/" + last);
    assert p[|front|] == '/';
    if last == ".." {
      assert p[|p| - 3..] == "/..";
    }
    assert |last| > 2 ==> last[|last| - 3] in last && p[|p| - 3] == last[|last| - 3];
    assert |p| > 3 ==> p[|p| - 3..] == [p[|p| - 3], p[|p| - 2], p[|p| - 1]];
    assert |last| == 2 ==> last == [p[|p| - 2], p[|p| - 1]];
    assert |last| < 2 ==> p[|p| - 1] == '/' || p[|p| - 2] == '/';
  }

  /** The rules for relative paths: `..` drops a name, and piles up where there is none. */
  lemma {:induction false} RelativeRules(s: string, part: string)
    requires s != "" && !IsAbsolute(s) && '/' !in part
    ensures NormPath(JoinTo(s, part)) == if part == "" || part == "." then NormPath(s)
                                         else if part == ".." then AboveRelative(NormPath(s))
                                         else if NormPath(s) == "." then part
                                         else NormPath(s) + ("/" + part)
  {
    var parts := Components([], Split(s), false);
    RelativeParts(s);
    assert JoinTo(s, part)[0] == s[0];
    RelativeParts(JoinTo(s, part));
    ComponentsOfJoin(s, part, false);
    RelativeStep(parts, part);
  }

  /** The rendering of a relative path. */
  function Shown(parts: seq<string>): string {
    if parts == [] then "." else Join(parts)
  }

  lemma {:induction false} RelativeStep(parts: seq<string>, part: string)
    requires ArePlain(parts) && '/' !in part
    ensures Shown(Component(parts, part, false)) == if part == "" || part == "." then Shown(parts)
                                                    else if part == ".." then AboveRelative(Shown(parts))
                                                    else if Shown(parts) == "." then part
                                                    else Shown(parts) + ("/" + part)
  {
    if parts == [] {
      assert [] + [part] == [part];
    } else {
      JoinedIsNoDot(parts);
      EndsInDots(parts);
      JoinSnoc(parts, part);
    }
  }

  /** One component alone: itself, or `.` for nothing. */
  lemma {:induction false} FirstRule(part: string)
    requires '/' !in part
    ensures NormPath(part) == if part == "" || part == "." then "." else part
  {
    SplitName(part, "");
    assert part != "" ==> part[0] in part;
    RelativeParts(part);
    assert [part][1..] == [] && [] + [part] == [part];
    assert Components([], [part], false) == Component([], part, false);
  }
}
