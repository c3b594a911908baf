/** POSIX paths as text: splitting at slashes, joining, and `os.path.normpath`. */
module FsPaths {
  import opened Text

  function Split(s: string): (parts: seq<string>)
    ensures parts != []
  {
    var n := Run(s, Other('/'));
    if n == |s| then [s] else [s[..n]] + Split(s[n + 1..])
  }

  function Join(parts: seq<string>): string {
    if parts == [] then "" else if |parts| == 1 then parts[0] else parts[0] + ("/" + Join(parts[1..]))
  }

  /** The leading slashes `normpath` keeps: exactly two stay two, one or three and more are one. */
  function Slashes(s: string): string {
    if !("/" <= s) then "" else if "//" <= s && !("///" <= s) then "//" else "/"
  }

  predicate IsAbsolute(s: string) {
    "/" <= s
  }

  /** One path component of `normpath`'s loop. */
  function Component(done: seq<string>, part: string, absolute: bool): seq<string> {
    if part == "" || part == "." then done
    else if part != ".." || (!absolute && done == []) || (done != [] && done[|done| - 1] == "..") then done + [part]
    else if done != [] then done[..|done| - 1]
    else done
  }

  function Components(done: seq<string>, parts: seq<string>, absolute: bool): seq<string>
    decreases |parts|
  {
    if parts == [] then done else Components(Component(done, parts[0], absolute), parts[1..], absolute)
  }

  function NormPath(s: string): string {
    var root := Slashes(s);
    var path := root + Join(Components([], Split(s), root != ""));
    if path == "" then "." else path
  }

  /** `os.path.join` of a directory and a path. */
  function JoinPath(dir: string, path: string): string {
    if IsAbsolute(path) then path
    else if dir == "" || dir[|dir| - 1] == '/' then dir + path
    else dir + "/" + path
  }

  // ---- Normal absolute paths -------------------------------------------------------------

  /** A component that stays: a name without slashes that is no dot directory. */
  predicate IsName(part: string) {
    part != "" && part != "." && part != ".." && '/' !in part
  }

  predicate AreNames(parts: seq<string>) {
    forall p :: p in parts ==> IsName(p)
  }

  lemma {:induction false} SplitHasNoSlash(s: string)
    ensures forall p :: p in Split(s) ==> '/' !in p
  {
    var n := Run(s, Other('/'));
    assert forall k :: 0 <= k < n ==> Other('/')(s[k]);
    if n < |s| {
      SplitHasNoSlash(s[n + 1..]);
    }
  }

  lemma {:induction false} ComponentsAreNames(done: seq<string>, parts: seq<string>)
    requires AreNames(done) && forall p :: p in parts ==> '/' !in p
    ensures AreNames(Components(done, parts, true))
    decreases |parts|
  {
    if parts != [] {
      ComponentIsName(done, parts[0]);
      ComponentsAreNames(Component(done, parts[0], true), parts[1..]);
    }
  }

  lemma {:induction false} ComponentIsName(done: seq<string>, part: string)
    requires AreNames(done) && '/' !in part
    ensures AreNames(Component(done, part, true))
  {
    if done != [] {
      assert IsName(done[|done| - 1]);
    }
  }

  lemma {:induction false} NamesStay(done: seq<string>, parts: seq<string>)
    requires AreNames(parts)
    ensures Components(done, parts, true) == done + parts
    decreases |parts|
  {
    if parts == [] {
      assert done + parts == done;
    } else {
      assert IsName(parts[0]);
      NamesStay(done + [parts[0]], parts[1..]);
      assert done + [parts[0]] + parts[1..] == done + parts;
    }
  }

  lemma {:induction false} SplitName(name: string, rest: string)
    requires '/' !in name
    ensures Split(name) == [name] && Split(name + ("/" + rest)) == [name] + Split(rest)
  {
    RunIs(name, Other('/'), |name|);
    var s := name + ("/" + rest);
    RunIs(s, Other('/'), |name|);
    assert s[..|name|] == name && s[|name| + 1..] == rest;
  }

  lemma {:induction false} SplitJoin(parts: seq<string>)
    requires parts != [] && AreNames(parts)
    ensures Split(Join(parts)) == parts
  {
    var p, more := parts[0], parts[1..];
    assert IsName(p) && parts == [p] + more;
    SplitName(p, Join(more));
    if more != [] {
      SplitJoin(more);
    }
  }

  lemma {:induction false} SplitSlash(s: string)
    ensures Split("/" + s) == [""] + Split(s)
  {
    RunIs("/" + s, Other('/'), 0);
    assert ("/" + s)[..0] == "" && ("/" + s)[1..] == s;
  }

  /** Leading slashes split off empty parts, which `normpath` skips. */
  lemma {:induction false} SlashSkipped(s: string)
    ensures Components([], Split("/" + s), true) == Components([], Split(s), true)
  {
    SplitSlash(s);
    assert ([""] + Split(s))[1..] == Split(s);
  }

  lemma {:induction false} NamesOfJoin(parts: seq<string>)
    requires AreNames(parts)
    ensures Components([], Split(Join(parts)), true) == parts
  {
    if parts == [] {
      RunIs("", Other('/'), 0);
      assert Split("") == [""];
      assert Components([], [""], true) == Components([], [""][1..], true);
    } else {
      SplitJoin(parts);
      NamesStay([], parts);
      assert [] + parts == parts;
    }
  }

  lemma {:induction false} JoinStart(parts: seq<string>)
    requires AreNames(parts)
    ensures !("/" <= Join(parts))
  {
    if parts != [] {
      assert IsName(parts[0]) && parts[0][0] in parts[0];
      assert Join(parts)[0] == parts[0][0];
    }
  }

  /** A path as `normpath` leaves it. */
  lemma {:induction false} RenderedIsNormal(root: string, parts: seq<string>)
    requires (root == "/" || root == "//") && AreNames(parts)
    ensures NormPath(root + Join(parts)) == root + Join(parts)
  {
    var path := Join(parts);
    JoinStart(parts);
    NamesOfJoin(parts);
    SlashSkipped(path);
    if root == "//" {
      SlashSkipped("/" + path);
      assert "//" + path == "/" + ("/" + path);
      RootStays("//", path);
    } else {
      RootStays("/", path);
    }
  }

  lemma {:induction false} RootStays(root: string, path: string)
    requires (root == "/" || root == "//") && !("/" <= path)
    ensures Slashes(root + path) == root
  {
    var s := root + path;
    assert "/" <= s by {
      assert s[..1] == "/";
    }
    if root == "/" {
      if path != "" {
        assert s[1] == path[0] && "//"[1] == '/';
      }
    } else {
      assert s[..2] == "//";
      if path != "" {
        assert s[2] == path[0] && "///"[2] == '/';
      }
    }
  }

  /** `normpath` of an absolute path is absolute and does not change again. */
  lemma {:induction false} NormPathIsNormal(s: string)
    requires IsAbsolute(s)
    ensures IsAbsolute(NormPath(s)) && NormPath(NormPath(s)) == NormPath(s)
  {
    var root := Slashes(s);
    var parts := Components([], Split(s), true);
    SplitHasNoSlash(s);
    ComponentsAreNames([], Split(s));
    RenderedIsNormal(root, parts);
    assert (root + Join(parts))[0] == '/';
  }

  // ---- Characters come from the path ------------------------------------------------------

  lemma {:induction false} SplitKeepsOut(s: string, c: char)
    requires c !in s
    ensures forall p :: p in Split(s) ==> c !in p
  {
    var n := Run(s, Other('/'));
    if n < |s| {
      SplitKeepsOut(s[n + 1..], c);
    }
  }

  lemma {:induction false} ComponentsKeepOut(done: seq<string>, parts: seq<string>, absolute: bool, c: char)
    requires (forall p :: p in done ==> c !in p) && (forall p :: p in parts ==> c !in p)
    ensures forall p :: p in Components(done, parts, absolute) ==> c !in p
    decreases |parts|
  {
    if parts != [] {
      ComponentsKeepOut(Component(done, parts[0], absolute), parts[1..], absolute, c);
    }
  }

  lemma {:induction false} JoinKeepsOut(parts: seq<string>, c: char)
    requires c != '/' && forall p :: p in parts ==> c !in p
    ensures c !in Join(parts)
  {
    if |parts| > 1 {
      JoinKeepsOut(parts[1..], c);
    }
  }

  /** `normpath` invents no character but the slash and the dot. */
  lemma {:induction false} NormPathKeepsOut(s: string, c: char)
    requires c !in s && c != '/' && c != '.'
    ensures c !in NormPath(s)
  {
    SplitKeepsOut(s, c);
    ComponentsKeepOut([], Split(s), Slashes(s) != "", c);
    JoinKeepsOut(Components([], Split(s), Slashes(s) != ""), c);
  }

  // ---- Containment ------------------------------------------------------------------------

  /** A one-slash absolute path from its components. */
  function Render(parts: seq<string>): string {
    "/" + Join(parts)
  }

  lemma {:induction false} JoinInjective(a: seq<string>, b: seq<string>)
    requires AreNames(a) && AreNames(b) && Join(a) == Join(b)
    ensures a == b
  {
    NamesOfJoin(a);
    NamesOfJoin(b);
  }

  lemma {:induction false} JoinConcat(a: seq<string>, b: seq<string>)
    requires a != [] && b != []
    ensures Join(a + b) == Join(a) + ("/" + Join(b))
  {
    if |a| == 1 {
      assert (a + b)[1..] == b;
    } else {
      JoinConcat(a[1..], b);
      assert (a + b)[1..] == a[1..] + b;
      Reassociate(a[0], "/" + Join(a[1..]), "/" + Join(b));
      Reassociate("/", Join(a[1..]), "/" + Join(b));
    }
  }

  lemma {:induction false} Regroup(a: string, b: string, c: string)
    ensures a + ("/" + b) + c == a + ("/" + (b + c))
  {
  }

  lemma {:induction false} SplitNameFirst(name: string, more: string, rest: string)
    requires '/' !in name
    ensures Split(name + ("/" + more) + rest) == [name] + Split(more + rest)
  {
    Regroup(name, more, rest);
    SplitName(name, more + rest);
  }

  lemma {:induction false} FirstName(a: seq<string>)
    requires a != [] && AreNames(a)
    ensures '/' !in a[0] && AreNames(a[1..])
  {
    assert IsName(a[0]);
  }

  lemma {:induction false} SplitJoinPrefix(a: seq<string>, rest: string, tail: seq<string>)
    requires a != [] && AreNames(a) && Split(rest) == tail
    ensures Split(Join(a) + ("/" + rest)) == a + tail
  {
    FirstName(a);
    if |a| == 1 {
      SplitName(a[0], rest);
      assert [a[0]] + tail == a + tail;
    } else {
      SplitJoinPrefix(a[1..], rest, tail);
      SplitNameFirst(a[0], Join(a[1..]), "/" + rest);
      assert [a[0]] + (a[1..] + tail) == a + tail;
    }
  }

  lemma {:induction false} RootStartsNothing(path: seq<string>)
    requires AreNames(path)
    ensures !("//" <= Render(path))
  {
    JoinStart(path);
    if Join(path) != "" {
      assert Render(path)[1] == Join(path)[0] && "//"[1] == '/' && Join(path)[..1] == [Join(path)[0]];
    }
  }

  lemma {:induction false} TextPrefixIsPrefix(dir: seq<string>, path: seq<string>, rest: string)
    requires AreNames(dir) && AreNames(path) && dir != [] && Render(path) == Render(dir) + ("/" + rest)
    ensures dir <= path
  {
    assert Join(path) == Render(path)[1..];
    assert (Render(dir) + ("/" + rest))[1..] == Join(dir) + ("/" + rest);
    SplitJoinPrefix(dir, rest, Split(rest));
    if path != [] {
      SplitJoin(path);
      assert path == dir + Split(rest);
    }
  }

  lemma {:induction false} PrefixIsTextPrefix(dir: seq<string>, path: seq<string>)
    requires dir != [] && dir <= path && dir != path
    ensures Render(dir) + "/" <= Render(path)
  {
    var more := path[|dir|..];
    assert path == dir + more;
    JoinConcat(dir, more);
    assert Render(path) == Render(dir) + "/" + Join(more);
  }

  /**
   * One path starts with another and a slash exactly when its components start with the other's,
   * unless the other is the root, which only contains itself this way.
   */
  lemma {:induction false} StartsWithIffPrefix(dir: seq<string>, path: seq<string>)
    requires AreNames(dir) && AreNames(path)
    ensures (Render(path) == Render(dir) || Render(dir) + "/" <= Render(path))
       <==> dir <= path && (dir != [] || path == [])
  {
    var d, p := Render(dir), Render(path);
    if dir == [] {
      RootStartsNothing(path);
      assert d + "/" == "//";
      if p == d {
        assert Join(path) == p[1..];
        JoinInjective(path, []);
      }
    } else {
      if dir <= path && dir != path {
        PrefixIsTextPrefix(dir, path);
      }
      if p == d {
        assert Join(path) == p[1..] && Join(dir) == d[1..];
        JoinInjective(path, dir);
      }
      if d + "/" <= p {
        var rest := p[|d| + 1..];
        assert p == d + ("/" + rest);
        TextPrefixIsPrefix(dir, path, rest);
      }
    }
  }
}
