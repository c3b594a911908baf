/**
 * The string-based type classifier of the entity roll-up
 * (project/indexer/entity_rollup.py:358-554).
 */
module FieldTypes {
  import opened Options
  import opened Text

  datatype Relation = Composes | Aggregates | Associates

  /** A relation and its multiplicity: 1 one, 2 optional, 3 many, 4 array. */
  datatype Shape = Shape(relation: Relation, multiplicity: int)

  const UNIQUE_PTR: seq<string> := ["std::unique_ptr<", "unique_ptr<"]
  const SHARED_PTR: seq<string> := ["std::shared_ptr<", "shared_ptr<"]
  const WEAK_PTR: seq<string> := ["std::weak_ptr<", "weak_ptr<"]
  const OPTIONAL: seq<string> := ["std::optional<", "optional<"]
  const CONTAINERS: seq<string> := [
    "std::vector<", "vector<", "std::list<", "list<", "std::deque<", "deque<", "std::set<", "set<",
    "std::unordered_set<", "unordered_set<", "std::map<", "std::unordered_map<"]
  const WRAPPERS: seq<string> := UNIQUE_PTR + SHARED_PTR + WEAK_PTR + OPTIONAL + CONTAINERS

  /** `s.replace(q, "")`. */
  function Erase(s: string, q: string): (t: string)
    requires q != ""
    ensures |t| <= |s|
  {
    if s == "" then ""
    else if q <= s then Erase(s[|q|..], q)
    else [s[0]] + Erase(s[1..], q)
  }

  function StripQualifiers(s: string): (t: string)
    ensures |t| <= |s|
  {
    Trim(Erase(Erase(s, "const "), "volatile "))
  }

  predicate EndsWith(s: string, c: char) {
    s != "" && s[|s| - 1] == c
  }

  /** The arguments still to come, given the bracket depth and the argument read so far. */
  function SplitFrom(s: string, depth: int, cur: string): (args: seq<string>)
    ensures forall a :: a in args ==> |a| <= |cur| + |s|
  {
    if s == "" then if Trim(cur) != "" then [Trim(cur)] else []
    else if s[0] == ',' && depth == 0 then [Trim(cur)] + SplitFrom(s[1..], 0, "")
    else
      var step := if s[0] == '<' then 1 else if s[0] == '>' then -1 else 0;
      SplitFrom(s[1..], depth + step, cur + [s[0]])
  }

  /** The whole split, when `args` are out and the loop is at `i`. */
  function SplitAt(args: seq<string>, s: string, i: nat, depth: int, cur: string): seq<string>
    requires i <= |s|
  {
    args + SplitFrom(s[i..], depth, cur)
  }

  lemma {:induction false} SplitTurn(args: seq<string>, s: string, i: nat, depth: int, cur: string)
    requires i < |s|
    ensures SplitAt(args, s, i, depth, cur)
         == if s[i] == ',' && depth == 0 then SplitAt(args + [Trim(cur)], s, i + 1, 0, "")
            else SplitAt(args, s, i + 1, depth + (if s[i] == '<' then 1 else if s[i] == '>' then -1 else 0), cur + [s[i]])
  {
    assert s[i..][1..] == s[i + 1..];
    if s[i] == ',' && depth == 0 {
      var rest := SplitFrom(s[i + 1..], 0, "");
      assert args + ([Trim(cur)] + rest) == args + [Trim(cur)] + rest;
    }
  }

  method SplitTemplateArgs(inner: string) returns (args: seq<string>)
    ensures args == SplitFrom(inner, 0, "")
  {
    args := [];
    var depth, cur := 0, "";
    ghost var whole := SplitFrom(inner, 0, "");
    assert inner[0..] == inner && [] + whole == whole;
    for i := 0 to |inner|
      invariant SplitAt(args, inner, i, depth, cur) == whole
    {
      SplitTurn(args, inner, i, depth, cur);
      var c := inner[i];
      if c == '<' {
        depth := depth + 1;
        cur := cur + [c];
      } else if c == '>' {
        depth := depth - 1;
        cur := cur + [c];
      } else if c == ',' && depth == 0 {
        args := args + [Trim(cur)];
        cur := "";
      } else {
        cur := cur + [c];
      }
    }
    var tail := Trim(cur);
    assert SplitFrom(inner[|inner|..], depth, cur) == if tail != "" then [tail] else [];
    assert args + [] == args;
    if tail != "" {
      args := args + [tail];
    }
  }

  /** The last top-level argument of a wrapper. */
  function WrapperValueType(s: string, prefix: string): (v: string)
    requires prefix <= s
    ensures |v| <= |s| - |prefix|
  {
    var inner := Trim(s[|prefix|..]);
    var args := if EndsWith(inner, '>') then Trim(inner[..|inner| - 1]) else inner;
    var parts := SplitFrom(args, 0, "");
    if parts == [] then args else parts[|parts| - 1]
  }

  /** The first of the prefixes that `s` starts with. */
  function FindPrefix(s: string, prefixes: seq<string>): (p: Option<string>)
    ensures p.Some? ==> p.value in prefixes && p.value <= s
  {
    if prefixes == [] then None
    else if prefixes[0] <= s then Some(prefixes[0])
    else FindPrefix(s, prefixes[1..])
  }

  lemma {:induction false} PrefixesAreLong(p: string)
    requires p in WRAPPERS
    ensures p != ""
  {
  }

  /** The shape of a type that is neither an array nor a container. */
  function ClassifySingle(s: string): Shape {
    if FindPrefix(s, UNIQUE_PTR + OPTIONAL).Some? then Shape(Composes, 2)
    else if FindPrefix(s, SHARED_PTR).Some? then Shape(Aggregates, 2)
    else if FindPrefix(s, WEAK_PTR).Some? then Shape(Associates, 2)
    else if EndsWith(s, '*') || EndsWith(s, '&') then Shape(Associates, 2)
    else Shape(Composes, 1)
  }

  /** `_classify_field_type`. */
  function Classify(spelling: string): Shape
    decreases |spelling|
  {
    var s := StripQualifiers(spelling);
    var container := FindPrefix(s, CONTAINERS);
    if EndsWith(s, ']') then Shape(Composes, 4)
    else if container.None? then ClassifySingle(s)
    else
      PrefixesAreLong(container.value);
      Shape(Classify(WrapperValueType(s, container.value)).relation, 3)
  }

  /** `s.rfind(c)` where it is used to cut: the text before the last `c`; `s[:-1]` if there is none. */
  function BeforeLast(s: string, c: char): (t: string)
    requires s != ""
    ensures |t| < |s|
  {
    if s[|s| - 1] == c || |s| == 1 then s[..|s| - 1]
    else if c in s[..|s| - 1] then BeforeLast(s[..|s| - 1], c)
    else s[..|s| - 1]
  }

  /** One turn of the loop that drops pointer, reference and array suffixes. */
  function DropSuffix(s: string): (t: string)
    requires s != ""
    ensures |t| < |s|
  {
    Trim(if EndsWith(s, ']') then BeforeLast(s, '[') else s[..|s| - 1])
  }

  predicate HasSuffix(s: string) {
    EndsWith(s, '&') || EndsWith(s, '*') || EndsWith(s, ']')
  }

  function DropSuffixes(s: string): (t: string)
    ensures |t| <= |s|
    decreases |s|
  {
    if HasSuffix(s) then DropSuffixes(DropSuffix(s)) else s
  }

  /** `_strip_to_param_core`, and the spelling `_resolve_entity_from_type` looks up. */
  function Core(spelling: string): string
    decreases |spelling|
  {
    var s := StripQualifiers(DropSuffixes(StripQualifiers(spelling)));
    var wrapper := FindPrefix(s, WRAPPERS);
    if wrapper.None? then s
    else
      PrefixesAreLong(wrapper.value);
      Core(WrapperValueType(s, wrapper.value))
  }

  /** `_strip_to_param_core` as the source runs it: trim in a loop, then peel one wrapper. */
  method StripToParamCore(spelling: string) returns (core: string)
    ensures core == Core(spelling)
    decreases |spelling|
  {
    var s := StripQualifiers(spelling);
    while HasSuffix(s)
      invariant |s| <= |spelling| && DropSuffixes(s) == DropSuffixes(StripQualifiers(spelling))
      decreases |s|
    {
      s := DropSuffix(s);
    }
    s := StripQualifiers(s);
    var wrapper := FindPrefix(s, WRAPPERS);
    if wrapper.None? {
      return s;
    }
    PrefixesAreLong(wrapper.value);
    core := StripToParamCore(WrapperValueType(s, wrapper.value));
  }
}
