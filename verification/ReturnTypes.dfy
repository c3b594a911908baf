/**
 Which methods the roll-up counts as returning an entity by value, decided by the return
 type their signature spells (project/indexer/entity_rollup.py, the create form 2).
 */
module ReturnTypes {
  import opened EntityFacts
  import opened EntityTable
  import opened FieldTypeReading
  import opened FieldTypeShapes
  import opened Layer0
  import opened Options
  import opened TemplateCollapse
  import opened Text

  /** `type_info` of a method as the index spells it: return type, perhaps a blank, the parameters. */
  function SignatureOf(t: CxxType, gap: string, params: string): string {
    Spell(t) + (gap + "(" + params)
  }

  /** The edge says that a method returning t belongs to an entity; parentheses only open the parameters. */
  predicate DeclaresReturn(db: Tables, e: Edge, t: CxxType, gap: string, params: string) {
    && IsOwnership(db, e) && (KindAt(db, e.src) == METHOD || KindAt(db, e.src) == CONSTRUCTOR)
    && e.src in db.symbols && db.symbols[e.src].typeInfo == Some(SignatureOf(t, gap, params))
    && IsType(t) && '(' !in Spell(t) && (gap == "" || gap == " ")
  }

  /** The name is that of an entity whose primary is not the owner's. */
  predicate Foreign(db: Tables, owner: int, name: string) {
    name in db.byName && Primary(db, owner) != Primary(db, db.byName[name])
  }

  /** A return by value, as C++ has it: a bare name behind any qualifiers. */
  predicate IsValue(t: CxxType) {
    t.Named? && t.suffixes == []
  }

  lemma {:induction false} ReturnTypeIsSpelled(t: CxxType, gap: string, params: string)
    requires IsType(t) && '(' !in Spell(t) && (gap == "" || gap == " ")
    ensures ReturnType(SignatureOf(t, gap, params)) == Spell(t)
  {
    SpellEnds(t);
    ReturnTypeIsFront(Spell(t), gap, params);
  }

  lemma {:induction false} ReturnTypeIsFront(s: string, gap: string, params: string)
    requires s != "" && Bare(s, IsSpace) && '(' !in s && (gap == "" || gap == " ")
    ensures ReturnType(s + (gap + "(" + params)) == s
  {
    BeforeParenthesis(s, gap, params);
    TrimGap(s, gap);
  }

  lemma {:induction false} BeforeParenthesis(s: string, gap: string, params: string)
    requires '(' !in s && '(' !in gap
    ensures var text := s + (gap + "(" + params);
            Run(text, Other('(')) == |s| + |gap| < |text| && text[..|s| + |gap|] == s + gap
  {
    var text, n := s + (gap + "(" + params), |s| + |gap|;
    assert text[n] == '(' && text[..n] == s + gap;
    forall k | 0 <= k < n ensures text[k] != '(' {
      assert text[k] == if k < |s| then s[k] else gap[k - |s|];
    }
    RunIs(text, Other('('), n);
  }

  lemma {:induction false} FirstParenthesis(front: string, back: string)
    requires '(' !in front
    ensures Run(front, Other('(')) == |front|
    ensures Run(front + ("(" + back), Other('(')) == |front|
  {
    var text := front + ("(" + back);
    RunIs(front, Other('('), |front|);
    assert text[|front|] == '(' && forall k :: 0 <= k < |front| ==> text[k] == front[k];
    RunIs(text, Other('('), |front|);
  }

  /**
   * The return type read off any `type_info`: what stands before the first `(`, trimmed, and
   * the whole text when it has none or starts with one.
   */
  lemma {:induction false} ReturnTypeCuts(front: string, back: string)
    requires '(' !in front
    ensures ReturnType(front) == Trim(front)
    ensures ReturnType(front + ("(" + back)) == if front == "" then Trim("(" + back) else Trim(front)
  {
    var text := front + ("(" + back);
    FirstParenthesis(front, back);
    assert text[..|front|] == front;
    if front == "" {
      assert text == "(" + back;
    }
  }

  lemma {:induction false} TrimGap(s: string, gap: string)
    requires s != "" && Bare(s, IsSpace) && (gap == "" || gap == " ")
    ensures Trim(s + gap) == s
  {
    RunIs(s + gap, IsSpace, 0);
    EndIs(s + gap, IsSpace, |s|);
    assert (s + gap)[0..|s|] == s;
  }

  function ValueRow(db: Tables, owner: int, name: string): Fact
    requires name in db.byName
  {
    Fact(Key(Primary(db, owner), Primary(db, db.byName[name]), Creates, None, Some(BY_VALUE_RETURN)), 1, 0, 0, 1)
  }

  /**
   The row is made exactly when the innermost name of the return type, with wrappers, marks
   and qualifiers taken off, is that of another entity.
   */
  lemma {:induction false} ReturnRowExact(db: Tables, e: Edge, t: CxxType, gap: string, params: string)
    requires DeclaresReturn(db, e, t, gap, params) && Spell(t) != "void" && Spell(t) != "auto"
    ensures var name := CoreText(Peeled(Normal(t)));
            ReturnFact(db, e) == if Foreign(db, e.dst, name) then [ValueRow(db, e.dst, name)] else []
  {
    assert TypeInfoAt(db, e.src) == SignatureOf(t, gap, params);
    ReturnTypeIsSpelled(t, gap, params);
    SpellEnds(t);
    CoreReadsPeeled(t);
  }

  /** The name a row is made for is read off the tree. */
  predicate ReadsName(t: CxxType) {
    var p := Peeled(t);
    p.Named? && !Swallowed(p, Const) && !Swallowed(p, Volatile) && !Blocked(p.suffixes)
  }

  /**
   Where the innermost name is read right, a row stands for a return by value exactly when
   no pointer, reference or wrapper was taken off.
   */
  lemma {:induction false} ByValueIff(db: Tables, e: Edge, t: CxxType, gap: string, params: string)
    requires DeclaresReturn(db, e, t, gap, params) && Spell(t) != "void" && Spell(t) != "auto" && ReadsName(t)
    ensures var name := Peeled(t).name;
            && ReturnFact(db, e) == (if Foreign(db, e.dst, name) then [ValueRow(db, e.dst, name)] else [])
            && ((ReturnFact(db, e) != [] ==> IsValue(t)) <==> IsValue(t) || !Foreign(db, e.dst, name))
  {
    CoreIsNameIff(t);
    CoreReadsPeeled(t);
    ReturnRowExact(db, e, t, gap, params);
  }

  function PointerTo(name: string): CxxType {
    Named([], name, [Suffix(true, Star, [])])
  }

  lemma {:induction false} SpelledPointer(name: string)
    ensures Spell(PointerTo(name)) == name + " *"
    ensures Spell(PointerTo(name)) != "void" && Spell(PointerTo(name)) != "auto"
  {
    var s := Spell(PointerTo(name));
    assert |s| == |name| + 2 && s[|name| + 1] == '*' && s[..|name|] == name;
    assert |name| == 2 ==> "void"[3] != s[3] && "auto"[3] != s[3];
  }

  /** A method that returns a pointer to another entity is recorded as returning it by value. */
  lemma {:induction false} PointerCountsAsValue(db: Tables, e: Edge, name: string, gap: string, params: string)
    requires DeclaresReturn(db, e, PointerTo(name), gap, params) && ReadsName(PointerTo(name)) && Foreign(db, e.dst, name)
    ensures !IsValue(PointerTo(name)) && ReturnFact(db, e) == [ValueRow(db, e.dst, name)]
  {
    SpelledPointer(name);
    ByValueIff(db, e, PointerTo(name), gap, params);
  }
}
