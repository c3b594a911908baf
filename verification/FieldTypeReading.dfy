/**
 * What the string classifier of `FieldTypes` reads off the spelling of a type: its kind and
 * multiplicity exactly when no pointer with a qualifier after it is held, and its innermost
 * name exactly when no qualifier was seen in a name and none stops the peeling.
 */
module FieldTypeReading {
  import opened FieldTypes
  import opened FieldTypeShapes
  import opened Options
  import opened Text

  // ---- Ends of a spelling ------------------------------------------------------------------

  function LastChar(s: string): char
    requires s != ""
  {
    s[|s| - 1]
  }

  function LastMark(ss: seq<Suffix>): Mark
    requires ss != []
  {
    ss[|ss| - 1].mark
  }

  lemma {:induction false} MarkEnds(m: Mark)
    ensures SpellMark(m) != "" && !IsSpace(SpellMark(m)[0]) && !IsSpace(LastChar(SpellMark(m)))
  {
  }

  lemma {:induction false} WordEnds(q: Qual)
    ensures Word(q) != "" && PlainChar(Word(q)[0]) && PlainChar(LastChar(Word(q)))
  {
    WordsAreLetters(q);
  }

  /** A suffix list ends in its last mark, or in the last qualifier after it. */
  lemma {:induction false} SuffixesEnd(ss: seq<Suffix>)
    requires ss != []
    ensures SpellSuffixes(ss) != ""
    ensures EndsQualified(ss) ==> PlainChar(LastChar(SpellSuffixes(ss)))
    ensures !EndsQualified(ss) ==> LastChar(SpellSuffixes(ss)) == LastChar(SpellMark(LastMark(ss)))
  {
    SuffixEnds(ss[|ss| - 1]);
    assert SpellSuffixes(ss) == SpellSuffixes(ss[..|ss| - 1]) + SpellSuffix(ss[|ss| - 1]);
  }

  lemma {:induction false} SuffixEnds(s: Suffix)
    ensures SpellSuffix(s) != ""
    ensures s.quals != [] ==> PlainChar(LastChar(SpellSuffix(s)))
    ensures s.quals == [] ==> LastChar(SpellSuffix(s)) == LastChar(SpellMark(s.mark))
  {
    MarkEnds(s.mark);
    if s.quals != [] {
      WordsEnd(s.quals);
    }
  }

  lemma {:induction false} WordsEnd(qs: seq<Qual>)
    requires qs != []
    ensures Words(qs) != "" && PlainChar(LastChar(Words(qs)))
  {
    WordEnds(qs[|qs| - 1]);
  }

  /** Qualifiers in front change neither the end of a spelling nor that it starts without a blank. */
  lemma {:induction false} LeadEnds(lead: seq<Qual>, body: string)
    requires body != "" && !IsSpace(body[0])
    ensures var s := Lead(lead) + body; s != "" && !IsSpace(s[0]) && LastChar(s) == LastChar(body)
  {
    if lead != [] {
      WordEnds(lead[0]);
    }
  }

  lemma {:induction false} NamedEnds(name: string, ss: seq<Suffix>)
    requires IsType(Named([], name, ss))
    ensures var s := name + SpellSuffixes(ss);
            && s != "" && !IsSpace(s[0]) && !IsSpace(LastChar(s))
            && (ss == [] || EndsQualified(ss) ==> PlainChar(LastChar(s)))
            && (ss != [] && !EndsQualified(ss) ==> LastChar(s) == LastChar(SpellMark(LastMark(ss))))
  {
    if ss == [] {
      assert name + "" == name;
    } else {
      SuffixesEnd(ss);
      MarkEnds(LastMark(ss));
      assert LastChar(name + SpellSuffixes(ss)) == LastChar(SpellSuffixes(ss));
      NamedStarts(name, ss);
    }
  }

  lemma {:induction false} NamedStarts(name: string, ss: seq<Suffix>)
    requires IsType(Named([], name, ss)) && ss != []
    ensures var s := name + SpellSuffixes(ss); s != "" && !IsSpace(s[0])
  {
    if name == "" {
      TightStartsWithMark(ss);
    } else {
      assert PlainChar(name[0]);
    }
  }

  lemma {:induction false} SpellEnds(t: CxxType)
    requires IsType(t)
    ensures Spell(t) != "" && !IsSpace(Spell(t)[0]) && !IsSpace(LastChar(Spell(t)))
    ensures t.Wrapped? ==> LastChar(Spell(t)) == '>'
    ensures t.Named? && (t.suffixes == [] || EndsQualified(t.suffixes)) ==> PlainChar(LastChar(Spell(t)))
    ensures t.Named? && t.suffixes != [] && !EndsQualified(t.suffixes)
            ==> LastChar(Spell(t)) == LastChar(SpellMark(LastMark(t.suffixes)))
  {
    match t
    case Wrapped(lead, wrapper, args) =>
      var body := wrapper + (SpellArgs(args) + ">");
      assert body[0] == wrapper[0] && (|wrapper| > 1 ==> wrapper[0] == wrapper[..|wrapper| - 1][0]);
      LeadEnds(lead, body);
    case Named(lead, name, suffixes) =>
      NamedEnds(name, suffixes);
      LeadEnds(lead, name + SpellSuffixes(suffixes));
  }

  lemma {:induction false} NoLeadLeft(qs: seq<Qual>)
    ensures Others(Others(qs, Const), Volatile) == []
  {
    if qs != [] {
      NoLeadLeft(qs[1..]);
      if qs[0] == Volatile {
        assert Others(qs, Const)[1..] == Others(qs[1..], Const);
      }
    }
  }

  lemma {:induction false} StripsTo(s: string, once: string, twice: string)
    requires Erase(s, Word(Const) + " ") == once && Erase(once, Word(Volatile) + " ") == twice
    requires twice != "" && !IsSpace(twice[0]) && !IsSpace(LastChar(twice))
    ensures StripQualifiers(s) == twice
  {
    assert Word(Const) + " " == "const " && Word(Volatile) + " " == "volatile ";
    StripIsBare(twice, IsSpace);
  }

  lemma {:induction false} QualifiersStripToNormal(t: CxxType)
    requires IsType(t)
    ensures StripQualifiers(Spell(t)) == Spell(Normal(t)) && IsType(Normal(t)) && Normal(t).lead == []
    ensures ReadShape(Normal(t)) == ReadShape(t) && Depth(Normal(t)) == Depth(t)
  {
    var once := Erased(t, Const);
    EraseType(t, Const);
    ErasedIsType(t, Const);
    EraseType(once, Volatile);
    ErasedIsType(once, Volatile);
    NoLeadLeft(t.lead);
    SpellEnds(Normal(t));
    StripsTo(Spell(t), Spell(once), Spell(Normal(t)));
  }

  // ---- Splitting the arguments -----------------------------------------------------------

  /** Text the splitter copies without looking at it. */
  predicate Flat(a: string) {
    forall k :: 0 <= k < |a| ==> a[k] !in "<>,"
  }

  lemma {:induction false} CopyFlat(a: string, rest: string, depth: int, cur: string)
    requires Flat(a)
    ensures SplitFrom(a + rest, depth, cur) == SplitFrom(rest, depth, cur + a)
    decreases |a|
  {
    if a == "" {
      assert a + rest == rest && cur + a == cur;
    } else {
      assert (a + rest)[1..] == a[1..] + rest;
      CopyFlat(a[1..], rest, depth, cur + [a[0]]);
      assert cur + [a[0]] + a[1..] == cur + a;
    }
  }

  lemma {:induction false} SuffixesAreFlat(ss: seq<Suffix>)
    requires AreSuffixes(ss)
    ensures Flat(SpellSuffixes(ss))
  {
    if ss != [] {
      SuffixesAreFlat(ss[..|ss| - 1]);
      SuffixIsFlat(ss[|ss| - 1]);
      FlatConcat(SpellSuffixes(ss[..|ss| - 1]), SpellSuffix(ss[|ss| - 1]));
    }
  }

  lemma {:induction false} SuffixIsFlat(s: Suffix)
    requires IsSuffix(s)
    ensures Flat(SpellSuffix(s))
  {
    if s.mark.Dim? {
      assert forall i :: 0 <= i < |s.mark.digits| ==> IsDigit(s.mark.digits[i]);
    }
    var head := if s.spaced then " " + SpellMark(s.mark) else SpellMark(s.mark);
    WordsAreFlat(s.quals);
    FlatConcat(head, Words(s.quals));
  }

  lemma {:induction false} WordsAreFlat(qs: seq<Qual>)
    ensures Flat(Words(qs))
  {
    if qs != [] {
      LeadIsFlat(qs[..|qs| - 1]);
      WordsAreLetters(qs[|qs| - 1]);
      PlainIsFlat(Word(qs[|qs| - 1]));
      FlatConcat(Lead(qs[..|qs| - 1]), Word(qs[|qs| - 1]));
    }
  }

  lemma {:induction false} LeadIsFlat(qs: seq<Qual>)
    ensures Flat(Lead(qs))
  {
    if qs != [] {
      WordsAreLetters(qs[0]);
      PlainIsFlat(Word(qs[0]));
      FlatConcat(Word(qs[0]), " ");
      LeadIsFlat(qs[1..]);
      FlatConcat(Word(qs[0]) + " ", Lead(qs[1..]));
    }
  }

  lemma {:induction false} FlatConcat(a: string, b: string)
    requires Flat(a) && Flat(b)
    ensures Flat(a + b)
  {
  }

  lemma {:induction false} PlainIsFlat(a: string)
    requires Plain(a)
    ensures Flat(a)
  {
    assert forall k :: 0 <= k < |a| ==> PlainChar(a[k]);
  }

  lemma {:induction false} Assoc(a: string, b: string, c: string, d: string)
    ensures a + (b + c) + d == a + (b + (c + d))
    ensures a + b + c + d == a + (b + (c + d))
  {
  }

  /** One bracket: the depth moves and the character is copied. */
  lemma {:induction false} CopyBracket(c: char, rest: string, depth: int, cur: string)
    requires c == '<' || c == '>'
    ensures SplitFrom([c] + rest, depth, cur) == SplitFrom(rest, if c == '<' then depth + 1 else depth - 1, cur + [c])
  {
    assert ([c] + rest)[1..] == rest;
  }

  /** A comma inside brackets is copied. */
  lemma {:induction false} CopySeparator(rest: string, depth: nat, cur: string)
    requires depth > 0
    ensures SplitFrom(", " + rest, depth, cur) == SplitFrom(rest, depth, cur + ", ")
  {
    assert (", " + rest)[1..] == " " + rest && (" " + rest)[1..] == rest;
    assert cur + [','] + [' '] == cur + ", ";
  }

  /** A whole type is copied into the current argument, whatever commas it holds. */
  lemma {:induction false} CopyType(t: CxxType, rest: string, depth: nat, cur: string)
    requires IsType(t)
    ensures SplitFrom(Spell(t) + rest, depth, cur) == SplitFrom(rest, depth, cur + Spell(t))
    decreases t
  {
    match t
    case Named(_, _, _) =>
      NamedIsFlat(t);
      CopyFlat(Spell(t), rest, depth, cur);
    case Wrapped(lead, wrapper, args) =>
      var name, inner := Lead(lead) + wrapper[..|wrapper| - 1], SpellArgs(args);
      LeadIsFlat(lead);
      PlainIsFlat(wrapper[..|wrapper| - 1]);
      FlatConcat(Lead(lead), wrapper[..|wrapper| - 1]);
      CopyArgs(args, ">" + rest, depth + 1, cur + name + "<");
      CopyBracketed(name, inner, rest, depth, cur);
      TemplateText(Lead(lead), wrapper, inner + ">");
  }

  lemma {:induction false} TemplateText(lead: string, wrapper: string, rest: string)
    requires IsTemplateName(wrapper)
    ensures lead + (wrapper + rest) == lead + wrapper[..|wrapper| - 1] + "<" + rest
  {
    var name := wrapper[..|wrapper| - 1];
    assert wrapper == name + "<";
    Reassociate(lead, name, "<");
    Reassociate(lead, wrapper, rest);
  }

  lemma {:induction false} NamedIsFlat(t: CxxType)
    requires IsType(t) && t.Named?
    ensures Flat(Spell(t))
  {
    SuffixesAreFlat(t.suffixes);
    PlainIsFlat(t.name);
    FlatConcat(t.name, SpellSuffixes(t.suffixes));
    LeadIsFlat(t.lead);
    FlatConcat(Lead(t.lead), t.name + SpellSuffixes(t.suffixes));
  }

  lemma {:induction false} OpenBracket(name: string, more: string, depth: nat, cur: string)
    requires Flat(name)
    ensures SplitFrom(name + "<" + more, depth, cur) == SplitFrom(more, depth + 1, cur + name + "<")
  {
    Reassociate(name, "<", more);
    CopyFlat(name, "<" + more, depth, cur);
    CopyBracket('<', more, depth, cur + name);
  }

  /** Bracketed text is copied whole when the text between the brackets is. */
  lemma {:induction false} CopyBracketed(name: string, inner: string, rest: string, depth: nat, cur: string)
    requires Flat(name)
    requires SplitFrom(inner + (">" + rest), depth + 1, cur + name + "<")
          == SplitFrom(">" + rest, depth + 1, cur + name + "<" + inner)
    ensures SplitFrom(name + "<" + (inner + ">") + rest, depth, cur)
         == SplitFrom(rest, depth, cur + (name + "<" + (inner + ">")))
  {
    Assoc(name + "<", inner, ">", rest);
    OpenBracket(name, inner + (">" + rest), depth, cur);
    CopyBracket('>', rest, depth + 1, cur + name + "<" + inner);
    CurrentText(cur, name, inner);
  }

  lemma {:induction false} CurrentText(cur: string, name: string, inner: string)
    ensures cur + name + "<" + inner + ">" == cur + (name + "<" + (inner + ">"))
  {
  }

  lemma {:induction false} CopyArgs(args: Args, rest: string, depth: nat, cur: string)
    requires AreTypes(args) && depth > 0
    ensures SplitFrom(SpellArgs(args) + rest, depth, cur) == SplitFrom(rest, depth, cur + SpellArgs(args))
    decreases args
  {
    match args
    case Last(value) => CopyType(value, rest, depth, cur);
    case More(key, more) =>
      var tail := SpellArgs(more);
      CopyType(key, ", " + (tail + rest), depth, cur);
      CopyArgs(more, rest, depth, cur + Spell(key) + ", ");
      CopySeparator(tail + rest, depth, cur + Spell(key));
      Assoc(Spell(key), ", ", tail, rest);
      Assoc(cur, Spell(key), ", ", tail);
  }

  lemma {:induction false} TrimLead(s: string)
    requires s != "" && Bare(s, IsSpace)
    ensures Trim(" " + s) == s && Trim(s) == s
  {
    var t := " " + s;
    RunIs(t, IsSpace, 1);
    EndIs(t, IsSpace, |t|);
    StripIsBare(s, IsSpace);
  }

  /** A comma outside brackets ends the argument; the blank after it opens the next. */
  lemma {:induction false} SplitAtSeparator(rest: string, cur: string)
    ensures SplitFrom(", " + rest, 0, cur) == [Trim(cur)] + SplitFrom(rest, 0, " ")
  {
    assert (", " + rest)[1..] == " " + rest && (" " + rest)[1..] == rest && "" + [' '] == " ";
  }

  /** Splitting spelled arguments gives the spelling of the value last. */
  lemma {:induction false} SplitGivesValue(args: Args, cur: string)
    requires AreTypes(args) && (cur == "" || cur == " ")
    ensures var parts := SplitFrom(SpellArgs(args), 0, cur);
            parts != [] && parts[|parts| - 1] == Spell(ValueOf(args))
  {
    match args
    case Last(value) => SplitLast(value, cur);
    case More(key, rest) =>
      CopyType(key, ", " + SpellArgs(rest), 0, cur);
      SplitGivesValue(rest, " ");
      SplitAtSeparator(SpellArgs(rest), cur + Spell(key));
  }

  lemma {:induction false} SplitLast(value: CxxType, cur: string)
    requires IsType(value) && (cur == "" || cur == " ")
    ensures SplitFrom(Spell(value), 0, cur) == [Spell(value)]
  {
    SpellEnds(value);
    CopyType(value, "", 0, cur);
    TrimLead(Spell(value));
    assert Spell(value) + "" == Spell(value) && (cur == "" ==> cur + Spell(value) == Spell(value));
  }

  lemma {:induction false} ArgsEnds(args: Args)
    requires AreTypes(args)
    ensures SpellArgs(args) != "" && Bare(SpellArgs(args), IsSpace)
  {
    match args
    case Last(value) => SpellEnds(value);
    case More(key, rest) =>
      SpellEnds(key);
      ArgsEnds(rest);
      JoinedIsBare(Spell(key), ", ", SpellArgs(rest));
  }

  lemma {:induction false} JoinedIsBare(a: string, b: string, c: string)
    requires a != "" && c != "" && !IsSpace(a[0]) && Bare(c, IsSpace)
    ensures var s := a + (b + c); s != "" && Bare(s, IsSpace)
  {
    var s := a + (b + c);
    assert s[0] == a[0] && s[|s| - 1] == c[|c| - 1];
  }

  lemma {:induction false} Unled(t: CxxType)
    requires t.lead == []
    ensures Spell(t) == if t.Named? then t.name + SpellSuffixes(t.suffixes) else t.wrapper + (SpellArgs(t.args) + ">")
  {
  }

  /** `_wrapper_value_type` of a spelled wrapper is the spelling of its last argument. */
  lemma {:induction false} ValueOfWrapper(t: CxxType)
    requires IsType(t) && t.Wrapped? && t.lead == []
    ensures t.wrapper <= Spell(t) && WrapperValueType(Spell(t), t.wrapper) == Spell(ValueOf(t.args))
  {
    Unled(t);
    ValueOfArgs(Spell(t), t.wrapper, t.args);
  }

  predicate SplitsTo(args: string, value: string) {
    var parts := SplitFrom(args, 0, "");
    parts != [] && parts[|parts| - 1] == value
  }

  lemma {:induction false} ValueOfArgs(text: string, wrapper: string, args: Args)
    requires AreTypes(args) && text == wrapper + (SpellArgs(args) + ">")
    ensures wrapper <= text && WrapperValueType(text, wrapper) == Spell(ValueOf(args))
  {
    ArgsEnds(args);
    ArgsSplit(args);
    ValueOfText(text, wrapper, SpellArgs(args), Spell(ValueOf(args)));
  }

  lemma {:induction false} ArgsSplit(args: Args)
    requires AreTypes(args)
    ensures SplitsTo(SpellArgs(args), Spell(ValueOf(args)))
  {
    SplitGivesValue(args, "");
  }

  lemma {:induction false} ValueOfText(text: string, wrapper: string, args: string, value: string)
    requires text == wrapper + (args + ">") && args != "" && Bare(args, IsSpace) && SplitsTo(args, value)
    ensures wrapper <= text && WrapperValueType(text, wrapper) == value
  {
    var inner := args + ">";
    assert text[|wrapper|..] == inner;
    StripIsBare(inner, IsSpace);
    StripIsBare(args, IsSpace);
    assert inner[..|inner| - 1] == args;
  }

  // ---- Finding the wrapper -----------------------------------------------------------------

  /** One opening bracket, at the end. */
  predicate Opens(p: string) {
    p != "" && p[|p| - 1] == '<' && forall k :: 0 <= k < |p| - 1 ==> p[k] != '<'
  }

  lemma {:induction false} SmartPointersOpen(p: string)
    requires p in UNIQUE_PTR + OPTIONAL || p in SHARED_PTR || p in WEAK_PTR
    ensures Opens(p)
  {
  }

  lemma {:induction false} ContainersOpen(p: string)
    requires p in CONTAINERS
    ensures Opens(p)
  {
  }

  /** Of prefixes that open one bracket, the one found is the text up to the first bracket. */
  lemma {:induction false} FoundIsWrapper(wrapper: string, rest: string, ps: seq<string>)
    requires Opens(wrapper) && forall p :: p in ps ==> Opens(p)
    ensures FindPrefix(wrapper + rest, ps) == if wrapper in ps then Some(wrapper) else None
  {
    if ps != [] {
      var p, s := ps[0], wrapper + rest;
      if p <= s && p != wrapper {
        OpensMeet(p, wrapper, s);
      }
      FoundIsWrapper(wrapper, rest, ps[1..]);
    }
  }

  lemma {:induction false} OpensMeet(p: string, w: string, s: string)
    requires Opens(p) && Opens(w) && p <= s && w <= s
    ensures p == w
  {
    assert p == s[..|p|] && w == s[..|w|];
    assert s[|p| - 1] == '<' && s[|w| - 1] == '<';
  }

  lemma {:induction false} NoneFound(s: string, ps: seq<string>)
    requires Flat(s) && forall p :: p in ps ==> Opens(p)
    ensures FindPrefix(s, ps) == None
  {
    if ps != [] {
      var p := ps[0];
      assert Opens(p);
      if |p| <= |s| {
        Mismatch(p, s, |p| - 1);
      }
      NoneFound(s, ps[1..]);
    }
  }

  // ---- Kind and multiplicity ---------------------------------------------------------------

  lemma {:induction false} TemplateNameOpens(p: string)
    requires IsTemplateName(p)
    ensures Opens(p)
  {
    assert forall k :: 0 <= k < |p| - 1 ==> p[..|p| - 1][k] == p[k] && PlainChar(p[..|p| - 1][k]);
  }

  lemma {:induction false} ValueIsType(args: Args)
    requires AreTypes(args)
    ensures IsType(ValueOf(args))
  {
    if args.More? {
      ValueIsType(args.rest);
    }
  }

  lemma {:induction false} AllOpen()
    ensures forall p :: p in CONTAINERS ==> Opens(p)
    ensures forall p :: p in UNIQUE_PTR + OPTIONAL ==> Opens(p)
    ensures forall p :: p in SHARED_PTR ==> Opens(p)
    ensures forall p :: p in WEAK_PTR ==> Opens(p)
  {
    forall p | p in CONTAINERS
      ensures Opens(p)
    {
      ContainersOpen(p);
    }
    forall p | p in UNIQUE_PTR + OPTIONAL || p in SHARED_PTR || p in WEAK_PTR
      ensures Opens(p)
    {
      SmartPointersOpen(p);
    }
  }

  /** The lists in which the classifier finds a spelled wrapper: those that hold it. */
  lemma {:induction false} WrapperFound(wrapper: string, rest: string)
    requires IsTemplateName(wrapper)
    ensures FindPrefix(wrapper + rest, CONTAINERS) == if wrapper in CONTAINERS then Some(wrapper) else None
    ensures FindPrefix(wrapper + rest, UNIQUE_PTR + OPTIONAL).Some? <==> wrapper in UNIQUE_PTR + OPTIONAL
    ensures FindPrefix(wrapper + rest, SHARED_PTR).Some? <==> wrapper in SHARED_PTR
    ensures FindPrefix(wrapper + rest, WEAK_PTR).Some? <==> wrapper in WEAK_PTR
  {
    TemplateNameOpens(wrapper);
    AllOpen();
    FoundIsWrapper(wrapper, rest, CONTAINERS);
    FoundIsWrapper(wrapper, rest, UNIQUE_PTR + OPTIONAL);
    FoundIsWrapper(wrapper, rest, SHARED_PTR);
    FoundIsWrapper(wrapper, rest, WEAK_PTR);
  }

  lemma {:induction false} NoWrapperFound(s: string)
    requires Flat(s)
    ensures FindPrefix(s, CONTAINERS) == None && FindPrefix(s, UNIQUE_PTR + OPTIONAL) == None
    ensures FindPrefix(s, SHARED_PTR) == None && FindPrefix(s, WEAK_PTR) == None
  {
    AllOpen();
    NoneFound(s, CONTAINERS);
    NoneFound(s, UNIQUE_PTR + OPTIONAL);
    NoneFound(s, SHARED_PTR);
    NoneFound(s, WEAK_PTR);
  }

  /** Text without brackets, angle or comma is classified by its last character. */
  lemma {:induction false} ClassifyFlat(spelling: string, s: string)
    requires StripQualifiers(spelling) == s && Flat(s)
    ensures Classify(spelling) == if EndsWith(s, ']') then Shape(Composes, 4)
                                  else if EndsWith(s, '*') || EndsWith(s, '&') then Shape(Associates, 2)
                                  else Shape(Composes, 1)
  {
    NoWrapperFound(s);
  }

  lemma {:induction false} ClassifyNamed(spelling: string, t: CxxType)
    requires IsType(t) && t.Named? && StripQualifiers(spelling) == Spell(t)
    ensures Classify(spelling) == ReadShape(t)
  {
    NamedIsFlat(t);
    ReadByEnd(t);
    ClassifyFlat(spelling, Spell(t));
  }

  function MarkChar(m: Mark): char {
    if m.Star? then '*' else if m.Amp? then '&' else ']'
  }

  lemma {:induction false} MarkCharIsLast(m: Mark)
    ensures SpellMark(m) != "" && LastChar(SpellMark(m)) == MarkChar(m)
  {
  }

  lemma {:induction false} ReadByEnd(t: CxxType)
    requires IsType(t) && t.Named?
    ensures Spell(t) != ""
    ensures ReadShape(t) == if LastChar(Spell(t)) == ']' then Shape(Composes, 4)
                            else if LastChar(Spell(t)) == '*' || LastChar(Spell(t)) == '&' then Shape(Associates, 2)
                            else Shape(Composes, 1)
  {
    SpellEnds(t);
    if t.suffixes != [] {
      MarkCharIsLast(LastMark(t.suffixes));
    }
  }

  lemma {:induction false} ClassifySingleWrapped(wrapper: string, rest: string)
    requires IsTemplateName(wrapper) && EndsWith(rest, '>')
    ensures ClassifySingle(wrapper + rest) == SingleShape(wrapper)
  {
    WrapperFound(wrapper, rest);
    assert LastChar(wrapper + rest) == '>';
  }

  lemma {:induction false} ClassifyWrapped(spelling: string, t: CxxType)
    requires IsType(t) && t.Wrapped? && t.lead == [] && StripQualifiers(spelling) == Spell(t)
    requires Classify(Spell(ValueOf(t.args))) == ReadShape(ValueOf(t.args))
    ensures Classify(spelling) == ReadShape(t)
  {
    var rest := SpellArgs(t.args) + ">";
    Unled(t);
    if t.wrapper in CONTAINERS {
      ValueOfWrapper(t);
      ClassifyContainer(spelling, t.wrapper, rest);
    } else {
      ClassifySingleWrapped(t.wrapper, rest);
      ClassifyOther(spelling, t.wrapper, rest);
    }
  }

  lemma {:induction false} ClassifyContainer(spelling: string, wrapper: string, rest: string)
    requires StripQualifiers(spelling) == wrapper + rest && IsTemplateName(wrapper) && wrapper in CONTAINERS && EndsWith(rest, '>')
    ensures Classify(spelling) == Shape(Classify(WrapperValueType(wrapper + rest, wrapper)).relation, 3)
  {
    WrapperFound(wrapper, rest);
    assert LastChar(wrapper + rest) == '>';
  }

  lemma {:induction false} ClassifyOther(spelling: string, wrapper: string, rest: string)
    requires StripQualifiers(spelling) == wrapper + rest && IsTemplateName(wrapper) && wrapper !in CONTAINERS && EndsWith(rest, '>')
    ensures Classify(spelling) == ClassifySingle(wrapper + rest)
  {
    WrapperFound(wrapper, rest);
    assert LastChar(wrapper + rest) == '>';
  }

  /** What the classifier reads off a spelling. */
  lemma {:induction false} ClassifyReadsShape(t: CxxType)
    requires IsType(t)
    ensures Classify(Spell(t)) == ReadShape(t)
    decreases Depth(t)
  {
    var u := Normal(t);
    QualifiersStripToNormal(t);
    if u.Named? {
      ClassifyNamed(Spell(t), u);
    } else {
      ValueIsType(u.args);
      ClassifyReadsShape(ValueOf(u.args));
      ClassifyWrapped(Spell(t), u);
    }
  }

  lemma {:induction false} ReadIsShapeIff(t: CxxType)
    requires IsType(t)
    ensures ReadShape(t) == ShapeOf(t) <==> !HoldsQualified(t)
    ensures ReadShape(t).relation == ShapeOf(t).relation <==> !HoldsQualified(t)
    decreases Depth(t)
  {
    if t.Wrapped? {
      ValueIsType(t.args);
      ReadIsShapeIff(ValueOf(t.args));
    } else if EndsQualified(t.suffixes) {
      assert IsSuffix(t.suffixes[|t.suffixes| - 1]);
    }
  }

  /**
   Read off its spelling, a type has the kind and multiplicity its tree has, exactly when
   it is neither a qualified pointer nor a container of them.
   */
  lemma {:induction false} ClassifyIsShapeIff(t: CxxType)
    requires IsType(t)
    ensures Classify(Spell(t)) == ShapeOf(t) <==> !HoldsQualified(t)
  {
    ClassifyReadsShape(t);
    ReadIsShapeIff(t);
  }

  // ---- The standard wrappers by name -----------------------------------------------------

  predicate HoldsOne(wrapper: string) {
    || wrapper == "std::unique_ptr<" || wrapper == "unique_ptr<"
    || wrapper == "std::optional<" || wrapper == "optional<"
  }

  predicate SharesOne(wrapper: string) {
    wrapper == "std::shared_ptr<" || wrapper == "shared_ptr<"
  }

  predicate WatchesOne(wrapper: string) {
    wrapper == "std::weak_ptr<" || wrapper == "weak_ptr<"
  }

  /** The two maps count only with their namespace. */
  predicate HoldsMany(wrapper: string) {
    || wrapper == "std::vector<" || wrapper == "vector<"
    || wrapper == "std::list<" || wrapper == "list<"
    || wrapper == "std::deque<" || wrapper == "deque<"
    || wrapper == "std::set<" || wrapper == "set<"
    || wrapper == "std::unordered_set<" || wrapper == "unordered_set<"
    || wrapper == "std::map<" || wrapper == "std::unordered_map<"
  }

  /**
   * What the spelling of a template is classified as, by the template's name: a container
   * relates as its last argument does, and a name that is none of these stands for a value.
   */
  lemma {:induction false} WrapperByName(t: CxxType)
    requires IsType(t) && t.Wrapped?
    ensures Classify(Spell(t)) ==
              if HoldsMany(t.wrapper) then Shape(Classify(Spell(ValueOf(t.args))).relation, 3)
              else if HoldsOne(t.wrapper) then Shape(Composes, 2)
              else if SharesOne(t.wrapper) then Shape(Aggregates, 2)
              else if WatchesOne(t.wrapper) then Shape(Associates, 2)
              else Shape(Composes, 1)
  {
    ClassifyReadsShape(t);
    ValueIsType(t.args);
    ClassifyReadsShape(ValueOf(t.args));
    ContainersByName(t.wrapper);
    SingleByName(t.wrapper);
  }

  lemma {:induction false} ContainersByName(wrapper: string)
    ensures wrapper in CONTAINERS <==> HoldsMany(wrapper)
  {
  }

  lemma {:induction false} SingleByName(wrapper: string)
    ensures wrapper in UNIQUE_PTR + OPTIONAL <==> HoldsOne(wrapper)
    ensures wrapper in SHARED_PTR <==> SharesOne(wrapper)
    ensures wrapper in WEAK_PTR <==> WatchesOne(wrapper)
  {
  }

  /** The templates that are peeled are the same ones. */
  lemma {:induction false} PeeledByName(t: CxxType)
    ensures var w := if t.Wrapped? then t.wrapper else "";
            Peeled(t) == if HoldsMany(w) || HoldsOne(w) || SharesOne(w) || WatchesOne(w) then Peeled(ValueOf(t.args)) else t
  {
    var w := if t.Wrapped? then t.wrapper else "";
    ContainersByName(w);
    SingleByName(w);
    assert w in WRAPPERS <==> w in CONTAINERS || w in UNIQUE_PTR + OPTIONAL || w in SHARED_PTR || w in WEAK_PTR;
  }

  /** A blank in front of a spelling makes no difference. */
  lemma {:induction false} LeadingBlank(s: string)
    ensures StripQualifiers(" " + s) == StripQualifiers(s)
    ensures Classify(" " + s) == Classify(s) && Core(" " + s) == Core(s)
  {
    var once := Erase(s, "const ");
    EraseAfter(" ", s, "const ");
    EraseAfter(" ", once, "volatile ");
    EraseShort(" ", "const ");
    EraseShort(" ", "volatile ");
    TrimFront(Erase(once, "volatile "));
  }

  lemma {:induction false} TrimFront(s: string)
    ensures Trim(" " + s) == Trim(s)
  {
    var t := " " + s;
    assert t[1..] == s && Run(t, IsSpace) == 1 + Run(s, IsSpace);
    EndBehind(s);
    assert forall i, j :: 0 <= i <= j <= |s| ==> t[i + 1..j + 1] == s[i..j];
  }

  lemma {:induction false} EndBehind(s: string)
    ensures End(s, IsSpace) > 0 ==> End(" " + s, IsSpace) == 1 + End(s, IsSpace)
    ensures End(s, IsSpace) == 0 ==> End(" " + s, IsSpace) <= 1
    decreases |s|
  {
    var t := " " + s;
    if s != "" && IsSpace(s[|s| - 1]) {
      EndBehind(s[..|s| - 1]);
      assert t[..|t| - 1] == " " + s[..|s| - 1];
    }
  }

  /** A spelling that ends in a bracket is an array, whatever stands in front. */
  lemma {:induction false} ArrayComposes(spelling: string)
    requires EndsWith(spelling, ']')
    ensures Classify(spelling) == Shape(Composes, 4)
  {
    StripKeepsEnd(spelling, ']');
  }

  lemma {:induction false} WithoutComma(s: string, depth: int, cur: string)
    requires ',' !in s
    ensures SplitFrom(s, depth, cur) == if Trim(cur + s) != "" then [Trim(cur + s)] else []
    decreases |s|
  {
    if s == "" {
      assert cur + s == cur;
    } else {
      WithoutComma(s[1..], depth + (if s[0] == '<' then 1 else if s[0] == '>' then -1 else 0), cur + [s[0]]);
      assert cur + [s[0]] + s[1..] == cur + s;
    }
  }

  /** Of a template that does not end where the text does, as in `std::vector<T>::iterator`, all that is left is the value. */
  lemma {:induction false} UnclosedValue(prefix: string, rest: string)
    requires Bare(rest, IsSpace) && !EndsWith(rest, '>') && ',' !in rest
    ensures WrapperValueType(prefix + rest, prefix) == rest
  {
    assert (prefix + rest)[|prefix|..] == rest;
    StripIsBare(rest, IsSpace);
    WithoutComma(rest, 0, "");
    assert "" + rest == rest;
  }

  // ---- Substituting a template parameter -------------------------------------------------

  function Substituted(t: CxxType, param: string, bound: string): CxxType {
    match t
    case Named(lead, name, suffixes) => Named(lead, if name == param then bound else name, suffixes)
    case Wrapped(lead, wrapper, args) => Wrapped(lead, wrapper, SubstitutedArgs(args, param, bound))
  }

  function SubstitutedArgs(args: Args, param: string, bound: string): Args {
    match args
    case Last(value) => Last(Substituted(value, param, bound))
    case More(key, rest) => More(Substituted(key, param, bound), SubstitutedArgs(rest, param, bound))
  }

  lemma {:induction false} SubstitutedIsType(t: CxxType, param: string, bound: string)
    requires IsType(t) && Plain(bound) && bound != ""
    ensures IsType(Substituted(t, param, bound)) && ReadShape(Substituted(t, param, bound)) == ReadShape(t)
  {
    if t.Wrapped? {
      SubstitutedAreTypes(t.args, param, bound);
    }
  }

  lemma {:induction false} SubstitutedAreTypes(args: Args, param: string, bound: string)
    requires AreTypes(args) && Plain(bound) && bound != ""
    ensures AreTypes(SubstitutedArgs(args, param, bound))
    ensures ReadShape(ValueOf(SubstitutedArgs(args, param, bound))) == ReadShape(ValueOf(args))
  {
    match args
    case Last(value) => SubstitutedIsType(value, param, bound);
    case More(key, rest) =>
      SubstitutedIsType(key, param, bound);
      SubstitutedAreTypes(rest, param, bound);
  }

  /** Binding a template parameter never changes the classification of a member's type. */
  lemma {:induction false} SubstitutionKeepsShape(t: CxxType, param: string, bound: string)
    requires IsType(t) && Plain(bound) && bound != ""
    ensures Classify(Spell(Substituted(t, param, bound))) == Classify(Spell(t))
  {
    SubstitutedIsType(t, param, bound);
    ClassifyReadsShape(t);
    ClassifyReadsShape(Substituted(t, param, bound));
  }

  // ---- The peeled core -------------------------------------------------------------------

  lemma {:induction false} DropOneSuffix(name: string, ss: seq<Suffix>)
    requires IsType(Named([], name, ss)) && ss != [] && !EndsQualified(ss)
    ensures HasSuffix(name + SpellSuffixes(ss))
    ensures DropSuffix(name + SpellSuffixes(ss)) == name + SpellSuffixes(ss[..|ss| - 1])
  {
    var last := ss[|ss| - 1];
    var front := name + SpellSuffixes(ss[..|ss| - 1]);
    Reassociate(name, SpellSuffixes(ss[..|ss| - 1]), SpellSuffix(last));
    FrontIsBare(name, ss);
    assert IsSuffix(last);
    CutMark(front, last);
  }

  /** Whatever is before the last suffix starts and ends without a blank. */
  lemma {:induction false} FrontIsBare(name: string, ss: seq<Suffix>)
    requires IsType(Named([], name, ss)) && ss != []
    ensures var front := name + SpellSuffixes(ss[..|ss| - 1]);
            Bare(front, IsSpace) && (front == "" ==> !ss[|ss| - 1].spaced)
  {
    if name == "" && |ss| == 1 {
      assert ss[..0] == [] && "" + "" == "";
    } else {
      NamedEnds(name, ss[..|ss| - 1]);
    }
  }

  lemma {:induction false} CutMark(front: string, s: Suffix)
    requires IsMark(s.mark) && s.quals == [] && Bare(front, IsSpace) && (front == "" ==> !s.spaced)
    ensures HasSuffix(front + SpellSuffix(s)) && DropSuffix(front + SpellSuffix(s)) == front
  {
    var cut := if s.spaced then front + " " else front;
    NoWords(s);
    Reassociate(front, " ", SpellMark(s.mark));
    assert front + SpellSuffix(s) == cut + SpellMark(s.mark);
    TrimTail(front, s.spaced);
    if s.mark.Dim? {
      CutDim(cut, s.mark.digits);
    } else {
      CutChar(cut, SpellMark(s.mark)[0]);
    }
  }

  lemma {:induction false} NoWords(s: Suffix)
    requires s.quals == []
    ensures SpellSuffix(s) == if s.spaced then " " + SpellMark(s.mark) else SpellMark(s.mark)
  {
  }

  lemma {:induction false} CutChar(cut: string, c: char)
    requires c == '*' || c == '&'
    ensures HasSuffix(cut + [c]) && DropSuffix(cut + [c]) == Trim(cut)
  {
    var text := cut + [c];
    assert text[..|text| - 1] == cut;
  }

  lemma {:induction false} CutDim(cut: string, digits: string)
    requires forall i :: 0 <= i < |digits| ==> IsDigit(digits[i])
    ensures HasSuffix(cut + ("[" + digits + "]")) && DropSuffix(cut + ("[" + digits + "]")) == Trim(cut)
  {
    CutAtBracket(cut, digits);
  }

  lemma {:induction false} TrimTail(front: string, spaced: bool)
    requires Bare(front, IsSpace) && (front == "" ==> !spaced)
    ensures Trim(if spaced then front + " " else front) == front
  {
    StripIsBare(front, IsSpace);
    if spaced {
      var t := front + " ";
      RunIs(t, IsSpace, 0);
      EndIs(t, IsSpace, |front|);
    }
  }

  lemma {:induction false} CutAtBracket(a: string, digits: string)
    requires '[' !in digits
    ensures BeforeLast(a + ("[" + digits + "]"), '[') == a
  {
    var s := a + ("[" + digits + "]");
    var front := s[..|s| - 1];
    assert front == a + ("[" + digits) && front[|a|] == '[';
    CutInside(a, digits);
  }

  lemma {:induction false} CutInside(a: string, digits: string)
    requires '[' !in digits
    ensures BeforeLast(a + ("[" + digits), '[') == a
    decreases |digits|
  {
    var s := a + ("[" + digits);
    if digits == "" {
      assert s[..|s| - 1] == a;
    } else {
      var front := digits[..|digits| - 1];
      assert s[..|s| - 1] == a + ("[" + front) && s[..|s| - 1][|a|] == '[' && s[|s| - 1] in digits;
      CutInside(a, front);
    }
  }

  /** The suffixes up to the last qualified one: dropping from the end stops at it. */
  function Kept(ss: seq<Suffix>): (r: seq<Suffix>)
    ensures r <= ss
  {
    if ss == [] || EndsQualified(ss) then ss else Kept(ss[..|ss| - 1])
  }

  lemma {:induction false} NoneDropped(name: string, ss: seq<Suffix>)
    requires IsType(Named([], name, ss)) && (ss == [] || EndsQualified(ss))
    ensures !HasSuffix(name + SpellSuffixes(ss))
  {
    NamedEnds(name, ss);
  }

  lemma {:induction false} DropAllSuffixes(name: string, ss: seq<Suffix>)
    requires IsType(Named([], name, ss))
    ensures DropSuffixes(name + SpellSuffixes(ss)) == name + SpellSuffixes(Kept(ss))
    decreases |ss|
  {
    if ss == [] || EndsQualified(ss) {
      NoneDropped(name, ss);
    } else {
      var front := ss[..|ss| - 1];
      DropOneSuffix(name, ss);
      assert DropSuffixes(name + SpellSuffixes(ss)) == DropSuffixes(name + SpellSuffixes(front));
      if name == "" && front == [] {
        assert name + SpellSuffixes(front) == "" && DropSuffixes("") == "";
      } else {
        FrontIsType(name, ss);
        DropAllSuffixes(name, front);
      }
    }
  }

  lemma {:induction false} FrontIsType(name: string, ss: seq<Suffix>)
    requires IsType(Named([], name, ss)) && ss != [] && (name != "" || |ss| > 1)
    ensures IsType(Named([], name, ss[..|ss| - 1]))
  {
  }

  // ---- What is left to erase after erasing -------------------------------------------------

  /** Qualifiers are left only where no blank follows, and at most one in a place. */
  predicate Settled(ss: seq<Suffix>) {
    ss != [] ==> (ss[0].quals != [] ==> |ss[0].quals| == 1 && !Spaced(ss[1..])) && Settled(ss[1..])
  }

  lemma {:induction false} SettledQuals(quals: seq<Qual>, w: Qual, blank: bool)
    requires quals != [] ==> |quals| == 1 && !blank
    ensures ErasedQuals(quals, w, blank) == quals
  {
    if quals != [] {
      assert quals[..0] == [] && [] + [quals[0]] == [quals[0]] && quals == [quals[0]];
      assert Others(quals[..0], w) == [];
    }
  }

  lemma {:induction false} SettledStays(ss: seq<Suffix>, w: Qual)
    requires Settled(ss)
    ensures ErasedSuffixes(ss, w) == ss
    decreases |ss|
  {
    if ss != [] {
      SettledStays(ss[1..], w);
      SettledQuals(ss[0].quals, w, Spaced(ss[1..]));
      assert ErasedSuffixes(ss, w) == [ss[0]] + ss[1..];
      assert ss == [ss[0]] + ss[1..];
    }
  }

  lemma {:induction false} SettledFront(ss: seq<Suffix>)
    requires Settled(ss) && ss != []
    ensures Settled(ss[..|ss| - 1])
    decreases |ss|
  {
    if |ss| > 1 {
      SettledFront(ss[1..]);
      assert ss[..|ss| - 1][1..] == ss[1..][..|ss| - 2];
    }
  }

  lemma {:induction false} KeptIsSettled(ss: seq<Suffix>)
    requires Settled(ss)
    ensures Settled(Kept(ss))
    decreases |ss|
  {
    if ss != [] && !EndsQualified(ss) {
      SettledFront(ss);
      KeptIsSettled(ss[..|ss| - 1]);
    }
  }

  function NormalSuffixes(ss: seq<Suffix>): seq<Suffix> {
    ErasedSuffixes(ErasedSuffixes(ss, Const), Volatile)
  }

  lemma {:induction false} NormalIsSettled(ss: seq<Suffix>)
    ensures Settled(NormalSuffixes(ss))
    decreases |ss|
  {
    if ss != [] {
      var tail := NormalTail(ss);
      NormalIsSettled(tail);
    }
  }

  /** Both passes over the first suffix: it settles, and the rest goes on with or without its first blank. */
  lemma {:induction false} NormalTail(ss: seq<Suffix>) returns (tail: seq<Suffix>)
    requires ss != []
    ensures |tail| == |ss| - 1 && NormalSuffixes(ss)[1..] == NormalSuffixes(tail)
    ensures var quals := NormalSuffixes(ss)[0].quals; quals != [] ==> |quals| == 1 && !Spaced(NormalSuffixes(tail))
  {
    var quals, rest := ss[0].quals, ss[1..];
    var once := ErasedQuals(quals, Const, Spaced(rest));
    var mid := if quals != [] && once == [] then Tight(rest) else rest;
    var twice := ErasedQuals(once, Volatile, Spaced(mid));
    ErasedTight(mid, Const);
    tail := if once != [] && twice == [] then Tight(mid) else mid;
    ErasedTight(tail, Const);
    ErasedTight(ErasedSuffixes(tail, Const), Volatile);
    TwiceErased(quals, Spaced(rest));
  }

  lemma {:induction false} TwiceErased(quals: seq<Qual>, blank: bool)
    ensures blank ==> ErasedQuals(ErasedQuals(quals, Const, true), Volatile, true) == []
    ensures |ErasedQuals(ErasedQuals(quals, Const, false), Volatile, false)| <= 1
  {
    NoLeadLeft(quals);
    if quals != [] {
      var front := quals[..|quals| - 1];
      var once := ErasedQuals(quals, Const, false);
      NoLeadLeft(front);
      assert once[..|once| - 1] == Others(front, Const);
    }
  }

  function NormalArgs(args: Args): Args {
    ErasedArgs(ErasedArgs(args, Const), Volatile)
  }

  /** A name as it is once both qualifiers were erased around it. */
  predicate IsNormal(t: CxxType) {
    t.Named? && t.lead == [] && Settled(t.suffixes) && !Swallowed(t, Const) && !Swallowed(t, Volatile)
  }

  lemma {:induction false} NormalStays(t: CxxType)
    requires IsNormal(t)
    ensures Normal(t) == t
  {
    SettledStays(t.suffixes, Const);
    SettledStays(t.suffixes, Volatile);
  }

  /** After erasing, a blank is left before the first suffix only if there was one and no name was swallowed. */
  lemma {:induction false} ErasedNamed(t: CxxType, w: Qual)
    requires t.Named?
    ensures var r := Erased(t, w);
            && r.Named? && r.lead == Others(t.lead, w)
            && (Spaced(r.suffixes) <==> Spaced(t.suffixes) && !Swallowed(t, w))
            && (r.name == t.name <==> !Swallowed(t, w)) && |r.name| <= |t.name|
            && r.suffixes == ErasedSuffixes(if Swallowed(t, w) then Tight(t.suffixes) else t.suffixes, w)
  {
    ErasedTight(t.suffixes, w);
  }

  lemma {:induction false} NormalName(t: CxxType)
    requires t.Named?
    ensures Normal(t).Named? && Normal(t).lead == Others(Others(t.lead, Const), Volatile)
    ensures Normal(t).name == t.name <==> !Swallowed(t, Const) && !Swallowed(t, Volatile)
  {
    ErasedNamed(t, Const);
    ErasedNamed(Erased(t, Const), Volatile);
  }

  lemma {:induction false} NamedNormal(t: CxxType)
    requires t.Named?
    ensures IsNormal(Normal(t))
    ensures Normal(t).name == t.name <==> !Swallowed(t, Const) && !Swallowed(t, Volatile)
  {
    NormalName(t);
    NoLeadLeft(t.lead);
    var ss := NormalSuffixesOf(t);
    NormalIsSettled(ss);
  }

  lemma {:induction false} NormalSuffixesOf(t: CxxType) returns (ss: seq<Suffix>)
    requires t.Named?
    ensures Normal(t).Named? && Normal(t).suffixes == NormalSuffixes(ss) && (ss == t.suffixes || ss == Tight(t.suffixes))
  {
    var once := Erased(t, Const);
    ErasedNamed(t, Const);
    ErasedNamed(once, Volatile);
    ss := if Swallowed(t, Const) || Swallowed(once, Volatile) then Tight(t.suffixes) else t.suffixes;
    ErasedTight(t.suffixes, Const);
  }

  /** Nothing is erased twice: a swallowed name has lost the blank that made it one. */
  lemma {:induction false} NormalIsStable(t: CxxType)
    ensures Normal(Normal(t)) == Normal(t)
  {
    if t.Wrapped? {
      NormalArgsAreStable(t.args);
      NoLeadLeft(t.lead);
    } else {
      NamedNormal(t);
      NormalStays(Normal(t));
    }
  }

  lemma {:induction false} NormalArgsAreStable(args: Args)
    ensures NormalArgs(NormalArgs(args)) == NormalArgs(args)
  {
    match args
    case Last(value) => NormalIsStable(value);
    case More(key, rest) =>
      NormalIsStable(key);
      NormalArgsAreStable(rest);
  }

  lemma {:induction false} NormalOfValue(args: Args)
    ensures ValueOf(NormalArgs(args)) == Normal(ValueOf(args))
  {
    if args.More? {
      NormalOfValue(args.rest);
    }
  }

  lemma {:induction false} WrapperKnown(s: string, wrapper: string, rest: string)
    requires s == wrapper + rest && IsTemplateName(wrapper)
    ensures FindPrefix(s, WRAPPERS) == if wrapper in WRAPPERS then Some(wrapper) else None
  {
    TemplateNameOpens(wrapper);
    AllOpen();
    FoundIsWrapper(wrapper, rest, WRAPPERS);
  }

  lemma {:induction false} PlainIsItsCore(name: string)
    requires Plain(name)
    ensures StripQualifiers(name) == name && FindPrefix(name, WRAPPERS) == None
  {
    PlainHasNoSpace(name);
    EraseNothing(name, "const ");
    EraseNothing(name, "volatile ");
    StripIsBare(name, IsSpace);
    PlainIsFlat(name);
    AllOpen();
    NoneFound(name, WRAPPERS);
  }

  lemma {:induction false} PlainHasNoSpace(name: string)
    requires Plain(name)
    ensures ' ' !in name && Bare(name, IsSpace)
  {
    assert forall k :: 0 <= k < |name| ==> PlainChar(name[k]);
  }

  /** What is left of a peeled type: a plain name, a pointer whose qualifier stops the dropping, or an unknown template. */
  function CoreText(t: CxxType): string {
    if t.Named? then t.name + SpellSuffixes(Kept(t.suffixes)) else Spell(t)
  }

  lemma {:induction false} CoreOfNamed(spelling: string, t: CxxType)
    requires IsType(t) && IsNormal(t) && StripQualifiers(spelling) == Spell(t)
    ensures Core(spelling) == CoreText(t)
  {
    Unled(t);
    DropAllSuffixes(t.name, t.suffixes);
    if Kept(t.suffixes) == [] {
      PlainIsItsCore(t.name);
      assert t.name + "" == t.name;
    } else {
      KeptIsItsCore(t);
    }
  }

  lemma {:induction false} KeptIsItsCore(t: CxxType)
    requires IsType(t) && IsNormal(t) && Kept(t.suffixes) != []
    ensures StripQualifiers(CoreText(t)) == CoreText(t) && FindPrefix(CoreText(t), WRAPPERS) == None
  {
    var k := Named([], t.name, Kept(t.suffixes));
    KeptIsSettled(t.suffixes);
    NormalStays(k);
    assert forall s :: s in k.suffixes ==> s in t.suffixes;
    QualifiersStripToNormal(k);
    Unled(k);
    NamedIsNoWrapper(k);
  }

  lemma {:induction false} NamedIsNoWrapper(t: CxxType)
    requires IsType(t) && t.Named?
    ensures FindPrefix(Spell(t), WRAPPERS) == None
  {
    NamedIsFlat(t);
    AllOpen();
    NoneFound(Spell(t), WRAPPERS);
  }

  lemma {:induction false} CoreOfWrapped(spelling: string, t: CxxType)
    requires IsType(t) && t.Wrapped? && t.lead == [] && StripQualifiers(spelling) == Spell(t) && Normal(t) == t
    ensures Core(spelling) == if t.wrapper in WRAPPERS then Core(Spell(ValueOf(t.args))) else Spell(t)
  {
    SpellEnds(t);
    Unled(t);
    QualifiersStripToNormal(t);
    CoreOfText(spelling, t.wrapper, SpellArgs(t.args) + ">");
    if t.wrapper in WRAPPERS {
      ValueOfWrapper(t);
    }
  }

  lemma {:induction false} CoreOfText(spelling: string, wrapper: string, rest: string)
    requires IsTemplateName(wrapper) && EndsWith(rest, '>')
    requires StripQualifiers(spelling) == wrapper + rest && StripQualifiers(wrapper + rest) == wrapper + rest
    ensures Core(spelling) == if wrapper in WRAPPERS then Core(WrapperValueType(wrapper + rest, wrapper)) else wrapper + rest
  {
    var s := wrapper + rest;
    assert LastChar(s) == '>';
    assert DropSuffixes(s) == s;
    WrapperKnown(s, wrapper, rest);
  }

  /** The peeled core of a spelling is the core of the tree with its qualifiers erased. */
  lemma {:induction false} CoreReadsPeeled(t: CxxType)
    requires IsType(t)
    ensures Core(Spell(t)) == CoreText(Peeled(Normal(t)))
    decreases Depth(t)
  {
    var u := Normal(t);
    QualifiersStripToNormal(t);
    if u.Named? {
      NamedNormal(t);
      CoreOfNamed(Spell(t), u);
    } else {
      NormalIsStable(t);
      CoreOfWrapped(Spell(t), u);
      if u.wrapper in WRAPPERS {
        var v := ValueOf(u.args);
        ValueIsType(u.args);
        CoreReadsPeeled(v);
        NormalOfValue(u.args);
      }
    }
  }

  lemma {:induction false} PeeledOfNormal(t: CxxType)
    ensures Peeled(Normal(t)) == Normal(Peeled(t))
  {
    if t.Wrapped? && t.wrapper in WRAPPERS {
      NormalOfValue(t.args);
      PeeledOfNormal(ValueOf(t.args));
    }
  }

  /** Some pointer's qualifiers have no blank after them. */
  predicate Blocked(ss: seq<Suffix>) {
    ss != [] && ((ss[0].quals != [] && !Spaced(ss[1..])) || Blocked(ss[1..]))
  }

  lemma {:induction false} BlockedTight(ss: seq<Suffix>)
    ensures Blocked(Tight(ss)) == Blocked(ss)
  {
    if ss != [] {
      assert Tight(ss)[1..] == ss[1..];
    }
  }

  lemma {:induction false} BlockedStays(ss: seq<Suffix>, w: Qual)
    ensures Blocked(ErasedSuffixes(ss, w)) == Blocked(ss)
    decreases |ss|
  {
    if ss != [] {
      var quals := ErasedQuals(ss[0].quals, w, Spaced(ss[1..]));
      var rest := if ss[0].quals != [] && quals == [] then Tight(ss[1..]) else ss[1..];
      BlockedStays(rest, w);
      BlockedTight(ss[1..]);
      ErasedTight(rest, w);
      assert ErasedSuffixes(ss, w)[1..] == ErasedSuffixes(rest, w);
    }
  }

  lemma {:induction false} KeptIffBlocked(ss: seq<Suffix>)
    requires Settled(ss)
    ensures Kept(ss) != [] <==> Blocked(ss)
    decreases |ss|
  {
    if ss != [] {
      SettledFront(ss);
      KeptIffBlocked(ss[..|ss| - 1]);
      BlockedSnoc(ss);
    }
  }

  lemma {:induction false} BlockedSnoc(ss: seq<Suffix>)
    requires Settled(ss) && ss != []
    ensures Blocked(ss) <==> EndsQualified(ss) || Blocked(ss[..|ss| - 1])
    decreases |ss|
  {
    if |ss| > 1 {
      BlockedSnoc(ss[1..]);
      assert ss[..|ss| - 1][1..] == ss[1..][..|ss| - 2];
    }
  }

  lemma {:induction false} KeptOfNormal(t: CxxType)
    requires t.Named?
    ensures Kept(Normal(t).suffixes) != [] <==> Blocked(t.suffixes)
  {
    NamedNormal(t);
    KeptIffBlocked(Normal(t).suffixes);
    var ss := NormalSuffixesOf(t);
    BlockedTight(t.suffixes);
    BlockedStays(ss, Const);
    BlockedStays(ErasedSuffixes(ss, Const), Volatile);
  }

  /** A kept suffix has a mark, and so is not part of any name. */
  lemma {:induction false} KeptIsNoName(name: string, ss: seq<Suffix>, other: string)
    requires ss != [] && AreSuffixes(ss) && Plain(other)
    ensures name + SpellSuffixes(ss) != other
  {
    HeadThenWords(ss);
    assert IsSuffix(ss[0]);
    MarkHasNoBlank(ss[0].mark);
    Unplain(name, Head(ss[0]), AfterMark(ss));
  }

  lemma {:induction false} Unplain(a: string, b: string, c: string)
    requires b != "" && !PlainChar(LastChar(b))
    ensures !Plain(a + (b + c))
  {
    assert (a + (b + c))[|a| + |b| - 1] == LastChar(b);
  }

  /**
   The innermost name is found exactly when it does not end in a qualifier right before a
   blank, and every qualifier after a pointer has a blank after it.
   */
  lemma {:induction false} CoreIsNameIff(t: CxxType)
    requires IsType(t) && Peeled(t).Named?
    ensures var p := Peeled(t);
            Core(Spell(t)) == p.name <==> !Swallowed(p, Const) && !Swallowed(p, Volatile) && !Blocked(p.suffixes)
  {
    CoreReadsPeeled(t);
    PeeledOfNormal(t);
    PeeledIsType(t);
    var p := Peeled(t);
    var n := Normal(p);
    NamedNormal(p);
    KeptOfNormal(p);
    QualifiersStripToNormal(p);
    if Kept(n.suffixes) == [] {
      assert n.name + "" == n.name;
    } else {
      assert forall s :: s in Kept(n.suffixes) ==> s in n.suffixes;
      KeptIsNoName(n.name, Kept(n.suffixes), p.name);
    }
  }

  lemma {:induction false} PeeledIsType(t: CxxType)
    requires IsType(t)
    ensures IsType(Peeled(t))
    decreases Depth(t)
  {
    if t.Wrapped? && t.wrapper in WRAPPERS {
      ValueIsType(t.args);
      PeeledIsType(ValueOf(t.args));
    }
  }

  lemma {:induction false} SpellPointer(name: string, quals: seq<Qual>)
    ensures Spell(Named([], name, [Suffix(true, Star, quals)])) == name + (" *" + Words(quals))
  {
    var s := Suffix(true, Star, quals);
    OnlySuffix(s);
    Unled(Named([], name, [s]));
    assert " " + "*" == " *" && SpellSuffix(s) == " *" + Words(quals);
  }

  lemma {:induction false} OnlySuffix(s: Suffix)
    ensures SpellSuffixes([s]) == SpellSuffix(s)
  {
    assert [s][..0] == [] && "" + SpellSuffix(s) == SpellSuffix(s);
  }

  /** The end of a name is taken for a qualifier: behind a pointer `fooconst` is looked up as `foo`. */
  lemma {:induction false} NameTakenForQualifier(base: string, w: Qual)
    requires Plain(base)
    ensures Core((base + Word(w)) + " *") != base + Word(w)
  {
    var t := Named([], base + Word(w), [Suffix(true, Star, [])]);
    PointerSwallows(base, w);
    CoreIsNameIff(t);
  }

  lemma {:induction false} PointerSwallows(base: string, w: Qual)
    requires Plain(base)
    ensures var t := Named([], base + Word(w), [Suffix(true, Star, [])]);
            IsType(t) && Swallowed(t, w) && Spell(t) == base + Word(w) + " *"
  {
    var name := base + Word(w);
    assert name[|name| - |Word(w)|..] == Word(w);
    SpellPointer(name, []);
    assert " *" + "" == " *";
    WordIsPlain(w);
  }

  lemma {:induction false} WordIsPlain(w: Qual)
    ensures Plain(Word(w)) && Word(w) != ""
  {
  }

  // ---- A pointer to a wrapper ------------------------------------------------------------

  /** The shape the classifier gives a pointer or reference to a single template. */
  function PointerShape(wrapper: string, qualified: bool): Shape {
    if wrapper in UNIQUE_PTR + OPTIONAL then Shape(Composes, 2)
    else if wrapper in SHARED_PTR then Shape(Aggregates, 2)
    else if wrapper !in WEAK_PTR && qualified then Shape(Composes, 1)
    else Shape(Associates, 2)
  }

  /** A pointer or reference, as its last suffix says. */
  predicate PointsTo(ss: seq<Suffix>) {
    AreSuffixes(ss) && ss != [] && !LastMark(ss).Dim?
  }

  lemma {:induction false} PointerEnds(ss: seq<Suffix>)
    requires PointsTo(ss)
    ensures var s := SpellSuffixes(ss);
            && s != "" && !EndsWith(s, ']') && !IsSpace(LastChar(s))
            && (EndsWith(s, '*') || EndsWith(s, '&') <==> !EndsQualified(ss))
  {
    SuffixesEnd(ss);
  }

  lemma {:induction false} ClassifySinglePointer(wrapper: string, rest: string, qualified: bool)
    requires IsTemplateName(wrapper) && rest != "" && (EndsWith(rest, '*') || EndsWith(rest, '&') <==> !qualified)
    ensures ClassifySingle(wrapper + rest) == PointerShape(wrapper, qualified)
  {
    WrapperFound(wrapper, rest);
    assert LastChar(wrapper + rest) == LastChar(rest);
  }

  lemma {:induction false} WeakIsOnlyWeak(p: string)
    requires p in WEAK_PTR
    ensures p !in CONTAINERS && p !in UNIQUE_PTR + OPTIONAL && p !in SHARED_PTR
  {
  }

  lemma {:induction false} KnownWrappers(p: string)
    ensures p in WRAPPERS <==> p in UNIQUE_PTR + OPTIONAL || p in SHARED_PTR || p in WEAK_PTR || p in CONTAINERS
  {
    assert p in UNIQUE_PTR + OPTIONAL <==> p in UNIQUE_PTR || p in OPTIONAL;
  }

  /**
   A raw pointer or reference should associate. One to a template the classifier knows does
   so exactly when the template is a `weak_ptr`, which is seen before the suffix is; any
   other does so exactly when no qualifier follows its last mark.
   */
  lemma {:induction false} PointerAssociatesIff(t: CxxType, ss: seq<Suffix>)
    requires IsType(t) && (t.Named? ==> t.suffixes == []) && PointsTo(ss)
    ensures Classify(Spell(t) + SpellSuffixes(ss)) == Shape(Associates, 2)
       <==> if t.Wrapped? && t.wrapper in WRAPPERS then t.wrapper in WEAK_PTR else !EndsQualified(ss)
  {
    if t.Named? {
      var p := Named(t.lead, t.name, ss);
      assert t.name + "" == t.name;
      Reassociate(Lead(t.lead), t.name, SpellSuffixes(ss));
      ClassifyReadsShape(p);
    } else {
      ClassifyPointer(t, ss);
      KnownWrappers(t.wrapper);
      if t.wrapper in WEAK_PTR {
        WeakIsOnlyWeak(t.wrapper);
      }
    }
  }

  lemma {:induction false} ClassifyPointer(t: CxxType, ss: seq<Suffix>)
    requires IsType(t) && t.Wrapped? && PointsTo(ss)
    ensures var shape := Classify(Spell(t) + SpellSuffixes(ss));
            if t.wrapper in CONTAINERS then shape.multiplicity == 3
            else shape == PointerShape(t.wrapper, EndsQualified(ss))
  {
    var u, tail := Normal(t), NormalSuffixes(ss);
    SuffixedIsStripped(t, ss);
    Unled(u);
    var rest := (SpellArgs(u.args) + ">") + SpellSuffixes(tail);
    Reassociate(u.wrapper, SpellArgs(u.args) + ">", SpellSuffixes(tail));
    PointerRest(SpellArgs(u.args) + ">", tail);
    ClassifyStripped(Spell(t) + SpellSuffixes(ss), u.wrapper, rest, EndsQualified(tail));
  }

  lemma {:induction false} PointerRest(args: string, ss: seq<Suffix>)
    requires PointsTo(ss)
    ensures var s := args + SpellSuffixes(ss);
            s != "" && !EndsWith(s, ']') && (EndsWith(s, '*') || EndsWith(s, '&') <==> !EndsQualified(ss))
  {
    PointerEnds(ss);
    assert LastChar(args + SpellSuffixes(ss)) == LastChar(SpellSuffixes(ss));
  }

  lemma {:induction false} ClassifyStripped(spelling: string, wrapper: string, rest: string, qualified: bool)
    requires IsTemplateName(wrapper) && StripQualifiers(spelling) == wrapper + rest && rest != "" && !EndsWith(rest, ']')
    requires EndsWith(rest, '*') || EndsWith(rest, '&') <==> !qualified
    ensures var shape := Classify(spelling);
            if wrapper in CONTAINERS then shape.multiplicity == 3 else shape == PointerShape(wrapper, qualified)
  {
    WrapperFound(wrapper, rest);
    ClassifySinglePointer(wrapper, rest, qualified);
    assert LastChar(wrapper + rest) == LastChar(rest);
  }

  lemma {:induction false} SuffixedIsStripped(t: CxxType, ss: seq<Suffix>)
    requires IsType(t) && t.Wrapped? && PointsTo(ss)
    ensures StripQualifiers(Spell(t) + SpellSuffixes(ss)) == Spell(Normal(t)) + SpellSuffixes(NormalSuffixes(ss))
    ensures IsType(Normal(t)) && Normal(t).lead == []
    ensures PointsTo(NormalSuffixes(ss)) && EndsQualified(NormalSuffixes(ss)) == EndsQualified(ss)
  {
    var once, tail := Erased(t, Const), ErasedSuffixes(ss, Const);
    ErasedKeepsSuffixes(t, ss, Const);
    ErasedKeepsSuffixes(once, tail, Volatile);
    NoLeadLeft(t.lead);
    SuffixedEnds(Normal(t), NormalSuffixes(ss));
    StripsTo(Spell(t) + SpellSuffixes(ss), Spell(once) + SpellSuffixes(tail), Spell(Normal(t)) + SpellSuffixes(NormalSuffixes(ss)));
  }

  lemma {:induction false} SuffixedEnds(t: CxxType, ss: seq<Suffix>)
    requires IsType(t) && PointsTo(ss)
    ensures var s := Spell(t) + SpellSuffixes(ss); s != "" && !IsSpace(s[0]) && !IsSpace(LastChar(s))
  {
    SpellEnds(t);
    PointerEnds(ss);
  }

  lemma {:induction false} ErasedKeepsSuffixes(t: CxxType, ss: seq<Suffix>, w: Qual)
    requires IsType(t) && t.Wrapped? && PointsTo(ss)
    ensures Erase(Spell(t) + SpellSuffixes(ss), Word(w) + " ") == Spell(Erased(t, w)) + SpellSuffixes(ErasedSuffixes(ss, w))
    ensures IsType(Erased(t, w)) && Erased(t, w).Wrapped?
    ensures PointsTo(ErasedSuffixes(ss, w)) && EndsQualified(ErasedSuffixes(ss, w)) == EndsQualified(ss)
  {
    SpellEnds(t);
    EraseAfterBracket(Spell(t), SpellSuffixes(ss), w);
    EraseType(t, w);
    EraseSuffixes(ss, w);
    ErasedIsType(t, w);
    ErasedKeepsMarks(ss, w);
  }

  lemma {:induction false} EraseAfterBracket(a: string, b: string, w: Qual)
    requires EndsWith(a, '>')
    ensures Erase(a + b, Word(w) + " ") == Erase(a, Word(w) + " ") + Erase(b, Word(w) + " ")
  {
    SeparatorsNotIn(w, '>');
    EraseAfter(a, b, Word(w) + " ");
  }

  /** A constant pointer is taken for a value the object owns. */
  lemma {:induction false} QualifiedPointerComposes()
    ensures Classify("Foo *const") == Shape(Composes, 1)
    ensures ShapeOf(CONST_PTR) == Shape(Associates, 2)
  {
    ConstPointerSpelled();
    ClassifyReadsShape(CONST_PTR);
  }

  const CONST_PTR: CxxType := Named([], "Foo", [Suffix(true, Star, [Const])])

  lemma {:induction false} ConstPointerSpelled()
    ensures Spell(CONST_PTR) == "Foo *const"
  {
    SpellPointer("Foo", [Const]);
    assert Words([Const]) == "const" by {
      assert [Const][..0] == [];
    }
    assert " *" + "const" == " *const";
    assert "Foo" + " *const" == "Foo *const";
  }

  // ---- Function pointers ---------------------------------------------------------------------

  lemma {:induction false} EraseKeepsEnd(s: string, q: string, c: char)
    requires EndsWith(s, c) && q != "" && c !in q
    ensures EndsWith(Erase(s, q), c)
  {
    assert s == s[..|s| - 1] + [c];
    EraseBefore(s[..|s| - 1], [c], q);
    EraseNothing([c], q);
  }

  lemma {:induction false} StripKeepsEnd(s: string, c: char)
    requires EndsWith(s, c) && (c == ')' || c == ']')
    ensures EndsWith(StripQualifiers(s), c)
  {
    EraseKeepsEnd(s, "const ", c);
    EraseKeepsEnd(Erase(s, "const "), "volatile ", c);
    EndIs(Erase(Erase(s, "const "), "volatile "), IsSpace, |Erase(Erase(s, "const "), "volatile ")|);
  }

  /** A spelling that ends in a parenthesis associates for a weak pointer in front, and for nothing else: no final mark is seen. */
  lemma {:induction false} ParenthesisedAssociatesIff(spelling: string)
    requires EndsWith(spelling, ')') && FindPrefix(StripQualifiers(spelling), CONTAINERS).None?
    ensures var s := StripQualifiers(spelling);
            Classify(spelling).relation == Associates
            <==> FindPrefix(s, UNIQUE_PTR + OPTIONAL).None? && FindPrefix(s, SHARED_PTR).None? && FindPrefix(s, WEAK_PTR).Some?
  {
    StripKeepsEnd(spelling, ')');
  }

  /** So the pointer in a function pointer is not seen: it is taken for a value the object owns. */
  lemma {:induction false} FunctionPointerComposes(spelling: string)
    requires EndsWith(spelling, ')') && Flat(StripQualifiers(spelling))
    ensures Classify(spelling) == Shape(Composes, 1)
  {
    StripKeepsEnd(spelling, ')');
    ClassifyFlat(spelling, StripQualifiers(spelling));
  }

  /** `void (*)(int)` for a result and one parameter of any plain names. */
  function Callback(result: string, param: string): string {
    (result + " ") + ("(*)(" + param + ")")
  }

  lemma {:induction false} CallbackComposes(result: string, param: string)
    requires Plain(result) && Plain(param) && result != ""
    requires forall w :: AtBlank(result, Word(w)) == result + " "
    ensures Classify(Callback(result, param)) == Shape(Composes, 1)
  {
    var s := Callback(result, param);
    CallbackEnds(result, param);
    CallbackKeeps(result, param, Const);
    CallbackKeeps(result, param, Volatile);
    StripsTo(s, s, s);
    FunctionPointerComposes(s);
  }

  lemma {:induction false} CallbackEnds(result: string, param: string)
    requires Plain(result) && Plain(param) && result != ""
    ensures var s := Callback(result, param); s != "" && !IsSpace(s[0]) && EndsWith(s, ')') && Flat(s)
  {
    var s := Callback(result, param);
    assert s[0] == result[0] && s[|s| - 1] == ')';
    forall k | 0 <= k < |s| ensures s[k] !in "<>," {
      if k < |result| {
        assert s[k] == result[k];
      } else if |result| + 5 <= k < |s| - 1 {
        assert s[k] == param[k - |result| - 5];
      }
    }
  }

  lemma {:induction false} CallbackKeeps(result: string, param: string, w: Qual)
    requires Plain(result) && Plain(param) && AtBlank(result, Word(w)) == result + " "
    ensures Erase(Callback(result, param), Word(w) + " ") == Callback(result, param)
  {
    var q, rest := Word(w) + " ", "(*)(" + param + ")";
    PlainHasNoBlank(result);
    PlainHasNoBlank(param);
    WordsAreLetters(w);
    EraseAtBlank(result, Word(w));
    EraseNothing(rest, q);
    EraseBefore(result + " ", rest, q);
  }
}
