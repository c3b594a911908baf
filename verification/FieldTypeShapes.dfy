/**
 * Types as trees and their spelling, with `const` and `volatile` in front of a type or after a
 * pointer, and what erasing a qualifier from a spelling does to the type.
 */
module FieldTypeShapes {
  import opened FieldTypes
  import opened Options
  import opened Text

  // ---- Types and their spelling ----------------------------------------------------------

  datatype Qual = Const | Volatile

  datatype Mark = Star | Amp | Dim(digits: string)

  /** A pointer, reference or array suffix, with or without a blank before it, and the qualifiers right after it. */
  datatype Suffix = Suffix(spaced: bool, mark: Mark, quals: seq<Qual>)

  /** A name or a template, behind any number of qualifiers. */
  datatype CxxType =
    | Named(lead: seq<Qual>, name: string, suffixes: seq<Suffix>)
    | Wrapped(lead: seq<Qual>, wrapper: string, args: Args)

  /** Template arguments: any number of keys, then the value. */
  datatype Args = Last(value: CxxType) | More(key: CxxType, rest: Args)

  function Word(q: Qual): string {
    if q == Const then "const" else "volatile"
  }

  /** Qualifiers, each with a blank after it. */
  function Lead(qs: seq<Qual>): string {
    if qs == [] then "" else (Word(qs[0]) + " ") + Lead(qs[1..])
  }

  /** Qualifiers with blanks between them. */
  function Words(qs: seq<Qual>): string {
    if qs == [] then "" else Lead(qs[..|qs| - 1]) + Word(qs[|qs| - 1])
  }

  function SpellMark(m: Mark): string {
    match m
    case Star => "*"
    case Amp => "&"
    case Dim(digits) => "[" + digits + "]"
  }

  function SpellSuffix(s: Suffix): string {
    (if s.spaced then " " + SpellMark(s.mark) else SpellMark(s.mark)) + Words(s.quals)
  }

  function SpellSuffixes(ss: seq<Suffix>): string {
    if ss == [] then "" else SpellSuffixes(ss[..|ss| - 1]) + SpellSuffix(ss[|ss| - 1])
  }

  function Spell(t: CxxType): string {
    match t
    case Named(lead, name, suffixes) => Lead(lead) + (name + SpellSuffixes(suffixes))
    case Wrapped(lead, wrapper, args) => Lead(lead) + (wrapper + (SpellArgs(args) + ">"))
  }

  function SpellArgs(args: Args): string {
    match args
    case Last(value) => Spell(value)
    case More(key, rest) => Spell(key) + (", " + SpellArgs(rest))
  }

  // ---- What the classifier should say ----------------------------------------------------

  predicate PlainChar(c: char) {
    c !in "<>,*&[]" && !IsSpace(c)
  }

  predicate Plain(s: string) {
    forall k :: 0 <= k < |s| ==> PlainChar(s[k])
  }

  predicate IsMark(m: Mark) {
    m.Dim? ==> forall i :: 0 <= i < |m.digits| ==> IsDigit(m.digits[i])
  }

  /** Only a pointer has qualifiers of its own. */
  predicate IsSuffix(s: Suffix) {
    IsMark(s.mark) && (s.quals != [] ==> s.mark == Star)
  }

  predicate AreSuffixes(ss: seq<Suffix>) {
    forall s :: s in ss ==> IsSuffix(s)
  }

  /** A template's name with its opening bracket. */
  predicate IsTemplateName(p: string) {
    p != "" && p[|p| - 1] == '<' && Plain(p[..|p| - 1])
  }

  /** A type as the roll-up meets it; a name may be empty only when a suffix follows directly. */
  predicate IsType(t: CxxType) {
    match t
    case Named(_, name, suffixes) =>
      Plain(name) && AreSuffixes(suffixes) && (name == "" ==> suffixes != [] && !suffixes[0].spaced)
    case Wrapped(_, wrapper, args) => IsTemplateName(wrapper) && AreTypes(args)
  }

  predicate AreTypes(args: Args) {
    match args
    case Last(value) => IsType(value)
    case More(key, rest) => IsType(key) && AreTypes(rest)
  }

  function ValueOf(args: Args): (v: CxxType)
    ensures v < args
  {
    if args.Last? then args.value else ValueOf(args.rest)
  }

  /** The kind and multiplicity a type has. */
  function ShapeOf(t: CxxType): Shape {
    match t
    case Named(_, _, suffixes) =>
      if suffixes == [] then Shape(Composes, 1)
      else if suffixes[|suffixes| - 1].mark.Dim? then Shape(Composes, 4)
      else Shape(Associates, 2)
    case Wrapped(_, wrapper, args) =>
      if wrapper in CONTAINERS then Shape(ShapeOf(ValueOf(args)).relation, 3)
      else SingleShape(wrapper)
  }

  /** The last suffix has a qualifier of its own, so that the spelling does not end in the suffix. */
  predicate EndsQualified(ss: seq<Suffix>) {
    ss != [] && ss[|ss| - 1].quals != []
  }

  /** A qualified pointer, or a container of them. */
  predicate HoldsQualified(t: CxxType) {
    match t
    case Named(_, _, suffixes) => EndsQualified(suffixes)
    case Wrapped(_, wrapper, args) => wrapper in CONTAINERS && HoldsQualified(ValueOf(args))
  }

  /** What the classifier makes of it: a qualified pointer is taken for a value. */
  function ReadShape(t: CxxType): Shape {
    match t
    case Named(_, _, suffixes) => if EndsQualified(suffixes) then Shape(Composes, 1) else ShapeOf(t)
    case Wrapped(_, wrapper, args) =>
      if wrapper in CONTAINERS then Shape(ReadShape(ValueOf(args)).relation, 3) else SingleShape(wrapper)
  }

  /** The shape of a single value in the given wrapper; an unknown template is a value like any other. */
  function SingleShape(wrapper: string): Shape {
    if wrapper in UNIQUE_PTR + OPTIONAL then Shape(Composes, 2)
    else if wrapper in SHARED_PTR then Shape(Aggregates, 2)
    else if wrapper in WEAK_PTR then Shape(Associates, 2)
    else Shape(Composes, 1)
  }

  /** How many wrappers enclose the innermost value. */
  function Depth(t: CxxType): nat {
    if t.Wrapped? then 1 + Depth(ValueOf(t.args)) else 0
  }

  /** What is left once the wrappers the roll-up knows are peeled, along their last arguments. */
  function Peeled(t: CxxType): CxxType {
    if t.Wrapped? && t.wrapper in WRAPPERS then Peeled(ValueOf(t.args)) else t
  }

  // ---- What erasing a qualifier does to a type -------------------------------------------

  function Others(qs: seq<Qual>, w: Qual): seq<Qual> {
    if qs == [] then [] else if qs[0] == w then Others(qs[1..], w) else [qs[0]] + Others(qs[1..], w)
  }

  /** The qualifiers left after a mark; without a blank after them the last one stays. */
  function ErasedQuals(qs: seq<Qual>, w: Qual, blank: bool): seq<Qual> {
    if qs == [] || blank then Others(qs, w) else Others(qs[..|qs| - 1], w) + [qs[|qs| - 1]]
  }

  function Tight(ss: seq<Suffix>): seq<Suffix> {
    if ss == [] then [] else [ss[0].(spaced := false)] + ss[1..]
  }

  predicate Spaced(ss: seq<Suffix>) {
    ss != [] && ss[0].spaced
  }

  /** A blank goes with the last qualifier before it. */
  function ErasedSuffixes(ss: seq<Suffix>, w: Qual): (r: seq<Suffix>)
    ensures |r| == |ss|
    decreases |ss|
  {
    if ss == [] then []
    else
      var quals := ErasedQuals(ss[0].quals, w, Spaced(ss[1..]));
      var rest := if ss[0].quals != [] && quals == [] then Tight(ss[1..]) else ss[1..];
      [ss[0].(quals := quals)] + ErasedSuffixes(rest, w)
  }

  /** `w` and the blank after it vanish where the name before a spaced suffix ends in `w`. */
  predicate Swallowed(t: CxxType, w: Qual) {
    t.Named? && Spaced(t.suffixes) && |Word(w)| <= |t.name| && t.name[|t.name| - |Word(w)|..] == Word(w)
  }

  function Erased(t: CxxType, w: Qual): CxxType {
    match t
    case Named(lead, name, suffixes) =>
      if Swallowed(t, w) then Named(Others(lead, w), name[..|name| - |Word(w)|], ErasedSuffixes(Tight(suffixes), w))
      else Named(Others(lead, w), name, ErasedSuffixes(suffixes, w))
    case Wrapped(lead, wrapper, args) => Wrapped(Others(lead, w), wrapper, ErasedArgs(args, w))
  }

  function ErasedArgs(args: Args, w: Qual): Args {
    match args
    case Last(value) => Last(Erased(value, w))
    case More(key, rest) => More(Erased(key, w), ErasedArgs(rest, w))
  }

  function Normal(t: CxxType): CxxType {
    Erased(Erased(t, Const), Volatile)
  }

  // ---- `replace` on concatenations -------------------------------------------------------

  lemma {:induction false} Mismatch(q: string, s: string, k: nat)
    requires k < |q| && k < |s| && q[k] != s[k]
    ensures !(q <= s)
  {
  }

  lemma {:induction false} NoMatchOver(a: string, b: string, q: string)
    requires |a| < |q| && b != "" && b[0] !in q
    ensures !(q <= a + b)
  {
    assert q[|a|] in q && (a + b)[|a|] == b[0];
  }

  /** Nothing matches across a seam whose right side starts with a character outside `q`. */
  lemma {:induction false} EraseBefore(a: string, b: string, q: string)
    requires q != "" && (b == "" || b[0] !in q)
    ensures Erase(a + b, q) == Erase(a, q) + Erase(b, q)
    decreases |a|
  {
    if a == "" {
      assert a + b == b;
    } else if b == "" {
      assert a + b == a;
    } else {
      if |a| < |q| {
        NoMatchOver(a, b, q);
      }
      EraseSeam(a, b, q);
      var rest := if q <= a then a[|q|..] else a[1..];
      EraseBefore(rest, b, q);
    }
  }

  /** Nothing matches across a seam whose left side ends in a character `q` has not before its end. */
  lemma {:induction false} EraseAfter(a: string, b: string, q: string)
    requires q != "" && (a == "" || a[|a| - 1] !in q[..|q| - 1])
    ensures Erase(a + b, q) == Erase(a, q) + Erase(b, q)
    decreases |a|
  {
    if a == "" {
      assert a + b == b;
    } else {
      NoMatchPast(a, b, q);
      EraseSeam(a, b, q);
      var rest := if q <= a then a[|q|..] else a[1..];
      assert rest != "" ==> rest[|rest| - 1] == a[|a| - 1];
      EraseAfter(rest, b, q);
    }
  }

  lemma {:induction false} NoMatchPast(a: string, b: string, q: string)
    requires a != "" && q != "" && a[|a| - 1] !in q[..|q| - 1]
    ensures |a| < |q| ==> !(q <= a + b)
  {
    if |a| < |q| {
      assert q[|a| - 1] in q[..|q| - 1];
      Mismatch(q, a + b, |a| - 1);
    }
  }

  /** One turn of `replace` at the front of a concatenation with no match across the seam. */
  lemma {:induction false} EraseSeam(a: string, b: string, q: string)
    requires q != "" && a != "" && (|a| < |q| ==> !(q <= a + b))
    ensures Erase(a + b, q) == if q <= a then Erase(a[|q|..] + b, q) else [a[0]] + Erase(a[1..] + b, q)
  {
    if q <= a {
      assert (a + b)[|q|..] == a[|q|..] + b;
    } else {
      if |q| <= |a| {
        assert (a + b)[..|q|] == a[..|q|];
      }
      assert (a + b)[1..] == a[1..] + b;
    }
  }

  lemma {:induction false} EraseNothing(a: string, q: string)
    requires q != "" && q[|q| - 1] !in a
    ensures Erase(a, q) == a
  {
    if a != "" {
      EraseNothing(a[1..], q);
    }
  }

  lemma {:induction false} FirstDifference(a: string, b: string) returns (k: nat)
    requires |a| == |b| && a != b
    ensures k < |a| && a[k] != b[k]
  {
    k :| k < |a| && a[k] != b[k];
  }

  /** What `replace` of `w` and a blank leaves of `a` and a blank. */
  function AtBlank(a: string, w: string): string {
    if |w| <= |a| && a[|a| - |w|..] == w then a[..|a| - |w|] else a + " "
  }

  /** A blank with no `w` right before it stays; a `w` right before the only blank goes with it. */
  lemma {:induction false} EraseAtBlank(a: string, w: string)
    requires ' ' !in a && ' ' !in w
    ensures Erase(a + " ", w + " ") == AtBlank(a, w)
  {
    if |a| < |w| {
      EraseShort(a + " ", w + " ");
    } else if |a| == |w| {
      EraseSameLength(a, w);
    } else {
      EraseLonger(a, w);
      EraseAtBlank(a[1..], w);
      AtBlankLater(a, w);
    }
  }

  lemma {:induction false} AtBlankLater(a: string, w: string)
    requires |w| < |a|
    ensures AtBlank(a, w) == [a[0]] + AtBlank(a[1..], w)
  {
    assert a[1..][|a| - 1 - |w|..] == a[|a| - |w|..];
  }

  lemma {:induction false} EraseLonger(a: string, w: string)
    requires ' ' !in w && ' ' !in a && |w| < |a|
    ensures Erase(a + " ", w + " ") == [a[0]] + Erase(a[1..] + " ", w + " ")
  {
    Mismatch(w + " ", a + " ", |w|);
    assert (a + " ")[1..] == a[1..] + " ";
  }

  lemma {:induction false} EraseSameLength(a: string, w: string)
    requires ' ' !in a && ' ' !in w && |a| == |w|
    ensures Erase(a + " ", w + " ") == AtBlank(a, w)
  {
    var q, s := w + " ", a + " ";
    assert a[|a| - |w|..] == a;
    if a == w {
      assert q <= s && s[|q|..] == "";
    } else {
      var k := FirstDifference(a, w);
      Mismatch(q, s, k);
      assert s[1..] == a[1..] + " ";
      EraseShort(s[1..], q);
    }
  }

  lemma {:induction false} EraseShort(s: string, q: string)
    requires |s| < |q|
    ensures Erase(s, q) == s
  {
    if s != "" {
      EraseShort(s[1..], q);
    }
  }

  // ---- A qualifier erased from a spelling is erased from the type ------------------------

  lemma {:induction false} SeparatorsNotIn(w: Qual, c: char)
    requires c in "<>,*&[]"
    ensures c !in Word(w) + " "
  {
  }

  lemma {:induction false} MarkHasNoBlank(m: Mark)
    requires IsMark(m)
    ensures SpellMark(m) != "" && SpellMark(m)[0] in "*&[" && ' ' !in SpellMark(m)
    ensures SpellMark(m)[|SpellMark(m)| - 1] in "*&]"
  {
  }

  lemma {:induction false} WordsAreLetters(q: Qual)
    ensures Word(q) != "" && ' ' !in Word(q) && Plain(Word(q))
  {
  }

  /** A word and its blank go when it is the word erased, and stay when it is the other. */
  lemma {:induction false} EraseWord(v: Qual, w: Qual)
    ensures Erase(Word(v) + " ", Word(w) + " ") == if v == w then "" else Word(v) + " "
  {
    WordsAreLetters(v);
    WordsAreLetters(w);
    EraseAtBlank(Word(v), Word(w));
    if v == w {
      assert Word(v)[0..] == Word(v);
    } else if v == Volatile {
      assert Word(v)[3..][0] != Word(w)[0];
    }
  }

  lemma {:induction false} EraseLead(qs: seq<Qual>, b: string, w: Qual)
    ensures Erase(Lead(qs) + b, Word(w) + " ") == Lead(Others(qs, w)) + Erase(b, Word(w) + " ")
  {
    var q := Word(w) + " ";
    if qs == [] {
      assert "" + b == b && "" + Erase(b, q) == Erase(b, q);
    } else {
      var word, rest := Word(qs[0]) + " ", Lead(qs[1..]);
      WordsAreLetters(w);
      assert q[..|q| - 1] == Word(w);
      Reassociate(word, rest, b);
      EraseAfter(word, rest + b, q);
      EraseWord(qs[0], w);
      EraseLead(qs[1..], b, w);
      LeadCons(qs, w, Erase(b, q));
    }
  }

  lemma {:induction false} LeadCons(qs: seq<Qual>, w: Qual, b: string)
    requires qs != []
    ensures Lead(Others(qs, w)) + b
         == (if qs[0] == w then "" else Word(qs[0]) + " ") + (Lead(Others(qs[1..], w)) + b)
  {
    if qs[0] != w {
      assert Others(qs, w)[1..] == Others(qs[1..], w);
      Reassociate(Word(qs[0]) + " ", Lead(Others(qs[1..], w)), b);
    }
  }

  lemma {:induction false} LeadSnoc(qs: seq<Qual>)
    requires qs != []
    ensures Lead(qs) == Words(qs) + " "
  {
    var last := Word(qs[|qs| - 1]);
    if |qs| == 1 {
      assert qs[1..] == [] && qs[..0] == [] && (last + " ") + "" == "" + last + " ";
    } else {
      LeadSnoc(qs[1..]);
      assert qs[1..][|qs| - 2] == qs[|qs| - 1] && qs[1..][..|qs| - 2] == qs[..|qs| - 1][1..];
      Reassociate(Word(qs[0]) + " ", Lead(qs[..|qs| - 1][1..]), last);
      Reassociate(Word(qs[0]) + " ", Words(qs[1..]), " ");
    }
  }

  // ---- Suffixes and the qualifiers after them --------------------------------------------

  lemma {:induction false} SuffixesFront(ss: seq<Suffix>)
    requires ss != []
    ensures SpellSuffixes(ss) == SpellSuffix(ss[0]) + SpellSuffixes(ss[1..])
  {
    if |ss| > 1 {
      var front, last := ss[..|ss| - 1], ss[|ss| - 1];
      SuffixesFront(front);
      assert ss[1..][..|ss| - 2] == front[1..] && ss[1..][|ss| - 2] == last;
      Reassociate(SpellSuffix(ss[0]), SpellSuffixes(front[1..]), SpellSuffix(last));
    } else {
      assert SpellSuffixes(ss[..0]) == "" && ss[1..] == [];
    }
  }

  lemma {:induction false} TightFront(ss: seq<Suffix>)
    requires Spaced(ss)
    ensures SpellSuffixes(ss) == " " + SpellSuffixes(Tight(ss))
  {
    SuffixesFront(ss);
    SuffixesFront(Tight(ss));
    assert Tight(ss)[1..] == ss[1..];
    var mark, words := SpellMark(ss[0].mark), Words(ss[0].quals);
    Reassociate(" ", mark, words);
    Reassociate(" ", mark + words, SpellSuffixes(ss[1..]));
  }

  /** The text of the suffixes from right after the first mark. */
  function AfterMark(ss: seq<Suffix>): string
    requires ss != []
  {
    Words(ss[0].quals) + SpellSuffixes(ss[1..])
  }

  function Head(s: Suffix): string {
    if s.spaced then " " + SpellMark(s.mark) else SpellMark(s.mark)
  }

  lemma {:induction false} HeadThenWords(ss: seq<Suffix>)
    requires ss != []
    ensures SpellSuffixes(ss) == Head(ss[0]) + AfterMark(ss)
  {
    SuffixesFront(ss);
    Reassociate(Head(ss[0]), Words(ss[0].quals), SpellSuffixes(ss[1..]));
  }

  /** Nothing is erased up to and across a mark: blanks come before marks, words after them. */
  lemma {:induction false} EraseHead(s: Suffix, b: string, w: Qual)
    requires IsMark(s.mark)
    ensures Erase(Head(s) + b, Word(w) + " ") == Head(s) + Erase(b, Word(w) + " ")
  {
    var q, mark := Word(w) + " ", SpellMark(s.mark);
    MarkHasNoBlank(s.mark);
    SeparatorsNotIn(w, mark[|mark| - 1]);
    EraseNothing(mark, q);
    if s.spaced {
      SeparatorsNotIn(w, mark[0]);
      EraseBefore(" ", mark, q);
      WordsAreLetters(w);
      EraseShort(" ", q);
    }
    EraseAfter(Head(s), b, q);
  }

  lemma {:induction false} TightStartsWithMark(ss: seq<Suffix>)
    requires AreSuffixes(ss) && ss != [] && !ss[0].spaced
    ensures SpellSuffixes(ss) != "" && SpellSuffixes(ss)[0] in "*&["
  {
    HeadThenWords(ss);
    assert IsSuffix(ss[0]);
    MarkHasNoBlank(ss[0].mark);
  }

  /** A plain word is left alone by what can follow it without a blank. */
  lemma {:induction false} EraseUpToMark(a: string, ss: seq<Suffix>, w: Qual)
    requires ' ' !in a && AreSuffixes(ss) && !Spaced(ss)
    ensures Erase(a + SpellSuffixes(ss), Word(w) + " ") == a + Erase(SpellSuffixes(ss), Word(w) + " ")
  {
    var q, tail := Word(w) + " ", SpellSuffixes(ss);
    if ss != [] {
      TightStartsWithMark(ss);
      SeparatorsNotIn(w, tail[0]);
    }
    EraseBefore(a, tail, q);
    EraseNothing(a, q);
  }

  /** Erasing does not look at the blank before the first suffix. */
  lemma {:induction false} ErasedTight(ss: seq<Suffix>, w: Qual)
    ensures ErasedSuffixes(Tight(ss), w) == Tight(ErasedSuffixes(ss, w))
    ensures Spaced(ErasedSuffixes(ss, w)) == Spaced(ss)
  {
    if ss != [] {
      assert Tight(ss)[1..] == ss[1..];
    }
  }

  lemma {:induction false} TightAreSuffixes(ss: seq<Suffix>)
    requires AreSuffixes(ss)
    ensures AreSuffixes(Tight(ss))
  {
    if ss != [] {
      assert IsSuffix(ss[0]);
    }
  }

  lemma {:induction false} EraseSuffixes(ss: seq<Suffix>, w: Qual)
    requires AreSuffixes(ss)
    ensures Erase(SpellSuffixes(ss), Word(w) + " ") == SpellSuffixes(ErasedSuffixes(ss, w))
    decreases |ss|
  {
    if ss != [] {
      assert IsSuffix(ss[0]);
      HeadThenWords(ss);
      EraseHead(ss[0], AfterMark(ss), w);
      EraseAfterMark(ss, w);
      var r := ErasedSuffixes(ss, w);
      HeadThenWords(r);
      assert Head(r[0]) == Head(ss[0]);
    }
  }

  lemma {:induction false} EraseAfterMark(ss: seq<Suffix>, w: Qual)
    requires AreSuffixes(ss) && ss != []
    ensures Erase(AfterMark(ss), Word(w) + " ") == AfterMark(ErasedSuffixes(ss, w))
    decreases |ss|, 0
  {
    var quals, rest := ss[0].quals, ss[1..];
    var r := ErasedSuffixes(ss, w);
    if quals == [] {
      EraseSuffixes(rest, w);
      assert "" + SpellSuffixes(rest) == SpellSuffixes(rest);
      assert r[1..] == ErasedSuffixes(rest, w) && r[0].quals == [];
    } else if Spaced(rest) {
      TightAreSuffixes(rest);
      EraseSuffixes(Tight(rest), w);
      EraseBlankWords(quals, rest, w);
    } else {
      EraseSuffixes(rest, w);
      EraseTightWords(quals, rest, w);
      assert r[1..] == ErasedSuffixes(rest, w);
    }
  }

  /** Qualifiers with a blank after them are erased like leading ones. */
  lemma {:induction false} EraseBlankWords(quals: seq<Qual>, rest: seq<Suffix>, w: Qual)
    requires quals != [] && AreSuffixes(rest) && Spaced(rest)
    requires Erase(SpellSuffixes(Tight(rest)), Word(w) + " ") == SpellSuffixes(ErasedSuffixes(Tight(rest), w))
    ensures Erase(Words(quals) + SpellSuffixes(rest), Word(w) + " ")
         == Words(Others(quals, w)) + SpellSuffixes(ErasedSuffixes(if Others(quals, w) == [] then Tight(rest) else rest, w))
  {
    var tight, left := SpellSuffixes(Tight(rest)), Others(quals, w);
    TightFront(rest);
    LeadSnoc(quals);
    Reassociate(Words(quals), " ", tight);
    EraseLead(quals, tight, w);
    if left != [] {
      LeadSnoc(left);
      ErasedTight(rest, w);
      TightFront(ErasedSuffixes(rest, w));
      Reassociate(Words(left), " ", SpellSuffixes(Tight(ErasedSuffixes(rest, w))));
    }
  }

  /** Without a blank after them the last of the qualifiers stays. */
  lemma {:induction false} EraseTightWords(quals: seq<Qual>, rest: seq<Suffix>, w: Qual)
    requires quals != [] && AreSuffixes(rest) && !Spaced(rest)
    requires Erase(SpellSuffixes(rest), Word(w) + " ") == SpellSuffixes(ErasedSuffixes(rest, w))
    ensures Erase(Words(quals) + SpellSuffixes(rest), Word(w) + " ")
         == Words(ErasedQuals(quals, w, false)) + SpellSuffixes(ErasedSuffixes(rest, w))
  {
    var front, last := quals[..|quals| - 1], Word(quals[|quals| - 1]);
    var kept := ErasedQuals(quals, w, false);
    Reassociate(Lead(front), last, SpellSuffixes(rest));
    EraseLead(front, last + SpellSuffixes(rest), w);
    WordsAreLetters(quals[|quals| - 1]);
    EraseUpToMark(last, rest, w);
    assert kept[..|kept| - 1] == Others(front, w);
    Reassociate(Lead(Others(front, w)), last, SpellSuffixes(ErasedSuffixes(rest, w)));
  }

  // ---- Names, templates and whole types --------------------------------------------------

  lemma {:induction false} EraseSpacedName(name: string, ss: seq<Suffix>, w: Qual)
    requires Plain(name) && AreSuffixes(ss) && Spaced(ss)
    ensures Erase(name + SpellSuffixes(ss), Word(w) + " ")
         == if Swallowed(Named([], name, ss), w)
            then name[..|name| - |Word(w)|] + SpellSuffixes(ErasedSuffixes(Tight(ss), w))
            else name + SpellSuffixes(ErasedSuffixes(ss, w))
  {
    var q, tight := Word(w) + " ", SpellSuffixes(Tight(ss));
    TightFront(ss);
    TightAreSuffixes(ss);
    TightStartsWithMark(Tight(ss));
    SeparatorsNotIn(w, tight[0]);
    Reassociate(name, " ", tight);
    EraseBefore(name + " ", tight, q);
    WordsAreLetters(w);
    PlainHasNoBlank(name);
    EraseAtBlank(name, Word(w));
    EraseSuffixes(Tight(ss), w);
    ErasedTight(ss, w);
    TightFront(ErasedSuffixes(ss, w));
    Reassociate(name, " ", SpellSuffixes(Tight(ErasedSuffixes(ss, w))));
  }

  lemma {:induction false} PlainHasNoBlank(name: string)
    requires Plain(name)
    ensures ' ' !in name
  {
    assert forall k :: 0 <= k < |name| ==> PlainChar(name[k]);
  }

  /** The text after the leading qualifiers, once `w` is erased. */
  function ErasedBody(name: string, ss: seq<Suffix>, w: Qual): string {
    var r := Erased(Named([], name, ss), w);
    r.name + SpellSuffixes(r.suffixes)
  }

  lemma {:induction false} EraseName(name: string, ss: seq<Suffix>, w: Qual)
    requires Plain(name) && AreSuffixes(ss)
    ensures Erase(name + SpellSuffixes(ss), Word(w) + " ") == ErasedBody(name, ss, w)
  {
    if Spaced(ss) {
      EraseSpacedName(name, ss, w);
    } else {
      PlainHasNoBlank(name);
      EraseUpToMark(name, ss, w);
      EraseSuffixes(ss, w);
    }
  }

  lemma {:induction false} EraseType(t: CxxType, w: Qual)
    requires IsType(t)
    ensures Erase(Spell(t), Word(w) + " ") == Spell(Erased(t, w))
  {
    match t
    case Named(lead, name, suffixes) => EraseNamed(lead, name, suffixes, w);
    case Wrapped(lead, wrapper, args) =>
      EraseArgs(args, w);
      EraseLead(lead, wrapper + (SpellArgs(args) + ">"), w);
      EraseBracketed(wrapper, SpellArgs(args), w);
  }

  lemma {:induction false} EraseNamed(lead: seq<Qual>, name: string, ss: seq<Suffix>, w: Qual)
    requires Plain(name) && AreSuffixes(ss)
    ensures Erase(Spell(Named(lead, name, ss)), Word(w) + " ") == Spell(Erased(Named(lead, name, ss), w))
  {
    EraseLead(lead, name + SpellSuffixes(ss), w);
    EraseName(name, ss, w);
    ErasedIsBody(lead, name, ss, w);
  }

  lemma {:induction false} ErasedIsBody(lead: seq<Qual>, name: string, ss: seq<Suffix>, w: Qual)
    ensures var r := Erased(Named(lead, name, ss), w);
            r == Named(Others(lead, w), r.name, r.suffixes) && r.name + SpellSuffixes(r.suffixes) == ErasedBody(name, ss, w)
  {
    var t, u := Named(lead, name, ss), Named([], name, ss);
    assert Swallowed(t, w) == Swallowed(u, w);
    var r := Erased(u, w);
    assert Erased(t, w) == Named(Others(lead, w), r.name, r.suffixes);
  }

  lemma {:induction false} EraseBracketed(wrapper: string, inner: string, w: Qual)
    requires IsTemplateName(wrapper)
    ensures Erase(wrapper + (inner + ">"), Word(w) + " ") == wrapper + (Erase(inner, Word(w) + " ") + ">")
  {
    var q := Word(w) + " ";
    WordsAreLetters(w);
    TemplateNameHasNoBlank(wrapper);
    SeparatorsNotIn(w, '<');
    SeparatorsNotIn(w, '>');
    EraseNothing(wrapper, q);
    EraseNothing(">", q);
    EraseBefore(inner, ">", q);
    EraseAfter(wrapper, inner + ">", q);
  }

  lemma {:induction false} TemplateNameHasNoBlank(wrapper: string)
    requires IsTemplateName(wrapper)
    ensures ' ' !in wrapper
  {
    PlainHasNoBlank(wrapper[..|wrapper| - 1]);
    assert wrapper == wrapper[..|wrapper| - 1] + "<";
  }

  lemma {:induction false} EraseSeparated(a: string, b: string, w: Qual)
    ensures Erase(a + (", " + b), Word(w) + " ") == Erase(a, Word(w) + " ") + (", " + Erase(b, Word(w) + " "))
  {
    var q := Word(w) + " ";
    SeparatorsNotIn(w, ',');
    EraseBefore(a, ", " + b, q);
    EraseShort(", ", q);
    EraseAfter(", ", b, q);
  }

  lemma {:induction false} EraseArgs(args: Args, w: Qual)
    requires AreTypes(args)
    ensures Erase(SpellArgs(args), Word(w) + " ") == SpellArgs(ErasedArgs(args, w))
  {
    match args
    case Last(value) => EraseType(value, w);
    case More(key, rest) =>
      EraseType(key, w);
      EraseArgs(rest, w);
      EraseSeparated(Spell(key), SpellArgs(rest), w);
  }

  // ---- Erasing keeps what the classifier reads -------------------------------------------

  /** The same marks at the end, and a qualifier after the last one in both or in neither. */
  predicate SameEnds(r: seq<Suffix>, ss: seq<Suffix>) {
    && AreSuffixes(r) && |r| == |ss| && EndsQualified(r) == EndsQualified(ss)
    && (ss != [] ==> r[|r| - 1].mark == ss[|ss| - 1].mark)
  }

  /** The marks stay, and so does whether the last of them is qualified. */
  lemma {:induction false} ErasedKeepsMarks(ss: seq<Suffix>, w: Qual)
    requires AreSuffixes(ss)
    ensures SameEnds(ErasedSuffixes(ss, w), ss)
    decreases |ss|
  {
    if ss != [] {
      var quals := ErasedQuals(ss[0].quals, w, Spaced(ss[1..]));
      var rest := if ss[0].quals != [] && quals == [] then Tight(ss[1..]) else ss[1..];
      var e := ss[0].(quals := quals);
      assert IsSuffix(ss[0]) && AreSuffixes(ss[1..]);
      TightAreSuffixes(ss[1..]);
      ErasedKeepsMarks(rest, w);
      KeepsMarksCons(ss[0], ss[1..], e, ErasedSuffixes(rest, w));
      assert ErasedSuffixes(ss, w) == [e] + ErasedSuffixes(rest, w) && ss == [ss[0]] + ss[1..];
    }
  }

  lemma {:induction false} KeepsMarksCons(s: Suffix, rest: seq<Suffix>, e: Suffix, erased: seq<Suffix>)
    requires IsSuffix(e) && SameEnds(erased, rest)
    requires e.mark == s.mark && (rest == [] ==> (e.quals == [] <==> s.quals == []))
    ensures SameEnds([e] + erased, [s] + rest)
  {
  }

  /** The classifier reads of a name's suffixes only the last mark and whether a qualifier follows it. */
  lemma {:induction false} SameMarksSameShape(t: CxxType, u: CxxType)
    requires t.Named? && u.Named? && EndsQualified(t.suffixes) == EndsQualified(u.suffixes)
    requires |t.suffixes| == |u.suffixes|
    requires t.suffixes != [] ==> t.suffixes[|t.suffixes| - 1].mark == u.suffixes[|u.suffixes| - 1].mark
    ensures ReadShape(t) == ReadShape(u)
  {
  }

  lemma {:induction false} ErasedNameIsType(t: CxxType, w: Qual)
    requires IsType(t) && t.Named?
    ensures IsType(Erased(t, w)) && ReadShape(Erased(t, w)) == ReadShape(t)
  {
    TightAreSuffixes(t.suffixes);
    ErasedKeepsMarks(t.suffixes, w);
    ErasedKeepsMarks(Tight(t.suffixes), w);
    ErasedTight(t.suffixes, w);
    SameMarksSameShape(Erased(t, w), t);
  }

  lemma {:induction false} ErasedIsType(t: CxxType, w: Qual)
    requires IsType(t)
    ensures IsType(Erased(t, w)) && ReadShape(Erased(t, w)) == ReadShape(t) && Depth(Erased(t, w)) == Depth(t)
  {
    match t
    case Named(_, _, _) => ErasedNameIsType(t, w);
    case Wrapped(_, _, args) => ErasedAreTypes(args, w);
  }

  lemma {:induction false} ErasedAreTypes(args: Args, w: Qual)
    requires AreTypes(args)
    ensures AreTypes(ErasedArgs(args, w))
    ensures ReadShape(ValueOf(ErasedArgs(args, w))) == ReadShape(ValueOf(args))
    ensures Depth(ValueOf(ErasedArgs(args, w))) == Depth(ValueOf(args))
  {
    match args
    case Last(value) => ErasedIsType(value, w);
    case More(key, rest) =>
      ErasedIsType(key, w);
      ErasedAreTypes(rest, w);
  }
}
