/**
 Type sets and argument provenance: the lattice and the source-resolution rules of
 `_GammaEngine` (project/indexer/model.py). USRs are opaque identities; an absent
 or empty USR column is `None`.
 */
module Provenance {
  import opened Options

  type Usr = int

  /** `TOP` is the unknown receiver type; otherwise a finite set of class USRs. */
  datatype TypeSet = Top | Types(classes: set<Usr>)

  function Join(a: TypeSet, b: TypeSet): TypeSet {
    if a.Top? || b.Top? then Top else Types(a.classes + b.classes)
  }

  /** b admits every class a admits. */
  predicate Below(a: TypeSet, b: TypeSet) {
    b.Top? || (a.Types? && a.classes <= b.classes)
  }

  /** A receiver of this class is among those the type set stands for. */
  predicate Admits(ts: TypeSet, class_: Usr) {
    Below(Types({class_}), ts)
  }

  /** A key within one callable's environment: a parameter position, or a declaration or type USR. */
  datatype Slot = Pos(index: nat) | Decl(usr: Usr)

  datatype Key = Key(ctx: Usr, slot: Slot)

  type Gamma = map<Key, TypeSet>

  function Lookup(gamma: Gamma, k: Key): Option<TypeSet> {
    if k in gamma then Some(gamma[k]) else None
  }

  /** `_join`: union into a key, never removing a class and never leaving TOP. */
  function JoinAt(gamma: Gamma, k: Key, ts: TypeSet): Gamma {
    gamma[k := Join(if k in gamma then gamma[k] else Types({}), ts)]
  }

  datatype SrcKind = Local | This | Construct | Member | Global | CallResult | Literal | Unknown

  datatype CallArg = CallArg(position: nat, srcKind: SrcKind, typeUsr: Option<Usr>, declUsr: Option<Usr>,
                             isValue: bool)

  function FromDecl(gamma: Gamma, ctx: Usr, declUsr: Option<Usr>): TypeSet {
    if declUsr.None? then Top
    else
      var bound := Lookup(gamma, Key(ctx, Decl(declUsr.value)));
      if bound.Some? then bound.value else Top
  }

  /** `_resolve_source`: the type set of one argument, read in its caller's environment. */
  function ResolveSource(gamma: Gamma, ctx: Usr, a: CallArg): TypeSet {
    match a.srcKind
    case Literal => Top
    case Unknown => Top
    case Construct => if a.typeUsr.Some? then Types({a.typeUsr.value}) else Top
    case CallResult => if a.isValue && a.typeUsr.Some? then Types({a.typeUsr.value}) else Top
    case _ =>
      if a.isValue && a.typeUsr.Some? then Types({a.typeUsr.value}) else FromDecl(gamma, ctx, a.declUsr)
  }

  /** The entry of u's parameter i is there and admits the class. */
  predicate EntryAdmits(gamma: Gamma, u: Usr, i: nat, class_: Usr) {
    Key(u, Pos(i)) in gamma && Admits(gamma[Key(u, Pos(i))], class_)
  }

  /** Every binding of `before` is still there in `after`, with no class lost and TOP kept. */
  ghost predicate Grows(before: Gamma, after: Gamma) {
    forall k :: k in before ==> k in after && Below(before[k], after[k])
  }

  lemma {:induction false} JoinAtGrows(gamma: Gamma, k: Key, ts: TypeSet)
    ensures Grows(gamma, JoinAt(gamma, k, ts))
    ensures k in JoinAt(gamma, k, ts) && Below(ts, JoinAt(gamma, k, ts)[k])
  {
  }

  lemma {:induction false} GrowsTrans(a: Gamma, b: Gamma, c: Gamma)
    requires Grows(a, b) && Grows(b, c)
    ensures Grows(a, c)
  {
  }
}
