/**
 * What the whole roll-up guarantees: the table is the group-by of the accepted facts, its
 * rows keep the endpoint rules of every relation, and the scan order does not matter.
 */
module RollupProperties {
  import opened ClassKinds
  import opened EntityFacts
  import opened EntityTable
  import opened Layer0
  import opened Options
  import opened TemplateCollapse
  import FieldTypes

  /** The table `Materialise` leaves behind. */
  function RolledUp(db: Tables): Table {
    Upserted(AllFacts(db, PHASES))
  }

  // ---- Where facts come from ---------------------------------------------------------------

  lemma {:induction false} ScanHolds(row: Edge -> seq<Fact>, edges: seq<Edge>, f: Fact)
    ensures f in Scan(row, edges) <==> exists e :: e in edges && f in row(e)
  {
    if edges != [] {
      var front, last := edges[..|edges| - 1], edges[|edges| - 1];
      ScanHolds(row, front, f);
      assert forall e :: e in edges <==> e in front || e == last;
    }
  }

  lemma {:induction false} FactOrigin(db: Tables, phases: seq<Phase>, f: Fact)
    ensures f in AllFacts(db, phases)
       <==> exists phase, e :: phase in phases && e in db.edges && f in Rows(phase, db)(e)
  {
    if phases != [] {
      var front, last := phases[..|phases| - 1], phases[|phases| - 1];
      FactOrigin(db, front, f);
      ScanHolds(Rows(last, db), db.edges, f);
      assert forall p :: p in phases <==> p in front || p == last;
    }
  }

  // ---- What a fact's key settles ---------------------------------------------------------

  predicate IsHolding(kind: EdgeKind) {
    kind == Composes || kind == Aggregates || kind == Associates
  }

  /** Multiplicity, access and partiality as the key alone determines them. */
  predicate Settled(db: Tables, f: Fact) {
    var k := f.key;
    if IsHolding(k.kind) then
      && k.via.Some? && k.via.value in db.symbols && f.isVirtual == 0 && f.partial == 0
      && f.multiplicity == FieldTypes.Classify(TypeInfoAt(db, k.via.value)).multiplicity
      && f.access == AccessOf(db.symbols[k.via.value].access)
    else
      && f.multiplicity == 1
      && (!IsInheritance(k.kind) ==> f.access == 0 && f.isVirtual == 0)
      && f.partial == PartialOf(db, k)
  }

  /** Partial: factory constructions and by-value returns, and uses of a pure method. */
  function PartialOf(db: Tables, k: Key): int {
    if k.kind == Creates then if k.form == Some(BY_VALUE_RETURN) || k.form == Some(6) then 1 else 0
    else if k.kind == Uses && k.via.Some? && k.via.value in db.symbols then
      if OrZero(db.symbols[k.via.value].isPure) != 0 then 1 else 0
    else 0
  }

  /** The endpoint rules: which sides are collapsed, and which relation a base gets. */
  predicate EndpointsRight(db: Tables, k: Key) {
    && k.src != k.dst
    && (k.kind in {Creates, Destroys, Uses, Befriends} ==>
          Primary(db, k.src) == k.src && Primary(db, k.dst) == k.dst)
    && (IsInheritance(k.kind) ==> Primary(db, k.src) == k.src)
    && (k.kind in {Specializes, Instantiates} ==> Primary(db, k.dst) == k.dst)
    && (k.kind == Implements ==> IsInterfaceIn(db.symbols, k.dst))
    && (k.kind == Generalizes ==> !IsInterfaceIn(db.symbols, k.dst))
  }

  /** The relations a phase makes; the member gone through and the form of creation are named where they belong. */
  predicate MadeBy(phase: Phase, k: Key) {
    && (k.via.Some? <==> IsHolding(k.kind) || k.kind == Uses)
    && (k.form.Some? <==> k.kind == Creates)
    && match phase
       case Inheritance => IsInheritance(k.kind)
       case Specialization => k.kind == Specializes
       case Instantiation => k.kind == Instantiates
       case FieldRelation => IsHolding(k.kind)
       case InstanceComposition => IsHolding(k.kind)
       case Construction => k.kind == Destroys || (k.kind == Creates && k.form != Some(BY_VALUE_RETURN))
       case ByValueReturn => k.kind == Creates && k.form == Some(BY_VALUE_RETURN)
       case Use => k.kind == Uses
       case Befriend => k.kind == Befriends
       case Declaration => k.kind == Declares
  }

  /** All that holds of every fact of a phase, whatever row it comes from. */
  predicate Right(db: Tables, phase: Phase, f: Fact) {
    Settled(db, f) && EndpointsRight(db, f.key) && MadeBy(phase, f.key)
  }

  lemma {:induction false} PrimaryIsPrimary(db: Tables, id: int)
    ensures Primary(db, Primary(db, id)) == Primary(db, id)
  {
    CollapseIsIdempotent(NextHops(db.edges), id);
  }

  lemma {:induction false} InheritanceRight(db: Tables, e: Edge, f: Fact)
    requires f in InheritanceFact(db, e)
    ensures Right(db, Inheritance, f)
  {
    PrimaryIsPrimary(db, e.src);
  }

  lemma {:induction false} TemplateRight(db: Tables, e: Edge, phase: Phase, f: Fact)
    requires phase == Specialization || phase == Instantiation
    requires f in FactsOf(phase, db, e)
    ensures Right(db, phase, f)
  {
    PrimaryIsPrimary(db, e.dst);
  }

  lemma {:induction false} HoldRight(db: Tables, src: int, dst: int, field: int, f: Fact)
    requires field in db.symbols && f in HoldsFact(db, src, dst, field)
    ensures Right(db, FieldRelation, f) && f.key.src == src && f.key.via == Some(field)
  {
  }

  /** A field relates the primary of its record to its referent, and goes through the field. */
  lemma {:induction false} FieldRight(db: Tables, e: Edge, f: Fact)
    requires f in FieldFact(db, e)
    ensures Right(db, FieldRelation, f) && f.key.via == Some(e.src)
    ensures e.kind == 8 && IsEntityKind(KindAt(db, e.dst)) && f.key.src == Primary(db, e.dst)
  {
    var (ref, isInstance) := Referent(db, e.src);
    HoldRight(db, Primary(db, e.dst), if isInstance then ref.value else Primary(db, ref.value), e.src, f);
  }

  /** A named instance holds what a field of its primary template refers to in it. */
  lemma {:induction false} CompositionRight(db: Tables, e: Edge, f: Fact) returns (g: Edge)
    requires f in CompositionFacts(db, e)
    ensures Right(db, InstanceComposition, f) && f.key.src == e.src
    ensures g in db.edges && g.kind == 8 && g.dst == e.dst && KindAt(db, e.dst) == CLASS_TEMPLATE && f.key.via == Some(g.src)
  {
    var row := Carrying(db, e.src, e.dst);
    ScanHolds(row, db.edges, f);
    g :| g in db.edges && f in row(g);
    HoldRight(db, e.src, InstanceReferent(db, e.src, e.dst, g.src).value, g.src, f);
  }

  lemma {:induction false} ConstructionRight(db: Tables, e: Edge, f: Fact)
    requires f in ConstructionFact(db, e)
    ensures Right(db, Construction, f)
  {
    PrimaryIsPrimary(db, Owner(db, db.edges, e.src).value);
    PrimaryIsPrimary(db, Constructed(db, e.dst).value);
  }

  lemma {:induction false} ReturnRight(db: Tables, e: Edge, f: Fact)
    requires f in ReturnFact(db, e)
    ensures Right(db, ByValueReturn, f)
  {
    PrimaryIsPrimary(db, e.dst);
    PrimaryIsPrimary(db, ResolveType(db, ReturnType(TypeInfoAt(db, e.src))).value);
  }

  lemma {:induction false} UseRight(db: Tables, e: Edge, f: Fact)
    requires f in UseFact(db, e)
    ensures Right(db, Use, f)
  {
    PrimaryIsPrimary(db, Owner(db, db.edges, e.src).value);
    PrimaryIsPrimary(db, Owner(db, db.edges, e.dst).value);
  }

  lemma {:induction false} BefriendRight(db: Tables, e: Edge, f: Fact)
    requires f in BefriendFact(db, e)
    ensures Right(db, Befriend, f)
  {
    PrimaryIsPrimary(db, e.src);
    PrimaryIsPrimary(db, e.dst);
  }

  lemma {:induction false} RowRight(phase: Phase, db: Tables, e: Edge, f: Fact)
    requires f in FactsOf(phase, db, e)
    ensures Right(db, phase, f)
  {
    match phase
    case Inheritance => InheritanceRight(db, e, f);
    case Specialization => TemplateRight(db, e, phase, f);
    case Instantiation => TemplateRight(db, e, phase, f);
    case FieldRelation => FieldRight(db, e, f);
    case InstanceComposition => var _ := CompositionRight(db, e, f);
    case Construction => ConstructionRight(db, e, f);
    case ByValueReturn => ReturnRight(db, e, f);
    case Use => UseRight(db, e, f);
    case Befriend => BefriendRight(db, e, f);
    case Declaration =>
  }

  lemma {:induction false} FactRight(db: Tables, f: Fact)
    requires f in AllFacts(db, PHASES)
    ensures Settled(db, f) && EndpointsRight(db, f.key)
  {
    FactOrigin(db, PHASES, f);
    var phase, e :| phase in PHASES && e in db.edges && f in Rows(phase, db)(e);
    RowRight(phase, db, e, f);
  }

  // ---- Phases do not meet ------------------------------------------------------------------

  /** Each field belongs to one record or template at most. */
  predicate SingleHolders(db: Tables) {
    forall e, g :: e in db.edges && g in db.edges && e.kind == 8 && g.kind == 8 && e.src == g.src ==> e.dst == g.dst
  }

  /** No two phases write the same row, so a row's count and columns are the work of one phase. */
  lemma {:induction false} PhasesAreApart(db: Tables, p: Phase, e: Edge, f: Fact, q: Phase, g: Edge, h: Fact)
    requires SingleHolders(db) && e in db.edges && g in db.edges
    requires f in FactsOf(p, db, e) && h in FactsOf(q, db, g) && f.key == h.key
    ensures p == q
  {
    RowRight(p, db, e, f);
    RowRight(q, db, g, h);
    if p == FieldRelation && q == InstanceComposition {
      HoldingsAreApart(db, e, f, g, h);
    } else if p == InstanceComposition && q == FieldRelation {
      HoldingsAreApart(db, g, h, e, f);
    }
  }

  /** A field of a record is not a field of a template, so the two holding phases do not meet either. */
  lemma {:induction false} HoldingsAreApart(db: Tables, e: Edge, f: Fact, g: Edge, h: Fact)
    requires SingleHolders(db) && e in db.edges && f in FieldFact(db, e) && h in CompositionFacts(db, g)
    ensures f.key != h.key
  {
    FieldRight(db, e, f);
    var carried := CompositionRight(db, g, h);
  }

  // ---- The table is the group-by ---------------------------------------------------------

  /** Some phase makes a fact with this key of this row. */
  ghost predicate Accepts(db: Tables, phase: Phase, e: Edge, k: Key) {
    exists f :: f in Rows(phase, db)(e) && f.key == k
  }

  /**
   * A row stands for exactly the keys some Layer-0 row is accepted under. It counts the facts
   * accepted under its key (one for inheritance and declarations), and its key settles the rest
   * but the last-written access and virtuality of an inheritance.
   */
  lemma {:induction false} RollupIsGroupBy(db: Tables, k: Key)
    ensures k in RolledUp(db) <==> exists phase, e :: phase in PHASES && e in db.edges && Accepts(db, phase, e, k)
    ensures k in RolledUp(db) ==>
              && EndpointsRight(db, k)
              && Matching(AllFacts(db, PHASES), k) != []
              && RolledUp(db)[k] == Aggregate(k, Matching(AllFacts(db, PHASES), k))
              && RolledUp(db)[k].count == if Counts(k.kind) then |Matching(AllFacts(db, PHASES), k)| else 1
  {
    var facts := AllFacts(db, PHASES);
    UpsertedIsGroupBy(facts, k);
    if k in RolledUp(db) {
      var f :| f in facts && f.key == k;
      FactOrigin(db, PHASES, f);
      var phase, e :| phase in PHASES && e in db.edges && f in Rows(phase, db)(e);
      assert Accepts(db, phase, e, k);
      FactRight(db, f);
    }
    forall phase, e | phase in PHASES && e in db.edges && Accepts(db, phase, e, k)
      ensures k in RolledUp(db)
    {
      var f :| f in Rows(phase, db)(e) && f.key == k;
      FactOrigin(db, PHASES, f);
    }
  }

  /** What the key alone settles of a row. */
  lemma {:induction false} RowIsSettled(db: Tables, k: Key)
    requires k in RolledUp(db)
    ensures Settled(db, Fact(k, RolledUp(db)[k].multiplicity, RolledUp(db)[k].access, RolledUp(db)[k].isVirtual,
                             RolledUp(db)[k].partial))
  {
    var fs := Matching(AllFacts(db, PHASES), k);
    UpsertedIsGroupBy(AllFacts(db, PHASES), k);
    assert fs[0] in fs && fs[|fs| - 1] in fs;
    forall f | f in fs
      ensures Settled(db, f)
    {
      FactRight(db, f);
    }
    MaxPartialIsMax(fs);
    var f :| f in fs && f.partial == MaxPartial(fs);
  }

  /** No class both generalizes and implements one base. */
  lemma {:induction false} NeverBothInheritances(db: Tables, a: Key, b: Key)
    requires a in RolledUp(db) && b in RolledUp(db) && a.src == b.src && a.dst == b.dst
    ensures !(a.kind == Generalizes && b.kind == Implements)
  {
    RollupIsGroupBy(db, a);
    RollupIsGroupBy(db, b);
  }

  lemma {:induction false} FactsAreCoherent(db: Tables)
    ensures Coherent(AllFacts(db, PHASES))
  {
    forall f | f in AllFacts(db, PHASES)
      ensures Settled(db, f)
    {
      FactRight(db, f);
    }
  }

  // ---- The scan order does not matter ----------------------------------------------------

  /** Each method belongs to one record at most. */
  predicate SingleOwners(db: Tables) {
    forall e, g :: e in db.edges && g in db.edges && IsOwnership(db, e) && IsOwnership(db, g) && e.src == g.src ==>
      e.dst == g.dst
  }

  /** The same tables with the edges in another order. */
  predicate Reordered(db: Tables, other: Tables) {
    other == db.(edges := other.edges) && multiset(db.edges) == multiset(other.edges)
  }

  lemma {:induction false} SameEdges(db: Tables, other: Tables, e: Edge)
    requires Reordered(db, other)
    ensures e in db.edges <==> e in other.edges
  {
    assert e in multiset(db.edges) <==> e in multiset(other.edges);
  }

  lemma {:induction false} SameOwner(db: Tables, other: Tables, m: int)
    requires Reordered(db, other) && SingleOwners(db)
    ensures Owner(db, db.edges, m) == Owner(other, other.edges, m)
  {
    forall e
      ensures e in db.edges <==> e in other.edges
    {
      SameEdges(db, other, e);
    }
    assert forall e :: IsOwnership(db, e) <==> IsOwnership(other, e);
    var a, b := Owner(db, db.edges, m), Owner(other, other.edges, m);
    if a.Some? {
      var e :| e in db.edges && IsOwnership(db, e) && e.src == m && e.dst == a.value;
      assert e in other.edges && IsOwnership(other, e);
    }
    if b.Some? {
      var g :| g in other.edges && IsOwnership(other, g) && g.src == m && g.dst == b.value;
      assert g in db.edges && IsOwnership(db, g);
    }
  }

  lemma {:induction false} SameNamedInstance(db: Tables, other: Tables, field: int)
    requires Reordered(db, other)
    ensures NamedInstance(db, db.edges, field) == NamedInstance(other, other.edges, field)
  {
    forall e
      ensures e in db.edges <==> e in other.edges
    {
      SameEdges(db, other, e);
    }
    NamedInstanceWithin(db, other, field);
    NamedInstanceWithin(other, db, field);
  }

  /** What one scan finds the other has too, at no greater id. */
  lemma {:induction false} NamedInstanceWithin(db: Tables, other: Tables, field: int)
    requires db.symbols == other.symbols && forall e :: e in db.edges ==> e in other.edges
    ensures var a, b := NamedInstance(db, db.edges, field), NamedInstance(other, other.edges, field);
            a.Some? ==> b.Some? && b.value <= a.value
  {
    var a := NamedInstance(db, db.edges, field);
    if a.Some? {
      var e :| e in db.edges && NamesInstance(db, e) && e.src == field && e.dst == a.value;
      assert e in other.edges && NamesInstance(other, e);
    }
  }

  lemma {:induction false} SamePrimary(db: Tables, other: Tables, id: int)
    requires Reordered(db, other)
    ensures Primary(db, id) == Primary(other, id)
  {
    NextHopsIgnoreOrder(db.edges, other.edges);
  }

  // ---- Scans of reordered rows -----------------------------------------------------------

  lemma {:induction false} ScanConcat(row: Edge -> seq<Fact>, a: seq<Edge>, b: seq<Edge>)
    ensures Scan(row, a + b) == Scan(row, a) + Scan(row, b)
  {
    if b == [] {
      assert a + b == a;
    } else {
      var front, last := b[..|b| - 1], b[|b| - 1];
      assert (a + b)[..|a + b| - 1] == a + front;
      ScanConcat(row, a, front);
      assert Scan(row, a) + Scan(row, front) + row(last) == Scan(row, a) + (Scan(row, front) + row(last));
    }
  }

  lemma {:induction false} ScanOne(row: Edge -> seq<Fact>, e: Edge)
    ensures Scan(row, [e]) == row(e)
  {
    assert [e][..0] == [] && [] + row(e) == row(e);
  }

  lemma {:induction false} TakeOut(b: seq<Edge>, i: nat)
    requires i < |b|
    ensures multiset(b) == multiset(b[..i] + b[i + 1..]) + multiset{b[i]}
  {
    assert b == b[..i] + ([b[i]] + b[i + 1..]);
  }

  lemma {:induction false} ScanTakeOut(row: Edge -> seq<Fact>, b: seq<Edge>, i: nat)
    requires i < |b|
    ensures multiset(Scan(row, b)) == multiset(Scan(row, b[..i] + b[i + 1..])) + multiset(row(b[i]))
  {
    var before, after := b[..i], b[i + 1..];
    assert b == before + ([b[i]] + after);
    ScanConcat(row, before, [b[i]] + after);
    ScanConcat(row, [b[i]], after);
    ScanConcat(row, before, after);
    ScanOne(row, b[i]);
  }

  lemma {:induction false} Cancel(a: multiset<Edge>, b: multiset<Edge>, e: Edge)
    requires a + multiset{e} == b + multiset{e}
    ensures a == b
  {
    forall x
      ensures a[x] == b[x]
    {
      assert (a + multiset{e})[x] == (b + multiset{e})[x];
    }
  }

  predicate SameFacts(row: Edge -> seq<Fact>, same: Edge -> seq<Fact>, edges: seq<Edge>) {
    forall e :: e in edges ==> multiset(row(e)) == multiset(same(e))
  }

  /** Rows that make the same facts, scanned in another order, make the same bag of facts. */
  lemma {:induction false} ScanIgnoresOrder(row: Edge -> seq<Fact>, same: Edge -> seq<Fact>, a: seq<Edge>, b: seq<Edge>)
    requires multiset(a) == multiset(b) && SameFacts(row, same, a)
    ensures multiset(Scan(row, a)) == multiset(Scan(same, b))
    decreases |a|
  {
    if a == [] {
      assert |multiset(b)| == 0;
    } else {
      var n := |a| - 1;
      assert a[n] in multiset(a);
      var i :| 0 <= i < |b| && b[i] == a[n];
      TakeOut(a, n);
      TakeOut(b, i);
      assert a[..n] + a[n + 1..] == a[..n];
      assert SameFacts(row, same, a[..n]);
      Cancel(multiset(a[..n]), multiset(b[..i] + b[i + 1..]), a[n]);
      ScanIgnoresOrder(row, same, a[..n], b[..i] + b[i + 1..]);
      ScanTakeOut(row, a, n);
      ScanTakeOut(same, b, i);
    }
  }

  // ---- Reordered tables roll up alike ----------------------------------------------------

  lemma {:induction false} HoldIgnoresOrder(db: Tables, other: Tables, src: int, dst: int, field: int)
    requires other == db.(edges := other.edges) && field in db.symbols
    ensures HoldsFact(db, src, dst, field) == HoldsFact(other, src, dst, field)
  {
  }

  lemma {:induction false} InstanceReferentIgnoresOrder(db: Tables, other: Tables, inst: int, prim: int, field: int)
    requires other == db.(edges := other.edges)
    ensures InstanceReferent(db, inst, prim, field) == InstanceReferent(other, inst, prim, field)
  {
  }

  lemma {:induction false} CarriedIgnoresOrder(db: Tables, other: Tables, inst: int, prim: int, e: Edge)
    requires other == db.(edges := other.edges)
    ensures CarriedFact(db, inst, prim, e) == CarriedFact(other, inst, prim, e)
  {
    InstanceReferentIgnoresOrder(db, other, inst, prim, e.src);
    var ref := InstanceReferent(db, inst, prim, e.src);
    if e.src in db.symbols && ref.Some? {
      HoldIgnoresOrder(db, other, inst, ref.value, e.src);
    }
  }

  lemma {:induction false} CarriedScansAgree(db: Tables, other: Tables, inst: int, prim: int)
    requires Reordered(db, other)
    ensures multiset(Scan(Carrying(db, inst, prim), db.edges)) == multiset(Scan(Carrying(other, inst, prim), other.edges))
  {
    var row, same := Carrying(db, inst, prim), Carrying(other, inst, prim);
    forall e | e in db.edges
      ensures multiset(row(e)) == multiset(same(e))
    {
      CarriedIgnoresOrder(db, other, inst, prim, e);
    }
    ScanIgnoresOrder(row, same, db.edges, other.edges);
  }

  lemma {:induction false} CompositionIgnoresOrder(db: Tables, other: Tables, e: Edge)
    requires Reordered(db, other)
    ensures multiset(CompositionFacts(db, e)) == multiset(CompositionFacts(other, e))
  {
    CarriedScansAgree(db, other, e.src, e.dst);
  }

  lemma {:induction false} ReferentIgnoresOrder(db: Tables, other: Tables, field: int)
    requires Reordered(db, other)
    ensures Referent(db, field) == Referent(other, field)
  {
    SameNamedInstance(db, other, field);
    assert ResolveType(db, TypeInfoAt(db, field)) == ResolveType(other, TypeInfoAt(other, field));
  }

  lemma {:induction false} FieldIgnoresOrder(db: Tables, other: Tables, e: Edge)
    requires Reordered(db, other)
    ensures FieldFact(db, e) == FieldFact(other, e)
  {
    ReferentIgnoresOrder(db, other, e.src);
    var (ref, isInstance) := Referent(db, e.src);
    if e.src in db.symbols && ref.Some? {
      HeldIgnoresOrder(db, other, e.src, e.dst, ref.value, isInstance);
    }
  }

  lemma {:induction false} HeldIgnoresOrder(db: Tables, other: Tables, field: int, owner: int, ref: int, isInstance: bool)
    requires Reordered(db, other) && field in db.symbols
    ensures HoldsFact(db, Primary(db, owner), if isInstance then ref else Primary(db, ref), field)
         == HoldsFact(other, Primary(other, owner), if isInstance then ref else Primary(other, ref), field)
  {
    SamePrimary(db, other, owner);
    SamePrimary(db, other, ref);
    HoldIgnoresOrder(db, other, Primary(db, owner), if isInstance then ref else Primary(db, ref), field);
  }

  lemma {:induction false} InheritanceIgnoresOrder(db: Tables, other: Tables, e: Edge)
    requires Reordered(db, other)
    ensures InheritanceFact(db, e) == InheritanceFact(other, e)
  {
    SamePrimary(db, other, e.src);
  }

  lemma {:induction false} TemplateIgnoresOrder(db: Tables, other: Tables, e: Edge, layer0Kind: int, kind: EdgeKind)
    requires Reordered(db, other)
    ensures TemplateFact(db, e, layer0Kind, kind) == TemplateFact(other, e, layer0Kind, kind)
  {
    SamePrimary(db, other, e.dst);
  }

  lemma {:induction false} BefriendIgnoresOrder(db: Tables, other: Tables, e: Edge)
    requires Reordered(db, other)
    ensures BefriendFact(db, e) == BefriendFact(other, e)
  {
    SamePrimary(db, other, e.src);
    SamePrimary(db, other, e.dst);
  }

  lemma {:induction false} ConstructionIgnoresOrder(db: Tables, other: Tables, e: Edge)
    requires Reordered(db, other) && SingleOwners(db)
    ensures ConstructionFact(db, e) == ConstructionFact(other, e)
  {
    SameOwner(db, other, e.src);
    assert Constructed(db, e.dst) == Constructed(other, e.dst);
    NextHopsIgnoreOrder(db.edges, other.edges);
  }

  lemma {:induction false} UseIgnoresOrder(db: Tables, other: Tables, e: Edge)
    requires Reordered(db, other) && SingleOwners(db)
    ensures UseFact(db, e) == UseFact(other, e)
  {
    SameOwner(db, other, e.src);
    SameOwner(db, other, e.dst);
    NextHopsIgnoreOrder(db.edges, other.edges);
  }

  lemma {:induction false} ReturnIgnoresOrder(db: Tables, other: Tables, e: Edge)
    requires Reordered(db, other)
    ensures ReturnFact(db, e) == ReturnFact(other, e)
  {
    var ret := ReturnType(TypeInfoAt(db, e.src));
    assert Returned(db, ret) == Returned(other, ret);
    NextHopsIgnoreOrder(db.edges, other.edges);
  }

  lemma {:induction false} RowIgnoresOrder(phase: Phase, db: Tables, other: Tables, e: Edge)
    requires Reordered(db, other) && SingleOwners(db)
    ensures multiset(FactsOf(phase, db, e)) == multiset(FactsOf(phase, other, e))
  {
    match phase
    case FieldRelation => FieldIgnoresOrder(db, other, e);
    case InstanceComposition => CompositionIgnoresOrder(db, other, e);
    case Construction => ConstructionIgnoresOrder(db, other, e);
    case ByValueReturn => ReturnIgnoresOrder(db, other, e);
    case Use => UseIgnoresOrder(db, other, e);
    case Inheritance => InheritanceIgnoresOrder(db, other, e);
    case Specialization => TemplateIgnoresOrder(db, other, e, 4, Specializes);
    case Instantiation => TemplateIgnoresOrder(db, other, e, 5, Instantiates);
    case Befriend => BefriendIgnoresOrder(db, other, e);
    case Declaration => assert DeclarationFact(db, e) == DeclarationFact(other, e);
  }

  lemma {:induction false} FactsIgnoreOrder(db: Tables, other: Tables, phases: seq<Phase>)
    requires Reordered(db, other) && SingleOwners(db)
    ensures multiset(AllFacts(db, phases)) == multiset(AllFacts(other, phases))
  {
    if phases != [] {
      var phase := phases[|phases| - 1];
      FactsIgnoreOrder(db, other, phases[..|phases| - 1]);
      forall e | e in db.edges
        ensures multiset(Rows(phase, db)(e)) == multiset(Rows(phase, other)(e))
      {
        RowIgnoresOrder(phase, db, other, e);
      }
      ScanIgnoresOrder(Rows(phase, db), Rows(phase, other), db.edges, other.edges);
    }
  }

  /**
   * Whatever order the scans deliver the edges in, the roll-up is the same table; only the access
   * and virtuality of an inheritance are those of the row that came last.
   */
  lemma {:induction false} RollupIgnoresOrder(db: Tables, other: Tables, k: Key)
    requires Reordered(db, other) && SingleOwners(db)
    ensures k in RolledUp(db) <==> k in RolledUp(other)
    ensures k in RolledUp(db) ==> SameButLastWrite(k, RolledUp(db)[k], RolledUp(other)[k])
  {
    FactsIgnoreOrder(db, other, PHASES);
    FactsAreCoherent(db);
    OrderIsImmaterial(AllFacts(db, PHASES), AllFacts(other, PHASES), k);
  }
}
