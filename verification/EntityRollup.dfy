/**
 * The roll-up pass as the source runs it: one object with the precomputed state, the two
 * tables it fills, and a method per phase row. Every phase upserts exactly the facts
 * `EntityFacts` prescribes, in scan order.
 */
module EntityRollup {
  import opened ClassKinds
  import opened EntityFacts
  import opened EntityTable
  import opened Layer0
  import opened Options
  import opened TemplateCollapse
  import FieldTypes

  class Rollup {
    const db: Tables
    const state: RollupState
    const sets: OwnerSets
    var table: Table
    var nodes: map<int, EntityType>
    ghost var facts: seq<Fact>

    /** `hopRows` are the kind 4 and 5 edges `ORDER BY src_id, kind, dst_id`. */
    constructor (db: Tables, hopRows: seq<Edge>, table: Table, nodes: map<int, EntityType>)
      requires Sorted(hopRows) && forall e :: e in hopRows <==> e in db.edges && IsHop(e)
      ensures Ready() && this.db == db && this.table == table && this.nodes == nodes
      ensures fresh(state)
    {
      var next := BuildNextHops(hopRows, db.edges);
      this.db := db;
      this.state := new RollupState(next);
      this.sets := new OwnerSets(db.symbols);
      this.table := table;
      this.nodes := nodes;
      this.facts := [];
    }

    /** The precomputed state answers for the tables of this pass. */
    ghost predicate Ready()
      reads this, state
    {
      state.Valid() && state.nextHop == NextHops(db.edges) && sets.For(db.symbols)
    }

    /** The table holds what was upserted since the pass began, and nothing else. */
    ghost predicate Valid()
      reads this, state
    {
      Ready() && table == Upserted(facts)
    }

    lemma {:induction false} InterfaceTest(id: int)
      requires sets.For(db.symbols)
      ensures sets.IsInterface(id) == IsInterfaceIn(db.symbols, id)
    {
    }

    /** One INSERT ... ON CONFLICT. */
    method Insert(f: Fact)
      requires Valid()
      modifies this`table, this`facts
      ensures Valid() && facts == old(facts) + [f]
    {
      if f.key in table {
        table := table[f.key := OnConflict(table[f.key], f)];
      } else {
        table := table[f.key := NewRow(f)];
      }
      facts := facts + [f];
      assert facts[..|facts| - 1] == old(facts);
    }

    method InsertPlain(src: int, dst: int, kind: EdgeKind)
      requires Valid()
      modifies this`table, this`facts
      ensures Valid() && facts == old(facts) + Plainly(src, dst, kind)
    {
      if src == dst {
        assert facts + [] == facts;
        return;
      }
      Insert(Fact(Key(src, dst, kind, None, None), 1, 0, 0, 0));
    }

    // ---- One row of each phase -----------------------------------------------------------

    method InheritanceRow(e: Edge)
      requires Valid()
      modifies this`table, this`facts, state`cache
      ensures Valid() && facts == old(facts) + InheritanceFact(db, e)
    {
      assert facts + [] == facts;
      if e.kind != 2 || !IsEntityKind(KindAt(db, e.src)) || !IsEntityKind(KindAt(db, e.dst)) {
        return;
      }
      var src := state.CollapseId(e.src);
      if src == e.dst {
        return;
      }
      InterfaceTest(e.dst);
      var kind := if sets.IsInterface(e.dst) then Implements else Generalizes;
      Insert(Fact(Key(src, e.dst, kind, None, None), 1, OrZero(e.baseAccess), OrZero(e.isVirtual), 0));
    }

    method TemplateRow(e: Edge, layer0Kind: int, kind: EdgeKind)
      requires Valid()
      modifies this`table, this`facts, state`cache
      ensures Valid() && facts == old(facts) + TemplateFact(db, e, layer0Kind, kind)
    {
      assert facts + [] == facts;
      if e.kind != layer0Kind || !IsTypeKind(KindAt(db, e.src)) || !IsTypeKind(KindAt(db, e.dst)) {
        return;
      }
      var dst := state.CollapseId(e.dst);
      InsertPlain(e.src, dst, kind);
    }

    method InsertHold(src: int, dst: int, field: int)
      requires Valid() && field in db.symbols
      modifies this`table, this`facts
      ensures Valid() && facts == old(facts) + HoldsFact(db, src, dst, field)
    {
      if src == dst {
        assert facts + [] == facts;
        return;
      }
      var shape := FieldTypes.Classify(TypeInfoAt(db, field));
      Insert(Fact(Key(src, dst, KindOfRelation(shape.relation), Some(field), None),
                  shape.multiplicity, AccessOf(db.symbols[field].access), 0, 0));
    }

    method FieldRow(e: Edge)
      requires Valid()
      modifies this`table, this`facts, state`cache
      ensures Valid() && facts == old(facts) + FieldFact(db, e)
    {
      assert facts + [] == facts;
      if e.kind != 8 || !IsEntityKind(KindAt(db, e.dst)) || KindAt(db, e.src) != FIELD {
        return;
      }
      if TypeInfoAt(db, e.src) == "" {
        return;
      }
      var (ref, isInstance) := Referent(db, e.src);
      if ref.None? || !IsEntityKind(KindAt(db, ref.value)) {
        return;
      }
      var src := state.CollapseId(e.dst);
      var dst := ref.value;
      if !isInstance {
        dst := state.CollapseId(dst);
      }
      InsertHold(src, dst, e.src);
    }

    method CompositionRow(e: Edge)
      requires Valid()
      modifies this`table, this`facts
      ensures Valid() && facts == old(facts) + CompositionFacts(db, e)
    {
      assert facts + [] == facts;
      if e.kind != 5 || e.src !in db.symbols || !db.symbols[e.src].isNamedInstance {
        return;
      }
      if KindAt(db, e.dst) != CLASS_TEMPLATE {
        return;
      }
      ghost var base, row := facts, Carrying(db, e.src, e.dst);
      for i := 0 to |db.edges|
        invariant Valid() && facts == base + Scan(row, db.edges[..i])
      {
        CarriedRow(e.src, e.dst, db.edges[i]);
        OneMoreRow(base, row, db.edges, i);
      }
      assert db.edges[..|db.edges|] == db.edges;
    }

    method CarriedRow(inst: int, prim: int, e: Edge)
      requires Valid()
      modifies this`table, this`facts
      ensures Valid() && facts == old(facts) + CarriedFact(db, inst, prim, e)
    {
      assert facts + [] == facts;
      if e.kind != 8 || e.dst != prim || KindAt(db, e.src) != FIELD || TypeInfoAt(db, e.src) == "" {
        return;
      }
      var ref := InstanceReferent(db, inst, prim, e.src);
      if ref.None? || !IsEntityKind(KindAt(db, ref.value)) {
        return;
      }
      InsertHold(inst, ref.value, e.src);
    }

    method ConstructionRow(e: Edge)
      requires Valid()
      modifies this`table, this`facts, state`cache
      ensures Valid() && facts == old(facts) + ConstructionFact(db, e)
    {
      assert facts + [] == facts;
      if !(10 <= e.kind <= 16) || e.src !in db.symbols || e.dst !in db.symbols {
        return;
      }
      var owner := Owner(db, db.edges, e.src);
      if owner.None? {
        return;
      }
      var target := Constructed(db, e.dst);
      if target.None? {
        return;
      }
      var src := state.CollapseId(owner.value);
      var dst := state.CollapseId(target.value);
      if e.kind == 16 {
        InsertPlain(src, dst, Destroys);
      } else if src != dst {
        var partial := if e.kind == 15 then 1 else 0;
        Insert(Fact(Key(src, dst, Creates, None, Some(CreateForm(e.kind))), 1, 0, 0, partial));
      }
    }

    method ReturnRow(e: Edge)
      requires Valid()
      modifies this`table, this`facts, state`cache
      ensures Valid() && facts == old(facts) + ReturnFact(db, e)
    {
      assert facts + [] == facts;
      if !IsOwnership(db, e) || (KindAt(db, e.src) != METHOD && KindAt(db, e.src) != CONSTRUCTOR) {
        return;
      }
      if db.symbols[e.src].typeInfo.None? {
        return;
      }
      var entity := Returned(db, ReturnType(TypeInfoAt(db, e.src)));
      if entity.None? {
        return;
      }
      var src := state.CollapseId(e.dst);
      var dst := state.CollapseId(entity.value);
      if src != dst {
        Insert(Fact(Key(src, dst, Creates, None, Some(BY_VALUE_RETURN)), 1, 0, 0, 1));
      }
    }

    method UseRow(e: Edge)
      requires Valid()
      modifies this`table, this`facts, state`cache
      ensures Valid() && facts == old(facts) + UseFact(db, e)
    {
      assert facts + [] == facts;
      if (e.kind != 1 && e.kind != 7) || !IsCallable(KindAt(db, e.src)) || !IsCallable(KindAt(db, e.dst)) {
        return;
      }
      var caller := Owner(db, db.edges, e.src);
      if caller.None? {
        return;
      }
      var callee := Owner(db, db.edges, e.dst);
      if callee.None? {
        return;
      }
      var src := state.CollapseId(caller.value);
      var dst := state.CollapseId(callee.value);
      if src != dst {
        var partial := if OrZero(db.symbols[e.dst].isPure) != 0 then 1 else 0;
        Insert(Fact(Key(src, dst, Uses, Some(e.dst), None), 1, 0, 0, partial));
      }
    }

    method BefriendRow(e: Edge)
      requires Valid()
      modifies this`table, this`facts, state`cache
      ensures Valid() && facts == old(facts) + BefriendFact(db, e)
    {
      if e.kind != 17 || !IsEntityKind(KindAt(db, e.src)) || !IsEntityKind(KindAt(db, e.dst)) {
        assert facts + [] == facts;
        return;
      }
      var src := state.CollapseId(e.src);
      var dst := state.CollapseId(e.dst);
      InsertPlain(src, dst, Befriends);
    }

    /** Members count as entities when the node table has them. */
    method DeclarationRow(e: Edge)
      requires Valid() && nodes == NodeTypes(db, sets)
      modifies this`table, this`facts
      ensures Valid() && facts == old(facts) + DeclarationFact(db, e)
    {
      if e.kind != 3 || KindAt(db, e.src) != NAMESPACE || e.dst !in nodes {
        assert facts + [] == facts;
        return;
      }
      InsertPlain(e.src, e.dst, Declares);
    }

    // ---- Phases and the pass --------------------------------------------------------------

    method RunRow(phase: Phase, e: Edge)
      requires Valid() && (phase == Declaration ==> nodes == NodeTypes(db, sets))
      modifies this`table, this`facts, state`cache
      ensures Valid() && facts == old(facts) + Rows(phase, db)(e)
    {
      match phase
      case Inheritance => InheritanceRow(e);
      case Specialization => TemplateRow(e, 4, Specializes);
      case Instantiation => TemplateRow(e, 5, Instantiates);
      case FieldRelation => FieldRow(e);
      case InstanceComposition => CompositionRow(e);
      case Construction => ConstructionRow(e);
      case ByValueReturn => ReturnRow(e);
      case Use => UseRow(e);
      case Befriend => BefriendRow(e);
      case Declaration => DeclarationRow(e);
    }

    lemma {:induction false} OneMoreRow(base: seq<Fact>, row: Edge -> seq<Fact>, edges: seq<Edge>, i: nat)
      requires i < |edges|
      ensures base + Scan(row, edges[..i + 1]) == base + Scan(row, edges[..i]) + row(edges[i])
    {
      assert edges[..i + 1][..i] == edges[..i];
      assert base + (Scan(row, edges[..i]) + row(edges[i])) == base + Scan(row, edges[..i]) + row(edges[i]);
    }

    method RunPhase(phase: Phase)
      requires Valid() && (phase == Declaration ==> nodes == NodeTypes(db, sets))
      modifies this`table, this`facts, state`cache
      ensures Valid() && facts == old(facts) + PhaseFacts(phase, db)
    {
      ghost var base, row := facts, Rows(phase, db);
      for i := 0 to |db.edges|
        invariant Valid() && facts == base + Scan(row, db.edges[..i])
      {
        RunRow(phase, db.edges[i]);
        OneMoreRow(base, row, db.edges, i);
      }
      assert db.edges[..|db.edges|] == db.edges;
    }

    /** `_materialise_entity_nodes`: the node table is rebuilt from the symbol rows. */
    method BuildNodes(ids: seq<int>)
      requires Valid() && forall id :: id in ids <==> id in db.symbols
      modifies this`nodes
      ensures nodes == NodeTypes(db, sets)
    {
      nodes := map[];
      for i := 0 to |ids|
        invariant nodes == map id | id in NodeTypes(db, sets) && id in ids[..i] :: NodeTypes(db, sets)[id]
      {
        assert ids[..i + 1] == ids[..i] + [ids[i]];
        var t := StoredType(sets, ids[i], db.symbols[ids[i]].kind);
        if t.Some? {
          nodes := nodes[ids[i] := t.value];
        }
      }
      assert ids[..|ids|] == ids;
    }

    /** Delete everything, run the phases in order: the old contents of both tables do not matter. */
    method Materialise(ids: seq<int>)
      requires Ready() && forall id :: id in ids <==> id in db.symbols
      modifies this, state`cache
      ensures Valid() && facts == AllFacts(db, PHASES) && table == Upserted(AllFacts(db, PHASES))
      ensures nodes == NodeTypes(db, sets)
    {
      table := map[];
      facts := [];
      for i := 0 to |PHASES|
        invariant Valid() && facts == AllFacts(db, PHASES[..i])
        invariant i == |PHASES| ==> nodes == NodeTypes(db, sets)
      {
        if PHASES[i] == Declaration {
          BuildNodes(ids);
        }
        assert PHASES[..i + 1][..i] == PHASES[..i];
        RunPhase(PHASES[i]);
      }
      assert PHASES[..|PHASES|] == PHASES;
    }
  }
}
