/**
 * The rows of the rolled-up table read off the Layer-0 tables: for every relation, between
 * which entities a row stands, through which member, and how many Layer-0 rows it counts
 * (project/indexer/entity_rollup.py:561-1236). Layer-0 kinds are written as the numbers the
 * queries select.
 */
module RollupRows {
  import opened ClassKinds
  import opened EntityFacts
  import opened EntityTable
  import opened Layer0
  import opened Options
  import opened RollupProperties
  import opened TemplateCollapse
  import FieldTypes

  const RECORDS: set<int> := {2, 3, 4, 5}
  const TYPES: set<int> := {2, 3, 4, 5, 31}
  const CALLABLES: set<int> := {8, 21, 24, 25, 30}

  // ---- Owners, created types and referents -----------------------------------------------

  /** The row says that the member belongs to a record. */
  predicate IsMemberRow(db: Tables, e: Edge, member: int) {
    e.kind == 9 && e.src == member && KindAt(db, e.dst) in RECORDS
  }

  /** The record is that of the first such row in table order. */
  ghost predicate OwnedBy(db: Tables, edges: seq<Edge>, member: int, record: int) {
    exists i :: 0 <= i < |edges| && IsMemberRow(db, edges[i], member) && edges[i].dst == record
                && forall j :: 0 <= j < i ==> !IsMemberRow(db, edges[j], member)
  }

  lemma {:induction false} OwnerIff(db: Tables, edges: seq<Edge>, member: int, record: int)
    ensures Owner(db, edges, member) == Some(record) <==> OwnedBy(db, edges, member, record)
  {
    if edges != [] {
      OwnerIff(db, edges[1..], member, record);
      var e := edges[0];
      assert IsMemberRow(db, e, member) <==> IsOwnership(db, e) && e.src == member;
      if IsMemberRow(db, e, member) {
        OwnedFirst(db, edges, member, record);
      } else {
        OwnedLater(db, edges, member, record);
      }
    }
  }

  lemma {:induction false} OwnedFirst(db: Tables, edges: seq<Edge>, member: int, record: int)
    requires edges != [] && IsMemberRow(db, edges[0], member)
    ensures OwnedBy(db, edges, member, record) <==> edges[0].dst == record
  {
  }

  lemma {:induction false} OwnedLater(db: Tables, edges: seq<Edge>, member: int, record: int)
    requires edges != [] && !IsMemberRow(db, edges[0], member)
    ensures OwnedBy(db, edges, member, record) <==> OwnedBy(db, edges[1..], member, record)
  {
    if OwnedBy(db, edges[1..], member, record) {
      var i :| 0 <= i < |edges| - 1 && IsMemberRow(db, edges[1..][i], member) && edges[1..][i].dst == record
               && forall j :: 0 <= j < i ==> !IsMemberRow(db, edges[1..][j], member);
      assert edges[i + 1] == edges[1..][i];
      forall j | 0 <= j < i + 1 ensures !IsMemberRow(db, edges[j], member) {
        if j > 0 {
          assert edges[j] == edges[1..][j - 1];
        }
      }
    }
    if OwnedBy(db, edges, member, record) {
      var i :| 0 <= i < |edges| && IsMemberRow(db, edges[i], member) && edges[i].dst == record
               && forall j :: 0 <= j < i ==> !IsMemberRow(db, edges[j], member);
      assert edges[1..][i - 1] == edges[i];
    }
  }

  /** The record whose USR is the symbol's parent, or else the symbol itself when it is a record. */
  predicate CreatedAt(db: Tables, id: int, record: int) {
    && id in db.symbols && KindAt(db, record) in RECORDS
    && if HasParentRecord(db, id) then record == db.byUsr[db.symbols[id].parentUsr.value] else record == id
  }

  predicate HasParentRecord(db: Tables, id: int)
    requires id in db.symbols
  {
    var parent := db.symbols[id].parentUsr;
    parent.Some? && parent.value in db.byUsr && KindAt(db, db.byUsr[parent.value]) in RECORDS
  }

  /** The field has a `uses` row to this named instance, and to none of a lesser id. */
  ghost predicate NamesLeast(db: Tables, field: int, inst: int) {
    && (exists e :: e in db.edges && IsInstanceRow(db, e, field) && e.dst == inst)
    && forall e :: e in db.edges && IsInstanceRow(db, e, field) ==> inst <= e.dst
  }

  predicate IsInstanceRow(db: Tables, e: Edge, field: int) {
    e.kind == 7 && e.src == field && e.dst in db.symbols && db.symbols[e.dst].isNamedInstance
  }

  /** The reference of the last argument that has one. */
  ghost predicate LastRef(args: seq<TypeArg>, ref: int) {
    exists i :: 0 <= i < |args| && args[i].ref == Some(ref) && forall j :: i < j < |args| ==> args[j].ref.None?
  }

  lemma {:induction false} LastTypeRefIff(args: seq<TypeArg>, ref: int)
    ensures LastTypeRef(args) == Some(ref) <==> LastRef(args, ref)
  {
    if args != [] {
      var front, last := args[..|args| - 1], args[|args| - 1];
      LastTypeRefIff(front, ref);
      if last.ref.None? {
        assert LastRef(front, ref) ==> LastRef(args, ref) by {
          if LastRef(front, ref) {
            var i :| 0 <= i < |front| && front[i].ref == Some(ref) && forall j :: i < j < |front| ==> front[j].ref.None?;
            assert args[i] == front[i];
          }
        }
        assert LastRef(args, ref) ==> LastRef(front, ref) by {
          if LastRef(args, ref) {
            var i :| 0 <= i < |args| && args[i].ref == Some(ref) && forall j :: i < j < |args| ==> args[j].ref.None?;
            assert front[i] == args[i];
          }
        }
      } else {
        assert args[|args| - 1].ref == last.ref;
      }
    }
  }

  /**
   What a field refers to: the named instance it uses; without one the last template argument
   that is an indexed type; without one the entity its spelled type names.
   */
  ghost predicate RefersTo(db: Tables, field: int, ref: int, isInstance: bool) {
    if exists inst :: NamesLeast(db, field, inst) then isInstance && NamesLeast(db, field, ref)
    else !isInstance && TypeRefersTo(db, field, ref)
  }

  ghost predicate TypeRefersTo(db: Tables, field: int, ref: int) {
    if exists r :: LastRef(ArgsOf(db, field), r) then LastRef(ArgsOf(db, field), ref)
    else ResolveType(db, TypeInfoAt(db, field)) == Some(ref)
  }

  lemma {:induction false} NamedIff(db: Tables, field: int, inst: int)
    ensures NamedInstance(db, db.edges, field) == Some(inst) <==> NamesLeast(db, field, inst)
  {
    assert forall e :: IsInstanceRow(db, e, field) <==> NamesInstance(db, e) && e.src == field;
  }

  lemma {:induction false} TypeReferentIff(db: Tables, field: int, ref: int)
    ensures var last := LastTypeRef(ArgsOf(db, field));
            (if last.Some? then last else ResolveType(db, TypeInfoAt(db, field))) == Some(ref) <==> TypeRefersTo(db, field, ref)
  {
    var last := LastTypeRef(ArgsOf(db, field));
    forall r ensures last == Some(r) <==> LastRef(ArgsOf(db, field), r) {
      LastTypeRefIff(ArgsOf(db, field), r);
    }
    if last.Some? {
      assert LastRef(ArgsOf(db, field), last.value);
    }
  }

  lemma {:induction false} ReferentIff(db: Tables, field: int, ref: int, isInstance: bool)
    ensures Referent(db, field) == (Some(ref), isInstance) <==> RefersTo(db, field, ref, isInstance)
  {
    var named := NamedInstance(db, db.edges, field);
    forall inst ensures named == Some(inst) <==> NamesLeast(db, field, inst) {
      NamedIff(db, field, inst);
    }
    if named.Some? {
      assert NamesLeast(db, field, named.value);
    }
    TypeReferentIff(db, field, ref);
  }

  /** The position of the first named parameter of that name. */
  ghost predicate ParamAt(params: seq<TypeParam>, name: string, position: int) {
    exists i :: 0 <= i < |params| && params[i].name == name != "" && params[i].position == position
                && forall j :: 0 <= j < i ==> params[j].name != name
  }

  lemma {:induction false} ParamPositionIff(params: seq<TypeParam>, name: string, position: int)
    ensures ParamPosition(params, name) == Some(position) <==> ParamAt(params, name, position)
  {
    if params != [] {
      var rest := params[1..];
      ParamPositionIff(rest, name, position);
      if params[0].name == name != "" {
        assert ParamAt(params, name, position) <==> params[0].position == position;
      } else {
        if ParamAt(rest, name, position) {
          var i :| 0 <= i < |rest| && rest[i].name == name != "" && rest[i].position == position
                   && forall j :: 0 <= j < i ==> rest[j].name != name;
          assert params[i + 1] == rest[i];
          assert forall j :: 0 < j < i + 1 ==> params[j] == rest[j - 1];
        }
        if ParamAt(params, name, position) {
          var i :| 0 <= i < |params| && params[i].name == name != "" && params[i].position == position
                   && forall j :: 0 <= j < i ==> params[j].name != name;
          assert rest[i - 1] == params[i];
          assert forall j :: 0 <= j < i - 1 ==> rest[j] == params[j + 1];
        }
      }
    }
  }

  /** What the last argument at the position refers to. */
  ghost predicate ArgRefers(args: seq<TypeArg>, position: int, ref: int) {
    exists i :: 0 <= i < |args| && args[i] == TypeArg(position, Some(ref)) && forall j :: i < j < |args| ==> args[j].position != position
  }

  lemma {:induction false} BoundIff(args: seq<TypeArg>, position: int, ref: int)
    ensures Bound(args, position) == Some(ref) <==> ArgRefers(args, position, ref)
  {
    if args != [] {
      var front, last := args[..|args| - 1], args[|args| - 1];
      BoundIff(front, position, ref);
      if last.position == position {
        assert args[|args| - 1] == last;
      } else {
        OneMoreArg(front, last, position, ref);
        assert args == front + [last];
      }
    }
  }

  lemma {:induction false} OneMoreArg(front: seq<TypeArg>, last: TypeArg, position: int, ref: int)
    requires last.position != position
    ensures ArgRefers(front + [last], position, ref) <==> ArgRefers(front, position, ref)
  {
    var args := front + [last];
    if ArgRefers(front, position, ref) {
      var i :| 0 <= i < |front| && front[i] == TypeArg(position, Some(ref)) && forall j :: i < j < |front| ==> front[j].position != position;
      assert args[i] == front[i];
    }
    if ArgRefers(args, position, ref) {
      var i :| 0 <= i < |args| && args[i] == TypeArg(position, Some(ref)) && forall j :: i < j < |args| ==> args[j].position != position;
      assert front[i] == args[i] && forall j :: i < j < |front| ==> front[j] == args[j];
    }
  }

  /** What a field of the primary refers to in the instance: the argument bound to its parameter, or the entity its type names. */
  ghost predicate CarriesTo(db: Tables, inst: int, prim: int, field: int, ref: int) {
    var core := FieldTypes.Core(TypeInfoAt(db, field));
    if exists p :: ParamAt(ParamsOf(db, prim), core, p)
    then exists p :: ParamAt(ParamsOf(db, prim), core, p) && ArgRefers(ArgsOf(db, inst), p, ref)
    else ResolveType(db, TypeInfoAt(db, field)) == Some(ref)
  }

  lemma {:induction false} InstanceReferentIff(db: Tables, inst: int, prim: int, field: int, ref: int)
    ensures InstanceReferent(db, inst, prim, field) == Some(ref) <==> CarriesTo(db, inst, prim, field, ref)
  {
    SubstitutedIff(ParamsOf(db, prim), ArgsOf(db, inst), FieldTypes.Core(TypeInfoAt(db, field)),
                   ResolveType(db, TypeInfoAt(db, field)), ref);
  }

  lemma {:induction false} SubstitutedIff(params: seq<TypeParam>, args: seq<TypeArg>, core: string, named: Option<int>, ref: int)
    ensures var position := ParamPosition(params, core);
            (if position.Some? then Bound(args, position.value) else named) == Some(ref)
            <==> if exists p :: ParamAt(params, core, p) then exists p :: ParamAt(params, core, p) && ArgRefers(args, p, ref)
                 else named == Some(ref)
  {
    BoundThrough(params, args, core, ref);
  }

  lemma {:induction false} BoundThrough(params: seq<TypeParam>, args: seq<TypeArg>, core: string, ref: int)
    ensures var position := ParamPosition(params, core);
            && (position.Some? <==> exists p :: ParamAt(params, core, p))
            && (position.Some? ==> (Bound(args, position.value) == Some(ref)
                                    <==> exists p :: ParamAt(params, core, p) && ArgRefers(args, p, ref)))
  {
    var position := ParamPosition(params, core);
    forall p ensures position == Some(p) <==> ParamAt(params, core, p) {
      ParamPositionIff(params, core, p);
    }
    if position.Some? {
      assert ParamAt(params, core, position.value);
      BoundIff(args, position.value, ref);
    }
  }

  // ---- Which row makes which key -------------------------------------------------------------

  ghost predicate Inherits(db: Tables, e: Edge, k: Key) {
    && e.kind == 2 && KindAt(db, e.src) in RECORDS && KindAt(db, e.dst) in RECORDS
    && k.src == Primary(db, e.src) && k.dst == e.dst && k.src != k.dst && k.via == None && k.form == None
    && k.kind == if IsInterfaceIn(db.symbols, e.dst) then Implements else Generalizes
  }

  /** A specialization (4) or an instance (5), and the primary of its template. */
  ghost predicate Binds(db: Tables, e: Edge, k: Key) {
    && KindAt(db, e.src) in TYPES && KindAt(db, e.dst) in TYPES
    && ((e.kind == 4 && k.kind == Specializes) || (e.kind == 5 && k.kind == Instantiates))
    && k.src == e.src && k.dst == Primary(db, e.dst) && k.src != k.dst && k.via == None && k.form == None
  }

  /** What holding through a field is, by the classification of its type. */
  predicate HoldsAs(db: Tables, field: int, kind: EdgeKind) {
    match FieldTypes.Classify(TypeInfoAt(db, field)).relation
    case Composes => kind == EdgeKind.Composes
    case Aggregates => kind == EdgeKind.Aggregates
    case Associates => kind == EdgeKind.Associates
  }

  predicate IsTypedField(db: Tables, field: int) {
    KindAt(db, field) == 6 && TypeInfoAt(db, field) != ""
  }

  ghost predicate HoldsThrough(db: Tables, e: Edge, k: Key) {
    && e.kind == 8 && KindAt(db, e.dst) in RECORDS && IsTypedField(db, e.src)
    && k.via == Some(e.src) && k.form == None && HoldsAs(db, e.src, k.kind) && k.src == Primary(db, e.dst) && k.src != k.dst
    && exists ref, isInstance ::
         && RefersTo(db, e.src, ref, isInstance) && KindAt(db, ref) in RECORDS
         && k.dst == if isInstance then ref else Primary(db, ref)
  }

  /** Row e makes an instance of a template, row g a field of that template. */
  ghost predicate Carries(db: Tables, e: Edge, g: Edge, k: Key) {
    && e.kind == 5 && e.src in db.symbols && db.symbols[e.src].isNamedInstance && KindAt(db, e.dst) == 31
    && g.kind == 8 && g.dst == e.dst && IsTypedField(db, g.src)
    && k.via == Some(g.src) && k.form == None && HoldsAs(db, g.src, k.kind) && k.src == e.src && k.src != k.dst
    && KindAt(db, k.dst) in RECORDS && CarriesTo(db, e.src, e.dst, g.src, k.dst)
  }

  /** The form of creation a construction row stands for: by value, new, factory and so on. */
  predicate HasForm(kind: int, form: int) {
    || (kind == 10 && form == 3) || (kind == 11 && form == 4) || (kind == 12 && form == 5)
    || (kind == 13 && form == 7) || (kind == 14 && form == 8) || (kind == 15 && form == 6)
  }

  ghost predicate Constructs(db: Tables, e: Edge, k: Key) {
    && e.src in db.symbols && e.dst in db.symbols && k.via == None && k.src != k.dst
    && (exists owner, target ::
          OwnedBy(db, db.edges, e.src, owner) && CreatedAt(db, e.dst, target)
          && k.src == Primary(db, owner) && k.dst == Primary(db, target))
    && ((k.kind == Destroys && e.kind == 16 && k.form == None)
        || (k.kind == Creates && k.form.Some? && HasForm(e.kind, k.form.value)))
  }

  ghost predicate Returns(db: Tables, e: Edge, k: Key) {
    && e.kind == 9 && KindAt(db, e.dst) in RECORDS && KindAt(db, e.src) in {21, 24} && db.symbols[e.src].typeInfo.Some?
    && k.kind == Creates && k.form == Some(2) && k.via == None && k.src == Primary(db, e.dst) && k.src != k.dst
    && var ret := ReturnType(db.symbols[e.src].typeInfo.value);
       ret !in {"", "void", "auto"} && exists target :: ResolveType(db, ret) == Some(target) && k.dst == Primary(db, target)
  }

  ghost predicate UsesThrough(db: Tables, e: Edge, k: Key) {
    && e.kind in {1, 7} && KindAt(db, e.src) in CALLABLES && KindAt(db, e.dst) in CALLABLES
    && k.kind == Uses && k.via == Some(e.dst) && k.form == None && k.src != k.dst
    && exists user, used ::
         && OwnedBy(db, db.edges, e.src, user) && OwnedBy(db, db.edges, e.dst, used)
         && k.src == Primary(db, user) && k.dst == Primary(db, used)
  }

  ghost predicate MakesFriend(db: Tables, e: Edge, k: Key) {
    && e.kind == 17 && KindAt(db, e.src) in RECORDS && KindAt(db, e.dst) in RECORDS
    && k == Key(Primary(db, e.src), Primary(db, e.dst), Befriends, None, None) && k.src != k.dst
  }

  ghost predicate DeclaresMember(db: Tables, e: Edge, k: Key) {
    && e.kind == 3 && KindAt(db, e.src) == 22 && KindAt(db, e.dst) in TYPES + {22}
    && k == Key(e.src, e.dst, Declares, None, None) && k.src != k.dst
  }

  // ---- One row of each phase ------------------------------------------------------------------

  /** How many of the facts go under the key. */
  function Hits(facts: seq<Fact>, k: Key): nat {
    |Matching(facts, k)|
  }

  lemma {:induction false} HitsOne(f: Fact, k: Key)
    ensures Hits([], k) == 0 && Hits([f], k) == if f.key == k then 1 else 0
  {
    assert [f][..0] == [] && Matching([], k) == [];
  }

  function One(b: bool): nat {
    if b then 1 else 0
  }

  lemma {:induction false} InheritanceHits(db: Tables, e: Edge, k: Key)
    ensures Hits(InheritanceFact(db, e), k) == One(Inherits(db, e, k))
  {
    var facts := InheritanceFact(db, e);
    if facts != [] {
      HitsOne(facts[0], k);
    }
  }

  lemma {:induction false} PlainHits(src: int, dst: int, kind: EdgeKind, k: Key)
    ensures Hits(Plainly(src, dst, kind), k) == One(k == Key(src, dst, kind, None, None) && src != dst)
  {
    if src != dst {
      HitsOne(Plainly(src, dst, kind)[0], k);
    }
  }

  lemma {:induction false} TemplateHits(db: Tables, e: Edge, k: Key)
    ensures Hits(FactsOf(Specialization, db, e), k) == One(k.kind == Specializes && Binds(db, e, k))
    ensures Hits(FactsOf(Instantiation, db, e), k) == One(k.kind == Instantiates && Binds(db, e, k))
  {
    PlainHits(e.src, Primary(db, e.dst), Specializes, k);
    PlainHits(e.src, Primary(db, e.dst), Instantiates, k);
  }

  lemma {:induction false} HoldsHits(db: Tables, src: int, dst: int, field: int, k: Key)
    requires field in db.symbols
    ensures Hits(HoldsFact(db, src, dst, field), k)
         == One(k.src == src && k.dst == dst && src != dst && k.via == Some(field) && k.form == None && HoldsAs(db, field, k.kind))
  {
    if src != dst {
      HitsOne(HoldsFact(db, src, dst, field)[0], k);
    }
  }

  lemma {:induction false} FieldHits(db: Tables, e: Edge, k: Key)
    ensures Hits(FieldFact(db, e), k) == One(HoldsThrough(db, e, k))
  {
    var (found, isInstance) := Referent(db, e.src);
    FieldFactIs(db, e);
    ThroughFound(db, e, k);
    if FieldFact(db, e) != [] {
      HoldsHits(db, Primary(db, e.dst), if isInstance then found.value else Primary(db, found.value), e.src, k);
    }
  }

  lemma {:induction false} FieldFactIs(db: Tables, e: Edge)
    ensures var (found, isInstance) := Referent(db, e.src);
            FieldFact(db, e) ==
              if e.kind == 8 && KindAt(db, e.dst) in RECORDS && IsTypedField(db, e.src) && found.Some? && KindAt(db, found.value) in RECORDS
              then HoldsFact(db, Primary(db, e.dst), if isInstance then found.value else Primary(db, found.value), e.src)
              else []
  {
    RecordKinds(KindAt(db, e.dst));
    var found := Referent(db, e.src).0;
    if found.Some? {
      RecordKinds(KindAt(db, found.value));
    }
  }

  lemma {:induction false} RecordKinds(kind: int)
    ensures IsEntityKind(kind) <==> kind in RECORDS
  {
  }

  lemma {:induction false} ThroughFound(db: Tables, e: Edge, k: Key)
    ensures var (found, isInstance) := Referent(db, e.src);
            HoldsThrough(db, e, k) <==>
              && e.kind == 8 && KindAt(db, e.dst) in RECORDS && IsTypedField(db, e.src)
              && k.via == Some(e.src) && k.form == None && HoldsAs(db, e.src, k.kind) && k.src == Primary(db, e.dst) && k.src != k.dst
              && found.Some? && KindAt(db, found.value) in RECORDS
              && k.dst == if isInstance then found.value else Primary(db, found.value)
  {
    var (found, isInstance) := Referent(db, e.src);
    forall ref, b ensures (found == Some(ref) && isInstance == b) <==> RefersTo(db, e.src, ref, b) {
      ReferentIff(db, e.src, ref, b);
    }
    if found.Some? {
      assert RefersTo(db, e.src, found.value, isInstance);
    }
  }

  lemma {:induction false} CarriedHits(db: Tables, e: Edge, g: Edge, k: Key)
    requires e.kind == 5 && e.src in db.symbols && db.symbols[e.src].isNamedInstance && KindAt(db, e.dst) == 31
    ensures Hits(CarriedFact(db, e.src, e.dst, g), k) == One(Carries(db, e, g, k))
  {
    var found := InstanceReferent(db, e.src, e.dst, g.src);
    InstanceReferentIff(db, e.src, e.dst, g.src, k.dst);
    if g.kind == 8 && g.dst == e.dst && IsTypedField(db, g.src) && found.Some? && KindAt(db, found.value) in RECORDS {
      assert CarriedFact(db, e.src, e.dst, g) == HoldsFact(db, e.src, found.value, g.src);
      HoldsHits(db, e.src, found.value, g.src, k);
    } else {
      assert CarriedFact(db, e.src, e.dst, g) == [];
    }
  }

  lemma {:induction false} ConstructedIff(db: Tables, id: int, record: int)
    ensures Constructed(db, id) == Some(record) <==> CreatedAt(db, id, record)
  {
  }

  lemma {:induction false} ConstructionHits(db: Tables, e: Edge, k: Key)
    ensures Hits(ConstructionFact(db, e), k) == One(Constructs(db, e, k))
  {
    var owner, target := Owner(db, db.edges, e.src), Constructed(db, e.dst);
    forall record ensures owner == Some(record) <==> OwnedBy(db, db.edges, e.src, record) {
      OwnerIff(db, db.edges, e.src, record);
    }
    forall record ensures target == Some(record) <==> CreatedAt(db, e.dst, record) {
      ConstructedIff(db, e.dst, record);
    }
    if owner.Some? && target.Some? {
      ConstructionBetween(db, e, k, Primary(db, owner.value), Primary(db, target.value));
    }
  }

  /** Construction or destruction between two known primaries. */
  lemma {:induction false} ConstructionBetween(db: Tables, e: Edge, k: Key, src: int, dst: int)
    requires var owner, target := Owner(db, db.edges, e.src), Constructed(db, e.dst);
             owner.Some? && target.Some? && src == Primary(db, owner.value) && dst == Primary(db, target.value)
    ensures Hits(ConstructionFact(db, e), k)
         == One(&& e.src in db.symbols && e.dst in db.symbols && k.via == None && k.src == src && k.dst == dst && src != dst
                && ((k.kind == Destroys && e.kind == 16 && k.form == None)
                    || (k.kind == Creates && k.form.Some? && HasForm(e.kind, k.form.value))))
  {
    PlainHits(src, dst, Destroys, k);
    if ConstructionFact(db, e) != [] {
      HitsOne(ConstructionFact(db, e)[0], k);
    }
  }

  lemma {:induction false} ReturnHits(db: Tables, e: Edge, k: Key)
    ensures Hits(ReturnFact(db, e), k) == One(Returns(db, e, k))
  {
    if e.kind == 9 && KindAt(db, e.dst) in RECORDS && KindAt(db, e.src) in {21, 24} && db.symbols[e.src].typeInfo.Some? {
      var target := Returned(db, ReturnType(TypeInfoAt(db, e.src)));
      if target.Some? {
        ReturnsTarget(db, e, k, target.value);
      } else {
        assert ReturnFact(db, e) == [];
      }
    }
  }

  lemma {:induction false} ReturnsTarget(db: Tables, e: Edge, k: Key, target: int)
    requires e.kind == 9 && KindAt(db, e.dst) in RECORDS && KindAt(db, e.src) in {21, 24} && db.symbols[e.src].typeInfo.Some?
    requires Returned(db, ReturnType(TypeInfoAt(db, e.src))) == Some(target)
    ensures Hits(ReturnFact(db, e), k) == One(Returns(db, e, k))
  {
    var src, dst := Primary(db, e.dst), Primary(db, target);
    var f := Fact(Key(src, dst, Creates, None, Some(BY_VALUE_RETURN)), 1, 0, 0, 1);
    assert ReturnFact(db, e) == if src == dst then [] else [f];
    HitsOne(f, k);
    ReturnsTo(db, e, k, target);
  }

  lemma {:induction false} ReturnsTo(db: Tables, e: Edge, k: Key, target: int)
    requires e.kind == 9 && KindAt(db, e.dst) in RECORDS && KindAt(db, e.src) in {21, 24} && db.symbols[e.src].typeInfo.Some?
    requires Returned(db, ReturnType(TypeInfoAt(db, e.src))) == Some(target)
    ensures Returns(db, e, k) <==> k == Key(Primary(db, e.dst), Primary(db, target), Creates, None, Some(2)) && k.src != k.dst
  {
    assert ResolveType(db, ReturnType(db.symbols[e.src].typeInfo.value)) == Some(target);
  }

  lemma {:induction false} UseHits(db: Tables, e: Edge, k: Key)
    ensures Hits(UseFact(db, e), k) == One(UsesThrough(db, e, k))
  {
    var user, used := Owner(db, db.edges, e.src), Owner(db, db.edges, e.dst);
    forall record ensures user == Some(record) <==> OwnedBy(db, db.edges, e.src, record) {
      OwnerIff(db, db.edges, e.src, record);
    }
    forall record ensures used == Some(record) <==> OwnedBy(db, db.edges, e.dst, record) {
      OwnerIff(db, db.edges, e.dst, record);
    }
    if UseFact(db, e) != [] {
      HitsOne(UseFact(db, e)[0], k);
    }
  }

  lemma {:induction false} BefriendHits(db: Tables, e: Edge, k: Key)
    ensures Hits(BefriendFact(db, e), k) == One(MakesFriend(db, e, k))
  {
    PlainHits(Primary(db, e.src), Primary(db, e.dst), Befriends, k);
  }

  lemma {:induction false} DeclarationHits(db: Tables, e: Edge, k: Key)
    ensures Hits(DeclarationFact(db, e), k) == One(DeclaresMember(db, e, k))
  {
    PlainHits(e.src, e.dst, Declares, k);
  }

  // ---- All rows of all phases -----------------------------------------------------------------

  /** The Layer-0 row makes an entity row with this key. */
  ghost predicate Makes(db: Tables, phase: Phase, e: Edge, k: Key) {
    match phase
    case Inheritance => Inherits(db, e, k)
    case Specialization => k.kind == Specializes && Binds(db, e, k)
    case Instantiation => k.kind == Instantiates && Binds(db, e, k)
    case FieldRelation => HoldsThrough(db, e, k)
    case InstanceComposition => exists g :: g in db.edges && Carries(db, e, g, k)
    case Construction => Constructs(db, e, k)
    case ByValueReturn => Returns(db, e, k)
    case Use => UsesThrough(db, e, k)
    case Befriend => MakesFriend(db, e, k)
    case Declaration => DeclaresMember(db, e, k)
  }

  /** How many fields of the template row e carries under the key. */
  ghost function Carried(db: Tables, e: Edge, edges: seq<Edge>, k: Key): nat {
    if edges == [] then 0 else Carried(db, e, edges[..|edges| - 1], k) + One(Carries(db, e, edges[|edges| - 1], k))
  }

  /** How often the Layer-0 row counts under the key: once, or once for each field carried. */
  ghost function Times(db: Tables, phase: Phase, e: Edge, k: Key): nat {
    if phase == InstanceComposition then Carried(db, e, db.edges, k) else One(Makes(db, phase, e, k))
  }

  ghost function Tally(db: Tables, phase: Phase, edges: seq<Edge>, k: Key): nat {
    if edges == [] then 0 else Tally(db, phase, edges[..|edges| - 1], k) + Times(db, phase, edges[|edges| - 1], k)
  }

  ghost function Total(db: Tables, phases: seq<Phase>, k: Key): nat {
    if phases == [] then 0 else Total(db, phases[..|phases| - 1], k) + Tally(db, phases[|phases| - 1], db.edges, k)
  }

  lemma {:induction false} HitsConcat(a: seq<Fact>, b: seq<Fact>, k: Key)
    ensures Matching(a + b, k) == Matching(a, k) + Matching(b, k)
    decreases |b|
  {
    if b == [] {
      assert a + b == a && Matching(b, k) == [];
    } else {
      var front, last := b[..|b| - 1], b[|b| - 1];
      assert (a + b)[..|a + b| - 1] == a + front && (a + b)[|a + b| - 1] == last;
      HitsConcat(a, front, k);
    }
  }

  lemma {:induction false} CarriedScan(db: Tables, e: Edge, edges: seq<Edge>, k: Key)
    requires e.kind == 5 && e.src in db.symbols && db.symbols[e.src].isNamedInstance && KindAt(db, e.dst) == 31
    ensures Hits(Scan(Carrying(db, e.src, e.dst), edges), k) == Carried(db, e, edges, k)
    decreases |edges|
  {
    if edges != [] {
      var front, last := edges[..|edges| - 1], edges[|edges| - 1];
      CarriedScan(db, e, front, k);
      HitsConcat(Scan(Carrying(db, e.src, e.dst), front), CarriedFact(db, e.src, e.dst, last), k);
      CarriedHits(db, e, last, k);
    }
  }

  lemma {:induction false} NothingCarried(db: Tables, e: Edge, edges: seq<Edge>, k: Key)
    requires forall g :: !Carries(db, e, g, k)
    ensures Carried(db, e, edges, k) == 0
    decreases |edges|
  {
    if edges != [] {
      NothingCarried(db, e, edges[..|edges| - 1], k);
    }
  }

  lemma {:induction false} CompositionHits(db: Tables, e: Edge, k: Key)
    ensures Hits(CompositionFacts(db, e), k) == Carried(db, e, db.edges, k)
  {
    if e.kind == 5 && e.src in db.symbols && db.symbols[e.src].isNamedInstance && KindAt(db, e.dst) == 31 {
      CarriedScan(db, e, db.edges, k);
    } else {
      NothingCarried(db, e, db.edges, k);
    }
  }

  lemma {:induction false} RowHits(db: Tables, phase: Phase, e: Edge, k: Key)
    ensures Hits(FactsOf(phase, db, e), k) == Times(db, phase, e, k)
  {
    match phase
    case Inheritance => InheritanceHits(db, e, k);
    case Specialization => TemplateHits(db, e, k);
    case Instantiation => TemplateHits(db, e, k);
    case FieldRelation => FieldHits(db, e, k);
    case InstanceComposition => CompositionHits(db, e, k);
    case Construction => ConstructionHits(db, e, k);
    case ByValueReturn => ReturnHits(db, e, k);
    case Use => UseHits(db, e, k);
    case Befriend => BefriendHits(db, e, k);
    case Declaration => DeclarationHits(db, e, k);
  }

  lemma {:induction false} PhaseHits(db: Tables, phase: Phase, edges: seq<Edge>, k: Key)
    ensures Hits(Scan(Rows(phase, db), edges), k) == Tally(db, phase, edges, k)
    decreases |edges|
  {
    if edges != [] {
      var front, last := edges[..|edges| - 1], edges[|edges| - 1];
      PhaseHits(db, phase, front, k);
      HitsConcat(Scan(Rows(phase, db), front), FactsOf(phase, db, last), k);
      RowHits(db, phase, last, k);
    }
  }

  lemma {:induction false} AllHits(db: Tables, phases: seq<Phase>, k: Key)
    ensures Hits(AllFacts(db, phases), k) == Total(db, phases, k)
    decreases |phases|
  {
    if phases != [] {
      var front, last := phases[..|phases| - 1], phases[|phases| - 1];
      AllHits(db, front, k);
      HitsConcat(AllFacts(db, front), PhaseFacts(last, db), k);
      PhaseHits(db, last, db.edges, k);
    }
  }

  lemma {:induction false} CarriedIff(db: Tables, e: Edge, edges: seq<Edge>, k: Key)
    ensures Carried(db, e, edges, k) > 0 <==> exists g :: g in edges && Carries(db, e, g, k)
    decreases |edges|
  {
    if edges != [] {
      var front, last := edges[..|edges| - 1], edges[|edges| - 1];
      CarriedIff(db, e, front, k);
      assert forall g :: g in edges <==> g in front || g == last;
    }
  }

  lemma {:induction false} TimesIff(db: Tables, phase: Phase, e: Edge, k: Key)
    ensures Times(db, phase, e, k) > 0 <==> Makes(db, phase, e, k)
  {
    CarriedIff(db, e, db.edges, k);
  }

  lemma {:induction false} TallyIff(db: Tables, phase: Phase, edges: seq<Edge>, k: Key)
    ensures Tally(db, phase, edges, k) > 0 <==> exists e :: e in edges && Makes(db, phase, e, k)
    decreases |edges|
  {
    if edges != [] {
      var front, last := edges[..|edges| - 1], edges[|edges| - 1];
      TallyIff(db, phase, front, k);
      TimesIff(db, phase, last, k);
      assert forall e :: e in edges <==> e in front || e == last;
    }
  }

  lemma {:induction false} TotalIff(db: Tables, phases: seq<Phase>, k: Key)
    ensures Total(db, phases, k) > 0 <==> exists phase, e :: phase in phases && e in db.edges && Makes(db, phase, e, k)
    decreases |phases|
  {
    if phases != [] {
      var front, last := phases[..|phases| - 1], phases[|phases| - 1];
      TotalIff(db, front, k);
      TallyIff(db, last, db.edges, k);
      assert forall p :: p in phases <==> p in front || p == last;
    }
  }

  lemma {:induction false} AllPhases(phase: Phase)
    ensures phase in PHASES
  {
    match phase
    case Inheritance => assert PHASES[0] == phase;
    case Specialization => assert PHASES[1] == phase;
    case Instantiation => assert PHASES[2] == phase;
    case FieldRelation => assert PHASES[3] == phase;
    case InstanceComposition => assert PHASES[4] == phase;
    case Construction => assert PHASES[5] == phase;
    case ByValueReturn => assert PHASES[6] == phase;
    case Use => assert PHASES[7] == phase;
    case Befriend => assert PHASES[8] == phase;
    case Declaration => assert PHASES[9] == phase;
  }

  /**
   A row stands for exactly the keys that some Layer-0 row makes, and it counts the Layer-0
   rows that make its key, but for inheritance and declarations, which count one.
   */
  lemma {:induction false} RowIff(db: Tables, k: Key)
    ensures k in RolledUp(db) <==> exists phase, e :: e in db.edges && Makes(db, phase, e, k)
    ensures k in RolledUp(db) ==> RolledUp(db)[k].count == if Counts(k.kind) then Total(db, PHASES, k) else 1
  {
    UpsertedIsGroupBy(AllFacts(db, PHASES), k);
    AllHits(db, PHASES, k);
    TotalIff(db, PHASES, k);
    forall phase: Phase ensures phase in PHASES {
      AllPhases(phase);
    }
    assert k in RolledUp(db) <==> Total(db, PHASES, k) > 0;
  }

  // ---- Relation by relation -------------------------------------------------------------------

  /** The one phase that makes keys of this relation and form, holdings apart. */
  function PhaseOf(k: Key): Phase
    requires !IsHolding(k.kind)
  {
    match k.kind
    case Generalizes => Inheritance
    case Implements => Inheritance
    case Specializes => Specialization
    case Instantiates => Instantiation
    case Creates => if k.form == Some(2) then ByValueReturn else Construction
    case Destroys => Construction
    case Uses => Use
    case Befriends => Befriend
    case Declares => Declaration
  }

  lemma {:induction false} MadeInPhase(db: Tables, phase: Phase, e: Edge, k: Key)
    requires Makes(db, phase, e, k)
    ensures if IsHolding(k.kind) then phase == FieldRelation || phase == InstanceComposition else phase == PhaseOf(k)
  {
  }

  ghost predicate DistinctPhases(phases: seq<Phase>) {
    forall i, j :: 0 <= i < j < |phases| ==> phases[i] != phases[j]
  }

  lemma {:induction false} PhasesAreDistinct()
    ensures DistinctPhases(PHASES)
  {
  }

  /** Of distinct phases, those that make nothing under the key add nothing. */
  function Sum(phases: seq<Phase>, n: Phase -> nat): nat {
    if phases == [] then 0 else Sum(phases[..|phases| - 1], n) + n(phases[|phases| - 1])
  }

  ghost function Tallies(db: Tables, k: Key): Phase -> nat {
    phase => Tally(db, phase, db.edges, k)
  }

  lemma {:induction false} TotalIsSum(db: Tables, phases: seq<Phase>, k: Key)
    ensures Total(db, phases, k) == Sum(phases, Tallies(db, k))
    decreases |phases|
  {
    if phases != [] {
      TotalIsSum(db, phases[..|phases| - 1], k);
    }
  }

  lemma {:induction false} SumOfTwo(phases: seq<Phase>, n: Phase -> nat, p: Phase, q: Phase)
    requires p != q && DistinctPhases(phases) && forall phase :: phase != p && phase != q ==> n(phase) == 0
    ensures Sum(phases, n) == (if p in phases then n(p) else 0) + (if q in phases then n(q) else 0)
    decreases |phases|
  {
    if phases != [] {
      var front, last := phases[..|phases| - 1], phases[|phases| - 1];
      SumOfTwo(front, n, p, q);
      assert forall x :: x in phases <==> x in front || x == last;
      assert last !in front;
    }
  }

  /** What no phase but these two makes under a key, counted. */
  lemma {:induction false} CountOfTwo(db: Tables, k: Key, p: Phase, q: Phase)
    requires p != q && forall phase, e :: Makes(db, phase, e, k) ==> phase == p || phase == q
    ensures Total(db, PHASES, k) == Tally(db, p, db.edges, k) + Tally(db, q, db.edges, k)
  {
    forall phase | phase != p && phase != q ensures Tally(db, phase, db.edges, k) == 0 {
      TallyIff(db, phase, db.edges, k);
    }
    TotalOfAll(db, k, p, q);
  }

  lemma {:induction false} TotalOfAll(db: Tables, k: Key, p: Phase, q: Phase)
    requires p != q && forall phase :: phase != p && phase != q ==> Tally(db, phase, db.edges, k) == 0
    ensures Total(db, PHASES, k) == Tally(db, p, db.edges, k) + Tally(db, q, db.edges, k)
  {
    PhasesAreDistinct();
    AllPhases(p);
    AllPhases(q);
    TotalIsSum(db, PHASES, k);
    SumOfTwo(PHASES, Tallies(db, k), p, q);
  }

  /** A relation other than a holding: its rows are made, and counted, by one phase. */
  lemma {:induction false} RelationIff(db: Tables, k: Key)
    requires !IsHolding(k.kind)
    ensures k in RolledUp(db) <==> exists e :: e in db.edges && Makes(db, PhaseOf(k), e, k)
    ensures k in RolledUp(db) ==> RolledUp(db)[k].count == if Counts(k.kind) then Tally(db, PhaseOf(k), db.edges, k) else 1
  {
    RowIff(db, k);
    forall phase, e | Makes(db, phase, e, k) ensures phase == PhaseOf(k) {
      MadeInPhase(db, phase, e, k);
    }
    var other := if PhaseOf(k) == FieldRelation then Use else FieldRelation;
    CountOfTwo(db, k, PhaseOf(k), other);
    TallyIff(db, other, db.edges, k);
  }

  /** s generalizes or implements d: a derived class of the primary s has the base d, which decides between the two. */
  lemma {:induction false} InheritsIff(db: Tables, k: Key)
    requires IsInheritance(k.kind)
    ensures k in RolledUp(db) <==> exists e :: e in db.edges && Inherits(db, e, k)
  {
    RelationIff(db, k);
  }

  /** s specializes or instantiates d: s is a specialization or an instance of a template with the primary d. */
  lemma {:induction false} BindsIff(db: Tables, k: Key)
    requires k.kind == Specializes || k.kind == Instantiates
    ensures k in RolledUp(db) <==> exists e :: e in db.edges && Binds(db, e, k)
  {
    RelationIff(db, k);
  }

  /** s creates d in some form, or destroys it. */
  lemma {:induction false} CreatesIff(db: Tables, k: Key)
    requires k.kind == Creates || k.kind == Destroys
    ensures k in RolledUp(db) <==> exists e :: e in db.edges && if k.form == Some(2) then Returns(db, e, k) else Constructs(db, e, k)
  {
    RelationIff(db, k);
    assert PhaseOf(k) == if k.form == Some(2) && k.kind == Creates then ByValueReturn else Construction;
  }

  /** s uses d through a method: a callable s owns calls or uses that method, and d owns it; the row counts such calls. */
  lemma {:induction false} UsesIff(db: Tables, k: Key)
    requires k.kind == Uses
    ensures k in RolledUp(db) <==> exists e :: e in db.edges && UsesThrough(db, e, k)
    ensures k in RolledUp(db) ==> RolledUp(db)[k].count == Tally(db, Use, db.edges, k)
  {
    RelationIff(db, k);
  }

  /** s befriends d: s declares the friend d. */
  lemma {:induction false} BefriendsIff(db: Tables, k: Key)
    requires k.kind == Befriends
    ensures k in RolledUp(db) <==> exists e :: e in db.edges && MakesFriend(db, e, k)
  {
    RelationIff(db, k);
  }

  /** The namespace s declares d: s contains it. */
  lemma {:induction false} DeclaresIff(db: Tables, k: Key)
    requires k.kind == Declares
    ensures k in RolledUp(db) <==> exists e :: e in db.edges && DeclaresMember(db, e, k)
  {
    RelationIff(db, k);
  }

  /** s composes, aggregates or associates d through a field: s has it, or is a named instance of a template that has it. */
  lemma {:induction false} HoldsIff(db: Tables, k: Key)
    requires IsHolding(k.kind)
    ensures k in RolledUp(db) <==> (exists e :: e in db.edges && HoldsThrough(db, e, k)) || CarriedSomewhere(db, k)
    ensures k in RolledUp(db) ==>
              (RolledUp(db)[k].count == Tally(db, FieldRelation, db.edges, k) + Tally(db, InstanceComposition, db.edges, k))
  {
    HoldingsOnly(db, k);
    TallyIff(db, FieldRelation, db.edges, k);
    TallyIff(db, InstanceComposition, db.edges, k);
  }

  ghost predicate CarriedSomewhere(db: Tables, k: Key) {
    exists e, g :: e in db.edges && g in db.edges && Carries(db, e, g, k)
  }

  lemma {:induction false} HoldingsOnly(db: Tables, k: Key)
    requires IsHolding(k.kind)
    ensures var n := Tally(db, FieldRelation, db.edges, k) + Tally(db, InstanceComposition, db.edges, k);
            (k in RolledUp(db) <==> n > 0) && (k in RolledUp(db) ==> RolledUp(db)[k].count == n)
  {
    UpsertedIsGroupBy(AllFacts(db, PHASES), k);
    AllHits(db, PHASES, k);
    forall phase, e | Makes(db, phase, e, k) ensures phase == FieldRelation || phase == InstanceComposition {
      MadeInPhase(db, phase, e, k);
    }
    CountOfTwo(db, k, FieldRelation, InstanceComposition);
  }

  // ---- The columns of a row -------------------------------------------------------------------

  /** An inheritance key is made by the first phase alone. */
  lemma {:induction false} OnlyInheritance(db: Tables, phases: seq<Phase>, k: Key)
    requires IsInheritance(k.kind) && DistinctPhases(phases) && phases != [] && phases[0] == Inheritance
    ensures Matching(AllFacts(db, phases), k) == Matching(PhaseFacts(Inheritance, db), k)
    decreases |phases|
  {
    var front, last := phases[..|phases| - 1], phases[|phases| - 1];
    HitsConcat(AllFacts(db, front), PhaseFacts(last, db), k);
    if front == [] {
      assert Matching(AllFacts(db, front), k) == [];
    } else {
      NoInheritance(db, last, k);
      OnlyInheritance(db, front, k);
    }
  }

  lemma {:induction false} NoInheritance(db: Tables, phase: Phase, k: Key)
    requires IsInheritance(k.kind) && phase != Inheritance
    ensures Matching(PhaseFacts(phase, db), k) == []
  {
    forall e ensures !Makes(db, phase, e, k) {
      NotMade(db, phase, e, k);
    }
    TallyIff(db, phase, db.edges, k);
    PhaseHits(db, phase, db.edges, k);
  }

  lemma {:induction false} NotMade(db: Tables, phase: Phase, e: Edge, k: Key)
    requires IsInheritance(k.kind) && phase != Inheritance
    ensures !Makes(db, phase, e, k)
  {
    if Makes(db, phase, e, k) {
      MadeInPhase(db, phase, e, k);
    }
  }

  /** Row i is the last of those that make the key. */
  ghost predicate LastInherits(db: Tables, edges: seq<Edge>, i: nat, k: Key) {
    i < |edges| && Inherits(db, edges[i], k) && forall j :: i < j < |edges| ==> !Inherits(db, edges[j], k)
  }

  /** The last fact a scan makes under a key is the last one of the last row that makes any. */
  lemma {:induction false} LastOfScan(row: Edge -> seq<Fact>, edges: seq<Edge>, k: Key) returns (i: nat)
    requires Matching(Scan(row, edges), k) != []
    ensures i < |edges| && Matching(row(edges[i]), k) != [] && forall j :: i < j < |edges| ==> Matching(row(edges[j]), k) == []
    ensures SameLast(Matching(Scan(row, edges), k), Matching(row(edges[i]), k))
    decreases |edges|
  {
    var front, last := edges[..|edges| - 1], edges[|edges| - 1];
    SplitLast(row, front, last, k);
    assert edges == front + [last];
    if Matching(row(last), k) != [] {
      i := |edges| - 1;
    } else {
      i := LastOfScan(row, front, k);
      assert edges[i] == front[i];
    }
  }

  lemma {:induction false} SplitLast(row: Edge -> seq<Fact>, front: seq<Edge>, last: Edge, k: Key)
    ensures var all, here := Matching(Scan(row, front + [last]), k), Matching(row(last), k);
            if here == [] then all == Matching(Scan(row, front), k) else SameLast(all, here)
  {
    assert (front + [last])[..|front|] == front;
    HitsConcat(Scan(row, front), row(last), k);
  }

  predicate SameLast(fs: seq<Fact>, hits: seq<Fact>) {
    fs != [] && hits != [] && fs[|fs| - 1] == hits[|hits| - 1]
  }

  lemma {:induction false} LastFact(db: Tables, edges: seq<Edge>, k: Key) returns (i: nat)
    requires Matching(Scan(Rows(Inheritance, db), edges), k) != []
    ensures LastInherits(db, edges, i, k)
    ensures ColumnsOf(edges[i], Matching(Scan(Rows(Inheritance, db), edges), k))
  {
    i := LastOfScan(Rows(Inheritance, db), edges, k);
    forall e ensures var fs := Matching(Rows(Inheritance, db)(e), k); if Inherits(db, e, k) then ColumnsOf(e, fs) else fs == [] {
      FactOfLast(db, e, k);
    }
  }

  /** The last of these facts has the access and virtuality of the row. */
  predicate ColumnsOf(e: Edge, fs: seq<Fact>) {
    && fs != []
    && fs[|fs| - 1].access == (if e.baseAccess.Some? then e.baseAccess.value else 0)
    && fs[|fs| - 1].isVirtual == (if e.isVirtual.Some? then e.isVirtual.value else 0)
  }

  lemma {:induction false} FactOfLast(db: Tables, e: Edge, k: Key)
    ensures var fs := Matching(InheritanceFact(db, e), k); if Inherits(db, e, k) then ColumnsOf(e, fs) else fs == []
  {
    var fs := Matching(InheritanceFact(db, e), k);
    InheritanceHits(db, e, k);
    if fs != [] {
      assert fs[|fs| - 1] in fs;
    }
  }

  /**
   Access and virtuality of an inheritance are those of the last row in table order that
   makes it, public and not virtual where that says nothing.
   */
  lemma {:induction false} InheritanceColumns(db: Tables, k: Key) returns (i: nat)
    requires k in RolledUp(db) && IsInheritance(k.kind)
    ensures LastInherits(db, db.edges, i, k)
    ensures RolledUp(db)[k].access == if db.edges[i].baseAccess.Some? then db.edges[i].baseAccess.value else 0
    ensures RolledUp(db)[k].isVirtual == if db.edges[i].isVirtual.Some? then db.edges[i].isVirtual.value else 0
  {
    UpsertedIsGroupBy(AllFacts(db, PHASES), k);
    PhasesAreDistinct();
    OnlyInheritance(db, PHASES, k);
    i := LastFact(db, db.edges, k);
  }

  /** Multiplicity and access of a holding are those of the field it goes through. */
  lemma {:induction false} HoldingColumns(db: Tables, k: Key)
    requires k in RolledUp(db) && IsHolding(k.kind)
    ensures k.via.Some? && k.via.value in db.symbols
    ensures var field, row := db.symbols[k.via.value], RolledUp(db)[k];
            && row.multiplicity == FieldTypes.Classify(TypeInfoAt(db, k.via.value)).multiplicity
            && row.access == (if field.access == Some("protected") then 1 else if field.access == Some("private") then 2 else 0)
            && row.isVirtual == 0 && row.partial == 0
  {
    RowIsSettled(db, k);
  }

  // ---- Interfaces ---------------------------------------------------------------------------

  /** A base is an interface when it has a pure method, no method that is not, and no field. */
  lemma {:induction false} InterfaceIff(symbols: Symbols, id: int)
    ensures IsInterfaceIn(symbols, id) <==> id in symbols && symbols[id].kind in TYPES && OnlyPure(symbols, symbols[id].usr)
  {
    if id in symbols {
      OwnersByMembers(symbols, symbols[id].usr);
    }
  }

  /** The node table has a row for every struct, union, class, enumeration, namespace and class template, with its type. */
  lemma {:induction false} NodeIff(db: Tables, sets: OwnerSets, id: int, t: EntityType)
    requires sets.For(db.symbols)
    ensures id in NodeTypes(db, sets) <==> id in db.symbols && db.symbols[id].kind in {2, 3, 4, 5, 22, 31}
    ensures id in NodeTypes(db, sets) && NodeTypes(db, sets)[id] == InterfaceClass
       <==> id in db.symbols && IsOfKind(db.symbols, id, false, Interface)
    ensures id in NodeTypes(db, sets) && NodeTypes(db, sets)[id] == t
       <==> id in db.symbols && StoredType(sets, id, db.symbols[id].kind) == Some(t)
  {
    if id in db.symbols {
      StoredTypeIff(db.symbols, sets, id, InterfaceClass);
    }
  }
}
