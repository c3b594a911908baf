/**
 * What each phase of the roll-up makes of one Layer-0 row: nothing, or a fact to upsert
 * (project/indexer/entity_rollup.py:561-1236).
 */
module EntityFacts {
  import opened ClassKinds
  import opened EntityTable
  import opened Layer0
  import opened Options
  import opened TemplateCollapse
  import FieldTypes
  import Text

  datatype Phase =
    | Inheritance | Specialization | Instantiation | FieldRelation | InstanceComposition
    | Construction | ByValueReturn | Use | Befriend | Declaration

  const PHASES: seq<Phase> := [
    Inheritance, Specialization, Instantiation, FieldRelation, InstanceComposition,
    Construction, ByValueReturn, Use, Befriend, Declaration]

  // ---- Lookups --------------------------------------------------------------------------

  function KindAt(db: Tables, id: int): int {
    if id in db.symbols then db.symbols[id].kind else -1
  }

  function TypeInfoAt(db: Tables, id: int): string {
    if id in db.symbols && db.symbols[id].typeInfo.Some? then db.symbols[id].typeInfo.value else ""
  }

  function Primary(db: Tables, id: int): int {
    Collapse(NextHops(db.edges), id)
  }

  /** The interface test of `OwnerSets`, as a function of the symbol table. */
  function IsInterfaceIn(symbols: Symbols, id: int): bool {
    && id in symbols && IsTypeKind(symbols[id].kind)
    && symbols[id].usr !in Owners(symbols, IsNonPureMethod)
    && symbols[id].usr !in Owners(symbols, IsField)
    && symbols[id].usr in Owners(symbols, IsPureMethod)
  }

  /** An edge from a method to the record that owns it. */
  predicate IsOwnership(db: Tables, e: Edge) {
    e.kind == 9 && IsEntityKind(KindAt(db, e.dst))
  }

  /** `... WHERE src_id = ? AND kind = 9 ... LIMIT 1`: the first owner in table order. */
  function Owner(db: Tables, edges: seq<Edge>, member: int): (owner: Option<int>)
    ensures owner.Some? ==> exists e :: e in edges && IsOwnership(db, e) && e.src == member && e.dst == owner.value
    ensures owner.None? ==> forall e :: e in edges && IsOwnership(db, e) ==> e.src != member
  {
    if edges == [] then None
    else if IsOwnership(db, edges[0]) && edges[0].src == member then Some(edges[0].dst)
    else Owner(db, edges[1..], member)
  }

  /** An edge from a field to a named template instance. */
  predicate NamesInstance(db: Tables, e: Edge) {
    e.kind == 7 && e.dst in db.symbols && db.symbols[e.dst].isNamedInstance
  }

  /** `... ORDER BY dst_id LIMIT 1`. */
  function NamedInstance(db: Tables, edges: seq<Edge>, field: int): (least: Option<int>)
    ensures least.Some? ==> exists e :: e in edges && NamesInstance(db, e) && e.src == field && e.dst == least.value
    ensures forall e :: e in edges && NamesInstance(db, e) && e.src == field ==> least.Some? && least.value <= e.dst
  {
    if edges == [] then None
    else
      var rest := NamedInstance(db, edges[1..], field);
      var e := edges[0];
      if NamesInstance(db, e) && e.src == field && (rest.None? || e.dst <= rest.value) then Some(e.dst) else rest
  }

  /** The referent of the argument in the highest position that has one. */
  function LastTypeRef(args: seq<TypeArg>): Option<int> {
    if args == [] then None
    else if args[|args| - 1].ref.Some? then args[|args| - 1].ref
    else LastTypeRef(args[..|args| - 1])
  }

  function ArgsOf(db: Tables, owner: int): seq<TypeArg> {
    if owner in db.typeArgs then db.typeArgs[owner] else []
  }

  function ParamsOf(db: Tables, owner: int): seq<TypeParam> {
    if owner in db.typeParams then db.typeParams[owner] else []
  }

  /** `param_pos.get(name)`: the first named parameter of that name. */
  function ParamPosition(params: seq<TypeParam>, name: string): Option<int> {
    if params == [] then None
    else if params[0].name != "" && params[0].name == name then Some(params[0].position)
    else ParamPosition(params[1..], name)
  }

  /** `bound.get(position)`: the last argument of that position. */
  function Bound(args: seq<TypeArg>, position: int): Option<int> {
    if args == [] then None
    else if args[|args| - 1].position == position then args[|args| - 1].ref
    else Bound(args[..|args| - 1], position)
  }

  /** `_resolve_entity_from_type`. */
  function ResolveType(db: Tables, spelling: string): Option<int> {
    var core := FieldTypes.Core(spelling);
    if core in db.byName then Some(db.byName[core]) else None
  }

  function AccessOf(access: Option<string>): int {
    if access == Some("protected") then 1 else if access == Some("private") then 2 else 0
  }

  function KindOfRelation(r: FieldTypes.Relation): EdgeKind {
    match r
    case Composes => Composes
    case Aggregates => Aggregates
    case Associates => Associates
  }

  function OrZero(n: Option<int>): int {
    if n.Some? then n.value else 0
  }

  /** The facts of a scan, row after row. */
  function Scan(row: Edge -> seq<Fact>, edges: seq<Edge>): seq<Fact> {
    if edges == [] then [] else Scan(row, edges[..|edges| - 1]) + row(edges[|edges| - 1])
  }

  // ---- One row of each phase ---------------------------------------------------------------

  /** A relation with no member, multiplicity one and nothing else to say. */
  function Plainly(src: int, dst: int, kind: EdgeKind): seq<Fact> {
    if src == dst then [] else [Fact(Key(src, dst, kind, None, None), 1, 0, 0, 0)]
  }

  /** The derived side collapses, the base does not. */
  function InheritanceFact(db: Tables, e: Edge): seq<Fact> {
    if e.kind != 2 || !IsEntityKind(KindAt(db, e.src)) || !IsEntityKind(KindAt(db, e.dst)) then []
    else if Primary(db, e.src) == e.dst then []
    else
      var kind := if IsInterfaceIn(db.symbols, e.dst) then Implements else Generalizes;
      [Fact(Key(Primary(db, e.src), e.dst, kind, None, None), 1, OrZero(e.baseAccess), OrZero(e.isVirtual), 0)]
  }

  /** The specialization or instance stays itself, its template collapses. */
  function TemplateFact(db: Tables, e: Edge, layer0Kind: int, kind: EdgeKind): seq<Fact> {
    if e.kind != layer0Kind || !IsTypeKind(KindAt(db, e.src)) || !IsTypeKind(KindAt(db, e.dst)) then []
    else Plainly(e.src, Primary(db, e.dst), kind)
  }

  /** The entity a field refers to, and whether it is a named instance. */
  function Referent(db: Tables, field: int): (Option<int>, bool) {
    var named := NamedInstance(db, db.edges, field);
    if named.Some? then (named, true)
    else
      var ref := LastTypeRef(ArgsOf(db, field));
      (if ref.Some? then ref else ResolveType(db, TypeInfoAt(db, field)), false)
  }

  /** The fact that an entity holds another through a field. */
  function HoldsFact(db: Tables, src: int, dst: int, field: int): seq<Fact>
    requires field in db.symbols
  {
    if src == dst then []
    else
      var shape := FieldTypes.Classify(TypeInfoAt(db, field));
      [Fact(Key(src, dst, KindOfRelation(shape.relation), Some(field), None),
            shape.multiplicity, AccessOf(db.symbols[field].access), 0, 0)]
  }

  function FieldFact(db: Tables, e: Edge): seq<Fact> {
    if e.kind != 8 || !IsEntityKind(KindAt(db, e.dst)) || KindAt(db, e.src) != FIELD then []
    else if TypeInfoAt(db, e.src) == "" then []
    else
      var (ref, isInstance) := Referent(db, e.src);
      if ref.None? || !IsEntityKind(KindAt(db, ref.value)) then []
      else HoldsFact(db, Primary(db, e.dst), if isInstance then ref.value else Primary(db, ref.value), e.src)
  }

  /** What a field of the primary template refers to in the instance: a bound argument or a fixed type. */
  function InstanceReferent(db: Tables, inst: int, prim: int, field: int): Option<int> {
    var core := FieldTypes.Core(TypeInfoAt(db, field));
    var position := ParamPosition(ParamsOf(db, prim), core);
    if position.Some? then Bound(ArgsOf(db, inst), position.value) else ResolveType(db, TypeInfoAt(db, field))
  }

  /** One field of the primary, carried onto the instance. */
  function CarriedFact(db: Tables, inst: int, prim: int, e: Edge): seq<Fact> {
    if e.kind != 8 || e.dst != prim || KindAt(db, e.src) != FIELD || TypeInfoAt(db, e.src) == "" then []
    else
      var ref := InstanceReferent(db, inst, prim, e.src);
      if ref.None? || !IsEntityKind(KindAt(db, ref.value)) then [] else HoldsFact(db, inst, ref.value, e.src)
  }

  function Carrying(db: Tables, inst: int, prim: int): Edge -> seq<Fact> {
    e => CarriedFact(db, inst, prim, e)
  }

  function CompositionFacts(db: Tables, e: Edge): seq<Fact> {
    if e.kind != 5 || e.src !in db.symbols || !db.symbols[e.src].isNamedInstance then []
    else if KindAt(db, e.dst) != CLASS_TEMPLATE then []
    else Scan(Carrying(db, e.src, e.dst), db.edges)
  }

  /** The record a constructor or destructor belongs to, or the symbol itself when it is a record. */
  function Constructed(db: Tables, id: int): Option<int> {
    if id !in db.symbols then None
    else
      var parent := db.symbols[id].parentUsr;
      if parent.Some? && parent.value in db.byUsr && IsEntityKind(KindAt(db, db.byUsr[parent.value])) then
        Some(db.byUsr[parent.value])
      else if IsEntityKind(db.symbols[id].kind) then Some(id)
      else None
  }

  /** Layer-0 construction kinds 10 to 15 as create forms. */
  function CreateForm(kind: int): int {
    if kind == 10 then 3
    else if kind == 11 then 4
    else if kind == 12 then 5
    else if kind == 13 then 7
    else if kind == 14 then 8
    else 6
  }

  function ConstructionFact(db: Tables, e: Edge): seq<Fact> {
    if !(10 <= e.kind <= 16) || e.src !in db.symbols || e.dst !in db.symbols then []
    else
      var owner, target := Owner(db, db.edges, e.src), Constructed(db, e.dst);
      if owner.None? || target.None? then []
      else
        var src, dst := Primary(db, owner.value), Primary(db, target.value);
        if e.kind == 16 then Plainly(src, dst, Destroys)
        else if src == dst then []
        else [Fact(Key(src, dst, Creates, None, Some(CreateForm(e.kind))), 1, 0, 0, if e.kind == 15 then 1 else 0)]
  }

  /** The text before the first `(` when there is one past the start, stripped. */
  function ReturnType(typeInfo: string): string {
    var paren := Text.Run(typeInfo, Text.Other('('));
    Text.Trim(if 0 < paren < |typeInfo| then typeInfo[..paren] else typeInfo)
  }

  function ReturnFact(db: Tables, e: Edge): seq<Fact> {
    if !IsOwnership(db, e) || (KindAt(db, e.src) != METHOD && KindAt(db, e.src) != CONSTRUCTOR) then []
    else if db.symbols[e.src].typeInfo.None? then []
    else
      var entity := Returned(db, ReturnType(TypeInfoAt(db, e.src)));
      if entity.None? then []
      else
        var src, dst := Primary(db, e.dst), Primary(db, entity.value);
        if src == dst then [] else [Fact(Key(src, dst, Creates, None, Some(BY_VALUE_RETURN)), 1, 0, 0, 1)]
  }

  /** The entity a return type names, if it names one. */
  function Returned(db: Tables, ret: string): Option<int> {
    if ret == "" || ret == "void" || ret == "auto" then None else ResolveType(db, ret)
  }

  predicate IsCallable(kind: int) {
    kind == METHOD || kind == 8 || kind == CONSTRUCTOR || kind == 25 || kind == 30
  }

  function UseFact(db: Tables, e: Edge): seq<Fact> {
    if (e.kind != 1 && e.kind != 7) || !IsCallable(KindAt(db, e.src)) || !IsCallable(KindAt(db, e.dst)) then []
    else
      var caller, callee := Owner(db, db.edges, e.src), Owner(db, db.edges, e.dst);
      if caller.None? || callee.None? then []
      else
        var src, dst := Primary(db, caller.value), Primary(db, callee.value);
        if src == dst then []
        else
          var partial := if OrZero(db.symbols[e.dst].isPure) != 0 then 1 else 0;
          [Fact(Key(src, dst, Uses, Some(e.dst), None), 1, 0, 0, partial)]
  }

  function BefriendFact(db: Tables, e: Edge): seq<Fact> {
    if e.kind != 17 || !IsEntityKind(KindAt(db, e.src)) || !IsEntityKind(KindAt(db, e.dst)) then []
    else Plainly(Primary(db, e.src), Primary(db, e.dst), Befriends)
  }

  predicate IsEntityNode(kind: int) {
    IsTypeKind(kind) || kind == NAMESPACE
  }

  function DeclarationFact(db: Tables, e: Edge): seq<Fact> {
    if e.kind != 3 || KindAt(db, e.src) != NAMESPACE || !IsEntityNode(KindAt(db, e.dst)) then []
    else Plainly(e.src, e.dst, Declares)
  }

  function FactsOf(phase: Phase, db: Tables, e: Edge): seq<Fact> {
    match phase
    case Inheritance => InheritanceFact(db, e)
    case Specialization => TemplateFact(db, e, 4, Specializes)
    case Instantiation => TemplateFact(db, e, 5, Instantiates)
    case FieldRelation => FieldFact(db, e)
    case InstanceComposition => CompositionFacts(db, e)
    case Construction => ConstructionFact(db, e)
    case ByValueReturn => ReturnFact(db, e)
    case Use => UseFact(db, e)
    case Befriend => BefriendFact(db, e)
    case Declaration => DeclarationFact(db, e)
  }

  function Rows(phase: Phase, db: Tables): Edge -> seq<Fact> {
    e => FactsOf(phase, db, e)
  }

  function PhaseFacts(phase: Phase, db: Tables): seq<Fact> {
    Scan(Rows(phase, db), db.edges)
  }

  function AllFacts(db: Tables, phases: seq<Phase>): seq<Fact> {
    if phases == [] then []
    else AllFacts(db, phases[..|phases| - 1]) + PhaseFacts(phases[|phases| - 1], db)
  }

  /** The stored entity type of every record, enum, class template and namespace. */
  function NodeTypes(db: Tables, sets: OwnerSets): map<int, EntityType> {
    map id | id in db.symbols && StoredType(sets, id, db.symbols[id].kind).Some?
      :: StoredType(sets, id, db.symbols[id].kind).value
  }
}
