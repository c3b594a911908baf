/**
 * Concrete, abstract or interface: the precomputed owner sets of the roll-up
 * (entity_rollup.py:152-205) and the counting loops of the entity graph and of the model
 * (entity_graph.py:947-984, model.py:2697-2739) answer alike, and so do the stored and the
 * derived entity type outside namespaces.
 */
module ClassKinds {
  import opened Layer0
  import opened Options

  datatype ClassKind = Concrete | Abstract | Interface

  /** The entity types of the `entity_node` table; `Id` is the stored number. */
  datatype EntityType =
    | OtherType | PlainClass | AbstractClass | InterfaceClass | UnionType | EnumType
    | ClassTemplate | AbstractClassTemplate | InterfaceTemplate | Namespace

  type Symbols = map<int, Symbol>

  // ---- Owner sets -----------------------------------------------------------------------

  predicate IsPureMethod(s: Symbol) {
    s.kind == METHOD && s.isPure == Some(1)
  }

  predicate IsNonPureMethod(s: Symbol) {
    s.kind == METHOD && s.isPure == Some(0)
  }

  predicate IsField(s: Symbol) {
    s.kind == FIELD
  }

  /** `SELECT DISTINCT parent_usr ... WHERE <member> AND parent_usr IS NOT NULL`. */
  function Owners(symbols: Symbols, member: Symbol -> bool): set<string> {
    set id | id in symbols && member(symbols[id]) && symbols[id].parentUsr.Some? :: symbols[id].parentUsr.value
  }

  class OwnerSets {
    const nonPureMethodOwners: set<string>
    const fieldOwners: set<string>
    const pureMethodOwners: set<string>
    const usrById: map<int, string>

    constructor (symbols: Symbols)
      ensures For(symbols)
    {
      nonPureMethodOwners := Owners(symbols, IsNonPureMethod);
      fieldOwners := Owners(symbols, IsField);
      pureMethodOwners := Owners(symbols, IsPureMethod);
      usrById := map id | id in symbols && IsTypeKind(symbols[id].kind) :: symbols[id].usr;
    }

    ghost predicate For(symbols: Symbols) {
      && nonPureMethodOwners == Owners(symbols, IsNonPureMethod)
      && fieldOwners == Owners(symbols, IsField)
      && pureMethodOwners == Owners(symbols, IsPureMethod)
      && usrById == map id | id in symbols && IsTypeKind(symbols[id].kind) :: symbols[id].usr
    }

    function IsInterface(id: int): bool {
      if id !in usrById then false
      else if usrById[id] in nonPureMethodOwners then false
      else if usrById[id] in fieldOwners then false
      else usrById[id] in pureMethodOwners
    }

    function HasPure(id: int): bool {
      id in usrById && usrById[id] in pureMethodOwners
    }

    /** `_entity_kind_id`. */
    function EntityKind(id: int, kind: int): EntityType {
      if kind == ENUM then EnumType
      else if kind == UNION then UnionType
      else
        var isTemplate := kind == CLASS_TEMPLATE;
        if IsInterface(id) then if isTemplate then InterfaceTemplate else InterfaceClass
        else if HasPure(id) then if isTemplate then AbstractClassTemplate else AbstractClass
        else if isTemplate then ClassTemplate else PlainClass
    }
  }

  // ---- Counting loops -------------------------------------------------------------------

  function Count(rows: seq<Symbol>, member: Symbol -> bool): nat {
    if rows == [] then 0 else (if member(rows[0]) then 1 else 0) + Count(rows[1..], member)
  }

  function KindOfMembers(rows: seq<Symbol>): ClassKind {
    if Count(rows, IsPureMethod) == 0 then Concrete
    else if Count(rows, IsNonPureMethod) == 0 && Count(rows, IsField) == 0 then Interface
    else Abstract
  }

  /** The loop over a record's members, as `_class_kind` and `_record_class_kind` run it. */
  method ClassifyMembers(rows: seq<Symbol>) returns (kind: ClassKind)
    ensures kind == KindOfMembers(rows)
  {
    var pure, nonPure, fields := 0, 0, 0;
    for i := 0 to |rows|
      invariant pure + Count(rows[i..], IsPureMethod) == Count(rows, IsPureMethod)
      invariant nonPure + Count(rows[i..], IsNonPureMethod) == Count(rows, IsNonPureMethod)
      invariant fields + Count(rows[i..], IsField) == Count(rows, IsField)
    {
      assert rows[i..][0] == rows[i] && rows[i..][1..] == rows[i + 1..];
      if rows[i].kind == METHOD {
        if rows[i].isPure == Some(1) {
          pure := pure + 1;
        } else if rows[i].isPure == Some(0) {
          nonPure := nonPure + 1;
        }
      } else if rows[i].kind == FIELD {
        fields := fields + 1;
      }
    }
    kind := if pure == 0 then Concrete else if nonPure == 0 && fields == 0 then Interface else Abstract;
  }

  ghost predicate IsRow(symbols: Symbols, s: Symbol) {
    exists id :: id in symbols && symbols[id] == s
  }

  /** `SELECT kind, is_pure FROM symbol WHERE parent_usr = ?`: the rows, in any order. */
  ghost predicate AreMembers(symbols: Symbols, usr: string, rows: seq<Symbol>) {
    forall s :: s in rows <==> IsRow(symbols, s) && s.parentUsr == Some(usr)
  }

  // ---- Agreement -------------------------------------------------------------------------

  lemma {:induction false} CountIsZeroIff(rows: seq<Symbol>, member: Symbol -> bool)
    ensures Count(rows, member) == 0 <==> forall s :: s in rows ==> !member(s)
  {
    if rows != [] {
      CountIsZeroIff(rows[1..], member);
      assert forall s :: s in rows <==> s == rows[0] || s in rows[1..];
    }
  }

  lemma {:induction false} OwnsIff(symbols: Symbols, usr: string, rows: seq<Symbol>, member: Symbol -> bool)
    requires AreMembers(symbols, usr, rows)
    ensures usr in Owners(symbols, member) <==> Count(rows, member) != 0
  {
    CountIsZeroIff(rows, member);
    if usr in Owners(symbols, member) {
      var id :| id in symbols && member(symbols[id]) && symbols[id].parentUsr == Some(usr);
      assert IsRow(symbols, symbols[id]) && symbols[id] in rows;
    }
    if Count(rows, member) != 0 {
      var s :| s in rows && member(s);
      var id :| id in symbols && symbols[id] == s;
    }
  }

  function KindOf(isInterface: bool, hasPure: bool): ClassKind {
    if isInterface then Interface else if hasPure then Abstract else Concrete
  }

  /** The owner sets and the member count classify every record and class template alike. */
  lemma {:induction false} ClassificationsAgree(symbols: Symbols, sets: OwnerSets, id: int, rows: seq<Symbol>)
    requires sets.For(symbols) && id in symbols && IsTypeKind(symbols[id].kind)
    requires AreMembers(symbols, symbols[id].usr, rows)
    ensures KindOfMembers(rows) == KindOf(sets.IsInterface(id), sets.HasPure(id))
  {
    var usr := symbols[id].usr;
    OwnsIff(symbols, usr, rows, IsPureMethod);
    OwnsIff(symbols, usr, rows, IsNonPureMethod);
    OwnsIff(symbols, usr, rows, IsField);
  }

  // ---- Stored and derived entity types --------------------------------------------------

  /** The row `_materialise_entity_nodes` writes for a symbol, if it writes one. */
  function StoredType(sets: OwnerSets, id: int, kind: int): Option<EntityType> {
    if kind == NAMESPACE then Some(Namespace)
    else if IsTypeKind(kind) then Some(sets.EntityKind(id, kind))
    else None
  }

  /** `_derive_entity_type`: the same question answered without the stored table. */
  function DerivedType(kind: int, classKind: ClassKind): EntityType {
    if kind == ENUM then EnumType
    else if kind == UNION then UnionType
    else if kind != STRUCT && kind != CLASS && kind != CLASS_TEMPLATE then OtherType
    else
      var isTemplate := kind == CLASS_TEMPLATE;
      match classKind
      case Interface => if isTemplate then InterfaceTemplate else InterfaceClass
      case Abstract => if isTemplate then AbstractClassTemplate else AbstractClass
      case Concrete => if isTemplate then ClassTemplate else PlainClass
  }

  /** A stored type is the derived one exactly when the symbol is not a namespace. */
  lemma {:induction false} StoredIsDerivedIff(symbols: Symbols, sets: OwnerSets, id: int, members: seq<Symbol>)
    requires sets.For(symbols) && id in symbols && AreMembers(symbols, symbols[id].usr, members)
    requires StoredType(sets, id, symbols[id].kind).Some?
    ensures StoredType(sets, id, symbols[id].kind) == Some(DerivedType(symbols[id].kind, KindOfMembers(members)))
       <==> symbols[id].kind != NAMESPACE
  {
    if symbols[id].kind != NAMESPACE {
      ClassificationsAgree(symbols, sets, id, members);
    }
  }

  // ---- The types by what a record declares ----------------------------------------------

  /** A method (21) declared pure. */
  ghost predicate HasPureMethod(symbols: Symbols, usr: string) {
    exists id :: id in symbols && symbols[id].parentUsr == Some(usr) && symbols[id].kind == 21 && symbols[id].isPure == Some(1)
  }

  /** A method (21) known not to be pure. */
  ghost predicate HasBodiedMethod(symbols: Symbols, usr: string) {
    exists id :: id in symbols && symbols[id].parentUsr == Some(usr) && symbols[id].kind == 21 && symbols[id].isPure == Some(0)
  }

  /** A data member (6). */
  ghost predicate HasDataMember(symbols: Symbols, usr: string) {
    exists id :: id in symbols && symbols[id].parentUsr == Some(usr) && symbols[id].kind == 6
  }

  ghost predicate OnlyPure(symbols: Symbols, usr: string) {
    HasPureMethod(symbols, usr) && !HasBodiedMethod(symbols, usr) && !HasDataMember(symbols, usr)
  }

  lemma {:induction false} OwnersByMembers(symbols: Symbols, usr: string)
    ensures usr in Owners(symbols, IsPureMethod) <==> HasPureMethod(symbols, usr)
    ensures usr in Owners(symbols, IsNonPureMethod) <==> HasBodiedMethod(symbols, usr)
    ensures usr in Owners(symbols, IsField) <==> HasDataMember(symbols, usr)
  {
  }

  /** An interface has pure methods and nothing else of note, an abstract class has one pure method, a concrete one none. */
  lemma {:induction false} KindByMembers(symbols: Symbols, usr: string, rows: seq<Symbol>)
    requires AreMembers(symbols, usr, rows)
    ensures KindOfMembers(rows) == Interface <==> OnlyPure(symbols, usr)
    ensures KindOfMembers(rows) == Abstract <==> HasPureMethod(symbols, usr) && !OnlyPure(symbols, usr)
    ensures KindOfMembers(rows) == Concrete <==> !HasPureMethod(symbols, usr)
  {
    OwnersByMembers(symbols, usr);
    OwnsIff(symbols, usr, rows, IsPureMethod);
    OwnsIff(symbols, usr, rows, IsNonPureMethod);
    OwnsIff(symbols, usr, rows, IsField);
  }

  /** A struct (2), a class (4) or a class template (31) of this kind. */
  ghost predicate IsOfKind(symbols: Symbols, id: int, template: bool, kind: ClassKind)
    requires id in symbols
  {
    && (if template then symbols[id].kind == 31 else symbols[id].kind in {2, 4})
    && match kind
       case Interface => OnlyPure(symbols, symbols[id].usr)
       case Abstract => HasPureMethod(symbols, symbols[id].usr) && !OnlyPure(symbols, symbols[id].usr)
       case Concrete => !HasPureMethod(symbols, symbols[id].usr)
  }

  /** The stored type of every symbol: unions are 3, enumerations 5, namespaces 22, and nothing else has one. */
  lemma {:induction false} StoredTypeIff(symbols: Symbols, sets: OwnerSets, id: int, t: EntityType)
    requires sets.For(symbols) && id in symbols
    ensures StoredType(sets, id, symbols[id].kind) == Some(t) <==>
      match t
      case OtherType => false
      case PlainClass => IsOfKind(symbols, id, false, Concrete)
      case AbstractClass => IsOfKind(symbols, id, false, Abstract)
      case InterfaceClass => IsOfKind(symbols, id, false, Interface)
      case UnionType => symbols[id].kind == 3
      case EnumType => symbols[id].kind == 5
      case ClassTemplate => IsOfKind(symbols, id, true, Concrete)
      case AbstractClassTemplate => IsOfKind(symbols, id, true, Abstract)
      case InterfaceTemplate => IsOfKind(symbols, id, true, Interface)
      case Namespace => symbols[id].kind == 22
  {
    OwnersByMembers(symbols, symbols[id].usr);
  }

  /** The derived type of a symbol without a row: a record's by its kind, another symbol's is none of these. */
  lemma {:induction false} DerivedTypeIff(kind: int, classKind: ClassKind, t: EntityType)
    ensures DerivedType(kind, classKind) == t <==>
      match t
      case OtherType => kind !in {2, 3, 4, 5, 31}
      case PlainClass => kind in {2, 4} && classKind == Concrete
      case AbstractClass => kind in {2, 4} && classKind == Abstract
      case InterfaceClass => kind in {2, 4} && classKind == Interface
      case UnionType => kind == 3
      case EnumType => kind == 5
      case ClassTemplate => kind == 31 && classKind == Concrete
      case AbstractClassTemplate => kind == 31 && classKind == Abstract
      case InterfaceTemplate => kind == 31 && classKind == Interface
      case Namespace => false
  {
  }

  // ---- The entity graph's cached reader -------------------------------------------------

  class EntityTypes {
    const symbols: Symbols
    const nodes: map<int, EntityType>
    var kindCache: map<int, ClassKind>
    var typeCache: map<int, EntityType>

    constructor (symbols: Symbols, nodes: map<int, EntityType>)
      ensures Valid() && this.symbols == symbols && this.nodes == nodes
    {
      this.symbols := symbols;
      this.nodes := nodes;
      kindCache := map[];
      typeCache := map[];
    }

    /** What the owner sets say of a record; an id without a symbol has no members. */
    ghost function RecordKind(id: int): ClassKind {
      if id !in symbols then Concrete
      else
        var usr := symbols[id].usr;
        if usr !in Owners(symbols, IsPureMethod) then Concrete
        else if usr in Owners(symbols, IsNonPureMethod) || usr in Owners(symbols, IsField) then Abstract
        else Interface
    }

    /** The stored type, or the derived one of a symbol that has no row. */
    ghost function TypeOf(id: int): EntityType {
      if id in nodes then nodes[id]
      else DerivedType(if id in symbols then symbols[id].kind else 0, RecordKind(id))
    }

    ghost predicate Valid()
      reads this
    {
      && (forall id :: id in kindCache ==> kindCache[id] == RecordKind(id))
      && (forall id :: id in typeCache ==> typeCache[id] == TypeOf(id))
    }

    /** `_class_kind`; `rows` are the members the query returns. */
    method ClassKindOf(id: int, rows: seq<Symbol>) returns (kind: ClassKind)
      requires Valid()
      requires if id in symbols then AreMembers(symbols, symbols[id].usr, rows) else rows == []
      modifies this`kindCache
      ensures Valid() && kind == RecordKind(id)
    {
      if id in kindCache {
        return kindCache[id];
      }
      kind := ClassifyMembers(rows);
      if id in symbols {
        OwnsIff(symbols, symbols[id].usr, rows, IsPureMethod);
        OwnsIff(symbols, symbols[id].usr, rows, IsNonPureMethod);
        OwnsIff(symbols, symbols[id].usr, rows, IsField);
      }
      kindCache := kindCache[id := kind];
    }

    /** `_entity_type`; it asks for the members only when it has to classify a record. */
    method EntityTypeOf(id: int, rows: seq<Symbol>) returns (t: EntityType)
      requires Valid()
      requires if id in symbols then AreMembers(symbols, symbols[id].usr, rows) else rows == []
      modifies this`kindCache, this`typeCache
      ensures Valid() && t == TypeOf(id)
    {
      if id in typeCache {
        return typeCache[id];
      }
      if id in nodes {
        t := nodes[id];
      } else {
        var kind := if id in symbols then symbols[id].kind else 0;
        var classKind := Concrete;
        if kind == STRUCT || kind == CLASS || kind == CLASS_TEMPLATE {
          classKind := ClassKindOf(id, rows);
        }
        t := DerivedType(kind, classKind);
      }
      typeCache := typeCache[id := t];
    }
  }
}
