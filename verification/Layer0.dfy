/** The symbol and edge tables the entity roll-up reads. */
module Layer0 {
  import opened Options

  /** A symbol row; `isPure`, `parentUsr`, `typeInfo` and `access` may be NULL. */
  datatype Symbol = Symbol(
    kind: int,
    usr: string,
    parentUsr: Option<string>,
    isPure: Option<int>,
    typeInfo: Option<string>,
    access: Option<string>,
    isNamedInstance: bool)

  datatype Edge = Edge(src: int, dst: int, kind: int, baseAccess: Option<int>, isVirtual: Option<int>)

  /** A template parameter or argument of some owner, in position order. */
  datatype TypeParam = TypeParam(position: int, name: string)
  datatype TypeArg = TypeArg(position: int, ref: Option<int>)

  /** `byUsr` is the unique index on `usr`; `byName` the answer of the lookup by qualified name or spelling. */
  datatype Tables = Tables(
    symbols: map<int, Symbol>,
    edges: seq<Edge>,
    typeParams: map<int, seq<TypeParam>>,
    typeArgs: map<int, seq<TypeArg>>,
    byUsr: map<string, int>,
    byName: map<string, int>)

  const STRUCT := 2
  const UNION := 3
  const CLASS := 4
  const ENUM := 5
  const FIELD := 6
  const METHOD := 21
  const NAMESPACE := 22
  const CONSTRUCTOR := 24
  const CLASS_TEMPLATE := 31

  predicate IsEntityKind(kind: int) {
    kind == STRUCT || kind == UNION || kind == CLASS || kind == ENUM
  }

  predicate IsTypeKind(kind: int) {
    IsEntityKind(kind) || kind == CLASS_TEMPLATE
  }
}
