/**
 * The `entity_edge` table as keyed upserts: each relation merges a repeated key in its own way
 * (the ON CONFLICT clauses of project/indexer/entity_rollup.py:561-1236), and the table that
 * results is the group-by of the facts that went in.
 */
module EntityTable {
  import opened Options

  datatype EdgeKind =
    | Generalizes | Implements | Specializes | Composes | Aggregates | Associates
    | Creates | Uses | Destroys | Befriends | Instantiates | Declares

  /** The unique index: endpoints, relation, the member it goes through and the form of creation. */
  datatype Key = Key(src: int, dst: int, kind: EdgeKind, via: Option<int>, form: Option<int>)

  datatype Row = Row(count: nat, multiplicity: int, access: int, isVirtual: int, partial: int)

  datatype Fact = Fact(key: Key, multiplicity: int, access: int, isVirtual: int, partial: int)

  const BY_VALUE_RETURN := 2

  predicate IsInheritance(kind: EdgeKind) {
    kind == Generalizes || kind == Implements
  }

  predicate Counts(kind: EdgeKind) {
    !IsInheritance(kind) && kind != Declares
  }

  /** Constructions overwrite `partial`; by-value returns leave it. */
  predicate OverwritesPartial(k: Key) {
    k.kind == Creates && k.form != Some(BY_VALUE_RETURN)
  }

  function Max(a: int, b: int): int {
    if a < b then b else a
  }

  // ---- Upserts ------------------------------------------------------------------------------

  function NewRow(f: Fact): Row {
    Row(1, f.multiplicity, f.access, f.isVirtual, f.partial)
  }

  /** The `ON CONFLICT ... DO` clause of the relation. */
  function OnConflict(row: Row, f: Fact): Row {
    match f.key.kind
    case Generalizes => row.(access := f.access, isVirtual := f.isVirtual)
    case Implements => row.(access := f.access, isVirtual := f.isVirtual)
    case Declares => row
    case Creates =>
      if f.key.form == Some(BY_VALUE_RETURN) then row.(count := row.count + 1)
      else row.(count := row.count + 1, partial := f.partial)
    case Uses => row.(count := row.count + 1, partial := Max(row.partial, f.partial))
    case _ => row.(count := row.count + 1)
  }

  type Table = map<Key, Row>

  function Upsert(table: Table, f: Fact): Table {
    table[f.key := if f.key in table then OnConflict(table[f.key], f) else NewRow(f)]
  }

  /** The table after upserting the facts one by one. */
  function Upserted(facts: seq<Fact>): Table {
    if facts == [] then map[] else Upsert(Upserted(facts[..|facts| - 1]), facts[|facts| - 1])
  }

  // ---- Group by -------------------------------------------------------------------------------

  function Matching(facts: seq<Fact>, k: Key): (fs: seq<Fact>)
    ensures forall f :: f in fs <==> f in facts && f.key == k
  {
    if facts == [] then []
    else
      var last := facts[|facts| - 1];
      var fs := Matching(facts[..|facts| - 1], k);
      assert forall f :: f in facts <==> f in facts[..|facts| - 1] || f == last;
      if last.key == k then fs + [last] else fs
  }

  function MaxPartial(fs: seq<Fact>): int
    requires fs != []
  {
    if |fs| == 1 then fs[0].partial else Max(MaxPartial(fs[..|fs| - 1]), fs[|fs| - 1].partial)
  }

  /** The aggregate of the facts that share a key, in the order they came. */
  function Aggregate(k: Key, fs: seq<Fact>): Row
    requires fs != []
  {
    var first, last := fs[0], fs[|fs| - 1];
    Row(if Counts(k.kind) then |fs| else 1,
        first.multiplicity,
        if IsInheritance(k.kind) then last.access else first.access,
        if IsInheritance(k.kind) then last.isVirtual else first.isVirtual,
        if k.kind == Uses then MaxPartial(fs) else if OverwritesPartial(k) then last.partial else first.partial)
  }

  /** The table has a row for exactly the keys of the facts, and that row aggregates them. */
  lemma {:induction false} UpsertedIsGroupBy(facts: seq<Fact>, k: Key)
    ensures k in Upserted(facts) <==> exists f :: f in facts && f.key == k
    ensures k in Upserted(facts) <==> Matching(facts, k) != []
    ensures k in Upserted(facts) ==> Upserted(facts)[k] == Aggregate(k, Matching(facts, k))
  {
    if facts != [] {
      var front, last := facts[..|facts| - 1], facts[|facts| - 1];
      UpsertedIsGroupBy(front, k);
      if last.key == k {
        AggregateOneMore(k, Matching(front, k), last);
      }
      var fs := Matching(facts, k);
      if fs != [] {
        assert fs[0] in fs;
      }
    }
  }

  lemma {:induction false} AggregateOneMore(k: Key, fs: seq<Fact>, f: Fact)
    requires f.key == k
    ensures Aggregate(k, fs + [f]) == if fs == [] then NewRow(f) else OnConflict(Aggregate(k, fs), f)
  {
    var more := fs + [f];
    assert more[..|more| - 1] == fs;
  }

  // ---- Order of arrival -------------------------------------------------------------------

  /** Facts with one key agree on all that is not merged: then order cannot matter. */
  predicate Coherent(facts: seq<Fact>) {
    forall f, g :: f in facts && g in facts && f.key == g.key ==>
      && f.multiplicity == g.multiplicity
      && (!IsInheritance(f.key.kind) ==> f.access == g.access && f.isVirtual == g.isVirtual)
      && (f.key.kind != Uses ==> f.partial == g.partial)
  }

  lemma {:induction false} MatchingCounts(facts: seq<Fact>, k: Key, f: Fact)
    ensures multiset(Matching(facts, k))[f] == if f.key == k then multiset(facts)[f] else 0
  {
    if facts != [] {
      var front, last := facts[..|facts| - 1], facts[|facts| - 1];
      assert facts == front + [last];
      MatchingCounts(front, k, f);
    }
  }

  lemma {:induction false} SameMatching(facts: seq<Fact>, others: seq<Fact>, k: Key)
    requires multiset(facts) == multiset(others)
    ensures multiset(Matching(facts, k)) == multiset(Matching(others, k))
  {
    forall f
      ensures multiset(Matching(facts, k))[f] == multiset(Matching(others, k))[f]
    {
      MatchingCounts(facts, k, f);
      MatchingCounts(others, k, f);
    }
  }

  lemma {:induction false} MaxPartialIsMax(fs: seq<Fact>)
    requires fs != []
    ensures forall f :: f in fs ==> f.partial <= MaxPartial(fs)
    ensures exists f :: f in fs && f.partial == MaxPartial(fs)
  {
    var front, last := fs[..|fs| - 1], fs[|fs| - 1];
    assert fs == front + [last];
    if |fs| > 1 {
      MaxPartialIsMax(front);
      var f :| f in front && f.partial == MaxPartial(front);
      assert f in fs && last in fs;
    } else {
      assert fs[0] in fs;
    }
  }

  /** What a row says of partial construction: of uses the largest value, of other creations than by value (2) the last, else the first. */
  lemma {:induction false} PartialOf(facts: seq<Fact>, k: Key)
    requires k in Upserted(facts)
    ensures var fs, p := Matching(facts, k), Upserted(facts)[k].partial;
            && fs != []
            && (k.kind == Uses ==> (forall f :: f in fs ==> f.partial <= p) && exists f :: f in fs && f.partial == p)
            && (k.kind == Creates && k.form != Some(2) ==> p == fs[|fs| - 1].partial)
            && (k.kind != Uses && !(k.kind == Creates && k.form != Some(2)) ==> p == fs[0].partial)
  {
    UpsertedIsGroupBy(facts, k);
    MaxPartialIsMax(Matching(facts, k));
  }

  lemma {:induction false} SameMax(fs: seq<Fact>, gs: seq<Fact>)
    requires fs != [] && gs != [] && multiset(fs) == multiset(gs)
    ensures MaxPartial(fs) == MaxPartial(gs)
  {
    MaxPartialIsMax(fs);
    MaxPartialIsMax(gs);
    var f :| f in fs && f.partial == MaxPartial(fs);
    var g :| g in gs && g.partial == MaxPartial(gs);
    assert f in multiset(fs) && g in multiset(gs);
    assert f in gs && g in fs;
  }

  /** Everything of a row but the access and virtuality of an inheritance. */
  predicate SameButLastWrite(k: Key, a: Row, b: Row) {
    && a.count == b.count && a.multiplicity == b.multiplicity && a.partial == b.partial
    && (!IsInheritance(k.kind) ==> a == b)
  }

  /** The same facts in another order give the same table, last writes of inheritance rows apart. */
  lemma {:induction false} OrderIsImmaterial(facts: seq<Fact>, others: seq<Fact>, k: Key)
    requires Coherent(facts) && multiset(facts) == multiset(others)
    ensures k in Upserted(facts) <==> k in Upserted(others)
    ensures k in Upserted(facts) ==> SameButLastWrite(k, Upserted(facts)[k], Upserted(others)[k])
  {
    UpsertedIsGroupBy(facts, k);
    UpsertedIsGroupBy(others, k);
    SameMatching(facts, others, k);
    var fs, gs := Matching(facts, k), Matching(others, k);
    assert |fs| == |multiset(fs)| == |multiset(gs)| == |gs|;
    if fs != [] {
      SameMax(fs, gs);
      EndsCoherent(facts, others, fs, gs);
    }
  }

  lemma {:induction false} EndsCoherent(facts: seq<Fact>, others: seq<Fact>, fs: seq<Fact>, gs: seq<Fact>)
    requires Coherent(facts) && multiset(facts) == multiset(others) && fs != [] && gs != []
    requires forall f :: f in fs ==> f in facts && f.key == fs[0].key
    requires forall g :: g in gs ==> g in others && g.key == fs[0].key
    ensures forall f, g :: f in {fs[0], fs[|fs| - 1]} && g in {gs[0], gs[|gs| - 1]} ==>
              && f.multiplicity == g.multiplicity
              && (!IsInheritance(fs[0].key.kind) ==> f.access == g.access && f.isVirtual == g.isVirtual)
              && (fs[0].key.kind != Uses ==> f.partial == g.partial)
  {
    forall g | g in gs
      ensures g in facts
    {
      assert g in multiset(others);
    }
    assert fs[0] in fs && fs[|fs| - 1] in fs && gs[0] in gs && gs[|gs| - 1] in gs;
  }

  /** The exception is real: an inheritance keeps the access of whichever row came last. */
  lemma {:induction false} LastWriteWins(f: Fact, g: Fact)
    requires f.key == g.key && IsInheritance(f.key.kind) && f.access != g.access
    ensures Upserted([f, g])[f.key].access != Upserted([g, f])[f.key].access
  {
    assert [f, g][..1] == [f] && [g, f][..1] == [g] && [f][..0] == [] && [g][..0] == [];
    assert Upserted([f]) == Upsert(map[], f) && Upserted([g]) == Upsert(map[], g);
  }
}
