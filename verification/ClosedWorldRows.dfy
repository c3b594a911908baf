/**
 The closed-world lookup reads one argument row of each call edge, though an edge carries
 the rows of all calls its caller makes. When its answer still covers every row is decided
 here, for one environment and for all of them.
 */
module ClosedWorldRows {
  import opened Options
  import opened Provenance
  import opened Devirtualization
  import GammaEngine

  // ---- Where the class of an argument comes from ----------------------------------------

  /** An argument's class is unknown, fixed by the row, or read from the environment. */
  datatype Source = Nowhere | Exactly(class_: Usr) | Through(key: Key)

  function DeclSource(ctx: Usr, declUsr: Option<Usr>): Source {
    if declUsr.None? then Nowhere else Through(Key(ctx, Decl(declUsr.value)))
  }

  function SourceOf(ctx: Usr, a: CallArg): Source {
    match a.srcKind
    case Literal => Nowhere
    case Unknown => Nowhere
    case Construct => if a.typeUsr.Some? then Exactly(a.typeUsr.value) else Nowhere
    case CallResult => if a.isValue && a.typeUsr.Some? then Exactly(a.typeUsr.value) else Nowhere
    case _ => if a.isValue && a.typeUsr.Some? then Exactly(a.typeUsr.value) else DeclSource(ctx, a.declUsr)
  }

  function Meaning(gamma: Gamma, s: Source): TypeSet {
    match s
    case Nowhere => Top
    case Exactly(c) => Types({c})
    case Through(key) => if key in gamma then gamma[key] else Top
  }

  lemma {:induction false} ResolveIsMeaning(gamma: Gamma, ctx: Usr, a: CallArg)
    ensures ResolveSource(gamma, ctx, a) == Meaning(gamma, SourceOf(ctx, a))
  {
  }

  // ---- Rows and first rows ------------------------------------------------------------------

  /** a is a row some call of the edge has at the position. */
  predicate IsRow(cc: CallContext, pos: nat, a: CallArg) {
    a in cc.args && a.position == pos
  }

  lemma {:induction false} FirstIsRow(args: seq<CallArg>, pos: nat)
    ensures ArgAt(args, pos).Some? ==> ArgAt(args, pos).value in args && ArgAt(args, pos).value.position == pos
    ensures ArgAt(args, pos).None? ==> forall a :: a in args ==> a.position != pos
    decreases |args|
  {
    if args != [] {
      FirstIsRow(args[1..], pos);
      assert args == [args[0]] + args[1..];
    }
  }

  /** The source of the one row the lookup reads. */
  function FirstSource(cc: CallContext, pos: nat): Source {
    var arg := ArgAt(cc.args, pos);
    if arg.None? then Nowhere else SourceOf(cc.caller, arg.value)
  }

  lemma {:induction false} SitePassesFirst(gamma: Gamma, cc: CallContext, pos: nat)
    ensures SitePasses(gamma, cc, pos) == Meaning(gamma, FirstSource(cc, pos))
  {
    var arg := ArgAt(cc.args, pos);
    if arg.Some? {
      ResolveIsMeaning(gamma, cc.caller, arg.value);
    }
  }

  // ---- When the answer covers every row ----------------------------------------------------

  /** The answer is above what every row of every call edge resolves to. */
  ghost predicate CoversRows(w: World, gamma: Gamma, callee: Usr, pos: nat) {
    forall k, a :: 0 <= k < |SitesOf(w, callee)| && IsRow(SitesOf(w, callee)[k], pos, a) ==>
                     Below(ResolveSource(gamma, SitesOf(w, callee)[k].caller, a), ClosedWorld(w, gamma, callee, pos))
  }

  /** Some call edge's first row passes the class. */
  ghost predicate FirstPasses(w: World, gamma: Gamma, callee: Usr, pos: nat, class_: Usr) {
    exists k :: 0 <= k < |SitesOf(w, callee)| && Admits(SitePasses(gamma, SitesOf(w, callee)[k], pos), class_)
  }

  /** The row resolves to a finite set each class of which the first row of some edge passes. */
  ghost predicate PassedByFirsts(w: World, gamma: Gamma, callee: Usr, pos: nat, ts: TypeSet) {
    ts.Types? && forall c :: c in ts.classes ==> FirstPasses(w, gamma, callee, pos, c)
  }

  /** In one environment, every row is covered exactly when the answer is TOP or the first rows pass what all rows do. */
  lemma {:induction false} CoversRowsIff(w: World, gamma: Gamma, callee: Usr, pos: nat)
    ensures CoversRows(w, gamma, callee, pos)
       <==> || ClosedWorld(w, gamma, callee, pos).Top?
            || forall k, a :: 0 <= k < |SitesOf(w, callee)| && IsRow(SitesOf(w, callee)[k], pos, a) ==>
                 PassedByFirsts(w, gamma, callee, pos, ResolveSource(gamma, SitesOf(w, callee)[k].caller, a))
  {
    ClosedWorldExact(w, gamma, callee, pos);
    var r := ClosedWorld(w, gamma, callee, pos);
    if r.Types? {
      FirstsAreUnion(w, gamma, callee, pos);
      forall ts: TypeSet ensures Below(ts, r) <==> PassedByFirsts(w, gamma, callee, pos, ts) {
        if PassedByFirsts(w, gamma, callee, pos, ts) {
          forall c | c in ts.classes ensures c in r.classes {
            assert FirstPasses(w, gamma, callee, pos, c);
          }
        }
      }
    }
  }

  lemma {:induction false} FirstsAreUnion(w: World, gamma: Gamma, callee: Usr, pos: nat)
    requires ClosedWorld(w, gamma, callee, pos).Types?
    ensures forall c :: c in ClosedWorld(w, gamma, callee, pos).classes <==> FirstPasses(w, gamma, callee, pos, c)
  {
    ClosedWorldExact(w, gamma, callee, pos);
  }

  /** Every row's source is that of the first row of some call edge, or the answer is TOP in every environment. */
  ghost predicate SourcesCovered(w: World, callee: Usr, pos: nat) {
    var sites := SitesOf(w, callee);
    || callee !in w.known
    || (exists k :: 0 <= k < |sites| && FirstSource(sites[k], pos) == Nowhere)
    || forall k, a :: 0 <= k < |sites| && IsRow(sites[k], pos, a) ==>
         exists l :: 0 <= l < |sites| && FirstSource(sites[l], pos) == SourceOf(sites[k].caller, a)
  }

  /** On the rows alone: the lookup covers every row in all environments exactly when the first rows have every source. */
  lemma {:induction false} CoversRowsAlwaysIff(w: World, callee: Usr, pos: nat)
    ensures (forall gamma :: CoversRows(w, gamma, callee, pos)) <==> SourcesCovered(w, callee, pos)
  {
    if SourcesCovered(w, callee, pos) {
      forall gamma ensures CoversRows(w, gamma, callee, pos) {
        CoveredSourcesCover(w, gamma, callee, pos);
      }
    } else {
      var gamma := UncoveredRow(w, callee, pos);
    }
  }

  lemma {:induction false} CoveredSourcesCover(w: World, gamma: Gamma, callee: Usr, pos: nat)
    requires SourcesCovered(w, callee, pos)
    ensures CoversRows(w, gamma, callee, pos)
  {
    var sites, r := SitesOf(w, callee), ClosedWorld(w, gamma, callee, pos);
    forall k | 0 <= k < |sites| && callee in w.known ensures Below(Meaning(gamma, FirstSource(sites[k], pos)), r) {
      SitePassesFirst(gamma, sites[k], pos);
      FirstIsBelow(w, gamma, callee, pos, k);
    }
    forall k, a | 0 <= k < |sites| && IsRow(sites[k], pos, a) ensures Below(ResolveSource(gamma, sites[k].caller, a), r) {
      ResolveIsMeaning(gamma, sites[k].caller, a);
    }
  }

  lemma {:induction false} FirstIsBelow(w: World, gamma: Gamma, callee: Usr, pos: nat, k: nat)
    requires k < |SitesOf(w, callee)|
    ensures Below(SitePasses(gamma, SitesOf(w, callee)[k], pos), ClosedWorld(w, gamma, callee, pos))
  {
    var r, one := ClosedWorld(w, gamma, callee, pos), SitePasses(gamma, SitesOf(w, callee)[k], pos);
    ClosedWorldExact(w, gamma, callee, pos);
    if r.Types? {
      assert forall c :: c in one.classes ==> c in r.classes;
    }
  }

  /** The environment that binds what the first rows read to no class at all. */
  function Emptied(sites: seq<CallContext>, pos: nat): Gamma {
    map k | k in FirstKeys(sites, pos) :: Types({})
  }

  /** The keys the first rows are read through. */
  function FirstKeys(sites: seq<CallContext>, pos: nat): set<Key> {
    set j | 0 <= j < |sites| && FirstSource(sites[j], pos).Through? :: FirstSource(sites[j], pos).key
  }

  lemma {:induction false} EmptiedFirst(sites: seq<CallContext>, pos: nat, k: nat)
    requires k < |sites|
    ensures var s := FirstSource(sites[k], pos);
            Meaning(Emptied(sites, pos), s) == if s.Through? then Types({}) else Meaning(map[], s)
  {
  }

  lemma {:induction false} UncoveredRow(w: World, callee: Usr, pos: nat) returns (gamma: Gamma)
    requires !SourcesCovered(w, callee, pos)
    ensures !CoversRows(w, gamma, callee, pos)
  {
    var sites := SitesOf(w, callee);
    gamma := Emptied(sites, pos);
    var k, a :| 0 <= k < |sites| && IsRow(sites[k], pos, a)
      && forall l :: 0 <= l < |sites| ==> FirstSource(sites[l], pos) != SourceOf(sites[k].caller, a);
    var s := SourceOf(sites[k].caller, a);
    ResolveIsMeaning(gamma, sites[k].caller, a);
    OnlyFixedFirsts(w, gamma, callee, pos);
    if s.Through? {
      assert s.key !in gamma;
    }
  }

  /** With nothing read from the environment, the answer holds exactly the classes the first rows fix. */
  lemma {:induction false} OnlyFixedFirsts(w: World, gamma: Gamma, callee: Usr, pos: nat)
    requires callee in w.known && SitesOf(w, callee) != [] && gamma == Emptied(SitesOf(w, callee), pos)
    requires forall l :: 0 <= l < |SitesOf(w, callee)| ==> FirstSource(SitesOf(w, callee)[l], pos) != Nowhere
    ensures var r, sites := ClosedWorld(w, gamma, callee, pos), SitesOf(w, callee);
            r.Types? && forall c :: c in r.classes ==>
                exists l :: 0 <= l < |sites| && FirstSource(sites[l], pos) == Exactly(c)
  {
    var sites := SitesOf(w, callee);
    ClosedWorldExact(w, gamma, callee, pos);
    forall l | 0 <= l < |sites|
      ensures SitePasses(gamma, sites[l], pos).Types?
      ensures forall c :: c in SitePasses(gamma, sites[l], pos).classes ==> FirstSource(sites[l], pos) == Exactly(c)
    {
      SitePassesFirst(gamma, sites[l], pos);
      EmptiedFirst(sites, pos, l);
    }
  }

  /** No call edge has two rows of different sources at the position: then nothing is overlooked. */
  lemma {:induction false} LikeRowsAreCovered(w: World, callee: Usr, pos: nat)
    requires forall k, a, b :: 0 <= k < |SitesOf(w, callee)| && IsRow(SitesOf(w, callee)[k], pos, a) && IsRow(SitesOf(w, callee)[k], pos, b)
                          ==> SourceOf(SitesOf(w, callee)[k].caller, a) == SourceOf(SitesOf(w, callee)[k].caller, b)
    ensures forall gamma :: CoversRows(w, gamma, callee, pos)
  {
    var sites := SitesOf(w, callee);
    forall k, a | 0 <= k < |sites| && IsRow(sites[k], pos, a)
      ensures FirstSource(sites[k], pos) == SourceOf(sites[k].caller, a)
    {
      FirstIsRow(sites[k].args, pos);
      assert IsRow(sites[k], pos, ArgAt(sites[k].args, pos).value);
    }
    CoversRowsAlwaysIff(w, callee, pos);
  }

  // ---- The two halves of the engine disagree --------------------------------------------------

  /** `f(A{}); f(B{});` in one caller: one edge with two rows, of which the closed-world lookup reads the first. */
  lemma {:induction false} SecondRowIsOverlooked(w: World, gamma: Gamma, caller: Usr, callee: Usr)
    requires callee in w.known
    requires SitesOf(w, callee) == [CallContext(caller, [GammaEngine.Built(11), GammaEngine.Built(12)])]
    ensures ClosedWorld(w, gamma, callee, 0) == Types({11}) && !CoversRows(w, gamma, callee, 0)
    ensures GammaEngine.ResolveAll(gamma, caller, SitesOf(w, callee)[0].args) == Types({11, 12})
  {
    var a, b := GammaEngine.Built(11), GammaEngine.Built(12);
    var sites := SitesOf(w, callee);
    assert JoinSites(gamma, sites, 0, 0) == Types({}) && {} + {11} == {11};
    assert JoinSites(gamma, sites, 0, 1) == Types({11});
    assert IsRow(sites[0], 0, b) by {
      assert sites[0].args[1] == b;
    }
    assert [a, b][..1] == [a] && [a][..0] == [] && {} + {11} + {12} == {11, 12};
    assert GammaEngine.ResolveAll(gamma, caller, [a]) == Types({11});
  }
}
