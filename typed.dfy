/**
 The typed layer of archetype invariants: statements about the components of a
 bundle, and their erasure into the id-set form of module Statements.

 A bundle is an abstract description `B`; which component ids it stands for is
 decided outside this model and is passed in as `componentIds: B -> seq<T>`
 (the bundle's own listing of its component ids, possibly with repeats).
 */
module Typed {
  import S = Statements

  /** A statement about the presence or absence of the components of a bundle. */
  datatype ArchetypeStatement<B> =
    | AllOf(bundle: B)
    | AtLeastOneOf(bundle: B)
    | NoneOf(bundle: B)

  /** For all entities where `premise` (the Rust field `predicate`) is true,
      `consequence` must also be true. The two statements may be about
      different bundles. */
  datatype ArchetypeInvariant<B1, B2> =
    ArchetypeInvariant(premise: ArchetypeStatement<B1>, consequence: ArchetypeStatement<B2>)

  /** The statement that an entity has every component of bundle `b`. */
  function AllOfBundle<B>(b: B): ArchetypeStatement<B>
  {
    AllOf(b)
  }

  /** The statement that an entity has at least one component of bundle `b`. */
  function AtLeastOneOfBundle<B>(b: B): ArchetypeStatement<B>
  {
    AtLeastOneOf(b)
  }

  /** The statement that an entity has no component of bundle `b`. */
  function NoneOfBundle<B>(b: B): ArchetypeStatement<B>
  {
    NoneOf(b)
  }

  /** All components of bundle `b` require each other: if any one of them is
      present, all of them must be. */
  function FullBundle<B>(b: B): ArchetypeInvariant<B, B>
  {
    ArchetypeInvariant(AtLeastOneOfBundle(b), AllOfBundle(b))
  }

  /** `erased` is an erasure of `stmt`: the same variant, over exactly the ids
      that the bundle of `stmt` resolves to. */
  predicate Erases<B, T(==)>(stmt: ArchetypeStatement<B>, componentIds: B -> seq<T>,
                             erased: S.UntypedArchetypeStatement<T>)
  {
    && (stmt.AllOf? <==> erased.AllOf?)
    && (stmt.AtLeastOneOf? <==> erased.AtLeastOneOf?)
    && (stmt.NoneOf? <==> erased.NoneOf?)
    && (forall c :: c in erased.ids ==> c in componentIds(stmt.bundle))
    && (forall c :: c in componentIds(stmt.bundle) ==> c in erased.ids)
  }

  /** Erases the bundle type of a statement: resolves the bundle to its ids,
      collects them into a set and keeps the variant. */
  function StatementIntoUntyped<B, T(==)>(stmt: ArchetypeStatement<B>, componentIds: B -> seq<T>)
    : (r: S.UntypedArchetypeStatement<T>)
    ensures Erases(stmt, componentIds, r)
  {
    var ids := S.CollectIds(componentIds(stmt.bundle));
    match stmt
    case AllOf(_) => S.AllOf(ids)
    case AtLeastOneOf(_) => S.AtLeastOneOf(ids)
    case NoneOf(_) => S.NoneOf(ids)
  }

  /** Whether erasing `stmt` logs the advice to prefer `AllOf`: an `AtLeastOneOf`
      whose bundle resolves to exactly one distinct id. */
  predicate AdvisoryEmitted<B, T(==)>(stmt: ArchetypeStatement<B>, componentIds: B -> seq<T>)
  {
    stmt.AtLeastOneOf? && |S.CollectIds(componentIds(stmt.bundle))| == 1
  }

  /** Erases the bundle types of an invariant, the premise and the consequence
      each with the resolution of its own bundle. */
  function InvariantIntoUntyped<B1, B2, T(==)>(inv: ArchetypeInvariant<B1, B2>,
                                              premiseIds: B1 -> seq<T>,
                                              consequenceIds: B2 -> seq<T>)
    : (r: S.UntypedArchetypeInvariant<T>)
    ensures Erases(inv.premise, premiseIds, r.premise)
    ensures Erases(inv.consequence, consequenceIds, r.consequence)
  {
    S.UntypedArchetypeInvariant(StatementIntoUntyped(inv.premise, premiseIds),
                                StatementIntoUntyped(inv.consequence, consequenceIds))
  }

  /** There is only one erasure of a statement, so the erased form is fully
      determined by the variant and the set of resolved ids. */
  lemma ErasureIsUnique<B, T>(stmt: ArchetypeStatement<B>, componentIds: B -> seq<T>,
                              x: S.UntypedArchetypeStatement<T>, y: S.UntypedArchetypeStatement<T>)
    requires Erases(stmt, componentIds, x) && Erases(stmt, componentIds, y)
    ensures x == y
  {
  }

  /** What the three bundle statements mean once erased, in the words of their
      documentation: has all, has at least one, has none of the bundle's components. */
  lemma BundleStatementsMeaning<B, T>(b: B, componentIds: B -> seq<T>, components: set<T>)
    ensures S.Eval(StatementIntoUntyped(AllOfBundle(b), componentIds), components)
        <==> forall c :: c in componentIds(b) ==> c in components
    ensures S.Eval(StatementIntoUntyped(AtLeastOneOfBundle(b), componentIds), components)
        <==> exists c :: c in componentIds(b) && c in components
    ensures S.Eval(StatementIntoUntyped(NoneOfBundle(b), componentIds), components)
        <==> forall c :: c in componentIds(b) ==> c !in components
  {
  }

  /** A full-bundle invariant holds for an entity exactly when the entity has
      either none or all of the bundle's components. */
  lemma FullBundleMeaning<B, T>(b: B, componentIds: B -> seq<T>, components: set<T>)
    ensures S.Holds(InvariantIntoUntyped(FullBundle(b), componentIds, componentIds), components)
        <==> ((exists c :: c in componentIds(b) && c in components)
              ==> (forall c :: c in componentIds(b) ==> c in components))
  {
  }

  /** The full bundle of three distinct components A, B, C: it fails on an
      entity with only A, holds on one with all three, and holds trivially on
      one with a fourth component D only. */
  lemma FullBundleExamples<B, T>(b: B, componentIds: B -> seq<T>, ca: T, cb: T, cc: T, cd: T)
    requires componentIds(b) == [ca, cb, cc]
    requires ca != cb && ca != cc && cb != cc
    requires cd != ca && cd != cb && cd != cc
    ensures !S.Holds(InvariantIntoUntyped(FullBundle(b), componentIds, componentIds), {ca})
    ensures S.Holds(InvariantIntoUntyped(FullBundle(b), componentIds, componentIds), {ca, cb, cc})
    ensures S.Holds(InvariantIntoUntyped(FullBundle(b), componentIds, componentIds), {cd})
  {
  }

  /** The advisory is emitted exactly when the erased statement is an
      `AtLeastOneOf` over a single id, and in that case the erased statement
      means the same as `AllOf` over the same bundle for every entity. */
  lemma AdvisoryIsRedundancy<B, T>(stmt: ArchetypeStatement<B>, componentIds: B -> seq<T>,
                                   components: set<T>)
    ensures AdvisoryEmitted(stmt, componentIds)
        <==> (StatementIntoUntyped(stmt, componentIds).AtLeastOneOf?
              && |StatementIntoUntyped(stmt, componentIds).ids| == 1)
    ensures AdvisoryEmitted(stmt, componentIds)
        ==> S.Eval(StatementIntoUntyped(stmt, componentIds), components)
            == S.Eval(StatementIntoUntyped(AllOfBundle(stmt.bundle), componentIds), components)
  {
    if AdvisoryEmitted(stmt, componentIds) {
      S.SingletonAllOfIsAtLeastOneOf(S.CollectIds(componentIds(stmt.bundle)), components);
    }
  }
}
