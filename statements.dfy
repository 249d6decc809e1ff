/**
 The type-erased layer of archetype invariants: statements over explicit sets of
 component ids, invariants built from two of them, and what it means for an
 archetype (the set of components an entity has) to satisfy them.

 Component ids are an opaque type `T` that only supports equality.
 */
module Statements {

  /** A statement about which components of a set an entity has. */
  datatype UntypedArchetypeStatement<T> =
    | AllOf(ids: set<T>)
    | AtLeastOneOf(ids: set<T>)
    | NoneOf(ids: set<T>)

  /** For all entities where `premise` (the Rust field `predicate`) is true, `consequence` must also be true. */
  datatype UntypedArchetypeInvariant<T> =
    UntypedArchetypeInvariant(premise: UntypedArchetypeStatement<T>,
                              consequence: UntypedArchetypeStatement<T>)

  /** The truth of a statement for an entity whose components are `components`,
      written as the documentation of each variant words it. */
  predicate Eval<T(==)>(stmt: UntypedArchetypeStatement<T>, components: set<T>)
  {
    match stmt
    case AllOf(ids) => forall c :: c in ids ==> c in components
    case AtLeastOneOf(ids) => exists c :: c in ids && c in components
    case NoneOf(ids) => forall c :: c in ids ==> c !in components
  }

  /** An invariant holds for an entity when its premise implies its consequence. */
  predicate Holds<T(==)>(inv: UntypedArchetypeInvariant<T>, components: set<T>)
  {
    Eval(inv.premise, components) ==> Eval(inv.consequence, components)
  }

  /** Every invariant of `list` holds for `components`. */
  predicate AllHold<T(==)>(list: seq<UntypedArchetypeInvariant<T>>, components: set<T>)
  {
    forall i :: 0 <= i < |list| ==> Holds(list[i], components)
  }

  /** The set of ids in `ids`, duplicates collapsed: the `collect` into a hash set. */
  function CollectIds<T(==)>(ids: seq<T>): (s: set<T>)
    ensures forall c :: c in ids ==> c in s
    ensures forall c :: c in s ==> c in ids
    ensures |s| <= |ids|
  {
    if ids == [] then {} else CollectIds(ids[..|ids| - 1]) + {ids[|ids| - 1]}
  }

  /** No id occurs twice in `ids`. */
  predicate NoDuplicates<T(==)>(ids: seq<T>)
  {
    forall i, j :: 0 <= i < j < |ids| ==> ids[i] != ids[j]
  }

  /** Collecting loses exactly the duplicates: the set is as large as the
      sequence if and only if no id repeats. */
  lemma {:induction false} CollectIdsCardinality<T>(ids: seq<T>)
    ensures |CollectIds(ids)| == |ids| <==> NoDuplicates(ids)
  {
    if ids != [] {
      var init, last := ids[..|ids| - 1], ids[|ids| - 1];
      assert ids == init + [last];
      CollectIdsCardinality(init);
      if last in init {
        var k :| 0 <= k < |init| && init[k] == last;
        assert ids[k] == ids[|ids| - 1];
        assert CollectIds(ids) == CollectIds(init);
      } else {
        assert last !in CollectIds(init);
        assert |CollectIds(ids)| == |CollectIds(init)| + 1;
        if NoDuplicates(ids) {
          assert NoDuplicates(init) by {
            forall i, j | 0 <= i < j < |init| ensures init[i] != init[j] {
              assert init[i] == ids[i] && init[j] == ids[j];
            }
          }
        } else {
          var i, j :| 0 <= i < j < |ids| && ids[i] == ids[j];
          assert ids[i] == init[i];
          assert init[i] == init[j];
        }
      }
    }
  }

  /** The truth conditions as set relations: `AllOf(S)` is S ⊆ E,
      `AtLeastOneOf(S)` is S ∩ E ≠ ∅ and `NoneOf(S)` is S ∩ E = ∅. */
  lemma EvalAsSetRelation<T>(stmt: UntypedArchetypeStatement<T>, components: set<T>)
    ensures stmt.AllOf? ==> (Eval(stmt, components) <==> stmt.ids <= components)
    ensures stmt.AtLeastOneOf? ==> (Eval(stmt, components) <==> stmt.ids * components != {})
    ensures stmt.NoneOf? ==> (Eval(stmt, components) <==> stmt.ids * components == {})
  {
    if stmt.AtLeastOneOf? && stmt.ids * components != {} {
      var c :| c in stmt.ids * components;
      assert c in stmt.ids && c in components;
    }
    if stmt.AtLeastOneOf? && Eval(stmt, components) {
      var c :| c in stmt.ids && c in components;
      assert c in stmt.ids * components;
    }
    if stmt.NoneOf? && !Eval(stmt, components) {
      var c :| c in stmt.ids && c in components;
      assert c in stmt.ids * components;
    }
  }

  /** The degenerate statements over the empty set: `AllOf(∅)` and `NoneOf(∅)`
      hold for every entity, `AtLeastOneOf(∅)` for none. */
  lemma EmptySetStatements<T>(components: set<T>)
    ensures Eval(AllOf({}), components)
    ensures !Eval(AtLeastOneOf({}), components)
    ensures Eval(NoneOf({}), components)
  {
  }

  /** For a one-element set, `AllOf` and `AtLeastOneOf` agree on every entity. */
  lemma SingletonAllOfIsAtLeastOneOf<T>(ids: set<T>, components: set<T>)
    requires |ids| == 1
    ensures Eval(AllOf(ids), components) == Eval(AtLeastOneOf(ids), components)
  {
    var c :| c in ids;
    assert |ids - {c}| == 0;
    assert ids == {c};
  }

  /** Adding an invariant to a list: the longer list holds for an entity exactly
      when the shorter one does and the new invariant does too. */
  lemma AllHoldAppend<T>(list: seq<UntypedArchetypeInvariant<T>>,
                             inv: UntypedArchetypeInvariant<T>, components: set<T>)
    ensures AllHold(list + [inv], components) <==> AllHold(list, components) && Holds(inv, components)
  {
    var longer := list + [inv];
    assert longer[|list|] == inv;
    if AllHold(list, components) && Holds(inv, components) {
      forall i | 0 <= i < |longer| ensures Holds(longer[i], components) {
        if i < |list| {
          assert longer[i] == list[i];
        }
      }
    }
    if AllHold(longer, components) {
      forall i | 0 <= i < |list| ensures Holds(list[i], components) {
        assert longer[i] == list[i];
      }
    }
  }
}
