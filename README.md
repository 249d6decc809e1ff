# Archetype invariants of bevy_ecs, modelled in Dafny

Bevy's entity-component store groups entities by their *archetype*, the set of
component types they carry. An **archetype invariant** is a rule over those sets:
a *predicate* statement and a *consequence* statement, read "every entity for
which the predicate is true must also make the consequence true". A statement is
one of `AllOf`, `AtLeastOneOf` or `NoneOf` over a set of components. Rules are
written against Rust bundle types. They are then erased into rules over sets of
`ComponentId`s and appended to the world's registry, which also keeps a cursor
for the archetypes already checked.

The project has three modules, one per layer of
`crates/bevy_ecs/src/world/archetype_invariants.rs`:

- `Statements` (`statements.dfy`) is the erased layer. It holds
  `UntypedArchetypeStatement` and `UntypedArchetypeInvariant` over an opaque
  component-id type `T`. It adds the evaluation the doc comments define
  (`Eval`, `Holds`, `AllHold`) and the id collection (`CollectIds`). The source
  has no evaluation function. `Eval` is written from the doc comments of each
  variant, and its set-relation form is proved.
- `Typed` (`typed.dfy`) is the bundle-typed layer. It holds `ArchetypeStatement`
  and `ArchetypeInvariant` over an abstract bundle description `B`, the
  constructors `all_of`, `at_least_one_of`, `none_of` and `full_bundle`, and both
  `into_untyped`s. Resolving a bundle to ids is a parameter
  `componentIds: B -> seq<T>`.
- `Registry` (`registry.dfy`) holds the class `ArchetypeInvariants`. Its `raw_list`
  field is a `seq` and its `u32` cursor is a `U32` newtype. `Add` changes both in
  place.

The Rust field `predicate` is named `premise` here, because `predicate` is a
Dafny keyword. The Rust constructors `all_of`, `at_least_one_of`, `none_of` and
`full_bundle` are `AllOfBundle`, `AtLeastOneOfBundle`, `NoneOfBundle` and
`FullBundle`. They take the bundle as a value, because the source passes it as a
type parameter.

## Model

| member | source | states |
|---|---|---|
| `Statements.CollectIds` | crates/bevy_ecs/src/world/archetype_invariants.rs:85 | The collected set holds exactly the ids of the sequence and is no larger than the sequence |
| `Statements.CollectIdsCardinality` | crates/bevy_ecs/src/world/archetype_invariants.rs:84-85 | Collecting loses exactly the duplicates: the set is as large as the id sequence if and only if no id repeats |
| `Statements.EvalAsSetRelation` | crates/bevy_ecs/src/world/archetype_invariants.rs:133-141 | `AllOf(S)` holds on E iff S ⊆ E, `AtLeastOneOf(S)` iff S ∩ E ≠ ∅, `NoneOf(S)` iff S ∩ E = ∅ |
| `Statements.EmptySetStatements` | crates/bevy_ecs/src/world/archetype_invariants.rs:134-140 | `AllOf(∅)` and `NoneOf(∅)` hold on every entity and `AtLeastOneOf(∅)` on none |
| `Statements.SingletonAllOfIsAtLeastOneOf` | crates/bevy_ecs/src/world/archetype_invariants.rs:62-64 | For a one-element set, `AllOf` and `AtLeastOneOf` evaluate identically on every entity |
| `Statements.AllHoldAppend` | crates/bevy_ecs/src/world/archetype_invariants.rs:9-12 | An entity satisfies a list with one invariant appended iff it satisfies the old list and the new invariant |
| `Typed.StatementIntoUntyped` | crates/bevy_ecs/src/world/archetype_invariants.rs:83-97 | Erasure keeps the variant (AllOf→AllOf, AtLeastOneOf→AtLeastOneOf, NoneOf→NoneOf) and its set holds exactly the ids the bundle resolves to |
| `Typed.ErasureIsUnique` | crates/bevy_ecs/src/world/archetype_invariants.rs:83-97 | The variant and the resolved ids determine the erased statement: any two erasures of one statement are equal |
| `Typed.InvariantIntoUntyped` | crates/bevy_ecs/src/world/archetype_invariants.rs:34-39 | Predicate and consequence are erased independently, each with the resolution of its own bundle, and each is the statement-level erasure of its part |
| `Typed.BundleStatementsMeaning` | crates/bevy_ecs/src/world/archetype_invariants.rs:69-115 | Once erased, `all_of`, `at_least_one_of` and `none_of` of a bundle mean: the entity has all, at least one, none of the bundle's components |
| `Typed.FullBundleMeaning` | crates/bevy_ecs/src/world/archetype_invariants.rs:42-52 | A full-bundle invariant holds on an entity iff having any one component of the bundle implies having all of them |
| `Typed.FullBundleExamples` | crates/bevy_ecs/src/world/archetype_invariants.rs:42-52 | For the bundle (A, B, C): the invariant fails on {A}, holds on {A, B, C}, and holds on the disjoint {D} |
| `Typed.AdvisoryIsRedundancy` | crates/bevy_ecs/src/world/archetype_invariants.rs:89-93 | The warning is emitted iff the erased statement is `AtLeastOneOf` over exactly one id, and then it evaluates like `AllOf` of the same bundle on every entity |
| `Statements.Eval` | crates/bevy_ecs/src/world/archetype_invariants.rs:134-140 | The truth condition of each variant, in the words of its doc comment; `Statements.EvalAsSetRelation` and `Statements.EmptySetStatements` state its meaning |
| `Statements.Holds` | crates/bevy_ecs/src/world/archetype_invariants.rs:123-126 | An entity satisfies an invariant when the predicate implies the consequence; `Typed.FullBundleMeaning` and `Statements.AllHoldAppend` state its meaning |
| `Typed.AllOfBundle` | crates/bevy_ecs/src/world/archetype_invariants.rs:99-103 | The `all_of` statement of a bundle; `Typed.BundleStatementsMeaning` states its meaning |
| `Typed.AtLeastOneOfBundle` | crates/bevy_ecs/src/world/archetype_invariants.rs:105-109 | The `at_least_one_of` statement of a bundle; `Typed.BundleStatementsMeaning` states its meaning |
| `Typed.NoneOfBundle` | crates/bevy_ecs/src/world/archetype_invariants.rs:111-115 | The `none_of` statement of a bundle; `Typed.BundleStatementsMeaning` states its meaning |
| `Typed.FullBundle` | crates/bevy_ecs/src/world/archetype_invariants.rs:42-52 | Predicate `at_least_one_of`, consequence `all_of` of one bundle; `Typed.FullBundleMeaning` and `Typed.FullBundleExamples` state its meaning |
| `Typed.AdvisoryEmitted` | crates/bevy_ecs/src/world/archetype_invariants.rs:89-92 | The condition of the warning: an `AtLeastOneOf` whose collected id set has one element; `Typed.AdvisoryIsRedundancy` states its meaning |
| `Registry.ArchetypeInvariants.constructor` | crates/bevy_ecs/src/world/archetype_invariants.rs:143-147 | The default registry has an empty list and cursor 0 |
| `Registry.ArchetypeInvariants.Add` | crates/bevy_ecs/src/world/archetype_invariants.rs:154-157 | After `add`, the cursor is 0 and the list is the old list with the invariant appended: one longer, the new invariant last, every earlier entry unchanged; and the reset cursor's claim (`CursorSoundFor`) holds for every archetype list |
| `Registry.CursorSoundAfterAppend` | crates/bevy_ecs/src/world/archetype_invariants.rs:150-157 | Archetypes checked against the old list stay valid after an append iff each satisfies the new invariant, so earlier checks say nothing about it and a re-check is needed |
| `Registry.RetroactiveRecheck` | crates/bevy_ecs/src/world/archetype_invariants.rs:150-157 | {A} and {A, B, C} are valid with no invariants. Adding the full bundle of A, B, C without a cursor reset would wrongly claim {A} valid |

`Statements.AllHold` and `Typed.Erases` are definitions that the lemmas above use.

## Left out

- Bundle resolution (`B::component_ids`, line 84) is a parameter. Registering
  new components in the world as a side effect is not modelled.
- The `warn!` at line 91 is logging. It is modelled as the predicate
  `Typed.AdvisoryEmitted`, so the erased statement does not depend on it.
- `PhantomData` and the Rust generics over `Bundle` are compile-time typing. A
  statement carries a bundle description value instead.
- No pass that checks archetypes against the registry appears in this file. The
  doc comments (lines 13-17, 152-153) only say when checks happen. The model has
  no checker loop and no rule for advancing the cursor. `CursorSound` only states
  what a cursor value claims.
- The cursor is a `u32`, but this file only ever stores 0 in it, so the model
  has no wrap-around to handle.
- The test at lines 176-183 registers `full_bundle` of (A, B, C) and stops at
  `todo!()`. `Typed.FullBundleExamples` states three example entities for that
  invariant.
- The `World` and `Archetypes` storage, `HashSet` hashing and iteration order,
  and the derived `Clone`, `Debug` and `PartialEq` are not modelled. Equality of
  Dafny datatypes stands in for `PartialEq`.
- The `warn!` (line 91) is emitted inside `ArchetypeStatement::into_untyped`,
  when a typed statement is erased. `Typed.AdvisoryEmitted` is a predicate of
  that erasure.
