/**
 The registry of archetype invariants a world owns: the erased invariants in the
 order they were added, and the index of the first archetype that has not yet
 been checked against all of them.
 */
module Registry {
  import S = Statements
  import Typed

  /** Bevy's `u32` cursor type. */
  newtype U32 = x: int | 0 <= x < 0x1_0000_0000

  /** The claim a cursor makes about a list of archetypes (each given by its set
      of components): the first `cursor` of them exist and satisfy every
      invariant of `list`. */
  predicate CursorSound<T(==)>(list: seq<S.UntypedArchetypeInvariant<T>>, cursor: nat,
                               archetypes: seq<set<T>>)
  {
    cursor <= |archetypes| && forall i :: 0 <= i < cursor ==> S.AllHold(list, archetypes[i])
  }

  class ArchetypeInvariants<T(==)> {
    var rawList: seq<S.UntypedArchetypeInvariant<T>>
    var lastCheckedArchetypeIndex: U32

    /** The default registry: no invariants, nothing checked. */
    constructor ()
      ensures rawList == []
      ensures lastCheckedArchetypeIndex == 0
    {
      rawList := [];
      lastCheckedArchetypeIndex := 0;
    }

    /** What this registry's cursor claims about a list of archetypes. */
    predicate CursorSoundFor(archetypes: seq<set<T>>)
      reads this
    {
      CursorSound(rawList, lastCheckedArchetypeIndex as nat, archetypes)
    }

    /** Adds an invariant. Every existing archetype has to be checked again,
        so the cursor goes back to the first archetype. */
    method Add(archetypeInvariant: S.UntypedArchetypeInvariant<T>)
      modifies this
      ensures lastCheckedArchetypeIndex == 0
      ensures rawList == old(rawList) + [archetypeInvariant]
      ensures |rawList| == |old(rawList)| + 1 && rawList[|rawList| - 1] == archetypeInvariant
      ensures forall i :: 0 <= i < |old(rawList)| ==> rawList[i] == old(rawList)[i]
      ensures forall archetypes: seq<set<T>> :: CursorSoundFor(archetypes)
    {
      lastCheckedArchetypeIndex := 0;
      rawList := rawList + [archetypeInvariant];
    }
  }

  /** An archetype known to satisfy the old list satisfies the longer one
      exactly when it satisfies the new invariant: checks made before an
      addition say nothing about the added invariant. */
  lemma CursorSoundAfterAppend<T>(list: seq<S.UntypedArchetypeInvariant<T>>,
                                  inv: S.UntypedArchetypeInvariant<T>, cursor: nat,
                                  archetypes: seq<set<T>>)
    requires CursorSound(list, cursor, archetypes)
    ensures CursorSound(list + [inv], cursor, archetypes)
        <==> forall i :: 0 <= i < cursor ==> S.Holds(inv, archetypes[i])
  {
    forall i | 0 <= i < cursor
      ensures S.AllHold(list + [inv], archetypes[i]) <==> S.Holds(inv, archetypes[i])
    {
      S.AllHoldAppend(list, inv, archetypes[i]);
    }
  }

  /** Archetypes {A} and {A, B, C} are both valid while no invariant is
      registered. Adding the full bundle of A, B, C without resetting the cursor
      would still claim both valid, which is false for {A}. With the reset,
      `Add` keeps the cursor's claim true for every archetype list. */
  lemma RetroactiveRecheck<B, T>(b: B, componentIds: B -> seq<T>, ca: T, cb: T, cc: T)
    requires componentIds(b) == [ca, cb, cc]
    requires ca != cb && ca != cc && cb != cc
    ensures CursorSound([], 2, [{ca}, {ca, cb, cc}])
    ensures !CursorSound([Typed.InvariantIntoUntyped(Typed.FullBundle(b), componentIds, componentIds)],
                         2, [{ca}, {ca, cb, cc}])
    ensures !S.AllHold([Typed.InvariantIntoUntyped(Typed.FullBundle(b), componentIds, componentIds)], {ca})
  {
    var inv := Typed.InvariantIntoUntyped(Typed.FullBundle(b), componentIds, componentIds);
    var archetypes := [{ca}, {ca, cb, cc}];
    Typed.FullBundleMeaning(b, componentIds, {ca});
    assert ca in componentIds(b) && cb in componentIds(b);
    assert !S.Holds([inv][0], archetypes[0]);
  }
}
