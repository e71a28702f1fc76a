/**
 * The element context of the finite-volume discretisations: per degree
 * of freedom of the current stencil it stores intensive quantities,
 * primary variables and thermodynamic hints for every history index,
 * and per interior face the extensive quantities. Around these it keeps
 * the evaluation point that numerical differentiation perturbs and
 * restores.
 *
 * Intensive quantities, primary variables, extensive quantities and
 * hints are opaque values. What the model computes for them is given by
 * the caller: the global solution of each history index, the hint of a
 * global index, the model's cache of intensive quantities (a map that is
 * passed in and returned) and the computation of intensive and extensive
 * quantities as functions.
 */
module FvBaseElementContext {
  import opened EcfvStencil

  /** the per-DOF store, one entry per history index */
  datatype DofStore<IQ, PV, Hint> = DofStore(intensiveQuantities: seq<IQ>, priVars: seq<PV>, thermodynamicHint: seq<Hint>)
  {
    predicate Sized(n: nat) {
      |intensiveQuantities| == n && |priVars| == n && |thermodynamicHint| == n
    }

    /** history index t recomputed from the primary variables pv */
    function Refreshed(t: nat, pv: PV, hint: Hint, iq: IQ): DofStore<IQ, PV, Hint>
      requires t < |intensiveQuantities| && t < |priVars| && t < |thermodynamicHint|
    {
      DofStore(intensiveQuantities[t := iq], priVars[t := pv], thermodynamicHint[t := hint])
    }

    /** history index 0 overwritten by a snapshot */
    function WithTimeZero(iq: IQ, pv: PV): DofStore<IQ, PV, Hint>
      requires 0 < |intensiveQuantities| && 0 < |priVars|
    {
      DofStore(intensiveQuantities[0 := iq], priVars[0 := pv], thermodynamicHint)
    }
  }

  /** restoring the snapshot taken of history index 0 undoes any change made to it since */
  lemma RestoreUndoesPerturbation<IQ, PV, Hint>(s: DofStore<IQ, PV, Hint>, iq: IQ, pv: PV)
    requires 0 < |s.intensiveQuantities| && 0 < |s.priVars|
    ensures s.WithTimeZero(iq, pv).WithTimeZero(s.intensiveQuantities[0], s.priVars[0]) == s
  {
    assert s.WithTimeZero(iq, pv).WithTimeZero(s.intensiveQuantities[0], s.priVars[0]).intensiveQuantities == s.intensiveQuantities;
    assert s.WithTimeZero(iq, pv).WithTimeZero(s.intensiveQuantities[0], s.priVars[0]).priVars == s.priVars;
  }

  /** std::vector::resize: the first entries are kept, new ones take the blank value */
  function Resize<T>(s: seq<T>, n: nat, blank: T): (r: seq<T>)
    ensures |r| == n
    ensures forall i :: 0 <= i < n && i < |s| ==> r[i] == s[i]
    ensures forall i :: |s| <= i < n ==> r[i] == blank
  {
    if n <= |s| then s[..n] else s + seq(n - |s|, _ => blank)
  }

  /** the intensive quantities for a global index: the model's cached ones if present, else computed */
  function Evaluate<IQ, PV>(cache: map<(nat, nat), IQ>, compute: (PV, nat, nat) -> IQ, pv: PV, g: nat, t: nat): IQ {
    if (g, t) in cache then cache[(g, t)] else compute(pv, g, t)
  }

  /** which list the extensive-quantity evaluation point refers to */
  datatype EvalPoint = Unset | Current | Saved

  class FvBaseElementContext<IQ, PV, EQ, Hint> {
    const historySize: nat
    const stencil: Stencil
    const blankStore: DofStore<IQ, PV, Hint>
    const blankEq: EQ

    var dofVars: seq<DofStore<IQ, PV, Hint>>
    var dofIdxSaved: int
    /** whether dofIdxSaved has been assigned since construction */
    ghost var dofIdxSavedSet: bool
    var intensiveQuantitiesSaved: IQ
    var priVarsSaved: PV
    var extensiveQuantities: seq<EQ>
    var extensiveQuantitiesSaved: seq<EQ>
    var extensiveQuantitiesEval: EvalPoint

    ghost predicate Valid()
      reads this, stencil
    {
      && historySize >= 1
      && stencil.Valid()
      && blankStore.Sized(historySize)
      && |dofVars| == stencil.NumDof()
      && (forall d :: 0 <= d < |dofVars| ==> dofVars[d].Sized(historySize))
      && |extensiveQuantities| == stencil.NumInteriorFaces()
    }

    constructor (historySize: nat, mapper: Element -> nat, blankIq: IQ, blankPv: PV, blankHint: Hint, blankEq: EQ)
      requires historySize >= 1
      ensures Valid() && fresh(stencil) && this.historySize == historySize
      ensures dofVars == [] && extensiveQuantities == [] && extensiveQuantitiesEval == Unset && !dofIdxSavedSet
    {
      this.historySize := historySize;
      stencil := new Stencil(mapper);
      blankStore := DofStore(seq(historySize, _ => blankIq), seq(historySize, _ => blankPv), seq(historySize, _ => blankHint));
      this.blankEq := blankEq;
      dofVars := [];
      dofIdxSaved := -1;
      dofIdxSavedSet := false;
      intensiveQuantitiesSaved := blankIq;
      priVarsSaved := blankPv;
      extensiveQuantities := [];
      extensiveQuantitiesSaved := [];
      extensiveQuantitiesEval := Unset;
    }

    function NumDof(): nat
      reads stencil
    {
      stencil.NumDof()
    }

    function GlobalSpaceIndex(dofIdx: nat): nat
      reads stencil
      requires stencil.Valid() && dofIdx < NumDof()
    {
      stencil.GlobalSpaceIndex(dofIdx)
    }

    /**
     * updateStencil: rebuild the stencil around `center`, then resize the
     * DOF store to its number of DOFs and the extensive quantities to its
     * number of interior faces.
     */
    method UpdateStencil(center: Element, isects: seq<Intersection>)
      requires Valid()
      modifies this, stencil
      ensures Valid() && stencil.Built(center, isects)
      ensures dofVars == Resize(old(dofVars), stencil.NumDof(), blankStore)
      ensures extensiveQuantities == Resize(old(extensiveQuantities), stencil.NumInteriorFaces(), blankEq)
      ensures dofIdxSaved == old(dofIdxSaved) && dofIdxSavedSet == old(dofIdxSavedSet)
      ensures intensiveQuantitiesSaved == old(intensiveQuantitiesSaved) && priVarsSaved == old(priVarsSaved)
      ensures extensiveQuantitiesSaved == old(extensiveQuantitiesSaved) && extensiveQuantitiesEval == old(extensiveQuantitiesEval)
    {
      stencil.Update(center, isects);
      dofVars := Resize(dofVars, stencil.NumDof(), blankStore);
      extensiveQuantities := Resize(extensiveQuantities, stencil.NumInteriorFaces(), blankEq);
    }

    /**
     * updateStencilTopology: rebuild only the topology of the stencil; the
     * DOF store and the extensive quantities keep their old sizes, so the
     * context is consistent again only after the next updateStencil.
     */
    method UpdateStencilTopology(center: Element, isects: seq<Intersection>)
      modifies stencil
      ensures stencil.Built(center, isects)
    {
      stencil.UpdateTopology(center, isects);
    }

    /**
     * updateAll: updateStencil, then the intensive quantities of every
     * history index, then the extensive quantities of history index 0.
     * The solutions must address the global indices of the centre and of
     * every neighbour.
     */
    method UpdateAll(center: Element, isects: seq<Intersection>, sols: seq<seq<PV>>, hints: (nat, nat) -> Hint,
                     cache: map<(nat, nat), IQ>, compute: (PV, nat, nat) -> IQ, storeCache: bool,
                     computeEq: (nat, nat) -> EQ)
      returns (cache': map<(nat, nat), IQ>)
      requires Valid() && |sols| == historySize
      requires forall t :: 0 <= t < |sols| ==> stencil.mapper(center) < |sols[t]|
      requires forall t, e :: 0 <= t < |sols| && e in Neighbors(isects) ==> stencil.mapper(e) < |sols[t]|
      modifies this, stencil
      ensures Valid() && stencil.Built(center, isects) && SolutionsCover(sols)
      ensures UpdatedBelow(historySize, sols, hints, cache, compute)
      ensures dofIdxSaved == -1 && dofIdxSavedSet
      ensures extensiveQuantities == seq(stencil.NumInteriorFaces(), (i: nat) => computeEq(i, 0))
      ensures extensiveQuantitiesEval == Current
      ensures intensiveQuantitiesSaved == old(intensiveQuantitiesSaved) && priVarsSaved == old(priVarsSaved)
      ensures extensiveQuantitiesSaved == old(extensiveQuantitiesSaved)
    {
      UpdateStencil(center, isects);
      forall t, d | 0 <= t < |sols| && 0 <= d < NumDof() ensures GlobalSpaceIndex(d) < |sols[t]| {
        if d != 0 {
          assert stencil.elements[d] == Neighbors(isects)[d - 1];
        }
      }
      cache' := UpdateAllIntensiveQuantities(sols, hints, cache, compute, storeCache);
      ghost var updated := dofVars;
      assert StoresUpdated(updated, historySize, sols, hints, cache, compute);
      UpdateAllExtensiveQuantities(computeEq);
      assert dofVars == updated;
    }

    /** every DOF's global index addresses an entry of the solution vector */
    ghost predicate SolutionCovers(sol: seq<PV>)
      reads stencil
      requires stencil.Valid()
    {
      forall d :: 0 <= d < NumDof() ==> GlobalSpaceIndex(d) < |sol|
    }

    /**
     * updateIntensiveQuantities(timeIdx): every DOF takes the primary
     * variables of its global index and the hint of the model; its
     * intensive quantities come from the cache when present and are
     * otherwise computed and, if the model stores them, cached.
     */
    method UpdateIntensiveQuantities(t: nat, sol: seq<PV>, hints: (nat, nat) -> Hint, cache: map<(nat, nat), IQ>,
                                     compute: (PV, nat, nat) -> IQ, storeCache: bool)
      returns (cache': map<(nat, nat), IQ>)
      requires Valid() && t < historySize && SolutionCovers(sol)
      modifies this
      ensures Valid()
      ensures forall d :: 0 <= d < |dofVars| ==>
        dofVars[d] == old(dofVars)[d].Refreshed(t, sol[GlobalSpaceIndex(d)], hints(GlobalSpaceIndex(d), t),
                                                 Evaluate(cache, compute, sol[GlobalSpaceIndex(d)], GlobalSpaceIndex(d), t))
      ensures CacheExtends(cache, cache', compute, sol, t, storeCache)
      ensures storeCache ==> forall d :: 0 <= d < NumDof() ==> (GlobalSpaceIndex(d), t) in cache'
      ensures dofIdxSaved == old(dofIdxSaved) && dofIdxSavedSet == old(dofIdxSavedSet)
      ensures intensiveQuantitiesSaved == old(intensiveQuantitiesSaved) && priVarsSaved == old(priVarsSaved)
      ensures extensiveQuantities == old(extensiveQuantities)
      ensures extensiveQuantitiesSaved == old(extensiveQuantitiesSaved) && extensiveQuantitiesEval == old(extensiveQuantitiesEval)
    {
      cache' := cache;
      var nDof := NumDof();
      var d := 0;
      while d < nDof
        invariant 0 <= d <= nDof && Valid()
        invariant forall j :: 0 <= j < d ==>
          dofVars[j] == old(dofVars)[j].Refreshed(t, sol[GlobalSpaceIndex(j)], hints(GlobalSpaceIndex(j), t),
                                                   Evaluate(cache, compute, sol[GlobalSpaceIndex(j)], GlobalSpaceIndex(j), t))
        invariant forall j :: d <= j < nDof ==> dofVars[j] == old(dofVars)[j]
        invariant CacheExtends(cache, cache', compute, sol, t, storeCache)
        invariant storeCache ==> forall j :: 0 <= j < d ==> (GlobalSpaceIndex(j), t) in cache'
        invariant dofIdxSaved == old(dofIdxSaved) && dofIdxSavedSet == old(dofIdxSavedSet)
        invariant intensiveQuantitiesSaved == old(intensiveQuantitiesSaved)
        invariant priVarsSaved == old(priVarsSaved) && extensiveQuantities == old(extensiveQuantities)
        invariant extensiveQuantitiesSaved == old(extensiveQuantitiesSaved) && extensiveQuantitiesEval == old(extensiveQuantitiesEval)
      {
        var globalIdx := GlobalSpaceIndex(d);
        var volSol := sol[globalIdx];
        var hint := hints(globalIdx, t);
        var iq;
        if (globalIdx, t) in cache' {
          iq := cache'[(globalIdx, t)];
        } else {
          iq := compute(volSol, globalIdx, t);
          if storeCache {
            cache' := cache'[(globalIdx, t) := iq];
          }
        }
        dofVars := dofVars[d := dofVars[d].Refreshed(t, volSol, hint, iq)];
        d := d + 1;
      }
    }

    /**
     * The cache after an update: old entries are kept, and every new
     * entry is for history index t, was stored because the model caches,
     * and holds what was computed from the solution.
     */
    ghost predicate CacheExtends(cache: map<(nat, nat), IQ>, cache': map<(nat, nat), IQ>,
                                 compute: (PV, nat, nat) -> IQ, sol: seq<PV>, t: nat, storeCache: bool)
    {
      && (forall g, s :: (g, s) in cache ==> (g, s) in cache' && cache'[(g, s)] == cache[(g, s)])
      && (forall g, s :: (g, s) in cache' && (g, s) !in cache ==>
            storeCache && s == t && g < |sol| && cache'[(g, s)] == compute(sol[g], g, t))
    }

    /** every sol of the history addresses the global index of every DOF */
    ghost predicate SolutionsCover(sols: seq<seq<PV>>)
      reads stencil
      requires stencil.Valid()
    {
      forall t, d :: 0 <= t < |sols| && 0 <= d < NumDof() ==> GlobalSpaceIndex(d) < |sols[t]|
    }

    /**
     * History indices below n of every DOF in `vars` hold the primary
     * variables of its global index in that index's solution, the model's
     * hint and the intensive quantities evaluated from them.
     */
    ghost predicate StoresUpdated(vars: seq<DofStore<IQ, PV, Hint>>, n: nat, sols: seq<seq<PV>>, hints: (nat, nat) -> Hint,
                                  cache: map<(nat, nat), IQ>, compute: (PV, nat, nat) -> IQ)
      reads stencil
      requires stencil.Valid() && |vars| == NumDof() && n <= |sols| && n <= historySize && SolutionsCover(sols)
      requires forall d :: 0 <= d < |vars| ==> vars[d].Sized(historySize)
    {
      forall d, t :: 0 <= d < |vars| && 0 <= t < n ==>
        assert vars[d].Sized(historySize);
        && vars[d].priVars[t] == sols[t][GlobalSpaceIndex(d)]
        && vars[d].thermodynamicHint[t] == hints(GlobalSpaceIndex(d), t)
        && vars[d].intensiveQuantities[t] ==
             Evaluate(cache, compute, sols[t][GlobalSpaceIndex(d)], GlobalSpaceIndex(d), t)
    }

    /** the DOF store of the context is updated below history index n */
    ghost predicate UpdatedBelow(n: nat, sols: seq<seq<PV>>, hints: (nat, nat) -> Hint, cache: map<(nat, nat), IQ>,
                                 compute: (PV, nat, nat) -> IQ)
      reads this, stencil
      requires Valid() && n <= |sols| == historySize && SolutionsCover(sols)
    {
      StoresUpdated(dofVars, n, sols, hints, cache, compute)
    }

    /**
     * updateAllIntensiveQuantities: update every history index, each from
     * its own solution vector, then forget the saved DOF.
     */
    method UpdateAllIntensiveQuantities(sols: seq<seq<PV>>, hints: (nat, nat) -> Hint, cache: map<(nat, nat), IQ>,
                                        compute: (PV, nat, nat) -> IQ, storeCache: bool)
      returns (cache': map<(nat, nat), IQ>)
      requires Valid() && |sols| == historySize && SolutionsCover(sols)
      modifies this
      ensures Valid() && dofIdxSaved == -1 && dofIdxSavedSet
      ensures UpdatedBelow(historySize, sols, hints, cache, compute)
      ensures intensiveQuantitiesSaved == old(intensiveQuantitiesSaved) && priVarsSaved == old(priVarsSaved)
      ensures extensiveQuantities == old(extensiveQuantities)
      ensures extensiveQuantitiesSaved == old(extensiveQuantitiesSaved) && extensiveQuantitiesEval == old(extensiveQuantitiesEval)
    {
      cache' := cache;
      // the saved DOF is forgotten after the updates; no update reads or
      // writes it, so forgetting it first ends in the same state
      dofIdxSaved := -1;
      dofIdxSavedSet := true;
      var t := 0;
      while t < historySize
        invariant 0 <= t <= historySize && Valid() && |dofVars| == old(|dofVars|)
        invariant dofIdxSaved == -1 && dofIdxSavedSet
        invariant UpdatedBelow(t, sols, hints, cache, compute)
        invariant forall g, s :: t <= s ==> ((g, s) in cache' <==> (g, s) in cache)
        invariant forall g, s :: t <= s && (g, s) in cache ==> cache'[(g, s)] == cache[(g, s)]
        invariant intensiveQuantitiesSaved == old(intensiveQuantitiesSaved) && priVarsSaved == old(priVarsSaved)
        invariant extensiveQuantities == old(extensiveQuantities)
        invariant extensiveQuantitiesSaved == old(extensiveQuantitiesSaved) && extensiveQuantitiesEval == old(extensiveQuantitiesEval)
      {
        ghost var before := cache';
        ghost var prev := dofVars;
        assert SolutionCovers(sols[t]);
        cache' := UpdateIntensiveQuantities(t, sols[t], hints, cache', compute, storeCache);
        forall d, s | 0 <= d < |dofVars| && 0 <= s <= t
          ensures dofVars[d].priVars[s] == sols[s][GlobalSpaceIndex(d)]
          ensures dofVars[d].thermodynamicHint[s] == hints(GlobalSpaceIndex(d), s)
          ensures dofVars[d].intensiveQuantities[s] ==
               Evaluate(cache, compute, sols[s][GlobalSpaceIndex(d)], GlobalSpaceIndex(d), s)
        {
          var g := GlobalSpaceIndex(d);
          assert dofVars[d] == prev[d].Refreshed(t, sols[t][g], hints(g, t), Evaluate(before, compute, sols[t][g], g, t));
          if s == t {
            assert (g, t) in before <==> (g, t) in cache;
          } else {
            assert prev[d].priVars[s] == sols[s][g];
          }
        }
        t := t + 1;
      }
    }

    /**
     * updateIntensiveQuantities(priVars, dofIdx, timeIdx): recompute one
     * DOF from given primary variables without consulting the cache.
     */
    method UpdateSingleIntensiveQuantities(pv: PV, dofIdx: nat, t: nat, compute: (PV, nat, nat) -> IQ)
      requires Valid() && dofIdx < NumDof() && t < historySize
      modifies this
      ensures Valid()
      ensures dofVars == old(dofVars)[dofIdx := old(dofVars)[dofIdx].(
        intensiveQuantities := old(dofVars)[dofIdx].intensiveQuantities[t := compute(pv, GlobalSpaceIndex(dofIdx), t)],
        priVars := old(dofVars)[dofIdx].priVars[t := pv])]
      ensures dofIdxSaved == old(dofIdxSaved) && dofIdxSavedSet == old(dofIdxSavedSet)
      // perturbing the saved DOF (or another history index) leaves every evaluation point where it was
      ensures dofIdxSavedSet && (t != 0 || dofIdx == dofIdxSaved) ==>
        forall d :: 0 <= d < NumDof() ==> EvalPointIntensiveQuantities(d, 0) == old(EvalPointIntensiveQuantities(d, 0))
      ensures intensiveQuantitiesSaved == old(intensiveQuantitiesSaved) && priVarsSaved == old(priVarsSaved)
      ensures extensiveQuantities == old(extensiveQuantities)
      ensures extensiveQuantitiesSaved == old(extensiveQuantitiesSaved) && extensiveQuantitiesEval == old(extensiveQuantitiesEval)
    {
      var store := dofVars[dofIdx];
      dofVars := dofVars[dofIdx := store.(
        intensiveQuantities := store.intensiveQuantities[t := compute(pv, GlobalSpaceIndex(dofIdx), t)],
        priVars := store.priVars[t := pv])];
    }

    /** intensiveQuantities(dofIdx, timeIdx): defined only for an existing DOF */
    function IntensiveQuantities(dofIdx: nat, t: nat): IQ
      reads this, stencil
      requires Valid() && dofIdx < NumDof() && t < historySize
    {
      dofVars[dofIdx].intensiveQuantities[t]
    }

    /** thermodynamicHint(dofIdx, timeIdx): defined only for an existing DOF */
    function ThermodynamicHint(dofIdx: nat, t: nat): Hint
      reads this, stencil
      requires Valid() && dofIdx < NumDof() && t < historySize
    {
      dofVars[dofIdx].thermodynamicHint[t]
    }

    /** primaryVars(dofIdx, timeIdx): defined only for an existing DOF */
    function PrimaryVars(dofIdx: nat, t: nat): PV
      reads this, stencil
      requires Valid() && dofIdx < NumDof() && t < historySize
    {
      dofVars[dofIdx].priVars[t]
    }

    /**
     * saveIntensiveQuantities: remember the DOF and snapshot its current
     * intensive quantities and primary variables; nothing else changes.
     */
    method SaveIntensiveQuantities(dofIdx: nat)
      requires Valid() && dofIdx < NumDof()
      modifies this
      ensures Valid() && dofIdxSaved == dofIdx && dofIdxSavedSet
      ensures intensiveQuantitiesSaved == dofVars[dofIdx].intensiveQuantities[0]
      ensures priVarsSaved == dofVars[dofIdx].priVars[0]
      ensures dofVars == old(dofVars) && extensiveQuantities == old(extensiveQuantities)
      ensures extensiveQuantitiesSaved == old(extensiveQuantitiesSaved) && extensiveQuantitiesEval == old(extensiveQuantitiesEval)
      ensures forall d, t :: 0 <= d < NumDof() && 0 <= t < historySize ==>
        EvalPointIntensiveQuantities(d, t) == IntensiveQuantities(d, t)
    {
      dofIdxSaved := dofIdx;
      dofIdxSavedSet := true;
      intensiveQuantitiesSaved := dofVars[dofIdx].intensiveQuantities[0];
      priVarsSaved := dofVars[dofIdx].priVars[0];
    }

    /**
     * restoreIntensiveQuantities: forget the saved DOF and write the
     * snapshot back into history index 0 of `dofIdx`.
     */
    method RestoreIntensiveQuantities(dofIdx: nat)
      requires Valid() && dofIdx < |dofVars|
      modifies this
      ensures Valid() && dofIdxSaved == -1 && dofIdxSavedSet
      ensures dofVars == old(dofVars)[dofIdx := old(dofVars)[dofIdx].WithTimeZero(intensiveQuantitiesSaved, priVarsSaved)]
      ensures intensiveQuantitiesSaved == old(intensiveQuantitiesSaved) && priVarsSaved == old(priVarsSaved)
      ensures extensiveQuantities == old(extensiveQuantities)
      ensures extensiveQuantitiesSaved == old(extensiveQuantitiesSaved) && extensiveQuantitiesEval == old(extensiveQuantitiesEval)
    {
      dofIdxSaved := -1;
      dofIdxSavedSet := true;
      dofVars := dofVars[dofIdx := dofVars[dofIdx].WithTimeZero(intensiveQuantitiesSaved, priVarsSaved)];
    }

    /**
     * evalPointIntensiveQuantities: history indices other than 0 read the
     * current values; at index 0 the saved DOF reads its snapshot.
     */
    function EvalPointIntensiveQuantities(dofIdx: nat, t: nat): IQ
      reads this, stencil
      requires Valid() && dofIdx < NumDof() && t < historySize
      requires t != 0 || dofIdxSavedSet
    {
      if t != 0 then IntensiveQuantities(dofIdx, t)
      else if dofIdxSaved == dofIdx then intensiveQuantitiesSaved
      else IntensiveQuantities(dofIdx, 0)
    }

    /**
     * updateExtensiveQuantities(timeIdx): the current list becomes the
     * evaluation point and every interior face is recomputed.
     */
    method UpdateExtensiveQuantities(t: nat, computeEq: (nat, nat) -> EQ)
      requires Valid()
      modifies this
      ensures Valid() && extensiveQuantitiesEval == Current
      ensures extensiveQuantities == seq(|old(extensiveQuantities)|, (i: nat) => computeEq(i, t))
      ensures dofVars == old(dofVars) && dofIdxSaved == old(dofIdxSaved) && dofIdxSavedSet == old(dofIdxSavedSet)
      ensures intensiveQuantitiesSaved == old(intensiveQuantitiesSaved) && priVarsSaved == old(priVarsSaved)
      ensures extensiveQuantitiesSaved == old(extensiveQuantitiesSaved)
    {
      extensiveQuantitiesEval := Current;
      var n := stencil.NumInteriorFaces();
      var fluxIdx := 0;
      while fluxIdx < n
        invariant 0 <= fluxIdx <= n && |extensiveQuantities| == n
        invariant forall i :: 0 <= i < fluxIdx ==> extensiveQuantities[i] == computeEq(i, t)
        invariant dofVars == old(dofVars) && dofIdxSaved == old(dofIdxSaved) && dofIdxSavedSet == old(dofIdxSavedSet)
        invariant intensiveQuantitiesSaved == old(intensiveQuantitiesSaved) && priVarsSaved == old(priVarsSaved)
        invariant extensiveQuantitiesSaved == old(extensiveQuantitiesSaved) && extensiveQuantitiesEval == Current
      {
        extensiveQuantities := extensiveQuantities[fluxIdx := computeEq(fluxIdx, t)];
        fluxIdx := fluxIdx + 1;
      }
    }

    /** updateAllExtensiveQuantities: the extensive quantities of history index 0 */
    method UpdateAllExtensiveQuantities(computeEq: (nat, nat) -> EQ)
      requires Valid()
      modifies this
      ensures Valid() && extensiveQuantitiesEval == Current
      ensures extensiveQuantities == seq(|old(extensiveQuantities)|, (i: nat) => computeEq(i, 0))
      ensures dofVars == old(dofVars) && dofIdxSaved == old(dofIdxSaved) && dofIdxSavedSet == old(dofIdxSavedSet)
      ensures intensiveQuantitiesSaved == old(intensiveQuantitiesSaved) && priVarsSaved == old(priVarsSaved)
      ensures extensiveQuantitiesSaved == old(extensiveQuantitiesSaved)
    {
      UpdateExtensiveQuantities(0, computeEq);
    }

    /** saveExtensiveQuantities: copy the current list and evaluate against the copy */
    method SaveExtensiveQuantities()
      requires Valid()
      modifies this
      ensures Valid() && extensiveQuantitiesSaved == extensiveQuantities && extensiveQuantitiesEval == Saved
      ensures extensiveQuantities == old(extensiveQuantities) && dofVars == old(dofVars)
      ensures dofIdxSaved == old(dofIdxSaved) && dofIdxSavedSet == old(dofIdxSavedSet)
      ensures intensiveQuantitiesSaved == old(intensiveQuantitiesSaved) && priVarsSaved == old(priVarsSaved)
      ensures forall i: nat, t: nat :: i < |extensiveQuantities| ==>
        EvalPointExtensiveQuantities(i, t) == extensiveQuantities[i]
    {
      extensiveQuantitiesSaved := extensiveQuantities;
      extensiveQuantitiesEval := Saved;
    }

    /** restoreExtensiveQuantities: evaluate against the current list again; nothing is copied */
    method RestoreExtensiveQuantities()
      requires Valid()
      modifies this
      ensures Valid() && extensiveQuantitiesEval == Current
      ensures extensiveQuantities == old(extensiveQuantities) && extensiveQuantitiesSaved == old(extensiveQuantitiesSaved)
      ensures dofVars == old(dofVars) && dofIdxSaved == old(dofIdxSaved) && dofIdxSavedSet == old(dofIdxSavedSet)
      ensures intensiveQuantitiesSaved == old(intensiveQuantitiesSaved) && priVarsSaved == old(priVarsSaved)
    {
      extensiveQuantitiesEval := Current;
    }

    /** the list the evaluation point of history index 0 refers to */
    function EvalList(): seq<EQ>
      reads this
    {
      if extensiveQuantitiesEval == Saved then extensiveQuantitiesSaved else extensiveQuantities
    }

    /**
     * evalPointExtensiveQuantities: history indices other than 0 read the
     * current list, index 0 the list of the evaluation point.
     */
    function EvalPointExtensiveQuantities(fluxIdx: nat, t: nat): EQ
      reads this
      requires t != 0 || extensiveQuantitiesEval != Unset
      requires fluxIdx < |extensiveQuantities| && (t == 0 ==> fluxIdx < |EvalList()|)
    {
      if t != 0 then extensiveQuantities[fluxIdx] else EvalList()[fluxIdx]
    }
  }
}
