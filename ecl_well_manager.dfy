/**
 * The logic of the well manager of the Eclipse-deck simulator: the
 * registry of wells by name, the decision tables that configure a well
 * for an episode from its deck status and its injection or production
 * properties, the predicates that say whether the wells changed between
 * report steps, and the accumulated produced and injected surface
 * volumes. The Peaceman well itself is reduced to the fields these
 * tables set; the deck and schedule are plain values.
 */
module EclWellManager {
  import opened LastOccurrence

  datatype Option<T> = None | Some(value: T)
  datatype Result<T> = Ok(value: T) | Failure(message: string)

  /** the three fluid phases, in the (oil, gas, water) order of the phase weights */
  const NumPhases: nat := 3

  datatype Phase = OilPhase | GasPhase | WaterPhase
  datatype WellStatus = Open | Closed | Shut
  datatype WellType = TypeUnset | Injector | Producer
  datatype ControlMode = ControlUnset | BottomHolePressure | TubingHeadPressure
                       | VolumetricSurfaceRate | VolumetricReservoirRate

  /** volumetric phase weights as (oil, gas, water) */
  datatype Weights = Weights(oil: real, gas: real, water: real)

  datatype Well = Well(
    name: string,
    status: WellStatus,
    wellType: WellType,
    injectedPhase: Option<Phase>,
    controlMode: ControlMode,
    weights: Weights,
    maxSurfaceRate: real,
    maxReservoirRate: real,
    targetBottomHolePressure: real,
    targetTubingHeadPressure: real)

  /** a freshly created well as init leaves it: named and shut */
  function NewWell(name: string): Well {
    Well(name, Shut, TypeUnset, None, ControlUnset, Weights(0.0, 0.0, 0.0), 0.0, 0.0, 0.0, 0.0)
  }

  // ---------------------------------------------------------------------
  // The deck

  datatype DeckStatus = AUTO | OPEN | STOP | SHUT
  datatype InjectorType = WATER | GAS | OIL | MULTI
  datatype InjectorControl = RATE | I_RESV | I_BHP | I_THP | I_GRUP | I_UNDEFINED
  datatype ProducerControl = ORAT | WRAT | GRAT | LRAT | CRAT | RESV | BHP | THP | GRUP | UNDEFINED

  datatype InjectionProperties = InjectionProperties(
    injectorType: InjectorType, controlMode: InjectorControl,
    surfaceInjectionRate: real, reservoirInjectionRate: real, bhpLimit: real)

  datatype ProductionProperties = ProductionProperties(
    controlMode: ProducerControl,
    oilRate: real, gasRate: real, waterRate: real, liquidRate: real, resvRate: real, bhpLimit: real)

  /** a deck well is, for an episode, exactly one of an injector and a producer */
  datatype Role = InjectorRole(injection: InjectionProperties) | ProducerRole(production: ProductionProperties)

  /** a deck well as the schedule describes it for the current episode */
  datatype DeckWell = DeckWell(name: string, status: DeckStatus, role: Role)

  /** the deck status table: AUTO counts as open */
  function StatusOf(s: DeckStatus): (r: WellStatus)
    ensures r == Open <==> s == AUTO || s == OPEN
    ensures r == Closed <==> s == STOP
  {
    match s
    case AUTO => Open
    case OPEN => Open
    case STOP => Closed
    case SHUT => Shut
  }

  function PhaseOf(t: InjectorType): Phase
    requires t != MULTI
  {
    match t
    case WATER => WaterPhase
    case GAS => GasPhase
    case OIL => OilPhase
  }

  /** the unit weight vector of one phase */
  function UnitWeights(p: Phase): Weights {
    match p
    case OilPhase => Weights(1.0, 0.0, 0.0)
    case GasPhase => Weights(0.0, 1.0, 0.0)
    case WaterPhase => Weights(0.0, 0.0, 1.0)
  }

  /** the deck settings the simulator rejects as not implemented */
  predicate NotImplemented(dw: DeckWell) {
    match dw.role
    case InjectorRole(ip) => ip.injectorType == MULTI || ip.controlMode == I_GRUP
    case ProducerRole(pp) => pp.controlMode == CRAT || pp.controlMode == GRUP
  }

  /** a setting whose control mode is undefined: the well is shut and left otherwise as is */
  predicate ControlUndefined(dw: DeckWell) {
    match dw.role
    case InjectorRole(ip) => ip.controlMode == I_UNDEFINED
    case ProducerRole(pp) => pp.controlMode == UNDEFINED
  }

  /** the outcome of configuring one well; a thrown error carries the state reached before the throw */
  datatype Configured = Done(well: Well) | Thrown(well: Well, message: string)

  /** The producer table for a producer whose control mode is implemented and defined. */
  function ProducerControlled(w: Well, pp: ProductionProperties): Well
    requires pp.controlMode !in {CRAT, GRUP, UNDEFINED}
  {
    match pp.controlMode
    case ORAT => w.(controlMode := VolumetricSurfaceRate, weights := Weights(1.0, 0.0, 0.0), maxSurfaceRate := pp.oilRate)
    case GRAT => w.(controlMode := VolumetricSurfaceRate, weights := Weights(0.0, 1.0, 0.0), maxSurfaceRate := pp.gasRate)
    case WRAT => w.(controlMode := VolumetricSurfaceRate, weights := Weights(0.0, 0.0, 1.0), maxSurfaceRate := pp.waterRate)
    case LRAT => w.(controlMode := VolumetricSurfaceRate, weights := Weights(1.0, 0.0, 1.0), maxSurfaceRate := pp.liquidRate)
    case RESV => w.(controlMode := VolumetricReservoirRate, weights := Weights(1.0, 1.0, 1.0), maxSurfaceRate := pp.resvRate)
    case BHP => w.(controlMode := BottomHolePressure)
    case THP => w.(controlMode := TubingHeadPressure)
  }

  /**
   * The body of the loop of beginEpisode for one registered well: the
   * status table, then the injector or producer table.
   */
  function Configure(w: Well, dw: DeckWell): (r: Configured)
    ensures r.well.name == w.name
    ensures r.Thrown? <==> NotImplemented(dw)
    ensures r.Done? && ControlUndefined(dw) ==> r.well.status == Shut
    ensures r.Done? && !ControlUndefined(dw) ==> r.well.status == StatusOf(dw.status)
    ensures r.Done? ==> r.well.wellType == (if dw.role.InjectorRole? then Injector else Producer)
  {
    var w1 := w.(status := StatusOf(dw.status));
    match dw.role
    case InjectorRole(ip) =>
      var w2 := w1.(wellType := Injector);
      if ip.injectorType == MULTI then Thrown(w2, "Not implemented: Multi-phase injector wells")
      else
        var phase := PhaseOf(ip.injectorType);
        var w3 := w2.(injectedPhase := Some(phase));
        (match ip.controlMode
         case I_GRUP => Thrown(w3, "Not implemented: Well groups")
         case I_UNDEFINED => Done(w3.(status := Shut))
         case _ =>
           var mode := match ip.controlMode
             case RATE => VolumetricSurfaceRate
             case I_RESV => VolumetricReservoirRate
             case I_BHP => BottomHolePressure
             case I_THP => TubingHeadPressure;
           Done(w3.(controlMode := mode, weights := UnitWeights(phase),
                    maxSurfaceRate := ip.surfaceInjectionRate, maxReservoirRate := ip.reservoirInjectionRate,
                    targetBottomHolePressure := ip.bhpLimit, targetTubingHeadPressure := 1e30)))
    case ProducerRole(pp) =>
      var w2 := w1.(wellType := Producer);
      (match pp.controlMode
       case CRAT => Thrown(w2, "Not implemented: Linearly combined rates")
       case GRUP => Thrown(w2, "Not implemented: Well groups")
       case UNDEFINED => Done(w2.(status := Shut))
       case _ =>
         Done(ProducerControlled(w2, pp).(targetBottomHolePressure := pp.bhpLimit, targetTubingHeadPressure := -1e30)))
  }

  /**
   * The injector table: an implemented injector injects one phase with the
   * unit weights of that phase; RATE, RESV, BHP and THP select the matching
   * control mode, and the deck's rates and BHP limit become its limits.
   */
  lemma InjectorWeighsItsPhase(w: Well, dw: DeckWell)
    requires dw.role.InjectorRole? && !NotImplemented(dw) && !ControlUndefined(dw)
    ensures Configure(w, dw).well.injectedPhase == Some(PhaseOf(dw.role.injection.injectorType))
    ensures Configure(w, dw).well.weights == UnitWeights(PhaseOf(dw.role.injection.injectorType))
    ensures Configure(w, dw).well.targetTubingHeadPressure == 1e30
    ensures var c, ip := Configure(w, dw).well, dw.role.injection;
      c.controlMode == (match ip.controlMode
                        case RATE => VolumetricSurfaceRate
                        case I_RESV => VolumetricReservoirRate
                        case I_BHP => BottomHolePressure
                        case _ => TubingHeadPressure)
    ensures var c, ip := Configure(w, dw).well, dw.role.injection;
      && c.maxSurfaceRate == ip.surfaceInjectionRate && c.maxReservoirRate == ip.reservoirInjectionRate
      && c.targetBottomHolePressure == ip.bhpLimit
  {
  }

  /**
   * The producer table for the rate modes: ORAT, GRAT and WRAT control the
   * surface rate of their own phase, LRAT that of oil and water together,
   * and RESV the reservoir rate of all three phases; each mode takes its
   * own deck rate as the maximum surface rate.
   */
  lemma ProducerRateWeights(w: Well, dw: DeckWell)
    requires dw.role.ProducerRole? && dw.role.production.controlMode in {ORAT, GRAT, WRAT, LRAT, RESV}
    ensures var c, pp := Configure(w, dw).well, dw.role.production;
      pp.controlMode == ORAT ==>
        c.controlMode == VolumetricSurfaceRate && c.weights == Weights(1.0, 0.0, 0.0) && c.maxSurfaceRate == pp.oilRate
    ensures var c, pp := Configure(w, dw).well, dw.role.production;
      pp.controlMode == GRAT ==>
        c.controlMode == VolumetricSurfaceRate && c.weights == Weights(0.0, 1.0, 0.0) && c.maxSurfaceRate == pp.gasRate
    ensures var c, pp := Configure(w, dw).well, dw.role.production;
      pp.controlMode == WRAT ==>
        c.controlMode == VolumetricSurfaceRate && c.weights == Weights(0.0, 0.0, 1.0) && c.maxSurfaceRate == pp.waterRate
    ensures var c, pp := Configure(w, dw).well, dw.role.production;
      pp.controlMode == LRAT ==>
        c.controlMode == VolumetricSurfaceRate && c.weights == Weights(1.0, 0.0, 1.0) && c.maxSurfaceRate == pp.liquidRate
    ensures var c, pp := Configure(w, dw).well, dw.role.production;
      pp.controlMode == RESV ==>
        c.controlMode == VolumetricReservoirRate && c.weights == Weights(1.0, 1.0, 1.0) && c.maxSurfaceRate == pp.resvRate
    ensures var c, pp := Configure(w, dw).well, dw.role.production;
      c.maxReservoirRate == w.maxReservoirRate
      && c.targetBottomHolePressure == pp.bhpLimit && c.targetTubingHeadPressure == -1e30
  {
  }

  /**
   * BHP and THP control the bottom-hole and the tubing-head pressure; the
   * weights and rate limits stay as they were.
   */
  lemma ProducerPressureKeepsRates(w: Well, dw: DeckWell)
    requires dw.role.ProducerRole? && dw.role.production.controlMode in {BHP, THP}
    ensures var c := Configure(w, dw).well;
      c.controlMode == (if dw.role.production.controlMode == BHP then BottomHolePressure else TubingHeadPressure)
    ensures var c := Configure(w, dw).well;
      c.weights == w.weights && c.maxSurfaceRate == w.maxSurfaceRate && c.maxReservoirRate == w.maxReservoirRate
    ensures var c := Configure(w, dw).well;
      c.targetBottomHolePressure == dw.role.production.bhpLimit && c.targetTubingHeadPressure == -1e30
  {
  }

  /** An undefined control mode shuts the well and skips the tables that follow. */
  lemma UndefinedControlSkipsSetup(w: Well, dw: DeckWell)
    requires ControlUndefined(dw) && !NotImplemented(dw)
    ensures var c := Configure(w, dw).well;
      c.status == Shut && c.controlMode == w.controlMode && c.weights == w.weights
      && c.maxSurfaceRate == w.maxSurfaceRate && c.targetBottomHolePressure == w.targetBottomHolePressure
  {
  }

  // ---------------------------------------------------------------------
  // The registry

  /** init's name map: every name maps to the position of its last well */
  function NameMap(m: map<string, nat>, names: seq<string>, offset: nat): (r: map<string, nat>)
    decreases |names|
  {
    if |names| == 0 then m
    else
      var k := |names| - 1;
      NameMap(m, names[..k], offset)[names[k] := offset + k]
  }

  /** A name is registered iff it was before or is among the new names, and then a repeated name maps to its later position. */
  lemma {:induction false} NameMapAt(m: map<string, nat>, names: seq<string>, offset: nat, n: string)
    ensures n in NameMap(m, names, offset) <==> n in m || n in names
    ensures n in names ==> NameMap(m, names, offset)[n] == offset + LastIndex(names, n)
    ensures n !in names && n in m ==> NameMap(m, names, offset)[n] == m[n]
    decreases |names|
  {
    if |names| > 0 {
      var k := |names| - 1;
      NameMapAt(m, names[..k], offset, n);
      assert names == names[..k] + [names[k]];
    }
  }

  function Names(deck: seq<DeckWell>): (r: seq<string>)
    ensures |r| == |deck| && forall i :: 0 <= i < |deck| ==> r[i] == deck[i].name
  {
    seq(|deck|, i requires 0 <= i < |deck| => deck[i].name)
  }

  // ---------------------------------------------------------------------
  // The schedule

  /** the schedule events the well manager asks about; every other kind of event is OTHER_EVENT */
  datatype ScheduleEvent = NEW_WELL | COMPLETION_CHANGE | PRODUCTION_UPDATE | INJECTION_UPDATE | WELL_STATUS_CHANGE
                         | OTHER_EVENT

  /** the number of report steps and the events that happen at each */
  datatype Schedule = Schedule(numTimesteps: nat, events: nat -> set<ScheduleEvent>)

  /** events.hasEvent(mask, step): some event of the mask happens at the step */
  predicate HasEvent(s: Schedule, mask: set<ScheduleEvent>, step: nat)
    ensures HasEvent(s, mask, step) <==> exists e :: e in mask && e in s.events(step)
  {
    var hit := s.events(step) * mask;
    assert hit != {} <==> exists e :: e in mask && e in s.events(step) by {
      if hit != {} {
        var e :| e in hit;
        assert e in mask && e in s.events(step);
      }
      if exists e :: e in mask && e in s.events(step) {
        var e :| e in mask && e in s.events(step);
        assert e in hit;
      }
    }
    hit != {}
  }

  /** wellTopologyChanged_: always at step 0, never past the schedule, else on a new well or completion change */
  predicate WellTopologyChanged(s: Schedule, step: nat)
    ensures WellTopologyChanged(s, step) <==>
      step == 0 || (step < s.numTimesteps && (NEW_WELL in s.events(step) || COMPLETION_CHANGE in s.events(step)))
  {
    if step == 0 then true
    else if s.numTimesteps <= step then false
    else HasEvent(s, {NEW_WELL, COMPLETION_CHANGE}, step)
  }

  /** wellsChanged: a topology change, or within the schedule a production, injection or status update */
  predicate WellsChanged(s: Schedule, step: nat)
    ensures WellsChanged(s, step) <==>
      (WellTopologyChanged(s, step)
       || (step < s.numTimesteps && (PRODUCTION_UPDATE in s.events(step) || INJECTION_UPDATE in s.events(step)
                                     || WELL_STATUS_CHANGE in s.events(step))))
  {
    if WellTopologyChanged(s, step) then true
    else if s.numTimesteps <= step then false
    else HasEvent(s, {PRODUCTION_UPDATE, INJECTION_UPDATE, WELL_STATUS_CHANGE}, step)
  }

  /**
   * The wells change at the first report step, never after the last one,
   * and otherwise exactly when one of the five well events happens; a
   * topology change is one of them.
   */
  lemma WellsChangedCharacterised(s: Schedule, step: nat)
    ensures WellTopologyChanged(s, step) ==> WellsChanged(s, step)
    ensures WellsChanged(s, step) <==>
      step == 0 || (step < s.numTimesteps && exists e :: e in s.events(step) && e != OTHER_EVENT)
  {
  }

  // ---------------------------------------------------------------------
  // Volume totals

  /** the part of a signed surface volume that counts as produced (negative volumes) */
  function Produced(vol: real): real { if vol < 0.0 then -vol else 0.0 }

  /** the part of a signed surface volume that counts as injected (the rest) */
  function Injected(vol: real): real { if vol < 0.0 then 0.0 else vol }

  /** the produced or the injected part of a volume */
  function Part(produced: bool, vol: real): real {
    if produced then Produced(vol) else Injected(vol)
  }

  /** a signed volume splits into what is injected minus what is produced, both non-negative */
  lemma SignedVolumeSplits(vol: real)
    ensures Produced(vol) >= 0.0 && Injected(vol) >= 0.0
    ensures Injected(vol) - Produced(vol) == vol
    ensures Injected(vol) == 0.0 || Produced(vol) == 0.0
  {
  }

  /** the totals of one well's name after one time step with surface rates `rate` */
  function AddVolumes(totals: seq<real>, rate: seq<real>, dt: real, produced: bool): (r: seq<real>)
    requires |totals| == NumPhases && |rate| == NumPhases
    ensures |r| == NumPhases
    ensures forall p :: 0 <= p < NumPhases ==> r[p] == totals[p] + Part(produced, dt * rate[p])
  {
    var vol := StepVolumes(rate, dt);
    seq(NumPhases, p requires 0 <= p < NumPhases => totals[p] + Part(produced, vol[p]))
  }

  /** the signed surface volume of each phase over a time step of length dt */
  function StepVolumes(rate: seq<real>, dt: real): (r: seq<real>)
    requires |rate| == NumPhases
    ensures |r| == NumPhases
    ensures forall p :: 0 <= p < NumPhases ==> r[p] == dt * rate[p]
  {
    seq(NumPhases, p requires 0 <= p < NumPhases => dt * rate[p])
  }

  /** the totals of a name seen for the first time start at zero */
  function TotalsOf(m: map<string, seq<real>>, name: string): (r: seq<real>)
    ensures |r| == NumPhases || (name in m && r == m[name])
  {
    if name in m then m[name] else [0.0, 0.0, 0.0]
  }

  predicate TotalsSized(m: map<string, seq<real>>) {
    forall n :: n in m ==> |m[n]| == NumPhases
  }

  predicate RatesSized(rates: seq<seq<real>>) {
    forall i :: 0 <= i < |rates| ==> |rates[i]| == NumPhases
  }

  /** endTimeStep's totals: the wells' volumes of one time step added in well order */
  function Accumulate(m: map<string, seq<real>>, names: seq<string>, rates: seq<seq<real>>, dt: real, produced: bool): (r: map<string, seq<real>>)
    requires |rates| == |names| && RatesSized(rates) && TotalsSized(m)
    ensures TotalsSized(r)
    decreases |names|
  {
    if |names| == 0 then m
    else
      var k := |names| - 1;
      var prev := Accumulate(m, names[..k], rates[..k], dt, produced);
      prev[names[k] := AddVolumes(TotalsOf(prev, names[k]), rates[k], dt, produced)]
  }

  /** totalProducedVolume / totalInjectedVolume: zero for a well not yet seen */
  function TotalVolume(m: map<string, seq<real>>, name: string, phase: nat): real
    requires TotalsSized(m) && phase < NumPhases
  {
    if name !in m then 0.0 else m[name][phase]
  }

  /** one more well of the loop: its name's totals get that well's step */
  lemma AccumulateStep(m: map<string, seq<real>>, names: seq<string>, rates: seq<seq<real>>, dt: real, produced: bool, i: nat)
    requires |rates| == |names| && RatesSized(rates) && TotalsSized(m) && i < |names|
    ensures RatesSized(rates[..i]) && RatesSized(rates[..i + 1])
    ensures var prev := Accumulate(m, names[..i], rates[..i], dt, produced);
      Accumulate(m, names[..i + 1], rates[..i + 1], dt, produced)
        == prev[names[i] := AddVolumes(TotalsOf(prev, names[i]), rates[i], dt, produced)]
  {
    assert names[..i + 1][..i] == names[..i] && rates[..i + 1][..i] == rates[..i];
  }

  /**
   * Totals never decrease: every name seen before is still there and each
   * of its phase totals has grown by a non-negative amount.
   */
  lemma {:induction false} TotalsNeverDecrease(m: map<string, seq<real>>, names: seq<string>, rates: seq<seq<real>>,
                                               dt: real, produced: bool, n: string, phase: nat)
    requires |rates| == |names| && RatesSized(rates) && TotalsSized(m) && phase < NumPhases
    ensures TotalVolume(Accumulate(m, names, rates, dt, produced), n, phase) >= TotalVolume(m, n, phase)
    ensures n in m ==> n in Accumulate(m, names, rates, dt, produced)
    decreases |names|
  {
    if |names| > 0 {
      var k := |names| - 1;
      var prev := Accumulate(m, names[..k], rates[..k], dt, produced);
      TotalsNeverDecrease(m, names[..k], rates[..k], dt, produced, n, phase);
      var grown := AddVolumes(TotalsOf(prev, names[k]), rates[k], dt, produced);
      assert Accumulate(m, names, rates, dt, produced) == prev[names[k] := grown];
      if names[k] == n {
        SignedVolumeSplits(dt * rates[k][phase]);
        assert grown[phase] == TotalsOf(prev, n)[phase] + Part(produced, dt * rates[k][phase]);
        assert TotalsOf(prev, n)[phase] == TotalVolume(prev, n, phase);
      } else {
        assert TotalVolume(prev[names[k] := grown], n, phase) == TotalVolume(prev, n, phase);
      }
    }
  }

  /** A name that no well carries keeps its totals. */
  lemma {:induction false} TotalsOfOthersUnchanged(m: map<string, seq<real>>, names: seq<string>, rates: seq<seq<real>>,
                                                   dt: real, produced: bool, n: string)
    requires |rates| == |names| && RatesSized(rates) && TotalsSized(m) && n !in names
    ensures (n in Accumulate(m, names, rates, dt, produced) <==> n in m)
    ensures n in m ==> Accumulate(m, names, rates, dt, produced)[n] == m[n]
    decreases |names|
  {
    if |names| > 0 {
      var k := |names| - 1;
      assert n !in names[..k] by { assert forall x :: x in names[..k] ==> x in names; }
      TotalsOfOthersUnchanged(m, names[..k], rates[..k], dt, produced, n);
    }
  }

  /**
   * For a name carried by one well only, injected minus produced grows by
   * exactly the signed volume dt * rate of that well's time step.
   */
  lemma NetVolumeOfOneWell(inj: map<string, seq<real>>, prod: map<string, seq<real>>, names: seq<string>,
                           rates: seq<seq<real>>, dt: real, i: nat, phase: nat)
    requires |rates| == |names| && RatesSized(rates) && TotalsSized(inj) && TotalsSized(prod)
    requires i < |names| && phase < NumPhases
    requires forall j :: 0 <= j < |names| && j != i ==> names[j] != names[i]
    ensures TotalVolume(Accumulate(inj, names, rates, dt, false), names[i], phase)
          - TotalVolume(Accumulate(prod, names, rates, dt, true), names[i], phase)
         == TotalVolume(inj, names[i], phase) - TotalVolume(prod, names[i], phase) + dt * rates[i][phase]
  {
    var n := names[i];
    var vol := dt * rates[i][phase];
    AccumulateOneWell(inj, names, rates, dt, false, i);
    AccumulateOneWell(prod, names, rates, dt, true, i);
    assert TotalVolume(Accumulate(inj, names, rates, dt, false), n, phase)
        == TotalVolume(inj, n, phase) + Injected(vol) by {
      assert AddVolumes(TotalsOf(inj, n), rates[i], dt, false)[phase] == TotalsOf(inj, n)[phase] + Injected(vol);
    }
    assert TotalVolume(Accumulate(prod, names, rates, dt, true), n, phase)
        == TotalVolume(prod, n, phase) + Produced(vol) by {
      assert AddVolumes(TotalsOf(prod, n), rates[i], dt, true)[phase] == TotalsOf(prod, n)[phase] + Produced(vol);
    }
    SignedVolumeSplits(vol);
  }

  /** The totals of a name carried by one well only receive exactly that well's step. */
  lemma {:induction false} AccumulateOneWell(m: map<string, seq<real>>, names: seq<string>, rates: seq<seq<real>>,
                                             dt: real, produced: bool, i: nat)
    requires |rates| == |names| && RatesSized(rates) && TotalsSized(m) && i < |names|
    requires forall j :: 0 <= j < |names| && j != i ==> names[j] != names[i]
    ensures names[i] in Accumulate(m, names, rates, dt, produced)
    ensures Accumulate(m, names, rates, dt, produced)[names[i]] == AddVolumes(TotalsOf(m, names[i]), rates[i], dt, produced)
    decreases |names|
  {
    var k := |names| - 1;
    if i == k {
      assert names[i] !in names[..k];
      TotalsOfOthersUnchanged(m, names[..k], rates[..k], dt, produced, names[i]);
    } else {
      AccumulateOneWell(m, names[..k], rates[..k], dt, produced, i);
    }
  }

  /**
   * The phase loop of endTimeStep for one well: a negative volume adds to
   * the produced totals, any other to the injected totals.
   */
  method AddTimeStep(injected: seq<real>, produced: seq<real>, rate: seq<real>, dt: real)
    returns (injectedVolume: seq<real>, producedVolume: seq<real>)
    requires |injected| == NumPhases && |produced| == NumPhases && |rate| == NumPhases
    ensures injectedVolume == AddVolumes(injected, rate, dt, false)
    ensures producedVolume == AddVolumes(produced, rate, dt, true)
  {
    injectedVolume, producedVolume := injected, produced;
    var phaseIdx := 0;
    while phaseIdx < NumPhases
      invariant 0 <= phaseIdx <= NumPhases && |injectedVolume| == NumPhases && |producedVolume| == NumPhases
      invariant forall p :: 0 <= p < NumPhases ==>
        injectedVolume[p] == injected[p] + (if p < phaseIdx then Injected(dt * rate[p]) else 0.0)
      invariant forall p :: 0 <= p < NumPhases ==>
        producedVolume[p] == produced[p] + (if p < phaseIdx then Produced(dt * rate[p]) else 0.0)
    {
      var vol := dt * rate[phaseIdx];
      if vol < 0.0 {
        producedVolume := producedVolume[phaseIdx := producedVolume[phaseIdx] + -vol];
      } else {
        injectedVolume := injectedVolume[phaseIdx := injectedVolume[phaseIdx] + vol];
      }
      phaseIdx := phaseIdx + 1;
    }
  }

  // ---------------------------------------------------------------------
  // The manager

  /** the outcome of beginEpisode: the wells reached, and the error thrown, if any */
  datatype Episode = Episode(wells: seq<Well>, error: Option<string>)

  /** beginEpisode's loop over the deck wells of the episode, as a function of its prefix */
  function EpisodeSpec(wells: seq<Well>, index: map<string, nat>, deck: seq<DeckWell>): (r: Episode)
    requires forall n :: n in index ==> index[n] < |wells|
    ensures |r.wells| == |wells|
    decreases |deck|
  {
    if |deck| == 0 then Episode(wells, None)
    else
      var k := |deck| - 1;
      var prev := EpisodeSpec(wells, index, deck[..k]);
      if prev.error.Some? then prev
      else if deck[k].name !in index then prev
      else
        var idx := index[deck[k].name];
        match Configure(prev.wells[idx], deck[k])
        case Done(w) => Episode(prev.wells[idx := w], None)
        case Thrown(w, msg) => Episode(prev.wells[idx := w], Some(msg))
  }

  /** beginEpisode fails iff some registered deck well asks for a setting that is not implemented */
  lemma {:induction false} EpisodeFailsIffNotImplemented(wells: seq<Well>, index: map<string, nat>, deck: seq<DeckWell>)
    requires forall n :: n in index ==> index[n] < |wells|
    ensures EpisodeSpec(wells, index, deck).error.Some? <==>
      exists i :: 0 <= i < |deck| && deck[i].name in index && NotImplemented(deck[i])
    decreases |deck|
  {
    if |deck| > 0 {
      var k := |deck| - 1;
      EpisodeFailsIffNotImplemented(wells, index, deck[..k]);
      if exists i :: 0 <= i < k && deck[..k][i].name in index && NotImplemented(deck[..k][i]) {
        var i :| 0 <= i < k && deck[..k][i].name in index && NotImplemented(deck[..k][i]);
        assert deck[i] == deck[..k][i];
      }
      if exists i :: 0 <= i < |deck| && deck[i].name in index && NotImplemented(deck[i]) {
        var i :| 0 <= i < |deck| && deck[i].name in index && NotImplemented(deck[i]);
        if i < k {
          assert deck[..k][i] == deck[i];
        }
      }
    }
  }

  /** beginEpisode never renames a well */
  lemma {:induction false} EpisodeKeepsNames(wells: seq<Well>, index: map<string, nat>, deck: seq<DeckWell>, j: nat)
    requires forall n :: n in index ==> index[n] < |wells|
    requires j < |wells|
    ensures EpisodeSpec(wells, index, deck).wells[j].name == wells[j].name
    decreases |deck|
  {
    if |deck| > 0 {
      EpisodeKeepsNames(wells, index, deck[..|deck| - 1], j);
    }
  }

  /** A well that no deck well of the episode names keeps its state. */
  lemma {:induction false} EpisodeKeepsUnnamedWells(wells: seq<Well>, index: map<string, nat>, deck: seq<DeckWell>, j: nat)
    requires forall n :: n in index ==> index[n] < |wells|
    requires j < |wells|
    requires forall i :: 0 <= i < |deck| && deck[i].name in index ==> index[deck[i].name] != j
    ensures EpisodeSpec(wells, index, deck).wells[j] == wells[j]
    decreases |deck|
  {
    if |deck| > 0 {
      var k := |deck| - 1;
      forall i | 0 <= i < k && deck[..k][i].name in index ensures index[deck[..k][i].name] != j {
        assert deck[..k][i] == deck[i];
      }
      EpisodeKeepsUnnamedWells(wells, index, deck[..k], j);
    }
  }

  /**
   * A registered deck well named only once in the episode ends the episode
   * as configure makes it, when no deck well throws.
   */
  lemma {:induction false} EpisodeConfiguresDeckWell(wells: seq<Well>, index: map<string, nat>, deck: seq<DeckWell>, k: nat)
    requires forall n :: n in index ==> index[n] < |wells|
    requires forall a, b :: a in index && b in index && a != b ==> index[a] != index[b]
    requires k < |deck| && deck[k].name in index
    requires forall i :: 0 <= i < |deck| && i != k ==> deck[i].name != deck[k].name
    requires EpisodeSpec(wells, index, deck).error.None?
    ensures EpisodeSpec(wells, index, deck).wells[index[deck[k].name]] ==
      Configure(wells[index[deck[k].name]], deck[k]).well
    decreases |deck|
  {
    var last := |deck| - 1;
    var idx := index[deck[k].name];
    var prev := EpisodeSpec(wells, index, deck[..last]);
    assert prev.error.None?;
    if last == k {
      forall i | 0 <= i < last && deck[..last][i].name in index ensures index[deck[..last][i].name] != idx {
        assert deck[..last][i] == deck[i];
      }
      EpisodeKeepsUnnamedWells(wells, index, deck[..last], idx);
    } else {
      assert deck[..last][k] == deck[k];
      forall i | 0 <= i < |deck[..last]| && i != k ensures deck[..last][i].name != deck[..last][k].name {
        assert deck[..last][i] == deck[i];
      }
      EpisodeConfiguresDeckWell(wells, index, deck[..last], k);
    }
  }

  /** registering one more well under its name keeps every name mapped to a well of that name */
  lemma RegisterKeepsNames(ws: seq<Well>, m: map<string, nat>, w: Well, ws': seq<Well>, m': map<string, nat>)
    requires forall n :: n in m ==> m[n] < |ws| && ws[m[n]].name == n
    requires ws' == ws + [w] && m' == m[w.name := |ws|]
    ensures forall n :: n in m' ==> m'[n] < |ws'| && ws'[m'[n]].name == n
  {
  }

  class WellManager {
    var wells: seq<Well>
    var wellNameToIndex: map<string, nat>
    var wellTotalInjectedVolume: map<string, seq<real>>
    var wellTotalProducedVolume: map<string, seq<real>>

    /** every registered name maps to a well of that name */
    ghost predicate Valid()
      reads this
    {
      && (forall n :: n in wellNameToIndex ==> wellNameToIndex[n] < |wells| && wells[wellNameToIndex[n]].name == n)
      && TotalsSized(wellTotalInjectedVolume) && TotalsSized(wellTotalProducedVolume)
    }

    constructor ()
      ensures Valid() && wells == [] && wellNameToIndex == map[]
      ensures wellTotalInjectedVolume == map[] && wellTotalProducedVolume == map[]
    {
      wells, wellNameToIndex := [], map[];
      wellTotalInjectedVolume, wellTotalProducedVolume := map[], map[];
    }

    /** init: one shut well per deck well, appended in deck order and registered by name */
    method Init(deck: seq<DeckWell>)
      requires Valid()
      modifies this
      ensures Valid()
      ensures wells == old(wells) + seq(|deck|, i requires 0 <= i < |deck| => NewWell(deck[i].name))
      ensures wellNameToIndex == NameMap(old(wellNameToIndex), Names(deck), |old(wells)|)
      ensures wellTotalInjectedVolume == old(wellTotalInjectedVolume) && wellTotalProducedVolume == old(wellTotalProducedVolume)
    {
      var deckWellIdx := 0;
      while deckWellIdx < |deck|
        invariant 0 <= deckWellIdx <= |deck| && Valid()
        invariant wells == old(wells) + seq(deckWellIdx, i requires 0 <= i < deckWellIdx => NewWell(deck[i].name))
        invariant wellNameToIndex == NameMap(old(wellNameToIndex), Names(deck)[..deckWellIdx], |old(wells)|)
        invariant wellTotalInjectedVolume == old(wellTotalInjectedVolume) && wellTotalProducedVolume == old(wellTotalProducedVolume)
      {
        var well := NewWell(deck[deckWellIdx].name);
        RegisterKeepsNames(wells, wellNameToIndex, well, wells + [well], wellNameToIndex[well.name := |wells|]);
        wells, wellNameToIndex := wells + [well], wellNameToIndex[well.name := |wells|];
        assert Names(deck)[..deckWellIdx + 1][..deckWellIdx] == Names(deck)[..deckWellIdx];
        deckWellIdx := deckWellIdx + 1;
      }
      assert Names(deck)[..deckWellIdx] == Names(deck);
    }

    /** hasWell */
    predicate HasWell(name: string)
      reads this
      ensures Valid() && HasWell(name) ==> exists i :: 0 <= i < |wells| && wells[i].name == name
    {
      name in wellNameToIndex
    }

    /** wellIndex: the registered position, or the error thrown for an unknown name */
    function WellIndex(name: string): (r: Result<nat>)
      reads this
      requires Valid()
      ensures r.Ok? <==> HasWell(name)
      ensures r.Ok? ==> r.value < |wells| && wells[r.value].name == name
    {
      if name in wellNameToIndex then Ok(wellNameToIndex[name])
      else Failure("No well called '" + name + "'found")
    }

    /**
     * beginEpisode, the part that configures the wells: every registered
     * deck well of the episode in deck order; the first error thrown ends
     * the loop and leaves the wells as they are at that point.
     */
    method BeginEpisode(deck: seq<DeckWell>) returns (error: Option<string>)
      requires Valid()
      modifies this
      ensures Valid() && |wells| == |old(wells)|
      ensures EpisodeSpec(old(wells), wellNameToIndex, deck) == Episode(wells, error)
      ensures wellNameToIndex == old(wellNameToIndex)
      ensures wellTotalInjectedVolume == old(wellTotalInjectedVolume) && wellTotalProducedVolume == old(wellTotalProducedVolume)
    {
      error := None;
      var deckWellIdx := 0;
      while deckWellIdx < |deck|
        invariant 0 <= deckWellIdx <= |deck| && Valid() && |wells| == |old(wells)|
        invariant EpisodeSpec(old(wells), wellNameToIndex, deck[..deckWellIdx]) == Episode(wells, None)
        invariant wellNameToIndex == old(wellNameToIndex)
        invariant wellTotalInjectedVolume == old(wellTotalInjectedVolume) && wellTotalProducedVolume == old(wellTotalProducedVolume)
      {
        var deckWell := deck[deckWellIdx];
        assert deck[..deckWellIdx + 1][..deckWellIdx] == deck[..deckWellIdx];
        if deckWell.name in wellNameToIndex {
          var idx := wellNameToIndex[deckWell.name];
          var outcome := Configure(wells[idx], deckWell);
          wells := wells[idx := outcome.well];
          if outcome.Thrown? {
            error := Some(outcome.message);
            EpisodeStaysFailed(old(wells), wellNameToIndex, deck, deckWellIdx + 1);
            return;
          }
        }
        deckWellIdx := deckWellIdx + 1;
      }
      assert deck[..deckWellIdx] == deck;
    }

    /**
     * endTimeStep's totals: each well's signed surface volume dt * rate
     * per phase is split into produced and injected parts and added to
     * the totals of its name, which start at zero the first time.
     */
    method EndTimeStep(dt: real, rates: seq<seq<real>>)
      requires Valid() && |rates| == |wells| && RatesSized(rates)
      modifies this
      ensures Valid() && wells == old(wells) && wellNameToIndex == old(wellNameToIndex)
      ensures wellTotalInjectedVolume == Accumulate(old(wellTotalInjectedVolume), WellNames(), rates, dt, false)
      ensures wellTotalProducedVolume == Accumulate(old(wellTotalProducedVolume), WellNames(), rates, dt, true)
    {
      var names := WellNames();
      var wellIdx := 0;
      while wellIdx < |wells|
        invariant wells == old(wells) && wellNameToIndex == old(wellNameToIndex)
        invariant 0 <= wellIdx <= |wells| && Valid() && RatesSized(rates[..wellIdx])
        invariant wellTotalInjectedVolume == Accumulate(old(wellTotalInjectedVolume), names[..wellIdx], rates[..wellIdx], dt, false)
        invariant wellTotalProducedVolume == Accumulate(old(wellTotalProducedVolume), names[..wellIdx], rates[..wellIdx], dt, true)
      {
        AccumulateStep(old(wellTotalInjectedVolume), names, rates, dt, false, wellIdx);
        AccumulateStep(old(wellTotalProducedVolume), names, rates, dt, true, wellIdx);
        AddWellStep(names[wellIdx], rates[wellIdx], dt);
        wellIdx := wellIdx + 1;
      }
      assert names[..wellIdx] == names && rates[..wellIdx] == rates;
    }

    /** the body of endTimeStep's loop for the well called `name` */
    method AddWellStep(name: string, rate: seq<real>, dt: real)
      requires Valid() && |rate| == NumPhases
      modifies this
      ensures Valid() && wells == old(wells) && wellNameToIndex == old(wellNameToIndex)
      ensures wellTotalInjectedVolume == old(wellTotalInjectedVolume)[name := AddVolumes(TotalsOf(old(wellTotalInjectedVolume), name), rate, dt, false)]
      ensures wellTotalProducedVolume == old(wellTotalProducedVolume)[name := AddVolumes(TotalsOf(old(wellTotalProducedVolume), name), rate, dt, true)]
    {
      var injectedVolume, producedVolume := AddTimeStep(TotalsOf(wellTotalInjectedVolume, name),
                                                        TotalsOf(wellTotalProducedVolume, name), rate, dt);
      wellTotalInjectedVolume := wellTotalInjectedVolume[name := injectedVolume];
      wellTotalProducedVolume := wellTotalProducedVolume[name := producedVolume];
    }

    /** the names of the wells, in well order */
    function WellNames(): (r: seq<string>)
      reads this
      ensures |r| == |wells| && forall i :: 0 <= i < |wells| ==> r[i] == wells[i].name
    {
      var ws := wells;
      seq(|ws|, i requires 0 <= i < |ws| => ws[i].name)
    }

    /** totalProducedVolume: 0 for a well not yet seen, else the phase's stored total */
    function TotalProducedVolume(name: string, phase: nat): (r: real)
      reads this
      requires Valid() && phase < NumPhases
      ensures name !in wellTotalProducedVolume ==> r == 0.0
      ensures name in wellTotalProducedVolume ==> r == wellTotalProducedVolume[name][phase]
    {
      TotalVolume(wellTotalProducedVolume, name, phase)
    }

    /** totalInjectedVolume: 0 for a well not yet seen, else the phase's stored total */
    function TotalInjectedVolume(name: string, phase: nat): (r: real)
      reads this
      requires Valid() && phase < NumPhases
      ensures name !in wellTotalInjectedVolume ==> r == 0.0
      ensures name in wellTotalInjectedVolume ==> r == wellTotalInjectedVolume[name][phase]
    {
      TotalVolume(wellTotalInjectedVolume, name, phase)
    }
  }

  /** once the loop of beginEpisode has thrown, the remaining deck wells change nothing */
  lemma {:induction false} EpisodeStaysFailed(wells: seq<Well>, index: map<string, nat>, deck: seq<DeckWell>, k: nat)
    requires forall n :: n in index ==> index[n] < |wells|
    requires k <= |deck| && EpisodeSpec(wells, index, deck[..k]).error.Some?
    ensures EpisodeSpec(wells, index, deck) == EpisodeSpec(wells, index, deck[..k])
    decreases |deck| - k
  {
    if k < |deck| {
      assert deck[..k + 1][..k] == deck[..k];
      EpisodeStaysFailed(wells, index, deck, k + 1);
    } else {
      assert deck[..k] == deck;
    }
  }
}
