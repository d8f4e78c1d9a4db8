/** Continuous collision detection settings: a mode with the derived
    ordering of its declaration (Discrete < Passive < Continuous) and two
    sweep parameters that only the continuous mode uses. The crate declares
    the same type twice, once with explicit discriminants and once by
    declaration order; both give the same order and the same
    constructors. */
module Continuity {

  datatype Mode = Discrete | Passive | Continuous

  /** The discriminant the derived ordering compares. */
  function Rank(m: Mode): (r: nat)
    ensures r <= 2
  {
    match m
    case Discrete => 0
    case Passive => 1
    case Continuous => 2
  }

  /** The derived `<` on modes. */
  function Less(a: Mode, b: Mode): (lt: bool)
    ensures lt <==> (a == Discrete && b != Discrete) || (a == Passive && b == Continuous)
  {
    Rank(a) < Rank(b)
  }

  /** The derived order is a strict total order with Discrete < Passive <
      Continuous: distinct modes have distinct ranks. */
  lemma ModeOrderIsTotal(a: Mode, b: Mode, c: Mode)
    ensures Less(Discrete, Passive) && Less(Passive, Continuous)
    ensures !Less(a, a)
    ensures a == b || Less(a, b) || Less(b, a)
    ensures Less(a, b) ==> !Less(b, a)
    ensures Less(a, b) && Less(b, c) ==> Less(a, c)
  {
  }

  datatype ContinuousDetection = ContinuousDetection(
    mode: Mode, minimumSweepTimestep: real, sweepConvergenceThreshold: real)

  /** Whether the bounding box may grow beyond the speculative margin: the
      mode orders above Discrete. */
  function AllowExpansionBeyondSpeculativeMargin(c: ContinuousDetection): (allow: bool)
    ensures allow <==> c.mode == Passive || c.mode == Continuous
  {
    Less(Discrete, c.mode)
  }

  /** The ordering test singles out exactly the discrete mode. */
  lemma ExpansionIffNotDiscrete(c: ContinuousDetection)
    ensures AllowExpansionBeyondSpeculativeMargin(c) <==> c.mode != Discrete
  {
  }

  /** No sweep, no expansion beyond the margin, parameters zero. */
  function DiscreteDetection(): (c: ContinuousDetection)
    ensures c.mode == Discrete && !AllowExpansionBeyondSpeculativeMargin(c)
    ensures c.minimumSweepTimestep == 0.0 && c.sweepConvergenceThreshold == 0.0
  {
    ContinuousDetection(Discrete, 0.0, 0.0)
  }

  /** No sweep, expansion by velocity, parameters zero. */
  function PassiveDetection(): (c: ContinuousDetection)
    ensures c.mode == Passive && AllowExpansionBeyondSpeculativeMargin(c)
    ensures c.minimumSweepTimestep == 0.0 && c.sweepConvergenceThreshold == 0.0
  {
    ContinuousDetection(Passive, 0.0, 0.0)
  }

  /** A sweep test with the two given parameters, stored as given. */
  function ContinuousSweep(minimumSweepTimestep: real, sweepConvergenceThreshold: real): (c: ContinuousDetection)
    ensures c.mode == Continuous
    ensures c.minimumSweepTimestep == minimumSweepTimestep && c.sweepConvergenceThreshold == sweepConvergenceThreshold
  {
    ContinuousDetection(Continuous, minimumSweepTimestep, sweepConvergenceThreshold)
  }

  /** Of the three constructors only the discrete one forbids expansion, and
      the two parameterless ones differ in their mode alone. */
  lemma ConstructorsAndExpansion(m: real, t: real)
    ensures !AllowExpansionBeyondSpeculativeMargin(DiscreteDetection())
    ensures AllowExpansionBeyondSpeculativeMargin(PassiveDetection())
    ensures AllowExpansionBeyondSpeculativeMargin(ContinuousSweep(m, t))
    ensures PassiveDetection() == DiscreteDetection().(mode := Passive)
  {
  }
}
