/** Solver and allocation settings of a simulation, and the small facts the
    crate states about body locations and body sets. The velocity iteration
    scheduler is a nullable function pointer; calling it is outside the
    model, so its answers arrive as a parameter. */
module SimulationConfig {
  import opened Wrappers
  import Buffers

  /** A function pointer, named by its address. */
  type Pointer = int

  datatype SolveDescription = SolveDescription(
    velocityIterationCount: int, substepCount: int, fallbackBatchThreshold: int, scheduler: Option<Pointer>)

  /** The defaults: 8 velocity iterations, 1 substep, a fallback threshold of
      128 and no scheduler. */
  const DEFAULT_SOLVE: SolveDescription := SolveDescription(8, 1, 128, None)

  /** A solve description from its three counts, with no scheduler. */
  function NewSolve(velocityIterationCount: int, substepCount: int, fallbackBatchThreshold: int): (d: SolveDescription)
    ensures d.scheduler == None
    ensures d.velocityIterationCount == velocityIterationCount && d.substepCount == substepCount
    ensures d.fallbackBatchThreshold == fallbackBatchThreshold
  {
    SolveDescription(velocityIterationCount, substepCount, fallbackBatchThreshold, None)
  }

  /** The iteration count the solver runs for substep `substep`: the
      scheduler's answer when there is a scheduler and it answers with a
      positive count, the description's own count otherwise. `answer` is
      what the scheduler returns for that substep. */
  function EffectiveIterations(d: SolveDescription, substep: int, answer: int -> int): (n: int)
    ensures d.scheduler.None? ==> n == d.velocityIterationCount
    ensures d.scheduler.Some? && answer(substep) > 0 ==> n == answer(substep)
    ensures d.scheduler.Some? && answer(substep) <= 0 ==> n == d.velocityIterationCount
  {
    if d.scheduler.Some? && answer(substep) > 0 then answer(substep) else d.velocityIterationCount
  }

  /** A positive fallback count keeps every substep's count positive whatever
      the scheduler answers, and the descriptions the constructors build
      always run their own count. */
  lemma IterationsArePositive(d: SolveDescription, substep: int, answer: int -> int, v: int, s: int, f: int)
    ensures d.velocityIterationCount > 0 ==> EffectiveIterations(d, substep, answer) > 0
    ensures EffectiveIterations(DEFAULT_SOLVE, substep, answer) == 8
    ensures EffectiveIterations(NewSolve(v, s, f), substep, answer) == v
  {
  }

  /** The default is what the constructor builds from the default counts. */
  lemma DefaultSolveIsConstructed()
    ensures DEFAULT_SOLVE == NewSolve(8, 1, 128)
  {
  }

  datatype SimulationAllocationSizes = SimulationAllocationSizes(
    bodies: int, statics: int, islands: int, shapesPerType: int, constraints: int,
    constraintsPerTypeBatch: int, constraintCountPerBodyEstimate: int)

  /** The defaults taken from the engine's examples. */
  const DEFAULT_ALLOCATION: SimulationAllocationSizes :=
    SimulationAllocationSizes(4096, 4096, 4096, 128, 4096, 128, 6)

  /** Allocation sizes from their seven arguments, in declaration order. */
  function NewAllocationSizes(bodies: int, statics: int, islands: int, shapesPerType: int, constraints: int,
                              constraintsPerTypeBatch: int, constraintCountPerBodyEstimate: int): (a: SimulationAllocationSizes)
    ensures a.bodies == bodies && a.statics == statics && a.islands == islands
    ensures a.shapesPerType == shapesPerType && a.constraints == constraints
    ensures a.constraintsPerTypeBatch == constraintsPerTypeBatch
    ensures a.constraintCountPerBodyEstimate == constraintCountPerBodyEstimate
  {
    SimulationAllocationSizes(bodies, statics, islands, shapesPerType, constraints,
                              constraintsPerTypeBatch, constraintCountPerBodyEstimate)
  }

  /** Every default size is positive, and the default is what the
      constructor builds from the default values. */
  lemma DefaultAllocationIsConstructed()
    ensures DEFAULT_ALLOCATION == NewAllocationSizes(4096, 4096, 4096, 128, 4096, 128, 6)
    ensures DEFAULT_ALLOCATION.bodies > 0 && DEFAULT_ALLOCATION.statics > 0 && DEFAULT_ALLOCATION.islands > 0
    ensures DEFAULT_ALLOCATION.shapesPerType > 0 && DEFAULT_ALLOCATION.constraints > 0
    ensures DEFAULT_ALLOCATION.constraintsPerTypeBatch > 0 && DEFAULT_ALLOCATION.constraintCountPerBodyEstimate > 0
  {
  }

  /** Where a body lives: the set (0 is the awake set) and the index in it. */
  datatype BodyMemoryLocation = BodyMemoryLocation(setIndex: int, index: int)

  predicate IsAwake(l: BodyMemoryLocation) {
    l.setIndex == 0
  }

  predicate IsAsleep(l: BodyMemoryLocation) {
    l.setIndex > 0
  }

  /** A set of bodies; only the handle mapping matters to the model. */
  datatype BodySet = BodySet(indexToHandle: Buffers.Buffer, count: int)

  /** Whether the set is backed by memory: its handle mapping is not null. */
  function IsAllocated(s: BodySet): (backed: bool)
    ensures backed <==> s.indexToHandle.memory.Block?
  {
    s.indexToHandle.memory != Buffers.Null
  }

  /** The empty default mapping leaves a set unallocated, and an unallocated
      set has no body to look up: with null memory the mapping's length
      cannot be positive, so every index read fails its bounds check. */
  lemma UnallocatedSetHoldsNoHandle(s: BodySet, size: nat, i: int)
    requires Buffers.Backed(s.indexToHandle.memory, s.indexToHandle.len, size)
    ensures !IsAllocated(BodySet(Buffers.NULL_BUFFER, s.count))
    ensures !IsAllocated(s) ==> s.indexToHandle.len <= 0
    ensures !IsAllocated(s) ==> Buffers.Get(s.indexToHandle, size, i) == Err(Buffers.IndexOutOfRange)
  {
  }
}
