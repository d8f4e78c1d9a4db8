# bepuvy-sys in Dafny

bepuvy-sys exposes the BepuPhysics engine to Rust. It has two halves:

- Rust `extern "C"` bindings, with `repr(C)` mirror types.
- A C# NativeAOT layer that builds engine objects from interop structures and registers them in handle directories.

The engine itself is not part of this model. What the repository implements is modelled instead:

- the bit-packed identifiers (`TypedIndex`, `InstanceHandle`, `CollidableReference`, the BV-tree `Leaf`), as 32-bit words;
- the typed and untyped buffer views and their conversions, both in Rust and in the C++ header;
- the handle-indexed growable store `CollidableProperty<T>`, over an abstract pool;
- the description constructors for bodies, statics, collidables, continuity, solver and allocation settings, spring settings and poses;
- the demo narrow-phase and pose-integrator callbacks;
- the C# dispatch that turns interop bytes into callback type tags, and the simulation and capture-object directories that `CreateSimulation`, `Timestep` and `DestroySimulation` maintain.

Conventions:

- `f32` is modelled as `real`.
- Packed `i32`/`u32` words are `bv32` (`Bits.Word`). Signed comparisons and arithmetic shifts are written out.
- A Rust panic, an `assert!` and a C# `Debug.Assert` or thrown exception become an `Err` value. This is debug-build behaviour.
- The buffer pool's answers are parameters. They are constrained by what the pool promises: `AllocateAtLeast` and `ResizeToAtLeast` return at least the requested bytes, and a resize preserves the copied prefix.
- Handles the C# directories hand out are also parameters.

Modules follow the source layout:

| module | file |
|---|---|
| `Bits`, `Arith`, `Wrappers` | shared helpers |
| `Handles` | handles.dfy |
| `Collisions` | collisions.dfy |
| `Shapes` | shapes.dfy |
| `Buffers` | buffers.dfy |
| `CollidableProperties` | collidable_property.dfy |
| `Continuity` | ccd.dfy |
| `SimulationConfig` | simulation.dfy |
| `Poses` | math.dfy |
| `Springs` | springs.dfy |
| `Bodies` | bodies.dfy |
| `Statics` | statics.dfy |
| `NarrowPhase` | narrow_phase.dfy: the `Entry.cs` demo callbacks |
| `PoseCallbacks` | pose_callbacks.dfy |
| `Entrypoints` | entrypoint.dfy |

Where the repository has two copies of a type (`src/types/...` and `src/bepu/...`), one Dafny definition models both when the copies compute the same thing. Where they differ, both behaviours are modelled and related by a lemma. Examples:

- the unmasked handle getters;
- the swapped `RigidPose::new` argument order;
- the wrapping C++ length conversion.

`src/bepu/collidable_property.rs` imports the `src/bepu` collisions copy, whose getters are `get_mobility`, `get_body_handle` and `get_static_handle` and do not mask. Its `allocate_collidable` and reference indexing call `mobility()`, `body_handle()` and `static_handle()` and read `.value`, which are the names of the masked `src/types` decoders. The model resolves these calls to the masked decoders. With the unmasked getters, a Kinematic reference would allocate slot `h + 2^30` and a Static one would be rejected as negative.

## Model

| member | source | states |
|---|---|---|
| Handles.TypeOf | src/types/handles.rs:11-13 | the type field of a typed index is below 128 and never reads as negative |
| Handles.IndexOf | src/types/handles.rs:16-18 | the index field is below 2^24 and never negative |
| Handles.Exists | src/types/handles.rs:21-23 | a typed index exists exactly when its word, read unsigned, is at least 2^31 |
| Handles.TypedIndexRoundTrip | src/types/handles.rs:11-23 | packing an exists flag, a 7-bit type and a 24-bit index reads each field back unchanged |
| Handles.TypedIndexDecomposition | src/types/handles.rs:11-23 | every 32-bit word is the packing of its own exists flag, type and index, so the three fields occupy disjoint bits that cover the word |
| Handles.TryIntoI32 | src/bepu/handles.rs:9-15 | the `try_into` to `i32` succeeds exactly for words without the sign bit and keeps the value |
| Handles.GetType | src/bepu/handles.rs:9-11 | the `Result` getter never fails and agrees with the `src/types` decoder `ty` |
| Handles.GetIndex | src/bepu/handles.rs:13-15 | the `Result` getter never fails and agrees with the `src/types` decoder `index` |
| Handles.HandleIndex | src/types/handles.rs:34-36 | an instance handle's index is below 2^24, whatever the sign of the raw value |
| Handles.Version | src/types/handles.rs:37-39 | the version is bits 24..27 and lies in 0..15 even for a negative raw value, because the arithmetic shift is masked |
| Handles.TypeIndex | src/types/handles.rs:40-42 | the type index is bits 28..30 and lies in 0..7 even for a negative raw value |
| Handles.IsNull | src/types/handles.rs:44-46 | a handle is null exactly when it is the default handle |
| Handles.NullIffAllFieldsZero | src/bepu/handles.rs:22 | the default handle is null, and a handle is null exactly when its flag, index, version and type index are all zero |
| Handles.SignExtensionIsMaskedAway | src/bepu/handles.rs:33-39 | the decoders read the unsigned bit fields for every raw value, so the `src/bepu` and `src/types` copies agree |
| Handles.NewHandle | Bepuvy/Bepuvy/InstanceHandle.cs:18-23 | a constructed handle has the sign bit set and is therefore never `Null` |
| Handles.HandleRoundTrip | Bepuvy/Bepuvy/InstanceHandle.cs:12-22 | for an asserted index and type index and a version below 16, the decoders read back exactly the index, version and type index given |
| Handles.NewHandleInjective | Bepuvy/Bepuvy/InstanceHandle.cs:18-23 | under the same bounds, distinct arguments construct distinct handles |
| Handles.DistinctTypeIndicesNeverCollide | Bepuvy/Bepuvy/InstanceHandle.cs:18-23 | handles of different directory types never compare equal |
| Handles.NegativeIndexPassesTheAssertions | Bepuvy/Bepuvy/InstanceHandle.cs:20-22 | a negative index passes the signed range assertion and its sign extension fills the version and type fields |
| Handles.VersionOverflowCarriesIntoType | Bepuvy/Bepuvy/InstanceHandle.cs:20-22 | the unchecked version 16 wraps to version 0 and carries into the type index |
| Collisions.Discriminant | src/types/collisions.rs:10-17 | the mobility discriminants are 0, 1, 2 |
| Collisions.FromDiscriminant | src/types/collisions.rs:10-17 | decoding the top two bits rejects exactly the value 3, and otherwise inverts the discriminant |
| Collisions.DiscriminantRoundTrip | src/types/collisions.rs:10-17 | every mobility decodes from its own discriminant |
| Collisions.MobilityOf | src/types/collisions.rs:28-30 | the mobility's discriminant is the top two bits, and there is none exactly when the word is at least 3 * 2^30; `Collisions.MobilityOfReadsTopBits` states it per mobility |
| Collisions.MobilityOfReadsTopBits | src/types/collisions.rs:28-30 | `mobility` is undefined exactly when the top two bits are 3, and is otherwise the mobility whose discriminant they hold |
| Collisions.BodyHandleOf | src/types/collisions.rs:33-41 | the body-handle getter succeeds exactly for Dynamic and Kinematic references and yields a handle below 2^30 |
| Collisions.StaticHandleOf | src/types/collisions.rs:44-49 | the static-handle getter succeeds exactly for Static references and yields a handle below 2^30 |
| Collisions.RawHandleValue | src/bepu/collisions.rs:37-39 | the raw handle value is a non-negative value below 2^30 |
| Collisions.CreateStatic | src/types/collisions.rs:51-55 | `create_static` is the general encoding with Static, and for a handle below 2^30 it reads back as Static with that static handle |
| Collisions.CreateDynamic | src/types/collisions.rs:56-60 | `create_dynamic` is the general encoding with Dynamic, and for a handle below 2^30 it reads back as Dynamic with that body handle |
| Collisions.CreateKinematic | src/types/collisions.rs:61-65 | `create_kinematic` is the general encoding with Kinematic, and for a handle below 2^30 it reads back as Kinematic with that body handle |
| Collisions.CreateRoundTrip | src/types/collisions.rs:28-65 | for a handle below 2^30 a created reference reads back its mobility, its raw handle and its body or static handle |
| Collisions.CreateDecomposition | src/types/collisions.rs:28-65 | every reference with a valid mobility is the creation of its own mobility and raw handle |
| Collisions.OversizedHandleCorruptsMobility | src/types/collisions.rs:56-60 | `create_dynamic` does not mask the handle: 2^30 turns the reference Kinematic, and 2^32-1 gives the invalid mobility 3 |
| Collisions.BodyHandleUnmasked | src/bepu/collisions.rs:24-30 | the second copy's body getter fails in the same cases as the masked one, and its result masked to 30 bits is the masked result |
| Collisions.StaticHandleUnmasked | src/bepu/collisions.rs:32-35 | the second copy's static getter fails in the same cases as the masked one, and its result masked to 30 bits is the masked result |
| Collisions.UnmaskedGetterAgreesForDynamic | src/bepu/collisions.rs:24-30 | for a Dynamic reference the unmasked getter returns the created handle |
| Collisions.UnmaskedGetterMisreadsKinematic | src/bepu/collisions.rs:24-30 | for a Kinematic reference the unmasked getter returns the handle plus 2^30, a different handle |
| Collisions.UnmaskedGetterMisreadsStatic | src/bepu/collisions.rs:32-35 | for a Static reference the unmasked getter returns a negative handle |
| Collisions.ValidateIndex | src/types/collisions.rs:98-100 | contact index validation succeeds exactly for `0 <= i < count` |
| Collisions.ValidatedIndexIsInBounds | src/types/collisions.rs:88-100 | with at most four contacts, an accepted index lies inside the contact array |
| Collisions.NewMaterial | src/types/collisions.rs:146-156 | the material stores friction, recovery velocity and spring settings unchanged |
| Collisions.ZeroMaterialReadsZero | src/types/collisions.rs:158-160 | the zero material has friction 0, recovery 0 and the default spring, which reads as 0 Hz and damping ratio 0 |
| Shapes.ShapeDiscriminant | src/types/shapes.rs:14-24 | shape type discriminants lie in 0..8 |
| Shapes.ShapeFromDiscriminant | src/types/shapes.rs:14-24 | a discriminant decodes exactly when it lies in 0..8, and the decoded type has that discriminant |
| Shapes.ShapeDiscriminantRoundTrip | src/types/shapes.rs:14-24 | every shape type decodes from its discriminant, and distinct types have distinct discriminants |
| Shapes.NewBox | src/types/shapes.rs:54-60 | a box stores half of each given extent |
| Shapes.InverseComponent | src/types/shapes.rs:160-176 | an inverse scale component is the reciprocal of a non-zero scale and `f32::MAX` for a zero scale |
| Shapes.SetScale | src/types/shapes.rs:160-176 | as written, `set_scale` updates the inverse scale only and leaves scale, tree and triangles unchanged |
| Shapes.SetScaleLeavesScaleStale | src/types/shapes.rs:160-176 | after setting scale 2 on a unit-scale mesh, the stored scale is still 1 and no longer matches its inverse |
| Shapes.SetScaleCorrected | src/types/shapes.rs:160-176 | the corrected setter stores the scale with the same inverse scale, so the two agree, and keeps tree and triangles |
| Shapes.SetScaleCorrectedIsIdempotent | src/types/shapes.rs:160-176 | setting the same scale twice is the same as setting it once |
| Shapes.NodeIndex | src/types/shapes.rs:220-222 | a leaf's node index is never negative |
| Shapes.ChildIndex | src/types/shapes.rs:225-227 | a leaf's child index is 0 or 1 |
| Shapes.NewLeaf | src/types/shapes.rs:229-234 | leaf construction succeeds exactly when the child index is 0 or 1 |
| Shapes.LeafRoundTrip | src/types/shapes.rs:220-234 | a constructed leaf reads back its child index and its node index masked to 31 bits, and the node index itself when it is non-negative |
| Shapes.LeafDecomposition | src/types/shapes.rs:220-234 | every leaf word is the construction of its own node and child index |
| Shapes.NegativeNodeIndexIsMasked | src/types/shapes.rs:229-234 | a negative node index is silently masked: -1 becomes 2^31-1 |
| Buffers.Get | src/bepu/utilities.rs:34-41 | typed indexing succeeds exactly for `0 <= i < len` and yields one element's bytes |
| Buffers.Set | src/bepu/utilities.rs:43-48 | typed writes succeed exactly for `0 <= i < len` and keep length, id and backing |
| Buffers.GetAfterSet | src/bepu/utilities.rs:34-48 | reading after a write yields the written element at its slot and the old element at every other slot |
| Buffers.ReadAfterWrite | src/bepu/utilities.rs:34-48 | the byte images of distinct elements do not overlap, so a write changes only its own element |
| Buffers.GetByte | src/bepu/utilities.rs:98-105 | byte indexing succeeds exactly for `0 <= i < len` and yields that byte |
| Buffers.SetByte | src/bepu/utilities.rs:107-112 | byte writes succeed exactly for `0 <= i < len` and keep length, id and backing |
| Buffers.GetByteAfterSetByte | src/bepu/utilities.rs:98-112 | reading a byte after a byte write yields the written byte at its index and the old value elsewhere |
| Buffers.FromRaw | src/bepu/utilities.rs:79-85 | a buffer over raw memory keeps memory, length and id |
| Buffers.ListGet | src/bepu/utilities.rs:124-131 | list indexing succeeds exactly below the count and the span length, and then reads the span |
| Buffers.EmptySpansRejectEveryIndex | src/bepu/utilities.rs:71-77 | the null buffer and the empty list reject every index |
| Buffers.AsBuffer | src/bepu/utilities.rs:14-20 | viewing bytes as elements fails exactly for zero-sized elements; otherwise it keeps memory and id, and for a non-negative byte length the element count is the whole elements that fit |
| Buffers.ToByteBuffer | src/bepu/utilities.rs:88-96 | viewing elements as bytes succeeds exactly when the byte length fits an `i32`, and then gives that length with memory and id kept |
| Buffers.TypedRoundTrip | src/bepu/utilities.rs:50-58 | typed to bytes to typed gives back the same buffer |
| Buffers.ByteRoundTrip | src/bepu/utilities.rs:14-20 | bytes to typed to bytes keeps memory and id, and gives a multiple of the element size that is short of the original by less than one element |
| Buffers.CppFromByteBuffer | include/Utilities.h:61-66 | the C++ typed view keeps memory and id, and for an in-range length divides it by the element size |
| Buffers.CppToByteBuffer | include/Utilities.h:53-60 | the C++ byte view keeps memory and id, and multiplies the length by the element size when the product fits |
| Buffers.CppTypedRoundTrip | include/Utilities.h:53-66 | typed to bytes to typed in C++ gives back the buffer when the byte length fits |
| Buffers.CppLengthWraps | include/Utilities.h:53-60 | 2^29 four-byte elements wrap to byte length -2^31 in C++, where the Rust conversion reports the overflow |
| CollidableProperties.WithData | src/bepu/collidable_property.rs:13-20 | replacing one space's buffer leaves the other space's buffer, the simulation, the pool and the element size unchanged |
| CollidableProperties.GrowthKeepsElements | src/bepu/collidable_property.rs:62-78 | after a resize that copies at least the old bytes, every old element reads the same from the grown buffer |
| CollidableProperties.New | src/bepu/collidable_property.rs:29-58 | construction succeeds exactly for a positive element size and byte lengths that fit an `i32`; both buffers then hold at least the directories' mapping lengths, with the pool's ids |
| CollidableProperties.Allocate | src/bepu/collidable_property.rs:60-104 | a successful allocation makes the handle a valid slot and changes only that space's buffer; an in-range handle changes nothing, a negative handle is rejected, and growth succeeds when the byte size fits |
| CollidableProperties.AllocateKeepsElements | src/bepu/collidable_property.rs:62-78 | growing for a handle preserves every element stored before |
| CollidableProperties.AllocateBody | src/bepu/collidable_property.rs:60-81 | after `allocate_body` the handle is a valid body slot and the static buffer is untouched |
| CollidableProperties.AllocateStatic | src/bepu/collidable_property.rs:83-104 | after `allocate_static` the handle is a valid static slot and the body buffer is untouched |
| CollidableProperties.AllocateCollidable | src/bepu/collidable_property.rs:106-112 | a Static reference allocates in the static space and a body reference in the body space; any other reference fails the mobility assertion |
| CollidableProperties.EnsureCapacity | src/bepu/collidable_property.rs:114-149 | capacity ensuring succeeds exactly when no growth is needed or the byte size fits; it is a no-op below the length, and afterwards the capacity is reached in that space only |
| CollidableProperties.EnsureCapacityDropsBytes | src/bepu/collidable_property.rs:114-131 | as written, the copy count is in elements: growing a two-element buffer of 4-byte elements keeps only two bytes, so element 1 changes |
| CollidableProperties.EnsureCapacityCorrected | src/bepu/collidable_property.rs:114-149 | with the copy count in bytes, the same success condition, no-op case, capacity and frame hold |
| CollidableProperties.EnsureCapacityCorrectedKeepsElements | src/bepu/collidable_property.rs:114-149 | with the copy count in bytes, every old element survives growth |
| CollidableProperties.Read | src/bepu/collidable_property.rs:160-176 | handle indexing succeeds exactly for `0 <= handle < len` and returns that element |
| CollidableProperties.ReadCollidable | src/bepu/collidable_property.rs:178-188 | reference indexing reads the static space for statics and the body space for bodies, and fails otherwise |
| CollidableProperties.AllocatedSlotIsReadable | src/bepu/collidable_property.rs:60-104 | after allocation the handle's slot is readable, old slots read the same, and the other space is unchanged |
| CollidableProperties.Dispose | src/bepu/collidable_property.rs:152-157 | dispose returns two buffer ids |
| CollidableProperties.NewThenDispose | src/bepu/collidable_property.rs:29-58 | disposing a new property returns exactly the ids of the two buffers the pool allocated |
| Continuity.Rank | src/types/ccd.rs:3-29 | mode discriminants lie in 0..2 |
| Continuity.Less | src/types/ccd.rs:3-29 | the derived `<` holds exactly for Discrete below Passive or Continuous and Passive below Continuous; `Continuity.ModeOrderIsTotal` shows it is a strict total order |
| Continuity.ModeOrderIsTotal | src/types/ccd.rs:3-29 | the derived order is Discrete < Passive < Continuous, a strict total order |
| Continuity.AllowExpansionBeyondSpeculativeMargin | src/types/ccd.rs:47-49 | expansion beyond the speculative margin is allowed exactly for the Passive and Continuous modes |
| Continuity.ExpansionIffNotDiscrete | src/types/ccd.rs:47-49 | expansion beyond the speculative margin is allowed exactly for a non-Discrete mode |
| Continuity.DiscreteDetection | src/types/ccd.rs:65-71 | the discrete settings have mode Discrete, zero sweep parameters, and do not allow expansion beyond the speculative margin |
| Continuity.PassiveDetection | src/types/ccd.rs:84-90 | the passive settings have mode Passive, zero sweep parameters, and allow expansion beyond the speculative margin |
| Continuity.ContinuousSweep | src/types/ccd.rs:110-116 | the continuous constructor stores its sweep parameters with mode Continuous |
| Continuity.ConstructorsAndExpansion | src/bepu/continuity.rs:19-45 | discrete forbids expansion, passive and continuous allow it, and passive differs from discrete only in the mode |
| SimulationConfig.NewSolve | src/types/simulation.rs:47-58 | the solve constructor stores its three counts and sets no scheduler |
| SimulationConfig.EffectiveIterations | src/types/simulation.rs:10-16 | without a scheduler a substep runs the configured count; with one, a positive answer replaces the configured count and a zero or negative answer falls back to it |
| SimulationConfig.IterationsArePositive | src/types/simulation.rs:10-58 | a positive configured count always gives a positive substep count; the default gives 8; a constructed description runs its count |
| SimulationConfig.DefaultSolveIsConstructed | src/types/simulation.rs:26-37 | the default is the constructor applied to 8, 1 and 128 |
| SimulationConfig.NewAllocationSizes | src/types/simulation.rs:100-118 | the allocation constructor stores its seven sizes in order |
| SimulationConfig.DefaultAllocationIsConstructed | src/types/simulation.rs:121-135 | the default is the constructor applied to 4096, 4096, 4096, 128, 4096, 128 and 6, and all seven are positive |
| SimulationConfig.IsAllocated | src/types/simulation.rs:166-169 | a body set is allocated exactly when its handle mapping has a memory block; `SimulationConfig.UnallocatedSetHoldsNoHandle` states what that means for lookups |
| SimulationConfig.UnallocatedSetHoldsNoHandle | src/types/simulation.rs:165-169 | a set over the empty default mapping is not allocated, and an unallocated set has non-positive length, so every index lookup in its mapping fails the bounds check |
| Poses.NewPose | src/types/math/scalar.rs:58-64 | a pose maps every point by rotating it and then translating it, and has pad 0 |
| Poses.NewPoseOrientationFirst | src/bepu/math.rs:14-20 | the orientation-first constructor builds the same transformation with pad 0 |
| Poses.PoseConstructorsAgree | src/bepu/math.rs:14-20 | both constructors build the same pose from the same parts in swapped order |
| Poses.FromPosition | src/types/math/scalar.rs:66-68 | a pose from a position uses the identity orientation |
| Poses.FromPositionTranslates | src/bepu/math.rs:22-28 | a pose from a position translates every point by it |
| Poses.IdentityPoseFixesEveryPoint | src/types/math/scalar.rs:70-72 | the identity pose is the origin with identity orientation and fixes every point |
| Poses.ZeroVectorIsNeutral | src/types/math/scalar.rs:12-21 | the zero vector is neutral for addition |
| Poses.IdentityQuaternionIsNeutral | src/types/math/scalar.rs:36-45 | the identity quaternion is a unit, neutral for multiplication, and rotates nothing |
| Poses.Uniform | src/bepu/math.rs:45-54 | every entry of a uniform symmetric matrix is the given value |
| Poses.ZeroSymmetricIsZero | src/types/math/scalar.rs:94-104 | the zero symmetric matrix is uniform 0 |
| Poses.StoredMatrixIsSymmetric | src/types/math/scalar.rs:78-91 | six stored entries describe a symmetric matrix |
| Springs.Frequency | src/bepu/constraints.rs:14-16 | the frequency is the angular frequency divided by 2π |
| Springs.DampingRatio | src/bepu/constraints.rs:22-24 | the damping ratio is half the stored twice ratio |
| Springs.WithFrequency | src/bepu/constraints.rs:18-20 | setting the frequency leaves the damping field unchanged |
| Springs.WithDampingRatio | src/bepu/constraints.rs:26-28 | setting the damping ratio leaves the frequency field unchanged |
| Springs.NewSpring | src/bepu/constraints.rs:30-35 | a new spring reads back the frequency and damping ratio it was given |
| Springs.SetThenGet | src/bepu/constraints.rs:14-28 | each setter is read back by its getter and leaves the other reading unchanged |
| Springs.GetThenSet | src/bepu/constraints.rs:14-28 | setting a reading back to itself changes nothing |
| Springs.NewSpringFromReadings | src/bepu/constraints.rs:14-35 | every spring is the construction of its own two readings |
| Springs.DefaultReadsZero | src/bepu/constraints.rs:6-24 | the default spring reads 0 Hz and damping 0, and is the construction of those |
| Bodies.NewVelocity | src/bepu/bodies.rs:15-22 | a velocity stores its linear and angular parts with both pads 0 |
| Bodies.FromLinear | src/types/body.rs:75-77 | a velocity from a linear part has zero angular velocity |
| Bodies.ZeroVelocityIsDefault | src/types/body.rs:79-81 | the zero velocity is the derived default and has squared speed 0 |
| Bodies.FromSymmetric | src/bepu/bodies.rs:42-48 | inertia stores the tensor and the inverse mass with pad 0 |
| Bodies.NewCollidable | src/types/body.rs:194-206 | the general collidable constructor stores its four fields |
| Bodies.WithDiscrete | src/types/body.rs:214-225 | `with_discrete` yields mode Discrete |
| Bodies.WithMinimumSpeculativeMargin | src/types/body.rs:233-244 | the minimum margin is forced to 0 and the given maximum is kept |
| Bodies.WithMaxSpeculativeMargin | src/types/body.rs:251-258 | margins 0 and `f32::MAX` |
| Bodies.PassiveCollidable | src/types/body.rs:268-275 | passive mode with margins 0 and `f32::MAX` |
| Bodies.WithMaxSpeculativeMarginDiscrete | src/types/body.rs:282-292 | Discrete mode with minimum margin 0 |
| Bodies.DefaultCollidable | src/bepu/bodies.rs:61-68 | the second copy's constructor gives Discrete mode with margins 0 and `f32::MAX` |
| Bodies.FactoriesAreSpecialisations | src/types/body.rs:194-292 | each factory is the general constructor with some fields fixed, and the factories nest as their names say |
| Bodies.FactoryMarginsOrdered | src/types/body.rs:194-292 | the unbounded factories always give an ordered margin range; the others do exactly when their arguments are ordered |
| Bodies.NewActivity | src/types/body.rs:313-318 | an activity description stores the threshold and the timestep count |
| Bodies.ActivityWithThreshold | src/bepu/bodies.rs:90-95 | the second copy's constructor fixes the timestep count at 32 |
| Bodies.NegativeThresholdNeverSleeps | src/types/body.rs:134-136 | a negative sleep threshold is never met, and a positive one is met by a body at rest |
| Bodies.CreateDynamic | src/types/body.rs:348-371 | a dynamic description stores all five fields |
| Bodies.CreateDynamicAtRest | src/types/body.rs:373-395 | at rest means the zero velocity |
| Bodies.NewDynamic | src/bepu/bodies.rs:115-123 | the second copy's dynamic constructor uses the default velocity and the given inertia |
| Bodies.CreateKinematic | src/types/body.rs:397-414 | a kinematic description has zero inverse mass and zero inverse tensor, and keeps the other fields |
| Bodies.CreateKinematicAtRest | src/types/body.rs:424-440 | a kinematic body at rest has infinite inertia and zero speed |
| Bodies.KinematicIsInfiniteInertia | src/types/body.rs:348-414 | kinematic is dynamic with zero inverse inertia, and a dynamic body is kinematic exactly when given zero inverse inertia |
| Bodies.KinematicAtRestIsZeroVelocity | src/types/body.rs:397-440 | kinematic at rest is kinematic with the zero velocity |
| Bodies.NewDynamicIsAtRest | src/bepu/bodies.rs:99-123 | the second copy's dynamic constructor builds the first copy's dynamic body at rest |
| Statics.Create | src/types/statics.rs:26-32 | a static stores pose, shape and continuity; the second copy's `new` (src/bepu/statics.rs:15-21) is the same constructor |
| Statics.CreateDiscrete | src/types/statics.rs:40-46 | a discrete static forbids expansion beyond the speculative margin |
| Statics.CreateWithPositionOrientation | src/types/statics.rs:56-67 | the pose is built from the given position and orientation with pad 0 |
| Statics.CreateWithPositionOrientationDiscrete | src/types/statics.rs:76-86 | position, orientation, pad 0 and Discrete mode |
| Statics.CreateAt | src/bepu/statics.rs:23-32 | the second copy builds its pose orientation-first and uses Discrete continuity |
| Statics.ConstructorsFactor | src/types/statics.rs:26-86 | every factory is the general constructor with discrete continuity or a pose built from its parts |
| Statics.CopiesAgree | src/bepu/statics.rs:23-32 | despite the swapped pose argument order, the second copy's `create` builds the same static as the first copy's discrete positional factory |
| NarrowPhase.NewCallbacks | Bepuvy/Bepuvy/Entry.cs:76-81 | the narrow-phase callbacks store springiness, recovery and friction; recovery defaults to 2 and friction to 1 when left out |
| NarrowPhase.Initialize | Bepuvy/Bepuvy/Entry.cs:83-92 | an unset springiness is replaced by the defaults (30 Hz, damping 1, recovery 2, friction 1); any other value is kept; afterwards springiness is set |
| NarrowPhase.InitializeIsIdempotent | Bepuvy/Bepuvy/Entry.cs:83-92 | initialising twice is initialising once, and the default spring reads 30 Hz with damping 1 |
| NarrowPhase.AllowContactGeneration | Bepuvy/Bepuvy/Entry.cs:95-101 | a pair is accepted exactly when one side is Dynamic |
| NarrowPhase.FilterNeedsADynamicSide | Bepuvy/Bepuvy/Entry.cs:95-101 | the filter is symmetric, rejects kinematic and static-only pairs, and accepts any pair with a created dynamic body |
| NarrowPhase.AllowChildContactGeneration | Bepuvy/Bepuvy/Entry.cs:104-107 | child pairs are always accepted |
| NarrowPhase.ConfigureContactManifold | Bepuvy/Bepuvy/Entry.cs:110-116 | manifolds are accepted, with the material built from the three stored values |
| NarrowPhase.InitializedMaterialIsDefault | Bepuvy/Bepuvy/Entry.cs:83-116 | after initialising unset callbacks, every pair gets friction 1, recovery 2 and a 30 Hz critically damped spring |
| NarrowPhase.ConfigureChildManifold | Bepuvy/Bepuvy/Entry.cs:119-122 | child manifolds are accepted and left untouched |
| NarrowPhase.NewPoseIntegrator | Bepuvy/Bepuvy/Entry.cs:31-36 | the pose integrator stores gravity and both damping values, each defaulting to 0.03 when left out |
| NarrowPhase.OneArgumentConstructors | Bepuvy/Bepuvy/Entry.cs:146-148 | the one-argument constructions the demo uses give recovery 2, friction 1 and damping 0.03; with the 30 Hz critically damped springiness the callbacks equal the initialised defaults, so initialising them changes nothing |
| NarrowPhase.ReportedSettings | Bepuvy/Bepuvy/Entry.cs:65-67 | the demo integrator reports non-conserving, with no unconstrained substepping and no kinematic integration |
| NarrowPhase.DampingBase | Bepuvy/Bepuvy/Entry.cs:53-54 | the damping base lies in [0, 1] |
| NarrowPhase.DampingBaseClamps | Bepuvy/Bepuvy/Entry.cs:53-54 | in range the base is 1 minus the damping; it saturates at 1 and 0 outside; more damping never keeps more velocity |
| PoseCallbacks.ModeOf | Bepuvy/Bepuvy/Callbacks/PoseIntegratorCallbacks.cs:46-56 | the gyroscopic tag gives gyroscopic conservation, the conserve tag gives conservation, and nothing else does |
| PoseCallbacks.Settings | Bepuvy/Bepuvy/Callbacks/PoseIntegratorCallbacks.cs:46-60 | the reported mode comes from the conservation tag, and each flag holds exactly when its tag is `True` |
| PoseCallbacks.ModeOfIsBijective | Bepuvy/Bepuvy/Callbacks/PoseIntegratorCallbacks.cs:46-56 | the tag-to-mode map is a bijection: `TagOf` is its two-sided inverse, so distinct tags report distinct modes and every mode has a tag |
| PoseCallbacks.InitializeWithSimulation | Bepuvy/Bepuvy/Callbacks/PoseIntegratorCallbacks.cs:69-72 | initialising with the simulation object changes nothing |
| PoseCallbacks.InitializeWithHandle | Bepuvy/Bepuvy/Callbacks/PoseIntegratorCallbacks.cs:74-79 | the handle is always stored; the native initialiser is called once with it if present, and otherwise nothing is called |
| PoseCallbacks.PrepareForIntegration | Bepuvy/Bepuvy/Callbacks/PoseIntegratorCallbacks.cs:88-93 | the native preparation is called once, with the stored handle and the timestep, exactly when present |
| PoseCallbacks.IntegrateVelocity | Bepuvy/Bepuvy/Callbacks/PoseIntegratorCallbacks.cs:81-86 | integration calls the native integrator with the stored handle and the capture object's current pointer |
| PoseCallbacks.HooksSeeTheInitializedHandle | Bepuvy/Bepuvy/Callbacks/PoseIntegratorCallbacks.cs:69-93 | after initialisation with a handle, both hooks pass that handle; settings are unchanged, and the simulation-object initialiser has no effect |
| Entrypoints.ConservationTagOf | Bepuvy/Bepuvy/Entrypoint/Entrypoint.Simulation.cs:67-78 | the gyroscopic mode selects the gyroscopic tag, conservation the conserve tag, and every other value the non-conserving tag |
| Entrypoints.FlagOf | Bepuvy/Bepuvy/Entrypoint/Entrypoint.Simulation.cs:46-63 | a flag byte selects `True` exactly when it is non-zero |
| Entrypoints.SelectTags | Bepuvy/Bepuvy/Entrypoint/Entrypoint.Simulation.cs:43-78 | the dispatch chain picks the conservation tag from the mode and each of the three flag tags from its byte |
| Entrypoints.BuildPoseCallbacks | Bepuvy/Bepuvy/Entrypoint/Entrypoint.Simulation.cs:22-32 | a null integrator throws; otherwise the callbacks carry the selected tags, the three function pointers and the capture object |
| Entrypoints.DispatchRoundTrip | Bepuvy/Bepuvy/Entrypoint/Entrypoint.Simulation.cs:19-78 | the built callbacks report the mode and the two flags the interop structure requested, with unknown modes non-conserving |
| Entrypoints.ConvertSolve | Bepuvy/Bepuvy/Entrypoint/Entrypoint.Simulation.cs:99-105 | the conversion copies the three counts, and the scheduler is null exactly when the input's is |
| Entrypoints.ConvertedSolveWithoutScheduler | Bepuvy/Bepuvy/Entrypoint/Entrypoint.Simulation.cs:99-105 | without a scheduler the converted description is the plain constructor's, and every substep runs the given count |
| Entrypoints.CreateSimulation | Bepuvy/Bepuvy/Entrypoint/Entrypoint.Simulation.cs:19-125 | a null integrator fails before registration and misaligned directories fail the assertion; otherwise the simulation and capture object are registered under one handle, other entries are unchanged, and the directories stay aligned |
| Entrypoints.CreatedSimulationIsConfigured | Bepuvy/Bepuvy/Entrypoint/Entrypoint.Simulation.cs:19-125 | the registered simulation reports the requested settings and converted solve, and its initialiser was called with its handle exactly when given |
| Entrypoints.DestroySimulation | Bepuvy/Bepuvy/Entrypoint/Entrypoint.Simulation.cs:127-133 | destroying removes exactly the simulation and its capture object, fails for an unknown handle, and keeps the directories aligned |
| Entrypoints.CreateThenDestroy | Bepuvy/Bepuvy/Entrypoint/Entrypoint.Simulation.cs:119-133 | creating under a fresh handle and then destroying gives back the original directories |
| Entrypoints.Timestep | Bepuvy/Bepuvy/Entrypoint/Entrypoint.Simulation.cs:277-287 | stepping uses no dispatcher exactly for the null handle, overwrites only this simulation's capture pointer, and fails for an unknown handle |
| Entrypoints.TimestepForwardsItsPointer | Bepuvy/Bepuvy/Entrypoint/Entrypoint.Simulation.cs:277-287 | during a step, integration sees this call's pointer and the simulation's own handle; other simulations keep theirs |

## Left out

- The BepuPhysics engine is not part of this model: `Simulation.Create`, broad and narrow phase, solver, sleeping and body storage. So are the buffer pool, thread dispatcher and instance directories it relies on. Pool answers and the handles a directory hands out are parameters of the operations.
- The other `Entrypoint` entries (bodies, statics, shapes, buffer pools, dispatchers) forward to that engine in one line each, and are not modelled.
- The root copy of `Entrypoint.Simulation.cs` references identifiers it never defines, and is not modelled.
- Rust `extern "C"` declarations, `build.rs`, the examples and the tests need the native library, and are not modelled.
- The narrow-phase `NarrowPhaseCallbacks` struct of `Entrypoint.Simulation.cs` and its `Initialize(handle)` are not modelled. The struct holds only native function pointers, and its calls go into native code.
- The C# `SpringSettings(30, 1)` constructor belongs to the engine library. It is modelled by `Springs.NewSpring`, the Rust conversion that the repository mirrors.
- Floating point is modelled as exact real arithmetic. Rounding, `MathF.Pow` damping, velocity integration, SIMD wide types and inertia computations are left out. `NarrowPhase.DampingBase` models the clamped base only.
- Rotation is modelled with the quaternion sandwich product over reals. Normalisation is not modelled.
- Padding fields are modelled only as "written 0". `repr(C)` and `FieldOffset` layout is not modelled.
- `size_of::<T>()` is a parameter assumed to fit an `i32`, as every real element type does.
- An out-of-range `CollidableMobility` transmute (top bits 3) is undefined behaviour in Rust. It is modelled as `None`.
- Release builds compile `Debug.Assert` away. The model follows debug builds, where the misaligned-directory assertion fails.
- `Entrypoints.Timestep`: the dispatcher looked up from the directory is represented by its handle. The step itself is the engine's.
- Buffers.CppFromByteBuffer: the length is stated only for non-negative lengths that fit an `int32_t`. Negative lengths go through `size_t` wrap-around, which the body models and the contract does not describe.
- Buffers.CppToByteBuffer: the length is stated only when the product fits an `int32_t`. `Buffers.CppLengthWraps` exhibits the wrapping case.
- CollidableProperties.ResizedToAtLeast: the pool is assumed to copy `copyCount` bytes, as far as both blocks reach, whatever `len` the `ByteBuffer` handed to it carries. The source builds that `ByteBuffer` with the element count as `len` (src/bepu/collidable_property.rs:65-69, 88-92, 116-120, 134-138), so a pool that honoured `len` as a byte bound would copy less. `CollidableProperties.AllocateKeepsElements` relies on this assumption.
- SimulationConfig.IsAwake and SimulationConfig.IsAsleep read a `BodyMemoryLocation` as awake (set index 0) or asleep (positive set index). No operation here produces a location, so nothing is proved about them.
- CollidableProperties.Dispose: the contract states the number of ids. `CollidableProperties.NewThenDispose` states which ids.
- Handles.NewHandle: the C# constructor asserts the index and type index and is given those as its precondition. The unchecked version is handled by `Handles.VersionOverflowCarriesIntoType`.
- The `WIDEST_LANE` compile-time configuration and the thread dispatcher's concurrency are not modelled.

## Findings

| source | as written | input that shows it | evidently intended | confidence | as-written member | corrected member |
|---|---|---|---|---|---|---|
| src/bepu/collisions.rs:24-35 | `get_body_handle` and `get_static_handle` return the whole packed word, mobility bits included | `create_kinematic(h)` for any `h < 2^30` reads back `h + 2^30`; `create_static(h)` reads back a negative handle | mask to the low 30 bits, as `get_raw_handle_value` and `src/types/collisions.rs:38-40` do | high, not executed | Collisions.UnmaskedGetterMisreadsKinematic | Collisions.CreateRoundTrip |
| src/types/shapes.rs:160-176 | `Mesh::set_scale` updates `inverse_scale` but never assigns `scale` | a unit-scale mesh given scale 2 keeps `scale` 1 with inverse scale 0.5 | store `scale` as well | high, not executed | Shapes.SetScaleLeavesScaleStale | Shapes.SetScaleCorrected |
| src/bepu/collidable_property.rs:126 | `ensure_body_capacity` and `ensure_static_capacity` pass the element count as the resize copy count, which is in bytes; the cause they share with `allocate_body` and `allocate_static` (lines 65-69, 88-92) is a `ByteBuffer` whose `len` is the element count | two 4-byte elements (8 bytes) grown to capacity 4 (16 bytes) keep only their first 2 bytes | build the `ByteBuffer` with `len * size_of::<T>()` and copy that many bytes | medium, not executed | CollidableProperties.EnsureCapacityDropsBytes | CollidableProperties.EnsureCapacityCorrectedKeepsElements |
