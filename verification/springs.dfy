/** Spring settings as the solver stores them: an angular frequency in
    radians per second and twice the damping ratio. The public accessors
    speak in cycles per second and the plain damping ratio. `f32` is modelled
    as `real`, so the conversions are exact here. */
module Springs {

  /** The crate's own value of pi. */
  const BPI: real := 3.14159265359

  datatype SpringSettings = SpringSettings(angularFrequency: real, twiceDampingRatio: real)

  /** The derived default: both stored fields zero. */
  const DEFAULT_SPRING: SpringSettings := SpringSettings(0.0, 0.0)

  /** The frequency in cycles per second: the angular frequency over 2·pi. */
  function Frequency(s: SpringSettings): (f: real)
    ensures f * (2.0 * BPI) == s.angularFrequency
  {
    s.angularFrequency / (2.0 * BPI)
  }

  /** Sets the frequency, stored as an angular frequency. */
  function WithFrequency(s: SpringSettings, frequency: real): (r: SpringSettings)
    ensures r.twiceDampingRatio == s.twiceDampingRatio
  {
    s.(angularFrequency := frequency * (2.0 * BPI))
  }

  /** The damping ratio: half the stored value. */
  function DampingRatio(s: SpringSettings): (d: real)
    ensures 2.0 * d == s.twiceDampingRatio
  {
    s.twiceDampingRatio / 2.0
  }

  /** Sets the damping ratio, stored doubled. */
  function WithDampingRatio(s: SpringSettings, ratio: real): (r: SpringSettings)
    ensures r.angularFrequency == s.angularFrequency
  {
    s.(twiceDampingRatio := ratio * 2.0)
  }

  /** Settings from a frequency and a damping ratio, stored converted. */
  function NewSpring(frequency: real, dampingRatio: real): (s: SpringSettings)
    ensures Frequency(s) == frequency && DampingRatio(s) == dampingRatio
  {
    SpringSettings(frequency * (2.0 * BPI), dampingRatio * 2.0)
  }

  /** Each getter reads back what its setter wrote, and each setter leaves
      the other getter's value alone. */
  lemma SetThenGet(s: SpringSettings, frequency: real, ratio: real)
    ensures Frequency(WithFrequency(s, frequency)) == frequency
    ensures DampingRatio(WithFrequency(s, frequency)) == DampingRatio(s)
    ensures DampingRatio(WithDampingRatio(s, ratio)) == ratio
    ensures Frequency(WithDampingRatio(s, ratio)) == Frequency(s)
  {
  }

  /** Writing back what a getter read changes nothing, so the stored form
      loses no information. */
  lemma GetThenSet(s: SpringSettings)
    ensures WithFrequency(s, Frequency(s)) == s
    ensures WithDampingRatio(s, DampingRatio(s)) == s
  {
  }

  /** Every setting is built by the constructor from its own readings. */
  lemma NewSpringFromReadings(s: SpringSettings)
    ensures NewSpring(Frequency(s), DampingRatio(s)) == s
  {
  }

  /** The default settings read as zero frequency and zero damping, the same
      as settings built from zeros. */
  lemma DefaultReadsZero()
    ensures Frequency(DEFAULT_SPRING) == 0.0 && DampingRatio(DEFAULT_SPRING) == 0.0
    ensures DEFAULT_SPRING == NewSpring(0.0, 0.0)
  {
  }
}
