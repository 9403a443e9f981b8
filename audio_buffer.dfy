/** The recyclable sample buffer that the pool hands out and the demultiplexer fills.
    A buffer owns a fixed-size sample array (its capacity, the `Size` template argument)
    and a logical `length`. Samples are modelled as `int`; zero-filling maps to 0. */
module AudioBuffers {

  class AudioBuffer {
    /** Number of valid samples at the front of `data`. */
    var length: int
    /** The fixed-capacity sample storage, embedded in the buffer (never shared). */
    const data: array<int>

    /** Placement-new of a default-constructed buffer. The samples are left arbitrary; the
        length, indeterminate in the source until `reset()`, starts at 0. */
    constructor (size: nat)
      ensures data.Length == size && fresh(data)
      ensures length == 0
    {
      length := 0;
      data := new int[size];
    }

    /** `reset()`: forget the contents logically; the samples themselves stay in place. */
    method Reset()
      modifies this
      ensures length == 0
    {
      length := 0;
    }
  }
}
