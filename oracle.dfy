/**
 * Shared vocabulary: an optional value (the C code's NULL results), the
 * C library's `rand()` generator and the game's seeded Mersenne Twister,
 * each modelled as a fixed stream of draws read through a cursor, a `FILE` that `*_savef` appends records to and
 * `*_loadf` reads records from, and one ordering fact about products that the buffer sizes rely on.
 */
module Oracle {

  datatype Option<T> = None | Some(value: T)

  /** RAND_MAX of the C library the program is built against (glibc). */
  const RAND_MAX: int := 2147483647

  /** Products with a non-negative factor keep the order of the other factor. */
  lemma MulMonotone(a: int, b: int, n: int)
    requires 0 <= a <= b && 0 <= n
    ensures 0 <= a * n <= b * n
  {
  }

  /** A value `rand()` can return. */
  type RandVal = r: int | 0 <= r <= RAND_MAX

  /** `rand() / (float)RAND_MAX`: a draw scaled into [0, 1]. */
  function Unit(r: RandVal): (u: real)
    ensures 0.0 <= u <= 1.0
    ensures u == 0.0 <==> r == 0
    ensures u == 1.0 <==> r == RAND_MAX
  {
    r as real / RAND_MAX as real
  }

  /**
   * The process-wide `rand()` generator: `stream(n)` is the n-th value it
   * returns after seeding, and `pos` counts the values drawn so far.
   */
  class CRand {
    const stream: nat -> RandVal
    var pos: nat

    constructor (stream: nat -> RandVal)
      ensures this.stream == stream && pos == 0
    {
      this.stream := stream;
      pos := 0;
    }

    /** `rand()`: the next value of the stream. */
    method Next() returns (r: RandVal)
      modifies this`pos
      ensures r == stream(old(pos)) && pos == old(pos) + 1
    {
      r := stream(pos);
      pos := pos + 1;
    }
  }

  /** A value `genRandLong` can return: 32 random bits. */
  type Word32 = r: int | 0 <= r < 0x1_0000_0000

  /**
   * One seeded Mersenne Twister state: `stream(n)` is the n-th value
   * `genRandLong` returns after `seedRand`, `pos` the values drawn so far.
   */
  class MtRand {
    const stream: nat -> Word32
    var pos: nat

    constructor (stream: nat -> Word32)
      ensures this.stream == stream && pos == 0
    {
      this.stream := stream;
      pos := 0;
    }

    /** `genRandLong`. */
    method Next() returns (r: Word32)
      modifies this`pos
      ensures r == stream(old(pos)) && pos == old(pos) + 1
    {
      r := stream(pos);
      pos := pos + 1;
    }
  }

  /**
   * A `FILE` as the sequence of records written to it and a read position.
   * Writes append; a read past the end is a short `fread`.
   */
  class Stream<T> {
    var items: seq<T>
    var pos: nat

    /** The position never passes the end of the file. */
    ghost predicate Valid()
      reads this
    {
      pos <= |items|
    }

    constructor (items: seq<T>)
      ensures Valid() && this.items == items && pos == 0
    {
      this.items := items;
      pos := 0;
    }

    /** One `fwrite` of one record. */
    method Write(x: T)
      requires Valid()
      modifies this`items
      ensures Valid() && items == old(items) + [x]
    {
      items := items + [x];
    }

    /** One `fread` of one record: the next record, or None at the end. */
    method Read() returns (r: Option<T>)
      requires Valid()
      modifies this`pos
      ensures Valid()
      ensures old(pos) < |items| ==> r == Some(items[old(pos)]) && pos == old(pos) + 1
      ensures old(pos) >= |items| ==> r == None && pos == old(pos)
    {
      if pos < |items| {
        r := Some(items[pos]);
        pos := pos + 1;
      } else {
        r := None;
      }
    }
  }
}
