/**
 * Chunk keys. Both the converter and the streaming worker key a chunk by the text
 * `${x},${y}` of its integer offsets; decimal formatting of integers is injective,
 * so the pair itself stands for the key.
 */
module Cells {

  datatype Cell = Cell(x: int, y: int)

  /** `Math.floor(v / size) * size` for a positive size: the chunk offset covering `v`. */
  function Snap(v: int, size: int): (off: int)
    requires size > 0
    ensures off <= v < off + size
    ensures off % size == 0
  {
    var q := v / size;
    assert v == q * size + v % size;
    MultipleMod(q, size);
    q * size
  }

  lemma MultipleMod(q: int, size: int)
    requires size > 0
    ensures (q * size) % size == 0 && (q * size) / size == q
  {
    DivModUnique(q * size, size, q, 0);
  }

  /** Euclidean division has one quotient and remainder. */
  lemma DivModUnique(m: int, size: int, d: int, r: int)
    requires size > 0 && m == d * size + r && 0 <= r < size
    ensures m / size == d && m % size == r
  {
    var d', r' := m / size, m % size;
    assert m == d' * size + r' && 0 <= r' < size;
    assert (d - d') * size == r' - r by {
      MulSub(d, d', size);
    }
    if d - d' >= 1 {
      MulAtLeast(d - d', size);
    } else if d' - d >= 1 {
      MulAtLeast(d' - d, size);
      MulSub(d', d, size);
    }
  }

  lemma MulSub(a: int, b: int, c: int)
    ensures (a - b) * c == a * c - b * c
  {
  }

  lemma MulAtLeast(a: int, b: int)
    requires a >= 1 && b > 0
    ensures a * b >= b
  {
    assert a * b == (a - 1) * b + b;
  }

  /** Snapping is idempotent: an offset is its own chunk offset. */
  lemma SnapIdempotent(v: int, size: int)
    requires size > 0
    ensures Snap(Snap(v, size), size) == Snap(v, size)
  {
    var off := Snap(v, size);
    SnapUnique(off, size, off);
  }

  /** The only multiple of `size` in `(v - size, v]` is `Snap(v, size)`. */
  lemma SnapUnique(v: int, size: int, off: int)
    requires size > 0 && off % size == 0 && off <= v < off + size
    ensures Snap(v, size) == off
  {
    var q := off / size;
    DivModUnique(off, size, q, 0);
    DivModUnique(v, size, q, v - off);
  }
}
