/** How large the parts of a multipart upload are, and how many there will be. */
module ChunkSize {
  import opened Bytes
  import opened Multipart

  const MIN_CHUNK := 5 * 1024 * 1024
  const MAX_CHUNK := 5 * 1024 * 1024 * 1024

  function Max(a: nat, b: nat): nat { if a >= b then a else b }
  function Min(a: nat, b: nat): nat { if a <= b then a else b }

  datatype Limits = Limits(minChunk: nat, maxChunk: nat, targetParts: nat, concurrency: nat) {
    predicate Valid() {
      MIN_CHUNK <= minChunk <= maxChunk <= MAX_CHUNK && targetParts >= 1 && concurrency >= 1
    }
  }

  /**
   * The clamps of `Storage::new`. A minimum above the greatest chunk size is not lowered,
   * and then the minimum ends up above the maximum.
   */
  function Clamped(minChunk: nat, maxChunk: nat, targetParts: nat, concurrency: nat): (l: Limits)
    ensures l.Valid() <==> minChunk <= MAX_CHUNK
  {
    var low := Max(minChunk, MIN_CHUNK);
    Limits(low, Min(Max(maxChunk, low), MAX_CHUNK), Max(targetParts, 1), Max(concurrency, 1))
  }

  /** `compute_chunk_size`. */
  function ComputeChunkSize(total: nat, minChunk: nat, maxChunk: nat, targetParts: nat): nat {
    Min(Max(total / Max(targetParts, 1), minChunk), maxChunk)
  }

  /** The size with which the reader of an upload estimated at `expected` bytes cuts. */
  function ChunkFor(expected: nat, l: Limits): nat {
    ComputeChunkSize(Max(expected, 1), l.minChunk, l.maxChunk, l.targetParts)
  }

  /** Whatever the configuration, parts have a size the object store accepts. */
  lemma ChunkBounds(expected: nat, minChunk: nat, maxChunk: nat, targetParts: nat, concurrency: nat)
    ensures 5_242_880 <= ChunkFor(expected, Clamped(minChunk, maxChunk, targetParts, concurrency)) <= 5_368_709_120
  {
  }

  /** What is configured is taken, unless it is out of bounds; then the nearest bound is. */
  lemma ClampedIsNearest(minChunk: nat, maxChunk: nat, targetParts: nat, concurrency: nat)
    ensures var l := Clamped(minChunk, maxChunk, targetParts, concurrency);
            && l.minChunk >= minChunk && (l.minChunk == minChunk || l.minChunk == 5_242_880)
            && (minChunk < 5_242_880 ==> l.minChunk == 5_242_880)
            && (l.minChunk <= maxChunk <= 5_368_709_120 ==> l.maxChunk == maxChunk)
            && (maxChunk <= l.minChunk <= 5_368_709_120 ==> l.maxChunk == l.minChunk)
            && (maxChunk >= 5_368_709_120 || l.minChunk >= 5_368_709_120 ==> l.maxChunk == 5_368_709_120)
            && l.targetParts >= targetParts && l.targetParts >= 1 && (targetParts >= 1 ==> l.targetParts == targetParts)
            && (targetParts == 0 ==> l.targetParts == 1)
            && (if concurrency == 0 then l.concurrency == 1 else l.concurrency == concurrency)
  {
  }

  /**
   * The chunk size is the least in bounds whose next one would need fewer parts than intended: a
   * size above the minimum is filled by every intended part, and one below the maximum, one byte
   * larger, would not be.
   */
  lemma ChunkExactly(expected: nat, l: Limits, size: nat)
    requires l.Valid()
    ensures size == ChunkFor(expected, l) <==>
              && l.minChunk <= size <= l.maxChunk
              && (size > l.minChunk ==> size * l.targetParts <= Max(expected, 1))
              && (size < l.maxChunk ==> Max(expected, 1) < (size + 1) * l.targetParts)
  {
    Filled(Max(expected, 1), l.targetParts, size);
    Filled(Max(expected, 1), l.targetParts, size + 1);
  }

  lemma Filled(total: nat, parts: nat, size: nat)
    requires parts >= 1
    ensures size <= total / parts <==> size * parts <= total
  {
    var q, r := total / parts, total % parts;
    assert total == q * parts + r && (q + 1) * parts == q * parts + parts;
    if size <= q {
      Monotone(size, q, parts);
    } else {
      Monotone(q + 1, size, parts);
    }
  }

  /** Every part but the last is of that size. */
  lemma PartSizes(s: seq<u8>, expected: nat, minChunk: nat, maxChunk: nat, targetParts: nat, concurrency: nat)
    ensures var size := ChunkFor(expected, Clamped(minChunk, maxChunk, targetParts, concurrency));
            && size > 0
            && forall i :: 0 <= i < |Cut(s, size, 1)| ==>
                 && |Cut(s, size, 1)[i].data| <= MAX_CHUNK
                 && (i < |Cut(s, size, 1)| - 1 ==> |Cut(s, size, 1)[i].data| >= MIN_CHUNK)
  {
    ChunkBounds(expected, minChunk, maxChunk, targetParts, concurrency);
    CutShape(s, ChunkFor(expected, Clamped(minChunk, maxChunk, targetParts, concurrency)), 1);
  }

  function CeilDiv(a: nat, b: nat): nat
    requires b > 0
  {
    (a + b - 1) / b
  }

  lemma {:induction false} CutCount(s: seq<u8>, size: nat, first: nat)
    requires size > 0
    ensures |Cut(s, size, first)| == CeilDiv(|s|, size)
  {
    if |s| >= size {
      CutCount(s[size..], size, first + 1);
      AddOne(|s| - size + size - 1, size);
    } else if s != [] {
      AddOne(|s| - 1, size);
      Small(|s| - 1, size);
    } else {
      Small(size - 1, size);
    }
  }

  lemma Quotient(a: nat, b: nat, q: nat)
    requires b > 0 && q * b <= a < q * b + b
    ensures a / b == q
  {
    var x, r := a / b, a % b;
    assert a == x * b + r;
    if x < q {
      Monotone(x + 1, q, b);
    } else if x > q {
      Monotone(q + 1, x, b);
    }
  }

  lemma Monotone(a: nat, b: nat, m: nat)
    requires a <= b
    ensures a * m <= b * m
  {
  }

  lemma AddOne(a: nat, b: nat)
    requires b > 0
    ensures (a + b) / b == a / b + 1
  {
    var q, r := a / b, a % b;
    assert a == q * b + r;
    assert (q + 1) * b == q * b + b;
    Quotient(a + b, b, q + 1);
  }

  lemma Small(a: nat, b: nat)
    requires a < b
    ensures a / b == 0
  {
    Quotient(a, b, 0);
  }

  /** `CeilDiv(a, b)` is the least `n` with `n * b >= a`. */
  lemma CeilLeast(a: nat, b: nat, n: nat)
    requires b > 0 && a <= n * b
    ensures CeilDiv(a, b) <= n
  {
    var q := CeilDiv(a, b);
    assert q * b <= a + b - 1;
    assert (n + 1) * b == n * b + b;
    if q > n {
      Monotone(n + 1, q, b);
    }
  }

  lemma CeilCovers(a: nat, b: nat)
    requires b > 0
    ensures a <= CeilDiv(a, b) * b
  {
    var q := CeilDiv(a, b);
    assert (a + b - 1) == q * b + (a + b - 1) % b;
  }

  /** The estimate fits into the intended number of chunks and what its rounding costs. */
  lemma EstimateFits(expected: nat, t: nat, size: nat)
    requires t >= 1 && size >= expected / t
    ensures expected <= t * size + t
  {
    var q, r := expected / t, expected % t;
    assert expected == q * t + r;
    Monotone(q, size, t);
    assert size * t == t * size;
  }

  lemma ThreeParts(a: nat, b: nat, c: nat, size: nat)
    requires size > 0
    ensures CeilDiv(a * size + b + c, size) <= a + CeilDiv(b, size) + CeilDiv(c, size)
  {
    CeilCovers(b, size);
    CeilCovers(c, size);
    var x, y := CeilDiv(b, size), CeilDiv(c, size);
    assert (a + x + y) * size == a * size + x * size + y * size;
    CeilLeast(a * size + b + c, size, a + x + y);
  }

  lemma CeilMonotone(a: nat, b: nat, size: nat)
    requires size > 0 && a <= b
    ensures CeilDiv(a, size) <= CeilDiv(b, size)
  {
    CeilCovers(b, size);
    CeilLeast(a, size, CeilDiv(b, size));
  }

  /**
   * A stream of `|s|` bytes estimated at `expected` needs as many parts as intended, plus what
   * the rounding of the chunk size and the error of the estimate cost; unless the greatest
   * chunk size forces more.
   */
  lemma PartCountBound(s: seq<u8>, expected: nat, l: Limits)
    requires l.minChunk > 0 && l.maxChunk > 0 && l.targetParts > 0 && expected <= |s|
    ensures var size := ChunkFor(expected, l);
            && size > 0
            && |Cut(s, size, 1)| <= Max(l.targetParts + CeilDiv(l.targetParts, size) + CeilDiv(|s| - expected, size),
                                        CeilDiv(|s|, l.maxChunk))
            && (l.targetParts <= l.minChunk ==>
                  |Cut(s, size, 1)| <= Max(l.targetParts + 1 + CeilDiv(|s| - expected, size), CeilDiv(|s|, l.maxChunk)))
  {
    hide CeilDiv;
    hide Cut;
    var size, t := ChunkFor(expected, l), l.targetParts;
    CutCount(s, size, 1);
    if size < l.maxChunk {
      EstimateFits(Max(expected, 1), t, size);
      CeilMonotone(|s|, t * size + t + (|s| - expected), size);
      ThreeParts(t, t, |s| - expected, size);
      if t <= l.minChunk {
        CeilLeast(t, size, 1);
      }
    }
  }
}
