/**
 How an allocation is cut into chunks, in 64-bit unsigned arithmetic. The configured chunk size comes
 from the environment in megabytes, is rounded up to the hardware granularity, and cuts the rounded
 allocation into equal chunks and a last, shorter one.
 */
module ChunkSizes {
  import opened Arithmetic
  import opened Wrappers

  const WRAP: int := 0x1_0000_0000_0000_0000
  const MB: int := 1024 * 1024
  const DEFAULT_CHUNK: int := 256 * MB

  /** The loops count chunks in 32-bit signed integers. */
  const MAX_COUNT: int := 0x7FFF_FFFF

  type u64 = x: int | 0 <= x < 0x1_0000_0000_0000_0000

  /** The environment variable: absent, not a number, or the number it parses to. */
  datatype Setting = Unset | Unparsable | Megabytes(value: u64)

  function BaseChunk(s: Setting): (c: u64)
    ensures c > 0 && c % MB == 0
  {
    match s
    case Unset => DEFAULT_CHUNK
    case Unparsable => DEFAULT_CHUNK
    case Megabytes(v) => if v == 0 || v > (WRAP - 1) / MB then DEFAULT_CHUNK else v * MB
  }

  /** The setting in bytes; 256 MB if there is none, it is no number or zero, or its bytes do not fit in 64 bits. */
  lemma BaseChunkIs(s: Setting)
    ensures s.Megabytes? && s.value > 0 && s.value * 1048576 < 0x1_0000_0000_0000_0000 ==> BaseChunk(s) == s.value * 1048576
    ensures s.Megabytes? && (s.value == 0 || s.value * 1048576 >= 0x1_0000_0000_0000_0000) ==> BaseChunk(s) == 268435456
    ensures !s.Megabytes? ==> BaseChunk(s) == 268435456
  {
    assert (WRAP - 1) / MB == 17592186044415;
  }

  function Wrap(x: int): u64 { x % WRAP }

  /** Rounding up as the code does it: the sum may wrap. */
  function AlignUp(x: u64, g: u64): u64
    requires g > 0
  {
    Wrap(Wrap(x + g - 1) / g * g)
  }

  lemma DivBounds(x: int, g: int)
    requires x >= 0 && g > 0
    ensures x - g < x / g * g <= x && (x / g * g) % g == 0 && x / g >= 0
  {
    assert x == x / g * g + x % g;
    ModOfProduct(x / g, g);
  }

  lemma ModOfProduct(q: int, g: int)
    requires g > 0
    ensures (q * g) % g == 0
  {
    var r := q * g;
    var d := r / g;
    assert r == d * g + r % g;
    assert (q - d) * g == r % g;
    assert q - d >= 1 ==> (q - d) * g >= g;
    assert q - d <= -1 ==> (q - d) * g <= -g;
  }

  /**
   Rounding up gives the least multiple of the granularity that is large enough if and only if the sum
   does not wrap. If it wraps, the result is zero.
   */
  lemma AlignUpIff(x: u64, g: u64)
    requires g > 0
    ensures AlignUp(x, g) >= x <==> x + g - 1 < WRAP
    ensures x + g - 1 < WRAP ==> x <= AlignUp(x, g) < x + g && AlignUp(x, g) % g == 0
    ensures x + g - 1 >= WRAP ==> AlignUp(x, g) == 0
  {
    var s := Wrap(x + g - 1);
    DivBounds(s, g);
    if x + g - 1 < WRAP {
      SmallMod(x + g - 1);
      SmallMod(s / g * g);
    } else {
      WrapOnce(x + g - 1);
      SmallDiv(s, g);
      SmallMod(0);
    }
  }

  lemma SmallMod(x: int)
    requires 0 <= x < WRAP
    ensures Wrap(x) == x
  {
  }

  lemma WrapOnce(x: int)
    requires WRAP <= x < 2 * WRAP
    ensures Wrap(x) == x - WRAP
  {
  }

  /** `None` is the division by zero that a wrapped chunk size leads to. */
  function NumChunks(aligned: u64, chunk: u64): Option<u64> {
    if chunk == 0 then None else Some(Wrap(aligned + chunk - 1) / chunk)
  }

  function ChunkAt(aligned: u64, chunk: u64, i: nat): u64 {
    var rest := Wrap(aligned - Wrap(i * chunk));
    if rest < chunk then rest else chunk
  }

  /** The sizes written to `chunk_sizes`, in order. */
  function Sizes(aligned: u64, chunk: u64, n: nat): (s: seq<u64>)
    ensures |s| == n
  {
    if n == 0 then [] else Sizes(aligned, chunk, n - 1) + [ChunkAt(aligned, chunk, n - 1)]
  }

  /** Chunk `i` starts at `i * chunk`, and what is left for it is positive and aligned. */
  lemma ChunkBounds(aligned: u64, chunk: u64, g: u64, i: nat)
    requires g > 0 && chunk > 0 && chunk % g == 0 && aligned % g == 0 && i * chunk < aligned
    ensures var c := ChunkAt(aligned, chunk, i);
            0 < c <= chunk && i * chunk + c <= aligned && c % g == 0 && (c < chunk ==> i * chunk + c == aligned)
  {
    SmallMod(i * chunk);
    SmallMod(aligned - i * chunk);
    MultipleOf(chunk, g, i);
    ModDifference(aligned, i * chunk, g);
  }

  lemma MultipleOf(x: int, g: int, i: nat)
    requires g > 0 && x % g == 0
    ensures (i * x) % g == 0
  {
    assert x == x / g * g;
    assert i * x == (i * (x / g)) * g by { assert i * (x / g * g) == (i * (x / g)) * g; }
    ModOfProduct(i * (x / g), g);
  }

  lemma ModDifference(x: int, y: int, g: int)
    requires g > 0 && x % g == 0 && y % g == 0
    ensures (x - y) % g == 0
  {
    assert x == x / g * g && y == y / g * g;
    assert x - y == (x / g - y / g) * g;
    ModOfProduct(x / g - y / g, g);
  }

  /** The first `k` full chunks take `k * chunk` bytes. */
  lemma {:induction false} FullChunks(aligned: u64, chunk: u64, g: u64, k: nat)
    requires g > 0 && chunk > 0 && chunk % g == 0 && aligned % g == 0 && k * chunk <= aligned
    ensures Sum(Sizes(aligned, chunk, k)) == k * chunk
  {
    if k > 0 {
      assert k * chunk == (k - 1) * chunk + chunk;
      FullChunks(aligned, chunk, g, k - 1);
      ChunkBounds(aligned, chunk, g, k - 1);
      var s := Sizes(aligned, chunk, k);
      assert s[..k - 1] == Sizes(aligned, chunk, k - 1);
    }
  }

  ghost predicate Tiles(aligned: int, g: int, s: seq<int>) {
    && Sum(s) == aligned
    && (forall i :: 0 <= i < |s| ==> s[i] > 0 && g > 0 && s[i] % g == 0)
  }

  /** Every chunk but the last is full. */
  ghost predicate FullButLast(chunk: int, s: seq<int>) {
    (forall i :: 0 <= i < |s| - 1 ==> s[i] == chunk) && (s != [] ==> s[|s| - 1] <= chunk)
  }

  lemma {:induction false} SizesAt(aligned: u64, chunk: u64, n: nat, i: nat)
    requires i < n
    ensures Sizes(aligned, chunk, n)[i] == ChunkAt(aligned, chunk, i)
  {
    if i < n - 1 { SizesAt(aligned, chunk, n - 1, i); }
  }

  lemma ChunksTile(aligned: u64, chunk: u64, g: u64, n: nat)
    requires g > 0 && chunk > 0 && chunk % g == 0 && aligned % g == 0
    requires n >= 1 && (n - 1) * chunk < aligned <= n * chunk
    ensures Tiles(aligned, g, Sizes(aligned, chunk, n)) && FullButLast(chunk, Sizes(aligned, chunk, n))
  {
    var s := Sizes(aligned, chunk, n);
    assert Sum(s) == aligned by {
      FullChunks(aligned, chunk, g, n - 1);
      LastChunk(aligned, chunk, n);
      assert s[..n - 1] == Sizes(aligned, chunk, n - 1);
    }
    forall i | 0 <= i < |s| ensures s[i] > 0 && s[i] % g == 0 {
      SizesAt(aligned, chunk, n, i);
      MulLe(i, n - 1, chunk);
      ChunkBounds(aligned, chunk, g, i);
    }
    forall i | 0 <= i < n ensures s[i] <= chunk && (i < n - 1 ==> s[i] == chunk) {
      SizesAt(aligned, chunk, n, i);
      MulLe(i, n - 1, chunk);
      ChunkBounds(aligned, chunk, g, i);
      if i < n - 1 {
        MulLe(i + 1, n - 1, chunk);
        assert (i + 1) * chunk == i * chunk + chunk;
      }
    }
  }

  /** The chunks of an aligned allocation; `None` where the division traps or a loop counter overflows. */
  function Cut(aligned: u64, chunk: u64): Option<seq<u64>> {
    match NumChunks(aligned, chunk)
    case None => None
    case Some(n) => if n > MAX_COUNT then None else Some(Sizes(aligned, chunk, n))
  }

  /** Counting up to `x / c`, rounded up, fits the counter exactly when `x` is at most that many chunks. */
  lemma CeilFits(x: int, c: int, m: nat)
    requires x >= 0 && c > 0
    ensures (x + c - 1) / c <= m <==> x <= m * c
  {
    var n := (x + c - 1) / c;
    DivBounds(x + c - 1, c);
    if n <= m { MulLe(n, m, c); }
    if n > m { MulLe(m, n - 1, c); assert n * c == (n - 1) * c + c; }
  }

  /**
   The chunks tile the aligned allocation, all of them positive and aligned and all but the last full, if and
   only if the chunk count does not wrap and fits the loop counter. If it wraps, there is no chunk at all.
   */
  lemma ChunksTileIff(aligned: u64, chunk: u64, g: u64)
    requires g > 0 && chunk > 0 && chunk % g == 0 && aligned % g == 0
    ensures var cut := Cut(aligned, chunk);
            && (cut.Some? && Tiles(aligned, g, cut.value) <==>
                aligned + chunk - 1 < WRAP && aligned <= MAX_COUNT * chunk)
            && (cut.Some? ==> FullButLast(chunk, cut.value))
            && (aligned + chunk - 1 < WRAP ==> (cut.None? <==> aligned > MAX_COUNT * chunk))
            && (aligned + chunk - 1 >= WRAP ==> cut == Some([]))
  {
    hide Tiles, ChunkAt, Wrap;
    if aligned == 0 {
      SmallMod(chunk - 1);
      SmallDiv(chunk - 1, chunk);
      NoChunk(g);
    } else if aligned + chunk - 1 < WRAP {
      SmallMod(aligned + chunk - 1);
      CeilBounds(aligned, chunk);
      CeilFits(aligned, chunk, MAX_COUNT);
      ChunksTile(aligned, chunk, g, (aligned + chunk - 1) / chunk);
    } else {
      WrapOnce(aligned + chunk - 1);
      SmallDiv(aligned + chunk - 1 - WRAP, chunk);
      NoChunk(g);
    }
  }

  lemma NoChunk(g: int)
    ensures forall aligned :: Tiles(aligned, g, []) <==> aligned == 0
  {
  }

  lemma LastChunk(aligned: u64, chunk: u64, n: nat)
    requires chunk > 0 && n >= 1 && (n - 1) * chunk < aligned <= n * chunk
    ensures (n - 1) * chunk + ChunkAt(aligned, chunk, n - 1) == aligned
  {
    SmallMod((n - 1) * chunk);
    SmallMod(aligned - (n - 1) * chunk);
    assert n * chunk == (n - 1) * chunk + chunk;
  }

  /** What an allocation of `size` bytes asks for: the aligned size and the chunks, if they are defined. */
  function Plan(size: u64, g: u64, setting: Setting): Option<(u64, seq<u64>)>
    requires g > 0
  {
    var aligned, chunk := AlignUp(size, g), AlignUp(BaseChunk(setting), g);
    match Cut(aligned, chunk)
    case None => None
    case Some(sizes) => Some((aligned, sizes))
  }

  ghost predicate Sound(size: u64, g: u64, plan: Option<(u64, seq<u64>)>) {
    plan.Some? && size <= plan.value.0 < size + g && Tiles(plan.value.0, g, plan.value.1)
  }

  /**
   For every size, granularity and setting: the plan covers the request with positive, aligned chunks
   that add up to the aligned size, if and only if none of the three rounded sums wraps and the chunks can
   be counted in 32 bits. All but the last have the configured size, rounded up.
   */
  lemma PlanSoundIff(size: u64, g: u64, setting: Setting)
    requires g > 0
    ensures Sound(size, g, Plan(size, g, setting)) <==>
            && size + g - 1 < WRAP && BaseChunk(setting) + g - 1 < WRAP
            && AlignUp(size, g) + AlignUp(BaseChunk(setting), g) - 1 < WRAP
            && AlignUp(size, g) <= MAX_COUNT * AlignUp(BaseChunk(setting), g)
    ensures Sound(size, g, Plan(size, g, setting)) ==>
            exists c :: BaseChunk(setting) <= c < BaseChunk(setting) + g && c % g == 0 &&
                        FullButLast(c, Plan(size, g, setting).value.1)
  {
    hide Tiles, AlignUp, Cut, FullButLast;
    AlignUpIff(size, g);
    AlignUpIff(BaseChunk(setting), g);
    var chunk := AlignUp(BaseChunk(setting), g);
    if chunk > 0 {
      ZeroMod(g);
      ChunksTileIff(AlignUp(size, g), chunk, g);
    } else {
      CutTraps(AlignUp(size, g));
    }
  }

  lemma ZeroMod(g: int)
    requires g > 0
    ensures 0 % g == 0
  {
  }

  lemma CutTraps(aligned: u64)
    ensures Cut(aligned, 0).None?
  {
  }

  /** The division traps if and only if the configured size plus the granularity wraps. */
  lemma ChunkDivisionTrapsIff(setting: Setting, g: u64, size: u64)
    requires g > 0
    ensures NumChunks(AlignUp(size, g), AlignUp(BaseChunk(setting), g)).None? <==> BaseChunk(setting) + g - 1 >= WRAP
    ensures BaseChunk(setting) + g - 1 >= WRAP ==> Plan(size, g, setting).None?
  {
    AlignUpIff(BaseChunk(setting), g);
  }

  /**
   The largest accepted settings fail with a 2 MB granularity: 2^44 - 1 megabytes traps, and 2^44 - 2
   megabytes gives an allocation of 4 MB no chunk.
   */
  lemma LargestSettings()
    ensures Plan(4 * MB, 2 * MB, Megabytes(0xFFF_FFFF_FFFF)).None?
    ensures Plan(4 * MB, 2 * MB, Megabytes(0xFFF_FFFF_FFFE)) == Some((4 * MB, []))
  {
    hide Wrap;
    ChunkDivisionTrapsIff(Megabytes(0xFFF_FFFF_FFFF), 2 * MB, 4 * MB);
    var chunk := BaseChunk(Megabytes(0xFFF_FFFF_FFFE));
    SmallMod(4 * MB + 2 * MB - 1);
    SmallMod(4 * MB);
    SmallMod(chunk + 2 * MB - 1);
    SmallMod(chunk);
    assert AlignUp(4 * MB, 2 * MB) == 4 * MB && AlignUp(chunk, 2 * MB) == chunk;
    WrapOnce(4 * MB + chunk - 1);
    SmallDiv(4 * MB + chunk - 1 - WRAP, chunk);
  }

  /** `k` granules in chunks of one granule each make `k` chunks. */
  lemma ExactCount(k: nat, g: u64, size: u64)
    requires g > 0 && size == k * g && size + g - 1 < WRAP
    ensures AlignUp(size, g) == size && NumChunks(size, g) == Some(k)
  {
    SmallMod(size + g - 1);
    SmallMod(size);
    SplitAt(g - 1, k, g);
  }

  /** A request of 2^52 bytes in chunks of 2 MB: no sum wraps, and its 2^31 chunks overflow the counter. */
  lemma TooManyChunks()
    ensures var size: u64, g: u64, setting := 0x10_0000_0000_0000, 2 * MB, Megabytes(2);
            && size + g - 1 < WRAP && BaseChunk(setting) + g - 1 < WRAP
            && AlignUp(size, g) + AlignUp(BaseChunk(setting), g) - 1 < WRAP
            && NumChunks(AlignUp(size, g), AlignUp(BaseChunk(setting), g)) == Some(MAX_COUNT + 1)
            && Plan(size, g, setting).None?
  {
    var size: u64, g: u64 := 0x10_0000_0000_0000, 2 * MB;
    assert BaseChunk(Megabytes(2)) == g;
    hide Wrap, Sizes, AlignUp, NumChunks, BaseChunk;
    ExactCount(0x8000_0000, g, size);
    ExactCount(1, g, g);
  }

  /** Fill the size array, as the allocation does; `None` when the loop counter overflows. */
  method FillSizes(aligned: u64, chunk: u64) returns (r: Option<array<u64>>)
    requires chunk > 0
    ensures r.Some? <==> NumChunks(aligned, chunk).value <= MAX_COUNT
    ensures r.Some? ==> Cut(aligned, chunk) == Some(r.value[..])
  {
    var n := Wrap(aligned + chunk - 1) / chunk;
    var sizes := new u64[n];
    var i := 0;
    while i < n
      invariant i <= n && i <= MAX_COUNT
      invariant sizes[..i] == Sizes(aligned, chunk, i)
    {
      var rest := Wrap(aligned - Wrap(i * chunk));
      sizes[i] := if rest < chunk then rest else chunk;
      assert sizes[..i + 1] == sizes[..i] + [sizes[i]];
      if i == MAX_COUNT { return None; }
      i := i + 1;
    }
    assert sizes[..] == sizes[..n];
    return Some(sizes);
  }
}
