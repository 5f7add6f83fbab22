// Sizes, rounding and the memory image of a zone's user pages.
module Geometry {

  const ZONE_USER_SIZE: nat := 4194304
  const SZ_ALIGNMENT: nat := 32
  const SMALLEST_CHUNK_SZ: nat := 32
  const SMALL_SIZE_MAX: nat := 65536
  const MAX_DEFAULT_ZONE_SZ: nat := 8192
  const BIG_SZ_MAX: nat := 4294967296
  const PAGE_SIZE: nat := 4096
  const CANARY_COUNT_DIV: nat := 128
  const POISON_BYTE: bv8 := 0xde

  type Byte = bv8

  // ------------------------------------------------------------------ rounding

  /** ALIGN_SZ_UP. */
  function AlignSzUp(n: nat): (r: nat)
    ensures r % SZ_ALIGNMENT == 0 && n <= r < n + SZ_ALIGNMENT
  {
    (n + SZ_ALIGNMENT - 1) / SZ_ALIGNMENT * SZ_ALIGNMENT
  }

  /** The chunk size a request is served with at best: the rounding done on
      entry to _iso_alloc, _iso_calloc and _iso_new_zone. */
  function RoundRequest(size: nat): (r: nat)
    ensures size <= r && r % SZ_ALIGNMENT == 0 && SMALLEST_CHUNK_SZ <= r
    ensures SMALLEST_CHUNK_SZ <= size ==> r < size + SZ_ALIGNMENT
    ensures size <= 32 ==> r == 32
    ensures size <= SMALL_SIZE_MAX <==> r <= SMALL_SIZE_MAX
  {
    if size < SMALLEST_CHUNK_SZ then SMALLEST_CHUNK_SZ
    else if size % SZ_ALIGNMENT != 0 then AlignSzUp(size)
    else size
  }

  /** ROUND_UP_PAGE. */
  function RoundUpPage(n: nat): (r: nat)
    ensures r % PAGE_SIZE == 0 && n <= r < n + PAGE_SIZE
  {
    (n + PAGE_SIZE - 1) / PAGE_SIZE * PAGE_SIZE
  }

  // ------------------------------------------------------------- zone geometry

  /** Sizes a zone can hold. */
  predicate IsChunkSize(size: nat) {
    SMALLEST_CHUNK_SZ <= size <= SMALL_SIZE_MAX && size % SZ_ALIGNMENT == 0
  }

  function ChunkCount(size: nat): nat
    requires IsChunkSize(size)
  {
    ZONE_USER_SIZE / size
  }

  /** max_bitmap_idx, through the byte size of the bitmap. */
  function MaxBitmapIdx(size: nat): nat
    requires IsChunkSize(size)
  {
    BitmapSize(size) / 8
  }

  /** bitmap_size. */
  function BitmapSize(size: nat): nat
    requires IsChunkSize(size)
  {
    var bitmapSize := ChunkCount(size) * 2 / 8;
    if bitmapSize > 8 then bitmapSize else 8
  }

  /** The bitmap sizes that have a page; the one for 16 bytes is never set up. */
  predicate IsBucket(bytes: nat) {
    bytes in {1024, 512, 256, 128, 64, 32}
  }

  /** A slot of a shared page: the size of the bitmaps there and its number. */
  datatype Slot = Slot(bytes: nat, number: nat)

  /** How many bitmaps of this size fit a page. */
  function SlotCount(bytes: nat): (n: nat)
    requires IsBucket(bytes)
    ensures n * bytes == PAGE_SIZE && n >= 4
  {
    PAGE_SIZE / bytes
  }

  /** How many of them have a bit of their own among the 32 of in_use. */
  function UsableSlots(bytes: nat): (n: nat)
    requires IsBucket(bytes)
    ensures 4 <= n <= 32 && n <= SlotCount(bytes)
  {
    if SlotCount(bytes) <= 32 then SlotCount(bytes) else 32
  }

  /** Zones of this chunk size take a slot of a shared bitmap page, if there is one left. */
  predicate SharesPage(size: nat)
    requires IsChunkSize(size)
  {
    IsBucket(BitmapSize(size))
  }

  /** Chunks follow the last addressable one, and the qword behind the bitmap may belong to
      another zone. */
  predicate StraySize(size: nat)
    requires IsChunkSize(size)
  {
    ChunkCount(size) % 32 != 0 && SharesPage(size)
  }

  lemma ScaleMonotone(a: nat, b: nat, size: nat)
    requires a <= b
    ensures a * size <= b * size
  {
  }

  lemma DivideLower(a: nat, b: nat, q: nat)
    requires b > 0 && q * b <= a
    ensures q <= a / b
  {
    if a / b + 1 <= q { ScaleMonotone(a / b + 1, q, b); }
  }

  /** Every addressable slot is a real chunk; the count of addressable chunks is
      the chunk count rounded down to a multiple of 32. */
  lemma AddressableChunks(size: nat)
    requires IsChunkSize(size)
    ensures MaxBitmapIdx(size) == ChunkCount(size) / 32 >= 2
    ensures 32 * MaxBitmapIdx(size) <= ChunkCount(size) < 32 * MaxBitmapIdx(size) + 32
    ensures ChunkCount(size) * size <= ZONE_USER_SIZE == 4194304 < ChunkCount(size) * size + size
    ensures BitmapSize(size) == ChunkCount(size) / 4
  {
    assert 64 * size <= ZONE_USER_SIZE;
    DivideLower(ZONE_USER_SIZE, size, 64);
    assert ZONE_USER_SIZE / size * size <= ZONE_USER_SIZE;
  }

  /** Chunk c lies inside the user pages. */
  lemma ChunkInside(size: nat, c: nat)
    requires IsChunkSize(size) && c < ChunkCount(size)
    ensures c * size + size <= ZONE_USER_SIZE
  {
  }

  /** Distinct chunks do not overlap. */
  lemma ChunksApart(size: nat, c: nat, d: nat)
    requires c < d
    ensures c * size + size <= d * size
  {
    ScaleMonotone(c + 1, d, size);
    assert (c + 1) * size == c * size + size;
  }

  /** chunk_offset / chunk_size and chunk_offset % chunk_size recover a chunk. */
  lemma ChunkOfOffset(size: nat, c: nat)
    requires size > 0
    ensures (c * size) / size == c && (c * size) % size == 0
  {
    var q, r := (c * size) / size, (c * size) % size;
    assert c * size == q * size + r;
    if q < c {
      ChunksApart(size, q, c);
    } else if c < q {
      ChunksApart(size, c, q);
    }
  }

  // ------------------------------------------------------------------- memory

  /** Overwrite a run of bytes. */
  function WriteAt(mem: seq<Byte>, off: nat, data: seq<Byte>): (r: seq<Byte>)
    requires off + |data| <= |mem|
    ensures |r| == |mem|
    ensures r[off..off + |data|] == data
    ensures forall k: nat :: k < |mem| && !(off <= k < off + |data|) ==> r[k] == mem[k]
  {
    mem[..off] + data + mem[off + |data|..]
  }

  /** Two images agree outside [lo, hi). */
  ghost predicate SameOutside(m: seq<Byte>, m': seq<Byte>, lo: nat, hi: nat) {
    |m| == |m'| && forall k: nat :: k < |m| && !(lo <= k < hi) ==> m'[k] == m[k]
  }

  lemma SameOutsideSlice(m: seq<Byte>, m': seq<Byte>, lo: nat, hi: nat, a: nat, b: nat)
    requires SameOutside(m, m', lo, hi) && a <= b <= |m|
    requires b <= lo || hi <= a
    ensures m'[a..b] == m[a..b]
  {
  }

  const ZERO_QWORD: seq<Byte> := [0, 0, 0, 0, 0, 0, 0, 0]

  /** An address as a 64-bit word: its binary digits, the last of them lowest. */
  function AddressWord(p: nat): bv64 {
    if p == 0 then 0 else (AddressWord(p / 2) << 1) | if p % 2 == 1 then 1 else 0
  }

  /** A qword as its eight bytes in memory, least significant first. */
  function QwordBytes(w: bv64): (b: seq<Byte>)
    ensures |b| == 8
  {
    [ByteOf(w, 0), ByteOf(w, 1), ByteOf(w, 2), ByteOf(w, 3),
     ByteOf(w, 4), ByteOf(w, 5), ByteOf(w, 6), ByteOf(w, 7)]
  }

  /** (uint8_t) (w >> 8 * k). */
  function ByteOf(w: bv64, k: nat): Byte
    requires k < 8
  {
    match k
    case 0 => (w & 0xff) as bv8
    case 1 => ((w >> 8) & 0xff) as bv8
    case 2 => ((w >> 16) & 0xff) as bv8
    case 3 => ((w >> 24) & 0xff) as bv8
    case 4 => ((w >> 32) & 0xff) as bv8
    case 5 => ((w >> 40) & 0xff) as bv8
    case 6 => ((w >> 48) & 0xff) as bv8
    case 7 => ((w >> 56) & 0xff) as bv8
  }

  /** The canary of a chunk: (canary_secret ^ p) & CANARY_VALIDATE_MASK, as it
      is laid out in memory. Its first byte is always zero. */
  function CanaryOf(secret: bv64, p: nat): (b: seq<Byte>)
    ensures |b| == 8
  {
    QwordBytes(CanaryValue(secret, AddressWord(p)))
  }

  function CanaryValue(secret: bv64, address: bv64): bv64 {
    (secret ^ address) & 0xffff_ffff_ffff_ff00
  }

  /** The canary is in the first and the last qword of [off, off + size). */
  predicate CanaryAt(mem: seq<Byte>, off: nat, size: nat, canary: seq<Byte>)
    requires 8 <= size && off + size <= |mem|
  {
    mem[off..off + 8] == canary && mem[off + size - 8..off + size] == canary
  }

  /** write_canary. */
  function WriteCanary(mem: seq<Byte>, off: nat, size: nat, canary: seq<Byte>): (r: seq<Byte>)
    requires 16 <= size && off + size <= |mem| && |canary| == 8
    ensures |r| == |mem| && CanaryAt(r, off, size, canary)
    ensures SameOutside(mem, r, off, off + size)
  {
    var m := WriteAt(mem, off, canary);
    var r := WriteAt(m, off + size - 8, canary);
    SameOutsideSlice(m, r, off + size - 8, off + size, off, off + 8);
    r
  }

  lemma CanaryElsewhere(mem: seq<Byte>, mem': seq<Byte>, lo: nat, hi: nat, off: nat, size: nat, canary: seq<Byte>)
    requires SameOutside(mem, mem', lo, hi) && 8 <= size && off + size <= |mem|
    requires off + size <= lo || hi <= off
    ensures CanaryAt(mem', off, size, canary) == CanaryAt(mem, off, size, canary)
  {
  }
}
