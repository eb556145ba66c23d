/**
 * The secure-payload container header, `struct optee_header`: a 28-byte
 * little-endian record that precedes the secure image in the embedded blob,
 * and the fail-fast validation main_init_sec applies to it.
 */
module OpteeHeader {
  import opened Uint32
  import opened Halting

  const HEADER_SIZE: nat := 28
  const OPTEE_MAGIC: uint32 := 0x4554504f
  /** The magic as it is stored: the ASCII characters "OPTE". */
  const OPTE_BYTES: seq<uint8> := [0x4f, 0x50, 0x54, 0x45]
  const OPTEE_VERSION: uint8 := 1
  const OPTEE_ARCH_ARM32: uint8 := 0
  const OPTEE_ARCH_ARM64: uint8 := 1

  /** The fields of the header, in their order in memory. */
  datatype Header = Header(
    magic: uint32,           // offset 0
    version: uint8,          // offset 4
    arch: uint8,             // offset 5
    flags: uint16,           // offset 6
    initSize: uint32,        // offset 8
    initLoadAddrHi: uint32,  // offset 12
    initLoadAddrLo: uint32,  // offset 16
    initMemUsage: uint32,    // offset 20
    pagedSize: uint32)       // offset 24

  /** 256 to the power `n`: one more than the largest value `n` bytes hold. */
  function Pow256(n: nat): (r: nat)
    ensures r >= 1
  {
    if n == 0 then 1 else 0x100 * Pow256(n - 1)
  }

  /**
   * The value of a little-endian field, the way the ARM target lays out its
   * multi-byte integers: the first byte is the least significant.
   */
  function LeValue(b: seq<uint8>): (r: nat)
    ensures r < Pow256(|b|)
  {
    if |b| == 0 then 0 else b[0] + 0x100 * LeValue(b[1..])
  }

  /** The `n` bytes that store `x` little-endian (the low `n` bytes of `x`). */
  function LeBytes(x: nat, n: nat): (b: seq<uint8>)
    ensures |b| == n
  {
    if n == 0 then [] else [x % 0x100] + LeBytes(x / 0x100, n - 1)
  }

  /** Every byte string is the encoding of the value it holds. */
  lemma {:induction false} LeBytesOfLeValue(b: seq<uint8>)
    ensures LeBytes(LeValue(b), |b|) == b
  {
    if |b| > 0 {
      LeBytesOfLeValue(b[1..]);
      var x := LeValue(b);
      assert x % 0x100 == b[0] && x / 0x100 == LeValue(b[1..]);
      assert b == [b[0]] + b[1..];
    }
  }

  /** A value that fits in `n` bytes reads back unchanged from its encoding. */
  lemma {:induction false} LeValueOfLeBytes(x: nat, n: nat)
    requires x < Pow256(n)
    ensures LeValue(LeBytes(x, n)) == x
  {
    if n > 0 {
      assert x / 0x100 < Pow256(n - 1);
      LeValueOfLeBytes(x / 0x100, n - 1);
      assert LeBytes(x, n)[1..] == LeBytes(x / 0x100, n - 1);
    }
  }

  /** A uint16_t field: a value whose encoding is exactly the two bytes read. */
  function Le16(b: seq<uint8>): (r: uint16)
    requires |b| == 2
    ensures LeBytes(r, 2) == b
  {
    assert Pow256(2) == 0x1_0000;
    LeBytesOfLeValue(b);
    LeValue(b)
  }

  /** A uint32_t field: a value whose encoding is exactly the four bytes read. */
  function Le32(b: seq<uint8>): (r: uint32)
    requires |b| == 4
    ensures LeBytes(r, 4) == b
  {
    assert Pow256(4) == TWO_32;
    LeBytesOfLeValue(b);
    LeValue(b)
  }

  /** The 28 bytes that the header occupies in the blob. */
  function EncodeHeader(h: Header): (b: seq<uint8>)
    ensures |b| == HEADER_SIZE
  {
    LeBytes(h.magic, 4) + [h.version, h.arch] + LeBytes(h.flags, 2)
    + LeBytes(h.initSize, 4) + LeBytes(h.initLoadAddrHi, 4) + LeBytes(h.initLoadAddrLo, 4)
    + LeBytes(h.initMemUsage, 4) + LeBytes(h.pagedSize, 4)
  }

  /**
   * The header as the struct copy out of the blob sees it: each field holds
   * exactly the bytes at its offset.
   */
  function ParseHeader(b: seq<uint8>): (h: Header)
    requires |b| == HEADER_SIZE
    ensures LeBytes(h.magic, 4) == b[0..4] && h.version == b[4] && h.arch == b[5]
    ensures LeBytes(h.flags, 2) == b[6..8] && LeBytes(h.initSize, 4) == b[8..12]
    ensures LeBytes(h.initLoadAddrHi, 4) == b[12..16] && LeBytes(h.initLoadAddrLo, 4) == b[16..20]
    ensures LeBytes(h.initMemUsage, 4) == b[20..24] && LeBytes(h.pagedSize, 4) == b[24..28]
  {
    Header(Le32(b[0..4]), b[4], b[5], Le16(b[6..8]), Le32(b[8..12]),
           Le32(b[12..16]), Le32(b[16..20]), Le32(b[20..24]), Le32(b[24..28]))
  }

  /** Every 28 bytes are the encoding of the header they hold: no byte is lost or reordered. */
  lemma {:induction false} EncodeParseHeader(b: seq<uint8>)
    requires |b| == HEADER_SIZE
    ensures EncodeHeader(ParseHeader(b)) == b
  {
    assert b == b[0..4] + [b[4], b[5]] + b[6..8] + b[8..12] + b[12..16] + b[16..20]
                + b[20..24] + b[24..28];
  }

  /** Decoding what was encoded gives every field back unchanged. */
  lemma {:induction false} ParseEncodeHeader(h: Header)
    ensures ParseHeader(EncodeHeader(h)) == h
  {
    var b := EncodeHeader(h);
    assert Pow256(2) == 0x1_0000 && Pow256(4) == TWO_32;
    assert b[0..4] == LeBytes(h.magic, 4);
    assert b[6..8] == LeBytes(h.flags, 2);
    assert b[8..12] == LeBytes(h.initSize, 4);
    assert b[12..16] == LeBytes(h.initLoadAddrHi, 4);
    assert b[16..20] == LeBytes(h.initLoadAddrLo, 4);
    assert b[20..24] == LeBytes(h.initMemUsage, 4);
    assert b[24..28] == LeBytes(h.pagedSize, 4);
    LeValueOfLeBytes(h.magic, 4);
    LeValueOfLeBytes(h.flags, 2);
    LeValueOfLeBytes(h.initSize, 4);
    LeValueOfLeBytes(h.initLoadAddrHi, 4);
    LeValueOfLeBytes(h.initLoadAddrLo, 4);
    LeValueOfLeBytes(h.initMemUsage, 4);
    LeValueOfLeBytes(h.pagedSize, 4);
  }

  /** The stored magic reads "OPTE" exactly when the field holds OPTEE_MAGIC. */
  lemma MagicBytes(h: Header)
    ensures EncodeHeader(h)[..5] == OPTE_BYTES + [1] <==> h.magic == OPTEE_MAGIC && h.version == OPTEE_VERSION
  {
    var e := EncodeHeader(h)[..5];
    assert e == LeBytes(h.magic, 4) + [h.version];
    assert e[..4] == LeBytes(h.magic, 4) && e[4] == h.version;
    assert LeBytes(OPTEE_MAGIC, 4) == OPTE_BYTES;
    assert Pow256(4) == TWO_32;
    LeValueOfLeBytes(h.magic, 4);
    assert LeValue(OPTE_BYTES) == OPTEE_MAGIC;
  }

  /**
   * The magic/version test of line 229: true when the header is refused,
   * which is when its stored bytes do not start with "OPTE" followed by
   * version 1.
   */
  predicate WrongMagicOrVersion(h: Header): (r: bool)
    ensures r <==> EncodeHeader(h)[..5] != OPTE_BYTES + [1]
  {
    MagicBytes(h);
    h.magic != OPTEE_MAGIC || h.version != OPTEE_VERSION
  }

  /**
   * The header checks of main_init_sec, in their order: the blob must hold a
   * whole header, then magic and version must match, then the high half of
   * the load address must be zero. A header that passes is returned with the
   * fields read from the first 28 bytes of the blob.
   */
  function ReadHeader(blob: seq<uint8>): (r: Result<Header>)
    ensures |blob| < HEADER_SIZE ==> r == Failure(Halt.BlobTooShort)
    ensures |blob| >= HEADER_SIZE && WrongMagicOrVersion(ParseHeader(blob[..HEADER_SIZE]))
            ==> r == Failure(Halt.BadMagicOrVersion)
    ensures |blob| >= HEADER_SIZE && !WrongMagicOrVersion(ParseHeader(blob[..HEADER_SIZE]))
            && ParseHeader(blob[..HEADER_SIZE]).initLoadAddrHi != 0
            ==> r == Failure(Halt.LoadAddrAbove4GiB)
    ensures r.Success? <==>
              |blob| >= HEADER_SIZE
              && !WrongMagicOrVersion(ParseHeader(blob[..HEADER_SIZE]))
              && ParseHeader(blob[..HEADER_SIZE]).initLoadAddrHi == 0
    ensures r.Failure? ==> r.error in {Halt.BlobTooShort, Halt.BadMagicOrVersion, Halt.LoadAddrAbove4GiB}
    ensures r.Success? ==> r.value == ParseHeader(blob[..HEADER_SIZE])
    ensures r.Success? ==> r.value.magic == OPTEE_MAGIC && r.value.version == OPTEE_VERSION
                           && r.value.initLoadAddrHi == 0
  {
    if |blob| < HEADER_SIZE then Failure(Halt.BlobTooShort)
    else
      var h := ParseHeader(blob[..HEADER_SIZE]);
      if WrongMagicOrVersion(h) then Failure(Halt.BadMagicOrVersion)
      else if h.initLoadAddrHi != 0 then Failure(Halt.LoadAddrAbove4GiB)
      else Success(h)
  }

  /**
   * A blob that starts with an encoded header: it is refused for a bad
   * magic or version, then for a high load address, and otherwise accepted
   * with every field unchanged, whatever the bytes that follow.
   */
  lemma {:induction false} ReadEncodedHeader(h: Header, body: seq<uint8>)
    ensures WrongMagicOrVersion(h) ==> ReadHeader(EncodeHeader(h) + body) == Failure(Halt.BadMagicOrVersion)
    ensures !WrongMagicOrVersion(h) && h.initLoadAddrHi != 0
            ==> ReadHeader(EncodeHeader(h) + body) == Failure(Halt.LoadAddrAbove4GiB)
    ensures !WrongMagicOrVersion(h) && h.initLoadAddrHi == 0
            ==> ReadHeader(EncodeHeader(h) + body) == Success(h)
  {
    var blob := EncodeHeader(h) + body;
    assert blob[..HEADER_SIZE] == EncodeHeader(h);
    ParseEncodeHeader(h);
  }
}
