/** Unsigned big-endian integers of 32 and 64 bits inside byte strings. */
module BigEndian {
  import opened Unicode

  function U32(n: int): (b: Bytes)
    requires 0 <= n < 0x1_0000_0000
    ensures |b| == 4
  {
    [n / 0x1000000, n / 0x10000 % 0x100, n / 0x100 % 0x100, n % 0x100]
  }

  function U64(n: int): (b: Bytes)
    requires 0 <= n < 0x1_0000_0000_0000_0000
    ensures |b| == 8
  {
    U32(n / 0x1_0000_0000) + U32(n % 0x1_0000_0000)
  }

  /** `readUInt32BE`. */
  function Read32(b: Bytes): (n: int)
    requires |b| == 4
    ensures 0 <= n < 0x1_0000_0000
  {
    0x1000000 * (b[0] as int) + 0x10000 * (b[1] as int) + 0x100 * (b[2] as int) + b[3] as int
  }

  /** `readBigUInt64BE`. */
  function Read64(b: Bytes): (n: int)
    requires |b| == 8
    ensures 0 <= n < 0x1_0000_0000_0000_0000
  {
    0x1_0000_0000 * Read32(b[..4]) + Read32(b[4..])
  }

  lemma Read32OfU32(n: int)
    requires 0 <= n < 0x1_0000_0000
    ensures Read32(U32(n)) == n
  {
    assert n / 0x100 == 0x100 * (n / 0x10000) + n / 0x100 % 0x100;
    assert n / 0x10000 == 0x100 * (n / 0x1000000) + n / 0x10000 % 0x100;
  }

  lemma U32OfRead32(b: Bytes)
    requires |b| == 4
    ensures U32(Read32(b)) == b
  {
    var n := Read32(b);
    assert n / 0x100 == 0x10000 * (b[0] as int) + 0x100 * (b[1] as int) + b[2] as int;
    assert n / 0x10000 == 0x100 * (b[0] as int) + b[1] as int;
  }

  lemma Read64OfU64(n: int)
    requires 0 <= n < 0x1_0000_0000_0000_0000
    ensures Read64(U64(n)) == n
  {
    Read32OfU32(n / 0x1_0000_0000);
    Read32OfU32(n % 0x1_0000_0000);
    assert U64(n)[..4] == U32(n / 0x1_0000_0000) && U64(n)[4..] == U32(n % 0x1_0000_0000);
  }

  lemma U64OfRead64(b: Bytes)
    requires |b| == 8
    ensures U64(Read64(b)) == b
  {
    U32OfRead32(b[..4]);
    U32OfRead32(b[4..]);
    Halves(Read32(b[..4]), Read32(b[4..]));
    assert b == b[..4] + b[4..];
  }

  lemma Halves(high: int, low: int)
    requires 0 <= low < 0x1_0000_0000
    ensures var n := 0x1_0000_0000 * high + low; n / 0x1_0000_0000 == high && n % 0x1_0000_0000 == low
  {
  }
}
