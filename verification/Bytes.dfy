/** Octets, C's machine integers where they cut something off, and 64-bit big-endian numbers. */
module Bytes {
  type byte = i: int | 0 <= i < 256

  const TWO_31 := 0x8000_0000
  const TWO_32 := 0x1_0000_0000
  const TWO_64 := 0x1_0000_0000_0000_0000

  datatype Option<+T> = None | Some(value: T)

  /** What C's `(int) n` makes of a `size_t`: the low 32 bits, read as a signed number. */
  function ToInt32(n: nat): (r: int)
    ensures -TWO_31 <= r < TWO_31
    ensures n < TWO_31 <==> r == n
    ensures r <= n
  {
    var low := n % TWO_32;
    if low < TWO_31 then low else low - TWO_32
  }

  function Min(a: nat, b: nat): nat {
    if a <= b then a else b
  }

  function Pow256(k: nat): (p: nat)
    ensures p > 0
  {
    if k == 0 then 1 else 256 * Pow256(k - 1)
  }

  /** Reads octets as one number, most significant octet first. */
  function FromBigEndian(s: seq<byte>): nat {
    if s == [] then 0 else 256 * FromBigEndian(s[..|s| - 1]) + s[|s| - 1]
  }

  /** The k octets that hold the low 8k bits of n, most significant first. */
  function BigEndian(n: nat, k: nat): (s: seq<byte>)
    ensures |s| == k
  {
    if k == 0 then [] else BigEndian(n / 256, k - 1) + [n % 256]
  }

  lemma {:induction false} BigEndianRoundTrip(n: nat, k: nat)
    ensures FromBigEndian(BigEndian(n, k)) == n % Pow256(k)
  {
    if k == 0 {
    } else {
      BigEndianRoundTrip(n / 256, k - 1);
      assert BigEndian(n, k)[..k - 1] == BigEndian(n / 256, k - 1);
      SplitRemainder(n, Pow256(k - 1));
    }
  }

  /** Two octets, the first one counting 256. */
  lemma TwoOctets(a: byte, b: byte)
    ensures FromBigEndian([a, b]) == 256 * a + b
    ensures BigEndian(256 * a + b, 2) == [a, b]
  {
    assert [a][..0] == [];
    assert FromBigEndian([a]) == a;
    assert [a, b][..1] == [a];
    assert (256 * a + b) / 256 == a && (256 * a + b) % 256 == b && (a as int) % 256 == a;
    assert BigEndian(a, 1) == BigEndian(a as int / 256, 0) + [a];
  }

  /** What comes first counts most. */
  lemma {:induction false} FirstCountsMost(s: seq<byte>, t: seq<byte>)
    ensures FromBigEndian(s + t) == FromBigEndian(s) * Pow256(|t|) + FromBigEndian(t)
  {
    if t == [] {
      assert s + t == s;
    } else {
      var k := |t| - 1;
      FirstCountsMost(s, t[..k]);
      assert (s + t)[..|s + t| - 1] == s + t[..k];
      assert FromBigEndian(s) * (256 * Pow256(k)) == 256 * (FromBigEndian(s) * Pow256(k));
    }
  }

  lemma SplitRemainder(n: nat, m: nat)
    requires m > 0
    ensures n % (256 * m) == 256 * ((n / 256) % m) + n % 256
  {
    var q, r := (n / 256) / m, (n / 256) % m;
    assert n / 256 == m * q + r;
    assert n == (256 * m) * q + (256 * r + n % 256);
    RemainderIs(n, 256 * m, q, 256 * r + n % 256);
  }

  lemma RemainderIs(n: nat, m: nat, q: nat, r: nat)
    requires m > 0 && r < m && n == m * q + r
    ensures n % m == r
  {
    var d := n / m - q;
    assert n == m * (n / m) + n % m;
    assert m * d == r - n % m by { assert m * (n / m) - m * q == m * d; }
    MultipleIsFar(m, d);
  }

  lemma MultipleIsFar(m: int, d: int)
    requires m >= 0
    ensures d >= 1 ==> m * d >= m
    ensures d <= -1 ==> m * d <= -m
  {
    assert m * d == m * (d - 1) + m;
    assert m * d == m * (d + 1) - m;
    if d >= 1 { assert m * (d - 1) >= 0; } else if d <= -1 { assert m * (-d - 1) >= 0; }
  }

  /** C's `n >> (8 * i)`. */
  function Shifted(n: nat, i: nat): nat {
    if i == 0 then n else Shifted(n, i - 1) / 256
  }

  lemma {:induction false} ShiftedTail(n: nat, i: nat)
    ensures Shifted(n / 256, i) == Shifted(n, i + 1)
  {
    if i > 0 {
      ShiftedTail(n, i - 1);
    }
  }

  lemma {:induction false} BigEndianAt(n: nat, k: nat, i: nat)
    requires i < k
    ensures BigEndian(n, k)[k - 1 - i] == Shifted(n, i) % 256
  {
    if i > 0 {
      BigEndianAt(n / 256, k - 1, i - 1);
      ShiftedTail(n, i - 1);
    }
  }

  /** Eight octets hold every 64-bit number. */
  lemma BigEndian64(n: nat)
    requires n < TWO_64
    ensures FromBigEndian(BigEndian(n, 8)) == n
  {
    BigEndianRoundTrip(n, 8);
    assert Pow256(2) == 65536 && Pow256(4) == TWO_32 && Pow256(6) == 65536 * TWO_32 && Pow256(8) == TWO_64;
  }
}
