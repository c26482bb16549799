/**
 The Internet checksum: little-endian 16-bit words, end-around carry, complement (RFC 1071).
 */
module InternetChecksum {

  type byte = n: nat | n < 256

  const BASE: nat := 65535

  /** The sum of the 16-bit words of `s`; a byte left over counts as a low byte. */
  function WordSum(s: seq<byte>): nat {
    if |s| == 0 then 0
    else if |s| == 1 then s[0]
    else s[0] + 256 * s[1] + WordSum(s[2..])
  }

  /** The ones' complement residue of `n`: the number in 1..65535 congruent to it, 0 only for 0. */
  function Residue(n: nat): (r: nat)
    ensures r <= BASE && (r == 0 <==> n == 0)
  {
    if n == 0 then 0 else 1 + (n - 1) % BASE
  }

  function Checksum(s: seq<byte>): (c: nat)
    ensures c <= BASE
  {
    BASE - Residue(WordSum(s))
  }

  // ----- folding -----

  /** A number and its residue differ by a multiple of 65535, and no other number in 1..65535 does. */
  lemma ResidueUnique(n: nat, r: nat, q: int)
    requires n > 0 && 1 <= r <= BASE && n == r + BASE * q
    ensures Residue(n) == r
  {
    assert n - 1 == (r - 1) + BASE * q;
    assert (n - 1) % BASE == r - 1;
  }

  lemma ResidueQuotient(n: nat) returns (q: nat)
    ensures n == Residue(n) + BASE * q
  {
    q := if n == 0 then 0 else (n - 1) / BASE;
  }

  /** One turn of the folding loop keeps the residue. */
  lemma FoldStep(n: nat)
    ensures Residue(n % 65536 + n / 65536) == Residue(n)
  {
    var m := n % 65536 + n / 65536;
    assert n == m + BASE * (n / 65536);
    if n > 0 {
      var q := ResidueQuotient(m);
      ResidueUnique(n, Residue(m), q + n / 65536);
    }
  }

  lemma WordSumTail(s: seq<byte>, i: nat)
    requires i + 1 < |s|
    ensures WordSum(s[i..]) == s[i] + 256 * s[i + 1] + WordSum(s[i + 2..])
  {
    assert s[i..][2..] == s[i + 2..];
  }

  /** `csum`: adds the words in a wide accumulator, then folds the carries back in. */
  method Csum(buf: array<byte>, count: nat) returns (c: nat)
    requires count <= buf.Length
    ensures c == Checksum(buf[..count])
  {
    ghost var s := buf[..count];
    var sum: nat, addr, left := 0, 0, count;
    while left > 1
      invariant addr + left == count
      invariant sum + WordSum(s[addr..]) == WordSum(s)
    {
      WordSumTail(s, addr);
      var low: nat, high: nat := buf[addr], buf[addr + 1];
      sum := sum + low + 256 * high;
      addr, left := addr + 2, left - 2;
    }
    if left > 0 {
      sum := sum + buf[addr];
    }
    assert sum == WordSum(s);
    while sum / 65536 != 0
      invariant Residue(sum) == Residue(WordSum(s))
      decreases sum
    {
      FoldStep(sum);
      sum := sum % 65536 + sum / 65536;
    }
    assert Residue(sum) == sum;
    c := BASE - sum;
  }

  // ----- words -----

  lemma {:induction false} WordSumAppend(s: seq<byte>, t: seq<byte>)
    requires |s| % 2 == 0
    ensures WordSum(s + t) == WordSum(s) + WordSum(t)
  {
    if s == [] {
      assert s + t == t;
    } else {
      assert (s + t)[2..] == s[2..] + t;
      WordSumAppend(s[2..], t);
    }
  }

  lemma {:induction false} WordSumZeros(s: seq<byte>)
    requires forall i :: 0 <= i < |s| ==> s[i] == 0
    ensures WordSum(s) == 0
  {
    if |s| > 1 {
      WordSumZeros(s[2..]);
    }
  }

  /** A byte left over counts as if it were padded with a zero. */
  lemma {:induction false} OddIsPadded(s: seq<byte>)
    requires |s| % 2 == 1
    ensures WordSum(s) == WordSum(s + [0]) && Checksum(s) == Checksum(s + [0])
  {
    if |s| > 1 {
      assert (s + [0])[2..] == s[2..] + [0];
      OddIsPadded(s[2..]);
    }
  }

  // ----- verification of a stored checksum -----

  /** Stores a 16-bit word in memory order. */
  function Store(s: seq<byte>, k: nat, w: nat): (r: seq<byte>)
    requires k + 1 < |s| && w <= BASE
    ensures |r| == |s|
  {
    s[k := w % 256][k + 1 := w / 256]
  }

  lemma StoreAdds(s: seq<byte>, k: nat, w: nat)
    requires k % 2 == 0 && k + 1 < |s| && s[k] == s[k + 1] == 0 && w <= BASE
    ensures WordSum(Store(s, k, w)) == WordSum(s) + w
  {
    var r := Store(s, k, w);
    assert s == s[..k] + s[k..] && r == s[..k] + r[k..];
    WordSumAppend(s[..k], s[k..]);
    WordSumAppend(s[..k], r[k..]);
    WordSumTail(s, k);
    WordSumTail(r, k);
    assert r[k + 2..] == s[k + 2..];
  }

  /** Storing the checksum of a buffer in a zeroed aligned word of it makes the checksum of the whole 0. */
  lemma StoredChecksumVerifies(s: seq<byte>, k: nat)
    requires k % 2 == 0 && k + 1 < |s| && s[k] == s[k + 1] == 0
    ensures Checksum(Store(s, k, Checksum(s))) == 0
  {
    StoreAdds(s, k, Checksum(s));
    var n := WordSum(s);
    var q := ResidueQuotient(n);
    ResidueUnique(n + BASE - Residue(n), BASE, q);
  }

  /** A checksum verifies exactly when the words add up to a positive multiple of 65535. */
  lemma VerifiesExact(s: seq<byte>)
    ensures Checksum(s) == 0 <==> WordSum(s) > 0 && WordSum(s) % BASE == 0
  {
    var n := WordSum(s);
    var q := ResidueQuotient(n);
    if n > 0 && Residue(n) < BASE {
      assert n == Residue(n) + BASE * q;
      assert n % BASE == Residue(n);
    } else if n > 0 {
      assert n == BASE * (q + 1);
      assert n % BASE == 0;
    }
  }

  lemma WordAt(s: seq<byte>, k: nat)
    requires k % 2 == 0 && k + 1 < |s|
    ensures WordSum(s) == WordSum(s[..k]) + WordSum(s[k + 2..]) + s[k] + 256 * (s[k + 1] as nat)
  {
    assert s == s[..k] + s[k..];
    WordSumAppend(s[..k], s[k..]);
    WordSumTail(s, k);
  }

  /** Changing one aligned word. */
  lemma SetWord(s: seq<byte>, k: nat, a: byte, b: byte)
    requires k % 2 == 0 && k + 1 < |s|
    ensures WordSum(s[k := a][k + 1 := b]) + s[k] + 256 * (s[k + 1] as nat) == WordSum(s) + a + 256 * (b as nat)
  {
    var r := s[k := a][k + 1 := b];
    WordAt(s, k);
    WordAt(r, k);
    assert r[..k] == s[..k] && r[k + 2..] == s[k + 2..];
  }

  // ----- byte order -----

  function SwapWord(w: nat): nat {
    (w % 256) * 256 + w / 256
  }

  /** Exchanges the two bytes of every word. */
  function Swapped(s: seq<byte>): (r: seq<byte>)
    requires |s| % 2 == 0
    ensures |r| == |s|
  {
    if s == [] then [] else [s[1], s[0]] + Swapped(s[2..])
  }

  function HighSum(s: seq<byte>): nat
    requires |s| % 2 == 0
  {
    if s == [] then 0 else s[1] + HighSum(s[2..])
  }

  lemma {:induction false} SwappedSum(s: seq<byte>)
    requires |s| % 2 == 0
    ensures 256 * WordSum(s) == WordSum(Swapped(s)) + BASE * HighSum(s)
    ensures HighSum(s) <= WordSum(Swapped(s))
  {
    if s != [] {
      SwappedSum(s[2..]);
      assert Swapped(s)[2..] == Swapped(s[2..]);
    }
  }

  lemma SwapWordFacts(w: nat)
    requires w <= BASE
    ensures SwapWord(w) <= BASE && 256 * w == SwapWord(w) + BASE * (w / 256)
    ensures w > 0 ==> SwapWord(w) > 0
    ensures BASE - SwapWord(w) == SwapWord(BASE - w)
  {
    var h, l := w / 256, w % 256;
    assert w == 256 * h + l && h < 256;
    assert BASE - w == 256 * (255 - h) + (255 - l);
    assert (BASE - w) / 256 == 255 - h && (BASE - w) % 256 == 255 - l;
  }

  lemma SwapResidue(n: nat, m: nat, high: nat)
    requires 256 * n == m + BASE * high && high <= m
    ensures Residue(m) == SwapWord(Residue(n))
  {
    var r := Residue(n);
    SwapWordFacts(r);
    if n > 0 {
      var q := ResidueQuotient(n);
      var t := r / 256 + 256 * q - high;
      assert m == SwapWord(r) + BASE * t;
      ResidueUnique(m, SwapWord(r), t);
    }
  }

  /** Summing byte-swapped words byte-swaps the checksum (section 2(B) of RFC 1071). */
  lemma {:induction false} ByteOrderIndependent(s: seq<byte>)
    requires |s| % 2 == 0
    ensures Checksum(Swapped(s)) == SwapWord(Checksum(s))
  {
    SwappedSum(s);
    SwapResidue(WordSum(s), WordSum(Swapped(s)), HighSum(s));
    SwapWordFacts(Residue(WordSum(s)));
  }

  // ----- the pseudo-header -----

  /** The 12-byte pseudo-header of section 3.1 of RFC 9293. */
  function PseudoHeader(src: seq<byte>, dst: seq<byte>, proto: byte, len: nat): seq<byte>
    requires |src| == |dst| == 4 && len < 65536
  {
    src + dst + [0, proto, len / 256, len % 256]
  }

  /** The structure the code sums instead: 64-bit address fields and four bytes of padding. */
  function PaddedHeader(src: seq<byte>, dst: seq<byte>, proto: byte, len: nat): (h: seq<byte>)
    requires |src| == |dst| == 4 && len < 65536
    ensures |h| == 24
  {
    src + [0, 0, 0, 0] + dst + [0, 0, 0, 0] + [0, proto, len / 256, len % 256] + [0, 0, 0, 0]
  }

  lemma {:induction false} TwoParts(a: seq<byte>, b: seq<byte>, c: seq<byte>)
    requires |a| % 2 == |b| % 2 == 0
    ensures WordSum(a + b + c) == WordSum(a) + WordSum(b) + WordSum(c)
  {
    WordSumAppend(a, b);
    WordSumAppend(a + b, c);
  }

  lemma {:induction false} ThreeParts(a: seq<byte>, b: seq<byte>, c: seq<byte>, d: seq<byte>)
    requires |a| % 2 == |b| % 2 == |c| % 2 == 0
    ensures WordSum(a + b + c + d) == WordSum(a) + WordSum(b) + WordSum(c) + WordSum(d)
  {
    TwoParts(a, b, c);
    var abc := a + b + c;
    WordSumAppend(abc, d);
  }

  /** The padding adds nothing to the sum. */
  lemma {:induction false} PaddingIsNeutral(src: seq<byte>, dst: seq<byte>, proto: byte, len: nat, data: seq<byte>)
    requires |src| == |dst| == 4 && len < 65536
    ensures Checksum(PaddedHeader(src, dst, proto, len) + data) == Checksum(PseudoHeader(src, dst, proto, len) + data)
  {
    var z: seq<byte>, t: seq<byte> := [0, 0, 0, 0], [0, proto, len / 256, len % 256];
    WordSumZeros(z);
    ThreeParts(src, dst, t, data);
    ThreeParts(src + z, dst + z, t + z, data);
    WordSumAppend(src, z);
    WordSumAppend(dst, z);
    WordSumAppend(t, z);
    assert src + z + dst + z + t + z == (src + z) + (dst + z) + (t + z);
  }

  function Overwrite(s: seq<byte>, k: nat, x: seq<byte>): seq<byte>
    requires k + |x| <= |s|
  {
    s[..k] + x + s[k + |x|..]
  }

  lemma OverwritePart(a: seq<byte>, b: seq<byte>, c: seq<byte>, x: seq<byte>)
    requires |x| == |b|
    ensures Overwrite(a + b + c, |a|, x) == a + x + c
  {
  }

  /** `memcpy`. */
  method CopyBytes(buf: array<byte>, k: nat, x: seq<byte>)
    requires k + |x| <= buf.Length
    modifies buf
    ensures buf[..] == Overwrite(old(buf[..]), k, x)
  {
    forall i | 0 <= i < |x| {
      buf[k + i] := x[i];
    }
  }

  lemma Regroup(a: seq<byte>, b: seq<byte>, c: seq<byte>, d: seq<byte>)
    ensures a + (b + (c + d)) == (a + b) + c + d
  {
  }

  /** Writing the three parts of the structure into zeroes. */
  lemma {:induction false} FilledHeader(z: seq<byte>, src: seq<byte>, dst: seq<byte>, t: seq<byte>, rest: seq<byte>)
    requires |z| == |src| == |dst| == |t| == 4
    ensures Overwrite(Overwrite(Overwrite(z + (z + (z + (z + (z + rest)))), 0, src), 8, dst), 16, t) == src + z + dst + z + t + rest
  {
    var r := z + (z + rest);
    assert [] + z + (z + (z + r)) == z + (z + (z + r)) && [] + src == src;
    OverwritePart([], z, z + (z + r), src);
    Regroup(src, z, z, r);
    OverwritePart(src + z, z, r, dst);
    Regroup(src + z + dst, z, z, rest);
    OverwritePart(src + z + dst + z, z, rest, t);
  }

  /** Writes the structure over the first 24 bytes of a zeroed buffer. */
  method FillHeader(buf: array<byte>, src: seq<byte>, dst: seq<byte>, proto: byte, len: nat, ghost z: seq<byte>, ghost rest: seq<byte>)
    requires |src| == |dst| == 4 && len < 65536 && z == [0, 0, 0, 0] && buf[..] == z + (z + (z + (z + (z + (z + rest)))))
    modifies buf
    ensures buf[..] == PaddedHeader(src, dst, proto, len) + rest
  {
    var t: seq<byte> := [0, proto, len / 256, len % 256];
    FilledHeader(z, src, dst, t, z + rest);
    CopyBytes(buf, 0, src);
    CopyBytes(buf, 8, dst);
    CopyBytes(buf, 16, t);
    assert src + z + dst + z + t + (z + rest) == PaddedHeader(src, dst, proto, len) + rest;
  }

  /** `tcpudp_csum`: the checksum over the pseudo-header and the segment. The work buffer holds 1600 bytes. */
  method TcpUdpCsum(src: seq<byte>, dst: seq<byte>, data: seq<byte>, len: nat, proto: byte) returns (c: nat)
    requires |src| == |dst| == 4 && len <= |data| && 24 + len <= 1600
    ensures c == Checksum(PseudoHeader(src, dst, proto, len) + data[..len])
  {
    var buf := new byte[1600](_ => 0);
    ghost var z: seq<byte>, rest := [0, 0, 0, 0], buf[24..];
    assert buf[..] == z + (z + (z + (z + (z + (z + rest)))));
    FillHeader(buf, src, dst, proto, len, z, rest);
    CopyBytes(buf, 24, data[..len]);
    ghost var header := PaddedHeader(src, dst, proto, len);
    assert buf[..24 + len] == buf[..][..24 + len] == header + data[..len];
    PaddingIsNeutral(src, dst, proto, len, data[..len]);
    c := Csum(buf, 24 + len);
  }
}
