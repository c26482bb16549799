/**
 The client's outgoing hook: a 16-byte TCP option is inserted into every segment, which is split in
 two when it would no longer fit an Ethernet frame. Packets are byte buffers, edited in place.
 */
module Client {
  import opened InternetChecksum

  const CXT_LEN: nat := 16  // cxt_head_len
  const MTU: nat := 1500
  const PROTO_TCP: nat := 6
  const WRAP: nat := 0x1_0000_0000

  // ----- reading a packet that starts at its IP header -----

  function Be16(s: seq<byte>, k: nat): (v: nat)
    requires k + 1 < |s|
    ensures v < 65536
  {
    256 * (s[k] as nat) + s[k + 1]
  }

  function Be32(s: seq<byte>, k: nat): (v: nat)
    requires k + 3 < |s|
    ensures v < WRAP
  {
    65536 * Be16(s, k) + Be16(s, k + 2)
  }

  /** Header length in bytes: `ihl << 2`. */
  function IpLen(s: seq<byte>): nat
    requires |s| > 0
  {
    4 * (s[0] % 16)
  }

  /** `doff << 2` of a TCP header. */
  function TcpLen(t: seq<byte>): nat
    requires |t| > 12
  {
    4 * (t[12] / 16)
  }

  function Total(s: seq<byte>): nat
    requires |s| > 3
  {
    Be16(s, 2)
  }

  /** A linear buffer that holds exactly one IPv4/TCP packet. */
  predicate IsPacket(s: seq<byte>) {
    && |s| >= 40 && 20 <= IpLen(s) && IpLen(s) + 20 <= |s|
    && 20 <= TcpLen(s[IpLen(s)..]) && IpLen(s) + TcpLen(s[IpLen(s)..]) <= |s|
    && Total(s) == |s|
  }

  function Headers(s: seq<byte>): nat
    requires IsPacket(s)
  {
    IpLen(s) + TcpLen(s[IpLen(s)..])
  }

  function SeqNo(s: seq<byte>): nat
    requires IsPacket(s)
  {
    Be32(s, IpLen(s) + 4)
  }

  function Payload(s: seq<byte>): seq<byte>
    requires IsPacket(s)
  {
    s[Headers(s)..]
  }

  // ----- the rewritten packet -----

  function Put16(s: seq<byte>, k: nat, v: nat): (r: seq<byte>)
    requires k + 1 < |s| && v < 65536
    ensures |r| == |s|
  {
    s[k := v / 256][k + 1 := v % 256]
  }

  function Put32(s: seq<byte>, k: nat, v: nat): (r: seq<byte>)
    requires k + 3 < |s| && v < WRAP
    ensures |r| == |s|
  {
    Put16(Put16(s, k, v / 65536), k + 2, v % 65536)
  }

  /** The IP header with a new total length and a fresh checksum. */
  function NewIp(h: seq<byte>, total: nat): (r: seq<byte>)
    requires |h| >= 20 && total < 65536
    ensures |r| == |h|
  {
    var z := Store(Put16(h, 2, total), 10, 0);
    Store(z, 10, Checksum(z))
  }

  /** The TCP header, sixteen bytes longer by its data offset, `ahead` bytes further in the stream. */
  function NewTcp(t: seq<byte>, ahead: nat): (r: seq<byte>)
    requires |t| >= 20 && TcpLen(t) + CXT_LEN <= 60
    ensures |r| == |t|
  {
    Put32(t, 4, (Be32(t, 4) + ahead) % WRAP)[12 := t[12] + 64]
  }

  function Option(): (o: seq<byte>)
    ensures |o| == CXT_LEN
  {
    [0x20, 16] + seq(14, _ => 0x0f)
  }

  /** The option fits the TCP header, and the requested part lies within the payload. */
  predicate CanRewrite(s: seq<byte>, offset: nat, len: nat) {
    && IsPacket(s) && offset + len <= |Payload(s)| && Headers(s) + CXT_LEN + len < 65536
    && TcpLen(s[IpLen(s)..]) + CXT_LEN <= 60
  }

  /** How far into the stream the rewritten packet starts. */
  function Ahead(offset: nat, len: nat): nat {
    if len > 0 then offset else 0
  }

  lemma Be32Slice(s: seq<byte>, i: nat, j: nat, k: nat)
    requires i + k + 3 < j <= |s|
    ensures Be32(s[i..j], k) == Be32(s, i + k)
  {
  }

  lemma TcpPart(s: seq<byte>)
    requires IsPacket(s)
    ensures var t := s[IpLen(s)..Headers(s)]; |t| == TcpLen(t) == TcpLen(s[IpLen(s)..]) >= 20 && Be32(t, 4) == SeqNo(s)
  {
    var i, h := IpLen(s), Headers(s);
    assert s[i..h][12] == s[i..][12];
    Be32Slice(s, i, h, 4);
  }

  /** The packet that carries bytes `offset .. offset + len` of the payload of `s`. */
  function Rewritten(s: seq<byte>, offset: nat, len: nat): seq<byte>
    requires CanRewrite(s, offset, len)
  {
    TcpPart(s);
    var i, h := IpLen(s), Headers(s);
    NewIp(s[..i], h + CXT_LEN + len) + NewTcp(s[i..h], Ahead(offset, len)) + Option() + Payload(s)[offset..offset + len]
  }

  // ----- what the rewritten packet says -----

  lemma Put16Reads(s: seq<byte>, k: nat, v: nat)
    requires k + 1 < |s| && v < 65536
    ensures Be16(Put16(s, k, v), k) == v
  {
  }

  lemma Put32Reads(s: seq<byte>, k: nat, v: nat)
    requires k + 3 < |s| && v < WRAP
    ensures Be32(Put32(s, k, v), k) == v
  {
    Put16Reads(s, k, v / 65536);
    Put16Reads(Put16(s, k, v / 65536), k + 2, v % 65536);
  }

  lemma NewIpReads(h: seq<byte>, total: nat)
    requires |h| >= 20 && total < 65536
    ensures var r := NewIp(h, total); r[0] == h[0] && Be16(r, 2) == total && Checksum(r) == 0
    ensures forall k :: 0 <= k < |h| && k !in {2, 3, 10, 11} ==> NewIp(h, total)[k] == h[k]
  {
    Put16Reads(h, 2, total);
    StoredChecksumVerifies(Store(Put16(h, 2, total), 10, 0), 10);
  }

  lemma NewTcpReads(t: seq<byte>, ahead: nat)
    requires |t| >= 20 && TcpLen(t) + CXT_LEN <= 60
    ensures var r := NewTcp(t, ahead); TcpLen(r) == TcpLen(t) + CXT_LEN && Be32(r, 4) == (Be32(t, 4) + ahead) % WRAP
    ensures forall k :: 0 <= k < |t| && !(4 <= k < 8) && k != 12 ==> NewTcp(t, ahead)[k] == t[k]
    ensures NewTcp(t, ahead)[12] == t[12] as nat + 64
  {
    Put32Reads(t, 4, (Be32(t, 4) + ahead) % WRAP);
  }

  /** Reading a packet assembled from its parts. */
  lemma Assembled(ip: seq<byte>, tcp: seq<byte>, opt: seq<byte>, data: seq<byte>)
    requires |ip| >= 20 && |ip| == IpLen(ip) && |tcp| >= 20 && TcpLen(tcp) == |tcp| + CXT_LEN && |opt| == CXT_LEN
    requires Be16(ip, 2) == |ip| + |tcp| + CXT_LEN + |data|
    ensures var p := ip + tcp + opt + data;
            && IsPacket(p) && IpLen(p) == |ip| && Headers(p) == |ip| + |tcp| + CXT_LEN
            && Payload(p) == data && SeqNo(p) == Be32(tcp, 4) && p[..|ip|] == ip && p[|ip| + |tcp|..Headers(p)] == opt
  {
    var p := ip + tcp + opt + data;
    assert p[..|ip|] == ip && p[0] == ip[0];
    assert Be16(p, 2) == Be16(ip, 2);
    assert p[|ip|..][12] == tcp[12];
    assert p[|ip|..|ip| + |tcp|] == tcp;
    Be32Slice(p, |ip|, |ip| + |tcp|, 4);
  }

  /** The header bytes of `s` except lengths, checksum, sequence number and data offset. */
  ghost predicate HeadersKept(p: seq<byte>, s: seq<byte>)
    requires IsPacket(s) && |p| >= Headers(s)
  {
    forall k :: 0 <= k < Headers(s) && k !in {2, 3, 10, 11} && !(IpLen(s) + 4 <= k < IpLen(s) + 8) && k != IpLen(s) + 12 ==>
      p[k] == s[k]
  }

  /** `p` carries payload bytes `offset .. offset + len` of `s` at their place in the stream. */
  ghost predicate CarriesData(p: seq<byte>, s: seq<byte>, offset: nat, len: nat)
    requires CanRewrite(s, offset, len)
  {
    && IsPacket(p) && Payload(p) == Payload(s)[offset..offset + len]
    && SeqNo(p) == (SeqNo(s) + Ahead(offset, len)) % WRAP
  }

  /** Besides, it has the headers of `s` with the option added, and its IP checksum verifies. */
  ghost predicate Carries(p: seq<byte>, s: seq<byte>, offset: nat, len: nat)
    requires CanRewrite(s, offset, len)
  {
    && CarriesData(p, s, offset, len)
    && IpLen(p) == IpLen(s) && Headers(p) == Headers(s) + CXT_LEN && HeadersKept(p, s)
    && Checksum(p[..IpLen(p)]) == 0
    && p[Headers(s)..Headers(p)] == Option() && p[IpLen(s) + 12] == s[IpLen(s) + 12] as nat + 64
  }

  /** The facts about the three parts of a rewritten packet. */
  ghost predicate NewParts(ip: seq<byte>, tcp: seq<byte>, data: seq<byte>, s: seq<byte>, offset: nat, len: nat)
    requires CanRewrite(s, offset, len)
  {
    && |ip| == IpLen(s) == IpLen(ip) && |tcp| == Headers(s) - IpLen(s) && |tcp| >= 20
    && TcpLen(tcp) == |tcp| + CXT_LEN && Be16(ip, 2) == |ip| + |tcp| + CXT_LEN + len
    && Be32(tcp, 4) == (SeqNo(s) + Ahead(offset, len)) % WRAP && data == Payload(s)[offset..offset + len]
    && Checksum(ip) == 0
    && (forall k :: 0 <= k < |ip| && k !in {2, 3, 10, 11} ==> ip[k] == s[..IpLen(s)][k])
    && (forall k :: 0 <= k < |tcp| && !(4 <= k < 8) && k != 12 ==> tcp[k] == s[IpLen(s)..Headers(s)][k])
    && tcp[12] == s[IpLen(s)..Headers(s)][12] as nat + 64
  }

  lemma {:induction false} PartsCarry(ip: seq<byte>, tcp: seq<byte>, data: seq<byte>, s: seq<byte>, offset: nat, len: nat)
    requires CanRewrite(s, offset, len) && NewParts(ip, tcp, data, s, offset, len)
    ensures Carries(ip + tcp + Option() + data, s, offset, len)
  {
    Assembled(ip, tcp, Option(), data);
    KeptParts(ip, tcp, Option(), data, s);
    OffsetByte(ip, tcp, Option(), data, s);
  }

  lemma {:induction false} NewPartsHold(s: seq<byte>, offset: nat, len: nat)
    requires CanRewrite(s, offset, len) && |s[IpLen(s)..Headers(s)]| >= 20 && TcpLen(s[IpLen(s)..Headers(s)]) + CXT_LEN <= 60
    requires Be32(s[IpLen(s)..Headers(s)], 4) == SeqNo(s) && TcpLen(s[IpLen(s)..Headers(s)]) == |s[IpLen(s)..Headers(s)]|
    ensures var i, h := IpLen(s), Headers(s);
            NewParts(NewIp(s[..i], h + CXT_LEN + len), NewTcp(s[i..h], Ahead(offset, len)), Payload(s)[offset..offset + len], s, offset, len)
  {
    var i, h := IpLen(s), Headers(s);
    NewIpReads(s[..i], h + CXT_LEN + len);
    NewTcpReads(s[i..h], Ahead(offset, len));
  }

  lemma {:induction false} RewrittenCarries(s: seq<byte>, offset: nat, len: nat)
    requires CanRewrite(s, offset, len)
    ensures Carries(Rewritten(s, offset, len), s, offset, len)
  {
    var i, h := IpLen(s), Headers(s);
    TcpPart(s);
    NewPartsHold(s, offset, len);
    PartsCarry(NewIp(s[..i], h + CXT_LEN + len), NewTcp(s[i..h], Ahead(offset, len)), Payload(s)[offset..offset + len], s, offset, len);
  }

  lemma OffsetByte(ip: seq<byte>, tcp: seq<byte>, opt: seq<byte>, data: seq<byte>, s: seq<byte>)
    requires IsPacket(s) && |ip| == IpLen(s) && |tcp| > 12 && tcp[12] == s[IpLen(s)..Headers(s)][12] as nat + 64
    ensures (ip + tcp + opt + data)[IpLen(s) + 12] == s[IpLen(s) + 12] as nat + 64
  {
    assert (ip + tcp + opt + data)[|ip| + 12] == tcp[12];
  }

  lemma {:induction false} KeptParts(ip: seq<byte>, tcp: seq<byte>, opt: seq<byte>, data: seq<byte>, s: seq<byte>)
    requires IsPacket(s) && |ip| == IpLen(s) && |tcp| == Headers(s) - IpLen(s)
    requires forall k :: 0 <= k < |ip| && k !in {2, 3, 10, 11} ==> ip[k] == s[..IpLen(s)][k]
    requires forall k :: 0 <= k < |tcp| && !(4 <= k < 8) && k != 12 ==> tcp[k] == s[IpLen(s)..Headers(s)][k]
    ensures HeadersKept(ip + tcp + opt + data, s)
  {
    var i := IpLen(s);
    forall k | 0 <= k < Headers(s) && k !in {2, 3, 10, 11} && !(i + 4 <= k < i + 8) && k != i + 12
      ensures (ip + tcp + opt + data)[k] == s[k]
    {
      if k >= i {
        assert s[i..Headers(s)][k - i] == s[k];
      }
    }
  }

  // ----- editing the buffer in place -----

  /** `memmove`: the ranges may overlap. */
  method Move(a: array<byte>, to: nat, from: nat, n: nat)
    requires to + n <= a.Length && from + n <= a.Length
    modifies a
    ensures a[..] == old(a[..])[..to] + old(a[..])[from..from + n] + old(a[..])[to + n..]
  {
    forall k | 0 <= k < n {
      a[to + k] := a[from + k];
    }
  }

  method Write16(a: array<byte>, k: nat, v: nat)
    requires k + 1 < a.Length && v < 65536
    modifies a
    ensures a[..] == Put16(old(a[..]), k, v)
  {
    a[k] := v / 256;
    a[k + 1] := v % 256;
  }

  /** Updating a part of a concatenation. */
  lemma UpdatePart(x: seq<byte>, y: seq<byte>, z: seq<byte>, k: nat, v: byte)
    requires k < |y|
    ensures (x + y + z)[|x| + k := v] == x + y[k := v] + z && (x + y + z)[|x| + k] == y[k]
  {
  }

  lemma PutPart(x: seq<byte>, y: seq<byte>, z: seq<byte>, k: nat, v: nat)
    requires k + 1 < |y| && v < 65536
    ensures Put16(x + y + z, |x| + k, v) == x + Put16(y, k, v) + z && Be16(x + y + z, |x| + k) == Be16(y, k)
  {
    UpdatePart(x, y, z, k, v / 256);
    UpdatePart(x, y[k := v / 256], z, k + 1, v % 256);
  }

  lemma MovedParts(b: seq<byte>, s: seq<byte>, h: nat, offset: nat, len: nat)
    requires h + offset + len <= |s| && |b| == |s| + CXT_LEN && s <= b
    ensures b[..h + CXT_LEN] + b[h + offset..h + offset + len] + b[h + CXT_LEN + len..] ==
              s[..h] + b[h..h + CXT_LEN] + s[h + offset..h + offset + len] + b[h + CXT_LEN + len..]
  {
    assert b[..h + CXT_LEN] == s[..h] + b[h..h + CXT_LEN];
    assert b[h + offset..h + offset + len] == s[h + offset..h + offset + len];
  }

  /** A larger copy of the packet. */
  method CopyExpand(skb: array<byte>) returns (n: array<byte>)
    ensures fresh(n) && n.Length == skb.Length + CXT_LEN && skb[..] <= n[..]
  {
    n := new byte[skb.Length + CXT_LEN];
    forall k | 0 <= k < skb.Length {
      n[k] := skb[k];
    }
  }

  /** Moves the data, if there is any. */
  method MoveData(a: array<byte>, to: nat, from: nat, n: nat)
    requires to + n <= a.Length && from + n <= a.Length
    modifies a
    ensures a[..] == old(a[..])[..to] + old(a[..])[from..from + n] + old(a[..])[to + n..]
  {
    if n > 0 {
      Move(a, to, from, n);
    } else {
      assert a[..] == a[..][..to] + [] + a[..][to..];
    }
  }

  /** Copies the packet into a larger buffer and moves the chosen part of the payload behind the place of the option. */
  method CopyAndMove(skb: array<byte>, h: nat, offset: nat, len: nat) returns (n: array<byte>, ghost gap: seq<byte>, ghost rest: seq<byte>)
    requires h + offset + len <= skb.Length
    ensures fresh(n) && n.Length == skb.Length + CXT_LEN && |gap| == CXT_LEN
    ensures n[..] == skb[..][..h] + gap + skb[..][h + offset..h + offset + len] + rest
  {
    n := CopyExpand(skb);
    ghost var s, b := skb[..], n[..];
    MovedParts(b, s, h, offset, len);
    gap, rest := b[h..h + CXT_LEN], b[h + CXT_LEN + len..];
    MoveData(n, h + CXT_LEN, h + offset, len);
    assert skb[..] == s;
  }

  /** Advances the sequence number modulo 2^32. */
  method AddToSeq(n: array<byte>, offset: nat, ghost ip: seq<byte>, ghost tcp: seq<byte>, ghost rest: seq<byte>, i: nat)
    requires n[..] == ip + tcp + rest && |ip| == i && |tcp| >= 20
    modifies n
    ensures n[..] == ip + Put32(tcp, 4, (Be32(tcp, 4) + offset) % WRAP) + rest
  {
    PutPart(ip, tcp, rest, 4, 0);
    PutPart(ip, tcp, rest, 6, 0);
    assert Be32(n[..], i + 4) == Be32(tcp, 4);
    var v := (65536 * (256 * (n[i + 4] as nat) + n[i + 5]) + (256 * (n[i + 6] as nat) + n[i + 7]) + offset) % WRAP;
    PutPart(ip, tcp, rest, 4, v / 65536);
    Write16(n, i + 4, v / 65536);
    PutPart(ip, Put16(tcp, 4, v / 65536), rest, 6, v % 65536);
    Write16(n, i + 6, v % 65536);
  }

  /** Writes the context option over the sixteen bytes at `h`. */
  method PutOption(n: array<byte>, h: nat, ghost head: seq<byte>, ghost gap: seq<byte>, ghost rest: seq<byte>)
    requires n[..] == head + gap + rest && |head| == h && |gap| == CXT_LEN
    modifies n
    ensures n[..] == head + Option() + rest
  {
    n[h] := 0x20;
    n[h + 1] := CXT_LEN;
    forall k | h + 2 <= k < h + CXT_LEN {
      n[k] := 0x0f;
    }
    assert n[..h] == head && n[h..h + CXT_LEN] == Option() && n[h + CXT_LEN..] == rest;
    assert n[..] == n[..h] + n[h..h + CXT_LEN] + n[h + CXT_LEN..];
  }

  method StoreWord(a: array<byte>, k: nat, w: nat)
    requires k + 1 < a.Length && w <= 65535
    modifies a
    ensures a[..] == Store(old(a[..]), k, w)
  {
    a[k] := w % 256;
    a[k + 1] := w / 256;
  }

  lemma StoreHead(x: seq<byte>, y: seq<byte>, k: nat, w: nat)
    requires k + 1 < |x| && w < 65536
    ensures Store(x + y, k, w) == Store(x, k, w) + y && Put16(x + y, k, w) == Put16(x, k, w) + y
  {
  }

  /** Sets the total length and recomputes the header checksum. */
  method FinishIp(n: array<byte>, i: nat, total: nat, ghost ip: seq<byte>, ghost rest: seq<byte>)
    requires n[..] == ip + rest && |ip| == i >= 20 && total < 65536
    modifies n
    ensures n[..] == NewIp(ip, total) + rest
  {
    StoreHead(ip, rest, 2, total);
    Write16(n, 2, total);
    ghost var h := Put16(ip, 2, total);
    StoreHead(h, rest, 10, 0);
    StoreWord(n, 10, 0);
    ghost var z := Store(h, 10, 0);
    assert (z + rest)[..i] == z;
    var c := Csum(n, i);
    StoreHead(z, rest, 10, c);
    StoreWord(n, 10, c);
  }

  lemma Put16Same(t: seq<byte>, k: nat)
    requires k + 1 < |t|
    ensures Put16(t, k, Be16(t, k)) == t
  {
  }

  lemma SplitWords(a: nat, b: nat)
    requires b < 65536
    ensures (65536 * a + b) / 65536 == a && (65536 * a + b) % 65536 == b
  {
  }

  lemma {:induction false} Put32Same(t: seq<byte>, k: nat, high: nat, low: nat)
    requires k + 3 < |t| && high == Be16(t, k) && low == Be16(t, k + 2)
    ensures 65536 * high + low < WRAP && Put32(t, k, 65536 * high + low) == t
  {
    SplitWords(high, low);
    Put16Same(t, k);
    Put16Same(t, k + 2);
  }

  lemma {:induction false} SmallRemainder(x: nat)
    requires x < WRAP
    ensures (x + 0) % WRAP == x
  {
  }

  /** Writing a sequence number that does not change leaves the header as it is. */
  lemma {:induction false} PutSame(t: seq<byte>)
    requires |t| >= 20
    ensures Put32(t, 4, (Be32(t, 4) + 0) % WRAP) == t
  {
    var high, low := Be16(t, 4), Be16(t, 6);
    Put32Same(t, 4, high, low);
    SmallRemainder(65536 * high + low);
  }

  /** The edits of the TCP header around the option: sequence number, option, data offset. */
  method EditTcp(n: array<byte>, i: nat, h: nat, offset: nat, len: nat,
                 ghost ip: seq<byte>, ghost tcp: seq<byte>, ghost gap: seq<byte>, ghost tail: seq<byte>)
    requires n[..] == ip + tcp + (gap + tail) && |ip| == i && |tcp| == h - i && |tcp| >= 20 && |gap| == CXT_LEN
    requires TcpLen(tcp) + CXT_LEN <= 60
    modifies n
    ensures n[..] == ip + NewTcp(tcp, Ahead(offset, len)) + (Option() + tail)
  {
    if len > 0 && offset > 0 {
      AddToSeq(n, offset, ip, tcp, gap + tail, i);
    } else {
      PutSame(tcp);
    }
    ghost var moved := Put32(tcp, 4, (Be32(tcp, 4) + Ahead(offset, len)) % WRAP);
    assert ip + moved + (gap + tail) == (ip + moved) + gap + tail;
    PutOption(n, h, ip + moved, gap, tail);
    assert (ip + moved) + Option() + tail == ip + moved + (Option() + tail);
    assert moved[12] == tcp[12];
    UpdatePart(ip, moved, Option() + tail, 12, tcp[12] + 64);
    var doff, low := n[i + 12] / 16, n[i + 12] % 16;
    n[i + 12] := 16 * ((4 * doff + CXT_LEN) / 4) + low;
  }

  /** `ihl << 2`, the end of the TCP header, and the total length. */
  method ReadLengths(skb: array<byte>) returns (i: nat, h: nat, tot: nat)
    requires IsPacket(skb[..])
    ensures i == IpLen(skb[..]) && h == Headers(skb[..]) && tot == skb.Length
  {
    i := 4 * (skb[0] % 16);
    assert skb[..][i..][12] == skb[i + 12];
    h := i + 4 * (skb[i + 12] / 16);
    tot := 256 * (skb[2] as nat) + skb[3];
  }

  lemma CopyParts(s: seq<byte>, offset: nat, len: nat, gap: seq<byte>, rest: seq<byte>)
    requires CanRewrite(s, offset, len)
    ensures var i, h := IpLen(s), Headers(s); var data := s[h + offset..h + offset + len];
            s[..h] + gap + data + rest == s[..i] + s[i..h] + (gap + (data + rest))
  {
    assert s[..Headers(s)] == s[..IpLen(s)] + s[IpLen(s)..Headers(s)];
  }

  lemma {:induction false} JoinParts(s: seq<byte>, offset: nat, len: nat, rest: seq<byte>)
    requires CanRewrite(s, offset, len)
    requires |s[IpLen(s)..Headers(s)]| >= 20 && TcpLen(s[IpLen(s)..Headers(s)]) + CXT_LEN <= 60
    ensures var i, h := IpLen(s), Headers(s); var data := s[h + offset..h + offset + len];
            NewIp(s[..i], h + CXT_LEN + len) + (NewTcp(s[i..h], Ahead(offset, len)) + (Option() + (data + rest))) ==
              Rewritten(s, offset, len) + rest
    ensures |Rewritten(s, offset, len)| == Headers(s) + CXT_LEN + len
  {
    var h := Headers(s);
    assert Payload(s)[offset..offset + len] == s[h + offset..h + offset + len];
  }

  lemma {:induction false} Grouped(a: seq<byte>, b: seq<byte>, c: seq<byte>)
    ensures a + b + c == a + (b + c)
  {
  }

  /** Copy, move and TCP edits; the IP header is still that of the original. */
  method BuildTcp(skb: array<byte>, i: nat, h: nat, offset: nat, len: nat) returns (n: array<byte>, ghost rest: seq<byte>)
    requires CanRewrite(skb[..], offset, len) && i == IpLen(skb[..]) && h == Headers(skb[..])
    requires |skb[..][i..h]| >= 20 && TcpLen(skb[..][i..h]) + CXT_LEN <= 60
    ensures fresh(n) && n.Length == skb.Length + CXT_LEN
    ensures n[..] == skb[..][..i] + (NewTcp(skb[..][i..h], Ahead(offset, len)) + (Option() + (skb[..][h + offset..h + offset + len] + rest)))
  {
    ghost var s := skb[..];
    ghost var gap;
    n, gap, rest := CopyAndMove(skb, h, offset, len);
    ghost var tail := s[h + offset..h + offset + len] + rest;
    CopyParts(s, offset, len, gap, rest);
    assert n[..] == s[..i] + s[i..h] + (gap + tail);
    EditTcp(n, i, h, offset, len, s[..i], s[i..h], gap, tail);
    Grouped(s[..i], NewTcp(s[i..h], Ahead(offset, len)), Option() + tail);
    assert skb[..] == s;
  }

  method BuildPacket(skb: array<byte>, i: nat, h: nat, offset: nat, len: nat, total: nat) returns (n: array<byte>, ghost rest: seq<byte>)
    requires CanRewrite(skb[..], offset, len) && i == IpLen(skb[..]) && h == Headers(skb[..]) && total == h + CXT_LEN + len
    ensures fresh(n) && n.Length == skb.Length + CXT_LEN && n[..] == Rewritten(skb[..], offset, len) + rest
  {
    ghost var s := skb[..];
    TcpPart(s);
    n, rest := BuildTcp(skb, i, h, offset, len);
    FinishIp(n, i, total, s[..i], NewTcp(s[i..h], Ahead(offset, len)) + (Option() + (s[h + offset..h + offset + len] + rest)));
    JoinParts(s, offset, len, rest);
    assert skb[..] == s;
  }

  lemma RewrittenSize(s: seq<byte>, offset: nat, len: nat)
    requires CanRewrite(s, offset, len)
    ensures |Rewritten(s, offset, len)| == Headers(s) + CXT_LEN + len
  {
    TcpPart(s);
  }

  method RewriteCopy(skb: array<byte>, offset: nat, len: nat) returns (n: array<byte>, size: nat)
    requires CanRewrite(skb[..], offset, len)
    ensures fresh(n) && size <= n.Length && n[..size] == Rewritten(skb[..], offset, len)
  {
    var i, h, tot := ReadLengths(skb);
    var psize := tot - h;
    var dlen := if psize - offset >= len then len else psize - offset;
    var trim := psize - len;
    ghost var rest;
    n, rest := BuildPacket(skb, i, h, offset, dlen, if trim > 0 then tot - trim + CXT_LEN else tot + CXT_LEN);
    RewrittenSize(skb[..], offset, len);
    size := skb.Length + CXT_LEN - trim;
    assert n[..size] == n[..][..size];
  }

  /** `create_cxt_skb`: the packet with the option that carries `len` payload bytes from `offset` on. */
  method CreateCxtSkb(skb: array<byte>, offset: nat, len: nat) returns (p: seq<byte>)
    requires CanRewrite(skb[..], offset, len)
    ensures Carries(p, skb[..], offset, len)
  {
    var n, size := RewriteCopy(skb, offset, len);
    RewrittenCarries(skb[..], offset, len);
    p := n[..size];
  }

  // ----- the hook -----

  /** The packet passes unchanged, is replaced by others, or the kernel panics for lack of tail room. */
  datatype Verdict = Accept | Stolen(packets: seq<seq<byte>>) | Panic

  /** A TCP packet the hook has not marked, with room for the option in its TCP header. */
  predicate Eligible(s: seq<byte>)
    requires |s| >= 20 && (s[9] == PROTO_TCP ==> IsPacket(s))
  {
    s[9] == PROTO_TCP && Be16(s, 4) != 0x8888 && TcpLen(s[IpLen(s)..]) + CXT_LEN <= 60
  }

  lemma EligibleCanRewrite(s: seq<byte>, offset: nat, len: nat)
    requires IsPacket(s) && TcpLen(s[IpLen(s)..]) + CXT_LEN <= 60 && offset + len <= |Payload(s)|
    requires len <= |Payload(s)| / 2 + 1 || |s| + CXT_LEN <= MTU
    ensures CanRewrite(s, offset, len)
  {
  }

  /** `ps` is one packet with the whole payload, or two with a half each when the option would exceed the frame size. */
  ghost predicate AreSegments(ps: seq<seq<byte>>, s: seq<byte>) {
    && IsPacket(s)
    && var n := |Payload(s)|;
       if |s| + CXT_LEN > MTU then
         && |ps| == 2 && CanRewrite(s, 0, n / 2) && Carries(ps[0], s, 0, n / 2)
         && CanRewrite(s, n / 2, n - n / 2) && Carries(ps[1], s, n / 2, n - n / 2)
       else |ps| == 1 && CanRewrite(s, 0, n) && Carries(ps[0], s, 0, n)
  }

  lemma {:induction false} JoinHalves(d: seq<byte>, m: nat)
    requires m <= |d|
    ensures d[0..m] + d[m..m + (|d| - m)] == d && |d[0..m]| == m
  {
  }

  lemma Abut(s: nat, a: nat, b: nat, m: nat)
    requires s < WRAP && a == (s + 0) % WRAP && b == (s + m) % WRAP
    ensures a == s && b == (a + m) % WRAP
  {
  }

  lemma {:induction false} HalvesCarry(a: seq<byte>, b: seq<byte>, s: seq<byte>, m: nat)
    requires IsPacket(s) && m <= |Payload(s)| && CanRewrite(s, 0, m) && CanRewrite(s, m, |Payload(s)| - m)
    requires CarriesData(a, s, 0, m) && CarriesData(b, s, m, |Payload(s)| - m) && (m == |Payload(s)| ==> m == 0)
    ensures Payload(a) + Payload(b) == Payload(s) && SeqNo(a) == SeqNo(s) && SeqNo(b) == (SeqNo(a) + |Payload(a)|) % WRAP
  {
    JoinHalves(Payload(s), m);
    Abut(SeqNo(s), SeqNo(a), SeqNo(b), m);
  }

  lemma {:induction false} WholeCarries(a: seq<byte>, s: seq<byte>)
    requires IsPacket(s) && CanRewrite(s, 0, |Payload(s)|) && CarriesData(a, s, 0, |Payload(s)|)
    ensures Payload(a) == Payload(s) && SeqNo(a) == SeqNo(s)
  {
    JoinHalves(Payload(s), |Payload(s)|);
    Abut(SeqNo(s), SeqNo(a), SeqNo(a), 0);
  }

  /** The emitted packets carry the original payload in order, at sequence numbers that abut modulo 2^32. */
  lemma {:induction false} SegmentsCarryStream(ps: seq<seq<byte>>, s: seq<byte>)
    requires AreSegments(ps, s)
    ensures |ps| == 1 || |ps| == 2
    ensures |ps| == 1 ==> IsPacket(ps[0]) && Payload(ps[0]) == Payload(s) && SeqNo(ps[0]) == SeqNo(s)
    ensures |ps| == 2 ==>
              && IsPacket(ps[0]) && IsPacket(ps[1]) && Payload(ps[0]) + Payload(ps[1]) == Payload(s)
              && SeqNo(ps[0]) == SeqNo(s) && SeqNo(ps[1]) == (SeqNo(ps[0]) + |Payload(ps[0])|) % WRAP
  {
    if |s| + CXT_LEN > MTU {
      HalvesCarry(ps[0], ps[1], s, |Payload(s)| / 2);
    } else {
      WholeCarries(ps[0], s);
    }
  }

  /** A packet of at most 1500 bytes is replaced by packets of at most 1500 bytes whose data offset fits its field. */
  lemma {:induction false} SegmentsFit(ps: seq<seq<byte>>, s: seq<byte>, i: nat)
    requires AreSegments(ps, s) && Total(s) <= MTU && i < |ps|
    ensures IsPacket(ps[i]) && Total(ps[i]) == Headers(s) + CXT_LEN + |Payload(ps[i])| <= MTU
    ensures Headers(ps[i]) - IpLen(ps[i]) <= 60
  {
  }

  // ----- the TCP checksum, which is not updated -----

  /** The sum a receiver takes: pseudo-header and TCP segment. */
  function TcpBytes(p: seq<byte>): seq<byte>
    requires IsPacket(p)
  {
    PseudoHeader(p[12..16], p[16..20], PROTO_TCP, |p| - IpLen(p)) + p[IpLen(p)..]
  }

  predicate TcpVerifies(p: seq<byte>)
    requires IsPacket(p)
  {
    Checksum(TcpBytes(p)) == 0
  }

  lemma {:induction false} Fifteens(s: seq<byte>)
    requires |s| % 2 == 0 && forall i :: 0 <= i < |s| ==> s[i] == 15
    ensures WordSum(s) == 3855 * (|s| / 2)
  {
    if s != [] {
      Fifteens(s[2..]);
    }
  }

  lemma OptionSum()
    ensures WordSum(Option()) == 31113
  {
    var head: seq<byte>, tail: seq<byte> := [0x20, 16], seq(14, _ => 0x0f);
    WordSumAppend(head, tail);
    Fifteens(tail);
    assert head[2..] == [] && WordSum(head) == 4128;
  }

  lemma SwapBytes(x: nat, y: nat)
    requires x < 256 && y < 256
    ensures SwapWord(256 * x + y) == x + 256 * y
  {
    assert (256 * x + y) / 256 == x && (256 * x + y) % 256 == y;
  }

  lemma SwapHalves(v: nat)
    requires v < 65536
    ensures v / 256 < 256 && SwapWord(v) == v / 256 + 256 * (v % 256)
  {
  }

  lemma SetWordTo(s: seq<byte>, k: nat, a: byte, b: byte, x: nat, y: nat)
    requires k % 2 == 0 && k + 1 < |s| && x == s[k] + 256 * (s[k + 1] as nat) && y == a + 256 * (b as nat)
    ensures WordSum(s[k := a][k + 1 := b]) + x == WordSum(s) + y
  {
    SetWord(s, k, a, b);
  }

  /** A big-endian number in an aligned word counts as its bytes exchanged. */
  lemma PutSum(s: seq<byte>, k: nat, v: nat)
    requires k % 2 == 0 && k + 1 < |s| && v < 65536
    ensures WordSum(Put16(s, k, v)) + SwapWord(Be16(s, k)) == WordSum(s) + SwapWord(v)
  {
    SwapBytes(s[k], s[k + 1]);
    SwapHalves(v);
    SetWordTo(s, k, v / 256, v % 256, SwapWord(Be16(s, k)), SwapWord(v));
  }

  lemma SwapDifference(a: nat, b: nat) returns (q: int)
    requires a < 65536 && b < 65536
    ensures SwapWord(b) - SwapWord(a) == 256 * (b - a) + BASE * q
  {
    SwapWordFacts(a);
    SwapWordFacts(b);
    q := a / 256 - b / 256;
  }

  lemma Be32Words(s: seq<byte>, k: nat, v: nat)
    requires k + 3 < |s| && v < WRAP
    ensures Be32(s, k) == 65536 * Be16(s, k) + Be16(s, k + 2)
    ensures Be16(Put16(s, k, v / 65536), k + 2) == Be16(s, k + 2)
  {
  }

  /** Writing a sequence number moves the sum by 256 times the change, modulo 65535. */
  lemma {:induction false} Put32Sum(s: seq<byte>, k: nat, v: nat) returns (q: int)
    requires k % 2 == 0 && k + 3 < |s| && v < WRAP
    ensures WordSum(Put32(s, k, v)) == WordSum(s) + 256 * (v - Be32(s, k)) + BASE * q
  {
    var hi, lo := v / 65536, v % 65536;
    var a, b := Be16(s, k), Be16(s, k + 2);
    Be32Words(s, k, v);
    PutSum(s, k, hi);
    PutSum(Put16(s, k, hi), k + 2, lo);
    var x := SwapDifference(a, hi);
    var y := SwapDifference(b, lo);
    q := x + y - 256 * (hi - a);
  }

  lemma AddLow(s: seq<byte>, k: nat, d: nat)
    requires k % 2 == 0 && k + 1 < |s| && s[k] + d < 256
    ensures WordSum(s[k := s[k] + d]) == WordSum(s) + d
  {
    SetWord(s, k, s[k] + d, s[k + 1]);
    assert s[k := s[k] + d][k + 1 := s[k + 1]] == s[k := s[k] + d];
  }

  lemma NewTcpSum(t: seq<byte>, ahead: nat) returns (q: int)
    requires |t| >= 20 && TcpLen(t) + CXT_LEN <= 60
    ensures WordSum(NewTcp(t, ahead)) == WordSum(t) + 64 + 256 * ((Be32(t, 4) + ahead) % WRAP - Be32(t, 4)) + BASE * q
  {
    var v := (Be32(t, 4) + ahead) % WRAP;
    q := Put32Sum(t, 4, v);
    var r := Put32(t, 4, v);
    assert r[12] == t[12];
    AddLow(r, 12, 64);
  }

  lemma FieldSum(len: nat)
    requires len < 65536
    ensures WordSum([0, PROTO_TCP, len / 256, len % 256]) == 1536 + SwapWord(len)
  {
    var f: seq<byte> := [0, PROTO_TCP, len / 256, len % 256];
    SwapHalves(len);
    WordSumTail(f, 0);
    WordSumTail(f, 2);
    assert f[0..] == f && f[4..] == [];
  }

  /** The sum over a packet, part by part. */
  lemma {:induction false} TcpSumParts(src: seq<byte>, dst: seq<byte>, len: nat, t: seq<byte>, rest: seq<byte>)
    requires |src| == |dst| == 4 && len < 65536 && |t| % 2 == 0
    ensures WordSum(PseudoHeader(src, dst, PROTO_TCP, len) + (t + rest)) ==
              WordSum(src) + WordSum(dst) + 1536 + SwapWord(len) + WordSum(t) + WordSum(rest)
  {
    var f: seq<byte> := [0, PROTO_TCP, len / 256, len % 256];
    FieldSum(len);
    WordSumAppend(src, dst);
    WordSumAppend(src + dst, f);
    WordSumAppend(src + dst + f, t + rest);
    WordSumAppend(t, rest);
  }

  /** How far the sum is off after a rewrite, modulo 65535. */
  function Drift(s: seq<byte>, offset: nat, len: nat): int
    requires CanRewrite(s, offset, len)
  {
    35273 + 256 * ((SeqNo(s) + Ahead(offset, len)) % WRAP - SeqNo(s) + len - |Payload(s)|)
    + WordSum(Payload(s)[offset..offset + len]) - WordSum(Payload(s))
  }

  lemma OriginalSum(s: seq<byte>)
    requires IsPacket(s)
    ensures var i, h := IpLen(s), Headers(s);
            WordSum(TcpBytes(s)) == WordSum(s[12..16]) + WordSum(s[16..20]) + 1536 + SwapWord(|s| - i) + WordSum(s[i..h]) + WordSum(Payload(s))
  {
    var i, h := IpLen(s), Headers(s);
    assert s[i..] == s[i..h] + Payload(s);
    TcpSumParts(s[12..16], s[16..20], |s| - i, s[i..h], Payload(s));
  }

  lemma BytesUnique(a: nat, b: nat, c: nat, d: nat)
    requires b < 256 && d < 256 && 256 * a + b == 256 * c + d
    ensures a == c && b == d
  {
  }

  /** A big-endian number determines its bytes. */
  lemma Be32Bytes(s: seq<byte>, i: nat, t: seq<byte>, j: nat)
    requires i + 3 < |s| && j + 3 < |t| && Be32(s, i) == Be32(t, j)
    ensures s[i] == t[j] && s[i + 1] == t[j + 1] && s[i + 2] == t[j + 2] && s[i + 3] == t[j + 3]
  {
    SplitWords(Be16(s, i), Be16(s, i + 2));
    SplitWords(Be16(t, j), Be16(t, j + 2));
    BytesUnique(s[i], s[i + 1], t[j], t[j + 1]);
    BytesUnique(s[i + 2], s[i + 3], t[j + 2], t[j + 3]);
  }

  /** The TCP header of a packet that carries part of `s`. */
  lemma {:induction false} CarriedHeader(p: seq<byte>, s: seq<byte>, offset: nat, len: nat)
    requires CanRewrite(s, offset, len) && Carries(p, s, offset, len)
    ensures var i, h := IpLen(s), Headers(s);
            |s[i..h]| >= 20 && TcpLen(s[i..h]) + CXT_LEN <= 60 && p[i..h] == NewTcp(s[i..h], Ahead(offset, len))
  {
    var i, h := IpLen(s), Headers(s);
    TcpPart(s);
    var t, r := s[i..h], NewTcp(s[i..h], Ahead(offset, len));
    NewTcpReads(t, Ahead(offset, len));
    Be32Bytes(p, i + 4, r, 4);
    forall k | 0 <= k < h - i ensures p[i..h][k] == r[k] {
      assert p[i..h][k] == p[i + k] && t[k] == s[i + k];
      HeaderByte(p, s, i + k);
      if 4 <= k < 8 {
        assert k == 4 || k == 5 || k == 6 || k == 7;
      }
    }
  }

  lemma HeaderByte(p: seq<byte>, s: seq<byte>, k: nat)
    requires IsPacket(s) && |p| >= Headers(s) && HeadersKept(p, s) && k < Headers(s)
    ensures k !in {2, 3, 10, 11} && !(IpLen(s) + 4 <= k < IpLen(s) + 8) && k != IpLen(s) + 12 ==> p[k] == s[k]
  {
  }

  lemma {:induction false} CutTwice(p: seq<byte>, i: nat, h: nat, n: nat)
    requires i <= h && h + n <= |p|
    ensures p[i..] == p[i..h] + (p[h..h + n] + p[h + n..])
  {
  }

  lemma {:induction false} AddressesKept(p: seq<byte>, s: seq<byte>)
    requires IsPacket(s) && |p| >= Headers(s) && HeadersKept(p, s)
    ensures p[12..16] == s[12..16] && p[16..20] == s[16..20]
  {
    forall k | 12 <= k < 20 ensures p[k] == s[k] {
      HeaderByte(p, s, k);
    }
  }

  /** The parts that the TCP checksum of such a packet covers. */
  lemma {:induction false} CarriedParts(p: seq<byte>, s: seq<byte>, offset: nat, len: nat)
    requires CanRewrite(s, offset, len) && Carries(p, s, offset, len)
    ensures |s[IpLen(s)..Headers(s)]| >= 20 && TcpLen(s[IpLen(s)..Headers(s)]) + CXT_LEN <= 60
    ensures var i, h := IpLen(s), Headers(s);
            && |p| - i == h - i + CXT_LEN + len && p[12..16] == s[12..16] && p[16..20] == s[16..20]
            && p[i..] == NewTcp(s[i..h], Ahead(offset, len)) + (Option() + Payload(s)[offset..offset + len])
  {
    CarriedHeader(p, s, offset, len);
    CutTwice(p, IpLen(s), Headers(s), CXT_LEN);
    AddressesKept(p, s);
  }

  /** Pseudo-header, TCP header, option and data, as the TCP checksum covers them. */
  function Covered(src: seq<byte>, dst: seq<byte>, len: nat, t: seq<byte>, data: seq<byte>): seq<byte>
    requires |src| == |dst| == 4 && len < 65536
  {
    PseudoHeader(src, dst, PROTO_TCP, len) + (t + (Option() + data))
  }

  function CoveredTotal(src: seq<byte>, dst: seq<byte>, len: nat, t: seq<byte>, data: seq<byte>): nat {
    WordSum(src) + WordSum(dst) + 1536 + SwapWord(len) + WordSum(t) + 31113 + WordSum(data)
  }

  /** The sum over parts that include the option. */
  lemma {:induction false} PartsSum(src: seq<byte>, dst: seq<byte>, len: nat, t: seq<byte>, data: seq<byte>)
    requires |src| == |dst| == 4 && len < 65536 && |t| % 2 == 0
    ensures WordSum(Covered(src, dst, len, t, data)) == CoveredTotal(src, dst, len, t, data) > 0
  {
    TcpSumParts(src, dst, len, t, Option() + data);
    WordSumAppend(Option(), data);
    OptionSum();
  }

  /** What the TCP checksum of a rewritten packet covers. */
  function RewrittenTcp(s: seq<byte>, offset: nat, len: nat): seq<byte>
    requires CanRewrite(s, offset, len)
  {
    TcpPart(s);
    var i, h := IpLen(s), Headers(s);
    Covered(s[12..16], s[16..20], h - i + CXT_LEN + len, NewTcp(s[i..h], Ahead(offset, len)), Payload(s)[offset..offset + len])
  }

  /** The four changes together: length field, TCP header, option, payload. */
  lemma AddDrifts(w: nat, len1: nat, len2: nat, tcp1: nat, tcp2: nat, data1: nat, data2: nat, longer: int, ahead: int, x: int, y: int)
    requires tcp2 == tcp1 + 64 + 256 * ahead + BASE * x && len2 - len1 == 256 * (CXT_LEN + longer) + BASE * y
    ensures w + len2 + tcp2 + 31113 + data2 == w + len1 + tcp1 + data1 + (35273 + 256 * (ahead + longer) + data2 - data1) + BASE * (x + y)
  {
  }

  /** The sum over the parts of a rewritten packet. */
  function PartsTotal(s: seq<byte>, offset: nat, len: nat): nat
    requires CanRewrite(s, offset, len)
  {
    TcpPart(s);
    var i, h := IpLen(s), Headers(s);
    CoveredTotal(s[12..16], s[16..20], h - i + CXT_LEN + len, NewTcp(s[i..h], Ahead(offset, len)), Payload(s)[offset..offset + len])
  }

  lemma {:induction false} DriftOf(s: seq<byte>, offset: nat, len: nat) returns (q: int)
    requires CanRewrite(s, offset, len)
    ensures PartsTotal(s, offset, len) == WordSum(TcpBytes(s)) + Drift(s, offset, len) + BASE * q
  {
    var i, h := IpLen(s), Headers(s);
    TcpPart(s);
    var t, data, v := s[i..h], Payload(s)[offset..offset + len], (SeqNo(s) + Ahead(offset, len)) % WRAP;
    OriginalSum(s);
    var x := NewTcpSum(t, Ahead(offset, len));
    var y := SwapDifference(|s| - i, h - i + CXT_LEN + len);
    q := x + y;
    AddDrifts(WordSum(s[12..16]) + WordSum(s[16..20]) + 1536, SwapWord(|s| - i), SwapWord(h - i + CXT_LEN + len),
              WordSum(t), WordSum(NewTcp(t, Ahead(offset, len))), WordSum(Payload(s)), WordSum(data),
              len - |Payload(s)|, v - SeqNo(s), x, y);
  }

  lemma {:induction false} EvenHeader(t: seq<byte>)
    requires |t| > 12 && |t| == TcpLen(t)
    ensures |t| % 2 == 0
  {
  }

  lemma {:induction false} RewrittenSum(s: seq<byte>, offset: nat, len: nat)
    requires CanRewrite(s, offset, len)
    ensures WordSum(RewrittenTcp(s, offset, len)) == PartsTotal(s, offset, len) > 0
  {
    var i, h := IpLen(s), Headers(s);
    TcpPart(s);
    EvenHeader(s[i..h]);
    var src, dst, n, t, data := s[12..16], s[16..20], h - i + CXT_LEN + len, NewTcp(s[i..h], Ahead(offset, len)), Payload(s)[offset..offset + len];
    assert RewrittenTcp(s, offset, len) == Covered(src, dst, n, t, data);
    assert PartsTotal(s, offset, len) == CoveredTotal(src, dst, n, t, data);
    PartsSum(src, dst, n, t, data);
  }

  lemma {:induction false} CarriedBytes(p: seq<byte>, s: seq<byte>, offset: nat, len: nat)
    requires CanRewrite(s, offset, len) && Carries(p, s, offset, len)
    ensures TcpBytes(p) == RewrittenTcp(s, offset, len)
  {
    CarriedParts(p, s, offset, len);
  }

  lemma Congruent(a: nat, b: nat, d: int, q: int)
    requires a % BASE == 0 && b == a + d + BASE * q
    ensures b % BASE == 0 <==> d % BASE == 0
  {
  }

  /** The packet made from one whose TCP checksum verified verifies exactly when the drift is a multiple of 65535. */
  lemma TcpChecksumExact(p: seq<byte>, s: seq<byte>, offset: nat, len: nat)
    requires CanRewrite(s, offset, len) && Carries(p, s, offset, len) && TcpVerifies(s)
    ensures TcpVerifies(p) <==> Drift(s, offset, len) % BASE == 0
  {
    RewrittenSum(s, offset, len);
    var q := DriftOf(s, offset, len);
    CarriedBytes(p, s, offset, len);
    VerifiesExact(TcpBytes(s));
    VerifiesExact(TcpBytes(p));
    Congruent(WordSum(TcpBytes(s)), WordSum(TcpBytes(p)), Drift(s, offset, len), q);
  }

  lemma WholeDrift(s: seq<byte>)
    requires IsPacket(s) && CanRewrite(s, 0, |Payload(s)|)
    ensures Drift(s, 0, |Payload(s)|) == 35273 && Drift(s, 0, |Payload(s)|) % BASE != 0
  {
    JoinHalves(Payload(s), |Payload(s)|);
    assert Payload(s)[0..|Payload(s)|] == Payload(s);
    assert SeqNo(s) < WRAP;
  }

  /** The packet with the TCP checksum that its sender computes over a zeroed field. */
  function Sent(s: seq<byte>): (p: seq<byte>)
    requires IsPacket(s)
    ensures |p| == |s|
  {
    Store(s, IpLen(s) + 16, Checksum(TcpBytes(s)))
  }

  lemma StoreBehind(x: seq<byte>, y: seq<byte>, k: nat, w: nat)
    requires k + 1 < |y| && w <= BASE
    ensures Store(x + y, |x| + k, w) == x + Store(y, k, w)
  {
  }

  lemma SentKeeps(s: seq<byte>)
    requires IsPacket(s)
    ensures var p, i := Sent(s), IpLen(s);
            IsPacket(p) && IpLen(p) == i && p[12..16] == s[12..16] && p[16..20] == s[16..20] && p[i..] == Store(s[i..], 16, Checksum(TcpBytes(s)))
  {
    var p, i := Sent(s), IpLen(s);
    assert p[0] == s[0] && p[2] == s[2] && p[3] == s[3];
    assert p[i..] == Store(s[i..], 16, Checksum(TcpBytes(s)));
    assert p[i..][12] == s[i..][12];
  }

  /** Senders produce packets whose TCP checksum verifies. */
  lemma SentVerifies(s: seq<byte>)
    requires IsPacket(s) && s[IpLen(s) + 16] == s[IpLen(s) + 17] == 0
    ensures IsPacket(Sent(s)) && TcpVerifies(Sent(s))
  {
    var i := IpLen(s);
    var x := PseudoHeader(s[12..16], s[16..20], PROTO_TCP, |s| - i);
    SentKeeps(s);
    StoreBehind(x, s[i..], 16, Checksum(TcpBytes(s)));
    StoredChecksumVerifies(TcpBytes(s), 28);
  }

  /** A smallest such packet: forty bytes, no payload. */
  lemma {:induction false} VerifiedPacket() returns (s: seq<byte>)
    ensures |s| == 40 && IsPacket(s) && TcpVerifies(s) && CanRewrite(s, 0, |Payload(s)|)
  {
    var z: seq<byte> := seq(40, k => if k == 0 then 0x45 else if k == 3 then 40 else if k == 9 then 6 else if k == 32 then 0x50 else 0);
    assert IpLen(z) == 20 && z[20..][12] == 0x50;
    SentVerifies(z);
    SentKeeps(z);
    s := Sent(z);
    assert s[20..][12] == 0x50;
  }

  lemma {:induction false} WholeChecksum(p: seq<byte>, s: seq<byte>)
    requires IsPacket(s) && CanRewrite(s, 0, |Payload(s)|) && Carries(p, s, 0, |Payload(s)|) && TcpVerifies(s)
    ensures IsPacket(p) && !TcpVerifies(p)
  {
    TcpChecksumExact(p, s, 0, |Payload(s)|);
    WholeDrift(s);
  }

  /** `p` carries a part of `s`, and its TCP checksum verifies exactly when the drift happens to vanish. */
  ghost predicate ChecksumByDrift(p: seq<byte>, s: seq<byte>, offset: nat, len: nat) {
    CanRewrite(s, offset, len) && IsPacket(p) && (TcpVerifies(p) <==> Drift(s, offset, len) % BASE == 0)
  }

  lemma {:induction false} PartChecksum(p: seq<byte>, s: seq<byte>, offset: nat, len: nat)
    requires CanRewrite(s, offset, len) && Carries(p, s, offset, len) && TcpVerifies(s)
    ensures ChecksumByDrift(p, s, offset, len)
  {
    TcpChecksumExact(p, s, offset, len);
  }

  lemma {:induction false} FirstHalfChecksum(ps: seq<seq<byte>>, s: seq<byte>)
    requires AreSegments(ps, s) && |s| + CXT_LEN > MTU && TcpVerifies(s)
    ensures |ps| == 2 && ChecksumByDrift(ps[0], s, 0, |Payload(s)| / 2)
  {
    PartChecksum(ps[0], s, 0, |Payload(s)| / 2);
  }

  lemma {:induction false} SecondHalfChecksum(ps: seq<seq<byte>>, s: seq<byte>)
    requires AreSegments(ps, s) && |s| + CXT_LEN > MTU && TcpVerifies(s)
    ensures |ps| == 2 && ChecksumByDrift(ps[1], s, |Payload(s)| / 2, |Payload(s)| - |Payload(s)| / 2)
  {
    PartChecksum(ps[1], s, |Payload(s)| / 2, |Payload(s)| - |Payload(s)| / 2);
  }

  /**
   A packet whose TCP checksum verified and that is not split leaves with one that never verifies; for a half it
   depends on the drift.
   */
  lemma {:induction false} EmittedChecksums(ps: seq<seq<byte>>, s: seq<byte>)
    requires AreSegments(ps, s) && TcpVerifies(s)
    ensures |ps| == 1 ==> IsPacket(ps[0]) && !TcpVerifies(ps[0])
    ensures |ps| == 2 ==>
              var n := |Payload(s)|; ChecksumByDrift(ps[0], s, 0, n / 2) && ChecksumByDrift(ps[1], s, n / 2, n - n / 2)
  {
    if |s| + CXT_LEN > MTU {
      FirstHalfChecksum(ps, s);
      SecondHalfChecksum(ps, s);
    } else {
      WholeChecksum(ps[0], s);
    }
  }

  class Hook {
    var txPktNum: nat

    constructor ()
      ensures txPktNum == 0
    {
      txPktNum := 0;
    }

    /** `parse_tx_skb`; `eth0` and `eth1` are the first bytes of the source MAC address. */
    method ParseTxSkb(skb: array<byte>, eth0: byte, eth1: byte, tailroom: nat) returns (v: Verdict)
      requires skb.Length >= 20 && (skb[9] == PROTO_TCP ==> IsPacket(skb[..]))
      modifies this
      ensures v.Accept? <==> (eth0 == 0xff && eth1 == 0) || !Eligible(skb[..])
      ensures v.Panic? <==> !v.Accept? && tailroom < CXT_LEN
      ensures v.Stolen? ==> AreSegments(v.packets, skb[..])
      ensures txPktNum == old(txPktNum) + if v.Accept? then 0 else 1
    {
      if eth0 == 0xff && eth1 == 0 {
        return Accept;
      }
      var id := 256 * (skb[4] as nat) + skb[5];
      if skb[9] != PROTO_TCP || id == 0x8888 {
        return Accept;
      }
      var i, h, tot := ReadLengths(skb);
      var loptsize := 60 - (h - i);
      if loptsize < CXT_LEN {
        return Accept;
      }
      txPktNum := txPktNum + 1;
      if tailroom < CXT_LEN {
        return Panic;  // skb_put
      }
      var ps := Segment(skb);
      return Stolen(ps);
    }
  }

  method CreatePart(skb: array<byte>, offset: nat, len: nat) returns (p: seq<byte>)
    requires IsPacket(skb[..]) && TcpLen(skb[..][IpLen(skb[..])..]) + CXT_LEN <= 60
    requires offset + len <= |Payload(skb[..])| && len <= |Payload(skb[..])| / 2 + 1
    ensures CanRewrite(skb[..], offset, len) && Carries(p, skb[..], offset, len)
  {
    EligibleCanRewrite(skb[..], offset, len);
    p := CreateCxtSkb(skb, offset, len);
  }

  method Halves(skb: array<byte>, psize: nat) returns (ps: seq<seq<byte>>)
    requires IsPacket(skb[..]) && TcpLen(skb[..][IpLen(skb[..])..]) + CXT_LEN <= 60
    requires psize == |Payload(skb[..])| && skb.Length + CXT_LEN > MTU
    ensures AreSegments(ps, skb[..])
  {
    var first := CreatePart(skb, 0, psize / 2);
    var second := CreatePart(skb, psize / 2, psize - psize / 2);
    TwoSegments(first, second, skb[..]);
    ps := [first, second];
  }

  lemma {:induction false} TwoSegments(p: seq<byte>, q: seq<byte>, s: seq<byte>)
    requires IsPacket(s) && |s| + CXT_LEN > MTU
    requires var n := |Payload(s)|;
             && CanRewrite(s, 0, n / 2) && Carries(p, s, 0, n / 2)
             && CanRewrite(s, n / 2, n - n / 2) && Carries(q, s, n / 2, n - n / 2)
    ensures AreSegments([p, q], s)
  {
  }

  method Segment(skb: array<byte>) returns (ps: seq<seq<byte>>)
    requires IsPacket(skb[..]) && TcpLen(skb[..][IpLen(skb[..])..]) + CXT_LEN <= 60
    ensures AreSegments(ps, skb[..])
  {
    ghost var s := skb[..];
    var i, h, tot := ReadLengths(skb);
    var psize := tot - h;
    if tot + CXT_LEN > MTU {
      ps := Halves(skb, psize);
    } else {
      EligibleCanRewrite(s, 0, psize);
      var whole := CreateCxtSkb(skb, 0, psize);
      ps := [whole];
    }
  }
}
