/** IP addresses as byte strings, and the bit arithmetic the routing trie does on them
    (wireguard/device/allowedips.go:35-78). Bit 0 is the most significant bit of byte 0. */
module IpBits {

  type Ip = seq<bv8>

  const IPV4_LEN := 4
  const IPV6_LEN := 16

  ghost predicate IsIp(ip: Ip) {
    |ip| == IPV4_LEN || |ip| == IPV6_LEN
  }

  /** Bit `j` of a byte, counted from the most significant one. */
  predicate ByteBit(b: bv8, j: nat)
    requires j < 8
  {
    (b >> (7 - j)) & 1 == 1
  }

  predicate Bit(ip: Ip, i: nat)
    requires i < 8 * |ip|
  {
    ByteBit(ip[i / 8], i % 8)
  }

  /** The two addresses agree on their first `n` bits. */
  ghost predicate Agree(a: Ip, b: Ip, n: nat) {
    |a| == |b| && n <= 8 * |a| && forall i: nat :: i < n ==> Bit(a, i) == Bit(b, i)
  }

  /** All bits from `cidr` on are zero. */
  ghost predicate Masked(a: Ip, cidr: nat) {
    forall i: nat :: cidr <= i < 8 * |a| ==> !Bit(a, i)
  }

  /** `n` is the length of the longest common prefix of `a` and `b`. */
  ghost predicate IsCommonLength(a: Ip, b: Ip, n: nat) {
    Agree(a, b, n) && (n < 8 * |a| ==> Bit(a, n) != Bit(b, n))
  }

  /** The first `n` bits of an address. */
  ghost function Take(ip: Ip, n: nat): (path: seq<bool>)
    requires n <= 8 * |ip|
    ensures |path| == n
    ensures forall i: nat :: i < n ==> path[i] == Bit(ip, i)
  {
    seq(n, i requires 0 <= i < n => Bit(ip, i))
  }

  // ---------- commonBits ----------

  /** A machine word, most significant bit first. */
  type Word = seq<bool>

  /** binary.BigEndian.Uint32 / Uint64 of the bytes starting at byte `at`. */
  function BigEndian(ip: Ip, at: nat, width: nat): (w: Word)
    requires 8 * at + width <= 8 * |ip|
    ensures |w| == width
  {
    seq(width, k requires 0 <= k < width => Bit(ip, 8 * at + k))
  }

  function Xor(a: Word, b: Word): (x: Word)
    requires |a| == |b|
    ensures |x| == |a|
  {
    seq(|a|, k requires 0 <= k < |a| => a[k] != b[k])
  }

  /** math/bits.LeadingZeros32 / LeadingZeros64. */
  function LeadingZeros(w: Word): (n: nat)
    ensures n <= |w|
    ensures forall k :: 0 <= k < n ==> !w[k]
    ensures n < |w| ==> w[n]
  {
    if w == [] || w[0] then 0 else 1 + LeadingZeros(w[1..])
  }

  method CommonBits(ip1: Ip, ip2: Ip) returns (n: nat)
    requires IsIp(ip1) && |ip2| == |ip1|
    ensures IsCommonLength(ip1, ip2, n)
  {
    if |ip1| == IPV4_LEN {
      var x := Xor(BigEndian(ip1, 0, 32), BigEndian(ip2, 0, 32));
      n := LeadingZeros(x);
      WordCommon(ip1, ip2, 0, 32, n);
    } else {
      var x := Xor(BigEndian(ip1, 0, 64), BigEndian(ip2, 0, 64));
      n := LeadingZeros(x);
      WordCommon(ip1, ip2, 0, 64, n);
      if n < 64 {
        return;
      }
      x := Xor(BigEndian(ip1, 8, 64), BigEndian(ip2, 8, 64));
      var low := LeadingZeros(x);
      WordCommon(ip1, ip2, 8, 64, low);
      n := 64 + low;
    }
  }

  lemma WordCommon(a: Ip, b: Ip, at: nat, width: nat, n: nat)
    requires |a| == |b| && 8 * at + width <= 8 * |a|
    requires n == LeadingZeros(Xor(BigEndian(a, at, width), BigEndian(b, at, width)))
    ensures n <= width
    ensures forall i: nat :: 8 * at <= i < 8 * at + n ==> Bit(a, i) == Bit(b, i)
    ensures n < width ==> Bit(a, 8 * at + n) != Bit(b, 8 * at + n)
  {
    var x := Xor(BigEndian(a, at, width), BigEndian(b, at, width));
    forall i: nat | 8 * at <= i < 8 * at + n
      ensures Bit(a, i) == Bit(b, i)
    {
      assert !x[i - 8 * at];
    }
  }

  // ---------- maskSelf ----------

  /** Byte `i` of net.CIDRMask(cidr, ...). */
  function MaskByte(cidr: nat, i: nat): bv8 {
    if 8 * (i + 1) <= cidr then 0xFF
    else if cidr <= 8 * i then 0
    else !(0xFF >> (cidr - 8 * i))
  }

  lemma MaskByteBit(b: bv8, cidr: nat, i: nat, j: nat)
    requires j < 8
    ensures ByteBit(b & MaskByte(cidr, i), j) <==> 8 * i + j < cidr && ByteBit(b, j)
  {
    var mask := MaskByte(cidr, i);
    if 8 * (i + 1) <= cidr {
      assert b & 0xFF == b;
    } else if cidr <= 8 * i {
      assert b & 0 == 0;
      assert ((0 as bv8) >> (7 - j)) & 1 == 0;
    } else {
      PartialMaskBit(b, cidr - 8 * i, j);
    }
  }

  /** A partly masked byte keeps exactly its first `keep` bits. */
  lemma PartialMaskBit(b: bv8, keep: nat, j: nat)
    requires keep < 8 && j < 8
    ensures (((b & !(0xFF >> keep)) >> (7 - j)) & 1 == 1) <==> j < keep && (b >> (7 - j)) & 1 == 1
  {
    match keep
    case 0 =>
    case 1 =>
    case 2 =>
    case 3 =>
    case 4 =>
    case 5 =>
    case 6 =>
    case _ =>
  }

  /** maskSelf: clear every bit from `cidr` on, byte by byte. */
  method MaskSelf(ip: Ip, cidr: nat) returns (m: Ip)
    requires cidr <= 8 * |ip|
    ensures Agree(m, ip, cidr) && Masked(m, cidr)
  {
    m := ip;
    for i := 0 to |ip|
      invariant |m| == |ip|
      invariant forall k :: 0 <= k < i ==> m[k] == ip[k] & MaskByte(cidr, k)
      invariant forall k :: i <= k < |ip| ==> m[k] == ip[k]
    {
      m := m[i := m[i] & MaskByte(cidr, i)];
    }
    forall k: nat | k < 8 * |ip|
      ensures Bit(m, k) == (k < cidr && Bit(ip, k))
    {
      MaskByteBit(ip[k / 8], cidr, k / 8, k % 8);
    }
  }
}
