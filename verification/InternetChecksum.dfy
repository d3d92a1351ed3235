/** The Internet checksum (wireguard/tun/checksum.go). The code adds 32-bit words into a 64-bit
    accumulator and folds four times; the reference below is the 16-bit one's complement sum with
    end-around carry of section 1 of RFC 1071. */
module InternetChecksum {
  import opened Arith

  type Byte = b: int | 0 <= b < 256
  type Bytes = seq<Byte>
  type U16 = x: int | 0 <= x < 0x1_0000

  function Be16(b: Bytes, at: nat): (x: U16)
    requires at + 2 <= |b|
  {
    b[at] as int * 256 + b[at + 1] as int
  }

  function Be32(b: Bytes, at: nat): (x: nat)
    requires at + 4 <= |b|
    ensures x < 0x1_0000_0000
  {
    0x1_0000 * Be16(b, at) + Be16(b, at + 2)
  }

  /** Store a 16-bit value in network byte order. */
  function Put16(b: Bytes, at: nat, x: U16): (r: Bytes)
    requires at + 2 <= |b|
    ensures |r| == |b| && Be16(r, at) == x
    ensures forall i :: 0 <= i < |b| && i != at && i != at + 1 ==> r[i] == b[i]
  {
    b[at := x / 256][at + 1 := x % 256]
  }

  function Put32(b: Bytes, at: nat, x: nat): (r: Bytes)
    requires at + 4 <= |b| && x < 0x1_0000_0000
    ensures |r| == |b| && Be32(r, at) == x
    ensures forall i :: 0 <= i < |b| && !(at <= i < at + 4) ==> r[i] == b[i]
  {
    Put16(Put16(b, at, x / 0x1_0000), at + 2, x % 0x1_0000)
  }

  // ---------- the reference sum ----------

  /** One's complement addition: a carry out of bit 15 is added back in. */
  function AddCarry(x: U16, y: U16): U16 {
    if x + y < 0x1_0000 then x + y else x + y - 0xFFFF
  }

  /** The sum of section 1 of RFC 1071: 16-bit words, the last one padded with a zero byte. */
  function OnesSum(b: Bytes, acc: U16): U16
    decreases |b|
  {
    if b == [] then acc
    else if |b| == 1 then AddCarry(acc, b[0] as int * 256)
    else OnesSum(b[2..], AddCarry(acc, Be16(b, 0)))
  }

  // ---------- the code's sum ----------

  /** What is left of a number in 64 bits. */
  function Wrap64(x: nat): (r: nat)
    ensures r < TWO_64 && (x < TWO_64 ==> r == x)
  {
    x % TWO_64
  }

  /** 64-bit addition as the machine does it: one wrap-around at most. */
  function Add64(x: nat, y: nat): (r: nat)
    requires x < TWO_64 && y < TWO_64
    ensures r < TWO_64 && r == Wrap64(x + y)
  {
    if x + y < TWO_64 then x + y else x + y - TWO_64
  }

  /** The sum of the first `n` 32-bit words. */
  ghost function WordSum(b: Bytes, n: nat): nat
    requires 4 * n <= |b|
  {
    if n == 0 then 0 else WordSum(b, n - 1) + Be32(b, 4 * (n - 1))
  }

  /** 32-bit words, then a 16-bit word, then a padded byte, without any wrap-around. */
  ghost function Sum32(b: Bytes): nat {
    if |b| >= 4 then Be32(b, 0) + Sum32(b[4..])
    else if |b| >= 2 then Be16(b, 0) + Sum32(b[2..])
    else if |b| == 1 then b[0] as int * 256
    else 0
  }

  lemma {:induction false} WordSumShift(b: Bytes, n: nat)
    requires 0 < n && 4 * n <= |b|
    ensures WordSum(b, n) == Be32(b, 0) + WordSum(b[4..], n - 1)
  {
    if n > 1 {
      WordSumShift(b, n - 1);
      assert Be32(b, 4 * (n - 1)) == Be32(b[4..], 4 * (n - 2));
    }
  }

  lemma {:induction false} Sum32Split(b: Bytes, n: nat)
    requires 4 * n <= |b|
    ensures Sum32(b) == WordSum(b, n) + Sum32(b[4 * n..])
    decreases n
  {
    if n == 0 {
      assert b[0..] == b;
    } else {
      WordSumShift(b, n);
      Sum32Split(b[4..], n - 1);
      assert b[4..][4 * (n - 1)..] == b[4 * n..];
    }
  }

  /** `n` unrolled statements `ac += uint64(binary.BigEndian.Uint32(b[4k:4k+4]))`; `wraps` counts how
      often the accumulator wrapped around. */
  method AddWords(ac: nat, b: Bytes, n: nat) returns (r: nat, ghost wraps: nat)
    requires ac < TWO_64 && 4 * n <= |b|
    ensures r < TWO_64 && r + wraps * TWO_64 == ac + WordSum(b, n)
  {
    r, wraps := ac, 0;
    for k := 0 to n
      invariant r < TWO_64 && r + wraps * TWO_64 == ac + WordSum(b, k)
    {
      if r + Be32(b, 4 * k) >= TWO_64 { wraps := wraps + 1; }
      r := Add64(r, Be32(b, 4 * k));
    }
  }

  /** One unrolled tier: add `n` words and drop them. */
  method Tier(ac: nat, b: Bytes, n: nat) returns (r: nat, rest: Bytes, ghost wraps: nat)
    requires ac < TWO_64 && 4 * n <= |b|
    ensures r < TWO_64 && rest == b[4 * n..]
    ensures r + wraps * TWO_64 + Sum32(rest) == ac + Sum32(b)
  {
    r, wraps := AddWords(ac, b, n);
    rest := b[4 * n..];
    Sum32Split(b, n);
  }

  /** A tier that is taken at most once: `if len(b) >= 4n`. */
  method TierIf(ac: nat, b: Bytes, n: nat) returns (r: nat, rest: Bytes, ghost wraps: nat)
    requires ac < TWO_64 && |b| < 8 * n
    ensures r < TWO_64 && |rest| < 4 * n
    ensures r + wraps * TWO_64 + Sum32(rest) == ac + Sum32(b)
  {
    r, rest, wraps := ac, b, 0;
    if |b| >= 4 * n {
      r, rest, wraps := Tier(ac, b, n);
    }
  }

  /** The last three bytes at most: a 16-bit word and a byte that counts as the high half of a word. */
  method Tail(ac: nat, b: Bytes) returns (r: nat, ghost wraps: nat)
    requires ac < TWO_64 && |b| < 4
    ensures r < TWO_64 && r + wraps * TWO_64 == ac + Sum32(b)
  {
    r, wraps := ac, 0;
    var rest := b;
    if |rest| >= 2 {
      if r + Be16(rest, 0) >= TWO_64 { wraps := wraps + 1; }
      r, rest := Add64(r, Be16(rest, 0)), rest[2..];
    }
    if |rest| == 1 {
      if r + rest[0] as int * 256 >= TWO_64 { wraps := wraps + 1; }
      r := Add64(r, rest[0] as int * 256);
    }
  }

  method ChecksumNoFold(b: Bytes, initial: nat) returns (ac: nat)
    requires initial < TWO_64
    ensures ac == Wrap64(initial + Sum32(b))
  {
    hide Sum32, Wrap64;
    ac := initial;
    var rest := b;
    ghost var wraps, w := 0, 0;
    while |rest| >= 128
      invariant ac < TWO_64 && ac + wraps * TWO_64 + Sum32(rest) == initial + Sum32(b)
      decreases |rest|
    {
      ac, rest, w := Tier(ac, rest, 32);
      wraps := wraps + w;
    }
    ac, rest, w := TierIf(ac, rest, 16); wraps := wraps + w;
    ac, rest, w := TierIf(ac, rest, 8); wraps := wraps + w;
    ac, rest, w := TierIf(ac, rest, 4); wraps := wraps + w;
    ac, rest, w := TierIf(ac, rest, 2); wraps := wraps + w;
    ac, rest, w := TierIf(ac, rest, 1); wraps := wraps + w;
    ac, w := Tail(ac, rest);
    wraps := wraps + w;
    WrapsAway(ac, wraps, initial + Sum32(b));
  }

  lemma WrapsAway(ac: nat, wraps: nat, total: nat)
    requires ac < TWO_64 && ac + wraps * TWO_64 == total
    ensures ac == Wrap64(total)
  {
  }

  // ---------- folding ----------

  /** The 16-bit one's complement value of a sum: 0 for 0, and otherwise the number from 1 to
      65535 that is congruent to it modulo 65535. */
  function Ones(x: nat): (r: U16)
    ensures r == 0 <==> x == 0
  {
    if x == 0 then 0 else 1 + (x - 1) % 0xFFFF
  }

  lemma OnesUnique(x: nat, r: nat, k: int)
    requires x == r + 0xFFFF * k && 1 <= r <= 0xFFFF && x > 0
    ensures Ones(x) == r
  {
    assert x - 1 == (r - 1) + 0xFFFF * k;
  }

  lemma OnesQuotient(x: nat) returns (k: nat)
    requires x > 0
    ensures x == Ones(x) as int + 0xFFFF * k
  {
    k := (x - 1) / 0xFFFF;
  }

  /** Numbers that differ by a multiple of 65535 have the same one's complement value. */
  lemma OnesCongruent(x: nat, y: nat, k: int)
    requires x == y + 0xFFFF * k && (x == 0 <==> y == 0)
    ensures Ones(x) == Ones(y)
  {
    if y > 0 {
      var q := OnesQuotient(y);
      OnesUnique(x, Ones(y) as int, k + q);
    }
  }

  lemma OnesAdd(x: nat, y: nat)
    ensures Ones(Ones(x) as int + y) == Ones(x + y)
  {
    if x > 0 {
      var q := OnesQuotient(x);
      OnesCongruent(x + y, Ones(x) as int + y, q);
    }
  }

  function Fold(x: nat): nat {
    x / 0x1_0000 + x % 0x1_0000
  }

  lemma FoldOnes(x: nat)
    ensures Ones(Fold(x)) == Ones(x)
  {
    OnesCongruent(x, Fold(x), x / 0x1_0000);
  }

  /** Four folds bring any 64-bit value into 16 bits, and lose nothing but multiples of 65535. */
  lemma FourFolds(x: nat)
    requires x < TWO_64
    ensures Fold(Fold(Fold(Fold(x)))) == Ones(x) as int
  {
    var f1 := Fold(x);
    var f2 := Fold(f1);
    var f3 := Fold(f2);
    var f4 := Fold(f3);
    assert f1 < 0x1_0000_0000_0000 + 0x1_0000;
    assert f2 < 0x1_0000_0000 + 0x2_0000;
    assert f3 < 0x2_0002;
    assert f4 <= 0xFFFF;
    FoldOnes(x);
    FoldOnes(f1);
    FoldOnes(f2);
    FoldOnes(f3);
    if f4 > 0 {
      OnesUnique(f4, f4, 0);
    }
  }

  /** What `checksum` returns. */
  ghost function ChecksumValue(b: Bytes, initial: nat): U16 {
    Ones(Wrap64(initial + Sum32(b)))
  }

  method Checksum(b: Bytes, initial: nat) returns (sum: U16)
    requires initial < TWO_64
    ensures sum == ChecksumValue(b, initial)
  {
    hide Wrap64, Sum32, Ones;
    var ac := ChecksumNoFold(b, initial);
    FourFolds(ac);
    ac := ac / 0x1_0000 + ac % 0x1_0000;
    ac := ac / 0x1_0000 + ac % 0x1_0000;
    ac := ac / 0x1_0000 + ac % 0x1_0000;
    ac := ac / 0x1_0000 + ac % 0x1_0000;
    sum := ac;
  }

  // ---------- the code's sum is the reference sum ----------

  /** The 16-bit words of the string added up, without any carry handling. */
  ghost function Sum16(b: Bytes): nat {
    if b == [] then 0
    else if |b| == 1 then b[0] as int * 256
    else Be16(b, 0) as int + Sum16(b[2..])
  }

  lemma {:induction false} Sum16Ones(b: Bytes, acc: U16)
    ensures OnesSum(b, acc) == Ones(acc as int + Sum16(b))
    decreases |b|
  {
    if b == [] {
      if acc > 0 { OnesUnique(acc, acc, 0); }
    } else {
      var w: U16 := if |b| == 1 then b[0] as int * 256 else Be16(b, 0);
      CarryIsOnes(acc, w);
      if |b| > 1 {
        Sum16Ones(b[2..], AddCarry(acc, w));
        OnesAdd(acc as int + w as int, Sum16(b[2..]));
      }
    }
  }

  lemma CarryIsOnes(x: U16, y: U16)
    ensures AddCarry(x, y) == Ones(x as int + y as int)
  {
    var s := x as int + y as int;
    if s > 0 {
      OnesUnique(s, AddCarry(x, y) as int, if s < 0x1_0000 then 0 else 1);
    }
  }

  /** Reading 32 bits at a time changes the sum by a multiple of 65535 only. */
  lemma {:induction false} Sum32Excess(b: Bytes) returns (k: nat)
    ensures Sum32(b) == Sum16(b) + 0xFFFF * k
    ensures Sum32(b) == 0 <==> Sum16(b) == 0
    decreases |b|
  {
    if |b| >= 4 {
      k := Sum32Excess(b[4..]);
      assert b[2..][2..] == b[4..];
      assert Be16(b[2..], 0) == Be16(b, 2);
      k := k + Be16(b, 0) as int;
    } else {
      k := 0;
      if |b| >= 2 {
        assert b[2..] == [] || |b[2..]| == 1;
      }
    }
  }

  lemma {:induction false} Sum32Bound(b: Bytes)
    ensures Sum32(b) <= 0x1_0000_0000 * (|b| / 4 + 1)
    decreases |b|
  {
    if |b| >= 4 {
      Sum32Bound(b[4..]);
    }
  }

  /** The 64-bit accumulator cannot wrap on any packet, whatever 63-bit value it starts from. */
  lemma NoWrap(b: Bytes, initial: nat)
    requires |b| <= 0xFFFF && initial < 0x8000_0000_0000_0000
    ensures initial + Sum32(b) < TWO_64
  {
    Sum32Bound(b);
  }

  /** The unrolled 32-bit checksum is the simple 16-bit end-around-carry sum. */
  lemma ChecksumIsOnesSum(b: Bytes, initial: nat)
    requires initial + Sum32(b) < TWO_64
    ensures ChecksumValue(b, initial) == OnesSum(b, Ones(initial))
    ensures ChecksumValue(b, initial) == Ones(initial + Sum16(b))
  {
    var k := Sum32Excess(b);
    hide Ones, Sum16, Sum32, OnesSum;
    OnesCongruent(initial + Sum32(b), initial + Sum16(b), k);
    Sum16Ones(b, Ones(initial));
    OnesAdd(initial, Sum16(b));
  }

  // ---------- filling in a checksum field ----------

  lemma {:induction false} Sum16Put(b: Bytes, at: nat, x: U16)
    requires at % 2 == 0 && at + 2 <= |b|
    ensures Sum16(Put16(b, at, x)) + Be16(b, at) as int == Sum16(b) + x as int
    decreases |b|
  {
    var c := Put16(b, at, x);
    if at == 0 {
      assert c[2..] == b[2..];
    } else {
      Sum16Put(b[2..], at - 2, x);
      assert c[2..] == Put16(b[2..], at - 2, x);
      assert Be16(c, 0) == Be16(b, 0) && Be16(b[2..], at - 2) == Be16(b, at);
    }
  }

  /** Writing the complement of the sum into a zeroed field at an even offset makes the sum all
      ones, which is what a receiver checks. */
  lemma FillChecksum(b: Bytes, at: nat, initial: nat)
    requires at % 2 == 0 && at + 2 <= |b| <= 0xFFFF && Be16(b, at) == 0 && initial < 0x8000_0000_0000_0000
    ensures ChecksumValue(Put16(b, at, 0xFFFF - ChecksumValue(b, initial)), initial) == 0xFFFF
  {
    hide Ones, Sum16, Sum32, OnesSum, ChecksumValue, Put16;
    var sum := ChecksumValue(b, initial);
    var c := Put16(b, at, 0xFFFF - sum);
    NoWrap(b, initial);
    NoWrap(c, initial);
    ChecksumIsOnesSum(b, initial);
    ChecksumIsOnesSum(c, initial);
    Sum16Put(b, at, 0xFFFF - sum);
    var total := initial + Sum16(b);
    if total == 0 {
      OnesUnique(0xFFFF, 0xFFFF, 0);
    } else {
      var k := OnesQuotient(total);
      OnesUnique(total + 0xFFFF - sum as int, 0xFFFF, k);
    }
  }

  lemma Sum16Field(b: Bytes, at: nat)
    requires at % 2 == 0 && at + 2 <= |b|
    ensures Sum16(b) >= Be16(b, at) as int
  {
    Sum16Put(b, at, 0);
  }

  /** A sum that is not zero does not fold to zero, so its complement is not 0xFFFF. */
  lemma ChecksumNotZero(b: Bytes, initial: nat)
    requires |b| <= 0xFFFF && initial < 0x8000_0000_0000_0000 && initial + Sum16(b) > 0
    ensures ChecksumValue(b, initial) > 0
  {
    hide ChecksumValue, Sum16, Sum32, OnesSum;
    NoWrap(b, initial);
    ChecksumIsOnesSum(b, initial);
  }

  lemma FieldResidue(sum: nat, sum': nat, x: U16, y: U16)
    requires Ones(sum) == 0xFFFF && Ones(sum') == 0xFFFF && sum' + x as int == sum + y as int
    ensures x == y || (x == 0 && y == 0xFFFF) || (x == 0xFFFF && y == 0)
  {
    var j: int := OnesQuotient(sum);
    var k: int := OnesQuotient(sum');
    var d: int := y as int - x as int;
    assert d == 0xFFFF * (k - j);
  }

  lemma SameField(a: Bytes, b: Bytes, at: nat)
    requires at + 2 <= |a| == |b|
    ensures Be16(a, at) == Be16(b, at) ==> a[at] == b[at] && a[at + 1] == b[at + 1]
  {
  }

  /** Two byte strings that differ at most in one checksum field and whose sums are both right have the same field,
      up to the two forms of zero. */
  lemma ChecksumFieldForms(a: Bytes, b: Bytes, at: nat, initial: nat)
    requires at % 2 == 0 && at + 2 <= |a| == |b| <= 0xFFFF && initial < 0x8000_0000_0000_0000
    requires forall i :: 0 <= i < |a| && i != at && i != at + 1 ==> a[i] == b[i]
    requires ChecksumValue(a, initial) == 0xFFFF && ChecksumValue(b, initial) == 0xFFFF
    ensures var x, y := Be16(a, at), Be16(b, at); x == y || (x == 0 && y == 0xFFFF) || (x == 0xFFFF && y == 0)
  {
    hide ChecksumValue, Sum16, Sum32, OnesSum, Put16, Ones, Be16;
    SameField(Put16(a, at, Be16(b, at)), b, at);
    assert Put16(a, at, Be16(b, at)) == b;
    NoWrap(a, initial);
    NoWrap(b, initial);
    ChecksumIsOnesSum(a, initial);
    ChecksumIsOnesSum(b, initial);
    Sum16Put(a, at, Be16(b, at));
    FieldResidue(initial + Sum16(a), initial + Sum16(b), Be16(a, at), Be16(b, at));
  }

  /** If neither field is 0xFFFF, the strings are equal. */
  lemma ChecksumFieldUnique(a: Bytes, b: Bytes, at: nat, initial: nat)
    requires at % 2 == 0 && at + 2 <= |a| == |b| <= 0xFFFF && initial < 0x8000_0000_0000_0000
    requires forall i :: 0 <= i < |a| && i != at && i != at + 1 ==> a[i] == b[i]
    requires ChecksumValue(a, initial) == 0xFFFF && ChecksumValue(b, initial) == 0xFFFF
    requires Be16(a, at) != 0xFFFF && Be16(b, at) != 0xFFFF
    ensures a == b
  {
    hide ChecksumValue, Be16;
    ChecksumFieldForms(a, b, at, initial);
    SameField(a, b, at);
  }

  // ---------- the pseudo header ----------

  ghost function PseudoSum(protocol: Byte, src: Bytes, dst: Bytes, length: U16): nat {
    Sum32(src) + Sum32(dst) + protocol as int + length as int
  }

  function Put(x: U16): (b: Bytes)
    ensures |b| == 2 && Be16(b, 0) == x
  {
    [x / 256, x % 256]
  }

  lemma PseudoBound(protocol: Byte, src: Bytes, dst: Bytes, length: U16)
    requires |src| <= 16 && |dst| <= 16
    ensures PseudoSum(protocol, src, dst, length) < 0x100_0000_0000
  {
    Sum32Bound(src);
    Sum32Bound(dst);
  }

  lemma Sum32Pair(b: Bytes)
    requires |b| == 2
    ensures Sum32(b) == Be16(b, 0) as int
  {
  }

  lemma Sum16Pair(b: Bytes)
    requires |b| == 2
    ensures Sum16(b) == Be16(b, 0) as int
  {
  }

  method PseudoHeaderChecksumNoFold(protocol: Byte, src: Bytes, dst: Bytes, length: U16) returns (sum: nat)
    requires |src| <= 16 && |dst| <= 16
    ensures sum == PseudoSum(protocol, src, dst, length)
  {
    hide Sum32, Wrap64;
    PseudoBound(protocol, src, dst, length);
    sum := ChecksumNoFold(src, 0);
    sum := ChecksumNoFold(dst, sum);
    Sum32Pair([0, protocol]);
    sum := ChecksumNoFold([0, protocol], sum);
    Sum32Pair(Put(length));
    sum := ChecksumNoFold(Put(length), sum);
  }

  lemma {:induction false} Sum16Concat(a: Bytes, b: Bytes)
    requires |a| % 2 == 0
    ensures Sum16(a + b) == Sum16(a) + Sum16(b)
    decreases |a|
  {
    if a == [] {
      assert a + b == b;
    } else {
      Sum16Concat(a[2..], b);
      assert (a + b)[2..] == a[2..] + b;
      assert Be16(a + b, 0) == Be16(a, 0);
    }
  }

  ghost function PseudoBytes(protocol: Byte, src: Bytes, dst: Bytes, length: U16): Bytes {
    src + dst + [0, protocol] + Put(length)
  }

  lemma PseudoBytesSum(protocol: Byte, src: Bytes, dst: Bytes, length: U16)
    requires |src| % 2 == 0 && |dst| % 2 == 0
    ensures |PseudoBytes(protocol, src, dst, length)| % 2 == 0
    ensures Sum16(PseudoBytes(protocol, src, dst, length)) == Sum16(src) + Sum16(dst) + protocol as int + length as int
  {
    Sum16Pair([0, protocol]);
    Sum16Pair(Put(length));
    hide Sum16;
    Sum16Concat(src + dst + [0, protocol], Put(length));
    Sum16Concat(src + dst, [0, protocol]);
    Sum16Concat(src, dst);
  }

  /** Adding the pseudo header up separately is the same as summing its bytes in front of the
      segment, which is how the protocols define their checksums. */
  lemma PseudoHeaderIsPrefix(protocol: Byte, src: Bytes, dst: Bytes, length: U16, seg: Bytes)
    requires |src| <= 16 && |dst| <= 16 && |src| % 2 == 0 && |dst| % 2 == 0 && |seg| <= 0xFFFF
    ensures ChecksumValue(seg, PseudoSum(protocol, src, dst, length))
            == OnesSum(PseudoBytes(protocol, src, dst, length) + seg, 0)
  {
    hide Ones, Sum16, Sum32, OnesSum, ChecksumValue, PseudoBytes, Put;
    var pseudo, sum := PseudoBytes(protocol, src, dst, length), PseudoSum(protocol, src, dst, length);
    PseudoBytesSum(protocol, src, dst, length);
    PseudoBound(protocol, src, dst, length);
    NoWrap(seg, sum);
    ChecksumIsOnesSum(seg, sum);
    Sum16Concat(pseudo, seg);
    Sum16Ones(pseudo + seg, 0);
    var k1 := Sum32Excess(src);
    var k2 := Sum32Excess(dst);
    assert sum == Sum16(pseudo) + 0xFFFF * (k1 + k2);
    OnesCongruent(sum + Sum16(seg), Sum16(pseudo) + Sum16(seg), k1 + k2);
  }
}
