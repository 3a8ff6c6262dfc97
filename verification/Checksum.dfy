/** The Internet checksum of network/socket_buffer.c and its use for TCP segments. */
module Checksum {
  import opened Basics

  /** The words of a buffer as the code reads them; a last odd byte counts as a word of its own. */
  function Words(b: seq<Byte>): seq<nat> {
    if |b| == 0 then []
    else if |b| == 1 then [b[0] as nat]
    else [Word(b[0], b[1])] + Words(b[2..])
  }

  function Sum(ws: seq<nat>): nat {
    if ws == [] then 0 else ws[0] + Sum(ws[1..])
  }

  /** Adding the carries back until the sum fits in 16 bits. */
  function Fold(s: nat): (r: nat)
    ensures r < 0x1_0000
  {
    if s >= 0x1_0000 then Fold(s % 0x1_0000 + s / 0x1_0000) else s
  }

  function Complement(s: nat): nat
    requires s < 0x1_0000
  {
    0xFFFF - s
  }

  function FoldedSum(b: seq<Byte>): (r: nat)
    ensures r < 0x1_0000
  {
    Fold(Sum(Words(b)))
  }

  function Check(b: seq<Byte>): nat {
    Complement(FoldedSum(b))
  }

  /** The emergency fold of the accumulator when its 32-bit sign bit comes on; the shift is that of a
      negative number. */
  function FoldHigh(s: nat): int {
    if s >= 0x8000_0000 then s % 0x1_0000 + s / 0x1_0000 - 0x1_0000 else s
  }

  // ------------------------------------------------------------ the standard's definition

  /** Sixteen-bit one's-complement addition: the carry out of the top goes back in at the bottom. */
  function OnesAdd(a: nat, b: nat): nat {
    if a + b >= 0x1_0000 then a + b - 0xFFFF else a + b
  }

  function OnesSum(ws: seq<nat>): nat {
    if ws == [] then 0 else OnesAdd(OnesSum(ws[..|ws| - 1]), ws[|ws| - 1])
  }

  predicate Small(ws: seq<nat>) {
    forall i :: 0 <= i < |ws| ==> ws[i] < 0x1_0000
  }

  // ------------------------------------------------------------ sums

  lemma {:induction false} WordsSmall(b: seq<Byte>)
    ensures Small(Words(b)) && |Words(b)| == (|b| + 1) / 2
    decreases |b|
  {
    if |b| >= 2 { WordsSmall(b[2..]); }
  }

  lemma {:induction false} SumAppend(a: seq<nat>, b: seq<nat>)
    ensures Sum(a + b) == Sum(a) + Sum(b)
    decreases |a|
  {
    if a == [] {
      assert a + b == b;
    } else {
      SumAppend(a[1..], b);
      assert (a + b)[1..] == a[1..] + b;
    }
  }

  lemma {:induction false} SumBound(ws: seq<nat>)
    requires Small(ws)
    ensures Sum(ws) <= 0xFFFF * |ws|
    decreases |ws|
  {
    if ws != [] { SumBound(ws[1..]); }
  }

  lemma {:induction false} WordsAppend(a: seq<Byte>, b: seq<Byte>)
    requires |a| % 2 == 0
    ensures Words(a + b) == Words(a) + Words(b)
    decreases |a|
  {
    if a == [] {
      assert a + b == b;
    } else {
      WordsAppend(a[2..], b);
      assert (a + b)[2..] == a[2..] + b;
    }
  }

  /** For every IP packet the 32-bit accumulator stays below its sign bit. */
  lemma AccumulatorFits(b: seq<Byte>)
    requires |b| <= 65535
    ensures Sum(Words(b)) < 0x8000_0000
  {
    hide Words, Sum;
    WordsSmall(b);
    SumBound(Words(b));
  }

  // ------------------------------------------------------------ folding is arithmetic modulo 65535

  /** The 16-bit representative of s modulo 65535, zero for zero only. */
  function Canon(s: nat): nat {
    if s == 0 then 0 else (s - 1) % 0xFFFF + 1
  }

  lemma CanonParts(s: nat) returns (q: nat)
    ensures s == 0xFFFF * q + Canon(s) && Canon(s) <= 0xFFFF && (s > 0 ==> Canon(s) > 0)
  {
    q := if s == 0 then 0 else (s - 1) / 0xFFFF;
  }

  lemma CanonUnique(s: nat, q: nat, r: nat)
    requires s == 0xFFFF * q + r && 0 < r <= 0xFFFF
    ensures Canon(s) == r
  {
  }

  lemma CanonShift(s: nat, q: nat)
    requires s > 0
    ensures Canon(s + 0xFFFF * q) == Canon(s)
  {
    var d := CanonParts(s);
    CanonUnique(s + 0xFFFF * q, d + q, Canon(s));
  }

  lemma {:induction false} FoldIsCanon(s: nat)
    ensures Fold(s) == Canon(s)
    decreases s
  {
    if s >= 0x1_0000 {
      var q, r := s / 0x1_0000, s % 0x1_0000;
      FoldIsCanon(r + q);
      CanonShift(r + q, q);
    }
  }

  lemma {:induction false} OnesSumIsCanon(ws: seq<nat>)
    requires Small(ws)
    ensures OnesSum(ws) == Canon(Sum(ws))
    decreases |ws|
  {
    if ws != [] {
      var n := |ws| - 1;
      OnesSumIsCanon(ws[..n]);
      assert ws == ws[..n] + [ws[n]];
      SumAppend(ws[..n], [ws[n]]);
      assert Sum([ws[n]]) == ws[n];
      CanonAdd(Sum(ws[..n]), ws[n]);
    }
  }

  lemma CanonAdd(a: nat, w: nat)
    requires w < 0x1_0000
    ensures OnesAdd(Canon(a), w) == Canon(a + w)
  {
    var q := CanonParts(a);
    if 0 < OnesAdd(Canon(a), w) {
      CanonUnique(a + w, if Canon(a) + w >= 0x1_0000 then q + 1 else q, OnesAdd(Canon(a), w));
    }
  }

  /** The result is the one's-complement checksum of RFC 1071 over the buffer's words. */
  lemma CheckIsStandard(b: seq<Byte>)
    ensures Check(b) == Complement(OnesSumOf(b))
  {
    WordsSmall(b);
    FoldIsCanon(Sum(Words(b)));
    OnesSumIsCanon(Words(b));
  }

  function OnesSumOf(b: seq<Byte>): (r: nat)
    ensures r < 0x1_0000
  {
    WordsSmall(b);
    OnesSumIsCanon(Words(b));
    OnesSum(Words(b))
  }

  // ------------------------------------------------------------ storing the result

  /** The two bytes at offset i replaced by a word in memory order. */
  function StoreWord(b: seq<Byte>, i: nat, w: nat): (r: seq<Byte>)
    requires i + 1 < |b| && w < 0x1_0000
    ensures |r| == |b|
  {
    b[i := (w % 256) as Byte][i + 1 := (w / 256) as Byte]
  }

  lemma {:induction false} StoreAdds(b: seq<Byte>, i: nat, w: nat)
    requires i + 1 < |b| && i % 2 == 0 && w < 0x1_0000 && b[i] == 0 && b[i + 1] == 0
    ensures Sum(Words(StoreWord(b, i, w))) == Sum(Words(b)) + w
    decreases i
  {
    var r := StoreWord(b, i, w);
    if i == 0 {
      assert r[2..] == b[2..];
    } else {
      StoreAdds(b[2..], i - 2, w);
      assert r[2..] == StoreWord(b[2..], i - 2, w);
    }
  }

  /** A buffer that carries its own checksum at an even offset checks to zero. */
  lemma StoredChecksToZero(b: seq<Byte>, i: nat)
    requires i + 1 < |b| && i % 2 == 0 && b[i] == 0 && b[i + 1] == 0
    ensures Check(StoreWord(b, i, Check(b))) == 0
  {
    var s := Sum(Words(b));
    StoreAdds(b, i, Check(b));
    FoldIsCanon(s);
    FoldIsCanon(s + Check(b));
    var q := CanonParts(s);
    CanonUnique(s + Check(b), q, 0xFFFF);
  }

  // ------------------------------------------------------------ byte order

  function BigWords(b: seq<Byte>): seq<nat> {
    if |b| == 0 then []
    else if |b| == 1 then [256 * b[0] as nat]
    else [Word(b[1], b[0])] + BigWords(b[2..])
  }

  function Swap(w: nat): nat {
    w % 256 * 256 + w / 256
  }

  /** The bytes that are high in memory order, added up. */
  function HighBytes(b: seq<Byte>): nat {
    if |b| < 2 then 0 else b[1] as nat + HighBytes(b[2..])
  }

  lemma {:induction false} BigSum(b: seq<Byte>)
    ensures 256 * Sum(Words(b)) == Sum(BigWords(b)) + 0xFFFF * HighBytes(b)
    ensures Sum(BigWords(b)) == 0 <==> Sum(Words(b)) == 0
    decreases |b|
  {
    if |b| >= 2 {
      BigSum(b[2..]);
    }
  }

  /** Computing on words in memory order and swapping the result is the same as computing on words in
      network order. */
  lemma ByteOrderIndependent(b: seq<Byte>)
    ensures Complement(Fold(Sum(BigWords(b)))) == Swap(Check(b))
  {
    BigSum(b);
    var s, t := Sum(Words(b)), Sum(BigWords(b));
    FoldIsCanon(s);
    FoldIsCanon(t);
    if s != 0 {
      CanonShift(t, HighBytes(b));
      SwapCanon(s);
    }
  }

  lemma SwapCanon(s: nat)
    requires s > 0
    ensures Complement(Canon(256 * s)) == Swap(Complement(Canon(s)))
  {
    var q := CanonParts(s);
    var x := Canon(s);
    var lo, hi := x % 256, x / 256;
    var y := Swap(x);
    assert 256 * s == 0xFFFF * (256 * q + hi) + y;
    CanonUnique(256 * s, 256 * q + hi, y);
  }

  // ------------------------------------------------------------ TCP: pseudo-header and segment

  /** checksum_tcp combines the checksums of the two parts through a four-byte buffer. */
  function CheckTcp(pseudo: seq<Byte>, segment: seq<Byte>): (r: nat)
    ensures r < 0x1_0000
  {
    var a, b := Complement(Check(pseudo)), Complement(Check(segment));
    Check([(a % 256) as Byte, (a / 256) as Byte, (b % 256) as Byte, (b / 256) as Byte])
  }

  lemma FourBytes(a: nat, b: nat)
    requires a < 0x1_0000 && b < 0x1_0000
    ensures Sum(Words([(a % 256) as Byte, (a / 256) as Byte, (b % 256) as Byte, (b / 256) as Byte])) == a + b
  {
    var four := [(a % 256) as Byte, (a / 256) as Byte, (b % 256) as Byte, (b / 256) as Byte];
    assert four == [(a % 256) as Byte, (a / 256) as Byte] + [(b % 256) as Byte, (b / 256) as Byte];
    WordsAppend([(a % 256) as Byte, (a / 256) as Byte], [(b % 256) as Byte, (b / 256) as Byte]);
    TwoBytes(a);
    TwoBytes(b);
    SumAppend([a], [b]);
  }

  lemma TwoBytes(a: nat)
    requires a < 0x1_0000
    ensures Words([(a % 256) as Byte, (a / 256) as Byte]) == [a] && Sum([a]) == a
  {
    var two := [(a % 256) as Byte, (a / 256) as Byte];
    assert two[2..] == [];
  }

  lemma FoldOfFolds(s: nat, t: nat)
    ensures Fold(Fold(s) + Fold(t)) == Fold(s + t)
  {
    hide Fold;
    FoldIsCanon(s);
    FoldIsCanon(t);
    FoldIsCanon(Canon(s) + Canon(t));
    FoldIsCanon(s + t);
    var q := CanonParts(s);
    var r := CanonParts(t);
    if s + t > 0 { CanonShift(Canon(s) + Canon(t), q + r); }
  }

  /** The two-part combination is the checksum of the pseudo-header followed by the segment. */
  lemma CheckTcpWhole(pseudo: seq<Byte>, segment: seq<Byte>)
    requires |pseudo| % 2 == 0
    ensures CheckTcp(pseudo, segment) == Check(pseudo + segment)
  {
    hide Fold, Words, Sum;
    var s, t := Sum(Words(pseudo)), Sum(Words(segment));
    FourBytes(Fold(s), Fold(t));
    FoldOfFolds(s, t);
    WordsAppend(pseudo, segment);
    SumAppend(Words(pseudo), Words(segment));
  }

  /** A segment sent with this checksum in its header verifies to zero at the receiver. */
  lemma TcpVerifies(pseudo: seq<Byte>, segment: seq<Byte>, i: nat)
    requires |pseudo| % 2 == 0 && i + 1 < |segment| && i % 2 == 0 && segment[i] == 0 && segment[i + 1] == 0
    ensures CheckTcp(pseudo, StoreWord(segment, i, CheckTcp(pseudo, segment))) == 0
  {
    hide Check, CheckTcp;
    var w := CheckTcp(pseudo, segment);
    CheckTcpWhole(pseudo, segment);
    CheckTcpWhole(pseudo, StoreWord(segment, i, w));
    var whole := pseudo + segment;
    var j := |pseudo| + i;
    assert whole[j] == 0 && whole[j + 1] == 0;
    StoredChecksToZero(whole, j);
    assert StoreWord(whole, j, w) == pseudo + StoreWord(segment, i, w);
  }

  // ------------------------------------------------------------ the code

  /** checksum; the emergency fold never takes effect for buffers up to 65535 bytes. */
  method Compute(b: seq<Byte>) returns (r: nat)
    requires |b| <= 65535
    ensures r == Check(b)
    ensures r < 0x1_0000
  {
    var sum: nat, k: nat := 0, 0;
    AccumulatorFits(b);
    while |b| - k > 1
      invariant 0 <= k <= |b| && sum + Sum(Words(b[k..])) == Sum(Words(b))
    {
      sum := FoldHigh(sum + Word(b[k], b[k + 1]));
      assert b[k..][2..] == b[k + 2..];
      k := k + 2;
    }
    if |b| - k != 0 {
      sum := sum + b[k] as nat;
      assert Words(b[k..]) == [b[k] as nat];
    }
    assert Fold(sum) == FoldedSum(b);
    while sum / 0x1_0000 != 0
      invariant Fold(sum) == FoldedSum(b)
      decreases sum
    {
      sum := sum % 0x1_0000 + sum / 0x1_0000;
    }
    r := 0xFFFF - sum;
  }
}
