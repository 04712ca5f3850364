/** The variable-length integer of the frame header: values below 0xfd are one byte,
    larger ones are a marker byte followed by 2, 4 or 8 bytes, most significant first. */
module VarInt {
  import opened Buffers

  function Pow256(n: nat): (r: nat)
    ensures r > 0
  {
    if n == 0 then 1 else 256 * Pow256(n - 1)
  }

  /** The n low bytes of v, most significant first. */
  function BigEndian(v: nat, n: nat): (bs: seq<Byte>)
    ensures |bs| == n
  {
    if n == 0 then [] else BigEndian(v / 256, n - 1) + [v % 256]
  }

  function FromBigEndian(bs: seq<Byte>): (v: nat)
    ensures v < Pow256(|bs|)
  {
    if bs == [] then 0 else FromBigEndian(bs[..|bs| - 1]) * 256 + bs[|bs| - 1]
  }

  lemma {:induction false} BigEndianInverse(v: nat, n: nat)
    requires v < Pow256(n)
    ensures FromBigEndian(BigEndian(v, n)) == v
  {
    if n > 0 {
      BigEndianInverse(v / 256, n - 1);
      assert BigEndian(v, n)[..n - 1] == BigEndian(v / 256, n - 1);
    }
  }

  lemma LowByte(high: nat, low: Byte)
    ensures (high * 256 + low) / 256 == high && (high * 256 + low) % 256 == low
  {
  }

  lemma {:induction false} FromBigEndianInverse(bs: seq<Byte>)
    ensures BigEndian(FromBigEndian(bs), |bs|) == bs
  {
    if bs != [] {
      FromBigEndianInverse(bs[..|bs| - 1]);
      LowByte(FromBigEndian(bs[..|bs| - 1]), bs[|bs| - 1]);
      assert bs == bs[..|bs| - 1] + [bs[|bs| - 1]];
    }
  }

  lemma Powers()
    ensures Pow256(0) == 1 && Pow256(1) == 0x100 && Pow256(2) == 0x1_0000 && Pow256(3) == 0x100_0000
    ensures Pow256(4) == 0x1_0000_0000 && Pow256(5) == 0x100_0000_0000 && Pow256(6) == 0x1_0000_0000_0000
    ensures Pow256(7) == 0x100_0000_0000_0000 && Pow256(8) == 0x1_0000_0000_0000_0000
  {
  }

  function VarIntEncode(val: UInt64): seq<Byte> {
    if val < 0xfd then [val]
    else if val <= 0xffff then [0xfd] + BigEndian(val, 2)
    else if val <= 0xffff_ffff then [0xfe] + BigEndian(val, 4)
    else [0xff] + BigEndian(val, 8)
  }

  /** How many bytes follow this marker. */
  function Width(flag: Byte): nat {
    match flag
    case 0xfd => 2
    case 0xfe => 4
    case 0xff => 8
    case _ => 0
  }

  /** The value announced by a marker and the bytes that follow it. */
  function HeaderValue(flag: Byte, bs: seq<Byte>): UInt64
    requires |bs| == Width(flag)
  {
    Powers();
    if Width(flag) == 0 then flag else FromBigEndian(bs)
  }

  /** Advances the read position by exactly the announced bytes, or aborts untouched. */
  method VarIntDecode(flag: Byte, bbf: ByteBuf) returns (r: Option<UInt64>)
    requires bbf.Valid()
    modifies bbf
    ensures bbf.Valid()
    ensures if Width(flag) <= |old(bbf.Unread())|
            then r == Some(HeaderValue(flag, old(bbf.Unread())[..Width(flag)])) &&
                 bbf.Unread() == old(bbf.Unread())[Width(flag)..]
            else r == None && bbf.Unread() == old(bbf.Unread())
  {
    var bs;
    match flag {
      case 0xfd => bs := bbf.ReadBytes(2);
      case 0xfe => bs := bbf.ReadBytes(4);
      case 0xff => bs := bbf.ReadBytes(8);
      case _ => return Some(flag);
    }
    if bs == None {
      return None;
    }
    Powers();
    r := Some(FromBigEndian(bs.value));
  }

  /** Reading one integer off the front of a byte sequence. */
  function Parse(bs: seq<Byte>): Option<(UInt64, seq<Byte>)> {
    if bs == [] || |bs| < 1 + Width(bs[0]) then None
    else Some((HeaderValue(bs[0], bs[1..1 + Width(bs[0])]), bs[1 + Width(bs[0])..]))
  }

  /** Decoding inverts encoding over all of uint64, whatever follows. */
  lemma ParseEncode(v: UInt64, tail: seq<Byte>)
    ensures Parse(VarIntEncode(v) + tail) == Some((v, tail))
  {
    Powers();
    var bs := VarIntEncode(v) + tail;
    if v >= 0xfd {
      var w := if v <= 0xffff then 2 else if v <= 0xffff_ffff then 4 else 8;
      assert Width(bs[0]) == w;
      assert bs[1..1 + w] == BigEndian(v, w);
      BigEndianInverse(v, w);
    }
  }

  /** No encoding is a prefix of the encoding of another value; in particular the encoding is injective. */
  lemma EncodePrefixFree(a: UInt64, b: UInt64)
    requires VarIntEncode(a) <= VarIntEncode(b)
    ensures a == b
  {
    var tail := VarIntEncode(b)[|VarIntEncode(a)|..];
    assert VarIntEncode(b) == VarIntEncode(a) + tail;
    assert VarIntEncode(b) == VarIntEncode(b) + [];
    ParseEncode(a, tail);
    ParseEncode(b, []);
  }

  /** The decoder also accepts longer spellings than the encoder writes: an accepted header
      is the encoder's own if and only if its value needs the marker it carries. */
  lemma CanonicalHeader(bs: seq<Byte>)
    requires Parse(bs).Some?
    ensures var v := Parse(bs).value.0;
            VarIntEncode(v) + Parse(bs).value.1 == bs <==>
            v >= (match bs[0] case 0xfd => 0xfd case 0xfe => 0x1_0000 case 0xff => 0x1_0000_0000 case _ => 0)
  {
    Powers();
    var w := Width(bs[0]);
    var v := Parse(bs).value.0;
    FromBigEndianInverse(bs[1..1 + w]);
    assert bs == [bs[0]] + bs[1..1 + w] + bs[1 + w..];
    if VarIntEncode(v) + bs[1 + w..] == bs {
      assert (VarIntEncode(v) + bs[1 + w..])[0] == VarIntEncode(v)[0];
    }
  }

  // ------------------------------------------------- digit by digit

  lemma DivideTwice(v: nat, p: nat)
    requires p > 0
    ensures v / 256 / p == v / (256 * p)
  {
    var q, r := v / (256 * p), v % (256 * p);
    assert v == 256 * (p * q) + r;
    assert v / 256 == p * q + r / 256 && r / 256 < p;
    QuotientIs(v / 256, p, q, r / 256);
  }

  lemma QuotientIs(x: nat, p: nat, q: nat, r: nat)
    requires x == p * q + r && r < p
    ensures x / p == q
  {
    var d := x / p - q;
    assert d * p == r - x % p;
    assert d >= 1 ==> d * p >= p;
    assert d <= -1 ==> d * p + p <= 0;
  }

  /** Byte i of n is the digit of weight 256 to the n - 1 - i. */
  lemma {:induction false} BigEndianDigit(v: nat, n: nat, i: nat)
    requires i < n
    ensures BigEndian(v, n)[i] == v / Pow256(n - 1 - i) % 256
    decreases n
  {
    if i < n - 1 {
      BigEndianDigit(v / 256, n - 1, i);
      DivideTwice(v, Pow256(n - 2 - i));
    }
  }

  /** The sum of the bytes, each times its weight. */
  function Weighted(bs: seq<Byte>): nat {
    if bs == [] then 0 else bs[0] * Pow256(|bs| - 1) + Weighted(bs[1..])
  }

  lemma Unrolled(bs: seq<Byte>)
    ensures |bs| == 2 ==> Weighted(bs) == bs[0] * Pow256(1) + bs[1] * Pow256(0)
    ensures |bs| == 4 ==>
              Weighted(bs) == bs[0] * Pow256(3) + bs[1] * Pow256(2) + bs[2] * Pow256(1) + bs[3] * Pow256(0)
    ensures |bs| == 8 ==>
              Weighted(bs) == bs[0] * Pow256(7) + bs[1] * Pow256(6) + bs[2] * Pow256(5) + bs[3] * Pow256(4) +
                              bs[4] * Pow256(3) + bs[5] * Pow256(2) + bs[6] * Pow256(1) + bs[7] * Pow256(0)
  {
    if |bs| == 4 || |bs| == 8 { TwoMore(bs); TwoMore(bs[2..]); }
    if |bs| == 8 { TwoMore(bs[4..]); TwoMore(bs[6..]); }
    if |bs| == 2 { TwoMore(bs); }
  }

  lemma TwoMore(bs: seq<Byte>)
    requires |bs| > 1
    ensures Weighted(bs) == bs[0] * Pow256(|bs| - 1) + bs[1] * Pow256(|bs| - 2) + Weighted(bs[2..])
  {
    assert bs[1..][1..] == bs[2..];
  }

  lemma {:induction false} WeightedSnoc(bs: seq<Byte>, b: Byte)
    ensures Weighted(bs + [b]) == 256 * Weighted(bs) + b
  {
    if bs == [] {
      assert (bs + [b])[1..] == [] && Pow256(0) == 1;
    } else {
      assert (bs + [b])[1..] == bs[1..] + [b];
      WeightedSnoc(bs[1..], b);
      assert Pow256(|bs|) == 256 * Pow256(|bs| - 1);
      assert bs[0] * (256 * Pow256(|bs| - 1)) == 256 * (bs[0] * Pow256(|bs| - 1));
    }
  }

  lemma {:induction false} ReadIsWeighted(bs: seq<Byte>)
    ensures FromBigEndian(bs) == Weighted(bs)
  {
    if bs != [] {
      ReadIsWeighted(bs[..|bs| - 1]);
      WeightedSnoc(bs[..|bs| - 1], bs[|bs| - 1]);
      assert bs == bs[..|bs| - 1] + [bs[|bs| - 1]];
    }
  }

  lemma Digits2(v: nat)
    ensures BigEndian(v, 2) == [v / 0x100 % 0x100, v % 0x100]
  {
    Powers();
    BigEndianDigit(v, 2, 0);
  }

  lemma Digits4(v: nat)
    ensures BigEndian(v, 4) == [v / 0x100_0000 % 0x100, v / 0x1_0000 % 0x100, v / 0x100 % 0x100, v % 0x100]
  {
    Powers();
    BigEndianDigit(v, 4, 0);
    BigEndianDigit(v, 4, 1);
    BigEndianDigit(v, 4, 2);
  }

  lemma Digits8(v: nat)
    ensures BigEndian(v, 8) ==
            [v / 0x100_0000_0000_0000 % 0x100, v / 0x1_0000_0000_0000 % 0x100, v / 0x100_0000_0000 % 0x100,
             v / 0x1_0000_0000 % 0x100, v / 0x100_0000 % 0x100, v / 0x1_0000 % 0x100, v / 0x100 % 0x100, v % 0x100]
  {
    Powers();
    BigEndianDigit(v, 8, 0);
    BigEndianDigit(v, 8, 1);
    BigEndianDigit(v, 8, 2);
    BigEndianDigit(v, 8, 3);
    BigEndianDigit(v, 8, 4);
    BigEndianDigit(v, 8, 5);
    BigEndianDigit(v, 8, 6);
  }

  /** The spelling of every value: one byte, or a marker and 2, 4 or 8 digits, the most
      significant first. */
  lemma Spelling(v: UInt64)
    ensures VarIntEncode(v) ==
            if v < 0xfd then [v]
            else if v < 0x1_0000 then [0xfd] + [v / 0x100 % 0x100, v % 0x100]
            else if v < 0x1_0000_0000 then
              [0xfe] + [v / 0x100_0000 % 0x100, v / 0x1_0000 % 0x100, v / 0x100 % 0x100, v % 0x100]
            else
              [0xff] +
              [v / 0x100_0000_0000_0000 % 0x100, v / 0x1_0000_0000_0000 % 0x100, v / 0x100_0000_0000 % 0x100,
               v / 0x1_0000_0000 % 0x100, v / 0x100_0000 % 0x100, v / 0x1_0000 % 0x100, v / 0x100 % 0x100, v % 0x100]
  {
    if v >= 0x1_0000_0000 { Digits8(v); } else if v >= 0x1_0000 { Digits4(v); } else if v >= 0xfd { Digits2(v); }
  }

  /** And the value of every spelling. */
  lemma Reading(flag: Byte, bs: seq<Byte>)
    requires |bs| == (match flag case 0xfd => 2 case 0xfe => 4 case 0xff => 8 case _ => 0)
    ensures HeaderValue(flag, bs) ==
            match flag
            case 0xfd => 0x100 * bs[0] + bs[1]
            case 0xfe => 0x100_0000 * bs[0] + 0x1_0000 * bs[1] + 0x100 * bs[2] + bs[3]
            case 0xff => 0x100_0000_0000_0000 * bs[0] + 0x1_0000_0000_0000 * bs[1] + 0x100_0000_0000 * bs[2] +
                         0x1_0000_0000 * bs[3] + 0x100_0000 * bs[4] + 0x1_0000 * bs[5] + 0x100 * bs[6] + bs[7]
            case _ => flag
  {
    if flag >= 0xfd { ReadIsWeighted(bs); }
    Powers();
    Unrolled(bs);
  }
}
