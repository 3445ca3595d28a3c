/** Byte strings and the numbers they spell (core/u256/u256.go, and compareBytes
    of core/fold/fold.go).  This is what lets an address, a hash or a key be a
    number elsewhere in the model. */
module Bytes {
  import opened U256

  type byte = n: nat | n < 256

  /** The number a string spells, most significant byte first. */
  function BigEndian(bs: seq<byte>): nat {
    if bs == [] then 0 else 256 * BigEndian(bs[..|bs| - 1]) + bs[|bs| - 1]
  }

  /** The number it spells least significant byte first. */
  function LittleEndian(bs: seq<byte>): nat {
    if bs == [] then 0 else bs[0] + 256 * LittleEndian(bs[1..])
  }

  /** The canonical encoding of a number in a given width. */
  function Encode(n: nat, width: nat): (bs: seq<byte>)
    ensures |bs| == width
  {
    if width == 0 then [] else Encode(n / 256, width - 1) + [n % 256]
  }

  function Power(width: nat): nat {
    if width == 0 then 1 else 256 * Power(width - 1)
  }

  lemma {:induction false} BigEndianBounded(bs: seq<byte>)
    ensures BigEndian(bs) < Power(|bs|)
  {
    if bs != [] {
      BigEndianBounded(bs[..|bs| - 1]);
    }
  }

  /** Decoding an encoding gives the number back, if it fits. */
  lemma {:induction false} EncodeRoundTrip(n: nat, width: nat)
    requires n < Power(width)
    ensures BigEndian(Encode(n, width)) == n
  {
    if width > 0 {
      EncodeRoundTrip(n / 256, width - 1);
      hide Encode, BigEndian, Power;
      EncodeStep(n, width);
    }
  }

  lemma EncodeStep(n: nat, width: nat)
    requires width > 0
    ensures BigEndian(Encode(n, width)) == 256 * BigEndian(Encode(n / 256, width - 1)) + n % 256
  {
    var bs := Encode(n, width);
    assert bs[..width - 1] == Encode(n / 256, width - 1);
  }

  lemma {:induction false} PowerPositive(n: nat)
    ensures Power(n) > 0
  {
    if n > 0 {
      PowerPositive(n - 1);
    }
  }

  /** Byte i of an encoding, counted from the most significant. */
  lemma {:induction false} EncodeAt(n: nat, width: nat, i: nat)
    requires i < width
    ensures Power(width - 1 - i) > 0 && Encode(n, width)[i] == n / Power(width - 1 - i) % 256
    decreases width
  {
    PowerPositive(width - 1 - i);
    if i < width - 1 {
      EncodeAt(n / 256, width - 1, i);
      PowerPositive(width - 2 - i);
      DivideTwice(n, Power(width - 2 - i));
    }
  }

  lemma DivideTwice(n: nat, b: nat)
    requires b > 0
    ensures n / 256 / b == n / (256 * b)
  {
    var q := n / 256 / b;
    QuotientIs(n / 256, b, q);
    assert 256 * (b * q) <= n < 256 * (b * (q + 1));
    assert 256 * b * q == 256 * (b * q) && 256 * b * (q + 1) == 256 * (b * (q + 1));
    Divided(n, 256 * b, q);
  }

  lemma Divided(n: nat, d: nat, q: nat)
    requires d > 0 && d * q <= n < d * (q + 1)
    ensures n / d == q
  {
    QuotientIs(n, d, q);
  }

  /** One more significant byte. */
  lemma {:induction false} LittleConcat(bs: seq<byte>, top: byte)
    ensures LittleEndian(bs + [top]) == LittleEndian(bs) + Product(top, Power(|bs|))
  {
    if bs == [] {
      assert [top][1..] == [];
    } else {
      LittleConcat(bs[1..], top);
      assert (bs + [top])[1..] == bs[1..] + [top];
      ScaledTop(top, Power(|bs| - 1));
    }
  }

  lemma ScaledTop(top: nat, w: nat)
    ensures 256 * Product(top, w) == Product(top, 256 * w)
  {
  }

  /** Encoding a decoding gives the string back. */
  lemma {:induction false} DecodeRoundTrip(bs: seq<byte>)
    ensures Encode(BigEndian(bs), |bs|) == bs
  {
    if bs != [] {
      var n := |bs| - 1;
      DecodeRoundTrip(bs[..n]);
      assert bs == bs[..n] + [bs[n]];
      assert BigEndian(bs) / 256 == BigEndian(bs[..n]);
    }
  }

  lemma PowerIs()
    ensures Power(32) == TWO256
  {
    assert Power(8) == TWO64;
    assert Power(16) == TWO64 * TWO64;
    assert Power(24) == TWO64 * TWO64 * TWO64;
  }

  lemma {:induction false} CommonPrefix(a: seq<byte>, b: seq<byte>, i: nat)
    requires |a| == |b| && i < |a| && a[..i] == b[..i] && a[i] < b[i]
    ensures BigEndian(a) < BigEndian(b)
    decreases |a|
  {
    var n := |a| - 1;
    if i < n {
      assert a[..n][..i] == a[..i] && b[..n][..i] == b[..i];
      CommonPrefix(a[..n], b[..n], i);
    } else {
      assert a[..n] == b[..n];
    }
  }

  /** Byte-wise comparison of two strings of one width is comparison of the
      numbers they spell. */
  method CompareBytes(a: seq<byte>, b: seq<byte>) returns (c: int)
    requires |a| == |b|
    ensures c == if BigEndian(a) < BigEndian(b) then -1 else if BigEndian(a) > BigEndian(b) then 1 else 0
    ensures c == 0 <==> a == b
  {
    for i := 0 to |a|
      invariant a[..i] == b[..i]
    {
      if a[i] != b[i] {
        if a[i] < b[i] {
          CommonPrefix(a, b, i);
          return -1;
        }
        CommonPrefix(b, a, i);
        return 1;
      }
    }
    assert a[..|a|] == a && b[..|b|] == b;
    return 0;
  }

  // --------------------------------------------------- least significant first

  function EncodeLittle(n: nat, width: nat): (bs: seq<byte>)
    ensures |bs| == width
  {
    if width == 0 then [] else [n % 256] + EncodeLittle(n / 256, width - 1)
  }

  lemma {:induction false} LittleRoundTrip(n: nat, width: nat)
    requires n < Power(width)
    ensures LittleEndian(EncodeLittle(n, width)) == n
  {
    if width > 0 {
      var bs := EncodeLittle(n, width);
      assert bs[1..] == EncodeLittle(n / 256, width - 1);
      LittleRoundTrip(n / 256, width - 1);
    }
  }

  lemma {:induction false} LittleDecodes(bs: seq<byte>)
    ensures EncodeLittle(LittleEndian(bs), |bs|) == bs
    ensures LittleEndian(bs) < Power(|bs|)
  {
    if bs != [] {
      LittleDecodes(bs[1..]);
      assert bs == [bs[0]] + bs[1..];
      assert LittleEndian(bs) / 256 == LittleEndian(bs[1..]);
    }
  }

  /** The most significant difference decides. */
  lemma {:induction false} HighByteDecides(a: seq<byte>, b: seq<byte>, i: nat)
    requires |a| == |b| && i < |a| && a[i + 1..] == b[i + 1..] && a[i] < b[i]
    ensures LittleEndian(a) < LittleEndian(b)
  {
    if i > 0 {
      assert a[1..][i..] == a[i + 1..] && b[1..][i..] == b[i + 1..];
      HighByteDecides(a[1..], b[1..], i - 1);
    }
  }
}
