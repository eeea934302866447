/** Fixed-width unsigned integers as bytes: little-endian for the container header
    (`struct` format `<`), big-endian for the control frames (`!`). */
module ByteOrder {
  import opened Core

  /** 256 to the power w: the first value that no longer fits into w bytes. */
  function Pow256(w: nat): (p: nat)
    ensures p > 0
  {
    if w == 0 then 1 else 256 * Pow256(w - 1)
  }

  function ToLE(n: nat, w: nat): (s: seq<byte>)
    ensures |s| == w
    decreases w
  {
    if w == 0 then [] else [n % 256] + ToLE(n / 256, w - 1)
  }

  function FromLE(s: seq<byte>): (n: nat)
    ensures n < Pow256(|s|)
  {
    if s == [] then 0 else s[0] + 256 * FromLE(s[1..])
  }

  function ToBE(n: nat, w: nat): (s: seq<byte>)
    ensures |s| == w
    decreases w
  {
    if w == 0 then [] else ToBE(n / 256, w - 1) + [n % 256]
  }

  function FromBE(s: seq<byte>): (n: nat)
    ensures n < Pow256(|s|)
  {
    if s == [] then 0 else 256 * FromBE(s[..|s| - 1]) + s[|s| - 1]
  }

  // ----- which byte stands where -----

  /** Byte i has the weight 256 to the power i: the first byte is the least significant. */
  lemma {:induction false} DigitsLE(n: nat, w: nat, i: nat)
    requires i < w
    ensures ToLE(n, w)[i] == n / Pow256(i) % 256
    decreases w
  {
    if i > 0 {
      DigitsLE(n / 256, w - 1, i - 1);
      DivideTwice(n, Pow256(i - 1));
    } else {
      assert n / 1 == n;
    }
  }

  /** Byte i has the weight 256 to the power w - 1 - i: the last byte is the least significant. */
  lemma {:induction false} DigitsBE(n: nat, w: nat, i: nat)
    requires i < w
    ensures ToBE(n, w)[i] == n / Pow256(w - 1 - i) % 256
    decreases w
  {
    if i < w - 1 {
      DigitsBE(n / 256, w - 1, i);
      DivideTwice(n, Pow256(w - 2 - i));
    } else {
      assert n / 1 == n;
    }
  }

  lemma DivideTwice(n: nat, p: nat)
    requires p > 0
    ensures n / 256 / p == n / (256 * p)
  {
    var q, r := n / 256, n % 256;
    var u, v := q / p, q % p;
    assert n == 256 * (p * u + v) + r;
    assert n == (256 * p) * u + (256 * v + r);
    assert 256 * v + r < 256 * p;
    QuotientIs(n, 256 * p, u, 256 * v + r);
  }

  lemma QuotientIs(n: nat, d: nat, q: nat, r: nat)
    requires d > 0 && n == d * q + r && r < d
    ensures n / d == q
  {
    var k := n / d - q;
    assert n == d * (n / d) + n % d;
    assert k * d == r - n % d;
    MultipleIsFar(k, d);
  }

  // ----- reading and writing -----

  lemma {:induction false} ReadsWrittenLE(n: nat, w: nat)
    requires n < Pow256(w)
    ensures FromLE(ToLE(n, w)) == n
    decreases w
  {
    if w > 0 {
      ReadsWrittenLE(n / 256, w - 1);
      assert ToLE(n, w)[1..] == ToLE(n / 256, w - 1);
    }
  }

  lemma {:induction false} WritesReadLE(s: seq<byte>)
    ensures ToLE(FromLE(s), |s|) == s
  {
    if s != [] {
      WritesReadLE(s[1..]);
      assert FromLE(s) % 256 == s[0] && FromLE(s) / 256 == FromLE(s[1..]);
    }
  }

  lemma {:induction false} ReadsWrittenBE(n: nat, w: nat)
    requires n < Pow256(w)
    ensures FromBE(ToBE(n, w)) == n
    decreases w
  {
    if w > 0 {
      ReadsWrittenBE(n / 256, w - 1);
      assert ToBE(n, w)[..w - 1] == ToBE(n / 256, w - 1);
    }
  }

  lemma {:induction false} WritesReadBE(s: seq<byte>)
    ensures ToBE(FromBE(s), |s|) == s
  {
    if s != [] {
      WritesReadBE(s[..|s| - 1]);
      assert FromBE(s) % 256 == s[|s| - 1] && FromBE(s) / 256 == FromBE(s[..|s| - 1]);
    }
  }

  /** The limits of the field widths in use. */
  lemma FieldLimits()
    ensures Pow256(0) == 1 && Pow256(1) == 0x100 && Pow256(2) == 0x1_0000 && Pow256(3) == 0x100_0000
    ensures Pow256(4) == 0x1_0000_0000
    ensures Pow256(8) == 0x1_0000_0000_0000_0000
  {
    assert Pow256(1) == 256;
    assert Pow256(2) == 256 * Pow256(1);
    assert Pow256(3) == 256 * Pow256(2);
    assert Pow256(4) == 256 * Pow256(3);
    assert Pow256(5) == 256 * Pow256(4);
    assert Pow256(6) == 256 * Pow256(5);
    assert Pow256(7) == 256 * Pow256(6);
    assert Pow256(8) == 256 * Pow256(7);
  }
}
