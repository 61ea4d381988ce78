/** Byte strings: Go's `string` and `[]byte`, big-endian integers, byte order,
    and the `%x` and `%d` renderings used to build storage keys. */
module ByteStrings {

  /** One byte, written as a character so that string literals are byte strings. */
  type byte = c: char | c as int < 256 witness '\0'

  type Bytes = seq<byte>

  /** A Go `[32]byte`: a public key or a SHA-256 digest. */
  type Bytes32 = b: Bytes | |b| == 32 witness Zeros(32)

  type uint32 = n: nat | n < 0x1_0000_0000

  const TWO_64: nat := 0x1_0000_0000_0000_0000

  function Zeros(n: nat): (b: Bytes)
    ensures |b| == n
  {
    seq(n, _ => '\0')
  }

  /** `copy(dst[:], raw)` into a zeroed 32-byte array: longer input is cut, shorter input padded. */
  function Fix32(raw: Bytes): (b: Bytes32)
    ensures |raw| == 32 ==> b == raw
    ensures forall i :: 0 <= i < 32 ==> b[i] == if i < |raw| then raw[i] else '\0'
  {
    if |raw| >= 32 then raw[..32] else raw + Zeros(32 - |raw|)
  }

  // ----- Big-endian integers -----

  function Pow256(k: nat): (p: nat)
    ensures p > 0
  {
    if k == 0 then 1 else 256 * Pow256(k - 1)
  }

  /** The low `k` bytes of `n`, most significant first. */
  function BigEndian(n: nat, k: nat): (b: Bytes)
    ensures |b| == k
  {
    if k == 0 then [] else BigEndian(n / 256, k - 1) + [(n % 256) as char]
  }

  function FromBigEndian(b: Bytes): (n: nat)
  {
    if b == [] then 0 else 256 * FromBigEndian(b[..|b| - 1]) + b[|b| - 1] as int
  }

  lemma {:induction false} FromBigEndianBound(b: Bytes)
    ensures FromBigEndian(b) < Pow256(|b|)
  {
    if b != [] {
      FromBigEndianBound(b[..|b| - 1]);
    }
  }

  lemma {:induction false} BigEndianRoundTrip(n: nat, k: nat)
    ensures n < Pow256(k) ==> FromBigEndian(BigEndian(n, k)) == n
  {
    if k > 0 && n < Pow256(k) {
      BigEndianRoundTrip(n / 256, k - 1);
      assert BigEndian(n, k)[..k - 1] == BigEndian(n / 256, k - 1);
    }
  }

  lemma {:induction false} FromBigEndianRoundTrip(b: Bytes)
    ensures BigEndian(FromBigEndian(b), |b|) == b
  {
    if b != [] {
      FromBigEndianRoundTrip(b[..|b| - 1]);
    }
  }

  lemma {:induction false} FromBigEndianConcat(a: Bytes, b: Bytes)
    ensures FromBigEndian(a + b) == FromBigEndian(a) * Pow256(|b|) + FromBigEndian(b)
  {
    if b == [] {
      assert a + b == a;
    } else {
      var init := b[..|b| - 1];
      assert (a + b)[..|a + b| - 1] == a + init;
      FromBigEndianConcat(a, init);
      Regroup(FromBigEndian(a), Pow256(|init|), FromBigEndian(init), b[|b| - 1] as int);
    }
  }

  lemma Regroup(x: nat, w: nat, y: nat, c: nat)
    ensures 256 * (x * w + y) + c == x * (256 * w) + (256 * y + c)
  {
  }

  lemma Pow256Values()
    ensures Pow256(1) == 0x100
    ensures Pow256(2) == 0x1_0000
    ensures Pow256(4) == 0x1_0000_0000
    ensures Pow256(8) == TWO_64
    ensures Pow256(10) == 0x1_0000_0000_0000_0000_0000
  {
    assert Pow256(3) == 256 * Pow256(2);
    assert Pow256(5) == 256 * Pow256(4);
    assert Pow256(6) == 256 * Pow256(5);
    assert Pow256(7) == 256 * Pow256(6);
    assert Pow256(8) == 256 * Pow256(7);
    assert Pow256(9) == 256 * Pow256(8);
  }

  // ----- Byte order: Go's string comparison and bytes.Compare -----

  predicate Less(a: Bytes, b: Bytes)
  {
    b != [] && (a == [] || a[0] < b[0] || (a[0] == b[0] && Less(a[1..], b[1..])))
  }

  /** `a` and `b` part at position `i`: there `a` ends first, or holds the smaller byte. */
  predicate PartsAt(a: Bytes, b: Bytes, i: nat)
  {
    && i <= |a| && i <= |b| && a[..i] == b[..i]
    && (i == |a| < |b| || (i < |a| && i < |b| && a[i] < b[i]))
  }

  /** Go's order of strings, by the first position at which they differ. */
  ghost predicate Precedes(a: Bytes, b: Bytes)
  {
    exists i: nat :: PartsAt(a, b, i)
  }

  lemma PartsLater(a: Bytes, b: Bytes, i: nat)
    requires PartsAt(a, b, i) && i > 0
    ensures a != [] && b != [] && a[0] == b[0]
  {
    assert a[..i][0] == b[..i][0];
  }

  lemma {:induction false} LessExactly(a: Bytes, b: Bytes)
    ensures Less(a, b) <==> Precedes(a, b)
  {
    if a == [] || b == [] || a[0] != b[0] {
      assert Less(a, b) ==> PartsAt(a, b, 0);
      forall i: nat | PartsAt(a, b, i) ensures i == 0 {
        if i > 0 {
          PartsLater(a, b, i);
        }
      }
    } else {
      LessExactly(a[1..], b[1..]);
      if Less(a, b) {
        var i: nat :| PartsAt(a[1..], b[1..], i);
        assert a[..i + 1] == [a[0]] + a[1..][..i] && b[..i + 1] == [b[0]] + b[1..][..i];
        assert PartsAt(a, b, i + 1);
      }
      if i: nat :| PartsAt(a, b, i) {
        assert i > 0;
        assert a[1..][..i - 1] == a[..i][1..] && b[1..][..i - 1] == b[..i][1..];
        assert PartsAt(a[1..], b[1..], i - 1);
      }
    }
  }

  lemma {:induction false} LessTotal(a: Bytes, b: Bytes)
    ensures Less(a, b) || a == b || Less(b, a)
    ensures !(Less(a, b) && Less(b, a))
    ensures !Less(a, a)
  {
    if a != [] {
      LessTotal(a[1..], a[1..]);
      if b != [] && a[0] == b[0] {
        LessTotal(a[1..], b[1..]);
      }
    }
  }

  lemma {:induction false} LessTransitive(a: Bytes, b: Bytes, c: Bytes)
    requires Less(a, b) && Less(b, c)
    ensures Less(a, c)
  {
    if a != [] && a[0] == b[0] && b[0] == c[0] {
      LessTransitive(a[1..], b[1..], c[1..]);
    }
  }

  /** On byte strings of one length, byte order is the order of the big-endian values. */
  lemma {:induction false} LessIsNumeric(a: Bytes, b: Bytes)
    requires |a| == |b|
    ensures Less(a, b) <==> FromBigEndian(a) < FromBigEndian(b)
    ensures a == b <==> FromBigEndian(a) == FromBigEndian(b)
  {
    if a != [] {
      var k := |a| - 1;
      LessIsNumeric(a[1..], b[1..]);
      FromBigEndianBound(a[1..]);
      FromBigEndianBound(b[1..]);
      assert a == a[..1] + a[1..] && b == b[..1] + b[1..];
      FromBigEndianConcat(a[..1], a[1..]);
      FromBigEndianConcat(b[..1], b[1..]);
      assert FromBigEndian(a[..1]) == a[0] as int && FromBigEndian(b[..1]) == b[0] as int by {
        assert a[..1][..0] == [] && b[..1][..0] == [];
      }
      LeadingDigit(a[0] as int, b[0] as int, FromBigEndian(a[1..]), FromBigEndian(b[1..]), Pow256(k));
    }
  }

  lemma LeadingDigit(x: nat, y: nat, p: nat, q: nat, w: nat)
    requires p < w && q < w
    ensures x < y ==> x * w + p < y * w + q
    ensures x == y ==> (x * w + p < y * w + q <==> p < q)
    ensures x > y ==> x * w + p > y * w + q
  {
    if x < y {
      assert (x + 1) * w <= y * w;
    } else if y < x {
      assert (y + 1) * w <= x * w;
    }
  }

  // ----- Renderings -----

  function HexDigit(n: nat): (c: byte)
    requires n < 16
  {
    if n < 10 then ('0' as int + n) as char else ('a' as int + n - 10) as char
  }

  /** `fmt.Sprintf("%x", b)`. */
  function Hex(b: Bytes): (s: Bytes)
    ensures |s| == 2 * |b|
  {
    if b == [] then [] else [HexDigit(b[0] as int / 16), HexDigit(b[0] as int % 16)] + Hex(b[1..])
  }

  const HEX_DIGITS: Bytes := "0123456789abcdef"

  /** Two lower-case digits to the byte, the high one first. */
  lemma {:induction false} HexDigits(b: Bytes, i: nat)
    requires i < |b|
    ensures Hex(b)[2 * i] == HEX_DIGITS[b[i] as int / 16] && Hex(b)[2 * i + 1] == HEX_DIGITS[b[i] as int % 16]
  {
    DigitsOfHex(b[0] as int / 16);
    DigitsOfHex(b[0] as int % 16);
    if i > 0 {
      HexDigits(b[1..], i - 1);
    }
  }

  lemma DigitsOfHex(n: nat)
    requires n < 16
    ensures HexDigit(n) == HEX_DIGITS[n]
  {
  }

  lemma {:induction false} HexInjective(a: Bytes, b: Bytes)
    requires Hex(a) == Hex(b)
    ensures a == b
  {
    if a != [] {
      assert |b| == |a|;
      assert Hex(a)[0] == Hex(b)[0] && Hex(a)[1] == Hex(b)[1];
      assert Hex(a)[2..] == Hex(a[1..]) && Hex(b)[2..] == Hex(b[1..]);
      HexInjective(a[1..], b[1..]);
      assert a == [a[0]] + a[1..] && b == [b[0]] + b[1..];
    }
  }

  /** `fmt.Sprintf("%d", n)`. */
  function Decimal(n: int): Bytes
    decreases if n < 0 then 1 else 0, if n < 0 then -n else n
  {
    if n < 0 then ['-'] + Decimal(-n)
    else if n < 10 then [('0' as int + n) as char]
    else Decimal(n / 10) + [('0' as int + n % 10) as char]
  }
}
