/** The length field of src/message_framer.cpp: decode_length and encode_length, with
    the copy-and-byteswap path for widths 2, 4 and 8 and the byte loop for the rest. */
module LengthCodec {
  import opened Bytes

  datatype Endian = Big | Little

  function Pow256(k: nat): (p: nat)
    ensures p > 0
  {
    if k == 0 then 1 else 256 * Pow256(k - 1)
  }

  function Reverse<T>(s: seq<T>): (r: seq<T>)
    ensures |r| == |s|
    ensures forall i :: 0 <= i < |s| ==> r[i] == s[|s| - 1 - i]
  {
    seq(|s|, i requires 0 <= i < |s| => s[|s| - 1 - i])
  }

  // The number a byte string denotes, least significant byte first.
  function LittleValue(s: seq<Byte>): (v: nat)
    ensures v < Pow256(|s|)
  {
    if s == [] then 0 else s[0] + 256 * LittleValue(s[1..])
  }

  function Value(order: Endian, s: seq<Byte>): (v: nat)
    ensures v < Pow256(|s|)
  {
    if order == Little then LittleValue(s) else LittleValue(Reverse(s))
  }

  // The k low-order base-256 digits of n, least significant first.
  function LittleDigits(n: nat, k: nat): (s: seq<Byte>)
    ensures |s| == k
  {
    if k == 0 then [] else [n % 256] + LittleDigits(n / 256, k - 1)
  }

  function Digits(order: Endian, n: nat, k: nat): (s: seq<Byte>)
    ensures |s| == k
  {
    if order == Little then LittleDigits(n, k) else Reverse(LittleDigits(n, k))
  }

  // std::byteswap on a k-byte unsigned integer: the same bytes in the other order.
  function ByteSwap(v: nat, k: nat): nat {
    LittleValue(Reverse(LittleDigits(v, k)))
  }

  lemma {:induction false} LittleDigitsOfValue(s: seq<Byte>)
    ensures LittleDigits(LittleValue(s), |s|) == s
  {
    if s != [] {
      LittleDigitsOfValue(s[1..]);
      assert LittleValue(s) % 256 == s[0] && LittleValue(s) / 256 == LittleValue(s[1..]);
    }
  }

  lemma {:induction false} LittleValueOfDigits(n: nat, k: nat)
    ensures LittleValue(LittleDigits(n, k)) == n % Pow256(k)
  {
    if k > 0 {
      LittleValueOfDigits(n / 256, k - 1);
      assert LittleDigits(n, k)[1..] == LittleDigits(n / 256, k - 1);
      DivModStep(n, Pow256(k - 1));
    }
  }

  lemma DivModStep(n: nat, p: nat)
    requires p > 0
    ensures n % (256 * p) == n % 256 + 256 * ((n / 256) % p)
  {
    var q, r := (n / 256) / p, (n / 256) % p;
    assert n / 256 == q * p + r;
    assert n == 256 * (q * p + r) + n % 256;
    assert 256 * (q * p) == q * (256 * p);
    var low := n % 256 + 256 * r;
    assert 0 <= low < 256 * p;
    ModUnique(n, 256 * p, q, low);
  }

  lemma MulBounds(x: int, d: nat)
    requires d > 0
    ensures x >= 1 ==> x * d >= d
    ensures x <= -1 ==> x * d + d <= 0
  {
    if x >= 1 {
      assert x * d == (x - 1) * d + d;
    } else if x <= -1 {
      assert x * d == (x + 1) * d - d;
    }
  }

  lemma ModUnique(n: nat, d: nat, q: nat, r: nat)
    requires d > 0 && n == q * d + r && r < d
    ensures n / d == q && n % d == r
  {
    var x := n / d - q;
    assert n == (n / d) * d + n % d;
    assert x * d == (n / d) * d - q * d;
    MulBounds(x, d);
  }

  lemma ReverseTwice<T>(s: seq<T>)
    ensures Reverse(Reverse(s)) == s
  {
  }

  /** Encoding and then decoding keeps exactly the value modulo 256^k. */
  lemma DecodeEncode(order: Endian, n: nat, k: nat)
    ensures Value(order, Digits(order, n, k)) == n % Pow256(k)
  {
    LittleValueOfDigits(n, k);
    ReverseTwice(LittleDigits(n, k));
  }

  /** Decoding and then encoding gives the same bytes back. */
  lemma EncodeDecode(order: Endian, s: seq<Byte>)
    ensures Digits(order, Value(order, s), |s|) == s
  {
    LittleDigitsOfValue(s);
    LittleDigitsOfValue(Reverse(s));
    ReverseTwice(s);
  }

  /** A length survives the field exactly when the field is wide enough for it. */
  lemma LengthSurvives(order: Endian, n: nat, k: nat)
    ensures Value(order, Digits(order, n, k)) == n <==> n < Pow256(k)
  {
    DecodeEncode(order, n, k);
    if n < Pow256(k) {
      ModUnique(n, Pow256(k), 0, n);
    }
  }

  /** Reading in the machine's order and swapping reads in the other order: the fast
      path of both functions computes what the byte loop computes. */
  lemma SwapChangesOrder(order: Endian, native: Endian, s: seq<Byte>)
    requires order != native
    ensures ByteSwap(Value(native, s), |s|) == Value(order, s)
  {
    LittleDigitsOfValue(s);
    LittleDigitsOfValue(Reverse(s));
    ReverseTwice(s);
  }

  lemma SwapThenStore(order: Endian, native: Endian, n: nat, k: nat)
    requires order != native
    ensures Digits(native, ByteSwap(n, k), k) == Digits(order, n, k)
  {
    var d := LittleDigits(n, k);
    LittleDigitsOfValue(Reverse(d));
    ReverseTwice(d);
  }

  lemma {:induction false} LittleDigitAt(n: nat, k: nat, i: nat)
    requires i < k
    ensures LittleDigits(n, k)[i] == (n / Pow256(i)) % 256
  {
    if i > 0 {
      LittleDigitAt(n / 256, k - 1, i - 1);
      DivTwice(n, Pow256(i - 1));
    }
  }

  lemma DivTwice(n: nat, p: nat)
    requires p > 0
    ensures (n / 256) / p == n / (256 * p)
  {
    var q, r := (n / 256) / p, (n / 256) % p;
    assert n / 256 == q * p + r;
    assert n == 256 * (q * p + r) + n % 256;
    assert 256 * (q * p) == q * (256 * p);
    ModUnique(n, 256 * p, q, n % 256 + 256 * r);
  }

  lemma LittleDigitsMod(n: nat, k: nat)
    ensures LittleDigits(n % Pow256(k), k) == LittleDigits(n, k)
  {
    LittleValueOfDigits(n, k);
    LittleDigitsOfValue(LittleDigits(n, k));
  }

  lemma {:induction false} LittleSnoc(s: seq<Byte>, b: Byte)
    ensures LittleValue(s + [b]) == LittleValue(s) + b * Pow256(|s|)
  {
    if s == [] {
      assert s + [b] == [b];
      assert LittleValue([b]) == b;
    } else {
      assert (s + [b])[1..] == s[1..] + [b];
      LittleSnoc(s[1..], b);
      assert 256 * (b * Pow256(|s| - 1)) == b * (256 * Pow256(|s| - 1));
    }
  }

  lemma BigSnoc(s: seq<Byte>, b: Byte)
    ensures Value(Big, s + [b]) == 256 * Value(Big, s) + b
  {
    assert Reverse(s + [b]) == [b] + Reverse(s);
  }

  lemma {:induction false} Pow256Monotone(j: nat, k: nat)
    requires j <= k
    ensures Pow256(j) <= Pow256(k)
  {
    if j < k { Pow256Monotone(j, k - 1); }
  }

  lemma FieldFits(k: nat)
    requires k <= 8
    ensures Pow256(k) <= SIZE_MODULUS == Pow256(8)
  {
    Pow256Monotone(k, 8);
    assert Pow256(8) == 256 * Pow256(7) == 65536 * Pow256(6);
    assert Pow256(6) == 256 * Pow256(5) == 65536 * Pow256(4);
    assert Pow256(4) == 256 * Pow256(3) == 65536 * Pow256(2);
    assert Pow256(2) == 256 * Pow256(1) == 65536;
  }

  // decode_length. `native` is the byte order of the machine.
  method DecodeLength(hdr: array<Byte>, fieldSize: nat, order: Endian, native: Endian) returns (length: nat)
    requires 1 <= fieldSize <= 8 && fieldSize <= hdr.Length
    ensures length == Value(order, hdr[..fieldSize])
  {
    FieldFits(fieldSize);
    if fieldSize in {2, 4, 8} {
      length := Value(native, hdr[..fieldSize]);      // memcpy into an integer
      if order != native {
        SwapChangesOrder(order, native, hdr[..fieldSize]);
        length := ByteSwap(length, fieldSize);
      }
    } else {
      length := 0;
      if order == Big {
        for i := 0 to fieldSize
          invariant length == Value(Big, hdr[..i])
        {
          assert hdr[..i + 1] == hdr[..i] + [hdr[i]];
          BigSnoc(hdr[..i], hdr[i]);
          Pow256Monotone(i + 1, fieldSize);
          length := (length * 256 + hdr[i]) % SIZE_MODULUS;
        }
      } else {
        for i := 0 to fieldSize
          invariant length == Value(Little, hdr[..i])
        {
          assert hdr[..i + 1] == hdr[..i] + [hdr[i]];
          LittleSnoc(hdr[..i], hdr[i]);
          Pow256Monotone(i + 1, fieldSize);
          length := (length + hdr[i] * Pow256(i)) % SIZE_MODULUS;
        }
      }
    }
  }

  // encode_length: writes the low-order bytes of `length` into out[..fieldSize].
  method EncodeLength(length: nat, out: array<Byte>, fieldSize: nat, order: Endian, native: Endian)
    requires 1 <= fieldSize <= 8 && fieldSize <= out.Length
    modifies out
    ensures out[..fieldSize] == Digits(order, length, fieldSize)
    ensures out[fieldSize..] == old(out[fieldSize..])
  {
    if fieldSize in {2, 4, 8} {
      EncodeBySwap(length, out, fieldSize, order, native);
    } else {
      EncodeByLoop(length, out, fieldSize, order);
    }
  }

  method EncodeBySwap(length: nat, out: array<Byte>, fieldSize: nat, order: Endian, native: Endian)
    requires fieldSize <= out.Length
    modifies out
    ensures out[..fieldSize] == Digits(order, length, fieldSize)
    ensures out[fieldSize..] == old(out[fieldSize..])
  {
    var v := length % Pow256(fieldSize);              // cast to the field's integer type
    LittleDigitsMod(length, fieldSize);
    if order != native {
      SwapThenStore(order, native, v, fieldSize);
      v := ByteSwap(v, fieldSize);
    }
    var stored := Digits(native, v, fieldSize);       // memcpy of the integer
    forall i | 0 <= i < fieldSize { out[i] := stored[i]; }
    assert out[..fieldSize] == stored;
  }

  // (n >> 8 * i) & 0xFF
  function ByteAt(n: nat, i: nat): Byte {
    (n / Pow256(i)) % 256
  }

  lemma DigitAt(order: Endian, n: nat, k: nat, i: nat)
    requires i < k
    ensures Digits(order, n, k)[i] == ByteAt(n, if order == Big then k - 1 - i else i)
  {
    LittleDigitAt(n, k, if order == Big then k - 1 - i else i);
  }

  method EncodeByLoop(length: nat, out: array<Byte>, fieldSize: nat, order: Endian)
    requires fieldSize <= out.Length
    modifies out
    ensures out[..fieldSize] == Digits(order, length, fieldSize)
    ensures out[fieldSize..] == old(out[fieldSize..])
  {
    ghost var digits := Digits(order, length, fieldSize);
    if order == Big {
      for i := 0 to fieldSize
        invariant forall j :: 0 <= j < i ==> out[j] == digits[j]
        invariant forall j :: fieldSize <= j < out.Length ==> out[j] == old(out[j])
      {
        DigitAt(Big, length, fieldSize, i);
        out[i] := ByteAt(length, fieldSize - 1 - i);
      }
    } else {
      for i := 0 to fieldSize
        invariant forall j :: 0 <= j < i ==> out[j] == digits[j]
        invariant forall j :: fieldSize <= j < out.Length ==> out[j] == old(out[j])
      {
        DigitAt(Little, length, fieldSize, i);
        out[i] := ByteAt(length, i);
      }
    }
  }
}
