// hex2int and int2hex of the qemud daemon (android/qemud/qemud.c).
module Hex {
  import opened Bytes

  // The value of one hexadecimal digit of either case, or -1.
  function DigitValue(c: Byte): (d: int)
    ensures -1 <= d < 16
  {
    if 48 <= c < 58 then c - 48
    else if 97 <= c < 103 then c - 97 + 10
    else if 65 <= c < 71 then c - 65 + 10
    else -1
  }

  // The digits that int2hex writes.
  function DigitChar(d: nat): (c: Byte)
    requires d < 16
    ensures DigitValue(c) == d
  {
    if d < 10 then 48 + d else 97 + d - 10
  }

  // The number a digit string denotes, most significant digit first, or -1 when
  // some byte is not a digit.
  function Value(digits: seq<Byte>): (v: int)
    ensures -1 <= v
  {
    if digits == [] then 0
    else
      var n := |digits| - 1;
      var high, low := Value(digits[..n]), DigitValue(digits[n]);
      if high < 0 || low < 0 then -1 else 16 * high + low
  }

  // value >> (4 * k), the arithmetic shift of the source.
  function ShiftRight(value: int, k: nat): int {
    if k == 0 then value else ShiftRight(value, k - 1) / 16
  }

  // The low `width` hexadecimal digits of a value.
  function Text(value: int, width: nat): (t: seq<Byte>)
    ensures |t| == width
    decreases width
  {
    if width == 0 then [] else Text(value / 16, width - 1) + [DigitChar(value % 16)]
  }

  function Pow16(k: nat): (p: nat)
    ensures p > 0
  {
    if k == 0 then 1 else 16 * Pow16(k - 1)
  }

  // One bad digit anywhere makes the whole number malformed.
  lemma {:induction false} ValueOfPrefix(digits: seq<Byte>, n: nat)
    requires n <= |digits|
    requires Value(digits[..n]) < 0
    ensures Value(digits) < 0
    decreases |digits|
  {
    if n == |digits| {
      assert digits[..n] == digits;
    } else {
      assert digits[..|digits| - 1][..n] == digits[..n];
      ValueOfPrefix(digits[..|digits| - 1], n);
    }
  }

  predicate AllDigits(digits: seq<Byte>) {
    forall i :: 0 <= i < |digits| ==> DigitValue(digits[i]) >= 0
  }

  // The value is -1 exactly if some byte is no digit.
  lemma {:induction false} ValueIsBad(digits: seq<Byte>)
    ensures Value(digits) == -1 <==> !AllDigits(digits)
  {
    if digits != [] {
      var n := |digits| - 1;
      ValueIsBad(digits[..n]);
      if !AllDigits(digits) {
        var i :| 0 <= i < |digits| && DigitValue(digits[i]) < 0;
        assert i < n ==> digits[..n][i] == digits[i];
      }
      if !AllDigits(digits[..n]) {
        var i :| 0 <= i < n && DigitValue(digits[..n][i]) < 0;
        assert digits[i] == digits[..n][i];
      }
    }
  }

  // A digit string of length w denotes less than 16^w, so the four digits of a
  // length field stay below 65536 and the two of a channel below 256.
  lemma {:induction false} ValueBound(digits: seq<Byte>)
    ensures Value(digits) < Pow16(|digits|)
    ensures AllDigits(digits) ==> 0 <= Value(digits)
  {
    ValueIsBad(digits);
    if digits != [] {
      ValueBound(digits[..|digits| - 1]);
    }
  }

  lemma ModUnique(v: int, m: int, q: int, r: int)
    requires 0 <= r < m && v == q * m + r
    ensures v % m == r
  {
    var d := v / m - q;
    assert d * m == r - v % m by {
      assert v == (v / m) * m + v % m;
      assert d * m == (v / m) * m - q * m;
    }
    assert d >= 1 ==> d * m >= m;
    assert d <= -1 ==> d * m <= -m;
    assert d == 0;
  }

  lemma ModStep(v: int, p: int)
    requires p > 0
    ensures v % (16 * p) == 16 * ((v / 16) % p) + v % 16
  {
    var q, r := (v / 16) / p, (v / 16) % p;
    assert v / 16 == q * p + r;
    assert v == q * (16 * p) + (16 * r + v % 16) by {
      assert v == 16 * (v / 16) + v % 16;
      assert 16 * (q * p) == q * (16 * p);
    }
    assert 16 * r + 16 <= 16 * p;
    ModUnique(v, 16 * p, q, 16 * r + v % 16);
  }

  // hex2int undoes int2hex up to the digits that fit.
  lemma {:induction false} ValueOfText(value: int, width: nat)
    ensures Value(Text(value, width)) == value % Pow16(width)
    decreases width
  {
    if width > 0 {
      ValueOfText(value / 16, width - 1);
      ModStep(value, Pow16(width - 1));
      var t := Text(value, width);
      assert t[..width - 1] == Text(value / 16, width - 1);
    }
  }

  // The bytes int2hex can produce: digits, with the letters in lower case.
  predicate Canonical(digits: seq<Byte>) {
    forall i :: 0 <= i < |digits| ==> 48 <= digits[i] < 58 || 97 <= digits[i] < 103
  }

  lemma {:induction false} TextIsCanonical(value: int, width: nat)
    ensures Canonical(Text(value, width))
    decreases width
  {
    if width > 0 {
      TextIsCanonical(value / 16, width - 1);
    }
  }

  // int2hex undoes hex2int exactly on the canonical digit strings.
  lemma {:induction false} TextOfValue(digits: seq<Byte>)
    requires Value(digits) >= 0
    ensures Text(Value(digits), |digits|) == digits <==> Canonical(digits)
  {
    TextIsCanonical(Value(digits), |digits|);
    if Canonical(digits) {
      TextOfCanonical(digits);
    }
  }

  lemma {:induction false} TextOfCanonical(digits: seq<Byte>)
    requires Canonical(digits)
    ensures Value(digits) >= 0
    ensures Text(Value(digits), |digits|) == digits
  {
    if digits != [] {
      var n := |digits| - 1;
      TextOfCanonical(digits[..n]);
      assert Value(digits) / 16 == Value(digits[..n]);
      assert DigitChar(Value(digits) % 16) == digits[n];
      assert digits == digits[..n] + [digits[n]];
    }
  }

  // hex2int: scan left to right, giving up at the first byte that is no digit.
  method Hex2Int(data: seq<Byte>, len: nat) returns (result: int)
    requires len <= |data|
    ensures result == Value(data[..len])
    ensures result == -1 <==> exists i :: 0 <= i < len && DigitValue(data[i]) < 0
  {
    ValueIsBad(data[..len]);
    assert AllDigits(data[..len]) <==> forall i :: 0 <= i < len ==> DigitValue(data[..len][i]) >= 0;
    result := 0;
    var i := 0;
    while i < len
      invariant 0 <= i <= len
      invariant result >= 0 && result == Value(data[..i])
    {
      var d := DigitValue(data[i]);
      assert data[..i + 1][..i] == data[..i];
      if d < 0 {
        assert data[..len][..i + 1] == data[..i + 1];
        ValueOfPrefix(data[..len], i + 1);
        return -1;
      }
      result := result * 16 + d;
      i := i + 1;
    }
  }

  // int2hex: fill `width` digits from the most significant one down.
  method Int2Hex(value: int, width: nat) returns (to: seq<Byte>)
    ensures to == Text(value, width)
  {
    to := [];
    var w := width;
    while w > 0
      invariant 0 <= w <= width
      invariant to == Text(ShiftRight(value, w), width - w)
    {
      w := w - 1;
      to := to + [DigitChar(ShiftRight(value, w) % 16)];
    }
  }
}
