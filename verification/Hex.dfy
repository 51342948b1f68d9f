/** Lower-case hexadecimal, as `hex::encode` writes it. */
module Hex {
  import opened Text
  import opened Wrappers

  function Digit(n: int): (c: char)
    requires 0 <= n < 16
    ensures c != '/' && c as int < 0x80
  {
    "0123456789abcdef"[n]
  }

  function Value(c: char): (n: Option<int>)
    ensures n.Some? ==> 0 <= n.value < 16
  {
    if '0' <= c <= '9' then Some(c as int - '0' as int)
    else if 'a' <= c <= 'f' then Some(c as int - 'a' as int + 10)
    else None
  }

  function Encode(b: Bytes): (s: string)
    ensures |s| == 2 * |b|
    ensures '/' !in s
  {
    if b == [] then "" else [Digit(b[0] / 16), Digit(b[0] % 16)] + Encode(b[1..])
  }

  function Decode(s: string): Option<Bytes> {
    if s == "" then Some([])
    else if |s| == 1 then None
    else
      match (Value(s[0]), Value(s[1]), Decode(s[2..]))
      case (Some(h), Some(l), Some(rest)) => Some([16 * h + l] + rest)
      case _ => None
  }

  lemma {:induction false} DecodeEncode(b: Bytes)
    ensures Decode(Encode(b)) == Some(b)
  {
    hide Digit, Value;
    if b == [] {
    } else {
      DecodeEncode(b[1..]);
      DigitValue(b[0] / 16);
      DigitValue(b[0] % 16);
      var s := Encode(b);
      assert s[2..] == Encode(b[1..]);
      assert s[0] == Digit(b[0] / 16) && s[1] == Digit(b[0] % 16);
      assert b == [16 * (b[0] / 16) + b[0] % 16] + b[1..];
    }
  }

  lemma DigitValue(n: int)
    requires 0 <= n < 16
    ensures Value(Digit(n)) == Some(n)
  {
    assert "0123456789abcdef"[n] == if n < 10 then '0' + n as char else 'a' + (n - 10) as char;
  }

  lemma EncodeInjective(a: Bytes, b: Bytes)
    requires Encode(a) == Encode(b)
    ensures a == b
  {
    DecodeEncode(a);
    DecodeEncode(b);
  }

  /** The digit for `n`: 0 to 9, then a to f. */
  predicate IsDigit(c: char, n: int) {
    (0 <= n < 10 && c as int == '0' as int + n) || (10 <= n < 16 && c as int == 'a' as int + n - 10)
  }

  lemma DigitIs(n: int)
    requires 0 <= n < 16
    ensures IsDigit(Digit(n), n)
  {
    DigitValue(n);
  }

  /** Which digit stands at each place: the upper half of each byte, then its lower half. */
  lemma {:induction false} EncodeAt(b: Bytes, i: nat)
    requires i < |b|
    ensures IsDigit(Encode(b)[2 * i], b[i] / 16) && IsDigit(Encode(b)[2 * i + 1], b[i] % 16)
  {
    hide Digit;
    if i == 0 {
      DigitIs(b[0] / 16);
      DigitIs(b[0] % 16);
    } else {
      EncodeAt(b[1..], i - 1);
      var rest := Encode(b[1..]);
      assert Encode(b)[2 * i] == rest[2 * (i - 1)] && Encode(b)[2 * i + 1] == rest[2 * (i - 1) + 1];
    }
  }
}
