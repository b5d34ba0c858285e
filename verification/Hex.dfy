/** Hexadecimal text. */
module Hex {
  import opened Wrappers
  import opened Bits
  import opened Bytes

  /** `x2b` on a byte: `(hex & 15) + 9 * (hex >> 6)`. */
  function DigitValue(c: char): Byte
  {
    (c as int % 16 + 9 * (c as int % 256 / 64)) % 256
  }

  /** `hex2byte`: two characters a byte, a last odd character ignored. */
  function FromHex(text: string): (b: Bytes)
    ensures |b| == |text| / 2
  {
    if |text| < 2 then [] else [Join(DigitValue(text[0]), DigitValue(text[1]))] + FromHex(text[2..])
  }

  /** The digit stands for the number, in either case. */
  predicate Stands(c: char, n: nat)
  {
    n < 16 && (c == "0123456789ABCDEF"[n] || c == "0123456789abcdef"[n])
  }

  lemma StandsValue(c: char, n: nat)
    requires Stands(c, n)
    ensures DigitValue(c) == n < 16
  {
    if n < 10 {
      DecimalValue(c, n);
    } else if c == "0123456789ABCDEF"[n] {
      LetterValue(c, n - 10, 65);
    } else {
      LetterValue(c, n - 10, 97);
    }
  }

  lemma DecimalValue(c: char, n: nat)
    requires n < 10 && c as int == 48 + n
    ensures DigitValue(c) == n
  {
  }

  lemma LetterValue(c: char, n: nat, first: nat)
    requires n < 6 && first in {65, 97} && c as int == first + n
    ensures DigitValue(c) == 10 + n
  {
    CodeParts(first + n, n, first);
  }

  lemma CodeParts(code: nat, n: nat, first: nat)
    requires n < 6 && first in {65, 97} && code == first + n
    ensures code % 16 == 1 + n && code % 256 == code && code / 64 == 1
  {
    if first == 65 {
      assert code == 16 * 4 + (1 + n);
    } else {
      assert code == 16 * 6 + (1 + n);
    }
  }

  lemma {:induction false} FromHexAt(text: string, i: nat)
    requires i < |text| / 2
    ensures FromHex(text)[i] == Join(DigitValue(text[2 * i]), DigitValue(text[2 * i + 1]))
  {
    hide Join, DigitValue;
    if i > 0 {
      FromHexAt(text[2..], i - 1);
      assert FromHex(text)[i] == FromHex(text[2..])[i - 1];
      assert text[2..][2 * (i - 1)] == text[2 * i] && text[2..][2 * (i - 1) + 1] == text[2 * i + 1];
    }
  }

  /** Two digits write the number to the base 16. */
  ghost predicate Writes(first: char, second: char, x: int)
  {
    exists hi: nat, lo: nat :: Stands(first, hi) && Stands(second, lo) && x == 16 * hi + lo
  }

  /** A digit of either case. */
  predicate IsHexDigit(c: char)
  {
    '0' <= c <= '9' || 'A' <= c <= 'F' || 'a' <= c <= 'f'
  }

  lemma StandsForSome(c: char) returns (n: nat)
    requires IsHexDigit(c)
    ensures Stands(c, n)
  {
    var code := c as int;
    n := if c <= '9' then code - 48 else if c <= 'F' then code - 55 else code - 87;
    if n < 10 {
      assert "0123456789ABCDEF"[n] as int == 48 + n;
    } else if c <= 'F' {
      assert "0123456789ABCDEF"[n] as int == 55 + n;
    } else {
      assert "0123456789abcdef"[n] as int == 87 + n;
    }
  }

  lemma FromHexDigits(text: string, i: nat)
    requires 2 * i + 1 < |text| && IsHexDigit(text[2 * i]) && IsHexDigit(text[2 * i + 1])
    ensures Writes(text[2 * i], text[2 * i + 1], FromHex(text)[i])
  {
    hide Join, DigitValue, Stands, IsHexDigit;
    FromHexAt(text, i);
    var hi := StandsForSome(text[2 * i]);
    var lo := StandsForSome(text[2 * i + 1]);
    StandsValue(text[2 * i], hi);
    StandsValue(text[2 * i + 1], lo);
    JoinDigits(hi, lo);
  }

  method HexToByte(text: string) returns (out: Bytes)
    ensures out == FromHex(text)
    ensures forall i | 0 <= i < |out| && IsHexDigit(text[2 * i]) && IsHexDigit(text[2 * i + 1]) ::
              Writes(text[2 * i], text[2 * i + 1], out[i])
  {
    hide Join, DigitValue, IsHexDigit, Writes;
    out := [];
    assert text[0..] == text && [] + FromHex(text) == FromHex(text);
    for i := 0 to |text| / 2
      invariant out + FromHex(text[2 * i..]) == FromHex(text)
    {
      var byte := Join(DigitValue(text[2 * i]), DigitValue(text[2 * i + 1]));
      assert text[2 * i..][2..] == text[2 * (i + 1)..];
      ConcatAssoc(out, [byte], FromHex(text[2 * (i + 1)..]));
      out := out + [byte];
    }
    assert out + [] == out;
    forall i | 0 <= i < |out| && IsHexDigit(text[2 * i]) && IsHexDigit(text[2 * i + 1])
      ensures Writes(text[2 * i], text[2 * i + 1], out[i])
    {
      FromHexDigits(text, i);
    }
  }

  function Digit(n: nat): char
    requires n < 16
  {
    if n < 10 then '0' + n as char else 'A' + (n - 10) as char
  }

  /** `%X`: two upper-case digits a byte. */
  function ToHex(b: Bytes): (text: string)
    ensures |text| == 2 * |b|
  {
    if b == [] then [] else [Digit(b[0] / 16), Digit(b[0] % 16)] + ToHex(b[1..])
  }

  predicate IsDigit(c: char)
  {
    '0' <= c <= '9' || 'A' <= c <= 'F'
  }

  lemma DigitRoundTrip(n: nat)
    requires n < 16
    ensures IsDigit(Digit(n)) && DigitValue(Digit(n)) == n
  {
    var d := Digit(n);
    if n < 10 {
      assert d as int == 48 + n;
    } else {
      assert d as int == 55 + n;
    }
  }

  lemma JoinSplits(hi: Byte, lo: Byte)
    requires hi < 16 && lo < 16
    ensures Join(hi, lo) == 16 * hi + lo && Join(hi, lo) / 16 == hi && Join(hi, lo) % 16 == lo
  {
    hide Join;
    JoinDigits(hi, lo);
  }

  lemma DigitInverse(c: char)
    requires IsDigit(c)
    ensures DigitValue(c) < 16 && Digit(DigitValue(c)) == c
  {
  }

  lemma DigitStands(n: nat)
    requires n < 16
    ensures Digit(n) == "0123456789ABCDEF"[n] && Stands(Digit(n), n)
  {
  }

  /** Each byte is printed as two upper-case digits, the high one first. */
  lemma {:induction false} ToHexDigits(b: Bytes, i: nat)
    requires i < |b|
    ensures var hi, lo := ToHex(b)[2 * i], ToHex(b)[2 * i + 1];
            && hi == "0123456789ABCDEF"[b[i] / 16] && lo == "0123456789ABCDEF"[b[i] % 16]
  {
    hide Digit;
    if i == 0 {
      DigitStands(b[0] / 16);
      DigitStands(b[0] % 16);
    } else {
      ToHexDigits(b[1..], i - 1);
      assert ToHex(b)[2..] == ToHex(b[1..]);
    }
  }

  ghost predicate AllDigits(text: string)
  {
    forall i | 0 <= i < |text| :: IsDigit(text[i])
  }

  lemma {:induction false} HexRoundTrip(b: Bytes)
    ensures FromHex(ToHex(b)) == b
    ensures AllDigits(ToHex(b))
  {
    if b != [] {
      HexRoundTrip(b[1..]);
      DigitRoundTrip(b[0] / 16);
      DigitRoundTrip(b[0] % 16);
      JoinSplits(b[0] / 16, b[0] % 16);
      hide Join, Digit, DigitValue;
      assert ToHex(b)[2..] == ToHex(b[1..]);
    }
  }

  lemma {:induction false} HexInverse(text: string)
    requires |text| % 2 == 0 && AllDigits(text)
    ensures ToHex(FromHex(text)) == text
  {
    if text != [] {
      HexInverse(text[2..]);
      DigitInverse(text[0]);
      DigitInverse(text[1]);
      JoinSplits(DigitValue(text[0]), DigitValue(text[1]));
      hide Join, Digit, DigitValue;
      assert text == [text[0], text[1]] + text[2..];
      assert FromHex(text)[1..] == FromHex(text[2..]);
    }
  }

  lemma {:induction false} ToHexConcat(a: Bytes, b: Bytes)
    ensures ToHex(a + b) == ToHex(a) + ToHex(b)
  {
    if a == [] {
      assert a + b == b && ToHex(a) + ToHex(b) == ToHex(b);
    } else {
      ToHexConcat(a[1..], b);
      assert (a + b)[1..] == a[1..] + b;
      ConcatAssoc([Digit(a[0] / 16), Digit(a[0] % 16)], ToHex(a[1..]), ToHex(b));
    }
  }

  // ---------------------------------------------------------------- parsing a hash

  function ToUpper(text: string): (r: string)
    ensures |r| == |text|
  {
    seq(|text|, i requires 0 <= i < |text| => if 'a' <= text[i] <= 'z' then text[i] - 32 as char else text[i])
  }

  /** Upper-casing makes exactly the digits of either case into upper-case digits. */
  lemma UpperDigits(text: string)
    ensures AllDigits(ToUpper(text)) <==> forall i | 0 <= i < |text| :: IsHexDigit(text[i])
  {
    forall i | 0 <= i < |text| ensures IsDigit(ToUpper(text)[i]) <==> IsHexDigit(text[i]) {
      var c := text[i];
      assert 'a' <= c <= 'z' ==> (c - 32 as char) as int == c as int - 32;
    }
  }

  /** Upper-casing leaves alone what a digit stands for. */
  lemma UpperStands(text: string, i: nat, n: nat)
    requires i < |text| && Stands(text[i], n)
    ensures Stands(ToUpper(text)[i], n)
  {
    var c := text[i];
    if n >= 10 && c == "0123456789abcdef"[n] {
      assert c as int == 87 + n && 'a' <= c <= 'z';
      assert (c - 32 as char) as int == 55 + n;
      assert c - 32 as char == "0123456789ABCDEF"[n];
    }
  }

  /** Reading the upper-case text gives the bytes that the text writes. */
  lemma UpperWrites(text: string, i: nat)
    requires 2 * i + 1 < |text| && IsHexDigit(text[2 * i]) && IsHexDigit(text[2 * i + 1])
    ensures Writes(text[2 * i], text[2 * i + 1], FromHex(ToUpper(text))[i])
  {
    hide Join, DigitValue, Stands, IsHexDigit, ToUpper;
    var hi := StandsForSome(text[2 * i]);
    var lo := StandsForSome(text[2 * i + 1]);
    UpperStands(text, 2 * i, hi);
    UpperStands(text, 2 * i + 1, lo);
    FromHexAt(ToUpper(text), i);
    StandsValue(ToUpper(text)[2 * i], hi);
    StandsValue(ToUpper(text)[2 * i + 1], lo);
    JoinDigits(hi, lo);
  }

  /** `checkHEX`. */
  method CheckHex(text: string, length: nat) returns (ok: bool)
    ensures ok <==> |text| == 2 * length && AllDigits(text)
  {
    if |text| != 2 * length {
      return false;
    }
    for i := 0 to 2 * length
      invariant forall j | 0 <= j < i :: IsDigit(text[j])
    {
      if !IsDigit(text[i]) {
        return false;
      }
    }
    return true;
  }

  /**
   `parse_hex`: 64 digits in either case, else an error; each pair of digits gives the byte it writes, and the
   result prints back as the input in upper case.
   */
  method ParseHex(text: string) returns (r: Option<Hash>)
    ensures r.Some? <==> |text| == 64 && forall i | 0 <= i < 64 :: IsHexDigit(text[i])
    ensures r.Some? ==> forall i | 0 <= i < 32 :: Writes(text[2 * i], text[2 * i + 1], r.value[i])
    ensures r.Some? ==> ToHex(r.value) == ToUpper(text)
  {
    hide Stands, ToUpper, ToHex, FromHex, IsDigit, IsHexDigit, Writes;
    if |text| != 64 {
      return None;
    }
    var upper := ToUpper(text);
    UpperDigits(text);
    var ok := CheckHex(upper, 32);
    if !ok {
      return None;
    }
    var raw := HexToByte(upper);
    HexInverse(upper);
    forall i | 0 <= i < 32 ensures Writes(text[2 * i], text[2 * i + 1], raw[i]) {
      UpperWrites(text, i);
    }
    return Some(raw);
  }
}
