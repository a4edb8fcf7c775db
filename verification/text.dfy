/** String helpers the Go code takes from its standard library:
    `strings.Split`, `strings.Contains`, decimal formatting and hex encoding.
    Strings are sequences of bytes-as-characters, as Go's `len` and slicing see them. */
module Text {
  import opened Base

  /** Number of occurrences of `c` in `s`. */
  function Count(s: string, c: char): nat
  {
    if |s| == 0 then 0 else (if s[0] == c then 1 else 0) + Count(s[1..], c)
  }

  lemma {:induction false} CountZero(s: string, c: char)
    ensures Count(s, c) == 0 <==> c !in s
  {
    if |s| > 0 {
      CountZero(s[1..], c);
      assert s == [s[0]] + s[1..];
    }
  }

  /** Inverse of `Split`: the parts glued back together with the separator. */
  function Join(parts: seq<string>, c: char): string
    requires |parts| > 0
  {
    if |parts| == 1 then parts[0] else parts[0] + [c] + Join(parts[1..], c)
  }

  /** `strings.Split(s, string(c))`: the maximal separator-free pieces of `s`.
      There is always at least one piece, and one more piece than separators. */
  function Split(s: string, c: char): (parts: seq<string>)
    ensures |parts| == Count(s, c) + 1
    ensures forall i :: 0 <= i < |parts| ==> c !in parts[i]
    ensures Join(parts, c) == s
  {
    if |s| == 0 then [""]
    else
      var rest := Split(s[1..], c);
      if s[0] == c then
        assert Join([""] + rest, c) == "" + [c] + Join(rest, c) by {
          assert ([""] + rest)[1..] == rest;
        }
        assert s == [c] + s[1..];
        [""] + rest
      else
        var first := [s[0]] + rest[0];
        assert c !in first;
        var parts := [first] + rest[1..];
        assert Join(parts, c) == s by {
          if |rest| == 1 {
            assert s == [s[0]] + s[1..];
          } else {
            assert parts[1..] == rest[1..];
            assert Join(rest, c) == rest[0] + [c] + Join(rest[1..], c);
            assert s == [s[0]] + s[1..];
          }
        }
        parts
  }

  /** Splitting `u + [c] + d` where neither side holds the separator gives back
      exactly the two sides. */
  lemma {:induction false} SplitAround(u: string, d: string, c: char)
    requires c !in u && c !in d
    ensures Split(u + [c] + d, c) == [u, d]
  {
    if |u| == 0 {
      assert u + [c] + d == [c] + d;
      assert ([c] + d)[1..] == d;
      SplitNoSeparator(d, c);
    } else {
      var s := u + [c] + d;
      assert s[0] == u[0];
      assert s[1..] == u[1..] + [c] + d;
      SplitAround(u[1..], d, c);
      assert [u[0]] + u[1..] == u;
    }
  }

  lemma {:induction false} SplitNoSeparator(s: string, c: char)
    requires c !in s
    ensures Split(s, c) == [s]
  {
  }

  predicate HasPrefix(s: string, p: string) {
    |p| <= |s| && s[..|p|] == p
  }

  /** `p` occurs in `s` starting at position `i`. */
  predicate OccursAt(s: string, p: string, i: int) {
    0 <= i <= |s| - |p| && s[i..i + |p|] == p
  }

  /** `strings.Contains(s, p)`. */
  predicate Contains(s: string, p: string)
  {
    HasPrefix(s, p) || (|s| > 0 && Contains(s[1..], p))
  }

  /** `Contains` agrees with the window definition of a substring. */
  lemma {:induction false} ContainsIffWindow(s: string, p: string)
    ensures Contains(s, p) <==> exists i :: OccursAt(s, p, i)
  {
    if |s| == 0 {
      if HasPrefix(s, p) {
        assert OccursAt(s, p, 0);
      }
    } else {
      ContainsIffWindow(s[1..], p);
      if HasPrefix(s, p) {
        assert OccursAt(s, p, 0);
      }
      if Contains(s[1..], p) {
        var i :| OccursAt(s[1..], p, i);
        assert s[i + 1..i + 1 + |p|] == s[1..][i..i + |p|];
        assert OccursAt(s, p, i + 1);
      }
      if i :| OccursAt(s, p, i) {
        if i > 0 {
          assert s[1..][i - 1..i - 1 + |p|] == s[i..i + |p|];
          assert OccursAt(s[1..], p, i - 1);
        }
      }
    }
  }

  function DigitChar(d: nat): char
    requires d < 10
  {
    "0123456789"[d]
  }

  predicate IsDigit(ch: char) {
    '0' <= ch <= '9'
  }

  function DigitValue(ch: char): nat
    requires IsDigit(ch)
  {
    (ch - '0') as nat
  }

  /** `strconv.FormatInt(n, 10)` for a non-negative `n`: no leading zeros. */
  function NatToDecimal(n: nat): (s: string)
    ensures |s| > 0
    ensures forall i :: 0 <= i < |s| ==> IsDigit(s[i])
    ensures |s| > 1 ==> s[0] != '0'
  {
    if n < 10 then [DigitChar(n)] else NatToDecimal(n / 10) + [DigitChar(n % 10)]
  }

  /** `fmt.Sprintf("%d", n)` / `strconv.FormatInt(n, 10)`. */
  function IntToDecimal(n: int): string
  {
    if n < 0 then "-" + NatToDecimal(-n) else NatToDecimal(n)
  }

  function ParseDigits(s: string): nat
    requires forall i :: 0 <= i < |s| ==> IsDigit(s[i])
  {
    if |s| == 0 then 0 else ParseDigits(s[..|s| - 1]) * 10 + DigitValue(s[|s| - 1])
  }

  /** Reading back a decimal string (what the receiving side of a query
      parameter does); `None` when the text is not a decimal integer. */
  function ParseDecimal(s: string): Option<int>
  {
    if |s| > 0 && s[0] == '-' then
      if |s| > 1 && forall i :: 1 <= i < |s| ==> IsDigit(s[i]) then Some(-(ParseDigits(s[1..]) as int)) else None
    else if |s| > 0 && forall i :: 0 <= i < |s| ==> IsDigit(s[i]) then Some(ParseDigits(s))
    else None
  }

  lemma {:induction false} ParseNatToDecimal(n: nat)
    ensures ParseDigits(NatToDecimal(n)) == n
  {
    if n >= 10 {
      ParseNatToDecimal(n / 10);
      var s := NatToDecimal(n);
      assert s[..|s| - 1] == NatToDecimal(n / 10);
    }
  }

  /** Decimal formatting is lossless. */
  lemma DecimalRoundTrip(n: int)
    ensures ParseDecimal(IntToDecimal(n)) == Some(n)
  {
    if n < 0 {
      var s := "-" + NatToDecimal(-n);
      assert s[1..] == NatToDecimal(-n);
      ParseNatToDecimal(-n);
    } else {
      ParseNatToDecimal(n);
    }
  }

  function HexDigit(d: nat): char
    requires d < 16
  {
    "0123456789abcdef"[d]
  }

  predicate IsLowerHex(ch: char) {
    ('0' <= ch <= '9') || ('a' <= ch <= 'f')
  }

  /** The value of a lower-case hex digit (0 for any other character). */
  function HexValue(ch: char): (d: nat)
    ensures d < 16
  {
    if '0' <= ch <= '9' then (ch - '0') as nat
    else if 'a' <= ch <= 'f' then (ch - 'a') as nat + 10
    else 0
  }

  /** `hex.EncodeToString`: two lower-case hex digits per byte, high nibble first. */
  function HexEncode(bytes: seq<Byte>): (s: string)
    ensures |s| == 2 * |bytes|
    ensures forall i :: 0 <= i < |s| ==> IsLowerHex(s[i])
  {
    if |bytes| == 0 then ""
    else [HexDigit(bytes[0] as nat / 16), HexDigit(bytes[0] as nat % 16)] + HexEncode(bytes[1..])
  }

  /** Inverse of `HexEncode`: one byte per pair of digits. */
  function HexDecode(s: string): seq<Byte>
  {
    if |s| < 2 then [] else [(HexValue(s[0]) * 16 + HexValue(s[1])) as Byte] + HexDecode(s[2..])
  }

  lemma HexDigitInverse(d: nat)
    requires d < 16
    ensures HexValue(HexDigit(d)) == d
  {
  }

  /** One byte survives its two hex digits. */
  lemma HexByteRoundTrip(b: Byte)
    ensures (HexValue(HexDigit(b as nat / 16)) * 16 + HexValue(HexDigit(b as nat % 16))) as Byte == b
  {
    HexDigitInverse(b as nat / 16);
    HexDigitInverse(b as nat % 16);
  }

  /** Decoding peels off one byte per leading pair of digits. */
  lemma HexDecodeCons(hi: char, lo: char, rest: string)
    ensures HexDecode([hi, lo] + rest) == [(HexValue(hi) * 16 + HexValue(lo)) as Byte] + HexDecode(rest)
  {
  }

  /** Hex encoding is lossless. */
  lemma {:induction false} HexRoundTrip(bytes: seq<Byte>)
    ensures HexDecode(HexEncode(bytes)) == bytes
  {
    if |bytes| > 0 {
      var hi := HexDigit(bytes[0] as nat / 16);
      var lo := HexDigit(bytes[0] as nat % 16);
      var rest := HexEncode(bytes[1..]);
      assert HexEncode(bytes) == [hi, lo] + rest;
      HexRoundTrip(bytes[1..]);
      HexByteRoundTrip(bytes[0]);
      HexDecodeCons(hi, lo, rest);
      assert bytes == [bytes[0]] + bytes[1..];
    }
  }
}
