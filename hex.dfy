/**
  The `toHex` helper of `GenerateDataMojo`: a byte array rendered as upper-case
  hexadecimal, two characters per byte, in byte order. Both revisions of the
  plugin carry the same body, so it is modelled once here, together with a
  decoder that serves as its inverse and the lower-casing applied to the SHA-1
  digest in the newer revision's download URL.
*/
module Hex {
  import opened Options

  /** A Java `byte`: a signed two's-complement 8-bit value. */
  type JByte = b: int | -128 <= b < 128
  type Bytes = seq<JByte>

  predicate IsUpperHexDigit(c: char) { '0' <= c <= '9' || 'A' <= c <= 'F' }
  predicate IsLowerHexDigit(c: char) { '0' <= c <= '9' || 'a' <= c <= 'f' }

  /** `b & 0xFF` once the byte is promoted to `int`: its unsigned value. */
  function Unsigned(b: JByte): (u: int)
    ensures 0 <= u < 256 && (u - b) % 256 == 0
  {
    if b < 0 then b + 256 else b
  }

  /** The byte whose unsigned value is `u` (the cast `(byte) u`). */
  function Signed(u: int): (b: JByte)
    requires 0 <= u < 256
    ensures Unsigned(b) == u
  {
    if u < 128 then u else u - 256
  }

  /** One digit of the `%X` conversion. */
  function HexDigit(d: int): (c: char)
    requires 0 <= d < 16
    ensures IsUpperHexDigit(c)
  {
    if d < 10 then ('0' as int + d) as char else ('A' as int + d - 10) as char
  }

  /** `String.format("%02X", b & 0xFF)`: exactly two upper-case digits, high nibble first. */
  function FormatByte(b: JByte): (s: string)
    ensures |s| == 2 && IsUpperHexDigit(s[0]) && IsUpperHexDigit(s[1])
  {
    var u := Unsigned(b);
    [HexDigit(u / 16), HexDigit(u % 16)]
  }

  /** What `toHex(hash)` returns: the bytes' two-digit renderings, concatenated in order. */
  function HexOf(bs: Bytes): (s: string)
    ensures |s| == 2 * |bs|
  {
    if bs == [] then "" else HexOf(bs[..|bs| - 1]) + FormatByte(bs[|bs| - 1])
  }

  /**
    `toHex`: a `StringBuilder` that appends one formatted byte per iteration of
    a loop over the array.
  */
  method ToHex(hash: Bytes) returns (s: string)
    ensures s == HexOf(hash)
    ensures |s| == 2 * |hash|
  {
    s := "";
    for i := 0 to |hash|
      invariant s == HexOf(hash[..i])
    {
      assert hash[..i + 1][..i] == hash[..i];
      s := s + FormatByte(hash[i]);
    }
    assert hash[..|hash|] == hash;
  }

  /** The value of a hexadecimal digit of either case. */
  function DigitValue(c: char): (r: Option<int>)
    ensures r.Some? ==> 0 <= r.value < 16
  {
    if '0' <= c <= '9' then Some(c as int - '0' as int)
    else if 'A' <= c <= 'F' then Some(c as int - 'A' as int + 10)
    else if 'a' <= c <= 'f' then Some(c as int - 'a' as int + 10)
    else None
  }

  /** Hexadecimal decoding, pair by pair; `None` for an odd length or a non-digit. */
  function Unhex(s: string): (r: Option<Bytes>)
    ensures r.Some? ==> |s| == 2 * |r.value|
    decreases |s|
  {
    if |s| < 2 then
      if s == [] then Some([]) else None
    else
      var n := |s|;
      match (Unhex(s[..n - 2]), DigitValue(s[n - 2]), DigitValue(s[n - 1]))
      case (Some(init), Some(hi), Some(lo)) => Some(init + [Signed(16 * hi + lo)])
      case _ => None
  }

  /** `String.toLowerCase`, restricted to what matters for hexadecimal text: ASCII letters. */
  function LowerChar(c: char): (r: char)
    ensures 'A' <= c <= 'Z' ==> 'a' <= r <= 'z'
    ensures !('A' <= c <= 'Z') ==> r == c
  {
    if 'A' <= c <= 'Z' then (c as int + 32) as char else c
  }

  function ToLowerCase(s: string): (r: string)
    ensures |r| == |s|
  {
    seq(|s|, k requires 0 <= k < |s| => LowerChar(s[k]))
  }

  lemma SignedUnsigned(b: JByte)
    ensures Signed(Unsigned(b)) == b
  {
  }

  lemma FormatByteDecodes(b: JByte)
    ensures DigitValue(FormatByte(b)[0]) == Some(Unsigned(b) / 16)
    ensures DigitValue(FormatByte(b)[1]) == Some(Unsigned(b) % 16)
    ensures Signed(16 * (Unsigned(b) / 16) + Unsigned(b) % 16) == b
  {
    SignedUnsigned(b);
  }

  /** Byte `i` of the input is rendered by characters `2i` and `2i+1` of the output. */
  lemma {:induction false} HexOfPairs(bs: Bytes, i: nat)
    requires i < |bs|
    ensures HexOf(bs)[2 * i..2 * i + 2] == FormatByte(bs[i])
  {
    var n := |bs|;
    var init := bs[..n - 1];
    assert HexOf(bs) == HexOf(init) + FormatByte(bs[n - 1]);
    if i < n - 1 {
      HexOfPairs(init, i);
      assert HexOf(bs)[2 * i..2 * i + 2] == HexOf(init)[2 * i..2 * i + 2];
    } else {
      assert HexOf(bs)[2 * i..2 * i + 2] == HexOf(bs)[|HexOf(init)|..];
    }
  }

  /** Every character of the output is one of `0-9A-F`. */
  lemma {:induction false} HexOfAlphabet(bs: Bytes)
    ensures forall k :: 0 <= k < |HexOf(bs)| ==> IsUpperHexDigit(HexOf(bs)[k])
  {
    if bs != [] {
      var init := bs[..|bs| - 1];
      HexOfAlphabet(init);
      var s := HexOf(bs);
      assert s == HexOf(init) + FormatByte(bs[|bs| - 1]);
      forall k | 0 <= k < |s|
        ensures IsUpperHexDigit(s[k])
      {
        if k < |HexOf(init)| {
          assert s[k] == HexOf(init)[k];
        } else {
          assert s[k] == FormatByte(bs[|bs| - 1])[k - |HexOf(init)|];
        }
      }
    }
  }

  /** Decoding the output of `toHex` gives back the original bytes. */
  lemma {:induction false} UnhexHexOf(bs: Bytes)
    ensures Unhex(HexOf(bs)) == Some(bs)
  {
    if bs != [] {
      var n := |bs|;
      var init := bs[..n - 1];
      var s := HexOf(bs);
      var m := |s|;
      UnhexHexOf(init);
      assert s == HexOf(init) + FormatByte(bs[n - 1]);
      assert s[..m - 2] == HexOf(init);
      assert s[m - 2] == FormatByte(bs[n - 1])[0];
      assert s[m - 1] == FormatByte(bs[n - 1])[1];
      FormatByteDecodes(bs[n - 1]);
      assert bs == init + [bs[n - 1]];
    }
  }

  /** Two byte arrays with the same rendering are equal. */
  lemma HexOfInjective(a: Bytes, b: Bytes)
    requires HexOf(a) == HexOf(b)
    ensures a == b
  {
    UnhexHexOf(a);
    UnhexHexOf(b);
  }

  lemma LowerDigitValue(c: char)
    requires IsUpperHexDigit(c)
    ensures IsLowerHexDigit(LowerChar(c))
    ensures DigitValue(LowerChar(c)) == DigitValue(c)
  {
  }

  /** Lower-casing hexadecimal text does not change what it decodes to. */
  lemma {:induction false} UnhexLowerCase(s: string)
    requires forall k :: 0 <= k < |s| ==> IsUpperHexDigit(s[k])
    ensures Unhex(ToLowerCase(s)) == Unhex(s)
    decreases |s|
  {
    var t := ToLowerCase(s);
    var n := |s|;
    if n >= 2 {
      assert t[..n - 2] == ToLowerCase(s[..n - 2]);
      UnhexLowerCase(s[..n - 2]);
      LowerDigitValue(s[n - 2]);
      LowerDigitValue(s[n - 1]);
    }
  }

  /**
    The lower-cased rendering used in a download URL: twice as long as the input,
    only `0-9a-f`, and still decodes to the original bytes.
  */
  lemma LowerHexOf(bs: Bytes)
    ensures |ToLowerCase(HexOf(bs))| == 2 * |bs|
    ensures forall k :: 0 <= k < 2 * |bs| ==> IsLowerHexDigit(ToLowerCase(HexOf(bs))[k])
    ensures Unhex(ToLowerCase(HexOf(bs))) == Some(bs)
  {
    HexOfAlphabet(bs);
    UnhexHexOf(bs);
    UnhexLowerCase(HexOf(bs));
    forall k | 0 <= k < 2 * |bs|
      ensures IsLowerHexDigit(ToLowerCase(HexOf(bs))[k])
    {
      LowerDigitValue(HexOf(bs)[k]);
    }
  }
}
