/** Base16 text as produced by Go's `hex.EncodeToString` (the lowercase
    alphabet of section 8 of RFC 4648) and read by `hex.DecodeString`,
    which accepts either case. */
module Hex {
  import opened Wrappers

  type byte = b: int | 0 <= b < 256

  predicate IsLowerHexDigit(c: char) {
    '0' <= c <= '9' || 'a' <= c <= 'f'
  }

  predicate IsHexDigit(c: char) {
    IsLowerHexDigit(c) || 'A' <= c <= 'F'
  }

  /** The lowercase digit for a nibble. */
  function DigitOf(n: int): (c: char)
    requires 0 <= n < 16
    ensures IsLowerHexDigit(c)
    ensures ValueOf(c) == n
  {
    if n < 10 then ('0' as int + n) as char else ('a' as int + n - 10) as char
  }

  /** The nibble a digit of either case stands for. */
  function ValueOf(c: char): (n: int)
    requires IsHexDigit(c)
    ensures 0 <= n < 16
  {
    if '0' <= c <= '9' then c as int - '0' as int
    else if 'a' <= c <= 'f' then c as int - 'a' as int + 10
    else c as int - 'A' as int + 10
  }

  lemma DigitOfValueOf(c: char)
    requires IsLowerHexDigit(c)
    ensures DigitOf(ValueOf(c)) == c
  {
  }

  /** Two lowercase digits per byte, high nibble first. */
  function Encode(bs: seq<byte>): (s: string)
    ensures |s| == 2 * |bs|
    ensures forall i :: 0 <= i < |s| ==> IsLowerHexDigit(s[i])
    ensures forall i :: 0 <= i < |bs| ==> s[2 * i] == DigitOf(bs[i] / 16) && s[2 * i + 1] == DigitOf(bs[i] % 16)
  {
    if |bs| == 0 then ""
    else [DigitOf(bs[0] / 16), DigitOf(bs[0] % 16)] + Encode(bs[1..])
  }

  /** Decoding fails exactly on odd length or on a character outside the
      alphabet; on success every byte comes from two characters. */
  function Decode(s: string): (r: Option<seq<byte>>)
    ensures r.Some? <==> |s| % 2 == 0 && forall i :: 0 <= i < |s| ==> IsHexDigit(s[i])
    ensures r.Some? ==> 2 * |r.value| == |s|
    ensures r.Some? ==> forall i :: 0 <= i < |r.value| ==> r.value[i] == ValueOf(s[2 * i]) * 16 + ValueOf(s[2 * i + 1])
    decreases |s|
  {
    if |s| == 0 then Some([])
    else if |s| == 1 || !IsHexDigit(s[0]) || !IsHexDigit(s[1]) then None
    else
      var rest := Decode(s[2..]);
      assert rest.Some? <==> forall i :: 0 <= i < |s| ==> IsHexDigit(s[i]) && |s| % 2 == 0 by {
        assert forall i :: 2 <= i < |s| ==> s[2..][i - 2] == s[i];
      }
      match rest
      case None => None
      case Some(tail) => Some([ValueOf(s[0]) * 16 + ValueOf(s[1])] + tail)
  }

  /** Decoding undoes encoding. */
  lemma {:induction false} DecodeEncode(bs: seq<byte>)
    ensures Decode(Encode(bs)) == Some(bs)
  {
    if |bs| > 0 {
      var b := bs[0];
      var s := Encode(bs);
      assert s == [DigitOf(b / 16), DigitOf(b % 16)] + Encode(bs[1..]);
      assert Decode(s[2..]) == Some(bs[1..]) by {
        assert s[2..] == Encode(bs[1..]);
        DecodeEncode(bs[1..]);
      }
      assert ValueOf(s[0]) * 16 + ValueOf(s[1]) == b by {
        assert ValueOf(s[0]) == b / 16 && ValueOf(s[1]) == b % 16;
      }
      assert bs == [b] + bs[1..];
    }
  }

  /** Encoding undoes decoding of lowercase text. */
  lemma {:induction false} EncodeDecode(s: string)
    requires forall i :: 0 <= i < |s| ==> IsLowerHexDigit(s[i])
    requires Decode(s).Some?
    ensures Encode(Decode(s).value) == s
  {
    if |s| > 0 {
      var tail := Decode(s[2..]).value;
      var b := ValueOf(s[0]) * 16 + ValueOf(s[1]);
      var bs := [b] + tail;
      assert Decode(s).value == bs;
      assert Encode(tail) == s[2..] by {
        EncodeDecode(s[2..]);
      }
      assert [DigitOf(b / 16), DigitOf(b % 16)] == [s[0], s[1]] by {
        assert b / 16 == ValueOf(s[0]) && b % 16 == ValueOf(s[1]);
        DigitOfValueOf(s[0]);
        DigitOfValueOf(s[1]);
      }
      assert bs[1..] == tail;
      assert Encode(bs) == [s[0], s[1]] + s[2..];
      assert s == [s[0], s[1]] + s[2..];
    }
  }
}
