/** Stored SHA-256 digests: the printer and the validator (apps/server/internal/contract/checksum.go). */
module Checksum {
  import opened Js
  import opened Text

  type Byte = b: nat | b < 256

  const SIZE := 32

  /** The 32 bytes that `sha256.Sum256` returns. */
  type Digest = d: seq<Byte> | |d| == SIZE witness seq(SIZE, _ => 0)

  /** SHA-256 itself is not modelled: any function to 32 bytes will do. */
  type Sha256 = seq<Byte> -> Digest

  /** The base-16 alphabet of RFC 4648, section 8, in lower case. */
  function HexDigit(n: nat): (c: char)
    requires n < 16
  {
    "0123456789abcdef"[n]
  }

  /** The value of a hex digit of either case, as `hex.DecodeString` reads it. */
  function HexValue(c: char): (n: Option<nat>)
    ensures n.Some? ==> n.value < 16
  {
    if '0' <= c <= '9' then Some(c as int - '0' as int)
    else if 'a' <= c <= 'f' then Some(c as int - 'a' as int + 10)
    else if 'A' <= c <= 'F' then Some(c as int - 'A' as int + 10)
    else None
  }

  function EncodeToString(bytes: seq<Byte>): (s: string)
    ensures |s| == 2 * |bytes|
  {
    if bytes == [] then ""
    else [HexDigit(bytes[0] / 16), HexDigit(bytes[0] % 16)] + EncodeToString(bytes[1..])
  }

  /** `None` for an odd length or a character that is not a hex digit. */
  function DecodeString(s: string): (bytes: Option<seq<Byte>>)
    ensures bytes.Some? ==> 2 * |bytes.value| == |s|
  {
    if s == "" then Some([])
    else if |s| == 1 then None
    else
      match (HexValue(s[0]), HexValue(s[1]), DecodeString(s[2..]))
      case (Some(high), Some(low), Some(rest)) => Some([16 * high + low] + rest)
      case _ => None
  }

  function SHA256Hex(hash: Sha256, value: seq<Byte>): string {
    EncodeToString(hash(value))
  }

  predicate ValidSHA256Hex(value: string) {
    if |value| != SIZE * 2 || Lower(value) != value then false
    else DecodeString(value).Some? && |DecodeString(value).value| == SIZE
  }

  lemma HexDigitValue(n: nat)
    requires n < 16
    ensures HexValue(HexDigit(n)) == Some(n) && LowerChar(HexDigit(n)) == HexDigit(n)
  {
  }

  lemma HexValueDigit(c: char)
    requires HexValue(c).Some? && LowerChar(c) == c
    ensures HexDigit(HexValue(c).value) == c
  {
  }

  /** A string is its own lower case exactly when its first two characters and its rest are. */
  lemma LowerByPairs(s: string)
    requires |s| >= 2
    ensures Lower(s) == s <==> LowerChar(s[0]) == s[0] && LowerChar(s[1]) == s[1] && Lower(s[2..]) == s[2..]
  {
    hide LowerChar;
    assert Lower(s) == [LowerChar(s[0]), LowerChar(s[1])] + Lower(s[2..]);
    assert s == [s[0], s[1]] + s[2..];
  }

  lemma {:induction false} DecodeOfEncode(bytes: seq<Byte>)
    ensures DecodeString(EncodeToString(bytes)) == Some(bytes)
    ensures Lower(EncodeToString(bytes)) == EncodeToString(bytes)
  {
    hide HexDigit, HexValue, LowerChar, Lower;
    var s := EncodeToString(bytes);
    if bytes == [] {
      LowerOfEmpty();
    } else {
      DecodeOfEncode(bytes[1..]);
      HexDigitValue(bytes[0] / 16);
      HexDigitValue(bytes[0] % 16);
      LowerByPairs(s);
      assert s[2..] == EncodeToString(bytes[1..]);
      assert bytes == [bytes[0]] + bytes[1..];
    }
  }

  lemma LowerOfEmpty()
    ensures Lower("") == ""
  {
  }

  lemma {:induction false} EncodeOfDecode(s: string)
    requires DecodeString(s).Some? && Lower(s) == s
    ensures EncodeToString(DecodeString(s).value) == s
  {
    hide HexDigit, HexValue, LowerChar, Lower;
    if s != "" {
      LowerByPairs(s);
      EncodeOfDecode(s[2..]);
      HexValueDigit(s[0]);
      HexValueDigit(s[1]);
      assert s == [s[0], s[1]] + s[2..];
    }
  }

  lemma {:induction false} DecodesExactly(s: string)
    ensures DecodeString(s).Some? <==> |s| % 2 == 0 && forall i :: 0 <= i < |s| ==> HexValue(s[i]).Some?
  {
    hide HexValue;
    if |s| >= 2 {
      DecodesExactly(s[2..]);
      assert forall i :: 2 <= i < |s| ==> s[i] == s[2..][i - 2];
    }
  }

  lemma DigitExactly(c: char)
    ensures c in "0123456789abcdef" <==> HexValue(c).Some? && LowerChar(c) == c
  {
    if HexValue(c).Some? && LowerChar(c) == c {
      HexValueDigit(c);
    }
  }

  /** A stored digest is 64 characters out of these sixteen. */
  lemma ValidExactly(value: string)
    ensures ValidSHA256Hex(value) <==> |value| == 64 && forall i :: 0 <= i < |value| ==> value[i] in "0123456789abcdef"
  {
    hide HexValue, LowerChar, DecodeString;
    DecodesExactly(value);
    forall i | 0 <= i < |value|
      ensures value[i] in "0123456789abcdef" <==> HexValue(value[i]).Some? && LowerChar(value[i]) == value[i]
      ensures Lower(value)[i] == LowerChar(value[i])
    {
      DigitExactly(value[i]);
    }
  }

  /** Each byte is printed as its two base-16 digits, the high one first. */
  lemma {:induction false} PrintsExactly(bytes: seq<Byte>, i: nat)
    requires i < |bytes|
    ensures EncodeToString(bytes)[2 * i] == "0123456789abcdef"[bytes[i] / 16]
    ensures EncodeToString(bytes)[2 * i + 1] == "0123456789abcdef"[bytes[i] % 16]
  {
    if i > 0 {
      PrintsExactly(bytes[1..], i - 1);
    }
  }

  /** The validator accepts exactly what the printer can print. */
  lemma ValidExactlyPrinted(value: string)
    ensures ValidSHA256Hex(value) <==> exists digest: Digest :: EncodeToString(digest) == value
  {
    if ValidSHA256Hex(value) {
      EncodeOfDecode(value);
      var digest: Digest := DecodeString(value).value;
      assert EncodeToString(digest) == value;
    }
    if digest: Digest :| EncodeToString(digest) == value {
      DecodeOfEncode(digest);
    }
  }

  /** Every stored checksum is valid, and reading it back gives the digest. */
  lemma PrintedIsValid(hash: Sha256, value: seq<Byte>)
    ensures ValidSHA256Hex(SHA256Hex(hash, value))
    ensures DecodeString(SHA256Hex(hash, value)) == Some(hash(value))
  {
    DecodeOfEncode(hash(value));
  }

  /** Two valid digests that mean the same bytes are the same string, so comparing strings compares digests. */
  lemma ValidIsInjective(a: string, b: string)
    requires ValidSHA256Hex(a) && ValidSHA256Hex(b)
    ensures DecodeString(a) == DecodeString(b) <==> a == b
  {
    EncodeOfDecode(a);
    EncodeOfDecode(b);
  }
}
