/**
 * The UTF-8 encoding of a string, as Rust's `str::as_bytes` exposes it:
 * one to four bytes per Unicode scalar value.
 */
module Utf8 {
  import opened FixedWidth

  /** The UTF-8 bytes of one scalar value. */
  function EncodeChar(c: char): (r: seq<byte>)
    ensures 1 <= |r| <= 4
  {
    var v := c as int;
    if v < 0x80 then
      [ToByte(v)]
    else if v < 0x800 then
      [ToByte(0xC0 + v / 0x40), ToByte(0x80 + v % 0x40)]
    else if v < 0x1_0000 then
      [ToByte(0xE0 + v / 0x1000), ToByte(0x80 + (v / 0x40) % 0x40), ToByte(0x80 + v % 0x40)]
    else
      [ ToByte(0xF0 + v / 0x4_0000), ToByte(0x80 + (v / 0x1000) % 0x40),
        ToByte(0x80 + (v / 0x40) % 0x40), ToByte(0x80 + v % 0x40) ]
  }

  /** `s.as_bytes()`. */
  function Encode(s: string): (r: seq<byte>)
    ensures |s| <= |r| <= 4 * |s|
    decreases |s|
  {
    if |s| == 0 then [] else EncodeChar(s[0]) + Encode(s[1..])
  }

  /** A character outside ASCII starts with a byte of value at least 0xC0. */
  lemma LeadByte(c: char)
    requires c as int >= 0x80
    ensures EncodeChar(c)[0] as int >= 0xC0
  {
    var v := c as int;
    if v < 0x800 {
      LeadByteTwo(v);
    } else if v < 0x1_0000 {
      LeadByteThree(v);
    } else {
      LeadByteFour(v);
    }
  }

  lemma LeadByteTwo(v: int)
    requires 0x80 <= v < 0x800
    ensures ToByte(0xC0 + v / 0x40) as int >= 0xC0
  {
    ByteRoundTrip(0xC0 + v / 0x40);
  }

  lemma LeadByteThree(v: int)
    requires 0x800 <= v < 0x1_0000
    ensures ToByte(0xE0 + v / 0x1000) as int >= 0xC0
  {
    ByteRoundTrip(0xE0 + v / 0x1000);
  }

  lemma LeadByteFour(v: int)
    requires 0x1_0000 <= v < 0x11_0000
    ensures ToByte(0xF0 + v / 0x4_0000) as int >= 0xC0
  {
    ByteRoundTrip(0xF0 + v / 0x4_0000);
  }

  /** An ASCII character is the single byte of the same value. */
  lemma AsciiChar(c: char)
    requires c as int < 0x80
    ensures EncodeChar(c) == [ToByte(c as int)]
    ensures EncodeChar(c)[0] as int == c as int
  {
    ByteRoundTrip(c as int);
  }

  /**
   * When every encoded byte is below 0x80 the string is ASCII: one byte per
   * character, each byte the character's value.
   */
  lemma {:induction false} AsciiOnly(s: string)
    requires forall i :: 0 <= i < |Encode(s)| ==> Encode(s)[i] as int < 0x80
    ensures |Encode(s)| == |s|
    ensures forall i :: 0 <= i < |s| ==> Encode(s)[i] as int == s[i] as int
    decreases |s|
  {
    if |s| > 0 {
      var head, tail := EncodeChar(s[0]), Encode(s[1..]);
      assert Encode(s) == head + tail;
      assert head[0] == Encode(s)[0];
      if s[0] as int >= 0x80 {
        LeadByte(s[0]);
        assert false;
      }
      AsciiChar(s[0]);
      assert forall i :: 0 <= i < |tail| ==> tail[i] == Encode(s)[i + 1];
      AsciiOnly(s[1..]);
      assert forall i :: 1 <= i < |s| ==> s[i] == s[1..][i - 1];
    }
  }

  /** An ASCII string is encoded one byte per character. */
  lemma {:induction false} AsciiEncode(s: string)
    requires forall i :: 0 <= i < |s| ==> s[i] as int < 0x80
    ensures |Encode(s)| == |s|
    ensures forall i :: 0 <= i < |s| ==> Encode(s)[i] as int == s[i] as int
    decreases |s|
  {
    if |s| > 0 {
      AsciiChar(s[0]);
      AsciiEncode(s[1..]);
      assert forall i :: 1 <= i < |s| ==> s[i] == s[1..][i - 1];
    }
  }

  /** Encoding distributes over concatenation. */
  lemma {:induction false} EncodeAppend(s: string, t: string)
    ensures Encode(s + t) == Encode(s) + Encode(t)
    decreases |s|
  {
    if |s| > 0 {
      assert (s + t)[0] == s[0];
      assert (s + t)[1..] == s[1..] + t;
      EncodeAppend(s[1..], t);
    } else {
      assert s + t == t;
    }
  }

  /** An ASCII string is encoded as the bytes of its characters' values. */
  lemma AsciiBytes(s: string, b: seq<byte>)
    requires |s| == |b|
    requires forall i :: 0 <= i < |s| ==> s[i] as int < 0x80 && s[i] as int == b[i] as int
    ensures Encode(s) == b
  {
    AsciiEncode(s);
    var e := Encode(s);
    forall i | 0 <= i < |s|
      ensures e[i] == b[i]
    {
      ValueInjective(e[i], b[i]);
    }
  }
}
