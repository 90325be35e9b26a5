/** The byte form of strings, section 3 of RFC 3629: what `str::len` measures. */
module Utf8 {
  import opened MachineInts
  import opened Text

  function EncodeChar(c: char): (r: seq<byte>)
    ensures 1 <= |r| <= 4
  {
    var n := c as int;
    if n < 0x80 then [n]
    else if n < 0x800 then [0xC0 + n / 0x40, 0x80 + n % 0x40]
    else if n < 0x10000 then [0xE0 + n / 0x1000, 0x80 + n / 0x40 % 0x40, 0x80 + n % 0x40]
    else [0xF0 + n / 0x40000, 0x80 + n / 0x1000 % 0x40, 0x80 + n / 0x40 % 0x40, 0x80 + n % 0x40]
  }

  function Encode(s: string): seq<byte> {
    if s == [] then [] else EncodeChar(s[0]) + Encode(s[1..])
  }

  /** How many bytes follow a first byte. */
  function BytesAfter(lead: byte): nat {
    if lead < 0xC0 then 0 else if lead < 0xE0 then 1 else if lead < 0xF0 then 2 else 3
  }

  /** The first byte of a character tells its length. */
  lemma LeadTellsLength(c: char)
    ensures |EncodeChar(c)| == 1 + BytesAfter(EncodeChar(c)[0])
  {
  }

  lemma CharDetermined(a: char, b: char)
    requires EncodeChar(a) == EncodeChar(b)
    ensures a == b
  {
    var x, y := EncodeChar(a), EncodeChar(b);
    assert forall i :: 0 <= i < |x| ==> x[i] == y[i];
    assert x[|x| - 1] == y[|x| - 1];
    SplitBits(a as int);
    SplitBits(b as int);
    if |x| == 2 {
      assert x[0] == y[0] && x[1] == y[1];
    } else if |x| == 3 {
      assert x[0] == y[0] && x[1] == y[1] && x[2] == y[2];
    } else if |x| == 4 {
      assert x[0] == y[0] && x[1] == y[1] && x[2] == y[2] && x[3] == y[3];
    }
  }

  /** A number is given by its digits to base 64. */
  lemma SplitBits(n: nat)
    ensures n == n / 0x40 * 0x40 + n % 0x40
    ensures n / 0x40 == n / 0x1000 * 0x40 + n / 0x40 % 0x40
    ensures n / 0x1000 == n / 0x40000 * 0x40 + n / 0x1000 % 0x40
  {
  }

  /** The bytes determine the text. */
  lemma {:induction false} EncodeInjective(s: string, t: string)
    requires Encode(s) == Encode(t)
    ensures s == t
  {
    if s != [] && t != [] {
      hide EncodeChar;
      var a, b := EncodeChar(s[0]), EncodeChar(t[0]);
      assert Encode(s)[0] == a[0] && Encode(t)[0] == b[0];
      LeadTellsLength(s[0]);
      LeadTellsLength(t[0]);
      assert Encode(s)[..|a|] == a && Encode(t)[..|b|] == b;
      CharDetermined(s[0], t[0]);
      assert Encode(s)[|a|..] == Encode(s[1..]) && Encode(t)[|b|..] == Encode(t[1..]);
      EncodeInjective(s[1..], t[1..]);
      assert s == [s[0]] + s[1..] && t == [t[0]] + t[1..];
    }
  }

  /** The length the program limits is the number of these bytes. */
  lemma {:induction false} LengthIsBytes(s: string)
    ensures Utf8Len(s) == |Encode(s)|
  {
    if s != [] {
      LengthIsBytes(s[1..]);
      assert Utf8CharLen(s[0]) == |EncodeChar(s[0])|;
    }
  }
}
