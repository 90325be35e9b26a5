/** String operations of the program: trimming, ASCII case, hex digits, UTF-8 length and the normalisers. */
module Text {
  import opened Wrappers

  // ---- trimming ----

  /** Unicode White_Space, the set `str::trim` removes. */
  predicate IsWhitespace(c: char) {
    var n := c as int;
    9 <= n <= 13 || n == 32 || n == 0x85 || n == 0xA0 || n == 0x1680 || 0x2000 <= n <= 0x200A
    || n == 0x2028 || n == 0x2029 || n == 0x202F || n == 0x205F || n == 0x3000
  }

  function TrimStart(s: string): (r: string)
    ensures |r| <= |s|
    ensures r != [] ==> !IsWhitespace(r[0])
    ensures s != [] && !IsWhitespace(s[0]) ==> r == s
  {
    if s != [] && IsWhitespace(s[0]) then TrimStart(s[1..]) else s
  }

  function TrimEnd(s: string): (r: string)
    ensures r <= s
    ensures r != [] ==> !IsWhitespace(r[|r| - 1])
    ensures s != [] && !IsWhitespace(s[|s| - 1]) ==> r == s
  {
    if s != [] && IsWhitespace(s[|s| - 1]) then TrimEnd(s[..|s| - 1]) else s
  }

  function Trim(s: string): (r: string)
    ensures r != [] ==> !IsWhitespace(r[0]) && !IsWhitespace(r[|r| - 1])
    ensures s != [] && !IsWhitespace(s[0]) && !IsWhitespace(s[|s| - 1]) ==> r == s
  {
    TrimEnd(TrimStart(s))
  }

  lemma {:induction false} TrimStartTakesBlanks(s: string)
    ensures var n := |s| - |TrimStart(s)|;
            TrimStart(s) == s[n..] && forall k :: 0 <= k < n ==> IsWhitespace(s[k])
  {
    if s != [] && IsWhitespace(s[0]) {
      TrimStartTakesBlanks(s[1..]);
      var n := |s[1..]| - |TrimStart(s[1..])|;
      assert forall k :: 1 <= k < n + 1 ==> s[k] == s[1..][k - 1];
    }
  }

  lemma {:induction false} TrimEndTakesBlanks(s: string)
    ensures var n := |TrimEnd(s)|;
            n <= |s| && TrimEnd(s) == s[..n] && forall k :: n <= k < |s| ==> IsWhitespace(s[k])
  {
    if s != [] && IsWhitespace(s[|s| - 1]) {
      TrimEndTakesBlanks(s[..|s| - 1]);
    }
  }

  /** Trimming takes blanks off both ends and nothing else. */
  lemma TrimTakesBlanks(s: string) returns (i: nat, j: nat)
    ensures i <= j <= |s| && Trim(s) == s[i..j]
    ensures forall k :: 0 <= k < i || j <= k < |s| ==> IsWhitespace(s[k])
  {
    TrimStartTakesBlanks(s);
    var t := TrimStart(s);
    TrimEndTakesBlanks(t);
    i := |s| - |t|;
    j := i + |TrimEnd(t)|;
    forall k | j <= k < |s| ensures IsWhitespace(s[k]) {
      assert s[k] == t[k - i];
    }
  }

  predicate HasNonBlank(s: string) {
    exists k :: 0 <= k < |s| && !IsWhitespace(s[k])
  }

  /** Something is left exactly of a text with a character that is no blank. */
  lemma TrimLeavesIff(s: string)
    ensures Trim(s) != [] <==> HasNonBlank(s)
  {
    var i, j := TrimTakesBlanks(s);
    if Trim(s) != [] {
      assert s[i] == Trim(s)[0];
    }
  }

  // ---- ASCII case and hex ----

  predicate IsAsciiUpper(c: char) {
    'A' <= c <= 'Z'
  }

  function LowerChar(c: char): (r: char)
    ensures !IsAsciiUpper(r)
  {
    if IsAsciiUpper(c) then (c as int + 32) as char else c
  }

  /** `to_ascii_lowercase` */
  function Lower(s: string): (r: string)
    ensures |r| == |s|
    ensures forall i :: 0 <= i < |s| ==> r[i] == LowerChar(s[i])
  {
    seq(|s|, i requires 0 <= i < |s| => LowerChar(s[i]))
  }

  lemma LowerConcat(a: string, b: string)
    ensures Lower(a + b) == Lower(a) + Lower(b)
  {
    forall i | 0 <= i < |a + b| ensures Lower(a + b)[i] == (Lower(a) + Lower(b))[i] {
      assert (a + b)[i] == if i < |a| then a[i] else b[i - |a|];
    }
  }

  function UpperChar(c: char): char {
    if 'a' <= c <= 'z' then (c as int - 32) as char else c
  }

  /** `to_ascii_uppercase` */
  function Upper(s: string): (r: string)
    ensures |r| == |s|
    ensures forall i :: 0 <= i < |s| ==> r[i] == UpperChar(s[i])
  {
    seq(|s|, i requires 0 <= i < |s| => UpperChar(s[i]))
  }

  const LOWER_LETTERS: string := "abcdefghijklmnopqrstuvwxyz"
  const UPPER_LETTERS: string := "ABCDEFGHIJKLMNOPQRSTUVWXYZ"

  /** Folding swaps the letters at the same place of the two alphabets and touches no other character. */
  lemma FoldingIsByPlace(c: char, i: nat)
    requires i < 26
    ensures LowerChar(UPPER_LETTERS[i]) == LOWER_LETTERS[i] && UpperChar(LOWER_LETTERS[i]) == UPPER_LETTERS[i]
    ensures c !in UPPER_LETTERS ==> LowerChar(c) == c
    ensures c !in LOWER_LETTERS ==> UpperChar(c) == c
  {
    if 'A' <= c <= 'Z' {
      assert UPPER_LETTERS[c as int - 'A' as int] == c;
    }
    if 'a' <= c <= 'z' {
      assert LOWER_LETTERS[c as int - 'a' as int] == c;
    }
  }

  predicate IsHexDigit(c: char) {
    '0' <= c <= '9' || 'a' <= c <= 'f' || 'A' <= c <= 'F'
  }

  predicate IsLowerHexDigit(c: char) {
    '0' <= c <= '9' || 'a' <= c <= 'f'
  }

  predicate AllHex(s: string) {
    forall i :: 0 <= i < |s| ==> IsHexDigit(s[i])
  }

  /** Exactly `n` lower-case hex digits: what every stored identifier and hash looks like. */
  predicate IsLowerHex(s: string, n: nat) {
    |s| == n && forall i :: 0 <= i < |s| ==> IsLowerHexDigit(s[i])
  }

  /** Folding turns hex digits, and nothing else, into lower-case hex digits. */
  lemma FoldedHexIff(s: string, n: nat)
    ensures AllHex(Lower(s)) <==> AllHex(s)
    ensures IsLowerHex(Lower(s), n) <==> |s| == n && AllHex(s)
  {
    assert forall i :: 0 <= i < |s| ==> (IsHexDigit(s[i]) <==> IsLowerHexDigit(Lower(s)[i]));
    assert forall i :: 0 <= i < |s| ==> (IsHexDigit(s[i]) <==> IsHexDigit(Lower(s)[i]));
  }

  // ---- UTF-8 length ----

  predicate IsAscii(s: string) {
    forall i :: 0 <= i < |s| ==> s[i] as int < 0x80
  }

  function Utf8CharLen(c: char): (r: nat)
    ensures 1 <= r <= 4
  {
    var n := c as int;
    if n < 0x80 then 1 else if n < 0x800 then 2 else if n < 0x10000 then 3 else 4
  }

  /** `str::len`: the length in bytes. */
  function Utf8Len(s: string): (r: nat)
    ensures |s| <= r
    ensures (forall i :: 0 <= i < |s| ==> s[i] as int < 0x80) ==> r == |s|
    ensures r == |s| ==> forall i :: 0 <= i < |s| ==> s[i] as int < 0x80
  {
    if s == [] then 0 else
      assert s == [s[0]] + s[1..];
      Utf8CharLen(s[0]) + Utf8Len(s[1..])
  }

  // ---- normalisers ----

  /** `normalize_hex_exact`: trim, demand `n` hex digits, fold to lower case. */
  function NormalizeHex(value: string, n: nat): (r: Option<string>)
    ensures r.Some? ==> IsLowerHex(r.value, n) && r.value == Lower(Trim(value))
    ensures r.Some? <==> |Trim(value)| == n && AllHex(Trim(value))
    ensures IsLowerHex(value, n) && n > 0 ==> r == Some(value)
  {
    var t := Trim(value);
    assert IsLowerHex(value, n) ==> Lower(value) == value;
    if Utf8Len(t) == n && AllHex(t) then Some(Lower(t)) else None
  }

  /** Trimmed, not empty and at most `max` bytes long. */
  predicate IsBounded(s: string, max: nat) {
    s != [] && Trim(s) == s && Utf8Len(s) <= max
  }

  /** `normalize_non_empty` */
  function NormalizeNonEmpty(value: string): (r: Option<string>)
    ensures r.Some? ==> r.value != [] && Trim(r.value) == r.value
    ensures if Trim(value) == [] then r == None else r == Some(Trim(value))
  {
    var t := Trim(value);
    if t == [] then None else Some(t)
  }
}
