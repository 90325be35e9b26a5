/** Monero's block Base58: blocks of 11 characters for 8 bytes, and a shorter last block. */
module Base58 {
  import opened Wrappers
  import opened MachineInts
  import opened Text
  import opened Radix

  const ALPHABET: string :=
    "123456789" + "ABCDEFGH" + "JKLMN" + "PQRSTUVWXYZ" + "abcdefghijk" + "mnopqrstuvwxyz"
  const U128_MAX: int := 0xFFFF_FFFF_FFFF_FFFF_FFFF_FFFF_FFFF_FFFF

  function Position(s: string, c: char): (r: Option<nat>)
    ensures r.Some? ==> r.value < |s| && s[r.value] == c
    ensures r.None? ==> c !in s
  {
    if s == [] then None
    else if s[0] == c then Some(0)
    else match Position(s[1..], c)
      case Some(i) => Some(i + 1)
      case None => None
  }

  /** `b58_value` */
  function DigitOf(c: char): (r: Option<nat>)
    ensures r.Some? ==> r.value < 58
  {
    Position(ALPHABET, c)
  }

  function CharOf(d: nat): char
    requires d < 58
  {
    ALPHABET[d]
  }

  /** `decoded_block_size` */
  function DecodedSize(encoded: nat): (r: Option<nat>)
    ensures r.Some? ==> 1 <= r.value <= 8
  {
    match encoded
    case 2 => Some(1)
    case 3 => Some(2)
    case 5 => Some(3)
    case 6 => Some(4)
    case 7 => Some(5)
    case 9 => Some(6)
    case 10 => Some(7)
    case 11 => Some(8)
    case _ => None
  }

  function EncodedSize(decoded: nat): (r: nat)
    requires 1 <= decoded <= 8
    ensures DecodedSize(r) == Some(decoded)
  {
    [2, 3, 5, 6, 7, 9, 10, 11][decoded - 1]
  }

  /** All characters are in the alphabet. */
  predicate InAlphabet(s: string) {
    forall i :: 0 <= i < |s| ==> DigitOf(s[i]).Some?
  }

  function DigitsOf(s: string): (ds: seq<nat>)
    requires InAlphabet(s)
    ensures |ds| == |s| && forall i :: 0 <= i < |s| ==> ds[i] == DigitOf(s[i]).value
  {
    seq(|s|, i requires 0 <= i < |s| => DigitOf(s[i]).value)
  }

  function CharsOf(ds: seq<nat>): (s: string)
    requires forall i :: 0 <= i < |ds| ==> ds[i] < 58
    ensures |s| == |ds| && forall i :: 0 <= i < |ds| ==> s[i] == CharOf(ds[i])
  {
    seq(|ds|, i requires 0 <= i < |ds| => CharOf(ds[i]))
  }

  function ToBytes(ds: seq<nat>): (bs: seq<byte>)
    requires forall i :: 0 <= i < |ds| ==> ds[i] < 256
    ensures |bs| == |ds| && forall i :: 0 <= i < |ds| ==> bs[i] == ds[i]
  {
    seq(|ds|, i requires 0 <= i < |ds| => ds[i] as byte)
  }

  function FromBytes(bs: seq<byte>): (ds: seq<nat>)
    ensures |ds| == |bs| && forall i :: 0 <= i < |bs| ==> ds[i] == bs[i]
  {
    seq(|bs|, i requires 0 <= i < |bs| => bs[i] as nat)
  }

  /** A block decodes when its base-58 value fits the block's bytes. */
  function DecodeBlock(s: string, n: nat): (r: Option<seq<byte>>)
    ensures r.Some? ==> |r.value| == n
  {
    if InAlphabet(s) && Value(DigitsOf(s), 58) < Pow(256, n)
    then Some(ToBytes(Digits(Value(DigitsOf(s), 58), 256, n))) else None
  }

  function EncodeBlock(bs: seq<byte>): (s: string)
    requires 1 <= |bs| <= 8
    ensures |s| == EncodedSize(|bs|)
  {
    CharsOf(Digits(Value(FromBytes(bs), 256), 58, EncodedSize(|bs|)))
  }

  /** Block after block; a shorter tail is the last block. */
  function DecodeBlocks(s: string): (r: Option<seq<byte>>) {
    if s == [] then Some([])
    else if |s| < 11 then
      var n :- DecodedSize(|s|);
      DecodeBlock(s, n)
    else
      var block :- DecodeBlock(s[..11], 8);
      var rest :- DecodeBlocks(s[11..]);
      Some(block + rest)
  }

  /** `decode_monero_base58` */
  function Decode(s: string): (r: Option<seq<byte>>) {
    if s == [] then None else DecodeBlocks(s)
  }

  function Encode(bs: seq<byte>): (s: string) {
    if bs == [] then []
    else if |bs| < 8 then EncodeBlock(bs)
    else EncodeBlock(bs[..8]) + Encode(bs[8..])
  }

  // ---- the decoder as it runs ----

  /** The accumulator loop with its early abort; equal to testing the final value. */
  method AccumulateBlock(input: string) returns (acc: Option<nat>)
    ensures acc == if InAlphabet(input) && Value(DigitsOf(input), 58) <= U64_MAX
                   then Some(Value(DigitsOf(input), 58)) else None
  {
    hide DigitOf;
    var value: nat := 0;
    for k := 0 to |input|
      invariant InAlphabet(input[..k]) && value == Value(DigitsOf(input[..k]), 58) <= U64_MAX
    {
      var digit := DigitOf(input[k]);
      if digit.None? {
        return None;
      }
      assert value * 58 + digit.value <= U128_MAX;
      value := value * 58 + digit.value;
      assert input[..k + 1] == input[..k] + [input[k]];
      assert DigitsOf(input[..k + 1])[..k] == DigitsOf(input[..k]);
      if value > U64_MAX {
        if InAlphabet(input) {
          assert DigitsOf(input)[..k + 1] == DigitsOf(input[..k + 1]);
          ValueGrows(DigitsOf(input), k + 1, 58);
        }
        return None;
      }
    }
    assert input[..|input|] == input;
    acc := Some(value);
  }

  /** `decode_block`: accumulate, range-check short blocks, then write the bytes from the top. */
  method DecodeBlockLoop(input: string, outLen: nat) returns (out: Option<seq<byte>>)
    requires outLen <= 8
    ensures out == DecodeBlock(input, outLen)
  {
    hide DigitOf, Quotient, Remainder, Pow, Digits, Value;
    BlockPowers(outLen);
    var acc := AccumulateBlock(input);
    if acc.None? {
      return None;
    }
    if outLen < 8 && acc.value >= Pow(256, outLen) {
      return None;
    }
    var bytes := new byte[outLen](_ => 0);
    for idx := 0 to outLen
      invariant forall j :: 0 <= j < idx ==> bytes[j] == Digits(acc.value, 256, outLen)[j]
    {
      DigitAt(acc.value, 256, outLen, idx);
      bytes[idx] := Remainder(Quotient(acc.value, Pow(256, outLen - 1 - idx)), 256);
    }
    assert bytes[..] == ToBytes(Digits(acc.value, 256, outLen));
    out := Some(bytes[..]);
  }

  /** What a decoded prefix and the decoding of the remaining input make together. */
  function Prepend(done: seq<byte>, rest: Option<seq<byte>>): Option<seq<byte>> {
    match rest
    case Some(r) => Some(done + r)
    case None => None
  }

  /** `decode_monero_base58`: full blocks in a loop, then the tail. */
  method DecodeLoop(input: string) returns (out: Option<seq<byte>>)
    ensures out == Decode(input)
  {
    hide DecodeBlock;
    if input == [] {
      return None;
    }
    var fullBlocks := |input| / 11;
    var lastSize := |input| % 11;
    var lastDecoded := 0;
    if lastSize != 0 {
      var size := DecodedSize(lastSize);
      if size.None? {
        BadTail(input);
        return None;
      }
      lastDecoded := size.value;
    }
    var bytes: seq<byte> := [];
    assert input[0..] == input;
    PrependNothing(DecodeBlocks(input));
    for idx := 0 to fullBlocks
      invariant DecodeBlocks(input) == Prepend(bytes, DecodeBlocks(input[idx * 11..]))
    {
      var start := idx * 11;
      var block := DecodeBlockLoop(input[start..start + 11], 8);
      assert input[start..][..11] == input[start..start + 11];
      assert input[start..][11..] == input[start + 11..];
      if block.None? {
        return None;
      }
      assert forall rest: seq<byte> :: bytes + (block.value + rest) == bytes + block.value + rest;
      bytes := bytes + block.value;
    }
    if lastSize > 0 {
      var start := fullBlocks * 11;
      assert |input[start..]| == lastSize;
      var block := DecodeBlockLoop(input[start..], lastDecoded);
      if block.None? {
        return None;
      }
      bytes := bytes + block.value;
    } else {
      assert input[fullBlocks * 11..] == [];
      assert bytes + [] == bytes;
    }
    out := Some(bytes);
  }

  lemma PrependNothing(r: Option<seq<byte>>)
    ensures Prepend([], r) == r
  {
    if r.Some? {
      assert [] + r.value == r.value;
    }
  }

  lemma {:induction false} BadTail(s: string)
    requires |s| % 11 != 0 && DecodedSize(|s| % 11).None?
    ensures DecodeBlocks(s).None?
  {
    if 11 <= |s| {
      BadTail(s[11..]);
    }
  }

  // ---- arithmetic of the block sizes ----

  /** Eight bytes are 64 bits, and a block's characters suffice for its bytes. */
  lemma BlockPowers(n: nat)
    requires n <= 8
    ensures Pow(256, n) <= U64_MAX + 1 == Pow(256, 8)
    ensures 1 <= n ==> Pow(256, n) <= Pow(58, EncodedSize(n))
  {
    PowersOf256();
    PowersOf58();
  }

  lemma PowersOf58()
    ensures Pow(58, 2) == 3364 && Pow(58, 3) == 195112 && Pow(58, 5) == 656356768 && Pow(58, 6) == 38068692544
    ensures Pow(58, 7) == 2207984167552 && Pow(58, 9) == 7427658739644928 && Pow(58, 10) == 430804206899405824
    ensures Pow(58, 11) == 24986644000165537792
  {
    assert Pow(58, 2) == 58 * Pow(58, 1);
    assert Pow(58, 4) == 58 * Pow(58, 3);
    assert Pow(58, 6) == 58 * Pow(58, 5);
    assert Pow(58, 8) == 58 * Pow(58, 7);
    assert Pow(58, 10) == 58 * Pow(58, 9);
  }

  // ---- the alphabet ----

  /** The alphabet by ranges. */
  function RangeChar(d: nat): char
    requires d < 58
  {
    if d < 9 then ('1' as int + d) as char
    else if d < 17 then ('A' as int + d - 9) as char
    else if d < 22 then ('J' as int + d - 17) as char
    else if d < 33 then ('P' as int + d - 22) as char
    else if d < 44 then ('a' as int + d - 33) as char
    else ('m' as int + d - 44) as char
  }

  lemma AlphabetByRange(d: nat)
    requires d < 58
    ensures CharOf(d) == RangeChar(d)
  {
  }

  lemma RangeCharInjective(d: nat, e: nat)
    requires d < 58 && e < 58 && RangeChar(d) == RangeChar(e)
    ensures d == e
  {
  }

  lemma DigitOfChar(d: nat)
    requires d < 58
    ensures DigitOf(CharOf(d)) == Some(d)
  {
    hide Position;
    var r := DigitOf(CharOf(d));
    assert CharOf(d) in ALPHABET;
    hide RangeChar;
    AlphabetByRange(d);
    AlphabetByRange(r.value);
    RangeCharInjective(d, r.value);
  }

  // ---- blocks are a bijection ----

  lemma {:induction false} CharsRoundTrip(ds: seq<nat>)
    requires forall i :: 0 <= i < |ds| ==> ds[i] < 58
    ensures InAlphabet(CharsOf(ds)) && DigitsOf(CharsOf(ds)) == ds
  {
    hide DigitOf, CharOf;
    forall i | 0 <= i < |ds| ensures DigitOf(CharsOf(ds)[i]) == Some(ds[i]) {
      DigitOfChar(ds[i]);
    }
  }

  lemma DigitsRoundTrip(s: string)
    requires InAlphabet(s)
    ensures CharsOf(DigitsOf(s)) == s
  {
    hide Position;
  }

  lemma DecodeEncodeBlock(bs: seq<byte>)
    requires 1 <= |bs| <= 8
    ensures DecodeBlock(EncodeBlock(bs), |bs|) == Some(bs)
  {
    hide Quotient, Remainder, DigitOf, CharOf;
    var v := Value(FromBytes(bs), 256);
    ValueBound(FromBytes(bs), 256);
    BlockPowers(|bs|);
    ValueOfDigits(v, 58, EncodedSize(|bs|));
    CharsRoundTrip(Digits(v, 58, EncodedSize(|bs|)));
    DigitsOfValue(FromBytes(bs), 256);
    assert ToBytes(FromBytes(bs)) == bs;
  }

  lemma SizesInverse(encoded: nat, n: nat)
    requires DecodedSize(encoded) == Some(n)
    ensures EncodedSize(n) == encoded
  {
  }

  lemma EncodeDecodeBlock(s: string, n: nat)
    requires DecodedSize(|s|) == Some(n) && DecodeBlock(s, n).Some?
    ensures EncodedSize(n) == |s| && EncodeBlock(DecodeBlock(s, n).value) == s
  {
    hide Quotient, Remainder, DigitOf, CharOf, DecodedSize, EncodedSize;
    SizesInverse(|s|, n);
    var v := Value(DigitsOf(s), 58);
    var bs := DecodeBlock(s, n).value;
    ValueOfDigits(v, 256, n);
    assert FromBytes(bs) == Digits(v, 256, n);
    DigitsOfValue(DigitsOf(s), 58);
    DigitsRoundTrip(s);
  }

  // ---- and so are whole strings ----

  lemma {:induction false} DecodeEncodeBlocks(bs: seq<byte>)
    ensures DecodeBlocks(Encode(bs)) == Some(bs)
    decreases |bs|
  {
    hide DecodeBlock, EncodeBlock;
    if bs == [] {
    } else if |bs| < 8 {
      DecodeEncodeBlock(bs);
    } else {
      DecodeEncodeBlock(bs[..8]);
      DecodeEncodeBlocks(bs[8..]);
      var s := Encode(bs);
      assert EncodedSize(8) == 11;
      assert s[..11] == EncodeBlock(bs[..8]) && s[11..] == Encode(bs[8..]);
      assert bs == bs[..8] + bs[8..];
    }
  }

  lemma {:induction false} EncodeDecodeBlocks(s: string)
    requires DecodeBlocks(s).Some?
    ensures Encode(DecodeBlocks(s).value) == s
    decreases |s|
  {
    hide DecodeBlock, EncodeBlock;
    if s == [] {
    } else if |s| < 11 {
      EncodeDecodeBlock(s, DecodedSize(|s|).value);
    } else {
      EncodeDecodeBlock(s[..11], 8);
      EncodeDecodeBlocks(s[11..]);
      var bs := DecodeBlocks(s).value;
      assert bs[..8] == DecodeBlock(s[..11], 8).value && bs[8..] == DecodeBlocks(s[11..]).value;
    }
  }

  /** Decoding and encoding are inverse bijections between the non-empty byte strings and the strings that
      decode: a string decodes to `bs` exactly when it is the encoding of `bs`. */
  lemma {:induction false} DecodeIffEncoding(s: string, bs: seq<byte>)
    ensures Decode(s) == Some(bs) <==> bs != [] && s == Encode(bs)
  {
    hide DecodeBlocks;
    if Decode(s) == Some(bs) {
      EncodeDecodeBlocks(s);
    }
    if bs != [] && s == Encode(bs) {
      DecodeEncodeBlocks(bs);
      EncodeNonEmpty(bs);
    }
  }

  lemma EncodeNonEmpty(bs: seq<byte>)
    requires bs != []
    ensures Encode(bs) != []
  {
    hide EncodeBlock;
  }

  lemma {:induction false} EncodeLength(bs: seq<byte>, blocks: nat, tail: nat)
    requires |bs| == 8 * blocks + tail && tail < 8
    ensures |Encode(bs)| == 11 * blocks + (if tail == 0 then 0 else EncodedSize(tail))
    decreases blocks
  {
    hide EncodeBlock;
    if blocks > 0 {
      assert EncodedSize(8) == 11;
      EncodeLength(bs[8..], blocks - 1, tail);
    }
  }

  /** Strings of 95 and 106 characters decode to exactly 69 and 77 bytes, and no other strings do. */
  lemma {:induction false} DecodedLengths(s: string)
    requires Decode(s).Some?
    ensures |s| == 95 <==> |Decode(s).value| == 69
    ensures |s| == 106 <==> |Decode(s).value| == 77
  {
    hide DecodeBlocks;
    var bs := Decode(s).value;
    DecodeIffEncoding(s, bs);
    EncodeLength(bs, |bs| / 8, |bs| % 8);
  }

  // ---- addresses ----

  /** `valid_prefix_for_payload` */
  predicate ValidPrefix(prefix: byte, payloadLen: nat) {
    || (payloadLen == 65 && prefix in {18, 24, 36, 42, 53, 63})
    || (payloadLen == 73 && prefix in {19, 25, 54})
  }

  /** `is_valid_xmr_address`, with Keccak-256 as a parameter. */
  predicate IsValidXmrAddress(addr: string, keccak: seq<byte> -> seq<byte>)
    requires forall m :: 4 <= |keccak(m)|
  {
    var trimmed := Trim(addr);
    && (Utf8Len(trimmed) == 95 || Utf8Len(trimmed) == 106)
    && IsAscii(trimmed)
    && var decoded := Decode(trimmed);
       && decoded.Some? && |decoded.value| >= 5
       && var payload := decoded.value[..|decoded.value| - 4];
          && ValidPrefix(payload[0], |payload|)
          && decoded.value[|payload|..] == keccak(payload)[..4]
  }

  /** The address of a payload: the payload and four checksum bytes, encoded. */
  function AddressOf(payload: seq<byte>, keccak: seq<byte> -> seq<byte>): string
    requires forall m :: 4 <= |keccak(m)|
  {
    Encode(payload + keccak(payload)[..4])
  }

  lemma AlphabetIsAscii(s: string)
    requires InAlphabet(s)
    ensures IsAscii(s)
  {
    hide Position;
    forall i | 0 <= i < |s| ensures s[i] as int < 0x80 {
      AlphabetByRange(DigitOf(s[i]).value);
    }
  }

  lemma {:induction false} DecodableInAlphabet(s: string)
    requires DecodeBlocks(s).Some?
    ensures InAlphabet(s)
    decreases |s|
  {
    hide DigitOf;
    if 11 <= |s| {
      DecodableInAlphabet(s[11..]);
      forall i | 0 <= i < |s| ensures DigitOf(s[i]).Some? {
        if i < 11 {
          assert s[..11][i] == s[i];
        } else {
          assert s[11..][i - 11] == s[i];
        }
      }
    }
  }

  /** The accepted strings are, up to surrounding whitespace, exactly the addresses of the payloads of
      65 or 73 bytes that start with a network byte of their kind. */
  lemma {:induction false} AcceptedIffAddress(addr: string, keccak: seq<byte> -> seq<byte>)
    requires forall m :: 4 <= |keccak(m)|
    ensures IsValidXmrAddress(addr, keccak)
       <==> exists payload ::
              payload != [] && ValidPrefix(payload[0], |payload|) && Trim(addr) == AddressOf(payload, keccak)
  {
    hide DecodeBlocks, Encode, Utf8Len, Trim;
    var t := Trim(addr);
    if IsValidXmrAddress(addr, keccak) {
      var bs := Decode(t).value;
      var payload := bs[..|bs| - 4];
      DecodeIffEncoding(t, bs);
      assert bs == payload + keccak(payload)[..4];
      assert t == AddressOf(payload, keccak);
    }
    if payload: seq<byte> :| payload != [] && ValidPrefix(payload[0], |payload|) && t == AddressOf(payload, keccak) {
      var bs := payload + keccak(payload)[..4];
      DecodeIffEncoding(t, bs);
      DecodedLengths(t);
      DecodableInAlphabet(t);
      AlphabetIsAscii(t);
      assert bs[..|bs| - 4] == payload && bs[|payload|..] == keccak(payload)[..4];
    }
  }
}
