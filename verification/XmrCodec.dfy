/** The textual form `xmr:<network>:<spend_hex>:<view_hex>` of Monero addresses. */
module XmrCodec {
  import opened Wrappers
  import opened MachineInts
  import opened Text

  type PublicKey = b: seq<byte> | |b| == 32 witness seq(32, _ => 0)

  datatype Network = Mainnet | Testnet | Stagenet

  datatype MoneroAddress = MoneroAddress(spendPublic: PublicKey, viewPublic: PublicKey, network: Network)

  // ---- hex ----

  function HexChar(d: nat): (c: char)
    requires d < 16
    ensures IsLowerHexDigit(c)
  {
    if d < 10 then ('0' as int + d) as char else ('a' as int + d - 10) as char
  }

  lemma HexDigitByPlace(d: nat)
    requires d < 16
    ensures HexChar(d) == "0123456789abcdef"[d]
  {
  }

  function HexValue(c: char): (r: Option<nat>)
    ensures r.Some? ==> r.value < 16
  {
    if '0' <= c <= '9' then Some(c as int - '0' as int)
    else if 'a' <= c <= 'f' then Some(c as int - 'a' as int + 10)
    else if 'A' <= c <= 'F' then Some(c as int - 'A' as int + 10)
    else None
  }

  lemma HexValueIff(c: char, d: nat)
    requires d < 16
    ensures HexValue(c) == Some(d) <==> LowerChar(c) == HexChar(d)
  {
  }

  function HexEncode(bs: seq<byte>): (s: string)
    ensures |s| == 2 * |bs| && forall i :: 0 <= i < |s| ==> IsLowerHexDigit(s[i])
  {
    if bs == [] then [] else [HexChar(bs[0] / 16), HexChar(bs[0] % 16)] + HexEncode(bs[1..])
  }

  /** `hex::decode`: an even number of hex digits of either case. */
  function HexDecode(s: string): (r: Option<seq<byte>>)
    ensures r.Some? ==> |s| == 2 * |r.value|
  {
    if s == [] then Some([])
    else if |s| == 1 then None
    else
      var hi :- HexValue(s[0]);
      var lo :- HexValue(s[1]);
      var rest :- HexDecode(s[2..]);
      Some([(hi * 16 + lo) as byte] + rest)
  }

  /** A string decodes to `bs` exactly when folding its case gives the encoding of `bs`. */
  lemma {:induction false} HexDecodeIff(s: string, bs: seq<byte>)
    ensures HexDecode(s) == Some(bs) <==> Lower(s) == HexEncode(bs)
  {
    hide HexValue, HexChar;
    if s != [] && bs != [] && |s| != 1 {
      HexDecodeIff(s[2..], bs[1..]);
      HexValueIff(s[0], bs[0] / 16);
      HexValueIff(s[1], bs[0] % 16);
      assert Lower(s) == [LowerChar(s[0]), LowerChar(s[1])] + Lower(s[2..]);
      assert bs == [bs[0]] + bs[1..];
      PairFirst(LowerChar(s[0]), LowerChar(s[1]), Lower(s[2..]), HexChar(bs[0] / 16), HexChar(bs[0] % 16), HexEncode(bs[1..]));
    }
  }

  lemma PairFirst(a: char, b: char, s: string, c: char, d: char, t: string)
    ensures [a, b] + s == [c, d] + t <==> a == c && b == d && s == t
  {
    var x, y := [a, b] + s, [c, d] + t;
    assert x[2..] == s && y[2..] == t;
    assert x[0] == a && x[1] == b && y[0] == c && y[1] == d;
  }

  // ---- splitting ----

  /** `str::split` at one character; always yields at least one part. */
  function Split(s: string, sep: char): (parts: seq<string>)
    ensures parts != [] && |parts[0]| <= |s|
  {
    if s == [] then [[]]
    else
      var rest := Split(s[1..], sep);
      if s[0] == sep then [[]] + rest else [[s[0]] + rest[0]] + rest[1..]
  }

  function Join(parts: seq<string>, sep: char): string
    requires parts != []
  {
    if |parts| == 1 then parts[0] else parts[0] + [sep] + Join(parts[1..], sep)
  }

  lemma {:induction false} SplitNone(s: string, sep: char)
    requires sep !in s
    ensures Split(s, sep) == [s]
  {
    if s != [] {
      SplitNone(s[1..], sep);
      assert [s[0]] + s[1..] == s;
    }
  }

  lemma {:induction false} SplitField(a: string, rest: string, sep: char)
    requires sep !in a
    ensures Split(a + [sep] + rest, sep) == [a] + Split(rest, sep)
  {
    var s := a + [sep] + rest;
    if a == [] {
      assert s[1..] == rest;
    } else {
      SplitField(a[1..], rest, sep);
      assert s[1..] == a[1..] + [sep] + rest;
      assert [a[0]] + a[1..] == a;
    }
  }

  lemma {:induction false} JoinSplit(s: string, sep: char)
    ensures Join(Split(s, sep), sep) == s
  {
    if s != [] {
      JoinSplit(s[1..], sep);
      var rest := Split(s[1..], sep);
      if s[0] == sep {
        assert ([[]] + rest)[1..] == rest;
        assert [] + [sep] + Join(rest, sep) == s;
      } else {
        var parts := [[s[0]] + rest[0]] + rest[1..];
        assert parts[1..] == rest[1..];
        assert Join(parts, sep) == [s[0]] + Join(rest, sep);
      }
    }
  }

  // ---- addresses ----

  function NetworkName(n: Network): string {
    match n
    case Mainnet => "mainnet"
    case Testnet => "testnet"
    case Stagenet => "stagenet"
  }

  function ParseNetwork(s: string): (r: Option<Network>) {
    if s == "mainnet" then Some(Mainnet)
    else if s == "testnet" then Some(Testnet)
    else if s == "stagenet" then Some(Stagenet)
    else None
  }

  function Encode(a: MoneroAddress): string {
    "xmr" + [':'] + (NetworkName(a.network) + [':'] + (HexEncode(a.spendPublic) + [':'] + HexEncode(a.viewPublic)))
  }

  function DecodeKey(s: string): (r: Option<PublicKey>) {
    var raw :- HexDecode(s);
    if |raw| == 32 then Some(raw) else None
  }

  function Decode(s: string): (r: Option<MoneroAddress>) {
    var parts := Split(s, ':');
    if |parts| != 4 || parts[0] != "xmr" then None
    else
      var network :- ParseNetwork(parts[1]);
      var spend :- DecodeKey(parts[2]);
      var view :- DecodeKey(parts[3]);
      Some(MoneroAddress(spend, view, network))
  }

  lemma NetworkNames(n: Network, s: string)
    ensures ParseNetwork(s) == Some(n) <==> s == NetworkName(n)
    ensures ':' !in NetworkName(n) && Lower(NetworkName(n)) == NetworkName(n)
  {
    assert "mainnet"[0] == 'm' && "testnet"[0] == 't' && "stagenet"[0] == 's';
  }

  /** The fixed part of an address of network `n`. */
  function Header(n: Network): string {
    "xmr" + [':'] + (NetworkName(n) + [':'])
  }

  lemma SplitAddress(n: Network, x: string, y: string)
    requires ':' !in x && ':' !in y
    ensures Split(Header(n) + (x + [':'] + y), ':') == ["xmr", NetworkName(n), x, y]
  {
    hide NetworkName, Split;
    NetworkNames(n, "");
    var s := Header(n) + (x + [':'] + y);
    assert s == "xmr" + [':'] + (NetworkName(n) + [':'] + (x + [':'] + y));
    SplitField("xmr", NetworkName(n) + [':'] + (x + [':'] + y), ':');
    SplitField(NetworkName(n), x + [':'] + y, ':');
    SplitField(x, y, ':');
    SplitNone(y, ':');
  }

  lemma FourParts(s: string)
    requires |Split(s, ':')| == 4
    ensures var p := Split(s, ':'); s == p[0] + [':'] + (p[1] + [':'] + (p[2] + [':'] + p[3]))
  {
    JoinSplit(s, ':');
    var p := Split(s, ':');
    assert p[1..][1..] == p[2..] && p[2..][1..] == p[3..] && p[3..] == [p[3]];
    assert Join(p[3..], ':') == p[3];
    assert Join(p[2..], ':') == p[2] + [':'] + p[3];
    assert Join(p[1..], ':') == p[1] + [':'] + (p[2] + [':'] + p[3]);
  }

  lemma LowerHeader(n: Network)
    ensures Lower(Header(n)) == Header(n)
  {
    NetworkNames(n, "");
    hide NetworkName;
  }

  lemma EncodeByHeader(a: MoneroAddress)
    ensures Encode(a) == Header(a.network) + (HexEncode(a.spendPublic) + [':'] + HexEncode(a.viewPublic))
  {
    hide NetworkName, HexEncode;
  }

  lemma DecodedKeys(x: string, y: string, a: MoneroAddress)
    ensures DecodeKey(x) == Some(a.spendPublic) && DecodeKey(y) == Some(a.viewPublic)
       <==> Lower(x) == HexEncode(a.spendPublic) && Lower(y) == HexEncode(a.viewPublic)
  {
    HexDecodeIff(x, a.spendPublic);
    HexDecodeIff(y, a.viewPublic);
  }

  /** A string decodes to `a` exactly when it starts with the header of a's network in lower case and folding
      the case of its hex digits gives the printed form of `a`. */
  lemma {:induction false} DecodeIff(s: string, a: MoneroAddress)
    ensures Decode(s) == Some(a) <==> Header(a.network) <= s && Lower(s) == Encode(a)
  {
    hide HexEncode, HexDecode, Split, Header, NetworkName, ParseNetwork, DecodeKey, Encode;
    var h := Header(a.network);
    EncodeByHeader(a);
    LowerHeader(a.network);
    if Decode(s) == Some(a) {
      DecodedForm(s, a);
    }
    if h <= s && Lower(s) == Encode(a) {
      var rest := s[|h|..];
      assert s == h + rest;
      LowerConcat(h, rest);
      var hex := HexEncode(a.spendPublic) + [':'] + HexEncode(a.viewPublic);
      assert Lower(s)[|h|..] == hex;
      assert Lower(rest) == hex;
      var x, y := rest[..64], rest[65..];
      assert Lower(x) == hex[..64] == HexEncode(a.spendPublic);
      assert Lower(y) == hex[65..] == HexEncode(a.viewPublic);
      assert LowerChar(rest[64]) == hex[64] == ':';
      assert rest == x + [':'] + y;
      HexHasNoColon(x, a.spendPublic);
      HexHasNoColon(y, a.viewPublic);
      SplitAddress(a.network, x, y);
      DecodedKeys(x, y, a);
      NetworkNames(a.network, NetworkName(a.network));
    }
  }

  lemma DecodedParts(s: string, a: MoneroAddress) returns (x: string, y: string)
    requires Decode(s) == Some(a)
    ensures s == Header(a.network) + (x + [':'] + y)
    ensures DecodeKey(x) == Some(a.spendPublic) && DecodeKey(y) == Some(a.viewPublic)
  {
    hide Split, NetworkName, ParseNetwork, DecodeKey;
    var p := Split(s, ':');
    FourParts(s);
    NetworkNames(a.network, p[1]);
    x, y := p[2], p[3];
  }

  lemma DecodedForm(s: string, a: MoneroAddress)
    requires Decode(s) == Some(a)
    ensures Header(a.network) <= s && Lower(s) == Encode(a)
  {
    var x, y := DecodedParts(s, a);
    var h := Header(a.network);
    DecodedKeys(x, y, a);
    hide Decode, DecodeKey, HexEncode, HexDecode, Header, Lower;
    LowerConcat(h, x + [':'] + y);
    LowerConcat(x + [':'], y);
    LowerConcat(x, [':']);
    LowerHeader(a.network);
    EncodeByHeader(a);
  }

  lemma HexHasNoColon(x: string, bs: seq<byte>)
    requires Lower(x) == HexEncode(bs)
    ensures ':' !in x
  {
    forall i | 0 <= i < |x| ensures x[i] != ':' {
      assert IsLowerHexDigit(HexEncode(bs)[i]);
    }
  }

  /** Parsing undoes printing, for every address. */
  lemma {:induction false} DecodeEncode(a: MoneroAddress)
    ensures Decode(Encode(a)) == Some(a)
  {
    hide Decode;
    var s := Encode(a);
    EncodeByHeader(a);
    LowerHeader(a.network);
    var hex := HexEncode(a.spendPublic) + [':'] + HexEncode(a.viewPublic);
    LowerConcat(Header(a.network), hex);
    assert Lower(hex) == hex;
    DecodeIff(s, a);
  }

  /** Printing undoes parsing up to the case of the hex digits. */
  lemma {:induction false} EncodeDecode(s: string)
    requires Decode(s).Some?
    ensures Encode(Decode(s).value) == Lower(s)
  {
    hide Decode, Encode;
    DecodeIff(s, Decode(s).value);
  }
}
