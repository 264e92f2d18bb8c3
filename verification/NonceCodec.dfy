/** The QACP nonce: big-endian timestamp, random bytes and peer hash, printed as unpadded
    base64url (section 5 of RFC 4648), and its parser, which restores the padding and decodes
    with the lenient decoder of the language's library. */
module NonceCodec {
  import opened Options

  type byte = x: nat | x < 256

  // ---- base64url -------------------------------------------------------------------

  function Letter(v: nat): char
    requires v < 64
  {
    if v < 26 then ('A' as int + v) as char
    else if v < 52 then ('a' as int + v - 26) as char
    else if v < 62 then ('0' as int + v - 52) as char
    else if v == 62 then '-'
    else '_'
  }

  /** Both alphabets are accepted: the url-safe letters are translated, the standard ones stay. */
  function ValueOf(c: char): Option<nat> {
    if 'A' <= c <= 'Z' then Some(c as int - 'A' as int)
    else if 'a' <= c <= 'z' then Some(c as int - 'a' as int + 26)
    else if '0' <= c <= '9' then Some(c as int - '0' as int + 52)
    else if c == '-' || c == '+' then Some(62)
    else if c == '_' || c == '/' then Some(63)
    else None
  }

  function Group(x: byte, y: byte, z: byte): string {
    [Letter(x / 4), Letter(x % 4 * 16 + y / 16), Letter(y % 16 * 4 + z / 64), Letter(z % 64)]
  }

  /** The letters: four for every three bytes, two or three for the bytes left over. */
  function Letters(b: seq<byte>): (s: string)
    ensures |s| == |b| / 3 * 4 + (if |b| % 3 == 0 then 0 else |b| % 3 + 1)
  {
    if |b| == 0 then ""
    else if |b| == 1 then [Letter(b[0] / 4), Letter(b[0] % 4 * 16)]
    else if |b| == 2 then [Letter(b[0] / 4), Letter(b[0] % 4 * 16 + b[1] / 16), Letter(b[1] % 16 * 4)]
    else Group(b[0], b[1], b[2]) + Letters(b[3..])
  }

  function PadCount(b: seq<byte>): nat {
    (3 - |b| % 3) % 3
  }

  function Pads(n: nat): string {
    seq(n, _ => '=')
  }

  function Encode(b: seq<byte>): string {
    Letters(b) + Pads(PadCount(b))
  }

  function StripPad(s: string): string {
    if s != "" && s[|s| - 1] == '=' then StripPad(s[..|s| - 1]) else s
  }

  predicate LeftOk(quad: nat, left: nat) {
    || (quad == 0)
    || (quad == 1 && left < 64)
    || (quad == 2 && left < 16)
    || (quad == 3 && left < 4)
  }

  /** The decoder's loop: `quad` letters of the current group are read, `left` holds their bits
      not yet written. Foreign characters are skipped; enough padding ends the input. */
  function DecodeFrom(s: string, quad: nat, left: nat, pads: nat, out: seq<byte>): Option<seq<byte>>
    requires LeftOk(quad, left)
    decreases |s|
  {
    if s == "" then
      if quad == 0 then Some(out) else None
    else if s[0] == '=' then
      if quad >= 2 && quad + pads + 1 >= 4 then Some(out)
      else DecodeFrom(s[1..], quad, left, if quad >= 2 then pads + 1 else pads, out)
    else if ValueOf(s[0]) == None then DecodeFrom(s[1..], quad, left, pads, out)
    else
      var v := ValueOf(s[0]).value;
      if quad == 0 then DecodeFrom(s[1..], 1, v, 0, out)
      else if quad == 1 then DecodeFrom(s[1..], 2, v % 16, 0, out + [left * 4 + v / 16])
      else if quad == 2 then DecodeFrom(s[1..], 3, v % 4, 0, out + [left * 16 + v / 4])
      else DecodeFrom(s[1..], 0, 0, 0, out + [left * 64 + v])
  }

  function Decode(s: string): Option<seq<byte>> {
    if forall c :: c in s ==> c as int < 128 then DecodeFrom(s, 0, 0, 0, []) else None
  }

  function RestorePad(s: string): string {
    var pad := 4 - |s| % 4;
    if pad != 4 then s + Pads(pad) else s
  }

  // ---- the nonce -------------------------------------------------------------------

  function Pack(n: nat, width: nat): (b: seq<byte>)
    ensures |b| == width
  {
    if width == 0 then [] else Pack(n / 256, width - 1) + [n % 256]
  }

  function Unpack(b: seq<byte>): nat {
    if b == [] then 0 else Unpack(b[..|b| - 1]) * 256 + b[|b| - 1]
  }

  /** Random part and peer hash are reported as hexadecimal text. */
  datatype Parsed = Parsed(timestampMs: nat, randomHex: string, peerHashHex: string)

  function HexDigit(v: nat): char
    requires v < 16
  {
    if v < 10 then ('0' as int + v) as char else ('a' as int + v - 10) as char
  }

  function Hex(b: seq<byte>): string {
    if b == [] then "" else [HexDigit(b[0] / 16), HexDigit(b[0] % 16)] + Hex(b[1..])
  }

  function GenerateNonce(timestampMs: nat, random: seq<byte>, peerHash: seq<byte>): string {
    StripPad(Encode(Pack(timestampMs, 8) + random + peerHash))
  }

  function ParseNonce(nonce: string): Option<Parsed> {
    match Decode(RestorePad(nonce))
    case None => None
    case Some(raw) =>
      if |raw| < 20 then None
      else Some(Parsed(Unpack(raw[..8]), Hex(raw[8..16]), Hex(raw[16..20])))
  }

  // ---- round trips ------------------------------------------------------------------

  lemma LetterValue(v: nat)
    requires v < 64
    ensures ValueOf(Letter(v)) == Some(v) && Letter(v) != '=' && Letter(v) as int < 128
  {
  }

  predicate Plain(s: string) {
    forall i :: 0 <= i < |s| ==> s[i] != '=' && s[i] as int < 128
  }

  lemma GroupPlain(x: byte, y: byte, z: byte)
    ensures Plain(Group(x, y, z))
  {
    LetterValue(x / 4);
    LetterValue(x % 4 * 16 + y / 16);
    LetterValue(y % 16 * 4 + z / 64);
    LetterValue(z % 64);
  }

  lemma {:induction false} LettersPlain(b: seq<byte>)
    ensures Plain(Letters(b))
  {
    if |b| >= 3 {
      LettersPlain(b[3..]);
      GroupPlain(b[0], b[1], b[2]);
    } else if |b| == 2 {
      GroupPlain(b[0], b[1], 0);
      assert Letters(b) == Group(b[0], b[1], 0)[..3];
    } else if |b| == 1 {
      GroupPlain(b[0], 0, 0);
      assert Letters(b) == Group(b[0], 0, 0)[..2];
    }
  }

  lemma {:induction false} StripPads(s: string, n: nat)
    requires s == "" || s[|s| - 1] != '='
    ensures StripPad(s + Pads(n)) == s
  {
    if n == 0 {
      assert s + Pads(0) == s;
    } else {
      assert (s + Pads(n))[..|s| + n - 1] == s + Pads(n - 1);
      StripPads(s, n - 1);
    }
  }

  lemma {:induction false} DecodeLetters(b: seq<byte>, out: seq<byte>)
    ensures DecodeFrom(Letters(b) + Pads(PadCount(b)), 0, 0, 0, out) == Some(out + b)
  {
    var pads := Pads(PadCount(b));
    if |b| == 0 {
      assert Letters(b) + pads == "" && out + b == out;
    } else if |b| == 1 {
      DecodeTail1(b[0], out);
      assert pads == "==" && b == [b[0]];
    } else if |b| == 2 {
      DecodeTail2(b[0], b[1], out);
      assert pads == "=" && b == [b[0], b[1]];
    } else {
      DecodeLetters(b[3..], out + [b[0], b[1], b[2]]);
      DecodeMore(b, out);
    }
  }

  lemma DecodeMore(b: seq<byte>, out: seq<byte>)
    requires |b| >= 3
    requires DecodeFrom(Letters(b[3..]) + Pads(PadCount(b[3..])), 0, 0, 0, out + [b[0], b[1], b[2]])
             == Some(out + [b[0], b[1], b[2]] + b[3..])
    ensures DecodeFrom(Letters(b) + Pads(PadCount(b)), 0, 0, 0, out) == Some(out + b)
  {
    var group, rest, pads := Group(b[0], b[1], b[2]), Letters(b[3..]), Pads(PadCount(b));
    DecodeGroup(b[0], b[1], b[2], rest + pads, out);
    JoinedGroup(group, rest, pads);
    SplitBytes(b, out);
  }

  lemma JoinedGroup(p: string, q: string, r: string)
    ensures (p + q) + r == p + (q + r)
  {
  }

  lemma SplitBytes(b: seq<byte>, out: seq<byte>)
    requires |b| >= 3
    ensures out + [b[0], b[1], b[2]] + b[3..] == out + b
  {
    assert b == [b[0], b[1], b[2]] + b[3..];
  }

  /** One letter, told by the bits it adds: the finished byte, if any, and the bits left over. */
  lemma DecodeFirst(c: nat, rest: string, out: seq<byte>)
    requires c < 64
    ensures DecodeFrom([Letter(c)] + rest, 0, 0, 0, out) == DecodeFrom(rest, 1, c, 0, out)
  {
    LetterValue(c);
    assert ([Letter(c)] + rest)[1..] == rest;
  }

  lemma DecodeSecond(c: nat, rest: string, left: nat, out: seq<byte>, x: byte, low: nat)
    requires c < 64 && left < 64 && low < 16 && x == left * 4 + c / 16 && low == c % 16
    ensures DecodeFrom([Letter(c)] + rest, 1, left, 0, out) == DecodeFrom(rest, 2, low, 0, out + [x])
  {
    LetterValue(c);
    assert ([Letter(c)] + rest)[1..] == rest;
  }

  lemma DecodeThird(c: nat, rest: string, left: nat, out: seq<byte>, y: byte, low: nat)
    requires c < 64 && left < 16 && low < 4 && y == left * 16 + c / 4 && low == c % 4
    ensures DecodeFrom([Letter(c)] + rest, 2, left, 0, out) == DecodeFrom(rest, 3, low, 0, out + [y])
  {
    LetterValue(c);
    assert ([Letter(c)] + rest)[1..] == rest;
  }

  lemma DecodeFourth(c: nat, rest: string, left: nat, out: seq<byte>, z: byte)
    requires c < 64 && left < 4 && z == left * 64 + c
    ensures DecodeFrom([Letter(c)] + rest, 3, left, 0, out) == DecodeFrom(rest, 0, 0, 0, out + [z])
  {
    LetterValue(c);
    assert ([Letter(c)] + rest)[1..] == rest;
  }

  lemma DecodeGroup(x: byte, y: byte, z: byte, rest: string, out: seq<byte>)
    ensures DecodeFrom(Group(x, y, z) + rest, 0, 0, 0, out) == DecodeFrom(rest, 0, 0, 0, out + [x, y, z])
  {
    var c0, c1, c2, c3 := x / 4, x % 4 * 16 + y / 16, y % 16 * 4 + z / 64, z % 64;
    var r3 := [Letter(c3)] + rest;
    var r2 := [Letter(c2)] + r3;
    var r1 := [Letter(c1)] + r2;
    GroupAppend(Letter(c0), Letter(c1), Letter(c2), Letter(c3), rest);
    DecodeFirst(c0, r1, out);
    DecodeSecond(c1, r2, c0, out, x, y / 16);
    DecodeThird(c2, r3, y / 16, out + [x], y, z / 64);
    DecodeFourth(c3, rest, z / 64, out + [x] + [y], z);
    Three(out, x, y, z);
  }

  lemma GroupAppend(a: char, b: char, c: char, d: char, rest: string)
    ensures [a, b, c, d] + rest == [a] + ([b] + ([c] + ([d] + rest)))
  {
  }

  lemma Three(out: seq<byte>, x: byte, y: byte, z: byte)
    ensures out + [x] + [y] + [z] == out + [x, y, z]
  {
  }

  lemma DecodeTail1(x: byte, out: seq<byte>)
    ensures DecodeFrom([Letter(x / 4), Letter(x % 4 * 16)] + "==", 0, 0, 0, out) == Some(out + [x])
  {
    var r1 := [Letter(x % 4 * 16)] + "==";
    assert [Letter(x / 4), Letter(x % 4 * 16)] + "==" == [Letter(x / 4)] + r1;
    DecodeFirst(x / 4, r1, out);
    DecodeSecond(x % 4 * 16, "==", x / 4, out, x, 0);
    assert "=="[1..] == "=";
  }

  lemma DecodeTail2(x: byte, y: byte, out: seq<byte>)
    ensures DecodeFrom([Letter(x / 4), Letter(x % 4 * 16 + y / 16), Letter(y % 16 * 4)] + "=", 0, 0, 0, out)
            == Some(out + [x, y])
  {
    var c1, c2 := x % 4 * 16 + y / 16, y % 16 * 4;
    var r2 := [Letter(c2)] + "=";
    var r1 := [Letter(c1)] + r2;
    assert [Letter(x / 4), Letter(c1), Letter(c2)] + "=" == [Letter(x / 4)] + r1;
    DecodeFirst(x / 4, r1, out);
    DecodeSecond(c1, r2, x / 4, out, x, y / 16);
    DecodeThird(c2, "=", y / 16, out + [x], y, 0);
    assert out + [x] + [y] == out + [x, y];
  }

  lemma PadArithmetic(n: nat, letters: nat)
    requires letters == n / 3 * 4 + (if n % 3 == 0 then 0 else n % 3 + 1)
    ensures letters % 4 == if n % 3 == 0 then 0 else n % 3 + 1
  {
  }

  lemma Restored(s: string, pad: nat)
    requires |s| % 4 == (4 - pad) % 4 && pad < 3
    ensures RestorePad(s) == s + Pads(pad)
  {
    assert s + Pads(0) == s;
  }

  lemma EncodedAscii(b: seq<byte>)
    ensures forall c :: c in Encode(b) ==> c as int < 128
  {
    LettersPlain(b);
    forall c | c in Encode(b) ensures c as int < 128 {
      assert c in Letters(b) || c in Pads(PadCount(b));
    }
  }

  /** Stripping the padding loses nothing: for bytes of any length, the parser's restored
      padding decodes to the very bytes encoded. */
  lemma PaddingRoundTrip(b: seq<byte>)
    ensures Decode(RestorePad(StripPad(Encode(b)))) == Some(b)
  {
    hide StripPad, RestorePad, Letters;
    LettersPlain(b);
    StripPads(Letters(b), PadCount(b));
    PadArithmetic(|b|, |Letters(b)|);
    Restored(Letters(b), PadCount(b));
    EncodedAscii(b);
    DecodeLetters(b, []);
    assert [] + b == b;
  }

  function Pow256(k: nat): nat {
    if k == 0 then 1 else 256 * Pow256(k - 1)
  }

  lemma {:induction false} UnpackPack(n: nat, width: nat)
    requires n < Pow256(width)
    ensures Unpack(Pack(n, width)) == n
  {
    if width > 0 {
      UnpackPack(n / 256, width - 1);
      assert Pack(n, width)[..width - 1] == Pack(n / 256, width - 1);
    }
  }

  /** Two digits for each byte, the high one first. */
  lemma {:induction false} HexReads(b: seq<byte>, i: nat)
    requires i < |b|
    ensures |Hex(b)| == 2 * |b|
    ensures var digits := "0123456789abcdef";
            Hex(b)[2 * i] == digits[b[i] / 16] && Hex(b)[2 * i + 1] == digits[b[i] % 16]
  {
    HexLength(b);
    if i > 0 {
      HexReads(b[1..], i - 1);
    }
  }

  lemma {:induction false} HexLength(b: seq<byte>)
    ensures |Hex(b)| == 2 * |b|
  {
    if b != [] {
      HexLength(b[1..]);
    }
  }

  /** The hexadecimal text determines the bytes. */
  lemma {:induction false} HexInjective(a: seq<byte>, b: seq<byte>)
    requires Hex(a) == Hex(b)
    ensures a == b
  {
    if a == [] || b == [] {
    } else {
      assert Hex(a)[0] == Hex(b)[0] && Hex(a)[1] == Hex(b)[1];
      assert Hex(a)[2..] == Hex(a[1..]) && Hex(b)[2..] == Hex(b[1..]);
      HexInjective(a[1..], b[1..]);
      assert a[0] == b[0] && a == [a[0]] + a[1..] && b == [b[0]] + b[1..];
    }
  }

  /** Parsing returns the three parts, for every 64-bit timestamp. */
  lemma NonceRoundTrip(timestampMs: nat, random: seq<byte>, peerHash: seq<byte>)
    requires timestampMs < 0x1_0000_0000_0000_0000 && |random| == 8 && |peerHash| == 4
    ensures ParseNonce(GenerateNonce(timestampMs, random, peerHash))
            == Some(Parsed(timestampMs, Hex(random), Hex(peerHash)))
    ensures Decode(RestorePad(GenerateNonce(timestampMs, random, peerHash)))
            == Some(Pack(timestampMs, 8) + random + peerHash)
  {
    var raw := Pack(timestampMs, 8) + random + peerHash;
    PaddingRoundTrip(raw);
    assert Pow256(8) == 0x1_0000_0000_0000_0000 by {
      assert Pow256(2) == 0x1_0000;
      assert Pow256(4) == 0x1_0000_0000;
      assert Pow256(6) == 0x1_0000_0000_0000;
    }
    UnpackPack(timestampMs, 8);
    assert raw[..8] == Pack(timestampMs, 8) && raw[8..16] == random && raw[16..20] == peerHash;
  }

  /** Eight bytes as one number, the most significant first. */
  function Number(b: seq<byte>): nat
    requires |b| == 8
  {
    b[0] as nat * 0x100_0000_0000_0000 + b[1] as nat * 0x1_0000_0000_0000 + b[2] as nat * 0x100_0000_0000
    + b[3] as nat * 0x1_0000_0000 + b[4] as nat * 0x100_0000 + b[5] as nat * 0x1_0000 + b[6] as nat * 0x100
    + b[7] as nat
  }

  /** Any bytes printed without padding are parsed when there are twenty of them or more: the first
      twenty count, eight for the time, eight and four for the other parts. */
  lemma ParsesPrintedBytes(raw: seq<byte>)
    ensures ParseNonce(StripPad(Encode(raw)))
            == if |raw| < 20 then None else Some(Parsed(Number(raw[..8]), Hex(raw[8..16]), Hex(raw[16..20])))
  {
    hide Number;
    PaddingRoundTrip(raw);
    if |raw| >= 20 {
      UnpackEight(raw[..8]);
    }
  }

  lemma UnpackEight(b: seq<byte>)
    requires |b| == 8
    ensures Unpack(b) == Number(b)
  {
    hide Unpack;
    UnpackFour(b, 0);
    UnpackFour(b, 4);
    NothingIsZero(b);
    assert b[..8] == b;
  }

  lemma NothingIsZero(b: seq<byte>)
    ensures Unpack(b[..0]) == 0
  {
  }

  lemma UnpackFour(b: seq<byte>, n: nat)
    requires n + 4 <= |b|
    ensures Unpack(b[..n + 4]) == Unpack(b[..n]) * 0x1_0000_0000
                                  + b[n] as nat * 0x100_0000 + b[n + 1] as nat * 0x1_0000 + b[n + 2] as nat * 0x100
                                  + b[n + 3] as nat
  {
    hide Unpack;
    UnpackLast(b, n + 1);
    UnpackLast(b, n + 2);
    UnpackLast(b, n + 3);
    UnpackLast(b, n + 4);
  }

  lemma UnpackLast(b: seq<byte>, n: nat)
    requires 0 < n <= |b|
    ensures Unpack(b[..n]) == Unpack(b[..n - 1]) * 256 + b[n - 1]
  {
    assert b[..n][..n - 1] == b[..n - 1];
  }

  lemma OneGroup(x: byte, y: byte, z: byte)
    ensures Encode([x, y, z])
            == [Letter(x / 4), Letter(x % 4 * 16 + y / 16), Letter(y % 16 * 4 + z / 64), Letter(z % 64)]
  {
    assert [x, y, z][3..] == [] && Letters([]) == "";
    assert Letters([x, y, z]) == Group(x, y, z) + "";
    assert Pads(0) == "";
  }

  /** The printed text is base64: these are the values of section 10 of RFC 4648. */
  lemma KnownTexts()
    ensures Encode([]) == "" && Encode([102]) == "Zg==" && Encode([102, 111]) == "Zm8="
    ensures Encode([102, 111, 111]) == "Zm9v"
  {
    ShortTexts();
    OneGroup(102, 111, 111);
  }

  /** And this is its alphabet, the one that is safe in addresses (section 5): three runs of letters
      and digits, then a hyphen and an underscore. */
  lemma Alphabet(v: nat)
    requires v < 63 && v != 25 && v != 51 && v != 61 && v != 62
    ensures Letter(0) == 'A' && Letter(25) == 'Z' && Letter(26) == 'a' && Letter(51) == 'z'
    ensures Letter(52) == '0' && Letter(61) == '9' && Letter(62) == '-' && Letter(63) == '_'
    ensures Letter(v + 1) as int == Letter(v) as int + 1
  {
  }

  lemma ShortTexts()
    ensures Encode([]) == "" && Encode([102]) == "Zg==" && Encode([102, 111]) == "Zm8="
  {
    assert Letters([]) == "";
    assert Pads(0) == "" && Pads(1) == "=" && Pads(2) == "==";
  }

  /** A character outside the alphabet is passed over, wherever it stands. */
  lemma {:induction false} ForeignIsSkipped(
    a: string, c: char, b: string, quad: nat, left: nat, pads: nat, out: seq<byte>)
    requires LeftOk(quad, left) && c != '=' && ValueOf(c) == None
    ensures DecodeFrom(a + [c] + b, quad, left, pads, out) == DecodeFrom(a + b, quad, left, pads, out)
    decreases |a|
  {
    if a == "" {
      assert (a + [c] + b)[1..] == b && a + b == b;
    } else {
      assert (a + [c] + b)[1..] == a[1..] + [c] + b && (a + b)[1..] == a[1..] + b;
      if a[0] == '=' {
        if !(quad >= 2 && quad + pads + 1 >= 4) {
          ForeignIsSkipped(a[1..], c, b, quad, left, if quad >= 2 then pads + 1 else pads, out);
        }
      } else if ValueOf(a[0]) == None {
        ForeignIsSkipped(a[1..], c, b, quad, left, pads, out);
      } else {
        var v := ValueOf(a[0]).value;
        if quad == 0 {
          ForeignIsSkipped(a[1..], c, b, 1, v, 0, out);
        } else if quad == 1 {
          ForeignIsSkipped(a[1..], c, b, 2, v % 16, 0, out + [left * 4 + v / 16]);
        } else if quad == 2 {
          ForeignIsSkipped(a[1..], c, b, 3, v % 4, 0, out + [left * 16 + v / 4]);
        } else {
          ForeignIsSkipped(a[1..], c, b, 0, 0, 0, out + [left * 64 + v]);
        }
      }
    }
  }

  lemma DecodeFour(s: string, v0: nat, v1: nat, v2: nat, v3: nat)
    requires |s| == 4 && v0 < 64 && v1 < 64 && v2 < 64 && v3 < 64
    requires ValueOf(s[0]) == Some(v0) && ValueOf(s[1]) == Some(v1) && ValueOf(s[2]) == Some(v2)
    requires ValueOf(s[3]) == Some(v3)
    ensures DecodeFrom(s, 0, 0, 0, []) == Some([v0 * 4 + v1 / 16, v1 % 16 * 16 + v2 / 4, v2 % 4 * 64 + v3])
  {
    var one: seq<byte> := [v0 * 4 + v1 / 16];
    var two: seq<byte> := [v0 * 4 + v1 / 16, v1 % 16 * 16 + v2 / 4];
    assert [] + one == one && one + [v1 % 16 * 16 + v2 / 4] == two;
    assert s[1..][1..] == s[2..] && s[2..][1..] == s[3..] && s[3..][1..] == "";
    assert two + [v2 % 4 * 64 + v3] == [v0 * 4 + v1 / 16, v1 % 16 * 16 + v2 / 4, v2 % 4 * 64 + v3];
    assert DecodeFrom(s[3..], 3, v2 % 4, 0, two) == DecodeFrom("", 0, 0, 0, two + [v2 % 4 * 64 + v3]);
    assert DecodeFrom(s[2..], 2, v1 % 16, 0, one) == DecodeFrom(s[3..], 3, v2 % 4, 0, two);
    assert DecodeFrom(s[1..], 1, v0, 0, []) == DecodeFrom(s[2..], 2, v1 % 16, 0, one);
  }

  /** The standard letters for 62 and 63 read like the address-safe ones. */
  lemma BothAlphabets()
    ensures Decode("++//") == Decode("--__") == Some([251, 239, 255])
  {
    DecodeFour("++//", 62, 62, 63, 63);
    DecodeFour("--__", 62, 62, 63, 63);
  }

  /** What follows the padding is not read; an unfinished group and a text beyond ASCII are refused. */
  lemma PaddingEnds(rest: string)
    ensures DecodeFrom("Zg==" + rest, 0, 0, 0, []) == Some([102])
    ensures Decode("Zg") == None && Decode(['\U{e9}']) == None
  {
    var t := "Zg==" + rest;
    assert t[1..] == "g==" + rest && t[2..] == "==" + rest && t[3..] == "=" + rest;
    assert t[1..][1..] == t[2..] && t[2..][1..] == t[3..];
    assert [] + [102] == [102 as byte];
    assert DecodeFrom(t[3..], 2, 0, 1, [102]) == Some([102]);
    assert DecodeFrom(t[2..], 2, 0, 0, [102]) == DecodeFrom(t[3..], 2, 0, 1, [102]);
    assert DecodeFrom(t[1..], 1, 25, 0, []) == DecodeFrom(t[2..], 2, 0, 0, [102]);
    assert "Zg"[1..] == "g" && "g"[1..] == "";
    assert DecodeFrom("g", 1, 25, 0, []) == DecodeFrom("", 2, 0, 0, [102]);
    assert '\U{e9}' in ['\U{e9}'];
  }

  /** Padding that comes too early is skipped: any of it before the second letter of a group, and one
      sign behind the second when a letter follows. Two signs there, or one behind the third, end
      the input. */
  lemma EarlyPaddingIsSkipped(c: char, rest: string, left: nat, out: seq<byte>)
    requires ValueOf(c).Some?
    ensures DecodeFrom("=" + rest, 0, left, 0, out) == DecodeFrom(rest, 0, left, 0, out)
    ensures left < 64 ==> DecodeFrom("=" + rest, 1, left, 0, out) == DecodeFrom(rest, 1, left, 0, out)
    ensures left < 16 ==> DecodeFrom("=" + ([c] + rest), 2, left, 0, out) == DecodeFrom([c] + rest, 2, left, 0, out)
    ensures left < 16 ==> DecodeFrom("==" + rest, 2, left, 0, out) == Some(out)
    ensures left < 4 ==> DecodeFrom("=" + rest, 3, left, 0, out) == Some(out)
  {
    assert ("=" + rest)[1..] == rest;
    assert ("=" + ([c] + rest))[1..] == [c] + rest;
    assert ("==" + rest)[1..] == "=" + rest;
    assert ([c] + rest)[0] != '=';
    assert left < 16 ==> DecodeFrom("=" + rest, 2, left, 1, out) == Some(out);
  }

  /** Nonces of different parts are different. */
  lemma DistinctNonces(t1: nat, random1: seq<byte>, peer1: seq<byte>, t2: nat, random2: seq<byte>, peer2: seq<byte>)
    requires t1 < 0x1_0000_0000_0000_0000 && |random1| == 8 && |peer1| == 4
    requires t2 < 0x1_0000_0000_0000_0000 && |random2| == 8 && |peer2| == 4
    requires GenerateNonce(t1, random1, peer1) == GenerateNonce(t2, random2, peer2)
    ensures t1 == t2 && random1 == random2 && peer1 == peer2
  {
    NonceRoundTrip(t1, random1, peer1);
    NonceRoundTrip(t2, random2, peer2);
    HexInjective(random1, random2);
    HexInjective(peer1, peer2);
  }
}
