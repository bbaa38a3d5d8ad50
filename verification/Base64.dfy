/** Unpadded base64url (RFC 4648, sections 3.2 and 5), as the cursor codec uses Python's `base64`
    (app/api/pagination.py). */
module Base64 {
  import opened Numerals

  // --- the codec ----------------------------------------------------------------------------------

  function Letter(v: nat): (c: char)
    requires v < 64
    ensures Sextet(c) == v && c != '=' && c as int < 128
  {
    if v < 26 then 'A' + v as char
    else if v < 52 then 'a' + (v - 26) as char
    else if v < 62 then '0' + (v - 52) as char
    else if v == 62 then '-' else '_'
  }

  /** The decoder's table: `urlsafe_b64decode` maps '-' and '_' onto '+' and '/', which it takes as
      well; None for a character it skips. */
  function Sextet(c: char): (v: int)
    ensures -1 <= v < 64
  {
    if 'A' <= c <= 'Z' then c as int - 'A' as int
    else if 'a' <= c <= 'z' then c as int - 'a' as int + 26
    else if '0' <= c <= '9' then c as int - '0' as int + 52
    else if c == '-' || c == '+' then 62
    else if c == '_' || c == '/' then 63
    else -1
  }

  type Byte = b: nat | b < 256

  function FullQuad(b0: Byte, b1: Byte, b2: Byte): string {
    [Letter(b0 / 4), Letter(b0 % 4 * 16 + b1 / 16), Letter(b1 % 16 * 4 + b2 / 64), Letter(b2 % 64)]
  }

  /** Three bytes become four letters; one or two become two or three and, in full, padding. */
  function Padded(bs: seq<Byte>): string {
    if bs == [] then ""
    else if |bs| == 1 then [Letter(bs[0] / 4), Letter(bs[0] % 4 * 16), '=', '=']
    else if |bs| == 2 then
      [Letter(bs[0] / 4), Letter(bs[0] % 4 * 16 + bs[1] / 16), Letter(bs[1] % 16 * 4), '=']
    else
      FullQuad(bs[0], bs[1], bs[2]) + Padded(bs[3..])
  }

  /** `rstrip("=")` */
  function StripRight(s: string): string {
    if s != [] && s[|s| - 1] == '=' then StripRight(s[..|s| - 1]) else s
  }

  function Encode(bs: seq<Byte>): string {
    StripRight(Padded(bs))
  }

  /** The decoder between characters: position in the quad, bits left over, padding seen, output. */
  datatype Quad = Quad(pos: nat, left: nat, pads: nat, out: seq<Byte>) {
    predicate Ok() {
      pos < 4 && left < (match pos case 0 => 1 case 1 => 64 case 2 => 16 case _ => 4)
    }
  }

  function Feed(q: Quad, v: nat): (q': Quad)
    requires q.Ok() && v < 64
    ensures q'.Ok()
  {
    match q.pos
    case 0 => Quad(1, v, 0, q.out)
    case 1 => Quad(2, v % 16, 0, q.out + [q.left * 4 + v / 16])
    case 2 => Quad(3, v % 4, 0, q.out + [q.left * 16 + v / 4])
    case _ => Quad(0, 0, 0, q.out + [q.left * 64 + v])
  }

  datatype Bytes = Decoded(bytes: seq<Byte>) | Malformed

  /** `binascii.a2b_base64` in its lenient mode: characters outside the alphabet are skipped, and
      padding that completes a quad ends the input. */
  function DecodeFrom(s: string, q: Quad): Bytes
    requires q.Ok()
    decreases |s|
  {
    if s == [] then (if q.pos == 0 then Decoded(q.out) else Malformed)
    else if s[0] == '=' then
      if q.pos >= 2 && q.pos + q.pads + 1 >= 4 then Decoded(q.out)
      else DecodeFrom(s[1..], if q.pos >= 2 then q.(pads := q.pads + 1) else q)
    else if Sextet(s[0]) < 0 then DecodeFrom(s[1..], q)
    else DecodeFrom(s[1..], Feed(q, Sextet(s[0])))
  }

  const START := Quad(0, 0, 0, [])

  /** `"=" * (-len(s) % 4)` */
  function Padding(n: nat): string {
    match n % 4 case 0 => "" case 1 => "===" case 2 => "==" case _ => "="
  }

  // --- base64 round trip ----------------------------------------------------------------------------

  lemma OneLetter(v: nat, rest: string, q: Quad)
    requires q.Ok() && v < 64
    ensures DecodeFrom([Letter(v)] + rest, q) == DecodeFrom(rest, Feed(q, v))
  {
    assert ([Letter(v)] + rest)[1..] == rest;
  }

  lemma TwoLetters(b: Byte, v: nat, rest: string, q: Quad)
    requires q.Ok() && q.pos == 0 && v < 16
    ensures DecodeFrom([Letter(b / 4), Letter(b % 4 * 16 + v)] + rest, q)
         == DecodeFrom(rest, Quad(2, v, 0, q.out + [b]))
  {
    var q1 := Feed(q, b / 4);
    OneLetter(b / 4, [Letter(b % 4 * 16 + v)] + rest, q);
    OneLetter(b % 4 * 16 + v, rest, q1);
    assert [Letter(b / 4), Letter(b % 4 * 16 + v)] + rest == [Letter(b / 4)] + ([Letter(b % 4 * 16 + v)] + rest);
    assert b / 4 * 4 + (b % 4 * 16 + v) / 16 == b && (b % 4 * 16 + v) % 16 == v;
  }

  lemma ThreeLetters(b0: Byte, b1: Byte, v: nat, rest: string, q: Quad)
    requires q.Ok() && q.pos == 0 && v < 4
    ensures DecodeFrom([Letter(b0 / 4), Letter(b0 % 4 * 16 + b1 / 16), Letter(b1 % 16 * 4 + v)] + rest, q)
         == DecodeFrom(rest, Quad(3, v, 0, q.out + [b0, b1]))
  {
    var l2 := Letter(b1 % 16 * 4 + v);
    TwoLetters(b0, b1 / 16, [l2] + rest, q);
    OneLetter(b1 % 16 * 4 + v, rest, Quad(2, b1 / 16, 0, q.out + [b0]));
    assert [Letter(b0 / 4), Letter(b0 % 4 * 16 + b1 / 16), l2] + rest
        == [Letter(b0 / 4), Letter(b0 % 4 * 16 + b1 / 16)] + ([l2] + rest);
    assert b1 / 16 * 16 + (b1 % 16 * 4 + v) / 4 == b1 && (b1 % 16 * 4 + v) % 4 == v;
    assert q.out + [b0] + [b1] == q.out + [b0, b1];
  }

  lemma FourLetters(b0: Byte, b1: Byte, b2: Byte, rest: string, q: Quad)
    requires q.Ok() && q.pos == 0
    ensures DecodeFrom([Letter(b0 / 4), Letter(b0 % 4 * 16 + b1 / 16), Letter(b1 % 16 * 4 + b2 / 64), Letter(b2 % 64)]
                       + rest, q)
         == DecodeFrom(rest, Quad(0, 0, 0, q.out + [b0, b1, b2]))
  {
    var l3 := Letter(b2 % 64);
    ThreeLetters(b0, b1, b2 / 64, [l3] + rest, q);
    OneLetter(b2 % 64, rest, Quad(3, b2 / 64, 0, q.out + [b0, b1]));
    assert [Letter(b0 / 4), Letter(b0 % 4 * 16 + b1 / 16), Letter(b1 % 16 * 4 + b2 / 64), l3] + rest
        == [Letter(b0 / 4), Letter(b0 % 4 * 16 + b1 / 16), Letter(b1 % 16 * 4 + b2 / 64)] + ([l3] + rest);
    assert q.out + [b0, b1] + [b2] == q.out + [b0, b1, b2];
  }

  lemma DecodeEnd(bs: seq<Byte>, q: Quad)
    requires q.Ok() && q.pos == 0 && 1 <= |bs| <= 2
    ensures DecodeFrom(Padded(bs), q) == Decoded(q.out + bs)
  {
    if |bs| == 1 {
      TwoLetters(bs[0], 0, "==", q);
      assert "=="[1..] == "=";
      assert Padded(bs) == [Letter(bs[0] / 4), Letter(bs[0] % 4 * 16 + 0)] + "==";
      assert q.out + [bs[0]] == q.out + bs;
    } else {
      ThreeLetters(bs[0], bs[1], 0, "=", q);
      assert Padded(bs) == [Letter(bs[0] / 4), Letter(bs[0] % 4 * 16 + bs[1] / 16), Letter(bs[1] % 16 * 4 + 0)] + "=";
      assert q.out + [bs[0], bs[1]] == q.out + bs;
    }
  }

  /** The decoder reads padded base64 back. */
  lemma {:induction false} DecodePadded(bs: seq<Byte>, q: Quad)
    requires q.Ok() && q.pos == 0
    ensures DecodeFrom(Padded(bs), q) == Decoded(q.out + bs)
    decreases |bs|
  {
    if |bs| == 0 {
      assert q.out + bs == q.out;
    } else if |bs| <= 2 {
      DecodeEnd(bs, q);
    } else {
      FourLetters(bs[0], bs[1], bs[2], Padded(bs[3..]), q);
      DecodePadded(bs[3..], Quad(0, 0, 0, q.out + [bs[0], bs[1], bs[2]]));
      assert q.out + [bs[0], bs[1], bs[2]] + bs[3..] == q.out + bs;
    }
  }

  lemma StripOne(s: string)
    ensures s == [] || s[|s| - 1] != '=' ==> StripRight(s) == s
    ensures StripRight(s + "=") == StripRight(s)
  {
    assert (s + "=")[..|s|] == s;
  }

  lemma StripEnd(body: string, n: nat)
    requires body != [] && Free(body, '=') && n <= 2
    ensures StripRight(body + (if n == 0 then "" else if n == 1 then "=" else "==")) == body
  {
    StripOne(body);
    StripOne(body + "=");
    assert body + "" == body;
    assert body + "==" == body + "=" + "=";
  }

  lemma EncodeEnd(bs: seq<Byte>)
    requires 1 <= |bs| <= 2
    ensures Padded(bs) == Encode(bs) + Padding(|bs| + 1)
    ensures |Encode(bs)| == |bs| + 1 && Free(Encode(bs), '=')
  {
    if |bs| == 1 {
      var body := [Letter(bs[0] / 4), Letter(bs[0] % 4 * 16)];
      assert Padded(bs) == body + "==";
      StripEnd(body, 2);
    } else {
      var body := [Letter(bs[0] / 4), Letter(bs[0] % 4 * 16 + bs[1] / 16), Letter(bs[1] % 16 * 4)];
      assert Padded(bs) == body + "=";
      StripEnd(body, 1);
    }
  }

  lemma EncodeMore(bs: seq<Byte>)
    requires |bs| >= 3
    ensures Encode(bs) == FullQuad(bs[0], bs[1], bs[2]) + Encode(bs[3..])
  {
    FullQuadIsFree(bs[0], bs[1], bs[2]);
    StripJoin(FullQuad(bs[0], bs[1], bs[2]), Padded(bs[3..]));
  }

  lemma FullQuadIsFree(b0: Byte, b1: Byte, b2: Byte)
    ensures |FullQuad(b0, b1, b2)| == 4 && Free(FullQuad(b0, b1, b2), '=')
  {
  }

  lemma JoinRecovered(quad: string, rest: string, full: string)
    requires |quad| == 4 && Free(quad, '=') && Free(rest, '=') && rest + Padding(|rest|) == full
    ensures quad + rest + Padding(|quad + rest|) == quad + full && Free(quad + rest, '=')
  {
    assert quad + rest + Padding(|rest|) == quad + (rest + Padding(|rest|));
  }

  /** Stripping loses nothing: the padding is a function of the length. */
  lemma {:induction false} PaddingIsRecovered(bs: seq<Byte>)
    ensures Encode(bs) + Padding(|Encode(bs)|) == Padded(bs)
    ensures Free(Encode(bs), '=')
    decreases |bs|
  {
    if 1 <= |bs| <= 2 {
      EncodeEnd(bs);
    } else if |bs| >= 3 {
      EncodeMore(bs);
      FullQuadIsFree(bs[0], bs[1], bs[2]);
      PaddingIsRecovered(bs[3..]);
      JoinRecovered(FullQuad(bs[0], bs[1], bs[2]), Encode(bs[3..]), Padded(bs[3..]));
    }
  }

  lemma {:induction false} StripJoin(head: string, tail: string)
    requires head != [] && Free(head, '=')
    ensures StripRight(head + tail) == head + StripRight(tail)
    decreases |tail|
  {
    if tail != [] && tail[|tail| - 1] == '=' {
      assert (head + tail)[..|head + tail| - 1] == head + tail[..|tail| - 1];
      StripJoin(head, tail[..|tail| - 1]);
    } else {
      assert tail == [] ==> head + tail == head;
    }
  }

  /** What the codec does with a cursor string: restore the padding, then decode. */
  function Decode(s: string): Bytes {
    DecodeFrom(s + Padding(|s|), START)
  }

  lemma RoundTrip(bs: seq<Byte>)
    ensures Decode(Encode(bs)) == Decoded(bs)
  {
    PaddingIsRecovered(bs);
    DecodePadded(bs, START);
    assert [] + bs == bs;
  }

  predicate IsSafe(c: char) {
    c as int < 128 && (c == '=' || Sextet(c) >= 0)
  }

  /** The encoding uses the URL-safe alphabet only. */
  lemma {:induction false} EncodingIsSafe(bs: seq<Byte>)
    ensures forall i :: 0 <= i < |Padded(bs)| ==> IsSafe(Padded(bs)[i])
    decreases |bs|
  {
    if |bs| >= 3 {
      EncodingIsSafe(bs[3..]);
    }
  }

  // --- the letters themselves -----------------------------------------------------------------------

  const UPPER := "ABCDEFGHIJKLMNOPQRSTUVWXYZ"
  const LOWER := "abcdefghijklmnopqrstuvwxyz"

  /** Table 2 of section 5 of RFC 4648. */
  lemma Alphabet(v: nat)
    requires v < 64
    ensures v < 26 ==> Letter(v) == UPPER[v]
    ensures 26 <= v < 52 ==> Letter(v) == LOWER[v - 26]
    ensures 52 <= v < 62 ==> Letter(v) == "0123456789"[v - 52]
    ensures Letter(62) == '-' && Letter(63) == '_'
  {
    if v < 26 {
      Upper(v);
    } else if v < 52 {
      Lower(v - 26);
    } else if v < 62 {
      DigitIsLiteral(v - 52);
    }
  }

  lemma Upper(v: nat)
    requires v < 26
    ensures UPPER[v] == 'A' + v as char
  {
    assert v in {0, 1, 2, 3, 4, 5, 6, 7, 8, 9, 10, 11, 12, 13, 14, 15, 16, 17, 18, 19, 20, 21, 22, 23, 24, 25};
  }

  lemma Lower(v: nat)
    requires v < 26
    ensures LOWER[v] == 'a' + v as char
  {
    assert v in {0, 1, 2, 3, 4, 5, 6, 7, 8, 9, 10, 11, 12, 13, 14, 15, 16, 17, 18, 19, 20, 21, 22, 23, 24, 25};
  }

  /** Three bytes and the four letters they become are the same 24-bit number, first byte first. */
  lemma QuadIsTheNumber(b0: Byte, b1: Byte, b2: Byte)
    ensures var q := FullQuad(b0, b1, b2);
      Sextet(q[0]) * 262_144 + Sextet(q[1]) * 4_096 + Sextet(q[2]) * 64 + Sextet(q[3])
      == b0 * 65_536 + b1 * 256 + b2
  {
  }

  /** The encodings of "f", "fo", "foo" and "foob" in section 10 of RFC 4648, without their padding. */
  lemma ListedEncodings()
    ensures Encode([102]) == "Zg" && Encode([102, 111]) == "Zm8"
    ensures Encode([102, 111, 111]) == "Zm9v" && Encode([102, 111, 111, 98]) == "Zm9vYg"
  {
    OneOrTwoListed();
    ThreeListed();
    FourListed();
  }

  lemma OneOrTwoListed()
    ensures Encode([102]) == "Zg" && Encode([102, 111]) == "Zm8"
  {
    Stripped("Z", 'g', "==");
    Stripped("Zm", '8', "=");
    assert Padded([102]) == "Z" + ['g'] + "==";
    assert Padded([102, 111]) == "Zm" + ['8'] + "=";
  }

  lemma ThreeListed()
    ensures Padded([102, 111, 111]) == "Zm9v" && Encode([102, 111, 111]) == "Zm9v"
  {
    assert [102, 111, 111][3..] == [];
    assert FullQuad(102, 111, 111) == "Zm9v" && Padded([]) == "";
    Stripped("Zm9", 'v', "");
    assert Padded([102, 111, 111]) == "Zm9" + ['v'] + "";
  }

  lemma FourListed()
    ensures Encode([102, 111, 111, 98]) == "Zm9vYg"
  {
    var bs: seq<Byte> := [102, 111, 111, 98];
    assert bs[3..] == [98];
    assert Padded([98]) == "Yg==" && FullQuad(102, 111, 111) == "Zm9v";
    Stripped("Zm9vY", 'g', "==");
    assert Padded(bs) == "Zm9vY" + ['g'] + "==";
  }

  lemma Stripped(front: string, last: char, padding: string)
    requires last != '=' && padding in {"", "=", "=="}
    ensures StripRight(front + [last] + padding) == front + [last]
  {
    var body := front + [last];
    StripOne(body);
    if padding == "" {
      assert body + padding == body;
    } else if padding == "==" {
      StripOne(body + "=");
      assert body + "=" + "=" == body + "==";
    }
  }

  /** The decoder is lenient: it takes both alphabets, and skips whatever is in neither. */
  lemma JunkIsSkipped(c: char, rest: string, q: Quad)
    requires q.Ok() && c != '='
    ensures Sextet('+') == Sextet('-') == 62 && Sextet('/') == Sextet('_') == 63
    ensures DecodeFrom([c] + rest, q)
         == if 'A' <= c <= 'Z' || 'a' <= c <= 'z' || '0' <= c <= '9' || c == '-' || c == '+' || c == '_' || c == '/'
            then DecodeFrom(rest, Feed(q, Sextet(c))) else DecodeFrom(rest, q)
  {
    assert ([c] + rest)[1..] == rest;
  }

  /** One letter is not enough for a byte. */
  lemma LoneLetterIsMalformed(v: nat)
    requires v < 64
    ensures Decode([Letter(v)]) == Malformed
  {
    var q := Feed(START, v);
    assert [Letter(v)] + Padding(1) == [Letter(v)] + "===";
    OneLetter(v, "===", START);
    assert "==="[1..] == "==" && "=="[1..] == "=" && "="[1..] == "";
  }
}
