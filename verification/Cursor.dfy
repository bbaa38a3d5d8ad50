/** The opaque keyset cursor (app/api/pagination.py): base64url of
    "{created_at in microseconds}:{id}". A datetime is its microseconds since the epoch. */
module Cursor {
  import opened Numerals
  import opened Base64

  /** 0001-01-01 and 9999-12-31T23:59:59.999999, the ends of Python's datetime. */
  const MIN_TIME := -62_135_596_800_000_000
  const MAX_TIME := 253_402_300_799_999_999

  /** CPython refuses to parse longer numerals (ValueError). */
  const MAX_DIGITS := 4300

  /** A normalized timedelta. */
  datatype Delta = Delta(days: int, seconds: nat, micros: nat)

  function Since(t: int): Delta {
    Delta(t / 86_400_000_000, t % 86_400_000_000 / 1_000_000, t % 1_000_000)
  }

  function Micros(d: Delta): int {
    (d.days * 86_400 + d.seconds) * 1_000_000 + d.micros
  }

  lemma MicrosOfSince(t: int)
    ensures Micros(Since(t)) == t
  {
    var r := t % 86_400_000_000;
    assert r == r / 1_000_000 * 1_000_000 + r % 1_000_000;
    assert r % 1_000_000 == t % 1_000_000;
  }

  function Text(t: int, id: int): string {
    Print(Micros(Since(t))) + [':'] + Print(id)
  }

  function Codes(s: string): seq<Byte>
    requires forall i :: 0 <= i < |s| ==> s[i] as int < 256
  {
    seq(|s|, i requires 0 <= i < |s| => s[i] as int)
  }

  lemma TextIsAscii(t: int, id: int)
    ensures forall i :: 0 <= i < |Text(t, id)| ==> Text(t, id)[i] as int < 128
  {
    PrintIsNumeral(Micros(Since(t)));
    PrintIsNumeral(id);
  }

  function EncodeCursor(t: int, id: int): string {
    TextIsAscii(t, id);
    Encode(Codes(Text(t, id)))
  }

  /** `TooLate` is the OverflowError of the datetime arithmetic, which the decoder does not catch. */
  datatype Result = Position(t: int, id: int) | Invalid | TooLate

  /** The index of the first separator, or the length of the text. */
  function Find(s: string, c: char): (n: nat)
    ensures n <= |s| && Free(s[..n], c) && (n < |s| ==> s[n] == c)
  {
    if s == [] || s[0] == c then 0
    else
      var m := Find(s[1..], c);
      assert s[..m + 1] == [s[0]] + s[1..][..m];
      m + 1
  }

  function ParseText(s: string): Result {
    var n := Find(s, ':');
    if n == |s| || !IsDigits(s[..n]) || !IsDigits(s[n + 1..]) then Invalid
    else if n > MAX_DIGITS || |s| - n - 1 > MAX_DIGITS then Invalid
    else
      var micros, id := Parse(s[..n]), Parse(s[n + 1..]);
      if id <= 0 then Invalid else if micros > MAX_TIME then TooLate else Position(micros, id)
  }

  function DecodeCursor(cursor: string): Result {
    if exists i :: 0 <= i < |cursor| && cursor[i] as int >= 128 then Invalid
    else
      match Decode(cursor)
      case Malformed => Invalid
      case Decoded(bytes) =>
        if exists i :: 0 <= i < |bytes| && bytes[i] >= 128 then Invalid
        else ParseText(seq(|bytes|, i requires 0 <= i < |bytes| => bytes[i] as char))
  }

  // --- round trips ----------------------------------------------------------------------------------

  lemma FindAt(a: string, c: char, b: string)
    requires Free(a, c)
    ensures Find(a + [c] + b, c) == |a|
  {
    var s := a + [c] + b;
    var n := Find(s, c);
    assert s[|a|] == c && s[..|s|] == s;
    assert n < |s|;
    assert s == s[..n] + [c] + s[n + 1..];
    SplitIsUnique(s[..n], a, c, s[n + 1..], b);
  }

  lemma Pow10Of18()
    ensures Pow10(18) == 1_000_000_000_000_000_000
  {
    assert Pow10(2) == 100;
    assert Pow10(4) == 10_000;
    assert Pow10(6) == 1_000_000;
    assert Pow10(8) == 100_000_000;
    assert Pow10(10) == 10_000_000_000;
    assert Pow10(12) == 1_000_000_000_000;
    assert Pow10(14) == 100_000_000_000_000;
    assert Pow10(16) == 10_000_000_000_000_000;
  }

  /** The text parses back exactly when both numbers are what the decoder admits. */
  lemma ParseTextOf(t: int, id: int)
    requires t <= MAX_TIME
    ensures ParseText(Text(t, id)) ==
      if t >= 0 && id > 0 && |Print(id)| <= MAX_DIGITS then Position(t, id) else Invalid
  {
    MicrosOfSince(t);
    var s, a, b := Text(t, id), Print(t), Print(id);
    PrintIsFree(t, ':');
    FindAt(a, ':', b);
    assert s[..|a|] == a && s[|a| + 1..] == b;
    SignShows(t);
    SignShows(id);
    if t >= 0 {
      ParseDecimal(t);
      Pow10Of18();
      DecimalLength(t, 18);
      if id >= 0 { ParseDecimal(id); }
    }
  }

  lemma DecodeOfEncode(s: string)
    requires forall i :: 0 <= i < |s| ==> s[i] as int < 128
    ensures DecodeCursor(Encode(Codes(s))) == ParseText(s)
  {
    var bs := Codes(s);
    RoundTrip(bs);
    PaddingIsRecovered(bs);
    EncodingIsSafe(bs);
    var c := Encode(bs);
    forall i | 0 <= i < |c| ensures c[i] as int < 128 {
      assert Padded(bs)[i] == c[i];
    }
    var back := seq(|bs|, i requires 0 <= i < |bs| => bs[i] as char);
    assert back == s;
  }

  /** The cursor of a row decodes to its position if and only if the row is no older than the epoch
      and its id is positive (and printable); any other cursor the encoder makes is refused. */
  lemma CursorRoundTrip(t: int, id: int)
    requires MIN_TIME <= t <= MAX_TIME
    ensures DecodeCursor(EncodeCursor(t, id)) ==
      if t >= 0 && id > 0 && |Print(id)| <= MAX_DIGITS then Position(t, id) else Invalid
  {
    TextIsAscii(t, id);
    DecodeOfEncode(Text(t, id));
    ParseTextOf(t, id);
  }

  /** Distinct positions have distinct cursors, those the decoder refuses included. */
  lemma CursorIsInjective(t: int, id: int, t': int, id': int)
    requires EncodeCursor(t, id) == EncodeCursor(t', id')
    ensures t == t' && id == id'
  {
    TextIsAscii(t, id);
    TextIsAscii(t', id');
    var s, s' := Text(t, id), Text(t', id');
    RoundTrip(Codes(s));
    RoundTrip(Codes(s'));
    assert Codes(s) == Codes(s') && |s| == |s'|;
    forall i | 0 <= i < |s| ensures s[i] == s'[i] {
      assert Codes(s)[i] == Codes(s')[i];
    }
    assert s == s';
    MicrosOfSince(t);
    MicrosOfSince(t');
    PrintIsFree(t, ':');
    PrintIsFree(t', ':');
    SplitIsUnique(Print(t), Print(t'), ':', Print(id), Print(id'));
    PrintIsInjective(t, t');
    PrintIsInjective(id, id');
  }

  lemma AcceptedText(s: string)
    ensures var r := ParseText(s);
      r.Position? ==> 0 <= r.t <= MAX_TIME && r.id > 0 && |Print(r.id)| <= MAX_DIGITS
  {
    var n := Find(s, ':');
    if ParseText(s).Position? {
      PrintIsShortest(s[n + 1..]);
    }
  }

  /** The lenient decoder accepts many spellings; each names a position whose own cursor decodes to
      the same position. */
  lemma AcceptedCursorIsCanonicalizable(cursor: string)
    ensures var r := DecodeCursor(cursor);
      r.Position? ==> DecodeCursor(EncodeCursor(r.t, r.id)) == r
  {
    var r := DecodeCursor(cursor);
    if r.Position? {
      var bytes := Decode(cursor).bytes;
      AcceptedText(seq(|bytes|, i requires 0 <= i < |bytes| => bytes[i] as char));
      CursorRoundTrip(r.t, r.id);
    }
  }

  // --- the text itself --------------------------------------------------------------------------------

  /** What a cursor encodes: the microseconds since the epoch, a colon and the id. */
  lemma CursorText(t: int, id: int)
    ensures Text(t, id) == Print(t) + ":" + Print(id)
  {
    MicrosOfSince(t);
  }

  /** The cursor of the first microsecond of the epoch and article 1. */
  lemma FirstCursor()
    ensures EncodeCursor(0, 1) == "MDox"
  {
    CursorText(0, 1);
    var bs: seq<Byte> := [48, 58, 49];
    assert Codes(Text(0, 1)) == bs by {
      assert Text(0, 1) == "0:1";
    }
    assert bs[3..] == [];
    assert FullQuad(48, 58, 49) == "MDox" && Padded([]) == "";
    Stripped("MDo", 'x', "");
    assert Padded(bs) == "MDo" + ['x'] + "";
  }

  /** Exactly which texts the decoder takes, and as what: two runs of digits around the first colon, the
      second not zero. */
  lemma TextIsAcceptedIff(s: string, a: string, b: string)
    requires s == a + ":" + b && Free(a, ':')
    ensures var ok := && IsDigits(a) && IsDigits(b) && |a| <= MAX_DIGITS && |b| <= MAX_DIGITS && Parse(b) > 0;
      ParseText(s) == if !ok then Invalid else if Parse(a) > MAX_TIME then TooLate else Position(Parse(a), Parse(b))
  {
    FindAt(a, ':', b);
    assert s == a + [':'] + b;
    assert s[..|a|] == a && s[|a| + 1..] == b;
  }

  lemma TextWithoutColon(s: string)
    requires Free(s, ':')
    ensures ParseText(s) == Invalid
  {
    var n := Find(s, ':');
  }
}
