/** The PSBT text encoding (section 4 of RFC 4648). */
module Base64 {
  import opened Wrappers

  type byte = n: nat | n < 256

  /** Character `v` of the alphabet: A to Z, a to z, 0 to 9, plus, slash. */
  function Digit(v: nat): char
    requires v < 64
  {
    if v < 26 then 'A' + v as char
    else if v < 52 then 'a' + (v - 26) as char
    else if v < 62 then '0' + (v - 52) as char
    else if v == 62 then '+' else '/'
  }

  /** The alphabet read backwards. */
  function DigitValue(c: char): (v: Option<nat>)
    ensures v.Some? ==> v.value < 64
  {
    if 'A' <= c <= 'Z' then Some((c - 'A') as nat)
    else if 'a' <= c <= 'z' then Some((c - 'a') as nat + 26)
    else if '0' <= c <= '9' then Some((c - '0') as nat + 52)
    else if c == '+' then Some(62)
    else if c == '/' then Some(63)
    else None
  }

  lemma DigitRoundTrip(v: nat)
    requires v < 64
    ensures DigitValue(Digit(v)) == Some(v) && Digit(v) != '='
  {
  }

  lemma DigitUnique(c: char)
    requires DigitValue(c).Some?
    ensures Digit(DigitValue(c).value) == c
  {
  }

  /** The alphabet of table 1 of RFC 4648: three runs of characters, and two more. */
  lemma AlphabetInOrder()
    ensures Digit(0) == 'A' && Digit(25) == 'Z' && Digit(26) == 'a' && Digit(51) == 'z'
    ensures Digit(52) == '0' && Digit(61) == '9' && Digit(62) == '+' && Digit(63) == '/'
    ensures forall v: nat :: v < 61 && v != 25 && v != 51 ==> Digit(v + 1) as int == Digit(v) as int + 1
  {
  }

  // ---- Encoding ----

  /** The four six-bit values of three bytes. */
  function Quad(x: byte, y: byte, z: byte): (q: string)
    ensures |q| == 4
  {
    [Digit(x / 4), Digit(x % 4 * 16 + y / 16), Digit(y % 16 * 4 + z / 64), Digit(z % 64)]
  }

  /** One group of at most three bytes: missing bytes count as zero and their digits become padding. */
  function EncodedGroup(g: seq<byte>): (q: string)
    requires 1 <= |g| <= 3
    ensures |q| == 4
  {
    if |g| == 3 then Quad(g[0], g[1], g[2])
    else if |g| == 2 then Quad(g[0], g[1], 0)[..3] + "="
    else Quad(g[0], 0, 0)[..2] + "=="
  }

  function Encoded(data: seq<byte>): string {
    if data == [] then ""
    else if |data| <= 3 then EncodedGroup(data)
    else EncodedGroup(data[..3]) + Encoded(data[3..])
  }

  /** The source's loop over groups of three. */
  method Encode(data: seq<byte>) returns (out: string)
    ensures out == Encoded(data)
  {
    out := "";
    var i: nat := 0;
    while i < |data|
      invariant out + Encoded(From(data, i)) == Encoded(data)
    {
      var four := FourCharacters(data, i);
      NextGroup(data, i);
      Regroup(out, four, Encoded(From(data, i + 3)));
      out := out + four;
      i := i + 3;
    }
  }

  /** What one pass of the loop appends. */
  method FourCharacters(data: seq<byte>, i: nat) returns (four: string)
    requires i < |data|
    ensures four == EncodedGroup(Group(data, i))
  {
    var b0 := data[i];
    var b1 := if i + 1 < |data| then data[i + 1] else 0;
    var b2 := if i + 2 < |data| then data[i + 2] else 0;
    four := [Digit(b0 / 4), Digit(b0 % 4 * 16 + b1 / 16)]
          + [if i + 1 < |data| then Digit(b1 % 16 * 4 + b2 / 64) else '=']
          + [if i + 2 < |data| then Digit(b2 % 64) else '='];
    GroupDigits(Group(data, i), four);
  }

  /** The bytes from `i` on, and the next group of them. */
  function From(data: seq<byte>, i: nat): seq<byte> { if i < |data| then data[i..] else [] }

  function Group(data: seq<byte>, i: nat): (g: seq<byte>)
    requires i < |data|
    ensures 1 <= |g| <= 3 && |g| == if i + 3 <= |data| then 3 else |data| - i
    ensures forall j :: 0 <= j < |g| ==> g[j] == data[i + j]
  {
    if i + 3 <= |data| then data[i..i + 3] else data[i..]
  }

  lemma GroupDigits(g: seq<byte>, digits: string)
    requires 1 <= |g| <= 3
    requires var x, y, z := g[0], if |g| > 1 then g[1] else 0, if |g| > 2 then g[2] else 0;
             digits == [Digit(x / 4), Digit(x % 4 * 16 + y / 16)]
                     + [if |g| > 1 then Digit(y % 16 * 4 + z / 64) else '=']
                     + [if |g| > 2 then Digit(z % 64) else '=']
    ensures EncodedGroup(g) == digits
  {
  }

  lemma Regroup(a: string, b: string, c: string)
    ensures a + (b + c) == (a + b) + c
  {
  }

  lemma NextGroup(data: seq<byte>, i: nat)
    requires i < |data|
    ensures Encoded(From(data, i)) == EncodedGroup(Group(data, i)) + Encoded(From(data, i + 3))
  {
    if i + 3 < |data| {
      assert data[i..][..3] == Group(data, i) && data[i..][3..] == data[i + 3..];
    } else {
      assert data[i..] == Group(data, i);
      assert EncodedGroup(Group(data, i)) + "" == EncodedGroup(Group(data, i));
    }
  }

  // ---- Decoding ----

  /** One group of four characters: three bytes, or fewer where padding stands and no stray bits lie under it. */
  function DecodedGroup(q: string): Option<seq<byte>>
    requires |q| == 4
  {
    var a, b, c, d := DigitValue(q[0]), DigitValue(q[1]), DigitValue(q[2]), DigitValue(q[3]);
    if a.None? || b.None? then None
    else if c.Some? && d.Some? then Some(ThreeFrom(a.value, b.value, c.value, d.value))
    else if c.Some? && q[3] == '=' && c.value % 4 == 0 then Some(ThreeFrom(a.value, b.value, c.value, 0)[..2])
    else if q[2] == '=' && q[3] == '=' && b.value % 16 == 0 then Some(ThreeFrom(a.value, b.value, 0, 0)[..1])
    else None
  }

  /** The three bytes spelled by four six-bit values. */
  function ThreeFrom(a: nat, b: nat, c: nat, d: nat): (g: seq<byte>)
    requires a < 64 && b < 64 && c < 64 && d < 64
    ensures |g| == 3
  {
    [a * 4 + b / 16, b % 16 * 16 + c / 4, c % 4 * 64 + d]
  }

  /** Strict decoding: padding only in the last group. */
  function Decoded(s: string): Option<seq<byte>> {
    if s == "" then Some([])
    else if |s| < 4 then None
    else
      match DecodedGroup(s[..4])
      case None => None
      case Some(g) =>
        if |s| == 4 then Some(g)
        else if |g| < 3 then None
        else
          match Decoded(s[4..])
          case None => None
          case Some(rest) => if rest == [] then None else Some(g + rest)
  }

  // ---- Round trips ----

  lemma ThreeBytes(x: byte, y: byte, z: byte)
    ensures ThreeFrom(x / 4, x % 4 * 16 + y / 16, y % 16 * 4 + z / 64, z % 64) == [x, y, z]
  {
  }

  lemma FourDigits(a: nat, b: nat, c: nat, d: nat)
    requires a < 64 && b < 64 && c < 64 && d < 64
    ensures var g := ThreeFrom(a, b, c, d); Quad(g[0], g[1], g[2]) == [Digit(a), Digit(b), Digit(c), Digit(d)]
  {
    var x, y, z := a * 4 + b / 16, b % 16 * 16 + c / 4, c % 4 * 64 + d;
    assert x / 4 == a && x % 4 * 16 + y / 16 == b && y % 16 * 4 + z / 64 == c && z % 64 == d;
  }

  /** The digits a group's bytes turn into read back as the group's six-bit values. */
  lemma QuadValues(x: byte, y: byte, z: byte)
    ensures var q := Quad(x, y, z);
            DigitValue(q[0]) == Some(x / 4) && DigitValue(q[1]) == Some(x % 4 * 16 + y / 16)
            && DigitValue(q[2]) == Some(y % 16 * 4 + z / 64) && DigitValue(q[3]) == Some(z % 64)
  {
    DigitRoundTrip(x / 4);
    DigitRoundTrip(x % 4 * 16 + y / 16);
    DigitRoundTrip(y % 16 * 4 + z / 64);
    DigitRoundTrip(z % 64);
  }

  lemma DecodeThree(x: byte, y: byte, z: byte)
    ensures DecodedGroup(Quad(x, y, z)) == Some([x, y, z])
  {
    QuadValues(x, y, z);
    ThreeBytes(x, y, z);
  }

  lemma DecodeTwo(x: byte, y: byte)
    ensures DecodedGroup(Quad(x, y, 0)[..3] + "=") == Some([x, y])
  {
    QuadValues(x, y, 0);
    ThreeBytes(x, y, 0);
    assert DigitValue('=') == None;
    assert [x, y, 0][..2] == [x, y];
  }

  lemma DecodeOne(x: byte)
    ensures DecodedGroup(Quad(x, 0, 0)[..2] + "==") == Some([x])
  {
    QuadValues(x, 0, 0);
    ThreeBytes(x, 0, 0);
    assert DigitValue('=') == None;
    assert [x, 0, 0][..1] == [x];
  }

  lemma DecodeEncodeGroup(g: seq<byte>)
    requires 1 <= |g| <= 3
    ensures DecodedGroup(EncodedGroup(g)) == Some(g)
  {
    if |g| == 3 {
      DecodeThree(g[0], g[1], g[2]);
      assert g == [g[0], g[1], g[2]];
    } else if |g| == 2 {
      DecodeTwo(g[0], g[1]);
      assert g == [g[0], g[1]];
    } else {
      DecodeOne(g[0]);
      assert g == [g[0]];
    }
  }

  lemma EncodeThree(a: nat, b: nat, c: nat, d: nat)
    requires a < 64 && b < 64 && c < 64 && d < 64
    ensures EncodedGroup(ThreeFrom(a, b, c, d)) == [Digit(a), Digit(b), Digit(c), Digit(d)]
  {
    FourDigits(a, b, c, d);
  }

  lemma EncodeTwo(a: nat, b: nat, c: nat)
    requires a < 64 && b < 64 && c < 64 && c % 4 == 0
    ensures EncodedGroup(ThreeFrom(a, b, c, 0)[..2]) == [Digit(a), Digit(b), Digit(c), '=']
  {
    FourDigits(a, b, c, 0);
    assert ThreeFrom(a, b, c, 0)[2] == 0;
  }

  lemma EncodeOne(a: nat, b: nat)
    requires a < 64 && b < 64 && b % 16 == 0
    ensures EncodedGroup(ThreeFrom(a, b, 0, 0)[..1]) == [Digit(a), Digit(b), '=', '=']
  {
    FourDigits(a, b, 0, 0);
    assert ThreeFrom(a, b, 0, 0)[1] == 0 && ThreeFrom(a, b, 0, 0)[2] == 0;
  }

  /** A group of characters that decodes is the text of what it decodes to. */
  lemma EncodeDecodeGroup(q: string)
    requires |q| == 4 && DecodedGroup(q).Some?
    ensures 1 <= |DecodedGroup(q).value| <= 3 && EncodedGroup(DecodedGroup(q).value) == q
  {
    var a, b, c, d := DigitValue(q[0]), DigitValue(q[1]), DigitValue(q[2]), DigitValue(q[3]);
    DigitUnique(q[0]);
    DigitUnique(q[1]);
    if c.None? {
      EncodeOne(a.value, b.value);
    } else {
      DigitUnique(q[2]);
      if d.None? {
        EncodeTwo(a.value, b.value, c.value);
      } else {
        DigitUnique(q[3]);
        EncodeThree(a.value, b.value, c.value, d.value);
      }
    }
  }

  /** Decoding undoes encoding. */
  lemma {:induction false} DecodeEncode(data: seq<byte>)
    ensures Decoded(Encoded(data)) == Some(data)
  {
    if data == [] {
    } else if |data| <= 3 {
      DecodeEncodeGroup(data);
      assert Encoded(data)[..4] == EncodedGroup(data);
    } else {
      DecodeEncodeGroup(data[..3]);
      DecodeEncode(data[3..]);
      assert Encoded(data)[..4] == EncodedGroup(data[..3]) && Encoded(data)[4..] == Encoded(data[3..]);
      assert data[..3] + data[3..] == data;
    }
  }

  /** And encoding undoes decoding: no other text decodes to these bytes. */
  lemma {:induction false} EncodeDecode(s: string)
    requires Decoded(s).Some?
    ensures Encoded(Decoded(s).value) == s
  {
    if s != "" {
      EncodeDecodeGroup(s[..4]);
      if |s| == 4 {
        assert s[..4] == s;
      } else {
        EncodeDecode(s[4..]);
        var g, data := DecodedGroup(s[..4]).value, Decoded(s).value;
        assert data[..3] == g && data[3..] == Decoded(s[4..]).value;
        assert s == s[..4] + s[4..];
      }
    }
  }

  /** The digits of a group spell, base 64, the number its bytes spell, base 256. */
  lemma SameNumber(x: byte, y: byte, z: byte)
    ensures var q := Quad(x, y, z);
            && (forall i :: 0 <= i < 4 ==> DigitValue(q[i]).Some?)
            && DigitValue(q[0]).value * 262_144 + DigitValue(q[1]).value * 4_096 + DigitValue(q[2]).value * 64
               + DigitValue(q[3]).value == x * 65_536 + y * 256 + z
  {
    QuadValues(x, y, z);
  }

  lemma GroupPadding(g: seq<byte>)
    requires 1 <= |g| <= 3
    ensures forall i :: 0 <= i < 4 ==> (EncodedGroup(g)[i] == '=' <==> i > |g|)
  {
    var x, y, z := g[0], if |g| > 1 then g[1] else 0, if |g| > 2 then g[2] else 0;
    DigitRoundTrip(x / 4);
    DigitRoundTrip(x % 4 * 16 + y / 16);
    DigitRoundTrip(y % 16 * 4 + z / 64);
    DigitRoundTrip(z % 64);
  }

  /** Where padding may stand in the text of `n` bytes. */
  predicate PadPlace(i: int, length: int, n: int) {
    (i == length - 1 && n % 3 != 0) || (i == length - 2 && n % 3 == 1)
  }

  /** Four characters per started group of three bytes. */
  lemma {:induction false} EncodedLength(data: seq<byte>)
    ensures |Encoded(data)| == (|data| + 2) / 3 * 4
  {
    if |data| > 3 {
      EncodedLength(data[3..]);
      assert (|data| + 2) / 3 == 1 + (|data| - 3 + 2) / 3;
    }
  }

  /** Padding stands exactly in the last place unless the bytes fill their groups,
      and in the one before it when a single byte is left. */
  lemma {:induction false} PaddingPlaces(data: seq<byte>, i: nat)
    requires i < |Encoded(data)|
    ensures Encoded(data)[i] == '=' <==> PadPlace(i, |Encoded(data)|, |data|)
  {
    if |data| <= 3 {
      GroupPadding(data);
    } else {
      var head, tail := EncodedGroup(data[..3]), Encoded(data[3..]);
      assert Encoded(data) == head + tail;
      EncodedLength(data[3..]);
      if i >= 4 {
        PaddingPlaces(data[3..], i - 4);
        SameRemainder(|data|);
      } else {
        GroupPadding(data[..3]);
      }
    }
  }

  lemma SameRemainder(n: nat)
    requires n >= 3
    ensures (n - 3) % 3 == n % 3
  {
  }
}
