/** Document identifiers: a 12-byte object id and its 24-character hexadecimal
    text form. The handlers receive ids as text and reject any text that does
    not parse; responses carry the canonical lower-case text of the stored id. */
module ObjectIds {
  import opened Common

  type Byte = b: int | 0 <= b < 256

  type ObjectId = s: seq<Byte> | |s| == 12 witness [0, 0, 0, 0, 0, 0, 0, 0, 0, 0, 0, 0]

  const Digits := "0123456789abcdef"

  predicate IsHexDigit(c: char) {
    '0' <= c <= '9' || 'a' <= c <= 'f' || 'A' <= c <= 'F'
  }

  /** The value of one hexadecimal digit, either case. */
  function DigitValue(c: char): (n: int)
    requires IsHexDigit(c)
    ensures 0 <= n < 16
  {
    if '0' <= c <= '9' then c as int - '0' as int
    else if 'a' <= c <= 'f' then c as int - 'a' as int + 10
    else c as int - 'A' as int + 10
  }

  /** The lower-case form of a hexadecimal digit: an upper-case letter moves
      to its lower-case letter, any other digit stays, and the value is kept. */
  function LowerDigit(c: char): (d: char)
    requires IsHexDigit(c)
    ensures d in Digits
    ensures IsHexDigit(d) && DigitValue(d) == DigitValue(c)
    ensures 'A' <= c <= 'F' ==> d as int == c as int - 'A' as int + 'a' as int
    ensures !('A' <= c <= 'F') ==> d == c
  {
    DigitChar(DigitValue(c));
    Digits[DigitValue(c)]
  }

  /** The canonical digit of each value: '0' to '9', then 'a' to 'f'. */
  lemma DigitChar(n: int)
    requires 0 <= n < 16
    ensures Digits[n] as int == if n < 10 then '0' as int + n else 'a' as int + n - 10
  {
    // one case per digit
    if n == 0 {} else if n == 1 {} else if n == 2 {} else if n == 3 {}
    else if n == 4 {} else if n == 5 {} else if n == 6 {} else if n == 7 {}
    else if n == 8 {} else if n == 9 {} else if n == 10 {} else if n == 11 {}
    else if n == 12 {} else if n == 13 {} else if n == 14 {} else {}
  }

  /** The upper-case digits 'A' to 'F' read as 10 to 15 and print back as 'a' to 'f'. */
  lemma UpperDigit(n: int)
    requires 10 <= n < 16
    ensures IsHexDigit("ABCDEF"[n - 10])
    ensures DigitValue("ABCDEF"[n - 10]) == n && LowerDigit("ABCDEF"[n - 10]) == Digits[n]
  {
    if n == 10 {} else if n == 11 {} else if n == 12 {}
    else if n == 13 {} else if n == 14 {} else {}
  }

  /** ObjectID.Hex(): two lower-case digits per byte, high nibble first. */
  function Hex(id: ObjectId): (s: string)
    ensures |s| == 24
    ensures forall i :: 0 <= i < 24 ==> s[i] in Digits
  {
    seq(24, i requires 0 <= i < 24 =>
      Digits[if i % 2 == 0 then id[i / 2] / 16 else id[i / 2] % 16])
  }

  predicate IsHexText(s: string) {
    |s| == 24 && forall i :: 0 <= i < |s| ==> IsHexDigit(s[i])
  }

  /** ObjectIDFromHex: exactly 24 hexadecimal digits of either case, or nothing. */
  function ParseHex(s: string): (r: Option<ObjectId>)
    ensures r.Some? <==> IsHexText(s)
  {
    if !IsHexText(s) then None
    else
      var b := seq(12, k requires 0 <= k < 12 => DigitValue(s[2 * k]) * 16 + DigitValue(s[2 * k + 1]));
      Some(b)
  }

  lemma DigitRoundTrip(n: int)
    requires 0 <= n < 16
    ensures IsHexDigit(Digits[n]) && DigitValue(Digits[n]) == n
  {
    // one case per digit
    if n == 0 {} else if n == 1 {} else if n == 2 {} else if n == 3 {}
    else if n == 4 {} else if n == 5 {} else if n == 6 {} else if n == 7 {}
    else if n == 8 {} else if n == 9 {} else if n == 10 {} else if n == 11 {}
    else if n == 12 {} else if n == 13 {} else if n == 14 {} else {}
  }

  /** The two digits of byte k of an id sit at positions 2k and 2k + 1 of its text. */
  lemma HexAt(id: ObjectId, k: int)
    requires 0 <= k < 12
    ensures 0 <= id[k] / 16 < 16 && 0 <= id[k] % 16 < 16
    ensures Hex(id)[2 * k] == Digits[id[k] / 16] && Hex(id)[2 * k + 1] == Digits[id[k] % 16]
  {
    var s := Hex(id);
    assert (2 * k) % 2 == 0 && (2 * k) / 2 == k;
    assert (2 * k + 1) % 2 == 1 && (2 * k + 1) / 2 == k;
  }

  /** Parsing the text of an id gives back that id. */
  lemma ParseHexOfHex(id: ObjectId)
    ensures ParseHex(Hex(id)) == Some(id)
  {
    var s := Hex(id);
    forall k | 0 <= k < 12
      ensures IsHexDigit(s[2 * k]) && IsHexDigit(s[2 * k + 1])
      ensures DigitValue(s[2 * k]) * 16 + DigitValue(s[2 * k + 1]) == id[k]
    {
      HexByte(id, k);
    }
    forall i | 0 <= i < 24 ensures IsHexDigit(s[i]) {
      var k := i / 2;
      assert i == 2 * k || i == 2 * k + 1;
    }
    var r := ParseHex(s);
    forall k | 0 <= k < 12 ensures r.value[k] == id[k] {
      ParseHexAt(s, k);
    }
    assert r.value == id;
  }

  /** The two digits printed for byte k of an id read back as that byte. */
  lemma HexByte(id: ObjectId, k: int)
    requires 0 <= k < 12
    ensures IsHexDigit(Hex(id)[2 * k]) && IsHexDigit(Hex(id)[2 * k + 1])
    ensures DigitValue(Hex(id)[2 * k]) * 16 + DigitValue(Hex(id)[2 * k + 1]) == id[k]
  {
    HexAt(id, k);
    DigitRoundTrip(id[k] / 16);
    DigitRoundTrip(id[k] % 16);
    JoinByte(id[k]);
  }

  lemma JoinByte(b: Byte)
    ensures (b / 16) * 16 + b % 16 == b
  {
  }

  /** Distinct ids have distinct texts. */
  lemma HexInjective(a: ObjectId, b: ObjectId)
    ensures Hex(a) == Hex(b) ==> a == b
  {
    ParseHexOfHex(a);
    ParseHexOfHex(b);
  }

  /** A parsed id prints back as the lower-case form of the text it came from. */
  lemma HexOfParseHex(s: string)
    requires ParseHex(s).Some?
    ensures |Hex(ParseHex(s).value)| == |s|
    ensures forall i :: 0 <= i < |s| ==> Hex(ParseHex(s).value)[i] == LowerDigit(s[i])
  {
    var id := ParseHex(s).value;
    forall i | 0 <= i < 24 ensures Hex(id)[i] == LowerDigit(s[i]) {
      var k := i / 2;
      HexOfParseHexAt(s, k);
      assert i == 2 * k || i == 2 * k + 1;
    }
  }

  lemma HexOfParseHexAt(s: string, k: int)
    requires ParseHex(s).Some? && 0 <= k < 12
    ensures Hex(ParseHex(s).value)[2 * k] == LowerDigit(s[2 * k])
    ensures Hex(ParseHex(s).value)[2 * k + 1] == LowerDigit(s[2 * k + 1])
  {
    var id := ParseHex(s).value;
    var hi, lo := DigitValue(s[2 * k]), DigitValue(s[2 * k + 1]);
    ParseHexAt(s, k);
    SplitByte(hi, lo);
    assert id[k] / 16 == hi && id[k] % 16 == lo;
    HexAt(id, k);
  }

  /** Byte k of a parsed id is made of the digits at positions 2k and 2k + 1. */
  lemma ParseHexAt(s: string, k: int)
    requires ParseHex(s).Some? && 0 <= k < 12
    ensures IsHexDigit(s[2 * k]) && IsHexDigit(s[2 * k + 1])
    ensures ParseHex(s).value[k] == DigitValue(s[2 * k]) * 16 + DigitValue(s[2 * k + 1])
  {
  }

  lemma SplitByte(hi: int, lo: int)
    requires 0 <= hi < 16 && 0 <= lo < 16
    ensures (hi * 16 + lo) / 16 == hi && (hi * 16 + lo) % 16 == lo
  {
  }

  /** The malformed id used as the example of a rejected identifier. */
  lemma NotAnIdIsRejected()
    ensures ParseHex("not-an-id") == None
    ensures ParseHex("") == None
  {
    assert |"not-an-id"| == 9;
  }
}
