/** Base64 with the standard alphabet and padding, section 4 of RFC 4648, decoded as Go's StdEncoding does. */
module Base64 {
  import opened Parts

  function Letter(v: nat): (c: char)
    requires v < 64
    ensures ValueOf(c) == Some(v) && c != '=' && c != '\r' && c != '\n'
  {
    if v < 26 then ('A' as int + v) as char
    else if v < 52 then ('a' as int + v - 26) as char
    else if v < 62 then ('0' as int + v - 52) as char
    else if v == 62 then '+' else '/'
  }

  function ValueOf(c: char): (v: Option<nat>)
    ensures v.Some? ==> v.value < 64
  {
    if 'A' <= c <= 'Z' then Some(c as int - 'A' as int)
    else if 'a' <= c <= 'z' then Some(c as int - 'a' as int + 26)
    else if '0' <= c <= '9' then Some(c as int - '0' as int + 52)
    else if c == '+' then Some(62)
    else if c == '/' then Some(63)
    else None
  }

  function Encode(b: seq<byte>): (t: string) {
    if b == [] then ""
    else if |b| == 1 then [Letter(b[0] / 4), Letter(b[0] % 4 * 16), '=', '=']
    else if |b| == 2 then [Letter(b[0] / 4), Letter(b[0] % 4 * 16 + b[1] / 16), Letter(b[1] % 16 * 4), '=']
    else Quantum(b[0], b[1], b[2]) + Encode(b[3..])
  }

  function Quantum(x: byte, y: byte, z: byte): (t: string)
    ensures |t| == 4
  {
    [Letter(x / 4), Letter(x % 4 * 16 + y / 16), Letter(y % 16 * 4 + z / 64), Letter(z % 64)]
  }

  /** The examples "foo", "fo" and "f" of section 10 of RFC 4648, and the last two letters of the alphabet. */
  lemma Examples()
    ensures Encode([102, 111, 111]) == "Zm9v" && Encode([102, 111]) == "Zm8=" && Encode([102]) == "Zg=="
    ensures Encode([251, 255, 191]) == "+/+/"
  {
    assert Encode([102, 111, 111]) == Quantum(102, 111, 111) + Encode([]);
    assert Encode([251, 255, 191]) == Quantum(251, 255, 191) + Encode([]);
  }

  /** Line breaks are ignored wherever they stand. */
  function WithoutBreaks(t: string): string {
    if t == "" then ""
    else if t[0] == '\r' || t[0] == '\n' then WithoutBreaks(t[1..])
    else [t[0]] + WithoutBreaks(t[1..])
  }

  /** Padding may stand only at the end; the unused bits before it are not looked at. */
  function DecodeQuanta(t: string): Option<seq<byte>> {
    if t == "" then Some([])
    else if |t| < 4 then None
    else
      match (ValueOf(t[0]), ValueOf(t[1]))
      case (Some(p), Some(q)) =>
        var x := p * 4 + q / 16;
        if t[2..] == "==" then Some([x]) else
          (match ValueOf(t[2])
           case None => None
           case Some(r) =>
             var y := q % 16 * 16 + r / 4;
             if t[3..] == "=" then Some([x, y]) else
               (match (ValueOf(t[3]), DecodeQuanta(t[4..]))
                case (Some(s), Some(rest)) => Some([x, y, r % 4 * 64 + s] + rest)
                case _ => None))
      case _ => None
  }

  function Decode(t: string): Option<seq<byte>> {
    DecodeQuanta(WithoutBreaks(t))
  }

  /** A character of an encoded text: never white space, a line break or a quotation mark. */
  predicate InText(c: char) {
    ValueOf(c).Some? || c == '='
  }

  lemma {:induction false} EncodedText(b: seq<byte>)
    ensures forall k :: 0 <= k < |Encode(b)| ==> InText(Encode(b)[k])
    ensures b != [] ==> |Encode(b)| >= 4
    ensures |Encode(b)| % 4 == 0
  {
    hide Letter, ValueOf, InText, Quantum;
    LettersInText();
    if |b| >= 3 {
      EncodedText(b[3..]);
      QuantumInText(b[0], b[1], b[2]);
    }
  }

  lemma LettersInText()
    ensures InText('=') && forall v: nat :: v < 64 ==> InText(Letter(v))
  {
  }

  lemma QuantumInText(x: byte, y: byte, z: byte)
    ensures forall k :: 0 <= k < 4 ==> InText(Quantum(x, y, z)[k])
  {
    hide Letter, InText;
    LettersInText();
  }

  lemma {:induction false} NoBreaks(t: string)
    requires forall k :: 0 <= k < |t| ==> InText(t[k])
    ensures WithoutBreaks(t) == t
  {
    if t != "" {
      NoBreaks(t[1..]);
      assert InText(t[0]);
    }
  }

  lemma QuantumDecodes(x: byte, y: byte, z: byte, rest: string, more: seq<byte>)
    requires DecodeQuanta(rest) == Some(more)
    ensures DecodeQuanta(Quantum(x, y, z) + rest) == Some([x, y, z] + more)
  {
    hide Letter, ValueOf, DecodeQuanta;
    var t := Quantum(x, y, z) + rest;
    assert t[4..] == rest;
    DecodeStep(t, x / 4, x % 4 * 16 + y / 16, y % 16 * 4 + z / 64, z % 64);
    QuantumValues(x, y, z);
  }

  lemma DecodeStep(t: string, p: nat, q: nat, r: nat, s: nat)
    requires |t| >= 4 && t[2] != '=' && t[3] != '='
    requires ValueOf(t[0]) == Some(p) && ValueOf(t[1]) == Some(q) && ValueOf(t[2]) == Some(r) && ValueOf(t[3]) == Some(s)
    ensures DecodeQuanta(t)
      == match DecodeQuanta(t[4..])
         case Some(rest) => Some([p * 4 + q / 16, q % 16 * 16 + r / 4, r % 4 * 64 + s] + rest)
         case None => None
  {
    hide ValueOf;
    assert t[2..][0] != '=' && t[3..][0] != '=';
  }

  lemma QuantumValues(x: byte, y: byte, z: byte)
    ensures var p, q, r, s := x / 4, x % 4 * 16 + y / 16, y % 16 * 4 + z / 64, z % 64;
      p * 4 + q / 16 == x && q % 16 * 16 + r / 4 == y && r % 4 * 64 + s == z
  {
  }

  /** Every byte string is read back. */
  lemma {:induction false} DecodeEncode(b: seq<byte>)
    ensures Decode(Encode(b)) == Some(b)
  {
    EncodedText(b);
    NoBreaks(Encode(b));
    QuantaReadBack(b);
  }

  lemma {:induction false} QuantaReadBack(b: seq<byte>)
    ensures DecodeQuanta(Encode(b)) == Some(b)
  {
    hide Letter, ValueOf;
    if |b| >= 3 {
      QuantaReadBack(b[3..]);
      QuantumDecodes(b[0], b[1], b[2], Encode(b[3..]), b[3..]);
      assert b == [b[0], b[1], b[2]] + b[3..];
    } else if |b| == 2 {
      TwoReadBack(b[0], b[1]);
      assert b == [b[0], b[1]];
    } else if |b| == 1 {
      OneReadBack(b[0]);
      assert b == [b[0]];
    }
  }

  lemma TwoReadBack(x: byte, y: byte)
    ensures DecodeQuanta([Letter(x / 4), Letter(x % 4 * 16 + y / 16), Letter(y % 16 * 4), '=']) == Some([x, y])
  {
    hide Letter, ValueOf;
    var t := [Letter(x / 4), Letter(x % 4 * 16 + y / 16), Letter(y % 16 * 4), '='];
    assert t[2..][0] != '=' && t[3..] == "=";
  }

  lemma OneReadBack(x: byte)
    ensures DecodeQuanta([Letter(x / 4), Letter(x % 4 * 16), '=', '=']) == Some([x])
  {
    hide Letter, ValueOf;
    var t := [Letter(x / 4), Letter(x % 4 * 16), '=', '='];
    assert t[2..] == "==";
  }

  /** Only texts whose length without line breaks is a multiple of four are accepted, and that length fixes the
      number of bytes up to the padding. */
  lemma DecodedLength(t: string)
    requires Decode(t).Some?
    ensures var n := |WithoutBreaks(t)|;
      && n % 4 == 0 && |Decode(t).value| <= n / 4 * 3
      && (n >= 4 ==> |Decode(t).value| > n / 4 * 3 - 3)
  {
    QuantaLength(WithoutBreaks(t));
  }

  lemma {:induction false} QuantaLength(t: string)
    requires DecodeQuanta(t).Some?
    ensures |t| % 4 == 0 && |DecodeQuanta(t).value| <= |t| / 4 * 3
    ensures |t| >= 4 ==> |DecodeQuanta(t).value| > |t| / 4 * 3 - 3
  {
    hide ValueOf;
    if t != "" && t[2..] != "==" && t[3..] != "=" {
      QuantaLength(t[4..]);
    }
  }
}
