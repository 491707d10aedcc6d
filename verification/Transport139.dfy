/**
 drivers/139Cloud/qrlogin.go: the body cipher of the QR login. PKCS#7 padding (section 6.3 of RFC 5652), CBC
 (section 6.2 of NIST SP 800-38A) with the initialisation vector in front, and base64.
 */
module Transport139 {
  import opened Parts
  import opened Text
  import Base64

  const BLOCK := 16

  // ---- padding ----

  function Repeat(b: byte, n: nat): (r: seq<byte>) {
    seq(n, _ => b)
  }

  /** At least one byte, each holding how many there are. */
  function Padding(n: nat): (r: seq<byte>)
    ensures 1 <= |r| <= 16 && (n + |r|) % 16 == 0
  {
    Repeat(BLOCK - n % BLOCK, BLOCK - n % BLOCK)
  }

  /** pkcs7Pad. */
  method Pkcs7Pad(data: seq<byte>) returns (out: array<byte>)
    ensures fresh(out) && out[..] == data + Padding(|data|)
  {
    var padLen := BLOCK - |data| % BLOCK;
    out := new byte[|data| + padLen];
    for i := 0 to |data|
      invariant out[..i] == data[..i]
    {
      out[i] := data[i];
    }
    for i := |data| to out.Length
      invariant out[..i] == data + Repeat(padLen, i - |data|)
    {
      out[i] := padLen;
      assert out[..i + 1] == out[..i] + [out[i]];
      assert Repeat(padLen, i - |data|) + [padLen] == Repeat(padLen, i + 1 - |data|);
    }
    assert out[..out.Length] == out[..];
  }

  /** pkcs7Unpad finds the data exactly when it is followed by 1 to 16 bytes that each hold their number. */
  method Pkcs7Unpad(data: seq<byte>) returns (r: Option<seq<byte>>)
    ensures r == Unpadded(data)
  {
    if |data| == 0 {
      return None;
    }
    var padLen := data[|data| - 1];
    if padLen == 0 || padLen > |data| || padLen > BLOCK {
      return None;
    }
    for i := 0 to padLen
      invariant data[|data| - i..] == Repeat(padLen, i)
    {
      if data[|data| - 1 - i] != padLen {
        assert data[|data| - padLen..][padLen - 1 - i] != padLen;
        return None;
      }
      assert data[|data| - 1 - i..] == [padLen] + data[|data| - i..];
    }
    r := Some(data[..|data| - padLen]);
  }

  function Unpadded(data: seq<byte>): Option<seq<byte>> {
    if data == [] then None else
      var n := data[|data| - 1];
      if 1 <= n <= BLOCK && n <= |data| && data[|data| - n..] == Repeat(n, n) then Some(data[..|data| - n]) else None
  }

  /** Unpadding undoes padding, and of whole blocks it accepts nothing else. */
  lemma UnpaddedIff(data: seq<byte>, body: seq<byte>)
    requires |data| % BLOCK == 0
    ensures Unpadded(data) == Some(body) <==> data == body + Padding(|body|)
  {
    if data == body + Padding(|body|) {
      var n := |Padding(|body|)|;
      assert data[|data| - n..] == Padding(|body|) && data[..|data| - n] == body;
    }
    if Unpadded(data) == Some(body) {
      var n := data[|data| - 1];
      assert data == body + data[|data| - n..];
      assert |data| == |body| + n;
      assert n == BLOCK - |body| % BLOCK;
    }
  }

  /** Without the whole blocks it accepts more: one byte 1 reads as an empty body. */
  lemma UnpaddedAnyLength(body: seq<byte>, n: byte)
    requires 1 <= n <= 16
    ensures Unpadded(body + Repeat(n, n)) == Some(body)
  {
    var data := body + Repeat(n, n);
    assert data[|data| - n..] == Repeat(n, n) && data[..|data| - n] == body;
  }

  // ---- the block cipher ----

  type Block = b: seq<byte> | |b| == BLOCK witness seq(BLOCK, _ => 0)

  /** AES under the fixed key: all that is used of it is that decryption inverts encryption. */
  datatype Cipher = Cipher(enc: Block -> Block, dec: Block -> Block)

  ghost predicate Inverse(c: Cipher) {
    forall b: Block :: c.dec(c.enc(b)) == b
  }

  function XorBits(a: nat, b: nat, bits: nat): (r: nat)
    decreases bits
  {
    if bits == 0 then 0 else 2 * XorBits(a / 2, b / 2, bits - 1) + (a + b) % 2
  }

  function Power2(bits: nat): nat {
    if bits == 0 then 1 else 2 * Power2(bits - 1)
  }

  lemma {:induction false} XorTwice(a: nat, b: nat, bits: nat)
    requires a < Power2(bits)
    ensures XorBits(a, b, bits) < Power2(bits)
    ensures XorBits(XorBits(a, b, bits), b, bits) == a
    decreases bits
  {
    if bits > 0 {
      XorTwice(a / 2, b / 2, bits - 1);
      var x, rest := XorBits(a, b, bits), XorBits(a / 2, b / 2, bits - 1);
      HalfAndBit(rest, (a + b) % 2);
      BitTwice(a, b);
      assert XorBits(x, b, bits) == 2 * XorBits(x / 2, b / 2, bits - 1) + (x + b) % 2;
      SumBit(x, (a + b) % 2, b);
    }
  }

  lemma HalfAndBit(half: nat, bit: nat)
    requires bit < 2
    ensures (2 * half + bit) / 2 == half && (2 * half + bit) % 2 == bit
  {
  }

  lemma BitTwice(a: nat, b: nat)
    ensures ((a + b) % 2 + b) % 2 == a % 2 && 2 * (a / 2) + a % 2 == a
  {
  }

  lemma SumBit(x: nat, bit: nat, b: nat)
    requires x % 2 == bit
    ensures (x + b) % 2 == (bit + b) % 2
  {
  }

  function Xor(a: byte, b: byte): byte {
    XorTwice(a, b, 8);
    assert Power2(2) == 4 && Power2(4) == 16 && Power2(6) == 64 && Power2(8) == 256;
    XorBits(a, b, 8)
  }

  /** Each bit of the result is set exactly when the two bits differ. */
  lemma {:induction false} XorBitAt(a: nat, b: nat, bits: nat, k: nat)
    requires k < bits
    ensures Bit(XorBits(a, b, bits), k) == 1 <==> Bit(a, k) != Bit(b, k)
    decreases k
  {
    var x := XorBits(a, b, bits);
    XorHalves(a, b, bits);
    if k == 0 {
      OddSum(a, b);
    } else {
      XorBitAt(a / 2, b / 2, bits - 1, k - 1);
      assert Bit(x, k) == Bit(x / 2, k - 1);
    }
  }

  lemma XorHalves(a: nat, b: nat, bits: nat)
    requires bits > 0
    ensures XorBits(a, b, bits) / 2 == XorBits(a / 2, b / 2, bits - 1) && XorBits(a, b, bits) % 2 == (a + b) % 2
  {
    HalfAndBit(XorBits(a / 2, b / 2, bits - 1), (a + b) % 2);
  }

  lemma OddSum(a: nat, b: nat)
    ensures (a + b) % 2 == 1 <==> a % 2 != b % 2
  {
  }

  /** Bit `k` of a number. */
  function Bit(a: nat, k: nat): (bit: nat)
    ensures bit < 2
  {
    if k == 0 then a % 2 else Bit(a / 2, k - 1)
  }

  function XorBlock(a: Block, b: Block): Block {
    seq(BLOCK, k requires 0 <= k < BLOCK => Xor(a[k], b[k]))
  }

  lemma XorBlockTwice(a: Block, b: Block)
    ensures XorBlock(XorBlock(a, b), b) == a
  {
    forall k | 0 <= k < BLOCK
      ensures Xor(Xor(a[k], b[k]), b[k]) == a[k]
    {
      XorTwice(a[k], b[k], 8);
      assert Power2(2) == 4 && Power2(4) == 16 && Power2(6) == 64 && Power2(8) == 256;
    }
  }

  /** Each block is mixed with the encrypted block before it. */
  function CbcEncrypt(c: Cipher, iv: Block, plain: seq<byte>): (r: seq<byte>)
    requires |plain| % BLOCK == 0
    ensures |r| == |plain|
    decreases |plain|
  {
    if plain == [] then [] else
      var e := c.enc(XorBlock(plain[..BLOCK], iv));
      e + CbcEncrypt(c, e, plain[BLOCK..])
  }

  function CbcDecrypt(c: Cipher, iv: Block, crypted: seq<byte>): (r: seq<byte>)
    requires |crypted| % BLOCK == 0
    ensures |r| == |crypted|
    decreases |crypted|
  {
    if crypted == [] then [] else
      XorBlock(c.dec(crypted[..BLOCK]), iv) + CbcDecrypt(c, crypted[..BLOCK], crypted[BLOCK..])
  }

  /** Block `k` of a text. */
  function BlockAt(text: seq<byte>, k: nat): Block
    requires |text| % 16 == 0 && 16 * (k + 1) <= |text|
  {
    text[16 * k..16 * (k + 1)]
  }

  /** Encrypted block `k` is the encryption of plain block `k` mixed with the encrypted block before it, the
      first one with the vector. */
  lemma {:induction false} CbcChains(c: Cipher, iv: Block, plain: seq<byte>, k: nat)
    requires |plain| % 16 == 0 && 16 * (k + 1) <= |plain|
    ensures var r := CbcEncrypt(c, iv, plain);
      BlockAt(r, k) == c.enc(XorBlock(BlockAt(plain, k), if k == 0 then iv else BlockAt(r, k - 1)))
    decreases k
  {
    hide XorBlock;
    var e := c.enc(XorBlock(plain[..BLOCK], iv));
    var rest, tail := plain[BLOCK..], CbcEncrypt(c, e, plain[BLOCK..]);
    var r := e + tail;
    assert CbcEncrypt(c, iv, plain) == r;
    assert BlockAt(r, 0) == e && BlockAt(plain, 0) == plain[..BLOCK];
    if k > 0 {
      CbcChains(c, e, rest, k - 1);
      assert BlockAt(r, k) == BlockAt(tail, k - 1) && BlockAt(plain, k) == BlockAt(rest, k - 1);
      assert k > 1 ==> BlockAt(r, k - 1) == BlockAt(tail, k - 2);
    }
  }

  lemma {:induction false} CbcRoundTrip(c: Cipher, iv: Block, plain: seq<byte>)
    requires Inverse(c) && |plain| % BLOCK == 0
    ensures CbcDecrypt(c, iv, CbcEncrypt(c, iv, plain)) == plain
    decreases |plain|
  {
    if plain != [] {
      var first: Block := plain[..BLOCK];
      var e: Block := c.enc(XorBlock(first, iv));
      var rest := CbcEncrypt(c, e, plain[BLOCK..]);
      assert (e + rest)[..BLOCK] == e && (e + rest)[BLOCK..] == rest;
      XorBlockTwice(first, iv);
      CbcRoundTrip(c, e, plain[BLOCK..]);
    }
  }

  // ---- the transport ----

  datatype Failure = BadQuotes | BadBase64 | BadLength | BadPlaintext

  datatype Result = Ok(body: seq<byte>) | Err(failure: Failure)

  const LBRACE: byte := 123
  const RBRACE: byte := 125

  /** qrEncryptTransport, the body already encoded and the vector drawn. */
  method EncryptTransport(c: Cipher, iv: Block, body: seq<byte>) returns (t: string)
    ensures t == Encrypted(c, iv, body)
  {
    var padded := Pkcs7Pad(body);
    var encrypted := CbcEncrypt(c, iv, padded[..]);
    t := Base64.Encode(iv + encrypted);
  }

  function Encrypted(c: Cipher, iv: Block, body: seq<byte>): string {
    Base64.Encode(iv + CbcEncrypt(c, iv, body + Padding(|body|)))
  }

  /** bytes.IndexByte. */
  function FirstOf(data: seq<byte>, b: byte): (i: int)
    ensures -1 <= i < |data|
    ensures i == -1 <==> b !in data
    ensures i >= 0 ==> data[i] == b && b !in data[..i]
  {
    if data == [] then -1
    else if data[0] == b then 0
    else
      var i := FirstOf(data[1..], b);
      assert data == [data[0]] + data[1..];
      if i == -1 then -1 else
        assert data[..i + 1] == [data[0]] + data[1..][..i];
        i + 1
  }

  /** bytes.LastIndexByte. */
  function LastOf(data: seq<byte>, b: byte): (i: int)
    ensures -1 <= i < |data|
    ensures i == -1 <==> b !in data
    ensures i >= 0 ==> data[i] == b && b !in data[i + 1..]
  {
    if data == [] then -1
    else if data[|data| - 1] == b then |data| - 1
    else
      var i := LastOf(data[..|data| - 1], b);
      assert data == data[..|data| - 1] + [data[|data| - 1]];
      i
  }

  /** What is left to try when the padding is wrong: from the first opening to the last closing brace. */
  function Braced(plain: seq<byte>): Option<seq<byte>> {
    var i, j := FirstOf(plain, LBRACE), LastOf(plain, RBRACE);
    if i >= 0 && j > i then Some(plain[i..j + 1]) else None
  }

  /** qrDecryptTransport. `unquote` is json.Unmarshal into a string. */
  function DecryptTransport(c: Cipher, data: string, unquote: string -> Option<string>): Result {
    var trimmed := TrimSpace(data);
    var s := if IsQuoted(trimmed) then unquote(data) else Some(trimmed);
    if s.None? then Err(BadQuotes) else DecryptText(c, s.value)
  }

  /** HasPrefix and HasSuffix of a quotation mark: one mark is both. */
  predicate IsQuoted(s: string) {
    s != "" && s[0] == '"' && s[|s| - 1] == '"'
  }

  function DecryptText(c: Cipher, s: string): Result {
    match Base64.Decode(s)
    case None => Err(BadBase64)
    case Some(raw) =>
      if |raw| < BLOCK || |raw| % BLOCK != 0 then Err(BadLength) else
        var plain := CbcDecrypt(c, raw[..BLOCK], raw[BLOCK..]);
        match Unpadded(plain)
        case Some(body) => Ok(body)
        case None =>
          match Braced(plain)
          case Some(body) => Ok(body)
          case None => Err(BadPlaintext)
  }

  lemma DecryptEncrypted(c: Cipher, iv: Block, body: seq<byte>)
    requires Inverse(c)
    ensures DecryptText(c, Encrypted(c, iv, body)) == Ok(body)
  {
    hide Base64.Encode, CbcEncrypt, DecryptText, Unpadded, Inverse, Braced;
    var padded := body + Padding(|body|);
    DecryptBlocks(c, iv, padded);
    UnpaddedIff(padded, body);
  }

  /** From the first opening to the last closing brace. */
  ghost predicate BracedPart(plain: seq<byte>, before: seq<byte>, body: seq<byte>, after: seq<byte>) {
    && plain == before + body + after
    && '{' as int !in before && '}' as int !in after
    && |body| >= 2 && body[0] == '{' as int && body[|body| - 1] == '}' as int
  }

  /** The fallback finds such a part exactly when there is one. */
  lemma BracedIff(plain: seq<byte>, body: seq<byte>)
    ensures Braced(plain) == Some(body) <==> exists before, after :: BracedPart(plain, before, body, after)
  {
    hide Braced, BracedPart;
    if Braced(plain) == Some(body) {
      var before, after := BracedGives(plain, body);
    }
    if before, after :| BracedPart(plain, before, body, after) {
      BracedOnly(plain, before, body, after);
    }
  }

  lemma BracedGives(plain: seq<byte>, body: seq<byte>) returns (before: seq<byte>, after: seq<byte>)
    requires Braced(plain) == Some(body)
    ensures BracedPart(plain, before, body, after)
  {
    var i, j := FirstOf(plain, LBRACE), LastOf(plain, RBRACE);
    hide FirstOf, LastOf;
    before, after := plain[..i], plain[j + 1..];
    assert body == plain[i..j + 1];
    assert plain == before + body + after;
  }

  lemma BracedOnly(plain: seq<byte>, before: seq<byte>, body: seq<byte>, after: seq<byte>)
    requires BracedPart(plain, before, body, after)
    ensures Braced(plain) == Some(body)
  {
    hide FirstOf, LastOf;
    var k := |before| + |body| - 1;
    assert plain[..|before|] == before && plain[k + 1..] == after && plain[|before|..k + 1] == body;
    assert plain[|before|] == body[0] && plain[k] == body[|body| - 1];
    FirstIs(plain, LBRACE, |before|);
    LastIs(plain, RBRACE, k);
  }

  lemma FirstIs(data: seq<byte>, b: byte, i: nat)
    requires i < |data| && data[i] == b && b !in data[..i]
    ensures FirstOf(data, b) == i
  {
    assert b in data && data[..i] == data[..i];
  }

  lemma LastIs(data: seq<byte>, b: byte, i: nat)
    requires i < |data| && data[i] == b && b !in data[i + 1..]
    ensures LastOf(data, b) == i
  {
    assert b in data;
  }

  /** What decryption makes of any encrypted blocks, padded or not: the body when they are its padding; else
      the braced part; else an error. */
  lemma DecryptAnyBlocks(c: Cipher, iv: Block, plain: seq<byte>, body: seq<byte>)
    requires Inverse(c) && |plain| % BLOCK == 0
    ensures var padded := exists b :: plain == b + Padding(|b|);
      var r := DecryptText(c, Base64.Encode(iv + CbcEncrypt(c, iv, plain)));
      && (plain == body + Padding(|body|) ==> r == Ok(body))
      && (!padded ==> (r == Ok(body) <==> exists before, after :: BracedPart(plain, before, body, after)))
      && (!padded && r.Err? ==> r == Err(BadPlaintext))
  {
    hide Base64.Encode, CbcEncrypt, DecryptText, Unpadded, Padding, Inverse, Braced, BracedPart;
    DecryptBlocks(c, iv, plain);
    UnpaddedIff(plain, body);
    match Unpadded(plain)
    case Some(b) =>
      UnpaddedIff(plain, b);
    case None =>
      BracedIff(plain, body);
  }

  lemma DecryptBlocks(c: Cipher, iv: Block, plain: seq<byte>)
    requires Inverse(c) && |plain| % BLOCK == 0
    ensures DecryptText(c, Base64.Encode(iv + CbcEncrypt(c, iv, plain)))
      == match Unpadded(plain)
         case Some(b) => Ok(b)
         case None => if Braced(plain).Some? then Ok(Braced(plain).value) else Err(BadPlaintext)
  {
    hide Base64.Decode, Base64.Encode, CbcEncrypt, CbcDecrypt, Unpadded, Inverse, Braced;
    var crypted := CbcEncrypt(c, iv, plain);
    Base64.DecodeEncode(iv + crypted);
    assert (iv + crypted)[..BLOCK] == iv && (iv + crypted)[BLOCK..] == crypted;
    CbcRoundTrip(c, iv, plain);
  }

  lemma PlainText(c: Cipher, iv: Block, body: seq<byte>)
    ensures var t := Encrypted(c, iv, body);
      Trimmed(t) && !IsQuoted(t)
  {
    var raw := iv + CbcEncrypt(c, iv, body + Padding(|body|));
    Base64.EncodedText(raw);
    hide Base64.Encode, CbcEncrypt;
    var t := Base64.Encode(raw);
    assert Base64.InText(t[0]) && Base64.InText(t[|t| - 1]);
  }

  /** Decrypting an encrypted body gives the body back: for every body, vector and block cipher that can be
      inverted, whether the text comes alone or quoted as a JSON string. */
  lemma TransportRoundTrip(c: Cipher, iv: Block, body: seq<byte>, quoted: string, unquote: string -> Option<string>)
    requires Inverse(c)
    ensures DecryptTransport(c, Encrypted(c, iv, body), unquote) == Ok(body)
    ensures IsQuoted(TrimSpace(quoted)) && unquote(quoted) == Some(Encrypted(c, iv, body))
      ==> DecryptTransport(c, quoted, unquote) == Ok(body)
  {
    hide Encrypted, DecryptText, Inverse, TrimSpace;
    DecryptEncrypted(c, iv, body);
    PlainText(c, iv, body);
    TrimIsIdentityIff(Encrypted(c, iv, body));
  }
}
