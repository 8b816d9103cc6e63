/** The base64 of section 4 of RFC 4648, and the chunked encoder of src/byok-http-bridge.ts. */
module Base64 {
  import opened Options
  import opened Json
  import opened ByteStrings

  const CHUNK_BYTES := 0x8000
  const PAD: CodeUnit := 61

  function Symbol(sextet: int): (u: CodeUnit)
    requires 0 <= sextet < 64
    ensures u != PAD
  {
    if sextet < 26 then (65 + sextet) as CodeUnit
    else if sextet < 52 then (97 + sextet - 26) as CodeUnit
    else if sextet < 62 then (48 + sextet - 52) as CodeUnit
    else if sextet == 62 then 43
    else 47
  }

  function Sextet(u: CodeUnit): (r: Option<int>)
    ensures r.Some? ==> 0 <= r.value < 64
  {
    if 65 <= u < 91 then Some(u as int - 65)
    else if 97 <= u < 123 then Some(u as int - 97 + 26)
    else if 48 <= u < 58 then Some(u as int - 48 + 52)
    else if u == 43 then Some(62)
    else if u == 47 then Some(63)
    else None
  }

  lemma {:induction false} SymbolSextet(sextet: int, u: CodeUnit)
    requires 0 <= sextet < 64
    ensures Sextet(u) == Some(sextet) <==> u == Symbol(sextet)
  {
  }

  /** Three bytes as four symbols. */
  function Quad(a: Byte, b: Byte, c: Byte): JsString {
    [Symbol(a as int / 4), Symbol(a as int % 4 * 16 + b as int / 16),
     Symbol(b as int % 16 * 4 + c as int / 64), Symbol(c as int % 64)]
  }

  function Encode(bytes: Bytes): (text: JsString)
    ensures |text| % 4 == 0
  {
    if bytes == [] then []
    else if |bytes| == 1 then Quad(bytes[0], 0, 0)[..2] + [PAD, PAD]
    else if |bytes| == 2 then Quad(bytes[0], bytes[1], 0)[..3] + [PAD]
    else Quad(bytes[0], bytes[1], bytes[2]) + Encode(bytes[3..])
  }

  /** The bytes of four symbols, of which the last `pads` are padding. */
  function Unquad(text: JsString, pads: nat): (r: Option<Bytes>)
    requires |text| == 4 && pads <= 2
    ensures r.Some? ==> |r.value| == 3 - pads
  {
    var a, b := Sextet(text[0]), Sextet(text[1]);
    var c, d := if pads == 2 then Some(0) else Sextet(text[2]), if pads >= 1 then Some(0) else Sextet(text[3]);
    if a == None || b == None || c == None || d == None then None
    else
      var x, y, z := a.value * 4 + b.value / 16, b.value % 16 * 16 + c.value / 4, c.value % 4 * 64 + d.value;
      if pads == 2 then (if y == 0 then Some([x as Byte]) else None)
      else if pads == 1 then (if z == 0 then Some([x as Byte, y as Byte]) else None)
      else Some([x as Byte, y as Byte, z as Byte])
  }

  /** The decoder, which accepts only what an encoder makes. */
  function Decode(text: JsString): Option<Bytes> {
    if text == [] then Some([])
    else if |text| < 4 then None
    else if |text| == 4 && text[3] == PAD then Unquad(text, if text[2] == PAD then 2 else 1)
    else
      var first, rest := Unquad(text[..4], 0), Decode(text[4..]);
      if first == None || rest == None then None else Some(first.value + rest.value)
  }

  /** Regrouping three bytes into four sextets and back. */
  lemma {:induction false} Ungroup(x: int, y: int, z: int)
    requires 0 <= x < 256 && 0 <= y < 256 && 0 <= z < 256
    ensures var a, b, c, d := x / 4, x % 4 * 16 + y / 16, y % 16 * 4 + z / 64, z % 64;
      && 0 <= a < 64 && 0 <= b < 64 && 0 <= c < 64 && 0 <= d < 64
      && a * 4 + b / 16 == x && b % 16 * 16 + c / 4 == y && c % 4 * 64 + d == z
  {
  }

  lemma {:induction false} QuadSextets(x: Byte, y: Byte, z: Byte)
    ensures var q := Quad(x, y, z);
      && Sextet(q[0]) == Some(x as int / 4) && Sextet(q[1]) == Some(x as int % 4 * 16 + y as int / 16)
      && Sextet(q[2]) == Some(y as int % 16 * 4 + z as int / 64) && Sextet(q[3]) == Some(z as int % 64)
      && q[3] != PAD
  {
    var q := Quad(x, y, z);
    SymbolSextet(x as int / 4, q[0]);
    SymbolSextet(x as int % 4 * 16 + y as int / 16, q[1]);
    SymbolSextet(y as int % 16 * 4 + z as int / 64, q[2]);
    SymbolSextet(z as int % 64, q[3]);
  }

  lemma {:induction false} UnquadThree(x: Byte, y: Byte, z: Byte)
    ensures Unquad(Quad(x, y, z), 0) == Some([x, y, z])
  {
    QuadSextets(x, y, z);
    Ungroup(x as int, y as int, z as int);
  }

  /** Two bytes as three symbols, and one as two: what is left over is padded with zero bits. */
  lemma {:induction false} UnquadTwo(x: Byte, y: Byte)
    ensures Unquad(Quad(x, y, 0)[..3] + [PAD], 1) == Some([x, y])
  {
    var zero: Byte := 0;
    QuadSextets(x, y, zero);
    Ungroup(x as int, y as int, zero as int);
  }

  lemma {:induction false} UnquadOne(x: Byte)
    ensures Unquad(Quad(x, 0, 0)[..2] + [PAD, PAD], 2) == Some([x])
  {
    var a, b := x as int / 4, x as int % 4;
    SymbolSextet(a, Symbol(a));
    SymbolSextet(b * 16, Symbol(b * 16));
    assert b * 16 % 16 == 0 && b * 16 / 16 == b && a * 4 + b == x as int;
    assert Quad(x, 0, 0)[0] == Symbol(a) && Quad(x, 0, 0)[1] == Symbol(b * 16);
  }

  /** Regrouping four sextets into three bytes and back. */
  lemma {:induction false} Regroup(a: int, b: int, c: int, d: int)
    requires 0 <= a < 64 && 0 <= b < 64 && 0 <= c < 64 && 0 <= d < 64
    ensures var x, y, z := a * 4 + b / 16, b % 16 * 16 + c / 4, c % 4 * 64 + d;
      x / 4 == a && x % 4 * 16 + y / 16 == b && y % 16 * 4 + z / 64 == c && z % 64 == d
  {
  }

  lemma {:induction false} QuadThree(text: JsString)
    requires |text| == 4 && Unquad(text, 0).Some?
    ensures var bytes := Unquad(text, 0).value; Quad(bytes[0], bytes[1], bytes[2]) == text
  {
    var a, b, c, d := Sextet(text[0]).value, Sextet(text[1]).value, Sextet(text[2]).value, Sextet(text[3]).value;
    Regroup(a, b, c, d);
    SymbolSextet(a, text[0]);
    SymbolSextet(b, text[1]);
    SymbolSextet(c, text[2]);
    SymbolSextet(d, text[3]);
  }

  lemma {:induction false} QuadTwo(text: JsString)
    requires |text| == 4 && Unquad(text, 1).Some?
    ensures var bytes := Unquad(text, 1).value; Quad(bytes[0], bytes[1], 0)[..3] == text[..3]
  {
    var a, b, c := Sextet(text[0]).value, Sextet(text[1]).value, Sextet(text[2]).value;
    Regroup(a, b, c, 0);
    SymbolSextet(a, text[0]);
    SymbolSextet(b, text[1]);
    SymbolSextet(c, text[2]);
  }

  lemma {:induction false} QuadOne(text: JsString)
    requires |text| == 4 && Unquad(text, 2).Some?
    ensures var bytes := Unquad(text, 2).value; Quad(bytes[0], 0, 0)[..2] == text[..2]
  {
    var a, b := Sextet(text[0]).value, Sextet(text[1]).value;
    Regroup(a, b, 0, 0);
    SymbolSextet(a, text[0]);
    SymbolSextet(b, text[1]);
  }

  lemma {:induction false} DecodeQuad(quad: JsString, rest: JsString)
    requires |quad| == 4 && quad[3] != PAD && Unquad(quad, 0).Some? && Decode(rest).Some?
    ensures Decode(quad + rest) == Some(Unquad(quad, 0).value + Decode(rest).value)
  {
    assert (quad + rest)[..4] == quad && (quad + rest)[4..] == rest;
  }

  lemma {:induction false} DecodesTwo(x: Byte, y: Byte)
    ensures Decode(Encode([x, y])) == Some([x, y])
  {
    UnquadTwo(x, y);
    assert Encode([x, y]) == Quad(x, y, 0)[..3] + [PAD];
    assert Quad(x, y, 0)[2] != PAD;
  }

  lemma {:induction false} DecodesOne(x: Byte)
    ensures Decode(Encode([x])) == Some([x])
  {
    UnquadOne(x);
    assert Encode([x]) == Quad(x, 0, 0)[..2] + [PAD, PAD];
  }

  lemma {:induction false} DecodesThree(x: Byte, y: Byte, z: Byte, rest: Bytes)
    requires Decode(Encode(rest)) == Some(rest)
    ensures Decode(Quad(x, y, z) + Encode(rest)) == Some([x, y, z] + rest)
  {
    UnquadThree(x, y, z);
    QuadSextets(x, y, z);
    DecodeQuad(Quad(x, y, z), Encode(rest));
  }

  lemma {:induction false} DecodeEncode(bytes: Bytes)
    ensures Decode(Encode(bytes)) == Some(bytes)
  {
    if |bytes| >= 3 {
      DecodeEncode(bytes[3..]);
      DecodesThree(bytes[0], bytes[1], bytes[2], bytes[3..]);
      assert bytes == [bytes[0], bytes[1], bytes[2]] + bytes[3..];
    } else if |bytes| == 2 {
      DecodesTwo(bytes[0], bytes[1]);
      assert bytes == [bytes[0], bytes[1]];
    } else if |bytes| == 1 {
      DecodesOne(bytes[0]);
      assert bytes == [bytes[0]];
    }
  }

  lemma {:induction false} EncodeDecode(text: JsString)
    requires Decode(text).Some?
    ensures Encode(Decode(text).value) == text
  {
    if text == [] {
    } else if |text| == 4 && text[3] == PAD {
      if text[2] == PAD { QuadOne(text); } else { QuadTwo(text); }
      assert text == text[..2] + [text[2], PAD] && text == text[..3] + [PAD];
    } else {
      QuadThree(text[..4]);
      EncodeDecode(text[4..]);
      var first, rest := Unquad(text[..4], 0).value, Decode(text[4..]).value;
      assert (first + rest)[3..] == rest;
      assert text == text[..4] + text[4..];
    }
  }

  /** A text decodes to some bytes exactly when it is their encoding. */
  lemma {:induction false} DecodesExactly(text: JsString, bytes: Bytes)
    ensures Decode(text) == Some(bytes) <==> text == Encode(bytes)
  {
    DecodeEncode(bytes);
    if Decode(text) == Some(bytes) { EncodeDecode(text); }
  }

  /** String.fromCharCode of every byte. */
  function Binary(bytes: Bytes): (s: JsString)
    ensures |s| == |bytes| && forall i :: 0 <= i < |s| ==> s[i] as int == bytes[i] as int
  {
    seq(|bytes|, i requires 0 <= i < |bytes| => bytes[i] as int as CodeUnit)
  }

  function Low(binary: JsString): (bytes: Bytes)
    ensures |bytes| == |binary|
    ensures forall i :: 0 <= i < |binary| && binary[i] < 256 ==> bytes[i] as int == binary[i] as int
  {
    seq(|binary|, i requires 0 <= i < |binary| => if binary[i] < 256 then binary[i] as int as Byte else 0)
  }

  /** btoa, which throws on a unit above 255. */
  function Btoa(binary: JsString): Option<JsString> {
    if exists i :: 0 <= i < |binary| && binary[i] > 255 then None else Some(Encode(Low(binary)))
  }

  lemma {:induction false} BtoaBinary(bytes: Bytes)
    ensures Btoa(Binary(bytes)) == Some(Encode(bytes))
  {
    assert Low(Binary(bytes)) == bytes;
  }

  /** `base64`: the chunks leave no trace. */
  method EncodeInChunks(bytes: Bytes) returns (text: Option<JsString>)
    ensures text == Some(Encode(bytes)) && Decode(text.value) == Some(bytes)
  {
    var binary: JsString := [];
    var offset := 0;
    while offset < |bytes|
      invariant 0 <= offset && binary == Binary(bytes[..if offset < |bytes| then offset else |bytes|])
    {
      var end := if offset + CHUNK_BYTES < |bytes| then offset + CHUNK_BYTES else |bytes|;
      assert bytes[..end] == bytes[..offset] + bytes[offset..end];
      binary := binary + Binary(bytes[offset..end]);
      offset := offset + CHUNK_BYTES;
    }
    assert bytes[..|bytes|] == bytes;
    BtoaBinary(bytes);
    DecodeEncode(bytes);
    text := Btoa(binary);
  }

  // ---- The format of RFC 4648 -----------------------------------------------------------------

  const UPPER: JsString := Ascii("ABCDEFGHIJKLMNOPQRSTUVWXYZ")
  const LOWER: JsString := Ascii("abcdefghijklmnopqrstuvwxyz")
  const OTHERS: JsString := Ascii("0123456789+/")
  const ALPHABET: JsString := UPPER + LOWER + OTHERS

  lemma {:induction false} SymbolsAre(sextet: int)
    requires 0 <= sextet < 64
    ensures |ALPHABET| == 64 && Symbol(sextet) == ALPHABET[sextet]
  {
    if sextet < 26 {
      assert ALPHABET[sextet] == UPPER[sextet];
    } else if sextet < 52 {
      assert ALPHABET[sextet] == LOWER[sextet - 26];
    } else {
      assert ALPHABET[sextet] == OTHERS[sextet - 52];
    }
  }

  /** Four symbols are those of four sextets. */
  predicate AreSymbols(text: JsString, i: int, j: int, k: int, l: int) {
    && 0 <= i < 64 && 0 <= j < 64 && 0 <= k < 64 && 0 <= l < 64
    && text == [ALPHABET[i], ALPHABET[j], ALPHABET[k], ALPHABET[l]]
  }

  /** Four symbols stand for the 24 bits of three bytes, the highest first. */
  ghost predicate Stand(text: JsString, a: Byte, b: Byte, c: Byte) {
    exists i, j, k, l :: AreSymbols(text, i, j, k, l)
      && ((i * 64 + j) * 64 + k) * 64 + l == (a as int * 256 + b as int) * 256 + c as int
  }

  lemma {:induction false} QuadStands(a: Byte, b: Byte, c: Byte)
    ensures Stand(Quad(a, b, c), a, b, c)
  {
    var x, y, z := a as int, b as int, c as int;
    var i, j, k, l := x / 4, x % 4 * 16 + y / 16, y % 16 * 4 + z / 64, z % 64;
    QuadDigits(x, y, z);
    SymbolsAre(i);
    SymbolsAre(j);
    SymbolsAre(k);
    SymbolsAre(l);
    assert AreSymbols(Quad(a, b, c), i, j, k, l);
  }

  lemma {:induction false} QuadDigits(x: int, y: int, z: int)
    requires 0 <= x < 256 && 0 <= y < 256 && 0 <= z < 256
    ensures (((x / 4) * 64 + (x % 4 * 16 + y / 16)) * 64 + (y % 16 * 4 + z / 64)) * 64 + z % 64
         == (x * 256 + y) * 256 + z
  {
  }

  /** Symbols of a group of which so many bytes are missing: as many of its symbols are replaced by padding. */
  ghost predicate StandPadded(text: JsString, a: Byte, b: Byte, c: Byte, missing: int) {
    exists full :: Stand(full, a, b, c)
      && text == if missing == 2 then full[..2] + [61, 61] else if missing == 1 then full[..3] + [61] else full
  }

  function ByteAt(bytes: Bytes, i: nat): Byte { if i < |bytes| then bytes[i] else 0 }

  /** The n-th four symbols stand for the n-th three bytes, behind the last of which there are zeros. */
  ghost predicate GroupStands(bytes: Bytes, n: nat)
    requires 3 * n < |bytes|
  {
    && |Encode(bytes)| >= 4 * n + 4
    && StandPadded(Encode(bytes)[4 * n..4 * n + 4], bytes[3 * n], ByteAt(bytes, 3 * n + 1),
                   ByteAt(bytes, 3 * n + 2), 3 * n + 3 - |bytes|)
  }

  lemma {:induction false} FirstGroup(bytes: Bytes)
    requires bytes != []
    ensures GroupStands(bytes, 0)
  {
    assert Encode(bytes)[0..4] == Encode(bytes)[..4];
    var full := Quad(bytes[0], ByteAt(bytes, 1), ByteAt(bytes, 2));
    QuadStands(bytes[0], ByteAt(bytes, 1), ByteAt(bytes, 2));
    var text := Encode(bytes);
    if |bytes| == 1 { assert text[..4] == full[..2] + [61, 61]; }
    else if |bytes| == 2 { assert text[..4] == full[..3] + [61]; }
    else { assert text[..4] == full; }
  }

  lemma {:induction false} EncodeRest(bytes: Bytes)
    requires |bytes| > 3
    ensures |Encode(bytes)| >= 4 && Encode(bytes)[4..] == Encode(bytes[3..])
  {
  }

  lemma {:induction false} LaterGroup(bytes: Bytes, n: nat, tail: Bytes)
    requires n > 0 && 3 * n < |bytes| && tail == bytes[3..] && GroupStands(tail, n - 1)
    ensures GroupStands(bytes, n)
  {
    EncodeRest(bytes);
    var text, rest := Encode(bytes), Encode(bytes[3..]);
    assert text[4 * n..4 * n + 4] == rest[4 * (n - 1)..4 * (n - 1) + 4];
    assert ByteAt(bytes, 3 * n + 1) == ByteAt(bytes[3..], 3 * (n - 1) + 1);
    assert ByteAt(bytes, 3 * n + 2) == ByteAt(bytes[3..], 3 * (n - 1) + 2);
  }

  /** Every group of an encoding does so. */
  lemma {:induction false} EncodesGroups(bytes: Bytes, n: nat)
    requires 3 * n < |bytes|
    ensures GroupStands(bytes, n)
  {
    if n == 0 {
      FirstGroup(bytes);
    } else {
      var rest := bytes[3..];
      EncodesGroups(rest, n - 1);
      LaterGroup(bytes, n, rest);
    }
  }
}
