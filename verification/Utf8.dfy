/** Strict UTF-8, section 3 of RFC 3629, and numbers in network byte order. */
module Utf8 {
  import opened Options
  import opened ByteStrings

  /** A Unicode scalar value: a code point that is no surrogate. */
  type Scalar = v: int | 0 <= v <= 0x10FFFF && !(0xD800 <= v < 0xE000)

  /** What a well-formed JavaScript string holds. */
  type Unicode = seq<Scalar>

  predicate IsScalar(v: int) {
    0 <= v <= 0x10FFFF && !(0xD800 <= v < 0xE000)
  }

  /** How many continuation bytes a code point takes. */
  function More(v: int): (k: nat)
    ensures k <= 3
  {
    if v < 0x80 then 0 else if v < 0x800 then 1 else if v < 0x1_0000 then 2 else 3
  }

  /** The smallest first byte that announces `k` continuation bytes. */
  function Lead(k: nat): int
    requires k <= 3
  {
    if k == 0 then 0 else if k == 1 then 192 else if k == 2 then 224 else 240
  }

  /** How many continuation bytes a first byte announces. */
  function Announces(b: Byte): (k: Option<nat>)
    ensures k.Some? ==> k.value <= 3
  {
    if b < 128 then Some(0) else if b < 192 then None
    else if b < 224 then Some(1) else if b < 240 then Some(2) else if b < 248 then Some(3) else None
  }

  /** The bits of `v` above the last `k` groups of six. */
  function Top(v: nat, k: nat): nat {
    if k == 0 then v else Top(v / 64, k - 1)
  }

  /** The last `k` groups of six bits, as continuation bytes. */
  function Tail(v: nat, k: nat): (bytes: Bytes)
    ensures |bytes| == k
  {
    if k == 0 then [] else Tail(v / 64, k - 1) + [(128 + v % 64) as Byte]
  }

  predicate Continues(tail: Bytes) {
    forall i :: 0 <= i < |tail| ==> 128 <= tail[i] < 192
  }

  function Groups(top: nat, tail: Bytes): nat
    requires Continues(tail)
  {
    if tail == [] then top else Groups(top, tail[..|tail| - 1]) * 64 + (tail[|tail| - 1] as int - 128)
  }

  lemma {:induction false} GroupsOfTail(v: nat, k: nat)
    ensures Continues(Tail(v, k)) && Groups(Top(v, k), Tail(v, k)) == v
  {
    if k > 0 {
      GroupsOfTail(v / 64, k - 1);
      assert Tail(v, k)[..k - 1] == Tail(v / 64, k - 1);
    }
  }

  lemma {:induction false} TailOfGroups(top: nat, tail: Bytes)
    requires Continues(tail)
    ensures Top(Groups(top, tail), |tail|) == top && Tail(Groups(top, tail), |tail|) == tail
  {
    if tail != [] {
      var init, last := tail[..|tail| - 1], tail[|tail| - 1];
      TailOfGroups(top, init);
      assert Groups(top, tail) / 64 == Groups(top, init) && Groups(top, tail) % 64 == last as int - 128;
      assert tail == init + [last];
    }
  }

  lemma {:induction false} TopFits(v: nat)
    requires v <= 0x10FFFF
    ensures var k := More(v); Lead(k) + Top(v, k) < 256 && Announces((Lead(k) + Top(v, k)) as Byte) == Some(k)
  {
    var k, w := More(v), v / 64;
    assert Top(v, 1) == Top(w, 0) == w;
    assert Top(v, 2) == Top(w, 1) == Top(w / 64, 0) == w / 64;
    assert Top(v, 3) == Top(w, 2) == Top(w / 64, 1) == Top(w / 64 / 64, 0) == w / 64 / 64;
  }

  function EncodeScalar(v: Scalar): (bytes: Bytes)
    ensures |bytes| == More(v) + 1
  {
    TopFits(v);
    [(Lead(More(v)) + Top(v, More(v))) as Byte] + Tail(v, More(v))
  }

  /** The first code point, if it is encoded as it must be: no surrogate, and in no more bytes than needed. */
  function DecodeScalar(bytes: Bytes): (v: Option<Scalar>)
    ensures v.Some? ==> |bytes| > More(v.value)
  {
    if bytes == [] || Announces(bytes[0]).None? then None
    else
      var k := Announces(bytes[0]).value;
      if |bytes| <= k || !Continues(bytes[1..k + 1]) then None
      else
        var v := Groups(bytes[0] as int - Lead(k), bytes[1..k + 1]);
        if IsScalar(v) && More(v) == k then Some(v) else None
  }

  /** The parts of an encoded scalar value. */
  lemma {:induction false} ScalarParts(v: Scalar)
    ensures var bytes, k := EncodeScalar(v), More(v);
      && Announces(bytes[0]) == Some(k) && bytes[0] as int - Lead(k) == Top(v, k)
      && bytes[1..] == Tail(v, k)
  {
    TopFits(v);
  }

  /** A first byte with the tail it announces is decoded, if the value needs that many bytes. */
  lemma {:induction false} DecodeParts(v: Scalar, lead: Byte, top: nat, tail: Bytes, rest: Bytes)
    requires Announces(lead) == Some(|tail|) && lead as int - Lead(|tail|) == top
    requires Continues(tail) && Groups(top, tail) == v && More(v) == |tail|
    ensures DecodeScalar([lead] + tail + rest) == Some(v) && ([lead] + tail + rest)[|tail| + 1..] == rest
  {
    assert ([lead] + tail + rest)[1..|tail| + 1] == tail;
  }

  lemma {:induction false} DecodeEncodeScalar(v: Scalar, rest: Bytes)
    ensures DecodeScalar(EncodeScalar(v) + rest) == Some(v)
    ensures (EncodeScalar(v) + rest)[More(v) + 1..] == rest
  {
    var bytes := EncodeScalar(v);
    ScalarParts(v);
    GroupsOfTail(v, More(v));
    DecodeParts(v, bytes[0], Top(v, More(v)), bytes[1..], rest);
    assert bytes == [bytes[0]] + bytes[1..];
  }

  lemma {:induction false} SameFront(front: Bytes, bytes: Bytes)
    requires 0 < |front| <= |bytes| && front[0] == bytes[0] && front[1..] == bytes[1..|front|]
    ensures bytes == front + bytes[|front|..]
  {
    assert front == [front[0]] + front[1..];
  }

  lemma {:induction false} EncodeDecodeScalar(bytes: Bytes)
    requires DecodeScalar(bytes).Some?
    ensures var v := DecodeScalar(bytes).value; bytes == EncodeScalar(v) + bytes[More(v) + 1..]
  {
    var v := DecodeScalar(bytes).value;
    TailOfGroups(bytes[0] as int - Lead(More(v)), bytes[1..More(v) + 1]);
    ScalarParts(v);
    SameFront(EncodeScalar(v), bytes);
  }

  function Encode(s: Unicode): Bytes {
    if s == [] then [] else EncodeScalar(s[0]) + Encode(s[1..])
  }

  function Decode(bytes: Bytes): Option<Unicode>
    decreases |bytes|
  {
    if bytes == [] then Some([])
    else
      var v := DecodeScalar(bytes);
      if v == None then None
      else
        var rest := Decode(bytes[More(v.value) + 1..]);
        if rest == None then None else Some([v.value] + rest.value)
  }

  lemma {:induction false} DecodeEncode(s: Unicode)
    ensures Decode(Encode(s)) == Some(s)
  {
    if s != [] {
      DecodeEncodeScalar(s[0], Encode(s[1..]));
      DecodeEncode(s[1..]);
      assert Encode(s) != [] && s == [s[0]] + s[1..];
    }
  }

  lemma {:induction false} EncodeDecode(bytes: Bytes)
    requires Decode(bytes).Some?
    ensures Encode(Decode(bytes).value) == bytes
    decreases |bytes|
  {
    if bytes != [] {
      var v := DecodeScalar(bytes).value;
      EncodeDecodeScalar(bytes);
      EncodeDecode(bytes[More(v) + 1..]);
      assert Decode(bytes).value[1..] == Decode(bytes[More(v) + 1..]).value;
    }
  }

  /** Bytes decode to a string exactly when they are its encoding. */
  lemma {:induction false} DecodesExactly(bytes: Bytes, s: Unicode)
    ensures Decode(bytes) == Some(s) <==> bytes == Encode(s)
  {
    DecodeEncode(s);
    if Decode(bytes) == Some(s) { EncodeDecode(bytes); }
  }

  // ---- Network byte order ---------------------------------------------------------------------

  function Pow256(width: nat): nat {
    if width == 0 then 1 else Pow256(width - 1) * 256
  }

  function BigEndian(n: nat, width: nat): (bytes: Bytes)
    ensures |bytes| == width
  {
    if width == 0 then [] else BigEndian(n / 256, width - 1) + [(n % 256) as Byte]
  }

  function Number(bytes: Bytes): nat {
    if bytes == [] then 0 else Number(bytes[..|bytes| - 1]) * 256 + bytes[|bytes| - 1] as int
  }

  lemma {:induction false} NumberOfBigEndian(n: nat, width: nat)
    requires n < Pow256(width)
    ensures Number(BigEndian(n, width)) == n
  {
    if width > 0 {
      NumberOfBigEndian(n / 256, width - 1);
      assert BigEndian(n, width)[..width - 1] == BigEndian(n / 256, width - 1);
    }
  }

  lemma {:induction false} BigEndianOfNumber(bytes: Bytes)
    ensures Number(bytes) < Pow256(|bytes|) && BigEndian(Number(bytes), |bytes|) == bytes
  {
    if bytes != [] {
      var init, last := bytes[..|bytes| - 1], bytes[|bytes| - 1];
      BigEndianOfNumber(init);
      assert Number(bytes) / 256 == Number(init) && Number(bytes) % 256 == last as int;
      assert bytes == init + [last];
    }
  }

  // ---- The format of RFC 3629 -----------------------------------------------------------------

  predicate IsContinuation(b: int, bits: int) { b == 0x80 + bits && 0 <= bits < 0x40 }

  /** The bytes of a scalar value, by the table of section 3. */
  lemma {:induction false} EncodesByTable(v: Scalar)
    ensures var bytes := EncodeScalar(v);
      if v < 0x80 then |bytes| == 1 && bytes[0] as int == v
      else if v < 0x800 then
        && |bytes| == 2 && bytes[0] as int == 0xC0 + v / 0x40
        && IsContinuation(bytes[1] as int, v % 0x40)
      else if v < 0x1_0000 then
        && |bytes| == 3 && bytes[0] as int == 0xE0 + v / 0x1000
        && IsContinuation(bytes[1] as int, v / 0x40 % 0x40) && IsContinuation(bytes[2] as int, v % 0x40)
      else
        && |bytes| == 4 && bytes[0] as int == 0xF0 + v / 0x4_0000
        && IsContinuation(bytes[1] as int, v / 0x1000 % 0x40) && IsContinuation(bytes[2] as int, v / 0x40 % 0x40)
        && IsContinuation(bytes[3] as int, v % 0x40)
  {
    TopFits(v);
    var w := v / 64;
    var u := w / 64;
    assert u == v / 0x1000 && u / 64 == v / 0x4_0000;
    TopTail(v, 1);
    TopTail(v, 2);
    TopTail(v, 3);
    TopTail(w, 1);
    TopTail(w, 2);
    TopTail(u, 1);
  }

  lemma {:induction false} TopTail(v: nat, k: nat)
    requires k > 0
    ensures Top(v, k) == Top(v / 64, k - 1) && Top(v, 0) == v && Top(v / 64, 0) == v / 64
    ensures Tail(v, k) == Tail(v / 64, k - 1) + [(128 + v % 64) as Byte] && Tail(v / 64, 0) == []
  {
  }

  /** The bytes of a string are those of its scalar values, one after the other. */
  lemma {:induction false} EncodesInOrder(s: Unicode, t: Unicode)
    ensures Encode(s + t) == Encode(s) + Encode(t) && (|s| == 1 ==> Encode(s) == EncodeScalar(s[0]))
  {
    if s == [] {
      assert s + t == t;
    } else {
      assert (s + t)[1..] == s[1..] + t;
      EncodesInOrder(s[1..], t);
      assert |s| == 1 ==> s[1..] == [] && Encode(s[1..]) == [];
    }
  }

  /** A number in network byte order is its bytes as the digits of base 256, the first the highest. */
  lemma {:induction false} NumbersByPlace(bytes: Bytes, b: Byte)
    ensures Number(bytes + [b]) == Number(bytes) * 256 + b as int && Number([]) == 0
  {
    assert (bytes + [b])[..|bytes|] == bytes;
  }
}
