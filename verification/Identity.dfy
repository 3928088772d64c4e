// The bytes a message signature covers, and signature checking over an abstract scheme.

module Identity {
  import opened Words

  // The signature scheme: does this 64-byte signature sign these bytes under this 32-byte
  // key? It also answers false for key bytes that encode no key.
  type Scheme = (seq<byte>, seq<byte>, seq<byte>) -> bool

  // ---------- text as UTF-8 ----------

  function EncodeChar(c: char): (bytes: seq<byte>)
    ensures |bytes| > 0
  {
    var p := c as int;
    if p < 0x80 then [p]
    else if p < 0x800 then [0xC0 + p / 64, 0x80 + p % 64]
    else if p < 0x10000 then [0xE0 + p / 4096, 0x80 + p / 64 % 64, 0x80 + p % 64]
    else [0xF0 + p / 262144, 0x80 + p / 4096 % 64, 0x80 + p / 64 % 64, 0x80 + p % 64]
  }

  function Utf8(s: string): seq<byte> {
    if s == [] then [] else EncodeChar(s[0]) + Utf8(s[1..])
  }

  // How many bytes the first code point takes, read off its leading byte.
  function LeadLength(bytes: seq<byte>): nat
    requires bytes != []
  {
    if bytes[0] < 0x80 then 1 else if bytes[0] < 0xE0 then 2 else if bytes[0] < 0xF0 then 3 else 4
  }

  // The code point spelled by one complete encoding.
  function CodePoint(bytes: seq<byte>): int
    requires bytes != []
  {
    var digit := (i: nat) requires i < |bytes| => bytes[i] as int - 0x80;
    if |bytes| == 1 then digit(0) + 0x80
    else if |bytes| == 2 then 64 * (digit(0) - 0x40) + digit(1)
    else if |bytes| == 3 then 4096 * (digit(0) - 0x60) + 64 * digit(1) + digit(2)
    else if |bytes| == 4 then 262144 * (digit(0) - 0x70) + 4096 * digit(1) + 64 * digit(2) + digit(3)
    else 0
  }

  lemma CharRoundTrip(c: char)
    ensures CodePoint(EncodeChar(c)) == c as int
    ensures LeadLength(EncodeChar(c)) == |EncodeChar(c)|
  {
    var p := c as int;
    assert p / 64 / 64 == p / 4096 && p / 4096 / 64 == p / 262144;
  }

  lemma {:induction false} Utf8Append(s: string, t: string)
    ensures Utf8(s + t) == Utf8(s) + Utf8(t)
  {
    if s == [] {
      assert s + t == t;
    } else {
      assert (s + t)[0] == s[0] && (s + t)[1..] == s[1..] + t;
      Utf8Append(s[1..], t);
    }
  }

  lemma {:induction false} Utf8Injective(s: string, t: string)
    requires Utf8(s) == Utf8(t)
    ensures s == t
  {
    if s != [] && t != [] {
      var a, b := EncodeChar(s[0]), EncodeChar(t[0]);
      CharRoundTrip(s[0]);
      CharRoundTrip(t[0]);
      assert Utf8(s)[0] == a[0] && Utf8(t)[0] == b[0];
      assert LeadLength(a) == LeadLength(b);
      assert a == Utf8(s)[..|a|] && b == Utf8(t)[..|b|];
      assert Utf8(s[1..]) == Utf8(s)[|a|..] && Utf8(t[1..]) == Utf8(t)[|b|..];
      Utf8Injective(s[1..], t[1..]);
      assert s == [s[0]] + s[1..] && t == [t[0]] + t[1..];
    }
  }

  // ---------- what is signed ----------

  function WordBytes(x: u64): (bytes: seq<byte>)
    ensures |bytes| == 8
  {
    LeBytes(x, 8)
  }

  function SignedData(srcId: string, txt: string, time: u64, msgId: u64): seq<byte> {
    Utf8(srcId) + Utf8(txt) + WordBytes(time) + WordBytes(msgId)
  }

  method BuildSignedData(srcId: string, txt: string, time: u64, msgId: u64) returns (data: seq<byte>)
    ensures data == SignedData(srcId, txt, time, msgId)
    ensures SpellsText(data, srcId, txt, time, msgId)
  {
    data := [];
    data := data + Utf8(srcId);
    assert data == Utf8(srcId);
    data := data + Utf8(txt);
    data := data + WordBytes(time);
    data := data + WordBytes(msgId);
    SignedDataSpells(data, srcId, txt, time, msgId);
  }

  lemma WordBytesInjective(x: u64, y: u64)
    ensures WordBytes(x) == WordBytes(y) ==> x == y
  {
    assert Pow256(8) == U64_LIMIT;
    LeRoundTrip(x, 8);
    LeRoundTrip(y, 8);
  }

  // What the signed bytes are, by position: author and text, then the time, then the id.
  predicate SpellsText(data: seq<byte>, srcId: string, txt: string, time: u64, msgId: u64) {
    var n := |data| - 16;
    && n >= 0
    && data[..n] == Utf8(srcId + txt)
    && LeValue(data[n..n + 8]) == time
    && LeValue(data[n + 8..]) == msgId
  }

  lemma SignedDataSpells(data: seq<byte>, srcId: string, txt: string, time: u64, msgId: u64)
    ensures data == SignedData(srcId, txt, time, msgId) <==> SpellsText(data, srcId, txt, time, msgId)
  {
    SignedDataParts(srcId, txt, time, msgId);
    WordBytesValue(time);
    WordBytesValue(msgId);
    if SpellsText(data, srcId, txt, time, msgId) {
      SpelledIsSigned(data, srcId, txt, time, msgId);
    }
  }

  lemma SpelledIsSigned(data: seq<byte>, srcId: string, txt: string, time: u64, msgId: u64)
    requires SpellsText(data, srcId, txt, time, msgId)
    ensures data == Utf8(srcId + txt) + WordBytes(time) + WordBytes(msgId)
  {
    var n := |data| - 16;
    WordBytesValue(time);
    WordBytesValue(msgId);
    LeValueInjective(data[n..n + 8], WordBytes(time));
    LeValueInjective(data[n + 8..], WordBytes(msgId));
    Parts(data, n);
  }

  lemma WordBytesValue(x: u64)
    ensures LeValue(WordBytes(x)) == x
  {
    assert Pow256(8) == U64_LIMIT;
    LeRoundTrip(x, 8);
  }

  lemma Parts(data: seq<byte>, n: nat)
    requires n + 8 <= |data|
    ensures data == data[..n] + data[n..n + 8] + data[n + 8..]
  {
  }

  lemma SignedDataParts(srcId: string, txt: string, time: u64, msgId: u64)
    ensures var signed, n := SignedData(srcId, txt, time, msgId), |Utf8(srcId + txt)|;
            && signed == Utf8(srcId + txt) + WordBytes(time) + WordBytes(msgId)
            && |signed| == n + 16
            && signed[..n] == Utf8(srcId + txt)
            && signed[n..n + 8] == WordBytes(time)
            && signed[n + 8..] == WordBytes(msgId)
  {
    Utf8Append(srcId, txt);
  }

  // A signature fixes the time, the id and the concatenation of author and text; only the
  // boundary between author and text is left open.
  lemma SignedDataDetermines(src1: string, txt1: string, time1: u64, id1: u64,
                             src2: string, txt2: string, time2: u64, id2: u64)
    ensures SignedData(src1, txt1, time1, id1) == SignedData(src2, txt2, time2, id2)
       <==> src1 + txt1 == src2 + txt2 && time1 == time2 && id1 == id2
  {
    Utf8Append(src1, txt1);
    Utf8Append(src2, txt2);
    var text1, text2 := Utf8(src1 + txt1), Utf8(src2 + txt2);
    var d1, d2 := SignedData(src1, txt1, time1, id1), SignedData(src2, txt2, time2, id2);
    var n1, n2 := |text1|, |text2|;
    assert |d1| == n1 + 16 && |d2| == n2 + 16;
    assert d1[..n1] == text1 && d1[n1..n1 + 8] == WordBytes(time1) && d1[n1 + 8..] == WordBytes(id1);
    assert d2[..n2] == text2 && d2[n2..n2 + 8] == WordBytes(time2) && d2[n2 + 8..] == WordBytes(id2);
    if d1 == d2 {
      Utf8Injective(src1 + txt1, src2 + txt2);
      WordBytesInjective(time1, time2);
      WordBytesInjective(id1, id2);
    }
  }

  predicate Verify(scheme: Scheme, publicKey: seq<byte>, srcId: string, txt: string, time: u64, msgId: u64,
                   signature: seq<byte>)
  {
    && |publicKey| == 32
    && |signature| == 64
    && scheme(publicKey, SignedData(srcId, txt, time, msgId), signature)
  }

  // A text verifies exactly if key and signature have the right lengths and the scheme accepts
  // the signature of the bytes that spell the text.
  lemma VerifyIff(scheme: Scheme, publicKey: seq<byte>, srcId: string, txt: string, time: u64, msgId: u64,
                  signature: seq<byte>)
    ensures Verify(scheme, publicKey, srcId, txt, time, msgId, signature)
       <==> && |publicKey| == 32
            && |signature| == 64
            && exists data :: SpellsText(data, srcId, txt, time, msgId) && scheme(publicKey, data, signature)
  {
    forall data
      ensures data == SignedData(srcId, txt, time, msgId) <==> SpellsText(data, srcId, txt, time, msgId)
    {
      SignedDataSpells(data, srcId, txt, time, msgId);
    }
    if Verify(scheme, publicKey, srcId, txt, time, msgId, signature) {
      assert SpellsText(SignedData(srcId, txt, time, msgId), srcId, txt, time, msgId);
    }
  }
}
