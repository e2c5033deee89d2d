/** UTF-8 (section 3 of RFC 3629): encoding, decoding with an error handler, and the longest prefix that fits. */
module Utf8 {

  type Byte = x: int | 0 <= x < 256

  function EncodeCodePoint(n: int): (b: seq<Byte>)
    requires 0 <= n < 0x11_0000
    ensures 1 <= |b| <= 4
  {
    var high := n / 64;
    var higher := high / 64;
    if n < 0x80 then [n]
    else if n < 0x800 then [0xC0 + high, 0x80 + n % 64]
    else if n < 0x1_0000 then [0xE0 + higher, 0x80 + high % 64, 0x80 + n % 64]
    else [0xF0 + higher / 64, 0x80 + higher % 64, 0x80 + high % 64, 0x80 + n % 64]
  }

  function EncodeChar(c: char): (b: seq<Byte>)
    ensures 1 <= |b| <= 4
  {
    EncodeCodePoint(c as int)
  }

  /** `str.encode("utf-8")`. */
  function Encode(s: string): seq<Byte> {
    if s == "" then [] else EncodeChar(s[0]) + Encode(s[1..])
  }

  // ---- Decoding ----

  predicate Tail(b: Byte) { 0x80 <= b <= 0xBF }

  predicate ValidLead(b: Byte) { b < 0x80 || 0xC2 <= b <= 0xF4 }

  /** How many continuation bytes follow a lead byte. */
  function Needed(lead: Byte): nat {
    if lead < 0x80 then 0 else if lead < 0xE0 then 1 else if lead < 0xF0 then 2 else 3
  }

  /** The second byte is narrowed where the lead would allow overlong forms, surrogates or values above U+10FFFF. */
  predicate SecondOk(lead: Byte, b: Byte) {
    if lead == 0xE0 then 0xA0 <= b <= 0xBF
    else if lead == 0xED then 0x80 <= b <= 0x9F
    else if lead == 0xF0 then 0x90 <= b <= 0xBF
    else if lead == 0xF4 then 0x80 <= b <= 0x8F
    else Tail(b)
  }

  /** The length of the longest acceptable start of one encoded character. */
  function Accepted(b: seq<Byte>): (k: nat)
    requires b != [] && ValidLead(b[0])
    ensures 1 <= k <= |b| && k <= Needed(b[0]) + 1
  {
    var n := Needed(b[0]);
    if n == 0 || |b| < 2 || !SecondOk(b[0], b[1]) then 1
    else if n == 1 || |b| < 3 || !Tail(b[2]) then 2
    else if n == 2 || |b| < 4 || !Tail(b[3]) then 3
    else 4
  }

  predicate Complete(b: seq<Byte>) {
    b != [] && ValidLead(b[0]) && Accepted(b) == Needed(b[0]) + 1
  }

  function CodePoint(b: seq<Byte>): (n: int)
    requires Complete(b)
    ensures 0 <= n < 0xD800 || 0xE000 <= n < 0x11_0000
  {
    var lead: int := b[0];
    var n := Needed(b[0]);
    if n == 0 then lead
    else if n == 1 then Joined(lead - 0xC0, b[1])
    else if n == 2 then Joined(Joined(lead - 0xE0, b[1]), b[2])
    else Joined(Joined(Joined(lead - 0xF0, b[1]), b[2]), b[3])
  }

  function Joined(high: int, tail: int): int { high * 64 + (tail - 0x80) }

  /** `bytes.decode("utf-8", errors=...)`: every maximal ill-formed part becomes `onError`. */
  function Decode(b: seq<Byte>, onError: string): string
    decreases |b|
  {
    if b == [] then ""
    else if !ValidLead(b[0]) then onError + Decode(b[1..], onError)
    else if Complete(b) then [CodePoint(b) as char] + Decode(b[Accepted(b)..], onError)
    else onError + Decode(b[Accepted(b)..], onError)
  }

  // ---- Round trip ----

  lemma CodePointReadsBack(n: int, b: seq<Byte>)
    requires 0 <= n < 0xD800 || 0xE000 <= n < 0x11_0000
    requires EncodeCodePoint(n) <= b
    ensures Complete(b) && Accepted(b) == |EncodeCodePoint(n)| && CodePoint(b) == n
  {
    var e := EncodeCodePoint(n);
    assert forall k :: 0 <= k < |e| ==> b[k] == e[k];
    var high := n / 64;
    var higher := high / 64;
    assert n == high * 64 + n % 64 && high == higher * 64 + high % 64 && higher == higher / 64 * 64 + higher % 64;
  }

  lemma CharReadsBack(c: char, rest: seq<Byte>)
    ensures var b := EncodeChar(c) + rest;
      && Complete(b) && Accepted(b) == |EncodeChar(c)|
      && CodePoint(b) == c as int
  {
    CodePointReadsBack(c as int, EncodeChar(c) + rest);
  }

  /** Decoding what was encoded gives it back, whatever the error handler. */
  lemma {:induction false} DecodeInvertsEncode(s: string, onError: string)
    ensures Decode(Encode(s), onError) == s
  {
    if s != "" {
      var rest := Encode(s[1..]);
      CharReadsBack(s[0], rest);
      assert (EncodeChar(s[0]) + rest)[|EncodeChar(s[0])|..] == rest;
      DecodeInvertsEncode(s[1..], onError);
      assert s == [s[0]] + s[1..];
    }
  }

  lemma {:induction false} EncodeConcat(a: string, b: string)
    ensures Encode(a + b) == Encode(a) + Encode(b)
  {
    if a == "" {
      assert a + b == b;
    } else {
      EncodeConcat(a[1..], b);
      assert (a + b)[1..] == a[1..] + b;
    }
  }

  // ---- The longest prefix that fits ----

  /** `_limit_text`. */
  function LimitText(value: string, maxBytes: int): string {
    if maxBytes <= 0 then ""
    else if maxBytes < |Encode(value)| then Decode(Encode(value)[..maxBytes], "")
    else Decode(Encode(value), "")
  }

  /** How many characters of a text fit. */
  function Fit(value: string, maxBytes: nat): (n: nat)
    ensures n <= |value|
  {
    if value == "" || |EncodeChar(value[0])| > maxBytes then 0
    else 1 + Fit(value[1..], maxBytes - |EncodeChar(value[0])|)
  }

  /** A cut character decodes to nothing. */
  lemma CutCharIsIgnored(c: char, k: nat)
    requires k < |EncodeChar(c)|
    ensures Decode(EncodeChar(c)[..k], "") == ""
  {
    CharReadsBack(c, []);
    var whole := EncodeChar(c);
    assert whole + [] == whole;
    var cut := whole[..k];
    if k > 0 {
      hide EncodeCodePoint, CodePoint;
      assert forall i :: 0 <= i < k ==> cut[i] == whole[i];
      assert Accepted(cut) == k && !Complete(cut);
      assert cut[k..] == [];
      assert Decode(cut[k..], "") == "";
    }
  }

  lemma {:induction false} DecodeOfCut(value: string, maxBytes: nat)
    requires maxBytes <= |Encode(value)|
    ensures Decode(Encode(value)[..maxBytes], "") == value[..Fit(value, maxBytes)]
  {
    if value != "" {
      var first, rest := EncodeChar(value[0]), Encode(value[1..]);
      if |first| > maxBytes {
        assert (first + rest)[..maxBytes] == first[..maxBytes];
        CutCharIsIgnored(value[0], maxBytes);
      } else {
        var left := maxBytes - |first|;
        assert (first + rest)[..maxBytes] == first + rest[..left];
        CharReadsBack(value[0], rest[..left]);
        assert (first + rest[..left])[|first|..] == rest[..left];
        DecodeOfCut(value[1..], left);
        assert value[..1 + Fit(value[1..], left)] == [value[0]] + value[1..][..Fit(value[1..], left)];
      }
    }
  }

  lemma {:induction false} FitIsLongest(value: string, maxBytes: nat)
    ensures |Encode(value[..Fit(value, maxBytes)])| <= maxBytes
    ensures forall n :: Fit(value, maxBytes) < n <= |value| ==> |Encode(value[..n])| > maxBytes
  {
    if value != "" {
      var left := maxBytes - |EncodeChar(value[0])|;
      forall n | 0 < n <= |value|
        ensures |Encode(value[..n])| == |EncodeChar(value[0])| + |Encode(value[1..][..n - 1])|
      {
        assert value[..n][1..] == value[1..][..n - 1];
      }
      if left >= 0 {
        FitIsLongest(value[1..], left);
      }
    }
  }

  lemma {:induction false} FitAll(value: string, maxBytes: nat)
    ensures Fit(value, maxBytes) == |value| <==> |Encode(value)| <= maxBytes
  {
    FitIsLongest(value, maxBytes);
    assert value[..|value|] == value;
  }

  /** The text is cut after the last character whose encoding, with all before it, still fits. */
  lemma LimitTextIsLongest(value: string, maxBytes: int)
    ensures var r := LimitText(value, maxBytes);
      && r <= value && |Encode(r)| <= (if maxBytes < 0 then 0 else maxBytes)
      && (forall n :: |r| < n <= |value| ==> |Encode(value[..n])| > maxBytes)
      && (r == value <==> value == "" || |Encode(value)| <= maxBytes)
  {
    var limit := if maxBytes < 0 then 0 else maxBytes;
    FitIsLongest(value, limit);
    FitAll(value, limit);
    if maxBytes <= 0 {
      assert value != "" ==> |Encode(value)| > 0;
    } else if maxBytes < |Encode(value)| {
      DecodeOfCut(value, maxBytes);
    } else {
      DecodeInvertsEncode(value, "");
    }
  }
}
