/**
 * Self-routing API key ids (src/core/api-key-id.ts): two object refs as UTF-8
 * in hex and sixteen bytes of entropy, joined by underscores. Text is a
 * sequence of Unicode scalar values; UTF-8 is that of section 3 of RFC 3629.
 */
module ApiKeyIds {
  import opened Wrappers

  const ID_PREFIX: string := "n1_"
  const MAX_REF_BYTES: nat := 256
  const ENTROPY_LENGTH: nat := 32

  // -------------------------------------------------------------------------- UTF-8

  ghost predicate Bytes(list: seq<int>) {
    forall i :: 0 <= i < |list| ==> 0 <= list[i] < 256
  }

  /** Code points of characters: everything up to U+10FFFF but the surrogates. */
  predicate Scalar(n: int) {
    0 <= n < 0xD800 || 0xE000 <= n < 0x11_0000
  }

  function EncodePoint(n: int): (bytes: seq<int>)
    requires Scalar(n)
    ensures Bytes(bytes) && bytes != []
  {
    if n < 0x80 then [n]
    else if n < 0x800 then [0xC0 + n / 64, 0x80 + n % 64]
    else if n < 0x1_0000 then [0xE0 + n / 64 / 64, 0x80 + n / 64 % 64, 0x80 + n % 64]
    else [0xF0 + n / 64 / 64 / 64, 0x80 + n / 64 / 64 % 64, 0x80 + n / 64 % 64, 0x80 + n % 64]
  }

  predicate Continues(b: int) {
    0x80 <= b < 0xC0
  }

  /** Six more bits of a code point. */
  function Shift(n: int, b: int): int {
    n * 64 + (b - 0x80)
  }

  /** The number of bytes that a lead byte and its follower announce; 0 if they cannot start a character. */
  function Announced(b: int, next: Option<int>): nat {
    if 0 <= b < 0x80 then 1
    else if 0xC2 <= b < 0xE0 then 2
    else if 0xE0 <= b < 0xF0 then
      if next.Some? && ((b == 0xE0 && next.value < 0xA0) || (b == 0xED && next.value >= 0xA0)) then 0 else 3
    else if 0xF0 <= b < 0xF5 then
      if next.Some? && ((b == 0xF0 && next.value < 0x90) || (b == 0xF4 && next.value >= 0x90)) then 0 else 4
    else 0
  }

  /** The first code point of a byte sequence and the number of bytes it takes, if it is well-formed. */
  function DecodePoint(bytes: seq<int>): Option<(int, nat)> {
    if bytes == [] then None
    else
      var b := bytes[0];
      var n := Announced(b, if |bytes| > 1 then Some(bytes[1]) else None);
      if n == 0 || |bytes| < n then None
      else if n == 1 then Some((b, 1))
      else if !Continues(bytes[1]) then None
      else if n == 2 then Some((Shift(b - 0xC0, bytes[1]), 2))
      else if !Continues(bytes[2]) then None
      else if n == 3 then Some((Shift(Shift(b - 0xE0, bytes[1]), bytes[2]), 3))
      else if !Continues(bytes[3]) then None
      else Some((Shift(Shift(Shift(b - 0xF0, bytes[1]), bytes[2]), bytes[3]), 4))
  }

  lemma ShiftSplits(n: int, b: int)
    requires Continues(b)
    ensures Shift(n, b) / 64 == n && 0x80 + Shift(n, b) % 64 == b
  {
  }

  lemma ShiftRejoins(n: int)
    ensures Shift(n / 64, 0x80 + n % 64) == n && Continues(0x80 + n % 64)
  {
  }

  lemma DecodeEncodedPoint(n: int, rest: seq<int>)
    requires Scalar(n)
    ensures DecodePoint(EncodePoint(n) + rest) == Some((n, |EncodePoint(n)|))
  {
    if n < 0x80 {
    } else if n < 0x800 {
      ShortPoint(n, rest);
    } else if n < 0x1_0000 {
      MiddlePoint(n, rest);
    } else {
      LongPoint(n, rest);
    }
  }

  lemma ShortPoint(n: int, rest: seq<int>)
    requires 0x80 <= n < 0x800
    ensures DecodePoint(EncodePoint(n) + rest) == Some((n, 2)) && |EncodePoint(n)| == 2
  {
    ShiftRejoins(n);
  }

  lemma MiddlePoint(n: int, rest: seq<int>)
    requires Scalar(n) && 0x800 <= n < 0x1_0000
    ensures DecodePoint(EncodePoint(n) + rest) == Some((n, 3)) && |EncodePoint(n)| == 3
  {
    ShiftRejoins(n);
    ShiftRejoins(n / 64);
    assert 0xE0 <= 0xE0 + n / 64 / 64 < 0xF0;
  }

  lemma LongPoint(n: int, rest: seq<int>)
    requires 0x1_0000 <= n < 0x11_0000
    ensures DecodePoint(EncodePoint(n) + rest) == Some((n, 4)) && |EncodePoint(n)| == 4
  {
    ShiftRejoins(n);
    ShiftRejoins(n / 64);
    ShiftRejoins(n / 64 / 64);
    assert (EncodePoint(n) + rest)[..4] == EncodePoint(n);
    assert 0xF0 <= 0xF0 + n / 64 / 64 / 64 < 0xF5;
  }

  lemma EncodeDecodedPoint(bytes: seq<int>)
    requires DecodePoint(bytes).Some?
    ensures var (n, k) := DecodePoint(bytes).value;
            Scalar(n) && 0 < k <= |bytes| && EncodePoint(n) == bytes[..k]
  {
    var b, k := bytes[0], DecodePoint(bytes).value.1;
    if k == 2 {
      ShiftSplits(b - 0xC0, bytes[1]);
    } else if k == 3 {
      var m := Shift(b - 0xE0, bytes[1]);
      ShiftSplits(b - 0xE0, bytes[1]);
      ShiftSplits(m, bytes[2]);
    } else if k == 4 {
      var m := Shift(b - 0xF0, bytes[1]);
      var l := Shift(m, bytes[2]);
      ShiftSplits(b - 0xF0, bytes[1]);
      ShiftSplits(m, bytes[2]);
      ShiftSplits(l, bytes[3]);
    }
  }

  function Point(c: char): (n: int)
    ensures Scalar(n)
  {
    c as int
  }

  function Character(n: int): (c: char)
    requires Scalar(n)
    ensures Point(c) == n
  {
    n as char
  }

  function Encode(s: string): (bytes: seq<int>)
    ensures Bytes(bytes)
  {
    if s == "" then [] else EncodePoint(Point(s[0])) + Encode(s[1..])
  }

  /** Fatal decoding: nothing unless every byte belongs to a well-formed character. */
  function Decode(bytes: seq<int>): Option<string>
    decreases |bytes|
  {
    if bytes == [] then Some("")
    else if DecodePoint(bytes).None? then None
    else
      EncodeDecodedPoint(bytes);
      var (n, k) := DecodePoint(bytes).value;
      var rest := Decode(bytes[k..]);
      if rest.None? then None else Some([Character(n)] + rest.value)
  }

  /** Decoding undoes encoding. */
  lemma {:induction false} DecodeEncode(s: string)
    ensures Decode(Encode(s)) == Some(s)
  {
    if s != "" {
      var head, rest := EncodePoint(Point(s[0])), Encode(s[1..]);
      DecodeEncodedPoint(Point(s[0]), rest);
      DecodeEncode(s[1..]);
      assert (head + rest)[|head|..] == rest;
      assert [s[0]] + s[1..] == s;
    }
  }

  lemma EncodeCons(c: char, rest: string)
    ensures Encode([c] + rest) == EncodePoint(Point(c)) + Encode(rest)
  {
    assert ([c] + rest)[1..] == rest;
  }

  lemma DecodeStep(bytes: seq<int>) returns (n: int, k: nat)
    requires bytes != [] && Decode(bytes).Some?
    ensures Scalar(n) && 0 < k <= |bytes| && EncodePoint(n) == bytes[..k]
    ensures Decode(bytes[k..]).Some? && Decode(bytes).value == [Character(n)] + Decode(bytes[k..]).value
  {
    EncodeDecodedPoint(bytes);
    n, k := DecodePoint(bytes).value.0, DecodePoint(bytes).value.1;
  }

  /** Only encodings decode: overlong forms, surrogates and stray bytes do not. */
  lemma {:induction false} EncodeDecode(bytes: seq<int>)
    ensures Decode(bytes).Some? ==> Encode(Decode(bytes).value) == bytes
    decreases |bytes|
  {
    if bytes != [] && Decode(bytes).Some? {
      var n, k := DecodeStep(bytes);
      EncodeDecode(bytes[k..]);
      EncodeCons(Character(n), Decode(bytes[k..]).value);
      assert bytes[..k] + bytes[k..] == bytes;
    }
  }

  // ---------------------------------------------------------------------------- hex

  const HEX_DIGITS: string := "0123456789abcdef"

  /** Sixteen different digits, none of them the separator. */
  ghost predicate Alphabet(digits: string) {
    |digits| == 16 && '_' !in digits && forall i, j :: 0 <= i < j < 16 ==> digits[i] != digits[j]
  }

  lemma HexAlphabet()
    ensures Alphabet(HEX_DIGITS)
  {
  }

  predicate AllHex(digits: string, s: string) {
    forall i :: 0 <= i < |s| ==> s[i] in digits
  }

  function Digit(digits: string, n: int): char {
    if 0 <= n < |digits| then digits[n] else '0'
  }

  function DigitValue(digits: string, c: char): nat {
    if digits == "" then 0
    else if digits[|digits| - 1] == c then |digits| - 1
    else DigitValue(digits[..|digits| - 1], c)
  }

  lemma {:induction false} DigitFound(digits: string, c: char)
    requires c in digits
    ensures DigitValue(digits, c) < |digits| && digits[DigitValue(digits, c)] == c
  {
    if digits[|digits| - 1] != c { DigitFound(digits[..|digits| - 1], c); }
  }

  /** Two digits per byte. */
  function Pair(digits: string, b: int): string {
    [Digit(digits, b / 16), Digit(digits, b % 16)]
  }

  function Unpair(digits: string, high: char, low: char): int {
    DigitValue(digits, high) * 16 + DigitValue(digits, low)
  }

  lemma UnpairPair(digits: string, b: int)
    requires Alphabet(digits) && 0 <= b < 256
    ensures Unpair(digits, Pair(digits, b)[0], Pair(digits, b)[1]) == b
    ensures AllHex(digits, Pair(digits, b))
  {
    DigitFound(digits, digits[b / 16]);
    DigitFound(digits, digits[b % 16]);
  }

  lemma PairUnpair(digits: string, high: char, low: char)
    requires |digits| == 16 && high in digits && low in digits
    ensures Pair(digits, Unpair(digits, high, low)) == [high, low]
    ensures 0 <= Unpair(digits, high, low) < 256
  {
    DigitFound(digits, high);
    DigitFound(digits, low);
    SixteenSplits(DigitValue(digits, high), DigitValue(digits, low));
  }

  lemma SixteenSplits(x: int, y: int)
    requires 0 <= y < 16
    ensures (x * 16 + y) / 16 == x && (x * 16 + y) % 16 == y
  {
  }

  function Hex(digits: string, bytes: seq<int>): string
    decreases |bytes|
  {
    if bytes == [] then "" else Hex(digits, bytes[..|bytes| - 1]) + Pair(digits, bytes[|bytes| - 1])
  }

  function Unhex(digits: string, s: string): seq<int>
    decreases |s|
  {
    if |s| < 2 then [] else Unhex(digits, s[..|s| - 2]) + [Unpair(digits, s[|s| - 2], s[|s| - 1])]
  }

  /** Fill a byte buffer pair by pair. */
  method HexToBytes(digits: string, s: string) returns (bytes: array<int>)
    requires |s| % 2 == 0
    ensures bytes[..] == Unhex(digits, s)
  {
    bytes := new int[|s| / 2](_ => 0);
    for i := 0 to |s| / 2
      invariant bytes[..i] == Unhex(digits, s[..2 * i])
    {
      bytes[i] := Unpair(digits, s[2 * i], s[2 * i + 1]);
      assert s[..2 * (i + 1)][..2 * i] == s[..2 * i];
      assert bytes[..i + 1] == bytes[..i] + [bytes[i]];
    }
    assert s[..2 * (|s| / 2)] == s;
    assert bytes[..] == bytes[..|s| / 2];
  }

  lemma HexSnoc(digits: string, init: seq<int>, last: int)
    ensures Hex(digits, init + [last]) == Hex(digits, init) + Pair(digits, last)
  {
    assert (init + [last])[..|init|] == init;
  }

  lemma UnhexSnoc(digits: string, init: string, high: char, low: char)
    ensures Unhex(digits, init + [high, low]) == Unhex(digits, init) + [Unpair(digits, high, low)]
  {
    var s := init + [high, low];
    assert s[..|s| - 2] == init;
  }

  lemma {:induction false} HexShape(digits: string, bytes: seq<int>)
    requires Alphabet(digits) && Bytes(bytes)
    ensures |Hex(digits, bytes)| == 2 * |bytes| && AllHex(digits, Hex(digits, bytes))
    decreases |bytes|
  {
    if bytes != [] {
      HexShape(digits, bytes[..|bytes| - 1]);
      UnpairPair(digits, bytes[|bytes| - 1]);
    }
  }

  lemma {:induction false} UnhexHex(digits: string, bytes: seq<int>)
    requires Alphabet(digits) && Bytes(bytes)
    ensures Unhex(digits, Hex(digits, bytes)) == bytes
    decreases |bytes|
  {
    if bytes != [] {
      var init, last := bytes[..|bytes| - 1], bytes[|bytes| - 1];
      assert bytes == init + [last];
      UnhexHex(digits, init);
      UnhexPair(digits, Hex(digits, init), last);
    }
  }

  lemma UnhexPair(digits: string, init: string, last: int)
    requires Alphabet(digits) && 0 <= last < 256
    ensures Unhex(digits, init + Pair(digits, last)) == Unhex(digits, init) + [last]
  {
    UnpairPair(digits, last);
    UnhexSnoc(digits, init, Pair(digits, last)[0], Pair(digits, last)[1]);
  }

  lemma HexUnhexPair(digits: string, init: string, high: char, low: char)
    requires |digits| == 16 && high in digits && low in digits
    ensures Hex(digits, Unhex(digits, init + [high, low])) == Hex(digits, Unhex(digits, init)) + [high, low]
  {
    UnhexSnoc(digits, init, high, low);
    HexSnoc(digits, Unhex(digits, init), Unpair(digits, high, low));
    PairUnpair(digits, high, low);
  }

  lemma {:induction false} HexUnhex(digits: string, s: string)
    requires |digits| == 16 && |s| % 2 == 0 && AllHex(digits, s)
    ensures Hex(digits, Unhex(digits, s)) == s
    decreases |s|
  {
    if s != "" {
      var init, high, low := s[..|s| - 2], s[|s| - 2], s[|s| - 1];
      assert s == init + [high, low];
      HexUnhex(digits, init);
      HexUnhexPair(digits, init, high, low);
    }
  }

  // ----------------------------------------------------------------- refs and fields

  predicate ValidRef(s: string) {
    s != "" && ':' !in s && |Encode(s)| <= MAX_REF_BYTES
  }

  function Utf8Hex(digits: string, s: string): string {
    Hex(digits, Encode(s))
  }

  function FromUtf8Hex(digits: string, s: string): Option<string> {
    if HexText(digits, s) then Checked(digits, Decode(Unhex(digits, s)), s) else None
  }

  predicate HexText(digits: string, s: string) {
    s != "" && |s| <= 2 * MAX_REF_BYTES && |s| % 2 == 0 && AllHex(digits, s)
  }

  /** A decoded ref is accepted if it is valid and written again gives the same text. */
  function Checked(digits: string, decoded: Option<string>, s: string): Option<string> {
    if decoded.Some? && ValidRef(decoded.value) && Utf8Hex(digits, decoded.value) == s then decoded else None
  }

  lemma IsHexText(digits: string, hex: string, n: nat)
    requires |hex| == 2 * n && 0 < n <= MAX_REF_BYTES && AllHex(digits, hex)
    ensures HexText(digits, hex)
  {
  }

  /** Reading back a written ref. */
  lemma RefRoundTrip(digits: string, s: string)
    requires Alphabet(digits) && ValidRef(s)
    ensures FromUtf8Hex(digits, Utf8Hex(digits, s)) == Some(s)
  {
    var bytes, hex := Encode(s), Utf8Hex(digits, s);
    HexShape(digits, bytes);
    UnhexHex(digits, bytes);
    DecodeEncode(s);
    NotEmpty(s);
    IsHexText(digits, hex, |bytes|);
    CheckedKeeps(digits, s, hex);
    ReadsBack(digits, s, hex, Decode(bytes));
  }

  lemma NotEmpty(s: string)
    requires s != ""
    ensures Encode(s) != []
  {
  }

  lemma CheckedKeeps(digits: string, s: string, hex: string)
    requires ValidRef(s) && Utf8Hex(digits, s) == hex
    ensures Checked(digits, Some(s), hex) == Some(s)
  {
  }

  lemma ReadsBack(digits: string, s: string, hex: string, decoded: Option<string>)
    requires HexText(digits, hex) && decoded == Decode(Unhex(digits, hex)) && Checked(digits, decoded, hex) == Some(s)
    ensures FromUtf8Hex(digits, hex) == Some(s)
  {
  }

  /** The comparison with the re-encoded text never rejects anything: the decoder is already exact. */
  lemma ReencodingIsRedundant(digits: string, s: string)
    requires |digits| == 16 && |s| % 2 == 0 && AllHex(digits, s) && Decode(Unhex(digits, s)).Some?
    ensures Utf8Hex(digits, Decode(Unhex(digits, s)).value) == s
  {
    EncodeDecode(Unhex(digits, s));
    HexUnhex(digits, s);
  }

  function Split(s: string): (fields: seq<string>)
    ensures fields != []
  {
    if s == "" then [""]
    else
      var init, last := Split(s[..|s| - 1]), s[|s| - 1];
      if last == '_' then init + [""] else init[|init| - 1 := init[|init| - 1] + [last]]
  }

  function Join(fields: seq<string>): string
    requires fields != []
  {
    if |fields| == 1 then fields[0] else Join(fields[..|fields| - 1]) + "_" + fields[|fields| - 1]
  }

  lemma {:induction false} JoinSplit(s: string)
    ensures Join(Split(s)) == s
  {
    if s != "" {
      var init, last := Split(s[..|s| - 1]), s[|s| - 1];
      JoinSplit(s[..|s| - 1]);
      assert s == s[..|s| - 1] + [last];
      var n := |init|;
      if last == '_' {
        assert (init + [""])[..n] == init;
        assert s[..|s| - 1] + "_" + "" == s;
      } else {
        var grown := init[n - 1 := init[n - 1] + [last]];
        assert grown[..n - 1] == init[..n - 1];
        if n > 1 {
          assert Join(init[..n - 1]) + "_" + (init[n - 1] + [last]) == Join(init[..n - 1]) + "_" + init[n - 1] + [last];
        }
      }
    }
  }

  /** Appending text without separators extends the last field. */
  lemma {:induction false} SplitAppend(s: string, init: seq<string>, field: string, t: string)
    requires Split(s) == init + [field] && '_' !in t
    ensures Split(s + t) == init + [field + t]
    decreases |t|
  {
    if t == "" {
      assert s + t == s && field + t == field;
    } else {
      var most, last := t[..|t| - 1], t[|t| - 1];
      assert (s + t)[..|s + t| - 1] == s + most;
      SplitAppend(s, init, field, most);
      assert last in t && field + t == field + most + [last];
    }
  }

  /** A separator and text without separators make one more field. */
  lemma SplitField(s: string, t: string)
    requires '_' !in t
    ensures Split(s + "_" + t) == Split(s) + [t]
  {
    assert (s + "_")[..|s + "_"| - 1] == s;
    SplitAppend(s + "_", Split(s), "", t);
    assert "" + t == t;
  }

  lemma SplitThree(a: string, b: string, c: string)
    requires '_' !in a && '_' !in b && '_' !in c
    ensures Split(a + "_" + b + "_" + c) == [a, b, c]
  {
    SplitAppend("", [], "", a);
    assert "" + a == a && [] + [a] == [a];
    SplitField(a, b);
    SplitField(a + "_" + b, c);
    assert [a] + [b] + [c] == [a, b, c];
  }

  // --------------------------------------------------------------- printing and parsing

  datatype KeyId = KeyId(root: string, actor: string, entropy: string)

  predicate ValidEntropy(digits: string, s: string) {
    |s| == ENTROPY_LENGTH && AllHex(digits, s)
  }

  predicate ValidWith(digits: string, k: KeyId) {
    ValidRef(k.root) && ValidRef(k.actor) && ValidEntropy(digits, k.entropy)
  }

  function Body(digits: string, k: KeyId): string {
    Utf8Hex(digits, k.root) + "_" + Utf8Hex(digits, k.actor) + "_" + k.entropy
  }

  function ParseBody(digits: string, body: string): Option<KeyId> {
    var fields := Split(body);
    if |fields| != 3 || !ValidEntropy(digits, fields[2]) then None
    else
      var root, actor := FromUtf8Hex(digits, fields[0]), FromUtf8Hex(digits, fields[1]);
      if root.None? || actor.None? then None else Some(KeyId(root.value, actor.value, fields[2]))
  }

  lemma ParseBodyPrinted(digits: string, k: KeyId)
    requires Alphabet(digits) && ValidWith(digits, k)
    ensures ParseBody(digits, Body(digits, k)) == Some(k)
  {
    HexShape(digits, Encode(k.root));
    HexShape(digits, Encode(k.actor));
    SplitThree(Utf8Hex(digits, k.root), Utf8Hex(digits, k.actor), k.entropy);
    RefRoundTrip(digits, k.root);
    RefRoundTrip(digits, k.actor);
  }

  lemma BodyParsed(digits: string, body: string)
    requires |digits| == 16 && ParseBody(digits, body).Some?
    ensures var k := ParseBody(digits, body).value; ValidWith(digits, k) && Body(digits, k) == body
  {
    var fields := Split(body);
    JoinSplit(body);
    assert fields == [fields[0], fields[1], fields[2]];
    JoinThree(fields[0], fields[1], fields[2]);
  }

  lemma JoinThree(a: string, b: string, c: string)
    ensures Join([a, b, c]) == a + "_" + b + "_" + c
  {
    assert [a, b, c][..2] == [a, b] && [a, b][..1] == [a];
    assert Join([a]) == a && Join([a, b]) == a + "_" + b;
  }

  predicate Valid(k: KeyId) {
    ValidWith(HEX_DIGITS, k)
  }

  /** Printing refuses refs and entropy outside the grammar. */
  function Print(k: KeyId): Option<string> {
    if Valid(k) then Some(ID_PREFIX + Body(HEX_DIGITS, k)) else None
  }

  function Parse(id: string): Option<KeyId> {
    if ID_PREFIX <= id then ParseBody(HEX_DIGITS, id[|ID_PREFIX|..]) else None
  }

  /** Every id that can be printed parses to what was printed. */
  lemma ParsePrinted(k: KeyId)
    requires Valid(k)
    ensures Parse(Print(k).value) == Some(k)
  {
    HexAlphabet();
    ParseBodyPrinted(HEX_DIGITS, k);
    assert (ID_PREFIX + Body(HEX_DIGITS, k))[|ID_PREFIX|..] == Body(HEX_DIGITS, k);
  }

  /** Every id that parses is exactly the print of its parse. */
  lemma PrintParsed(id: string)
    ensures Parse(id).Some? ==> Valid(Parse(id).value) && Print(Parse(id).value) == Some(id)
  {
    if Parse(id).Some? {
      BodyParsed(HEX_DIGITS, id[|ID_PREFIX|..]);
      assert ID_PREFIX + id[|ID_PREFIX|..] == id;
    }
  }

  /** Different keys print differently, so an id names one root and one actor. */
  lemma PrintIsInjective(k: KeyId, l: KeyId)
    requires Valid(k) && Valid(l)
    ensures Print(k) == Print(l) ==> k == l
  {
    ParsePrinted(k);
    ParsePrinted(l);
  }

  // ------------------------------------------------- where each part of an id stands

  /** From position `at` on, the text spells the bytes, two digits each, the high digit first. */
  ghost predicate Spells(digits: string, text: string, at: nat, bytes: seq<int>) {
    && |digits| == 16 && at + 2 * |bytes| <= |text|
    && forall i :: 0 <= i < |bytes| ==>
         && 0 <= bytes[i] < 256
         && text[at + 2 * i] == digits[bytes[i] / 16] && text[at + 2 * i + 1] == digits[bytes[i] % 16]
  }

  lemma {:induction false} HexSpells(digits: string, bytes: seq<int>)
    requires |digits| == 16 && Bytes(bytes)
    ensures |Hex(digits, bytes)| == 2 * |bytes| && Spells(digits, Hex(digits, bytes), 0, bytes)
    decreases |bytes|
  {
    if bytes != [] {
      HexSpells(digits, bytes[..|bytes| - 1]);
    }
  }

  lemma SpellsWithin(digits: string, before: string, text: string, after: string, bytes: seq<int>)
    requires Spells(digits, text, 0, bytes)
    ensures Spells(digits, before + text + after, |before|, bytes)
  {
  }

  lemma Joined(prefix: string, a: string, b: string, c: string)
    ensures var id := prefix + (a + "_" + b + "_" + c);
            && id == prefix + a + ("_" + b + "_" + c)
            && id == (prefix + a + "_") + b + ("_" + c)
            && id == (prefix + a + "_" + b + "_") + c
  {
  }

  lemma JoinedParts(prefix: string, a: string, b: string, c: string)
    ensures var id := prefix + (a + "_" + b + "_" + c);
            var first := |prefix| + |a|;
            var second := first + 1 + |b|;
            && |id| == second + 1 + |c| && id[..|prefix|] == prefix
            && id[first] == '_' && id[second] == '_' && id[second + 1..] == c
  {
    Joined(prefix, a, b, c);
  }

  lemma BodyParts(digits: string, prefix: string, root: seq<int>, actor: seq<int>, entropy: string)
    requires |digits| == 16 && Bytes(root) && Bytes(actor)
    ensures |Hex(digits, root)| == 2 * |root| && |Hex(digits, actor)| == 2 * |actor|
    ensures var id := prefix + (Hex(digits, root) + "_" + Hex(digits, actor) + "_" + entropy);
            && Spells(digits, id, |prefix|, root)
            && Spells(digits, id, |prefix| + 2 * |root| + 1, actor)
  {
    HexSpells(digits, root);
    HexSpells(digits, actor);
    var a, b := Hex(digits, root), Hex(digits, actor);
    Joined(prefix, a, b, entropy);
    SpellsWithin(digits, prefix, a, "_" + b + "_" + entropy, root);
    SpellsWithin(digits, prefix + a + "_", b, "_" + entropy, actor);
  }

  /** An id is printed exactly for refs that are not empty, hold no colon and take at most 256 bytes, and 32 hex digits. */
  lemma PrintsExactly(k: KeyId)
    ensures Print(k).Some? <==>
            && k.root != "" && ':' !in k.root && |Encode(k.root)| <= 256
            && k.actor != "" && ':' !in k.actor && |Encode(k.actor)| <= 256
            && |k.entropy| == 32 && forall i :: 0 <= i < 32 ==> k.entropy[i] in HEX_DIGITS
  {
  }

  /** The text is the prefix, the root's bytes, the actor's bytes and the rest, in this order, with an underscore after each ref. */
  ghost predicate LaidOut(id: string, prefix: string, root: seq<int>, actor: seq<int>, rest: string) {
    var first := |prefix| + 2 * |root|;
    var second := first + 1 + 2 * |actor|;
    && |id| == second + 1 + |rest| && id[..|prefix|] == prefix
    && Spells(HEX_DIGITS, id, |prefix|, root) && id[first] == '_'
    && Spells(HEX_DIGITS, id, first + 1, actor) && id[second] == '_'
    && id[second + 1..] == rest
  }

  lemma BodyLaidOut(prefix: string, root: seq<int>, actor: seq<int>, rest: string)
    requires Bytes(root) && Bytes(actor)
    ensures LaidOut(prefix + (Hex(HEX_DIGITS, root) + "_" + Hex(HEX_DIGITS, actor) + "_" + rest), prefix, root, actor, rest)
  {
    BodyParts(HEX_DIGITS, prefix, root, actor, rest);
    JoinedParts(prefix, Hex(HEX_DIGITS, root), Hex(HEX_DIGITS, actor), rest);
  }

  /** A printed id is laid out as the version, the root, the actor and the entropy. */
  lemma PrintedParts(k: KeyId)
    requires Valid(k)
    ensures LaidOut(Print(k).value, "n1_", Encode(k.root), Encode(k.actor), k.entropy)
  {
    BodyLaidOut(ID_PREFIX, Encode(k.root), Encode(k.actor), k.entropy);
  }

  /** The scope a root is routed to. */
  function RootScope(root: string): string
    requires root != ""
  {
    if root[0] == '$' then "catalog" else "cluster:" + root
  }

  function Scope(id: string): Option<string> {
    var k := Parse(id);
    if k.None? then None else PrintParsed(id); Some(RootScope(k.value.root))
  }

  /** Different cluster roots never share a scope; all catalog roots do. */
  lemma ScopeTellsRoots(r: string, s: string)
    requires r != "" && s != ""
    ensures RootScope(r) == RootScope(s) <==> r == s || (r[0] == '$' && s[0] == '$')
  {
    assert ("cluster:" + r)[8..] == r && ("cluster:" + s)[8..] == s;
    assert ("cluster:" + r)[1] == 'l' && ("cluster:" + s)[1] == 'l' && "catalog"[1] == 'a';
  }

  /** Routing goes by the root alone. */
  lemma ScopeIsRoot(k: KeyId, l: KeyId)
    requires Valid(k) && Valid(l)
    ensures Scope(Print(k).value) == Scope(Print(l).value) <==> k.root == l.root || (k.root[0] == '$' && l.root[0] == '$')
  {
    ParsePrinted(k);
    ParsePrinted(l);
    ScopeTellsRoots(k.root, l.root);
  }
}
