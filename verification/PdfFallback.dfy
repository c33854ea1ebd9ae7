/**
 The bounded name-token scan over raw PDF bytes (worker/analyzers/pdf_fallback.py): `#XX`
 escapes of name objects (section 7.3.5 of ISO 32000-1) are decoded, then tokens counted.
 */
module PdfFallback {
  import opened Wrappers

  const HASH: byte := 35
  const SLASH: byte := 47

  /** A name keyword: ASCII, with neither a slash nor a number sign. */
  type Token = t: string | PlainName(t) witness ""

  predicate PlainName(t: string) { forall c | c in t :: c as int < 128 && c != '/' && c != '#' }

  const ACTIVE_TOKENS: seq<Token> := ["JavaScript", "JS", "OpenAction", "AA", "AcroForm", "XFA", "Launch"]
  const CARRIER_TOKENS: seq<Token> := [
    "EmbeddedFile", "EmbeddedFiles", "ImportData", "SubmitForm", "GoToE", "URI"]
  const TOKENS := ACTIVE_TOKENS + CARRIER_TOKENS

  // ---------------------------------------------------------------- decoding

  predicate IsHex(b: byte) { 48 <= b <= 57 || 65 <= b <= 70 || 97 <= b <= 102 }

  function HexValue(b: byte): (v: int)
    requires IsHex(b)
    ensures 0 <= v < 16
  {
    if b <= 57 then b as int - 48 else if b <= 70 then b as int - 55 else b as int - 87
  }

  const UPPER_DIGITS := "0123456789ABCDEF"
  const LOWER_DIGITS := "0123456789abcdef"

  /** The byte that writes a hex digit, in upper or lower case. */
  function Digit(v: nat, upper: bool): byte
    requires v < 16
  {
    var digits := if upper then UPPER_DIGITS else LOWER_DIGITS;
    assert digits[v] as int < 128;
    digits[v] as int as byte
  }

  /** Reading a digit gives back what was written, in either case; and only digits are read. */
  lemma HexRoundTrip(v: nat, upper: bool, b: byte)
    requires v < 16
    ensures IsHex(Digit(v, upper)) && HexValue(Digit(v, upper)) == v
    ensures IsHex(b) ==> b == Digit(HexValue(b), true) || b == Digit(HexValue(b), false)
  {
  }

  /** Every byte written as an escape means itself, however its digits are cased. */
  lemma EscapeRoundTrip(b: byte, highUpper: bool, lowUpper: bool)
    ensures var escape := Escape(Digit(b as int / 16, highUpper), Digit(b as int % 16, lowUpper));
            escape.Valid() && escape.Meaning() == b
  {
    HexRoundTrip(b as int / 16, highUpper, b);
    HexRoundTrip(b as int % 16, lowUpper, b);
  }

  predicate StartsEscape(data: Bytes) {
    |data| >= 3 && data[0] == HASH && IsHex(data[1]) && IsHex(data[2])
  }

  /** `re.sub` of every escape, left to right, without rescanning what it produced. */
  function Decode(data: Bytes): Bytes {
    if data == [] then []
    else if StartsEscape(data) then [(16 * HexValue(data[1]) + HexValue(data[2])) as byte] + Decode(data[3..])
    else [data[0]] + Decode(data[1..])
  }

  /** How one byte of a name is spelled: as itself, or as an escape with two hex digits. */
  datatype Spelling = Literal(value: byte) | Escape(high: byte, low: byte) {
    predicate Valid() {
      match this case Literal(b) => b != HASH case Escape(h, l) => IsHex(h) && IsHex(l)
    }

    function Spelled(): Bytes {
      match this case Literal(b) => [b] case Escape(h, l) => [HASH, h, l]
    }

    function Meaning(): byte
      requires Valid()
    {
      match this case Literal(b) => b case Escape(h, l) => (16 * HexValue(h) + HexValue(l)) as byte
    }
  }

  function Encoded(name: seq<Spelling>): Bytes {
    if name == [] then [] else name[0].Spelled() + Encoded(name[1..])
  }

  ghost predicate Spells(name: seq<Spelling>, token: Bytes) {
    |name| == |token| && forall i :: 0 <= i < |name| ==> name[i].Valid() && name[i].Meaning() == token[i]
  }

  /** A literal slash is never part of an escape, so decoding splits there. */
  lemma {:induction false} DecodeSplitsAtSlash(p: Bytes, rest: Bytes)
    ensures Decode(p + [SLASH] + rest) == Decode(p) + [SLASH] + Decode(rest)
  {
    var data := p + [SLASH] + rest;
    if p == [] {
      assert data[1..] == rest && !StartsEscape(data);
    } else if StartsEscape(p) {
      assert StartsEscape(data) && data[3..] == p[3..] + [SLASH] + rest;
      DecodeSplitsAtSlash(p[3..], rest);
      Prepended(Decode(p)[0], Decode(p[3..]), rest);
    } else {
      assert !StartsEscape(data) && data[1..] == p[1..] + [SLASH] + rest;
      DecodeSplitsAtSlash(p[1..], rest);
      Prepended(p[0], Decode(p[1..]), rest);
    }
  }

  lemma Regrouped(a: Bytes, b: Bytes, c: Bytes)
    ensures (a + b) + c == a + (b + c)
  {
  }

  lemma Prepended(b: byte, decoded: Bytes, rest: Bytes)
    ensures [b] + (decoded + [SLASH] + Decode(rest)) == [b] + decoded + [SLASH] + Decode(rest)
  {
  }

  lemma DecodeSpelled(u: Spelling, rest: Bytes)
    requires u.Valid()
    ensures Decode(u.Spelled() + rest) == [u.Meaning()] + Decode(rest)
  {
    var data := u.Spelled() + rest;
    match u
    case Literal(_) => assert data[1..] == rest;
    case Escape(_, _) => assert data[3..] == rest;
  }

  /** Any mix of literal and escaped bytes decodes to the bytes it spells, whatever follows. */
  lemma {:induction false} DecodeEncoded(name: seq<Spelling>, token: Bytes, s: Bytes)
    requires Spells(name, token)
    ensures Decode(Encoded(name) + s) == token + Decode(s)
  {
    if name == [] {
      assert Encoded(name) + s == s && token + Decode(s) == Decode(s);
    } else {
      var u, more := name[0], Encoded(name[1..]);
      assert u.Valid() && u.Meaning() == token[0];
      Regrouped(u.Spelled(), more, s);
      DecodeSpelled(u, more + s);
      DecodeEncoded(name[1..], token[1..], s);
      Regrouped([token[0]], token[1..], Decode(s));
      assert token == [token[0]] + token[1..];
    }
  }

  /** Every spelling of a name after a literal slash is recovered, in any context. */
  lemma DecodeRecoversName(p: Bytes, name: seq<Spelling>, token: Bytes, s: Bytes)
    requires Spells(name, token)
    ensures Decode(p + [SLASH] + Encoded(name) + s) == Decode(p) + [SLASH] + token + Decode(s)
  {
    assert p + [SLASH] + Encoded(name) + s == p + [SLASH] + (Encoded(name) + s);
    DecodeSplitsAtSlash(p, Encoded(name) + s);
    DecodeEncoded(name, token, s);
    assert Decode(p) + [SLASH] + (token + Decode(s)) == Decode(p) + [SLASH] + token + Decode(s);
  }

  // ---------------------------------------------------------------- counting

  predicate OccursAt(data: Bytes, needle: Bytes, i: int) {
    0 <= i <= |data| - |needle| && data[i..i + |needle|] == needle
  }

  /** The places from a position on at which a needle occurs. */
  function OccurrencesFrom(data: Bytes, needle: Bytes, from: nat): set<nat> {
    set i | from <= i <= |data| && OccursAt(data, needle, i)
  }

  function Occurrences(data: Bytes, needle: Bytes): set<nat> { OccurrencesFrom(data, needle, 0) }

  /** `bytes.count`: non-overlapping occurrences, taken greedily from `from` on. */
  function Count(data: Bytes, needle: Bytes, from: nat): nat
    requires needle != [] && from <= |data|
    decreases |data| - from
  {
    if from == |data| then 0
    else if OccursAt(data, needle, from) then 1 + Count(data, needle, from + |needle|)
    else Count(data, needle, from + 1)
  }

  lemma NoOverlap(data: Bytes, token: Bytes, from: int, i: int)
    requires SLASH !in token && OccursAt(data, [SLASH] + token, from)
    requires from < i <= from + |token|
    ensures !OccursAt(data, [SLASH] + token, i)
  {
    var needle := [SLASH] + token;
    assert data[from..from + |needle|][i - from] == data[i];
    assert needle[i - from] == token[i - from - 1] && token[i - from - 1] in token;
    if i <= |data| - |needle| {
      assert data[i..i + |needle|][0] == data[i];
    }
  }

  lemma OccurrenceTaken(data: Bytes, token: Bytes, from: nat)
    requires SLASH !in token && OccursAt(data, [SLASH] + token, from)
    ensures var needle := [SLASH] + token;
            OccurrencesFrom(data, needle, from) == {from} + OccurrencesFrom(data, needle, from + |needle|)
  {
    var needle := [SLASH] + token;
    forall i | from < i < from + |needle| ensures !OccursAt(data, needle, i) {
      NoOverlap(data, token, from, i);
    }
  }

  lemma PlaceSkipped(data: Bytes, needle: Bytes, from: nat)
    requires !OccursAt(data, needle, from)
    ensures OccurrencesFrom(data, needle, from) == OccurrencesFrom(data, needle, from + 1)
  {
  }

  /** A slash followed by a name without one cannot overlap itself: greedy counting misses nothing. */
  lemma {:induction false} CountsEveryOccurrence(data: Bytes, token: Bytes, from: nat)
    requires from <= |data| && SLASH !in token
    ensures Count(data, [SLASH] + token, from) == |OccurrencesFrom(data, [SLASH] + token, from)|
    decreases |data| - from
  {
    var needle := [SLASH] + token;
    if from == |data| {
      assert OccurrencesFrom(data, needle, from) == {};
    } else if OccursAt(data, needle, from) {
      CountsEveryOccurrence(data, token, from + |needle|);
      OccurrenceTaken(data, token, from);
    } else {
      CountsEveryOccurrence(data, token, from + 1);
      PlaceSkipped(data, needle, from);
    }
  }

  // ---------------------------------------------------------------- the scan

  function Octets(token: Token): (octets: Bytes)
    ensures |octets| == |token| && SLASH !in octets && HASH !in octets
  {
    var octets := seq(|token|, i requires 0 <= i < |token| => assert token[i] in token; token[i] as int as byte);
    assert forall i :: 0 <= i < |octets| ==> octets[i] as int == token[i] as int && token[i] in token;
    octets
  }

  datatype Limits = Limits(maxScanBytes: int, maxHitCount: int)

  const DEFAULT_LIMITS := Limits(8 * 1024 * 1024, 9_999)

  /** The bytes searched: the decoded window. */
  function Searched(raw: Bytes, limits: Limits): Bytes
    requires limits.maxScanBytes > 0
  {
    Decode(if |raw| <= limits.maxScanBytes then raw else raw[..limits.maxScanBytes])
  }

  function Hits(raw: Bytes, limits: Limits, token: Token): nat
    requires limits.maxScanBytes > 0
  {
    |Occurrences(Searched(raw, limits), [SLASH] + Octets(token))|
  }

  method ScanForIndicators(raw: Bytes, limits: Limits) returns (counts: map<Token, int>, truncated: bool)
    requires limits.maxScanBytes > 0 && limits.maxHitCount > 0
    ensures truncated <==> |raw| > limits.maxScanBytes
    ensures forall t :: t in counts <==> t in TOKENS && Hits(raw, limits, t) > 0
    ensures forall t :: t in counts ==>
              counts[t] == if Hits(raw, limits, t) <= limits.maxHitCount then Hits(raw, limits, t) else limits.maxHitCount
  {
    truncated := |raw| > limits.maxScanBytes;
    var window := if truncated then raw[..limits.maxScanBytes] else raw;
    var decoded := Decode(window);
    counts := map[];
    for n := 0 to |TOKENS|
      invariant forall t :: t in counts <==> t in TOKENS[..n] && Hits(raw, limits, t) > 0
      invariant forall t :: t in counts ==>
                  counts[t] == if Hits(raw, limits, t) <= limits.maxHitCount then Hits(raw, limits, t) else limits.maxHitCount
    {
      var token := TOKENS[n];
      var hits := Count(decoded, [SLASH] + Octets(token), 0);
      CountsEveryOccurrence(decoded, Octets(token), 0);
      assert TOKENS[..n + 1] == TOKENS[..n] + [token];
      if hits > 0 {
        counts := counts[token := if hits <= limits.maxHitCount then hits else limits.maxHitCount];
      }
    }
  }

  lemma OccursBetween(a: Bytes, needle: Bytes, c: Bytes)
    ensures OccursAt(a + needle + c, needle, |a|)
  {
  }

  /** However a token is spelled, if the spelling lies in the window the scan reports the token. */
  lemma SpelledTokenIsHit(p: Bytes, name: seq<Spelling>, token: Token, s: Bytes, limits: Limits)
    requires Spells(name, Octets(token)) && |p| + 1 + |Encoded(name)| <= limits.maxScanBytes
    ensures Hits(p + [SLASH] + Encoded(name) + s, limits, token) > 0
  {
    var raw := p + [SLASH] + Encoded(name) + s;
    var start := p + [SLASH] + Encoded(name);
    var tail := if |raw| <= limits.maxScanBytes then s else s[..limits.maxScanBytes - |start|];
    assert (if |raw| <= limits.maxScanBytes then raw else raw[..limits.maxScanBytes]) == start + tail;
    DecodeRecoversName(p, name, Octets(token), tail);
    TokenIsHit(Searched(raw, limits), Decode(p), Octets(token), Decode(tail));
  }

  lemma TokenIsHit(decoded: Bytes, before: Bytes, token: Bytes, after: Bytes)
    requires decoded == before + [SLASH] + token + after
    ensures Occurrences(decoded, [SLASH] + token) != {}
  {
    assert decoded == before + ([SLASH] + token) + after;
    OccursBetween(before, [SLASH] + token, after);
    assert |before| in Occurrences(decoded, [SLASH] + token);
  }
}
