/** The Python value that a JSON text stands for: escapes decoded, surrogate pairs joined, and the
    last of several equal keys kept. */
module JsonMeaning {
  import opened JsonText

  /** A Python string, as its code points; lone surrogates included. */
  type Str = seq<nat>

  datatype Json =
    | JNull
    | JBool(b: bool)
    | JNumber(lexeme: string)
    | JString(s: Str)
    | JArray(elements: seq<Json>)
    | JObject(fields: map<Str, Json>)

  function Points(s: string): (p: Str)
    ensures |p| == |s| && forall k :: 0 <= k < |s| ==> p[k] == s[k] as int
  {
    seq(|s|, k requires 0 <= k < |s| => s[k] as int)
  }

  // ---------- strings ----------

  function DigitValue(c: char): nat
    requires HexDigit(c)
  {
    if c <= '9' then (c - '0') as int else if c <= 'F' then (c - 'A') as int + 10 else (c - 'a') as int + 10
  }

  function HexValue(h: string): nat
    requires forall k :: 0 <= k < |h| ==> HexDigit(h[k])
  {
    if h == "" then 0 else 16 * HexValue(h[..|h| - 1]) + DigitValue(h[|h| - 1])
  }

  function ShortValue(e: char): nat {
    match e
    case 'b' => 8
    case 'f' => 12
    case 'n' => 10
    case 'r' => 13
    case 't' => 9
    case _ => e as int
  }

  function CodePoint(c: StringChar): nat
    requires ValidChar(c)
  {
    match c
    case Unescaped(u) => u as int
    case Short(e) => ShortValue(e)
    case Hex(h) => HexValue(h)
  }

  /** Two \u escapes that stand for one code point above 0xFFFF. */
  predicate SurrogatePair(a: StringChar, b: StringChar)
    requires ValidChar(a) && ValidChar(b)
  {
    a.Hex? && b.Hex? && 0xD800 <= HexValue(a.digits) < 0xDC00 && 0xDC00 <= HexValue(b.digits) < 0xE000
  }

  function Joined(a: StringChar, b: StringChar): nat
    requires ValidChar(a) && ValidChar(b) && SurrogatePair(a, b)
  {
    0x10000 + 0x400 * (CodePoint(a) - 0xD800) + (CodePoint(b) - 0xDC00)
  }

  function Decoded(chars: seq<StringChar>): Str
    requires ValidChars(chars)
  {
    if chars == [] then []
    else if |chars| > 1 && SurrogatePair(chars[0], chars[1]) then
      [Joined(chars[0], chars[1])] + Decoded(chars[2..])
    else [CodePoint(chars[0])] + Decoded(chars[1..])
  }

  /** A text written without escapes. */
  function Unquoted(s: string): (chars: seq<StringChar>)
    ensures |chars| == |s| && forall k :: 0 <= k < |s| ==> chars[k] == Unescaped(s[k])
  {
    seq(|s|, k requires 0 <= k < |s| => Unescaped(s[k]))
  }

  lemma {:induction false} UnquotedPrints(s: string)
    ensures PrintChars(Unquoted(s)) == s
  {
    if s != "" {
      assert Unquoted(s)[1..] == Unquoted(s[1..]);
      UnquotedPrints(s[1..]);
      assert s == [s[0]] + s[1..];
    }
  }

  /** It prints and decodes as itself. */
  lemma {:induction false} UnquotedDecodes(s: string)
    requires ValidChars(Unquoted(s))
    ensures Decoded(Unquoted(s)) == Points(s)
  {
    if s != "" {
      assert Unquoted(s)[1..] == Unquoted(s[1..]);
      UnquotedDecodes(s[1..]);
      assert Points(s) == [s[0] as int] + Points(s[1..]);
    }
  }

  // ---------- decoding undoes escaping ----------

  predicate Surrogate(p: nat, high: bool) {
    if high then 0xD800 <= p < 0xDC00 else 0xDC00 <= p < 0xE000
  }

  function HexDigitOf(d: nat): (c: char)
    requires d < 16
    ensures HexDigit(c)
  {
    if d < 10 then '0' + d as char else 'a' + (d - 10) as char
  }

  /** Four hexadecimal digits. */
  function HexOf(n: nat): (h: string)
    requires n < 0x10000
    ensures |h| == 4 && forall k :: 0 <= k < 4 ==> HexDigit(h[k])
  {
    var c, b, a := n / 16, n / 16 / 16, n / 16 / 16 / 16;
    [HexDigitOf(a), HexDigitOf(b % 16), HexDigitOf(c % 16), HexDigitOf(n % 16)]
  }

  /** How `json.dumps` writes one code point in ASCII: printable characters as they are, some with a
      short escape, the others as one or two \u escapes. */
  function Escaped(p: nat): (c: seq<StringChar>)
    requires p < 0x110000
    ensures ValidChars(c) && |c| == if p < 0x10000 then 1 else 2
  {
    if p == 0x22 then [Short('"')]
    else if p == 0x5C then [Short('\\')]
    else if p == 0x08 then [Short('b')]
    else if p == 0x09 then [Short('t')]
    else if p == 0x0A then [Short('n')]
    else if p == 0x0C then [Short('f')]
    else if p == 0x0D then [Short('r')]
    else if 0x20 <= p < 0x7F then [Unescaped(p as char)]
    else if p < 0x10000 then [Hex(HexOf(p))]
    else [Hex(HexOf(0xD800 + (p - 0x10000) / 0x400)), Hex(HexOf(0xDC00 + (p - 0x10000) % 0x400))]
  }

  predicate CodePoints(s: Str) {
    forall k :: 0 <= k < |s| ==> s[k] < 0x110000
  }

  function EscapedAll(s: Str): (c: seq<StringChar>)
    requires CodePoints(s)
    ensures ValidChars(c)
  {
    if s == [] then [] else Escaped(s[0]) + EscapedAll(s[1..])
  }

  lemma HexDigitValue(d: nat)
    requires d < 16
    ensures DigitValue(HexDigitOf(d)) == d
  {
  }

  lemma HexFour(a: char, b: char, c: char, d: char)
    requires HexDigit(a) && HexDigit(b) && HexDigit(c) && HexDigit(d)
    ensures HexValue([a, b, c, d]) ==
      16 * (16 * (16 * DigitValue(a) + DigitValue(b)) + DigitValue(c)) + DigitValue(d)
  {
    assert [a, b, c, d][..3] == [a, b, c] && [a, b, c][..2] == [a, b] && [a, b][..1] == [a] && [a][..0] == [];
    assert HexValue([a]) == DigitValue(a);
    assert HexValue([a, b]) == 16 * DigitValue(a) + DigitValue(b);
    assert HexValue([a, b, c]) == 16 * (16 * DigitValue(a) + DigitValue(b)) + DigitValue(c);
  }

  /** The digits read back as the number. */
  lemma HexReads(n: nat)
    requires n < 0x10000
    ensures HexValue(HexOf(n)) == n
  {
    var c, b, a := n / 16, n / 16 / 16, n / 16 / 16 / 16;
    HexDigitValue(a);
    HexDigitValue(b % 16);
    HexDigitValue(c % 16);
    HexDigitValue(n % 16);
    hide DigitValue, HexDigitOf, HexValue;
    HexFour(HexDigitOf(a), HexDigitOf(b % 16), HexDigitOf(c % 16), HexDigitOf(n % 16));
  }

  /** What the characters of an escaped code point are worth. */
  lemma EscapedIs(p: nat)
    requires p < 0x110000
    ensures p < 0x10000 ==> |Escaped(p)| == 1 && CodePoint(Escaped(p)[0]) == p
    ensures p >= 0x10000 ==>
      (|Escaped(p)| == 2 && SurrogatePair(Escaped(p)[0], Escaped(p)[1]) &&
       Joined(Escaped(p)[0], Escaped(p)[1]) == p)
  {
    hide HexOf, HexValue;
    if p < 0x10000 {
      HexReads(p);
    } else {
      HexReads(0xD800 + (p - 0x10000) / 0x400);
      HexReads(0xDC00 + (p - 0x10000) % 0x400);
    }
  }

  /** Every surrogate is written as a \u escape, so that a pair is recognised exactly by its values. */
  lemma PairIs(p: nat, q: nat)
    requires p < 0x10000 && q < 0x110000
    ensures |Escaped(p)| == 1 && |Escaped(q)| >= 1
    ensures SurrogatePair(Escaped(p)[0], Escaped(q)[0]) <==> Surrogate(p, true) && Surrogate(q, false)
  {
    hide HexOf, HexValue;
    HexReads(p);
    if q < 0x10000 {
      HexReads(q);
    } else {
      HexReads(0xD800 + (q - 0x10000) / 0x400);
    }
  }

  /** No high surrogate stands immediately before a low one. */
  predicate NoSplitPair(s: Str) {
    forall k :: 0 <= k < |s| - 1 ==> !(Surrogate(s[k], true) && Surrogate(s[k + 1], false))
  }

  /** Decoding the escapes of p and then of `rest`, where p and the first of `rest` are no pair. */
  lemma {:induction false} DecodeFirst(p: nat, rest: Str)
    requires CodePoints([p] + rest) && CodePoints(rest)
    requires rest == [] || !(Surrogate(p, true) && Surrogate(rest[0], false))
    ensures Decoded(EscapedAll([p] + rest)) == [p] + Decoded(EscapedAll(rest))
  {
    hide Escaped, SurrogatePair, Joined, CodePoint, HexValue;
    var s, more := [p] + rest, EscapedAll(rest);
    assert s[0] == p && s[1..] == rest;
    var chars := Escaped(p) + more;
    assert EscapedAll(s) == chars;
    EscapedIs(p);
    if p >= 0x10000 {
      assert chars[2..] == more;
    } else {
      assert chars[1..] == more;
      if rest != [] {
        PairIs(p, rest[0]);
        assert more[0] == Escaped(rest[0])[0];
      }
    }
  }

  /** And where they are one. */
  lemma {:induction false} DecodePair(p: nat, q: nat, rest: Str)
    requires CodePoints([p, q] + rest) && CodePoints(rest) && Surrogate(p, true) && Surrogate(q, false)
    ensures |Decoded(EscapedAll([p, q] + rest))| == 1 + |Decoded(EscapedAll(rest))|
  {
    hide Escaped, SurrogatePair, Joined, CodePoint, HexValue;
    var s, more := [p, q] + rest, EscapedAll(rest);
    assert s[0] == p && s[1..] == [q] + rest && s[1..][0] == q && s[1..][1..] == rest;
    assert EscapedAll(s[1..]) == Escaped(q) + more;
    PairIs(p, q);
    var chars := EscapedAll(s);
    assert chars == Escaped(p) + (Escaped(q) + more);
    assert chars[2..] == more;
  }

  /** Decoding never makes a string longer, and makes one with a split pair shorter. */
  lemma {:induction false} DecodedLength(s: Str)
    requires CodePoints(s)
    ensures |Decoded(EscapedAll(s))| <= |s|
    ensures !NoSplitPair(s) ==> |Decoded(EscapedAll(s))| < |s|
    decreases |s|
  {
    hide EscapedAll, Decoded, ValidChars;
    if s == [] {
      NothingEscaped();
    } else if |s| > 1 && Surrogate(s[0], true) && Surrogate(s[1], false) {
      assert s == [s[0], s[1]] + s[2..];
      DecodePair(s[0], s[1], s[2..]);
      DecodedLength(s[2..]);
    } else {
      assert s == [s[0]] + s[1..];
      DecodeFirst(s[0], s[1..]);
      DecodedLength(s[1..]);
      assert NoSplitPair(s[1..]) ==> NoSplitPair(s);
    }
  }

  lemma NothingEscaped()
    ensures EscapedAll([]) == [] && Decoded([]) == []
  {
  }

  lemma {:induction false} DecodeUnsplit(s: Str)
    requires CodePoints(s) && NoSplitPair(s)
    ensures Decoded(EscapedAll(s)) == s
  {
    hide EscapedAll, Decoded, ValidChars;
    if s == [] {
      NothingEscaped();
    } else {
      assert s == [s[0]] + s[1..];
      DecodeFirst(s[0], s[1..]);
      DecodeUnsplit(s[1..]);
    }
  }

  /** Round trip: decoding an escaped string gives it back exactly when no high surrogate stands in it
      immediately before a low one (as in no string read from valid Unicode). */
  lemma {:induction false} DecodeEscaped(s: Str)
    requires CodePoints(s)
    ensures Decoded(EscapedAll(s)) == s <==> NoSplitPair(s)
  {
    hide EscapedAll, Decoded, ValidChars, NoSplitPair;
    DecodedLength(s);
    if NoSplitPair(s) {
      DecodeUnsplit(s);
    }
  }

  /** The escape `json.dumps` does not write. */
  lemma SlashDecodes()
    ensures ShortValue('/') == 0x2F
  {
  }

  // ---------- values ----------

  function Meaning(v: Value): Json
    requires Valid(v)
    decreases v, 0
  {
    match v
    case Null => JNull
    case Bool(b) => JBool(b)
    case Number(_, _, _, _) => JNumber(PrintNumber(v))
    case Text(chars) => JString(Decoded(chars))
    case EmptyArray(_) => JArray([])
    case Array(elements) => JArray(ElementsOf(elements))
    case EmptyObject(_) => JObject(map[])
    case Object(members) => JObject(Fields(members))
  }

  function ElementsOf(es: Elements): seq<Json>
    requires ValidElements(es)
    decreases es, 1
  {
    [Meaning(es.value)] + if es.MoreElements? then ElementsOf(es.rest) else []
  }

  /** A dictionary filled from the members in order: a later member replaces an earlier one. */
  function Fields(ms: Members): map<Str, Json>
    requires ValidMembers(ms)
    decreases ms, 1
  {
    map[Decoded(ms.key) := Meaning(ms.value)] + if ms.MoreMembers? then Fields(ms.rest) else map[]
  }

  /** The members in order, each with its decoded key. */
  function Pairs(ms: Members): seq<(Str, Value)>
    requires ValidMembers(ms)
  {
    [(Decoded(ms.key), ms.value)] + if ms.MoreMembers? then Pairs(ms.rest) else []
  }

  predicate HasKey(ms: Members, key: Str)
    requires ValidMembers(ms)
  {
    exists n :: 0 <= n < |Pairs(ms)| && Pairs(ms)[n].0 == key
  }

  /** Member n is the last one with this key. */
  predicate LastWithKey(ms: Members, key: Str, n: nat)
    requires ValidMembers(ms)
  {
    n < |Pairs(ms)| && Pairs(ms)[n].0 == key &&
    forall l :: n < l < |Pairs(ms)| ==> Pairs(ms)[l].0 != key
  }

  lemma {:induction false} PairsValid(ms: Members, n: nat)
    requires ValidMembers(ms) && n < |Pairs(ms)|
    ensures Valid(Pairs(ms)[n].1)
  {
    if n > 0 {
      PairsValid(ms.rest, n - 1);
    }
  }

  /** An object has a key exactly when some member's decoded key is that key. */
  lemma {:induction false} FieldsKeys(ms: Members, key: Str)
    requires ValidMembers(ms)
    ensures key in Fields(ms) <==> HasKey(ms, key)
  {
    hide Decoded, Valid, Meaning;
    assert Pairs(ms)[0].0 == Decoded(ms.key);
    if ms.MoreMembers? {
      FieldsKeys(ms.rest, key);
      assert forall n :: 0 < n < |Pairs(ms)| ==> Pairs(ms)[n] == Pairs(ms.rest)[n - 1];
      assert forall n :: 0 <= n < |Pairs(ms.rest)| ==> Pairs(ms.rest)[n] == Pairs(ms)[n + 1];
    }
  }

  lemma {:induction false} LastInRest(ms: Members, key: Str, n: nat)
    requires ValidMembers(ms) && LastWithKey(ms, key, n) && n > 0
    ensures ms.MoreMembers? && ValidMembers(ms.rest) && LastWithKey(ms.rest, key, n - 1)
    ensures Pairs(ms)[n] == Pairs(ms.rest)[n - 1]
  {
    hide Decoded, Valid;
    assert Pairs(ms) == [(Decoded(ms.key), ms.value)] + if ms.MoreMembers? then Pairs(ms.rest) else [];
    assert ms.MoreMembers? ==> forall l :: 0 <= l < |Pairs(ms.rest)| ==> Pairs(ms.rest)[l] == Pairs(ms)[l + 1];
  }

  lemma {:induction false} FirstIsLast(ms: Members, key: Str)
    requires ValidMembers(ms) && LastWithKey(ms, key, 0)
    ensures key == Decoded(ms.key) && Pairs(ms)[0].1 == ms.value
    ensures ms.MoreMembers? ==> !HasKey(ms.rest, key)
  {
    hide Decoded, Valid;
    assert ms.MoreMembers? ==> forall l :: 0 <= l < |Pairs(ms.rest)| ==> Pairs(ms.rest)[l] == Pairs(ms)[l + 1];
  }

  /** And the last member with that key gives its value. */
  lemma {:induction false} LastMemberWins(ms: Members, key: Str, n: nat)
    requires ValidMembers(ms) && LastWithKey(ms, key, n)
    ensures Valid(Pairs(ms)[n].1)
    ensures key in Fields(ms) && Fields(ms)[key] == Meaning(Pairs(ms)[n].1)
  {
    PairsValid(ms, n);
    hide Decoded, Valid, Meaning, Pairs, LastWithKey, HasKey;
    if n > 0 {
      LastInRest(ms, key, n);
      LastMemberWins(ms.rest, key, n - 1);
    } else {
      FirstIsLast(ms, key);
      if ms.MoreMembers? {
        FieldsKeys(ms.rest, key);
      }
    }
  }
}
