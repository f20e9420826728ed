// What the decoder and the query parser make of any text, not only of what was encoded or printed: every byte string
// is a sequence of literals and escapes, and every parsed parameter has its place and its piece.
module QueryTexts {
  import opened ByteStrings
  import opened Options
  import opened QueryCodec
  import opened QueryKeys

  // ---------------------------------------------------------------- escapes

  // A literal byte, %XX, %uXXXX, or a percent sign that begins no escape.
  datatype Token =
    | Literal(c: Byte)
    | Escape(hi: Byte, lo: Byte)
    | Unicode(a: Byte, b: Byte, c3: Byte, d: Byte)
    | Stray

  predicate Hex(c: Byte) { HexDigit(c).Some? }

  // What stands behind a percent sign makes an escape of it.
  predicate BeginsEscape(s: Bytes) {
    || (|s| >= 2 && Hex(s[0]) && Hex(s[1]))
    || (|s| >= 5 && s[0] == SMALL_U && Hex(s[1]) && Hex(s[2]) && Hex(s[3]) && Hex(s[4]))
  }

  function TextOf(t: Token): Bytes {
    match t
    case Literal(c) => [c]
    case Escape(hi, lo) => [PERCENT, hi, lo]
    case Unicode(a, b, c, d) => [PERCENT, SMALL_U, a, b, c, d]
    case Stray => [PERCENT]
  }

  function Texts(tokens: seq<Token>): Bytes { if tokens == [] then [] else TextOf(tokens[0]) + Texts(tokens[1..]) }

  predicate Valid(t: Token, behind: Bytes) {
    match t
    case Literal(c) => c != PERCENT
    case Escape(hi, lo) => Hex(hi) && Hex(lo)
    case Unicode(a, b, c, d) => Hex(a) && Hex(b) && Hex(c) && Hex(d)
    case Stray => !BeginsEscape(behind)
  }

  predicate AllValid(tokens: seq<Token>) {
    tokens == [] || (Valid(tokens[0], Texts(tokens[1..])) && AllValid(tokens[1..]))
  }

  function Digit(c: Byte): (v: int)
    ensures 0 <= v < 16
  {
    if HexDigit(c).Some? then HexDigit(c).value else 0
  }

  function Meaning(t: Token, plus: bool): Bytes {
    match t
    case Literal(c) => if plus && c == PLUS then [SPACE] else [c]
    case Escape(hi, lo) => [Digit(hi) * 16 + Digit(lo)]
    case Unicode(a, b, c, d) => Utf8(Digit(a) * 4096 + Digit(b) * 256 + Digit(c) * 16 + Digit(d))
    case Stray => [PERCENT]
  }

  function Meanings(tokens: seq<Token>, plus: bool): Bytes {
    if tokens == [] then [] else Meaning(tokens[0], plus) + Meanings(tokens[1..], plus)
  }

  lemma TwoDigits(s: Bytes, i: nat)
    ensures HexValue(s, i, 2) ==
      if i + 2 <= |s| && Hex(s[i]) && Hex(s[i + 1]) then Some(Digit(s[i]) * 16 + Digit(s[i + 1])) else None
  {
    hide HexDigit;
    assert HexValue(s, i, 0) == if i <= |s| then Some(0) else None;
    assert HexValue(s, i, 1) == if i + 1 <= |s| && Hex(s[i]) then Some(Digit(s[i])) else None;
  }

  lemma FourDigits(s: Bytes, i: nat)
    ensures HexValue(s, i, 4) ==
      if i + 4 <= |s| && Hex(s[i]) && Hex(s[i + 1]) && Hex(s[i + 2]) && Hex(s[i + 3])
      then Some(Digit(s[i]) * 4096 + Digit(s[i + 1]) * 256 + Digit(s[i + 2]) * 16 + Digit(s[i + 3])) else None
  {
    hide HexDigit, HexValue;
    TwoDigits(s, i);
    DigitMore(s, i, 2);
    DigitMore(s, i, 3);
  }

  lemma DigitMore(s: Bytes, i: nat, count: nat)
    ensures HexValue(s, i, count + 1) ==
      if HexValue(s, i, count).Some? && i + count < |s| && Hex(s[i + count])
      then Some(HexValue(s, i, count).value * 16 + Digit(s[i + count])) else None
  {
    hide HexDigit;
  }

  // One token in front of anything is decoded to its meaning.
  lemma DecodeToken(pre: Bytes, t: Token, behind: Bytes, plus: bool)
    requires Valid(t, behind)
    ensures var s := pre + (TextOf(t) + behind);
            |pre| < |s| && Decode1(s, plus, |pre|) == (Meaning(t, plus), |TextOf(t)|)
  {
    hide HexDigit, HexValue, Utf8;
    var s, i, text := pre + (TextOf(t) + behind), |pre|, TextOf(t);
    assert s[i..] == text + behind && |s| == i + |text| + |behind|;
    forall k | 0 <= k < |text| + |behind| ensures s[i + k] == (text + behind)[k] { assert s[i..][k] == s[i + k]; }
    UnderscoreU();
    if text[0] == PERCENT && i + 1 < |s| {
      TwoDigits(s, i + 1);
      FourDigits(s, i + 2);
      assert s[i] == PERCENT && s[i + 1] == (text + behind)[1];
      if t.Stray? {
        assert forall k | 0 <= k < |behind| :: s[i + 1 + k] == behind[k];
      } else {
        assert s[i + 2] == text[2];
      }
    } else {
      assert s[i] == text[0];
    }
  }

  lemma UnderscoreU()
    ensures !Hex(SMALL_U)
  {
  }

  lemma {:induction false} DecodeTokensFrom(pre: Bytes, tokens: seq<Token>, plus: bool)
    requires AllValid(tokens)
    ensures DecodedFrom(pre + Texts(tokens), plus, |pre|) == Meanings(tokens, plus)
    decreases |tokens|
  {
    hide DecodedFrom, Decode1, Meaning, TextOf, Valid;
    if tokens == [] {
      assert pre + [] == pre;
      DecodeEnd(pre, plus);
    } else {
      var t, rest := tokens[0], tokens[1..];
      var s := pre + (TextOf(t) + Texts(rest));
      DecodeToken(pre, t, Texts(rest), plus);
      DecodeStep(s, plus, |pre|, []);
      assert s == pre + TextOf(t) + Texts(rest);
      DecodeTokensFrom(pre + TextOf(t), rest, plus);
    }
  }

  // Literals are kept, but that a plus sign may stand for a space; %XX is the byte and %uXXXX the UTF-8 of the number.
  lemma DecodeTokens(tokens: seq<Token>, plus: bool)
    requires AllValid(tokens)
    ensures Decoded(Texts(tokens), plus) == Meanings(tokens, plus)
  {
    assert [] + Texts(tokens) == Texts(tokens);
    DecodeTokensFrom([], tokens, plus);
  }

  // And there is no other text.
  lemma {:induction false} EveryTextHasTokens(s: Bytes) returns (tokens: seq<Token>)
    ensures AllValid(tokens) && Texts(tokens) == s
    decreases |s|
  {
    hide HexDigit;
    if s == [] {
      tokens := [];
    } else {
      var t := if s[0] != PERCENT then Literal(s[0])
               else if !BeginsEscape(s[1..]) then Stray
               else if Hex(s[1]) then Escape(s[1], s[2]) else Unicode(s[2], s[3], s[4], s[5]);
      var n := |TextOf(t)|;
      UnderscoreU();
      TokenInFront(s, t);
      var rest := EveryTextHasTokens(s[n..]);
      tokens := [t] + rest;
      assert tokens[1..] == rest;
    }
  }

  lemma TokenInFront(s: Bytes, t: Token)
    requires s != []
    requires t == if s[0] != PERCENT then Literal(s[0])
                  else if !BeginsEscape(s[1..]) then Stray
                  else if Hex(s[1]) then Escape(s[1], s[2]) else Unicode(s[2], s[3], s[4], s[5])
    ensures |TextOf(t)| <= |s| && TextOf(t) + s[|TextOf(t)|..] == s && Valid(t, s[|TextOf(t)|..])
  {
    hide HexDigit;
    UnderscoreU();
  }

  // ---------------------------------------------------------------- what is left alone

  // Letters, digits and marks are kept (the unreserved characters of section 2.3 of RFC 2396); all other bytes become
  // a percent sign and two digits of their value, in upper case.
  lemma EncodedByteIs(c: Byte)
    ensures var e := EncodedByte(c);
            if 'A' as int <= c <= 'Z' as int || 'a' as int <= c <= 'z' as int || '0' as int <= c <= '9' as int || c as char in "-_.!~*'()"
            then e == [c]
            else |e| == 3 && e[0] == '%' as int && HexDigit(e[1]) == Some(c / 16) && HexDigit(e[2]) == Some(c % 16)
                 && e[1] < 'a' as int && e[2] < 'a' as int
  {
    var marks := "-_.!~*'()";
    assert marks == ['-', '_', '.', '!', '~', '*', '\'', '(', ')'];
  }

  predicate Blanks(s: Bytes) { forall c <- s :: c == ' ' as int || c == '\t' as int }

  // Trimming takes spaces and tabs off both ends and nothing else.
  lemma {:induction false} TrimmedIs(s: Bytes) returns (front: Bytes, back: Bytes)
    ensures s == front + Trimmed(s) + back && Blanks(front) && Blanks(back)
    ensures Trimmed(s) != [] ==> !Blanks(Trimmed(s)[..1]) && !Blanks(Trimmed(s)[|Trimmed(s)| - 1..])
    decreases |s|
  {
    hide Blanks;
    if s != [] && Blank(s[0]) {
      var f, b := TrimmedIs(s[1..]);
      front, back := [s[0]] + f, b;
      BlanksMore(s[0], f);
      assert s == [s[0]] + s[1..];
    } else if s != [] && Blank(s[|s| - 1]) {
      var f, b := TrimmedIs(s[..|s| - 1]);
      front, back := f, b + [s[|s| - 1]];
      BlanksMore(s[|s| - 1], b);
      assert s == s[..|s| - 1] + [s[|s| - 1]];
    } else {
      front, back := [], [];
      NoBlanks(s);
    }
  }

  lemma BlanksMore(c: Byte, s: Bytes)
    requires Blank(c) && Blanks(s)
    ensures Blanks([c] + s) && Blanks(s + [c])
  {
  }

  lemma NoBlanks(s: Bytes)
    ensures Blanks([])
    ensures s != [] && !Blank(s[0]) && !Blank(s[|s| - 1]) ==> !Blanks(s[..1]) && !Blanks(s[|s| - 1..])
  {
    if s != [] { assert s[0] in s[..1] && s[|s| - 1] in s[|s| - 1..]; }
  }

  // ---------------------------------------------------------------- UTF-8

  // The code point of one to three bytes (section 3 of RFC 3629).
  function CodePoint(s: Bytes): Option<int> {
    if |s| == 1 && s[0] < 0x80 then Some(s[0])
    else if |s| == 2 && 0xC0 <= s[0] < 0xE0 && Continues(s[1]) then Some(Bits(s[0], 0xC0) * 0x40 + Bits(s[1], 0x80))
    else if |s| == 3 && 0xE0 <= s[0] < 0xF0 && Continues(s[1]) && Continues(s[2]) then
      Some(Bits(s[0], 0xE0) * 0x1000 + Bits(s[1], 0x80) * 0x40 + Bits(s[2], 0x80))
    else None
  }

  predicate Continues(b: int) { 0x80 <= b < 0xC0 }

  function Bits(b: int, mark: int): int { b - mark }

  lemma Utf8IsCodePoint(code: int)
    requires 0 <= code < 0x10000
    ensures 0xD800 <= code < 0xE000 ==> Utf8(code) == []
    ensures !(0xD800 <= code < 0xE000) ==>
              CodePoint(Utf8(code)) == Some(code) && |Utf8(code)| == if code < 0x80 then 1 else if code < 0x800 then 2 else 3
  {
  }

  // ---------------------------------------------------------------- pieces

  function Join(parts: seq<Bytes>, d: Byte): Bytes {
    if parts == [] then [] else if |parts| == 1 then parts[0] else parts[0] + [d] + Join(parts[1..], d)
  }

  // Splitting undoes joining.
  lemma {:induction false} SplitJoined(parts: seq<Bytes>, d: Byte)
    requires parts != [] && forall p <- parts :: d !in p
    ensures RawPieces(Join(parts, d), d) == parts
  {
    hide RawPieces;
    assert parts[0] in parts && forall p <- parts[1..] :: p in parts;
    RawWhole(parts[0], d);
    if |parts| > 1 {
      SplitJoined(parts[1..], d);
      RawConcat(parts[0], Join(parts[1..], d), d);
    }
  }

  lemma {:induction false} KeptWhole(parts: seq<Bytes>)
    requires forall p <- parts :: p != [] && !Blank(p[0]) && !Blank(p[|p| - 1])
    ensures Kept(parts) == parts
  {
    hide Trimmed, Kept;
    if parts == [] {
      RawNothing(0);
    } else {
      var front, last := parts[..|parts| - 1], parts[|parts| - 1];
      assert last in parts && forall p <- front :: p in parts;
      KeptWhole(front);
      NotTrimmed(last);
      KeptAll(parts);
      assert parts == front + [last];
    }
  }

  // Of several equals signs the first ends the key and the last begins the value.
  lemma KeyAndLastValue(parts: seq<Bytes>)
    requires parts != [] && forall p <- parts :: EQUALS !in p && p != [] && !Blank(p[0]) && !Blank(p[|p| - 1])
    ensures KeyValue(Join(parts, EQUALS)) == (parts[0], if |parts| == 1 then [] else parts[|parts| - 1])
  {
    hide RawPieces, Kept;
    SplitJoined(parts, EQUALS);
    KeptWhole(parts);
  }

  // ---------------------------------------------------------------- the multimap

  lemma {:induction false} LessOrder(a: Bytes, b: Bytes, c: Bytes)
    ensures Less(a, b) ==> !Less(b, a)
    ensures Less(a, b) && Less(b, c) ==> Less(a, c)
    ensures a != b ==> Less(a, b) || Less(b, a)
  {
    if a != [] && b != [] {
      LessOrder(a[1..], b[1..], if c == [] then [] else c[1..]);
      if a[0] == b[0] && a[1..] == b[1..] { assert a == [a[0]] + a[1..] == b; }
    }
  }

  lemma {:induction false} UpperBoundIs(params: Params, key: Bytes)
    ensures var n := UpperBound(params, key);
            && (forall i | 0 <= i < n :: !Less(key, params[i].key)) && (n < |params| ==> Less(key, params[n].key))
  {
    if params != [] && !Less(key, params[0].key) {
      UpperBoundIs(params[1..], key);
      var n := UpperBound(params, key);
      forall i | 0 <= i < n ensures !Less(key, params[i].key) { if i > 0 { assert params[i] == params[1..][i - 1]; } }
    }
  }

  lemma EmplacedSorted(params: Params, p: Pair)
    requires Sorted(params)
    ensures Sorted(Emplaced(params, p)) && forall q :: q in Emplaced(params, p) <==> q in params || q == p
  {
    hide Less;
    var n, after := UpperBound(params, p.key), Emplaced(params, p);
    UpperBoundIs(params, p.key);
    forall i, j | 0 <= i < j < |after| ensures !Less(after[j].key, after[i].key) {
      if i == n {
        LessOrder(p.key, params[n].key, []);
        LessOrder(after[j].key, p.key, params[n].key);
        if j - 1 > n { assert !Less(params[j - 1].key, params[n].key); }
      }
    }
    assert params == params[..n] + params[n..];
  }

  // A piece's parameter, decoded.
  function ParameterOf(kv: Bytes): Pair { Pair(Decoded(KeyValue(kv).0, true), Decoded(KeyValue(kv).1, true)) }

  predicate Counts(kv: Bytes) { KeyValue(kv).0 != [] }

  // The parameters are those of the pieces that have a key, each different piece's once, in the multimap's order.
  lemma {:induction false} ParsedIs(pieces: seq<Bytes>)
    ensures Sorted(Parsed(pieces))
    ensures forall p :: p in Parsed(pieces) <==> exists kv :: kv in pieces && Counts(kv) && p == ParameterOf(kv)
    ensures |Parsed(pieces)| == |set kv | kv in pieces && Counts(kv)|
  {
    hide KeyValue, Decoded, Emplaced, Sorted;
    if pieces == [] {
      NothingParsed();
    } else {
      var before, kv := pieces[..|pieces| - 1], pieces[|pieces| - 1];
      ParsedIs(before);
      EmplacedLength(Parsed(before), ParameterOf(kv));
      EmplacedSorted(Parsed(before), ParameterOf(kv));
      assert forall x :: x in pieces <==> x in before || x == kv;
      var now, earlier := set x | x in pieces && Counts(x), set x | x in before && Counts(x);
      if kv in before || !Counts(kv) {
        assert now == earlier;
      } else {
        assert now == earlier + {kv};
      }
    }
  }

  lemma NothingParsed()
    ensures Sorted(Parsed([])) && Parsed([]) == []
  {
  }

  lemma EmplacedLength(params: Params, p: Pair)
    ensures |Emplaced(params, p)| == |params| + 1
  {
  }
}
