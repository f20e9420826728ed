// Percent and query coding of httplib on byte strings: what the decoder makes of encoded values, and what
// parsing makes of printed parameters (section 2.1 of RFC 3986).
module QueryCodec {
  import opened ByteStrings
  import opened Options

  const AMPERSAND: Byte := '&' as int
  const EQUALS: Byte := '=' as int
  const PERCENT: Byte := '%' as int
  const PLUS: Byte := '+' as int
  const SPACE: Byte := ' ' as int
  const TAB: Byte := '\t' as int
  const SMALL_U: Byte := 'u' as int

  // ---------------------------------------------------------------- encoding a value

  predicate IsAlnum(c: Byte) {
    '0' as int <= c <= '9' as int || 'A' as int <= c <= 'Z' as int || 'a' as int <= c <= 'z' as int
  }

  // The characters encode_query_param leaves alone.
  predicate Plain(c: Byte) {
    || IsAlnum(c) || c == '-' as int || c == '_' as int || c == '.' as int || c == '!' as int || c == '~' as int
    || c == '*' as int || c == '\'' as int || c == '(' as int || c == ')' as int
  }

  function UpperHex(v: int): Byte
    requires 0 <= v < 16
  {
    if v < 10 then '0' as int + v else 'A' as int + v - 10
  }

  function EncodedByte(c: Byte): Bytes { if Plain(c) then [c] else [PERCENT, UpperHex(c / 16), UpperHex(c % 16)] }

  function Encoded(s: Bytes): Bytes { if s == [] then [] else Encoded(s[..|s| - 1]) + EncodedByte(s[|s| - 1]) }

  method EncodeQueryParam(value: Bytes) returns (escaped: Bytes)
    ensures escaped == Encoded(value)
  {
    escaped := [];
    for i := 0 to |value|
      invariant escaped == Encoded(value[..i])
    {
      assert value[..i + 1][..i] == value[..i];
      var c := value[i];
      if Plain(c) {
        escaped := escaped + [c];
      } else {
        escaped := escaped + [PERCENT, UpperHex(c / 16), UpperHex(c % 16)];
      }
    }
    assert value[..|value|] == value;
  }

  // ---------------------------------------------------------------- decoding

  // The value of `count` hexadecimal digits from position i on, if there are that many.
  function HexValue(s: Bytes, i: nat, count: nat): (v: Option<int>)
    ensures v.Some? ==> i + count <= |s|
    decreases count
  {
    if count == 0 then (if i <= |s| then Some(0) else None)
    else
      var rest := HexValue(s, i, count - 1);
      if rest.None? || i + count > |s| || HexDigit(s[i + count - 1]).None? then None
      else Some(rest.value * 16 + HexDigit(s[i + count - 1]).value)
  }

  // from_hex_to_i. Past the end the source reads the terminating NUL, which is no digit.
  method FromHexToI(s: Bytes, from: nat, count: nat) returns (result: Option<int>)
    requires count > 0
    ensures result == HexValue(s, from, count)
  {
    if from >= |s| {
      NoDigits(s, from, count);
      return None;
    }
    var val, i := 0, from;
    while i < from + count
      invariant from <= i <= from + count && i <= |s| && HexValue(s, from, i - from) == Some(val)
    {
      if i == |s| || s[i] == 0 || HexDigit(s[i]).None? {
        TooFewDigits(s, from, i - from + 1, count);
        return None;
      }
      val := val * 16 + HexDigit(s[i]).value;
      i := i + 1;
    }
    result := Some(val);
  }

  lemma {:induction false} TooFewDigits(s: Bytes, i: nat, few: nat, count: nat)
    requires few <= count && HexValue(s, i, few) == None
    ensures HexValue(s, i, count) == None
    decreases count
  {
    if few < count { TooFewDigits(s, i, few, count - 1); }
  }

  lemma NoDigits(s: Bytes, i: nat, count: nat)
    requires i >= |s| && count > 0
    ensures HexValue(s, i, count) == None
  {
    TooFewDigits(s, i, 1, count);
  }

  // Four hexadecimal digits at most; surrogates give nothing.
  function Utf8(code: int): (r: Bytes)
    requires 0 <= code < 0x10000
    ensures |r| <= 3
  {
    if code < 0x80 then [code]
    else if code < 0x800 then [0xC0 + code / 64, 0x80 + code % 64]
    else if 0xD800 <= code < 0xE000 then []
    else [0xE0 + code / 4096, 0x80 + code / 64 % 64, 0x80 + code % 64]
  }

  lemma {:induction false} HexBound(s: Bytes, i: nat, count: nat, bound: int)
    requires HexValue(s, i, count).Some? && count <= 4
    requires bound == (if count == 0 then 1 else if count == 1 then 16 else if count == 2 then 256 else if count == 3 then 4096 else 65536)
    ensures 0 <= HexValue(s, i, count).value < bound
  {
    if count > 0 { HexBound(s, i, count - 1, bound / 16); }
  }

  // What decode_url appends at position i and how many positions it takes.
  function Decode1(s: Bytes, plus: bool, i: nat): (r: (Bytes, nat))
    requires i < |s|
    ensures 1 <= r.1 <= |s| - i && |r.0| <= r.1
  {
    if s[i] == PERCENT && i + 1 < |s| then
      if s[i + 1] == SMALL_U then
        var v := HexValue(s, i + 2, 4);
        if v.Some? then HexBound(s, i + 2, 4, 65536); (Utf8(v.value), 6) else ([s[i]], 1)
      else
        var v := HexValue(s, i + 1, 2);
        if v.Some? then HexBound(s, i + 1, 2, 256); ([v.value], 3) else ([s[i]], 1)
    else if plus && s[i] == PLUS then ([SPACE], 1)
    else ([s[i]], 1)
  }

  function DecodedFrom(s: Bytes, plus: bool, i: nat): (r: Bytes)
    requires i <= |s|
    ensures |r| <= |s| - i
    decreases |s| - i
  {
    if i == |s| then [] else var d := Decode1(s, plus, i); d.0 + DecodedFrom(s, plus, i + d.1)
  }

  function Decoded(s: Bytes, plus: bool): (r: Bytes)
    ensures |r| <= |s|
  {
    DecodedFrom(s, plus, 0)
  }

  method DecodeUrl(s: Bytes, convertPlusToSpace: bool) returns (result: Bytes)
    ensures result == Decoded(s, convertPlusToSpace)
  {
    hide DecodedFrom, HexValue, HexDigit, Utf8;
    result := [];
    var i := 0;
    while i < |s|
      invariant i <= |s| && result + DecodedFrom(s, convertPlusToSpace, i) == Decoded(s, convertPlusToSpace)
    {
      ghost var d := Decode1(s, convertPlusToSpace, i);
      ghost var before, start := result, i;
      DecodeStep(s, convertPlusToSpace, i, before);
      if s[i] == PERCENT && i + 1 < |s| {
        if s[i + 1] == SMALL_U {
          var val := FromHexToI(s, i + 2, 4);
          if val.Some? {
            HexBound(s, i + 2, 4, 65536);
            result := result + Utf8(val.value);
            i := i + 5;
          } else {
            result := result + [s[i]];
          }
        } else {
          var val := FromHexToI(s, i + 1, 2);
          if val.Some? {
            HexBound(s, i + 1, 2, 256);
            result := result + [val.value];
            i := i + 2;
          } else {
            result := result + [s[i]];
          }
        }
      } else if convertPlusToSpace && s[i] == PLUS {
        result := result + [SPACE];
      } else {
        result := result + [s[i]];
      }
      i := i + 1;
      assert result == before + d.0 && i == start + d.1;
    }
    DecodeEnd(s, convertPlusToSpace);
    assert result + [] == result;
  }

  lemma DecodeStep(s: Bytes, plus: bool, i: nat, before: Bytes)
    requires i < |s|
    ensures var d := Decode1(s, plus, i);
            && DecodedFrom(s, plus, i) == d.0 + DecodedFrom(s, plus, i + d.1)
            && before + DecodedFrom(s, plus, i) == before + d.0 + DecodedFrom(s, plus, i + d.1)
  {
  }

  lemma DecodeEnd(s: Bytes, plus: bool)
    ensures DecodedFrom(s, plus, |s|) == []
  {
  }

  // ---------------------------------------------------------------- the value round trip

  // Decoding starts the same way whatever comes later, and goes on from there.
  lemma DecodeEncodedByte(pre: Bytes, c: Byte, post: Bytes, plus: bool)
    ensures var s := pre + EncodedByte(c) + post;
            Decode1(s, plus, |pre|) == ([c], |EncodedByte(c)|)
  {
    var s := pre + EncodedByte(c) + post;
    var i := |pre|;
    assert s[i] == EncodedByte(c)[0];
    if !Plain(c) {
      assert s[i + 1] == UpperHex(c / 16) && s[i + 2] == UpperHex(c % 16);
      assert HexDigit(s[i + 1]) == Some(c / 16) && HexDigit(s[i + 2]) == Some(c % 16);
      assert HexValue(s, i + 1, 0) == Some(0);
      assert HexValue(s, i + 1, 1) == Some(c / 16);
      assert HexValue(s, i + 1, 2) == Some(c);
    }
  }

  lemma {:induction false} DecodeEncodedFrom(pre: Bytes, rest: Bytes, plus: bool)
    ensures DecodedFrom(pre + Encoded(rest), plus, |pre|) == rest
    decreases |rest|
  {
    hide DecodedFrom, Decode1, Encoded, EncodedByte;
    EncodedNothing();
    if rest == [] {
      DecodeEnd(pre, plus);
      assert pre + [] == pre;
    } else {
      EncodedFront(rest);
      var e := EncodedByte(rest[0]);
      var s := pre + e + Encoded(rest[1..]);
      assert s == pre + Encoded(rest);
      DecodeEncodedByte(pre, rest[0], Encoded(rest[1..]), plus);
      NonEmptyCode(rest[0]);
      DecodeStep(s, plus, |pre|, []);
      DecodeEncodedFrom(pre + e, rest[1..], plus);
      assert [rest[0]] + rest[1..] == rest;
    }
  }

  lemma EncodedNothing()
    ensures Encoded([]) == []
  {
  }

  lemma NonEmptyCode(c: Byte)
    ensures EncodedByte(c) != []
  {
  }

  lemma {:induction false} EncodedFront(s: Bytes)
    requires s != []
    ensures Encoded(s) == EncodedByte(s[0]) + Encoded(s[1..])
  {
    if |s| > 1 {
      EncodedFront(s[..|s| - 1]);
      assert s[..|s| - 1][1..] == s[1..][..|s| - 2];
    }
  }

  // decode_url undoes encode_query_param on every byte string, with either treatment of plus signs.
  lemma DecodeEncoded(s: Bytes, plus: bool)
    ensures Decoded(Encoded(s), plus) == s
  {
    assert [] + Encoded(s) == Encoded(s);
    DecodeEncodedFrom([], s, plus);
  }

  lemma EncodedInjective(s: Bytes, t: Bytes)
    requires Encoded(s) == Encoded(t)
    ensures s == t
  {
    DecodeEncoded(s, false);
    DecodeEncoded(t, false);
  }

  // ---------------------------------------------------------------- splitting and trimming

  predicate Blank(c: Byte) { c == SPACE || c == TAB }

  function Trimmed(s: Bytes): (r: Bytes)
    ensures |r| <= |s|
    decreases |s|
  {
    if s != [] && Blank(s[0]) then Trimmed(s[1..])
    else if s != [] && Blank(s[|s| - 1]) then Trimmed(s[..|s| - 1])
    else s
  }

  // Everything between separators, empty pieces included.
  function RawPieces(s: Bytes, d: Byte): (r: seq<Bytes>)
    ensures r != []
  {
    if s == [] then [[]]
    else
      var r := RawPieces(s[..|s| - 1], d);
      if s[|s| - 1] == d then r + [[]] else r[..|r| - 1] + [r[|r| - 1] + [s[|s| - 1]]]
  }

  function Kept(pieces: seq<Bytes>): seq<Bytes> {
    if pieces == [] then []
    else
      var last := Trimmed(pieces[|pieces| - 1]);
      Kept(pieces[..|pieces| - 1]) + if last == [] then [] else [last]
  }

  function Pieces(s: Bytes, d: Byte): seq<Bytes> { Kept(RawPieces(s, d)) }

  // The bounds of what is left of s[left..right] without blanks around it; nothing is left if they cross.
  method Trim(s: Bytes, left: nat, right: nat) returns (l: nat, r: nat)
    requires left <= right <= |s|
    ensures if l < r then left <= l && r <= right && s[l..r] == Trimmed(s[left..right]) else Trimmed(s[left..right]) == []
  {
    hide Trimmed, Blank;
    l, r := left, right;
    while l < |s| && Blank(s[l])
      invariant left <= l <= |s| && forall k | left <= k < l :: Blank(s[k])
    {
      l := l + 1;
    }
    while r > 0 && Blank(s[r - 1])
      invariant r <= right && forall k | r <= k < right :: Blank(s[k])
    {
      r := r - 1;
    }
    TrimBounds(s, left, right, l, r);
  }

  lemma TrimBounds(s: Bytes, left: nat, right: nat, l: nat, r: nat)
    requires left <= l <= |s| && r <= right <= |s| && left <= right
    requires (forall k | left <= k < l :: Blank(s[k])) && (l < |s| ==> !Blank(s[l]))
    requires (forall k | r <= k < right :: Blank(s[k])) && (r > 0 ==> !Blank(s[r - 1]))
    ensures if l < r then s[l..r] == Trimmed(s[left..right]) else Trimmed(s[left..right]) == []
  {
    hide Trimmed, Blank;
    var t := s[left..right];
    if l < r {
      assert t[l - left] == s[l] && t[r - 1 - left] == s[r - 1];
      forall k | 0 <= k < l - left ensures Blank(t[k]) { assert t[k] == s[left + k]; }
      forall k | r - left <= k < |t| ensures Blank(t[k]) { assert t[k] == s[left + k]; }
      TrimmedTo(t, l - left, r - left);
      SliceOfSlice(s, left, right, l, r);
    } else {
      forall c <- t ensures Blank(c) {
        var k :| 0 <= k < |t| && t[k] == c;
        assert s[left + k] == c;
      }
      AllBlank(t);
    }
  }

  lemma SliceOfSlice(s: Bytes, a: nat, b: nat, c: nat, d: nat)
    requires a <= c <= d <= b <= |s|
    ensures s[a..b][c - a..d - a] == s[c..d]
  {
    var t := s[a..b][c - a..d - a];
    forall i | 0 <= i < d - c ensures t[i] == s[c..d][i] { assert s[a..b][c - a + i] == s[c + i]; }
  }

  lemma {:induction false} AllBlank(s: Bytes)
    requires forall c <- s :: Blank(c)
    ensures Trimmed(s) == []
  {
    if s != [] { AllBlank(s[1..]); }
  }

  lemma {:induction false} TrimmedTo(s: Bytes, l: nat, r: nat)
    requires l < r <= |s| && !Blank(s[l]) && !Blank(s[r - 1])
    requires (forall k | 0 <= k < l :: Blank(s[k])) && (forall k | r <= k < |s| :: Blank(s[k]))
    ensures Trimmed(s) == s[l..r]
    decreases |s|
  {
    if l > 0 {
      TrimmedTo(s[1..], l - 1, r - 1);
      assert s[1..][l - 1..r - 1] == s[l..r];
    } else if r < |s| {
      TrimmedTo(s[..|s| - 1], l, r);
      assert s[..|s| - 1][l..r] == s[l..r];
    }
  }

  method Split(s: Bytes, d: Byte) returns (pieces: seq<Bytes>)
    ensures pieces == Pieces(s, d)
  {
    hide Trimmed, RawPieces, Kept;
    var i, beg := 0, 0;
    pieces := [];
    RawNothing(d);
    while i < |s|
      invariant beg <= i <= |s|
      invariant var raw := RawPieces(s[..i], d); raw[|raw| - 1] == s[beg..i] && pieces == Kept(raw[..|raw| - 1])
    {
      ghost var raw := RawPieces(s[..i], d);
      RawStep(s, i, d);
      if s[i] == d {
        var l, r := Trim(s, beg, i);
        if l < r {
          pieces := pieces + [s[l..r]];
        }
        beg := i + 1;
        KeptAll(raw);
        assert (raw + [[]])[..|raw|] == raw;
      } else {
        assert s[beg..i] + [s[i]] == s[beg..i + 1];
        assert (raw[..|raw| - 1] + [s[beg..i + 1]])[..|raw| - 1] == raw[..|raw| - 1];
      }
      i := i + 1;
    }
    assert s[..|s|] == s;
    KeptAll(RawPieces(s, d));
    if i > 0 {
      var l, r := Trim(s, beg, i);
      if l < r {
        pieces := pieces + [s[l..r]];
      }
    } else {
      AllBlank([]);
    }
  }

  lemma RawNothing(d: Byte)
    ensures RawPieces([], d) == [[]] && Kept([]) == []
  {
  }

  lemma RawStep(s: Bytes, i: nat, d: Byte)
    requires i < |s|
    ensures var raw := RawPieces(s[..i], d);
            RawPieces(s[..i + 1], d) == if s[i] == d then raw + [[]] else raw[..|raw| - 1] + [raw[|raw| - 1] + [s[i]]]
  {
    assert s[..i + 1][..i] == s[..i];
  }

  lemma KeptAll(raw: seq<Bytes>)
    requires raw != []
    ensures var last := Trimmed(raw[|raw| - 1]);
            Kept(raw) == Kept(raw[..|raw| - 1]) + if last == [] then [] else [last]
  {
  }

  // ---------------------------------------------------------------- multimaps of parameters

  datatype Pair = Pair(key: Bytes, value: Bytes)

  // std::multimap in iteration order: by key, and by time of insertion among equal keys.
  type Params = seq<Pair>

  predicate Less(a: Bytes, b: Bytes) {
    if b == [] then false else if a == [] then true else a[0] < b[0] || (a[0] == b[0] && Less(a[1..], b[1..]))
  }

  ghost predicate Sorted(params: Params) {
    forall i, j | 0 <= i < j < |params| :: !Less(params[j].key, params[i].key)
  }

  // emplace: behind every element whose key is not greater.
  function UpperBound(params: Params, key: Bytes): (n: nat)
    ensures n <= |params|
  {
    if params == [] then 0 else if Less(key, params[0].key) then 0 else 1 + UpperBound(params[1..], key)
  }

  function Emplaced(params: Params, p: Pair): Params {
    var n := UpperBound(params, p.key);
    params[..n] + [p] + params[n..]
  }

  // ---------------------------------------------------------------- printing and parsing

  function Printed(p: Pair): Bytes { p.key + [EQUALS] + Encoded(p.value) }

  function QueryString(params: Params): Bytes {
    if params == [] then []
    else QueryString(params[..|params| - 1]) + (if |params| == 1 then [] else [AMPERSAND]) + Printed(params[|params| - 1])
  }

  method ParamsToQueryStr(params: Params) returns (query: Bytes)
    ensures query == QueryString(params)
  {
    query := [];
    for i := 0 to |params|
      invariant query == QueryString(params[..i])
    {
      assert params[..i + 1][..i] == params[..i];
      if i != 0 {
        query := query + [AMPERSAND];
      }
      query := query + params[i].key;
      query := query + [EQUALS];
      var value := EncodeQueryParam(params[i].value);
      query := query + value;
      assert query == QueryString(params[..i]) + (if i == 0 then [] else [AMPERSAND]) + Printed(params[i]);
    }
    assert params[..|params|] == params;
  }

  // The first piece is the key and the last one the value, if there is more than one.
  function KeyValue(kv: Bytes): (Bytes, Bytes) {
    var pieces := Pieces(kv, EQUALS);
    (if pieces == [] then [] else pieces[0], if |pieces| < 2 then [] else pieces[|pieces| - 1])
  }

  // The parameters after the pieces of a query text, of which repetitions are passed over.
  function Parsed(pieces: seq<Bytes>): Params {
    if pieces == [] then []
    else
      var before := pieces[..|pieces| - 1];
      var kv := pieces[|pieces| - 1];
      var (key, value) := KeyValue(kv);
      if kv in before || key == [] then Parsed(before)
      else Emplaced(Parsed(before), Pair(Decoded(key, true), Decoded(value, true)))
  }

  method ParseKeyValue(kv: Bytes) returns (key: Bytes, value: Bytes)
    ensures (key, value) == KeyValue(kv)
  {
    hide Pieces;
    var pieces := Split(kv, EQUALS);
    PiecesNotEmpty(kv, EQUALS);
    key, value := [], [];
    for i := 0 to |pieces|
      invariant key == (if i == 0 then [] else pieces[0]) && value == (if i < 2 then [] else pieces[i - 1])
    {
      assert pieces[i] in pieces && pieces[0] in pieces;
      if key == [] {
        key := pieces[i];
      } else {
        value := pieces[i];
      }
    }
  }

  // parse_query_text into an empty multimap.
  method ParseQueryText(s: Bytes) returns (params: Params)
    ensures params == Parsed(Pieces(s, AMPERSAND))
  {
    hide Pieces, KeyValue, Decoded, Emplaced;
    var pieces := Split(s, AMPERSAND);
    var cache: set<Bytes> := {};
    params := [];
    for i := 0 to |pieces|
      invariant cache == set kv | kv in pieces[..i]
      invariant params == Parsed(pieces[..i])
    {
      assert pieces[..i + 1][..i] == pieces[..i];
      var kv := pieces[i];
      if kv !in cache {
        cache := cache + {kv};
        var key, val := ParseKeyValue(kv);
        if key != [] {
          var k := DecodeUrl(key, true);
          var v := DecodeUrl(val, true);
          params := Emplaced(params, Pair(k, v));
        }
      }
    }
    assert pieces[..|pieces|] == pieces;
  }

  lemma {:induction false} KeptNotEmpty(raw: seq<Bytes>)
    ensures forall p <- Kept(raw) :: p != []
  {
    if raw != [] { KeptNotEmpty(raw[..|raw| - 1]); }
  }

  lemma PiecesNotEmpty(s: Bytes, d: Byte)
    ensures forall p <- Pieces(s, d) :: p != []
  {
    KeptNotEmpty(RawPieces(s, d));
  }

  // ---------------------------------------------------------------- the query round trip

  lemma {:induction false} RawWhole(s: Bytes, d: Byte)
    requires d !in s
    ensures RawPieces(s, d) == [s]
  {
    if s != [] {
      var r := s[..|s| - 1];
      forall c <- r ensures c in s { }
      RawWhole(r, d);
      assert s[|s| - 1] in s;
      assert r + [s[|s| - 1]] == s;
    }
  }

  lemma RawPush(s: Bytes, c: Byte, d: Byte)
    ensures var r := RawPieces(s, d);
            RawPieces(s + [c], d) == if c == d then r + [[]] else r[..|r| - 1] + [r[|r| - 1] + [c]]
  {
    var t := s + [c];
    assert t[..|t| - 1] == s;
  }

  ghost function Longer(r: seq<Bytes>, b: Bytes): seq<Bytes>
    requires r != []
  {
    r[..|r| - 1] + [r[|r| - 1] + b]
  }

  lemma LongerTwice(r: seq<Bytes>, a: Bytes, c: Byte)
    requires r != []
    ensures Longer(Longer(r, a), [c]) == Longer(r, a + [c])
    ensures Longer(r, []) == r
  {
    assert r[|r| - 1] + a + [c] == r[|r| - 1] + (a + [c]);
    assert r[|r| - 1] + [] == r[|r| - 1];
  }

  // Text without a separator only makes the last piece longer.
  lemma {:induction false} RawLonger(a: Bytes, b: Bytes, d: Byte)
    requires d !in b
    ensures RawPieces(a + b, d) == Longer(RawPieces(a, d), b)
  {
    hide RawPieces, Longer;
    var r := RawPieces(a, d);
    if b == [] {
      assert a + b == a;
      LongerTwice(r, [], 0);
    } else {
      var front, c := b[..|b| - 1], b[|b| - 1];
      assert c in b && forall x <- front :: x in b;
      RawLonger(a, front, d);
      assert a + front + [c] == a + b && front + [c] == b;
      RawPush(a + front, c, d);
      PushIsLonger(RawPieces(a + front, d), c);
      LongerTwice(r, front, c);
    }
  }

  lemma PushIsLonger(r: seq<Bytes>, c: Byte)
    requires r != []
    ensures Longer(r, [c]) == r[..|r| - 1] + [r[|r| - 1] + [c]]
  {
  }

  // A separator starts a new piece.
  lemma RawJoined(a: Bytes, b: Bytes, d: Byte)
    requires d !in b
    ensures RawPieces(a + [d] + b, d) == RawPieces(a, d) + [b]
  {
    hide RawPieces;
    var r := RawPieces(a, d);
    RawPush(a, d, d);
    RawLonger(a + [d], b, d);
    assert (r + [[]])[..|r|] == r && [] + b == b;
  }

  lemma EncodedPlain(s: Bytes)
    ensures forall c <- Encoded(s) :: Plain(c) || c == PERCENT
  {
    if s != [] { EncodedPlain(s[..|s| - 1]); }
  }

  // Keys that come back from a query text as they stand in it.
  predicate KeyShape(k: Bytes) {
    k != [] && AMPERSAND !in k && EQUALS !in k && !Blank(k[0]) && !Blank(k[|k| - 1])
  }

  // The keys that survive: the characters encode_query_param leaves alone are enough, see PlainKeyOk.
  predicate KeyOk(k: Bytes) { KeyShape(k) && Decoded(k, true) == k }

  lemma {:induction false} EncodedSame(k: Bytes)
    requires forall c <- k :: Plain(c)
    ensures Encoded(k) == k
  {
    if k != [] {
      var front := k[..|k| - 1];
      assert k[|k| - 1] in k && forall c <- front :: c in k;
      EncodedSame(front);
    }
  }

  lemma PlainKeyOk(k: Bytes)
    requires k != [] && forall c <- k :: Plain(c)
    ensures KeyOk(k)
  {
    hide Encoded, Decoded;
    EncodedSame(k);
    DecodeEncoded(k, true);
    assert k[0] in k && k[|k| - 1] in k;
  }

  lemma NotTrimmed(s: Bytes)
    requires s != [] && !Blank(s[0]) && !Blank(s[|s| - 1])
    ensures Trimmed(s) == s
  {
  }

  // One printed pair: not cut by '&', not trimmed, and taken apart into its key and encoded value.
  lemma PrintedPair(p: Pair)
    requires KeyShape(p.key)
    ensures AMPERSAND !in Printed(p) && Printed(p) != [] && Trimmed(Printed(p)) == Printed(p)
    ensures KeyValue(Printed(p)) == (p.key, Encoded(p.value))
  {
    hide RawPieces, Kept, Trimmed, Encoded, Decoded;
    var e := Encoded(p.value);
    EncodedPlain(p.value);
    if e != [] { assert e[|e| - 1] in e && e[0] in e; }
    NotTrimmed(Printed(p));
    RawWhole(p.key, EQUALS);
    RawJoined(p.key, e, EQUALS);
    NotTrimmed(p.key);
    KeptTwo(p.key, e);
    if e == [] { AllBlank(e); } else { NotTrimmed(e); }
  }

  lemma KeptTwo(a: Bytes, b: Bytes)
    ensures Kept([a] + [b]) == (if Trimmed(a) == [] then [] else [Trimmed(a)]) + (if Trimmed(b) == [] then [] else [Trimmed(b)])
  {
    assert ([a] + [b])[..1] == [a] && [a][..0] == [];
    assert Kept([]) == [];
  }

  lemma PrintedInjective(p: Pair, q: Pair)
    requires KeyOk(p.key) && KeyOk(q.key) && Printed(p) == Printed(q)
    ensures p == q
  {
    PrintedPair(p);
    PrintedPair(q);
    EncodedInjective(p.value, q.value);
  }

  ghost function AllPrinted(params: Params): seq<Bytes> { seq(|params|, i requires 0 <= i < |params| => Printed(params[i])) }

  lemma KeptLast(raw: seq<Bytes>, last: Bytes)
    requires last != [] && Trimmed(last) == last
    ensures Kept(raw + [last]) == Kept(raw) + [last]
  {
    assert (raw + [last])[..|raw|] == raw;
  }

  lemma PrintedFront(params: Params)
    requires params != []
    ensures AllPrinted(params) == AllPrinted(params[..|params| - 1]) + [Printed(params[|params| - 1])]
  {
  }

  lemma QueryStep(params: Params)
    requires params != []
    ensures var q := Printed(params[|params| - 1]);
            QueryString(params) == if |params| == 1 then q else QueryString(params[..|params| - 1]) + [AMPERSAND] + q
  {
    var q := Printed(params[|params| - 1]);
    assert [] + [] + q == q;
  }

  // The pieces of a query string are the printed pairs.
  lemma {:induction false} QueryPieces(params: Params)
    requires forall p <- params :: KeyOk(p.key)
    ensures params != [] ==> RawPieces(QueryString(params), AMPERSAND) == AllPrinted(params)
    ensures Kept(AllPrinted(params)) == AllPrinted(params)
  {
    hide RawPieces, Kept, KeyShape, Decoded, KeyValue, Printed, QueryString, Trimmed, AllPrinted;
    if params == [] {
      NoPairs();
    } else {
      var front, last := params[..|params| - 1], params[|params| - 1];
      assert last in params && forall p <- front :: p in params;
      QueryPieces(front);
      PrintedPair(last);
      PrintedFront(params);
      KeptLast(AllPrinted(front), Printed(last));
      QueryStep(params);
      if front == [] {
        NoPairs();
        RawWhole(Printed(last), AMPERSAND);
      } else {
        RawJoined(QueryString(front), Printed(last), AMPERSAND);
      }
    }
  }

  lemma NoPairs()
    ensures AllPrinted([]) == [] && Kept([]) == [] && QueryString([]) == []
  {
  }

  // The parameters without the repetitions of pairs that came before.
  function Distinct(params: Params): (r: Params)
    ensures |r| <= |params| && forall p <- r :: p in params
  {
    if params == [] then []
    else
      var front := params[..|params| - 1];
      if params[|params| - 1] in front then Distinct(front) else Distinct(front) + [params[|params| - 1]]
  }

  lemma {:induction false} AtTheEnd(params: Params, p: Pair)
    requires forall q <- params :: !Less(p.key, q.key)
    ensures Emplaced(params, p) == params + [p]
  {
    if params != [] {
      AtTheEnd(params[1..], p);
      UpperEnd(params, p.key);
    }
  }

  lemma {:induction false} UpperEnd(params: Params, key: Bytes)
    requires forall q <- params :: !Less(key, q.key)
    ensures UpperBound(params, key) == |params|
  {
    if params != [] { UpperEnd(params[1..], key); }
  }

  lemma {:induction false} ParsePrinted(params: Params)
    requires Sorted(params) && forall p <- params :: KeyOk(p.key)
    ensures Parsed(AllPrinted(params)) == Distinct(params)
  {
    hide KeyShape, KeyValue, Printed, AllPrinted, Emplaced, Encoded, Decoded, Less;
    if params == [] {
      NoPairs();
    } else {
      var front, p := params[..|params| - 1], params[|params| - 1];
      assert p in params && forall q <- front :: q in params;
      ParsePrinted(front);
      PrintedFront(params);
      KeyNotEmpty(p);
      RepeatedAlike(front, p);
      PrintedPair(p);
      DecodeEncoded(p.value, true);
      forall q <- Distinct(front) ensures !Less(p.key, q.key) {
        assert q in front;
        var i :| 0 <= i < |front| && front[i] == q;
        assert params[i] == q;
      }
      AtTheEnd(Distinct(front), p);
    }
  }

  lemma KeyNotEmpty(p: Pair)
    requires KeyOk(p.key)
    ensures p.key != [] && Decoded(p.key, true) == p.key
  {
  }

  lemma RepeatedAlike(front: Params, p: Pair)
    requires KeyOk(p.key) && forall q <- front :: KeyOk(q.key)
    ensures Printed(p) in AllPrinted(front) <==> p in front
  {
    if p in front {
      var i :| 0 <= i < |front| && front[i] == p;
      assert AllPrinted(front)[i] == Printed(p);
    }
    if Printed(p) in AllPrinted(front) {
      var i :| 0 <= i < |front| && AllPrinted(front)[i] == Printed(p);
      PrintedInjective(front[i], p);
    }
  }

  // Parsing what was printed gives the parameters back, each pair once.
  lemma ParseQueryString(params: Params)
    requires Sorted(params) && forall p <- params :: KeyOk(p.key)
    ensures Parsed(Pieces(QueryString(params), AMPERSAND)) == Distinct(params)
  {
    QueryPieces(params);
    ParsePrinted(params);
    if params == [] { RawNothing(AMPERSAND); AllBlank([]); KeptAll([[]]); }
  }

  ghost predicate NoRepeats(params: Params) { forall i, j | 0 <= i < j < |params| :: params[i] != params[j] }

  lemma {:induction false} DistinctAll(params: Params)
    ensures Distinct(params) == params <==> NoRepeats(params)
  {
    if params != [] {
      var front := params[..|params| - 1];
      DistinctAll(front);
      if params[|params| - 1] in front {
        var i :| 0 <= i < |front| && front[i] == params[|params| - 1];
        assert params[i] == params[|params| - 1];
      } else {
        assert front + [params[|params| - 1]] == params;
        assert Distinct(params) == params ==> Distinct(front) == front;
      }
    }
  }

  // For keys of this kind the round trip gives the same multimap exactly when no pair is repeated.
  lemma QueryRoundTrip(params: Params)
    requires Sorted(params) && forall p <- params :: KeyOk(p.key)
    ensures Parsed(Pieces(QueryString(params), AMPERSAND)) == params <==> NoRepeats(params)
  {
    ParseQueryString(params);
    DistinctAll(params);
  }
}
