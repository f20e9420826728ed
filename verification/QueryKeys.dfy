// Which parameters survive printing and parsing, exactly. Keys are printed as they are, so that a key may be cut,
// trimmed or decoded into something else; but no text grows by being parsed, and so a multimap comes back
// unchanged only if every key does.
module QueryKeys {
  import opened ByteStrings
  import opened QueryCodec
  import opened Sums

  // ---------------------------------------------------------------- lengths

  ghost function Length(): Bytes -> int { (s: Bytes) => |s| }

  ghost function Weight(): Pair -> int { (p: Pair) => |p.key| + |p.value| }

  // The length of the parameter a piece of query text is parsed to.
  ghost function YieldOf(kv: Bytes): nat {
    var (key, value) := KeyValue(kv);
    if key == [] then 0 else |Decoded(key, true)| + |Decoded(value, true)|
  }

  ghost function Yield(): Bytes -> int { (kv: Bytes) => YieldOf(kv) }

  // The separators account for the rest.
  lemma {:induction false} RawTotal(s: Bytes, d: Byte)
    ensures Sum(RawPieces(s, d), Length()) + |RawPieces(s, d)| - 1 == |s|
  {
    hide RawPieces, Sum;
    if s == [] {
      RawNothing(d);
      SumOne([], Length());
    } else {
      var front, c := s[..|s| - 1], s[|s| - 1];
      RawTotal(front, d);
      RawPush(front, c, d);
      assert front + [c] == s;
      var r := RawPieces(front, d);
      var head, last := r[..|r| - 1], r[|r| - 1];
      assert r == head + [last];
      SumAppend(head, last, Length());
      SumAppend(head, last + [c], Length());
      SumAppend(r, [], Length());
    }
  }

  lemma SumOne<T>(x: T, f: T -> int)
    ensures Sum([x], f) == f(x) && Sum<T>([], f) == 0
  {
    assert [x][1..] == [];
  }

  lemma {:induction false} KeptTotal(raw: seq<Bytes>)
    ensures Sum(Kept(raw), Length()) <= Sum(raw, Length())
  {
    hide Sum, Trimmed;
    if raw != [] {
      var front, last := raw[..|raw| - 1], raw[|raw| - 1];
      KeptTotal(front);
      assert raw == front + [last];
      SumAppend(front, last, Length());
      SumAppend(Kept(front), Trimmed(last), Length());
      assert Kept(front) + [] == Kept(front);
    }
  }

  lemma PiecesTotal(s: Bytes, d: Byte)
    ensures Sum(Pieces(s, d), Length()) + |RawPieces(s, d)| - 1 <= |s|
  {
    RawTotal(s, d);
    KeptTotal(RawPieces(s, d));
  }

  lemma FirstAndLast(pieces: seq<Bytes>)
    requires pieces != []
    ensures |pieces[0]| + (if |pieces| < 2 then 0 else |pieces[|pieces| - 1]|) <= Sum(pieces, Length())
  {
    if |pieces| < 2 {
      assert pieces == [pieces[0]];
      SumOne(pieces[0], Length());
    } else {
      var front := pieces[..|pieces| - 1];
      assert pieces == front + [pieces[|pieces| - 1]];
      SumAppend(front, pieces[|pieces| - 1], Length());
      SumAtLeast(front, 0, Length());
    }
  }

  lemma NothingDecoded()
    ensures Decoded([], true) == []
  {
  }

  lemma YieldAtMost(kv: Bytes)
    ensures YieldOf(kv) <= |kv|
  {
    hide Pieces, Decoded, Sum;
    var pieces := Pieces(kv, EQUALS);
    PiecesTotal(kv, EQUALS);
    NothingDecoded();
    if pieces != [] { FirstAndLast(pieces); }
  }

  lemma {:induction false} YieldsAtMost(raw: seq<Bytes>)
    ensures Sum(Kept(raw), Yield()) <= Sum(raw, Length())
  {
    hide Sum, Trimmed, YieldOf;
    if raw != [] {
      var front, last := raw[..|raw| - 1], raw[|raw| - 1];
      YieldsAtMost(front);
      assert raw == front + [last];
      SumAppend(front, last, Length());
      SumAppend(Kept(front), Trimmed(last), Yield());
      YieldAtMost(Trimmed(last));
      assert Kept(front) + [] == Kept(front);
    } else {
      SumOne([], Length());
      SumOne([], Yield());
    }
  }

  // ---------------------------------------------------------------- one parameter's text

  // Blanks in front of a printed pair are lost from its key.
  lemma {:induction false} TrimmedFront(u: Bytes, e: Bytes) returns (t: Bytes)
    requires e != [] ==> !Blank(e[|e| - 1])
    ensures Trimmed(u + [EQUALS] + e) == t + [EQUALS] + e && |t| <= |u| && (|t| == |u| ==> t == u)
  {
    var s := u + [EQUALS] + e;
    if u != [] && Blank(u[0]) {
      t := TrimmedFront(u[1..], e);
      assert s[1..] == u[1..] + [EQUALS] + e;
    } else {
      t := u;
    }
  }

  lemma KeysOfPair(t: Bytes, e: Bytes)
    requires EQUALS !in e && (e != [] ==> !Blank(e[0]) && !Blank(e[|e| - 1]))
    ensures Pieces(t + [EQUALS] + e, EQUALS) == Pieces(t, EQUALS) + if e == [] then [] else [e]
  {
    hide RawPieces, Kept, Trimmed;
    RawJoined(t, e, EQUALS);
    KeptAll(RawPieces(t, EQUALS) + [e]);
    assert (RawPieces(t, EQUALS) + [e])[..|RawPieces(t, EQUALS)|] == RawPieces(t, EQUALS);
    if e == [] { AllBlank(e); } else { NotTrimmed(e); }
  }

  // Decoding keeps the length only if there is nothing to decode but plus signs.
  lemma {:induction false} FullLength(s: Bytes, i: nat)
    requires i <= |s| && |DecodedFrom(s, true, i)| == |s| - i
    ensures forall j | i <= j < |s| :: DecodedFrom(s, true, i)[j - i] == if s[j] == PLUS then SPACE else s[j]
    decreases |s| - i
  {
    hide HexValue, Utf8;
    if i < |s| {
      var d := Decode1(s, true, i);
      assert d.1 == 1 && d.0 == [if s[i] == PLUS then SPACE else s[i]];
      FullLength(s, i + 1);
    }
  }

  // What the separated, trimmed and decoded key keeps of its length.
  lemma KeyYield(t: Bytes, e: Bytes)
    requires EQUALS !in e && (e != [] ==> !Blank(e[0]) && !Blank(e[|e| - 1]))
    ensures YieldOf(t + [EQUALS] + e) <= |t| + |Decoded(e, true)|
    ensures YieldOf(t + [EQUALS] + e) == |t| + |Decoded(e, true)| ==>
              t == [] || (EQUALS !in t && !Blank(t[0]) && !Blank(t[|t| - 1]) && |Decoded(t, true)| == |t|)
  {
    hide Decoded, RawPieces, Kept, Trimmed, Sum;
    KeysOfPair(t, e);
    NothingDecoded();
    PiecesTotal(t, EQUALS);
    var pieces := Pieces(t, EQUALS);
    var all := pieces + if e == [] then [] else [e];
    if pieces != [] {
      FirstAndLast(pieces);
      if YieldOf(t + [EQUALS] + e) == |t| + |Decoded(e, true)| {
        OnePiece(t, EQUALS);
      }
    }
  }

  lemma OnePiece(t: Bytes, d: Byte)
    requires |RawPieces(t, d)| == 1
    ensures d !in t && Pieces(t, d) == if Trimmed(t) == [] then [] else [Trimmed(t)]
    ensures |Trimmed(t)| == |t| ==> Trimmed(t) == t && (t != [] ==> !Blank(t[0]) && !Blank(t[|t| - 1]))
  {
    hide RawPieces, Trimmed;
    RawShort(t, d);
    KeptAll([t]);
    assert [t][..0] == [] && Kept([]) == [];
    if |Trimmed(t)| == |t| { TrimmedWhole(t); }
  }

  // The pieces of a parameter's text: those of its key, the last one with the value.
  lemma TextOf(p: Pair) returns (head: seq<Bytes>, u: Bytes, t: Bytes)
    ensures RawPieces(p.key, AMPERSAND) == head + [u] && |t| <= |u| && (|t| == |u| ==> t == u)
    ensures Pieces(Printed(p), AMPERSAND) == Kept(head) + [t + [EQUALS] + Encoded(p.value)]
    ensures var e := Encoded(p.value); AMPERSAND !in e && EQUALS !in e && (e != [] ==> !Blank(e[0]) && !Blank(e[|e| - 1]))
  {
    hide RawPieces, Trimmed, Encoded;
    var e := Encoded(p.value);
    EncodedPlain(p.value);
    if e != [] { assert e[0] in e && e[|e| - 1] in e; }
    var raw := RawPieces(p.key, AMPERSAND);
    head, u := raw[..|raw| - 1], raw[|raw| - 1];
    LastPiece(p.key, e);
    t := TrimmedFront(u, e);
    KeptAll(head + [u + [EQUALS] + e]);
    assert (head + [u + [EQUALS] + e])[..|head|] == head;
  }

  // A parameter's text yields no more than the parameter, and less if its key cannot come back whole.
  lemma TextYield(p: Pair)
    ensures TextYieldOf(p) <= |p.key| + |p.value|
    ensures TextYieldOf(p) == |p.key| + |p.value| ==> HalfOk(p)
  {
    hide RawPieces, Kept, Trimmed, Decoded, Encoded, Sum, YieldOf, Printed, Pieces;
    var head, u, t := TextOf(p);
    var e := Encoded(p.value);
    SumAppend(Kept(head), t + [EQUALS] + e, Yield());
    SumAppend(head, u, Length());
    YieldsAtMost(head);
    DecodeEncoded(p.value, true);
    KeyYield(t, e);
    RawTotal(p.key, AMPERSAND);
    if TextYieldOf(p) == |p.key| + |p.value| {
      OnePiece(p.key, AMPERSAND);
      RawShort(p.key, AMPERSAND);
      assert (head + [u])[0] == u == p.key;
    }
  }

  lemma LastPiece(k: Bytes, e: Bytes)
    requires AMPERSAND !in e
    ensures var raw := RawPieces(k, AMPERSAND);
            RawPieces(k + [EQUALS] + e, AMPERSAND) == raw[..|raw| - 1] + [raw[|raw| - 1] + [EQUALS] + e]
  {
    hide RawPieces;
    var raw := RawPieces(k, AMPERSAND);
    var u := raw[|raw| - 1];
    assert k + [EQUALS] + e == k + ([EQUALS] + e) && u + [EQUALS] + e == u + ([EQUALS] + e);
    RawLonger(k, [EQUALS] + e, AMPERSAND);
  }

  lemma {:induction false} RawShort(s: Bytes, d: Byte)
    ensures var r := RawPieces(s, d);
            if |r| == 1 then r == [s] && d !in s else forall p <- r :: |p| < |s|
  {
    hide RawPieces;
    if s == [] {
      RawNothing(d);
    } else {
      var front, c := s[..|s| - 1], s[|s| - 1];
      RawShort(front, d);
      RawPush(front, c, d);
      assert front + [c] == s;
      RawShortPush(front, RawPieces(front, d), c, d);
    }
  }

  lemma RawShortPush(s: Bytes, r: seq<Bytes>, c: Byte, d: Byte)
    requires r != [] && if |r| == 1 then r == [s] && d !in s else forall p <- r :: |p| < |s|
    ensures var r' := if c == d then r + [[]] else r[..|r| - 1] + [r[|r| - 1] + [c]];
            if |r'| == 1 then r' == [s + [c]] && d !in s + [c] else forall p <- r' :: |p| < |s| + 1
  {
    assert r[|r| - 1] in r;
    var r' := if c == d then r + [[]] else r[..|r| - 1] + [r[|r| - 1] + [c]];
    forall i | 0 <= i < |r'| && |r'| > 1 ensures |r'[i]| < |s| + 1 {
      if i < |r| - 1 { assert r'[i] == r[i]; }
    }
  }

  lemma {:induction false} TrimmedWhole(s: Bytes)
    requires |Trimmed(s)| == |s|
    ensures Trimmed(s) == s && (s != [] ==> !Blank(s[0]) && !Blank(s[|s| - 1]))
  {
  }

  lemma {:induction false} KeptFrom(raw: seq<Bytes>, p: Bytes) returns (r: Bytes)
    requires p in Kept(raw)
    ensures r in raw && Trimmed(r) == p
  {
    var front, last := raw[..|raw| - 1], raw[|raw| - 1];
    if p in Kept(front) {
      r := KeptFrom(front, p);
      assert r in front;
    } else {
      r := last;
    }
  }

  lemma {:induction false} ParsedFrom(pieces: seq<Bytes>, p: Pair) returns (kv: Bytes)
    requires p in Parsed(pieces)
    ensures kv in pieces && KeyValue(kv).0 != []
    ensures p == Pair(Decoded(KeyValue(kv).0, true), Decoded(KeyValue(kv).1, true))
  {
    hide KeyValue, Decoded, UpperBound;
    var before, last := pieces[..|pieces| - 1], pieces[|pieces| - 1];
    if p in Parsed(before) {
      kv := ParsedFrom(before, p);
      assert kv in before;
    } else {
      kv := last;
    }
  }

  // ---------------------------------------------------------------- the whole text

  lemma {:induction false} RawConcat(a: Bytes, b: Bytes, d: Byte)
    ensures RawPieces(a + [d] + b, d) == RawPieces(a, d) + RawPieces(b, d)
  {
    hide RawPieces;
    if b == [] {
      assert a + [d] + b == a + [d];
      RawPush(a, d, d);
      RawNothing(d);
    } else {
      var front, c := b[..|b| - 1], b[|b| - 1];
      RawConcat(a, front, d);
      RawPush(a + [d] + front, c, d);
      RawPush(front, c, d);
      assert a + [d] + front + [c] == a + [d] + b && front + [c] == b;
    }
  }

  lemma {:induction false} KeptConcat(a: seq<Bytes>, b: seq<Bytes>)
    ensures Kept(a + b) == Kept(a) + Kept(b)
  {
    hide Trimmed;
    if b == [] {
      assert a + b == a && Kept(a) + [] == Kept(a);
    } else {
      var front, last := b[..|b| - 1], b[|b| - 1];
      KeptConcat(a, front);
      assert (a + b)[..|a + b| - 1] == a + front && (a + b)[|a + b| - 1] == last;
    }
  }

  lemma TextPieces(params: Params)
    requires params != []
    ensures var front, last := params[..|params| - 1], params[|params| - 1];
            Pieces(QueryString(params), AMPERSAND) == Pieces(QueryString(front), AMPERSAND) + Pieces(Printed(last), AMPERSAND)
  {
    hide RawPieces, Kept, QueryString, Printed, Trimmed;
    var front, last := params[..|params| - 1], params[|params| - 1];
    QueryStep(params);
    if front == [] {
      NoText();
      assert [] + Pieces(Printed(last), AMPERSAND) == Pieces(Printed(last), AMPERSAND);
    } else {
      RawConcat(QueryString(front), Printed(last), AMPERSAND);
      KeptConcat(RawPieces(QueryString(front), AMPERSAND), RawPieces(Printed(last), AMPERSAND));
    }
  }

  lemma NoText()
    ensures Pieces(QueryString([]), AMPERSAND) == []
  {
    RawNothing(AMPERSAND);
    KeptAll([[]]);
    AllBlank([]);
  }

  ghost function TextYieldOf(p: Pair): int { Sum(Pieces(Printed(p), AMPERSAND), Yield()) }

  ghost function TextYields(): Pair -> int { (p: Pair) => TextYieldOf(p) }

  lemma {:induction false} WholeYield(params: Params)
    ensures Sum(Pieces(QueryString(params), AMPERSAND), Yield()) == Sum(params, TextYields())
  {
    hide Pieces, Sum, Printed, QueryString;
    if params == [] {
      NoText();
      SumOne([], Yield());
      SumOne(Pair([], []), TextYields());
    } else {
      var front, last := params[..|params| - 1], params[|params| - 1];
      WholeYield(front);
      TextPieces(params);
      SumConcat(Pieces(QueryString(front), AMPERSAND), Pieces(Printed(last), AMPERSAND), Yield());
      assert params == front + [last];
      SumAppend(front, last, TextYields());
    }
  }

  // Parsing gives no more than the pieces yield, repetitions and empty keys being passed over.
  lemma {:induction false} ParsedWeight(pieces: seq<Bytes>)
    ensures Sum(Parsed(pieces), Weight()) <= Sum(pieces, Yield())
  {
    hide Sum, KeyValue, Decoded, UpperBound;
    if pieces == [] {
      SumOne([], Yield());
      SumOne(Pair([], []), Weight());
    } else {
      var before, kv := pieces[..|pieces| - 1], pieces[|pieces| - 1];
      ParsedWeight(before);
      assert pieces == before + [kv];
      SumAppend(before, kv, Yield());
      var p := Pair(Decoded(KeyValue(kv).0, true), Decoded(KeyValue(kv).1, true));
      EmplacedWeight(Parsed(before), p);
    }
  }

  lemma EmplacedWeight(params: Params, p: Pair)
    ensures Sum(Emplaced(params, p), Weight()) == Sum(params, Weight()) + Weight()(p)
  {
    hide Sum, UpperBound;
    var n := UpperBound(params, p.key);
    assert params == params[..n] + params[n..];
    SumConcat(params[..n], params[n..], Weight());
    SumAppend(params[..n], p, Weight());
    SumConcat(params[..n] + [p], params[n..], Weight());
  }

  // If nothing may grow and all stays the same, each stays the same.
  lemma {:induction false} EachTheSame<T>(s: seq<T>, f: T -> int, g: T -> int)
    requires forall x <- s :: f(x) <= g(x)
    ensures Sum(s, f) <= Sum(s, g)
    ensures Sum(s, f) >= Sum(s, g) ==> forall x <- s :: f(x) == g(x)
  {
    if s != [] { EachTheSame(s[1..], f, g); }
  }

  lemma {:induction false} PieceSource(params: Params, kv: Bytes) returns (q: Pair)
    requires kv in Pieces(QueryString(params), AMPERSAND)
    ensures q in params && kv in Pieces(Printed(q), AMPERSAND)
  {
    hide Pieces, QueryString, Printed;
    if params == [] {
      NoText();
      assert false;
    } else {
      var front, last := params[..|params| - 1], params[|params| - 1];
      TextPieces(params);
      if kv in Pieces(QueryString(front), AMPERSAND) {
        q := PieceSource(front, kv);
        assert q in front;
      } else {
        q := last;
      }
    }
  }

  // The key that is found in the text of a parameter.
  lemma FoundKey(q: Pair, kv: Bytes)
    requires kv in Pieces(Printed(q), AMPERSAND) && (q.key == [] || KeyShape(q.key))
    ensures KeyValue(kv).0 == if q.key == [] then Encoded(q.value) else q.key
  {
    hide RawPieces, Kept, Trimmed, Encoded, Decoded;
    var e := Encoded(q.value);
    if q.key == [] {
      EncodedPlain(q.value);
      if e != [] { assert e[0] in e && e[|e| - 1] in e; }
      var t := TrimmedFront([], e);
      assert [] + [EQUALS] + e == [EQUALS] + e && t == [];
      assert Printed(q) == [EQUALS] + e;
      RawWhole(Printed(q), AMPERSAND);
      OnePiece(Printed(q), AMPERSAND);
      KeysOfPair([], e);
      NothingToSplit();
    } else {
      PrintedPair(q);
      RawWhole(Printed(q), AMPERSAND);
      OnePiece(Printed(q), AMPERSAND);
    }
  }

  lemma NothingToSplit()
    ensures Pieces([], EQUALS) == []
  {
    RawNothing(EQUALS);
    KeptAll([[]]);
    AllBlank([]);
  }

  // ---------------------------------------------------------------- the theorem

  predicate HalfOk(p: Pair) { p.key == [] || (KeyShape(p.key) && |Decoded(p.key, true)| == |p.key|) }

  lemma AllHalfOk(params: Params)
    requires Parsed(Pieces(QueryString(params), AMPERSAND)) == params
    ensures forall p <- params :: HalfOk(p)
  {
    hide Pieces, QueryString, Sum, Parsed, KeyShape, Decoded, Printed;
    forall p <- params ensures TextYields()(p) <= Weight()(p) { TextYield(p); }
    WholeYield(params);
    ParsedWeight(Pieces(QueryString(params), AMPERSAND));
    EachTheSame(params, TextYields(), Weight());
    forall p <- params ensures HalfOk(p) {
      assert TextYields()(p) == Weight()(p);
      TextYield(p);
    }
  }

  // Every key is what another parameter's key, or the value behind an empty key, is decoded to.
  lemma KeySource(params: Params, p: Pair) returns (q: Pair)
    requires Parsed(Pieces(QueryString(params), AMPERSAND)) == params && p in params
    ensures q in params && HalfOk(p) && HalfOk(q) && p.key != []
    ensures p.key == if q.key == [] then q.value else Decoded(q.key, true)
  {
    hide Pieces, QueryString, Parsed, KeyShape, Decoded, Printed, Encoded, KeyValue;
    AllHalfOk(params);
    var pieces := Pieces(QueryString(params), AMPERSAND);
    var kv := ParsedFrom(pieces, p);
    q := PieceSource(params, kv);
    FoundKey(q, kv);
    DecodeEncoded(q.value, true);
    EncodedNothing();
  }

  lemma PlusesGone(k: Bytes, key: Bytes)
    requires key == Decoded(k, true) && |key| == |k| && |Decoded(key, true)| == |key|
    ensures Decoded(key, true) == key
  {
    hide DecodedFrom;
    FullLength(k, 0);
    FullLength(key, 0);
    forall j | 0 <= j < |key| ensures Decoded(key, true)[j] == key[j] {
      assert key[j] == if k[j] == PLUS then SPACE else k[j];
      assert Decoded(key, true)[j] == if key[j] == PLUS then SPACE else key[j];
    }
  }

  lemma SurvivorKeyOk(params: Params, p: Pair)
    requires Parsed(Pieces(QueryString(params), AMPERSAND)) == params && p in params
    ensures KeyOk(p.key)
  {
    hide Pieces, QueryString, Parsed, KeyShape, Decoded;
    var q := KeySource(params, p);
    var r := KeySource(params, q);
    PlusesGone(q.key, p.key);
  }

  // Every multimap: it comes back unchanged exactly if no pair is repeated and every key is of this kind.
  lemma QueryRoundTripExact(params: Params)
    requires Sorted(params)
    ensures Parsed(Pieces(QueryString(params), AMPERSAND)) == params <==> NoRepeats(params) && forall p <- params :: KeyOk(p.key)
  {
    hide Pieces, QueryString, Parsed, KeyOk, Sorted;
    if Parsed(Pieces(QueryString(params), AMPERSAND)) == params {
      forall p <- params ensures KeyOk(p.key) { SurvivorKeyOk(params, p); }
    }
    if forall p <- params :: KeyOk(p.key) {
      QueryRoundTrip(params);
    }
  }

  // A single parameter survives printing and parsing exactly when its key is of this kind.
  lemma OneParameterRoundTrip(p: Pair)
    ensures Parsed(Pieces(QueryString([p]), AMPERSAND)) == [p] <==> KeyOk(p.key)
  {
    hide Pieces, QueryString, Parsed, KeyOk;
    QueryRoundTripExact([p]);
    assert p in [p];
  }
}
