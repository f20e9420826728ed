// The messages of section 7.1 of RFC 9112 that the chunked reader accepts: sizes in digits of either case with leading
// zeros, chunk extensions, and trailer lines, none of which the writer produces.
module ChunkGrammar {
  import opened ByteStrings
  import opened Options
  import opened Chunked

  // ---------------------------------------------------------------- numbers

  lemma DigitsOfEitherCase(v: int)
    requires 0 <= v < 16
    ensures HexDigit(LowerHex(v)) == Some(v) && HexDigit(if v < 10 then ZERO + v else 'A' as int + v - 10) == Some(v)
  {
  }

  // The writer's numbers: lower-case digits, none of them superfluous.
  lemma {:induction false} HexTextShape(n: nat)
    ensures forall c <- HexText(n) :: '0' as int <= c <= '9' as int || 'a' as int <= c <= 'f' as int
    ensures HexText(n)[0] == '0' as int ==> n == 0 && |HexText(n)| == 1
  {
    if n >= 16 { HexTextShape(n / 16); }
  }

  lemma {:induction false} PlaceValue(d: Byte, s: Bytes)
    requires HexDigit(d).Some? && forall c <- s :: HexDigit(c).Some?
    ensures HexNumber([d] + s) == HexDigit(d).value * Power(|s|) + HexNumber(s)
  {
    hide HexDigit, HexNumber, Power;
    PowerIs(|s|);
    if s == [] {
      assert [d] + s == [] + [d];
      NumberMore([], d);
      NoNumber();
    } else {
      var front, last := s[..|s| - 1], s[|s| - 1];
      assert last in s && forall c <- front :: c in s;
      PlaceValue(d, front);
      assert s == front + [last] && [d] + s == [d] + front + [last];
      NumberMore(front, last);
      NumberMore([d] + front, last);
      Sixteenfold(HexDigit(d).value, Power(|front|));
    }
  }

  lemma NoNumber()
    ensures HexNumber([]) == 0
  {
  }

  lemma NumberMore(s: Bytes, c: Byte)
    requires HexDigit(c).Some? && forall x <- s :: HexDigit(x).Some?
    ensures HexNumber(s + [c]) == HexNumber(s) * 16 + HexDigit(c).value
  {
    assert (s + [c])[..|s|] == s;
  }

  lemma PowerIs(n: nat)
    ensures Power(n) == if n == 0 then 1 else 16 * Power(n - 1)
  {
  }

  lemma Sixteenfold(d: int, p: nat)
    ensures d * (16 * p) == d * p * 16
  {
  }

  function Power(n: nat): nat { if n == 0 then 1 else 16 * Power(n - 1) }

  // Space, tab, line feed, vertical tab, form feed and carriage return.
  predicate Spaces(s: Bytes) { forall c <- s :: c in {32, 9, 10, 11, 12, 13} }
  predicate Digits(s: Bytes) { s != [] && forall c <- s :: HexDigit(c).Some? }
  predicate Sign(s: Bytes) { s == [] || s == ['+' as int] || s == ['-' as int] }
  predicate Prefix(s: Bytes) { s == [] || s == [ZERO, 'x' as int] || s == [ZERO, 'X' as int] }

  // What stands behind the digits is neither a digit nor makes a prefix of them.
  predicate Ends(s: Bytes) { s == [] || (HexDigit(s[0]).None? && s[0] != 'x' as int && s[0] != 'X' as int) }

  function Magnitude(digits: Bytes, negative: bool): nat
    requires Digits(digits)
  {
    var v := HexNumber(digits);
    if v > 0xFFFF_FFFF_FFFF_FFFF then 0xFFFF_FFFF_FFFF_FFFF else if negative && v > 0 then 0x1_0000_0000_0000_0000 - v else v
  }

  // All the texts that strtoul converts in base 16, and what to.
  lemma StrtoulOf(spaces: Bytes, sign: Bytes, prefix: Bytes, digits: Bytes, rest: Bytes)
    requires Spaces(spaces) && Sign(sign) && Prefix(prefix) && Digits(digits) && Ends(rest)
    ensures Strtoul(spaces + sign + prefix + digits + rest) == Some(Magnitude(digits, sign == ['-' as int]))
  {
    hide *;
    var number := digits + rest;
    var unsigned := prefix + number;
    var text := sign + unsigned;
    Regrouped(spaces, sign, prefix, digits, rest);
    SignTaken(sign, prefix, digits, rest);
    SpacesSkipped(spaces, text);
    DigitsFirst(digits, rest);
    PrefixTaken(prefix, digits, rest);
    Converted(spaces + text, text, unsigned, number, digits, sign == ['-' as int]);
  }

  lemma Regrouped(spaces: Bytes, sign: Bytes, prefix: Bytes, digits: Bytes, rest: Bytes)
    ensures spaces + sign + prefix + digits + rest == spaces + (sign + (prefix + (digits + rest)))
  {
  }

  lemma DigitsFirst(digits: Bytes, rest: Bytes)
    requires Digits(digits) && Ends(rest)
    ensures LeadingDigits(digits + rest) == |digits| > 0 && (digits + rest)[..|digits|] == digits
  {
    DigitsThenRest(digits, rest);
  }

  lemma SignTaken(sign: Bytes, prefix: Bytes, digits: Bytes, rest: Bytes)
    requires Sign(sign) && Prefix(prefix) && Digits(digits)
    ensures var unsigned := prefix + (digits + rest); var text := sign + unsigned;
            && text != [] && !IsSpace(text[0]) && (Signed(text) <==> sign != []) && (if sign == [] then text else text[1..]) == unsigned
            && (text[0] == '-' as int <==> sign == ['-' as int])
  {
    hide HexDigit, IsSpace;
    assert digits[0] in digits;
    DigitOnly(digits[0]);
    NeitherSign(digits[0]);
    SignsAreText();
    var unsigned := prefix + (digits + rest);
    assert unsigned[0] == if prefix == [] then digits[0] else ZERO;
    if sign == [] {
      assert sign + unsigned == unsigned;
    } else {
      assert (sign + unsigned)[1..] == unsigned && (sign + unsigned)[0] == sign[0];
    }
  }

  lemma Converted(s: Bytes, text: Bytes, unsigned: Bytes, number: Bytes, digits: Bytes, negative: bool)
    requires Digits(digits) && SkipSpaces(s) == text && unsigned == (if Signed(text) then text[1..] else text)
    requires number == (if Prefixed(unsigned) then unsigned[2..] else unsigned)
    requires LeadingDigits(number) == |digits| > 0 && number[..|digits|] == digits
    requires negative <==> text != [] && text[0] == '-' as int
    ensures Strtoul(s) == Some(Magnitude(digits, negative))
  {
    hide HexNumber, LeadingDigits, SkipSpaces, HexDigit, Signed, Prefixed;
    SignedIf(text);
    var v := HexNumber(digits);
    if v <= ULONG_MAX { Negated(v); }
  }

  lemma SignedIf(text: Bytes)
    ensures Signed(text) ==> text != []
    ensures text != [] && text[0] == '-' as int ==> Signed(text)
  {
  }

  lemma Negated(v: nat)
    requires v <= ULONG_MAX
    ensures (ULONG_MAX + 1 - v) % (ULONG_MAX + 1) == if v == 0 then 0 else ULONG_MAX + 1 - v
  {
  }

  lemma NeitherSign(c: Byte)
    requires HexDigit(c).Some?
    ensures c != '+' as int && c != '-' as int
  {
  }

  lemma SignsAreText()
    ensures !IsSpace('+' as int) && !IsSpace('-' as int) && !IsSpace(ZERO) && HexDigit(ZERO).Some?
    ensures HexDigit('x' as int).None? && HexDigit('X' as int).None?
  {
  }

  lemma {:induction false} SpacesSkipped(spaces: Bytes, text: Bytes)
    requires Spaces(spaces) && text != [] && !IsSpace(text[0])
    ensures SkipSpaces(spaces + text) == text
  {
    if spaces == [] {
      assert spaces + text == text;
    } else {
      assert spaces[0] in spaces && forall c <- spaces[1..] :: c in spaces;
      assert (spaces + text)[1..] == spaces[1..] + text;
      SpacesSkipped(spaces[1..], text);
    }
  }

  lemma {:induction false} DigitsThenRest(digits: Bytes, rest: Bytes)
    requires (forall c <- digits :: HexDigit(c).Some?) && Ends(rest)
    ensures LeadingDigits(digits + rest) == |digits|
  {
    hide HexDigit;
    if digits != [] {
      assert digits[0] in digits && forall c <- digits[1..] :: c in digits;
      assert (digits + rest)[1..] == digits[1..] + rest;
      DigitsThenRest(digits[1..], rest);
    } else {
      assert digits + rest == rest;
    }
  }

  lemma PrefixTaken(prefix: Bytes, digits: Bytes, rest: Bytes)
    requires Prefix(prefix) && Digits(digits) && Ends(rest)
    ensures var unsigned := prefix + (digits + rest);
            if prefix == [] then !Prefixed(unsigned) && unsigned == digits + rest
            else Prefixed(unsigned) && unsigned[2..] == digits + rest
  {
    hide HexDigit;
    var number := digits + rest;
    assert digits[0] in digits && (|digits| > 1 ==> digits[1] in digits);
    SignsAreText();
    if prefix == [] {
      assert prefix + number == number;
      assert |number| >= 2 ==> number[1] == if |digits| > 1 then digits[1] else rest[0];
    } else {
      assert (prefix + number)[2] == digits[0] && (prefix + number)[2..] == number;
    }
  }

  // ---------------------------------------------------------------- messages

  datatype ChunkText = ChunkText(size: Bytes, extension: Bytes, data: Bytes)

  predicate LineText(s: Bytes) { LF !in s && NUL !in s }

  // Anything that does not end the size's digits early, on one line.
  predicate Extension(s: Bytes) { Ends(s) && LineText(s) }

  predicate ValidChunk(c: ChunkText) {
    && Digits(c.size) && Extension(c.extension)
    && 0 < HexNumber(c.size) == |c.data| && |c.data| < ULONG_MAX
  }

  // A line that is not the empty one and not too long.
  predicate TrailerLine(line: Bytes) {
    && line != [] && line[|line| - 1] == LF && LF !in line[..|line| - 1]
    && CString(line) != CRLF && |line| <= 8192
  }

  function TextOf(c: ChunkText): Bytes { c.size + c.extension + CRLF + c.data + CRLF }

  function Texts(chunks: seq<ChunkText>): Bytes { if chunks == [] then [] else TextOf(chunks[0]) + Texts(chunks[1..]) }

  function Data(chunks: seq<ChunkText>): Bytes { if chunks == [] then [] else chunks[0].data + Data(chunks[1..]) }

  function Lines(lines: seq<Bytes>): Bytes { if lines == [] then [] else lines[0] + Lines(lines[1..]) }

  // The size line of a chunk, before anything.
  lemma SizeLineOf(size: Bytes, extension: Bytes, rest: Bytes)
    requires Digits(size) && Extension(extension)
    ensures var line := size + extension + CRLF;
            Line(line + rest) == line && Strtoul(CString(line)) == Some(Magnitude(size, false))
  {
    hide Strtoul, Line, CString, HexNumber, HexDigit;
    var line, text := size + extension + CRLF, size + extension + [CR];
    forall c <- size ensures c != LF && c != NUL { NoControl(c); }
    assert forall c <- text :: c in size || c in extension || c == CR;
    assert line == text + [LF];
    LineOf(text, rest);
    forall c <- line ensures c != NUL { assert c in text || c == LF; }
    CStringWhole(line);
    EndsBeforeCr(extension);
    assert [] + [] + [] + size + (extension + CRLF) == line;
    StrtoulOf([], [], [], size, extension + CRLF);
  }

  lemma NoControl(c: Byte)
    requires HexDigit(c).Some?
    ensures c != LF && c != NUL && c != CR
  {
  }

  lemma EndsBeforeCr(extension: Bytes)
    requires Extension(extension)
    ensures Ends(extension + CRLF)
  {
  }

  lemma ChunkRead(c: ChunkText, after: Bytes, content: Bytes)
    requires ValidChunk(c)
    ensures Body(TextOf(c) + after, content) == Body(after, content + c.data)
  {
    hide HexNumber, Strtoul, Body, CString, Line, HexDigit, Digits, Extension;
    var line, rest := c.size + c.extension + CRLF, c.data + (CRLF + after);
    var s := line + rest;
    assert TextOf(c) + after == s;
    SizeLineOf(c.size, c.extension, rest);
    assert s[|line|..] == rest && rest[..|c.data|] == c.data && rest[|c.data|..] == CRLF + after;
    EmptyLine(after);
    assert (CRLF + after)[2..] == after;
    BodyChunk(s, |c.data|, content);
  }

  lemma {:induction false} TrailerRead(lines: seq<Bytes>, after: Bytes, content: Bytes)
    requires forall line <- lines :: TrailerLine(line)
    ensures Trailer(Lines(lines) + (CRLF + after), content) == Complete(content, after)
  {
    hide CString, Line;
    EmptyLine(after);
    if lines == [] {
      assert [] + (CRLF + after) == CRLF + after && (CRLF + after)[2..] == after;
    } else {
      var line, rest := lines[0], Lines(lines[1..]) + (CRLF + after);
      assert TrailerLine(line) && forall l <- lines[1..] :: l in lines;
      assert Lines(lines) + (CRLF + after) == line + rest;
      assert line == line[..|line| - 1] + [LF];
      LineOf(line[..|line| - 1], rest);
      assert (line + rest)[|line|..] == rest;
      TrailerRead(lines[1..], after, content);
    }
  }

  // Every such message is read as its chunks' data joined, and exactly the bytes behind it stay unread.
  lemma {:induction false} MessageRead(chunks: seq<ChunkText>, zeros: Bytes, extension: Bytes, lines: seq<Bytes>, after: Bytes, content: Bytes)
    requires forall c <- chunks :: ValidChunk(c)
    requires Digits(zeros) && HexNumber(zeros) == 0 && Extension(extension) && forall line <- lines :: TrailerLine(line)
    ensures Body(Texts(chunks) + (zeros + extension + CRLF + (Lines(lines) + (CRLF + after))), content)
         == Complete(content + Data(chunks), after)
  {
    hide Body, HexNumber, ValidChunk, TrailerLine, Extension, Digits, Strtoul, CString, Line;
    var line, rest := zeros + extension + CRLF, Lines(lines) + (CRLF + after);
    if chunks == [] {
      var s := line + rest;
      assert [] + s == s && content + [] == content;
      SizeLineOf(zeros, extension, rest);
      assert s[|line|..] == rest;
      BodyEnds(s, content);
      TrailerRead(lines, after, content);
    } else {
      var c := chunks[0];
      assert forall d <- chunks[1..] :: d in chunks;
      assert Texts(chunks) + (line + rest) == TextOf(c) + (Texts(chunks[1..]) + (line + rest));
      ChunkRead(c, Texts(chunks[1..]) + (line + rest), content);
      MessageRead(chunks[1..], zeros, extension, lines, after, content + c.data);
      assert content + c.data + Data(chunks[1..]) == content + (c.data + Data(chunks[1..]));
    }
  }

  // A trailer line that is too long ends the reading.
  lemma LongLineFails(line: Bytes, after: Bytes, content: Bytes)
    requires line != [] && line[|line| - 1] == LF && LF !in line[..|line| - 1] && |line| > 8192
    ensures Trailer(line + after, content) == Broken(content)
  {
    assert line == line[..|line| - 1] + [LF];
    LineOf(line[..|line| - 1], after);
    LongIsNotEmpty(line);
  }

  lemma LongIsNotEmpty(line: Bytes)
    requires |line| > 2 && LF !in line[..|line| - 1]
    ensures CString(line) != CRLF
  {
    CStringPart(line);
    assert line[1] == line[..|line| - 1][1];
  }

  // Without a digit nothing is converted.
  lemma NothingConverted(spaces: Bytes, sign: Bytes, rest: Bytes)
    requires Spaces(spaces) && Sign(sign) && (rest == [] || (HexDigit(rest[0]).None? && !IsSpace(rest[0]) && Sign([rest[0]]) == false))
    ensures Strtoul(spaces + sign + rest) == None
  {
    hide HexDigit, IsSpace;
    SignsAreText();
    assert spaces + sign + rest == spaces + (sign + rest);
    if sign + rest == [] {
      OnlySpaces(spaces);
      assert spaces + [] == spaces;
    } else {
      SpacesSkipped(spaces, sign + rest);
      if sign != [] { assert (sign + rest)[1..] == rest; } else { assert sign + rest == rest; }
    }
  }

  lemma {:induction false} OnlySpaces(spaces: Bytes)
    requires Spaces(spaces)
    ensures SkipSpaces(spaces) == []
  {
    if spaces != [] {
      assert spaces[0] in spaces && forall c <- spaces[1..] :: c in spaces;
      OnlySpaces(spaces[1..]);
    }
  }
}
