// Chunked transfer coding of httplib (section 7.1 of RFC 9112), writing with the identity compressor and
// reading back through the line reader.
module Chunked {
  import opened ByteStrings
  import opened Options

  const ULONG_MAX: nat := 0xFFFF_FFFF_FFFF_FFFF
  const HEADER_MAX_LENGTH: nat := 8192
  const RECV_BUFSIZ: nat := 4096
  const ZERO: Byte := '0' as int
  const CRLF: Bytes := [CR, LF]

  // ---------------------------------------------------------------- numbers in hexadecimal

  function LowerHex(v: int): Byte
    requires 0 <= v < 16
  {
    if v < 10 then ZERO + v else 'a' as int + v - 10
  }

  function HexText(n: nat): (s: Bytes)
    ensures s != []
  {
    if n < 16 then [LowerHex(n)] else HexText(n / 16) + [LowerHex(n % 16)]
  }

  method FromIToHex(number: nat) returns (ret: Bytes)
    ensures ret == HexText(number)
  {
    var n := number;
    ret := [];
    while true
      invariant HexText(number) == (if ret == [] then HexText(n) else HexText(n) + ret)
      decreases n
    {
      var rest := n / 16;
      assert HexText(n) == if rest == 0 then [LowerHex(n % 16)] else HexText(rest) + [LowerHex(n % 16)];
      ret := [LowerHex(n % 16)] + ret;
      n := rest;
      if n == 0 {
        return;
      }
    }
  }

  function HexNumber(s: Bytes): nat
    requires forall c <- s :: HexDigit(c).Some?
  {
    if s == [] then 0 else
      assert s[|s| - 1] in s;
      HexNumber(s[..|s| - 1]) * 16 + HexDigit(s[|s| - 1]).value
  }

  function LeadingDigits(s: Bytes): (k: nat)
    ensures k <= |s| && (forall i | 0 <= i < k :: HexDigit(s[i]).Some?) && (k < |s| ==> HexDigit(s[k]).None?)
  {
    if s == [] || HexDigit(s[0]).None? then 0 else 1 + LeadingDigits(s[1..])
  }

  predicate IsSpace(c: Byte) { c == ' ' as int || 9 <= c <= 13 }

  function SkipSpaces(s: Bytes): Bytes { if s != [] && IsSpace(s[0]) then SkipSpaces(s[1..]) else s }

  predicate Signed(s: Bytes) { s != [] && (s[0] == '-' as int || s[0] == '+' as int) }

  predicate Prefixed(s: Bytes) {
    |s| >= 3 && s[0] == ZERO && (s[1] == 'x' as int || s[1] == 'X' as int) && HexDigit(s[2]).Some?
  }

  // strtoul in base 16 on a C string; None when it converts nothing.
  function Strtoul(s: Bytes): (r: Option<nat>)
    ensures r.Some? ==> r.value <= ULONG_MAX
  {
    var text := SkipSpaces(s);
    var unsigned := if Signed(text) then text[1..] else text;
    var digits := if Prefixed(unsigned) then unsigned[2..] else unsigned;
    var k := LeadingDigits(digits);
    if k == 0 then None
    else
      var v := HexNumber(digits[..k]);
      if v > ULONG_MAX then Some(ULONG_MAX)
      else if Signed(text) && text[0] == '-' as int then Some((ULONG_MAX + 1 - v) % (ULONG_MAX + 1))
      else Some(v)
  }

  lemma {:induction false} HexTextNumber(n: nat)
    ensures forall c <- HexText(n) :: HexDigit(c).Some? && c != LF && c != NUL
    ensures HexNumber(HexText(n)) == n
  {
    if n >= 16 {
      HexTextNumber(n / 16);
      var s := HexText(n);
      assert s[..|s| - 1] == HexText(n / 16);
    } else {
      assert [LowerHex(n)][..0] == [];
    }
  }

  lemma {:induction false} LeadingAll(digits: Bytes, c: Byte, rest: Bytes)
    requires (forall d <- digits :: HexDigit(d).Some?) && HexDigit(c).None?
    ensures LeadingDigits(digits + [c] + rest) == |digits|
  {
    var s := digits + [c] + rest;
    if digits != [] {
      assert s[1..] == digits[1..] + [c] + rest && s[0] == digits[0] && digits[0] in digits;
      LeadingAll(digits[1..], c, rest);
    }
  }

  // A chunk's size line is read back as its size.
  lemma StrtoulHexText(n: nat)
    requires n <= ULONG_MAX
    ensures Strtoul(HexText(n) + CRLF) == Some(n)
  {
    hide HexText, HexNumber, LeadingDigits, SkipSpaces, HexDigit, IsSpace;
    HexTextNumber(n);
    var h := HexText(n);
    var s := h + CRLF;
    assert s == h + [CR] + [LF] && s[0] == h[0] && h[0] in h;
    DigitOnly(h[0]);
    DigitOnly(CR);
    LeadingAll(h, CR, [LF]);
    NoSpaces(s);
    if |h| > 1 {
      assert s[1] == h[1] && h[1] in h;
      DigitOnly(h[1]);
    }
    assert s[..|h|] == h;
  }

  lemma DigitOnly(c: Byte)
    ensures HexDigit(c).Some? ==> !IsSpace(c) && c != '-' as int && c != '+' as int && c != 'x' as int && c != 'X' as int
    ensures c == CR ==> HexDigit(c).None? && c != 'x' as int && c != 'X' as int
  {
  }

  lemma NoSpaces(s: Bytes)
    requires s != [] && !IsSpace(s[0])
    ensures SkipSpaces(s) == s
  {
  }

  // ---------------------------------------------------------------- lines

  // What a C string function sees of a buffer.
  function CString(s: Bytes): Bytes { if s == [] || s[0] == NUL then [] else [s[0]] + CString(s[1..]) }

  // Up to and including the first line feed, or everything.
  function Line(s: Bytes): (line: Bytes)
    ensures line <= s && (s != [] ==> line != [])
  {
    if s == [] then [] else if s[0] == LF then [LF] else [s[0]] + Line(s[1..])
  }

  lemma {:induction false} LineOf(text: Bytes, rest: Bytes)
    requires LF !in text
    ensures Line(text + [LF] + rest) == text + [LF]
  {
    var s := text + [LF] + rest;
    if text != [] {
      assert s[0] == text[0] && text[0] in text && forall c <- text[1..] :: c in text;
      assert s[1..] == text[1..] + [LF] + rest;
      LineOf(text[1..], rest);
    }
  }

  lemma {:induction false} CStringWhole(s: Bytes)
    requires NUL !in s
    ensures CString(s) == s
  {
    if s != [] {
      assert s[0] in s && forall c <- s[1..] :: c in s;
      CStringWhole(s[1..]);
    }
  }

  // ---------------------------------------------------------------- reading

  // What a reader makes of the bytes that will arrive: the content, and the bytes it leaves unread; or the
  // part of the content delivered before it gives up.
  datatype Outcome = Complete(content: Bytes, rest: Bytes) | Broken(content: Bytes)

  function Body(s: Bytes, content: Bytes): Outcome
    decreases |s|
  {
    if s == [] then Broken(content)
    else
      var line := Line(s);
      var rest := s[|line|..];
      var n := Strtoul(CString(line));
      if n.None? || n.value == ULONG_MAX then Broken(content)
      else if n.value == 0 then Trailer(rest, content)
      else if |rest| < n.value then Broken(content + rest)
      else Chunk(rest, n.value, content)
  }

  // A chunk's content, the line end behind it, and what follows.
  function Chunk(s: Bytes, n: nat, content: Bytes): Outcome
    requires n <= |s|
    decreases |s|
  {
    var more := content + s[..n];
    var rest := s[n..];
    var line := Line(rest);
    if rest == [] || CString(line) != CRLF then Broken(more) else Body(rest[|line|..], more)
  }

  function Trailer(s: Bytes, content: Bytes): Outcome
    decreases |s|
  {
    if s == [] then Broken(content)
    else
      var line := Line(s);
      if CString(line) == CRLF then Complete(content, s[|line|..])
      else if |line| > HEADER_MAX_LENGTH then Broken(content)
      else Trailer(s[|line|..], content)
  }

  // A connection, as the bytes that will still arrive before it is closed or, if it is failing, breaks.
  class Stream {
    const failing: bool
    var rest: Bytes

    constructor (rest: Bytes, failing: bool)
      ensures this.rest == rest && this.failing == failing
    {
      this.rest, this.failing := rest, failing;
    }

    // However many bytes happen to be there, up to `max`; none or an error at the end.
    method Read(max: nat) returns (bytes: Bytes, error: bool)
      modifies this
      ensures old(rest) == bytes + rest && |bytes| <= max
      ensures max > 0 && old(rest) != [] ==> bytes != []
      ensures error <==> max > 0 && old(rest) == [] && failing
    {
      if max == 0 || rest == [] {
        return [], max > 0 && failing;
      }
      error := false;
      var n: nat :| 1 <= n <= max && n <= |rest|;
      bytes := rest[..n];
      rest := rest[n..];
    }
  }

  class LineReader {
    const strm: Stream
    const fixedBuffer: array<Byte>
    var fixedBufferUsedSize: nat
    var glowableBuffer: Bytes

    ghost predicate Valid()
      reads this, fixedBuffer
    {
      && fixedBuffer.Length >= 2 && fixedBufferUsedSize < fixedBuffer.Length
      && (fixedBufferUsedSize > 0 ==> fixedBuffer[fixedBufferUsedSize] == NUL)
      && (glowableBuffer != [] ==> fixedBufferUsedSize == fixedBuffer.Length - 1)
    }

    // The line read last: ptr() and size().
    function Contents(): Bytes
      requires fixedBufferUsedSize <= fixedBuffer.Length
      reads this, fixedBuffer
    {
      if glowableBuffer == [] then fixedBuffer[..fixedBufferUsedSize] else glowableBuffer
    }

    constructor (strm: Stream, fixedBuffer: array<Byte>)
      requires fixedBuffer.Length >= 2
      ensures Valid() && this.strm == strm && this.fixedBuffer == fixedBuffer
    {
      this.strm, this.fixedBuffer := strm, fixedBuffer;
      fixedBufferUsedSize, glowableBuffer := 0, [];
    }

    method Append(c: Byte)
      requires Valid()
      modifies this, fixedBuffer
      ensures Valid() && Contents() == old(Contents()) + [c]
    {
      if fixedBufferUsedSize < fixedBuffer.Length - 1 {
        fixedBuffer[fixedBufferUsedSize] := c;
        fixedBufferUsedSize := fixedBufferUsedSize + 1;
        fixedBuffer[fixedBufferUsedSize] := NUL;
      } else {
        if glowableBuffer == [] {
          assert fixedBuffer[fixedBufferUsedSize] == NUL;
          glowableBuffer := fixedBuffer[..fixedBufferUsedSize];
        }
        glowableBuffer := glowableBuffer + [c];
      }
    }

    method GetLine() returns (ok: bool)
      requires Valid()
      modifies this, fixedBuffer, strm
      ensures Valid() && ok == Readable(old(strm.rest), strm.failing)
      ensures ok ==> Contents() == Line(old(strm.rest)) && strm.rest == old(strm.rest)[|Contents()|..]
    {
      fixedBufferUsedSize := 0;
      glowableBuffer := [];
      ghost var all := strm.rest;
      var i := 0;
      while true
        invariant Valid() && i <= |all| && strm.rest == all[i..]
        invariant Contents() == all[..i] && LF !in all[..i]
        decreases |all| - i
      {
        var bytes, error := strm.Read(1);
        if error {
          assert all[..i] == all;
          return false;
        }
        if bytes == [] {
          LineToEnd(all);
          return i > 0;
        }
        assert bytes[0] == all[i] && strm.rest == all[i + 1..];
        Append(bytes[0]);
        assert all[..i] + [all[i]] == all[..i + 1];
        if bytes[0] == LF {
          LineTo(all, i);
          return true;
        }
        i := i + 1;
      }
    }
  }

  // There is a line: what a connection that breaks in the middle of one had sent of it is lost.
  predicate Readable(s: Bytes, failing: bool) { s != [] && (failing ==> LF in s) }

  lemma LineTo(s: Bytes, i: nat)
    requires i < |s| && s[i] == LF && LF !in s[..i]
    ensures Line(s) == s[..i + 1]
  {
    hide Line;
    var text, rest := s[..i], s[i + 1..];
    assert s == text + [LF] + rest && text + [LF] == s[..i + 1];
    LineOf(text, rest);
  }

  lemma {:induction false} LineToEnd(s: Bytes)
    requires LF !in s[..|s|]
    ensures Line(s) == s
  {
    if s != [] {
      assert s[0] in s[..|s|] && forall c <- s[1..][..|s| - 1] :: c in s[..|s|];
      LineToEnd(s[1..]);
    }
  }

  // Unless the receiver refuses something.
  method ReadContentWithLength(strm: Stream, len: nat, takesAll: bool) returns (ok: bool, received: Bytes)
    modifies strm
    ensures ok ==> len <= |old(strm.rest)| && received == old(strm.rest)[..len] && strm.rest == old(strm.rest)[len..]
    ensures !ok ==> received <= old(strm.rest) && |received| <= len
    ensures !ok && takesAll ==> |old(strm.rest)| < len && received == old(strm.rest)
  {
    var r := 0;
    received := [];
    while r < len
      invariant r == |received| <= len && old(strm.rest) == received + strm.rest
      decreases len - r
    {
      var n, error := strm.Read(if len - r < RECV_BUFSIZ then len - r else RECV_BUFSIZ);
      if n == [] {
        return false, received;
      }
      var willing: bool := *;
      if !takesAll && !willing {
        return false, received;
      }
      received := received + n;
      r := r + |n|;
    }
    ok := true;
  }

  // One chunk of n bytes, the line end behind it, and the next chunk's size line.
  method ReadChunk(lineReader: LineReader, n: nat, takesAll: bool) returns (ok: bool, received: Bytes)
    requires lineReader.Valid()
    modifies lineReader, lineReader.fixedBuffer, lineReader.strm
    ensures lineReader.Valid()
    ensures ChunkRead(old(lineReader.strm.rest), lineReader.strm.failing, takesAll, n, ok, received)
    ensures ok ==> var next := NextSize(old(lineReader.strm.rest), n);
              next != [] && lineReader.Contents() == Line(next) && lineReader.strm.rest == next[|Line(next)|..]
  {
    hide Line, CString;
    ok, received := ReadContentWithLength(lineReader.strm, n, takesAll);
    if !ok {
      return;
    }
    ghost var s := old(lineReader.strm.rest);
    ok := lineReader.GetLine();
    if !ok || CString(lineReader.Contents()) != CRLF {
      ok := false;
      return;
    }
    ok := lineReader.GetLine();
  }

  function NextSize(s: Bytes, n: nat): Bytes { if n <= |s| then s[n..][|Line(s[n..])|..] else [] }

  ghost predicate ChunkRead(s: Bytes, failing: bool, takesAll: bool, n: nat, ok: bool, received: Bytes) {
    if ok then
      && n <= |s| && received == s[..n]
      && Readable(s[n..], failing) && CString(Line(s[n..])) == CRLF && Readable(NextSize(s, n), failing)
    else
      && received <= s && |received| <= n
      && (takesAll ==>
           if |s| < n then received == s
           else received == s[..n]
                && !(Readable(s[n..], failing) && CString(Line(s[n..])) == CRLF && Readable(NextSize(s, n), failing)))
  }

  lemma BodyStep(s: Bytes, failing: bool, takesAll: bool, n: nat, ok: bool, received: Bytes, content: Bytes)
    requires s != [] && Strtoul(CString(Line(s))) == Some(n) && 0 < n < ULONG_MAX
    requires ChunkRead(s[|Line(s)|..], failing, takesAll, n, ok, received)
    ensures ok ==> Body(s, content) == Body(NextSize(s[|Line(s)|..], n), content + received) && |NextSize(s[|Line(s)|..], n)| < |s|
    ensures !ok ==> content + received <= Body(s, content).content
    ensures !ok && takesAll ==> Body(s, content) == Broken(content + received)
  {
    hide Line, CString, Strtoul;
    var rest := s[|Line(s)|..];
    BodyEnds([], content + received);
    if n <= |rest| {
      var behind, next := rest[n..], NextSize(rest, n);
      if !Readable(behind, failing) { Unreadable(behind, failing, content + rest[..n]); }
      if !Readable(next, failing) { Unreadable(next, failing, content + rest[..n]); }
      BodyExtends(next, content + rest[..n]);
      assert received <= rest[..n] || ok;
    }
  }

  // A line cut short by an error is of no use whether it is read or not.
  lemma Unreadable(s: Bytes, failing: bool, content: Bytes)
    requires !Readable(s, failing)
    ensures CString(Line(s)) != CRLF && Body(s, content) == Trailer(s, content) == Broken(content)
  {
    hide Strtoul;
    if s != [] {
      assert forall c <- s[..|s|] :: c in s;
      LineToEnd(s);
      CStringPart(s);
      assert content + [] == content;
    }
  }

  lemma {:induction false} CStringPart(s: Bytes)
    ensures CString(s) <= s
  {
    if s != [] && s[0] != NUL { CStringPart(s[1..]); }
  }

  // What was delivered stays delivered.
  lemma {:induction false} BodyExtends(s: Bytes, content: Bytes)
    ensures content <= Body(s, content).content
    decreases |s|
  {
    hide Strtoul, CString, Line;
    if s != [] {
      var rest := s[|Line(s)|..];
      var n := Strtoul(CString(Line(s)));
      TrailerContent(rest, content);
      if n.Some? && 0 < n.value < ULONG_MAX && n.value <= |rest| {
        var behind := rest[n.value..];
        if behind != [] { BodyExtends(behind[|Line(behind)|..], content + rest[..n.value]); }
      }
    }
  }

  lemma {:induction false} TrailerContent(s: Bytes, content: Bytes)
    ensures Trailer(s, content).content == content
    decreases |s|
  {
    hide CString, Line;
    if s != [] { TrailerContent(s[|Line(s)|..], content); }
  }

  lemma BodyEnds(s: Bytes, content: Bytes)
    ensures s == [] ==> Body(s, content) == Broken(content)
    ensures s != [] ==> var n := Strtoul(CString(Line(s)));
              && (n.None? || n.value == ULONG_MAX ==> Body(s, content) == Broken(content))
              && (n == Some(0) ==> Body(s, content) == Trailer(s[|Line(s)|..], content))
  {
  }

  // read_content_chunked; the trailer's lines are skipped over, where the source also parses them as headers.
  method ReadContentChunked(strm: Stream, bufsiz: nat, takesAll: bool) returns (ok: bool, received: Bytes)
    requires bufsiz >= 2
    modifies strm
    ensures var outcome := Body(old(strm.rest), []);
            if ok then outcome == Complete(received, strm.rest)
            else received <= outcome.content && (takesAll ==> outcome == Broken(received))
  {
    hide Line, CString, Strtoul, Trailer, Body, ChunkRead, NextSize;
    var buf := new Byte[bufsiz];
    var lineReader := new LineReader(strm, buf);
    received := [];
    ghost var at := strm.rest;
    var some := lineReader.GetLine();
    if !some {
      Unreadable(at, strm.failing, []);
      return false, received;
    }
    while true
      invariant fresh(lineReader) && fresh(buf) && lineReader.Valid() && lineReader.strm == strm && lineReader.fixedBuffer == buf
      invariant at != [] && lineReader.Contents() == Line(at) && strm.rest == at[|Line(at)|..]
      invariant Body(at, received) == Body(old(strm.rest), [])
      decreases |at|
    {
      BodyEnds(at, received);
      var chunkLen := Strtoul(CString(lineReader.Contents()));
      if chunkLen.None? || chunkLen.value == ULONG_MAX {
        return false, received;
      }
      if chunkLen.value == 0 {
        ok := SkipTrailer(lineReader, received);
        TrailerContent(at[|Line(at)|..], received);
        return ok, received;
      }
      var whole, content := ReadChunk(lineReader, chunkLen.value, takesAll);
      BodyStep(at, strm.failing, takesAll, chunkLen.value, whole, content, received);
      received := received + content;
      if !whole {
        return false, received;
      }
      at := NextSize(at[|Line(at)|..], chunkLen.value);
    }
  }

  method SkipTrailer(lineReader: LineReader, ghost content: Bytes) returns (ok: bool)
    requires lineReader.Valid()
    modifies lineReader, lineReader.fixedBuffer, lineReader.strm
    ensures match Trailer(old(lineReader.strm.rest), content)
            case Complete(c, rest) => ok && c == content && lineReader.strm.rest == rest
            case Broken(c) => !ok && c == content
  {
    hide Line, CString;
    ghost var at := lineReader.strm.rest;
    ok := lineReader.GetLine();
    if !ok {
      Unreadable(at, lineReader.strm.failing, content);
      return;
    }
    while CString(lineReader.Contents()) != CRLF
      invariant lineReader.Valid() && at != []
      invariant lineReader.Contents() == Line(at) && lineReader.strm.rest == at[|Line(at)|..]
      invariant Trailer(at, content) == Trailer(old(lineReader.strm.rest), content)
      decreases |at|
    {
      if |lineReader.Contents()| > HEADER_MAX_LENGTH {
        return false;
      }
      at := lineReader.strm.rest;
      var some := lineReader.GetLine();
      if !some {
        Unreadable(at, lineReader.strm.failing, content);
        return false;
      }
    }
    ok := true;
  }

  // ---------------------------------------------------------------- writing

  // What a content provider does with its sink; each of its calls does a number of these things.
  datatype Event = Piece(data: Bytes) | End

  function ChunkOf(data: Bytes): Bytes { HexText(|data|) + CRLF + data + CRLF }

  function Emitted(e: Event): Bytes {
    match e
    case Piece(data) => if data == [] then [] else ChunkOf(data)
    case End => [ZERO] + CRLF + CRLF
  }

  function Output(events: seq<Event>): Bytes {
    if events == [] then [] else Output(events[..|events| - 1]) + Emitted(events[|events| - 1])
  }

  // The writer goes on as long as the provider's last act was to write something.
  predicate Going(events: seq<Event>) {
    events == [] || (events[|events| - 1].Piece? && events[|events| - 1].data != [])
  }

  // How much data the provider has handed over.
  function Provided(events: seq<Event>): nat {
    if events == [] then 0 else
      Provided(events[..|events| - 1]) + match events[|events| - 1] case Piece(data) => |data| case End => 0
  }

  // What has been done when the writer stops: it looks only between two calls of the provider.
  function Executed(script: seq<seq<Event>>, events: seq<Event>): seq<Event> {
    if script == [] || !Going(events) then events else Executed(script[1..], events + script[0])
  }

  // A connection that takes everything, or may fail at some point.
  class Sink {
    const reliable: bool
    var written: Bytes

    constructor (reliable: bool)
      ensures written == [] && this.reliable == reliable
    {
      written, this.reliable := [], reliable;
    }

    method WriteData(d: Bytes) returns (ok: bool)
      modifies this
      ensures ok ==> written == old(written) + d
      ensures reliable ==> ok
    {
      var lucky: bool := *;
      ok := reliable || lucky;
      if ok {
        written := written + d;
      } else {
        var n: nat :| n <= |d|;
        written := written + d[..n];
      }
    }
  }

  datatype Error = Success | WriteError | Canceled

  // The variables that the sink's functions share.
  class Writer {
    const strm: Sink
    var offset: nat
    var dataAvailable: bool
    var ok: bool
    // What the provider did while everything could be written.
    ghost var events: seq<Event>

    ghost predicate Valid()
      reads this, strm
    {
      ok ==> dataAvailable == Going(events) && strm.written == Output(events) && offset == Provided(events)
    }

    constructor (strm: Sink)
      requires strm.written == []
      ensures Valid() && ok && events == [] && this.strm == strm
    {
      this.strm := strm;
      offset, dataAvailable, ok, events := 0, true, true, [];
    }

    method Write(d: Bytes)
      requires Valid()
      modifies this, strm
      ensures Valid() && (ok ==> old(ok) && events == old(events) + [Piece(d)]) && (strm.reliable ==> ok == old(ok))
    {
      hide Output, Provided;
      if !ok {
        return;
      }
      dataAvailable := |d| > 0;
      offset := offset + |d|;
      if d != [] {
        var size := FromIToHex(|d|);
        ok := strm.WriteData(size + CRLF + d + CRLF);
      }
      events := events + [Piece(d)];
      OutputStep(old(events), Piece(d));
    }

    method Done()
      requires Valid()
      modifies this, strm
      ensures Valid() && (ok ==> old(ok) && events == old(events) + [End]) && (strm.reliable ==> ok == old(ok))
    {
      hide Output, Provided;
      if !ok {
        return;
      }
      dataAvailable := false;
      var marked := strm.WriteData([ZERO] + CRLF);
      if !marked {
        ok := false;
      }
      var ended := strm.WriteData(CRLF);
      if !ended {
        ok := false;
      }
      events := events + [End];
      OutputStep(old(events), End);
      assert old(strm.written) + ([ZERO] + CRLF) + CRLF == old(strm.written) + ([ZERO] + CRLF + CRLF);
    }

    // One call of the provider.
    method Provide(acts: seq<Event>)
      requires Valid()
      modifies this, strm
      ensures Valid() && (ok ==> old(ok) && events == old(events) + acts) && (strm.reliable ==> ok == old(ok))
    {
      for i := 0 to |acts|
        invariant Valid() && (ok ==> old(ok) && events == old(events) + acts[..i]) && (strm.reliable ==> ok == old(ok))
      {
        match acts[i] {
          case Piece(data) => Write(data);
          case End => Done();
        }
        assert acts[..i + 1] == acts[..i] + [acts[i]];
      }
      assert acts[..|acts|] == acts;
    }
  }

  // write_content_chunked with a provider that acts out the script and then reports failure.
  method WriteContentChunked(strm: Sink, script: seq<seq<Event>>) returns (error: Error)
    requires strm.written == []
    modifies strm
    ensures error.Success? ==> !Going(Executed(script, [])) && strm.written == Output(Executed(script, []))
    ensures error.Canceled? ==> Going(Executed(script, []))
    ensures error.WriteError? ==> !strm.reliable
  {
    var writer := new Writer(strm);
    var k := 0;
    while writer.dataAvailable
      invariant fresh(writer) && writer.strm == strm && writer.Valid() && writer.ok && k <= |script|
      invariant Executed(script[k..], writer.events) == Executed(script, [])
      decreases |script| - k
    {
      if k == |script| {
        return Canceled;
      }
      writer.Provide(script[k]);
      if !writer.ok {
        return WriteError;
      }
      k := k + 1;
    }
    error := Success;
  }

  lemma OutputStep(events: seq<Event>, e: Event)
    ensures Output(events + [e]) == Output(events) + Emitted(e)
    ensures Provided(events + [e]) == Provided(events) + if e.Piece? then |e.data| else 0
  {
    assert (events + [e])[..|events|] == events;
  }

  // ---------------------------------------------------------------- the round trip

  // The pieces before the first end, joined.
  function Content(events: seq<Event>): Bytes {
    if events == [] || events[0].End? then [] else events[0].data + Content(events[1..])
  }

  lemma {:induction false} OutputFront(events: seq<Event>)
    requires events != []
    ensures Output(events) == Emitted(events[0]) + Output(events[1..])
  {
    hide Output, Emitted, Provided;
    var front, first, last := events[..|events| - 1], events[0], events[|events| - 1];
    assert events == front + [last];
    OutputStep(front, last);
    OutputNothing();
    if front == [] {
      assert events[1..] == [];
      assert Output([]) + Emitted(last) == Emitted(first) + Output([]);
    } else {
      OutputFront(front);
      assert events[1..] == front[1..] + [last];
      OutputStep(front[1..], last);
      Associate(Emitted(first), Output(front[1..]), Emitted(last));
    }
  }

  lemma Associate(a: Bytes, b: Bytes, c: Bytes)
    ensures a + b + c == a + (b + c)
  {
  }

  // A size line, and an empty line, before anything.
  lemma SizeLine(n: nat, rest: Bytes)
    requires n <= ULONG_MAX
    ensures var line := HexText(n) + CRLF; Line(line + rest) == line && Strtoul(CString(line)) == Some(n)
  {
    hide Strtoul, Line, CString, HexText;
    var h := HexText(n);
    HexTextNumber(n);
    StrtoulHexText(n);
    assert h + CRLF == (h + [CR]) + [LF];
    assert forall c <- h + [CR] :: c != LF && c != NUL;
    LineOf(h + [CR], rest);
    CStringWhole(h + CRLF);
  }

  lemma EmptyLine(rest: Bytes)
    ensures Line(CRLF + rest) == CRLF && CString(CRLF) == CRLF
  {
    hide Line, CString;
    assert [CR] + [LF] == CRLF && LF !in [CR];
    LineOf([CR], rest);
    CStringWhole(CRLF);
  }

  // A chunk in front of anything is read as one.
  lemma ReadChunkBack(data: Bytes, after: Bytes, content: Bytes)
    requires 0 < |data| < ULONG_MAX
    ensures Body(ChunkOf(data) + after, content) == Body(after, content + data)
  {
    hide HexText, Strtoul, Body, CString, Line;
    var line := HexText(|data|) + CRLF;
    var rest := data + (CRLF + after);
    var s := line + rest;
    assert ChunkOf(data) + after == s;
    SizeLine(|data|, rest);
    assert s[|line|..] == rest && rest[..|data|] == data && rest[|data|..] == CRLF + after;
    EmptyLine(after);
    assert (CRLF + after)[2..] == after;
    BodyChunk(s, |data|, content);
  }

  lemma BodyChunk(s: Bytes, n: nat, content: Bytes)
    requires s != [] && Strtoul(CString(Line(s))) == Some(n) && 0 < n < ULONG_MAX && n <= |s[|Line(s)|..]|
    ensures var rest := s[|Line(s)|..]; var behind := rest[n..];
            behind != [] && CString(Line(behind)) == CRLF ==>
              Body(s, content) == Body(behind[|Line(behind)|..], content + rest[..n])
  {
    hide Line, CString, Strtoul;
  }

  // The end marker in front of anything completes the content.
  lemma ReadEndBack(after: Bytes, content: Bytes)
    ensures Body(Emitted(End) + after, content) == Complete(content, after)
  {
    hide Strtoul, Line, CString, Body;
    var line, rest := [ZERO] + CRLF, CRLF + after;
    var s := line + rest;
    assert Emitted(End) + after == s && HexText(0) == [ZERO];
    SizeLine(0, rest);
    assert s[|line|..] == rest && rest[2..] == after;
    EmptyLine(after);
    BodyEnds(s, content);
  }

  // The reader succeeds on what was written exactly when an end marker is in it; then it has delivered the
  // pieces before the first one, and otherwise all of them.
  lemma {:induction false} ReadWritten(events: seq<Event>, content: Bytes)
    requires forall e <- events :: e.Piece? ==> |e.data| < ULONG_MAX
    ensures var r := Body(Output(events), content);
            && (r.Complete? <==> End in events)
            && r.content == content + Content(events)
  {
    hide Body, Output, Emitted, ChunkOf;
    if events == [] {
      OutputNothing();
      BodyEnds([], content);
      assert content + [] == content;
    } else {
      var e := events[0];
      assert forall x <- events[1..] :: x in events;
      assert forall x <- events :: x == e || x in events[1..];
      OutputFront(events);
      match e
      case End =>
        ReadEndBack(Output(events[1..]), content);
        assert content + [] == content;
      case Piece(data) =>
        ReadWritten(events[1..], content + data);
        if data == [] {
          EmptyPiece();
          assert content + data == content && [] + Output(events[1..]) == Output(events[1..]);
        } else {
          PieceIsChunk(data);
          ReadChunkBack(data, Output(events[1..]), content);
        }
        assert content + data + Content(events[1..]) == content + (data + Content(events[1..]));
    }
  }

  lemma OutputNothing()
    ensures Output([]) == []
  {
  }

  lemma EmptyPiece()
    ensures Emitted(Piece([])) == []
  {
  }

  lemma PieceIsChunk(data: Bytes)
    requires data != []
    ensures Emitted(Piece(data)) == ChunkOf(data)
  {
  }

  function Flat(script: seq<seq<Event>>): seq<Event> { if script == [] then [] else script[0] + Flat(script[1..]) }

  lemma {:induction false} ExecutedFrom(script: seq<seq<Event>>, events: seq<Event>)
    ensures events <= Executed(script, events) <= events + Flat(script)
  {
    if script != [] && Going(events) {
      ExecutedFrom(script[1..], events + script[0]);
      assert events + script[0] + Flat(script[1..]) == events + Flat(script);
    }
  }

  // Non-empty pieces and then the end, over however many calls of the provider: all of it is executed.
  lemma {:induction false} PiecesThenEnd(script: seq<seq<Event>>, events: seq<Event>)
    requires var all := events + Flat(script);
             && all != [] && all[|all| - 1].End?
             && forall i | 0 <= i < |all| - 1 :: all[i].Piece? && all[i].data != []
    ensures Executed(script, events) == events + Flat(script)
  {
    var all := events + Flat(script);
    if script == [] {
      assert all == events;
    } else if Going(events) {
      assert events + script[0] + Flat(script[1..]) == all;
      PiecesThenEnd(script[1..], events + script[0]);
    } else {
      assert events[|events| - 1] == all[|events| - 1];
      assert all == events;
    }
  }

  // Non-empty pieces and then the end.
  predicate Proper(events: seq<Event>) {
    && events != [] && events[|events| - 1].End?
    && forall i | 0 <= i < |events| - 1 :: events[i].Piece? && events[i].data != []
  }

  lemma {:induction false} ProperGoesThrough(script: seq<seq<Event>>)
    requires Proper(Flat(script))
    ensures Executed(script, []) == Flat(script) && !Going(Flat(script)) && End in Flat(script)
  {
    assert [] + Flat(script) == Flat(script);
    PiecesThenEnd(script, []);
    assert Flat(script)[|Flat(script)| - 1] == End;
  }

  // Written to a connection and read back at the other end, whatever the sizes of the reads and of the line reader's
  // buffer, and whether the connection is closed or breaks behind what was written.
  method SendAndReceive(script: seq<seq<Event>>, bufsiz: nat, reliable: bool, takesAll: bool, failing: bool)
    returns (error: Error, ok: bool, received: Bytes)
    requires bufsiz >= 2 && forall e <- Flat(script) :: e.Piece? ==> |e.data| < ULONG_MAX
    ensures reliable ==> (error.Success? <==> !Going(Executed(script, [])))
    ensures error.Success? ==> received <= Content(Executed(script, []))
    ensures error.Success? && ok ==> End in Executed(script, []) && received == Content(Executed(script, []))
    ensures error.Success? && takesAll ==> (ok <==> End in Executed(script, [])) && received == Content(Executed(script, []))
    ensures reliable && takesAll && Proper(Flat(script)) ==> error.Success? && ok && received == Content(Flat(script))
  {
    hide Body, Going, Proper;
    var sink := new Sink(reliable);
    error := WriteContentChunked(sink, script);
    var strm := new Stream(sink.written, failing);
    ok, received := ReadContentChunked(strm, bufsiz, takesAll);
    ghost var events := Executed(script, []);
    ExecutedFrom(script, []);
    assert [] + Flat(script) == Flat(script);
    forall e <- events ensures e in Flat(script) { }
    ReadWritten(events, []);
    assert [] + Content(events) == Content(events);
    if Proper(Flat(script)) { ProperGoesThrough(script); }
  }

  // A provider that writes an empty piece stops the writer, which reports success, without an end marker:
  // the reader then fails.
  lemma EmptyPieceLosesEnd(before: seq<Event>, script: seq<seq<Event>>)
    requires forall e <- before :: e.Piece? && e.data != [] && |e.data| < ULONG_MAX
    ensures var events := Executed([before + [Piece([])]] + script, []);
            && !Going(events) && Body(Output(events), []).Broken?
  {
    var acts := before + [Piece([])];
    var calls := [acts] + script;
    assert calls[0] == acts && [] + acts == acts && !Going(acts);
    assert Executed(calls, []) == Executed(calls[1..], acts) == acts;
    forall e <- acts ensures e.Piece? && |e.data| < ULONG_MAX { }
    ReadWritten(acts, []);
  }
}
