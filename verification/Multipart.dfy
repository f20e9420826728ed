// The body of a part in httplib's streaming multipart parser (section 5.1.1 of RFC 2046): a window into a
// growing buffer, searched for the delimiter as the bytes come in.
module Multipart {
  import opened ByteStrings

  const DASH: Byte := '-' as int
  const CRLF: Bytes := [CR, LF]
  const DASHES: Bytes := [DASH, DASH]

  // ---------------------------------------------------------------- searching

  // The text is at position i of w.
  predicate At(w: Bytes, s: Bytes, i: nat) { i + |s| <= |w| && w[i..i + |s|] == s }

  function FindFrom(w: Bytes, s: Bytes, i: nat): (p: nat)
    requires i <= |w| && s != []
    ensures i <= p <= |w| && (p < |w| ==> At(w, s, p)) && forall j | i <= j < p :: !At(w, s, j)
    decreases |w| - i
  {
    if i == |w| then |w| else if At(w, s, i) then i else FindFrom(w, s, i + 1)
  }

  // The first position of the text, or the length if it does not occur.
  function Find(w: Bytes, s: Bytes): (p: nat)
    requires s != []
    ensures p <= |w| && (p < |w| ==> At(w, s, p)) && forall j | 0 <= j < p :: !At(w, s, j)
  {
    FindFrom(w, s, 0)
  }

  // Nothing else is the first position.
  lemma FindIs(w: Bytes, s: Bytes, p: nat)
    requires s != [] && p <= |w| && (forall j | 0 <= j < p :: !At(w, s, j)) && (p < |w| ==> At(w, s, p))
    ensures Find(w, s) == p
  {
  }

  lemma AtFits(w: Bytes, s: Bytes, i: nat)
    ensures At(w, s, i) ==> i + |s| <= |w|
  {
  }

  lemma AtStart(w: Bytes, s: Bytes)
    ensures At(w, s, 0) <==> |w| >= |s| && w[..|s|] == s
  {
    if |w| >= |s| { assert w[0..|s|] == w[..|s|]; }
  }

  lemma AtSlice(w: Bytes, from: nat, s: Bytes, i: nat)
    requires from <= |w|
    ensures At(w[from..], s, i) <==> At(w, s, from + i)
  {
    if i + |s| <= |w| - from { assert w[from..][i..i + |s|] == w[from + i..from + i + |s|]; }
  }

  lemma AtExtended(w: Bytes, more: Bytes, s: Bytes, i: nat)
    requires i + |s| <= |w|
    ensures At(w + more, s, i) <==> At(w, s, i)
  {
    assert (w + more)[i..i + |s|] == w[i..i + |s|];
  }

  // ---------------------------------------------------------------- the body's progress

  // Nothing delivered so far belongs to a delimiter, whatever is still to come.
  ghost predicate Searching(input: Bytes, delivered: Bytes, window: Bytes, delimiter: Bytes) {
    && input == delivered + window && (delivered != [] ==> |window| >= |delimiter|)
    && forall i | 0 <= i < |delivered| :: !At(input, delimiter, i)
  }

  // Exactly the bytes before the first delimiter were delivered.
  ghost predicate Ended(input: Bytes, delivered: Bytes, delimiter: Bytes)
    requires delimiter != []
  {
    var p := Find(input, delimiter);
    p < |input| && delivered == input[..p]
  }

  // All but the last bytes, which may be the start of a delimiter.
  function Sure(input: Bytes, delimiter: Bytes): nat { if |input| > |delimiter| then |input| - |delimiter| else 0 }

  // No delimiter yet, and all that cannot belong to one delivered.
  ghost predicate Waiting(input: Bytes, delivered: Bytes, window: Bytes, delimiter: Bytes)
    requires delimiter != []
  {
    var n := Sure(input, delimiter);
    Find(input, delimiter) == |input| && delivered == input[..n] && window == input[n..]
  }

  lemma SearchGoesOn(input: Bytes, delivered: Bytes, window: Bytes, delimiter: Bytes, data: Bytes)
    requires Searching(input, delivered, window, delimiter)
    ensures Searching(input + data, delivered, window + data, delimiter)
  {
    assert input + data == delivered + (window + data);
    forall i | 0 <= i < |delivered| ensures !At(input + data, delimiter, i) {
      AtExtended(input, data, delimiter, i);
    }
  }

  lemma EndStays(input: Bytes, delivered: Bytes, delimiter: Bytes, data: Bytes)
    requires delimiter != [] && Ended(input, delivered, delimiter)
    ensures Ended(input + data, delivered, delimiter) && Find(input + data, delimiter) == Find(input, delimiter)
  {
    var p := Find(input, delimiter);
    forall j | 0 <= j <= p ensures At(input + data, delimiter, j) <==> At(input, delimiter, j) {
      AtExtended(input, data, delimiter, j);
    }
    FindIs(input + data, delimiter, p);
    assert (input + data)[..p] == input[..p];
  }

  // The window's first delimiter is the input's.
  lemma FoundInWindow(input: Bytes, delivered: Bytes, window: Bytes, delimiter: Bytes)
    requires delimiter != [] && Searching(input, delivered, window, delimiter)
    ensures Find(input, delimiter) == |delivered| + Find(window, delimiter)
    ensures window == input[|delivered|..]
  {
    var n, p := |delivered|, Find(window, delimiter);
    assert input[n..] == window;
    forall j | 0 <= j < |window| ensures At(window, delimiter, j) <==> At(input, delimiter, n + j) {
      AtSlice(input, n, delimiter, j);
    }
    forall j | 0 <= j < n + p ensures !At(input, delimiter, j) {
      if j >= n { assert !At(window, delimiter, j - n); }
    }
    FindIs(input, delimiter, n + p);
  }

  // Without a delimiter in the window all but its last bytes can be delivered.
  lemma DeliverSure(input: Bytes, delivered: Bytes, window: Bytes, delimiter: Bytes, n: nat)
    requires delimiter != [] && Searching(input, delivered, window, delimiter)
    requires Find(window, delimiter) == |window| && n + |delimiter| == |window|
    ensures Searching(input, delivered + window[..n], window[n..], delimiter)
    ensures Waiting(input, delivered + window[..n], window[n..], delimiter)
  {
    FoundInWindow(input, delivered, window, delimiter);
    assert delivered + window == delivered + window[..n] + window[n..];
  }

  // What becomes of the window behind a delimiter: another part, the end, or not known yet.
  function AfterBoundary(window: Bytes): (nat, Bytes) {
    if At(window, CRLF, 0) then (1, window[2..]) else if At(window, DASHES, 0) then (4, []) else (4, window)
  }

  // state 2 stands for all that comes before the body: a new part is left to it once state 1 is reached.
  class Parser {
    const crlfDashBoundary: Bytes
    // The receiver refuses nothing.
    const takesAll: bool
    var state: nat
    var isValid: bool

    // The window buf[spos..epos] is what has not been consumed.
    var buf: Bytes
    var spos: nat
    var epos: nat

    // All bytes since the body began, and what was delivered of them.
    ghost var input: Bytes
    ghost var delivered: Bytes

    ghost predicate WindowOk()
      reads this
    {
      spos <= epos <= |buf|
    }

    function Window(): Bytes
      requires spos <= epos <= |buf|
      reads this
    {
      buf[spos..epos]
    }

    function BufSize(): nat
      requires spos <= epos
      reads this
    {
      epos - spos
    }

    method StartWith(a: Bytes, from: nat, to: nat, b: Bytes) returns (r: bool)
      requires from <= to <= |a|
      ensures r <==> At(a[..to], b, from)
    {
      if to - from < |b| {
        return false;
      }
      for i := 0 to |b|
        invariant a[from..from + i] == b[..i]
      {
        if a[i + from] != b[i] {
          assert a[..to][from..from + |b|][i] != b[i];
          return false;
        }
        assert a[from..from + i + 1] == a[from..from + i] + [a[from + i]] && b[..i + 1] == b[..i] + [b[i]];
      }
      assert a[..to][from..from + |b|] == a[from..from + |b|] && b[..|b|] == b;
      r := true;
    }

    method BufFind(s: Bytes) returns (p: nat)
      requires WindowOk() && s != []
      ensures p == Find(Window(), s)
    {
      var c := s[0];
      var off := spos;
      while off < epos
        invariant spos <= off <= epos
        invariant forall j | 0 <= j < off - spos :: !At(Window(), s, j)
        decreases epos - off
      {
        var pos := off;
        while true
          invariant off <= pos <= epos
          invariant forall j | 0 <= j < pos - spos :: !At(Window(), s, j)
          decreases epos - pos
        {
          if pos == epos {
            FindIs(Window(), s, epos - spos);
            return BufSize();
          }
          if buf[pos] == c {
            break;
          }
          FirstDiffers(Window(), s, pos - spos);
          pos := pos + 1;
        }
        var remainingSize := epos - pos;
        if |s| > remainingSize {
          FindIs(Window(), s, epos - spos);
          return BufSize();
        }
        var found := StartWith(buf, pos, epos, s);
        WindowAt(s, pos);
        if found {
          FindIs(Window(), s, pos - spos);
          return pos - spos;
        }
        off := pos + 1;
      }
      FindIs(Window(), s, epos - spos);
      p := BufSize();
    }

    lemma WindowAt(s: Bytes, pos: nat)
      requires WindowOk() && spos <= pos <= epos
      ensures At(buf[..epos], s, pos) <==> At(Window(), s, pos - spos)
    {
      assert buf[..epos][spos..] == Window();
      AtSlice(buf[..epos], spos, s, pos - spos);
    }

    // Move the window to the front of the buffer and put the data behind it.
    method BufAppend(data: Bytes)
      requires WindowOk()
      modifies this`buf, this`spos, this`epos
      ensures WindowOk() && Window() == old(Window()) + data
    {
      var remainingSize := BufSize();
      ghost var w := Window();
      if remainingSize > 0 && spos > 0 {
        MoveToFront(remainingSize);
      }
      assert forall j | 0 <= j < remainingSize :: buf[j] == w[j];
      spos := 0;
      epos := remainingSize;
      if remainingSize + |data| > |buf| {
        buf := buf + seq(remainingSize + |data| - |buf|, _ => 0);
      }
      for i := 0 to |data|
        invariant spos == 0 && epos == remainingSize && |buf| >= remainingSize + |data|
        invariant forall j | 0 <= j < remainingSize :: buf[j] == w[j]
        invariant forall j | remainingSize <= j < remainingSize + i :: buf[j] == data[j - remainingSize]
      {
        buf := buf[epos + i := data[i]];
      }
      epos := epos + |data|;
      SameElements(buf, w, data);
    }

    method MoveToFront(remainingSize: nat)
      requires WindowOk() && remainingSize == BufSize()
      modifies this`buf
      ensures |buf| == |old(buf)| && forall j | 0 <= j < remainingSize :: buf[j] == old(Window())[j]
    {
      ghost var w := Window();
      for i := 0 to remainingSize
        invariant |buf| == |old(buf)|
        invariant forall j | 0 <= j < i :: buf[j] == w[j]
        invariant forall j | spos + i <= j < epos :: buf[j] == w[j - spos]
      {
        buf := buf[i := buf[spos + i]];
      }
    }

    method BufErase(size: nat)
      requires WindowOk() && size <= BufSize()
      modifies this`spos
      ensures WindowOk() && Window() == old(Window())[size..]
    {
      spos := spos + size;
    }

    ghost predicate Valid()
      reads this
    {
      && WindowOk() && |crlfDashBoundary| >= 4 && (state == 1 || state == 3 || state == 4)
      && (if state == 3 then !isValid && Searching(input, delivered, Window(), crlfDashBoundary) else Ended(input, delivered, crlfDashBoundary))
    }

    // Where the parser is once it has used up what it can: at the delimiter, with exactly the bytes before
    // it delivered, or waiting with the bytes that may belong to one.
    ghost predicate Settled()
      requires WindowOk() && crlfDashBoundary != []
      reads this
    {
      if state == 3 then Waiting(input, delivered, Window(), crlfDashBoundary) else Ended(input, delivered, crlfDashBoundary)
    }

    // The body begins with whatever the header states left in the window.
    constructor (boundary: Bytes, buf: Bytes, spos: nat, epos: nat, takesAll: bool)
      requires spos <= epos <= |buf|
      ensures Valid() && state == 3 && !isValid && input == buf[spos..epos] && delivered == [] && Window() == input
      ensures crlfDashBoundary == CRLF + DASHES + boundary && this.takesAll == takesAll
    {
      crlfDashBoundary, this.takesAll := CRLF + DASHES + boundary, takesAll;
      state, isValid := 3, false;
      this.buf, this.spos, this.epos := buf, spos, epos;
      input, delivered := buf[spos..epos], [];
    }

    // content_callback and buf_erase, unless the receiver refuses what it is given.
    method Deliver(n: nat, skip: nat) returns (accepted: bool)
      requires WindowOk() && n + skip <= BufSize()
      modifies this`delivered, this`isValid, this`spos
      ensures accepted ==>
                && WindowOk() && delivered == old(delivered) + old(Window())[..n] && Window() == old(Window())[n + skip..]
                && isValid == old(isValid)
      ensures !accepted ==> !takesAll && !isValid && delivered == old(delivered) && spos == old(spos)
    {
      var willing: bool := *;
      accepted := takesAll || willing;
      if !accepted {
        isValid := false;
        return;
      }
      assert buf[spos..spos + n] == Window()[..n];
      delivered := delivered + buf[spos..spos + n];
      BufErase(n + skip);
    }

    // State 3, Body.
    method Body() returns (ok: bool, stop: bool)
      requires Valid() && state == 3
      modifies this`state, this`isValid, this`spos, this`delivered
      ensures Valid() && (ok ==> isValid == old(isValid))
      ensures !ok ==> !takesAll && stop && !isValid && state == 3
      ensures ok && stop ==> state == 3 && Waiting(input, delivered, Window(), crlfDashBoundary)
      ensures ok && !stop ==> state == 4 && Window() == input[|delivered| + |crlfDashBoundary|..] && BufSize() < old(BufSize())
    {
      hide Searching, Find, Ended, Sure, At, Waiting;
      ghost var w := Window();
      if |crlfDashBoundary| > BufSize() {
        WaitShort(input, delivered, w, crlfDashBoundary);
        return true, true;
      }
      var pos := BufFind(crlfDashBoundary);
      if pos < BufSize() {
        EndFound(input, delivered, w, crlfDashBoundary);
        ok := Deliver(pos, |crlfDashBoundary|);
        stop := !ok;
        if ok {
          state := 4;
        }
      } else {
        var len := BufSize() - |crlfDashBoundary|;
        DeliverSure(input, delivered, w, crlfDashBoundary, len);
        ok, stop := true, true;
        if len > 0 {
          ok := Deliver(len, 0);
        } else {
          assert w[..len] == [] && w[len..] == w && delivered + [] == delivered;
        }
      }
    }

    // State 4, Boundary.
    method Boundary() returns (stop: bool)
      requires Valid() && state == 4
      modifies this`state, this`isValid, this`spos
      ensures Valid() && (state, Window()) == AfterBoundary(old(Window()))
      ensures var w := old(Window());
              if |w| >= 2 && w[..2] == CRLF then state == 1 && Window() == w[2..]
              else state == 4 && Window() == if |w| >= 2 && w[..2] == DASHES then [] else w
      ensures isValid <==> old(isValid) || (At(old(Window()), DASHES, 0) && !At(old(Window()), CRLF, 0))
      ensures (state == 1 || state == 4) && (!stop ==> (state == 1 || Window() == []) && BufSize() < old(BufSize()))
    {
      hide Ended;
      ghost var w := Window();
      AtStart(w, CRLF);
      AtStart(w, DASHES);
      if |CRLF| > BufSize() {
        return true;
      }
      WindowAt(CRLF, spos);
      WindowAt(DASHES, spos);
      var next := StartWith(buf, spos, epos, CRLF);
      if next {
        BufErase(|CRLF|);
        state := 1;
        return false;
      }
      if |DASHES| > BufSize() {
        return true;
      }
      var last := StartWith(buf, spos, epos, DASHES);
      if !last {
        return true;
      }
      BufErase(|DASHES|);
      isValid := true;
      BufErase(BufSize());
      stop := false;
    }

    // Where the parser is in the whole input.
    ghost predicate Arrived()
      requires WindowOk() && crlfDashBoundary != []
      reads this
    {
      && Settled()
      && (state != 3 ==> |delivered| + |crlfDashBoundary| <= |input|
                         && (state, Window()) == AfterBoundary(input[|delivered| + |crlfDashBoundary|..]))
    }

    // The closing dashes have come, for a call that begins with this state and window.
    ghost predicate Closed(before: nat, window: Bytes)
      reads this`state, this`delivered, this`input
    {
      if before == 4 then At(window, DASHES, 0)
      else before == 3 && state != 3 && |delivered| + |crlfDashBoundary| <= |input|
           && At(input[|delivered| + |crlfDashBoundary|..], DASHES, 0)
    }

    // What the calls behind the delimiter, of these that were made, led to.
    ghost predicate Behind(calls: seq<Bytes>)
      requires WindowOk()
      reads this
    {
      var n := |delivered| + |crlfDashBoundary|;
      n <= |input| && InStep((state, Window()), isValid, input[n..], Rest(calls, n))
    }

    // The parser's loop, as far as the body, its delimiter and the two characters behind it go.
    method Resume() returns (ok: bool)
      requires Valid()
      modifies this`state, this`isValid, this`spos, this`delivered
      ensures Valid()
      ensures ok && old(state) == 3 ==> Arrived()
      ensures ok && old(state) == 4 ==> (state, Window()) == AfterBoundary(old(Window())) && delivered == old(delivered)
      ensures ok && old(state) == 1 ==> state == 1 && Window() == old(Window()) && delivered == old(delivered)
      ensures ok ==> (isValid <==> old(isValid) || Closed(old(state), old(Window())))
      ensures !ok ==> !takesAll && !isValid && state == 3
      ensures old(state) != 3 ==> ok && state != 3
    {
      hide Searching, Find, Ended, At, AfterBoundary, Waiting;
      // The window behind the delimiter, once there.
      ghost var behind := Window();
      if state == 3 && BufSize() == 0 { WaitShort(input, delivered, Window(), crlfDashBoundary); }
      NothingBehind();
      while BufSize() > 0 && state != 1
        invariant Valid() && (state == 3 ==> old(state) == 3 && delivered == old(delivered) && Window() == old(Window()))
        invariant state == 3 && BufSize() == 0 ==> Waiting(input, delivered, Window(), crlfDashBoundary)
        invariant old(state) == 1 ==> state == 1 && Window() == old(Window())
        invariant old(state) == 4 ==> behind == old(Window())
        invariant old(state) != 3 ==> delivered == old(delivered)
        invariant old(state) == 3 && state != 3 ==>
                    |delivered| + |crlfDashBoundary| <= |input| && behind == input[|delivered| + |crlfDashBoundary|..]
        invariant old(state) != 1 && state == 4 ==> Window() == behind || (Window() == [] && AfterBoundary(behind) == (4, []))
        invariant old(state) != 1 && state == 1 ==> (1, Window()) == AfterBoundary(behind)
        invariant old(state) == 1 || state == 3 ==> isValid == old(isValid)
        invariant old(state) != 1 && state != 3 ==>
                    (isValid <==> old(isValid) || (At(behind, DASHES, 0) && (state == 1 || Window() != behind)))
        decreases BufSize()
      {
        var stop: bool;
        if state == 3 {
          ok, stop := Body();
          if stop {
            return;
          }
          EndShape(input, delivered, crlfDashBoundary);
          behind := Window();
        } else {
          NotBoth(behind);
          stop := Boundary();
          if stop {
            return true;
          }
        }
      }
      ok := true;
    }

    // One call of the parser with more bytes.
    method Parse(data: Bytes) returns (ok: bool)
      requires Valid()
      modifies this`buf, this`spos, this`epos, this`state, this`isValid, this`delivered, this`input
      ensures Valid() && input == old(input) + data
      ensures ok ==> Settled()
      ensures ok && old(state) == 1 ==> state == 1 && Window() == old(Window()) + data
      ensures ok && old(state) == 3 ==> Arrived()
      ensures ok && old(state) == 4 ==> (state, Window()) == AfterBoundary(old(Window()) + data)
      ensures ok && old(state) != 3 ==> delivered == old(delivered)
      ensures ok ==> (isValid <==> old(isValid) || Closed(old(state), old(Window()) + data))
      ensures !ok ==> !takesAll && !isValid && state == 3 && old(state) == 3
    {
      hide Searching, Find, Ended, At, AfterBoundary;
      if state == 3 {
        SearchGoesOn(input, delivered, Window(), crlfDashBoundary, data);
      } else {
        EndStays(input, delivered, crlfDashBoundary, data);
      }
      BufAppend(data);
      input := input + data;
      ok := Resume();
    }
  }

  lemma EndShape(input: Bytes, delivered: Bytes, delimiter: Bytes)
    requires delimiter != [] && Ended(input, delivered, delimiter)
    ensures var p := Find(input, delimiter); p < |input| && p + |delimiter| <= |input| && |delivered| == p
  {
  }

  lemma NothingBehind()
    ensures AfterBoundary([]) == (4, []) && !At([], DASHES, 0)
  {
  }

  lemma NotBoth(window: Bytes)
    ensures At(window, CRLF, 0) ==> !At(window, DASHES, 0)
  {
    if At(window, CRLF, 0) { assert window[0..2][0] == CRLF[0] != DASHES[0]; }
  }

  // At the window's first delimiter the content is complete.
  lemma EndFound(input: Bytes, delivered: Bytes, window: Bytes, delimiter: Bytes)
    requires delimiter != [] && Searching(input, delivered, window, delimiter) && Find(window, delimiter) < |window|
    ensures var p := Find(window, delimiter);
            && p + |delimiter| <= |window|
            && Ended(input, delivered + window[..p], delimiter)
            && window[p + |delimiter|..] == input[|delivered + window[..p]| + |delimiter|..]
  {
    FoundInWindow(input, delivered, window, delimiter);
    var p := Find(window, delimiter);
    assert input[..|delivered| + p] == delivered + window[..p];
  }

  lemma WaitShort(input: Bytes, delivered: Bytes, window: Bytes, delimiter: Bytes)
    requires delimiter != [] && Searching(input, delivered, window, delimiter) && |window| < |delimiter|
    ensures Waiting(input, delivered, window, delimiter)
  {
    assert delivered == [] && window == input;
    FindIs(input, delimiter, |input|);
  }

  lemma SameElements(buf: Bytes, w: Bytes, data: Bytes)
    requires |w| + |data| <= |buf|
    requires forall j | 0 <= j < |w| :: buf[j] == w[j]
    requires forall j | |w| <= j < |w| + |data| :: buf[j] == data[j - |w|]
    ensures buf[0..|w| + |data|] == w + data
  {
  }

  lemma FirstDiffers(w: Bytes, s: Bytes, i: nat)
    requires s != [] && i < |w| && w[i] != s[0]
    ensures !At(w, s, i)
  {
    if i + |s| <= |w| { assert w[i..i + |s|][0] == w[i]; }
  }

  // ---------------------------------------------------------------- any number of calls

  function Joined(pieces: seq<Bytes>): Bytes {
    if pieces == [] then [] else Joined(pieces[..|pieces| - 1]) + pieces[|pieces| - 1]
  }

  lemma {:induction false} JoinedFront(pieces: seq<Bytes>)
    requires pieces != []
    ensures Joined(pieces) == pieces[0] + Joined(pieces[1..])
  {
    var front, last := pieces[..|pieces| - 1], pieces[|pieces| - 1];
    if front == [] {
      assert Joined(pieces[1..]) == [] && Joined(front) == [];
    } else {
      JoinedFront(front);
      assert pieces[1..][..|pieces| - 2] == front[1..];
      assert pieces[0] + Joined(front[1..]) + last == pieces[0] + (Joined(front[1..]) + last);
    }
  }

  lemma JoinedSnoc(pieces: seq<Bytes>, last: Bytes)
    ensures Joined(pieces + [last]) == Joined(pieces) + last
  {
    assert (pieces + [last])[..|pieces|] == pieces;
  }

  // The same calls without the first n bytes.
  function Rest(pieces: seq<Bytes>, n: nat): seq<Bytes> {
    if pieces == [] then []
    else if n <= |pieces[0]| then [pieces[0][n..]] + pieces[1..]
    else Rest(pieces[1..], n - |pieces[0]|)
  }

  lemma {:induction false} RestSnoc(pieces: seq<Bytes>, last: Bytes, n: nat)
    ensures pieces != [] && n <= |Joined(pieces)| ==> Rest(pieces + [last], n) == Rest(pieces, n) + [last]
    ensures (pieces == [] || n > |Joined(pieces)|) && n <= |Joined(pieces)| + |last| ==>
              Rest(pieces + [last], n) == [last[n - |Joined(pieces)|..]]
  {
    if pieces != [] {
      JoinedFront(pieces);
      assert (pieces + [last])[1..] == pieces[1..] + [last];
      if n > |pieces[0]| { RestSnoc(pieces[1..], last, n - |pieces[0]|); }
    }
  }

  // What a further call makes of the state and window behind the delimiter, and what several make of them.
  function NextCall(at: (nat, Bytes), data: Bytes): (nat, Bytes) {
    if at.0 == 1 then (1, at.1 + data) else AfterBoundary(at.1 + data)
  }

  function Fate(at: (nat, Bytes), pieces: seq<Bytes>): (nat, Bytes) {
    if pieces == [] then at else NextCall(Fate(at, pieces[..|pieces| - 1]), pieces[|pieces| - 1])
  }

  lemma FateSnoc(at: (nat, Bytes), pieces: seq<Bytes>, last: Bytes)
    ensures Fate(at, pieces + [last]) == NextCall(Fate(at, pieces), last)
  {
    assert (pieces + [last])[..|pieces|] == pieces;
  }

  lemma {:induction false} JoinedPrefix(pieces: seq<Bytes>, i: nat)
    requires i <= |pieces|
    ensures Joined(pieces[..i]) <= Joined(pieces)
  {
    if i == |pieces| {
      assert pieces[..i] == pieces;
    } else {
      var front := pieces[..|pieces| - 1];
      JoinedPrefix(front, i);
      assert front[..i] == pieces[..i];
    }
  }

  // The window and state that the calls behind the delimiter led to, and whether the closing dashes have come.
  ghost predicate InStep(at: (nat, Bytes), closed: bool, behind: Bytes, pieces: seq<Bytes>) {
    && at == Fate((4, []), pieces) && (at.0 == 1 || at.0 == 4) && (closed <==> At(behind, DASHES, 0))
    && (!closed ==> if at.0 == 1 then At(behind, CRLF, 0) else at.1 == behind)
  }

  lemma FirstInStep(behind: Bytes)
    ensures InStep(AfterBoundary(behind), At(behind, DASHES, 0), behind, [behind])
  {
    NotBoth(behind);
    assert Fate((4, []), [behind]) == NextCall(Fate((4, []), [behind][..0]), behind) == AfterBoundary([] + behind);
    assert [] + behind == behind;
  }

  lemma StaysInStep(at: (nat, Bytes), closed: bool, behind: Bytes, pieces: seq<Bytes>, data: Bytes)
    requires InStep(at, closed, behind, pieces)
    ensures InStep(NextCall(at, data), closed || (at.0 == 4 && At(at.1 + data, DASHES, 0)), behind + data, pieces + [data])
  {
    FateSnoc((4, []), pieces, data);
    NotBoth(behind + data);
    if |behind| >= 2 {
      AtExtended(behind, data, DASHES, 0);
      AtExtended(behind, data, CRLF, 0);
    }
  }

  // However the bytes are cut into calls: a receiver that takes everything has the bytes before the first
  // delimiter of the whole input, or all that cannot belong to one, and any other a part from the start of that.
  // Behind the delimiter it does matter how the bytes are cut.
  method ParseAll(parser: Parser, pieces: seq<Bytes>) returns (ok: bool)
    requires parser.Valid() && parser.state == 3 && pieces != []
    modifies parser
    ensures parser.Valid() && (parser.takesAll ==> ok)
    ensures ok ==> parser.input == old(parser.input) + Joined(pieces) && parser.Settled()
    ensures ok && parser.state == 3 ==> |parser.Window()| == |parser.input| - Sure(parser.input, parser.crlfDashBoundary)
    ensures ok && parser.state == 3 ==>
              var n, d := |parser.input|, |parser.crlfDashBoundary|; |parser.delivered| == if n > d then n - d else 0
    ensures ok && parser.state != 3 ==> parser.Behind(Calls(old(parser.input), pieces))
    // Another part begins behind the line end; the end is kept where it is if it is not known yet.
    ensures ok && parser.state != 3 ==>
              var n := |parser.delivered| + |parser.crlfDashBoundary|;
              && n <= |parser.input|
              && var rest := parser.input[n..];
                 && (|rest| >= 2 && rest[..2] == CRLF ==> parser.state == 1 && parser.Window() == rest[2..])
                 && (|rest| < 2 || (rest[..2] != CRLF && rest[..2] != DASHES) ==> parser.state == 4 && parser.Window() == rest)
                 && var cut := Rest(Calls(old(parser.input), pieces), n);
                    parser.state == (if Reopens(cut) then 1 else 4) && parser.Window() == Remains(cut)
    ensures DeliveredPart(old(parser.input) + Joined(pieces), parser.delivered, parser.crlfDashBoundary)
  {
    hide Searching, Find, Ended, Waiting, AfterBoundary, At, InStep, Rest, Reopens, Remains, Joined, Sure;
    ghost var calls := Calls(old(parser.input), pieces);
    assert calls[..0] == [];
    for i := 0 to |pieces|
      invariant parser.Valid() && parser.input == if i == 0 then old(parser.input) else Joined(calls[..i])
      invariant i == 0 ==> parser.state == 3
      invariant i > 0 ==> parser.Settled()
      invariant parser.state != 3 ==> parser.Behind(calls[..i])
    {
      ok := NextPiece(parser, pieces[i], calls, i);
      if !ok {
        RefusedPart(parser.input, parser.delivered, parser.Window(), parser.crlfDashBoundary, calls, i + 1);
        JoinedCalls(old(parser.input), pieces);
        return;
      }
    }
    assert calls[..|pieces|] == calls;
    JoinedCalls(old(parser.input), pieces);
    ok := true;
    if parser.state == 3 {
      WaitingLengths(parser.input, parser.delivered, parser.Window(), parser.crlfDashBoundary);
    } else {
      Looked(parser, calls);
    }
    Part(parser);
  }

  lemma WaitingLengths(input: Bytes, delivered: Bytes, window: Bytes, delimiter: Bytes)
    requires delimiter != [] && Waiting(input, delivered, window, delimiter)
    ensures |window| == |input| - Sure(input, delimiter)
    ensures |delivered| == if |input| > |delimiter| then |input| - |delimiter| else 0
  {
  }

  lemma Part(parser: Parser)
    requires parser.Valid() && parser.Settled()
    ensures DeliveredPart(parser.input, parser.delivered, parser.crlfDashBoundary)
  {
  }

  lemma Looked(parser: Parser, calls: seq<Bytes>)
    requires parser.Valid() && parser.state != 3 && parser.Behind(calls) && parser.input == Joined(calls)
    ensures var n := |parser.delivered| + |parser.crlfDashBoundary|;
            && n <= |parser.input|
            && var rest := parser.input[n..];
               && (|rest| >= 2 && rest[..2] == CRLF ==> parser.state == 1 && parser.Window() == rest[2..])
               && (|rest| < 2 || (rest[..2] != CRLF && rest[..2] != DASHES) ==> parser.state == 4 && parser.Window() == rest)
               && var cut := Rest(calls, n);
                  parser.state == (if Reopens(cut) then 1 else 4) && parser.Window() == Remains(cut)
  {
    hide Fate, Rest, Joined, Reopens, Remains, At;
    var n := |parser.delivered| + |parser.crlfDashBoundary|;
    var cut := Rest(calls, n);
    FateIs([], cut);
    EmptyFirst(cut);
    RestJoined(calls, n);
    RemainsAtOnce(cut);
    AtStart(parser.input[n..], CRLF);
    AtStart(parser.input[n..], DASHES);
  }

  lemma RemainsAtOnce(pieces: seq<Bytes>)
    ensures var all := Joined(pieces);
            && (At(all, CRLF, 0) ==> Reopens(pieces) && Remains(pieces) == all[2..])
            && (!At(all, CRLF, 0) && !At(all, DASHES, 0) ==> !Reopens(pieces) && Remains(pieces) == all)
  {
  }

  lemma {:induction false} RestJoined(pieces: seq<Bytes>, n: nat)
    requires n <= |Joined(pieces)|
    ensures Joined(Rest(pieces, n)) == Joined(pieces)[n..]
  {
    if pieces != [] {
      JoinedFront(pieces);
      if n <= |pieces[0]| {
        JoinedFront(Rest(pieces, n));
        assert Rest(pieces, n)[1..] == pieces[1..];
        assert (pieces[0] + Joined(pieces[1..]))[n..] == pieces[0][n..] + Joined(pieces[1..]);
      } else {
        RestJoined(pieces[1..], n - |pieces[0]|);
        assert (pieces[0] + Joined(pieces[1..]))[n..] == Joined(pieces[1..])[n - |pieces[0]|..];
      }
    }
  }

  // What was delivered belongs to the content.
  ghost predicate DeliveredPart(input: Bytes, delivered: Bytes, delimiter: Bytes)
    requires delimiter != []
  {
    delivered <= input[..Find(input, delimiter)]
  }

  // The first call sees what the header states left in the window as well.
  function Calls(left: Bytes, pieces: seq<Bytes>): seq<Bytes>
    requires pieces != []
  {
    [left + pieces[0]] + pieces[1..]
  }

  lemma JoinedCalls(left: Bytes, pieces: seq<Bytes>)
    requires pieces != []
    ensures Joined(Calls(left, pieces)) == left + Joined(pieces)
  {
    JoinedFront(pieces);
    JoinedFront(Calls(left, pieces));
    assert left + (pieces[0] + Joined(pieces[1..])) == left + pieces[0] + Joined(pieces[1..]);
  }

  lemma RefusedPart(input: Bytes, delivered: Bytes, window: Bytes, delimiter: Bytes, calls: seq<Bytes>, i: nat)
    requires delimiter != [] && Searching(input, delivered, window, delimiter) && i <= |calls| && input == Joined(calls[..i])
    ensures DeliveredPart(Joined(calls), delivered, delimiter)
  {
    JoinedPrefix(calls, i);
    var all := Joined(calls);
    var more := all[|input|..];
    SearchGoesOn(input, delivered, window, delimiter, more);
    assert all == input + more;
    FoundInWindow(all, delivered, window + more, delimiter);
  }

  method NextPiece(parser: Parser, data: Bytes, ghost calls: seq<Bytes>, i: nat) returns (ok: bool)
    requires parser.Valid() && i < |calls| && calls[i] == if i == 0 then parser.input + data else data
    requires i > 0 ==> parser.input == Joined(calls[..i]) && parser.Settled()
    requires if parser.state == 3 then true else i > 0 && parser.Behind(calls[..i])
    modifies parser`buf, parser`spos, parser`epos, parser`state, parser`isValid, parser`delivered, parser`input
    ensures parser.Valid() && parser.input == Joined(calls[..i + 1])
    ensures ok ==> parser.Settled() && (parser.state != 3 ==> parser.Behind(calls[..i + 1]))
    ensures !ok ==> !parser.takesAll && parser.state == 3
  {
    hide Searching, Find, AfterBoundary, At, InStep, Fate, Rest, Joined;
    ghost var before, was, at, closed := parser.state, parser.input, (parser.state, parser.Window()), parser.isValid;
    ghost var d := parser.crlfDashBoundary;
    JoinedNext(calls, i, was, data);
    ok := parser.Parse(data);
    ghost var n := |parser.delivered| + |d|;
    if ok && parser.state != 3 {
      EndShape(parser.input, parser.delivered, d);
      if before == 3 {
        FirstInStep(parser.input[n..]);
        if i > 0 { NotBefore(was, data, d); }
        RestFirst(calls, i, was, data, n);
      } else {
        StaysInStep(at, closed, was[n..], Rest(calls[..i], n), data);
        RestLater(calls, i, was, data, n);
      }
    }
  }

  lemma JoinedNext(calls: seq<Bytes>, i: nat, was: Bytes, data: Bytes)
    requires i < |calls| && (i > 0 ==> was == Joined(calls[..i])) && calls[i] == if i == 0 then was + data else data
    ensures Joined(calls[..i + 1]) == was + data
  {
    assert calls[..i + 1] == calls[..i] + [calls[i]];
    JoinedSnoc(calls[..i], calls[i]);
    assert [] + (was + data) == was + data;
  }

  lemma RestFirst(calls: seq<Bytes>, i: nat, was: Bytes, data: Bytes, n: nat)
    requires i < |calls| && (i > 0 ==> was == Joined(calls[..i])) && calls[i] == if i == 0 then was + data else data
    requires n <= |was + data| && (i > 0 ==> n > |was|)
    ensures Rest(calls[..i + 1], n) == [(was + data)[n..]]
  {
    assert calls[..i + 1] == calls[..i] + [calls[i]];
    RestSnoc(calls[..i], calls[i], n);
    if i > 0 { assert (was + data)[n..] == data[n - |was|..]; }
  }

  lemma RestLater(calls: seq<Bytes>, i: nat, was: Bytes, data: Bytes, n: nat)
    requires 0 < i < |calls| && was == Joined(calls[..i]) && calls[i] == data && n <= |was|
    ensures Rest(calls[..i + 1], n) == Rest(calls[..i], n) + [data] && was[n..] + data == (was + data)[n..]
  {
    assert calls[..i + 1] == calls[..i] + [calls[i]];
    RestSnoc(calls[..i], calls[i], n);
  }

  // A delimiter that was not complete before ends in the last call.
  lemma NotBefore(was: Bytes, data: Bytes, delimiter: Bytes)
    requires delimiter != [] && Find(was, delimiter) == |was|
    ensures var p := Find(was + data, delimiter); p < |was + data| ==> p + |delimiter| > |was|
  {
    var p := Find(was + data, delimiter);
    if p + |delimiter| <= |was| { AtExtended(was, data, delimiter, p); }
  }

  // Two parsers that were fed the same bytes in different pieces delivered the same content.
  lemma SameContent(a: Parser, b: Parser)
    requires a.Valid() && b.Valid() && a.Settled() && b.Settled()
    requires a.crlfDashBoundary == b.crlfDashBoundary && a.input == b.input
    ensures a.delivered == b.delivered && (a.state == 3 <==> b.state == 3)
    ensures a.state == 3 ==> a.Window() == b.Window()
  {
  }

  // ---------------------------------------------------------------- behind the delimiter

  // The calls that begin behind the n-th byte.
  function Behind(pieces: seq<Bytes>, n: nat): (r: seq<Bytes>)
    ensures |r| <= |pieces| && (n > 0 && pieces != [] ==> |r| < |pieces|)
  {
    if n == 0 || pieces == [] then pieces
    else Behind(pieces[1..], if |pieces[0]| >= n then 0 else n - |pieces[0]|)
  }

  // Of the bytes behind the delimiter, cut into these pieces: a line end starts another part, and so does one at the
  // first cut behind closing dashes, or behind further dashes that stand at that cut, and so on.
  predicate Reopens(pieces: seq<Bytes>)
    decreases |pieces|
  {
    var all := Joined(pieces);
    if At(all, CRLF, 0) then true else if pieces != [] && At(all, DASHES, 0) then Reopens(Behind(pieces, 2)) else false
  }

  // What is left over: all that follows the line end, nothing behind dashes before the first cut, or what cannot be told.
  function Remains(pieces: seq<Bytes>): Bytes
    decreases |pieces|
  {
    var all := Joined(pieces);
    if At(all, CRLF, 0) then all[2..] else if pieces != [] && At(all, DASHES, 0) then Remains(Behind(pieces, 2)) else all
  }

  // The calls behind the n-th byte begin at the first cut that is not before it.
  lemma {:induction false} BehindIsFirstCut(pieces: seq<Bytes>, n: nat) returns (j: nat)
    ensures j <= |pieces| && Behind(pieces, n) == pieces[j..]
    ensures j < |pieces| ==> |Joined(pieces[..j])| >= n
    ensures j > 0 ==> |Joined(pieces[..j - 1])| < n
  {
    if n == 0 || pieces == [] {
      j := 0;
    } else {
      var k := BehindIsFirstCut(pieces[1..], if |pieces[0]| >= n then 0 else n - |pieces[0]|);
      j := k + 1;
      assert pieces[1..][k..] == pieces[j..];
      JoinedFront(pieces[..j]);
      SliceShift(pieces, j);
      if k > 0 {
        JoinedFront(pieces[..k]);
        SliceShift(pieces, k);
      }
    }
  }

  lemma SliceShift(pieces: seq<Bytes>, k: nat)
    requires 0 < k <= |pieces|
    ensures pieces[..k][1..] == pieces[1..][..k - 1]
  {
  }

  lemma EmptyFirst(pieces: seq<Bytes>)
    ensures Reopens([[]] + pieces) <==> Reopens(pieces)
    ensures Remains([[]] + pieces) == Remains(pieces)
  {
    JoinedFront([[]] + pieces);
    assert ([[]] + pieces)[1..] == pieces && [] + Joined(pieces) == Joined(pieces);
  }

  lemma {:induction false} FateFront(at: (nat, Bytes), pieces: seq<Bytes>)
    requires pieces != []
    ensures Fate(at, pieces) == Fate(NextCall(at, pieces[0]), pieces[1..])
  {
    hide NextCall;
    var front, last := pieces[..|pieces| - 1], pieces[|pieces| - 1];
    if front != [] {
      FateFront(at, front);
      assert pieces[1..] == front[1..] + [last];
      FateSnoc(NextCall(at, pieces[0]), front[1..], last);
    }
  }

  // A window that begins with neither a line end nor dashes, and one in state 1, only grow.
  lemma {:induction false} FateStays(at: (nat, Bytes), pieces: seq<Bytes>)
    requires at.0 == 1 || (at.0 == 4 && |at.1| >= 2 && !At(at.1, CRLF, 0) && !At(at.1, DASHES, 0))
    ensures Fate(at, pieces) == (at.0, at.1 + Joined(pieces))
  {
    if pieces == [] {
      assert at.1 + [] == at.1;
    } else {
      var front, last := pieces[..|pieces| - 1], pieces[|pieces| - 1];
      FateStays(at, front);
      assert at.1 + Joined(front) + last == at.1 + (Joined(front) + last);
      if at.0 == 4 {
        AtExtended(at.1, Joined(front) + last, CRLF, 0);
        AtExtended(at.1, Joined(front) + last, DASHES, 0);
      }
    }
  }

  lemma MergeFirst(w: Bytes, pieces: seq<Bytes>)
    requires pieces != [] && |w| < 2
    ensures Joined([w] + pieces) == Joined([w + pieces[0]] + pieces[1..])
    ensures Behind([w] + pieces, 2) == Behind([w + pieces[0]] + pieces[1..], 2)
  {
    hide Joined, Behind;
    var a, b := [w] + pieces, [w + pieces[0]] + pieces[1..];
    JoinedFront(a);
    JoinedFront(pieces);
    JoinedFront(b);
    assert a[1..] == pieces && b[1..] == pieces[1..];
    assert w + (pieces[0] + Joined(pieces[1..])) == w + pieces[0] + Joined(pieces[1..]);
    BehindFirst(a, 2);
    BehindFirst(pieces, 2 - |w|);
    BehindFirst(b, 2);
  }

  lemma BehindFirst(pieces: seq<Bytes>, n: nat)
    requires pieces != [] && n > 0
    ensures Behind(pieces, n) == if |pieces[0]| >= n then pieces[1..] else Behind(pieces[1..], n - |pieces[0]|)
  {
  }

  lemma {:induction false} FateIs(w: Bytes, pieces: seq<Bytes>)
    requires |w| < 2
    ensures Fate((4, w), pieces) == (if Reopens([w] + pieces) then 1 else 4, Remains([w] + pieces))
    decreases |pieces|
  {
    hide Fate, Reopens, Remains, Joined, At, Behind;
    if pieces == [] {
      JustWindow(w);
    } else {
      var v, rest := w + pieces[0], pieces[1..];
      FateFront((4, w), pieces);
      MergeFirst(w, pieces);
      ReopensAlike([w] + pieces, [v] + rest);
      AtFits(v, CRLF, 0);
      AtFits(v, DASHES, 0);
      if At(v, CRLF, 0) {
        FateStays((1, v[2..]), rest);
        assert v[2..] + Joined(rest) == (v + Joined(rest))[2..];
        LooksAt(v, rest);
      } else if At(v, DASHES, 0) {
        FateIs([], rest);
        EmptyFirst(rest);
        LooksAt(v, rest);
      } else if |v| >= 2 {
        FateStays((4, v), rest);
        LooksAt(v, rest);
      } else {
        FateIs(v, rest);
      }
    }
  }

  lemma JustWindow(w: Bytes)
    requires |w| < 2
    ensures Fate((4, w), []) == (4, w) && !Reopens([w] + []) && Remains([w] + []) == w
  {
    assert [w] + [] == [w];
    JoinedFront([w]);
    assert Joined([w][1..]) == [] && w + [] == w;
  }

  lemma ReopensAlike(a: seq<Bytes>, b: seq<Bytes>)
    requires a != [] && b != [] && Joined(a) == Joined(b) && Behind(a, 2) == Behind(b, 2)
    ensures (Reopens(a) <==> Reopens(b)) && Remains(a) == Remains(b)
  {
  }

  // With two bytes in the first piece, they decide.
  lemma LooksAt(v: Bytes, rest: seq<Bytes>)
    requires |v| >= 2
    ensures Reopens([v] + rest) <==> At(v, CRLF, 0) || (At(v, DASHES, 0) && Reopens(rest))
    ensures Remains([v] + rest) == if At(v, CRLF, 0) then (v + Joined(rest))[2..] else if At(v, DASHES, 0) then Remains(rest) else v + Joined(rest)
  {
    JoinedFront([v] + rest);
    assert ([v] + rest)[1..] == rest;
    assert Behind([v] + rest, 2) == Behind(rest, 0) == rest;
    AtExtended(v, Joined(rest), CRLF, 0);
    AtExtended(v, Joined(rest), DASHES, 0);
    NotBoth(v);
  }

  // Which cuts leave the parser at the end, and which make it expect another part: with a receiver that takes
  // everything, and once the delimiter has come.
  method EpilogueByCut(boundary: Bytes, pieces: seq<Bytes>) returns (parser: Parser)
    requires pieces != []
    ensures parser.Valid()
    ensures var all, d := Joined(pieces), CRLF + DASHES + boundary;
            var n := Find(all, d) + |d|;
            && parser.input == all
            && if Find(all, d) == |all| then parser.state == 3
            else
              && n <= |all| && parser.delivered == all[..Find(all, d)] && (parser.isValid <==> At(all[n..], DASHES, 0))
              && parser.state == (if Reopens(Rest(pieces, n)) then 1 else 4) && parser.Window() == Remains(Rest(pieces, n))
              && (|all| >= n + 2 && all[n..n + 2] == CRLF ==> parser.state == 1 && parser.Window() == all[n + 2..])
  {
    hide Searching, Find, At, Rest, Fate, Reopens, Remains, Joined, AfterBoundary;
    parser := new Parser(boundary, [], 0, 0, true);
    var ok := ParseAll(parser, pieces);
    assert [] + Joined(pieces) == Joined(pieces);
    NothingLeft(pieces);
    ghost var n := |parser.delivered| + |parser.crlfDashBoundary|;
    if parser.state != 3 && |parser.input| >= n + 2 { TwoBytes(parser.input, n); }
  }

  lemma TwoBytes(all: Bytes, n: nat)
    requires n + 2 <= |all|
    ensures all[n..][..2] == all[n..n + 2] && all[n..][2..] == all[n + 2..]
  {
  }

  lemma NothingLeft(pieces: seq<Bytes>)
    requires pieces != []
    ensures Calls([], pieces) == pieces
  {
    assert [] + pieces[0] == pieces[0] && [pieces[0]] + pieces[1..] == pieces;
  }

  // The same bytes behind the closing dashes, in different calls: a line end in the same call as the dashes is
  // dropped with the rest of the epilogue, but in the next call it makes the parser expect another part.
  method EpilogueDependsOnCut(boundary: Bytes) returns (whole: Parser, cut: Parser)
    ensures whole.Valid() && cut.Valid() && whole.input == cut.input && whole.delivered == cut.delivered == []
    ensures whole.state == 4 && cut.state == 1
  {
    hide Find, Reopens, Rest, Joined, At;
    var d := CRLF + DASHES + boundary;
    DashesAndLineEnd();
    DelimiterFirst(d, DASHES + CRLF);
    ClosedAtOnce(d, DASHES + CRLF);
    TwoCalls(d + DASHES, CRLF);
    DashesThenLineEnd(d, DASHES, CRLF);
    Associate(d, DASHES, CRLF);
    whole := EpilogueByCut(boundary, [d + (DASHES + CRLF)]);
    cut := EpilogueByCut(boundary, [d + DASHES, CRLF]);
  }

  lemma OneCall(data: Bytes)
    ensures Joined([data]) == data
  {
    assert [data] == [] + [data] && [] + data == data;
    JoinedSnoc([], data);
  }

  lemma RestAtOnce(d: Bytes, first: Bytes, rest: seq<Bytes>)
    ensures Rest([d + first] + rest, |d|) == [first] + rest
  {
    assert (d + first)[|d|..] == first && ([d + first] + rest)[1..] == rest;
  }

  lemma ClosedAtOnce(d: Bytes, x: Bytes)
    requires At(x, DASHES, 0)
    ensures Joined([d + x]) == d + x && !Reopens(Rest([d + x], |d|))
  {
    hide Joined, Rest, Reopens, Behind;
    OneCall(d + x);
    RestAtOnce(d, x, []);
    assert [d + x] == [d + x] + [];
    DashesOnly(x);
  }

  lemma DashesOnly(x: Bytes)
    requires At(x, DASHES, 0)
    ensures !Reopens([x] + [])
  {
    hide Reopens;
    NotBoth(x);
    LooksAt(x, []);
    NothingReopens();
  }

  lemma NothingReopens()
    ensures !Reopens([])
  {
  }

  lemma Associate(a: Bytes, b: Bytes, c: Bytes)
    ensures a + b + c == a + (b + c)
  {
  }

  lemma TwoCalls(a: Bytes, b: Bytes)
    ensures Joined([a, b]) == a + b
  {
    hide Joined;
    assert [a, b] == [a] + [b];
    OneCall(a);
    JoinedSnoc([a], b);
  }

  lemma DashesThenLineEnd(d: Bytes, x: Bytes, y: Bytes)
    requires At(x, DASHES, 0) && At(y, CRLF, 0)
    ensures Reopens(Rest([d + x, y], |d|))
  {
    hide Joined, Rest, Reopens, At;
    assert [d + x] + [y] == [d + x, y] && [x] + [y] == [x, y];
    RestAtOnce(d, x, [y]);
    AtFits(x, DASHES, 0);
    CutAt(x, y);
  }

  lemma DashesAndLineEnd()
    ensures At(DASHES + CRLF, DASHES, 0) && At(DASHES, DASHES, 0) && At(CRLF, CRLF, 0)
  {
    assert (DASHES + CRLF)[0..2] == DASHES && DASHES[0..2] == DASHES && CRLF[0..2] == CRLF;
  }

  lemma DelimiterFirst(d: Bytes, rest: Bytes)
    requires d != []
    ensures Find(d + rest, d) == 0
  {
    assert (d + rest)[0..|d|] == d;
    FindIs(d + rest, d, 0);
  }

  lemma {:induction false} ReopensAtLineEnd(pieces: seq<Bytes>) returns (j: nat)
    requires Reopens(pieces)
    ensures At(Joined(pieces), CRLF, j)
    decreases |pieces|
  {
    var all := Joined(pieces);
    if At(all, CRLF, 0) {
      j := 0;
    } else {
      var i := ReopensAtLineEnd(Behind(pieces, 2));
      var k := BehindIsSuffix(pieces, 2);
      AtSlice(all, k, CRLF, i);
      j := k + i;
    }
  }

  lemma {:induction false} BehindIsSuffix(pieces: seq<Bytes>, n: nat) returns (k: nat)
    ensures k <= |Joined(pieces)| && Joined(Behind(pieces, n)) == Joined(pieces)[k..]
  {
    if n == 0 || pieces == [] {
      k := 0;
    } else {
      var i := BehindIsSuffix(pieces[1..], if |pieces[0]| >= n then 0 else n - |pieces[0]|);
      JoinedFront(pieces);
      k := |pieces[0]| + i;
    }
  }

  // The cut behind the closing dashes never matters exactly if there is no line end in the epilogue.
  lemma CutNeverMatters(epilogue: Bytes)
    ensures (forall pieces | Joined(pieces) == DASHES + epilogue :: !Reopens(pieces)) <==> Find(epilogue, CRLF) == |epilogue|
  {
    var q, all := Find(epilogue, CRLF), DASHES + epilogue;
    if q < |epilogue| {
      var pieces := [DASHES + epilogue[..q], epilogue[q..]];
      CutAt(DASHES + epilogue[..q], epilogue[q..]);
      AtSlice(epilogue, q, CRLF, 0);
      assert Joined(pieces) == all;
    } else {
      forall pieces | Joined(pieces) == all ensures !Reopens(pieces) {
        if Reopens(pieces) {
          var j := ReopensAtLineEnd(pieces);
          assert all[j..j + 2][0] == CRLF[0] && all[j..j + 2][0] == all[j];
          assert all[2..] == epilogue;
          AtSlice(all, 2, CRLF, j - 2);
        }
      }
    }
  }

  lemma CutAt(first: Bytes, second: Bytes)
    requires |first| >= 2 && At(first, DASHES, 0)
    ensures Joined([first, second]) == first + second
    ensures Reopens([first, second]) <==> Reopens([second])
    ensures At(second, CRLF, 0) ==> Reopens([second])
  {
    assert [first] + [second] == [first, second];
    LooksAt(first, [second]);
    NotBoth(first);
    JoinedFront([first, second]);
    assert [first, second][1..] == [second];
    JoinedFront([second]);
    assert Joined([second][1..]) == [] && second + [] == second;
  }
}
