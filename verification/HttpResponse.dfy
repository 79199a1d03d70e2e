/** pset6/pong61.c: the incremental parser for HTTP response headers (the
    Full-Response of section 6 of RFC 1945) and the check of the body. */
module HttpResponse {
  import opened Basics

  datatype State = INITIAL | HEADERS | BODY | DONE | CLOSED | BROKEN

  const CR: byte := 13
  const LF: byte := 10

  /** The library calls on a line: `sscanf` with "HTTP/1.%d %d", which gives
      the status if both numbers are there, and `strtoul`. */
  datatype Scanner = Scanner(status: seq<byte> -> Option<int>, number: seq<byte> -> nat)

  /** What the parser knows, and the bytes it has not consumed. */
  datatype Parse = Parse(state: State, status: int, length: nat, hasLength: bool, rest: seq<byte>)

  /** "Content-Length: " */
  const CONTENT_LENGTH: seq<byte> := [67, 111, 110, 116, 101, 110, 116, 45, 76, 101, 110, 103, 116, 104, 58, 32]

  /** A C string: the bytes before the first NUL. */
  function CString(s: seq<byte>): (c: seq<byte>)
    ensures |c| <= |s| && c == s[..|c|] && 0 !in c && (|c| < |s| ==> s[|c|] == 0)
  {
    if s == [] || s[0] == 0 then [] else [s[0]] + CString(s[1..])
  }

  /** The effect of a line on what the parser knows. */
  function TakeLine(scan: Scanner, p: Parse, line: seq<byte>, rest: seq<byte>): Parse {
    var text := CString(line);
    if p.state == INITIAL then
      match scan.status(text)
      case Some(code) => p.(state := HEADERS, status := code, rest := rest)
      case None => p.(state := BROKEN, rest := rest)
    else if line == [] then p.(state := BODY, rest := rest)
    else if CONTENT_LENGTH <= text then p.(length := scan.number(text[16..]), hasLength := true, rest := rest)
    else p.(rest := rest)
  }

  predicate Reading(s: State) { s == INITIAL || s == HEADERS }

  predicate CrlfAt(s: seq<byte>, i: nat) { i + 1 < |s| && s[i] == CR && s[i + 1] == LF }

  /** The first line end in `s`, or its length. */
  function LineEnd(s: seq<byte>): (k: nat)
    ensures k <= |s| && (k < |s| ==> CrlfAt(s, k)) && forall j :: 0 <= j < k ==> !CrlfAt(s, j)
  {
    if s == [] || CrlfAt(s, 0) then 0
    else
      var k := LineEnd(s[1..]);
      assert forall j :: 0 < j < |s| ==> (CrlfAt(s, j) <==> CrlfAt(s[1..], j - 1));
      k + 1
  }

  /** There is a line to take. */
  predicate Steps(p: Parse) { Reading(p.state) && LineEnd(p.rest) < |p.rest| }

  function FirstLine(p: Parse): (line: seq<byte>)
    requires Steps(p)
    ensures forall j: nat :: !CrlfAt(line, j)
  {
    var line := p.rest[..LineEnd(p.rest)];
    assert forall j: nat :: CrlfAt(line, j) ==> CrlfAt(p.rest, j);
    line
  }

  function Next(scan: Scanner, p: Parse): (q: Parse)
    requires Steps(p)
    ensures |q.rest| < |p.rest| && p.rest == FirstLine(p) + [CR, LF] + q.rest
  {
    TakeLine(scan, p, FirstLine(p), p.rest[LineEnd(p.rest) + 2..])
  }

  /** Parsing all that is there. */
  function Process(scan: Scanner, p: Parse): Parse
    decreases |p.rest|
  {
    if Steps(p) then Process(scan, Next(scan, p)) else p
  }

  function More(p: Parse, b: seq<byte>): Parse { p.(rest := p.rest + b) }

  lemma LineEndIs(s: seq<byte>, k: nat)
    requires CrlfAt(s, k) && forall j :: 0 <= j < k ==> !CrlfAt(s, j)
    ensures LineEnd(s) == k
  {
  }

  /** A line end stays where it is when more bytes follow. */
  lemma LineEndMore(s: seq<byte>, b: seq<byte>)
    requires LineEnd(s) < |s|
    ensures LineEnd(s + b) == LineEnd(s)
    ensures (s + b)[..LineEnd(s)] == s[..LineEnd(s)] && (s + b)[LineEnd(s) + 2..] == s[LineEnd(s) + 2..] + b
  {
    var k := LineEnd(s);
    forall j | 0 <= j < k ensures !CrlfAt(s + b, j) { assert !CrlfAt(s, j); }
    LineEndIs(s + b, k);
  }

  lemma NextMore(scan: Scanner, p: Parse, b: seq<byte>)
    requires Steps(p)
    ensures Steps(More(p, b)) && Next(scan, More(p, b)) == More(Next(scan, p), b)
  {
    LineEndMore(p.rest, b);
    hide LineEnd, CString, Reading;
  }

  /** Parsing does not depend on how the bytes are split into chunks, not
      even between a carriage return and its line feed. */
  lemma {:induction false} ChunkIndependent(scan: Scanner, p: Parse, b: seq<byte>)
    ensures Process(scan, More(Process(scan, p), b)) == Process(scan, More(p, b))
    decreases |p.rest|
  {
    hide Steps, Next, More;
    if Steps(p) {
      NextMore(scan, p, b);
      ChunkIndependent(scan, Next(scan, p), b);
    }
  }

  /** Parsing chunk by chunk. */
  function Feed(scan: Scanner, p: Parse, chunks: seq<seq<byte>>): Parse
    decreases |chunks|
  {
    if chunks == [] then p else Feed(scan, Process(scan, More(p, chunks[0])), chunks[1..])
  }

  function Concat(chunks: seq<seq<byte>>): seq<byte> {
    if chunks == [] then [] else chunks[0] + Concat(chunks[1..])
  }

  /** Any number of chunks is like one. */
  lemma {:induction false} FeedConcat(scan: Scanner, p: Parse, chunks: seq<seq<byte>>)
    ensures Process(scan, Feed(scan, p, chunks)) == Process(scan, More(p, Concat(chunks)))
    decreases |chunks|
  {
    if chunks == [] {
      assert More(p, []) == p;
    } else {
      var q, rest := More(p, chunks[0]), Concat(chunks[1..]);
      FeedConcat(scan, Process(scan, q), chunks[1..]);
      ChunkIndependent(scan, q, rest);
      assert More(q, rest) == More(p, Concat(chunks)) by {
        assert p.rest + chunks[0] + rest == p.rest + (chunks[0] + rest);
      }
    }
  }

  /** The lines consumed. */
  function Lines(scan: Scanner, p: Parse): seq<seq<byte>>
    decreases |p.rest|
  {
    if Steps(p) then [FirstLine(p)] + Lines(scan, Next(scan, p)) else []
  }

  function Unlines(lines: seq<seq<byte>>): seq<byte> {
    if lines == [] then [] else lines[0] + [CR, LF] + Unlines(lines[1..])
  }

  lemma Joined(line: seq<byte>, lines: seq<seq<byte>>, rest: seq<byte>)
    ensures Unlines([line] + lines) + rest == line + [CR, LF] + (Unlines(lines) + rest)
  {
  }

  /** No byte is lost: the lines consumed and the rest are the input. */
  lemma {:induction false} NothingLost(scan: Scanner, p: Parse)
    ensures Unlines(Lines(scan, p)) + Process(scan, p).rest == p.rest
    decreases |p.rest|
  {
    hide Steps, Next, FirstLine, Unlines;
    if Steps(p) {
      NothingLost(scan, Next(scan, p));
      Joined(FirstLine(p), Lines(scan, Next(scan, p)), Process(scan, p).rest);
    } else {
      NoLines(p.rest);
    }
  }

  lemma NoLines(rest: seq<byte>)
    ensures Unlines([]) + rest == rest
  {
  }

  lemma NextState(scan: Scanner, p: Parse)
    requires Steps(p)
    ensures Next(scan, p).state == BODY <==> p.state == HEADERS && FirstLine(p) == []
    ensures !Reading(Next(scan, p).state) ==>
      Next(scan, p).state == BODY || (Next(scan, p).state == BROKEN && p.state == INITIAL)
    ensures Next(scan, p).state != INITIAL
  {
  }

  /** The first empty line, or their number. */
  function FirstEmpty(lines: seq<seq<byte>>): (k: nat)
    ensures k <= |lines| && (k < |lines| ==> lines[k] == []) && forall j :: 0 <= j < k ==> lines[j] != []
  {
    if lines == [] || lines[0] == [] then 0 else 1 + FirstEmpty(lines[1..])
  }

  lemma FirstEmptyMore(line: seq<byte>, lines: seq<seq<byte>>)
    ensures FirstEmpty([line] + lines) == if line == [] then 0 else 1 + FirstEmpty(lines)
  {
  }

  /** The body starts after the first empty header line, and a parser that
      wants more headers has no full line left. */
  lemma {:induction false} HeadersEnd(scan: Scanner, p: Parse)
    requires p.state == HEADERS
    ensures var q, lines := Process(scan, p), Lines(scan, p);
      (q.state == HEADERS && LineEnd(q.rest) == |q.rest| && FirstEmpty(lines) == |lines|)
      || (q.state == BODY && FirstEmpty(lines) + 1 == |lines|)
    decreases |p.rest|
  {
    if Steps(p) {
      var next, line := Next(scan, p), FirstLine(p);
      NextState(scan, p);
      FirstEmptyMore(line, Lines(scan, next));
      if next.state == HEADERS { HeadersEnd(scan, next); }
      hide Next, FirstLine, LineEnd, FirstEmpty;
    }
  }

  // ------------------------------------------- what the headers mean

  /** A header line that gives the length of the body. */
  predicate IsLength(line: seq<byte>) { CONTENT_LENGTH <= CString(line) }

  /** The last line that gives it, or their number. */
  function LastLength(lines: seq<seq<byte>>): (k: nat)
    ensures k <= |lines| && (k < |lines| ==> IsLength(lines[k]))
    ensures forall j :: 0 <= j < |lines| && (k < j || k == |lines|) ==> !IsLength(lines[j])
  {
    if lines == [] then 0
    else
      var k := LastLength(lines[1..]);
      if k < |lines| - 1 then k + 1 else if IsLength(lines[0]) then 0 else |lines|
  }

  /** `length` and `has` are what the header lines make of `length0` and
      `has0`: the number in the last of them that gives a length. */
  predicate LengthFrom(scan: Scanner, lines: seq<seq<byte>>, length0: nat, has0: bool, length: nat, has: bool) {
    var k := LastLength(lines);
    if k < |lines| then has && length == scan.number(CString(lines[k])[16..]) else length == length0 && has == has0
  }

  lemma LengthMore(scan: Scanner, line: seq<byte>, lines: seq<seq<byte>>, l0: nat, h0: bool, l1: nat, h1: bool,
                   l: nat, h: bool)
    requires LengthFrom(scan, lines, l1, h1, l, h)
    requires if IsLength(line) then h1 && l1 == scan.number(CString(line)[16..]) else l1 == l0 && h1 == h0
    ensures LengthFrom(scan, [line] + lines, l0, h0, l, h)
  {
    assert ([line] + lines)[1..] == lines;
    hide IsLength, CString;
  }

  /** Header lines never change the status, and the length is that of the
      last one that gives it. */
  lemma {:induction false} HeadersMean(scan: Scanner, p: Parse)
    requires p.state == HEADERS
    ensures var q := Process(scan, p);
      q.status == p.status && LengthFrom(scan, Lines(scan, p), p.length, p.hasLength, q.length, q.hasLength)
    decreases |p.rest|
  {
    if Steps(p) {
      var next, line, q := Next(scan, p), FirstLine(p), Process(scan, p);
      LengthOfNext(scan, p);
      NextState(scan, p);
      if next.state == HEADERS {
        HeadersMean(scan, next);
      } else {
        BodyStays(scan, next);
      }
      hide Process, Lines, Next, FirstLine, LengthFrom;
      LengthMore(scan, line, Lines(scan, next), p.length, p.hasLength, next.length, next.hasLength, q.length,
        q.hasLength);
    }
  }

  lemma BodyStays(scan: Scanner, p: Parse)
    requires !Reading(p.state)
    ensures Process(scan, p) == p && Lines(scan, p) == []
      && LengthFrom(scan, [], p.length, p.hasLength, p.length, p.hasLength)
  {
  }

  lemma LengthOfNext(scan: Scanner, p: Parse)
    requires p.state == HEADERS && Steps(p)
    ensures var next, line := Next(scan, p), FirstLine(p);
      next.status == p.status
      && if IsLength(line) then next.hasLength && next.length == scan.number(CString(line)[16..])
         else next.length == p.length && next.hasLength == p.hasLength
  {
  }

  /** The first line gives the status, if it has one, and the others the
      length. */
  lemma ResponseMeans(scan: Scanner, p: Parse)
    requires p.state == INITIAL
    ensures var q, lines := Process(scan, p), Lines(scan, p);
      if LineEnd(p.rest) == |p.rest| then lines == [] && q == p
      else
        lines != [] && lines[0] == p.rest[..LineEnd(p.rest)]
        && match scan.status(CString(lines[0]))
           case Some(code) =>
             q.status == code && LengthFrom(scan, lines[1..], p.length, p.hasLength, q.length, q.hasLength)
           case None =>
             |lines| == 1 && q == Parse(BROKEN, p.status, p.length, p.hasLength, p.rest[|lines[0]| + 2..])
  {
    if Steps(p) {
      var next := Next(scan, p);
      FirstNext(scan, p);
      assert Lines(scan, p)[1..] == Lines(scan, next);
      if next.state == HEADERS { HeadersMean(scan, next); } else { BodyStays(scan, next); }
      hide Next, LengthFrom, LineEnd, CString;
    }
  }

  lemma FirstNext(scan: Scanner, p: Parse)
    requires p.state == INITIAL && Steps(p)
    ensures var line := p.rest[..LineEnd(p.rest)];
      FirstLine(p) == line
      && Next(scan, p) ==
        match scan.status(CString(line))
        case Some(code) => Parse(HEADERS, code, p.length, p.hasLength, p.rest[|line| + 2..])
        case None => Parse(BROKEN, p.status, p.length, p.hasLength, p.rest[|line| + 2..])
  {
    hide CString, LineEnd;
  }

  ghost predicate NoLineEnd(line: seq<byte>) { forall j: nat :: !CrlfAt(line, j) }

  /** A line in front of the rest of the input. */
  lemma LineFirst(p: Parse, line: seq<byte>, rest: seq<byte>)
    requires Reading(p.state) && NoLineEnd(line) && p.rest == line + [CR, LF] + rest
    ensures Steps(p) && FirstLine(p) == line && p.rest[LineEnd(p.rest) + 2..] == rest
  {
    forall j: nat | j < |line| ensures !CrlfAt(p.rest, j) {
      assert !CrlfAt(line, j);
    }
    assert CrlfAt(p.rest, |line|);
    LineEndIs(p.rest, |line|);
  }

  /** Reading a response that was written with a status line, any header
      lines and an empty one: the lines are read as they are, and the body
      is what follows. */
  lemma {:induction false} HeadersRead(scan: Scanner, p: Parse, headers: seq<seq<byte>>, body: seq<byte>)
    requires p.state == HEADERS && p.rest == Unlines(headers + [[]]) + body
    requires forall line :: line in headers ==> NoLineEnd(line) && line != []
    ensures var q := Process(scan, p);
      q.state == BODY && q.rest == body && q.status == p.status && Lines(scan, p) == headers + [[]]
    decreases |headers|
  {
    if headers == [] {
      assert Unlines([[]]) == [CR, LF] && p.rest == [] + [CR, LF] + body;
      LineFirst(p, [], body);
      assert Next(scan, p).state == BODY;
    } else {
      var line, more := headers[0], headers[1..];
      assert headers + [[]] == [line] + (more + [[]]);
      var rest := Unlines(more + [[]]) + body;
      Joined(line, more + [[]], body);
      LineFirst(p, line, rest);
      HeaderNext(scan, p, line, rest);
      HeadersRead(scan, Next(scan, p), more, body);
      hide Next, FirstLine, Unlines, LineEnd;
    }
  }

  lemma HeaderNext(scan: Scanner, p: Parse, line: seq<byte>, rest: seq<byte>)
    requires p.state == HEADERS && Steps(p) && FirstLine(p) == line != [] && p.rest[LineEnd(p.rest) + 2..] == rest
    ensures Next(scan, p).state == HEADERS && Next(scan, p).rest == rest && Next(scan, p).status == p.status
  {
  }

  lemma ResponseRead(scan: Scanner, p: Parse, first: seq<byte>, headers: seq<seq<byte>>, body: seq<byte>)
    requires p.state == INITIAL && p.rest == Unlines([first] + headers + [[]]) + body
    requires NoLineEnd(first) && forall line :: line in headers ==> NoLineEnd(line) && line != []
    requires scan.status(CString(first)).Some?
    ensures var q := Process(scan, p);
      q.state == BODY && q.rest == body && q.status == scan.status(CString(first)).value
      && LengthFrom(scan, headers, p.length, p.hasLength, q.length, q.hasLength)
  {
    var rest := Unlines(headers + [[]]) + body;
    assert [first] + headers + [[]] == [first] + (headers + [[]]);
    Joined(first, headers + [[]], body);
    LineFirst(p, first, rest);
    var next, q := Next(scan, p), Process(scan, p);
    assert next == Parse(HEADERS, scan.status(CString(first)).value, p.length, p.hasLength, rest);
    HeadersRead(scan, next, headers, body);
    HeadersMean(scan, next);
    EmptyLineLast(scan, headers, p.length, p.hasLength, q.length, q.hasLength);
  }

  lemma EmptyLineLast(scan: Scanner, headers: seq<seq<byte>>, l0: nat, h0: bool, l: nat, h: bool)
    requires LengthFrom(scan, headers + [[]], l0, h0, l, h)
    ensures LengthFrom(scan, headers, l0, h0, l, h)
  {
    var all, k, n := headers + [[]], LastLength(headers + [[]]), LastLength(headers);
    assert forall j :: 0 <= j < |headers| ==> all[j] == headers[j];
    assert !IsLength(all[|headers|]);
    hide IsLength, CString;
    assert n < |headers| ==> !(n < k || k == |all|) && !(k < n);
  }

  // --------------------------------------------------- clearing the buffer

  /** What `http_receive_response_headers` does between reads: it drops what
      is in the buffer before it reads on. */
  function Refill(p: Parse, b: seq<byte>): Parse { p.(rest := b) }

  /** Dropping what is left is harmless, whatever comes next, if and only if
      nothing is left; among the headers even the state tells the difference,
      at the latest when the next bytes are a line end. */
  lemma ClearingHarmless(scan: Scanner, q: Parse)
    requires Reading(q.state) && !Steps(q)
    ensures (forall b :: Process(scan, Refill(q, b)) == Process(scan, More(q, b))) <==> q.rest == []
    ensures q.state == HEADERS ==>
      ((forall b :: Process(scan, Refill(q, b)).state == Process(scan, More(q, b)).state) <==> q.rest == [])
  {
    if q.rest == [] {
      forall b ensures Refill(q, b) == More(q, b) { assert [] + b == b; }
    } else {
      assert More(q, []) == q by { assert q.rest + [] == q.rest; }
      assert !Steps(Refill(q, []));
      assert Process(scan, Refill(q, [])) != Process(scan, More(q, []));
      if q.state == HEADERS { CutLine(scan, q); }
    }
  }

  /** A line end alone ends the headers; behind part of a line it does not. */
  lemma CutLine(scan: Scanner, q: Parse)
    requires q.state == HEADERS && !Steps(q) && q.rest != []
    ensures Process(scan, Refill(q, [CR, LF])).state == BODY
    ensures Process(scan, More(q, [CR, LF])).state == HEADERS
  {
    var one, two := Refill(q, [CR, LF]), More(q, [CR, LF]);
    LineEndIs(one.rest, 0);
    assert FirstLine(one) == [];
    forall j | 0 <= j < |q.rest| ensures !CrlfAt(two.rest, j) { assert !CrlfAt(q.rest, j); }
    LineEndIs(two.rest, |q.rest|);
    var next := Next(scan, two);
    assert FirstLine(two) == q.rest && next.state == HEADERS && next.rest == [];
    assert !Steps(next) && !Steps(Next(scan, one));
  }

  /** `http_receive_response_headers` on a stream of reads, of which an
      interrupted one is empty, and then its end: the parse and the number of
      reads used. */
  function Called(scan: Scanner, p: Parse, arrivals: seq<seq<byte>>): (Parse, nat)
    decreases |arrivals|
  {
    var q := Process(scan, p);
    if !Reading(q.state) then (q, 0)
    else if arrivals == [] then (q.(state := BROKEN, rest := []), 0)
    else
      var r := Called(scan, Refill(q, arrivals[0]), arrivals[1..]);
      (r.0, r.1 + 1)
  }

  /** `qs` are the parses after each of the reads: every read but the last
      left the parser among the headers, and is parsed alone, behind the state
      that the reads before it have made. */
  ghost predicate ReadByRead(scan: Scanner, qs: seq<Parse>, arrivals: seq<seq<byte>>) {
    0 < |qs| <= |arrivals| + 1
    && forall i :: 0 <= i < |qs| - 1 ==>
         Reading(qs[i].state)
         && qs[i + 1] == Process(scan, Parse(qs[i].state, qs[i].status, qs[i].length, qs[i].hasLength, arrivals[i]))
  }

  /** The caller reads until the headers end or the stream does. */
  lemma {:induction false} CalledReads(scan: Scanner, p: Parse, arrivals: seq<seq<byte>>) returns (qs: seq<Parse>)
    ensures ReadByRead(scan, qs, arrivals) && qs[0] == Process(scan, p)
    ensures var (r, used) := Called(scan, p, arrivals); var last := qs[|qs| - 1];
      used == |qs| - 1
      && if Reading(last.state) then used == |arrivals| && r == last.(state := BROKEN, rest := []) else r == last
    decreases |arrivals|
  {
    hide Process, Reading;
    var q := Process(scan, p);
    if !Reading(q.state) || arrivals == [] {
      qs := [q];
    } else {
      var more := CalledReads(scan, Refill(q, arrivals[0]), arrivals[1..]);
      qs := [q] + more;
      forall i | 0 <= i < |qs| - 1
        ensures Reading(qs[i].state)
        ensures qs[i + 1] == Process(scan, Parse(qs[i].state, qs[i].status, qs[i].length, qs[i].hasLength, arrivals[i]))
      {
        if i > 0 { assert arrivals[1..][i - 1] == arrivals[i]; }
      }
    }
  }

  /** Every read of the headers ends at the end of a line. */
  predicate LineByLine(scan: Scanner, p: Parse, arrivals: seq<seq<byte>>)
    decreases |arrivals|
  {
    var q := Process(scan, p);
    !Reading(q.state) || (q.rest == [] && (arrivals == [] || LineByLine(scan, More(q, arrivals[0]), arrivals[1..])))
  }

  /** Then the caller gets what the reads make as one chunk. */
  lemma {:induction false} CalledLineByLine(scan: Scanner, p: Parse, arrivals: seq<seq<byte>>)
    requires LineByLine(scan, p, arrivals)
    ensures var (r, used) := Called(scan, p, arrivals);
      used <= |arrivals|
      && var whole := Process(scan, More(p, Concat(arrivals[..used])));
      r == (if Reading(whole.state) then whole.(state := BROKEN) else whole)
        && (Reading(whole.state) ==> used == |arrivals|)
    decreases |arrivals|
  {
    hide Process, Reading;
    var q := Process(scan, p);
    if !Reading(q.state) || arrivals == [] {
      assert p.rest + [] == p.rest;
      assert arrivals[..0] == [] && More(p, Concat([])) == p;
    } else {
      var chunk, used := arrivals[0], Called(scan, p, arrivals).1;
      assert [] + chunk == chunk;
      assert Refill(q, chunk) == More(q, chunk);
      CalledLineByLine(scan, More(q, chunk), arrivals[1..]);
      var tail := Concat(arrivals[1..][..used - 1]);
      assert arrivals[..used][1..] == arrivals[1..][..used - 1];
      assert Concat(arrivals[..used]) == chunk + tail;
      assert q.rest + (chunk + tail) == (q.rest + chunk) + tail;
      assert More(More(q, chunk), tail) == More(q, chunk + tail);
      ChunkIndependent(scan, p, chunk + tail);
    }
  }

  /** So a header that is cut inside its name is not recognised, although
      the parser itself would have put the two parts together. */
  lemma ClearingLosesLength(scan: Scanner, p: Parse, k: nat)
    requires p.state == HEADERS && p.rest == [] && !p.hasLength && 0 < k < 16
    ensures var a, b := CONTENT_LENGTH[..k], CONTENT_LENGTH[k..] + [53, CR, LF];
      Process(scan, More(Process(scan, More(p, a)), b)).hasLength
      && !Process(scan, Refill(Process(scan, More(p, a)), b)).hasLength
  {
    var a, b := CONTENT_LENGTH[..k], CONTENT_LENGTH[k..] + [53, CR, LF];
    CutHeader(k);
    hide Process;
    ChunkIndependent(scan, More(p, a), b);
    OneHeader(scan, More(More(p, a), b), CONTENT_LENGTH + [53]);
    OneHeader(scan, p.(rest := b), CONTENT_LENGTH[k..] + [53]);
    NoHeader(scan, More(p, a));
  }

  predicate Plain(line: seq<byte>) { line != [] && CR !in line && 0 !in line }

  lemma CutHeader(k: nat)
    requires 0 < k < 16
    ensures var head, tail := CONTENT_LENGTH + [53], CONTENT_LENGTH[k..] + [53];
      CONTENT_LENGTH[..k] + (CONTENT_LENGTH[k..] + [53, CR, LF]) == head + [CR, LF]
        && CONTENT_LENGTH[k..] + [53, CR, LF] == tail + [CR, LF]
      && Plain(head) && Plain(tail) && CR !in CONTENT_LENGTH[..k] && CONTENT_LENGTH <= head && !(CONTENT_LENGTH <= tail)
  {
    var head, tail := CONTENT_LENGTH + [53], CONTENT_LENGTH[k..] + [53];
    assert Plain(CONTENT_LENGTH);
    assert CONTENT_LENGTH[0] == 67 && CONTENT_LENGTH[k] != 67 && tail[0] == CONTENT_LENGTH[k];
    assert forall c :: c in CONTENT_LENGTH[k..] ==> c in CONTENT_LENGTH;
    assert CONTENT_LENGTH[..k] + CONTENT_LENGTH[k..] == CONTENT_LENGTH;
  }

  lemma NoHeader(scan: Scanner, p: Parse)
    requires CR !in p.rest
    ensures Process(scan, p) == p
  {
  }

  /** A buffer that holds one plain header line. */
  lemma OneHeader(scan: Scanner, p: Parse, line: seq<byte>)
    requires p.state == HEADERS && p.rest == line + [CR, LF] && Plain(line)
    ensures Process(scan, p).hasLength == (p.hasLength || CONTENT_LENGTH <= line)
  {
    assert forall j :: 0 <= j < |line| ==> p.rest[j] == line[j];
    LineEndIs(p.rest, |line|);
    assert p.rest[..|line|] == line && p.rest[|line| + 2..] == [];
    assert CString(line) == line;
    NoHeader(scan, Next(scan, p));
  }

  // -------------------------------------------------------- the connection

  class Connection {
    const scan: Scanner
    const buf: array<byte>
    var len: nat
    var state: State
    var statusCode: int
    var contentLength: nat
    var hasContentLength: bool
    var eof: bool

    constructor (scan: Scanner, size: nat)
      ensures fresh(buf) && buf.Length == size && this.scan == scan && !eof
      ensures Valid() && Parsed() == Parse(INITIAL, -1, 0, false, [])
    {
      this.scan := scan;
      buf := new byte[size];
      len, state, statusCode, contentLength, hasContentLength, eof := 0, INITIAL, -1, 0, false, false;
    }

    predicate Valid()
      reads this
    {
      len <= buf.Length
    }

    ghost function Parsed(): Parse
      requires Valid()
      reads this, buf
    {
      Parse(state, statusCode, contentLength, hasContentLength, buf[..len])
    }

    /** A read that fits the buffer. */
    method Receive(chunk: seq<byte>)
      requires Valid() && len + |chunk| <= buf.Length
      modifies `len, buf
      ensures Valid() && Parsed() == More(old(Parsed()), chunk) && len == old(len) + |chunk|
    {
      forall k | 0 <= k < |chunk| { buf[len + k] := chunk[k]; }
      len := len + |chunk|;
      assert buf[..len] == old(buf[..len]) + chunk;
    }

    /** The fields after the line in `buf[..i]`, which is cut off by a NUL. */
    method ApplyLine(i: nat, ghost p: Parse, ghost rest: seq<byte>)
      requires i < buf.Length && Reading(state)
        && p.(rest := []) == Parse(state, statusCode, contentLength, hasContentLength, [])
      modifies `state, `statusCode, `contentLength, `hasContentLength, buf
      ensures forall j, k :: i < j <= k <= buf.Length ==> buf[j..k] == old(buf[j..k])
      ensures Parse(state, statusCode, contentLength, hasContentLength, rest) == TakeLine(scan, p, old(buf[..i]), rest)
    {
      hide CString;
      ghost var line := buf[..i];
      buf[i] := 0;
      assert buf[..i] == line;
      var text := CString(buf[..i]);
      if state == INITIAL {
        match scan.status(text) {
          case Some(code) => state, statusCode := HEADERS, code;
          case None => state := BROKEN;
        }
      } else if i == 0 {
        state := BODY;
      } else if CONTENT_LENGTH <= text {
        contentLength, hasContentLength := scan.number(text[16..]), true;
      }
    }

    /** `memmove` of the bytes from `start` to the front. */
    method MoveDown(start: nat)
      requires Valid() && start <= len
      modifies `len, buf
      ensures Valid() && buf[..len] == old(buf[start..len]) && len == old(len) - start
    {
      forall k | 0 <= k < len - start { buf[k] := buf[k + start]; }
      len := len - start;
    }

    /** The line of `i` bytes at the start of the buffer is parsed and moved
        out. */
    method TakeFirst(i: nat)
      requires Valid() && Steps(Parsed()) && i == LineEnd(buf[..len])
      modifies `len, `state, `statusCode, `contentLength, `hasContentLength, buf
      ensures Valid() && Parsed() == Next(scan, old(Parsed())) && len < old(len)
    {
      ghost var p, rest := Parsed(), buf[i + 2..len];
      assert FirstLine(p) == buf[..len][..i] == buf[..i] && rest == buf[..len][i + 2..];
      assert Next(scan, p) == TakeLine(scan, p, buf[..i], rest);
      hide Next, Steps, FirstLine, LineEnd, TakeLine, CString, CrlfAt, Reading;
      ApplyLine(i, p, rest);
      assert buf[i + 2..len] == rest;
      MoveDown(i + 2);
    }

    /** `http_process_response_headers` */
    method ProcessHeaders() returns (more: bool)
      requires Valid()
      modifies `len, `state, `statusCode, `contentLength, `hasContentLength, buf
      ensures Valid() && more == Reading(state)
      ensures Parsed() == var p := Process(scan, old(Parsed())); if eof then p.(state := BROKEN) else p
    {
      hide Next, CString, TakeLine, FirstLine, LineEnd;
      var i := 0;
      while Reading(state) && i + 2 <= len
        invariant Valid() && i <= len && forall j :: 0 <= j < i ==> !CrlfAt(buf[..len], j)
        invariant Process(scan, Parsed()) == Process(scan, old(Parsed()))
        decreases len, len - i
      {
        if buf[i] == CR && buf[i + 1] == LF {
          LineEndIs(buf[..len], i);
          TakeFirst(i);
          i := 0;
        } else {
          i := i + 1;
        }
      }
      LineEndNone(buf[..len], i);
      if eof { state := BROKEN; }
      more := Reading(state);
    }

    /** Clearing the buffer, one read, and the parsing after it. */
    method ReceiveMore(arrivals: seq<seq<byte>>, used: nat) returns (more: bool, used': nat)
      requires Valid() && !eof && used <= |arrivals| && forall k :: 0 <= k < |arrivals| ==> |arrivals[k]| <= buf.Length
      modifies this, buf
      ensures Valid() && more == Reading(state) && eof == (used == |arrivals|)
        && used' == (if eof then used else used + 1)
      ensures Parsed() == Round(scan, old(Parsed()), arrivals, used)
    {
      hide Process, Reading;
      used' := used;
      ghost var p := Parsed();
      len := 0;
      assert Parsed() == Refill(p, []);
      if used == |arrivals| {
        eof := true;
        assert Parsed() == Refill(p, []);
      } else {
        Receive(arrivals[used]);
        assert [] + arrivals[used] == arrivals[used];
        used' := used + 1;
        assert Parsed() == Refill(p, arrivals[used]);
      }
      more := ProcessHeaders();
    }

    /** `http_receive_response_headers` up to its check of the status code. */
    method ReceiveHeaders(arrivals: seq<seq<byte>>) returns (used: nat)
      requires Valid() && !eof && forall k :: 0 <= k < |arrivals| ==> |arrivals[k]| <= buf.Length
      modifies this, buf
      ensures Valid() && (Parsed(), used) == Called(scan, old(Parsed()), arrivals)
      ensures eof ==> state == BROKEN
    {
      used := 0;
      ghost var all := Called(scan, Parsed(), arrivals);
      assert arrivals[0..] == arrivals;
      ProcessTwice(scan, Parsed());
      CalledProcessed(scan, Parsed(), arrivals);
      hide Process, Called;
      var more := ProcessHeaders();
      while more
        invariant Valid() && used <= |arrivals| && more == Reading(state) && (eof ==> state == BROKEN)
        invariant Receiving(scan, Parsed(), eof, arrivals, used, all)
        decreases |arrivals| - used, !eof
      {
        RoundReceives(scan, Parsed(), arrivals, used, all);
        hide Receiving, Round;
        more, used := ReceiveMore(arrivals, used);
      }
      CalledDone(scan, Parsed(), arrivals[used..]);
    }

    /** `http_check_response_body` */
    method CheckBody() returns (more: bool)
      modifies `state
      ensures more == (state == BODY)
      ensures !eof ==> state == (if old(state) == BODY && hasContentLength && len >= contentLength then DONE
        else old(state))
      ensures eof ==> state == (if old(state) == DONE || (old(state) == BODY && len >= contentLength) then CLOSED
        else BROKEN)
    {
      if state == BODY && (hasContentLength || eof) && len >= contentLength { state := DONE; }
      if eof && state == DONE {
        state := CLOSED;
      } else if eof {
        state := BROKEN;
      }
      more := state == BODY;
    }

    /** `http_receive_response_body` on a stream of reads.  With a length the
        body is done at the first read that completes it; without one it is
        complete when the connection closes; and a stream that closes too
        early breaks it. */
    method ReceiveBody(chunks: seq<seq<byte>>) returns (used: nat)
      requires Valid() && state == BODY && !eof && len + |Concat(chunks)| <= buf.Length
      modifies this, buf
      ensures Valid() && used <= |chunks| && buf[..len] == old(buf[..len]) + Concat(chunks[..used])
      ensures state == DONE <==> hasContentLength && len >= contentLength && !eof
      ensures state == CLOSED <==> eof && len >= contentLength
      ensures state == BROKEN <==> eof && len < contentLength
      ensures eof ==> used == |chunks|
      ensures hasContentLength == old(hasContentLength) && contentLength == old(contentLength)
      ensures hasContentLength ==> forall k :: 0 <= k < used ==> old(len) + |Concat(chunks[..k])| < contentLength
      ensures state in {DONE, CLOSED, BROKEN}
    {
      hide Process, Lines, Feed, Called, Unlines, LineEnd, CString, LastLength, FirstEmpty;
      used := 0;
      ghost var start := buf[..len];
      assert chunks[..0] == [];
      var more := CheckBody();
      while more
        invariant Valid() && used <= |chunks| && more == (state == BODY)
        invariant buf[..len] == start + Concat(chunks[..used])
        invariant hasContentLength == old(hasContentLength) && contentLength == old(contentLength)
        invariant state == BODY ==> !eof && (hasContentLength ==> len < contentLength)
        invariant state == DONE <==> hasContentLength && len >= contentLength && !eof
        invariant state == CLOSED <==> eof && len >= contentLength
        invariant state == BROKEN <==> eof && len < contentLength
        invariant state in {BODY, DONE, CLOSED, BROKEN} && (eof ==> used == |chunks|)
        invariant hasContentLength ==> forall k :: 0 <= k < used ==> |start| + |Concat(chunks[..k])| < contentLength
        decreases |chunks| - used, !eof
      {
        if used == |chunks| {
          eof := true;
        } else {
          ConcatNext(chunks, used);
          Receive(chunks[used]);
          used := used + 1;
        }
        more := CheckBody();
      }
    }
  }

  /** One read and the parsing after it, at the end of the stream too. */
  function Round(scan: Scanner, p: Parse, arrivals: seq<seq<byte>>, used: nat): Parse
    requires used <= |arrivals|
  {
    if used == |arrivals| then Process(scan, Refill(p, [])).(state := BROKEN)
    else Process(scan, Refill(p, arrivals[used]))
  }

  /** Between two reads: what is left to do gives `all`. */
  ghost predicate Receiving(scan: Scanner, p: Parse, eof: bool, arrivals: seq<seq<byte>>, used: nat,
                            all: (Parse, nat)) {
    used <= |arrivals|
    && if eof then p.state == BROKEN && all == (p, used)
       else Process(scan, p) == p && all == Later(Called(scan, p, arrivals[used..]), used)
  }

  lemma RoundReceives(scan: Scanner, p: Parse, arrivals: seq<seq<byte>>, used: nat, all: (Parse, nat))
    requires Receiving(scan, p, false, arrivals, used, all) && Reading(p.state)
    ensures var end := used == |arrivals|; var q := Round(scan, p, arrivals, used);
      Receiving(scan, q, end, arrivals, if end then used else used + 1, all) && (end ==> q.state == BROKEN)
  {
    CalledStep(scan, p, arrivals[used..]);
    hide Process, Called, Reading;
    if used == |arrivals| {
      NoLineLeft(scan, Refill(p, []));
    } else {
      var q := Refill(p, arrivals[used]);
      ProcessTwice(scan, q);
      CalledProcessed(scan, q, arrivals[used + 1..]);
      assert arrivals[used..][1..] == arrivals[used + 1..];
    }
  }

  function Later(r: (Parse, nat), used: nat): (Parse, nat) { (r.0, r.1 + used) }

  lemma {:induction false} ProcessTwice(scan: Scanner, p: Parse)
    ensures Process(scan, Process(scan, p)) == Process(scan, p)
    decreases |p.rest|
  {
    if Steps(p) { ProcessTwice(scan, Next(scan, p)); }
  }

  lemma NoLineLeft(scan: Scanner, p: Parse)
    requires p.rest == []
    ensures Process(scan, p) == p
  {
  }

  lemma CalledProcessed(scan: Scanner, p: Parse, arrivals: seq<seq<byte>>)
    ensures Called(scan, Process(scan, p), arrivals) == Called(scan, p, arrivals)
  {
    ProcessTwice(scan, p);
    hide Process;
  }

  lemma CalledStep(scan: Scanner, p: Parse, arrivals: seq<seq<byte>>)
    requires Process(scan, p) == p && Reading(p.state)
    ensures Called(scan, p, arrivals) ==
      if arrivals == [] then (p.(state := BROKEN, rest := []), 0)
      else Later(Called(scan, Refill(p, arrivals[0]), arrivals[1..]), 1)
  {
  }

  lemma CalledDone(scan: Scanner, p: Parse, arrivals: seq<seq<byte>>)
    requires !Reading(p.state)
    ensures Called(scan, p, arrivals) == (p, 0)
  {
  }

  lemma LineEndNone(s: seq<byte>, i: nat)
    requires forall j :: 0 <= j < i ==> !CrlfAt(s, j)
    ensures i + 2 > |s| ==> LineEnd(s) == |s|
  {
  }

  lemma {:induction false} ConcatNext(chunks: seq<seq<byte>>, k: nat)
    requires k < |chunks|
    ensures Concat(chunks[..k + 1]) == Concat(chunks[..k]) + chunks[k]
    ensures |Concat(chunks[..k + 1])| <= |Concat(chunks)|
  {
    if k == 0 {
      assert chunks[..1][1..] == [] && chunks[..0] == [];
    } else {
      ConcatNext(chunks[1..], k - 1);
      assert chunks[..k + 1][1..] == chunks[1..][..k] && chunks[..k][1..] == chunks[1..][..k - 1];
    }
  }
}
