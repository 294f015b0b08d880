/**
 Incremental framing of a server-sent event stream, a subset of section 9.2.6 of the WHATWG HTML
 Living Standard: chunks arrive in any division, and events end at a blank line.
 */
module SseDecoder {
  import opened Wrappers
  import opened Text

  type Byte = x: int | 0 <= x < 256

  const MAX_EVENT_BYTES: nat := 1024 * 1024
  const LF: seq<Byte> := [10, 10]
  const CRLF: seq<Byte> := [13, 10, 13, 10]

  datatype SseError = EventTooLarge | NotUtf8
  datatype Boundary = Boundary(at: nat, length: nat)

  // A blank line in line feeds is looked for everywhere before one in carriage returns.
  function FindBoundary(bytes: seq<Byte>): (b: Option<Boundary>)
    ensures b.Some? ==> b.value.length in {2, 4} && b.value.at + b.value.length <= |bytes|
  {
    var lf := Find(bytes, LF, 0);
    if lf.Some? then Some(Boundary(lf.value, 2))
    else
      var crlf := Find(bytes, CRLF, 0);
      if crlf.Some? then Some(Boundary(crlf.value, 4)) else None
  }

  // ---- The data of one event ----

  function TrimStart(text: string): string {
    if text != "" && IsSpace(text[0]) then TrimStart(text[1..]) else text
  }

  function DataLines(lines: seq<string>): seq<string> {
    if lines == [] then []
    else
      var before := DataLines(lines[..|lines| - 1]);
      var last := lines[|lines| - 1];
      if "data:" <= last then before + [TrimStart(last[5..])] else before
  }

  function JoinLines(lines: seq<string>): string {
    if lines == [] then ""
    else if |lines| == 1 then lines[0]
    else JoinLines(lines[..|lines| - 1]) + "\n" + lines[|lines| - 1]
  }

  function Data(text: string): string {
    JoinLines(DataLines(Lines(text)))
  }

  // ---- Decoding ----

  // Makes the data of one event from its bytes, unless they are not UTF-8.
  type Decode = seq<Byte> -> Option<string>

  function DecodeData(utf8: seq<Byte> -> Option<string>): Decode {
    raw => if utf8(raw).Some? then Some(Data(utf8(raw).value)) else None
  }

  // The events completed so far, what is left in the buffer, and what stopped the decoder.
  datatype Drained = Drained(events: seq<string>, rest: seq<Byte>, failure: Option<SseError>)

  // Events without data are dropped.
  function Kept(event: string): seq<string> {
    if event == "" then [] else [event]
  }

  function After(events: seq<string>, d: Drained): Drained {
    d.(events := events + d.events)
  }

  function Drain(buffer: seq<Byte>, decode: Decode): Drained
    decreases |buffer|
  {
    var found := FindBoundary(buffer);
    if found.None? then
      Drained([], buffer, if |buffer| > MAX_EVENT_BYTES then Some(EventTooLarge) else None)
    else if found.value.at > MAX_EVENT_BYTES then Drained([], buffer, Some(EventTooLarge))
    else
      var event := decode(buffer[..found.value.at]);
      if event.None? then Drained([], buffer, Some(NotUtf8))
      else After(Kept(event.value), Drain(buffer[found.value.at + found.value.length..], decode))
  }

  lemma AfterTwice(a: seq<string>, b: seq<string>, d: Drained)
    ensures After(a, After(b, d)) == After(a + b, d)
    ensures After([], d) == d
  {
    assert a + (b + d.events) == (a + b) + d.events;
    assert [] + d.events == d.events;
  }

  class SseDecoder {
    const decode: Decode
    var buffer: seq<Byte>

    constructor (utf8: seq<Byte> -> Option<string>)
      ensures decode == DecodeData(utf8) && buffer == []
    {
      decode, buffer := DecodeData(utf8), [];
    }

    /** Takes one chunk and returns the events it completes. */
    method PushBytes(chunk: seq<Byte>) returns (r: Result<seq<string>, SseError>)
      modifies this
      ensures var d := Drain(old(buffer) + chunk, decode);
              && buffer == d.rest
              && r == if d.failure.Some? then Err(d.failure.value) else Ok(d.events)
    {
      buffer := buffer + chunk;
      ghost var all := buffer;
      var events: seq<string> := [];
      AfterTwice([], [], Drain(buffer, decode));
      var found := FindBoundary(buffer);
      while found.Some?
        invariant found == FindBoundary(buffer)
        invariant Drain(all, decode) == After(events, Drain(buffer, decode))
        decreases |buffer|
      {
        var boundary := found.value;
        if boundary.at > MAX_EVENT_BYTES {
          return Err(EventTooLarge);
        }
        var event := decode(buffer[..boundary.at]);
        if event.None? {
          return Err(NotUtf8);
        }
        buffer := buffer[boundary.at + boundary.length..];
        AfterTwice(events, Kept(event.value), Drain(buffer, decode));
        events := events + Kept(event.value);
        found := FindBoundary(buffer);
      }
      assert events + [] == events;
      if |buffer| > MAX_EVENT_BYTES {
        return Err(EventTooLarge);
      }
      return Ok(events);
    }
  }

  // ---- Independence of the division into chunks ----

  // No blank line in carriage returns is followed by one in line feeds.
  ghost predicate Orderly(stream: seq<Byte>) {
    forall q, p :: OccursAt(stream, CRLF, q) && OccursAt(stream, LF, p) ==> p <= q
  }

  lemma SliceLater(left: seq<Byte>, right: seq<Byte>, i: nat, j: nat)
    requires i <= j <= |left|
    ensures (left + right)[i..j] == left[i..j]
  {
  }

  lemma OccursLater(left: seq<Byte>, right: seq<Byte>, pattern: seq<Byte>)
    ensures forall i :: OccursAt(left, pattern, i) ==> OccursAt(left + right, pattern, i)
    ensures forall i :: OccursAt(left + right, pattern, i) && i + |pattern| <= |left| ==> OccursAt(left, pattern, i)
  {
    forall i | OccursAt(left, pattern, i) ensures OccursAt(left + right, pattern, i) {
      SliceLater(left, right, i, i + |pattern|);
    }
    forall i | OccursAt(left + right, pattern, i) && i + |pattern| <= |left| ensures OccursAt(left, pattern, i) {
      SliceLater(left, right, i, i + |pattern|);
    }
  }

  lemma OccursDropped(stream: seq<Byte>, n: nat, pattern: seq<Byte>)
    requires n <= |stream|
    ensures forall i :: OccursAt(stream[n..], pattern, i) ==> OccursAt(stream, pattern, n + i)
  {
    forall i | OccursAt(stream[n..], pattern, i) ensures OccursAt(stream, pattern, n + i) {
      assert stream[n..][i..i + |pattern|] == stream[n + i..n + i + |pattern|];
    }
  }

  lemma OccursMeans(stream: seq<Byte>, pattern: seq<Byte>, at: int, k: nat)
    requires k < |pattern|
    ensures OccursAt(stream, pattern, at) ==> at + k < |stream| && stream[at + k] == pattern[k]
  {
    if OccursAt(stream, pattern, at) {
      assert stream[at..at + |pattern|][k] == stream[at + k];
    }
  }

  lemma OrderlyDropped(stream: seq<Byte>, n: nat)
    requires Orderly(stream) && n <= |stream|
    ensures Orderly(stream[n..])
  {
    OccursDropped(stream, n, CRLF);
    OccursDropped(stream, n, LF);
    forall q, p | OccursAt(stream[n..], CRLF, q) && OccursAt(stream[n..], LF, p) ensures p <= q {
      assert OccursAt(stream, CRLF, n + q) && OccursAt(stream, LF, n + p);
    }
  }

  // A boundary that is there is not moved by what comes later.
  lemma BoundaryStays(left: seq<Byte>, right: seq<Byte>)
    requires Orderly(left + right) && FindBoundary(left).Some?
    ensures FindBoundary(left + right) == FindBoundary(left)
  {
    FindTells(left, LF, 0);
    FindTells(left, CRLF, 0);
    OccursLater(left, right, LF);
    OccursLater(left, right, CRLF);
    var b := FindBoundary(left).value;
    if b.length == 2 {
      FirstStays(left, right, LF, b.at);
    } else {
      forall p | OccursAt(left + right, LF, p) ensures OccursAt(left, LF, p) {
        assert p <= b.at;
      }
      NoneFound(left + right, LF);
      FirstStays(left, right, CRLF, b.at);
    }
  }

  lemma FirstStays(left: seq<Byte>, right: seq<Byte>, pattern: seq<Byte>, at: nat)
    requires OccursAt(left, pattern, at) && forall i :: 0 <= i < at ==> !OccursAt(left, pattern, i)
    ensures Find(left + right, pattern, 0) == Some(at)
  {
    OccursLater(left, right, pattern);
    FindsFirst(left + right, pattern, 0, at);
  }

  lemma NoneFound(bytes: seq<Byte>, pattern: seq<Byte>)
    requires forall p :: !OccursAt(bytes, pattern, p)
    ensures Find(bytes, pattern, 0) == None
  {
    FindTells(bytes, pattern, 0);
  }

  // One event and then the rest, in terms of the pieces.
  lemma DrainsOn(buffer: seq<Byte>, b: Boundary, raw: seq<Byte>, rest: seq<Byte>, decode: Decode)
    requires FindBoundary(buffer) == Some(b) && buffer[..b.at] == raw && buffer[b.at + b.length..] == rest
    requires b.at <= MAX_EVENT_BYTES && decode(raw).Some?
    ensures Drain(buffer, decode) == After(Kept(decode(raw).value), Drain(rest, decode))
  {
  }

  // Draining a first part and then the rest is draining it all.
  lemma {:induction false} DrainInParts(left: seq<Byte>, right: seq<Byte>, decode: Decode)
    requires Orderly(left + right) && Drain(left, decode).failure.None?
    ensures Drain(left + right, decode) == After(Drain(left, decode).events,
              Drain(Drain(left, decode).rest + right, decode))
    decreases |left|
  {
    var found := FindBoundary(left);
    if found.None? {
      AfterTwice([], [], Drain(left + right, decode));
    } else {
      var b := found.value;
      var n := b.at + b.length;
      var raw, rest := left[..b.at], left[n..];
      BoundaryStays(left, right);
      SliceLater(left, right, 0, b.at);
      DropLater(left, right, n);
      OrderlyDropped(left + right, n);
      DrainsOn(left, b, raw, rest, decode);
      DrainInParts(rest, right, decode);
      DrainsOn(left + right, b, raw, rest + right, decode);
      var d := Drain(rest, decode);
      AfterTwice(Kept(decode(raw).value), d.events, Drain(d.rest + right, decode));
    }
  }

  lemma DropLater(left: seq<Byte>, right: seq<Byte>, n: nat)
    requires n <= |left|
    ensures (left + right)[n..] == left[n..] + right
  {
  }

  function Concat(chunks: seq<seq<Byte>>): seq<Byte> {
    if chunks == [] then [] else Concat(chunks[..|chunks| - 1]) + chunks[|chunks| - 1]
  }

  // Pushing the chunks one after another, until one fails.
  function Chunked(chunks: seq<seq<Byte>>, decode: Decode): Drained {
    if chunks == [] then Drained([], [], None)
    else
      var before := Chunked(chunks[..|chunks| - 1], decode);
      if before.failure.Some? then before
      else After(before.events, Drain(before.rest + chunks[|chunks| - 1], decode))
  }

  lemma OrderlyTaken(left: seq<Byte>, right: seq<Byte>)
    requires Orderly(left + right)
    ensures Orderly(left)
  {
    OccursLater(left, right, CRLF);
    OccursLater(left, right, LF);
  }

  lemma DrainNothing(decode: Decode)
    ensures Drain([], decode) == Drained([], [], None)
  {
  }

  /** However an orderly stream is divided, a decoding that succeeds gives the events and the leftover of
      one push of the whole stream. */
  lemma {:induction false} ChunksAgreeWithWhole(chunks: seq<seq<Byte>>, decode: Decode)
    requires Orderly(Concat(chunks)) && Chunked(chunks, decode).failure.None?
    ensures Chunked(chunks, decode) == Drain(Concat(chunks), decode)
  {
    if chunks == [] {
      DrainNothing(decode);
    } else {
      var init, last := chunks[..|chunks| - 1], chunks[|chunks| - 1];
      OrderlyTaken(Concat(init), last);
      ChunksAgreeWithWhole(init, decode);
      DrainInParts(Concat(init), last, decode);
    }
  }

  // Every event is shorter than the limit by the delimiter length less one.
  predicate ShortEvents(stream: seq<Byte>)
    decreases |stream|
  {
    var found := FindBoundary(stream);
    found.Some? ==>
      && found.value.at + found.value.length - 1 <= MAX_EVENT_BYTES
      && ShortEvents(stream[found.value.at + found.value.length..])
  }

  // A buffer without a boundary is shorter than the first event and its delimiter.
  lemma NoBoundaryIsShort(left: seq<Byte>, right: seq<Byte>)
    requires FindBoundary(left).None? && FindBoundary(left + right).Some?
    ensures |left| < FindBoundary(left + right).value.at + FindBoundary(left + right).value.length
  {
    FindTells(left, LF, 0);
    FindTells(left, CRLF, 0);
    FindTells(left + right, LF, 0);
    FindTells(left + right, CRLF, 0);
    OccursLater(left, right, LF);
    OccursLater(left, right, CRLF);
  }

  lemma {:induction false} PrefixDrains(left: seq<Byte>, right: seq<Byte>, decode: Decode)
    requires Orderly(left + right) && ShortEvents(left + right) && Drain(left + right, decode).failure.None?
    ensures Drain(left, decode).failure.None?
    decreases |left|
  {
    var found := FindBoundary(left);
    if found.Some? {
      var b := found.value;
      var n := b.at + b.length;
      var raw, rest := left[..b.at], left[n..];
      BoundaryStays(left, right);
      SliceLater(left, right, 0, b.at);
      DropLater(left, right, n);
      OrderlyDropped(left + right, n);
      DrainsOn(left + right, b, raw, rest + right, decode);
      PrefixDrains(rest, right, decode);
      DrainsOn(left, b, raw, rest, decode);
    } else if FindBoundary(left + right).Some? {
      NoBoundaryIsShort(left, right);
    }
  }

  /** When one push of the whole stream succeeds and its events are that short, every division succeeds. */
  lemma {:induction false} WholeAgreesWithChunks(chunks: seq<seq<Byte>>, decode: Decode)
    requires Orderly(Concat(chunks)) && ShortEvents(Concat(chunks)) && Drain(Concat(chunks), decode).failure.None?
    ensures Chunked(chunks, decode) == Drain(Concat(chunks), decode)
  {
    ChunksSucceed(chunks, Concat(chunks), [], decode);
    ChunksAgreeWithWhole(chunks, decode);
  }

  lemma {:induction false} ChunksSucceed(chunks: seq<seq<Byte>>, stream: seq<Byte>, later: seq<Byte>, decode: Decode)
    requires stream == Concat(chunks) + later
    requires Orderly(stream) && ShortEvents(stream) && Drain(stream, decode).failure.None?
    ensures Chunked(chunks, decode).failure.None?
  {
    if chunks != [] {
      var init, last := chunks[..|chunks| - 1], chunks[|chunks| - 1];
      assert stream == Concat(init) + (last + later);
      ChunksSucceed(init, stream, last + later, decode);
      PrefixDrains(Concat(chunks), later, decode);
      OrderlyTaken(Concat(chunks), later);
      OrderlyTaken(Concat(init), last);
      ChunksAgreeWithWhole(init, decode);
      DrainInParts(Concat(init), last, decode);
    }
  }

  /** What a successful push keeps back is within the limit and holds no complete event. */
  lemma {:induction false} LeftoverIsBounded(buffer: seq<Byte>, decode: Decode)
    requires Drain(buffer, decode).failure.None?
    ensures |Drain(buffer, decode).rest| <= MAX_EVENT_BYTES && FindBoundary(Drain(buffer, decode).rest).None?
    decreases |buffer|
  {
    var found := FindBoundary(buffer);
    if found.Some? {
      LeftoverIsBounded(buffer[found.value.at + found.value.length..], decode);
    }
  }

  // ---- One style of line ends is orderly ----

  predicate OnlyLineFeeds(stream: seq<Byte>) {
    13 !in stream
  }

  predicate OnlyCarriageReturns(stream: seq<Byte>) {
    forall i :: 0 <= i < |stream| && stream[i] == 10 ==> i > 0 && stream[i - 1] == 13
  }

  lemma OneStyleIsOrderly(stream: seq<Byte>)
    requires OnlyLineFeeds(stream) || OnlyCarriageReturns(stream)
    ensures Orderly(stream)
  {
    if OnlyLineFeeds(stream) {
      forall q ensures !OccursAt(stream, CRLF, q) {
        OccursMeans(stream, CRLF, q, 0);
      }
    } else {
      forall p ensures !OccursAt(stream, LF, p) {
        OccursMeans(stream, LF, p, 0);
        OccursMeans(stream, LF, p, 1);
      }
    }
  }

  // ---- Only an orderly stream is independent of its division ----

  // Every event of such a decoder is told apart from any other.
  ghost predicate Telling(decode: Decode) {
    && (forall raw :: decode(raw).Some? && decode(raw).value != "")
    && (forall a, b :: decode(a) == decode(b) ==> a == b)
  }

  // Shows each byte as a character behind a mark.
  function Verbatim(raw: seq<Byte>): Option<string> {
    Some("#" + seq(|raw|, i requires 0 <= i < |raw| => raw[i] as char))
  }

  lemma VerbatimTells()
    ensures Telling(Verbatim)
  {
    forall a: seq<Byte>, b: seq<Byte> | Verbatim(a) == Verbatim(b) ensures a == b {
      var s, t := Verbatim(a).value, Verbatim(b).value;
      assert |s| == |a| + 1 && |t| == |b| + 1;
      forall i | 0 <= i < |a| ensures a[i] == b[i] {
        assert s[i + 1] == a[i] as char && t[i + 1] == b[i] as char;
      }
    }
  }

  // The first blank line in carriage returns, with one in line feeds behind it.
  ghost predicate MixedAt(stream: seq<Byte>, q: nat) {
    && OccursAt(stream, CRLF, q) && (forall i: int :: 0 <= i < q ==> !OccursAt(stream, CRLF, i))
    && exists p :: p > q && OccursAt(stream, LF, p)
  }

  lemma DisorderIsMixed(stream: seq<Byte>) returns (q: nat)
    requires !Orderly(stream)
    ensures MixedAt(stream, q)
  {
    var any, p :| OccursAt(stream, CRLF, any) && OccursAt(stream, LF, p) && p > any;
    FindTells(stream, CRLF, 0);
    q := Find(stream, CRLF, 0).value;
  }

  // Line feeds do not meet the carriage returns from the left.
  lemma FeedsKeepAway(stream: seq<Byte>, q: nat, p: int)
    requires OccursAt(stream, CRLF, q) && OccursAt(stream, LF, p)
    ensures p + 2 <= q || p >= q + 3
  {
    OccursMeans(stream, CRLF, q, 0);
    OccursMeans(stream, CRLF, q, 2);
    OccursMeans(stream, LF, p, 0);
    OccursMeans(stream, LF, p, 1);
  }

  lemma CutOccurs(stream: seq<Byte>, n: nat, pattern: seq<Byte>)
    requires n <= |stream|
    ensures forall i :: OccursAt(stream[..n], pattern, i) <==> OccursAt(stream, pattern, i) && i + |pattern| <= n
  {
    assert stream == stream[..n] + stream[n..];
    OccursLater(stream[..n], stream[n..], pattern);
    forall i | OccursAt(stream[..n], pattern, i) ensures i + |pattern| <= n {
    }
  }

  // The boundary of the whole is a blank line in line feeds.
  lemma WholeBoundary(stream: seq<Byte>, q: nat) returns (p: nat)
    requires MixedAt(stream, q)
    ensures FindBoundary(stream) == Some(Boundary(p, 2)) && OccursAt(stream, LF, p)
    ensures forall i: int :: 0 <= i < p ==> !OccursAt(stream, LF, i)
    ensures p + 2 <= q || p >= q + 3
  {
    FindTells(stream, LF, 0);
    p := Find(stream, LF, 0).value;
    FeedsKeepAway(stream, q, p);
  }

  // Four bytes behind the first carriage return, the boundary is the same when it lies before, and
  // otherwise the blank line in carriage returns.
  lemma CutBoundary(stream: seq<Byte>, q: nat, p: nat)
    requires MixedAt(stream, q) && OccursAt(stream, LF, p) && forall i: int :: 0 <= i < p ==> !OccursAt(stream, LF, i)
    ensures q + 4 <= |stream|
    ensures p + 2 <= q ==> FindBoundary(stream[..q + 4]) == Some(Boundary(p, 2))
    ensures p >= q + 3 ==> FindBoundary(stream[..q + 4]) == Some(Boundary(q, 4))
  {
    OccursMeans(stream, CRLF, q, 3);
    var left := stream[..q + 4];
    CutOccurs(stream, q + 4, LF);
    CutOccurs(stream, q + 4, CRLF);
    if p + 2 <= q {
      FindsFirst(left, LF, 0, p);
    } else if p >= q + 3 {
      forall i ensures !OccursAt(left, LF, i) {
        if OccursAt(left, LF, i) {
          FeedsKeepAway(stream, q, i);
        }
      }
      NoneFound(left, LF);
      FindsFirst(left, CRLF, 0, q);
    }
  }

  lemma MixedDropped(stream: seq<Byte>, q: nat, n: nat)
    requires MixedAt(stream, q) && n <= q && |stream| >= q + 4
    ensures MixedAt(stream[n..], q - n) && stream[n..][..q - n + 4] == stream[..q + 4][n..]
  {
    OccursDropped(stream, n, CRLF);
    assert stream[n..][q - n..q - n + 4] == stream[q..q + 4];
    var p :| p > q && OccursAt(stream, LF, p);
    assert stream[n..][p - n..p - n + 2] == stream[p..p + 2];
    assert OccursAt(stream[n..], LF, p - n);
    forall i: int | 0 <= i < q - n ensures !OccursAt(stream[n..], CRLF, i) {
      assert !OccursAt(stream, CRLF, n + i);
    }
  }

  // The part up to the first carriage returns has an event that the whole stream does not have there.
  ghost predicate Departs(part: Drained, whole: Drained) {
    && part.failure.None? && part.rest == [] && part.events != []
    && var n := |part.events| - 1;
    |whole.events| <= n || whole.events[n] != part.events[n]
  }

  lemma DepartsAfter(event: string, part: Drained, whole: Drained)
    requires Departs(part, whole) && event != ""
    ensures Departs(After(Kept(event), part), After(Kept(event), whole))
  {
  }

  lemma TellsLengths(a: seq<Byte>, b: seq<Byte>, decode: Decode)
    requires Telling(decode) && |a| != |b|
    ensures decode(a).Some? && decode(b).Some? && decode(a).value != decode(b).value
  {
    assert decode(a) != decode(b);
  }

  lemma DepartsAtOnce(part: Drained, whole: Drained, a: string, b: string, rest: Drained)
    requires part == Drained([a], [], None) && whole == After(Kept(b), rest) && b != "" && a != b
    ensures Departs(part, whole)
  {
    assert whole.events[0] == b;
  }

  lemma NothingAfter(event: string)
    requires event != ""
    ensures After(Kept(event), Drained([], [], None)) == Drained([event], [], None)
  {
    assert [event] + [] == [event];
  }

  lemma DrainsLast(buffer: seq<Byte>, b: Boundary, raw: seq<Byte>, decode: Decode)
    requires FindBoundary(buffer) == Some(b) && buffer[..b.at] == raw && buffer[b.at + b.length..] == []
    requires b.at <= MAX_EVENT_BYTES && decode(raw).Some? && decode(raw).value != ""
    ensures Drain(buffer, decode) == Drained([decode(raw).value], [], None)
  {
    DrainNothing(decode);
    DrainsOn(buffer, b, raw, [], decode);
    NothingAfter(decode(raw).value);
  }

  // Where the part ends in carriage returns and the whole goes on to line feeds.
  lemma DepartsHere(stream: seq<Byte>, q: nat, p: nat, decode: Decode)
    requires Telling(decode) && q + 3 <= p <= MAX_EVENT_BYTES && p + 2 <= |stream|
    requires FindBoundary(stream) == Some(Boundary(p, 2)) && FindBoundary(stream[..q + 4]) == Some(Boundary(q, 4))
    ensures Departs(Drain(stream[..q + 4], decode), Drain(stream, decode))
  {
    var left := stream[..q + 4];
    assert left[..q] == stream[..q] && left[q + 4..] == [];
    PiecesDepart(stream, left, q, p, stream[..q], stream[..p], stream[p + 2..], decode);
  }

  lemma PiecesDepart(stream: seq<Byte>, left: seq<Byte>, q: nat, p: nat, a: seq<Byte>, b: seq<Byte>, rest: seq<Byte>,
                     decode: Decode)
    requires Telling(decode) && q <= MAX_EVENT_BYTES && p <= MAX_EVENT_BYTES && |a| != |b|
    requires FindBoundary(stream) == Some(Boundary(p, 2)) && stream[..p] == b && stream[p + 2..] == rest
    requires FindBoundary(left) == Some(Boundary(q, 4)) && left[..q] == a && left[q + 4..] == []
    ensures Departs(Drain(left, decode), Drain(stream, decode))
  {
    TellsLengths(a, b, decode);
    DrainsLast(left, Boundary(q, 4), a, decode);
    DrainsOn(stream, Boundary(p, 2), b, rest, decode);
    DepartsAtOnce(Drain(left, decode), Drain(stream, decode), decode(a).value, decode(b).value, Drain(rest, decode));
  }

  lemma {:induction false} PartDeparts(stream: seq<Byte>, q: nat, decode: Decode)
    requires MixedAt(stream, q) && q + 4 <= |stream| && Telling(decode) && Drain(stream, decode).failure.None?
    ensures Departs(Drain(stream[..q + 4], decode), Drain(stream, decode))
    decreases |stream|
  {
    var p := WholeBoundary(stream, q);
    CutBoundary(stream, q, p);
    if p + 2 <= q {
      var n, left := p + 2, stream[..q + 4];
      var raw := stream[..p];
      assert left[..p] == raw;
      MixedDropped(stream, q, n);
      DrainsOn(stream, Boundary(p, 2), raw, stream[n..], decode);
      DrainsOn(left, Boundary(p, 2), raw, left[n..], decode);
      PartDeparts(stream[n..], q - n, decode);
      DepartsAfter(decode(raw).value, Drain(left[n..], decode), Drain(stream[n..], decode));
    } else {
      DepartsHere(stream, q, p, decode);
    }
  }

  lemma TwoChunks(left: seq<Byte>, right: seq<Byte>, decode: Decode)
    requires Drain(left, decode).failure.None?
    ensures Concat([left, right]) == left + right
    ensures Chunked([left, right], decode)
              == After(Drain(left, decode).events, Drain(Drain(left, decode).rest + right, decode))
  {
    var none: seq<Byte>, both, one := [], [left, right], [left];
    assert both[..1] == one && one[..0] == [];
    assert none + left == left;
    assert Concat(one) == Concat(one[..0]) + left;
    assert Concat(both) == Concat(both[..1]) + right;
    AfterTwice([], [], Drain(left, decode));
    assert Chunked(one, decode) == After([], Drain(none + left, decode));
    assert Chunked(both, decode) == After(Chunked(one, decode).events,
      Drain(Chunked(one, decode).rest + right, decode));
  }

  /** A stream that is not orderly is framed differently when it is divided behind its first blank line in
      carriage returns. */
  lemma DisorderIsSeen(stream: seq<Byte>, decode: Decode) returns (chunks: seq<seq<Byte>>)
    requires !Orderly(stream) && Telling(decode) && Drain(stream, decode).failure.None?
    ensures Concat(chunks) == stream && |chunks| == 2 && Chunked(chunks, decode) != Drain(stream, decode)
  {
    var q := DisorderIsMixed(stream);
    OccursMeans(stream, CRLF, q, 3);
    PartDeparts(stream, q, decode);
    chunks := [stream[..q + 4], stream[q + 4..]];
    CutDeparts(stream, q + 4, decode);
  }

  lemma CutDeparts(stream: seq<Byte>, n: nat, decode: Decode)
    requires n <= |stream| && Departs(Drain(stream[..n], decode), Drain(stream, decode))
    ensures Concat([stream[..n], stream[n..]]) == stream
    ensures Chunked([stream[..n], stream[n..]], decode) != Drain(stream, decode)
  {
    DivisionDeparts(stream[..n], stream[n..], Drain(stream, decode), decode);
    assert stream == stream[..n] + stream[n..];
  }

  lemma DivisionDeparts(left: seq<Byte>, right: seq<Byte>, whole: Drained, decode: Decode)
    requires Departs(Drain(left, decode), whole)
    ensures Concat([left, right]) == left + right && Chunked([left, right], decode) != whole
  {
    TwoChunks(left, right, decode);
    GoingOnDeparts(Drain(left, decode), Drain(Drain(left, decode).rest + right, decode), whole);
  }

  lemma GoingOnDeparts(part: Drained, next: Drained, whole: Drained)
    requires Departs(part, whole)
    ensures After(part.events, next) != whole
  {
    var n := |part.events| - 1;
    assert After(part.events, next).events[n] == part.events[n];
  }

  ghost predicate IndependentOfDivision(stream: seq<Byte>, decode: Decode) {
    forall chunks :: Concat(chunks) == stream ==> Chunked(chunks, decode) == Drain(stream, decode)
  }

  /** Exactly: a stream that one push accepts, with events that short, gives the same events and leftover
      in every division if and only if it is orderly. */
  lemma IndependentExactlyWhenOrderly(stream: seq<Byte>, decode: Decode)
    requires Telling(decode) && ShortEvents(stream) && Drain(stream, decode).failure.None?
    ensures IndependentOfDivision(stream, decode) <==> Orderly(stream)
  {
    if Orderly(stream) {
      forall chunks | Concat(chunks) == stream ensures Chunked(chunks, decode) == Drain(stream, decode) {
        WholeAgreesWithChunks(chunks, decode);
      }
    } else {
      var chunks := DisorderIsSeen(stream, decode);
    }
  }

  /** In particular for every stream within the limit. */
  lemma {:induction false} WithinTheLimit(stream: seq<Byte>, decode: Decode)
    requires Telling(decode) && |stream| <= MAX_EVENT_BYTES
    ensures ShortEvents(stream) && Drain(stream, decode).failure.None?
    ensures IndependentOfDivision(stream, decode) <==> Orderly(stream)
  {
    SmallStreams(stream, decode);
    IndependentExactlyWhenOrderly(stream, decode);
  }

  lemma {:induction false} SmallStreams(stream: seq<Byte>, decode: Decode)
    requires Telling(decode) && |stream| <= MAX_EVENT_BYTES
    ensures ShortEvents(stream) && Drain(stream, decode).failure.None?
    decreases |stream|
  {
    hide FindBoundary;
    var found := FindBoundary(stream);
    if found.Some? {
      SmallStreams(stream[found.value.at + found.value.length..], decode);
    }
  }

  // "d" and a blank line in carriage returns; with a line feed behind it, the blank line is another.
  const MIXED: seq<Byte> := [100, 13, 10, 13, 10]

  lemma MixedFirst()
    ensures FindBoundary(MIXED) == Some(Boundary(1, 4))
  {
    forall i ensures !OccursAt(MIXED, LF, i) {
      OccursMeans(MIXED, LF, i, 0);
      OccursMeans(MIXED, LF, i, 1);
    }
    NoneFound(MIXED, LF);
    OccursMeans(MIXED, CRLF, 0, 0);
    assert MIXED[1..5] == CRLF;
    FindsFirst(MIXED, CRLF, 0, 1);
  }

  lemma MixedBoth()
    ensures FindBoundary(MIXED + [10]) == Some(Boundary(4, 2))
  {
    var both: seq<Byte> := MIXED + [10];
    forall i | 0 <= i < 4 ensures !OccursAt(both, LF, i) {
      OccursMeans(both, LF, i, 0);
      OccursMeans(both, LF, i, 1);
    }
    assert both[4..6] == LF;
    FindsFirst(both, LF, 0, 4);
  }

  /** Mixing styles is not independent of the division: the last line feed is left over only when it
      arrives after the rest. */
  lemma MixedStylesDiffer(decode: Decode)
    requires decode(MIXED[..1]).Some? && decode((MIXED + [10])[..4]).Some?
    ensures Drain(MIXED, decode).failure.None? && Drain(MIXED, decode).rest == []
    ensures Drain(Drain(MIXED, decode).rest + [10], decode).rest == [10]
    ensures Drain(MIXED + [10], decode).rest == []
  {
    MixedFirst();
    MixedBoth();
    DrainNothing(decode);
    var raw: seq<Byte> := MIXED[..1];
    assert MIXED[5..] == [] && (MIXED + [10])[6..] == [];
    DrainsOn(MIXED, Boundary(1, 4), raw, [], decode);
    DrainsOn(MIXED + [10], Boundary(4, 2), (MIXED + [10])[..4], [], decode);
    assert [] + [10] == [10];
    assert FindBoundary([10]).None?;
  }

  // ---- Two styles in one stream of real events ----

  predicate Plain(bytes: seq<Byte>) {
    10 !in bytes && 13 !in bytes && |bytes| <= MAX_EVENT_BYTES / 4
  }

  lemma PlainThenReturns(first: seq<Byte>)
    requires Plain(first)
    ensures FindBoundary(first + CRLF) == Some(Boundary(|first|, 4))
    ensures (first + CRLF)[..|first|] == first && (first + CRLF)[|first| + 4..] == []
  {
    var bytes := first + CRLF;
    forall i ensures !OccursAt(bytes, LF, i) {
      OccursMeans(bytes, LF, i, 0);
      OccursMeans(bytes, LF, i, 1);
    }
    NoneFound(bytes, LF);
    forall i | 0 <= i < |first| ensures !OccursAt(bytes, CRLF, i) {
      OccursMeans(bytes, CRLF, i, 0);
      assert bytes[i] == first[i] && first[i] in first;
    }
    assert bytes[|first|..|first| + 4] == CRLF;
    FindsFirst(bytes, CRLF, 0, |first|);
  }

  lemma PlainThenFeeds(before: seq<Byte>, second: seq<Byte>)
    requires Plain(second) && (forall i :: !OccursAt(before, LF, i))
               && (before != [] ==> |before| >= 2 && before[|before| - 2] == 13)
    requires second != []
    ensures FindBoundary(before + second + LF) == Some(Boundary(|before| + |second|, 2))
    ensures (before + second + LF)[..|before| + |second|] == before + second
    ensures (before + second + LF)[|before| + |second| + 2..] == []
  {
    var bytes, at := before + second + LF, |before| + |second|;
    forall i | 0 <= i < at ensures !OccursAt(bytes, LF, i) {
      OccursMeans(bytes, LF, i, 0);
      OccursMeans(bytes, LF, i, 1);
      if i >= |before| {
        assert bytes[i] == second[i - |before|] && second[i - |before|] in second;
      } else if i + 1 == |before| {
        assert bytes[i + 1] == second[0] && second[0] in second;
      } else {
        assert bytes[i..i + 2] == before[i..i + 2];
        assert !OccursAt(before, LF, i);
      }
    }
    assert bytes[at..at + 2] == LF;
    FindsFirst(bytes, LF, 0, at);
  }

  predicate OneDatum(text: string) {
    '\n' !in text && '\r' !in text && text != "" && !IsSpace(text[0])
  }

  lemma OneData(text: string)
    requires OneDatum(text)
    ensures Data("data:" + text) == text
  {
    LastLine("data:" + text);
    assert DataLines([]) == [] && ["data:" + text][..0] == [];
    assert ("data:" + text)[5..] == text;
    assert DataLines(["data:" + text]) == [] + [TrimStart(text)] == [text];
  }

  lemma TwoData(s: string, t: string)
    requires OneDatum(s) && OneDatum(t)
    ensures Data("data:" + s + "\r\n\r\n" + "data:" + t) == s + "\n" + t
  {
    var left, right := "data:" + s, "data:" + t;
    var text := "data:" + s + "\r\n\r\n" + "data:" + t;
    assert text == (left + "\r") + "\n" + ("\r" + "\n" + right);
    LinesStep(left + "\r", "\r" + "\n" + right);
    LinesStep("\r", right);
    LastLine(right);
    assert Strip(left + "\r") == left && Strip("\r") == "";
    var lines := [left, "", right];
    assert Lines(text) == [left] + ([""] + [right]) == lines;
    TwoDataLines(left, right, s, t);
  }

  lemma TwoDataLines(left: string, right: string, s: string, t: string)
    requires OneDatum(s) && OneDatum(t) && left == "data:" + s && right == "data:" + t
    ensures JoinLines(DataLines([left, "", right])) == s + "\n" + t
  {
    var lines := [left, "", right];
    assert lines[..2] == [left, ""] && [left, ""][..1] == [left] && [left][..0] == [];
    assert left[5..] == s && right[5..] == t;
    assert DataLines([left]) == [] + [TrimStart(s)] == [s];
    assert DataLines([left, ""]) == [s];
    assert DataLines(lines) == [s] + [TrimStart(t)] == [s, t];
    assert [s, t][..1] == [s];
  }

  lemma EventsApart(first: seq<Byte>, second: seq<Byte>, s: string, t: string, decode: Decode)
    requires Plain(first) && Plain(second) && second != [] && s != "" && t != ""
    requires decode(first) == Some(s) && decode(second) == Some(t)
    ensures Chunked([first + CRLF, second + LF], decode) == Drained([s, t], [], None)
  {
    var left, right := first + CRLF, second + LF;
    PlainThenReturns(first);
    DrainsLast(left, Boundary(|first|, 4), first, decode);
    assert [] + second == second && [] + right == right && [s] + [t] == [s, t];
    PlainThenFeeds([], second);
    DrainsLast(right, Boundary(|second|, 2), second, decode);
    TwoChunks(left, right, decode);
  }

  lemma EventsTogether(first: seq<Byte>, second: seq<Byte>, event: string, decode: Decode)
    requires Plain(first) && Plain(second) && second != [] && event != ""
    requires decode(first + CRLF + second) == Some(event)
    ensures Drain(first + CRLF + second + LF, decode) == Drained([event], [], None)
  {
    PlainNoFeeds(first);
    PlainThenFeeds(first + CRLF, second);
    DrainsLast(first + CRLF + second + LF, Boundary(|first + CRLF| + |second|, 2), first + CRLF + second, decode);
  }

  /** Two events, one ended in carriage returns and one in line feeds, are two when they arrive apart and
      one event of two lines when they arrive together. */
  lemma TwoStylesMergeEvents(utf8: seq<Byte> -> Option<string>, first: seq<Byte>, second: seq<Byte>, s: string,
                             t: string)
    requires Plain(first) && Plain(second) && second != [] && OneDatum(s) && OneDatum(t)
    requires utf8(first) == Some("data:" + s) && utf8(second) == Some("data:" + t)
    requires utf8(first + CRLF + second) == Some("data:" + s + "\r\n\r\n" + "data:" + t)
    ensures Chunked([first + CRLF, second + LF], DecodeData(utf8)) == Drained([s, t], [], None)
    ensures Drain(first + CRLF + second + LF, DecodeData(utf8)) == Drained([s + "\n" + t], [], None)
  {
    OneData(s);
    OneData(t);
    TwoData(s, t);
    EventsApart(first, second, s, t, DecodeData(utf8));
    EventsTogether(first, second, s + "\n" + t, DecodeData(utf8));
  }

  lemma PlainNoFeeds(first: seq<Byte>)
    requires Plain(first)
    ensures forall i :: !OccursAt(first + CRLF, LF, i)
  {
    var bytes := first + CRLF;
    forall i ensures !OccursAt(bytes, LF, i) {
      OccursMeans(bytes, LF, i, 0);
      OccursMeans(bytes, LF, i, 1);
      assert 0 <= i < |first| ==> bytes[i] == first[i] && first[i] in first;
    }
  }

  // ---- What a stream of one style says ----

  // A line of an event: data behind its field name and some padding, or anything else.
  datatype Line = DataLine(padding: string, data: string) | OtherLine(line: string)

  function Raw(l: Line): string {
    match l
    case DataLine(padding, data) => "data:" + padding + data
    case OtherLine(line) => line
  }

  predicate Writable(l: Line) {
    && (forall c | c in Raw(l) :: c != '\n' && c != '\r')
    && match l
       case DataLine(padding, data) =>
         (forall c | c in padding :: IsSpace(c)) && (data != "" ==> !IsSpace(data[0]))
       case OtherLine(line) => line != "" && !(|line| >= 5 && line[..5] == "data:")
  }

  // An event as it is written, its lines apart by one newline style.
  function EventText(lines: seq<Line>, newline: string): string {
    if lines == [] then ""
    else if |lines| == 1 then Raw(lines[0])
    else Raw(lines[0]) + newline + EventText(lines[1..], newline)
  }

  function DataOf(lines: seq<Line>): seq<string> {
    if lines == [] then []
    else (if lines[0].DataLine? then [lines[0].data] else []) + DataOf(lines[1..])
  }

  // Lines apart by single line feeds.
  function Spoken(lines: seq<string>): string {
    if lines == [] then "" else if |lines| == 1 then lines[0] else lines[0] + "\n" + Spoken(lines[1..])
  }

  function RawLines(lines: seq<Line>): seq<string> {
    seq(|lines|, i requires 0 <= i < |lines| => Raw(lines[i]))
  }

  lemma {:induction false} LinesAreRaw(lines: seq<Line>, newline: string)
    requires newline == "\n" || newline == "\r\n"
    requires forall l | l in lines :: Writable(l)
    ensures Lines(EventText(lines, newline)) == RawLines(lines)
  {
    hide Lines, Writable, Raw;
    if lines == [] {
      NoLines();
    } else if |lines| == 1 {
      RawIsLine(lines[0]);
      LastLine(Raw(lines[0]));
    } else {
      var rest := EventText(lines[1..], newline);
      RawIsLine(lines[0]);
      LinesAreRaw(lines[1..], newline);
      FirstLine(Raw(lines[0]), newline, rest);
      assert RawLines(lines) == [Raw(lines[0])] + RawLines(lines[1..]);
    }
  }

  lemma NoLines()
    ensures Lines("") == []
  {
  }

  lemma RawIsLine(l: Line)
    requires Writable(l)
    ensures Raw(l) != "" && '\n' !in Raw(l) && '\r' !in Raw(l)
  {
  }

  lemma FirstLine(line: string, newline: string, rest: string)
    requires newline == "\n" || newline == "\r\n"
    requires line != "" && '\n' !in line && '\r' !in line
    ensures Lines(line + newline + rest) == [line] + Lines(rest)
  {
    assert line[|line| - 1] in line;
    if newline == "\n" {
      LinesStep(line, rest);
    } else {
      assert line + newline + rest == (line + "\r") + "\n" + rest;
      LinesStep(line + "\r", rest);
      assert Strip(line + "\r") == line;
    }
  }

  lemma {:induction false} PaddingIsTrimmed(padding: string, data: string)
    requires (forall c | c in padding :: IsSpace(c)) && (data != "" ==> !IsSpace(data[0]))
    ensures TrimStart(padding + data) == data
    decreases |padding|
  {
    if padding == "" {
      assert padding + data == data;
    } else {
      assert padding[0] in padding && (padding + data)[1..] == padding[1..] + data;
      PaddingIsTrimmed(padding[1..], data);
    }
  }

  lemma {:induction false} DataLinesJoin(left: seq<string>, right: seq<string>)
    ensures DataLines(left + right) == DataLines(left) + DataLines(right)
  {
    if right == [] {
      assert left + right == left;
    } else {
      var n := |right| - 1;
      DataLinesJoin(left, right[..n]);
      assert (left + right)[..|left + right| - 1] == left + right[..n];
    }
  }

  lemma OneRawLine(l: Line)
    requires Writable(l)
    ensures DataLines([Raw(l)]) == if l.DataLine? then [l.data] else []
  {
    assert [Raw(l)][..0] == [];
    if l.DataLine? {
      assert Raw(l)[5..] == l.padding + l.data;
      PaddingIsTrimmed(l.padding, l.data);
    }
  }

  lemma {:induction false} DataIsThere(lines: seq<Line>)
    requires forall l | l in lines :: Writable(l)
    ensures DataLines(RawLines(lines)) == DataOf(lines)
  {
    if lines != [] {
      OneRawLine(lines[0]);
      DataIsThere(lines[1..]);
      DataLinesJoin([Raw(lines[0])], RawLines(lines[1..]));
      assert RawLines(lines) == [Raw(lines[0])] + RawLines(lines[1..]);
    }
  }

  lemma {:induction false} JoinedIsSpoken(lines: seq<string>)
    ensures JoinLines(lines) == Spoken(lines)
    decreases |lines|
  {
    if |lines| > 1 {
      var n := |lines| - 1;
      JoinedIsSpoken(lines[..n]);
      SpokenMore(lines[..n], lines[n]);
      assert lines == lines[..n] + [lines[n]];
    }
  }

  lemma {:induction false} SpokenMore(lines: seq<string>, last: string)
    requires lines != []
    ensures Spoken(lines + [last]) == Spoken(lines) + "\n" + last
    decreases |lines|
  {
    assert (lines + [last])[1..] == lines[1..] + [last];
    if |lines| > 1 {
      SpokenMore(lines[1..], last);
    } else {
      assert lines[1..] + [last] == [last];
    }
  }

  /** The data of an event is its data lines, without field name and padding, one below the other; every other
      line is passed over. */
  lemma DataReadsBack(lines: seq<Line>, newline: string)
    requires newline == "\n" || newline == "\r\n"
    requires forall l | l in lines :: Writable(l)
    ensures Data(EventText(lines, newline)) == Spoken(DataOf(lines))
  {
    LinesAreRaw(lines, newline);
    DataIsThere(lines);
    JoinedIsSpoken(DataOf(lines));
  }

  // An event that no blank line of the style ends early.
  predicate Unbroken(frame: seq<Byte>, carriage: bool) {
    && |frame| <= 1_048_576
    && if carriage then
         && (forall i :: 0 <= i < |frame| && frame[i] == 10 ==> i > 0 && frame[i - 1] == 13)
         && (forall i :: 0 <= i < |frame| - 3 ==>
               frame[i] != 13 || frame[i + 1] != 10 || frame[i + 2] != 13 || frame[i + 3] != 10)
         && (|frame| >= 2 ==> frame[|frame| - 2..] != [13, 10])
       else
         && (forall i :: 0 <= i < |frame| - 1 ==> frame[i] != 10 || frame[i + 1] != 10)
         && (frame != [] ==> frame[|frame| - 1] != 10)
  }

  function Blank(carriage: bool): seq<Byte> {
    if carriage then [13, 10, 13, 10] else [10, 10]
  }

  function Framed(frames: seq<seq<Byte>>, carriage: bool): seq<Byte> {
    if frames == [] then [] else frames[0] + Blank(carriage) + Framed(frames[1..], carriage)
  }

  function Said(frames: seq<seq<Byte>>, decode: Decode): seq<string>
    requires forall f | f in frames :: decode(f).Some?
  {
    if frames == [] then []
    else
      var event := decode(frames[0]).value;
      (if event == "" then [] else [event]) + Said(frames[1..], decode)
  }

  // With carriage returns before all line feeds there is no blank line in line feeds.
  lemma {:induction false} CarriagesEverywhere(frames: seq<seq<Byte>>)
    requires forall f | f in frames :: Unbroken(f, true)
    ensures OnlyCarriageReturns(Framed(frames, true))
  {
    if frames != [] {
      CarriagesEverywhere(frames[1..]);
      var first, rest := frames[0], Framed(frames[1..], true);
      var all := Framed(frames, true);
      var n := |first|;
      assert all[n] == 13 && all[n + 1] == 10 && all[n + 2] == 13 && all[n + 3] == 10;
      assert first in frames;
      forall i | 0 <= i < |all| && all[i] == 10 ensures i > 0 && all[i - 1] == 13 {
        if i < n {
          assert first[i] == 10 && first[i - 1] == all[i - 1];
        } else if i >= n + 4 {
          var j := i - n - 4;
          assert rest[j] == 10 && all[i - 1] == rest[j - 1];
        }
      }
    }
  }

  lemma NoEarlierReturn(frame: seq<Byte>, rest: seq<Byte>, i: nat)
    requires Unbroken(frame, true) && i < |frame|
    ensures !OccursAt(frame + CRLF + rest, CRLF, i)
  {
    var all, n := frame + CRLF + rest, |frame|;
    OccursMeans(all, CRLF, i, 0);
    OccursMeans(all, CRLF, i, 1);
    OccursMeans(all, CRLF, i, 2);
    OccursMeans(all, CRLF, i, 3);
    if i + 4 <= n {
      assert all[i] == frame[i] && all[i + 1] == frame[i + 1];
      assert all[i + 2] == frame[i + 2] && all[i + 3] == frame[i + 3];
    } else if i + 2 == n {
      assert frame[i..] == [all[i], all[i + 1]];
    } else {
      assert all[n] == 13;
    }
  }

  lemma NoEarlierFeed(frame: seq<Byte>, rest: seq<Byte>, i: nat)
    requires Unbroken(frame, false) && i < |frame|
    ensures !OccursAt(frame + LF + rest, LF, i)
  {
    var all := frame + LF + rest;
    OccursMeans(all, LF, i, 0);
    OccursMeans(all, LF, i, 1);
    assert all[i] == frame[i] && (i + 1 < |frame| ==> all[i + 1] == frame[i + 1]);
  }

  lemma FirstFrameEnds(frames: seq<seq<Byte>>, carriage: bool)
    requires frames != [] && forall f | f in frames :: Unbroken(f, carriage)
    ensures FindBoundary(Framed(frames, carriage)) == Some(Boundary(|frames[0]|, |Blank(carriage)|))
  {
    var frame, rest, all := frames[0], Framed(frames[1..], carriage), Framed(frames, carriage);
    assert all[|frame|..|frame| + |Blank(carriage)|] == Blank(carriage);
    if carriage {
      CarriagesEverywhere(frames);
      forall p ensures !OccursAt(all, LF, p) {
        OccursMeans(all, LF, p, 0);
        OccursMeans(all, LF, p, 1);
      }
      NoneFound(all, LF);
      forall i | 0 <= i < |frame| ensures !OccursAt(all, CRLF, i) {
        NoEarlierReturn(frame, rest, i);
      }
      FindsFirst(all, CRLF, 0, |frame|);
    } else {
      forall i | 0 <= i < |frame| ensures !OccursAt(all, LF, i) {
        NoEarlierFeed(frame, rest, i);
      }
      FindsFirst(all, LF, 0, |frame|);
    }
  }

  lemma FirstFrameIsRead(frames: seq<seq<Byte>>, carriage: bool, decode: Decode)
    requires frames != [] && forall f | f in frames :: Unbroken(f, carriage) && decode(f).Some?
    ensures Drain(Framed(frames, carriage), decode)
         == After(Kept(decode(frames[0]).value), Drain(Framed(frames[1..], carriage), decode))
  {
    hide Drain, Unbroken;
    var all, b := Framed(frames, carriage), Boundary(|frames[0]|, |Blank(carriage)|);
    FirstFrameEnds(frames, carriage);
    FrameIsShort(frames[0], carriage);
    assert all[..b.at] == frames[0] && all[b.at + b.length..] == Framed(frames[1..], carriage);
    DrainsOn(all, b, frames[0], Framed(frames[1..], carriage), decode);
  }

  lemma FrameIsShort(frame: seq<Byte>, carriage: bool)
    requires Unbroken(frame, carriage)
    ensures |frame| <= MAX_EVENT_BYTES
  {
  }

  /** A stream of events of one style reads back as those events, in order, and nothing is left over; events
      without data are the only ones that are not told. */
  lemma {:induction false} StreamReadsBack(frames: seq<seq<Byte>>, carriage: bool, decode: Decode)
    requires forall f | f in frames :: Unbroken(f, carriage) && decode(f).Some?
    ensures Drain(Framed(frames, carriage), decode) == Drained(Said(frames, decode), [], None)
  {
    hide Drain, Unbroken;
    if frames == [] {
      DrainNothing(decode);
    } else {
      StreamReadsBack(frames[1..], carriage, decode);
      FirstFrameIsRead(frames, carriage, decode);
      assert frames[0] in frames && decode(frames[0]).Some?;
    }
  }
}
