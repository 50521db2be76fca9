/** Content-Length framing: the printer, and the incremental parser that reads it back. */
module Framing {
  import opened Decimal
  import opened Prelude

  const SEPARATOR := "\r\n\r\n"
  const FIELD := "Content-Length: "

  // -- Printing --------------------------------------------------------------------------

  /** The bytes a character takes in UTF-8, within the basic plane. */
  function Bytes(c: char): nat {
    if c as int < 0x80 then 1 else if c as int < 0x800 then 2 else 3
  }

  function ByteLength(m: string): nat {
    if m == "" then 0 else ByteLength(m[..|m| - 1]) + Bytes(m[|m| - 1])
  }

  predicate SingleByte(m: string) {
    forall i :: 0 <= i < |m| ==> m[i] as int < 0x80
  }

  predicate AllSingleByte(ms: seq<string>) { forall i :: 0 <= i < |ms| ==> SingleByte(ms[i]) }

  function Header(n: nat): string { FIELD + Digits(n) }

  function Frame(m: string): string { Header(ByteLength(m)) + SEPARATOR + m }

  function Stream(ms: seq<string>): string {
    if ms == [] then "" else Frame(ms[0]) + Stream(ms[1..])
  }

  // -- Parsing ---------------------------------------------------------------------------

  /** `indexOf` the separator, from `from` on. */
  function SeparatorFrom(s: string, from: nat): Option<nat>
    decreases |s| - from
  {
    if from + 4 > |s| then None
    else if s[from..from + 4] == SEPARATOR then Some(from)
    else SeparatorFrom(s, from + 1)
  }

  /** The longest run of digits at the start. */
  function DigitRun(s: string): string {
    if s == "" || !IsDigit(s[0]) then "" else [s[0]] + DigitRun(s[1..])
  }

  lemma {:induction false} DigitRunIsDigits(s: string)
    ensures AllDigits(DigitRun(s))
  {
    if s != "" && IsDigit(s[0]) {
      DigitRunIsDigits(s[1..]);
    }
  }

  /** The leftmost match of the field name followed by digits, anywhere in the header. */
  function ContentLength(header: string): Option<nat> {
    if header == "" then None
    else if FIELD <= header && DigitRun(header[|FIELD|..]) != "" then
      DigitRunIsDigits(header[|FIELD|..]);
      Some(ParseInt(DigitRun(header[|FIELD|..])))
    else ContentLength(header[1..])
  }

  datatype Parse = NeedMore | Invalid | Message(content: string, rest: string)

  /** One turn of the loop. */
  function ParseOne(buffer: string): Parse {
    var end := SeparatorFrom(buffer, 0);
    if end.None? then NeedMore
    else
      SeparatorIsThere(buffer, 0);
      var length := ContentLength(buffer[..end.value]);
      if length.None? then Invalid
      else if |buffer| < end.value + 4 + length.value then NeedMore
      else Message(buffer[end.value + 4..end.value + 4 + length.value], buffer[end.value + 4 + length.value..])
  }

  predicate SeparatorAt(s: string, i: nat) {
    i + 4 <= |s| && s[i..i + 4] == SEPARATOR
  }

  /** The search finds the first separator. */
  lemma {:induction false} SeparatorIsThere(s: string, from: nat)
    ensures var r := SeparatorFrom(s, from);
            && (r.Some? ==> from <= r.value && SeparatorAt(s, r.value))
            && (forall i :: from <= i && SeparatorAt(s, i) ==> r.Some? && r.value <= i)
    decreases |s| - from
  {
    if from + 4 <= |s| && s[from..from + 4] != SEPARATOR {
      SeparatorIsThere(s, from + 1);
    }
  }

  /** All the messages a buffer holds, and what is left of it. */
  function Drain(buffer: string): (seq<string>, string)
    decreases |buffer|
  {
    match ParseOne(buffer)
    case Message(content, rest) =>
      SeparatorIsThere(buffer, 0);
      var (more, left) := Drain(rest);
      ([content] + more, left)
    case _ => ([], buffer)
  }

  lemma DrainMessage(buffer: string)
    requires ParseOne(buffer).Message?
    ensures var rest := Drain(ParseOne(buffer).rest);
            Drain(buffer) == ([ParseOne(buffer).content] + rest.0, rest.1)
  {
  }

  lemma DrainStops(buffer: string)
    requires !ParseOne(buffer).Message?
    ensures Drain(buffer) == ([], buffer)
  {
  }

  // -- What one turn means ---------------------------------------------------------------

  /** The field name stands at `i`, with at least one digit after it. */
  predicate FieldAt(header: string, i: nat) {
    i + |FIELD| < |header| && header[i..i + |FIELD|] == FIELD && IsDigit(header[i + |FIELD|])
  }

  ghost predicate FirstFieldAt(header: string, i: nat) {
    FieldAt(header, i) && forall j :: 0 <= j < i ==> !FieldAt(header, j)
  }

  lemma {:induction false} DigitRunIsLongest(s: string)
    ensures var n := |DigitRun(s)|;
            n <= |s| && DigitRun(s) == s[..n] && (forall i :: 0 <= i < n ==> IsDigit(s[i])) && (n < |s| ==> !IsDigit(s[n]))
  {
    if s != "" && IsDigit(s[0]) {
      DigitRunIsLongest(s[1..]);
    }
  }

  lemma FieldFurtherOn(header: string, i: nat)
    requires header != "" && i > 0
    ensures FieldAt(header, i) <==> FieldAt(header[1..], i - 1)
  {
    if i + |FIELD| < |header| {
      assert header[1..][i - 1..i - 1 + |FIELD|] == header[i..i + |FIELD|];
    }
  }

  lemma FieldHere(header: string)
    ensures FieldAt(header, 0) <==> header != "" && FIELD <= header && DigitRun(header[|FIELD|..]) != ""
  {
    if FIELD <= header {
      assert header[0..|FIELD|] == FIELD;
      DigitRunIsLongest(header[|FIELD|..]);
    }
  }

  /** The length read is the longest run of digits after the first field that has one; without such a
      field there is none. */
  lemma {:induction false} LengthIsAfterFirstField(header: string)
    ensures ContentLength(header).None? <==> forall i :: 0 <= i < |header| ==> !FieldAt(header, i)
    ensures ContentLength(header).Some? ==>
              exists i :: 0 <= i < |header| && FirstFieldAt(header, i)
                          && (DigitRunIsDigits(header[i + |FIELD|..]);
                              ContentLength(header).value == ParseInt(DigitRun(header[i + |FIELD|..])))
  {
    hide DigitRun, FieldAt, ParseInt;
    if header != "" {
      FieldHere(header);
      if FieldAt(header, 0) {
        DigitRunIsDigits(header[|FIELD|..]);
        assert FirstFieldAt(header, 0);
      } else {
        LengthIsAfterFirstField(header[1..]);
        LaterField(header);
        if i :| 0 <= i < |header| - 1 && FirstFieldAt(header[1..], i) {
          StillFirst(header, i);
        }
      }
    }
  }

  lemma LaterField(header: string)
    requires header != "" && !FieldAt(header, 0)
    ensures (forall i :: 0 <= i < |header| ==> !FieldAt(header, i))
            <==> (forall i :: 0 <= i < |header| - 1 ==> !FieldAt(header[1..], i))
    ensures forall i :: 0 <= i < |header| - 1 ==> (FieldAt(header[1..], i) <==> FieldAt(header, i + 1))
  {
    forall i | 0 <= i < |header| - 1 ensures FieldAt(header[1..], i) <==> FieldAt(header, i + 1) {
      FieldFurtherOn(header, i + 1);
    }
    hide FieldAt;
    forall i | 0 <= i < |header| && FieldAt(header, i) ensures i > 0 && FieldAt(header[1..], i - 1) {
      assert FieldAt(header, i - 1 + 1);
    }
  }

  lemma StillFirst(header: string, i: nat)
    requires header != "" && !FieldAt(header, 0) && FirstFieldAt(header[1..], i)
    ensures FirstFieldAt(header, i + 1) && header[1..][i + |FIELD|..] == header[i + 1 + |FIELD|..]
  {
    FieldFurtherOn(header, i + 1);
    forall j | 0 < j < i + 1 ensures !FieldAt(header, j) {
      FieldFurtherOn(header, j);
      assert !FieldAt(header[1..], j - 1);
    }
  }

  /** The first separator of the buffer is at `end`. */
  ghost predicate HeaderEndsAt(buffer: string, end: nat) {
    SeparatorAt(buffer, end) && forall i :: 0 <= i < end ==> !SeparatorAt(buffer, i)
  }

  /** One turn reads a message exactly when the buffer is a header, a separator, as many characters as the
      header says, and the rest; it is stuck exactly on a header that says no length. */
  lemma MessageIsReadExactly(buffer: string, content: string, rest: string)
    ensures ParseOne(buffer) == Message(content, rest) <==>
            exists end :: 0 <= end <= |buffer| && HeaderEndsAt(buffer, end)
                          && ContentLength(buffer[..end]) == Some(|content|) && buffer[end + 4..] == content + rest
    ensures ParseOne(buffer).Invalid? <==>
            exists end :: 0 <= end <= |buffer| && HeaderEndsAt(buffer, end) && ContentLength(buffer[..end]).None?
  {
    hide ContentLength, SeparatorFrom;
    SeparatorIsThere(buffer, 0);
    var end := SeparatorFrom(buffer, 0);
    if end.Some? {
      assert HeaderEndsAt(buffer, end.value);
      assert forall e: nat :: HeaderEndsAt(buffer, e) ==> e == end.value;
      var body := buffer[end.value + 4..];
      var length := ContentLength(buffer[..end.value]);
      if length.Some? && length.value <= |body| {
        assert body == body[..length.value] + body[length.value..];
      }
      if body == content + rest && length == Some(|content|) {
        assert body[..length.value] == content && body[length.value..] == rest;
      }
    }
  }

  // -- Delivery in chunks ----------------------------------------------------------------

  function Concat(chunks: seq<string>): string {
    if chunks == [] then "" else Concat(chunks[..|chunks| - 1]) + chunks[|chunks| - 1]
  }

  /** The messages read, and the buffer, after the chunks have arrived one by one. */
  function Deliver(chunks: seq<string>): (seq<string>, string) {
    if chunks == [] then ([], "")
    else
      var (before, buffer) := Deliver(chunks[..|chunks| - 1]);
      var (more, left) := Drain(buffer + chunks[|chunks| - 1]);
      (before + more, left)
  }

  lemma SeparatorStays(a: string, b: string)
    requires SeparatorFrom(a, 0).Some?
    ensures SeparatorFrom(a + b, 0) == SeparatorFrom(a, 0)
  {
    hide SeparatorFrom;
    SeparatorIsThere(a, 0);
    SeparatorIsThere(a + b, 0);
    var i := SeparatorFrom(a, 0).value;
    assert (a + b)[i..i + 4] == a[i..i + 4];
    assert SeparatorAt(a + b, i);
    var k := SeparatorFrom(a + b, 0).value;
    assert (a + b)[k..k + 4] == a[k..k + 4];
    assert SeparatorAt(a, k);
  }

  /** Later data never changes what has been parsed already: a message stays that message, and a bad
      header stays bad. */
  lemma ParsedStaysParsed(a: string, b: string)
    ensures ParseOne(a).Message? ==>
              ParseOne(a + b) == Message(ParseOne(a).content, ParseOne(a).rest + b)
    ensures ParseOne(a).Invalid? ==> ParseOne(a + b).Invalid?
  {
    hide SeparatorFrom, ContentLength;
    if SeparatorFrom(a, 0).Some? {
      SeparatorIsThere(a, 0);
      SeparatorStays(a, b);
      var end := SeparatorFrom(a, 0).value;
      assert (a + b)[..end] == a[..end];
      var length := ContentLength(a[..end]);
      if length.Some? && |a| >= end + 4 + length.value {
        var from, to := end + 4, end + 4 + length.value;
        assert (a + b)[from..to] == a[from..to];
        assert (a + b)[to..] == a[to..] + b;
      }
    }
  }

  lemma {:induction false} DrainExtends(a: string, b: string)
    ensures var (ms, left) := Drain(a);
            var (more, end) := Drain(left + b);
            Drain(a + b) == (ms + more, end)
    decreases |a|
  {
    hide ParseOne;
    ParsedStaysParsed(a, b);
    if ParseOne(a).Message? {
      RestIsShorter(a);
      DrainExtends(ParseOne(a).rest, b);
      DrainMessage(a);
      DrainMessage(a + b);
      hide Drain;
      var (ms, left) := Drain(ParseOne(a).rest);
      var (more, end) := Drain(left + b);
      assert [ParseOne(a).content] + (ms + more) == ([ParseOne(a).content] + ms) + more;
    } else {
      DrainStops(a);
      assert [] + Drain(a + b).0 == Drain(a + b).0;
    }
  }

  lemma RestIsShorter(buffer: string)
    requires ParseOne(buffer).Message?
    ensures |ParseOne(buffer).rest| < |buffer|
  {
    hide SeparatorFrom, ContentLength;
    SeparatorIsThere(buffer, 0);
  }

  /** Whatever arrives, good or bad, the chunks it comes in make no difference. */
  lemma {:induction false} ChunksMakeNoDifference(chunks: seq<string>)
    ensures Deliver(chunks) == Drain(Concat(chunks))
  {
    hide Drain;
    if chunks == [] {
      NothingToDrain();
    } else {
      var front, last := chunks[..|chunks| - 1], chunks[|chunks| - 1];
      ChunksMakeNoDifference(front);
      DrainExtends(Concat(front), last);
    }
  }

  lemma NothingToDrain()
    ensures Drain("") == ([], "")
  {
  }

  /** A header without a length blocks the reader for good: whatever follows, nothing is read. */
  lemma InvalidHeaderBlocks(buffer: string, later: string)
    requires ParseOne(buffer).Invalid?
    ensures Drain(buffer + later) == ([], buffer + later)
  {
    hide ParseOne;
    ParsedStaysParsed(buffer, later);
  }

  // -- The printer's output read back ----------------------------------------------------

  lemma {:induction false} AllDigitsRun(s: string)
    requires AllDigits(s)
    ensures DigitRun(s) == s
  {
    if s != "" {
      AllDigitsRun(s[1..]);
    }
  }

  lemma HeaderReadsBack(n: nat)
    ensures ContentLength(Header(n)) == Some(n)
    ensures forall i :: 0 <= i < |Header(n)| ==> Header(n)[i] != '\r'
  {
    hide Digits, ParseInt, DigitRun;
    DigitsReadBack(n);
    AllDigitsRun(Digits(n));
    assert Header(n)[|FIELD|..] == Digits(n);
    assert forall i :: 0 <= i < |FIELD| ==> FIELD[i] != '\r';
  }

  lemma {:induction false} ByteLengthIsLength(m: string)
    ensures |m| <= ByteLength(m)
    ensures ByteLength(m) == |m| <==> SingleByte(m)
  {
    if m != "" {
      ByteLengthIsLength(m[..|m| - 1]);
      assert SingleByte(m) <==> SingleByte(m[..|m| - 1]) && m[|m| - 1] as int < 0x80;
    }
  }

  /** The parser on any prefix of a frame followed by anything: it finds the printed header. */
  lemma FrameHeaderIsFound(m: string, buffer: string)
    requires Header(ByteLength(m)) + SEPARATOR <= buffer
    ensures SeparatorFrom(buffer, 0) == Some(|Header(ByteLength(m))|)
    ensures ContentLength(buffer[..|Header(ByteLength(m))|]) == Some(ByteLength(m))
  {
    hide SeparatorFrom, ContentLength;
    var h := Header(ByteLength(m));
    hide Header;
    HeaderReadsBack(ByteLength(m));
    SeparatorIsThere(buffer, 0);
    assert buffer[|h|..|h| + 4] == (h + SEPARATOR)[|h|..|h| + 4] == SEPARATOR;
    assert SeparatorAt(buffer, |h|);
    assert forall i :: 0 <= i < |h| ==> buffer[i] == (h + SEPARATOR)[i] == h[i];
    assert SEPARATOR[0] == '\r';
    assert buffer[..|h|] == h;
  }

  /** Only part of a frame has arrived: wait. */
  lemma PartOfAFrameWaits(m: string, part: string)
    requires SingleByte(m) && part < Frame(m)
    ensures ParseOne(part) == NeedMore
  {
    hide SeparatorFrom, ContentLength, ByteLength;
    var h := Header(ByteLength(m));
    hide Header;
    if |h| + 4 <= |part| {
      assert h + SEPARATOR == part[..|h| + 4];
      FrameHeaderIsFound(m, part);
      ByteLengthIsLength(m);
    } else {
      HeaderReadsBack(ByteLength(m));
      SeparatorIsThere(part, 0);
      assert forall i :: 0 <= i < |part| && i < |h| ==> part[i] == Frame(m)[i] == h[i];
      assert SEPARATOR[0] == '\r';
    }
  }

  /** A whole frame has arrived: exactly its message is taken, and nothing of what follows. */
  lemma FrameIsRead(m: string, rest: string)
    requires SingleByte(m)
    ensures ParseOne(Frame(m) + rest) == Message(m, rest)
  {
    hide SeparatorFrom, ContentLength, ByteLength;
    var h, buffer := Header(ByteLength(m)), Frame(m) + rest;
    hide Header;
    assert h + SEPARATOR == buffer[..|h| + 4];
    FrameHeaderIsFound(m, buffer);
    ByteLengthIsLength(m);
    assert buffer[|h| + 4..|h| + 4 + |m|] == m;
    assert buffer[|h| + 4 + |m|..] == rest;
  }

  /** The printer counts bytes and the parser counts characters, so a frame on its own is read back
      exactly when each of its characters is one byte; otherwise the parser waits for more. */
  lemma LoneFrameIsReadExactlyWhenSingleByte(m: string)
    ensures SingleByte(m) <==> ParseOne(Frame(m)) == Message(m, "")
    ensures !SingleByte(m) ==> ParseOne(Frame(m)) == NeedMore
  {
    hide SeparatorFrom, ContentLength, ByteLength;
    ByteLengthIsLength(m);
    if SingleByte(m) {
      FrameIsRead(m, "");
      assert Frame(m) + "" == Frame(m);
    } else {
      var h := Header(ByteLength(m));
      hide Header;
      assert h + SEPARATOR == Frame(m)[..|h| + 4];
      FrameHeaderIsFound(m, Frame(m));
    }
  }

  /** How many of the frames of `ms` are complete in the first `n` characters of their stream. */
  function WholeFrames(ms: seq<string>, n: nat): (k: nat)
    ensures k <= |ms|
  {
    if ms == [] || n < |Frame(ms[0])| then 0 else 1 + WholeFrames(ms[1..], n - |Frame(ms[0])|)
  }

  /** What a reader holds when it has been sent a prefix of the frames of `ms`: exactly the first `k`
      messages, and a proper part of the next frame. */
  ghost predicate InStep(ms: seq<string>, sent: string, k: nat, read: seq<string>, buffer: string) {
    && k <= |ms| && read == ms[..k]
    && sent == Stream(ms[..k]) + buffer
    && (if k < |ms| then buffer < Frame(ms[k]) else buffer == "")
  }

  lemma {:induction false} PrefixDrains(ms: seq<string>, sent: string)
    requires AllSingleByte(ms)
    requires sent <= Stream(ms)
    ensures var (read, buffer) := Drain(sent); InStep(ms, sent, WholeFrames(ms, |sent|), read, buffer)
    decreases |ms|
  {
    hide Frame, ParseOne;
    if ms == [] {
      NothingToDrain();
    } else if |sent| < |Frame(ms[0])| {
      assert sent == Frame(ms[0])[..|sent|];
      PartOfAFrameWaits(ms[0], sent);
      DrainStops(sent);
      assert Stream(ms[..0]) + sent == sent;
    } else {
      var f := Frame(ms[0]);
      var rest := sent[|f|..];
      assert rest <= Stream(ms[1..]) by {
        assert Stream(ms)[|f|..] == Stream(ms[1..]);
      }
      PrefixDrains(ms[1..], rest);
      assert sent == f + rest;
      FrameIsRead(ms[0], rest);
      DrainMessage(sent);
      hide Drain;
      OneMoreInStep(ms, rest, WholeFrames(ms[1..], |rest|), Drain(rest).0, Drain(rest).1);
    }
  }

  lemma OneMoreInStep(ms: seq<string>, sent: string, k: nat, read: seq<string>, buffer: string)
    requires ms != [] && InStep(ms[1..], sent, k, read, buffer)
    ensures InStep(ms, Frame(ms[0]) + sent, k + 1, [ms[0]] + read, buffer)
  {
    hide Frame;
    assert ms[..k + 1][1..] == ms[1..][..k];
    assert Stream(ms[..k + 1]) == Frame(ms[0]) + Stream(ms[1..][..k]);
  }

  /** Round trip.  For any messages of one-byte characters, printed with their headers and delivered
      in any chunks: at every moment the messages read are the first ones printed, in order, as many
      as have arrived whole, and the buffer is the unread suffix of what has arrived.  When all has
      arrived, all has been read and the buffer is empty. */
  lemma FramingRoundTrip(ms: seq<string>, chunks: seq<string>)
    requires AllSingleByte(ms)
    requires Concat(chunks) <= Stream(ms)
    ensures var (read, buffer) := Deliver(chunks);
            InStep(ms, Concat(chunks), WholeFrames(ms, |Concat(chunks)|), read, buffer)
    ensures Concat(chunks) == Stream(ms) ==> Deliver(chunks) == (ms, "")
  {
    hide Drain, Frame;
    ChunksMakeNoDifference(chunks);
    PrefixDrains(ms, Concat(chunks));
    if Concat(chunks) == Stream(ms) {
      hide Deliver;
      AllFramesAreWhole(ms);
      assert ms[..|ms|] == ms;
    }
  }

  lemma {:induction false} AllFramesAreWhole(ms: seq<string>)
    ensures WholeFrames(ms, |Stream(ms)|) == |ms|
  {
    hide Frame;
    if ms != [] {
      AllFramesAreWhole(ms[1..]);
    }
  }

  lemma {:induction false} StreamReadsBackExactly(ms: seq<string>)
    ensures Drain(Stream(ms)) == (ms, "") <==> AllSingleByte(ms)
  {
    hide Frame, ParseOne;
    if ms == [] {
      NothingToDrain();
    } else {
      var m, rest := ms[0], Stream(ms[1..]);
      assert ms == [m] + ms[1..];
      assert AllSingleByte(ms) <==> SingleByte(m) && AllSingleByte(ms[1..]);
      if SingleByte(m) {
        StreamReadsBackExactly(ms[1..]);
        FrameIsRead(m, rest);
        DrainMessage(Stream(ms));
        hide Drain;
        assert Drain(Stream(ms)).0[1..] == Drain(rest).0;
      } else {
        MultiByteIsMisread(m, rest);
        if ParseOne(Stream(ms)).Message? {
          DrainMessage(Stream(ms));
          hide Drain;
          assert Drain(Stream(ms)).0[0] != m;
        } else {
          DrainStops(Stream(ms));
        }
      }
    }
  }

  /** A message with a multi-byte character is never the one read from its frame: the reader takes as
      many characters as the message has bytes. */
  lemma MultiByteIsMisread(m: string, rest: string)
    requires !SingleByte(m)
    ensures ParseOne(Frame(m) + rest).Message? ==> |ParseOne(Frame(m) + rest).content| > |m|
  {
    hide SeparatorFrom, ContentLength, ByteLength;
    var h, buffer := Header(ByteLength(m)), Frame(m) + rest;
    hide Header;
    assert h + SEPARATOR == buffer[..|h| + 4];
    FrameHeaderIsFound(m, buffer);
    ByteLengthIsLength(m);
  }

  /** The whole printed stream is read back as printed exactly when every message consists of one-byte
      characters, however it is delivered. */
  lemma ReadBackExactlyWhenSingleByte(ms: seq<string>, chunks: seq<string>)
    requires Concat(chunks) == Stream(ms)
    ensures Deliver(chunks) == (ms, "") <==> AllSingleByte(ms)
  {
    hide Drain, Frame, Deliver;
    ChunksMakeNoDifference(chunks);
    StreamReadsBackExactly(ms);
  }

  /** The reader of the server's output. `received` is everything that has arrived. */
  class StdoutReader {
    var buffer: string
    var messages: seq<string>
    ghost var received: string

    ghost predicate Valid()
      reads this
    {
      (messages, buffer) == Drain(received)
    }

    constructor ()
      ensures Valid() && received == ""
    {
      buffer, messages, received := "", [], "";
    }

    /** The `data` handler. */
    method OnData(data: string)
      requires Valid()
      modifies this
      ensures Valid() && received == old(received) + data
      ensures old(messages) <= messages
    {
      hide Drain, SeparatorFrom, ContentLength;
      DrainExtends(received, data);
      received := received + data;
      buffer := buffer + data;
      assert Drain(buffer) == (Drain(buffer).0, Drain(buffer).1);
      while true
        invariant (messages + Drain(buffer).0, Drain(buffer).1) == Drain(received)
        invariant received == old(received) + data && old(messages) <= messages
        decreases |buffer|
      {
        SeparatorIsThere(buffer, 0);
        var headerEnd := SeparatorFrom(buffer, 0);
        if headerEnd.None? {
          DrainStops(buffer);
          break;
        }
        var contentLength := ContentLength(buffer[..headerEnd.value]);
        if contentLength.None? {
          DrainStops(buffer);
          break;
        }
        var messageStart := headerEnd.value + 4;
        if |buffer| < messageStart + contentLength.value {
          DrainStops(buffer);
          break;
        }
        DrainMessage(buffer);
        ghost var content, rest := ParseOne(buffer).content, ParseOne(buffer).rest;
        assert messages + ([content] + Drain(rest).0) == (messages + [content]) + Drain(rest).0;
        messages := messages + [buffer[messageStart..messageStart + contentLength.value]];
        buffer := buffer[messageStart + contentLength.value..];
      }
      assert messages + [] == messages;
    }
  }
}
