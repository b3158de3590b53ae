/** The stream de-framer (interface/FramingIface.c): length-prefixed frames out of arbitrary
    chunks. */
module Framing {
  import opened CTypes

  newtype byte = b: int | 0 <= b < 256
  type Bytes = seq<byte>

  const HEADER: nat := 4

  /** Endian_bigEndianToHost32 of the four header bytes. */
  function Length(h: Bytes): (r: nat)
    requires |h| == HEADER
    ensures r < U32
  {
    ((h[0] as int * 256 + h[1] as int) * 256 + h[2] as int) * 256 + h[3] as int
  }

  /** Message_push32. */
  function LengthBytes(n: nat): (r: Bytes)
    requires n < U32
    ensures |r| == HEADER && Length(r) == n
  {
    [(n / 256 / 256 / 256) as byte, (n / 256 / 256 % 256) as byte, (n / 256 % 256) as byte, (n % 256) as byte]
  }

  /** `h` has the smaller byte where the two first differ. */
  ghost predicate Precedes(h: Bytes, k: Bytes)
    requires |h| == |k| == HEADER
  {
    exists i :: 0 <= i < HEADER && h[..i] == k[..i] && h[i] < k[i]
  }

  /** Headers compare as the lengths they announce, first byte first: the byte order is big-endian. */
  lemma {:induction false} LengthOrder(h: Bytes, k: Bytes)
    requires |h| == |k| == HEADER
    ensures Length(h) < Length(k) <==> Precedes(h, k)
    ensures Length(h) == Length(k) <==> h == k
  {
    if h != k {
      var i := FirstByte(h, k);
      if h[i] < k[i] { BytesBelow(h, k, i); } else { BytesBelow(k, h, i); }
      if Precedes(h, k) {
        var j :| 0 <= j < HEADER && h[..j] == k[..j] && h[j] < k[j];
        BytesBelow(h, k, j);
      }
    }
  }

  lemma FirstByte(h: Bytes, k: Bytes) returns (i: nat)
    requires |h| == |k| == HEADER && h != k
    ensures i < HEADER && h[..i] == k[..i] && h[i] != k[i]
  {
    i := 0;
    while h[i] == k[i]
      invariant i < HEADER && h[..i] == k[..i]
      invariant exists j :: i <= j < HEADER && h[j] != k[j]
      decreases HEADER - i
    {
      i := i + 1;
    }
  }

  lemma BytesBelow(h: Bytes, k: Bytes, i: nat)
    requires |h| == |k| == HEADER && i < HEADER && h[..i] == k[..i] && h[i] < k[i]
    ensures Length(h) < Length(k)
  {
    assert i > 0 ==> h[0] == h[..i][0] == k[0];
    assert i > 1 ==> h[1] == h[..i][1] == k[1];
    assert i > 2 ==> h[2] == h[..i][2] == k[2];
  }

  /** The header of a framed message, byte by byte. */
  lemma FrameHeader(m: Bytes)
    requires |m| < U32
    ensures var f := Frame(m);
      |f| == 4 + |m| && f[4..] == m &&
      f[0] as int * 0x100_0000 + f[1] as int * 0x1_0000 + f[2] as int * 0x100 + f[3] as int == |m|
  {
    assert Length(LengthBytes(|m|)) == |m|;
    var f := Frame(m);
    assert f[..4] == LengthBytes(|m|);
  }

  // ---------------------------------------------------------------- the whole-stream parser

  /** What is left over: the bytes of an unfinished frame, or a header that announced too much. */
  datatype Rest = Partial(bytes: Bytes) | Oversize

  datatype Parsed = Parsed(messages: seq<Bytes>, rest: Rest)

  function Parse(max: nat, s: Bytes): Parsed {
    if |s| < HEADER then Parsed([], Partial(s))
    else
      var n := Length(s[..HEADER]);
      if n > max then Parsed([], Oversize)
      else if |s| < HEADER + n then Parsed([], Partial(s))
      else
        var p := Parse(max, s[HEADER + n..]);
        Parsed([s[HEADER..HEADER + n]] + p.messages, p.rest)
  }

  /** One more chunk, by the simple parser. */
  function Feed(max: nat, rest: Rest, chunk: Bytes): Parsed {
    match rest
    case Oversize => Parsed([], Oversize)
    case Partial(bytes) => Parse(max, bytes + chunk)
  }

  function FeedAll(max: nat, rest: Rest, chunks: seq<Bytes>): Parsed
    decreases |chunks|
  {
    if chunks == [] then Parsed([], rest)
    else
      var first := Feed(max, rest, chunks[0]);
      var more := FeedAll(max, first.rest, chunks[1..]);
      Parsed(first.messages + more.messages, more.rest)
  }

  function Concat(chunks: seq<Bytes>): Bytes {
    if chunks == [] then [] else chunks[0] + Concat(chunks[1..])
  }

  /** sendMessage. */
  function Frame(m: Bytes): Bytes
    requires |m| < U32
  {
    LengthBytes(|m|) + m
  }

  function FrameAll(max: nat, ms: seq<Bytes>): Bytes
    requires max < U32 && forall i :: 0 <= i < |ms| ==> |ms[i]| <= max
  {
    if ms == [] then [] else Frame(ms[0]) + FrameAll(max, ms[1..])
  }

  function Prefixed(emitted: seq<Bytes>, p: Parsed): Parsed {
    Parsed(emitted + p.messages, p.rest)
  }

  lemma PrefixedTwice(x: seq<Bytes>, y: seq<Bytes>, p: Parsed)
    ensures Prefixed(x, Prefixed(y, p)) == Prefixed(x + y, p) && Prefixed([], p) == p
  {
    assert x + (y + p.messages) == (x + y) + p.messages;
  }

  /** A whole frame and what follows it. */
  lemma ParseOne(max: nat, h: Bytes, m: Bytes, tail: Bytes)
    requires |h| == HEADER && Length(h) == |m| <= max
    ensures Parse(max, h + m + tail) == Prefixed([m], Parse(max, tail))
  {
    var s := h + m + tail;
    assert s[..HEADER] == h && s[HEADER..HEADER + |m|] == m && s[HEADER + |m|..] == tail;
  }

  lemma ParseShort(max: nat, s: Bytes)
    requires |s| < HEADER
    ensures Parse(max, s) == Parsed([], Partial(s))
  {}

  /** What a header and the bytes after it parse to. */
  lemma ParseCases(max: nat, h: Bytes, msg: Bytes)
    requires |h| == HEADER
    ensures Length(h) > max ==> Parse(max, h + msg) == Parsed([], Oversize)
    ensures Length(h) <= max && Length(h) > |msg| ==> Parse(max, h + msg) == Parsed([], Partial(h + msg))
    ensures Length(h) <= max && Length(h) == |msg| ==> Parse(max, h + msg) == Parsed([msg], Partial([]))
    ensures Length(h) <= max && Length(h) < |msg| ==>
      Parse(max, h + msg) == Prefixed([msg[..Length(h)]], Parse(max, msg[Length(h)..]))
  {
    var s, n := h + msg, Length(h);
    assert s[..HEADER] == h;
    if n <= |msg| {
      assert s[HEADER..HEADER + n] == msg[..n] && s[HEADER + n..] == msg[n..];
      if n == |msg| { assert msg[..n] == msg && msg[n..] == []; }
    }
  }

  /** Parsing a stream in two parts: parse the first, then the second after what was left over. */
  lemma {:induction false} ParseSplit(max: nat, a: Bytes, b: Bytes)
    ensures Parse(max, a + b) == Prefixed(Parse(max, a).messages, Feed(max, Parse(max, a).rest, b))
    decreases |a|
  {
    hide Parse, Length;
    PrefixedTwice([], [], Parse(max, a + b));
    if |a| < HEADER {
      ParseShort(max, a);
    } else {
      var h, msg := a[..HEADER], a[HEADER..];
      var n := Length(h);
      assert h + msg == a;
      ParseCases(max, h, msg);
      if n > max {
        assert h + (msg + b) == a + b;
        ParseCases(max, h, msg + b);
      } else if n <= |msg| {
        var m, t := msg[..n], msg[n..];
        assert h + m + t == a && h + m + (t + b) == a + b;
        ParseOne(max, h, m, t);
        ParseOne(max, h, m, t + b);
        ParseSplit(max, t, b);
        PrefixedTwice([m], Parse(max, t).messages, Feed(max, Parse(max, t).rest, b));
      }
    }
  }

  lemma {:induction false} ParseAgain(max: nat, s: Bytes)
    ensures Parse(max, s).rest.Partial? ==> Parse(max, Parse(max, s).rest.bytes) == Parsed([], Parse(max, s).rest)
    decreases |s|
  {
    if |s| >= HEADER && Length(s[..HEADER]) <= max && |s| >= HEADER + Length(s[..HEADER]) {
      ParseAgain(max, s[HEADER + Length(s[..HEADER])..]);
    }
  }

  /** Independence of chunking: however a stream is cut up, the messages and what is left over are
      those of the whole stream. */
  lemma {:induction false} ChunkingIrrelevant(max: nat, bytes: Bytes, chunks: seq<Bytes>)
    requires Parse(max, bytes) == Parsed([], Partial(bytes))
    ensures FeedAll(max, Partial(bytes), chunks) == Parse(max, bytes + Concat(chunks))
    decreases |chunks|
  {
    if chunks == [] {
      assert bytes + Concat(chunks) == bytes;
    } else {
      var first := Parse(max, bytes + chunks[0]);
      assert bytes + Concat(chunks) == (bytes + chunks[0]) + Concat(chunks[1..]);
      ParseSplit(max, bytes + chunks[0], Concat(chunks[1..]));
      match first.rest
      case Partial(left) =>
        ParseAgain(max, bytes + chunks[0]);
        ChunkingIrrelevant(max, left, chunks[1..]);
      case Oversize =>
        OversizeForever(max, chunks[1..]);
    }
  }

  /** After an oversize header nothing more is emitted. */
  lemma {:induction false} OversizeForever(max: nat, chunks: seq<Bytes>)
    ensures FeedAll(max, Oversize, chunks) == Parsed([], Oversize)
  {
    if chunks != [] { OversizeForever(max, chunks[1..]); }
  }

  lemma {:induction false} ParseFrame(max: nat, m: Bytes, tail: Bytes)
    requires |m| <= max < U32
    ensures Parse(max, Frame(m) + tail) == Parsed([m] + Parse(max, tail).messages, Parse(max, tail).rest)
  {
    ParseOne(max, LengthBytes(|m|), m, tail);
  }

  /** Round trip: what sendMessage framed, in whatever chunks it arrives, comes out in order. */
  lemma {:induction false} RoundTrip(max: nat, ms: seq<Bytes>, chunks: seq<Bytes>)
    requires max < U32 && forall i :: 0 <= i < |ms| ==> |ms[i]| <= max
    requires Concat(chunks) == FrameAll(max, ms)
    ensures FeedAll(max, Partial([]), chunks) == Parsed(ms, Partial([]))
  {
    ChunkingIrrelevant(max, [], chunks);
    assert [] + Concat(chunks) == Concat(chunks);
    ParseFrames(max, ms);
  }

  lemma {:induction false} ParseFrames(max: nat, ms: seq<Bytes>)
    requires max < U32 && forall i :: 0 <= i < |ms| ==> |ms[i]| <= max
    ensures Parse(max, FrameAll(max, ms)) == Parsed(ms, Partial([]))
  {
    if ms != [] {
      ParseFrame(max, ms[0], FrameAll(max, ms[1..]));
      ParseFrames(max, ms[1..]);
      assert ms == [ms[0]] + ms[1..];
    }
  }

  /** One frame and what follows it. */
  lemma FramePlus(max: nat, m: Bytes, messages: seq<Bytes>, rest: Bytes, h: Bytes)
    requires max < U32 && |m| <= max && forall i :: 0 <= i < |messages| ==> |messages[i]| <= max
    requires |h| == HEADER && Length(h) == |m|
    ensures forall i :: 0 <= i < |[m] + messages| ==> |([m] + messages)[i]| <= max
    ensures FrameAll(max, [m] + messages) + rest == (h + m) + (FrameAll(max, messages) + rest)
  {
    hide Length, LengthBytes;
    HeaderBytes(h);
    assert ([m] + messages)[1..] == messages;
    assert FrameAll(max, [m] + messages) == (h + m) + FrameAll(max, messages);
  }

  /** Conservation: the frames of what came out, and what is left over, are the stream. */
  lemma {:induction false} NothingLost(max: nat, s: Bytes)
    requires max < U32
    ensures var p := Parse(max, s);
      && (forall i :: 0 <= i < |p.messages| ==> |p.messages[i]| <= max)
      && (p.rest.Partial? ==> FrameAll(max, p.messages) + p.rest.bytes == s)
    decreases |s|
  {
    hide Length, LengthBytes;
    if |s| >= HEADER {
      var h, n := s[..HEADER], Length(s[..HEADER]);
      if n <= max && |s| >= HEADER + n {
        var p, m := Parse(max, s[HEADER + n..]), s[HEADER..HEADER + n];
        NothingLost(max, s[HEADER + n..]);
        assert s == (h + m) + s[HEADER + n..];
        if p.rest.Partial? { FramePlus(max, m, p.messages, p.rest.bytes, h); }
      }
    }
  }

  lemma HeaderBytes(h: Bytes)
    requires |h| == HEADER
    ensures LengthBytes(Length(h)) == h
  {
    var x := h[0] as int * 256 + h[1] as int;
    var y := x * 256 + h[2] as int;
    assert Length(h) == y * 256 + h[3] as int;
    assert Length(h) / 256 == y && y / 256 == x && x / 256 == h[0] as int;
  }

  // ---------------------------------------------------------------- the code

  class FramingIface {
    const maxMessageSize: nat
    var bytesRemaining: nat
    /** The pieces of an unfinished frame, latest first; the earliest begins with the header. */
    var frameParts: seq<Bytes>
    const header: array<byte>
    var headerIndex: nat

    ghost predicate Valid()
      reads this, header
    {
      && maxMessageSize < U32 && header.Length == HEADER && headerIndex < HEADER
      && (bytesRemaining > maxMessageSize ==> frameParts == [])
      && (frameParts != [] ==>
            && headerIndex == 0
            && HEADER <= |Joined(frameParts)|
            && 0 < bytesRemaining <= maxMessageSize
            && Length(Joined(frameParts)[..HEADER]) == |Joined(frameParts)| - HEADER + bytesRemaining
            && Length(Joined(frameParts)[..HEADER]) <= maxMessageSize)
      && (frameParts == [] && bytesRemaining <= maxMessageSize ==> bytesRemaining == 0)
    }

    /** What has been received of the present frame. */
    ghost function Pending(): Rest
      reads this, header
      requires Valid()
    {
      if bytesRemaining > maxMessageSize then Oversize
      else if frameParts != [] then Partial(Joined(frameParts))
      else Partial(header[..headerIndex])
    }

    constructor (maxMessageSize: nat)
      requires maxMessageSize < U32
      ensures Valid() && Pending() == Partial([]) && this.maxMessageSize == maxMessageSize && fresh(header)
    {
      this.maxMessageSize := maxMessageSize;
      bytesRemaining, frameParts, headerIndex := 0, [], 0;
      header := new byte[HEADER];
    }

    /** sendMessage(): pushes the length in front of the message. */
    method SendMessage(msg: Bytes) returns (out: Bytes)
      requires |msg| < U32
      ensures out == Frame(msg)
      ensures out[..4] + msg == out
    {
      out := LengthBytes(|msg|) + msg;
    }

    /** mergeMessage(): the parts pushed in front of the last one. */
    method MergeMessage(last: Bytes) returns (out: Bytes)
      ensures out == Joined(frameParts) + last
    {
      var length, i := |last|, 0;
      while i < |frameParts|
        invariant 0 <= i <= |frameParts| && length == |last| + |Joined(frameParts[..i])|
      {
        assert frameParts[..i + 1] == frameParts[..i] + [frameParts[i]];
        JoinedPush(frameParts[..i], frameParts[i]);
        length, i := length + |frameParts[i]|, i + 1;
      }
      assert frameParts[..i] == frameParts;
      out, i := last, 0;
      while i < |frameParts|
        invariant 0 <= i <= |frameParts| && out == Joined(frameParts[..i]) + last
      {
        assert frameParts[..i + 1] == frameParts[..i] + [frameParts[i]];
        JoinedPush(frameParts[..i], frameParts[i]);
        out, i := frameParts[i] + out, i + 1;
      }
      assert frameParts[..i] == frameParts;
      assert length <= |out|;
    }

    /** receiveMessage(): feeds one chunk; `emitted` are the messages sent on, in order. */
    method ReceiveMessage(chunk: Bytes) returns (emitted: seq<Bytes>)
      requires Valid()
      modifies this, header
      ensures Valid()
      ensures Parsed(emitted, Pending()) == Feed(maxMessageSize, old(Pending()), chunk)
      decreases frameParts != []
    {
      if bytesRemaining > maxMessageSize { return []; }
      if frameParts != [] {
        ghost var pending := Joined(frameParts);
        if bytesRemaining <= |chunk| {
          var whole := MergeMessage(chunk);
          bytesRemaining := 0;
          frameParts := [];
          assert headerIndex == 0;
          assert header[..headerIndex] + whole == pending + chunk;
          emitted := ReceiveMessage(whole);
          return;
        }
        MorePending(maxMessageSize, pending, chunk, bytesRemaining);
        JoinedCons(chunk, frameParts);
        bytesRemaining := bytesRemaining - |chunk|;
        frameParts := [chunk] + frameParts;
        return [];
      }
      emitted := Deframe(chunk);
    }

    /** Lines 101-108: move bytes into the header; false when the chunk runs out first. */
    method FillHeader(chunk: Bytes) returns (full: bool, msg: Bytes)
      requires Valid()
      modifies `headerIndex, header
      ensures headerIndex <= HEADER && (full <==> headerIndex == HEADER)
      ensures header[..headerIndex] + msg == old(header[..headerIndex]) + chunk
      ensures !full ==> msg == []
    {
      msg := chunk;
      ghost var here := header[..headerIndex] + chunk;
      while headerIndex < HEADER
        invariant headerIndex <= HEADER && header[..headerIndex] + msg == here
        decreases HEADER - headerIndex
      {
        if msg == [] { return false, msg; }
        header[headerIndex] := msg[0];
        assert header[..headerIndex + 1] + msg[1..] == header[..headerIndex] + msg;
        msg := msg[1..];
        headerIndex := headerIndex + 1;
      }
      return true, msg;
    }

    /** Lines 100-147, with no frame in parts. */
    method Deframe(chunk: Bytes) returns (emitted: seq<Bytes>)
      requires Valid() && frameParts == [] && bytesRemaining == 0
      modifies this, header
      ensures Valid()
      ensures Parsed(emitted, Pending()) == Parse(maxMessageSize, old(header[..headerIndex]) + chunk)
    {
      hide Parse, Length, LengthBytes, Joined;
      emitted := [];
      var msg := chunk;
      ghost var stream := header[..headerIndex] + chunk;
      while true
        invariant Valid() && frameParts == [] && bytesRemaining == 0
        invariant Parse(maxMessageSize, stream) == Prefixed(emitted, Parse(maxMessageSize, header[..headerIndex] + msg))
        decreases |header[..headerIndex] + msg|
      {
        ghost var here := header[..headerIndex] + msg;
        var full;
        full, msg := FillHeader(msg);
        if !full {
          assert header[..headerIndex] == here;
          ParseShort(maxMessageSize, here);
          return;
        }
        headerIndex := 0;
        assert header[..] + msg == here;
        ParseCases(maxMessageSize, header[..], msg);
        bytesRemaining := Length(header[..]);
        if bytesRemaining > maxMessageSize { return; }
        if bytesRemaining == |msg| {
          bytesRemaining := 0;
          return emitted + [msg];
        } else if bytesRemaining < |msg| {
          PrefixedTwice(emitted, [msg[..bytesRemaining]], Parse(maxMessageSize, msg[bytesRemaining..]));
          emitted, msg := emitted + [msg[..bytesRemaining]], msg[bytesRemaining..];
          bytesRemaining := 0;
          assert header[..headerIndex] + msg == msg;
        } else {
          JoinedOne(header[..] + msg);
          frameParts := [header[..] + msg];
          assert frameParts[0][..HEADER] == header[..];
          bytesRemaining := bytesRemaining - |msg|;
          return;
        }
      }
    }
  }

  /** The parts in the order in which they came. */
  function Joined(parts: seq<Bytes>): Bytes {
    if parts == [] then [] else Joined(parts[1..]) + parts[0]
  }

  lemma JoinedOne(part: Bytes)
    ensures Joined([part]) == part
  {
    assert [part][1..] == [];
  }

  lemma JoinedCons(part: Bytes, parts: seq<Bytes>)
    ensures Joined([part] + parts) == Joined(parts) + part
  {
    assert ([part] + parts)[1..] == parts;
  }

  lemma {:induction false} JoinedPush(parts: seq<Bytes>, part: Bytes)
    ensures Joined(parts + [part]) == part + Joined(parts)
  {
    if parts == [] {
      assert parts + [part] == [part];
      JoinedOne(part);
    } else {
      assert (parts + [part])[1..] == parts[1..] + [part];
      JoinedPush(parts[1..], part);
    }
  }

  /** A frame that is still unfinished after the chunk. */
  lemma MorePending(max: nat, pending: Bytes, chunk: Bytes, remaining: nat)
    requires HEADER <= |pending| && Length(pending[..HEADER]) <= max
    requires Length(pending[..HEADER]) == |pending| - HEADER + remaining && |chunk| < remaining
    ensures Parse(max, pending + chunk) == Parsed([], Partial(pending + chunk))
    ensures (pending + chunk)[..HEADER] == pending[..HEADER]
  {
    assert (pending + chunk)[..HEADER] == pending[..HEADER];
  }

  // ---------------------------------------------------------------- in bytes

  lemma LengthNumbers()
    ensures Length([0, 0, 0, 1]) == 1 && Length([0, 0, 0, 101]) == 101
    ensures Length([0, 0, 1, 0]) == 256 && Length([0, 1, 0, 0]) == 0x1_0000 && Length([1, 0, 0, 0]) == 0x100_0000
  {}

  lemma ParseNumbers()
    ensures Parse(100, [0, 0, 0, 1, 65]) == Parsed([[65]], Partial([]))
    ensures Parse(100, [0, 0, 0, 101]) == Parsed([], Oversize)
    ensures Parse(101, [0, 0, 0, 101]) == Parsed([], Partial([0, 0, 0, 101]))
  {
    LengthNumbers();
    assert [0, 0, 0, 1] + [65] == [0, 0, 0, 1, 65] && [0, 0, 0, 101] + [] == [0, 0, 0, 101];
    ParseCases(100, [0, 0, 0, 1], [65]);
    ParseCases(100, [0, 0, 0, 101], []);
    ParseCases(101, [0, 0, 0, 101], []);
  }

  /** A frame of one byte, whole; and a header that announces one byte too many, in two chunks. */
  method InBytes() returns (emitted: seq<Bytes>, none: seq<Bytes>, more: seq<Bytes>)
    ensures emitted == [[65]] && none == [] && more == []
  {
    hide Parse, Length;
    ParseNumbers();
    var fi := new FramingIface(100);
    var chunk: Bytes := [0, 0, 0, 1, 65];
    assert [] + chunk == chunk;
    emitted := fi.ReceiveMessage(chunk);
    chunk := [0, 0];
    assert [] + chunk == chunk;
    ParseShort(100, chunk);
    none := fi.ReceiveMessage(chunk);
    chunk := [0, 101];
    assert [0, 0] + chunk == [0, 0, 0, 101];
    more := fi.ReceiveMessage(chunk);
    assert fi.Pending() == Oversize;
  }
}
