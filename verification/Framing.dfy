/** The header/body framing reader of a raw TCP session, with its one buffer that only ever grows. */
module Framing {
  import opened Common

  newtype Byte = x: int | 0 <= x < 256

  type Size = n: nat | n < WORD

  /** The user's callback: it is shown the whole buffer, stale bytes behind the header included. */
  type LengthCallback = seq<Byte> -> Size

  /** The documented condition on the callback: the body length depends on the header bytes alone. */
  ghost predicate LooksAtHeader(length: LengthCallback, h: nat) {
    forall b, c {:trigger length(b), length(c)} :: |b| >= h && |c| >= h && b[..h] == c[..h] ==> length(b) == length(c)
  }

  /** One turn of the read loop. `Starved`: the stream does not hold the bytes asked for yet.
      `Overrun`: a read has been started whose target reaches past the end of the buffer. */
  datatype Turn =
    | Frame(buffer: seq<Byte>, rest: seq<Byte>, message: seq<Byte>)
    | Starved(buffer: seq<Byte>)
    | Overrun(buffer: seq<Byte>)

  /** `std::vector::resize` to a larger size fills up with zeros. */
  function Grow(buffer: seq<Byte>, size: nat): (r: seq<Byte>)
    ensures |r| == if |buffer| < size then size else |buffer|
    ensures buffer <= r
  {
    if |buffer| < size then buffer + seq(size - |buffer|, _ => 0) else buffer
  }

  /** async_read of `n` bytes into the buffer at `at`. */
  function Fill(buffer: seq<Byte>, at: nat, bytes: seq<Byte>): (r: seq<Byte>)
    requires at + |bytes| <= |buffer|
    ensures |r| == |buffer| && r[..at] == buffer[..at] && r[at..at + |bytes|] == bytes
  {
    buffer[..at] + bytes + buffer[at + |bytes|..]
  }

  /** The buffer when the callback is shown the header. */
  function WithHeader(buffer: seq<Byte>, stream: seq<Byte>, h: Size): (r: seq<Byte>)
    requires h <= |stream|
    ensures |r| >= h && |r| >= |buffer| && r[..h] == stream[..h]
    ensures |buffer| < WORD ==> |r| < WORD
  {
    Fill(Grow(buffer, h), 0, stream[..h])
  }

  function ReadFrame(buffer: seq<Byte>, stream: seq<Byte>, h: Size, length: LengthCallback): Turn {
    if |stream| < h then Starved(Grow(buffer, h))
    else
      var header := WithHeader(buffer, stream, h);
      var body := length(header);
      var grown := Grow(header, (body + h) % WORD);
      if |grown| < h + body then Overrun(grown)
      else if |stream| - h < body then Starved(grown)
      else
        var full := Fill(grown, h, stream[h..h + body]);
        Frame(full, stream[h + body..], full[..h + body])
  }

  /** The header is always read inside the buffer; the body's target reaches past its end exactly when the header
      announces a body that, together with the header, does not fit in a size_t. */
  lemma OverrunExactly(buffer: seq<Byte>, stream: seq<Byte>, h: Size, length: LengthCallback)
    requires |buffer| < WORD
    ensures |Grow(buffer, h)| >= h
    ensures ReadFrame(buffer, stream, h, length).Overrun?
            <==> h <= |stream| && h + length(WithHeader(buffer, stream, h)) >= WORD
    ensures |ReadFrame(buffer, stream, h, length).buffer| < WORD
  {
    if h <= |stream| {
      var body := length(WithHeader(buffer, stream, h));
      assert h + body >= WORD ==> (body + h) % WORD == h + body - WORD;
    }
  }

  /** It happens: a callback that answers 2^64 - 4 to an eight-byte header leaves the buffer at eight bytes, and starts
      a read that puts the ninth byte of the stream behind them. */
  lemma OverrunHappens(buffer: seq<Byte>, stream: seq<Byte>, length: LengthCallback)
    requires |buffer| <= 8 && |stream| == 9 && forall b {:trigger length(b)} :: length(b) == WORD - 4
    ensures ReadFrame(buffer, stream, 8, length) == Overrun(stream[..8])
  {
    assert WithHeader(buffer, stream, 8) == stream[..8];
  }

  lemma FillFront(buffer: seq<Byte>, at: nat, bytes: seq<Byte>)
    requires at + |bytes| <= |buffer|
    ensures Fill(buffer, at, bytes)[..at + |bytes|] == buffer[..at] + bytes
  {
  }

  lemma CutInThree(stream: seq<Byte>, h: nat, body: nat)
    requires h + body <= |stream|
    ensures stream[..h] + stream[h..h + body] + stream[h + body..] == stream
  {
  }

  /** A frame that is read is the front of the stream, and nothing of the stream is lost or repeated. */
  lemma FrameIsFront(buffer: seq<Byte>, stream: seq<Byte>, h: Size, length: LengthCallback)
    requires ReadFrame(buffer, stream, h, length).Frame?
    ensures var t := ReadFrame(buffer, stream, h, length);
            && t.message + t.rest == stream && |t.message| >= h
            && |t.buffer| >= |buffer| && |t.buffer| >= |t.message|
  {
    var header := WithHeader(buffer, stream, h);
    var body := length(header);
    var grown := Grow(header, (body + h) % WORD);
    assert grown[..h] == header[..h] == stream[..h];
    FillFront(grown, h, stream[h..h + body]);
    var t := ReadFrame(buffer, stream, h, length);
    assert t.message == stream[..h] + stream[h..h + body] && t.rest == stream[h + body..];
    CutInThree(stream, h, body);
  }

  // ---- The loop ----

  /** `overrun`: the loop ended in a read past the end of the buffer. */
  datatype Outcome = Outcome(buffer: seq<Byte>, rest: seq<Byte>, messages: seq<seq<Byte>>, overrun: bool)

  /** One turn, from a buffer and a stream. */
  type Reader = (seq<Byte>, seq<Byte>) -> Turn

  function ReaderFor(h: Size, length: LengthCallback): Reader {
    (buffer, stream) => ReadFrame(buffer, stream, h, length)
  }

  /** At most `turns` frames; the loop stops early when a turn does not complete. */
  function ReadLoop(read: Reader, buffer: seq<Byte>, stream: seq<Byte>, turns: nat): Outcome
    decreases turns
  {
    if turns == 0 then Outcome(buffer, stream, [], false)
    else
      match read(buffer, stream)
      case Frame(buffer', rest, message) =>
        var later := ReadLoop(read, buffer', rest, turns - 1);
        later.(messages := [message] + later.messages)
      case Starved(buffer') => Outcome(buffer', stream, [], false)
      case Overrun(buffer') => Outcome(buffer', stream, [], true)
  }

  function Concat(messages: seq<seq<Byte>>): seq<Byte> {
    if messages == [] then [] else messages[0] + Concat(messages[1..])
  }

  lemma ConcatCons(message: seq<Byte>, later: seq<seq<Byte>>, rest: seq<Byte>)
    ensures Concat([message] + later) + rest == message + (Concat(later) + rest)
  {
    assert ([message] + later)[1..] == later;
  }

  /** A turn takes its message off the front of the stream, and the buffer does not shrink. */
  ghost predicate Faithful(read: Reader) {
    forall buffer, stream {:trigger read(buffer, stream)} ::
      var t := read(buffer, stream);
      |t.buffer| >= |buffer| && (t.Frame? ==> t.message + t.rest == stream)
  }

  lemma ReaderIsFaithful(h: Size, length: LengthCallback)
    ensures Faithful(ReaderFor(h, length))
  {
    forall buffer, stream
      ensures var t := ReadFrame(buffer, stream, h, length);
              |t.buffer| >= |buffer| && (t.Frame? ==> t.message + t.rest == stream)
    {
      if ReadFrame(buffer, stream, h, length).Frame? {
        FrameIsFront(buffer, stream, h, length);
      }
    }
  }

  lemma {:induction false} FaithfulLoop(read: Reader, buffer: seq<Byte>, stream: seq<Byte>, turns: nat)
    requires Faithful(read)
    ensures var o := ReadLoop(read, buffer, stream, turns);
            Concat(o.messages) + o.rest == stream && |o.buffer| >= |buffer|
    decreases turns
  {
    if turns > 0 {
      var t := read(buffer, stream);
      if t.Frame? {
        FaithfulLoop(read, t.buffer, t.rest, turns - 1);
        var later := ReadLoop(read, t.buffer, t.rest, turns - 1);
        ConcatCons(t.message, later.messages, later.rest);
      }
    }
  }

  /** Whatever the peer sends and whatever the buffer held: the messages delivered are the stream so far, cut up. */
  lemma NoByteLost(buffer: seq<Byte>, stream: seq<Byte>, turns: nat, h: Size, length: LengthCallback)
    ensures var o := ReadLoop(ReaderFor(h, length), buffer, stream, turns);
            Concat(o.messages) + o.rest == stream && |o.buffer| >= |buffer|
  {
    ReaderIsFaithful(h, length);
    FaithfulLoop(ReaderFor(h, length), buffer, stream, turns);
  }

  // ---- When no read leaves the buffer ----

  /** The callback never announces a body that does not fit in a size_t together with the header. */
  ghost predicate Announceable(h: Size, length: LengthCallback) {
    forall b {:trigger length(b)} :: h <= |b| < WORD ==> h + length(b) < WORD
  }

  /** From a buffer that fits in memory, no turn overruns it, and it still fits. */
  ghost predicate Contained(read: Reader) {
    forall buffer, stream {:trigger read(buffer, stream)} ::
      |buffer| < WORD ==> !read(buffer, stream).Overrun? && |read(buffer, stream).buffer| < WORD
  }

  lemma {:induction false} ContainedLoop(read: Reader, buffer: seq<Byte>, stream: seq<Byte>, turns: nat)
    requires |buffer| < WORD && Contained(read)
    ensures !ReadLoop(read, buffer, stream, turns).overrun
    decreases turns
  {
    if turns > 0 && read(buffer, stream).Frame? {
      ContainedLoop(read, read(buffer, stream).buffer, read(buffer, stream).rest, turns - 1);
    }
  }

  ghost predicate StaysInside(read: Reader) {
    forall buffer, stream, turns {:trigger ReadLoop(read, buffer, stream, turns)} ::
      |buffer| < WORD ==> !ReadLoop(read, buffer, stream, turns).overrun
  }

  /** For every stream, stale buffer and number of turns all read targets lie inside the buffer if and only if the
      callback never answers more than a size_t can hold on top of the header. */
  lemma StaysInsideExactly(h: Size, length: LengthCallback)
    ensures StaysInside(ReaderFor(h, length)) <==> Announceable(h, length)
  {
    var read := ReaderFor(h, length);
    if Announceable(h, length) {
      assert Contained(read) by {
        forall buffer, stream | |buffer| < WORD
          ensures var t := ReadFrame(buffer, stream, h, length); !t.Overrun? && |t.buffer| < WORD
        {
          OverrunExactly(buffer, stream, h, length);
        }
      }
      forall buffer, stream, turns | |buffer| < WORD ensures !ReadLoop(read, buffer, stream, turns).overrun {
        ContainedLoop(read, buffer, stream, turns);
      }
    } else {
      var b :| h <= |b| < WORD && h + length(b) >= WORD;
      assert WithHeader(b, b[..h], h) == b;
      OverrunExactly(b, b[..h], h, length);
      assert read(b, b[..h]).Overrun?;
      assert ReadLoop(read, b, b[..h], 1).overrun;
    }
  }

  // ---- The reader inverts concatenation ----

  /** A message the sender may put on the wire: a header, and the body whose length the header announces. */
  ghost predicate WellFormed(m: seq<Byte>, h: Size, length: LengthCallback) {
    h <= |m| < WORD && length(m) == |m| - h
  }

  lemma ReadsTheFront(buffer: seq<Byte>, m: seq<Byte>, rest: seq<Byte>, h: Size, length: LengthCallback)
    requires LooksAtHeader(length, h) && WellFormed(m, h, length)
    ensures var t := ReadFrame(buffer, m + rest, h, length);
            t.Frame? && t.message == m && t.rest == rest && (|buffer| < WORD ==> |t.buffer| < WORD)
  {
    var stream := m + rest;
    var header := WithHeader(buffer, stream, h);
    assert header[..h] == stream[..h] == m[..h];
    assert length(header) == length(m);
    assert stream[h + (|m| - h)..] == rest;
    FrameIsFront(buffer, stream, h, length);
    var t := ReadFrame(buffer, stream, h, length);
    assert |t.message| == |m|;
    assert t.message == stream[..|m|];
  }

  /** What is left after well-formed messages starts with a header that announces too much. */
  ghost predicate Poisoned(tail: seq<Byte>, h: Size, length: LengthCallback) {
    |tail| >= h && h + length(tail) >= WORD
  }

  /** The loop inverts concatenation: of any sequence of well-formed messages it delivers exactly those, in order, and
      leaves exactly what follows them, whatever stale bytes the buffer holds. One more turn leaves the buffer if and
      only if what follows starts with a header that announces too much. */
  lemma {:induction false} ReaderInvertsConcatenation(
      buffer: seq<Byte>, messages: seq<seq<Byte>>, tail: seq<Byte>, h: Size, length: LengthCallback)
    requires LooksAtHeader(length, h) && |buffer| < WORD
    requires forall m :: m in messages ==> WellFormed(m, h, length)
    ensures var o := ReadLoop(ReaderFor(h, length), buffer, Concat(messages) + tail, |messages|);
            o.messages == messages && o.rest == tail && !o.overrun
    ensures ReadLoop(ReaderFor(h, length), buffer, Concat(messages) + tail, |messages| + 1).overrun
            <==> Poisoned(tail, h, length)
    decreases |messages|
  {
    if messages == [] {
      assert Concat(messages) + tail == tail;
      OverrunExactly(buffer, tail, h, length);
      if |tail| >= h {
        assert WithHeader(buffer, tail, h)[..h] == tail[..h];
        assert length(WithHeader(buffer, tail, h)) == length(tail);
      }
    } else {
      var rest := Concat(messages[1..]) + tail;
      assert Concat(messages) + tail == messages[0] + rest;
      ReadsTheFront(buffer, messages[0], rest, h, length);
      var t := ReadFrame(buffer, messages[0] + rest, h, length);
      ReaderInvertsConcatenation(t.buffer, messages[1..], tail, h, length);
    }
  }

  // ---- The object ----

  function Prepend(messages: seq<seq<Byte>>, o: Outcome): Outcome { o.(messages := messages + o.messages) }

  lemma LoopTurn(read: Reader, buffer: seq<Byte>, stream: seq<Byte>, left: nat, messages: seq<seq<Byte>>)
    requires left > 0
    ensures var t := read(buffer, stream);
            Prepend(messages, ReadLoop(read, buffer, stream, left))
            == if t.Frame? then Prepend(messages + [t.message], ReadLoop(read, t.buffer, t.rest, left - 1))
               else Outcome(t.buffer, stream, messages, t.Overrun?)
  {
    var t := read(buffer, stream);
    if t.Frame? {
      var later := ReadLoop(read, t.buffer, t.rest, left - 1).messages;
      assert messages + [t.message] + later == messages + ([t.message] + later);
    }
  }

  class HttpSession {
    const headerSize: Size
    const length: LengthCallback
    ghost const read: Reader
    var buffer: seq<Byte>
    var bufferSize: nat

    /** `read` is this session's way of reading a frame, whatever its buffer holds. */
    ghost predicate Reads() {
      forall b, s {:trigger ReadFrame(b, s, headerSize, length)} :: read(b, s) == ReadFrame(b, s, headerSize, length)
    }

    constructor (headerSizeIn: Size, lengthIn: LengthCallback)
      ensures Reads() && buffer == [] && bufferSize == 0
      ensures headerSize == headerSizeIn && length == lengthIn && read == ReaderFor(headerSizeIn, lengthIn)
    {
      headerSize, length, buffer, bufferSize := headerSizeIn, lengthIn, [], 0;
      read := ReaderFor(headerSizeIn, lengthIn);
    }

    method EnsureSize(size: nat)
      requires bufferSize == |buffer|
      modifies this
      ensures buffer == Grow(old(buffer), size) && bufferSize == |buffer|
    {
      if bufferSize < size {
        buffer := Grow(buffer, size);
        bufferSize := |buffer|;
      }
    }

    /** do_read, on_nonhttp_read_header and on_nonhttp_read_body for one frame. */
    method ReadOne(stream: seq<Byte>) returns (turn: Turn)
      requires Reads() && bufferSize == |buffer|
      modifies this
      ensures bufferSize == |buffer| && buffer == turn.buffer && turn == read(old(buffer), stream)
    {
      assert read(buffer, stream) == ReadFrame(buffer, stream, headerSize, length);
      EnsureSize(headerSize);
      if |stream| < headerSize {
        return Starved(buffer);
      }
      buffer := Fill(buffer, 0, stream[..headerSize]);
      var body := length(buffer);
      EnsureSize((body + headerSize) % WORD);
      if |buffer| < headerSize + body {
        return Overrun(buffer);
      }
      if |stream| - headerSize < body {
        return Starved(buffer);
      }
      buffer := Fill(buffer, headerSize, stream[headerSize..headerSize + body]);
      return Frame(buffer, stream[headerSize + body..], buffer[..headerSize + body]);
    }

    /** As many turns of the loop as completions arrive. */
    method ReadAll(stream: seq<Byte>, turns: nat)
      returns (rest: seq<Byte>, messages: seq<seq<Byte>>, overrun: bool)
      requires Reads() && bufferSize == |buffer|
      modifies this
      ensures bufferSize == |buffer|
      ensures Outcome(buffer, rest, messages, overrun) == ReadLoop(read, old(buffer), stream, turns)
    {
      ghost var goal := ReadLoop(read, buffer, stream, turns);
      rest, messages, overrun := stream, [], false;
      var left := turns;
      while left > 0
        invariant bufferSize == |buffer| && !overrun
        invariant goal == Prepend(messages, ReadLoop(read, buffer, rest, left))
        decreases left
      {
        LoopTurn(read, buffer, rest, left, messages);
        var turn := ReadOne(rest);
        if !turn.Frame? {
          overrun := turn.Overrun?;
          return;
        }
        messages, rest, left := messages + [turn.message], turn.rest, left - 1;
      }
    }
  }
}
