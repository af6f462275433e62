/** The AMI reader's framing: bytes arrive in slices of any size up to 4096, frames leave at each
    blank line. A character stands for one byte. */
module AmiFraming {
  import opened Prelude
  import opened Sockets
  import opened Splitting

  const MAX_FRAME: nat := 131072  // 128 * 1024
  const RECV: nat := 4096
  const END_OF_FRAME: string := "\r\n\r\n"

  datatype Ending = StreamClosed | Stopped | TooLarge | BadFrame(frame: string)

  function NonEmpty(frames: seq<string>): seq<string>
  {
    if frames == [] then [] else (if frames[0] != "" then [frames[0]] else []) + NonEmpty(frames[1..])
  }

  lemma {:induction false} NonEmptyConcat(a: seq<string>, b: seq<string>)
    ensures NonEmpty(a + b) == NonEmpty(a) + NonEmpty(b)
  {
    if a == [] {
      assert a + b == b;
    } else {
      assert (a + b)[1..] == a[1..] + b;
      NonEmptyConcat(a[1..], b);
    }
  }

  /** The frames of a stream: what a leftmost split at blank lines gives, empty ones dropped. */
  function Frames(stream: string): seq<string>
  {
    NonEmpty(Closed(stream, END_OF_FRAME))
  }

  /** Every frame with its terminator, and the unfinished rest, fits with room for one recv. */
  ghost predicate FitsWithRoom(stream: string)
  {
    && (forall f :: f in Closed(stream, END_OF_FRAME) ==> |f| + 4 <= MAX_FRAME - RECV)
    && |Open(stream, END_OF_FRAME)| <= MAX_FRAME - RECV
  }

  lemma FirstFrame(stream: string)
    requires Find(stream, END_OF_FRAME).Some?
    ensures var i := Find(stream, END_OF_FRAME).value;
            Frames(stream) == (if stream[..i] != "" then [stream[..i]] else []) + Frames(stream[i + 4..])
  {
    var i := Find(stream, END_OF_FRAME).value;
    var head, tail := [stream[..i]], Closed(stream[i + 4..], END_OF_FRAME);
    NonEmptyConcat(head, tail);
    assert head[1..] == [];
  }

  lemma FirstFrameFits(stream: string)
    requires Find(stream, END_OF_FRAME).Some? && FitsWithRoom(stream)
    ensures FitsWithRoom(stream[Find(stream, END_OF_FRAME).value + 4..])
  {
    var i := Find(stream, END_OF_FRAME).value;
    var tail := Closed(stream[i + 4..], END_OF_FRAME);
    assert Closed(stream, END_OF_FRAME) == [stream[..i]] + tail;
    forall f | f in tail ensures |f| + 4 <= MAX_FRAME - RECV {
      assert f in Closed(stream, END_OF_FRAME);
    }
  }

  /** A buffer without a terminator is a part of one frame, so it cannot be large. */
  lemma UnfinishedIsSmall(buffer: string, more: string)
    requires Find(buffer, END_OF_FRAME).None? && FitsWithRoom(buffer + more)
    ensures |buffer| <= MAX_FRAME - RECV
  {
    var stream := buffer + more;
    FindIsFirst(buffer, END_OF_FRAME);
    FindIsFirst(stream, END_OF_FRAME);
    match Find(stream, END_OF_FRAME)
    case None =>
    case Some(i) =>
      if i + 4 <= |buffer| {
        assert buffer[i..i + 4] == stream[i..i + 4];
        assert At(buffer, END_OF_FRAME, i);
      }
      assert Closed(stream, END_OF_FRAME)[0] == stream[..i];
  }

  /** What the read loop keeps: the frames still to come follow those already dispatched. */
  ghost predicate Remains(whole: string, frames: seq<string>, stream: string)
  {
    && Frames(whole) == frames + Frames(stream)
    && (FitsWithRoom(whole) ==> FitsWithRoom(stream))
  }

  lemma TakeFrame(whole: string, frames: seq<string>, stream: string)
    requires Find(stream, END_OF_FRAME).Some? && Remains(whole, frames, stream)
    ensures var i := Find(stream, END_OF_FRAME).value;
            Remains(whole, if stream[..i] != "" then frames + [stream[..i]] else frames, stream[i + 4..])
  {
    var i := Find(stream, END_OF_FRAME).value;
    var frame, rest := stream[..i], stream[i + 4..];
    FirstFrame(stream);
    if frame != "" {
      assert frames + ([frame] + Frames(rest)) == frames + [frame] + Frames(rest);
    } else {
      assert [] + Frames(rest) == Frames(rest);
    }
    if FitsWithRoom(whole) {
      FirstFrameFits(stream);
    }
  }

  lemma HeadOfStream(whole: string, frames: seq<string>, buffer: string, more: string)
    requires Find(buffer, END_OF_FRAME).Some? && Remains(whole, frames, buffer + more)
    ensures var i := Find(buffer, END_OF_FRAME).value;
            Remains(whole, if buffer[..i] != "" then frames + [buffer[..i]] else frames, buffer[i + 4..] + more)
  {
    var i, stream := Find(buffer, END_OF_FRAME).value, buffer + more;
    FindInPrefix(buffer, more, END_OF_FRAME);
    TakeFrame(whole, frames, stream);
    assert stream[..i] == buffer[..i] && stream[i + 4..] == buffer[i + 4..] + more;
  }

  lemma DispatchedComeFirst(whole: string, frames: seq<string>, stream: string)
    requires Remains(whole, frames, stream)
    ensures frames <= Frames(whole) && (Find(stream, END_OF_FRAME).None? ==> frames == Frames(whole))
  {
    assert Find(stream, END_OF_FRAME).None? ==> Frames(stream) == [];
  }

  /** The reader thread: its buffer and its socket. */
  class Reader {
    var buffer: string
    const socket: Socket

    constructor (buffer: string, socket: Socket)
      ensures this.buffer == buffer && this.socket == socket
    {
      this.buffer, this.socket := buffer, socket;
    }

    /** Everything that was received and not yet dispatched, and everything still to come. */
    ghost function Stream(): string
      reads this, socket
    {
      buffer + socket.rest
    }

    /** One recv: the buffer grows by a slice, or the stream is at its end. */
    method ReadMore() returns (received: bool)
      modifies this`buffer, socket
      ensures Stream() == old(Stream()) && |buffer| <= |old(buffer)| + RECV
      ensures if received then |socket.rest| < |old(socket.rest)| else buffer == old(buffer) && Stream() == buffer
    {
      ghost var stream := Stream();
      var chunk := socket.Recv(RECV);
      if chunk == "" {
        assert stream == buffer;
        return false;
      }
      buffer := buffer + chunk;
      assert Stream() == stream;
      return true;
    }

    /** The head of the buffer leaves it as a frame, if it is whole. */
    method TakeHead(ghost whole: string, ghost frames: seq<string>) returns (frame: Option<string>)
      requires Remains(whole, frames, Stream())
      modifies this`buffer
      ensures if frame.Some? then
                |buffer| < |old(buffer)|
                && Remains(whole, if frame.value != "" then frames + [frame.value] else frames, Stream())
              else
                buffer == old(buffer) && Find(buffer, END_OF_FRAME).None?
                  && (FitsWithRoom(whole) ==> |buffer| <= MAX_FRAME - RECV)
    {
      var found := Find(buffer, END_OF_FRAME);
      if found.Some? {
        HeadOfStream(whole, frames, buffer, socket.rest);
        frame := Some(buffer[..found.value]);
        buffer := buffer[found.value + 4..];
      } else {
        frame := None;
        if FitsWithRoom(whole) {
          UnfinishedIsSmall(buffer, socket.rest);
        }
      }
    }

    /** _read_loop. `running` says in which passes of the loop `_running` is still set, and `accepts` whether
        _dispatch_frame takes a frame as the i-th without an error, be it for its text or because the event queue
        is full at that time. */
    method ReadLoop(running: nat -> bool, accepts: (nat, string) -> bool) returns (frames: seq<string>, ending: Ending)
      modifies this, socket
      ensures forall i :: 0 <= i < |frames| ==> accepts(i, frames[i])
      ensures match ending
              case StreamClosed => frames == Frames(old(Stream()))
              case Stopped => frames <= Frames(old(Stream())) && exists pass :: !running(pass)
              case TooLarge => frames <= Frames(old(Stream())) && !old(FitsWithRoom(Stream()))
              case BadFrame(frame) => frames + [frame] <= Frames(old(Stream())) && !accepts(|frames|, frame)
    {
      ghost var whole := Stream();
      var pass := 0;
      frames := [];
      while running(pass)
        invariant Remains(whole, frames, Stream())
        invariant forall i :: 0 <= i < |frames| ==> accepts(i, frames[i])
        decreases |socket.rest|, |buffer|
      {
        pass := pass + 1;
        var frame := TakeHead(whole, frames);
        if frame.Some? {
          if frame.value != "" {
            if !accepts(|frames|, frame.value) {
              DispatchedComeFirst(whole, frames + [frame.value], Stream());
              return frames, BadFrame(frame.value);
            }
            frames := frames + [frame.value];
          }
          continue;
        }
        DispatchedComeFirst(whole, frames, Stream());
        if |buffer| >= MAX_FRAME {
          return frames, TooLarge;
        }
        var received := ReadMore();
        DispatchedComeFirst(whole, frames, Stream());
        if !received {
          return frames, StreamClosed;
        }
        if |buffer| > MAX_FRAME {
          return frames, TooLarge;
        }
      }
      DispatchedComeFirst(whole, frames, Stream());
      ending := Stopped;
    }
  }

  /** Receiving in two parts gives the frames of the whole: the second part continues the
      unfinished frame of the first. */
  lemma FramesContinue(first: string, second: string)
    ensures Frames(first + second) == Frames(first) + Frames(Open(first, END_OF_FRAME) + second)
  {
    SplitContinues(first, second, END_OF_FRAME);
    NonEmptyConcat(Closed(first, END_OF_FRAME), Closed(Open(first, END_OF_FRAME) + second, END_OF_FRAME));
  }
}
