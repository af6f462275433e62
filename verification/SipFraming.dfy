/** Content-Length framing of SIP over a stream, section 7.5 of RFC 3261: messages leave whole,
    however the stream was sliced. A character stands for one byte. */
module SipFraming {
  import opened Prelude
  import opened Sockets
  import opened Splitting

  const LIMIT: nat := 65536
  const RECV: nat := 8192
  const END_OF_HEADER: string := "\r\n\r\n"

  /** buffer.lstrip(b"\r\n"): keep-alives between messages. */
  function SkipKeepAlives(s: string): string
  {
    if s != "" && (s[0] == '\r' || s[0] == '\n') then SkipKeepAlives(s[1..]) else s
  }

  datatype Head = Incomplete | Malformed | Message(size: nat)

  /** What stands at the head of a stream. `lengthOf` reads the one Content-Length of a header;
      None is a header with none, several, or one that is not a number. */
  function HeadOf(s: string, lengthOf: string -> Option<nat>): (head: Head)
    ensures head.Message? ==> 4 <= head.size <= |s| && head.size <= LIMIT
  {
    match Find(s, END_OF_HEADER)
    case None => Incomplete
    case Some(boundary) =>
      match lengthOf(s[..boundary])
      case None => Malformed
      case Some(length) =>
        var end := boundary + 4 + length;
        if end > LIMIT then Malformed else if |s| < end then Incomplete else Message(end)
  }

  /** pop_message. */
  function PopMessage(buffer: string, lengthOf: string -> Option<nat>): (head: Head)
    ensures head.Message? ==> 4 <= head.size <= |buffer| && head.size <= LIMIT
  {
    if |buffer| > LIMIT then Malformed else HeadOf(buffer, lengthOf)
  }

  /** More bytes never change a head that was already decided. */
  lemma HeadIsStable(s: string, more: string, lengthOf: string -> Option<nat>)
    requires !HeadOf(s, lengthOf).Incomplete?
    ensures HeadOf(s + more, lengthOf) == HeadOf(s, lengthOf)
  {
    FindInPrefix(s, more, END_OF_HEADER);
    var boundary := Find(s, END_OF_HEADER).value;
    assert (s + more)[..boundary] == s[..boundary];
  }

  /** While the head message is incomplete, less than its size has been received. */
  lemma IncompleteIsShort(s: string, more: string, lengthOf: string -> Option<nat>)
    requires HeadOf(s, lengthOf).Incomplete? && HeadOf(s + more, lengthOf).Message?
    ensures |s| < HeadOf(s + more, lengthOf).size
  {
    if Find(s, END_OF_HEADER).Some? {
      FindInPrefix(s, more, END_OF_HEADER);
      var boundary := Find(s, END_OF_HEADER).value;
      assert (s + more)[..boundary] == s[..boundary];
    } else {
      FindIsFirst(s, END_OF_HEADER);
      FindIsFirst(s + more, END_OF_HEADER);
      var boundary := Find(s + more, END_OF_HEADER).value;
      if boundary + 4 <= |s| {
        assert s[boundary..boundary + 4] == (s + more)[boundary..boundary + 4];
        assert At(s, END_OF_HEADER, boundary);
      }
    }
  }

  lemma {:induction false} SkipThenMore(s: string, more: string)
    ensures SkipKeepAlives(SkipKeepAlives(s) + more) == SkipKeepAlives(s + more)
    ensures SkipKeepAlives(s) != "" ==> SkipKeepAlives(s) + more == SkipKeepAlives(s + more)
    ensures |SkipKeepAlives(s)| <= |s|
  {
    if s == "" {
      assert s + more == more;
    } else if s[0] == '\r' || s[0] == '\n' {
      assert (s + more)[1..] == s[1..] + more;
      SkipThenMore(s[1..], more);
    }
  }

  datatype Received = Got(message: string) | Refused | ConnectionEnded

  /** A stream whose next message leaves room for one recv. */
  ghost predicate NextFitsWithRoom(stream: string, lengthOf: string -> Option<nat>)
  {
    var head := HeadOf(SkipKeepAlives(stream), lengthOf);
    head.Message? && head.size <= LIMIT - RECV
  }

  class Connection {
    var buffer: string
    const socket: Socket

    constructor (socket: Socket)
      ensures buffer == "" && this.socket == socket
    {
      buffer, this.socket := "", socket;
    }

    ghost function Stream(): string
      reads this, socket
    {
      buffer + socket.rest
    }

    /** SipTLS.receive: the next whole message of the stream, and the stream after it. */
    method Receive(lengthOf: string -> Option<nat>) returns (received: Received)
      requires |buffer| <= LIMIT
      modifies this, socket
      ensures received.Got? ==>
                var rest := SkipKeepAlives(old(Stream()));
                && HeadOf(rest, lengthOf) == Message(|received.message|)
                && rest == received.message + Stream() && |buffer| <= LIMIT
      ensures received.ConnectionEnded? ==> HeadOf(SkipKeepAlives(old(Stream())), lengthOf).Incomplete?
      ensures old(NextFitsWithRoom(Stream(), lengthOf)) ==> received.Got?
    {
      ghost var whole := SkipKeepAlives(Stream());
      while true
        invariant SkipKeepAlives(Stream()) == whole
        invariant old(NextFitsWithRoom(Stream(), lengthOf)) ==> |buffer| <= LIMIT
        decreases |socket.rest|
      {
        ghost var more := socket.rest;
        SkipThenMore(buffer, more);
        buffer := SkipKeepAlives(buffer);
        var head := PopMessage(buffer, lengthOf);
        match head {
          case Message(size) =>
            HeadIsStable(buffer, more, lengthOf);
            var message := buffer[..size];
            buffer := buffer[size..];
            assert whole == message + Stream();
            return Got(message);
          case Malformed =>
            if |buffer| <= LIMIT {
              HeadIsStable(buffer, more, lengthOf);
            }
            return Refused;
          case Incomplete =>
        }
        if buffer != "" && HeadOf(whole, lengthOf).Message? {
          IncompleteIsShort(buffer, more, lengthOf);
        }
        var data := socket.Recv(RECV);
        if data == "" {
          assert buffer + more == buffer;
          return ConnectionEnded;
        }
        assert buffer + more == buffer + data + socket.rest;
        buffer := buffer + data;
      }
    }
  }
}
