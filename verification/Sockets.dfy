/** A connected stream socket. A character stands for one byte. */
module Sockets {
  class Socket {
    /** What the peer will still send before it closes. */
    var rest: string

    constructor (rest: string)
      ensures this.rest == rest
    {
      this.rest := rest;
    }

    /** recv(limit): a slice of any size from 1 to `limit`, empty only at the end of the stream. */
    method Recv(limit: nat) returns (chunk: string)
      requires 0 < limit
      modifies this
      ensures chunk + rest == old(rest) && |chunk| <= limit
      ensures chunk == "" <==> old(rest) == ""
    {
      if rest == "" {
        return "";
      }
      var n :| 0 < n <= limit && n <= |rest|;
      chunk := rest[..n];
      rest := rest[n..];
    }
  }
}
