/**
 * The benchmark's connection to one server: a persistent stream on which
 * each operation writes one request line and then reads one response line.
 * The socket is replaced by what it carries: the bytes the client has
 * written, and the bytes the server has sent that the client has not yet
 * read (all it will ever send; reading past them is the end of the stream).
 */
module TcpClient {
  import opened Text
  import opened Protocol

  /** The response line one round trip obtains, and the bytes left unread
      afterwards: none when the request cannot be written (nothing is read
      then), none at the end of the stream (which consumes what was left). */
  function Exchange(writable: bool, unread: string): (r: (Option<string>, string))
    ensures !writable ==> r == (None, unread)
    ensures writable && r.0.Some? ==> r.0.value + r.1 == unread
    ensures writable && r.0.None? ==> '\n' !in unread && r.1 == []
    ensures writable ==> (r.0.Some? <==> '\n' in unread)
    ensures writable && r.0.Some? ==> IsLine(r.0.value)
  {
    if !writable then (None, unread)
    else
      match ReadString(unread)
      case Line(line, rest) => (Some(line), rest)
      case Eof => (None, [])
  }

  /** A reply cut off before its newline is a read error: the write fails
      even when the bytes say "OK", and so does the read. */
  lemma UnterminatedReplyFails()
    ensures !PutSucceeded(Exchange(true, "OK").0)
    ensures GetOutcome(Exchange(true, "OK v").0) == ("", false)
  {
    assert '\n' !in "OK" && '\n' !in "OK v";
  }

  /** Whether a write succeeds, given the response line it obtained. */
  predicate PutSucceeded(reply: Option<string>)
  {
    reply.Some? && DecodePut(reply.value)
  }

  /** The value and the success of a read, given the response line it obtained. */
  function GetOutcome(reply: Option<string>): (r: (string, bool))
    ensures reply.None? ==> r == ("", false)
  {
    if reply.Some? then DecodeGet(reply.value) else ("", false)
  }

  class Client {
    /** Whether the connection accepts writes; when it does not, every
        request fails to be written. */
    const writable: bool
    /** Everything written to the connection so far. */
    var sent: string
    /** What the server has sent and the client has not read yet. */
    var unread: string

    constructor (writable: bool, incoming: string)
      ensures this.writable == writable && sent == [] && unread == incoming
    {
      this.writable := writable;
      sent := [];
      unread := incoming;
    }

    /** Writes `SET key value` and reads one response line: true iff it is
        the write acknowledgement. On a write error nothing is written and
        nothing read; on a read error the rest of the stream is consumed. */
    method Put(key: string, value: string) returns (ok: bool)
      modifies this
      ensures sent == old(sent) + (if writable then EncodeSet(key, value) else [])
      ensures unread == Exchange(writable, old(unread)).1
      ensures ok == PutSucceeded(Exchange(writable, old(unread)).0)
    {
      if !writable {
        return false;
      }
      sent := sent + EncodeSet(key, value);
      var r := ReadString(unread);
      if r.Eof? {
        unread := [];
        return false;
      }
      unread := r.rest;
      ok := DecodePut(r.line);
    }

    /** Writes `GET key` and reads one response line: a hit with its value,
        or ("", false) on a miss, a malformed line or an I/O error. */
    method Get(key: string) returns (value: string, ok: bool)
      modifies this
      ensures sent == old(sent) + (if writable then EncodeGet(key) else [])
      ensures unread == Exchange(writable, old(unread)).1
      ensures (value, ok) == GetOutcome(Exchange(writable, old(unread)).0)
    {
      if !writable {
        return "", false;
      }
      sent := sent + EncodeGet(key);
      var r := ReadString(unread);
      if r.Eof? {
        unread := [];
        return "", false;
      }
      unread := r.rest;
      var decoded := DecodeGet(r.line);
      value, ok := decoded.0, decoded.1;
    }
  }
}
