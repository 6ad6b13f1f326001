/** The newer response serialiser: a context that owns a response buffer
    and two hooks supplied by the concrete connection, one that appends the
    default header lines and one that delivers the buffer. */
module Responses {
  import opened Http
  import opened Decimal
  import opened Wire
  import ContentTypes

  /** What a response type offers the serialiser. A sized body states its
      own length; an unsized one is printed into a scratch stream first and
      measured there. */
  datatype Body =
    | NoContent
    | Sized(contentType: ContentType, size: nat, printed: seq<char>)
    | Unsized(contentType: ContentType, printed: seq<char>)

  /** A response: its code, the text it writes after the code on the status
      line, and its body. */
  datatype Outgoing = Outgoing(code: int, headerLine: seq<char>, body: Body)

  /** The status line of the newer serialiser. */
  function SendStatus(r: Outgoing): (s: seq<char>)
    ensures 13 <= |s| && s[..9] == "HTTP/1.1 " && s[|s| - 3..] == " \r\n"
  {
    var s := "HTTP/1.1 " + IntText(r.code) + r.headerLine + " \r\n";
    assert s[..9] == "HTTP/1.1 " && s[|s| - 3..] == " \r\n";
    s
  }

  /** What one send appends to the buffer, given what the default-headers
      hook appends: the status line, the default headers, then either
      Content-Type, Content-Length, the blank line and the body, or just
      the blank line. */
  function SendText(r: Outgoing, defaults: seq<char>): (s: seq<char>)
    ensures StartsWith(s, SendStatus(r) + defaults)
    ensures !r.body.NoContent? ==> EndsWith(s, r.body.printed)
  {
    var head := SendStatus(r) + defaults;
    match r.body
    case NoContent =>
      assert (head + "\r\n")[..|head|] == head;
      head + "\r\n"
    case Sized(t, size, printed) =>
      FirstAndLast(head, TypeLine(t), LengthLine(size), [], printed);
      assert head + TypeLine(t) + LengthLine(size) + [] == head + TypeLine(t) + LengthLine(size);
      head + TypeLine(t) + LengthLine(size) + printed
    case Unsized(t, printed) =>
      FirstAndLast(head, TypeLine(t), LengthLine(|printed|), [], printed);
      assert head + TypeLine(t) + LengthLine(|printed|) + [] == head + TypeLine(t) + LengthLine(|printed|);
      head + TypeLine(t) + LengthLine(|printed|) + printed
  }

  class Context {
    /** The response buffer; a send appends to it and never clears it. */
    var buffer: seq<char>
    /** Whether the buffer's stream is in a failed state, in which every
        insertion is dropped. Inserting an empty stream buffer puts it there. */
    var failed: bool
    /** The text the default-headers hook appends. */
    const defaults: seq<char>
    /** The buffer as it stood at each call of the delivery hook. */
    var delivered: seq<seq<char>>

    constructor (defaultHeaders: seq<char>)
      ensures buffer == [] && !failed && delivered == [] && defaults == defaultHeaders
    {
      buffer := [];
      failed := false;
      defaults := defaultHeaders;
      delivered := [];
    }

    /** The default-headers hook, which inserts into the same stream. */
    method DefaultHeaders(ghost start: seq<char>, ghost written: seq<char>)
      requires buffer == if failed then start else start + written
      modifies this`buffer
      ensures buffer == if failed then start else start + (written + defaults)
    {
      Put(defaults, start, written);
    }

    /** The delivery hook. */
    method SendResponse()
      modifies this`delivered
      ensures delivered == old(delivered) + [buffer]
    {
      delivered := delivered + [buffer];
    }

    /** Serialises one response into the buffer, then delivers the buffer
        exactly once. A stream already failed takes nothing in; an unsized
        body that prints nothing leaves the stream failed for every later
        send. */
    method Send(r: Outgoing)
      modifies this`buffer, this`failed, this`delivered
      ensures buffer == old(buffer) + if old(failed) then [] else SendText(r, defaults)
      ensures failed == (old(failed) || (r.body.Unsized? && r.body.printed == []))
      ensures delivered == old(delivered) + [buffer]
    {
      ghost var start := buffer;
      assert start == start + [];
      PutHead(r, start);
      PutBody(r, start);
      SendResponse();
    }

    /** The status line and the default headers of one send. */
    method PutHead(r: Outgoing, ghost start: seq<char>)
      requires buffer == start
      modifies this`buffer
      ensures buffer == if failed then start else start + (SendStatus(r) + defaults)
    {
      var code := "HTTP/1.1 " + IntText(r.code);
      assert start == start + [];
      Put(code, start, []);
      assert [] + code == code;
      Put(r.headerLine, start, code);
      Put(" \r\n", start, code + r.headerLine);
      assert code + r.headerLine + " \r\n" == SendStatus(r);
      DefaultHeaders(start, SendStatus(r));
    }

    /** The content lines and the body of one send, after its head. */
    method PutBody(r: Outgoing, ghost start: seq<char>)
      requires buffer == if failed then start else start + (SendStatus(r) + defaults)
      modifies this`buffer, this`failed
      ensures failed == (old(failed) || (r.body.Unsized? && r.body.printed == []))
      ensures buffer == if old(failed) then start else start + SendText(r, defaults)
    {
      ghost var written := SendStatus(r) + defaults;
      match r.body {
        case NoContent =>
          Put("\r\n", start, written);
        case Sized(t, size, printed) =>
          Put(TypeLine(t), start, written);
          written := written + TypeLine(t);
          Put(LengthLine(size), start, written);
          written := written + LengthLine(size);
          Put(printed, start, written);
        case Unsized(t, printed) =>
          Put(TypeLine(t), start, written);
          written := written + TypeLine(t);
          var data := printed;
          Put(LengthLine(|data|), start, written);
          written := written + LengthLine(|data|);
          PutStream(data, start, written);
      }
    }

    /** One stream insertion into the buffer, which so far holds `start`
        followed by what this send has `written`, unless the stream has
        failed, in which case it still holds `start` and takes nothing. */
    method Put(piece: seq<char>, ghost start: seq<char>, ghost written: seq<char>)
      requires buffer == if failed then start else start + written
      modifies this`buffer
      ensures buffer == if failed then start else start + (written + piece)
    {
      if !failed {
        buffer := buffer + piece;
        AppendTwice(start, written, piece);
      }
    }

    /** The insertion of a whole stream buffer: as Put, except that a
        buffer with nothing in it inserts nothing and fails the stream. */
    method PutStream(data: seq<char>, ghost start: seq<char>, ghost written: seq<char>)
      requires buffer == if failed then start else start + written
      modifies this`buffer, this`failed
      ensures failed == (old(failed) || data == [])
      ensures buffer == if old(failed) then start else start + (written + data)
    {
      if data == [] {
        assert written + data == written;
        failed := true;
      } else {
        Put(data, start, written);
      }
    }
  }

  /** A send starts with "HTTP/1.1 ", the code in decimal (which a client
      reads back), the response's own header-line text, " \r\n" and then
      the default headers, before any Content-Type line. */
  lemma SendStartsWithStatus(r: Outgoing, defaults: seq<char>)
    ensures var digits := IntText(r.code);
      StartsWith(SendText(r, defaults), "HTTP/1.1 " + digits + r.headerLine + " \r\n" + defaults)
      && ParseInt(digits) == r.code
  {
    var head := SendStatus(r) + defaults;
    assert StartsWith(head, head);
    match r.body {
      case NoContent =>
        StartsWithAppend(head, head, "\r\n");
      case Sized(t, size, printed) =>
        StartsWithAppend(head, head, TypeLine(t));
        StartsWithAppend(head + TypeLine(t), head, LengthLine(size));
        StartsWithAppend(head + TypeLine(t) + LengthLine(size), head, printed);
      case Unsized(t, printed) =>
        StartsWithAppend(head, head, TypeLine(t));
        StartsWithAppend(head + TypeLine(t), head, LengthLine(|printed|));
        StartsWithAppend(head + TypeLine(t) + LengthLine(|printed|), head, printed);
    }
    IntTextRoundTrip(r.code);
  }

  /** An unsized body is framed by its exact printed length. */
  lemma UnsizedFramed(r: Outgoing, defaults: seq<char>)
    requires r.body.Unsized?
    ensures FramedBody(SendText(r, defaults), r.body.printed, |r.body.printed|)
  {
    FramedByNatText(SendStatus(r) + defaults + TypeLine(r.body.contentType), r.body.printed, |r.body.printed|);
  }

  /** A sized body is framed by the length the response states, whatever
      it prints. */
  lemma SizedFramed(r: Outgoing, defaults: seq<char>)
    requires r.body.Sized?
    ensures FramedBody(SendText(r, defaults), r.body.printed, r.body.size)
  {
    FramedByNatText(SendStatus(r) + defaults + TypeLine(r.body.contentType), r.body.printed, r.body.size);
  }

  /** Without a body the header block is closed by one "\r\n" right after
      the default headers, with no Content-Type or Content-Length line. */
  lemma NoContentClosesBlock(r: Outgoing, defaults: seq<char>)
    requires r.body.NoContent?
    ensures EndsWith(SendText(r, defaults), defaults + "\r\n")
    ensures |SendText(r, defaults)| == |SendStatus(r)| + |defaults| + 2
  {
    var text := SendText(r, defaults);
    AppendTwice(SendStatus(r), defaults, "\r\n");
    assert text[|text| - |defaults + "\r\n"|..] == defaults + "\r\n";
  }
}
