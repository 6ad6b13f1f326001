/** The per-connection engine: a fixed arena the client's bytes are read
    into, a cursor `it` over the buffered part `buf[..end]`, and the
    keep-alive deadline. Every reading method is proved to return what the
    matching Wire function computes over the whole stream, so the outcome
    does not depend on how the transport cut the stream into reads. */
module Protocol {
  import opened Outcomes
  import opened Http
  import opened Wire
  import Utilities
  import Decimal

  /** The socket as the engine sees it: chunks that have arrived and not
      been read (each one separate delivery), whether it is open, and the
      bytes written to it so far. */
  class Transport {
    var pending: seq<seq<char>>
    var open: bool
    var sent: seq<char>

    ghost predicate Valid()
      reads this
    {
      forall i :: 0 <= i < |pending| ==> pending[i] != []
    }

    constructor (chunks: seq<seq<char>>, isOpen: bool)
      requires forall i :: 0 <= i < |chunks| ==> chunks[i] != []
      ensures Valid() && pending == chunks && open == isOpen && sent == []
    {
      pending, open, sent := chunks, isOpen, [];
    }

    /** The number of bytes a read can return at once: those of the first
        delivery that has arrived. */
    function Available(): (n: nat)
      reads this
      ensures Valid() ==> (n == 0 <==> pending == [])
    {
      if pending == [] then 0 else |pending[0]|
    }

    /** One read of at most `room` bytes; it takes them from the first
        delivery only, so nothing is lost and nothing is reordered. */
    method Receive(room: nat) returns (data: seq<char>)
      requires Valid() && pending != []
      modifies this`pending
      ensures Valid()
      ensures data == old(pending[0])[..Min(|old(pending[0])|, room)]
      ensures Flatten(old(pending)) == data + Flatten(pending)
    {
      var chunk := pending[0];
      var n := Min(|chunk|, room);
      data := chunk[..n];
      if n == |chunk| {
        pending := pending[1..];
      } else {
        var rest := pending[1..];
        pending := [chunk[n..]] + rest;
        assert pending[1..] == rest;
        assert chunk == data + chunk[n..];
      }
    }

    /** A whole-buffer write. */
    method Write(data: seq<char>)
      modifies this`sent
      ensures sent == old(sent) + data
    {
      sent := sent + data;
    }
  }

  class HttpProtocol {
    var buf: array<char>
    var it: nat
    var end: nat
    var bytesLeft: nat
    var deadline: int
    const connection: Transport
    /** The client's stream from the start of the arena: what is buffered,
        then what has arrived and not been read. No read changes it. */
    ghost var stream: seq<char>

    ghost predicate Valid()
      reads this`buf, this`end, this`bytesLeft, this`stream, buf, connection
    {
      end <= buf.Length && end + bytesLeft == buf.Length && connection.Valid()
      && end <= |stream|
      && (forall k {:trigger buf[k]} :: 0 <= k < end ==> buf[k] == stream[k])
      && stream[end..] == Flatten(connection.pending)
    }

    /** The engine is valid and `inp` is what its arena can ever see of the
        stream at time inp.now. The reading methods take this view as a
        ghost parameter and state their results over it. */
    ghost predicate Sees(inp: Input)
      reads this`buf, this`end, this`bytesLeft, this`stream, buf, connection
    {
      Valid() && inp == InputOf(stream, buf.Length, connection.open, inp.now)
    }

    /** The buffered bytes are the front of the window. */
    lemma BufferedIsWindow(inp: Input)
      requires Sees(inp)
      ensures end <= |inp.window| && buf[..end] == inp.window[..end]
    {
      assert forall k :: 0 <= k < end ==> buf[..end][k] == buf[k];
    }

    /** A buffered byte is the window's byte at the same position. */
    lemma BufferedByte(inp: Input, k: nat)
      requires Sees(inp) && k < end
      ensures end <= |inp.window| && buf[k] == inp.window[k]
    {
      BufferedIsWindow(inp);
      assert buf[k] == buf[..end][k];
    }

    /** A buffered slice is the window's slice at the same positions. */
    lemma BufferedSlice(inp: Input, from: nat, to: nat)
      requires Sees(inp) && from <= to <= end
      ensures end <= |inp.window| && buf[from..to] == inp.window[from..to]
    {
      BufferedIsWindow(inp);
      forall k | 0 <= k < to - from
        ensures buf[from..to][k] == inp.window[from..to][k]
      {
        assert buf[from + k] == buf[..end][from + k];
      }
    }

    /** With nothing pending the window is exactly the buffered bytes. */
    lemma DryWindow(inp: Input)
      requires Sees(inp) && connection.pending == []
      ensures inp.window == buf[..end] && !inp.overflow
    {
      assert |stream| == end;
      BufferedIsWindow(inp);
    }

    /** A full arena with bytes still pending has overflowed, and its
        window is the arena. */
    lemma FullWindow(inp: Input)
      requires Sees(inp) && connection.pending != [] && bytesLeft == 0
      ensures inp.overflow && |inp.window| == end
    {
      assert |stream[end..]| >= |connection.pending[0]| > 0;
    }

    /** Scanning the buffered bytes is scanning the window, up to the end
        of what is buffered. */
    lemma ScanBuffered(inp: Input, i: nat, matches: set<char>)
      requires Sees(inp) && i <= end
      ensures end <= |inp.window|
      ensures var k := Scan(buf[..end], i, matches);
        (k < end ==> Scan(inp.window, i, matches) == k)
        && (k == end ==> Scan(inp.window, i, matches) == Scan(inp.window, end, matches))
    {
      BufferedIsWindow(inp);
      ScanPrefix(inp.window, buf[..end], i, matches);
    }

    /** A connection starts with an empty arena and a deadline thirty
        seconds after it is accepted. */
    constructor (transport: Transport, now: int)
      requires transport.Valid()
      ensures Valid() && connection == transport && buf.Length == 0
      ensures stream == Flatten(transport.pending)
      ensures deadline == now + KeepaliveTimeout
    {
      connection := transport;
      buf := new char[0];
      it, end, bytesLeft := 0, 0, 0;
      deadline := now + KeepaliveTimeout;
      stream := Flatten(transport.pending);
    }

    /** Points the engine at a fresh arena: nothing buffered, all of it free. */
    method SetBuffer(arena: array<char>)
      requires connection.Valid()
      modifies this`buf, this`it, this`end, this`bytesLeft, this`stream
      ensures Valid() && buf == arena && it == 0 && end == 0 && bytesLeft == arena.Length
      ensures stream == Flatten(connection.pending)
    {
      buf := arena;
      it, end, bytesLeft := 0, 0, arena.Length;
      stream := Flatten(connection.pending);
    }

    /** One read into the free part of the arena. With nothing pending the
        poll loop either throws (deadline passed or transport closed) or
        would keep polling: no byte ever arrives here, so a finite deadline
        ends in a timeout and the sentinel never ends. A full arena reads
        zero bytes. */
    method Receive(now: int) returns (r: Result<nat>)
      requires Valid()
      modifies this`end, this`bytesLeft, buf, connection`pending
      ensures Valid() && old(end) <= end
      ensures old(connection.pending) == [] ==>
        r == Err(IdleFault(connection.open, deadline, now)) && end == old(end)
      ensures old(connection.pending) != [] ==>
        r == Ok(end - old(end)) && end - old(end) == Min(|old(connection.pending[0])|, old(bytesLeft))
    {
      if connection.Available() == 0 {
        if deadline < now || !connection.open {
          return Err(Timeout);
        }
        return Err(if deadline == TimeMax then Hang else Timeout);
      }
      var data := connection.Receive(bytesLeft);
      forall k | 0 <= k < |data| {
        buf[end + k] := data[k];
      }
      assert stream[end..] == data + Flatten(connection.pending);
      forall k | end <= k < end + |data| ensures buf[k] == stream[k] {
        assert stream[k] == stream[end..][k - end];
      }
      assert stream[end + |data|..] == stream[end..][|data|..];
      end := end + |data|;
      bytesLeft := bytesLeft - |data|;
      r := Ok(|data|);
    }

    /** The step every waiting loop repeats: one read that adds bytes.
        A read into a full arena adds none, and the loop around it would
        spin forever; that ends here as ArenaFull. Either way a failed step
        means the window is used up. */
    method ReceiveMore(now: int, ghost inp: Input) returns (r: Result<()>)
      requires Sees(inp) && it <= end && inp.now == now
      modifies this`end, this`bytesLeft, buf, connection`pending
      ensures Sees(inp) && it <= end && old(end) <= end
      ensures r.Ok? ==> old(end) < end
      ensures r.Err? ==> old(end) == end == |inp.window| && r.fault == Exhausted(inp, deadline)
    {
      ghost var dry := connection.pending == [];
      ghost var full := bytesLeft == 0;
      if dry { DryWindow(inp); } else if full { FullWindow(inp); }
      var got := Receive(now);
      if got.Err? {
        return Err(got.fault);
      }
      if got.value == 0 {
        return Err(ArenaFull);
      }
      r := Ok(());
    }

    /** Reads until `count` bytes lie at or after the cursor. */
    method WaitForCount(count: nat, now: int, ghost inp: Input) returns (r: Result<()>)
      requires Sees(inp) && it <= end && inp.now == now
      modifies this`end, this`bytesLeft, buf, connection`pending
      ensures Sees(inp) && it <= end && old(end) <= end
      ensures r == (if it + count <= |inp.window| then Ok(()) else Err(Exhausted(inp, deadline)))
      ensures r.Ok? ==> it + count <= end
    {
      BufferedIsWindow(inp);
      while end - it < count
        invariant Sees(inp) && it <= end && old(end) <= end <= |inp.window|
        decreases bytesLeft
      {
        r := ReceiveMore(now, inp);
        if r.Err? {
          return;
        }
      }
      return Ok(());
    }

    /** The library search over the buffered bytes from `i`: where it
        stops short of the end of the buffer, the window's scan stops too;
        where it reaches the end, the window's scan goes on from there. */
    method ScanFrom(i: nat, matches: set<char>, ghost inp: Input) returns (k: nat)
      requires Sees(inp) && i <= end
      ensures i <= k <= end <= |inp.window|
      ensures k < end ==> Scan(inp.window, i, matches) == k
      ensures k == end ==> Scan(inp.window, i, matches) == Scan(inp.window, end, matches)
    {
      ScanBuffered(inp, i, matches);
      k := Scan(buf[..end], i, matches);
    }

    /** Advances the cursor to the first byte in `matches`, reading more
        while it reaches the end of what is buffered. */
    method FindFirstOf(matches: set<char>, now: int, ghost inp: Input) returns (r: Result<()>)
      requires Sees(inp) && it <= end && inp.now == now
      modifies this`it, this`end, this`bytesLeft, buf, connection`pending
      ensures Sees(inp) && it <= end && old(end) <= end
      ensures var k := Scan(inp.window, old(it), matches);
        if k < |inp.window| then r == Ok(()) && it == k
        else r == Err(Exhausted(inp, deadline))
      ensures r.Ok? ==> it < end
    {
      var i := ScanFrom(it, matches, inp);
      while i == end
        invariant Sees(inp) && it <= end
        invariant old(it) <= i <= end <= |inp.window|
        invariant Scan(inp.window, old(it), matches) == Scan(inp.window, i, matches)
        invariant i < end ==> Scan(inp.window, i, matches) == i
        decreases bytesLeft
      {
        r := ReceiveMore(now, inp);
        if r.Err? {
          it := i;
          return;
        }
        i := ScanFrom(i, matches, inp);
      }
      it := i;
      return Ok(());
    }

    /** Advances the cursor to the first occurrence of `target`. */
    method Find(target: char, now: int, ghost inp: Input) returns (r: Result<()>)
      requires Sees(inp) && it <= end && inp.now == now
      modifies this`it, this`end, this`bytesLeft, buf, connection`pending
      ensures Sees(inp) && it <= end
      ensures var k := Scan(inp.window, old(it), {target});
        if k < |inp.window| then r == Ok(()) && it == k && inp.window[it] == target
        else r == Err(Exhausted(inp, deadline))
    {
      r := FindFirstOf({target}, now, inp);
    }

    /** Moves the cursor over bytes already buffered. */
    method Advance(count: nat, ghost inp: Input)
      requires Sees(inp) && it + count <= end
      modifies this`it
      ensures Sees(inp) && it <= end && it == old(it) + count
    {
      it := it + count;
    }

    /** Waits for `count` bytes at the cursor and steps over them. The
        engine's own header skips step without waiting (see the Findings
        of this model); this is the skip the rest of the model uses. */
    method SkipBuffered(count: nat, now: int, ghost inp: Input) returns (r: Result<()>)
      requires Sees(inp) && it <= end && inp.now == now
      modifies this`it, this`end, this`bytesLeft, buf, connection`pending
      ensures Sees(inp) && it <= end
      ensures if old(it) + count <= |inp.window| then r == Ok(()) && it == old(it) + count
        else r == Err(Exhausted(inp, deadline))
    {
      r := WaitForCount(count, now, inp);
      if r.Ok? {
        Advance(count, inp);
      }
    }

    /** Parses a request line at the cursor, agreeing with RequestLine:
        eight bytes are awaited, then the method, target and version are
        read from them and the bytes after. */
    method ParseRequest(now: int, ghost inp: Input) returns (r: Result<Request>)
      requires Sees(inp) && it <= end && inp.now == now
      modifies this`it, this`end, this`bytesLeft, buf, connection`pending
      ensures Sees(inp) && it <= end
      ensures LineAgrees(r, it, RequestLine(inp, deadline, old(it)))
    {
      var waited := WaitForCount(8, now, inp);
      if waited.Err? {
        return Err(waited.fault);
      }
      r := ParseMethod(now, inp);
    }

    /** The request line once eight bytes are buffered: the method is
        classified from the first two bytes, and the target and version
        follow. */
    method ParseMethod(now: int, ghost inp: Input) returns (r: Result<Request>)
      requires Sees(inp) && inp.now == now && it + 8 <= end
      modifies this`it, this`end, this`bytesLeft, buf, connection`pending
      ensures Sees(inp) && it <= end
      ensures LineAgrees(r, it, RequestLine(inp, deadline, old(it)))
    {
      BufferedByte(inp, it);
      BufferedByte(inp, it + 1);
      var classified := Utilities.GetType(buf[it], buf[it + 1]);
      if classified.Err? {
        return Err(classified.fault);
      }
      ghost var spec := RequestLine(inp, deadline, it);
      LineFromTarget(inp, deadline, it, classified.value);
      Advance(classified.value.advance, inp);
      r := ParseTarget(classified.value.kind, now, inp, spec);
    }

    /** The request target after the method, agreeing with RequestTarget:
        the path runs to the first '?' or ' '. After a '?' the scan for the
        end of the query is created but never awaited, so the query is
        empty and the cursor stays right after the '?'. */
    method ParseTarget(kind: RequestType, now: int, ghost inp: Input, ghost spec: Result<Line>) returns (r: Result<Request>)
      requires Sees(inp) && it <= end && inp.now == now
      requires spec == RequestTarget(inp, deadline, kind, it)
      modifies this`it, this`end, this`bytesLeft, buf, connection`pending
      ensures Sees(inp) && it <= end
      ensures LineAgrees(r, it, spec)
    {
      BufferedIsWindow(inp);
      var start := it;
      var found := FindFirstOf({'?', ' '}, now, inp);
      if found.Err? {
        return Err(found.fault);
      }
      r := SplitTarget(kind, start, now, inp, spec);
    }

    /** The rest of the target once the cursor stands on the '?' or ' '
        that ends its path: the version check at a ' ', or right after a
        '?' with an empty query, since the query scan is never awaited. */
    method SplitTarget(kind: RequestType, start: nat, now: int, ghost inp: Input, ghost spec: Result<Line>) returns (r: Result<Request>)
      requires Sees(inp) && start <= it < end && inp.now == now
      requires it == Scan(inp.window, start, {'?', ' '})
      requires spec == RequestTarget(inp, deadline, kind, start)
      modifies this`it, this`end, this`bytesLeft, buf, connection`pending
      ensures Sees(inp) && it <= end
      ensures LineAgrees(r, it, spec)
    {
      BufferedSlice(inp, start, it);
      BufferedByte(inp, it);
      var url := buf[start..it];
      ghost var rest := TargetEnd(inp, deadline, kind, start, it);
      if buf[it] == ' ' {
        r := CheckVersion(Request(kind, url, []), now, inp, rest);
      } else {
        Advance(1, inp);
        r := CheckVersion(Request(kind, url, []), now, inp, rest);
      }
    }

    /** Corrected: the query from the cursor to the next ' ', then the
        version check there, agreeing with RequestQuery; this is what the
        awaited scan would do, and the engine's SplitTarget does not call it. */
    method ReadQuery(kind: RequestType, path: seq<char>, now: int, ghost inp: Input, ghost spec: Result<Line>) returns (r: Result<Request>)
      requires Sees(inp) && it <= end && inp.now == now
      requires spec == RequestQuery(inp, deadline, kind, path, it)
      modifies this`it, this`end, this`bytesLeft, buf, connection`pending
      ensures Sees(inp) && it <= end
      ensures LineAgrees(r, it, spec)
    {
      var from := it;
      var found := Find(' ', now, inp);
      if found.Err? {
        return Err(found.fault);
      }
      BufferedSlice(inp, from, it);
      var param := buf[from..it];
      r := CheckVersion(Request(kind, path, param), now, inp, RequestVersion(inp, deadline, Request(kind, path, param), it));
    }

    /** The version check that ends a request line, agreeing with
        RequestVersion: " HTTP/1.1\r\n" must follow at the cursor. */
    method CheckVersion(request: Request, now: int, ghost inp: Input, ghost spec: Result<Line>) returns (r: Result<Request>)
      requires Sees(inp) && it <= end && inp.now == now
      requires spec == RequestVersion(inp, deadline, request, it)
      modifies this`it, this`end, this`bytesLeft, buf, connection`pending
      ensures Sees(inp) && it <= end
      ensures LineAgrees(r, it, spec)
    {
      var waited := WaitForCount(|Handshake|, now, inp);
      if waited.Err? {
        return Err(waited.fault);
      }
      BufferedSlice(inp, it, it + |Handshake|);
      if buf[it..it + |Handshake|] != Handshake {
        return Err(WrongHttpVersion);
      }
      Advance(|Handshake|, inp);
      r := Ok(request);
    }

    /** Reads a header value at the cursor, agreeing with HeaderValue. */
    method ReceiveHeaderValue(now: int, ghost inp: Input) returns (r: Result<seq<char>>)
      requires Sees(inp) && it <= end && inp.now == now
      modifies this`it, this`end, this`bytesLeft, buf, connection`pending
      ensures Sees(inp) && it <= end
      ensures var spec := HeaderValue(inp, deadline, old(it));
        (r.Ok? <==> spec.Ok?)
        && (spec.Ok? ==> r.value == spec.value.text && it == spec.value.next)
        && (spec.Err? ==> r.fault == spec.fault)
    {
      var start := it;
      var found := FindFirstOf({'\r', '\n'}, now, inp);
      if found.Err? {
        return Err(found.fault);
      }
      BufferedSlice(inp, start, it);
      BufferedByte(inp, it);
      var value := buf[start..it];
      var skipped := SkipBuffered(if buf[it] == '\r' then 2 else 1, now, inp);
      if skipped.Err? {
        return Err(skipped.fault);
      }
      r := Ok(value);
    }

    /** Reads one header line, agreeing with HeaderLine: `true` when the
        line ended the block. */
    method ReceiveHeader(now: int, ghost inp: Input) returns (r: Result<bool>)
      requires Sees(inp) && it <= end && inp.now == now
      modifies this`it, this`end, this`bytesLeft, this`deadline, buf, connection`pending
      ensures Sees(inp) && it <= end + 1 && (r.Err? || !r.value ==> it <= end)
      ensures StepAgrees(r, it, deadline, HeaderLine(inp, old(deadline), old(it)))
      ensures r.Err? ==> deadline == old(deadline)
    {
      var keyStart := it;
      var found := FindFirstOf({':', '\r', '\n'}, now, inp);
      if found.Err? {
        return Err(found.fault);
      }
      r := HeaderAfterKey(keyStart, now, inp);
    }

    /** The rest of a header line once the cursor stands on the ':', '\r'
        or '\n' that ends its key, agreeing with HeaderLine. A line end
        ends the block: the cursor steps over it without waiting for its
        bytes, so it may stop one past the buffered ones. */
    method HeaderAfterKey(keyStart: nat, now: int, ghost inp: Input) returns (r: Result<bool>)
      requires Sees(inp) && keyStart <= it < end && inp.now == now
      requires it == Scan(inp.window, keyStart, {':', '\r', '\n'})
      modifies this`it, this`end, this`bytesLeft, this`deadline, buf, connection`pending
      ensures Sees(inp) && it <= end + 1 && (r.Err? || !r.value ==> it <= end)
      ensures StepAgrees(r, it, deadline, HeaderLine(inp, old(deadline), keyStart))
      ensures r.Err? ==> deadline == old(deadline)
    {
      BufferedSlice(inp, keyStart, it);
      BufferedByte(inp, it);
      HeaderLineAt(inp, deadline, keyStart, it);
      var key := buf[keyStart..it];
      if buf[it] == ':' {
        r := ReceiveKeyed(key, now, inp);
      } else {
        it := it + if buf[it] == '\r' then 2 else 1;
        r := Ok(true);
      }
    }

    /** Steps over the ": " at the cursor and reads the field after it. */
    method ReceiveKeyed(key: seq<char>, now: int, ghost inp: Input) returns (r: Result<bool>)
      requires Sees(inp) && it <= end && inp.now == now
      modifies this`it, this`end, this`bytesLeft, this`deadline, buf, connection`pending
      ensures Sees(inp) && it <= end
      ensures StepAgrees(r, it, deadline,
        if |inp.window| < old(it) + 2 then Err(Exhausted(inp, old(deadline)))
        else HeaderField(inp, old(deadline), key, old(it) + 2))
      ensures r.Err? ==> deadline == old(deadline)
    {
      var skipped := SkipBuffered(2, now, inp);
      if skipped.Err? {
        return Err(skipped.fault);
      }
      r := ReceiveField(key, now, inp);
    }

    /** Reads the field after "<key>: ", agreeing with HeaderField. */
    method ReceiveField(key: seq<char>, now: int, ghost inp: Input) returns (r: Result<bool>)
      requires Sees(inp) && it <= end && inp.now == now
      modifies this`it, this`end, this`bytesLeft, this`deadline, buf, connection`pending
      ensures Sees(inp) && it <= end
      ensures old(it) <= |inp.window| ==> StepAgrees(r, it, deadline, HeaderField(inp, old(deadline), key, old(it)))
      ensures r.Err? ==> deadline == old(deadline)
    {
      if key == "Connection" {
        var value := ReceiveHeaderValue(now, inp);
        if value.Err? {
          return Err(value.fault);
        }
        if value.value == "close" {
          deadline := TimeMax;
        } else {
          deadline := now + KeepaliveTimeout;
        }
      }
      r := Ok(false);
    }

    /** Reads the header block, agreeing with Headers: the cursor ends past
        the line end that closes it and the deadline is what the Connection
        headers left, also when the block is cut short. */
    method ReceiveHeaders(now: int, ghost inp: Input) returns (r: Result<()>)
      requires Sees(inp) && it <= end && inp.now == now
      modifies this`it, this`end, this`bytesLeft, this`deadline, buf, connection`pending
      ensures Sees(inp) && it <= end + 1
      ensures var spec := Headers(inp, old(deadline), old(it));
        (r.Ok? <==> spec.Ok?)
        && (spec.Ok? ==> it == spec.value.next && deadline == spec.value.deadline)
        && (spec.Err? ==> r.fault == spec.fault)
      ensures deadline == HeadersDeadline(inp, old(deadline), old(it))
    {
      BufferedIsWindow(inp);
      while true
        invariant Sees(inp) && it <= end && it <= |inp.window|
        invariant Headers(inp, deadline, it) == Headers(inp, old(deadline), old(it))
        invariant HeadersDeadline(inp, deadline, it) == HeadersDeadline(inp, old(deadline), old(it))
        decreases |inp.window| - it
      {
        var step := ReceiveHeader(now, inp);
        if step.Err? {
          return Err(step.fault);
        }
        if step.value {
          return Ok(());
        }
      }
    }

    /** Writes one response and reports it on the transport. */
    method WriteResponse(response: Response, date: UtcTime, version: seq<char>)
      requires date.Valid()
      modifies connection`sent
      ensures connection.sent == old(connection.sent) + ResponseText(response, deadline, date, version)
    {
      var head := StatusLine(response.code) + ServerLine(version) + DateLine(date);
      var lines: seq<char>;
      if deadline < TimeMax {
        lines := "Connection: keep-alive\r\n" + "Keep-Alive: timeout=" + Decimal.IntText(KeepaliveTimeout) + ", max=1000\r\n";
      } else {
        lines := "Connection: close\r\n";
      }
      connection.Write(head + lines + ContentBlock(response.content));
    }
  }

  /** As written: the cursor after a header key, or after a Connection
      value, as the engine's own code moves it. The end is looked for among
      the buffered bytes only, for `stops` ({':', '\r', '\n'} after a key,
      {'\r', '\n'} after a value), and the cursor then steps over one byte
      for a '\n' and two for anything else, whether or not they have
      arrived; the next search then starts from there. */
  function SkipAsWritten(buffered: seq<char>, start: nat, stops: set<char>): (next: nat)
    requires start <= |buffered|
    requires Scan(buffered, start, stops) < |buffered|
    ensures Scan(buffered, start, stops) < next <= |buffered| + 1
  {
    var k := Scan(buffered, start, stops);
    if buffered[k] == '\n' then k + 1 else k + 2
  }

  /** As written: a read that ends right after "Host:" leaves the cursor
      one past the last buffered byte, and so does a read that ends right
      after the '\r' of "Connection: close\r"; the next key search then
      starts outside the buffered range. The corrected engine
      (SkipBuffered in ReceiveKeyed and ReceiveHeaderValue) waits for the
      skipped bytes instead. */
  lemma HeaderSkipOverrun()
    ensures Scan("Host:", 0, {':', '\r', '\n'}) == 4
    ensures SkipAsWritten("Host:", 0, {':', '\r', '\n'}) == 6 == |"Host:"| + 1
    ensures Scan("close\r", 0, {'\r', '\n'}) == 5
    ensures SkipAsWritten("close\r", 0, {'\r', '\n'}) == 7 == |"close\r"| + 1
  {
    var w := "Host:";
    assert w[0] !in {':', '\r', '\n'} && w[1] !in {':', '\r', '\n'};
    assert w[2] !in {':', '\r', '\n'} && w[3] !in {':', '\r', '\n'};
    assert w[4] == ':';
    var v := "close\r";
    assert v[0] !in {'\r', '\n'} && v[1] !in {'\r', '\n'} && v[2] !in {'\r', '\n'};
    assert v[3] !in {'\r', '\n'} && v[4] !in {'\r', '\n'};
    assert v[5] == '\r';
  }
}
