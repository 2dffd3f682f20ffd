/**
 The byte pipe that a data channel turns into after a successful connect: `bridge` of
 node/main.go, two goroutines that share the queue, both connections and a `sync.Once`.
 */
module Bridge {
  import opened Bytes

  function Flatten(ms: seq<bytes>): bytes {
    if ms == [] then [] else ms[0] + Flatten(ms[1..])
  }

  lemma Associative(a: bytes, b: bytes, c: bytes)
    ensures (a + b) + c == a + (b + c)
  {
  }

  lemma {:induction false} FlattenAppend(a: seq<bytes>, b: seq<bytes>)
    ensures Flatten(a + b) == Flatten(a) + Flatten(b)
  {
    if a == [] {
      assert a + b == b;
    } else {
      FlattenAppend(a[1..], b);
      assert a + b == [a[0]] + (a[1..] + b);
      Associative(a[0], Flatten(a[1..]), Flatten(b));
    }
  }

  lemma FlattenPrefix(a: seq<bytes>, b: seq<bytes>)
    requires a <= b
    ensures Flatten(a) <= Flatten(b)
  {
    FlattenAppend(a, b[|a|..]);
    assert a + b[|a|..] == b;
  }

  const QUEUE_SIZE := 256
  const BUFFER_SIZE := 65536

  // ---- The two loops, each on its own ---------------------------------------------------------

  /** What one conn.Write does: write it all, or only the first `n` bytes and report an error. */
  datatype WriteResult = WroteAll | WriteError(n: nat)

  /** The writer goroutine's loop, on everything the queue ever yields before it is closed. */
  method DrainToTcp(queue: seq<bytes>, results: seq<WriteResult>) returns (tcp: bytes, failed: bool)
    requires |results| == |queue|
    ensures tcp <= Flatten(queue) && (!failed ==> tcp == Flatten(queue))
    ensures failed <==> exists i :: 0 <= i < |results| && results[i].WriteError?
    ensures forall i :: 0 <= i <= |results| && (forall k :: 0 <= k < i ==> results[k].WroteAll?) ==>
              Flatten(queue[..i]) <= tcp
  {
    tcp := [];
    for i := 0 to |queue|
      invariant tcp == Flatten(queue[..i])
      invariant forall k :: 0 <= k < i ==> results[k].WroteAll?
    {
      assert queue[..i + 1] == queue[..i] + [queue[i]];
      FlattenAppend(queue[..i], [queue[i]]);
      assert Flatten([queue[i]]) == queue[i];
      FlattenPrefix(queue[..i + 1], queue);
      match results[i]
      case WroteAll => tcp := tcp + queue[i];
      case WriteError(n) =>
        tcp := tcp + if n < |queue[i]| then queue[i][..n] else queue[i];
        WrittenBefore(queue, results, i);
        return tcp, true;
    }
    assert queue[..|queue|] == queue;
    WrittenBefore(queue, results, |queue|);
    failed := false;
  }

  lemma WrittenBefore(queue: seq<bytes>, results: seq<WriteResult>, i: nat)
    requires i <= |queue| == |results| && (i < |queue| ==> results[i].WriteError?)
    ensures forall j :: 0 <= j <= |results| && (forall k :: 0 <= k < j ==> results[k].WroteAll?) ==>
              Flatten(queue[..j]) <= Flatten(queue[..i])
  {
    forall j | 0 <= j <= |results| && (forall k :: 0 <= k < j ==> results[k].WroteAll?)
      ensures Flatten(queue[..j]) <= Flatten(queue[..i])
    {
      assert j <= i;
      FlattenPrefix(queue[..j], queue[..i]);
    }
  }

  datatype ReadEnd = More | Eof | ReadError

  /** What one conn.Read returns: some bytes and possibly an error, and whether sending the bytes
      on the data channel succeeds. */
  datatype ReadResult = ReadResult(data: bytes, end: ReadEnd, sendOk: bool)

  /** The bytes of the reads up to and including the first that ends the loop. */
  function ReadBytes(chunks: seq<ReadResult>): bytes {
    if chunks == [] then []
    else if chunks[0].end.More? then chunks[0].data + ReadBytes(chunks[1..])
    else chunks[0].data
  }

  /** The data of the reads, whatever their ends. */
  function Datas(chunks: seq<ReadResult>): seq<bytes> {
    seq(|chunks|, i requires 0 <= i < |chunks| => chunks[i].data)
  }

  /** That is all data up to the first read that reports EOF or an error, the data of this read
      included. */
  lemma {:induction false} ReadBytesUpToEnd(chunks: seq<ReadResult>, k: nat)
    requires k <= |chunks| && (forall i :: 0 <= i < k ==> chunks[i].end.More?)
    requires k < |chunks| ==> !chunks[k].end.More?
    ensures ReadBytes(chunks) == Flatten(Datas(if k < |chunks| then chunks[..k + 1] else chunks))
  {
    if chunks != [] {
      var upTo := if k < |chunks| then chunks[..k + 1] else chunks;
      assert Datas(upTo)[1..] == Datas(upTo[1..]);
      if k > 0 {
        ReadBytesUpToEnd(chunks[1..], k - 1);
        assert upTo[1..] == if k < |chunks| then chunks[1..][..k] else chunks[1..];
      } else {
        assert Datas(upTo[1..]) == [] && chunks[0].data + [] == chunks[0].data;
      }
    }
  }

  /** The reader goroutine's loop.  A chunk that comes with an error is sent before the loop ends. */
  method PumpToChannel(chunks: seq<ReadResult>) returns (dc: bytes, failed: bool)
    ensures dc <= ReadBytes(chunks) && (!failed ==> dc == ReadBytes(chunks))
    ensures (forall r <- chunks :: r.sendOk) ==> !failed
  {
    dc := [];
    var i := 0;
    while i < |chunks|
      invariant i <= |chunks|
      invariant ReadBytes(chunks) == dc + ReadBytes(chunks[i..])
    {
      var r := chunks[i];
      assert r in chunks && chunks[i..][1..] == chunks[i + 1..];
      if |r.data| > 0 {
        if !r.sendOk { return dc, true; }
        dc := dc + r.data;
      }
      if !r.end.More? { return dc, false; }
      i := i + 1;
    }
    failed := false;
  }

  // ---- Both together, with the data channel's callbacks -----------------------------------------

  datatype Writer = Draining | WriterCleaning | WriterDone

  datatype Reader = Reading | Sending(chunk: bytes, end: ReadEnd) | ReaderCleaning | ReaderDone

  /** `tcp` and `dc` are the bytes written to the connection and to the data channel, `read` the
      bytes read from the connection, `cleanups` how often the body of cleanup ran. */
  datatype Pipe = Pipe(
    queue: seq<bytes>, closed: bool, tcp: bytes, writer: Writer, writeFailed: bool,
    read: bytes, dc: bytes, reader: Reader, sendFailed: bool,
    once: bool, cleanups: nat, connClosed: bool)

  /** The bridge starts with the messages that are already in the queue. */
  function NewPipe(queued: seq<bytes>): Pipe {
    Pipe(queued, false, [], Draining, false, [], [], Reading, false, false, 0, false)
  }

  datatype Action =
    | Arrive(msg: bytes)              // OnMessage; blocks while the queue is full
    | CloseQueue                      // OnClose
    | Write                           // the writer takes a message and writes it
    | FailWrite(n: nat)               // the write fails after n bytes
    | QueueEnds                       // the queue is closed and drained
    | Read(data: bytes, end: ReadEnd)
    | Send
    | FailSend
    | CleanupWriter
    | CleanupReader

  predicate Enabled(p: Pipe, a: Action) {
    match a
    case Arrive(_) => !p.closed && |p.queue| < QUEUE_SIZE
    case CloseQueue => !p.closed
    case Write => p.writer.Draining? && p.queue != [] && !p.connClosed
    case FailWrite(n) => p.writer.Draining? && p.queue != [] && n <= |p.queue[0]| && (p.connClosed ==> n == 0)
    case QueueEnds => p.writer.Draining? && p.queue == [] && p.closed
    case Read(data, _) => p.reader.Reading? && |data| <= BUFFER_SIZE && (p.connClosed ==> data == [])
    case Send => p.reader.Sending?
    case FailSend => p.reader.Sending?
    case CleanupWriter => p.writer.WriterCleaning?
    case CleanupReader => p.reader.ReaderCleaning?
  }

  function AfterChunk(end: ReadEnd): Reader {
    if end.More? then Reading else ReaderCleaning
  }

  /** once.Do */
  function Cleanup(p: Pipe): Pipe {
    if p.once then p else p.(once := true, cleanups := p.cleanups + 1, connClosed := true)
  }

  function Apply(p: Pipe, a: Action): Pipe
    requires Enabled(p, a)
  {
    match a
    case Arrive(msg) => p.(queue := p.queue + [msg])
    case CloseQueue => p.(closed := true)
    case Write => p.(tcp := p.tcp + p.queue[0], queue := p.queue[1..])
    case FailWrite(n) =>
      p.(tcp := p.tcp + p.queue[0][..n], queue := p.queue[1..], writer := WriterCleaning, writeFailed := true)
    case QueueEnds => p.(writer := WriterCleaning)
    case Read(data, end) =>
      p.(read := p.read + data, reader := if |data| > 0 then Sending(data, end) else AfterChunk(end))
    case Send => p.(dc := p.dc + p.reader.chunk, reader := AfterChunk(p.reader.end))
    case FailSend => p.(reader := ReaderCleaning, sendFailed := true)
    case CleanupWriter => Cleanup(p).(writer := WriterDone)
    case CleanupReader => Cleanup(p).(reader := ReaderDone)
  }

  predicate IsRun(p: Pipe, run: seq<Action>)
    decreases |run|
  {
    run != [] ==> Enabled(p, run[0]) && IsRun(Apply(p, run[0]), run[1..])
  }

  function Exec(p: Pipe, run: seq<Action>): Pipe
    requires IsRun(p, run)
    decreases |run|
  {
    if run == [] then p else Exec(Apply(p, run[0]), run[1..])
  }

  /** The messages that arrive in a run. */
  function Arrivals(run: seq<Action>): seq<bytes> {
    if run == [] then []
    else (if run[0].Arrive? then [run[0].msg] else []) + Arrivals(run[1..])
  }

  // ---- What every interleaving keeps --------------------------------------------------------------

  /** `all` are the messages that were in the queue at the start or arrived since. */
  ghost predicate WriterOk(p: Pipe, all: seq<bytes>) {
    && (!p.writeFailed ==> p.tcp + Flatten(p.queue) == Flatten(all))
    && (p.writeFailed ==> p.tcp <= Flatten(all) && !p.writer.Draining?)
    && (!p.writer.Draining? && !p.writeFailed ==> p.closed && p.queue == [])
  }

  ghost predicate ReaderOk(p: Pipe) {
    && (p.sendFailed ==> p.dc <= p.read && !p.reader.Reading? && !p.reader.Sending?)
    && (!p.sendFailed ==> p.read == p.dc + if p.reader.Sending? then p.reader.chunk else [])
  }

  ghost predicate OnceOk(p: Pipe) {
    && p.cleanups == (if p.once then 1 else 0)
    && (p.connClosed <==> p.once)
    && (p.writer.WriterDone? || p.reader.ReaderDone? ==> p.once)
  }

  ghost predicate Inv(p: Pipe, all: seq<bytes>) {
    WriterOk(p, all) && ReaderOk(p) && OnceOk(p)
  }

  lemma WriterKept(p: Pipe, all: seq<bytes>, a: Action)
    requires WriterOk(p, all) && Enabled(p, a)
    ensures WriterOk(Apply(p, a), all + if a.Arrive? then [a.msg] else [])
  {
    if a.Arrive? {
      FlattenAppend(all, [a.msg]);
      FlattenAppend(p.queue, [a.msg]);
      Associative(p.tcp, Flatten(p.queue), Flatten([a.msg]));
    } else {
      assert all + [] == all;
      if a.Write? {
        Associative(p.tcp, p.queue[0], Flatten(p.queue[1..]));
      } else if a.FailWrite? {
        PartWritten(p, all, a.n);
      }
    }
  }

  lemma PartWritten(p: Pipe, all: seq<bytes>, n: nat)
    requires WriterOk(p, all) && p.writer.Draining? && p.queue != [] && n <= |p.queue[0]|
    ensures p.tcp + p.queue[0][..n] <= Flatten(all)
  {
    var m, rest := p.queue[0], Flatten(p.queue[1..]);
    Associative(p.tcp, m, rest);
    assert p.tcp + m == p.tcp + m[..n] + m[n..];
  }

  lemma InvKept(p: Pipe, all: seq<bytes>, a: Action)
    requires Inv(p, all) && Enabled(p, a)
    ensures Inv(Apply(p, a), all + if a.Arrive? then [a.msg] else [])
  {
    WriterKept(p, all, a);
  }

  lemma ArrivalsSplit(all: seq<bytes>, run: seq<Action>)
    requires run != []
    ensures all + Arrivals(run) == all + (if run[0].Arrive? then [run[0].msg] else []) + Arrivals(run[1..])
  {
  }

  lemma {:induction false} InvAlways(p: Pipe, all: seq<bytes>, run: seq<Action>)
    requires Inv(p, all) && IsRun(p, run)
    ensures Inv(Exec(p, run), all + Arrivals(run))
    decreases |run|
  {
    if run == [] {
      assert all + [] == all;
    } else {
      InvKept(p, all, run[0]);
      var all' := all + if run[0].Arrive? then [run[0].msg] else [];
      InvAlways(Apply(p, run[0]), all', run[1..]);
      ArrivalsSplit(all, run);
    }
  }

  /** In every interleaving, the bytes written to TCP are at all times a prefix of the messages,
      those queued before the bridge started included, and all of them once the queue was
      drained without a write error. */
  lemma TcpGetsPrefix(queued: seq<bytes>, run: seq<Action>)
    requires IsRun(NewPipe(queued), run)
    ensures var p := Exec(NewPipe(queued), run);
            && p.tcp <= Flatten(queued + Arrivals(run))
            && (!p.writer.Draining? && !p.writeFailed ==> p.tcp == Flatten(queued + Arrivals(run)))
  {
    InvAlways(NewPipe(queued), queued, run);
  }

  /** The bytes sent on the data channel are a prefix of the bytes read, for any chunking, and all
      of them once the reader stops without a send error: a last chunk that comes with EOF is
      not lost. */
  lemma ChannelGetsAll(queued: seq<bytes>, run: seq<Action>)
    requires IsRun(NewPipe(queued), run)
    ensures var p := Exec(NewPipe(queued), run);
            && p.dc <= p.read
            && (!p.reader.Sending? && !p.sendFailed ==> p.dc == p.read)
  {
    InvAlways(NewPipe(queued), queued, run);
  }

  /** The reader has seen EOF or an error. */
  ghost predicate ReadEnded(p: Pipe) {
    (p.reader.Sending? && !p.reader.end.More?) || p.reader.ReaderCleaning? || p.reader.ReaderDone?
  }

  /** A read that reports EOF or an error is the last one, in every interleaving; its data is still
      sent.  A read that does not is followed by another. */
  lemma {:induction false} LastRead(p: Pipe, run: seq<Action>)
    requires IsRun(p, run) && ReadEnded(p)
    ensures ReadEnded(Exec(p, run)) && Exec(p, run).read == p.read && forall a <- run :: !a.Read?
    decreases |run|
  {
    if run != [] {
      StaysEnded(p, run[0]);
      LastRead(Apply(p, run[0]), run[1..]);
    }
  }

  lemma StaysEnded(p: Pipe, a: Action)
    requires Enabled(p, a) && ReadEnded(p)
    ensures ReadEnded(Apply(p, a)) && Apply(p, a).read == p.read && !a.Read?
  {
  }

  /** A read takes at most 64 KiB, and as much as there is up to that. */
  lemma ReadsUpTo64K(p: Pipe, data: bytes)
    requires p.reader.Reading? && !p.connClosed
    ensures Enabled(p, Read(data, More)) <==> |data| <= 64 * 1024
  {
  }

  lemma EndsReading(p: Pipe, data: bytes, end: ReadEnd)
    requires Enabled(p, Read(data, end))
    ensures var p1 := Apply(p, Read(data, end));
            && (ReadEnded(p1) <==> !end.More?)
            && (data == [] && end.More? ==> p1.reader.Reading?)
            && (data != [] ==> Enabled(p1, Send) && (Apply(p1, Send).reader.Reading? <==> end.More?)
                               && Apply(p1, Send).dc == p.dc + data)
  {
  }

  /** The queue never holds more than 256 messages, and takes more until then. */
  lemma {:induction false} QueueIsBounded(p: Pipe, run: seq<Action>)
    requires |p.queue| <= 256 && IsRun(p, run)
    ensures |Exec(p, run).queue| <= 256
    decreases |run|
  {
    if run != [] {
      QueueStaysBounded(p, run[0]);
      QueueIsBounded(Apply(p, run[0]), run[1..]);
    }
  }

  lemma QueueStaysBounded(p: Pipe, a: Action)
    requires |p.queue| <= 256 && Enabled(p, a)
    ensures |Apply(p, a).queue| <= 256
    ensures !p.closed && |p.queue| < 256 ==> forall msg: bytes :: Enabled(p, Arrive(msg))
  {
  }

  /** The writer stops by itself exactly when the queue is closed and drained, and then goes on to
      the cleanup; it writes whatever is queued as long as the connection is open. */
  lemma WriterStops(p: Pipe)
    requires p.writer.Draining?
    ensures Enabled(p, QueueEnds) <==> p.closed && p.queue == []
    ensures Enabled(p, QueueEnds) ==> Enabled(Apply(p, QueueEnds), CleanupWriter) && !Enabled(p, Write)
    ensures p.queue != [] && !p.connClosed ==>
              Enabled(p, Write) && Apply(p, Write).writer.Draining? && Apply(p, Write).tcp == p.tcp + p.queue[0]
    ensures p.queue != [] ==>
              && Enabled(p, FailWrite(0)) && Apply(p, FailWrite(0)).writer.WriterCleaning?
              && Apply(p, FailWrite(0)).tcp == p.tcp
  {
  }

  /** Once the data channel is closed no message is queued any more. */
  lemma {:induction false} NothingAfterClose(p: Pipe, run: seq<Action>)
    requires IsRun(p, run) && p.closed
    ensures Exec(p, run).closed && Arrivals(run) == []
    decreases |run|
  {
    if run != [] { NothingAfterClose(Apply(p, run[0]), run[1..]); }
  }

  lemma CloseCloses(p: Pipe)
    requires !p.closed
    ensures Enabled(p, CloseQueue) && Apply(p, CloseQueue) == p.(closed := true)
  {
  }

  /** How far the two goroutines are from their ends. */
  function Togo(p: Pipe): nat {
    (match p.reader case Reading => 3 case Sending(_, _) => 2 case ReaderCleaning => 1 case ReaderDone => 0)
    + (match p.writer case Draining => 2 case WriterCleaning => 1 case WriterDone => 0)
    + (if p.closed then 0 else 1)
  }

  /** A step towards the end: a read or a send that fails, a failing write, the queue's end. */
  lemma GoesOn(p: Pipe) returns (a: Action)
    requires !p.reader.ReaderDone? || !p.writer.WriterDone?
    ensures Enabled(p, a) && Togo(Apply(p, a)) < Togo(p)
  {
    if p.reader.Reading? {
      a := Read([], ReadError);
    } else if p.reader.Sending? {
      a := FailSend;
    } else if p.reader.ReaderCleaning? {
      a := CleanupReader;
    } else if p.writer.WriterCleaning? {
      a := CleanupWriter;
    } else if p.queue != [] {
      a := FailWrite(0);
    } else {
      a := if p.closed then QueueEnds else CloseQueue;
    }
  }

  /** From every state the bridge can end: both goroutines done, the body of cleanup run once, the
      connection closed. */
  lemma {:induction false} BridgeCanEnd(p: Pipe, all: seq<bytes>) returns (run: seq<Action>)
    requires Inv(p, all)
    ensures IsRun(p, run)
    ensures var q := Exec(p, run);
            q.reader.ReaderDone? && q.writer.WriterDone? && q.cleanups == 1 && q.connClosed
    decreases Togo(p)
  {
    if p.reader.ReaderDone? && p.writer.WriterDone? {
      run := [];
    } else {
      var a := GoesOn(p);
      InvKept(p, all, a);
      var rest := BridgeCanEnd(Apply(p, a), all + if a.Arrive? then [a.msg] else []);
      run := [a] + rest;
      assert run[1..] == rest;
    }
  }

  /** However the two goroutines end, the body of cleanup runs at most once, and it has run when
      either is done. */
  lemma CleanupOnce(queued: seq<bytes>, run: seq<Action>)
    requires IsRun(NewPipe(queued), run)
    ensures var p := Exec(NewPipe(queued), run);
            && p.cleanups <= 1
            && (p.writer.WriterDone? || p.reader.ReaderDone? ==> p.cleanups == 1 && p.connClosed)
  {
    InvAlways(NewPipe(queued), queued, run);
  }
}
