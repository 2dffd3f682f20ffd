/**
 From commands to bytes: the queue is the same before and after a successful connect.
 */
module ModeSwitch {
  import opened Bytes
  import opened CommandLoop
  import opened Bridge

  function Raws(inputs: seq<Input>): seq<bytes> {
    seq(|inputs|, i requires 0 <= i < |inputs| => inputs[i].raw)
  }

  /** The message at which the loop turned into the bridge. */
  ghost predicate ConnectsAt(n: NodeSide, inputs: seq<Input>, k: nat) {
    k < |inputs| && Listening(n, inputs, k) && After(n, inputs, k + 1).mode.Piping?
  }

  /** A loop turns into a bridge at most once. */
  lemma ConnectsOnce(n: NodeSide, inputs: seq<Input>, j: nat, k: nat)
    requires ConnectsAt(n, inputs, j) && ConnectsAt(n, inputs, k)
    ensures j == k
  {
    if j < k { ListeningBefore(n, inputs, j + 1, k); }
    if k < j { ListeningBefore(n, inputs, k + 1, j); }
  }

  lemma RawsSplit(rest: seq<Input>, i: nat)
    requires i <= |rest|
    ensures Raws(rest) == Raws(rest[..i]) + Raws(rest[i..])
  {
  }

  /** Messages that follow the successful connect go to TCP in order, byte for byte and whether
      or not they were queued before the bridge started: what is written is at all times a prefix
      of them, and all of them once every message arrived and the queue was drained without a
      write error. */
  lemma PipeIntegrity(n: NodeSide, inputs: seq<Input>, k: nat, queued: nat, run: seq<Bridge.Action>)
    requires ConnectsAt(n, inputs, k) && queued <= |inputs[k + 1..]|
    requires IsRun(NewPipe(Raws(inputs[k + 1..][..queued])), run)
    requires Arrivals(run) <= Raws(inputs[k + 1..][queued..])
    ensures var p := Exec(NewPipe(Raws(inputs[k + 1..][..queued])), run);
            var stream := Flatten(Raws(inputs[k + 1..]));
            && p.tcp <= stream
            && (!p.writer.Draining? && !p.writeFailed && Arrivals(run) == Raws(inputs[k + 1..][queued..]) ==>
                  p.tcp == stream)
  {
    var rest := inputs[k + 1..];
    RawsSplit(rest, queued);
    TcpGetsPrefix(Raws(rest[..queued]), run);
    FlattenPrefix(Raws(rest[..queued]) + Arrivals(run), Raws(rest));
  }

  /** Once the loop has ended its variables do not change. */
  lemma {:induction false} Stays(n: NodeSide, inputs: seq<Input>, j: nat, k: nat)
    requires j <= k <= |inputs| && !Listening(n, inputs, j)
    ensures After(n, inputs, k) == After(n, inputs, j)
  {
    if j < k { Stays(n, inputs, j, k - 1); }
  }

  /** Where the loop stops decides whether it ever connected. */
  lemma StopsWhere(n: NodeSide, inputs: seq<Input>, taken: nat, k: nat)
    requires taken <= |inputs| && (Listening(n, inputs, taken) ==> taken == |inputs|)
    requires forall i: nat :: i < taken ==> Listening(n, inputs, i)
    ensures ConnectsAt(n, inputs, k) <==> k + 1 == taken && After(n, inputs, taken).mode.Piping?
  {
    if k < |inputs| {
      if k + 1 <= taken && !Listening(n, inputs, k + 1) {
        Stays(n, inputs, k + 1, taken);
      } else if taken <= k && Listening(n, inputs, k) {
        ListeningBefore(n, inputs, taken, k);
      }
    }
  }

  /** The goroutine of one data channel, from its first message to the end of its writer. */
  method ServeThenDrain(n: NodeSide, inputs: seq<Input>, results: seq<WriteResult>)
    returns (sent: seq<string>, mode: Mode, tcp: bytes)
    requires IsNode(n) && |results| == |inputs|
    ensures mode.Piping? <==> exists k: nat :: ConnectsAt(n, inputs, k)
    ensures !mode.Piping? ==> tcp == []
    ensures forall k: nat :: ConnectsAt(n, inputs, k) ==>
              && |sent| == k + 1 && tcp <= Flatten(Raws(inputs[k + 1..]))
              && ((forall i :: k < i < |results| ==> results[i].WroteAll?) ==> tcp == Flatten(Raws(inputs[k + 1..])))
  {
    var taken;
    sent, mode, taken := Serve(n, inputs);
    forall k: nat ensures ConnectsAt(n, inputs, k) <==> k + 1 == taken && mode.Piping? {
      StopsWhere(n, inputs, taken, k);
    }
    tcp := [];
    if mode.Piping? {
      assert taken > 0 && ConnectsAt(n, inputs, taken - 1);
      var failed;
      tcp, failed := DrainToTcp(Raws(inputs[taken..]), results[taken..]);
    }
  }
}
