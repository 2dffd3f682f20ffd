/**
 What the command loop does with every sequence of messages, told from the messages alone.
 */
module CommandHistory {
  import opened Options
  import opened Strings
  import opened Hex
  import opened Sorting
  import opened CommandLoop

  /** The commitment of a well-formed challenge command. */
  function Commitment(inp: Input): Option<bytes32> {
    var text := Command(inp);
    if HasPrefix(text, "challenge ") then Decode32(Argument(text, "challenge ")) else None
  }

  /** The client's number in a well-formed verify command. */
  function Opening(inp: Input): Option<bytes32> {
    var text := Command(inp);
    if HasPrefix(text, "verify ") then Decode32(Argument(text, "verify ")) else None
  }

  lemma NotBoth(inp: Input)
    ensures Commitment(inp).None? || Opening(inp).None?
  {
    var text := Command(inp);
    assert HasPrefix(text, "challenge ") ==> text[0] == 'c';
    assert HasPrefix(text, "verify ") ==> text[0] == 'v';
  }

  /** Before message `k`, the challenge in message `j` is the one in progress: no well-formed
      challenge and no well-formed opening came since.  Malformed ones do not matter. */
  ghost predicate InForce(inputs: seq<Input>, j: nat, k: nat) {
    && j < k <= |inputs| && Commitment(inputs[j]).Some?
    && forall i :: j < i < k ==> Commitment(inputs[i]).None? && Opening(inputs[i]).None?
  }

  /** The challenge in progress, if any. */
  function InProgress(inputs: seq<Input>, k: nat): (r: Option<nat>)
    requires k <= |inputs|
  {
    if k == 0 then None
    else if Commitment(inputs[k - 1]).Some? then Some(k - 1)
    else if Opening(inputs[k - 1]).Some? then None
    else InProgress(inputs, k - 1)
  }

  lemma {:induction false} InProgressIsInForce(inputs: seq<Input>, j: nat, k: nat)
    requires k <= |inputs|
    ensures InProgress(inputs, k) == Some(j) <==> InForce(inputs, j, k)
  {
    if k > 0 {
      NotBoth(inputs[k - 1]);
      InProgressIsInForce(inputs, j, k - 1);
    }
  }

  /** One step changes the two variables only as the history says. */
  lemma StepRemembers(n: NodeSide, s: Loop, inp: Input)
    requires Consistent(s) && Step(n, s, inp).0.mode.Commands?
    ensures var s' := Step(n, s, inp).0;
            if Commitment(inp).Some? then
              inp.random.Some? && s'.commitment == Commitment(inp) && s'.rNode == inp.random
            else if Opening(inp).Some? then s'.commitment == None && s'.rNode == None
            else s'.commitment == s.commitment && s'.rNode == s.rNode
  {
    NotBoth(inp);
    var text := Command(inp);
    assert HasPrefix(text, "challenge ") ==> text[0] == 'c' && text != "ping" && text != "list";
    assert HasPrefix(text, "verify ") ==> text[0] == 'v' && text != "ping" && text != "list";
  }

  /** The loop's variables are those of the challenge in progress. */
  lemma {:induction false} RemembersLatest(n: NodeSide, inputs: seq<Input>, k: nat)
    requires k <= |inputs| && Listening(n, inputs, k)
    ensures var s := After(n, inputs, k);
            match InProgress(inputs, k)
            case None => s.commitment == None && s.rNode == None
            case Some(j) => j < k && inputs[j].random.Some?
                            && s.commitment == Commitment(inputs[j]) && s.rNode == inputs[j].random
  {
    if k > 0 {
      RemembersLatest(n, inputs, k - 1);
      StepRemembers(n, After(n, inputs, k - 1), inputs[k - 1]);
    }
  }

  // ---- Proofs -----------------------------------------------------------------------------

  /** Message `k` opens the challenge of message `j`. */
  ghost predicate Opens(n: NodeSide, inputs: seq<Input>, j: nat, k: nat) {
    && k < |inputs| && InForce(inputs, j, k) && Opening(inputs[k]).Some?
    && Commitment(inputs[j]) == Some(n.c.sha256(Opening(inputs[k]).value))
  }

  ghost predicate IsProof(reply: string) {
    HasPrefix(reply, "proof ")
  }

  /** Only a successful verify command is answered with a proof. */
  lemma ProofStep(n: NodeSide, s: Loop, inp: Input)
    requires IsNode(n) && Consistent(s)
    ensures var (s', reply) := Step(n, s, inp);
            && (IsProof(reply) <==>
                  s.commitment.Some? && Opening(inp).Some? && n.c.sha256(Opening(inp).value) == s.commitment.value)
            && (IsProof(reply) ==> reply == ProofText(n, Opening(inp).value, s.rNode.value))
  {
    var text := Command(inp);
    var reply := Step(n, s, inp).1;
    assert HasPrefix(text, "verify ") ==> text[0] == 'v' && text != "ping" && text != "list";
    if text == "list" {
      assert HasPrefix(n.json(Names(n.services.Keys)), "[") && reply[0] == '[';
    } else if text == "ping" {
      assert reply[1] == 'o';
    } else if !HasPrefix(text, "verify ") {
      assert reply[0] == 'e' || reply[0] == 'c' || reply[0] == 'o';
    } else if s.commitment.Some? && Opening(inp).Some? && n.c.sha256(Opening(inp).value) == s.commitment.value {
      assert reply == ProofText(n, Opening(inp).value, s.rNode.value);
      assert "proof " <= reply;
    } else {
      assert reply[0] == 'e';
    }
  }

  /** The loop answers message `k` with a proof exactly if it opens the challenge in progress;
      the proof then signs the exclusive or of the opening with the random number that this very
      challenge was answered with. */
  lemma ProofsAnswerChallenges(n: NodeSide, inputs: seq<Input>, k: nat)
    requires IsNode(n) && k < |inputs| && Listening(n, inputs, k)
    ensures IsProof(Reply(n, inputs, k)) <==> exists j: nat :: Opens(n, inputs, j, k)
    ensures forall j: nat :: Opens(n, inputs, j, k) ==>
              && inputs[j].random.Some? && Listening(n, inputs, j)
              && Reply(n, inputs, j) == "challenge-response " + Encode(inputs[j].random.value)
              && Reply(n, inputs, k) == ProofText(n, Opening(inputs[k]).value, inputs[j].random.value)
  {
    var s := After(n, inputs, k);
    ProofStep(n, s, inputs[k]);
    RemembersLatest(n, inputs, k);
    if InProgress(inputs, k).Some? {
      InProgressIsInForce(inputs, InProgress(inputs, k).value, k);
    }
    forall j: nat | Opens(n, inputs, j, k)
      ensures inputs[j].random.Some? && Listening(n, inputs, j)
      ensures Reply(n, inputs, j) == "challenge-response " + Encode(inputs[j].random.value)
      ensures s.commitment.Some? && Commitment(inputs[j]) == s.commitment && inputs[j].random == s.rNode
    {
      InProgressIsInForce(inputs, j, k);
      ListeningBefore(n, inputs, j, k);
      ChallengeReply(n, After(n, inputs, j), inputs[j]);
    }
    if IsProof(Reply(n, inputs, k)) {
      assert Opens(n, inputs, InProgress(inputs, k).value, k);
    }
  }

  lemma ChallengeReply(n: NodeSide, s: Loop, inp: Input)
    requires Consistent(s) && Commitment(inp).Some? && inp.random.Some?
    ensures Step(n, s, inp).1 == "challenge-response " + Encode(inp.random.value)
  {
    var text := Command(inp);
    assert text[0] == 'c' && text != "ping" && text != "list";
  }

  /** Proofs map one to one, and in order, to the challenges they answer. */
  lemma ProofsInOrder(n: NodeSide, inputs: seq<Input>, j1: nat, k1: nat, j2: nat, k2: nat)
    requires Opens(n, inputs, j1, k1) && Opens(n, inputs, j2, k2) && k1 < k2
    ensures j1 < k1 < j2 < k2
  {
    NotBoth(inputs[k1]);
  }

  /** A malformed opening keeps the challenge; a mismatch or a success consumes it. */
  lemma OpeningsConsume(n: NodeSide, inputs: seq<Input>, j: nat, k: nat)
    requires k < |inputs| && Listening(n, inputs, k) && InForce(inputs, j, k)
    requires HasPrefix(Command(inputs[k]), "verify ")
    ensures Listening(n, inputs, k + 1)
    ensures InForce(inputs, j, k + 1) <==> Opening(inputs[k]).None?
    ensures After(n, inputs, k + 1) ==
              if Opening(inputs[k]).None? then After(n, inputs, k) else Loop(None, None, Commands)
  {
    var text := Command(inputs[k]);
    assert text[0] == 'v' && text != "ping" && text != "list" && !HasPrefix(text, "challenge ");
    RemembersLatest(n, inputs, k);
    InProgressIsInForce(inputs, j, k);
  }
}
