/**
 The node's side of a data channel: the command loop of handleOffer in node/main.go.

 Go strings are byte strings; text is modelled with one character for each byte.
 */
module CommandLoop {
  import opened Options
  import opened Bytes
  import opened Strings
  import opened Sorting
  import opened Hex
  import opened Cryptography
  import opened Registration

  type bytes32 = b: bytes | |b| == 32 witness seq(32, _ => 0)

  /** A node: its key, its services (name to target), and two library functions that only shape
      text, the quoting verb %q and the JSON encoding of a list of names. */
  datatype NodeSide = NodeSide(
    c: Crypto, key: bytes, services: map<string, string>,
    quote: string -> string, json: seq<string> -> string)

  /** What the loop assumes of its node: sound cryptography, and that JSON arrays start with a
      bracket. */
  ghost predicate IsNode(n: NodeSide) {
    Sound(n.c) && forall names: seq<string> :: HasPrefix(n.json(names), "[")
  }

  /** A message taken from the queue, with what the environment will do if it is asked: the
      result of rand.Read (None is an error) and of net.Dial (Some is the error's text). */
  datatype Input = Input(raw: bytes, random: Option<bytes32>, dial: Option<string>)

  /** Commands: the loop goes on.  Piping: it turned into the bridge to a target.  Ended: it
      returned. */
  datatype Mode = Commands | Piping(target: string) | Ended

  datatype Loop = Loop(commitment: Option<bytes>, rNode: Option<bytes>, mode: Mode)

  const START := Loop(None, None, Commands)

  function Command(inp: Input): string {
    TrimNewlines(Text(inp.raw))
  }

  function Argument(text: string, verb: string): string
    requires HasPrefix(text, verb)
  {
    text[|verb|..]
  }

  /** 32 bytes in hexadecimal, or nothing. */
  function Decode32(hex: string): Option<bytes32> {
    match Decode(hex)
    case None => None
    case Some(b) => if |b| == 32 then Some(b) else None
  }

  const CHALLENGE_PREFIX := "rtc-bridge:dc-challenge:"

  /** What an identity proof signs. */
  function ChallengePayload(joint: bytes): bytes {
    Ascii(CHALLENGE_PREFIX) + joint
  }

  lemma ChallengeBytes(joint: bytes)
    ensures ChallengePayload(joint) == Ascii("rtc-bridge:dc-challenge:") + joint
  {
  }

  /** Proofs of identity and proofs of registration never sign the same bytes. */
  lemma DomainsAreSeparate(a: bytes, b: bytes)
    ensures SignPayload(a) != ChallengePayload(b)
  {
    PrefixAt(REGISTER_PREFIX, a, 11);
    PrefixAt(CHALLENGE_PREFIX, b, 11);
    assert REGISTER_PREFIX[11] == 'r' && CHALLENGE_PREFIX[11] == 'd';
  }

  function ProofText(n: NodeSide, rClient: bytes, rNode: bytes): string
    requires |rClient| <= |rNode|
  {
    "proof " + Encode(n.c.publicKey(n.key)) + " "
    + Encode(n.c.sign(n.key, ChallengePayload(XorAll(rClient, rNode))))
  }

  // ---- One iteration --------------------------------------------------------------------------

  /** Both values are set or neither is, and then both have 32 bytes. */
  predicate Consistent(s: Loop) {
    && s.commitment.Some? == s.rNode.Some?
    && (s.commitment.Some? ==> |s.commitment.value| == 32 && |s.rNode.value| == 32)
  }

  function StepChallenge(n: NodeSide, s: Loop, inp: Input, hex: string): (Loop, string) {
    match Decode32(hex)
    case None => (s, "err: invalid commitment")
    case Some(c) =>
      if inp.random.None? then (Loop(Some(c), Some(seq(32, _ => 0)), Ended), "err: internal error")
      else (s.(commitment := Some(c), rNode := inp.random), "challenge-response " + Encode(inp.random.value))
  }

  function StepVerify(n: NodeSide, s: Loop, hex: string): (Loop, string)
    requires Consistent(s)
  {
    if s.commitment.None? || s.rNode.None? then (s, "err: no challenge in progress")
    else match Decode32(hex)
      case None => (s, "err: invalid opening")
      case Some(rClient) =>
        (s.(commitment := None, rNode := None),
         if n.c.sha256(rClient) != s.commitment.value then "err: commitment mismatch"
         else ProofText(n, rClient, s.rNode.value))
  }

  function StepConnect(n: NodeSide, s: Loop, inp: Input, svcName: string): (Loop, string) {
    if svcName !in n.services then (s.(mode := Ended), "err: unknown service " + n.quote(svcName))
    else if inp.dial.Some? then (s.(mode := Ended), "err: dial failed: " + inp.dial.value)
    else (s.(mode := Piping(n.services[svcName])), "ok")
  }

  /** The new state and the one reply. */
  ghost function Step(n: NodeSide, s: Loop, inp: Input): (Loop, string)
    requires Consistent(s)
  {
    var text := Command(inp);
    if text == "ping" then (s, "pong")
    else if text == "list" then (s, n.json(Names(n.services.Keys)))
    else if HasPrefix(text, "challenge ") then StepChallenge(n, s, inp, Argument(text, "challenge "))
    else if HasPrefix(text, "verify ") then StepVerify(n, s, Argument(text, "verify "))
    else if HasPrefix(text, "connect ") then StepConnect(n, s, inp, Argument(text, "connect "))
    else (s, "err: unknown command " + n.quote(text))
  }

  lemma StepConsistent(n: NodeSide, s: Loop, inp: Input)
    requires Consistent(s)
    ensures Consistent(Step(n, s, inp).0)
  {
  }

  /** The body of the loop, on its variables. */
  method Handle(n: NodeSide, s: Loop, inp: Input) returns (s': Loop, reply: string)
    requires IsNode(n) && Consistent(s)
    ensures (s', reply) == Step(n, s, inp)
    ensures Consistent(s')
    ensures Command(inp) == "list" ==>
              s' == s && exists names ::
                Ascending(names) && multiset(names) == multiset(n.services.Keys) && reply == n.json(names)
  {
    StepConsistent(n, s, inp);
    var text := Command(inp);
    var commitment, rNode, mode := s.commitment, s.rNode, s.mode;
    if text == "ping" {
      reply := "pong";
    } else if text == "list" {
      var names := SortedKeys(n.services.Keys);
      reply := n.json(names);
      assert Ascending(names) && multiset(names) == multiset(n.services.Keys);
    } else if HasPrefix(text, "challenge ") {
      var c := Decode32(text[|"challenge "|..]);
      if c.None? {
        reply := "err: invalid commitment";
      } else {
        commitment := c;
        if inp.random.None? {
          rNode, mode := Some(seq(32, _ => 0)), Ended;
          reply := "err: internal error";
        } else {
          rNode := inp.random;
          reply := "challenge-response " + Encode(inp.random.value);
        }
      }
    } else if HasPrefix(text, "verify ") {
      if commitment.None? || rNode.None? {
        reply := "err: no challenge in progress";
      } else {
        var rClient := Decode32(text[|"verify "|..]);
        if rClient.None? {
          reply := "err: invalid opening";
        } else {
          var check := n.c.sha256(rClient.value);
          if check != commitment.value {
            reply := "err: commitment mismatch";
          } else {
            var joint := XorBytes(rClient.value, rNode.value);
            var sig := n.c.sign(n.key, ChallengePayload(joint));
            reply := "proof " + Encode(n.c.publicKey(n.key)) + " " + Encode(sig);
          }
          commitment, rNode := None, None;
        }
      }
    } else if HasPrefix(text, "connect ") {
      var svcName := text[|"connect "|..];
      if svcName !in n.services {
        reply, mode := "err: unknown service " + n.quote(svcName), Ended;
      } else if inp.dial.Some? {
        reply, mode := "err: dial failed: " + inp.dial.value, Ended;
      } else {
        reply, mode := "ok", Piping(n.services[svcName]);
      }
    } else {
      reply := "err: unknown command " + n.quote(text);
    }
    s' := Loop(commitment, rNode, mode);
  }

  // ---- What each command gets -------------------------------------------------------------------

  /** A ping and an unknown command leave everything as it was, and the loop goes on. */
  lemma OtherReplies(n: NodeSide, s: Loop, inp: Input)
    requires Consistent(s)
    ensures Command(inp) == "ping" ==> Step(n, s, inp) == (s, "pong")
    ensures var text := Command(inp);
            text != "ping" && text != "list" && !HasPrefix(text, "challenge ") && !HasPrefix(text, "verify ")
            && !HasPrefix(text, "connect ") ==>
              Step(n, s, inp) == (s, "err: unknown command " + n.quote(text))
  {
  }

  /** A challenge is taken if it is 32 bytes in hexadecimal, whatever was in progress, and is
      answered with the random bytes; without random bytes the loop ends. */
  lemma ChallengeReplies(n: NodeSide, s: Loop, inp: Input, hex: string)
    requires Consistent(s) && Command(inp) == "challenge " + hex
    ensures var (s', reply) := Step(n, s, inp);
            if Decode(hex).None? || |Decode(hex).value| != 32 then s' == s && reply == "err: invalid commitment"
            else if inp.random.None? then s'.mode.Ended? && reply == "err: internal error"
            else
              && s' == Loop(Decode(hex), inp.random, s.mode)
              && reply == "challenge-response " + Encode(inp.random.value)
  {
    TextAfter("challenge ", hex);
    assert Command(inp)[0] == 'c';
  }

  lemma TextAfter(verb: string, rest: string)
    ensures HasPrefix(verb + rest, verb) && Argument(verb + rest, verb) == rest
  {
  }

  /** An opening is answered with a proof if it is the one committed to. */
  lemma OpeningReplies(n: NodeSide, s: Loop, inp: Input, hex: string)
    requires Consistent(s) && Command(inp) == "verify " + hex
    ensures var (s', reply) := Step(n, s, inp);
            if s.commitment.None? then s' == s && reply == "err: no challenge in progress"
            else if Decode(hex).None? || |Decode(hex).value| != 32 then s' == s && reply == "err: invalid opening"
            else
              && s' == Loop(None, None, s.mode)
              && reply == if n.c.sha256(Decode(hex).value) != s.commitment.value then "err: commitment mismatch"
                          else "proof " + Encode(n.c.publicKey(n.key)) + " "
                               + Encode(n.c.sign(n.key, ChallengePayload(XorAll(Decode(hex).value, s.rNode.value))))
  {
    TextAfter("verify ", hex);
    assert Command(inp)[0] == 'v';
  }

  /** A connect command always ends the loop: in the bridge, or with an error. */
  lemma ConnectReplies(n: NodeSide, s: Loop, inp: Input, name: string)
    requires Consistent(s) && Command(inp) == "connect " + name
    ensures var (s', reply) := Step(n, s, inp);
            && s'.mode == (if name in n.services && inp.dial.None? then Piping(n.services[name]) else Ended)
            && reply == if name !in n.services then "err: unknown service " + n.quote(name)
                        else if inp.dial.Some? then "err: dial failed: " + inp.dial.value
                        else "ok"
  {
    TextAfter("connect ", name);
    assert Command(inp)[0] == 'c' && Command(inp)[1] == 'o';
  }

  /** Line breaks after a command do not matter. */
  lemma LineBreaksIgnored(inp: Input, text: string, breaks: string)
    requires Text(inp.raw) == text + breaks && (forall c <- breaks :: c == '\r' || c == '\n')
    requires text == "" || (text[|text| - 1] != '\r' && text[|text| - 1] != '\n')
    ensures Command(inp) == text
  {
    TrimNewlinesIdle(text);
    TrimsAll(breaks);
    if text == "" { assert text + breaks == breaks; } else { TrimAfter(text, breaks); }
  }

  // ---- The loop ---------------------------------------------------------------------------------

  /** The loop's variables after it was offered the first `k` messages. */
  ghost function After(n: NodeSide, inputs: seq<Input>, k: nat): (s: Loop)
    requires k <= |inputs|
    ensures Consistent(s)
  {
    if k == 0 then START
    else
      var s := After(n, inputs, k - 1);
      StepConsistent(n, s, inputs[k - 1]);
      if s.mode.Commands? then Step(n, s, inputs[k - 1]).0 else s
  }

  /** The loop is still running when message `k` comes. */
  ghost predicate Listening(n: NodeSide, inputs: seq<Input>, k: nat)
    requires k <= |inputs|
  {
    After(n, inputs, k).mode.Commands?
  }

  ghost function Reply(n: NodeSide, inputs: seq<Input>, k: nat): string
    requires k < |inputs| && Listening(n, inputs, k)
  {
    Step(n, After(n, inputs, k), inputs[k]).1
  }

  lemma {:induction false} ListeningBefore(n: NodeSide, inputs: seq<Input>, j: nat, k: nat)
    requires j <= k <= |inputs| && Listening(n, inputs, k)
    ensures Listening(n, inputs, j)
  {
    if j < k { ListeningBefore(n, inputs, j, k - 1); }
  }

  /** The whole loop on the messages that ever arrive (the queue is closed after the last).
      Returns the replies, the mode it ends in and how many messages it took: the others are
      left in the queue. */
  method Serve(n: NodeSide, inputs: seq<Input>) returns (sent: seq<string>, mode: Mode, taken: nat)
    requires IsNode(n)
    ensures taken <= |inputs| && |sent| == taken && mode == After(n, inputs, taken).mode
    ensures forall k: nat :: k < taken ==> Listening(n, inputs, k) && sent[k] == Reply(n, inputs, k)
    ensures mode.Commands? ==> taken == |inputs|
  {
    var s := START;
    sent, taken := [], 0;
    while taken < |inputs| && s.mode.Commands?
      invariant taken <= |inputs| && |sent| == taken && s == After(n, inputs, taken)
      invariant forall k: nat :: k < taken ==> Listening(n, inputs, k) && sent[k] == Reply(n, inputs, k)
    {
      var reply;
      s, reply := Handle(n, s, inputs[taken]);
      sent := sent + [reply];
      taken := taken + 1;
    }
    mode := s.mode;
  }
}
