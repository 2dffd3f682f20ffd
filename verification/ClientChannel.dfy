/**
 The client's side of a data channel: class Channel of client/src/index.ts, and its composition
 with the node's command loop.

 One command is outstanding at a time and no reply is late: the next message after a command
 is its reply.
 */
module ClientChannel {
  import opened Options
  import opened Bytes
  import opened Strings
  import opened Hex
  import opened Cryptography
  import opened NodeIds
  import opened CommandLoop
  import opened Sorting

  // ---- Reading the replies ----------------------------------------------------------------

  datatype Reason =
    | NoSubtle | UnexpectedChallengeResponse | InvalidChallengeHex | WrongLength(len: nat)
    | UnexpectedVerifyResponse | MalformedProof(parts: nat) | InvalidProofHex
    | CryptoError | SignatureInvalid | NodeIdMismatch(derived: string)

  datatype VerifyResult = Verified(nodeId: string, pubkey: string) | Failed(reason: Reason)

  datatype Result<+T> = Ok(value: T) | Err(reason: Reason)

  /** The node's random number in the reply to a challenge command. */
  function ReadChallenge(resp: string): Result<bytes> {
    if !HasPrefix(resp, "challenge-response ") then Err(UnexpectedChallengeResponse)
    else match FromHexOf(Trim(resp[|"challenge-response "|..]))
      case None => Err(InvalidChallengeHex)
      case Some(rNode) => if |rNode| != 32 then Err(WrongLength(|rNode|)) else Ok(rNode)
  }

  datatype Proof = Proof(pubkeyHex: string, pubkey: bytes, sig: bytes)

  function ReadProof(resp: string): Result<Proof> {
    if !HasPrefix(resp, "proof ") then Err(UnexpectedVerifyResponse)
    else
      var parts := Split(Trim(resp));
      if |parts| != 3 then Err(MalformedProof(|parts|))
      else
        var pubkey, sig := FromHexOf(parts[1]), FromHexOf(parts[2]);
        if pubkey.None? || sig.None? then Err(InvalidProofHex) else Ok(Proof(parts[1], pubkey.value, sig.value))
  }

  /** The client's own copy of the prefix. */
  const SIGNED_PREFIX := "rtc-bridge:dc-challenge:"

  /** What the client expects to be signed. */
  function SignedMessage(joint: bytes): bytes {
    Ascii(SIGNED_PREFIX) + joint
  }

  /** Client and node put the same bytes before the joint value. */
  lemma PrefixesAgree(joint: bytes)
    ensures SignedMessage(joint) == ChallengePayload(joint)
  {
  }

  /** What verifyIdentity makes of a proof; importing a key of another length throws. */
  function Judge(c: Crypto, nodeId: string, rClient: bytes32, rNode: bytes32, proof: Proof): VerifyResult {
    if |proof.pubkey| != 32 then Failed(CryptoError)
    else if !c.verify(proof.pubkey, SignedMessage(XorAll(rClient, rNode)), proof.sig) then Failed(SignatureInvalid)
    else if NodeID(c, proof.pubkey) != nodeId then Failed(NodeIdMismatch(NodeID(c, proof.pubkey)))
    else Verified(nodeId, proof.pubkeyHex)
  }

  /** The result from both replies. */
  function Verdict(c: Crypto, nodeId: string, rClient: bytes32, resp1: string, resp2: string): VerifyResult {
    match ReadChallenge(resp1)
    case Err(reason) => Failed(reason)
    case Ok(rNode) =>
      match ReadProof(resp2)
      case Err(reason) => Failed(reason)
      case Ok(proof) => Judge(c, nodeId, rClient, rNode, proof)
  }

  /** Whatever the peer replies: the client is satisfied exactly if the replies give a number and a
      proof of 32 bytes each, the expected id is that of the key in the proof, and the proof's
      signature is one by that key of this client's number xor the peer's. */
  lemma VerifiedMeansSigned(c: Crypto, nodeId: string, rClient: bytes32, resp1: string, resp2: string)
    ensures Verdict(c, nodeId, rClient, resp1, resp2).Verified? <==>
              && ReadChallenge(resp1).Ok? && ReadProof(resp2).Ok?
              && var proof := ReadProof(resp2).value;
                 && |proof.pubkey| == 32 && NodeID(c, proof.pubkey) == nodeId
                 && c.verify(proof.pubkey, SignedMessage(XorAll(rClient, ReadChallenge(resp1).value)), proof.sig)
    ensures var r := Verdict(c, nodeId, rClient, resp1, resp2);
            r.Verified? ==> r.nodeId == nodeId && FromHexOf(r.pubkey) == Some(ReadProof(resp2).value.pubkey)
  {
  }

  lemma SignedMessageInjective(a: bytes, b: bytes)
    requires SignedMessage(a) == SignedMessage(b)
    ensures a == b
  {
    var n := |Ascii(SIGNED_PREFIX)|;
    assert SignedMessage(a)[n..] == a && SignedMessage(b)[n..] == b;
  }

  /** A proof is good for one joint value.  If one proof satisfies two clients, its signature
      verifies on both their messages; and these are the same message only if the peer's numbers
      differ exactly as the clients' do.  So a peer that gave both the same number, which it has to
      choose before it sees theirs, needs a signature that verifies on two messages. */
  lemma ProofBindsChallenge(c: Crypto, nodeId: string, a: bytes32, b: bytes32,
                            respA: string, respB: string, proof: string)
    requires Verdict(c, nodeId, a, respA, proof).Verified? && Verdict(c, nodeId, b, respB, proof).Verified?
    ensures var p := ReadProof(proof).value;
            var msgA := SignedMessage(XorAll(a, ReadChallenge(respA).value));
            var msgB := SignedMessage(XorAll(b, ReadChallenge(respB).value));
            && c.verify(p.pubkey, msgA, p.sig) && c.verify(p.pubkey, msgB, p.sig)
            && (msgA == msgB <==> XorAll(a, b) == XorAll(ReadChallenge(respA).value, ReadChallenge(respB).value))
            && (respA == respB && a != b ==> msgA != msgB)
  {
    VerifiedMeansSigned(c, nodeId, a, respA, proof);
    VerifiedMeansSigned(c, nodeId, b, respB, proof);
    var x, y := ReadChallenge(respA).value, ReadChallenge(respB).value;
    if SignedMessage(XorAll(a, x)) == SignedMessage(XorAll(b, y)) {
      SignedMessageInjective(XorAll(a, x), XorAll(b, y));
    }
    XorExchange(a, x, b, y);
    XorAllCancels(a, x);
    XorAllCancels(b, x);
  }

  // ---- The text both sides exchange -------------------------------------------------------

  lemma HexHasNoSpace(s: string)
    requires AllHex(s)
    ensures NoSpace(s) && IsAscii(s)
  {
  }

  lemma EncodeIsHex(b: bytes)
    ensures AllHex(Encode(b)) && Decode(Encode(b)) == Some(b) && FromHexOf(Encode(b)) == Some(b)
    ensures NoSpace(Encode(b)) && IsAscii(Encode(b))
  {
    DecodeEncode(b);
    DecodesExactly(Encode(b));
    AgreesOnHex(Encode(b));
    HexHasNoSpace(Encode(b));
  }

  lemma ReadsChallenge(rNode: bytes32)
    ensures ReadChallenge("challenge-response " + Encode(rNode)) == Ok(rNode)
  {
    var hex := Encode(rNode);
    EncodeIsHex(rNode);
    assert hex[0] in hex && hex[|hex| - 1] in hex;
    TrimIdle(hex);
    assert ("challenge-response " + hex)[|"challenge-response "|..] == hex;
  }

  lemma ReadsProof(pub: bytes, sig: bytes)
    requires |sig| > 0
    ensures ReadProof("proof " + Encode(pub) + " " + Encode(sig)) == Ok(Proof(Encode(pub), pub, sig))
  {
    EncodeIsHex(pub);
    EncodeIsHex(sig);
    SplitsInThree(Encode(pub), Encode(sig));
    assert HasPrefix("proof " + Encode(pub) + " " + Encode(sig), "proof ");
  }

  /** White space around the number does not matter. */
  lemma ReadsPaddedChallenge(rNode: bytes32, before: string, after: string)
    requires (forall c <- before :: IsSpace(c)) && (forall c <- after :: IsSpace(c))
    ensures ReadChallenge("challenge-response " + before + Encode(rNode) + after) == Ok(rNode)
  {
    var hex, verb := Encode(rNode), "challenge-response ";
    EncodeIsHex(rNode);
    assert hex[0] in hex && hex[|hex| - 1] in hex;
    TrimsSpace(before, hex, after);
    assert verb + before + hex + after == verb + (before + hex + after);
    TextAfter(verb, before + hex + after);
  }

  /** And neither does white space after the proof. */
  lemma ReadsPaddedProof(resp: string, after: string)
    requires HasPrefix(resp, "proof ") && !IsSpace(resp[|resp| - 1]) && forall c <- after :: IsSpace(c)
    ensures ReadProof(resp + after) == ReadProof(resp)
  {
    assert resp[0] == 'p';
    TrimsSpace("", resp, after);
    TrimsSpace("", resp, "");
    assert "" + resp + after == resp + after && "" + resp + "" == resp;
  }

  /** The replies that are read: a challenge reply is its verb and 32 bytes in what the client takes
      for hexadecimal, and a proof its verb and two such texts between single blanks. */
  lemma AcceptedForms(resp: string, rest: string)
    ensures ReadChallenge(resp).Ok? ==> "challenge-response " <= resp
    ensures ReadProof(resp).Ok? ==> "proof " <= resp
    ensures var r, hex := ReadChallenge("challenge-response " + rest), FromHexOf(Trim(rest));
            && (r.Ok? <==> hex.Some? && |hex.value| == 32)
            && (r.Ok? ==> Some(r.value) == hex)
            && (r == Err(InvalidChallengeHex) <==> hex.None?)
    ensures var r, parts := ReadProof("proof " + rest), Split(Trim("proof " + rest));
            && (r.Ok? <==> |parts| == 3 && FromHexOf(parts[1]).Some? && FromHexOf(parts[2]).Some?)
            && (r.Ok? ==> r.value.pubkeyHex == parts[1] && Some(r.value.pubkey) == FromHexOf(parts[1])
                          && Some(r.value.sig) == FromHexOf(parts[2]))
            && (r.Err? ==> r.reason == if |parts| != 3 then MalformedProof(|parts|) else InvalidProofHex)
  {
    TextAfter("challenge-response ", rest);
    TextAfter("proof ", rest);
  }

  /** Why a verification fails, when both replies have the right form. */
  lemma FailureReasons(c: Crypto, nodeId: string, rClient: bytes32, resp1: string, resp2: string)
    requires ReadChallenge(resp1).Ok? && ReadProof(resp2).Ok?
    ensures var p, r := ReadProof(resp2).value, Verdict(c, nodeId, rClient, resp1, resp2);
            var signed := SignedMessage(XorAll(rClient, ReadChallenge(resp1).value));
            && (r == Failed(CryptoError) <==> |p.pubkey| != 32)
            && (r == Failed(SignatureInvalid) <==> |p.pubkey| == 32 && !c.verify(p.pubkey, signed, p.sig))
            && (r == Failed(NodeIdMismatch(NodeID(c, p.pubkey))) <==>
                  |p.pubkey| == 32 && c.verify(p.pubkey, signed, p.sig) && NodeID(c, p.pubkey) != nodeId)
            && (r.Verified? <==> |p.pubkey| == 32 && c.verify(p.pubkey, signed, p.sig) && NodeID(c, p.pubkey) == nodeId)
  {
  }

  lemma SplitsInThree(p: string, s: string)
    requires NoSpace(p) && NoSpace(s) && s != ""
    ensures Split(Trim("proof " + p + " " + s)) == ["proof", p, s]
  {
    var resp := "proof " + p + " " + s;
    assert s[|s| - 1] in s && resp[|resp| - 1] == s[|s| - 1];
    TrimIdle(resp);
    assert resp == "proof" + " " + (p + " " + s);
    SplitWord("proof", p + " " + s);
    SplitWord(p, s);
    SplitLast(s);
  }

  /** A command of a verb and hexadecimal text reaches the node unchanged. */
  lemma CommandArrives(verb: string, b: bytes32, inp: Input)
    requires IsAscii(verb) && inp.raw == Ascii(CommandText(verb, b))
    ensures Command(inp) == verb + Encode(b)
    ensures Decode32(Argument(Command(inp), verb)) == Some(b)
  {
    EncodeIsHex(b);
    ToHexIsEncode(b);
    var text := CommandText(verb, b);
    var hex := Encode(b);
    assert text == verb + hex;
    TextOfAscii(text);
    assert text[|text| - 1] == hex[|hex| - 1] && hex[|hex| - 1] in hex;
    assert text[|verb|..] == hex;
  }

  function CommandText(verb: string, b: bytes32): (s: string)
    requires IsAscii(verb)
    ensures IsAscii(s)
  {
    ToHexIsEncode(b);
    EncodeIsHex(b);
    verb + ToHex(b)
  }

  // ---- The round trip ---------------------------------------------------------------------

  lemma ChallengeStep(n: NodeSide, s: Loop, rClient: bytes32, rNode: bytes32, inp: Input)
    requires IsNode(n) && Consistent(s) && s.mode.Commands?
    requires inp.raw == Ascii(CommandText("challenge ", n.c.sha256(rClient))) && inp.random == Some(rNode)
    ensures Step(n, s, inp) ==
              (Loop(Some(n.c.sha256(rClient)), Some(rNode), Commands), "challenge-response " + Encode(rNode))
  {
    CommandArrives("challenge ", n.c.sha256(rClient), inp);
    assert Command(inp)[0] == 'c';
  }

  lemma VerifyStep(n: NodeSide, rClient: bytes32, rNode: bytes32, inp: Input)
    requires IsNode(n) && inp.raw == Ascii(CommandText("verify ", rClient))
    ensures Step(n, Loop(Some(n.c.sha256(rClient)), Some(rNode), Commands), inp) ==
              (Loop(None, None, Commands), ProofText(n, rClient, rNode))
  {
    CommandArrives("verify ", rClient, inp);
    VerifyDispatch(n, Loop(Some(n.c.sha256(rClient)), Some(rNode), Commands), inp);
    OpeningSucceeds(n, rClient, rNode, Argument(Command(inp), "verify "));
  }

  lemma VerifyDispatch(n: NodeSide, s: Loop, inp: Input)
    requires Consistent(s) && HasPrefix(Command(inp), "verify ")
    ensures Step(n, s, inp) == StepVerify(n, s, Argument(Command(inp), "verify "))
  {
    assert Command(inp)[0] == 'v';
  }

  lemma OpeningSucceeds(n: NodeSide, rClient: bytes32, rNode: bytes32, hex: string)
    requires IsNode(n) && Decode32(hex) == Some(rClient)
    ensures StepVerify(n, Loop(Some(n.c.sha256(rClient)), Some(rNode), Commands), hex) ==
              (Loop(None, None, Commands), ProofText(n, rClient, rNode))
  {
  }

  /** An honest client verifies an honest node, for every key and both random numbers, and under
      Go's id of that key; and it accepts no other expected id. */
  lemma RoundTrip(n: NodeSide, s: Loop, nodeId: string, rClient: bytes32, rNode: bytes32, in1: Input, in2: Input)
    requires IsNode(n) && Consistent(s) && s.mode.Commands?
    requires in1.raw == Ascii(CommandText("challenge ", n.c.sha256(rClient))) && in1.random == Some(rNode)
    requires in2.raw == Ascii(CommandText("verify ", rClient))
    ensures var (s1, resp1) := Step(n, s, in1);
            var pub := n.c.publicKey(n.key);
            && Consistent(s1)
            && Verdict(n.c, nodeId, rClient, resp1, Step(n, s1, in2).1) ==
                 if nodeId == NodeID(n.c, pub) then Verified(nodeId, Encode(pub))
                 else Failed(NodeIdMismatch(NodeID(n.c, pub)))
  {
    ChallengeStep(n, s, rClient, rNode, in1);
    VerifyStep(n, rClient, rNode, in2);
    ReadsChallenge(rNode);
    PrefixesAgree(XorAll(rClient, rNode));
    ReadsProof(n.c.publicKey(n.key), n.c.sign(n.key, ChallengePayload(XorAll(rClient, rNode))));
  }

  // ---- The objects ------------------------------------------------------------------------

  /** The node's end of the data channel. */
  class NodePeer {
    const n: NodeSide
    var loop: Loop

    ghost predicate Valid()
      reads this
    {
      IsNode(n) && Consistent(loop)
    }

    constructor (n: NodeSide)
      requires IsNode(n)
      ensures Valid() && this.n == n && loop == START
    {
      this.n := n;
      loop := START;
    }

    /** A message arrives; outside command mode it goes to the bridge, or nowhere. */
    method Receive(inp: Input) returns (reply: Option<string>)
      requires Valid()
      modifies this
      ensures Valid()
      ensures if old(loop).mode.Commands?
              then (loop, reply) == (Step(n, old(loop), inp).0, Some(Step(n, old(loop), inp).1))
              else loop == old(loop) && reply == None
    {
      if !loop.mode.Commands? { return None; }
      var text;
      loop, text := Handle(n, loop, inp);
      reply := Some(text);
    }
  }

  /** How JavaScript strings travel: UTF-8, of which only this is used: ASCII text is unchanged,
      so is an ASCII first character, and an ASCII prefix is encoded apart from the rest. */
  datatype Codec = Codec(encode: string -> bytes, decode: string -> string)

  ghost predicate KeepsAscii(u: Codec, s: string) {
    IsAscii(s) ==> u.encode(s) == Ascii(s) && u.decode(s) == s
  }

  ghost predicate KeepsFirst(u: Codec, s: string) {
    s != "" && s[0] as int < 128 ==> u.decode(s) != "" && u.decode(s)[0] == s[0]
  }

  ghost predicate KeepsPrefix(u: Codec, a: string, s: string) {
    IsAscii(a) ==> u.encode(a + s) == Ascii(a) + u.encode(s)
  }

  ghost predicate IsUtf8(u: Codec) {
    && (forall s: string :: KeepsAscii(u, s))
    && (forall s: string :: KeepsFirst(u, s))
    && (forall a: string, s: string :: KeepsPrefix(u, a, s))
  }

  /** Only a successful connect is answered with "ok", and no other reply begins like it. */
  lemma RepliesWithOk(n: NodeSide, s: Loop, inp: Input)
    requires IsNode(n) && Consistent(s) && s.mode.Commands?
    ensures var (s', reply) := Step(n, s, inp);
            && reply != "" && reply[0] as int < 128
            && (s'.mode.Piping? ==> reply == "ok")
            && (!s'.mode.Piping? ==> reply[0] != 'o')
  {
    var text := Command(inp);
    var (s', reply) := Step(n, s, inp);
    if text == "list" {
      assert HasPrefix(n.json(Names(n.services.Keys)), "[") && reply[0] == '[';
    } else if text == "ping" {
      assert reply[0] == 'p';
    } else if HasPrefix(text, "challenge ") {
      assert reply[0] == 'e' || reply[0] == 'c';
    } else if HasPrefix(text, "verify ") {
      assert reply[0] == 'e' || reply[0] == 'p';
    } else if HasPrefix(text, "connect ") {
      assert reply == "ok" || reply[0] == 'e';
    } else {
      assert reply[0] == 'e';
    }
  }

  /** The name under which the node looks a service up. */
  function ServiceName(u: Codec, service: string): string {
    TrimNewlines(Text(u.encode(service)))
  }

  lemma ConnectArrives(u: Codec, service: string, inp: Input)
    requires IsUtf8(u) && inp.raw == u.encode("connect " + service)
    ensures Command(inp) == "connect " + ServiceName(u, service)
  {
    var verb, rest := "connect ", u.encode(service);
    assert IsAscii(verb) && KeepsPrefix(u, verb, service);
    TextOfAscii(verb);
    assert Text(Ascii(verb) + rest) == Text(Ascii(verb)) + Text(rest);
    TrimNewlinesIdle(verb);
    TrimAfter(verb, Text(rest));
  }

  lemma ConnectDispatch(n: NodeSide, s: Loop, name: string, inp: Input)
    requires IsNode(n) && Consistent(s) && Command(inp) == "connect " + name
    ensures Step(n, s, inp).0.mode ==
              if name in n.services && inp.dial.None? then Piping(n.services[name]) else Ended
  {
    var text := Command(inp);
    assert text[0] == 'c' && text[1] == 'o' && text[|"connect "|..] == name;
  }

  lemma ConnectStep(n: NodeSide, s: Loop, u: Codec, service: string, dial: Option<string>)
    requires IsNode(n) && Consistent(s) && IsUtf8(u)
    ensures var name := ServiceName(u, service);
            Step(n, s, Input(u.encode("connect " + service), None, dial)).0.mode ==
              if name in n.services && dial.None? then Piping(n.services[name]) else Ended
  {
    var inp := Input(u.encode("connect " + service), None, dial);
    ConnectArrives(u, service, inp);
    ConnectDispatch(n, s, ServiceName(u, service), inp);
  }

  /** ASCII names that do not end with a line break are looked up unchanged. */
  lemma PlainServiceName(u: Codec, service: string)
    requires IsUtf8(u) && IsAscii(service) && TrimNewlines(service) == service
    ensures ServiceName(u, service) == service
  {
    assert KeepsAscii(u, service);
    TextOfAscii(service);
  }

  /** A list of names as the client receives it: each name is decoded from UTF-8. */
  function Received(u: Codec, names: seq<string>): seq<string> {
    seq(|names|, i requires 0 <= i < |names| => u.decode(names[i]))
  }

  ghost predicate Parses(n: NodeSide, u: Codec, parse: string -> Option<seq<string>>, names: seq<string>) {
    parse(u.decode(n.json(names))) == Some(Received(u, names))
  }

  /** JSON.parse inverts the node's JSON encoding of lists. */
  ghost predicate ParsesLists(n: NodeSide, u: Codec, parse: string -> Option<seq<string>>) {
    forall names: seq<string> :: Parses(n, u, parse, names)
  }

  lemma ListStep(n: NodeSide, s: Loop, u: Codec)
    requires IsUtf8(u) && Consistent(s)
    ensures Step(n, s, Input(u.encode("list"), None, None)) == (s, n.json(Names(n.services.Keys)))
  {
    assert KeepsAscii(u, "list") && IsAscii("list");
    TextOfAscii("list");
    assert Command(Input(u.encode("list"), None, None)) == "list";
  }

  lemma PingStep(n: NodeSide, s: Loop, u: Codec)
    requires IsUtf8(u) && Consistent(s)
    ensures Step(n, s, Input(u.encode("ping"), None, None)) == (s, "pong") && u.decode("pong") == "pong"
  {
    assert KeepsAscii(u, "ping") && KeepsAscii(u, "pong") && IsAscii("ping") && IsAscii("pong");
    TextOfAscii("ping");
    assert Command(Input(u.encode("ping"), None, None)) == "ping";
  }

  lemma ConcatIsAscii(a: string, b: string)
    requires IsAscii(a) && IsAscii(b)
    ensures IsAscii(a + b)
  {
  }

  lemma DecodesConcat(u: Codec, a: string, b: string)
    requires IsUtf8(u) && IsAscii(a) && IsAscii(b)
    ensures u.decode(a + b) == a + b
  {
    ConcatIsAscii(a, b);
    assert KeepsAscii(u, a + b);
  }

  lemma ReadsDecodedChallenge(u: Codec, rNode: bytes32)
    requires IsUtf8(u)
    ensures ReadChallenge(u.decode("challenge-response " + Encode(rNode))) == Ok(rNode)
  {
    EncodeIsHex(rNode);
    DecodesConcat(u, "challenge-response ", Encode(rNode));
    ReadsChallenge(rNode);
  }

  /** The proof an honest node gives. */
  ghost function HonestProof(n: NodeSide, rClient: bytes32, rNode: bytes32): Proof {
    var pub := n.c.publicKey(n.key);
    Proof(Encode(pub), pub, n.c.sign(n.key, ChallengePayload(XorAll(rClient, rNode))))
  }

  lemma DecodesProof(n: NodeSide, u: Codec, rClient: bytes32, rNode: bytes32)
    requires IsUtf8(u)
    ensures u.decode(ProofText(n, rClient, rNode)) == ProofText(n, rClient, rNode)
  {
    var pub, sig := n.c.publicKey(n.key), n.c.sign(n.key, ChallengePayload(XorAll(rClient, rNode)));
    EncodeIsHex(pub);
    EncodeIsHex(sig);
    ConcatIsAscii("proof ", Encode(pub));
    ConcatIsAscii("proof " + Encode(pub), " ");
    ConcatIsAscii("proof " + Encode(pub) + " ", Encode(sig));
    assert KeepsAscii(u, ProofText(n, rClient, rNode));
  }

  lemma ReadsHonestProof(n: NodeSide, u: Codec, rClient: bytes32, rNode: bytes32)
    requires IsNode(n) && IsUtf8(u)
    ensures ReadProof(u.decode(ProofText(n, rClient, rNode))) == Ok(HonestProof(n, rClient, rNode))
  {
    DecodesProof(n, u, rClient, rNode);
    ReadsProof(n.c.publicKey(n.key), n.c.sign(n.key, ChallengePayload(XorAll(rClient, rNode))));
  }

  /** None is a rejected promise: the channel is in pipe mode, or the wait timed out. */
  class Channel {
    const nodeId: string
    const peer: NodePeer
    const u: Codec
    var connected: bool

    /** The client is in pipe mode exactly if the node is. */
    ghost predicate Valid()
      reads this, peer
    {
      peer.Valid() && IsUtf8(u) && (connected <==> peer.loop.mode.Piping?)
    }

    constructor (peer: NodePeer, nodeId: string, u: Codec)
      requires peer.Valid() && !peer.loop.mode.Piping? && IsUtf8(u)
      ensures Valid() && !connected && this.peer == peer && this.nodeId == nodeId && this.u == u
    {
      this.peer, this.nodeId, this.u := peer, nodeId, u;
      connected := false;
    }

    /** `random` and `dial` are the node's environment, should it ask. */
    method SendCmd(cmd: string, random: Option<bytes32>, dial: Option<string>) returns (resp: Option<string>)
      requires Valid()
      modifies peer
      ensures peer.Valid()
      ensures if !connected && old(peer.loop).mode.Commands?
              then var (s', reply) := Step(peer.n, old(peer.loop), Input(u.encode(cmd), random, dial));
                   peer.loop == s' && resp == Some(u.decode(reply))
              else peer.loop == old(peer.loop) && resp == None
    {
      if connected { return None; }
      var reply := peer.Receive(Input(u.encode(cmd), random, dial));
      resp := if reply.None? then None else Some(u.decode(reply.value));
    }

    /** connect: it succeeds exactly if the node has turned into a pipe. */
    method Connect(service: string, dial: Option<string>) returns (ok: bool)
      requires Valid()
      modifies this, peer
      ensures Valid() && (ok <==> connected && !old(connected))
      ensures old(connected) ==> !ok && peer.loop == old(peer.loop)
      ensures !old(connected) && old(peer.loop).mode.Commands? ==>
                var name := ServiceName(u, service);
                && (ok <==> name in peer.n.services && dial.None?)
                && peer.loop.mode == if ok then Piping(peer.n.services[name]) else Ended
    {
      var was := connected;
      ConnectStep(peer.n, peer.loop, u, service, dial);
      if !was && peer.loop.mode.Commands? {
        var inp := Input(u.encode("connect " + service), None, dial);
        RepliesWithOk(peer.n, peer.loop, inp);
        assert KeepsFirst(u, Step(peer.n, peer.loop, inp).1) && KeepsAscii(u, "ok") && IsAscii("ok");
      }
      var resp := SendCmd("connect " + service, None, dial);
      ok := resp == Some("ok");
      if ok { connected := true; }
    }

    /** ping. */
    method Ping() returns (ok: bool)
      requires Valid()
      modifies peer
      ensures Valid() && peer.loop == old(peer.loop)
      ensures ok <==> peer.loop.mode.Commands?
    {
      PingStep(peer.n, peer.loop, u);
      var resp := SendCmd("ping", None, None);
      ok := resp == Some("pong");
    }

    /** list: the client gets the names of the node's services in byte order. */
    method List(parse: string -> Option<seq<string>>) returns (r: Option<seq<string>>)
      requires Valid() && ParsesLists(peer.n, u, parse)
      modifies peer
      ensures Valid() && peer.loop == old(peer.loop)
      ensures r.Some? <==> peer.loop.mode.Commands?
      ensures r.Some? ==> exists names ::
                Ascending(names) && multiset(names) == multiset(peer.n.services.Keys) && r.value == Received(u, names)
    {
      ListStep(peer.n, peer.loop, u);
      var resp := SendCmd("list", None, None);
      if resp.None? { return None; }
      r := parse(resp.value);
      var names := Names(peer.n.services.Keys);
      SortedAscends(names);
      assert Parses(peer.n, u, parse, names);
    }

    /** verifyIdentity's first exchange. */
    method SendChallenge(rClient: bytes32, rNode: bytes32) returns (resp: Option<string>)
      requires Valid() && !connected
      modifies peer
      ensures Valid()
      ensures if old(peer.loop).mode.Commands?
              then peer.loop == Loop(Some(peer.n.c.sha256(rClient)), Some(rNode), Commands)
                   && resp.Some? && ReadChallenge(resp.value) == Ok(rNode)
              else resp == None && peer.loop == old(peer.loop)
    {
      var cmd := CommandText("challenge ", peer.n.c.sha256(rClient));
      assert KeepsAscii(u, cmd);
      if peer.loop.mode.Commands? {
        ChallengeStep(peer.n, peer.loop, rClient, rNode, Input(u.encode(cmd), Some(rNode), None));
      }
      ReadsDecodedChallenge(u, rNode);
      resp := SendCmd(cmd, Some(rNode), None);
    }

    /** Its second exchange. */
    method SendOpening(rClient: bytes32, ghost rNode: bytes32) returns (resp: Option<string>)
      requires Valid() && !connected && peer.loop == Loop(Some(peer.n.c.sha256(rClient)), Some(rNode), Commands)
      modifies peer
      ensures Valid() && peer.loop == Loop(None, None, Commands)
      ensures resp.Some? && ReadProof(resp.value) == Ok(HonestProof(peer.n, rClient, rNode))
    {
      assert KeepsAscii(u, CommandText("verify ", rClient));
      VerifyStep(peer.n, rClient, rNode, Input(u.encode(CommandText("verify ", rClient)), None, None));
      ReadsHonestProof(peer.n, u, rClient, rNode);
      resp := SendCmd(CommandText("verify ", rClient), None, None);
    }

    /** verifyIdentity against the node at the other end. */
    method VerifyIdentity(subtle: bool, rClient: bytes32, rNode: bytes32) returns (r: Option<VerifyResult>)
      requires Valid()
      modifies peer
      ensures Valid()
      ensures var c, pub := peer.n.c, peer.n.c.publicKey(peer.n.key);
              r == if connected then None
                   else if !subtle then Some(Failed(NoSubtle))
                   else if !old(peer.loop).mode.Commands? then None
                   else if nodeId == NodeID(c, pub) then Some(Verified(nodeId, Encode(pub)))
                   else Some(Failed(NodeIdMismatch(NodeID(c, pub))))
      ensures peer.loop == if !connected && subtle && old(peer.loop).mode.Commands?
                           then Loop(None, None, Commands) else old(peer.loop)
    {
      if connected { return None; }
      if !subtle { return Some(Failed(NoSubtle)); }
      var c := peer.n.c;
      var resp1 := SendChallenge(rClient, rNode);
      if resp1.None? { return None; }
      assert ReadChallenge(resp1.value).Ok?;   // this node's replies are well-formed, so it goes on
      var resp2 := SendOpening(rClient, rNode);
      PrefixesAgree(XorAll(rClient, rNode));
      r := VerifyReplies(c, nodeId, rClient, resp1, resp2);
    }
  }

  /** verifyIdentity step by step, on what any peer replies to its two commands; None is a reply
      that does not come.  With both replies the result is their verdict. */
  method VerifyReplies(c: Crypto, nodeId: string, rClient: bytes32, resp1: Option<string>, resp2: Option<string>)
    returns (r: Option<VerifyResult>)
    ensures resp1.None? ==> r == None
    ensures resp1.Some? && ReadChallenge(resp1.value).Err? ==> r == Some(Failed(ReadChallenge(resp1.value).reason))
    ensures resp1.Some? && ReadChallenge(resp1.value).Ok? && resp2.None? ==> r == None
    ensures resp1.Some? && resp2.Some? ==> r == Some(Verdict(c, nodeId, rClient, resp1.value, resp2.value))
  {
    if resp1.None? { return None; }
    var challenge := ParseChallenge(resp1.value);
    if challenge.Err? { return Some(Failed(challenge.reason)); }
    if resp2.None? { return None; }
    var proof := ParseProof(resp2.value);
    if proof.Err? { return Some(Failed(proof.reason)); }
    var verdict := JudgeProof(c, nodeId, rClient, challenge.value, proof.value);
    r := Some(verdict);
  }

  /** The checks on the reply to the challenge. */
  method ParseChallenge(resp: string) returns (r: Result<bytes>)
    ensures r == ReadChallenge(resp) && (r.Ok? ==> |r.value| == 32)
  {
    if !HasPrefix(resp, "challenge-response ") { return Err(UnexpectedChallengeResponse); }
    var rNode := FromHex(Trim(resp[|"challenge-response "|..]));
    if rNode.None? { return Err(InvalidChallengeHex); }
    if |rNode.value| != 32 { return Err(WrongLength(|rNode.value|)); }
    r := Ok(rNode.value);
  }

  /** The checks on the form of the proof. */
  method ParseProof(resp: string) returns (r: Result<Proof>)
    ensures r == ReadProof(resp)
  {
    if !HasPrefix(resp, "proof ") { return Err(UnexpectedVerifyResponse); }
    var parts := Split(Trim(resp));
    if |parts| != 3 { return Err(MalformedProof(|parts|)); }
    var pubkey := FromHex(parts[1]);
    if pubkey.None? { return Err(InvalidProofHex); }
    var sig := FromHex(parts[2]);
    if sig.None? { return Err(InvalidProofHex); }
    r := Ok(Proof(parts[1], pubkey.value, sig.value));
  }

  /** The last part of verifyIdentity. */
  method JudgeProof(c: Crypto, nodeId: string, rClient: bytes32, rNode: bytes32, proof: Proof) returns (r: VerifyResult)
    ensures r == Judge(c, nodeId, rClient, rNode, proof)
  {
    var joint := Xor32(rClient, rNode);
    assert rClient[..32] == rClient;
    var msg := SignedMessage(joint);
    if |proof.pubkey| != 32 { return Failed(CryptoError); }
    if !c.verify(proof.pubkey, msg, proof.sig) { return Failed(SignatureInvalid); }
    var derivedId := PubkeyToNodeId(c, proof.pubkey);
    if derivedId != nodeId { return Failed(NodeIdMismatch(derivedId)); }
    r := Verified(derivedId, proof.pubkeyHex);
  }
}
