/**
 Registering with a coordinator: hello (a commitment), challenge, register (its opening and a
 proof of the key).
 */
module Registration {
  import opened Options
  import opened Bytes
  import opened Cryptography
  import opened NodeIds

  const REGISTER_PREFIX := "rtc-bridge:register:"

  datatype HelloMsg = HelloMsg(nodeId: string, publicKey: bytes, commitment: bytes)

  datatype RegisterMsg = RegisterMsg(
    nodeId: string, publicKey: bytes, rNode: bytes, proof: bytes, services: seq<string>)

  // ---- What is signed -----------------------------------------------------------------------

  /** The payload of a registration proof. */
  function SignPayload(joint: bytes): bytes {
    Ascii(REGISTER_PREFIX) + joint
  }

  method Copy(buf: array<byte>, at: nat, src: bytes)
    requires at + |src| <= buf.Length
    modifies buf
    ensures buf[..at] == old(buf[..at])
    ensures buf[at..at + |src|] == src
    ensures buf[at + |src|..] == old(buf[at + |src|..])
  {
    for i := 0 to |src|
      invariant buf[..at] == old(buf[..at])
      invariant buf[at..at + i] == src[..i]
      invariant buf[at + |src|..] == old(buf[at + |src|..])
    {
      buf[at + i] := src[i];
      assert buf[at..at + i + 1] == buf[at..at + i] + [src[i]];
    }
  }

  /** signPayload, which copies both parts into one buffer. */
  method BuildPayload(joint: bytes) returns (payload: bytes)
    ensures payload == SignPayload(joint) == Ascii("rtc-bridge:register:") + joint
  {
    var prefix := Ascii(REGISTER_PREFIX);
    var buf := new byte[|prefix| + |joint|];
    Copy(buf, 0, prefix);
    Copy(buf, |prefix|, joint);
    payload := buf[..];
    assert payload == buf[..|prefix|] + buf[|prefix|..|prefix| + |joint|];
  }

  lemma PrefixAt(prefix: string, joint: bytes, i: nat)
    requires IsAscii(prefix) && i < |prefix|
    ensures i < |Ascii(prefix) + joint| && (Ascii(prefix) + joint)[i] as int == prefix[i] as int
  {
    assert prefix[i] in prefix;
  }

  /** For a given coordinator contribution, the signed payload determines the node's. */
  lemma PayloadBindsOpening(a: bytes, b: bytes, rCoord: bytes)
    requires |a| == |b| == |rCoord| && SignPayload(XorAll(a, rCoord)) == SignPayload(XorAll(b, rCoord))
    ensures a == b
  {
    var n := |REGISTER_PREFIX|;
    assert SignPayload(XorAll(a, rCoord))[n..] == XorAll(a, rCoord);
    assert SignPayload(XorAll(b, rCoord))[n..] == XorAll(b, rCoord);
    XorAllCancels(a, rCoord);
    XorAllCancels(b, rCoord);
  }

  // ---- The node's half ------------------------------------------------------------------------

  /** None stands for a panic: an index out of range in xor32, which checks no length. */
  method SignRegistration(c: Crypto, privKey: bytes, rNode: bytes, rCoord: bytes) returns (proof: Option<bytes>)
    ensures proof.Some? <==> |rNode| >= 32 && |rCoord| >= 32
    ensures proof.Some? ==> proof.value == c.sign(privKey, SignPayload(XorAll(rNode[..32], rCoord)))
  {
    if |rNode| < 32 || |rCoord| < 32 { return None; }
    var joint := Xor32(rNode, rCoord);
    var payload := BuildPayload(joint);
    proof := Some(c.sign(privKey, payload));
  }

  /** The hello that connectCoordinator sends for the key `privKey`. */
  function Hello(c: Crypto, privKey: bytes, rNode: bytes): HelloMsg {
    HelloMsg(NodeID(c, c.publicKey(privKey)), c.publicKey(privKey), c.sha256(rNode))
  }

  /** The register message it sends after the challenge; or None, a panic, exactly if the
      challenge is shorter than 32 bytes. */
  method Register(c: Crypto, privKey: bytes, rNode: bytes, rCoord: bytes, services: seq<string>)
    returns (msg: Option<RegisterMsg>)
    requires |rNode| == 32
    ensures msg.None? <==> |rCoord| < 32
    ensures msg.Some? ==>
              msg.value == RegisterMsg(NodeID(c, c.publicKey(privKey)), c.publicKey(privKey), rNode,
                                       c.sign(privKey, SignPayload(XorAll(rNode, rCoord))), services)
  {
    var proof := SignRegistration(c, privKey, rNode, rCoord);
    if proof.None? { return None; }
    assert rNode[..32] == rNode;
    msg := Some(RegisterMsg(NodeID(c, c.publicKey(privKey)), c.publicKey(privKey), rNode, proof.value, services));
  }

  // ---- The coordinator's half -----------------------------------------------------------------

  predicate VerifyHello(c: Crypto, msg: HelloMsg) {
    |msg.publicKey| == 32 && NodeID(c, msg.publicKey) == msg.nodeId
  }

  /** The register message opens the commitment and proves the key it names. */
  ghost predicate Proves(c: Crypto, msg: RegisterMsg, commitment: bytes, rCoord: bytes) {
    && |msg.rNode| == 32 && |rCoord| == 32 && |msg.publicKey| == 32
    && c.sha256(msg.rNode) == commitment
    && c.verify(msg.publicKey, SignPayload(XorAll(msg.rNode, rCoord)), msg.proof)
  }

  method VerifyRegistration(c: Crypto, msg: RegisterMsg, commitment: bytes, rCoord: bytes) returns (ok: bool)
    requires Sound(c)
    ensures ok <==> Proves(c, msg, commitment, rCoord)
  {
    if |msg.rNode| != 32 || |rCoord| != 32 { return false; }
    var got := c.sha256(msg.rNode);
    if |commitment| != 32 { return false; }
    for i := 0 to |got|
      invariant got[..i] == commitment[..i]
    {
      if got[i] != commitment[i] { return false; }
    }
    assert got[..32] == got && commitment[..32] == commitment;
    if |msg.publicKey| != 32 { return false; }
    var joint := Xor32(msg.rNode, rCoord);
    assert msg.rNode[..32] == msg.rNode;
    var payload := BuildPayload(joint);
    ok := c.verify(msg.publicKey, payload, msg.proof);
  }

  /** How the coordinator's half of the handshake ends. */
  datatype Handshake = Rejected(reason: string) | Accepted(id: string, services: seq<string>)

  /** The handshake steps of handleNodeWS; None stands for a message that does not arrive or does
      not decode to the expected type. */
  method Admit(c: Crypto, hello: Option<HelloMsg>, rCoord: bytes, reg: Option<RegisterMsg>) returns (r: Handshake)
    requires Sound(c)
    ensures r.Accepted? <==>
              && hello.Some? && VerifyHello(c, hello.value) && reg.Some?
              && Proves(c, reg.value, hello.value.commitment, rCoord)
    ensures r.Accepted? <==>
              && hello.Some? && |hello.value.publicKey| == 32
              && hello.value.nodeId == NodeID(c, hello.value.publicKey)
              && reg.Some? && |reg.value.rNode| == 32 && |rCoord| == 32 && |reg.value.publicKey| == 32
              && hello.value.commitment == c.sha256(reg.value.rNode)
              && c.verify(reg.value.publicKey, Ascii("rtc-bridge:register:") + XorAll(reg.value.rNode, rCoord),
                          reg.value.proof)
    ensures r.Accepted? ==> r.id == reg.value.nodeId && r.services == reg.value.services
    ensures r.Rejected? ==>
              r.reason == if hello.None? then "expected hello"
                          else if |hello.value.publicKey| != 32
                                  || hello.value.nodeId != NodeID(c, hello.value.publicKey)
                               then "nodeId/publicKey mismatch"
                          else if reg.None? then "expected register"
                          else "invalid proof"
  {
    if hello.None? { return Rejected("expected hello"); }
    if !VerifyHello(c, hello.value) { return Rejected("nodeId/publicKey mismatch"); }
    if reg.None? { return Rejected("expected register"); }
    var ok := VerifyRegistration(c, reg.value, hello.value.commitment, rCoord);
    if !ok { return Rejected("invalid proof"); }
    r := Accepted(reg.value.nodeId, reg.value.services);
  }

  /** A hello commits its sender to one opening: two that are accepted after the same hello differ
      only if SHA-256 collides. */
  method OneOpening(c: Crypto, hello: HelloMsg, rCoord1: bytes, reg1: RegisterMsg, rCoord2: bytes, reg2: RegisterMsg)
    returns (r1: Handshake, r2: Handshake)
    requires Sound(c)
    ensures r1.Accepted? && r2.Accepted? ==> c.sha256(reg1.rNode) == c.sha256(reg2.rNode)
    ensures hello.nodeId != NodeID(c, hello.publicKey) ==> r1.Rejected? && r2.Rejected?
  {
    r1 := Admit(c, Some(hello), rCoord1, Some(reg1));
    r2 := Admit(c, Some(hello), rCoord2, Some(reg2));
  }

  /** A node running connectCoordinator is always admitted, under the id derived from its key. */
  method HonestNodeIsAdmitted(c: Crypto, privKey: bytes, rNode: bytes, rCoord: bytes, services: seq<string>)
    returns (r: Handshake)
    requires Sound(c) && |rNode| == 32 && |rCoord| == 32
    ensures r == Accepted(NodeID(c, c.publicKey(privKey)), services)
  {
    var reg := Register(c, privKey, rNode, rCoord, services);
    r := Admit(c, Some(Hello(c, privKey, rNode)), rCoord, reg);
  }
}
