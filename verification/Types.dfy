/** The fixed-width integers, addresses, keys and values shared by the agent
    and the eBPF programs.  Padding fields are always zero and are left out. */
module NetTypes {

  type u8 = x: int | 0 <= x < 0x100
  type u16 = x: int | 0 <= x < 0x1_0000
  type u32 = x: int | 0 <= x < 0x1_0000_0000
  type u64 = x: int | 0 <= x < 0x1_0000_0000_0000_0000
  type u128 = x: int | 0 <= x < 0x1_0000_0000_0000_0000_0000_0000_0000_0000

  /** Identifier that ties a service entry to its endpoint entries. */
  type Id = u16
  /** Identity assigned to a set of pods. */
  type IdentityId = u32

  datatype Option<+T> = None | Some(value: T)
  datatype Result<+T> = Ok(value: T) | Err

  datatype IpAddr = Ip4(bits4: u32) | Ip6(bits6: u128)

  datatype ServiceKeyV4 = ServiceKeyV4(ip: u32, port: u16, protocol: u8)
  datatype ServiceKeyV6 = ServiceKeyV6(ip: u128, port: u16, protocol: u8)
  datatype ServiceKey = V4(v4: ServiceKeyV4) | V6(v6: ServiceKeyV6)

  datatype EndpointValueV4 = EndpointValueV4(ip: u32, port: u16, protocol: u8)
  datatype EndpointValueV6 = EndpointValueV6(ip: u128, port: u16, protocol: u8)
  datatype EndpointValue = E4(e4: EndpointValueV4) | E6(e6: EndpointValueV6)

  datatype ServiceValue = ServiceValue(id: Id, count: u16)
  datatype EndpointKey = EndpointKey(id: Id, position: u16)

  /** Transport protocols a Kubernetes service can name. */
  datatype KubeProtocol = Tcp | Udp | Sctp {
    function Number(): u8 {
      match this
      case Tcp => 6
      case Udp => 17
      case Sctp => 132
    }

    function Text(): string {
      match this
      case Tcp => "TCP"
      case Udp => "UDP"
      case Sctp => "SCTP"
    }
  }

  function ParseProtocol(text: string): Option<KubeProtocol> {
    if text == "TCP" || text == "tcp" || text == "Tcp" then Some(Tcp)
    else if text == "UDP" || text == "udp" || text == "Udp" then Some(Udp)
    else if text == "SCTP" || text == "sctp" || text == "Sctp" then Some(Sctp)
    else None
  }

  function ProtocolFromNumber(n: u32): Option<KubeProtocol> {
    if n == 6 then Some(Tcp) else if n == 17 then Some(Udp) else if n == 132 then Some(Sctp) else None
  }

  /** The three spellings of each protocol that the cluster's objects may use. */
  predicate Spells(text: string, p: KubeProtocol) {
    match p
    case Tcp => text == "TCP" || text == "tcp" || text == "Tcp"
    case Udp => text == "UDP" || text == "udp" || text == "Udp"
    case Sctp => text == "SCTP" || text == "sctp" || text == "Sctp"
  }

  /** Exactly these spellings parse, each to its own protocol. */
  lemma ParsedSpellings(text: string, p: KubeProtocol)
    ensures ParseProtocol(text) == Some(p) <==> Spells(text, p)
  {
    assert "TCP"[0] == 'T' && "Tcp"[0] == 'T' && "tcp"[0] == 't';
    assert "UDP"[0] == 'U' && "Udp"[0] == 'U' && "udp"[0] == 'u';
    assert |"SCTP"| == |"Sctp"| == |"sctp"| == 4;
  }

  /** Printing then parsing, and numbering then decoding, give the protocol
      back, under the protocol numbers IANA assigns; so distinct protocols
      never share a text or a number. */
  lemma ProtocolRoundTrips(p: KubeProtocol)
    ensures ParseProtocol(p.Text()) == Some(p)
    ensures forall n: u32 :: ProtocolFromNumber(n) == Some(p) <==> n == p.Number()
    ensures p.Number() == if p == Tcp then 6 else if p == Udp then 17 else 132
    ensures p.Text() == if p == Tcp then "TCP" else if p == Udp then "UDP" else "SCTP"
  {
    ParsedSpellings(p.Text(), p);
  }
}

/** Byte order.  Hosts are little-endian, so `to_be` and `from_be` both reverse
    the bytes of a fixed-width integer. */
module ByteOrder {
  import opened NetTypes

  function Power256(n: nat): (p: nat)
    ensures p > 0
  {
    if n == 0 then 1 else 256 * Power256(n - 1)
  }

  /** The integer whose `n` bytes are those of `x` in the opposite order. */
  function SwapBytes(n: nat, x: nat): nat {
    if n == 0 then 0 else (x % 256) * Power256(n - 1) + SwapBytes(n - 1, x / 256)
  }

  lemma ScaleAtMost(a: nat, b: nat, p: nat)
    requires a <= b
    ensures a * p <= b * p
  {}

  lemma Reassociate(a: nat, p: nat)
    ensures a * (256 * p) == 256 * (a * p)
  {}

  lemma {:induction false} SwapBytesBounded(n: nat, x: nat)
    requires x < Power256(n)
    ensures SwapBytes(n, x) < Power256(n)
  {
    if n > 0 {
      SwapBytesBounded(n - 1, x / 256);
      ScaleAtMost(x % 256, 255, Power256(n - 1));
    }
  }

  lemma SwapStep(n: nat, low: nat, rest: nat)
    requires low < 256
    ensures SwapBytes(n + 1, low + 256 * rest) == low * Power256(n) + SwapBytes(n, rest)
  {
    assert (low + 256 * rest) % 256 == low && (low + 256 * rest) / 256 == rest;
  }

  /** The most significant byte becomes the least significant one. */
  lemma {:induction false} SwapTopByte(n: nat, low: nat, top: nat)
    requires low < Power256(n) && top < 256
    ensures SwapBytes(n + 1, low + top * Power256(n)) == top + 256 * SwapBytes(n, low)
  {
    if n == 0 {
      SwapStep(0, top, 0);
    } else {
      var p, rest, last := Power256(n - 1), low / 256, low % 256;
      Reassociate(top, p);
      Reassociate(last, p);
      SwapStep(n, last, rest + top * p);
      SwapStep(n - 1, last, rest);
      SwapTopByte(n - 1, rest, top);
    }
  }

  /** `from_be(to_be(x)) == x` for every width, so values cross the byte-order
      boundary between the agent and the kernel without loss. */
  lemma {:induction false} SwapTwice(n: nat, x: nat)
    requires x < Power256(n)
    ensures SwapBytes(n, SwapBytes(n, x)) == x
  {
    if n > 0 {
      SwapTwice(n - 1, x / 256);
      SwapBytesBounded(n - 1, x / 256);
      SwapTopByte(n - 1, SwapBytes(n - 1, x / 256), x % 256);
    }
  }

  /** The `n` lowest bytes of `x`, lowest first: how a little-endian host keeps
      it in memory. */
  function LittleBytes(n: nat, x: nat): (bytes: seq<nat>)
    ensures |bytes| == n && forall i :: 0 <= i < n ==> bytes[i] < 256
  {
    if n == 0 then [] else [x % 256] + LittleBytes(n - 1, x / 256)
  }

  lemma LittleStep(n: nat, low: nat, rest: nat)
    requires low < 256
    ensures LittleBytes(n + 1, low + 256 * rest) == [low] + LittleBytes(n, rest)
  {
    assert (low + 256 * rest) % 256 == low && (low + 256 * rest) / 256 == rest;
  }

  lemma {:induction false} TopByteLast(n: nat, low: nat, top: nat)
    requires low < Power256(n) && top < 256
    ensures LittleBytes(n + 1, low + top * Power256(n)) == LittleBytes(n, low) + [top]
  {
    if n == 0 {
      LittleStep(0, top, 0);
    } else {
      var p, rest, last := Power256(n - 1), low / 256, low % 256;
      var tp: nat := top * p;
      Reassociate(top, p);
      assert Power256(n) == 256 * p && top * Power256(n) == 256 * tp;
      hide LittleBytes, Power256;
      TopByteLast(n - 1, rest, top);
      LittleStep(n, last, rest + tp);
      LittleStep(n - 1, last, rest);
    }
  }

  /** The bytes in memory after the swap are those before it in the opposite
      order, for every width. */
  lemma {:induction false} SwapReversesBytes(n: nat, x: nat, i: nat)
    requires x < Power256(n) && i < n
    ensures LittleBytes(n, SwapBytes(n, x))[i] == LittleBytes(n, x)[n - 1 - i]
  {
    SwapBytesBounded(n - 1, x / 256);
    TopByteLast(n - 1, SwapBytes(n - 1, x / 256), x % 256);
    if i < n - 1 {
      SwapReversesBytes(n - 1, x / 256, i);
    }
  }

  lemma Widths()
    ensures Power256(2) == 0x1_0000
    ensures Power256(4) == 0x1_0000_0000
    ensures Power256(16) == 0x1_0000_0000_0000_0000_0000_0000_0000_0000
  {
    assert Power256(2) == 0x1_0000;
    assert Power256(4) == 0x1_0000_0000;
    assert Power256(6) == 0x1_0000_0000_0000;
    assert Power256(8) == 0x1_0000_0000_0000_0000;
    assert Power256(10) == 0x1_0000_0000_0000_0000_0000;
    assert Power256(12) == 0x1_0000_0000_0000_0000_0000_0000;
    assert Power256(14) == 0x1_0000_0000_0000_0000_0000_0000_0000;
  }

  function SwapU16(x: u16): (r: u16) {
    Widths(); SwapBytesBounded(2, x);
    SwapBytes(2, x)
  }

  function SwapU32(x: u32): (r: u32) {
    Widths(); SwapBytesBounded(4, x);
    SwapBytes(4, x)
  }

  /** The swaps written out. */
  lemma SwappedBytes(b0: u8, b1: u8, b2: u8, b3: u8)
    ensures SwapU32(b0 + 256 * b1 + 65536 * b2 + 16777216 * b3) == 16777216 * b0 + 65536 * b1 + 256 * b2 + b3
    ensures SwapU16(b0 + 256 * b1) == 256 * b0 + b1
  {
    SmallPowers();
    hide SwapBytes, Power256;
    SwapStep(3, b0, b1 + 256 * b2 + 65536 * b3);
    SwapStep(2, b1, b2 + 256 * b3);
    SwapStep(1, b2, b3);
    SwapStep(0, b3, 0);
    SwapStep(1, b0, b1);
    SwapStep(0, b1, 0);
  }

  lemma SwapUnfolds(n: nat, x: nat)
    requires n > 0
    ensures SwapBytes(n, x) == LittleBytes(n, x)[0] * Power256(n - 1) + SwapBytes(n - 1, x / 256)
    ensures LittleBytes(n, x)[1..] == LittleBytes(n - 1, x / 256)
  {}

  /** A swapped integer is worth what its bytes in memory are worth read with
      the first one highest. */
  lemma NetworkOrder(ip: u32, port: u16)
    ensures var b := LittleBytes(4, ip); SwapU32(ip) == 16777216 * b[0] + 65536 * b[1] + 256 * b[2] + b[3]
    ensures var b := LittleBytes(2, port); SwapU16(port) == 256 * b[0] + b[1]
  {
    SmallPowers();
    hide SwapBytes, LittleBytes, Power256;
    SwapUnfolds(4, ip);
    SwapUnfolds(3, ip / 256);
    SwapUnfolds(2, ip / 256 / 256);
    SwapUnfolds(1, ip / 256 / 256 / 256);
    SwapNothing(ip / 256 / 256 / 256 / 256);
    SwapUnfolds(2, port);
    SwapUnfolds(1, port / 256);
    SwapNothing(port / 256 / 256);
  }

  lemma SwapNothing(x: nat)
    ensures SwapBytes(0, x) == 0
  {}

  lemma SmallPowers()
    ensures Power256(0) == 1 && Power256(1) == 256 && Power256(2) == 65536 && Power256(3) == 16777216
    ensures SwapBytes(0, 0) == 0
  {}

  lemma SwapU16Twice(x: u16)
    ensures SwapU16(SwapU16(x)) == x
  {
    Widths();
    SwapTwice(2, x);
  }

  lemma SwapU32Twice(x: u32)
    ensures SwapU32(SwapU32(x)) == x
  {
    Widths();
    SwapTwice(4, x);
  }
}
