/** GenerateRules and GenerateQuiescedRules of internal/firewall: rule lists with first-match
    (`quick`) meaning. */
module PacketFilter {

  /** An address range of one family; base is the address as a number, bits the prefix length. */
  datatype Cidr = Cidr(six: bool, base: nat, bits: nat)

  /** Interface is empty when the network does not name one. */
  datatype Network = Network(interface: string, subnet: Cidr, gateway: nat, subnet6: Cidr)

  datatype Protocol = Tcp | Udp | Icmp6 | OtherProtocol

  datatype Packet = Packet(
    inbound: bool, interface: string, six: bool, protocol: Protocol, source: nat, sourcePort: nat, destination: nat, port: nat)

  datatype Place = Anywhere | Self | Host(address: nat) | Within(range: Cidr) | NotWithin(range: Cidr)

  /** One quick rule. No protocols means any protocol, and port 0 means any port. */
  datatype Rule = Rule(
    pass: bool, inbound: bool, on: string, six: bool, protocols: set<Protocol>,
    from: Place, fromPort: nat, to: Place, toPort: nat)

  datatype Verdict = Passed | Blocked | Unmatched

  // ----- Meaning -----

  function Pow2(n: nat): (p: nat)
    ensures p > 0
  {
    if n == 0 then 1 else 2 * Pow2(n - 1)
  }

  /** The leading bits of the address are those of the range. */
  predicate In(address: nat, range: Cidr) {
    var width := if range.six then 128 else 32;
    range.bits <= width && address / Pow2(width - range.bits) == range.base / Pow2(width - range.bits)
  }

  predicate InAny(address: nat, ranges: seq<Cidr>) {
    exists k :: 0 <= k < |ranges| && In(address, ranges[k])
  }

  predicate At(place: Place, address: nat, own: set<nat>) {
    match place
    case Anywhere => true
    case Self => address in own
    case Host(a) => address == a
    case Within(range) => In(address, range)
    case NotWithin(range) => !In(address, range)
  }

  /** own holds the machine's addresses of the packet's family. */
  predicate Matches(r: Rule, p: Packet, own: set<nat>) {
    && r.inbound == p.inbound && (r.on == "" || r.on == p.interface) && r.six == p.six
    && (r.protocols == {} || p.protocol in r.protocols)
    && At(r.from, p.source, own) && (r.fromPort == 0 || r.fromPort == p.sourcePort)
    && At(r.to, p.destination, own) && (r.toPort == 0 || r.toPort == p.port)
  }

  function Evaluate(rules: seq<Rule>, p: Packet, own: set<nat>): Verdict {
    if rules == [] then Unmatched
    else if Matches(rules[0], p, own) then (if rules[0].pass then Passed else Blocked)
    else Evaluate(rules[1..], p, own)
  }

  lemma {:induction false} EvaluateConcat(a: seq<Rule>, b: seq<Rule>, p: Packet, own: set<nat>)
    ensures Evaluate(a + b, p, own) == if Evaluate(a, p, own) == Unmatched then Evaluate(b, p, own) else Evaluate(a, p, own)
  {
    if a == [] {
      assert a + b == b;
    } else {
      assert (a + b)[1..] == a[1..] + b;
      EvaluateConcat(a[1..], b, p, own);
    }
  }

  // ----- The rules -----

  function V4(a: nat, b: nat, c: nat, d: nat, bits: nat): Cidr {
    Cidr(false, ((a * 256 + b) * 256 + c) * 256 + d, bits)
  }

  const PRIVATE4 := [
    V4(0, 0, 0, 0, 8), V4(10, 0, 0, 0, 8), V4(100, 64, 0, 0, 10), V4(127, 0, 0, 0, 8), V4(169, 254, 0, 0, 16),
    V4(172, 16, 0, 0, 12), V4(192, 0, 0, 0, 24), V4(192, 0, 2, 0, 24), V4(192, 168, 0, 0, 16), V4(198, 18, 0, 0, 15),
    V4(198, 51, 100, 0, 24), V4(203, 0, 113, 0, 24), V4(224, 0, 0, 0, 4), V4(240, 0, 0, 0, 4)]

  const LINK_LOCAL6 := Cidr(true, 0xfe80_0000_0000_0000_0000_0000_0000_0000, 10)

  const PRIVATE6 := [
    Cidr(true, 0, 128), Cidr(true, 1, 128), Cidr(true, 0x0064_ff9b_0001_0000_0000_0000_0000_0000, 48),
    Cidr(true, 0x0100_0000_0000_0000_0000_0000_0000_0000, 64), Cidr(true, 0x2001_0db8_0000_0000_0000_0000_0000_0000, 32),
    Cidr(true, 0xfc00_0000_0000_0000_0000_0000_0000_0000, 7), LINK_LOCAL6,
    Cidr(true, 0xff00_0000_0000_0000_0000_0000_0000_0000, 8)]

  // ----- The ranges as intervals -----

  /** The addresses of a range are the block of its size that holds its base. */
  lemma RangeIsBlock(a: nat, range: Cidr, block: nat)
    requires range.bits <= if range.six then 128 else 32
    requires block == Pow2((if range.six then 128 else 32) - range.bits) && range.base % block == 0
    ensures In(a, range) <==> range.base <= a < range.base + block
  {
    AlignedBlock(a, range.base, block);
  }

  lemma AlignedBlock(a: nat, base: nat, block: nat)
    requires block > 0 && base % block == 0
    ensures a / block == base / block <==> base <= a < base + block
  {
    BlockOf(a, base / block, block);
  }

  lemma BlockOf(a: nat, k: nat, block: nat)
    requires block > 0
    ensures a / block == k <==> k * block <= a < k * block + block
  {
    if a < k * block {
      DivBelow(a, k, block);
    } else {
      DivAbove(a, k, block);
      assert (k + 1) * block == k * block + block;
      if a < k * block + block {
        DivBelow(a, k + 1, block);
      } else {
        DivAbove(a, k + 1, block);
      }
    }
  }

  lemma DivBelow(a: nat, k: nat, block: nat)
    requires block > 0 && a < k * block
    ensures a / block < k
  {
    if k <= a / block {
      MulMonotone(k, a / block, block);
    }
  }

  lemma DivAbove(a: nat, k: nat, block: nat)
    requires block > 0 && a >= k * block
    ensures a / block >= k
  {
    if a / block + 1 <= k {
      MulMonotone(a / block + 1, k, block);
    }
  }

  lemma MulMonotone(x: nat, y: nat, block: nat)
    requires x <= y
    ensures x * block <= y * block
  {
  }

  lemma {:induction false} Pow2Add(m: nat, n: nat)
    ensures Pow2(m + n) == Pow2(m) * Pow2(n)
  {
    if m > 0 {
      Pow2Add(m - 1, n);
    }
  }

  lemma PowersOfTwo()
    ensures Pow2(0) == 1 && Pow2(8) == 0x100 && Pow2(16) == 0x1_0000 && Pow2(17) == 0x2_0000 && Pow2(20) == 0x10_0000
    ensures Pow2(22) == 0x40_0000 && Pow2(24) == 0x100_0000 && Pow2(28) == 0x1000_0000
  {
  }

  lemma LargePowersOfTwo()
    ensures Pow2(64) == 0x1_0000_0000_0000_0000
    ensures Pow2(80) == 0x1_0000_0000_0000_0000_0000
    ensures Pow2(96) == 0x1_0000_0000_0000_0000_0000_0000
  {
    PowersOfTwo();
    Pow2Add(16, 16);
    Pow2Add(32, 32);
    Pow2Add(64, 16);
    Pow2Add(80, 16);
  }

  lemma LargestPowersOfTwo()
    ensures Pow2(118) == 0x40_0000_0000_0000_0000_0000_0000_0000
    ensures Pow2(120) == 0x100_0000_0000_0000_0000_0000_0000_0000
    ensures Pow2(121) == 0x200_0000_0000_0000_0000_0000_0000_0000
  {
    PowersOfTwo();
    LargePowersOfTwo();
    Pow2Add(96, 22);
    Pow2Add(96, 24);
    Pow2Add(1, 120);
  }

  /** The IPv4 addresses that are not to be reached: this network, private and shared use, loopback,
      link-local, documentation and benchmarking, multicast and reserved. */
  predicate Private4(a: nat) {
    || a < 0x0100_0000 || 0x0A00_0000 <= a < 0x0B00_0000 || 0x6440_0000 <= a < 0x6480_0000
    || 0x7F00_0000 <= a < 0x8000_0000 || 0xA9FE_0000 <= a < 0xA9FF_0000 || 0xAC10_0000 <= a < 0xAC20_0000
    || 0xC000_0000 <= a < 0xC000_0100 || 0xC000_0200 <= a < 0xC000_0300 || 0xC0A8_0000 <= a < 0xC0A9_0000
    || 0xC612_0000 <= a < 0xC614_0000 || 0xC633_6400 <= a < 0xC633_6500 || 0xCB00_7100 <= a < 0xCB00_7200
    || 0xE000_0000 <= a < 0x1_0000_0000
  }

  lemma PrivateRanges4(a: nat)
    ensures InAny(a, PRIVATE4) <==> Private4(a)
  {
    LowerBlocks4(a);
    UpperBlocks4(a);
  }

  lemma LowerBlocks4(a: nat)
    ensures In(a, PRIVATE4[0]) <==> a < 0x0100_0000
    ensures In(a, PRIVATE4[1]) <==> 0x0A00_0000 <= a < 0x0B00_0000
    ensures In(a, PRIVATE4[2]) <==> 0x6440_0000 <= a < 0x6480_0000
    ensures In(a, PRIVATE4[3]) <==> 0x7F00_0000 <= a < 0x8000_0000
    ensures In(a, PRIVATE4[4]) <==> 0xA9FE_0000 <= a < 0xA9FF_0000
    ensures In(a, PRIVATE4[5]) <==> 0xAC10_0000 <= a < 0xAC20_0000
    ensures In(a, PRIVATE4[6]) <==> 0xC000_0000 <= a < 0xC000_0100
  {
    PowersOfTwo();
    RangeIsBlock(a, PRIVATE4[0], 0x100_0000);
    RangeIsBlock(a, PRIVATE4[1], 0x100_0000);
    RangeIsBlock(a, PRIVATE4[2], 0x40_0000);
    RangeIsBlock(a, PRIVATE4[3], 0x100_0000);
    RangeIsBlock(a, PRIVATE4[4], 0x1_0000);
    RangeIsBlock(a, PRIVATE4[5], 0x10_0000);
    RangeIsBlock(a, PRIVATE4[6], 0x100);
  }

  lemma UpperBlocks4(a: nat)
    ensures In(a, PRIVATE4[7]) <==> 0xC000_0200 <= a < 0xC000_0300
    ensures In(a, PRIVATE4[8]) <==> 0xC0A8_0000 <= a < 0xC0A9_0000
    ensures In(a, PRIVATE4[9]) <==> 0xC612_0000 <= a < 0xC614_0000
    ensures In(a, PRIVATE4[10]) <==> 0xC633_6400 <= a < 0xC633_6500
    ensures In(a, PRIVATE4[11]) <==> 0xCB00_7100 <= a < 0xCB00_7200
    ensures In(a, PRIVATE4[12]) <==> 0xE000_0000 <= a < 0xF000_0000
    ensures In(a, PRIVATE4[13]) <==> 0xF000_0000 <= a < 0x1_0000_0000
  {
    PowersOfTwo();
    RangeIsBlock(a, PRIVATE4[7], 0x100);
    RangeIsBlock(a, PRIVATE4[8], 0x1_0000);
    RangeIsBlock(a, PRIVATE4[9], 0x2_0000);
    RangeIsBlock(a, PRIVATE4[10], 0x100);
    RangeIsBlock(a, PRIVATE4[11], 0x100);
    RangeIsBlock(a, PRIVATE4[12], 0x1000_0000);
    RangeIsBlock(a, PRIVATE4[13], 0x1000_0000);
  }

  predicate LinkLocal6(a: nat) {
    0xfe80_0000_0000_0000_0000_0000_0000_0000 <= a < 0xfec0_0000_0000_0000_0000_0000_0000_0000
  }

  /** The same for IPv6: unspecified, loopback, local translation, discard-only, documentation,
      unique local, link-local and multicast addresses. */
  predicate Private6(a: nat) {
    || a == 0 || a == 1
    || 0x0064_ff9b_0001_0000_0000_0000_0000_0000 <= a < 0x0064_ff9b_0002_0000_0000_0000_0000_0000
    || 0x0100_0000_0000_0000_0000_0000_0000_0000 <= a < 0x0100_0000_0000_0001_0000_0000_0000_0000
    || 0x2001_0db8_0000_0000_0000_0000_0000_0000 <= a < 0x2001_0db9_0000_0000_0000_0000_0000_0000
    || 0xfc00_0000_0000_0000_0000_0000_0000_0000 <= a < 0xfe00_0000_0000_0000_0000_0000_0000_0000
    || LinkLocal6(a)
    || 0xff00_0000_0000_0000_0000_0000_0000_0000 <= a < 0x1_0000_0000_0000_0000_0000_0000_0000_0000
  }

  lemma PrivateRanges6(a: nat)
    ensures InAny(a, PRIVATE6) <==> Private6(a)
    ensures In(a, LINK_LOCAL6) <==> LinkLocal6(a)
  {
    LowerBlocks6(a);
    UpperBlocks6(a);
    assert |PRIVATE6| == 8;
  }

  lemma LowerBlocks6(a: nat)
    ensures In(a, PRIVATE6[0]) <==> a == 0
    ensures In(a, PRIVATE6[1]) <==> a == 1
    ensures In(a, PRIVATE6[2]) <==> 0x0064_ff9b_0001_0000_0000_0000_0000_0000 <= a < 0x0064_ff9b_0002_0000_0000_0000_0000_0000
    ensures In(a, PRIVATE6[3]) <==> 0x0100_0000_0000_0000_0000_0000_0000_0000 <= a < 0x0100_0000_0000_0001_0000_0000_0000_0000
    ensures In(a, PRIVATE6[4]) <==> 0x2001_0db8_0000_0000_0000_0000_0000_0000 <= a < 0x2001_0db9_0000_0000_0000_0000_0000_0000
  {
    PowersOfTwo();
    LargePowersOfTwo();
    RangeIsBlock(a, PRIVATE6[0], 1);
    RangeIsBlock(a, PRIVATE6[1], 1);
    RangeIsBlock(a, PRIVATE6[2], 0x1_0000_0000_0000_0000_0000);
    RangeIsBlock(a, PRIVATE6[3], 0x1_0000_0000_0000_0000);
    RangeIsBlock(a, PRIVATE6[4], 0x1_0000_0000_0000_0000_0000_0000);
  }

  lemma UpperBlocks6(a: nat)
    ensures In(a, PRIVATE6[5]) <==> 0xfc00_0000_0000_0000_0000_0000_0000_0000 <= a < 0xfe00_0000_0000_0000_0000_0000_0000_0000
    ensures In(a, PRIVATE6[6]) <==> LinkLocal6(a)
    ensures In(a, PRIVATE6[7]) <==> 0xff00_0000_0000_0000_0000_0000_0000_0000 <= a < 0x1_0000_0000_0000_0000_0000_0000_0000_0000
  {
    LargestPowersOfTwo();
    RangeIsBlock(a, PRIVATE6[5], 0x200_0000_0000_0000_0000_0000_0000_0000);
    RangeIsBlock(a, PRIVATE6[6], 0x40_0000_0000_0000_0000_0000_0000_0000);
    RangeIsBlock(a, PRIVATE6[7], 0x100_0000_0000_0000_0000_0000_0000_0000);
  }

  function PassIn(n: Network, six: bool, protocols: set<Protocol>, from: Place, fromPort: nat, to: Place, toPort: nat): Rule {
    Rule(true, true, n.interface, six, protocols, from, fromPort, to, toPort)
  }

  function BlockIn(n: Network, six: bool, from: Place, to: Place): Rule {
    Rule(false, true, n.interface, six, {}, from, 0, to, 0)
  }

  function BlockOut(n: Network, six: bool, to: Place): Rule {
    Rule(false, false, n.interface, six, {}, Anywhere, 0, to, 0)
  }

  /** What is only written when the interface is known: DHCP and neighbour discovery before an
      address is assigned, and nothing else from outside the subnets. */
  function Preamble(n: Network): seq<Rule> {
    if n.interface == "" then []
    else [
      PassIn(n, false, {Udp}, Host(0), 68, Anywhere, 67),
      PassIn(n, true, {Icmp6}, Within(LINK_LOCAL6), 0, Anywhere, 0),
      BlockIn(n, false, NotWithin(n.subnet), Anywhere),
      BlockIn(n, true, NotWithin(n.subnet6), Anywhere)]
  }

  function Services(n: Network): seq<Rule> {
    [PassIn(n, false, {Udp}, Within(n.subnet), 68, Anywhere, 67),
     PassIn(n, false, {Tcp, Udp}, Within(n.subnet), 0, Host(n.gateway), 53),
     BlockIn(n, false, Within(n.subnet), Self)]
  }

  function Denied(n: Network, six: bool, from: Cidr, ranges: seq<Cidr>): (rules: seq<Rule>)
    ensures |rules| == |ranges|
  {
    if ranges == [] then [] else [BlockIn(n, six, Within(from), Within(ranges[0]))] + Denied(n, six, from, ranges[1..])
  }

  function Rest4(n: Network): seq<Rule> {
    [PassIn(n, false, {}, Within(n.subnet), 0, Anywhere, 0), BlockOut(n, false, Within(n.subnet)),
     BlockIn(n, true, Within(n.subnet6), Self)]
  }

  function Rest6(n: Network): seq<Rule> {
    [PassIn(n, true, {}, Within(n.subnet6), 0, Anywhere, 0), BlockOut(n, true, Within(n.subnet6))]
  }

  function Rules(n: Network): seq<Rule> {
    Preamble(n) + (Services(n) + (Denied(n, false, n.subnet, PRIVATE4) + (Rest4(n) + (Denied(n, true, n.subnet6, PRIVATE6) + Rest6(n)))))
  }

  function QuiescedRules(n: Network): seq<Rule> {
    (if n.interface == "" then []
     else [BlockIn(n, false, NotWithin(n.subnet), Anywhere), BlockIn(n, true, NotWithin(n.subnet6), Anywhere)])
    + [BlockIn(n, false, Within(n.subnet), Anywhere), BlockOut(n, false, Within(n.subnet)),
       BlockIn(n, true, Within(n.subnet6), Anywhere), BlockOut(n, true, Within(n.subnet6))]
  }

  method AppendDenied(rules: seq<Rule>, n: Network, six: bool, from: Cidr, ranges: seq<Cidr>) returns (extended: seq<Rule>)
    ensures extended == rules + Denied(n, six, from, ranges)
  {
    extended := rules;
    assert ranges[0..] == ranges;
    for k := 0 to |ranges|
      invariant extended + Denied(n, six, from, ranges[k..]) == rules + Denied(n, six, from, ranges)
    {
      assert ranges[k..][1..] == ranges[k + 1..];
      extended := extended + [BlockIn(n, six, Within(from), Within(ranges[k]))];
    }
  }

  method GenerateRules(n: Network) returns (rules: seq<Rule>)
    ensures rules == Rules(n)
  {
    rules := [];
    if n.interface != "" {
      rules := rules + [
        PassIn(n, false, {Udp}, Host(0), 68, Anywhere, 67),
        PassIn(n, true, {Icmp6}, Within(LINK_LOCAL6), 0, Anywhere, 0),
        BlockIn(n, false, NotWithin(n.subnet), Anywhere),
        BlockIn(n, true, NotWithin(n.subnet6), Anywhere)];
    }
    rules := rules + Services(n);
    rules := AppendDenied(rules, n, false, n.subnet, PRIVATE4);
    rules := rules + Rest4(n);
    rules := AppendDenied(rules, n, true, n.subnet6, PRIVATE6);
    rules := rules + Rest6(n);
  }

  method GenerateQuiescedRules(n: Network) returns (rules: seq<Rule>)
    ensures rules == QuiescedRules(n)
  {
    rules := [];
    if n.interface != "" {
      rules := rules + [BlockIn(n, false, NotWithin(n.subnet), Anywhere)];
      rules := rules + [BlockIn(n, true, NotWithin(n.subnet6), Anywhere)];
    }
    rules := rules + [BlockIn(n, false, Within(n.subnet), Anywhere)];
    rules := rules + [BlockOut(n, false, Within(n.subnet))];
    rules := rules + [BlockIn(n, true, Within(n.subnet6), Anywhere)];
    rules := rules + [BlockOut(n, true, Within(n.subnet6))];
  }

  // ----- What they let through -----

  /** A run of denials blocks exactly the packets from the subnet to one of the ranges. */
  lemma {:induction false} DeniedMeaning(n: Network, six: bool, from: Cidr, ranges: seq<Cidr>, p: Packet, own: set<nat>)
    ensures Evaluate(Denied(n, six, from, ranges), p, own) ==
      if p.inbound && Applies(n, p) && p.six == six && In(p.source, from) && InAny(p.destination, ranges) then Blocked else Unmatched
  {
    if ranges != [] {
      DeniedMeaning(n, six, from, ranges[1..], p, own);
      assert Denied(n, six, from, ranges)[1..] == Denied(n, six, from, ranges[1..]);
      assert InAny(p.destination, ranges) <==> In(p.destination, ranges[0]) || InAny(p.destination, ranges[1..]) by {
        if k :| 0 <= k < |ranges| && In(p.destination, ranges[k]) {
          assert k > 0 ==> ranges[1..][k - 1] == ranges[k];
        }
        if k :| 0 <= k < |ranges[1..]| && In(p.destination, ranges[1..][k]) {
          assert ranges[k + 1] == ranges[1..][k];
        }
      }
    }
  }

  /** The rules look at the packet: they name its interface, or none. */
  predicate Applies(n: Network, p: Packet) {
    n.interface == "" || n.interface == p.interface
  }

  predicate Dhcp(p: Packet) {
    p.protocol == Udp && p.sourcePort == 68 && p.port == 67
  }

  predicate Dns(n: Network, p: Packet) {
    p.protocol in {Tcp, Udp} && p.port == 53 && p.destination == n.gateway
  }

  /** The rules, section by section. */
  lemma EvaluateRules(n: Network, p: Packet, own: set<nat>)
    ensures Evaluate(Rules(n), p, own) ==
      var v0 := Evaluate(Preamble(n), p, own);
      var v1 := Evaluate(Services(n), p, own);
      var v2 := Evaluate(Denied(n, false, n.subnet, PRIVATE4), p, own);
      var v3 := Evaluate(Rest4(n), p, own);
      var v4 := Evaluate(Denied(n, true, n.subnet6, PRIVATE6), p, own);
      if v0 != Unmatched then v0 else if v1 != Unmatched then v1 else if v2 != Unmatched then v2
      else if v3 != Unmatched then v3 else if v4 != Unmatched then v4 else Evaluate(Rest6(n), p, own)
  {
    var d4, d6 := Denied(n, false, n.subnet, PRIVATE4), Denied(n, true, n.subnet6, PRIVATE6);
    EvaluateConcat(Preamble(n), Services(n) + (d4 + (Rest4(n) + (d6 + Rest6(n)))), p, own);
    EvaluateConcat(Services(n), d4 + (Rest4(n) + (d6 + Rest6(n))), p, own);
    EvaluateConcat(d4, Rest4(n) + (d6 + Rest6(n)), p, own);
    EvaluateConcat(Rest4(n), d6 + Rest6(n), p, own);
    EvaluateConcat(d6, Rest6(n), p, own);
  }

  /** What one rule says, with what follows it. */
  function Try(r: Rule, p: Packet, own: set<nat>, otherwise: Verdict): Verdict {
    if !Matches(r, p, own) then otherwise else if r.pass then Passed else Blocked
  }

  lemma EvaluateTwo(a: Rule, b: Rule, p: Packet, own: set<nat>)
    ensures Evaluate([a, b], p, own) == Try(a, p, own, Try(b, p, own, Unmatched))
  {
    assert [a, b][1..] == [b] && [b][1..] == [];
    assert Evaluate([b], p, own) == Try(b, p, own, Unmatched);
  }

  lemma EvaluateThree(a: Rule, b: Rule, c: Rule, p: Packet, own: set<nat>)
    ensures Evaluate([a, b, c], p, own) == Try(a, p, own, Try(b, p, own, Try(c, p, own, Unmatched)))
  {
    EvaluateTwo(b, c, p, own);
    assert [a, b, c][1..] == [b, c];
  }

  lemma EvaluateFour(a: Rule, b: Rule, c: Rule, d: Rule, p: Packet, own: set<nat>)
    ensures Evaluate([a, b, c, d], p, own) == Try(a, p, own, Try(b, p, own, Try(c, p, own, Try(d, p, own, Unmatched))))
  {
    EvaluateThree(b, c, d, p, own);
    assert [a, b, c, d][1..] == [b, c, d];
  }

  lemma PreambleMeaning(n: Network, p: Packet, own: set<nat>)
    ensures Evaluate(Preamble(n), p, own) ==
      if n.interface == "" || !Applies(n, p) || !p.inbound then Unmatched
      else if p.six then
        (if p.protocol == Icmp6 && In(p.source, LINK_LOCAL6) then Passed else if In(p.source, n.subnet6) then Unmatched else Blocked)
      else
        (if Dhcp(p) && p.source == 0 then Passed else if In(p.source, n.subnet) then Unmatched else Blocked)
  {
    if n.interface != "" {
      EvaluateFour(PassIn(n, false, {Udp}, Host(0), 68, Anywhere, 67), PassIn(n, true, {Icmp6}, Within(LINK_LOCAL6), 0, Anywhere, 0),
        BlockIn(n, false, NotWithin(n.subnet), Anywhere), BlockIn(n, true, NotWithin(n.subnet6), Anywhere), p, own);
    }
  }

  lemma ServicesMeaning(n: Network, p: Packet, own: set<nat>)
    ensures Evaluate(Services(n), p, own) ==
      if !Applies(n, p) || !p.inbound || p.six || !In(p.source, n.subnet) then Unmatched
      else if Dhcp(p) || Dns(n, p) then Passed
      else if p.destination in own then Blocked
      else Unmatched
  {
    EvaluateThree(PassIn(n, false, {Udp}, Within(n.subnet), 68, Anywhere, 67),
      PassIn(n, false, {Tcp, Udp}, Within(n.subnet), 0, Host(n.gateway), 53), BlockIn(n, false, Within(n.subnet), Self), p, own);
  }

  lemma Rest4Meaning(n: Network, p: Packet, own: set<nat>)
    ensures Evaluate(Rest4(n), p, own) ==
      if !Applies(n, p) then Unmatched
      else if p.inbound && !p.six && In(p.source, n.subnet) then Passed
      else if !p.inbound && !p.six && In(p.destination, n.subnet) then Blocked
      else if p.inbound && p.six && In(p.source, n.subnet6) && p.destination in own then Blocked
      else Unmatched
  {
    EvaluateThree(PassIn(n, false, {}, Within(n.subnet), 0, Anywhere, 0), BlockOut(n, false, Within(n.subnet)),
      BlockIn(n, true, Within(n.subnet6), Self), p, own);
  }

  lemma Rest6Meaning(n: Network, p: Packet, own: set<nat>)
    ensures Evaluate(Rest6(n), p, own) ==
      if !Applies(n, p) || !p.six then Unmatched
      else if p.inbound && In(p.source, n.subnet6) then Passed
      else if !p.inbound && In(p.destination, n.subnet6) then Blocked
      else Unmatched
  {
    EvaluateTwo(PassIn(n, true, {}, Within(n.subnet6), 0, Anywhere, 0), BlockOut(n, true, Within(n.subnet6)), p, own);
  }

  lemma SectionMeanings(n: Network, p: Packet, own: set<nat>)
    ensures Evaluate(Denied(n, false, n.subnet, PRIVATE4), p, own) ==
      if p.inbound && Applies(n, p) && !p.six && In(p.source, n.subnet) && InAny(p.destination, PRIVATE4) then Blocked else Unmatched
    ensures Evaluate(Denied(n, true, n.subnet6, PRIVATE6), p, own) ==
      if p.inbound && Applies(n, p) && p.six && In(p.source, n.subnet6) && InAny(p.destination, PRIVATE6) then Blocked else Unmatched
  {
    DeniedMeaning(n, false, n.subnet, PRIVATE4, p, own);
    DeniedMeaning(n, true, n.subnet6, PRIVATE6, p, own);
  }

  /** With an interface set, an inbound IPv4 packet on it is passed in exactly these cases and
      blocked in every other. */
  lemma InboundIPv4(n: Network, p: Packet, own: set<nat>)
    requires n.interface != "" && p.interface == n.interface && p.inbound && !p.six
    ensures Evaluate(Rules(n), p, own) != Unmatched
    ensures Evaluate(Rules(n), p, own) == Passed <==>
      || (Dhcp(p) && (p.source == 0 || In(p.source, n.subnet)))
      || (In(p.source, n.subnet) && (Dns(n, p) || (p.destination !in own && !Private4(p.destination))))
  {
    PrivateRanges4(p.destination);
    EvaluateRules(n, p, own);
    PreambleMeaning(n, p, own);
    ServicesMeaning(n, p, own);
    SectionMeanings(n, p, own);
    Rest4Meaning(n, p, own);
  }

  /** The same for IPv6: neighbour discovery from link-local addresses, and from the subnet to
      anything that is neither the host nor in a listed range. */
  lemma InboundIPv6(n: Network, p: Packet, own: set<nat>)
    requires n.interface != "" && p.interface == n.interface && p.inbound && p.six
    ensures Evaluate(Rules(n), p, own) != Unmatched
    ensures Evaluate(Rules(n), p, own) == Passed <==>
      || (p.protocol == Icmp6 && LinkLocal6(p.source))
      || (In(p.source, n.subnet6) && p.destination !in own && !Private6(p.destination))
  {
    PrivateRanges6(p.source);
    PrivateRanges6(p.destination);
    EvaluateRules(n, p, own);
    PreambleMeaning(n, p, own);
    ServicesMeaning(n, p, own);
    SectionMeanings(n, p, own);
    Rest4Meaning(n, p, own);
    Rest6Meaning(n, p, own);
  }

  /** So nothing on the interface reaches 10.0.0.0/8, 192.168.0.0/16 or any other such address,
      wherever it comes from, except for DHCP and for DNS at the gateway. */
  lemma PrivateNotReached(n: Network, p: Packet, own: set<nat>)
    requires n.interface != "" && p.interface == n.interface && p.inbound && !p.six
    requires Private4(p.destination)
    requires !(p.protocol == Udp && p.sourcePort == 68 && p.port == 67)
    requires !(p.protocol in {Tcp, Udp} && p.port == 53 && p.destination == n.gateway)
    ensures Evaluate(Rules(n), p, own) == Blocked
  {
    InboundIPv4(n, p, own);
  }

  /** And with the subnet 192.168.64.0/24, whose addresses are the 256 from there on, every other
      address that is not the host's own can be reached from it, and from nowhere else. */
  lemma PublicReached(n: Network, p: Packet, own: set<nat>)
    requires n.interface != "" && p.interface == n.interface && p.inbound && !p.six
    requires n.subnet == Cidr(false, 0xC0A8_4000, 24) && p.destination !in own && !Private4(p.destination)
    requires !(p.protocol == Udp && p.sourcePort == 68 && p.port == 67)
    ensures Evaluate(Rules(n), p, own) == if 0xC0A8_4000 <= p.source < 0xC0A8_4100 then Passed else Blocked
  {
    InboundIPv4(n, p, own);
    PowersOfTwo();
    RangeIsBlock(p.source, n.subnet, 0x100);
  }

  /** Nothing new may be sent to the subnets, and other outbound traffic is left to other rules. */
  lemma Outbound(n: Network, p: Packet, own: set<nat>)
    requires Applies(n, p) && !p.inbound
    ensures Evaluate(Rules(n), p, own) == if In(p.destination, if p.six then n.subnet6 else n.subnet) then Blocked else Unmatched
  {
    EvaluateRules(n, p, own);
    PreambleMeaning(n, p, own);
    ServicesMeaning(n, p, own);
    SectionMeanings(n, p, own);
    Rest4Meaning(n, p, own);
    Rest6Meaning(n, p, own);
  }

  /** Without an interface name the rules look at every interface, and say nothing about inbound
      traffic from outside the subnets; from the subnets they decide as above. */
  lemma WithoutInterface(n: Network, p: Packet, own: set<nat>)
    requires n.interface == "" && p.inbound
    ensures Evaluate(Rules(n), p, own) ==
      if !In(p.source, if p.six then n.subnet6 else n.subnet) then Unmatched
      else if !p.six && (Dhcp(p) || Dns(n, p)) then Passed
      else if p.destination in own || (if p.six then Private6(p.destination) else Private4(p.destination)) then Blocked
      else Passed
  {
    PrivateRanges4(p.destination);
    PrivateRanges6(p.destination);
    EvaluateRules(n, p, own);
    PreambleMeaning(n, p, own);
    ServicesMeaning(n, p, own);
    SectionMeanings(n, p, own);
    Rest4Meaning(n, p, own);
    Rest6Meaning(n, p, own);
  }

  /** No rule looks at a packet on another interface. */
  lemma OtherInterfaces(n: Network, p: Packet, own: set<nat>)
    requires !Applies(n, p)
    ensures Evaluate(Rules(n), p, own) == Unmatched && Evaluate(QuiescedRules(n), p, own) == Unmatched
  {
    EvaluateRules(n, p, own);
    PreambleMeaning(n, p, own);
    ServicesMeaning(n, p, own);
    SectionMeanings(n, p, own);
    Rest4Meaning(n, p, own);
    Rest6Meaning(n, p, own);
    QuiescedMeaning(n, p, own);
  }

  lemma QuiescedMeaning(n: Network, p: Packet, own: set<nat>)
    ensures Evaluate(QuiescedRules(n), p, own) ==
      if !Applies(n, p) then Unmatched
      else if p.inbound then
        (if n.interface != "" || In(p.source, if p.six then n.subnet6 else n.subnet) then Blocked else Unmatched)
      else
        (if In(p.destination, if p.six then n.subnet6 else n.subnet) then Blocked else Unmatched)
  {
    var a, b := BlockIn(n, false, NotWithin(n.subnet), Anywhere), BlockIn(n, true, NotWithin(n.subnet6), Anywhere);
    var c, d := BlockIn(n, false, Within(n.subnet), Anywhere), BlockOut(n, false, Within(n.subnet));
    var e, f := BlockIn(n, true, Within(n.subnet6), Anywhere), BlockOut(n, true, Within(n.subnet6));
    EvaluateTwo(a, b, p, own);
    EvaluateFour(c, d, e, f, p, own);
    EvaluateConcat(if n.interface == "" then [] else [a, b], [c, d, e, f], p, own);
  }

  /** Quiesced: nothing comes in from the subnets or, on a named interface, from anywhere; and
      nothing goes out to the subnets. */
  lemma Quiesced(n: Network, p: Packet, own: set<nat>)
    requires Applies(n, p)
    ensures p.inbound && (n.interface != "" || In(p.source, if p.six then n.subnet6 else n.subnet)) ==>
      Evaluate(QuiescedRules(n), p, own) == Blocked
    ensures !p.inbound && In(p.destination, if p.six then n.subnet6 else n.subnet) ==>
      Evaluate(QuiescedRules(n), p, own) == Blocked
    ensures Evaluate(QuiescedRules(n), p, own) != Passed
  {
    QuiescedMeaning(n, p, own);
  }
}
