/**
Access control: the rule table user space compiles (src/services/acl/acl_base.tpp) and the packet program that
looks it up (src/services/acl/acl_xdp.bpf.c).
*/
module Acl {
  import opened KernelMaps
  import opened Wire
  import opened Wrappers

  const MAX_RULES_SIZE := 10240
  const ALLOW: U32 := 0
  const DENY: U32 := 1
  const ANY_PORT: U16 := 0

  // ---------------------------------------------------------------- rules

  datatype Protocol = TcpRule | UdpRule | UnknownProtocol
  datatype Action = Drop | Accept | UnknownAction
  datatype Rule = Rule(saddr: string, daddr: string, sport: U16, dport: U16, protocol: Protocol, action: Action)

  /** The key of the kernel map; addresses and ports in network order. */
  datatype Tuple = Tuple(saddr: U32, daddr: U32, sport: U16, dport: U16, protocol: U8)

  /** inet_pton: the address in network order, for text that is one. */
  type Parser = string -> Option<U32>

  /** The map entry of a rule, unless an address, the protocol or the action is invalid. */
  function Compile(parse: Parser, rule: Rule): Option<(Tuple, U32)> {
    match (parse(rule.saddr), parse(rule.daddr))
    case (Some(saddr), Some(daddr)) =>
      if rule.protocol.UnknownProtocol? || rule.action.UnknownAction? then None
      else
        var protocol := if rule.protocol.TcpRule? then IPPROTO_TCP else IPPROTO_UDP;
        var action := if rule.action.Drop? then DENY else ALLOW;
        Some((Tuple(saddr, daddr, Swap(rule.sport), Swap(rule.dport), protocol), action))
    case _ => None
  }

  /** The valid rules of a configuration, in order. */
  function ValidRules(parse: Parser, config: seq<Rule>): seq<Rule> {
    if config == [] then []
    else
      var last := config[|config| - 1];
      ValidRules(parse, config[..|config| - 1]) + if Compile(parse, last).Some? then [last] else []
  }

  /** What an update records: the valid rules, as many as the map holds. */
  function Recorded(parse: Parser, config: seq<Rule>): seq<Rule> {
    var valid := ValidRules(parse, config);
    if |valid| <= MAX_RULES_SIZE then valid else valid[..MAX_RULES_SIZE]
  }

  /** The map after inserting the rules one after the other. */
  function TableOf(parse: Parser, rules: seq<Rule>): map<Tuple, U32> {
    if rules == [] then map[]
    else
      var before := TableOf(parse, rules[..|rules| - 1]);
      match Compile(parse, rules[|rules| - 1])
      case None => before
      case Some((tuple, action)) => before[tuple := action]
  }

  lemma {:induction false} TableNoLarger(parse: Parser, rules: seq<Rule>)
    ensures |TableOf(parse, rules)| <= |rules|
    decreases |rules|
  {
    if rules != [] {
      TableNoLarger(parse, rules[..|rules| - 1]);
    }
  }

  lemma ValidSnoc(parse: Parser, config: seq<Rule>, i: nat)
    requires i < |config|
    ensures ValidRules(parse, config[..i + 1]) ==
            ValidRules(parse, config[..i]) + if Compile(parse, config[i]).Some? then [config[i]] else []
  {
    assert config[..i + 1][..i] == config[..i];
  }

  lemma TableSnoc(parse: Parser, rules: seq<Rule>, rule: Rule)
    requires Compile(parse, rule).Some?
    ensures TableOf(parse, rules + [rule]) ==
            TableOf(parse, rules)[Compile(parse, rule).value.0 := Compile(parse, rule).value.1]
  {
    assert (rules + [rule])[..|rules|] == rules;
  }

  lemma {:induction false} ValidPrefix(parse: Parser, config: seq<Rule>, i: nat)
    requires i <= |config|
    ensures ValidRules(parse, config[..i]) <= ValidRules(parse, config)
    decreases |config|
  {
    if i < |config| {
      ValidPrefix(parse, config[..|config| - 1], i);
      assert config[..|config| - 1][..i] == config[..i];
    } else {
      assert config[..i] == config;
    }
  }

  // ---------------------------------------------------------------- what the map holds

  /** Whether the map entry of a rule has exactly these addresses, ports and protocol. */
  predicate Speaks(parse: Parser, rule: Rule, t: Tuple) {
    Compile(parse, rule).Some? && Compile(parse, rule).value.0 == t
  }

  /** The last rule of the list that speaks about the tuple. */
  function LastRule(parse: Parser, rules: seq<Rule>, t: Tuple): Option<Rule> {
    if rules == [] then None
    else if Speaks(parse, rules[|rules| - 1], t) then Some(rules[|rules| - 1])
    else LastRule(parse, rules[..|rules| - 1], t)
  }

  /** The map holds, for every tuple, the action of the last rule about it. */
  lemma {:induction false} TableIsLastRule(parse: Parser, rules: seq<Rule>, t: Tuple)
    ensures t in TableOf(parse, rules) <==> LastRule(parse, rules, t).Some?
    ensures t in TableOf(parse, rules) ==>
              TableOf(parse, rules)[t] == if LastRule(parse, rules, t).value.action.Drop? then DENY else ALLOW
    decreases |rules|
  {
    if rules != [] {
      var front, last := rules[..|rules| - 1], rules[|rules| - 1];
      TableIsLastRule(parse, front, t);
    }
  }

  // ---------------------------------------------------------------- packets

  /** An IPv4 packet: `transport` bytes follow the IP header, of which the first four are the ports. */
  datatype Packet = Packet(saddr: U32, daddr: U32, protocol: U8, transport: nat, sport: Port, dport: Port)

  datatype Decision = PassOn | DropPacket | NextInChain

  /** The rule is about the packet's addresses and protocol and about these port numbers. */
  predicate About(parse: Parser, rule: Rule, p: Packet, sport: U16, dport: U16) {
    && parse(rule.saddr) == Some(p.saddr) && parse(rule.daddr) == Some(p.daddr)
    && rule.sport == sport && rule.dport == dport
    && ((rule.protocol.TcpRule? && p.protocol == 6) || (rule.protocol.UdpRule? && p.protocol == 17))
    && (rule.action.Drop? || rule.action.Accept?)
  }

  /** The last rule of the list about the packet and these port numbers. */
  function LastAbout(parse: Parser, rules: seq<Rule>, p: Packet, sport: U16, dport: U16): Option<Rule> {
    if rules == [] then None
    else if About(parse, rules[|rules| - 1], p, sport, dport) then Some(rules[|rules| - 1])
    else LastAbout(parse, rules[..|rules| - 1], p, sport, dport)
  }

  /** Two lists that say the same about every packet, whatever its ports are read as. */
  ghost predicate SaySame(parse: Parser, a: seq<Rule>, b: seq<Rule>) {
    forall p, sport, dport :: LastAbout(parse, a, p, sport, dport) == LastAbout(parse, b, p, sport, dport)
  }

  /** A rule of which every part is valid. */
  predicate WellFormed(parse: Parser, rule: Rule) {
    && parse(rule.saddr).Some? && parse(rule.daddr).Some?
    && (rule.protocol.TcpRule? || rule.protocol.UdpRule?) && (rule.action.Drop? || rule.action.Accept?)
  }

  function CountWellFormed(parse: Parser, config: seq<Rule>): nat {
    if config == [] then 0
    else CountWellFormed(parse, config[..|config| - 1]) + if WellFormed(parse, config[|config| - 1]) then 1 else 0
  }

  lemma {:induction false} ValidAreWellFormed(parse: Parser, config: seq<Rule>)
    ensures |ValidRules(parse, config)| == CountWellFormed(parse, config)
    ensures SaySame(parse, ValidRules(parse, config), config)
    decreases |config|
  {
    if config != [] {
      var front, last := config[..|config| - 1], config[|config| - 1];
      ValidAreWellFormed(parse, front);
      assert Compile(parse, last).Some? <==> WellFormed(parse, last);
      var kept := ValidRules(parse, front);
      assert (kept + [last])[..|kept|] == kept && kept + [] == kept;
    }
  }

  /** The first `k` valid rules are those of a beginning of the configuration. */
  lemma {:induction false} CutAfter(parse: Parser, config: seq<Rule>, k: nat) returns (n: nat)
    requires k <= |ValidRules(parse, config)|
    ensures n <= |config| && ValidRules(parse, config[..n]) == ValidRules(parse, config)[..k]
    decreases |config|
  {
    if k == |ValidRules(parse, config)| {
      n := |config|;
      assert config[..n] == config;
    } else {
      var front := config[..|config| - 1];
      n := CutAfter(parse, front, k);
      assert front[..n] == config[..n];
    }
  }

  /** What is recorded says the same as the configuration, up to its 10240th valid rule. */
  lemma RecordedSays(parse: Parser, config: seq<Rule>) returns (n: nat)
    ensures n <= |config| && SaySame(parse, Recorded(parse, config), config[..n])
    ensures CountWellFormed(parse, config[..n]) == Min(CountWellFormed(parse, config), 10240)
    ensures CountWellFormed(parse, config) <= 10240 ==> n == |config|
  {
    ValidAreWellFormed(parse, config);
    n := |config|;
    assert config[..n] == config;
    if CountWellFormed(parse, config) > 10240 {
      n := CutAfter(parse, config, 10240);
      ValidAreWellFormed(parse, config[..n]);
    }
  }

  function Min(a: nat, b: nat): nat {
    if a < b then a else b
  }

  /** The key under which the packet program looks for port numbers. */
  function KeyFor(p: Packet, sport: U16, dport: U16): Tuple {
    Tuple(p.saddr, p.daddr, Swap(sport), Swap(dport), p.protocol)
  }

  /** A rule is found there exactly if it is about the packet and these numbers. */
  lemma {:induction false} FoundIsAbout(parse: Parser, rules: seq<Rule>, p: Packet, sport: U16, dport: U16)
    ensures LastRule(parse, rules, KeyFor(p, sport, dport)) == LastAbout(parse, rules, p, sport, dport)
    decreases |rules|
  {
    if rules != [] {
      var front, last := rules[..|rules| - 1], rules[|rules| - 1];
      FoundIsAbout(parse, front, p, sport, dport);
      SwapInjective(last.sport, sport);
      SwapInjective(last.dport, dport);
    }
  }

  /** The map says about the key what the list says about the packet and these port numbers. */
  ghost predicate SaysAsList(parse: Parser, rules: seq<Rule>, p: Packet, tuple: Tuple, sport: U16, dport: U16) {
    var table, rule := TableOf(parse, rules), LastAbout(parse, rules, p, sport, dport);
    && (tuple in table <==> rule.Some?)
    && (rule.Some? ==> table[tuple] == if rule.value.action.Drop? then DENY else ALLOW)
  }

  lemma TableSays(parse: Parser, rules: seq<Rule>, p: Packet, sport: U16, dport: U16)
    ensures SaysAsList(parse, rules, p, KeyFor(p, sport, dport), sport, dport)
  {
    FoundIsAbout(parse, rules, p, sport, dport);
    TableIsLastRule(parse, rules, KeyFor(p, sport, dport));
  }

  lemma AnyPortKey(p: Packet, sport: U16, dport: U16)
    ensures KeyFor(p, 0, dport) == KeyFor(p, sport, dport).(sport := ANY_PORT)
  {
    SwapZero();
  }

  /** Both keys that the packet program looks up. */
  lemma BothSay(parse: Parser, rules: seq<Rule>, p: Packet, sport: U16, dport: U16)
    ensures var tuple := KeyFor(p, sport, dport);
            && SaysAsList(parse, rules, p, tuple.(sport := ANY_PORT), 0, dport)
            && SaysAsList(parse, rules, p, tuple, sport, dport)
  {
    AnyPortKey(p, sport, dport);
    TableSays(parse, rules, p, 0, dport);
    TableSays(parse, rules, p, sport, dport);
  }

  /** A rule for any source port decides over one for the packet's; then the last rule decides. */
  predicate ListDrops(parse: Parser, rules: seq<Rule>, p: Packet, sport: U16, dport: U16) {
    var any, own := LastAbout(parse, rules, p, 0, dport), LastAbout(parse, rules, p, sport, dport);
    if any.Some? then any.value.action.Drop? else own.Some? && own.value.action.Drop?
  }

  /** The port numbers as the program reads them, or None where it gives up. */
  function Extracted(p: Packet): Option<(U16, U16)> {
    var ports := (p.sport.Number(), p.dport.Number());
    if p.protocol != IPPROTO_TCP && p.protocol != IPPROTO_UDP then None
    else if p.transport >= TCP_HEADER then Some(if p.protocol == IPPROTO_TCP then ports else (0, 0))
    else if p.transport >= UDP_HEADER then Some(if p.protocol == IPPROTO_UDP then ports else (0, 0))
    else None
  }

  /** The decision that a scan of the list makes for the given reading of the ports. */
  function Decide(parse: Parser, rules: seq<Rule>, p: Packet, ports: Option<(U16, U16)>): Decision {
    match ports
    case None => PassOn
    case Some((sport, dport)) => if ListDrops(parse, rules, p, sport, dport) then DropPacket else NextInChain
  }

  /** The ports the packet really has, where it is long enough to have any for its protocol. */
  function RealPorts(p: Packet): Option<(U16, U16)> {
    if p.protocol != 6 && p.protocol != 17 then None
    else if p.transport < 8 then None
    else Some((256 * p.sport.first + p.sport.second, 256 * p.dport.first + p.dport.second))
  }

  /** TCP headers that are cut short and UDP packets of twenty bytes and more are judged by ports 0. */
  predicate Misread(p: Packet) {
    && (p.sport.Number() != 0 || p.dport.Number() != 0)
    && ((p.protocol == 6 && 8 <= p.transport < 20) || (p.protocol == 17 && p.transport >= 20))
  }

  lemma ExtractionExact(p: Packet)
    ensures Extracted(p) == RealPorts(p) <==> !Misread(p)
  {
  }

  /**
  The program follows the list on the packet's real ports, whatever the list, exactly when it does not misread
  them.
  */
  lemma FollowsListExactly(parse: Parser, p: Packet, saddr: string, daddr: string)
    requires parse(saddr) == Some(p.saddr) && parse(daddr) == Some(p.daddr)
    ensures (forall rules :: Decide(parse, rules, p, Extracted(p)) == Decide(parse, rules, p, RealPorts(p))) <==>
            !Misread(p)
  {
    if Misread(p) {
      SomeRuleMissed(parse, p, saddr, daddr);
    } else {
      ExtractionExact(p);
    }
  }

  function MissedRule(p: Packet, saddr: string, daddr: string): Rule {
    Rule(saddr, daddr, p.sport.Number(), p.dport.Number(), if p.protocol == IPPROTO_TCP then TcpRule else UdpRule, Drop)
  }

  lemma SingleRule(parse: Parser, rule: Rule, p: Packet, sport: U16, dport: U16)
    ensures LastAbout(parse, [rule], p, sport, dport) ==
            if About(parse, rule, p, sport, dport) then Some(rule) else None
  {
    assert [rule][..0] == [];
    assert LastAbout(parse, [], p, sport, dport) == None;
  }

  /** A list of one rule, which drops, for one pair of ports. */
  lemma OneRuleDrops(parse: Parser, rule: Rule, p: Packet, sport: U16, dport: U16)
    requires About(parse, rule, p, rule.sport, rule.dport) && rule.action.Drop?
    ensures ListDrops(parse, [rule], p, sport, dport) <==>
            dport == rule.dport && (rule.sport == 0 || rule.sport == sport)
  {
    SingleRule(parse, rule, p, sport, dport);
    SingleRule(parse, rule, p, 0, dport);
  }

  /** A rule written for exactly this packet does not drop it. */
  lemma MissedRuleMisses(parse: Parser, p: Packet, saddr: string, daddr: string)
    requires parse(saddr) == Some(p.saddr) && parse(daddr) == Some(p.daddr) && Misread(p)
    ensures Decide(parse, [MissedRule(p, saddr, daddr)], p, Extracted(p)) == NextInChain
    ensures Decide(parse, [MissedRule(p, saddr, daddr)], p, RealPorts(p)) == DropPacket
  {
    var rule := MissedRule(p, saddr, daddr);
    OneRuleDrops(parse, rule, p, p.sport.Number(), p.dport.Number());
    OneRuleDrops(parse, rule, p, 0, 0);
  }

  lemma SomeRuleMissed(parse: Parser, p: Packet, saddr: string, daddr: string)
    requires parse(saddr) == Some(p.saddr) && parse(daddr) == Some(p.daddr) && Misread(p)
    ensures exists rules :: Decide(parse, rules, p, Extracted(p)) != Decide(parse, rules, p, RealPorts(p))
  {
    var rules := [MissedRule(p, saddr, daddr)];
    MissedRuleMisses(parse, p, saddr, daddr);
    assert Decide(parse, rules, p, Extracted(p)) != Decide(parse, rules, p, RealPorts(p));
  }

  // ---------------------------------------------------------------- the service

  class Service {
    const parse: Parser
    const table: BpfHash<Tuple, U32>
    var rules: seq<Rule>

    constructor (parse: Parser)
      ensures Valid() && rules == [] && this.parse == parse
    {
      this.parse := parse;
      table := new BpfHash(MAX_RULES_SIZE);
      rules := [];
    }

    /** The map always holds the recorded rules. */
    ghost predicate Valid()
      reads this, table
    {
      && table.Valid() && table.capacity == MAX_RULES_SIZE
      && |rules| <= MAX_RULES_SIZE && table.entries == TableOf(parse, rules)
    }

    method ClearKernelRules()
      requires Valid()
      modifies this, table
      ensures Valid() && rules == [] && table.entries == map[]
    {
      var _ := CollectThenDelete(table);
      rules := [];
    }

    /** Inserts and records one rule.  Below the limit the map is never full, so the failing branch is never taken. */
    method InsertRule(rule: Rule) returns (ok: bool)
      requires Valid() && Compile(parse, rule).Some? && |rules| < MAX_RULES_SIZE
      modifies this, table
      ensures Valid() && ok && rules == old(rules) + [rule]
    {
      TableNoLarger(parse, rules);
      TableSnoc(parse, rules, rule);
      var (tuple, action) := Compile(parse, rule).value;
      ok := table.Update(tuple, action);
      if ok {
        rules := rules + [rule];
      }
    }

    /** Records exactly the valid rules of the configuration, up to the limit. */
    method OnConfigUpdate(config: seq<Rule>)
      requires Valid()
      modifies this, table
      ensures Valid() && rules == Recorded(parse, config)
      ensures CountWellFormed(parse, config) <= 10240 ==> SaySame(parse, rules, config)
    {
      ghost var n := RecordedSays(parse, config);
      assert config[..|config|] == config;
      ClearKernelRules();
      for i := 0 to |config|
        invariant Valid() && rules == ValidRules(parse, config[..i]) && |rules| < MAX_RULES_SIZE
      {
        ValidSnoc(parse, config, i);
        if Compile(parse, config[i]).Some? {
          var _ := InsertRule(config[i]);
          if |rules| >= MAX_RULES_SIZE {
            ValidPrefix(parse, config, i + 1);
            return;
          }
        }
      }
    }

    /**
    The packet program: any source port first, then the packet's.  It gives up exactly on packets that are neither
    TCP nor UDP or have fewer than eight bytes behind the IP header, and else decides as a scan of the list.
    */
    method Filter(p: Packet) returns (d: Decision)
      requires Valid()
      ensures d == PassOn <==> (p.protocol != 6 && p.protocol != 17) || p.transport < 8
      ensures d == Decide(parse, rules, p, Extracted(p))
      ensures d != PassOn && !Misread(p) ==>
                var any := LastAbout(parse, rules, p, 0, 256 * p.dport.first + p.dport.second);
                var own := LastAbout(parse, rules, p, 256 * p.sport.first + p.sport.second,
                                     256 * p.dport.first + p.dport.second);
                d == DropPacket <==> if any.Some? then any.value.action.Drop?
                                     else own.Some? && own.value.action.Drop?
    {
      var ports := ReadPorts(p);
      if ports.None? {
        return PassOn;
      }
      ghost var (sport, dport) := Extracted(p).value;
      BothSay(parse, rules, p, sport, dport);
      var (source, dest) := ports.value;
      d := LookUp(p, Tuple(p.saddr, p.daddr, source, dest, p.protocol), sport, dport);
      ExtractionExact(p);
    }

    /** The words of the ports.  The length tests: a TCP header first, whatever the protocol, then a UDP header. */
    method ReadPorts(p: Packet) returns (ports: Option<(U16, U16)>)
      ensures ports == match Extracted(p) {
                         case None => None
                         case Some((sport, dport)) => Some((Swap(sport), Swap(dport)))
                       }
    {
      SwapZero();
      WordOf(p.sport);
      WordOf(p.dport);
      var source: U16, dest: U16 := 0, 0;
      if p.protocol == IPPROTO_TCP || p.protocol == IPPROTO_UDP {
        if p.transport >= TCP_HEADER {
          if p.protocol == IPPROTO_TCP {
            source, dest := p.sport.Word(), p.dport.Word();
          }
        } else if p.transport >= UDP_HEADER {
          if p.protocol == IPPROTO_UDP {
            source, dest := p.sport.Word(), p.dport.Word();
          }
        } else {
          return None;
        }
      } else {
        return None;
      }
      return Some((source, dest));
    }

    /** Two lookups in the map: any source port first, then the packet's. */
    method LookUp(p: Packet, key: Tuple, ghost sport: U16, ghost dport: U16) returns (d: Decision)
      requires Valid() && SaysAsList(parse, rules, p, key, sport, dport)
      requires SaysAsList(parse, rules, p, key.(sport := ANY_PORT), 0, dport)
      ensures d == if ListDrops(parse, rules, p, sport, dport) then DropPacket else NextInChain
    {
      var action := table.Lookup(key.(sport := ANY_PORT));
      if action.None? {
        action := table.Lookup(key);
      }
      if action.Some? && action.value == DENY {
        return DropPacket;
      }
      return NextInChain;
    }
  }
}
