/**
Load balancing: the tables user space compiles (src/services/lb/lb_base.tpp) and the packet program's choice of a
backend (src/services/lb/lb_xdp.bpf.c).
*/
module Lb {
  import opened KernelMaps
  import opened Wire
  import opened Wrappers

  const MAX_BACKENDS_PER_VIP := 8
  const TOTAL_BACKENDS := 256
  const MAXSIZE_LB_HASH := 64
  const MAX_RULES_SIZE := 10240

  type Mac = m: seq<U8> | |m| == 6 witness [0, 0, 0, 0, 0, 0]
  const ZERO_MAC: Mac := [0, 0, 0, 0, 0, 0]

  /** A virtual address, its port, and the MAC addresses of its backends, as written in the configuration. */
  datatype Rule = Rule(vip: string, vport: U16, backends: seq<string>)

  datatype VipKey = VipKey(vip: U32, vport: U16)

  type Slots8 = s: seq<U32> | |s| == MAX_BACKENDS_PER_VIP witness [0, 0, 0, 0, 0, 0, 0, 0]
  datatype VipGroup = VipGroup(count: nat, backends: Slots8)

  /** The two text formats: an IPv4 address in network order, and six hexadecimal bytes. */
  datatype Formats = Formats(ip: string -> Option<U32>, mac: string -> Option<Mac>)

  function Min(a: nat, b: nat): nat {
    if a < b then a else b
  }

  /** How many backends of a rule count. */
  function Count(rule: Rule): nat {
    Min(|rule.backends|, MAX_BACKENDS_PER_VIP)
  }

  /** How many of them get a place in the pool when `next` places are taken. */
  function Taken(rule: Rule, next: nat): nat
    requires next <= TOTAL_BACKENDS
  {
    Min(Count(rule), TOTAL_BACKENDS - next)
  }

  /** Whether the i-th backend gets its own pool entry. */
  predicate HasEntry(fmt: Formats, rule: Rule, next: nat, i: nat)
    requires next <= TOTAL_BACKENDS
  {
    i < Taken(rule, next) && fmt.mac(rule.backends[i]).Some?
  }

  /** The group of a rule whose places start at `base`: backends without an entry of their own point at place 0. */
  function GroupOf(fmt: Formats, rule: Rule, base: nat): (g: VipGroup)
    requires base <= TOTAL_BACKENDS
  {
    VipGroup(Count(rule),
             seq(MAX_BACKENDS_PER_VIP, i requires 0 <= i => if HasEntry(fmt, rule, base, i) then base + i else 0))
  }

  /** The pool holds the backends of a rule whose places start at `base`. */
  ghost predicate Entered(fmt: Formats, rule: Rule, base: nat, pool: seq<Mac>)
    requires base <= TOTAL_BACKENDS == |pool|
  {
    forall i | 0 <= i < Taken(rule, base) && fmt.mac(rule.backends[i]).Some? ::
      pool[base + i] == fmt.mac(rule.backends[i]).value
  }

  /** The j-th place after entering the first `count` backends: one whose MAC is not valid leaves it alone. */
  function FilledAt(fmt: Formats, rule: Rule, base: nat, count: nat, pool: seq<Mac>, j: nat): Mac
    requires count <= |rule.backends| && j < |pool|
  {
    if base <= j < base + count && fmt.mac(rule.backends[j - base]).Some? then fmt.mac(rule.backends[j - base]).value
    else pool[j]
  }

  function Filled(fmt: Formats, rule: Rule, base: nat, count: nat, pool: seq<Mac>): (filled: seq<Mac>)
    requires count <= |rule.backends|
    ensures |filled| == |pool|
  {
    seq(|pool|, j requires 0 <= j < |pool| => FilledAt(fmt, rule, base, count, pool, j))
  }

  lemma FilledNext(fmt: Formats, rule: Rule, base: nat, count: nat, pool: seq<Mac>)
    requires count < |rule.backends| && base + count < |pool|
    ensures var mac := fmt.mac(rule.backends[count]);
            Filled(fmt, rule, base, count + 1, pool) ==
            if mac.Some? then Filled(fmt, rule, base, count, pool)[base + count := mac.value]
            else Filled(fmt, rule, base, count, pool)
  {
  }

  /** Nothing outside the places from `base` on, `count` of them, has changed. */
  ghost predicate UntouchedOutside(before: seq<Mac>, after: seq<Mac>, base: nat, count: nat)
    requires |before| == |after|
  {
    forall j | 0 <= j < |before| && !(base <= j < base + count) :: after[j] == before[j]
  }

  // ---------------------------------------------------------------- what a sound pair of tables is

  /** The last recorded rule for an address and port. */
  function LastRule(fmt: Formats, rules: seq<Rule>, key: VipKey): Option<Rule> {
    if rules == [] then None
    else if KeyOf(fmt, rules[|rules| - 1]) == Some(key) then Some(rules[|rules| - 1])
    else LastRule(fmt, rules[..|rules| - 1], key)
  }

  function KeyOf(fmt: Formats, rule: Rule): Option<VipKey> {
    match fmt.ip(rule.vip)
    case None => None
    case Some(ip) => Some(VipKey(ip, Swap(rule.vport)))
  }

  /** Places `base` to `base + Taken` belong to the rule. */
  ghost predicate Placed(fmt: Formats, rule: Rule, base: nat, next: nat, group: VipGroup, pool: seq<Mac>)
    requires |pool| == TOTAL_BACKENDS
  {
    && base <= TOTAL_BACKENDS && base + Taken(rule, base) <= next
    && group == GroupOf(fmt, rule, base) && Entered(fmt, rule, base, pool)
  }

  /**
  The tables agree with the recorded rules: each address and port has the group of the last rule about it, whose
  places are its own.  `bases` says where they start.
  */
  ghost predicate Sound(fmt: Formats, rules: seq<Rule>, groups: map<VipKey, VipGroup>, pool: seq<Mac>, next: nat,
                        bases: map<VipKey, nat>) {
    && |pool| == TOTAL_BACKENDS && next <= TOTAL_BACKENDS && bases.Keys == groups.Keys
    && GroupsFollow(fmt, rules, groups)
    && GroupsPlaced(fmt, rules, groups, pool, next, bases)
    && GroupsApart(fmt, rules, groups, bases)
  }

  ghost predicate GroupsFollow(fmt: Formats, rules: seq<Rule>, groups: map<VipKey, VipGroup>) {
    forall key :: key in groups <==> LastRule(fmt, rules, key).Some?
  }

  ghost predicate GroupsPlaced(fmt: Formats, rules: seq<Rule>, groups: map<VipKey, VipGroup>, pool: seq<Mac>, next: nat,
                               bases: map<VipKey, nat>)
    requires GroupsFollow(fmt, rules, groups) && bases.Keys == groups.Keys && |pool| == TOTAL_BACKENDS
  {
    forall key | key in groups :: Placed(fmt, LastRule(fmt, rules, key).value, bases[key], next, groups[key], pool)
  }

  ghost predicate GroupsApart(fmt: Formats, rules: seq<Rule>, groups: map<VipKey, VipGroup>, bases: map<VipKey, nat>)
    requires GroupsFollow(fmt, rules, groups) && bases.Keys == groups.Keys
  {
    forall a, b | a in groups && b in groups && a != b ::
      ApartFrom(LastRule(fmt, rules, a).value, bases[a], LastRule(fmt, rules, b).value, bases[b])
  }

  predicate ApartFrom(ra: Rule, a: nat, rb: Rule, b: nat) {
    a <= TOTAL_BACKENDS && b <= TOTAL_BACKENDS && (a + Taken(ra, a) <= b || b + Taken(rb, b) <= a)
  }

  lemma EmptyIsSound(fmt: Formats, pool: seq<Mac>)
    requires |pool| == TOTAL_BACKENDS
    ensures Sound(fmt, [], map[], pool, 0, map[])
  {
  }

  lemma LastRuleSnoc(fmt: Formats, rules: seq<Rule>, rule: Rule, key: VipKey)
    ensures LastRule(fmt, rules + [rule], key) ==
            if KeyOf(fmt, rule) == Some(key) then Some(rule) else LastRule(fmt, rules, key)
  {
    assert (rules + [rule])[..|rules|] == rules;
  }

  /** Entering a rule's backends after all others disturbs none of them, */
  lemma EnteringKeepsSound(fmt: Formats, rules: seq<Rule>, groups: map<VipKey, VipGroup>, pool: seq<Mac>, next: nat,
                           bases: map<VipKey, nat>, rule: Rule, pool': seq<Mac>)
    requires Sound(fmt, rules, groups, pool, next, bases) && |pool'| == TOTAL_BACKENDS
    requires UntouchedOutside(pool, pool', next, Taken(rule, next))
    ensures Sound(fmt, rules, groups, pool', next + Taken(rule, next), bases)
  {
    forall key | key in groups
      ensures Placed(fmt, LastRule(fmt, rules, key).value, bases[key], next + Taken(rule, next), groups[key], pool')
    {
      assert Placed(fmt, LastRule(fmt, rules, key).value, bases[key], next, groups[key], pool);
    }
  }

  /** and their group then replaces whatever the rule's address and port had. */
  lemma RecordingKeepsSound(fmt: Formats, rules: seq<Rule>, groups: map<VipKey, VipGroup>, pool: seq<Mac>, next: nat,
                            bases: map<VipKey, nat>, rule: Rule, base: nat)
    requires Sound(fmt, rules, groups, pool, next, bases) && KeyOf(fmt, rule).Some?
    requires base <= TOTAL_BACKENDS && base + Taken(rule, base) == next && Entered(fmt, rule, base, pool)
    requires forall key | key in groups :: bases[key] + Taken(LastRule(fmt, rules, key).value, bases[key]) <= base
    ensures var key := KeyOf(fmt, rule).value;
            Sound(fmt, rules + [rule], groups[key := GroupOf(fmt, rule, base)], pool, next, bases[key := base])
  {
    forall key {
      LastRuleSnoc(fmt, rules, rule, key);
    }
  }

  /** The backends of a rule are in the pool; recording its group or not, the tables are sound. */
  ghost predicate Installable(fmt: Formats, rules: seq<Rule>, groups: map<VipKey, VipGroup>, pool: seq<Mac>, next: nat,
                              bases: map<VipKey, nat>, rule: Rule, base: nat, group: VipGroup) {
    && KeyOf(fmt, rule).Some? && groups.Keys == KeysOf(fmt, rules)
    && Sound(fmt, rules, groups, pool, next, bases)
    && Sound(fmt, rules + [rule], groups[KeyOf(fmt, rule).value := group], pool, next,
             bases[KeyOf(fmt, rule).value := base])
  }

  /** One rule: enter its backends, then record it unless the hash is full. */
  lemma InstallKeepsSound(fmt: Formats, rules: seq<Rule>, groups: map<VipKey, VipGroup>, pool: seq<Mac>, next: nat,
                          bases: map<VipKey, nat>, rule: Rule, pool': seq<Mac>)
    requires Sound(fmt, rules, groups, pool, next, bases) && KeyOf(fmt, rule).Some? && |pool'| == TOTAL_BACKENDS
    requires Entered(fmt, rule, next, pool') && UntouchedOutside(pool, pool', next, Taken(rule, next))
    ensures Installable(fmt, rules, groups, pool', next + Taken(rule, next), bases, rule, next,
                        GroupOf(fmt, rule, next))
  {
    SoundKeys(fmt, rules, groups, pool, next, bases);
    EnteringKeepsSound(fmt, rules, groups, pool, next, bases, rule, pool');
    forall key | key in groups
      ensures bases[key] + Taken(LastRule(fmt, rules, key).value, bases[key]) <= next
    {
      assert Placed(fmt, LastRule(fmt, rules, key).value, bases[key], next, groups[key], pool);
    }
    RecordingKeepsSound(fmt, rules, groups, pool', next + Taken(rule, next), bases, rule, next);
  }

  // ---------------------------------------------------------------- what an update records and places

  ghost function KeysOf(fmt: Formats, rules: seq<Rule>): set<VipKey> {
    set r | r in rules && KeyOf(fmt, r).Some? :: KeyOf(fmt, r).value
  }

  /** A valid rule is recorded unless 64 other addresses and ports are; recording stops at the limit. */
  ghost predicate Admits(fmt: Formats, before: seq<Rule>, rule: Rule) {
    && |before| < MAX_RULES_SIZE && KeyOf(fmt, rule).Some?
    && (KeyOf(fmt, rule).value in KeysOf(fmt, before) || |KeysOf(fmt, before)| < MAXSIZE_LB_HASH)
  }

  ghost function Recorded(fmt: Formats, config: seq<Rule>): seq<Rule> {
    if config == [] then []
    else
      var before, last := Recorded(fmt, config[..|config| - 1]), config[|config| - 1];
      if Admits(fmt, before, last) then before + [last] else before
  }

  /** How many places the rules with valid addresses ask for. */
  function Wanted(fmt: Formats, config: seq<Rule>): nat {
    if config == [] then 0
    else
      var last := config[|config| - 1];
      Wanted(fmt, config[..|config| - 1]) + if KeyOf(fmt, last).Some? then Count(last) else 0
  }

  /** Where the places of a rule behind `config` start. */
  function BaseAfter(fmt: Formats, config: seq<Rule>): nat {
    Min(TOTAL_BACKENDS, Wanted(fmt, config))
  }

  /** Place 0 after a rule whose places start at `base`: a backend whose MAC address is not valid leaves it alone. */
  function FirstPlace(fmt: Formats, rule: Rule, base: nat, was: Mac): Mac {
    if base == 0 && Count(rule) > 0 && fmt.mac(rule.backends[0]).Some? then fmt.mac(rule.backends[0]).value else was
  }

  /** Place 0 after an update: nothing is entered once the limit of rules is reached. */
  ghost function FirstOf(fmt: Formats, config: seq<Rule>, was: Mac): Mac {
    if config == [] then was
    else
      var front, last := config[..|config| - 1], config[|config| - 1];
      var before := FirstOf(fmt, front, was);
      if |Recorded(fmt, front)| < MAX_RULES_SIZE && KeyOf(fmt, last).Some?
      then FirstPlace(fmt, last, BaseAfter(fmt, front), before)
      else before
  }

  lemma FirstSnoc(fmt: Formats, config: seq<Rule>, i: nat, was: Mac)
    requires i < |config| && |Recorded(fmt, config[..i])| < MAX_RULES_SIZE
    ensures FirstOf(fmt, config[..i + 1], was) ==
            if KeyOf(fmt, config[i]).Some?
            then FirstPlace(fmt, config[i], BaseAfter(fmt, config[..i]), FirstOf(fmt, config[..i], was))
            else FirstOf(fmt, config[..i], was)
  {
    assert config[..i + 1][..i] == config[..i];
  }

  lemma {:induction false} FirstStops(fmt: Formats, config: seq<Rule>, i: nat, was: Mac)
    requires i <= |config| && |Recorded(fmt, config[..i])| >= MAX_RULES_SIZE
    ensures FirstOf(fmt, config, was) == FirstOf(fmt, config[..i], was)
    decreases |config|
  {
    if i < |config| {
      var front := config[..|config| - 1];
      assert front[..i] == config[..i];
      RecordedStops(fmt, front, i);
      FirstStops(fmt, front, i, was);
    } else {
      assert config[..i] == config;
    }
  }

  /** The first rule with a valid address and any backends. */
  ghost predicate FirstAsking(fmt: Formats, config: seq<Rule>, i: nat) {
    i < |config| && KeyOf(fmt, config[i]).Some? && Count(config[i]) > 0 && Wanted(fmt, config[..i]) == 0
  }

  lemma {:induction false} NothingWanted(fmt: Formats, config: seq<Rule>, was: Mac)
    requires Wanted(fmt, config) == 0
    ensures FirstOf(fmt, config, was) == was
    decreases |config|
  {
    if config != [] {
      NothingWanted(fmt, config[..|config| - 1], was);
    }
  }

  /** It alone decides about place 0, if the limit leaves it a turn. */
  lemma {:induction false} FirstOfExactly(fmt: Formats, config: seq<Rule>, i: nat, was: Mac)
    requires FirstAsking(fmt, config, i)
    ensures FirstOf(fmt, config, was) ==
            if |Recorded(fmt, config[..i])| < MAX_RULES_SIZE then FirstPlace(fmt, config[i], 0, was) else was
    decreases |config|
  {
    NothingWanted(fmt, config[..i], was);
    if |Recorded(fmt, config[..i])| >= MAX_RULES_SIZE {
      FirstStops(fmt, config, i, was);
    } else if i < |config| - 1 {
      var front := config[..|config| - 1];
      assert front[..i] == config[..i];
      FirstOfExactly(fmt, front, i, was);
      RecordedSnoc(fmt, front, i);
      WantedGrows(fmt, front, i + 1);
    }
  }

  /** Where the places of each address and port start. */
  ghost function BasesOf(fmt: Formats, config: seq<Rule>): map<VipKey, nat> {
    if config == [] then map[]
    else
      var front, last := config[..|config| - 1], config[|config| - 1];
      if Admits(fmt, Recorded(fmt, front), last)
      then BasesOf(fmt, front)[KeyOf(fmt, last).value := BaseAfter(fmt, front)]
      else BasesOf(fmt, front)
  }

  /** The i-th rule of the configuration is recorded for the key. */
  ghost predicate RecordedFor(fmt: Formats, config: seq<Rule>, key: VipKey, i: nat) {
    i < |config| && KeyOf(fmt, config[i]) == Some(key) && Admits(fmt, Recorded(fmt, config[..i]), config[i])
  }

  /** And it is the last. */
  ghost predicate LastFor(fmt: Formats, config: seq<Rule>, key: VipKey, i: nat) {
    RecordedFor(fmt, config, key, i) && forall j: nat | i < j < |config| :: !RecordedFor(fmt, config, key, j)
  }

  lemma RecordedForFront(fmt: Formats, config: seq<Rule>, key: VipKey, i: nat)
    requires i < |config| - 1
    ensures RecordedFor(fmt, config, key, i) <==> RecordedFor(fmt, config[..|config| - 1], key, i)
  {
    assert config[..|config| - 1][..i] == config[..i];
  }

  lemma LastForFront(fmt: Formats, config: seq<Rule>, key: VipKey, i: nat)
    requires i < |config| - 1
    ensures LastFor(fmt, config, key, i) <==>
            LastFor(fmt, config[..|config| - 1], key, i) && !RecordedFor(fmt, config, key, |config| - 1)
  {
    var front := config[..|config| - 1];
    RecordedForFront(fmt, config, key, i);
    if LastFor(fmt, config, key, i) {
      forall j: nat | i < j < |front| ensures !RecordedFor(fmt, front, key, j) {
        RecordedForFront(fmt, config, key, j);
      }
    }
    if LastFor(fmt, front, key, i) && !RecordedFor(fmt, config, key, |front|) {
      forall j: nat | i < j < |config| ensures !RecordedFor(fmt, config, key, j) {
        if j < |front| {
          RecordedForFront(fmt, config, key, j);
        }
      }
    }
  }

  /** It is the rule that governs the key, and its places start behind those that the rules before it asked for. */
  lemma {:induction false} LastForGoverns(fmt: Formats, config: seq<Rule>, key: VipKey, i: nat)
    requires LastFor(fmt, config, key, i)
    ensures LastRule(fmt, Recorded(fmt, config), key) == Some(config[i])
    ensures key in BasesOf(fmt, config) && BasesOf(fmt, config)[key] == BaseAfter(fmt, config[..i])
    decreases |config|
  {
    var front, last := config[..|config| - 1], config[|config| - 1];
    LastRuleSnoc(fmt, Recorded(fmt, front), last, key);
    if i < |config| - 1 {
      LastForFront(fmt, config, key, i);
      LastForGoverns(fmt, front, key, i);
      assert front[..i] == config[..i];
    }
  }

  /** Every key with a place has such a rule. */
  lemma {:induction false} SomeLastFor(fmt: Formats, config: seq<Rule>, key: VipKey) returns (i: nat)
    requires key in BasesOf(fmt, config) || LastRule(fmt, Recorded(fmt, config), key).Some?
    ensures LastFor(fmt, config, key, i)
    decreases |config|
  {
    var front, last := config[..|config| - 1], config[|config| - 1];
    LastRuleSnoc(fmt, Recorded(fmt, front), last, key);
    if Admits(fmt, Recorded(fmt, front), last) && KeyOf(fmt, last) == Some(key) {
      i := |config| - 1;
    } else {
      i := SomeLastFor(fmt, front, key);
      LastForFront(fmt, config, key, i);
    }
  }

  /** Every counted backend of every group has its place. */
  ghost predicate AllPlaced(fmt: Formats, rules: seq<Rule>, bases: map<VipKey, nat>) {
    forall key | key in bases ::
      && bases[key] <= TOTAL_BACKENDS && LastRule(fmt, rules, key).Some?
      && Taken(LastRule(fmt, rules, key).value, bases[key]) == Count(LastRule(fmt, rules, key).value)
  }

  lemma {:induction false} WantedGrows(fmt: Formats, config: seq<Rule>, i: nat)
    requires i <= |config|
    ensures Wanted(fmt, config[..i]) <= Wanted(fmt, config)
    decreases |config|
  {
    if i < |config| {
      WantedGrows(fmt, config[..|config| - 1], i);
      assert config[..|config| - 1][..i] == config[..i];
    } else {
      assert config[..i] == config;
    }
  }

  lemma RecordedSnoc(fmt: Formats, config: seq<Rule>, i: nat)
    requires i < |config|
    ensures var before, rule := Recorded(fmt, config[..i]), config[i];
            && Recorded(fmt, config[..i + 1]) == (if Admits(fmt, before, rule) then before + [rule] else before)
            && BasesOf(fmt, config[..i + 1]) ==
               (if Admits(fmt, before, rule)
                then BasesOf(fmt, config[..i])[KeyOf(fmt, rule).value := BaseAfter(fmt, config[..i])]
                else BasesOf(fmt, config[..i]))
            && Wanted(fmt, config[..i + 1]) ==
               Wanted(fmt, config[..i]) + if KeyOf(fmt, rule).Some? then Count(rule) else 0
  {
    assert config[..i + 1][..i] == config[..i];
  }

  /** Once the limit is reached nothing more is recorded. */
  lemma {:induction false} RecordedStops(fmt: Formats, config: seq<Rule>, i: nat)
    requires i <= |config| && |Recorded(fmt, config[..i])| >= MAX_RULES_SIZE
    ensures Recorded(fmt, config) == Recorded(fmt, config[..i]) && BasesOf(fmt, config) == BasesOf(fmt, config[..i])
    decreases |config|
  {
    if i < |config| {
      assert config[..|config| - 1][..i] == config[..i];
      RecordedStops(fmt, config[..|config| - 1], i);
    } else {
      assert config[..i] == config;
    }
  }

  /** When the configuration asks for no more places than there are, every backend gets its own. */
  lemma RoomForAll(fmt: Formats, config: seq<Rule>)
    requires Wanted(fmt, config) <= TOTAL_BACKENDS
    ensures AllPlaced(fmt, Recorded(fmt, config), BasesOf(fmt, config))
  {
    forall key | key in BasesOf(fmt, config)
      ensures && BasesOf(fmt, config)[key] <= TOTAL_BACKENDS && LastRule(fmt, Recorded(fmt, config), key).Some?
              && var rule := LastRule(fmt, Recorded(fmt, config), key).value;
                 Taken(rule, BasesOf(fmt, config)[key]) == Count(rule)
    {
      var i := SomeLastFor(fmt, config, key);
      LastForGoverns(fmt, config, key, i);
      RecordedSnoc(fmt, config, i);
      WantedGrows(fmt, config, i + 1);
    }
  }

  lemma {:induction false} LastRuleKeys(fmt: Formats, rules: seq<Rule>, key: VipKey)
    ensures LastRule(fmt, rules, key).Some? <==> key in KeysOf(fmt, rules)
    ensures LastRule(fmt, rules, key).Some? ==>
              LastRule(fmt, rules, key).value in rules && KeyOf(fmt, LastRule(fmt, rules, key).value) == Some(key)
    decreases |rules|
  {
    if rules != [] {
      var front, last := rules[..|rules| - 1], rules[|rules| - 1];
      LastRuleKeys(fmt, front, key);
      assert rules == front + [last];
    }
  }

  /** In sound tables the keys are those of the recorded rules. */
  lemma SoundKeys(fmt: Formats, rules: seq<Rule>, groups: map<VipKey, VipGroup>, pool: seq<Mac>, next: nat,
                  bases: map<VipKey, nat>)
    requires Sound(fmt, rules, groups, pool, next, bases)
    ensures groups.Keys == KeysOf(fmt, rules)
  {
    forall key ensures key in groups <==> key in KeysOf(fmt, rules) {
      LastRuleKeys(fmt, rules, key);
    }
  }

  /** What entering the backends of a rule means for the pool. */
  lemma FilledIs(fmt: Formats, rule: Rule, base: nat, pool: seq<Mac>)
    requires base <= TOTAL_BACKENDS == |pool|
    ensures var filled := Filled(fmt, rule, base, Taken(rule, base), pool);
            && Entered(fmt, rule, base, filled) && UntouchedOutside(pool, filled, base, Taken(rule, base))
            && filled[0] == FirstPlace(fmt, rule, base, pool[0])
  {
  }

  // ---------------------------------------------------------------- the reference and the packet program

  /** An IPv4 packet: `transport` bytes follow the IP header, the third and fourth of which are the port. */
  datatype Packet = Packet(saddr: U32, daddr: U32, protocol: U8, transport: nat, dport: Port)

  /** The rule is about packets to this address and port. */
  predicate About(fmt: Formats, rule: Rule, daddr: U32, dport: Port) {
    fmt.ip(rule.vip) == Some(daddr) && rule.vport == 256 * dport.first + dport.second
  }

  /** The last rule of the list about them. */
  function LastAbout(fmt: Formats, rules: seq<Rule>, daddr: U32, dport: Port): Option<Rule> {
    if rules == [] then None
    else if About(fmt, rules[|rules| - 1], daddr, dport) then Some(rules[|rules| - 1])
    else LastAbout(fmt, rules[..|rules| - 1], daddr, dport)
  }

  /** The key under which the packet program looks for them: the port's bytes as one word. */
  function KeyFor(daddr: U32, dport: Port): VipKey {
    VipKey(daddr, dport.Word())
  }

  /** A rule is filed under that key exactly if it is about such packets, */
  lemma FiledIsAbout(fmt: Formats, rule: Rule, daddr: U32, dport: Port)
    ensures KeyOf(fmt, rule) == Some(KeyFor(daddr, dport)) <==> About(fmt, rule, daddr, dport)
  {
    SwapIsWord(rule.vport, dport);
  }

  /** so the rule that governs the key is the last one about them. */
  lemma {:induction false} GoverningIsAbout(fmt: Formats, rules: seq<Rule>, daddr: U32, dport: Port)
    ensures LastRule(fmt, rules, KeyFor(daddr, dport)) == LastAbout(fmt, rules, daddr, dport)
    decreases |rules|
  {
    if rules != [] {
      FiledIsAbout(fmt, rules[|rules| - 1], daddr, dport);
      GoverningIsAbout(fmt, rules[..|rules| - 1], daddr, dport);
    }
  }

  /** The backend that the recorded rules give a packet: the source address picks one of the first eight. */
  function ListPick(fmt: Formats, rules: seq<Rule>, daddr: U32, dport: Port, saddr: U32): Option<Mac> {
    var rule := LastAbout(fmt, rules, daddr, dport);
    if rule.None? || rule.value.backends == [] then None
    else fmt.mac(rule.value.backends[saddr % Min(|rule.value.backends|, 8)])
  }

  /** The backend that sound tables give it: one without an entry of its own is replaced by the first in the pool. */
  function TablePick(fmt: Formats, rules: seq<Rule>, bases: map<VipKey, nat>, first: Mac, key: VipKey,
                     saddr: U32): Option<Mac> {
    var rule := LastRule(fmt, rules, key);
    if rule.None? || Count(rule.value) == 0 || key !in bases || bases[key] > TOTAL_BACKENDS then None
    else
      var i := saddr % Count(rule.value);
      Some(if HasEntry(fmt, rule.value, bases[key], i) then fmt.mac(rule.value.backends[i]).value else first)
  }

  /** The group's slot leads to that backend, and the index is always below eight. */
  lemma SlotLeadsToBackend(fmt: Formats, rules: seq<Rule>, groups: map<VipKey, VipGroup>, pool: seq<Mac>, next: nat,
                           bases: map<VipKey, nat>, key: VipKey, saddr: U32)
    requires Sound(fmt, rules, groups, pool, next, bases)
    ensures key !in groups || groups[key].count == 0 <==> TablePick(fmt, rules, bases, pool[0], key, saddr) == None
    ensures key in groups && groups[key].count > 0 ==>
              var i := saddr % groups[key].count;
              && i < MAX_BACKENDS_PER_VIP && groups[key].backends[i] < TOTAL_BACKENDS
              && TablePick(fmt, rules, bases, pool[0], key, saddr) == Some(pool[groups[key].backends[i]])
  {
    if key in groups && groups[key].count > 0 {
      var rule := LastRule(fmt, rules, key).value;
      assert Placed(fmt, rule, bases[key], next, groups[key], pool);
      var i := saddr % groups[key].count;
      assert i < groups[key].count == Count(rule);
      assert HasEntry(fmt, rule, bases[key], i) ==> pool[bases[key] + i] == fmt.mac(rule.backends[i]).value;
    }
  }

  /** With valid MAC addresses and room for all backends, the tables give every packet what the list gives it. */
  lemma TablesFollowList(fmt: Formats, rules: seq<Rule>, groups: map<VipKey, VipGroup>, pool: seq<Mac>, next: nat,
                         bases: map<VipKey, nat>, daddr: U32, dport: Port, saddr: U32)
    requires Sound(fmt, rules, groups, pool, next, bases) && AllPlaced(fmt, rules, bases)
    requires forall r, i | r in rules && 0 <= i < Count(r) :: fmt.mac(r.backends[i]).Some?
    ensures TablePick(fmt, rules, bases, pool[0], KeyFor(daddr, dport), saddr) ==
            ListPick(fmt, rules, daddr, dport, saddr)
  {
    var key := KeyFor(daddr, dport);
    GoverningIsAbout(fmt, rules, daddr, dport);
    LastRuleKeys(fmt, rules, key);
    var rule := LastRule(fmt, rules, key);
    if rule.Some? && Count(rule.value) > 0 {
      assert Placed(fmt, rule.value, bases[key], next, groups[key], pool);
      var i := saddr % Count(rule.value);
      assert 0 <= i < Count(rule.value) && rule.value in rules;
      assert HasEntry(fmt, rule.value, bases[key], i);
    }
  }

  /** Under the same conditions no pool place is used by two groups, nor twice in one. */
  lemma PlacesAreNotShared(fmt: Formats, rules: seq<Rule>, groups: map<VipKey, VipGroup>, pool: seq<Mac>, next: nat,
                           bases: map<VipKey, nat>, a: VipKey, i: nat, b: VipKey, j: nat)
    requires Sound(fmt, rules, groups, pool, next, bases) && AllPlaced(fmt, rules, bases)
    requires forall r, k | r in rules && 0 <= k < Count(r) :: fmt.mac(r.backends[k]).Some?
    requires a in groups && i < groups[a].count && b in groups && j < groups[b].count
    ensures groups[a].backends[i] < next
    ensures groups[a].backends[i] == groups[b].backends[j] <==> a == b && i == j
  {
    LastRuleKeys(fmt, rules, a);
    LastRuleKeys(fmt, rules, b);
    var ra, rb := LastRule(fmt, rules, a).value, LastRule(fmt, rules, b).value;
    assert Placed(fmt, ra, bases[a], next, groups[a], pool) && Placed(fmt, rb, bases[b], next, groups[b], pool);
    assert HasEntry(fmt, ra, bases[a], i) && HasEntry(fmt, rb, bases[b], j);
    assert groups[a].backends[i] == bases[a] + i && groups[b].backends[j] == bases[b] + j;
  }

  /** A backend with a valid MAC address and its own place, or else equal to the first entry of the pool. */
  predicate Reachable(fmt: Formats, rule: Rule, base: nat, first: Mac, i: nat)
    requires base <= TOTAL_BACKENDS && i < Count(rule)
  {
    fmt.mac(rule.backends[i]).Some? && (i < Taken(rule, base) || fmt.mac(rule.backends[i]) == Some(first))
  }

  lemma SmallMod(i: nat, n: nat)
    requires i < n
    ensures i % n == i
  {
  }

  lemma PicksAgree(fmt: Formats, rules: seq<Rule>, bases: map<VipKey, nat>, first: Mac, daddr: U32, dport: Port,
                   saddr: U32)
    requires var key := KeyFor(daddr, dport);
             LastRule(fmt, rules, key).Some? && key in bases && bases[key] <= TOTAL_BACKENDS
    ensures var key := KeyFor(daddr, dport);
            var rule := LastRule(fmt, rules, key).value;
            TablePick(fmt, rules, bases, first, key, saddr) == ListPick(fmt, rules, daddr, dport, saddr) <==>
            Count(rule) == 0 || Reachable(fmt, rule, bases[key], first, saddr % Count(rule))
  {
    GoverningIsAbout(fmt, rules, daddr, dport);
  }

  lemma PicksAgreeForAll(fmt: Formats, rules: seq<Rule>, bases: map<VipKey, nat>, first: Mac, daddr: U32, dport: Port)
    requires var key := KeyFor(daddr, dport);
             LastRule(fmt, rules, key).Some? && key in bases && bases[key] <= TOTAL_BACKENDS
    ensures var key := KeyFor(daddr, dport);
            var rule := LastRule(fmt, rules, key).value;
            (forall saddr ::
               TablePick(fmt, rules, bases, first, key, saddr) == ListPick(fmt, rules, daddr, dport, saddr)) <==>
            (forall i | 0 <= i < Count(rule) :: Reachable(fmt, rule, bases[key], first, i))
  {
    var key := KeyFor(daddr, dport);
    var rule := LastRule(fmt, rules, key).value;
    forall saddr {
      PicksAgree(fmt, rules, bases, first, daddr, dport, saddr);
    }
    if i: nat :| i < Count(rule) && !Reachable(fmt, rule, bases[key], first, i) {
      SmallMod(i, Count(rule));
      assert TablePick(fmt, rules, bases, first, key, i) != ListPick(fmt, rules, daddr, dport, i);
    }
  }

  /** The b-th backend of the i-th rule: its MAC address is valid, and there is a place for it, or it is the first. */
  predicate Served(fmt: Formats, config: seq<Rule>, first: Mac, i: nat, b: nat)
    requires i < |config| && b < Count(config[i])
  {
    && fmt.mac(config[i].backends[b]).Some?
    && (Wanted(fmt, config[..i]) + b < 256 || fmt.mac(config[i].backends[b]) == Some(first))
  }

  /**
  After an update packets for an address and port follow the list, whatever their source, if and only if every
  counted backend of the last rule recorded for them has a valid MAC address and either a place, the rules before
  asking for few enough, or the same address as the first entry of the pool: that is where all others are sent.
  */
  lemma FollowsListExactly(fmt: Formats, config: seq<Rule>, first: Mac, daddr: U32, dport: Port, i: nat)
    requires LastFor(fmt, config, KeyFor(daddr, dport), i)
    ensures About(fmt, config[i], daddr, dport)
    ensures var rules, bases := Recorded(fmt, config), BasesOf(fmt, config);
            (forall saddr ::
               TablePick(fmt, rules, bases, first, KeyFor(daddr, dport), saddr) ==
               ListPick(fmt, rules, daddr, dport, saddr)) <==>
            (forall b | 0 <= b < Count(config[i]) :: Served(fmt, config, first, i, b))
  {
    var key := KeyFor(daddr, dport);
    FiledIsAbout(fmt, config[i], daddr, dport);
    LastForGoverns(fmt, config, key, i);
    PicksAgreeForAll(fmt, Recorded(fmt, config), BasesOf(fmt, config), first, daddr, dport);
    forall b | 0 <= b < Count(config[i])
      ensures Served(fmt, config, first, i, b) <==> Reachable(fmt, config[i], BasesOf(fmt, config)[key], first, b)
    {
    }
  }

  // ---------------------------------------------------------------- the service

  datatype Verdict = PassOn | ChainThenPass | ChainThenTransmit

  class Service {
    const fmt: Formats
    const groups: BpfHash<VipKey, VipGroup>
    const pool: BpfArray<Mac>
    const localMac: BpfArray<Mac>
    var rules: seq<Rule>
    /** Places taken by the last update, and where those of each group start. */
    ghost var next: nat
    ghost var bases: map<VipKey, nat>

    constructor (fmt: Formats)
      ensures Valid() && rules == [] && this.fmt == fmt
    {
      this.fmt := fmt;
      groups := new BpfHash(MAXSIZE_LB_HASH);
      pool := new BpfArray(TOTAL_BACKENDS, ZERO_MAC);
      localMac := new BpfArray(1, ZERO_MAC);
      rules, next, bases := [], 0, map[];
    }

    ghost predicate Valid()
      reads this, groups, pool.cells, localMac.cells
    {
      && pool.cells != localMac.cells && pool.cells.Length == TOTAL_BACKENDS && localMac.cells.Length == 1
      && groups.Valid() && groups.capacity == MAXSIZE_LB_HASH
      && Sound(fmt, rules, groups.entries, pool.cells[..], next, bases)
    }

    /** Empties the hash.  Array elements cannot be deleted: the pool keeps what it holds. */
    method ClearKernelRules()
      requires Valid()
      modifies this, groups
      ensures Valid() && rules == [] && groups.entries == map[] && next == 0 && bases == map[]
    {
      var _ := CollectThenDelete(groups);
      DeletePlaces();
      rules, next, bases := [], 0, map[];
      EmptyIsSound(fmt, pool.cells[..]);
    }

    /** Asks to delete every element of the pool; each call fails. */
    method DeletePlaces()
      requires pool.cells.Length == TOTAL_BACKENDS
    {
      var place := pool.GetNextKey(None);
      while place.Some?
        invariant place.Some? ==> place.value < TOTAL_BACKENDS
        decreases if place.Some? then TOTAL_BACKENDS - place.value else 0
      {
        var _ := pool.Delete(place.value);
        place := pool.GetNextKey(place);
      }
    }

    /** Gives each counted backend of a rule the next place while there are any, and fills it if its MAC is valid. */
    method EnterBackends(rule: Rule, poolNext: nat) returns (group: VipGroup, poolNext': nat)
      requires poolNext <= TOTAL_BACKENDS == pool.cells.Length
      modifies pool.cells
      ensures poolNext' == poolNext + Taken(rule, poolNext) && group == GroupOf(fmt, rule, poolNext)
      ensures pool.cells[..] == Filled(fmt, rule, poolNext, Taken(rule, poolNext), old(pool.cells[..]))
    {
      var count := Count(rule);
      var slots: Slots8 := [0, 0, 0, 0, 0, 0, 0, 0];
      poolNext' := poolNext;
      var i := 0;
      while i < count && poolNext' < TOTAL_BACKENDS
        invariant 0 <= i <= Taken(rule, poolNext) && poolNext' == poolNext + i
        invariant forall k | 0 <= k < MAX_BACKENDS_PER_VIP ::
                    slots[k] == if k < i && HasEntry(fmt, rule, poolNext, k) then poolNext + k else 0
        invariant pool.cells[..] == Filled(fmt, rule, poolNext, i, old(pool.cells[..]))
      {
        FilledNext(fmt, rule, poolNext, i, old(pool.cells[..]));
        var idx := poolNext';
        poolNext' := poolNext' + 1;
        var mac := fmt.mac(rule.backends[i]);
        if mac.Some? {
          var stored := pool.Update(idx, mac.value);
          if stored {
            slots := slots[i := idx];
          }
        }
        i := i + 1;
      }
      group := VipGroup(count, slots);
    }

    /** One rule: its backends take places even when the hash is full and the rule is not recorded. */
    method InstallRule(rule: Rule, poolNext: nat) returns (ok: bool, poolNext': nat)
      requires Valid() && poolNext == next && KeyOf(fmt, rule).Some?
      modifies this, groups, pool.cells
      ensures Valid() && poolNext' == next == poolNext + Taken(rule, poolNext)
      ensures ok <==> KeyOf(fmt, rule).value in KeysOf(fmt, old(rules)) || |KeysOf(fmt, old(rules))| < MAXSIZE_LB_HASH
      ensures rules == if ok then old(rules) + [rule] else old(rules)
      ensures bases == if ok then old(bases)[KeyOf(fmt, rule).value := poolNext] else old(bases)
      ensures pool.cells[0] == FirstPlace(fmt, rule, poolNext, old(pool.cells[0]))
    {
      var group: VipGroup;
      group, poolNext' := EnterRule(rule, poolNext);
      ok := RecordRule(rule, group, poolNext, poolNext');
    }

    method EnterRule(rule: Rule, poolNext: nat) returns (group: VipGroup, poolNext': nat)
      requires Valid() && poolNext == next && KeyOf(fmt, rule).Some?
      modifies pool.cells
      ensures poolNext' == poolNext + Taken(rule, poolNext)
      ensures Installable(fmt, rules, groups.entries, pool.cells[..], poolNext', bases, rule, poolNext, group)
      ensures pool.cells[0] == FirstPlace(fmt, rule, poolNext, old(pool.cells[0]))
    {
      ghost var before := pool.cells[..];
      group, poolNext' := EnterBackends(rule, poolNext);
      FilledIs(fmt, rule, poolNext, before);
      InstallKeepsSound(fmt, rules, groups.entries, before, poolNext, bases, rule, pool.cells[..]);
    }

    method RecordRule(rule: Rule, group: VipGroup, ghost base: nat, ghost poolNext: nat) returns (ok: bool)
      requires pool.cells != localMac.cells && pool.cells.Length == TOTAL_BACKENDS && localMac.cells.Length == 1
      requires groups.Valid() && groups.capacity == MAXSIZE_LB_HASH && KeyOf(fmt, rule).Some?
      requires Installable(fmt, rules, groups.entries, pool.cells[..], poolNext, bases, rule, base, group)
      modifies this, groups
      ensures Valid() && next == poolNext
      ensures ok <==> KeyOf(fmt, rule).value in KeysOf(fmt, old(rules)) || |KeysOf(fmt, old(rules))| < MAXSIZE_LB_HASH
      ensures rules == if ok then old(rules) + [rule] else old(rules)
      ensures bases == if ok then old(bases)[KeyOf(fmt, rule).value := base] else old(bases)
    {
      var key := KeyOf(fmt, rule).value;
      ok := StoreGroup(key, group, KeysOf(fmt, rules));
      next := poolNext;
      if ok {
        rules, bases := rules + [rule], bases[key := base];
      }
    }

    /** The group is stored unless the hash is full of others. */
    method StoreGroup(key: VipKey, group: VipGroup, ghost keys: set<VipKey>) returns (ok: bool)
      requires groups.Valid() && groups.entries.Keys == keys
      modifies groups
      ensures groups.Valid() && (ok <==> key in keys || |keys| < groups.capacity)
      ensures groups.entries == if ok then old(groups.entries)[key := group] else old(groups.entries)
    {
      assert |groups.entries.Keys| == |groups.entries|;
      ok := groups.Update(key, group);
    }

    method OnConfigUpdate(localMacText: string, config: seq<Rule>)
      requires Valid()
      modifies this, groups, pool.cells, localMac.cells
      ensures Valid() && rules == Recorded(fmt, config)
      ensures bases == BasesOf(fmt, config) && pool.cells[0] == FirstOf(fmt, config, old(pool.cells[0]))
      ensures Wanted(fmt, config) <= 256 ==> AllPlaced(fmt, rules, bases)
      ensures fmt.mac(localMacText).Some? ==> localMac.Lookup(0) == fmt.mac(localMacText)
    {
      ClearKernelRules();
      SetLocalMac(localMacText);
      InstallRules(config);
      if Wanted(fmt, config) <= TOTAL_BACKENDS {
        RoomForAll(fmt, config);
      }
    }

    /** A MAC address that does not parse leaves whatever the buffer held. */
    method SetLocalMac(text: string)
      requires Valid()
      modifies localMac.cells
      ensures Valid() && pool.cells[..] == old(pool.cells[..])
      ensures fmt.mac(text).Some? ==> localMac.Lookup(0) == fmt.mac(text)
    {
      var mac: Mac := *;
      if fmt.mac(text).Some? {
        mac := fmt.mac(text).value;
      }
      var _ := localMac.Update(0, mac);
    }

    /** The first `i` rules are done. */
    ghost predicate Progress(config: seq<Rule>, i: nat, poolNext: nat, was: Mac)
      requires i <= |config| && pool.cells.Length == TOTAL_BACKENDS
      reads this, pool.cells
    {
      && poolNext == next == BaseAfter(fmt, config[..i])
      && rules == Recorded(fmt, config[..i]) && bases == BasesOf(fmt, config[..i])
      && pool.cells[0] == FirstOf(fmt, config[..i], was)
    }

    method InstallNext(config: seq<Rule>, i: nat, poolNext: nat, ghost was: Mac) returns (ok: bool, poolNext': nat)
      requires Valid() && i < |config| && |rules| < MAX_RULES_SIZE && Progress(config, i, poolNext, was)
      modifies this, groups, pool.cells
      ensures Valid() && Progress(config, i + 1, poolNext', was) && (!ok ==> rules == old(rules))
    {
      ok, poolNext' := false, poolNext;
      RecordedSnoc(fmt, config, i);
      FirstSnoc(fmt, config, i, was);
      if KeyOf(fmt, config[i]).Some? {
        ok, poolNext' := InstallRule(config[i], poolNext);
      }
    }

    method InstallRules(config: seq<Rule>)
      requires Valid() && rules == [] && next == 0 && bases == map[]
      modifies this, groups, pool.cells
      ensures Valid() && rules == Recorded(fmt, config) && bases == BasesOf(fmt, config)
      ensures pool.cells[0] == FirstOf(fmt, config, old(pool.cells[0]))
    {
      ghost var was := pool.cells[0];
      var poolNext := 0;
      for i := 0 to |config|
        invariant Valid() && Progress(config, i, poolNext, was) && |rules| < MAX_RULES_SIZE
      {
        var ok;
        ok, poolNext := InstallNext(config, i, poolNext, was);
        if ok && |rules| >= MAX_RULES_SIZE {
          RecordedStops(fmt, config, i + 1);
          FirstStops(fmt, config, i + 1, was);
          return;
        }
      }
      assert config[..|config|] == config;
    }

    /**
    The packet program.  It gives up exactly on cut headers, and sends a packet back exactly if the last rule about its
    address and port has any backends: the chosen one's MAC address becomes the destination, the local one the source.
    */
    method Balance(p: Packet) returns (verdict: Verdict, dest: Option<Mac>, source: Option<Mac>)
      requires Valid()
      ensures verdict == PassOn <==> (p.protocol == 6 && p.transport < 20) || (p.protocol == 17 && p.transport < 8)
      ensures verdict == ChainThenTransmit <==>
                && ((p.protocol == 6 && p.transport >= 20) || (p.protocol == 17 && p.transport >= 8))
                && LastAbout(fmt, rules, p.daddr, p.dport).Some?
                && LastAbout(fmt, rules, p.daddr, p.dport).value.backends != []
      ensures verdict == ChainThenTransmit ==>
                && source == localMac.Lookup(0) && source.Some?
                && dest == TablePick(fmt, rules, bases, pool.cells[0], KeyFor(p.daddr, p.dport), p.saddr)
      ensures verdict != ChainThenTransmit ==> dest.None? && source.None?
    {
      dest, source, verdict := None, None, ChainThenPass;
      if p.protocol == IPPROTO_TCP {
        if p.transport < TCP_HEADER {
          return PassOn, None, None;
        }
      } else if p.protocol == IPPROTO_UDP {
        if p.transport < UDP_HEADER {
          return PassOn, None, None;
        }
      } else {
        return;
      }
      GoverningIsAbout(fmt, rules, p.daddr, p.dport);
      var backend := PickBackend(KeyFor(p.daddr, p.dport), p.saddr);
      if backend.Some? {
        dest, source, verdict := backend, localMac.Lookup(0), ChainThenTransmit;
      }
    }

    /** Two lookups; neither the index test nor the second lookup ever fails. */
    method PickBackend(key: VipKey, saddr: U32) returns (backend: Option<Mac>)
      requires Valid()
      ensures backend == TablePick(fmt, rules, bases, pool.cells[0], key, saddr)
      ensures backend.Some? <==> LastRule(fmt, rules, key).Some? && Count(LastRule(fmt, rules, key).value) > 0
    {
      ghost var cells := pool.cells[..];
      SlotLeadsToBackend(fmt, rules, groups.entries, cells, next, bases, key, saddr);
      var group := groups.Lookup(key);
      if group.None? || group.value.count == 0 {
        return None;
      }
      var idx := saddr % group.value.count;
      if idx < MAX_BACKENDS_PER_VIP {
        backend := pool.Lookup(group.value.backends[idx]);
      } else {
        backend := None;
      }
    }
  }
}
