/**
Which rules of a load-balancer configuration are recorded (src/services/lb/lb_base.tpp:119-170): those for the first 64
addresses and ports.
*/
module LbRecords {
  import opened Lb
  import opened Wire
  import opened Wrappers

  /** The key is one of the first 64 that the configuration has. */
  ghost predicate Early(fmt: Formats, config: seq<Rule>, key: VipKey) {
    exists i :: EarlyAt(fmt, config, key, i)
  }

  ghost predicate EarlyAt(fmt: Formats, config: seq<Rule>, key: VipKey, i: int) {
    0 <= i < |config| && KeyOf(fmt, config[i]) == Some(key) && |KeysOf(fmt, config[..i])| < 64
  }

  lemma KeysSnoc(fmt: Formats, config: seq<Rule>, rule: Rule)
    ensures KeysOf(fmt, config + [rule]) ==
            if KeyOf(fmt, rule).Some? then KeysOf(fmt, config) + {KeyOf(fmt, rule).value} else KeysOf(fmt, config)
  {
  }

  lemma EarlySnoc(fmt: Formats, config: seq<Rule>, rule: Rule, key: VipKey)
    ensures Early(fmt, config + [rule], key) <==>
            Early(fmt, config, key) || (KeyOf(fmt, rule) == Some(key) && |KeysOf(fmt, config)| < 64)
  {
    var all := config + [rule];
    assert all[..|config|] == config;
    if i :| EarlyAt(fmt, config, key, i) {
      assert all[..i] == config[..i];
      assert EarlyAt(fmt, all, key, i);
    }
    if i :| EarlyAt(fmt, all, key, i) && i < |config| {
      assert all[..i] == config[..i];
      assert EarlyAt(fmt, config, key, i);
    }
    if KeyOf(fmt, rule) == Some(key) && |KeysOf(fmt, config)| < 64 {
      assert EarlyAt(fmt, all, key, |config|);
    }
  }

  /** The recorded keys are all there are, or 64. */
  ghost predicate FirstKeys(all: set<VipKey>, recorded: set<VipKey>) {
    if |all| < 64 then recorded == all else |recorded| >= 64
  }

  lemma AtLeast(a: set<VipKey>, key: VipKey)
    ensures |a + {key}| >= |a|
  {
    if key in a {
      assert a + {key} == a;
    }
  }

  lemma FirstKeysSnoc(all: set<VipKey>, recorded: set<VipKey>, key: VipKey)
    requires FirstKeys(all, recorded)
    ensures FirstKeys(all + {key}, if key in recorded || |recorded| < 64 then recorded + {key} else recorded)
  {
    AtLeast(all, key);
    AtLeast(recorded, key);
  }

  /** The rules recorded so far have the early keys. */
  ghost predicate HasEarly(fmt: Formats, config: seq<Rule>) {
    && FirstKeys(KeysOf(fmt, config), KeysOf(fmt, Recorded(fmt, config)))
    && forall key :: key in KeysOf(fmt, Recorded(fmt, config)) <==> Early(fmt, config, key)
  }

  /** Every rule with an early key is recorded while there is room in the list. */
  ghost predicate EarlyRecorded(fmt: Formats, config: seq<Rule>, key: VipKey) {
    LastRule(fmt, Recorded(fmt, config), key) == if Early(fmt, config, key) then LastRule(fmt, config, key) else None
  }

  /** Where recording stops: behind the 10240th recorded rule, or at the end. */
  lemma {:induction false} Stops(fmt: Formats, config: seq<Rule>) returns (n: nat)
    ensures n <= |config| && Recorded(fmt, config) == Recorded(fmt, config[..n]) && |Recorded(fmt, config)| <= n
    ensures if n < |config| then |Recorded(fmt, config)| == 10240 else |Recorded(fmt, config)| <= 10240
    ensures n > 0 ==> |Recorded(fmt, config[..n - 1])| < 10240
    decreases |config|
  {
    n := |config|;
    assert config[..n] == config;
    if config != [] {
      var front := config[..|config| - 1];
      var stop := Stops(fmt, front);
      if |Recorded(fmt, front)| >= MAX_RULES_SIZE {
        n := stop;
        assert front[..n] == config[..n] && (n > 0 ==> front[..n - 1] == config[..n - 1]);
      }
    }
  }

  /** The keys recorded after one rule more. */
  lemma RecordedKeysSnoc(fmt: Formats, config: seq<Rule>, rule: Rule)
    requires |Recorded(fmt, config)| < MAX_RULES_SIZE
    ensures var keys := KeysOf(fmt, Recorded(fmt, config));
            KeysOf(fmt, Recorded(fmt, config + [rule])) ==
            match KeyOf(fmt, rule) {
              case None => keys
              case Some(key) => if key in keys || |keys| < 64 then keys + {key} else keys
            }
  {
    assert (config + [rule])[..|config|] == config;
    KeysSnoc(fmt, Recorded(fmt, config), rule);
  }

  lemma FirstKeysKept(fmt: Formats, config: seq<Rule>, rule: Rule)
    requires |Recorded(fmt, config)| < MAX_RULES_SIZE && HasEarly(fmt, config)
    ensures FirstKeys(KeysOf(fmt, config + [rule]), KeysOf(fmt, Recorded(fmt, config + [rule])))
  {
    RecordedKeysSnoc(fmt, config, rule);
    KeysSnoc(fmt, config, rule);
    if KeyOf(fmt, rule).Some? {
      FirstKeysSnoc(KeysOf(fmt, config), KeysOf(fmt, Recorded(fmt, config)), KeyOf(fmt, rule).value);
    }
  }

  lemma EarlyKept(fmt: Formats, config: seq<Rule>, rule: Rule, key: VipKey)
    requires |Recorded(fmt, config)| < MAX_RULES_SIZE && HasEarly(fmt, config)
    ensures key in KeysOf(fmt, Recorded(fmt, config + [rule])) <==> Early(fmt, config + [rule], key)
  {
    RecordedKeysSnoc(fmt, config, rule);
    EarlySnoc(fmt, config, rule, key);
  }

  lemma HasEarlySnoc(fmt: Formats, config: seq<Rule>, rule: Rule)
    requires |Recorded(fmt, config)| < MAX_RULES_SIZE && HasEarly(fmt, config)
    ensures HasEarly(fmt, config + [rule])
  {
    FirstKeysKept(fmt, config, rule);
    forall key {
      EarlyKept(fmt, config, rule, key);
    }
  }

  lemma EarlyRecordedSnoc(fmt: Formats, config: seq<Rule>, rule: Rule, key: VipKey)
    requires |Recorded(fmt, config)| < MAX_RULES_SIZE && HasEarly(fmt, config) && EarlyRecorded(fmt, config, key)
    ensures EarlyRecorded(fmt, config + [rule], key)
  {
    assert (config + [rule])[..|config|] == config;
    EarlySnoc(fmt, config, rule, key);
    LastRuleSnoc(fmt, config, rule, key);
    LastRuleSnoc(fmt, Recorded(fmt, config), rule, key);
  }

  lemma {:induction false} EarlyAreRecorded(fmt: Formats, config: seq<Rule>, key: VipKey)
    requires config != [] ==> |Recorded(fmt, config[..|config| - 1])| < MAX_RULES_SIZE
    ensures HasEarly(fmt, config) && EarlyRecorded(fmt, config, key)
    decreases |config|
  {
    if config != [] {
      var front, last := config[..|config| - 1], config[|config| - 1];
      assert config == front + [last];
      EarlyAreRecorded(fmt, front, key);
      HasEarlySnoc(fmt, front, last);
      EarlyRecordedSnoc(fmt, front, last, key);
    }
  }

  /**
  Up to the 10240th recorded rule, those that govern are the last ones of the configuration for the first 64 addresses
  and ports it has; there are no rules for any others.
  */
  lemma RecordedSays(fmt: Formats, config: seq<Rule>, daddr: U32, dport: Port) returns (n: nat)
    ensures n <= |config| && (|config| <= 10240 ==> n == |config|)
    ensures n < |config| ==> |Recorded(fmt, config)| == 10240
    ensures LastAbout(fmt, Recorded(fmt, config), daddr, dport) ==
            if Early(fmt, config[..n], KeyFor(daddr, dport)) then LastAbout(fmt, config[..n], daddr, dport) else None
  {
    n := Stops(fmt, config);
    if n > 0 {
      assert config[..n][..n - 1] == config[..n - 1];
    }
    EarlyAreRecorded(fmt, config[..n], KeyFor(daddr, dport));
    GoverningIsAbout(fmt, Recorded(fmt, config[..n]), daddr, dport);
    GoverningIsAbout(fmt, config[..n], daddr, dport);
  }
}
