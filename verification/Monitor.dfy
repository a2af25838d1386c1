/**
Counters, their keys, and the inner loop of the consumer (src/monitor/monitor.cc,
src/monitor/monitor_subscriber.cc:125-142).
*/
module Monitor {
  import opened NameOrder
  import opened Text
  import opened Wrappers

  type Labels = map<string, string>

  // ---------------------------------------------------------------- keys

  /** The labels in the order of the map, each as |key=value. */
  function LabelText(keys: seq<string>, labels: Labels): string
    requires forall k | k in keys :: k in labels
  {
    if keys == [] then [] else "|" + (keys[0] + ("=" + (labels[keys[0]] + LabelText(keys[1..], labels))))
  }

  ghost function KeyOf(name: string, labels: Labels): string {
    name + LabelText(Ascending(labels.Keys), labels)
  }

  /** Names, keys and values without '|', and keys without '='. */
  predicate Clean(name: string, labels: Labels) {
    '|' !in name && CleanLabels(labels)
  }

  predicate CleanLabels(labels: Labels) {
    forall k | k in labels :: '|' !in k && '=' !in k && '|' !in labels[k]
  }

  lemma LabelTextStart(keys: seq<string>, labels: Labels)
    requires forall k | k in keys :: k in labels
    ensures LabelText(keys, labels) == [] <==> keys == []
    ensures keys != [] ==> LabelText(keys, labels)[0] == '|'
  {
  }

  /** Texts of one clean label and what follows determine both. */
  lemma FirstLabel(k: string, v: string, rest: string, k': string, v': string, rest': string)
    requires '|' !in v && '|' !in v' && '=' !in k && '=' !in k'
    requires (rest == [] || rest[0] == '|') && (rest' == [] || rest'[0] == '|')
    requires "|" + (k + ("=" + (v + rest))) == "|" + (k' + ("=" + (v' + rest')))
    ensures k == k' && v == v' && rest == rest'
  {
    var a, b := k + ("=" + (v + rest)), k' + ("=" + (v' + rest'));
    assert ("|" + a)[1..] == a && ("|" + b)[1..] == b;
    SplitAtFirst(k, "=" + (v + rest), k', "=" + (v' + rest'), '=');
    assert ("=" + (v + rest))[1..] == v + rest && ("=" + (v' + rest'))[1..] == v' + rest';
    SplitAtFirst(v, rest, v', rest', '|');
  }

  lemma {:induction false} LabelTextInjective(keys: seq<string>, labels: Labels, keys': seq<string>, labels': Labels)
    requires CleanLabels(labels) && CleanLabels(labels')
    requires (forall k | k in keys :: k in labels) && (forall k | k in keys' :: k in labels')
    requires LabelText(keys, labels) == LabelText(keys', labels')
    ensures keys == keys' && forall k | k in keys :: labels[k] == labels'[k]
    decreases |keys|
  {
    LabelTextStart(keys, labels);
    LabelTextStart(keys', labels');
    if keys != [] {
      LabelTextStart(keys[1..], labels);
      LabelTextStart(keys'[1..], labels');
      FirstLabel(keys[0], labels[keys[0]], LabelText(keys[1..], labels),
                 keys'[0], labels'[keys'[0]], LabelText(keys'[1..], labels'));
      LabelTextInjective(keys[1..], labels, keys'[1..], labels');
      assert keys == [keys[0]] + keys[1..] && keys' == [keys'[0]] + keys'[1..];
    }
  }

  /** Clean names and labels have a key of their own. */
  lemma KeyInjective(name: string, labels: Labels, name': string, labels': Labels)
    requires Clean(name, labels) && Clean(name', labels') && KeyOf(name, labels) == KeyOf(name', labels')
    ensures name == name' && labels == labels'
  {
    var keys, keys' := Ascending(labels.Keys), Ascending(labels'.Keys);
    LabelTextStart(keys, labels);
    LabelTextStart(keys', labels');
    SplitAtFirst(name, LabelText(keys, labels), name', LabelText(keys', labels'), '|');
    LabelTextInjective(keys, labels, keys', labels');
    assert forall k :: k in labels <==> k in keys;
    assert forall k :: k in labels' <==> k in keys';
  }

  /** A name that spells out a label shares its key with the labelled name. */
  lemma BarInNameCollides(name: string, k: string, v: string)
    ensures KeyOf(name + ("|" + (k + ("=" + v))), map[]) == KeyOf(name, map[k := v])
  {
    var labels: Labels := map[k := v];
    assert labels.Keys == {k};
    assert Ascending(labels.Keys) == [Least({k})] + Ascending({k} - {Least({k})});
    assert Least({k}) == k && {k} - {k} == {};
    assert Ascending({}) == [];
    assert LabelText([k], labels) == "|" + (k + ("=" + (v + [])));
    assert v + [] == v;
    assert KeyOf(name, labels) == name + ("|" + (k + ("=" + v)));
  }

  // ---------------------------------------------------------------- exactly which keys are shared

  predicate BarThenEquals(s: string) {
    exists i, j :: 0 <= i < j < |s| && s[i] == '|' && s[j] == '='
  }

  /** No other name and labels have this key. */
  ghost predicate HasOwnKey(name: string, labels: Labels) {
    forall n, l :: KeyOf(n, l) == KeyOf(name, labels) ==> n == name && l == labels
  }

  lemma KeyWithoutLabels(name: string)
    ensures KeyOf(name, map[]) == name
  {
    assert Ascending({}) == [];
    assert LabelText([], map[]) == [];
  }

  /** Labels put a bar, and an equals sign behind it, into the key. */
  lemma LabelsShow(name: string, labels: Labels)
    requires labels != map[]
    ensures BarThenEquals(KeyOf(name, labels))
  {
    var keys := Ascending(labels.Keys);
    assert keys != [] by {
      var k :| k in labels;
      assert k in keys;
    }
    var rest := labels[keys[0]] + LabelText(keys[1..], labels);
    var key := name + ("|" + (keys[0] + ("=" + rest)));
    assert KeyOf(name, labels) == key;
    assert key[|name|] == '|' && key[|name| + 1 + |keys[0]|] == '=';
  }

  /** A name with a bar and an equals sign behind it reads as a shorter name with one label. */
  lemma BarReadsAsLabel(name: string, i: nat, j: nat)
    requires i < j < |name| && name[i] == '|' && name[j] == '='
    ensures KeyOf(name[..i], map[name[i + 1..j] := name[j + 1..]]) == name
  {
    var k, v := name[i + 1..j], name[j + 1..];
    assert name == name[..i] + ("|" + (k + ("=" + v)));
    BarInNameCollides(name[..i], k, v);
    KeyWithoutLabels(name);
  }

  /**
  A name with its labels has a key of its own if and only if there are no labels and no bar in the name has an
  equals sign behind it: any labels can also be spelled out in a name.
  */
  lemma OwnKeyExactly(name: string, labels: Labels)
    ensures HasOwnKey(name, labels) <==> labels == map[] && !BarThenEquals(name)
  {
    var key := KeyOf(name, labels);
    KeyWithoutLabels(key);
    if labels != map[] {
      assert KeyOf(key, map[]) == KeyOf(name, labels);
    } else if BarThenEquals(name) {
      KeyWithoutLabels(name);
      var i, j :| 0 <= i < j < |name| && name[i] == '|' && name[j] == '=';
      BarReadsAsLabel(name, i, j);
      assert KeyOf(name[..i], map[name[i + 1..j] := name[j + 1..]]) == key;
    } else {
      forall n, l | KeyOf(n, l) == key ensures n == name && l == labels {
        OtherNamesDiffer(name, n, l);
      }
    }
  }

  lemma OtherNamesDiffer(name: string, n: string, l: Labels)
    requires !BarThenEquals(name) && KeyOf(n, l) == KeyOf(name, map[])
    ensures n == name && l == map[]
  {
    KeyWithoutLabels(name);
    KeyWithoutLabels(n);
    if l != map[] {
      LabelsShow(n, l);
    }
  }

  /** Appends the labels to the stream one after the other. */
  method MakeKey(name: string, labels: Labels) returns (key: string)
    ensures key == KeyOf(name, labels)
  {
    key := name;
    var todo := labels.Keys;
    while todo != {}
      invariant todo <= labels.Keys && key + LabelText(Ascending(todo), labels) == KeyOf(name, labels)
      decreases todo
    {
      var k := First(todo);
      NextLabel(key, labels, todo, k);
      key := key + ("|" + (k + ("=" + labels[k])));
      todo := todo - {k};
    }
    assert LabelText(Ascending({}), labels) == [];
  }

  lemma NextLabel(key: string, labels: Labels, todo: set<string>, k: string)
    requires todo != {} && todo <= labels.Keys && k == Least(todo)
    ensures key + LabelText(Ascending(todo), labels) ==
            (key + ("|" + (k + ("=" + labels[k])))) + LabelText(Ascending(todo - {k}), labels)
  {
    assert Ascending(todo) == [k] + Ascending(todo - {k});
    assert Ascending(todo)[1..] == Ascending(todo - {k});
    Regroup(key, k, labels[k], LabelText(Ascending(todo - {k}), labels));
  }

  lemma Regroup(key: string, k: string, v: string, rest: string)
    ensures key + ("|" + (k + ("=" + (v + rest)))) == (key + ("|" + (k + ("=" + v)))) + rest
  {
  }

  // ---------------------------------------------------------------- counters

  type Value = v: real | 0.0 <= v < 18446744073709551616.0 witness 0.0

  datatype Event = Event(name: string, labels: Labels, value: Value)

  /** The increment of an event: its value without the fraction. */
  function Increment(e: Event): (n: nat)
    ensures n as real <= e.value < n as real + 1.0
  {
    e.value.Floor
  }

  predicate About(e: Event, name: string, labels: Labels) {
    e.name == name && e.labels == labels
  }

  /** Names and labels that the counter library does not take. */
  type Library = (string, Labels) -> bool

  /** An event without name and labels, whose key is empty. */
  predicate NoKey(e: Event) {
    e.name == "" && e.labels == map[]
  }

  ghost predicate HasCounter(counters: map<string, nat>, e: Event) {
    KeyOf(e.name, e.labels) in counters
  }

  /** Counting the event throws: its key is empty, or the library refuses the counter that it needs. */
  ghost predicate Refused(refuses: Library, counters: map<string, nat>, e: Event) {
    NoKey(e) || (refuses(e.name, e.labels) && !HasCounter(counters, e))
  }

  lemma EmptyKeyExactly(name: string, labels: Labels)
    ensures KeyOf(name, labels) == "" <==> name == "" && labels == map[]
  {
    KeyWithoutLabels(name);
    if labels != map[] {
      LabelsShow(name, labels);
    }
  }

  /** What the events for one name and one set of labels add up to. */
  function Total(events: seq<Event>, name: string, labels: Labels): nat {
    if events == [] then 0
    else
      var last := events[|events| - 1];
      Total(events[..|events| - 1], name, labels) + if About(last, name, labels) then Increment(last) else 0
  }

  function Sum(parts: seq<nat>): nat {
    if parts == [] then 0 else Sum(parts[..|parts| - 1]) + parts[|parts| - 1]
  }

  /** What an event contributes: its value without the fraction if it is about the name and labels, else nothing. */
  predicate PartOf(part: nat, e: Event, name: string, labels: Labels) {
    if e.name == name && e.labels == labels then part as real <= e.value < part as real + 1.0 else part == 0
  }

  /** That is a sum of values without their fractions. */
  lemma {:induction false} TotalIsSum(events: seq<Event>, parts: seq<nat>, name: string, labels: Labels)
    requires |parts| == |events| && forall i | 0 <= i < |events| :: PartOf(parts[i], events[i], name, labels)
    ensures Total(events, name, labels) == Sum(parts)
    decreases |events|
  {
    if events != [] {
      TotalIsSum(events[..|events| - 1], parts[..|events| - 1], name, labels);
      SamePart(parts[|events| - 1], events[|events| - 1], name, labels);
    }
  }

  lemma SamePart(part: nat, e: Event, name: string, labels: Labels)
    requires PartOf(part, e, name, labels)
    ensures part == if About(e, name, labels) then Increment(e) else 0
  {
  }

  /** The counters after the events, one after the other. */
  ghost function CountersAfter(events: seq<Event>): map<string, nat> {
    if events == [] then map[]
    else
      var before, last := CountersAfter(events[..|events| - 1]), events[|events| - 1];
      var key := KeyOf(last.name, last.labels);
      before[key := (if key in before then before[key] else 0) + Increment(last)]
  }

  lemma CountersSnoc(events: seq<Event>, e: Event)
    ensures var before, key := CountersAfter(events), KeyOf(e.name, e.labels);
            CountersAfter(events + [e]) == before[key := (if key in before then before[key] else 0) + Increment(e)]
  {
    assert (events + [e])[..|events|] == events;
  }

  ghost predicate AllClean(events: seq<Event>) {
    forall e | e in events :: Clean(e.name, e.labels)
  }

  /** With clean names every counter is the sum of its own events, and there is one wherever there are events. */
  lemma {:induction false} CountersExact(events: seq<Event>, name: string, labels: Labels)
    requires AllClean(events) && Clean(name, labels)
    ensures KeyOf(name, labels) in CountersAfter(events) <==> exists e :: e in events && About(e, name, labels)
    ensures KeyOf(name, labels) in CountersAfter(events) ==>
              CountersAfter(events)[KeyOf(name, labels)] == Total(events, name, labels)
    ensures KeyOf(name, labels) !in CountersAfter(events) ==> Total(events, name, labels) == 0
    decreases |events|
  {
    if events != [] {
      var front, last := events[..|events| - 1], events[|events| - 1];
      assert events == front + [last];
      CountersExact(front, name, labels);
      assert last in events;
      if KeyOf(last.name, last.labels) == KeyOf(name, labels) {
        KeyInjective(last.name, last.labels, name, labels);
      }
    }
  }

  lemma {:induction false} TotalConcat(a: seq<Event>, b: seq<Event>, name: string, labels: Labels)
    ensures Total(a + b, name, labels) == Total(a, name, labels) + Total(b, name, labels)
    decreases |b|
  {
    if b == [] {
      assert a + b == a;
    } else {
      assert (a + b)[..|a + b| - 1] == a + b[..|b| - 1];
      TotalConcat(a, b[..|b| - 1], name, labels);
    }
  }

  lemma PrefixSnoc(before: seq<Event>, events: seq<Event>, i: nat)
    requires i < |events|
    ensures before + events[..i + 1] == before + events[..i] + [events[i]]
  {
  }

  /** Each of the events was taken when its turn came. */
  ghost predicate Taken(refuses: Library, events: seq<Event>) {
    forall k | 0 <= k < |events| :: TakenAt(refuses, events, k)
  }

  ghost predicate TakenAt(refuses: Library, events: seq<Event>, k: nat)
    requires k < |events|
  {
    !Refused(refuses, CountersAfter(events[..k]), events[k])
  }

  lemma TakenSnoc(refuses: Library, events: seq<Event>, e: Event)
    requires Taken(refuses, events) && !Refused(refuses, CountersAfter(events), e)
    ensures Taken(refuses, events + [e])
  {
    var all := events + [e];
    forall k | 0 <= k < |all| ensures TakenAt(refuses, all, k) {
      if k < |events| {
        assert TakenAt(refuses, events, k);
        assert all[..k] == events[..k];
      } else {
        assert all[..k] == events;
      }
    }
  }

  /** With clean names the library itself took every event: none got in by the counter of another. */
  lemma {:induction false} CleanAreTaken(refuses: Library, events: seq<Event>)
    requires Taken(refuses, events) && AllClean(events)
    ensures forall e | e in events :: !NoKey(e) && !refuses(e.name, e.labels)
    decreases |events|
  {
    if events != [] {
      var front, last := events[..|events| - 1], events[|events| - 1];
      assert events == front + [last];
      assert last in events;
      forall k | 0 <= k < |front| ensures TakenAt(refuses, front, k) {
        assert TakenAt(refuses, events, k) && front[..k] == events[..k];
      }
      CleanAreTaken(refuses, front);
      assert TakenAt(refuses, events, |front|);
      CountersExact(front, last.name, last.labels);
    }
  }

  /** So for clean names an event is refused exactly if it has no key or the library does not take it. */
  lemma RefusedExactly(refuses: Library, events: seq<Event>, e: Event)
    requires Taken(refuses, events) && AllClean(events) && Clean(e.name, e.labels)
    ensures Refused(refuses, CountersAfter(events), e) <==> NoKey(e) || refuses(e.name, e.labels)
  {
    CleanAreTaken(refuses, events);
    CountersExact(events, e.name, e.labels);
  }

  class Monitor {
    const refuses: Library
    var counters: map<string, nat>
    /** The events counted so far. */
    ghost var counted: seq<Event>

    ghost predicate Valid()
      reads this
    {
      counters == CountersAfter(counted) && Taken(refuses, counted)
    }

    constructor (refuses: Library)
      ensures Valid() && counted == [] && counters == map[] && this.refuses == refuses
    {
      this.refuses, counters, counted := refuses, map[], [];
    }

    /** Counts one event, or throws. */
    method IncrementCounter(e: Event) returns (r: Outcome<()>)
      requires Valid()
      modifies this
      ensures Valid()
      ensures r.Thrown? <==> Refused(refuses, old(counters), e)
      ensures counted == if r.Returned? then old(counted) + [e] else old(counted)
    {
      EmptyKeyExactly(e.name, e.labels);
      var key := MakeKey(e.name, e.labels);
      if key == "" || (key !in counters && refuses(e.name, e.labels)) {
        return Thrown;
      }
      TakenSnoc(refuses, counted, e);
      CountersSnoc(counted, e);
      counters := counters[key := (if key in counters then counters[key] else 0) + Increment(e)];
      counted := counted + [e];
      return Returned(());
    }

    /** One round of the consumer's inner loop. */
    method CountNext(events: seq<Event>, i: nat, ghost before: seq<Event>) returns (r: Outcome<()>)
      requires Valid() && i < |events| && counted == before + events[..i]
      modifies this
      ensures Valid()
      ensures r.Thrown? <==> RefusedAt(refuses, before, events, i)
      ensures counted == if r.Returned? then before + events[..i + 1] else before + events[..i]
    {
      PrefixSnoc(before, events, i);
      r := IncrementCounter(events[i]);
    }

    /** The inner loop of the consumer; a refused event ends it, and the thread with it. */
    method CountBatch(events: seq<Event>) returns (r: Outcome<()>)
      requires Valid()
      modifies this
      ensures Valid()
      ensures r.Returned? <==> forall k | 0 <= k < |events| :: !RefusedAt(refuses, old(counted), events, k)
      ensures r.Returned? ==> counted == old(counted) + events
      ensures r.Thrown? ==>
                exists n | 0 <= n < |events| ::
                  RefusedAt(refuses, old(counted), events, n) && counted == old(counted) + events[..n]
    {
      ghost var before := counted;
      for i := 0 to |events|
        invariant Valid() && counted == before + events[..i]
        invariant forall k | 0 <= k < i :: !RefusedAt(refuses, before, events, k)
      {
        r := CountNext(events, i, before);
        if r.Thrown? {
          return;
        }
      }
      assert events[..|events|] == events;
      return Returned(());
    }
  }

  /** The event is refused when those before it have been counted. */
  ghost predicate RefusedAt(refuses: Library, before: seq<Event>, events: seq<Event>, k: nat)
    requires k < |events|
  {
    Refused(refuses, CountersAfter(before + events[..k]), events[k])
  }
}
