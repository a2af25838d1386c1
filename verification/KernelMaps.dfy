/**
Kernel maps as user space sees them through bpf(2).  These classes are trusted: they state what the kernel
promises, and everything else is proved on top of them.
*/
module KernelMaps {
  import opened Wrappers

  predicate NoRepeats<T(==)>(s: seq<T>) {
    forall i, j | 0 <= i < j < |s| :: s[i] != s[j]
  }

  /** Position of `x` in a sequence that holds it. */
  function Position<T(==)>(s: seq<T>, x: T): (i: nat)
    requires x in s
    ensures i < |s| && s[i] == x
  {
    if s[0] == x then 0 else 1 + Position(s[1..], x)
  }

  lemma PositionUnique<T>(s: seq<T>, i: nat)
    requires NoRepeats(s) && i < |s|
    ensures Position(s, s[i]) == i
  {
  }

  predicate IsLast<T(==)>(x: T, s: seq<T>) {
    s != [] && s[|s| - 1] == x
  }

  /** BPF_MAP_TYPE_HASH. */
  class BpfHash<K(==,!new), V> {
    var entries: map<K, V>
    var order: seq<K>   // the order in which the kernel happens to enumerate the keys
    const capacity: nat

    constructor (capacity: nat)
      ensures Valid() && entries == map[] && this.capacity == capacity
    {
      entries, order := map[], [];
      this.capacity := capacity;
    }

    ghost predicate Valid()
      reads this
    {
      && NoRepeats(order) && (forall k :: k in order <==> k in entries)
      && |entries| <= capacity
    }

    lemma NothingListed()
      requires Valid() && order == []
      ensures entries == map[]
    {
      assert forall k :: k in entries ==> k in order;
    }

    function Lookup(k: K): Option<V>
      reads this
    {
      if k in entries then Some(entries[k]) else None
    }

    /** BPF_MAP_GET_NEXT_KEY: an absent or null key yields the first key, the last key yields an error. */
    function GetNextKey(k: Option<K>): (next: Option<K>)
      requires Valid()
      reads this
      ensures next.Some? ==> next.value in entries
    {
      if k.None? || k.value !in order then
        if order == [] then None else Some(order[0])
      else
        var i := Position(order, k.value);
        if i + 1 < |order| then Some(order[i + 1]) else None
    }

    /** BPF_MAP_UPDATE_ELEM with BPF_ANY: a new key is refused when the map is full, else lands anywhere. */
    method Update(k: K, v: V) returns (ok: bool)
      requires Valid()
      modifies this
      ensures Valid()
      ensures ok <==> k in old(entries) || |old(entries)| < capacity
      ensures entries == if ok then old(entries)[k := v] else old(entries)
      ensures k in old(entries) ==> order == old(order)
    {
      if k in entries {
        entries := entries[k := v];
        ok := true;
      } else if |entries| < capacity {
        var pos: nat :| pos <= |order|;
        Inserted(order, pos, k);
        order := order[..pos] + [k] + order[pos..];
        entries := entries[k := v];
        ok := true;
      } else {
        ok := false;
      }
    }

    /** BPF_MAP_DELETE_ELEM. */
    method Delete(k: K) returns (ok: bool)
      requires Valid()
      modifies this
      ensures Valid()
      ensures ok <==> k in old(entries)
      ensures entries == old(entries) - {k}
      ensures order == Without(old(order), k)
      ensures old(order) != [] && old(order)[0] == k ==> order == old(order)[1..]
    {
      ok := k in entries;
      WithoutMembers(order, k);
      entries := entries - {k};
      order := Without(order, k);
    }
  }

  lemma Inserted<T(!new)>(s: seq<T>, pos: nat, x: T)
    requires NoRepeats(s) && pos <= |s| && x !in s
    ensures NoRepeats(s[..pos] + [x] + s[pos..])
    ensures forall k :: k in s[..pos] + [x] + s[pos..] <==> k in s || k == x
  {
    var r := s[..pos] + [x] + s[pos..];
    forall k | k in s ensures k in r {
      var i := Position(s, k);
      assert r[if i < pos then i else i + 1] == k;
    }
    assert r[pos] == x;
  }

  lemma FewerEntries<K, V>(m: map<K, V>, k: K)
    requires k in m
    ensures |m - {k}| < |m|
  {
    assert m.Keys == (m - {k}).Keys + {k};
  }

  function Without<T(==)>(s: seq<T>, x: T): (r: seq<T>) {
    if s == [] then [] else (if s[0] == x then [] else [s[0]]) + Without(s[1..], x)
  }

  lemma {:induction false} WithoutMembers<T(!new)>(s: seq<T>, x: T)
    requires NoRepeats(s)
    ensures NoRepeats(Without(s, x))
    ensures forall k :: k in Without(s, x) <==> k in s && k != x
    ensures s != [] && s[0] == x ==> Without(s, x) == s[1..]
  {
    if s != [] {
      WithoutMembers(s[1..], x);
      assert s == [s[0]] + s[1..];
      assert s[0] !in s[1..];
      if s[0] == x {
        WithoutAbsent(s[1..], x);
      } else {
        assert Without(s, x) == [s[0]] + Without(s[1..], x);
      }
    }
  }

  lemma {:induction false} WithoutAbsent<T>(s: seq<T>, x: T)
    requires x !in s
    ensures Without(s, x) == s
  {
    if s != [] {
      WithoutAbsent(s[1..], x);
    }
  }

  /**
  BPF_MAP_TYPE_PROG_ARRAY: slots 0 .. |slots|-1, each holding a program or nothing.
  */
  class ProgArray<P> {
    var slots: seq<Option<P>>

    constructor (size: nat)
      ensures |slots| == size && forall i | 0 <= i < size :: slots[i] == None
    {
      slots := seq(size, _ => None);
    }

    method Update(i: nat, p: P) returns (ok: bool)
      modifies this
      ensures ok <==> i < |old(slots)|
      ensures slots == if ok then old(slots)[i := Some(p)] else old(slots)
    {
      ok := i < |slots|;
      if ok {
        slots := slots[i := Some(p)];
      }
    }
  }

  /** BPF_MAP_TYPE_ARRAY: every index below the size exists from the start and cannot be deleted. */
  class BpfArray<V> {
    const cells: array<V>

    constructor (size: nat, zero: V)
      ensures fresh(cells) && cells.Length == size
      ensures forall i | 0 <= i < size :: cells[i] == zero
    {
      cells := new V[size](_ => zero);
    }

    function Lookup(i: nat): Option<V>
      reads cells
    {
      if i < cells.Length then Some(cells[i]) else None
    }

    function GetNextKey(k: Option<nat>): Option<nat> {
      if cells.Length == 0 then None
      else if k.None? || k.value >= cells.Length then Some(0)
      else if k.value + 1 < cells.Length then Some(k.value + 1)
      else None
    }

    method Update(i: nat, v: V) returns (ok: bool)
      modifies cells
      ensures ok <==> i < cells.Length
      ensures cells[..] == if ok then old(cells[..])[i := v] else old(cells[..])
    {
      ok := i < cells.Length;
      if ok {
        cells[i] := v;
      }
    }

    /** Elements of an array map cannot be deleted: the call fails and changes nothing. */
    method Delete(i: nat) returns (ok: bool)
      ensures !ok
    {
      ok := false;
    }
  }

  /**
  The clearing loop of `updateChain`: start from key 0, ask for the next key, delete it, go on from there.
  It empties the map unless 0 itself happens to be the last key, in which case it deletes nothing.
  */
  method DeleteWhileIterating<V>(hash: BpfHash<nat, V>)
    requires hash.Valid()
    modifies hash
    ensures hash.Valid()
    ensures hash.entries ==
            if IsLast(0, old(hash.order)) then old(hash.entries) else map[]
  {
    var key: nat := 0;
    var next := hash.GetNextKey(Some(key));
    while next.Some?
      invariant hash.Valid()
      invariant next == hash.GetNextKey(Some(key))
      invariant if key in hash.entries
                then key == 0 && hash.entries == old(hash.entries) && hash.order == old(hash.order)
                else !IsLast(0, old(hash.order))
      decreases |hash.entries|
    {
      ghost var before := hash.entries;
      var _ := hash.Delete(next.value);
      FewerEntries(before, next.value);
      key := next.value;
      next := hash.GetNextKey(Some(key));
    }
    if key !in hash.entries {
      hash.NothingListed();
    }
  }

  /** The clearing loops of the rule services: collect every key first, then delete them. */
  method CollectKeys<K(==,!new), V>(hash: BpfHash<K, V>) returns (keys: seq<K>)
    requires hash.Valid()
    ensures keys == hash.order
  {
    keys := [];
    var next := hash.GetNextKey(None);
    while next.Some?
      invariant |keys| <= |hash.order| && keys == hash.order[..|keys|]
      invariant next == if |keys| < |hash.order| then Some(hash.order[|keys|]) else None
      decreases |hash.order| - |keys|
    {
      keys := keys + [next.value];
      PositionUnique(hash.order, |keys| - 1);
      next := hash.GetNextKey(Some(next.value));
    }
  }

  method CollectThenDelete<K(==,!new), V>(hash: BpfHash<K, V>) returns (keys: seq<K>)
    requires hash.Valid()
    modifies hash
    ensures hash.Valid() && hash.entries == map[]
    ensures keys == old(hash.order)
  {
    keys := CollectKeys(hash);
    for i := 0 to |keys|
      invariant hash.Valid()
      invariant hash.order == keys[i..]
    {
      var _ := hash.Delete(keys[i]);
    }
    hash.NothingListed();
  }
}
