/**
Tail-call chains as values: the key of the id hash, the region of a NIC, what a rebuilt hash must hold, and the
walk of a packet through the program array (src/ebpf/ebpf_common.h, src/ebpf/ebpf_chain.h).
*/
module Chain {
  import opened Wrappers

  const MAX_NIC_HOOK := 4
  const MAX_PER_NIC_PROGS := 8
  const MAX_CHAIN_PROGS := MAX_NIC_HOOK * MAX_PER_NIC_PROGS
  const TWO32 := 0x1_0000_0000

  /** MAX_TAIL_CALL_CNT of the kernel: a packet takes at most this many tail calls. */
  const TAIL_CALL_LIMIT := 33

  type Ifindex = i: int | 0 < i < 0x8000_0000 witness 1
  type ProgId = i: nat | i < TWO32

  /** CHAIN_KEY: the interface in the high 32 bits, the program id in the low 32. */
  function ChainKey(ifindex: Ifindex, id: ProgId): (key: nat)
    ensures key != 0
  {
    ifindex * TWO32 + id
  }

  lemma ChainKeyInjective(nic: Ifindex, id: ProgId, nic': Ifindex, id': ProgId)
    requires ChainKey(nic, id) == ChainKey(nic', id')
    ensures nic == nic' && id == id'
  {
  }

  // ---------------------------------------------------------------- the walk of a packet

  type Packet(!new, 00)
  type Verdict(!new, 00)

  /** A loaded program: its descriptor and the THIS_ID it was compiled with. */
  datatype Prog = Prog(fd: nat, id: ProgId)

  /** What a program does with a packet: end the walk, or go on to CHAIN_NEXT with a verdict in case that fails. */
  datatype Action = Stop(verdict: Verdict) | Next(fallback: Verdict, packet: Packet)

  type Behaviour = (Prog, Packet) -> Action

  datatype Trace = Trace(visited: seq<Prog>, verdict: Verdict)

  type IdHash = map<nat, nat>
  type Slots = seq<Option<Prog>>

  /** CHAIN_NEXT: where the program `id` on `nic` tail-calls to, if anywhere. */
  function NextProg(hash: IdHash, slots: Slots, nic: Ifindex, id: ProgId): Option<Prog> {
    var key := ChainKey(nic, id);
    if key !in hash then None
    else
      var next := (hash[key] + 1) % TWO32;
      if next < MAX_CHAIN_PROGS && next < |slots| then slots[next] else None
  }

  /** The programs a packet visits from `prog` on, with `budget` tail calls left, and its final verdict. */
  function Walk(hash: IdHash, slots: Slots, behave: Behaviour, nic: Ifindex, prog: Prog, packet: Packet,
                budget: nat): Trace
    decreases budget
  {
    match behave(prog, packet)
    case Stop(v) => Trace([prog], v)
    case Next(fallback, packet') =>
      match NextProg(hash, slots, nic, prog.id)
      case None => Trace([prog], fallback)
      case Some(next) =>
        if budget == 0 then Trace([prog], fallback)
        else
          var rest := Walk(hash, slots, behave, nic, next, packet', budget - 1);
          Trace([prog] + rest.visited, rest.verdict)
  }

  /** The reference: hand the packet to the programs of a list one after the other. */
  function RunInOrder(behave: Behaviour, progs: seq<Prog>, packet: Packet): Trace
    requires progs != []
  {
    match behave(progs[0], packet)
    case Stop(v) => Trace([progs[0]], v)
    case Next(fallback, packet') =>
      if |progs| == 1 then Trace([progs[0]], fallback)
      else
        var rest := RunInOrder(behave, progs[1..], packet');
        Trace([progs[0]] + rest.visited, rest.verdict)
  }

  /** Every program passes every packet on. */
  ghost predicate PassesAll(behave: Behaviour) {
    forall p: Prog, q: Packet :: behave(p, q).Next?
  }

  lemma {:induction false} PassedOnByAll(behave: Behaviour, progs: seq<Prog>, packet: Packet)
    requires progs != [] && PassesAll(behave)
    ensures RunInOrder(behave, progs, packet).visited == progs
    decreases |progs|
  {
    assert behave(progs[0], packet).Next?;
    if |progs| > 1 {
      PassedOnByAll(behave, progs[1..], behave(progs[0], packet).packet);
    }
  }

  /** Hash and array agree on the chain: its j-th program sits in slot start + j and the hash says so. */
  ghost predicate Linked(hash: IdHash, slots: Slots, nic: Ifindex, chain: seq<Prog>, start: nat) {
    && start + |chain| <= MAX_CHAIN_PROGS == |slots|
    && forall j | 0 <= j < |chain| ::
         && ChainKey(nic, chain[j].id) in hash && hash[ChainKey(nic, chain[j].id)] == start + j
         && slots[start + j] == Some(chain[j])
  }

  /** Nothing stands in the slot after the chain. */
  predicate EndsAt(slots: Slots, end: nat) {
    end < MAX_CHAIN_PROGS && end < |slots| ==> slots[end] == None
  }

  lemma LinkedTail(hash: IdHash, slots: Slots, nic: Ifindex, chain: seq<Prog>, start: nat)
    requires Linked(hash, slots, nic, chain, start) && |chain| > 1
    ensures Linked(hash, slots, nic, chain[1..], start + 1)
    ensures NextProg(hash, slots, nic, chain[0].id) == Some(chain[1])
  {
    forall j | 0 <= j < |chain[1..]|
      ensures && ChainKey(nic, chain[1..][j].id) in hash && hash[ChainKey(nic, chain[1..][j].id)] == start + 1 + j
              && slots[start + 1 + j] == Some(chain[1..][j])
    {
      assert chain[1..][j] == chain[j + 1];
    }
  }

  /** A packet entering a linked chain meets exactly what running the list in order would meet. */
  lemma {:induction false} WalkFollowsChain(
      hash: IdHash, slots: Slots, behave: Behaviour, nic: Ifindex, chain: seq<Prog>, start: nat, packet: Packet,
      budget: nat)
    requires chain != [] && Linked(hash, slots, nic, chain, start) && EndsAt(slots, start + |chain|)
    requires budget >= |chain| - 1
    ensures Walk(hash, slots, behave, nic, chain[0], packet, budget) == RunInOrder(behave, chain, packet)
    decreases |chain|
  {
    if |chain| > 1 && behave(chain[0], packet).Next? {
      LinkedTail(hash, slots, nic, chain, start);
      WalkFollowsChain(hash, slots, behave, nic, chain[1..], start + 1, behave(chain[0], packet).packet, budget - 1);
    }
  }

  /** The packet as the j-th program of the list receives it, if all before it pass it on. */
  function PacketAt(behave: Behaviour, progs: seq<Prog>, packet: Packet, j: nat): Packet
    requires j < |progs|
  {
    if j == 0 then packet
    else
      match behave(progs[0], packet)
      case Stop(_) => packet
      case Next(_, packet') => PacketAt(behave, progs[1..], packet', j - 1)
  }

  /**
  Running a list visits a non-empty prefix of it; every program before the last passes the packet on, and the
  verdict is that of the last one, which stopped the packet unless the list was used up.
  */
  lemma {:induction false} RunInOrderMeaning(behave: Behaviour, progs: seq<Prog>, packet: Packet)
    requires progs != []
    ensures var t := RunInOrder(behave, progs, packet);
            var n := |t.visited|;
            && 1 <= n <= |progs| && t.visited == progs[..n]
            && (forall j | 0 <= j < n - 1 :: behave(progs[j], PacketAt(behave, progs, packet, j)).Next?)
            && match behave(progs[n - 1], PacketAt(behave, progs, packet, n - 1)) {
                 case Stop(v) => t.verdict == v
                 case Next(fallback, _) => t.verdict == fallback && n == |progs|
               }
    decreases |progs|
  {
    var t := RunInOrder(behave, progs, packet);
    match behave(progs[0], packet)
    case Stop(_) =>
    case Next(_, packet') =>
      if |progs| > 1 {
        RunInOrderMeaning(behave, progs[1..], packet');
        var n := |t.visited|;
        assert t.visited == progs[..n];
        assert PacketAt(behave, progs, packet, n - 1) == PacketAt(behave, progs[1..], packet', n - 2);
        forall j | 0 <= j < n - 1
          ensures behave(progs[j], PacketAt(behave, progs, packet, j)).Next?
        {
          if j > 0 {
            assert PacketAt(behave, progs, packet, j) == PacketAt(behave, progs[1..], packet', j - 1);
          }
        }
      }
  }

  /**
  A chain that passes every packet on ends where it should exactly when the slot behind it is empty or past the
  array.
  */
  lemma {:induction false} ChainEndsExactly(
      hash: IdHash, slots: Slots, behave: Behaviour, nic: Ifindex, chain: seq<Prog>, start: nat, packet: Packet,
      budget: nat)
    requires chain != [] && Linked(hash, slots, nic, chain, start) && budget >= |chain|
    requires PassesAll(behave)
    ensures Walk(hash, slots, behave, nic, chain[0], packet, budget).visited == chain <==>
            EndsAt(slots, start + |chain|)
    decreases |chain|
  {
    var t := Walk(hash, slots, behave, nic, chain[0], packet, budget);
    assert behave(chain[0], packet).Next?;
    if |chain| > 1 {
      LinkedTail(hash, slots, nic, chain, start);
      var packet' := behave(chain[0], packet).packet;
      ChainEndsExactly(hash, slots, behave, nic, chain[1..], start + 1, packet', budget - 1);
      var rest := Walk(hash, slots, behave, nic, chain[1], packet', budget - 1);
      assert t.visited == [chain[0]] + rest.visited;
      assert chain == [chain[0]] + chain[1..];
      assert rest.visited == t.visited[1..];
    } else {
      assert chain == [chain[0]];
      if !EndsAt(slots, start + 1) {
        var next := NextProg(hash, slots, nic, chain[0].id).value;
        WalkInAnyState(hash, slots, behave, nic, next, behave(chain[0], packet).packet, budget - 1);
        assert |t.visited| >= 2;
      }
    }
  }

  /** The program that follows the r-th of a chain when `again` stands behind it. */
  function Following(chain: seq<Prog>, again: Prog, r: nat): Prog
    requires r < |chain|
  {
    if r + 1 < |chain| then chain[r + 1] else again
  }

  /** `n` programs from behind the r-th on, round and round. */
  function Circle(chain: seq<Prog>, again: Prog, r: nat, n: nat): (progs: seq<Prog>)
    requires r < |chain|
    ensures |progs| == n
    decreases n
  {
    if n == 0 then []
    else [Following(chain, again, r)] + Circle(chain, again, if r + 1 < |chain| then r + 1 else 0, n - 1)
  }

  /** The slot behind the chain holds a program with the id of its first. */
  ghost predicate ClosesCircle(slots: Slots, chain: seq<Prog>, start: nat, again: Prog) {
    chain != [] && start + |chain| < MAX_CHAIN_PROGS == |slots| && slots[start + |chain|] == Some(again)
    && again.id == chain[0].id
  }

  /**
  A packet that all programs pass on circles through such a chain until its tail calls are used up: the program in
  the slot behind finds its own entry, and calls the chain's second program.
  */
  lemma {:induction false} WalkCircles(hash: IdHash, slots: Slots, behave: Behaviour, nic: Ifindex, chain: seq<Prog>,
                                       start: nat, again: Prog, r: nat, prog: Prog, packet: Packet, budget: nat)
    requires Linked(hash, slots, nic, chain, start) && ClosesCircle(slots, chain, start, again)
    requires r < |chain| && prog.id == chain[r].id
    requires PassesAll(behave)
    ensures Walk(hash, slots, behave, nic, prog, packet, budget).visited == [prog] + Circle(chain, again, r, budget)
    decreases budget
  {
    assert NextProg(hash, slots, nic, prog.id) == Some(Following(chain, again, r));
    var packet' := behave(prog, packet).packet;
    if budget > 0 {
      var r' := if r + 1 < |chain| then r + 1 else 0;
      WalkCircles(hash, slots, behave, nic, chain, start, again, r', Following(chain, again, r), packet', budget - 1);
    }
  }

  /** Whatever hash and array hold, a walk ends, and all it visits but the last has an entry for this NIC. */
  lemma {:induction false} WalkInAnyState(
      hash: IdHash, slots: Slots, behave: Behaviour, nic: Ifindex, prog: Prog, packet: Packet, budget: nat)
    ensures var t := Walk(hash, slots, behave, nic, prog, packet, budget);
            && 1 <= |t.visited| <= budget + 1 && t.visited[0] == prog
            && (forall j | 0 <= j < |t.visited| - 1 :: ChainKey(nic, t.visited[j].id) in hash)
            && (forall j | 1 <= j < |t.visited| :: Some(t.visited[j]) in slots)
    decreases budget
  {
    match behave(prog, packet)
    case Stop(_) =>
    case Next(_, packet') =>
      var next := NextProg(hash, slots, nic, prog.id);
      if next.Some? && budget > 0 {
        WalkInAnyState(hash, slots, behave, nic, next.value, packet', budget - 1);
        var rest := Walk(hash, slots, behave, nic, next.value, packet', budget - 1);
        var t := Walk(hash, slots, behave, nic, prog, packet, budget);
        assert t.visited == [prog] + rest.visited;
      }
  }
}
