/**
 * The `Executor`, which spins several nodes from one loop.
 *
 * It holds the handles of the nodes it manages, in the order they were added,
 * and a running flag. The calls it makes into the nodes (`spin_some` while
 * spinning, `stop_spin` when stopped) are what its methods return; what a node
 * does with them is not modelled. The lock around the node list is left out:
 * each method runs as one sequential step.
 */
module Executors {
  import opened RclLikeWrapper

  /** The list `std::remove` followed by `erase` leaves: every `h` dropped, the rest in order. */
  function Without(nodes: seq<Handle>, h: Handle): seq<Handle>
  {
    if nodes == [] then []
    else (if nodes[0] == h then [] else [nodes[0]]) + Without(nodes[1..], h)
  }

  /** Removal distributes over concatenation, so it keeps the survivors' relative order. */
  lemma {:induction false} WithoutConcat(a: seq<Handle>, b: seq<Handle>, h: Handle)
    ensures Without(a + b, h) == Without(a, h) + Without(b, h)
  {
    if a == [] {
      assert a + b == b;
    } else {
      assert (a + b)[1..] == a[1..] + b;
      WithoutConcat(a[1..], b, h);
    }
  }

  /**
   * After removal the handle is gone, every other handle occurs exactly as
   * often as before, and removing an absent handle changes nothing.
   */
  lemma {:induction false} WithoutSpec(nodes: seq<Handle>, h: Handle)
    ensures h !in Without(nodes, h)
    ensures forall x :: x != h ==> multiset(Without(nodes, h))[x] == multiset(nodes)[x]
    ensures h !in nodes ==> Without(nodes, h) == nodes
  {
    if nodes != [] {
      WithoutSpec(nodes[1..], h);
      assert nodes == [nodes[0]] + nodes[1..];
    }
  }

  /** Removal never brings in the null handle. */
  lemma WithoutKeepsNoNull(nodes: seq<Handle>, h: Handle)
    requires Null !in nodes
    ensures Null !in Without(nodes, h)
  {
    WithoutSpec(nodes, h);
    if h != Null {
      assert multiset(Without(nodes, h))[Null] == multiset(nodes)[Null] == 0;
    }
  }

  /**
   * The calls one pass over `nodes` makes: operation `op` on each non-null
   * entry, in list order; null entries are logged and skipped.
   */
  function Round(nodes: seq<Handle>, op: Op): seq<Call>
  {
    if nodes == [] then []
    else (if nodes[0] == Null then [] else [Call(op, nodes[0])]) + Round(nodes[1..], op)
  }

  /**
   * A pass calls `op` exactly once on each non-null entry, in list order: its
   * calls are those entries, paired with `op`, one for one.
   */
  lemma {:induction false} RoundVisitsNonNull(nodes: seq<Handle>, op: Op)
    ensures |Round(nodes, op)| == |Without(nodes, Null)|
    ensures forall i :: 0 <= i < |Round(nodes, op)| ==> Round(nodes, op)[i] == Call(op, Without(nodes, Null)[i])
  {
    if nodes != [] {
      RoundVisitsNonNull(nodes[1..], op);
    }
  }

  /** On a list without null entries, a pass makes exactly one call per entry. */
  lemma OnePerEntry(nodes: seq<Handle>, op: Op)
    requires Null !in nodes
    ensures |Round(nodes, op)| == |nodes|
  {
    RoundVisitsNonNull(nodes, op);
    WithoutSpec(nodes, Null);
  }

  /** A pass splits at any point of the list into the passes over the two parts. */
  lemma {:induction false} RoundConcat(a: seq<Handle>, b: seq<Handle>, op: Op)
    ensures Round(a + b, op) == Round(a, op) + Round(b, op)
  {
    if a == [] {
      assert a + b == b;
    } else {
      assert (a + b)[1..] == a[1..] + b;
      RoundConcat(a[1..], b, op);
    }
  }

  /** The calls of `n` successive passes, each making the calls `pass`. */
  function Repeat(pass: seq<Call>, n: nat): seq<Call>
  {
    if n == 0 then [] else Repeat(pass, n - 1) + pass
  }

  /** Every call of a pass is the pass's operation on a non-null entry of the list. */
  lemma {:induction false} RoundTargets(nodes: seq<Handle>, op: Op)
    ensures forall c :: c in Round(nodes, op) ==> c.op == op && c.target != Null && c.target in nodes
  {
    if nodes != [] {
      RoundTargets(nodes[1..], op);
    }
  }

  /** Once a node is removed, a round of spinning makes no call on it. */
  lemma RemovedNodeNotSpun(nodes: seq<Handle>, h: Handle)
    ensures forall c :: c in Round(Without(nodes, h), SpinSome) ==> c.target != h
  {
    RoundTargets(Without(nodes, h), SpinSome);
    WithoutSpec(nodes, h);
  }

  /** `a + b` passes make the calls of `a` passes followed by those of `b` more. */
  lemma {:induction false} RepeatSplit(pass: seq<Call>, a: nat, b: nat)
    ensures |Repeat(pass, a)| == a * |pass|
    ensures Repeat(pass, a + b) == Repeat(pass, a) + Repeat(pass, b)
    decreases a + b
  {
    if b == 0 {
      assert Repeat(pass, a) + [] == Repeat(pass, a);
      if a > 0 {
        RepeatSplit(pass, a - 1, 0);
        assert |Repeat(pass, a)| == (a - 1) * |pass| + |pass|;
      }
    } else {
      RepeatSplit(pass, a, b - 1);
    }
  }

  /** The index of the first raised flag in a sequence of flag readings. */
  function FirstRaised(flags: seq<bool>): (r: nat)
    requires true in flags
    ensures r < |flags| && flags[r]
    ensures forall i :: 0 <= i < r ==> !flags[i]
  {
    if flags[0] then 0 else 1 + FirstRaised(flags[1..])
  }

  class Executor {
    var nodes: seq<Handle>
    var running: bool

    /** The managed list never holds the null handle. */
    ghost predicate Valid()
      reads this
    {
      Null !in nodes
    }

    /** A new executor is idle and manages no node. */
    constructor ()
      ensures Valid()
      ensures nodes == [] && !running
    {
      nodes := [];
      running := false;
    }

    /**
     * `add_node`: a null handle is logged and rejected; any other handle is
     * appended at the tail, even when it is already managed.
     */
    method AddNode(node: Handle)
      modifies this
      ensures old(Valid()) ==> Valid()
      ensures nodes == if node == Null then old(nodes) else old(nodes) + [node]
      ensures running == old(running)
    {
      if node != Null {
        nodes := nodes + [node];
      }
    }

    /**
     * `remove_node`: compacts the list, dropping every occurrence of the
     * handle and keeping the others in order.
     */
    method RemoveNode(node: Handle)
      modifies this
      ensures old(Valid()) ==> Valid()
      ensures nodes == Without(old(nodes), node)
      ensures running == old(running)
    {
      var kept: seq<Handle> := [];
      var i := 0;
      while i < |nodes|
        invariant 0 <= i <= |nodes|
        invariant nodes == old(nodes) && running == old(running)
        invariant kept == Without(nodes[..i], node)
      {
        WithoutConcat(nodes[..i], [nodes[i]], node);
        assert nodes[..i + 1] == nodes[..i] + [nodes[i]];
        if nodes[i] != node {
          kept := kept + [nodes[i]];
        }
        i := i + 1;
      }
      assert nodes[..i] == nodes;
      if Valid() {
        WithoutKeepsNoNull(nodes, node);
      }
      nodes := kept;
    }

    /**
     * `stop`: when running, clears the flag and sends `stop_spin` to every
     * non-null node in list order; when already stopped, does nothing, so a
     * second stop is a no-op.
     */
    method Stop() returns (calls: seq<Call>)
      modifies this
      ensures !running && nodes == old(nodes)
      ensures calls == if old(running) then Round(nodes, StopSpin) else []
      ensures old(running) && Valid() ==> |calls| == |nodes|
    {
      calls := [];
      if running {
        running := false;
        var i := 0;
        while i < |nodes|
          invariant 0 <= i <= |nodes|
          invariant nodes == old(nodes) && !running
          invariant calls == Round(nodes[..i], StopSpin)
        {
          RoundConcat(nodes[..i], [nodes[i]], StopSpin);
          assert nodes[..i + 1] == nodes[..i] + [nodes[i]];
          if nodes[i] != Null {
            calls := calls + [Call(StopSpin, nodes[i])];
          }
          i := i + 1;
        }
        assert nodes[..i] == nodes;
        if Valid() {
          OnePerEntry(nodes, StopSpin);
        }
      }
    }

    /** One round of `spin`: `spin_some` on every non-null node, in list order. */
    method SpinRound() returns (calls: seq<Call>)
      ensures calls == Round(nodes, SpinSome)
      ensures Valid() ==> |calls| == |nodes|
    {
      calls := [];
      var i := 0;
      while i < |nodes|
        invariant 0 <= i <= |nodes|
        invariant calls == Round(nodes[..i], SpinSome)
      {
        RoundConcat(nodes[..i], [nodes[i]], SpinSome);
        assert nodes[..i + 1] == nodes[..i] + [nodes[i]];
        if nodes[i] != Null {
          calls := calls + [Call(SpinSome, nodes[i])];
        }
        i := i + 1;
      }
      assert nodes[..i] == nodes;
      if Valid() {
        OnePerEntry(nodes, SpinSome);
      }
    }

    /**
     * `spin`: sets the running flag, then runs rounds while the flag is set and
     * the process-wide stop flag is clear. `globalStop` lists the readings of
     * that flag at successive loop tests; the loop ends at the first raised one
     * (without one, the source spins forever). Leaving on the process-wide flag
     * keeps the running flag set.
     */
    method Spin(globalStop: seq<bool>) returns (rounds: nat, calls: seq<Call>)
      requires true in globalStop
      modifies this
      ensures running && nodes == old(nodes)
      ensures rounds == FirstRaised(globalStop)
      ensures calls == Repeat(Round(nodes, SpinSome), rounds)
      ensures |calls| == rounds * |Without(nodes, Null)|
    {
      running := true;
      rounds, calls := 0, [];
      ghost var stopAt := FirstRaised(globalStop);
      ghost var pass := Round(nodes, SpinSome);
      while running && !globalStop[rounds]
        invariant rounds <= stopAt
        invariant running && nodes == old(nodes)
        invariant calls == Repeat(pass, rounds)
        decreases stopAt - rounds
      {
        assert rounds != stopAt;
        var made := SpinRound();
        calls := calls + made;
        rounds := rounds + 1;
      }
      RepeatSplit(pass, rounds, 0);
      RoundVisitsNonNull(nodes, SpinSome);
    }
  }

  /** A second `stop` makes no call and leaves the executor stopped. */
  method StopTwice(e: Executor) returns (first: seq<Call>, second: seq<Call>)
    modifies e
    ensures !e.running && e.nodes == old(e.nodes)
    ensures first == if old(e.running) then Round(e.nodes, StopSpin) else []
    ensures second == []
  {
    first := e.Stop();
    second := e.Stop();
  }
}
