/**
  The access-control trie: nodes on the heap that fan out 16 ways, edited in place by
  `set_subnet` and walked by `check_ip`.  Every node knows its path as ghost state, so the map
  from paths to nodes describes the whole trie and no two paths share a node.
 */
module AddressFilter {
  import opened Common
  import opened AddressRules

  type Nodes = map<Path, TableNode>

  function Parent(p: Path): Path
    requires p != []
  {
    p[..|p| - 1]
  }

  function Last(p: Path): nat
    requires p != []
  {
    p[|p| - 1]
  }

  /** The node at `p` is tied to its children and to its parent. */
  ghost predicate Linked(nodes: Nodes, p: Path)
    requires p in nodes
    reads nodes.Values`extended
  {
    && nodes[p].path == p
    && (nodes[p].extended.Some? ==>
          && |nodes[p].extended.value| == 16
          && forall i :: 0 <= i < 16 ==> p + [i] in nodes && nodes[p + [i]] == nodes[p].extended.value[i])
    && (p != [] ==> Last(p) < 16 && Parent(p) in nodes && nodes[Parent(p)].extended.Some?)
  }

  /** The nodes form a trie of at most `depth` levels below the root. */
  ghost predicate Tree(nodes: Nodes, depth: nat)
    reads nodes.Values`extended
  {
    && [] in nodes
    && forall p {:trigger Linked(nodes, p)} ::
         p in nodes ==> Linked(nodes, p) && |p| + (if nodes[p].extended.Some? then 1 else 0) <= depth
  }

  /** A snapshot of the states of all nodes. */
  ghost function States(nodes: Nodes): map<Path, State>
    reads nodes.Values`state
  {
    map p | p in nodes :: nodes[p].state
  }

  /** The explicit state at `p`; a missing node inherits like an empty one. */
  ghost function At(states: map<Path, State>, p: Path): State {
    if p in states then states[p] else AsParent
  }

  /** Two snapshots say the same about every path. */
  ghost predicate Same(a: map<Path, State>, b: map<Path, State>) {
    forall p: Path :: At(a, p) == At(b, p)
  }

  ghost predicate StrictlyBelow(p: Path, q: Path) { |q| < |p| && p[..|q|] == q }

  lemma ChildNotBelow(p: Path, i: nat, q: Path)
    requires p != q && !StrictlyBelow(p, q)
    ensures !StrictlyBelow(p + [i], q)
  {
    assert |q| <= |p| ==> (p + [i])[..|q|] == p[..|q|];
    assert |q| == |p| ==> p[..|q|] == p;
  }

  lemma ParentNotBelow(p: Path, q: Path)
    requires p != [] && !StrictlyBelow(p, q)
    ensures !StrictlyBelow(Parent(p), q) && Parent(p) != q
  {
    assert |q| < |p| ==> p[..|q|] == Parent(p)[..|q|];
    assert |q| == |p| - 1 ==> Parent(p)[..|q|] == Parent(p);
  }

  lemma PathStep(ip: Words, k: nat)
    requires k < 8 * |ip|
    ensures 4 * k / 32 < |ip| && 4 * k % 4 == 0
    ensures Nibbles(ip)[..k + 1] == Nibbles(ip)[..k] + [GetSubnet(ip, 4 * k)]
  {
    assert Nibbles(ip)[k] == GetSubnet(ip, 4 * k);
  }

  /** Adding nodes that inherit changes no explicit state. */
  lemma ExtendedSame(nodes: Nodes, nodes': Nodes)
    requires forall p :: p in nodes ==> p in nodes' && nodes'[p] == nodes[p]
    requires forall p :: p in nodes' && p !in nodes ==> nodes'[p].state == AsParent
    ensures Same(States(nodes'), States(nodes))
  {
  }

  lemma AttachedTree(nodes: Nodes, q: Path, kids: seq<TableNode>, depth: nat)
    requires [] in nodes && q in nodes && nodes[q].path == q && nodes[q].extended == Some(kids) && |kids| == 16
    requires |q| < depth && (q != [] ==> Last(q) < 16 && Parent(q) in nodes && nodes[Parent(q)].extended.Some?)
    requires forall p :: p in nodes && p != q ==>
               Linked(nodes, p) && |p| + (if nodes[p].extended.Some? then 1 else 0) <= depth
    requires forall p :: p in nodes ==> (nodes + Children(q, kids))[p] == nodes[p]
    requires forall i :: 0 <= i < 16 ==> kids[i].path == q + [i] && kids[i].extended.None?
    ensures Tree(nodes + Children(q, kids), depth)
  {
    var all := nodes + Children(q, kids);
    forall p | p in all ensures Linked(all, p) && |p| + (if all[p].extended.Some? then 1 else 0) <= depth {
      if p in nodes && p != q { assert Linked(nodes, p); }
    }
  }

  /** `p` lies at or below one of the children `lo .. hi` of `q`. */
  ghost predicate InRun(p: Path, q: Path, lo: nat, hi: nat) {
    |p| > |q| && p[..|q|] == q && lo <= p[|q|] < hi
  }

  /** The state at `p` once the children `lo .. hi` of `q` have been set. */
  ghost function RunState(s: State, p: Path, q: Path, lo: nat, hi: nat, newState: State, all: bool): State {
    if !InRun(p, q, lo, hi) then s else if |p| == |q| + 1 then newState else if all then AsParent else s
  }

  /** `after` is `before` with the children `lo .. hi` of `q` set. */
  ghost predicate RunSet(after: map<Path, State>, before: map<Path, State>, q: Path, lo: nat, hi: nat,
                         newState: State, all: bool) {
    forall p: Path :: At(after, p) == RunState(At(before, p), p, q, lo, hi, newState, all)
  }

  /** `after` is `before` with the node at `q` set. */
  ghost predicate NodeSet(after: map<Path, State>, before: map<Path, State>, q: Path, newState: State, all: bool) {
    forall p: Path :: At(after, p) ==
                      if p == q then newState else if all && StrictlyBelow(p, q) then AsParent else At(before, p)
  }

  /** `after` is `before` with the rule for `ip/bits` written in. */
  ghost predicate RuleSet(after: map<Path, State>, before: map<Path, State>, ip: Words, bits: nat,
                          newState: State, all: bool)
    requires bits <= 32 * |ip|
  {
    forall p: Path :: At(after, p) ==
                      if Matches(ip, bits, p) then newState
                      else if all && |p| > Level(bits) && Matches(ip, bits, p[..Level(bits)]) then AsParent
                      else At(before, p)
  }

  /** For a width of whole nibbles the rule is one node. */
  lemma WholeNibbles(ip: Words, bits: nat, p: Path)
    requires bits <= 32 * |ip| && bits % 4 == 0
    ensures Matches(ip, bits, p) <==> p == Nibbles(ip)[..bits / 4]
    ensures |p| > Level(bits) && Matches(ip, bits, p[..Level(bits)]) <==> StrictlyBelow(p, Nibbles(ip)[..bits / 4])
  {
    var q := Nibbles(ip)[..bits / 4];
    assert p == q <==> |p| == |q| && forall i :: 0 <= i < |q| ==> p[i] == q[i];
    if |p| > Level(bits) {
      assert p[..Level(bits)] == q <==> forall i :: 0 <= i < |q| ==> p[..Level(bits)][i] == q[i];
    }
  }

  /** The first index of the run that `d` falls into: its low bits cleared. */
  function RunBase(d: nat, bits: nat): (base: nat)
    ensures base <= d < base + Span(bits)
    ensures d < 16 ==> base + Span(bits) <= 16
  {
    if bits % 4 == 0 then d else if bits % 4 == 1 then d / 8 * 8 else if bits % 4 == 2 then d / 4 * 4 else d / 2 * 2
  }

  lemma SameRun(a: nat, d: nat, bits: nat)
    ensures a / Span(bits) == d / Span(bits) <==> RunBase(d, bits) <= a < RunBase(d, bits) + Span(bits)
  {
  }

  /** Otherwise it is a run of siblings. */
  lemma PartNibble(ip: Words, bits: nat, p: Path)
    requires bits <= 32 * |ip| && bits % 4 != 0
    ensures var q, n := Nibbles(ip)[..bits / 4], Span(bits);
            var base := RunBase(Nibbles(ip)[bits / 4], bits);
            && (Matches(ip, bits, p) <==> |p| == |q| + 1 && InRun(p, q, base, base + n))
            && (|p| > Level(bits) && Matches(ip, bits, p[..Level(bits)]) <==> |p| > |q| + 1 && InRun(p, q, base, base + n))
  {
    var k := bits / 4;
    var q, d := Nibbles(ip)[..k], Nibbles(ip)[k];
    assert Level(bits) == k + 1;
    if |p| > k {
      SameRun(p[k], d, bits);
      assert p[..k] == q <==> forall i :: 0 <= i < k ==> p[i] == Nibbles(ip)[i];
      var c := p[..k + 1];
      assert forall i :: 0 <= i < k + 1 ==> c[i] == p[i];
    }
  }

  lemma WholeRule(after: map<Path, State>, between: map<Path, State>, before: map<Path, State>, ip: Words, bits: nat,
                  newState: State, all: bool)
    requires bits <= 32 * |ip| && bits % 4 == 0 && Same(between, before)
    requires NodeSet(after, between, Nibbles(ip)[..bits / 4], newState, all)
    ensures RuleSet(after, before, ip, bits, newState, all)
  {
    forall p: Path
      ensures At(after, p) == if Matches(ip, bits, p) then newState
                              else if all && |p| > Level(bits) && Matches(ip, bits, p[..Level(bits)]) then AsParent
                              else At(before, p)
    {
      WholeNibbles(ip, bits, p);
    }
  }

  lemma PartRule(after: map<Path, State>, between: map<Path, State>, before: map<Path, State>, ip: Words, bits: nat,
                 newState: State, all: bool)
    requires bits <= 32 * |ip| && bits % 4 != 0 && Same(between, before)
    requires var base := RunBase(Nibbles(ip)[bits / 4], bits);
             RunSet(after, between, Nibbles(ip)[..bits / 4], base, base + Span(bits), newState, all)
    ensures RuleSet(after, before, ip, bits, newState, all)
  {
    forall p: Path
      ensures At(after, p) == if Matches(ip, bits, p) then newState
                              else if all && |p| > Level(bits) && Matches(ip, bits, p[..Level(bits)]) then AsParent
                              else At(before, p)
    {
      PartNibble(ip, bits, p);
    }
  }

  lemma RunStep(after: map<Path, State>, prev: map<Path, State>, before: map<Path, State>, q: Path, lo: nat, i: nat,
                newState: State, all: bool)
    requires lo <= i && RunSet(prev, before, q, lo, i, newState, all)
    requires NodeSet(after, prev, q + [i], newState, all)
    ensures RunSet(after, before, q, lo, i + 1, newState, all)
  {
    forall p: Path ensures At(after, p) == RunState(At(before, p), p, q, lo, i + 1, newState, all) {
      BelowChild(p, q, i);
    }
  }

  lemma BelowChild(p: Path, q: Path, i: nat)
    ensures p == q + [i] <==> |p| == |q| + 1 && InRun(p, q, i, i + 1)
    ensures StrictlyBelow(p, q + [i]) <==> |p| > |q| + 1 && InRun(p, q, i, i + 1)
  {
    if |p| > |q| {
      assert p[..|q| + 1] == p[..|q|] + [p[|q|]];
      assert p[..|q| + 1] == q + [i] ==> p[..|q|] == (q + [i])[..|q|];
      if |p| == |q| + 1 { assert p[..|q| + 1] == p; }
    }
  }

  class TableNode {
    ghost const path: Path
    var state: State
    var extended: Option<seq<TableNode>>

    constructor (ghost path: Path, state: State)
      ensures this.path == path && this.state == state && extended == None
    {
      this.path, this.state, this.extended := path, state, None;
    }

    /** Sixteen fresh children that inherit. */
    method NewChildren() returns (kids: seq<TableNode>)
      ensures |kids| == 16
      ensures forall i :: 0 <= i < 16 ==>
                fresh(kids[i]) && kids[i].path == path + [i] && kids[i].state == AsParent && kids[i].extended.None?
    {
      kids := [];
      while |kids| < 16
        invariant |kids| <= 16
        invariant forall i :: 0 <= i < |kids| ==>
          fresh(kids[i]) && kids[i].path == path + [i] && kids[i].state == AsParent && kids[i].extended.None?
      {
        var kid := new TableNode(path + [|kids|], AsParent);
        kids := kids + [kid];
      }
    }

    /** Hang new children under this node. */
    method Attach(kids: seq<TableNode>, ghost nodes: Nodes, ghost depth: nat) returns (ghost nodes': Nodes)
      requires Tree(nodes, depth) && path in nodes && nodes[path] == this && |path| < depth && extended.None?
      requires |kids| == 16
      requires forall i :: 0 <= i < 16 ==>
                 kids[i].path == path + [i] && kids[i].state == AsParent && kids[i].extended.None?
      modifies this`extended
      ensures extended == Some(kids) && nodes' == nodes + Children(path, kids)
      ensures Tree(nodes', depth)
      ensures forall p :: p in nodes ==> nodes'[p] == nodes[p]
    {
      assert Linked(nodes, path);
      nodes' := nodes + Children(path, kids);
      forall p | p in nodes ensures nodes'[p] == nodes[p] {
        assert Linked(nodes, p);
      }
      extended := Some(kids);
      forall p | p in nodes && p != path
        ensures Linked(nodes, p) && |p| + (if nodes[p].extended.Some? then 1 else 0) <= depth
      {
        assert old(Linked(nodes, p));
      }
      AttachedTree(nodes, path, kids, depth);
    }

    /** `open_node`. */
    method Open(ghost nodes: Nodes, ghost depth: nat) returns (ghost nodes': Nodes)
      requires Tree(nodes, depth) && path in nodes && nodes[path] == this && |path| < depth
      modifies this`extended
      ensures Tree(nodes', depth) && extended.Some?
      ensures forall p :: p in nodes ==> p in nodes' && nodes'[p] == nodes[p]
      ensures forall p :: p in nodes' && p !in nodes ==> fresh(nodes'[p])
      ensures Same(States(nodes'), old(States(nodes)))
    {
      nodes' := nodes;
      if extended.None? {
        var kids := NewChildren();
        nodes' := Attach(kids, nodes, depth);
        ExtendedSame(nodes, nodes');
      }
    }

    /** `close_node`: prune everything below this node. */
    method Close(ghost nodes: Nodes, ghost depth: nat) returns (ghost nodes': Nodes)
      requires Tree(nodes, depth) && path in nodes && nodes[path] == this
      modifies this`extended
      ensures Tree(nodes', depth) && extended.None?
      ensures nodes' == map p | p in nodes && !StrictlyBelow(p, path) :: nodes[p]
    {
      nodes' := map p | p in nodes && !StrictlyBelow(p, path) :: nodes[p];
      extended := None;
      forall p | p in nodes' ensures Linked(nodes', p) && |p| + (if nodes'[p].extended.Some? then 1 else 0) <= depth {
        assert old(Linked(nodes, p));
        if p != [] {
          ParentNotBelow(p, path);
          assert old(Linked(nodes, Parent(p)));
        }
        if p != path && nodes[p].extended.Some? {
          forall i | 0 <= i < 16 ensures p + [i] in nodes' {
            ChildNotBelow(p, i, path);
          }
        }
      }
    }

    /** Set the state of this node, pruning below it when asked to. */
    method SetState(newState: State, deleteChildren: bool, ghost nodes: Nodes, ghost depth: nat)
      returns (ghost nodes': Nodes)
      requires Tree(nodes, depth) && path in nodes && nodes[path] == this
      modifies this
      ensures Tree(nodes', depth) && path in nodes' && nodes'[path] == this
      ensures forall p :: p in nodes' ==> p in nodes && nodes'[p] == nodes[p]
      ensures !deleteChildren ==> nodes' == nodes
      ensures NodeSet(States(nodes'), old(States(nodes)), path, newState, deleteChildren)
      ensures forall p :: p in nodes && !StrictlyBelow(p, path) ==> p in nodes'
    {
      nodes' := nodes;
      if deleteChildren {
        nodes' := Close(nodes, depth);
      }
      state := newState;
      forall p | p in nodes' ensures nodes'[p].path == p {
        assert Linked(nodes', p);
      }
    }

    /** Walk `levels` indices down from this root, opening nodes on the way. */
    method Descend(ip: Words, levels: nat, ghost nodes: Nodes, ghost depth: nat)
      returns (node: TableNode, ghost nodes': Nodes)
      requires Tree(nodes, depth) && nodes[[]] == this && levels <= depth == 8 * |ip|
      modifies nodes.Values
      ensures Tree(nodes', depth) && Nibbles(ip)[..levels] in nodes' && node == nodes'[Nibbles(ip)[..levels]]
      ensures nodes'[[]] == this
      ensures forall p :: p in nodes' ==> (p in nodes && nodes'[p] == nodes[p]) || fresh(nodes'[p])
      ensures Same(States(nodes'), old(States(nodes)))
    {
      node, nodes' := this, nodes;
      var k := 0;
      assert Nibbles(ip)[..0] == [];
      while k < levels
        invariant 0 <= k <= levels && Tree(nodes', depth)
        invariant Nibbles(ip)[..k] in nodes' && node == nodes'[Nibbles(ip)[..k]] && nodes'[[]] == this
        invariant forall p :: p in nodes' ==> (p in nodes && nodes'[p] == nodes[p]) || fresh(nodes'[p])
        invariant Same(States(nodes'), old(States(nodes)))
      {
        assert Linked(nodes', Nibbles(ip)[..k]);
        PathStep(ip, k);
        var subnet := GetSubnet(ip, 4 * k);
        nodes' := node.Open(nodes', depth);
        assert Linked(nodes', Nibbles(ip)[..k]);
        node := node.extended.value[subnet];
        k := k + 1;
      }
    }

    /** Set the state of child `i`. */
    method SetChild(i: nat, newState: State, deleteChildren: bool, ghost nodes: Nodes, ghost depth: nat)
      returns (ghost nodes': Nodes)
      requires Tree(nodes, depth) && path in nodes && nodes[path] == this && extended.Some? && i < 16
      modifies nodes.Values
      ensures Tree(nodes', depth) && path in nodes' && nodes'[path] == this && extended.Some?
      ensures forall p :: p in nodes' ==> p in nodes && nodes'[p] == nodes[p]
      ensures NodeSet(States(nodes'), old(States(nodes)), path + [i], newState, deleteChildren)
    {
      assert Linked(nodes, path);
      var child := extended.value[i];
      assert Linked(nodes, path + [i]);
      BelowChild(path, path, i);
      nodes' := child.SetState(newState, deleteChildren, nodes, depth);
    }

    /** Set the state of the children `base .. base + n`, pruning below them when asked to. */
    method SetRun(base: nat, n: nat, newState: State, deleteChildren: bool, ghost nodes: Nodes, ghost depth: nat)
      returns (ghost nodes': Nodes)
      requires Tree(nodes, depth) && path in nodes && nodes[path] == this && extended.Some? && base + n <= 16
      modifies nodes.Values
      ensures Tree(nodes', depth)
      ensures forall p :: p in nodes' ==> p in nodes && nodes'[p] == nodes[p]
      ensures RunSet(States(nodes'), old(States(nodes)), path, base, base + n, newState, deleteChildren)
    {
      nodes' := nodes;
      ghost var before := States(nodes);
      var i := base;
      while i < base + n
        invariant base <= i <= base + n && Tree(nodes', depth)
        invariant path in nodes' && nodes'[path] == this && extended.Some?
        invariant forall p :: p in nodes' ==> p in nodes && nodes'[p] == nodes[p]
        invariant RunSet(States(nodes'), before, path, base, i, newState, deleteChildren)
      {
        ghost var prev := States(nodes');
        nodes' := SetChild(i, newState, deleteChildren, nodes', depth);
        RunStep(States(nodes'), prev, before, path, base, i, newState, deleteChildren);
        i := i + 1;
      }
    }

    /** The branch of `set_subnet` for a width of whole nibbles: one node to set. */
    method SetWhole(ip: Words, bits: nat, newState: State, deleteChildren: bool, ghost nodes: Nodes)
      returns (ghost nodes': Nodes)
      requires Tree(nodes, 8 * |ip|) && nodes[[]] == this && bits <= 32 * |ip| && bits % 4 == 0
      modifies nodes.Values
      ensures Tree(nodes', 8 * |ip|) && nodes'[[]] == this
      ensures forall p :: p in nodes' ==> (p in nodes && nodes'[p] == nodes[p]) || fresh(nodes'[p])
      ensures RuleSet(States(nodes'), old(States(nodes)), ip, bits, newState, deleteChildren)
    {
      var node;
      node, nodes' := Descend(ip, bits / 4, nodes, 8 * |ip|);
      assert Linked(nodes', Nibbles(ip)[..bits / 4]);
      ghost var between := States(nodes');
      nodes' := node.SetState(newState, deleteChildren, nodes', 8 * |ip|);
      WholeRule(States(nodes'), between, old(States(nodes)), ip, bits, newState, deleteChildren);
    }

    /** Walk down and open the node arrived at as well. */
    method DescendAndOpen(ip: Words, levels: nat, ghost nodes: Nodes, ghost depth: nat)
      returns (node: TableNode, ghost nodes': Nodes)
      requires Tree(nodes, depth) && nodes[[]] == this && levels < depth == 8 * |ip|
      modifies nodes.Values
      ensures Tree(nodes', depth) && Nibbles(ip)[..levels] in nodes' && node == nodes'[Nibbles(ip)[..levels]]
      ensures nodes'[[]] == this && node.extended.Some? && node.path == Nibbles(ip)[..levels]
      ensures forall p :: p in nodes' ==> (p in nodes && nodes'[p] == nodes[p]) || fresh(nodes'[p])
      ensures Same(States(nodes'), old(States(nodes)))
    {
      node, nodes' := Descend(ip, levels, nodes, depth);
      assert Linked(nodes', Nibbles(ip)[..levels]);
      ghost var between := States(nodes');
      nodes' := node.Open(nodes', depth);
      assert Same(between, old(States(nodes)));
    }

    /** The branch for a leftover of one to three bits: a run of 8, 4 or 2 siblings. */
    method SetPart(ip: Words, bits: nat, newState: State, deleteChildren: bool, ghost nodes: Nodes)
      returns (ghost nodes': Nodes)
      requires Tree(nodes, 8 * |ip|) && nodes[[]] == this && bits <= 32 * |ip| && bits % 4 != 0
      modifies nodes.Values
      ensures Tree(nodes', 8 * |ip|) && nodes'[[]] == this
      ensures forall p :: p in nodes' ==> (p in nodes && nodes'[p] == nodes[p]) || fresh(nodes'[p])
      ensures RuleSet(States(nodes'), old(States(nodes)), ip, bits, newState, deleteChildren)
    {
      PathStep(ip, bits / 4);
      var base := RunBase(GetSubnet(ip, 4 * (bits / 4)), bits);
      var node;
      node, nodes' := DescendAndOpen(ip, bits / 4, nodes, 8 * |ip|);
      ghost var between := States(nodes');
      nodes' := node.SetRun(base, Span(bits), newState, deleteChildren, nodes', 8 * |ip|);
      PartRule(States(nodes'), between, old(States(nodes)), ip, bits, newState, deleteChildren);
    }

    /** `set_subnet`, for the trie with this root. */
    method SetSubnet(ip: Words, subnetBits: int, newState: State, deleteChildren: bool, ghost nodes: Nodes)
      returns (ok: bool, ghost nodes': Nodes)
      requires Tree(nodes, 8 * |ip|) && nodes[[]] == this
      modifies nodes.Values
      ensures ok <==> 0 <= subnetBits <= 32 * |ip|
      ensures Tree(nodes', 8 * |ip|) && nodes'[[]] == this
      ensures forall p :: p in nodes' ==> (p in nodes && nodes'[p] == nodes[p]) || fresh(nodes'[p])
      ensures if ok then RuleSet(States(nodes'), old(States(nodes)), ip, subnetBits, newState, deleteChildren)
              else nodes' == nodes && States(nodes') == old(States(nodes))
    {
      if subnetBits < 0 || subnetBits > 32 * |ip| {
        return false, nodes;
      }
      ok := true;
      if subnetBits % 4 == 0 {
        nodes' := SetWhole(ip, subnetBits, newState, deleteChildren, nodes);
      } else {
        nodes' := SetPart(ip, subnetBits, newState, deleteChildren, nodes);
      }
    }

    /** `check_ip_in_node`: the last explicit state on the way down decides. */
    method CheckIp(ip: Words, ghost nodes: Nodes) returns (allowed: bool)
      requires Tree(nodes, 8 * |ip|) && nodes[[]] == this
      ensures allowed <==> Walk(States(nodes), Nibbles(ip), 0, Deny) == Allow
    {
      ghost var x, states := Nibbles(ip), States(nodes);
      var node, k, verdict := this, 0, if state != AsParent then state else Deny;
      assert x[..0] == [];
      while node.extended.Some?
        invariant 0 <= k <= |x| && x[..k] in nodes && node == nodes[x[..k]]
        invariant node.state == AsParent || node.state == verdict
        invariant Walk(states, x, k, verdict) == Walk(states, x, 0, Deny)
        decreases |x| - k
      {
        ChildStep(nodes, ip, k);
        node := node.extended.value[GetSubnet(ip, 4 * k)];
        k := k + 1;
        if node.state != AsParent {
          verdict := node.state;
        }
      }
      NothingBelow(nodes, x, k, verdict, 8 * |ip|);
      allowed := verdict == Allow;
    }

    /** `is_any_allowed`: some leaf below this node resolves to allow. */
    function AnyAllowed(parent: State, ghost nodes: Nodes, ghost depth: nat): bool
      requires Tree(nodes, depth) && path in nodes && nodes[path] == this
      reads this, nodes.Values
      decreases depth - |path|
    {
      assert Linked(nodes, path);
      var s := if state != AsParent then state else parent;
      match extended
      case None => s == Allow
      case Some(kids) =>
        exists i :: 0 <= i < 16 &&
          assert Linked(nodes, path + [i]); kids[i].AnyAllowed(s, nodes, depth)
    }
  }

  /** The state a walk down `x` ends with, from level `k` on and arriving there with `s`. */
  ghost function Walk(states: map<Path, State>, x: Path, k: nat, s: State): State
    requires k <= |x|
    decreases |x| - k
  {
    var here := if At(states, x[..k]) != AsParent then At(states, x[..k]) else s;
    if k == |x| then here else Walk(states, x, k + 1, here)
  }

  /** An open node on the path of `ip` is not at the last level, and its child is the next node on the path. */
  lemma ChildStep(nodes: Nodes, ip: Words, k: nat)
    requires Tree(nodes, 8 * |ip|) && k <= 8 * |ip|
    requires Nibbles(ip)[..k] in nodes && nodes[Nibbles(ip)[..k]].extended.Some?
    ensures k < 8 * |ip| && 4 * k / 32 < |ip| && 4 * k % 4 == 0
    ensures |nodes[Nibbles(ip)[..k]].extended.value| == 16
    ensures Nibbles(ip)[..k + 1] in nodes
    ensures nodes[Nibbles(ip)[..k + 1]] == nodes[Nibbles(ip)[..k]].extended.value[GetSubnet(ip, 4 * k)]
  {
    assert Linked(nodes, Nibbles(ip)[..k]);
    PathStep(ip, k);
  }

  /** Below a node without children the walk finds nothing more. */
  lemma NothingBelow(nodes: Nodes, x: Path, k: nat, s: State, depth: nat)
    requires Tree(nodes, depth) && k <= |x|
    requires x[..k] in nodes && nodes[x[..k]].extended.None?
    requires nodes[x[..k]].state == AsParent || nodes[x[..k]].state == s
    ensures Walk(States(nodes), x, k, s) == s
  {
    var states := States(nodes);
    forall l | k < l <= |x| ensures At(states, x[..l]) == AsParent {
      NoneBelow(nodes, x, k, l, depth);
    }
    if k < |x| { WalkSilent(states, x, k + 1, s); }
  }

  lemma {:induction false} WalkSilent(states: map<Path, State>, x: Path, k: nat, s: State)
    requires k <= |x| && forall l :: k <= l <= |x| ==> At(states, x[..l]) == AsParent
    ensures Walk(states, x, k, s) == s
    decreases |x| - k
  {
    if k < |x| { WalkSilent(states, x, k + 1, s); }
  }

  lemma {:induction false} NoneBelow(nodes: Nodes, x: Path, k: nat, l: nat, depth: nat)
    requires Tree(nodes, depth) && k < l <= |x|
    requires x[..k] in nodes && nodes[x[..k]].extended.None?
    ensures x[..l] !in nodes
    decreases l
  {
    assert Parent(x[..l]) == x[..l - 1];
    if l > k + 1 { NoneBelow(nodes, x, k, l - 1, depth); }
    assert x[..l] in nodes ==> Linked(nodes, x[..l]);
  }

  ghost function Children(p: Path, kids: seq<TableNode>): (m: Nodes)
    requires |kids| == 16
    ensures forall i :: 0 <= i < 16 ==> p + [i] in m && m[p + [i]] == kids[i]
    ensures forall q :: q in m ==> |q| == |p| + 1 && Parent(q) == p && Last(q) < 16
  {
    map q | q in set i | 0 <= i < 16 :: p + [i] :: kids[Last(q)]
  }

  // ---- The trie says about every address what the history says.

  /** Level by level, the explicit state on the path of `x` is the layer of the history. */
  ghost predicate Tells(states: map<Path, State>, h: seq<Rule>, v6: bool) {
    forall x: Words, l: nat {:trigger Layer(h, v6, x, l)} ::
      |x| == WordCount(v6) && l <= Depth(v6) ==> At(states, Nibbles(x)[..l]) == Layer(h, v6, x, l)
  }

  lemma RuleTells(after: map<Path, State>, before: map<Path, State>, h: seq<Rule>, r: Rule, v6: bool)
    requires WellFormed(r) && Applies(r, v6) && Tells(before, h, v6)
    requires RuleSet(after, before, Target(r, v6), r.bits, r.state, r.all)
    ensures Tells(after, h + [r], v6)
  {
    forall x: Words, l: nat | |x| == WordCount(v6) && l <= Depth(v6)
      ensures At(after, Nibbles(x)[..l]) == Layer(h + [r], v6, x, l)
    {
      LayerStep(h, r, v6, x, l);
      CoversIsMatch(Target(r, v6), r.bits, x);
      var p, n := Nibbles(x)[..l], Level(r.bits);
      assert At(before, p) == Layer(h, v6, x, l);
      if n < l { assert p[..n] == Nibbles(x)[..n]; }
    }
  }

  lemma LayerStep(h: seq<Rule>, r: Rule, v6: bool, x: Words, l: nat)
    ensures Layer(h + [r], v6, x, l) ==
            if !Hits(r, v6, x) then Layer(h, v6, x, l)
            else if Level(r.bits) == l then r.state
            else if r.all && Level(r.bits) < l then AsParent
            else Layer(h, v6, x, l)
  {
    assert (h + [r])[..|h|] == h;
  }

  /** A rule that does not apply to a family changes nothing there. */
  lemma SkippedTells(states: map<Path, State>, h: seq<Rule>, r: Rule, v6: bool)
    requires Tells(states, h, v6) && !Applies(r, v6)
    ensures Tells(states, h + [r], v6)
  {
    forall x: Words, l: nat | |x| == WordCount(v6) && l <= Depth(v6)
      ensures At(states, Nibbles(x)[..l]) == Layer(h + [r], v6, x, l)
    {
      LayerStep(h, r, v6, x, l);
      assert At(states, Nibbles(x)[..l]) == Layer(h, v6, x, l);
    }
  }

  /** The deepest explicit state on `x`, at or above level `l`. */
  ghost function Deepest(states: map<Path, State>, x: Path, l: nat, s: State): State
    requires l <= |x|
  {
    var here := At(states, x[..l]);
    if here != AsParent then here else if l == 0 then s else Deepest(states, x, l - 1, s)
  }

  /** Walking down and remembering the last explicit state finds the deepest one. */
  lemma {:induction false} WalkIsDeepest(states: map<Path, State>, x: Path, k: nat, s: State)
    requires k <= |x|
    ensures Walk(states, x, k, if k == 0 then s else Deepest(states, x, k - 1, s)) == Deepest(states, x, |x|, s)
    decreases |x| - k
  {
    if k < |x| { WalkIsDeepest(states, x, k + 1, s); }
  }

  lemma {:induction false} TellsReading(states: map<Path, State>, h: seq<Rule>, v6: bool, x: Words, l: nat)
    requires Tells(states, h, v6) && |x| == WordCount(v6) && l <= Depth(v6)
    ensures Deepest(states, Nibbles(x), l, Deny) == Reading(h, v6, x, l)
  {
    assert At(states, Nibbles(x)[..l]) == Layer(h, v6, x, l);
    if l > 0 { TellsReading(states, h, v6, x, l - 1); }
  }

  /** The trie's verdict on an address is the reading of the history. */
  lemma VerdictIsReading(states: map<Path, State>, h: seq<Rule>, v6: bool, x: Words)
    requires Tells(states, h, v6) && |x| == WordCount(v6)
    ensures Walk(states, Nibbles(x), 0, Deny) == Reading(h, v6, x, Depth(v6))
  {
    WalkIsDeepest(states, Nibbles(x), 0, Deny);
    TellsReading(states, h, v6, x, Depth(v6));
  }

  // ---- Some address is allowed exactly when some leaf is.

  /** Below `node`, arriving with `parent`, some full path ends with allow. */
  ghost predicate SomeAllowed(states: map<Path, State>, q: Path, parent: State, depth: nat) {
    exists x: Path :: IsAddressPath(x, depth) && |q| <= depth && x[..|q|] == q && Walk(states, x, |q|, parent) == Allow
  }

  lemma {:induction false} AnyAllowedMeaning(node: TableNode, parent: State, nodes: Nodes, depth: nat)
    requires Tree(nodes, depth) && node.path in nodes && nodes[node.path] == node && IsNibbles(node.path)
    ensures node.AnyAllowed(parent, nodes, depth) <==> SomeAllowed(States(nodes), node.path, parent, depth)
    decreases depth - |node.path|
  {
    var q, states := node.path, States(nodes);
    assert Linked(nodes, q);
    var s := if node.state != AsParent then node.state else parent;
    if node.extended.None? {
      var x := q + seq(depth - |q|, _ => 0);
      assert IsAddressPath(x, depth) && x[..|q|] == q;
      forall y: Path | IsAddressPath(y, depth) && y[..|q|] == q ensures Walk(states, y, |q|, parent) == s {
        LeafWalk(nodes, y, |q|, parent, depth);
      }
    } else {
      var kids := node.extended.value;
      forall i | 0 <= i < 16
        ensures kids[i].path == q + [i] && q + [i] in nodes && nodes[q + [i]] == kids[i]
        ensures kids[i].AnyAllowed(s, nodes, depth) <==> SomeAllowed(states, q + [i], s, depth)
      {
        assert Linked(nodes, q + [i]);
        AnyAllowedMeaning(kids[i], s, nodes, depth);
      }
      SomeAllowedBelow(states, q, parent, depth);
    }
  }

  ghost predicate IsNibbles(p: Path) { forall i :: 0 <= i < |p| ==> p[i] < 16 }

  lemma LeafWalk(nodes: Nodes, y: Path, k: nat, parent: State, depth: nat)
    requires Tree(nodes, depth) && k <= |y| && y[..k] in nodes && nodes[y[..k]].extended.None?
    ensures var s := if nodes[y[..k]].state != AsParent then nodes[y[..k]].state else parent;
            Walk(States(nodes), y, k, parent) == s
  {
    var s := if nodes[y[..k]].state != AsParent then nodes[y[..k]].state else parent;
    NothingBelow(nodes, y, k, s, depth);
  }

  lemma SomeAllowedBelow(states: map<Path, State>, q: Path, parent: State, depth: nat)
    requires |q| < depth
    ensures var s := if At(states, q) != AsParent then At(states, q) else parent;
            SomeAllowed(states, q, parent, depth) <==> exists i :: 0 <= i < 16 && SomeAllowed(states, q + [i], s, depth)
  {
    var s := if At(states, q) != AsParent then At(states, q) else parent;
    if SomeAllowed(states, q, parent, depth) {
      var x: Path :| IsAddressPath(x, depth) && x[..|q|] == q && Walk(states, x, |q|, parent) == Allow;
      assert x[..|q| + 1] == q + [x[|q|]];
      assert SomeAllowed(states, q + [x[|q|]], s, depth);
    }
    if i :| 0 <= i < 16 && SomeAllowed(states, q + [i], s, depth) {
      var x: Path :| IsAddressPath(x, depth) && x[..|q| + 1] == q + [i] && Walk(states, x, |q| + 1, s) == Allow;
      assert x[..|q|] == x[..|q| + 1][..|q|];
      assert (q + [i])[..|q|] == q;
      assert Walk(states, x, |q|, parent) == Walk(states, x, |q| + 1, s);
    }
  }
}
