/** `AuthTable`: one trie per address family, driven by allow and deny rules. */
module AuthTables {
  import opened Common
  import opened AddressRules
  import opened AddressFilter

  class AuthTable {
    var base4: TableNode
    var base6: TableNode
    ghost var nodes4: Nodes
    ghost var nodes6: Nodes
    /** Every rule given so far, accepted or not. */
    ghost var history: seq<Rule>

    ghost predicate Valid()
      reads this, nodes4.Values, nodes6.Values
    {
      nodes4.Values !! nodes6.Values && Serves(nodes4, base4, history, false) && Serves(nodes6, base6, history, true)
    }

    /** `ADF_CreateTable`: everything is denied. */
    constructor ()
      ensures Valid() && history == []
      ensures fresh(nodes4.Values) && fresh(nodes6.Values)
    {
      base4 := new TableNode([], Deny);
      base6 := new TableNode([], Deny);
      history := [];
      new;
      nodes4, nodes6 := map[[] := base4], map[[] := base6];
      NewTree(nodes4, Depth(false));
      NewTree(nodes6, Depth(true));
      EmptyTells(States(nodes4), false);
      EmptyTells(States(nodes6), true);
    }

    /** Write a rule into the IPv4 trie. */
    method Write4(r: Rule) returns (ok: bool)
      requires Valid() && WellFormed(r) && !r.subnet.V6? && (r.subnet.Unspec? ==> r.bits == 0)
      modifies this`nodes4, nodes4.Values
      ensures ok <==> Applies(r, false)
      ensures nodes4.Values !! nodes6.Values
      ensures Serves(nodes4, base4, history + [r], false) && Serves(nodes6, base6, history, true)
      ensures forall n :: n in nodes4.Values ==> n in old(nodes4.Values) || fresh(n)
    {
      var ip := if r.subnet.V4? then r.subnet.ip else [0];
      ghost var after;
      ok, after := WriteRule(base4, nodes4, ip, r, history, false);
      nodes4 := after;
    }

    /** Write a rule into the IPv6 trie. */
    method Write6(r: Rule) returns (ok: bool)
      requires nodes4.Values !! nodes6.Values && Serves(nodes6, base6, history, true)
      requires WellFormed(r) && !r.subnet.V4? && (r.subnet.Unspec? ==> r.bits == 0)
      modifies this`nodes6, nodes6.Values
      ensures ok <==> Applies(r, true)
      ensures nodes4.Values !! nodes6.Values
      ensures Serves(nodes6, base6, history + [r], true)
      ensures forall n :: n in nodes6.Values ==> n in old(nodes6.Values) || fresh(n)
    {
      var ip := if r.subnet.V6? then r.subnet.ip else [0, 0, 0, 0];
      ghost var after;
      ok, after := WriteRule(base6, nodes6, ip, r, history, true);
      nodes6 := after;
    }

    /** `set_subnet_`: write the rule into the tries it applies to; a rejected rule changes nothing. */
    method SetSubnet(subnet: Subnet, bits: int, state: State, all: bool) returns (ok: bool)
      requires Valid() && WellFormed(Rule(subnet, bits, state, all))
      modifies this, nodes4.Values, nodes6.Values
      ensures Valid() && history == old(history) + [Rule(subnet, bits, state, all)]
      ensures ok <==> Accepted(Rule(subnet, bits, state, all))
      ensures forall n :: n in nodes4.Values ==> n in old(nodes4.Values) || fresh(n)
      ensures forall n :: n in nodes6.Values ==> n in old(nodes6.Values) || fresh(n)
    {
      var r := Rule(subnet, bits, state, all);
      match subnet {
        case V4(_) => ok := WriteV4Only(r);
        case V6(_) => ok := WriteV6Only(r);
        case Unspec => ok := WriteBoth(r);
      }
      history := history + [r];
    }

    method WriteV4Only(r: Rule) returns (ok: bool)
      requires Valid() && WellFormed(r) && r.subnet.V4?
      modifies this`nodes4, nodes4.Values
      ensures ok <==> Accepted(r)
      ensures nodes4.Values !! nodes6.Values
      ensures Serves(nodes4, base4, history + [r], false) && Serves(nodes6, base6, history + [r], true)
      ensures forall n :: n in nodes4.Values ==> n in old(nodes4.Values) || fresh(n)
    {
      ok := Write4(r);
      SkippedTells(States(nodes6), history, r, true);
    }

    method WriteV6Only(r: Rule) returns (ok: bool)
      requires Valid() && WellFormed(r) && r.subnet.V6?
      modifies this`nodes6, nodes6.Values
      ensures ok <==> Accepted(r)
      ensures nodes4.Values !! nodes6.Values
      ensures Serves(nodes4, base4, history + [r], false) && Serves(nodes6, base6, history + [r], true)
      ensures forall n :: n in nodes6.Values ==> n in old(nodes6.Values) || fresh(n)
    {
      SkippedTells(States(nodes4), history, r, false);
      ok := Write6(r);
    }

    /** A rule for both families: only a zero width is accepted. */
    method WriteBoth(r: Rule) returns (ok: bool)
      requires Valid() && WellFormed(r) && r.subnet.Unspec?
      modifies this`nodes4, this`nodes6, nodes4.Values, nodes6.Values
      ensures ok <==> Accepted(r)
      ensures nodes4.Values !! nodes6.Values
      ensures Serves(nodes4, base4, history + [r], false) && Serves(nodes6, base6, history + [r], true)
      ensures forall n :: n in nodes4.Values ==> n in old(nodes4.Values) || fresh(n)
      ensures forall n :: n in nodes6.Values ==> n in old(nodes6.Values) || fresh(n)
    {
      if r.bits != 0 {
        SkippedTells(States(nodes4), history, r, false);
        SkippedTells(States(nodes6), history, r, true);
        return false;
      }
      var ok4 := Write4(r);
      var ok6 := Write6(r);
      return ok4 && ok6;
    }

    /** `ADF_IsAllowed`: the verdict on an address is the reading of all the rules given so far. */
    method IsAllowed(v6: bool, ip: Words) returns (allowed: bool)
      requires Valid() && |ip| == WordCount(v6)
      ensures allowed <==> Reading(history, v6, ip, Depth(v6)) == Allow
    {
      if v6 {
        allowed := base6.CheckIp(ip, nodes6);
        VerdictIsReading(States(nodes6), history, v6, ip);
      } else {
        allowed := base4.CheckIp(ip, nodes4);
        VerdictIsReading(States(nodes4), history, v6, ip);
      }
    }

    /** `ADF_IsAnyAllowed`: some address of the family is allowed. */
    method IsAnyAllowed(v6: bool) returns (any: bool)
      requires Valid()
      ensures any <==> exists ip: Words :: |ip| == WordCount(v6) && Reading(history, v6, ip, Depth(v6)) == Allow
    {
      if v6 {
        assert Linked(nodes6, []);
        any := base6.AnyAllowed(AsParent, nodes6, Depth(true));
        SomeAddressAllowed(nodes6, base6, history, v6);
      } else {
        assert Linked(nodes4, []);
        any := base4.AnyAllowed(AsParent, nodes4, Depth(false));
        SomeAddressAllowed(nodes4, base4, history, v6);
      }
    }

    /** Any run of rules. */
    method Replay(rules: seq<Rule>)
      requires Valid() && forall r :: r in rules ==> WellFormed(r)
      modifies this, nodes4.Values, nodes6.Values
      ensures Valid() && history == old(history) + rules
    {
      for i := 0 to |rules|
        invariant Valid() && history == old(history) + rules[..i]
        invariant forall n :: n in nodes4.Values ==> n in old(nodes4.Values) || fresh(n)
        invariant forall n :: n in nodes6.Values ==> n in old(nodes6.Values) || fresh(n)
      {
        var r := rules[i];
        var _ := SetSubnet(r.subnet, r.bits, r.state, r.all);
        assert rules[..i + 1] == rules[..i] + [r];
      }
      assert rules[..|rules|] == rules;
    }
  }

  /** A leaf that resolves to allow is an allowed address, and the other way round. */
  lemma SomeAddressAllowed(nodes: Nodes, base: TableNode, h: seq<Rule>, v6: bool)
    requires Serves(nodes, base, h, v6)
    ensures base.path == []
    ensures base.AnyAllowed(AsParent, nodes, Depth(v6)) <==>
            exists ip: Words :: |ip| == WordCount(v6) && Reading(h, v6, ip, Depth(v6)) == Allow
  {
    assert Linked(nodes, []);
    var states := States(nodes);
    AnyAllowedMeaning(base, AsParent, nodes, Depth(v6));
    if SomeAllowed(states, [], AsParent, Depth(v6)) {
      var x: Path :| IsAddressPath(x, Depth(v6)) && x[..0] == [] && Walk(states, x, 0, AsParent) == Allow;
      var ip := AddressOf(x, WordCount(v6));
      RootWalk(states, h, v6, ip);
    }
    if ip: Words :| |ip| == WordCount(v6) && Reading(h, v6, ip, Depth(v6)) == Allow {
      RootWalk(states, h, v6, ip);
      assert IsAddressPath(Nibbles(ip), Depth(v6)) && Nibbles(ip)[..0] == [];
    }
  }

  /** The root is always explicit, so the state a walk starts with does not matter. */
  lemma RootWalk(states: map<Path, State>, h: seq<Rule>, v6: bool, ip: Words)
    requires Tells(states, h, v6) && |ip| == WordCount(v6)
    ensures Walk(states, Nibbles(ip), 0, AsParent) == Reading(h, v6, ip, Depth(v6))
  {
    VerdictIsReading(states, h, v6, ip);
    RootExplicit(h, v6, ip);
    assert At(states, Nibbles(ip)[..0]) == Layer(h, v6, ip, 0);
  }

  lemma {:induction false} RootExplicit(h: seq<Rule>, v6: bool, ip: Words)
    ensures Layer(h, v6, ip, 0) != AsParent
  {
    if h != [] { RootExplicit(h[..|h| - 1], v6, ip); }
  }

  /**
    The verdict without a trie and without levels of inheritance: the winning rule decides, and
    with no surviving rule the address is denied.
   */
  lemma VerdictIsWinner(h: seq<Rule>, v6: bool, ip: Words)
    ensures forall i: nat :: Wins(h, v6, ip, i) ==> Reading(h, v6, ip, Depth(v6)) == h[i].state
    ensures (forall i: nat :: !Survives(h, v6, ip, i)) ==> Reading(h, v6, ip, Depth(v6)) == Deny
    ensures (exists i: nat :: Survives(h, v6, ip, i)) ==> exists i: nat :: Wins(h, v6, ip, i)
  {
    forall j: nat | Survives(h, v6, ip, j) ensures Level(h[j].bits) <= Depth(v6) {
      assert Applies(h[j], v6);
    }
    ReadingIsWinner(h, v6, ip, Depth(v6));
  }

  /** Write one rule into one trie, keeping its history up to date. */
  method WriteRule(base: TableNode, ghost nodes: Nodes, ip: Words, r: Rule, ghost h: seq<Rule>, v6: bool)
    returns (ok: bool, ghost nodes': Nodes)
    requires Serves(nodes, base, h, v6) && WellFormed(r) && |ip| == WordCount(v6)
    requires match r.subnet
             case V4(a) => !v6 && ip == a
             case V6(a) => v6 && ip == a
             case Unspec => r.bits == 0 && ip == Zeros(WordCount(v6))
    modifies nodes.Values
    ensures ok <==> Applies(r, v6)
    ensures Serves(nodes', base, h + [r], v6)
    ensures forall n :: n in nodes'.Values ==> n in nodes.Values || fresh(n)
  {
    ok, nodes' := base.SetSubnet(ip, r.bits, r.state, r.all, nodes);
    forall n | n in nodes'.Values ensures n in nodes.Values || fresh(n) {
      var p :| p in nodes' && nodes'[p] == n;
      assert (p in nodes && nodes'[p] == nodes[p]) || fresh(nodes'[p]);
    }
    if ok {
      RuleTells(States(nodes'), old(States(nodes)), h, r, v6);
    } else {
      SkippedTells(States(nodes'), h, r, v6);
    }
  }

  /** The rule is accepted for at least one family. */
  predicate Accepted(r: Rule) { Applies(r, false) || Applies(r, true) }

  /** The trie answers for the history. */
  ghost predicate Serves(nodes: Nodes, base: TableNode, h: seq<Rule>, v6: bool)
    reads nodes.Values
  {
    Tree(nodes, Depth(v6)) && nodes[[]] == base && Tells(States(nodes), h, v6)
  }

  lemma NewTree(nodes: Nodes, depth: nat)
    requires nodes.Keys == {[]} && nodes[[]].path == [] && nodes[[]].extended.None?
    ensures Tree(nodes, depth)
  {
  }

  lemma EmptyTells(states: map<Path, State>, v6: bool)
    requires states == map[[] := Deny]
    ensures Tells(states, [], v6)
  {
    forall x: Words, l: nat | |x| == WordCount(v6) && l <= Depth(v6)
      ensures At(states, Nibbles(x)[..l]) == Layer([], v6, x, l)
    {
      assert Nibbles(x)[..l] == [] <==> l == 0;
    }
  }
}
