/** Which Redis accepts writes: counting distinct writable masters among probed nodes. */
module Oracle {
  import opened Text
  import opened Endpoint
  import opened NameBook

  datatype Role = Master | Slave | OtherRole(name: string)

  /** The outcome of probing one Redis node. */
  datatype NodeResult = NodeResult(addr: string, role: Role, writable: bool, runId: string, err: bool)

  predicate IsWritableMaster(n: NodeResult) { !n.err && n.role.Master? && n.writable }

  /** A node is known by its run id when that was read, and by its address otherwise. */
  function IdentityKey(names: Names, n: NodeResult): string {
    if n.runId != "" then "run:" + n.runId else names.identity(n.addr)
  }

  /** The identities of the distinct writable masters. */
  function WritableKeys(names: Names, nodes: seq<NodeResult>): set<string> {
    set n | n in nodes && IsWritableMaster(n) :: IdentityKey(names, n)
  }

  function FirstWritable(nodes: seq<NodeResult>): (r: Option<NodeResult>)
    ensures r.Some? ==> r.value in nodes && IsWritableMaster(r.value)
    ensures r.None? ==> forall n | n in nodes :: !IsWritableMaster(n)
  {
    if nodes == [] then None
    else if IsWritableMaster(nodes[0]) then Some(nodes[0])
    else FirstWritable(nodes[1..])
  }

  lemma {:induction false} FirstOfMore(nodes: seq<NodeResult>, n: NodeResult)
    ensures FirstWritable(nodes + [n])
         == if FirstWritable(nodes).Some? then FirstWritable(nodes) else if IsWritableMaster(n) then Some(n) else None
  {
    if nodes == [] {
      assert nodes + [n] == [n];
    } else {
      FirstOfMore(nodes[1..], n);
      assert (nodes + [n])[1..] == nodes[1..] + [n];
    }
  }

  lemma OneMoreNode(names: Names, nodes: seq<NodeResult>, i: nat)
    requires i < |nodes|
    ensures WritableKeys(names, nodes[..i + 1])
         == WritableKeys(names, nodes[..i]) + if IsWritableMaster(nodes[i]) then {IdentityKey(names, nodes[i])} else {}
    ensures FirstWritable(nodes[..i + 1])
         == if FirstWritable(nodes[..i]).None? && IsWritableMaster(nodes[i]) then Some(nodes[i])
            else FirstWritable(nodes[..i])
  {
    assert nodes[..i + 1] == nodes[..i] + [nodes[i]];
    FirstOfMore(nodes[..i], nodes[i]);
  }

  /** One pass over the nodes with a set of identities seen so far. */
  method ClassifyWritable(names: Names, nodes: seq<NodeResult>) returns (writable: Option<NodeResult>, count: nat)
    ensures count == |WritableKeys(names, nodes)|
    ensures writable == FirstWritable(nodes)
  {
    var seen: set<string> := {};
    count, writable := 0, None;
    for i := 0 to |nodes|
      invariant seen == WritableKeys(names, nodes[..i]) && count == |seen|
      invariant writable == FirstWritable(nodes[..i])
    {
      var n := nodes[i];
      OneMoreNode(names, nodes, i);
      if !IsWritableMaster(n) { continue; }
      var key := IdentityKey(names, n);
      if key in seen { continue; }
      seen := seen + {key};
      count := count + 1;
      if writable.None? { writable := Some(n); }
    }
    assert nodes[..|nodes|] == nodes;
  }

  /** Which nodes count as one Redis: by run id where both were read, by address where neither was. */
  lemma IdentityMeans(names: Names, m: NodeResult, n: NodeResult)
    ensures m.runId != "" && n.runId != "" ==> (IdentityKey(names, m) == IdentityKey(names, n) <==> m.runId == n.runId)
    ensures m.runId == "" && n.runId == "" ==>
              (IdentityKey(names, m) == IdentityKey(names, n) <==> names.identity(m.addr) == names.identity(n.addr))
  {
    assert m.runId != "" ==> IdentityKey(names, m)[4..] == m.runId;
    assert n.runId != "" ==> IdentityKey(names, n)[4..] == n.runId;
  }

  /** Nodes count that answered, are masters and took a write; the first of them is the one reported. */
  lemma WritableMeans(names: Names, nodes: seq<NodeResult>)
    ensures WritableKeys(names, nodes) != {} <==> exists n | n in nodes :: !n.err && n.role.Master? && n.writable
    ensures FirstWritable(nodes).Some? <==> exists n | n in nodes :: !n.err && n.role.Master? && n.writable
    ensures forall k :: k in WritableKeys(names, nodes) <==>
              exists n | n in nodes :: !n.err && n.role.Master? && n.writable && IdentityKey(names, n) == k
  {
    if n :| n in nodes && !n.err && n.role.Master? && n.writable {
      assert IdentityKey(names, n) in WritableKeys(names, nodes);
    }
  }

  /** The node reported is the first that counts. */
  lemma {:induction false} FirstIsReported(nodes: seq<NodeResult>, i: nat)
    requires i < |nodes| && !nodes[i].err && nodes[i].role.Master? && nodes[i].writable
    requires forall j | 0 <= j < i :: nodes[j].err || !nodes[j].role.Master? || !nodes[j].writable
    ensures FirstWritable(nodes) == Some(nodes[i])
  {
    if i > 0 { FirstIsReported(nodes[1..], i - 1); }
  }

  lemma SubsetCardinality<T>(a: set<T>, b: set<T>)
    requires a <= b
    ensures |a| <= |b| && (|a| == |b| ==> a == b)
  {
    assert b == a + (b - a);
  }

  /** Probing more nodes never lowers the number of distinct writable masters. */
  lemma MoreNodesMoreWritables(names: Names, few: seq<NodeResult>, many: seq<NodeResult>)
    requires forall n :: n in few ==> n in many
    ensures |WritableKeys(names, few)| <= |WritableKeys(names, many)|
    ensures |WritableKeys(names, few)| == |WritableKeys(names, many)| ==>
              WritableKeys(names, few) == WritableKeys(names, many)
  {
    SubsetCardinality(WritableKeys(names, few), WritableKeys(names, many));
  }

  lemma SingletonMember<T>(s: set<T>, a: T, b: T)
    requires |s| == 1 && a in s && b in s
    ensures a == b
  {
    if a != b { SubsetCardinality({a, b}, s); }
  }

  /** Nodes counted as one Redis are one endpoint. */
  ghost predicate IdentityIsEndpoint(names: Names, nodes: seq<NodeResult>) {
    forall m, n | m in nodes && n in nodes && IsWritableMaster(m) && IsWritableMaster(n)
      :: IdentityKey(names, m) == IdentityKey(names, n) ==> names.same(m.addr, n.addr)
  }

  /** Nodes known by address, whose first answer is the preferred one, are counted as one Redis only where they
      are one endpoint. */
  lemma AddressIdentityIsEndpoint(dns: Resolver, nodes: seq<NodeResult>)
    requires forall n | n in nodes && IsWritableMaster(n) ::
               n.runId == "" && AddressIdentity(dns, n.addr) == ResolvedKey(dns, n.addr)
    ensures IdentityIsEndpoint(NamesOf(dns), nodes)
  {
    forall m, n | m in nodes && n in nodes && IsWritableMaster(m) && IsWritableMaster(n)
                  && IdentityKey(NamesOf(dns), m) == IdentityKey(NamesOf(dns), n)
      ensures SameRedisEndpoint(dns, m.addr, n.addr)
    {
      EqualKeysAreSame(dns, m.addr, n.addr);
    }
  }

  /** The count and the identity of the writable master do not depend on the order in which the nodes
      were probed; nor, where identity is endpoint, does the endpoint. */
  lemma OracleIgnoresOrder(names: Names, xs: seq<NodeResult>, ys: seq<NodeResult>)
    requires forall n :: n in xs <==> n in ys
    ensures WritableKeys(names, xs) == WritableKeys(names, ys)
    ensures FirstWritable(xs).Some? <==> FirstWritable(ys).Some?
    ensures |WritableKeys(names, xs)| == 1 ==>
              && FirstWritable(xs).Some?
              && var m, n := FirstWritable(xs).value, FirstWritable(ys).value;
                 && IdentityKey(names, m) == IdentityKey(names, n)
                 && (IdentityIsEndpoint(names, xs) ==> names.same(m.addr, n.addr))
  {
    assert WritableKeys(names, xs) == WritableKeys(names, ys);
    if |WritableKeys(names, xs)| == 1 {
      var k :| k in WritableKeys(names, xs);
      var m, n := FirstWritable(xs).value, FirstWritable(ys).value;
      SingletonMember(WritableKeys(names, xs), IdentityKey(names, m), IdentityKey(names, n));
    }
  }
}
