/** From an assignment to the per-node configs that are published, and back. */
module NodeConfigs {
  import opened Types
  import opened Ordering
  import opened SchedulerProperties
  import opened Admission

  predicate NodeBefore(a: NodeConfig, b: NodeConfig) {
    Less(a.node, b.node)
  }

  /** One config for every node that was given a service, in node order. */
  ghost predicate IsNodeConfigs(configs: seq<NodeConfig>, placed: Placement) {
    && (forall nc :: nc in configs <==> nc.node in placed && placed[nc.node] == nc.services && nc.services != [])
    && Sorted(NodeBefore, configs)
  }

  lemma {:induction false} SortedSetIsUnique(xs: seq<NodeConfig>, ys: seq<NodeConfig>)
    requires Sorted(NodeBefore, xs) && Sorted(NodeBefore, ys) && forall x :: x in xs <==> x in ys
    ensures xs == ys
  {
    if xs == [] {
      assert forall y :: y in multiset(ys) ==> y in xs;
      assert multiset(ys) == multiset{} && |multiset(ys)| == |ys|;
    } else {
      assert xs[0] in ys && (ys != [] ==> ys[0] in xs);
      SortedHeadAndTail(xs);
      SortedHeadAndTail(ys);
      LessIsTotal(xs[0].node, ys[0].node);
      SortedSetIsUnique(xs[1..], ys[1..]);
      assert xs == [xs[0]] + xs[1..] && ys == [ys[0]] + ys[1..];
    }
  }

  lemma SortedHeadAndTail(xs: seq<NodeConfig>)
    requires Sorted(NodeBefore, xs) && xs != []
    ensures Sorted(NodeBefore, xs[1..])
    ensures forall x :: x in xs[1..] <==> x in xs && x != xs[0]
    ensures forall x :: x in xs ==> x == xs[0] || Less(xs[0].node, x.node)
  {
    forall x | x in xs[1..] ensures x != xs[0] && Less(xs[0].node, x.node) {
      var i :| 0 <= i < |xs| - 1 && xs[1..][i] == x;
      assert NodeBefore(xs[0], xs[i + 1]);
      LessIsTotal(xs[0].node, x.node);
    }
  }

  /** However the assignment is ranged over, the published configs are the same. */
  lemma NodeConfigsAreUnique(a: seq<NodeConfig>, b: seq<NodeConfig>, placed: Placement)
    requires IsNodeConfigs(a, placed) && IsNodeConfigs(b, placed)
    ensures a == b
  {
    SortedSetIsUnique(a, b);
  }

  lemma DistinctNodesSort(result: seq<NodeConfig>)
    requires forall i, j :: 0 <= i < j < |result| ==> result[i].node != result[j].node
    ensures Sorted(NodeBefore, SortBy(NodeBefore, result))
    ensures forall nc :: nc in SortBy(NodeBefore, result) <==> nc in result
  {
    KeysOrderStrictly(NodeBefore, (nc: NodeConfig) => nc.node, result);
    SortSorts(NodeBefore, result);
    SameElements(result, SortBy(NodeBefore, result));
  }

  /** BuildNodeConfigs: ranges over the assignment in any order, then sorts. */
  method BuildNodeConfigs(assignment: Placement) returns (configs: seq<NodeConfig>)
    ensures IsNodeConfigs(configs, assignment)
    ensures forall i, j :: 0 <= i < j < |configs| ==> Less(configs[i].node, configs[j].node)
  {
    var result: seq<NodeConfig> := [];
    var todo := assignment.Keys;
    while todo != {}
      invariant todo <= assignment.Keys
      invariant forall nc :: nc in result <==>
                  nc.node in assignment.Keys - todo && assignment[nc.node] == nc.services && nc.services != []
      invariant forall i, j :: 0 <= i < j < |result| ==> result[i].node != result[j].node
      decreases |todo|
    {
      var id :| id in todo;
      ghost var before := result;
      if assignment[id] != [] {
        var next := NodeConfig(id, assignment[id]);
        assert forall nc :: nc in before ==> nc.node != id;
        result := result + [next];
        assert forall nc :: nc in result <==> nc in before || nc == next;
      }
      todo := todo - {id};
    }
    DistinctNodesSort(result);
    return SortBy(NodeBefore, result);
  }

  // -------------------------------------------------------------- reading it back

  function Assign(ss: seq<ServiceConfig>, node: string, m: map<string, string>): map<string, string> {
    if ss == [] then m else Assign(ss[..|ss| - 1], node, m)[ss[|ss| - 1].name := node]
  }

  function Assignment(configs: seq<NodeConfig>): map<string, string> {
    if configs == [] then map[]
    else Assign(configs[|configs| - 1].services, configs[|configs| - 1].node, Assignment(configs[..|configs| - 1]))
  }

  /** readExistingAssignment: the node of every service in the last placement. */
  method ReadExistingAssignment(configs: seq<NodeConfig>) returns (assignment: map<string, string>)
    ensures assignment == Assignment(configs)
  {
    assignment := map[];
    var ni := 0;
    while ni < |configs|
      invariant 0 <= ni <= |configs| && assignment == Assignment(configs[..ni])
    {
      var services, node := configs[ni].services, configs[ni].node;
      ghost var before := assignment;
      assert configs[..ni + 1][..ni] == configs[..ni];
      var si := 0;
      while si < |services|
        invariant 0 <= si <= |services| && assignment == Assign(services[..si], node, before)
      {
        assert services[..si + 1][..si] == services[..si];
        assignment := assignment[services[si].name := node];
        si := si + 1;
      }
      assert services[..si] == services;
      ni := ni + 1;
    }
    assert configs[..ni] == configs;
  }

  lemma {:induction false} AssignMeaning(ss: seq<ServiceConfig>, node: string, m: map<string, string>)
    ensures forall s :: s in ss ==> s.name in Assign(ss, node, m) && Assign(ss, node, m)[s.name] == node
    ensures forall name :: (forall s :: s in ss ==> s.name != name) && name in m ==>
              name in Assign(ss, node, m) && Assign(ss, node, m)[name] == m[name]
  {
    if ss != [] {
      AssignMeaning(ss[..|ss| - 1], node, m);
      assert ss == ss[..|ss| - 1] + [ss[|ss| - 1]];
    }
  }

  /** With each name placed once, reading back gives every service its node. */
  lemma {:induction false} AssignmentMeaning(configs: seq<NodeConfig>)
    requires ConfigsPlaced(configs)
    ensures forall nc, s :: nc in configs && s in nc.services ==>
              s.name in Assignment(configs) && Assignment(configs)[s.name] == nc.node
  {
    if configs != [] {
      var xs, last := configs[..|configs| - 1], configs[|configs| - 1];
      LastConfig(configs);
      AssignmentMeaning(xs);
      AssignMeaning(last.services, last.node, Assignment(xs));
      assert configs == xs + [last];
      forall nc, s | nc in configs && s in nc.services
        ensures s.name in Assignment(configs) && Assignment(configs)[s.name] == nc.node
      {
        if s !in Members(last.services) {
          assert nc in xs && s in Everyone(xs);
        }
      }
    }
  }
}
