/** The graph a publication reaches (src/research_registry/service.py), and what publishing does to the tables. */
module PublishGraph {
  import opened PyText
  import opened ScopedKeys
  import opened RegistryStore

  function Refs(table: Table, ids: seq<nat>): seq<Ref> {
    seq(|ids|, i requires 0 <= i < |ids| => Ref(table, ids[i]))
  }

  /** The records a record's publication takes along. */
  function PublishRefs(body: Body): seq<Ref> {
    match body
    case Excerpt(question, source, _, _) => [Ref(Sources, source), Ref(Questions, question)]
    case Claim(question, _, _, excerpts) => [Ref(Questions, question)] + Refs(Excerpts, excerpts)
    case Report(question, _, _, claims) => [Ref(Questions, question)] + Refs(Claims, claims)
    case _ => []
  }

  function Rank(table: Table): nat {
    match table
    case Reports => 3
    case Claims => 2
    case Excerpts => 1
    case _ => 0
  }

  function Children(rows: Rows, node: Ref): (children: seq<Ref>)
    ensures forall i :: 0 <= i < |children| ==> Rank(children[i].table) < Rank(node.table)
  {
    if node in rows && TableOf(rows[node].body) == node.table then PublishRefs(rows[node].body) else []
  }

  /** All records reachable from `node`, by recursion on what each takes along. */
  ghost function Reach(rows: Rows, node: Ref): set<Ref>
    decreases Rank(node.table), 1, 0
  {
    {node} + ReachAll(rows, Children(rows, node), Rank(node.table))
  }

  ghost function ReachAll(rows: Rows, nodes: seq<Ref>, bound: nat): set<Ref>
    requires forall i :: 0 <= i < |nodes| ==> Rank(nodes[i].table) < bound
    decreases bound, 0, |nodes|
  {
    if nodes == [] then {} else Reach(rows, nodes[0]) + ReachAll(rows, nodes[1..], bound)
  }

  /** A path of links, as an account of reachability that is independent of the recursion above. */
  ghost predicate Path(rows: Rows, path: seq<Ref>) {
    path != [] && forall i :: 0 <= i < |path| - 1 ==> path[i + 1] in Children(rows, path[i])
  }

  lemma {:induction false} ReachAllIsUnion(rows: Rows, nodes: seq<Ref>, bound: nat, x: Ref)
    requires forall i :: 0 <= i < |nodes| ==> Rank(nodes[i].table) < bound
    ensures x in ReachAll(rows, nodes, bound) <==> exists n :: n in nodes && x in Reach(rows, n)
  {
    hide Reach;
    if nodes != [] {
      ReachAllIsUnion(rows, nodes[1..], bound, x);
      if x in Reach(rows, nodes[0]) {
        assert nodes[0] in nodes;
      } else if x in ReachAll(rows, nodes, bound) {
        var n :| n in nodes[1..] && x in Reach(rows, n);
        assert n in nodes;
      } else {
        assert x !in ReachAll(rows, nodes[1..], bound);
        assert forall n :: n in nodes ==> n == nodes[0] || n in nodes[1..];
      }
    }
  }

  lemma ReachUnfolds(rows: Rows, node: Ref, x: Ref)
    ensures x in Reach(rows, node) <==> x == node || exists n :: n in Children(rows, node) && x in Reach(rows, n)
  {
    ReachAllIsUnion(rows, Children(rows, node), Rank(node.table), x);
  }

  lemma {:induction false} PathToReached(rows: Rows, node: Ref, x: Ref) returns (path: seq<Ref>)
    requires x in Reach(rows, node)
    ensures Path(rows, path) && path[0] == node && path[|path| - 1] == x
    decreases Rank(node.table)
  {
    ReachUnfolds(rows, node, x);
    if x == node {
      path := [node];
    } else {
      var n :| n in Children(rows, node) && x in Reach(rows, n);
      var rest := PathToReached(rows, n, x);
      path := [node] + rest;
    }
  }

  lemma {:induction false} PathReaches(rows: Rows, path: seq<Ref>)
    requires Path(rows, path)
    ensures path[|path| - 1] in Reach(rows, path[0])
  {
    hide Reach;
    ReachUnfolds(rows, path[0], path[|path| - 1]);
    if |path| > 1 {
      PathReaches(rows, path[1..]);
    }
  }

  /** The recursive account is reachability: a record is reached exactly when a path of links leads to it. */
  lemma ReachIsReachability(rows: Rows, node: Ref, x: Ref)
    ensures x in Reach(rows, node) <==> exists path :: Path(rows, path) && path[0] == node && path[|path| - 1] == x
  {
    if x in Reach(rows, node) {
      var path := PathToReached(rows, node, x);
    }
    forall path | Path(rows, path) && path[0] == node && path[|path| - 1] == x ensures x in Reach(rows, node) {
      PathReaches(rows, path);
    }
  }

  lemma {:induction false} ReachIsClosed(rows: Rows, node: Ref, x: Ref, c: Ref)
    requires x in Reach(rows, node) && c in Children(rows, x)
    ensures c in Reach(rows, node)
    decreases Rank(node.table)
  {
    ReachUnfolds(rows, node, x);
    ReachUnfolds(rows, node, c);
    if x == node {
      ReachUnfolds(rows, c, c);
    } else {
      var n :| n in Children(rows, node) && x in Reach(rows, n);
      ReachIsClosed(rows, n, x, c);
    }
  }

  /** Any set that holds a record and everything its members take along holds all it reaches. */
  lemma {:induction false} ClosedSetHoldsReach(rows: Rows, node: Ref, graph: set<Ref>)
    requires node in graph
    requires forall n, c :: n in graph && c in Children(rows, n) ==> c in graph
    ensures Reach(rows, node) <= graph
    decreases Rank(node.table)
  {
    forall x | x in Reach(rows, node) ensures x in graph {
      ReachUnfolds(rows, node, x);
      if x != node {
        var n :| n in Children(rows, node) && x in Reach(rows, n);
        ClosedSetHoldsReach(rows, n, graph);
      }
    }
  }

  /** Links descend, so a record is not reached from the ones it takes along. */
  lemma {:induction false} ReachDescends(rows: Rows, node: Ref, x: Ref)
    requires x in Reach(rows, node)
    ensures x == node || Rank(x.table) < Rank(node.table)
    decreases Rank(node.table)
  {
    ReachUnfolds(rows, node, x);
    if x != node {
      var n :| n in Children(rows, node) && x in Reach(rows, n);
      ReachDescends(rows, n, x);
    }
  }

  // ---------------------------------------------------------------- publishing

  function Publicize(row: Row, index: IndexState): Row {
    row.(vis := Public, index := index)
  }

  /** `rows` with exactly the records of `graph` made public. */
  ghost function Mark(rows: Rows, graph: set<Ref>, index: IndexState): Rows {
    map r | r in rows :: if r in graph then Publicize(rows[r], index) else rows[r]
  }

  lemma MarkTwice(rows: Rows, a: set<Ref>, b: set<Ref>, index: IndexState)
    ensures Mark(Mark(rows, a, index), b, index) == Mark(rows, a + b, index)
  {
  }

  lemma {:induction false} MarkKeepsReach(rows: Rows, a: set<Ref>, index: IndexState, node: Ref)
    ensures Children(Mark(rows, a, index), node) == Children(rows, node)
    ensures Reach(Mark(rows, a, index), node) == Reach(rows, node)
    decreases Rank(node.table)
  {
    var marked := Mark(rows, a, index);
    forall x ensures x in Reach(marked, node) <==> x in Reach(rows, node) {
      ReachUnfolds(marked, node, x);
      ReachUnfolds(rows, node, x);
      forall n | n in Children(rows, node) { MarkKeepsReach(rows, a, index, n); }
    }
  }

  lemma MarkKeepsRows(rows: Rows, a: set<Ref>, index: IndexState)
    ensures Mark(rows, a, index).Keys == rows.Keys
  {
  }

  lemma ReachNothing(rows: Rows, bound: nat)
    ensures ReachAll(rows, [], bound) == {}
  {
  }

  lemma RootIsReached(rows: Rows, node: Ref)
    ensures node in Reach(rows, node)
  {
  }

  lemma MarkNothing(rows: Rows, index: IndexState)
    ensures Mark(rows, {}, index) == rows
  {
  }

  /** Everything reachable from `node` is a stored row of the table it is looked up in. */
  ghost predicate GraphIsStored(rows: Rows, node: Ref) {
    forall n :: n in Reach(rows, node) ==> n in rows && TableOf(rows[n].body) == n.table
  }

  lemma DescendantsAreStored(rows: Rows, node: Ref)
    requires GraphIsStored(rows, node)
    ensures node in rows && TableOf(rows[node].body) == node.table
    ensures forall c :: c in Children(rows, node) ==> c in rows && GraphIsStored(rows, c)
  {
    ReachUnfolds(rows, node, node);
    forall c, x | c in Children(rows, node) && x in Reach(rows, c) ensures x in Reach(rows, node) {
      ReachUnfolds(rows, node, x);
    }
    forall c | c in Children(rows, node) ensures c in rows {
      ReachUnfolds(rows, c, c);
    }
  }

  /** The same, row by row: the records a stored row names are stored with all they reach. */
  lemma LinksAreStored(rows: Rows, node: Ref)
    requires GraphIsStored(rows, node)
    ensures node in rows && TableOf(rows[node].body) == node.table
    ensures var body := rows[node].body;
            && (body.Excerpt? || body.Claim? || body.Report? ==> Ref(Questions, body.question) in rows)
            && (body.Excerpt? ==> Ref(Sources, body.source) in rows)
            && (body.Claim? ==> AllStored(rows, Excerpts, body.excerpts))
            && (body.Report? ==> AllStored(rows, Claims, body.claims))
  {
    DescendantsAreStored(rows, node);
    var body := rows[node].body;
    var children := Children(rows, node);
    if body.Excerpt? {
      assert children[0] in children && children[1] in children;
    } else if body.Claim? {
      assert children[0] in children;
      forall i | 0 <= i < |body.excerpts| ensures GraphIsStored(rows, Ref(Excerpts, body.excerpts[i])) {
        assert children[i + 1] == Ref(Excerpts, body.excerpts[i]);
      }
    } else if body.Report? {
      assert children[0] in children;
      forall i | 0 <= i < |body.claims| ensures GraphIsStored(rows, Ref(Claims, body.claims[i])) {
        assert children[i + 1] == Ref(Claims, body.claims[i]);
      }
    }
  }

  ghost predicate AllStored(rows: Rows, table: Table, ids: seq<nat>) {
    forall i :: 0 <= i < |ids| ==> GraphIsStored(rows, Ref(table, ids[i]))
  }

  ghost function Descendants(rows: Rows, body: Body): set<Ref> {
    if body.Excerpt? then {Ref(Sources, body.source), Ref(Questions, body.question)}
    else if body.Claim? then {Ref(Questions, body.question)} + ReachAll(rows, Refs(Excerpts, body.excerpts), 2)
    else if body.Report? then {Ref(Questions, body.question)} + ReachAll(rows, Refs(Claims, body.claims), 3)
    else {}
  }

  /** What is reached besides the root, read off the columns of its row. */
  lemma DescendantsAreTheRest(rows: Rows, node: Ref)
    requires node in rows && TableOf(rows[node].body) == node.table
    ensures Reach(rows, node) - {node} == Descendants(rows, rows[node].body)
  {
    var body := rows[node].body;
    var bound := Rank(node.table);
    if body.Excerpt? || body.Claim? || body.Report? {
      LeafReach(rows, Ref(Questions, body.question));
      var head := PublishRefs(body)[0];
      var rest := PublishRefs(body)[1..];
      assert Reach(rows, node) == {node} + (Reach(rows, head) + ReachAll(rows, rest, bound));
      if body.Excerpt? {
        LeafReach(rows, Ref(Sources, body.source));
        assert rest == [Ref(Questions, body.question)] && rest[1..] == [];
        assert ReachAll(rows, rest, bound) == Reach(rows, Ref(Questions, body.question)) + ReachAll(rows, [], bound);
      } else {
        assert rest == if body.Claim? then Refs(Excerpts, body.excerpts) else Refs(Claims, body.claims);
      }
    }
    forall x | x in ReachAll(rows, Children(rows, node), bound) ensures x != node {
      ReachAllIsUnion(rows, Children(rows, node), bound, x);
      var n :| n in Children(rows, node) && x in Reach(rows, n);
      ReachDescends(rows, n, x);
    }
  }

  lemma LeafReach(rows: Rows, node: Ref)
    requires Rank(node.table) == 0
    ensures Reach(rows, node) == {node}
  {
  }

  /** Making records public changes nothing about what is linked. */
  lemma MarkKeepsGraph(rows: Rows, a: set<Ref>, index: IndexState, table: Table, ids: seq<nat>)
    requires AllStored(rows, table, ids)
    ensures AllStored(Mark(rows, a, index), table, ids)
    ensures var bound := Rank(table) + 1;
            ReachAll(Mark(rows, a, index), Refs(table, ids), bound) == ReachAll(rows, Refs(table, ids), bound)
  {
    var marked, nodes, bound := Mark(rows, a, index), Refs(table, ids), Rank(table) + 1;
    forall n | n in nodes ensures Reach(marked, n) == Reach(rows, n) {
      MarkKeepsReach(rows, a, index, n);
    }
    forall i | 0 <= i < |ids| ensures GraphIsStored(marked, Ref(table, ids[i])) {
      assert nodes[i] in nodes && GraphIsStored(rows, nodes[i]);
    }
    forall x ensures x in ReachAll(marked, nodes, bound) <==> x in ReachAll(rows, nodes, bound) {
      ReachAllIsUnion(marked, nodes, bound, x);
      ReachAllIsUnion(rows, nodes, bound, x);
    }
  }

  lemma {:induction false} PartlyMarked(rows: Rows, a: set<Ref>, index: IndexState, node: Ref)
    requires GraphIsStored(rows, node)
    ensures node in Mark(rows, a, index) && GraphIsStored(Mark(rows, a, index), node)
    ensures Reach(Mark(rows, a, index), node) == Reach(rows, node)
  {
    MarkKeepsReach(rows, a, index, node);
    ReachUnfolds(rows, node, node);
  }

  lemma OneMore(rows: Rows, nodes: seq<Ref>, i: nat, bound: nat)
    requires i < |nodes| && forall k :: 0 <= k < |nodes| ==> Rank(nodes[k].table) < bound
    ensures ReachAll(rows, nodes[..i + 1], bound) == ReachAll(rows, nodes[..i], bound) + Reach(rows, nodes[i])
  {
    assert nodes[..i + 1] == nodes[..i] + [nodes[i]];
    forall x
      ensures x in ReachAll(rows, nodes[..i + 1], bound)
         <==> x in ReachAll(rows, nodes[..i], bound) || x in Reach(rows, nodes[i])
    {
      ReachAllIsUnion(rows, nodes[..i + 1], bound, x);
      ReachAllIsUnion(rows, nodes[..i], bound, x);
      assert forall n :: n in nodes[..i + 1] <==> n in nodes[..i] || n == nodes[i];
    }
  }

  /** The kinds of record a request can name: neither topics nor sessions are published. */
  type Publishable = r: Ref | r.table !in {Topics, Sessions} witness Ref(Sources, 0)

  datatype PublishRequest = PublishRequest(root: Publishable, cascade: bool, includeInGlobalIndex: bool,
                                           ns: Option<Namespace>)

  predicate InNamespace(rows: Rows, node: Ref, ns: Namespace) { node in rows && rows[node].ns == ns }

  predicate LacksSnapshot(body: Body) { body.Source? && body.snapshotRequired && !body.snapshotPresent }

  /** The namespace a publication is made in. */
  function PublishNamespace(rows: Rows, p: PublishRequest, auth: Option<Auth>): Result<Namespace>
    requires p.root in rows
  {
    if auth == None then Ok(rows[p.root].ns)
    else if auth.value.isAdmin then
      if p.ns.Some? then Ok(p.ns.value) else Err("admin publish requires an explicit namespace")
    else Ok(auth.value.ns)
  }

  /** `native` holds the records the native-v2 deposit tables forbid to publish. */
  ghost function PublishRows(rows: Rows, p: PublishRequest, auth: Option<Auth>, native: set<Ref>): Result<Rows> {
    if auth.Some? && !HasScope(auth.value, Publish) then Err("publish scope required")
    else if p.root !in rows then Err("record is not available for this mutation")
    else
      var ns := PublishNamespace(rows, p, auth);
      var graph := Reach(rows, p.root);
      if ns.Err? then Err(ns.message)
      else if exists n :: n in graph && !InNamespace(rows, n, ns.value) then Err(UNAVAILABLE)
      else if !(graph !! native) then Err("native v2 publication is disabled for this alpha")
      else if exists n :: n in graph && n in rows && LacksSnapshot(rows[n].body) then
        Err("linked source requires a snapshot before publishing")
      else Ok(Mark(rows, if p.cascade then graph else {p.root}, IndexFor(Public, p.includeInGlobalIndex)))
  }
}
