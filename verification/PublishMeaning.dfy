/**
 * What a publication comes to, said by the stored columns alone: who may publish which record, what stands in the way,
 * and which rows change.
 */
module PublishMeaning {
  import opened PyText
  import opened ScopedKeys
  import opened RegistryStore
  import opened RegistryLaws
  import opened PublishGraph
  import opened RegistryRuns

  /**
   * One record names the other: an excerpt its source and question, a claim its question and excerpts, a report its
   * question and claims.
   */
  predicate Names(rows: Rows, a: Ref, b: Ref) {
    && a in rows
    && match rows[a].body
       case Excerpt(question, source, _, _) => b == Ref(Questions, question) || b == Ref(Sources, source)
       case Claim(question, _, _, excerpts) =>
         b == Ref(Questions, question) || (b.table == Excerpts && b.id in excerpts)
       case Report(question, _, _, claims) => b == Ref(Questions, question) || (b.table == Claims && b.id in claims)
       case _ => false
  }

  /** Each record of the chain names the next. */
  predicate IsChain(rows: Rows, chain: seq<Ref>) {
    chain != [] && forall i :: 0 <= i < |chain| - 1 ==> Names(rows, chain[i], chain[i + 1])
  }

  ghost predicate RestsOn(rows: Rows, root: Ref, x: Ref) {
    exists chain :: IsChain(rows, chain) && chain[0] == root && chain[|chain| - 1] == x
  }

  lemma NamesIsChildren(st: State, a: Ref, b: Ref)
    requires Valid(st)
    ensures b in Children(st.rows, a) <==> Names(st.rows, a, b)
  {
    if a in st.rows {
      match st.rows[a].body
      case Claim(question, _, _, excerpts) => RefsHold(Excerpts, excerpts, b);
      case Report(question, _, _, claims) => RefsHold(Claims, claims, b);
      case _ =>
    }
  }

  lemma RefsHold(table: Table, ids: seq<nat>, b: Ref)
    ensures b in Refs(table, ids) <==> b.table == table && b.id in ids
  {
    if b.table == table && b.id in ids {
      var i :| 0 <= i < |ids| && ids[i] == b.id;
      assert Refs(table, ids)[i] == b;
    }
  }

  lemma ChainIsPath(st: State, chain: seq<Ref>)
    requires Valid(st)
    ensures IsChain(st.rows, chain) <==> Path(st.rows, chain)
  {
    hide Valid, Names, Children;
    forall i | 0 <= i < |chain| - 1
      ensures Names(st.rows, chain[i], chain[i + 1]) <==> chain[i + 1] in Children(st.rows, chain[i])
    {
      NamesIsChildren(st, chain[i], chain[i + 1]);
    }
  }

  lemma RestsOnIsReach(st: State, root: Ref, x: Ref)
    requires Valid(st)
    ensures RestsOn(st.rows, root, x) <==> x in Reach(st.rows, root)
  {
    hide Valid, Names, Children, Reach;
    ReachIsReachability(st.rows, root, x);
    forall chain: seq<Ref> ensures IsChain(st.rows, chain) <==> Path(st.rows, chain) {
      ChainIsPath(st, chain);
    }
    if RestsOn(st.rows, root, x) {
      var chain :| IsChain(st.rows, chain) && chain[0] == root && chain[|chain| - 1] == x;
      assert Path(st.rows, chain);
    }
  }

  /** A local caller may publish anything, an admin what lies in the namespace named, others what lies in their own. */
  predicate MayPublish(rows: Rows, p: PublishRequest, auth: Option<Auth>) {
    && p.root in rows
    && match auth
       case None => true
       case Some(caller) =>
         if caller.isAdmin then p.ns == Some(rows[p.root].ns)
         else Publish in caller.scopes && caller.ns == rows[p.root].ns
  }

  /** What a publication may not rest on: a record of the native deposit, or a source that lacks its snapshot. */
  predicate Blocks(rows: Rows, native: set<Ref>, x: Ref) {
    || x in native
    || (x in rows && rows[x].body.Source? && rows[x].body.snapshotRequired && !rows[x].body.snapshotPresent)
  }

  /** The root, and in a cascade all it rests on, become public and indexed as asked; nothing else changes. */
  ghost predicate Published(rows: Rows, p: PublishRequest, next: Rows)
    requires p.root in rows
  {
    && next.Keys == rows.Keys
    && forall r :: r in rows ==>
         if r == p.root || (p.cascade && RestsOn(rows, p.root, r)) then
           && rows[r].ns == rows[p.root].ns
           && next[r] == rows[r].(vis := Public, index := if p.includeInGlobalIndex then Included else NamespaceOnly)
         else next[r] == rows[r]
  }

  lemma NamespaceIsTheRoots(st: State, p: PublishRequest, auth: Option<Auth>)
    requires Valid(st) && p.root in st.rows
    ensures (PublishNamespace(st.rows, p, auth).Ok?
             && !exists n :: n in Reach(st.rows, p.root)
                             && !InNamespace(st.rows, n, PublishNamespace(st.rows, p, auth).value))
       <==> match auth
            case None => true
            case Some(caller) =>
              if caller.isAdmin then p.ns == Some(st.rows[p.root].ns) else caller.ns == st.rows[p.root].ns
  {
    hide Reach, Valid;
    if PublishNamespace(st.rows, p, auth).Ok? {
      NamespaceCheckIsTheRoots(st, p.root, PublishNamespace(st.rows, p, auth).value);
    }
  }

  lemma ReachBlocks(st: State, root: Ref, native: set<Ref>)
    requires Valid(st)
    ensures (Reach(st.rows, root) !! native
             && !exists n :: n in Reach(st.rows, root) && n in st.rows && LacksSnapshot(st.rows[n].body))
       <==> !exists x :: RestsOn(st.rows, root, x) && Blocks(st.rows, native, x)
  {
    hide Reach, Valid, RestsOn;
    forall x: Ref ensures RestsOn(st.rows, root, x) <==> x in Reach(st.rows, root) {
      RestsOnIsReach(st, root, x);
    }
    var graph := Reach(st.rows, root);
    if x :| RestsOn(st.rows, root, x) && Blocks(st.rows, native, x) {
      assert x in graph;
    }
    if x :| x in graph && x in native {
      assert RestsOn(st.rows, root, x) && Blocks(st.rows, native, x);
    }
    if n :| n in graph && n in st.rows && LacksSnapshot(st.rows[n].body) {
      assert RestsOn(st.rows, root, n) && Blocks(st.rows, native, n);
    }
  }

  /** A publication succeeds exactly if its caller may make it and nothing it rests on stands in the way. */
  lemma PublicationSucceedsIff(st: State, p: PublishRequest, auth: Option<Auth>, native: set<Ref>)
    requires Valid(st)
    ensures PublishRows(st.rows, p, auth, native).Ok? <==>
              MayPublish(st.rows, p, auth) && !exists x :: RestsOn(st.rows, p.root, x) && Blocks(st.rows, native, x)
  {
    hide Reach, Valid, RestsOn, Mark, PublishNamespace, LacksSnapshot, Blocks, InNamespace;
    if p.root in st.rows {
      NamespaceIsTheRoots(st, p, auth);
      ReachBlocks(st, p.root, native);
    }
  }

  lemma MarkedRows(rows: Rows, graph: set<Ref>, index: IndexState)
    ensures var next := Mark(rows, graph, index);
            && next.Keys == rows.Keys
            && forall r :: r in rows ==>
                 next[r] == if r in graph then rows[r].(vis := Public, index := index) else rows[r]
  {
  }

  lemma PublishedRows(st: State, p: PublishRequest, auth: Option<Auth>, native: set<Ref>)
    requires PublishRows(st.rows, p, auth, native).Ok?
    ensures p.root in st.rows
    ensures PublishRows(st.rows, p, auth, native).value
         == Mark(st.rows, if p.cascade then Reach(st.rows, p.root) else {p.root},
                 if p.includeInGlobalIndex then Included else NamespaceOnly)
  {
    hide Reach, Mark;
  }

  /** A publication that succeeds changes exactly the rows it should, all in the root's namespace, and as it should. */
  lemma PublicationChanges(st: State, p: PublishRequest, auth: Option<Auth>, native: set<Ref>)
    requires Valid(st) && PublishRows(st.rows, p, auth, native).Ok?
    ensures p.root in st.rows && Published(st.rows, p, PublishRows(st.rows, p, auth, native).value)
  {
    hide Reach, Valid, RestsOn, PublishRows, Mark;
    PublishedRows(st, p, auth, native);
    MarkedRows(st.rows, if p.cascade then Reach(st.rows, p.root) else {p.root},
               if p.includeInGlobalIndex then Included else NamespaceOnly);
    RootIsReached(st.rows, p.root);
    forall r: Ref
      ensures RestsOn(st.rows, p.root, r) <==> r in Reach(st.rows, p.root)
      ensures r in Reach(st.rows, p.root) ==> r in st.rows && st.rows[r].ns == st.rows[p.root].ns
    {
      RestsOnIsReach(st, p.root, r);
      if r in Reach(st.rows, p.root) {
        GraphStaysHome(st, p.root, r);
      }
    }
  }
}
