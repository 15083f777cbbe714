/**
 * Which source a replayed excerpt rests on. The replay looks the source up by a key made from the locator alone, so an
 * annotation may end up with a source of the same locator and other content; here is exactly when it does not.
 */
module ReplaySources {
  import opened PyText
  import opened ScopedKeys
  import opened RegistryStore
  import opened RegistryLaws
  import opened Replay
  import opened ReplayLaws
  import opened ReplayLinks

  /** The locator and content hash an annotation recorded. */
  function ContentOf(b: Bundle, i: nat): NaturalKey
    requires i < |b.annotations|
  {
    var source := b.annotations[i].source;
    ByContent(source.locator, if source.hash.Some? then source.hash.value else "")
  }

  predicate Holds(b: Bundle, rows: Rows, i: nat, id: nat)
    requires i < |b.annotations|
  {
    HasNatural(rows, Sources, b.ns, ContentOf(b, i), id)
  }

  /** The source carries the key under which the annotation's source is looked up. */
  ghost predicate UnderKey(b: Bundle, rows: Rows, i: nat, id: nat)
    requires i < |b.annotations|
  {
    Keyed(b, rows, Sources, SourceKey(b.ns, b.annotations[i].source.locator), id)
  }

  predicate SameLocator(b: Bundle, i: nat, j: nat)
    requires i < |b.annotations| && j < |b.annotations|
  {
    b.annotations[i].source.locator == b.annotations[j].source.locator
  }

  ghost predicate Stores(b: Bundle, rows: Rows, i: nat)
    requires i < |b.annotations|
  {
    exists id :: Holds(b, rows, i, id)
  }

  /** The first annotation of its locator whose source the store does not hold, while the locator's key is free. */
  ghost predicate FirstNew(b: Bundle, rows: Rows, j: nat) {
    && j < |b.annotations|
    && (forall id :: !UnderKey(b, rows, j, id))
    && !Stores(b, rows, j)
    && forall i :: 0 <= i < j && SameLocator(b, i, j) ==> Stores(b, rows, i)
  }

  /**
   * What can be read off the store and the bundle before the replay: a source under the locator's key, stored already
   * or stored for the first new annotation of the locator, has the annotation's own content.
   */
  ghost predicate FindsItsOwn(b: Bundle, rows: Rows, i: nat)
    requires i < |b.annotations|
  {
    && (forall id :: UnderKey(b, rows, i, id) ==> Holds(b, rows, i, id))
    && (forall j :: 0 <= j < i && FirstNew(b, rows, j) && SameLocator(b, i, j) ==> ContentOf(b, j) == ContentOf(b, i))
  }

  // ---------------------------------------------------------------- the source step

  lemma KeyTellsLocator(b: Bundle, rows: Rows, i: nat, j: nat, id: nat)
    requires i < |b.annotations| && j < |b.annotations| && UnderKey(b, rows, i, id)
    ensures UnderKey(b, rows, j, id) <==> SameLocator(b, i, j)
  {
    hide Keyed;
    if UnderKey(b, rows, j, id) {
      var x, y := SourceKey(b.ns, b.annotations[i].source.locator), SourceKey(b.ns, b.annotations[j].source.locator);
      SameHolder(b, rows, x, y, id);
      SourceKeysStart(b, i);
      SourceKeysStart(b, j);
      ScopingIsInjective(x, y, b.ns);
      var head := "source:" + KindName(b.ns.kind) + ":" + b.ns.id + ":";
      assert x[|head|..] == b.annotations[i].source.locator && y[|head|..] == b.annotations[j].source.locator;
    }
  }

  lemma SameHolder(b: Bundle, rows: Rows, x: string, y: string, id: nat)
    requires Keyed(b, rows, Sources, x, id) && Keyed(b, rows, Sources, y, id)
    ensures Scoped(Some(x), b.ns) == Scoped(Some(y), b.ns)
  {
  }

  lemma SourceKeysStart(b: Bundle, i: nat)
    requires i < |b.annotations|
    ensures var key := SourceKey(b.ns, b.annotations[i].source.locator); key != "" && !(Prefix(b.ns) <= key)
  {
    var key := SourceKey(b.ns, b.annotations[i].source.locator);
    assert key[0] == 's' && Prefix(b.ns)[0] == 'n';
  }

  /** The three ways of a source step: found by key, found by content, inserted. */
  lemma SourceStepDoes(b: Bundle, i: nat, a: Attempt)
    requires i < |b.annotations| && Valid(a.st)
    ensures var next := DoStep(b, SourceStep(i), a);
            var rows, s := a.st.rows, next.local.source;
            && !next.failed && next.local == a.local.(source := s)
            && if exists id :: UnderKey(b, rows, i, id) then next.st == a.st && UnderKey(b, rows, i, s)
               else if Stores(b, rows, i) then next.st == a.st && Holds(b, rows, i, s)
               else
                 && Ref(Sources, s) !in rows && next.st.rows.Keys == rows.Keys + {Ref(Sources, s)}
                 && (forall r :: r in rows ==> next.st.rows[r] == rows[r])
                 && UnderKey(b, next.st.rows, i, s) && Holds(b, next.st.rows, i, s)
  {
    hide Valid, DoStep, FindExisting, FindByKey, FindByNatural, KeyTaken, HasKey, HasNatural, SourceKey;
    var step, rows := SourceStep(i), a.st.rows;
    var body := BodyOf(b, step, rows, a.local).value;
    var row, raw := RowOf(b, step, body), Some(KeyOf(b, step));
    StepIsAdmit(b, step, a, body);
    LookedUp(b, i, a.st, row);
    UniqueOnlyIfFound(a.st, row, raw);
    FreshId(a.st);
    if FindExisting(rows, row, raw) == None {
      InsertedSource(b, i, a.st, row);
    }
  }

  lemma UniqueOnlyIfFound(st: State, row: Row, raw: Option<string>)
    requires Valid(st) && row.key == Scoped(raw, row.ns)
    ensures FindExisting(st.rows, row, raw) == None ==> !KeyTaken(st.rows, TableOf(row.body), row.key)
  {
    hide Valid;
    if FindExisting(st.rows, row, raw) == None {
      UniqueNeverFires(st, TableOf(row.body), raw, row.ns);
    }
  }

  lemma FreshId(st: State)
    requires Valid(st)
    ensures forall table :: Ref(table, st.nextId) !in st.rows
  {
  }

  lemma LookedUp(b: Bundle, i: nat, st: State, row: Row)
    requires i < |b.annotations| && Valid(st) && row.ns == b.ns
    requires TableOf(row.body) == Sources && Natural(row.body) == ContentOf(b, i)
    ensures var found := FindExisting(st.rows, row, Some(KeyOf(b, SourceStep(i))));
            if exists id :: UnderKey(b, st.rows, i, id) then found.Some? && UnderKey(b, st.rows, i, found.value)
            else if Stores(b, st.rows, i) then found.Some? && Holds(b, st.rows, i, found.value)
            else found == None
  {
    hide Valid, HasKey, HasNatural, FindByKey, FindByNatural, SourceKey;
    var raw := Some(KeyOf(b, SourceStep(i)));
    forall id: nat
      ensures FindByKey(st.rows, Sources, raw, b.ns) == Some(id) <==> UnderKey(b, st.rows, i, id)
      ensures FindByNatural(st.rows, Sources, b.ns, ContentOf(b, i)) == Some(id) <==> Holds(b, st.rows, i, id)
    {
      FindByKeyFindsTheHolder(st, Sources, raw, b.ns, id);
      FindByNaturalFindsTheHolder(st, Sources, b.ns, ContentOf(b, i), id);
    }
  }

  lemma InsertedSource(b: Bundle, i: nat, st: State, row: Row)
    requires i < |b.annotations| && row.ns == b.ns && Natural(row.body) == ContentOf(b, i)
    requires row.key == Scoped(Some(KeyOf(b, SourceStep(i))), b.ns) && row.key.Some?
    ensures var rows := st.rows[Ref(Sources, st.nextId) := row];
            UnderKey(b, rows, i, st.nextId) && Holds(b, rows, i, st.nextId)
  {
    hide SourceKey;
  }

  /** The source an attempt learns is the annotation's own exactly if every source under its key is. */
  lemma OwnSourceLearned(b: Bundle, i: nat, a: Attempt)
    requires i < |b.annotations| && Valid(a.st)
    ensures var next := DoStep(b, SourceStep(i), a);
            Holds(b, next.st.rows, i, next.local.source) <==>
              (forall id :: UnderKey(b, a.st.rows, i, id) ==> Holds(b, a.st.rows, i, id))
  {
    hide Valid, DoStep, HasNatural, SourceKey, Keyed;
    SourceStepDoes(b, i, a);
    var s := DoStep(b, SourceStep(i), a).local.source;
    if id :| UnderKey(b, a.st.rows, i, id) {
      forall other | UnderKey(b, a.st.rows, i, other) ensures other == s {
        KeyedIsUnique(b, a.st, Sources, SourceKey(b.ns, b.annotations[i].source.locator), other, s);
      }
    }
  }

  // ---------------------------------------------------------------- the sources after some annotations

  /** Before annotation `n`, sources were added for the first new annotations before it, and for nothing else. */
  ghost predicate SourcesSoFar(b: Bundle, n: nat, start: Rows, rows: Rows) {
    && (forall i, id :: 0 <= i < |b.annotations| && UnderKey(b, rows, i, id) ==>
          UnderKey(b, start, i, id)
          || exists j :: 0 <= j < n && FirstNew(b, start, j) && SameLocator(b, i, j) && Holds(b, rows, j, id))
    && (forall j :: 0 <= j < n && FirstNew(b, start, j) ==>
          exists id :: UnderKey(b, rows, j, id) && Holds(b, rows, j, id))
    && (forall i :: 0 <= i < |b.annotations| && Stores(b, rows, i) ==>
          Stores(b, start, i) || exists j :: 0 <= j < n && FirstNew(b, start, j) && ContentOf(b, j) == ContentOf(b, i))
  }

  lemma HoldsSurvives(b: Bundle, old_: Rows, new_: Rows, i: nat, id: nat)
    requires i < |b.annotations| && Extends(old_, new_) && Ref(Sources, id) in old_
    ensures Holds(b, new_, i, id) <==> Holds(b, old_, i, id)
    ensures UnderKey(b, new_, i, id) <==> UnderKey(b, old_, i, id)
  {
    FixedDecides(old_[Ref(Sources, id)], new_[Ref(Sources, id)]);
  }

  lemma AllHoldsSurvives(b: Bundle, old_: Rows, new_: Rows)
    requires Extends(old_, new_)
    ensures forall i, id :: 0 <= i < |b.annotations| && Holds(b, old_, i, id) ==> Holds(b, new_, i, id)
    ensures forall i, id :: 0 <= i < |b.annotations| && UnderKey(b, old_, i, id) ==> UnderKey(b, new_, i, id)
  {
    hide SourceKey, Extends;
    forall i: nat, id: nat | i < |b.annotations| && Ref(Sources, id) in old_
      ensures Holds(b, old_, i, id) ==> Holds(b, new_, i, id)
      ensures UnderKey(b, old_, i, id) ==> UnderKey(b, new_, i, id)
    {
      HoldsSurvives(b, old_, new_, i, id);
    }
  }

  /** Without additions to the sources, what holds of them is what held. */
  lemma FrozenSources(b: Bundle, old_: Rows, new_: Rows)
    requires Extends(old_, new_) && Frozen(Sources, old_, new_)
    ensures forall i, id :: 0 <= i < |b.annotations| ==> (Holds(b, new_, i, id) <==> Holds(b, old_, i, id))
    ensures forall i, id :: 0 <= i < |b.annotations| ==> (UnderKey(b, new_, i, id) <==> UnderKey(b, old_, i, id))
  {
    hide SourceKey, Extends;
    forall i: nat, id: nat | i < |b.annotations|
      ensures Holds(b, new_, i, id) <==> Holds(b, old_, i, id)
      ensures UnderKey(b, new_, i, id) <==> UnderKey(b, old_, i, id)
    {
      if Ref(Sources, id) in old_ {
        HoldsSurvives(b, old_, new_, i, id);
      } else {
        assert Ref(Sources, id) !in new_;
      }
    }
  }

  lemma FrozenKeepsSoFar(b: Bundle, n: nat, start: Rows, old_: Rows, new_: Rows)
    requires SourcesSoFar(b, n, start, old_) && Extends(old_, new_) && Frozen(Sources, old_, new_)
    ensures SourcesSoFar(b, n, start, new_)
  {
    hide Holds, UnderKey, Extends, Frozen, SameLocator, ContentOf;
    FrozenSources(b, old_, new_);
    hide FirstNew;
    forall i: nat | i < |b.annotations| && Stores(b, new_, i) ensures Stores(b, old_, i) {
      var id :| Holds(b, new_, i, id);
      assert Holds(b, old_, i, id);
    }
  }

  /** Where a locator's key is free and the content is not held, there is a first new annotation of the locator. */
  lemma {:induction false} FirstNewIsThere(b: Bundle, rows: Rows, n: nat)
    requires n < |b.annotations| && (forall id :: !UnderKey(b, rows, n, id)) && !Stores(b, rows, n)
    ensures exists j :: 0 <= j <= n && FirstNew(b, rows, j) && SameLocator(b, n, j)
  {
    hide UnderKey, Holds;
    if i: nat :| i < n && SameLocator(b, i, n) && !Stores(b, rows, i) {
      SameLocatorSameKey(b, rows, i, n);
      FirstNewIsThere(b, rows, i);
    } else {
      assert FirstNew(b, rows, n) && SameLocator(b, n, n);
    }
  }

  lemma SameLocatorSameKey(b: Bundle, rows: Rows, i: nat, j: nat)
    requires i < |b.annotations| && j < |b.annotations| && SameLocator(b, i, j)
    ensures forall id :: UnderKey(b, rows, i, id) <==> UnderKey(b, rows, j, id)
  {
  }

  /** Of two annotations of one locator at most one is the first new one. */
  lemma FirstNewIsOne(b: Bundle, rows: Rows, i: nat, j: nat)
    requires FirstNew(b, rows, i) && FirstNew(b, rows, j) && SameLocator(b, i, j)
    ensures i == j
  {
    hide UnderKey, Holds;
  }

  lemma FoundIsNotNew(b: Bundle, n: nat, start: Rows, rows: Rows)
    requires n < |b.annotations| && SourcesSoFar(b, n, start, rows)
    requires (exists id :: UnderKey(b, rows, n, id)) || Stores(b, rows, n)
    ensures !FirstNew(b, start, n)
  {
    hide UnderKey, Holds;
    if FirstNew(b, start, n) {
      var j: nat :| j < n && FirstNew(b, start, j) && SameLocator(b, n, j);
      FirstNewIsOne(b, start, n, j);
    }
  }

  lemma MissingIsNew(b: Bundle, n: nat, start: Rows, rows: Rows)
    requires n < |b.annotations| && SourcesSoFar(b, n, start, rows) && Extends(start, rows)
    requires (forall id :: !UnderKey(b, rows, n, id)) && !Stores(b, rows, n)
    ensures FirstNew(b, start, n)
  {
    hide UnderKey, Holds, Extends;
    AllHoldsSurvives(b, start, rows);
    FirstNewIsThere(b, start, n);
    var j: nat :| j <= n && FirstNew(b, start, j) && SameLocator(b, n, j);
    if j < n {
      SameLocatorSameKey(b, rows, n, j);
    }
  }

  lemma SameSources(b: Bundle, n: nat, start: Rows, rows: Rows)
    requires n < |b.annotations| && SourcesSoFar(b, n, start, rows) && !FirstNew(b, start, n)
    ensures SourcesSoFar(b, n + 1, start, rows)
  {
    hide UnderKey, Holds, FirstNew, SameLocator, ContentOf, Stores;
    assert forall j :: 0 <= j < n + 1 && FirstNew(b, start, j) ==> 0 <= j < n;
  }

  lemma OneMoreSource(b: Bundle, n: nat, start: Rows, rows: Rows, next: Rows, s: nat)
    requires n < |b.annotations| && SourcesSoFar(b, n, start, rows) && FirstNew(b, start, n)
    requires Ref(Sources, s) !in rows && next.Keys == rows.Keys + {Ref(Sources, s)}
    requires forall r :: r in rows ==> next[r] == rows[r]
    requires UnderKey(b, next, n, s) && Holds(b, next, n, s)
    ensures SourcesSoFar(b, n + 1, start, next)
  {
    OtherSources(b, rows, next, s);
    forall i | 0 <= i < |b.annotations| ensures UnderKey(b, next, i, s) ==> SameLocator(b, n, i) {
      KeyTellsLocator(b, next, n, i, s);
    }
    OneContent(b, next, n, s);
    hide UnderKey, Holds, FirstNew, SameLocator, ContentOf;
    SameLocatorBothWays(b);
    forall i | 0 <= i < |b.annotations| && Stores(b, next, i)
      ensures Stores(b, start, i)
              || exists j :: 0 <= j < n + 1 && FirstNew(b, start, j) && ContentOf(b, j) == ContentOf(b, i)
    {
      var id :| Holds(b, next, i, id);
      if id != s {
        assert Holds(b, rows, i, id);
        assert Stores(b, rows, i);
      }
    }
  }

  lemma SameLocatorBothWays(b: Bundle)
    ensures forall i, j :: 0 <= i < |b.annotations| && 0 <= j < |b.annotations| ==>
              (SameLocator(b, i, j) <==> SameLocator(b, j, i))
  {
  }

  lemma OneContent(b: Bundle, rows: Rows, n: nat, s: nat)
    requires n < |b.annotations| && Holds(b, rows, n, s)
    ensures forall i :: 0 <= i < |b.annotations| && Holds(b, rows, i, s) ==> ContentOf(b, i) == ContentOf(b, n)
  {
  }

  lemma OtherSources(b: Bundle, rows: Rows, next: Rows, s: nat)
    requires Ref(Sources, s) !in rows && next.Keys == rows.Keys + {Ref(Sources, s)}
    requires forall r :: r in rows ==> next[r] == rows[r]
    ensures forall i, id :: 0 <= i < |b.annotations| && id != s ==> (Holds(b, next, i, id) <==> Holds(b, rows, i, id))
    ensures forall i, id :: 0 <= i < |b.annotations| && id != s ==>
              (UnderKey(b, next, i, id) <==> UnderKey(b, rows, i, id))
    ensures forall i, id :: 0 <= i < |b.annotations| && Holds(b, rows, i, id) ==> id != s
    ensures forall i, id :: 0 <= i < |b.annotations| && UnderKey(b, rows, i, id) ==> id != s
  {
    hide SourceKey, ContentOf;
  }

  lemma {:induction false} SourceStepSoFar(b: Bundle, n: nat, start: Rows, a: Attempt)
    requires n < |b.annotations| && Valid(a.st) && Extends(start, a.st.rows) && SourcesSoFar(b, n, start, a.st.rows)
    ensures SourcesSoFar(b, n + 1, start, DoStep(b, SourceStep(n), a).st.rows)
  {
    hide Valid, Extends, DoStep, UnderKey, Holds, FirstNew, SourcesSoFar;
    SourceStepDoes(b, n, a);
    var next := DoStep(b, SourceStep(n), a);
    if (exists id :: UnderKey(b, a.st.rows, n, id)) || Stores(b, a.st.rows, n) {
      FoundIsNotNew(b, n, start, a.st.rows);
      SameSources(b, n, start, a.st.rows);
    } else {
      MissingIsNew(b, n, start, a.st.rows);
      OneMoreSource(b, n, start, a.st.rows, next.st.rows, next.local.source);
    }
  }

  /** What can be read off before the replay decides what the step finds. */
  lemma OwnIsForeseen(b: Bundle, n: nat, start: Rows, rows: Rows)
    requires n < |b.annotations| && SourcesSoFar(b, n, start, rows) && Extends(start, rows)
    ensures (forall id :: UnderKey(b, rows, n, id) ==> Holds(b, rows, n, id)) <==> FindsItsOwn(b, start, n)
  {
    hide UnderKey, Holds, Extends, FirstNew, ContentOf;
    AllHoldsSurvives(b, start, rows);
    SameLocatorBothWays(b);
    if FindsItsOwn(b, start, n) {
      forall id | UnderKey(b, rows, n, id) ensures Holds(b, rows, n, id) {
        if !UnderKey(b, start, n, id) {
          var j: nat :| j < n && FirstNew(b, start, j) && SameLocator(b, n, j) && Holds(b, rows, j, id);
          SameContent(b, rows, j, n, id);
        }
      }
    } else if forall id :: UnderKey(b, rows, n, id) ==> Holds(b, rows, n, id) {
      forall id | UnderKey(b, start, n, id) ensures Holds(b, start, n, id) {
        HeldSourceIsThere(b, start, n, id);
        HoldsSurvives(b, start, rows, n, id);
      }
      forall j: nat | j < n && FirstNew(b, start, j) && SameLocator(b, n, j)
        ensures ContentOf(b, j) == ContentOf(b, n)
      {
        var id :| UnderKey(b, rows, j, id) && Holds(b, rows, j, id);
        SameLocatorSameKey(b, rows, n, j);
        OneContent(b, rows, n, id);
      }
    }
  }

  lemma SameContent(b: Bundle, rows: Rows, i: nat, j: nat, id: nat)
    requires i < |b.annotations| && j < |b.annotations| && ContentOf(b, i) == ContentOf(b, j) && Holds(b, rows, i, id)
    ensures Holds(b, rows, j, id)
  {
  }

  lemma HeldSourceIsThere(b: Bundle, rows: Rows, i: nat, id: nat)
    requires i < |b.annotations| && UnderKey(b, rows, i, id)
    ensures Ref(Sources, id) in rows
  {
  }

  // ---------------------------------------------------------------- whole replays

  /** Before the source step of annotation `n`; `n` may be the number of annotations. */
  function Before(b: Bundle, n: nat): nat
    requires n <= |b.annotations|
    ensures Before(b, n) < Length(b)
  {
    3 + 2 * n
  }

  lemma AnnotationSteps(b: Bundle, n: nat)
    requires n < |b.annotations|
    ensures Before(b, n) + 2 == Before(b, n + 1) < Length(b)
    ensures StepAt(b, Before(b, n)) == SourceStep(n) && StepAt(b, Before(b, n) + 1) == ExcerptStep(n)
  {
  }

  lemma OtherStepsFreeze(b: Bundle, step: Step, a: Attempt)
    requires InBundle(b, step) && Valid(a.st) && !step.SourceStep?
    ensures Extends(a.st.rows, DoStep(b, step, a).st.rows) && Frozen(Sources, a.st.rows, DoStep(b, step, a).st.rows)
  {
    hide Valid, DoStep, Extends, Frozen;
    StepKeeps(b, step, a);
  }

  lemma ExecStep(b: Bundle, k: nat, st: State)
    requires k < Length(b) && Valid(st) && !Exec(b, k + 1, st).failed
    ensures !Exec(b, k, st).failed && Exec(b, k + 1, st) == DoStep(b, StepAt(b, k), Exec(b, k, st))
    ensures Valid(Exec(b, k, st).st) && Extends(st.rows, Exec(b, k, st).st.rows)
  {
    hide Valid, Extends, StepAt, DoStep;
    ExecKeeps(b, k, st);
  }

  lemma NoSourcesYet(b: Bundle, rows: Rows)
    ensures SourcesSoFar(b, 0, rows, rows)
  {
    hide UnderKey, Holds, FirstNew, ContentOf;
  }

  lemma FirstStepsFreeze(b: Bundle, st: State)
    requires Valid(st) && !Exec(b, Before(b, 0), st).failed
    ensures SourcesSoFar(b, 0, st.rows, Exec(b, Before(b, 0), st).st.rows)
  {
    hide Valid, Extends, DoStep, SourcesSoFar, Exec, Frozen;
    NoSourcesYet(b, st.rows);
    StartOfExec(b, st);
    for k := 0 to 3
      invariant SourcesSoFar(b, 0, st.rows, Exec(b, k, st).st.rows)
    {
      ExecGrows(b, k + 1, 3, st);
      ExecStep(b, k, st);
      OtherStepsFreeze(b, StepAt(b, k), Exec(b, k, st));
      FrozenKeepsSoFar(b, 0, st.rows, Exec(b, k, st).st.rows, Exec(b, k + 1, st).st.rows);
    }
  }

  lemma StartOfExec(b: Bundle, st: State)
    ensures Exec(b, 0, st) == Attempt(st, START, false)
  {
  }

  lemma {:induction false} ReplayedSources(b: Bundle, n: nat, st: State)
    requires n <= |b.annotations| && Valid(st) && !Exec(b, Before(b, n), st).failed
    ensures SourcesSoFar(b, n, st.rows, Exec(b, Before(b, n), st).st.rows)
  {
    hide Valid, Extends, DoStep, SourcesSoFar, Exec, Frozen, StepAt;
    if n == 0 {
      FirstStepsFreeze(b, st);
    } else {
      var k := Before(b, n - 1);
      AnnotationSteps(b, n - 1);
      ExecGrows(b, k, k + 2, st);
      ExecGrows(b, k + 1, k + 2, st);
      ReplayedSources(b, n - 1, st);
      ExecStep(b, k, st);
      ExecStep(b, k + 1, st);
      SourceStepSoFar(b, n - 1, st.rows, Exec(b, k, st));
      OtherStepsFreeze(b, ExcerptStep(n - 1), Exec(b, k + 1, st));
      FrozenKeepsSoFar(b, n, st.rows, Exec(b, k + 1, st).st.rows, Exec(b, k + 2, st).st.rows);
    }
  }

  // ---------------------------------------------------------------- the excerpts

  /** No earlier annotation has the same temporary id. */
  predicate IsFirstAnnotation(b: Bundle, i: nat) {
    i < |b.annotations| && forall j :: 0 <= j < i ==> b.annotations[j].tempId != b.annotations[i].tempId
  }

  /** The excerpt with an annotation's key names a source with the annotation's locator and content. */
  ghost predicate RestsOnItsOwn(b: Bundle, rows: Rows, i: nat, id: nat)
    requires i < |b.annotations|
  {
    && Ref(Excerpts, id) in rows && rows[Ref(Excerpts, id)].body.Excerpt?
    && Holds(b, rows, i, rows[Ref(Excerpts, id)].body.source)
  }

  lemma ExcerptKeysAreApart(b: Bundle, s: string, t: string)
    requires "queue_" <= b.queueId && s != t
    ensures Scoped(Some(ExcerptKey(b, s)), b.ns) != Scoped(Some(ExcerptKey(b, t)), b.ns)
  {
    var head := b.queueId + ":excerpt:";
    assert s == ExcerptKey(b, s)[|head|..] && t == ExcerptKey(b, t)[|head|..];
    assert b.queueId <= ExcerptKey(b, s) && b.queueId <= ExcerptKey(b, t);
    BundleKeysAreApart(b, ExcerptKey(b, s), ExcerptKey(b, t));
  }

  lemma ExcerptStepKey(b: Bundle, i: nat)
    requires i < |b.annotations|
    ensures KeyOf(b, ExcerptStep(i)) == ExcerptKey(b, b.annotations[i].tempId)
  {
  }

  lemma OtherExcerptsStayAbsent(b: Bundle, old_: Rows, new_: Rows, x: string, y: string, id: nat)
    requires "queue_" <= b.queueId && x != y && Keyed(b, new_, Excerpts, ExcerptKey(b, x), id)
    requires Extends(old_, new_) && forall r :: r in new_ && r.table == Excerpts && r != Ref(Excerpts, id) ==> r in old_
    requires Absent(b, old_, Excerpts, ExcerptKey(b, y))
    ensures Absent(b, new_, Excerpts, ExcerptKey(b, y))
  {
    hide ExcerptKey;
    ExcerptKeysAreApart(b, x, y);
    forall other ensures !Keyed(b, new_, Excerpts, ExcerptKey(b, y), other) {
      if other != id && Ref(Excerpts, other) in old_ {
        FixedDecides(old_[Ref(Excerpts, other)], new_[Ref(Excerpts, other)]);
        assert !Keyed(b, old_, Excerpts, ExcerptKey(b, y), other);
      }
    }
  }

  lemma ExcerptStepKeepsAbsent(b: Bundle, i: nat, j: nat, a: Attempt)
    requires "queue_" <= b.queueId && IsFirstAnnotation(b, i) && j < i && Valid(a.st)
    requires !DoStep(b, ExcerptStep(j), a).failed
    requires Absent(b, a.st.rows, Excerpts, ExcerptKey(b, b.annotations[i].tempId))
    ensures Absent(b, DoStep(b, ExcerptStep(j), a).st.rows, Excerpts, ExcerptKey(b, b.annotations[i].tempId))
  {
    hide Valid, Extends, DoStep, ExcerptKey, Keyed, RowOf, BodyOf, Absent, Frozen;
    var next := DoStep(b, ExcerptStep(j), a).st.rows;
    StepKeeps(b, ExcerptStep(j), a);
    StepLeavesKey(b, ExcerptStep(j), a);
    ExcerptStepKey(b, j);
    var x := b.annotations[j].tempId;
    var id :| Keyed(b, next, Excerpts, ExcerptKey(b, x), id)
              && (next == a.st.rows
                  || next == a.st.rows[Ref(Excerpts, id) := RowOf(
                       b, ExcerptStep(j), BodyOf(b, ExcerptStep(j), a.st.rows, a.local).value)]);
    OtherExcerptsStayAbsent(b, a.st.rows, next, x, b.annotations[i].tempId, id);
  }

  lemma {:induction false} AbsentUntil(b: Bundle, i: nat, k: nat, st: State)
    requires "queue_" <= b.queueId && IsFirstAnnotation(b, i) && k <= Before(b, i) + 1 && Valid(st)
    requires Absent(b, st.rows, Excerpts, ExcerptKey(b, b.annotations[i].tempId)) && !Exec(b, k, st).failed
    ensures Absent(b, Exec(b, k, st).st.rows, Excerpts, ExcerptKey(b, b.annotations[i].tempId))
  {
    hide Valid, Extends, DoStep, Exec, Absent, Frozen, ExcerptKey;
    if k == 0 {
      StartOfExec(b, st);
    } else {
      var step, a := StepAt(b, k - 1), Exec(b, k - 1, st);
      ExecStep(b, k - 1, st);
      AbsentUntil(b, i, k - 1, st);
      StepIsInBundle(b, k - 1);
      StepKeeps(b, step, a);
      if step.ExcerptStep? {
        EarlierExcerpt(b, i, k - 1);
        ExcerptStepKeepsAbsent(b, i, step.a, a);
      } else {
        AbsentSurvives(b, a.st.rows, DoStep(b, step, a).st.rows, Excerpts, ExcerptKey(b, b.annotations[i].tempId));
      }
    }
  }

  lemma EarlierExcerpt(b: Bundle, i: nat, k: nat)
    requires i < |b.annotations| && k < Before(b, i) + 1 && StepAt(b, k).ExcerptStep?
    ensures StepAt(b, k).a < i
  {
  }

  lemma ExcerptNamesLearned(b: Bundle, i: nat, a: Attempt)
    requires i < |b.annotations| && Valid(a.st) && !DoStep(b, ExcerptStep(i), a).failed
    requires Absent(b, a.st.rows, Excerpts, ExcerptKey(b, b.annotations[i].tempId))
    ensures var next := DoStep(b, ExcerptStep(i), a).st.rows;
            exists id ::
              && Keyed(b, next, Excerpts, ExcerptKey(b, b.annotations[i].tempId), id)
              && Ref(Excerpts, id) in next && next[Ref(Excerpts, id)].body.Excerpt?
              && next[Ref(Excerpts, id)].body.source == a.local.source
  {
    hide Valid, DoStep, ExcerptKey, Keyed;
    var step, rows := ExcerptStep(i), a.st.rows;
    var next := DoStep(b, step, a).st.rows;
    StepLeavesKey(b, step, a);
    ExcerptStepKey(b, i);
    var body := BodyOf(b, step, rows, a.local).value;
    var id :| Keyed(b, next, Excerpts, ExcerptKey(b, b.annotations[i].tempId), id)
              && ((Keyed(b, rows, Excerpts, ExcerptKey(b, b.annotations[i].tempId), id)
                   && DoStep(b, step, a).st == a.st)
                  || next == rows[Ref(Excerpts, id) := RowOf(b, step, body)]);
    assert !Keyed(b, rows, Excerpts, ExcerptKey(b, b.annotations[i].tempId), id);
  }

  /** Right after its step, an annotation's excerpt rests on its own source exactly as foreseen. */
  lemma StoredExcerpt(b: Bundle, i: nat, st: State) returns (id: nat)
    requires "queue_" <= b.queueId && IsFirstAnnotation(b, i) && Valid(st)
    requires Absent(b, st.rows, Excerpts, ExcerptKey(b, b.annotations[i].tempId))
    requires !Exec(b, Before(b, i + 1), st).failed
    ensures var rows := Exec(b, Before(b, i + 1), st).st.rows;
            && Keyed(b, rows, Excerpts, ExcerptKey(b, b.annotations[i].tempId), id)
            && Ref(Excerpts, id) in rows && rows[Ref(Excerpts, id)].body.Excerpt?
            && Ref(Sources, rows[Ref(Excerpts, id)].body.source) in rows
            && (Holds(b, rows, i, rows[Ref(Excerpts, id)].body.source) <==> FindsItsOwn(b, st.rows, i))
  {
    hide Valid, Extends, DoStep, Exec, Absent, Frozen, ExcerptKey, StepAt, Keyed, Holds, SourcesSoFar, FindsItsOwn;
    var k := Before(b, i);
    AnnotationSteps(b, i);
    ExecGrows(b, k, k + 2, st);
    ExecGrows(b, k + 1, k + 2, st);
    var a, found, done := Exec(b, k, st), Exec(b, k + 1, st), Exec(b, k + 2, st);
    ExecStep(b, k, st);
    ExecStep(b, k + 1, st);
    ReplayedSources(b, i, st);
    OwnIsForeseen(b, i, st.rows, a.st.rows);
    OwnSourceLearned(b, i, a);
    StepKeeps(b, SourceStep(i), a);
    AbsentUntil(b, i, k + 1, st);
    ExcerptNamesLearned(b, i, found);
    id :| && Keyed(b, done.st.rows, Excerpts, ExcerptKey(b, b.annotations[i].tempId), id)
          && Ref(Excerpts, id) in done.st.rows && done.st.rows[Ref(Excerpts, id)].body.Excerpt?
          && done.st.rows[Ref(Excerpts, id)].body.source == found.local.source;
    OtherStepsFreeze(b, ExcerptStep(i), found);
    FrozenSources(b, found.st.rows, done.st.rows);
    RowStays(found.st.rows, done.st.rows, Ref(Sources, found.local.source));
  }

  lemma RowStays(old_: Rows, new_: Rows, r: Ref)
    requires Extends(old_, new_) && r in old_
    ensures r in new_
  {
  }

  /**
   * Whatever crashed attempts came before, after one complete replay: the excerpt of an annotation new to the store
   * rests on a source with the annotation's own locator and content exactly if, before the replay, any source under its
   * locator's key had that content, and any first new annotation of the locator before it had it too.
   */
  lemma {:induction false} ExcerptRestsOnItsOwnIff(b: Bundle, cuts: seq<nat>, st: State, i: nat)
    requires Valid(st) && Complete(b, st).result.Ok?
    requires "queue_" <= b.queueId && IsFirstAnnotation(b, i)
    requires Absent(b, st.rows, Excerpts, ExcerptKey(b, b.annotations[i].tempId))
    ensures var rows := Complete(b, Attempts(b, cuts, st)).st.rows;
            && (exists id :: Keyed(b, rows, Excerpts, ExcerptKey(b, b.annotations[i].tempId), id))
            && forall id :: Keyed(b, rows, Excerpts, ExcerptKey(b, b.annotations[i].tempId), id) ==>
                 (RestsOnItsOwn(b, rows, i, id) <==> FindsItsOwn(b, st.rows, i))
  {
    CrashesLeaveNoTrace(b, cuts, st);
    var n, raw := Length(b), ExcerptKey(b, b.annotations[i].tempId);
    var a, o := Exec(b, n, st), Complete(b, st);
    hide Valid, Extends, DoStep, Exec, Absent, Frozen, ExcerptKey, StepAt, Keyed, Holds, FindsItsOwn, SetStatus;
    AnnotationSteps(b, i);
    var k := Before(b, i + 1);
    ExecGrows(b, k, n, st);
    ExecKeeps(b, n, st);
    StatusKeeps(a.st, a.local.question, Answered);
    ExtendsTransitive(Exec(b, k, st).st.rows, a.st.rows, o.st.rows);
    var id := StoredExcerpt(b, i, st);
    var rows := Exec(b, k, st).st.rows;
    KeyedSurvives(b, rows, o.st.rows, Excerpts, raw, id);
    ExtendsKeepsRow(rows, o.st.rows, Ref(Excerpts, id));
    HoldsSurvives(b, rows, o.st.rows, i, rows[Ref(Excerpts, id)].body.source);
    forall other: nat | Keyed(b, o.st.rows, Excerpts, raw, other) ensures other == id {
      KeyedIsUnique(b, o.st, Excerpts, raw, other, id);
    }
  }

  /** From an empty store, of two annotations with one locator and different content only the first keeps its source. */
  lemma SecondContentIsLost(b: Bundle, cuts: seq<nat>, i: nat, j: nat)
    requires Complete(b, EMPTY).result.Ok? && "queue_" <= b.queueId
    requires IsFirstAnnotation(b, j) && i < j && SameLocator(b, i, j) && ContentOf(b, i) != ContentOf(b, j)
    requires forall h :: 0 <= h < i ==> !SameLocator(b, h, i)
    ensures forall id ::
              Keyed(b, Complete(b, Attempts(b, cuts, EMPTY)).st.rows, Excerpts,
                  ExcerptKey(b, b.annotations[j].tempId), id)
              ==> !RestsOnItsOwn(b, Complete(b, Attempts(b, cuts, EMPTY)).st.rows, j, id)
  {
    hide Complete, Attempts, ExcerptKey, ContentOf, RestsOnItsOwn, SourceKey;
    NothingStored(b);
    assert FirstNew(b, EMPTY.rows, i);
    SameLocatorBothWays(b);
    assert !FindsItsOwn(b, EMPTY.rows, j);
    ExcerptRestsOnItsOwnIff(b, cuts, EMPTY, j);
  }

  lemma NothingStored(b: Bundle)
    ensures Valid(EMPTY) && forall table, raw, id :: !Keyed(b, EMPTY.rows, table, raw, id)
    ensures forall raw :: Absent(b, EMPTY.rows, Excerpts, raw)
    ensures forall i, id :: 0 <= i < |b.annotations| ==> !Holds(b, EMPTY.rows, i, id)
  {
  }
}
