/** Which envelopes a flush replays, by URL and namespace, and what becomes of each, by the bundle's own lists. */
module FlushMeaning {
  import opened PyText
  import opened RegistryStore
  import opened RegistryLaws
  import opened Replay
  import opened ReplayLaws
  import opened ReplayLinks
  import opened ReplayMeaning
  import opened CaptureQueues

  /** The same text, but for slashes at the end. */
  ghost predicate SameButForSlashes(a: string, b: string) {
    exists i, j ::
      && 0 <= i <= |a| && 0 <= j <= |b| && a[..i] == b[..j]
      && (forall k :: i <= k < |a| ==> a[k] == '/') && (forall k :: j <= k < |b| ==> b[k] == '/')
  }

  lemma {:induction false} SlashesAreCut(s: string) returns (i: nat)
    ensures i <= |s| && RstripSlashes(s) == s[..i] && (forall k :: i <= k < |s| ==> s[k] == '/')
    ensures i > 0 ==> s[i - 1] != '/'
  {
    if s != [] && s[|s| - 1] == '/' {
      i := SlashesAreCut(s[..|s| - 1]);
      assert s[..|s| - 1][..i] == s[..i];
    } else {
      i := |s|;
      assert s[..i] == s;
    }
  }

  lemma CutAlike(a: string, b: string)
    ensures RstripSlashes(a) == RstripSlashes(b) <==> SameButForSlashes(a, b)
  {
    var x := SlashesAreCut(a);
    var y := SlashesAreCut(b);
    hide RstripSlashes;
    if SameButForSlashes(a, b) {
      var i, j :| && 0 <= i <= |a| && 0 <= j <= |b| && a[..i] == b[..j]
                  && (forall k :: i <= k < |a| ==> a[k] == '/') && (forall k :: j <= k < |b| ==> b[k] == '/');
      assert x <= i && y <= j && |a[..i]| == i && |b[..j]| == j;
      SamePrefix(a, b, i, x, y);
    }
  }

  /** Where a common front ends, the last character that is not a slash is the same. */
  lemma SamePrefix(a: string, b: string, i: nat, x: nat, y: nat)
    requires x <= i <= |a| && y <= i <= |b| && a[..i] == b[..i]
    requires (forall k :: x <= k < |a| ==> a[k] == '/') && (forall k :: y <= k < |b| ==> b[k] == '/')
    requires (x > 0 ==> a[x - 1] != '/') && (y > 0 ==> b[y - 1] != '/')
    ensures a[..x] == b[..y]
  {
    assert forall k :: 0 <= k < i ==> a[k] == a[..i][k] && b[k] == b[..i][k];
    assert a[..x] == a[..i][..x] && b[..y] == b[..i][..y];
  }

  /** A flush replays an envelope of its own namespace, unless both name a URL and these differ in more than slashes. */
  lemma MayReplayIff(e: Envelope, status: BackendStatus)
    ensures MatchesBackend(e, status) <==>
              && e.bundle.ns == status.ns
              && (e.backendUrl == "" || status.url == "" || SameButForSlashes(e.backendUrl, status.url))
  {
    CutAlike(e.backendUrl, status.url);
  }

  /** The envelope as it was, with one retry more and an error noted. */
  predicate TriedOnceMore(e: Envelope, e': Envelope) {
    e'.bundle == e.bundle && e'.backendUrl == e.backendUrl && e'.retries == e.retries + 1 && e'.lastError.Some?
  }

  /** A later state of the registry, in which the bundle's report is the one reported. */
  ghost predicate Stores(st: State, b: Bundle, report: nat, next: State) {
    Valid(next) && Extends(st.rows, next.rows) && Keyed(b, next.rows, Reports, b.queueId + ":report", report)
  }

  /** What becomes of one envelope: passed on, replayed and dropped, or kept with its failure counted. */
  ghost predicate DealsWith(f: Flushed, e: Envelope, status: BackendStatus, next: Flushed) {
    var b := e.bundle;
    if b.ns != status.ns
       || (e.backendUrl != "" && status.url != "" && !SameButForSlashes(e.backendUrl, status.url)) then
      next == f.(remaining := f.remaining + [e])
    else if Sound(b, f.st.rows) then
      && next.remaining == f.remaining
      && (exists report :: && next.result == f.result.(flushed := f.result.flushed + [b.queueId],
                                                       reports := f.result.reports + [report])
                           && Stores(f.st, b, report, next.st))
    else
      && (exists e' :: TriedOnceMore(e, e') && next.remaining == f.remaining + [e'])
      && next.result == f.result.(failed := f.result.failed + [b.queueId])
      && Valid(next.st) && Extends(f.st.rows, next.st.rows)
  }

  lemma ReplayStores(b: Bundle, st: State)
    requires Valid(st) && "queue_" <= b.queueId
    ensures Complete(b, st).result.Ok? <==> Sound(b, st.rows)
    ensures Valid(Complete(b, st).st) && Extends(st.rows, Complete(b, st).st.rows)
    ensures Complete(b, st).result.Ok? ==> Stores(st, b, Complete(b, st).result.value, Complete(b, st).st)
  {
    hide Valid, Extends, Complete, Sound, Keyed;
    ReplaySucceedsIff(b, [], st);
    NoAttempts(b, st);
    CompleteKeeps(b, st);
  }

  lemma NoAttempts(b: Bundle, st: State)
    ensures Attempts(b, [], st) == st
  {
  }

  /** The next envelope of a flush is passed on, dropped or kept as its URL, namespace and lists say. */
  lemma FlushDealsWith(f: Flushed, e: Envelope, status: BackendStatus)
    requires Valid(f.st) && "queue_" <= e.bundle.queueId
    ensures DealsWith(f, e, status, FlushOne(f, e, status))
  {
    hide Valid, Extends, Complete, Sound, Stores, MatchesBackend, SameButForSlashes;
    MayReplayIff(e, status);
    if MatchesBackend(e, status) {
      ReplayStores(e.bundle, f.st);
      var o := Complete(e.bundle, f.st);
      if o.result.Err? {
        assert TriedOnceMore(e, Retried(e, o.result.message));
      }
    }
  }

  /** A run of a flush over a list of envelopes, one after the other. */
  ghost predicate DealsWithAll(pending: seq<Envelope>, status: BackendStatus, stages: seq<Flushed>) {
    && |stages| == |pending| + 1
    && stages[0].remaining == [] && stages[0].result == FlushResult([], [], [])
    && forall i :: 0 <= i < |pending| ==> DealsWith(stages[i], pending[i], status, stages[i + 1])
  }

  /** A flush deals with every envelope of the file in order, from the registry as it stood to the one it leaves. */
  lemma {:induction false} FlushDealsWithAll(pending: seq<Envelope>, status: BackendStatus, st: State)
    returns (stages: seq<Flushed>)
    requires Valid(st) && forall i :: 0 <= i < |pending| ==> "queue_" <= pending[i].bundle.queueId
    ensures DealsWithAll(pending, status, stages) && stages[0].st == st
    ensures stages[|pending|] == FlushAll(pending, status, st) && Valid(stages[|pending|].st)
  {
    hide Valid, DealsWith, FlushOne;
    if pending == [] {
      stages := [FlushAll([], status, st)];
    } else {
      var n := |pending| - 1;
      var front := FlushDealsWithAll(pending[..n], status, st);
      var next := FlushOne(front[n], pending[n], status);
      FlushDealsWith(front[n], pending[n], status);
      DealtIsValid(front[n], pending[n], status);
      stages := front + [next];
      forall i | 0 <= i < |pending| ensures DealsWith(stages[i], pending[i], status, stages[i + 1]) {
        if i < n {
          assert DealsWith(front[i], pending[..n][i], status, front[i + 1]);
        }
      }
    }
  }

  lemma DealtIsValid(f: Flushed, e: Envelope, status: BackendStatus)
    requires Valid(f.st) && "queue_" <= e.bundle.queueId
    ensures Valid(FlushOne(f, e, status).st)
  {
    hide Valid, Extends, Complete, Sound, MatchesBackend;
    ReplayStores(e.bundle, f.st);
  }
}
