/** What every run of the race matcher keeps: the join it computes and the
    counts that survive eviction. */
module RaceRuns {
  import opened Prelude
  import opened Sorting
  import opened Races

  datatype Config = Config(reference: string, window: Duration)

  /** A processed arrival with the pairs it completed, or a sweep of old state. */
  datatype Event =
    | Arrived(lane: string, tx: SeenTx, now: Instant, completed: seq<MatchedTx>)
    | Swept(now: Instant)

  ghost predicate Legal(c: Config, st: RaceState, e: Event) {
    e.Arrived? ==>
      Completes(c.reference, Noted(st.pending, e.lane, e.tx), e.tx.signature, e.completed)
  }

  function Apply(c: Config, st: RaceState, e: Event): RaceState {
    match e
    case Arrived(lane, tx, now, completed) => Observed(c.reference, st, lane, tx, now, completed)
    case Swept(now) => Evicted(st, now, c.window)
  }

  function After(c: Config, es: seq<Event>): RaceState {
    if es == [] then EMPTY else Apply(c, After(c, Front(es)), Last(es))
  }

  ghost predicate Run(c: Config, es: seq<Event>) {
    es == [] || (Run(c, Front(es)) && Legal(c, After(c, Front(es)), Last(es)))
  }

  /** Every pair the run reported, in order. */
  function Emitted(es: seq<Event>): seq<MatchedTx> {
    if es == [] then [] else
      Emitted(Front(es)) + if Last(es).Arrived? then Last(es).completed else []
  }

  // ----- the join: what a run reports is a function of its first arrivals -----

  /** When the lane first delivered the signature, read off the events alone. */
  function FirstArrival(es: seq<Event>, signature: string, lane: string): Option<Instant> {
    if es == [] then None else
      var before := FirstArrival(Front(es), signature, lane);
      if before.None? && Last(es).Arrived? && Last(es).lane == lane && Last(es).tx.signature == signature
      then Some(Last(es).tx.at) else before
  }

  function Held(st: RaceState, signature: string, lane: string): Option<Instant> {
    if signature in st.pending && lane in st.pending[signature].arrivals
    then Some(st.pending[signature].arrivals[lane]) else None
  }

  ghost predicate NoSweep(es: seq<Event>) { forall e :: e in es ==> e.Arrived? }

  lemma {:induction false} HeldIsFirst(c: Config, es: seq<Event>, signature: string, lane: string)
    requires NoSweep(es)
    ensures Held(After(c, es), signature, lane) == FirstArrival(es, signature, lane)
  {
    if es != [] {
      assert Last(es) in es;
      HeldIsFirst(c, Front(es), signature, lane);
    }
  }

  /** A pending entry is paired with all its lanes but the reference once the
      reference is there, and with none before. */
  ghost predicate PairedRight(c: Config, p: Pending) {
    p.paired == if c.reference in p.arrivals then p.arrivals.Keys - {c.reference} else {}
  }

  ghost predicate AllPairedRight(c: Config, st: RaceState) {
    forall s :: s in st.pending ==> PairedRight(c, st.pending[s])
  }

  lemma {:induction false} PairedAlways(c: Config, es: seq<Event>)
    ensures AllPairedRight(c, After(c, es))
  {
    if es != [] {
      PairedAlways(c, Front(es));
      if Last(es).Arrived? {
        PairedStep(c, After(c, Front(es)), Last(es));
      }
    }
  }

  lemma PairedStep(c: Config, st: RaceState, e: Event)
    requires AllPairedRight(c, st) && e.Arrived?
    ensures AllPairedRight(c, Apply(c, st, e))
  {
  }

  function JoinKey(m: MatchedTx): (string, string) { (m.signature, m.lane) }

  function KeysOf(ms: seq<MatchedTx>): set<(string, string)> { set m | m in ms :: JoinKey(m) }

  ghost predicate PairedIn(st: RaceState, k: (string, string)) {
    k.0 in st.pending && k.1 in st.pending[k.0].paired
  }

  lemma KeysAppend(a: seq<MatchedTx>, b: seq<MatchedTx>)
    ensures KeysOf(a + b) == KeysOf(a) + KeysOf(b)
    ensures DistinctBy(a, JoinKey) && DistinctBy(b, JoinKey) && KeysOf(a) !! KeysOf(b)
            ==> DistinctBy(a + b, JoinKey)
  {
    assert forall m :: m in a + b <==> m in a || m in b;
    if DistinctBy(a, JoinKey) && DistinctBy(b, JoinKey) && KeysOf(a) !! KeysOf(b) {
      forall i, j | 0 <= i < j < |a + b|
        ensures JoinKey((a + b)[i]) != JoinKey((a + b)[j])
      {
        if i < |a| <= j {
          assert JoinKey(a[i]) in KeysOf(a) && JoinKey(b[j - |a|]) in KeysOf(b);
        }
      }
    }
  }

  /** Without eviction a pair is reported exactly when it becomes paired. */
  lemma {:induction false} EmittedArePaired(c: Config, es: seq<Event>)
    requires Run(c, es) && NoSweep(es)
    ensures DistinctBy(Emitted(es), JoinKey)
    ensures forall k :: k in KeysOf(Emitted(es)) <==> PairedIn(After(c, es), k)
  {
    if es != [] {
      var e := Last(es);
      assert e in es;
      EmittedArePaired(c, Front(es));
      EmittedStep(c, After(c, Front(es)), e);
      KeysAppend(Emitted(Front(es)), e.completed);
    }
  }

  lemma EmittedStep(c: Config, st: RaceState, e: Event)
    requires e.Arrived? && Legal(c, st, e)
    ensures DistinctBy(e.completed, JoinKey)
    ensures forall k :: k in KeysOf(e.completed) ==> !PairedIn(st, k)
    ensures forall k :: PairedIn(Apply(c, st, e), k) <==> PairedIn(st, k) || k in KeysOf(e.completed)
  {
  }

  /** The reported lead is the lane's first arrival less the reference's. */
  ghost predicate Joins(c: Config, es: seq<Event>, m: MatchedTx) {
    var (own, theirs) := (FirstArrival(es, m.signature, m.lane), FirstArrival(es, m.signature, c.reference));
    m.lane != c.reference && own.Some? && theirs.Some? && theirs.value + m.lead == own.value
  }

  lemma {:induction false} EmittedLeads(c: Config, es: seq<Event>)
    requires Run(c, es) && NoSweep(es)
    ensures forall m :: m in Emitted(es) ==> Joins(c, es, m)
  {
    if es != [] {
      var e := Last(es);
      assert e in es;
      EmittedLeads(c, Front(es));
      forall m | m in Emitted(es)
        ensures Joins(c, es, m)
      {
        if m in Emitted(Front(es)) {
          assert Joins(c, Front(es), m);
        } else {
          HeldIsFirst(c, es, m.signature, m.lane);
          HeldIsFirst(c, es, m.signature, c.reference);
        }
      }
    }
  }

  /** The join theorem. Over any run of arrivals, in whatever order they are
      processed, the pairs reported are exactly one for each signature and
      non-reference lane that both that lane and the reference delivered, and
      each carries the difference of the two first arrivals. */
  lemma ExactlyOnePairPerJoin(c: Config, es: seq<Event>)
    requires Run(c, es) && NoSweep(es)
    ensures DistinctBy(Emitted(es), JoinKey)
    ensures forall m :: m in Emitted(es) ==> Joins(c, es, m)
    ensures forall s, l :: (s, l) in KeysOf(Emitted(es)) <==>
              l != c.reference && FirstArrival(es, s, l).Some? && FirstArrival(es, s, c.reference).Some?
  {
    EmittedArePaired(c, es);
    EmittedLeads(c, es);
    PairedAlways(c, es);
    forall s, l
      ensures (s, l) in KeysOf(Emitted(es)) <==>
              l != c.reference && FirstArrival(es, s, l).Some? && FirstArrival(es, s, c.reference).Some?
    {
      assert (s, l) in KeysOf(Emitted(es)) <==> PairedIn(After(c, es), (s, l));
      HeldIsFirst(c, es, s, l);
      HeldIsFirst(c, es, s, c.reference);
    }
  }

  // ----- two interleavings of the same streams -----

  /** What one lane delivered, in its own order. */
  function Stream(es: seq<Event>, lane: string): seq<SeenTx> {
    if es == [] then [] else
      Stream(Front(es), lane) + if Last(es).Arrived? && Last(es).lane == lane then [Last(es).tx] else []
  }

  function FirstIn(txs: seq<SeenTx>, signature: string): Option<Instant> {
    if txs == [] then None else
      var before := FirstIn(Front(txs), signature);
      if before.None? && Last(txs).signature == signature then Some(Last(txs).at) else before
  }

  lemma {:induction false} FirstArrivalIsOfTheStream(es: seq<Event>, signature: string, lane: string)
    ensures FirstArrival(es, signature, lane) == FirstIn(Stream(es, lane), signature)
  {
    if es != [] {
      FirstArrivalIsOfTheStream(Front(es), signature, lane);
      var s := Stream(es, lane);
      if Last(es).Arrived? && Last(es).lane == lane {
        assert Front(s) == Stream(Front(es), lane) && Last(s) == Last(es).tx;
      } else {
        assert s == Stream(Front(es), lane);
      }
    }
  }

  /** A reported pair without the slot, which is whichever lane came first. */
  datatype Outcome = Outcome(signature: string, lane: string, lead: int)

  function Outcomes(ms: seq<MatchedTx>): seq<Outcome> {
    seq(|ms|, i requires 0 <= i < |ms| => Outcome(ms[i].signature, ms[i].lane, ms[i].lead))
  }

  lemma {:induction false} OutcomeTransfer(c: Config, a: seq<Event>, b: seq<Event>, o: Outcome)
    requires Run(c, a) && Run(c, b) && NoSweep(a) && NoSweep(b)
    requires forall l :: Stream(a, l) == Stream(b, l)
    requires o in Outcomes(Emitted(a))
    ensures o in Outcomes(Emitted(b))
  {
    var i :| 0 <= i < |Emitted(a)| && Outcomes(Emitted(a))[i] == o;
    var n := PairTransfer(c, a, b, Emitted(a)[i]);
    var j :| 0 <= j < |Emitted(b)| && Emitted(b)[j] == n;
    assert Outcomes(Emitted(b))[j] == o;
  }

  lemma PairTransfer(c: Config, a: seq<Event>, b: seq<Event>, m: MatchedTx) returns (n: MatchedTx)
    requires Run(c, a) && Run(c, b) && NoSweep(a) && NoSweep(b)
    requires forall l :: Stream(a, l) == Stream(b, l)
    requires m in Emitted(a)
    ensures n in Emitted(b) && JoinKey(n) == JoinKey(m) && n.lead == m.lead
  {
    ExactlyOnePairPerJoin(c, a);
    ExactlyOnePairPerJoin(c, b);
    SameFirst(a, b, m.signature, m.lane);
    SameFirst(a, b, m.signature, c.reference);
    assert Joins(c, a, m) && JoinKey(m) == (m.signature, m.lane);
    assert (m.signature, m.lane) in KeysOf(Emitted(b));
    n :| n in Emitted(b) && JoinKey(n) == (m.signature, m.lane);
    assert Joins(c, b, n);
  }

  lemma SameFirst(a: seq<Event>, b: seq<Event>, signature: string, lane: string)
    requires Stream(a, lane) == Stream(b, lane)
    ensures FirstArrival(a, signature, lane) == FirstArrival(b, signature, lane)
  {
    FirstArrivalIsOfTheStream(a, signature, lane);
    FirstArrivalIsOfTheStream(b, signature, lane);
  }

  lemma OutcomesDistinct(ms: seq<MatchedTx>)
    requires DistinctBy(ms, JoinKey)
    ensures NoDuplicates(Outcomes(ms))
  {
  }

  /** Processing order does not matter: two runs in which every lane delivered
      the same stream report the same pairs with the same leads. */
  lemma InterleavingsAgree(c: Config, a: seq<Event>, b: seq<Event>)
    requires Run(c, a) && Run(c, b) && NoSweep(a) && NoSweep(b)
    requires forall l :: Stream(a, l) == Stream(b, l)
    ensures multiset(Outcomes(Emitted(a))) == multiset(Outcomes(Emitted(b)))
  {
    forall o
      ensures o in Outcomes(Emitted(a)) <==> o in Outcomes(Emitted(b))
    {
      if o in Outcomes(Emitted(a)) {
        OutcomeTransfer(c, a, b, o);
      }
      if o in Outcomes(Emitted(b)) {
        OutcomeTransfer(c, b, a, o);
      }
    }
    ExactlyOnePairPerJoin(c, a);
    ExactlyOnePairPerJoin(c, b);
    OutcomesDistinct(Emitted(a));
    OutcomesDistinct(Emitted(b));
    SameMembersSameMultiset(Outcomes(Emitted(a)), Outcomes(Emitted(b)));
  }

  // ----- with eviction -----

  /** Signatures the lane delivered that are not yet paired with it. */
  function Waiting(st: RaceState, lane: string): set<string> {
    set s | s in st.pending && lane in st.pending[s].arrivals && lane !in st.pending[s].paired
  }

  /** Signatures the reference delivered and the lane has not. */
  function Missing(c: Config, st: RaceState, lane: string): set<string> {
    set s | s in st.pending && c.reference in st.pending[s].arrivals && lane !in st.pending[s].arrivals
  }

  /** The lane's books: nothing is credited that was not delivered. */
  ghost predicate BooksBalance(c: Config, st: RaceState, lane: string) {
    && Count(st.matched, lane) + |Waiting(st, lane)| <= Count(st.seen, lane)
    && Count(st.matched, lane) + |Missing(c, st, lane)| <= Count(st.seen, c.reference)
  }

  lemma SubsetSmaller<T>(a: set<T>, b: set<T>)
    requires a <= b
    ensures |a| <= |b|
  {
    assert b == a + (b - a);
  }

  lemma SweepBalances(c: Config, st: RaceState, now: Instant, lane: string)
    requires BooksBalance(c, st, lane)
    ensures BooksBalance(c, Evicted(st, now, c.window), lane)
  {
    var t := Evicted(st, now, c.window);
    SubsetSmaller(Waiting(t, lane), Waiting(st, lane));
    SubsetSmaller(Missing(c, t, lane), Missing(c, st, lane));
  }

  lemma WithWithout<T>(a: set<T>, b: set<T>, x: T)
    requires a - {x} == b - {x}
    ensures |a| + (if x in b then 1 else 0) == |b| + if x in a then 1 else 0
  {
    assert a == (a - {x}) + if x in a then {x} else {};
    assert b == (b - {x}) + if x in b then {x} else {};
  }

  lemma WaitingElsewhere(c: Config, st: RaceState, e: Event, lane: string)
    requires e.Arrived? && AllPairedRight(c, st) && lane != c.reference
    ensures var n, s, t := Noted(st.pending, e.lane, e.tx), e.tx.signature, Apply(c, st, e);
            && Waiting(t, lane) - {s} == Waiting(st, lane) - {s}
            && (s in Waiting(t, lane) <==> lane in n.arrivals && c.reference !in n.arrivals)
  {
  }

  /** Only the arriving signature can start or stop waiting. */
  lemma WaitingStep(c: Config, st: RaceState, e: Event, lane: string)
    requires e.Arrived? && AllPairedRight(c, st) && lane != c.reference
    ensures var n, t := Noted(st.pending, e.lane, e.tx), Apply(c, st, e);
            |Waiting(t, lane)| + (if lane in ReadyLanes(c.reference, n) then 1 else 0)
            <= |Waiting(st, lane)| + if e.lane == lane then 1 else 0
  {
    var n, s, t := Noted(st.pending, e.lane, e.tx), e.tx.signature, Apply(c, st, e);
    assert s in st.pending ==> PairedRight(c, st.pending[s]);
    WaitingElsewhere(c, st, e, lane);
    WithWithout(Waiting(t, lane), Waiting(st, lane), s);
  }

  lemma MissingStep(c: Config, st: RaceState, e: Event, lane: string)
    requires e.Arrived? && AllPairedRight(c, st) && lane != c.reference
    ensures var n, t := Noted(st.pending, e.lane, e.tx), Apply(c, st, e);
            |Missing(c, t, lane)| + (if lane in ReadyLanes(c.reference, n) then 1 else 0)
            <= |Missing(c, st, lane)| + if e.lane == c.reference then 1 else 0
  {
    var n, s, t := Noted(st.pending, e.lane, e.tx), e.tx.signature, Apply(c, st, e);
    MissingElsewhere(c, st, e, lane);
    WithWithout(Missing(c, t, lane), Missing(c, st, lane), s);
    MissingHere(c, st, e, lane);
  }

  lemma MissingElsewhere(c: Config, st: RaceState, e: Event, lane: string)
    requires e.Arrived?
    ensures var n, s, t := Noted(st.pending, e.lane, e.tx), e.tx.signature, Apply(c, st, e);
            && Missing(c, t, lane) - {s} == Missing(c, st, lane) - {s}
            && (s in Missing(c, t, lane) <==> lane !in n.arrivals && c.reference in n.arrivals)
  {
  }

  /** A lane made ready was missing, unless the reference is what just came. */
  lemma MissingHere(c: Config, st: RaceState, e: Event, lane: string)
    requires e.Arrived? && AllPairedRight(c, st) && lane != c.reference
    ensures var n, s := Noted(st.pending, e.lane, e.tx), e.tx.signature;
            (if lane !in n.arrivals && c.reference in n.arrivals then 1 else 0)
            + (if lane in ReadyLanes(c.reference, n) then 1 else 0)
            <= (if s in Missing(c, st, lane) then 1 else 0) + if e.lane == c.reference then 1 else 0
  {
    assert e.tx.signature in st.pending ==> PairedRight(c, st.pending[e.tx.signature]);
  }

  lemma ArrivalBalances(c: Config, st: RaceState, e: Event, lane: string)
    requires e.Arrived? && AllPairedRight(c, st) && lane != c.reference
    requires LanesOf(e.completed) == ReadyLanes(c.reference, Noted(st.pending, e.lane, e.tx))
    requires BooksBalance(c, st, lane)
    ensures BooksBalance(c, Apply(c, st, e), lane)
  {
    var t, n := Apply(c, st, e), Noted(st.pending, e.lane, e.tx);
    WaitingStep(c, st, e, lane);
    MissingStep(c, st, e, lane);
    CountersStep(c, st, e, lane);
  }

  lemma CountersStep(c: Config, st: RaceState, e: Event, lane: string)
    requires e.Arrived?
    requires LanesOf(e.completed) == ReadyLanes(c.reference, Noted(st.pending, e.lane, e.tx))
    ensures var t := Apply(c, st, e);
            && Count(t.matched, lane) == Count(st.matched, lane)
                 + (if lane in ReadyLanes(c.reference, Noted(st.pending, e.lane, e.tx)) then 1 else 0)
            && Count(t.seen, lane) == Count(st.seen, lane) + (if e.lane == lane then 1 else 0)
            && Count(t.seen, c.reference) == Count(st.seen, c.reference) + (if e.lane == c.reference then 1 else 0)
  {
  }

  /** Over every run of arrivals and sweeps, for every lane but the reference:
      what is matched plus what still waits for the reference never exceeds what
      the lane delivered, and what is matched plus what the lane still owes
      never exceeds what the reference delivered. */
  lemma {:induction false} BooksAlwaysBalance(c: Config, es: seq<Event>, lane: string)
    requires Run(c, es) && lane != c.reference
    ensures BooksBalance(c, After(c, es), lane)
  {
    if es == [] {
      assert Waiting(EMPTY, lane) == {} && Missing(c, EMPTY, lane) == {};
    } else {
      BooksAlwaysBalance(c, Front(es), lane);
      PairedAlways(c, Front(es));
      match Last(es)
      case Swept(now) => SweepBalances(c, After(c, Front(es)), now, lane);
      case Arrived(_, _, _, _) => ArrivalBalances(c, After(c, Front(es)), Last(es), lane);
    }
  }
}
