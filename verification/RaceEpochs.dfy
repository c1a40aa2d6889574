/** What a run of the race reports once old signatures are forgotten: a
    signature lives in epochs, and each epoch pairs a lane at most once. */
module RaceEpochs {
  import opened Prelude
  import opened Sorting
  import opened Races
  import opened RaceRuns
  import opened RaceWindow

  datatype Arrival = Arrival(lane: string, tx: SeenTx)

  /** One life of a signature: its arrivals, and whether it still lasts. */
  datatype Epoch = Epoch(arrivals: seq<Arrival>, lasts: bool)

  /** The lives of a signature, read off the events alone: one begins with the
      first arrival while none lasts, and ends with the first sweep a minute or
      more after the time stamped on that arrival. */
  function Epochs(es: seq<Event>, signature: string): (lives: seq<Epoch>)
    ensures forall l :: l in lives ==> l.arrivals != []
  {
    if es == [] then [] else
      var before := Epochs(Front(es), signature);
      var remembered := before != [] && Last(before).lasts;
      match Last(es)
      case Arrived(lane, tx, _, _) =>
        if tx.signature != signature then before
        else if remembered then Front(before) + [Epoch(Last(before).arrivals + [Arrival(lane, tx)], true)]
        else before + [Epoch([Arrival(lane, tx)], true)]
      case Swept(now) =>
        if remembered && SatSub(now, Last(before).arrivals[0].tx.at) >= PENDING_TTL
        then Front(before) + [Last(before).(lasts := false)] else before
  }

  /** When the lane first delivered the signature in this life. */
  function FirstOf(arrivals: seq<Arrival>, lane: string): Option<Instant> {
    if arrivals == [] then None else
      var before := FirstOf(Front(arrivals), lane);
      if before.None? && Last(arrivals).lane == lane then Some(Last(arrivals).tx.at) else before
  }

  /** Both the lane and the reference delivered in this life. */
  predicate Joined(c: Config, arrivals: seq<Arrival>, lane: string) {
    lane != c.reference && FirstOf(arrivals, lane).Some? && FirstOf(arrivals, c.reference).Some?
  }

  /** The one pair a life is worth: the slot of the arrival that began it, and
      the lane's first arrival less the reference's. */
  function PairOf(c: Config, signature: string, lane: string, arrivals: seq<Arrival>): MatchedTx
    requires arrivals != [] && Joined(c, arrivals, lane)
  {
    MatchedTx(signature, arrivals[0].tx.slot, lane,
              FirstOf(arrivals, lane).value - FirstOf(arrivals, c.reference).value)
  }

  /** One pair for each life in which both delivered, in order. */
  function PairsOf(c: Config, signature: string, lane: string, lives: seq<Epoch>): seq<MatchedTx>
    requires forall l :: l in lives ==> l.arrivals != []
  {
    if lives == [] then [] else
      assert Last(lives) in lives;
      PairsOf(c, signature, lane, Front(lives)) +
      if Joined(c, Last(lives).arrivals, lane) then [PairOf(c, signature, lane, Last(lives).arrivals)] else []
  }

  function Of(signature: string, lane: string): MatchedTx -> bool {
    (m: MatchedTx) => JoinKey(m) == (signature, lane)
  }

  // ----- an entry is the life that lasts -----

  /** A signature is remembered exactly while a life of it lasts, and its entry
      holds that life's opening slot and time and each lane's first arrival. */
  ghost predicate IsItsEpoch(st: RaceState, lives: seq<Epoch>, signature: string)
    requires forall l :: l in lives ==> l.arrivals != []
  {
    && (signature in st.pending <==> lives != [] && Last(lives).lasts)
    && (signature in st.pending ==>
          var e, life := st.pending[signature], Last(lives).arrivals;
          && life != [] && e.slot == life[0].tx.slot && e.created == life[0].tx.at
          && forall lane :: FirstOf(life, lane) == Held(st, signature, lane))
  }

  lemma {:induction false} EntriesAreTheirEpochs(c: Config, es: seq<Event>, signature: string)
    ensures IsItsEpoch(After(c, es), Epochs(es, signature), signature)
  {
    if es != [] {
      EntriesAreTheirEpochs(c, Front(es), signature);
      EpochStep(c, es, signature);
    }
  }

  lemma EpochStep(c: Config, es: seq<Event>, signature: string)
    requires es != [] && IsItsEpoch(After(c, Front(es)), Epochs(Front(es), signature), signature)
    ensures IsItsEpoch(After(c, es), Epochs(es, signature), signature)
  {
    var st, t := After(c, Front(es)), After(c, es);
    var before, lives := Epochs(Front(es), signature), Epochs(es, signature);
    if Last(es).Arrived? && Last(es).tx.signature == signature {
      var life := Last(lives).arrivals;
      forall lane
        ensures FirstOf(life, lane) == Held(t, signature, lane)
      {
        assert Last(life) == Arrival(Last(es).lane, Last(es).tx);
        assert signature in st.pending ==> Front(life) == Last(before).arrivals;
        assert Held(st, signature, lane) == if signature in st.pending then FirstOf(Front(life), lane) else None;
      }
    }
  }

  // ----- what is reported -----

  lemma {:induction false} OnlyOne(ms: seq<MatchedTx>, m: MatchedTx)
    requires DistinctBy(ms, JoinKey) && m in ms
    ensures Filter(ms, Of(m.signature, m.lane)) == [m]
  {
    var last := Last(ms);
    assert ms == Front(ms) + [last];
    if last == m {
      FilterNone(Front(ms), Of(m.signature, m.lane));
    } else {
      assert DistinctBy(Front(ms), JoinKey);
      OnlyOne(Front(ms), m);
      var i :| 0 <= i < |ms| - 1 && ms[i] == m;
      assert JoinKey(ms[i]) != JoinKey(ms[|ms| - 1]);
    }
  }

  /** An arrival reports the lane's pair exactly when it makes the lane ready. */
  lemma CompletedOf(c: Config, st: RaceState, e: Event, signature: string, lane: string)
    requires e.Arrived? && Legal(c, st, e)
    ensures var n := Noted(st.pending, e.lane, e.tx);
            Filter(e.completed, Of(signature, lane))
            == if e.tx.signature == signature && lane in ReadyLanes(c.reference, n)
               then [MatchedTx(signature, n.slot, lane, Lead(n.arrivals[c.reference], n.arrivals[lane]))] else []
  {
    var n := Noted(st.pending, e.lane, e.tx);
    EmittedStep(c, st, e);
    if e.tx.signature == signature && lane in ReadyLanes(c.reference, n) {
      assert lane in LanesOf(e.completed);
      var m :| m in e.completed && m.lane == lane;
      OnlyOne(e.completed, m);
    } else {
      FilterNone(e.completed, Of(signature, lane));
    }
  }

  /** One more arrival in a life changes nothing of what it was worth before. */
  lemma WorthOnce(c: Config, signature: string, lane: string, life: seq<Arrival>, a: Arrival)
    requires life != [] && Joined(c, life, lane)
    ensures Joined(c, life + [a], lane)
    ensures PairOf(c, signature, lane, life + [a]) == PairOf(c, signature, lane, life)
  {
    assert Front(life + [a]) == life;
  }

  /** The lane is ready exactly when this arrival is what joins it. */
  lemma ReadyIsJoined(c: Config, es: seq<Event>, signature: string, lane: string)
    requires es != [] && Last(es).Arrived? && Last(es).tx.signature == signature
    ensures var n := Noted(After(c, Front(es)).pending, Last(es).lane, Last(es).tx);
            var before, life := Epochs(Front(es), signature), Last(Epochs(es, signature)).arrivals;
            && (lane in ReadyLanes(c.reference, n)
                <==> Joined(c, life, lane)
                     && !(before != [] && Last(before).lasts && Joined(c, Last(before).arrivals, lane)))
            && (lane in ReadyLanes(c.reference, n) ==>
                  MatchedTx(signature, n.slot, lane, Lead(n.arrivals[c.reference], n.arrivals[lane]))
                  == PairOf(c, signature, lane, life))
  {
    var st := After(c, Front(es));
    EntriesAreTheirEpochs(c, Front(es), signature);
    EntriesAreTheirEpochs(c, es, signature);
    PairedAlways(c, Front(es));
    assert signature in st.pending ==> PairedRight(c, st.pending[signature]);
    assert Held(st, signature, lane).Some? ==> FirstOf(Last(Epochs(Front(es), signature)).arrivals, lane).Some?;
    assert Held(After(c, es), signature, lane) == FirstOf(Last(Epochs(es, signature)).arrivals, lane);
    assert Held(After(c, es), signature, c.reference) == FirstOf(Last(Epochs(es, signature)).arrivals, c.reference);
  }

  lemma ArrivalIsWorth(c: Config, es: seq<Event>, signature: string, lane: string)
    requires es != [] && Last(es).Arrived? && Legal(c, After(c, Front(es)), Last(es))
    ensures PairsOf(c, signature, lane, Epochs(es, signature))
         == PairsOf(c, signature, lane, Epochs(Front(es), signature)) + Filter(Last(es).completed, Of(signature, lane))
  {
    var before, lives := Epochs(Front(es), signature), Epochs(es, signature);
    CompletedOf(c, After(c, Front(es)), Last(es), signature, lane);
    if Last(es).tx.signature == signature {
      ReadyIsJoined(c, es, signature, lane);
      if before != [] && Last(before).lasts {
        assert Front(lives) == Front(before);
        if Joined(c, Last(before).arrivals, lane) {
          WorthOnce(c, signature, lane, Last(before).arrivals, Arrival(Last(es).lane, Last(es).tx));
        }
      } else {
        assert Front(lives) == before;
      }
    }
  }

  lemma SweepIsWorthNothing(c: Config, es: seq<Event>, signature: string, lane: string)
    requires es != [] && Last(es).Swept?
    ensures PairsOf(c, signature, lane, Epochs(es, signature))
             == PairsOf(c, signature, lane, Epochs(Front(es), signature))
  {
    var before, lives := Epochs(Front(es), signature), Epochs(es, signature);
    if lives != before {
      assert Front(lives) == Front(before);
    }
  }

  /** The join theorem with forgetting. Over every run of arrivals and sweeps,
      what is reported of a signature and lane is, in order, one pair for each
      life of the signature in which that lane and the reference both delivered,
      with the slot that began the life and the difference of its two first
      arrivals; and nothing else. */
  lemma {:induction false} OnePairPerEpoch(c: Config, es: seq<Event>, signature: string, lane: string)
    requires Run(c, es)
    ensures Filter(Emitted(es), Of(signature, lane)) == PairsOf(c, signature, lane, Epochs(es, signature))
  {
    if es != [] {
      OnePairPerEpoch(c, Front(es), signature, lane);
      if Last(es).Arrived? {
        ArrivalIsWorth(c, es, signature, lane);
        FilterAppend(Emitted(Front(es)), Last(es).completed, Of(signature, lane));
      } else {
        SweepIsWorthNothing(c, es, signature, lane);
        assert Emitted(es) == Emitted(Front(es));
      }
    }
  }

  /** The lives in which both delivered. */
  function JoinedLives(c: Config, lives: seq<Epoch>, lane: string): nat {
    |Filter(lives, (l: Epoch) => Joined(c, l.arrivals, lane))|
  }

  lemma {:induction false} PairsAreCounted(c: Config, signature: string, lane: string, lives: seq<Epoch>)
    requires forall l :: l in lives ==> l.arrivals != []
    ensures |PairsOf(c, signature, lane, lives)| == JoinedLives(c, lives, lane)
  {
    if lives != [] {
      PairsAreCounted(c, signature, lane, Front(lives));
    }
  }

  lemma {:induction false} RepeatIsTwice(ms: seq<MatchedTx>, k: (string, string))
    ensures |Filter(ms, Of(k.0, k.1))| > 1 <==>
              exists i, j :: 0 <= i < j < |ms| && JoinKey(ms[i]) == JoinKey(ms[j]) == k
    ensures |Filter(ms, Of(k.0, k.1))| > 0 <==> exists i :: 0 <= i < |ms| && JoinKey(ms[i]) == k
  {
    if ms != [] {
      RepeatIsTwice(Front(ms), k);
      assert forall i :: 0 <= i < |ms| - 1 ==> Front(ms)[i] == ms[i];
    }
  }

  /** A run reports no pair twice if and only if no signature has two lives in
      which the same lane and the reference both delivered. */
  lemma PairedOnceExactly(c: Config, es: seq<Event>)
    requires Run(c, es)
    ensures DistinctBy(Emitted(es), JoinKey)
       <==> forall signature, lane :: JoinedLives(c, Epochs(es, signature), lane) <= 1
  {
    var ms := Emitted(es);
    forall signature, lane
      ensures JoinedLives(c, Epochs(es, signature), lane) > 1
         <==> exists i, j :: 0 <= i < j < |ms| && JoinKey(ms[i]) == JoinKey(ms[j]) == (signature, lane)
    {
      OnePairPerEpoch(c, es, signature, lane);
      PairsAreCounted(c, signature, lane, Epochs(es, signature));
      RepeatIsTwice(ms, (signature, lane));
    }
    if i, j :| 0 <= i < j < |ms| && JoinKey(ms[i]) == JoinKey(ms[j]) {
      assert JoinedLives(c, Epochs(es, ms[i].signature), ms[i].lane) > 1;
    }
  }

  lemma OneMore(c: Config, es: seq<Event>, e: Event)
    requires Run(c, es) && Legal(c, After(c, es), e) && Monotone(es) && Clock(es) <= e.now
    ensures Run(c, es + [e]) && After(c, es + [e]) == Apply(c, After(c, es), e)
    ensures Monotone(es + [e]) && Clock(es + [e]) == e.now
    ensures Emitted(es + [e]) == Emitted(es) + if e.Arrived? then e.completed else []
  {
    assert Front(es + [e]) == es;
  }

  /** The reference delivers a forgotten signature and then the lane does. */
  function BothDeliver(c: Config, lane: string, tx: SeenTx): seq<Event> {
    [Arrived(c.reference, tx, tx.at, []), Arrived(lane, tx, tx.at, [MatchedTx(tx.signature, tx.slot, lane, 0)])]
  }

  lemma BothArePaired(c: Config, es: seq<Event>, lane: string, tx: SeenTx)
    requires Run(c, es) && lane != c.reference && tx.signature !in After(c, es).pending
    requires Monotone(es) && Clock(es) <= tx.at
    ensures var out := es + BothDeliver(c, lane, tx); Monotone(out) && Clock(out) == tx.at
    ensures var out := es + BothDeliver(c, lane, tx);
            && Run(c, out) && Emitted(out) == Emitted(es) + [MatchedTx(tx.signature, tx.slot, lane, 0)]
            && tx.signature in After(c, out).pending && After(c, out).pending[tx.signature].created == tx.at
  {
    var both := BothDeliver(c, lane, tx);
    ReferenceIsNoted(c, After(c, es), tx);
    OneMore(c, es, both[0]);
    LaneIsReady(c, After(c, es + [both[0]]), lane, tx);
    OneMore(c, es + [both[0]], both[1]);
    assert es + [both[0]] + [both[1]] == es + both;
    assert Emitted(es) + [] + both[1].completed == Emitted(es) + [MatchedTx(tx.signature, tx.slot, lane, 0)];
  }

  lemma ReferenceIsNoted(c: Config, st: RaceState, tx: SeenTx)
    requires tx.signature !in st.pending
    ensures var e, t := Arrived(c.reference, tx, tx.at, []), Apply(c, st, Arrived(c.reference, tx, tx.at, []));
            && Legal(c, st, e) && tx.signature in t.pending
            && t.pending[tx.signature] == Pending(tx.slot, map[c.reference := tx.at], {}, tx.at)
  {
  }

  lemma LaneIsReady(c: Config, st: RaceState, lane: string, tx: SeenTx)
    requires lane != c.reference && tx.signature in st.pending
    requires st.pending[tx.signature] == Pending(tx.slot, map[c.reference := tx.at], {}, tx.at)
    ensures var e := BothDeliver(c, lane, tx)[1];
            && Legal(c, st, e) && tx.signature in Apply(c, st, e).pending
            && Apply(c, st, e).pending[tx.signature].created == tx.at
  {
    var m := MatchedTx(tx.signature, tx.slot, lane, 0);
    assert ReadyLanes(c.reference, Noted(st.pending, lane, tx)) == {lane};
    assert m in [m];
  }

  /** An input on which a pair is reported twice, with a clock that never runs
      backwards: both lanes deliver a signature, a sweep a minute later forgets
      it, and both deliver it again at that moment. */
  lemma ReportedTwice(c: Config, lane: string, tx: SeenTx)
    requires lane != c.reference
    ensures var later := tx.(at := tx.at + PENDING_TTL);
            var es := BothDeliver(c, lane, tx) + [Swept(later.at)] + BothDeliver(c, lane, later);
            var m := MatchedTx(tx.signature, tx.slot, lane, 0);
            Run(c, es) && Monotone(es) && Emitted(es) == [m, m]
  {
    var once, later := BothDeliver(c, lane, tx), tx.(at := tx.at + PENDING_TTL);
    BothArePaired(c, [], lane, tx);
    assert [] + once == once;
    Forgets(c, once, tx.signature, tx.at);
    BothArePaired(c, once + [Swept(later.at)], lane, later);
  }

  lemma Forgets(c: Config, es: seq<Event>, signature: string, at: Instant)
    requires Run(c, es) && signature in After(c, es).pending && After(c, es).pending[signature].created == at
    requires Monotone(es) && Clock(es) <= at + PENDING_TTL
    ensures var out := es + [Swept(at + PENDING_TTL)]; Monotone(out) && Clock(out) == at + PENDING_TTL
    ensures var out := es + [Swept(at + PENDING_TTL)];
            Run(c, out) && Emitted(out) == Emitted(es) && signature !in After(c, out).pending
  {
    OneMore(c, es, Swept(at + PENDING_TTL));
  }
}
