/** What every run of the duel book keeps, and why the order in which reports
    are processed does not show in it. */
module DuelRuns {
  import opened Prelude
  import opened Sorting
  import opened Lanes
  import opened Duels

  datatype Event = Reported(lane: string, found: Found) | Swept(now: Instant)

  ghost predicate Step(ttl: Duration, st: DuelState, e: Event, out: DuelState) {
    match e
    case Reported(lane, found) => Recorded(st, lane, found, out)
    case Swept(now) => out == Kept(st, now, ttl)
  }

  /** A book's states, one more than its events. */
  ghost predicate Run(ttl: Duration, es: seq<Event>, sts: seq<DuelState>) {
    && |sts| == |es| + 1 && sts[0] == NO_DUELS
    && forall i :: 0 <= i < |es| ==> Step(ttl, sts[i], es[i], sts[i + 1])
  }

  // ----- identity -----

  /** A pool address has no bar in it, so a key names one signature and pool. */
  lemma {:induction false} KeyIsInjective(a: Found, b: Found)
    requires KeyOf(a) == KeyOf(b)
    ensures a.triggerSignature == b.triggerSignature && a.pool == b.pool
  {
    var (s, t) := (a.triggerSignature, b.triggerSignature);
    if |s| < |t| {
      BarInside(s, a.pool, t, b.pool);
    } else if |t| < |s| {
      BarInside(t, b.pool, s, a.pool);
    } else {
      assert KeyOf(a)[..|s|] == s && KeyOf(b)[..|t|] == t;
      assert KeyOf(a)[|s| + 1..] == a.pool && KeyOf(b)[|t| + 1..] == b.pool;
    }
  }

  /** With the shorter signature, the other key's bar would lie in this pool. */
  lemma BarInside(s: string, p: string, t: string, q: string)
    requires |s| < |t| && s + "|" + p == t + "|" + q
    ensures '|' in p
  {
    var k := s + "|" + p;
    assert k[|t|] == '|' by { assert (t + "|" + q)[|t|] == '|'; }
    assert k[|t|] == p[|t| - |s| - 1];
  }

  // ----- one entry -----

  /** The verdict names this first lane and was measured against this second. */
  ghost predicate VerdictOn(e: Entry, f: string, s: string) {
    && TwoLeast(e.times, f, s)
    && e.duel.first == Some(f) && e.duel.headStart == Some(e.times[s] - e.times[f])
    && GapOf(e.duel.views, f).Some? && GapOf(e.duel.views, s).Some?
    && e.duel.gapLost == Some(GapOf(e.duel.views, f).value - GapOf(e.duel.views, s).value)
  }

  ghost predicate NoVerdict(d: Duel) { d.first.None? && d.headStart.None? && d.gapLost.None? }

  /** The verdict is the one the held times and views call for. */
  ghost predicate VerdictRight(e: Entry) {
    if |e.times| < 2 then NoVerdict(e.duel) else exists f, s :: VerdictOn(e, f, s)
  }

  function ViewLane(v: LaneView): string { v.lane }

  ghost predicate ViewsRight(e: Entry) {
    && DistinctBy(e.duel.views, ViewLane)
    && (forall l :: l in e.times <==> exists v :: v in e.duel.views && v.lane == l)
  }

  ghost predicate EntryRight(e: Entry) { e.times != map[] && ViewsRight(e) && VerdictRight(e) }

  lemma {:induction false} GapOfViewed(views: seq<LaneView>, lane: string)
    ensures GapOf(views, lane).Some? <==> exists v :: v in views && v.lane == lane
  {
    if views != [] {
      assert views == [views[0]] + views[1..];
      GapOfViewed(views[1..], lane);
    }
  }

  lemma {:induction false} GapOfAppend(views: seq<LaneView>, v: LaneView, lane: string)
    ensures GapOf(views + [v], lane)
         == if GapOf(views, lane).Some? then GapOf(views, lane)
            else if v.lane == lane then Some(AsI64(v.gapBps)) else None
  {
    if views != [] {
      GapOfAppend(views[1..], v, lane);
      assert (views + [v])[1..] == views[1..] + [v];
    }
  }

  lemma ViewsStep(e: Entry, lane: string, found: Found)
    requires ViewsRight(e) && lane !in e.times
    ensures ViewsRight(Viewed(e, lane, found))
  {
  }

  lemma JudgedRight(e: Entry, f: string, s: string)
    requires ViewsRight(e) && TwoLeast(e.times, f, s)
    ensures VerdictOn(Judged(e, f, s), f, s)
  {
    GapOfViewed(e.duel.views, f);
    GapOfViewed(e.duel.views, s);
  }

  /** The two duels are about the same event. */
  ghost predicate SameLabels(x: Duel, y: Duel) {
    x.signature == y.signature && x.slot == y.slot && x.pair == y.pair && x.pool == y.pool
  }

  lemma SettledRight(e: Entry, out: Entry)
    requires e.times != map[] && ViewsRight(e) && Settled(e, out)
    requires |e.times| < 2 ==> NoVerdict(e.duel)
    ensures EntryRight(out)
    ensures out.times == e.times && out.duel.views == e.duel.views && out.created == e.created
    ensures SameLabels(out.duel, e.duel)
  {
    if |e.times| >= 2 {
      var f, s :| TwoLeast(e.times, f, s) && out == Judged(e, f, s);
      JudgedRight(e, f, s);
    }
  }

  // ----- the whole book -----

  ghost predicate Structure(st: DuelState) {
    && NoDuplicates(st.order)
    && (forall k :: k in st.order <==> k in st.entries)
    && (forall k :: k in st.entries ==> EntryRight(st.entries[k]))
  }

  lemma OneOrMore(e: Entry, lane: string, found: Found)
    requires lane !in e.times
    requires e.times == map[] ==> NoVerdict(e.duel)
    ensures |Viewed(e, lane, found).times| < 2 ==> NoVerdict(Viewed(e, lane, found).duel)
  {
  }

  /** A report by a new lane leaves a right entry, and changes its verdict only. */
  lemma EntryKeeps(st: DuelState, lane: string, found: Found, e1: Entry)
    requires KeyOf(found) in st.entries ==> EntryRight(st.entries[KeyOf(found)])
    requires lane !in EntryFor(st, found).times && Settled(Viewed(EntryFor(st, found), lane, found), e1)
    ensures EntryRight(e1)
    ensures e1.times == EntryFor(st, found).times[lane := found.decidedAt]
    ensures e1.duel.views == EntryFor(st, found).duel.views + [ViewOf(lane, found)]
    ensures e1.created == EntryFor(st, found).created && SameLabels(e1.duel, EntryFor(st, found).duel)
  {
    var e := EntryFor(st, found);
    assert ViewsRight(e);
    ViewsStep(e, lane, found);
    OneOrMore(e, lane, found);
    SettledRight(Viewed(e, lane, found), e1);
  }

  lemma OrderKeeps(st: DuelState, key: string, order: seq<string>)
    requires NoDuplicates(st.order) && forall k :: k in st.order <==> k in st.entries
    requires order == if key in st.entries then st.order else st.order + [key]
    ensures NoDuplicates(order) && forall k :: k in order <==> k in st.entries || k == key
  {
  }

  /** A report writes one right entry, holding one more lane unless it is a
      repeat. */
  lemma RecordedEntry(st: DuelState, lane: string, found: Found, out: DuelState) returns (e1: Entry)
    requires KeyOf(found) in st.entries ==> EntryRight(st.entries[KeyOf(found)])
    requires Recorded(st, lane, found, out)
    ensures out.entries == st.entries[KeyOf(found) := e1] && EntryRight(e1)
    ensures e1.created == EntryFor(st, found).created && SameLabels(e1.duel, EntryFor(st, found).duel)
    ensures var e := EntryFor(st, found);
            if lane in e.times then e1 == e else
              e1.times == e.times[lane := found.decidedAt] && e1.duel.views == e.duel.views + [ViewOf(lane, found)]
  {
    var e := EntryFor(st, found);
    if lane in e.times {
      e1 := e;
    } else {
      e1 :| Settled(Viewed(e, lane, found), e1) && out.entries == st.entries[KeyOf(found) := e1];
      EntryKeeps(st, lane, found, e1);
    }
  }

  lemma WrittenKeeps(st: DuelState, key: string, e1: Entry, out: DuelState)
    requires Structure(st) && EntryRight(e1)
    requires out.entries == st.entries[key := e1]
    requires out.order == if key in st.entries then st.order else st.order + [key]
    ensures Structure(out)
  {
    OrderKeeps(st, key, out.order);
  }

  lemma ReportKeeps(st: DuelState, lane: string, found: Found, out: DuelState)
    requires Structure(st) && Recorded(st, lane, found, out)
    ensures Structure(out)
  {
    var e1 := RecordedEntry(st, lane, found, out);
    WrittenKeeps(st, KeyOf(found), e1, out);
  }

  lemma SweepKeeps(st: DuelState, now: Instant, ttl: Duration)
    requires Structure(st)
    ensures Structure(Kept(st, now, ttl))
  {
    var entries := Kept(st, now, ttl).entries;
    FilterMembers(st.order, (k: string) => k in entries);
    FilterNoDuplicates(st.order, (k: string) => k in entries);
  }

  lemma {:induction false} FilterNoDuplicates<T>(s: seq<T>, p: T -> bool)
    requires NoDuplicates(s)
    ensures NoDuplicates(Filter(s, p))
  {
    if s != [] {
      FilterNoDuplicates(Front(s), p);
      FilterMembers(Front(s), p);
    }
  }

  /** In every reachable book: the order vector lists the map's keys once each;
      every entry has one view per timed lane; and its verdict is there exactly
      when two lanes have reported, and is the one its times call for. */
  lemma {:induction false} BookIsAlwaysRight(ttl: Duration, es: seq<Event>, sts: seq<DuelState>, n: nat)
    requires Run(ttl, es, sts) && n <= |es|
    ensures Structure(sts[n])
  {
    if n > 0 {
      BookIsAlwaysRight(ttl, es, sts, n - 1);
      assert Step(ttl, sts[n - 1], es[n - 1], sts[n - 1 + 1]);
      match es[n - 1]
      case Reported(lane, found) => ReportKeeps(sts[n - 1], lane, found, sts[n]);
      case Swept(now) => SweepKeeps(sts[n - 1], now, ttl);
    }
  }

  /** The win counts add up to the number of paired duels. */
  lemma DecidedArePaired(st: DuelState)
    requires Structure(st)
    ensures Decided(st) == TimedTwice(st, st.entries.Keys)
  {
  }

  // ----- processing order -----

  ghost predicate NoSweep(es: seq<Event>) { forall e :: e in es ==> e.Reported? }

  datatype Report = Report(lane: string, found: Found)

  /** The reports on a key since its entry was opened, read off the events alone:
      a sweep so long after the first one's decision forgets them all. */
  function LifeOf(ttl: Duration, es: seq<Event>, key: string): seq<Report> {
    if es == [] then [] else
      var before := LifeOf(ttl, Front(es), key);
      match Last(es)
      case Reported(lane, found) => Extended(before, lane, found, key)
      case Swept(now) => Spared(ttl, before, now)
  }

  function Spared(ttl: Duration, life: seq<Report>, now: Instant): seq<Report> {
    if life != [] && SatSub(now, life[0].found.decidedAt) >= ttl then [] else life
  }

  function Extended(life: seq<Report>, who: string, found: Found, key: string): seq<Report> {
    if KeyOf(found) == key then life + [Report(who, found)] else life
  }

  /** A lane's first report in this life. */
  function FirstBy(life: seq<Report>, lane: string): Option<Found> {
    if life == [] then None else
      var before := FirstBy(Front(life), lane);
      if before.None? && Last(life).lane == lane then Some(Last(life).found) else before
  }

  function FirstReport(ttl: Duration, es: seq<Event>, key: string, lane: string): Option<Found> {
    FirstBy(LifeOf(ttl, es, key), lane)
  }

  function HeldTime(st: DuelState, key: string, lane: string): Option<Instant> {
    if key in st.entries && lane in st.entries[key].times then Some(st.entries[key].times[lane]) else None
  }

  function HeldGap(st: DuelState, key: string, lane: string): Option<int> {
    if key in st.entries then GapOf(st.entries[key].duel.views, lane) else None
  }

  ghost predicate HoldsFirst(life: seq<Report>, st: DuelState, key: string, lane: string) {
    var first := FirstBy(life, lane);
    if first.None? then HeldTime(st, key, lane).None? && HeldGap(st, key, lane).None?
    else HeldTime(st, key, lane) == Some(first.value.decidedAt)
         && HeldGap(st, key, lane) == Some(AsI64(first.value.gapBps))
  }

  /** What a report changes of what is held on any key by any lane. */
  lemma HeldStep(st: DuelState, who: string, found: Found, out: DuelState, key: string, lane: string)
    requires Structure(st) && Recorded(st, who, found, out)
    ensures var mine := key == KeyOf(found) && lane == who && HeldTime(st, key, lane).None?;
            && HeldTime(out, key, lane) == (if mine then Some(found.decidedAt) else HeldTime(st, key, lane))
            && (HeldGap(st, key, lane).Some? <==> HeldTime(st, key, lane).Some?)
            && HeldGap(out, key, lane) == (if mine then Some(AsI64(found.gapBps)) else HeldGap(st, key, lane))
  {
    HeldAlike(st, key, lane);
    var e1 := RecordedEntry(st, who, found, out);
    HeldWritten(st, who, found, out, e1, key, lane);
  }

  lemma HeldWritten(st: DuelState, who: string, found: Found, out: DuelState, e1: Entry, key: string, lane: string)
    requires out.entries == st.entries[KeyOf(found) := e1]
    requires HeldGap(st, key, lane).Some? <==> HeldTime(st, key, lane).Some?
    requires var e := EntryFor(st, found);
             if who in e.times then e1 == e else
               e1.times == e.times[who := found.decidedAt] && e1.duel.views == e.duel.views + [ViewOf(who, found)]
    ensures var mine := key == KeyOf(found) && lane == who && HeldTime(st, key, lane).None?;
            && HeldTime(out, key, lane) == (if mine then Some(found.decidedAt) else HeldTime(st, key, lane))
            && HeldGap(out, key, lane) == (if mine then Some(AsI64(found.gapBps)) else HeldGap(st, key, lane))
  {
    if key == KeyOf(found) {
      GapOfAppend(EntryFor(st, found).duel.views, ViewOf(who, found), lane);
    }
  }

  lemma HeldAlike(st: DuelState, key: string, lane: string)
    requires Structure(st)
    ensures HeldGap(st, key, lane).Some? <==> HeldTime(st, key, lane).Some?
  {
    if key in st.entries {
      assert EntryRight(st.entries[key]);
      GapOfViewed(st.entries[key].duel.views, lane);
    }
  }

  /** The entry is there exactly while a life of the key lasts, and dates from
      the life's first report. */
  ghost predicate OpenedBy(life: seq<Report>, st: DuelState, key: string) {
    && (key in st.entries <==> life != [])
    && (key in st.entries && life != [] ==> st.entries[key].created == life[0].found.decidedAt)
  }

  /** It holds each lane's first report in that life. */
  ghost predicate HoldsLife(life: seq<Report>, st: DuelState, key: string) {
    OpenedBy(life, st, key) && forall lane :: HoldsFirst(life, st, key, lane)
  }

  lemma ReportOpens(life: seq<Report>, st: DuelState, who: string, found: Found, out: DuelState, key: string)
    requires Structure(st) && OpenedBy(life, st, key) && Recorded(st, who, found, out)
    ensures OpenedBy(Extended(life, who, found, key), out, key)
  {
    var e1 := RecordedEntry(st, who, found, out);
  }

  lemma FirstOfExtended(life: seq<Report>, who: string, found: Found, key: string, lane: string)
    ensures FirstBy(Extended(life, who, found, key), lane)
         == if KeyOf(found) == key && lane == who && FirstBy(life, lane).None? then Some(found) else FirstBy(life, lane)
  {
    assert Front(life + [Report(who, found)]) == life;
  }

  lemma ReportHolds(life: seq<Report>, st: DuelState, who: string, found: Found, out: DuelState, key: string,
                    lane: string)
    requires Structure(st) && HoldsFirst(life, st, key, lane) && Recorded(st, who, found, out)
    ensures HoldsFirst(Extended(life, who, found, key), out, key, lane)
  {
    HeldStep(st, who, found, out, key, lane);
    FirstOfExtended(life, who, found, key, lane);
  }

  lemma SweepHolds(life: seq<Report>, st: DuelState, now: Instant, ttl: Duration, key: string)
    requires HoldsLife(life, st, key)
    ensures HoldsLife(Spared(ttl, life, now), Kept(st, now, ttl), key)
  {
    forall lane
      ensures HoldsFirst(Spared(ttl, life, now), Kept(st, now, ttl), key, lane)
    {
      assert HoldsFirst(life, st, key, lane);
    }
  }

  lemma LifeStep(ttl: Duration, life: seq<Report>, st: DuelState, e: Event, out: DuelState, key: string)
    requires Structure(st) && HoldsLife(life, st, key) && Step(ttl, st, e, out)
    ensures match e
            case Reported(who, found) => HoldsLife(Extended(life, who, found, key), out, key)
            case Swept(now) => HoldsLife(Spared(ttl, life, now), out, key)
  {
    match e
    case Swept(now) => SweepHolds(life, st, now, ttl, key);
    case Reported(who, found) =>
      ReportOpens(life, st, who, found, out, key);
      forall lane
        ensures HoldsFirst(Extended(life, who, found, key), out, key, lane)
      {
        ReportHolds(life, st, who, found, out, key, lane);
      }
  }

  /** Over every run, sweeps included, what a book holds of a key is each lane's
      first report in the life of it that lasts, whatever else was processed in
      between and in whatever order. */
  lemma {:induction false} FirstReportsAreHeld(ttl: Duration, es: seq<Event>, sts: seq<DuelState>, key: string)
    requires Run(ttl, es, sts)
    ensures HoldsLife(LifeOf(ttl, es, key), Last(sts), key)
  {
    if es != [] {
      var n := |es| - 1;
      assert Step(ttl, sts[n], es[n], sts[n + 1]);
      FirstReportsAreHeld(ttl, Front(es), Front(sts), key);
      BookIsAlwaysRight(ttl, es, sts, n);
      LifeStep(ttl, LifeOf(ttl, Front(es), key), sts[n], es[n], sts[n + 1], key);
    }
  }

  /** Every lane's first report in the lasting life of the key is the same. */
  ghost predicate SameFirsts(ttl: Duration, a: seq<Event>, b: seq<Event>, key: string) {
    forall l :: var (x, y) := (FirstReport(ttl, a, key, l), FirstReport(ttl, b, key, l));
                (x.Some? <==> y.Some?) &&
                (x.Some? ==> x.value.decidedAt == y.value.decidedAt && x.value.gapBps == y.value.gapBps)
  }

  ghost predicate SameVerdict(x: Duel, y: Duel) {
    x.first == y.first && x.headStart == y.headStart && x.gapLost == y.gapLost
  }

  lemma SameTimes(ttl: Duration, a: seq<Event>, sa: seq<DuelState>, b: seq<Event>, sb: seq<DuelState>, key: string)
    requires Run(ttl, a, sa) && Run(ttl, b, sb) && SameFirsts(ttl, a, b, key)
    requires key in Last(sa).entries
    ensures key in Last(sb).entries
    ensures Last(sa).entries[key].times == Last(sb).entries[key].times
    ensures forall l :: l in Last(sa).entries[key].times ==>
              GapOf(Last(sa).entries[key].duel.views, l) == GapOf(Last(sb).entries[key].duel.views, l)
  {
    FirstReportsAreHeld(ttl, a, sa, key);
    FirstReportsAreHeld(ttl, b, sb, key);
    forall l
      ensures HeldTime(Last(sa), key, l) == HeldTime(Last(sb), key, l)
      ensures HeldGap(Last(sa), key, l) == HeldGap(Last(sb), key, l)
    {
      assert HoldsFirst(LifeOf(ttl, a, key), Last(sa), key, l) && HoldsFirst(LifeOf(ttl, b, key), Last(sb), key, l);
      assert FirstReport(ttl, a, key, l).Some? <==> FirstReport(ttl, b, key, l).Some?;
    }
    BookIsAlwaysRight(ttl, a, sa, |a|);
    BookIsAlwaysRight(ttl, b, sb, |b|);
    var e := Last(sa).entries[key];
    assert EntryRight(e);
    var l :| l in e.times;
    assert HeldTime(Last(sa), key, l).Some?;
    TimesEqual(Last(sa), Last(sb), key);
  }

  lemma TimesEqual(x: DuelState, y: DuelState, key: string)
    requires key in x.entries && key in y.entries
    requires forall l :: HeldTime(x, key, l) == HeldTime(y, key, l)
    requires forall l :: HeldGap(x, key, l) == HeldGap(y, key, l)
    ensures x.entries[key].times == y.entries[key].times
    ensures forall l :: GapOf(x.entries[key].duel.views, l) == GapOf(y.entries[key].duel.views, l)
  {
    var (s, t) := (x.entries[key].times, y.entries[key].times);
    forall l
      ensures l in s <==> l in t
      ensures l in s && l in t ==> s[l] == t[l]
    {
      assert HeldTime(x, key, l) == HeldTime(y, key, l);
    }
    forall l
      ensures GapOf(x.entries[key].duel.views, l) == GapOf(y.entries[key].duel.views, l)
    {
      assert HeldGap(x, key, l) == HeldGap(y, key, l);
    }
  }

  /** The two earliest decisions happened at different moments, and before any
      third: later lanes may tie among themselves. */
  ghost predicate NoTie(times: map<string, Instant>) {
    exists f, s :: ClearlyFirst(times, f, s)
  }

  ghost predicate ClearlyFirst(times: map<string, Instant>, f: string, s: string) {
    && f in times && s in times && times[f] < times[s]
    && forall l :: l in times && l != f && l != s ==> times[s] < times[l]
  }

  /** Order independence. Two runs, sweeps included, in which every lane's first
      report in the lasting life of a key is the same -- in whatever order, with
      whatever repeats and whatever reports on other keys in between -- agree on
      the key's head start; and on who was first and what the wait cost too,
      unless the first two places tie. */
  lemma VerdictIgnoresOrder(ttl: Duration, a: seq<Event>, sa: seq<DuelState>, b: seq<Event>, sb: seq<DuelState>,
                            key: string)
    requires Run(ttl, a, sa) && Run(ttl, b, sb) && SameFirsts(ttl, a, b, key)
    requires key in Last(sa).entries
    ensures key in Last(sb).entries
    ensures Last(sa).entries[key].duel.headStart == Last(sb).entries[key].duel.headStart
    ensures NoTie(Last(sa).entries[key].times) ==>
              SameVerdict(Last(sa).entries[key].duel, Last(sb).entries[key].duel)
  {
    SameTimes(ttl, a, sa, b, sb, key);
    BookIsAlwaysRight(ttl, a, sa, |a|);
    BookIsAlwaysRight(ttl, b, sb, |b|);
    VerdictsAgree(Last(sa).entries[key], Last(sb).entries[key]);
  }

  lemma VerdictsAgree(x: Entry, y: Entry)
    requires EntryRight(x) && EntryRight(y) && x.times == y.times
    requires forall l :: l in x.times ==> GapOf(x.duel.views, l) == GapOf(y.duel.views, l)
    ensures x.duel.headStart == y.duel.headStart
    ensures NoTie(x.times) ==> SameVerdict(x.duel, y.duel)
  {
    if |x.times| >= 2 {
      var f, s :| VerdictOn(x, f, s);
      var g, t :| VerdictOn(y, g, t);
      LeastAgree(x.times, f, s, g, t);
      OneVerdict(x, y, f, s, g, t);
    }
  }

  lemma OneVerdict(x: Entry, y: Entry, f: string, s: string, g: string, t: string)
    requires VerdictOn(x, f, s) && VerdictOn(y, g, t) && x.times == y.times
    requires forall l :: l in x.times ==> GapOf(x.duel.views, l) == GapOf(y.duel.views, l)
    requires x.times[f] == x.times[g] && x.times[s] == x.times[t]
    ensures x.duel.headStart == y.duel.headStart
    ensures f == g && s == t ==> SameVerdict(x.duel, y.duel)
  {
  }

  lemma LeastAgree(times: map<string, Instant>, f: string, s: string, g: string, t: string)
    requires TwoLeast(times, f, s) && TwoLeast(times, g, t)
    ensures times[f] == times[g] && times[s] == times[t]
    ensures NoTie(times) ==> f == g && s == t
  {
    if a, b :| ClearlyFirst(times, a, b) {
      assert f == a == g;
    }
  }

  lemma FirstIsLeast(e: Entry, lane: string)
    requires EntryRight(e) && e.duel.first == Some(lane)
    ensures lane in e.times && forall l :: l in e.times ==> e.times[lane] <= e.times[l]
  {
  }

  /** The winner's first report in the lasting life is the earliest of all. */
  lemma FirstIsTheEarliest(ttl: Duration, es: seq<Event>, sts: seq<DuelState>, key: string, lane: string)
    requires Run(ttl, es, sts)
    requires key in Last(sts).entries && Last(sts).entries[key].duel.first == Some(lane)
    ensures FirstReport(ttl, es, key, lane).Some?
    ensures forall l :: FirstReport(ttl, es, key, l).Some? ==>
              FirstReport(ttl, es, key, lane).value.decidedAt <= FirstReport(ttl, es, key, l).value.decidedAt
  {
    BookIsAlwaysRight(ttl, es, sts, |es|);
    var life, e := LifeOf(ttl, es, key), Last(sts).entries[key];
    FirstIsLeast(e, lane);
    FirstReportsAreHeld(ttl, es, sts, key);
    assert HoldsFirst(life, Last(sts), key, lane);
    forall l | FirstBy(life, l).Some?
      ensures FirstBy(life, lane).value.decidedAt <= FirstBy(life, l).value.decidedAt
    {
      assert HoldsFirst(life, Last(sts), key, l);
    }
  }

  /** What a lane reported, in its own order. */
  function ReportsOf(es: seq<Event>, lane: string): seq<Found> {
    if es == [] then [] else
      ReportsOf(Front(es), lane) + if Last(es).Reported? && Last(es).lane == lane then [Last(es).found] else []
  }

  function FirstOn(fs: seq<Found>, key: string): Option<Found> {
    if fs == [] then None else
      var before := FirstOn(Front(fs), key);
      if before.None? && KeyOf(Last(fs)) == key then Some(Last(fs)) else before
  }

  /** Without sweeps a key has one life. */
  lemma {:induction false} FirstReportIsOfTheLane(ttl: Duration, es: seq<Event>, key: string, lane: string)
    requires NoSweep(es)
    ensures FirstReport(ttl, es, key, lane) == FirstOn(ReportsOf(es, lane), key)
  {
    if es != [] {
      assert Last(es) in es;
      FirstReportIsOfTheLane(ttl, Front(es), key, lane);
      FirstOfExtended(LifeOf(ttl, Front(es), key), Last(es).lane, Last(es).found, key, lane);
      var s := ReportsOf(es, lane);
      if Last(es).lane == lane {
        assert Front(s) == ReportsOf(Front(es), lane) && Last(s) == Last(es).found;
      } else {
        assert s == ReportsOf(Front(es), lane);
      }
    }
  }

  /** Any interleaving of the same per-lane reports, before anything is swept,
      has the same first reports. */
  lemma InterleavingsHaveSameFirsts(ttl: Duration, a: seq<Event>, b: seq<Event>, key: string)
    requires NoSweep(a) && NoSweep(b) && forall l :: ReportsOf(a, l) == ReportsOf(b, l)
    ensures SameFirsts(ttl, a, b, key)
  {
    forall l
      ensures FirstReport(ttl, a, key, l) == FirstReport(ttl, b, key, l)
    {
      FirstReportIsOfTheLane(ttl, a, key, l);
      FirstReportIsOfTheLane(ttl, b, key, l);
    }
  }
}
