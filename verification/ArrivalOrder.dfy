/** When the printed minimum depends on the order in which the generators' intervals arrive: latencies
    below a microsecond hide the round they fall into, and rounds are formed by arrival. */
module ArrivalOrder {
  import opened Basics
  import opened MovingAverage
  import opened StatsModel
  import opened Rounds

  /** An interval's minimum as displayed, in whole microseconds: zero hides it, and `U64_MAX` is "none". */
  function Floor(iv: Interval): nat {
    Micros(Min(iv.minLatency, NO_MIN))
  }

  /** The intervals whose minimum is displayed as `f` microseconds. */
  function OfFloor(s: seq<Interval>, f: nat): seq<Interval> {
    if s == [] then []
    else OfFloor(s[..|s| - 1], f) + if Floor(s[|s| - 1]) == f then [s[|s| - 1]] else []
  }

  function FloorCount(s: seq<Interval>, f: nat): nat {
    |OfFloor(s, f)|
  }

  /** The lower of two minima, of which the second may be hidden. */
  function Lower(least: nat, floor: nat): nat {
    if floor == 0 then least else Min(least, floor)
  }

  /** The least minimum that is not hidden. */
  function LeastFloor(s: seq<Interval>): nat {
    if s == [] then U64_MAX else Lower(LeastFloor(s[..|s| - 1]), Floor(s[|s| - 1]))
  }

  // ---------------------------------------------------------------- counting minima

  lemma {:induction false} CountAppend(a: seq<Interval>, b: seq<Interval>, f: nat)
    ensures FloorCount(a + b, f) == FloorCount(a, f) + FloorCount(b, f)
  {
    if b == [] {
      assert a + b == a;
    } else {
      CountAppend(a, b[..|b| - 1], f);
      assert (a + b)[..|a + b| - 1] == a + b[..|b| - 1];
    }
  }

  lemma {:induction false} LeastAppend(a: seq<Interval>, b: seq<Interval>)
    ensures LeastFloor(a + b) == Min(LeastFloor(a), LeastFloor(b))
    ensures 0 < LeastFloor(a) <= U64_MAX
  {
    if b == [] {
      assert a + b == a;
      LeastMeans(a, 0);
    } else {
      LeastAppend(a, b[..|b| - 1]);
      assert (a + b)[..|a + b| - 1] == a + b[..|b| - 1];
    }
  }

  lemma {:induction false} LeastMeans(s: seq<Interval>, f: nat)
    ensures 0 < LeastFloor(s) <= U64_MAX
    ensures f > 0 && FloorCount(s, f) > 0 ==> LeastFloor(s) <= f
    ensures LeastFloor(s) < U64_MAX ==> FloorCount(s, LeastFloor(s)) > 0
  {
    if s != [] {
      LeastMeans(s[..|s| - 1], f);
    }
  }

  lemma {:induction false} TwoCounts(s: seq<Interval>, f: nat, g: nat)
    requires f != g
    ensures FloorCount(s, f) + FloorCount(s, g) <= |s|
  {
    if s != [] {
      TwoCounts(s[..|s| - 1], f, g);
    }
  }

  /** What a round displays: nothing if it holds a hidden minimum, else the least of its minima. */
  lemma {:induction false} RoundFloor(s: seq<Interval>)
    ensures Micros(MinNs(s)) == if FloorCount(s, 0) > 0 then 0 else LeastFloor(s)
    ensures MinNs(s) <= NO_MIN
  {
    if s != [] {
      RoundFloor(s[..|s| - 1]);
    }
  }

  lemma CountOne(iv: Interval, f: nat)
    ensures FloorCount([iv], f) == if Floor(iv) == f then 1 else 0
  {
    hide Floor;
    assert OfFloor([iv][..0], f) == [];
  }

  lemma CountRemove(s: seq<Interval>, k: nat, f: nat)
    requires k < |s|
    ensures FloorCount(s, f) == FloorCount(s[..k] + s[k + 1..], f) + if Floor(s[k]) == f then 1 else 0
  {
    hide FloorCount, Floor;
    assert s == s[..k] + ([s[k]] + s[k + 1..]);
    CountAppend(s[..k], [s[k]] + s[k + 1..], f);
    CountAppend([s[k]], s[k + 1..], f);
    CountAppend(s[..k], s[k + 1..], f);
    CountOne(s[k], f);
  }

  lemma {:induction false} CountPermutation(a: seq<Interval>, b: seq<Interval>, f: nat)
    requires multiset(a) == multiset(b)
    ensures FloorCount(a, f) == FloorCount(b, f)
  {
    hide Floor, FloorCount;
    if a == [] {
      assert |multiset(b)| == 0;
      assert b == [];
    } else {
      var n := |a| - 1;
      assert a[n] in multiset(b);
      var k :| 0 <= k < |b| && b[k] == a[n];
      RemoveOne(b, k);
      RemoveOne(a, n);
      CountPermutation(a[..n] + a[n + 1..], b[..k] + b[k + 1..], f);
      CountRemove(b, k, f);
      CountRemove(a, n, f);
    }
  }

  lemma LeastPermutation(a: seq<Interval>, b: seq<Interval>)
    requires multiset(a) == multiset(b)
    ensures LeastFloor(a) == LeastFloor(b)
  {
    hide FloorCount, LeastFloor;
    CountPermutation(a, b, LeastFloor(a));
    CountPermutation(a, b, LeastFloor(b));
    LeastMeans(a, LeastFloor(b));
    LeastMeans(b, LeastFloor(a));
  }

  // ---------------------------------------------------------------- what is shown

  /** The last `len` of the intervals received, and those before. */
  function LastRound(len: nat, s: seq<Interval>): seq<Interval>
    requires len <= |s|
  {
    s[|s| - len..]
  }

  function Before(len: nat, s: seq<Interval>): seq<Interval>
    requires len <= |s|
  {
    s[..|s| - len]
  }

  /** The minimum shown, in microseconds: the least displayed by any round. */
  function Shown(len: nat, s: seq<Interval>): nat
    requires len > 0
    decreases |s|
  {
    if |s| < len then U64_MAX else Lower(Shown(len, Before(len, s)), Micros(MinNs(LastRound(len, s))))
  }

  lemma OneRoundLess(len: nat, n: nat)
    requires len > 0 && n % len == 0
    ensures n > 0 ==> n >= len && (n - len) % len == 0
  {
    if n > 0 {
      var q := n / len;
      assert n == q * len && q > 0;
      assert n - len == (q - 1) * len + 0;
      RemainderUnique(len, q - 1, 0);
    }
  }

  lemma DisplayLower(y: nat, x: nat)
    requires y <= U64_MAX && x <= NO_MIN
    ensures LowerMin(Display(y), x) == Display(Lower(y, Micros(x)))
    ensures Lower(y, Micros(x)) <= U64_MAX
  {
    hide Ms;
    MsMonotone(Micros(x), y);
    MsMonotone(y, Micros(x));
  }

  lemma DisplayInjective(x: nat, y: nat)
    requires x <= U64_MAX && y <= U64_MAX && Display(x) == Display(y)
    ensures x == y
  {
    hide Ms;
    MsMonotone(x, y);
    MsMonotone(y, x);
  }

  lemma RoundAbsorbed(len: nat, init: seq<Interval>, round: seq<Interval>)
    requires len > 0 && |init| % len == 0 && |round| == len
    ensures RunnerAfter(len, init + round).totals.minLatency
         == LowerMin(RunnerAfter(len, init).totals.minLatency, MinNs(round))
  {
    hide RunnerAfter, Open, Done, Aggregate, Absorb;
    var most, last := init + round[..len - 1], round[len - 1];
    assert init + round == most + [last];
    AllDone(len, init);
    OpenRound(len, init, round[..len - 1]);
    OneMore(len, most, last);
    MaxLatencyExact(len, most);
    var before := RunnerAfter(len, most);
    ExtremesAggregate(before.summary, last, before.totals);
    assert round[..len - 1] + [last] == round;
  }

  /** The runner shows the least minimum any of its rounds displays. */
  lemma {:induction false} ShownExact(len: nat, s: seq<Interval>)
    requires len > 0 && |s| % len == 0
    ensures RunnerAfter(len, s).totals.minLatency == Display(Shown(len, s)) && Shown(len, s) <= U64_MAX
    decreases |s|
  {
    if s == [] {
    } else {
      hide RunnerAfter, MinNs, LowerMin, Display;
      OneRoundLess(len, |s|);
      var init, round := Before(len, s), LastRound(len, s);
      ShownExact(len, init);
      assert s == init + round;
      RoundAbsorbed(len, init, round);
      MinNsBounds(round);
      DisplayLower(Shown(len, init), MinNs(round));
    }
  }

  /** One round more, by what it holds. */
  lemma ShownStep(len: nat, s: seq<Interval>)
    requires len > 0 && len <= |s|
    ensures var init, round := Before(len, s), LastRound(len, s);
            && s == init + round && |round| == len
            && Shown(len, s) == (if FloorCount(round, 0) > 0 then Shown(len, init)
                                 else Min(Shown(len, init), LeastFloor(round)))
            && LeastFloor(s) == Min(LeastFloor(init), LeastFloor(round))
            && 0 < LeastFloor(round) <= U64_MAX
            && forall f :: FloorCount(s, f) == FloorCount(init, f) + FloorCount(round, f)
  {
    hide MinNs, OfFloor, LeastFloor, Micros;
    var init, round := Before(len, s), LastRound(len, s);
    assert s == init + round;
    RoundFloor(round);
    LeastAppend(init, round);
    LeastMeans(round, 0);
    forall f
      ensures FloorCount(s, f) == FloorCount(init, f) + FloorCount(round, f)
    {
      CountAppend(init, round, f);
    }
  }

  lemma {:induction false} ShownBounds(len: nat, s: seq<Interval>)
    requires len > 0
    ensures LeastFloor(s) <= Shown(len, s) <= U64_MAX
    decreases |s|
  {
    if |s| < len {
      LeastMeans(s, 0);
    } else {
      hide LeastFloor, FloorCount, Shown;
      ShownStep(len, s);
      ShownBounds(len, Before(len, s));
    }
  }

  // ---------------------------------------------------------------- orders that cannot matter

  /** Too few unhidden minima to fill a round: every round is hidden. */
  lemma {:induction false} EveryRoundHidden(len: nat, s: seq<Interval>)
    requires len > 0 && |s| - FloorCount(s, 0) < len
    ensures Shown(len, s) == U64_MAX
    decreases |s|
  {
    if |s| >= len {
      hide LeastFloor, FloorCount;
      ShownStep(len, s);
      TwoCounts(Before(len, s), 0, 1);
      TwoCounts(LastRound(len, s), 0, 1);
      EveryRoundHidden(len, Before(len, s));
    }
  }

  /** A round with a hidden interval has room for `room` others. */
  lemma RoomInRound(k: nat, hidden: nat, k': nat, hidden': nat, room: nat)
    requires k <= Times(hidden, room) && k' + hidden' <= room + 1 && (hidden' == 0 ==> k' == 0)
    ensures k + k' <= Times(hidden + hidden', room)
  {
    hide Times;
    TimesAdd(hidden, hidden', room);
    TimesMonotone(room, 1, hidden');
    TimesNext(room, 0);
    TimesNext(hidden', room);
  }

  /** Pigeonholes: if the least minimum v is not shown, each interval displaying v shares a round with a
      hidden one, and a round has room for len - 1 of them. */
  lemma {:induction false} Pigeonholes(len: nat, s: seq<Interval>, v: nat)
    requires len > 0 && |s| % len == 0
    requires 0 < v <= LeastFloor(s) && v < U64_MAX && Shown(len, s) != v
    ensures FloorCount(s, v) <= Times(FloorCount(s, 0), len - 1)
    decreases |s|
  {
    OneRoundLess(len, |s|);
    if s != [] {
      hide LeastFloor, FloorCount, Times, Shown, Before, LastRound;
      var init, round := Before(len, s), LastRound(len, s);
      ShownStep(len, s);
      ShownBounds(len, init);
      assert |init| == |s| - len;
      Pigeonholes(len, init, v);
      TwoCounts(round, 0, v);
      LeastMeans(round, v);
      RoomInRound(FloorCount(init, v), FloorCount(init, 0), FloorCount(round, v), FloorCount(round, 0), len - 1);
    }
  }

  // ---------------------------------------------------------------- orders that do

  lemma {:induction false} NeverShown(len: nat, s: seq<Interval>, v: nat)
    requires len > 0 && v < U64_MAX && FloorCount(s, v) == 0
    ensures Shown(len, s) != v
    decreases |s|
  {
    if |s| >= len {
      hide LeastFloor, FloorCount;
      ShownStep(len, s);
      NeverShown(len, Before(len, s), v);
      LeastMeans(LastRound(len, s), v);
    }
  }

  /** An order in which each of `vs` shares a round with one of `hidden`, while these last. */
  function Spread(len: nat, vs: seq<Interval>, hidden: seq<Interval>, others: seq<Interval>): seq<Interval>
    requires len > 1
  {
    if vs == [] || hidden == [] then others + hidden + vs
    else if |vs| < len then others + hidden[1..] + ([hidden[0]] + vs)
    else Spread(len, vs[len - 1..], hidden[1..], others) + ([hidden[0]] + vs[..len - 1])
  }

  lemma {:induction false} SpreadAll(len: nat, vs: seq<Interval>, hidden: seq<Interval>, others: seq<Interval>)
    requires len > 1
    ensures multiset(Spread(len, vs, hidden, others)) == multiset(vs) + multiset(hidden) + multiset(others)
    ensures |Spread(len, vs, hidden, others)| == |vs| + |hidden| + |others|
  {
    if vs != [] && hidden != [] {
      assert hidden == [hidden[0]] + hidden[1..];
      if |vs| >= len {
        SpreadAll(len, vs[len - 1..], hidden[1..], others);
        assert vs == vs[..len - 1] + vs[len - 1..];
      }
    }
  }

  /** Every interval of `s` displays `f`. */
  ghost predicate AllOf(s: seq<Interval>, f: nat) {
    forall iv :: iv in s ==> Floor(iv) == f
  }

  lemma {:induction false} CountUniform(s: seq<Interval>, f: nat, g: nat)
    requires AllOf(s, f)
    ensures FloorCount(s, g) == if f == g then |s| else 0
  {
    if s != [] {
      hide Floor;
      CountUniform(s[..|s| - 1], f, g);
    }
  }

  lemma HiddenIn(len: nat, s: seq<Interval>, iv: Interval, k: nat)
    requires len <= |s| && |s| - len <= k < |s| && s[k] == iv && Floor(iv) == 0
    ensures FloorCount(LastRound(len, s), 0) > 0
  {
    hide Floor;
    var round, i := LastRound(len, s), k - (|s| - len);
    assert round == round[..i] + [round[i]] + round[i + 1..];
    assert round[i] == iv;
    CountAppend(round[..i], [iv], 0);
    CountAppend(round[..i] + [iv], round[i + 1..], 0);
  }

  /** A round that holds a hidden interval and all of `s` displaying v leaves v unshown. */
  lemma LastRoundHides(len: nat, rest: seq<Interval>, hidden: Interval, vs: seq<Interval>, v: nat)
    requires len > 0 && |vs| < len <= |rest| + 1 + |vs| && v < U64_MAX
    requires Floor(hidden) == 0 && FloorCount(rest, v) == 0
    ensures Shown(len, rest + ([hidden] + vs)) != v
  {
    hide FloorCount, Floor, Shown;
    var all := rest + ([hidden] + vs);
    var init := Before(len, all);
    HiddenIn(len, all, hidden, |rest|);
    ShownStep(len, all);
    assert rest == init + rest[|init|..];
    CountAppend(init, rest[|init|..], v);
    NeverShown(len, init, v);
  }

  lemma RoundHides(len: nat, rest: seq<Interval>, hidden: Interval, vs: seq<Interval>)
    requires len > 0 && |vs| == len - 1 && Floor(hidden) == 0
    ensures Shown(len, rest + ([hidden] + vs)) == Shown(len, rest)
  {
    hide FloorCount, Floor, Shown;
    var all := rest + ([hidden] + vs);
    assert Before(len, all) == rest;
    HiddenIn(len, all, hidden, |rest|);
    ShownStep(len, all);
  }

  lemma LastRoundOf(len: nat, init: seq<Interval>, round: seq<Interval>)
    requires |round| == len
    ensures Before(len, init + round) == init && LastRound(len, init + round) == round
  {
  }

  lemma {:induction false} SpreadHides(len: nat, vs: seq<Interval>, hidden: seq<Interval>, others: seq<Interval>,
                                       v: nat)
    requires len > 1 && (|vs| + |hidden| + |others|) % len == 0 && 0 < v < U64_MAX
    requires AllOf(vs, v) && AllOf(hidden, 0) && FloorCount(others, v) == 0
    requires |vs| <= Times(|hidden|, len - 1)
    ensures Shown(len, Spread(len, vs, hidden, others)) != v
  {
    hide FloorCount, Floor, Shown, Times;
    TimesNext(len - 1, 0);
    OneRoundLess(len, |vs| + |hidden| + |others|);
    if vs == [] {
      CountUniform(hidden, 0, v);
      CountAppend(others, hidden, v);
      assert others + hidden + vs == others + hidden;
      NeverShown(len, others + hidden, v);
    } else if |vs| < len {
      CountUniform(hidden[1..], 0, v);
      CountAppend(others, hidden[1..], v);
      LastRoundHides(len, others + hidden[1..], hidden[0], vs, v);
    } else {
      TimesNext(|hidden| - 1, len - 1);
      SpreadHides(len, vs[len - 1..], hidden[1..], others, v);
      RoundHides(len, Spread(len, vs[len - 1..], hidden[1..], others), hidden[0], vs[..len - 1]);
    }
  }

  // ---------------------------------------------------------------- the exact condition

  /** The intervals displaying neither nothing nor `f`. */
  function Rest(s: seq<Interval>, f: nat): seq<Interval> {
    if s == [] then []
    else
      var last := s[|s| - 1];
      Rest(s[..|s| - 1], f) + if Floor(last) != 0 && Floor(last) != f then [last] else []
  }

  lemma {:induction false} OfFloorUniform(s: seq<Interval>, f: nat)
    ensures AllOf(OfFloor(s, f), f)
  {
    if s != [] {
      hide Floor;
      OfFloorUniform(s[..|s| - 1], f);
    }
  }

  lemma {:induction false} RestCounts(s: seq<Interval>, f: nat)
    ensures FloorCount(Rest(s, f), f) == 0 && FloorCount(Rest(s, f), 0) == 0
  {
    if s != [] {
      hide Floor, FloorCount;
      var init, last := s[..|s| - 1], s[|s| - 1];
      RestCounts(init, f);
      CountOne(last, 0);
      CountOne(last, f);
      CountAppend(Rest(init, f), [last], 0);
      CountAppend(Rest(init, f), [last], f);
      assert Rest(init, f) + [] == Rest(init, f);
    } else {
      assert FloorCount([], f) == 0 && FloorCount([], 0) == 0;
    }
  }

  lemma Put(s: seq<Interval>, x: Interval)
    ensures multiset(s + [x]) == multiset(s) + multiset{x} && s + [] == s
  {
  }

  lemma {:induction false} Parted(s: seq<Interval>, f: nat)
    requires f > 0
    ensures multiset(OfFloor(s, f)) + multiset(OfFloor(s, 0)) + multiset(Rest(s, f)) == multiset(s)
  {
    if s != [] {
      hide Floor;
      var init, last := s[..|s| - 1], s[|s| - 1];
      Parted(init, f);
      Put(OfFloor(init, f), last);
      Put(OfFloor(init, 0), last);
      Put(Rest(init, f), last);
      Put(init, last);
      assert init + [last] == s;
      if Floor(last) == f {
        assert Rest(s, f) == Rest(init, f) && OfFloor(s, 0) == OfFloor(init, 0);
      } else if Floor(last) == 0 {
        assert Rest(s, f) == Rest(init, f) && OfFloor(s, f) == OfFloor(init, f);
      } else {
        assert OfFloor(s, f) == OfFloor(init, f) && OfFloor(s, 0) == OfFloor(init, 0);
      }
    }
  }

  lemma SizesAdd(vs: seq<Interval>, hidden: seq<Interval>, others: seq<Interval>, s: seq<Interval>)
    requires multiset(vs) + multiset(hidden) + multiset(others) == multiset(s)
    ensures |vs| + |hidden| + |others| == |s|
    ensures multiset(hidden + (others + vs)) == multiset(s)
  {
    var all := hidden + (others + vs);
    assert |multiset(all)| == |all| && |multiset(s)| == |s|;
  }

  /** The order of arrival cannot show in the minimum: unhidden minima do not fill a round, or there is none
      below the sentinel, or too many intervals display the least for the hidden ones to cover them all. */
  predicate OrderBlind(len: nat, s: seq<Interval>)
    requires len > 0
  {
    var hidden, least := FloorCount(s, 0), LeastFloor(s);
    || |s| - hidden < len
    || least == U64_MAX
    || FloorCount(s, least) > Times(hidden, len - 1)
  }

  lemma BlindShows(len: nat, s: seq<Interval>)
    requires len > 0 && |s| % len == 0 && OrderBlind(len, s)
    ensures Shown(len, s) == if |s| - FloorCount(s, 0) < len then U64_MAX else LeastFloor(s)
  {
    hide FloorCount, LeastFloor, Times, Shown;
    LeastMeans(s, 0);
    ShownBounds(len, s);
    if |s| - FloorCount(s, 0) < len {
      EveryRoundHidden(len, s);
    } else if Shown(len, s) != LeastFloor(s) {
      Pigeonholes(len, s, LeastFloor(s));
    }
  }

  /** Hidden intervals first: the last round is full of others, and shows the least. */
  lemma HiddenFirst(len: nat, hidden: seq<Interval>, open: seq<Interval>, v: nat)
    requires len > 0 && |open| >= len && 0 < v < U64_MAX
    requires FloorCount(open, 0) == 0 && Floor(open[|open| - 1]) == v
    requires LeastFloor(hidden + open) == v
    ensures Shown(len, hidden + open) == v
  {
    hide FloorCount, Floor, LeastFloor, Shown;
    var all := hidden + open;
    var init, round := Before(len, all), LastRound(len, all);
    ShownStep(len, all);
    ShownBounds(len, init);
    assert open == open[..|open| - len] + round;
    CountAppend(open[..|open| - len], round, 0);
    assert round == round[..len - 1] + [round[len - 1]];
    CountAppend(round[..len - 1], [round[len - 1]], v);
    CountOne(round[len - 1], v);
    LeastMeans(round, v);
  }

  /** Two orders of the same intervals that show different minima. */
  lemma OrderShows(len: nat, s: seq<Interval>) returns (a: seq<Interval>, b: seq<Interval>)
    requires len > 0 && |s| % len == 0 && !OrderBlind(len, s)
    ensures multiset(a) == multiset(s) && multiset(b) == multiset(s)
    ensures Shown(len, a) == LeastFloor(s) != Shown(len, b)
  {
    hide Floor, LeastFloor, Times, Shown, OfFloor, Rest, Spread;
    var v := LeastFloor(s);
    LeastMeans(s, 0);
    Parted(s, v);
    var vs, hidden, others := OfFloor(s, v), OfFloor(s, 0), Rest(s, v);
    OfFloorUniform(s, v);
    OfFloorUniform(s, 0);
    RestCounts(s, v);
    SizesAdd(vs, hidden, others, s);
    CountUniform(vs, v, 0);
    CountAppend(others, vs, 0);
    a := hidden + (others + vs);
    LeastPermutation(a, s);
    HiddenFirst(len, hidden, others + vs, v);
    TimesNext(|hidden|, 0);
    b := Spread(len, vs, hidden, others);
    SpreadAll(len, vs, hidden, others);
    SpreadHides(len, vs, hidden, others, v);
  }

  /** The minimum printed for complete rounds is the same for every order of arrival exactly when that
      condition holds. */
  lemma MinimumOrderBlind(len: nat, s: seq<Interval>)
    requires len > 0 && |s| % len == 0
    ensures OrderBlind(len, s) <==>
              forall t: seq<Interval> :: multiset(t) == multiset(s) ==>
                RunnerAfter(len, t).totals.minLatency == RunnerAfter(len, s).totals.minLatency
  {
    hide FloorCount, LeastFloor, Times, Shown, RunnerAfter, Display;
    if OrderBlind(len, s) {
      forall t: seq<Interval> | multiset(t) == multiset(s)
        ensures RunnerAfter(len, t).totals.minLatency == RunnerAfter(len, s).totals.minLatency
      {
        SameShown(len, s, t);
      }
    } else {
      var a, b := OrderShows(len, s);
      SameSize(s, a);
      SameSize(s, b);
      ShownExact(len, a);
      ShownExact(len, b);
      if RunnerAfter(len, a).totals.minLatency == RunnerAfter(len, b).totals.minLatency {
        DisplayInjective(Shown(len, a), Shown(len, b));
      }
    }
  }

  lemma SameSize(s: seq<Interval>, t: seq<Interval>)
    requires multiset(t) == multiset(s)
    ensures |t| == |s|
  {
    assert |multiset(t)| == |t| && |multiset(s)| == |s|;
  }

  lemma SameShown(len: nat, s: seq<Interval>, t: seq<Interval>)
    requires len > 0 && |s| % len == 0 && OrderBlind(len, s) && multiset(t) == multiset(s)
    ensures RunnerAfter(len, t).totals.minLatency == RunnerAfter(len, s).totals.minLatency
  {
    hide FloorCount, LeastFloor, Times, Shown, RunnerAfter, Display;
    SameSize(s, t);
    LeastPermutation(s, t);
    CountPermutation(s, t, 0);
    CountPermutation(s, t, LeastFloor(s));
    BlindShows(len, s);
    BlindShows(len, t);
    ShownExact(len, s);
    ShownExact(len, t);
  }

  /** One response without error, that took `ns`, to the one query sent. */
  function OneResponse(ns: nat): Interval {
    EMPTY.(sent := 1, recv := 1, okRecv := 1, totalLatency := ns, minLatency := ns, maxLatency := ns,
           rcodes := map[0 := 1])
  }

  /** Two generators that report two such intervals each: which round 2000ns falls into decides whether the
      minimum printed is 2us or 3us. */
  lemma ArrivalOrderMatters()
    ensures var a, b, c, d := OneResponse(500), OneResponse(2000), OneResponse(3000), OneResponse(4000);
            && RunnerAfter(2, [a, b, c, d]).totals.minLatency == 0.003
            && RunnerAfter(2, [a, c, b, d]).totals.minLatency == 0.002
  {
    hide RunnerAfter;
    TwoRounds(OneResponse(500), OneResponse(2000), OneResponse(3000), OneResponse(4000));
    TwoRounds(OneResponse(500), OneResponse(3000), OneResponse(2000), OneResponse(4000));
  }

  lemma TwoRounds(a: Interval, b: Interval, c: Interval, d: Interval)
    requires Floor(a) == 0 < Floor(c) <= Floor(d)
    ensures RunnerAfter(2, [a, b, c, d]).totals.minLatency == Display(Floor(c))
  {
    hide RunnerAfter, Floor, FloorCount, LeastFloor, Shown, Display, MinNs;
    var first, second := [a, b], [c, d];
    assert first + second == [a, b, c, d];
    LastRoundOf(2, first, second);
    LastRoundOf(2, [], first);
    assert [] + first == first;
    ShownExact(2, first + second);
    ShownStep(2, first + second);
    ShownStep(2, first);
    HiddenIn(2, first, a, 0);
    ShownBounds(2, []);
    NothingShown(2);
    LeastOfTwo(c, d);
  }

  lemma NothingShown(len: nat)
    requires len > 0
    ensures Shown(len, []) == U64_MAX
  {
  }

  lemma LeastOfTwo(c: Interval, d: Interval)
    requires 0 < Floor(c) <= Floor(d)
    ensures FloorCount([c, d], 0) == 0 && LeastFloor([c, d]) == Floor(c) <= U64_MAX
  {
    hide FloorCount;
    assert [c, d] == [c] + [d] && [c][..0] == [] && [d][..0] == [];
    CountAppend([c], [d], 0);
    CountOne(c, 0);
    CountOne(d, 0);
    LeastAppend([c], [d]);
  }
}
