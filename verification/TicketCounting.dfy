/** Counting over tickets: how often slot v % n of a snapshot holds a given Backend as v runs
    through consecutive tickets of a uint64 counter. */
module TicketCounting {
  import opened Rotation

  const TICKETS := 0x1_0000_0000_0000_0000

  /** `servers[v%uint64(len(servers))]` */
  function Select<T>(s: seq<T>, v: nat): T
    requires s != []
  {
    s[v % |s|]
  }

  /** How many of the m tickets from `first` on select p, for a counter that never wraps. */
  function Hits<T(==)>(s: seq<T>, p: T, first: nat, m: nat): nat
    requires s != []
  {
    if m == 0 then 0
    else Hits(s, p, first, m - 1) + if Select(s, first + m - 1) == p then 1 else 0
  }

  /** The value of a uint64 counter after v additions of 1 from zero. */
  function Wrapped(v: nat): nat {
    if v < TICKETS then v else v % TICKETS
  }

  /** The same for the uint64 counter, which continues with 0 after its largest value. */
  function WrappedHits<T(==)>(s: seq<T>, p: T, first: nat, m: nat): nat
    requires s != []
  {
    if m == 0 then 0
    else WrappedHits(s, p, first, m - 1) + if Select(s, Wrapped(first + m - 1)) == p then 1 else 0
  }

  lemma {:induction false} HitsSplit<T>(s: seq<T>, p: T, first: nat, a: nat, b: nat)
    requires s != []
    ensures Hits(s, p, first, a + b) == Hits(s, p, first, a) + Hits(s, p, first + a, b)
  {
    if b > 0 {
      HitsSplit(s, p, first, a, b - 1);
    }
  }

  lemma DivisionIsUnique(v: int, n: nat, q: int, r: nat)
    requires v == q * n + r && r < n
    ensures v / n == q && v % n == r
  {
    var d := v / n - q;
    assert d * n == (v / n) * n - q * n;
    assert d * n == r - v % n;
    NoMultipleBetween(d, n);
  }

  lemma NoMultipleBetween(d: int, n: int)
    requires -n < d * n < n
    ensures d == 0
  {
  }

  lemma SameSlot<T>(s: seq<T>, v: nat)
    requires s != []
    ensures Select(s, v + |s|) == Select(s, v)
  {
    var n := |s|;
    assert v + n == (v / n + 1) * n + v % n;
    DivisionIsUnique(v + n, n, v / n + 1, v % n);
  }

  /** Any window of n tickets selects like the window that starts at ticket 0. */
  lemma {:induction false} OneRoundAnywhere<T>(s: seq<T>, p: T, first: nat)
    requires s != []
    ensures Hits(s, p, first, |s|) == Hits(s, p, 0, |s|)
  {
    if first > 0 {
      var n := |s|;
      OneRoundAnywhere(s, p, first - 1);
      HitsSplit(s, p, first - 1, 1, n);
      HitsSplit(s, p, first - 1, n, 1);
      SameSlot(s, first - 1);
      assert Hits(s, p, first - 1, 1) == Hits(s, p, first - 1 + n, 1);
    }
  }

  /** A round counted as two windows that start anywhere else. */
  lemma RoundInTwoParts<T>(s: seq<T>, p: T, first: nat, start: nat, a: nat)
    requires s != [] && a <= |s|
    ensures Hits(s, p, first, |s|) == Hits(s, p, start, a) + Hits(s, p, start + a, |s| - a)
  {
    OneRoundAnywhere(s, p, first);
    OneRoundAnywhere(s, p, start);
    HitsSplit(s, p, start, a, |s| - a);
  }

  lemma {:induction false} FirstTicketsReadTheSlice<T>(s: seq<T>, p: T, m: nat)
    requires s != [] && m <= |s|
    ensures Hits(s, p, 0, m) == multiset(s[..m])[p]
  {
    if m > 0 {
      FirstTicketsReadTheSlice(s, p, m - 1);
      DivisionIsUnique(m - 1, |s|, 0, m - 1);
      assert s[..m] == s[..m - 1] + [s[m - 1]];
    }
  }

  /** A whole round of n tickets, wherever it starts, selects p once per slot that holds p. */
  lemma OneRound<T>(s: seq<T>, p: T, first: nat)
    requires s != []
    ensures Hits(s, p, first, |s|) == multiset(s)[p]
  {
    OneRoundAnywhere(s, p, first);
    FirstTicketsReadTheSlice(s, p, |s|);
    assert s[..|s|] == s;
  }

  lemma {:induction false} WholeRounds<T>(s: seq<T>, p: T, first: nat, k: nat)
    requires s != []
    ensures Hits(s, p, first, k * |s|) == k * multiset(s)[p]
  {
    if k > 0 {
      var n := |s|;
      WholeRounds(s, p, first, k - 1);
      assert (k - 1) * n + n == k * n;
      HitsSplit(s, p, first, (k - 1) * n, n);
      OneRound(s, p, first + (k - 1) * n);
      assert (k - 1) * multiset(s)[p] + multiset(s)[p] == k * multiset(s)[p];
    }
  }

  lemma PartOfARound<T>(s: seq<T>, p: T, first: nat, m: nat)
    requires s != [] && m <= |s|
    ensures Hits(s, p, first, m) <= multiset(s)[p]
  {
    HitsSplit(s, p, first, m, |s| - m);
    OneRound(s, p, first);
  }

  lemma RoundsAndARest<T>(s: seq<T>, p: T, first: nat, k: nat, r: nat, m: nat)
    requires s != [] && r < |s| && m == k * |s|
    ensures Hits(s, p, first, m + r) == k * multiset(s)[p] + Hits(s, p, first + m, r)
    ensures Hits(s, p, first + m, r) <= multiset(s)[p]
  {
    HitsSplit(s, p, first, m, r);
    WholeRounds(s, p, first, k);
    PartOfARound(s, p, first + m, r);
  }

  /** Over k whole rounds and a rest of r tickets: between k and k + 1 times the slots of p. */
  lemma AnyWindow<T>(s: seq<T>, p: T, first: nat, k: nat, r: nat)
    requires s != [] && r < |s|
    ensures k * multiset(s)[p] <= Hits(s, p, first, k * |s| + r)
    ensures Hits(s, p, first, k * |s| + r) <= (if r == 0 then k else k + 1) * multiset(s)[p]
  {
    RoundsAndARest(s, p, first, k, r, k * |s|);
    WindowSum(k, 1, multiset(s)[p]);
  }

  // ---------- the wrap of the counter ----------

  lemma {:induction false} BeforeTheWrap<T>(s: seq<T>, p: T, first: nat, m: nat)
    requires s != [] && first + m <= TICKETS
    ensures WrappedHits(s, p, first, m) == Hits(s, p, first, m)
  {
    if m > 0 {
      BeforeTheWrap(s, p, first, m - 1);
    }
  }

  lemma WrappedOnce(v: nat)
    requires v < TICKETS
    ensures Wrapped(TICKETS + v) == v
  {
  }

  lemma {:induction false} AfterTheWrap<T>(s: seq<T>, p: T, first: nat, a: nat, b: nat)
    requires s != [] && first + a == TICKETS && b <= TICKETS
    ensures WrappedHits(s, p, first, a + b) == Hits(s, p, first, a) + Hits(s, p, 0, b)
  {
    if b == 0 {
      BeforeTheWrap(s, p, first, a);
    } else {
      AfterTheWrap(s, p, first, a, b - 1);
      WrappedOnce(b - 1);
      assert first + (a + b) - 1 == TICKETS + (b - 1);
      assert Select(s, Wrapped(first + (a + b) - 1)) == Select(s, b - 1);
    }
  }

  lemma SplitOfRounds(a: nat, b: nat, n: nat, k: nat)
    requires n > 0 && a + b == k * n
    ensures a % n == 0 ==> b % n == 0 && a / n + b / n == k
    ensures a % n != 0 ==> b % n != 0 && a / n + b / n == k - 1
  {
    var qa, ra := a / n, a % n;
    assert a == qa * n + ra;
    if ra == 0 {
      assert b == (k - qa) * n + 0;
      DivisionIsUnique(b, n, k - qa, 0);
    } else {
      assert b == (k - qa - 1) * n + (n - ra);
      DivisionIsUnique(b, n, k - qa - 1, n - ra);
    }
  }

  /** Across the wrap, k whole rounds of tickets still give p its share up to one round's worth;
      exactly its share when the wrap falls between two rounds. */
  lemma WholeRoundsAcrossTheWrap<T>(s: seq<T>, p: T, first: nat, k: nat)
    requires s != [] && first < TICKETS && k * |s| <= TICKETS
    ensures (k - 1) * multiset(s)[p] <= WrappedHits(s, p, first, k * |s|) <= (k + 1) * multiset(s)[p]
    ensures first + k * |s| <= TICKETS || (TICKETS - first) % |s| == 0
        ==> WrappedHits(s, p, first, k * |s|) == k * multiset(s)[p]
  {
    if first + k * |s| <= TICKETS {
      BeforeTheWrap(s, p, first, k * |s|);
      WholeRounds(s, p, first, k);
      WindowSum(k, 1, multiset(s)[p]);
      WindowSum(k, -1, multiset(s)[p]);
    } else {
      RoundsThatWrap(s, p, first, k);
    }
  }

  lemma RoundsThatWrap<T>(s: seq<T>, p: T, first: nat, k: nat)
    requires s != [] && first < TICKETS && k * |s| <= TICKETS < first + k * |s|
    ensures (k - 1) * multiset(s)[p] <= WrappedHits(s, p, first, k * |s|) <= (k + 1) * multiset(s)[p]
    ensures (TICKETS - first) % |s| == 0 ==> WrappedHits(s, p, first, k * |s|) == k * multiset(s)[p]
  {
    var n, w := |s|, multiset(s)[p];
    var a := TICKETS - first;
    var b := k * n - a;
    AfterTheWrap(s, p, first, a, b);
    SplitOfRounds(a, b, n, k);
    DivMod(a, n);
    DivMod(b, n);
    AnyWindow(s, p, first, a / n, a % n);
    AnyWindow(s, p, 0, b / n, b % n);
    TwoWindows(a / n, a % n == 0, b / n, b % n == 0, w, Hits(s, p, first, a), Hits(s, p, 0, b), k);
  }

  lemma TwoWindows(qa: nat, wholeA: bool, qb: nat, wholeB: bool, w: nat, ha: nat, hb: nat, k: nat)
    requires qa * w <= ha <= (if wholeA then qa else qa + 1) * w
    requires qb * w <= hb <= (if wholeB then qb else qb + 1) * w
    requires if wholeA then wholeB && qa + qb == k else !wholeB && qa + qb == k - 1
    ensures (k - 1) * w <= ha + hb <= (k + 1) * w
    ensures wholeA ==> ha + hb == k * w
  {
    WindowSum(qa, qb, w);
    WindowSum(qa + 1, qb + 1, w);
    WindowSum(k, 1, w);
    WindowSum(k, -1, w);
  }

  lemma SlotSurvivesWrap(v: nat, n: nat)
    requires n > 0 && TICKETS % n == 0
    ensures Wrapped(v) % n == v % n
  {
    var q, r, j := v / TICKETS, v % TICKETS, TICKETS / n;
    DivMod(TICKETS, n);
    DivMod(r, n);
    assert v == q * TICKETS + r;
    Regroup(q, j, n);
    WindowSum(q * j, r / n, n);
    DivisionIsUnique(v, n, q * j + r / n, r % n);
  }

  lemma Regroup(q: int, j: int, n: int)
    ensures q * (j * n) == (q * j) * n
  {
  }

  /** A pool whose size divides 2^64 does not notice the wrap at all. */
  lemma {:induction false} WrapUnnoticed<T>(s: seq<T>, p: T, first: nat, m: nat)
    requires s != [] && TICKETS % |s| == 0
    ensures WrappedHits(s, p, first, m) == Hits(s, p, first, m)
  {
    if m > 0 {
      WrapUnnoticed(s, p, first, m - 1);
      SlotSurvivesWrap(first + m - 1, |s|);
    }
  }

  /** The k rounds around a wrap are k - 1 whole rounds, the r tickets just before the wrap, and
      the n - r tickets that complete a round after it. */
  lemma RestsAroundTheWrap<T>(s: seq<T>, p: T, first: nat, k: nat, r: nat)
    requires s != [] && first < TICKETS && k * |s| <= TICKETS < first + k * |s|
    requires r == (TICKETS - first) % |s| && 0 < r <= TICKETS
    ensures WrappedHits(s, p, first, k * |s|)
         == (k - 1) * multiset(s)[p] + Hits(s, p, TICKETS - r, r) + Hits(s, p, 0, |s| - r)
  {
    var n, w := |s|, multiset(s)[p];
    var a := TICKETS - first;
    var b := k * n - a;
    var qa, qb := a / n, b / n;
    AfterTheWrap(s, p, first, a, b);
    SplitOfRounds(a, b, n, k);
    DivMod(a, n);
    DivMod(b, n);
    WindowSum(qa, qb, n);
    assert (qa + qb) * n == k * n - n by { WindowSum(k, -1, n); }
    assert b % n == n - r;
    HitsSplit(s, p, first, qa * n, r);
    WholeRounds(s, p, first, qa);
    SwapRest(s, p, 0, qb, n - r);
    WindowSum(qa, qb, w);
  }

  lemma SwapRest<T>(s: seq<T>, p: T, first: nat, q: nat, r: nat)
    requires s != []
    ensures Hits(s, p, first, q * |s| + r) == q * multiset(s)[p] + Hits(s, p, first, r)
  {
    HitsSplit(s, p, first, r, q * |s|);
    WholeRounds(s, p, first + r, q);
  }

  /** The slots that m tickets from `first` on select. */
  function Slots<T>(s: seq<T>, first: nat, m: nat): seq<T>
    requires s != []
  {
    seq(m, i requires 0 <= i => Select(s, first + i))
  }

  lemma {:induction false} HitsAreSlots<T>(s: seq<T>, p: T, first: nat, m: nat)
    requires s != []
    ensures Hits(s, p, first, m) == multiset(Slots(s, first, m))[p]
  {
    if m > 0 {
      HitsAreSlots(s, p, first, m - 1);
      assert Slots(s, first, m) == Slots(s, first, m - 1) + [Select(s, first + m - 1)];
    }
  }

  /** What a wrap inside the window costs or gives p, to the ticket: the r slots selected just before
      the wrap stand in for the last r slots of a round. */
  lemma TurnsAcrossTheWrap<T>(s: seq<T>, p: T, first: nat, k: nat, r: nat)
    requires s != [] && first < TICKETS && k * |s| <= TICKETS < first + k * |s|
    requires r == (TICKETS - first) % |s| && r <= TICKETS
    ensures WrappedHits(s, p, first, k * |s|) + multiset(s[|s| - r..])[p]
         == k * multiset(s)[p] + multiset(Slots(s, TICKETS - r, r))[p]
  {
    if r == 0 {
      WholeRoundsAcrossTheWrap(s, p, first, k);
    } else {
      TurnsAcrossACut(s, p, first, k, r);
    }
  }

  lemma TurnsAcrossACut<T>(s: seq<T>, p: T, first: nat, k: nat, r: nat)
    requires s != [] && first < TICKETS && k * |s| <= TICKETS < first + k * |s|
    requires r == (TICKETS - first) % |s| && 0 < r <= TICKETS
    ensures WrappedHits(s, p, first, k * |s|) + multiset(s[|s| - r..])[p]
         == k * multiset(s)[p] + multiset(Slots(s, TICKETS - r, r))[p]
  {
    RestsAroundTheWrap(s, p, first, k, r);
    HitsAreSlots(s, p, TICKETS - r, r);
    FirstSlotsOfARound(s, p, |s| - r);
    WindowSum(k, -1, multiset(s)[p]);
  }

  lemma FirstSlotsOfARound<T>(s: seq<T>, p: T, m: nat)
    requires s != [] && m <= |s|
    ensures Hits(s, p, 0, m) + multiset(s[m..])[p] == multiset(s)[p]
  {
    FirstTicketsReadTheSlice(s, p, m);
    assert s == s[..m] + s[m..];
  }

  /** The wrap takes nothing from anybody: the window ends before it, or the slots selected just
      before it are, in some order, those that the round it cuts still had to come to. */
  ghost predicate WrapIsFair<T(!new)>(s: seq<T>, first: nat, k: nat)
    requires s != [] && first < TICKETS
  {
    var r := (TICKETS - first) % |s|;
    first + k * |s| <= TICKETS || multiset(Slots(s, TICKETS - r, r)) == multiset(s[|s| - r..])
  }

  ghost predicate ExactShare<T>(s: seq<T>, p: T, first: nat, k: nat)
    requires s != []
  {
    WrappedHits(s, p, first, k * |s|) == k * multiset(s)[p]
  }

  ghost predicate ExactShares<T(!new)>(s: seq<T>, first: nat, k: nat)
    requires s != []
  {
    forall p: T :: ExactShare(s, p, first, k)
  }

  lemma OneOfTheShares<T(!new)>(s: seq<T>, p: T, first: nat, k: nat)
    requires s != [] && ExactShares(s, first, k)
    ensures ExactShare(s, p, first, k)
  {
  }

  lemma ExactBeforeTheWrap<T(!new)>(s: seq<T>, first: nat, k: nat)
    requires s != [] && first < TICKETS && k * |s| <= TICKETS
    requires first + k * |s| <= TICKETS || (TICKETS - first) % |s| == 0
    ensures ExactShares(s, first, k)
  {
    forall p: T ensures ExactShare(s, p, first, k) {
      WholeRoundsAcrossTheWrap(s, p, first, k);
    }
  }

  lemma ExactIfUnnoticed<T(!new)>(s: seq<T>, first: nat, k: nat)
    requires s != [] && TICKETS % |s| == 0
    ensures ExactShares(s, first, k)
  {
    forall p: T ensures ExactShare(s, p, first, k) {
      WrapUnnoticed(s, p, first, k * |s|);
      WholeRounds(s, p, first, k);
    }
  }

  /** k whole rounds give every Backend exactly k times its slots, whatever the weights, if and only
      if the wrap is fair. */
  lemma ExactIffTheWrapIsFair<T(!new)>(s: seq<T>, first: nat, k: nat)
    requires s != [] && first < TICKETS && k * |s| <= TICKETS
    ensures ExactShares(s, first, k) <==> WrapIsFair(s, first, k)
  {
    if first + k * |s| <= TICKETS {
      ExactBeforeTheWrap(s, first, k);
    } else {
      var r := (TICKETS - first) % |s|;
      var before, rest := multiset(Slots(s, TICKETS - r, r)), multiset(s[|s| - r..]);
      forall p: T
        ensures WrappedHits(s, p, first, k * |s|) + rest[p] == k * multiset(s)[p] + before[p]
      {
        TurnsAcrossTheWrap(s, p, first, k, r);
      }
      if ExactShares(s, first, k) {
        forall p: T ensures before[p] == rest[p] {
          assert ExactShare(s, p, first, k);
        }
        assert before == rest;
      }
    }
  }

  lemma OwnSlot<T>(s: seq<T>, j: nat)
    requires 0 < j < |s| && TICKETS % |s| == j
    ensures Select(s, TICKETS - 1) == s[j - 1]
  {
    DivMod(TICKETS, |s|);
    DivisionIsUnique(TICKETS - 1, |s|, TICKETS / |s|, j - 1);
  }

  ghost predicate AllDifferent<T(!new)>(s: seq<T>) {
    forall x :: x in s ==> multiset(s)[x] == 1
  }

  /** Position j of the slice comes up again exactly n tickets later, so not in the r < n tickets before. */
  lemma NotJustBefore<T(!new)>(s: seq<T>, j: nat, r: nat)
    requires j < |s| && TICKETS % |s| == j && r < |s| && r <= TICKETS && AllDifferent(s)
    ensures s[j] !in multiset(Slots(s, TICKETS - r, r))
  {
    var n := |s|;
    OneRound(s, s[j], TICKETS - r);
    HitsSplit(s, s[j], TICKETS - r, r, 1);
    HitsSplit(s, s[j], TICKETS - r, r + 1, n - (r + 1));
    HitsAreSlots(s, s[j], TICKETS - r, r);
    assert Hits(s, s[j], TICKETS, 0) == 0 && Hits(s, s[j], TICKETS, 1) == 1;
  }

  lemma AtOnePlaceOnly<T(!new)>(s: seq<T>, i: nat, j: nat)
    requires i < j < |s| && AllDifferent(s)
    ensures s[i] !in s[j..]
  {
    var a, b := s[..j], s[j..];
    assert s == a + b;
    assert multiset(s) == multiset(a) + multiset(b);
    assert a[i] == s[i] && multiset(a)[s[i]] >= 1;
    assert s[i] in s;
    assert multiset(s)[s[i]] == multiset(a)[s[i]] + multiset(b)[s[i]];
  }

  /** With n different slots, a cut round is fair only if n divides 2^64: otherwise the slot of the
      last ticket before the wrap comes up too soon again, or the slot due next is passed over. */
  lemma CutRoundIsUnfair<T(!new)>(s: seq<T>, r: nat)
    requires 0 < r < |s| && r <= TICKETS && TICKETS % |s| != 0 && AllDifferent(s)
    ensures multiset(Slots(s, TICKETS - r, r)) != multiset(s[|s| - r..])
  {
    var n, j := |s|, TICKETS % |s|;
    var before := Slots(s, TICKETS - r, r);
    OwnSlot(s, j);
    assert before[r - 1] == s[j - 1];
    if j - 1 < n - r {
      AtOnePlaceOnly(s, j - 1, n - r);
      assert s[j - 1] in multiset(before) && s[j - 1] !in multiset(s[n - r..]);
    } else {
      NotJustBefore(s, j, r);
      assert s[n - r..][j - (n - r)] == s[j];
    }
  }

  /** The case of round-robin, where every slot holds another Backend: k whole rounds give each
      exactly k turns if and only if they end before the wrap, or the wrap falls between two rounds,
      or n divides 2^64. */
  lemma ExactUnlessTheWrapCutsARound<T(!new)>(s: seq<T>, first: nat, k: nat)
    requires s != [] && first < TICKETS && k * |s| <= TICKETS && AllDifferent(s)
    ensures ExactShares(s, first, k)
       <==> first + k * |s| <= TICKETS || (TICKETS - first) % |s| == 0 || TICKETS % |s| == 0
  {
    ExactIffTheWrapIsFair(s, first, k);
    if first + k * |s| > TICKETS {
      DifferentSlots(s, (TICKETS - first) % |s|, first, k);
    }
  }

  lemma DifferentSlots<T(!new)>(s: seq<T>, r: nat, first: nat, k: nat)
    requires s != [] && first < TICKETS && k * |s| <= TICKETS < first + k * |s| && AllDifferent(s)
    requires r == (TICKETS - first) % |s|
    ensures WrapIsFair(s, first, k) <==> r == 0 || TICKETS % |s| == 0
  {
    if r == 0 {
      assert Slots(s, TICKETS - r, r) == s[|s| - r..];
    } else if TICKETS % |s| == 0 {
      ExactIfUnnoticed(s, first, k);
      ExactIffTheWrapIsFair(s, first, k);
    } else {
      CutRoundIsUnfair(s, r);
    }
  }

  lemma {:induction false} OneBackendTakesAll(p: nat, n: nat, first: nat, m: nat)
    requires n > 0
    ensures WrappedHits(Copies(p, n), p, first, m) == m
  {
    if m > 0 {
      OneBackendTakesAll(p, n, first, m - 1);
    }
  }

  /** With weights the pool size does not decide: a single Backend of weight 3 gets every ticket,
      although the wrap cuts a round and 3 does not divide 2^64. */
  lemma CutRoundCanBeFair(k: nat)
    ensures TICKETS % 3 != 0 && (TICKETS - (TICKETS - 1)) % 3 != 0
    ensures WrappedHits(Copies(0, 3), 0, TICKETS - 1, k * 3) == k * multiset(Copies(0, 3))[0]
  {
    OneBackendTakesAll(0, 3, TICKETS - 1, k * 3);
    CopiesCount(0, 3);
  }

  /** Any number of tickets with at most one wrap among them, k rounds and r more: at most one round's
      worth below k rounds, and one above them and the rest. */
  lemma AnyWindowAcrossTheWrap<T>(s: seq<T>, p: T, first: nat, k: nat, r: nat)
    requires s != [] && r < |s| && first < TICKETS && k * |s| + r <= TICKETS
    ensures var hits, w := WrappedHits(s, p, first, k * |s| + r), multiset(s)[p];
      && k * w - w <= hits <= (if r == 0 then k + 1 else k + 2) * w
      && (first + k * |s| + r <= TICKETS ==> k * w <= hits <= (if r == 0 then k else k + 1) * w)
  {
    var m, w := k * |s| + r, multiset(s)[p];
    WindowSum(k, 1, w);
    WindowSum(k, 2, w);
    WindowSum(k, -1, w);
    if first + m <= TICKETS {
      AnyWindowBeforeTheWrap(s, p, first, k, r, m);
    } else if r == 0 {
      WholeRoundsAcrossTheWrap(s, p, first, k);
    } else {
      AnyWindowThatWraps(s, p, first, k, r, m, TICKETS - first);
    }
  }

  lemma AnyWindowBeforeTheWrap<T>(s: seq<T>, p: T, first: nat, k: nat, r: nat, m: nat)
    requires s != [] && r < |s| && m == k * |s| + r && first + m <= TICKETS
    ensures k * multiset(s)[p] <= WrappedHits(s, p, first, m) <= (if r == 0 then k else k + 1) * multiset(s)[p]
  {
    BeforeTheWrap(s, p, first, m);
    AnyWindow(s, p, first, k, r);
  }

  lemma AnyWindowThatWraps<T>(s: seq<T>, p: T, first: nat, k: nat, r: nat, m: nat, a: nat)
    requires s != [] && r < |s| && m == k * |s| + r && first + a == TICKETS && a <= m <= TICKETS
    ensures k * multiset(s)[p] - multiset(s)[p]
         <= WrappedHits(s, p, first, m)
         <= k * multiset(s)[p] + 2 * multiset(s)[p]
  {
    AfterTheWrap(s, p, first, a, m - a);
    var qa, ra := PartBounds(s, p, first, a);
    var qb, rb := PartBounds(s, p, 0, m - a);
    WindowSum(qa, qb, |s|);
    SplitOfAnyWindow(qa + qb, ra + rb, |s|, k, r);
    TwoAnyWindows(qa, qb, multiset(s)[p], Hits(s, p, first, a), Hits(s, p, 0, m - a), k);
  }

  lemma PartBounds<T>(s: seq<T>, p: T, first: nat, m: nat) returns (q: nat, r: nat)
    requires s != []
    ensures m == q * |s| + r && r < |s|
    ensures q * multiset(s)[p] <= Hits(s, p, first, m) <= (q + 1) * multiset(s)[p]
  {
    q, r := m / |s|, m % |s|;
    DivMod(m, |s|);
    AnyWindow(s, p, first, q, r);
    WindowSum(q, 1, multiset(s)[p]);
  }

  lemma SplitOfAnyWindow(q: nat, t: nat, n: nat, k: nat, r: nat)
    requires r < n && t < 2 * n && q * n + t == k * n + r
    ensures k - 1 <= q <= k
  {
    DivisionIsUnique(k * n + r, n, k, r);
    if t < n {
      DivisionIsUnique(q * n + t, n, q, t);
    } else {
      WindowSum(q, 1, n);
      DivisionIsUnique(q * n + t, n, q + 1, t - n);
    }
  }

  lemma TwoAnyWindows(qa: nat, qb: nat, w: nat, ha: nat, hb: nat, k: nat)
    requires qa * w <= ha <= (qa + 1) * w && qb * w <= hb <= (qb + 1) * w
    requires k - 1 <= qa + qb <= k
    ensures k * w - w <= ha + hb <= k * w + 2 * w
  {
    WindowSum(qa, qb, w);
    WindowSum(qa, 1, w);
    WindowSum(qb, 1, w);
    WindowSum(k, -1, w);
  }

  /** Three tickets around the wrap give three equal Backends 2, 1 and 0 selections. */
  lemma WrapCanCostARound()
    ensures WrappedHits([0, 1, 2], 0, TICKETS - 1, 3) == 2 && WrappedHits([0, 1, 2], 2, TICKETS - 1, 3) == 0
  {
    var s := [0, 1, 2];
    assert Select(s, Wrapped(TICKETS - 1)) == 0 && Select(s, Wrapped(TICKETS)) == 0;
    assert Select(s, Wrapped(TICKETS + 1)) == 1;
    assert WrappedHits(s, 0, TICKETS - 1, 1) == 1 && WrappedHits(s, 2, TICKETS - 1, 1) == 0;
    assert WrappedHits(s, 0, TICKETS - 1, 2) == 2 && WrappedHits(s, 2, TICKETS - 1, 2) == 0;
  }

  lemma DivMod(a: nat, n: nat)
    requires n > 0
    ensures a == (a / n) * n + a % n && 0 <= a % n < n && a / n >= 0
  {
  }

  lemma WindowSum(x: int, y: int, w: int)
    ensures x * w + y * w == (x + y) * w
  {
  }
}
