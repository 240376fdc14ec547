/**
 * The class ranking of components/menus/MainMenu.tsx: every student's summary
 * score is paired with its id, the pairs are stable-sorted by score, highest
 * first, and each id is mapped to its 1-based position in that order.
 */
module Ranking {
  import opened Types
  import opened Calculations

  /** One element of the array that is sorted: `{ id, score }`. */
  datatype Entry = Entry(id: int, score: int)

  /** `students.map(s => ({ id: s.id, score: calculateSummaryScore(s) }))`. */
  function Entries(cfg: Config, students: Roster): (r: seq<Entry>)
    ensures |r| == |students|
    ensures forall i :: 0 <= i < |students| ==> r[i] == Entry(students[i].id, SummaryScore(cfg, students[i]))
  {
    if students == [] then []
    else [Entry(students[0].id, SummaryScore(cfg, students[0]))] + Entries(cfg, students[1..])
  }

  // ---- counting --------------------------------------------------------------

  /** How many entries score strictly more than v. */
  function CountAbove(s: seq<Entry>, v: int): nat {
    if s == [] then 0 else (if s[0].score > v then 1 else 0) + CountAbove(s[1..], v)
  }

  /** How many entries score exactly v. */
  function CountEq(s: seq<Entry>, v: int): nat {
    if s == [] then 0 else (if s[0].score == v then 1 else 0) + CountEq(s[1..], v)
  }

  /** How many entries score at least v. */
  function CountAtLeast(s: seq<Entry>, v: int): nat {
    CountAbove(s, v) + CountEq(s, v)
  }

  lemma {:induction false} CountAppend(a: seq<Entry>, b: seq<Entry>, v: int)
    ensures CountAbove(a + b, v) == CountAbove(a, v) + CountAbove(b, v)
    ensures CountEq(a + b, v) == CountEq(a, v) + CountEq(b, v)
  {
    if a == [] {
      assert a + b == b;
    } else {
      assert (a + b)[1..] == a[1..] + b;
      CountAppend(a[1..], b, v);
    }
  }

  lemma {:induction false} CountAtLeastBounded(s: seq<Entry>, v: int)
    ensures CountAtLeast(s, v) <= |s|
  {
    if s != [] {
      CountAtLeastBounded(s[1..], v);
    }
  }

  /** A higher threshold counts no more entries. */
  lemma {:induction false} CountAtLeastAntitone(s: seq<Entry>, w: int, v: int)
    requires w <= v
    ensures CountAtLeast(s, v) <= CountAtLeast(s, w)
  {
    if s != [] {
      CountAtLeastAntitone(s[1..], w, v);
    }
  }

  /** Every entry scoring at least w > v scores strictly more than v. */
  lemma {:induction false} CountAtLeastBelowAbove(s: seq<Entry>, w: int, v: int)
    requires v < w
    ensures CountAtLeast(s, w) <= CountAbove(s, v)
  {
    if s != [] {
      CountAtLeastBelowAbove(s[1..], w, v);
    }
  }

  /** s[i] itself is one of the entries with its score at or after i. */
  lemma CountEqAtIndex(s: seq<Entry>, i: int)
    requires 0 <= i < |s|
    ensures CountEq(s[..i], s[i].score) < CountEq(s, s[i].score)
  {
    assert s == s[..i] + s[i..];
    CountAppend(s[..i], s[i..], s[i].score);
    assert s[i..][0] == s[i];
  }

  // ---- the order the sort produces ------------------------------------------

  predicate SortedDesc(s: seq<Entry>) {
    forall i, j :: 0 <= i < j < |s| ==> s[i].score >= s[j].score
  }

  /** Stable insertion: x goes after every entry that scores at least as much. */
  function Insert(t: seq<Entry>, x: Entry): (r: seq<Entry>)
    ensures |r| == |t| + 1
  {
    if t == [] then [x]
    else if t[0].score >= x.score then [t[0]] + Insert(t[1..], x)
    else [x] + t
  }

  /** Stable sort by score, highest first: the order `sort((a, b) => b.score - a.score)` yields. */
  function SortDesc(s: seq<Entry>): (r: seq<Entry>)
    decreases |s|
    ensures |r| == |s| && SortedDesc(r)
  {
    if s == [] then []
    else
      InsertSorted(SortDesc(s[..|s| - 1]), s[|s| - 1]);
      Insert(SortDesc(s[..|s| - 1]), s[|s| - 1])
  }

  /** The zero-based place of s[i] in that order: entries scoring more, then equal ones earlier in s. */
  function Place(s: seq<Entry>, i: int): (r: nat)
    requires 0 <= i < |s|
    ensures r < |s|
  {
    CountEqAtIndex(s, i);
    CountAtLeastBounded(s, s[i].score);
    CountAbove(s, s[i].score) + CountEq(s[..i], s[i].score)
  }

  /** The rank the source assigns to s[i]: one plus its place. */
  function RankAt(s: seq<Entry>, i: int): (r: nat)
    requires 0 <= i < |s|
    ensures 1 <= r <= |s|
  {
    Place(s, i) + 1
  }

  /** s[i] comes before s[j]: a higher score, or the same score and earlier in the roster. */
  predicate Precedes(s: seq<Entry>, i: int, j: int)
    requires 0 <= i < |s| && 0 <= j < |s|
  {
    s[i].score > s[j].score || (s[i].score == s[j].score && i < j)
  }

  lemma PlaceBelowAtLeast(s: seq<Entry>, i: int)
    requires 0 <= i < |s|
    ensures Place(s, i) < CountAtLeast(s, s[i].score) <= |s|
  {
    CountEqAtIndex(s, i);
    CountAtLeastBounded(s, s[i].score);
  }

  lemma {:induction false} SortedHeadBelow(t: seq<Entry>, v: int)
    requires SortedDesc(t) && t != [] && t[0].score < v
    ensures CountAtLeast(t, v) == 0
  {
    assert t[0].score < v;
    if |t| > 1 {
      assert t[1..][0] == t[1];
      SortedHeadBelow(t[1..], v);
    }
    assert CountAbove(t, v) == CountAbove(t[1..], v) && CountEq(t, v) == CountEq(t[1..], v);
  }

  /** In a sorted sequence the entries scoring at least v are exactly a prefix. */
  lemma {:induction false} SortedSplitScores(t: seq<Entry>, v: int)
    requires SortedDesc(t)
    ensures var k := CountAtLeast(t, v);
      && k <= |t|
      && (forall j :: 0 <= j < k ==> t[j].score >= v)
      && (forall j :: k <= j < |t| ==> t[j].score < v)
  {
    if t == [] {
    } else if t[0].score >= v {
      var u := t[1..];
      assert SortedDesc(u);
      SortedSplitScores(u, v);
      var k' := CountAtLeast(u, v);
      assert CountAtLeast(t, v) == k' + 1;
      forall j | 0 <= j < k' + 1
        ensures t[j].score >= v
      {
        if j > 0 { assert t[j] == u[j - 1]; }
      }
      forall j | k' + 1 <= j < |t|
        ensures t[j].score < v
      {
        assert t[j] == u[j - 1];
      }
    } else {
      SortedHeadBelow(t, v);
    }
  }

  /** On a sorted sequence, Insert cuts it where the scores drop below x's. */
  lemma {:induction false} InsertSplit(t: seq<Entry>, x: Entry)
    requires SortedDesc(t)
    ensures var k := CountAtLeast(t, x.score);
      && k <= |t|
      && Insert(t, x) == t[..k] + [x] + t[k..]
      && (forall j :: 0 <= j < k ==> t[j].score >= x.score)
      && (forall j :: k <= j < |t| ==> t[j].score < x.score)
  {
    SortedSplitScores(t, x.score);
    var k := CountAtLeast(t, x.score);
    if t == [] {
    } else if t[0].score >= x.score {
      var u := t[1..];
      assert SortedDesc(u);
      InsertSplit(u, x);
      var k' := CountAtLeast(u, x.score);
      assert k == k' + 1;
      assert t[..k] == [t[0]] + u[..k'];
      assert t[k..] == u[k'..];
      assert Insert(t, x) == [t[0]] + Insert(u, x);
    } else {
      assert k == 0;
      assert t[..k] == [] && t[k..] == t;
    }
  }

  /** Insert keeps a sorted sequence sorted. */
  lemma InsertSorted(t: seq<Entry>, x: Entry)
    requires SortedDesc(t)
    ensures SortedDesc(Insert(t, x))
  {
    InsertSplit(t, x);
    var r := Insert(t, x);
    forall i, j | 0 <= i < j < |r|
      ensures r[i].score >= r[j].score
    {
      InsertAt(t, x, i);
      InsertAt(t, x, j);
    }
  }

  /** Insert adds x and keeps everything else. */
  lemma InsertCounts(t: seq<Entry>, x: Entry)
    requires SortedDesc(t)
    ensures multiset(Insert(t, x)) == multiset(t) + multiset{x}
    ensures forall v :: CountAtLeast(Insert(t, x), v) == CountAtLeast(t, v) + CountAtLeast([x], v)
  {
    InsertSplit(t, x);
    var k := CountAtLeast(t, x.score);
    assert t == t[..k] + t[k..];
    forall v
      ensures CountAtLeast(Insert(t, x), v) == CountAtLeast(t, v) + CountAtLeast([x], v)
    {
      CountAppend(t[..k], [x], v);
      CountAppend(t[..k] + [x], t[k..], v);
      CountAppend(t[..k], t[k..], v);
    }
  }

  /** The element at position p after inserting x into a sorted sequence. */
  lemma InsertAt(t: seq<Entry>, x: Entry, p: int)
    requires SortedDesc(t) && 0 <= p <= |t|
    ensures var k := CountAtLeast(t, x.score);
      k <= |t| && Insert(t, x)[p] == if p < k then t[p] else if p == k then x else t[p - 1]
  {
    InsertSplit(t, x);
  }

  /** Where the entries of s0 + [x] sit, given where those of s0 sit before x is inserted. */
  lemma InsertPlaces(s0: seq<Entry>, x: Entry, t: seq<Entry>)
    requires SortedDesc(t) && |t| == |s0|
    requires CountAtLeast(t, x.score) == CountAtLeast(s0, x.score)
    requires forall i :: 0 <= i < |s0| ==> Place(s0, i) < |s0| && t[Place(s0, i)] == s0[i]
    ensures var s := s0 + [x];
      forall i :: 0 <= i < |s| ==> Place(s, i) < |s| && Insert(t, x)[Place(s, i)] == s[i]
  {
    var s := s0 + [x];
    InsertSplit(t, x);
    var k := CountAtLeast(t, x.score);
    var r := Insert(t, x);
    forall i | 0 <= i < |s|
      ensures Place(s, i) < |s| && r[Place(s, i)] == s[i]
    {
      CountAppend(s0, [x], s[i].score);
      if i == |s0| {
        assert s[..i] == s0;
        assert Place(s, i) == k;
        InsertAt(t, x, k);
      } else {
        var p := Place(s0, i);
        assert s[i] == s0[i] && s[..i] == s0[..i];
        if x.score > s0[i].score {
          CountAtLeastBelowAbove(s0, x.score, s0[i].score);
          assert Place(s, i) == p + 1 && p >= k;
          InsertAt(t, x, p + 1);
        } else {
          PlaceBelowAtLeast(s0, i);
          CountAtLeastAntitone(s0, x.score, s0[i].score);
          assert Place(s, i) == p && p < k;
          InsertAt(t, x, p);
        }
      }
    }
  }

  /** SortDesc keeps the entries and, for every threshold, how many reach it. */
  lemma {:induction false} SortDescCounts(s: seq<Entry>)
    decreases |s|
    ensures multiset(SortDesc(s)) == multiset(s)
    ensures forall v :: CountAtLeast(SortDesc(s), v) == CountAtLeast(s, v)
  {
    if s != [] {
      var s0, x := s[..|s| - 1], s[|s| - 1];
      assert s == s0 + [x];
      SortDescCounts(s0);
      var t := SortDesc(s0);
      assert SortDesc(s) == Insert(t, x);
      InsertCounts(t, x);
      assert multiset(s) == multiset(s0) + multiset{x};
      forall v
        ensures CountAtLeast(SortDesc(s), v) == CountAtLeast(s, v)
      {
        CountAppend(s0, [x], v);
      }
    }
  }

  /** SortDesc puts s[i] at Place(s, i). */
  lemma {:induction false} SortDescPlaces(s: seq<Entry>)
    decreases |s|
    ensures forall i :: 0 <= i < |s| ==> Place(s, i) < |s| && SortDesc(s)[Place(s, i)] == s[i]
  {
    if s != [] {
      var s0, x := s[..|s| - 1], s[|s| - 1];
      assert s == s0 + [x];
      SortDescPlaces(s0);
      SortDescCounts(s0);
      var t := SortDesc(s0);
      assert SortDesc(s) == Insert(t, x);
      InsertPlaces(s0, x, t);
    }
  }

  /** SortDesc is a sorted permutation of its input that puts s[i] at Place(s, i). */
  lemma SortDescFacts(s: seq<Entry>)
    ensures |SortDesc(s)| == |s|
    ensures SortedDesc(SortDesc(s))
    ensures multiset(SortDesc(s)) == multiset(s)
    ensures forall v :: CountAtLeast(SortDesc(s), v) == CountAtLeast(s, v)
    ensures forall i :: 0 <= i < |s| ==> Place(s, i) < |s| && SortDesc(s)[Place(s, i)] == s[i]
  {
    SortDescCounts(s);
    SortDescPlaces(s);
  }

  // ---- rank order ------------------------------------------------------------

  /** A strictly higher score means a strictly earlier place. */
  lemma PlaceHigherFirst(s: seq<Entry>, i: int, j: int)
    requires 0 <= i < |s| && 0 <= j < |s| && s[i].score > s[j].score
    ensures Place(s, i) < Place(s, j)
  {
    PlaceBelowAtLeast(s, i);
    CountAtLeastBelowAbove(s, s[i].score, s[j].score);
  }

  /** Equal scores keep their roster order (the sort is stable). */
  lemma PlaceStable(s: seq<Entry>, i: int, j: int)
    requires 0 <= i < j < |s| && s[i].score == s[j].score
    ensures Place(s, i) < Place(s, j)
  {
    var v := s[i].score;
    assert s[..j] == s[..i] + s[i..j];
    CountAppend(s[..i], s[i..j], v);
    assert s[i..j] == s[i..j][..0] + [s[i]] + s[i..j][1..];
    CountAppend(s[i..j][..0] + [s[i]], s[i..j][1..], v);
    CountAppend(s[i..j][..0], [s[i]], v);
  }

  /** Places follow the (score descending, roster order) order exactly. */
  lemma PlaceOrder(s: seq<Entry>, i: int, j: int)
    requires 0 <= i < |s| && 0 <= j < |s| && i != j
    ensures Place(s, i) < Place(s, j) <==> Precedes(s, i, j)
  {
    if s[i].score > s[j].score {
      PlaceHigherFirst(s, i, j);
    } else if s[j].score > s[i].score {
      PlaceHigherFirst(s, j, i);
    } else if i < j {
      PlaceStable(s, i, j);
    } else {
      PlaceStable(s, j, i);
    }
  }

  /** The integers 0 .. n-1. */
  function Upto(n: nat): (r: set<int>)
    ensures forall p :: p in r <==> 0 <= p < n
    ensures |r| == n
  {
    if n == 0 then {} else Upto(n - 1) + {n - 1}
  }

  /** The places of the first n entries. */
  function Places(s: seq<Entry>, n: int): set<int>
    requires 0 <= n <= |s|
  {
    if n == 0 then {} else Places(s, n - 1) + {Place(s, n - 1)}
  }

  lemma {:induction false} PlacesFacts(s: seq<Entry>, n: int)
    requires 0 <= n <= |s|
    ensures |Places(s, n)| == n
    ensures forall p :: p in Places(s, n) <==> exists i :: 0 <= i < n && Place(s, i) == p
  {
    if n > 0 {
      PlacesFacts(s, n - 1);
      forall i | 0 <= i < n - 1
        ensures Place(s, i) != Place(s, n - 1)
      {
        PlaceOrder(s, i, n - 1);
        PlaceOrder(s, n - 1, i);
      }
      assert Place(s, n - 1) !in Places(s, n - 1);
    }
  }

  lemma SubsetSameSize(a: set<int>, b: set<int>)
    requires a <= b && |a| == |b|
    ensures a == b
  {
    assert b == a + (b - a);
    assert |b - a| == 0;
  }

  /** Some entry of s sits at place p. */
  predicate IsPlace(s: seq<Entry>, p: int) {
    exists i :: 0 <= i < |s| && Place(s, i) == p
  }

  /** Every position 0 .. |s|-1 is the place of some entry: no place is skipped. */
  lemma PlacesArePositions(s: seq<Entry>)
    ensures forall p :: 0 <= p < |s| ==> IsPlace(s, p)
  {
    PlacesFacts(s, |s|);
    forall p | p in Places(s, |s|)
      ensures p in Upto(|s|)
    {
      var i :| 0 <= i < |s| && Place(s, i) == p;
      PlaceBelowAtLeast(s, i);
    }
    SubsetSameSize(Places(s, |s|), Upto(|s|));
    forall p | 0 <= p < |s|
      ensures IsPlace(s, p)
    {
      assert p in Places(s, |s|);
    }
  }

  /** Some entry of s has rank r. */
  predicate IsRank(s: seq<Entry>, r: int) {
    exists i :: 0 <= i < |s| && RankAt(s, i) == r
  }

  /** The ranks are exactly 1 .. |s|, ties included: dense, gap-free, no duplicates. */
  lemma RanksArePermutation(s: seq<Entry>)
    ensures forall i :: 0 <= i < |s| ==> 1 <= RankAt(s, i) <= |s|
    ensures forall i, j :: 0 <= i < |s| && 0 <= j < |s| && i != j ==> RankAt(s, i) != RankAt(s, j)
    ensures forall r :: 1 <= r <= |s| ==> IsRank(s, r)
  {
    PlacesArePositions(s);
    forall i | 0 <= i < |s|
      ensures RankAt(s, i) <= |s|
    {
      PlaceBelowAtLeast(s, i);
    }
    forall r | 1 <= r <= |s|
      ensures IsRank(s, r)
    {
      assert IsPlace(s, r - 1);
      var i :| 0 <= i < |s| && Place(s, i) == r - 1;
      assert RankAt(s, i) == r;
    }
    forall i, j | 0 <= i < |s| && 0 <= j < |s| && i != j
      ensures RankAt(s, i) != RankAt(s, j)
    {
      PlaceOrder(s, i, j);
      PlaceOrder(s, j, i);
    }
  }

  // ---- the rank map ----------------------------------------------------------

  /** `sorted.forEach((s, index) => rankMap.set(s.id, index + 1))`: a later entry overwrites an earlier one. */
  function RankMapOf(t: seq<Entry>): (r: map<int, nat>)
    decreases |t|
    ensures forall id :: id in r ==> 1 <= r[id] <= |t|
  {
    if t == [] then map[] else RankMapOf(t[..|t| - 1])[t[|t| - 1].id := |t|]
  }

  predicate HasEntryId(t: seq<Entry>, id: int) {
    exists p :: 0 <= p < |t| && t[p].id == id
  }

  /** No later entry of t has the id of t[p]. */
  predicate LastWithId(t: seq<Entry>, p: int)
    requires 0 <= p < |t|
  {
    forall q :: p < q < |t| ==> t[q].id != t[p].id
  }

  /** The map holds exactly the ids of t. */
  lemma {:induction false} RankMapOfKeys(t: seq<Entry>)
    decreases |t|
    ensures forall id :: id in RankMapOf(t) <==> HasEntryId(t, id)
  {
    if t != [] {
      var t0, last := t[..|t| - 1], t[|t| - 1];
      RankMapOfKeys(t0);
      forall id
        ensures id in RankMapOf(t) <==> HasEntryId(t, id)
      {
        if HasEntryId(t0, id) {
          var p :| 0 <= p < |t0| && t0[p].id == id;
          assert t[p] == t0[p];
        }
        if HasEntryId(t, id) && id != last.id {
          var p :| 0 <= p < |t| && t[p].id == id;
          assert t0[p] == t[p];
        }
        if id == last.id {
          assert t[|t| - 1].id == id;
        }
      }
    }
  }

  /** Each id is mapped to one plus the position of its last occurrence. */
  lemma {:induction false} RankMapOfValues(t: seq<Entry>)
    decreases |t|
    ensures forall p :: 0 <= p < |t| && LastWithId(t, p) ==> t[p].id in RankMapOf(t) && RankMapOf(t)[t[p].id] == p + 1
  {
    if t != [] {
      var t0, last := t[..|t| - 1], t[|t| - 1];
      RankMapOfValues(t0);
      forall p | 0 <= p < |t| && LastWithId(t, p)
        ensures t[p].id in RankMapOf(t) && RankMapOf(t)[t[p].id] == p + 1
      {
        if p < |t0| {
          assert t[p] == t0[p];
          assert t[p].id != last.id;
          forall q | p < q < |t0|
            ensures t0[q].id != t0[p].id
          {
            assert t0[q] == t[q];
          }
          assert LastWithId(t0, p);
        }
      }
    }
  }

  /** The rank map the main menu computes for a roster. */
  function ClassRanking(cfg: Config, students: Roster): (r: map<int, nat>)
    ensures forall id :: id in r ==> 1 <= r[id] <= |students|
  {
    RankMapOf(SortDesc(Entries(cfg, students)))
  }

  /** Exactly the roster's ids are ranked (duplicate ids share a single entry). */
  lemma ClassRankingKeys(cfg: Config, students: Roster)
    ensures forall id :: id in ClassRanking(cfg, students) <==> HasId(students, id)
  {
    var e := Entries(cfg, students);
    var t := SortDesc(e);
    SortDescFacts(e);
    PlacesArePositions(e);
    RankMapOfKeys(t);
    forall id
      ensures HasEntryId(t, id) <==> HasId(students, id)
    {
      if HasEntryId(t, id) {
        var p :| 0 <= p < |t| && t[p].id == id;
        assert IsPlace(e, p);
        var i :| 0 <= i < |e| && Place(e, i) == p;
        assert students[i].id == id;
      }
      if HasId(students, id) {
        var i :| 0 <= i < |students| && students[i].id == id;
        assert t[Place(e, i)] == e[i];
      }
    }
  }

  /** With distinct ids, student i's rank is RankAt of its roster position. */
  lemma ClassRankingAt(cfg: Config, students: Roster, i: int)
    requires UniqueIds(students) && 0 <= i < |students|
    ensures students[i].id in ClassRanking(cfg, students)
    ensures ClassRanking(cfg, students)[students[i].id] == RankAt(Entries(cfg, students), i)
  {
    var e := Entries(cfg, students);
    var t := SortDesc(e);
    SortDescFacts(e);
    PlacesArePositions(e);
    RankMapOfValues(t);
    var p := Place(e, i);
    assert t[p] == e[i];
    forall q | p < q < |t|
      ensures t[q].id != t[p].id
    {
      assert IsPlace(e, q);
      var j :| 0 <= j < |e| && Place(e, j) == q;
      assert t[q] == e[j];
      assert i != j;
    }
    assert LastWithId(t, p);
  }

  /** With distinct ids, a student's rank is RankAt of its roster position. */
  lemma ClassRankingCorrect(cfg: Config, students: Roster)
    requires UniqueIds(students)
    ensures forall i :: 0 <= i < |students| ==>
      students[i].id in ClassRanking(cfg, students) &&
      ClassRanking(cfg, students)[students[i].id] == RankAt(Entries(cfg, students), i)
  {
    forall i | 0 <= i < |students|
      ensures students[i].id in ClassRanking(cfg, students)
        && ClassRanking(cfg, students)[students[i].id] == RankAt(Entries(cfg, students), i)
    {
      ClassRankingAt(cfg, students, i);
    }
  }

  /** A strictly higher summary ranks strictly better; equal summaries keep roster order; and conversely. */
  lemma ClassRankingOrder(cfg: Config, students: Roster, i: int, j: int)
    requires UniqueIds(students) && 0 <= i < |students| && 0 <= j < |students| && i != j
    ensures var rank := ClassRanking(cfg, students);
      var a, b := SummaryScore(cfg, students[i]), SummaryScore(cfg, students[j]);
      && students[i].id in rank && students[j].id in rank
      && (rank[students[i].id] < rank[students[j].id] <==> (a > b || (a == b && i < j)))
  {
    ClassRankingCorrect(cfg, students);
    PlaceOrder(Entries(cfg, students), i, j);
  }

  /** Some student of the roster holds rank r. */
  predicate RankHeld(rank: map<int, nat>, students: Roster, r: int) {
    exists i :: 0 <= i < |students| && students[i].id in rank && rank[students[i].id] == r
  }

  /** The ranks handed out to a roster with distinct ids are exactly 1 .. N, one per student. */
  lemma ClassRanksAreOneToN(cfg: Config, students: Roster)
    requires UniqueIds(students)
    ensures var rank := ClassRanking(cfg, students);
      && (forall i :: 0 <= i < |students| ==> students[i].id in rank && 1 <= rank[students[i].id] <= |students|)
      && (forall i, j :: 0 <= i < j < |students| ==> rank[students[i].id] != rank[students[j].id])
      && (forall r :: 1 <= r <= |students| ==> RankHeld(rank, students, r))
  {
    var e := Entries(cfg, students);
    ClassRankingCorrect(cfg, students);
    RanksArePermutation(e);
    forall r | 1 <= r <= |students|
      ensures RankHeld(ClassRanking(cfg, students), students, r)
    {
      assert IsRank(e, r);
      var i :| 0 <= i < |e| && RankAt(e, i) == r;
      assert ClassRanking(cfg, students)[students[i].id] == r;
    }
  }

  /** Summary scores 90, 70, 90 in roster order give ranks 1, 3, 2. */
  lemma TieExample()
    ensures RankMapOf(SortDesc([Entry(1, 90), Entry(2, 70), Entry(3, 90)])) == map[1 := 1, 3 := 2, 2 := 3]
  {
    var e1, e2, e3 := Entry(1, 90), Entry(2, 70), Entry(3, 90);
    var s := [e1, e2, e3];
    assert [e1][..0] == [];
    assert SortDesc([e1]) == [e1];
    assert [e1, e2][..1] == [e1];
    assert Insert([e1], e2) == [e1] + Insert([], e2);
    assert SortDesc([e1, e2]) == [e1, e2];
    assert s[..2] == [e1, e2];
    assert [e1, e2][1..] == [e2];
    assert Insert([e2], e3) == [e3, e2];
    assert Insert([e1, e2], e3) == [e1] + Insert([e2], e3);
    var t := [e1, e3, e2];
    assert SortDesc(s) == t;
    assert t[..2] == [e1, e3];
    assert [e1, e3][..1] == [e1];
    assert RankMapOf([e1]) == map[1 := 1];
    assert RankMapOf([e1, e3]) == map[1 := 1, 3 := 2];
  }

  // ---- the imperative computation --------------------------------------------

  /** One step of insertion sort: scan past every entry that scores at least x, then insert. */
  method InsertEntry(sorted: seq<Entry>, x: Entry) returns (r: seq<Entry>)
    ensures r == Insert(sorted, x)
  {
    var k := 0;
    while k < |sorted| && sorted[k].score >= x.score
      invariant 0 <= k <= |sorted|
      invariant Insert(sorted, x) == sorted[..k] + Insert(sorted[k..], x)
    {
      assert sorted[k..][1..] == sorted[k + 1..];
      assert sorted[..k] + [sorted[k]] == sorted[..k + 1];
      k := k + 1;
    }
    r := sorted[..k] + [x] + sorted[k..];
  }

  /** The stable descending sort of the entry array, as an insertion sort. */
  method SortByScoreDesc(entries: seq<Entry>) returns (sorted: seq<Entry>)
    ensures sorted == SortDesc(entries)
    ensures multiset(sorted) == multiset(entries) && SortedDesc(sorted)
  {
    sorted := [];
    var i := 0;
    while i < |entries|
      invariant 0 <= i <= |entries|
      invariant sorted == SortDesc(entries[..i])
    {
      assert entries[..i + 1][..i] == entries[..i];
      sorted := InsertEntry(sorted, entries[i]);
      i := i + 1;
    }
    assert entries[..i] == entries;
    SortDescFacts(entries);
  }

  /** The forEach loop that fills the rank map. */
  method AssignRanks(sorted: seq<Entry>) returns (rankMap: map<int, nat>)
    ensures rankMap == RankMapOf(sorted)
  {
    rankMap := map[];
    var p := 0;
    while p < |sorted|
      invariant 0 <= p <= |sorted|
      invariant rankMap == RankMapOf(sorted[..p])
    {
      assert sorted[..p + 1][..p] == sorted[..p];
      rankMap := rankMap[sorted[p].id := p + 1];
      p := p + 1;
    }
    assert sorted[..p] == sorted;
  }

  /** The `rankings` memo: copy, score, sort, number. */
  method Rankings(cfg: Config, students: Roster) returns (rankMap: map<int, nat>)
    ensures rankMap == ClassRanking(cfg, students)
    ensures forall id :: id in rankMap <==> HasId(students, id)
    ensures UniqueIds(students) ==> forall i :: 0 <= i < |students| ==>
      students[i].id in rankMap && rankMap[students[i].id] == RankAt(Entries(cfg, students), i)
  {
    var entries := Entries(cfg, students);
    var sorted := SortByScoreDesc(entries);
    rankMap := AssignRanks(sorted);
    ClassRankingKeys(cfg, students);
    if UniqueIds(students) {
      ClassRankingCorrect(cfg, students);
    }
  }
}
