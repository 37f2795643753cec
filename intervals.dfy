/** Closed, 1-based genomic intervals and the arithmetic the whole pipeline shares:
    lengths, the signed overlap measure, lexicographic ordering, introns between
    consecutive exons, and the set of positions an interval list covers. */
module Intervals {
  import Sorting

  datatype Interval = Interval(start: int, end: int)

  /** Number of bases of a closed interval (`end - start + 1`). */
  function Len(iv: Interval): int
  {
    iv.end - iv.start + 1
  }

  function Min(a: int, b: int): int { if a <= b then a else b }
  function Max(a: int, b: int): int { if a >= b then a else b }

  /** The overlap measure used by the source: `min(ends) - max(starts)`.
      It is one less than the number of shared bases, so touching intervals score 0. */
  function Overlap(a: Interval, b: Interval): (r: int)
    ensures r <= a.end - a.start && r <= b.end - b.start
    ensures r >= 0 ==> a.start <= b.end && b.start <= a.end
  {
    Min(a.end, b.end) - Max(a.start, b.start)
  }

  lemma OverlapSymmetric(a: Interval, b: Interval)
    ensures Overlap(a, b) == Overlap(b, a)
  {
  }

  /** Sum of `end - start + 1` over a list of intervals. */
  function TotalLength(s: seq<Interval>): int
  {
    if s == [] then 0 else Len(s[0]) + TotalLength(s[1..])
  }

  predicate WellFormed(s: seq<Interval>)
  {
    forall i :: 0 <= i < |s| ==> s[i].start <= s[i].end
  }

  /** Python's tuple order on `(start, end)`. */
  predicate LexLe(a: Interval, b: Interval)
  {
    a.start < b.start || (a.start == b.start && a.end <= b.end)
  }

  lemma LexLeIsTotalPreorder()
    ensures Sorting.TotalPreorder(LexLe)
  {
  }

  function SortIntervals(s: seq<Interval>): (r: seq<Interval>)
    ensures |r| == |s|
  {
    Sorting.Sort(s, LexLe)
  }

  lemma SortIntervalsPermutes(s: seq<Interval>)
    ensures multiset(SortIntervals(s)) == multiset(s)
  {
    Sorting.SortPermutes(s, LexLe);
  }

  lemma SortIntervalsSorted(s: seq<Interval>)
    ensures Sorting.SortedBy(SortIntervals(s), LexLe)
  {
    LexLeIsTotalPreorder();
    Sorting.SortSorted(s, LexLe);
  }

  /** Consecutive intervals are strictly separated: the shape of a valid exon chain. */
  predicate Chain(s: seq<Interval>)
  {
    forall i :: 0 <= i < |s| - 1 ==> s[i].end < s[i + 1].start
  }

  /** The junction between the i-th and (i+1)-th interval: `(a.end + 1, b.start - 1)`. */
  function Junction(s: seq<Interval>, i: nat): Interval
    requires i + 1 < |s|
  {
    Interval(s[i].end + 1, s[i + 1].start - 1)
  }

  /** Introns of the first `k` junctions of an exon list. */
  function JunctionsUpTo(s: seq<Interval>, k: nat): set<Interval>
    requires k < |s| || (k == 0 && s == [])
  {
    if k == 0 then {} else JunctionsUpTo(s, k - 1) + {Junction(s, k - 1)}
  }

  function Introns(s: seq<Interval>): set<Interval>
  {
    if |s| <= 1 then {} else JunctionsUpTo(s, |s| - 1)
  }

  /** Splice sites recorded for the first `k` junctions: both ends of each intron. */
  function SplicesUpTo(s: seq<Interval>, k: nat): set<int>
    requires k < |s| || (k == 0 && s == [])
  {
    if k == 0 then {} else SplicesUpTo(s, k - 1) + {Junction(s, k - 1).start, Junction(s, k - 1).end}
  }

  function Splices(s: seq<Interval>): set<int>
  {
    if |s| <= 1 then {} else SplicesUpTo(s, |s| - 1)
  }

  /** The introns are exactly the junctions between consecutive exons. */
  lemma {:induction false} JunctionsMembers(s: seq<Interval>, k: nat)
    requires k < |s|
    ensures forall x :: x in JunctionsUpTo(s, k) <==> exists i :: 0 <= i < k && x == Junction(s, i)
  {
    if k > 0 {
      JunctionsMembers(s, k - 1);
    }
  }

  /** The splice sites are exactly the two ends of every intron. */
  lemma {:induction false} SplicesMembers(s: seq<Interval>, k: nat)
    requires k < |s|
    ensures forall p :: p in SplicesUpTo(s, k) <==>
      exists x :: x in JunctionsUpTo(s, k) && (p == x.start || p == x.end)
  {
    if k > 0 {
      SplicesMembers(s, k - 1);
    }
  }

  /** Along a chain of well-formed intervals, every earlier junction starts no later than the
      end of the k-th interval. */
  lemma {:induction false} JunctionsBelow(s: seq<Interval>, k: nat)
    requires Chain(s) && WellFormed(s) && k < |s|
    ensures forall x :: x in JunctionsUpTo(s, k) ==> x.start <= s[k].end
  {
    if k > 0 {
      JunctionsBelow(s, k - 1);
    }
  }

  /** A chain of well-formed exons has one intron per junction: no two junctions coincide. */
  lemma {:induction false} JunctionCount(s: seq<Interval>, k: nat)
    requires Chain(s) && WellFormed(s) && k < |s|
    ensures |JunctionsUpTo(s, k)| == k
  {
    if k > 0 {
      JunctionCount(s, k - 1);
      JunctionsBelow(s, k - 1);
      assert Junction(s, k - 1) !in JunctionsUpTo(s, k - 1);
    }
  }

  /** A multi-exon chain has exactly one intron fewer than it has exons. */
  lemma IntronCount(s: seq<Interval>)
    requires Chain(s) && WellFormed(s) && s != []
    ensures |Introns(s)| == |s| - 1
  {
    if |s| > 1 {
      JunctionCount(s, |s| - 1);
    }
  }

  /** The positions `lo..hi`, both included. */
  function Range(lo: int, hi: int): (r: set<int>)
    ensures forall p :: p in r <==> lo <= p <= hi
    decreases hi - lo
  {
    if lo > hi then {} else {lo} + Range(lo + 1, hi)
  }

  /** Every base position covered by some interval of `s`. */
  function Positions(s: seq<Interval>): set<int>
  {
    if s == [] then {} else Range(s[0].start, s[0].end) + Positions(s[1..])
  }

  lemma {:induction false} TotalLengthAppend(a: seq<Interval>, b: seq<Interval>)
    ensures TotalLength(a + b) == TotalLength(a) + TotalLength(b)
  {
    if a == [] {
      assert a + b == b;
    } else {
      assert (a + b)[1..] == a[1..] + b;
      TotalLengthAppend(a[1..], b);
    }
  }

  lemma {:induction false} TotalLengthInsert(x: Interval, s: seq<Interval>)
    ensures TotalLength(Sorting.Insert(x, s, LexLe)) == Len(x) + TotalLength(s)
  {
    if s != [] && !LexLe(x, s[0]) {
      TotalLengthInsert(x, s[1..]);
    }
  }

  /** Sorting never changes a summed length: `cdna_length` is order-independent. */
  lemma {:induction false} TotalLengthSorted(s: seq<Interval>)
    ensures TotalLength(SortIntervals(s)) == TotalLength(s)
  {
    if s != [] {
      TotalLengthSorted(s[1..]);
      TotalLengthInsert(s[0], Sorting.Sort(s[1..], LexLe));
      LexLeIsTotalPreorder();
      Sorting.SortSorted(s[1..], LexLe);
    }
  }

  /** A position is covered exactly when some interval holds it. */
  lemma {:induction false} PositionsMembers(s: seq<Interval>)
    ensures forall p :: p in Positions(s) <==> exists i :: 0 <= i < |s| && s[i].start <= p <= s[i].end
  {
    if s != [] {
      PositionsMembers(s[1..]);
      forall p | p in Positions(s)
        ensures exists i :: 0 <= i < |s| && s[i].start <= p <= s[i].end
      {
        if !(s[0].start <= p <= s[0].end) {
          assert p in Positions(s[1..]);
          var i :| 0 <= i < |s[1..]| && s[1..][i].start <= p <= s[1..][i].end;
          assert s[i + 1] == s[1..][i];
        }
      }
      forall p, i | 0 <= i < |s| && s[i].start <= p <= s[i].end
        ensures p in Positions(s)
      {
        if i > 0 {
          assert s[1..][i - 1] == s[i];
        }
      }
    }
  }

  lemma {:induction false} PositionsSnoc(s: seq<Interval>, x: Interval)
    ensures Positions(s + [x]) == Positions(s) + Range(x.start, x.end)
  {
    if s == [] {
      assert s + [x] == [x];
    } else {
      assert (s + [x])[1..] == s[1..] + [x];
      PositionsSnoc(s[1..], x);
    }
  }

  lemma RangeSnoc(lo: int, hi: int, next: int)
    requires lo <= next && next == hi + 1
    ensures Range(lo, next) == Range(lo, hi) + {next}
  {
  }

  /** A closed range of positions has as many positions as the interval has bases. */
  lemma {:induction false} RangeSize(lo: int, hi: int)
    requires lo <= hi + 1
    ensures |Range(lo, hi)| == hi - lo + 1
    decreases hi - lo
  {
    if lo <= hi {
      RangeSize(lo + 1, hi);
      assert lo !in Range(lo + 1, hi);
    }
  }

  /** Along a chain, every interval ends before every later one starts. */
  lemma {:induction false} ChainOrdered(s: seq<Interval>, i: int, j: int)
    requires Chain(s) && WellFormed(s) && 0 <= i < j < |s|
    ensures s[i].end < s[j].start
    decreases j - i
  {
    if j > i + 1 {
      ChainOrdered(s, i + 1, j);
    }
  }

  /** Along a chain, the later intervals lie wholly after the first. */
  lemma ChainRestAfter(s: seq<Interval>)
    requires Chain(s) && WellFormed(s) && s != []
    ensures forall p :: p in Positions(s[1..]) ==> s[0].end < p
  {
    PositionsMembers(s[1..]);
    forall p | p in Positions(s[1..])
      ensures s[0].end < p
    {
      var i :| 0 <= i < |s[1..]| && s[1..][i].start <= p <= s[1..][i].end;
      assert s[1..][i] == s[i + 1];
      ChainOrdered(s, 0, i + 1);
    }
  }

  /** The intervals of a chain cover as many positions as their summed length. */
  lemma {:induction false} ChainPositionsSize(s: seq<Interval>)
    requires Chain(s) && WellFormed(s)
    ensures |Positions(s)| == TotalLength(s)
  {
    if s != [] {
      var rest := s[1..];
      assert Chain(rest) && WellFormed(rest) by {
        forall i | 0 <= i < |rest| - 1 ensures rest[i].end < rest[i + 1].start {
          assert rest[i] == s[i + 1] && rest[i + 1] == s[i + 2];
        }
      }
      ChainPositionsSize(rest);
      RangeSize(s[0].start, s[0].end);
      ChainRestAfter(s);
      assert Range(s[0].start, s[0].end) * Positions(rest) == {};
    }
  }
}
