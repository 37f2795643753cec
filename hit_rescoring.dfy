/** Rescoring of a BLAST hit against the boundary of one split transcript
    (mikado_lib transcript_methods/split_by_cds.py lines 499-561): only the HSPs that cover
    enough of the boundary are kept, their query and target spans are merged, aligned lengths
    are the merged lengths, and identity/positive positions are read off the match lines. */
module HitRescoring {
  import opened Intervals
  import opened Optional
  import opened CdsSplit
  import Sorting

  // ---------------------------------------------------------------------------------------
  // Extremes of an interval list (`min(x[0] for ...)`, `max(x[1] for ...)`)

  function MinStart(s: seq<Interval>): (r: int)
    requires s != []
    ensures forall i :: 0 <= i < |s| ==> r <= s[i].start
    ensures exists i :: 0 <= i < |s| && r == s[i].start
  {
    if |s| == 1 then s[0].start
    else
      var m := MinStart(s[..|s| - 1]);
      assert forall i :: 0 <= i < |s| - 1 ==> s[..|s| - 1][i] == s[i];
      if s[|s| - 1].start < m then s[|s| - 1].start else m
  }

  function MaxEnd(s: seq<Interval>): (r: int)
    requires s != []
    ensures forall i :: 0 <= i < |s| ==> s[i].end <= r
    ensures exists i :: 0 <= i < |s| && r == s[i].end
  {
    if |s| == 1 then s[0].end
    else
      var m := MaxEnd(s[..|s| - 1]);
      assert forall i :: 0 <= i < |s| - 1 ==> s[..|s| - 1][i] == s[i];
      Max(m, s[|s| - 1].end)
  }

  // ---------------------------------------------------------------------------------------
  // Merging of overlapping ranges

  /** One step of the merge over sorted ranges: a range starting within the current one
      extends it, any other range opens a new one. */
  function MergeInto(acc: seq<Interval>, x: Interval): (r: seq<Interval>)
    ensures r != [] && |r| <= |acc| + 1
  {
    if acc != [] && x.start <= Last(acc).end then
      acc[..|acc| - 1] + [Interval(Last(acc).start, Max(Last(acc).end, x.end))]
    else
      acc + [x]
  }

  function MergeSorted(s: seq<Interval>): (r: seq<Interval>)
    ensures (r == []) == (s == []) && |r| <= |s|
  {
    if s == [] then [] else MergeInto(MergeSorted(s[..|s| - 1]), Last(s))
  }

  /** The merge of a list of ranges: sort them, then fuse the ones that overlap. */
  function Merge(s: seq<Interval>): seq<Interval>
  {
    MergeSorted(SortIntervals(s))
  }

  /** Merging sorts the ranges, then walks them. */
  method MergeRanges(s: seq<Interval>) returns (r: seq<Interval>)
    requires s != []
    ensures r == Merge(s)
  {
    var xs := SortIntervals(s);
    r := MergeWalk(xs);
  }

  /** The walk over the sorted ranges holding the range being grown in `cur`. The first range
      is taken before the loop, so the input must not be empty. */
  method MergeWalk(xs: seq<Interval>) returns (r: seq<Interval>)
    requires xs != []
    ensures r == MergeSorted(xs)
  {
    var cur := xs[0];
    r := [];
    assert xs[..1] == [xs[0]];
    for i := 1 to |xs|
      invariant r + [cur] == MergeSorted(xs[..i])
    {
      MergeSortedStep(xs, i);
      if xs[i].start > cur.end {
        r := r + [cur];
        cur := xs[i];
      } else {
        cur := Interval(cur.start, Max(cur.end, xs[i].end));
      }
    }
    assert xs[..|xs|] == xs;
    r := r + [cur];
  }

  lemma MergeSortedStep(xs: seq<Interval>, i: nat)
    requires i < |xs|
    ensures MergeSorted(xs[..i + 1]) == MergeInto(MergeSorted(xs[..i]), xs[i])
  {
    assert xs[..i + 1][..i] == xs[..i];
  }

  /** One merge step keeps a chain of well-formed ranges a chain, provided the new range
      starts no earlier than the last one: the first start stays, the last end is the furthest. */
  lemma MergeIntoShape(acc: seq<Interval>, x: Interval)
    requires Chain(acc) && WellFormed(acc) && x.start <= x.end
    requires acc != [] ==> Last(acc).start <= x.start
    ensures var r := MergeInto(acc, x);
      && Chain(r) && WellFormed(r)
      && (acc == [] ==> r == [x])
      && (acc != [] ==> r[0].start == acc[0].start && Last(r).start <= x.start && Last(r).end == Max(Last(acc).end, x.end))
  {
    var r := MergeInto(acc, x);
    if acc != [] && x.start <= Last(acc).end {
      assert forall i :: 0 <= i < |r| - 1 ==> r[i] == acc[i];
    } else if acc != [] {
      assert forall i :: 0 <= i < |acc| ==> r[i] == acc[i];
    }
  }

  /** One merge step adds exactly the positions of the new range. */
  lemma MergeIntoPositions(acc: seq<Interval>, x: Interval)
    requires acc != [] ==> Last(acc).start <= x.start
    ensures Positions(MergeInto(acc, x)) == Positions(acc) + Range(x.start, x.end)
  {
    if acc != [] && x.start <= Last(acc).end {
      var pre, last := acc[..|acc| - 1], Last(acc);
      assert acc == pre + [last];
      PositionsSnoc(pre, last);
      PositionsSnoc(pre, Interval(last.start, Max(last.end, x.end)));
      assert Range(last.start, Max(last.end, x.end)) == Range(last.start, last.end) + Range(x.start, x.end);
    } else {
      PositionsSnoc(acc, x);
    }
  }

  /** Dropping the last range of a sorted well-formed list leaves it sorted and well formed. */
  lemma SortedInit(s: seq<Interval>)
    requires Sorting.SortedBy(s, LexLe) && WellFormed(s) && |s| >= 2
    ensures var init := s[..|s| - 1];
      Sorting.SortedBy(init, LexLe) && WellFormed(init) && Last(init).start <= Last(s).start && init[0] == s[0]
  {
    assert LexLe(s[|s| - 2], s[|s| - 1]);
  }

  /** Over sorted well-formed ranges the merge yields a chain that starts where the first
      range starts and ends where the furthest-reaching range ends. */
  lemma {:induction false} MergeChain(s: seq<Interval>)
    requires Sorting.SortedBy(s, LexLe) && WellFormed(s)
    ensures var r := MergeSorted(s);
      && Chain(r) && WellFormed(r)
      && (s != [] ==> r[0].start == s[0].start && Last(r).start <= Last(s).start && Last(r).end == MaxEnd(s))
  {
    if |s| == 1 {
      MergeIntoShape([], s[0]);
    } else if |s| >= 2 {
      var init := s[..|s| - 1];
      SortedInit(s);
      MergeChain(init);
      MergeIntoShape(MergeSorted(init), Last(s));
    }
  }

  /** Merging covers exactly the positions the ranges cover. */
  lemma {:induction false} MergePositions(s: seq<Interval>)
    requires Sorting.SortedBy(s, LexLe) && WellFormed(s)
    ensures Positions(MergeSorted(s)) == Positions(s)
  {
    if s != [] {
      var init, x := s[..|s| - 1], Last(s);
      assert s == init + [x];
      PositionsSnoc(init, x);
      if init != [] {
        SortedInit(s);
        MergePositions(init);
        MergeChain(init);
      }
      MergeIntoPositions(MergeSorted(init), x);
    }
  }

  /** A chain of well-formed ranges is already in `(start, end)` order. */
  lemma ChainSorted(s: seq<Interval>)
    requires Chain(s) && WellFormed(s)
    ensures Sorting.SortedBy(s, LexLe)
  {
    forall i, j | 0 <= i < j < |s|
      ensures LexLe(s[i], s[j])
    {
      ChainOrdered(s, i, j);
    }
  }

  /** Two lists holding the same intervals cover the same positions. */
  lemma SamePositions(a: seq<Interval>, b: seq<Interval>)
    requires forall x :: x in a <==> x in b
    ensures Positions(a) == Positions(b)
  {
    PositionsMembers(a);
    PositionsMembers(b);
    forall p | p in Positions(a) ensures p in Positions(b) {
      var i :| 0 <= i < |a| && a[i].start <= p <= a[i].end;
      assert a[i] in b;
      var j :| 0 <= j < |b| && b[j] == a[i];
    }
    forall p | p in Positions(b) ensures p in Positions(a) {
      var j :| 0 <= j < |b| && b[j].start <= p <= b[j].end;
      assert b[j] in a;
      var i :| 0 <= i < |a| && a[i] == b[j];
    }
  }

  /** Two lists holding the same intervals have the same extremes and are well formed together. */
  lemma SameExtremes(a: seq<Interval>, b: seq<Interval>)
    requires a != [] && b != [] && forall x :: x in a <==> x in b
    ensures WellFormed(a) == WellFormed(b)
    ensures MinStart(a) == MinStart(b) && MaxEnd(a) == MaxEnd(b)
  {
    assert forall i :: 0 <= i < |a| ==> a[i] in b;
    assert forall j :: 0 <= j < |b| ==> b[j] in a;
    var i, j :| 0 <= i < |a| && 0 <= j < |b| && a[i].start == MinStart(a) && b[j].start == MinStart(b);
    var k, l :| 0 <= k < |a| && 0 <= l < |b| && a[k].end == MaxEnd(a) && b[l].end == MaxEnd(b);
  }

  /** Sorting is a permutation, so it keeps the covered positions and the extremes, and the
      sorted list starts with the least start. */
  lemma SortKeeps(s: seq<Interval>)
    requires s != []
    ensures var t := SortIntervals(s);
      && Positions(t) == Positions(s) && WellFormed(t) == WellFormed(s)
      && t[0].start == MinStart(s) && MaxEnd(t) == MaxEnd(s)
  {
    var t := SortIntervals(s);
    SortIntervalsPermutes(s);
    SortIntervalsSorted(s);
    forall x
      ensures x in t <==> x in s
    {
      assert x in t <==> x in multiset(t);
    }
    SamePositions(t, s);
    SameExtremes(t, s);
    var j :| 0 <= j < |t| && t[j].start == MinStart(t);
    if j != 0 {
      assert LexLe(t[0], t[j]);
    }
  }

  /** What the rescoring reads off a merged list: `sorted(merge(spans))` is a chain whose summed
      length counts every covered position once and whose ends are the extremes of the spans. */
  lemma MergedSummary(s: seq<Interval>)
    requires s != [] && WellFormed(s)
    ensures var m := SortIntervals(Merge(s));
      && m == Merge(s) && m != [] && Chain(m) && WellFormed(m)
      && TotalLength(m) == |Positions(s)|
      && m[0].start == MinStart(s) && Last(m).end == MaxEnd(s)
  {
    var t := SortIntervals(s);
    SortKeeps(s);
    SortIntervalsSorted(s);
    MergeChain(t);
    MergePositions(t);
    var m := MergeSorted(t);
    ChainPositionsSize(m);
    ChainSorted(m);
    Sorting.SortOfSorted(m, LexLe);
    assert t[0].start == MinStart(s);
  }

  // ---------------------------------------------------------------------------------------
  // Identity and positive positions read off the alignment's match line

  /** A letter or `|` in the match line is an identity. */
  predicate Identity(c: char)
  {
    'A' <= c <= 'Z' || 'a' <= c <= 'z' || c == '|'
  }

  /** The query position reached and the identical and positive positions seen so far. */
  datatype Tally = Tally(pos: int, identical: set<int>, positives: set<int>)

  /** An identity or `+` advances the query position and marks it positive (and identical
      unless it is a `+`); `_`, a gap in the target, only advances; anything else is skipped. */
  function Read(t: Tally, c: char): Tally
  {
    if Identity(c) || c == '+' then
      var q := t.pos + 1;
      Tally(q, if c != '+' then t.identical + {q} else t.identical, t.positives + {q})
    else if c == '_' then
      Tally(t.pos + 1, t.identical, t.positives)
    else
      t
  }

  function Walk(t: Tally, line: string): Tally
  {
    if line == [] then t else Read(Walk(t, line[..|line| - 1]), Last(line))
  }

  /** The positions marked by the match lines of `hs`: each line is read from one base before
      its HSP's query start, into sets shared by all HSPs. */
  function Marks(hs: seq<Hsp>): Tally
  {
    if hs == [] then Tally(0, {}, {})
    else
      var m := Marks(hs[..|hs| - 1]);
      Walk(Tally(Last(hs).query.start - 1, m.identical, m.positives), Last(hs).alignment)
  }

  /** Reading a match line only adds positions, never goes back, and every added position lies
      in the stretch of query it advanced over; an identity is always a positive. */
  lemma {:induction false} WalkBounds(t: Tally, line: string)
    requires t.identical <= t.positives
    ensures var w := Walk(t, line);
      && t.pos <= w.pos <= t.pos + |line|
      && t.identical <= w.identical <= w.positives
      && t.positives <= w.positives
      && forall q :: q in w.positives && q !in t.positives ==> t.pos < q <= w.pos
  {
    if line != [] {
      var init := line[..|line| - 1];
      WalkBounds(t, init);
      var v := Walk(t, init);
      ReadBounds(v, Last(line));
      var w := Walk(t, line);
      assert w == Read(v, Last(line));
      forall q | q in w.positives && q !in t.positives
        ensures t.pos < q <= w.pos
      {
        if q !in v.positives {
          assert q == w.pos;
        }
      }
    }
  }

  /** Reading one character advances the query position by at most one base and marks at
      most the position it advanced to. */
  lemma ReadBounds(t: Tally, c: char)
    ensures var w := Read(t, c);
      && t.pos <= w.pos <= t.pos + 1
      && t.identical <= w.identical && t.positives <= w.positives
      && w.identical - t.identical <= w.positives
      && (w.positives - t.positives != {} ==> w.positives - t.positives == {w.pos} && w.pos == t.pos + 1)
  {
  }

  /** Over the kept HSPs, every identical position is positive, and every positive position lies
      in the first `|match line|` bases of some HSP's query span. */
  lemma {:induction false} MarksBounds(hs: seq<Hsp>)
    ensures var m := Marks(hs);
      && m.identical <= m.positives
      && forall q :: q in m.positives ==>
           exists i :: 0 <= i < |hs| && hs[i].query.start <= q < hs[i].query.start + |hs[i].alignment|
  {
    if hs != [] {
      var init := hs[..|hs| - 1];
      MarksBounds(init);
      var m := Marks(init);
      var h := Last(hs);
      var t := Tally(h.query.start - 1, m.identical, m.positives);
      WalkBounds(t, h.alignment);
      var w := Walk(t, h.alignment);
      assert Marks(hs) == w;
      forall q | q in w.positives
        ensures exists i :: 0 <= i < |hs| && hs[i].query.start <= q < hs[i].query.start + |hs[i].alignment|
      {
        if q in m.positives {
          var i :| 0 <= i < |init| && init[i].query.start <= q < init[i].query.start + |init[i].alignment|;
          assert hs[i] == init[i];
        } else {
          assert h.query.start <= q < h.query.start + |h.alignment|;
          assert hs[|hs| - 1] == h;
        }
      }
    }
  }

  // ---------------------------------------------------------------------------------------
  // __recalculate_hit (lines 499-561)

  /** The HSPs, in order, whose query span overlaps the boundary by at least the minimal share. */
  function Kept(hs: seq<Hsp>, b: Interval, p: BlastParams): (r: seq<Hsp>)
    ensures forall h :: h in r <==> h in hs && Covers(h, b, p)
  {
    if hs == [] then []
    else
      var init := hs[..|hs| - 1];
      assert forall h :: h in hs <==> h in init || h == Last(hs);
      Kept(init, b, p) + (if Covers(Last(hs), b, p) then [Last(hs)] else [])
  }

  function MaxBits(hs: seq<Hsp>): (r: real)
    requires hs != []
    ensures forall i :: 0 <= i < |hs| ==> hs[i].bits <= r
    ensures exists i :: 0 <= i < |hs| && r == hs[i].bits
  {
    if |hs| == 1 then hs[0].bits
    else
      var m := MaxBits(hs[..|hs| - 1]);
      assert forall i :: 0 <= i < |hs| - 1 ==> hs[..|hs| - 1][i] == hs[i];
      if Last(hs).bits > m then Last(hs).bits else m
  }

  function MinEvalue(hs: seq<Hsp>): (r: real)
    requires hs != []
    ensures forall i :: 0 <= i < |hs| ==> r <= hs[i].evalue
    ensures exists i :: 0 <= i < |hs| && r == hs[i].evalue
  {
    if |hs| == 1 then hs[0].evalue
    else
      var m := MinEvalue(hs[..|hs| - 1]);
      assert forall i :: 0 <= i < |hs| - 1 ==> hs[..|hs| - 1][i] == hs[i];
      if Last(hs).evalue < m then Last(hs).evalue else m
  }

  /** A rescored hit: the hit with its new query span and kept HSPs, the aligned query length,
      the target span and aligned target length, the identical and positive counts, the best
      bit score and the best e-value. */
  datatype Rescored = Rescored(
    hit: Hit,
    queryAligned: int,
    targetSpan: Interval,
    targetAligned: int,
    identical: nat,
    positives: nat,
    bits: real,
    evalue: real)

  /** The rescoring of `hit` against boundary `b`: nothing when no HSP covers the boundary. */
  function Recalculated(hit: Hit, b: Interval, p: BlastParams): Option<Rescored>
  {
    var kept := Kept(hit.hsps, b, p);
    if kept == [] then None
    else
      var qm, tm := SortIntervals(Merge(Queries(kept))), SortIntervals(Merge(Targets(kept)));
      var m := Marks(kept);
      Some(Rescored(
        Hit(hit.target, Interval(qm[0].start, Last(qm).end), kept),
        TotalLength(qm),
        Interval(tm[0].start, Last(tm).end),
        TotalLength(tm),
        |m.identical|,
        |m.positives|,
        MaxBits(kept),
        MinEvalue(kept)))
  }

  /** Reads one HSP's match line into the shared position sets. */
  method TallyLine(h: Hsp, identical: set<int>, positives: set<int>) returns (ids: set<int>, pos: set<int>)
    ensures var w := Walk(Tally(h.query.start - 1, identical, positives), h.alignment);
      ids == w.identical && pos == w.positives
  {
    var queryPos := h.query.start - 1;
    ids, pos := identical, positives;
    ghost var t0 := Tally(queryPos, identical, positives);
    for j := 0 to |h.alignment|
      invariant Tally(queryPos, ids, pos) == Walk(t0, h.alignment[..j])
    {
      assert h.alignment[..j + 1][..j] == h.alignment[..j];
      var c := h.alignment[j];
      if Identity(c) || c == '+' {
        queryPos := queryPos + 1;
        pos := pos + {queryPos};
        if c != '+' {
          ids := ids + {queryPos};
        }
      } else if c == '_' {
        queryPos := queryPos + 1;
      }
    }
    assert h.alignment[..|h.alignment|] == h.alignment;
  }

  /** The loop over the hit's HSPs: keeps the covering ones, collects their query and target
      spans and reads their match lines. */
  method CollectHsps(hs: seq<Hsp>, b: Interval, p: BlastParams)
    returns (kept: seq<Hsp>, qs: seq<Interval>, ts: seq<Interval>, identical: set<int>, positives: set<int>)
    ensures kept == Kept(hs, b, p) && qs == Queries(kept) && ts == Targets(kept)
    ensures identical == Marks(kept).identical && positives == Marks(kept).positives
  {
    kept, qs, ts, identical, positives := [], [], [], {}, {};
    for i := 0 to |hs|
      invariant kept == Kept(hs[..i], b, p) && qs == Queries(kept) && ts == Targets(kept)
      invariant identical == Marks(kept).identical && positives == Marks(kept).positives
    {
      var hsp := hs[i];
      KeptStep(hs, i, b, p);
      OverlapSymmetric(hsp.query, b);
      if Overlap(hsp.query, b) as real >= Threshold(p, b) {
        KeptSnoc(kept, hsp);
        identical, positives := TallyLine(hsp, identical, positives);
        kept := kept + [hsp];
        qs := qs + [hsp.query];
        ts := ts + [hsp.target];
      }
    }
    assert hs[..|hs|] == hs;
  }

  lemma KeptStep(hs: seq<Hsp>, i: nat, b: Interval, p: BlastParams)
    requires i < |hs|
    ensures Kept(hs[..i + 1], b, p) == Kept(hs[..i], b, p) + (if Covers(hs[i], b, p) then [hs[i]] else [])
  {
    assert hs[..i + 1][..i] == hs[..i];
  }

  /** Keeping one more HSP appends its spans and reads its match line into the marks. */
  lemma KeptSnoc(kept: seq<Hsp>, h: Hsp)
    ensures Queries(kept + [h]) == Queries(kept) + [h.query]
    ensures Targets(kept + [h]) == Targets(kept) + [h.target]
    ensures Marks(kept + [h]) == Walk(Tally(h.query.start - 1, Marks(kept).identical, Marks(kept).positives), h.alignment)
  {
    assert (kept + [h])[..|kept|] == kept;
  }

  /** The merged ranges of `s`, sorted by start (lines 544-551). */
  method SortedMerge(s: seq<Interval>) returns (r: seq<Interval>)
    requires s != []
    ensures r == SortIntervals(Merge(s))
    ensures r != []
  {
    r := MergeRanges(s);
    r := SortIntervals(r);
  }

  method RecalculateHit(hit: Hit, b: Interval, p: BlastParams) returns (r: Option<Rescored>)
    ensures r == Recalculated(hit, b, p)
  {
    var kept, qs, ts, identical, positives := CollectHsps(hit.hsps, b, p);
    if |kept| == 0 {
      return None;
    }
    var qm := SortedMerge(qs);
    var tm := SortedMerge(ts);
    r := Some(Rescored(
      Hit(hit.target, Interval(qm[0].start, qm[|qm| - 1].end), kept),
      TotalLength(qm),
      Interval(tm[0].start, tm[|tm| - 1].end),
      TotalLength(tm),
      |identical|,
      |positives|,
      MaxBits(kept),
      MinEvalue(kept)));
  }

  /** A hit is dropped exactly when none of its HSPs covers the boundary; otherwise it keeps
      exactly the covering HSPs, its e-value is the least and its bit score the greatest among
      them. */
  lemma RecalculatedHsps(hit: Hit, b: Interval, p: BlastParams)
    ensures var r := Recalculated(hit, b, p);
      && (r.None? <==> forall h :: h in hit.hsps ==> !Covers(h, b, p))
      && (r.Some? ==>
            && (forall h :: h in r.value.hit.hsps <==> h in hit.hsps && Covers(h, b, p))
            && r.value.hit.target == hit.target
            && (forall h :: h in r.value.hit.hsps ==> r.value.evalue <= h.evalue && h.bits <= r.value.bits)
            && (exists h :: h in r.value.hit.hsps && r.value.evalue == h.evalue)
            && (exists h :: h in r.value.hit.hsps && r.value.bits == h.bits))
  {
    var kept := Kept(hit.hsps, b, p);
    if kept != [] {
      var e, m := MinEvalue(kept), MaxBits(kept);
      var i :| 0 <= i < |kept| && e == kept[i].evalue;
      var j :| 0 <= j < |kept| && m == kept[j].bits;
      assert kept[i] in kept && kept[j] in kept;
    } else {
      assert forall h :: h in hit.hsps ==> !Covers(h, b, p);
    }
  }

  /** HSP spans that are well formed, `start <= end` on both query and target. */
  predicate SpansWellFormed(hs: seq<Hsp>)
  {
    forall h :: h in hs ==> h.query.start <= h.query.end && h.target.start <= h.target.end
  }

  lemma KeptWellFormed(hs: seq<Hsp>, b: Interval, p: BlastParams)
    requires SpansWellFormed(hs)
    ensures var kept := Kept(hs, b, p);
      WellFormed(Queries(kept)) && WellFormed(Targets(kept))
  {
    var kept := Kept(hs, b, p);
    assert forall i :: 0 <= i < |kept| ==> kept[i] in hs;
  }

  /** With well-formed HSP spans, a rescored hit's aligned query length counts the query
      positions its kept HSPs cover, each once, and its query span runs from their least start
      to their greatest end. */
  lemma RecalculatedQuery(hit: Hit, b: Interval, p: BlastParams)
    requires SpansWellFormed(hit.hsps)
    ensures var r, kept := Recalculated(hit, b, p), Kept(hit.hsps, b, p);
      r.Some? ==>
        && r.value.queryAligned == |Positions(Queries(kept))|
        && r.value.hit.query == Interval(MinStart(Queries(kept)), MaxEnd(Queries(kept)))
  {
    var kept := Kept(hit.hsps, b, p);
    if kept != [] {
      KeptWellFormed(hit.hsps, b, p);
      MergedSummary(Queries(kept));
    }
  }

  /** The same for the target: aligned length and span of the kept HSPs' target spans. */
  lemma RecalculatedTarget(hit: Hit, b: Interval, p: BlastParams)
    requires SpansWellFormed(hit.hsps)
    ensures var r, kept := Recalculated(hit, b, p), Kept(hit.hsps, b, p);
      r.Some? ==>
        && r.value.targetAligned == |Positions(Targets(kept))|
        && r.value.targetSpan == Interval(MinStart(Targets(kept)), MaxEnd(Targets(kept)))
  {
    var kept := Kept(hit.hsps, b, p);
    if kept != [] {
      KeptWellFormed(hit.hsps, b, p);
      MergedSummary(Targets(kept));
    }
  }

  /** A rescored hit has no more identities than positives, and every positive position lies in
      the stretch of query that some kept HSP's match line reads. */
  lemma RecalculatedMarks(hit: Hit, b: Interval, p: BlastParams)
    ensures var r, kept := Recalculated(hit, b, p), Kept(hit.hsps, b, p);
      r.Some? ==>
        && r.value.identical <= r.value.positives
        && forall q :: q in Marks(kept).positives ==>
             exists h :: h in kept && h.query.start <= q < h.query.start + |h.alignment|
  {
    var kept := Kept(hit.hsps, b, p);
    MarksBounds(kept);
    var m := Marks(kept);
    Subset(m.identical, m.positives);
    forall q | q in m.positives
      ensures exists h :: h in kept && h.query.start <= q < h.query.start + |h.alignment|
    {
      var i :| 0 <= i < |kept| && kept[i].query.start <= q < kept[i].query.start + |kept[i].alignment|;
      assert kept[i] in kept;
    }
  }

  lemma {:induction false} Subset(a: set<int>, b: set<int>)
    requires a <= b
    ensures |a| <= |b|
  {
    assert b == a + (b - a);
  }

  /** As written, the rescoring calls a `merge` that its module never defines: any hit with a
      covering HSP raises `NameError` instead of being rescored. */
  method RecalculateHitAsWritten(hit: Hit, b: Interval, p: BlastParams) returns (r: Result<Option<Rescored>>)
    ensures r.Ok? <==> forall h :: h in hit.hsps ==> !Covers(h, b, p)
    ensures r.Ok? ==> r.value == None
    ensures r.Fail? ==> r.error == NameError && Recalculated(hit, b, p).Some?
  {
    var kept, qs, ts, identical, positives := CollectHsps(hit.hsps, b, p);
    if |kept| == 0 {
      return Ok(None);
    }
    assert kept[0] in kept;
    r := Fail(NameError);
  }
}
