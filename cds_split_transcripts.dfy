/** Chimera splitting, second half (mikado_lib transcript_methods/split_by_cds.py lines 175-594):
    every final boundary, in transcript coordinates, is mapped back onto the genomic exons read
    from the 5' end; exons straddling the boundary are trimmed; the BLAST hits overlapping the
    boundary are rescored against it; and one `<id>.split<k>` transcript is made per boundary. */
module CdsSplitTranscripts {
  import opened Intervals
  import opened Optional
  import opened CdsSplit
  import Sorting
  import Text
  import HitRescoring

  // ---------------------------------------------------------------------------------------
  // __split_complex_exon (lines 175-311)

  /** The kept exon, its transcript coordinates and the genomic part given up, if any. */
  datatype Piece = Piece(exon: Interval, texon: Interval, discard: Option<Interval>)

  /** The trimming of one exon that only partly lies in the boundary `b`, before the widening
      of a single-coordinate exon.  `left`/`right` say whether another split lies on that side.
      Cases 1 and 2 compare the strand with "+" (so an unknown strand is handled like "-"),
      cases 3 to 5 compare it with "-" (so an unknown strand is handled like "+"). */
  function Trim(exon: Interval, texon: Interval, left: bool, right: bool, b: Interval, strand: Option<Strand>): Piece
  {
    var plus, minus := strand == Some(Plus), strand == Some(Minus);
    // 1: the exon's last transcript base is the boundary's first
    if texon.end == b.start then
      if !left then Piece(exon, texon, None)
      else if plus then
        Piece(Interval(exon.end - 1, exon.end), Interval(texon.end - 1, texon.end), Some(Interval(exon.start, exon.end - 1)))
      else
        Piece(Interval(exon.start, exon.start + 1), Interval(texon.end - 1, texon.end), Some(Interval(exon.start + 1, exon.end)))
    // 2: the exon's first transcript base is the boundary's last
    else if texon.start == b.end then
      if !right then Piece(exon, texon, None)
      else if plus then
        Piece(Interval(exon.start, exon.start + 1), Interval(texon.start, texon.start + 1), Some(Interval(exon.start + 1, exon.end)))
      else
        Piece(Interval(exon.end - 1, exon.end), Interval(texon.start, texon.start + 1), Some(Interval(exon.start, exon.end - 1)))
    // 3: the boundary lies inside the exon
    else if texon.start <= b.start <= b.end <= texon.end then
      var lo := if minus then (if right then exon.end - (b.end - texon.start) else exon.start)
                else (if left then exon.end - (texon.end - b.start) else exon.start);
      var hi := if minus then (if left then exon.start + (texon.end - b.start) else exon.end)
                else (if right then exon.start + (b.end - texon.start) else exon.end);
      Piece(Interval(lo, hi), Interval(if left then b.start else texon.start, if right then b.end else texon.end), None)
    // 4: the exon carries 5' UTR
    else if texon.start <= b.start <= texon.end <= b.end then
      if !left then Piece(exon, texon, None)
      else if minus then Piece(Interval(exon.start, exon.start + (texon.end - b.start)), Interval(b.start, texon.end), None)
      else Piece(Interval(exon.end - (texon.end - b.start), exon.end), Interval(b.start, texon.end), None)
    // 5: the exon carries 3' UTR
    else if b.start <= texon.start <= b.end <= texon.end then
      if !right then Piece(exon, texon, None)
      else if minus then Piece(Interval(exon.end - (b.end - texon.start), exon.end), Interval(texon.start, b.end), None)
      else Piece(Interval(exon.start, exon.start + (b.end - texon.start)), Interval(texon.start, b.end), None)
    else Piece(exon, texon, None)
  }

  /** No exon of a single coordinate: its end moves one base on. */
  function Widen(p: Piece): Piece
  {
    if p.exon.start == p.exon.end then Piece(Interval(p.exon.start, p.exon.end + 1), p.texon, p.discard) else p
  }

  /** What `__split_complex_exon` returns. */
  function ComplexPiece(exon: Interval, texon: Interval, left: bool, right: bool, b: Interval, strand: Option<Strand>): Piece
  {
    Widen(Trim(exon, texon, left, right, b, strand))
  }

  /** `__split_complex_exon`, updating its copies of the exon and of its transcript
      coordinates in place. */
  method SplitComplexExon(exon: Interval, texon: Interval, left: bool, right: bool, b: Interval, strand: Option<Strand>)
    returns (newExon: Interval, newTexon: Interval, toDiscard: Option<Interval>)
    ensures Piece(newExon, newTexon, toDiscard) == ComplexPiece(exon, texon, left, right, b, strand)
  {
    toDiscard := None;
    var lo, hi := exon.start, exon.end;
    var tlo, thi := texon.start, texon.end;
    ghost var trimmed := Trim(exon, texon, left, right, b, strand);
    if texon.end == b.start {
      if left {
        if strand == Some(Plus) {
          toDiscard := Some(Interval(exon.start, exon.end - 1));
          lo, hi := exon.end - 1, exon.end;
        } else {
          toDiscard := Some(Interval(exon.start + 1, exon.end));
          lo, hi := exon.start, exon.start + 1;
        }
        tlo, thi := texon.end - 1, texon.end;
      }
      assert Piece(Interval(lo, hi), Interval(tlo, thi), toDiscard) == trimmed;
    } else if texon.start == b.end {
      if right {
        if strand == Some(Plus) {
          toDiscard := Some(Interval(exon.start + 1, exon.end));
          lo, hi := exon.start, exon.start + 1;
        } else {
          toDiscard := Some(Interval(exon.start, exon.end - 1));
          lo, hi := exon.end - 1, exon.end;
        }
        tlo, thi := texon.start, texon.start + 1;
      }
      assert Piece(Interval(lo, hi), Interval(tlo, thi), toDiscard) == trimmed;
    } else if texon.start <= b.start <= b.end <= texon.end {
      if strand == Some(Minus) {
        if left {
          hi := exon.start + (texon.end - b.start);
        }
        if right {
          lo := exon.end - (b.end - texon.start);
        }
      } else {
        if left {
          lo := exon.end - (texon.end - b.start);
        }
        if right {
          hi := exon.start + (b.end - texon.start);
        }
      }
      if left {
        tlo := b.start;
      }
      if right {
        thi := b.end;
      }
      assert Piece(Interval(lo, hi), Interval(tlo, thi), toDiscard) == trimmed;
    } else if texon.start <= b.start <= texon.end <= b.end {
      if left {
        if strand == Some(Minus) {
          hi := exon.start + (texon.end - b.start);
        } else {
          lo := exon.end - (texon.end - b.start);
        }
        tlo := b.start;
      }
      assert Piece(Interval(lo, hi), Interval(tlo, thi), toDiscard) == trimmed;
    } else if texon.end >= b.end >= texon.start >= b.start {
      if right {
        if strand == Some(Minus) {
          lo := exon.end - (b.end - texon.start);
        } else {
          hi := exon.start + (b.end - texon.start);
        }
        thi := b.end;
      }
      assert Piece(Interval(lo, hi), Interval(tlo, thi), toDiscard) == trimmed;
    }
    if lo == hi {
      hi := hi + 1;
    }
    newExon, newTexon := Interval(lo, hi), Interval(tlo, thi);
  }

  /** Before widening, the kept exon is as long as its transcript span, is well formed, and
      stays inside an exon of two or more bases, where it is only a single coordinate short of
      the exon's end. */
  lemma TrimShape(exon: Interval, texon: Interval, left: bool, right: bool, b: Interval, strand: Option<Strand>)
    requires exon.end - exon.start == texon.end - texon.start >= 0
    requires texon.start <= b.end && b.start <= texon.end && b.start <= b.end
    ensures var t := Trim(exon, texon, left, right, b, strand);
      && t.exon.start <= t.exon.end
      && Len(t.exon) == Len(t.texon)
      && (Len(exon) >= 2 ==> exon.start <= t.exon.start && t.exon.end <= exon.end)
      && (Len(exon) >= 2 && t.exon.start == t.exon.end ==> t.exon.end < exon.end)
      && (Len(exon) == 1 ==> t.exon.start <= exon.start <= t.exon.end)
  {
  }

  /** Before widening, the transcript span stays inside that of an exon of two or more bases,
      starts no earlier than one base before the boundary when a split lies on the left, and
      ends no later than one base after it when a split lies on the right. */
  lemma TrimSides(exon: Interval, texon: Interval, left: bool, right: bool, b: Interval, strand: Option<Strand>)
    requires exon.end - exon.start == texon.end - texon.start >= 0
    requires texon.start <= b.end && b.start <= texon.end && b.start <= b.end
    ensures var t := Trim(exon, texon, left, right, b, strand);
      && (Len(exon) >= 2 ==> texon.start <= t.texon.start && t.texon.end <= texon.end)
      && (left ==> b.start - 1 <= t.texon.start)
      && (right ==> t.texon.end <= b.end + 1)
  {
  }

  /** For an exon whose transcript span has its length and meets the boundary, the kept exon
      is at least two bases long (a single-coordinate exon is widened by one), is as long as its
      transcript span (or two bases when that span is one), stays inside an exon of two or more
      bases, and its transcript span starts no earlier than one base before the boundary when a
      split lies on the left, and ends no later than one base after it when a split lies on the
      right. */
  lemma ComplexPieceFits(exon: Interval, texon: Interval, left: bool, right: bool, b: Interval, strand: Option<Strand>)
    requires exon.end - exon.start == texon.end - texon.start >= 0
    requires texon.start <= b.end && b.start <= texon.end && b.start <= b.end
    ensures var r := ComplexPiece(exon, texon, left, right, b, strand);
      && r.exon.start < r.exon.end
      && Len(r.exon) == Max(Len(r.texon), 2)
      && (Len(exon) >= 2 ==> exon.start <= r.exon.start && r.exon.end <= exon.end)
      && (Len(exon) >= 2 ==> texon.start <= r.texon.start && r.texon.end <= texon.end)
      && (Len(exon) == 1 ==> r.exon.start <= exon.start <= r.exon.end)
      && (left ==> b.start - 1 <= r.texon.start)
      && (right ==> r.texon.end <= b.end + 1)
  {
    TrimShape(exon, texon, left, right, b, strand);
    TrimSides(exon, texon, left, right, b, strand);
  }

  /** A part of the exon is given up exactly when the exon touches the boundary at one base on
      a side where another split lies; that part and the kept part together make up an exon of
      two or more bases and share exactly one base. */
  lemma ComplexPieceDiscard(exon: Interval, texon: Interval, left: bool, right: bool, b: Interval, strand: Option<Strand>)
    requires exon.end - exon.start == texon.end - texon.start >= 0
    ensures var r := ComplexPiece(exon, texon, left, right, b, strand);
      && (r.discard.Some? <==> (texon.end == b.start && left) || (texon.end != b.start && texon.start == b.end && right))
      && (r.discard.Some? && Len(exon) >= 2 ==>
            && r.discard.value.start <= r.discard.value.end
            && Min(r.discard.value.start, r.exon.start) == exon.start
            && Max(r.discard.value.end, r.exon.end) == exon.end
            && Overlap(r.discard.value, r.exon) == 0)
  {
  }

  // ---------------------------------------------------------------------------------------
  // __create_splitted_exons (lines 313-391)

  predicate StartLe(a: Interval, b: Interval)
  {
    a.start <= b.start
  }

  predicate StartGe(a: Interval, b: Interval)
  {
    a.start >= b.start
  }

  /** The exons from the 5' end: by start, descending on the minus strand. */
  function FivePrime(exons: seq<Interval>, strand: Option<Strand>): seq<Interval>
  {
    if strand == Some(Minus) then Sorting.Sort(exons, StartGe) else Sorting.Sort(exons, StartLe)
  }

  /** The 5' order holds the same exons, by ascending start on the plus or an unknown strand
      and by descending start on the minus strand. */
  lemma FivePrimeOrdered(exons: seq<Interval>, strand: Option<Strand>)
    ensures multiset(FivePrime(exons, strand)) == multiset(exons)
    ensures var xs := FivePrime(exons, strand);
      forall i, j :: 0 <= i < j < |xs| ==> if strand == Some(Minus) then xs[i].start >= xs[j].start else xs[i].start <= xs[j].start
  {
    if strand == Some(Minus) {
      Sorting.SortPermutes(exons, StartGe);
      Sorting.SortSorted(exons, StartGe);
    } else {
      Sorting.SortPermutes(exons, StartLe);
      Sorting.SortSorted(exons, StartLe);
    }
  }

  /** Transcript coordinates of the `k`-th exon from the 5' end: the lengths before it, then its
      own. */
  function TExon(xs: seq<Interval>, k: nat): Interval
    requires k < |xs|
  {
    Interval(TotalLength(xs[..k]) + 1, TotalLength(xs[..k]) + Len(xs[k]))
  }

  /** The transcript coordinates tile `1..` without gaps, each exon keeping its length. */
  lemma TExonTiling(xs: seq<Interval>, k: nat)
    requires k < |xs|
    ensures Len(TExon(xs, k)) == Len(xs[k])
    ensures k == 0 ==> TExon(xs, k).start == 1
    ensures k + 1 < |xs| ==> TExon(xs, k + 1).start == TExon(xs, k).end + 1
  {
    if k + 1 < |xs| {
      assert xs[..k + 1] == xs[..k] + [xs[k]];
      TotalLengthAppend(xs[..k], [xs[k]]);
    }
  }

  predicate Inside(texon: Interval, b: Interval)
  {
    b.start <= texon.start < texon.end <= b.end
  }

  function Ordered(iv: Interval): Interval
  {
    Interval(Min(iv.start, iv.end), Max(iv.start, iv.end))
  }

  /** What happens to one exon: kept whole, discarded whole, or trimmed; `span` is the
      transcript span it contributes to `tstart`/`tend`. */
  datatype Placement = Placement(kept: Option<Interval>, discarded: Option<Interval>, span: Option<Interval>)

  function Place(exon: Interval, texon: Interval, left: bool, right: bool, b: Interval, strand: Option<Strand>): Placement
  {
    if Inside(texon, b) then Placement(Some(exon), None, Some(texon))
    else if texon.end < b.start then
      if left then Placement(None, Some(exon), None) else Placement(Some(exon), None, Some(texon))
    else if texon.start > b.end then
      if right then Placement(None, Some(exon), None) else Placement(Some(exon), None, Some(texon))
    else
      var p := ComplexPiece(exon, texon, left, right, b, strand);
      Placement(Some(Ordered(p.exon)), p.discard, Some(p.texon))
  }

  function PlaceAt(xs: seq<Interval>, i: nat, left: bool, right: bool, b: Interval, strand: Option<Strand>): Placement
    requires i < |xs|
  {
    Place(xs[i], TExon(xs, i), left, right, b, strand)
  }

  /** `my_exons`, `discarded_exons`, `tstart` and `tend`; the infinite start values are `None`. */
  datatype SplitExons = SplitExons(kept: seq<Interval>, discarded: seq<Interval>, tstart: Option<int>, tend: Option<int>)

  function Opt(x: Option<Interval>): seq<Interval>
  {
    if x.Some? then [x.value] else []
  }

  function Lower(m: Option<int>, x: int): Option<int>
  {
    if m.Some? && m.value <= x then m else Some(x)
  }

  function Upper(m: Option<int>, x: int): Option<int>
  {
    if m.Some? && m.value >= x then m else Some(x)
  }

  function Record(acc: SplitExons, pl: Placement): SplitExons
  {
    SplitExons(
      acc.kept + Opt(pl.kept),
      acc.discarded + Opt(pl.discarded),
      if pl.span.Some? then Lower(acc.tstart, pl.span.value.start) else acc.tstart,
      if pl.span.Some? then Upper(acc.tend, pl.span.value.end) else acc.tend)
  }

  /** The placements of the first `n` exons from the 5' end. */
  function Placements(xs: seq<Interval>, n: nat, left: bool, right: bool, b: Interval, strand: Option<Strand>): (ps: seq<Placement>)
    requires n <= |xs|
    ensures |ps| == n
  {
    if n == 0 then [] else Placements(xs, n - 1, left, right, b, strand) + [PlaceAt(xs, n - 1, left, right, b, strand)]
  }

  lemma {:induction false} PlacementsAt(xs: seq<Interval>, n: nat, left: bool, right: bool, b: Interval, strand: Option<Strand>)
    requires n <= |xs|
    ensures forall i :: 0 <= i < n ==> Placements(xs, n, left, right, b, strand)[i] == PlaceAt(xs, i, left, right, b, strand)
  {
    if n > 0 {
      var m := n - 1;
      PlacementsAt(xs, m, left, right, b, strand);
    }
  }

  /** The outcome after recording the placements `ps` in order. */
  function Accumulated(ps: seq<Placement>): SplitExons
  {
    if ps == [] then SplitExons([], [], None, None)
    else Record(Accumulated(ps[..|ps| - 1]), Last(ps))
  }

  /** One exon's branch of the loop of lines 356-385: kept whole when its transcript span lies
      in the boundary, kept or discarded whole when it lies left or right of it, otherwise
      trimmed by `__split_complex_exon`. */
  method PlaceExon(xs: seq<Interval>, i: nat, texon: Interval, left: bool, right: bool, b: Interval, strand: Option<Strand>)
    returns (pl: Placement)
    requires i < |xs| && texon == TExon(xs, i)
    ensures pl == PlaceAt(xs, i, left, right, b, strand)
  {
    var exon := xs[i];
    if b.start <= texon.start < texon.end <= b.end {
      pl := Placement(Some(exon), None, Some(texon));
    } else if texon.end < b.start {
      if left {
        pl := Placement(None, Some(exon), None);
      } else {
        pl := Placement(Some(exon), None, Some(texon));
      }
    } else if texon.start > b.end {
      if right {
        pl := Placement(None, Some(exon), None);
      } else {
        pl := Placement(Some(exon), None, Some(texon));
      }
    } else {
      var newExon, newTexon, toDiscard := SplitComplexExon(exon, texon, left, right, b, strand);
      pl := Placement(Some(Ordered(newExon)), toDiscard, Some(newTexon));
    }
  }

  lemma TExonStep(xs: seq<Interval>, i: nat)
    requires i < |xs|
    ensures TotalLength(xs[..i + 1]) == TotalLength(xs[..i]) + Len(xs[i])
  {
    assert xs[..i + 1] == xs[..i] + [xs[i]];
    TotalLengthAppend(xs[..i], [xs[i]]);
  }

  lemma AccumulatedStep(xs: seq<Interval>, i: nat, left: bool, right: bool, b: Interval, strand: Option<Strand>)
    requires i < |xs|
    ensures Accumulated(Placements(xs, i + 1, left, right, b, strand))
      == Record(Accumulated(Placements(xs, i, left, right, b, strand)), PlaceAt(xs, i, left, right, b, strand))
  {
    var ps := Placements(xs, i + 1, left, right, b, strand);
    assert ps[..i] == Placements(xs, i, left, right, b, strand);
  }

  /** `__create_splitted_exons` (lines 313-391): the exons are taken from the 5' end. */
  method CreateSplittedExons(exons: seq<Interval>, strand: Option<Strand>, b: Interval, left: bool, right: bool)
    returns (kept: seq<Interval>, discarded: seq<Interval>, tstart: Option<int>, tend: Option<int>)
    ensures SplitExons(kept, discarded, tstart, tend) == Accumulated(Placements(FivePrime(exons, strand), |exons|, left, right, b, strand))
  {
    var xs := FivePrime(exons, strand);
    kept, discarded, tstart, tend := WalkExons(xs, strand, b, left, right);
  }

  /** The loop of `__create_splitted_exons` over the exons from the 5' end: it accumulates the
      transcript length and sorts each exon into kept and discarded; only the exons not
      discarded whole move `tstart`/`tend`. */
  method WalkExons(xs: seq<Interval>, strand: Option<Strand>, b: Interval, left: bool, right: bool)
    returns (kept: seq<Interval>, discarded: seq<Interval>, tstart: Option<int>, tend: Option<int>)
    ensures SplitExons(kept, discarded, tstart, tend) == Accumulated(Placements(xs, |xs|, left, right, b, strand))
  {
    kept, discarded, tstart, tend := [], [], None, None;
    var tlength := 0;
    for i := 0 to |xs|
      invariant tlength == TotalLength(xs[..i])
      invariant SplitExons(kept, discarded, tstart, tend) == Accumulated(Placements(xs, i, left, right, b, strand))
    {
      var exon := xs[i];
      var elength := exon.end - exon.start + 1;
      var texon := Interval(tlength + 1, tlength + elength);
      TExonStep(xs, i);
      tlength := tlength + elength;
      var pl := PlaceExon(xs, i, texon, left, right, b, strand);
      AccumulatedStep(xs, i, left, right, b, strand);
      kept := kept + Opt(pl.kept);
      discarded := discarded + Opt(pl.discarded);
      if pl.span.Some? {
        tstart := Lower(tstart, pl.span.value.start);
        tend := Upper(tend, pl.span.value.end);
      }
    }
  }

  /** The kept exons are exactly those the placements keep. */
  lemma {:induction false} AccumulatedKept(ps: seq<Placement>)
    ensures forall x :: x in Accumulated(ps).kept <==> exists i :: 0 <= i < |ps| && ps[i].kept == Some(x)
  {
    if ps != [] {
      var init := ps[..|ps| - 1];
      AccumulatedKept(init);
      assert forall i :: 0 <= i < |init| ==> init[i] == ps[i];
    }
  }

  /** The discarded exons are exactly those the placements discard. */
  lemma {:induction false} AccumulatedDiscarded(ps: seq<Placement>)
    ensures forall x :: x in Accumulated(ps).discarded <==> exists i :: 0 <= i < |ps| && ps[i].discarded == Some(x)
  {
    if ps != [] {
      var init := ps[..|ps| - 1];
      AccumulatedDiscarded(init);
      assert forall i :: 0 <= i < |init| ==> init[i] == ps[i];
    }
  }

  /** How one exon is placed when its transcript span lies in the boundary, or wholly 5' or
      3' of it. */
  lemma PlaceClassified(xs: seq<Interval>, i: nat, left: bool, right: bool, b: Interval, strand: Option<Strand>)
    requires i < |xs| && xs[i].start <= xs[i].end && b.start <= b.end
    ensures var pl, texon := PlaceAt(xs, i, left, right, b, strand), TExon(xs, i);
      && (Inside(texon, b) ==> pl.kept == Some(xs[i]))
      && (!Inside(texon, b) && texon.end < b.start ==>
            if left then pl.discarded == Some(xs[i]) else pl.kept == Some(xs[i]))
      && (!Inside(texon, b) && texon.start > b.end ==>
            if right then pl.discarded == Some(xs[i]) else pl.kept == Some(xs[i]))
  {
    TExonTiling(xs, i);
  }

  /** An exon whose transcript span lies in the boundary is kept; one wholly 5' of it is kept
      when no split lies on the left and discarded otherwise; one wholly 3' of it is kept when
      no split lies on the right and discarded otherwise. */
  lemma SplitExonsClassified(xs: seq<Interval>, left: bool, right: bool, b: Interval, strand: Option<Strand>)
    requires WellFormed(xs) && b.start <= b.end
    ensures var r := Accumulated(Placements(xs, |xs|, left, right, b, strand));
      && (forall i :: 0 <= i < |xs| && Inside(TExon(xs, i), b) ==> xs[i] in r.kept)
      && (forall i :: 0 <= i < |xs| && !Inside(TExon(xs, i), b) && TExon(xs, i).end < b.start ==>
            if left then xs[i] in r.discarded else xs[i] in r.kept)
      && (forall i :: 0 <= i < |xs| && !Inside(TExon(xs, i), b) && TExon(xs, i).start > b.end ==>
            if right then xs[i] in r.discarded else xs[i] in r.kept)
  {
    var ps := Placements(xs, |xs|, left, right, b, strand);
    var r := Accumulated(ps);
    AccumulatedKept(ps);
    AccumulatedDiscarded(ps);
    PlacementsAt(xs, |xs|, left, right, b, strand);
    forall i | 0 <= i < |xs|
      ensures ps[i].kept == Some(xs[i]) ==> xs[i] in r.kept
      ensures ps[i].discarded == Some(xs[i]) ==> xs[i] in r.discarded
    {
    }
    forall i | 0 <= i < |xs|
      ensures var pl, texon := ps[i], TExon(xs, i);
        && (Inside(texon, b) ==> pl.kept == Some(xs[i]))
        && (!Inside(texon, b) && texon.end < b.start ==>
              if left then pl.discarded == Some(xs[i]) else pl.kept == Some(xs[i]))
        && (!Inside(texon, b) && texon.start > b.end ==>
              if right then pl.discarded == Some(xs[i]) else pl.kept == Some(xs[i]))
    {
      PlaceClassified(xs, i, left, right, b, strand);
    }
  }

  /** A placement keeps a piece exactly when it records a span; with a split on the left the
      span starts at most one base before the boundary, with a split on the right it ends at
      most one base after it. */
  predicate SpanNear(pl: Placement, left: bool, right: bool, b: Interval)
  {
    && (pl.kept.Some? <==> pl.span.Some?)
    && (left && pl.span.Some? ==> b.start - 1 <= pl.span.value.start)
    && (right && pl.span.Some? ==> pl.span.value.end <= b.end + 1)
  }

  /** Every placement of a well-formed exon keeps its span near the boundary. */
  lemma PlaceSpan(xs: seq<Interval>, i: nat, left: bool, right: bool, b: Interval, strand: Option<Strand>)
    requires i < |xs| && xs[i].start <= xs[i].end && b.start <= b.end
    ensures SpanNear(PlaceAt(xs, i, left, right, b, strand), left, right, b)
  {
    var texon := TExon(xs, i);
    TExonTiling(xs, i);
    if !Inside(texon, b) && !(texon.end < b.start) && !(texon.start > b.end) {
      ComplexPieceFits(xs[i], texon, left, right, b, strand);
    }
  }

  lemma {:induction false} AccumulatedSpan(ps: seq<Placement>, left: bool, right: bool, b: Interval)
    requires forall i :: 0 <= i < |ps| ==> SpanNear(ps[i], left, right, b)
    ensures var r := Accumulated(ps);
      && (r.tstart.Some? <==> r.kept != [])
      && (r.tstart.Some? <==> r.tend.Some?)
      && (left && r.tstart.Some? ==> b.start - 1 <= r.tstart.value)
      && (right && r.tend.Some? ==> r.tend.value <= b.end + 1)
  {
    if ps != [] {
      var init := ps[..|ps| - 1];
      assert forall i :: 0 <= i < |init| ==> init[i] == ps[i];
      AccumulatedSpan(init, left, right, b);
    }
  }

  /** The new transcript's span in transcript coordinates (`tstart`, `tend`) is set exactly
      when some exon is kept, and lies within one base of the boundary on each side where
      another split lies. */
  lemma SplitSpanBounds(xs: seq<Interval>, left: bool, right: bool, b: Interval, strand: Option<Strand>)
    requires WellFormed(xs) && b.start <= b.end
    ensures var r := Accumulated(Placements(xs, |xs|, left, right, b, strand));
      && (r.tstart.Some? <==> r.kept != [])
      && (r.tstart.Some? <==> r.tend.Some?)
      && (left && r.tstart.Some? ==> b.start - 1 <= r.tstart.value)
      && (right && r.tend.Some? ==> r.tend.value <= b.end + 1)
  {
    var ps := Placements(xs, |xs|, left, right, b, strand);
    PlacementsAt(xs, |xs|, left, right, b, strand);
    forall i | 0 <= i < |ps|
      ensures SpanNear(ps[i], left, right, b)
    {
      PlaceSpan(xs, i, left, right, b, strand);
    }
    AccumulatedSpan(ps, left, right, b);
  }

  // ---------------------------------------------------------------------------------------
  // __create_splitted_transcripts (lines 393-497)

  /** What splitting reads from the transcript being split: its ID, exons, strand and BLAST
      hits. */
  datatype Source = Source(id: string, exons: seq<Interval>, strand: Option<Strand>, hits: seq<Hit>)

  /** One `.split<k>` transcript: ID, exons, genomic span, strand, the ORFs of its boundary,
      the rescored hits, and the span in transcript coordinates passed to ORF relocation. */
  datatype Split = Split(
    id: string,
    exons: seq<Interval>,
    span: Interval,
    strand: Option<Strand>,
    orfs: seq<Orf>,
    hits: seq<HitRescoring.Rescored>,
    tstart: Option<int>,
    tend: Option<int>)

  /** The selected CDS length of a new transcript once it is finalised and its relocated ORFs
      are loaded, from its exons, strand, boundary ORFs and transcript-coordinate span. */
  type CdsOracle = (seq<Interval>, Option<Strand>, seq<Orf>, Option<int>, Option<int>) -> int

  /** The rescored versions of the hits whose query span overlaps the boundary, in order,
      dropping those the rescoring drops. */
  function Rescorings(hits: seq<Hit>, b: Interval, p: BlastParams): (rs: seq<HitRescoring.Rescored>)
    ensures forall r :: r in rs <==> exists h :: h in hits && Overlapping(h, b) && HitRescoring.Recalculated(h, b, p) == Some(r)
  {
    if hits == [] then []
    else
      var h, init := Last(hits), hits[..|hits| - 1];
      assert forall x :: x in hits <==> x in init || x == h;
      var r := if Overlapping(h, b) then HitRescoring.Recalculated(h, b, p) else None;
      Rescorings(init, b, p) + (if r.Some? then [r.value] else [])
  }

  /** The hit's query span overlaps the boundary (by the source's positive overlap measure). */
  predicate Overlapping(h: Hit, b: Interval)
  {
    Overlap(h.query, b) > 0
  }

  /** `finalize` marks a single-exon transcript monoexonic, and a monoexonic split loses its
      strand. */
  function NewStrand(kept: seq<Interval>, strand: Option<Strand>): Option<Strand>
  {
    if |kept| == 1 then None else strand
  }

  /** The `.split<k+1>` transcript for the k-th boundary in key order. */
  function SplitAt(t: Source, es: Table, ks: seq<Interval>, k: nat, p: BlastParams, cds: CdsOracle): Result<Split>
    requires k < |ks|
  {
    var b := ks[k];
    var ex := Accumulated(Placements(FivePrime(t.exons, t.strand), |t.exons|, k != 0, k + 1 != |ks|, b, t.strand));
    if ex.kept == [] then Fail(AssertionFailed)
    else
      var strand := NewStrand(ex.kept, t.strand);
      if cds(ex.kept, strand, OrfsAt(es, b), ex.tstart, ex.tend) <= 0 then Fail(InvalidTranscript)
      else
        Ok(Split(
          t.id + ".split" + Text.Decimal(k + 1),
          ex.kept,
          Interval(HitRescoring.MinStart(ex.kept), HitRescoring.MaxEnd(ex.kept)),
          strand,
          OrfsAt(es, b),
          Rescorings(t.hits, b, p),
          ex.tstart,
          ex.tend))
  }

  /** The outcome of boundary `k` as a function of the index; indices past the last boundary
      never occur in `Attempts`. */
  function BoundaryOutcome(t: Source, es: Table, ks: seq<Interval>, p: BlastParams, cds: CdsOracle): nat -> Result<Split>
  {
    (k: nat) => if k < |ks| then SplitAt(t, es, ks, k, p, cds) else Fail(AssertionFailed)
  }

  /** The values of `f` at 0, 1, ..., n - 1. */
  function Tabulate<T>(f: nat -> T, n: nat): (rs: seq<T>)
    ensures |rs| == n
  {
    if n == 0 then [] else Tabulate(f, n - 1) + [f(n - 1)]
  }

  lemma {:induction false} TabulateAt<T>(f: nat -> T, n: nat)
    ensures forall i :: 0 <= i < n ==> Tabulate(f, n)[i] == f(i)
  {
    if n > 0 {
      TabulateAt(f, n - 1);
    }
  }

  /** The outcomes of the first `n` boundaries, in key order. */
  function Attempts(t: Source, es: Table, ks: seq<Interval>, n: nat, p: BlastParams, cds: CdsOracle): (rs: seq<Result<Split>>)
    requires n <= |ks|
  {
    Tabulate(BoundaryOutcome(t, es, ks, p, cds), n)
  }

  lemma AttemptsAt(t: Source, es: Table, ks: seq<Interval>, n: nat, p: BlastParams, cds: CdsOracle)
    requires n <= |ks|
    ensures |Attempts(t, es, ks, n, p, cds)| == n
    ensures forall i :: 0 <= i < n ==> Attempts(t, es, ks, n, p, cds)[i] == SplitAt(t, es, ks, i, p, cds)
  {
    var f := BoundaryOutcome(t, es, ks, p, cds);
    TabulateAt(f, n);
    forall i | 0 <= i < n
      ensures Attempts(t, es, ks, n, p, cds)[i] == SplitAt(t, es, ks, i, p, cds)
    {
      assert f(i) == SplitAt(t, es, ks, i, p, cds);
    }
  }

  /** The values of a run of outcomes, or the first error among them: a loop that raises on
      its first failing step. */
  function Collect<T>(rs: seq<Result<T>>): Result<seq<T>>
  {
    if rs == [] then Ok([])
    else
      match Collect(rs[..|rs| - 1])
      case Fail(e) => Fail(e)
      case Ok(xs) =>
        match Last(rs)
        case Fail(e) => Fail(e)
        case Ok(x) => Ok(xs + [x])
  }

  /** A run succeeds exactly when every step does, and then yields every step's value in order. */
  lemma {:induction false} CollectOk<T>(rs: seq<Result<T>>)
    ensures Collect(rs).Ok? <==> forall i :: 0 <= i < |rs| ==> rs[i].Ok?
    ensures Collect(rs).Ok? ==> |Collect(rs).value| == |rs| && forall i :: 0 <= i < |rs| ==> Collect(rs).value[i] == rs[i].value
  {
    if rs != [] {
      var init := rs[..|rs| - 1];
      CollectOk(init);
      assert forall i :: 0 <= i < |init| ==> init[i] == rs[i];
    }
  }

  /** A failing run fails with the error of its first failing step. */
  lemma {:induction false} CollectFail<T>(rs: seq<Result<T>>)
    requires Collect(rs).Fail?
    ensures exists i :: 0 <= i < |rs| && rs[i] == Fail(Collect(rs).error) && forall j :: 0 <= j < i ==> rs[j].Ok?
  {
    var init := rs[..|rs| - 1];
    assert forall i :: 0 <= i < |init| ==> init[i] == rs[i];
    if Collect(init).Fail? {
      CollectFail(init);
      var i :| 0 <= i < |init| && init[i] == Fail(Collect(init).error) && forall j :: 0 <= j < i ==> init[j].Ok?;
    } else {
      CollectOk(init);
      assert rs[|rs| - 1] == Fail(Collect(rs).error);
    }
  }

  /** Once a prefix of the run fails, the whole run fails with the same error. */
  lemma {:induction false} CollectPrefixFail<T>(rs: seq<Result<T>>, k: nat)
    requires k <= |rs| && Collect(rs[..k]).Fail?
    ensures Collect(rs) == Collect(rs[..k])
  {
    if k < |rs| {
      var init := rs[..|rs| - 1];
      assert init[..k] == rs[..k];
      CollectPrefixFail(init, k);
    } else {
      assert rs[..k] == rs;
    }
  }

  /** One more successful step extends a successful run by its value. */
  lemma CollectStep<T>(rs: seq<Result<T>>, k: nat)
    requires k < |rs| && Collect(rs[..k]).Ok? && rs[k].Ok?
    ensures Collect(rs[..k + 1]) == Ok(Collect(rs[..k]).value + [rs[k].value])
  {
    assert rs[..k + 1][..k] == rs[..k];
  }

  /** The splits of the boundaries `ks`, or the first error raised. */
  function Splits(t: Source, es: Table, ks: seq<Interval>, p: BlastParams, cds: CdsOracle): Result<seq<Split>>
  {
    Collect(Attempts(t, es, ks, |ks|, p, cds))
  }

  /** The loop over the hits of the transcript being split (lines 467-489). */
  method RescoreHits(hits: seq<Hit>, b: Interval, p: BlastParams) returns (rs: seq<HitRescoring.Rescored>)
    ensures rs == Rescorings(hits, b, p)
  {
    rs := [];
    for i := 0 to |hits|
      invariant rs == Rescorings(hits[..i], b, p)
    {
      assert hits[..i + 1][..i] == hits[..i];
      var hit := hits[i];
      if Overlap(hit.query, b) > 0 {
        assert Overlapping(hit, b);
        var nh := HitRescoring.RecalculateHit(hit, b, p);
        if nh.Some? {
          rs := rs + [nh.value];
        }
      }
    }
    assert hits[..|hits|] == hits;
  }

  /** The body of the loop of `__create_splitted_transcripts` for the k-th boundary. */
  method MakeSplit(t: Source, es: Table, ks: seq<Interval>, k: nat, p: BlastParams, cds: CdsOracle) returns (r: Result<Split>)
    requires k < |ks|
    ensures r == SplitAt(t, es, ks, k, p, cds)
  {
    var b := ks[k];
    var left, right := true, true;
    if k == 0 {
      left := false;
    }
    if 1 + k == |ks| {
      right := false;
    }
    var id := t.id + ".split" + Text.Decimal(k + 1);
    var kept, discarded, tstart, tend := CreateSplittedExons(t.exons, t.strand, b, left, right);
    if |kept| == 0 {
      return Fail(AssertionFailed);
    }
    var span := Interval(HitRescoring.MinStart(kept), HitRescoring.MaxEnd(kept));
    var strand := t.strand;
    if |kept| == 1 {
      strand := None;
    }
    var orfs := OrfsAt(es, b);
    if cds(kept, strand, orfs, tstart, tend) <= 0 {
      return Fail(InvalidTranscript);
    }
    var hits := RescoreHits(t.hits, b, p);
    r := Ok(Split(id, kept, span, strand, orfs, hits, tstart, tend));
  }

  /** `__create_splitted_transcripts`: one split per boundary, in key order; the first error
      raised ends the loop. */
  method CreateSplittedTranscripts(t: Source, es: Table, p: BlastParams, cds: CdsOracle) returns (r: Result<seq<Split>>)
    ensures r == Splits(t, es, SortIntervals(es.keys), p, cds)
  {
    var ks := SortIntervals(es.keys);
    r := RunSplits(t, es, ks, p, cds);
  }

  /** The loop of `__create_splitted_transcripts` over the boundaries `ks`. */
  method RunSplits(t: Source, es: Table, ks: seq<Interval>, p: BlastParams, cds: CdsOracle) returns (r: Result<seq<Split>>)
    ensures r == Splits(t, es, ks, p, cds)
  {
    var out := [];
    ghost var all := Attempts(t, es, ks, |ks|, p, cds);
    AttemptsAt(t, es, ks, |ks|, p, cds);
    for k := 0 to |ks|
      invariant Collect(all[..k]) == Ok(out)
    {
      var s := MakeSplit(t, es, ks, k, p, cds);
      assert s == all[k];
      if s.Fail? {
        assert all[..k + 1][..k] == all[..k];
        CollectPrefixFail(all, k + 1);
        return Fail(s.error);
      }
      CollectStep(all, k);
      out := out + [s.value];
    }
    assert all[..|ks|] == all;
    r := Ok(out);
  }

  /** A run over the boundaries succeeds exactly when every boundary's split does; it then
      yields one split per boundary, the k-th named `<id>.split<k+1>`, so no two share an ID.
      A failing run reports the error of the first failing boundary. */
  lemma SplitsOutcome(t: Source, es: Table, ks: seq<Interval>, p: BlastParams, cds: CdsOracle)
    ensures var r := Splits(t, es, ks, p, cds);
      && (r.Ok? <==> forall k :: 0 <= k < |ks| ==> SplitAt(t, es, ks, k, p, cds).Ok?)
      && (r.Ok? ==> |r.value| == |ks| && forall k :: 0 <= k < |ks| ==> SplitAt(t, es, ks, k, p, cds) == Ok(r.value[k]))
      && (r.Fail? ==> exists k :: 0 <= k < |ks| && SplitAt(t, es, ks, k, p, cds) == Fail(r.error)
                                  && forall j :: 0 <= j < k ==> SplitAt(t, es, ks, j, p, cds).Ok?)
  {
    var rs := Attempts(t, es, ks, |ks|, p, cds);
    AttemptsAt(t, es, ks, |ks|, p, cds);
    CollectOk(rs);
    if Collect(rs).Fail? {
      CollectFail(rs);
    }
  }

  /** The IDs of a successful run are `<id>.split1`, `<id>.split2`, ..., all distinct. */
  lemma SplitIds(t: Source, es: Table, ks: seq<Interval>, p: BlastParams, cds: CdsOracle)
    requires Splits(t, es, ks, p, cds).Ok?
    ensures var ss := Splits(t, es, ks, p, cds).value;
      && (forall k :: 0 <= k < |ss| ==> ss[k].id == t.id + ".split" + Text.Decimal(k + 1))
      && (forall j, k :: 0 <= j < k < |ss| ==> ss[j].id != ss[k].id)
  {
    SplitsOutcome(t, es, ks, p, cds);
    var ss := Splits(t, es, ks, p, cds).value;
    forall k | 0 <= k < |ss|
      ensures ss[k].id == t.id + ".split" + Text.Decimal(k + 1)
    {
      SplitAtId(t, es, ks, k, p, cds);
    }
    forall j, k | 0 <= j < k < |ss|
      ensures ss[j].id != ss[k].id
    {
      SplitAtIdsDiffer(t, es, ks, j, k, p, cds);
    }
  }

  /** Two boundaries never produce the same split ID. */
  lemma SplitAtIdsDiffer(t: Source, es: Table, ks: seq<Interval>, j: nat, k: nat, p: BlastParams, cds: CdsOracle)
    requires j < k < |ks| && SplitAt(t, es, ks, j, p, cds).Ok? && SplitAt(t, es, ks, k, p, cds).Ok?
    ensures SplitAt(t, es, ks, j, p, cds).value.id != SplitAt(t, es, ks, k, p, cds).value.id
  {
    SplitAtId(t, es, ks, j, p, cds);
    SplitAtId(t, es, ks, k, p, cds);
    if SplitAt(t, es, ks, j, p, cds).value.id == SplitAt(t, es, ks, k, p, cds).value.id {
      Text.SuffixedInjective(t.id, ".split", j + 1, k + 1);
    }
  }

  lemma SplitAtId(t: Source, es: Table, ks: seq<Interval>, k: nat, p: BlastParams, cds: CdsOracle)
    requires k < |ks| && SplitAt(t, es, ks, k, p, cds).Ok?
    ensures SplitAt(t, es, ks, k, p, cds).value.id == t.id + ".split" + Text.Decimal(k + 1)
  {
  }

  /** A boundary fails with `AssertionFailed` when it keeps no exon and with
      `InvalidTranscript` when the new transcript keeps no CDS. Otherwise its split holds the
      kept exons and spans from their least start to their greatest end. It loses its strand
      exactly when it has a single exon, and carries its boundary's ORFs and the rescored hits
      that overlap the boundary. */
  lemma SplitAtOutcome(t: Source, es: Table, ks: seq<Interval>, k: nat, p: BlastParams, cds: CdsOracle)
    requires k < |ks|
    ensures var r := SplitAt(t, es, ks, k, p, cds);
      var ex := Accumulated(Placements(FivePrime(t.exons, t.strand), |t.exons|, k != 0, k + 1 != |ks|, ks[k], t.strand));
      && (r == Fail(AssertionFailed) <==> ex.kept == [])
      && (r == Fail(InvalidTranscript) <==>
            ex.kept != [] && cds(ex.kept, NewStrand(ex.kept, t.strand), OrfsAt(es, ks[k]), ex.tstart, ex.tend) <= 0)
      && (r.Ok? ==>
            && r.value.exons == ex.kept != []
            && (forall e :: e in r.value.exons ==> r.value.span.start <= e.start && e.end <= r.value.span.end)
            && (exists e :: e in r.value.exons && e.start == r.value.span.start)
            && (exists e :: e in r.value.exons && e.end == r.value.span.end)
            && (r.value.strand.None? <==> |r.value.exons| == 1 || t.strand.None?)
            && r.value.orfs == OrfsAt(es, ks[k])
            && forall h :: h in r.value.hits <==>
                 exists hit :: hit in t.hits && Overlapping(hit, ks[k]) && HitRescoring.Recalculated(hit, ks[k], p) == Some(h))
  {
    var r := SplitAt(t, es, ks, k, p, cds);
    if r.Ok? {
      var kept := r.value.exons;
      var i :| 0 <= i < |kept| && kept[i].start == HitRescoring.MinStart(kept);
      var j :| 0 <= j < |kept| && kept[j].end == HitRescoring.MaxEnd(kept);
      assert kept[i] in kept && kept[j] in kept;
    }
  }

  /** Exons read from the 5' end are the transcript's exons reordered. */
  lemma FivePrimeWellFormed(exons: seq<Interval>, strand: Option<Strand>)
    requires WellFormed(exons)
    ensures WellFormed(FivePrime(exons, strand)) && |FivePrime(exons, strand)| == |exons|
  {
    var xs := FivePrime(exons, strand);
    FivePrimeOrdered(exons, strand);
    forall i | 0 <= i < |xs|
      ensures xs[i].start <= xs[i].end
    {
      assert xs[i] in multiset(exons);
    }
  }

  /** Over well-formed exons and boundaries, a split keeps every exon lying in its boundary.
      The first split also keeps every exon wholly 5' of its boundary, and the last split every
      exon wholly 3' of it. With a split on the left, its transcript span starts at most one
      base before the boundary; with one on the right, it ends at most one base after it. */
  lemma SplitKeeps(t: Source, es: Table, ks: seq<Interval>, k: nat, p: BlastParams, cds: CdsOracle)
    requires k < |ks| && WellFormed(t.exons) && ks[k].start <= ks[k].end
    requires SplitAt(t, es, ks, k, p, cds).Ok?
    ensures var s, xs, b := SplitAt(t, es, ks, k, p, cds).value, FivePrime(t.exons, t.strand), ks[k];
      && (forall i :: 0 <= i < |xs| && Inside(TExon(xs, i), b) ==> xs[i] in s.exons)
      && (k == 0 ==> forall i :: 0 <= i < |xs| && TExon(xs, i).end < b.start ==> xs[i] in s.exons)
      && (k + 1 == |ks| ==> forall i :: 0 <= i < |xs| && TExon(xs, i).start > b.end ==> xs[i] in s.exons)
      && s.tstart.Some? && s.tend.Some?
      && (k != 0 ==> b.start - 1 <= s.tstart.value)
      && (k + 1 != |ks| ==> s.tend.value <= b.end + 1)
  {
    var xs, b := FivePrime(t.exons, t.strand), ks[k];
    FivePrimeWellFormed(t.exons, t.strand);
    SplitExonsClassified(xs, k != 0, k + 1 != |ks|, b, t.strand);
    SplitSpanBounds(xs, k != 0, k + 1 != |ks|, b, t.strand);
  }

  // ---------------------------------------------------------------------------------------
  // split_by_cds (lines 564-594)

  /** What `split_by_cds` yields: the transcript itself, or its splits. */
  datatype Outcome = Original | Pieces(splits: seq<Split>)

  /** The number of transcripts yielded. */
  function Yielded(o: Outcome): nat
  {
    if o.Original? then 1 else |o.splits|
  }

  /** The boundaries of the ORFs (`cds_boundaries`), after the BLAST check when it is on. */
  function FinalBoundaries(orfs: seq<Orf>, hits: seq<Hit>, blastCheck: bool, p: BlastParams): Table
  {
    var es := Collected(Sorting.Sort(orfs, OrfLe));
    if blastCheck then
      var gs := Group(es.keys, (prev, b) => Cut(TableOf(es, hits, p), p, prev, b));
      Merged(es, gs, |gs|)
    else es
  }

  /** `split_by_cds` on a finalised transcript with `internalOrfs` internal ORFs and loaded
      ORFs `orfs`; `blastCheck` says whether a configuration asks for the BLAST check. */
  function SplitResult(t: Source, orfs: seq<Orf>, internalOrfs: nat, blastCheck: bool, p: BlastParams, cds: CdsOracle): Result<Outcome>
  {
    if internalOrfs < 2 then Ok(Original)
    else
      var fin := FinalBoundaries(orfs, t.hits, blastCheck, p);
      if |fin.keys| == 1 then Ok(Original)
      else
        match Splits(t, fin, SortIntervals(fin.keys), p, cds)
        case Fail(e) => Fail(e)
        case Ok(ss) => if ss == [] then Fail(AssertionFailed) else Ok(Pieces(ss))
  }

  method SplitByCds(t: Source, orfs: seq<Orf>, internalOrfs: nat, blastCheck: bool, p: BlastParams, cds: CdsOracle)
    returns (r: Result<Outcome>)
    ensures r == SplitResult(t, orfs, internalOrfs, blastCheck, p, cds)
  {
    if internalOrfs < 2 {
      return Ok(Original);
    }
    var es := Boundaries(orfs, t.hits, blastCheck, p);
    if |es.keys| == 1 {
      return Ok(Original);
    }
    var created := CreateSplittedTranscripts(t, es, p, cds);
    if created.Fail? {
      return Fail(created.error);
    }
    if |created.value| == 0 {
      return Fail(AssertionFailed);
    }
    r := Ok(Pieces(created.value));
  }

  /** `split_by_cds` yields the transcript itself when it has fewer than two internal ORFs or
      when a single boundary is left; otherwise it yields one split per boundary, at least two,
      or raises. Whenever it does not raise, it yields at least one transcript. */
  lemma SplitByCdsYields(t: Source, orfs: seq<Orf>, internalOrfs: nat, blastCheck: bool, p: BlastParams, cds: CdsOracle)
    ensures var r, fin := SplitResult(t, orfs, internalOrfs, blastCheck, p, cds), FinalBoundaries(orfs, t.hits, blastCheck, p);
      && (internalOrfs < 2 ==> r == Ok(Original))
      && (internalOrfs >= 2 && |fin.keys| == 1 ==> r == Ok(Original))
      && (internalOrfs >= 2 && fin.keys == [] ==> r == Fail(AssertionFailed))
      && (r.Ok? && r.value.Pieces? ==> |r.value.splits| == |fin.keys| >= 2)
      && (r.Ok? ==> Yielded(r.value) >= 1)
  {
    var fin := FinalBoundaries(orfs, t.hits, blastCheck, p);
    SplitsOutcome(t, fin, SortIntervals(fin.keys), p, cds);
  }

  /** As written, line 588 calls `__create_splitted_transcripts` without the transcript, so
      every transcript that should be split raises `TypeError`; only the unsplit cases
      succeed. */
  method SplitByCdsAsWritten(t: Source, orfs: seq<Orf>, internalOrfs: nat, blastCheck: bool, p: BlastParams, cds: CdsOracle)
    returns (r: Result<Outcome>)
    ensures r.Ok? ==> r.value == Original
    ensures SplitResult(t, orfs, internalOrfs, blastCheck, p, cds) == Ok(Original) ==> r == Ok(Original)
    ensures SplitResult(t, orfs, internalOrfs, blastCheck, p, cds).Ok? && SplitResult(t, orfs, internalOrfs, blastCheck, p, cds).value.Pieces? ==>
      r == Fail(TypeError)
  {
    if internalOrfs < 2 {
      return Ok(Original);
    }
    var es := Boundaries(orfs, t.hits, blastCheck, p);
    if |es.keys| == 1 {
      return Ok(Original);
    }
    SplitResultSplits(t, orfs, internalOrfs, blastCheck, p, cds);
    r := Fail(TypeError);
  }

  /** Lines 573-581: the ORF boundaries, then the BLAST check when it is on. */
  method Boundaries(orfs: seq<Orf>, hits: seq<Hit>, blastCheck: bool, p: BlastParams) returns (es: Table)
    ensures es == FinalBoundaries(orfs, hits, blastCheck, p)
  {
    es := CollectBoundaries(orfs);
    if blastCheck {
      BoundariesTable(orfs);
      es := CheckSplitByBlast(es, hits, p);
    }
  }

  /** With two or more internal ORFs and other than one boundary left, the transcript is never
      yielded unsplit. */
  lemma SplitResultSplits(t: Source, orfs: seq<Orf>, internalOrfs: nat, blastCheck: bool, p: BlastParams, cds: CdsOracle)
    requires internalOrfs >= 2 && |FinalBoundaries(orfs, t.hits, blastCheck, p).keys| != 1
    ensures SplitResult(t, orfs, internalOrfs, blastCheck, p, cds) != Ok(Original)
  {
  }
}
