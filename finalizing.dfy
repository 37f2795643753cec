/** Transcript finalisation of the later code generation: the checks and derivations that
    Mikado/loci/transcript_methods/finalizing.py performs, in order, on a transcript object
    whose fields they update in place. */
module Finalizing {
  import opened Intervals
  import opened Optional
  import Sorting

  datatype Strand = Plus | Minus | Unstranded

  /** Segment kinds, declared in the order of their names as strings: "CDS" < "UTR" < "exon". */
  datatype Kind = CdsKind | UtrKind | ExonKind

  /** One entry of an internal ORF: kind, interval and, once checked, the CDS phase. */
  datatype Segment = Segment(kind: Kind, iv: Interval, phase: Option<int>)

  datatype Feature = MRna | PlainTranscript

  /** The named failures: the first group are `InvalidTranscript`, the second `InvalidCDS`;
      `AssertionFailed`, `IndexFailure` and `TypeFailure` stand for Python's AssertionError,
      IndexError and TypeError, which no step catches. */
  datatype Error =
    | NoExons | ExonsOutOfBounds | NoStrand | UtrWithoutCds | OverlappingExons
    | InternalUtr | UtrLengthMismatch | NoOrf | CodingExonCount | OrfBoundaries
    | TruncatedFivePrime | TruncatedThreePrime
    | AssertionFailed | IndexFailure | TypeFailure

  predicate IsInvalidTranscript(e: Error)
  {
    e.NoExons? || e.ExonsOutOfBounds? || e.NoStrand? || e.UtrWithoutCds? || e.OverlappingExons?
  }

  predicate IsInvalidCds(e: Error)
  {
    e.InternalUtr? || e.UtrLengthMismatch? || e.NoOrf? || e.CodingExonCount? || e.OrfBoundaries?
    || e.TruncatedFivePrime? || e.TruncatedThreePrime?
  }

  datatype Outcome = Pass | Fail(error: Error)

  function KindRank(k: Kind): int
  {
    match k
    case CdsKind => 0
    case UtrKind => 1
    case ExonKind => 2
  }

  /** Segments are sorted on `(interval, kind)`. */
  predicate SegLe(a: Segment, b: Segment)
  {
    LexLe(a.iv, b.iv) && (a.iv == b.iv ==> KindRank(a.kind) <= KindRank(b.kind))
  }

  lemma SegLeIsTotalPreorder()
    ensures Sorting.TotalPreorder(SegLe)
  {
  }

  function SortSegments(s: seq<Segment>): (r: seq<Segment>)
    ensures |r| == |s|
  {
    Sorting.Sort(s, SegLe)
  }

  lemma SortSegmentsSorted(s: seq<Segment>)
    ensures Sorting.SortedBy(SortSegments(s), SegLe)
  {
    SegLeIsTotalPreorder();
    Sorting.SortSorted(s, SegLe);
  }

  function AsSegments(s: seq<Interval>, kind: Kind): (r: seq<Segment>)
    ensures |r| == |s|
  {
    if s == [] then [] else [Segment(kind, s[0], None)] + AsSegments(s[1..], kind)
  }

  /** Each interval becomes a segment of the given kind, in place. */
  lemma {:induction false} AsSegmentsAt(s: seq<Interval>, kind: Kind, i: nat)
    requires i < |s|
    ensures AsSegments(s, kind)[i] == Segment(kind, s[i], None)
  {
    if i > 0 {
      AsSegmentsAt(s[1..], kind, i - 1);
    }
  }

  /** A transcript as the finalisation steps see it. */
  class Transcript {
    var start: int
    var end: int
    var strand: Strand
    var exons: seq<Interval>
    var combinedCds: seq<Interval>
    var combinedUtr: seq<Interval>
    var segments: seq<Segment>
    var internalOrfs: seq<seq<Segment>>
    var phases: map<Interval, int>
    var selectedOrfIndex: Option<nat>
    var selectedOrfCds: seq<Segment>
    var introns: set<Interval>
    var splices: set<int>
    var selectedCdsIntrons: set<Interval>
    var combinedCdsIntrons: set<Interval>
    var hasStartCodon: bool
    var hasStopCodon: bool
    var feature: Feature
    var finalized: bool

    constructor (start: int, end: int, strand: Strand, exons: seq<Interval>,
                 cds: seq<Interval>, utr: seq<Interval>, phases: map<Interval, int>)
      ensures this.start == start && this.end == end && this.strand == strand
      ensures this.exons == exons && combinedCds == cds && combinedUtr == utr
      ensures this.phases == phases && segments == [] && internalOrfs == []
      ensures selectedOrfIndex == None && selectedOrfCds == [] && !finalized && feature == PlainTranscript
      ensures introns == {} && splices == {} && selectedCdsIntrons == {} && combinedCdsIntrons == {}
      ensures !hasStartCodon && !hasStopCodon
    {
      this.start, this.end, this.strand := start, end, strand;
      this.exons, combinedCds, combinedUtr := exons, cds, utr;
      this.phases, segments, internalOrfs := phases, [], [];
      selectedOrfIndex, selectedOrfCds, finalized, feature := None, [], false, PlainTranscript;
      introns, splices, selectedCdsIntrons, combinedCdsIntrons := {}, {}, {}, {};
      hasStartCodon, hasStopCodon := false, false;
    }
  }

  // ---------------------------------------------------------------------------------------
  // __basic_final_checks

  /** Index of the first exon outside `[start, end]`, or `|exons|` when all lie inside. */
  function FirstOutOfBounds(exons: seq<Interval>, start: int, end: int): (k: nat)
    ensures k <= |exons|
    ensures forall i :: 0 <= i < k ==> start <= exons[i].start && exons[i].end <= end
    ensures k < |exons| ==> exons[k].start < start || exons[k].end > end
  {
    if exons == [] then 0
    else if exons[0].start < start || exons[0].end > end then 0
    else 1 + FirstOutOfBounds(exons[1..], start, end)
  }

  /** The verdict of the basic checks, in the order the source raises them. */
  function BasicChecks(exons: seq<Interval>, start: int, end: int, strand: Strand,
                       cds: seq<Interval>, utr: seq<Interval>): (r: Outcome)
    ensures r == Pass <==>
      && exons != []
      && (forall i :: 0 <= i < |exons| ==> start <= exons[i].start && exons[i].end <= end)
      && (|exons| > 1 ==> strand != Unstranded)
      && (utr != [] ==> cds != [])
    ensures r.Fail? ==> IsInvalidTranscript(r.error)
    ensures exons == [] ==> r == Fail(NoExons)
  {
    if exons == [] then Fail(NoExons)
    else if FirstOutOfBounds(exons, start, end) < |exons| then Fail(ExonsOutOfBounds)
    else if |exons| > 1 && strand == Unstranded then Fail(NoStrand)
    else if utr != [] && cds == [] then Fail(UtrWithoutCds)
    else Pass
  }

  /** The scan over the exons on values: the exons before the first one out of bounds, and
      whether there is such an exon. */
  method InBoundsPrefix(exons: seq<Interval>, start: int, end: int) returns (kept: seq<Interval>, invalid: bool)
    ensures kept == exons[..FirstOutOfBounds(exons, start, end)]
    ensures invalid <==> FirstOutOfBounds(exons, start, end) < |exons|
  {
    kept, invalid := [], false;
    var i := 0;
    while i < |exons|
      invariant 0 <= i <= |exons| && i <= FirstOutOfBounds(exons, start, end)
      invariant kept == exons[..i]
    {
      var exon := exons[i];
      if exon.start < start || exon.end > end {
        return kept, true;
      }
      kept := kept + [exon];
      i := i + 1;
    }
    assert kept == exons;
  }

  /** Sorts the exons kept before the first out-of-bounds one, then raises as the checks say. */
  method BasicFinalChecks(t: Transcript) returns (r: Outcome)
    modifies t`exons
    ensures r == BasicChecks(old(t.exons), old(t.start), old(t.end), old(t.strand),
                             old(t.combinedCds), old(t.combinedUtr))
    ensures old(t.exons) == [] ==> t.exons == []
    ensures old(t.exons) != [] ==>
      t.exons == SortIntervals(old(t.exons)[..FirstOutOfBounds(old(t.exons), old(t.start), old(t.end))])
    ensures r == Pass ==> t.exons == SortIntervals(old(t.exons))
  {
    if |t.exons| == 0 {
      return Fail(NoExons);
    }
    var exons := t.exons;
    var newExons, invalid := InBoundsPrefix(exons, t.start, t.end);
    t.exons := SortIntervals(newExons);
    if invalid {
      return Fail(ExonsOutOfBounds);
    }
    assert newExons == exons;
    if |t.exons| > 1 && t.strand == Unstranded {
      return Fail(NoStrand);
    }
    if t.combinedUtr != [] && t.combinedCds == [] {
      return Fail(UtrWithoutCds);
    }
    return Pass;
  }

  // ---------------------------------------------------------------------------------------
  // _check_cdna_vs_utr

  /** cDNA length equals UTR plus CDS length, or there is neither CDS nor UTR sequence. */
  predicate LengthsAddUp(exons: seq<Interval>, cds: seq<Interval>, utr: seq<Interval>)
  {
    (TotalLength(cds) == 0 && TotalLength(utr) == 0)
    || TotalLength(exons) == TotalLength(utr) + TotalLength(cds)
  }

  function Last(s: seq<Interval>): Interval
    requires s != []
  {
    s[|s| - 1]
  }

  /** The UTR one exon contributes given the sorted CDS; `None` when the exon holds an
      internal UTR between CDS segments. */
  function ExonUtr(exon: Interval, cds: seq<Interval>): (r: Option<seq<Interval>>)
    requires cds != []
    ensures r == None ==> |cds| > 1 && exon !in cds
  {
    if exon in cds then Some([])
    else if exon.end < cds[0].start || exon.start > Last(cds).end then Some([exon])
    else if exon.start < cds[0].start && exon.end == cds[0].end then
      Some([Interval(exon.start, cds[0].start - 1)])
    else if exon.end > Last(cds).end && exon.start == Last(cds).start then
      Some([Interval(Last(cds).end + 1, exon.end)])
    else if |cds| == 1 then
      Some([Interval(exon.start, cds[0].start - 1), Interval(cds[0].end + 1, exon.end)])
    else None
  }

  /** State of the UTR recomputation after the first `k` exons: whether it has met an
      internal UTR, and the UTR list built so far. */
  datatype UtrScan = UtrScan(failed: bool, utr: seq<Interval>)

  function UtrScanUpTo(exons: seq<Interval>, cds: seq<Interval>, k: nat): (r: UtrScan)
    requires cds != [] && k <= |exons|
    ensures r.failed ==> |cds| > 1
  {
    if k == 0 then UtrScan(false, [])
    else
      var prev := UtrScanUpTo(exons, cds, k - 1);
      if prev.failed then prev
      else match ExonUtr(exons[k - 1], cds)
        case None => UtrScan(true, prev.utr)
        case Some(u) => UtrScan(false, prev.utr + u)
  }

  /** Every piece of UTR the exon contributes lies inside that exon and outside the span
      the CDS covers. */
  lemma ExonUtrOutsideCds(exon: Interval, cds: seq<Interval>)
    requires cds != []
    ensures ExonUtr(exon, cds).Some? ==> forall u :: u in ExonUtr(exon, cds).value ==>
      && exon.start <= u.start && u.end <= exon.end
      && (u.end < cds[0].start || u.start > Last(cds).end)
  {
  }

  /** Every recomputed UTR piece lies inside one of the exons scanned so far and outside
      the CDS span: the recomputation never invents sequence. */
  lemma {:induction false} UtrScanInsideExons(exons: seq<Interval>, cds: seq<Interval>, k: nat)
    requires cds != [] && k <= |exons|
    ensures forall u :: u in UtrScanUpTo(exons, cds, k).utr ==>
      (exists i :: 0 <= i < k && exons[i].start <= u.start && u.end <= exons[i].end)
      && (u.end < cds[0].start || u.start > Last(cds).end)
  {
    if k > 0 {
      UtrScanInsideExons(exons, cds, k - 1);
      var prev := UtrScanUpTo(exons, cds, k - 1);
      if !prev.failed && ExonUtr(exons[k - 1], cds).Some? {
        ExonUtrOutsideCds(exons[k - 1], cds);
        var u := ExonUtr(exons[k - 1], cds).value;
        forall x | x in prev.utr + u
          ensures exists i :: 0 <= i < k && exons[i].start <= x.start && x.end <= exons[i].end
        {
          if x in prev.utr {
            var i :| 0 <= i < k - 1 && exons[i].start <= x.start && x.end <= exons[i].end;
          } else {
            assert exons[k - 1].start <= x.start && x.end <= exons[k - 1].end;
          }
        }
      }
    }
  }

  lemma {:induction false} ScanStaysFailed(exons: seq<Interval>, cds: seq<Interval>, k: nat, m: nat)
    requires cds != [] && k <= m <= |exons|
    requires UtrScanUpTo(exons, cds, k).failed
    ensures UtrScanUpTo(exons, cds, m) == UtrScanUpTo(exons, cds, k)
    decreases m - k
  {
    if m > k {
      ScanStaysFailed(exons, cds, k, m - 1);
    }
  }

  datatype CdnaCheck = CdnaCheck(outcome: Outcome, cds: seq<Interval>, utr: seq<Interval>)

  /** The body of the check once its guard has been evaluated to `recompute`. */
  function CdnaCheckWith(exons: seq<Interval>, cds: seq<Interval>, utr: seq<Interval>,
                         recompute: bool): (r: CdnaCheck)
    ensures !recompute ==> r == CdnaCheck(Pass, cds, utr)
    ensures recompute && r.outcome == Pass ==> LengthsAddUp(exons, r.cds, r.utr)
    ensures r.outcome.Fail? ==> r.outcome.error in {InternalUtr, UtrLengthMismatch, AssertionFailed}
    ensures r.outcome.Fail? && r.outcome.error != AssertionFailed ==> r.cds != []
    ensures cds == [] && utr == [] ==> r == CdnaCheck(Pass, cds, utr)
  {
    if !recompute || (utr == [] && cds == []) then CdnaCheck(Pass, cds, utr)
    else if cds == [] then CdnaCheck(Fail(AssertionFailed), cds, utr)
    else
      var sorted := SortIntervals(cds);
      var scan := UtrScanUpTo(exons, sorted, |exons|);
      if scan.failed then CdnaCheck(Fail(InternalUtr), sorted, scan.utr)
      else if !LengthsAddUp(exons, sorted, scan.utr) then
        CdnaCheck(Fail(UtrLengthMismatch), sorted, scan.utr)
      else CdnaCheck(Pass, sorted, scan.utr)
  }

  /** The check as the source guards it: only a cDNA LONGER than UTR plus CDS is examined. */
  function CdnaVsUtrAsWritten(exons: seq<Interval>, cds: seq<Interval>, utr: seq<Interval>): (r: CdnaCheck)
    ensures TotalLength(exons) < TotalLength(utr) + TotalLength(cds) ==> r == CdnaCheck(Pass, cds, utr)
  {
    CdnaCheckWith(exons, cds, utr, TotalLength(exons) > TotalLength(utr) + TotalLength(cds))
  }

  /** A CDS covering the whole exon plus a 10-base UTR inside it: the lengths do not add up
      (110 annotated bases on a 100-base cDNA), yet the guarded check lets it through. */
  lemma CdnaVsUtrAsWrittenAcceptsSurplus()
    ensures var exons, cds, utr := [Interval(1, 100)], [Interval(1, 100)], [Interval(1, 10)];
      CdnaVsUtrAsWritten(exons, cds, utr).outcome == Pass && !LengthsAddUp(exons, cds, utr)
  {
    var exons, cds, utr := [Interval(1, 100)], [Interval(1, 100)], [Interval(1, 10)];
    assert TotalLength(exons) == 100 && TotalLength(cds) == 100 && TotalLength(utr) == 10;
  }

  /** The check with the guard its purpose calls for: any disagreement triggers the UTR
      recomputation, so a passing transcript always has lengths that add up. */
  function CdnaVsUtr(exons: seq<Interval>, cds: seq<Interval>, utr: seq<Interval>): (r: CdnaCheck)
    ensures r.outcome == Pass ==> LengthsAddUp(exons, r.cds, r.utr)
    ensures r.outcome.Fail? ==> r.outcome.error in {InternalUtr, UtrLengthMismatch, AssertionFailed}
    ensures r.outcome.Fail? && r.outcome.error != AssertionFailed ==> r.cds != []
    ensures cds == [] && utr == [] ==> r == CdnaCheck(Pass, cds, utr)
  {
    CdnaCheckWith(exons, cds, utr, TotalLength(exons) != TotalLength(utr) + TotalLength(cds))
  }

  /** The recomputation loop: one pass over the exons, stopping at an internal UTR. */
  method RecomputeUtr(exons: seq<Interval>, cds: seq<Interval>) returns (failed: bool, utr: seq<Interval>)
    requires cds != []
    ensures UtrScan(failed, utr) == UtrScanUpTo(exons, cds, |exons|)
  {
    utr := [];
    var i := 0;
    while i < |exons|
      invariant 0 <= i <= |exons|
      invariant UtrScanUpTo(exons, cds, i) == UtrScan(false, utr)
    {
      var exon := exons[i];
      ghost var piece := ExonUtr(exon, cds);
      ghost var prev := utr;
      if exon in cds {
        assert piece == Some([]) && utr == prev + [];
      } else if exon.end < cds[0].start || exon.start > cds[|cds| - 1].end {
        utr := utr + [exon];
        assert piece == Some([exon]);
      } else if exon.start < cds[0].start && exon.end == cds[0].end {
        utr := utr + [Interval(exon.start, cds[0].start - 1)];
        assert piece == Some([Interval(exon.start, cds[0].start - 1)]);
      } else if exon.end > cds[|cds| - 1].end && exon.start == cds[|cds| - 1].start {
        utr := utr + [Interval(cds[|cds| - 1].end + 1, exon.end)];
        assert piece == Some([Interval(cds[|cds| - 1].end + 1, exon.end)]);
      } else if |cds| == 1 {
        utr := utr + [Interval(exon.start, cds[0].start - 1), Interval(cds[0].end + 1, exon.end)];
        assert piece == Some([Interval(exon.start, cds[0].start - 1), Interval(cds[0].end + 1, exon.end)]);
      } else {
        assert piece == None;
        assert UtrScanUpTo(exons, cds, i + 1) == UtrScan(true, utr);
        ScanStaysFailed(exons, cds, i + 1, |exons|);
        return true, utr;
      }
      i := i + 1;
    }
    return false, utr;
  }

  method CheckCdnaVsUtr(t: Transcript) returns (r: Outcome)
    modifies t`combinedCds, t`combinedUtr
    ensures var c := CdnaVsUtr(old(t.exons), old(t.combinedCds), old(t.combinedUtr));
      r == c.outcome && t.combinedCds == c.cds && t.combinedUtr == c.utr
  {
    if TotalLength(t.exons) == TotalLength(t.combinedUtr) + TotalLength(t.combinedCds) {
      return Pass;
    }
    if t.combinedUtr == [] && t.combinedCds == [] {
      return Pass;
    }
    if t.combinedCds == [] {
      return Fail(AssertionFailed);
    }
    t.combinedUtr := [];
    t.combinedCds := SortIntervals(t.combinedCds);
    var failed, utr := RecomputeUtr(t.exons, t.combinedCds);
    t.combinedUtr := utr;
    if failed {
      return Fail(InternalUtr);
    }
    if !LengthsAddUp(t.exons, t.combinedCds, utr) {
      return Fail(UtrLengthMismatch);
    }
    return Pass;
  }

  // ---------------------------------------------------------------------------------------
  // __check_completeness and __verify_boundaries

  /** Start/stop codon flags implied by UTR lying beyond the CDS; `None` stands for the
      IndexError raised when UTR is present without CDS. */
  function Completeness(utr: seq<Interval>, cds: seq<Interval>, strand: Strand,
                        hasStart: bool, hasStop: bool): (r: Option<(bool, bool)>)
    ensures r == None <==> utr != [] && cds == []
    ensures r.Some? ==> (hasStart ==> r.value.0) && (hasStop ==> r.value.1)
    ensures r.Some? && utr != [] && strand == Plus ==>
      (r.value.0 <==> hasStart || utr[0].start < cds[0].start)
      && (r.value.1 <==> hasStop || Last(utr).end > Last(cds).end)
    ensures r.Some? && strand == Unstranded ==> r.value == (hasStart, hasStop)
  {
    if utr == [] then Some((hasStart, hasStop))
    else if cds == [] then None
    else
      var upstream := utr[0].start < cds[0].start;
      var downstream := Last(utr).end > Last(cds).end;
      match strand
      case Plus => Some((hasStart || upstream, hasStop || downstream))
      case Minus => Some((hasStart || downstream, hasStop || upstream))
      case Unstranded => Some((hasStart, hasStop))
  }

  /** On the minus strand the roles of upstream and downstream UTR swap. */
  lemma CompletenessStrandSymmetry(utr: seq<Interval>, cds: seq<Interval>, a: bool, b: bool)
    ensures Completeness(utr, cds, Minus, a, b).Some? ==>
      var p := Completeness(utr, cds, Plus, b, a).value;
      Completeness(utr, cds, Minus, a, b).value == (p.1, p.0)
  {
  }

  method CheckCompleteness(t: Transcript) returns (r: Outcome)
    modifies t`hasStartCodon, t`hasStopCodon
    ensures var c := Completeness(t.combinedUtr, t.combinedCds, t.strand,
                                  old(t.hasStartCodon), old(t.hasStopCodon));
      (c == None ==> r == Fail(IndexFailure) && unchanged(t))
      && (c.Some? ==> r == Pass && c.value == (t.hasStartCodon, t.hasStopCodon))
  {
    if |t.combinedUtr| > 0 {
      if |t.combinedCds| == 0 {
        return Fail(IndexFailure);
      }
      if t.combinedUtr[0].start < t.combinedCds[0].start {
        if t.strand == Plus {
          t.hasStartCodon := true;
        } else if t.strand == Minus {
          t.hasStopCodon := true;
        }
      }
      if t.combinedUtr[|t.combinedUtr| - 1].end > t.combinedCds[|t.combinedCds| - 1].end {
        if t.strand == Plus {
          t.hasStopCodon := true;
        } else if t.strand == Minus {
          t.hasStartCodon := true;
        }
      }
    }
    return Pass;
  }

  /** Shrinks the transcript to its first and last exon; fails as InvalidTranscript with no exons. */
  method VerifyBoundaries(t: Transcript) returns (r: Outcome)
    modifies t`start, t`end
    ensures t.exons == [] ==> r == Fail(NoExons) && unchanged(t)
    ensures t.exons != [] ==> r == Pass && t.start == t.exons[0].start && t.end == Last(t.exons).end
  {
    if |t.exons| == 0 {
      return Fail(NoExons);
    }
    if t.exons[0].start != t.start || t.exons[|t.exons| - 1].end != t.end {
      t.start := t.exons[0].start;
      t.end := t.exons[|t.exons| - 1].end;
    }
    return Pass;
  }

  // ---------------------------------------------------------------------------------------
  // __check_internal_orf

  /** Intervals of the segments of one kind, in ORF order. */
  function KindIvs(orf: seq<Segment>, kind: Kind): (r: seq<Interval>)
    ensures |r| <= |orf|
  {
    if orf == [] then []
    else (if orf[0].kind == kind then [orf[0].iv] else []) + KindIvs(orf[1..], kind)
  }

  /** The intervals of one kind are exactly those of the ORF's segments of that kind. */
  lemma {:induction false} KindIvsMembers(orf: seq<Segment>, kind: Kind, iv: Interval)
    ensures iv in KindIvs(orf, kind) <==> exists i :: 0 <= i < |orf| && orf[i].kind == kind && orf[i].iv == iv
  {
    if orf != [] {
      KindIvsMembers(orf[1..], kind, iv);
      if iv in KindIvs(orf[1..], kind) {
        var i :| 0 <= i < |orf[1..]| && orf[1..][i].kind == kind && orf[1..][i].iv == iv;
        assert orf[i + 1] == orf[1..][i];
      }
      if exists i :: 0 <= i < |orf| && orf[i].kind == kind && orf[i].iv == iv {
        var i :| 0 <= i < |orf| && orf[i].kind == kind && orf[i].iv == iv;
        if i > 0 {
          assert orf[1..][i - 1] == orf[i];
        }
      }
    }
  }

  function CodingIvs(orf: seq<Segment>): seq<Interval>
  {
    KindIvs(orf, CdsKind)
  }

  /** The intervals of all segments, in ORF order. */
  function SegIvs(orf: seq<Segment>): (r: seq<Interval>)
    ensures |r| == |orf| && forall i :: 0 <= i < |orf| ==> r[i] == orf[i].iv
  {
    if orf == [] then [] else [orf[0].iv] + SegIvs(orf[1..])
  }

  function MinStart(s: seq<Interval>): int
    requires s != []
  {
    if |s| == 1 then s[0].start else Min(s[0].start, MinStart(s[1..]))
  }

  function MaxEnd(s: seq<Interval>): int
    requires s != []
  {
    if |s| == 1 then s[0].end else Max(s[0].end, MaxEnd(s[1..]))
  }

  /** Indices, from `from` on, of the exons that overlap `[lo, hi]`. */
  function OverlapIndices(exons: seq<Interval>, lo: int, hi: int, from: nat): (r: seq<nat>)
    requires from <= |exons|
    decreases |exons| - from
  {
    if from == |exons| then []
    else if exons[from].end >= lo && exons[from].start <= hi then
      [from] + OverlapIndices(exons, lo, hi, from + 1)
    else OverlapIndices(exons, lo, hi, from + 1)
  }

  /** The indices found are exactly the exons from `from` on that overlap `[lo, hi]`, in
      strictly increasing order. */
  lemma {:induction false} OverlapIndicesExact(exons: seq<Interval>, lo: int, hi: int, from: nat)
    requires from <= |exons|
    ensures var r := OverlapIndices(exons, lo, hi, from);
      && (forall k :: 0 <= k < |r| ==> from <= r[k] < |exons|)
      && (forall k :: 0 <= k < |r| - 1 ==> r[k] < r[k + 1])
      && (forall x :: from <= x < |exons| ==>
            (x in r <==> exons[x].end >= lo && exons[x].start <= hi))
    decreases |exons| - from
  {
    if from < |exons| {
      var rest := OverlapIndices(exons, lo, hi, from + 1);
      OverlapIndicesExact(exons, lo, hi, from + 1);
      assert from !in rest;
      if exons[from].end >= lo && exons[from].start <= hi {
        var r := [from] + rest;
        assert OverlapIndices(exons, lo, hi, from) == r;
        assert forall k :: 1 <= k < |r| ==> r[k] == rest[k - 1];
        assert forall x :: x in r <==> x == from || x in rest;
      } else {
        assert OverlapIndices(exons, lo, hi, from) == rest;
      }
    }
  }

  function EndBefore(s: seq<Interval>, x: int): seq<Interval>
  {
    if s == [] then [] else (if s[0].end < x then [s[0]] else []) + EndBefore(s[1..], x)
  }

  function StartAfter(s: seq<Interval>, x: int): seq<Interval>
  {
    if s == [] then [] else (if s[0].start > x then [s[0]] else []) + StartAfter(s[1..], x)
  }

  /** The UTR found upstream ends before `x`; the UTR found downstream starts after it;
      both come from the list they filter. */
  lemma {:induction false} SidesFilter(s: seq<Interval>, x: int)
    ensures forall u :: u in EndBefore(s, x) <==> u in s && u.end < x
    ensures forall u :: u in StartAfter(s, x) <==> u in s && u.start > x
  {
    if s != [] {
      SidesFilter(s[1..], x);
      assert s == [s[0]] + s[1..];
    }
  }

  /** Bases needed to complete the codon left open after `total` coding bases; Python's `%`
      and Dafny's agree here because the divisor is positive. */
  function Phase(total: int): (p: int)
    ensures 0 <= p < 3 && (total + p) % 3 == 0
  {
    (3 - total % 3) % 3
  }

  /** The phase loop: each CDS segment, in ORF order, gets the phase of the coding bases
      seen before it, starting from `total`; other segments pass through. */
  function AssignPhases(orf: seq<Segment>, total: int): (r: seq<Segment>)
    ensures |r| == |orf|
  {
    if orf == [] then []
    else if orf[0].kind == CdsKind then
      [Segment(CdsKind, orf[0].iv, Some(Phase(total)))] + AssignPhases(orf[1..], total + Len(orf[0].iv))
    else [orf[0]] + AssignPhases(orf[1..], total)
  }

  /** Phase assignment keeps every segment's kind and interval and touches only CDS segments. */
  lemma {:induction false} AssignPhasesKeepsSegments(orf: seq<Segment>, total: int)
    ensures forall i :: 0 <= i < |orf| ==>
      var r := AssignPhases(orf, total);
      r[i].kind == orf[i].kind && r[i].iv == orf[i].iv && (orf[i].kind != CdsKind ==> r[i] == orf[i])
  {
    if orf != [] {
      AssignPhasesKeepsSegments(orf[1..], total + CdsStep(orf[0]));
      var r := AssignPhases(orf, total);
      assert r[1..] == AssignPhases(orf[1..], total + CdsStep(orf[0]));
      forall i | 1 <= i < |orf|
        ensures r[i].kind == orf[i].kind && r[i].iv == orf[i].iv && (orf[i].kind != CdsKind ==> r[i] == orf[i])
      {
        assert r[i] == r[1..][i - 1] && orf[i] == orf[1..][i - 1];
      }
    }
  }

  /** Coding length of a prefix, split after its first segment. */
  lemma CodingPrefixStep(orf: seq<Segment>, i: nat)
    requires 0 < i <= |orf|
    ensures TotalLength(CodingIvs(orf[..i])) == CdsStep(orf[0]) + TotalLength(CodingIvs(orf[1..][..i - 1]))
  {
    assert orf[..i][0] == orf[0] && orf[..i][1..] == orf[1..][..i - 1];
    TotalLengthAppend(if orf[0].kind == CdsKind then [orf[0].iv] else [], CodingIvs(orf[1..][..i - 1]));
  }

  /** A segment's phase is a proper phase and completes the codon left open by `before` bases. */
  predicate PhaseCompletes(seg: Segment, before: int)
  {
    seg.phase.Some? && 0 <= seg.phase.value < 3 && (before + seg.phase.value) % 3 == 0
  }

  function CdsStep(seg: Segment): int
  {
    if seg.kind == CdsKind then Len(seg.iv) else 0
  }

  /** One inductive step of `PhasesCompleteCodons`, for a segment after the first. */
  lemma PhaseStep(orf: seq<Segment>, total: int, i: nat)
    requires 0 < i < |orf|
    requires PhaseCompletes(AssignPhases(orf[1..], total + CdsStep(orf[0]))[i - 1],
                            total + CdsStep(orf[0]) + TotalLength(CodingIvs(orf[1..][..i - 1])))
    ensures PhaseCompletes(AssignPhases(orf, total)[i], total + TotalLength(CodingIvs(orf[..i])))
  {
    CodingPrefixStep(orf, i);
    var rest := AssignPhases(orf[1..], total + CdsStep(orf[0]));
    assert AssignPhases(orf, total) == [AssignPhases(orf, total)[0]] + rest;
  }

  /** The phase of the CDS segment at `i`, by induction on `i`. */
  lemma {:induction false} PhaseAt(orf: seq<Segment>, total: int, i: nat)
    requires i < |orf| && orf[i].kind == CdsKind
    ensures PhaseCompletes(AssignPhases(orf, total)[i], total + TotalLength(CodingIvs(orf[..i])))
  {
    if i == 0 {
      assert orf[..0] == [];
    } else {
      assert orf[1..][i - 1] == orf[i];
      PhaseAt(orf[1..], total + CdsStep(orf[0]), i - 1);
      PhaseStep(orf, total, i);
    }
  }

  /** Every CDS segment's phase completes the codon opened by the offset and the coding
      bases that precede it in the ORF. */
  lemma PhasesCompleteCodons(orf: seq<Segment>, total: int)
    ensures forall i :: 0 <= i < |orf| && orf[i].kind == CdsKind ==>
      PhaseCompletes(AssignPhases(orf, total)[i], total + TotalLength(CodingIvs(orf[..i])))
  {
    forall i | 0 <= i < |orf| && orf[i].kind == CdsKind
      ensures PhaseCompletes(AssignPhases(orf, total)[i], total + TotalLength(CodingIvs(orf[..i])))
    {
      PhaseAt(orf, total, i);
    }
  }

  /** The offset computed from a GFF phase `p` hands `p % 3` back to the first CDS segment:
      the complement taken in the source undoes itself. */
  lemma FirstPhaseRestoresGff(orf: seq<Segment>, p: int)
    requires orf != [] && orf[0].kind == CdsKind
    ensures AssignPhases(orf, Phase(p))[0].phase == Some(p % 3)
  {
  }

  /** The verdict on one ORF and, when it passes, the ORF with its CDS phases filled in. */
  datatype OrfResult = OrfPass(orf: seq<Segment>) | OrfFail(error: Error)

  predicate Phased(orf: seq<Segment>)
  {
    forall i :: 0 <= i < |orf| && orf[i].kind == CdsKind ==>
      orf[i].phase.Some? && 0 <= orf[i].phase.value < 3
  }

  /** Sorting in reverse for the minus strand turns the first key into the greatest one. */
  predicate KeyBefore(a: Interval, b: Interval, reverse: bool)
  {
    if reverse then LexLe(b, a) else LexLe(a, b)
  }

  /** Any two keys are ordered one way or the other, and the order is transitive. */
  lemma KeyBeforeOrder(a: Interval, b: Interval, c: Interval, reverse: bool)
    ensures KeyBefore(a, b, reverse) || KeyBefore(b, a, reverse)
    ensures KeyBefore(a, b, reverse) && KeyBefore(b, c, reverse) ==> KeyBefore(a, c, reverse)
  {
  }

  lemma {:induction false} FirstKeyExists(keys: set<Interval>, reverse: bool)
    requires keys != {}
    ensures exists k :: k in keys && forall j :: j in keys ==> KeyBefore(k, j, reverse)
    decreases |keys|
  {
    var x :| x in keys;
    if keys == {x} {
      assert forall j :: j in keys ==> j == x;
      assert KeyBefore(x, x, reverse);
    } else {
      var rest := keys - {x};
      FirstKeyExists(rest, reverse);
      var m :| m in rest && forall j :: j in rest ==> KeyBefore(m, j, reverse);
      KeyBeforeOrder(m, x, x, reverse);
      if KeyBefore(m, x, reverse) {
        assert forall j :: j in keys ==> j == x || j in rest;
        assert m in keys;
      } else {
        forall j | j in keys
          ensures KeyBefore(x, j, reverse)
        {
          if j != x {
            assert j in rest;
            KeyBeforeOrder(x, m, j, reverse);
          } else {
            KeyBeforeOrder(x, x, x, reverse);
          }
        }
      }
    }
  }

  /** The first phase key in strand order. */
  function FirstKey(keys: set<Interval>, reverse: bool): (k: Interval)
    requires keys != {}
    ensures k in keys
  {
    FirstKeyExists(keys, reverse);
    var k :| k in keys && forall j :: j in keys ==> KeyBefore(k, j, reverse); k
  }

  /** The first key comes before every other key, in strand order. */
  lemma FirstKeyIsFirst(keys: set<Interval>, reverse: bool)
    requires keys != {}
    ensures forall j :: j in keys ==> KeyBefore(FirstKey(keys, reverse), j, reverse)
  {
  }

  /** The first entry of the phase list: the GFF phase of the first key when GFF phases are
      used (first ORF only), otherwise the phase computed for the first CDS segment, 0. */
  function FirstPhase(phases: map<Interval, int>, strand: Strand, index: nat): int
  {
    if index == 0 && |phases| > 0 then phases[FirstKey(phases.Keys, strand == Minus)] else 0
  }

  /** The truncation rules for an ORF whose coding length is not a multiple of three. */
  function TruncationCheck(orf: seq<Segment>, strand: Strand, first: int): (r: Outcome)
    requires CodingIvs(orf) != []
    ensures r.Fail? ==> r.error in {AssertionFailed, TruncatedFivePrime, TruncatedThreePrime}
  {
    var coding, utrs := CodingIvs(orf), KindIvs(orf, UtrKind);
    var lo, hi := MinStart(coding), MaxEnd(coding);
    var upstream, downstream := EndBefore(utrs, lo), StartAfter(utrs, hi);
    if |upstream| + |downstream| != |utrs| then Fail(AssertionFailed)
    else
      var five := if strand == Minus then downstream else upstream;
      var three := if strand == Minus then upstream else downstream;
      if first != 0 && five != [] then Fail(TruncatedFivePrime)
      else if TotalLength(coding) % 3 - first > 0 && three != [] then Fail(TruncatedThreePrime)
      else Pass
  }

  /** The shape checks on one ORF: it has CDS, its CDS overlaps exactly as many consecutive
      exons as it has segments, and its segments span the transcript. */
  function OrfShape(orf: seq<Segment>, exons: seq<Interval>, start: int, end: int): (r: Outcome)
    ensures r.Fail? ==> IsInvalidCds(r.error)
    ensures r == Pass ==>
      && CodingIvs(orf) != [] && MinStart(SegIvs(orf)) == start && MaxEnd(SegIvs(orf)) == end
      && |OverlapIndices(SortIntervals(exons), MinStart(CodingIvs(orf)), MaxEnd(CodingIvs(orf)), 0)|
         == |CodingIvs(orf)|
  {
    var coding := CodingIvs(orf);
    if coding == [] then Fail(NoOrf)
    else
      var hits := OverlapIndices(SortIntervals(exons), MinStart(coding), MaxEnd(coding), 0);
      if |hits| != |coding| || hits[|hits| - 1] as int - hits[0] as int + 1 != |coding| then Fail(CodingExonCount)
      else if MinStart(SegIvs(orf)) != start || MaxEnd(SegIvs(orf)) != end then Fail(OrfBoundaries)
      else Pass
  }

  /** Phase assignment from the first phase `first`, the truncation rules, and the
      minus-strand reversal. */
  function OrfPhasing(orf: seq<Segment>, strand: Strand, first: int): (r: OrfResult)
    requires CodingIvs(orf) != []
    ensures r.OrfFail? ==> r.error in {AssertionFailed, TruncatedFivePrime, TruncatedThreePrime}
    ensures r.OrfPass? ==> |r.orf| == |orf|
  {
    var offset := Phase(first);
    var truncation :=
      if (offset + TotalLength(CodingIvs(orf))) % 3 != 0 then TruncationCheck(orf, strand, first) else Pass;
    if truncation.Fail? then OrfFail(truncation.error)
    else
      var phased := AssignPhases(orf, offset);
      OrfPass(if strand == Minus then Reverse(phased) else phased)
  }

  /** A phased ORF keeps its segments, in transcript order (reversed on the minus strand),
      and every CDS segment carries a proper phase. */
  lemma OrfPhasingKeepsSegments(orf: seq<Segment>, strand: Strand, first: int)
    requires CodingIvs(orf) != []
    ensures var r := OrfPhasing(orf, strand, first);
      r.OrfPass? ==>
        && Phased(r.orf)
        && forall i :: 0 <= i < |orf| ==>
             var j := if strand == Minus then |orf| - 1 - i else i;
             r.orf[j].kind == orf[i].kind && r.orf[j].iv == orf[i].iv
  {
    PhasesCompleteCodons(orf, Phase(first));
    AssignPhasesKeepsSegments(orf, Phase(first));
    ReverseAt(AssignPhases(orf, Phase(first)));
  }

  /** One ORF checked as the source evidently intends (see the findings): the shape checks,
      GFF phases (first ORF only) covering every CDS segment, then phasing. */
  function OrfCheck(orf: seq<Segment>, exons: seq<Interval>, strand: Strand, start: int, end: int,
                    phases: map<Interval, int>, index: nat): (r: OrfResult)
    ensures r.OrfFail? ==> IsInvalidCds(r.error) || r.error == AssertionFailed
    ensures r.OrfPass? ==> OrfShape(orf, exons, start, end) == Pass && |r.orf| == |orf|
    ensures r.OrfPass? && index == 0 && |phases| > 0 ==> AllKeyed(CodingIvs(orf), phases)
  {
    var shape := OrfShape(orf, exons, start, end);
    if shape.Fail? then OrfFail(shape.error)
    else if index == 0 && |phases| > 0 && !AllKeyed(CodingIvs(orf), phases) then
      OrfFail(AssertionFailed)
    else OrfPhasing(orf, strand, FirstPhase(phases, strand, index))
  }

  function Reverse<T>(s: seq<T>): (r: seq<T>)
    ensures |r| == |s|
  {
    if s == [] then [] else Reverse(s[1..]) + [s[0]]
  }

  lemma {:induction false} ReverseAt<T>(s: seq<T>)
    ensures forall i :: 0 <= i < |s| ==> Reverse(s)[i] == s[|s| - 1 - i]
  {
    if s != [] {
      ReverseAt(s[1..]);
    }
  }

  /** Every CDS interval of the ORF has a GFF phase. */
  predicate AllKeyed(coding: seq<Interval>, phases: map<Interval, int>)
  {
    coding == [] || (coding[0] in phases && AllKeyed(coding[1..], phases))
  }

  lemma {:induction false} AllKeyedMeans(coding: seq<Interval>, phases: map<Interval, int>)
    ensures AllKeyed(coding, phases) <==> forall c :: c in coding ==> c in phases
  {
    if coding != [] {
      AllKeyedMeans(coding[1..], phases);
      assert coding == [coding[0]] + coding[1..];
    }
  }

  /** The ORF check as written. Its coding-exon filter (finalizing.py line 289) compares the
      end of an exon, a number, with a whole CDS segment, a pair; Python 3 raises TypeError
      on the first exon it examines, and `finalize` does not catch TypeError. */
  function OrfCheckAsWritten(orf: seq<Segment>, exons: seq<Interval>): (r: OrfResult)
    ensures r.OrfFail? && (r.error == TypeFailure <==> CodingIvs(orf) != [] && exons != [])
  {
    if CodingIvs(orf) == [] then OrfFail(NoOrf)
    else if exons == [] then OrfFail(CodingExonCount)
    else OrfFail(TypeFailure)
  }

  /** A single-exon transcript on 1-300 whose whole exon is coding, as one ORF sorted on
      (interval, kind). */
  function CodingExonOrf(): seq<Segment>
  {
    [Segment(CdsKind, Interval(1, 300), None), Segment(ExonKind, Interval(1, 300), None)]
  }

  lemma CodingExonOrfShape()
    ensures OrfShape(CodingExonOrf(), [Interval(1, 300)], 1, 300) == Pass
  {
    var orf := CodingExonOrf();
    assert orf[1..] == [orf[1]] && orf[1..][1..] == [];
    assert CodingIvs(orf) == [Interval(1, 300)];
    assert SegIvs(orf) == [Interval(1, 300), Interval(1, 300)];
    assert SortIntervals([Interval(1, 300)]) == [Interval(1, 300)];
    assert OverlapIndices([Interval(1, 300)], 1, 300, 0) == [0];
  }

  lemma CodingExonOrfPhasing()
    ensures CodingIvs(CodingExonOrf()) != []
    ensures OrfPhasing(CodingExonOrf(), Plus, 0)
      == OrfPass([Segment(CdsKind, Interval(1, 300), Some(0)), Segment(ExonKind, Interval(1, 300), None)])
  {
    var orf := CodingExonOrf();
    assert orf[1..] == [orf[1]] && orf[1..][1..] == [];
    assert CodingIvs(orf) == [Interval(1, 300)];
    assert TotalLength(CodingIvs(orf)) == 300;
  }

  /** On this transcript the code as written raises TypeError, which escapes `finalize`;
      the intended check accepts the ORF and gives its CDS segment phase 0. */
  lemma OrfCheckAsWrittenRejectsCodingExon()
    ensures var exons := [Interval(1, 300)];
      && OrfCheckAsWritten(CodingExonOrf(), exons) == OrfFail(TypeFailure)
      && !IsInvalidCds(TypeFailure) && !IsInvalidTranscript(TypeFailure)
      && OrfCheck(CodingExonOrf(), exons, Plus, 1, 300, map[], 0)
         == OrfPass([Segment(CdsKind, Interval(1, 300), Some(0)), Segment(ExonKind, Interval(1, 300), None)])
  {
    CodingExonOrfShape();
    CodingExonOrfPhasing();
  }

  /** The phase loop of `__check_internal_orf`. The GFF phase comparison inside the source's
      loop only logs: the phase it assigns is always the computed one. */
  method PhaseLoop(orf: seq<Segment>, offset: int) returns (phased: seq<Segment>, total: int)
    ensures phased == AssignPhases(orf, offset)
    ensures total == offset + TotalLength(CodingIvs(orf))
  {
    phased, total := [], offset;
    var i := 0;
    while i < |orf|
      invariant 0 <= i <= |orf|
      invariant phased + AssignPhases(orf[i..], total) == AssignPhases(orf, offset)
      invariant total + TotalLength(CodingIvs(orf[i..])) == offset + TotalLength(CodingIvs(orf))
    {
      var seg := orf[i];
      PhaseLoopStep(orf, i, total);
      if seg.kind != CdsKind {
        phased := phased + [seg];
      } else {
        var next := Segment(CdsKind, seg.iv, Some(Phase(total)));
        phased := phased + [next];
        total := total + (seg.iv.end - seg.iv.start + 1);
      }
      i := i + 1;
    }
    assert orf[|orf|..] == [];
  }

  /** One segment of the phase loop: a CDS segment takes the current phase and adds its
      length to the running total; any other segment passes through. */
  lemma PhaseLoopStep(orf: seq<Segment>, i: nat, total: int)
    requires i < |orf|
    ensures orf[i].kind != CdsKind ==>
      && AssignPhases(orf[i..], total) == [orf[i]] + AssignPhases(orf[i + 1..], total)
      && TotalLength(CodingIvs(orf[i..])) == TotalLength(CodingIvs(orf[i + 1..]))
    ensures orf[i].kind == CdsKind ==>
      && AssignPhases(orf[i..], total)
           == [Segment(CdsKind, orf[i].iv, Some(Phase(total)))] + AssignPhases(orf[i + 1..], total + Len(orf[i].iv))
      && TotalLength(CodingIvs(orf[i..])) == Len(orf[i].iv) + TotalLength(CodingIvs(orf[i + 1..]))
  {
    var seg := orf[i];
    assert orf[i..][1..] == orf[i + 1..];
    TotalLengthAppend(if seg.kind == CdsKind then [seg.iv] else [], CodingIvs(orf[i + 1..]));
  }

  /** The phase loop and the truncation rules of `__check_internal_orf`. */
  method PhaseOrf(orf: seq<Segment>, strand: Strand, first: int) returns (v: OrfResult)
    requires CodingIvs(orf) != []
    ensures v == OrfPhasing(orf, strand, first)
  {
    var offset := (3 - first % 3) % 3;
    var phased, total := PhaseLoop(orf, offset);
    assert offset == Phase(first);
    if total % 3 != 0 {
      var truncation := TruncationCheck(orf, strand, first);
      if truncation.Fail? {
        return OrfFail(truncation.error);
      }
    }
    if strand == Minus {
      phased := Reverse(phased);
    }
    return OrfPass(phased);
  }

  /** The body of `__check_internal_orf` on the values it reads; the caller stores the
      phased ORF back. */
  method CheckOrf(orf: seq<Segment>, exons: seq<Interval>, strand: Strand, start: int, end: int,
                  phases: map<Interval, int>, index: nat) returns (v: OrfResult)
    ensures v == OrfCheck(orf, exons, strand, start, end, phases, index)
  {
    var shape := OrfShape(orf, exons, start, end);
    if shape.Fail? {
      return OrfFail(shape.error);
    }
    var coding := CodingIvs(orf);
    if index == 0 && |phases| > 0 && !AllKeyed(coding, phases) {
      return OrfFail(AssertionFailed);
    }
    var first := FirstPhase(phases, strand, index);
    v := PhaseOrf(orf, strand, first);
  }

  // ---------------------------------------------------------------------------------------
  // __check_phase_correctness

  /** Segments rebuilt from exons, CDS and UTR and sorted on (interval, kind). */
  function BuildSegments(exons: seq<Interval>, cds: seq<Interval>, utr: seq<Interval>): seq<Segment>
  {
    SortSegments(AsSegments(exons, ExonKind) + AsSegments(cds, CdsKind) + AsSegments(utr, UtrKind))
  }

  /** The rebuilt segments are the exons, CDS and UTR, each tagged with its kind, and sorted. */
  lemma BuildSegmentsSorted(exons: seq<Interval>, cds: seq<Interval>, utr: seq<Interval>)
    ensures var r := BuildSegments(exons, cds, utr);
      && multiset(r) == multiset(AsSegments(exons, ExonKind) + AsSegments(cds, CdsKind) + AsSegments(utr, UtrKind))
      && Sorting.SortedBy(r, SegLe)
  {
    SortSegmentsSorted(AsSegments(exons, ExonKind) + AsSegments(cds, CdsKind) + AsSegments(utr, UtrKind));
    Sorting.SortPermutes(AsSegments(exons, ExonKind) + AsSegments(cds, CdsKind) + AsSegments(utr, UtrKind),
                         SegLe);
  }

  /** Whether any segment is CDS, scanning from the front. */
  predicate HasCds(segs: seq<Segment>)
  {
    segs != [] && (segs[0].kind == CdsKind || HasCds(segs[1..]))
  }

  lemma {:induction false} HasCdsExists(segs: seq<Segment>)
    ensures HasCds(segs) <==> exists i :: 0 <= i < |segs| && segs[i].kind == CdsKind
  {
    if segs != [] {
      HasCdsExists(segs[1..]);
      if !HasCds(segs) {
        forall i | 0 <= i < |segs|
          ensures segs[i].kind != CdsKind
        {
          if i > 0 {
            assert segs[i] == segs[1..][i - 1];
          }
        }
      } else if segs[0].kind != CdsKind {
        var i :| 0 <= i < |segs[1..]| && segs[1..][i].kind == CdsKind;
        assert segs[i + 1].kind == CdsKind;
      }
    }
  }

  /** Progress of the loop over the internal ORFs: all checked so far, CDS stripped after an
      InvalidCDS/InvalidTranscript, or an uncaught error with the ORFs already rewritten. */
  datatype OrfsState =
    | Checked(orfs: seq<seq<Segment>>)
    | Stripped
    | Raised(error: Error, done: seq<seq<Segment>>)

  /** The verdict of the check on each internal ORF, in store order. */
  function Verdicts(orfs: seq<seq<Segment>>, exons: seq<Interval>, strand: Strand, start: int,
                    end: int, phases: map<Interval, int>): (r: seq<OrfResult>)
    ensures |r| == |orfs|
  {
    seq(|orfs|, i requires 0 <= i < |orfs| => OrfCheck(orfs[i], exons, strand, start, end, phases, i))
  }

  /** The loop's state after the first `k` verdicts: it stops at the first failure. */
  function OrfsStateAfter(verdicts: seq<OrfResult>, k: nat): (r: OrfsState)
    requires k <= |verdicts|
    ensures r.Checked? ==> |r.orfs| == k
    ensures r.Raised? ==> |r.done| < k
  {
    if k == 0 then Checked([])
    else
      var prev := OrfsStateAfter(verdicts, k - 1);
      if !prev.Checked? then prev
      else
        var v := verdicts[k - 1];
        if v.OrfPass? then Checked(prev.orfs + [v.orf])
        else if IsInvalidCds(v.error) || IsInvalidTranscript(v.error) then Stripped
        else Raised(v.error, prev.orfs)
  }

  lemma {:induction false} OrfsStateStays(verdicts: seq<OrfResult>, k: nat, m: nat)
    requires k <= m <= |verdicts|
    requires !OrfsStateAfter(verdicts, k).Checked?
    ensures OrfsStateAfter(verdicts, m) == OrfsStateAfter(verdicts, k)
    decreases m - k
  {
    if m > k {
      OrfsStateStays(verdicts, k, m - 1);
    }
  }

  /** The first failing verdict decides the final state of the loop. */
  lemma OrfFailureStops(verdicts: seq<OrfResult>, i: nat)
    requires i < |verdicts| && OrfsStateAfter(verdicts, i).Checked? && verdicts[i].OrfFail?
    ensures var e := verdicts[i].error;
      OrfsStateAfter(verdicts, |verdicts|)
      == if IsInvalidCds(e) || IsInvalidTranscript(e) then Stripped
         else Raised(e, OrfsStateAfter(verdicts, i).orfs)
  {
    OrfsStateStays(verdicts, i + 1, |verdicts|);
  }

  /** When the loop gets through every ORF, the stored ORF at `i` is the one the check
      produced for the original ORF at `i`. */
  lemma {:induction false} CheckedOrfPassed(verdicts: seq<OrfResult>, k: nat, i: nat)
    requires i < k <= |verdicts| && OrfsStateAfter(verdicts, k).Checked?
    ensures verdicts[i] == OrfPass(OrfsStateAfter(verdicts, k).orfs[i])
  {
    var prev := OrfsStateAfter(verdicts, k - 1);
    if i < k - 1 {
      CheckedOrfPassed(verdicts, k - 1, i);
      assert OrfsStateAfter(verdicts, k).orfs[i] == prev.orfs[i];
    }
  }

  /** Every failing verdict is an InvalidCDS or a failed assertion. */
  predicate FailuresCaughtOrAsserted(verdicts: seq<OrfResult>)
  {
    forall i :: 0 <= i < |verdicts| && verdicts[i].OrfFail? ==>
      IsInvalidCds(verdicts[i].error) || verdicts[i].error == AssertionFailed
  }

  lemma {:induction false} RaisedFromVerdicts(verdicts: seq<OrfResult>, k: nat)
    requires k <= |verdicts| && FailuresCaughtOrAsserted(verdicts)
    ensures var r := OrfsStateAfter(verdicts, k); r.Raised? ==> r.error == AssertionFailed
  {
    if k > 0 {
      RaisedFromVerdicts(verdicts, k - 1);
    }
  }

  /** An uncaught failure of the ORF loop can only be a failed assertion. */
  lemma RaisedIsAssertion(orfs: seq<seq<Segment>>, exons: seq<Interval>,
                          strand: Strand, start: int, end: int,
                          phases: map<Interval, int>, k: nat)
    requires k <= |orfs|
    ensures var r := OrfsStateAfter(Verdicts(orfs, exons, strand, start, end, phases), k);
      r.Raised? ==> r.error == AssertionFailed
  {
    var vs := Verdicts(orfs, exons, strand, start, end, phases);
    forall i | 0 <= i < |vs| && vs[i].OrfFail?
      ensures IsInvalidCds(vs[i].error) || vs[i].error == AssertionFailed
    {
    }
    RaisedFromVerdicts(vs, k);
  }

  /** An ORF that passes its check carries a proper phase on each CDS segment. */
  lemma PassedOrfPhased(orf: seq<Segment>, exons: seq<Interval>, strand: Strand, start: int, end: int,
                        phases: map<Interval, int>, index: nat)
    requires OrfCheck(orf, exons, strand, start, end, phases, index).OrfPass?
    ensures Phased(OrfCheck(orf, exons, strand, start, end, phases, index).orf)
  {
    OrfPhasingKeepsSegments(orf, strand, FirstPhase(phases, strand, index));
  }

  /** After a loop that got through every ORF, every stored ORF is the phased version of
      the original and carries a proper phase on each CDS segment. */
  lemma CheckedOrfsPhased(orfs: seq<seq<Segment>>, exons: seq<Interval>, strand: Strand, start: int,
                          end: int, phases: map<Interval, int>)
    ensures var r := OrfsStateAfter(Verdicts(orfs, exons, strand, start, end, phases), |orfs|);
      r.Checked? ==> forall i :: 0 <= i < |r.orfs| ==>
        OrfCheck(orfs[i], exons, strand, start, end, phases, i) == OrfPass(r.orfs[i]) && Phased(r.orfs[i])
  {
    var vs := Verdicts(orfs, exons, strand, start, end, phases);
    var r := OrfsStateAfter(vs, |orfs|);
    if r.Checked? {
      forall i | 0 <= i < |r.orfs|
        ensures OrfCheck(orfs[i], exons, strand, start, end, phases, i) == OrfPass(r.orfs[i])
        ensures Phased(r.orfs[i])
      {
        CheckedOrfPassed(vs, |orfs|, i);
        PassedOrfPhased(orfs[i], exons, strand, start, end, phases, i);
      }
    }
  }

  /** strip_cds is not part of this model: it is taken to drop the CDS, the UTR, the
      segments, the internal ORFs and the ORF selection. */
  method StripCds(t: Transcript)
    modifies t`combinedCds, t`combinedUtr, t`segments, t`internalOrfs, t`selectedOrfIndex
    ensures t.combinedCds == [] && t.combinedUtr == [] && t.segments == [] && t.internalOrfs == []
    ensures t.selectedOrfIndex == None
  {
    t.combinedCds, t.combinedUtr, t.segments, t.internalOrfs := [], [], [], [];
    t.selectedOrfIndex := None;
  }

  predicate StrippedCoding(t: Transcript)
    reads t
  {
    t.combinedCds == [] && t.combinedUtr == [] && t.segments == [] && t.internalOrfs == []
    && t.selectedOrfIndex == None
  }

  /** The loop over the internal ORFs on values: it stops at the first ORF that fails its
      check; the ORFs checked before it are already replaced by their phased versions. */
  method CheckAllOrfs(orfs: seq<seq<Segment>>, exons: seq<Interval>, strand: Strand, start: int,
                      end: int, phases: map<Interval, int>)
    returns (st: OrfsState, current: seq<seq<Segment>>)
    ensures st == OrfsStateAfter(Verdicts(orfs, exons, strand, start, end, phases), |orfs|)
    ensures st.Checked? ==> current == st.orfs
    ensures st.Raised? ==> current == st.done + orfs[|st.done|..]
  {
    ghost var verdicts := Verdicts(orfs, exons, strand, start, end, phases);
    var done: seq<seq<Segment>> := [];
    var i := 0;
    while i < |orfs|
      invariant 0 <= i <= |orfs|
      invariant OrfsStateAfter(verdicts, i) == Checked(done)
    {
      var v := CheckOrf(orfs[i], exons, strand, start, end, phases, i);
      if v.OrfFail? {
        st := if IsInvalidCds(v.error) || IsInvalidTranscript(v.error) then Stripped
              else Raised(v.error, done);
        OrfFailureStops(verdicts, i);
        return st, done + orfs[i..];
      }
      done := done + [v.orf];
      i := i + 1;
    }
    return Checked(done), done;
  }

  /** The ORFs the phase check goes through: when the segments or the ORF store is empty the
      segments are rebuilt, and they form the single ORF if they hold any CDS. */
  function OrfsToCheck(segments: seq<Segment>, orfs: seq<seq<Segment>>, exons: seq<Interval>,
                       cds: seq<Interval>, utr: seq<Interval>): (r: seq<seq<Segment>>)
    ensures |segments| > 0 && |orfs| > 0 ==> r == orfs
    ensures r != orfs ==> |r| == 1 && HasCds(r[0])
  {
    var segs := BuildSegments(exons, cds, utr);
    if (|segments| == 0 || |orfs| == 0) && HasCds(segs) then [segs] else orfs
  }

  /** The rebuilding step on values: the new segments and ORFs, and whether the ORF selection
      is dropped because the rebuilt segments hold no CDS. */
  method RebuildOrfs(segments: seq<Segment>, orfs: seq<seq<Segment>>, exons: seq<Interval>,
                     cds: seq<Interval>, utr: seq<Interval>)
    returns (newSegments: seq<Segment>, newOrfs: seq<seq<Segment>>, dropSelection: bool)
    ensures newOrfs == OrfsToCheck(segments, orfs, exons, cds, utr)
    ensures |segments| > 0 && |orfs| > 0 ==> newSegments == segments && !dropSelection
    ensures dropSelection ==> newOrfs == orfs
  {
    newSegments, newOrfs, dropSelection := segments, orfs, false;
    if |segments| == 0 || |orfs| == 0 {
      newSegments := BuildSegments(exons, cds, utr);
      if HasCds(newSegments) {
        newOrfs := [newSegments];
      } else {
        dropSelection := true;
      }
    }
  }

  /** Rebuilds the segments (and the single ORF they form) when either store is empty, then
      checks every ORF; a transcript whose ORFs all pass ends up with the first one selected. */
  method CheckPhaseCorrectness(t: Transcript) returns (r: Outcome, ghost st: OrfsState)
    modifies t`combinedCds, t`combinedUtr, t`segments, t`internalOrfs, t`selectedOrfIndex
    ensures var orfs := OrfsToCheck(old(t.segments), old(t.internalOrfs), old(t.exons),
                                    old(t.combinedCds), old(t.combinedUtr));
      st == OrfsStateAfter(Verdicts(orfs, old(t.exons), old(t.strand), old(t.start), old(t.end),
                                    old(t.phases)), |orfs|)
    ensures st.Checked? ==>
      && r == Pass && t.internalOrfs == st.orfs
      && t.combinedCds == old(t.combinedCds) && t.combinedUtr == old(t.combinedUtr)
      && (st.orfs != [] ==> t.selectedOrfIndex == Some(0))
    ensures st.Stripped? ==> r == Pass && StrippedCoding(t)
    ensures st.Raised? ==>
      && r == Fail(st.error)
      && t.internalOrfs == st.done + OrfsToCheck(old(t.segments), old(t.internalOrfs), old(t.exons),
                                                 old(t.combinedCds), old(t.combinedUtr))[|st.done|..]
  {
    var segments, orfs, dropSelection :=
      RebuildOrfs(t.segments, t.internalOrfs, t.exons, t.combinedCds, t.combinedUtr);
    t.segments, t.internalOrfs := segments, orfs;
    if dropSelection {
      t.selectedOrfIndex := None;
    }
    ghost var verdicts := Verdicts(orfs, t.exons, t.strand, t.start, t.end, t.phases);
    var state, current := CheckAllOrfs(orfs, t.exons, t.strand, t.start, t.end, t.phases);
    st := state;
    assert st == OrfsStateAfter(verdicts, |orfs|);
    if state.Stripped? {
      StripCds(t);
      return Pass, st;
    }
    t.internalOrfs := current;
    if state.Raised? {
      return Fail(state.error), st;
    }
    r := Pass;
    if |current| > 0 {
      t.selectedOrfIndex := Some(0);
    }
  }

  // ---------------------------------------------------------------------------------------
  // __calculate_introns

  /** The CDS intervals of the selected ORF in coordinate order; none without a selection. */
  function SelectedCds(orfs: seq<seq<Segment>>, index: Option<nat>): (r: seq<Interval>)
    ensures r != [] ==> index.Some? && index.value < |orfs|
    ensures Sorting.SortedBy(r, LexLe)
  {
    if index.Some? && index.value < |orfs| then
      SortIntervalsSorted(CodingIvs(orfs[index.value]));
      SortIntervals(CodingIvs(orfs[index.value]))
    else []
  }

  /** Every consecutive pair of selected CDS segments is distinct, ordered, and separated by
      one of the transcript's introns. */
  predicate SelectedPairsOk(sel: seq<Interval>, introns: set<Interval>)
  {
    forall i :: 0 <= i < |sel| - 1 ==> PairOk(sel, introns, i)
  }

  predicate PairOk(sel: seq<Interval>, introns: set<Interval>, i: nat)
    requires i + 1 < |sel|
  {
    sel[i] != sel[i + 1] && sel[i].end < sel[i + 1].start && Junction(sel, i) in introns
  }

  /** When the selected pairs pass, the selected CDS introns are introns of the transcript. */
  lemma {:induction false} SelectedWithinIntrons(sel: seq<Interval>, introns: set<Interval>, k: nat)
    requires SelectedPairsOk(sel, introns) && k < |sel|
    ensures JunctionsUpTo(sel, k) <= introns
  {
    if k > 0 {
      SelectedWithinIntrons(sel, introns, k - 1);
      assert PairOk(sel, introns, k - 1);
    }
  }

  /** Junctions among the first `k` consecutive combined CDS pairs that are real introns. */
  function CombinedUpTo(comb: seq<Interval>, introns: set<Interval>, k: nat): set<Interval>
    requires k < |comb| || (k == 0 && comb == [])
  {
    if k == 0 then {}
    else CombinedUpTo(comb, introns, k - 1)
         + (if Junction(comb, k - 1) in introns then {Junction(comb, k - 1)} else {})
  }

  function CombinedJunctions(comb: seq<Interval>, introns: set<Interval>): set<Interval>
  {
    if |comb| <= 1 then {} else CombinedUpTo(comb, introns, |comb| - 1)
  }

  /** The combined CDS introns are exactly the junctions between consecutive combined CDS
      segments that are also introns of the transcript. */
  lemma {:induction false} CombinedMembers(comb: seq<Interval>, introns: set<Interval>, k: nat)
    requires k < |comb|
    ensures forall x :: x in CombinedUpTo(comb, introns, k) <==>
      x in introns && exists i :: 0 <= i < k && x == Junction(comb, i)
  {
    if k > 0 {
      CombinedMembers(comb, introns, k - 1);
    }
  }

  datatype IntronResult = IntronResult(outcome: Outcome, introns: set<Interval>, splices: set<int>,
                                       selected: set<Interval>, combined: set<Interval>)

  /** What the intron calculation leaves behind, given the previous CDS-intron sets
      (`previous.outcome` plays no part). */
  function CalculatedIntrons(exons: seq<Interval>, nOrfs: nat, sel: seq<Interval>, comb: seq<Interval>,
                             previous: IntronResult): (r: IntronResult)
    ensures r.outcome != Fail(OverlappingExons) <==> Chain(exons)
    ensures Chain(exons) ==> r.introns == Introns(exons) && r.splices == Splices(exons)
    ensures !Chain(exons) ==> r == previous.(outcome := Fail(OverlappingExons))
    ensures r.outcome == Pass ==> |r.combined| >= |r.selected|
    ensures r.outcome == Pass && nOrfs > 0 && |sel| >= 2 && |comb| >= 2 ==>
      && r.selected == Introns(sel) && r.selected <= r.introns && r.combined <= r.introns
      && r.combined != {}
    ensures r.outcome.Fail? ==> r.outcome.error in {OverlappingExons, AssertionFailed}
  {
    if !Chain(exons) then previous.(outcome := Fail(OverlappingExons))
    else
      var introns, splices := Introns(exons), Splices(exons);
      if nOrfs == 0 || |sel| < 2 || |comb| < 2 then
        var ok := |previous.combined| >= |previous.selected|;
        IntronResult(if ok then Pass else Fail(AssertionFailed), introns, splices,
                     previous.selected, previous.combined)
      else if !SelectedPairsOk(sel, introns) then
        IntronResult(Fail(AssertionFailed), introns, splices, previous.selected, previous.combined)
      else
        SelectedWithinIntrons(sel, introns, |sel| - 1);
        CombinedMembers(comb, introns, |comb| - 1);
        var selected := Introns(sel);
        var combined := if nOrfs > 1 then CombinedJunctions(comb, introns) else selected;
        var ok := |combined| > 0 && |combined| >= |selected|;
        IntronResult(if ok then Pass else Fail(AssertionFailed), introns, splices, selected, combined)
  }

  /** The junction loop over the exons, on values: it stops at the first overlapping pair. */
  method ExonJunctions(exons: seq<Interval>) returns (ok: bool, introns: set<Interval>, splices: set<int>)
    ensures ok == Chain(exons)
    ensures ok ==> introns == Introns(exons) && splices == Splices(exons)
  {
    introns, splices := {}, {};
    if |exons| <= 1 {
      return true, introns, splices;
    }
    var i := 0;
    while i < |exons| - 1
      invariant 0 <= i <= |exons| - 1
      invariant forall j :: 0 <= j < i ==> exons[j].end < exons[j + 1].start
      invariant introns == JunctionsUpTo(exons, i) && splices == SplicesUpTo(exons, i)
    {
      if exons[i].end >= exons[i + 1].start {
        return false, {}, {};
      }
      introns := introns + {Interval(exons[i].end + 1, exons[i + 1].start - 1)};
      splices := splices + {exons[i].end + 1, exons[i + 1].start - 1};
      i := i + 1;
    }
    return true, introns, splices;
  }

  /** The loop over consecutive selected CDS pairs: it stops at the first failed assertion. */
  method SelectedIntrons(sel: seq<Interval>, introns: set<Interval>) returns (ok: bool, found: set<Interval>)
    ensures ok == SelectedPairsOk(sel, introns)
    ensures ok ==> found == Introns(sel)
  {
    found := {};
    if |sel| <= 1 {
      return true, found;
    }
    var i := 0;
    while i < |sel| - 1
      invariant 0 <= i <= |sel| - 1
      invariant forall j :: 0 <= j < i ==> PairOk(sel, introns, j)
      invariant found == JunctionsUpTo(sel, i)
    {
      var first, second := sel[i], sel[i + 1];
      var intron := Interval(first.end + 1, second.start - 1);
      if first == second || first.end >= second.start || intron !in introns {
        assert !PairOk(sel, introns, i);
        return false, {};
      }
      found := found + {intron};
      i := i + 1;
    }
    return true, found;
  }

  /** The loop over consecutive combined CDS pairs, keeping the junctions that are introns. */
  method CombinedIntrons(comb: seq<Interval>, introns: set<Interval>) returns (found: set<Interval>)
    ensures found == CombinedJunctions(comb, introns)
  {
    found := {};
    if |comb| <= 1 {
      return;
    }
    var position := 0;
    while position < |comb| - 1
      invariant 0 <= position <= |comb| - 1
      invariant found == CombinedUpTo(comb, introns, position)
    {
      var junction := Interval(comb[position].end + 1, comb[position + 1].start - 1);
      if junction in introns {
        found := found + {junction};
      }
      position := position + 1;
    }
  }

  /** Derives the introns and splice sites, then the selected and combined CDS introns. */
  method CalculateIntrons(t: Transcript) returns (r: Outcome)
    modifies t`introns, t`splices, t`selectedCdsIntrons, t`combinedCdsIntrons
    ensures IntronResult(r, t.introns, t.splices, t.selectedCdsIntrons, t.combinedCdsIntrons)
      == CalculatedIntrons(old(t.exons), |old(t.internalOrfs)|,
                           SelectedCds(old(t.internalOrfs), old(t.selectedOrfIndex)), old(t.combinedCds),
                           IntronResult(Pass, old(t.introns), old(t.splices),
                                        old(t.selectedCdsIntrons), old(t.combinedCdsIntrons)))
  {
    var ok, introns, splices := ExonJunctions(t.exons);
    if !ok {
      return Fail(OverlappingExons);
    }
    t.introns, t.splices := introns, splices;
    var sel := SelectedCds(t.internalOrfs, t.selectedOrfIndex);
    if |t.internalOrfs| == 0 || |sel| < 2 || |t.combinedCds| < 2 {
      r := if |t.combinedCdsIntrons| >= |t.selectedCdsIntrons| then Pass else Fail(AssertionFailed);
      return;
    }
    var pairsOk, selected := SelectedIntrons(sel, introns);
    if !pairsOk {
      return Fail(AssertionFailed);
    }
    t.selectedCdsIntrons := selected;
    if |t.internalOrfs| > 1 {
      var combined := CombinedIntrons(t.combinedCds, introns);
      t.combinedCdsIntrons := combined;
    } else {
      t.combinedCdsIntrons := selected;
    }
    r := if |t.combinedCdsIntrons| > 0 && |t.combinedCdsIntrons| >= |t.selectedCdsIntrons| then Pass
         else Fail(AssertionFailed);
  }

  // ---------------------------------------------------------------------------------------
  // finalize

  /** The rebuilt segments of a transcript with CDS hold a CDS segment. */
  lemma BuildSegmentsHasCds(exons: seq<Interval>, cds: seq<Interval>, utr: seq<Interval>)
    requires cds != []
    ensures HasCds(BuildSegments(exons, cds, utr))
  {
    var raw := AsSegments(exons, ExonKind) + AsSegments(cds, CdsKind) + AsSegments(utr, UtrKind);
    var x := Segment(CdsKind, cds[0], None);
    AsSegmentsAt(cds, CdsKind, 0);
    assert raw[|exons|] == x;
    BuildSegmentsSorted(exons, cds, utr);
    var r := BuildSegments(exons, cds, utr);
    assert x in multiset(r);
    var i :| 0 <= i < |r| && r[i] == x;
    HasCdsExists(r);
  }

  /** A coding transcript always has at least one ORF to check. */
  lemma OrfsToCheckNonEmpty(segments: seq<Segment>, orfs: seq<seq<Segment>>, exons: seq<Interval>,
                            cds: seq<Interval>, utr: seq<Interval>)
    requires cds != []
    ensures |OrfsToCheck(segments, orfs, exons, cds, utr)| > 0
  {
    BuildSegmentsHasCds(exons, cds, utr);
  }

  /** The CDS segments of an ORF, in ORF order. */
  function CdsSegments(orf: seq<Segment>): (r: seq<Segment>)
    ensures forall seg :: seg in r <==> seg in orf && seg.kind == CdsKind
  {
    if orf == [] then []
    else if orf[0].kind == CdsKind then [orf[0]] + CdsSegments(orf[1..])
    else CdsSegments(orf[1..])
  }

  /** Every exon segment names one of the transcript's exons. */
  predicate ExonSegmentsKnown(segments: seq<Segment>, exons: seq<Interval>)
  {
    forall i :: 0 <= i < |segments| && segments[i].kind == ExonKind ==> segments[i].iv in exons
  }

  /** unfinalize is not part of this model: it is taken to clear the finalized flag and the
      caches derived from the exons (introns, splice sites and CDS introns). */
  method Unfinalize(t: Transcript)
    modifies t`finalized, t`introns, t`splices, t`selectedCdsIntrons, t`combinedCdsIntrons
    ensures !t.finalized && t.introns == {} && t.splices == {}
    ensures t.selectedCdsIntrons == {} && t.combinedCdsIntrons == {}
  {
    t.finalized := false;
    t.introns, t.splices, t.selectedCdsIntrons, t.combinedCdsIntrons := {}, {}, {}, {};
  }

  /** Which stage of the coding fallback chain the transcript came through. */
  datatype CodingPath = AsGiven | UtrRecomputed | CodingStripped

  /** The opening of finalisation: sort the exons, then run the basic checks. */
  method SortAndCheck(t: Transcript) returns (r: Outcome)
    modifies t`exons
    ensures r == Pass ==>
      && t.exons == SortIntervals(old(t.exons))
      && BasicChecks(t.exons, old(t.start), old(t.end), old(t.strand), old(t.combinedCds),
                     old(t.combinedUtr)) == Pass
    ensures r == Pass ==> Sorting.SortedBy(t.exons, LexLe)
    ensures r.Fail? ==> IsInvalidTranscript(r.error)
  {
    ghost var exons0 := t.exons;
    t.exons := SortIntervals(t.exons);
    r := BasicFinalChecks(t);
    SortIntervalsSorted(exons0);
    Sorting.SortOfSorted(SortIntervals(exons0), LexLe);
  }

  /** The last fallback: strip all coding data, then rerun the basic and cDNA checks. */
  method StripAndRecheck(t: Transcript) returns (r: Outcome)
    modifies t`exons, t`combinedCds, t`combinedUtr, t`segments, t`internalOrfs
    ensures t.combinedCds == [] && t.combinedUtr == [] && t.segments == [] && t.internalOrfs == []
    ensures r == BasicChecks(old(t.exons), old(t.start), old(t.end), old(t.strand), [], [])
    ensures r == Pass ==> t.exons == SortIntervals(old(t.exons))
  {
    t.combinedCds, t.combinedUtr, t.segments, t.internalOrfs := [], [], [], [];
    r := BasicFinalChecks(t);
    if r.Fail? {
      return;
    }
    r := CheckCdnaVsUtr(t);
  }

  datatype Reconciliation = Reconciliation(outcome: Outcome, path: CodingPath, cds: seq<Interval>,
                                           utr: seq<Interval>)

  /** The cDNA/UTR reconciliation with its two fallbacks: on an InvalidCDS the UTR is dropped
      and recomputed from the CDS; on a second InvalidCDS all coding data are stripped and the
      basic checks decide. */
  function Reconcile(exons: seq<Interval>, start: int, end: int, strand: Strand, cds: seq<Interval>,
                     utr: seq<Interval>): Reconciliation
  {
    var first := CdnaVsUtr(exons, cds, utr);
    if !(first.outcome.Fail? && IsInvalidCds(first.outcome.error)) then
      Reconciliation(first.outcome, AsGiven, first.cds, first.utr)
    else
      var second := CdnaVsUtr(exons, first.cds, []);
      if !(second.outcome.Fail? && IsInvalidCds(second.outcome.error)) then
        Reconciliation(second.outcome, UtrRecomputed, second.cds, second.utr)
      else
        Reconciliation(BasicChecks(exons, start, end, strand, [], []), CodingStripped, [], [])
  }

  /** The reconciliation passes only with lengths that add up, fails only with an invalid
      transcript or a broken assertion, and strips the coding data on its last fallback. */
  lemma ReconcileOutcome(exons: seq<Interval>, start: int, end: int, strand: Strand, cds: seq<Interval>,
                         utr: seq<Interval>)
    ensures var r := Reconcile(exons, start, end, strand, cds, utr);
      && (r.outcome == Pass ==> LengthsAddUp(exons, r.cds, r.utr))
      && (r.outcome.Fail? ==> IsInvalidTranscript(r.outcome.error) || r.outcome.error == AssertionFailed)
      && (r.path == CodingStripped ==> r.cds == [] && r.utr == [])
  {
  }

  /** Beyond its outcome: the reconciliation falls back only after the given CDS failed; the
      UTR recomputation keeps the CDS; stripping leaves a non-coding transcript that the basic
      checks alone decide. */
  lemma ReconcileMeans(exons: seq<Interval>, start: int, end: int, strand: Strand, cds: seq<Interval>,
                       utr: seq<Interval>)
    ensures var r := Reconcile(exons, start, end, strand, cds, utr);
      && (r.path != AsGiven ==> cds != [] && CdnaVsUtr(exons, cds, utr).outcome.Fail?)
      && (r.path == UtrRecomputed ==> r.cds == SortIntervals(cds))
      && (r.path == CodingStripped ==>
            (r.outcome == Pass <==> BasicChecks(exons, start, end, strand, [], []) == Pass))
  {
    var first := CdnaVsUtr(exons, cds, utr);
    if first.outcome.Fail? && IsInvalidCds(first.outcome.error) {
      RecomputeKeepsCds(exons, cds, utr);
    }
  }

  /** The check hands back the CDS as given or sorted, and sorted whenever it found the UTR
      inconsistent with it. */
  lemma CdnaCheckCds(exons: seq<Interval>, cds: seq<Interval>, utr: seq<Interval>, recompute: bool)
    ensures var r := CdnaCheckWith(exons, cds, utr, recompute);
      && (r.cds == cds || r.cds == SortIntervals(cds))
      && (r.outcome.Fail? && IsInvalidCds(r.outcome.error) ==> r.cds == SortIntervals(cds))
  {
  }

  /** A check that fails with InvalidCDS has sorted the CDS; the retry without UTR keeps it. */
  lemma RecomputeKeepsCds(exons: seq<Interval>, cds: seq<Interval>, utr: seq<Interval>)
    requires CdnaVsUtr(exons, cds, utr).outcome.Fail?
    requires IsInvalidCds(CdnaVsUtr(exons, cds, utr).outcome.error)
    ensures cds != [] && CdnaVsUtr(exons, CdnaVsUtr(exons, cds, utr).cds, []).cds == SortIntervals(cds)
  {
    var sorted := SortIntervals(cds);
    CdnaCheckCds(exons, cds, utr, TotalLength(exons) != TotalLength(utr) + TotalLength(cds));
    SortIntervalsSorted(cds);
    Sorting.SortOfSorted(sorted, LexLe);
    CdnaCheckCds(exons, sorted, [], TotalLength(exons) != TotalLength([]) + TotalLength(sorted));
  }

  /** The reconciliation on the transcript. */
  method ReconcileCoding(t: Transcript) returns (r: Outcome, ghost path: CodingPath)
    modifies t`exons, t`combinedCds, t`combinedUtr, t`segments, t`internalOrfs
    ensures var rc := Reconcile(old(t.exons), old(t.start), old(t.end), old(t.strand),
                                old(t.combinedCds), old(t.combinedUtr));
      r == rc.outcome && path == rc.path && t.combinedCds == rc.cds && t.combinedUtr == rc.utr
    ensures path != CodingStripped ==>
      t.exons == old(t.exons) && t.segments == old(t.segments) && t.internalOrfs == old(t.internalOrfs)
    ensures path == CodingStripped ==> t.segments == [] && t.internalOrfs == []
    ensures path == CodingStripped && r == Pass ==> t.exons == SortIntervals(old(t.exons))
  {
    path := AsGiven;
    r := CheckCdnaVsUtr(t);
    if r.Fail? && IsInvalidCds(r.error) {
      t.combinedUtr := [];
      path := UtrRecomputed;
      r := CheckCdnaVsUtr(t);
      if r.Fail? && IsInvalidCds(r.error) {
        path := CodingStripped;
        r := StripAndRecheck(t);
      }
    }
  }

  /** CDS and UTR sorted on (start, end); their summed lengths do not change. */
  method SortCoding(t: Transcript)
    modifies t`combinedCds, t`combinedUtr
    ensures t.combinedCds == SortIntervals(old(t.combinedCds))
    ensures t.combinedUtr == SortIntervals(old(t.combinedUtr))
    ensures Sorting.SortedBy(t.combinedCds, LexLe) && Sorting.SortedBy(t.combinedUtr, LexLe)
    ensures TotalLength(t.combinedCds) == TotalLength(old(t.combinedCds))
    ensures TotalLength(t.combinedUtr) == TotalLength(old(t.combinedUtr))
  {
    SortIntervalsSorted(t.combinedCds);
    SortIntervalsSorted(t.combinedUtr);
    TotalLengthSorted(t.combinedCds);
    TotalLengthSorted(t.combinedUtr);
    t.combinedCds := SortIntervals(t.combinedCds);
    t.combinedUtr := SortIntervals(t.combinedUtr);
  }

  /** The reconciliation on a transcript whose exons are sorted, with what its outcome means. */
  method ReconcileSorted(t: Transcript) returns (r: Outcome, ghost path: CodingPath)
    requires Sorting.SortedBy(t.exons, LexLe)
    modifies t`exons, t`combinedCds, t`combinedUtr, t`segments, t`internalOrfs
    ensures r == Pass ==> t.exons == old(t.exons) && LengthsAddUp(t.exons, t.combinedCds, t.combinedUtr)
    ensures path == CodingStripped ==>
      t.combinedCds == [] && t.combinedUtr == [] && t.segments == [] && t.internalOrfs == []
    ensures r.Fail? ==> IsInvalidTranscript(r.error) || r.error == AssertionFailed
  {
    ReconcileOutcome(t.exons, t.start, t.end, t.strand, t.combinedCds, t.combinedUtr);
    Sorting.SortOfSorted(t.exons, LexLe);
    r, path := ReconcileCoding(t);
  }

  /** Sorting, the basic checks, the cDNA/UTR reconciliation, then CDS and UTR sorted. */
  method PrepareCoding(t: Transcript) returns (r: Outcome, ghost path: CodingPath)
    modifies t`exons, t`combinedCds, t`combinedUtr, t`segments, t`internalOrfs
    ensures r == Pass ==>
      && t.exons == SortIntervals(old(t.exons))
      && LengthsAddUp(t.exons, t.combinedCds, t.combinedUtr)
      && Sorting.SortedBy(t.combinedCds, LexLe) && Sorting.SortedBy(t.combinedUtr, LexLe)
    ensures r == Pass && path == CodingStripped ==>
      t.combinedCds == [] && t.combinedUtr == [] && t.segments == [] && t.internalOrfs == []
    ensures r.Fail? ==> IsInvalidTranscript(r.error) || r.error == AssertionFailed
  {
    path := AsGiven;
    r := SortAndCheck(t);
    if r.Fail? {
      return;
    }
    r, path := ReconcileSorted(t);
    if r.Fail? {
      return;
    }
    SortCoding(t);
  }

  /** The guarded part of finalisation: completeness, boundaries, the exon-segment assertion,
      the phase check over the ORFs and the intron calculation, stopping at the first failure. */
  method DeriveStructure(t: Transcript) returns (r: Outcome)
    modifies t`hasStartCodon, t`hasStopCodon, t`start, t`end, t`combinedCds, t`combinedUtr,
             t`segments, t`internalOrfs, t`selectedOrfIndex, t`introns, t`splices,
             t`selectedCdsIntrons, t`combinedCdsIntrons
    ensures r == Pass ==>
      && old(t.exons) != [] && t.start == old(t.exons)[0].start && t.end == Last(old(t.exons)).end
      && Completeness(old(t.combinedUtr), old(t.combinedCds), old(t.strand), old(t.hasStartCodon),
                      old(t.hasStopCodon)) == Some((t.hasStartCodon, t.hasStopCodon))
      && Chain(old(t.exons)) && t.introns == Introns(old(t.exons)) && t.splices == Splices(old(t.exons))
    ensures r == Pass ==>
      || (t.combinedCds == old(t.combinedCds) && t.combinedUtr == old(t.combinedUtr))
      || (t.combinedCds == [] && t.combinedUtr == [])
    ensures r == Pass ==> forall i :: 0 <= i < |t.internalOrfs| ==> Phased(t.internalOrfs[i])
    ensures r == Pass && t.combinedCds != [] ==> t.selectedOrfIndex == Some(0) && |t.internalOrfs| > 0
    ensures r.Fail? ==> r.error in {IndexFailure, NoExons, AssertionFailed, OverlappingExons}
  {
    r := CheckCompleteness(t);
    if r.Fail? {
      return;
    }
    r := VerifyBoundaries(t);
    if r.Fail? {
      return;
    }
    if !ExonSegmentsKnown(t.segments, t.exons) {
      return Fail(AssertionFailed);
    }
    r := CheckCodingStructure(t);
    if r.Fail? {
      return;
    }
    r := DeriveIntrons(t);
  }

  /** The intron calculation, with what a passing calculation leaves behind. */
  method DeriveIntrons(t: Transcript) returns (r: Outcome)
    modifies t`introns, t`splices, t`selectedCdsIntrons, t`combinedCdsIntrons
    ensures r == Pass ==>
      Chain(old(t.exons)) && t.introns == Introns(old(t.exons)) && t.splices == Splices(old(t.exons))
    ensures r.Fail? ==> r.error in {OverlappingExons, AssertionFailed}
  {
    r := CalculateIntrons(t);
  }

  /** The phase check over the ORFs, with what a passing check leaves behind. */
  method CheckCodingStructure(t: Transcript) returns (r: Outcome)
    modifies t`combinedCds, t`combinedUtr, t`segments, t`internalOrfs, t`selectedOrfIndex
    ensures r == Pass ==>
      || (t.combinedCds == old(t.combinedCds) && t.combinedUtr == old(t.combinedUtr))
      || (t.combinedCds == [] && t.combinedUtr == [])
    ensures r == Pass ==> forall i :: 0 <= i < |t.internalOrfs| ==> Phased(t.internalOrfs[i])
    ensures r == Pass && t.combinedCds != [] ==> t.selectedOrfIndex == Some(0) && |t.internalOrfs| > 0
    ensures r.Fail? ==> r.error == AssertionFailed
  {
    ghost var orfs := OrfsToCheck(t.segments, t.internalOrfs, t.exons, t.combinedCds, t.combinedUtr);
    if t.combinedCds != [] {
      OrfsToCheckNonEmpty(t.segments, t.internalOrfs, t.exons, t.combinedCds, t.combinedUtr);
    }
    ghost var st;
    r, st := CheckPhaseCorrectness(t);
    RaisedIsAssertion(orfs, t.exons, t.strand, t.start, t.end, t.phases, |orfs|);
    CheckedOrfsPhased(orfs, t.exons, t.strand, t.start, t.end, t.phases);
  }

  datatype FinalizeResult = AlreadyFinal | Finalized | Unfinalized | Aborted(error: Error)

  /** The closing of a successful finalisation: the feature type, the CDS segments of the
      selected ORF, the exons sorted once more (which leaves the already sorted exons
      as they are) and the finalized flag. */
  method Conclude(t: Transcript)
    requires Sorting.SortedBy(t.exons, LexLe)
    requires t.combinedCds != [] ==> t.selectedOrfIndex == Some(0) && |t.internalOrfs| > 0
    modifies t`feature, t`selectedOrfCds, t`exons, t`finalized
    ensures t.finalized && t.exons == old(t.exons)
    ensures t.feature == MRna <==> old(t.combinedCds) != []
    ensures old(t.combinedCds) == [] ==> t.selectedOrfCds == []
    ensures old(t.combinedCds) != [] ==> t.selectedOrfCds == CdsSegments(old(t.internalOrfs)[0])
  {
    t.feature := if |t.combinedCds| > 0 then MRna else PlainTranscript;
    if |t.combinedCds| == 0 {
      t.selectedOrfCds := [];
    } else {
      t.selectedOrfCds := CdsSegments(t.internalOrfs[t.selectedOrfIndex.value]);
    }
    Sorting.SortOfSorted(t.exons, LexLe);
    t.exons := SortIntervals(t.exons);
    t.finalized := true;
  }

  /** Finalisation: a no-op on a finalized transcript; otherwise the preparation steps, whose
      failures propagate, then the guarded derivation, whose InvalidCDS/InvalidTranscript
      failures leave the transcript unfinalized. */
  /** Finalizes a transcript: a no-op on one that is already final. */
  method Finalize(t: Transcript) returns (r: FinalizeResult)
    modifies t
    ensures old(t.finalized) ==> r == AlreadyFinal && unchanged(t)
    ensures !old(t.finalized) ==> r != AlreadyFinal
    ensures r == Finalized ==> FinalShape(t, old(t.exons))
    ensures r == Unfinalized ==>
      && !t.finalized && t.introns == {} && t.splices == {}
      && t.selectedCdsIntrons == {} && t.combinedCdsIntrons == {}
    ensures r.Aborted? ==> !t.finalized
  {
    if t.finalized {
      return AlreadyFinal;
    }
    r := FinalizeFresh(t);
  }

  /** What a finalized transcript looks like, given the exons it started from. */
  ghost predicate FinalShape(t: Transcript, exons0: seq<Interval>)
    reads t
  {
    && t.finalized
    && t.exons == SortIntervals(exons0) && Sorting.SortedBy(t.exons, LexLe) && Chain(t.exons)
    && t.exons != [] && t.start == t.exons[0].start && t.end == Last(t.exons).end
    && t.introns == Introns(t.exons) && t.splices == Splices(t.exons)
    && LengthsAddUp(t.exons, t.combinedCds, t.combinedUtr)
    && Sorting.SortedBy(t.combinedCds, LexLe) && Sorting.SortedBy(t.combinedUtr, LexLe)
    && (t.feature == MRna <==> t.combinedCds != [])
    && (forall i :: 0 <= i < |t.internalOrfs| ==> Phased(t.internalOrfs[i]))
    && (t.combinedCds != [] ==>
          t.selectedOrfIndex == Some(0) && |t.internalOrfs| > 0
          && t.selectedOrfCds == CdsSegments(t.internalOrfs[0]))
  }

  /** Finalizes a transcript that is not final yet. */
  method FinalizeFresh(t: Transcript) returns (r: FinalizeResult)
    requires !t.finalized
    modifies t
    ensures r != AlreadyFinal
    ensures r == Finalized ==> FinalShape(t, old(t.exons))
    ensures r == Unfinalized ==>
      && !t.finalized && t.introns == {} && t.splices == {}
      && t.selectedCdsIntrons == {} && t.combinedCdsIntrons == {}
    ensures r.Aborted? ==> !t.finalized
  {
    var prepared, path := PrepareCoding(t);
    if prepared.Fail? {
      return Aborted(prepared.error);
    }
    SortIntervalsSorted(old(t.exons));
    var derived := DeriveAndConclude(t);
    if derived.Fail? {
      if IsInvalidCds(derived.error) || IsInvalidTranscript(derived.error) {
        t.finalized := true;
        Unfinalize(t);
        return Unfinalized;
      }
      return Aborted(derived.error);
    }
    return Finalized;
  }

  /** The guarded derivation followed, when it passes, by the closing steps. */
  method DeriveAndConclude(t: Transcript) returns (r: Outcome)
    requires !t.finalized && Sorting.SortedBy(t.exons, LexLe)
    modifies t`hasStartCodon, t`hasStopCodon, t`start, t`end, t`combinedCds, t`combinedUtr,
             t`segments, t`internalOrfs, t`selectedOrfIndex, t`introns, t`splices,
             t`selectedCdsIntrons, t`combinedCdsIntrons, t`feature, t`selectedOrfCds, t`exons,
             t`finalized
    ensures r == Pass ==>
      && t.finalized && t.exons == old(t.exons) && Chain(t.exons)
      && t.exons != [] && t.start == t.exons[0].start && t.end == Last(t.exons).end
      && t.introns == Introns(t.exons) && t.splices == Splices(t.exons)
      && (t.feature == MRna <==> t.combinedCds != [])
      && (forall i :: 0 <= i < |t.internalOrfs| ==> Phased(t.internalOrfs[i]))
      && (t.combinedCds != [] ==>
            t.selectedOrfIndex == Some(0) && |t.internalOrfs| > 0
            && t.selectedOrfCds == CdsSegments(t.internalOrfs[0]))
    ensures r == Pass ==>
      || (t.combinedCds == old(t.combinedCds) && t.combinedUtr == old(t.combinedUtr))
      || (t.combinedCds == [] && t.combinedUtr == [])
    ensures r.Fail? ==> !t.finalized && r.error in {IndexFailure, NoExons, AssertionFailed, OverlappingExons}
  {
    r := DeriveStructure(t);
    if r.Fail? {
      return;
    }
    Conclude(t);
  }
}
