/** The transcript class of the early code generation (loci_objects/transcript.py): feature
    lines are collected into exon, CDS and UTR lists, `finalize` sorts and checks them and
    derives junctions and splice sites, `load_cds` maps ORFs given in transcript coordinates
    back onto the genome, and a few pure measures compare intervals and transcripts. */
module LegacyTranscript {
  import opened Intervals
  import opened Optional
  import Sorting
  import Text

  datatype Strand = Plus | Minus

  /** A GFF feature line as `addExon` reads it. */
  datatype FeatureLine = FeatureLine(feature: string, parent: string, start: int, end: int)

  /** The exceptions the class raises; each comment names the Python exception. */
  datatype Error =
    | AlreadyFinalized   // RuntimeError in addExon
    | ParentMismatch     // AssertionError in addExon
    | UnknownFeature     // AttributeError in addExon
    | NoStrand           // AttributeError in finalize
    | UtrWithoutCds      // ValueError in finalize
    | LengthMismatch     // the length assertion of finalize
    | NoExons            // IndexError on `self.exons[0]`
    | BoundsMismatch     // ValueError: first/last exon against start/end
    | OverlappingExons   // ValueError in finalize
    | NoPositiveCds      // max_internal_cds finds no positive CDS; its ValueError message reads the
                         // never-assigned `__internal_cds`, so an AttributeError is raised instead
    | BadCdsIndex        // IndexError on `self.internal_cds[index]`
    | OrfOutOfRange      // the range assertion of load_cds
    | MinusCdsAtExonStart // the `c_end > exon[0]` assertion of load_cds
    | UtrLengthMismatch  // the closing length assertion of load_cds
    | NoCdsSpans         // TypeError from `set.union()` over no CDS spans in load_cds

  datatype Outcome = Ok | Fail(error: Error)

  /** Segment kinds, declared in the order of their names as strings: "CDS" < "UTR" < "exon". */
  datatype Kind = CdsKind | UtrKind | ExonKind

  function KindRank(k: Kind): int
  {
    match k
    case CdsKind => 0
    case UtrKind => 1
    case ExonKind => 2
  }

  /** A `(kind, start, end)` segment. */
  datatype Seg = Seg(kind: Kind, iv: Interval)

  class Transcript {
    var chrom: string
    var id: string
    var start: int
    var end: int
    var strand: Option<Strand>
    var exons: seq<Interval>
    var cds: seq<Interval>
    var utr: seq<Interval>
    var junctions: set<Interval>
    var splices: set<int>
    var monoexonic: bool
    var finalized: bool
    var internalCds: seq<seq<Seg>>
    var maxInternalCdsIndex: int

    /** A transcript line starts an empty, unfinalized transcript. */
    constructor (chrom: string, id: string, start: int, end: int, strand: Option<Strand>)
      ensures this.chrom == chrom && this.id == id && this.start == start && this.end == end
      ensures this.strand == strand && exons == [] && cds == [] && utr == []
      ensures junctions == {} && splices == {} && !monoexonic && !finalized
      ensures internalCds == [] && maxInternalCdsIndex == -1
    {
      this.chrom, this.id, this.start, this.end, this.strand := chrom, id, start, end, strand;
      exons, cds, utr := [], [], [];
      junctions, splices, monoexonic, finalized := {}, {}, false, false;
      internalCds, maxInternalCdsIndex := [], -1;
    }
  }

  // ---------------------------------------------------------------------------------------
  // addExon

  /** The list a feature goes to: "CDS", anything mentioning "utr"/"UTR", or "exon". */
  function StoreOf(feature: string): Option<Kind>
  {
    if feature == "CDS" then Some(CdsKind)
    else if Text.Contains(feature, "utr") || Text.Contains(feature, "UTR") then Some(UtrKind)
    else if feature == "exon" then Some(ExonKind)
    else None
  }

  /** A string contains every piece found at some offset of it. */
  lemma {:induction false} ContainsAt(s: string, k: nat, sub: string)
    requires k + |sub| <= |s| && s[k..k + |sub|] == sub
    ensures Text.Contains(s, sub)
  {
    if k > 0 {
      assert s[1..][k - 1..k - 1 + |sub|] == sub;
      ContainsAt(s[1..], k - 1, sub);
    }
  }

  /** A string that never holds the first character of `sub` does not contain `sub`. */
  lemma {:induction false} MissingFirst(s: string, sub: string)
    requires sub != [] && sub[0] !in s
    ensures !Text.Contains(s, sub)
  {
    if s != [] {
      assert s[0] != sub[0];
      MissingFirst(s[1..], sub);
    }
  }

  /** UTR feature names go to the UTR list, whatever their case or prefix. */
  lemma StoreOfUtrNames()
    ensures StoreOf("five_prime_UTR") == Some(UtrKind) && StoreOf("3utr") == Some(UtrKind)
  {
    ContainsAt("five_prime_UTR", 11, "UTR");
    ContainsAt("3utr", 1, "utr");
  }

  /** "exon" and "CDS" go to their own lists; any other name is refused. */
  lemma StoreOfOtherNames()
    ensures StoreOf("CDS") == Some(CdsKind) && StoreOf("exon") == Some(ExonKind)
    ensures StoreOf("gene") == None
  {
    MissingFirst("exon", "utr");
    MissingFirst("exon", "UTR");
    MissingFirst("gene", "utr");
    MissingFirst("gene", "UTR");
  }

  /** The stored interval: the two coordinates in increasing order. */
  function Normalized(a: int, b: int): (iv: Interval)
    ensures iv.start <= iv.end
    ensures {iv.start, iv.end} == {a, b}
  {
    Interval(Min(a, b), Max(a, b))
  }

  /** Appends a feature line to the exon, CDS or UTR list. */
  method AddExon(t: Transcript, line: FeatureLine) returns (r: Outcome)
    modifies t`exons, t`cds, t`utr
    ensures t.finalized ==> r == Fail(AlreadyFinalized)
    ensures !t.finalized && line.parent != t.id ==> r == Fail(ParentMismatch)
    ensures !t.finalized && line.parent == t.id && StoreOf(line.feature) == None ==>
      r == Fail(UnknownFeature)
    ensures r == Ok <==> !t.finalized && line.parent == t.id && StoreOf(line.feature) != None
    ensures var iv := Normalized(line.start, line.end);
      && t.exons == (if r == Ok && StoreOf(line.feature) == Some(ExonKind) then old(t.exons) + [iv]
                     else old(t.exons))
      && t.cds == (if r == Ok && StoreOf(line.feature) == Some(CdsKind) then old(t.cds) + [iv]
                   else old(t.cds))
      && t.utr == (if r == Ok && StoreOf(line.feature) == Some(UtrKind) then old(t.utr) + [iv]
                   else old(t.utr))
  {
    if t.finalized {
      return Fail(AlreadyFinalized);
    }
    if line.parent != t.id {
      return Fail(ParentMismatch);
    }
    var store := StoreOf(line.feature);
    if store == None {
      return Fail(UnknownFeature);
    }
    var iv := Normalized(line.start, line.end);
    match store.value {
      case CdsKind => t.cds := t.cds + [iv];
      case UtrKind => t.utr := t.utr + [iv];
      case ExonKind => t.exons := t.exons + [iv];
    }
    return Ok;
  }

  // ---------------------------------------------------------------------------------------
  // Length properties, overlap and intersection

  /** `cds_length`, `utr_length` and `cdna_length`: summed `end - start + 1`. */
  function CdsLength(t: Transcript): int
    reads t
  {
    TotalLength(t.cds)
  }

  function UtrLength(t: Transcript): int
    reads t
  {
    TotalLength(t.utr)
  }

  function CdnaLength(t: Transcript): int
    reads t
  {
    TotalLength(t.exons)
  }

  /** A list of well-formed intervals has a non-negative length, positive when non-empty. */
  lemma {:induction false} TotalLengthPositive(s: seq<Interval>)
    requires WellFormed(s)
    ensures TotalLength(s) >= |s|
  {
    if s != [] {
      TotalLengthPositive(s[1..]);
    }
  }

  /** Two intervals intersect when they differ and share more than a touching base. */
  predicate IsIntersecting(a: Interval, b: Interval)
  {
    a != b && Overlap(a, b) > 0
  }

  /** Intersection is symmetric and irreflexive, and needs at least two shared bases. */
  lemma IsIntersectingMeans(a: Interval, b: Interval)
    ensures IsIntersecting(a, b) == IsIntersecting(b, a)
    ensures !IsIntersecting(a, a)
    ensures IsIntersecting(a, b) ==>
      a.start < b.end && b.start < a.end && Max(a.start, b.start) + 1 <= Min(a.end, b.end)
  {
  }

  // ---------------------------------------------------------------------------------------
  // ORF lengths and the longest ORF

  /** The intervals of the segments of one kind, in order. */
  function KindIvs(orf: seq<Seg>, kind: Kind): seq<Interval>
  {
    if orf == [] then []
    else (if orf[0].kind == kind then [orf[0].iv] else []) + KindIvs(orf[1..], kind)
  }

  /** The summed length of the segments of one kind. */
  function KindLength(orf: seq<Seg>, kind: Kind): int
  {
    if orf == [] then 0
    else (if orf[0].kind == kind then Len(orf[0].iv) else 0) + KindLength(orf[1..], kind)
  }

  /** The length of a kind is the summed length of its intervals. */
  lemma {:induction false} KindLengthIvs(orf: seq<Seg>, kind: Kind)
    ensures KindLength(orf, kind) == TotalLength(KindIvs(orf, kind))
  {
    if orf != [] {
      KindLengthIvs(orf[1..], kind);
      var head := if orf[0].kind == kind then [orf[0].iv] else [];
      TotalLengthAppend(head, KindIvs(orf[1..], kind));
    }
  }

  /** The CDS length of one internal ORF. */
  function OrfCdsLength(orf: seq<Seg>): int
  {
    KindLength(orf, CdsKind)
  }

  /** The index of the first ORF of greatest CDS length, provided that length is positive;
      -1 when no ORF has coding bases. The search over the first `k` ORFs also reports the
      greatest length seen (0 when no ORF beat the initial 0). */
  function LongestUpTo(orfs: seq<seq<Seg>>, k: nat): (r: (int, int))
    requires k <= |orfs|
    ensures r.1 >= 0 && -1 <= r.0 < k
    ensures r.0 == -1 <==> r.1 == 0
    ensures r.0 >= 0 ==> r.1 == OrfCdsLength(orfs[r.0])
  {
    if k == 0 then (-1, 0)
    else
      var prev := LongestUpTo(orfs, k - 1);
      var length := OrfCdsLength(orfs[k - 1]);
      if length > prev.1 then (k - 1, length) else prev
  }

  function LongestCdsIndex(orfs: seq<seq<Seg>>): int
  {
    LongestUpTo(orfs, |orfs|).0
  }

  /** The chosen ORF is at least as long as every other, and strictly longer than every
      ORF before it; -1 exactly when no ORF has a positive CDS length. */
  lemma {:induction false} LongestUpToIsLongest(orfs: seq<seq<Seg>>, k: nat)
    requires k <= |orfs|
    ensures var r := LongestUpTo(orfs, k);
      && (forall j :: 0 <= j < k ==> OrfCdsLength(orfs[j]) <= r.1)
      && (r.0 >= 0 ==> forall j :: 0 <= j < r.0 ==> OrfCdsLength(orfs[j]) < r.1)
      && (r.0 == -1 ==> forall j :: 0 <= j < k ==> OrfCdsLength(orfs[j]) <= 0)
  {
    if k > 0 {
      LongestUpToIsLongest(orfs, k - 1);
    }
  }

  /** The loop of `max_internal_cds` with the greatest length kept up to date. */
  method FindLongest(orfs: seq<seq<Seg>>) returns (index: int)
    ensures index == LongestCdsIndex(orfs)
  {
    var greatest := 0;
    index := -1;
    var i := 0;
    while i < |orfs|
      invariant 0 <= i <= |orfs|
      invariant (index, greatest) == LongestUpTo(orfs, i)
    {
      var length := KindLength(orfs[i], CdsKind);
      if length > greatest {
        greatest := length;
        index := i;
      }
      i := i + 1;
    }
  }

  /** The loop as written: `greatest` is never updated, so every ORF with a positive CDS
      length replaces the previous choice and the last such ORF wins. */
  function LastPositiveUpTo(orfs: seq<seq<Seg>>, k: nat): (r: int)
    requires k <= |orfs|
    ensures -1 <= r < k
    ensures r >= 0 ==> OrfCdsLength(orfs[r]) > 0
  {
    if k == 0 then -1
    else if OrfCdsLength(orfs[k - 1]) > 0 then k - 1
    else LastPositiveUpTo(orfs, k - 1)
  }

  /** Two ORFs of 300 and 90 coding bases: the loop as written picks the shorter one. */
  lemma LastPositivePicksShorter()
    ensures var orfs := [[Seg(CdsKind, Interval(1, 300))], [Seg(CdsKind, Interval(401, 490))]];
      && LastPositiveUpTo(orfs, 2) == 1 && LongestCdsIndex(orfs) == 0
      && OrfCdsLength(orfs[1]) < OrfCdsLength(orfs[0])
  {
    var orfs := [[Seg(CdsKind, Interval(1, 300))], [Seg(CdsKind, Interval(401, 490))]];
    assert KindIvs(orfs[0], CdsKind) == [Interval(1, 300)];
    assert KindIvs(orfs[1], CdsKind) == [Interval(401, 490)];
  }

  /** The chosen index addresses an ORF; Python also accepts negative indices down to
      minus the list length, and -1 is the "not chosen yet" mark. */
  predicate IndexSelects(t: Transcript)
    reads t
  {
    t.maxInternalCdsIndex != -1 && -|t.internalCds| <= t.maxInternalCdsIndex < |t.internalCds|
  }

  /** `max_internal_cds` as `finalize` uses it: index 0 without CDS, a search when no index
      was chosen yet, otherwise the index already chosen, which must address an ORF. */
  method MaxInternalCds(t: Transcript) returns (r: Outcome)
    modifies t`maxInternalCdsIndex
    ensures t.cds == [] ==> t.maxInternalCdsIndex == 0
    ensures t.cds != [] && old(t.maxInternalCdsIndex) == -1 ==>
      t.maxInternalCdsIndex == LongestCdsIndex(t.internalCds)
    ensures t.cds != [] && old(t.maxInternalCdsIndex) != -1 ==>
      t.maxInternalCdsIndex == old(t.maxInternalCdsIndex)
    ensures r == Ok <==> t.cds == [] || IndexSelects(t)
    ensures r.Fail? ==>
      r.error == (if old(t.maxInternalCdsIndex) == -1 then NoPositiveCds else BadCdsIndex)
  {
    if |t.cds| == 0 {
      t.maxInternalCdsIndex := 0;
      return Ok;
    }
    if t.maxInternalCdsIndex == -1 {
      var index := FindLongest(t.internalCds);
      t.maxInternalCdsIndex := index;
      if index == -1 {
        return Fail(NoPositiveCds);
      }
      return Ok;
    }
    if !(-|t.internalCds| <= t.maxInternalCdsIndex < |t.internalCds|) {
      return Fail(BadCdsIndex);
    }
    return Ok;
  }

  /** `internal_cds_lengths`: the CDS length of every ORF, longest first. */
  predicate NotShorter(a: int, b: int)
  {
    a >= b
  }

  function OrfLengths(orfs: seq<seq<Seg>>): (r: seq<int>)
    ensures |r| == |orfs|
  {
    if orfs == [] then [] else [OrfCdsLength(orfs[0])] + OrfLengths(orfs[1..])
  }

  function InternalCdsLengths(orfs: seq<seq<Seg>>): seq<int>
  {
    Sorting.Sort(OrfLengths(orfs), NotShorter)
  }

  /** The lengths come out in descending order and are exactly the ORFs' CDS lengths. */
  lemma InternalCdsLengthsSorted(orfs: seq<seq<Seg>>)
    ensures var r := InternalCdsLengths(orfs);
      && (forall i, j :: 0 <= i < j < |r| ==> r[i] >= r[j])
      && multiset(r) == multiset(OrfLengths(orfs))
  {
    assert Sorting.TotalPreorder(NotShorter);
    Sorting.SortSorted(OrfLengths(orfs), NotShorter);
    Sorting.SortPermutes(OrfLengths(orfs), NotShorter);
  }

  /** The k-th length is the CDS length of the k-th ORF. */
  lemma {:induction false} OrfLengthsAt(orfs: seq<seq<Seg>>, k: nat)
    requires k < |orfs|
    ensures OrfLengths(orfs)[k] == OrfCdsLength(orfs[k])
  {
    if k > 0 {
      OrfLengthsAt(orfs[1..], k - 1);
    }
  }

  // ---------------------------------------------------------------------------------------
  // finalize

  /** The segment order of `finalize`: start, then end, then the kind's name. */
  predicate SegLe(a: Seg, b: Seg)
  {
    || a.iv.start < b.iv.start
    || (a.iv.start == b.iv.start && a.iv.end < b.iv.end)
    || (a.iv.start == b.iv.start && a.iv.end == b.iv.end && KindRank(a.kind) <= KindRank(b.kind))
  }

  lemma SegLeIsTotalPreorder()
    ensures Sorting.TotalPreorder(SegLe)
  {
  }

  /** Every interval of a list tagged with one kind. */
  function Tagged(s: seq<Interval>, kind: Kind): seq<Seg>
  {
    seq(|s|, i requires 0 <= i < |s| => Seg(kind, s[i]))
  }

  /** The one ORF `finalize` records: exons, CDS and UTR segments in segment order. */
  function SegmentsOf(exons: seq<Interval>, cds: seq<Interval>, utr: seq<Interval>): seq<Seg>
  {
    Sorting.Sort(Tagged(exons, ExonKind) + Tagged(cds, CdsKind) + Tagged(utr, UtrKind), SegLe)
  }

  /** The segments are ordered, and are the exons, CDS and UTR intervals with their kinds,
      each as often as it was listed. */
  lemma SegmentsOfMeans(exons: seq<Interval>, cds: seq<Interval>, utr: seq<Interval>)
    ensures Sorting.SortedBy(SegmentsOf(exons, cds, utr), SegLe)
    ensures multiset(SegmentsOf(exons, cds, utr)) ==
      multiset(Tagged(exons, ExonKind)) + multiset(Tagged(cds, CdsKind)) + multiset(Tagged(utr, UtrKind))
    ensures forall g :: g in SegmentsOf(exons, cds, utr) <==>
      || (g.kind == ExonKind && g.iv in exons)
      || (g.kind == CdsKind && g.iv in cds)
      || (g.kind == UtrKind && g.iv in utr)
  {
    var all := Tagged(exons, ExonKind) + Tagged(cds, CdsKind) + Tagged(utr, UtrKind);
    SegLeIsTotalPreorder();
    Sorting.SortSorted(all, SegLe);
    Sorting.SortPermutes(all, SegLe);
    forall g
      ensures g in SegmentsOf(exons, cds, utr) <==> g in all
    {
      assert g in SegmentsOf(exons, cds, utr) <==> g in multiset(SegmentsOf(exons, cds, utr));
    }
    forall g
      ensures g in all <==>
        || (g.kind == ExonKind && g.iv in exons)
        || (g.kind == CdsKind && g.iv in cds)
        || (g.kind == UtrKind && g.iv in utr)
    {
      TaggedMembers(exons, ExonKind, g);
      TaggedMembers(cds, CdsKind, g);
      TaggedMembers(utr, UtrKind, g);
    }
  }

  lemma TaggedMembers(s: seq<Interval>, kind: Kind, g: Seg)
    ensures g in Tagged(s, kind) <==> g.kind == kind && g.iv in s
  {
    if g.kind == kind && g.iv in s {
      var i :| 0 <= i < |s| && s[i] == g.iv;
      assert Tagged(s, kind)[i] == g;
    }
  }

  /** The checks `finalize` makes before deriving anything, in the order it makes them: the
      strand of a multi-exon transcript, UTR without CDS, the length assertion (CDS and UTR
      lengths both zero, or adding up to the cDNA length), the first exon of an empty list,
      and the first and last sorted exons against the transcript's start and end. */
  function FinalizeError(exons: seq<Interval>, cds: seq<Interval>, utr: seq<Interval>,
                         strand: Option<Strand>, start: int, end: int): (e: Option<Error>)
    ensures e.Some? ==> e.value in {NoStrand, UtrWithoutCds, LengthMismatch, NoExons, BoundsMismatch}
  {
    if |exons| > 1 && strand == None then Some(NoStrand)
    else if utr != [] && cds == [] then Some(UtrWithoutCds)
    else if !((TotalLength(cds) == TotalLength(utr) && TotalLength(utr) == 0)
              || TotalLength(exons) == TotalLength(utr) + TotalLength(cds)) then Some(LengthMismatch)
    else if exons == [] then Some(NoExons)
    else
      var sorted := SortIntervals(exons);
      if sorted[0].start != start || sorted[|sorted| - 1].end != end then Some(BoundsMismatch)
      else None
  }

  /** A transcript passes the checks exactly when it has exons, a strand if it has several,
      CDS whenever it has UTR, consistent lengths, and sorted exons that begin at its start
      and end at its end. */
  lemma FinalizeErrorMeans(exons: seq<Interval>, cds: seq<Interval>, utr: seq<Interval>,
                           strand: Option<Strand>, start: int, end: int)
    ensures FinalizeError(exons, cds, utr, strand, start, end) == None <==>
      && exons != []
      && (|exons| > 1 ==> strand.Some?)
      && (utr != [] ==> cds != [])
      && ((TotalLength(cds) == 0 && TotalLength(utr) == 0)
          || TotalLength(exons) == TotalLength(cds) + TotalLength(utr))
      && SortIntervals(exons)[0].start == start
      && SortIntervals(exons)[|exons| - 1].end == end
  {
  }

  /** The junction loop stopped at the first overlapping pair `k`, with the junctions and
      splice sites of the pairs before it recorded. */
  ghost predicate StoppedAtOverlap(exons: seq<Interval>, junctions: set<Interval>, splices: set<int>)
  {
    exists k :: 0 <= k < |exons| - 1 && exons[k].end >= exons[k + 1].start
      && Chain(exons[..k + 1])
      && junctions == JunctionsUpTo(exons, k) && splices == SplicesUpTo(exons, k)
  }

  /** The loop over consecutive exons recording junctions and splice sites, which raises on
      the first pair that overlaps. */
  method JunctionLoop(t: Transcript) returns (ok: bool)
    modifies t`junctions, t`splices
    ensures ok == Chain(t.exons)
    ensures ok ==> t.junctions == Introns(t.exons) && t.splices == Splices(t.exons)
    ensures !ok ==> StoppedAtOverlap(t.exons, t.junctions, t.splices)
  {
    t.junctions, t.splices := {}, {};
    if |t.exons| <= 1 {
      return true;
    }
    var i := 0;
    while i < |t.exons| - 1
      invariant 0 <= i <= |t.exons| - 1
      invariant Chain(t.exons[..i + 1])
      invariant t.junctions == JunctionsUpTo(t.exons, i) && t.splices == SplicesUpTo(t.exons, i)
    {
      var a, b := t.exons[i], t.exons[i + 1];
      if a.end >= b.start {
        assert !Chain(t.exons);
        return false;
      }
      t.junctions := t.junctions + {Interval(a.end + 1, b.start - 1)};
      t.splices := t.splices + {a.end + 1, b.start - 1};
      assert t.exons[..i + 2][..i + 1] == t.exons[..i + 1];
      i := i + 1;
    }
    assert t.exons[..i + 1] == t.exons;
    return true;
  }

  /** `finalize` on a transcript that is not finalized yet. */
  method FinalizeFresh(t: Transcript) returns (r: Outcome)
    requires !t.finalized
    modifies t`exons, t`cds, t`utr, t`internalCds, t`junctions, t`splices, t`monoexonic
    modifies t`maxInternalCdsIndex, t`finalized
    ensures r.Fail? ==> !t.finalized
    ensures r == Ok ==> t.finalized
    ensures var e := FinalizeError(old(t.exons), old(t.cds), old(t.utr), old(t.strand), old(t.start), old(t.end));
      e.Some? ==>
        && r == Fail(e.value)
        && t.exons == (if e.value in {NoExons, BoundsMismatch} then SortIntervals(old(t.exons))
                       else old(t.exons))
        && unchanged(t`cds, t`utr, t`internalCds, t`junctions, t`splices, t`monoexonic)
        && unchanged(t`maxInternalCdsIndex)
    ensures FinalizeError(old(t.exons), old(t.cds), old(t.utr), old(t.strand), old(t.start), old(t.end)) == None ==>
      && t.exons == SortIntervals(old(t.exons))
      && t.cds == SortIntervals(old(t.cds)) && t.utr == SortIntervals(old(t.utr))
      && t.internalCds == [SegmentsOf(t.exons, t.cds, t.utr)]
      && t.monoexonic == (|t.exons| == 1 || old(t.monoexonic))
      && (Chain(t.exons) ==> t.junctions == Introns(t.exons) && t.splices == Splices(t.exons))
      && (!Chain(t.exons) ==>
            && r == Fail(OverlappingExons)
            && StoppedAtOverlap(t.exons, t.junctions, t.splices)
            && t.maxInternalCdsIndex == old(t.maxInternalCdsIndex))
      && (Chain(t.exons) ==>
            && (r == Ok <==> t.cds == [] || IndexSelects(t))
            && (t.cds == [] ==> t.maxInternalCdsIndex == 0)
            && (t.cds != [] && old(t.maxInternalCdsIndex) == -1 ==>
                  t.maxInternalCdsIndex == LongestCdsIndex(t.internalCds))
            && (t.cds != [] && old(t.maxInternalCdsIndex) != -1 ==>
                  t.maxInternalCdsIndex == old(t.maxInternalCdsIndex)))
  {
    var error := FinalizeChecks(t);
    if error.Some? {
      return Fail(error.value);
    }
    SortAndRecord(t);
    r := DeriveFinal(t);
  }

  /** The checks of `finalize`, which sort the exons before looking at the first one. */
  method FinalizeChecks(t: Transcript) returns (error: Option<Error>)
    modifies t`exons
    ensures error == FinalizeError(old(t.exons), old(t.cds), old(t.utr), old(t.strand), old(t.start), old(t.end))
    ensures t.exons == (if error.None? || error.value in {NoExons, BoundsMismatch}
                        then SortIntervals(old(t.exons)) else old(t.exons))
  {
    if |t.exons| > 1 && t.strand == None {
      return Some(NoStrand);
    }
    if t.utr != [] && t.cds == [] {
      return Some(UtrWithoutCds);
    }
    var cdsLength, utrLength, cdnaLength := TotalLength(t.cds), TotalLength(t.utr), TotalLength(t.exons);
    if !((cdsLength == utrLength && utrLength == 0) || cdnaLength == utrLength + cdsLength) {
      return Some(LengthMismatch);
    }
    t.exons := SortIntervals(t.exons);
    if |t.exons| == 0 {
      return Some(NoExons);
    }
    if t.exons[0].start != t.start || t.exons[|t.exons| - 1].end != t.end {
      return Some(BoundsMismatch);
    }
    return None;
  }

  /** What `finalize` derives once the checks pass and the ORF is recorded: the mono-exonic
      flag, junctions and splice sites, and the longest-ORF index. */
  method DeriveFinal(t: Transcript) returns (r: Outcome)
    requires !t.finalized
    modifies t`junctions, t`splices, t`monoexonic, t`maxInternalCdsIndex, t`finalized
    ensures r.Fail? ==> !t.finalized
    ensures r == Ok ==> t.finalized
    ensures t.monoexonic == (|t.exons| == 1 || old(t.monoexonic))
    ensures Chain(t.exons) ==> t.junctions == Introns(t.exons) && t.splices == Splices(t.exons)
    ensures !Chain(t.exons) ==>
      && r == Fail(OverlappingExons)
      && StoppedAtOverlap(t.exons, t.junctions, t.splices)
      && t.maxInternalCdsIndex == old(t.maxInternalCdsIndex)
    ensures Chain(t.exons) ==>
      && (r == Ok <==> t.cds == [] || IndexSelects(t))
      && (t.cds == [] ==> t.maxInternalCdsIndex == 0)
      && (t.cds != [] && old(t.maxInternalCdsIndex) == -1 ==>
            t.maxInternalCdsIndex == LongestCdsIndex(t.internalCds))
      && (t.cds != [] && old(t.maxInternalCdsIndex) != -1 ==>
            t.maxInternalCdsIndex == old(t.maxInternalCdsIndex))
  {
    if |t.exons| == 1 {
      t.monoexonic := true;
    }
    var ok := JunctionLoop(t);
    if !ok {
      return Fail(OverlappingExons);
    }
    r := MaxInternalCds(t);
    if r.Fail? {
      return;
    }
    t.finalized := true;
  }

  /** Sorts the CDS and UTR lists and records the segments as the transcript's one ORF. */
  method SortAndRecord(t: Transcript)
    modifies t`cds, t`utr, t`internalCds
    ensures t.cds == SortIntervals(old(t.cds)) && t.utr == SortIntervals(old(t.utr))
    ensures t.internalCds == [SegmentsOf(t.exons, t.cds, t.utr)]
  {
    t.cds := SortIntervals(t.cds);
    t.utr := SortIntervals(t.utr);
    t.internalCds := [SegmentsOf(t.exons, t.cds, t.utr)];
  }

  /** `finalize`: nothing happens on a finalized transcript, so calling it twice is calling
      it once. */
  method Finalize(t: Transcript) returns (r: Outcome)
    modifies t`exons, t`cds, t`utr, t`internalCds, t`junctions, t`splices, t`monoexonic
    modifies t`maxInternalCdsIndex, t`finalized
    ensures old(t.finalized) ==> r == Ok && unchanged(t)
    ensures r == Ok <==> t.finalized
    ensures !old(t.finalized) && r == Ok ==>
      && t.exons == SortIntervals(old(t.exons)) && Chain(t.exons) && t.exons != []
      && t.cds == SortIntervals(old(t.cds)) && t.utr == SortIntervals(old(t.utr))
      && t.exons[0].start == t.start && t.exons[|t.exons| - 1].end == t.end
      && t.junctions == Introns(t.exons) && t.splices == Splices(t.exons)
      && t.internalCds == [SegmentsOf(t.exons, t.cds, t.utr)]
  {
    if t.finalized {
      return Ok;
    }
    r := FinalizeFresh(t);
  }

  // ---------------------------------------------------------------------------------------
  // Comparison

  /** The fields `__eq__` compares; `__lt__` uses chromosome, start and end. */
  datatype Key = Key(chrom: string, id: string, start: int, end: int, strand: Option<Strand>,
                     exons: seq<Interval>)

  function KeyOf(t: Transcript): Key
    reads t
  {
    Key(t.chrom, t.id, t.start, t.end, t.strand, t.exons)
  }

  predicate StrLt(a: string, b: string)
  {
    Text.StrLe(a, b) && a != b
  }

  /** `__lt__`: by chromosome name; an equal transcript is not smaller; then by start, then
      by end. */
  predicate Lt(a: Key, b: Key)
  {
    if a.chrom != b.chrom then StrLt(a.chrom, b.chrom)
    else if a == b then false
    else a.start < b.start || (a.start == b.start && a.end < b.end)
  }

  /** `__lt__` is a strict partial order on the compared fields: irreflexive, asymmetric and
      transitive. On objects it is the order `LessThan` decides, over the fields as they
      stand once `__eq__` has finalized both transcripts. */
  lemma LtIsStrictOrder(a: Key, b: Key, c: Key)
    ensures !Lt(a, a)
    ensures Lt(a, b) ==> !Lt(b, a)
    ensures Lt(a, b) && Lt(b, c) ==> Lt(a, c)
  {
    if Text.StrLe(a.chrom, b.chrom) && Text.StrLe(b.chrom, a.chrom) {
      Text.StrLeAntisymmetric(a.chrom, b.chrom);
    }
    if Text.StrLe(a.chrom, b.chrom) && Text.StrLe(b.chrom, c.chrom) {
      Text.StrLeTransitive(a.chrom, b.chrom, c.chrom);
    }
  }

  /** `__le__`: equal or smaller. */
  predicate Le(a: Key, b: Key)
  {
    a == b || Lt(a, b)
  }

  /** `__le__` is a partial order on the compared fields: reflexive, antisymmetric and
      transitive (on objects, the order `LessOrEqual` decides). */
  lemma LeIsPartialOrder(a: Key, b: Key, c: Key)
    ensures Le(a, a)
    ensures Le(a, b) && Le(b, a) ==> a == b
    ensures Le(a, b) && Le(b, c) ==> Le(a, c)
  {
    LtIsStrictOrder(a, b, c);
  }

  /** `__eq__`: both transcripts are finalized first, which may raise; then strand,
      chromosome, start, end, exons and identifier are compared. */
  method Equals(t: Transcript, u: Transcript) returns (r: Outcome, equal: bool)
    modifies t`exons, t`cds, t`utr, t`internalCds, t`junctions, t`splices, t`monoexonic
    modifies t`maxInternalCdsIndex, t`finalized
    modifies u`exons, u`cds, u`utr, u`internalCds, u`junctions, u`splices, u`monoexonic
    modifies u`maxInternalCdsIndex, u`finalized
    ensures old(t.finalized) && old(u.finalized) ==> r == Ok && unchanged(t) && unchanged(u)
    ensures r == Ok ==> t.finalized && u.finalized
    ensures r == Ok ==> (equal <==> KeyOf(t) == KeyOf(u))
    ensures r.Fail? ==> !equal
  {
    r := Finalize(t);
    if r.Fail? {
      return r, false;
    }
    r := Finalize(u);
    if r.Fail? {
      return r, false;
    }
    equal := KeyOf(t) == KeyOf(u);
  }

  /** `__lt__` on objects: different chromosomes compare by name alone; otherwise `__eq__`
      runs first, finalizing both transcripts, and may raise. */
  method LessThan(t: Transcript, u: Transcript) returns (r: Outcome, less: bool)
    modifies t`exons, t`cds, t`utr, t`internalCds, t`junctions, t`splices, t`monoexonic
    modifies t`maxInternalCdsIndex, t`finalized
    modifies u`exons, u`cds, u`utr, u`internalCds, u`junctions, u`splices, u`monoexonic
    modifies u`maxInternalCdsIndex, u`finalized
    ensures t.chrom != u.chrom ==> r == Ok && unchanged(t) && unchanged(u)
    ensures old(t.finalized) && old(u.finalized) ==> r == Ok && unchanged(t) && unchanged(u)
    ensures t.chrom == u.chrom && r == Ok ==> t.finalized && u.finalized
    ensures r == Ok ==> (less <==> Lt(KeyOf(t), KeyOf(u)))
    ensures r.Fail? ==> !less
  {
    if t.chrom != u.chrom {
      return Ok, StrLt(t.chrom, u.chrom);
    }
    var equal;
    r, equal := Equals(t, u);
    if r.Fail? {
      return r, false;
    }
    less := !equal && (t.start < u.start || (t.start == u.start && t.end < u.end));
  }

  /** `__le__` on objects: `__eq__` (finalizing both transcripts), then `__lt__`. */
  method LessOrEqual(t: Transcript, u: Transcript) returns (r: Outcome, le: bool)
    modifies t`exons, t`cds, t`utr, t`internalCds, t`junctions, t`splices, t`monoexonic
    modifies t`maxInternalCdsIndex, t`finalized
    modifies u`exons, u`cds, u`utr, u`internalCds, u`junctions, u`splices, u`monoexonic
    modifies u`maxInternalCdsIndex, u`finalized
    ensures r == Ok ==> t.finalized && u.finalized
    ensures r == Ok ==> (le <==> Le(KeyOf(t), KeyOf(u)))
    ensures r.Fail? ==> !le
  {
    var equal;
    r, equal := Equals(t, u);
    if r.Fail? {
      return r, false;
    }
    if equal {
      return Ok, true;
    }
    r, le := LessThan(t, u);
  }

  /** `__gt__` as written: the negation of `__lt__`. */
  predicate GtAsWritten(a: Key, b: Key)
  {
    !Lt(a, b)
  }

  /** As written, every transcript is greater than itself. */
  lemma GtAsWrittenReflexive(k: Key)
    ensures GtAsWritten(k, k)
  {
    LtIsStrictOrder(k, k, k);
  }

  /** Greater-than as the converse of `__lt__`. */
  predicate Gt(a: Key, b: Key)
  {
    Lt(b, a)
  }

  /** The converse is a strict partial order too, and never holds together with `__lt__`. */
  lemma GtIsStrictOrder(a: Key, b: Key, c: Key)
    ensures !Gt(a, a)
    ensures Gt(a, b) ==> !Gt(b, a) && !Lt(a, b)
    ensures Gt(a, b) && Gt(b, c) ==> Gt(a, c)
  {
    LtIsStrictOrder(a, a, a);
    LtIsStrictOrder(b, a, a);
    LtIsStrictOrder(c, b, a);
  }

  // ---------------------------------------------------------------------------------------
  // load_cds: segment lengths by kind

  /** Lengths by kind add up over concatenation. */
  lemma {:induction false} KindLengthAppend(s: seq<Seg>, u: seq<Seg>, kind: Kind)
    ensures KindLength(s + u, kind) == KindLength(s, kind) + KindLength(u, kind)
  {
    if s == [] {
      assert s + u == u;
    } else {
      assert (s + u)[1..] == s[1..] + u;
      KindLengthAppend(s[1..], u, kind);
    }
  }

  /** The order of the segments of an ORF: start, then end, ties kept in place. */
  predicate SpanLe(a: Seg, b: Seg)
  {
    LexLe(a.iv, b.iv)
  }

  function SortSpans(s: seq<Seg>): seq<Seg>
  {
    Sorting.Sort(s, SpanLe)
  }

  lemma {:induction false} KindLengthInsert(x: Seg, s: seq<Seg>, kind: Kind)
    ensures KindLength(Sorting.Insert(x, s, SpanLe), kind) == KindLength([x], kind) + KindLength(s, kind)
  {
    if s == [] {
    } else if SpanLe(x, s[0]) {
      KindLengthAppend([x], s, kind);
    } else {
      KindLengthInsert(x, s[1..], kind);
      KindLengthAppend([s[0]], Sorting.Insert(x, s[1..], SpanLe), kind);
      KindLengthAppend([s[0]], s[1..], kind);
      assert s == [s[0]] + s[1..];
    }
  }

  /** Sorting an ORF's segments keeps its CDS and UTR lengths. */
  lemma {:induction false} KindLengthSorted(s: seq<Seg>, kind: Kind)
    ensures KindLength(SortSpans(s), kind) == KindLength(s, kind)
  {
    if s != [] {
      KindLengthSorted(s[1..], kind);
      KindLengthInsert(s[0], SortSpans(s[1..]), kind);
      KindLengthAppend([s[0]], s[1..], kind);
      assert s == [s[0]] + s[1..];
    }
  }

  // ---------------------------------------------------------------------------------------
  // load_cds: mapping one ORF onto the exons

  /** An ORF of the external dictionary: CDS start and end in transcript coordinates, its
      strand and its CDS length. */
  datatype OrfRun = OrfRun(cdsStart: int, cdsEnd: int, strand: Strand, cdsLen: int)

  /** ORFs are visited longest first; equal lengths keep their dictionary order. */
  predicate LongerOrEqual(a: OrfRun, b: OrfRun)
  {
    a.cdsLen >= b.cdsLen
  }

  /** How many of the transcript positions `lo..hi` fall inside the ORF `a..b`. */
  function Shared(a: int, b: int, lo: int, hi: int): int
  {
    Max(0, Min(b, hi) - Max(a, lo) + 1)
  }

  /** The segments of one exon on the plus strand, the exon covering transcript positions
      `cs..ce`: the exon itself, then all UTR when it misses the ORF `a..b`, otherwise the
      UTR before the CDS, the CDS and the UTR after it. A CDS piece is kept when its start
      is below its end, or also when the two are equal if `keepSingle` holds. */
  function PlusExonPieces(e: Interval, cs: int, ce: int, a: int, b: int, keepSingle: bool): seq<Seg>
  {
    if ce < a || cs > b then [Seg(ExonKind, e), Seg(UtrKind, e)]
    else
      var cStart := e.start + Max(0, a - cs);
      var cEnd := e.end - Max(0, ce - b);
      [Seg(ExonKind, e)]
      + (if cStart > e.start then [Seg(UtrKind, Interval(e.start, cStart - 1))] else [])
      + (if cStart < cEnd || (keepSingle && cStart == cEnd) then [Seg(CdsKind, Interval(cStart, cEnd))]
         else [])
      + (if cEnd < e.end then [Seg(UtrKind, Interval(cEnd + 1, e.end))] else [])
  }

  /** The plus-strand loop over ascending exons, `done` transcript positions before them. */
  function PlusPieces(exons: seq<Interval>, a: int, b: int, done: int, keepSingle: bool): seq<Seg>
  {
    if exons == [] then []
    else
      var ce := done + Len(exons[0]);
      PlusExonPieces(exons[0], done + 1, ce, a, b, keepSingle) + PlusPieces(exons[1..], a, b, ce, keepSingle)
  }

  /** In one exon, the CDS has one base for every shared position, and CDS and UTR together
      cover the exon. */
  lemma PlusExonLengths(e: Interval, cs: int, ce: int, a: int, b: int)
    requires e.start <= e.end && ce - cs == e.end - e.start && a <= b
    ensures var p := PlusExonPieces(e, cs, ce, a, b, true);
      && KindLength(p, CdsKind) == Shared(a, b, cs, ce)
      && KindLength(p, CdsKind) + KindLength(p, UtrKind) == Len(e)
  {
    var p := PlusExonPieces(e, cs, ce, a, b, true);
    if ce < a || cs > b {
      KindLengthAppend([Seg(ExonKind, e)], [Seg(UtrKind, e)], CdsKind);
      KindLengthAppend([Seg(ExonKind, e)], [Seg(UtrKind, e)], UtrKind);
    } else {
      var cStart := e.start + Max(0, a - cs);
      var cEnd := e.end - Max(0, ce - b);
      var head := [Seg(ExonKind, e)];
      var before := if cStart > e.start then [Seg(UtrKind, Interval(e.start, cStart - 1))] else [];
      var cds := [Seg(CdsKind, Interval(cStart, cEnd))];
      var after := if cEnd < e.end then [Seg(UtrKind, Interval(cEnd + 1, e.end))] else [];
      assert p == head + before + cds + after;
      forall kind
        ensures KindLength(p, kind) ==
          KindLength(head, kind) + KindLength(before, kind) + KindLength(cds, kind) + KindLength(after, kind)
      {
        KindLengthAppend(head + before + cds, after, kind);
        KindLengthAppend(head + before, cds, kind);
        KindLengthAppend(head, before, kind);
      }
      assert KindLength(head, CdsKind) == 0 && KindLength(head, UtrKind) == 0;
      assert KindLength(before, CdsKind) == 0 && KindLength(before, UtrKind) == cStart - e.start;
      assert KindLength(cds, CdsKind) == cEnd - cStart + 1 && KindLength(cds, UtrKind) == 0;
      assert KindLength(after, CdsKind) == 0 && KindLength(after, UtrKind) == e.end - cEnd;
    }
  }

  /** Exons past the end of the ORF get no CDS. */
  lemma {:induction false} PlusCdsAfter(exons: seq<Interval>, a: int, b: int, done: int)
    requires WellFormed(exons) && a <= b && b <= done
    ensures KindLength(PlusPieces(exons, a, b, done, true), CdsKind) == 0
  {
    if exons != [] {
      var ce := done + Len(exons[0]);
      var first := PlusExonPieces(exons[0], done + 1, ce, a, b, true);
      var rest := PlusPieces(exons[1..], a, b, ce, true);
      assert PlusPieces(exons, a, b, done, true) == first + rest;
      PlusExonLengths(exons[0], done + 1, ce, a, b);
      PlusCdsAfter(exons[1..], a, b, ce);
      KindLengthAppend(first, rest, CdsKind);
    }
  }

  /** When the ORF began before these exons and ends inside them, they hold its last
      `b - done` CDS bases. */
  lemma {:induction false} PlusCdsOpen(exons: seq<Interval>, a: int, b: int, done: int)
    requires WellFormed(exons) && a <= done + 1 <= b <= done + TotalLength(exons)
    ensures KindLength(PlusPieces(exons, a, b, done, true), CdsKind) == b - done
  {
    var ce := done + Len(exons[0]);
    var first := PlusExonPieces(exons[0], done + 1, ce, a, b, true);
    var rest := PlusPieces(exons[1..], a, b, ce, true);
    assert PlusPieces(exons, a, b, done, true) == first + rest;
    PlusExonLengths(exons[0], done + 1, ce, a, b);
    KindLengthAppend(first, rest, CdsKind);
    if b <= ce {
      PlusCdsAfter(exons[1..], a, b, ce);
    } else {
      PlusCdsOpen(exons[1..], a, b, ce);
    }
  }

  /** An ORF at transcript positions `a..b` inside the exons gets exactly `b - a + 1` CDS
      bases: one for every position. */
  lemma {:induction false} PlusPiecesCds(exons: seq<Interval>, a: int, b: int, done: int)
    requires WellFormed(exons) && done + 1 <= a <= b <= done + TotalLength(exons)
    ensures KindLength(PlusPieces(exons, a, b, done, true), CdsKind) == b - a + 1
  {
    var ce := done + Len(exons[0]);
    var first := PlusExonPieces(exons[0], done + 1, ce, a, b, true);
    var rest := PlusPieces(exons[1..], a, b, ce, true);
    assert PlusPieces(exons, a, b, done, true) == first + rest;
    PlusExonLengths(exons[0], done + 1, ce, a, b);
    KindLengthAppend(first, rest, CdsKind);
    if ce < a {
      PlusPiecesCds(exons[1..], a, b, ce);
    } else if b <= ce {
      PlusCdsAfter(exons[1..], a, b, ce);
    } else {
      PlusCdsOpen(exons[1..], a, b, ce);
    }
  }

  /** Over all exons, CDS and UTR pieces together have the length of the cDNA. */
  lemma {:induction false} PlusPiecesCover(exons: seq<Interval>, a: int, b: int, done: int)
    requires WellFormed(exons) && a <= b
    ensures var p := PlusPieces(exons, a, b, done, true);
      KindLength(p, CdsKind) + KindLength(p, UtrKind) == TotalLength(exons)
  {
    if exons != [] {
      var ce := done + Len(exons[0]);
      var first := PlusExonPieces(exons[0], done + 1, ce, a, b, true);
      var rest := PlusPieces(exons[1..], a, b, ce, true);
      PlusExonLengths(exons[0], done + 1, ce, a, b);
      PlusPiecesCover(exons[1..], a, b, ce);
      KindLengthAppend(first, rest, CdsKind);
      KindLengthAppend(first, rest, UtrKind);
    }
  }

  /** A CDS piece lies inside its exon. */
  lemma PlusExonCdsInside(e: Interval, cs: int, ce: int, a: int, b: int, keepSingle: bool)
    ensures forall g :: g in PlusExonPieces(e, cs, ce, a, b, keepSingle) && g.kind == CdsKind ==>
      e.start <= g.iv.start <= g.iv.end <= e.end
  {
  }

  /** Every plus-strand CDS piece lies inside one of the exons. */
  lemma {:induction false} PlusCdsInsideExons(exons: seq<Interval>, a: int, b: int, done: int, keepSingle: bool)
    ensures forall g :: g in PlusPieces(exons, a, b, done, keepSingle) && g.kind == CdsKind ==>
      exists e :: e in exons && e.start <= g.iv.start <= g.iv.end <= e.end
  {
    if exons != [] {
      var ce := done + Len(exons[0]);
      var first := PlusExonPieces(exons[0], done + 1, ce, a, b, keepSingle);
      var rest := PlusPieces(exons[1..], a, b, ce, keepSingle);
      assert PlusPieces(exons, a, b, done, keepSingle) == first + rest;
      PlusExonCdsInside(exons[0], done + 1, ce, a, b, keepSingle);
      PlusCdsInsideExons(exons[1..], a, b, ce, keepSingle);
      forall g: Seg | g in first + rest && g.kind == CdsKind
        ensures exists e :: e in exons && e.start <= g.iv.start <= g.iv.end <= e.end
      {
        if g in first {
          assert exons[0] in exons;
        } else {
          var e :| e in exons[1..] && e.start <= g.iv.start <= g.iv.end <= e.end;
          assert e in exons;
        }
      }
    }
  }

  /** The plus-strand loop as written: two exons of ten bases and the ORF at transcript
      positions 10..15, whose first base is the last base of the first exon. That base gets
      neither a CDS nor a UTR piece, so the CDS has 5 bases instead of 6 and CDS plus UTR
      fall one short of the 20-base cDNA. */
  lemma PlusAsWrittenDropsBase()
    ensures var exons := [Interval(1, 10), Interval(21, 30)];
      var p := PlusPieces(exons, 10, 15, 0, false);
      && KindLength(p, CdsKind) == 5 && KindLength(p, CdsKind) + KindLength(p, UtrKind) == 19
      && TotalLength(exons) == 20
  {
    var exons := [Interval(1, 10), Interval(21, 30)];
    var p1 := [Seg(ExonKind, exons[0]), Seg(UtrKind, Interval(1, 9))];
    var p2 := [Seg(ExonKind, exons[1]), Seg(CdsKind, Interval(21, 25)), Seg(UtrKind, Interval(26, 30))];
    assert PlusExonPieces(exons[0], 1, 10, 10, 15, false) == p1;
    assert PlusExonPieces(exons[1], 11, 20, 10, 15, false) == p2;
    assert exons[1..][1..] == [];
    assert PlusPieces(exons, 10, 15, 0, false) == p1 + p2;
    KindLengthAppend(p1, p2, CdsKind);
    KindLengthAppend(p1, p2, UtrKind);
    assert KindLength(p1, CdsKind) == 0 && KindLength(p1, UtrKind) == 9;
    forall kind {
      KindLengthAppend(p2[..2], p2[2..], kind);
    }
    assert p2[..2] + p2[2..] == p2;
  }

  /** The body of the plus-strand loop for one exon covering transcript positions `cs..ce`. */
  method PlusExon(exon: Interval, cs: int, ce: int, a: int, b: int) returns (block: seq<Seg>)
    ensures block == PlusExonPieces(exon, cs, ce, a, b, true)
  {
    block := [Seg(ExonKind, exon)];
    if ce < a || cs > b {
      block := block + [Seg(UtrKind, exon)];
      assert block == [Seg(ExonKind, exon), Seg(UtrKind, exon)];
    } else {
      var cStart := exon.start + Max(0, a - cs);
      if cStart > exon.start {
        block := block + [Seg(UtrKind, Interval(exon.start, cStart - 1))];
      }
      var cEnd := exon.end - Max(0, ce - b);
      if cStart <= cEnd {
        block := block + [Seg(CdsKind, Interval(cStart, cEnd))];
      }
      if cEnd < exon.end {
        block := block + [Seg(UtrKind, Interval(cEnd + 1, exon.end))];
      }
    }
  }

  /** The plus-strand pieces from exon `i` on: that exon's, then the rest. */
  lemma PlusPiecesFrom(exons: seq<Interval>, i: int, a: int, b: int, done: int, cs: int, ce: int)
    requires 0 <= i < |exons| && cs == done + 1 && ce == done + Len(exons[i])
    ensures PlusPieces(exons[i..], a, b, done, true) ==
      PlusExonPieces(exons[i], cs, ce, a, b, true) + PlusPieces(exons[i + 1..], a, b, ce, true)
  {
    assert exons[i..][0] == exons[i] && exons[i..][1..] == exons[i + 1..];
  }

  lemma Regroup<T>(pieces: seq<T>, whole: seq<T>, block: seq<T>, rest: seq<T>)
    requires whole == block + rest
    ensures pieces + whole == (pieces + block) + rest
  {
  }

  /** The plus-strand loop over the exons, keeping one-base CDS pieces. */
  method PlusLoop(exons: seq<Interval>, a: int, b: int) returns (pieces: seq<Seg>)
    ensures pieces == PlusPieces(exons, a, b, 0, true)
  {
    pieces := [];
    var currentStart, currentEnd := 0, 0;
    var i := 0;
    while i < |exons|
      invariant 0 <= i <= |exons| && currentStart == currentEnd
      invariant pieces + PlusPieces(exons[i..], a, b, currentEnd, true) == PlusPieces(exons, a, b, 0, true)
    {
      var exon := exons[i];
      currentStart := currentStart + 1;
      currentEnd := currentEnd + exon.end - exon.start + 1;
      var block := PlusExon(exon, currentStart, currentEnd, a, b);
      PlusPiecesFrom(exons, i, a, b, currentStart - 1, currentStart, currentEnd);
      Regroup(pieces, PlusPieces(exons[i..], a, b, currentStart - 1, true), block,
        PlusPieces(exons[i + 1..], a, b, currentEnd, true));
      pieces := pieces + block;
      currentStart := currentEnd;
      i := i + 1;
    }
    assert exons[i..] == [];
  }

  /** The segments of one exon on the minus strand, exons taken from the 3' end: the exon,
      then all UTR when it misses the ORF, otherwise the UTR above the CDS, the CDS and the
      UTR below it. None when the CDS would end on the exon's first base, which the source
      asserts against. */
  function MinusExonPieces(e: Interval, cs: int, ce: int, a: int, b: int): Option<seq<Seg>>
  {
    if ce < a || cs > b then Some([Seg(ExonKind, e), Seg(UtrKind, e)])
    else
      var cEnd := e.end - Max(0, a - cs);
      if cEnd <= e.start then None
      else
        var cStart := e.start + Max(0, ce - b);
        Some([Seg(ExonKind, e)]
          + (if cEnd < e.end then [Seg(UtrKind, Interval(cEnd + 1, e.end))] else [])
          + [Seg(CdsKind, Interval(cStart, cEnd))]
          + (if cStart > e.start then [Seg(UtrKind, Interval(e.start, cStart - 1))] else []))
  }

  function Prepend(p: seq<Seg>, rest: Option<seq<Seg>>): Option<seq<Seg>>
  {
    if rest.None? then None else Some(p + rest.value)
  }

  /** The minus-strand loop over descending exons, `done` transcript positions before them. */
  function MinusPieces(exons: seq<Interval>, a: int, b: int, done: int): Option<seq<Seg>>
  {
    if exons == [] then Some([])
    else
      var ce := done + Len(exons[0]);
      var first := MinusExonPieces(exons[0], done + 1, ce, a, b);
      if first.None? then None else Prepend(first.value, MinusPieces(exons[1..], a, b, ce))
  }

  lemma PrependNested(x: seq<Seg>, y: seq<Seg>, rest: Option<seq<Seg>>)
    ensures Prepend(x, Prepend(y, rest)) == Prepend(x + y, rest)
  {
    if rest.Some? {
      assert x + (y + rest.value) == (x + y) + rest.value;
    }
  }

  /** The body of the minus-strand loop for one exon covering transcript positions `cs..ce`;
      `ok` is false when the source's assertion on the CDS end fails. */
  method MinusExon(exon: Interval, cs: int, ce: int, a: int, b: int) returns (ok: bool, block: seq<Seg>)
    ensures ok <==> MinusExonPieces(exon, cs, ce, a, b).Some?
    ensures ok ==> MinusExonPieces(exon, cs, ce, a, b) == Some(block)
  {
    block := [Seg(ExonKind, exon)];
    if ce < a || cs > b {
      block := block + [Seg(UtrKind, exon)];
      assert block == [Seg(ExonKind, exon), Seg(UtrKind, exon)];
    } else {
      var cEnd := exon.end - Max(0, a - cs);
      if !(cEnd > exon.start) {
        return false, [];
      }
      ghost var head := block;
      if cEnd < exon.end {
        block := block + [Seg(UtrKind, Interval(cEnd + 1, exon.end))];
      } else {
        assert block == head + [];
      }
      var cStart := exon.start + Max(0, ce - b);
      block := block + [Seg(CdsKind, Interval(cStart, cEnd))];
      ghost var middle := block;
      if cStart > exon.start {
        block := block + [Seg(UtrKind, Interval(exon.start, cStart - 1))];
      } else {
        assert block == middle + [];
      }
    }
    ok := true;
  }

  /** The minus-strand pieces from exon `i` on: that exon's, then the rest. */
  lemma MinusPiecesFrom(exons: seq<Interval>, i: int, a: int, b: int, done: int, cs: int, ce: int)
    requires 0 <= i < |exons| && cs == done + 1 && ce == done + Len(exons[i])
    ensures var first := MinusExonPieces(exons[i], cs, ce, a, b);
      MinusPieces(exons[i..], a, b, done) ==
        if first.None? then None else Prepend(first.value, MinusPieces(exons[i + 1..], a, b, ce))
  {
    assert exons[i..][0] == exons[i] && exons[i..][1..] == exons[i + 1..];
  }

  /** The minus-strand loop; `ok` is false when its assertion fails. */
  method MinusLoop(exons: seq<Interval>, a: int, b: int) returns (ok: bool, pieces: seq<Seg>)
    ensures ok ==> MinusPieces(exons, a, b, 0) == Some(pieces)
    ensures !ok ==> MinusPieces(exons, a, b, 0) == None
  {
    pieces := [];
    var currentStart, currentEnd := 0, 0;
    var i := 0;
    assert Prepend([], MinusPieces(exons, a, b, 0)) == MinusPieces(exons, a, b, 0) by {
      if MinusPieces(exons, a, b, 0).Some? {
        assert [] + MinusPieces(exons, a, b, 0).value == MinusPieces(exons, a, b, 0).value;
      }
    }
    while i < |exons|
      invariant 0 <= i <= |exons| && currentStart == currentEnd
      invariant Prepend(pieces, MinusPieces(exons[i..], a, b, currentEnd)) == MinusPieces(exons, a, b, 0)
    {
      var exon := exons[i];
      currentStart := currentStart + 1;
      currentEnd := currentEnd + exon.end - exon.start + 1;
      var fine, block := MinusExon(exon, currentStart, currentEnd, a, b);
      MinusPiecesFrom(exons, i, a, b, currentStart - 1, currentStart, currentEnd);
      if !fine {
        return false, [];
      }
      PrependNested(pieces, block, MinusPieces(exons[i + 1..], a, b, currentEnd));
      pieces := pieces + block;
      currentStart := currentEnd;
      i := i + 1;
    }
    assert exons[i..] == [] && pieces + [] == pieces;
    ok := true;
  }

  // ---------------------------------------------------------------------------------------
  // load_cds: one ORF

  /** Exons in descending order. */
  function Reverse(s: seq<Interval>): (r: seq<Interval>)
    ensures |r| == |s| && forall i :: 0 <= i < |s| ==> r[i] == s[|s| - 1 - i]
  {
    if s == [] then [] else Reverse(s[1..]) + [s[0]]
  }

  /** The segments recorded for one ORF, before sorting: the plus-strand loop over ascending
      exons, or the minus-strand loop over descending exons, None when its assertion fails. */
  function OrfPieces(exons: seq<Interval>, strand: Strand, run: OrfRun): Option<seq<Seg>>
  {
    match strand
    case Plus => Some(PlusPieces(SortIntervals(exons), run.cdsStart, run.cdsEnd, 0, true))
    case Minus => MinusPieces(Reverse(SortIntervals(exons)), run.cdsStart, run.cdsEnd, 0)
  }

  lemma SortedWellFormed(s: seq<Interval>)
    requires WellFormed(s)
    ensures WellFormed(SortIntervals(s))
  {
    SortIntervalsPermutes(s);
    forall i | 0 <= i < |SortIntervals(s)|
      ensures SortIntervals(s)[i].start <= SortIntervals(s)[i].end
    {
      assert SortIntervals(s)[i] in multiset(s);
    }
  }

  /** On the plus strand, every CDS segment of an ORF lies inside one of the exons. */
  lemma PlusOrfCdsInsideExons(exons: seq<Interval>, run: OrfRun)
    ensures forall g :: g in OrfPieces(exons, Plus, run).value && g.kind == CdsKind ==>
      exists e :: e in exons && e.start <= g.iv.start <= g.iv.end <= e.end
  {
    var sorted := SortIntervals(exons);
    PlusCdsInsideExons(sorted, run.cdsStart, run.cdsEnd, 0, true);
    SortIntervalsPermutes(exons);
    forall g | g in OrfPieces(exons, Plus, run).value && g.kind == CdsKind
      ensures exists e :: e in exons && e.start <= g.iv.start <= g.iv.end <= e.end
    {
      var e :| e in sorted && e.start <= g.iv.start <= g.iv.end <= e.end;
      assert e in multiset(exons);
    }
  }

  /** The CDS and UTR a single plus-strand ORF leaves on the transcript: the CDS has one base
      per ORF position, and CDS and UTR together have the length of the cDNA. */
  lemma PlusSingleOrfLengths(exons: seq<Interval>, run: OrfRun)
    requires WellFormed(exons) && 1 <= run.cdsStart <= run.cdsEnd <= TotalLength(exons)
    ensures var orf := SortSpans(OrfPieces(exons, Plus, run).value);
      var cds := SortIntervals(KindIvs(orf, CdsKind));
      var utr := SortIntervals(KindIvs(orf, UtrKind));
      && TotalLength(cds) == run.cdsEnd - run.cdsStart + 1
      && TotalLength(cds) + TotalLength(utr) == TotalLength(exons)
  {
    var sorted := SortIntervals(exons);
    SortedWellFormed(exons);
    TotalLengthSorted(exons);
    var p := PlusPieces(sorted, run.cdsStart, run.cdsEnd, 0, true);
    PlusPiecesCds(sorted, run.cdsStart, run.cdsEnd, 0);
    PlusPiecesCover(sorted, run.cdsStart, run.cdsEnd, 0);
    var orf := SortSpans(p);
    forall kind
      ensures TotalLength(SortIntervals(KindIvs(orf, kind))) == KindLength(p, kind)
    {
      KindLengthSorted(p, kind);
      KindLengthIvs(orf, kind);
      TotalLengthSorted(KindIvs(orf, kind));
    }
  }

  // ---------------------------------------------------------------------------------------
  // load_cds: the loop over the ORFs

  /** What the loop over the ORFs has built: the exception raised, if any, the transcript's
      strand and the recorded ORFs. */
  datatype Scan = Scan(error: Option<Error>, strand: Option<Strand>, orfs: seq<seq<Seg>>)

  /** One ORF: its range is checked against the cDNA, an unset strand is taken from it, a
      minus-strand ORF on a multi-exon transcript is skipped, and otherwise its segments are
      recorded in `(start, end)` order. Nothing happens once an exception was raised. */
  function ScanStep(s: Scan, exons: seq<Interval>, monoexonic: bool, run: OrfRun): Scan
  {
    if s.error.Some? then s
    else if !(run.cdsStart >= 1 && run.cdsEnd <= TotalLength(exons)) then s.(error := Some(OrfOutOfRange))
    else
      var strand := if s.strand.None? then run.strand else s.strand.value;
      if run.strand == Minus && !monoexonic then s.(strand := Some(strand))
      else
        var pieces := OrfPieces(exons, strand, run);
        if pieces.None? then Scan(Some(MinusCdsAtExonStart), Some(strand), s.orfs)
        else Scan(None, Some(strand), s.orfs + [SortSpans(pieces.value)])
  }

  function ScanAll(s: Scan, exons: seq<Interval>, monoexonic: bool, runs: seq<OrfRun>): Scan
    decreases |runs|
  {
    if runs == [] then s else ScanAll(ScanStep(s, exons, monoexonic, runs[0]), exons, monoexonic, runs[1..])
  }

  /** An exception ends the loop: the rest of the ORFs change nothing. */
  lemma {:induction false} ScanStopsAtError(s: Scan, exons: seq<Interval>, monoexonic: bool, runs: seq<OrfRun>)
    requires s.error.Some?
    ensures ScanAll(s, exons, monoexonic, runs) == s
    decreases |runs|
  {
    if runs != [] {
      ScanStopsAtError(s, exons, monoexonic, runs[1..]);
    }
  }

  /** The loop only appends ORFs; a strand, once set, is kept. */
  lemma {:induction false} ScanAppends(s: Scan, exons: seq<Interval>, monoexonic: bool, runs: seq<OrfRun>)
    ensures var r := ScanAll(s, exons, monoexonic, runs);
      && |s.orfs| <= |r.orfs| && r.orfs[..|s.orfs|] == s.orfs
      && (s.strand.Some? ==> r.strand == s.strand)
      && (s.error.Some? ==> r == s)
    decreases |runs|
  {
    if runs != [] {
      var next := ScanStep(s, exons, monoexonic, runs[0]);
      ScanAppends(next, exons, monoexonic, runs[1..]);
      assert next.orfs[..|s.orfs|] == s.orfs;
    }
  }

  /** A minus-strand ORF on a multi-exon transcript is skipped: no segments are recorded and
      nothing is raised. */
  lemma MinusOrfSkipped(s: Scan, exons: seq<Interval>, run: OrfRun)
    requires s.error.None? && s.strand.Some? && run.strand == Minus
    requires 1 <= run.cdsStart && run.cdsEnd <= TotalLength(exons)
    ensures ScanStep(s, exons, false, run) == s
  {
  }

  /** The loop over the ORFs, longest first; it stops at the first exception. */
  method ScanOrfs(t: Transcript, runs: seq<OrfRun>) returns (error: Option<Error>)
    modifies t`strand, t`internalCds
    ensures var s := ScanAll(Scan(None, old(t.strand), old(t.internalCds)), t.exons, t.monoexonic, runs);
      error == s.error && t.strand == s.strand && t.internalCds == s.orfs
  {
    error := None;
    var i := 0;
    while i < |runs|
      invariant 0 <= i <= |runs| && error.None?
      invariant ScanAll(Scan(None, old(t.strand), old(t.internalCds)), t.exons, t.monoexonic, runs) ==
        ScanAll(Scan(None, t.strand, t.internalCds), t.exons, t.monoexonic, runs[i..])
    {
      var run := runs[i];
      assert runs[i..][0] == run && runs[i..][1..] == runs[i + 1..];
      ghost var before := Scan(None, t.strand, t.internalCds);
      ghost var after := ScanStep(before, t.exons, t.monoexonic, run);
      if !(run.cdsStart >= 1 && run.cdsEnd <= TotalLength(t.exons)) {
        ScanStopsAtError(after, t.exons, t.monoexonic, runs[i + 1..]);
        return Some(OrfOutOfRange);
      }
      if t.strand == None {
        t.strand := Some(run.strand);
      }
      if run.strand == Minus && !t.monoexonic {
        i := i + 1;
        continue;
      }
      var ok, pieces := true, [];
      if t.strand == Some(Plus) {
        pieces := PlusLoop(SortIntervals(t.exons), run.cdsStart, run.cdsEnd);
      } else {
        ok, pieces := MinusLoop(Reverse(SortIntervals(t.exons)), run.cdsStart, run.cdsEnd);
      }
      if !ok {
        ScanStopsAtError(after, t.exons, t.monoexonic, runs[i + 1..]);
        return Some(MinusCdsAtExonStart);
      }
      t.internalCds := t.internalCds + [SortSpans(pieces)];
      i := i + 1;
    }
    assert runs[i..] == [];
  }

  // ---------------------------------------------------------------------------------------
  // load_cds: several ORFs

  /** The CDS intervals of all recorded ORFs, as a set. */
  function Candidates(orfs: seq<seq<Seg>>): (r: set<Interval>)
    ensures forall iv :: iv in r <==> exists k :: 0 <= k < |orfs| && Seg(CdsKind, iv) in orfs[k]
  {
    if orfs == [] then {}
    else
      var here := set g | g in orfs[0] && g.kind == CdsKind :: g.iv;
      assert forall iv :: iv in here <==> Seg(CdsKind, iv) in orfs[0];
      here + Candidates(orfs[1..])
  }

  /** The smallest start and the largest end of a list of intervals; 0 and -1 for none. */
  function Lowest(s: seq<Interval>): int
  {
    if s == [] then 0 else if |s| == 1 then s[0].start else Min(s[0].start, Lowest(s[1..]))
  }

  function Highest(s: seq<Interval>): int
  {
    if s == [] then -1 else if |s| == 1 then s[0].end else Max(s[0].end, Highest(s[1..]))
  }

  /** Every covered position lies between the lowest start and the highest end. */
  lemma {:induction false} PositionsBounded(s: seq<Interval>)
    ensures forall p :: p in Positions(s) ==> Lowest(s) <= p <= Highest(s)
  {
    if |s| > 1 {
      PositionsBounded(s[1..]);
    } else if |s| == 1 {
      assert Positions(s[1..]) == {};
    }
  }

  predicate Increasing(ps: seq<int>)
  {
    forall i, j :: 0 <= i < j < |ps| ==> ps[i] < ps[j]
  }

  /** `sorted(list(positions))` for positions between `lo` and `hi`. */
  function Ascending(positions: set<int>, lo: int, hi: int): (r: seq<int>)
    ensures forall p :: p in r <==> p in positions && lo <= p <= hi
    ensures forall i :: 0 <= i < |r| ==> lo <= r[i]
    ensures Increasing(r)
    decreases hi - lo
  {
    if lo > hi then []
    else
      var rest := Ascending(positions, lo + 1, hi);
      if lo in positions then [lo] + rest else rest
  }

  /** A list without repetitions has as many distinct elements as entries. */
  lemma {:induction false} IncreasingSize(ps: seq<int>)
    requires Increasing(ps)
    ensures |set p | p in ps| == |ps|
  {
    if ps != [] {
      IncreasingSize(ps[1..]);
      assert (set p | p in ps) == {ps[0]} + (set p | p in ps[1..]);
      assert ps[0] !in ps[1..];
    }
  }

  /** Consecutive runs are separated by at least one missing position. */
  predicate Separated(runs: seq<Interval>)
  {
    forall i :: 0 <= i < |runs| - 1 ==> runs[i].end + 1 < runs[i + 1].start
  }

  function Closed(runs: seq<Interval>, current: Option<Interval>): seq<Interval>
  {
    if current.None? then runs else runs + [current.value]
  }

  function Elements(ps: seq<int>): set<int>
  {
    set p | p in ps
  }

  lemma ElementsSnoc(ps: seq<int>, i: int)
    requires 0 <= i < |ps|
    ensures Elements(ps[..i + 1]) == Elements(ps[..i]) + {ps[i]}
  {
    assert ps[..i + 1] == ps[..i] + [ps[i]];
  }

  /** `all` groups the first `i` positions of `ps` into separated runs. */
  predicate Grouped(all: seq<Interval>, ps: seq<int>, i: int)
    requires 0 <= i <= |ps|
  {
    WellFormed(all) && Separated(all) && Positions(all) == Elements(ps[..i]) && TotalLength(all) == i
  }

  /** A position right after the last run's end extends that run by one base. */
  lemma ExtendRun(runs: seq<Interval>, c: Interval, ps: seq<int>, i: int)
    requires 0 <= i < |ps| && Grouped(runs + [c], ps, i) && ps[i] == c.end + 1
    ensures Grouped(runs + [Interval(c.start, ps[i])], ps, i + 1)
  {
    var pos := ps[i];
    var grown := runs + [Interval(c.start, pos)];
    assert (runs + [c])[|runs|] == c;
    assert forall k :: 0 <= k < |runs| ==> grown[k] == (runs + [c])[k];
    ElementsSnoc(ps, i);
    PositionsSnoc(runs, c);
    PositionsSnoc(runs, Interval(c.start, pos));
    RangeSnoc(c.start, c.end, pos);
    TotalLengthAppend(runs, [c]);
    TotalLengthAppend(runs, [Interval(c.start, pos)]);
  }

  /** A position past the gap after the last run starts a run of its own. */
  lemma NewRun(all: seq<Interval>, ps: seq<int>, i: int)
    requires 0 <= i < |ps| && Grouped(all, ps, i)
    requires all != [] ==> all[|all| - 1].end + 1 < ps[i]
    ensures Grouped(all + [Interval(ps[i], ps[i])], ps, i + 1)
  {
    var pos := ps[i];
    ElementsSnoc(ps, i);
    PositionsSnoc(all, Interval(pos, pos));
    assert Range(pos, pos) == {pos};
    TotalLengthAppend(all, [Interval(pos, pos)]);
  }

  /** The grouping of ascending UTR positions into maximal runs of consecutive positions. */
  method GroupRuns(ps: seq<int>) returns (runs: seq<Interval>)
    requires Increasing(ps)
    ensures WellFormed(runs) && Separated(runs)
    ensures Positions(runs) == Elements(ps)
    ensures TotalLength(runs) == |ps|
  {
    runs := [];
    var current: Option<Interval> := None;
    for i := 0 to |ps|
      invariant current.None? ==> i == 0 && runs == []
      invariant current.Some? ==> i > 0 && current.value.end == ps[i - 1]
      invariant Grouped(Closed(runs, current), ps, i)
    {
      var pos := ps[i];
      if current.None? {
        NewRun([], ps, i);
        current := Some(Interval(pos, pos));
      } else if pos == current.value.end + 1 {
        ExtendRun(runs, current.value, ps, i);
        current := Some(Interval(current.value.start, pos));
      } else {
        runs := runs + [current.value];
        NewRun(runs, ps, i);
        current := Some(Interval(pos, pos));
      }
    }
    assert ps[..|ps|] == ps;
    if current.Some? {
      runs := runs + [current.value];
    }
  }

  /** The UTR list as it ends up: exon positions outside the CDS spans, as maximal runs. */
  method UtrRuns(exons: seq<Interval>, cds: seq<Interval>) returns (runs: seq<Interval>)
    ensures WellFormed(runs) && Separated(runs)
    ensures Positions(runs) == Positions(exons) - Positions(cds)
    ensures TotalLength(runs) == |Positions(exons) - Positions(cds)|
  {
    var outside := Positions(exons) - Positions(cds);
    PositionsBounded(exons);
    var ps := Ascending(outside, Lowest(exons), Highest(exons));
    assert Elements(ps) == outside;
    IncreasingSize(ps);
    runs := GroupRuns(ps);
  }

  /** With disjoint CDS spans inside disjoint exons, exon and CDS lengths differ by exactly
      the number of UTR positions, so the closing assertion of `load_cds` holds. */
  lemma MergedLengthsAgree(exons: seq<Interval>, cds: seq<Interval>)
    requires Chain(exons) && WellFormed(exons) && Chain(cds) && WellFormed(cds)
    requires Positions(cds) <= Positions(exons)
    ensures TotalLength(exons) == TotalLength(cds) + |Positions(exons) - Positions(cds)|
  {
    ChainPositionsSize(exons);
    ChainPositionsSize(cds);
    assert Positions(exons) == (Positions(exons) - Positions(cds)) + Positions(cds);
  }

  /** Several ORFs: the CDS becomes the sorted spans of the cliques of CDS intervals, the UTR
      the runs of exon positions outside them, and their lengths must add up to the cDNA. */
  method MergeOrfs(t: Transcript, spansOf: set<Interval> -> seq<Interval>) returns (r: Outcome)
    modifies t`cds, t`utr
    ensures t.cds == SortIntervals(spansOf(Candidates(t.internalCds)))
    ensures t.cds == [] ==> r == Fail(NoCdsSpans) && t.utr == old(t.utr)
    ensures t.cds != [] ==>
      && WellFormed(t.utr) && Separated(t.utr)
      && Positions(t.utr) == Positions(t.exons) - Positions(t.cds)
      && TotalLength(t.utr) == |Positions(t.exons) - Positions(t.cds)|
      && (r == Ok <==> TotalLength(t.exons) == TotalLength(t.cds) + TotalLength(t.utr))
      && (r.Fail? ==> r.error == UtrLengthMismatch)
  {
    t.cds := SortIntervals(spansOf(Candidates(t.internalCds)));
    if t.cds == [] {
      return Fail(NoCdsSpans);
    }
    t.utr := UtrRuns(t.exons, t.cds);
    if TotalLength(t.exons) != TotalLength(t.cds) + TotalLength(t.utr) {
      return Fail(UtrLengthMismatch);
    }
    return Ok;
  }

  // ---------------------------------------------------------------------------------------
  // load_cds

  /** The ORFs of the transcript, longest CDS first; equal lengths keep their order. */
  function SortRuns(runs: seq<OrfRun>): seq<OrfRun>
  {
    Sorting.Sort(runs, LongerOrEqual)
  }

  /** The ORFs are visited longest first, and every ORF is visited once. */
  lemma SortRunsLongestFirst(runs: seq<OrfRun>)
    ensures Sorting.SortedBy(SortRuns(runs), LongerOrEqual)
    ensures multiset(SortRuns(runs)) == multiset(runs)
  {
    assert Sorting.TotalPreorder(LongerOrEqual);
    Sorting.SortSorted(runs, LongerOrEqual);
    Sorting.SortPermutes(runs, LongerOrEqual);
  }

  /** After the loop over the ORFs: one ORF gives the CDS and UTR its segments, several are
      merged, and none leaves the transcript to be finalized again as non-coding. */
  method SettleOrfs(t: Transcript, spansOf: set<Interval> -> seq<Interval>) returns (r: Outcome)
    requires !t.finalized
    modifies t`exons, t`cds, t`utr, t`internalCds, t`junctions, t`splices, t`monoexonic
    modifies t`maxInternalCdsIndex, t`finalized
    ensures r == Ok <==> t.finalized
    ensures |old(t.internalCds)| == 1 ==>
      && r == Ok && t.internalCds == old(t.internalCds)
      && t.cds == SortIntervals(KindIvs(t.internalCds[0], CdsKind))
      && t.utr == SortIntervals(KindIvs(t.internalCds[0], UtrKind))
    ensures |old(t.internalCds)| > 1 ==>
      && t.internalCds == old(t.internalCds) && t.exons == old(t.exons)
      && t.cds == SortIntervals(spansOf(Candidates(t.internalCds)))
      && (t.cds == [] ==> r == Fail(NoCdsSpans))
      && (t.cds != [] ==>
            && WellFormed(t.utr) && Separated(t.utr)
            && Positions(t.utr) == Positions(t.exons) - Positions(t.cds)
            && (r == Ok <==> TotalLength(t.exons) == TotalLength(t.cds) + TotalLength(t.utr)))
    ensures old(t.internalCds) == [] && old(t.cds) == [] && old(t.utr) == [] ==> t.cds == [] && t.utr == []
  {
    if |t.internalCds| == 1 {
      t.cds := SortIntervals(KindIvs(t.internalCds[0], CdsKind));
      t.utr := SortIntervals(KindIvs(t.internalCds[0], UtrKind));
    } else if |t.internalCds| > 1 {
      r := MergeOrfs(t, spansOf);
      if r.Fail? {
        return;
      }
    }
    if t.internalCds == [] {
      r := FinalizeFresh(t);
    } else {
      t.finalized := true;
      r := Ok;
    }
  }

  /** `load_cds` once the transcript is finalized and has ORFs: the coding data is reset,
      the ORFs are mapped onto the exons longest first, and the result is settled. */
  method LoadOrfs(t: Transcript, runs: seq<OrfRun>, spansOf: set<Interval> -> seq<Interval>) returns (r: Outcome)
    modifies t`strand, t`exons, t`cds, t`utr, t`internalCds, t`junctions, t`splices
    modifies t`monoexonic, t`maxInternalCdsIndex, t`finalized
    ensures r == Ok <==> t.finalized
    ensures var s := ScanAll(Scan(None, old(t.strand), []), old(t.exons), old(t.monoexonic), SortRuns(runs));
      && (s.error.Some? ==>
            && r == Fail(s.error.value) && t.strand == s.strand && t.internalCds == s.orfs
            && t.cds == [] && t.utr == [])
      && (s.error.None? ==> t.strand == s.strand)
      && (s.error.None? && |s.orfs| == 1 ==>
            && r == Ok && t.internalCds == s.orfs
            && t.cds == SortIntervals(KindIvs(s.orfs[0], CdsKind))
            && t.utr == SortIntervals(KindIvs(s.orfs[0], UtrKind)))
      && (s.error.None? && |s.orfs| > 1 ==>
            && t.internalCds == s.orfs
            && t.cds == SortIntervals(spansOf(Candidates(s.orfs)))
            && (t.cds == [] ==> r == Fail(NoCdsSpans))
            && (t.cds != [] ==>
                  && Positions(t.utr) == Positions(old(t.exons)) - Positions(t.cds)
                  && (r == Ok <==> TotalLength(old(t.exons)) == TotalLength(t.cds) + TotalLength(t.utr))))
      && (s.error.None? && s.orfs == [] ==> t.cds == [] && t.utr == [])
  {
    t.utr, t.cds, t.internalCds := [], [], [];
    t.finalized := false;
    var error := ScanOrfs(t, SortRuns(runs));
    if error.Some? {
      return Fail(error.value);
    }
    r := SettleOrfs(t, spansOf);
  }

  /** `load_cds`: finalize, look the transcript up among the ORFs, and load them. Without an
      entry the finalized transcript is kept as it is. */
  method LoadCds(t: Transcript, orfDict: map<string, seq<OrfRun>>, spansOf: set<Interval> -> seq<Interval>)
    returns (r: Outcome)
    modifies t`strand, t`exons, t`cds, t`utr, t`internalCds, t`junctions, t`splices
    modifies t`monoexonic, t`maxInternalCdsIndex, t`finalized
    ensures r == Ok <==> t.finalized
    ensures t.id !in orfDict ==> t.strand == old(t.strand)
    ensures t.id !in orfDict && old(t.finalized) ==> r == Ok && unchanged(t)
  {
    r := Finalize(t);
    if r.Fail? || t.id !in orfDict {
      return;
    }
    r := LoadOrfs(t, orfDict[t.id], spansOf);
  }
}
