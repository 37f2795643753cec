/** Chimera splitting by CDS (mikado_lib transcript_methods/split_by_cds.py): a transcript that
    carries several ORFs is cut into one new transcript per group of ORFs.  The ORF boundaries
    are transcript coordinates; BLAST evidence may glue neighbouring ORFs back together under a
    three-mode leniency policy; each final boundary is then mapped back onto the genomic exons,
    strand-aware, trimming the exons that straddle it. */
module CdsSplit {
  import opened Intervals
  import opened Optional
  import Sorting
  import Text

  datatype Strand = Plus | Minus

  /** `chimera_split.blast_params.leniency`. */
  datatype Leniency = Stringent | Lenient | Permissive

  type TargetLength = n: int | 0 < n witness 1

  /** A BLAST target is keyed by `(target, target_length)`. */
  datatype Target = Target(name: string, length: TargetLength)

  /** One HSP: query and target spans, e-value, bit score and the alignment's match line. */
  datatype Hsp = Hsp(query: Interval, target: Interval, evalue: real, bits: real, alignment: string)

  datatype Hit = Hit(target: Target, query: Interval, hsps: seq<Hsp>)

  /** A loaded ORF (a BED12 object); only its thick start/end matter here. */
  datatype Orf = Orf(name: string, thickStart: int, thickEnd: int)

  datatype BlastParams = BlastParams(
    leniency: Leniency,
    minimalHspOverlap: real,
    hspEvalue: real,
    minOverlapDuplication: real)

  datatype SplitError =
    | AssertionFailed    // `assert len(my_exons) > 0` and `assert len(new_transcripts) > 0`
    | InvalidTranscript  // a split keeps no selected CDS
    | NameError          // a name the code uses is not defined in its module
    | TypeError          // a call with the wrong number of arguments

  datatype Result<T> = Ok(value: T) | Fail(error: SplitError)

  function BoundaryOf(o: Orf): Interval
  {
    Interval(o.thickStart, o.thickEnd)
  }

  predicate LexLt(a: Interval, b: Interval)
  {
    LexLe(a, b) && a != b
  }

  predicate Distinct<T(==)>(s: seq<T>)
  {
    forall i, j :: 0 <= i < j < |s| ==> s[i] != s[j]
  }

  function Last<T>(s: seq<T>): T
    requires s != []
  {
    s[|s| - 1]
  }

  // ---------------------------------------------------------------------------------------
  // Ordered dictionaries from boundaries to ORF lists (`cds_boundaries`, `final_boundaries`)

  /** An `OrderedDict` from boundaries to ORF lists: its keys in insertion order, and the value
      stored under each. */
  datatype Table = Table(keys: seq<Interval>, values: map<Interval, seq<Orf>>)

  /** The keys are distinct and are exactly the keys holding a value. */
  predicate Valid(t: Table)
  {
    Distinct(t.keys) && (forall k :: k in t.values ==> k in t.keys) && (forall k :: k in t.keys ==> k in t.values)
  }

  const Empty := Table([], map[])

  /** `d[k] = v`: an existing key keeps its place and takes the new value, a new key goes last. */
  function Put(t: Table, k: Interval, v: seq<Orf>): Table
  {
    if k in t.values then Table(t.keys, t.values[k := v]) else Table(t.keys + [k], t.values[k := v])
  }

  /** Writing a key keeps the table well formed, appending the key when it is new. */
  lemma PutValid(t: Table, k: Interval, v: seq<Orf>)
    requires Valid(t)
    ensures Valid(Put(t, k, v))
    ensures Put(t, k, v).keys == if k in t.keys then t.keys else t.keys + [k]
  {
    if k !in t.values {
      var ks := t.keys + [k];
      assert forall i :: 0 <= i < |t.keys| ==> ks[i] != k;
    }
  }

  // ---------------------------------------------------------------------------------------
  // ORF boundaries (lines 573-576)

  predicate OrfLe(a: Orf, b: Orf)
  {
    LexLe(BoundaryOf(a), BoundaryOf(b))
  }

  lemma OrfLeIsTotalPreorder()
    ensures Sorting.TotalPreorder(OrfLe)
  {
  }

  /** `cds_boundaries[(thick_start, thick_end)] = [orf]` over the ORFs in the order given. */
  function Collected(orfs: seq<Orf>): Table
  {
    if orfs == [] then Empty
    else Put(Collected(orfs[..|orfs| - 1]), BoundaryOf(Last(orfs)), [Last(orfs)])
  }

  lemma {:induction false} CollectedValid(orfs: seq<Orf>)
    ensures Valid(Collected(orfs))
  {
    if orfs != [] {
      var init := orfs[..|orfs| - 1];
      CollectedValid(init);
      PutValid(Collected(init), BoundaryOf(Last(orfs)), [Last(orfs)]);
    }
  }

  /** Strictly increasing boundaries, as the keys of the sorted table. */
  predicate Increasing(ks: seq<Interval>)
  {
    forall i, j :: 0 <= i < j < |ks| ==> LexLt(ks[i], ks[j])
  }

  /** Over ORFs sorted by boundary the keys are strictly increasing and the last key is the
      boundary of the last ORF. */
  lemma {:induction false} CollectedOrdered(orfs: seq<Orf>)
    requires Sorting.SortedBy(orfs, OrfLe)
    ensures Increasing(Collected(orfs).keys)
    ensures orfs != [] ==> Collected(orfs).keys != [] && Last(Collected(orfs).keys) == BoundaryOf(Last(orfs))
  {
    if orfs != [] {
      var init := orfs[..|orfs| - 1];
      var x := Last(orfs);
      assert Sorting.SortedBy(init, OrfLe);
      CollectedOrdered(init);
      CollectedValid(init);
      var ks := Collected(init).keys;
      var k := BoundaryOf(x);
      PutValid(Collected(init), k, [x]);
      if init != [] {
        assert OrfLe(Last(init), x);
        if k != Last(ks) {
          NewLastKey(ks, k);
        }
      }
    }
  }

  /** A key above the last of strictly increasing keys is new and keeps them increasing. */
  lemma NewLastKey(ks: seq<Interval>, k: Interval)
    requires ks != [] && Increasing(ks)
    requires LexLe(Last(ks), k) && k != Last(ks)
    ensures k !in ks && Increasing(ks + [k])
  {
    forall i | 0 <= i < |ks|
      ensures LexLt(ks[i], k)
    {
      if i < |ks| - 1 {
        assert LexLt(ks[i], Last(ks));
      }
    }
  }

  /** Every ORF's boundary is a key of the table. */
  lemma {:induction false} CollectedCovers(orfs: seq<Orf>)
    ensures forall o :: o in orfs ==> BoundaryOf(o) in Collected(orfs).values
  {
    if orfs != [] {
      var init := orfs[..|orfs| - 1];
      CollectedCovers(init);
      assert orfs == init + [Last(orfs)];
    }
  }

  /** Every key holds a single ORF of the input with that boundary. */
  predicate SingleOrfs(t: Table, orfs: seq<Orf>)
  {
    forall k :: k in t.values ==> |t.values[k]| == 1 && t.values[k][0] in orfs && BoundaryOf(t.values[k][0]) == k
  }

  lemma {:induction false} CollectedEntries(orfs: seq<Orf>)
    ensures SingleOrfs(Collected(orfs), orfs)
  {
    if orfs != [] {
      var init := orfs[..|orfs| - 1];
      CollectedEntries(init);
      assert orfs == init + [Last(orfs)];
      assert forall o :: o in init ==> o in orfs;
    }
  }

  /** Reads the ORFs in boundary order into the ordered table (lines 573-576). */
  method CollectBoundaries(orfs: seq<Orf>) returns (es: Table)
    ensures es == Collected(Sorting.Sort(orfs, OrfLe))
  {
    var sorted := Sorting.Sort(orfs, OrfLe);
    es := Empty;
    for i := 0 to |sorted|
      invariant es == Collected(sorted[..i])
    {
      assert sorted[..i + 1][..i] == sorted[..i];
      es := Put(es, BoundaryOf(sorted[i]), [sorted[i]]);
    }
    assert sorted[..|sorted|] == sorted;
  }

  /** The boundaries table of a transcript: a well-formed table whose keys strictly increase,
      covering every ORF, each key holding one ORF with that boundary. */
  lemma BoundariesTable(orfs: seq<Orf>)
    ensures var t := Collected(Sorting.Sort(orfs, OrfLe));
      && Valid(t)
      && Increasing(t.keys)
      && (forall o :: o in orfs ==> BoundaryOf(o) in t.keys)
      && SingleOrfs(t, orfs)
  {
    var sorted := Sorting.Sort(orfs, OrfLe);
    OrfLeIsTotalPreorder();
    Sorting.SortSorted(orfs, OrfLe);
    Sorting.SortPermutes(orfs, OrfLe);
    CollectedValid(sorted);
    CollectedOrdered(sorted);
    CollectedCovers(sorted);
    CollectedEntries(sorted);
    forall o | o in orfs
      ensures o in sorted
    {
      assert o in multiset(sorted);
    }
    forall o | o in sorted
      ensures o in orfs
    {
      assert o in multiset(orfs);
    }
  }

  // ---------------------------------------------------------------------------------------
  // The per-boundary BLAST hit table (lines 41-65)

  type HitDict = map<Target, seq<Hsp>>

  /** An HSP counts for a boundary when its e-value is at most `hsp_evalue` and its query span
      overlaps the boundary by at least `minimal_hsp_overlap` of the boundary's length. */
  predicate Supports(hsp: Hsp, b: Interval, p: BlastParams)
  {
    hsp.evalue <= p.hspEvalue && Covers(hsp, b, p)
  }

  predicate Covers(hsp: Hsp, b: Interval, p: BlastParams)
  {
    Overlap(b, hsp.query) as real >= Threshold(p, b)
  }

  /** `minimal_overlap * (cds_run[1] + 1 - cds_run[0])`. */
  function Threshold(p: BlastParams, b: Interval): real
  {
    p.minimalHspOverlap * ((b.end + 1 - b.start) as real)
  }

  /** `d[t].append(h)` on a `defaultdict(list)`. */
  function AddHsp(d: HitDict, t: Target, h: Hsp): HitDict
  {
    d[t := (if t in d then d[t] else []) + [h]]
  }

  /** The hit dictionary of boundary `b` after the HSPs `hsps` of a hit on `t`. */
  function HspsInto(d: HitDict, t: Target, hsps: seq<Hsp>, b: Interval, p: BlastParams): HitDict
  {
    if hsps == [] then d
    else
      var d' := HspsInto(d, t, hsps[..|hsps| - 1], b, p);
      if Supports(Last(hsps), b, p) then AddHsp(d', t, Last(hsps)) else d'
  }

  lemma HspsIntoStep(d: HitDict, t: Target, hsps: seq<Hsp>, j: int, b: Interval, p: BlastParams)
    requires 0 <= j < |hsps|
    ensures HspsInto(d, t, hsps[..j + 1], b, p) ==
      if Supports(hsps[j], b, p) then AddHsp(HspsInto(d, t, hsps[..j], b, p), t, hsps[j])
      else HspsInto(d, t, hsps[..j], b, p)
  {
    assert hsps[..j + 1][..j] == hsps[..j];
  }

  /** The hit dictionary of boundary `b` after all of `hits`. */
  function HitsOf(b: Interval, hits: seq<Hit>, p: BlastParams): HitDict
  {
    if hits == [] then map[]
    else HspsInto(HitsOf(b, hits[..|hits| - 1], p), Last(hits).target, Last(hits).hsps, b, p)
  }

  function TableOf(es: Table, hits: seq<Hit>, p: BlastParams): map<Interval, HitDict>
  {
    map b | b in es.keys :: HitsOf(b, hits, p)
  }

  lemma {:induction false} HspsIntoMeans(d: HitDict, t: Target, hsps: seq<Hsp>, b: Interval, p: BlastParams)
    ensures var r := HspsInto(d, t, hsps, b, p);
      && (forall u :: u in r <==> u in d || (u == t && exists x :: x in hsps && Supports(x, b, p)))
      && (forall u :: u in d && u != t ==> r[u] == d[u])
      && (forall x :: x in hsps && Supports(x, b, p) ==> x in r[t])
      && (forall x :: t in r && x in r[t] ==> (t in d && x in d[t]) || (x in hsps && Supports(x, b, p)))
      && (t in d && d[t] != [] ==> r[t] != [])
      && (forall x :: t in d && x in d[t] ==> x in r[t])
  {
    if hsps != [] {
      var init := hsps[..|hsps| - 1];
      HspsIntoMeans(d, t, init, b, p);
      assert hsps == init + [Last(hsps)];
    }
  }

  /** A boundary lists a target only when a hit on that target supports it, and never with an
      empty list. */
  lemma {:induction false} HitsOfListed(b: Interval, hits: seq<Hit>, p: BlastParams)
    ensures forall t :: t in HitsOf(b, hits, p) ==> HitsOf(b, hits, p)[t] != [] && exists h :: h in hits && h.target == t
  {
    if hits != [] {
      var init := hits[..|hits| - 1];
      var h := Last(hits);
      HitsOfListed(b, init, p);
      HspsIntoMeans(HitsOf(b, init, p), h.target, h.hsps, b, p);
      assert hits == init + [h];
    }
  }

  /** Every HSP listed under a boundary supports it. */
  lemma {:induction false} HitsOfSupported(b: Interval, hits: seq<Hit>, p: BlastParams)
    ensures forall t, x :: t in HitsOf(b, hits, p) && x in HitsOf(b, hits, p)[t] ==> Supports(x, b, p)
  {
    if hits != [] {
      var init := hits[..|hits| - 1];
      var h := Last(hits);
      HitsOfSupported(b, init, p);
      HspsIntoMeans(HitsOf(b, init, p), h.target, h.hsps, b, p);
    }
  }

  /** Every HSP of the hits that supports a boundary is listed under its target. */
  lemma {:induction false} HitsOfComplete(b: Interval, hits: seq<Hit>, p: BlastParams)
    ensures forall h, x :: h in hits && x in h.hsps && Supports(x, b, p) ==>
      h.target in HitsOf(b, hits, p) && x in HitsOf(b, hits, p)[h.target]
  {
    if hits != [] {
      var init := hits[..|hits| - 1];
      var h := Last(hits);
      HitsOfComplete(b, init, p);
      HspsIntoMeans(HitsOf(b, init, p), h.target, h.hsps, b, p);
      assert hits == init + [h];
    }
  }

  /** The inner loop of lines 58-65: one HSP on target `t` is appended to every boundary whose
      span it overlaps by at least `minimal_hsp_overlap` of the boundary's length. */
  method AddToRuns(table: map<Interval, HitDict>, ks: seq<Interval>, t: Target, hsp: Hsp, p: BlastParams)
    returns (table': map<Interval, HitDict>)
    requires Distinct(ks)
    requires forall b :: b in table <==> b in ks
    ensures forall b :: b in table' <==> b in ks
    ensures forall b :: b in table ==> table'[b] == Appended(table[b], t, hsp, b, p)
  {
    table' := table;
    ghost var done: set<Interval> := {};
    for k := 0 to |ks|
      invariant forall b :: b in table' <==> b in ks
      invariant forall m :: 0 <= m < |ks| ==> (ks[m] in done <==> m < k)
      invariant forall b :: b in table ==> table'[b] == if b in done then Appended(table[b], t, hsp, b, p) else table[b]
    {
      var run := ks[k];
      var threshold := Threshold(p, run);
      if Overlap(run, hsp.query) as real >= threshold {
        table' := table'[run := AddHsp(table'[run], t, hsp)];
      }
      done := done + {run};
    }
  }

  /** `d` after the HSP is appended to it when it covers boundary `b`. */
  function Appended(d: HitDict, t: Target, hsp: Hsp, b: Interval, p: BlastParams): HitDict
  {
    if Covers(hsp, b, p) then AddHsp(d, t, hsp) else d
  }

  /** Fills `cds_hit_dict`: every HSP passing the e-value filter is added under its target to
      each boundary it overlaps enough (lines 41-65). */
  method HitTable(es: Table, hits: seq<Hit>, p: BlastParams) returns (table: map<Interval, HitDict>)
    requires Distinct(es.keys)
    ensures table == TableOf(es, hits, p)
  {
    var ks := es.keys;
    table := map b | b in ks :: map[];
    for i := 0 to |hits|
      invariant forall b :: b in table <==> b in ks
      invariant forall b :: b in table ==> table[b] == HitsOf(b, hits[..i], p)
    {
      var hit := hits[i];
      assert hits[..i + 1][..i] == hits[..i];
      for j := 0 to |hit.hsps|
        invariant forall b :: b in table <==> b in ks
        invariant forall b :: b in table ==>
          table[b] == HspsInto(HitsOf(b, hits[..i], p), hit.target, hit.hsps[..j], b, p)
      {
        var hsp := hit.hsps[j];
        ghost var before := table;
        if hsp.evalue <= p.hspEvalue {
          table := AddToRuns(table, ks, hit.target, hsp, p);
        }
        forall b | b in table
          ensures table[b] == HspsInto(HitsOf(b, hits[..i], p), hit.target, hit.hsps[..j + 1], b, p)
        {
          HspsIntoStep(HitsOf(b, hits[..i], p), hit.target, hit.hsps, j, b, p);
        }
      }
      assert hit.hsps[..|hit.hsps|] == hit.hsps;
    }
    assert hits[..|hits|] == hits;
  }

  // ---------------------------------------------------------------------------------------
  // check_common_hits (lines 83-133)

  function Queries(hs: seq<Hsp>): (r: seq<Interval>)
    ensures |r| == |hs| && forall i :: 0 <= i < |hs| ==> r[i] == hs[i].query
  {
    seq(|hs|, i requires 0 <= i < |hs| => hs[i].query)
  }

  function Targets(hs: seq<Hsp>): (r: seq<Interval>)
    ensures |r| == |hs| && forall i :: 0 <= i < |hs| ==> r[i] == hs[i].target
  {
    seq(|hs|, i requires 0 <= i < |hs| => hs[i].target)
  }

  /** An interval tree's `search(begin, end)`: the stored half-open intervals that meet
      `[q.start, q.end)`. */
  function Search(tree: seq<Interval>, q: Interval): (r: seq<Interval>)
    ensures forall x :: x in r <==> x in tree && x.start < q.end && q.start < x.end
  {
    if tree == [] then []
    else
      var rest := Search(tree[1..], q);
      assert forall x :: x in tree <==> x == tree[0] || x in tree[1..];
      if tree[0].start < q.end && q.start < tree[0].end then [tree[0]] + rest else rest
  }

  /** Share of the target covered by the overlap of two target spans. */
  function Fraction(a: Interval, b: Interval, t: Target): real
  {
    Overlap(a, b) as real / (t.length as real)
  }

  /** Every target span of `cds` that meets one of `prior` overlaps it by at least `minDup` of the
      target's length (the tandem-duplication test). */
  predicate TargetsDuplicated(cds: seq<Hsp>, prior: seq<Hsp>, t: Target, minDup: real)
  {
    forall x, y :: x in cds && y in Search(Targets(prior), x.target) ==> Fraction(x.target, y, t) >= minDup
  }

  /** No query span of `cds` meets a query span of `prior`. */
  predicate QueriesApart(cds: seq<Hsp>, prior: seq<Hsp>)
  {
    forall x :: x in cds ==> Search(Queries(prior), x.query) == []
  }

  /** The evidently intended verdict: split unless, for some shared target, the two ORFs'
      HSPs meet on the query, or meet on the target by less than `minDup`. */
  predicate Breaks(cdsHits: HitDict, oldHits: HitDict, minDup: real)
  {
    forall t :: t in cdsHits && t in oldHits ==>
      QueriesApart(cdsHits[t], oldHits[t]) && TargetsDuplicated(cdsHits[t], oldHits[t], t, minDup)
  }

  /** The verdict of the code as written: `any([...] for ...)` tests non-empty lists, which are
      always true, so every shared target with a non-empty HSP list forbids the split. */
  predicate BreaksAsWritten(cdsHits: HitDict, oldHits: HitDict)
  {
    forall t :: t in cdsHits && t in oldHits ==> cdsHits[t] == []
  }

  /** The target-span loop of lines 121-132: a pair that meets by less than `minDup` clears
      `to_break`, any other pair leaves it as it was. */
  method TargetLoop(toBreak0: bool, cds: seq<Hsp>, prior: seq<Hsp>, t: Target, minDup: real)
    returns (toBreak: bool)
    ensures toBreak == (toBreak0 && TargetsDuplicated(cds, prior, t, minDup))
  {
    var oldTargets := Targets(prior);
    toBreak := toBreak0;
    for i := 0 to |cds|
      invariant toBreak == (toBreak0 && forall x, y :: x in cds[..i] && y in Search(oldTargets, x.target) ==>
        Fraction(x.target, y, t) >= minDup)
    {
      var boundary := cds[i].target;
      var found := Search(oldTargets, boundary);
      ghost var before := toBreak;
      for j := 0 to |found|
        invariant toBreak == (before && forall y :: y in found[..j] ==> Fraction(boundary, y, t) >= minDup)
      {
        assert found[..j + 1] == found[..j] + [found[j]];
        if Fraction(boundary, found[j], t) >= minDup {
          toBreak := true && toBreak;
        } else {
          toBreak := false;
        }
      }
      assert found[..|found|] == found;
      assert cds[..i + 1] == cds[..i] + [cds[i]];
    }
    assert cds[..|cds|] == cds;
  }

  /** `check_common_hits` as written (lines 97-133). */
  method CheckCommonHitsAsWritten(cdsHits: HitDict, oldHits: HitDict, minDup: real) returns (toBreak: bool)
    ensures toBreak == BreaksAsWritten(cdsHits, oldHits)
  {
    var inCommon := cdsHits.Keys * oldHits.Keys;
    toBreak := true;
    var rest := inCommon;
    while rest != {}
      invariant rest <= inCommon
      invariant toBreak == forall t :: t in inCommon - rest ==> cdsHits[t] == []
      decreases |rest|
    {
      var t :| t in rest;
      var cdsHsps := cdsHits[t];
      ghost var before := toBreak;
      // A one-element list is truthy whatever it holds.
      if exists x :: x in cdsHsps {
        toBreak := false;
      }
      assert cdsHsps != [] ==> cdsHsps[0] in cdsHsps;
      toBreak := TargetLoop(toBreak, cdsHsps, oldHits[t], t, minDup);
      rest := rest - {t};
    }
  }

  /** `check_common_hits` as evidently intended: `any(len(search(...)) > 0 for ...)`. */
  method CheckCommonHits(cdsHits: HitDict, oldHits: HitDict, minDup: real) returns (toBreak: bool)
    ensures toBreak == Breaks(cdsHits, oldHits, minDup)
  {
    var inCommon := cdsHits.Keys * oldHits.Keys;
    toBreak := true;
    var rest := inCommon;
    while rest != {}
      invariant rest <= inCommon
      invariant toBreak == forall t :: t in inCommon - rest ==>
        QueriesApart(cdsHits[t], oldHits[t]) && TargetsDuplicated(cdsHits[t], oldHits[t], t, minDup)
      decreases |rest|
    {
      var t :| t in rest;
      var oldHsps, cdsHsps := oldHits[t], cdsHits[t];
      var oldQueries := Queries(oldHsps);
      if exists x :: x in cdsHsps && |Search(oldQueries, x.query)| > 0 {
        toBreak := false;
      }
      toBreak := TargetLoop(toBreak, cdsHsps, oldHsps, t, minDup);
      rest := rest - {t};
    }
  }

  /** Two ORFs that hit the same target on disjoint query and target regions (a tandem
      duplication) are split by the intended test but kept together as written. */
  lemma CommonHitsFinding()
    ensures var t := Target("protein", 100);
      var cds := map[t := [Hsp(Interval(1, 50), Interval(1, 50), 0.0, 90.0, "")]];
      var prior := map[t := [Hsp(Interval(101, 150), Interval(51, 100), 0.0, 90.0, "")]];
      Breaks(cds, prior, 0.5) && !BreaksAsWritten(cds, prior)
  {
    var t := Target("protein", 100);
    var c := [Hsp(Interval(1, 50), Interval(1, 50), 0.0, 90.0, "")];
    var o := [Hsp(Interval(101, 150), Interval(51, 100), 0.0, 90.0, "")];
    var cds, prior := map[t := c], map[t := o];
    assert Queries(o) == [Interval(101, 150)] && Targets(o) == [Interval(51, 100)];
    assert Search(Queries(o), c[0].query) == [];
    assert Search(Targets(o), c[0].target) == [];
    assert forall x :: x in c ==> x == c[0];
    assert QueriesApart(c, o);
    assert TargetsDuplicated(c, o, t, 0.5);
    forall u | u in cds && u in prior
      ensures QueriesApart(cds[u], prior[u]) && TargetsDuplicated(cds[u], prior[u], u, 0.5)
    {
      assert u == t;
    }
    assert t in cds && t in prior && cds[t] != [];
  }

  // ---------------------------------------------------------------------------------------
  // __get_boundaries_from_blast (lines 136-172)

  /** Whether the boundary with hits `cdsHits` starts a new group after the boundary with hits
      `oldHits` (lines 153-170). */
  predicate SplitsFrom(p: BlastParams, cdsHits: HitDict, oldHits: HitDict)
  {
    if |cdsHits| == 0 && |oldHits| == 0 then p.leniency != Stringent
    else if |cdsHits| == 0 || |oldHits| == 0 then p.leniency == Permissive
    else Breaks(cdsHits, oldHits, p.minOverlapDuplication)
  }

  /** Whether boundary `b` starts a new group after `prev`, both being keys of the table. */
  predicate Cut(table: map<Interval, HitDict>, p: BlastParams, prev: Interval, b: Interval)
  {
    prev in table && b in table && SplitsFrom(p, table[b], table[prev])
  }

  function Concat(gs: seq<seq<Interval>>): seq<Interval>
  {
    if gs == [] then [] else Concat(gs[..|gs| - 1]) + Last(gs)
  }

  /** One step of the grouping loop: `b` opens a new group, or joins the last one. */
  function Extend(gs: seq<seq<Interval>>, b: Interval, split: bool): (r: seq<seq<Interval>>)
    requires forall i :: 0 <= i < |gs| ==> gs[i] != []
    ensures Concat(r) == Concat(gs) + [b]
    ensures forall i :: 0 <= i < |r| ==> r[i] != []
  {
    if gs == [] || split then
      assert (gs + [[b]])[..|gs|] == gs;
      gs + [[b]]
    else
      var r := gs[..|gs| - 1] + [Last(gs) + [b]];
      assert r[..|r| - 1] == gs[..|gs| - 1];
      assert Concat(gs) == Concat(gs[..|gs| - 1]) + Last(gs);
      r
  }

  /** The groups `new_boundaries` built from the boundaries `bs` in order, where `cut(prev, b)`
      says whether `b` starts a new group after `prev`. */
  function Group(bs: seq<Interval>, cut: (Interval, Interval) -> bool): (gs: seq<seq<Interval>>)
    ensures Concat(gs) == bs
    ensures forall i :: 0 <= i < |gs| ==> gs[i] != []
    ensures bs != [] <==> gs != []
  {
    if bs == [] then []
    else
      var init := bs[..|bs| - 1];
      assert bs == init + [Last(bs)];
      var gs := Group(init, cut);
      Extend(gs, Last(bs), gs != [] && cut(Last(Last(gs)), Last(bs)))
  }

  /** Reading one more boundary extends the groups read so far. */
  lemma GroupStep(bs: seq<Interval>, i: nat, cut: (Interval, Interval) -> bool)
    requires i < |bs|
    ensures var gs := Group(bs[..i], cut);
      Group(bs[..i + 1], cut) == Extend(gs, bs[i], gs != [] && cut(Last(Last(gs)), bs[i]))
  {
    assert bs[..i + 1][..i] == bs[..i];
  }

  /** The last boundary of the last group is the last boundary read. */
  lemma GroupLast(bs: seq<Interval>, cut: (Interval, Interval) -> bool)
    requires bs != []
    ensures Last(Last(Group(bs, cut))) == Last(bs)
  {
    var gs := Group(bs, cut);
    assert Concat(gs) == Concat(gs[..|gs| - 1]) + Last(gs);
  }

  /** No neighbour pair inside a group is cut. */
  predicate UncutInside(gs: seq<seq<Interval>>, cut: (Interval, Interval) -> bool)
  {
    forall i, j :: 0 <= i < |gs| && 0 < j < |gs[i]| ==> !cut(gs[i][j - 1], gs[i][j])
  }

  /** The last boundary of each group and the first of the next are cut. */
  predicate CutBetween(gs: seq<seq<Interval>>, cut: (Interval, Interval) -> bool)
    requires forall i :: 0 <= i < |gs| ==> gs[i] != []
  {
    forall i :: 0 < i < |gs| ==> cut(Last(gs[i - 1]), gs[i][0])
  }

  /** Opening a new group keeps both properties when the new pair is cut. */
  lemma ExtendOpens(gs: seq<seq<Interval>>, b: Interval, cut: (Interval, Interval) -> bool)
    requires forall i :: 0 <= i < |gs| ==> gs[i] != []
    requires UncutInside(gs, cut) && CutBetween(gs, cut)
    requires gs != [] ==> cut(Last(Last(gs)), b)
    ensures UncutInside(gs + [[b]], cut) && CutBetween(gs + [[b]], cut)
  {
    var r := gs + [[b]];
    forall i | 0 < i < |r|
      ensures cut(Last(r[i - 1]), r[i][0])
    {
      if i < |gs| {
        assert r[i - 1] == gs[i - 1] && r[i] == gs[i];
      }
    }
  }

  /** Joining the last group keeps both properties when the new pair is not cut. */
  lemma ExtendJoins(gs: seq<seq<Interval>>, b: Interval, cut: (Interval, Interval) -> bool)
    requires forall i :: 0 <= i < |gs| ==> gs[i] != []
    requires UncutInside(gs, cut) && CutBetween(gs, cut)
    requires gs != [] && !cut(Last(Last(gs)), b)
    ensures var r := gs[..|gs| - 1] + [Last(gs) + [b]];
      UncutInside(r, cut) && CutBetween(r, cut)
  {
    var r := gs[..|gs| - 1] + [Last(gs) + [b]];
    assert forall i :: 0 <= i < |gs| - 1 ==> r[i] == gs[i];
    var l, g := r[|gs| - 1], gs[|gs| - 1];
    assert forall j :: 0 <= j < |g| ==> l[j] == g[j];
  }

  /** Inside a group no neighbour pair is cut; between consecutive groups the pair is cut.
      Together with `Concat(Group(..)) == bs` this characterises the grouping completely. */
  lemma {:induction false} GroupCuts(bs: seq<Interval>, cut: (Interval, Interval) -> bool)
    ensures UncutInside(Group(bs, cut), cut) && CutBetween(Group(bs, cut), cut)
  {
    if bs != [] {
      var init := bs[..|bs| - 1];
      var b := Last(bs);
      GroupCuts(init, cut);
      var gs := Group(init, cut);
      if gs == [] || cut(Last(Last(gs)), b) {
        ExtendOpens(gs, b, cut);
      } else {
        ExtendJoins(gs, b, cut);
      }
    }
  }

  /** The decision of lines 151-170 for boundary `b` read after `prev`. */
  method DecideSplit(table: map<Interval, HitDict>, p: BlastParams, prev: Interval, b: Interval)
    returns (split: bool)
    requires prev in table && b in table
    ensures split == SplitsFrom(p, table[b], table[prev])
  {
    var cdsHits, oldHits := table[b], table[prev];
    if |cdsHits| == 0 && |oldHits| == 0 {
      // No hit for either ORF: only STRINGENT keeps them together.
      split := p.leniency != Stringent;
    } else if (if |cdsHits| <= |oldHits| then |cdsHits| else |oldHits|) == 0 {
      // Hits for one ORF only: only PERMISSIVE splits.
      split := p.leniency == Permissive;
    } else {
      split := CheckCommonHits(cdsHits, oldHits, p.minOverlapDuplication);
    }
  }

  /** Groups the boundaries in order according to the BLAST evidence (lines 144-172). */
  method GetBoundaries(bs: seq<Interval>, table: map<Interval, HitDict>, p: BlastParams)
    returns (groups: seq<seq<Interval>>)
    requires forall b :: b in bs ==> b in table
    ensures groups == Group(bs, (prev, b) => Cut(table, p, prev, b))
  {
    ghost var cut := (prev, b) => Cut(table, p, prev, b);
    groups := [];
    for i := 0 to |bs|
      invariant groups == Group(bs[..i], cut)
    {
      var b := bs[i];
      GroupStep(bs, i, cut);
      if groups == [] {
        groups := [[b]];
      } else {
        var prevBoundary := Last(Last(groups));
        GroupLast(bs[..i], cut);
        var split := DecideSplit(table, p, prevBoundary, b);
        assert split == cut(prevBoundary, b);
        if split {
          groups := groups + [[b]];
        } else {
          groups := groups[..|groups| - 1] + [Last(groups) + [b]];
        }
      }
    }
    assert bs[..|bs|] == bs;
  }

  // ---------------------------------------------------------------------------------------
  // The final boundaries of check_split_by_blast (lines 67-80)

  /** `(boundary[0][0], boundary[-1][1])`: the span of a group, from its first start to its
      last end. */
  function GroupKey(g: seq<Interval>): Interval
    requires g != []
  {
    Interval(g[0].start, Last(g).end)
  }

  /** `cds_boundaries[b]`. */
  function OrfsAt(es: Table, b: Interval): seq<Orf>
  {
    if b in es.values then es.values[b] else []
  }

  /** The ORF lists of a group's boundaries, concatenated in order. */
  function GroupOrfs(es: Table, g: seq<Interval>): seq<Orf>
  {
    if g == [] then [] else GroupOrfs(es, g[..|g| - 1]) + OrfsAt(es, Last(g))
  }

  /** A merged group carries exactly the ORFs stored under its boundaries. */
  lemma {:induction false} GroupOrfsMembers(es: Table, g: seq<Interval>)
    ensures forall o :: o in GroupOrfs(es, g) <==> exists b :: b in g && o in OrfsAt(es, b)
  {
    if g != [] {
      var init := g[..|g| - 1];
      GroupOrfsMembers(es, init);
      assert forall b :: b in g <==> b in init || b == Last(g);
    }
  }

  /** `final_boundaries` after the first `n` groups of `gs`: each group stores its ORFs under
      its span, a later group with the same span replacing an earlier one in place. */
  function Merged(es: Table, gs: seq<seq<Interval>>, n: nat): Table
    requires n <= |gs| && forall i :: 0 <= i < |gs| ==> gs[i] != []
  {
    if n == 0 then Empty else Put(Merged(es, gs, n - 1), GroupKey(gs[n - 1]), GroupOrfs(es, gs[n - 1]))
  }

  /** Group `i` is the last among the first `n` groups whose span is `k`. */
  predicate LastWithKey(gs: seq<seq<Interval>>, n: nat, i: int, k: Interval)
    requires n <= |gs| && forall i :: 0 <= i < |gs| ==> gs[i] != []
  {
    0 <= i < n && GroupKey(gs[i]) == k && forall j :: i < j < n ==> GroupKey(gs[j]) != k
  }

  lemma LastWithKeyExtends(gs: seq<seq<Interval>>, n: nat, i: int, k: Interval)
    requires 0 < n <= |gs| && forall i :: 0 <= i < |gs| ==> gs[i] != []
    requires LastWithKey(gs, n - 1, i, k) && GroupKey(gs[n - 1]) != k
    ensures LastWithKey(gs, n, i, k)
  {
  }

  /** The ORFs of the last group among the first `n` whose span is `k`, if any. */
  function LastKeyed(es: Table, gs: seq<seq<Interval>>, n: nat, k: Interval): (r: Option<seq<Orf>>)
    requires n <= |gs| && forall i :: 0 <= i < |gs| ==> gs[i] != []
    ensures r.None? <==> forall i :: 0 <= i < n ==> GroupKey(gs[i]) != k
    ensures r.Some? ==> exists i :: LastWithKey(gs, n, i, k) && r.value == GroupOrfs(es, gs[i])
  {
    if n == 0 then None
    else if GroupKey(gs[n - 1]) == k then
      assert LastWithKey(gs, n, n - 1, k);
      Some(GroupOrfs(es, gs[n - 1]))
    else
      var r := LastKeyed(es, gs, n - 1, k);
      assert r.Some? ==> exists i :: LastWithKey(gs, n, i, k) && r.value == GroupOrfs(es, gs[i]) by {
        if r.Some? {
          var i :| LastWithKey(gs, n - 1, i, k) && r.value == GroupOrfs(es, gs[i]);
          LastWithKeyExtends(gs, n, i, k);
        }
      }
      r
  }

  /** `final_boundaries` is a well-formed table. */
  lemma {:induction false} MergedValid(es: Table, gs: seq<seq<Interval>>, n: nat)
    requires n <= |gs| && forall i :: 0 <= i < |gs| ==> gs[i] != []
    ensures Valid(Merged(es, gs, n))
  {
    if n > 0 {
      var m := n - 1;
      MergedValid(es, gs, m);
      var t, key, orfs := Merged(es, gs, m), GroupKey(gs[m]), GroupOrfs(es, gs[m]);
      PutValid(t, key, orfs);
    }
  }

  /** Each span of `final_boundaries` holds the ORFs of the last group with that span, and the
      spans are exactly those of the groups. */
  lemma {:induction false} MergedLookup(es: Table, gs: seq<seq<Interval>>, n: nat, k: Interval)
    requires n <= |gs| && forall i :: 0 <= i < |gs| ==> gs[i] != []
    ensures LastKeyed(es, gs, n, k) == if k in Merged(es, gs, n).values then Some(Merged(es, gs, n).values[k]) else None
  {
    if n > 0 {
      var m := n - 1;
      MergedLookup(es, gs, m, k);
      var t, key, orfs := Merged(es, gs, m), GroupKey(gs[m]), GroupOrfs(es, gs[m]);
      assert Merged(es, gs, n) == Put(t, key, orfs);
      assert LastKeyed(es, gs, n, k) == if key == k then Some(orfs) else LastKeyed(es, gs, m, k);
      if key != k {
        assert (k in Put(t, key, orfs).values) == (k in t.values);
      }
    }
  }

  /** Builds `final_boundaries` from the groups (lines 67-77). */
  method MergeGroups(es: Table, gs: seq<seq<Interval>>) returns (final: Table)
    requires forall i :: 0 <= i < |gs| ==> gs[i] != []
    ensures final == Merged(es, gs, |gs|)
  {
    final := Empty;
    for i := 0 to |gs|
      invariant final == Merged(es, gs, i)
    {
      var boundary := gs[i];
      if |boundary| == 1 {
        assert GroupOrfs(es, boundary) == OrfsAt(es, boundary[0]) by {
          assert boundary[..0] == [];
        }
        final := Put(final, boundary[0], OrfsAt(es, boundary[0]));
      } else {
        var nboun := Interval(boundary[0].start, boundary[|boundary| - 1].end);
        var orfs := [];
        for j := 0 to |boundary|
          invariant orfs == GroupOrfs(es, boundary[..j])
        {
          assert boundary[..j + 1][..j] == boundary[..j];
          orfs := orfs + OrfsAt(es, boundary[j]);
        }
        assert boundary[..|boundary|] == boundary;
        final := Put(final, nboun, orfs);
      }
    }
  }

  /** `check_split_by_blast`: the table of supporting HSPs, the grouping of neighbouring
      boundaries it drives, and the merged boundaries (lines 11-80). */
  method CheckSplitByBlast(es: Table, hits: seq<Hit>, p: BlastParams) returns (final: Table)
    requires Valid(es)
    ensures var gs := Group(es.keys, (prev, b) => Cut(TableOf(es, hits, p), p, prev, b));
      final == Merged(es, gs, |gs|)
  {
    var table := HitTable(es, hits, p);
    var groups := GetBoundaries(es.keys, table, p);
    final := MergeGroups(es, groups);
  }
}
