/** The locus of `Mikado/loci/locus.py`: a primary transcript plus the alternative-splicing
    isoforms admitted next to it, their pruning by score and by retained introns, the padding
    of transcript ends shared with other isoforms, and the renaming of the locus. */
module LocusAssembly {
  import opened Intervals
  import opened Optional
  import opened LociTranscript
  import Sorting
  import Text

  /** The `["pick"]["alternative_splicing"]` settings the locus reads, with
      `["pick"]["output_format"]["report_all_orfs"]`. */
  datatype SplicingConf = SplicingConf(
    onlyConfirmedIntrons: bool,
    validCcodes: set<string>, redundantCcodes: set<string>,
    minCdnaOverlap: real,
    maxUtr: int, maxFiveUtr: int, maxThreeUtr: int,
    minCdsOverlap: real,
    maxIsoforms: int, minScorePerc: real,
    keepRetainedIntrons: bool, pad: bool,
    tsDistance: int, tsMaxSplices: int,
    reportAllOrfs: bool)

  /** What `Assigner.compare(other, reference)` yields that the locus reads: the first class
      code and the first `n_recall` value. */
  datatype Comparison = Comparison(ccode: string, nRecall: real)

  datatype Error = KeyError(key: string) | IndexError

  // ---------------------------------------------------------------- admission checks

  /** The introns of `t` that the primary lacks and that no external tool verified. */
  function Unconfirmed(t: Tx, primary: Tx): (r: set<Interval>)
    ensures forall iv :: iv in r <==> iv in t.introns && iv !in primary.introns && iv !in t.verifiedIntrons
  {
    t.introns - primary.introns - t.verifiedIntrons
  }

  /** `combined_cds_length`. */
  function CdsLength(t: Tx): int
  {
    TotalLength(t.combinedCds)
  }

  /** The coding bases `t` shares with `primary`. */
  function SharedCds(t: Tx, primary: Tx): nat
  {
    |Positions(t.combinedCds) * Positions(primary.combinedCds)|
  }

  /** The CDS-overlap check: with a positive minimum and a coding primary, the fraction of
      the primary's coding bases that `t` shares must reach the minimum. */
  predicate CdsOverlapTooLow(conf: SplicingConf, t: Tx, primary: Tx)
  {
    && conf.minCdsOverlap > 0.0
    && CdsLength(primary) > 0
    && (SharedCds(t, primary) as real) / (CdsLength(primary) as real) < conf.minCdsOverlap
  }

  /** `is_alternative_splicing`: the class code against the primary is a valid one, and the
      class code against no other transcript of the locus is a redundant one. */
  predicate IsAlternative(conf: SplicingConf, compare: (Tx, Tx) -> Comparison,
                          ts: map<string, Tx>, primaryId: string, other: Tx)
    requires primaryId in ts
  {
    && compare(other, ts[primaryId]).ccode in conf.validCcodes
    && forall tid :: tid in ts && tid != primaryId && tid != other.id ==>
         compare(other, ts[tid]).ccode !in conf.redundantCcodes
  }

  /** Every check of `add_transcript_to_locus` passes. */
  predicate Admitted(conf: SplicingConf, compare: (Tx, Tx) -> Comparison, strand: Option<Strand>,
                     ts: map<string, Tx>, primaryId: string, t: Tx)
    requires primaryId in ts
  {
    var primary := ts[primaryId];
    && (conf.onlyConfirmedIntrons ==> Unconfirmed(t, primary) == {})
    && t.strand == strand
    && IsAlternative(conf, compare, ts, primaryId, t)
    && !(conf.minCdnaOverlap > 0.0 && compare(t, primary).nRecall < conf.minCdnaOverlap)
    && t.utrLength <= conf.maxUtr
    && t.fiveUtr <= conf.maxFiveUtr
    && t.threeUtr <= conf.maxThreeUtr
    && !CdsOverlapTooLow(conf, t, primary)
  }

  // ---------------------------------------------------------------- scores

  function Sum(s: seq<real>): real
  {
    if s == [] then 0.0 else Sum(s[..|s| - 1]) + s[|s| - 1]
  }

  /** The id `calculate_metrics` gives the `k`-th copy of `tid` made for its `k`-th ORF. */
  function CloneId(tid: string, k: nat): string
  {
    tid + ".orf" + Text.Decimal(k)
  }

  /** The ids of the copies made for a transcript with `n` internal ORFs: none with at most
      one ORF, else one per ORF. */
  function CloneIds(tid: string, n: nat): (r: set<string>)
    ensures n <= 1 ==> r == {}
    ensures forall k :: 1 <= k <= n && n > 1 ==> CloneId(tid, k) in r
    ensures forall c :: c in r ==> exists k :: 1 <= k <= n && c == CloneId(tid, k)
  {
    if n <= 1 then {} else set k | 1 <= k <= n :: CloneId(tid, k)
  }

  /** `__orf_doubles` after `get_metrics` has copied each transcript of `keys` with more than
      one ORF (only when all ORFs are reported). */
  function Doubled(d: map<string, set<string>>, keys: seq<string>, ts: map<string, Tx>,
                   reportAll: bool, orfCount: Tx -> nat): map<string, set<string>>
  {
    if keys == [] then d
    else
      var d1 := Doubled(d, keys[..|keys| - 1], ts, reportAll, orfCount);
      var tid := keys[|keys| - 1];
      if reportAll && tid in ts && orfCount(ts[tid]) > 1 then
        d1[tid := (if tid in d1 then d1[tid] else {}) + CloneIds(tid, orfCount(ts[tid]))]
      else d1
  }

  /** Every id recorded as an ORF copy. */
  function AllClones(d: map<string, set<string>>): (r: set<string>)
    ensures forall c :: c in r <==> exists k :: k in d && c in d[k]
  {
    set k, c | k in d && c in d[k] :: c
  }

  /** The recorded copies of a transcript are its earlier copies plus one per ORF. */
  lemma {:induction false} DoubledEntries(d: map<string, set<string>>, keys: seq<string>, ts: map<string, Tx>,
                                          reportAll: bool, orfCount: Tx -> nat, tid: string)
    requires Distinct(keys)
    ensures var r := Doubled(d, keys, ts, reportAll, orfCount);
      tid in r <==> tid in d || (reportAll && tid in keys && tid in ts && orfCount(ts[tid]) > 1)
    ensures var r := Doubled(d, keys, ts, reportAll, orfCount);
      tid in r ==>
        r[tid] == (if tid in d then d[tid] else {})
                  + (if reportAll && tid in keys && tid in ts then CloneIds(tid, orfCount(ts[tid])) else {})
  {
    if keys != [] {
      var init := keys[..|keys| - 1];
      assert Distinct(init);
      DoubledEntries(d, init, ts, reportAll, orfCount, tid);
      assert keys == init + [keys[|keys| - 1]];
    }
  }

  // ---------------------------------------------------------------- isoform selection

  /** `[tid for tid in transcripts if tid != primary]`, as transcripts. */
  function Others(order: seq<string>, ts: map<string, Tx>, primaryId: string): seq<Tx>
    requires forall k :: k in order ==> k in ts
  {
    if order == [] then []
    else
      var init := Others(order[..|order| - 1], ts, primaryId);
      var tid := order[|order| - 1];
      if tid == primaryId then init else init + [ts[tid]]
  }

  /** The keys `Others` lists are exactly the non-primary keys. */
  lemma {:induction false} OthersMembers(order: seq<string>, ts: map<string, Tx>, primaryId: string)
    requires Keyed(order, ts)
    ensures forall t :: t in Others(order, ts, primaryId) ==> t.id in ts && t.id != primaryId && ts[t.id] == t
    ensures forall k :: k in ts && k != primaryId ==> ts[k] in Others(order, ts, primaryId)
  {
    OthersFrom(order, ts, primaryId);
  }

  lemma {:induction false} OthersFrom(order: seq<string>, ts: map<string, Tx>, primaryId: string)
    requires forall k :: k in order ==> k in ts
    requires forall k :: k in ts ==> ts[k].id == k
    ensures forall t :: t in Others(order, ts, primaryId) ==> t.id in order && t.id != primaryId && ts[t.id] == t
    ensures forall k :: k in order && k != primaryId ==> ts[k] in Others(order, ts, primaryId)
  {
    if order != [] {
      var init := order[..|order| - 1];
      OthersFrom(init, ts, primaryId);
      assert order == init + [order[|order| - 1]];
    }
  }

  /** The order `sorted(..., key=score, reverse=True)` gives: highest score first. */
  predicate ScoreGe(a: Tx, b: Tx)
  {
    a.score >= b.score
  }

  /** The set `to_keep` the first loop of `finalize_alternative_splicing` builds from
      position `i` on, starting from `acc`: it stops when the set holds `cap` ids or at the
      first score below the threshold. */
  function Kept(ranked: seq<Tx>, threshold: real, cap: int, i: nat, acc: set<string>): set<string>
    requires i <= |ranked|
    decreases |ranked| - i
  {
    if i == |ranked| || |acc| == cap || ranked[i].score < threshold then acc
    else Kept(ranked, threshold, cap, i + 1, acc + {ranked[i].id})
  }

  /** The ids of the ranked transcripts that reach the threshold. */
  function Above(ranked: seq<Tx>, threshold: real): (r: set<string>)
    ensures forall j :: 0 <= j < |ranked| && ranked[j].score >= threshold ==> ranked[j].id in r
  {
    set j | 0 <= j < |ranked| && ranked[j].score >= threshold :: ranked[j].id
  }

  /** The loop only adds ids of transcripts that reach the threshold. */
  lemma {:induction false} KeptAbove(ranked: seq<Tx>, threshold: real, cap: int, i: nat, acc: set<string>)
    requires i <= |ranked|
    ensures acc <= Kept(ranked, threshold, cap, i, acc) <= acc + Above(ranked, threshold)
    decreases |ranked| - i
  {
    if !(i == |ranked| || |acc| == cap || ranked[i].score < threshold) {
      KeptAbove(ranked, threshold, cap, i + 1, acc + {ranked[i].id});
    }
  }

  /** Starting from at most `cap` ids, the loop never holds more than `cap`. */
  lemma {:induction false} KeptCapped(ranked: seq<Tx>, threshold: real, cap: int, i: nat, acc: set<string>)
    requires i <= |ranked| && |acc| <= cap
    ensures |Kept(ranked, threshold, cap, i, acc)| <= cap
    decreases |ranked| - i
  {
    if !(i == |ranked| || |acc| == cap || ranked[i].score < threshold) {
      KeptCapped(ranked, threshold, cap, i + 1, acc + {ranked[i].id});
    }
  }

  /** On a list ranked by descending score, a loop that did not fill the set kept every
      transcript reaching the threshold. */
  lemma {:induction false} KeptComplete(ranked: seq<Tx>, threshold: real, cap: int, i: nat, acc: set<string>)
    requires i <= |ranked|
    requires Sorting.SortedBy(ranked, ScoreGe)
    ensures var r := Kept(ranked, threshold, cap, i, acc);
      |r| != cap ==> forall j :: i <= j < |ranked| && ranked[j].score >= threshold ==> ranked[j].id in r
    decreases |ranked| - i
  {
    if !(i == |ranked| || |acc| == cap || ranked[i].score < threshold) {
      KeptComplete(ranked, threshold, cap, i + 1, acc + {ranked[i].id});
      KeptAbove(ranked, threshold, cap, i + 1, acc + {ranked[i].id});
    }
  }

  // ---------------------------------------------------------------- padding

  /** The target of `pad_transcripts` for one transcript: a new start and a new end, where 0
      stands for Python's `False` (no padding on that side). */
  datatype Pad = Pad(start: int, end: int)

  /** `__share_extreme`: the first (or last) exons overlap and the starts (or ends) lie
      closer than `ts_distance`. */
  predicate ShareExtreme(conf: SplicingConf, first: Tx, second: Tx, threePrime: bool)
    requires first.exons != [] && second.exons != []
  {
    if !threePrime then
      && Overlap(first.exons[0], second.exons[0]) > 0
      && Max(first.start, second.start) + 1 - Min(first.start, second.start) < conf.tsDistance
    else
      && Overlap(first.exons[|first.exons| - 1], second.exons[|second.exons| - 1]) > 0
      && Max(first.end, second.end) + 1 - Min(first.end, second.end) < conf.tsDistance
  }

  /** The relation is symmetric, so the graphs built from it are undirected. */
  lemma ShareExtremeSymmetric(conf: SplicingConf, a: Tx, b: Tx, threePrime: bool)
    requires a.exons != [] && b.exons != []
    ensures ShareExtreme(conf, a, b, threePrime) == ShareExtreme(conf, b, a, threePrime)
  {
    OverlapSymmetric(a.exons[0], b.exons[0]);
    OverlapSymmetric(a.exons[|a.exons| - 1], b.exons[|b.exons| - 1]);
  }

  /** The splice sites between two positions, both included. */
  function SplicesBetween(splices: set<int>, lo: int, hi: int): set<int>
  {
    set s | s in splices && lo <= s <= hi
  }

  /** A transcript whose start lies after `commStart` is padded to it when the distance is
      below `ts_distance` and fewer than `ts_max_splices` splice sites lie in between. */
  predicate FiveOk(conf: SplicingConf, splices: set<int>, t: Tx, commStart: int)
  {
    && t.start - commStart + 1 < conf.tsDistance
    && |SplicesBetween(splices, commStart, t.start)| < conf.tsMaxSplices
    && t.start > commStart
  }

  /** The same test at the 3' end, against the latest end `commEnd`. The distance is taken
      as `t.end - commEnd + 1`, as in the source; with `t.end < commEnd` it is never positive,
      so, unlike the 5' test, a positive `ts_distance` never rejects a 3' extension. */
  predicate ThreeOk(conf: SplicingConf, splices: set<int>, t: Tx, commEnd: int)
  {
    && t.end - commEnd + 1 < conf.tsDistance
    && |SplicesBetween(splices, t.end, commEnd)| < conf.tsMaxSplices
    && t.end < commEnd
  }

  /** Every recorded target satisfies the test of its side. */
  predicate PadsJustified(conf: SplicingConf, splices: set<int>, ts: map<string, Tx>, pads: map<string, Pad>)
  {
    forall tid :: tid in pads ==>
      && tid in ts
      && (pads[tid].start == 0 || FiveOk(conf, splices, ts[tid], pads[tid].start))
      && (pads[tid].end == 0 || ThreeOk(conf, splices, ts[tid], pads[tid].end))
  }

  /** The members of `comm` not yet padded, ordered by start (`byEnd`: by end, latest first). */
  function Pending(comm: seq<string>, found: set<string>, ts: map<string, Tx>, byEnd: bool): (r: seq<string>)
    ensures |r| <= |comm|
    ensures forall x :: x in r <==> x in comm && x !in found
  {
    var left := Unfound(comm, found);
    Sorting.SortPermutes(left, PadOrder(ts, byEnd));
    assert forall x :: x in Sorting.Sort(left, PadOrder(ts, byEnd)) <==> x in multiset(left);
    Sorting.Sort(left, PadOrder(ts, byEnd))
  }

  function PadOrder(ts: map<string, Tx>, byEnd: bool): (string, string) -> bool
  {
    (a: string, b: string) =>
      a in ts && b in ts && (if byEnd then ts[a].end >= ts[b].end else ts[a].start <= ts[b].start)
  }

  /** The members of `comm` not in `found`, in order. */
  function Unfound(comm: seq<string>, found: set<string>): (r: seq<string>)
    ensures |r| <= |comm|
    ensures forall x :: x in r <==> x in comm && x !in found
  {
    if comm == [] then []
    else
      var init := Unfound(comm[..|comm| - 1], found);
      var x := comm[|comm| - 1];
      assert forall y :: y in comm <==> y in comm[..|comm| - 1] || y == x;
      if x in found then init else init + [x]
  }

  /** The size the padding loops shrink: every queued community plus one for each. */
  function Weight(queue: seq<seq<string>>): nat
  {
    if queue == [] then 0 else |queue[0]| + 1 + Weight(queue[1..])
  }

  /** The transcript after `pad_transcripts` moved its ends: the first exon starts at the new
      start, the last exon ends at the new end. */
  function PadTx(t: Tx, p: Pad): (r: Tx)
    requires t.exons != []
    ensures r.exons != [] && |r.exons| == |t.exons|
  {
    var t1 := if p.start != 0 then t.(start := p.start, exons := t.exons[0 := Interval(p.start, t.exons[0].end)]) else t;
    var n := |t1.exons| - 1;
    if p.end != 0 then t1.(end := p.end, exons := t1.exons[n := Interval(t1.exons[n].start, p.end)]) else t1
  }

  /** Padding only moves the start earlier and the end later, touches only the first and
      last exons, and keeps the rest of the transcript. */
  lemma PadTxMoves(conf: SplicingConf, splices: set<int>, t: Tx, p: Pad)
    requires t.exons != []
    requires p.start == 0 || FiveOk(conf, splices, t, p.start)
    requires p.end == 0 || ThreeOk(conf, splices, t, p.end)
    ensures var r := PadTx(t, p);
      && r.start <= t.start && r.end >= t.end
      && (p.start != 0 ==> r.start == p.start && r.exons[0].start == p.start)
      && (p.end != 0 ==> r.end == p.end && r.exons[|r.exons| - 1].end == p.end)
      && (forall i :: 0 < i < |t.exons| - 1 ==> r.exons[i] == t.exons[i])
      && r.id == t.id && r.introns == t.introns && r.strand == t.strand && r.score == t.score
  {
  }

  // ---------------------------------------------------------------- renaming

  /** `"{0}.{1}".format(name, k)`. */
  function NumberedId(name: string, k: nat): string
  {
    name + "." + Text.Decimal(k)
  }

  /** The transcripts in the order the id setter numbers them: the primary first, then the
      others sorted by position. */
  function Ranked(order: seq<string>, ts: map<string, Tx>, primaryId: string): seq<Tx>
    requires Keyed(order, ts) && primaryId in ts
  {
    [ts[primaryId]] + Sorting.Sort(Others(order, ts, primaryId), TxLe)
  }

  /** Each ranked transcript renamed `<name>.<position>`, its old id kept as `Alias`. */
  function Renumbered(name: string, ranked: seq<Tx>): (r: seq<Tx>)
    ensures |r| == |ranked|
  {
    if ranked == [] then []
    else
      var n := |ranked| - 1;
      Renumbered(name, ranked[..n]) + [ranked[n].(id := NumberedId(name, n + 1), alias := Some(ranked[n].id))]
  }

  lemma {:induction false} RenumberedAt(name: string, ranked: seq<Tx>, i: nat)
    requires i < |ranked|
    ensures var r := Renumbered(name, ranked);
      r[i] == ranked[i].(id := NumberedId(name, i + 1), alias := Some(ranked[i].id))
  {
    if i < |ranked| - 1 {
      RenumberedAt(name, ranked[..|ranked| - 1], i);
    }
  }

  /** The ids of a list of transcripts, in order. */
  function Ids(r: seq<Tx>): (ids: seq<string>)
    ensures |ids| == |r|
  {
    if r == [] then [] else Ids(r[..|r| - 1]) + [r[|r| - 1].id]
  }

  /** The dict holding each transcript of `r` under its id. */
  function Dict(r: seq<Tx>): map<string, Tx>
  {
    if r == [] then map[] else Dict(r[..|r| - 1])[r[|r| - 1].id := r[|r| - 1]]
  }

  lemma {:induction false} IdsAt(r: seq<Tx>, i: nat)
    requires i < |r|
    ensures Ids(r)[i] == r[i].id
  {
    if i < |r| - 1 {
      IdsAt(r[..|r| - 1], i);
    }
  }

  lemma {:induction false} DictHas(r: seq<Tx>, i: nat)
    requires forall a, b :: 0 <= a < b < |r| ==> r[a].id != r[b].id
    requires i < |r|
    ensures r[i].id in Dict(r) && Dict(r)[r[i].id] == r[i]
  {
    var n := |r| - 1;
    if i < n {
      DictHas(r[..n], i);
      assert r[..n][i] == r[i];
      assert r[n].id != r[i].id;
    }
  }

  lemma {:induction false} DictOnly(r: seq<Tx>, k: string)
    requires k in Dict(r)
    ensures exists i :: 0 <= i < |r| && r[i].id == k
  {
    var n := |r| - 1;
    if k != r[n].id {
      DictOnly(r[..n], k);
      var i :| 0 <= i < n && r[..n][i].id == k;
      assert r[i].id == k;
    }
  }

  /** A list whose ids are all different becomes a dict keyed by those ids. */
  lemma DictKeyed(r: seq<Tx>)
    requires forall i, j :: 0 <= i < j < |r| ==> r[i].id != r[j].id
    ensures Keyed(Ids(r), Dict(r))
    ensures forall i :: 0 <= i < |r| ==> r[i].id in Dict(r) && Dict(r)[r[i].id] == r[i]
  {
    var ids := Ids(r);
    forall i | 0 <= i < |r|
      ensures ids[i] == r[i].id && r[i].id in Dict(r) && Dict(r)[r[i].id] == r[i]
    {
      IdsAt(r, i);
      DictHas(r, i);
    }
    forall k | k in Dict(r)
      ensures k in ids && Dict(r)[k].id == k
    {
      DictOnly(r, k);
      var i :| 0 <= i < |r| && r[i].id == k;
      assert ids[i] == k;
    }
    assert Distinct(ids);
  }

  lemma NumberedIdInjective(name: string, a: nat, b: nat)
    requires NumberedId(name, a) == NumberedId(name, b)
    ensures a == b
  {
    Text.SuffixedInjective(name, ".", a, b);
  }

  /** `Others` lists each non-primary transcript once. */
  lemma {:induction false} OthersCount(order: seq<string>, ts: map<string, Tx>, primaryId: string)
    requires forall k :: k in order ==> k in ts
    requires Distinct(order)
    ensures |Others(order, ts, primaryId)| == if primaryId in order then |order| - 1 else |order|
  {
    if order != [] {
      var init := order[..|order| - 1];
      OthersCount(init, ts, primaryId);
      assert order == init + [order[|order| - 1]];
    }
  }

  /** The ranked list holds the dict's transcripts, the primary first. */
  lemma RankedMembers(order: seq<string>, ts: map<string, Tx>, primaryId: string)
    requires Keyed(order, ts) && primaryId in ts
    ensures var ranked := Ranked(order, ts, primaryId);
      && |ranked| == |order|
      && ranked[0] == ts[primaryId]
      && (forall i :: 0 <= i < |ranked| ==> ranked[i].id in ts && ts[ranked[i].id] == ranked[i])
  {
    var others := Others(order, ts, primaryId);
    var sorted := Sorting.Sort(others, TxLe);
    var ranked := Ranked(order, ts, primaryId);
    OthersCount(order, ts, primaryId);
    OthersMembers(order, ts, primaryId);
    Sorting.SortPermutes(others, TxLe);
    forall i | 0 < i < |ranked|
      ensures ranked[i].id in ts && ts[ranked[i].id] == ranked[i]
    {
      assert ranked[i] == sorted[i - 1];
      assert sorted[i - 1] in multiset(others);
    }
  }

  /** Every transcript of the dict is ranked. */
  lemma RankedCovers(order: seq<string>, ts: map<string, Tx>, primaryId: string, k: string)
    requires Keyed(order, ts) && primaryId in ts && k in ts
    ensures exists i :: 0 <= i < |Ranked(order, ts, primaryId)| && Ranked(order, ts, primaryId)[i].id == k
  {
    var others := Others(order, ts, primaryId);
    var sorted := Sorting.Sort(others, TxLe);
    var ranked := Ranked(order, ts, primaryId);
    if k == primaryId {
      assert ranked[0].id == k;
    } else {
      OthersMembers(order, ts, primaryId);
      InSorted(ts[k], others, TxLe);
      var j :| 0 <= j < |sorted| && sorted[j] == ts[k];
      assert ranked[j + 1] == sorted[j];
    }
  }

  lemma InSorted<T>(x: T, s: seq<T>, le: (T, T) -> bool)
    requires x in s
    ensures exists j :: 0 <= j < |Sorting.Sort(s, le)| && Sorting.Sort(s, le)[j] == x
  {
    Sorting.SortPermutes(s, le);
    assert x in multiset(Sorting.Sort(s, le));
  }

  /** After the primary, the ranked transcripts come in position order. */
  lemma RankedSorted(order: seq<string>, ts: map<string, Tx>, primaryId: string)
    requires Keyed(order, ts) && primaryId in ts
    ensures var ranked := Ranked(order, ts, primaryId);
      forall i, j :: 1 <= i < j < |ranked| ==> TxLe(ranked[i], ranked[j])
  {
    TxLeIsTotalPreorder();
    Sorting.SortSorted(Others(order, ts, primaryId), TxLe);
  }

  /** The renamed transcripts carry the ids `<name>.1`, `<name>.2`, ... and make a
      well-formed dict. */
  lemma RenamedKeyed(order: seq<string>, ts: map<string, Tx>, primaryId: string, name: string)
    requires Keyed(order, ts) && primaryId in ts
    ensures var r := Renumbered(name, Ranked(order, ts, primaryId));
      && |r| == |order|
      && (forall i :: 0 <= i < |r| ==> r[i].id == NumberedId(name, i + 1))
      && Keyed(Ids(r), Dict(r))
      && (forall i :: 0 <= i < |r| ==> r[i].id in Dict(r) && Dict(r)[r[i].id] == r[i])
  {
    var ranked := Ranked(order, ts, primaryId);
    var r := Renumbered(name, ranked);
    RankedMembers(order, ts, primaryId);
    forall i | 0 <= i < |r|
      ensures r[i].id == NumberedId(name, i + 1)
    {
      RenumberedAt(name, ranked, i);
    }
    forall i, j | 0 <= i < j < |r|
      ensures r[i].id != r[j].id
    {
      if r[i].id == r[j].id {
        NumberedIdInjective(name, i + 1, j + 1);
      }
    }
    DictKeyed(r);
  }

  /** The renamed primary is stored under `<name>.1`, with its old id as alias. */
  lemma RenamedPrimary(order: seq<string>, ts: map<string, Tx>, primaryId: string, name: string)
    requires Keyed(order, ts) && primaryId in ts
    ensures var r := Renumbered(name, Ranked(order, ts, primaryId));
      && NumberedId(name, 1) in Dict(r)
      && Dict(r)[NumberedId(name, 1)] == ts[primaryId].(id := NumberedId(name, 1), alias := Some(primaryId))
  {
    var ranked := Ranked(order, ts, primaryId);
    var r := Renumbered(name, ranked);
    RenamedKeyed(order, ts, primaryId, name);
    RankedMembers(order, ts, primaryId);
    RenumberedAt(name, ranked, 0);
  }

  /** The aliases of the renamed transcripts are exactly the old ids. */
  lemma RenamedAliases(order: seq<string>, ts: map<string, Tx>, primaryId: string, name: string, k: string)
    requires Keyed(order, ts) && primaryId in ts
    ensures var r := Renumbered(name, Ranked(order, ts, primaryId));
      k in ts <==> exists i :: 0 <= i < |r| && r[i].alias == Some(k)
  {
    var ranked := Ranked(order, ts, primaryId);
    var r := Renumbered(name, ranked);
    RankedMembers(order, ts, primaryId);
    if k in ts {
      RankedCovers(order, ts, primaryId, k);
      var i :| 0 <= i < |ranked| && ranked[i].id == k;
      RenumberedAt(name, ranked, i);
    }
    forall i | 0 <= i < |r| && r[i].alias == Some(k)
      ensures k in ts
    {
      RenumberedAt(name, ranked, i);
    }
  }

  /** After the primary, the renamed transcripts come in position order. */
  lemma RenamedSorted(order: seq<string>, ts: map<string, Tx>, primaryId: string, name: string)
    requires Keyed(order, ts) && primaryId in ts
    ensures var r := Renumbered(name, Ranked(order, ts, primaryId));
      forall i, j :: 1 <= i < j < |r| ==> TxLe(r[i], r[j])
  {
    var ranked := Ranked(order, ts, primaryId);
    var r := Renumbered(name, ranked);
    RankedSorted(order, ts, primaryId);
    forall i, j | 1 <= i < j < |r|
      ensures TxLe(r[i], r[j])
    {
      RenumberedAt(name, ranked, i);
      RenumberedAt(name, ranked, j);
    }
  }

  /** Python's `d[k] = v`: a new key goes last, an existing key keeps its place. */
  function DictSet(order: seq<string>, ts: map<string, Tx>, k: string, v: Tx): (seq<string>, map<string, Tx>)
  {
    (if k in ts then order else order + [k], ts[k := v])
  }

  /** The renaming loop of the `id` setter as written: each transcript in turn is popped from
      the dict and stored again under its new id, so a new id that is still the key of a
      transcript not yet renamed overwrites it. `None` is the `KeyError` raised when a key to
      rename has already gone. */
  function PopRenaming(order: seq<string>, ts: map<string, Tx>, keys: seq<string>, name: string, counter: nat)
    : Option<(seq<string>, map<string, Tx>)>
    decreases |keys|
  {
    if keys == [] then Some((order, ts))
    else
      var tid := keys[0];
      if tid !in ts then None
      else
        var t := ts[tid].(alias := Some(tid), id := NumberedId(name, counter));
        var (o, m) := DictSet(Without(order, {tid}), ts - {tid}, t.id, t);
        PopRenaming(o, m, keys[1..], name, counter + 1)
  }

  /** The keys of `order` other than `k`, ordered by their transcripts' positions. */
  function SortedKeysExcept(order: seq<string>, ts: map<string, Tx>, k: string): seq<string>
  {
    Sorting.Sort(Without(order, {k}), (a: string, b: string) => a in ts && b in ts && TxLe(ts[a], ts[b]))
  }

  /** The `id` setter as written: the renamed primary is stored under `<name>.1`, then the
      entry under its old id is deleted, then the others are popped and stored again one by
      one. Yields the new key order, dict and primary id. */
  function RenameInPlace(order: seq<string>, ts: map<string, Tx>, primaryId: string, name: string)
    : Option<(seq<string>, map<string, Tx>, string)>
    requires primaryId in ts
  {
    var pid := NumberedId(name, 1);
    var (o1, m1) := DictSet(order, ts, pid, ts[primaryId].(alias := Some(ts[primaryId].id), id := pid));
    var o2, m2 := Without(o1, {primaryId}), m1 - {primaryId};
    var r := PopRenaming(o2, m2, SortedKeysExcept(o2, m2, pid), name, 2);
    if r.None? then None else Some((r.value.0, r.value.1, pid))
  }

  /** Renaming twice to the same name loses the primary: the second time `<name>.1` is both
      the new key and the old one, so the `del` removes the entry just stored. */
  lemma RenameTwiceLosesPrimary(p: Tx)
    requires p.id == "L.1"
    ensures var r := RenameInPlace(["L.1"], map["L.1" := p], "L.1", "L");
      r.Some? && r.value.2 == "L.1" && r.value.2 !in r.value.1 && r.value.1 == map[]
  {
    assert NumberedId("L", 1) == "L.1";
    var m1 := map["L.1" := p][NumberedId("L", 1) := p.(alias := Some("L.1"), id := "L.1")];
    assert m1 - {"L.1"} == map[];
    assert Without(["L.1"], {"L.1"}) == [];
    assert SortedKeysExcept([], map[], "L.1") == [];
  }

  // ---------------------------------------------------------------- the locus

  /** The transcript dict of a locus: keyed by id, every transcript with at least one exon. */
  predicate LocusDict(order: seq<string>, ts: map<string, Tx>)
  {
    Keyed(order, ts) && forall k :: k in ts ==> ts[k].exons != []
  }

  lemma AddKeepsLocusDict(order: seq<string>, ts: map<string, Tx>, k: string, v: Tx)
    requires LocusDict(order, ts) && v.id == k && v.exons != []
    ensures LocusDict(DictSet(order, ts, k, v).0, DictSet(order, ts, k, v).1)
  {
    if k !in ts {
      DistinctSnoc(order, k);
    }
  }

  lemma DeleteKeepsLocusDict(order: seq<string>, ts: map<string, Tx>, rm: set<string>)
    requires LocusDict(order, ts)
    ensures LocusDict(Without(order, rm), ts - rm)
  {
    DeleteKeyed(order, ts, rm);
  }

  /** Deleting a non-empty set of keys makes the dict smaller. */
  lemma DeleteShrinks(ts: map<string, Tx>, rm: set<string>)
    requires rm != {} && rm <= ts.Keys
    ensures |(ts - rm).Keys| < |ts.Keys|
  {
    assert (ts - rm).Keys == ts.Keys - rm;
    assert ts.Keys == (ts.Keys - rm) + rm;
  }

  /** The loop of `get_metrics` over `keys`, recording in `d` the ORF copies made for each
      transcript. */
  method RecordDoubles(d: map<string, set<string>>, keys: seq<string>, ts: map<string, Tx>,
                       reportAll: bool, orfCount: Tx -> nat) returns (r: map<string, set<string>>)
    ensures r == Doubled(d, keys, ts, reportAll, orfCount)
  {
    r := d;
    for i := 0 to |keys|
      invariant r == Doubled(d, keys[..i], ts, reportAll, orfCount)
    {
      assert keys[..i + 1][..i] == keys[..i];
      var tid := keys[i];
      if reportAll && tid in ts && orfCount(ts[tid]) > 1 {
        r := r[tid := (if tid in r then r[tid] else {}) + CloneIds(tid, orfCount(ts[tid]))];
      }
    }
    assert keys[..|keys|] == keys;
  }

  /** A transcript of `ts` after scoring: an ORF-copied one keeps its score, any other gets
      the sum of its sub-scores (`subScores` stands for the scores the scoring scheme
      computes over the locus). */
  function Rescored(ts: map<string, Tx>, d: map<string, set<string>>,
                    subScores: (map<string, Tx>, string) -> seq<real>, k: string): (t: Tx)
    requires k in ts
    ensures t.id == ts[k].id && t.exons == ts[k].exons
    ensures t == ts[k].(score := t.score)
  {
    if k in d then ts[k] else ts[k].(score := Sum(subScores(ts, k)))
  }

  /** The weighted-sum branch of `calculate_scores`: every transcript is rescored, then the
      ORF copies leave the dict. */
  method Rescore(order: seq<string>, ts: map<string, Tx>, d: map<string, set<string>>,
                 subScores: (map<string, Tx>, string) -> seq<real>) returns (o: seq<string>, r: map<string, Tx>)
    requires LocusDict(order, ts)
    ensures LocusDict(o, r)
    ensures o == Without(order, AllClones(d))
    ensures r.Keys == ts.Keys - AllClones(d)
    ensures forall k :: k in r ==> r[k] == Rescored(ts, d, subScores, k)
  {
    var scored := ts;
    for i := 0 to |order|
      invariant scored.Keys == ts.Keys
      invariant forall k :: k in scored && k in d ==> scored[k] == ts[k]
      invariant forall j :: 0 <= j < i ==> scored[order[j]] == Rescored(ts, d, subScores, order[j])
    {
      var tid := order[i];
      if tid !in d {
        scored := scored[tid := Rescored(ts, d, subScores, tid)];
      }
    }
    ScoredKeepsLocusDict(order, ts, scored, d, subScores);
    DeleteKeepsLocusDict(order, scored, AllClones(d));
    o, r := Without(order, AllClones(d)), scored - AllClones(d);
  }

  lemma ScoredKeepsLocusDict(order: seq<string>, ts: map<string, Tx>, scored: map<string, Tx>,
                         d: map<string, set<string>>, subScores: (map<string, Tx>, string) -> seq<real>)
    requires LocusDict(order, ts) && scored.Keys == ts.Keys
    requires forall j :: 0 <= j < |order| ==> scored[order[j]] == Rescored(ts, d, subScores, order[j])
    ensures LocusDict(order, scored)
    ensures forall k :: k in scored ==> scored[k] == Rescored(ts, d, subScores, k)
  {
    forall k | k in scored
      ensures scored[k] == Rescored(ts, d, subScores, k)
    {
      var j :| 0 <= j < |order| && order[j] == k;
    }
  }

  /** The transcripts `Sort(Others(...))` ranks are the dict's own non-primary transcripts. */
  lemma RankedFromDict(order: seq<string>, ts: map<string, Tx>, primaryId: string, le: (Tx, Tx) -> bool)
    requires Keyed(order, ts)
    ensures forall t :: t in Sorting.Sort(Others(order, ts, primaryId), le) ==>
      t.id in ts && ts[t.id] == t && t.id != primaryId
  {
    var others := Others(order, ts, primaryId);
    OthersMembers(order, ts, primaryId);
    Sorting.SortPermutes(others, le);
    forall t | t in Sorting.Sort(others, le)
      ensures t in others
    {
      assert t in multiset(Sorting.Sort(others, le));
    }
  }

  /** An id kept for its score belongs to a dict transcript reaching the threshold. */
  lemma AboveFromDict(ranked: seq<Tx>, threshold: real, ts: map<string, Tx>, k: string)
    requires forall t :: t in ranked ==> t.id in ts && ts[t.id] == t
    requires k in Above(ranked, threshold)
    ensures k in ts && ts[k].score >= threshold
  {
    var j :| 0 <= j < |ranked| && ranked[j].score >= threshold && ranked[j].id == k;
    assert ranked[j] in ranked;
  }

  /** The selection loop of `finalize_alternative_splicing`. */
  method SelectIsoforms(ranked: seq<Tx>, threshold: real, cap: int, primaryId: string) returns (toKeep: set<string>)
    ensures toKeep == Kept(ranked, threshold, cap, 0, {primaryId})
  {
    toKeep := {primaryId};
    var i := 0;
    while i < |ranked|
      invariant 0 <= i <= |ranked|
      invariant Kept(ranked, threshold, cap, i, toKeep) == Kept(ranked, threshold, cap, 0, {primaryId})
    {
      if |toKeep| == cap {
        break;
      }
      if ranked[i].score < threshold {
        break;
      }
      toKeep := toKeep + {ranked[i].id};
      i := i + 1;
    }
  }

  /** The part of a locus the scoring loops work on: the dict with its key order, and
      `__orf_doubles`. */
  datatype Scored = Scored(order: seq<string>, ts: map<string, Tx>, doubles: map<string, set<string>>)

  /** `get_metrics` followed by `calculate_scores` on a locus whose flags were reset: the
      ORF copies are recorded and leave the dict, every other transcript is rescored. */
  function Recalc(conf: SplicingConf, s: Scored, orfCount: Tx -> nat,
                  subScores: (map<string, Tx>, string) -> seq<real>): (r: Scored)
    requires LocusDict(s.order, s.ts)
    ensures LocusDict(r.order, r.ts) && Rescoring(s.ts, r.ts)
    ensures r.doubles == Doubled(s.doubles, s.order, s.ts, conf.reportAllOrfs, orfCount)
    ensures r.order == Without(s.order, AllClones(r.doubles)) && r.ts.Keys == s.ts.Keys - AllClones(r.doubles)
    ensures forall k :: k in r.ts ==> r.ts[k] == Rescored(s.ts, r.doubles, subScores, k)
  {
    var d1 := Doubled(s.doubles, s.order, s.ts, conf.reportAllOrfs, orfCount);
    var scored := map k | k in s.ts :: Rescored(s.ts, d1, subScores, k);
    ScoredKeepsLocusDict(s.order, s.ts, scored, d1, subScores);
    DeleteKeepsLocusDict(s.order, scored, AllClones(d1));
    Scored(Without(s.order, AllClones(d1)), scored - AllClones(d1), d1)
  }

  /** The same, as the two method calls. */
  method Recalculate(conf: SplicingConf, order: seq<string>, ts: map<string, Tx>, d: map<string, set<string>>,
                     orfCount: Tx -> nat, subScores: (map<string, Tx>, string) -> seq<real>)
    returns (o: seq<string>, r: map<string, Tx>, d1: map<string, set<string>>)
    requires LocusDict(order, ts)
    ensures Scored(o, r, d1) == Recalc(conf, Scored(order, ts, d), orfCount, subScores)
  {
    d1 := RecordDoubles(d, order, ts, conf.reportAllOrfs, orfCount);
    o, r := Rescore(order, ts, d1, subScores);
    ghost var n := Recalc(conf, Scored(order, ts, d), orfCount, subScores);
    assert d1 == n.doubles;
    SameRescoring(ts, d1, subScores, r, n.ts);
  }

  lemma SameRescoring(ts: map<string, Tx>, d: map<string, set<string>>,
                      subScores: (map<string, Tx>, string) -> seq<real>, a: map<string, Tx>, b: map<string, Tx>)
    requires a.Keys == b.Keys && a.Keys <= ts.Keys
    requires forall k :: k in a ==> a[k] == Rescored(ts, d, subScores, k)
    requires forall k :: k in b ==> b[k] == Rescored(ts, d, subScores, k)
    ensures a == b
  {
  }

  /** `m` holds transcripts of `ts` that differ at most in their scores. */
  predicate Rescoring(ts: map<string, Tx>, m: map<string, Tx>)
  {
    m.Keys <= ts.Keys && forall k :: k in m ==> m[k] == ts[k].(score := m[k].score)
  }

  lemma RescoringTrans(a: map<string, Tx>, b: map<string, Tx>, c: map<string, Tx>)
    requires Rescoring(a, b) && Rescoring(b, c)
    ensures Rescoring(a, c)
  {
  }

  /** `min_score_perc` times the primary's score. */
  function Threshold(conf: SplicingConf, primary: Tx): real
  {
    conf.minScorePerc * primary.score
  }

  lemma RescoringDelete(ts: map<string, Tx>, m: map<string, Tx>, rm: set<string>)
    requires Rescoring(ts, m)
    ensures Rescoring(ts, m - rm)
  {
  }

  /** The transcripts the selection loop keeps when the primary is `primaryId`. */
  function Selected(conf: SplicingConf, order: seq<string>, ts: map<string, Tx>, primaryId: string): set<string>
    requires Keyed(order, ts) && primaryId in ts
  {
    var ranked := Sorting.Sort(Others(order, ts, primaryId), ScoreGe);
    Kept(ranked, Threshold(conf, ts[primaryId]), conf.maxIsoforms, 0, {primaryId})
  }

  /** The selection only keeps keys of the dict, the primary among them. */
  lemma SelectedWithin(conf: SplicingConf, order: seq<string>, ts: map<string, Tx>, primaryId: string)
    requires Keyed(order, ts) && primaryId in ts
    ensures primaryId in Selected(conf, order, ts, primaryId) && Selected(conf, order, ts, primaryId) <= ts.Keys
  {
    var ranked := Sorting.Sort(Others(order, ts, primaryId), ScoreGe);
    RankedFromDict(order, ts, primaryId, ScoreGe);
    KeptIn(ranked, Threshold(conf, ts[primaryId]), conf.maxIsoforms, 0, {primaryId}, ts.Keys);
  }

  /** Starting from ids of a set that holds every ranked id, the loop stays in that set. */
  lemma {:induction false} KeptIn(ranked: seq<Tx>, threshold: real, cap: int, i: nat, acc: set<string>, keys: set<string>)
    requires i <= |ranked| && acc <= keys
    requires forall t :: t in ranked ==> t.id in keys
    ensures acc <= Kept(ranked, threshold, cap, i, acc) <= keys
    decreases |ranked| - i
  {
    if !(i == |ranked| || |acc| == cap || ranked[i].score < threshold) {
      assert ranked[i] in ranked;
      KeptIn(ranked, threshold, cap, i + 1, acc + {ranked[i].id}, keys);
    }
  }

  /** When the selection keeps every transcript, the locus holds at most `max_isoforms`
      transcripts and every isoform reaches `min_score_perc` of the primary's score. */
  lemma SelectedAll(conf: SplicingConf, order: seq<string>, ts: map<string, Tx>, primaryId: string)
    requires Keyed(order, ts) && primaryId in ts
    requires Selected(conf, order, ts, primaryId) == ts.Keys
    ensures conf.maxIsoforms >= 1 ==> |ts.Keys| <= conf.maxIsoforms
    ensures forall k :: k in ts && k != primaryId ==> ts[k].score >= Threshold(conf, ts[primaryId])
  {
    var ranked := Sorting.Sort(Others(order, ts, primaryId), ScoreGe);
    var threshold := Threshold(conf, ts[primaryId]);
    RankedFromDict(order, ts, primaryId, ScoreGe);
    KeptAbove(ranked, threshold, conf.maxIsoforms, 0, {primaryId});
    if conf.maxIsoforms >= 1 {
      KeptCapped(ranked, threshold, conf.maxIsoforms, 0, {primaryId});
    }
    forall k | k in ts && k != primaryId
      ensures ts[k].score >= threshold
    {
      AboveFromDict(ranked, threshold, ts, k);
    }
  }

  /** Conversely, when the locus holds fewer than `max_isoforms` transcripts and every
      isoform reaches the threshold, the selection keeps every transcript. */
  lemma SelectedAllAbove(conf: SplicingConf, order: seq<string>, ts: map<string, Tx>, primaryId: string)
    requires Keyed(order, ts) && primaryId in ts
    requires |ts.Keys| < conf.maxIsoforms
    requires forall k :: k in ts && k != primaryId ==> ts[k].score >= Threshold(conf, ts[primaryId])
    ensures Selected(conf, order, ts, primaryId) == ts.Keys
  {
    var others := Others(order, ts, primaryId);
    var ranked := Sorting.Sort(others, ScoreGe);
    var threshold := Threshold(conf, ts[primaryId]);
    var r := Kept(ranked, threshold, conf.maxIsoforms, 0, {primaryId});
    SelectedWithin(conf, order, ts, primaryId);
    SubsetCard(r, ts.Keys);
    Sorting.SortSorted(others, ScoreGe);
    KeptComplete(ranked, threshold, conf.maxIsoforms, 0, {primaryId});
    OthersMembers(order, ts, primaryId);
    Sorting.SortPermutes(others, ScoreGe);
    forall k | k in ts
      ensures k in r
    {
      if k != primaryId {
        assert ts[k] in multiset(ranked);
        var j :| 0 <= j < |ranked| && ranked[j] == ts[k];
      }
    }
  }

  /** Without `report_all_orfs`, `get_metrics` records no ORF copy. */
  lemma {:induction false} DoubledUnreported(d: map<string, set<string>>, keys: seq<string>, ts: map<string, Tx>,
                                             orfCount: Tx -> nat)
    ensures Doubled(d, keys, ts, false, orfCount) == d
  {
    if keys != [] {
      DoubledUnreported(d, keys[..|keys| - 1], ts, orfCount);
    }
  }

  /** The first loop of `finalize_alternative_splicing`: rank the isoforms by score, keep
      the primary and the best isoforms up to `max_isoforms` transcripts and down to
      `min_score_perc` of the primary's score, delete the rest and rescore, until nothing is
      deleted. A `KeyError` is raised when rescoring has deleted the primary. */
  function Pruned(conf: SplicingConf, s: Scored, primaryId: string, orfCount: Tx -> nat,
                  subScores: (map<string, Tx>, string) -> seq<real>): (r: (Scored, Option<Error>))
    requires LocusDict(s.order, s.ts)
    ensures LocusDict(r.0.order, r.0.ts) && Rescoring(s.ts, r.0.ts)
    ensures r.1 == None ==> primaryId in r.0.ts && Selected(conf, r.0.order, r.0.ts, primaryId) == r.0.ts.Keys
    ensures r.1 != None ==> r.1 == Some(KeyError(primaryId)) && primaryId !in r.0.ts
    decreases |s.ts.Keys|
  {
    if primaryId !in s.ts then (s, Some(KeyError(primaryId)))
    else if Selected(conf, s.order, s.ts, primaryId) == s.ts.Keys then (s, None)
    else
      var rm := s.ts.Keys - Selected(conf, s.order, s.ts, primaryId);
      SelectedWithin(conf, s.order, s.ts, primaryId);
      var n := Deleted(conf, s, rm, orfCount, subScores);
      var r := Pruned(conf, n, primaryId, orfCount, subScores);
      RescoringTrans(s.ts, n.ts, r.0.ts);
      r
  }

  /** Deleting the transcripts `rm` and rescoring what is left. */
  function Deleted(conf: SplicingConf, s: Scored, rm: set<string>, orfCount: Tx -> nat,
                   subScores: (map<string, Tx>, string) -> seq<real>): (r: Scored)
    requires LocusDict(s.order, s.ts) && rm != {} && rm <= s.ts.Keys
    ensures LocusDict(r.order, r.ts) && Rescoring(s.ts, r.ts)
    ensures r.ts.Keys <= s.ts.Keys - rm && |r.ts.Keys| < |s.ts.Keys|
    ensures LocusDict(Without(s.order, rm), s.ts - rm)
    ensures r == Recalc(conf, Scored(Without(s.order, rm), s.ts - rm, s.doubles), orfCount, subScores)
  {
    DeleteShrinks(s.ts, rm);
    DeleteKeepsLocusDict(s.order, s.ts, rm);
    var n := Recalc(conf, Scored(Without(s.order, rm), s.ts - rm, s.doubles), orfCount, subScores);
    SubsetCard(n.ts.Keys, (s.ts - rm).Keys);
    n
  }

  /** The loop of the first part, proved to compute `Pruned`. */
  method Prune(conf: SplicingConf, order: seq<string>, ts: map<string, Tx>, d: map<string, set<string>>,
               primaryId: string, orfCount: Tx -> nat, subScores: (map<string, Tx>, string) -> seq<real>)
    returns (o: seq<string>, m: map<string, Tx>, d1: map<string, set<string>>, err: Option<Error>)
    requires LocusDict(order, ts)
    ensures (Scored(o, m, d1), err) == Pruned(conf, Scored(order, ts, d), primaryId, orfCount, subScores)
  {
    o, m, d1 := order, ts, d;
    while true
      invariant LocusDict(o, m)
      invariant Pruned(conf, Scored(o, m, d1), primaryId, orfCount, subScores)
             == Pruned(conf, Scored(order, ts, d), primaryId, orfCount, subScores)
      decreases |m.Keys|
    {
      if primaryId !in m {
        return o, m, d1, Some(KeyError(primaryId));
      }
      var ranked := Sorting.Sort(Others(o, m, primaryId), ScoreGe);
      var threshold := Threshold(conf, m[primaryId]);
      var toKeep := SelectIsoforms(ranked, threshold, conf.maxIsoforms, primaryId);
      if toKeep == m.Keys {
        return o, m, d1, None;
      }
      assert toKeep == Selected(conf, o, m, primaryId);
      var rm := m.Keys - toKeep;
      PrunedStep(conf, Scored(o, m, d1), primaryId, orfCount, subScores);
      DeleteKeepsLocusDict(o, m, rm);
      o, m, d1 := Recalculate(conf, Without(o, rm), m - rm, d1, orfCount, subScores);
    }
  }

  /** One round of the pruning loop. */
  lemma PrunedStep(conf: SplicingConf, s: Scored, primaryId: string, orfCount: Tx -> nat,
                   subScores: (map<string, Tx>, string) -> seq<real>)
    requires LocusDict(s.order, s.ts) && primaryId in s.ts
    requires Selected(conf, s.order, s.ts, primaryId) != s.ts.Keys
    ensures var rm := s.ts.Keys - Selected(conf, s.order, s.ts, primaryId);
      && rm != {} && rm <= s.ts.Keys
      && Pruned(conf, s, primaryId, orfCount, subScores)
         == Pruned(conf, Deleted(conf, s, rm, orfCount, subScores), primaryId, orfCount, subScores)
      && |Deleted(conf, s, rm, orfCount, subScores).ts.Keys| < |s.ts.Keys|
  {
    SelectedWithin(conf, s.order, s.ts, primaryId);
  }

  /** One round of the retained-intron loop when retained introns are not kept. */
  lemma RetainedStep(conf: SplicingConf, s: Scored, primaryId: string, retainedIn: (map<string, Tx>, Tx) -> nat,
                     orfCount: Tx -> nat, subScores: (map<string, Tx>, string) -> seq<real>)
    requires LocusDict(s.order, s.ts) && !conf.keepRetainedIntrons
    requires Retaining(s.ts, primaryId, retainedIn) != {}
    ensures var rm := Retaining(s.ts, primaryId, retainedIn);
      && rm <= s.ts.Keys
      && RetainedDropped(conf, s, primaryId, retainedIn, orfCount, subScores)
         == RetainedDropped(conf, Deleted(conf, s, rm, orfCount, subScores), primaryId, retainedIn, orfCount, subScores)
      && |Deleted(conf, s, rm, orfCount, subScores).ts.Keys| < |s.ts.Keys|
  {
  }

  /** The ids kept are keys of the dict. */
  lemma KeptWithin(ranked: seq<Tx>, threshold: real, m: map<string, Tx>, primaryId: string, toKeep: set<string>)
    requires primaryId in m
    requires forall t :: t in ranked ==> t.id in m && m[t.id] == t
    requires toKeep <= {primaryId} + Above(ranked, threshold)
    ensures toKeep <= m.Keys
  {
    forall k | k in toKeep && k != primaryId
      ensures k in m
    {
      AboveFromDict(ranked, threshold, m, k);
    }
  }

  /** The isoforms `find_retained_introns` reports with at least one retained intron
      (`retainedIn` stands for it; it reads the whole locus). */
  method FindRetaining(order: seq<string>, ts: map<string, Tx>, primaryId: string,
                       retainedIn: (map<string, Tx>, Tx) -> nat) returns (toRemove: set<string>)
    requires Keyed(order, ts)
    ensures forall k :: k in toRemove <==> k in ts && k != primaryId && retainedIn(ts, ts[k]) > 0
    ensures toRemove == Retaining(ts, primaryId, retainedIn)
  {
    toRemove := {};
    for i := 0 to |order|
      invariant forall k :: k in toRemove ==> k in ts && k != primaryId && retainedIn(ts, ts[k]) > 0
      invariant forall j :: 0 <= j < i && order[j] != primaryId && retainedIn(ts, ts[order[j]]) > 0 ==> order[j] in toRemove
    {
      var tid := order[i];
      if tid == primaryId {
        continue;
      }
      if retainedIn(ts, ts[tid]) > 0 {
        toRemove := toRemove + {tid};
      }
    }
    forall k | k in ts && k != primaryId && retainedIn(ts, ts[k]) > 0
      ensures k in toRemove
    {
      var j :| 0 <= j < |order| && order[j] == k;
    }
  }

  /** The isoforms in which `find_retained_introns` finds a retained intron. */
  function Retaining(ts: map<string, Tx>, primaryId: string, retainedIn: (map<string, Tx>, Tx) -> nat): set<string>
  {
    set k | k in ts && k != primaryId && retainedIn(ts, ts[k]) > 0
  }

  /** The second loop of `finalize_alternative_splicing`. When retained introns are kept,
      the isoforms with one are only flagged; otherwise they are deleted and the locus
      rescored until no isoform retains an intron. The loop deletes nothing exactly when it
      leaves the dict's keys as they were. */
  function RetainedDropped(conf: SplicingConf, s: Scored, primaryId: string,
                           retainedIn: (map<string, Tx>, Tx) -> nat, orfCount: Tx -> nat,
                           subScores: (map<string, Tx>, string) -> seq<real>): (r: (Scored, set<string>))
    requires LocusDict(s.order, s.ts)
    ensures LocusDict(r.0.order, r.0.ts) && Rescoring(s.ts, r.0.ts)
    ensures r.0.ts.Keys == s.ts.Keys ==> r.0 == s
    ensures conf.keepRetainedIntrons ==> r.0 == s && r.1 == Retaining(s.ts, primaryId, retainedIn)
    ensures !conf.keepRetainedIntrons ==> r.1 == {} && Retaining(r.0.ts, primaryId, retainedIn) == {}
    decreases |s.ts.Keys|
  {
    var toRemove := Retaining(s.ts, primaryId, retainedIn);
    if conf.keepRetainedIntrons then (s, toRemove)
    else if toRemove == {} then (s, {})
    else
      var n := Deleted(conf, s, toRemove, orfCount, subScores);
      var r := RetainedDropped(conf, n, primaryId, retainedIn, orfCount, subScores);
      RescoringTrans(s.ts, n.ts, r.0.ts);
      var x :| x in toRemove;
      assert x in s.ts.Keys && x !in r.0.ts.Keys;
      r
  }

  /** The loop of the second part, proved to compute `RetainedDropped`. */
  method DropRetained(conf: SplicingConf, order: seq<string>, ts: map<string, Tx>, d: map<string, set<string>>,
                      primaryId: string, retainedIn: (map<string, Tx>, Tx) -> nat,
                      orfCount: Tx -> nat, subScores: (map<string, Tx>, string) -> seq<real>)
    returns (o: seq<string>, m: map<string, Tx>, d1: map<string, set<string>>, flagged: set<string>)
    requires LocusDict(order, ts)
    ensures (Scored(o, m, d1), flagged)
         == RetainedDropped(conf, Scored(order, ts, d), primaryId, retainedIn, orfCount, subScores)
  {
    o, m, d1, flagged := order, ts, d, {};
    while true
      invariant LocusDict(o, m)
      invariant RetainedDropped(conf, Scored(o, m, d1), primaryId, retainedIn, orfCount, subScores)
             == RetainedDropped(conf, Scored(order, ts, d), primaryId, retainedIn, orfCount, subScores)
      decreases |m.Keys|
    {
      var toRemove := FindRetaining(o, m, primaryId, retainedIn);
      if !conf.keepRetainedIntrons && toRemove != {} {
        RetainedStep(conf, Scored(o, m, d1), primaryId, retainedIn, orfCount, subScores);
        DeleteKeepsLocusDict(o, m, toRemove);
        o, m, d1 := Recalculate(conf, Without(o, toRemove), m - toRemove, d1, orfCount, subScores);
      } else if conf.keepRetainedIntrons {
        flagged := toRemove;
        return;
      } else {
        return;
      }
    }
  }

  /** The padding target recorded for `tid` against the edge `edge` of its community: the
      5' pass records a new start, the 3' pass a new end next to the start recorded before. */
  function Target(pads: map<string, Pad>, tid: string, edge: int, threePrime: bool): Pad
  {
    if !threePrime then Pad(edge, 0)
    else Pad(if tid in pads then pads[tid].start else 0, edge)
  }

  /** Whether `t` may be padded to the community edge `edge` on the side of the pass. */
  predicate EdgeOk(conf: SplicingConf, splices: set<int>, t: Tx, edge: int, threePrime: bool)
  {
    if threePrime then ThreeOk(conf, splices, t, edge) else FiveOk(conf, splices, t, edge)
  }

  /** The 5' pass only records starts; the 3' pass only adds ends to what came before. */
  predicate Sided(pads0: map<string, Pad>, pads: map<string, Pad>, threePrime: bool)
  {
    && pads0.Keys <= pads.Keys
    && forall k :: k in pads ==>
         if threePrime then pads[k].start == (if k in pads0 then pads0[k].start else 0)
         else pads[k].end == 0
  }

  /** The inner loop of a pass: every member of `others` close enough to the community edge
      is padded to it and marked as found. */
  method PadCommunity(conf: SplicingConf, splices: set<int>, ts: map<string, Tx>, others: seq<string>,
                      edge: int, threePrime: bool, ghost pads0: map<string, Pad>,
                      pads: map<string, Pad>, found: set<string>)
    returns (padded: map<string, Pad>, found1: set<string>)
    requires forall x :: x in others ==> x in ts
    requires PadsJustified(conf, splices, ts, pads) && Sided(pads0, pads, threePrime)
    ensures PadsJustified(conf, splices, ts, padded) && Sided(pads0, padded, threePrime)
    ensures forall k :: k in padded && k !in pads ==> k in others && EdgeOk(conf, splices, ts[k], edge, threePrime)
    ensures found <= found1
  {
    padded, found1 := pads, found;
    for i := 0 to |others|
      invariant PadsJustified(conf, splices, ts, padded) && Sided(pads0, padded, threePrime)
      invariant forall k :: k in padded && k !in pads ==> k in others && EdgeOk(conf, splices, ts[k], edge, threePrime)
      invariant found <= found1
    {
      var tid := others[i];
      if EdgeOk(conf, splices, ts[tid], edge, threePrime) {
        padded := padded[tid := Target(padded, tid, edge, threePrime)];
        found1 := found1 + {tid};
      }
    }
  }

  /** One pass of `pad_transcripts` over the communities `comms` (already ordered as the
      source orders them): each community, minus the transcripts already padded, is ordered
      by start (by end, latest first, at the 3' end); its first transcript gives the edge,
      and every other one close enough to it is padded to it; the rest of the community goes
      back to the front of the queue. A community with a single member left is dropped; one
      with none left raises `IndexError` (`popleft` on an empty deque); a member that is not
      a transcript of the locus raises `KeyError`. */
  method PadPass(conf: SplicingConf, splices: set<int>, ts: map<string, Tx>, comms: seq<seq<string>>,
                 pads0: map<string, Pad>, threePrime: bool) returns (pads: map<string, Pad>, err: Option<Error>)
    requires PadsJustified(conf, splices, ts, pads0)
    requires !threePrime ==> pads0 == map[]
    ensures PadsJustified(conf, splices, ts, pads)
    ensures Sided(pads0, pads, threePrime)
    ensures err.Some? ==> err.value == IndexError || (err.value.KeyError? && err.value.key !in ts)
  {
    pads, err := pads0, None;
    var found: set<string> := {};
    var queue := comms;
    while queue != []
      invariant PadsJustified(conf, splices, ts, pads)
      invariant Sided(pads0, pads, threePrime)
      decreases Weight(queue)
    {
      var comm := queue[0];
      var rest0 := queue[1..];
      assert Weight(queue) == |comm| + 1 + Weight(rest0);
      queue := rest0;
      var pending := Pending(comm, found, ts, threePrime);
      if x :| x in pending && x !in ts {
        return pads, Some(KeyError(x));
      }
      if |pending| == 1 {
        continue;
      }
      if pending == [] {
        return pads, Some(IndexError);
      }
      var first := pending[0];
      found := found + {first};
      var edge := if threePrime then ts[first].end else ts[first].start;
      var others := pending[1..];
      pads, found := PadCommunity(conf, splices, ts, others, edge, threePrime, pads0, pads, found);
      var left := Unfound(others, found);
      if left != [] {
        queue := [left] + queue;
        assert queue[1..] == rest0;
      }
    }
  }

  /** The last loop of `pad_transcripts`: every transcript with a recorded target is
      replaced by its padded copy. */
  method ApplyPads(ts: map<string, Tx>, pads: map<string, Pad>) returns (r: map<string, Tx>)
    requires forall k :: k in ts ==> ts[k].exons != []
    requires pads.Keys <= ts.Keys
    ensures r.Keys == ts.Keys
    ensures forall k :: k in r ==> r[k] == if k in pads then PadTx(ts[k], pads[k]) else ts[k]
  {
    r := ts;
    var todo := pads.Keys;
    while todo != {}
      invariant todo <= pads.Keys && r.Keys == ts.Keys
      invariant forall k :: k in r ==> r[k] == if k in pads && k !in todo then PadTx(ts[k], pads[k]) else ts[k]
      decreases |todo|
    {
      var tid :| tid in todo;
      assert r[tid] == ts[tid];
      r := r[tid := PadTx(r[tid], pads[tid])];
      todo := todo - {tid};
    }
  }

  /** Padding keeps the dict well formed. */
  lemma PaddedKeepsLocusDict(order: seq<string>, ts: map<string, Tx>, pads: map<string, Pad>, r: map<string, Tx>)
    requires LocusDict(order, ts) && pads.Keys <= ts.Keys && r.Keys == ts.Keys
    requires forall k :: k in r ==> r[k] == if k in pads then PadTx(ts[k], pads[k]) else ts[k]
    ensures LocusDict(order, r)
  {
  }

  /** What `pad_transcripts` leaves: on an exception the dict as it was, with an
      `IndexError` or the `KeyError` of an id outside the dict; otherwise the dict with the
      justified targets `pads` applied. */
  predicate PadOutcome(conf: SplicingConf, splices: set<int>, ts: map<string, Tx>, pads: map<string, Pad>,
                       err: Option<Error>, r: map<string, Tx>)
    requires forall k :: k in ts ==> ts[k].exons != []
  {
    if err.Some? then
      r == ts && (err.value == IndexError || (err.value.KeyError? && err.value.key !in ts))
    else
      && PadsJustified(conf, splices, ts, pads) && r.Keys == ts.Keys
      && forall k :: k in r ==> r[k] == if k in pads then PadTx(ts[k], pads[k]) else ts[k]
  }

  /** The two passes of `pad_transcripts` and the replacement of the padded transcripts. */
  method PadValues(conf: SplicingConf, splices: set<int>, order: seq<string>, ts: map<string, Tx>,
                   fiveComms: seq<seq<string>>, threeComms: seq<seq<string>>)
    returns (r: map<string, Tx>, pads: map<string, Pad>, err: Option<Error>)
    requires LocusDict(order, ts)
    ensures LocusDict(order, r) && PadOutcome(conf, splices, ts, pads, err, r)
  {
    r := ts;
    var five, e1 := PadPass(conf, splices, ts, fiveComms, map[], false);
    if e1.Some? {
      return ts, five, e1;
    }
    pads, err := PadPass(conf, splices, ts, threeComms, five, true);
    if err.Some? {
      return;
    }
    r := ApplyPads(ts, pads);
    PaddedKeepsLocusDict(order, ts, pads, r);
  }

  /** Padding keeps every transcript's score. */
  lemma PaddedScores(ts: map<string, Tx>, pads: map<string, Pad>, r: map<string, Tx>)
    requires forall k :: k in ts ==> ts[k].exons != []
    requires r.Keys == ts.Keys
    requires forall k :: k in r ==> r[k] == if k in pads then PadTx(ts[k], pads[k]) else ts[k]
    ensures forall k :: k in r ==> r[k].score == ts[k].score
  {
  }

  /** The renaming of the `id` setter, as evidently intended: the primary becomes
      `<name>.1`, the others `<name>.2`, `<name>.3`, ... in position order, each with its old
      id as alias, and the new dict holds exactly the renamed transcripts in that order. */
  method Rename(order: seq<string>, ts: map<string, Tx>, primaryId: string, name: string)
    returns (o: seq<string>, m: map<string, Tx>)
    requires Keyed(order, ts) && primaryId in ts
    ensures o == Ids(Renumbered(name, Ranked(order, ts, primaryId)))
    ensures m == Dict(Renumbered(name, Ranked(order, ts, primaryId)))
  {
    var ranked := Ranked(order, ts, primaryId);
    ghost var r := Renumbered(name, ranked);
    o, m := [], map[];
    for i := 0 to |ranked|
      invariant o == Ids(r[..i]) && m == Dict(r[..i])
    {
      var t := ranked[i].(id := NumberedId(name, i + 1), alias := Some(ranked[i].id));
      RenumberedAt(name, ranked, i);
      assert r[..i + 1][..i] == r[..i];
      o, m := o + [t.id], m[t.id := t];
    }
    assert r[..|r|] == r;
  }

  /** The renamed transcripts have the exons of the transcripts they come from. */
  lemma RenamedIsLocusDict(order: seq<string>, ts: map<string, Tx>, primaryId: string, name: string)
    requires LocusDict(order, ts) && primaryId in ts
    ensures var r := Renumbered(name, Ranked(order, ts, primaryId));
      LocusDict(Ids(r), Dict(r))
  {
    var ranked := Ranked(order, ts, primaryId);
    var r := Renumbered(name, ranked);
    RenamedKeyed(order, ts, primaryId, name);
    RankedMembers(order, ts, primaryId);
    forall k | k in Dict(r)
      ensures Dict(r)[k].exons != []
    {
      DictOnly(r, k);
      var i :| 0 <= i < |r| && r[i].id == k;
      RenumberedAt(name, ranked, i);
    }
  }

  /** A locus: a primary transcript and its admitted alternative-splicing isoforms. */
  class Locus {
    /** `self.transcripts`: `order` is the dict's key order. */
    var order: seq<string>
    var transcripts: map<string, Tx>
    var primaryId: string
    const strand: Option<Strand>
    /** `locus_verified_introns`. */
    var verifiedIntrons: set<Interval>
    var metricsCalculated: bool
    var scoresCalculated: bool
    /** `__orf_doubles`: for each transcript copied per ORF, the ids of its copies. */
    var orfDoubles: map<string, set<string>>
    /** The transcripts given the `retained_intron` attribute. */
    var retainedFlagged: set<string>
    /** The id given through the setter (`__id`), if any. */
    var name: Option<string>

    ghost predicate Valid()
      reads this
    {
      LocusDict(order, transcripts)
    }

    /** A locus made of one transcript, marked as primary. */
    constructor (t: Tx)
      requires t.exons != []
      ensures Valid()
      ensures order == [t.id] && transcripts == map[t.id := t.(primary := true)] && primaryId == t.id
      ensures strand == t.strand && verifiedIntrons == t.verifiedIntrons
      ensures !metricsCalculated && !scoresCalculated
      ensures orfDoubles == map[] && retainedFlagged == {} && name == None
    {
      order := [t.id];
      transcripts := map[t.id := t.(primary := true)];
      primaryId := t.id;
      strand := t.strand;
      verifiedIntrons := t.verifiedIntrons;
      metricsCalculated := false;
      scoresCalculated := false;
      orfDoubles := map[];
      retainedFlagged := {};
      name := None;
    }

    /** `is_alternative_splicing`: the class code against the primary must be a valid one,
        and the class code against each other transcript must not be a redundant one. */
    method IsAlternativeSplicing(conf: SplicingConf, compare: (Tx, Tx) -> Comparison, other: Tx)
      returns (isValid: bool, ccode: string, comparison: Comparison)
      requires Valid() && primaryId in transcripts
      ensures comparison == compare(other, transcripts[primaryId]) && ccode == comparison.ccode
      ensures isValid == IsAlternative(conf, compare, transcripts, primaryId, other)
    {
      comparison := compare(other, transcripts[primaryId]);
      ccode := comparison.ccode;
      isValid := ccode in conf.validCcodes;
      if isValid {
        for i := 0 to |order|
          invariant forall j :: 0 <= j < i && order[j] != primaryId && order[j] != other.id ==>
            compare(other, transcripts[order[j]]).ccode !in conf.redundantCcodes
        {
          var tid := order[i];
          if tid != primaryId && tid != other.id && compare(other, transcripts[tid]).ccode in conf.redundantCcodes {
            isValid := false;
            return;
          }
        }
        forall tid | tid in transcripts && tid != primaryId && tid != other.id
          ensures compare(other, transcripts[tid]).ccode !in conf.redundantCcodes
        {
          var j :| 0 <= j < |order| && order[j] == tid;
        }
      }
    }

    /** The chain of checks of `add_transcript_to_locus`, in the source's order: each check
        runs only while the candidate is still acceptable, except the cDNA-overlap check,
        which runs whenever the class-code check is evaluated. `ccode` is the class code recorded on
        the candidate: set once the class-code check has run and passed. */
    method Admission(conf: SplicingConf, compare: (Tx, Tx) -> Comparison, t: Tx)
      returns (added: bool, ccode: Option<string>)
      requires Valid() && primaryId in transcripts
      ensures added == Admitted(conf, compare, strand, transcripts, primaryId, t)
      ensures ccode.Some? <==>
        && (conf.onlyConfirmedIntrons ==> Unconfirmed(t, transcripts[primaryId]) == {})
        && t.strand == strand
        && IsAlternative(conf, compare, transcripts, primaryId, t)
      ensures ccode.Some? ==> ccode.value == compare(t, transcripts[primaryId]).ccode
    {
      var primary := transcripts[primaryId];
      var toBeAdded := true;
      ccode := None;
      if conf.onlyConfirmedIntrons {
        if |Unconfirmed(t, primary)| > 0 {
          toBeAdded := false;
        }
      }
      if toBeAdded && t.strand != strand {
        toBeAdded := false;
      }
      if toBeAdded {
        var isAlternative, cc, comparison := IsAlternativeSplicing(conf, compare, t);
        if !isAlternative {
          toBeAdded := false;
        } else {
          ccode := Some(cc);
        }
        if conf.minCdnaOverlap > 0.0 && comparison.nRecall < conf.minCdnaOverlap {
          toBeAdded := false;
        }
      }
      if toBeAdded && t.utrLength > conf.maxUtr {
        toBeAdded := false;
      }
      if toBeAdded && t.fiveUtr > conf.maxFiveUtr {
        toBeAdded := false;
      }
      if toBeAdded && t.threeUtr > conf.maxThreeUtr {
        toBeAdded := false;
      }
      if toBeAdded && conf.minCdsOverlap > 0.0 {
        if CdsLength(primary) > 0 {
          var overlap := (SharedCds(t, primary) as real) / (CdsLength(primary) as real);
          if overlap < conf.minCdsOverlap {
            toBeAdded := false;
          }
        }
      }
      added := toBeAdded;
    }

    /** `add_transcript_to_locus`: the candidate is added, as a non-primary transcript, when
        every check passes, and its verified introns join the locus's; otherwise the locus is
        unchanged. */
    method AddTranscript(conf: SplicingConf, compare: (Tx, Tx) -> Comparison, t: Tx)
      returns (added: bool, ccode: Option<string>)
      requires Valid() && primaryId in transcripts && t.exons != []
      modifies this`order, this`transcripts, this`verifiedIntrons
      ensures Valid()
      ensures added == Admitted(conf, compare, strand, old(transcripts), primaryId, t)
      ensures added ==> (order, transcripts) == DictSet(old(order), old(transcripts), t.id, t.(primary := false))
      ensures added ==> verifiedIntrons == old(verifiedIntrons) + t.verifiedIntrons
      ensures !added ==> order == old(order) && transcripts == old(transcripts) && verifiedIntrons == old(verifiedIntrons)
    {
      added, ccode := Admission(conf, compare, t);
      if !added {
        return;
      }
      var u := t.(primary := false);
      AddKeepsLocusDict(order, transcripts, t.id, u);
      var (o, m) := DictSet(order, transcripts, t.id, u);
      order, transcripts := o, m;
      verifiedIntrons := verifiedIntrons + t.verifiedIntrons;
    }

    /** `get_metrics`: once per reset, every transcript with more than one ORF (when all
        ORFs are reported) has its copies recorded. */
    method GetMetrics(conf: SplicingConf, orfCount: Tx -> nat)
      modifies this`orfDoubles, this`metricsCalculated
      ensures old(metricsCalculated) ==> orfDoubles == old(orfDoubles)
      ensures !old(metricsCalculated) ==> orfDoubles == Doubled(old(orfDoubles), order, transcripts, conf.reportAllOrfs, orfCount)
      ensures metricsCalculated
    {
      if metricsCalculated {
        return;
      }
      orfDoubles := RecordDoubles(orfDoubles, order, transcripts, conf.reportAllOrfs, orfCount);
      metricsCalculated := true;
    }

    /** `calculate_scores` in its weighted-sum branch: once per reset, the metrics are
        computed, every transcript not copied for its ORFs is given the sum of its
        sub-scores, and the ORF copies leave the locus. */
    method CalculateScores(conf: SplicingConf, orfCount: Tx -> nat, subScores: (map<string, Tx>, string) -> seq<real>)
      requires Valid()
      modifies this`order, this`transcripts, this`orfDoubles, this`metricsCalculated, this`scoresCalculated
      ensures Valid() && Rescoring(old(transcripts), transcripts)
      ensures old(scoresCalculated) ==>
        order == old(order) && transcripts == old(transcripts) && orfDoubles == old(orfDoubles)
        && metricsCalculated == old(metricsCalculated)
      ensures !old(scoresCalculated) ==>
        && orfDoubles == (if old(metricsCalculated) then old(orfDoubles)
                          else Doubled(old(orfDoubles), old(order), old(transcripts), conf.reportAllOrfs, orfCount))
        && order == Without(old(order), AllClones(orfDoubles))
        && transcripts.Keys == old(transcripts).Keys - AllClones(orfDoubles)
        && (forall k :: k in transcripts ==> transcripts[k] == Rescored(old(transcripts), orfDoubles, subScores, k))
      ensures scoresCalculated
    {
      if scoresCalculated {
        return;
      }
      GetMetrics(conf, orfCount);
      var o, m := Rescore(order, transcripts, orfDoubles, subScores);
      order, transcripts := o, m;
      scoresCalculated := true;
    }

    /** `pad_transcripts` (coordinates only), given the splice sites of the locus and its
        5' communities and 3' cliques, already ordered. The recorded targets are returned;
        on an exception the transcripts are untouched. */
    method PadTranscripts(conf: SplicingConf, splices: set<int>, fiveComms: seq<seq<string>>, threeComms: seq<seq<string>>)
      returns (pads: map<string, Pad>, err: Option<Error>)
      requires Valid()
      modifies this`transcripts
      ensures Valid()
      ensures err.Some? ==> transcripts == old(transcripts)
      ensures err.Some? ==> err.value == IndexError || (err.value.KeyError? && err.value.key !in transcripts)
      ensures err.None? ==> PadsJustified(conf, splices, old(transcripts), pads)
      ensures err.None? ==> transcripts.Keys == old(transcripts).Keys
      ensures err.None? ==> forall k :: k in transcripts ==>
        transcripts[k] == if k in pads then PadTx(old(transcripts)[k], pads[k]) else old(transcripts)[k]
    {
      var r;
      r, pads, err := PadValues(conf, splices, order, transcripts, fiveComms, threeComms);
      transcripts := r;
    }

    /** The `id` setter, as evidently intended (see `RenameInPlace` for the code as
        written): the name is recorded, then the primary becomes `<name>.1` and the others
        `<name>.2`, `<name>.3`, ... in position order. A `KeyError` is raised when the
        primary is missing. */
    method SetId(newName: string) returns (err: Option<Error>)
      requires Valid()
      modifies this`order, this`transcripts, this`primaryId, this`name
      ensures Valid() && name == Some(newName)
      ensures err.Some? <==> old(primaryId) !in old(transcripts)
      ensures err.Some? ==>
        err == Some(KeyError(old(primaryId))) && order == old(order)
        && transcripts == old(transcripts) && primaryId == old(primaryId)
      ensures err.None? ==>
        && order == Ids(Renumbered(newName, Ranked(old(order), old(transcripts), old(primaryId))))
        && transcripts == Dict(Renumbered(newName, Ranked(old(order), old(transcripts), old(primaryId))))
        && primaryId == NumberedId(newName, 1) && primaryId in transcripts
    {
      name := Some(newName);
      if primaryId !in transcripts {
        return Some(KeyError(primaryId));
      }
      var o, m := Rename(order, transcripts, primaryId, newName);
      RenamedIsLocusDict(order, transcripts, primaryId, newName);
      RenamedPrimary(order, transcripts, primaryId, newName);
      order, transcripts, primaryId := o, m, NumberedId(newName, 1);
      err := None;
    }

    /** `finalize_alternative_splicing`: rescore from scratch, prune the isoforms by number
        and score, deal with retained introns, then pad the transcript ends when asked to.
        `splices`, `fiveComms` and `threeComms` give the splice sites, the ordered 5'
        communities and the ordered 3' cliques of the transcripts the locus then holds; the
        padding targets are returned. The scoring part is the corrected `Settled`, so every
        isoform kept is within the score threshold, padded or not. */
    method FinalizeAlternativeSplicing(conf: SplicingConf, orfCount: Tx -> nat,
                                       subScores: (map<string, Tx>, string) -> seq<real>,
                                       retainedIn: (map<string, Tx>, Tx) -> nat,
                                       splices: map<string, Tx> -> set<int>,
                                       fiveComms: map<string, Tx> -> seq<seq<string>>,
                                       threeComms: map<string, Tx> -> seq<seq<string>>)
      returns (pads: map<string, Pad>, err: Option<Error>)
      requires Valid()
      modifies this`order, this`transcripts, this`orfDoubles, this`metricsCalculated
      modifies this`scoresCalculated, this`retainedFlagged
      ensures Valid() && metricsCalculated && scoresCalculated
      ensures Finalized(conf, Recalc(conf, Scored(old(order), old(transcripts), old(orfDoubles)), orfCount, subScores),
                        old(retainedFlagged), primaryId, orfCount, subScores, retainedIn, splices,
                        Scored(order, transcripts, orfDoubles), retainedFlagged, pads, err)
      ensures transcripts.Keys <= old(transcripts).Keys
      ensures err.None? ==> conf.maxIsoforms >= 1 ==> |transcripts.Keys| <= conf.maxIsoforms
      ensures err.None? ==>
        primaryId in transcripts &&
        forall k :: k in transcripts && k != primaryId ==> transcripts[k].score >= Threshold(conf, transcripts[primaryId])
      ensures err.None? && !conf.keepRetainedIntrons && !conf.pad ==>
        forall k :: k in transcripts && k != primaryId ==> retainedIn(transcripts, transcripts[k]) == 0
    {
      ghost var scored := Recalc(conf, Scored(order, transcripts, orfDoubles), orfCount, subScores);
      var o, m, d, flagged;
      o, m, d, flagged, pads, err := FinalizeScored(conf, order, transcripts, orfDoubles, retainedFlagged, primaryId,
                                                    orfCount, subScores, retainedIn, splices, fiveComms, threeComms);
      FinalizedMeans(conf, scored, retainedFlagged, primaryId, orfCount, subScores, retainedIn, splices,
                     Scored(o, m, d), flagged, pads, err);
      Install(o, m, d, flagged);
    }

    /** Stores the outcome of `finalize_alternative_splicing`. */
    method Install(o: seq<string>, m: map<string, Tx>, d: map<string, set<string>>, flagged: set<string>)
      requires LocusDict(o, m)
      modifies this`order, this`transcripts, this`orfDoubles, this`metricsCalculated
      modifies this`scoresCalculated, this`retainedFlagged
      ensures Valid() && order == o && transcripts == m && orfDoubles == d
      ensures metricsCalculated && scoresCalculated && retainedFlagged == flagged
    {
      order, transcripts, orfDoubles := o, m, d;
      metricsCalculated, scoresCalculated := true, true;
      retainedFlagged := flagged;
    }
  }

  /** The whole of `finalize_alternative_splicing` on values, from the locus `scored` as the
      first `calculate_scores` leaves it: `Settled`, the isoforms it flags added to
      `flagged0`, then `pad_transcripts` on the settled dict when asked to. */
  predicate Finalized(conf: SplicingConf, scored: Scored, flagged0: set<string>, primaryId: string,
                      orfCount: Tx -> nat, subScores: (map<string, Tx>, string) -> seq<real>,
                      retainedIn: (map<string, Tx>, Tx) -> nat, splices: map<string, Tx> -> set<int>,
                      after: Scored, flagged: set<string>, pads: map<string, Pad>, err: Option<Error>)
    requires LocusDict(scored.order, scored.ts)
  {
    var r := Settled(conf, scored, primaryId, orfCount, subScores, retainedIn);
    && after.order == r.0.order && after.doubles == r.0.doubles && flagged == flagged0 + r.1
    && if r.2.Some? || !conf.pad then err == r.2 && after.ts == r.0.ts && pads == map[]
       else PadOutcome(conf, splices(r.0.ts), r.0.ts, pads, err, after.ts)
  }

  /** After `finalize_alternative_splicing` the locus holds at most `max_isoforms`
      transcripts, the primary among them, every isoform within the score threshold (the
      padding keeps scores), and, when retained introns are not kept and nothing was padded,
      no isoform with a retained intron. */
  lemma FinalizedMeans(conf: SplicingConf, scored: Scored, flagged0: set<string>, primaryId: string,
                       orfCount: Tx -> nat, subScores: (map<string, Tx>, string) -> seq<real>,
                       retainedIn: (map<string, Tx>, Tx) -> nat, splices: map<string, Tx> -> set<int>,
                       after: Scored, flagged: set<string>, pads: map<string, Pad>, err: Option<Error>)
    requires LocusDict(scored.order, scored.ts) && LocusDict(after.order, after.ts)
    requires Finalized(conf, scored, flagged0, primaryId, orfCount, subScores, retainedIn, splices, after, flagged, pads, err)
    ensures after.ts.Keys <= scored.ts.Keys
    ensures err.None? ==> conf.maxIsoforms >= 1 ==> |after.ts.Keys| <= conf.maxIsoforms
    ensures err.None? ==>
      primaryId in after.ts &&
      forall k :: k in after.ts && k != primaryId ==> after.ts[k].score >= Threshold(conf, after.ts[primaryId])
    ensures err.None? && !conf.keepRetainedIntrons && !conf.pad ==>
      forall k :: k in after.ts && k != primaryId ==> retainedIn(after.ts, after.ts[k]) == 0
  {
    var r := Settled(conf, scored, primaryId, orfCount, subScores, retainedIn);
    if r.2.None? && conf.pad && err.None? {
      PaddedScores(r.0.ts, pads, after.ts);
      ThresholdKept(conf, primaryId, r.0.ts, after.ts);
    }
    if err.None? && !conf.keepRetainedIntrons && !conf.pad {
      RetainedFree(r.0.ts, primaryId, retainedIn);
    }
  }

  /** A dict with the same ids and the same scores keeps the score threshold. */
  lemma ThresholdKept(conf: SplicingConf, primaryId: string, s: map<string, Tx>, a: map<string, Tx>)
    requires primaryId in s && a.Keys == s.Keys
    requires forall k :: k in a ==> a[k].score == s[k].score
    requires forall k :: k in s && k != primaryId ==> s[k].score >= Threshold(conf, s[primaryId])
    ensures primaryId in a && forall k :: k in a && k != primaryId ==> a[k].score >= Threshold(conf, a[primaryId])
  {
    forall k | k in a && k != primaryId
      ensures a[k].score >= Threshold(conf, a[primaryId])
    {
      assert s[k].score >= Threshold(conf, s[primaryId]);
    }
  }

  /** No isoform retaining an intron means every isoform retains none. */
  lemma RetainedFree(s: map<string, Tx>, primaryId: string, retainedIn: (map<string, Tx>, Tx) -> nat)
    requires Retaining(s, primaryId, retainedIn) == {}
    ensures forall k :: k in s && k != primaryId ==> retainedIn(s, s[k]) == 0
  {
    forall k | k in s && k != primaryId
      ensures retainedIn(s, s[k]) == 0
    {
      assert k !in Retaining(s, primaryId, retainedIn);
    }
  }

  /** `finalize_alternative_splicing` on values: the corrected scoring part, then the padding. */
  method FinalizeScored(conf: SplicingConf, order: seq<string>, ts: map<string, Tx>, d: map<string, set<string>>,
                        flagged0: set<string>, primaryId: string, orfCount: Tx -> nat,
                        subScores: (map<string, Tx>, string) -> seq<real>,
                        retainedIn: (map<string, Tx>, Tx) -> nat,
                        splices: map<string, Tx> -> set<int>,
                        fiveComms: map<string, Tx> -> seq<seq<string>>,
                        threeComms: map<string, Tx> -> seq<seq<string>>)
    returns (o: seq<string>, m: map<string, Tx>, d1: map<string, set<string>>, flagged: set<string>,
             pads: map<string, Pad>, err: Option<Error>)
    requires LocusDict(order, ts)
    ensures LocusDict(o, m)
    ensures Finalized(conf, Recalc(conf, Scored(order, ts, d), orfCount, subScores), flagged0, primaryId,
                      orfCount, subScores, retainedIn, splices, Scored(o, m, d1), flagged, pads, err)
  {
    var fl;
    o, m, d1, fl, err := Settle(conf, order, ts, d, primaryId, orfCount, subScores, retainedIn);
    flagged := flagged0 + fl;
    pads := map[];
    if err.None? && conf.pad {
      m, pads, err := PadValues(conf, splices(m), o, m, fiveComms(m), threeComms(m));
    }
  }

  /** The scoring part of `finalize_alternative_splicing` as written, from the rescored
      locus: the pruning loop runs once, then the retained-intron loop. */
  function SettledAsWritten(conf: SplicingConf, s: Scored, primaryId: string, orfCount: Tx -> nat,
                            subScores: (map<string, Tx>, string) -> seq<real>,
                            retainedIn: (map<string, Tx>, Tx) -> nat): (r: (Scored, set<string>, Option<Error>))
    requires LocusDict(s.order, s.ts)
    ensures LocusDict(r.0.order, r.0.ts) && Rescoring(s.ts, r.0.ts)
    ensures r.2.Some? ==> r.2 == Some(KeyError(primaryId)) && r.1 == {}
    ensures r.2.None? ==> conf.maxIsoforms >= 1 ==> |r.0.ts.Keys| <= conf.maxIsoforms
    ensures r.2.None? && conf.keepRetainedIntrons ==>
      primaryId in r.0.ts && forall k :: k in r.0.ts && k != primaryId ==> r.0.ts[k].score >= Threshold(conf, r.0.ts[primaryId])
    ensures r.2.None? && conf.keepRetainedIntrons ==> r.1 == Retaining(r.0.ts, primaryId, retainedIn)
    ensures r.2.None? && !conf.keepRetainedIntrons ==> r.1 == {} && Retaining(r.0.ts, primaryId, retainedIn) == {}
  {
    var (p, err) := Pruned(conf, s, primaryId, orfCount, subScores);
    if err.Some? then (p, {}, err)
    else
      SelectedAll(conf, p.order, p.ts, primaryId);
      var (q, flagged) := RetainedDropped(conf, p, primaryId, retainedIn, orfCount, subScores);
      SubsetCard(q.ts.Keys, p.ts.Keys);
      RescoringTrans(s.ts, p.ts, q.ts);
      (q, flagged, None)
  }

  /** The scoring part as the method's documentation promises it, from the rescored locus:
      the pruning loop and the retained-intron loop take turns until the retained-intron
      loop deletes nothing, so that every isoform kept is within the score threshold. */
  function Settled(conf: SplicingConf, s: Scored, primaryId: string, orfCount: Tx -> nat,
                   subScores: (map<string, Tx>, string) -> seq<real>,
                   retainedIn: (map<string, Tx>, Tx) -> nat): (r: (Scored, set<string>, Option<Error>))
    requires LocusDict(s.order, s.ts)
    ensures LocusDict(r.0.order, r.0.ts) && Rescoring(s.ts, r.0.ts)
    ensures r.2.Some? ==> r.2 == Some(KeyError(primaryId)) && r.1 == {}
    ensures r.2.None? ==> conf.maxIsoforms >= 1 ==> |r.0.ts.Keys| <= conf.maxIsoforms
    ensures r.2.None? ==>
      primaryId in r.0.ts && forall k :: k in r.0.ts && k != primaryId ==> r.0.ts[k].score >= Threshold(conf, r.0.ts[primaryId])
    ensures r.2.None? && conf.keepRetainedIntrons ==> r.1 == Retaining(r.0.ts, primaryId, retainedIn)
    ensures r.2.None? && !conf.keepRetainedIntrons ==> r.1 == {} && Retaining(r.0.ts, primaryId, retainedIn) == {}
    decreases |s.ts.Keys|
  {
    var (p, err) := Pruned(conf, s, primaryId, orfCount, subScores);
    if err.Some? then (p, {}, err)
    else
      var (q, flagged) := RetainedDropped(conf, p, primaryId, retainedIn, orfCount, subScores);
      if q.ts.Keys == p.ts.Keys then
        SelectedAll(conf, p.order, p.ts, primaryId);
        (q, flagged, None)
      else
        ProperSubsetCard(q.ts.Keys, p.ts.Keys);
        SubsetCard(p.ts.Keys, s.ts.Keys);
        var r := Settled(conf, q, primaryId, orfCount, subScores, retainedIn);
        RescoringTrans(s.ts, p.ts, q.ts);
        RescoringTrans(s.ts, q.ts, r.0.ts);
        r
  }

  /** The scoring part of `finalize_alternative_splicing` as written, from a locus whose
      flags were reset: rescore, run the pruning loop, then the retained-intron loop. */
  method SettleAsWritten(conf: SplicingConf, order: seq<string>, ts: map<string, Tx>, d: map<string, set<string>>,
                         primaryId: string, orfCount: Tx -> nat, subScores: (map<string, Tx>, string) -> seq<real>,
                         retainedIn: (map<string, Tx>, Tx) -> nat)
    returns (o: seq<string>, m: map<string, Tx>, d1: map<string, set<string>>, flagged: set<string>, err: Option<Error>)
    requires LocusDict(order, ts)
    ensures (Scored(o, m, d1), flagged, err)
         == SettledAsWritten(conf, Recalc(conf, Scored(order, ts, d), orfCount, subScores), primaryId, orfCount, subScores, retainedIn)
  {
    o, m, d1 := Recalculate(conf, order, ts, d, orfCount, subScores);
    o, m, d1, err := Prune(conf, o, m, d1, primaryId, orfCount, subScores);
    flagged := {};
    if err.Some? {
      return;
    }
    o, m, d1, flagged := DropRetained(conf, o, m, d1, primaryId, retainedIn, orfCount, subScores);
  }

  /** The scoring part as evidently intended, which `FinalizeAlternativeSplicing` runs: the
      two loops are repeated until the retained-intron loop deletes nothing. */
  method Settle(conf: SplicingConf, order: seq<string>, ts: map<string, Tx>, d: map<string, set<string>>,
                primaryId: string, orfCount: Tx -> nat, subScores: (map<string, Tx>, string) -> seq<real>,
                retainedIn: (map<string, Tx>, Tx) -> nat)
    returns (o: seq<string>, m: map<string, Tx>, d1: map<string, set<string>>, flagged: set<string>, err: Option<Error>)
    requires LocusDict(order, ts)
    ensures (Scored(o, m, d1), flagged, err)
         == Settled(conf, Recalc(conf, Scored(order, ts, d), orfCount, subScores), primaryId, orfCount, subScores, retainedIn)
  {
    o, m, d1 := Recalculate(conf, order, ts, d, orfCount, subScores);
    while true
      invariant LocusDict(o, m)
      invariant Settled(conf, Scored(o, m, d1), primaryId, orfCount, subScores, retainedIn)
             == Settled(conf, Recalc(conf, Scored(order, ts, d), orfCount, subScores), primaryId, orfCount, subScores, retainedIn)
      decreases |m.Keys|
    {
      var o1, m1, d2, e := Prune(conf, o, m, d1, primaryId, orfCount, subScores);
      if e.Some? {
        return o1, m1, d2, {}, e;
      }
      var o2, m2, d3, fl := DropRetained(conf, o1, m1, d2, primaryId, retainedIn, orfCount, subScores);
      if m2.Keys == m1.Keys {
        return o2, m2, d3, fl, None;
      }
      ProperSubsetCard(m2.Keys, m1.Keys);
      SubsetCard(m1.Keys, m.Keys);
      o, m, d1 := o2, m2, d3;
    }
  }

  lemma ProperSubsetCard(a: set<string>, b: set<string>)
    requires a <= b && a != b
    ensures |a| < |b|
  {
    var x :| x in b && x !in a;
    assert b == a + (b - a);
    assert x in b - a;
  }

  /** Sub-scores under which the isoform `B` scores 10 while the isoform `A` is in the locus,
      and 1 once `A` has left it; every other transcript scores 10. */
  function WitnessScores(m: map<string, Tx>, k: string): seq<real>
  {
    if "A" in m || k != "B" then [10.0] else [1.0]
  }

  /** Only the isoform `A` retains an intron. */
  function WitnessRetained(m: map<string, Tx>, t: Tx): nat
  {
    if t.id == "A" then 1 else 0
  }

  function OneOrf(t: Tx): nat
  {
    1
  }

  /** As written, the retained-intron loop rescores the locus and never checks the threshold
      again: with the primary `P` and isoforms `A` (a retained intron) and `B`, all scoring 10
      and kept at `min_score_perc` 0.5, deleting `A` leaves `B` scored 1, below half the
      primary's 10, and `B` stays in the locus. `Settled` never keeps such an isoform. */
  lemma SettleAsWrittenBelowThreshold(conf: SplicingConf, p: Tx, a: Tx, b: Tx)
    requires p.id == "P" && a.id == "A" && b.id == "B"
    requires p.exons != [] && a.exons != [] && b.exons != []
    requires conf.maxIsoforms == 4 && conf.minScorePerc == 0.5
    requires !conf.keepRetainedIntrons && !conf.reportAllOrfs
    ensures var s := Recalc(conf, Scored(["P", "A", "B"], map["P" := p, "A" := a, "B" := b], map[]), OneOrf, WitnessScores);
      var r := SettledAsWritten(conf, s, "P", OneOrf, WitnessScores, WitnessRetained);
      && r.2 == None && "P" in r.0.ts && "B" in r.0.ts
      && r.0.ts["B"].score < Threshold(conf, r.0.ts["P"])
  {
    var ts := map["P" := p, "A" := a, "B" := b];
    assert LocusDict(["P", "A", "B"], ts) && ts.Keys == {"P", "A", "B"};
    WitnessFrom(conf, ts);
  }

  /** The witness from any dict of `P`, `A` and `B` in that order. */
  lemma WitnessFrom(conf: SplicingConf, ts: map<string, Tx>)
    requires conf.maxIsoforms == 4 && conf.minScorePerc == 0.5
    requires !conf.keepRetainedIntrons && !conf.reportAllOrfs
    requires LocusDict(["P", "A", "B"], ts) && ts.Keys == {"P", "A", "B"}
    ensures var s := Recalc(conf, Scored(["P", "A", "B"], ts, map[]), OneOrf, WitnessScores);
      var r := SettledAsWritten(conf, s, "P", OneOrf, WitnessScores, WitnessRetained);
      && r.2 == None && "P" in r.0.ts && "B" in r.0.ts
      && r.0.ts["B"].score < Threshold(conf, r.0.ts["P"])
  {
    var s0 := Scored(["P", "A", "B"], ts, map[]);
    RecalcUnreported(conf, s0, OneOrf, WitnessScores);
    var s := Recalc(conf, s0, OneOrf, WitnessScores);
    WitnessRescored(ts, s.ts);
    WitnessSettled(conf, s);
  }

  /** From the rescored witness, `SettledAsWritten` ends with `P` at 10 and `B` at 1. */
  lemma WitnessSettled(conf: SplicingConf, s: Scored)
    requires conf.maxIsoforms == 4 && conf.minScorePerc == 0.5
    requires !conf.keepRetainedIntrons && !conf.reportAllOrfs
    requires LocusDict(s.order, s.ts) && s.doubles == map[] && s.ts.Keys == {"P", "A", "B"}
    requires forall k :: k in s.ts ==> s.ts[k].score == 10.0
    requires Retaining(s.ts, "P", WitnessRetained) == {"A"}
    ensures var r := SettledAsWritten(conf, s, "P", OneOrf, WitnessScores, WitnessRetained);
      && r.2 == None && "P" in r.0.ts && "B" in r.0.ts
      && r.0.ts["B"].score < Threshold(conf, r.0.ts["P"])
  {
    WitnessPruned(conf, s);
    WitnessDropped(conf, s);
    var n := Deleted(conf, s, {"A"}, OneOrf, WitnessScores);
    assert SettledAsWritten(conf, s, "P", OneOrf, WitnessScores, WitnessRetained) == (n, {}, None);
    assert Threshold(conf, n.ts["P"]) == 5.0;
  }

  /** The pruning loop keeps the whole rescored witness: three transcripts, all at 10. */
  lemma WitnessPruned(conf: SplicingConf, s: Scored)
    requires conf.maxIsoforms == 4 && conf.minScorePerc == 0.5
    requires LocusDict(s.order, s.ts) && s.ts.Keys == {"P", "A", "B"}
    requires forall k :: k in s.ts ==> s.ts[k].score == 10.0
    ensures Pruned(conf, s, "P", OneOrf, WitnessScores) == (s, None)
  {
    assert |s.ts.Keys| == 3;
    assert Threshold(conf, s.ts["P"]) == 5.0;
    SelectedAllAbove(conf, s.order, s.ts, "P");
  }

  /** The retained-intron loop deletes `A`, rescores `B` to 1, and stops. */
  lemma WitnessDropped(conf: SplicingConf, s: Scored)
    requires !conf.keepRetainedIntrons && !conf.reportAllOrfs
    requires LocusDict(s.order, s.ts) && s.doubles == map[] && s.ts.Keys == {"P", "A", "B"}
    requires Retaining(s.ts, "P", WitnessRetained) == {"A"}
    ensures var n := Deleted(conf, s, {"A"}, OneOrf, WitnessScores);
      && RetainedDropped(conf, s, "P", WitnessRetained, OneOrf, WitnessScores) == (n, {})
      && n.ts.Keys == {"P", "B"} && n.ts["B"].score == 1.0 && n.ts["P"].score == 10.0
  {
    var n := Deleted(conf, s, {"A"}, OneOrf, WitnessScores);
    WitnessAfterDelete(conf, s, n);
    assert RetainedDropped(conf, n, "P", WitnessRetained, OneOrf, WitnessScores) == (n, {});
  }

  /** Deleting `A` from the rescored witness and rescoring. */
  lemma WitnessAfterDelete(conf: SplicingConf, s: Scored, n: Scored)
    requires !conf.reportAllOrfs
    requires LocusDict(s.order, s.ts) && s.ts.Keys == {"P", "A", "B"}
    requires LocusDict(Without(s.order, {"A"}), s.ts - {"A"})
    requires n == Recalc(conf, Scored(Without(s.order, {"A"}), s.ts - {"A"}, map[]), OneOrf, WitnessScores)
    ensures n.ts.Keys == {"P", "B"} && n.ts["B"].score == 1.0 && n.ts["P"].score == 10.0
    ensures Retaining(n.ts, "P", WitnessRetained) == {}
  {
    var m := s.ts - {"A"};
    WitnessRemoved(s.ts);
    RecalcUnreported(conf, Scored(Without(s.order, {"A"}), m, map[]), OneOrf, WitnessScores);
    WitnessDeleted(m, n.ts);
  }

  lemma WitnessRemoved(ts: map<string, Tx>)
    requires ts.Keys == {"P", "A", "B"} && forall k :: k in ts ==> ts[k].id == k
    ensures (ts - {"A"}).Keys == {"P", "B"} && forall k :: k in ts - {"A"} ==> (ts - {"A"})[k].id == k
  {
  }

  /** With no ORF copies recorded and only the first ORF reported, `calculate_scores` only
      rescores: no id is recorded as a copy and no transcript leaves the dict. */
  lemma RecalcUnreported(conf: SplicingConf, s: Scored, orfCount: Tx -> nat,
                         subScores: (map<string, Tx>, string) -> seq<real>)
    requires LocusDict(s.order, s.ts) && s.doubles == map[] && !conf.reportAllOrfs
    ensures var r := Recalc(conf, s, orfCount, subScores);
      && r.doubles == map[] && r.ts.Keys == s.ts.Keys
      && forall k :: k in r.ts ==> r.ts[k] == Rescored(s.ts, map[], subScores, k)
  {
    DoubledUnreported(map[], s.order, s.ts, orfCount);
    assert AllClones(map[]) == {};
  }

  /** The first `calculate_scores` of the witness: all three transcripts score 10 and only
      `A` retains an intron. */
  lemma WitnessRescored(ts: map<string, Tx>, m: map<string, Tx>)
    requires ts.Keys == {"P", "A", "B"} && forall k :: k in ts ==> ts[k].id == k
    requires m.Keys == ts.Keys && forall k :: k in m ==> m[k] == Rescored(ts, map[], WitnessScores, k)
    ensures forall k :: k in m ==> m[k].score == 10.0
    ensures Retaining(m, "P", WitnessRetained) == {"A"}
  {
    forall k | k in m
      ensures m[k].score == 10.0
    {
      WitnessScore(ts, k);
    }
    WitnessRetaining(m);
  }

  /** Deleting `A` from the rescored witness and rescoring leaves `P` at 10 and `B` at 1,
      with no intron retained. */
  lemma WitnessDeleted(ts: map<string, Tx>, m: map<string, Tx>)
    requires ts.Keys == {"P", "B"} && forall k :: k in ts ==> ts[k].id == k
    requires m.Keys == ts.Keys && forall k :: k in m ==> m[k] == Rescored(ts, map[], WitnessScores, k)
    ensures m["B"].score == 1.0 && m["P"].score == 10.0
    ensures Retaining(m, "P", WitnessRetained) == {}
  {
    WitnessScore(ts, "B");
    WitnessScore(ts, "P");
    WitnessRetaining(m);
  }

  /** Only `A` retains an intron under `WitnessRetained`. */
  lemma WitnessRetaining(m: map<string, Tx>)
    requires forall k :: k in m ==> m[k].id == k
    ensures Retaining(m, "P", WitnessRetained) == if "A" in m then {"A"} else {}
  {
  }

  /** What a transcript scores under `WitnessScores` when nothing is an ORF copy. */
  lemma WitnessScore(m: map<string, Tx>, k: string)
    requires k in m
    ensures Rescored(m, map[], WitnessScores, k).score == if "A" in m || k != "B" then 10.0 else 1.0
  {
    assert [10.0][..0] == [] && [1.0][..0] == [];
  }

  lemma SubsetCard(a: set<string>, b: set<string>)
    requires a <= b
    ensures |a| <= |b|
  {
    assert b == a + (b - a);
  }
}
