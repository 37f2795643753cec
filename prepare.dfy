/** The first step of `mikado prepare`: every transcript read from the per-file shelves is
    checked, filtered by cDNA length, keyed by its chromosome and outer span, and the keys are
    emitted in sorted order; among transcripts sharing a span, those with an identical exon
    chain on the same strand are reduced to a single, arbitrarily chosen representative. */
module Preparation {
  import opened Optional
  import opened Intervals
  import Sorting
  import Text

  /** One transcript as stored in a shelf: chromosome, strand, and its feature lists by
      feature name (`None` when the record has no "features" entry at all). */
  datatype Record = Record(chrom: string, strand: Option<char>, features: Option<map<string, seq<Interval>>>)

  /** A shelf: its name and its transcript records in iteration order. */
  datatype Shelf = Shelf(name: string, lines: seq<(string, Record)>)

  /** A transcript as the first pass remembers it: its id, the shelf it came from, and the
      record the shelf holds under that id. */
  datatype Member = Member(tid: string, shelf: string, rec: Record)

  /** Chromosome and outer span (`min` of exon starts, `max` of exon ends). */
  datatype Key = Key(chrom: string, start: int, end: int)

  /** One yielded item, `[(tid, shelf), chrom, (start, end)]`: the id comes paired with the
      name of the shelf that holds its record. */
  datatype Entry = Entry(tid: string, shelf: string, chrom: string, start: int, end: int)

  datatype Error = KeyError(key: string) | ValueError

  datatype Result<T> = Ok(value: T) | Fail(err: Error)

  /** What the first pass does with one record. */
  datatype Decision = Skip | Place(key: Key) | Raise(err: Error)

  /** The first pass's table: the keys in insertion order and, per key, the transcripts placed
      there in visiting order. */
  datatype Table = Table(order: seq<Key>, groups: map<Key, seq<Member>>)

  /** One exon of an intron chain together with the transcript's strand. */
  datatype Site = Site(start: int, end: int, strand: Option<char>)

  // ---------------------------------------------------------------------------------------
  // One record

  /** The exon list of a record; empty when the record has no features or no "exon" entry. */
  function Exons(r: Record): seq<Interval>
  {
    if r.features.Some? && "exon" in r.features.value then r.features.value["exon"] else []
  }

  /** The record has features and at least one exon. */
  predicate Usable(r: Record)
  {
    r.features.Some? && Exons(r) != []
  }

  /** `start` and `end` are the smallest exon start and the largest exon end. */
  predicate Spans(exons: seq<Interval>, start: int, end: int)
  {
    && (forall i :: 0 <= i < |exons| ==> start <= exons[i].start && exons[i].end <= end)
    && (exists i :: 0 <= i < |exons| && exons[i].start == start)
    && (exists i :: 0 <= i < |exons| && exons[i].end == end)
  }

  /** `min` of the exon starts. */
  function MinStart(exons: seq<Interval>): int
    requires exons != []
  {
    if |exons| == 1 then exons[0].start else Min(exons[0].start, MinStart(exons[1..]))
  }

  /** `max` of the exon ends. */
  function MaxEnd(exons: seq<Interval>): int
    requires exons != []
  {
    if |exons| == 1 then exons[0].end else Max(exons[0].end, MaxEnd(exons[1..]))
  }

  /** The computed span is the smallest start and the largest end of the exons. */
  lemma {:induction false} OuterSpan(exons: seq<Interval>)
    requires exons != []
    ensures Spans(exons, MinStart(exons), MaxEnd(exons))
  {
    if |exons| > 1 {
      OuterSpan(exons[1..]);
      var i :| 0 <= i < |exons[1..]| && exons[1..][i].start == MinStart(exons[1..]);
      var j :| 0 <= j < |exons[1..]| && exons[1..][j].end == MaxEnd(exons[1..]);
      assert exons[i + 1] == exons[1..][i] && exons[j + 1] == exons[1..][j];
      forall k | 1 <= k < |exons| ensures MinStart(exons) <= exons[k].start && exons[k].end <= MaxEnd(exons) {
        assert exons[k] == exons[1..][k - 1];
      }
    }
  }

  /** The first pass's decision for one transcript, with the skip that the warning about a
      missing or empty exon list announces: a record without features raises `KeyError`, one
      without exons or shorter than `minLength` is skipped, and every other one is placed at
      its chromosome and outer span. */
  function Placement(m: Member, minLength: int): Decision
  {
    match m.rec.features
    case None => Raise(KeyError(m.tid))
    case Some(f) =>
      if "exon" !in f || f["exon"] == [] then Skip
      else if TotalLength(f["exon"]) < minLength then Skip
      else Place(Key(m.rec.chrom, MinStart(f["exon"]), MaxEnd(f["exon"])))
  }

  /** The decision raises exactly for a record without features, with the transcript's id;
      it places exactly the records with exons and at least `minLength` bases, at their
      chromosome and outer span. */
  lemma PlacementMeaning(m: Member, minLength: int)
    ensures Placement(m, minLength).Raise? <==> m.rec.features.None?
    ensures Placement(m, minLength).Raise? ==> Placement(m, minLength).err == KeyError(m.tid)
    ensures Placement(m, minLength).Place? <==> Usable(m.rec) && TotalLength(Exons(m.rec)) >= minLength
    ensures Placement(m, minLength).Place? ==>
      var k := Placement(m, minLength).key;
      k.chrom == m.rec.chrom && Spans(Exons(m.rec), k.start, k.end)
  {
    if Usable(m.rec) {
      OuterSpan(Exons(m.rec));
    }
  }

  /** The same decision as the code is written: after the warning the code goes on to take
      the minimum of the exon starts, which raises `KeyError` for a missing exon list and
      `ValueError` for an empty one. */
  function PlacementAsWritten(m: Member, minLength: int): (p: Decision)
    ensures m.rec.features.Some? && "exon" !in m.rec.features.value ==> p == Raise(KeyError("exon"))
    ensures m.rec.features.Some? && "exon" in m.rec.features.value && m.rec.features.value["exon"] == []
      ==> p == Raise(ValueError)
    ensures m.rec.features.None? || Usable(m.rec) ==> p == Placement(m, minLength)
  {
    match m.rec.features
    case None => Raise(KeyError(m.tid))
    case Some(f) =>
      if "exon" !in f then Raise(KeyError("exon"))
      else if f["exon"] == [] then Raise(ValueError)
      else if TotalLength(f["exon"]) < minLength then Skip
      else Place(Key(m.rec.chrom, MinStart(f["exon"]), MaxEnd(f["exon"])))
  }

  /** A transcript with an empty exon list stops the whole preparation as written, where the
      logged message says it is passed over. */
  lemma EmptyExonListAborts()
    ensures var m := Member("t1", "s", Record("chr1", None, Some(map["exon" := []])));
      PlacementAsWritten(m, 0) == Raise(ValueError) && Placement(m, 0) == Skip
  {
  }

  // ---------------------------------------------------------------------------------------
  // First pass: the table of spans

  /** Every transcript of a shelf, in iteration order. */
  function Members(name: string, lines: seq<(string, Record)>): seq<Member>
  {
    if lines == [] then []
    else Members(name, lines[..|lines| - 1]) + [Member(lines[|lines| - 1].0, name, lines[|lines| - 1].1)]
  }

  /** Every transcript of every shelf, in the order the first pass visits them. */
  function Visits(stacks: seq<Shelf>): seq<Member>
  {
    if stacks == [] then []
    else Visits(stacks[..|stacks| - 1]) + Members(stacks[|stacks| - 1].name, stacks[|stacks| - 1].lines)
  }

  /** Keys listed once each, exactly the keys of the groups, and no empty group. */
  predicate TableOk(t: Table)
  {
    && (forall i, j :: 0 <= i < j < |t.order| ==> t.order[i] != t.order[j])
    && (forall k :: k in t.order ==> k in t.groups)
    && (forall k :: k in t.groups ==> k in t.order && t.groups[k] != [])
  }

  /** Append a transcript to the list at `k`, creating the list first when the key is new. */
  function Add(t: Table, k: Key, m: Member): Table
  {
    if k in t.groups then Table(t.order, t.groups[k := t.groups[k] + [m]])
    else Table(t.order + [k], t.groups[k := [m]])
  }

  function Step(acc: Result<Table>, m: Member, minLength: int): Result<Table>
  {
    if acc.Fail? then acc
    else
      match Placement(m, minLength)
      case Skip => acc
      case Raise(e) => Fail(e)
      case Place(k) => Ok(Add(acc.value, k, m))
  }

  /** The table the first pass builds from the visited transcripts, or the error it stops at. */
  function Fill(ms: seq<Member>, minLength: int): Result<Table>
  {
    if ms == [] then Ok(Table([], map[]))
    else Step(Fill(ms[..|ms| - 1], minLength), ms[|ms| - 1], minLength)
  }

  lemma FillSnoc(ms: seq<Member>, m: Member, minLength: int)
    ensures Fill(ms + [m], minLength) == Step(Fill(ms, minLength), m, minLength)
  {
    assert (ms + [m])[..|ms|] == ms;
  }

  /** The transcripts placed at `k`, in visiting order. */
  function At(ms: seq<Member>, k: Key, minLength: int): seq<Member>
  {
    if ms == [] then []
    else At(ms[..|ms| - 1], k, minLength) + (if Placement(ms[|ms| - 1], minLength) == Place(k) then [ms[|ms| - 1]] else [])
  }

  lemma {:induction false} AtMembers(ms: seq<Member>, k: Key, minLength: int)
    ensures forall m :: m in At(ms, k, minLength) <==> m in ms && Placement(m, minLength) == Place(k)
  {
    if ms != [] {
      var n := |ms| - 1;
      AtMembers(ms[..n], k, minLength);
      assert ms == ms[..n] + [ms[n]];
    }
  }

  /** Once the first pass has failed, later transcripts do not change the outcome. */
  lemma {:induction false} FillFailStays(p: seq<Member>, s: seq<Member>, minLength: int)
    requires p <= s
    requires Fill(p, minLength).Fail?
    ensures Fill(s, minLength) == Fill(p, minLength)
  {
    if |s| > |p| {
      var n := |s| - 1;
      assert p <= s[..n];
      FillFailStays(p, s[..n], minLength);
      assert Fill(s, minLength) == Step(Fill(s[..n], minLength), s[n], minLength);
    } else {
      assert p == s;
    }
  }

  /** The first pass fails exactly when some visited record has no features, and it fails
      with the `KeyError` of the first such record. */
  lemma {:induction false} FillError(ms: seq<Member>, minLength: int)
    ensures Fill(ms, minLength).Fail? <==> exists i :: 0 <= i < |ms| && ms[i].rec.features.None?
    ensures Fill(ms, minLength).Fail? ==>
      exists i :: 0 <= i < |ms| && ms[i].rec.features.None? && Fill(ms, minLength).err == KeyError(ms[i].tid)
        && forall j :: 0 <= j < i ==> ms[j].rec.features.Some?
  {
    if ms != [] {
      var n := |ms| - 1;
      FillError(ms[..n], minLength);
      PlacementMeaning(ms[n], minLength);
      if Fill(ms[..n], minLength).Ok? {
        assert forall j :: 0 <= j < n ==> ms[j].rec.features.Some? by {
          forall j | 0 <= j < n ensures ms[j].rec.features.Some? {
            assert ms[..n][j] == ms[j];
          }
        }
      } else {
        var i :| 0 <= i < n && ms[..n][i].rec.features.None? && Fill(ms[..n], minLength).err == KeyError(ms[..n][i].tid)
          && forall j :: 0 <= j < i ==> ms[..n][j].rec.features.Some?;
        assert ms[i] == ms[..n][i];
        assert forall j :: 0 <= j < i ==> ms[j] == ms[..n][j];
      }
    }
  }

  /** `t` is well formed and holds, at every key, exactly the transcripts of `ms` placed there. */
  ghost predicate Matches(t: Table, ms: seq<Member>, minLength: int)
  {
    && TableOk(t)
    && (forall k :: k in t.groups ==> t.groups[k] == At(ms, k, minLength))
    && (forall k :: At(ms, k, minLength) != [] ==> k in t.groups)
  }

  lemma AtSnoc(ms: seq<Member>, x: Member, minLength: int)
    ensures forall k :: At(ms + [x], k, minLength) == At(ms, k, minLength) + if Placement(x, minLength) == Place(k) then [x] else []
  {
    assert (ms + [x])[..|ms|] == ms;
  }

  lemma AddKeepsTableOk(t: Table, k: Key, m: Member)
    requires TableOk(t)
    ensures TableOk(Add(t, k, m))
  {
  }

  lemma PlaceMatches(t: Table, ms: seq<Member>, x: Member, minLength: int)
    requires Matches(t, ms, minLength) && Placement(x, minLength).Place?
    ensures Matches(Add(t, Placement(x, minLength).key, x), ms + [x], minLength)
  {
    var k0 := Placement(x, minLength).key;
    var t2 := Add(t, k0, x);
    AtSnoc(ms, x, minLength);
    AddKeepsTableOk(t, k0, x);
    forall k | k in t2.groups ensures t2.groups[k] == At(ms + [x], k, minLength) {
    }
    forall k | At(ms + [x], k, minLength) != [] ensures k in t2.groups {
    }
  }

  lemma SkipMatches(t: Table, ms: seq<Member>, x: Member, minLength: int)
    requires Matches(t, ms, minLength) && !Placement(x, minLength).Place?
    ensures Matches(t, ms + [x], minLength)
  {
    AtSnoc(ms, x, minLength);
  }

  /** A successful first pass builds a well-formed table whose list at each key is exactly the
      transcripts placed there, in visiting order, and which has a key for every placement. */
  lemma {:induction false} FillTable(ms: seq<Member>, minLength: int)
    requires Fill(ms, minLength).Ok?
    ensures Matches(Fill(ms, minLength).value, ms, minLength)
  {
    if ms != [] {
      var n := |ms| - 1;
      var pre, x := ms[..n], ms[n];
      assert ms == pre + [x];
      FillSnoc(pre, x, minLength);
      FillTable(pre, minLength);
      if Placement(x, minLength).Place? {
        PlaceMatches(Fill(pre, minLength).value, pre, x, minLength);
      } else {
        SkipMatches(Fill(pre, minLength).value, pre, x, minLength);
      }
    }
  }

  /** The transcripts visited up to line `j` of shelf `i`. */
  function Upto(stacks: seq<Shelf>, i: nat, j: nat): seq<Member>
    requires i < |stacks| && j <= |stacks[i].lines|
  {
    Visits(stacks[..i]) + Members(stacks[i].name, stacks[i].lines[..j])
  }

  lemma UptoStart(stacks: seq<Shelf>, i: nat)
    requires i < |stacks|
    ensures Upto(stacks, i, 0) == Visits(stacks[..i])
  {
    assert stacks[i].lines[..0] == [];
  }

  lemma UptoStep(stacks: seq<Shelf>, i: nat, j: nat)
    requires i < |stacks| && j < |stacks[i].lines|
    ensures Upto(stacks, i, j + 1) == Upto(stacks, i, j) + [Member(stacks[i].lines[j].0, stacks[i].name, stacks[i].lines[j].1)]
  {
    assert stacks[i].lines[..j + 1][..j] == stacks[i].lines[..j];
  }

  lemma UptoEnd(stacks: seq<Shelf>, i: nat)
    requires i < |stacks|
    ensures Upto(stacks, i, |stacks[i].lines|) == Visits(stacks[..i + 1])
  {
    assert stacks[..i + 1][..i] == stacks[..i];
    assert stacks[i].lines[..|stacks[i].lines|] == stacks[i].lines;
  }

  lemma {:induction false} MembersPrefix(name: string, lines: seq<(string, Record)>, j: nat)
    requires j <= |lines|
    ensures Members(name, lines[..j]) <= Members(name, lines)
  {
    if j < |lines| {
      var n := |lines| - 1;
      assert lines[..n][..j] == lines[..j];
      MembersPrefix(name, lines[..n], j);
    } else {
      assert lines[..j] == lines;
    }
  }

  lemma {:induction false} VisitsPrefix(stacks: seq<Shelf>, i: nat)
    requires i <= |stacks|
    ensures Visits(stacks[..i]) <= Visits(stacks)
  {
    if i < |stacks| {
      var n := |stacks| - 1;
      assert stacks[..n][..i] == stacks[..i];
      VisitsPrefix(stacks[..n], i);
    } else {
      assert stacks[..i] == stacks;
    }
  }

  /** The transcripts visited so far are the start of all the visits. */
  lemma UptoPrefix(stacks: seq<Shelf>, i: nat, j: nat)
    requires i < |stacks| && j <= |stacks[i].lines|
    ensures Upto(stacks, i, j) <= Visits(stacks)
  {
    var a, m1, m := Visits(stacks[..i]), Members(stacks[i].name, stacks[i].lines[..j]), Members(stacks[i].name, stacks[i].lines);
    var v := Visits(stacks);
    MembersPrefix(stacks[i].name, stacks[i].lines, j);
    VisitsPrefix(stacks, i + 1);
    UptoEnd(stacks, i);
    assert stacks[i].lines[..|stacks[i].lines|] == stacks[i].lines;
    assert a + m <= v;
    forall k | 0 <= k < |a + m1| ensures (a + m1)[k] == v[k] {
      if k >= |a| {
        assert m1[k - |a|] == m[k - |a|];
      }
      assert (a + m1)[k] == (a + m)[k];
    }
  }

  /** The first loop of `store_transcripts`: visit every transcript of every shelf, stop with
      `KeyError` on a record without features, skip records without exons or shorter than
      `minLength`, and append the others to the list at their chromosome and span. */
  method Collect(stacks: seq<Shelf>, minLength: int) returns (res: Result<Table>)
    ensures res == Fill(Visits(stacks), minLength)
  {
    var t := Table([], map[]);
    for i := 0 to |stacks|
      invariant Fill(Visits(stacks[..i]), minLength) == Ok(t)
    {
      var r := CollectShelf(stacks, i, t, minLength);
      if r.Fail? {
        return r;
      }
      t := r.value;
    }
    assert stacks[..|stacks|] == stacks;
    return Ok(t);
  }

  /** The inner loop of the first pass, over the transcripts of shelf `i`. */
  method CollectShelf(stacks: seq<Shelf>, i: nat, t0: Table, minLength: int) returns (res: Result<Table>)
    requires i < |stacks| && Fill(Visits(stacks[..i]), minLength) == Ok(t0)
    ensures res.Fail? ==> res == Fill(Visits(stacks), minLength)
    ensures res.Ok? ==> res == Fill(Visits(stacks[..i + 1]), minLength)
  {
    var t := t0;
    UptoStart(stacks, i);
    for j := 0 to |stacks[i].lines|
      invariant Fill(Upto(stacks, i, j), minLength) == Ok(t)
    {
      var m := Member(stacks[i].lines[j].0, stacks[i].name, stacks[i].lines[j].1);
      UptoStep(stacks, i, j);
      FillSnoc(Upto(stacks, i, j), m, minLength);
      match Placement(m, minLength)
      case Raise(e) =>
        UptoPrefix(stacks, i, j + 1);
        FillFailStays(Upto(stacks, i, j + 1), Visits(stacks), minLength);
        return Fail(e);
      case Skip =>
      case Place(k) =>
        t := Add(t, k, m);
    }
    UptoEnd(stacks, i);
    return Ok(t);
  }

  // ---------------------------------------------------------------------------------------
  // Identical intron chains

  /** Exon order on `(start, end)`, as `operator.itemgetter(0, 1)` sorts the chain. */
  predicate SiteLe(a: Site, b: Site)
  {
    a.start < b.start || (a.start == b.start && a.end <= b.end)
  }

  /** The chain a transcript is compared by: its exons with its strand, sorted by position. */
  function ExonChain(r: Record): seq<Site>
  {
    var exons := Exons(r);
    Sorting.Sort(seq(|exons|, i requires 0 <= i < |exons| => Site(exons[i].start, exons[i].end, r.strand)), SiteLe)
  }

  /** The distinct chains of `ms`, in order of first occurrence. */
  function Chains(ms: seq<Member>): seq<seq<Site>>
  {
    if ms == [] then []
    else
      var c := Chains(ms[..|ms| - 1]);
      if ExonChain(ms[|ms| - 1].rec) in c then c else c + [ExonChain(ms[|ms| - 1].rec)]
  }

  /** The transcripts of `ms` with chain `c`, in order. */
  function Group(ms: seq<Member>, c: seq<Site>): seq<Member>
  {
    if ms == [] then []
    else Group(ms[..|ms| - 1], c) + (if ExonChain(ms[|ms| - 1].rec) == c then [ms[|ms| - 1]] else [])
  }

  /** How the chains and the groups grow by one transcript. */
  lemma PrefixStep(ms: seq<Member>, i: nat)
    requires i < |ms|
    ensures Chains(ms[..i + 1]) ==
      if ExonChain(ms[i].rec) in Chains(ms[..i]) then Chains(ms[..i]) else Chains(ms[..i]) + [ExonChain(ms[i].rec)]
    ensures forall c :: Group(ms[..i + 1], c) == Group(ms[..i], c) + if ExonChain(ms[i].rec) == c then [ms[i]] else []
  {
    assert ms[..i + 1][..i] == ms[..i];
  }

  /** A chain not yet seen has no transcripts. */
  lemma {:induction false} GroupEmpty(ms: seq<Member>, c: seq<Site>)
    requires c !in Chains(ms)
    ensures Group(ms, c) == []
  {
    if ms != [] {
      var n := |ms| - 1;
      GroupEmpty(ms[..n], c);
    }
  }

  lemma {:induction false} GroupMembers(ms: seq<Member>, c: seq<Site>)
    ensures forall m :: m in Group(ms, c) <==> m in ms && ExonChain(m.rec) == c
  {
    if ms != [] {
      var n := |ms| - 1;
      GroupMembers(ms[..n], c);
      assert ms == ms[..n] + [ms[n]];
    }
  }

  /** Each chain is listed once, and the listed chains are exactly those of the transcripts. */
  lemma {:induction false} ChainsExact(ms: seq<Member>)
    ensures forall i, j :: 0 <= i < j < |Chains(ms)| ==> Chains(ms)[i] != Chains(ms)[j]
    ensures forall c :: c in Chains(ms) <==> exists m :: m in ms && ExonChain(m.rec) == c
  {
    if ms != [] {
      var n := |ms| - 1;
      ChainsExact(ms[..n]);
      assert ms == ms[..n] + [ms[n]];
    }
  }

  /** `kept` holds one transcript per distinct chain of `ms`, in order of the chains' first
      occurrence, each chosen among the transcripts with that chain. */
  predicate Deduped(ms: seq<Member>, kept: seq<Member>)
  {
    && |kept| == |Chains(ms)|
    && forall i :: 0 <= i < |kept| ==> kept[i] in Group(ms, Chains(ms)[i])
  }

  /** The first loop of the deduplication: the distinct chains of one span in order of first
      occurrence, and the transcripts of each chain. */
  method GroupByChain(tids: seq<Member>) returns (chains: seq<seq<Site>>, exons: map<seq<Site>, seq<Member>>)
    ensures chains == Chains(tids)
    ensures forall c :: c in exons <==> c in chains
    ensures forall c :: c in exons ==> exons[c] == Group(tids, c)
  {
    chains, exons := [], map[];
    for i := 0 to |tids|
      invariant chains == Chains(tids[..i])
      invariant forall c :: c in exons <==> c in chains
      invariant forall c :: c in exons ==> exons[c] == Group(tids[..i], c)
    {
      var m := tids[i];
      var chain := ExonChain(m.rec);
      PrefixStep(tids, i);
      if chain !in exons {
        GroupEmpty(tids[..i], chain);
        chains := chains + [chain];
        exons := exons[chain := []];
      }
      exons := exons[chain := exons[chain] + [m]];
    }
    assert tids[..|tids|] == tids;
  }

  /** Group the transcripts of one span by chain, keep one transcript chosen at random from
      each group with more than one member, and keep the single member of every other group. */
  method Deduplicate(tids: seq<Member>) returns (kept: seq<Member>)
    ensures Deduped(tids, kept)
  {
    var chains, exons := GroupByChain(tids);
    ChainsGroups(tids);
    assert forall n :: 0 <= n < |chains| ==> chains[n] in exons && exons[chains[n]] != [] by {
      forall n | 0 <= n < |chains| ensures chains[n] in exons && exons[chains[n]] != [] {
        assert chains[n] in chains;
      }
    }
    kept := [];
    for i := 0 to |chains|
      invariant |kept| == i
      invariant forall n :: 0 <= n < i ==> kept[n] in exons[chains[n]]
    {
      var list := exons[chains[i]];
      if |list| > 1 {
        var j :| 0 <= j < |list|;
        PickStep(kept, [list[j]], exons, chains);
        kept := kept + [list[j]];
      } else {
        assert list == [list[0]];
        PickStep(kept, list, exons, chains);
        kept := kept + list;
      }
    }
  }

  lemma PickStep(kept: seq<Member>, add: seq<Member>, exons: map<seq<Site>, seq<Member>>, chains: seq<seq<Site>>)
    requires |kept| < |chains| && forall n :: 0 <= n < |chains| ==> chains[n] in exons
    requires |add| == 1 && add[0] in exons[chains[|kept|]]
    requires forall n :: 0 <= n < |kept| ==> kept[n] in exons[chains[n]]
    ensures forall n :: 0 <= n < |kept + add| ==> (kept + add)[n] in exons[chains[n]]
  {
  }

  /** Every listed chain has at least one transcript. */
  lemma ChainsGroups(ms: seq<Member>)
    ensures forall i :: 0 <= i < |Chains(ms)| ==> Group(ms, Chains(ms)[i]) != []
  {
    ChainsExact(ms);
    forall i | 0 <= i < |Chains(ms)| ensures Group(ms, Chains(ms)[i]) != [] {
      assert Chains(ms)[i] in Chains(ms);
      var m :| m in ms && ExonChain(m.rec) == Chains(ms)[i];
      GroupMembers(ms, Chains(ms)[i]);
      assert m in Group(ms, Chains(ms)[i]);
    }
  }

  /** A single transcript is already deduplicated, which is why the source only groups spans
      holding more than one. */
  lemma SingleDeduped(ms: seq<Member>)
    requires |ms| == 1
    ensures Deduped(ms, ms)
  {
    assert ms[..0] == [];
  }

  lemma DedupedChains(ms: seq<Member>, kept: seq<Member>)
    requires Deduped(ms, kept)
    ensures forall i :: 0 <= i < |kept| ==> kept[i] in ms && ExonChain(kept[i].rec) == Chains(ms)[i]
  {
    forall i | 0 <= i < |kept| ensures kept[i] in ms && ExonChain(kept[i].rec) == Chains(ms)[i] {
      GroupMembers(ms, Chains(ms)[i]);
    }
  }

  /** After deduplication every chain of the span is represented by exactly one kept
      transcript, and every kept transcript comes from the span. */
  lemma DedupedOnePerChain(ms: seq<Member>, kept: seq<Member>)
    requires Deduped(ms, kept)
    ensures forall n :: n in kept ==> n in ms
    ensures forall m :: m in ms ==> exists i :: 0 <= i < |kept| && ExonChain(kept[i].rec) == ExonChain(m.rec)
    ensures forall i, j :: 0 <= i < j < |kept| ==> ExonChain(kept[i].rec) != ExonChain(kept[j].rec)
  {
    DedupedFromSpan(ms, kept);
    DedupedCovers(ms, kept);
    DedupedDistinct(ms, kept);
  }

  lemma DedupedFromSpan(ms: seq<Member>, kept: seq<Member>)
    requires Deduped(ms, kept)
    ensures forall n :: n in kept ==> n in ms
  {
    DedupedChains(ms, kept);
    forall n | n in kept ensures n in ms {
      var i :| 0 <= i < |kept| && kept[i] == n;
    }
  }

  lemma DedupedCovers(ms: seq<Member>, kept: seq<Member>)
    requires Deduped(ms, kept)
    ensures forall m :: m in ms ==> exists i :: 0 <= i < |kept| && ExonChain(kept[i].rec) == ExonChain(m.rec)
  {
    ChainsExact(ms);
    DedupedChains(ms, kept);
    var chains := Chains(ms);
    forall m | m in ms ensures exists i :: 0 <= i < |kept| && ExonChain(kept[i].rec) == ExonChain(m.rec) {
      assert ExonChain(m.rec) in chains;
      var i :| 0 <= i < |chains| && chains[i] == ExonChain(m.rec);
      assert ExonChain(kept[i].rec) == chains[i];
    }
  }

  lemma DedupedDistinct(ms: seq<Member>, kept: seq<Member>)
    requires Deduped(ms, kept)
    ensures forall i, j :: 0 <= i < j < |kept| ==> ExonChain(kept[i].rec) != ExonChain(kept[j].rec)
  {
    ChainsExact(ms);
    DedupedChains(ms, kept);
  }

  /** A transcript whose chain no other transcript of the span shares is always kept. */
  lemma DedupedKeepsUnique(ms: seq<Member>, kept: seq<Member>, m: Member)
    requires Deduped(ms, kept)
    requires m in ms
    requires forall n :: n in ms && ExonChain(n.rec) == ExonChain(m.rec) ==> n == m
    ensures m in kept
  {
    DedupedOnePerChain(ms, kept);
    var i :| 0 <= i < |kept| && ExonChain(kept[i].rec) == ExonChain(m.rec);
    assert kept[i] in ms;
  }

  // ---------------------------------------------------------------------------------------
  // Second pass: sorted emission

  /** `sorted` on chromosome names, then on `(start, end)` within a chromosome. */
  predicate KeyLe(a: Key, b: Key)
  {
    if a.chrom != b.chrom then Text.StrLe(a.chrom, b.chrom)
    else a.start < b.start || (a.start == b.start && a.end <= b.end)
  }

  lemma KeyLeIsTotalPreorder()
    ensures Sorting.TotalPreorder(KeyLe)
  {
    forall a: Key, b: Key ensures KeyLe(a, b) || KeyLe(b, a) {
      Text.StrLeTotal(a.chrom, b.chrom);
    }
    forall a: Key, b: Key, c: Key | KeyLe(a, b) && KeyLe(b, c) ensures KeyLe(a, c) {
      if a.chrom != b.chrom && b.chrom != c.chrom {
        Text.StrLeTransitive(a.chrom, b.chrom, c.chrom);
        if a.chrom == c.chrom {
          Text.StrLeAntisymmetric(a.chrom, b.chrom);
        }
      }
    }
  }

  function EntryKey(e: Entry): Key
  {
    Key(e.chrom, e.start, e.end)
  }

  predicate EntryLe(a: Entry, b: Entry)
  {
    KeyLe(EntryKey(a), EntryKey(b))
  }

  function EntryFor(m: Member, k: Key): Entry
  {
    Entry(m.tid, m.shelf, k.chrom, k.start, k.end)
  }

  /** The items yielded for one key. */
  function Tag(k: Key, ms: seq<Member>): seq<Entry>
  {
    seq(|ms|, i requires 0 <= i < |ms| => EntryFor(ms[i], k))
  }

  /** The items yielded for a sequence of keys and the transcripts kept at each. */
  function Flatten(keys: seq<Key>, kept: seq<seq<Member>>): seq<Entry>
    requires |keys| == |kept|
  {
    if keys == [] then []
    else Flatten(keys[..|keys| - 1], kept[..|kept| - 1]) + Tag(keys[|keys| - 1], kept[|kept| - 1])
  }

  /** Every transcript kept at a key is yielded with that key. */
  lemma {:induction false} FlattenHas(keys: seq<Key>, kept: seq<seq<Member>>, i: nat, m: Member)
    requires |keys| == |kept| && i < |keys| && m in kept[i]
    ensures EntryFor(m, keys[i]) in Flatten(keys, kept)
  {
    var n := |keys| - 1;
    var tag := Tag(keys[n], kept[n]);
    assert Flatten(keys, kept) == Flatten(keys[..n], kept[..n]) + tag;
    if i == n {
      var j :| 0 <= j < |kept[n]| && kept[n][j] == m;
      assert tag[j] == EntryFor(m, keys[i]);
    } else {
      assert keys[..n][i] == keys[i] && kept[..n][i] == kept[i];
      FlattenHas(keys[..n], kept[..n], i, m);
    }
  }

  /** Every yielded item names a transcript kept at one of the keys. */
  lemma {:induction false} FlattenFrom(keys: seq<Key>, kept: seq<seq<Member>>, e: Entry)
    requires |keys| == |kept| && e in Flatten(keys, kept)
    ensures exists i, m :: 0 <= i < |keys| && m in kept[i] && e == EntryFor(m, keys[i])
  {
    var n := |keys| - 1;
    var tag := Tag(keys[n], kept[n]);
    assert Flatten(keys, kept) == Flatten(keys[..n], kept[..n]) + tag;
    if e in tag {
      var j :| 0 <= j < |tag| && tag[j] == e;
      assert kept[n][j] in kept[n];
    } else {
      FlattenFrom(keys[..n], kept[..n], e);
      var i, m :| 0 <= i < n && m in kept[..n][i] && e == EntryFor(m, keys[..n][i]);
      assert keys[..n][i] == keys[i] && kept[..n][i] == kept[i];
    }
  }

  /** Keys in sorted order give items in sorted order. */
  lemma {:induction false} FlattenSorted(keys: seq<Key>, kept: seq<seq<Member>>)
    requires |keys| == |kept|
    requires Sorting.SortedBy(keys, KeyLe)
    ensures Sorting.SortedBy(Flatten(keys, kept), EntryLe)
  {
    if keys != [] {
      var n := |keys| - 1;
      FlattenSorted(keys[..n], kept[..n]);
      var a, b := Flatten(keys[..n], kept[..n]), Tag(keys[n], kept[n]);
      assert Flatten(keys, kept) == a + b;
      forall i, j | 0 <= i < j < |a + b| ensures EntryLe((a + b)[i], (a + b)[j]) {
        if j < |a| {
          assert (a + b)[i] == a[i] && (a + b)[j] == a[j];
        } else if i >= |a| {
          assert EntryKey((a + b)[i]) == keys[n] && EntryKey((a + b)[j]) == keys[n];
        } else {
          assert (a + b)[i] == a[i] && a[i] in a;
          FlattenFrom(keys[..n], kept[..n], a[i]);
          var p, m :| 0 <= p < n && m in kept[..n][p] && a[i] == EntryFor(m, keys[..n][p]);
          assert EntryKey(a[i]) == keys[p];
          assert EntryKey((a + b)[j]) == keys[n];
        }
      }
    }
  }

  function SortKeys(order: seq<Key>): seq<Key>
  {
    Sorting.Sort(order, KeyLe)
  }

  /** `out` is what the second pass yields for table `t` when it keeps `kept[i]` at the
      `i`-th key in sorted order. */
  predicate Stored(t: Table, kept: seq<seq<Member>>, out: seq<Entry>)
  {
    var keys := SortKeys(t.order);
    && |kept| == |keys|
    && AllDeduped(keys, t.groups, kept)
    && out == Flatten(keys, kept)
  }

  /** Each `kept[i]` is a deduplicated selection of the transcripts at `keys[i]`. */
  predicate AllDeduped(keys: seq<Key>, groups: map<Key, seq<Member>>, kept: seq<seq<Member>>)
    requires |keys| == |kept|
  {
    if keys == [] then true
    else
      var n := |keys| - 1;
      AllDeduped(keys[..n], groups, kept[..n]) && keys[n] in groups && Deduped(groups[keys[n]], kept[n])
  }

  lemma {:induction false} AllDedupedAt(keys: seq<Key>, groups: map<Key, seq<Member>>, kept: seq<seq<Member>>, i: nat)
    requires |keys| == |kept| && i < |keys|
    requires AllDeduped(keys, groups, kept)
    ensures keys[i] in groups && Deduped(groups[keys[i]], kept[i])
  {
    var n := |keys| - 1;
    if i < n {
      AllDedupedAt(keys[..n], groups, kept[..n], i);
      assert keys[..n][i] == keys[i] && kept[..n][i] == kept[i];
    }
  }

  lemma SortKeysMembers(order: seq<Key>)
    ensures forall k :: k in SortKeys(order) <==> k in order
  {
    Sorting.SortPermutes(order, KeyLe);
    assert forall k :: k in SortKeys(order) <==> k in multiset(SortKeys(order));
  }

  lemma FlattenSnoc(keys: seq<Key>, kept: seq<seq<Member>>, i: nat, tids: seq<Member>)
    requires i < |keys| && |kept| == i
    ensures Flatten(keys[..i + 1], kept + [tids]) == Flatten(keys[..i], kept) + Tag(keys[i], tids)
    ensures forall groups :: AllDeduped(keys[..i + 1], groups, kept + [tids]) <==>
      AllDeduped(keys[..i], groups, kept) && keys[i] in groups && Deduped(groups[keys[i]], tids)
  {
    assert keys[..i + 1][..i] == keys[..i];
    assert (kept + [tids])[..i] == kept;
  }

  /** The transcripts yielded for one key: all of them when the span holds one, a
      deduplicated selection otherwise. */
  method KeepAt(tids: seq<Member>) returns (kept: seq<Member>)
    requires tids != []
    ensures Deduped(tids, kept)
  {
    if |tids| > 1 {
      kept := Deduplicate(tids);
    } else {
      SingleDeduped(tids);
      kept := tids;
    }
  }

  /** The second loop of `store_transcripts`: walk the keys in sorted order, deduplicate the
      transcripts of every span holding more than one, and yield one item per kept transcript. */
  method Emit(t: Table) returns (out: seq<Entry>, kept: seq<seq<Member>>)
    requires TableOk(t)
    ensures Stored(t, kept, out)
  {
    var keys := SortKeys(t.order);
    SortKeysMembers(t.order);
    out, kept := [], [];
    for i := 0 to |keys|
      invariant |kept| == i
      invariant AllDeduped(keys[..i], t.groups, kept)
      invariant out == Flatten(keys[..i], kept)
    {
      var key := keys[i];
      var tids := KeepAt(t.groups[key]);
      FlattenSnoc(keys, kept, i, tids);
      kept := kept + [tids];
      out := out + Tag(key, tids);
    }
    assert keys[..|keys|] == keys;
  }

  /** `store_transcripts`: the first pass either stops with the error of the first record
      without features, or the second pass yields the sorted, deduplicated items of its table. */
  method StoreTranscripts(stacks: seq<Shelf>, minLength: int) returns (res: Result<seq<Entry>>)
    ensures Fill(Visits(stacks), minLength).Fail? ==> res == Fail(Fill(Visits(stacks), minLength).err)
    ensures Fill(Visits(stacks), minLength).Ok? ==>
      res.Ok? && exists kept :: Stored(Fill(Visits(stacks), minLength).value, kept, res.value)
  {
    var t := Collect(stacks, minLength);
    if t.Fail? {
      return Fail(t.err);
    }
    FillTable(Visits(stacks), minLength);
    var out, kept := Emit(t.value);
    return Ok(out);
  }

  // ---------------------------------------------------------------------------------------
  // Properties of the yielded items

  /** The items come out sorted by chromosome, then start, then end. */
  lemma StoredSorted(t: Table, kept: seq<seq<Member>>, out: seq<Entry>)
    requires Stored(t, kept, out)
    ensures Sorting.SortedBy(out, EntryLe)
  {
    KeyLeIsTotalPreorder();
    Sorting.SortSorted(t.order, KeyLe);
    FlattenSorted(SortKeys(t.order), kept);
  }

  /** Every yielded item names a visited transcript of at least `minLength` bases, with the
      shelf holding it, the chromosome and the outer span yielded with it. */
  lemma StoredSound(ms: seq<Member>, minLength: int, kept: seq<seq<Member>>, out: seq<Entry>)
    requires Fill(ms, minLength).Ok?
    requires Stored(Fill(ms, minLength).value, kept, out)
    ensures forall e :: e in out ==>
      exists m :: (m in ms && m.tid == e.tid && m.shelf == e.shelf && Usable(m.rec)
        && TotalLength(Exons(m.rec)) >= minLength && m.rec.chrom == e.chrom && Spans(Exons(m.rec), e.start, e.end))
  {
    var t := Fill(ms, minLength).value;
    var keys := SortKeys(t.order);
    FillTable(ms, minLength);
    forall e | e in out
      ensures exists m :: (m in ms && m.tid == e.tid && m.shelf == e.shelf && Usable(m.rec) && TotalLength(Exons(m.rec)) >= minLength
        && m.rec.chrom == e.chrom && Spans(Exons(m.rec), e.start, e.end))
    {
      FlattenFrom(keys, kept, e);
      var i, m :| 0 <= i < |keys| && m in kept[i] && e == EntryFor(m, keys[i]);
      AllDedupedAt(keys, t.groups, kept, i);
      DedupedOnePerChain(t.groups[keys[i]], kept[i]);
      AtMembers(ms, keys[i], minLength);
      PlacementMeaning(m, minLength);
    }
  }

  /** Every visited transcript that passes the filters is yielded at its key, or another
      transcript with the same key and the same chain is yielded in its place. */
  lemma StoredComplete(ms: seq<Member>, minLength: int, kept: seq<seq<Member>>, out: seq<Entry>, m: Member)
    requires Fill(ms, minLength).Ok?
    requires Stored(Fill(ms, minLength).value, kept, out)
    requires m in ms && Placement(m, minLength).Place?
    ensures exists n :: (n in ms && Placement(n, minLength) == Placement(m, minLength)
      && ExonChain(n.rec) == ExonChain(m.rec) && EntryFor(n, Placement(m, minLength).key) in out)
  {
    var t := Fill(ms, minLength).value;
    var keys := SortKeys(t.order);
    var k := Placement(m, minLength).key;
    FillTable(ms, minLength);
    AtMembers(ms, k, minLength);
    SortKeysMembers(t.order);
    var i :| 0 <= i < |keys| && keys[i] == k;
    AllDedupedAt(keys, t.groups, kept, i);
    DedupedOnePerChain(t.groups[k], kept[i]);
    var j :| 0 <= j < |kept[i]| && ExonChain(kept[i][j].rec) == ExonChain(m.rec);
    var n := kept[i][j];
    FlattenHas(keys, kept, i, n);
  }
}
