/** The superlocus container (`Superlocus`): the loops of `__reduce_complex_loci`, the
    transcript prefilter, the stage methods `define_subloci`, `define_monosubloci`,
    `calculate_mono_metrics`, `define_loci` with their "already defined" flags, the
    alternative-splicing candidate selection, strand splitting and the identifier. */
module SuperlocusDecomposition {
  import opened Optional
  import opened Intervals
  import opened LociTranscript
  import opened SuperlocusGraph
  import Sorting
  import Text

  // ---------------------------------------------------------------- reducer loops

  /** The level-1 inner loop over the neighbours of `cur`. */
  method ScanCovered(ts: map<string, Tx>, cur: string, ns: seq<string>, rm0: set<string>) returns (rm: set<string>)
    requires cur in ts && cur !in ns && forall n :: n in ns ==> n in ts
    ensures rm == Level1Scan(ts, cur, ns, rm0)
  {
    rm := rm0;
    var i := 0;
    while i < |ns|
      invariant 0 <= i <= |ns|
      invariant Level1Scan(ts, cur, ns[i..], rm) == Level1Scan(ts, cur, ns, rm0)
    {
      assert ns[i..][1..] == ns[i + 1..];
      var n := ns[i];
      if n !in rm {
        if Covers(ts[cur], ts[n]) {
          rm := rm + {n};
        } else if Covers(ts[n], ts[cur]) {
          rm := rm + {cur};
          return;
        }
      }
      i := i + 1;
    }
  }

  /** The level-1 outer loop over the nodes of `g`, skipping those already marked. */
  method Level1Pass(ts: map<string, Tx>, g: Graph) returns (rm: set<string>)
    requires Over(g, ts)
    ensures rm == Level1(ts, g, g.nodes, {})
  {
    rm := {};
    var i := 0;
    while i < |g.nodes|
      invariant 0 <= i <= |g.nodes|
      invariant Level1(ts, g, g.nodes[i..], rm) == Level1(ts, g, g.nodes, {})
    {
      assert g.nodes[i..][1..] == g.nodes[i + 1..];
      var tid := g.nodes[i];
      if tid !in rm {
        NeighboursOver(ts, g, tid);
        rm := ScanCovered(ts, tid, g.adj[tid], rm);
      }
      i := i + 1;
    }
  }

  /** The level-2 inner loop over the neighbours of `cur`; a failed assertion ends it. */
  method ScanContained(ts: map<string, Tx>, cur: string, ns: seq<string>, rm0: set<string>) returns (r: Result<set<string>>)
    requires cur in ts && ts[cur].exons != []
    requires forall n :: n in ns ==> n in ts && ts[n].exons != []
    ensures r == Level2Scan(ts, cur, ns, rm0)
  {
    var rm := rm0;
    var i := 0;
    while i < |ns|
      invariant 0 <= i <= |ns|
      invariant Level2Scan(ts, cur, ns[i..], rm) == Level2Scan(ts, cur, ns, rm0)
    {
      assert ns[i..][1..] == ns[i + 1..];
      var n := ns[i];
      if n !in rm {
        var shared := ts[cur].introns * ts[n].introns;
        if shared == ts[cur].introns {
          var inside := Corresponds(ts[cur], ts[n]);
          if inside.Fail? {
            return Fail(inside.error);
          } else if inside.value {
            return Ok(rm + {cur});
          }
        } else if shared == ts[n].introns {
          var inside := Corresponds(ts[n], ts[cur]);
          if inside.Fail? {
            return Fail(inside.error);
          } else if inside.value {
            rm := rm + {n};
          }
        }
      }
      i := i + 1;
    }
    return Ok(rm);
  }

  /** The level-2 outer loop over the nodes of `g`. */
  method Level2Pass(ts: map<string, Tx>, g: Graph) returns (r: Result<set<string>>)
    requires Over(g, ts)
    ensures r == Level2(ts, g, g.nodes, {})
  {
    var rm := {};
    var i := 0;
    while i < |g.nodes|
      invariant 0 <= i <= |g.nodes|
      invariant Level2(ts, g, g.nodes[i..], rm) == Level2(ts, g, g.nodes, {})
    {
      assert g.nodes[i..][1..] == g.nodes[i + 1..];
      var tid := g.nodes[i];
      NeighboursOver(ts, g, tid);
      var scan := ScanContained(ts, tid, g.adj[tid], rm);
      if scan.Fail? {
        return Fail(scan.error);
      }
      rm := scan.value;
      i := i + 1;
    }
    return Ok(rm);
  }

  /** The label loop of level 3: the first non-empty label the id contains, else the source. */
  method FindLabel(tid: string, labels: seq<string>, fallback: string) returns (r: string)
    ensures r == Label(tid, labels, fallback)
  {
    var i := 0;
    while i < |labels|
      invariant 0 <= i <= |labels|
      invariant Label(tid, labels[i..], fallback) == Label(tid, labels, fallback)
    {
      assert labels[i..][1..] == labels[i + 1..];
      if labels[i] != "" && Text.Contains(tid, labels[i]) {
        return labels[i];
      }
      i := i + 1;
    }
    return fallback;
  }

  /** The `sources` loop of level 3: every node of `g` into the group of its label. */
  method CollectSources(ts: map<string, Tx>, labels: seq<string>, g: Graph) returns (t: SourceTable)
    requires Over(g, ts)
    ensures t == Sources(LabelOf(ts, labels), g.nodes)
  {
    t := SourceTable([], map[]);
    var i := 0;
    while i < |g.nodes|
      invariant 0 <= i <= |g.nodes|
      invariant t == Sources(LabelOf(ts, labels), g.nodes[..i])
    {
      var tid := g.nodes[i];
      assert g.nodes[..i + 1][..i] == g.nodes[..i];
      var key := FindLabel(tid, labels, ts[tid].source);
      if key !in t.groups {
        t := SourceTable(t.keys + [key], t.groups);
      }
      t := SourceTable(t.keys, Insert(t.groups, key, tid));
      i := i + 1;
    }
    assert g.nodes[..|g.nodes|] == g.nodes;
  }

  /** The group loop of level 3: add whole groups while the budget holds. */
  method RetainGroups(g: Graph, gs: seq<Group>) returns (k: Retention)
    ensures k == Retain(g, gs, 0)
  {
    var j := 0;
    var kept: set<string> := {};
    var sources: set<string> := {};
    while j < |gs|
      invariant 0 <= j <= |gs|
      invariant kept == Upto(gs, j) && sources == KeysUpto(gs, j)
      invariant Retain(g, gs, j) == Retain(g, gs, 0)
      decreases |gs| - j
    {
      var acceptable := kept + gs[j].members;
      if TooLarge(g, acceptable) {
        break;
      }
      kept := acceptable;
      sources := sources + {gs[j].key};
      j := j + 1;
    }
    k := Retention(j, kept, sources);
  }

  /** The body of `__reduce_complex_loci` on the graph: the three levels, stopping at the
      first one that fits the budget. */
  method ReduceGraph(ts: map<string, Tx>, g: Graph, labels: seq<string>, before: nat) returns (r: Reduction)
    requires Over(g, ts)
    ensures r == Reduce(ts, g, labels, before)
  {
    if g.nodes == [] {
      return Reduction(before, Fail(ValueError), {});
    }
    if WithinLimits(g) {
      return Reduction(0, Ok(g), {});
    }
    var rm1 := Level1Pass(ts, g);
    var g1 := Remove(g, rm1);
    if g1.nodes == [] {
      return Reduction(1, Fail(ValueError), {});
    }
    if WithinLimits(g1) {
      return Reduction(1, Ok(g1), {});
    }
    RemoveValid(g, rm1);
    var r2 := Level2Pass(ts, g1);
    if r2.Fail? {
      return Reduction(2, Fail(r2.error), {});
    }
    var g2 := Remove(g1, r2.value);
    RemoveValid(g1, r2.value);
    if g2.nodes == [] {
      return Reduction(2, Fail(ValueError), {});
    }
    if WithinLimits(g2) {
      return Reduction(2, Ok(g2), {});
    }
    var t := CollectSources(ts, labels, g2);
    var gs := Sorting.Sort(GroupList(t.keys, t.groups), SizeLe);
    var k := RetainGroups(g2, gs);
    r := Reduction(3, Ok(Remove(g2, Outside(g2, k.kept))), k.sources);
  }

  // ---------------------------------------------------------------- the container

  /** Whether `__prefilter_transcripts` removes anything: `purge` is on and some transcript
      fails the requirements. */
  predicate Purges(purge: bool, notPassing: set<string>)
  {
    purge && notPassing != {}
  }

  /** The transcripts failing the requirements, each with its score set to 0. */
  function Zeroed(ts: map<string, Tx>, rm: set<string>): (r: map<string, Tx>)
    ensures forall k :: k in r <==> k in ts && k in rm
  {
    map k | k in ts && k in rm :: ts[k].(score := 0.0)
  }

  /** Zeroing one more failing transcript. */
  lemma ZeroedStep(ts0: map<string, Tx>, done: set<string>, tid: string)
    requires tid in ts0
    ensures Zeroed(ts0, done + {tid}) == Zeroed(ts0, done)[tid := ts0[tid].(score := 0.0)]
  {
  }

  /** Dropping one more failing transcript. */
  lemma DropStep(ts0: map<string, Tx>, done: set<string>, tid: string)
    ensures (ts0 - done) - {tid} == ts0 - (done + {tid})
  {
  }

  /** The transcripts dict of a superlocus: keyed, and no transcript without exons. */
  ghost predicate Holding(order: seq<string>, ts: map<string, Tx>)
  {
    Keyed(order, ts) && forall k :: k in ts ==> ts[k].exons != []
  }

  /** Deleting transcripts keeps the dict well formed. */
  lemma DeleteHolding(order: seq<string>, ts: map<string, Tx>, rm: set<string>)
    requires Holding(order, ts)
    ensures Holding(Without(order, rm), ts - rm)
  {
    DeleteKeyed(order, ts, rm);
  }

  /** One round of the purging loop: `tid` joins the purged transcripts `done`. */
  lemma PurgeStep(order0: seq<string>, ts0: map<string, Tx>, done: set<string>,
                  order: seq<string>, ts: map<string, Tx>, out: map<string, Tx>, tid: string)
    requires ts == ts0 - done && order == Without(order0, done)
    requires out == Zeroed(ts0, done)
    requires tid in ts0 && tid !in done
    ensures tid in ts
    ensures ts - {tid} == ts0 - (done + {tid})
    ensures Without(order, {tid}) == Without(order0, done + {tid})
    ensures out[tid := ts[tid].(score := 0.0)] == Zeroed(ts0, done + {tid})
  {
    ZeroedStep(ts0, done, tid);
    DropStep(ts0, done, tid);
    WithoutWithout(order0, done, {tid});
  }

  /** The purging loop of `__prefilter_transcripts`: each failing transcript, one at a
      time, gets score 0, goes to the excluded container and leaves the dict. */
  method Purge(order0: seq<string>, ts0: map<string, Tx>, notPassing: set<string>)
    returns (ts: map<string, Tx>, order: seq<string>, out: map<string, Tx>)
    requires Holding(order0, ts0) && notPassing <= ts0.Keys
    ensures ts == ts0 - notPassing && order == Without(order0, notPassing)
    ensures out == Zeroed(ts0, notPassing) && Holding(order, ts)
  {
    var rest := notPassing;
    ghost var done: set<string> := {};
    out := map[];
    ts, order := ts0, order0;
    WithoutNothing(order0);
    assert ts0 - {} == ts0;
    while rest != {}
      invariant done + rest == notPassing && done !! rest
      invariant ts == ts0 - done && order == Without(order0, done)
      invariant out == Zeroed(ts0, done)
      decreases rest
    {
      var tid :| tid in rest;
      PurgeStep(order0, ts0, done, order, ts, out, tid);
      out := out[tid := ts[tid].(score := 0.0)];
      ts := ts - {tid};
      order := Without(order, {tid});
      done := done + {tid};
      rest := rest - {tid};
    }
    assert done == notPassing;
    DeleteHolding(order0, ts0, notPassing);
  }

  /** The transcripts of the dict that the reduced graph `h` no longer holds. */
  function Missing(ts: map<string, Tx>, h: Graph): (r: set<string>)
    ensures forall k :: k in r <==> k in ts && k !in h.adj
  {
    set k | k in ts && k !in h.adj
  }

  /** `del self.transcripts[tid]` for every `tid` of `rm`. */
  method Discard(order0: seq<string>, ts0: map<string, Tx>, rm: set<string>)
    returns (ts: map<string, Tx>, order: seq<string>)
    requires Holding(order0, ts0)
    ensures ts == ts0 - rm && order == Without(order0, rm) && Holding(order, ts)
  {
    var rest := rm;
    ghost var done: set<string> := {};
    ts, order := ts0, order0;
    WithoutNothing(order0);
    assert ts0 - {} == ts0;
    while rest != {}
      invariant done + rest == rm && done !! rest
      invariant ts == ts0 - done && order == Without(order0, done)
      decreases rest
    {
      var tid :| tid in rest;
      DropStep(ts0, done, tid);
      WithoutWithout(order0, done, {tid});
      ts := ts - {tid};
      order := Without(order, {tid});
      done := done + {tid};
      rest := rest - {tid};
    }
    assert done == rm;
    DeleteHolding(order0, ts0, rm);
  }

  /** When the reduced graph lists at least as many nodes as the dict has keys, no transcript
      is missing from it: the deletion guarded by `len(transcripts) > len(graph)` skips nothing. */
  lemma NothingMissing(order: seq<string>, ts: map<string, Tx>, h: Graph)
    requires Keyed(order, ts) && Simple(h) && forall n :: n in h.nodes ==> n in ts
    requires Valid(h) && |order| <= |h.nodes|
    ensures Missing(ts, h) == {}
  {
    DistinctCard(order);
    DistinctCard(h.nodes);
    var inGraph := set x | x in h.nodes;
    var keys := set x | x in order;
    assert inGraph <= keys;
    SubsetAsLarge(inGraph, keys);
    forall k | k in ts
      ensures k in h.adj
    {
      assert k in keys;
    }
  }

  /** The non-empty communities, in order. */
  function NonEmpty(cs: seq<set<string>>): (r: seq<set<string>>)
    ensures forall c :: c in r <==> c in cs && c != {}
  {
    if cs == [] then []
    else if cs[|cs| - 1] == {} then NonEmpty(cs[..|cs| - 1])
    else NonEmpty(cs[..|cs| - 1]) + [cs[|cs| - 1]]
  }

  datatype Gathered = Gathered(subloci: seq<set<string>>, err: Option<Error>)

  /** The sublocus loop of `define_subloci` over the communities `cs`: empty communities are
      skipped, the others become subloci in order, and the first community naming a
      transcript outside `keys` raises `KeyError`, keeping the subloci made before it. */
  function Gather(cs: seq<set<string>>, keys: set<string>): (r: Gathered)
    ensures r.err == None <==> forall i :: 0 <= i < |cs| ==> cs[i] <= keys
    ensures r.err == None ==> r.subloci == NonEmpty(cs)
    ensures r.err == None || r.err == Some(KeyError)
    ensures forall i :: 0 <= i < |r.subloci| ==> r.subloci[i] != {} && r.subloci[i] <= keys
  {
    if cs == [] then Gathered([], None)
    else
      var g := Gather(cs[..|cs| - 1], keys);
      var c := cs[|cs| - 1];
      if g.err != None || c == {} then g
      else if c <= keys then Gathered(g.subloci + [c], None)
      else Gathered(g.subloci, Some(KeyError))
  }

  /** Once a prefix of the communities has raised, the whole loop has raised the same way. */
  lemma {:induction false} GatherStops(cs: seq<set<string>>, keys: set<string>, j: nat)
    requires j <= |cs| && Gather(cs[..j], keys).err != None
    ensures Gather(cs, keys) == Gather(cs[..j], keys)
    decreases |cs| - j
  {
    if j < |cs| {
      var init := cs[..|cs| - 1];
      assert init[..j] == cs[..j];
      GatherStops(init, keys, j);
      assert Gather(init, keys).err != None;
    } else {
      assert cs[..j] == cs;
    }
  }

  /** The loop of `define_subloci` that turns communities into subloci. */
  method GatherSubloci(cs: seq<set<string>>, keys: set<string>) returns (r: Gathered)
    ensures r == Gather(cs, keys)
  {
    var acc: seq<set<string>> := [];
    var i := 0;
    while i < |cs|
      invariant 0 <= i <= |cs|
      invariant Gather(cs[..i], keys) == Gathered(acc, None)
    {
      var c := cs[i];
      assert cs[..i + 1][..i] == cs[..i];
      if c == {} {
        i := i + 1;
        continue;
      }
      if !(c <= keys) {
        GatherStops(cs, keys, i + 1);
        return Gathered(acc, Some(KeyError));
      }
      acc := acc + [c];
      i := i + 1;
    }
    assert cs[..i] == cs;
    r := Gathered(acc, None);
  }

  /** The state `define_subloci` leaves: the dict, the excluded container, the approximation
      level, the sources level 3 retained, the subloci, the exception raised if any, and the
      reduced graph the communities were taken from. */
  datatype Sublocing = Sublocing(order: seq<string>, transcripts: map<string, Tx>,
                                 excluded: Option<map<string, Tx>>, level: nat, retained: set<string>,
                                 subloci: seq<set<string>>, err: Option<Error>, graph: Option<Graph>)

  /** The state `define_subloci` reaches from the reduced graph `h` on. */
  datatype Trimmed = Trimmed(order: seq<string>, transcripts: map<string, Tx>,
                             subloci: seq<set<string>>, err: Option<Error>)

  /** `define_subloci` after a successful reduction to `h`: delete what the graph dropped
      (only when the dict is longer than the graph), stop when nothing is left, else gather
      the subloci from the communities of `h`. */
  function TrimToGraph(order1: seq<string>, ts1: map<string, Tx>, h: Graph,
                       communities: Graph -> seq<set<string>>): (r: Trimmed)
    requires Holding(order1, ts1)
    ensures Holding(r.order, r.transcripts)
    ensures forall k :: k in r.transcripts ==> k in ts1 && r.transcripts[k] == ts1[k]
    ensures forall i :: 0 <= i < |r.subloci| ==> r.subloci[i] != {} && r.subloci[i] <= r.transcripts.Keys
  {
    var cut := |order1| > |h.nodes|;
    var order2 := if cut then Without(order1, Missing(ts1, h)) else order1;
    var ts2 := if cut then ts1 - Missing(ts1, h) else ts1;
    DeleteHolding(order1, ts1, Missing(ts1, h));
    if ts2 == map[] then Trimmed(order2, ts2, [], None)
    else
      var g := Gather(communities(h), ts2.Keys);
      Trimmed(order2, ts2, g.subloci, g.err)
  }

  /** The steps of `define_subloci` after a successful reduction to `h`. */
  method Trim(order1: seq<string>, ts1: map<string, Tx>, h: Graph, communities: Graph -> seq<set<string>>)
    returns (t: Trimmed)
    requires Holding(order1, ts1)
    ensures t == TrimToGraph(order1, ts1, h, communities)
  {
    var order2, ts2 := order1, ts1;
    if |order1| > |h.nodes| {
      ts2, order2 := Discard(order1, ts1, Missing(ts1, h));
    }
    if ts2 == map[] {
      return Trimmed(order2, ts2, [], None);
    }
    var gathered := GatherSubloci(communities(h), ts2.Keys);
    t := Trimmed(order2, ts2, gathered.subloci, gathered.err);
  }

  /** `define_subloci` after the reducer: the exception it raised, or `TrimToGraph`. */
  function AfterReduce(order1: seq<string>, ts1: map<string, Tx>, excl: Option<map<string, Tx>>,
                       red: Reduction, communities: Graph -> seq<set<string>>): (r: Sublocing)
    requires Holding(order1, ts1)
    ensures Holding(r.order, r.transcripts) && r.excluded == excl
    ensures forall k :: k in r.transcripts ==> k in ts1 && r.transcripts[k] == ts1[k]
    ensures forall i :: 0 <= i < |r.subloci| ==> r.subloci[i] != {} && r.subloci[i] <= r.transcripts.Keys
  {
    match red.graph
    case Fail(e) => Sublocing(order1, ts1, excl, red.level, red.retained, [], Some(e), None)
    case Ok(h) =>
      var t := TrimToGraph(order1, ts1, h, communities);
      Sublocing(t.order, t.transcripts, excl, red.level, red.retained, t.subloci, t.err, Some(h))
  }

  /** The dict after `__prefilter_transcripts`. */
  function PrefilterOrder(order: seq<string>, purge: bool, notPassing: set<string>): seq<string>
  {
    if Purges(purge, notPassing) then Without(order, notPassing) else order
  }

  function PrefilterDict(ts: map<string, Tx>, purge: bool, notPassing: set<string>): map<string, Tx>
  {
    if Purges(purge, notPassing) then ts - notPassing else ts
  }

  function PrefilterExcluded(ts: map<string, Tx>, purge: bool, notPassing: set<string>): Option<map<string, Tx>>
  {
    if Purges(purge, notPassing) then Some(Zeroed(ts, notPassing)) else None
  }

  /** `define_subloci` on a superlocus whose subloci are not yet defined: prefilter, stop when
      the dict is empty, else build the intersection graph, reduce it and go on with
      `AfterReduce`. `communities` is `find_communities`. */
  function Subloci(order0: seq<string>, ts0: map<string, Tx>, purge: bool, notPassing: set<string>,
                   cdsOnly: bool, labels: seq<string>, level0: nat,
                   communities: Graph -> seq<set<string>>): (r: Sublocing)
    requires Holding(order0, ts0) && notPassing <= ts0.Keys
    ensures Holding(r.order, r.transcripts) && r.excluded == PrefilterExcluded(ts0, purge, notPassing)
    ensures forall k :: k in r.transcripts ==> k in PrefilterDict(ts0, purge, notPassing) && r.transcripts[k] == ts0[k]
    ensures forall i :: 0 <= i < |r.subloci| ==> r.subloci[i] != {} && r.subloci[i] <= r.transcripts.Keys
  {
    var order1 := PrefilterOrder(order0, purge, notPassing);
    var ts1 := PrefilterDict(ts0, purge, notPassing);
    var excl := PrefilterExcluded(ts0, purge, notPassing);
    DeleteHolding(order0, ts0, notPassing);
    if ts1 == map[] then Sublocing(order1, ts1, excl, level0, {}, [], None, None)
    else
      DefineGraphValid(order1, ts1, cdsOnly);
      AfterReduce(order1, ts1, excl, Reduce(ts1, DefineGraph(order1, ts1, cdsOnly), labels, level0), communities)
  }

  /** After a successful reduction the dict holds exactly the prefiltered transcripts the
      reduced graph kept, each unchanged. */
  lemma AfterReduceKept(order1: seq<string>, ts1: map<string, Tx>, excl: Option<map<string, Tx>>,
                        red: Reduction, communities: Graph -> seq<set<string>>)
    requires Holding(order1, ts1) && red.graph.Ok?
    requires Valid(red.graph.value) && Simple(red.graph.value)
    requires forall n :: n in red.graph.value.adj ==> n in ts1
    ensures var s := AfterReduce(order1, ts1, excl, red, communities);
      && s.graph == Some(red.graph.value)
      && (forall k :: k in s.transcripts <==> k in ts1 && k in red.graph.value.adj)
      && (forall k :: k in s.transcripts ==> s.transcripts[k] == ts1[k])
  {
    var h := red.graph.value;
    if |order1| <= |h.nodes| {
      NothingMissing(order1, ts1, h);
    }
  }

  /** `find_communities` returns communities of the graph's own nodes that together cover
      every node. */
  ghost predicate CommunitiesOf(h: Graph, cs: seq<set<string>>)
  {
    && (forall i, x :: 0 <= i < |cs| && x in cs[i] ==> x in h.adj)
    && (forall n :: n in h.adj ==> exists i :: 0 <= i < |cs| && n in cs[i])
  }

  ghost predicate Partitioning(communities: Graph -> seq<set<string>>)
  {
    forall h: Graph :: CommunitiesOf(h, communities(h))
  }

  /** The steps of `define_subloci` on a superlocus whose subloci are not yet defined. */
  method SublociSteps(order0: seq<string>, ts0: map<string, Tx>, purge: bool, notPassing: set<string>,
                      cdsOnly: bool, labels: seq<string>, level0: nat, communities: Graph -> seq<set<string>>)
    returns (s: Sublocing)
    requires Holding(order0, ts0) && notPassing <= ts0.Keys
    ensures s == Subloci(order0, ts0, purge, notPassing, cdsOnly, labels, level0, communities)
  {
    SublociUnfold(order0, ts0, purge, notPassing, cdsOnly, labels, level0, communities);
    var order1, ts1, excl := order0, ts0, None;
    if Purges(purge, notPassing) {
      var out;
      ts1, order1, out := Purge(order0, ts0, notPassing);
      excl := Some(out);
    }
    if ts1 == map[] {
      return Sublocing(order1, ts1, excl, level0, {}, [], None, None);
    }
    var g := DefineGraph(order1, ts1, cdsOnly);
    var red := ReduceGraph(ts1, g, labels, level0);
    if red.graph.Fail? {
      return Sublocing(order1, ts1, excl, red.level, red.retained, [], Some(red.graph.error), None);
    }
    var t := Trim(order1, ts1, red.graph.value, communities);
    s := Sublocing(t.order, t.transcripts, excl, red.level, red.retained, t.subloci, t.err, Some(red.graph.value));
  }

  /** With purging on, every failing transcript leaves the dict and sits, with score 0, in
      the excluded container, and every other transcript stays as it was; with purging off
      nothing moves and the container is `None`. */
  lemma PrefilterMoves(order: seq<string>, ts: map<string, Tx>, purge: bool, notPassing: set<string>)
    requires Holding(order, ts) && notPassing <= ts.Keys
    ensures Holding(PrefilterOrder(order, purge, notPassing), PrefilterDict(ts, purge, notPassing))
    ensures Purges(purge, notPassing) ==>
      && PrefilterExcluded(ts, purge, notPassing).Some?
      && (forall k :: k in notPassing ==>
            && k !in PrefilterDict(ts, purge, notPassing)
            && k in PrefilterExcluded(ts, purge, notPassing).value
            && PrefilterExcluded(ts, purge, notPassing).value[k] == ts[k].(score := 0.0))
      && (forall k :: k in ts && k !in notPassing ==>
            k in PrefilterDict(ts, purge, notPassing) && PrefilterDict(ts, purge, notPassing)[k] == ts[k])
    ensures !Purges(purge, notPassing) ==>
      PrefilterDict(ts, purge, notPassing) == ts && PrefilterExcluded(ts, purge, notPassing) == None
  {
    DeleteHolding(order, ts, notPassing);
  }

  /** `Subloci` step by step: the prefiltered dict, then either the early stop or the
      reducer on the intersection graph. */
  lemma SublociUnfold(order0: seq<string>, ts0: map<string, Tx>, purge: bool, notPassing: set<string>,
                      cdsOnly: bool, labels: seq<string>, level0: nat, communities: Graph -> seq<set<string>>)
    requires Holding(order0, ts0) && notPassing <= ts0.Keys
    ensures Holding(PrefilterOrder(order0, purge, notPassing), PrefilterDict(ts0, purge, notPassing))
    ensures var order1 := PrefilterOrder(order0, purge, notPassing);
      var ts1 := PrefilterDict(ts0, purge, notPassing);
      var excl := PrefilterExcluded(ts0, purge, notPassing);
      && (ts1 == map[] ==>
            Subloci(order0, ts0, purge, notPassing, cdsOnly, labels, level0, communities)
              == Sublocing(order1, ts1, excl, level0, {}, [], None, None))
      && (ts1 != map[] ==>
            && Over(DefineGraph(order1, ts1, cdsOnly), ts1)
            && Subloci(order0, ts0, purge, notPassing, cdsOnly, labels, level0, communities)
                 == AfterReduce(order1, ts1, excl, Reduce(ts1, DefineGraph(order1, ts1, cdsOnly), labels, level0), communities))
  {
    var order1 := PrefilterOrder(order0, purge, notPassing);
    var ts1 := PrefilterDict(ts0, purge, notPassing);
    DeleteHolding(order0, ts0, notPassing);
    if ts1 != map[] {
      DefineGraphValid(order1, ts1, cdsOnly);
    }
  }

  /** What `define_subloci` keeps: once the reduction succeeds, the dict holds exactly the
      prefiltered transcripts that the reduced graph kept, each unchanged. */
  lemma SublociKept(order0: seq<string>, ts0: map<string, Tx>, purge: bool, notPassing: set<string>,
                    cdsOnly: bool, labels: seq<string>, level0: nat, communities: Graph -> seq<set<string>>)
    requires Holding(order0, ts0) && notPassing <= ts0.Keys
    ensures var s := Subloci(order0, ts0, purge, notPassing, cdsOnly, labels, level0, communities);
      s.graph.Some? ==>
        forall k :: k in s.transcripts <==> k in PrefilterDict(ts0, purge, notPassing) && k in s.graph.value.adj
  {
    var order1 := PrefilterOrder(order0, purge, notPassing);
    var ts1 := PrefilterDict(ts0, purge, notPassing);
    var excl := PrefilterExcluded(ts0, purge, notPassing);
    DeleteHolding(order0, ts0, notPassing);
    if ts1 != map[] {
      DefineGraphValid(order1, ts1, cdsOnly);
      var g := DefineGraph(order1, ts1, cdsOnly);
      var red := Reduce(ts1, g, labels, level0);
      if red.graph.Ok? {
        ReduceRemovesOnly(ts1, g, labels, level0);
        ReduceSimple(ts1, g, labels, level0);
        AfterReduceKept(order1, ts1, excl, red, communities);
      }
    }
  }

  /** Communities drawn from `keys` and covering them gather without error into subloci that
      still cover every key. */
  lemma GatherCover(cs: seq<set<string>>, keys: set<string>)
    requires forall i, x :: 0 <= i < |cs| && x in cs[i] ==> x in keys
    requires forall k :: k in keys ==> exists i :: 0 <= i < |cs| && k in cs[i]
    ensures Gather(cs, keys).err == None
    ensures forall k :: k in keys ==> exists i :: 0 <= i < |Gather(cs, keys).subloci| && k in Gather(cs, keys).subloci[i]
  {
    var r := Gather(cs, keys);
    assert forall i :: 0 <= i < |cs| ==> cs[i] <= keys;
    forall k | k in keys
      ensures exists i :: 0 <= i < |r.subloci| && k in r.subloci[i]
    {
      var i :| 0 <= i < |cs| && k in cs[i];
      assert cs[i] in r.subloci;
    }
  }

  /** When the communities of the reduced graph cover it with its own nodes, gathering
      raises nothing and every remaining transcript lies in some sublocus. */
  lemma AfterReduceCover(order1: seq<string>, ts1: map<string, Tx>, excl: Option<map<string, Tx>>,
                         red: Reduction, communities: Graph -> seq<set<string>>)
    requires Holding(order1, ts1) && red.graph.Ok?
    requires Valid(red.graph.value) && Simple(red.graph.value)
    requires forall n :: n in red.graph.value.adj ==> n in ts1
    requires CommunitiesOf(red.graph.value, communities(red.graph.value))
    ensures var s := AfterReduce(order1, ts1, excl, red, communities);
      && s.err == None
      && forall k :: k in s.transcripts ==> exists i :: 0 <= i < |s.subloci| && k in s.subloci[i]
  {
    var s := AfterReduce(order1, ts1, excl, red, communities);
    AfterReduceKept(order1, ts1, excl, red, communities);
    if s.transcripts != map[] {
      var h := red.graph.value;
      assert forall k :: k in s.transcripts.Keys <==> k in h.adj;
      GatherCover(communities(h), s.transcripts.Keys);
    }
  }

  /** When `find_communities` partitions the graph, `define_subloci` raises nothing after a
      successful reduction and every remaining transcript lies in some sublocus. */
  lemma SublociCover(order0: seq<string>, ts0: map<string, Tx>, purge: bool, notPassing: set<string>,
                     cdsOnly: bool, labels: seq<string>, level0: nat, communities: Graph -> seq<set<string>>)
    requires Holding(order0, ts0) && notPassing <= ts0.Keys && Partitioning(communities)
    ensures var s := Subloci(order0, ts0, purge, notPassing, cdsOnly, labels, level0, communities);
      s.graph.Some? ==>
        && s.err == None
        && forall k :: k in s.transcripts ==> exists i :: 0 <= i < |s.subloci| && k in s.subloci[i]
  {
    var order1 := PrefilterOrder(order0, purge, notPassing);
    var ts1 := PrefilterDict(ts0, purge, notPassing);
    var excl := PrefilterExcluded(ts0, purge, notPassing);
    DeleteHolding(order0, ts0, notPassing);
    if ts1 != map[] {
      DefineGraphValid(order1, ts1, cdsOnly);
      var g := DefineGraph(order1, ts1, cdsOnly);
      var red := Reduce(ts1, g, labels, level0);
      if red.graph.Ok? {
        ReduceRemovesOnly(ts1, g, labels, level0);
        ReduceSimple(ts1, g, labels, level0);
        assert CommunitiesOf(red.graph.value, communities(red.graph.value));
        AfterReduceCover(order1, ts1, excl, red, communities);
      }
    }
  }

  /** A locus of the superlocus as the alternative-splicing step sees it. */
  // ---------------------------------------------------------------- monosubloci

  /** All the transcript ids of a list of containers. */
  function Union(cs: seq<set<string>>): (r: set<string>)
    ensures forall i :: 0 <= i < |cs| ==> cs[i] <= r
  {
    if cs == [] then {} else Union(cs[..|cs| - 1]) + cs[|cs| - 1]
  }

  lemma {:induction false} UnionAppend(a: seq<set<string>>, b: seq<set<string>>)
    ensures Union(a + b) == Union(a) + Union(b)
  {
    if b == [] {
      assert a + b == a;
    } else {
      var n := |b| - 1;
      assert (a + b)[..|a + b| - 1] == a + b[..n];
      assert (a + b)[|a + b| - 1] == b[n];
      UnionAppend(a, b[..n]);
      assert Union(a + b) == Union(a + b[..n]) + b[n];
    }
  }

  /** The concatenation of a list of lists. */
  function Concat<T>(hs: seq<seq<T>>): seq<T>
  {
    if hs == [] then [] else Concat(hs[..|hs| - 1]) + hs[|hs| - 1]
  }

  lemma {:induction false} ConcatAppend<T>(a: seq<seq<T>>, b: seq<seq<T>>)
    ensures Concat(a + b) == Concat(a) + Concat(b)
  {
    if b == [] {
      assert a + b == a;
    } else {
      var n := |b| - 1;
      assert (a + b)[..|a + b| - 1] == a + b[..n];
      assert (a + b)[|a + b| - 1] == b[n];
      ConcatAppend(a, b[..n]);
      assert Concat(a + b) == Concat(a + b[..n]) + b[n];
    }
  }

  /** The monosubloci of every sublocus in turn, `monoOf` standing for
      `Sublocus.define_monosubloci`. */
  function Monos(subloci: seq<set<string>>, monoOf: set<string> -> seq<set<string>>): seq<set<string>>
  {
    if subloci == [] then [] else Monos(subloci[..|subloci| - 1], monoOf) + monoOf(subloci[|subloci| - 1])
  }

  /** The loop of `define_monosubloci` appending the monosubloci of each sublocus. */
  method CollectMonosubloci(subloci: seq<set<string>>, monoOf: set<string> -> seq<set<string>>)
    returns (ms: seq<set<string>>)
    ensures ms == Monos(subloci, monoOf)
  {
    ms := [];
    for i := 0 to |subloci|
      invariant ms == Monos(subloci[..i], monoOf)
    {
      assert subloci[..i + 1][..i] == subloci[..i];
      ms := ms + monoOf(subloci[i]);
    }
    assert subloci[..|subloci|] == subloci;
  }

  /** When each sublocus is split into monosubloci covering exactly its transcripts, the
      monosubloci cover exactly the transcripts of the subloci. */
  lemma {:induction false} MonosCover(subloci: seq<set<string>>, monoOf: set<string> -> seq<set<string>>)
    requires forall i :: 0 <= i < |subloci| ==> Union(monoOf(subloci[i])) == subloci[i]
    ensures Union(Monos(subloci, monoOf)) == Union(subloci)
  {
    if subloci != [] {
      var n := |subloci| - 1;
      MonosCover(subloci[..n], monoOf);
      UnionAppend(Monos(subloci[..n], monoOf), monoOf(subloci[n]));
    }
  }

  // ---------------------------------------------------------------- monosublocus holders

  /** A holder is the list of monosubloci it received; `accepts(holder, m)` stands for
      `MonosublocusHolder.in_locus(holder, m)`. */
  type Holder = seq<set<string>>

  /** The index of the first holder from `i` on that accepts `m`, or `|hs|` when none does. */
  function FirstFit(hs: seq<Holder>, m: set<string>, accepts: (Holder, set<string>) -> bool, i: nat): (k: nat)
    requires i <= |hs|
    ensures i <= k <= |hs|
    ensures k < |hs| ==> accepts(hs[k], m)
    ensures forall j :: i <= j < k ==> !accepts(hs[j], m)
    decreases |hs| - i
  {
    if i == |hs| || accepts(hs[i], m) then i else FirstFit(hs, m, accepts, i + 1)
  }

  /** `m` goes to the first holder that accepts it, or to a new holder of its own. */
  function Place(hs: seq<Holder>, m: set<string>, accepts: (Holder, set<string>) -> bool): seq<Holder>
  {
    var k := FirstFit(hs, m, accepts, 0);
    if k < |hs| then hs[k := hs[k] + [m]] else hs + [[m]]
  }

  /** The holders `calculate_mono_metrics` builds from the monosubloci, in order. */
  function Holders(ms: seq<set<string>>, accepts: (Holder, set<string>) -> bool): seq<Holder>
  {
    if ms == [] then [] else Place(Holders(ms[..|ms| - 1], accepts), ms[|ms| - 1], accepts)
  }

  /** The loop of `calculate_mono_metrics`: first fit of each monosublocus among the holders. */
  method GroupHolders(ms: seq<set<string>>, accepts: (Holder, set<string>) -> bool) returns (hs: seq<Holder>)
    ensures hs == Holders(ms, accepts)
  {
    hs := [];
    for i := 0 to |ms|
      invariant hs == Holders(ms[..i], accepts)
    {
      assert ms[..i + 1][..i] == ms[..i];
      var m := ms[i];
      var k := 0;
      while k < |hs| && !accepts(hs[k], m)
        invariant 0 <= k <= |hs|
        invariant FirstFit(hs, m, accepts, k) == FirstFit(hs, m, accepts, 0)
      {
        k := k + 1;
      }
      if k < |hs| {
        hs := hs[k := hs[k] + [m]];
      } else {
        hs := hs + [[m]];
      }
    }
    assert ms[..|ms|] == ms;
  }

  lemma {:induction false} ConcatUpdate<T>(hs: seq<seq<T>>, k: nat, x: T)
    requires k < |hs|
    ensures multiset(Concat(hs[k := hs[k] + [x]])) == multiset(Concat(hs)) + multiset{x}
  {
    var n := |hs| - 1;
    var hs' := hs[k := hs[k] + [x]];
    assert hs'[..n] == if k == n then hs[..n] else hs[..n][k := hs[k] + [x]];
    if k < n {
      ConcatUpdate(hs[..n], k, x);
    }
  }

  /** Every monosublocus ends up in exactly one holder: the holders, concatenated, are a
      permutation of the monosubloci. */
  lemma {:induction false} HoldersPermute(ms: seq<set<string>>, accepts: (Holder, set<string>) -> bool)
    ensures multiset(Concat(Holders(ms, accepts))) == multiset(ms)
  {
    if ms != [] {
      var n := |ms| - 1;
      var hs := Holders(ms[..n], accepts);
      HoldersPermute(ms[..n], accepts);
      var k := FirstFit(hs, ms[n], accepts, 0);
      if k < |hs| {
        ConcatUpdate(hs, k, ms[n]);
      } else {
        assert (hs + [[ms[n]]])[..|hs|] == hs;
      }
      assert ms == ms[..n] + [ms[n]];
    }
  }

  /** No holder is empty. */
  lemma {:induction false} HoldersNonEmpty(ms: seq<set<string>>, accepts: (Holder, set<string>) -> bool)
    ensures forall i :: 0 <= i < |Holders(ms, accepts)| ==> Holders(ms, accepts)[i] != []
  {
    if ms != [] {
      HoldersNonEmpty(ms[..|ms| - 1], accepts);
    }
  }

  // ---------------------------------------------------------------- loci

  /** A locus as the superlocus records it: its id and the id of its primary transcript. */
  datatype LocusRef = LocusRef(id: string, primary: string)

  /** The loci of every holder in turn, `lociOf` standing for `MonosublocusHolder.define_loci`. */
  function LociRefs(hs: seq<Holder>, lociOf: Holder -> seq<LocusRef>): seq<LocusRef>
  {
    if hs == [] then [] else LociRefs(hs[..|hs| - 1], lociOf) + lociOf(hs[|hs| - 1])
  }

  /** `self.loci[locus.id] = locus` for each locus in turn. */
  function LociMap(refs: seq<LocusRef>): map<string, string>
  {
    if refs == [] then map[] else LociMap(refs[..|refs| - 1])[refs[|refs| - 1].id := refs[|refs| - 1].primary]
  }

  /** The entry of `k` holds the primary of the last locus with id `k`. */
  ghost predicate LastWith(refs: seq<LocusRef>, k: string)
  {
    && k in LociMap(refs)
    && exists i :: 0 <= i < |refs| && refs[i].id == k && LociMap(refs)[k] == refs[i].primary && LaterNot(refs, i, k)
  }

  /** No locus after position `i` has id `k`. */
  predicate LaterNot(refs: seq<LocusRef>, i: int, k: string)
  {
    forall j :: 0 <= j < |refs| && i < j ==> refs[j].id != k
  }

  /** The loci map has one entry per locus id, holding the primary of the last locus with
      that id. */
  lemma {:induction false} LociMapEntries(refs: seq<LocusRef>)
    ensures forall k :: k in LociMap(refs) <==> exists i :: 0 <= i < |refs| && refs[i].id == k
    ensures forall k :: k in LociMap(refs) ==> LastWith(refs, k)
  {
    LociMapKeys(refs);
    forall k | k in LociMap(refs)
      ensures LastWith(refs, k)
    {
      LociMapLast(refs, k);
    }
  }

  lemma {:induction false} LociMapKeys(refs: seq<LocusRef>)
    ensures forall k :: k in LociMap(refs) <==> exists i :: 0 <= i < |refs| && refs[i].id == k
  {
    if refs != [] {
      var n := |refs| - 1;
      LociMapKeys(refs[..n]);
      forall k | k in LociMap(refs)
        ensures exists i :: 0 <= i < |refs| && refs[i].id == k
      {
        if k != refs[n].id {
          assert k in LociMap(refs[..n]);
          var i :| 0 <= i < n && refs[..n][i].id == k;
          assert refs[i] == refs[..n][i];
        }
      }
      forall k | exists i :: 0 <= i < |refs| && refs[i].id == k
        ensures k in LociMap(refs)
      {
        var i :| 0 <= i < |refs| && refs[i].id == k;
        if i < n {
          assert refs[..n][i].id == k;
        }
      }
    }
  }

  lemma {:induction false} LociMapLast(refs: seq<LocusRef>, k: string)
    requires k in LociMap(refs)
    ensures LastWith(refs, k)
  {
    var n := |refs| - 1;
    if k != refs[n].id {
      LociMapLast(refs[..n], k);
      var i :| 0 <= i < n && refs[..n][i].id == k && LociMap(refs[..n])[k] == refs[..n][i].primary
        && LaterNot(refs[..n], i, k);
      assert refs[i] == refs[..n][i];
      assert LociMap(refs)[k] == refs[i].primary;
      assert LaterNot(refs, i, k);
    } else {
      assert LociMap(refs)[k] == refs[n].primary;
      assert LaterNot(refs, n, k);
    }
  }

  /** The loop of `define_loci` gathering the loci of each holder. */
  method CollectLoci(hs: seq<Holder>, lociOf: Holder -> seq<LocusRef>) returns (refs: seq<LocusRef>)
    ensures refs == LociRefs(hs, lociOf)
  {
    refs := [];
    for i := 0 to |hs|
      invariant refs == LociRefs(hs[..i], lociOf)
    {
      assert hs[..i + 1][..i] == hs[..i];
      refs := refs + lociOf(hs[i]);
    }
    assert hs[..|hs|] == hs;
  }

  /** The loop of `define_loci` filling the loci map. */
  method FillLoci(refs: seq<LocusRef>) returns (m: map<string, string>)
    ensures m == LociMap(refs)
  {
    m := map[];
    for i := 0 to |refs|
      invariant m == LociMap(refs[..i])
    {
      assert refs[..i + 1][..i] == refs[..i];
      m := m[refs[i].id := refs[i].primary];
    }
    assert refs[..|refs|] == refs;
  }

  // ---------------------------------------------------------------- alternative splicing

  /** For each locus, the transcripts sharing a clique with its primary, the primary excluded
      (`loci_cliques`). */
  function LociCliques(loci: map<string, string>, cliques: seq<set<string>>): (r: map<string, set<string>>)
    ensures r.Keys == loci.Keys
    ensures forall lid, tid :: lid in r ==>
      (tid in r[lid] <==> tid != loci[lid] && exists c :: c in cliques && loci[lid] in c && tid in c)
  {
    map lid | lid in loci :: Mates(loci[lid], cliques) - {loci[lid]}
  }

  /** The transcripts sharing a clique with `p`. */
  function Mates(p: string, cliques: seq<set<string>>): (r: set<string>)
    ensures forall tid :: tid in r <==> exists c :: c in cliques && p in c && tid in c
  {
    if cliques == [] then {}
    else
      var c := cliques[|cliques| - 1];
      Mates(p, cliques[..|cliques| - 1]) + (if p in c then c else {})
  }

  /** The loop over the cliques collecting those that hold `p`. */
  method CliqueMates(p: string, cliques: seq<set<string>>) returns (r: set<string>)
    ensures r == Mates(p, cliques)
  {
    r := {};
    for i := 0 to |cliques|
      invariant r == Mates(p, cliques[..i])
    {
      assert cliques[..i + 1][..i] == cliques[..i];
      if p in cliques[i] {
        r := r + cliques[i];
      }
    }
    assert cliques[..|cliques|] == cliques;
  }

  /** The loci whose clique set holds `tid` (`loci_in`). */
  function LociIn(lc: map<string, set<string>>, tid: string): set<string>
  {
    set lid | lid in lc && tid in lc[lid]
  }

  /** The candidates gathered over the transcripts of `order`: each non-primary transcript
      in the clique set of exactly one locus joins that locus's candidates. */
  function Candidates(order: seq<string>, primaries: set<string>, lc: map<string, set<string>>): map<string, set<string>>
  {
    if order == [] then map[]
    else
      var prev := Candidates(order[..|order| - 1], primaries, lc);
      var tid := order[|order| - 1];
      var lin := LociIn(lc, tid);
      if tid !in primaries && |lin| == 1 then
        map lid | lid in prev.Keys + lin :: (if lid in prev then prev[lid] else {}) + (if lid in lin then {tid} else {})
      else prev
  }

  lemma SingletonOnly(lin: set<string>, lid: string, other: string)
    requires |lin| == 1 && lid in lin && other in lin
    ensures lid == other
  {
    assert lin == {lid} + (lin - {lid});
    assert |lin - {lid}| == 0;
  }

  /** A transcript is a candidate of locus `lid` exactly when it is listed, is not a primary,
      and `lid` is the only locus sharing a clique with it. */
  lemma {:induction false} CandidatesExactly(order: seq<string>, primaries: set<string>,
                                             lc: map<string, set<string>>, lid: string, t: string)
    ensures var r := Candidates(order, primaries, lc);
      lid in r && t in r[lid] <==> t in order && t !in primaries && LociIn(lc, t) == {lid}
  {
    if order != [] {
      var n := |order| - 1;
      var init := order[..n];
      var tid := order[n];
      CandidatesExactly(init, primaries, lc, lid, t);
      var lin := LociIn(lc, tid);
      assert order == init + [tid];
      if tid !in primaries && |lin| == 1 {
        if lid in lin {
          assert lin == {lid} by {
            forall x | x in lin ensures x == lid { SingletonOnly(lin, lid, x); }
          }
        } else if t == tid {
          assert LociIn(lc, t) != {lid};
        }
      }
    }
  }

  /** No locus has an empty candidate set. */
  lemma {:induction false} CandidatesNonEmpty(order: seq<string>, primaries: set<string>, lc: map<string, set<string>>)
    ensures forall lid :: lid in Candidates(order, primaries, lc) ==> Candidates(order, primaries, lc)[lid] != {}
  {
    if order != [] {
      CandidatesNonEmpty(order[..|order| - 1], primaries, lc);
    }
  }

  // ---------------------------------------------------------------- strand splitting

  /** The transcripts of the dict in its order. */
  function Values(order: seq<string>, ts: map<string, Tx>): seq<Tx>
    requires forall k :: k in order ==> k in ts
  {
    if order == [] then [] else Values(order[..|order| - 1], ts) + [ts[order[|order| - 1]]]
  }

  /** The transcripts of `l`, in order, whose strand is `s`. */
  function OnStrand(l: seq<Tx>, s: Option<Strand>): seq<Tx>
  {
    if l == [] then []
    else
      var t := l[|l| - 1];
      OnStrand(l[..|l| - 1], s) + (if t.strand == s then [t] else [])
  }

  /** A strand list holds transcripts of that strand only. */
  lemma {:induction false} OnStrandOnly(l: seq<Tx>, s: Option<Strand>)
    ensures forall t :: t in OnStrand(l, s) ==> t.strand == s
  {
    if l != [] {
      OnStrandOnly(l[..|l| - 1], s);
    }
  }

  /** The three strand lists together hold every transcript once. */
  lemma {:induction false} StrandsPartition(l: seq<Tx>)
    ensures Sifted(l)
  {
    if l != [] {
      var n := |l| - 1;
      StrandsPartition(l[..n]);
      assert l == l[..n] + [l[n]];
      match l[n].strand
      case Some(Plus) => SiftPlus(l[..n], l[n]);
      case Some(Minus) => SiftMinus(l[..n], l[n]);
      case None => SiftNone(l[..n], l[n]);
    }
  }

  /** The three strand lists of `l` together hold its transcripts. */
  ghost predicate Sifted(l: seq<Tx>)
  {
    multiset(OnStrand(l, Some(Plus))) + multiset(OnStrand(l, Some(Minus))) + multiset(OnStrand(l, None))
      == multiset(l)
  }

  lemma SiftPlus(init: seq<Tx>, t: Tx)
    requires Sifted(init) && t.strand == Some(Plus)
    ensures Sifted(init + [t])
  {
    var l := init + [t];
    assert l[..|l| - 1] == init;
    assert multiset(l) == multiset(init) + multiset{t};
    var p, m, z := multiset(OnStrand(init, Some(Plus))), multiset(OnStrand(init, Some(Minus))), multiset(OnStrand(init, None));
    assert multiset(OnStrand(l, Some(Plus))) == p + multiset{t};
    assert OnStrand(l, Some(Minus)) == OnStrand(init, Some(Minus));
    assert OnStrand(l, None) == OnStrand(init, None);
    AddFirst(p, m, z, multiset(init), t);
  }

  lemma SiftMinus(init: seq<Tx>, t: Tx)
    requires Sifted(init) && t.strand == Some(Minus)
    ensures Sifted(init + [t])
  {
    var l := init + [t];
    assert l[..|l| - 1] == init;
    assert multiset(l) == multiset(init) + multiset{t};
    var p, m, z := multiset(OnStrand(init, Some(Plus))), multiset(OnStrand(init, Some(Minus))), multiset(OnStrand(init, None));
    assert multiset(OnStrand(l, Some(Minus))) == m + multiset{t};
    assert OnStrand(l, Some(Plus)) == OnStrand(init, Some(Plus));
    assert OnStrand(l, None) == OnStrand(init, None);
    AddSecond(p, m, z, multiset(init), t);
  }

  lemma SiftNone(init: seq<Tx>, t: Tx)
    requires Sifted(init) && t.strand == None
    ensures Sifted(init + [t])
  {
    var l := init + [t];
    assert l[..|l| - 1] == init;
    assert multiset(l) == multiset(init) + multiset{t};
    var p, m, z := multiset(OnStrand(init, Some(Plus))), multiset(OnStrand(init, Some(Minus))), multiset(OnStrand(init, None));
    assert multiset(OnStrand(l, None)) == z + multiset{t};
    assert OnStrand(l, Some(Plus)) == OnStrand(init, Some(Plus));
    assert OnStrand(l, Some(Minus)) == OnStrand(init, Some(Minus));
    AddThird(p, m, z, multiset(init), t);
  }

  lemma AddFirst<T>(a: multiset<T>, b: multiset<T>, c: multiset<T>, all: multiset<T>, x: T)
    requires a + b + c == all
    ensures (a + multiset{x}) + b + c == all + multiset{x}
  {
  }

  lemma AddSecond<T>(a: multiset<T>, b: multiset<T>, c: multiset<T>, all: multiset<T>, x: T)
    requires a + b + c == all
    ensures a + (b + multiset{x}) + c == all + multiset{x}
  {
  }

  lemma AddThird<T>(a: multiset<T>, b: multiset<T>, c: multiset<T>, all: multiset<T>, x: T)
    requires a + b + c == all
    ensures a + b + (c + multiset{x}) == all + multiset{x}
  {
  }

  /** The superloci a sorted strand list breaks into: a transcript joins the current one when
      `inLocus` (`Superlocus.in_locus`) accepts it, else it starts the next one. */
  function Chunks(s: seq<Tx>, inLocus: (seq<Tx>, Tx) -> bool): (r: seq<seq<Tx>>)
    requires s != []
    ensures r != []
  {
    if |s| == 1 then [s]
    else
      var c := Chunks(s[..|s| - 1], inLocus);
      var x := s[|s| - 1];
      if inLocus(c[|c| - 1], x) then c[..|c| - 1] + [c[|c| - 1] + [x]] else c + [[x]]
  }

  /** Appending one more list appends its elements. */
  lemma ConcatSnoc<T>(c: seq<seq<T>>, h: seq<T>)
    ensures Concat(c + [h]) == Concat(c) + h
  {
    assert (c + [h])[..|c|] == c;
  }

  /** Growing the last list by `x` appends `x`. */
  lemma ConcatGrowLast<T>(init: seq<seq<T>>, last: seq<T>, x: T)
    ensures Concat(init + [last + [x]]) == Concat(init + [last]) + [x]
  {
    ConcatSnoc(init, last);
    ConcatSnoc(init, last + [x]);
    var p := Concat(init);
    assert p + (last + [x]) == (p + last) + [x];
  }

  /** Chunking keeps the transcripts, in order. */
  lemma {:induction false} ChunksConcat(s: seq<Tx>, inLocus: (seq<Tx>, Tx) -> bool)
    requires s != []
    ensures Concat(Chunks(s, inLocus)) == s
  {
    if |s| == 1 {
      ConcatSnoc<Tx>([], s);
    } else {
      var n := |s| - 1;
      var c := Chunks(s[..n], inLocus);
      ChunksConcat(s[..n], inLocus);
      assert s == s[..n] + [s[n]];
      if inLocus(c[|c| - 1], s[n]) {
        assert c == c[..|c| - 1] + [c[|c| - 1]];
        ConcatGrowLast(c[..|c| - 1], c[|c| - 1], s[n]);
      } else {
        ConcatSnoc(c, [s[n]]);
      }
    }
  }

  /** No superlocus is empty. */
  lemma {:induction false} ChunksNonEmpty(s: seq<Tx>, inLocus: (seq<Tx>, Tx) -> bool)
    requires s != []
    ensures forall k :: 0 <= k < |Chunks(s, inLocus)| ==> Chunks(s, inLocus)[k] != []
  {
    if |s| > 1 {
      ChunksNonEmpty(s[..|s| - 1], inLocus);
    }
  }

  /** Every transcript after the first of a superlocus was accepted by the transcripts
      before it. */
  lemma {:induction false} ChunksAccepted(s: seq<Tx>, inLocus: (seq<Tx>, Tx) -> bool, k: nat, j: nat)
    requires s != [] && k < |Chunks(s, inLocus)| && 0 < j < |Chunks(s, inLocus)[k]|
    ensures inLocus(Chunks(s, inLocus)[k][..j], Chunks(s, inLocus)[k][j])
  {
    var n := |s| - 1;
    var c := Chunks(s[..n], inLocus);
    var x := s[n];
    var m := |c| - 1;
    var r := Chunks(s, inLocus);
    assert r == if inLocus(c[m], x) then c[..m] + [c[m] + [x]] else c + [[x]];
    if k < m {
      assert r[k] == c[k];
      ChunksAccepted(s[..n], inLocus, k, j);
    } else if inLocus(c[m], x) {
      assert r[k] == c[m] + [x];
      if j < |c[m]| {
        assert r[k][..j] == c[m][..j] && r[k][j] == c[m][j];
        ChunksAccepted(s[..n], inLocus, m, j);
      } else {
        assert r[k][..j] == c[m] && r[k][j] == x;
      }
    } else {
      assert r[k] == c[m];
      ChunksAccepted(s[..n], inLocus, m, j);
    }
  }

  /** The first transcript of every superlocus but the first was rejected by the one
      before. */
  lemma {:induction false} ChunksRejected(s: seq<Tx>, inLocus: (seq<Tx>, Tx) -> bool, k: nat)
    requires s != [] && 0 < k < |Chunks(s, inLocus)|
    ensures Chunks(s, inLocus)[k] != [] && !inLocus(Chunks(s, inLocus)[k - 1], Chunks(s, inLocus)[k][0])
  {
    var n := |s| - 1;
    var c := Chunks(s[..n], inLocus);
    var x := s[n];
    var m := |c| - 1;
    var r := Chunks(s, inLocus);
    assert r == if inLocus(c[m], x) then c[..m] + [c[m] + [x]] else c + [[x]];
    if k <= m {
      ChunksRejected(s[..n], inLocus, k);
      assert r[k - 1] == c[k - 1];
      if k < m || !inLocus(c[m], x) {
        assert r[k] == c[k];
      } else {
        assert r[k] == c[m] + [x];
      }
    } else {
      assert r[k - 1] == c[m] && r[k] == [x];
    }
  }

  /** The superloci of one strand list: none for an empty list, else the chunks of the
      sorted list. */
  function StrandChunks(l: seq<Tx>, inLocus: (seq<Tx>, Tx) -> bool): seq<seq<Tx>>
  {
    if l == [] then [] else Chunks(Sorting.Sort(l, TxLe), inLocus)
  }

  /** `split_strands` on the transcripts `l` of a superlocus: a stranded superlocus yields
      itself; otherwise the plus, minus and strandless transcripts are each sorted and broken
      into superloci. */
  function StrandGroups(l: seq<Tx>, stranded: bool, inLocus: (seq<Tx>, Tx) -> bool): seq<seq<Tx>>
  {
    if stranded then [l]
    else
      StrandChunks(OnStrand(l, Some(Plus)), inLocus)
      + StrandChunks(OnStrand(l, Some(Minus)), inLocus)
      + StrandChunks(OnStrand(l, None), inLocus)
  }

  /** Sorting and chunking a strand list keeps its transcripts. */
  lemma StrandChunksKeep(l: seq<Tx>, inLocus: (seq<Tx>, Tx) -> bool)
    ensures multiset(Concat(StrandChunks(l, inLocus))) == multiset(l)
  {
    if l != [] {
      Sorting.SortPermutes(l, TxLe);
      ChunksConcat(Sorting.Sort(l, TxLe), inLocus);
    }
  }

  /** The superloci of a single-strand list are single-strand. */
  lemma StrandChunksOneStrand(l: seq<Tx>, inLocus: (seq<Tx>, Tx) -> bool, s: Option<Strand>, k: nat)
    requires forall t :: t in l ==> t.strand == s
    requires k < |StrandChunks(l, inLocus)|
    ensures forall t :: t in StrandChunks(l, inLocus)[k] ==> t.strand == s
  {
    var r := StrandChunks(l, inLocus);
    StrandChunksKeep(l, inLocus);
    forall t: Tx | t in r[k]
      ensures t.strand == s
    {
      ConcatMember(r, k, t);
      assert t in multiset(Concat(r));
    }
  }

  lemma {:induction false} ConcatMember<T>(hs: seq<seq<T>>, k: nat, x: T)
    requires k < |hs| && x in hs[k]
    ensures x in Concat(hs)
  {
    if k < |hs| - 1 {
      ConcatMember(hs[..|hs| - 1], k, x);
    }
  }

  /** Splitting by strand loses and duplicates no transcript. */
  lemma StrandGroupsPartition(l: seq<Tx>, stranded: bool, inLocus: (seq<Tx>, Tx) -> bool)
    ensures multiset(Concat(StrandGroups(l, stranded, inLocus))) == multiset(l)
  {
    if stranded {
      assert Concat([l]) == Concat([]) + l;
    } else {
      var p := StrandChunks(OnStrand(l, Some(Plus)), inLocus);
      var m := StrandChunks(OnStrand(l, Some(Minus)), inLocus);
      var z := StrandChunks(OnStrand(l, None), inLocus);
      StrandChunksKeep(OnStrand(l, Some(Plus)), inLocus);
      StrandChunksKeep(OnStrand(l, Some(Minus)), inLocus);
      StrandChunksKeep(OnStrand(l, None), inLocus);
      ConcatAppend(p, m);
      ConcatAppend(p + m, z);
      StrandsPartition(l);
    }
  }

  /** Unless the superlocus is stranded, every new superlocus is single-stranded. */
  lemma StrandGroupsSingleStrand(l: seq<Tx>, inLocus: (seq<Tx>, Tx) -> bool, k: nat)
    requires k < |StrandGroups(l, false, inLocus)|
    ensures var g := StrandGroups(l, false, inLocus)[k];
      forall t: Tx, u: Tx :: t in g && u in g ==> t.strand == u.strand
  {
    var p := StrandChunks(OnStrand(l, Some(Plus)), inLocus);
    var m := StrandChunks(OnStrand(l, Some(Minus)), inLocus);
    var z := StrandChunks(OnStrand(l, None), inLocus);
    var r := p + m + z;
    if k < |p| {
      OnStrandOnly(l, Some(Plus));
      StrandChunksOneStrand(OnStrand(l, Some(Plus)), inLocus, Some(Plus), k);
      assert r[k] == p[k];
    } else if k < |p| + |m| {
      OnStrandOnly(l, Some(Minus));
      StrandChunksOneStrand(OnStrand(l, Some(Minus)), inLocus, Some(Minus), k - |p|);
      assert r[k] == m[k - |p|];
    } else {
      OnStrandOnly(l, None);
      StrandChunksOneStrand(OnStrand(l, None), inLocus, None, k - |p| - |m|);
      assert r[k] == z[k - |p| - |m|];
    }
  }

  /** The loop of `split_strands` over one sorted strand list: `current` is the superlocus
      being grown, `done` those already finished. */
  method ChunkSorted(s: seq<Tx>, inLocus: (seq<Tx>, Tx) -> bool) returns (r: seq<seq<Tx>>)
    requires s != []
    ensures r == Chunks(s, inLocus)
  {
    var done: seq<seq<Tx>> := [];
    var current := [s[0]];
    assert s[..1] == [s[0]];
    for i := 1 to |s|
      invariant done + [current] == Chunks(s[..i], inLocus)
    {
      assert s[..i + 1][..i] == s[..i];
      var c := Chunks(s[..i], inLocus);
      assert c[..|c| - 1] == done && c[|c| - 1] == current;
      if inLocus(current, s[i]) {
        current := current + [s[i]];
      } else {
        done := done + [current];
        current := [s[i]];
      }
    }
    assert s[..|s|] == s;
    r := done + [current];
  }

  /** The chunks of one strand list (an iteration of `for strand in plus, minus, nones`). */
  method ChunkStrand(l: seq<Tx>, inLocus: (seq<Tx>, Tx) -> bool) returns (r: seq<seq<Tx>>)
    ensures r == StrandChunks(l, inLocus)
  {
    if l == [] {
      return [];
    }
    r := ChunkSorted(Sorting.Sort(l, TxLe), inLocus);
  }

  /** The unstranded branch of `split_strands`: the strand lists, then the superloci of
      each. */
  method SplitByStrand(l: seq<Tx>, inLocus: (seq<Tx>, Tx) -> bool) returns (groups: seq<seq<Tx>>)
    ensures groups == StrandGroups(l, false, inLocus)
  {
    var plus, minus, nones := [], [], [];
    for i := 0 to |l|
      invariant plus == OnStrand(l[..i], Some(Plus))
      invariant minus == OnStrand(l[..i], Some(Minus))
      invariant nones == OnStrand(l[..i], None)
    {
      assert l[..i + 1][..i] == l[..i];
      var t := l[i];
      match t.strand
      case Some(Plus) =>
        plus := plus + [t];
      case Some(Minus) =>
        minus := minus + [t];
      case None =>
        nones := nones + [t];
    }
    assert l[..|l|] == l;
    var p := ChunkStrand(plus, inLocus);
    var m := ChunkStrand(minus, inLocus);
    var z := ChunkStrand(nones, inLocus);
    groups := p + m + z;
  }

  // ---------------------------------------------------------------- identifier

  /** How `id` renders the strand: `mixed` for an unstranded superlocus, else `+`, `-`, or
      `None` when the strand is unknown. */
  function StrandLabel(stranded: bool, strand: Option<Strand>): string
  {
    if !stranded then "mixed"
    else match strand
      case Some(Plus) => "+"
      case Some(Minus) => "-"
      case None => "None"
  }

  /** `"{0}:{1}{2}:{3}-{4}".format("superlocus", chrom, strand, start, end)`. */
  function SuperlocusId(chrom: string, shown: string, start: nat, end: nat): string
  {
    "superlocus:" + chrom + shown + ":" + Text.Decimal(start) + "-" + Text.Decimal(end)
  }

  /** Two digit strings preceded by the same non-digit separator split the same way. */
  lemma SplitBeforeDigits(a1: string, b1: string, a2: string, b2: string, sep: char)
    requires !Text.IsDigit(sep)
    requires forall i :: 0 <= i < |b1| ==> Text.IsDigit(b1[i])
    requires forall i :: 0 <= i < |b2| ==> Text.IsDigit(b2[i])
    requires a1 + [sep] + b1 == a2 + [sep] + b2
    ensures a1 == a2 && b1 == b2
  {
    var s1, s2 := a1 + [sep] + b1, a2 + [sep] + b2;
    assert s1[|a1|] == sep && s2[|a2|] == sep;
    assert |b1| == |b2|;
    assert a1 == s1[..|a1|] && a2 == s2[..|a2|];
    assert b1 == s1[|a1| + 1..] && b2 == s2[|a2| + 1..];
  }

  /** Distinct strand labels never end one another, so the chromosome and the label can be
      told apart. */
  lemma LabelSuffix(c1: string, l1: string, c2: string, l2: string, st1: bool, s1: Option<Strand>,
                    st2: bool, s2: Option<Strand>)
    requires l1 == StrandLabel(st1, s1) && l2 == StrandLabel(st2, s2)
    requires c1 + l1 == c2 + l2
    ensures c1 == c2 && l1 == l2
  {
    var w := c1 + l1;
    assert w[|w| - 1] == l1[|l1| - 1] && w[|w| - 1] == (c2 + l2)[|w| - 1] == l2[|l2| - 1];
    assert l1 == l2;
    assert c1 == w[..|c1|] && c2 == w[..|c2|];
  }

  /** The text before `":start-end"` and both coordinates can be read back. */
  lemma CoordinatesSuffix(q1: string, a1: nat, b1: nat, q2: string, a2: nat, b2: nat)
    requires q1 + ":" + Text.Decimal(a1) + "-" + Text.Decimal(b1) == q2 + ":" + Text.Decimal(a2) + "-" + Text.Decimal(b2)
    ensures q1 == q2 && a1 == a2 && b1 == b2
  {
    var p1, p2 := q1 + ":" + Text.Decimal(a1), q2 + ":" + Text.Decimal(a2);
    Text.DecimalDigits(a1); Text.DecimalDigits(a2); Text.DecimalDigits(b1); Text.DecimalDigits(b2);
    SplitBeforeDigits(p1, Text.Decimal(b1), p2, Text.Decimal(b2), '-');
    Text.DecimalInjective(b1, b2);
    SplitBeforeDigits(q1, Text.Decimal(a1), q2, Text.Decimal(a2), ':');
    Text.DecimalInjective(a1, a2);
  }

  lemma IdSplit(c: string, l: string, a: nat, b: nat)
    ensures SuperlocusId(c, l, a, b) == "superlocus:" + (c + l) + ":" + Text.Decimal(a) + "-" + Text.Decimal(b)
  {
  }

  /** The identifier determines chromosome, strand label and coordinates. */
  lemma IdInjective(c1: string, st1: bool, s1: Option<Strand>, a1: nat, b1: nat,
                    c2: string, st2: bool, s2: Option<Strand>, a2: nat, b2: nat)
    requires SuperlocusId(c1, StrandLabel(st1, s1), a1, b1) == SuperlocusId(c2, StrandLabel(st2, s2), a2, b2)
    ensures c1 == c2 && StrandLabel(st1, s1) == StrandLabel(st2, s2) && a1 == a2 && b1 == b2
  {
    var l1, l2 := StrandLabel(st1, s1), StrandLabel(st2, s2);
    var q1, q2 := "superlocus:" + (c1 + l1), "superlocus:" + (c2 + l2);
    IdSplit(c1, l1, a1, b1);
    IdSplit(c2, l2, a2, b2);
    CoordinatesSuffix(q1, a1, b1, q2, a2, b2);
    assert c1 + l1 == q1[11..] && c2 + l2 == q2[11..];
    LabelSuffix(c1, l1, c2, l2, st1, s1, st2, s2);
  }

  // ---------------------------------------------------------------- the superlocus

  /** The fields of a superlocus that `define_subloci` sets. */
  datatype SublociState = SublociState(order: seq<string>, transcripts: map<string, Tx>,
                                       excluded: Option<map<string, Tx>>, level: nat, retained: set<string>,
                                       subloci: seq<set<string>>, defined: bool)

  /** The fields of a superlocus that `define_monosubloci` sets, those of `define_subloci`
      included. */
  datatype MonoState = MonoState(sub: SublociState, monosubloci: seq<set<string>>, defined: bool)

  /** Every field of a superlocus that the three stages set. */
  datatype LociState = LociState(mono: MonoState, holders: seq<Holder>, loci: map<string, string>, defined: bool)

  /** `define_subloci` on the fields `st`: nothing changes and nothing is raised once the
      subloci are defined; otherwise the fields take the outcome of `Subloci`, the retained
      sources growing by the ones it found, and the flag is set exactly when nothing was raised. */
  function AfterSubloci(st: SublociState, purge: bool, notPassing: set<string>, cdsOnly: bool,
                        labels: seq<string>, communities: Graph -> seq<set<string>>): (SublociState, Option<Error>)
    requires Holding(st.order, st.transcripts) && notPassing <= st.transcripts.Keys
  {
    if st.defined then (st, None)
    else
      var s := Subloci(st.order, st.transcripts, purge, notPassing, cdsOnly, labels, st.level, communities);
      (SublociState(s.order, s.transcripts, s.excluded, s.level, st.retained + s.retained, s.subloci, s.err == None), s.err)
  }

  /** `define_monosubloci` on the fields `st`: nothing changes once the monosubloci are
      defined; otherwise `define_subloci` runs and its exception propagates, leaving the
      monosubloci as they were; on success the monosubloci are those of every sublocus, in
      order, and the flag is set. */
  function AfterMono(st: MonoState, purge: bool, notPassing: set<string>, cdsOnly: bool, labels: seq<string>,
                     communities: Graph -> seq<set<string>>, monoOf: set<string> -> seq<set<string>>): (MonoState, Option<Error>)
    requires Holding(st.sub.order, st.sub.transcripts) && notPassing <= st.sub.transcripts.Keys
  {
    if st.defined then (st, None)
    else
      var (sub, err) := AfterSubloci(st.sub, purge, notPassing, cdsOnly, labels, communities);
      if err != None then (MonoState(sub, st.monosubloci, false), err)
      else (MonoState(sub, Monos(sub.subloci, monoOf), true), None)
  }

  /** `define_loci` on the fields `st`: nothing changes once the loci are defined; otherwise
      `define_monosubloci` runs and its exception propagates, leaving the holders and the loci
      as they were; on success the holders are the first-fit grouping of the monosubloci, the
      loci map holds the loci of every holder by id, and the flag is set. */
  function AfterLoci(st: LociState, purge: bool, notPassing: set<string>, cdsOnly: bool, labels: seq<string>,
                     communities: Graph -> seq<set<string>>, monoOf: set<string> -> seq<set<string>>,
                     accepts: (Holder, set<string>) -> bool, lociOf: Holder -> seq<LocusRef>): (LociState, Option<Error>)
    requires Holding(st.mono.sub.order, st.mono.sub.transcripts) && notPassing <= st.mono.sub.transcripts.Keys
  {
    if st.defined then (st, None)
    else
      var (mono, err) := AfterMono(st.mono, purge, notPassing, cdsOnly, labels, communities, monoOf);
      if err != None then (LociState(mono, st.holders, st.loci, false), err)
      else
        var hs := Holders(mono.monosubloci, accepts);
        (LociState(mono, hs, LociMap(LociRefs(hs, lociOf)), true), None)
  }

  /** Each stage sets its flag exactly when it raises nothing, a stage that succeeded has the
      stages before it done, and a failing `define_loci` leaves the holders and the loci as
      they were. */
  lemma AfterLociFlags(st: LociState, purge: bool, notPassing: set<string>, cdsOnly: bool, labels: seq<string>,
                       communities: Graph -> seq<set<string>>, monoOf: set<string> -> seq<set<string>>,
                       accepts: (Holder, set<string>) -> bool, lociOf: Holder -> seq<LocusRef>)
    requires Holding(st.mono.sub.order, st.mono.sub.transcripts) && notPassing <= st.mono.sub.transcripts.Keys
    requires (st.defined ==> st.mono.defined) && (st.mono.defined ==> st.mono.sub.defined)
    ensures var (r, err) := AfterLoci(st, purge, notPassing, cdsOnly, labels, communities, monoOf, accepts, lociOf);
      && (err == None <==> r.defined)
      && (r.mono.defined ==> r.mono.sub.defined)
      && (r.defined ==> r.mono.defined)
      && (err != None ==> r.holders == st.holders && r.loci == st.loci && !r.mono.defined)
  {
  }

  /** A successful `define_loci` leaves a well-formed dict, and calling it again changes
      nothing and raises nothing, whatever transcripts fail the requirements then. */
  lemma AfterLociOnce(st: LociState, purge: bool, notPassing: set<string>, cdsOnly: bool, labels: seq<string>,
                      communities: Graph -> seq<set<string>>, monoOf: set<string> -> seq<set<string>>,
                      accepts: (Holder, set<string>) -> bool, lociOf: Holder -> seq<LocusRef>,
                      notPassing2: set<string>)
    requires Holding(st.mono.sub.order, st.mono.sub.transcripts) && notPassing <= st.mono.sub.transcripts.Keys
    ensures var (r, err) := AfterLoci(st, purge, notPassing, cdsOnly, labels, communities, monoOf, accepts, lociOf);
      err == None ==>
        && Holding(r.mono.sub.order, r.mono.sub.transcripts)
        && (notPassing2 <= r.mono.sub.transcripts.Keys ==>
              AfterLoci(r, purge, notPassing2, cdsOnly, labels, communities, monoOf, accepts, lociOf) == (r, None))
  {
  }

  class Superlocus {
    /** `self.transcripts`: `order` is the dict's key order. */
    var order: seq<string>
    var transcripts: map<string, Tx>
    const stranded: bool
    /** `json_conf["pick"]["run_options"]["purge"]`. */
    const purge: bool
    /** `json_conf["prepare"]["labels"]`. */
    const labels: seq<string>
    /** `json_conf["pick"]["run_options"]["subloci_from_cds_only"]`. */
    const cdsOnly: bool
    const chrom: string
    const strand: Option<Strand>
    const start: nat
    const end: nat
    /** `excluded_transcripts`: `None`, or the transcripts moved out by the prefilter. */
    var excluded: Option<map<string, Tx>>
    var approximationLevel: nat
    var retainedSources: set<string>
    var sublociDefined: bool
    var monosublociDefined: bool
    var lociDefined: bool
    /** The subloci and monosubloci, each as its transcript ids, and the holders. */
    var subloci: seq<set<string>>
    var monosubloci: seq<set<string>>
    var monoholders: seq<Holder>
    /** `self.loci`: locus id to the id of its primary transcript. */
    var loci: map<string, string>

    /** The dict is well formed, and a stage is only marked done after the one before it. */
    ghost predicate Valid()
      reads this
    {
      && Holding(order, transcripts)
      && (monosublociDefined ==> sublociDefined)
      && (lociDefined ==> monosublociDefined)
    }

    constructor (order: seq<string>, transcripts: map<string, Tx>, chrom: string, strand: Option<Strand>,
                 start: nat, end: nat, stranded: bool, purge: bool, labels: seq<string>, cdsOnly: bool)
      requires Holding(order, transcripts)
      ensures Valid()
      ensures this.order == order && this.transcripts == transcripts
      ensures this.chrom == chrom && this.strand == strand && this.start == start && this.end == end
      ensures this.stranded == stranded && this.purge == purge && this.labels == labels && this.cdsOnly == cdsOnly
      ensures excluded == None && approximationLevel == 0 && retainedSources == {}
      ensures !sublociDefined && !monosublociDefined && !lociDefined
      ensures subloci == [] && monosubloci == [] && monoholders == [] && loci == map[]
    {
      this.order := order;
      this.transcripts := transcripts;
      this.chrom := chrom;
      this.strand := strand;
      this.start := start;
      this.end := end;
      this.stranded := stranded;
      this.purge := purge;
      this.labels := labels;
      this.cdsOnly := cdsOnly;
      excluded := None;
      approximationLevel := 0;
      retainedSources := {};
      sublociDefined := false;
      monosublociDefined := false;
      lociDefined := false;
      subloci := [];
      monosubloci := [];
      monoholders := [];
      loci := map[];
    }

    /** The fields `define_subloci` sets. */
    function SublociFields(): SublociState
      reads this`order, this`transcripts, this`excluded, this`approximationLevel
      reads this`retainedSources, this`subloci, this`sublociDefined
    {
      SublociState(order, transcripts, excluded, approximationLevel, retainedSources, subloci, sublociDefined)
    }

    /** The fields `define_monosubloci` sets, those of `define_subloci` included. */
    function MonoFields(): MonoState
      reads this`order, this`transcripts, this`excluded, this`approximationLevel
      reads this`retainedSources, this`subloci, this`sublociDefined, this`monosubloci, this`monosublociDefined
    {
      MonoState(SublociFields(), monosubloci, monosublociDefined)
    }

    /** Every field the three stages set. */
    function LociFields(): LociState
      reads this
    {
      LociState(MonoFields(), monoholders, loci, lociDefined)
    }

    /** `define_subloci`, with `notPassing` the result of `_check_not_passing` and
        `communities` standing for `find_communities`: the fields it sets and the exception it
        raises are those `AfterSubloci` gives for the fields as they were. */
    method DefineSubloci(notPassing: set<string>, communities: Graph -> seq<set<string>>) returns (err: Option<Error>)
      requires Valid() && notPassing <= transcripts.Keys
      modifies this`order, this`transcripts, this`excluded, this`approximationLevel
      modifies this`retainedSources, this`subloci, this`sublociDefined
      ensures Valid()
      ensures (SublociFields(), err) == AfterSubloci(old(SublociFields()), purge, notPassing, cdsOnly, labels, communities)
    {
      if sublociDefined {
        return None;
      }
      var s := SublociSteps(order, transcripts, purge, notPassing, cdsOnly, labels, approximationLevel, communities);
      Install(s);
      err := s.err;
    }

    /** Stores the outcome of `define_subloci` in the superlocus. */
    method Install(s: Sublocing)
      requires Holding(s.order, s.transcripts) && !monosublociDefined && !lociDefined
      modifies this`order, this`transcripts, this`excluded, this`approximationLevel
      modifies this`retainedSources, this`subloci, this`sublociDefined
      ensures Valid()
      ensures order == s.order && transcripts == s.transcripts && excluded == s.excluded
      ensures approximationLevel == s.level && retainedSources == old(retainedSources) + s.retained
      ensures subloci == s.subloci && sublociDefined == (s.err == None)
    {
      order, transcripts, excluded := s.order, s.transcripts, s.excluded;
      approximationLevel, retainedSources := s.level, retainedSources + s.retained;
      subloci, sublociDefined := s.subloci, s.err == None;
    }

    /** `define_monosubloci`, `monoOf` standing for `Sublocus.define_monosubloci`: the fields
        it sets and the exception it raises are those `AfterMono` gives for the fields as they
        were. */
    method DefineMonosubloci(notPassing: set<string>, communities: Graph -> seq<set<string>>,
                             monoOf: set<string> -> seq<set<string>>) returns (err: Option<Error>)
      requires Valid() && notPassing <= transcripts.Keys
      modifies this`order, this`transcripts, this`excluded, this`approximationLevel
      modifies this`retainedSources, this`subloci, this`sublociDefined
      modifies this`monosubloci, this`monosublociDefined
      ensures Valid()
      ensures (MonoFields(), err) == AfterMono(old(MonoFields()), purge, notPassing, cdsOnly, labels, communities, monoOf)
    {
      if monosublociDefined {
        return None;
      }
      err := DefineSubloci(notPassing, communities);
      if err != None {
        return;
      }
      monosubloci := CollectMonosubloci(subloci, monoOf);
      monosublociDefined := true;
    }

    /** `calculate_mono_metrics`: the monosubloci go, in order, to the first holder that
        accepts them, or to a new holder. */
    method CalculateMonoMetrics(accepts: (Holder, set<string>) -> bool)
      modifies this`monoholders
      ensures monoholders == Holders(monosubloci, accepts)
    {
      monoholders := GroupHolders(monosubloci, accepts);
    }

    /** `define_loci`, `lociOf` standing for `MonosublocusHolder.define_loci`: the fields it
        sets and the exception it raises are those `AfterLoci` gives for the fields as they
        were. */
    method DefineLoci(notPassing: set<string>, communities: Graph -> seq<set<string>>,
                      monoOf: set<string> -> seq<set<string>>, accepts: (Holder, set<string>) -> bool,
                      lociOf: Holder -> seq<LocusRef>) returns (err: Option<Error>)
      requires Valid() && notPassing <= transcripts.Keys
      modifies this`order, this`transcripts, this`excluded, this`approximationLevel
      modifies this`retainedSources, this`subloci, this`sublociDefined
      modifies this`monosubloci, this`monosublociDefined, this`monoholders, this`loci, this`lociDefined
      ensures Valid()
      ensures (LociFields(), err)
        == AfterLoci(old(LociFields()), purge, notPassing, cdsOnly, labels, communities, monoOf, accepts, lociOf)
    {
      if lociDefined {
        return None;
      }
      err := DefineMonosubloci(notPassing, communities, monoOf);
      if err != None {
        return;
      }
      AssembleLoci(accepts, lociOf);
    }

    /** The part of `define_loci` after the monosubloci: `calculate_mono_metrics`, then the
        loci of every holder go into the map, and the flag is set. */
    method AssembleLoci(accepts: (Holder, set<string>) -> bool, lociOf: Holder -> seq<LocusRef>)
      requires Valid() && monosublociDefined
      modifies this`monoholders, this`loci, this`lociDefined
      ensures Valid() && lociDefined
      ensures monoholders == Holders(monosubloci, accepts) && loci == LociMap(LociRefs(monoholders, lociOf))
    {
      CalculateMonoMetrics(accepts);
      loci := map[];
      if monoholders == [] {
        lociDefined := true;
        return;
      }
      var refs := CollectLoci(monoholders, lociOf);
      loci := FillLoci(refs);
      lociDefined := true;
    }

    /** The candidate selection of `define_alternative_splicing`, with `cliques` the cliques
        `find_cliques` finds in the transcript graph: for each locus, the non-primary
        transcripts that share a clique with its primary and with no other locus's. */
    method AlternativeSplicingCandidates(cliques: seq<set<string>>) returns (cands: map<string, set<string>>)
      ensures cands == Candidates(order, loci.Values, LociCliques(loci, cliques))
    {
      var primaries := loci.Values;
      var lc := map[];
      var lids := loci.Keys;
      while lids != {}
        invariant lids <= loci.Keys
        invariant lc.Keys == loci.Keys - lids
        invariant forall lid :: lid in lc ==> lc[lid] == LociCliques(loci, cliques)[lid]
        decreases lids
      {
        var lid :| lid in lids;
        var mates := CliqueMates(loci[lid], cliques);
        lc := lc[lid := mates - {loci[lid]}];
        lids := lids - {lid};
      }
      assert lc == LociCliques(loci, cliques);
      cands := map[];
      for i := 0 to |order|
        invariant cands == Candidates(order[..i], primaries, lc)
      {
        assert order[..i + 1][..i] == order[..i];
        var tid := order[i];
        var lociIn := set lid | lid in lc && tid in lc[lid];
        if tid !in primaries && |lociIn| == 1 {
          cands := map lid | lid in cands.Keys + lociIn ::
            (if lid in cands then cands[lid] else {}) + (if lid in lociIn then {tid} else {});
        }
      }
      assert order[..|order|] == order;
    }

    /** `split_strands`, `inLocus` standing for `Superlocus.in_locus`. */
    method SplitStrands(inLocus: (seq<Tx>, Tx) -> bool) returns (groups: seq<seq<Tx>>)
      requires Valid()
      ensures groups == StrandGroups(Values(order, transcripts), stranded, inLocus)
    {
      var all := TranscriptList();
      if stranded {
        return [all];
      }
      groups := SplitByStrand(all, inLocus);
    }

    /** The transcripts of the dict in its order. */
    method TranscriptList() returns (l: seq<Tx>)
      requires Valid()
      ensures l == Values(order, transcripts)
    {
      l := [];
      for i := 0 to |order|
        invariant l == Values(order[..i], transcripts)
      {
        assert order[..i + 1][..i] == order[..i];
        l := l + [transcripts[order[i]]];
      }
      assert order[..|order|] == order;
    }

    /** `id`. */
    function Id(): string
    {
      SuperlocusId(chrom, StrandLabel(stranded, strand), start, end)
    }
  }
}
