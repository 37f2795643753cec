/** The transcript graph of a superlocus: the intersection test `Superlocus.is_intersecting`,
    the graph `define_graph` builds from it, and the three-level complexity reducer
    `__reduce_complex_loci` that prunes it against the (1000 nodes, 1000 edges) budget. */
module SuperlocusGraph {
  import opened Intervals
  import opened LociTranscript
  import Sorting
  import Text

  /** `_complex_limit`. */
  const NodeLimit := 1000
  const EdgeLimit := 1000

  datatype Error = AssertionFailed | ValueError | KeyError
  datatype Result<T> = Ok(value: T) | Fail(error: Error)

  // ---------------------------------------------------------------- intersection

  /** The intron set compared for two multiexonic transcripts: the combined CDS introns
      when `subloci_from_cds_only` is set, all introns otherwise. */
  function IntronsFor(t: Tx, cdsOnly: bool): set<Interval>
  {
    if cdsOnly then t.cdsIntrons else t.introns
  }

  /** Bases `p` and `p + 1` both lie in the span of `t`. */
  predicate PairInside(t: Tx, p: int)
  {
    t.start <= p < t.end
  }

  /** The two spans share at least two consecutive bases. */
  ghost predicate ShareTwoBases(a: Tx, b: Tx)
  {
    exists p :: PairInside(a, p) && PairInside(b, p)
  }

  lemma OverlapShares(a: Tx, b: Tx)
    ensures Overlap(Interval(a.start, a.end), Interval(b.start, b.end)) > 0 <==> ShareTwoBases(a, b)
  {
    if Overlap(Interval(a.start, a.end), Interval(b.start, b.end)) > 0 {
      var p := Max(a.start, b.start);
      assert PairInside(a, p) && PairInside(b, p);
    }
    if ShareTwoBases(a, b) {
      var p :| PairInside(a, p) && PairInside(b, p);
      assert Min(a.end, b.end) > p >= Max(a.start, b.start);
    }
  }

  lemma SharedIntron(s: set<Interval>, t: set<Interval>)
    ensures |s * t| > 0 <==> exists i :: i in s && i in t
  {
    if |s * t| > 0 {
      var i :| i in s * t;
    }
    if exists i :: i in s && i in t {
      var i :| i in s && i in t;
      assert i in s * t;
    }
  }

  /** `Superlocus.is_intersecting`: never with itself; two multiexonic transcripts when they
      share an intron; two monoexonic ones when they share an end or overlap; a monoexonic
      and a multiexonic one never. */
  function IsIntersecting(a: Tx, b: Tx, cdsOnly: bool): (r: bool)
    ensures a.id == b.id ==> !r
    ensures a.id != b.id && !Monoexonic(a) && !Monoexonic(b) ==>
      (r <==> exists i :: i in IntronsFor(a, cdsOnly) && i in IntronsFor(b, cdsOnly))
    ensures a.id != b.id && Monoexonic(a) && Monoexonic(b) ==>
      (r <==> a.start == b.start || a.end == b.end || ShareTwoBases(a, b))
    ensures Monoexonic(a) != Monoexonic(b) ==> !r
  {
    OverlapShares(a, b);
    SharedIntron(IntronsFor(a, cdsOnly), IntronsFor(b, cdsOnly));
    if a.id == b.id then false
    else if !Monoexonic(a) && !Monoexonic(b) then
      |IntronsFor(a, cdsOnly) * IntronsFor(b, cdsOnly)| > 0
    else if Monoexonic(a) && Monoexonic(b) then
      a.start == b.start || a.end == b.end
        || Overlap(Interval(a.start, a.end), Interval(b.start, b.end)) > 0
    else false
  }

  lemma IntersectingSymmetric(a: Tx, b: Tx, cdsOnly: bool)
    ensures IsIntersecting(a, b, cdsOnly) == IsIntersecting(b, a, cdsOnly)
  {
    assert IntronsFor(a, cdsOnly) * IntronsFor(b, cdsOnly) == IntronsFor(b, cdsOnly) * IntronsFor(a, cdsOnly);
  }

  // ---------------------------------------------------------------- graphs

  /** An undirected graph as networkx keeps it: nodes in insertion order and, per node, its
      neighbours in insertion order. */
  datatype Graph = Graph(nodes: seq<string>, adj: map<string, seq<string>>)

  /** Every node has a neighbour list, no self loops, every edge present in both directions. */
  predicate Valid(g: Graph)
  {
    && (forall n :: n in g.adj ==> n in g.nodes)
    && (forall n :: n in g.nodes ==> n in g.adj)
    && (forall n, m :: n in g.adj && m in g.adj[n] ==> m in g.adj && m != n && n in g.adj[m])
  }

  /** No node and no neighbour listed twice, so list lengths are `len(graph)` and degrees. */
  predicate Simple(g: Graph)
  {
    Distinct(g.nodes) && forall n :: n in g.adj ==> Distinct(g.adj[n])
  }

  /** `h` is what is left of `g` after deleting some nodes together with their edges. */
  ghost predicate SubgraphOf(h: Graph, g: Graph)
  {
    && (forall n :: n in h.adj ==> n in g.adj)
    && (forall n, m :: n in h.adj ==> (m in h.adj[n] <==> m in g.adj[n] && m in h.adj))
  }

  /** `remove_nodes_from(rm)`. */
  function Remove(g: Graph, rm: set<string>): (r: Graph)
    ensures forall n :: n in r.nodes <==> n in g.nodes && n !in rm
    ensures forall n :: n in r.adj <==> n in g.adj && n !in rm
    ensures forall n, m :: n in r.adj ==> (m in r.adj[n] <==> m in g.adj[n] && m !in rm)
  {
    Graph(Without(g.nodes, rm), map n | n in g.adj && n !in rm :: Without(g.adj[n], rm))
  }

  lemma RemoveSimple(g: Graph, rm: set<string>)
    requires Simple(g)
    ensures Simple(Remove(g, rm))
  {
    var r := Remove(g, rm);
    WithoutDistinct(g.nodes, rm);
    forall n | n in r.adj
      ensures Distinct(r.adj[n])
    {
      WithoutDistinct(g.adj[n], rm);
    }
  }

  lemma RemoveValid(g: Graph, rm: set<string>)
    requires Valid(g)
    ensures Valid(Remove(g, rm)) && SubgraphOf(Remove(g, rm), g)
  {
    var r := Remove(g, rm);
    forall n, m | n in r.adj && m in r.adj[n]
      ensures m in r.adj && m != n && n in r.adj[m]
    {
      assert n in g.adj && n !in rm && m in g.adj[n] && m !in rm;
      ValidEdge(g, n, m);
    }
    forall n, m | n in r.adj
      ensures m in r.adj[n] <==> m in g.adj[n] && m in r.adj
    {
      if m in g.adj[n] {
        ValidEdge(g, n, m);
      }
    }
  }

  /** An edge of a valid graph joins two distinct nodes and is listed at both ends. */
  lemma ValidEdge(g: Graph, n: string, m: string)
    requires Valid(g) && n in g.adj && m in g.adj[n]
    ensures m in g.adj && m != n && n in g.adj[m]
  {
  }

  lemma SubgraphTransitive(k: Graph, h: Graph, g: Graph)
    requires SubgraphOf(k, h) && SubgraphOf(h, g)
    ensures SubgraphOf(k, g)
  {
  }

  /** `len(graph) < 1000 and max(degree) < 1000` (for a graph with at least one node). */
  predicate WithinLimits(g: Graph)
  {
    |g.nodes| < NodeLimit && forall n :: n in g.adj ==> |g.adj[n]| < EdgeLimit
  }

  /** The transcripts of `order` that `t` intersects, in dict order. */
  function Neighbours(order: seq<string>, ts: map<string, Tx>, t: Tx, cdsOnly: bool): (r: seq<string>)
    requires forall k :: k in order ==> k in ts
    ensures forall m :: m in r <==> m in order && IsIntersecting(t, ts[m], cdsOnly)
    ensures Distinct(order) ==> Distinct(r)
  {
    if order == [] then []
    else
      var last := order[|order| - 1];
      var rest := Neighbours(order[..|order| - 1], ts, t, cdsOnly);
      if IsIntersecting(t, ts[last], cdsOnly) then rest + [last] else rest
  }

  /** `define_graph(transcripts, inters=is_intersecting)`: a node per transcript in dict order
      and an edge between every intersecting pair. */
  function DefineGraph(order: seq<string>, ts: map<string, Tx>, cdsOnly: bool): (g: Graph)
    requires Keyed(order, ts)
    ensures g.nodes == order
    ensures forall n :: n in g.adj <==> n in order
    ensures forall n, m :: n in order ==> (m in g.adj[n] <==> m in ts && IsIntersecting(ts[n], ts[m], cdsOnly))
  {
    Graph(order, map n | n in order :: Neighbours(order, ts, ts[n], cdsOnly))
  }

  lemma DefineGraphValid(order: seq<string>, ts: map<string, Tx>, cdsOnly: bool)
    requires Keyed(order, ts)
    ensures Valid(DefineGraph(order, ts, cdsOnly)) && Simple(DefineGraph(order, ts, cdsOnly))
  {
    var g := DefineGraph(order, ts, cdsOnly);
    forall n, m | n in g.adj && m in g.adj[n]
      ensures m in g.adj && m != n && n in g.adj[m]
    {
      IntersectingSymmetric(ts[n], ts[m], cdsOnly);
    }
  }

  /** Every node of `g` is a finalized transcript of `ts` (it has at least one exon). */
  predicate Over(g: Graph, ts: map<string, Tx>)
  {
    Valid(g) && forall n :: n in g.adj ==> n in ts && ts[n].exons != []
  }

  /** The neighbours of a node are transcripts too, and the node is not among them. */
  lemma NeighboursOver(ts: map<string, Tx>, g: Graph, n: string)
    requires Over(g, ts) && n in g.adj
    ensures n !in g.adj[n] && forall m :: m in g.adj[n] ==> m in ts && ts[m].exons != []
  {
  }

  // ---------------------------------------------------------------- level 1

  /** `outer` has the same introns as `inner` and a span containing it. */
  predicate Covers(outer: Tx, inner: Tx)
  {
    outer.introns == inner.introns && outer.start <= inner.start && inner.end <= outer.end
  }

  /** One pass of the level-1 inner loop: walk `cur`'s neighbours in order, mark those it
      covers, and stop as soon as one covers `cur` (marking `cur`). */
  function Level1Scan(ts: map<string, Tx>, cur: string, ns: seq<string>, rm: set<string>): (r: set<string>)
    requires cur in ts && cur !in ns && forall n :: n in ns ==> n in ts
    ensures rm <= r
    ensures forall x :: x in r && x !in rm ==>
      || (x in ns && Covers(ts[cur], ts[x]))
      || (x == cur && exists n :: n in ns && n !in r && Covers(ts[n], ts[cur]))
    decreases |ns|
  {
    if ns == [] then rm
    else
      var n := ns[0];
      if n in rm then Level1Scan(ts, cur, ns[1..], rm)
      else if Covers(ts[cur], ts[n]) then Level1Scan(ts, cur, ns[1..], rm + {n})
      else if Covers(ts[n], ts[cur]) then assert n in ns; rm + {cur}
      else Level1Scan(ts, cur, ns[1..], rm)
  }

  lemma ScanWitness(ts: map<string, Tx>, g: Graph, cur: string, rm: set<string>, x: string)
    requires Over(g, ts) && cur in g.adj
    requires x in Level1Scan(ts, cur, g.adj[cur], rm) && x !in rm
    ensures x in g.adj && exists y :: y in g.adj && x in g.adj[y] && Covers(ts[y], ts[x])
  {
    if x != cur {
      assert x in g.adj[cur] && Covers(ts[cur], ts[x]);
    } else {
      var n :| n in g.adj[cur] && Covers(ts[n], ts[cur]);
      assert cur in g.adj[n];
    }
  }

  /** Level 1 as corrected: the outer loop skips a transcript already marked for removal,
      so of several identical transcripts the first one reached survives. */
  function Level1(ts: map<string, Tx>, g: Graph, ns: seq<string>, rm: set<string>): (r: set<string>)
    requires Over(g, ts) && forall n :: n in ns ==> n in g.adj
    ensures rm <= r
    ensures forall x :: x in r && x !in rm ==>
      x in g.adj && exists y :: y in g.adj && x in g.adj[y] && Covers(ts[y], ts[x])
    decreases |ns|
  {
    if ns == [] then rm
    else if ns[0] in rm then Level1(ts, g, ns[1..], rm)
    else
      var next := Level1Scan(ts, ns[0], g.adj[ns[0]], rm);
      var r := Level1(ts, g, ns[1..], next);
      assert forall x :: x in next && x !in rm ==> x in g.adj && exists y :: y in g.adj && x in g.adj[y] && Covers(ts[y], ts[x]) by {
        forall x | x in next && x !in rm
          ensures x in g.adj && exists y :: y in g.adj && x in g.adj[y] && Covers(ts[y], ts[x])
        {
          ScanWitness(ts, g, ns[0], rm, x);
        }
      }
      r
  }

  /** Level 1 as the source writes it: a transcript already marked is still visited and can
      mark the very neighbour that marked it. */
  function Level1AsWritten(ts: map<string, Tx>, g: Graph, ns: seq<string>, rm: set<string>): (r: set<string>)
    requires Over(g, ts) && forall n :: n in ns ==> n in g.adj
    ensures rm <= r
    decreases |ns|
  {
    if ns == [] then rm
    else Level1AsWritten(ts, g, ns[1..], Level1Scan(ts, ns[0], g.adj[ns[0]], rm))
  }

  /** The graph of two transcripts joined by one edge. */
  function Pair(a: string, b: string): Graph
  {
    Graph([a, b], map[a := [b], b := [a]])
  }

  lemma PairOver(ts: map<string, Tx>, a: string, b: string)
    requires a != b && a in ts && b in ts && ts[a].exons != [] && ts[b].exons != []
    ensures Over(Pair(a, b), ts)
  {
  }

  /** Scanning a single neighbour that the current transcript covers marks that neighbour. */
  lemma ScanOne(ts: map<string, Tx>, cur: string, n: string, rm: set<string>)
    requires cur in ts && n in ts && cur != n && n !in rm && Covers(ts[cur], ts[n])
    ensures Level1Scan(ts, cur, [n], rm) == rm + {n}
  {
    assert [n][1..] == [];
  }

  /** Two copies of the same transcript (same introns, same span) joined by an edge: as
      written both are removed; the corrected pass keeps the first. */
  lemma Level1AsWrittenRemovesBoth(ts: map<string, Tx>, a: string, b: string)
    requires a != b && a in ts && b in ts && ts[a].exons != [] && ts[b].exons != []
    requires ts[a].introns == ts[b].introns && ts[a].start == ts[b].start && ts[a].end == ts[b].end
    ensures Over(Pair(a, b), ts)
    ensures Level1AsWritten(ts, Pair(a, b), [a, b], {}) == {a, b}
    ensures Level1(ts, Pair(a, b), [a, b], {}) == {b}
  {
    var g := Pair(a, b);
    PairOver(ts, a, b);
    assert g.adj[a] == [b] && g.adj[b] == [a];
    ScanOne(ts, a, b, {});
    ScanOne(ts, b, a, {b});
    assert [a, b][1..] == [b] && [b][1..] == [];
    assert {b} + {a} == {a, b};
    calc {
      Level1AsWritten(ts, g, [a, b], {});
      Level1AsWritten(ts, g, [b], Level1Scan(ts, a, [b], {}));
      Level1AsWritten(ts, g, [b], {b});
      Level1AsWritten(ts, g, [], Level1Scan(ts, b, [a], {b}));
      Level1AsWritten(ts, g, [], {a, b});
    }
    calc {
      Level1(ts, g, [a, b], {});
      Level1(ts, g, [b], Level1Scan(ts, a, [b], {}));
      Level1(ts, g, [b], {b});
      Level1(ts, g, [], {b});
    }
  }

  /** After the corrected level 1 at least one node is left, whatever the graph. */
  lemma {:induction false} Level1KeepsOne(ts: map<string, Tx>, g: Graph, ns: seq<string>, rm: set<string>, w: string)
    requires Over(g, ts) && forall n :: n in ns ==> n in g.adj
    requires w in g.adj && w !in rm
    ensures exists x :: x in g.adj && x !in Level1(ts, g, ns, rm)
    decreases |ns|
  {
    if ns == [] {
      assert w !in Level1(ts, g, ns, rm);
    } else if ns[0] in rm {
      Level1KeepsOne(ts, g, ns[1..], rm, w);
    } else {
      var c := ns[0];
      var next := Level1Scan(ts, c, g.adj[c], rm);
      if c !in next {
        Level1KeepsOne(ts, g, ns[1..], next, c);
      } else {
        var n :| n in g.adj[c] && n !in next && Covers(ts[n], ts[c]);
        Level1KeepsOne(ts, g, ns[1..], next, n);
      }
    }
  }

  // ---------------------------------------------------------------- level 2

  /** The exons of `es` ending at `p`. */
  function EndingAt(es: seq<Interval>, p: int): (r: seq<Interval>)
    ensures forall e :: e in r <==> e in es && e.end == p
  {
    if es == [] then []
    else if es[|es| - 1].end == p then EndingAt(es[..|es| - 1], p) + [es[|es| - 1]]
    else EndingAt(es[..|es| - 1], p)
  }

  /** The exons of `es` starting at `p`. */
  function StartingAt(es: seq<Interval>, p: int): (r: seq<Interval>)
    ensures forall e :: e in r <==> e in es && e.start == p
  {
    if es == [] then []
    else if es[|es| - 1].start == p then StartingAt(es[..|es| - 1], p) + [es[|es| - 1]]
    else StartingAt(es[..|es| - 1], p)
  }

  /** The exon checks of level 2, for an `inner` transcript whose introns all belong to
      `outer`: `outer` must have exactly one exon ending where `inner`'s first exon ends and
      exactly one starting where `inner`'s last exon starts (the source asserts both), and
      `inner` is contained when those exons reach `inner`'s start and end. */
  function Corresponds(inner: Tx, outer: Tx): (r: Result<bool>)
    requires inner.exons != []
    ensures r == Ok(true) ==> exists e, f ::
      && e in outer.exons && e.end == inner.exons[0].end && e.start <= inner.start
      && f in outer.exons && f.start == inner.exons[|inner.exons| - 1].start && inner.end <= f.end
    ensures r.Fail? ==>
      |EndingAt(outer.exons, inner.exons[0].end)| != 1
      || |StartingAt(outer.exons, inner.exons[|inner.exons| - 1].start)| != 1
    ensures r.Fail? ==> r.error == AssertionFailed
  {
    var first := EndingAt(outer.exons, inner.exons[0].end);
    if |first| != 1 then Fail(AssertionFailed)
    else if first[0].start > inner.start then Ok(false)
    else
      var last := StartingAt(outer.exons, inner.exons[|inner.exons| - 1].start);
      if |last| != 1 then Fail(AssertionFailed)
      else if last[0].end < inner.end then Ok(false)
      else assert first[0] in first && last[0] in last; Ok(true)
  }

  /** One pass of the level-2 inner loop over `cur`'s neighbours. */
  function Level2Scan(ts: map<string, Tx>, cur: string, ns: seq<string>, rm: set<string>): (r: Result<set<string>>)
    requires cur in ts && ts[cur].exons != []
    requires forall n :: n in ns ==> n in ts && ts[n].exons != []
    ensures r.Ok? ==> rm <= r.value
    ensures r.Ok? ==> forall x :: x in r.value && x !in rm ==>
      || (x in ns && ts[x].introns <= ts[cur].introns)
      || (x == cur && exists n :: n in ns && ts[cur].introns <= ts[n].introns)
    decreases |ns|
  {
    if ns == [] then Ok(rm)
    else
      var n := ns[0];
      if n in rm then Level2Scan(ts, cur, ns[1..], rm)
      else
        var shared := ts[cur].introns * ts[n].introns;
        if shared == ts[cur].introns then
          match Corresponds(ts[cur], ts[n])
          case Fail(e) => Fail(e)
          case Ok(inside) => if inside then assert n in ns; Ok(rm + {cur}) else Level2Scan(ts, cur, ns[1..], rm)
        else if shared == ts[n].introns then
          match Corresponds(ts[n], ts[cur])
          case Fail(e) => Fail(e)
          case Ok(inside) => Level2Scan(ts, cur, ns[1..], if inside then rm + {n} else rm)
        else Level2Scan(ts, cur, ns[1..], rm)
  }

  /** A transcript the level-2 pass over `cur` removed is contained in a neighbour's introns. */
  lemma Scan2Witness(ts: map<string, Tx>, g: Graph, cur: string, x: string)
    requires Over(g, ts) && cur in g.adj
    requires || (x in g.adj[cur] && x in ts && ts[x].introns <= ts[cur].introns)
             || (x == cur && exists n :: n in g.adj[cur] && n in ts && ts[cur].introns <= ts[n].introns)
    ensures x in g.adj && exists y :: y in g.adj && x in g.adj[y] && ts[x].introns <= ts[y].introns
  {
    if x in g.adj[cur] && x in ts && ts[x].introns <= ts[cur].introns {
      assert x in g.adj[cur];
    } else {
      var n :| n in g.adj[cur] && n in ts && ts[cur].introns <= ts[n].introns;
      assert cur in g.adj[n];
    }
  }

  /** The level-2 outer loop; unlike level 1 it has no skip, as in the source. */
  function Level2(ts: map<string, Tx>, g: Graph, ns: seq<string>, rm: set<string>): (r: Result<set<string>>)
    requires Over(g, ts) && forall n :: n in ns ==> n in g.adj
    ensures r.Ok? ==> rm <= r.value
    ensures r.Ok? ==> forall x :: x in r.value && x !in rm ==>
      x in g.adj && exists y :: y in g.adj && x in g.adj[y] && ts[x].introns <= ts[y].introns
    decreases |ns|
  {
    if ns == [] then Ok(rm)
    else
      match Level2Scan(ts, ns[0], g.adj[ns[0]], rm)
      case Fail(e) => Fail(e)
      case Ok(next) =>
        var r := Level2(ts, g, ns[1..], next);
        assert r.Ok? ==> forall x :: x in next && x !in rm ==> x in g.adj && exists y :: y in g.adj && x in g.adj[y] && ts[x].introns <= ts[y].introns by {
          forall x | x in next && x !in rm
            ensures x in g.adj && exists y :: y in g.adj && x in g.adj[y] && ts[x].introns <= ts[y].introns
          {
            NeighboursOver(ts, g, ns[0]);
            Scan2Witness(ts, g, ns[0], x);
          }
        }
        r
  }

  // ---------------------------------------------------------------- level 3

  /** A source group: the label (or the transcript source) and the transcripts carrying it. */
  datatype Group = Group(key: string, members: set<string>)

  /** The first non-empty label contained in the transcript id, or else its source. */
  function Label(tid: string, labels: seq<string>, fallback: string): string
  {
    if labels == [] then fallback
    else if labels[0] != "" && Text.Contains(tid, labels[0]) then labels[0]
    else Label(tid, labels[1..], fallback)
  }

  /** No label before position `i` is a non-empty label contained in the id. */
  predicate NoLabelBefore(tid: string, labels: seq<string>, i: int)
  {
    forall j :: 0 <= j < i && j < |labels| ==> labels[j] == "" || !Text.Contains(tid, labels[j])
  }

  /** `r` is what the loop over `labels` picks when it stops at position `i`. */
  predicate PickedAt(tid: string, labels: seq<string>, fallback: string, i: int, r: string)
  {
    && 0 <= i <= |labels|
    && NoLabelBefore(tid, labels, i)
    && (i < |labels| ==> r == labels[i] && r != "" && Text.Contains(tid, r))
    && (i == |labels| ==> r == fallback)
  }

  /** The label is the first non-empty label occurring in the id, and the fallback exactly
      when there is none. */
  lemma {:induction false} LabelFirst(tid: string, labels: seq<string>, fallback: string)
    ensures exists i :: PickedAt(tid, labels, fallback, i, Label(tid, labels, fallback))
  {
    var r := Label(tid, labels, fallback);
    if labels == [] {
      assert PickedAt(tid, labels, fallback, 0, r);
    } else if labels[0] != "" && Text.Contains(tid, labels[0]) {
      assert PickedAt(tid, labels, fallback, 0, r);
    } else {
      LabelFirst(tid, labels[1..], fallback);
      var i :| PickedAt(tid, labels[1..], fallback, i, r);
      assert NoLabelBefore(tid, labels, i + 1) by {
        forall j | 0 <= j < i + 1 && j < |labels|
          ensures labels[j] == "" || !Text.Contains(tid, labels[j])
        {
          if j > 0 { assert labels[j] == labels[1..][j - 1]; }
        }
      }
      assert PickedAt(tid, labels, fallback, i + 1, r);
    }
  }

  /** The source key of every transcript: its label, or else its source. */
  function LabelOf(ts: map<string, Tx>, labels: seq<string>): string -> string
  {
    x => if x in ts then Label(x, labels, ts[x].source) else x
  }

  /** `sources`: a `defaultdict(set)` from label to transcripts, keys in insertion order. */
  datatype SourceTable = SourceTable(keys: seq<string>, groups: map<string, set<string>>)

  /** The keys list and the dictionary hold the same keys. */
  predicate TableValid(t: SourceTable)
  {
    && (forall k :: k in t.keys ==> k in t.groups)
    && (forall k :: k in t.groups ==> k in t.keys)
  }

  /** `groups[k].add(x)` on a `defaultdict(set)`. */
  function Insert(groups: map<string, set<string>>, k: string, x: string): map<string, set<string>>
  {
    groups[k := (if k in groups then groups[k] else {}) + {x}]
  }

  /** The source table of the nodes `ns` under the key function `key`: every node sits in
      the group of its key. */
  function Sources(key: string -> string, ns: seq<string>): (r: SourceTable)
    ensures TableValid(r)
    ensures forall x :: x in ns ==> key(x) in r.groups && x in r.groups[key(x)]
  {
    if ns == [] then SourceTable([], map[])
    else
      var last := ns[|ns| - 1];
      var t := Sources(key, ns[..|ns| - 1]);
      var k := key(last);
      PrefixMembers(ns);
      SourceTable(if k in t.groups then t.keys else t.keys + [k], Insert(t.groups, k, last))
  }

  /** Each key is listed once. */
  lemma {:induction false} SourcesDistinct(key: string -> string, ns: seq<string>)
    ensures Distinct(Sources(key, ns).keys)
  {
    if ns != [] {
      var t := Sources(key, ns[..|ns| - 1]);
      SourcesDistinct(key, ns[..|ns| - 1]);
      if key(ns[|ns| - 1]) !in t.groups {
        DistinctSnoc(t.keys, key(ns[|ns| - 1]));
      }
    }
  }

  /** Every group of `groups` holds only nodes of `ns` carrying its key. */
  predicate Homed(key: string -> string, groups: map<string, set<string>>, ns: seq<string>)
  {
    forall k, x :: k in groups && x in groups[k] ==> x in ns && k == key(x)
  }

  lemma HomedAt(key: string -> string, groups: map<string, set<string>>, ns: seq<string>, k: string, x: string)
    requires Homed(key, groups, ns) && k in groups && x in groups[k]
    ensures x in ns && k == key(x)
  {
  }

  /** One insertion into the table keeps every group made of nodes carrying its key. */
  lemma GroupsStep(key: string -> string, before: map<string, set<string>>, after: map<string, set<string>>,
                   last: string, prefix: seq<string>, ns: seq<string>)
    requires Homed(key, before, prefix)
    requires after == Insert(before, key(last), last)
    requires forall x :: x in prefix ==> x in ns
    requires last in ns
    ensures Homed(key, after, ns)
  {
    forall k, x | k in after && x in after[k]
      ensures x in ns && k == key(x)
    {
      if k != key(last) {
        assert x in before[k];
      } else if x != last {
        assert x in before[k];
      }
    }
  }

  /** A group holds only nodes carrying its key. */
  lemma {:induction false} SourcesMembers(key: string -> string, ns: seq<string>)
    ensures Homed(key, Sources(key, ns).groups, ns)
  {
    if ns != [] {
      var prefix := ns[..|ns| - 1];
      SourcesMembers(key, prefix);
      PrefixMembers(ns);
      GroupsStep(key, Sources(key, prefix).groups, Sources(key, ns).groups, ns[|ns| - 1], prefix, ns);
    }
  }

  /** The table's groups as a list, in key insertion order. */
  function GroupList(keys: seq<string>, groups: map<string, set<string>>): (r: seq<Group>)
    requires forall k :: k in keys ==> k in groups
    ensures |r| == |keys|
    ensures forall i :: 0 <= i < |r| ==> r[i] == Group(keys[i], groups[keys[i]])
  {
    if keys == [] then []
    else GroupList(keys[..|keys| - 1], groups) + [Group(keys[|keys| - 1], groups[keys[|keys| - 1]])]
  }

  predicate SizeLe(a: Group, b: Group)
  {
    |a.members| <= |b.members|
  }

  /** The source groups in ascending size, ties in first-seen order. */
  function Ordered(ts: map<string, Tx>, labels: seq<string>, ns: seq<string>): (r: seq<Group>)
  {
    var t := Sources(LabelOf(ts, labels), ns);
    Sorting.Sort(GroupList(t.keys, t.groups), SizeLe)
  }

  /** The ordered groups are the source groups, smallest first. */
  lemma OrderedGroups(ts: map<string, Tx>, labels: seq<string>, ns: seq<string>)
    ensures var t := Sources(LabelOf(ts, labels), ns);
      && Sorting.SortedBy(Ordered(ts, labels, ns), SizeLe)
      && multiset(Ordered(ts, labels, ns)) == multiset(GroupList(t.keys, t.groups))
  {
    var t := Sources(LabelOf(ts, labels), ns);
    Sorting.SortSorted(GroupList(t.keys, t.groups), SizeLe);
    Sorting.SortPermutes(GroupList(t.keys, t.groups), SizeLe);
  }

  /** Every node of `ns` is in some group of `gs`. */
  ghost predicate Covering(ns: seq<string>, gs: seq<Group>)
  {
    forall n :: n in ns ==> exists i :: 0 <= i < |gs| && n in gs[i].members
  }

  /** Every group of `gs` holds only nodes of `ns` carrying its key. */
  predicate KeyedGroups(key: string -> string, ns: seq<string>, gs: seq<Group>)
  {
    forall i, x :: 0 <= i < |gs| && x in gs[i].members ==> x in ns && gs[i].key == key(x)
  }

  /** A node sits in the group listed for its key. */
  lemma PermutedCovers(key: string -> string, t: SourceTable, gs: seq<Group>, n: string)
    requires TableValid(t)
    requires key(n) in t.groups && n in t.groups[key(n)]
    requires multiset(gs) == multiset(GroupList(t.keys, t.groups))
    ensures exists i :: 0 <= i < |gs| && n in gs[i].members
  {
    var gl := GroupList(t.keys, t.groups);
    var j :| 0 <= j < |t.keys| && t.keys[j] == key(n);
    assert gl[j] in multiset(gs);
    var i :| 0 <= i < |gs| && gs[i] == gl[j];
  }

  /** The table's own list of groups is keyed. */
  lemma GroupListKeyed(key: string -> string, ns: seq<string>, t: SourceTable)
    requires TableValid(t) && Homed(key, t.groups, ns)
    ensures KeyedGroups(key, ns, GroupList(t.keys, t.groups))
  {
    var gl := GroupList(t.keys, t.groups);
    forall i, x | 0 <= i < |gl| && x in gl[i].members
      ensures x in ns && gl[i].key == key(x)
    {
      HomedAt(key, t.groups, ns, t.keys[i], x);
    }
  }

  /** Reordering the groups keeps them keyed. */
  lemma KeyedPermuted(key: string -> string, ns: seq<string>, a: seq<Group>, b: seq<Group>)
    requires multiset(a) == multiset(b) && KeyedGroups(key, ns, b)
    ensures KeyedGroups(key, ns, a)
  {
    forall i, x | 0 <= i < |a| && x in a[i].members
      ensures x in ns && a[i].key == key(x)
    {
      assert a[i] in multiset(b);
      var j :| 0 <= j < |b| && b[j] == a[i];
    }
  }

  lemma PermutedCovering(key: string -> string, ns: seq<string>, t: SourceTable, gs: seq<Group>)
    requires TableValid(t)
    requires forall x :: x in ns ==> key(x) in t.groups && x in t.groups[key(x)]
    requires multiset(gs) == multiset(GroupList(t.keys, t.groups))
    ensures Covering(ns, gs)
  {
    forall n | n in ns
      ensures exists i :: 0 <= i < |gs| && n in gs[i].members
    {
      PermutedCovers(key, t, gs, n);
    }
  }

  /** The ordered groups partition the nodes by label. */
  lemma OrderedPartition(ts: map<string, Tx>, labels: seq<string>, ns: seq<string>)
    ensures Covering(ns, Ordered(ts, labels, ns))
    ensures KeyedGroups(LabelOf(ts, labels), ns, Ordered(ts, labels, ns))
  {
    var t := Sources(LabelOf(ts, labels), ns);
    OrderedGroups(ts, labels, ns);
    SourcesMembers(LabelOf(ts, labels), ns);
    PermutedCovering(LabelOf(ts, labels), ns, t, Ordered(ts, labels, ns));
    GroupListKeyed(LabelOf(ts, labels), ns, t);
    KeyedPermuted(LabelOf(ts, labels), ns, Ordered(ts, labels, ns), GroupList(t.keys, t.groups));
  }

  /** Number of neighbours of `n` inside `keep`. */
  function DegreeWithin(g: Graph, keep: set<string>, n: string): nat
    requires n in g.adj
  {
    |set m | m in g.adj[n] && m in keep|
  }

  /** Whether the subgraph on `keep` breaks the budget (more than 1000 nodes, or a node with
      more than 1000 edges inside it). */
  predicate TooLarge(g: Graph, keep: set<string>)
  {
    |keep| > NodeLimit || exists n :: n in keep && n in g.adj && DegreeWithin(g, keep, n) > EdgeLimit
  }

  /** The members of the first `j` groups. */
  function Upto(gs: seq<Group>, j: nat): set<string>
    requires j <= |gs|
  {
    if j == 0 then {} else Upto(gs, j - 1) + gs[j - 1].members
  }

  /** The keys of the first `j` groups. */
  function KeysUpto(gs: seq<Group>, j: nat): set<string>
    requires j <= |gs|
  {
    if j == 0 then {} else KeysUpto(gs, j - 1) + {gs[j - 1].key}
  }

  datatype Retention = Retention(count: nat, kept: set<string>, sources: set<string>)

  /** The level-3 loop from group `j` on, with the nodes `kept` so far: add whole groups
      while the budget holds, stop at the first group that breaks it. */
  function Retain(g: Graph, gs: seq<Group>, j: nat): (r: Retention)
    requires j <= |gs|
    ensures j <= r.count <= |gs|
    ensures r.kept == Upto(gs, r.count) && r.sources == KeysUpto(gs, r.count)
    decreases |gs| - j
  {
    if j == |gs| || TooLarge(g, Upto(gs, j + 1)) then Retention(j, Upto(gs, j), KeysUpto(gs, j))
    else Retain(g, gs, j + 1)
  }

  /** Level 3 is greedy: every prefix of groups it keeps fits the budget, and the next group
      would break it. */
  lemma {:induction false} RetainGreedy(g: Graph, gs: seq<Group>, j: nat)
    requires j <= |gs|
    ensures var r := Retain(g, gs, j);
      && (forall i :: j < i <= r.count ==> !TooLarge(g, Upto(gs, i)))
      && (r.count < |gs| ==> TooLarge(g, Upto(gs, r.count + 1)))
    decreases |gs| - j
  {
    if j < |gs| && !TooLarge(g, Upto(gs, j + 1)) {
      RetainGreedy(g, gs, j + 1);
    }
  }

  /** The nodes of `g` outside `keep`. */
  function Outside(g: Graph, keep: set<string>): (r: set<string>)
    ensures forall n :: n in r <==> n in g.nodes && n !in keep
  {
    set n | n in g.nodes && n !in keep
  }

  // ---------------------------------------------------------------- the reducer

  /** What `__reduce_complex_loci` leaves behind: the approximation level it has set (the
      level before the call when it raised before setting one), the reduced graph or the
      exception it raised, and the sources level 3 retained. */
  datatype Reduction = Reduction(level: nat, graph: Result<Graph>, retained: set<string>)

  /** Level 3: keep whole source groups, smallest first, up to the first that breaks the
      budget; the new graph is `g` restricted to the kept nodes. */
  function Level3(ts: map<string, Tx>, labels: seq<string>, g: Graph): (r: Reduction)
    ensures r.level == 3 && r.graph.Ok?
  {
    var kept := Retain(g, Ordered(ts, labels, g.nodes), 0);
    Reduction(3, Ok(Remove(g, Outside(g, kept.kept))), kept.sources)
  }

  /** Level 3 keeps exactly the nodes of the retained groups, records their sources, and
      leaves a valid subgraph. */
  lemma Level3Keeps(ts: map<string, Tx>, labels: seq<string>, g: Graph)
    requires Valid(g)
    ensures var r := Level3(ts, labels, g);
      var gs := Ordered(ts, labels, g.nodes);
      var k := Retain(g, gs, 0);
      && (forall n :: n in r.graph.value.adj <==> n in g.adj && n in Upto(gs, k.count))
      && r.retained == KeysUpto(gs, k.count)
      && Valid(r.graph.value) && SubgraphOf(r.graph.value, g)
  {
    var kept := Retain(g, Ordered(ts, labels, g.nodes), 0);
    RemoveValid(g, Outside(g, kept.kept));
  }

  /** Levels 2 and 3 of `__reduce_complex_loci`, on the graph level 1 left. */
  function ReduceBeyond1(ts: map<string, Tx>, g1: Graph, labels: seq<string>): (r: Reduction)
    requires Over(g1, ts)
    ensures 2 <= r.level <= 3
  {
    match Level2(ts, g1, g1.nodes, {})
    case Fail(e) => Reduction(2, Fail(e), {})
    case Ok(rm) =>
      var g2 := Remove(g1, rm);
      if g2.nodes == [] then Reduction(2, Fail(ValueError), {})
      else if WithinLimits(g2) then Reduction(2, Ok(g2), {})
      else Level3(ts, labels, g2)
  }

  /** Levels 2 and 3 only delete nodes with their edges. */
  lemma Beyond1RemovesOnly(ts: map<string, Tx>, g1: Graph, labels: seq<string>)
    requires Over(g1, ts)
    ensures var r := ReduceBeyond1(ts, g1, labels);
      r.graph.Ok? ==> Valid(r.graph.value) && SubgraphOf(r.graph.value, g1)
  {
    var r2 := Level2(ts, g1, g1.nodes, {});
    if r2.Ok? {
      var g2 := Remove(g1, r2.value);
      RemoveValid(g1, r2.value);
      if g2.nodes != [] && !WithinLimits(g2) {
        Level3Keeps(ts, labels, g2);
        SubgraphTransitive(Level3(ts, labels, g2).graph.value, g2, g1);
      }
    }
  }

  /** `__reduce_complex_loci`: return the graph untouched when it is within the budget;
      otherwise remove covered copies (level 1), then transcripts whose introns and terminal
      exons lie inside a neighbour (level 2), then keep whole source groups (level 3),
      stopping at the first level that fits. `max()` over the degrees of an empty graph raises
      `ValueError`; `before` is the level set before the call. */
  function Reduce(ts: map<string, Tx>, g: Graph, labels: seq<string>, before: nat): (r: Reduction)
    requires Over(g, ts)
    ensures g.nodes != [] && WithinLimits(g) ==> r == Reduction(0, Ok(g), {})
    ensures g.nodes == [] ==> r == Reduction(before, Fail(ValueError), {})
    ensures g.nodes != [] ==> r.level <= 3 && (r.level == 0 ==> r.graph == Ok(g))
  {
    if g.nodes == [] then Reduction(before, Fail(ValueError), {})
    else if WithinLimits(g) then Reduction(0, Ok(g), {})
    else
      var g1 := Remove(g, Level1(ts, g, g.nodes, {}));
      if g1.nodes == [] then Reduction(1, Fail(ValueError), {})
      else if WithinLimits(g1) then Reduction(1, Ok(g1), {})
      else RemoveValid(g, Level1(ts, g, g.nodes, {})); ReduceBeyond1(ts, g1, labels)
  }

  /** Every level only deletes nodes with their edges: the result is a valid subgraph. */
  lemma ReduceRemovesOnly(ts: map<string, Tx>, g: Graph, labels: seq<string>, before: nat)
    requires Over(g, ts)
    ensures var r := Reduce(ts, g, labels, before);
      r.graph.Ok? ==> Valid(r.graph.value) && SubgraphOf(r.graph.value, g)
  {
    if g.nodes != [] && !WithinLimits(g) {
      var rm1 := Level1(ts, g, g.nodes, {});
      var g1 := Remove(g, rm1);
      RemoveValid(g, rm1);
      if g1.nodes != [] && !WithinLimits(g1) {
        var r := ReduceBeyond1(ts, g1, labels);
        Beyond1RemovesOnly(ts, g1, labels);
        if r.graph.Ok? {
          SubgraphTransitive(r.graph.value, g1, g);
        }
      }
    }
  }

  /** No level lists a node or a neighbour twice when the input graph does not. */
  lemma ReduceSimple(ts: map<string, Tx>, g: Graph, labels: seq<string>, before: nat)
    requires Over(g, ts) && Simple(g)
    ensures var r := Reduce(ts, g, labels, before);
      r.graph.Ok? ==> Simple(r.graph.value)
  {
    if g.nodes != [] && !WithinLimits(g) {
      var rm1 := Level1(ts, g, g.nodes, {});
      var g1 := Remove(g, rm1);
      RemoveValid(g, rm1);
      RemoveSimple(g, rm1);
      if g1.nodes != [] && !WithinLimits(g1) {
        var r2 := Level2(ts, g1, g1.nodes, {});
        if r2.Ok? {
          var g2 := Remove(g1, r2.value);
          RemoveSimple(g1, r2.value);
          if g2.nodes != [] && !WithinLimits(g2) {
            var kept := Retain(g2, Ordered(ts, labels, g2.nodes), 0);
            RemoveSimple(g2, Outside(g2, kept.kept));
          }
        }
      }
    }
  }

  /** At level 1 the corrected pass never empties the graph, and every transcript it drops
      has a neighbour with the same introns whose span contains it. */
  lemma ReduceLevel1(ts: map<string, Tx>, g: Graph, labels: seq<string>, before: nat)
    requires Over(g, ts)
    ensures var r := Reduce(ts, g, labels, before);
      g.nodes != [] && r.level == 1 ==>
        && r.graph.Ok?
        && forall x :: x in g.adj && x !in r.graph.value.adj ==>
             exists y :: y in g.adj && x in g.adj[y] && Covers(ts[y], ts[x])
  {
    if g.nodes != [] && !WithinLimits(g) {
      var rm1 := Level1(ts, g, g.nodes, {});
      var g1 := Remove(g, rm1);
      Level1KeepsOne(ts, g, g.nodes, {}, g.nodes[0]);
      var x :| x in g.adj && x !in rm1;
      assert x in g1.nodes;
      if WithinLimits(g1) {
        assert Reduce(ts, g, labels, before).graph == Ok(g1);
      }
    }
  }
}
