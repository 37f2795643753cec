/** The finalized transcript as the locus containers (superlocus, locus) see it, and the
    insertion-ordered dictionary `tid -> transcript` those containers keep. */
module LociTranscript {
  import opened Intervals
  import opened Optional
  import Sorting

  datatype Strand = Plus | Minus

  /** The fields of a finalized transcript that the containers read or write.
      `exons` are sorted; `cdsIntrons` are the combined CDS introns; the UTR lengths are
      the combined, 5' and 3' UTR lengths; `alias` is the `Alias` attribute. */
  datatype Tx = Tx(
    id: string, chrom: string, source: string,
    start: int, end: int, strand: Option<Strand>,
    exons: seq<Interval>, introns: set<Interval>, cdsIntrons: set<Interval>,
    combinedCds: seq<Interval>, utrLength: int, fiveUtr: int, threeUtr: int,
    verifiedIntrons: set<Interval>, score: real, primary: bool, alias: Option<string>)

  predicate Monoexonic(t: Tx)
  {
    |t.exons| == 1
  }

  /** The order `sorted` puts transcripts in: by start, then by end. */
  predicate TxLe(a: Tx, b: Tx)
  {
    a.start < b.start || (a.start == b.start && a.end <= b.end)
  }

  lemma TxLeIsTotalPreorder()
    ensures Sorting.TotalPreorder(TxLe)
  {
  }

  predicate Distinct(s: seq<string>)
  {
    forall i, j :: 0 <= i < j < |s| ==> s[i] != s[j]
  }

  lemma PrefixMembers<T>(s: seq<T>)
    requires s != []
    ensures forall x :: x in s[..|s| - 1] ==> x in s
    ensures s == s[..|s| - 1] + [s[|s| - 1]]
  {
  }

  lemma DistinctSnoc(s: seq<string>, x: string)
    requires Distinct(s) && x !in s
    ensures Distinct(s + [x])
  {
  }

  /** A Python dict of transcripts: `order` lists the keys once each, in insertion order,
      and every entry is stored under its own id. */
  predicate Keyed(order: seq<string>, ts: map<string, Tx>)
  {
    && Distinct(order)
    && (forall k :: k in ts ==> k in order)
    && (forall k :: k in order ==> k in ts)
    && (forall k :: k in ts ==> ts[k].id == k)
  }

  /** The elements of `s` not in `rm`, in their order. */
  function Without(s: seq<string>, rm: set<string>): (r: seq<string>)
    ensures forall x :: x in r <==> x in s && x !in rm
    ensures |r| <= |s|
  {
    if s == [] then []
    else if s[|s| - 1] in rm then Without(s[..|s| - 1], rm)
    else Without(s[..|s| - 1], rm) + [s[|s| - 1]]
  }

  lemma {:induction false} WithoutDistinct(s: seq<string>, rm: set<string>)
    requires Distinct(s)
    ensures Distinct(Without(s, rm))
  {
    if s != [] {
      WithoutDistinct(s[..|s| - 1], rm);
    }
  }

  lemma {:induction false} WithoutNothing(s: seq<string>)
    ensures Without(s, {}) == s
  {
    if s != [] {
      WithoutNothing(s[..|s| - 1]);
    }
  }

  /** Deleting in two rounds is deleting the union. */
  lemma {:induction false} WithoutWithout(s: seq<string>, a: set<string>, b: set<string>)
    ensures Without(Without(s, a), b) == Without(s, a + b)
  {
    if s != [] {
      WithoutWithout(s[..|s| - 1], a, b);
    }
  }

  /** A list without repeats has as many elements as its set of members. */
  lemma {:induction false} DistinctCard(s: seq<string>)
    requires Distinct(s)
    ensures |set x | x in s| == |s|
  {
    if s != [] {
      var init := s[..|s| - 1];
      DistinctCard(init);
      assert (set x | x in s) == (set x | x in init) + {s[|s| - 1]};
    }
  }

  /** A subset at least as large as its superset is the superset. */
  lemma SubsetAsLarge(a: set<string>, b: set<string>)
    requires a <= b && |b| <= |a|
    ensures a == b
  {
    assert b == a + (b - a);
    assert |b - a| == 0;
  }

  /** Deleting keys from a dict keeps it a dict. */
  lemma DeleteKeyed(order: seq<string>, ts: map<string, Tx>, rm: set<string>)
    requires Keyed(order, ts)
    ensures Keyed(Without(order, rm), ts - rm)
  {
    WithoutDistinct(order, rm);
  }
}
