# Mikado loci core, modelled in Dafny

This project models the part of Mikado that turns transcript annotations into loci. It states and proves properties of that model. Coordinates are unbounded integers and intervals are closed. Scores are reals. Collaborators outside the core (class-code comparison, scoring, clique and community finders, databases) are parameters of the model.

| file | module | what it models |
|---|---|---|
| optional.dfy | Optional | `Option` and `Result` values |
| intervals.dfy | Intervals | closed intervals, `overlap`, lengths, sorting of intervals |
| sorting.dfy | Sorting | a stable insertion sort by a total preorder, the stand-in for `sorted` |
| text.dfy | Text | decimal rendering of numbers used in identifiers |
| legacy_transcript.dfy | LegacyTranscript | the early transcript class of `loci_objects/transcript.py`: `addExon`, `finalize`, `load_cds`, `max_internal_cds`, `internal_cds_lengths`, ordering and equality |
| finalizing.dfy | Finalizing | `finalize` of `Mikado/loci/transcript_methods/finalizing.py` with its basic checks, the cDNA/UTR check and its fallback stages, introns, completeness, boundaries, internal ORFs and phases |
| cds_split.dfy | CdsSplit | the BLAST check of `split_by_cds.py`: hit tables, `check_common_hits`, grouping of boundaries under the three leniency modes |
| cds_split_transcripts.dfy | CdsSplitTranscripts | `__split_complex_exon`, `__create_splitted_exons`, `__create_splitted_transcripts`, `split_by_cds` |
| hit_rescoring.dfy | HitRescoring | `__recalculate_hit` on the interval and count level |
| loci_transcript.dfy | LociTranscript | the finalized transcript as the loci containers see it, and their insertion-ordered `tid -> transcript` dict |
| superlocus_graph.dfy | SuperlocusGraph | `is_intersecting`, the overlap graph and the three levels of `__reduce_complex_loci` |
| superlocus.dfy | SuperlocusDecomposition | the `Superlocus` class: prefilter, `define_subloci` / `define_monosubloci` / `define_loci` with their flags, holder grouping, alternative-splicing candidates, `split_strands`, `id` |
| locus.dfy | LocusAssembly | the `Locus` class: admission of isoforms, scoring with ORF copies, `finalize_alternative_splicing`, padding, renaming |
| prepare.dfy | Preparation | `store_transcripts`: length filter, keying by span, sorted output, de-duplication by exon chain |

Code that updates objects in place is modelled with classes, for example `LegacyTranscript.Transcript`, `Finalizing.Transcript`, `SuperlocusDecomposition.Superlocus` and `LocusAssembly.Locus`. Their loops live in methods, and each method is proved against a specification function. The properties the source promises are lemmas about those functions.

## Model

| member | source | states |
|---|---|---|
| Intervals.Overlap | loci_objects/transcript.py:412-416 | the overlap measure never exceeds either interval's length minus one, and a non-negative overlap means the intervals meet |
| Intervals.OverlapSymmetric | loci_objects/transcript.py:412-416 | the overlap of two intervals does not depend on their order |
| Intervals.TotalLengthAppend | loci_objects/transcript.py:425-438 | the summed length of two lists put together is the sum of their lengths |
| Intervals.TotalLengthSorted | loci_objects/transcript.py:425-438 | sorting a list of intervals keeps its summed length |
| Intervals.SortIntervalsPermutes | loci_objects/transcript.py:217-219 | sorting intervals keeps them, as a multiset |
| Intervals.SortIntervalsSorted | loci_objects/transcript.py:217-219 | sorted intervals come in order of start, then end |
| Intervals.JunctionsMembers | loci_objects/transcript.py:231-236 | the junctions of consecutive exons are exactly the gaps between them |
| Intervals.IntronCount | loci_objects/transcript.py:231-236 | sorted, non-overlapping exons have one intron fewer than exons |
| Sorting.SortPermutes | Mikado/preparation/prepare.py:74-81 | sorting keeps the elements, as a multiset |
| Sorting.SortSorted | Mikado/preparation/prepare.py:74-81 | under a total preorder the sorted list is ordered |
| LegacyTranscript.Transcript.constructor | loci_objects/transcript.py:9-29 | a new transcript keeps the line's chromosome, id, span and strand and starts with empty exon, CDS and UTR lists, no junctions or splice sites, not monoexonic, not finalized, ORF index -1 |
| LegacyTranscript.StoreOfUtrNames | loci_objects/transcript.py:177-180 | a feature whose name contains "utr" or "UTR" (five_prime_UTR, 3utr) is filed as UTR |
| LegacyTranscript.StoreOfOtherNames | loci_objects/transcript.py:177-184 | "CDS" and "exon" go to their own lists and any other feature name is refused |
| LegacyTranscript.Normalized | loci_objects/transcript.py:186 | the stored interval has start <= end and exactly the two coordinates of the line |
| LegacyTranscript.AddExon | loci_objects/transcript.py:166-187 | a finalized transcript, a parent mismatch and an unknown feature are the three errors, in that order of precedence; otherwise exactly one of exons/CDS/UTR grows by the ordered interval and the other two are unchanged |
| LegacyTranscript.IsIntersectingMeans | loci_objects/transcript.py:406-416 | ORF intersection is symmetric and irreflexive, and two intersecting intervals share at least two bases |
| LegacyTranscript.LongestUpToIsLongest | loci_objects/transcript.py:488-508 | the intended index is an ORF of greatest coding length, the first such, and -1 only when no ORF has a positive coding length |
| LegacyTranscript.FindLongest | loci_objects/transcript.py:498-508 | the ORF loop with the running maximum kept up to date returns the index of the longest ORF |
| LegacyTranscript.LastPositiveUpTo | loci_objects/transcript.py:498-507 | the loop as written returns an index whose ORF has a positive coding length (the last one), or -1 |
| LegacyTranscript.LastPositivePicksShorter | loci_objects/transcript.py:498-507 | with ORFs of 300 and 90 coding bases the loop as written selects the 90-base one while the longest is the other |
| LegacyTranscript.MaxInternalCds | loci_objects/transcript.py:488-520 | without CDS the index becomes 0; an unset index becomes the longest ORF's; a set index is kept; the property fails exactly when the index selects no ORF, with the error that matches the path |
| LegacyTranscript.InternalCdsLengthsSorted | loci_objects/transcript.py:540-546 | the lengths come out in descending order and are, as a multiset, the ORFs' coding lengths |
| LegacyTranscript.OrfLengthsAt | loci_objects/transcript.py:543-544 | the k-th collected length is the coding length of the k-th ORF |
| LegacyTranscript.SegLeIsTotalPreorder | loci_objects/transcript.py:223 | ordering segments by start, end, then kind is total and transitive |
| LegacyTranscript.SegmentsOfMeans | loci_objects/transcript.py:220-223 | the segment list is sorted, is a permutation of the tagged exons, CDS and UTR pieces, and holds a segment exactly when its interval is in the list of its kind |
| LegacyTranscript.FinalizeErrorMeans | loci_objects/transcript.py:197-216 | finalizing raises no error exactly when there are exons, a multi-exonic transcript has a strand, UTRs come with CDS, CDS plus UTR lengths equal the cDNA length (or both are zero) and the sorted exons reach the transcript's start and end |
| LegacyTranscript.JunctionLoop | loci_objects/transcript.py:231-236 | the loop succeeds exactly when consecutive exons do not overlap; it then records every intron and every splice site, and otherwise it stops at the first overlap |
| LegacyTranscript.FinalizeChecks | loci_objects/transcript.py:197-216 | the error raised is the first failing check, and the exon list is left sorted exactly when the checks reach the sort |
| LegacyTranscript.FinalizeFresh | loci_objects/transcript.py:197-244 | on an unfinalized transcript, finalizing succeeds only when no check fails, and then the transcript is finalized with sorted lists, introns and splice sites derived |
| LegacyTranscript.DeriveFinal | loci_objects/transcript.py:217-244 | after the checks: monoexonic iff one exon, junctions and splices are the introns of the sorted exons, and an overlap leaves the transcript unfinalized |
| LegacyTranscript.SortAndRecord | loci_objects/transcript.py:217-224 | CDS and UTR lists end up sorted and the transcript holds exactly one ORF, its sorted segments |
| LegacyTranscript.Finalize | loci_objects/transcript.py:189-244 | finalizing twice changes nothing; success is being finalized; a successful first call leaves sorted, non-overlapping exons spanning start to end, sorted CDS and UTR, introns and splice sites, and one ORF |
| LegacyTranscript.Equals | loci_objects/transcript.py:119-129 | both transcripts are finalized first (two finalized ones are left unchanged); equal exactly when strand, chromosome, span, exons and id agree |
| LegacyTranscript.LessThan | loci_objects/transcript.py:143-152 | transcripts on different chromosomes compare by name and are left untouched; otherwise both are finalized first (the error is passed on), and the answer is `Lt` on the finalized fields; already finalized transcripts are left unchanged |
| LegacyTranscript.LessOrEqual | loci_objects/transcript.py:157-158 | both transcripts are finalized first (the error is passed on); the answer is `Le` on the finalized fields |
| LegacyTranscript.LtIsStrictOrder | loci_objects/transcript.py:143-152 | `<` on the compared fields is irreflexive, asymmetric and transitive |
| LegacyTranscript.LeIsPartialOrder | loci_objects/transcript.py:157-158 | `<=` on the compared fields is reflexive, antisymmetric and transitive |
| LegacyTranscript.GtAsWrittenReflexive | loci_objects/transcript.py:154-155 | as written, every transcript is `>` itself |
| LegacyTranscript.GtIsStrictOrder | loci_objects/transcript.py:154-155 | the intended `>` (the converse of `<`) is a strict order that never holds together with `<` |
| LegacyTranscript.KindLengthSorted | loci_objects/transcript.py:331 | sorting an ORF's segments keeps its CDS and UTR lengths |
| LegacyTranscript.PlusExonLengths | loci_objects/transcript.py:294-311 | one plus-strand exon yields CDS pieces as long as its share of the ORF, and CDS plus UTR pieces cover the exon exactly |
| LegacyTranscript.PlusCdsAfter | loci_objects/transcript.py:294-311 | exons past the end of the ORF receive no CDS |
| LegacyTranscript.PlusCdsOpen | loci_objects/transcript.py:294-311 | when the ORF starts before the remaining exons, they receive as many CDS bases as the ORF has left |
| LegacyTranscript.PlusPiecesCds | loci_objects/transcript.py:294-311 | an ORF inside the remaining exons receives exactly its length in CDS bases |
| LegacyTranscript.PlusPiecesCover | loci_objects/transcript.py:294-311 | over all exons, CDS and UTR pieces together have the cDNA's length |
| LegacyTranscript.PlusCdsInsideExons | loci_objects/transcript.py:294-311 | every plus-strand CDS piece lies inside one of the exons |
| LegacyTranscript.PlusAsWrittenDropsBase | loci_objects/transcript.py:307 | as written, an ORF whose first exon holds a single coding base loses that base: the CDS comes out one base shorter than the ORF |
| LegacyTranscript.PlusExon | loci_objects/transcript.py:295-311 | the loop body for one exon produces that exon's pieces |
| LegacyTranscript.PlusLoop | loci_objects/transcript.py:293-311 | the plus-strand loop over the sorted exons produces the specified pieces, keeping single-base CDS pieces |
| LegacyTranscript.MinusExon | loci_objects/transcript.py:315-328 | the minus-strand body for one exon fails exactly when its assertion fails, and otherwise produces that exon's pieces |
| LegacyTranscript.MinusLoop | loci_objects/transcript.py:313-329 | the minus-strand loop over the exons in descending order produces the specified pieces, or reports the assertion failure |
| LegacyTranscript.Reverse | loci_objects/transcript.py:314 | the exons in descending order are the sorted exons reversed |
| LegacyTranscript.PlusOrfCdsInsideExons | loci_objects/transcript.py:293-331 | every CDS segment of a plus-strand ORF lies inside an exon |
| LegacyTranscript.PlusSingleOrfLengths | loci_objects/transcript.py:293-343 | for a plus-strand ORF inside the cDNA, the CDS has the ORF's length and CDS plus UTR have the cDNA's length |
| LegacyTranscript.ScanStopsAtError | loci_objects/transcript.py:278-281 | once an ORF raises, the later ORFs change nothing |
| LegacyTranscript.ScanAppends | loci_objects/transcript.py:278-331 | the ORF loop only appends ORFs, and a strand once set is kept |
| LegacyTranscript.MinusOrfSkipped | loci_objects/transcript.py:285-287 | a minus-strand ORF on a multi-exonic transcript is skipped |
| LegacyTranscript.ScanOrfs | loci_objects/transcript.py:278-331 | the loop over the ORFs, longest first, leaves the strand, ORF list and error the scan specification gives |
| LegacyTranscript.Candidates | loci_objects/transcript.py:350-353 | the candidate set holds an interval exactly when it is a CDS segment of some ORF |
| LegacyTranscript.Ascending | loci_objects/transcript.py:372 | the UTR positions in the range, listed strictly increasing |
| LegacyTranscript.GroupRuns | loci_objects/transcript.py:372-383 | grouping ascending positions gives well-formed, separated runs that cover exactly those positions |
| LegacyTranscript.UtrRuns | loci_objects/transcript.py:366-383 | the UTR runs cover exactly the exon positions outside the CDS spans, as maximal separated runs |
| LegacyTranscript.MergedLengthsAgree | loci_objects/transcript.py:385 | when the CDS spans are non-overlapping and inside the exons, cDNA length equals CDS length plus UTR length, so the assertion holds |
| LegacyTranscript.MergeOrfs | loci_objects/transcript.py:346-385 | several ORFs: the CDS becomes the sorted merged spans, no span is an error, otherwise the UTR is the exon positions outside them and the assertion decides success |
| LegacyTranscript.SortRunsLongestFirst | loci_objects/transcript.py:278 | the ORFs are visited longest first, each exactly once |
| LegacyTranscript.SettleOrfs | loci_objects/transcript.py:333-391 | one ORF gives its own CDS and UTR lists; several give merged spans and the remaining UTR; none refinalizes; success is being finalized |
| LegacyTranscript.LoadOrfs | loci_objects/transcript.py:270-391 | loading ORFs yields the strand, ORFs, CDS and UTR that the scan over the ORFs (longest first) specifies, with each error case |
| LegacyTranscript.LoadCds | loci_objects/transcript.py:247-391 | success is being finalized; a transcript absent from the dictionary keeps its strand, and when already finalized is left unchanged |
| Finalizing.SortSegmentsSorted | Mikado/loci/transcript_methods/finalizing.py:422 | the rebuilt segments come out ordered by interval, then kind |
| Finalizing.FirstOutOfBounds | Mikado/loci/transcript_methods/finalizing.py:33-45 | the index where the exon scan stops: every earlier exon lies inside the transcript and the exon there (if any) does not |
| Finalizing.BasicChecks | Mikado/loci/transcript_methods/finalizing.py:13-64 | the basic checks pass exactly when there are exons, all lie inside the transcript, a multi-exonic transcript has a strand and UTRs come with a CDS; every failure is an InvalidTranscript, no exons being the first |
| Finalizing.InBoundsPrefix | Mikado/loci/transcript_methods/finalizing.py:31-45 | the loop keeps exactly the exons before the first out-of-bounds one and flags whether one was found |
| Finalizing.BasicFinalChecks | Mikado/loci/transcript_methods/finalizing.py:13-64 | the verdict is that of the checks, and the exon list becomes the sorted in-bounds prefix (all exons, sorted, when the checks pass) |
| Finalizing.ExonUtrOutsideCds | Mikado/loci/transcript_methods/finalizing.py:85-120 | the UTR derived from one exon never overlaps the CDS |
| Finalizing.UtrScanInsideExons | Mikado/loci/transcript_methods/finalizing.py:85-120 | every recomputed UTR segment lies inside an exon |
| Finalizing.ScanStaysFailed | Mikado/loci/transcript_methods/finalizing.py:115-120 | once an internal UTR has raised, the later exons change nothing |
| Finalizing.CdnaCheckWith | Mikado/loci/transcript_methods/finalizing.py:75-132 | a check that passes after recomputing leaves CDS and UTR lengths adding up to the cDNA; failures are InvalidCDS or a failed assertion; a non-coding transcript always passes |
| Finalizing.CdnaVsUtrAsWritten | Mikado/loci/transcript_methods/finalizing.py:75 | as written, a cDNA shorter than UTR plus CDS is never examined and passes |
| Finalizing.CdnaVsUtrAsWrittenAcceptsSurplus | Mikado/loci/transcript_methods/finalizing.py:75 | a 100-base exon with 100 CDS and 10 UTR bases passes the check as written although the lengths do not add up |
| Finalizing.CdnaVsUtr | Mikado/loci/transcript_methods/finalizing.py:67-132 | the corrected check: a pass guarantees cDNA = CDS + UTR lengths (or no coding data), failures are InvalidCDS or a failed assertion |
| Finalizing.RecomputeUtr | Mikado/loci/transcript_methods/finalizing.py:82-120 | the recomputation loop over the exons yields the UTR the scan specification gives, stopping at an internal UTR |
| Finalizing.CheckCdnaVsUtr | Mikado/loci/transcript_methods/finalizing.py:67-132 | the transcript's CDS, UTR and outcome become those of the corrected check |
| Finalizing.Completeness | Mikado/loci/transcript_methods/finalizing.py:215-230 | UTR without CDS is an error; flags are only ever set; on the plus strand the start (stop) codon is present exactly when it was or a UTR lies before (after) the CDS; unstranded changes nothing |
| Finalizing.CompletenessStrandSymmetry | Mikado/loci/transcript_methods/finalizing.py:220-230 | on the minus strand the roles of the upstream and downstream UTR swap |
| Finalizing.CheckCompleteness | Mikado/loci/transcript_methods/finalizing.py:215-230 | the transcript's codon flags become those of the completeness rule |
| Finalizing.VerifyBoundaries | Mikado/loci/transcript_methods/finalizing.py:233-258 | with no exons an InvalidTranscript is raised and nothing changes; otherwise the span is shrunk to the first exon's start and the last exon's end |
| Finalizing.OverlapIndicesExact | Mikado/loci/transcript_methods/finalizing.py:289 | the coding-exon search returns, in order, exactly the indices of exons that overlap the coding range |
| Finalizing.SidesFilter | Mikado/loci/transcript_methods/finalizing.py:372-373 | five-prime UTR: exactly the UTR ending before the ORF; three-prime UTR: exactly the UTR starting after it |
| Finalizing.Phase | Mikado/loci/transcript_methods/finalizing.py:320-332 | the phase is in 0..2 and completes the coding length so far to a multiple of three |
| Finalizing.AssignPhasesKeepsSegments | Mikado/loci/transcript_methods/finalizing.py:324-349 | phase assignment keeps every segment's kind and interval and gives phases to CDS segments only |
| Finalizing.PhasesCompleteCodons | Mikado/loci/transcript_methods/finalizing.py:324-349 | each CDS segment's phase completes to a codon boundary the coding length before it (plus the offset) |
| Finalizing.FirstPhaseRestoresGff | Mikado/loci/transcript_methods/finalizing.py:304-315 | starting from the complement of a GFF phase, the first CDS segment gets that phase back |
| Finalizing.FirstKeyIsFirst | Mikado/loci/transcript_methods/finalizing.py:306 | the first phase key comes before every other key in strand order |
| Finalizing.TruncationCheck | Mikado/loci/transcript_methods/finalizing.py:355-392 | an ORF whose coding length is not a multiple of three fails only as a failed assertion or a 5' or 3' truncation |
| Finalizing.KindIvsMembers | Mikado/loci/transcript_methods/finalizing.py:282-283 | the coding (or UTR) intervals of an ORF are exactly those of its segments of that kind |
| Finalizing.OrfShape | Mikado/loci/transcript_methods/finalizing.py:277-301 | an ORF passes the shape checks only when it has coding segments, starts at the transcript's start, ends at its end, and overlaps as many consecutive exons as it has coding segments |
| Finalizing.OrfPhasing | Mikado/loci/transcript_methods/finalizing.py:315-395 | a phased ORF keeps its length; a failure is a failed assertion or a truncation |
| Finalizing.OrfPhasingKeepsSegments | Mikado/loci/transcript_methods/finalizing.py:324-349 | phasing keeps each segment's kind and interval, in strand order |
| Finalizing.OrfCheck | Mikado/loci/transcript_methods/finalizing.py:261-399 | the corrected check of one ORF: a pass keeps its length, means the shape checks passed, and with GFF phases on the first ORF every coding segment had a phase |
| Finalizing.AllKeyedMeans | Mikado/loci/transcript_methods/finalizing.py:321-322 | "every coding segment has a phase" as membership of each segment in the phase map |
| Finalizing.OrfCheckAsWritten | Mikado/loci/transcript_methods/finalizing.py:289-298 | as written, any ORF with coding segments on a transcript with exons raises a type error (an exon coordinate is compared with a segment's coordinate pair) |
| Finalizing.OrfCheckAsWrittenRejectsCodingExon | Mikado/loci/transcript_methods/finalizing.py:289-298 | a single coding exon 1-300 raises that type error, which neither handler catches, while the corrected check passes it with phase 0 |
| Finalizing.PhaseLoop | Mikado/loci/transcript_methods/finalizing.py:324-349 | the phase loop yields the phased ORF the specification gives and the total coding length plus offset |
| Finalizing.PhaseOrf | Mikado/loci/transcript_methods/finalizing.py:315-395 | the loop and the truncation rules together give the phasing verdict |
| Finalizing.CheckOrf | Mikado/loci/transcript_methods/finalizing.py:261-399 | the method returns the verdict of the corrected ORF check |
| Finalizing.BuildSegmentsSorted | Mikado/loci/transcript_methods/finalizing.py:411-422 | the rebuilt segments are the exons, CDS and UTR, each tagged with its kind, and sorted |
| Finalizing.HasCdsExists | Mikado/loci/transcript_methods/finalizing.py:424 | "any segment is CDS" as the existence of a CDS index |
| Finalizing.OrfsStateAfter | Mikado/loci/transcript_methods/finalizing.py:431-440 | the ORF loop after k verdicts: all checked, or stopped at a failure before k |
| Finalizing.OrfFailureStops | Mikado/loci/transcript_methods/finalizing.py:431-440 | the first failing verdict decides the final state: stripped for InvalidCDS or InvalidTranscript, raised otherwise |
| Finalizing.CheckedOrfPassed | Mikado/loci/transcript_methods/finalizing.py:431-440 | when the loop checked every ORF, each checked ORF is the passing verdict's ORF |
| Finalizing.RaisedIsAssertion | Mikado/loci/transcript_methods/finalizing.py:431-440 | an uncaught failure of the ORF loop can only be a failed assertion |
| Finalizing.PassedOrfPhased | Mikado/loci/transcript_methods/finalizing.py:324-349 | an ORF that passes its check carries a phase on each CDS segment |
| Finalizing.CheckedOrfsPhased | Mikado/loci/transcript_methods/finalizing.py:431-440 | after a loop that checked every ORF, every ORF is phased |
| Finalizing.StripCds | Mikado/loci/transcript_methods/finalizing.py:439 | the call to `strip_cds` on a failing ORF, with the effect assumed for it (see Left out): CDS, UTR, segments, ORFs and the selection are removed |
| Finalizing.CheckAllOrfs | Mikado/loci/transcript_methods/finalizing.py:431-440 | the loop reaches the state the verdicts specify; on a raise the ORFs already phased are followed by the unchecked rest |
| Finalizing.OrfsToCheck | Mikado/loci/transcript_methods/finalizing.py:411-429 | existing segments and ORFs are kept; otherwise at most one rebuilt ORF is checked, and only if it holds CDS |
| Finalizing.RebuildOrfs | Mikado/loci/transcript_methods/finalizing.py:411-429 | the ORFs to check are the specified ones; existing segments and ORFs are kept with their selection, and a dropped selection leaves the ORF list as it was |
| Finalizing.CheckPhaseCorrectness | Mikado/loci/transcript_methods/finalizing.py:402-445 | the outcome follows the ORF loop's state: all checked (ORFs phased, first selected), stripped (coding data removed, pass), or raised (the error, the phased prefix kept) |
| Finalizing.SelectedCds | Mikado/loci/transcript_methods/finalizing.py:160-170 | the `selected_cds` the intron pass reads, as assumed (see Left out): sorted, and empty without a valid selection |
| Finalizing.SelectedWithinIntrons | Mikado/loci/transcript_methods/finalizing.py:167-174 | when every selected CDS pair passes, the selected CDS introns are introns of the transcript |
| Finalizing.CombinedMembers | Mikado/loci/transcript_methods/finalizing.py:182-187 | a junction between combined CDS pairs is kept exactly when it is an intron |
| Finalizing.CalculatedIntrons | Mikado/loci/transcript_methods/finalizing.py:135-212 | success requires non-overlapping exons and then gives their introns and splice sites; with enough coding data the selected CDS introns are the CDS junctions and both CDS intron sets are non-empty subsets of the introns |
| Finalizing.ExonJunctions | Mikado/loci/transcript_methods/finalizing.py:146-158 | the exon loop succeeds exactly when exons do not overlap, giving introns and splice sites |
| Finalizing.SelectedIntrons | Mikado/loci/transcript_methods/finalizing.py:167-178 | the selected-pair loop succeeds exactly when every pair passes its assertions, giving the selected CDS junctions |
| Finalizing.CombinedIntrons | Mikado/loci/transcript_methods/finalizing.py:180-189 | the combined-pair loop keeps exactly the combined CDS junctions that are introns |
| Finalizing.CalculateIntrons | Mikado/loci/transcript_methods/finalizing.py:135-212 | the transcript's intron sets and outcome become those of the specification |
| Finalizing.BuildSegmentsHasCds | Mikado/loci/transcript_methods/finalizing.py:424-425 | a transcript with CDS rebuilds segments that hold a CDS segment |
| Finalizing.OrfsToCheckNonEmpty | Mikado/loci/transcript_methods/finalizing.py:424-429 | a coding transcript always has at least one ORF to check |
| Finalizing.CdsSegments | Mikado/loci/transcript_methods/finalizing.py:515-518 | the selected ORF's CDS segments, exactly those of the ORF |
| Finalizing.Unfinalize | Mikado/loci/transcript_methods/finalizing.py:502-503 | the call to `unfinalize` after a failed check, with the effect assumed for it (see Left out): the transcript is not finalized and holds no introns, splice sites or CDS introns |
| Finalizing.SortAndCheck | Mikado/loci/transcript_methods/finalizing.py:462-464 | the exons are sorted and the basic checks decide |
| Finalizing.StripAndRecheck | Mikado/loci/transcript_methods/finalizing.py:478-486 | the last fallback strips all coding data and reruns the basic checks on the exons alone |
| Finalizing.ReconcileOutcome | Mikado/loci/transcript_methods/finalizing.py:467-486 | after the reconciliation a pass means the lengths add up, failures are InvalidTranscript or a failed assertion, and the stripped path has no coding data |
| Finalizing.ReconcileMeans | Mikado/loci/transcript_methods/finalizing.py:467-486 | the UTR is recomputed or the CDS stripped only after the check failed on a coding transcript; recomputing keeps the sorted CDS; after stripping, the basic checks alone decide |
| Finalizing.RecomputeKeepsCds | Mikado/loci/transcript_methods/finalizing.py:474-476 | the retry without UTR keeps the CDS sorted by the failed check |
| Finalizing.ReconcileCoding | Mikado/loci/transcript_methods/finalizing.py:467-486 | the transcript takes the reconciliation's CDS, UTR and outcome |
| Finalizing.SortCoding | Mikado/loci/transcript_methods/finalizing.py:488-492 | CDS and UTR are sorted by (start, end) and keep their total lengths |
| Finalizing.PrepareCoding | Mikado/loci/transcript_methods/finalizing.py:462-492 | sorting, the basic checks, the reconciliation and the sort leave sorted exons and CDS/UTR lengths that add up, or an InvalidTranscript or assertion failure |
| Finalizing.DeriveStructure | Mikado/loci/transcript_methods/finalizing.py:494-500 | a pass means the span is shrunk to the exons, the codon flags follow the completeness rule, exons do not overlap and introns are derived, coding data is kept or wholly stripped, every ORF is phased and, with CDS, the first ORF is selected |
| Finalizing.DeriveIntrons | Mikado/loci/transcript_methods/finalizing.py:500 | a passing intron calculation leaves the introns and splice sites of the exons |
| Finalizing.CheckCodingStructure | Mikado/loci/transcript_methods/finalizing.py:497-499 | a passing phase check leaves every ORF phased and, with CDS, the first one selected |
| Finalizing.Conclude | Mikado/loci/transcript_methods/finalizing.py:506-529 | the transcript becomes final, an mRNA exactly when it has CDS, with the selected ORF's CDS segments recorded |
| Finalizing.Finalize | Mikado/loci/transcript_methods/finalizing.py:448-532 | an already final transcript is left unchanged; otherwise the result is finalized with the final shape, unfinalized with all intron sets cleared, or aborted and not final |
| Finalizing.FinalizeFresh | Mikado/loci/transcript_methods/finalizing.py:460-532 | the same on a transcript that is not final yet |
| Finalizing.DeriveAndConclude | Mikado/loci/transcript_methods/finalizing.py:494-529 | the guarded derivation followed, when it passes, by the closing steps |
| CdsSplit.PutValid | mikado_lib/loci_objects/transcript_methods/split_by_cds.py:72-77 | writing a key into the ordered dictionary keeps keys and values in step and appends the key only when it is new |
| CdsSplit.OrfLeIsTotalPreorder | mikado_lib/loci_objects/transcript_methods/split_by_cds.py:574-575 | ordering ORFs by (thick start, thick end) is total and transitive |
| CdsSplit.CollectedOrdered | mikado_lib/loci_objects/transcript_methods/split_by_cds.py:573-576 | boundaries read from ORFs in order come out strictly increasing, the last being the last ORF's |
| CdsSplit.CollectedCovers | mikado_lib/loci_objects/transcript_methods/split_by_cds.py:573-576 | every ORF's boundary is a key of the boundary dictionary |
| CdsSplit.CollectedEntries | mikado_lib/loci_objects/transcript_methods/split_by_cds.py:573-576 | each boundary holds the single (last) ORF with that boundary |
| CdsSplit.CollectBoundaries | mikado_lib/loci_objects/transcript_methods/split_by_cds.py:573-576 | the loop builds the dictionary of the ORFs sorted by boundary |
| CdsSplit.BoundariesTable | mikado_lib/loci_objects/transcript_methods/split_by_cds.py:573-576 | the boundary dictionary is well formed, its keys strictly increasing, every ORF's boundary a key, each key holding one ORF |
| CdsSplit.HspsIntoMeans | mikado_lib/loci_objects/transcript_methods/split_by_cds.py:55-65 | filing the HSPs of one hit under one boundary adds exactly those that pass the e-value and overlap thresholds, under that hit's target, and leaves other targets alone |
| CdsSplit.HitsOfListed | mikado_lib/loci_objects/transcript_methods/split_by_cds.py:41-65 | a boundary lists a target only with a non-empty HSP list, and only a target of some hit |
| CdsSplit.HitsOfSupported | mikado_lib/loci_objects/transcript_methods/split_by_cds.py:56-64 | every HSP listed under a boundary passes the e-value and overlap thresholds for it |
| CdsSplit.HitsOfComplete | mikado_lib/loci_objects/transcript_methods/split_by_cds.py:55-65 | every HSP of the hits that passes the thresholds for a boundary is listed under its target |
| CdsSplit.AddToRuns | mikado_lib/loci_objects/transcript_methods/split_by_cds.py:58-65 | one HSP is filed under every boundary it supports, and the set of boundaries stays the same |
| CdsSplit.HitTable | mikado_lib/loci_objects/transcript_methods/split_by_cds.py:41-65 | the nested loops build the per-boundary hit dictionary of the specification |
| CdsSplit.Search | mikado_lib/loci_objects/transcript_methods/split_by_cds.py:111-125 | an interval tree search returns exactly the stored intervals that meet the query half-open |
| CdsSplit.TargetLoop | mikado_lib/loci_objects/transcript_methods/split_by_cds.py:121-132 | the target-span loop clears the verdict exactly when some pair of target spans meets by less than the duplication share |
| CdsSplit.CheckCommonHitsAsWritten | mikado_lib/loci_objects/transcript_methods/split_by_cds.py:97-133 | as written, the verdict splits only when no shared target has HSPs on the new ORF |
| CdsSplit.CheckCommonHits | mikado_lib/loci_objects/transcript_methods/split_by_cds.py:97-133 | the evidently intended verdict: split exactly when, for every shared target, the ORFs' HSPs do not meet on the query and meet on the target only by at least the duplication share |
| CdsSplit.CommonHitsFinding | mikado_lib/loci_objects/transcript_methods/split_by_cds.py:115-118 | two ORFs hitting disjoint halves of one 100-residue target should split (a tandem duplication) but are kept together as written |
| CdsSplit.Extend | mikado_lib/loci_objects/transcript_methods/split_by_cds.py:146-170 | a grouping step adds exactly one boundary, at the end, and keeps groups non-empty |
| CdsSplit.Group | mikado_lib/loci_objects/transcript_methods/split_by_cds.py:144-172 | the groups, concatenated, are the boundaries in order; no group is empty |
| CdsSplit.GroupLast | mikado_lib/loci_objects/transcript_methods/split_by_cds.py:150 | the last boundary of the last group is the last boundary read |
| CdsSplit.GroupCuts | mikado_lib/loci_objects/transcript_methods/split_by_cds.py:146-170 | consecutive boundaries share a group exactly when the split rule does not cut between them |
| CdsSplit.DecideSplit | mikado_lib/loci_objects/transcript_methods/split_by_cds.py:151-170 | the decision of the leniency rule: both without hits split unless STRINGENT, one without hits splits only when PERMISSIVE, both with hits ask the common-hits check |
| CdsSplit.GetBoundaries | mikado_lib/loci_objects/transcript_methods/split_by_cds.py:136-172 | the loop groups the boundaries in order by the split rule on the hit dictionary |
| CdsSplit.GroupOrfsMembers | mikado_lib/loci_objects/transcript_methods/split_by_cds.py:69-77 | a merged group carries exactly the ORFs stored under its boundaries |
| CdsSplit.LastKeyed | mikado_lib/loci_objects/transcript_methods/split_by_cds.py:67-77 | the ORFs of the last group with a given span, if any group has it |
| CdsSplit.MergedValid | mikado_lib/loci_objects/transcript_methods/split_by_cds.py:67-77 | the final boundary dictionary is well formed |
| CdsSplit.MergedLookup | mikado_lib/loci_objects/transcript_methods/split_by_cds.py:67-77 | looking up a span in the final dictionary gives the ORFs of the last group with that span |
| CdsSplit.MergeGroups | mikado_lib/loci_objects/transcript_methods/split_by_cds.py:67-77 | the loop builds the final dictionary: one entry per group, keyed by its span, holding its ORFs |
| CdsSplit.CheckSplitByBlast | mikado_lib/loci_objects/transcript_methods/split_by_cds.py:11-80 | the final boundaries are the boundaries grouped by the BLAST evidence and merged |
| CdsSplitTranscripts.SplitComplexExon | mikado_lib/loci_objects/transcript_methods/split_by_cds.py:175-311 | the method returns the trimmed exon, its transcript coordinates and the discarded piece of the specification |
| CdsSplitTranscripts.TrimShape | mikado_lib/loci_objects/transcript_methods/split_by_cds.py:243-306 | trimming keeps the exon well formed, as long as its transcript coordinates, and inside the original exon (a one-base exon grows to two) |
| CdsSplitTranscripts.TrimSides | mikado_lib/loci_objects/transcript_methods/split_by_cds.py:243-306 | trimming only moves a side that has a neighbour, and not past the boundary |
| CdsSplitTranscripts.ComplexPieceFits | mikado_lib/loci_objects/transcript_methods/split_by_cds.py:175-311 | the kept piece is at least two bases, inside the original exon, with transcript coordinates inside the old ones and within the boundary on each side that has a neighbour |
| CdsSplitTranscripts.ComplexPieceDiscard | mikado_lib/loci_objects/transcript_methods/split_by_cds.py:192-241 | a piece is discarded exactly when the exon touches the boundary on a side that has a neighbour; the discarded and kept pieces then tile the exon without overlap |
| CdsSplitTranscripts.FivePrimeOrdered | mikado_lib/loci_objects/transcript_methods/split_by_cds.py:344-349 | the exons are read from the 5' end: a reordering of the exons, ascending on plus and descending on minus |
| CdsSplitTranscripts.TExonTiling | mikado_lib/loci_objects/transcript_methods/split_by_cds.py:351-353 | transcript coordinates tile 1.. without gaps, each exon keeping its length |
| CdsSplitTranscripts.PlacementsAt | mikado_lib/loci_objects/transcript_methods/split_by_cds.py:349-389 | the i-th placement is that of the i-th exon from the 5' end |
| CdsSplitTranscripts.PlaceExon | mikado_lib/loci_objects/transcript_methods/split_by_cds.py:359-386 | the loop body places one exon as the specification says |
| CdsSplitTranscripts.CreateSplittedExons | mikado_lib/loci_objects/transcript_methods/split_by_cds.py:313-391 | kept exons, discarded exons and transcript span are the accumulation of the placements from the 5' end |
| CdsSplitTranscripts.WalkExons | mikado_lib/loci_objects/transcript_methods/split_by_cds.py:349-389 | the loop accumulates every exon's placement |
| CdsSplitTranscripts.AccumulatedKept | mikado_lib/loci_objects/transcript_methods/split_by_cds.py:359-386 | the kept exons are exactly those the placements keep |
| CdsSplitTranscripts.AccumulatedDiscarded | mikado_lib/loci_objects/transcript_methods/split_by_cds.py:367-386 | the discarded exons are exactly those the placements discard |
| CdsSplitTranscripts.PlaceClassified | mikado_lib/loci_objects/transcript_methods/split_by_cds.py:359-378 | an exon inside the boundary is kept; one before it is discarded when a neighbour is on the left, else kept; one after it likewise with the right |
| CdsSplitTranscripts.SplitExonsClassified | mikado_lib/loci_objects/transcript_methods/split_by_cds.py:349-389 | the same classification for the whole exon list |
| CdsSplitTranscripts.PlaceSpan | mikado_lib/loci_objects/transcript_methods/split_by_cds.py:388-389 | each placement's transcript span stays within the boundary on the sides that have neighbours |
| CdsSplitTranscripts.SplitSpanBounds | mikado_lib/loci_objects/transcript_methods/split_by_cds.py:341-391 | a span exists exactly when some exon is kept, and it stays within the boundary on the sides that have neighbours |
| CdsSplitTranscripts.Rescorings | mikado_lib/loci_objects/transcript_methods/split_by_cds.py:466-487 | the new hits are exactly the rescorings that exist of the hits overlapping the boundary |
| CdsSplitTranscripts.AttemptsAt | mikado_lib/loci_objects/transcript_methods/split_by_cds.py:406-489 | the k-th attempt is the split of the k-th boundary |
| CdsSplitTranscripts.CollectOk | mikado_lib/loci_objects/transcript_methods/split_by_cds.py:406-497 | a run of attempts succeeds exactly when every attempt does, yielding each result in order |
| CdsSplitTranscripts.CollectFail | mikado_lib/loci_objects/transcript_methods/split_by_cds.py:442-464 | a failing run fails with the error of its first failing attempt |
| CdsSplitTranscripts.CollectPrefixFail | mikado_lib/loci_objects/transcript_methods/split_by_cds.py:442-464 | once a prefix fails, the whole run fails with that error |
| CdsSplitTranscripts.RescoreHits | mikado_lib/loci_objects/transcript_methods/split_by_cds.py:466-487 | the loop over the hits collects exactly the specified rescorings |
| CdsSplitTranscripts.MakeSplit | mikado_lib/loci_objects/transcript_methods/split_by_cds.py:409-489 | the loop body for the k-th boundary yields the specified split or error |
| CdsSplitTranscripts.CreateSplittedTranscripts | mikado_lib/loci_objects/transcript_methods/split_by_cds.py:393-497 | the loop over the sorted boundaries yields the specified run of splits |
| CdsSplitTranscripts.RunSplits | mikado_lib/loci_objects/transcript_methods/split_by_cds.py:406-497 | the loop over a list of boundaries stops at the first error and otherwise collects one split per boundary, as `Splits` specifies |
| CdsSplitTranscripts.SplitsOutcome | mikado_lib/loci_objects/transcript_methods/split_by_cds.py:406-497 | the run succeeds exactly when every boundary splits, giving one transcript per boundary in order, and otherwise fails with the first boundary's error |
| CdsSplitTranscripts.SplitIds | mikado_lib/loci_objects/transcript_methods/split_by_cds.py:421-422 | the new IDs are <id>.split1, <id>.split2, ... and all distinct |
| CdsSplitTranscripts.SplitAtIdsDiffer | mikado_lib/loci_objects/transcript_methods/split_by_cds.py:421-422 | two boundaries never produce the same ID |
| CdsSplitTranscripts.SplitAtId | mikado_lib/loci_objects/transcript_methods/split_by_cds.py:421-422 | the k-th split is named <id>.split(k+1) |
| CdsSplitTranscripts.SplitAtOutcome | mikado_lib/loci_objects/transcript_methods/split_by_cds.py:409-489 | a split fails its assertion exactly when no exon is kept, fails as InvalidTranscript exactly when the retained CDS is empty, and otherwise has the kept exons, a span from the lowest start to the highest end, no strand when monoexonic, its ORFs and the rescored hits |
| CdsSplitTranscripts.FivePrimeWellFormed | mikado_lib/loci_objects/transcript_methods/split_by_cds.py:349 | reading from the 5' end keeps the exons well formed |
| CdsSplitTranscripts.SplitKeeps | mikado_lib/loci_objects/transcript_methods/split_by_cds.py:359-389 | a split keeps every exon inside its boundary, the leading exons of the first split and the trailing exons of the last, and its span stays within the boundary towards its neighbours |
| CdsSplitTranscripts.SplitByCds | mikado_lib/loci_objects/transcript_methods/split_by_cds.py:564-594 | fewer than two internal ORFs or one boundary after the BLAST check keep the transcript; otherwise it is split into the created transcripts, an empty result being the assertion failure and an error of the splitting propagating |
| CdsSplitTranscripts.SplitByCdsYields | mikado_lib/loci_objects/transcript_methods/split_by_cds.py:564-594 | fewer than two ORFs or one final boundary yield the transcript itself; no boundary fails the assertion; otherwise one split per final boundary; at least one transcript is always yielded |
| CdsSplitTranscripts.SplitByCdsAsWritten | mikado_lib/loci_objects/transcript_methods/split_by_cds.py:588 | as written, every path that should split raises a TypeError (the splitting helper is called without its transcript argument), and only the unsplit paths succeed |
| CdsSplitTranscripts.Boundaries | mikado_lib/loci_objects/transcript_methods/split_by_cds.py:573-581 | the ORF boundaries, then the BLAST check when it is on, give the final boundaries |
| CdsSplitTranscripts.SplitResultSplits | mikado_lib/loci_objects/transcript_methods/split_by_cds.py:583-588 | with two or more ORFs and other than one final boundary, the transcript is not returned unsplit |
| HitRescoring.MinStart | mikado_lib/loci_objects/transcript_methods/split_by_cds.py:547-553 | the least start of the list, attained by some element |
| HitRescoring.MaxEnd | mikado_lib/loci_objects/transcript_methods/split_by_cds.py:548-554 | the greatest end of the list, attained by some element |
| HitRescoring.MergeRanges | mikado_lib/loci_objects/transcript_methods/split_by_cds.py:544-550 | sorting then walking returns the merged ranges |
| HitRescoring.MergeWalk | mikado_lib/loci_objects/transcript_methods/split_by_cds.py:544-550 | the walk over sorted ranges, growing the current range while the next one starts within it, returns the merge of those ranges |
| HitRescoring.MergeIntoShape | mikado_lib/loci_objects/transcript_methods/split_by_cds.py:544-550 | one merge step keeps the ranges a sorted, non-overlapping chain and extends the last range to the new end |
| HitRescoring.MergeIntoPositions | mikado_lib/loci_objects/transcript_methods/split_by_cds.py:544-550 | one merge step adds exactly the positions of the new range |
| HitRescoring.MergeChain | mikado_lib/loci_objects/transcript_methods/split_by_cds.py:544-550 | merging sorted ranges gives a chain from the first start to the greatest end |
| HitRescoring.MergePositions | mikado_lib/loci_objects/transcript_methods/split_by_cds.py:544-550 | merging covers exactly the positions the ranges cover |
| HitRescoring.ChainSorted | mikado_lib/loci_objects/transcript_methods/split_by_cds.py:544-550 | a chain is already sorted by (start, end), so sorting the merge changes nothing |
| HitRescoring.MergedSummary | mikado_lib/loci_objects/transcript_methods/split_by_cds.py:544-554 | the sorted merge is the merge, a chain whose length is the number of covered positions, from the least start to the greatest end |
| HitRescoring.WalkBounds | mikado_lib/loci_objects/transcript_methods/split_by_cds.py:530-539 | reading a match line only advances the query position by at most its length and only adds positions in the range it walked, identical ones among the positives |
| HitRescoring.ReadBounds | mikado_lib/loci_objects/transcript_methods/split_by_cds.py:533-539 | one character advances the position by at most one |
| HitRescoring.MarksBounds | mikado_lib/loci_objects/transcript_methods/split_by_cds.py:514-539 | identical positions are positives, and every positive lies under some HSP's match line |
| HitRescoring.Kept | mikado_lib/loci_objects/transcript_methods/split_by_cds.py:520-523 | exactly the HSPs whose query span overlaps the boundary by at least the minimal share |
| HitRescoring.MaxBits | mikado_lib/loci_objects/transcript_methods/split_by_cds.py:558 | the greatest bit score, attained by some HSP |
| HitRescoring.MinEvalue | mikado_lib/loci_objects/transcript_methods/split_by_cds.py:559 | the least e-value, attained by some HSP |
| HitRescoring.TallyLine | mikado_lib/loci_objects/transcript_methods/split_by_cds.py:530-539 | reading one HSP's match line into the shared position sets |
| HitRescoring.CollectHsps | mikado_lib/loci_objects/transcript_methods/split_by_cds.py:520-539 | the loop keeps the specified HSPs, their query and target spans and the identical and positive positions |
| HitRescoring.RecalculateHit | mikado_lib/loci_objects/transcript_methods/split_by_cds.py:499-561 | the corrected rescoring returns the specified hit |
| HitRescoring.RecalculatedHsps | mikado_lib/loci_objects/transcript_methods/split_by_cds.py:520-561 | no hit exactly when no HSP covers the boundary; otherwise the hit keeps exactly the covering HSPs, its target, and the least e-value and greatest bit score among them |
| HitRescoring.KeptWellFormed | mikado_lib/loci_objects/transcript_methods/split_by_cds.py:520-528 | the kept HSPs' spans are well formed |
| HitRescoring.RecalculatedQuery | mikado_lib/loci_objects/transcript_methods/split_by_cds.py:544-548 | the query aligned length is the number of query positions the kept HSPs cover, and the query span runs from their least start to their greatest end |
| HitRescoring.RecalculatedTarget | mikado_lib/loci_objects/transcript_methods/split_by_cds.py:550-554 | the same for the target spans |
| HitRescoring.RecalculatedMarks | mikado_lib/loci_objects/transcript_methods/split_by_cds.py:530-556 | identical positions are among the positives, and every positive lies under a kept HSP's match line |
| HitRescoring.RecalculateHitAsWritten | mikado_lib/loci_objects/transcript_methods/split_by_cds.py:541-550 | as written, a hit with no covering HSP gives no hit and any other raises NameError (merge is not defined) |
| LociTranscript.Without | Mikado/loci/superlocus.py:859-860 | deleting keys from the ordered dict keeps exactly the other keys, in order |
| LociTranscript.WithoutWithout | Mikado/loci/superlocus.py:667-672 | deleting in two rounds is deleting the union |
| LociTranscript.DeleteKeyed | Mikado/loci/superlocus.py:859-860 | deleting keys from an ordered dict keeps it well formed |
| SuperlocusGraph.OverlapShares | Mikado/loci/superlocus.py:1208-1212 | a positive overlap of two spans means they share at least two bases |
| SuperlocusGraph.SharedIntron | Mikado/loci/superlocus.py:1195-1202 | a non-empty intron intersection means a shared intron |
| SuperlocusGraph.IsIntersecting | Mikado/loci/superlocus.py:1164-1216 | a transcript never intersects itself; two multi-exonic ones intersect exactly when they share an intron (CDS introns when cds_only); two monoexonic ones exactly when they share a start, an end or at least two bases; a mixed pair never |
| SuperlocusGraph.IntersectingSymmetric | Mikado/loci/superlocus.py:1164-1216 | the intersection test is symmetric |
| SuperlocusGraph.Remove | Mikado/loci/superlocus.py:706-763 | removing nodes drops exactly those nodes and every edge to them |
| SuperlocusGraph.RemoveValid | Mikado/loci/superlocus.py:706-763 | removal keeps the graph valid and yields a subgraph |
| SuperlocusGraph.RemoveSimple | Mikado/loci/superlocus.py:706-763 | removal keeps node and neighbour lists free of repeats |
| SuperlocusGraph.ValidEdge | Mikado/loci/superlocus.py:694-696 | an edge joins two distinct nodes and is listed at both ends |
| SuperlocusGraph.SubgraphTransitive | Mikado/loci/superlocus.py:706-824 | a subgraph of a subgraph is a subgraph, so the levels compose |
| SuperlocusGraph.Neighbours | Mikado/loci/superlocus.py:850-852 | the neighbours of a transcript are exactly the transcripts it intersects, in dictionary order, without repeats |
| SuperlocusGraph.DefineGraph | Mikado/loci/superlocus.py:850-852 | the graph's nodes are the transcripts, and two are adjacent exactly when they intersect |
| SuperlocusGraph.DefineGraphValid | Mikado/loci/superlocus.py:850-852 | the transcript graph is valid (symmetric, no self-loops) and simple |
| SuperlocusGraph.NeighboursOver | Mikado/loci/superlocus.py:694-699 | neighbours are transcripts with exons, and a node is not its own neighbour |
| SuperlocusGraph.Level1Scan | Mikado/loci/superlocus.py:696-705 | one inner pass of level 1 only adds a neighbour the current transcript covers (same introns, inside its span) or the current one when a neighbour covers it |
| SuperlocusGraph.ScanWitness | Mikado/loci/superlocus.py:696-705 | every node the inner pass adds is covered by one of its neighbours |
| SuperlocusGraph.Level1 | Mikado/loci/superlocus.py:693-706 | the corrected level 1 only removes nodes covered by a neighbour |
| SuperlocusGraph.Level1AsWritten | Mikado/loci/superlocus.py:693-706 | level 1 as written only grows the removal set |
| SuperlocusGraph.ScanOne | Mikado/loci/superlocus.py:700-702 | a neighbour covered by the current transcript is marked for removal |
| SuperlocusGraph.Level1AsWrittenRemovesBoth | Mikado/loci/superlocus.py:693-706 | two transcripts with the same introns and the same span are both removed as written, while the corrected level 1 keeps one |
| SuperlocusGraph.Level1KeepsOne | Mikado/loci/superlocus.py:693-706 | the corrected level 1 always leaves at least one node |
| SuperlocusGraph.EndingAt | Mikado/loci/superlocus.py:726-727 | exactly the exons ending at a position |
| SuperlocusGraph.StartingAt | Mikado/loci/superlocus.py:731-732 | exactly the exons starting at a position |
| SuperlocusGraph.Corresponds | Mikado/loci/superlocus.py:726-735 | the outer transcript's exons that match the inner one's first and last exons reach past its ends; a missing or repeated match fails the assertion |
| SuperlocusGraph.Level2Scan | Mikado/loci/superlocus.py:720-752 | one inner pass of level 2 only removes a transcript whose introns lie within a neighbour's and whose ends that neighbour reaches |
| SuperlocusGraph.Scan2Witness | Mikado/loci/superlocus.py:720-752 | every node the inner pass adds has its introns within a neighbour's |
| SuperlocusGraph.Level2 | Mikado/loci/superlocus.py:716-763 | level 2 only removes nodes whose introns lie within a neighbour's |
| SuperlocusGraph.LabelFirst | Mikado/loci/superlocus.py:773-783 | a transcript's source is the first non-empty label its id contains, or its own source |
| SuperlocusGraph.Sources | Mikado/loci/superlocus.py:772-783 | every transcript is filed under its source, each source listed once |
| SuperlocusGraph.SourcesDistinct | Mikado/loci/superlocus.py:772-783 | each source is listed once |
| SuperlocusGraph.SourcesMembers | Mikado/loci/superlocus.py:772-783 | a source group holds only transcripts carrying that source |
| SuperlocusGraph.GroupList | Mikado/loci/superlocus.py:788 | the groups as a list, in source order |
| SuperlocusGraph.OrderedGroups | Mikado/loci/superlocus.py:791 | the groups are visited smallest first, each exactly once |
| SuperlocusGraph.OrderedPartition | Mikado/loci/superlocus.py:772-791 | the ordered groups partition the transcripts by source |
| SuperlocusGraph.Retain | Mikado/loci/superlocus.py:791-819 | level 3 retains a prefix of the ordered groups, with their sources |
| SuperlocusGraph.RetainGreedy | Mikado/loci/superlocus.py:791-819 | every retained prefix fits the limits, and the next group would exceed them |
| SuperlocusGraph.Outside | Mikado/loci/superlocus.py:796-798 | exactly the graph's nodes outside the retained set |
| SuperlocusGraph.Level3 | Mikado/loci/superlocus.py:772-824 | level 3 always yields a graph, at level 3 |
| SuperlocusGraph.Level3Keeps | Mikado/loci/superlocus.py:772-824 | level 3 keeps exactly the nodes of the retained source groups, with their edges, records those sources, and yields a valid subgraph |
| SuperlocusGraph.ReduceBeyond1 | Mikado/loci/superlocus.py:707-824 | levels 2 and 3 end at level 2 or 3 |
| SuperlocusGraph.Beyond1RemovesOnly | Mikado/loci/superlocus.py:707-824 | levels 2 and 3 only delete nodes with their edges |
| SuperlocusGraph.Reduce | Mikado/loci/superlocus.py:675-824 | a graph within the limits is returned unchanged at level 0; an empty graph raises ValueError (max of an empty list); otherwise the level is at most 3 |
| SuperlocusGraph.ReduceRemovesOnly | Mikado/loci/superlocus.py:675-824 | every level only deletes nodes with their edges: the result is a valid subgraph of the input |
| SuperlocusGraph.ReduceSimple | Mikado/loci/superlocus.py:675-824 | no level introduces a repeated node or neighbour |
| SuperlocusGraph.ReduceLevel1 | Mikado/loci/superlocus.py:692-710 | when the reduction stops at level 1, every removed node was covered by a neighbour |
| SuperlocusDecomposition.ScanCovered | Mikado/loci/superlocus.py:696-705 | the level-1 inner loop over the neighbours of a transcript marks exactly what the level-1 scan specification marks |
| SuperlocusDecomposition.Level1Pass | Mikado/loci/superlocus.py:693-705 | the level-1 loop over the graph, skipping marked transcripts, yields the level-1 removal set |
| SuperlocusDecomposition.ScanContained | Mikado/loci/superlocus.py:720-752 | the level-2 inner loop gives the level-2 scan's marks, or the AssertionError when a corresponding exon is not unique |
| SuperlocusDecomposition.Level2Pass | Mikado/loci/superlocus.py:717-752 | the level-2 loop over the graph yields the level-2 removal set or its AssertionError |
| SuperlocusDecomposition.FindLabel | Mikado/loci/superlocus.py:774-783 | a transcript goes to the first non-empty label its id contains, else to its own source |
| SuperlocusDecomposition.CollectSources | Mikado/loci/superlocus.py:772-783 | every node of the graph lands in the group of its label |
| SuperlocusDecomposition.RetainGroups | Mikado/loci/superlocus.py:791-819 | groups are added, smallest first, until one would break the node or edge limit, which stops the loop |
| SuperlocusDecomposition.ReduceGraph | Mikado/loci/superlocus.py:675-824 | the reduction of an over-complex graph computes `Reduce`, level by level, which only removes nodes and keeps the graph simple (ReduceRemovesOnly, ReduceSimple) |
| SuperlocusDecomposition.Zeroed | Mikado/loci/superlocus.py:661-669 | the excluded transcripts are exactly the failing ones held by the superlocus |
| SuperlocusDecomposition.DeleteHolding | Mikado/loci/superlocus.py:667-672 | deleting transcripts keeps the ordered dict well formed |
| SuperlocusDecomposition.Purge | Mikado/loci/superlocus.py:659-672 | the prefilter removes every failing transcript from the superlocus and keeps each of them, with score 0, among the excluded |
| SuperlocusDecomposition.Missing | Mikado/loci/superlocus.py:859 | the transcripts to delete are exactly those of the dict no longer in the reduced graph |
| SuperlocusDecomposition.Discard | Mikado/loci/superlocus.py:859-860 | deleting the missing transcripts removes exactly them and keeps the dict well formed |
| SuperlocusDecomposition.NothingMissing | Mikado/loci/superlocus.py:854 | when the graph is no smaller than the dict, no transcript is deleted |
| SuperlocusDecomposition.NonEmpty | Mikado/loci/superlocus.py:879-880 | empty communities are skipped and every other one is kept |
| SuperlocusDecomposition.Gather | Mikado/loci/superlocus.py:874-915 | the communities become subloci exactly when each of them is held by the dict, else the lookup raises KeyError; every sublocus is non-empty and held by the dict |
| SuperlocusDecomposition.GatherStops | Mikado/loci/superlocus.py:878-881 | once a community raised, the rest of the loop does not change the outcome |
| SuperlocusDecomposition.GatherSubloci | Mikado/loci/superlocus.py:878-914 | the loop over the communities computes the gathered subloci |
| SuperlocusDecomposition.TrimToGraph | Mikado/loci/superlocus.py:854-915 | after the reduction the dict stays well formed, holds only unchanged transcripts, and every sublocus is non-empty and held by the dict |
| SuperlocusDecomposition.Trim | Mikado/loci/superlocus.py:854-915 | the steps after the reduction compute `TrimToGraph`: the missing transcripts are deleted and the communities gathered |
| SuperlocusDecomposition.AfterReduce | Mikado/loci/superlocus.py:853-915 | an exception of the reducer leaves the dict well formed and the excluded transcripts in place; otherwise the subloci are non-empty and held by the dict |
| SuperlocusDecomposition.Subloci | Mikado/loci/superlocus.py:826-917 | the whole of define_subloci keeps the dict well formed, sets the excluded transcripts as the prefilter does, keeps only transcripts that passed the prefilter, unchanged, and yields non-empty subloci held by the dict |
| SuperlocusDecomposition.AfterReduceKept | Mikado/loci/superlocus.py:854-860 | after a successful reduction the dict holds exactly the transcripts of the reduced graph |
| SuperlocusDecomposition.SublociSteps | Mikado/loci/superlocus.py:835-917 | the steps of define_subloci compute `Subloci`, whose properties SublociKept and SublociCover state |
| SuperlocusDecomposition.PrefilterMoves | Mikado/loci/superlocus.py:648-673 | with purging and failing transcripts, each failing one leaves the dict for the excluded with score 0 and the others stay unchanged; otherwise nothing changes and nothing is excluded |
| SuperlocusDecomposition.SublociUnfold | Mikado/loci/superlocus.py:841-853 | an empty dict after the prefilter ends define_subloci with no subloci; otherwise the graph is built on the remaining transcripts and reduced |
| SuperlocusDecomposition.SublociKept | Mikado/loci/superlocus.py:841-860 | once a graph was built, the dict holds exactly the transcripts that passed the prefilter and survived the reduction |
| SuperlocusDecomposition.GatherCover | Mikado/loci/superlocus.py:874-914 | communities that partition the dict raise no error and place every transcript in a sublocus |
| SuperlocusDecomposition.AfterReduceCover | Mikado/loci/superlocus.py:854-915 | with communities covering the reduced graph, every remaining transcript belongs to some sublocus |
| SuperlocusDecomposition.SublociCover | Mikado/loci/superlocus.py:826-917 | when community detection partitions the graph, define_subloci raises nothing and every remaining transcript lies in a sublocus |
| SuperlocusDecomposition.UnionAppend | Mikado/loci/superlocus.py:948-950 | the transcripts of two lists of containers put together are the transcripts of each |
| SuperlocusDecomposition.CollectMonosubloci | Mikado/loci/superlocus.py:941-950 | the loop appends the monosubloci of every sublocus, in order |
| SuperlocusDecomposition.MonosCover | Mikado/loci/superlocus.py:941-951 | when each sublocus splits into monosubloci covering it, the monosubloci hold exactly the transcripts of the subloci |
| SuperlocusDecomposition.FirstFit | Mikado/loci/superlocus.py:1128-1132 | a monosublocus goes to the first holder that accepts it; no earlier holder does |
| SuperlocusDecomposition.GroupHolders | Mikado/loci/superlocus.py:1124-1138 | the loop of calculate_mono_metrics groups the monosubloci by first fit, opening a holder when none accepts |
| SuperlocusDecomposition.HoldersPermute | Mikado/loci/superlocus.py:1124-1138 | the holders together hold every monosublocus exactly once |
| SuperlocusDecomposition.HoldersNonEmpty | Mikado/loci/superlocus.py:1133-1138 | no holder is empty |
| SuperlocusDecomposition.LociMapEntries | Mikado/loci/superlocus.py:1062-1063 | the loci map has exactly the ids of the collected loci, and for a repeated id the last locus wins |
| SuperlocusDecomposition.LociMapKeys | Mikado/loci/superlocus.py:1062-1063 | the loci map is keyed by exactly the ids of the collected loci |
| SuperlocusDecomposition.LociMapLast | Mikado/loci/superlocus.py:1062-1063 | an id held by several loci maps to the last of them |
| SuperlocusDecomposition.CollectLoci | Mikado/loci/superlocus.py:1055-1060 | the loop gathers the loci of every holder, in order |
| SuperlocusDecomposition.FillLoci | Mikado/loci/superlocus.py:1050-1063 | the loop fills the loci map with the loci by id |
| SuperlocusDecomposition.LociCliques | Mikado/loci/superlocus.py:1095-1105 | each locus maps to exactly the transcripts other than its primary that share a clique with the primary |
| SuperlocusDecomposition.Mates | Mikado/loci/superlocus.py:1101-1105 | the mates of a primary are exactly the transcripts sharing a clique with it |
| SuperlocusDecomposition.CliqueMates | Mikado/loci/superlocus.py:1101-1105 | the loop over the cliques collects the mates of the primary |
| SuperlocusDecomposition.CandidatesExactly | Mikado/loci/superlocus.py:1107-1111 | a transcript is a splicing candidate of a locus exactly when it is held, is no primary, and that locus is the only one whose cliques reach it |
| SuperlocusDecomposition.CandidatesNonEmpty | Mikado/loci/superlocus.py:1085-1111 | no locus has an empty candidate set |
| SuperlocusDecomposition.Superlocus.AlternativeSplicingCandidates | Mikado/loci/superlocus.py:1085-1111 | the candidates are computed as the candidate specification over the loci's primaries and cliques |
| SuperlocusDecomposition.OnStrandOnly | Mikado/loci/superlocus.py:318-327 | a strand list holds transcripts of that strand only |
| SuperlocusDecomposition.StrandsPartition | Mikado/loci/superlocus.py:318-327 | the plus, minus and strandless lists together hold every transcript exactly once |
| SuperlocusDecomposition.Chunks | Mikado/loci/superlocus.py:333-351 | a non-empty list yields at least one superlocus |
| SuperlocusDecomposition.ChunksConcat | Mikado/loci/superlocus.py:333-351 | the new superloci hold the sorted list's transcripts, in order |
| SuperlocusDecomposition.ChunksNonEmpty | Mikado/loci/superlocus.py:333-351 | no new superlocus is empty |
| SuperlocusDecomposition.ChunksAccepted | Mikado/loci/superlocus.py:339-341 | every transcript after the first of a new superlocus was accepted by in_locus against the ones before it |
| SuperlocusDecomposition.ChunksRejected | Mikado/loci/superlocus.py:342-349 | every new superlocus after the first starts with a transcript that in_locus rejected for the previous one |
| SuperlocusDecomposition.StrandChunksKeep | Mikado/loci/superlocus.py:331-351 | sorting and chunking a strand list keeps its transcripts |
| SuperlocusDecomposition.StrandChunksOneStrand | Mikado/loci/superlocus.py:331-351 | the superloci of a single-strand list are single-strand |
| SuperlocusDecomposition.StrandGroupsPartition | Mikado/loci/superlocus.py:313-359 | splitting by strand loses and duplicates no transcript |
| SuperlocusDecomposition.StrandGroupsSingleStrand | Mikado/loci/superlocus.py:317-359 | a superlocus that ignored the strand splits into single-strand superloci |
| SuperlocusDecomposition.ChunkSorted | Mikado/loci/superlocus.py:333-351 | the chunking loop computes `Chunks`: a transcript joins the current superlocus when in_locus accepts it and starts a new one otherwise |
| SuperlocusDecomposition.ChunkStrand | Mikado/loci/superlocus.py:331-351 | one iteration over a strand list computes its superloci |
| SuperlocusDecomposition.SplitByStrand | Mikado/loci/superlocus.py:318-351 | the splitting loops of a mixed superlocus compute the strand groups |
| SuperlocusDecomposition.Superlocus.SplitStrands | Mikado/loci/superlocus.py:302-359 | a stranded superlocus yields itself; otherwise its transcripts are split by strand into superloci |
| SuperlocusDecomposition.Superlocus.TranscriptList | Mikado/loci/superlocus.py:319-320 | the transcripts are read in the dict's order |
| SuperlocusDecomposition.CoordinatesSuffix | Mikado/loci/superlocus.py:1230-1235 | the text before the coordinates and both coordinates can be read back from an identifier |
| SuperlocusDecomposition.IdInjective | Mikado/loci/superlocus.py:1220-1235 | the superlocus identifier determines the chromosome, the strand label and both coordinates |
| SuperlocusDecomposition.Superlocus.constructor | Mikado/loci/superlocus.py:71-134 | a new superlocus holds the given transcripts with approximation level 0, no excluded transcripts and no stage done |
| SuperlocusDecomposition.Superlocus.DefineSubloci | Mikado/loci/superlocus.py:826-917 | the fields it sets and the exception it raises are those of `AfterSubloci` on the fields as they were: nothing changes on a second call; a first call reaches the state `Subloci` describes and sets the flag exactly when nothing was raised |
| SuperlocusDecomposition.Superlocus.DefineMonosubloci | Mikado/loci/superlocus.py:927-952 | the fields it sets and the exception it raises are those of `AfterMono`: a second call changes nothing; otherwise the subloci are defined first, an exception leaves the monosubloci as they were, and on success they are those of every sublocus, in order |
| SuperlocusDecomposition.Superlocus.CalculateMonoMetrics | Mikado/loci/superlocus.py:1122-1138 | the holders are the first-fit grouping of the monosubloci |
| SuperlocusDecomposition.Superlocus.DefineLoci | Mikado/loci/superlocus.py:1035-1065 | the fields it sets and the exception it raises are those of `AfterLoci`: a second call changes nothing; otherwise the earlier stages run, the holders are the first-fit grouping and the loci map holds the loci of all holders by id; an error leaves holders and loci unchanged |
| SuperlocusDecomposition.AfterLociFlags | Mikado/loci/superlocus.py:826-1065 | each stage sets its flag exactly when it raises nothing, a finished stage has the earlier ones finished, and a failing define_loci leaves the holders and loci as they were |
| SuperlocusDecomposition.AfterLociOnce | Mikado/loci/superlocus.py:1035-1065 | after a successful define_loci the dict is well formed and a second call changes nothing and raises nothing |
| SuperlocusDecomposition.Superlocus.AssembleLoci | Mikado/loci/superlocus.py:1048-1065 | after the monosubloci, the holders and the loci map are built from them and the stage is marked done |
| LocusAssembly.Unconfirmed | Mikado/loci/locus.py:240-249 | the introns to check are exactly those of the candidate that the primary lacks and that were not verified |
| LocusAssembly.CloneIds | Mikado/loci/locus.py:435-457 | a transcript with at most one ORF gets no copy; otherwise the copy ids are exactly `<id>.orf1` … `<id>.orf<n>` |
| LocusAssembly.AllClones | Mikado/loci/locus.py:532-535 | the ids deleted after scoring are exactly those recorded as ORF copies of some transcript |
| LocusAssembly.DoubledEntries | Mikado/loci/locus.py:415-457 | a transcript has recorded copies exactly when it had them before or, with report_all_orfs, it has several ORFs; the record is the earlier one plus one copy per ORF |
| LocusAssembly.RecordDoubles | Mikado/loci/locus.py:415-457 | the metrics loop records the ORF copies of every transcript |
| LocusAssembly.Rescored | Mikado/loci/locus.py:480-498 | rescoring changes only the score of a transcript |
| LocusAssembly.Rescore | Mikado/loci/locus.py:480-535 | the scoring loop deletes exactly the ORF copies from the dict, keeps it well formed and gives every remaining transcript its new score |
| LocusAssembly.ScoredKeepsLocusDict | Mikado/loci/locus.py:492-498 | rescoring every transcript keeps the locus dict well formed |
| LocusAssembly.Recalc | Mikado/loci/locus.py:131-133 | resetting the flags and scoring again records the ORF copies, deletes exactly them from the dict and the order, and gives every other transcript its new score, changing nothing but scores |
| LocusAssembly.Recalculate | Mikado/loci/locus.py:131-169 | the scoring loops compute exactly `Recalc` |
| LocusAssembly.RecalcUnreported | Mikado/loci/locus.py:480-535 | with no copies recorded and only the first ORF reported, scoring deletes nothing and only rescores |
| LocusAssembly.RescoringTrans | Mikado/loci/locus.py:131-190 | two rounds of rescoring and deletion amount to one |
| LocusAssembly.RescoringDelete | Mikado/loci/locus.py:164-187 | deleting transcripts after rescoring is still rescoring and deletion |
| LocusAssembly.Above | Mikado/loci/locus.py:151-157 | every ranked transcript reaching the threshold is counted |
| LocusAssembly.KeptAbove | Mikado/loci/locus.py:143-158 | the selection only adds ids of transcripts reaching the threshold |
| LocusAssembly.KeptCapped | Mikado/loci/locus.py:143-150 | the selection never holds more than max_isoforms ids |
| LocusAssembly.KeptComplete | Mikado/loci/locus.py:138-158 | on a list sorted by decreasing score, when the cap was not reached every transcript reaching the threshold is kept |
| LocusAssembly.KeptIn | Mikado/loci/locus.py:137-158 | the kept ids are all ids of the locus |
| LocusAssembly.SelectIsoforms | Mikado/loci/locus.py:137-158 | the selection loop computes the kept set starting from the primary |
| LocusAssembly.RankedFromDict | Mikado/loci/locus.py:138-140 | the ranked transcripts are the locus's own non-primary transcripts |
| LocusAssembly.AboveFromDict | Mikado/loci/locus.py:151-158 | an id kept for its score belongs to a transcript of the locus reaching the threshold |
| LocusAssembly.SelectedWithin | Mikado/loci/locus.py:137-158 | the selection keeps only ids of the locus, the primary among them |
| LocusAssembly.SelectedAll | Mikado/loci/locus.py:160-162 | once nothing more is discarded the locus has at most max_isoforms transcripts and each non-primary one reaches the threshold |
| LocusAssembly.KeptWithin | Mikado/loci/locus.py:160-165 | the kept ids are keys of the dict |
| LocusAssembly.Pruned | Mikado/loci/locus.py:136-169 | the isoform loop only loses transcripts and rescores; it ends with the primary kept and the selection holding the whole locus, or with the KeyError of a primary that rescoring removed |
| LocusAssembly.Deleted | Mikado/loci/locus.py:164-169 | deleting a non-empty set of held transcripts and scoring again leaves a smaller, well formed locus, the `Recalc` of the locus without them |
| LocusAssembly.PrunedStep | Mikado/loci/locus.py:160-169 | one round of the isoform loop: the discarded set is non-empty and held, and the loop ends as it would from the smaller rescored locus |
| LocusAssembly.SelectedAllAbove | Mikado/loci/locus.py:136-162 | with fewer than max_isoforms transcripts, all within the threshold, the selection keeps every transcript |
| LocusAssembly.DoubledUnreported | Mikado/loci/locus.py:415-457 | without report_all_orfs, no ORF copy is recorded |
| LocusAssembly.Prune | Mikado/loci/locus.py:136-169 | the isoform loop computes exactly `Pruned` |
| LocusAssembly.FindRetaining | Mikado/loci/locus.py:173-181 | the transcripts to remove are exactly the non-primary ones with a retained intron |
| LocusAssembly.RetainedDropped | Mikado/loci/locus.py:171-196 | with keep_retained_introns the locus is unchanged and exactly the non-primary transcripts with retained introns are flagged; otherwise none is flagged, the locus only loses transcripts and rescores, and none left has a retained intron |
| LocusAssembly.RetainedStep | Mikado/loci/locus.py:183-190 | one round of the retained-intron loop: the loop ends as it would from the locus without the flagged transcripts, rescored, which is smaller |
| LocusAssembly.DropRetained | Mikado/loci/locus.py:172-196 | the retained-intron loop computes exactly `RetainedDropped` |
| LocusAssembly.SettledAsWritten | Mikado/loci/locus.py:131-196 | both loops as written, once each: at most max_isoforms transcripts or the KeyError of a lost primary; the threshold is guaranteed only when retained introns are kept; otherwise no isoform left has a retained intron |
| LocusAssembly.SettleAsWritten | Mikado/loci/locus.py:131-196 | rescoring and the two loops as written compute exactly `SettledAsWritten` |
| LocusAssembly.SettleAsWrittenBelowThreshold | Mikado/loci/locus.py:171-196 | as written, deleting an isoform with a retained intron and rescoring can leave an isoform below the threshold in the locus |
| LocusAssembly.Settled | Mikado/loci/locus.py:123-196 | the loops repeated until the retained-intron loop deletes nothing: on success at most max_isoforms transcripts, the primary kept, every isoform within the threshold, flagged isoforms exactly those with retained introns when these are kept and none left otherwise; or the KeyError of a lost primary |
| LocusAssembly.Settle | Mikado/loci/locus.py:123-196 | rescoring and the repeated loops compute exactly `Settled` |
| LocusAssembly.ShareExtremeSymmetric | Mikado/loci/locus.py:751-767 | sharing an extreme is symmetric, so the graphs built from it are undirected |
| LocusAssembly.Pending | Mikado/loci/locus.py:636-667 | the members of a community still to be padded are exactly those not yet found |
| LocusAssembly.Unfound | Mikado/loci/locus.py:654-688 | the members left in a community are exactly those not found |
| LocusAssembly.PadTx | Mikado/loci/locus.py:693-720 | padding keeps the number of exons |
| LocusAssembly.PadTxMoves | Mikado/loci/locus.py:705-720 | padding only extends a transcript, moves the first exon's start and the last exon's end to the new boundaries, and keeps the internal exons, introns, strand and score |
| LocusAssembly.PadCommunity | Mikado/loci/locus.py:640-690 | every transcript padded from a community is a member that meets the distance and splice-site limits towards the community's first transcript |
| LocusAssembly.PadPass | Mikado/loci/locus.py:633-690 | each padding pass records only justified pads, on its own side; a failure is the IndexError of an emptied community or the KeyError of a transcript not in the locus |
| LocusAssembly.ApplyPads | Mikado/loci/locus.py:693-749 | every padded transcript is replaced by its padded copy and no other one changes |
| LocusAssembly.PaddedKeepsLocusDict | Mikado/loci/locus.py:693-749 | padding keeps the locus dict well formed |
| LocusAssembly.Renumbered | Mikado/loci/locus.py:807-826 | renaming keeps the number of transcripts |
| LocusAssembly.RenumberedAt | Mikado/loci/locus.py:807-826 | the transcript at position i is renamed `<name>.<i+1>` and keeps its old id as alias |
| LocusAssembly.Ids | Mikado/loci/locus.py:815-826 | a list of transcripts gives one id per transcript |
| LocusAssembly.DictKeyed | Mikado/loci/locus.py:811-825 | a list with distinct ids becomes a dict keyed by those ids |
| LocusAssembly.NumberedIdInjective | Mikado/loci/locus.py:807-823 | different positions give different names |
| LocusAssembly.OthersCount | Mikado/loci/locus.py:815 | the non-primary transcripts are listed once each |
| LocusAssembly.OthersMembers | Mikado/loci/locus.py:815 | the listed transcripts are exactly the non-primary ones of the dict |
| LocusAssembly.RankedMembers | Mikado/loci/locus.py:807-816 | the ranked list holds every transcript of the locus, the primary first |
| LocusAssembly.RankedCovers | Mikado/loci/locus.py:807-816 | every transcript of the locus is ranked |
| LocusAssembly.RankedSorted | Mikado/loci/locus.py:815-816 | after the primary the transcripts come in transcript order |
| LocusAssembly.RenamedKeyed | Mikado/loci/locus.py:807-826 | the renamed transcripts are `<name>.1` … `<name>.<n>`, one per transcript, stored under their new ids |
| LocusAssembly.RenamedPrimary | Mikado/loci/locus.py:807-813 | the primary is stored under `<name>.1` with its old id as alias |
| LocusAssembly.RenamedAliases | Mikado/loci/locus.py:809-822 | the aliases of the renamed transcripts are exactly the old ids |
| LocusAssembly.RenamedSorted | Mikado/loci/locus.py:815-826 | after the primary the renamed transcripts come in transcript order |
| LocusAssembly.RenamedIsLocusDict | Mikado/loci/locus.py:807-826 | the renamed dict is a well formed locus dict |
| LocusAssembly.Rename | Mikado/loci/locus.py:806-826 | the renaming loop builds the renumbered list and dict |
| LocusAssembly.RenameTwiceLosesPrimary | Mikado/loci/locus.py:807-813 | renaming a locus whose primary is already `L.1` to `L` deletes the primary and leaves the dict empty |
| LocusAssembly.AddKeepsLocusDict | Mikado/loci/locus.py:313 | adding a transcript under its id keeps the locus dict well formed |
| LocusAssembly.DeleteKeepsLocusDict | Mikado/loci/locus.py:164-187 | deleting transcripts keeps the locus dict well formed |
| LocusAssembly.DeleteShrinks | Mikado/loci/locus.py:160-165 | deleting a non-empty set of held transcripts makes the locus smaller, so the isoform loop ends |
| LocusAssembly.Locus.constructor | Mikado/loci/locus.py:33-69 | a new locus holds the one transcript, marked primary, with no metrics, scores, ORF copies or name yet |
| LocusAssembly.Locus.IsAlternativeSplicing | Mikado/loci/locus.py:567-606 | the candidate is valid exactly when its class code against the primary is a valid one and its code against no other transcript is a redundant one; the comparison with the primary is returned |
| LocusAssembly.Locus.Admission | Mikado/loci/locus.py:226-307 | a transcript is admitted exactly as the checks in order decide (unconfirmed introns, strand, splicing, cDNA overlap, UTR lengths, CDS overlap); the class code is recorded exactly when the splicing check was evaluated and passed |
| LocusAssembly.Locus.AddTranscript | Mikado/loci/locus.py:203-314 | an admitted transcript is added as non-primary and its verified introns join the locus's; otherwise nothing changes |
| LocusAssembly.Locus.GetMetrics | Mikado/loci/locus.py:403-421 | a second call changes nothing; a first one records the ORF copies of every transcript |
| LocusAssembly.Locus.CalculateScores | Mikado/loci/locus.py:461-537 | a second call changes nothing; a first one records the ORF copies if needed, deletes them and rescores every other transcript |
| LocusAssembly.PadValues | Mikado/loci/locus.py:608-749 | the two padding passes and the replacement: on success every transcript is replaced by its justified padded copy or kept; on the IndexError or the KeyError of an unknown id nothing changes |
| LocusAssembly.PaddedScores | Mikado/loci/locus.py:693-749 | padding keeps every transcript's score |
| LocusAssembly.Locus.PadTranscripts | Mikado/loci/locus.py:608-749 | on success every transcript is replaced by its justified padded copy or kept; on the IndexError or KeyError nothing changes |
| LocusAssembly.Locus.SetId | Mikado/loci/locus.py:797-826 | the name is set; the transcripts are renamed in order with the primary as `<name>.1`, or the KeyError of a missing primary leaves them unchanged |
| LocusAssembly.FinalizeScored | Mikado/loci/locus.py:123-201 | rescoring, the repeated loops and, when asked for, the padding of the settled locus compute exactly `Finalized` |
| LocusAssembly.FinalizedMeans | Mikado/loci/locus.py:123-201 | after finalisation the locus only lost transcripts; on success it has at most max_isoforms, the primary among them, every isoform within the threshold (padding included), and, when retained introns are not kept and nothing was padded, none with a retained intron |
| LocusAssembly.Locus.FinalizeAlternativeSplicing | Mikado/loci/locus.py:123-201 | the order, transcripts, ORF copies, flagged isoforms, pads and error it leaves are those of `Finalized`; the locus only loses transcripts; on success it has at most max_isoforms, the primary kept and every isoform within the threshold, padding included; when retained introns are not kept and nothing is padded, none has a retained intron |
| Preparation.OuterSpan | Mikado/preparation/prepare.py:56-58 | the computed span is the smallest exon start and the largest exon end |
| Preparation.PlacementMeaning | Mikado/preparation/prepare.py:49-68 | a record without features raises KeyError with its id; a record is placed exactly when it has exons and their total length reaches the minimum, under its chromosome and the span of its exons |
| Preparation.PlacementAsWritten | Mikado/preparation/prepare.py:49-64 | as written, a record whose features lack exons raises KeyError and one with an empty exon list raises ValueError; every other record is treated as in the corrected model |
| Preparation.EmptyExonListAborts | Mikado/preparation/prepare.py:52-57 | a transcript with an empty exon list aborts the run as written, whereas the warning announces that it is skipped |
| Preparation.FillSnoc | Mikado/preparation/prepare.py:47-68 | the first pass handles one transcript after the other |
| Preparation.AtMembers | Mikado/preparation/prepare.py:66-68 | the list at a key holds exactly the transcripts placed at that key |
| Preparation.FillFailStays | Mikado/preparation/prepare.py:49-50 | once a transcript raised, the later ones do not change the outcome |
| Preparation.FillError | Mikado/preparation/prepare.py:47-50 | the first pass fails exactly when some record has no features, with the KeyError of the first such record |
| Preparation.AddKeepsTableOk | Mikado/preparation/prepare.py:66-68 | appending a transcript at a key keeps the table well formed |
| Preparation.PlaceMatches | Mikado/preparation/prepare.py:66-68 | appending a placed transcript at its key keeps the table equal to the placements so far |
| Preparation.SkipMatches | Mikado/preparation/prepare.py:59-64 | a skipped transcript leaves the table as it was |
| Preparation.FillTable | Mikado/preparation/prepare.py:45-68 | after a successful first pass each key holds exactly the transcripts placed there, in visiting order |
| Preparation.UptoPrefix | Mikado/preparation/prepare.py:47-48 | the transcripts visited so far are the start of all the visits |
| Preparation.Collect | Mikado/preparation/prepare.py:45-68 | the nested loops over shelves and transcripts compute the first pass |
| Preparation.CollectShelf | Mikado/preparation/prepare.py:48-68 | the loop over one shelf either fails as the whole pass does or continues it with that shelf |
| Preparation.GroupMembers | Mikado/preparation/prepare.py:84-90 | the group of an exon chain holds exactly the transcripts with that chain |
| Preparation.ChainsExact | Mikado/preparation/prepare.py:84-90 | each exon chain is listed once, and the listed chains are exactly those of the transcripts |
| Preparation.GroupByChain | Mikado/preparation/prepare.py:84-90 | the grouping loop lists the chains and keeps, for each, its transcripts |
| Preparation.ChainsGroups | Mikado/preparation/prepare.py:84-90 | every listed chain has at least one transcript |
| Preparation.Deduplicate | Mikado/preparation/prepare.py:84-103 | the deduplication keeps one transcript of each exon chain |
| Preparation.SingleDeduped | Mikado/preparation/prepare.py:83 | a key with one transcript keeps it |
| Preparation.DedupedChains | Mikado/preparation/prepare.py:94-103 | the i-th kept transcript comes from the span and carries the i-th chain |
| Preparation.DedupedOnePerChain | Mikado/preparation/prepare.py:84-103 | the kept transcripts come from the span, every chain of the span is represented, and no chain twice |
| Preparation.DedupedKeepsUnique | Mikado/preparation/prepare.py:102-103 | a transcript whose exon chain no other one at the key shares is always kept |
| Preparation.KeyLeIsTotalPreorder | Mikado/preparation/prepare.py:74-81 | the order by chromosome, then start, then end is total and transitive |
| Preparation.FlattenHas | Mikado/preparation/prepare.py:106-108 | every transcript kept at a key is yielded with that key |
| Preparation.FlattenFrom | Mikado/preparation/prepare.py:106-108 | every yielded item names a transcript kept at one of the keys |
| Preparation.FlattenSorted | Mikado/preparation/prepare.py:74-108 | keys in sorted order give items in sorted order |
| Preparation.SortKeysMembers | Mikado/preparation/prepare.py:74-81 | sorting the keys keeps exactly the keys |
| Preparation.KeepAt | Mikado/preparation/prepare.py:82-103 | the transcripts of one key are deduplicated |
| Preparation.Emit | Mikado/preparation/prepare.py:74-108 | the second pass yields the deduplicated transcripts of every key, keys in sorted order |
| Preparation.StoreTranscripts | Mikado/preparation/prepare.py:26-108 | store_transcripts fails with the first pass's KeyError, or yields the deduplicated transcripts of every key in sorted order |
| Preparation.StoredSorted | Mikado/preparation/prepare.py:74-81 | the items come out sorted by chromosome, then start, then end |
| Preparation.StoredSound | Mikado/preparation/prepare.py:56-108 | every yielded item is a transcript with exons, long enough, on the item's chromosome and spanning exactly the item's coordinates |
| Preparation.StoredComplete | Mikado/preparation/prepare.py:59-108 | every placed transcript is yielded, or another one with the same key and exon chain is |

## Left out

- Logging: every `logger` call is dropped; no model decision depends on it.
- Database, shelve and FASTA access: verified introns, BLAST hits and HSPs and the exon records are given inputs. The genome sequence used to extend ORFs in `pad_transcripts` is not read.
- `Assigner.compare`: the class code and the cDNA recall of a comparison are an oracle parameter `compare` of the locus methods.
- Scoring: the sub-scores come from a parameter `subScores`. The regressor branch of `calculate_scores` and the rounding in `print_scores` are not modelled.
- Clique and community finders: `find_cliques` and `find_communities` are parameters or given lists. `merge_cliques` with `BronKerbosch` in `load_cds` is the parameter `spansOf`.
- `Sublocus.define_monosubloci`, `MonosublocusHolder.in_locus` and `MonosublocusHolder.define_loci` are parameters (`monoOf`, `accepts`, `lociOf`). `Superlocus.in_locus` is the parameter `inLocus`. `_check_not_passing` is the input `notPassing`. `find_retained_introns` is the parameter `retainedIn`.
- Containers are modelled by their transcript ids: a sublocus or monosublocus is a set of ids, a holder is its list of monosubloci, and a locus is its id plus its primary's id.
- The sorting of subloci, monosubloci, loci and new superloci by the containers' own ordering is not modelled. The lists keep the order in which they are built.
- The part of `define_alternative_splicing` that adds each candidate, best score first, to its locus is not modelled. `Locus.AddTranscript` models a single addition.
- `compile_requirements` and the requirement and fragment expressions: these evaluate configuration text as code.
- `get_sublocus_metrics`, the `print_*` methods and the GFF output (`__str__`) are output formatting.
- The `Excluded` container is modelled as a map of the excluded transcripts. Its own metrics are not modelled.
- `locus_verified_introns`: the locus's set is modelled as a separate value. In the source it is the primary transcript's own set, shared by reference and mutated with it; that aliasing is not modelled.
- StripCds: `strip_cds` lives in the transcript class, which is not part of this model. Its effect at finalizing.py:439 is assumed: it empties the combined CDS and UTR, the segments and the internal ORFs, and clears the ORF selection. Any other change it makes (to the phases or the strand) is not modelled.
- Unfinalize: `unfinalize` lives in the transcript class, which is not part of this model. Its effect at finalizing.py:502-503 is assumed: it clears the finalized flag, the introns, the splice sites and both sets of CDS introns. Any other change it makes is not modelled.
- SelectedCds: the `selected_cds` property lives in the transcript class, which is not part of this model. It is taken to be the CDS segments of the selected internal ORF, sorted by coordinates, and empty when no ORF is selected or the index is out of range.
- SuperlocusDecomposition.Superlocus.DefineMonosubloci: `Sublocus.define_monosubloci` is the parameter `monoOf`, which yields only the monosubloci. Two other effects of superlocus.py:941-947 are not modelled. First, the `excluded_transcripts` that each call returns and the superlocus keeps. Second, the copy of each sublocus transcript's score back into `self.transcripts`.
- SuperlocusDecomposition.Superlocus.SplitStrands: the closing `raise StopIteration` of superlocus.py:360 is not modelled. From Python 3.7 on, raising it inside a generator becomes a RuntimeError once the loci have been yielded. The model returns the yielded groups.
- LegacyTranscript.GtAsWritten, LegacyTranscript.Gt, LegacyTranscript.Lt and LegacyTranscript.Le are orders on the compared fields. On objects, `__lt__` and `__le__` are the methods `LessThan` and `LessOrEqual`, which finalize both transcripts through `Equals` (this may raise). `__gt__` and `__ge__` are modelled on the fields only, so the finalization they cause through `__lt__` and `__eq__` is not captured.
- `pad_transcripts`: only the coordinates are modelled, through the choice of padded ends and the first and last exon. The ORF expansion over the genome sequence, `strip_cds`, `unfinalize` and the re-finalisation of the padded copy are not modelled.
- In `calculate_metrics`, the ORF copies are recorded by id only. Their metrics, and their place in the dict between the two loops, are not modelled. A transcript with several ORFs keeps its previous score.
- The split by CDS relies on collaborators outside the model: `__check_collisions`, `relocate_orfs`, `load_orfs` and the finalisation of each new transcript. The selected-CDS length of a new transcript is an oracle parameter `cds` over its exons, strand, ORFs and ends.
- Percentages of `__recalculate_hit` (`global_identity`, `global_positives`) are floating point. The model keeps the counts of identical and positive positions.
- IntervalTree searches are modelled as a filter on intervals that meet. The error IntervalTree raises on a null interval is not modelled, nor is the de-duplication of equal intervals in a tree.
- Target lengths are taken to be positive. The division by a zero target length at split_by_cds.py:126-127 is not modelled.
- The leniency setting takes three values. Any other configuration string behaves as LENIENT in the source, and the model gives it that behaviour.
- `split_by_cds` assumes `finalize` has already run. The number of internal ORFs is an input, and "a configuration is present and asks for the BLAST check" is one boolean.
- `random.choice` in `store_transcripts` is an arbitrary pick among the duplicates. `StoreTranscripts` is therefore specified by a relation that holds for some pick, not by one fixed output.
- `store_transcripts` is a generator: the model returns the whole list it yields. The nested `transcripts[chrom][(start, end)]` dict is a table keyed by (chromosome, start, end) and sorted once by that triple. The two nested `sorted` loops give the same order, since the keys are distinct.
- LegacyTranscript.LoadCds: the contract states only the outcome flag and the path where the transcript is not in the ORF dictionary. The path where it is in the dictionary is stated by LegacyTranscript.LoadOrfs, which LoadCds calls.
- Python string order, `str.format` and `%` formatting are modelled only as far as identifiers need: code-point order and decimal rendering of natural numbers.
- Python `assert` statements that can fail are error outcomes (AssertionError) of the model. Concurrency, the multiprocessing driver of `prepare`, `annotation_parser.py`, `log_utils.py` and `generate_metric_docs.py` are outside the model.

## Findings

| source | as written | input that shows it | evidently intended | confidence | as-written member | corrected member |
|---|---|---|---|---|---|---|
| loci_objects/transcript.py:498-507 | `greatest` is never updated, so the loop keeps the last ORF with a positive coding length | ORFs with 300 and 90 coding bases: index 1 is selected | the index of the longest ORF | high, not executed | LegacyTranscript.LastPositivePicksShorter | LegacyTranscript.FindLongest |
| loci_objects/transcript.py:154-155 | `__gt__` is `not self < other`, which also holds for equal transcripts | any transcript compared with itself is `>` itself | `>` as the converse of `<` | high, not executed | LegacyTranscript.GtAsWrittenReflexive | LegacyTranscript.GtIsStrictOrder |
| loci_objects/transcript.py:307 | `if c_start < c_end` drops a CDS piece of a single base on the plus strand; the minus branch keeps it | a plus-strand ORF whose first exon holds exactly one coding base | keep every non-empty CDS piece (`c_start <= c_end`) | medium, not executed | LegacyTranscript.PlusAsWrittenDropsBase | LegacyTranscript.PlusLoop |
| Mikado/loci/transcript_methods/finalizing.py:75 | the check only runs when the cDNA is longer than UTR plus CDS, so a surplus of coding data passes | a 100-base exon with 100 CDS and 10 UTR bases | raise InvalidCDS whenever the lengths differ | medium, not executed | Finalizing.CdnaVsUtrAsWrittenAcceptsSurplus | Finalizing.CdnaVsUtr |
| Mikado/loci/transcript_methods/finalizing.py:289-298 | the coding-exon filter compares an exon end, a number, with a segment's interval, a pair; Python 3 raises TypeError, which `finalize` does not catch | a single coding exon 1-300 with one CDS segment | compare exon coordinates with the coordinates of the coding segments | high, not executed | Finalizing.OrfCheckAsWrittenRejectsCodingExon | Finalizing.OrfCheck |
| mikado_lib/loci_objects/transcript_methods/split_by_cds.py:115-118 | `any([...] for ...)` tests non-empty lists, so it is true whenever there is any HSP | two ORFs hitting disjoint halves of one 100-residue target | keep together only when an HSP of the new ORF meets one of the old ORF | high, not executed | CdsSplit.CommonHitsFinding | CdsSplit.CheckCommonHits |
| mikado_lib/loci_objects/transcript_methods/split_by_cds.py:588 | the private helper is called as a bare name without its transcript argument | any transcript with two ORFs that should be split | call the helper on the transcript being split | high, not executed | CdsSplitTranscripts.SplitByCdsAsWritten | CdsSplitTranscripts.SplitByCds |
| mikado_lib/loci_objects/transcript_methods/split_by_cds.py:544-550 | `merge` is not defined in the module | any hit with an HSP that passes the overlap threshold | merge the query and target intervals (sort, then fuse overlapping ones) | high, not executed | HitRescoring.RecalculateHitAsWritten | HitRescoring.RecalculateHit |
| Mikado/loci/superlocus.py:693-706 | of two transcripts with the same introns and the same span, each marks the other, so both are removed | two identical transcripts adjacent in the graph | remove one of them and keep the other | medium, not executed | SuperlocusGraph.Level1AsWrittenRemovesBoth | SuperlocusGraph.Level1KeepsOne |
| Mikado/loci/locus.py:807-813 | the renamed primary is stored and then the old key is deleted; when both are the same key, the primary is lost | a locus whose primary is `L.1`, renamed to `L` | keep the primary under `<name>.1` | medium, not executed | LocusAssembly.RenameTwiceLosesPrimary | LocusAssembly.Locus.SetId |
| Mikado/loci/locus.py:171-196 | the retained-intron loop rescores after each deletion but the threshold is never checked again | primary `P`, isoforms `A` (retained intron) and `B`, all scoring 10 with `min_score_perc` 0.5; without `A`, `B` scores 1 and stays | repeat pruning and the retained-intron loop until nothing more is deleted, so every kept isoform is within the threshold | medium, not executed | LocusAssembly.SettleAsWrittenBelowThreshold | LocusAssembly.Settled |
| Mikado/preparation/prepare.py:52-57 | the warning says "continuing", but there is no `continue`, so `min` of no exons raises | a record with an empty exon list | skip the transcript | high, not executed | Preparation.EmptyExonListAborts | Preparation.PlacementMeaning |
