/** The sequential retriever: PMIDs read from a file, each expanded to its related dataset
    records, each record's design fetched under its normalised accession, and the rows
    accumulated in `rows_data`. The three remote lookups are oracles that answer `None`
    where the source's `except` branch is taken. */
module PubMedApi {
  import opened Seqs
  import opened Text
  import opened Records

  /** One row of `rows_data`. */
  datatype PubMedRow = PubMedRow(
    originalPmid: int,
    relatedPmid: int,
    gseCode: string,
    title: string,
    summary: string,
    overallDesign: Option<string>,
    experimentType: string,
    organism: string)

  /** An (outer PMID, related id) pair of the nested loop of `create_dataframe`. */
  datatype Link = Link(original: int, related: int)

  predicate StartsWithGds(code: string) {
    |code| >= 3 && code[..3] == "GDS"
  }

  /** The accession rewrite of `_get_overall_design`: a leading "GDS" becomes "GSE". */
  function NormalizeAccession(code: string): (r: string)
    ensures |r| == |code|
    ensures !StartsWithGds(r)
    ensures StartsWithGds(code) ==> r[..3] == "GSE" && r[3..] == code[3..]
    ensures !StartsWithGds(code) ==> r == code
  {
    if StartsWithGds(code) then "GSE" + code[3..] else code
  }

  /** Normalising twice is normalising once. */
  lemma NormalizeIdempotent(code: string)
    ensures NormalizeAccession(NormalizeAccession(code)) == NormalizeAccession(code)
  {
  }

  /** `_get_overall_design`: the design looked up under the normalised code. */
  function OverallDesign(gseCode: string, design: string -> Option<string>): Option<string> {
    design(NormalizeAccession(gseCode))
  }

  /** A GDS code and its GSE counterpart fetch the same design. */
  lemma OverallDesignGdsAlias(suffix: string, design: string -> Option<string>)
    ensures OverallDesign("GDS" + suffix, design) == OverallDesign("GSE" + suffix, design)
  {
    assert ("GDS" + suffix)[..3] == "GDS";
    assert ("GDS" + suffix)[3..] == suffix;
    assert !StartsWithGds("GSE" + suffix) by {
      assert ("GSE" + suffix)[2] == 'E';
    }
  }

  /** `_get_related_pmids`: the related ids, or `[]` on any failure. */
  function RelatedPmids(pmid: int, related: int -> Option<seq<int>>): (ids: seq<int>)
    ensures related(pmid).None? ==> ids == []
  {
    match related(pmid)
    case Some(ids) => ids
    case None => []
  }

  function LinksOf(pmid: int, ids: seq<int>): (ls: seq<Link>)
    ensures |ls| == |ids|
    ensures forall k :: 0 <= k < |ids| ==> ls[k] == Link(pmid, ids[k])
  {
    seq(|ids|, k requires 0 <= k < |ids| => Link(pmid, ids[k]))
  }

  /** The pairs the nested loop visits: by outer PMID, then by related id. */
  function NestedLinks(pmids: seq<int>, related: int -> Option<seq<int>>): seq<Link>
    decreases |pmids|
  {
    if pmids == [] then []
    else
      var n := |pmids| - 1;
      NestedLinks(pmids[..n], related) + LinksOf(pmids[n], RelatedPmids(pmids[n], related))
  }

  function RowOf(l: Link, d: PmData, design: string -> Option<string>): PubMedRow {
    PubMedRow(l.original, l.related, d.gseCode, d.title, d.summary, OverallDesign(d.gseCode, design),
              d.experimentType, d.organism)
  }

  /** The rows appended for `links`, and whether reading a field of a `None` record raised. */
  datatype Build = Build(rows: seq<PubMedRow>, raised: bool)

  function BuildRows(links: seq<Link>, info: int -> Option<PmData>, design: string -> Option<string>): Build
    decreases |links|
  {
    if links == [] then Build([], false)
    else
      var n := |links| - 1;
      var b := BuildRows(links[..n], info, design);
      if b.raised then b
      else match info(links[n].related)
        case None => Build(b.rows, true)
        case Some(d) => Build(b.rows + [RowOf(links[n], d, design)], false)
  }

  const NoneGseCode := "AttributeError: 'NoneType' object has no attribute 'GSE_code'"

  lemma BuildRowsSnoc(links: seq<Link>, l: Link, info: int -> Option<PmData>, design: string -> Option<string>)
    ensures var b := BuildRows(links, info, design);
            BuildRows(links + [l], info, design) ==
              if b.raised then b
              else match info(l.related)
                case None => Build(b.rows, true)
                case Some(d) => Build(b.rows + [RowOf(l, d, design)], false)
  {
    assert (links + [l])[..|links|] == links;
  }

  lemma NestedLinksSnoc(pmids: seq<int>, p: int, related: int -> Option<seq<int>>)
    ensures NestedLinks(pmids + [p], related) == NestedLinks(pmids, related) + LinksOf(p, RelatedPmids(p, related))
  {
    assert (pmids + [p])[..|pmids|] == pmids;
  }

  /** Without a failed record lookup, row `k` is built from link `k`: rows follow the outer
      PMIDs, then their related ids, one per link. */
  lemma {:induction false} BuildRowsComplete(links: seq<Link>, info: int -> Option<PmData>, design: string -> Option<string>)
    requires forall k :: 0 <= k < |links| ==> info(links[k].related).Some?
    ensures !BuildRows(links, info, design).raised
    ensures |BuildRows(links, info, design).rows| == |links|
    ensures forall k :: 0 <= k < |links| ==>
              BuildRows(links, info, design).rows[k] == RowOf(links[k], info(links[k].related).value, design)
    decreases |links|
  {
    if links != [] {
      var n := |links| - 1;
      BuildRowsComplete(links[..n], info, design);
      assert links[..n] + [links[n]] == links;
    }
  }

  /** The build raises exactly when some link's record lookup failed. */
  lemma {:induction false} BuildRowsRaises(links: seq<Link>, info: int -> Option<PmData>, design: string -> Option<string>)
    ensures BuildRows(links, info, design).raised <==> exists k :: 0 <= k < |links| && info(links[k].related).None?
    decreases |links|
  {
    if links != [] {
      var n := |links| - 1;
      BuildRowsRaises(links[..n], info, design);
      if exists k :: 0 <= k < n && info(links[..n][k].related).None? {
        var k :| 0 <= k < n && info(links[..n][k].related).None?;
        assert links[k] == links[..n][k];
      }
      if exists k :: 0 <= k < |links| && info(links[k].related).None? {
        var k :| 0 <= k < |links| && info(links[k].related).None?;
        if k < n {
          assert links[..n][k] == links[k];
        }
      }
    }
  }

  /** Every link of an outer PMID carries that PMID. */
  lemma {:induction false} NestedLinksOrigin(pmids: seq<int>, related: int -> Option<seq<int>>)
    ensures forall l :: l in NestedLinks(pmids, related) ==> l.original in pmids && l.related in RelatedPmids(l.original, related)
    decreases |pmids|
  {
    if pmids != [] {
      var n := |pmids| - 1;
      NestedLinksOrigin(pmids[..n], related);
      forall l | l in NestedLinks(pmids, related)
        ensures l.original in pmids && l.related in RelatedPmids(l.original, related)
      {
        if l in NestedLinks(pmids[..n], related) {
          assert l.original in pmids[..n];
        } else {
          var ids := RelatedPmids(pmids[n], related);
          var k :| 0 <= k < |ids| && l == LinksOf(pmids[n], ids)[k];
        }
      }
    }
  }

  /** The links visited number exactly the related ids of all outer PMIDs. */
  lemma {:induction false} NestedLinksCount(pmids: seq<int>, related: int -> Option<seq<int>>)
    ensures |NestedLinks(pmids, related)| == |Concat(RelatedLists(pmids, related))|
    decreases |pmids|
  {
    if pmids != [] {
      var n := |pmids| - 1;
      NestedLinksCount(pmids[..n], related);
      assert RelatedLists(pmids, related) == RelatedLists(pmids[..n], related) + [RelatedPmids(pmids[n], related)];
      ConcatOne(RelatedLists(pmids[..n], related), RelatedPmids(pmids[n], related));
    }
  }

  function RelatedLists(pmids: seq<int>, related: int -> Option<seq<int>>): (rs: seq<seq<int>>)
    ensures |rs| == |pmids|
  {
    seq(|pmids|, i requires 0 <= i < |pmids| => RelatedPmids(pmids[i], related))
  }

  /** Each row is built from a link: its outer PMID, its related id, that id's record, and
      the design of its accession, `None` when that lookup failed. */
  lemma {:induction false} BuildRowsFromLinks(links: seq<Link>, info: int -> Option<PmData>, design: string -> Option<string>)
    ensures forall row :: row in BuildRows(links, info, design).rows ==>
              exists k :: 0 <= k < |links| && info(links[k].related).Some? &&
                          row == RowOf(links[k], info(links[k].related).value, design)
    decreases |links|
  {
    if links != [] {
      var n := |links| - 1;
      BuildRowsFromLinks(links[..n], info, design);
      forall row | row in BuildRows(links, info, design).rows
        ensures exists k :: 0 <= k < |links| && info(links[k].related).Some? &&
                            row == RowOf(links[k], info(links[k].related).value, design)
      {
        if row in BuildRows(links[..n], info, design).rows {
          var k :| 0 <= k < n && info(links[..n][k].related).Some? &&
                   row == RowOf(links[..n][k], info(links[..n][k].related).value, design);
          assert links[k] == links[..n][k];
        }
      }
    }
  }

  /** An outer PMID whose related-id lookup failed contributes no row, and every row carries
      the design of its own accession (a failed design lookup leaves `None` in the row rather
      than dropping it). */
  lemma RowsOfFailedLookups(pmids: seq<int>, related: int -> Option<seq<int>>,
                            info: int -> Option<PmData>, design: string -> Option<string>, p: int)
    requires related(p).None?
    ensures forall row :: row in BuildRows(NestedLinks(pmids, related), info, design).rows ==>
              row.originalPmid != p && row.overallDesign == OverallDesign(row.gseCode, design)
  {
    var links := NestedLinks(pmids, related);
    NestedLinksOrigin(pmids, related);
    BuildRowsFromLinks(links, info, design);
    forall row | row in BuildRows(links, info, design).rows
      ensures row.originalPmid != p && row.overallDesign == OverallDesign(row.gseCode, design)
    {
      var k :| 0 <= k < |links| && info(links[k].related).Some? &&
               row == RowOf(links[k], info(links[k].related).value, design);
      assert links[k] in links;
    }
  }

  class PubMedApiClient {
    /** `self.pmids`. */
    var pmids: seq<int>
    /** `self.rows_data`, which no method clears. */
    var rowsData: seq<PubMedRow>
    /** `self.df`. */
    var df: seq<PubMedRow>

    constructor ()
      ensures pmids == [] && rowsData == [] && df == []
    {
      pmids := [];
      rowsData := [];
      df := [];
    }

    /** `_load_pmids_from_file` over the lines of the file. */
    method LoadPmidsFromFile(lines: seq<string>)
      modifies this
      ensures pmids == LoadedPmids(lines)
      ensures rowsData == old(rowsData) && df == old(df)
    {
      pmids := [];
      for i := 0 to |lines|
        invariant pmids == AppendNew([], LineValues(lines[..i]))
        invariant rowsData == old(rowsData) && df == old(df)
      {
        var line := Strip(lines[i]);
        ghost var vals := LineValues(lines[..i]);
        assert lines[..i + 1] == lines[..i] + [lines[i]];
        LineValuesAppend(lines[..i], lines[i]);
        if IsDigitString(line) {
          assert LineValues(lines[..i + 1]) == vals + [DigitsValue(line)];
          AppendNewSnoc([], vals, DigitsValue(line));
          if DigitsValue(line) !in pmids {
            pmids := pmids + [DigitsValue(line)];
          }
        } else {
          assert LineValues(lines[..i + 1]) == vals;
        }
      }
      assert lines[..|lines|] == lines;
    }

    /** `create_dataframe`: load the PMIDs, then append one row per (PMID, related id) pair to
        `rows_data`; `df` becomes all of `rows_data` unless a failed record lookup raised. */
    method CreateDataframe(lines: seq<string>, related: int -> Option<seq<int>>,
                           info: int -> Option<PmData>, design: string -> Option<string>)
      returns (res: Result<()>)
      modifies this
      ensures pmids == LoadedPmids(lines)
      ensures var b := BuildRows(NestedLinks(pmids, related), info, design);
              rowsData == old(rowsData) + b.rows &&
              (res.Err? <==> b.raised) &&
              (res.Err? ==> res.message == NoneGseCode && df == old(df)) &&
              (res.Ok? ==> df == rowsData)
    {
      LoadPmidsFromFile(lines);
      ghost var start := rowsData;
      assert NestedLinks(pmids[..0], related) == [];
      for i := 0 to |pmids|
        invariant pmids == LoadedPmids(lines) && df == old(df) && start == old(rowsData)
        invariant rowsData == start + BuildRows(NestedLinks(pmids[..i], related), info, design).rows
        invariant !BuildRows(NestedLinks(pmids[..i], related), info, design).raised
      {
        var pubmedIdx := pmids[i];
        var relatedPmds := RelatedPmids(pubmedIdx, related);
        ghost var before := NestedLinks(pmids[..i], related);
        var raised := AppendRowsOf(pubmedIdx, relatedPmds, info, design, start, before);
        OuterStep(pmids, i, related);
        assert before + LinksOf(pubmedIdx, relatedPmds) == NestedLinks(pmids[..i + 1], related);
        if raised {
          RaisedAtPmid(pmids, i, related, info, design);
          return Err(NoneGseCode);
        }
      }
      assert pmids[..|pmids|] == pmids;
      df := rowsData;
      res := Ok(());
    }

    /** The inner loop of `create_dataframe` for one outer PMID: a row per related id, until a
        record lookup fails. */
    method AppendRowsOf(pubmedIdx: int, relatedPmds: seq<int>, info: int -> Option<PmData>,
                        design: string -> Option<string>, ghost start: seq<PubMedRow>, ghost before: seq<Link>)
      returns (raised: bool)
      requires rowsData == start + BuildRows(before, info, design).rows
      requires !BuildRows(before, info, design).raised
      modifies this
      ensures var b := BuildRows(before + LinksOf(pubmedIdx, relatedPmds), info, design);
              raised == b.raised && rowsData == start + b.rows
      ensures pmids == old(pmids) && df == old(df)
    {
      assert before + LinksOf(pubmedIdx, relatedPmds[..0]) == before;
      for j := 0 to |relatedPmds|
        invariant pmids == old(pmids) && df == old(df)
        invariant rowsData == start + BuildRows(before + LinksOf(pubmedIdx, relatedPmds[..j]), info, design).rows
        invariant !BuildRows(before + LinksOf(pubmedIdx, relatedPmds[..j]), info, design).raised
      {
        var pmid := relatedPmds[j];
        ghost var visited := before + LinksOf(pubmedIdx, relatedPmds[..j]);
        VisitStep(before, pubmedIdx, relatedPmds, j);
        BuildRowsSnoc(visited, Link(pubmedIdx, pmid), info, design);
        var pmData := info(pmid);
        if pmData.None? {
          LinksOfSplitAt(before, pubmedIdx, relatedPmds, j + 1);
          BuildRowsRaisedPrefix(visited + [Link(pubmedIdx, pmid)], LinksOf(pubmedIdx, relatedPmds[j + 1..]), info, design);
          return true;
        }
        var overallDesign := OverallDesign(pmData.value.gseCode, design);
        var rowDict := PubMedRow(pubmedIdx, pmid, pmData.value.gseCode, pmData.value.title, pmData.value.summary,
                                 overallDesign, pmData.value.experimentType, pmData.value.organism);
        rowsData := rowsData + [rowDict];
      }
      assert relatedPmds[..|relatedPmds|] == relatedPmds;
      raised := false;
    }
  }

  lemma LinksOfSplitAt(before: seq<Link>, p: int, ids: seq<int>, k: nat)
    requires k <= |ids|
    ensures before + LinksOf(p, ids) == (before + LinksOf(p, ids[..k])) + LinksOf(p, ids[k..])
  {
    assert LinksOf(p, ids) == LinksOf(p, ids[..k]) + LinksOf(p, ids[k..]);
    AppendAssoc(before, LinksOf(p, ids[..k]), LinksOf(p, ids[k..]));
  }

  /** A raise while expanding outer PMID `i` is the raise of the whole build. */
  lemma RaisedAtPmid(pmids: seq<int>, i: nat, related: int -> Option<seq<int>>,
                     info: int -> Option<PmData>, design: string -> Option<string>)
    requires i < |pmids|
    requires BuildRows(NestedLinks(pmids[..i + 1], related), info, design).raised
    ensures BuildRows(NestedLinks(pmids, related), info, design) == BuildRows(NestedLinks(pmids[..i + 1], related), info, design)
  {
    NestedLinksSplit(pmids, i + 1, related);
    BuildRowsRaisedPrefix(NestedLinks(pmids[..i + 1], related), NestedLinksAfter(pmids, i + 1, related), info, design);
  }

  lemma VisitStep(before: seq<Link>, p: int, ids: seq<int>, j: nat)
    requires j < |ids|
    ensures before + LinksOf(p, ids[..j + 1]) == (before + LinksOf(p, ids[..j])) + [Link(p, ids[j])]
  {
    assert LinksOf(p, ids[..j + 1]) == LinksOf(p, ids[..j]) + [Link(p, ids[j])];
    AppendAssoc(before, LinksOf(p, ids[..j]), [Link(p, ids[j])]);
  }

  lemma OuterStep(pmids: seq<int>, i: nat, related: int -> Option<seq<int>>)
    requires i < |pmids|
    ensures var ids := RelatedPmids(pmids[i], related);
            NestedLinks(pmids[..i], related) + LinksOf(pmids[i], ids) == NestedLinks(pmids[..i + 1], related)
  {
    assert pmids[..i + 1] == pmids[..i] + [pmids[i]];
    NestedLinksSnoc(pmids[..i], pmids[i], related);
  }

  /** The links of the outer PMIDs from position `i` on. */
  function NestedLinksAfter(pmids: seq<int>, i: nat, related: int -> Option<seq<int>>): seq<Link>
    requires i <= |pmids|
    decreases |pmids| - i
  {
    if i == |pmids| then [] else LinksOf(pmids[i], RelatedPmids(pmids[i], related)) + NestedLinksAfter(pmids, i + 1, related)
  }

  lemma {:induction false} NestedLinksSplit(pmids: seq<int>, i: nat, related: int -> Option<seq<int>>)
    requires i <= |pmids|
    ensures NestedLinks(pmids, related) == NestedLinks(pmids[..i], related) + NestedLinksAfter(pmids, i, related)
    decreases |pmids| - i
  {
    if i == |pmids| {
      assert pmids[..i] == pmids;
    } else {
      NestedLinksSplit(pmids, i + 1, related);
      assert pmids[..i + 1] == pmids[..i] + [pmids[i]];
      NestedLinksSnoc(pmids[..i], pmids[i], related);
      AppendAssoc(NestedLinks(pmids[..i], related), LinksOf(pmids[i], RelatedPmids(pmids[i], related)),
                  NestedLinksAfter(pmids, i + 1, related));
    }
  }

  /** Once raised, later links change nothing. */
  lemma {:induction false} BuildRowsRaisedPrefix(a: seq<Link>, b: seq<Link>, info: int -> Option<PmData>, design: string -> Option<string>)
    requires BuildRows(a, info, design).raised
    ensures BuildRows(a + b, info, design) == BuildRows(a, info, design)
    decreases |b|
  {
    if b == [] {
      assert a + b == a;
    } else {
      var n := |b| - 1;
      BuildRowsRaisedPrefix(a, b[..n], info, design);
      assert a + b == (a + b[..n]) + [b[n]];
      BuildRowsSnoc(a + b[..n], b[n], info, design);
    }
  }
}
