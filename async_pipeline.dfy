/** The asynchronous catalogue-enrichment pipeline: PMIDs are resolved to dataset indices
    (stage 1), each distinct index is looked up in the summary service (stage 2), each
    accession code of the summaries is looked up in the design service (stage 3), and the
    three tables are left-joined.

    `asyncio.gather` yields its results in task order, so every fan-out is modelled as a
    sequential pass over its keys. Each remote request is an oracle that maps the key to
    the outcomes of its successive attempts; `Retry` gives what the retry loop makes of
    them. */
module AsyncPipeline {
  import opened Seqs
  import opened RetryLoop
  import opened Packaging
  import opened Records

  /** A row of `df_db`. */
  datatype DbRow = DbRow(pmid: int, dbId: int)

  /** A row of `df_info`. */
  datatype InfoRow = InfoRow(
    dbId: int,
    title: string,
    summary: string,
    experimentType: string,
    gseCode: string,
    organism: string)

  /** A row of `df_overall_design`; a failed lookup leaves `None`. */
  datatype DesignRow = DesignRow(gseCode: string, overallDesign: Option<string>)

  /** A row of the first join: the `df_info` columns are missing (NaN) when no info row matched. */
  datatype MergedRow = MergedRow(pmid: int, dbId: int, info: Option<InfoRow>)

  /** A row of the final table. */
  datatype FinalRow = FinalRow(pmid: int, dbId: int, info: Option<InfoRow>, overallDesign: Option<string>)

  // ---------------------------------------------------------------- stage 1

  /** What `_send_request_db_id` returns: the links on success, `[]` once all attempts failed. */
  function LinksResponse(outcomes: seq<Option<seq<int>>>): seq<int> {
    match Retry(outcomes, Quadratic).result
    case Some(links) => links
    case None => []
  }

  /** The links come from the first successful attempt, and are `[]` once all five failed. */
  lemma LinksResponseFacts(outcomes: seq<Option<seq<int>>>)
    ensures (forall i :: 0 <= i < RetrievalTimes ==> OutcomeAt(outcomes, i).None?) ==> LinksResponse(outcomes) == []
    ensures forall j ::
              (0 <= j < RetrievalTimes && OutcomeAt(outcomes, j).Some? &&
               (forall i :: 0 <= i < j ==> OutcomeAt(outcomes, i).None?)) ==>
              LinksResponse(outcomes) == OutcomeAt(outcomes, j).value
  {
    if forall i :: 0 <= i < RetrievalTimes ==> OutcomeAt(outcomes, i).None? {
      RetryExhausted(outcomes, Quadratic);
    }
    forall j | 0 <= j < RetrievalTimes && OutcomeAt(outcomes, j).Some? &&
               (forall i :: 0 <= i < j ==> OutcomeAt(outcomes, i).None?)
      ensures LinksResponse(outcomes) == OutcomeAt(outcomes, j).value
    {
      RetryFirstSuccess(outcomes, Quadratic, j);
    }
  }

  predicate LinksFailed(outcomes: seq<Option<seq<int>>>) {
    Retry(outcomes, Quadratic).result.None?
  }

  /** The stage-1 responses, one per PMID, in task order. */
  function LinksResponses(pmids: seq<int>, resolve: int -> seq<Option<seq<int>>>): (rs: seq<seq<int>>)
    ensures |rs| == |pmids|
  {
    seq(|pmids|, i requires 0 <= i < |pmids| => LinksResponse(resolve(pmids[i])))
  }

  /** The PMIDs whose links request failed, in task order. */
  function LinksFailures(pmids: seq<int>, resolve: int -> seq<Option<seq<int>>>): seq<int>
    decreases |pmids|
  {
    if pmids == [] then []
    else
      var last := pmids[|pmids| - 1];
      LinksFailures(pmids[..|pmids| - 1], resolve) + (if LinksFailed(resolve(last)) then [last] else [])
  }

  /** One row per returned index, in response order, each tagged with `pmid`. */
  function RowsOf(pmid: int, ids: seq<int>): (rows: seq<DbRow>)
    ensures |rows| == |ids|
    ensures forall k :: 0 <= k < |ids| ==> rows[k] == DbRow(pmid, ids[k])
  {
    seq(|ids|, k requires 0 <= k < |ids| => DbRow(pmid, ids[k]))
  }

  /** The rows of `responses`, the `i`-th response tagged with `tags[i]`. */
  function PairRows(tags: seq<int>, responses: seq<seq<int>>): seq<DbRow>
    requires |tags| == |responses|
    decreases |tags|
  {
    if tags == [] then []
    else
      PairRows(tags[..|tags| - 1], responses[..|responses| - 1])
        + RowsOf(tags[|tags| - 1], responses[|responses| - 1])
  }

  /** The PMID that `zip(pmid_list, responses_db)` pairs with the response of `pmid_list[i]`:
      the `i % 10`-th entry of the whole list, not of the chunk. */
  function AsWrittenTags(pmids: seq<int>): (tags: seq<int>)
    ensures |tags| == |pmids|
  {
    seq(|pmids|, i requires 0 <= i < |pmids| => pmids[i % Stride])
  }

  /** The stage-1 rows `_create_df_from_db_idx_api` builds. */
  function DbRowsAsWritten(pmids: seq<int>, responses: seq<seq<int>>): seq<DbRow>
    requires |pmids| == |responses|
  {
    PairRows(AsWrittenTags(pmids), responses)
  }

  /** The stage-1 rows with every response tagged with the PMID whose request produced it. */
  function DbRows(pmids: seq<int>, responses: seq<seq<int>>): seq<DbRow>
    requires |pmids| == |responses|
  {
    PairRows(pmids, responses)
  }

  lemma PairRowsSnoc(tags: seq<int>, responses: seq<seq<int>>, t: int, r: seq<int>)
    requires |tags| == |responses|
    ensures PairRows(tags + [t], responses + [r]) == PairRows(tags, responses) + RowsOf(t, r)
  {
    assert (tags + [t])[..|tags|] == tags;
    assert (responses + [r])[..|responses|] == responses;
  }

  /** Every row comes from some response slot, tagged with that slot's tag. */
  lemma {:induction false} PairRowsOrigin(tags: seq<int>, responses: seq<seq<int>>)
    requires |tags| == |responses|
    ensures forall row :: row in PairRows(tags, responses) ==>
              exists i :: 0 <= i < |tags| && row.pmid == tags[i] && row.dbId in responses[i]
    decreases |tags|
  {
    if tags != [] {
      var n := |tags| - 1;
      PairRowsOrigin(tags[..n], responses[..n]);
      forall row | row in PairRows(tags, responses)
        ensures exists i :: 0 <= i < |tags| && row.pmid == tags[i] && row.dbId in responses[i]
      {
        if row in PairRows(tags[..n], responses[..n]) {
          var i :| 0 <= i < n && row.pmid == tags[..n][i] && row.dbId in responses[..n][i];
          assert tags[i] == tags[..n][i] && responses[i] == responses[..n][i];
        } else {
          var k :| 0 <= k < |responses[n]| && row == RowsOf(tags[n], responses[n])[k];
          assert row.dbId == responses[n][k];
        }
      }
    }
  }

  /** Stage 1 yields exactly as many rows as the responses hold indices. */
  lemma {:induction false} PairRowsCount(tags: seq<int>, responses: seq<seq<int>>)
    requires |tags| == |responses|
    ensures |PairRows(tags, responses)| == |Concat(responses)|
    decreases |tags|
  {
    if tags != [] {
      var n := |tags| - 1;
      PairRowsCount(tags[..n], responses[..n]);
      assert responses == responses[..n] + [responses[n]];
      ConcatOne(responses[..n], responses[n]);
    }
  }

  /** With the PMID-tagged pairing, a PMID whose links request failed owns no stage-1 row. */
  lemma DbRowsFailureIsolation(pmids: seq<int>, resolve: int -> seq<Option<seq<int>>>, p: int)
    requires LinksFailed(resolve(p))
    ensures forall row :: row in DbRows(pmids, LinksResponses(pmids, resolve)) ==> row.pmid != p
  {
    PairRowsOrigin(pmids, LinksResponses(pmids, resolve));
  }

  /** For at most ten PMIDs the source's pairing is the intended one. */
  lemma AsWrittenAgreesUpToTen(pmids: seq<int>, responses: seq<seq<int>>)
    requires |pmids| == |responses| && |pmids| <= Stride
    ensures DbRowsAsWritten(pmids, responses) == DbRows(pmids, responses)
  {
    assert AsWrittenTags(pmids) == pmids;
  }

  /** Tagging when a single response slot `m` returned the single index `d`. */
  lemma {:induction false} PairRowsSingle(tags: seq<int>, responses: seq<seq<int>>, m: nat, d: int)
    requires |tags| == |responses| && m < |tags|
    requires responses[m] == [d]
    requires forall i :: 0 <= i < |responses| && i != m ==> responses[i] == []
    ensures PairRows(tags, responses) == [DbRow(tags[m], d)]
    decreases |tags|
  {
    var n := |tags| - 1;
    if n == m {
      PairRowsEmpty(tags[..n], responses[..n]);
    } else {
      PairRowsSingle(tags[..n], responses[..n], m, d);
    }
  }

  lemma {:induction false} PairRowsEmpty(tags: seq<int>, responses: seq<seq<int>>)
    requires |tags| == |responses|
    requires forall i :: 0 <= i < |responses| ==> responses[i] == []
    ensures PairRows(tags, responses) == []
    decreases |tags|
  {
    if tags != [] {
      PairRowsEmpty(tags[..|tags| - 1], responses[..|responses| - 1]);
    }
  }

  /** The pairing at `zip(pmid_list, responses_db)`: with eleven PMIDs where only the eleventh
      has a linked dataset `d`, the source tags that row with the first PMID, whose own
      request may have failed, while the intended pairing tags it with the eleventh. */
  lemma PairingBugWitness(pmids: seq<int>, responses: seq<seq<int>>, d: int)
    requires |pmids| == |responses| == Stride + 1
    requires responses[Stride] == [d]
    requires forall i :: 0 <= i < Stride ==> responses[i] == []
    ensures DbRowsAsWritten(pmids, responses) == [DbRow(pmids[0], d)]
    ensures DbRows(pmids, responses) == [DbRow(pmids[Stride], d)]
  {
    PairRowsSingle(AsWrittenTags(pmids), responses, Stride, d);
    PairRowsSingle(pmids, responses, Stride, d);
  }

  // ---------------------------------------------------------------- stage 2

  /** What `_send_request_info` returns: the record, or `None` once all attempts failed. */
  function SummaryResponse(outcomes: seq<Option<PmData>>): Option<PmData> {
    Retry(outcomes, Exponential).result
  }

  function SummaryResponses(ids: seq<int>, summary: int -> seq<Option<PmData>>): (rs: seq<Option<PmData>>)
    ensures |rs| == |ids|
  {
    seq(|ids|, i requires 0 <= i < |ids| => SummaryResponse(summary(ids[i])))
  }

  /** The indices whose summary request failed, in task order. */
  function SummaryFailures(ids: seq<int>, summary: int -> seq<Option<PmData>>): seq<int>
    decreases |ids|
  {
    if ids == [] then []
    else
      var last := ids[|ids| - 1];
      SummaryFailures(ids[..|ids| - 1], summary) + (if SummaryResponse(summary(last)).None? then [last] else [])
  }

  function InfoRowOf(id: int, d: PmData): InfoRow {
    InfoRow(id, d.title, d.summary, d.experimentType, d.gseCode, d.organism)
  }

  /** The loop state of `_create_df_from_info_api`: `info_rows`, `unique_db_idx_set`, and
      whether an exception ended the loop. */
  datatype InfoState = InfoState(rows: seq<InfoRow>, seen: set<int>, crashed: bool)

  /** One `(response, db_idx)` pair. As written (`skipFailed == false`), reading `.Title` of a
      `None` response raises; the corrected step skips a failed index instead. */
  function InfoStep(st: InfoState, id: int, response: Option<PmData>, skipFailed: bool): InfoState {
    if st.crashed || id in st.seen then st
    else match response
      case Some(d) => InfoState(st.rows + [InfoRowOf(id, d)], st.seen + {id}, false)
      case None => if skipFailed then st else st.(crashed := true)
  }

  /** The loop over the pairs, from the state `st`. */
  function InfoFoldFrom(st: InfoState, ids: seq<int>, responses: seq<Option<PmData>>, skipFailed: bool): InfoState
    requires |ids| == |responses|
    decreases |ids|
  {
    if ids == [] then st
    else
      var n := |ids| - 1;
      InfoStep(InfoFoldFrom(st, ids[..n], responses[..n], skipFailed), ids[n], responses[n], skipFailed)
  }

  /** The loop over all pairs, from no rows and an empty set. */
  function InfoFold(ids: seq<int>, responses: seq<Option<PmData>>, skipFailed: bool): InfoState
    requires |ids| == |responses|
  {
    InfoFoldFrom(InfoState([], {}, false), ids, responses, skipFailed)
  }

  /** Running the loop over two lists of pairs in turn is running it over their concatenation. */
  lemma {:induction false} InfoFoldFromAppend(st: InfoState, a: seq<int>, ra: seq<Option<PmData>>,
                                              b: seq<int>, rb: seq<Option<PmData>>, skipFailed: bool)
    requires |a| == |ra| && |b| == |rb|
    ensures InfoFoldFrom(st, a + b, ra + rb, skipFailed) ==
            InfoFoldFrom(InfoFoldFrom(st, a, ra, skipFailed), b, rb, skipFailed)
    decreases |b|
  {
    if b == [] {
      assert a + b == a && ra + rb == ra;
    } else {
      var n := |b| - 1;
      InfoFoldFromAppend(st, a, ra, b[..n], rb[..n], skipFailed);
      assert (a + b)[..|a| + n] == a + b[..n];
      assert (ra + rb)[..|ra| + n] == ra + rb[..n];
    }
  }

  /** Once raised, the exception ends the loop: the state no longer changes. */
  lemma {:induction false} InfoFoldFromCrashed(st: InfoState, ids: seq<int>, responses: seq<Option<PmData>>, skipFailed: bool)
    requires |ids| == |responses| && st.crashed
    ensures InfoFoldFrom(st, ids, responses, skipFailed) == st
    decreases |ids|
  {
    if ids != [] {
      InfoFoldFromCrashed(st, ids[..|ids| - 1], responses[..|responses| - 1], skipFailed);
    }
  }

  const NoneTitle := "AttributeError: 'NoneType' object has no attribute 'Title'"

  /** The info rows `_create_df_from_info_api` builds, or the exception it raises. */
  function InfoRowsAsWritten(ids: seq<int>, responses: seq<Option<PmData>>): Result<seq<InfoRow>>
    requires |ids| == |responses|
  {
    var st := InfoFold(ids, responses, false);
    if st.crashed then Err(NoneTitle) else Ok(st.rows)
  }

  /** The info rows with failed indices left out, as the failure list intends. */
  function InfoRows(ids: seq<int>, responses: seq<Option<PmData>>): seq<InfoRow>
    requires |ids| == |responses|
  {
    InfoFold(ids, responses, true).rows
  }

  /** `df_info['db_id']`. */
  function RowIds(rows: seq<InfoRow>): (r: seq<int>)
    ensures |r| == |rows|
    ensures forall k :: 0 <= k < |rows| ==> r[k] == rows[k].dbId
  {
    seq(|rows|, k requires 0 <= k < |rows| => rows[k].dbId)
  }

  lemma RowIdsSnoc(rows: seq<InfoRow>, row: InfoRow)
    ensures RowIds(rows + [row]) == RowIds(rows) + [row.dbId]
  {
    assert forall k :: 0 <= k < |rows| ==> (rows + [row])[k] == rows[k];
  }

  /** The indices of `ids` whose response succeeded, in order. */
  function SucceededIds(ids: seq<int>, responses: seq<Option<PmData>>): seq<int>
    requires |ids| == |responses|
    decreases |ids|
  {
    if ids == [] then []
    else
      var n := |ids| - 1;
      SucceededIds(ids[..n], responses[..n]) + (if responses[n].Some? then [ids[n]] else [])
  }

  /** The fold's `seen` set is the set of ids of its rows, which are distinct, each row
      carrying the data of its response. */
  lemma InfoFoldFacts(ids: seq<int>, responses: seq<Option<PmData>>, skipFailed: bool)
    requires |ids| == |responses|
    ensures var st := InfoFold(ids, responses, skipFailed);
      (skipFailed ==> !st.crashed) &&
      NoDups(RowIds(st.rows)) &&
      (forall x :: x in st.seen <==> x in RowIds(st.rows)) &&
      (forall x :: x in st.seen ==> x in ids) &&
      (forall k :: 0 <= k < |st.rows| ==>
         exists i :: 0 <= i < |ids| && responses[i].Some? && st.rows[k] == InfoRowOf(ids[i], responses[i].value))
  {
    InfoFoldSeen(ids, responses, skipFailed);
    InfoFoldRowSources(ids, responses, skipFailed);
  }

  lemma {:induction false} InfoFoldSeen(ids: seq<int>, responses: seq<Option<PmData>>, skipFailed: bool)
    requires |ids| == |responses|
    ensures var st := InfoFold(ids, responses, skipFailed);
      (skipFailed ==> !st.crashed) &&
      NoDups(RowIds(st.rows)) &&
      (forall x :: x in st.seen <==> x in RowIds(st.rows)) &&
      (forall x :: x in st.seen ==> x in ids)
    decreases |ids|
  {
    if ids != [] {
      var n := |ids| - 1;
      InfoFoldSeen(ids[..n], responses[..n], skipFailed);
      var pre := InfoFold(ids[..n], responses[..n], skipFailed);
      assert InfoFold(ids, responses, skipFailed) == InfoStep(pre, ids[n], responses[n], skipFailed);
      assert forall x :: x in pre.seen ==> x in ids by {
        forall x | x in pre.seen ensures x in ids {
          var i :| 0 <= i < n && ids[..n][i] == x;
          assert ids[i] == x;
        }
      }
      if !pre.crashed && ids[n] !in pre.seen && responses[n].Some? {
        RowIdsSnoc(pre.rows, InfoRowOf(ids[n], responses[n].value));
      }
    }
  }

  lemma {:induction false} InfoFoldRowSources(ids: seq<int>, responses: seq<Option<PmData>>, skipFailed: bool)
    requires |ids| == |responses|
    ensures var st := InfoFold(ids, responses, skipFailed);
      forall k :: 0 <= k < |st.rows| ==>
        exists i :: 0 <= i < |ids| && responses[i].Some? && st.rows[k] == InfoRowOf(ids[i], responses[i].value)
    decreases |ids|
  {
    if ids != [] {
      var n := |ids| - 1;
      InfoFoldRowSources(ids[..n], responses[..n], skipFailed);
      var pre := InfoFold(ids[..n], responses[..n], skipFailed);
      var st := InfoFold(ids, responses, skipFailed);
      assert st == InfoStep(pre, ids[n], responses[n], skipFailed);
      forall k | 0 <= k < |st.rows|
        ensures exists i :: 0 <= i < |ids| && responses[i].Some? && st.rows[k] == InfoRowOf(ids[i], responses[i].value)
      {
        if k < |pre.rows| {
          assert st.rows[k] == pre.rows[k];
          var i :| 0 <= i < n && responses[..n][i].Some? && pre.rows[k] == InfoRowOf(ids[..n][i], responses[..n][i].value);
          assert ids[i] == ids[..n][i] && responses[i] == responses[..n][i];
        } else {
          assert st.rows[k] == InfoRowOf(ids[n], responses[n].value);
        }
      }
    }
  }

  /** Stage 2 calls the summary service once per distinct index (its input is deduplicated),
      and the info table holds at most one row per index, each built from that index's response. */
  lemma InfoRowsUnique(ids: seq<int>, responses: seq<Option<PmData>>)
    requires |ids| == |responses|
    ensures NoDups(RowIds(InfoRows(ids, responses)))
    ensures InfoRowsAsWritten(ids, responses).Ok? ==> NoDups(RowIds(InfoRowsAsWritten(ids, responses).value))
    ensures forall row :: row in InfoRows(ids, responses) ==>
              exists i :: 0 <= i < |ids| && responses[i].Some? && row == InfoRowOf(ids[i], responses[i].value)
  {
    InfoFoldFacts(ids, responses, true);
    InfoFoldFacts(ids, responses, false);
  }

  /** For distinct indices, the corrected stage 2 keeps one row for each index whose lookup
      succeeded, in input order. */
  lemma {:induction false} InfoRowsKeepSucceeded(ids: seq<int>, responses: seq<Option<PmData>>)
    requires |ids| == |responses| && NoDups(ids)
    ensures RowIds(InfoRows(ids, responses)) == SucceededIds(ids, responses)
    decreases |ids|
  {
    if ids != [] {
      var n := |ids| - 1;
      assert NoDups(ids[..n]);
      InfoRowsKeepSucceeded(ids[..n], responses[..n]);
      InfoFoldFacts(ids[..n], responses[..n], true);
      var pre := InfoFold(ids[..n], responses[..n], true);
      assert ids[n] !in pre.seen;
      if responses[n].Some? {
        assert InfoRows(ids, responses) == pre.rows + [InfoRowOf(ids[n], responses[n].value)];
        RowIdsSnoc(pre.rows, InfoRowOf(ids[n], responses[n].value));
      }
    }
  }

  /** As written, a failed summary lookup for an index (the same one the failure list records)
      makes stage 2 raise instead of leaving that index out; the corrected stage leaves it out. */
  lemma {:induction false} InfoCrashOnFailedLookup(ids: seq<int>, responses: seq<Option<PmData>>, m: nat)
    requires |ids| == |responses| && NoDups(ids)
    requires m < |ids| && responses[m].None?
    ensures InfoRowsAsWritten(ids, responses).Err?
    ensures ids[m] !in RowIds(InfoRows(ids, responses))
    decreases |ids|
  {
    var n := |ids| - 1;
    InfoRowsKeepSucceeded(ids, responses);
    SucceededIdsMembers(ids, responses);
    if m < n {
      assert NoDups(ids[..n]);
      InfoCrashOnFailedLookup(ids[..n], responses[..n], m);
    } else {
      InfoFoldFacts(ids[..n], responses[..n], false);
      assert ids[n] !in ids[..n];
    }
  }

  lemma {:induction false} SucceededIdsMembers(ids: seq<int>, responses: seq<Option<PmData>>)
    requires |ids| == |responses| && NoDups(ids)
    ensures forall i :: 0 <= i < |ids| ==> (ids[i] in SucceededIds(ids, responses) <==> responses[i].Some?)
    decreases |ids|
  {
    if ids != [] {
      var n := |ids| - 1;
      assert NoDups(ids[..n]);
      SucceededIdsMembers(ids[..n], responses[..n]);
      SucceededIdsSubset(ids[..n], responses[..n]);
      forall i | 0 <= i < |ids| ensures ids[i] in SucceededIds(ids, responses) <==> responses[i].Some? {
        if i < n {
          assert ids[..n][i] == ids[i] && responses[..n][i] == responses[i];
          assert ids[n] != ids[i];
        } else {
          assert ids[n] !in ids[..n];
        }
      }
    }
  }

  lemma {:induction false} SucceededIdsSubset(ids: seq<int>, responses: seq<Option<PmData>>)
    requires |ids| == |responses|
    ensures forall x :: x in SucceededIds(ids, responses) ==> x in ids
    decreases |ids|
  {
    if ids != [] {
      var n := |ids| - 1;
      SucceededIdsSubset(ids[..n], responses[..n]);
      assert forall x :: x in ids[..n] ==> x in ids;
    }
  }

  // ---------------------------------------------------------------- stage 3

  /** What `_send_request_overall_design` returns once its parser is awaited and reads the
      XML as the sequential client does (`xmltodict.parse`): the design, or `None` once all
      attempts failed. */
  function DesignResponse(outcomes: seq<Option<string>>): Option<string> {
    Retry(outcomes, Fixed).result
  }

  /** A successful design attempt as written: `overall_design_xml_parser` is `async` and
      line 118 calls it without `await`, so the attempt returns the coroutine object of that
      call rather than the design text. */
  datatype DesignCell = DesignText(text: string) | UnawaitedParser

  /** The attempt outcomes as the loop of `_send_request_overall_design` sees them as written:
      every successful `get` yields the un-run parser. */
  function AsWrittenDesignOutcomes(outcomes: seq<Option<string>>): (r: seq<Option<DesignCell>>)
    ensures |r| == |outcomes|
  {
    seq(|outcomes|, i requires 0 <= i < |outcomes| => if outcomes[i].Some? then Some(UnawaitedParser) else None)
  }

  /** What `_send_request_overall_design` returns as written. */
  function DesignResponseAsWritten(outcomes: seq<Option<string>>): Option<DesignCell> {
    Retry(AsWrittenDesignOutcomes(outcomes), Fixed).result
  }

  /** As written, the design lookup returns something exactly when the corrected one (parser
      awaited, XML parsed) would, and what it returns is never the design text. */
  lemma DesignTextLost(outcomes: seq<Option<string>>)
    ensures DesignResponseAsWritten(outcomes).Some? <==> DesignResponse(outcomes).Some?
    ensures DesignResponseAsWritten(outcomes).Some? ==> DesignResponseAsWritten(outcomes).value == UnawaitedParser
  {
    var m := AsWrittenDesignOutcomes(outcomes);
    forall i: nat ensures OutcomeAt(m, i) == if OutcomeAt(outcomes, i).Some? then Some(UnawaitedParser) else None {
    }
    RetryBounded(m, Fixed);
    RetryBounded(outcomes, Fixed);
  }

  /** A design service that answers at once: the corrected lookup gives its text, the lookup
      as written gives the un-run parser. */
  lemma DesignTextLostWitness()
    ensures DesignResponse([Some("two groups")]) == Some("two groups")
    ensures DesignResponseAsWritten([Some("two groups")]) == Some(UnawaitedParser)
  {
    RetryFirstSuccess([Some("two groups")], Fixed, 0);
    var m := AsWrittenDesignOutcomes([Some("two groups")]);
    assert m[0] == Some(UnawaitedParser);
    RetryFirstSuccess(m, Fixed, 0);
  }

  /** The attempt outcomes when the parser is awaited but left as written: `response.text()`
      gives a `str`, and indexing it with `["MINiML"]` raises a TypeError inside the `try`, so
      every attempt fails, whatever the service answers. */
  function AwaitedUnparsedOutcomes(outcomes: seq<Option<string>>): (r: seq<Option<string>>)
    ensures |r| == |outcomes|
  {
    seq(|outcomes|, i requires 0 <= i < |outcomes| => None)
  }

  /** Awaiting the parser alone does not recover the design: the loop then always sleeps five
      times and returns `None`. */
  lemma AwaitAloneStillFails(outcomes: seq<Option<string>>)
    ensures Retry(AwaitedUnparsedOutcomes(outcomes), Fixed) == Attempts(None, Delays(Fixed, RetrievalTimes))
  {
    var m := AwaitedUnparsedOutcomes(outcomes);
    forall i | 0 <= i < RetrievalTimes ensures OutcomeAt(m, i).None? {
    }
    RetryExhausted(m, Fixed);
  }

  /** `df_info['GSE_code']`: the codes of the info rows in row order, duplicates kept and
      GDS codes not rewritten. */
  function GseCodes(rows: seq<InfoRow>): (codes: seq<string>)
    ensures |codes| == |rows|
    ensures forall k :: 0 <= k < |rows| ==> codes[k] == rows[k].gseCode
  {
    seq(|rows|, k requires 0 <= k < |rows| => rows[k].gseCode)
  }

  /** The design table: one row per code, in code order, holding that code's lookup. */
  function DesignRows(codes: seq<string>, design: string -> seq<Option<string>>): (rows: seq<DesignRow>)
    ensures |rows| == |codes|
    ensures forall k :: 0 <= k < |codes| ==> rows[k] == DesignRow(codes[k], DesignResponse(design(codes[k])))
  {
    seq(|codes|, k requires 0 <= k < |codes| => DesignRow(codes[k], DesignResponse(design(codes[k]))))
  }

  // ---------------------------------------------------------------- joins

  /** The info rows whose `db_id` is `id`, in table order. */
  function InfoMatches(rows: seq<InfoRow>, id: int): (ms: seq<InfoRow>)
    ensures forall r :: r in ms ==> r in rows && r.dbId == id
    decreases |rows|
  {
    if rows == [] then []
    else (if rows[0].dbId == id then [rows[0]] else []) + InfoMatches(rows[1..], id)
  }

  /** One left row of `df_db.merge(df_info, on='db_id', how='left')`. */
  function ExpandInfo(l: DbRow, rows: seq<InfoRow>): seq<MergedRow> {
    var ms := InfoMatches(rows, l.dbId);
    if ms == [] then [MergedRow(l.pmid, l.dbId, None)]
    else seq(|ms|, k requires 0 <= k < |ms| => MergedRow(l.pmid, l.dbId, Some(ms[k])))
  }

  function MergeInfo(left: seq<DbRow>, rows: seq<InfoRow>): seq<MergedRow>
    decreases |left|
  {
    if left == [] then [] else ExpandInfo(left[0], rows) + MergeInfo(left[1..], rows)
  }

  /** The design rows whose code is that of `info`; a row without info has a NaN code,
      which matches no design row. */
  function DesignMatches(rows: seq<DesignRow>, info: Option<InfoRow>): seq<DesignRow>
    decreases |rows|
  {
    if rows == [] || info.None? then []
    else (if rows[0].gseCode == info.value.gseCode then [rows[0]] else []) + DesignMatches(rows[1..], info)
  }

  /** One left row of `combined_1.merge(df_overall_design, on='GSE_code', how='left')`. */
  function ExpandDesign(m: MergedRow, rows: seq<DesignRow>): seq<FinalRow> {
    var ms := DesignMatches(rows, m.info);
    if ms == [] then [FinalRow(m.pmid, m.dbId, m.info, None)]
    else seq(|ms|, k requires 0 <= k < |ms| => FinalRow(m.pmid, m.dbId, m.info, ms[k].overallDesign))
  }

  function MergeDesign(left: seq<MergedRow>, rows: seq<DesignRow>): seq<FinalRow>
    decreases |left|
  {
    if left == [] then [] else ExpandDesign(left[0], rows) + MergeDesign(left[1..], rows)
  }

  /** `_combined_all_df`. */
  function CombinedAllDf(dbRows: seq<DbRow>, infoRows: seq<InfoRow>, designRows: seq<DesignRow>): seq<FinalRow> {
    MergeDesign(MergeInfo(dbRows, infoRows), designRows)
  }

  function Max1(n: nat): nat {
    if n == 0 then 1 else n
  }

  /** The size of a left join: each left row counts its matches, and at least once. */
  function InfoJoinSize(left: seq<DbRow>, rows: seq<InfoRow>): nat
    decreases |left|
  {
    if left == [] then 0 else Max1(|InfoMatches(rows, left[0].dbId)|) + InfoJoinSize(left[1..], rows)
  }

  function DesignJoinSize(left: seq<MergedRow>, rows: seq<DesignRow>): nat
    decreases |left|
  {
    if left == [] then 0 else Max1(|DesignMatches(rows, left[0].info)|) + DesignJoinSize(left[1..], rows)
  }

  lemma {:induction false} MergeInfoSize(left: seq<DbRow>, rows: seq<InfoRow>)
    ensures |MergeInfo(left, rows)| == InfoJoinSize(left, rows)
    ensures |MergeInfo(left, rows)| >= |left|
    decreases |left|
  {
    if left != [] {
      MergeInfoSize(left[1..], rows);
    }
  }

  lemma {:induction false} MergeDesignSize(left: seq<MergedRow>, rows: seq<DesignRow>)
    ensures |MergeDesign(left, rows)| == DesignJoinSize(left, rows)
    ensures |MergeDesign(left, rows)| >= |left|
    decreases |left|
  {
    if left != [] {
      MergeDesignSize(left[1..], rows);
    }
  }

  lemma {:induction false} InfoMatchesOfUnique(rows: seq<InfoRow>, id: int)
    requires NoDups(RowIds(rows))
    ensures |InfoMatches(rows, id)| <= 1
    ensures id in RowIds(rows) <==> |InfoMatches(rows, id)| == 1
    decreases |rows|
  {
    if rows != [] {
      var rest := rows[1..];
      assert RowIds(rest) == RowIds(rows)[1..];
      InfoMatchesOfUnique(rest, id);
      if rows[0].dbId == id {
        assert id !in RowIds(rest);
      }
      assert id in RowIds(rows) <==> rows[0].dbId == id || id in RowIds(rest);
    }
  }

  /** `m` is the stage-1 row `l` widened with the info row of its index, if there is one. */
  predicate JoinedWith(m: MergedRow, l: DbRow, rows: seq<InfoRow>) {
    m.pmid == l.pmid && m.dbId == l.dbId &&
    (m.info.Some? <==> l.dbId in RowIds(rows)) &&
    (m.info.Some? ==> m.info.value in rows && m.info.value.dbId == l.dbId)
  }

  /** When the info table holds one row per index (as stage 2 guarantees), the first join is
      row-for-row: it keeps every stage-1 row in order and attaches the info of its index
      exactly when there is one. */
  lemma {:induction false} MergeInfoOneToOne(left: seq<DbRow>, rows: seq<InfoRow>)
    requires NoDups(RowIds(rows))
    ensures |MergeInfo(left, rows)| == |left|
    ensures forall i :: 0 <= i < |left| ==> JoinedWith(MergeInfo(left, rows)[i], left[i], rows)
    decreases |left|
  {
    if left != [] {
      MergeInfoOneToOne(left[1..], rows);
      ExpandInfoOfUnique(left[0], rows);
      var e := ExpandInfo(left[0], rows);
      var reste := MergeInfo(left[1..], rows);
      var m := e + reste;
      assert MergeInfo(left, rows) == m;
      forall i | 0 <= i < |left| ensures JoinedWith(m[i], left[i], rows) {
        if i > 0 {
          assert m[i] == reste[i - 1] && left[i] == left[1..][i - 1];
        }
      }
    }
  }

  /** Against a table unique by index, one stage-1 row expands to exactly one joined row. */
  lemma ExpandInfoOfUnique(l: DbRow, rows: seq<InfoRow>)
    requires NoDups(RowIds(rows))
    ensures |ExpandInfo(l, rows)| == 1 && JoinedWith(ExpandInfo(l, rows)[0], l, rows)
  {
    InfoMatchesOfUnique(rows, l.dbId);
    var ms := InfoMatches(rows, l.dbId);
    if ms != [] {
      assert ms[0] in ms;
    }
  }

  /** Every joined row carries the PMID and index of a stage-1 row. */
  lemma {:induction false} CombinedFromLeft(dbRows: seq<DbRow>, infoRows: seq<InfoRow>, designRows: seq<DesignRow>)
    ensures forall f :: f in CombinedAllDf(dbRows, infoRows, designRows) ==> DbRow(f.pmid, f.dbId) in dbRows
  {
    MergeInfoFromLeft(dbRows, infoRows);
    MergeDesignFromLeft(MergeInfo(dbRows, infoRows), designRows);
  }

  lemma {:induction false} MergeInfoFromLeft(left: seq<DbRow>, rows: seq<InfoRow>)
    ensures forall m :: m in MergeInfo(left, rows) ==> DbRow(m.pmid, m.dbId) in left
    decreases |left|
  {
    if left != [] {
      MergeInfoFromLeft(left[1..], rows);
      forall m | m in MergeInfo(left, rows) ensures DbRow(m.pmid, m.dbId) in left {
        if m in ExpandInfo(left[0], rows) {
          assert DbRow(m.pmid, m.dbId) == left[0];
        } else {
          assert m in MergeInfo(left[1..], rows);
        }
      }
    }
  }

  lemma {:induction false} MergeDesignFromLeft(left: seq<MergedRow>, rows: seq<DesignRow>)
    ensures forall f :: f in MergeDesign(left, rows) ==> exists m :: m in left && m.pmid == f.pmid && m.dbId == f.dbId
    decreases |left|
  {
    if left != [] {
      MergeDesignFromLeft(left[1..], rows);
      forall f | f in MergeDesign(left, rows) ensures exists m :: m in left && m.pmid == f.pmid && m.dbId == f.dbId {
        if f in ExpandDesign(left[0], rows) {
          assert left[0] in left;
        } else {
          assert f in MergeDesign(left[1..], rows);
          var m :| m in left[1..] && m.pmid == f.pmid && m.dbId == f.dbId;
          assert m in left;
        }
      }
    }
  }

  // ---------------------------------------------------------------- corrected pipeline

  /** The pipeline with the stage-1 pairing and the stage-2 failure handling corrected:
      PMID-tagged stage-1 rows, distinct indices, info rows for the indices that succeeded,
      one design lookup per info row, and the two left joins. */
  function Pipeline(pmids: seq<int>, resolve: int -> seq<Option<seq<int>>>,
                    summary: int -> seq<Option<PmData>>, design: string -> seq<Option<string>>): seq<FinalRow>
  {
    var dbRows := DbRows(pmids, LinksResponses(pmids, resolve));
    var dbList := Dedup(DbIds(dbRows));
    var infoRows := InfoRows(dbList, SummaryResponses(dbList, summary));
    CombinedAllDf(dbRows, infoRows, DesignRows(GseCodes(infoRows), design))
  }

  /** `df_db['db_id']`: the same column projection as `RowIds`, taken of the stage-1 rows,
      which are of another row type than the info rows. */
  function DbIds(rows: seq<DbRow>): (ids: seq<int>)
    ensures |ids| == |rows|
    ensures forall k :: 0 <= k < |rows| ==> ids[k] == rows[k].dbId
  {
    seq(|rows|, k requires 0 <= k < |rows| => rows[k].dbId)
  }

  /** Failure isolation: a PMID whose links request failed appears in no output row, and the
      first join keeps every stage-1 row once. */
  lemma PipelineFailureIsolation(pmids: seq<int>, resolve: int -> seq<Option<seq<int>>>,
                                 summary: int -> seq<Option<PmData>>, design: string -> seq<Option<string>>, p: int)
    requires LinksFailed(resolve(p))
    ensures forall f :: f in Pipeline(pmids, resolve, summary, design) ==> f.pmid != p
  {
    var dbRows := DbRows(pmids, LinksResponses(pmids, resolve));
    var dbList := Dedup(DbIds(dbRows));
    var infoRows := InfoRows(dbList, SummaryResponses(dbList, summary));
    CombinedFromLeft(dbRows, infoRows, DesignRows(GseCodes(infoRows), design));
    DbRowsFailureIsolation(pmids, resolve, p);
  }

  // ---------------------------------------------------------------- the pipeline as written

  /** `pd.DataFrame([])['db_id']` on an empty stage-1 table. */
  const NoDbId := "KeyError: 'db_id'"
  /** `pd.DataFrame([])['GSE_code']` on an empty info table. */
  const NoGseCode := "KeyError: 'GSE_code'"

  /** What `main_async_call` computes as `final_df`, or the exception it raises. */
  function MainAsyncCallResult(pmids: seq<int>, resolve: int -> seq<Option<seq<int>>>,
                               summary: int -> seq<Option<PmData>>, design: string -> seq<Option<string>>)
    : Result<seq<FinalRow>>
  {
    var dbRows := DbRowsAsWritten(pmids, LinksResponses(pmids, resolve));
    if dbRows == [] then Err(NoDbId)
    else
      var dbList := Dedup(DbIds(dbRows));
      match InfoRowsAsWritten(dbList, SummaryResponses(dbList, summary))
      case Err(e) => Err(e)
      case Ok(infoRows) =>
        if infoRows == [] then Err(NoGseCode)
        else Ok(CombinedAllDf(dbRows, infoRows, DesignRows(GseCodes(infoRows), design)))
  }

  lemma {:induction false} InfoFoldWithoutFailures(ids: seq<int>, responses: seq<Option<PmData>>)
    requires |ids| == |responses|
    requires forall i :: 0 <= i < |responses| ==> responses[i].Some?
    ensures InfoFold(ids, responses, false) == InfoFold(ids, responses, true)
    decreases |ids|
  {
    if ids != [] {
      var n := |ids| - 1;
      InfoFoldWithoutFailures(ids[..n], responses[..n]);
    }
  }

  lemma {:induction false} SucceededIdsAll(ids: seq<int>, responses: seq<Option<PmData>>)
    requires |ids| == |responses|
    requires forall i :: 0 <= i < |responses| ==> responses[i].Some?
    ensures SucceededIds(ids, responses) == ids
    decreases |ids|
  {
    if ids != [] {
      var n := |ids| - 1;
      SucceededIdsAll(ids[..n], responses[..n]);
      assert ids == ids[..n] + [ids[n]];
    }
  }

  /** When the PMIDs fit in one package, some index is linked and the summary lookup of no
      linked index fails, the source computes the corrected pipeline. */
  lemma MainAgreesWithPipeline(pmids: seq<int>, resolve: int -> seq<Option<seq<int>>>,
                               summary: int -> seq<Option<PmData>>, design: string -> seq<Option<string>>)
    requires |pmids| <= Stride
    requires DbRows(pmids, LinksResponses(pmids, resolve)) != []
    requires forall row :: row in DbRows(pmids, LinksResponses(pmids, resolve)) ==> SummaryResponse(summary(row.dbId)).Some?
    ensures MainAsyncCallResult(pmids, resolve, summary, design) == Ok(Pipeline(pmids, resolve, summary, design))
  {
    var resps := LinksResponses(pmids, resolve);
    AsWrittenAgreesUpToTen(pmids, resps);
    var dbRows := DbRows(pmids, resps);
    var dbList := Dedup(DbIds(dbRows));
    var infoResps := SummaryResponses(dbList, summary);
    DedupFirstSeen(DbIds(dbRows));
    forall i | 0 <= i < |infoResps| ensures infoResps[i].Some? {
      var id := dbList[i];
      assert id in DbIds(dbRows);
      var k :| 0 <= k < |dbRows| && DbIds(dbRows)[k] == id;
      assert dbRows[k] in dbRows;
      assert SummaryResponse(summary(id)).Some?;
    }
    InfoFoldWithoutFailures(dbList, infoResps);
    InfoFoldFacts(dbList, infoResps, true);
    var infoRows := InfoRows(dbList, infoResps);
    assert InfoRowsAsWritten(dbList, infoResps) == Ok(infoRows);
    assert dbRows[0].dbId in DbIds(dbRows);
    InfoRowsKeepSucceeded(dbList, infoResps);
    SucceededIdsAll(dbList, infoResps);
    assert |infoRows| == |dbList| > 0;
  }

  /** `min(10 * c, n)`: where the first `c` packages of a list of length `n` end. */
  function ChunkEnd(c: nat, n: nat): (e: nat)
    ensures e <= n
    ensures e == n || e == Stride * c
  {
    if Stride * c <= n then Stride * c else n
  }

  /** Stage 2 did not crash before package `c` and crashed within it. */
  predicate CrashesInChunk(ids: seq<int>, responses: seq<Option<PmData>>, c: nat)
    requires |ids| == |responses|
  {
    var n := |ids|;
    !InfoFold(ids[..ChunkEnd(c, n)], responses[..ChunkEnd(c, n)], false).crashed &&
    InfoFold(ids[..ChunkEnd(c + 1, n)], responses[..ChunkEnd(c + 1, n)], false).crashed
  }

  /** How `failed_db_idx` grows in stage 2: by every failed index when the stage completes;
      by the failed indices of the packages up to the one whose evaluation raised, when it
      crashes (the whole package's requests are gathered before its rows are built). */
  predicate InfoFailuresRecorded(before: seq<int>, after: seq<int>, ids: seq<int>,
                                 summary: int -> seq<Option<PmData>>, crashed: bool)
  {
    var responses := SummaryResponses(ids, summary);
    if !crashed then after == before + SummaryFailures(ids, summary)
    else exists c: nat :: c < PackageCount(|ids|) && CrashesInChunk(ids, responses, c) &&
           after == before + SummaryFailures(ids[..ChunkEnd(c + 1, |ids|)], summary)
  }

  lemma {:induction false} PairRowsAppend(t1: seq<int>, r1: seq<seq<int>>, t2: seq<int>, r2: seq<seq<int>>)
    requires |t1| == |r1| && |t2| == |r2|
    ensures PairRows(t1 + t2, r1 + r2) == PairRows(t1, r1) + PairRows(t2, r2)
    decreases |t2|
  {
    if t2 == [] {
      assert t1 + t2 == t1 && r1 + r2 == r1;
    } else {
      var n := |t2| - 1;
      var t, r := t2[..n], r2[..n];
      assert t2 == t + [t2[n]] && r2 == r + [r2[n]];
      AppendAssoc(t1, t, [t2[n]]);
      AppendAssoc(r1, r, [r2[n]]);
      PairRowsAppend(t1, r1, t, r);
      PairRowsSnoc(t1 + t, r1 + r, t2[n], r2[n]);
      PairRowsSnoc(t, r, t2[n], r2[n]);
      AppendAssoc(PairRows(t1, r1), PairRows(t, r), RowsOf(t2[n], r2[n]));
    }
  }

  lemma {:induction false} LinksFailuresAppend(a: seq<int>, b: seq<int>, resolve: int -> seq<Option<seq<int>>>)
    ensures LinksFailures(a + b, resolve) == LinksFailures(a, resolve) + LinksFailures(b, resolve)
    decreases |b|
  {
    if b == [] {
      assert a + b == a;
    } else {
      var n := |b| - 1;
      var b' := b[..n];
      assert (a + b)[..|a| + n] == a + b';
      LinksFailuresAppend(a, b', resolve);
      assert LinksFailures(b, resolve) == LinksFailures(b', resolve) + LinksFailures([b[n]], resolve) by {
        assert b' == b[..|b| - 1];
      }
      AppendAssoc(LinksFailures(a, resolve), LinksFailures(b', resolve), LinksFailures([b[n]], resolve));
    }
  }

  lemma {:induction false} SummaryFailuresAppend(a: seq<int>, b: seq<int>, summary: int -> seq<Option<PmData>>)
    ensures SummaryFailures(a + b, summary) == SummaryFailures(a, summary) + SummaryFailures(b, summary)
    decreases |b|
  {
    if b == [] {
      assert a + b == a;
    } else {
      var n := |b| - 1;
      var b' := b[..n];
      assert (a + b)[..|a| + n] == a + b';
      SummaryFailuresAppend(a, b', summary);
      assert SummaryFailures(b, summary) == SummaryFailures(b', summary) + SummaryFailures([b[n]], summary) by {
        assert b' == b[..|b| - 1];
      }
      AppendAssoc(SummaryFailures(a, summary), SummaryFailures(b', summary), SummaryFailures([b[n]], summary));
    }
  }

  lemma PairRowsPrefix(tags: seq<int>, responses: seq<seq<int>>, j: nat)
    requires j < |tags| && j < |responses|
    ensures PairRows(tags[..j + 1], responses[..j + 1]) == PairRows(tags[..j], responses[..j]) + RowsOf(tags[j], responses[j])
  {
    assert tags[..j + 1][..j] == tags[..j];
    assert responses[..j + 1][..j] == responses[..j];
  }

  lemma LinksFailuresPrefix(pmids: seq<int>, j: nat, resolve: int -> seq<Option<seq<int>>>)
    requires j < |pmids|
    ensures LinksFailures(pmids[..j + 1], resolve) ==
            LinksFailures(pmids[..j], resolve) + (if LinksFailed(resolve(pmids[j])) then [pmids[j]] else [])
  {
    assert pmids[..j + 1][..j] == pmids[..j];
  }

  lemma SummaryFailuresPrefix(ids: seq<int>, j: nat, summary: int -> seq<Option<PmData>>)
    requires j < |ids|
    ensures SummaryFailures(ids[..j + 1], summary) ==
            SummaryFailures(ids[..j], summary) + (if SummaryResponse(summary(ids[j])).None? then [ids[j]] else [])
  {
    assert ids[..j + 1][..j] == ids[..j];
  }

  lemma InfoFoldPrefix(ids: seq<int>, responses: seq<Option<PmData>>, j: nat, skipFailed: bool)
    requires |ids| == |responses| && j < |ids|
    ensures InfoFold(ids[..j + 1], responses[..j + 1], skipFailed) ==
            InfoStep(InfoFold(ids[..j], responses[..j], skipFailed), ids[j], responses[j], skipFailed)
  {
    assert ids[..j + 1][..j] == ids[..j];
    assert responses[..j + 1][..j] == responses[..j];
  }

  /** Once the evaluation has raised, it stays raised. */
  lemma {:induction false} InfoFoldCrashPersists(ids: seq<int>, responses: seq<Option<PmData>>, i: nat, j: nat)
    requires |ids| == |responses| && i <= j <= |ids|
    requires InfoFold(ids[..i], responses[..i], false).crashed
    ensures InfoFold(ids[..j], responses[..j], false).crashed
    decreases j - i
  {
    if i < j {
      InfoFoldPrefix(ids, responses, i, false);
      InfoFoldCrashPersists(ids, responses, i + 1, j);
    }
  }

  lemma ChunkBounds(c: nat, n: nat)
    requires c < PackageCount(n)
    ensures ChunkEnd(c, n) == Stride * c < n
    ensures ChunkEnd(c + 1, n) == Min(Stride * c + DefaultPackageSize, n)
  {
  }

  /** Inside a package, the source's tags are the head of the whole list. */
  lemma PackageTags(pmidList: seq<int>, start: nat, stop: nat)
    requires start % Stride == 0 && start <= stop <= |pmidList| && stop - start <= Stride
    ensures AsWrittenTags(pmidList)[start..stop] == pmidList[..stop - start]
  {
    var tags := AsWrittenTags(pmidList);
    forall j | 0 <= j < stop - start ensures tags[start..stop][j] == pmidList[j] {
      OffsetInPackage(start, j);
      assert tags[start..stop][j] == tags[start + j] == pmidList[(start + j) % Stride];
    }
  }

  /** An offset below the stride from a package start is its own remainder. */
  lemma OffsetInPackage(start: nat, j: nat)
    requires start % Stride == 0 && j < Stride
    ensures (start + j) % Stride == j
  {
    assert start == Stride * (start / Stride);
  }

  /** The stage-1 rows and failures of the first packages and of the next one. */
  lemma PackageSlices(pmidList: seq<int>, resolve: int -> seq<Option<seq<int>>>, start: nat, stop: nat)
    requires start % Stride == 0 && start <= stop <= |pmidList| && stop - start <= Stride
    ensures var tags, resps := AsWrittenTags(pmidList), LinksResponses(pmidList, resolve);
            resps[start..stop] == LinksResponses(pmidList[start..stop], resolve) &&
            PairRows(tags[..stop], resps[..stop]) ==
              PairRows(tags[..start], resps[..start]) + PairRows(pmidList[..stop - start], resps[start..stop])
    ensures LinksFailures(pmidList[..stop], resolve) ==
            LinksFailures(pmidList[..start], resolve) + LinksFailures(pmidList[start..stop], resolve)
  {
    PackageRowSlices(pmidList, resolve, start, stop);
    PackageFailureSlices(pmidList, resolve, start, stop);
  }

  lemma PackageRowSlices(pmidList: seq<int>, resolve: int -> seq<Option<seq<int>>>, start: nat, stop: nat)
    requires start % Stride == 0 && start <= stop <= |pmidList| && stop - start <= Stride
    ensures var tags, resps := AsWrittenTags(pmidList), LinksResponses(pmidList, resolve);
            resps[start..stop] == LinksResponses(pmidList[start..stop], resolve) &&
            PairRows(tags[..stop], resps[..stop]) ==
              PairRows(tags[..start], resps[..start]) + PairRows(pmidList[..stop - start], resps[start..stop])
  {
    var tags, resps := AsWrittenTags(pmidList), LinksResponses(pmidList, resolve);
    PackageTags(pmidList, start, stop);
    LinksResponsesSlice(pmidList, resolve, start, stop);
    PairRowsSplit(tags, resps, start, stop);
  }

  lemma LinksResponsesSlice(pmids: seq<int>, resolve: int -> seq<Option<seq<int>>>, start: nat, stop: nat)
    requires start <= stop <= |pmids|
    ensures LinksResponses(pmids, resolve)[start..stop] == LinksResponses(pmids[start..stop], resolve)
  {
  }

  lemma PairRowsSplit(tags: seq<int>, resps: seq<seq<int>>, start: nat, stop: nat)
    requires |tags| == |resps| && start <= stop <= |tags|
    ensures PairRows(tags[..stop], resps[..stop]) ==
            PairRows(tags[..start], resps[..start]) + PairRows(tags[start..stop], resps[start..stop])
  {
    var t1, t2, r1, r2 := tags[..start], tags[start..stop], resps[..start], resps[start..stop];
    SliceSplit(tags, start, stop);
    SliceSplit(resps, start, stop);
    PairRowsAppend(t1, r1, t2, r2);
  }

  lemma PackageFailureSlices(pmidList: seq<int>, resolve: int -> seq<Option<seq<int>>>, start: nat, stop: nat)
    requires start <= stop <= |pmidList|
    ensures LinksFailures(pmidList[..stop], resolve) ==
            LinksFailures(pmidList[..start], resolve) + LinksFailures(pmidList[start..stop], resolve)
  {
    var p1, p2 := pmidList[..start], pmidList[start..stop];
    SliceSplit(pmidList, start, stop);
    assert pmidList[..stop] == p1 + p2;
    LinksFailuresAppend(p1, p2, resolve);
  }

  lemma SummarySlices(dbList: seq<int>, summary: int -> seq<Option<PmData>>, resps: seq<Option<PmData>>, start: nat, stop: nat)
    requires resps == SummaryResponses(dbList, summary)
    requires start <= stop <= |dbList|
    ensures resps[start..stop] == SummaryResponses(dbList[start..stop], summary)
    ensures dbList[..stop] == dbList[..start] + dbList[start..stop]
    ensures resps[..stop] == resps[..start] + resps[start..stop]
    ensures SummaryFailures(dbList[..stop], summary) ==
            SummaryFailures(dbList[..start], summary) + SummaryFailures(dbList[start..stop], summary)
  {
    SliceSplit(dbList, start, stop);
    SliceSplit(resps, start, stop);
    SummaryFailuresAppend(dbList[..start], dbList[start..stop], summary);
  }

  /** One package of stage 1: the whole-list rows and failures up to the end of package `c`
      are those up to its start followed by those of the package. */
  lemma DbPackageStep(pmidList: seq<int>, resolve: int -> seq<Option<seq<int>>>, c: nat)
    requires c < PackageCount(|pmidList|)
    ensures var n, chunk := |pmidList|, Packages(pmidList, DefaultPackageSize)[c];
            var tags, resps := AsWrittenTags(pmidList), LinksResponses(pmidList, resolve);
            |chunk| <= n &&
            PairRows(tags[..ChunkEnd(c + 1, n)], resps[..ChunkEnd(c + 1, n)]) ==
              PairRows(tags[..ChunkEnd(c, n)], resps[..ChunkEnd(c, n)]) + PairRows(pmidList[..|chunk|], LinksResponses(chunk, resolve)) &&
            LinksFailures(pmidList[..ChunkEnd(c + 1, n)], resolve) ==
              LinksFailures(pmidList[..ChunkEnd(c, n)], resolve) + LinksFailures(chunk, resolve)
  {
    var n := |pmidList|;
    var start, stop := ChunkEnd(c, n), ChunkEnd(c + 1, n);
    ChunkBounds(c, n);
    var chunk := Packages(pmidList, DefaultPackageSize)[c];
    assert chunk == pmidList[start .. stop];
    assert |chunk| == stop - start;
    PackageSlices(pmidList, resolve, start, stop);
  }

  /** One turn of the package loop of stage 1, with the zip over the whole PMID list. */
  lemma DbRowsStep(pmidList: seq<int>, resolve: int -> seq<Option<seq<int>>>, c: nat)
    requires c < PackageCount(|pmidList|)
    ensures var n, chunk := |pmidList|, Packages(pmidList, DefaultPackageSize)[c];
            var tags, resps := AsWrittenTags(pmidList), LinksResponses(pmidList, resolve);
            var responsesDb := LinksResponses(chunk, resolve);
            var m := Min(|pmidList|, |responsesDb|);
            PairRows(tags[..ChunkEnd(c, n)], resps[..ChunkEnd(c, n)]) + PairRows(pmidList[..m], responsesDb[..m]) ==
              PairRows(tags[..ChunkEnd(c + 1, n)], resps[..ChunkEnd(c + 1, n)])
  {
    var chunk := Packages(pmidList, DefaultPackageSize)[c];
    var responsesDb := LinksResponses(chunk, resolve);
    DbPackageStep(pmidList, resolve, c);
    assert Min(|pmidList|, |responsesDb|) == |chunk|;
    assert responsesDb[..|chunk|] == responsesDb;
  }

  /** The same turn for `failed_pmid`: the package's failures extend those before it. */
  lemma DbFailuresStep(pmidList: seq<int>, resolve: int -> seq<Option<seq<int>>>, c: nat, before: seq<int>)
    requires c < PackageCount(|pmidList|)
    ensures var n, chunk := |pmidList|, Packages(pmidList, DefaultPackageSize)[c];
            (before + LinksFailures(pmidList[..ChunkEnd(c, n)], resolve)) + LinksFailures(chunk, resolve) ==
              before + LinksFailures(pmidList[..ChunkEnd(c + 1, n)], resolve)
  {
    var n, chunk := |pmidList|, Packages(pmidList, DefaultPackageSize)[c];
    DbPackageStep(pmidList, resolve, c);
    AppendAssoc(before, LinksFailures(pmidList[..ChunkEnd(c, n)], resolve), LinksFailures(chunk, resolve));
  }

  /** After the last package, the prefixes are the whole lists. */
  lemma DbPackagesDone(pmidList: seq<int>, resolve: int -> seq<Option<seq<int>>>)
    ensures var n := |pmidList|;
            ChunkEnd(PackageCount(n), n) == n &&
            PairRows(AsWrittenTags(pmidList)[..n], LinksResponses(pmidList, resolve)[..n]) ==
              DbRowsAsWritten(pmidList, LinksResponses(pmidList, resolve)) &&
            LinksFailures(pmidList[..n], resolve) == LinksFailures(pmidList, resolve)
  {
    var n := |pmidList|;
    assert AsWrittenTags(pmidList)[..n] == AsWrittenTags(pmidList);
    assert LinksResponses(pmidList, resolve)[..n] == LinksResponses(pmidList, resolve);
    assert pmidList[..n] == pmidList;
  }

  lemma InfoPackagesDone(dbList: seq<int>, summary: int -> seq<Option<PmData>>)
    ensures var n := |dbList|;
            ChunkEnd(PackageCount(n), n) == n &&
            InfoFold(dbList[..n], SummaryResponses(dbList, summary)[..n], false) ==
              InfoFold(dbList, SummaryResponses(dbList, summary), false) &&
            SummaryFailures(dbList[..n], summary) == SummaryFailures(dbList, summary)
  {
    var n := |dbList|;
    assert SummaryResponses(dbList, summary)[..n] == SummaryResponses(dbList, summary);
    assert dbList[..n] == dbList;
  }

  /** One package of stage 2, likewise for the evaluation state and the failures. */
  lemma InfoPackageStep(dbList: seq<int>, summary: int -> seq<Option<PmData>>, c: nat)
    requires c < PackageCount(|dbList|)
    ensures var n, chunk := |dbList|, Packages(dbList, DefaultPackageSize)[c];
            var resps := SummaryResponses(dbList, summary);
            InfoFold(dbList[..ChunkEnd(c + 1, n)], resps[..ChunkEnd(c + 1, n)], false) ==
              InfoFoldFrom(InfoFold(dbList[..ChunkEnd(c, n)], resps[..ChunkEnd(c, n)], false),
                           chunk, SummaryResponses(chunk, summary), false) &&
            SummaryFailures(dbList[..ChunkEnd(c + 1, n)], summary) ==
              SummaryFailures(dbList[..ChunkEnd(c, n)], summary) + SummaryFailures(chunk, summary)
  {
    var n := |dbList|;
    var resps := SummaryResponses(dbList, summary);
    var start, stop := ChunkEnd(c, n), ChunkEnd(c + 1, n);
    ChunkBounds(c, n);
    var chunk := Packages(dbList, DefaultPackageSize)[c];
    assert chunk == dbList[start .. stop];
    SummarySlices(dbList, summary, resps, start, stop);
    InfoFoldFromAppend(InfoState([], {}, false), dbList[..start], resps[..start], chunk, resps[start..stop], false);
  }

  /** A crash in package `c` after none before it: the failures recorded so far are those
      `InfoFailuresRecorded` allows for a crash, and the whole evaluation raises. */
  lemma InfoCrashWitness(dbList: seq<int>, summary: int -> seq<Option<PmData>>, c: nat, before: seq<int>, after: seq<int>)
    requires c < PackageCount(|dbList|)
    requires var n, resps := |dbList|, SummaryResponses(dbList, summary);
             !InfoFold(dbList[..ChunkEnd(c, n)], resps[..ChunkEnd(c, n)], false).crashed &&
             InfoFold(dbList[..ChunkEnd(c + 1, n)], resps[..ChunkEnd(c + 1, n)], false).crashed
    requires after == before + SummaryFailures(dbList[..ChunkEnd(c + 1, |dbList|)], summary)
    ensures InfoFailuresRecorded(before, after, dbList, summary, true)
    ensures InfoRowsAsWritten(dbList, SummaryResponses(dbList, summary)) == Err(NoneTitle)
  {
    var n, resps := |dbList|, SummaryResponses(dbList, summary);
    assert CrashesInChunk(dbList, resps, c);
    InfoFoldCrashPersists(dbList, resps, ChunkEnd(c + 1, n), n);
    assert dbList[..n] == dbList && resps[..n] == resps;
  }

  class AsyncDataRetriever {
    /** `failed_pmid`: the PMIDs whose links request used up its attempts. */
    var failedPmid: seq<int>
    /** `failed_db_idx`: the indices whose summary request used up its attempts. */
    var failedDbIdx: seq<int>

    constructor ()
      ensures failedPmid == [] && failedDbIdx == []
    {
      failedPmid := [];
      failedDbIdx := [];
    }

    /** `divide_into_packages(list_to_chunks, package_size=10)`. */
    static method DivideIntoPackages<T>(xs: seq<T>, packageSize: nat := DefaultPackageSize) returns (chunks: seq<seq<T>>)
      ensures chunks == Packages(xs, packageSize)
    {
      chunks := [];
      var i := 0;
      while i < |xs|
        invariant i == Stride * |chunks| && |chunks| <= PackageCount(|xs|)
        invariant forall k :: 0 <= k < |chunks| ==> chunks[k] == xs[Stride * k .. Min(Stride * k + packageSize, |xs|)]
      {
        chunks := chunks + [xs[i .. Min(i + packageSize, |xs|)]];
        i := i + Stride;
      }
    }

    /** `_send_request_db_id`: the retry loop with quadratic back-off; `[]` and an entry in
        `failed_pmid` once every attempt failed. */
    method SendRequestDbId(pmid: int, outcomes: seq<Option<seq<int>>>) returns (links: seq<int>, delays: seq<nat>)
      modifies this`failedPmid
      ensures links == LinksResponse(outcomes)
      ensures delays == Retry(outcomes, Quadratic).delays
      ensures failedPmid == old(failedPmid) + (if LinksFailed(outcomes) then [pmid] else [])
      ensures failedDbIdx == old(failedDbIdx)
    {
      var result;
      result, delays := SendWithRetry(outcomes, Quadratic);
      if result.Some? {
        return result.value, delays;
      }
      failedPmid := failedPmid + [pmid];
      links := [];
    }

    /** `_send_request_info`: the retry loop with exponential back-off; `None` and an entry in
        `failed_db_idx` once every attempt failed. */
    method SendRequestInfo(id: int, outcomes: seq<Option<PmData>>) returns (data: Option<PmData>, delays: seq<nat>)
      modifies this`failedDbIdx
      ensures data == SummaryResponse(outcomes)
      ensures delays == Retry(outcomes, Exponential).delays
      ensures failedDbIdx == old(failedDbIdx) + (if data.None? then [id] else [])
      ensures failedPmid == old(failedPmid)
    {
      data, delays := SendWithRetry(outcomes, Exponential);
      if data.None? {
        failedDbIdx := failedDbIdx + [id];
      }
    }

    /** `_send_request_overall_design`: the retry loop with a fixed one-second pause; `None`
        once every attempt failed, and no failure list is touched. */
    method SendRequestOverallDesign(gseCode: string, outcomes: seq<Option<string>>) returns (design: Option<string>, delays: seq<nat>)
      ensures design == DesignResponse(outcomes)
      ensures delays == Retry(outcomes, Fixed).delays
      ensures |delays| <= RetrievalTimes && (design.None? <==> |delays| == RetrievalTimes)
    {
      RetryBounded(outcomes, Fixed);
      RetryNoneSleepsEvery(outcomes, Fixed);
      design, delays := SendWithRetry(outcomes, Fixed);
    }

    /** The inner `for atomic_response in response` loop of stage 1. */
    static method AppendRows(rows: seq<DbRow>, pmid: int, response: seq<int>) returns (r: seq<DbRow>)
      ensures r == rows + RowsOf(pmid, response)
    {
      r := rows;
      for k := 0 to |response|
        invariant r == rows + RowsOf(pmid, response[..k])
      {
        r := r + [DbRow(pmid, response[k])];
      }
      assert response[..|response|] == response;
    }

    /** The links requests of one package, gathered in task order. */
    method GatherLinks(chunk: seq<int>, resolve: int -> seq<Option<seq<int>>>) returns (responses: seq<seq<int>>)
      modifies this`failedPmid
      ensures responses == LinksResponses(chunk, resolve)
      ensures failedPmid == old(failedPmid) + LinksFailures(chunk, resolve)
      ensures failedDbIdx == old(failedDbIdx)
    {
      responses := [];
      for k := 0 to |chunk|
        invariant responses == LinksResponses(chunk[..k], resolve)
        invariant failedPmid == old(failedPmid) + LinksFailures(chunk[..k], resolve)
        invariant failedDbIdx == old(failedDbIdx)
      {
        var links, delays := SendRequestDbId(chunk[k], resolve(chunk[k]));
        LinksFailuresPrefix(chunk, k, resolve);
        responses := responses + [links];
      }
      assert chunk[..|chunk|] == chunk;
    }

    /** `for pmid, response in zip(pmid_list, responses_db)`: the rows of a package's responses. */
    static method ZipRows(rows: seq<DbRow>, pmidList: seq<int>, responsesDb: seq<seq<int>>) returns (r: seq<DbRow>)
      ensures var m := Min(|pmidList|, |responsesDb|);
              r == rows + PairRows(pmidList[..m], responsesDb[..m])
    {
      r := rows;
      var j := 0;
      while j < |pmidList| && j < |responsesDb|
        invariant 0 <= j <= Min(|pmidList|, |responsesDb|)
        invariant r == rows + PairRows(pmidList[..j], responsesDb[..j])
      {
        PairRowsPrefix(pmidList, responsesDb, j);
        r := AppendRows(r, pmidList[j], responsesDb[j]);
        j := j + 1;
      }
    }

    /** `_create_df_from_db_idx_api`: per package, one links request per PMID, then the
        responses zipped with the head of the whole PMID list. */
    method CreateDfFromDbIdxApi(pmidList: seq<int>, resolve: int -> seq<Option<seq<int>>>) returns (dbRows: seq<DbRow>)
      modifies this`failedPmid
      ensures dbRows == DbRowsAsWritten(pmidList, LinksResponses(pmidList, resolve))
      ensures failedPmid == old(failedPmid) + LinksFailures(pmidList, resolve)
      ensures failedDbIdx == old(failedDbIdx)
    {
      var n := |pmidList|;
      ghost var tags := AsWrittenTags(pmidList);
      ghost var resps := LinksResponses(pmidList, resolve);
      var chunks := DivideIntoPackages(pmidList);
      dbRows := [];
      var c := 0;
      while c < |chunks|
        invariant 0 <= c <= |chunks| == PackageCount(n)
        invariant dbRows == PairRows(tags[..ChunkEnd(c, n)], resps[..ChunkEnd(c, n)])
        invariant failedPmid == old(failedPmid) + LinksFailures(pmidList[..ChunkEnd(c, n)], resolve)
        invariant failedDbIdx == old(failedDbIdx)
      {
        var chunk := chunks[c];
        assert chunk == Packages(pmidList, DefaultPackageSize)[c];
        var responsesDb := GatherLinks(chunk, resolve);
        DbRowsStep(pmidList, resolve, c);
        DbFailuresStep(pmidList, resolve, c, old(failedPmid));
        dbRows := ZipRows(dbRows, pmidList, responsesDb);
        c := c + 1;
      }
      DbPackagesDone(pmidList, resolve);
    }

    /** The zip loop of `_create_df_from_info_api` over one package: an info row for each index
        not seen before; the loop raises on a failed response of an unseen index. */
    static method ChunkInfoRows(infoRows: seq<InfoRow>, uniqueDbIdxSet: set<int>, chunk: seq<int>, responses: seq<Option<PmData>>)
      returns (st: InfoState)
      requires |chunk| == |responses|
      ensures st == InfoFoldFrom(InfoState(infoRows, uniqueDbIdxSet, false), chunk, responses, false)
    {
      ghost var init := InfoState(infoRows, uniqueDbIdxSet, false);
      var rows, seen := infoRows, uniqueDbIdxSet;
      var j := 0;
      while j < |responses| && j < |chunk|
        invariant 0 <= j <= |chunk|
        invariant InfoFoldFrom(init, chunk[..j], responses[..j], false) == InfoState(rows, seen, false)
      {
        var responseDbInfo, dbIdx := responses[j], chunk[j];
        assert chunk[..j + 1][..j] == chunk[..j] && responses[..j + 1][..j] == responses[..j];
        if dbIdx !in seen {
          if responseDbInfo.None? {
            st := InfoState(rows, seen, true);
            InfoFoldFromAppend(init, chunk[..j + 1], responses[..j + 1], chunk[j + 1..], responses[j + 1..], false);
            assert chunk[..j + 1] + chunk[j + 1..] == chunk && responses[..j + 1] + responses[j + 1..] == responses;
            InfoFoldFromCrashed(st, chunk[j + 1..], responses[j + 1..], false);
            return;
          }
          rows := rows + [InfoRowOf(dbIdx, responseDbInfo.value)];
          seen := seen + {dbIdx};
        }
        j := j + 1;
      }
      assert chunk[..j] == chunk && responses[..j] == responses;
      st := InfoState(rows, seen, false);
    }

    /** The summary requests of one package, gathered in task order. */
    method GatherSummaries(chunk: seq<int>, summary: int -> seq<Option<PmData>>) returns (responses: seq<Option<PmData>>)
      modifies this`failedDbIdx
      ensures responses == SummaryResponses(chunk, summary)
      ensures failedDbIdx == old(failedDbIdx) + SummaryFailures(chunk, summary)
      ensures failedPmid == old(failedPmid)
    {
      responses := [];
      for k := 0 to |chunk|
        invariant responses == SummaryResponses(chunk[..k], summary)
        invariant failedDbIdx == old(failedDbIdx) + SummaryFailures(chunk[..k], summary)
        invariant failedPmid == old(failedPmid)
      {
        var data, delays := SendRequestInfo(chunk[k], summary(chunk[k]));
        SummaryFailuresPrefix(chunk, k, summary);
        responses := responses + [data];
      }
      assert chunk[..|chunk|] == chunk;
    }

    /** `_create_df_from_info_api`: per package, one summary request per index, then one info
        row per index not yet seen; reading the fields of a failed (`None`) response raises. */
    method CreateDfFromInfoApi(dbList: seq<int>, summary: int -> seq<Option<PmData>>) returns (res: Result<seq<InfoRow>>)
      modifies this`failedDbIdx
      ensures res == InfoRowsAsWritten(dbList, SummaryResponses(dbList, summary))
      ensures InfoFailuresRecorded(old(failedDbIdx), failedDbIdx, dbList, summary, res.Err?)
      ensures failedPmid == old(failedPmid)
    {
      var n := |dbList|;
      ghost var resps := SummaryResponses(dbList, summary);
      var uniqueDbIdxSet: set<int> := {};
      var infoRows: seq<InfoRow> := [];
      var chunks := DivideIntoPackages(dbList);
      var c := 0;
      while c < |chunks|
        invariant 0 <= c <= |chunks| == PackageCount(n)
        invariant InfoFold(dbList[..ChunkEnd(c, n)], resps[..ChunkEnd(c, n)], false) == InfoState(infoRows, uniqueDbIdxSet, false)
        invariant failedDbIdx == old(failedDbIdx) + SummaryFailures(dbList[..ChunkEnd(c, n)], summary)
        invariant failedPmid == old(failedPmid)
      {
        var chunk := chunks[c];
        assert chunk == Packages(dbList, DefaultPackageSize)[c];
        var responsesInfo := GatherSummaries(chunk, summary);
        InfoPackageStep(dbList, summary, c);
        AppendAssoc(old(failedDbIdx), SummaryFailures(dbList[..ChunkEnd(c, n)], summary), SummaryFailures(chunk, summary));
        var st := ChunkInfoRows(infoRows, uniqueDbIdxSet, chunk, responsesInfo);
        if st.crashed {
          InfoCrashWitness(dbList, summary, c, old(failedDbIdx), failedDbIdx);
          return Err(NoneTitle);
        }
        infoRows, uniqueDbIdxSet := st.rows, st.seen;
        c := c + 1;
      }
      InfoPackagesDone(dbList, summary);
      res := Ok(infoRows);
    }

    /** `_create_df_from_overall_design_api`: one design request per code, rows in code order. */
    method CreateDfFromOverallDesignApi(gseSet: seq<string>, design: string -> seq<Option<string>>) returns (rows: seq<DesignRow>)
      ensures rows == DesignRows(gseSet, design)
    {
      var gseResponses: seq<Option<string>> := [];
      for k := 0 to |gseSet|
        invariant |gseResponses| == k
        invariant forall i :: 0 <= i < k ==> gseResponses[i] == DesignResponse(design(gseSet[i]))
      {
        var response, delays := SendRequestOverallDesign(gseSet[k], design(gseSet[k]));
        gseResponses := gseResponses + [response];
      }
      rows := [];
      for k := 0 to |gseSet|
        invariant |rows| == k
        invariant forall i :: 0 <= i < k ==> rows[i] == DesignRow(gseSet[i], gseResponses[i])
      {
        rows := rows + [DesignRow(gseSet[k], gseResponses[k])];
      }
    }

    /** `main_async_call`: the three stages and the joins. */
    method MainAsyncCall(pmidList: seq<int>, resolve: int -> seq<Option<seq<int>>>,
                         summary: int -> seq<Option<PmData>>, design: string -> seq<Option<string>>)
      returns (res: Result<seq<FinalRow>>)
      modifies this
      ensures res == MainAsyncCallResult(pmidList, resolve, summary, design)
      ensures failedPmid == old(failedPmid) + LinksFailures(pmidList, resolve)
      ensures var dbRows := DbRowsAsWritten(pmidList, LinksResponses(pmidList, resolve));
              var dbList := Dedup(DbIds(dbRows));
              if dbRows == [] then failedDbIdx == old(failedDbIdx)
              else InfoFailuresRecorded(old(failedDbIdx), failedDbIdx, dbList, summary,
                                        InfoRowsAsWritten(dbList, SummaryResponses(dbList, summary)).Err?)
    {
      var dfDb := CreateDfFromDbIdxApi(pmidList, resolve);
      if dfDb == [] {
        return Err(NoDbId);
      }
      var dbList := Dedup(DbIds(dfDb));
      var dfInfo := CreateDfFromInfoApi(dbList, summary);
      if dfInfo.Err? {
        return Err(dfInfo.message);
      }
      if dfInfo.value == [] {
        return Err(NoGseCode);
      }
      var gseSet := GseCodes(dfInfo.value);
      var dfOverallDesign := CreateDfFromOverallDesignApi(gseSet, design);
      res := Ok(CombinedAllDf(dfDb, dfInfo.value, dfOverallDesign));
    }
  }
}
