# PubTrends catalogue enrichment and dashboards — a Dafny model

PubTrends takes a list of PubMed ids (PMIDs). For each one it looks up the linked GEO
datasets, fetches each dataset's summary (title, summary, organism, experiment type, GSE
accession) and its overall design, and joins everything into one table. Two dashboards, an
older `App` front end and a `Streamlit` front end, read a user's PMID file, clean up the
table, cluster the texts, filter rows and colour the points of a 3-D plot. A small observer
registry and a punctuation-stripping text pipeline complete the core.

This project models that core in Dafny and proves what each piece promises:

- `Packaging`, `RetryLoop`, `AsyncPipeline` cover the asynchronous retriever
  (`PubMedAPI/asyncapi.py`):
  - chunking into packages of ten;
  - the three bounded retry loops with their back-off delays and failure lists;
  - the stage-1 link rows, the first-seen info rows and the design rows;
  - the two left joins and the whole `main_async_call` data flow.
- `AsyncBatching` covers the batching helpers of `PubMedAPI/AsyncApi.py`. Its PMID list and
  chunk list only ever grow.
- `PubMedApi` covers the sequential client of `PubMedAPI/pubmed_api.py`:
  - GDS→GSE accession rewriting;
  - PMID line parsing;
  - the nested row-building loop over a `rows_data` buffer that is never cleared;
  - lookups that fall back to defaults when they fail.
- `Dashboard` holds what both front ends share:
  - PMID upload parsing;
  - the three-way filter that computes `is_selected`;
  - the bounded history deques;
  - parameter defaults and perplexity;
  - label→palette colours.
- `AppFront` and `StreamlitFront` are the two session classes over that shared logic.
  `StreamlitFront` adds experiment-type normalisation and the `Text` column. `StringOrder`
  models Python's string order and `list.sort()`.
- `ObserverRegistry` covers `PubMedAPI/observer.py`, and `TextPreprocessing` covers
  `Preprocessing/text_preprocessing.py`.
- `Seqs` and `Text` are the shared sequence and string library: Python's `strip`, `split`,
  `join` and `isdigit`, first-seen deduplication, and `list(set(...))`.

Conventions:

- Remote lookups are oracle parameters. In the asynchronous code an oracle gives the outcome
  of each attempt. In the sequential client it gives an optional answer.
- `asyncio.gather` returns results in task order, so each gather is a sequential pass.
- Sleeps become delays in milliseconds, returned to the caller.
- Pandas frames are sequences of row datatypes.
- Exceptions the source raises become `Result.Err` values carrying the message.

Where the code as written goes wrong, the model keeps two versions. A member with
`AsWritten` in its name follows the code exactly, with a lemma exhibiting the input that
shows the problem. A corrected member beside it has the evidently intended property proved;
see "## Findings".

## Model

| member | source | states |
|---|---|---|
| Packaging.PackagesConcat | PubMedAPI/asyncapi.py:230-235 | with the default size of 10 the packages concatenate back to the input list |
| Packaging.PackagesShape | PubMedAPI/asyncapi.py:233-234 | with the default size every package has 1 to 10 elements and every package but the last has exactly 10 |
| Packaging.PackagesNoLonger | PubMedAPI/asyncapi.py:233-234 | with a size of at most 10 the packages together never hold more elements than the input |
| Packaging.PackagesSmallerSizeLoses | PubMedAPI/asyncapi.py:233-234 | because the step is fixed at 10, a size below 10 on a longer list drops elements: the packages hold fewer than the input |
| Packaging.PackagesUnfold | PubMedAPI/asyncapi.py:233-234 | for a general size the first package is `xs[0..min(size, n)]` and the rest are the packages of `xs[10..]` |
| RetryLoop.RetryFirstSuccess | PubMedAPI/asyncapi.py:72-76 | when attempt j (of at most 5) is the first to succeed, its data is returned after exactly the j delays of the failed attempts before it |
| RetryLoop.RetryExhausted | PubMedAPI/asyncapi.py:72-79 | when all 5 attempts fail, no data is returned and all 5 delays of the policy are taken |
| RetryLoop.RetryBounded | PubMedAPI/asyncapi.py:72-79 | at most 5 delays are taken; a result comes back iff one of the first 5 attempts succeeds, and then it is the first such attempt's data |
| RetryLoop.FirstSuccess | PubMedAPI/asyncapi.py:72-76 | returns the index of the first successful attempt at or after k, within the 5 attempts |
| RetryLoop.SendWithRetry | PubMedAPI/asyncapi.py:72-79 | the loop's result and delays are those of the retry specification for the given attempt outcomes and back-off policy |
| RetryLoop.RetryNoneSleepsEvery | PubMedAPI/asyncapi.py:72-79 | nothing is returned iff the loop slept after every one of its 5 attempts |
| AsyncPipeline.AsyncDataRetriever.constructor | PubMedAPI/asyncapi.py:46-47 | both failure lists start empty |
| AsyncPipeline.AsyncDataRetriever.DivideIntoPackages | PubMedAPI/asyncapi.py:230-235 | the loop builds exactly `Packages(xs, size)`: slice `i` is `xs[10i..min(10i+size, n)]` |
| AsyncPipeline.LinksResponse | PubMedAPI/asyncapi.py:72-81 | the value `_send_request_db_id` returns; no contract of its own, its properties are stated by `AsyncPipeline.LinksResponseFacts` |
| AsyncPipeline.LinksResponseFacts | PubMedAPI/asyncapi.py:72-81 | the links are those of the first of the 5 attempts that succeeds, and `[]` when all 5 fail |
| AsyncPipeline.AsyncDataRetriever.SendRequestDbId | PubMedAPI/asyncapi.py:60-81 | returns the first successful links or `[]`; delays are 500·k² ms after failed attempt k; the pmid is appended to `failed_pmid` exactly once iff all 5 attempts fail; `failed_db_idx` is untouched |
| AsyncPipeline.AsyncDataRetriever.SendRequestInfo | PubMedAPI/asyncapi.py:84-103 | returns the first successful summary or None; delays are 500·2^k ms; the id is appended to `failed_db_idx` exactly once iff None is returned; `failed_pmid` is untouched |
| AsyncPipeline.DesignTextLost | PubMedAPI/asyncapi.py:114-122 | as written, a design lookup returns something exactly when one whose parser is awaited and parses the XML would, and what it returns is always the un-run parser, never the design text |
| AsyncPipeline.DesignTextLostWitness | PubMedAPI/asyncapi.py:118 | a service answering "two groups" at once gives "two groups" with a parser that is awaited and parses the XML, and the un-run parser as written |
| AsyncPipeline.AwaitAloneStillFails | PubMedAPI/asyncapi.py:114-122 | with the parser awaited but unchanged, indexing the `str` of `response.text()` (lines 209-210) raises on every attempt, so the lookup sleeps five times and returns None |
| AsyncPipeline.AsyncDataRetriever.SendRequestOverallDesign | PubMedAPI/asyncapi.py:106-122 | returns the first successful design or None, with 1000 ms between attempts; None iff all 5 delays were taken; no failure list changes |
| AsyncPipeline.AsyncDataRetriever.AppendRows | PubMedAPI/asyncapi.py:133-134 | appends one row per returned index, tagged with the given pmid, in response order |
| AsyncPipeline.AsyncDataRetriever.GatherLinks | PubMedAPI/asyncapi.py:129-130 | one response per chunk entry in task order, and exactly the failing pmids of the chunk appended to `failed_pmid` in order |
| AsyncPipeline.AsyncDataRetriever.ZipRows | PubMedAPI/asyncapi.py:132-134 | `zip` stops at the shorter list: the rows pair the first `min` tags with the responses |
| AsyncPipeline.AsyncDataRetriever.CreateDfFromDbIdxApi | PubMedAPI/asyncapi.py:125-137 | the rows are `DbRowsAsWritten` of the list and its responses, and `failed_pmid` grows by exactly the failing pmids in list order |
| AsyncPipeline.PairRowsSnoc | PubMedAPI/asyncapi.py:132-134 | one more tag and response append that response's rows after the earlier rows |
| AsyncPipeline.PairRowsOrigin | PubMedAPI/asyncapi.py:132-134 | every stage-1 row carries a tag and an index that came from the same position of the tag and response lists |
| AsyncPipeline.PairRowsCount | PubMedAPI/asyncapi.py:133-134 | there is one row per returned index: the row count is the total length of the responses |
| AsyncPipeline.AsWrittenAgreesUpToTen | PubMedAPI/asyncapi.py:127-134 | with at most 10 pmids the code as written builds exactly the corrected rows, in which each row carries the pmid whose request produced it |
| AsyncPipeline.PairingBugWitness | PubMedAPI/asyncapi.py:132 | with 11 pmids and a single link found for the 11th, the code as written tags that row with the 1st pmid, while the corrected rows tag it with the 11th |
| AsyncPipeline.DbRowsFailureIsolation | PubMedAPI/asyncapi.py:128-134 | a pmid whose link lookup failed on all attempts contributes no row to the corrected stage-1 rows |
| AsyncPipeline.AsyncDataRetriever.ChunkInfoRows | PubMedAPI/asyncapi.py:148-156 | the loop over one chunk is the first-seen fold over it, crashing on a None response for an id not yet seen |
| AsyncPipeline.AsyncDataRetriever.GatherSummaries | PubMedAPI/asyncapi.py:145-146 | one response per chunk id in task order, and exactly the failing ids appended to `failed_db_idx` |
| AsyncPipeline.AsyncDataRetriever.CreateDfFromInfoApi | PubMedAPI/asyncapi.py:139-159 | the result is `InfoRowsAsWritten` of the id list and its responses; `failed_db_idx` grows by the failures of every chunk processed, namely all of them on success and up to the crashing chunk otherwise |
| AsyncPipeline.InfoFoldFromAppend | PubMedAPI/asyncapi.py:143-156 | folding two id lists in turn equals folding their concatenation |
| AsyncPipeline.InfoFoldFromCrashed | PubMedAPI/asyncapi.py:150-155 | once the fold has crashed, later ids change nothing |
| AsyncPipeline.InfoFoldFacts | PubMedAPI/asyncapi.py:148-156 | the seen set is exactly the ids of the rows; rows are duplicate-free by id; every row comes from a successful response for its id |
| AsyncPipeline.InfoRowsUnique | PubMedAPI/asyncapi.py:148-156 | the info rows hold at most one row per index, both as written and corrected, and every row's id is in the input |
| AsyncPipeline.InfoRowsKeepSucceeded | PubMedAPI/asyncapi.py:148-156 | for a duplicate-free id list (the unique stage-1 ids) the corrected rows are, in input order, exactly the ids whose summary lookup succeeded |
| AsyncPipeline.SucceededIdsMembers | PubMedAPI/asyncapi.py:148-156 | an id of a duplicate-free list is among the succeeded ids iff its lookup succeeded |
| AsyncPipeline.SucceededIdsSubset | PubMedAPI/asyncapi.py:148-156 | every succeeded id is an input id |
| AsyncPipeline.InfoCrashOnFailedLookup | PubMedAPI/asyncapi.py:150-155 | one None response makes the code as written fail with `'NoneType' object has no attribute 'Title'`; the corrected rows leave that id out |
| AsyncPipeline.InfoCrashWitness | PubMedAPI/asyncapi.py:139-156 | a crash inside chunk c leaves the failures of chunks up to c recorded and the result `Err` |
| AsyncPipeline.DesignRows | PubMedAPI/asyncapi.py:161-173 | one design row per GSE code, in code order, each holding the lookup of its own code |
| AsyncPipeline.AsyncDataRetriever.CreateDfFromOverallDesignApi | PubMedAPI/asyncapi.py:161-173 | one design row per GSE code, in the same order, duplicates kept and codes not rewritten, each holding that code's design lookup |
| AsyncPipeline.MergeInfoSize | PubMedAPI/asyncapi.py:203 | the first left join has Σ max(1, matches) rows over the left rows, so it never loses a stage-1 row |
| AsyncPipeline.MergeDesignSize | PubMedAPI/asyncapi.py:204 | the second left join has Σ max(1, matches) rows over its left rows, so it never loses a row |
| AsyncPipeline.InfoMatchesOfUnique | PubMedAPI/asyncapi.py:203 | against info rows unique by id, an index matches at most one row, and exactly one iff it has an info row |
| AsyncPipeline.MergeInfoOneToOne | PubMedAPI/asyncapi.py:201-203 | against info rows unique by id the first join keeps the stage-1 row count, and row i is stage-1 row i widened with its info row, if any |
| AsyncPipeline.MergeInfoFromLeft | PubMedAPI/asyncapi.py:203 | every row of the first join comes from a stage-1 row with the same pmid and index |
| AsyncPipeline.MergeDesignFromLeft | PubMedAPI/asyncapi.py:204 | every row of the second join comes from a left row with the same pmid and index |
| AsyncPipeline.CombinedAllDf | PubMedAPI/asyncapi.py:201-205 | the two left joins; no contract of its own, its sizes and row origins are stated by `AsyncPipeline.MergeInfoSize`, `AsyncPipeline.MergeDesignSize` and `AsyncPipeline.CombinedFromLeft` |
| AsyncPipeline.CombinedFromLeft | PubMedAPI/asyncapi.py:201-205 | every row of the combined table carries a (pmid, index) pair of the stage-1 table |
| AsyncPipeline.PipelineFailureIsolation | PubMedAPI/asyncapi.py:176-192 | a pmid whose link lookup failed has no row in the corrected final table |
| AsyncPipeline.MainAgreesWithPipeline | PubMedAPI/asyncapi.py:176-192 | with at most 10 pmids, a non-empty stage-1 table and no failing summary lookup of a linked index, `main_async_call` as written computes exactly the corrected pipeline's table |
| AsyncPipeline.AsyncDataRetriever.MainAsyncCall | PubMedAPI/asyncapi.py:176-198 | the stages run in order (`db_list` the unique stage-1 ids, `gse_set` the info rows' codes) and the result is `MainAsyncCallResult`; the failure lists grow by exactly the stage failures |
| AsyncBatching.AsyncDataRetriever.constructor | PubMedAPI/AsyncApi.py:38-42 | `chunked_list` starts empty and `pmid_list` holds the loaded PMIDs of the file's lines |
| AsyncBatching.AsyncDataRetriever.LoadPmidsFromFile | PubMedAPI/AsyncApi.py:54-63 | the list becomes the old list followed by each new trimmed all-digit value in first-occurrence order; it is not reset |
| AsyncBatching.LoadAppendsNew | PubMedAPI/AsyncApi.py:59-62 | a load keeps the old list as a prefix, keeps a duplicate-free list duplicate-free, and adds exactly the values of trimmed all-digit lines |
| AsyncBatching.AsyncDataRetriever.DivideIntoPackages | PubMedAPI/AsyncApi.py:49-52 | appends the packages of `pmid_list` after the existing `chunked_list` and returns the whole list |
| AsyncBatching.AsyncDataRetriever.DivideTwice | PubMedAPI/AsyncApi.py:49-52 | two calls in a row append the same packages twice |
| AsyncBatching.PackagesOfOneCall | PubMedAPI/AsyncApi.py:50-51 | every added package holds at most `package_size` elements, and with the default size the packages of one call concatenate to `pmid_list` |
| PubMedApi.NormalizeAccession | PubMedAPI/pubmed_api.py:112-113 | a code starting with "GDS" becomes "GSE" + the rest; any other code, including one shorter than 3 characters, is unchanged; length is kept and the result never starts with "GDS" |
| PubMedApi.NormalizeIdempotent | PubMedAPI/pubmed_api.py:112-113 | rewriting twice equals rewriting once |
| PubMedApi.OverallDesignGdsAlias | PubMedAPI/pubmed_api.py:111-118 | a GDS code and its GSE counterpart get the same overall design |
| PubMedApi.RelatedPmids | PubMedAPI/pubmed_api.py:76-82 | a failed related-id lookup yields `[]` |
| PubMedApi.RowsOfFailedLookups | PubMedAPI/pubmed_api.py:28-47 | a pmid whose related lookup failed contributes no row, and every row's design is the (possibly absent) design lookup of its code, never a dropped row |
| PubMedApi.BuildRowsSnoc | PubMedAPI/pubmed_api.py:31-47 | one more link appends its row, unless an earlier or this lookup raised |
| PubMedApi.NestedLinksSnoc | PubMedAPI/pubmed_api.py:28-31 | one more pmid appends its related links after the earlier ones |
| PubMedApi.NestedLinksOrigin | PubMedAPI/pubmed_api.py:28-31 | every link pairs an input pmid with one of its related ids |
| PubMedApi.NestedLinksCount | PubMedAPI/pubmed_api.py:28-31 | the link count is the sum of the related-list lengths |
| PubMedApi.BuildRowsComplete | PubMedAPI/pubmed_api.py:28-47 | when every info lookup succeeds, no exception is raised and row k is built from link k, with Original_PMID the outer id and Related_PMID the inner one |
| PubMedApi.BuildRowsRaises | PubMedAPI/pubmed_api.py:33-34 | the loop raises iff some link's info lookup returns None |
| PubMedApi.BuildRowsFromLinks | PubMedAPI/pubmed_api.py:31-47 | every row comes from some link whose info lookup succeeded |
| PubMedApi.PubMedApiClient.constructor | PubMedAPI/pubmed_api.py:18-22 | `rows_data` and the frame start empty |
| PubMedApi.PubMedApiClient.LoadPmidsFromFile | PubMedAPI/pubmed_api.py:52-62 | `pmids` is reset to the loaded PMIDs of the lines; nothing else changes |
| Text.LoadedPmidsFacts | PubMedAPI/pubmed_api.py:53-60 | loaded PMIDs are duplicate-free, are exactly the values of trimmed all-digit lines, and keep first-occurrence order |
| PubMedApi.PubMedApiClient.AppendRowsOf | PubMedAPI/pubmed_api.py:31-47 | the inner loop appends the rows of one pmid's links to `rows_data` or stops at the first raising lookup |
| PubMedApi.PubMedApiClient.CreateDataframe | PubMedAPI/pubmed_api.py:24-49 | `rows_data` becomes its old value followed by the new rows (it is never cleared); the call fails iff a lookup raised; on success the frame is the whole of `rows_data` |
| StringOrder.LexLeTotal | Streamlit/front_model.py:352 | any two strings are ordered one way or the other |
| StringOrder.LexLeAntisymmetric | Streamlit/front_model.py:352 | strings ordered both ways are equal |
| StringOrder.LexLeTransitive | Streamlit/front_model.py:352 | the string order is transitive |
| StringOrder.Insert | Streamlit/front_model.py:352 | insertion adds exactly one copy of the element |
| StringOrder.InsertSorted | Streamlit/front_model.py:352 | insertion into a sorted list keeps it sorted |
| StringOrder.SortStrings | Streamlit/front_model.py:352 | `sort()` returns a sorted permutation of the list |
| StringOrder.SortedUnique | Streamlit/front_model.py:352 | two sorted lists with the same elements counted with multiplicity are equal |
| StringOrder.SortOfSorted | Streamlit/front_model.py:352 | sorting a sorted list leaves it unchanged |
| StringOrder.FilterSorted | Streamlit/front_model.py:355 | a comprehension filter keeps a sorted list sorted |
| StreamlitFront.FirstRemovalRedundant | Streamlit/front_model.py:353-355 | the single `remove("Other")` is subsumed by the filter that follows it |
| StreamlitFront.StrippedPartsClean | Streamlit/front_model.py:350-351 | every trimmed part is already trimmed and holds no ";" |
| StreamlitFront.RemoveSemiDuplicatedExperimentType | Streamlit/front_model.py:349-357 | the normalisation itself; no contract of its own, its properties are stated by `StreamlitFront.NormalPartsFacts`, `StreamlitFront.ExperimentTypeParts` and `StreamlitFront.PermutationInvariant` |
| StreamlitFront.NormalPartsFacts | Streamlit/front_model.py:350-355 | the kept parts are sorted, are the trimmed parts with every "Other" removed counted with multiplicity, and are clean |
| StreamlitFront.ExperimentTypeParts | Streamlit/front_model.py:349-357 | the result is the kept parts joined with ";" |
| StreamlitFront.NoOtherPart | Streamlit/front_model.py:353-356 | no ";"-separated part of the result is "Other" |
| StreamlitFront.PermutationInvariant | Streamlit/front_model.py:350-356 | two inputs whose trimmed parts are permutations of each other give the same result |
| StreamlitFront.StrippedPartsOfJoin | Streamlit/front_model.py:350-356 | splitting and trimming a join of clean parts gives those parts back |
| StreamlitFront.NormalizeIdempotent | Streamlit/front_model.py:349-357 | normalising a normalised experiment type changes nothing |
| StreamlitFront.EmptyTypeNormalizes | Streamlit/front_model.py:349-357 | the empty string normalises to itself |
| StreamlitFront.TextOfLayout | Streamlit/front_model.py:226-228 | the Text column is Title, Summary, Overall_design, Experiment_type and Organism joined with single spaces, each recoverable at its offset |
| StreamlitFront.PreprocessRows | Streamlit/front_model.py:225-234 | one output row per input row |
| StreamlitFront.PreprocessRowKeepsRawType | Streamlit/front_model.py:225-234 | Text is built from the raw experiment type; the column is then normalised; every row is selected; other fields are kept |
| StreamlitFront.HexToRgbaAsWritten | Streamlit/front_model.py:363-366 | the emitted colour holds only the base colour, with no alpha |
| StreamlitFront.AlphaDropped | Streamlit/front_model.py:366 | as written, selected and unselected points get the same colour, unlike the corrected `Dashboard.HexToRgba` |
| StreamlitFront.SaveNameIndex | Streamlit/front_model.py:208-209 | a saved name is "Dataset: [", the digits of the index (which read back as the index), "] " and the time stamp |
| StreamlitFront.StreamlitSession.constructor | Streamlit/front_model.py:18-37 | an empty frame, an empty error message and two empty deques |
| StreamlitFront.StreamlitSession.ValidateChosenFile | Streamlit/front_model.py:179-190 | returns a duplicate-free list of exactly the uploaded values; with fewer than 10 it sets the message and still returns the list; writes no other field |
| StreamlitFront.StreamlitSession.LoadUserData | Streamlit/front_model.py:173-177 | stores the parsed PMIDs (no exception) and sets the message when fewer than 10; writes no other field |
| StreamlitFront.StreamlitSession.SaveLocallyDataset | Streamlit/front_model.py:206-210 | the name embeds the name deque's length before insertion; both deques get the new entry at index 0, stay aligned and keep at most 3 entries; only the deques are written |
| StreamlitFront.StreamlitSession.LoadSavedDataset | Streamlit/front_model.py:69-74 | the frame becomes the one at the first index whose name equals the selection; an absent name is an error and changes nothing; only the frame is written |
| StreamlitFront.StreamlitSession.ValidateUserPreprocessingParameters | Streamlit/front_model.py:214-223 | missing parameters default to 10 and 8, and perplexity is min(30, n_samples − 1); only the two parameters are written |
| StreamlitFront.StreamlitSession.PreprocessRawText | Streamlit/front_model.py:225-234 | the frame becomes its preprocessed rows; only the frame is written |
| StreamlitFront.StreamlitSession.ShownRows | Streamlit/front_model.py:132-133 | the table under the plot holds exactly the frame's rows with `is_selected == 1` |
| StreamlitFront.StreamlitSession.Filter | Streamlit/front_model.py:109-128 | `is_selected` is recomputed by the three-way filter; only the frame is written |
| StreamlitFront.StreamlitSession.SetColorsAndOpacity | Streamlit/front_model.py:326-340 | one colour per label in label order from `palette[label]` with alpha by selection; a KeyError for a label outside the clusters and an IndexError when there are more labels than rows; the session is not changed |
| StreamlitFront.StreamlitSession.StoreColours | Streamlit/front_model.py:243-245 | the colour column is stored iff the colours exist and there is one per row; otherwise the error and no change; only the colour column is written |
| Dashboard.Conditions | App/front_model.py:156-165 | at most three conditions, and none exactly when all three choices are "<select>" |
| Dashboard.ApplyFilter | App/front_model.py:156-170 | the filter of both dashboards (also Streamlit/front_model.py:114-128); no contract of its own, what it selects is stated by `Dashboard.FilterSelects` |
| Dashboard.FilterSelects | App/front_model.py:156-170 | rows are kept in order and a row is selected (1) iff it equals every choice that is not "<select>"; with no active choice every row is selected |
| Dashboard.DisplayedRows | App/front_model.py:174-175 | the table shows exactly the rows with `is_selected == 1`, and all rows when all are selected |
| Dashboard.AppendLeft | App/front_model.py:48-51 | `deque(maxlen=3).appendleft`: the new entry comes first, and the oldest is dropped when full |
| Dashboard.AppendLeftRecent | App/front_model.py:310-312 | after any number of saves the deque holds the newest 3, newest first |
| Dashboard.SavedFrame | App/front_model.py:108-111 | the reload succeeds iff the name is saved, and then returns the frame at the first index holding that name |
| Dashboard.ReloadAfterSave | App/front_model.py:108-111 | after a save both deques have the same length and reloading the newest name returns the frame just saved |
| Dashboard.ValidateParameters | App/front_model.py:325-330 | missing `max_features`/`num_clusters` default to 10 and 8; perplexity is min(30, n_samples − 1) |
| Dashboard.ColourOf | App/front_model.py:408-414 | a label has a colour iff it is below the cluster count and the palette length, and the colour is `palette[label]` |
| Dashboard.LabelColoursFacts | App/front_model.py:408-414 | the colour list succeeds iff every label has a colour, and then it holds one colour per label in label order |
| Dashboard.TooManyClustersRaise | App/front_model.py:408-414 | with 27 clusters over the 26-colour palette, label 26 raises a KeyError |
| Dashboard.CyclicLabelColours | App/front_model.py:408-414 | corrected assignment that cycles the palette: one palette colour per label |
| Dashboard.CyclicAgrees | App/front_model.py:408-414 | whenever the code as written succeeds, the cyclic assignment gives the same colours |
| Dashboard.HexToRgba | App/front_model.py:421-423 | corrected colour string: the base colour with the requested alpha |
| Dashboard.HexToRgbaKeepsAlpha | App/front_model.py:421-423 | the corrected colours of selected and unselected points differ |
| Dashboard.SelectedColumn | App/front_model.py:420 | one `is_selected` value per row |
| Dashboard.ColourPoints | App/front_model.py:415-424 | fails with an IndexError iff there are more colours than rows; otherwise colour i gets alpha 1 when row i is selected and 0.2 otherwise |
| Dashboard.UserLineValueFacts | App/front_model.py:275-277 | a line contributes iff it is a non-empty digit string after removing all spaces and trimming, and then contributes its value |
| Dashboard.UserPmidsMembers | App/front_model.py:273-277 | the parsed values are exactly the values of accepted lines |
| Dashboard.AcceptUserLine | App/front_model.py:275-277 | one line yields a value iff it is a digit string after removing its spaces and trimming, and that value is its decimal reading |
| Dashboard.ReadUserLines | App/front_model.py:274-277 | the loop collects exactly the accepted line values in line order |
| Dashboard.ReadUserPmids | App/front_model.py:271-277 | the uploaded content is split on newlines and read line by line |
| Dashboard.DistinctUserPmids | App/front_model.py:278 | `list(set(...))`: duplicate-free, the same values, one per distinct value |
| AppFront.HexToRgbAsWritten | App/front_model.py:437-442 | the emitted `rgb(...)` colour holds only the base colour, with no alpha |
| AppFront.AlphaDropped | App/front_model.py:442 | as written, selected and unselected points get the same colour, unlike the corrected `Dashboard.HexToRgba` |
| AppFront.SaveName | App/front_model.py:311 | the saved name is "Dataset: " followed by the time stamp |
| AppFront.SameStampReloadsNewest | App/front_model.py:108-111 | two saves with the same stamp: reloading that name returns the newer frame |
| AppFront.MainAppSession.constructor | App/front_model.py:36-51 | an empty frame and two empty deques |
| AppFront.MainAppSession.ValidateChosenFile | App/front_model.py:261-282 | fails with "Please enter at least 10 PMIDs." iff fewer than 10 distinct values; otherwise a duplicate-free list of exactly the uploaded values; writes no field but the message |
| AppFront.MainAppSession.LoadUserData | App/front_model.py:251-259 | stores the validated PMIDs and leaves the message as it was, or, when validation raised, keeps the PMIDs and sets the message to "Please enter at least 10 PMIDs."; writes no other field |
| AppFront.MainAppSession.SaveLocallyDataset | App/front_model.py:304-312 | both deques get the new entry at index 0, stay aligned and keep at most 3 entries; only the deques are written |
| AppFront.MainAppSession.LoadSavedDataset | App/front_model.py:107-112 | the frame becomes the one at the first index whose name equals the selection; an absent name is an error and changes nothing; only the frame is written |
| AppFront.MainAppSession.ValidateUserPreprocessingParameters | App/front_model.py:316-330 | missing parameters default to 10 and 8, and perplexity is min(30, n_samples − 1); only the two parameters are written |
| AppFront.MainAppSession.ShownRows | App/front_model.py:174-175 | the table under the plot holds exactly the frame's rows with `is_selected == 1` |
| AppFront.MainAppSession.Filter | App/front_model.py:151-170 | `is_selected` is recomputed by the three-way filter; only the frame is written |
| AppFront.MainAppSession.SetColorsAndOpacity | App/front_model.py:403-425 | stores one colour per row in label order from `palette[label]` with alpha by selection; a KeyError, an IndexError or a length mismatch leaves the colours unchanged; only the colours are written |
| ObserverRegistry.AttachedFacts | PubMedAPI/observer.py:14-16 | attach keeps the list duplicate-free and its old entries as a prefix, and adds the observer at the end iff it was absent |
| ObserverRegistry.AttachIdempotent | PubMedAPI/observer.py:15-16 | attaching an observer that is present changes nothing |
| ObserverRegistry.DetachedFacts | PubMedAPI/observer.py:18-20 | detach removes the observer, keeps the rest in order and duplicate-free, and is a no-op for an absent observer |
| ObserverRegistry.AttachDetachRestores | PubMedAPI/observer.py:14-20 | attaching then detaching an absent observer restores the list |
| ObserverRegistry.Observable.constructor | PubMedAPI/observer.py:11-12 | no observers |
| ObserverRegistry.Observable.Attach | PubMedAPI/observer.py:14-16 | the registry becomes `Attached(old, o)` and stays duplicate-free |
| ObserverRegistry.Observable.Detach | PubMedAPI/observer.py:18-20 | the registry becomes `Detached(old, o)` and stays duplicate-free |
| ObserverRegistry.Observable.Notify | PubMedAPI/observer.py:22-24 | exactly one `update` per registered observer, in list order, each passing the observable itself and the arguments |
| TextPreprocessing.PunctuationSize | Preprocessing/text_preprocessing.py:16 | `string.punctuation` has 32 characters |
| TextPreprocessing.RemovePunctuationFacts | Preprocessing/text_preprocessing.py:16 | the result has no ASCII punctuation, keeps every other character with its multiplicity, and is never longer |
| TextPreprocessing.RemovePunctuationPerCharacter | Preprocessing/text_preprocessing.py:16 | the filter works character by character, keeping order: it distributes over concatenation and drops exactly the punctuation characters |
| TextPreprocessing.RemovePunctuationIdempotent | Preprocessing/text_preprocessing.py:16 | removing punctuation twice equals removing it once |
| TextPreprocessing.ColumnFacts | Preprocessing/text_preprocessing.py:15-17 | the column transform is idempotent and leaves no punctuation in any entry |
| TextPreprocessing.RemovePunctuationTransformer.Fit | Preprocessing/text_preprocessing.py:12-13 | `fit` returns the transformer itself |
| TextPreprocessing.RemovePunctuationTransformer.Transform | Preprocessing/text_preprocessing.py:15-17 | each entry of the column loses its punctuation |
| TextPreprocessing.RemovePunctuationTransformer.FitTransform | Preprocessing/text_preprocessing.py:19-20 | `fit_transform` equals `transform` |
| TextPreprocessing.TextPipeline.constructor | Preprocessing/text_preprocessing.py:35 | `is_fitted` starts False |
| TextPreprocessing.TextPipeline.Fit | Preprocessing/text_preprocessing.py:37-39 | `fit` sets `is_fitted` |
| TextPreprocessing.TextPipeline.Transform | Preprocessing/text_preprocessing.py:41-44 | fails with "Pipeline not fitted" iff not fitted; otherwise the punctuation-free column |
| TextPreprocessing.FitBeforeTransform | Preprocessing/text_preprocessing.py:35-44 | a fresh pipeline refuses `transform`; after `fit` it transforms |
| Text.StripIdempotent | PubMedAPI/pubmed_api.py:58 | Python's `strip()` on ASCII whitespace is idempotent |
| Text.JoinSplit | Streamlit/front_model.py:350-356 | joining the parts of a split with its separator gives the string back |
| Text.SplitJoin | Streamlit/front_model.py:350-356 | splitting a join of separator-free parts gives the parts back |
| Text.NatToStringRoundTrip | Streamlit/front_model.py:209 | the decimal digits of a number read back as the number |

## Left out

- Streamlit layout, widgets, plotly figures, hover HTML, CSS and the `info.md` tab. These are UI.
- aiohttp sessions, `asyncio.Semaphore` and its no-op `sem._value` checks, `asynciolimiter`,
  and real sleeps. Each gather runs sequentially in task order, and sleeps are returned as
  delays in milliseconds. The 100 ms pause between stage-1 chunks (`asyncapi.py:131`) is not
  recorded.
- Completion order. Under concurrency, the order in which the ids of one chunk enter
  `failed_pmid`/`failed_db_idx` follows completion order. The model appends them in task
  order.
- The JSON and XML payload parsers and `xmltodict`. Each lookup is an oracle that succeeds
  or fails. An attempt fails when the request or the awaited payload parser raises: a links
  payload without `linksets[0].linksetdbs` (a PMID with no linked dataset) or a summary
  missing a key fails the attempt and, five times over, lands in `failed_pmid` or
  `failed_db_idx`. The un-awaited design parser at `asyncapi.py:118` is covered under
  "## Findings".
- AsyncPipeline.AsyncDataRetriever.SendRequestOverallDesign: returns the design text as a
  parser that is awaited and parses the XML (as `pubmed_api.py:122-123` does with
  `xmltodict.parse`) would give it. As written, a successful attempt returns the parser's
  coroutine, never run; `AsyncPipeline.DesignResponseAsWritten` models that (see "## Findings").
  Awaiting alone would not help: the parser indexes the `str` of `response.text()` with
  `["MINiML"]`, which raises, so every attempt fails (`AsyncPipeline.AwaitAloneStillFails`).
- Repeated request keys. Each oracle gives one outcome sequence per key (a links pmid, a
  summary index, a GSE code), while the source sends one request per occurrence; a repeated
  pmid or GSE code therefore gets the same outcomes each time in the model.
  AsyncPipeline.DbRowsFailureIsolation and AsyncPipeline.PipelineFailureIsolation hold for
  a repeated pmid only under this assumption: in the source, one occurrence may fail while
  another succeeds.
- File, CSV and dotenv I/O. The API key. Every `print`. Line processing works on a given
  sequence of lines.
- The asynchronous retriever's own `_load_pmids_from_file` (`asyncapi.py:49-58`). It has no
  digit check and it is not called by `main_async_call`.
- sklearn TF-IDF, t-SNE and KMeans, and all of `Preprocessing/best_cluster_params.py`. These
  are library numerics. Cluster labels are naturals given to the session, and the 26-colour
  palette is a parameter.
- TextPreprocessing.TextPipeline.constructor: models the flag logic of lines 30-44. As
  written, the step-less `Pipeline()` at `text_preprocessing.py:26` raises a TypeError in
  sklearn, so the source's constructor never reaches line 30.
- TextPreprocessing.TextPipeline.Transform: returns the punctuation-free column, where the
  source continues into the TF-IDF vectoriser step, which is not part of this model.
- The matplotlib colour conversion. Colours are opaque strings, and alpha is the two-valued
  choice 1 or 0.2.
- Python's Unicode-aware `isdigit`, `strip` and `int()`. The model accepts only ASCII
  digits and strips only space, tab, LF, CR, VT, FF and the separators U+001C-U+001F;
  other Unicode whitespace is kept.
- StreamlitFront.StreamlitSession.PreprocessRawText: every text field of a row is assumed
  to be a string. A None (a failed design lookup, `pubmed_api.py:42, 124-125`) or a NaN (an
  empty CSV cell) would make the `' '.join` of `Streamlit/front_model.py:225-227` raise a
  TypeError, and the `split(";")` of line 350 an AttributeError; neither error is modelled.
- Cross-file glue whose counterparts are not shown: `attach`, `create_dataframe(list_of_pmids=…)`,
  `handle_user_dataset`, `handle_preloaded_dataset`, the `App` "Text" column built through
  `ProcessorFactory`, the callbacks given to `PubMedAPI(...)` in the Streamlit
  constructor, and the `TextPipeline` interface the Streamlit front calls but
  `Preprocessing/text_preprocessing.py` does not define: `TextPipeline(n_clusters=…,
  max_features=…, perplexity=…)` (`Streamlit/front_model.py:221-223`) and
  `fit_transform_text_processing_pipeline`, `fit_kmeans`, `fit_transform_tsne` and `.cluster`
  (lines 235-240). `ValidateUserPreprocessingParameters` and `PreprocessRawText` stop before
  these calls.
- AppFront.MainAppSession.LoadSavedDataset: reloads the frame as it was when it was saved.
  In the source, `local_df_deque.appendleft(st.session_state.pmid_df)` (`App/front_model.py:312`)
  stores a reference to the live DataFrame, so later in-place column writes (the filter's
  `is_selected` at lines 167-170, the `colors` column at line 425) also change the saved
  entry, and reloading it (lines 110-111) brings them back. The model saves a copy; this
  aliasing is not modelled.
- StreamlitFront.StreamlitSession.LoadSavedDataset: reloads the frame as it was when it was
  saved. In the source, `local_df_deque.appendleft(...)` (`Streamlit/front_model.py:210`)
  stores a reference to the live DataFrame, so later in-place writes (`is_selected` at lines
  125-128, `colors` at line 245, the re-preprocessing at lines 226-234) also change the saved
  entry, and reloading it (lines 72-73) brings them back. The model saves a copy; this
  aliasing is not modelled.
- AsyncPipeline.AsyncDataRetriever.MainAsyncCall: returns the computed `final_df`. The
  source computes it and returns None. An empty stage-1 or info table is modelled as
  pandas' KeyError (`Err`).
- `list(set(...))`. The order CPython's set iteration gives is not modelled. The result is
  any duplicate-free enumeration of the values.
- The six-column subset the dashboards display. The displayed rows are modelled in full.
- What an observer's `update` does. Notify returns the calls in order.

## Findings

| source | as written | input that shows it | evidently intended | confidence | as-written member | corrected member |
|---|---|---|---|---|---|---|
| PubMedAPI/asyncapi.py:132 | each chunk's responses are zipped with `pmid_list`, so rows of the second and later chunks carry the pmids of the first chunk | 11 pmids; only the 11th has one linked index d; the row is (pmids[0], d) | zip with `chunk`, so each row carries the pmid whose request produced it | not executed | AsyncPipeline.PairingBugWitness | AsyncPipeline.DbRowsFailureIsolation |
| PubMedAPI/asyncapi.py:150-155 | a summary lookup that fails five times returns None, and reading `.Title` of it raises, ending the whole stage | any id whose five summary attempts all fail | skip ids whose lookup failed (they are already in `failed_db_idx`) | not executed | AsyncPipeline.InfoCrashOnFailedLookup | AsyncPipeline.InfoRowsKeepSucceeded |
| App/front_model.py:437-442 | `hex_to_rgba` formats only r, g and b, so the alpha of 0.2 for unselected points is lost (also Streamlit/front_model.py:364-366) | any colour with alpha 1 and with alpha 0.2 | emit the per-point alpha it is given (unselected points are still faded by the trace opacity of 0.08 at line 369 and Streamlit/front_model.py:304; only the per-point alpha is lost) | not executed | AppFront.AlphaDropped | Dashboard.HexToRgbaKeepsAlpha |
| App/front_model.py:408-414 | the palette is cut to 26 colours while the cluster input allows up to 30 (line 104; Streamlit/front_model.py:66, 326-331), so a label of 26 or more raises a KeyError | 27 clusters with a point labelled 26 | cycle through the palette | not executed | Dashboard.TooManyClustersRaise | Dashboard.CyclicAgrees |
| PubMedAPI/asyncapi.py:118 | the async parser is called without `await`, so a successful attempt returns a coroutine object and the design column never holds the design text | a design service answering at once with "two groups" | await the parser and parse the XML, as pubmed_api.py:122-123 does with `xmltodict.parse` (awaiting alone still raises at line 210) | not executed | AsyncPipeline.DesignTextLost | AsyncPipeline.AsyncDataRetriever.SendRequestOverallDesign |
