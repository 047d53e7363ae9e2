/** Logic the two dashboards share: the rows they show, the three select-box filter behind
    `is_selected`, the table of selected rows, the bounded history of saved datasets, the
    preprocessing parameters, the label colours and the parsing of an uploaded PMID file.
    Widgets and plots are not modelled; the values they hand over become parameters. */
module Dashboard {
  import opened Seqs
  import opened Text

  /** The select-box entry meaning "no filter". */
  const Placeholder := "<select>"
  /** `MIN_LEN_PMID_LIST`. */
  const MinPmids: nat := 10
  const TooFewPmidsMessage := "Please enter at least 10 PMIDs."
  /** `DEQUE_MAX_LENGTH`. */
  const DequeMaxLength: nat := 3
  /** `PERPLEXITY_MIN`, in fact the upper bound of the perplexity. */
  const PerplexityMax: int := 30
  const DefaultMaxFeatures: int := 10
  const DefaultNumClusters: int := 8
  /** The number of colours of the qualitative "Alphabet" palette the dashboards use. */
  const AlphabetSize: nat := 26
  /** The largest cluster count the cluster input accepts. */
  const MaxNumClusters: nat := 30

  /** One row of the dashboard's data frame. */
  datatype DatasetRow = DatasetRow(
    pmid: int,
    gseCode: string,
    title: string,
    summary: string,
    overallDesign: string,
    experimentType: string,
    organism: string,
    text: string,
    isSelected: int)

  // ---------------------------------------------------------------- Filtering

  /** The PMID select box yields the placeholder or one of the integer PMIDs. */
  datatype PmidChoice = NoPmid | PmidValue(pmid: int)

  /** One entry of the `conditions` list. */
  datatype Condition = PmidIs(pmid: int) | OrganismIs(organism: string) | ExperimentTypeIs(experimentType: string)

  predicate Holds(c: Condition, row: DatasetRow) {
    match c
    case PmidIs(p) => row.pmid == p
    case OrganismIs(o) => row.organism == o
    case ExperimentTypeIs(e) => row.experimentType == e
  }

  /** The `conditions` list: one test per select box not left on the placeholder. */
  function Conditions(p: PmidChoice, organism: string, experimentType: string): (cs: seq<Condition>)
    ensures |cs| <= 3
    ensures cs == [] <==> p.NoPmid? && organism == Placeholder && experimentType == Placeholder
  {
    (if p.PmidValue? then [PmidIs(p.pmid)] else []) +
    (if organism != Placeholder then [OrganismIs(organism)] else []) +
    (if experimentType != Placeholder then [ExperimentTypeIs(experimentType)] else [])
  }

  /** `np.logical_and.reduce(conditions).astype(int)` for one row, or 1 without conditions. */
  function SelectedFlag(cs: seq<Condition>, row: DatasetRow): int {
    if cs == [] then 1
    else if forall i :: 0 <= i < |cs| ==> Holds(cs[i], row) then 1
    else 0
  }

  /** The `is_selected` column after pressing "Filter". */
  function ApplyFilter(rows: seq<DatasetRow>, p: PmidChoice, organism: string, experimentType: string): seq<DatasetRow> {
    var cs := Conditions(p, organism, experimentType);
    seq(|rows|, i requires 0 <= i < |rows| => rows[i].(isSelected := SelectedFlag(cs, rows[i])))
  }

  /** A row passes when it equals every select box that is not on the placeholder. */
  predicate Matches(row: DatasetRow, p: PmidChoice, organism: string, experimentType: string) {
    (p.PmidValue? ==> row.pmid == p.pmid) &&
    (organism != Placeholder ==> row.organism == organism) &&
    (experimentType != Placeholder ==> row.experimentType == experimentType)
  }

  /** Filtering changes only `is_selected`, which becomes 1 exactly for the matching rows and
      0 for the others; with all three boxes on the placeholder every row is selected. */
  lemma FilterSelects(rows: seq<DatasetRow>, p: PmidChoice, organism: string, experimentType: string)
    ensures |ApplyFilter(rows, p, organism, experimentType)| == |rows|
    ensures forall i :: 0 <= i < |rows| ==>
              ApplyFilter(rows, p, organism, experimentType)[i].(isSelected := rows[i].isSelected) == rows[i]
    ensures forall i :: 0 <= i < |rows| ==>
              ApplyFilter(rows, p, organism, experimentType)[i].isSelected ==
                (if Matches(rows[i], p, organism, experimentType) then 1 else 0)
    ensures p.NoPmid? && organism == Placeholder && experimentType == Placeholder ==>
              forall i :: 0 <= i < |rows| ==> ApplyFilter(rows, p, organism, experimentType)[i].isSelected == 1
  {
    var cs := Conditions(p, organism, experimentType);
    forall i | 0 <= i < |rows|
      ensures SelectedFlag(cs, rows[i]) == (if Matches(rows[i], p, organism, experimentType) then 1 else 0)
    {
      var row := rows[i];
      var a := if p.PmidValue? then [PmidIs(p.pmid)] else [];
      var b := if organism != Placeholder then [OrganismIs(organism)] else [];
      var c := if experimentType != Placeholder then [ExperimentTypeIs(experimentType)] else [];
      assert cs == a + b + c;
      if Matches(row, p, organism, experimentType) {
        forall k | 0 <= k < |cs| ensures Holds(cs[k], row) {
          if k < |a| { assert cs[k] == a[k]; }
          else if k < |a| + |b| { assert cs[k] == b[k - |a|]; }
          else { assert cs[k] == c[k - |a| - |b|]; }
        }
      } else if p.PmidValue? && row.pmid != p.pmid {
        assert cs[0] == PmidIs(p.pmid);
      } else if organism != Placeholder && row.organism != organism {
        assert cs[|a|] == OrganismIs(organism);
      } else {
        assert cs[|a| + |b|] == ExperimentTypeIs(experimentType);
      }
    }
  }

  /** The table under the plot: the rows whose `is_selected` is 1, in frame order. */
  function Displayed(rows: seq<DatasetRow>): seq<DatasetRow>
    decreases |rows|
  {
    if rows == [] then []
    else
      var n := |rows| - 1;
      Displayed(rows[..n]) + (if rows[n].isSelected == 1 then [rows[n]] else [])
  }

  /** The table holds exactly the selected rows and is never longer than the frame. */
  lemma {:induction false} DisplayedRows(rows: seq<DatasetRow>)
    ensures forall r :: r in Displayed(rows) <==> r in rows && r.isSelected == 1
    ensures |Displayed(rows)| <= |rows|
    ensures (forall i :: 0 <= i < |rows| ==> rows[i].isSelected == 1) ==> Displayed(rows) == rows
  {
    DisplayedMembers(rows);
    DisplayedShorter(rows);
    if forall i :: 0 <= i < |rows| ==> rows[i].isSelected == 1 {
      DisplayedAllSelected(rows);
    }
  }

  lemma {:induction false} DisplayedMembers(rows: seq<DatasetRow>)
    ensures forall r :: r in Displayed(rows) <==> r in rows && r.isSelected == 1
    decreases |rows|
  {
    if rows != [] {
      var n := |rows| - 1;
      var init, last := rows[..n], rows[n];
      DisplayedMembers(init);
      assert rows == init + [last];
      assert Displayed(rows) == Displayed(init) + (if last.isSelected == 1 then [last] else []);
      forall r ensures r in Displayed(rows) <==> r in rows && r.isSelected == 1 {
        assert r in rows <==> r in init || r == last;
      }
    }
  }

  lemma {:induction false} DisplayedShorter(rows: seq<DatasetRow>)
    ensures |Displayed(rows)| <= |rows|
    decreases |rows|
  {
    if rows != [] {
      DisplayedShorter(rows[..|rows| - 1]);
    }
  }

  lemma {:induction false} DisplayedAllSelected(rows: seq<DatasetRow>)
    requires forall i :: 0 <= i < |rows| ==> rows[i].isSelected == 1
    ensures Displayed(rows) == rows
    decreases |rows|
  {
    if rows != [] {
      var n := |rows| - 1;
      var init := rows[..n];
      forall i | 0 <= i < |init| ensures init[i].isSelected == 1 {
        assert init[i] == rows[i];
      }
      DisplayedAllSelected(init);
      assert rows == init + [rows[n]];
    }
  }

  // ---------------------------------------------------------------- Saved datasets

  /** `deque(maxlen=m).appendleft(x)`: `x` goes in front and, when the deque is full, the
      entry at the far end (the oldest) falls off. */
  function AppendLeft<T>(d: seq<T>, x: T, maxLen: nat): (r: seq<T>)
    requires maxLen >= 1
    ensures 1 <= |r| <= maxLen && r[0] == x
    ensures |d| < maxLen ==> r == [x] + d
    ensures |d| >= maxLen ==> r == [x] + d[..maxLen - 1]
  {
    [x] + d[..Min(|d|, maxLen - 1)]
  }

  /** The last `m` items of `xs`, newest first. */
  function Recent<T>(xs: seq<T>, m: nat): (r: seq<T>)
    ensures |r| == Min(|xs|, m)
  {
    seq(Min(|xs|, m), i requires 0 <= i < Min(|xs|, m) => xs[|xs| - 1 - i])
  }

  /** A deque of length at most `m` fed only by `appendleft` holds the most recent `m`
      items, newest first. */
  lemma AppendLeftRecent<T>(xs: seq<T>, x: T, m: nat)
    requires m >= 1
    ensures AppendLeft(Recent(xs, m), x, m) == Recent(xs + [x], m)
  {
    var ys := xs + [x];
    var r := AppendLeft(Recent(xs, m), x, m);
    assert |r| == Min(|ys|, m);
    forall i | 0 <= i < |r| ensures r[i] == Recent(ys, m)[i] {
      if i > 0 {
        assert r[i] == Recent(xs, m)[i - 1] == xs[|xs| - i];
      }
    }
  }

  const NotInDequeMessage := "ValueError: selected name is not in deque"

  /** The frame `local_df_deque[name_deque.index(selected)]`: the one saved with the first
      name equal to the selection; `index` raises when no name is. */
  function SavedFrame(names: seq<string>, frames: seq<seq<DatasetRow>>, selected: string): (r: Result<seq<DatasetRow>>)
    requires |names| == |frames|
    ensures r.Ok? <==> selected in names
    ensures r.Ok? ==> exists k :: 0 <= k < |names| && names[k] == selected && r.value == frames[k] &&
                       forall j :: 0 <= j < k ==> names[j] != selected
  {
    if selected in names then Ok(frames[FirstIndex(names, selected)]) else Err(NotInDequeMessage)
  }

  /** Right after a save, selecting the name just saved reloads the frame just saved. */
  lemma ReloadAfterSave(names: seq<string>, frames: seq<seq<DatasetRow>>, name: string, frame: seq<DatasetRow>)
    requires |names| == |frames|
    ensures |AppendLeft(names, name, DequeMaxLength)| == |AppendLeft(frames, frame, DequeMaxLength)|
    ensures SavedFrame(AppendLeft(names, name, DequeMaxLength), AppendLeft(frames, frame, DequeMaxLength), name) == Ok(frame)
  {
    var ns := AppendLeft(names, name, DequeMaxLength);
    assert FirstIndex(ns, name) == 0;
  }

  // ---------------------------------------------------------------- Parameters

  datatype Params = Params(maxFeatures: int, numClusters: int, perplexity: int)

  /** `validate_user_preprocessing_parameters`: a missing feature count becomes 10, a missing
      cluster count 8, and the perplexity is `min(30, n_samples - 1)`. */
  function ValidateParameters(maxFeatures: Option<int>, numClusters: Option<int>, nSamples: nat): (p: Params)
    ensures p.maxFeatures == (if maxFeatures.Some? then maxFeatures.value else DefaultMaxFeatures)
    ensures p.numClusters == (if numClusters.Some? then numClusters.value else DefaultNumClusters)
    ensures p.perplexity <= PerplexityMax && p.perplexity < nSamples
    ensures p.perplexity == PerplexityMax || p.perplexity == nSamples - 1
  {
    Params(
      match maxFeatures case Some(f) => f case None => 10,
      match numClusters case Some(k) => k case None => 8,
      Min(PerplexityMax, nSamples - 1))
  }

  // ---------------------------------------------------------------- Colours

  /** The two opacities a point gets: `alpha=1` when selected, `alpha=0.2` otherwise. */
  datatype Alpha = Opaque | Faded

  function AlphaOf(isSelected: int): Alpha {
    if isSelected == 1 then Opaque else Faded
  }

  /** A CSS colour string: its notation (`rgb` or `rgba`), the palette colour it converts,
      and the alpha component it spells out, if any. The numeric conversion is not modelled. */
  datatype Css = Css(notation: string, base: string, alpha: Option<Alpha>)

  /** What `hex_to_rgba(hex, alpha)` is evidently meant to emit: the colour with its alpha. */
  function HexToRgba(hex: string, alpha: Alpha): (c: Css)
    ensures c.base == hex && c.alpha == Some(alpha)
  {
    Css("rgba", hex, Some(alpha))
  }

  /** Different opacities give different strings, so selected and unselected points differ. */
  lemma HexToRgbaKeepsAlpha(hex: string)
    ensures HexToRgba(hex, Opaque) != HexToRgba(hex, Faded)
  {
  }

  /** `dict(zip(labels, palette[:k]))[label]`: `zip` stops at the shorter list, so a label at
      or beyond the palette's length has no colour and the lookup raises. */
  function ColourOf(cluster: nat, numClusters: nat, palette: seq<string>): (c: Option<string>)
    ensures c.Some? <==> cluster < numClusters && cluster < |palette|
    ensures c.Some? ==> c.value == palette[cluster]
  {
    if cluster < Min(numClusters, |palette|) then Some(palette[cluster]) else None
  }

  const KeyErrorLabel := "KeyError"

  /** `[map_dict[label] for label in current_labels]`. */
  function LabelColours(labels: seq<nat>, numClusters: nat, palette: seq<string>): Result<seq<string>>
    decreases |labels|
  {
    if labels == [] then Ok([])
    else
      var n := |labels| - 1;
      match LabelColours(labels[..n], numClusters, palette)
      case Err(m) => Err(m)
      case Ok(cs) =>
        match ColourOf(labels[n], numClusters, palette)
        case None => Err(KeyErrorLabel)
        case Some(c) => Ok(cs + [c])
  }

  /** The colour list succeeds exactly when every label has a palette entry, and then holds
      one colour per label, in label order. */
  lemma {:induction false} LabelColoursFacts(labels: seq<nat>, numClusters: nat, palette: seq<string>)
    ensures var r := LabelColours(labels, numClusters, palette);
            (r.Ok? <==> forall i :: 0 <= i < |labels| ==> labels[i] < numClusters && labels[i] < |palette|) &&
            (r.Ok? ==> |r.value| == |labels| && forall i :: 0 <= i < |labels| ==> r.value[i] == palette[labels[i]]) &&
            (r.Err? ==> r.message == KeyErrorLabel)
    decreases |labels|
  {
    if labels != [] {
      var n := |labels| - 1;
      LabelColoursFacts(labels[..n], numClusters, palette);
      assert forall i :: 0 <= i < n ==> labels[..n][i] == labels[i];
    }
  }

  /** The cluster input allows up to 30 clusters while the palette has 26 colours: a point in
      cluster 26 of a 27-cluster run has no colour and the colour list raises. */
  lemma TooManyClustersRaise(palette: seq<string>, labels: seq<nat>)
    requires |palette| == AlphabetSize
    requires 26 in labels
    ensures LabelColours(labels, 27, palette).Err?
  {
    LabelColoursFacts(labels, 27, palette);
  }

  /** A colour for every label: the palette reused cyclically. */
  function CyclicLabelColours(labels: seq<nat>, palette: seq<string>): (cs: seq<string>)
    requires |palette| > 0
    ensures |cs| == |labels|
    ensures forall i :: 0 <= i < |labels| ==> cs[i] in palette
  {
    seq(|labels|, i requires 0 <= i < |labels| => palette[labels[i] % |palette|])
  }

  /** Wherever the dictionary lookup succeeds, the cyclic colours are the same colours. */
  lemma CyclicAgrees(labels: seq<nat>, numClusters: nat, palette: seq<string>)
    requires |palette| > 0
    requires LabelColours(labels, numClusters, palette).Ok?
    ensures CyclicLabelColours(labels, palette) == LabelColours(labels, numClusters, palette).value
  {
    LabelColoursFacts(labels, numClusters, palette);
    var cs, r := CyclicLabelColours(labels, palette), LabelColours(labels, numClusters, palette).value;
    forall i | 0 <= i < |labels| ensures cs[i] == r[i] {
      ModOfSmaller(labels[i], |palette|);
    }
  }

  lemma ModOfSmaller(k: nat, m: nat)
    requires k < m
    ensures k % m == k
  {
  }

  /** The `is_selected` column. */
  function SelectedColumn(rows: seq<DatasetRow>): (col: seq<int>)
    ensures |col| == |rows|
  {
    seq(|rows|, i requires 0 <= i < |rows| => rows[i].isSelected)
  }

  const IndexErrorMessage := "IndexError: single positional indexer is out-of-bounds"

  /** What pandas raises when a column is assigned a list of another length than the frame. */
  const LengthMismatchMessage := "ValueError: Length of values does not match length of index"

  /** The loop of `set_colors_and_opacity`: point `idx` gets its label's colour converted with
      alpha 1 when its row is selected and 0.2 otherwise; `iloc[idx]` raises past the end of
      the frame. */
  method ColourPoints(colours: seq<string>, isSelected: seq<int>, toCss: (string, Alpha) -> Css)
    returns (r: Result<seq<Css>>)
    ensures r.Ok? <==> |colours| <= |isSelected|
    ensures r.Ok? ==> |r.value| == |colours|
    ensures r.Ok? ==> forall i :: 0 <= i < |colours| ==> r.value[i] == toCss(colours[i], AlphaOf(isSelected[i]))
    ensures r.Err? ==> r.message == IndexErrorMessage
  {
    var idx := 0;
    var final: seq<Css> := [];
    for k := 0 to |colours|
      invariant idx == k && |final| == k
      invariant k <= |isSelected|
      invariant forall i :: 0 <= i < k ==> final[i] == toCss(colours[i], AlphaOf(isSelected[i]))
    {
      if idx >= |isSelected| {
        return Err(IndexErrorMessage);
      }
      var col := colours[k];
      if isSelected[idx] == 1 {
        final := final + [toCss(col, Opaque)];
      } else {
        final := final + [toCss(col, Faded)];
      }
      idx := idx + 1;
    }
    r := Ok(final);
  }

  // ---------------------------------------------------------------- Uploaded PMID files

  /** One line of an uploaded file: all spaces removed, then stripped, then accepted when it
      is a digit string. */
  function UserLineValue(line: string): Option<int> {
    LineValue(RemoveChar(line, ' '))
  }

  /** A line is accepted exactly when, without its spaces and stripped, it is a digit string,
      and then yields that string's value. */
  lemma UserLineValueFacts(line: string)
    ensures var t := Strip(RemoveChar(line, ' '));
            (UserLineValue(line).Some? <==> IsDigitString(t)) &&
            (UserLineValue(line).Some? ==> UserLineValue(line).value == DigitsValue(t) && ' ' !in t)
  {
  }

  /** The accepted values of `content.split("\n")`, repeats included. */
  function UserPmids(content: string): seq<int> {
    FilterMap(UserLineValue, Split(content, '\n'))
  }

  /** A value is read exactly when some line of the upload, without its spaces and stripped,
      is a digit string denoting it. */
  lemma UserPmidsMembers(lines: seq<string>)
    ensures forall v :: v in FilterMap(UserLineValue, lines) <==>
              exists i :: 0 <= i < |lines| && UserLineValue(lines[i]) == Some(v)
  {
    FilterMapMembers(UserLineValue, lines);
  }

  /** The loop of `validate_chosen_file` over the lines of the upload, collecting
      `int(line)` for the accepted ones. */
  method ReadUserLines(lines: seq<string>) returns (pmids: seq<int>)
    ensures pmids == FilterMap(UserLineValue, lines)
  {
    pmids := [];
    for i := 0 to |lines|
      invariant pmids == FilterMap(UserLineValue, lines[..i])
    {
      var v := AcceptUserLine(lines[i]);
      FilterMapPrefix(UserLineValue, lines, i);
      if v.Some? {
        pmids := pmids + [v.value];
      }
    }
    assert lines[..|lines|] == lines;
  }

  /** The body of that loop: `line.replace(" ", "").strip()`, then `int(line)` when
      `line.isdigit()`. */
  method AcceptUserLine(raw: string) returns (v: Option<int>)
    ensures v == UserLineValue(raw)
    ensures var t := Strip(RemoveChar(raw, ' '));
            (v.Some? <==> IsDigitString(t)) && (v.Some? ==> v.value == DigitsValue(t))
  {
    var line := Strip(RemoveChar(raw, ' '));
    if IsDigitString(line) {
      v := Some(DigitsValue(line));
    } else {
      v := None;
    }
  }

  /** `validate_chosen_file` up to the repeats: the accepted values of `content.split("\n")`. */
  method ReadUserPmids(content: string) returns (pmids: seq<int>)
    ensures pmids == UserPmids(content)
  {
    pmids := ReadUserLines(Split(content, '\n'));
  }

  /** The distinct values of an upload, in any order: `list(set(...))`. */
  method DistinctUserPmids(content: string) returns (pmids: seq<int>)
    ensures NoDups(pmids)
    ensures forall v :: v in pmids <==> v in UserPmids(content)
    ensures |pmids| == |Dedup(UserPmids(content))|
  {
    var all := ReadUserPmids(content);
    pmids := ListOfSet(all);
    DedupFirstSeen(all);
    NoDupsSameLength(pmids, Dedup(all));
  }
}
