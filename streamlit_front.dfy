/** The Streamlit dashboard: its experiment-type normalisation, the Text column, the
    validation of an uploaded PMID file (which reports too short a list but keeps it), the
    numbered history of saved datasets and the colour list it returns. */
module StreamlitFront {
  import opened Seqs
  import opened Text
  import opened StringOrder
  import opened Dashboard

  const Other := "Other"

  // ---------------------------------------------------------------- Experiment types

  /** `[t.strip() for t in text.split(";")]`. */
  function StrippedParts(text: string): seq<string> {
    var pieces := Split(text, ';');
    seq(|pieces|, i requires 0 <= i < |pieces| => Strip(pieces[i]))
  }

  /** The test of `[t for t in parts if t.strip() != "Other"]`. */
  predicate NotOther(t: string) {
    Strip(t) != Other
  }

  /** `if "Other" in parts: parts.remove("Other")`. */
  function WithoutFirstOther(parts: seq<string>): seq<string> {
    if Other in parts then RemoveFirst(parts, Other) else parts
  }

  /** `remove_semi_duplicated_experiment_type`. */
  function RemoveSemiDuplicatedExperimentType(text: string): string {
    Join(Filter(NotOther, WithoutFirstOther(SortStrings(StrippedParts(text)))), ';')
  }

  /** The parts the normalised type is made of: the sorted stripped parts without "Other". */
  function NormalParts(text: string): seq<string> {
    Filter(NotOther, SortStrings(StrippedParts(text)))
  }

  lemma StripOther()
    ensures Strip(Other) == Other
  {
    assert !IsWhitespace(Other[0]) && !IsWhitespace(Other[|Other| - 1]);
    assert StripOffset(Other) == 0;
    assert StripEnd(Other) == |Other|;
  }

  /** Removing the first "Other" before filtering every "Other" out changes nothing. */
  lemma FirstRemovalRedundant(parts: seq<string>)
    ensures Filter(NotOther, WithoutFirstOther(parts)) == Filter(NotOther, parts)
  {
    if Other in parts {
      StripOther();
      FilterRemoveFirst(NotOther, parts, Other);
    }
  }

  /** Every stripped part is its own strip and holds no ';'. */
  lemma StrippedPartsClean(text: string)
    ensures forall t :: t in StrippedParts(text) ==> Strip(t) == t && ';' !in t
  {
    var pieces := Split(text, ';');
    var parts := StrippedParts(text);
    forall t | t in parts ensures Strip(t) == t && ';' !in t {
      var i :| 0 <= i < |parts| && parts[i] == t;
      assert t == Strip(pieces[i]);
      assert pieces[i] in pieces;
      StripClean(pieces[i]);
    }
  }

  /** Filtering "Other" out of a sorted copy of clean parts keeps every other part with its
      multiplicity and leaves only clean parts that are not "Other". */
  lemma FilterCleanParts(parts: seq<string>, sorted: seq<string>)
    requires multiset(sorted) == multiset(parts)
    requires forall t :: t in parts ==> Strip(t) == t && ';' !in t
    ensures forall t :: multiset(Filter(NotOther, sorted))[t] == (if t == Other then 0 else multiset(parts)[t])
    ensures forall t :: t in Filter(NotOther, sorted) ==> t != Other && Strip(t) == t && ';' !in t
  {
    FilterMultiset(NotOther, sorted);
    FilterMembers(NotOther, sorted);
    forall t ensures multiset(Filter(NotOther, sorted))[t] == (if t == Other then 0 else multiset(parts)[t]) {
      if t in parts {
        assert Strip(t) == t;
      } else {
        assert t !in multiset(sorted);
      }
    }
    forall t | t in Filter(NotOther, sorted) ensures t != Other && Strip(t) == t && ';' !in t {
      assert t in multiset(sorted);
      assert t in parts;
    }
  }

  /** The normalised parts are sorted, keep every stripped part other than "Other" with its
      multiplicity, and are free of "Other", of ';' and of surrounding whitespace. */
  lemma NormalPartsFacts(text: string)
    ensures Sorted(NormalParts(text))
    ensures forall t :: multiset(NormalParts(text))[t] == (if t == Other then 0 else multiset(StrippedParts(text))[t])
    ensures forall t :: t in NormalParts(text) ==> t != Other && Strip(t) == t && ';' !in t
  {
    var parts := StrippedParts(text);
    var sorted := SortStrings(parts);
    FilterSorted(NotOther, sorted);
    StrippedPartsClean(text);
    FilterCleanParts(parts, sorted);
  }

  /** The normalised type is the normalised parts joined with ';'. */
  lemma ExperimentTypeParts(text: string)
    ensures RemoveSemiDuplicatedExperimentType(text) == Join(NormalParts(text), ';')
  {
    FirstRemovalRedundant(SortStrings(StrippedParts(text)));
  }

  /** No part of the normalised type is "Other". */
  lemma NoOtherPart(text: string)
    ensures forall p :: p in Split(RemoveSemiDuplicatedExperimentType(text), ';') ==> p != Other
  {
    ExperimentTypeParts(text);
    NormalPartsFacts(text);
    var ps := NormalParts(text);
    if ps != [] {
      SplitJoin(ps, ';');
    } else {
      assert Split("", ';') == [""];
    }
  }

  /** Inputs whose stripped parts are the same up to order normalise to the same type. */
  lemma PermutationInvariant(a: string, b: string)
    requires multiset(StrippedParts(a)) == multiset(StrippedParts(b))
    ensures RemoveSemiDuplicatedExperimentType(a) == RemoveSemiDuplicatedExperimentType(b)
  {
    SortedUnique(SortStrings(StrippedParts(a)), SortStrings(StrippedParts(b)));
  }

  /** The stripped parts of a join of clean parts are those parts. */
  lemma StrippedPartsOfJoin(ps: seq<string>)
    requires ps != []
    requires forall t :: t in ps ==> Strip(t) == t && ';' !in t
    ensures StrippedParts(Join(ps, ';')) == ps
  {
    SplitJoin(ps, ';');
    var qs := StrippedParts(Join(ps, ';'));
    forall i | 0 <= i < |ps| ensures qs[i] == ps[i] {
      assert ps[i] in ps;
    }
  }

  /** Normalising a normalised type changes nothing. */
  lemma NormalizeIdempotent(text: string)
    ensures RemoveSemiDuplicatedExperimentType(RemoveSemiDuplicatedExperimentType(text)) ==
            RemoveSemiDuplicatedExperimentType(text)
  {
    ExperimentTypeParts(text);
    NormalPartsFacts(text);
    var ps := NormalParts(text);
    var r := RemoveSemiDuplicatedExperimentType(text);
    ExperimentTypeParts(r);
    if ps == [] {
      EmptyTypeNormalizes();
    } else {
      StrippedPartsOfJoin(ps);
      SortOfSorted(ps);
      forall t | t in ps ensures NotOther(t) { }
      FilterAll(NotOther, ps);
    }
  }

  /** An empty type normalises to itself. */
  lemma EmptyTypeNormalizes()
    ensures RemoveSemiDuplicatedExperimentType("") == ""
  {
    assert Split("", ';') == [""];
    assert Strip("") == "";
    assert StrippedParts("") == [""];
    assert SortStrings([""]) == [""];
    StripOther();
    assert NotOther("");
    assert Filter(NotOther, [""]) == [""];
    ExperimentTypeParts("");
  }

  // ---------------------------------------------------------------- The Text column

  /** `' '.join` of Title, Summary, Overall_design, Experiment_type and Organism. */
  function TextOf(row: DatasetRow): string {
    Join([row.title, row.summary, row.overallDesign, row.experimentType, row.organism], ' ')
  }

  /** The five fields separated by single spaces, the experiment type at its own offset. */
  lemma TextOfLayout(row: DatasetRow)
    ensures TextOf(row) == row.title + " " + row.summary + " " + row.overallDesign + " " +
                           row.experimentType + " " + row.organism
    ensures var k := |row.title| + |row.summary| + |row.overallDesign| + 3;
            k + |row.experimentType| <= |TextOf(row)| &&
            TextOf(row)[k..k + |row.experimentType|] == row.experimentType
  {
    var fs := [row.title, row.summary, row.overallDesign, row.experimentType, row.organism];
    var j4 := Join(fs[4..], ' ');
    assert fs[4..] == [row.organism];
    assert j4 == row.organism;
    var j3 := Join(fs[3..], ' ');
    assert fs[3..][1..] == fs[4..];
    assert j3 == row.experimentType + " " + row.organism;
    var j2 := Join(fs[2..], ' ');
    assert fs[2..][1..] == fs[3..];
    assert j2 == row.overallDesign + " " + j3;
    var j1 := Join(fs[1..], ' ');
    assert fs[1..][1..] == fs[2..];
    assert j1 == row.summary + " " + j2;
    assert TextOf(row) == row.title + " " + j1;
    var k := |row.title| + |row.summary| + |row.overallDesign| + 3;
    var s := TextOf(row);
    assert s[k..k + |row.experimentType|] == row.experimentType;
  }

  /** `preprocess_raw_text` on one row: Text is built first, from the experiment type as it
      was; then the type is normalised and the row selected. */
  function PreprocessRow(row: DatasetRow): DatasetRow {
    row.(text := TextOf(row),
         experimentType := RemoveSemiDuplicatedExperimentType(row.experimentType),
         isSelected := 1)
  }

  /** `preprocess_raw_text` on the frame, row by row. */
  function PreprocessRows(rows: seq<DatasetRow>): (rs: seq<DatasetRow>)
    ensures |rs| == |rows|
  {
    seq(|rows|, i requires 0 <= i < |rows| => PreprocessRow(rows[i]))
  }

  /** After preprocessing, a row's Text still carries the raw experiment type, its
      Experiment_type is the normalised one, it is selected, and nothing else changed. */
  lemma PreprocessRowKeepsRawType(row: DatasetRow)
    ensures var r := PreprocessRow(row);
            var k := |row.title| + |row.summary| + |row.overallDesign| + 3;
            k + |row.experimentType| <= |r.text| &&
            r.text[k..k + |row.experimentType|] == row.experimentType &&
            r.experimentType == RemoveSemiDuplicatedExperimentType(row.experimentType) &&
            r.isSelected == 1 &&
            r.pmid == row.pmid && r.gseCode == row.gseCode && r.title == row.title &&
            r.summary == row.summary && r.overallDesign == row.overallDesign && r.organism == row.organism
  {
    TextOfLayout(row);
  }

  // ---------------------------------------------------------------- Colours

  /** `hex_to_rgba` as written: an `rgba(...)` string with only the three colour
      components; the alpha it is given is not emitted. */
  function HexToRgbaAsWritten(hex: string, alpha: Alpha): (c: Css)
    ensures c.base == hex && c.alpha.None?
  {
    Css("rgba", hex, None)
  }

  /** Selected and unselected points of one cluster get the same colour string. */
  lemma AlphaDropped(hex: string)
    ensures HexToRgbaAsWritten(hex, Opaque) == HexToRgbaAsWritten(hex, Faded)
    ensures HexToRgbaAsWritten(hex, Opaque) != HexToRgba(hex, Opaque)
  {
  }

  /** The saved name: the deque's length before the save, then the time stamp. */
  function SaveName(idx: nat, stamp: string): string {
    "Dataset: [" + NatToString(idx) + "] " + stamp
  }

  /** A saved name reads "Dataset: [", then the digits of the index, which read back as the
      index, then "] " and the time stamp. */
  lemma SaveNameIndex(idx: nat, stamp: string)
    ensures var s, d := SaveName(idx, stamp), NatToString(idx);
            |s| == 12 + |d| + |stamp| && s[..10] == "Dataset: [" &&
            IsDigitString(s[10..10 + |d|]) && DigitsValue(s[10..10 + |d|]) == idx &&
            s[10 + |d|..12 + |d|] == "] " && s[12 + |d|..] == stamp
  {
    var s, d := SaveName(idx, stamp), NatToString(idx);
    NatToStringRoundTrip(idx);
    assert s[10..10 + |d|] == d;
  }

  class StreamlitSession {
    var preparedDf: seq<DatasetRow>
    var errorMessage: string
    var nameDeque: seq<string>
    var localDfDeque: seq<seq<DatasetRow>>
    /** `self.pubmed_api.pmids`. */
    var pubmedPmids: seq<int>
    var maxFeatures: Option<int>
    var numClusters: Option<int>
    var currentNumClusters: nat
    var currentLabels: seq<nat>
    /** The `colors` column. */
    var colours: seq<Css>

    /** The two history deques: aligned and bounded. */
    ghost predicate Valid()
      reads this
    {
      |nameDeque| == |localDfDeque| <= DequeMaxLength
    }

    /** `__init__` on a fresh session. */
    constructor ()
      ensures Valid()
      ensures preparedDf == [] && errorMessage == "" && nameDeque == [] && localDfDeque == []
    {
      preparedDf := [];
      errorMessage := "";
      nameDeque := [];
      localDfDeque := [];
      pubmedPmids := [];
      maxFeatures := None;
      numClusters := None;
      currentNumClusters := 0;
      currentLabels := [];
      colours := [];
    }

    /** `validate_chosen_file`: the distinct accepted PMIDs, in any order; with fewer than 10
        the error message is set, but the list is still returned. */
    method ValidateChosenFile(content: string) returns (pmids: seq<int>)
      modifies this`errorMessage
      ensures NoDups(pmids)
      ensures forall v :: v in pmids <==> v in UserPmids(content)
      ensures |pmids| == |Dedup(UserPmids(content))|
      ensures errorMessage == if |pmids| < MinPmids then TooFewPmidsMessage else old(errorMessage)
    {
      pmids := DistinctUserPmids(content);
      if |pmids| < MinPmids {
        errorMessage := TooFewPmidsMessage;
      }
    }

    /** `load_user_data`: the validated list becomes the retriever's PMIDs. */
    method LoadUserData(content: string)
      modifies this`pubmedPmids, this`errorMessage
      ensures NoDups(pubmedPmids)
      ensures forall v :: v in pubmedPmids <==> v in UserPmids(content)
      ensures errorMessage == if |pubmedPmids| < MinPmids then TooFewPmidsMessage else old(errorMessage)
    {
      var pmids := ValidateChosenFile(content);
      pubmedPmids := pmids;
      if |pmids| < MinPmids {
        errorMessage := TooFewPmidsMessage;
      }
    }

    /** `save_locally_dataset`: the frame and a name numbered by the deque's length go in
        front of their deques. */
    method SaveLocallyDataset(stamp: string)
      requires Valid()
      modifies this`nameDeque, this`localDfDeque
      ensures Valid()
      ensures nameDeque == AppendLeft(old(nameDeque), SaveName(|old(nameDeque)|, stamp), DequeMaxLength)
      ensures localDfDeque == AppendLeft(old(localDfDeque), preparedDf, DequeMaxLength)
    {
      var idx := |nameDeque|;
      nameDeque := AppendLeft(nameDeque, SaveName(idx, stamp), DequeMaxLength);
      localDfDeque := AppendLeft(localDfDeque, preparedDf, DequeMaxLength);
    }

    /** "Load previously saved dataset": the frame saved under the first matching name. */
    method LoadSavedDataset(selected: string) returns (res: Result<()>)
      requires Valid()
      modifies this`preparedDf
      ensures Valid()
      ensures var r := SavedFrame(nameDeque, localDfDeque, selected);
              (res.Ok? <==> r.Ok?) &&
              (r.Ok? ==> preparedDf == r.value) &&
              (r.Err? ==> res.message == r.message && preparedDf == old(preparedDf))
    {
      var r := SavedFrame(nameDeque, localDfDeque, selected);
      if r.Err? {
        return Err(r.message);
      }
      preparedDf := r.value;
      res := Ok(());
    }

    /** `validate_user_preprocessing_parameters`. */
    method ValidateUserPreprocessingParameters() returns (p: Params)
      modifies this`maxFeatures, this`numClusters
      ensures p == ValidateParameters(old(maxFeatures), old(numClusters), |preparedDf|)
      ensures maxFeatures == Some(p.maxFeatures) && numClusters == Some(p.numClusters)
    {
      if maxFeatures.None? {
        maxFeatures := Some(10);
      }
      if numClusters.None? {
        numClusters := Some(8);
      }
      var nSamples := |preparedDf|;
      var perplexity := Min(30, nSamples - 1);
      p := Params(maxFeatures.value, numClusters.value, perplexity);
    }

    /** The part of `preprocess_raw_text` that rewrites the frame. */
    method PreprocessRawText()
      modifies this`preparedDf
      ensures preparedDf == PreprocessRows(old(preparedDf))
    {
      preparedDf := PreprocessRows(preparedDf);
    }

    /** Pressing "Filter". */
    method Filter(p: PmidChoice, organism: string, experimentType: string)
      modifies this`preparedDf
      ensures preparedDf == ApplyFilter(old(preparedDf), p, organism, experimentType)
    {
      preparedDf := ApplyFilter(preparedDf, p, organism, experimentType);
    }

    /** The table under the plot. */
    function ShownRows(): (shown: seq<DatasetRow>)
      reads this
      ensures forall row :: row in shown <==> row in preparedDf && row.isSelected == 1
    {
      DisplayedMembers(preparedDf);
      Displayed(preparedDf)
    }

    /** `set_colors_and_opacity`: one colour per label, in label order; the frame is left
        alone. */
    method SetColorsAndOpacity(palette: seq<string>) returns (r: Result<seq<Css>>)
      ensures var cs := LabelColours(currentLabels, currentNumClusters, palette);
              (cs.Err? ==> r == Err(cs.message)) &&
              (cs.Ok? ==> (r.Ok? <==> |currentLabels| <= |preparedDf|)) &&
              (cs.Ok? && r.Err? ==> r.message == IndexErrorMessage) &&
              (r.Ok? ==> cs.Ok? && |r.value| == |currentLabels| <= |preparedDf|)
      ensures r.Ok? ==> (|r.value| == |currentLabels| <= |preparedDf| &&
                forall i :: 0 <= i < |currentLabels| ==> (currentLabels[i] < currentNumClusters &&
                  currentLabels[i] < |palette| &&
                  r.value[i] == HexToRgbaAsWritten(palette[currentLabels[i]], AlphaOf(preparedDf[i].isSelected))))
    {
      var cs := LabelColours(currentLabels, currentNumClusters, palette);
      if cs.Err? {
        return Err(cs.message);
      }
      LabelColoursFacts(currentLabels, currentNumClusters, palette);
      r := ColourPoints(cs.value, SelectedColumn(preparedDf), HexToRgbaAsWritten);
    }

    /** The part of `load_3d_plot` that stores the colour list in the frame's `colors`
        column, which pandas refuses when the list is not one entry per row. */
    method StoreColours(palette: seq<string>) returns (r: Result<()>)
      modifies this`colours
      ensures (r.Ok? <==> LabelColours(currentLabels, currentNumClusters, palette).Ok? &&
                          |currentLabels| == |preparedDf|)
      ensures r.Ok? ==> (|colours| == |preparedDf| &&
                forall i :: 0 <= i < |preparedDf| ==> (currentLabels[i] < |palette| &&
                  colours[i] == HexToRgbaAsWritten(palette[currentLabels[i]], AlphaOf(preparedDf[i].isSelected))))
      ensures r.Err? ==> colours == old(colours)
    {
      var cs := SetColorsAndOpacity(palette);
      if cs.Err? {
        return Err(cs.message);
      }
      if |cs.value| != |preparedDf| {
        return Err(LengthMismatchMessage);
      }
      colours := cs.value;
      r := Ok(());
    }
  }
}
