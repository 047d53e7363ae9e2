/** The main dashboard: validation of an uploaded PMID file (which raises on too short a
    list), the history of saved datasets, the filter, the parameter defaults and the colour
    column of the plot. */
module AppFront {
  import opened Seqs
  import opened Text
  import opened Dashboard

  /** `hex_to_rgba` as written: an `rgb(...)` string with only the three colour components;
      the alpha it is given is not emitted. */
  function HexToRgbAsWritten(hex: string, alpha: Alpha): (c: Css)
    ensures c.base == hex && c.alpha.None?
  {
    Css("rgb", hex, None)
  }

  /** Selected and unselected points of one cluster get the same colour string, which is not
      the one the alpha-carrying conversion gives. */
  lemma AlphaDropped(hex: string)
    ensures HexToRgbAsWritten(hex, Opaque) == HexToRgbAsWritten(hex, Faded)
    ensures HexToRgbAsWritten(hex, Opaque) != HexToRgba(hex, Opaque)
  {
  }

  /** The saved name: "Dataset: " and the time stamp. */
  function SaveName(stamp: string): (name: string)
    ensures |name| == 9 + |stamp| && name[9..] == stamp
  {
    "Dataset: " + stamp
  }

  /** Two saves with the same time stamp give equal names, and reloading that name gives the
      newer frame. */
  lemma SameStampReloadsNewest(names: seq<string>, frames: seq<seq<DatasetRow>>, stamp: string,
                               older: seq<DatasetRow>, newer: seq<DatasetRow>)
    requires |names| == |frames|
    ensures var n1 := AppendLeft(names, SaveName(stamp), DequeMaxLength);
            var f1 := AppendLeft(frames, older, DequeMaxLength);
            var n2 := AppendLeft(n1, SaveName(stamp), DequeMaxLength);
            var f2 := AppendLeft(f1, newer, DequeMaxLength);
            n2[0] == n2[1] && SavedFrame(n2, f2, SaveName(stamp)) == Ok(newer)
  {
    var n1 := AppendLeft(names, SaveName(stamp), DequeMaxLength);
    var f1 := AppendLeft(frames, older, DequeMaxLength);
    ReloadAfterSave(n1, f1, SaveName(stamp), newer);
  }

  class MainAppSession {
    /** `st.session_state.pmid_df`. */
    var pmidDf: seq<DatasetRow>
    /** The text last shown in the error placeholder. */
    var errorMessage: string
    var nameDeque: seq<string>
    var localDfDeque: seq<seq<DatasetRow>>
    /** `self.pubmed_api.pmids`. */
    var pubmedPmids: seq<int>
    var maxFeatures: Option<int>
    var numClusters: Option<int>
    var currentNumClusters: nat
    var currentLabels: seq<nat>
    /** The `colors` column. */
    var colours: seq<Css>

    /** The two history deques: aligned and bounded. */
    ghost predicate Valid()
      reads this
    {
      |nameDeque| == |localDfDeque| <= DequeMaxLength
    }

    /** `__init__` on a fresh session. */
    constructor ()
      ensures Valid()
      ensures pmidDf == [] && errorMessage == "" && nameDeque == [] && localDfDeque == []
      ensures pubmedPmids == [] && colours == []
    {
      pmidDf := [];
      errorMessage := "";
      nameDeque := [];
      localDfDeque := [];
      pubmedPmids := [];
      maxFeatures := None;
      numClusters := None;
      currentNumClusters := 0;
      currentLabels := [];
      colours := [];
    }

    /** `validate_chosen_file`: the distinct accepted PMIDs, in any order; with fewer than 10
        the message is shown and an exception raised instead. */
    method ValidateChosenFile(content: string) returns (r: Result<seq<int>>)
      modifies this`errorMessage
      ensures r.Err? <==> |Dedup(UserPmids(content))| < MinPmids
      ensures r.Err? ==> r.message == TooFewPmidsMessage && errorMessage == TooFewPmidsMessage
      ensures r.Ok? ==> NoDups(r.value) && |r.value| >= MinPmids && errorMessage == old(errorMessage)
      ensures r.Ok? ==> forall v :: v in r.value <==> v in UserPmids(content)
    {
      var pmids := DistinctUserPmids(content);
      if |pmids| < MinPmids {
        errorMessage := TooFewPmidsMessage;
        return Err(TooFewPmidsMessage);
      }
      r := Ok(pmids);
    }

    /** `load_user_data`: the validated list becomes the retriever's PMIDs; when validation
        raises, the retriever keeps the PMIDs it had. */
    method LoadUserData(content: string) returns (r: Result<()>)
      modifies this`pubmedPmids, this`errorMessage
      ensures r.Err? <==> |Dedup(UserPmids(content))| < MinPmids
      ensures r.Err? ==> r.message == TooFewPmidsMessage && pubmedPmids == old(pubmedPmids)
      ensures errorMessage == if r.Err? then TooFewPmidsMessage else old(errorMessage)
      ensures r.Ok? ==> NoDups(pubmedPmids) && |pubmedPmids| >= MinPmids
      ensures r.Ok? ==> forall v :: v in pubmedPmids <==> v in UserPmids(content)
    {
      var pmids := ValidateChosenFile(content);
      if pmids.Err? {
        return Err(pmids.message);
      }
      pubmedPmids := pmids.value;
      r := Ok(());
    }

    /** `save_locally_dataset`: the frame and its name go in front of their deques. */
    method SaveLocallyDataset(stamp: string)
      requires Valid()
      modifies this`nameDeque, this`localDfDeque
      ensures Valid()
      ensures nameDeque == AppendLeft(old(nameDeque), SaveName(stamp), DequeMaxLength)
      ensures localDfDeque == AppendLeft(old(localDfDeque), pmidDf, DequeMaxLength)
    {
      nameDeque := AppendLeft(nameDeque, SaveName(stamp), DequeMaxLength);
      localDfDeque := AppendLeft(localDfDeque, pmidDf, DequeMaxLength);
    }

    /** "Load previously saved dataset": the frame saved under the first matching name. */
    method LoadSavedDataset(selected: string) returns (res: Result<()>)
      requires Valid()
      modifies this`pmidDf
      ensures Valid()
      ensures var r := SavedFrame(nameDeque, localDfDeque, selected);
              (res.Ok? <==> r.Ok?) &&
              (r.Ok? ==> pmidDf == r.value) &&
              (r.Err? ==> res.message == r.message && pmidDf == old(pmidDf))
    {
      var r := SavedFrame(nameDeque, localDfDeque, selected);
      if r.Err? {
        return Err(r.message);
      }
      pmidDf := r.value;
      res := Ok(());
    }

    /** `validate_user_preprocessing_parameters`. */
    method ValidateUserPreprocessingParameters() returns (p: Params)
      modifies this`maxFeatures, this`numClusters
      ensures p == ValidateParameters(old(maxFeatures), old(numClusters), |pmidDf|)
      ensures maxFeatures == Some(p.maxFeatures) && numClusters == Some(p.numClusters)
    {
      if maxFeatures.None? {
        maxFeatures := Some(10);
      }
      if numClusters.None? {
        numClusters := Some(8);
      }
      var nSamples := |pmidDf|;
      var perplexity := Min(PerplexityMax, nSamples - 1);
      p := Params(maxFeatures.value, numClusters.value, perplexity);
    }

    /** Pressing "Filter". */
    method Filter(p: PmidChoice, organism: string, experimentType: string)
      modifies this`pmidDf
      ensures pmidDf == ApplyFilter(old(pmidDf), p, organism, experimentType)
    {
      pmidDf := ApplyFilter(pmidDf, p, organism, experimentType);
    }

    /** The table under the plot. */
    function ShownRows(): (shown: seq<DatasetRow>)
      reads this
      ensures forall row :: row in shown <==> row in pmidDf && row.isSelected == 1
    {
      DisplayedMembers(pmidDf);
      Displayed(pmidDf)
    }

    /** `set_colors_and_opacity`: one colour per label, in label order, stored in the frame's
        `colors` column, which pandas refuses when the list is not one entry per row. */
    method SetColorsAndOpacity(palette: seq<string>) returns (r: Result<()>)
      modifies this`colours
      ensures var cs := LabelColours(currentLabels, currentNumClusters, palette);
              (cs.Err? ==> r == Err(cs.message)) &&
              (cs.Ok? ==> (r.Ok? <==> |currentLabels| == |pmidDf|))
      ensures r.Ok? ==> (|colours| == |pmidDf| &&
                forall i :: 0 <= i < |pmidDf| ==> (currentLabels[i] < currentNumClusters &&
                  currentLabels[i] < |palette| &&
                  colours[i] == HexToRgbAsWritten(palette[currentLabels[i]], AlphaOf(pmidDf[i].isSelected))))
      ensures r.Err? ==> colours == old(colours)
    {
      var cs := LabelColours(currentLabels, currentNumClusters, palette);
      if cs.Err? {
        return Err(cs.message);
      }
      LabelColoursFacts(currentLabels, currentNumClusters, palette);
      var final := ColourPoints(cs.value, SelectedColumn(pmidDf), HexToRgbAsWritten);
      if final.Err? {
        return Err(final.message);
      }
      if |final.value| != |pmidDf| {
        return Err(LengthMismatchMessage);
      }
      colours := final.value;
      r := Ok(());
    }
  }
}
