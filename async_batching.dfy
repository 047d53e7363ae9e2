/** The batching helpers of the earlier asynchronous retriever: a PMID list read from a file
    and a list of packages, both fields that only ever grow. */
module AsyncBatching {
  import opened Seqs
  import opened Text
  import opened Packaging

  /** The values a load appends: accepted line values not yet in the list, first occurrences
      only, after the ones already there. A load into a duplicate-free list keeps it
      duplicate-free, keeps the earlier entries as a prefix, and adds exactly the accepted
      values. */
  lemma LoadAppendsNew(acc: seq<int>, lines: seq<string>)
    ensures acc <= AppendNew(acc, LineValues(lines))
    ensures NoDups(acc) ==> NoDups(AppendNew(acc, LineValues(lines)))
    ensures forall v :: v in AppendNew(acc, LineValues(lines)) <==>
              v in acc || exists i :: 0 <= i < |lines| && IsDigitString(Strip(lines[i])) && v == DigitsValue(Strip(lines[i]))
  {
    AppendNewFacts(acc, LineValues(lines));
    LineValuesMembers(lines);
  }

  /** Every package of one call holds at most `package_size` elements, and with the default
      size the packages of one call concatenate to the list. */
  lemma PackagesOfOneCall(xs: seq<int>, size: nat)
    ensures forall i :: 0 <= i < |Packages(xs, size)| ==> |Packages(xs, size)[i]| <= size
    ensures size == DefaultPackageSize ==> Concat(Packages(xs, size)) == xs
  {
    if size == DefaultPackageSize {
      PackagesConcat(xs);
    }
  }

  class AsyncDataRetriever {
    /** `self.pmid_list`. */
    var pmidList: seq<int>
    /** `self.chunked_list`, which no method clears. */
    var chunkedList: seq<seq<int>>

    /** `__init__`: empty lists, then the PMIDs of the file. */
    constructor (lines: seq<string>)
      ensures pmidList == LoadedPmids(lines)
      ensures chunkedList == []
    {
      pmidList := [];
      chunkedList := [];
      new;
      var _ := LoadPmidsFromFile(lines);
    }

    /** `_load_pmids_from_file`: appends each accepted value not yet in the list; the list
        is not reset first. */
    method LoadPmidsFromFile(lines: seq<string>) returns (r: seq<int>)
      modifies this
      ensures pmidList == AppendNew(old(pmidList), LineValues(lines))
      ensures r == pmidList && chunkedList == old(chunkedList)
    {
      for i := 0 to |lines|
        invariant pmidList == AppendNew(old(pmidList), LineValues(lines[..i]))
        invariant chunkedList == old(chunkedList)
      {
        var line := Strip(lines[i]);
        ghost var vals := LineValues(lines[..i]);
        assert lines[..i + 1] == lines[..i] + [lines[i]];
        LineValuesAppend(lines[..i], lines[i]);
        if IsDigitString(line) {
          assert LineValues(lines[..i + 1]) == vals + [DigitsValue(line)];
          AppendNewSnoc(old(pmidList), vals, DigitsValue(line));
          if DigitsValue(line) !in pmidList {
            pmidList := pmidList + [DigitsValue(line)];
          }
        } else {
          assert LineValues(lines[..i + 1]) == vals;
        }
      }
      assert lines[..|lines|] == lines;
      r := pmidList;
    }

    /** `divide_into_packages`: appends the packages of `pmid_list` to `chunked_list`. */
    method DivideIntoPackages(packageSize: nat := DefaultPackageSize) returns (chunks: seq<seq<int>>)
      modifies this
      ensures chunkedList == old(chunkedList) + Packages(pmidList, packageSize)
      ensures chunks == chunkedList && pmidList == old(pmidList)
    {
      var i := 0;
      ghost var k := 0;
      while i < |pmidList|
        invariant i == Stride * k && k <= PackageCount(|pmidList|)
        invariant k < PackageCount(|pmidList|) ==> i < |pmidList|
        invariant chunkedList == old(chunkedList) + Packages(pmidList, packageSize)[..k]
        invariant pmidList == old(pmidList)
        decreases |pmidList| - i
      {
        ghost var ps := Packages(pmidList, packageSize);
        assert ps[..k + 1] == ps[..k] + [pmidList[i..Min(i + packageSize, |pmidList|)]];
        chunkedList := chunkedList + [pmidList[i..Min(i + packageSize, |pmidList|)]];
        i := i + Stride;
        k := k + 1;
      }
      assert Packages(pmidList, packageSize)[..k] == Packages(pmidList, packageSize);
      chunks := chunkedList;
    }

    /** Two calls in a row append the same packages twice. */
    method DivideTwice() returns (chunks: seq<seq<int>>)
      modifies this
      ensures chunks == old(chunkedList) + Packages(pmidList, DefaultPackageSize) + Packages(pmidList, DefaultPackageSize)
      ensures chunks == chunkedList && pmidList == old(pmidList)
    {
      chunks := DivideIntoPackages();
      chunks := DivideIntoPackages();
    }
  }
}
