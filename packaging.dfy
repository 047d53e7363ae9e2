/** `divide_into_packages`: the list is cut at every tenth position (the stride is
    hard-coded to 10) and each cut takes `package_size` elements, so only the default size
    10 tiles the list exactly. */
module Packaging {
  import opened Seqs

  /** The `range(0, len(list), 10)` step. */
  const Stride: nat := 10
  /** The default `package_size`. */
  const DefaultPackageSize: nat := 10

  /** `len(range(0, n, 10))`. */
  function PackageCount(n: nat): nat {
    (n + Stride - 1) / Stride
  }

  /** Chunk `i` is the Python slice `xs[10*i : 10*i + size]`, clamped to the list. */
  function Packages<T>(xs: seq<T>, size: nat): seq<seq<T>> {
    seq(PackageCount(|xs|), i requires 0 <= i < PackageCount(|xs|) =>
      xs[Stride * i .. Min(Stride * i + size, |xs|)])
  }

  lemma PackageCountStep(n: nat)
    requires n > 0
    ensures n <= Stride ==> PackageCount(n) == 1
    ensures n > Stride ==> PackageCount(n) == PackageCount(n - Stride) + 1
  {
  }

  lemma PackageShift<T>(xs: seq<T>, size: nat, i: nat)
    requires |xs| > Stride && i < PackageCount(|xs| - Stride)
    ensures PackageCount(|xs|) == PackageCount(|xs| - Stride) + 1
    ensures Packages(xs, size)[i + 1] == Packages(xs[Stride..], size)[i]
  {
    PackageCountStep(|xs|);
    var lo, hi := Stride * i, Min(Stride * i + size, |xs| - Stride);
    assert Stride + lo == Stride * (i + 1);
    assert Stride + hi == Min(Stride * (i + 1) + size, |xs|);
    SliceOfSlice(xs, Stride, lo, hi);
  }

  lemma {:induction false} PackagesUnfold<T>(xs: seq<T>, size: nat)
    requires xs != []
    ensures Packages(xs, size) ==
            [xs[..Min(size, |xs|)]] + (if |xs| <= Stride then [] else Packages(xs[Stride..], size))
  {
    var p := Packages(xs, size);
    PackageCountStep(|xs|);
    if |xs| > Stride {
      var q := Packages(xs[Stride..], size);
      forall i | 0 <= i < |q| ensures p[i + 1] == q[i] {
        PackageShift(xs, size, i);
      }
      assert p == [p[0]] + q;
    }
  }

  /** With the default size the packages concatenate back to the list. */
  lemma {:induction false} PackagesConcat<T>(xs: seq<T>)
    ensures Concat(Packages(xs, DefaultPackageSize)) == xs
    decreases |xs|
  {
    if xs != [] {
      PackagesUnfold(xs, DefaultPackageSize);
      if |xs| > Stride {
        PackagesConcat(xs[Stride..]);
        assert xs == xs[..Stride] + xs[Stride..];
      } else {
        assert Concat([xs]) == xs + Concat([]);
      }
    }
  }

  /** With the default size every package holds 1 to 10 elements and only the last may hold
      fewer than 10. */
  lemma PackagesShape<T>(xs: seq<T>)
    ensures forall i :: 0 <= i < |Packages(xs, DefaultPackageSize)| ==>
              1 <= |Packages(xs, DefaultPackageSize)[i]| <= DefaultPackageSize
    ensures forall i :: 0 <= i < |Packages(xs, DefaultPackageSize)| - 1 ==>
              |Packages(xs, DefaultPackageSize)[i]| == DefaultPackageSize
  {
  }

  /** A package size up to the stride never repeats an element, so the packages hold at
      most the list's length. */
  lemma {:induction false} PackagesNoLonger<T>(xs: seq<T>, size: nat)
    requires size <= Stride
    ensures |Concat(Packages(xs, size))| <= |xs|
    decreases |xs|
  {
    if xs != [] {
      PackagesUnfold(xs, size);
      var rest := if |xs| <= Stride then [] else Packages(xs[Stride..], size);
      ConcatAppend([xs[..Min(size, |xs|)]], rest);
      assert Concat([xs[..Min(size, |xs|)]]) == xs[..Min(size, |xs|)] + Concat([]);
      if |xs| > Stride {
        PackagesNoLonger(xs[Stride..], size);
      }
    }
  }

  /** A package size below the stride skips elements: the packages hold fewer than the list. */
  lemma {:induction false} PackagesSmallerSizeLoses<T>(xs: seq<T>, size: nat)
    requires size < Stride && |xs| > size
    ensures |Concat(Packages(xs, size))| < |xs|
  {
    PackagesUnfold(xs, size);
    var rest := if |xs| <= Stride then [] else Packages(xs[Stride..], size);
    ConcatAppend([xs[..size]], rest);
    assert Concat([xs[..size]]) == xs[..size] + Concat([]);
    if |xs| > Stride {
      PackagesNoLonger(xs[Stride..], size);
    }
  }
}
