/**
 * Naming of the compressed result: `<stem>_compressed.mp4` in the output folder,
 * numbered `_2` ... `_999` when that name is taken, never overwriting an existing
 * output, and downloaded first under the same name with ".part" appended.
 * The output folder is the set of names that already exist in it.
 */
module OutputNaming {
  import opened Wrappers
  import opened Text
  import opened Paths

  /** The extension used when the desired name has none. */
  const DefaultExt := ".mp4"
  /** The numbers tried after the plain name: range(2, 1000). */
  const FirstNumber := 2
  const LastNumber := 999
  const CompressedTag := "_compressed"
  const PartExt := ".part"

  /** The RuntimeError raised when every candidate name is taken. */
  datatype NamingError = RefusingToOverwrite(desired: string)

  /** Suffix of the desired name, or ".mp4" when it has none. */
  function OutputExt(desired: string): (ext: string)
    ensures |ext| >= 2 && ext[0] == '.' && '/' !in ext
  {
    var s := Suffix(desired);
    if s == [] then DefaultExt else s
  }

  /** The i-th fallback name `base_i.ext`. */
  function Numbered(base: string, ext: string, i: nat): string {
    base + "_" + Decimal(i) + ext
  }

  /** The plain name and all 998 numbered names already exist. */
  predicate AllTaken(existing: set<string>, base: string, ext: string) {
    && base + ext in existing
    && forall i :: FirstNumber <= i <= LastNumber ==> Numbered(base, ext, i) in existing
  }

  /**
   * `_unique_output_path`: the plain name when it is free, otherwise the free
   * numbered name with the smallest number, and an error when all are taken.
   */
  method UniqueOutputName(existing: set<string>, desired: string) returns (r: Result<string, NamingError>)
    ensures r.Success? ==> r.value !in existing
    ensures Stem(desired) + OutputExt(desired) !in existing ==> r == Success(Stem(desired) + OutputExt(desired))
    ensures r.Failure? <==> AllTaken(existing, Stem(desired), OutputExt(desired))
    ensures r.Failure? ==> r.error == RefusingToOverwrite(desired)
    ensures r.Success? && Stem(desired) + OutputExt(desired) in existing ==>
              exists i :: FirstNumber <= i <= LastNumber && r.value == Numbered(Stem(desired), OutputExt(desired), i)
                          && forall j :: FirstNumber <= j < i ==> Numbered(Stem(desired), OutputExt(desired), j) in existing
  {
    var base := Stem(desired);
    var ext := OutputExt(desired);
    var candidate := base + ext;
    if candidate !in existing {
      return Success(candidate);
    }
    for i := FirstNumber to LastNumber + 1
      invariant forall j :: FirstNumber <= j < i ==> Numbered(base, ext, j) in existing
    {
      candidate := Numbered(base, ext, i);
      if candidate !in existing {
        return Success(candidate);
      }
    }
    return Failure(RefusingToOverwrite(desired));
  }

  /** Distinct numbers give distinct fallback names. */
  lemma NumberedInjective(base: string, ext: string, i: nat, j: nat)
    requires Numbered(base, ext, i) == Numbered(base, ext, j)
    ensures i == j
  {
    var head := base + "_";
    var di, dj := Decimal(i), Decimal(j);
    assert Numbered(base, ext, i) == head + di + ext;
    assert Numbered(base, ext, j) == head + dj + ext;
    assert |di| == |dj|;
    assert di == (head + di + ext)[|head|..|head| + |di|];
    assert dj == (head + dj + ext)[|head|..|head| + |dj|];
    DecimalInjective(i, j);
  }

  lemma NumberedParts(base: string, ext: string, i: nat)
    ensures StartsWith(Numbered(base, ext, i), base) && EndsWith(Numbered(base, ext, i), ext)
  {
    var n := Numbered(base, ext, i);
    assert n[..|base|] == base;
    assert n[|n| - |ext|..] == ext;
  }

  /** The names tried up to number n: the plain name and `base_2` ... `base_n`. */
  ghost function Tried(base: string, ext: string, n: nat): set<string>
    decreases n
  {
    if n < FirstNumber then {base + ext} else Tried(base, ext, n - 1) + {Numbered(base, ext, n)}
  }

  lemma {:induction false} TriedMembers(base: string, ext: string, n: nat, name: string)
    requires name in Tried(base, ext, n)
    ensures name == base + ext || exists i :: FirstNumber <= i <= n && name == Numbered(base, ext, i)
    decreases n
  {
    if n >= FirstNumber && name != Numbered(base, ext, n) {
      TriedMembers(base, ext, n - 1, name);
    }
  }

  lemma {:induction false} TriedCount(base: string, ext: string, n: nat)
    ensures |Tried(base, ext, n)| == if n < FirstNumber then 1 else n
    decreases n
  {
    if n >= FirstNumber {
      TriedCount(base, ext, n - 1);
      var next := Numbered(base, ext, n);
      if next in Tried(base, ext, n - 1) {
        TriedMembers(base, ext, n - 1, next);
        var i :| FirstNumber <= i <= n - 1 && next == Numbered(base, ext, i);
        NumberedInjective(base, ext, i, n);
      }
    }
  }

  lemma {:induction false} TriedAllTaken(existing: set<string>, base: string, ext: string, n: nat)
    requires AllTaken(existing, base, ext) && n <= LastNumber
    ensures Tried(base, ext, n) <= existing
    decreases n
  {
    if n >= FirstNumber {
      TriedAllTaken(existing, base, ext, n - 1);
    }
  }

  /** The refusal happens only when the output folder already holds at least 999 names. */
  lemma RefusalNeedsManyOutputs(existing: set<string>, base: string, ext: string)
    requires AllTaken(existing, base, ext)
    ensures |existing| >= LastNumber
  {
    TriedAllTaken(existing, base, ext, LastNumber);
    TriedCount(base, ext, LastNumber);
    SubsetCardinality(Tried(base, ext, LastNumber), existing);
  }

  lemma {:induction false} SubsetCardinality<T>(a: set<T>, b: set<T>)
    requires a <= b
    ensures |a| <= |b|
    decreases a
  {
    if a != {} {
      var x :| x in a;
      SubsetCardinality(a - {x}, b - {x});
    }
  }

  /** The name the compressed download is saved under: `<stem>_compressed.mp4`. */
  function CompressedName(filename: string): string {
    Stem(filename) + CompressedTag + DefaultExt
  }

  /** The compressed name splits into stem `<stem>_compressed` and suffix ".mp4". */
  lemma CompressedNameParts(filename: string)
    ensures Stem(CompressedName(filename)) == Stem(filename) + CompressedTag
    ensures OutputExt(CompressedName(filename)) == DefaultExt
  {
    var base := Stem(filename) + CompressedTag;
    assert '/' !in base by {
      assert '/' !in Stem(filename) && '/' !in CompressedTag;
    }
    assert '.' !in DefaultExt[1..];
    SplitSuffix(base, DefaultExt);
  }

  /** Where a finished download goes: its final name and the temporary name written first. */
  datatype Download = Download(final: string, part: string)

  /**
   * Lines 236-240 of `process_file`: pick a free name for `<stem>_compressed.mp4`
   * and the temporary ".part" name beside it.
   */
  method PlanDownload(existing: set<string>, filename: string) returns (r: Result<Download, NamingError>)
    ensures r.Success? ==> r.value.final !in existing && r.value.part == r.value.final + PartExt
    ensures r.Success? ==> StartsWith(r.value.final, Stem(filename) + CompressedTag) && EndsWith(r.value.final, DefaultExt)
    ensures CompressedName(filename) !in existing ==>
              r == Success(Download(CompressedName(filename), CompressedName(filename) + PartExt))
    ensures r.Failure? <==> AllTaken(existing, Stem(filename) + CompressedTag, DefaultExt)
    ensures r.Success? && CompressedName(filename) in existing ==>
              exists i :: FirstNumber <= i <= LastNumber && r.value.final == Numbered(Stem(filename) + CompressedTag, DefaultExt, i)
                          && forall j :: FirstNumber <= j < i ==> Numbered(Stem(filename) + CompressedTag, DefaultExt, j) in existing
  {
    var desired := CompressedName(filename);
    CompressedNameParts(filename);
    var base := Stem(filename) + CompressedTag;
    assert desired == base + DefaultExt;
    var named := UniqueOutputName(existing, desired);
    match named
    case Failure(e) =>
      r := Failure(e);
    case Success(final) =>
      assert StartsWith(final, base) && EndsWith(final, DefaultExt) by {
        if final != desired {
          var i :| FirstNumber <= i <= LastNumber && final == Numbered(base, DefaultExt, i);
          NumberedParts(base, DefaultExt, i);
        }
      }
      assert IsBareName(final) by {
        assert '/' !in Stem(filename);
        assert '/' !in final;
      }
      r := Success(Download(final, PartName(final)));
  }
}
