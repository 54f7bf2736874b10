/** The dataset splitter of src/split_and_copy_dataset.py.py: discover the
    image stems, shuffle them, cut the shuffled list into train, valid and
    test slices and copy each slice's images and labels into
    `<root>/<subset>/images` and `<root>/<subset>/labels`.

    The file system is a `FileSystem` object whose `files` map the methods
    update in place; the specification of each copy is a function on maps
    (`CopyAll`, `SplitFiles`) about which the lemmas below are proved. */
module SplitDataset {
  import opened PathUtil
  import opened SplitRatios

  type Bytes = seq<bv8>

  /** No stem occurs twice. */
  predicate Distinct(s: seq<string>)
  {
    forall i, j :: 0 <= i < j < |s| ==> s[i] != s[j]
  }

  /** No element of `a` occurs in `b`. */
  predicate Disjoint(a: seq<string>, b: seq<string>)
  {
    forall x :: x in a ==> x !in b
  }

  // ---------------------------------------------------------------------
  // Discovering the image stems (line 42)
  // ---------------------------------------------------------------------

  /** A listed image name with the image extension removed. */
  function Stem(name: string, ext: string): (s: string)
    requires EndsWith(name, ext)
    ensures s + ext == name
  {
    assert name == name[..|name| - |ext|] + name[|name| - |ext|..];
    name[..|name| - |ext|]
  }

  /** The stems of the listed names that end in the image extension, in
      listing order: each stem comes from a listed image name, and every
      listed image name contributes its stem. */
  function DiscoverStems(listing: seq<string>, ext: string): (r: seq<string>)
    ensures |r| <= |listing|
    ensures forall s :: s in r ==> s + ext in listing
    ensures forall f :: f in listing && EndsWith(f, ext) ==> Stem(f, ext) in r
  {
    if listing == [] then []
    else
      var f := listing[|listing| - 1];
      DiscoverStems(listing[..|listing| - 1], ext) + (if EndsWith(f, ext) then [Stem(f, ext)] else [])
  }

  /** Names that `os.listdir` returns are distinct, and then so are the stems. */
  lemma {:induction false} DiscoverStemsDistinct(listing: seq<string>, ext: string)
    requires Distinct(listing)
    ensures Distinct(DiscoverStems(listing, ext))
  {
    if listing != [] {
      var init, f := listing[..|listing| - 1], listing[|listing| - 1];
      DiscoverStemsDistinct(init, ext);
      var prev := DiscoverStems(init, ext);
      if EndsWith(f, ext) {
        var s := Stem(f, ext);
        assert f !in init by {
          forall k | 0 <= k < |init| ensures init[k] != f {
            assert listing[k] == init[k];
          }
        }
        assert s !in prev;
        var r := prev + [s];
        forall i, j | 0 <= i < j < |r| ensures r[i] != r[j] {
          if j == |prev| {
            assert r[i] in prev;
          } else {
            assert r[i] == prev[i] && r[j] == prev[j];
          }
        }
      }
    }
  }

  // ---------------------------------------------------------------------
  // The stem as line 42 computes it: `os.path.splitext(f)[0]`
  // ---------------------------------------------------------------------

  /** Index of the last '.' in `s`, or -1 when there is none. */
  function LastDot(s: string): (d: int)
    ensures -1 <= d < |s|
    ensures d >= 0 ==> s[d] == '.'
    ensures forall k :: d < k < |s| ==> s[k] != '.'
  {
    if s == [] then -1
    else if s[|s| - 1] == '.' then |s| - 1
    else LastDot(s[..|s| - 1])
  }

  /** Some character of `s` is not a dot. */
  predicate NotAllDots(s: string)
  {
    exists k :: 0 <= k < |s| && s[k] != '.'
  }

  /** `os.path.splitext(name)[0]` for a name without separators: the name up
      to its last dot, unless everything before that dot is a dot (a hidden
      file such as ".jpg" has no extension). */
  function SplitExtRoot(name: string): (root: string)
    ensures |root| <= |name| && root == name[..|root|]
    ensures |root| < |name| ==> name[|root|] == '.' && forall k :: |root| < k < |name| ==> name[k] != '.'
  {
    var d := LastDot(name);
    if d >= 0 && NotAllDots(name[..d]) then name[..d] else name
  }

  /** Line 42 as written: the listed image names, each cut by `splitext`. */
  function DiscoverStemsAsWritten(listing: seq<string>, ext: string): (r: seq<string>)
    ensures |r| <= |listing|
    ensures forall f :: f in listing && EndsWith(f, ext) ==> SplitExtRoot(f) in r
    ensures forall s :: s in r ==> exists f :: f in listing && EndsWith(f, ext) && SplitExtRoot(f) == s
  {
    if listing == [] then []
    else
      var f := listing[|listing| - 1];
      DiscoverStemsAsWritten(listing[..|listing| - 1], ext) + (if EndsWith(f, ext) then [SplitExtRoot(f)] else [])
  }

  /** For an ordinary name `s + "." + e` (an extension without further dots,
      and a stem that is not all dots) `splitext` cuts exactly the extension. */
  lemma SplitExtRootOfOrdinaryName(s: string, e: string)
    requires '.' !in e && NotAllDots(s)
    ensures SplitExtRoot(s + "." + e) == s
  {
    var name := s + "." + e;
    var d := LastDot(name);
    assert name[|s|] == '.';
    assert forall k :: |s| < k < |name| ==> name[k] == e[k - |s| - 1];
    assert d == |s|;
    assert name[..d] == s;
  }

  /** On listings whose image names are ordinary, line 42 as written and the
      corrected stem agree. */
  lemma {:induction false} AsWrittenAgreesOnOrdinaryNames(listing: seq<string>, e: string)
    requires '.' !in e
    requires forall f :: f in listing && EndsWith(f, "." + e) ==> NotAllDots(Stem(f, "." + e))
    ensures DiscoverStemsAsWritten(listing, "." + e) == DiscoverStems(listing, "." + e)
  {
    if listing != [] {
      var init, f := listing[..|listing| - 1], listing[|listing| - 1];
      AsWrittenAgreesOnOrdinaryNames(init, e);
      if EndsWith(f, "." + e) {
        var s := Stem(f, "." + e);
        assert s + "." + e == f;
        SplitExtRootOfOrdinaryName(s, e);
      }
    }
  }

  /** Line 42 as written cuts the listed image "a.jpg" at its dot. */
  lemma AsWrittenStemOfImage()
    ensures DiscoverStemsAsWritten(["a.jpg"], "jpg") == ["a"]
  {
    var name := "a.jpg";
    assert EndsWith(name, "jpg");
    assert LastDot(name) == 1 by {
      assert name[4] != '.' && name[3] != '.' && name[2] != '.' && name[1] == '.';
      assert name[..4][..3][..2] == "a.";
    }
    assert name[..1] == "a" && name[0] != '.';
    assert SplitExtRoot(name) == "a";
    assert ["a.jpg"][..0] == [];
  }

  /** The corrected stem removes exactly the extension "jpg", dot kept. */
  lemma CorrectedStemOfImage()
    ensures DiscoverStems(["a.jpg"], "jpg") == ["a."]
  {
    assert EndsWith("a.jpg", "jpg");
    assert Stem("a.jpg", "jpg") == "a.";
    assert ["a.jpg"][..0] == [];
  }

  /** Copying the stem "a" with extension "jpg" looks for "img/ajpg" and so
      copies nothing from a directory holding only "img/a.jpg". */
  lemma AsWrittenCopyMissesImage(content: Bytes)
    ensures var c := CopyConfig("img", "lbl", "jpg", ".txt");
            var fs := map["img/a.jpg" := content];
            CopyAll(fs, c, "out", ["a"]) == fs
  {
    var c := CopyConfig("img", "lbl", "jpg", ".txt");
    var fs := map["img/a.jpg" := content];
    assert SrcImage(c, "a") == "img/ajpg";
    assert SrcLabel(c, "a") == "lbl/a.txt";
    assert ["a"][..0] == [];
    assert CopyAll(fs, c, "out", ["a"]) == CopyOne(fs, c, "out", "a");
  }

  /** The paths the copy of the stem "a." builds in the example below. */
  lemma ExamplePaths()
    ensures var c := CopyConfig("img", "lbl", "jpg", ".txt");
            && SrcImage(c, "a.") == "img/a.jpg"
            && DstImage(c, "out", "a.") == "out/images/a.jpg"
            && SrcLabel(c, "a.") == "lbl/a..txt"
  {
    JoinUnder("img", "a.jpg");
    JoinUnder("lbl", "a..txt");
    JoinUnder("out", "images");
    JoinUnder("out/images", "a.jpg");
  }

  /** Joining a name under a directory that does not end in a separator. */
  lemma JoinUnder(a: Path, b: string)
    requires a != [] && a[|a| - 1] != '/' && b != [] && b[0] != '/'
    ensures Join(a, b) == a + "/" + b
  {
  }

  /** Copying the stem "a." finds "img/a.jpg" and copies it. */
  lemma CorrectedCopyFindsImage(content: Bytes)
    ensures var c := CopyConfig("img", "lbl", "jpg", ".txt");
            var fs := map["img/a.jpg" := content];
            CopyAll(fs, c, "out", ["a."]) == fs["out/images/a.jpg" := content]
  {
    var c := CopyConfig("img", "lbl", "jpg", ".txt");
    var fs := map["img/a.jpg" := content];
    var m := fs["out/images/a.jpg" := content];
    ExamplePaths();
    assert "lbl/a..txt" !in m by {
      assert m.Keys == {"img/a.jpg", "out/images/a.jpg"};
    }
    assert CopyOne(fs, c, "out", "a.") == m;
    assert ["a."][..0] == [];
  }

  /** With image extension "jpg" (no leading dot) the listed image "a.jpg"
      yields the stem "a" as written, so the copy looks for "img/ajpg" and
      copies no image; the corrected stem "a." finds "img/a.jpg". */
  lemma AsWrittenStemMissesImage(content: Bytes)
    ensures var c := CopyConfig("img", "lbl", "jpg", ".txt");
            var fs := map["img/a.jpg" := content];
            && CopyAll(fs, c, "out", DiscoverStemsAsWritten(["a.jpg"], "jpg")) == fs
            && CopyAll(fs, c, "out", DiscoverStems(["a.jpg"], "jpg")) == fs["out/images/a.jpg" := content]
  {
    AsWrittenStemOfImage();
    CorrectedStemOfImage();
    AsWrittenCopyMissesImage(content);
    CorrectedCopyFindsImage(content);
  }

  // ---------------------------------------------------------------------
  // The shuffle (line 48)
  // ---------------------------------------------------------------------

  /** The random draws `random.shuffle` makes on a list of length `n`:
      for i = n-1 down to 1 it draws j below i + 1; `draws[k]` is the draw
      for i = n-1-k. */
  predicate ValidDraws(draws: seq<nat>, n: nat)
  {
    |draws| + 1 >= n && forall k :: 0 <= k < |draws| && k + 1 < n ==> draws[k] < n - k
  }

  /** `random.shuffle(x)` with its random source given as `draws`: the
      Fisher-Yates loop, for i = n-1 down to 1 exchanging x[i] with x[j] for
      the drawn j. The result is a permutation of `x`. */
  method Shuffle(x: seq<string>, draws: seq<nat>) returns (r: seq<string>)
    requires ValidDraws(draws, |x|)
    ensures multiset(r) == multiset(x)
  {
    r := x;
    if |x| == 0 {
      return;
    }
    var i := |x| - 1;
    while i >= 1
      invariant 0 <= i <= |x| - 1
      invariant |r| == |x|
      invariant multiset(r) == multiset(x)
    {
      var j := draws[|x| - 1 - i];
      r := r[i := r[j]][j := r[i]];
      i := i - 1;
    }
  }

  /** A list without duplicates holds each element once. */
  lemma {:induction false} DistinctOnce(a: seq<string>, x: string)
    requires Distinct(a)
    ensures multiset(a)[x] <= 1
  {
    if a != [] {
      var init, y := a[..|a| - 1], a[|a| - 1];
      assert a == init + [y];
      assert Distinct(init) by {
        forall i, j | 0 <= i < j < |init| ensures init[i] != init[j] {
          assert init[i] == a[i] && init[j] == a[j];
        }
      }
      DistinctOnce(init, x);
      if x == y {
        assert x !in init by {
          forall i | 0 <= i < |init| ensures init[i] != x {
            assert a[i] == init[i];
          }
        }
      }
    }
  }

  /** A permutation of a list without duplicates has no duplicates: the
      shuffle neither duplicates nor loses a stem. */
  lemma PermutationKeepsDistinct(a: seq<string>, b: seq<string>)
    requires multiset(a) == multiset(b) && Distinct(a)
    ensures Distinct(b)
  {
    forall i, j | 0 <= i < j < |b| ensures b[i] != b[j] {
      if b[i] == b[j] {
        var x := b[i];
        assert b == b[..i + 1] + b[i + 1..j + 1] + b[j + 1..];
        assert x in b[..i + 1] && x in b[i + 1..j + 1];
        assert multiset(b)[x] >= 2;
        DistinctOnce(a, x);
      }
    }
  }

  // ---------------------------------------------------------------------
  // Counts and slices (lines 51-54, 62-72)
  // ---------------------------------------------------------------------

  function Min(a: nat, b: nat): nat
  {
    if a <= b then a else b
  }

  /** Python `s[lo:hi]` for non-negative bounds: both bounds are clamped to
      the length, and a slice whose start passes its end is empty. */
  function Slice(s: seq<string>, lo: nat, hi: nat): (r: seq<string>)
    ensures |r| <= |s|
    ensures forall x :: x in r ==> x in s
  {
    var l, h := Min(lo, |s|), Min(hi, |s|);
    if l <= h then s[l..h] else []
  }

  /** The three slices of lines 64, 68 and 72, in order, make up the whole
      list, whatever the counts. */
  lemma SlicesPartition(s: seq<string>, t: nat, v: nat)
    ensures Slice(s, 0, t) + Slice(s, t, t + v) + Slice(s, t + v, |s|) == s
  {
    var a, b := Min(t, |s|), Min(t + v, |s|);
    assert Slice(s, 0, t) == s[..a];
    assert Slice(s, t, t + v) == s[a..b];
    assert Slice(s, t + v, |s|) == s[b..];
    assert s[..a] + s[a..b] == s[..b];
    assert s[..b] + s[b..] == s;
  }

  /** When the train and valid counts fit, the slices have exactly
      `train_count`, `valid_count` and `test_count` elements. */
  lemma SliceSizes(s: seq<string>, t: nat, v: nat)
    requires t + v <= |s|
    ensures |Slice(s, 0, t)| == t
    ensures |Slice(s, t, t + v)| == v
    ensures |Slice(s, t + v, |s|)| == TestCount(|s|, t, v)
  {
  }

  /** In a list without duplicates, the element at `i` is in a slice exactly
      when `i` lies inside the slice's bounds. */
  lemma SliceMember(s: seq<string>, lo: nat, hi: nat, i: nat)
    requires Distinct(s) && i < |s|
    ensures s[i] in Slice(s, lo, hi) <==> lo <= i < hi
  {
    var l, h := Min(lo, |s|), Min(hi, |s|);
    if s[i] in Slice(s, lo, hi) {
      assert l <= h;
      var k :| 0 <= k < h - l && s[l..h][k] == s[i];
      assert s[l + k] == s[i];
      assert l + k == i;
    }
    if lo <= i < hi {
      assert s[l..h][i - l] == s[i];
    }
  }

  /** The element at a position inside a slice's bounds is in the slice. */
  lemma SliceHas(s: seq<string>, lo: nat, hi: nat, i: nat)
    requires lo <= i < hi && i < |s|
    ensures s[i] in Slice(s, lo, hi)
  {
    assert s[Min(lo, |s|)..Min(hi, |s|)][i - lo] == s[i];
  }

  /** In a list without duplicates, the three slices are pairwise disjoint. */
  lemma SlicesDisjoint(s: seq<string>, t: nat, v: nat)
    requires Distinct(s)
    ensures Disjoint(Slice(s, 0, t), Slice(s, t, t + v))
    ensures Disjoint(Slice(s, 0, t), Slice(s, t + v, |s|))
    ensures Disjoint(Slice(s, t, t + v), Slice(s, t + v, |s|))
  {
    forall x | x in s
      ensures !(x in Slice(s, 0, t) && x in Slice(s, t, t + v))
      ensures !(x in Slice(s, 0, t) && x in Slice(s, t + v, |s|))
      ensures !(x in Slice(s, t, t + v) && x in Slice(s, t + v, |s|))
    {
      var i :| 0 <= i < |s| && s[i] == x;
      SliceMember(s, 0, t, i);
      SliceMember(s, t, t + v, i);
      SliceMember(s, t + v, |s|, i);
    }
  }

  /** Cutting a permutation `sh` of the discovered stems: the train, valid
      and test subsets together hold every stem exactly as often as it was
      discovered, and when the stems are distinct no stem is in two subsets. */
  lemma SplitPartitionsStems(stems: seq<string>, sh: seq<string>, t: nat, v: nat)
    requires multiset(sh) == multiset(stems)
    ensures multiset(Slice(sh, 0, t)) + multiset(Slice(sh, t, t + v)) + multiset(Slice(sh, t + v, |sh|))
              == multiset(stems)
    ensures Distinct(stems) ==>
              && Distinct(sh)
              && Disjoint(Slice(sh, 0, t), Slice(sh, t, t + v))
              && Disjoint(Slice(sh, 0, t), Slice(sh, t + v, |sh|))
              && Disjoint(Slice(sh, t, t + v), Slice(sh, t + v, |sh|))
  {
    SlicesPartition(sh, t, v);
    assert multiset(Slice(sh, 0, t) + Slice(sh, t, t + v) + Slice(sh, t + v, |sh|)) == multiset(sh);
    if Distinct(stems) {
      PermutationKeepsDistinct(stems, sh);
      SlicesDisjoint(sh, t, v);
    }
  }

  // ---------------------------------------------------------------------
  // Copying one subset (lines 6-26), as a function on the file map
  // ---------------------------------------------------------------------

  /** The arguments the three calls of `copy_files_to_yolo_structure` share. */
  datatype CopyConfig = CopyConfig(imageDir: Path, labelDir: Path, imageExt: string, labelExt: string)

  function SrcImage(c: CopyConfig, stem: string): Path
  {
    Join(c.imageDir, stem + c.imageExt)
  }

  function SrcLabel(c: CopyConfig, stem: string): Path
  {
    Join(c.labelDir, stem + c.labelExt)
  }

  function DstImage(c: CopyConfig, dst: Path, stem: string): Path
  {
    Join(Join(dst, "images"), stem + c.imageExt)
  }

  function DstLabel(c: CopyConfig, dst: Path, stem: string): Path
  {
    Join(Join(dst, "labels"), stem + c.labelExt)
  }

  /** One iteration of the loop of lines 14-26: copy the image if its source
      exists, then, independently, the label if its source exists. */
  function CopyOne(fs: map<Path, Bytes>, c: CopyConfig, dst: Path, stem: string): map<Path, Bytes>
  {
    var afterImage :=
      if SrcImage(c, stem) in fs then fs[DstImage(c, dst, stem) := fs[SrcImage(c, stem)]] else fs;
    if SrcLabel(c, stem) in afterImage
    then afterImage[DstLabel(c, dst, stem) := afterImage[SrcLabel(c, stem)]]
    else afterImage
  }

  /** The file map after the loop of lines 14-26 has run over `stems`. */
  function CopyAll(fs: map<Path, Bytes>, c: CopyConfig, dst: Path, stems: seq<string>): map<Path, Bytes>
  {
    if stems == [] then fs
    else CopyOne(CopyAll(fs, c, dst, stems[..|stems| - 1]), c, dst, stems[|stems| - 1])
  }

  /** `p` has the same presence and content in both maps. */
  predicate SameAt(m: map<Path, Bytes>, m': map<Path, Bytes>, p: Path)
  {
    (p in m <==> p in m') && (p in m ==> m[p] == m'[p])
  }

  /** `p` is one of the two destinations the copy of `stem` may write. */
  predicate Writes(c: CopyConfig, dst: Path, stem: string, p: Path)
  {
    p == DstImage(c, dst, stem) || p == DstLabel(c, dst, stem)
  }

  /** No copy of a stem in `stems` writes `p`. */
  predicate Untouched(c: CopyConfig, dst: Path, stems: seq<string>, p: Path)
  {
    forall s :: s in stems ==> !Writes(c, dst, s, p)
  }

  /** Both file names built from `stem` are single path components, as the
      names `os.listdir` returns are. */
  predicate NameOk(c: CopyConfig, stem: string)
  {
    Plain(stem + c.imageExt) && Plain(stem + c.labelExt)
  }

  predicate NamesOk(c: CopyConfig, stems: seq<string>)
  {
    forall s :: s in stems ==> NameOk(c, s)
  }

  /** Neither source directory is one of the two directories a copy into
      `dst` writes to (compared as `os.path.join` uses them, so `d` and `d/`
      are the same directory). */
  predicate DirsApart(c: CopyConfig, dst: Path)
  {
    && Differ(DirPrefix(c.imageDir), DirPrefix(Join(dst, "images")))
    && Differ(DirPrefix(c.imageDir), DirPrefix(Join(dst, "labels")))
    && Differ(DirPrefix(c.labelDir), DirPrefix(Join(dst, "images")))
    && Differ(DirPrefix(c.labelDir), DirPrefix(Join(dst, "labels")))
  }

  /** With the directories apart, no copy writes a source path. */
  lemma SourceNotWritten(c: CopyConfig, dst: Path, x: string, u: string)
    requires DirsApart(c, dst) && NameOk(c, x) && NameOk(c, u)
    ensures !Writes(c, dst, u, SrcImage(c, x)) && !Writes(c, dst, u, SrcLabel(c, x))
  {
    JoinApart(c.imageDir, x + c.imageExt, Join(dst, "images"), u + c.imageExt);
    JoinApart(c.imageDir, x + c.imageExt, Join(dst, "labels"), u + c.labelExt);
    JoinApart(c.labelDir, x + c.labelExt, Join(dst, "images"), u + c.imageExt);
    JoinApart(c.labelDir, x + c.labelExt, Join(dst, "labels"), u + c.labelExt);
  }

  /** Neither copy of `stem` has its source as its destination, the case in
      which `shutil.copy` raises `SameFileError`. The paths are compared with
      `Differ`, which is string inequality (`DifferIff`). */
  predicate NoSelfCopy(c: CopyConfig, dst: Path, stem: string)
  {
    Differ(SrcImage(c, stem), DstImage(c, dst, stem)) && Differ(SrcLabel(c, stem), DstLabel(c, dst, stem))
  }

  predicate NoSelfCopies(c: CopyConfig, dst: Path, stems: seq<string>)
  {
    forall s {:trigger NoSelfCopy(c, dst, s)} :: s in stems ==> NoSelfCopy(c, dst, s)
  }

  /** Directories apart from the sources never copy a file onto itself. */
  lemma ApartMeansNoSelfCopy(c: CopyConfig, dst: Path, s: string)
    requires DirsApart(c, dst) && NameOk(c, s)
    ensures NoSelfCopy(c, dst, s)
  {
    SourceNotWritten(c, dst, s, s);
    DifferIff(SrcImage(c, s), DstImage(c, dst, s));
    DifferIff(SrcLabel(c, s), DstLabel(c, dst, s));
  }

  /** Copying into `out` from the image directory `out/images` copies
      `out/images/a.jpg` onto itself, so `shutil.copy` raises. */
  lemma SameFileExample()
    ensures !NoSelfCopy(CopyConfig("out/images", "lbl", ".jpg", ".txt"), "out", "a")
  {
    var c := CopyConfig("out/images", "lbl", ".jpg", ".txt");
    JoinUnder("out/images", "a.jpg");
    JoinUnder("out", "images");
    assert SrcImage(c, "a") == DstImage(c, "out", "a");
    DifferIff(SrcImage(c, "a"), DstImage(c, "out", "a"));
  }

  /** A condition on every stem carries over to any reordering of the stems. */
  lemma NoSelfCopiesPermuted(c: CopyConfig, dst: Path, a: seq<string>, b: seq<string>)
    requires multiset(a) == multiset(b) && NoSelfCopies(c, dst, a)
    ensures NoSelfCopies(c, dst, b)
  {
    forall s | s in b
      ensures NoSelfCopy(c, dst, s)
    {
      assert s in multiset(b);
    }
  }

  /** The copy of `s` into `dst` is in place in `r`, starting from `fs`: the
      image was copied iff its source exists, and otherwise the destination
      is as it was; independently the same for the label. */
  predicate Placed(r: map<Path, Bytes>, fs: map<Path, Bytes>, c: CopyConfig, dst: Path, s: string)
  {
    && (SrcImage(c, s) in fs ==> DstImage(c, dst, s) in r && r[DstImage(c, dst, s)] == fs[SrcImage(c, s)])
    && (SrcImage(c, s) !in fs ==> SameAt(r, fs, DstImage(c, dst, s)))
    && (SrcLabel(c, s) in fs ==> DstLabel(c, dst, s) in r && r[DstLabel(c, dst, s)] == fs[SrcLabel(c, s)])
    && (SrcLabel(c, s) !in fs ==> SameAt(r, fs, DstLabel(c, dst, s)))
  }

  lemma DstShapes(c: CopyConfig, dst: Path, s: string)
    requires NameOk(c, s)
    ensures DstImage(c, dst, s) == DirPrefix(dst) + ("images/" + (s + c.imageExt))
    ensures DstLabel(c, dst, s) == DirPrefix(dst) + ("labels/" + (s + c.labelExt))
  {
    var p, ni, nl := DirPrefix(dst), s + c.imageExt, s + c.labelExt;
    assert Relative(ni) && Relative(nl);
    DirPrefixOfJoin(dst, "images");
    DirPrefixOfJoin(dst, "labels");
    JoinRelative(Join(dst, "images"), ni);
    JoinRelative(Join(dst, "labels"), nl);
    assert p + ("images" + "/") + ni == p + ("images/" + ni);
    assert p + ("labels" + "/") + nl == p + ("labels/" + nl);
  }

  /** Within one destination an image never lands on a label path, and two
      different stems never share a destination. */
  lemma DstDistinct(c: CopyConfig, dst: Path, s: string, u: string)
    requires NameOk(c, s)
    requires NameOk(c, u)
    ensures DstImage(c, dst, s) != DstLabel(c, dst, u)
    ensures DstImage(c, dst, s) == DstImage(c, dst, u) ==> s == u
    ensures DstLabel(c, dst, s) == DstLabel(c, dst, u) ==> s == u
  {
    DstShapes(c, dst, s);
    DstShapes(c, dst, u);
    var p := DirPrefix(dst);
    var x, y := "images/" + (s + c.imageExt), "labels/" + (u + c.labelExt);
    assert x[0] == 'i' && y[0] == 'l';
    DifferAfterPrefix(p, x, y, 0);
    if DstImage(c, dst, s) == DstImage(c, dst, u) {
      CancelPrefix(p, "images/" + (s + c.imageExt), "images/" + (u + c.imageExt));
      CancelPrefix("images/", s + c.imageExt, u + c.imageExt);
      CancelSuffix(s, u, c.imageExt);
    }
    if DstLabel(c, dst, s) == DstLabel(c, dst, u) {
      CancelPrefix(p, "labels/" + (s + c.labelExt), "labels/" + (u + c.labelExt));
      CancelPrefix("labels/", s + c.labelExt, u + c.labelExt);
      CancelSuffix(s, u, c.labelExt);
    }
  }

  /** A step that writes neither destination of `u` leaves `p` alone. */
  lemma CopyOneFrame(fs: map<Path, Bytes>, c: CopyConfig, dst: Path, u: string, p: Path)
    requires !Writes(c, dst, u, p)
    ensures SameAt(CopyOne(fs, c, dst, u), fs, p)
  {
  }

  /** The copy touches nothing but the destinations of the listed stems: every
      other path, sources and unrelated destination entries included, keeps
      its presence and its content. */
  lemma {:induction false} CopyAllFrame(fs: map<Path, Bytes>, c: CopyConfig, dst: Path, stems: seq<string>, p: Path)
    requires Untouched(c, dst, stems, p)
    ensures SameAt(CopyAll(fs, c, dst, stems), fs, p)
  {
    if stems != [] {
      var init, u := stems[..|stems| - 1], stems[|stems| - 1];
      assert forall s :: s in init ==> s in stems;
      CopyAllFrame(fs, c, dst, init, p);
      CopyOneFrame(CopyAll(fs, c, dst, init), c, dst, u, p);
    }
  }

  /** One step places its own stem, relative to the state it starts from. */
  lemma CopyOneEffect(m: map<Path, Bytes>, c: CopyConfig, dst: Path, u: string)
    requires !Writes(c, dst, u, SrcImage(c, u)) && !Writes(c, dst, u, SrcLabel(c, u))
    requires DstImage(c, dst, u) != DstLabel(c, dst, u)
    ensures Placed(CopyOne(m, c, dst, u), m, c, dst, u)
  {
  }

  /** A placement relative to `m` is one relative to `fs` when `m` and `fs`
      agree on the sources, and on each destination whose source is absent. */
  lemma PlacedTransfer(r: map<Path, Bytes>, m: map<Path, Bytes>, fs: map<Path, Bytes>, c: CopyConfig, dst: Path, u: string)
    requires Placed(r, m, c, dst, u)
    requires SameAt(m, fs, SrcImage(c, u)) && SameAt(m, fs, SrcLabel(c, u))
    requires SrcImage(c, u) !in fs ==> SameAt(m, fs, DstImage(c, dst, u))
    requires SrcLabel(c, u) !in fs ==> SameAt(m, fs, DstLabel(c, dst, u))
    ensures Placed(r, fs, c, dst, u)
  {
  }

  /** A placement survives later changes that leave both destinations alone. */
  lemma PlacedKept(r': map<Path, Bytes>, r: map<Path, Bytes>, fs: map<Path, Bytes>, c: CopyConfig, dst: Path, u: string)
    requires Placed(r, fs, c, dst, u)
    requires SameAt(r', r, DstImage(c, dst, u)) && SameAt(r', r, DstLabel(c, dst, u))
    ensures Placed(r', fs, c, dst, u)
  {
  }

  /** For each listed stem, the image is copied to `dst/images/<stem><ext>`
      iff its source exists, and independently the label to
      `dst/labels/<stem><ext>` iff its source exists; a missing file leaves
      its destination as it was. Holds when no destination is also a source. */
  lemma {:induction false} CopyAllEffect(fs: map<Path, Bytes>, c: CopyConfig, dst: Path, stems: seq<string>, s: string)
    requires s in stems
    requires NamesOk(c, stems) && DirsApart(c, dst)
    ensures Placed(CopyAll(fs, c, dst, stems), fs, c, dst, s)
    decreases |stems|, 1
  {
    var init, u := stems[..|stems| - 1], stems[|stems| - 1];
    if s == u {
      CopyAllEffectLast(fs, c, dst, stems);
    } else {
      assert forall x :: x in init ==> x in stems;
      CopyAllEffect(fs, c, dst, init, s);
      StepKeepsPlaced(CopyAll(fs, c, dst, init), fs, c, dst, u, s);
    }
  }

  /** A step for another stem keeps a placement. */
  lemma StepKeepsPlaced(m: map<Path, Bytes>, fs: map<Path, Bytes>, c: CopyConfig, dst: Path, u: string, s: string)
    requires Placed(m, fs, c, dst, s) && s != u
    requires NameOk(c, s)
    requires NameOk(c, u)
    ensures Placed(CopyOne(m, c, dst, u), fs, c, dst, s)
  {
    DstDistinct(c, dst, s, u);
    DstDistinct(c, dst, u, s);
    CopyOneFrame(m, c, dst, u, DstImage(c, dst, s));
    CopyOneFrame(m, c, dst, u, DstLabel(c, dst, s));
    PlacedKept(CopyOne(m, c, dst, u), m, fs, c, dst, s);
  }

  /** The last stem of the list is placed by the last step, whether or not it
      occurred earlier too. */
  lemma {:induction false} CopyAllEffectLast(fs: map<Path, Bytes>, c: CopyConfig, dst: Path, stems: seq<string>)
    requires stems != []
    requires NamesOk(c, stems) && DirsApart(c, dst)
    ensures Placed(CopyAll(fs, c, dst, stems), fs, c, dst, stems[|stems| - 1])
    decreases |stems|, 0
  {
    var init, u := stems[..|stems| - 1], stems[|stems| - 1];
    var r0 := CopyAll(fs, c, dst, init);
    var r := CopyOne(r0, c, dst, u);
    assert r == CopyAll(fs, c, dst, stems);
    assert SameAt(r0, fs, SrcImage(c, u)) && SameAt(r0, fs, SrcLabel(c, u)) by {
      forall x | x in init
        ensures !Writes(c, dst, x, SrcImage(c, u)) && !Writes(c, dst, x, SrcLabel(c, u))
      {
        SourceNotWritten(c, dst, u, x);
      }
      CopyAllFrame(fs, c, dst, init, SrcImage(c, u));
      CopyAllFrame(fs, c, dst, init, SrcLabel(c, u));
    }
    assert && (SrcImage(c, u) !in fs ==> SameAt(r0, fs, DstImage(c, dst, u)))
           && (SrcLabel(c, u) !in fs ==> SameAt(r0, fs, DstLabel(c, dst, u))) by {
      if u in init {
        assert forall x :: x in init ==> x in stems;
        CopyAllEffect(fs, c, dst, init, u);
      } else {
        forall x | x in init
          ensures !Writes(c, dst, x, DstImage(c, dst, u)) && !Writes(c, dst, x, DstLabel(c, dst, u))
        {
          DstDistinct(c, dst, u, x);
          DstDistinct(c, dst, x, u);
        }
        CopyAllFrame(fs, c, dst, init, DstImage(c, dst, u));
        CopyAllFrame(fs, c, dst, init, DstLabel(c, dst, u));
      }
    }
    assert Placed(r, r0, c, dst, u) by {
      DstDistinct(c, dst, u, u);
      SourceNotWritten(c, dst, u, u);
      CopyOneEffect(r0, c, dst, u);
    }
    PlacedTransfer(r, r0, fs, c, dst, u);
  }

  // ---------------------------------------------------------------------
  // The whole split (lines 57-72)
  // ---------------------------------------------------------------------

  /** The subset directory for position `i` of the shuffled list. */
  function SubsetName(i: nat, t: nat, v: nat): (name: string)
    ensures name == "train" || name == "valid" || name == "test"
  {
    if i < t then "train" else if i < t + v then "valid" else "test"
  }

  /** The file map after the three copies of lines 62-72. */
  function SplitFiles(fs: map<Path, Bytes>, c: CopyConfig, root: Path, sh: seq<string>, t: nat, v: nat): map<Path, Bytes>
  {
    CopyThree(fs, c, root, Slice(sh, 0, t), Slice(sh, t, t + v), Slice(sh, t + v, |sh|))
  }

  /** The six directories the split creates. */
  function SplitDirs(root: Path): set<Path>
  {
    {Join(Join(root, "train"), "images"), Join(Join(root, "train"), "labels"),
     Join(Join(root, "valid"), "images"), Join(Join(root, "valid"), "labels"),
     Join(Join(root, "test"), "images"), Join(Join(root, "test"), "labels")}
  }

  predicate IsSubset(sub: string)
  {
    sub == "train" || sub == "valid" || sub == "test"
  }

  /** The first position at which two different subset names differ. */
  lemma SubsetNamesDiffer(a: string, b: string) returns (k: nat)
    requires IsSubset(a) && IsSubset(b) && a != b
    ensures k < |a| && k < |b| && a[k] != b[k]
  {
    k := if a[0] != b[0] then 0 else 1;
  }

  /** The destinations of a stem under a subset directory of `root`. */
  lemma SubsetDstShapes(c: CopyConfig, root: Path, a: string, s: string)
    requires IsSubset(a) && NameOk(c, s)
    ensures DstImage(c, Join(root, a), s) == DirPrefix(root) + (a + ("/" + ("images/" + (s + c.imageExt))))
    ensures DstLabel(c, Join(root, a), s) == DirPrefix(root) + (a + ("/" + ("labels/" + (s + c.labelExt))))
  {
    var p, x, y := DirPrefix(root), "images/" + (s + c.imageExt), "labels/" + (s + c.labelExt);
    DirPrefixOfJoin(root, a);
    DstShapes(c, Join(root, a), s);
    Regroup(p, a + "/", x);
    Regroup(a, "/", x);
    Regroup(p, a + "/", y);
    Regroup(a, "/", y);
  }

  /** Destinations under two different subset directories never coincide. */
  lemma CrossSubsetDistinct(c: CopyConfig, root: Path, a: string, b: string, s: string, u: string)
    requires IsSubset(a) && IsSubset(b) && a != b
    requires NameOk(c, s)
    requires NameOk(c, u)
    ensures !Writes(c, Join(root, b), u, DstImage(c, Join(root, a), s))
    ensures !Writes(c, Join(root, b), u, DstLabel(c, Join(root, a), s))
  {
    var p := DirPrefix(root);
    SubsetDstShapes(c, root, a, s);
    SubsetDstShapes(c, root, b, u);
    var k := SubsetNamesDiffer(a, b);
    var ai, al := a + ("/" + ("images/" + (s + c.imageExt))), a + ("/" + ("labels/" + (s + c.labelExt)));
    var bi, bl := b + ("/" + ("images/" + (u + c.imageExt))), b + ("/" + ("labels/" + (u + c.labelExt)));
    assert ai[k] == a[k] && al[k] == a[k] && bi[k] == b[k] && bl[k] == b[k];
    DifferAfterPrefix(p, ai, bi, k);
    DifferAfterPrefix(p, ai, bl, k);
    DifferAfterPrefix(p, al, bi, k);
    DifferAfterPrefix(p, al, bl, k);
  }

  /** A copy into subset `b` leaves the destinations of `s` under subset `a`
      as they were. */
  lemma OtherSubsetKeeps(m: map<Path, Bytes>, c: CopyConfig, root: Path, a: string, b: string, slice: seq<string>, s: string)
    requires IsSubset(a) && IsSubset(b) && a != b
    requires NamesOk(c, slice) && NameOk(c, s)
    ensures SameAt(CopyAll(m, c, Join(root, b), slice), m, DstImage(c, Join(root, a), s))
    ensures SameAt(CopyAll(m, c, Join(root, b), slice), m, DstLabel(c, Join(root, a), s))
  {
    forall u | u in slice
      ensures !Writes(c, Join(root, b), u, DstImage(c, Join(root, a), s))
      ensures !Writes(c, Join(root, b), u, DstLabel(c, Join(root, a), s))
    {
      CrossSubsetDistinct(c, root, a, b, s, u);
    }
    CopyAllFrame(m, c, Join(root, b), slice, DstImage(c, Join(root, a), s));
    CopyAllFrame(m, c, Join(root, b), slice, DstLabel(c, Join(root, a), s));
  }

  /** A copy into directories apart from the sources keeps the sources. */
  lemma SourcesKept(m: map<Path, Bytes>, c: CopyConfig, dst: Path, slice: seq<string>, s: string)
    requires DirsApart(c, dst) && NamesOk(c, slice) && NameOk(c, s)
    ensures SameAt(CopyAll(m, c, dst, slice), m, SrcImage(c, s))
    ensures SameAt(CopyAll(m, c, dst, slice), m, SrcLabel(c, s))
  {
    forall u | u in slice
      ensures !Writes(c, dst, u, SrcImage(c, s)) && !Writes(c, dst, u, SrcLabel(c, s))
    {
      SourceNotWritten(c, dst, s, u);
    }
    CopyAllFrame(m, c, dst, slice, SrcImage(c, s));
    CopyAllFrame(m, c, dst, slice, SrcLabel(c, s));
  }

  /** The copy of `s` within one call, seen from an earlier state `fs` that
      agrees with the call's starting state on the paths that matter. */
  lemma PlacedFrom(m: map<Path, Bytes>, fs: map<Path, Bytes>, c: CopyConfig, dst: Path, slice: seq<string>, s: string)
    requires s in slice && NamesOk(c, slice) && DirsApart(c, dst)
    requires SameAt(m, fs, SrcImage(c, s)) && SameAt(m, fs, SrcLabel(c, s))
    requires SameAt(m, fs, DstImage(c, dst, s)) && SameAt(m, fs, DstLabel(c, dst, s))
    ensures Placed(CopyAll(m, c, dst, slice), fs, c, dst, s)
  {
    CopyAllEffect(m, c, dst, slice, s);
  }

  /** No stem is copied onto itself under any of the three subsets. */
  predicate SplitNoSelfCopies(c: CopyConfig, root: Path, stems: seq<string>)
  {
    && NoSelfCopies(c, Join(root, "train"), stems)
    && NoSelfCopies(c, Join(root, "valid"), stems)
    && NoSelfCopies(c, Join(root, "test"), stems)
  }

  lemma SplitNoSelfCopiesPermuted(c: CopyConfig, root: Path, a: seq<string>, b: seq<string>)
    requires multiset(a) == multiset(b) && SplitNoSelfCopies(c, root, a)
    ensures SplitNoSelfCopies(c, root, b)
  {
    NoSelfCopiesPermuted(c, Join(root, "train"), a, b);
    NoSelfCopiesPermuted(c, Join(root, "valid"), a, b);
    NoSelfCopiesPermuted(c, Join(root, "test"), a, b);
  }

  /** Each slice copied into its subset meets the condition of the whole list. */
  lemma SlicesNoSelfCopies(c: CopyConfig, root: Path, sh: seq<string>, t: nat, v: nat)
    requires SplitNoSelfCopies(c, root, sh)
    ensures NoSelfCopies(c, Join(root, "train"), Slice(sh, 0, t))
    ensures NoSelfCopies(c, Join(root, "valid"), Slice(sh, t, t + v))
    ensures NoSelfCopies(c, Join(root, "test"), Slice(sh, t + v, |sh|))
  {
  }

  /** The paths a split builds are usable: every file name is a single path
      component, and no subset directory is a source directory. */
  ghost predicate SplitReady(c: CopyConfig, root: Path, sh: seq<string>)
  {
    NamesOk(c, sh) && SubsetDirsApart(c, root)
  }

  /** No subset directory under `root` is a source directory. */
  ghost predicate SubsetDirsApart(c: CopyConfig, root: Path)
  {
    forall sub {:trigger DirsApart(c, Join(root, sub))} :: IsSubset(sub) ==> DirsApart(c, Join(root, sub))
  }

  lemma SubsetApart(c: CopyConfig, root: Path, sub: string)
    requires IsSubset(sub) && SubsetDirsApart(c, root)
    ensures DirsApart(c, Join(root, sub))
  {
  }

  /** Every stem of a split is copied into exactly the subset its position
      selects: there its image and label are copied iff their sources exist
      (missing ones are skipped), provided no destination is also a source. */
  lemma SplitPlacesEachStem(fs: map<Path, Bytes>, c: CopyConfig, root: Path, sh: seq<string>, t: nat, v: nat, i: nat)
    requires i < |sh|
    requires SplitReady(c, root, sh)
    ensures Placed(SplitFiles(fs, c, root, sh, t, v), fs, c, Join(root, SubsetName(i, t, v)), sh[i])
  {
    if i < t {
      PlacedInTrain(fs, c, root, sh, t, v, i);
    } else if i < t + v {
      PlacedInValid(fs, c, root, sh, t, v, i);
    } else {
      PlacedInTest(fs, c, root, sh, t, v, i);
    }
  }

  /** The conditions of a split carry over to its three slices. */
  lemma SlicesReady(c: CopyConfig, root: Path, sh: seq<string>, t: nat, v: nat, i: nat)
    requires i < |sh| && SplitReady(c, root, sh)
    ensures ThreeReady(c, root, Slice(sh, 0, t), Slice(sh, t, t + v), Slice(sh, t + v, |sh|), sh[i])
  {
  }

  /** A stem before position `t` is placed under `train`. */
  lemma PlacedInTrain(fs: map<Path, Bytes>, c: CopyConfig, root: Path, sh: seq<string>, t: nat, v: nat, i: nat)
    requires i < |sh| && i < t
    requires SplitReady(c, root, sh)
    ensures Placed(CopyThree(fs, c, root, Slice(sh, 0, t), Slice(sh, t, t + v), Slice(sh, t + v, |sh|)), fs, c, Join(root, "train"), sh[i])
  {
    SliceHas(sh, 0, t, i);
    SlicesReady(c, root, sh, t, v, i);
    PlacedByFirst(fs, c, root, Slice(sh, 0, t), Slice(sh, t, t + v), Slice(sh, t + v, |sh|), sh[i]);
  }

  /** A stem from position `t` to before `t + v` is placed under `valid`. */
  lemma PlacedInValid(fs: map<Path, Bytes>, c: CopyConfig, root: Path, sh: seq<string>, t: nat, v: nat, i: nat)
    requires i < |sh| && t <= i < t + v
    requires SplitReady(c, root, sh)
    ensures Placed(CopyThree(fs, c, root, Slice(sh, 0, t), Slice(sh, t, t + v), Slice(sh, t + v, |sh|)), fs, c, Join(root, "valid"), sh[i])
  {
    SliceHas(sh, t, t + v, i);
    SlicesReady(c, root, sh, t, v, i);
    PlacedBySecond(fs, c, root, Slice(sh, 0, t), Slice(sh, t, t + v), Slice(sh, t + v, |sh|), sh[i]);
  }

  /** A stem from position `t + v` on is placed under `test`. */
  lemma PlacedInTest(fs: map<Path, Bytes>, c: CopyConfig, root: Path, sh: seq<string>, t: nat, v: nat, i: nat)
    requires i < |sh| && t + v <= i
    requires SplitReady(c, root, sh)
    ensures Placed(CopyThree(fs, c, root, Slice(sh, 0, t), Slice(sh, t, t + v), Slice(sh, t + v, |sh|)), fs, c, Join(root, "test"), sh[i])
  {
    SliceHas(sh, t + v, |sh|, i);
    SlicesReady(c, root, sh, t, v, i);
    PlacedByThird(fs, c, root, Slice(sh, 0, t), Slice(sh, t, t + v), Slice(sh, t + v, |sh|), sh[i]);
  }

  /** The three copies of a split, one slice after the other. */
  function CopyThree(fs: map<Path, Bytes>, c: CopyConfig, root: Path, a: seq<string>, b: seq<string>, d: seq<string>): map<Path, Bytes>
  {
    CopyAll(CopyAll(CopyAll(fs, c, Join(root, "train"), a), c, Join(root, "valid"), b), c, Join(root, "test"), d)
  }

  /** The conditions under which the three copies place a stem. */
  ghost predicate ThreeReady(c: CopyConfig, root: Path, a: seq<string>, b: seq<string>, d: seq<string>, s: string)
  {
    NamesOk(c, a) && NamesOk(c, b) && NamesOk(c, d) && NameOk(c, s) && SubsetDirsApart(c, root)
  }

  /** A stem of the first slice is placed under `train`. */
  lemma PlacedByFirst(fs: map<Path, Bytes>, c: CopyConfig, root: Path, a: seq<string>, b: seq<string>, d: seq<string>, s: string)
    requires s in a && ThreeReady(c, root, a, b, d, s)
    ensures Placed(CopyThree(fs, c, root, a, b, d), fs, c, Join(root, "train"), s)
  {
    var m1 := CopyAll(fs, c, Join(root, "train"), a);
    var m2 := CopyAll(m1, c, Join(root, "valid"), b);
    SubsetApart(c, root, "train");
    PlacedFrom(fs, fs, c, Join(root, "train"), a, s);
    OtherSubsetKeeps(m1, c, root, "train", "valid", b, s);
    PlacedKept(m2, m1, fs, c, Join(root, "train"), s);
    OtherSubsetKeeps(m2, c, root, "train", "test", d, s);
    PlacedKept(CopyAll(m2, c, Join(root, "test"), d), m2, fs, c, Join(root, "train"), s);
  }

  /** A stem of the second slice is placed under `valid`. */
  lemma PlacedBySecond(fs: map<Path, Bytes>, c: CopyConfig, root: Path, a: seq<string>, b: seq<string>, d: seq<string>, s: string)
    requires s in b && ThreeReady(c, root, a, b, d, s)
    ensures Placed(CopyThree(fs, c, root, a, b, d), fs, c, Join(root, "valid"), s)
  {
    var m1 := CopyAll(fs, c, Join(root, "train"), a);
    var m2 := CopyAll(m1, c, Join(root, "valid"), b);
    SubsetApart(c, root, "train");
    SubsetApart(c, root, "valid");
    SourcesKept(fs, c, Join(root, "train"), a, s);
    OtherSubsetKeeps(fs, c, root, "valid", "train", a, s);
    PlacedFrom(m1, fs, c, Join(root, "valid"), b, s);
    OtherSubsetKeeps(m2, c, root, "valid", "test", d, s);
    PlacedKept(CopyAll(m2, c, Join(root, "test"), d), m2, fs, c, Join(root, "valid"), s);
  }

  /** A stem of the third slice is placed under `test`. */
  lemma PlacedByThird(fs: map<Path, Bytes>, c: CopyConfig, root: Path, a: seq<string>, b: seq<string>, d: seq<string>, s: string)
    requires s in d && ThreeReady(c, root, a, b, d, s)
    ensures Placed(CopyThree(fs, c, root, a, b, d), fs, c, Join(root, "test"), s)
  {
    var m1 := CopyAll(fs, c, Join(root, "train"), a);
    var m2 := CopyAll(m1, c, Join(root, "valid"), b);
    SubsetApart(c, root, "train");
    SubsetApart(c, root, "valid");
    SubsetApart(c, root, "test");
    SourcesKept(fs, c, Join(root, "train"), a, s);
    SourcesKept(m1, c, Join(root, "valid"), b, s);
    OtherSubsetKeeps(fs, c, root, "test", "train", a, s);
    OtherSubsetKeeps(m1, c, root, "test", "valid", b, s);
    PlacedFrom(m2, fs, c, Join(root, "test"), d, s);
  }

  /** A copy of stems other than `s` leaves the destinations of `s` alone. */
  lemma OwnSliceKeeps(m: map<Path, Bytes>, c: CopyConfig, dst: Path, slice: seq<string>, s: string)
    requires s !in slice && NamesOk(c, slice)
    requires NameOk(c, s)
    ensures SameAt(CopyAll(m, c, dst, slice), m, DstImage(c, dst, s))
    ensures SameAt(CopyAll(m, c, dst, slice), m, DstLabel(c, dst, s))
  {
    forall u | u in slice
      ensures !Writes(c, dst, u, DstImage(c, dst, s)) && !Writes(c, dst, u, DstLabel(c, dst, s))
    {
      DstDistinct(c, dst, s, u);
      DstDistinct(c, dst, u, s);
    }
    CopyAllFrame(m, c, dst, slice, DstImage(c, dst, s));
    CopyAllFrame(m, c, dst, slice, DstLabel(c, dst, s));
  }

  /** No stem is copied into a subset other than its own: its destinations
      under the other two subset directories are left as they were. */
  lemma SplitLeavesOtherSubsets(fs: map<Path, Bytes>, c: CopyConfig, root: Path, sh: seq<string>, t: nat, v: nat, i: nat, sub: string)
    requires Distinct(sh) && i < |sh|
    requires NamesOk(c, sh)
    requires IsSubset(sub) && sub != SubsetName(i, t, v)
    ensures SameAt(SplitFiles(fs, c, root, sh, t, v), fs, DstImage(c, Join(root, sub), sh[i]))
    ensures SameAt(SplitFiles(fs, c, root, sh, t, v), fs, DstLabel(c, Join(root, sub), sh[i]))
  {
    OutsideSlices(sh, t, v, i, sub);
    SlicesNamesOk(c, sh, t, v, i);
    KeptOutside(fs, c, root, Slice(sh, 0, t), Slice(sh, t, t + v), Slice(sh, t + v, |sh|), sh[i], sub);
  }

  /** A stem of a list without duplicates is in none of the slices other
      than the one its position selects. */
  lemma OutsideSlices(sh: seq<string>, t: nat, v: nat, i: nat, sub: string)
    requires Distinct(sh) && i < |sh|
    requires IsSubset(sub) && sub != SubsetName(i, t, v)
    ensures sub == "train" ==> sh[i] !in Slice(sh, 0, t)
    ensures sub == "valid" ==> sh[i] !in Slice(sh, t, t + v)
    ensures sub == "test" ==> sh[i] !in Slice(sh, t + v, |sh|)
  {
    SliceMember(sh, 0, t, i);
    SliceMember(sh, t, t + v, i);
    SliceMember(sh, t + v, |sh|, i);
  }

  /** The file names of every slice are single path components when those
      of the whole list are. */
  lemma SlicesNamesOk(c: CopyConfig, sh: seq<string>, t: nat, v: nat, i: nat)
    requires NamesOk(c, sh) && i < |sh|
    ensures NamesOk(c, Slice(sh, 0, t)) && NamesOk(c, Slice(sh, t, t + v)) && NamesOk(c, Slice(sh, t + v, |sh|))
    ensures NameOk(c, sh[i])
  {
  }

  /** The three copies leave alone the destinations of `s` under a subset
      whose slice does not hold `s`. */
  lemma KeptOutside(fs: map<Path, Bytes>, c: CopyConfig, root: Path, a: seq<string>, b: seq<string>, d: seq<string>, s: string, sub: string)
    requires IsSubset(sub)
    requires NamesOk(c, a) && NamesOk(c, b) && NamesOk(c, d) && NameOk(c, s)
    requires sub == "train" ==> s !in a
    requires sub == "valid" ==> s !in b
    requires sub == "test" ==> s !in d
    ensures SameAt(CopyThree(fs, c, root, a, b, d), fs, DstImage(c, Join(root, sub), s))
    ensures SameAt(CopyThree(fs, c, root, a, b, d), fs, DstLabel(c, Join(root, sub), s))
  {
    var m1 := CopyAll(fs, c, Join(root, "train"), a);
    var m2 := CopyAll(m1, c, Join(root, "valid"), b);
    if sub == "train" {
      OwnSliceKeeps(fs, c, Join(root, sub), a, s);
      OtherSubsetKeeps(m1, c, root, sub, "valid", b, s);
      OtherSubsetKeeps(m2, c, root, sub, "test", d, s);
    } else if sub == "valid" {
      OtherSubsetKeeps(fs, c, root, sub, "train", a, s);
      OwnSliceKeeps(m1, c, Join(root, sub), b, s);
      OtherSubsetKeeps(m2, c, root, sub, "test", d, s);
    } else {
      OtherSubsetKeeps(fs, c, root, sub, "train", a, s);
      OtherSubsetKeeps(m1, c, root, sub, "valid", b, s);
      OwnSliceKeeps(m2, c, Join(root, sub), d, s);
    }
  }

  /** The split touches only destinations of the stems it copies: any other
      path keeps its presence and content. */
  lemma SplitTouchesOnlyDestinations(fs: map<Path, Bytes>, c: CopyConfig, root: Path, sh: seq<string>, t: nat, v: nat, p: Path)
    requires Untouched(c, Join(root, "train"), sh, p)
    requires Untouched(c, Join(root, "valid"), sh, p)
    requires Untouched(c, Join(root, "test"), sh, p)
    ensures SameAt(SplitFiles(fs, c, root, sh, t, v), fs, p)
  {
    var m1 := CopyAll(fs, c, Join(root, "train"), Slice(sh, 0, t));
    var m2 := CopyAll(m1, c, Join(root, "valid"), Slice(sh, t, t + v));
    CopyAllFrame(fs, c, Join(root, "train"), Slice(sh, 0, t), p);
    CopyAllFrame(m1, c, Join(root, "valid"), Slice(sh, t, t + v), p);
    CopyAllFrame(m2, c, Join(root, "test"), Slice(sh, t + v, |sh|), p);
  }

  // ---------------------------------------------------------------------
  // The file system and the two procedures of the script
  // ---------------------------------------------------------------------

  /** The part of the file system the script reads and writes: regular files
      with their contents, and the directories created so far. */
  class FileSystem {
    var files: map<Path, Bytes>
    var dirs: set<Path>

    constructor (files0: map<Path, Bytes>, dirs0: set<Path>)
      ensures files == files0 && dirs == dirs0
    {
      files := files0;
      dirs := dirs0;
    }

    /** `os.path.exists(p)` for a regular file. */
    predicate Exists(p: Path)
      reads this
    {
      p in files
    }

    /** `os.makedirs(p, exist_ok=True)` */
    method MakeDirs(p: Path)
      modifies this
      ensures dirs == old(dirs) + {p}
      ensures files == old(files)
    {
      dirs := dirs + {p};
    }

    /** `shutil.copy(src, dst)`: the destination gets the source's content.
        A source that is its own destination raises `SameFileError`, so the
        two must differ (`Differ` is string inequality, see `DifferIff`). */
    method Copy(src: Path, dst: Path)
      requires src in files && Differ(src, dst)
      modifies this
      ensures files == old(files)[dst := old(files)[src]]
      ensures dirs == old(dirs)
    {
      files := files[dst := files[src]];
    }

    /** One pass of `copy_files_to_yolo_structure`'s loop: copy the stem's
        image, then its label, each only if its source exists. */
    method CopyStem(c: CopyConfig, dstBaseDir: Path, dstImageSubDir: Path, dstLabelSubDir: Path,
                    filename: string)
      requires dstImageSubDir == Join(dstBaseDir, "images") && dstLabelSubDir == Join(dstBaseDir, "labels")
      requires NoSelfCopy(c, dstBaseDir, filename)
      modifies this
      ensures files == CopyOne(old(files), c, dstBaseDir, filename)
      ensures dirs == old(dirs)
    {
      var srcImagePath := Join(c.imageDir, filename + c.imageExt);
      var dstImagePath := Join(dstImageSubDir, filename + c.imageExt);
      var srcLabelPath := Join(c.labelDir, filename + c.labelExt);
      var dstLabelPath := Join(dstLabelSubDir, filename + c.labelExt);
      assert srcImagePath == SrcImage(c, filename) && dstImagePath == DstImage(c, dstBaseDir, filename);
      assert srcLabelPath == SrcLabel(c, filename) && dstLabelPath == DstLabel(c, dstBaseDir, filename);
      if Exists(srcImagePath) {
        Copy(srcImagePath, dstImagePath);
      }
      if Exists(srcLabelPath) {
        Copy(srcLabelPath, dstLabelPath);
      }
    }

    /** `copy_files_to_yolo_structure`: create `dst/images` and `dst/labels`,
        then copy each listed stem's image and label, each only if its
        source exists. */
    method CopyFilesToYoloStructure(srcImageDir: Path, srcLabelDir: Path, dstBaseDir: Path,
                                    filenames: seq<string>, imageExt: string, labelExt: string)
      requires NoSelfCopies(CopyConfig(srcImageDir, srcLabelDir, imageExt, labelExt), dstBaseDir, filenames)
      modifies this
      ensures files == CopyAll(old(files), CopyConfig(srcImageDir, srcLabelDir, imageExt, labelExt), dstBaseDir, filenames)
      ensures dirs == old(dirs) + {Join(dstBaseDir, "images"), Join(dstBaseDir, "labels")}
    {
      var c := CopyConfig(srcImageDir, srcLabelDir, imageExt, labelExt);
      var dstImageSubDir := Join(dstBaseDir, "images");
      var dstLabelSubDir := Join(dstBaseDir, "labels");
      MakeDirs(dstImageSubDir);
      MakeDirs(dstLabelSubDir);
      var i := 0;
      while i < |filenames|
        invariant 0 <= i <= |filenames|
        invariant files == CopyAll(old(files), c, dstBaseDir, filenames[..i])
        invariant dirs == old(dirs) + {dstImageSubDir, dstLabelSubDir}
      {
        CopyStem(c, dstBaseDir, dstImageSubDir, dstLabelSubDir, filenames[i]);
        assert filenames[..i + 1][..i] == filenames[..i];
        i := i + 1;
      }
      assert filenames[..i] == filenames;
    }

    /** `split_and_copy_dataset` with the image directory's listing and the
        shuffle's random draws given. With no image found it returns before
        creating anything; otherwise it shuffles the stems and copies the
        three slices cut at the counts the ratios give. */
    method SplitAndCopyDataset(originalImageDir: Path, originalLabelDir: Path, outputRootDir: Path,
                               imageExt: string, labelExt: string,
                               listing: seq<string>, draws: seq<nat>,
                               trainRatio: real := 0.7, validRatio: real := 0.15, testRatio: real := 0.15)
      returns (ghost shuffled: seq<string>)
      requires 0.0 <= trainRatio && 0.0 <= validRatio
      requires trainRatio + validRatio + testRatio > 0.0
      requires ValidDraws(draws, |DiscoverStems(listing, imageExt)|)
      requires SplitNoSelfCopies(CopyConfig(originalImageDir, originalLabelDir, imageExt, labelExt),
                                 outputRootDir, DiscoverStems(listing, imageExt))
      modifies this
      ensures multiset(shuffled) == multiset(DiscoverStems(listing, imageExt))
      ensures DiscoverStems(listing, imageExt) == [] ==> files == old(files) && dirs == old(dirs)
      ensures DiscoverStems(listing, imageExt) != [] ==>
        var counts := SplitCounts(|shuffled|, trainRatio, validRatio, testRatio);
        && files == SplitFiles(old(files), CopyConfig(originalImageDir, originalLabelDir, imageExt, labelExt),
                               outputRootDir, shuffled, counts.0, counts.1)
        && dirs == old(dirs) + SplitDirs(outputRootDir)
    {
      var imageFilenames := DiscoverStems(listing, imageExt);
      shuffled := imageFilenames;
      if imageFilenames == [] {
        return;
      }
      imageFilenames := Shuffle(imageFilenames, draws);
      shuffled := imageFilenames;
      SplitNoSelfCopiesPermuted(CopyConfig(originalImageDir, originalLabelDir, imageExt, labelExt),
                                outputRootDir, DiscoverStems(listing, imageExt), shuffled);
      var totalCount := |imageFilenames|;
      var counts := SplitCounts(totalCount, trainRatio, validRatio, testRatio);
      var trainCount, validCount := counts.0, counts.1;
      CopySubsets(originalImageDir, originalLabelDir, outputRootDir, imageExt, labelExt,
                  imageFilenames, trainCount, validCount);
    }

    /** Lines 57-72: the train, valid and test directories under the output
        root receive the first `trainCount` stems, the next `validCount`
        stems and the rest. */
    method CopySubsets(originalImageDir: Path, originalLabelDir: Path, outputRootDir: Path,
                       imageExt: string, labelExt: string,
                       shuffled: seq<string>, trainCount: nat, validCount: nat)
      requires SplitNoSelfCopies(CopyConfig(originalImageDir, originalLabelDir, imageExt, labelExt),
                                 outputRootDir, shuffled)
      modifies this
      ensures files == SplitFiles(old(files), CopyConfig(originalImageDir, originalLabelDir, imageExt, labelExt),
                                  outputRootDir, shuffled, trainCount, validCount)
      ensures dirs == old(dirs) + SplitDirs(outputRootDir)
    {
      var trainSetBaseDir := Join(outputRootDir, "train");
      var validSetBaseDir := Join(outputRootDir, "valid");
      var testSetBaseDir := Join(outputRootDir, "test");
      ghost var c := CopyConfig(originalImageDir, originalLabelDir, imageExt, labelExt);
      ghost var m0 := files;
      SlicesNoSelfCopies(c, outputRootDir, shuffled, trainCount, validCount);
      CopyFilesToYoloStructure(originalImageDir, originalLabelDir, trainSetBaseDir,
                               Slice(shuffled, 0, trainCount), imageExt, labelExt);
      ghost var m1 := files;
      CopyFilesToYoloStructure(originalImageDir, originalLabelDir, validSetBaseDir,
                               Slice(shuffled, trainCount, trainCount + validCount), imageExt, labelExt);
      ghost var m2 := files;
      CopyFilesToYoloStructure(originalImageDir, originalLabelDir, testSetBaseDir,
                               Slice(shuffled, trainCount + validCount, |shuffled|), imageExt, labelExt);
      assert files == CopyAll(m2, c, testSetBaseDir, Slice(shuffled, trainCount + validCount, |shuffled|));
      assert m2 == CopyAll(m1, c, validSetBaseDir, Slice(shuffled, trainCount, trainCount + validCount));
      assert m1 == CopyAll(m0, c, trainSetBaseDir, Slice(shuffled, 0, trainCount));
      assert files == SplitFiles(m0, c, outputRootDir, shuffled, trainCount, validCount);
    }
  }
}
