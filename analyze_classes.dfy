/** The class enumerator of src/data/analyze_classes.py: read the `object`
    entries of each Pascal VOC annotation file in a directory, collect their
    stripped `name` texts, and fold all files' lists into the set of class
    names and a count per class.

    A parsed annotation file is a value (`Document`); the directory is its
    listing plus a map from paths to parsed documents. The two loops of the
    script are methods checked against the specification functions
    `ClassNames`, `AllNames` and `Counts`, about which the lemmas below are
    proved. */
module AnalyzeClasses {
  import opened PathUtil

  datatype Option<T> = None | Some(value: T)

  /** A child of an annotation's root element: its tag, and the text of its
      first `name` child (`None` when there is no `name` child or that child
      has no text). */
  datatype Element = Element(tag: string, nameText: Option<string>)

  /** What `ET.parse` makes of a file: the root's children, or a failure
      (malformed XML, or no readable file at that path). */
  datatype Document = Unparsable | Parsed(children: seq<Element>)

  // ---------------------------------------------------------------------
  // Python's str.strip() (line 18)
  // ---------------------------------------------------------------------

  /** Python's `str.isspace` for one character: the ASCII whitespace and
      separators, NEL, no-break space and the Unicode space separators. */
  predicate IsSpace(ch: char)
  {
    || ch in {'\t', '\n', '\U{000B}', '\U{000C}', '\r', '\U{001C}', '\U{001D}', '\U{001E}', '\U{001F}', ' '}
    || ch in {'\U{0085}', '\U{00A0}', '\U{1680}', '\U{2028}', '\U{2029}', '\U{202F}', '\U{205F}', '\U{3000}'}
    || '\U{2000}' <= ch <= '\U{200A}'
  }

  /** `s` without its leading whitespace. */
  function TrimStart(s: string): string
    decreases |s|
  {
    if s != [] && IsSpace(s[0]) then TrimStart(s[1..]) else s
  }

  /** `s` without its trailing whitespace. */
  function TrimEnd(s: string): string
    decreases |s|
  {
    if s != [] && IsSpace(s[|s| - 1]) then TrimEnd(s[..|s| - 1]) else s
  }

  /** `TrimStart` drops a run of whitespace from the front and stops at the
      first character that is not whitespace. */
  lemma {:induction false} TrimStartShape(s: string)
    ensures var r := TrimStart(s);
            && |r| <= |s| && r == s[|s| - |r|..]
            && (forall k :: 0 <= k < |s| - |r| ==> IsSpace(s[k]))
            && (r == [] || !IsSpace(r[0]))
    decreases |s|
  {
    if s != [] && IsSpace(s[0]) {
      TrimStartShape(s[1..]);
      var r := TrimStart(s);
      assert r == TrimStart(s[1..]);
      forall k | 0 <= k < |s| - |r|
        ensures IsSpace(s[k])
      {
        if k > 0 {
          assert s[k] == s[1..][k - 1];
        }
      }
    }
  }

  /** `TrimEnd` drops a run of whitespace from the back and stops at the
      last character that is not whitespace. */
  lemma {:induction false} TrimEndShape(s: string)
    ensures var r := TrimEnd(s);
            && |r| <= |s| && r == s[..|r|]
            && (forall k :: |r| <= k < |s| ==> IsSpace(s[k]))
            && (r == [] || !IsSpace(r[|r| - 1]))
    decreases |s|
  {
    if s != [] && IsSpace(s[|s| - 1]) {
      var init := s[..|s| - 1];
      TrimEndShape(init);
      var r := TrimEnd(s);
      assert r == TrimEnd(init);
      assert r == init[..|r|] == s[..|r|];
      forall k | |r| <= k < |s|
        ensures IsSpace(s[k])
      {
        if k < |init| {
          assert s[k] == init[k];
        }
      }
    }
  }

  /** `r` is the piece of `s` starting at `i` once whitespace runs are cut
      off both ends, and `r` neither starts nor ends with whitespace. */
  predicate IsStripOf(r: string, s: string, i: nat)
  {
    && i + |r| <= |s| && r == s[i..i + |r|]
    && (forall k :: 0 <= k < i ==> IsSpace(s[k]))
    && (forall k :: i + |r| <= k < |s| ==> IsSpace(s[k]))
    && (r == [] || (!IsSpace(r[0]) && !IsSpace(r[|r| - 1])))
  }

  /** `s.strip()` */
  function Strip(s: string): string
  {
    TrimEnd(TrimStart(s))
  }

  /** `s.strip()` cuts whitespace runs off both ends of `s`, starting after
      the leading run. */
  lemma StripShape(s: string)
    ensures |TrimStart(s)| <= |s|
    ensures IsStripOf(Strip(s), s, |s| - |TrimStart(s)|)
  {
    var t := TrimStart(s);
    var r := TrimEnd(t);
    TrimStartShape(s);
    TrimEndShape(t);
    assert r == s[|s| - |t|..|s| - |t| + |r|];
    forall k | |s| - |t| + |r| <= k < |s|
      ensures IsSpace(s[k])
    {
      assert s[k] == t[k - (|s| - |t|)];
    }
  }

  /** There is only one way to strip a string: any piece of `s` cut as
      `IsStripOf` describes is `s.strip()`. */
  lemma StripUnique(r: string, s: string, i: nat)
    requires IsStripOf(r, s, i)
    ensures r == Strip(s)
  {
    var t := TrimStart(s);
    var j := |s| - |t|;
    TrimStartShape(s);
    TrimEndShape(t);
    if r == [] {
      assert forall k :: 0 <= k < |s| ==> IsSpace(s[k]);
    } else {
      assert s[i] == r[0];
      assert j == i;
      var u := TrimEnd(t);
      assert t[|r| - 1] == r[|r| - 1];
      assert |u| == |r|;
      assert u == t[..|r|] == s[i..i + |r|];
    }
  }

  /** Stripping twice is stripping once. */
  lemma StripIdempotent(s: string)
    ensures Strip(Strip(s)) == Strip(s)
  {
    var r := Strip(s);
    StripShape(s);
    assert r == r[0..0 + |r|];
    StripUnique(r, r, 0);
  }

  // ---------------------------------------------------------------------
  // The names in one annotation file (lines 7-23)
  // ---------------------------------------------------------------------

  /** An `object` entry whose `name` child exists with non-empty text (the
      truthiness test of line 17). */
  predicate HasName(e: Element)
  {
    e.tag == "object" && e.nameText.Some? && e.nameText.value != []
  }

  /** The class name such an entry contributes: its text, stripped. */
  function NameOf(e: Element): string
    requires HasName(e)
  {
    Strip(e.nameText.value)
  }

  /** The names the loop of lines 15-18 appends for the root's children, in
      document order. */
  function ClassNames(children: seq<Element>): (r: seq<string>)
    ensures |r| <= |children|
  {
    if children == [] then []
    else
      var e := children[|children| - 1];
      ClassNames(children[..|children| - 1]) + (if HasName(e) then [NameOf(e)] else [])
  }

  /** What `extract_classes_from_xml` returns for a document: its names, or
      the empty list when parsing failed (lines 19-23). */
  function ClassesIn(doc: Document): seq<string>
  {
    match doc
    case Unparsable => []
    case Parsed(children) => ClassNames(children)
  }

  /** `ET.parse(path)`: the document at `path`; a path with no document is
      a failure, like a malformed file (both exceptions are caught). */
  function Parse(docs: map<Path, Document>, path: Path): Document
  {
    if path in docs then docs[path] else Unparsable
  }

  /** Names are collected element by element: the names of a concatenation
      are the names of its parts, in order. */
  lemma {:induction false} ClassNamesAppend(a: seq<Element>, b: seq<Element>)
    ensures ClassNames(a + b) == ClassNames(a) + ClassNames(b)
    decreases |b|
  {
    if b == [] {
      assert a + b == a;
    } else {
      var init, e := b[..|b| - 1], b[|b| - 1];
      assert (a + b)[..|a + b| - 1] == a + init;
      assert (a + b)[|a + b| - 1] == e;
      ClassNamesAppend(a, init);
    }
  }

  /** One element contributes its stripped name if it is an `object` with
      non-empty name text, and nothing otherwise. */
  lemma ClassNamesOne(e: Element)
    ensures ClassNames([e]) == (if HasName(e) then [Strip(e.nameText.value)] else [])
  {
    assert [e][..0] == [];
  }

  /** The child at `k` is an `object` entry whose name strips to `x`. */
  predicate NamedAt(children: seq<Element>, k: int, x: string)
  {
    0 <= k < |children| && HasName(children[k]) && NameOf(children[k]) == x
  }

  ghost predicate NamedSomewhere(children: seq<Element>, x: string)
  {
    exists k :: NamedAt(children, k, x)
  }

  /** A name is collected exactly when some `object` entry with non-empty
      name text strips to it. */
  lemma {:induction false} ClassNamesMembers(children: seq<Element>, x: string)
    ensures x in ClassNames(children) <==> NamedSomewhere(children, x)
  {
    if children != [] {
      var init, e := children[..|children| - 1], children[|children| - 1];
      var tail := if HasName(e) then [NameOf(e)] else [];
      assert ClassNames(children) == ClassNames(init) + tail;
      ClassNamesMembers(init, x);
      if x in ClassNames(children) {
        if x in tail {
          assert NamedAt(children, |init|, x);
        } else {
          var k :| NamedAt(init, k, x);
          assert NamedAt(children, k, x);
        }
      }
      if NamedSomewhere(children, x) {
        var k :| NamedAt(children, k, x);
        if k < |init| {
          assert NamedAt(init, k, x);
        }
      }
    }
  }

  /** A non-empty name of only whitespace passes the truthiness test and so
      yields an entry, the empty string, because the test comes before the
      strip. */
  lemma WhitespaceNameYieldsEmptyEntry(t: string)
    requires t != [] && forall k :: 0 <= k < |t| ==> IsSpace(t[k])
    ensures ClassNames([Element("object", Some(t))]) == [""]
  {
    StripShape(t);
    ClassNamesOne(Element("object", Some(t)));
  }

  /** `extract_classes_from_xml(xml_file_path)`, with `ET.parse` resolved
      in `docs`. */
  method ExtractClassesFromXml(docs: map<Path, Document>, xmlFilePath: Path) returns (classesInFile: seq<string>)
    ensures classesInFile == ClassesIn(Parse(docs, xmlFilePath))
  {
    classesInFile := [];
    var tree := Parse(docs, xmlFilePath);
    if tree.Unparsable? {
      return;
    }
    var root := tree.children;
    var i := 0;
    while i < |root|
      invariant 0 <= i <= |root|
      invariant classesInFile == ClassNames(root[..i])
    {
      var obj := root[i];
      if obj.tag == "object" {
        var nameTag := obj.nameText;
        if nameTag.Some? && nameTag.value != [] {
          classesInFile := classesInFile + [Strip(nameTag.value)];
        }
      }
      assert root[..i + 1][..i] == root[..i];
      i := i + 1;
    }
    assert root[..i] == root;
  }

  // ---------------------------------------------------------------------
  // Folding all files into a set and counts (lines 38-41, 55-61)
  // ---------------------------------------------------------------------

  /** The annotation files of line 38: the listed names ending in ".xml",
      joined to the directory, in listing order. */
  function XmlFiles(xmlDir: Path, listing: seq<string>): seq<Path>
  {
    if listing == [] then []
    else
      var f := listing[|listing| - 1];
      XmlFiles(xmlDir, listing[..|listing| - 1]) + (if EndsWith(f, ".xml") then [Join(xmlDir, f)] else [])
  }

  /** Every listed name ending in ".xml" is processed, joined to the
      directory, and nothing else is. */
  lemma {:induction false} XmlFilesMembers(xmlDir: Path, listing: seq<string>)
    ensures forall f :: f in listing && EndsWith(f, ".xml") ==> Join(xmlDir, f) in XmlFiles(xmlDir, listing)
    ensures forall p :: p in XmlFiles(xmlDir, listing) ==>
              exists f :: f in listing && EndsWith(f, ".xml") && p == Join(xmlDir, f)
  {
    if listing != [] {
      var init, f := listing[..|listing| - 1], listing[|listing| - 1];
      XmlFilesMembers(xmlDir, init);
      assert listing == init + [f];
    }
  }

  /** The early return of lines 39-41 happens exactly when no listed name
      ends in ".xml". */
  lemma XmlFilesEmpty(xmlDir: Path, listing: seq<string>)
    ensures XmlFiles(xmlDir, listing) == [] <==> forall f :: f in listing ==> !EndsWith(f, ".xml")
  {
    XmlFilesMembers(xmlDir, listing);
    if XmlFiles(xmlDir, listing) != [] {
      var p := XmlFiles(xmlDir, listing)[0];
      assert p in XmlFiles(xmlDir, listing);
    }
  }

  /** All names of the given files, file after file. */
  function AllNames(docs: map<Path, Document>, files: seq<Path>): seq<string>
  {
    if files == [] then []
    else AllNames(docs, files[..|files| - 1]) + ClassesIn(Parse(docs, files[|files| - 1]))
  }

  /** The set of names in a list. */
  function Elems(s: seq<string>): set<string>
  {
    set x | x in s
  }

  /** The count map the increments of line 61 build over `s`: a key for
      every name that occurs, counting its occurrences. */
  function Counts(s: seq<string>): map<string, nat>
  {
    if s == [] then map[]
    else
      var m := Counts(s[..|s| - 1]);
      var x := s[|s| - 1];
      m[x := (if x in m then m[x] else 0) + 1]
  }

  /** The count map has a key for exactly the names that occur, and counts
      each name's occurrences: counting is per occurrence, not per file. */
  lemma {:induction false} CountsMeaning(s: seq<string>)
    ensures Counts(s).Keys == Elems(s)
    ensures forall x :: x in Counts(s) ==> Counts(s)[x] == multiset(s)[x]
  {
    if s != [] {
      var init, x := s[..|s| - 1], s[|s| - 1];
      assert s == init + [x];
      CountsMeaning(init);
    }
  }

  /** Extending a prefix by one element appends that element. */
  lemma PrefixStep(seen: seq<string>, s: seq<string>, j: nat)
    requires j < |s|
    ensures seen + s[..j + 1] == (seen + s[..j]) + [s[j]]
  {
    assert s[..j + 1] == s[..j] + [s[j]];
  }

  /** Seeing one more name adds it to the set. */
  lemma ElemsSnoc(s: seq<string>, x: string)
    ensures Elems(s + [x]) == Elems(s) + {x}
  {
    assert forall y :: y in s + [x] <==> y in s || y == x;
  }

  /** Seeing one more name increments its count, starting from 0 when it
      had no entry yet (the `defaultdict(int)` of line 46). */
  lemma CountsSnoc(s: seq<string>, x: string, m: map<string, nat>)
    requires m == Counts(s)
    ensures Counts(s + [x]) == m[x := (if x in m then m[x] else 0) + 1]
  {
    assert (s + [x])[..|s|] == s;
  }

  lemma {:induction false} AllNamesAppend(docs: map<Path, Document>, a: seq<Path>, b: seq<Path>)
    ensures AllNames(docs, a + b) == AllNames(docs, a) + AllNames(docs, b)
    decreases |b|
  {
    if b == [] {
      assert a + b == a;
    } else {
      var init := b[..|b| - 1];
      assert (a + b)[..|a + b| - 1] == a + init;
      assert (a + b)[|a + b| - 1] == b[|b| - 1];
      AllNamesAppend(docs, a, init);
    }
  }

  /** Taking the file at `k` out of the list takes its names out of the
      collected names. */
  lemma AllNamesRemove(docs: map<Path, Document>, b: seq<Path>, k: nat)
    requires k < |b|
    ensures multiset(AllNames(docs, b))
         == multiset(AllNames(docs, b[..k] + b[k + 1..])) + multiset(ClassesIn(Parse(docs, b[k])))
  {
    var u, v := b[..k], b[k + 1..];
    assert b == (u + [b[k]]) + v;
    AllNamesAppend(docs, u + [b[k]], v);
    AllNamesAppend(docs, u, [b[k]]);
    AllNamesAppend(docs, u, v);
    assert [b[k]][..0] == [];
  }

  /** The names collected do not depend on the order in which the files are
      processed: any reordering of the files gives the same names, each as
      often. */
  lemma {:induction false} AllNamesOrderIndependent(docs: map<Path, Document>, a: seq<Path>, b: seq<Path>)
    requires multiset(a) == multiset(b)
    ensures multiset(AllNames(docs, a)) == multiset(AllNames(docs, b))
    decreases |a|
  {
    if a == [] {
      assert |b| == |multiset(b)| == |multiset(a)| == 0;
    } else {
      var init, p := a[..|a| - 1], a[|a| - 1];
      assert p in multiset(b) by {
        assert a == init + [p];
      }
      var k :| 0 <= k < |b| && b[k] == p;
      var rest := b[..k] + b[k + 1..];
      SameAfterRemoval(a, b, k);
      AllNamesOrderIndependent(docs, init, rest);
      AllNamesRemove(docs, b, k);
      assert AllNames(docs, a) == AllNames(docs, init) + ClassesIn(Parse(docs, p));
    }
  }

  /** Two reorderings of each other stay so once the last element of one
      and an equal element of the other are taken out. */
  lemma SameAfterRemoval(a: seq<Path>, b: seq<Path>, k: nat)
    requires multiset(a) == multiset(b) && a != [] && k < |b| && b[k] == a[|a| - 1]
    ensures multiset(a[..|a| - 1]) == multiset(b[..k] + b[k + 1..])
  {
    var init, p, rest := a[..|a| - 1], a[|a| - 1], b[..k] + b[k + 1..];
    assert a == init + [p];
    assert b[..k + 1] == b[..k] + [p];
    assert b == b[..k + 1] + b[k + 1..];
    assert multiset(b) == multiset(rest) + multiset{p};
    assert multiset(a) == multiset(init) + multiset{p};
    forall y
      ensures multiset(init)[y] == multiset(rest)[y]
    {
      assert multiset(a)[y] == multiset(init)[y] + multiset{p}[y];
      assert multiset(b)[y] == multiset(rest)[y] + multiset{p}[y];
    }
  }

  /** The counts depend only on how often each name occurs, not on order. */
  lemma CountsOrderIndependent(a: seq<string>, b: seq<string>)
    requires multiset(a) == multiset(b)
    ensures Counts(a) == Counts(b)
  {
    CountsMeaning(a);
    CountsMeaning(b);
    forall x
      ensures x in a <==> x in b
    {
      assert x in a <==> x in multiset(a);
      assert x in b <==> x in multiset(b);
    }
    assert Counts(a).Keys == Counts(b).Keys;
  }

  /** The set and the counts built from the files in one order are those
      built from the files in any other order. */
  lemma ResultOrderIndependent(docs: map<Path, Document>, a: seq<Path>, b: seq<Path>)
    requires multiset(a) == multiset(b)
    ensures Elems(AllNames(docs, a)) == Elems(AllNames(docs, b))
    ensures Counts(AllNames(docs, a)) == Counts(AllNames(docs, b))
  {
    var na, nb := AllNames(docs, a), AllNames(docs, b);
    AllNamesOrderIndependent(docs, a, b);
    CountsOrderIndependent(na, nb);
    assert forall x :: x in na <==> x in multiset(na);
    assert forall x :: x in nb <==> x in multiset(nb);
  }

  /** The body of the `for future in as_completed(...)` loop for one file:
      each class name found in it joins `unique_classes` and raises its entry
      in `class_counts` by one. */
  method AddNames(uniqueClasses: set<string>, classCounts: map<string, nat>, ghost seen: seq<string>, classesInFile: seq<string>)
    returns (unique': set<string>, counts': map<string, nat>)
    requires uniqueClasses == Elems(seen) && classCounts == Counts(seen)
    ensures unique' == Elems(seen + classesInFile)
    ensures counts' == Counts(seen + classesInFile)
  {
    unique', counts' := uniqueClasses, classCounts;
    var j := 0;
    assert seen + classesInFile[..j] == seen;
    while j < |classesInFile|
      invariant 0 <= j <= |classesInFile|
      invariant unique' == Elems(seen + classesInFile[..j])
      invariant counts' == Counts(seen + classesInFile[..j])
    {
      var clsName := classesInFile[j];
      ghost var before := seen + classesInFile[..j];
      PrefixStep(seen, classesInFile, j);
      ElemsSnoc(before, clsName);
      CountsSnoc(before, clsName, counts');
      unique' := unique' + {clsName};
      counts' := counts'[clsName := (if clsName in counts' then counts'[clsName] else 0) + 1];
      j := j + 1;
    }
    assert classesInFile[..j] == classesInFile;
  }

  /** The `as_completed` loop: the files' class names are gathered in the
      order `completion` in which their workers finish. */
  method Gather(docs: map<Path, Document>, completion: seq<Path>)
    returns (uniqueClasses: set<string>, classCounts: map<string, nat>)
    ensures uniqueClasses == Elems(AllNames(docs, completion))
    ensures classCounts == Counts(AllNames(docs, completion))
  {
    uniqueClasses := {};
    classCounts := map[];
    ghost var seen: seq<string> := [];
    var i := 0;
    while i < |completion|
      invariant 0 <= i <= |completion|
      invariant seen == AllNames(docs, completion[..i])
      invariant uniqueClasses == Elems(seen)
      invariant classCounts == Counts(seen)
    {
      var classesInFile := ExtractClassesFromXml(docs, completion[i]);
      uniqueClasses, classCounts := AddNames(uniqueClasses, classCounts, seen, classesInFile);
      assert completion[..i + 1][..i] == completion[..i];
      seen := seen + classesInFile;
      i := i + 1;
    }
    assert completion[..i] == completion;
  }

  /** `find_all_unique_classes_multithreaded(xml_dir)` with the directory's
      listing, the parsed documents and the order in which the workers
      complete given (`as_completed` yields each file exactly once). The
      result is the same whatever that order. */
  method FindAllUniqueClasses(xmlDir: Path, listing: seq<string>, docs: map<Path, Document>, completion: seq<Path>)
    returns (uniqueClasses: set<string>, classCounts: map<string, nat>)
    requires multiset(completion) == multiset(XmlFiles(xmlDir, listing))
    ensures XmlFiles(xmlDir, listing) == [] ==> uniqueClasses == {} && classCounts == map[]
    ensures uniqueClasses == Elems(AllNames(docs, XmlFiles(xmlDir, listing)))
    ensures classCounts == Counts(AllNames(docs, XmlFiles(xmlDir, listing)))
  {
    var xmlFiles := XmlFiles(xmlDir, listing);
    if xmlFiles == [] {
      return {}, map[];
    }
    uniqueClasses, classCounts := Gather(docs, completion);
    ResultOrderIndependent(docs, completion, xmlFiles);
  }
}
