/** The translation check: section lengths and code identifiers of each translation against the English document. */
module DriftCheck {

  /** A file as the check sees it: its lines, and the code identifiers it names. */
  datatype Document = Document(lines: seq<string>, identifiers: multiset<string>)

  predicate IsFence(line: string) {
    "```" <= line
  }

  /** One to four hashes and a space. */
  predicate IsHeading(line: string) {
    "# " <= line || "## " <= line || "### " <= line || "#### " <= line
  }

  /** A run of one to four hashes from the start of the line, then a space; a fence is three backquotes. */
  lemma HeadingIff(line: string)
    ensures IsHeading(line) <==>
      exists k :: 1 <= k <= 4 && k < |line| && line[k] == ' ' && forall j :: 0 <= j < k ==> line[j] == '#'
    ensures IsFence(line) <==> |line| >= 3 && line[0] == '`' && line[1] == '`' && line[2] == '`'
  {
    if k :| 1 <= k <= 4 && k < |line| && line[k] == ' ' && forall j :: 0 <= j < k ==> line[j] == '#' {
      assert line[0] == '#' && (k > 1 ==> line[1] == '#') && (k > 2 ==> line[2] == '#') && (k > 3 ==> line[3] == '#');
    }
    assert "# " <= line ==> line[0] == '#' && line[1] == ' ';
    assert "## " <= line ==> line[0] == '#' && line[1] == '#' && line[2] == ' ';
    assert "### " <= line ==> line[0] == '#' && line[1] == '#' && line[2] == '#' && line[3] == ' ';
    assert "#### " <= line ==> line[0] == '#' && line[1] == '#' && line[2] == '#' && line[3] == '#' && line[4] == ' ';
  }

  /** Whether a fence is open after these lines. */
  predicate Open(lines: seq<string>) {
    lines != [] && (IsFence(lines[|lines| - 1]) != Open(lines[..|lines| - 1]))
  }

  /** Line `i` is a heading outside any fence. */
  predicate HeadingAt(lines: seq<string>, i: nat)
    requires i < |lines|
  {
    !Open(lines[..i + 1]) && IsHeading(lines[i])
  }

  /** The line counts between headings, the stretch before the first heading included. */
  function Gaps(marks: seq<bool>): (r: seq<nat>)
    ensures r != []
  {
    if marks == [] then [0]
    else
      var r := Gaps(marks[..|marks| - 1]);
      if marks[|marks| - 1] then r + [0] else r[|r| - 1 := r[|r| - 1] + 1]
  }

  function Marks(lines: seq<string>): (r: seq<bool>)
    ensures |r| == |lines|
  {
    if lines == [] then [] else Marks(lines[..|lines| - 1]) + [!Open(lines) && IsHeading(lines[|lines| - 1])]
  }

  function Counts(sections: seq<(string, nat)>): seq<nat> {
    seq(|sections|, i requires 0 <= i < |sections| => sections[i].1)
  }

  method Sections(lines: seq<string>) returns (out: seq<(string, nat)>)
    ensures Counts(out) == Gaps(Marks(lines))
  {
    out := [];
    var current, count, fence := "(preamble)", 0, false;
    for i := 0 to |lines|
      invariant fence == Open(lines[..i])
      invariant Gaps(Marks(lines[..i])) == Counts(out) + [count]
    {
      var line := lines[i];
      assert lines[..i + 1][..i] == lines[..i];
      GapsGrow(Marks(lines[..i]), Counts(out), count);
      if IsFence(line) {
        fence := !fence;
      }
      assert fence == Open(lines[..i + 1]);
      if !fence && IsHeading(line) {
        CountsAppend(out, current, count);
        out := out + [(current, count)];
        current, count := line, 0;
      } else {
        count := count + 1;
      }
    }
    assert lines[..|lines|] == lines;
    CountsAppend(out, current, count);
    out := out + [(current, count)];
  }

  lemma CountsAppend(out: seq<(string, nat)>, heading: string, count: nat)
    ensures Counts(out + [(heading, count)]) == Counts(out) + [count]
  {
  }

  lemma GapsGrow(marks: seq<bool>, counts: seq<nat>, count: nat)
    requires Gaps(marks) == counts + [count]
    ensures Gaps(marks + [true]) == counts + [count] + [0]
    ensures Gaps(marks + [false]) == counts + [count + 1]
  {
  }

  lemma {:induction false} MarksAreHeadings(lines: seq<string>, i: nat)
    requires i < |lines|
    ensures Marks(lines)[i] == HeadingAt(lines, i)
  {
    if i == |lines| - 1 {
      assert lines[..i + 1] == lines;
    } else {
      MarksAreHeadings(lines[..|lines| - 1], i);
      assert lines[..|lines| - 1][..i + 1] == lines[..i + 1];
    }
  }

  /** The counts determine where the headings are: two mark sequences with equal gaps are equal. */
  lemma {:induction false} GapsInjective(a: seq<bool>, b: seq<bool>)
    requires Gaps(a) == Gaps(b)
    ensures a == b
  {
    if a == [] || b == [] {
      GapsSize(a);
      GapsSize(b);
    } else {
      var x, y := a[..|a| - 1], b[..|b| - 1];
      var p, q := Gaps(x), Gaps(y);
      var g := Gaps(a);
      if a[|a| - 1] {
        assert g[|g| - 1] == 0 && g[..|g| - 1] == p;
        assert g[..|g| - 1] == q;
      } else {
        assert p == g[|g| - 1 := g[|g| - 1] - 1];
        assert q == g[|g| - 1 := g[|g| - 1] - 1];
      }
      GapsInjective(x, y);
      assert a == x + [a[|a| - 1]] && b == y + [b[|b| - 1]];
    }
  }

  function Sum(s: seq<nat>): nat {
    if s == [] then 0 else Sum(s[..|s| - 1]) + s[|s| - 1]
  }

  /** Headings and counted lines together are all the lines. */
  lemma {:induction false} GapsSize(marks: seq<bool>)
    ensures Sum(Gaps(marks)) + |Gaps(marks)| - 1 == |marks|
  {
    if marks == [] {
      assert [0][..0] == [];
    } else {
      var r, g := Gaps(marks[..|marks| - 1]), Gaps(marks);
      GapsSize(marks[..|marks| - 1]);
      if marks[|marks| - 1] {
        assert g[..|g| - 1] == r;
      } else {
        assert g[..|g| - 1] == r[..|r| - 1];
      }
    }
  }

  /** Same number of lines, and out-of-fence headings on the same lines. */
  ghost predicate SameLayout(a: seq<string>, b: seq<string>) {
    |a| == |b| && forall i :: 0 <= i < |a| ==> (HeadingAt(a, i) <==> HeadingAt(b, i))
  }

  lemma LayoutIsCounts(a: seq<string>, b: seq<string>)
    ensures Gaps(Marks(a)) == Gaps(Marks(b)) <==> SameLayout(a, b)
  {
    forall i | 0 <= i < |a| && |a| == |b|
      ensures Marks(a)[i] == HeadingAt(a, i) && Marks(b)[i] == HeadingAt(b, i)
    {
      MarksAreHeadings(a, i);
      MarksAreHeadings(b, i);
    }
    if Gaps(Marks(a)) == Gaps(Marks(b)) {
      GapsInjective(Marks(a), Marks(b));
    }
    assert SameLayout(a, b) ==> Marks(a) == Marks(b);
  }

  method SectionsMatch(a: seq<string>, b: seq<string>) returns (ok: bool)
    ensures ok <==> SameLayout(a, b)
  {
    var english := Sections(a);
    var translated := Sections(b);
    LayoutIsCounts(a, b);
    assert |Counts(english)| == |english| && |Counts(translated)| == |translated|;
    if |english| != |translated| {
      return false;
    }
    for i := 0 to |english|
      invariant forall j :: 0 <= j < i ==> english[j].1 == translated[j].1
    {
      if english[i].1 != translated[i].1 {
        assert Counts(english)[i] != Counts(translated)[i];
        return false;
      }
    }
    assert Counts(english) == Counts(translated);
    return true;
  }

  /** The identifiers English names more often than the translation does. */
  method MissingIdentifiers(english: multiset<string>, translated: multiset<string>) returns (missing: set<string>)
    ensures forall x :: x in missing <==> english[x] > translated[x]
    ensures missing == {} <==> english <= translated
  {
    missing := set x | x in english && translated[x] < english[x];
    assert missing == {} ==> forall x :: english[x] <= translated[x] by {
      if missing == {} {
        forall x ensures english[x] <= translated[x] {
          assert x !in missing;
        }
      }
    }
  }

  function Translation(base: string, locale: string): string {
    (if |base| < 3 then "" else base[..|base| - 3]) + "." + locale + ".md"
  }

  ghost predicate Passes(files: map<string, Document>, base: string, locale: string) {
    var path := Translation(base, locale);
    && base in files && path in files
    && SameLayout(files[base].lines, files[path].lines)
    && files[base].identifiers <= files[path].identifiers
  }

  /** The check of one English document against its translations. */
  method CheckDocument(files: map<string, Document>, base: string, locales: seq<string>) returns (failures: seq<string>)
    requires base in files
    ensures |failures| == 0 <==> AllPass(files, base, locales)
    ensures forall l :: l in locales ==> (Translation(base, l) in failures <==> !Passes(files, base, l))
  {
    failures := [];
    for i := 0 to |locales|
      invariant |failures| == 0 <==> AllPass(files, base, locales[..i])
      invariant forall l :: Translation(base, l) in failures ==> !Passes(files, base, l)
      invariant forall l :: l in locales[..i] && !Passes(files, base, l) ==> Translation(base, l) in failures
    {
      var path := Translation(base, locales[i]);
      assert locales[..i + 1] == locales[..i] + [locales[i]];
      SamePathSameVerdict(files, base, locales[i]);
      if path !in files {
        failures := failures + [path];
      } else {
        var layout := SectionsMatch(files[base].lines, files[path].lines);
        if !layout {
          failures := failures + [path];
        } else {
          var missing := MissingIdentifiers(files[base].identifiers, files[path].identifiers);
          if missing != {} {
            failures := failures + [path];
          }
        }
      }
    }
    assert locales[..|locales|] == locales;
  }

  lemma SamePathSameVerdict(files: map<string, Document>, base: string, locale: string)
    ensures forall l :: Translation(base, l) == Translation(base, locale) ==>
      (Passes(files, base, l) <==> Passes(files, base, locale))
  {
  }

  ghost predicate AllPass(files: map<string, Document>, base: string, locales: seq<string>) {
    base in files && forall l :: l in locales ==> Passes(files, base, l)
  }

  /** The exit status: 0 exactly when every document and translation exists and passes. */
  method CheckAll(files: map<string, Document>, documents: seq<string>, locales: seq<string>) returns (status: nat)
    ensures status == 0 || status == 1
    ensures status == 0 <==> forall b :: b in documents ==> AllPass(files, b, locales)
  {
    var failures: seq<string> := [];
    for i := 0 to |documents|
      invariant |failures| == 0 <==> forall b :: b in documents[..i] ==> AllPass(files, b, locales)
    {
      var base := documents[i];
      assert documents[..i + 1] == documents[..i] + [base];
      assert (forall b :: b in documents[..i + 1] ==> AllPass(files, b, locales)) <==>
        (forall b :: b in documents[..i] ==> AllPass(files, b, locales)) && AllPass(files, base, locales);
      if base !in files {
        failures := failures + [base];
      } else {
        var more := CheckDocument(files, base, locales);
        failures := failures + more;
      }
    }
    assert documents[..|documents|] == documents;
    return if failures == [] then 0 else 1;
  }
}
