/**
 The document gate of `src/clouvel/tools/core.py`: a fixed catalog of five
 required document kinds, the detection of each kind from the lower-cased
 names of the regular files in a docs folder, the ALLOWED/BLOCKED decision
 of `can_code`, the coverage figure of `analyze_docs`, and the
 create-if-absent templates of `init_docs`.

 A folder is a sequence of entries; `None` stands for a path that does not
 exist.
 */
module DocGate {
  import opened Wrappers
  import opened Text

  // ---------------------------------------------------------------------
  // Filename patterns
  // ---------------------------------------------------------------------

  /** Every pattern of the catalog is a literal, or `before` followed by at
      most one character that is not a newline (the regex `.?`) and then
      `after`. */
  datatype Pattern = Literal(text: string) | Gap(before: string, after: string)

  /** The words a pattern matches exactly, as the regex reads it. */
  ghost predicate Denotes(p: Pattern, w: string) {
    match p
    case Literal(t) => w == t
    case Gap(a, b) =>
      || w == a + b
      || (|w| == |a| + 1 + |b| && w[..|a|] == a && w[|a|] != '\n' && w[|a| + 1..] == b)
  }

  /** `re.search(p, s)` succeeds: some stretch of `s` is a word of `p`. */
  ghost predicate Occurs(p: Pattern, s: string) {
    exists i, j | 0 <= i <= j <= |s| :: Denotes(p, s[i..j])
  }

  /** A match of `p` begins at position `i` of `s`. */
  predicate MatchesAt(p: Pattern, s: string, i: nat)
    requires i <= |s|
  {
    match p
    case Literal(t) => t <= s[i..]
    case Gap(a, b) =>
      && a <= s[i..]
      && (|| b <= s[i + |a|..]
          || (i + |a| < |s| && s[i + |a|] != '\n' && b <= s[i + |a| + 1..]))
  }

  /** The scan `re.search` performs: try every start position. */
  predicate Search(p: Pattern, s: string) {
    exists i: nat | i <= |s| :: MatchesAt(p, s, i)
  }

  /** The scan finds a match exactly when the regex occurs in the string. */
  lemma SearchIsRegexSearch(p: Pattern, s: string)
    ensures Search(p, s) <==> Occurs(p, s)
  {
    if Search(p, s) {
      var i: nat :| i <= |s| && MatchesAt(p, s, i);
      var j := MatchGivesWord(p, s, i);
    }
    if Occurs(p, s) {
      var i, j :| 0 <= i <= j <= |s| && Denotes(p, s[i..j]);
      WordGivesMatch(p, s, i, j);
    }
  }

  /** A match starting at `i` spans a word of the pattern. */
  lemma MatchGivesWord(p: Pattern, s: string, i: nat) returns (j: nat)
    requires i <= |s| && MatchesAt(p, s, i)
    ensures i <= j <= |s| && Denotes(p, s[i..j])
  {
    match p
    case Literal(t) =>
      j := i + |t|;
      assert s[i..j] == s[i..][..|t|];
    case Gap(a, b) =>
      var w: string;
      if b <= s[i + |a|..] {
        j := i + |a| + |b|;
        w := s[i..j];
        assert w == s[i..][..|a|] + s[i + |a|..][..|b|];
      } else {
        j := i + |a| + 1 + |b|;
        w := s[i..j];
        assert w[..|a|] == s[i..][..|a|];
        assert w[|a| + 1..] == s[i + |a| + 1..][..|b|];
      }
  }

  /** A word of the pattern at `i..j` is a match starting at `i`. */
  lemma WordGivesMatch(p: Pattern, s: string, i: nat, j: nat)
    requires i <= j <= |s| && Denotes(p, s[i..j])
    ensures MatchesAt(p, s, i)
  {
    var w := s[i..j];
    match p
    case Literal(t) =>
      assert s[i..][..|t|] == w;
    case Gap(a, b) =>
      if w == a + b {
        assert s[i..][..|a|] == w[..|a|];
        assert s[i + |a|..][..|b|] == w[|a|..];
      } else {
        assert s[i..][..|a|] == w[..|a|];
        assert s[i + |a|] == w[|a|];
        assert s[i + |a| + 1..][..|b|] == w[|a| + 1..];
      }
  }

  // ---------------------------------------------------------------------
  // The catalog
  // ---------------------------------------------------------------------

  datatype Priority = Critical | Optional

  datatype RequiredDoc = RequiredDoc(kind: string, name: string, patterns: seq<Pattern>, priority: Priority)

  /** The five required document kinds, in catalog order. */
  const RequiredDocs: seq<RequiredDoc> := [
    RequiredDoc("prd", "PRD", [Literal("prd"), Gap("product", "requirement")], Critical),
    RequiredDoc("architecture", "아키텍처", [Literal("architect"), Literal("module")], Critical),
    RequiredDoc("api_spec", "API 스펙", [Literal("api"), Literal("swagger"), Literal("openapi")], Critical),
    RequiredDoc("db_schema", "DB 스키마", [Literal("schema"), Literal("database"), Literal("db")], Critical),
    RequiredDoc("verification", "검증 계획", [Literal("verif"), Gap("test", "plan")], Critical)
  ]

  const CatalogNames: seq<string> := ["PRD", "아키텍처", "API 스펙", "DB 스키마", "검증 계획"]

  function Names(reqs: seq<RequiredDoc>): (names: seq<string>)
    ensures |names| == |reqs|
    ensures forall i | 0 <= i < |reqs| :: names[i] == reqs[i].name
  {
    seq(|reqs|, i requires 0 <= i < |reqs| => reqs[i].name)
  }

  ghost predicate DistinctNames(reqs: seq<RequiredDoc>) {
    forall i, j | 0 <= i < j < |reqs| :: reqs[i].name != reqs[j].name
  }

  lemma CatalogFacts()
    ensures Names(RequiredDocs) == CatalogNames
    ensures DistinctNames(RequiredDocs)
    ensures forall r | r in RequiredDocs :: r.priority == Critical
  {
  }

  // ---------------------------------------------------------------------
  // Folders and detection
  // ---------------------------------------------------------------------

  /** An entry of a folder: a regular file, or anything else (a sub-folder). */
  datatype Entry = File(name: string, content: string) | Folder(name: string)

  /** The lower-cased names of the regular files, in listing order. */
  function FileNames(entries: seq<Entry>): (names: seq<string>)
    ensures |names| <= |entries|
    ensures forall n | n in names :: exists k | 0 <= k < |entries| :: entries[k].File? && Lower(entries[k].name) == n
    decreases |entries|
  {
    if entries == [] then []
    else (if entries[0].File? then [Lower(entries[0].name)] else []) + FileNames(entries[1..])
  }

  lemma {:induction false} FileNamesMembership(entries: seq<Entry>, n: string)
    ensures n in FileNames(entries) <==> exists k | 0 <= k < |entries| :: entries[k].File? && Lower(entries[k].name) == n
    decreases |entries|
  {
    if entries != [] {
      FileNamesMembership(entries[1..], n);
      if exists k | 0 <= k < |entries[1..]| :: entries[1..][k].File? && Lower(entries[1..][k].name) == n {
        var k :| 0 <= k < |entries[1..]| && entries[1..][k].File? && Lower(entries[1..][k].name) == n;
        assert entries[k + 1] == entries[1..][k];
      }
      if exists k | 0 <= k < |entries| :: entries[k].File? && Lower(entries[k].name) == n {
        var k :| 0 <= k < |entries| && entries[k].File? && Lower(entries[k].name) == n;
        if k > 0 {
          assert entries[1..][k - 1] == entries[k];
        }
      }
    }
  }

  /** Some file name matches some pattern of the entry. */
  predicate Present(req: RequiredDoc, files: seq<string>) {
    exists f, p | f in files && p in req.patterns :: Search(p, f)
  }

  /** The names of the catalog entries whose presence is `wanted`, in
      catalog order: `wanted = true` gives `detected`, `false` gives `missing`. */
  function Sieve(reqs: seq<RequiredDoc>, files: seq<string>, wanted: bool): (names: seq<string>)
    ensures |names| <= |reqs|
    ensures forall n | n in names :: exists i | 0 <= i < |reqs| :: reqs[i].name == n && Present(reqs[i], files) == wanted
    decreases |reqs|
  {
    if reqs == [] then []
    else
      var last := reqs[|reqs| - 1];
      Sieve(reqs[..|reqs| - 1], files, wanted) + (if Present(last, files) == wanted then [last.name] else [])
  }

  /** The `detected` list: names of entries some file matches. */
  function Detected(reqs: seq<RequiredDoc>, files: seq<string>): (names: seq<string>)
    ensures forall n | n in names :: exists i | 0 <= i < |reqs| :: reqs[i].name == n && Present(reqs[i], files)
  {
    Sieve(reqs, files, true)
  }

  /** The `missing` list: names of entries no file matches. */
  function Missing(reqs: seq<RequiredDoc>, files: seq<string>): (names: seq<string>)
    ensures forall n | n in names :: exists i | 0 <= i < |reqs| :: reqs[i].name == n && !Present(reqs[i], files)
  {
    Sieve(reqs, files, false)
  }

  /** `a` is `b` with some elements left out, order kept. */
  ghost predicate Subsequence<T>(a: seq<T>, b: seq<T>)
    decreases |b|
  {
    if a == [] then true
    else if b == [] then false
    else if a[|a| - 1] == b[|b| - 1] then Subsequence(a[..|a| - 1], b[..|b| - 1])
    else Subsequence(a, b[..|b| - 1])
  }

  /** Each catalog entry lands in exactly one of the two lists. */
  lemma {:induction false} SieveSplitsCatalog(reqs: seq<RequiredDoc>, files: seq<string>)
    requires DistinctNames(reqs)
    ensures |Detected(reqs, files)| + |Missing(reqs, files)| == |reqs|
    ensures forall i | 0 <= i < |reqs| ::
      (reqs[i].name in Detected(reqs, files) <==> Present(reqs[i], files)) &&
      (reqs[i].name in Missing(reqs, files) <==> !Present(reqs[i], files))
    decreases |reqs|
  {
    if reqs != [] {
      var init := reqs[..|reqs| - 1];
      var last := reqs[|reqs| - 1];
      assert DistinctNames(init);
      SieveSplitsCatalog(init, files);
      SieveNamesFrom(init, files, true);
      SieveNamesFrom(init, files, false);
      forall i | 0 <= i < |reqs|
        ensures reqs[i].name in Detected(reqs, files) <==> Present(reqs[i], files)
        ensures reqs[i].name in Missing(reqs, files) <==> !Present(reqs[i], files)
      {
        if i < |init| {
          assert init[i] == reqs[i];
          assert reqs[i].name != last.name;
        } else {
          assert last.name !in Names(init);
        }
      }
    }
  }

  /** Both lists keep catalog order. */
  lemma {:induction false} SieveKeepsOrder(reqs: seq<RequiredDoc>, files: seq<string>, wanted: bool)
    requires DistinctNames(reqs)
    ensures Subsequence(Sieve(reqs, files, wanted), Names(reqs))
    decreases |reqs|
  {
    if reqs != [] {
      var init := reqs[..|reqs| - 1];
      var last := reqs[|reqs| - 1];
      assert DistinctNames(init);
      SieveKeepsOrder(init, files, wanted);
      SieveNamesFrom(init, files, wanted);
      assert last.name !in Names(init);
      assert Names(reqs) == Names(init) + [last.name];
      SubsequenceGrow(Sieve(init, files, wanted), Names(init), last.name, Present(last, files) == wanted);
    }
  }

  /** The sieve only ever lists names of the catalog it was given. */
  lemma {:induction false} SieveNamesFrom(reqs: seq<RequiredDoc>, files: seq<string>, wanted: bool)
    ensures forall n | n in Sieve(reqs, files, wanted) :: n in Names(reqs)
    decreases |reqs|
  {
    if reqs != [] {
      var init := reqs[..|reqs| - 1];
      SieveNamesFrom(init, files, wanted);
      assert Names(reqs) == Names(init) + [reqs[|reqs| - 1].name];
    }
  }

  lemma SubsequenceGrow<T>(a: seq<T>, b: seq<T>, x: T, take: bool)
    requires Subsequence(a, b)
    requires !take ==> x !in a
    ensures Subsequence(a + (if take then [x] else []), b + [x])
  {
    assert (b + [x])[..|b|] == b;
    if take {
      assert (a + [x])[..|a|] == a;
    } else if a != [] {
      assert a[|a| - 1] != x;
      assert (b + [x])[|b|] == x;
      assert a + [] == a;
    }
  }

  /** Detection only depends on which names are listed, not on their order
      or repetition. */
  lemma {:induction false} SieveDependsOnNameSet(reqs: seq<RequiredDoc>, f1: seq<string>, f2: seq<string>, wanted: bool)
    requires forall n :: n in f1 <==> n in f2
    ensures Sieve(reqs, f1, wanted) == Sieve(reqs, f2, wanted)
    decreases |reqs|
  {
    if reqs != [] {
      SieveDependsOnNameSet(reqs[..|reqs| - 1], f1, f2, wanted);
      var last := reqs[|reqs| - 1];
      assert Present(last, f1) <==> Present(last, f2);
    }
  }

  /** The nested loop of `can_code` and `analyze_docs`: for each catalog
      entry, for each file, for each pattern, stop at the first match. */
  method ScanCatalog(files: seq<string>) returns (detected: seq<string>, missing: seq<string>)
    ensures detected == Detected(RequiredDocs, files)
    ensures missing == Missing(RequiredDocs, files)
  {
    detected, missing := [], [];
    var r := 0;
    while r < |RequiredDocs|
      invariant 0 <= r <= |RequiredDocs|
      invariant detected == Detected(RequiredDocs[..r], files)
      invariant missing == Missing(RequiredDocs[..r], files)
    {
      var req := RequiredDocs[r];
      assert RequiredDocs[..r + 1][..r] == RequiredDocs[..r];
      assert RequiredDocs[..r + 1][r] == req;
      var found := false;
      var f := 0;
      while f < |files|
        invariant 0 <= f <= |files|
        invariant !found
        invariant detected == Detected(RequiredDocs[..r], files)
        invariant forall i, p | 0 <= i < f && p in req.patterns :: !Search(p, files[i])
      {
        var k := 0;
        while k < |req.patterns|
          invariant 0 <= k <= |req.patterns|
          invariant !found
          invariant detected == Detected(RequiredDocs[..r], files)
          invariant forall j | 0 <= j < k :: !Search(req.patterns[j], files[f])
        {
          if Search(req.patterns[k], files[f]) {
            detected := detected + [req.name];
            found := true;
            break;
          }
          k := k + 1;
        }
        if found {
          break;
        }
        f := f + 1;
      }
      if !found {
        missing := missing + [req.name];
      }
      r := r + 1;
    }
    assert RequiredDocs[..|RequiredDocs|] == RequiredDocs;
  }

  // ---------------------------------------------------------------------
  // can_code
  // ---------------------------------------------------------------------

  datatype Blocker = NoDocsFolder | DocsMissing(detected: seq<string>, missing: seq<string>)

  datatype GateVerdict = Blocked(reason: Blocker) | Allowed(detected: seq<string>)

  /** Whether code may be written against the docs folder `docs`. */
  function CanCode(docs: Option<seq<Entry>>): (v: GateVerdict)
    ensures docs.None? ==> v == Blocked(NoDocsFolder)
    ensures docs.Some? ==>
      (v.Allowed? <==> forall r | r in RequiredDocs :: Present(r, FileNames(docs.value)))
    ensures v.Allowed? ==> v.detected == CatalogNames
    ensures v.Blocked? && docs.Some? ==>
      && v.reason.DocsMissing?
      && v.reason.missing != []
      && |v.reason.detected| + |v.reason.missing| == |RequiredDocs|
    ensures docs.Some? && v.Blocked? ==>
      v.reason == DocsMissing(Detected(RequiredDocs, FileNames(docs.value)), Missing(RequiredDocs, FileNames(docs.value)))
    ensures docs.Some? && v.Allowed? ==> v.detected == Detected(RequiredDocs, FileNames(docs.value))
  {
    match docs
    case None => Blocked(NoDocsFolder)
    case Some(entries) =>
      var files := FileNames(entries);
      var detected := Detected(RequiredDocs, files);
      var missing := Missing(RequiredDocs, files);
      CatalogFacts();
      SieveSplitsCatalog(RequiredDocs, files);
      AllPresentNothingMissing(files);
      if missing != [] then Blocked(DocsMissing(detected, missing)) else Allowed(detected)
  }

  /** Nothing is missing exactly when every entry is present, and then the
      detected list is the whole catalog. */
  lemma AllPresentNothingMissing(files: seq<string>)
    ensures Missing(RequiredDocs, files) == [] <==> forall r | r in RequiredDocs :: Present(r, files)
    ensures Missing(RequiredDocs, files) == [] ==> Detected(RequiredDocs, files) == CatalogNames
  {
    NothingMissingIffAllPresent(files);
    if Missing(RequiredDocs, files) == [] {
      SieveAllPresent(RequiredDocs, files);
      CatalogFacts();
    }
  }

  lemma NothingMissingIffAllPresent(files: seq<string>)
    ensures Missing(RequiredDocs, files) == [] <==> forall r | r in RequiredDocs :: Present(r, files)
  {
    if Missing(RequiredDocs, files) == [] {
      CatalogFacts();
      SieveSplitsCatalog(RequiredDocs, files);
      forall r | r in RequiredDocs
        ensures Present(r, files)
      {
        var i :| 0 <= i < |RequiredDocs| && RequiredDocs[i] == r;
      }
    } else {
      assert Missing(RequiredDocs, files)[0] in Missing(RequiredDocs, files);
    }
  }

  lemma {:induction false} SieveAllPresent(reqs: seq<RequiredDoc>, files: seq<string>)
    requires forall r | r in reqs :: Present(r, files)
    ensures Detected(reqs, files) == Names(reqs)
    decreases |reqs|
  {
    if reqs != [] {
      var init := reqs[..|reqs| - 1];
      assert forall r | r in init :: r in reqs;
      SieveAllPresent(init, files);
      assert Names(reqs) == Names(init) + [reqs[|reqs| - 1].name];
    }
  }

  /** An entry is detected iff some lower-cased regular-file name matches,
      in the regex sense, some pattern of that entry. */
  lemma DetectedIffSomeFileMatches(entries: seq<Entry>, i: nat)
    requires i < |RequiredDocs|
    ensures RequiredDocs[i].name in Detected(RequiredDocs, FileNames(entries)) <==>
      exists f, p | f in FileNames(entries) && p in RequiredDocs[i].patterns :: Occurs(p, f)
  {
    var files := FileNames(entries);
    CatalogFacts();
    SieveSplitsCatalog(RequiredDocs, files);
    forall f, p | f in files && p in RequiredDocs[i].patterns
      ensures Search(p, f) <==> Occurs(p, f)
    {
      SearchIsRegexSearch(p, f);
    }
  }

  /** The decision depends only on the set of lower-cased regular-file
      names: not on listing order, letter case, sub-folders or repeats. */
  lemma GateDependsOnNameSet(d1: seq<Entry>, d2: seq<Entry>)
    requires forall n :: n in FileNames(d1) <==> n in FileNames(d2)
    ensures CanCode(Some(d1)) == CanCode(Some(d2))
    ensures AnalyzeDocs(Some(d1)) == AnalyzeDocs(Some(d2))
  {
    SieveDependsOnNameSet(RequiredDocs, FileNames(d1), FileNames(d2), true);
    SieveDependsOnNameSet(RequiredDocs, FileNames(d1), FileNames(d2), false);
  }

  /** Renaming files by changing letter case, or listing them in another
      order, leaves the decision unchanged. */
  lemma GateIgnoresOrderAndCase(d1: seq<Entry>, d2: seq<Entry>)
    requires forall e1 | e1 in d1 && e1.File? :: exists e2 | e2 in d2 :: e2.File? && Lower(e2.name) == Lower(e1.name)
    requires forall e2 | e2 in d2 && e2.File? :: exists e1 | e1 in d1 :: e1.File? && Lower(e1.name) == Lower(e2.name)
    ensures CanCode(Some(d1)) == CanCode(Some(d2))
  {
    SameFileNames(d1, d2);
    GateDependsOnNameSet(d1, d2);
  }

  lemma SameFileNames(d1: seq<Entry>, d2: seq<Entry>)
    requires forall e1 | e1 in d1 && e1.File? :: exists e2 | e2 in d2 :: e2.File? && Lower(e2.name) == Lower(e1.name)
    requires forall e2 | e2 in d2 && e2.File? :: exists e1 | e1 in d1 :: e1.File? && Lower(e1.name) == Lower(e2.name)
    ensures forall n :: n in FileNames(d1) <==> n in FileNames(d2)
  {
    forall n
      ensures n in FileNames(d1) <==> n in FileNames(d2)
    {
      FileNamesMembership(d1, n);
      FileNamesMembership(d2, n);
    }
  }

  // ---------------------------------------------------------------------
  // analyze_docs
  // ---------------------------------------------------------------------

  /** A fraction kept as numerator and denominator. */
  datatype Ratio = Ratio(num: nat, den: nat)

  datatype Analysis = Analysis(detected: seq<string>, missing: seq<string>, coverage: Ratio)

  function CriticalTotal(reqs: seq<RequiredDoc>): nat
    decreases |reqs|
  {
    if reqs == [] then 0
    else CriticalTotal(reqs[..|reqs| - 1]) + (if reqs[|reqs| - 1].priority == Critical then 1 else 0)
  }

  function CriticalFound(reqs: seq<RequiredDoc>, detected: seq<string>): nat
    decreases |reqs|
  {
    if reqs == [] then 0
    else
      var last := reqs[|reqs| - 1];
      CriticalFound(reqs[..|reqs| - 1], detected) + (if last.priority == Critical && last.name in detected then 1 else 0)
  }

  /** `critical_found / critical_total`, or 1 when nothing is critical: a
      proper fraction, and a whole one when every critical entry is detected. */
  function Coverage(reqs: seq<RequiredDoc>, detected: seq<string>): (r: Ratio)
    ensures 0 < r.den && r.num <= r.den
    ensures (forall q | q in reqs && q.priority == Critical :: q.name in detected) ==> r.num == r.den
  {
    FoundAtMostTotal(reqs, detected);
    var total := CriticalTotal(reqs);
    if total > 0 then Ratio(CriticalFound(reqs, detected), total) else Ratio(1, 1)
  }

  /** No more critical entries are found than there are; all of them when
      every critical name is detected. */
  lemma {:induction false} FoundAtMostTotal(reqs: seq<RequiredDoc>, detected: seq<string>)
    ensures CriticalFound(reqs, detected) <= CriticalTotal(reqs)
    ensures (forall q | q in reqs && q.priority == Critical :: q.name in detected) ==>
      CriticalFound(reqs, detected) == CriticalTotal(reqs)
    decreases |reqs|
  {
    if reqs != [] {
      assert forall q | q in reqs[..|reqs| - 1] :: q in reqs;
      assert reqs[|reqs| - 1] in reqs;
      FoundAtMostTotal(reqs[..|reqs| - 1], detected);
    }
  }

  /** The report of `analyze_docs`; `None` when the path does not exist. */
  function AnalyzeDocs(docs: Option<seq<Entry>>): (r: Option<Analysis>)
    ensures r.Some? <==> docs.Some?
    ensures docs.Some? ==>
      var files := FileNames(docs.value);
      && r.value.detected == Detected(RequiredDocs, files)
      && r.value.missing == Missing(RequiredDocs, files)
      && r.value.coverage == Coverage(RequiredDocs, r.value.detected)
  {
    match docs
    case None => None
    case Some(entries) =>
      var files := FileNames(entries);
      var detected := Detected(RequiredDocs, files);
      Some(Analysis(detected, Missing(RequiredDocs, files), Coverage(RequiredDocs, detected)))
  }

  /** `analyze_docs` and `can_code` see the same detected and missing lists. */
  lemma AnalyzeAgreesWithCanCode(entries: seq<Entry>)
    ensures
      var a := AnalyzeDocs(Some(entries)).value;
      match CanCode(Some(entries))
      case Allowed(detected) => a.detected == detected && a.missing == []
      case Blocked(DocsMissing(detected, missing)) => a.detected == detected && a.missing == missing
      case Blocked(NoDocsFolder) => false
  {
  }

  /** Coverage is found/total with found == |detected| <= total == 5, and it
      is full exactly when nothing is missing. */
  lemma CoverageBounds(entries: seq<Entry>)
    ensures
      var a := AnalyzeDocs(Some(entries)).value;
      && a.coverage.den == |RequiredDocs| == 5
      && a.coverage.num == |a.detected| <= a.coverage.den
      && (a.coverage.num == a.coverage.den <==> a.missing == [])
  {
    var files := FileNames(entries);
    CatalogFacts();
    SieveSplitsCatalog(RequiredDocs, files);
    AllCriticalTotal(RequiredDocs);
    FoundCountsDetected(RequiredDocs, files);
  }

  lemma {:induction false} AllCriticalTotal(reqs: seq<RequiredDoc>)
    requires forall r | r in reqs :: r.priority == Critical
    ensures CriticalTotal(reqs) == |reqs|
    decreases |reqs|
  {
    if reqs != [] {
      assert forall r | r in reqs[..|reqs| - 1] :: r in reqs;
      AllCriticalTotal(reqs[..|reqs| - 1]);
    }
  }

  /** With distinct names, all critical, the found count is the number of
      detected entries. */
  lemma {:induction false} FoundCountsDetected(reqs: seq<RequiredDoc>, files: seq<string>)
    requires DistinctNames(reqs)
    requires forall r | r in reqs :: r.priority == Critical
    ensures CriticalFound(reqs, Detected(reqs, files)) == |Detected(reqs, files)|
    decreases |reqs|
  {
    if reqs != [] {
      var init := reqs[..|reqs| - 1];
      var last := reqs[|reqs| - 1];
      assert DistinctNames(init);
      assert forall r | r in init :: r in reqs;
      FoundCountsDetected(init, files);
      SieveNamesFrom(init, files, true);
      assert forall n | n in Names(init) :: n != last.name;
      FoundAgrees(init, Detected(init, files), Detected(reqs, files));
    }
  }

  lemma {:induction false} FoundAgrees(reqs: seq<RequiredDoc>, d1: seq<string>, d2: seq<string>)
    requires forall r | r in reqs :: (r.name in d1 <==> r.name in d2)
    ensures CriticalFound(reqs, d1) == CriticalFound(reqs, d2)
    decreases |reqs|
  {
    if reqs != [] {
      assert forall r | r in reqs[..|reqs| - 1] :: r in reqs;
      FoundAgrees(reqs[..|reqs| - 1], d1, d2);
    }
  }

  // ---------------------------------------------------------------------
  // init_docs
  // ---------------------------------------------------------------------

  datatype Template = Template(name: string, content: string)

  /** The five templates `init_docs` writes, in the order it writes them,
      each opening with a title line that names the project. */
  function DocTemplates(project: string, today: string): (ts: seq<Template>)
    ensures |ts| == 5
    ensures forall k | 0 <= k < 5 :: ts[k].name == TemplateNames[k] && "# " + project + " " <= ts[k].content
  {
    [ Template("PRD.md", "# " + project + " PRD\n\n> 작성일: " + today + "\n\n## 한 줄 요약\n\n[작성 필요]\n"),
      Template("ARCHITECTURE.md", "# " + project + " 아키텍처\n\n## 시스템 구조\n\n[작성 필요]\n"),
      Template("API.md", "# " + project + " API 스펙\n\n## 엔드포인트\n\n[작성 필요]\n"),
      Template("DATABASE.md", "# " + project + " DB 스키마\n\n## 테이블\n\n[작성 필요]\n"),
      Template("VERIFICATION.md", "# " + project + " 검증 계획\n\n## 테스트 케이스\n\n[작성 필요]\n") ]
  }

  const TemplateNames: seq<string> := ["PRD.md", "ARCHITECTURE.md", "API.md", "DATABASE.md", "VERIFICATION.md"]

  /** `Path.exists()`: any entry, file or folder, carries the name. */
  predicate EntryExists(entries: seq<Entry>, name: string) {
    exists k | 0 <= k < |entries| :: entries[k].name == name
  }

  datatype InitOutcome = InitOutcome(entries: seq<Entry>, created: seq<string>)

  /** Write each template whose name is not taken yet, in order; existing
      entries are kept as they are, new files go after them. */
  function CreateAbsent(entries: seq<Entry>, templates: seq<Template>): (r: InitOutcome)
    ensures entries <= r.entries
    ensures |r.entries| == |entries| + |r.created|
    decreases |templates|
  {
    if templates == [] then InitOutcome(entries, [])
    else
      var t := templates[0];
      if EntryExists(entries, t.name) then CreateAbsent(entries, templates[1..])
      else
        var rest := CreateAbsent(entries + [File(t.name, t.content)], templates[1..]);
        assert rest.entries[..|entries|] == (entries + [File(t.name, t.content)])[..|entries|];
        InitOutcome(rest.entries, [t.name] + rest.created)
  }

  /** What `CreateAbsent` writes: after it every template name exists; a
      name is created exactly when it was absent before; and each added entry
      is a regular file holding its template. */
  lemma CreateAbsentSpec(entries: seq<Entry>, templates: seq<Template>)
    ensures var r := CreateAbsent(entries, templates);
      && (forall t | t in templates :: EntryExists(r.entries, t.name))
      && (forall t | t in templates :: (t.name in r.created <==> !EntryExists(entries, t.name)))
      && AddsFiles(entries, r, templates)
  {
    CreateAbsentCovers(entries, templates);
    CreateAbsentExact(entries, templates);
    CreateAbsentAdds(entries, templates);
  }

  lemma {:induction false} CreateAbsentCovers(entries: seq<Entry>, templates: seq<Template>)
    ensures forall t | t in templates :: EntryExists(CreateAbsent(entries, templates).entries, t.name)
    decreases |templates|
  {
    if templates != [] {
      var t := templates[0];
      var tail := templates[1..];
      var r := CreateAbsent(entries, templates);
      assert forall u | u in templates :: u == t || u in tail;
      if EntryExists(entries, t.name) {
        CreateAbsentCovers(entries, tail);
        ExistsKept(entries, r.entries, t.name);
      } else {
        var grown := entries + [File(t.name, t.content)];
        CreateAbsentCovers(grown, tail);
        ExistsAfterAppend(entries, File(t.name, t.content));
        ExistsKept(grown, r.entries, t.name);
      }
    }
  }

  /** Only names that were absent get created. */
  lemma {:induction false} CreatedWereAbsent(entries: seq<Entry>, templates: seq<Template>)
    ensures forall n | n in CreateAbsent(entries, templates).created :: !EntryExists(entries, n)
    decreases |templates|
  {
    if templates != [] {
      var t := templates[0];
      var tail := templates[1..];
      if EntryExists(entries, t.name) {
        assert CreateAbsent(entries, templates) == CreateAbsent(entries, tail);
        CreatedWereAbsent(entries, tail);
      } else {
        var grown := entries + [File(t.name, t.content)];
        CreatedWereAbsent(grown, tail);
        ExistsAfterAppend(entries, File(t.name, t.content));
      }
    }
  }

  lemma {:induction false} CreateAbsentExact(entries: seq<Entry>, templates: seq<Template>)
    ensures forall t | t in templates ::
      (t.name in CreateAbsent(entries, templates).created <==> !EntryExists(entries, t.name))
    decreases |templates|
  {
    if templates != [] {
      var t := templates[0];
      var tail := templates[1..];
      assert forall u | u in templates :: u == t || u in tail;
      if EntryExists(entries, t.name) {
        assert CreateAbsent(entries, templates) == CreateAbsent(entries, tail);
        CreateAbsentExact(entries, tail);
        CreatedWereAbsent(entries, tail);
      } else {
        var grown := entries + [File(t.name, t.content)];
        CreateAbsentExact(grown, tail);
        ExistsAfterAppend(entries, File(t.name, t.content));
      }
    }
  }

  /** The entries past `base` are regular files, one per created name, each
      holding the template of that name. */
  predicate AddsFiles(base: seq<Entry>, r: InitOutcome, templates: seq<Template>) {
    && |r.entries| == |base| + |r.created|
    && forall j | |base| <= j < |r.entries| ::
         r.entries[j].File? && r.entries[j].name == r.created[j - |base|] &&
         Template(r.entries[j].name, r.entries[j].content) in templates
  }

  lemma {:induction false} CreateAbsentAdds(entries: seq<Entry>, templates: seq<Template>)
    ensures AddsFiles(entries, CreateAbsent(entries, templates), templates)
    decreases |templates|
  {
    if templates != [] {
      var t := templates[0];
      var tail := templates[1..];
      var r := CreateAbsent(entries, templates);
      assert forall u | u in tail :: u in templates;
      if EntryExists(entries, t.name) {
        assert r == CreateAbsent(entries, tail);
        CreateAbsentAdds(entries, tail);
      } else {
        var grown := entries + [File(t.name, t.content)];
        var rest := CreateAbsent(grown, tail);
        CreateAbsentAdds(grown, tail);
        assert r == InitOutcome(rest.entries, [t.name] + rest.created);
        assert r.entries[|entries|] == grown[|entries|];
      }
    }
  }

  /** Names that exist stay existing when entries are only added. */
  lemma ExistsKept(a: seq<Entry>, b: seq<Entry>, n: string)
    requires a <= b
    ensures EntryExists(a, n) ==> EntryExists(b, n)
  {
    if EntryExists(a, n) {
      var k :| 0 <= k < |a| && a[k].name == n;
      assert b[k] == a[k];
    }
  }

  lemma ExistsAfterAppend(entries: seq<Entry>, e: Entry)
    ensures forall n :: EntryExists(entries + [e], n) <==> EntryExists(entries, n) || n == e.name
  {
    forall n | EntryExists(entries, n)
      ensures EntryExists(entries + [e], n)
    {
      var k :| 0 <= k < |entries| && entries[k].name == n;
      assert (entries + [e])[k] == entries[k];
    }
    assert (entries + [e])[|entries|] == e;
  }

  /** `init_docs`: create the docs folder if needed, then the absent
      templates. What was there stays; afterwards every template name exists,
      and a template is reported created exactly when its name was free. */
  function InitDocs(docs: Option<seq<Entry>>, project: string, today: string): (o: InitOutcome)
    ensures docs.GetOr([]) <= o.entries
    ensures forall k | 0 <= k < 5 :: EntryExists(o.entries, TemplateNames[k])
    ensures forall k | 0 <= k < 5 :: (TemplateNames[k] in o.created <==> !EntryExists(docs.GetOr([]), TemplateNames[k]))
  {
    var ts := DocTemplates(project, today);
    CreateAbsentSpec(docs.GetOr([]), ts);
    assert forall k | 0 <= k < 5 :: ts[k] in ts;
    CreateAbsent(docs.GetOr([]), ts)
  }

  /** Running the template pass again creates nothing and changes nothing. */
  lemma CreateAbsentIdempotent(entries: seq<Entry>, templates: seq<Template>)
    ensures var first := CreateAbsent(entries, templates);
      CreateAbsent(first.entries, templates) == InitOutcome(first.entries, [])
  {
    var first := CreateAbsent(entries, templates);
    var second := CreateAbsent(first.entries, templates);
    CreateAbsentCovers(entries, templates);
    CoveredCreatesNothing(first.entries, templates);
    assert second.entries[..|first.entries|] == first.entries;
  }

  /** When every template name is taken, nothing is written. */
  lemma {:induction false} CoveredCreatesNothing(entries: seq<Entry>, templates: seq<Template>)
    requires forall t | t in templates :: EntryExists(entries, t.name)
    ensures CreateAbsent(entries, templates).created == []
    decreases |templates|
  {
    if templates != [] {
      assert templates[0] in templates;
      assert forall u | u in templates[1..] :: u in templates;
      CoveredCreatesNothing(entries, templates[1..]);
    }
  }

  /** A second `init_docs` creates nothing and leaves the folder as it is. */
  lemma InitDocsIdempotent(docs: Option<seq<Entry>>, project: string, today: string)
    ensures
      var first := InitDocs(docs, project, today);
      InitDocs(Some(first.entries), project, today) == InitOutcome(first.entries, [])
  {
    CreateAbsentIdempotent(docs.GetOr([]), DocTemplates(project, today));
  }

  /** After `init_docs` every catalog entry is satisfied, so `can_code`
      allows, unless a sub-folder already holds one of the template names. */
  lemma InitDocsThenAllowed(docs: Option<seq<Entry>>, project: string, today: string)
    requires forall e | e in docs.GetOr([]) && e.Folder? :: e.name !in TemplateNames
    ensures CanCode(Some(InitDocs(docs, project, today).entries)).Allowed?
  {
    var out := InitDocs(docs, project, today);
    TemplateFilesAfterInit(docs, project, today);
    TemplateLowerNames();
    TemplateNamesSatisfyCatalog(FileNames(out.entries));
  }

  /** Every template name is a regular file once `init_docs` has run. */
  lemma TemplateFilesAfterInit(docs: Option<seq<Entry>>, project: string, today: string)
    requires forall e | e in docs.GetOr([]) && e.Folder? :: e.name !in TemplateNames
    ensures forall k | 0 <= k < 5 :: Lower(TemplateNames[k]) in FileNames(InitDocs(docs, project, today).entries)
  {
    var before := docs.GetOr([]);
    var ts := DocTemplates(project, today);
    var out := CreateAbsent(before, ts);
    CreateAbsentSpec(before, ts);
    forall k | 0 <= k < 5
      ensures Lower(TemplateNames[k]) in FileNames(out.entries)
    {
      assert ts[k] in ts;
      var j :| 0 <= j < |out.entries| && out.entries[j].name == ts[k].name;
      if j < |before| {
        assert out.entries[j] == before[j] && before[j] in before;
      }
      FileNamesMembership(out.entries, Lower(TemplateNames[k]));
    }
  }

  /** The lower-cased template names satisfy all five catalog entries. */
  lemma TemplateNamesSatisfyCatalog(files: seq<string>)
    requires "prd.md" in files && "architecture.md" in files && "api.md" in files
    requires "database.md" in files && "verification.md" in files
    ensures forall r | r in RequiredDocs :: Present(r, files)
  {
    assert MatchesAt(Literal("prd"), "prd.md", 0);
    assert Search(RequiredDocs[0].patterns[0], "prd.md");
    assert MatchesAt(Literal("architect"), "architecture.md", 0);
    assert Search(RequiredDocs[1].patterns[0], "architecture.md");
    assert MatchesAt(Literal("api"), "api.md", 0);
    assert Search(RequiredDocs[2].patterns[0], "api.md");
    assert MatchesAt(Literal("database"), "database.md", 0);
    assert Search(RequiredDocs[3].patterns[1], "database.md");
    assert MatchesAt(Literal("verif"), "verification.md", 0);
    assert Search(RequiredDocs[4].patterns[0], "verification.md");
  }

  lemma TemplateLowerNames()
    ensures Lower(TemplateNames[0]) == "prd.md"
    ensures Lower(TemplateNames[1]) == "architecture.md"
    ensures Lower(TemplateNames[2]) == "api.md"
    ensures Lower(TemplateNames[3]) == "database.md"
    ensures Lower(TemplateNames[4]) == "verification.md"
  {
  }
}
