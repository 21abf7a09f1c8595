/**
 The planning store of `src/clouvel/tools/planning.py`: three markdown files
 under `.claude/planning/` (`task_plan.md`, `findings.md`, `progress.md`),
 written from structured arguments and read back line by line.

 A file is an `Option<string>` (`None` when it does not exist) and a
 rendered document is the `'\n'`-join of its lines, exactly as the source's
 f-strings lay it out. The clock is a parameter `now`, the already
 formatted `%Y-%m-%d %H:%M` stamp. An optional string argument that Python
 tests for truth (`None` or `""`) is the empty string here.
 */
module Planning {
  import opened Wrappers
  import opened Text

  // ---------------------------------------------------------------------
  // Reading a section back
  // ---------------------------------------------------------------------

  /** The two sections the tools read back. */
  datatype Section = Goals | Completed

  /** The text whose presence in a line opens the section. */
  function Heading(sec: Section): string {
    match sec
    case Goals => "## 목표"
    case Completed => "## 완료"
  }

  /** The placeholder of an empty Completed section. */
  const NoneYet: string := "*(아직 없음)*"

  /** The item a bullet line yields, given the line already stripped. Goals
      keep the whole stripped line; Completed drops the `- ` and skips empty
      items and the placeholder. */
  function Pick(sec: Section, stripped: string): Option<string>
    requires "- " <= stripped
  {
    match sec
    case Goals => Some(stripped)
    case Completed =>
      var item := stripped[2..];
      if item != "" && item != NoneYet then Some(item) else None
  }

  /** What a line means to the line loop: it holds the heading, it is
      another `## ` line, it is a bullet (with the item it would add, if
      any), or it is anything else. */
  datatype Kind = Opens | Closes | Bullet(item: Option<string>) | Plain

  /** The tests of the loop body, in the source's `if/elif` order. */
  function Classify(sec: Section, line: string): Kind {
    if Contains(line, Heading(sec)) then Opens
    else if "## " <= line then Closes
    else if "- " <= Strip(line) then Bullet(Pick(sec, Strip(line)))
    else Plain
  }

  function Kinds(sec: Section, lines: seq<string>): (ks: seq<Kind>)
    ensures |ks| == |lines|
    ensures forall i | 0 <= i < |lines| :: ks[i] == Classify(sec, lines[i])
  {
    seq(|lines|, i requires 0 <= i < |lines| => Classify(sec, lines[i]))
  }

  /** The state of the line loop: inside the section or not, and the items so far. */
  datatype Scan = Scan(inside: bool, items: seq<string>)

  /** One iteration of the line loop; a bullet counts only inside the section. */
  function Step(st: Scan, kind: Kind): Scan {
    match kind
    case Opens => Scan(true, st.items)
    case Closes => Scan(false, st.items)
    case Bullet(Some(item)) => if st.inside then Scan(true, st.items + [item]) else st
    case _ => st
  }

  /** The line loop, starting from `st`. */
  function ScanKinds(st: Scan, kinds: seq<Kind>): Scan
    decreases |kinds|
  {
    if kinds == [] then st else ScanKinds(Step(st, kinds[0]), kinds[1..])
  }

  /** The items of a section of a whole file. */
  function ParseSection(sec: Section, text: string): seq<string> {
    ScanKinds(Scan(false, []), Kinds(sec, Split(text, '\n'))).items
  }

  /** The loop the tools run over the lines of a file; it collects the same
      list as `ParseSection`. */
  method ExtractSection(sec: Section, text: string) returns (items: seq<string>)
    ensures items == ParseSection(sec, text)
  {
    var lines := Split(text, '\n');
    ghost var kinds := Kinds(sec, lines);
    var inside := false;
    items := [];
    var k := 0;
    while k < |lines|
      invariant 0 <= k <= |lines|
      invariant ScanKinds(Scan(inside, items), kinds[k..]) == ScanKinds(Scan(false, []), kinds)
    {
      var line := lines[k];
      ghost var before := Scan(inside, items);
      assert kinds[k..][0] == kinds[k] == Classify(sec, line) && kinds[k..][1..] == kinds[k + 1..];
      if Contains(line, Heading(sec)) {
        inside := true;
      } else if "## " <= line {
        inside := false;
      } else if inside && "- " <= Strip(line) {
        var stripped := Strip(line);
        assert kinds[k] == Bullet(Pick(sec, stripped));
        match sec {
          case Goals =>
            items := items + [stripped];
          case Completed =>
            var item := stripped[2..];
            if item != "" && item != NoneYet {
              items := items + [item];
            }
        }
      }
      assert Scan(inside, items) == Step(before, kinds[k]);
      k := k + 1;
    }
  }

  /** Scanning a concatenation is scanning the second part from where the
      first part left off. */
  lemma {:induction false} ScanAppend(st: Scan, a: seq<Kind>, b: seq<Kind>)
    ensures ScanKinds(st, a + b) == ScanKinds(ScanKinds(st, a), b)
    decreases |a|
  {
    if a != [] {
      assert (a + b)[0] == a[0];
      assert (a + b)[1..] == a[1..] + b;
      ScanAppend(Step(st, a[0]), a[1..], b);
    } else {
      assert a + b == b;
    }
  }

  /** A kind that never changes the state. */
  predicate Quiet(k: Kind) {
    k == Plain || k == Bullet(None)
  }

  /** Quiet lines leave the scan as it is. */
  lemma {:induction false} ScanQuiet(st: Scan, kinds: seq<Kind>)
    requires forall i | 0 <= i < |kinds| :: Quiet(kinds[i])
    ensures ScanKinds(st, kinds) == st
    decreases |kinds|
  {
    if kinds != [] {
      ScanQuiet(st, kinds[1..]);
    }
  }

  /** Outside the section, lines without the heading collect nothing and
      never enter it. */
  lemma {:induction false} ScanDormant(items: seq<string>, kinds: seq<Kind>)
    requires forall i | 0 <= i < |kinds| :: kinds[i] != Opens
    ensures ScanKinds(Scan(false, items), kinds) == Scan(false, items)
    decreases |kinds|
  {
    if kinds != [] {
      ScanDormant(items, kinds[1..]);
    }
  }

  /** Outside the section, any one line followed by quiet lines leaves the
      items as they are; a closing line after them leaves the section too,
      and a heading line after them enters it. */
  lemma Guarded(items: seq<string>, x: Kind, quiet: seq<Kind>)
    requires forall i | 0 <= i < |quiet| :: Quiet(quiet[i])
    ensures ScanKinds(Scan(false, items), [x] + quiet).items == items
    ensures ScanKinds(Scan(false, items), [x] + quiet + [Closes]) == Scan(false, items)
    ensures ScanKinds(Scan(false, items), [x] + quiet + [Opens]) == Scan(true, items)
  {
    var st := Step(Scan(false, items), x);
    ScanAppend(Scan(false, items), [x], quiet);
    ScanQuiet(st, quiet);
    ScanAppend(Scan(false, items), [x] + quiet, [Closes]);
    ScanAppend(Scan(false, items), [x] + quiet, [Opens]);
  }

  /** Inside the section, quiet lines and a closing line leave it, and the
      rest, free of the heading, collects nothing. */
  lemma CloseAndRest(st: Scan, quiet: seq<Kind>, rest: seq<Kind>)
    requires forall i | 0 <= i < |quiet| :: Quiet(quiet[i])
    requires forall i | 0 <= i < |rest| :: rest[i] != Opens
    ensures ScanKinds(st, quiet + [Closes] + rest) == Scan(false, st.items)
  {
    ScanQuiet(st, quiet);
    ScanAppend(st, quiet, [Closes]);
    ScanAppend(st, quiet + [Closes], rest);
    ScanDormant(st.items, rest);
  }

  /** Inside the section, bullet lines each add their item, in order. */
  lemma {:induction false} ScanBullets(items: seq<string>, kinds: seq<Kind>, picked: seq<string>)
    requires |kinds| == |picked|
    requires forall i | 0 <= i < |kinds| :: kinds[i] == Bullet(Some(picked[i]))
    ensures ScanKinds(Scan(true, items), kinds) == Scan(true, items + picked)
    decreases |kinds|
  {
    if kinds == [] {
      assert items + picked == items;
    } else {
      ScanBullets(items + [picked[0]], kinds[1..], picked[1..]);
      assert items + [picked[0]] + picked[1..] == items + picked;
    }
  }

  lemma KindsAppend(sec: Section, a: seq<string>, b: seq<string>)
    ensures Kinds(sec, a + b) == Kinds(sec, a) + Kinds(sec, b)
  {
  }

  /** A line's kind is its classification, line by line. */
  lemma KindsOfOne(sec: Section, a: string)
    ensures Kinds(sec, [a]) == [Classify(sec, a)]
  {
    assert Kinds(sec, [a])[0] == Classify(sec, a);
  }

  lemma KindsOfFour(sec: Section, a: string, b: string, c: string, d: string)
    ensures Kinds(sec, [a, b, c, d])
      == [Classify(sec, a), Classify(sec, b), Classify(sec, c), Classify(sec, d)]
  {
    KindsOfOne(sec, a);
    KindsOfOne(sec, b);
    KindsOfOne(sec, c);
    KindsOfOne(sec, d);
    KindsAppend(sec, [a], [b]);
    KindsAppend(sec, [a, b], [c]);
    KindsAppend(sec, [a, b, c], [d]);
  }

  lemma KindsOfSix(sec: Section, a: string, b: string, c: string, d: string, e: string, f: string)
    ensures Kinds(sec, [a, b, c, d, e, f])
      == [Classify(sec, a), Classify(sec, b), Classify(sec, c),
          Classify(sec, d), Classify(sec, e), Classify(sec, f)]
  {
    KindsOfFour(sec, a, b, c, d);
    KindsOfOne(sec, e);
    KindsOfOne(sec, f);
    KindsAppend(sec, [a, b, c, d], [e]);
    KindsAppend(sec, [a, b, c, d, e], [f]);
  }

  lemma KindsOfSeven(sec: Section, a: string, b: string, c: string, d: string, e: string, f: string,
                     g: string)
    ensures Kinds(sec, [a, b, c, d, e, f, g])
      == [Classify(sec, a), Classify(sec, b), Classify(sec, c),
          Classify(sec, d), Classify(sec, e), Classify(sec, f), Classify(sec, g)]
  {
    KindsOfSix(sec, a, b, c, d, e, f);
    KindsOfOne(sec, g);
    KindsAppend(sec, [a, b, c, d, e, f], [g]);
  }

  // Classifying the lines the files are laid out with

  /** Blank and rule lines are plain. */
  lemma FillerPlain(sec: Section)
    ensures Classify(sec, "") == Plain && Classify(sec, "---") == Plain
  {
    MissingCharExcludes("", Heading(sec), '#');
    MissingCharExcludes("---", Heading(sec), '#');
    StripKeeps("--", "-");
    assert "--" + "-" == "---";
    var t := Strip("---");
    assert t[1] == '-';
  }

  /** A line that starts with neither a space nor a dash, is no `## ` line
      and lacks a character of the heading, is plain. */
  lemma PlainLine(sec: Section, line: string, c: char)
    requires line != [] && !IsSpace(line[0]) && line[0] != '-' && !("## " <= line)
    requires c in Heading(sec) && c !in line
    ensures Classify(sec, line) == Plain
  {
    MissingCharExcludes(line, Heading(sec), c);
    assert !IsSpace([line[0]][0]);
    StripKeepsLead([line[0]], line[1..]);
    assert [line[0]] + line[1..] == line;
  }

  /** A line that lacks a character of the heading never opens the section. */
  lemma NeverOpens(sec: Section, line: string, c: char)
    requires c in Heading(sec) && c !in line
    ensures Classify(sec, line) != Opens
  {
    MissingCharExcludes(line, Heading(sec), c);
  }

  /** A `## ` line that lacks a character of the heading closes the section. */
  lemma CloserLine(sec: Section, line: string, c: char)
    requires "## " <= line
    requires c in Heading(sec) && c !in line
    ensures Classify(sec, line) == Closes
  {
    MissingCharExcludes(line, Heading(sec), c);
  }

  /** A line that starts with the heading opens the section. */
  lemma HeadingLine(sec: Section, rest: string)
    ensures Classify(sec, Heading(sec) + rest) == Opens
  {
    assert Heading(sec) <= (Heading(sec) + rest)[0..];
  }

  /** A dash-led line whose text after the lead lacks the heading lacks it. */
  lemma LeadKeepsOut(sec: Section, lead: string, rest: string)
    requires '#' !in lead
    ensures Contains(lead + rest, Heading(sec)) ==> Contains(rest, Heading(sec))
  {
    ContainsPastLead(lead, rest, Heading(sec));
  }

  /** No line holds the character `c`. */
  predicate Lacks(lines: seq<string>, c: char) {
    forall k | 0 <= k < |lines| :: c !in lines[k]
  }

  lemma LacksAppend(a: seq<string>, b: seq<string>, c: char)
    requires Lacks(a, c) && Lacks(b, c)
    ensures Lacks(a + b, c)
  {
    forall k | 0 <= k < |a + b|
      ensures c !in (a + b)[k]
    {
      if k >= |a| {
        assert (a + b)[k] == b[k - |a|];
      }
    }
  }

  /** Lines lacking a character of the heading never open the section. */
  lemma LackingNeverOpens(sec: Section, lines: seq<string>, c: char)
    requires c in Heading(sec) && Lacks(lines, c)
    ensures forall k | 0 <= k < |lines| :: Kinds(sec, lines)[k] != Opens
  {
    forall k | 0 <= k < |lines|
      ensures Classify(sec, lines[k]) != Opens
    {
      NeverOpens(sec, lines[k], c);
    }
  }

  // ---------------------------------------------------------------------
  // task_plan.md
  // ---------------------------------------------------------------------

  /** The checklist entry `init_planning` writes when no goal is given. */
  const GoalPlaceholder := "(목표 정의 필요)"

  /** The goals checklist: one `- [ ] g` line per goal in input order, or
      the single placeholder line. */
  function GoalLines(goals: seq<string>): (lines: seq<string>)
    ensures |lines| == if goals == [] then 1 else |goals|
    ensures goals == [] ==> lines == ["- [ ] " + GoalPlaceholder]
    ensures forall i | 0 <= i < |goals| :: lines[i] == "- [ ] " + goals[i]
  {
    if goals == [] then ["- [ ] " + GoalPlaceholder]
    else seq(|goals|, i requires 0 <= i < |goals| => "- [ ] " + goals[i])
  }

  /** The lines before the checklist: title and timestamp, then `task`. */
  function TaskPlanHead(now: string, task: string): seq<string> {
    TaskPlanTitle(now) + TaskPlanTask(task)
  }

  function TaskPlanTitle(now: string): seq<string> {
    ["# Task Plan", "", "> 생성일: " + now, "", "---", "", "## 현재 작업"]
  }

  function TaskPlanTask(task: string): seq<string> {
    ["", task, "", "---", "", "## 목표", ""]
  }

  /** The lines after the checklist, in three stretches. */
  const ApproachLines: seq<string> := ["", "---", "", "## 접근 방식", "", "(작업 시작 전 계획 작성)", ""]
  const ConstraintLines: seq<string> :=
    ["---", "", "## 제약 조건", "", "- PRD에 명시된 범위 내에서만 작업", "- 테스트 없이 배포 금지", ""]
  const FooterLines: seq<string> := ["---", "", "> 💡 `refresh_goals` 도구로 현재 목표를 리마인드할 수 있습니다.", ""]
  const TaskPlanTail: seq<string> := ApproachLines + ConstraintLines + FooterLines

  /** The text `init_planning` writes to `task_plan.md`; the goals checklist
      fills one slot as a single `"\n".join`. */
  function TaskPlanText(now: string, task: string, goals: seq<string>): string {
    Join(TaskPlanHead(now, task) + [Join(GoalLines(goals), '\n')] + TaskPlanTail, '\n')
  }

  /** Each line stripped, as `refresh_goals` collects it. */
  function Stripped(lines: seq<string>): (r: seq<string>)
    ensures |r| == |lines|
    ensures forall i | 0 <= i < |lines| :: r[i] == Strip(lines[i])
  {
    seq(|lines|, i requires 0 <= i < |lines| => Strip(lines[i]))
  }

  /** The lines of `task_plan.md`, goals spliced in. */
  function TaskPlanLines(now: string, task: string, goals: seq<string>): seq<string> {
    TaskPlanHead(now, task) + GoalLines(goals) + TaskPlanTail
  }

  /** Splitting `task_plan.md` gives its lines back when no argument holds a
      line break. */
  lemma TaskPlanSplit(now: string, task: string, goals: seq<string>)
    requires '\n' !in now && '\n' !in task
    requires forall g | g in goals :: '\n' !in g
    ensures Split(TaskPlanText(now, task, goals), '\n') == TaskPlanLines(now, task, goals)
  {
    JoinSplice(TaskPlanHead(now, task), GoalLines(goals), TaskPlanTail, '\n');
    TaskPlanSingleLines(now, task, goals, '\n');
    SplitJoin(TaskPlanLines(now, task, goals), '\n');
  }

  /** `task_plan.md` written from one-line arguments reads back as written. */
  lemma TaskPlanReadsBack(now: string, task: string, goals: seq<string>)
    requires OneLine(now) && OneLine(task)
    requires forall g | g in goals :: OneLine(g)
    ensures ReadText(TaskPlanText(now, task, goals)) == TaskPlanText(now, task, goals)
  {
    TaskPlanSplit(now, task, goals);
    TaskPlanSingleLines(now, task, goals, '\r');
    JoinLacks(TaskPlanLines(now, task, goals), '\n', '\r');
  }

  /** No line of `task_plan.md` holds a line-break character its arguments lack. */
  lemma TaskPlanSingleLines(now: string, task: string, goals: seq<string>, c: char)
    requires c == '\n' || c == '\r'
    requires c !in now && c !in task
    requires forall g | g in goals :: c !in g
    ensures Lacks(TaskPlanLines(now, task, goals), c)
  {
    var head, body := TaskPlanHead(now, task), GoalLines(goals);
    HeadSingleLines(now, task, c);
    GoalLinesSingle(goals, c);
    TailSingleLines(c);
    LacksAppend(head, body, c);
    LacksAppend(head + body, TaskPlanTail, c);
  }

  lemma HeadSingleLines(now: string, task: string, c: char)
    requires c == '\n' || c == '\r'
    requires c !in now && c !in task
    ensures Lacks(TaskPlanHead(now, task), c)
  {
    assert c !in "> 생성일: ";
  }

  lemma GoalLinesSingle(goals: seq<string>, c: char)
    requires c == '\n' || c == '\r'
    requires forall g | g in goals :: c !in g
    ensures Lacks(GoalLines(goals), c)
  {
    var body := GoalLines(goals);
    forall k | 0 <= k < |body|
      ensures c !in body[k]
    {
      if goals != [] {
        assert goals[k] in goals;
      }
    }
  }

  lemma TailSingleLines(c: char)
    requires c == '\n' || c == '\r'
    ensures Lacks(TaskPlanTail, c)
  {
    ApproachLacksBreak(c);
    ConstraintLacksBreak(c);
    FooterLacksBreak(c);
    LacksAppend(ApproachLines, ConstraintLines, c);
    LacksAppend(ApproachLines + ConstraintLines, FooterLines, c);
  }

  /** The title part of `task_plan.md` collects nothing and ends outside
      any section, whatever the timestamp says. */
  lemma TaskPlanTitleScan(now: string)
    ensures ScanKinds(Scan(false, []), Kinds(Goals, TaskPlanTitle(now))) == Scan(false, [])
  {
    var kx := Classify(Goals, "> 생성일: " + now);
    var q3: seq<Kind> := [Plain, Plain, Plain];
    FillerPlain(Goals);
    assert "# Task Plan"[1] == ' ';
    PlainLine(Goals, "# Task Plan", '목');
    CloserLine(Goals, "## 현재 작업", '목');
    KindsOfSeven(Goals, "# Task Plan", "", "> 생성일: " + now, "", "---", "", "## 현재 작업");
    assert Kinds(Goals, TaskPlanTitle(now)) == [Plain, Plain] + ([kx] + q3 + [Closes]);
    ScanQuiet(Scan(false, []), [Plain, Plain]);
    Guarded([], kx, q3);
    ScanAppend(Scan(false, []), [Plain, Plain], [kx] + q3 + [Closes]);
  }

  /** The `task` part of `task_plan.md` enters the goals section with
      nothing collected, whatever `task` says. */
  lemma TaskPlanTaskScan(task: string)
    ensures ScanKinds(Scan(false, []), Kinds(Goals, TaskPlanTask(task))) == Scan(true, [])
  {
    var kt := Classify(Goals, task);
    var q3: seq<Kind> := [Plain, Plain, Plain];
    FillerPlain(Goals);
    HeadingLine(Goals, "");
    assert "## 목표" + "" == "## 목표";
    KindsOfSeven(Goals, "", task, "", "---", "", "## 목표", "");
    assert Kinds(Goals, TaskPlanTask(task)) == [Plain] + ([kt] + q3 + [Opens]) + [Plain];
    ScanQuiet(Scan(false, []), [Plain]);
    Guarded([], kt, q3);
    ScanQuiet(Scan(true, []), [Plain]);
    ScanAppend(Scan(false, []), [Plain], [kt] + q3 + [Opens]);
    ScanAppend(Scan(false, []), [Plain] + ([kt] + q3 + [Opens]), [Plain]);
  }

  /** The head of `task_plan.md` ends inside the goals section with nothing
      collected, whatever the timestamp and `task` say. */
  lemma TaskPlanHeadScan(now: string, task: string)
    ensures ScanKinds(Scan(false, []), Kinds(Goals, TaskPlanHead(now, task))) == Scan(true, [])
  {
    TaskPlanTitleScan(now);
    TaskPlanTaskScan(task);
    KindsAppend(Goals, TaskPlanTitle(now), TaskPlanTask(task));
    ScanAppend(Scan(false, []), Kinds(Goals, TaskPlanTitle(now)), Kinds(Goals, TaskPlanTask(task)));
  }

  /** Past the goals, the tail of `task_plan.md` closes the section and
      collects nothing. */
  lemma TaskPlanTailScan(items: seq<string>)
    ensures ScanKinds(Scan(true, items), Kinds(Goals, TaskPlanTail)) == Scan(false, items)
  {
    var rest := ConstraintLines + FooterLines;
    var q3: seq<Kind> := [Plain, Plain, Plain];
    ApproachKinds();
    assert Kinds(Goals, ApproachLines) == q3 + [Closes] + q3;
    TailRestNeverOpens();
    KindsAppend(Goals, ApproachLines, rest);
    var ks := q3 + Kinds(Goals, rest);
    assert Kinds(Goals, TaskPlanTail) == q3 + [Closes] + ks;
    CloseAndRest(Scan(true, items), [Plain, Plain, Plain], ks);
  }

  lemma ApproachKinds()
    ensures Kinds(Goals, ApproachLines) == [Plain, Plain, Plain, Closes, Plain, Plain, Plain]
  {
    FillerPlain(Goals);
    CloserLine(Goals, "## 접근 방식", '목');
    PlainLine(Goals, "(작업 시작 전 계획 작성)", '#');
    KindsOfSeven(Goals, "", "---", "", "## 접근 방식", "", "(작업 시작 전 계획 작성)", "");
  }

  /** Which characters the stretches after the checklist do without, one
      fact at a time. */
  lemma TailChunksLack()
    ensures Lacks(ApproachLines, '\n')
    ensures Lacks(ConstraintLines, '\n') && Lacks(ConstraintLines, '목')
    ensures Lacks(FooterLines, '\n') && Lacks(FooterLines, '#')
  {
    ApproachLacksBreak('\n');
    ConstraintLacksBreak('\n');
    ConstraintLacksMok();
    FooterLacksBreak('\n');
    FooterLacksHash();
  }

  lemma ApproachLacksBreak(c: char) requires c == '\n' || c == '\r' ensures Lacks(ApproachLines, c) {}
  lemma ConstraintLacksBreak(c: char) requires c == '\n' || c == '\r' ensures Lacks(ConstraintLines, c) {}
  lemma ConstraintLacksMok() ensures Lacks(ConstraintLines, '목') {}
  lemma FooterLacksBreak(c: char) requires c == '\n' || c == '\r' ensures Lacks(FooterLines, c) {
    assert c !in FooterLines[2];
  }
  lemma FooterLacksHash() ensures Lacks(FooterLines, '#') {
    assert '#' !in FooterLines[2];
  }

  lemma TailRestNeverOpens()
    ensures forall k | 0 <= k < |ConstraintLines + FooterLines| ::
      Kinds(Goals, ConstraintLines + FooterLines)[k] != Opens
  {
    TailChunksLack();
    LackingNeverOpens(Goals, ConstraintLines, '목');
    LackingNeverOpens(Goals, FooterLines, '#');
    KindsAppend(Goals, ConstraintLines, FooterLines);
  }

  /** A checklist line `- [ ] x` adds itself, stripped, when `x` lacks the
      goals heading. */
  lemma GoalLineKind(x: string)
    requires !Contains(x, Heading(Goals))
    ensures Classify(Goals, "- [ ] " + x) == Bullet(Some(Strip("- [ ] " + x)))
  {
    var line := "- [ ] " + x;
    LeadKeepsOut(Goals, "- [ ] ", x);
    assert line == "- [ ]" + (" " + x);
    StripKeepsLead("- [ ]", " " + x);
    assert line[1] == ' ';
    var t := Strip(line);
    assert t[0] == '-' && t[1] == ' ';
  }

  /** The placeholder line counts as a goal like any other. */
  lemma PlaceholderGoalKind()
    ensures Classify(Goals, "- [ ] " + GoalPlaceholder)
      == Bullet(Some(Strip("- [ ] " + GoalPlaceholder)))
  {
    MissingCharExcludes(GoalPlaceholder, Heading(Goals), '#');
    GoalLineKind(GoalPlaceholder);
  }

  /** Every checklist line, stripped, is collected. */
  lemma GoalLinesKinds(goals: seq<string>)
    requires forall g | g in goals :: !Contains(g, Heading(Goals))
    ensures forall i | 0 <= i < |GoalLines(goals)| ::
      Kinds(Goals, GoalLines(goals))[i] == Bullet(Some(Stripped(GoalLines(goals))[i]))
  {
    var lines := GoalLines(goals);
    forall i | 0 <= i < |lines|
      ensures Classify(Goals, lines[i]) == Bullet(Some(Strip(lines[i])))
    {
      if goals == [] {
        PlaceholderGoalKind();
      } else {
        assert goals[i] in goals;
        GoalLineKind(goals[i]);
      }
    }
  }

  /** Reading the goals back: `refresh_goals` after `init_planning` collects
      exactly the rendered checklist lines, stripped, in order. The timestamp
      and `task` must stay on one line, and the goals must stay on one line
      each and not contain the goals heading. */
  lemma GoalsRoundTrip(now: string, task: string, goals: seq<string>)
    requires OneLine(now) && OneLine(task)
    requires forall g | g in goals :: OneLine(g) && !Contains(g, Heading(Goals))
    ensures ParseSection(Goals, ReadText(TaskPlanText(now, task, goals))) == Stripped(GoalLines(goals))
  {
    TaskPlanReadsBack(now, task, goals);
    TaskPlanSplit(now, task, goals);
    var head, body := TaskPlanHead(now, task), GoalLines(goals);
    var kh, kb, kt := Kinds(Goals, head), Kinds(Goals, body), Kinds(Goals, TaskPlanTail);
    KindsAppend(Goals, head, body);
    KindsAppend(Goals, head + body, TaskPlanTail);
    var s0 := Scan(false, []);
    TaskPlanHeadScan(now, task);
    GoalLinesKinds(goals);
    ScanBullets([], kb, Stripped(body));
    assert [] + Stripped(body) == Stripped(body);
    TaskPlanTailScan(Stripped(body));
    ScanAppend(s0, kh, kb);
    ScanAppend(s0, kh + kb, kt);
  }

  /** With goals that end in a non-space character, the collected goals are
      the rendered lines themselves. */
  lemma GoalsRoundTripExact(now: string, task: string, goals: seq<string>)
    requires OneLine(now) && OneLine(task)
    requires forall g | g in goals :: OneLine(g) && !Contains(g, Heading(Goals)) && RightTrimmed(g)
    ensures ParseSection(Goals, ReadText(TaskPlanText(now, task, goals))) == GoalLines(goals)
  {
    GoalsRoundTrip(now, task, goals);
    var lines := GoalLines(goals);
    forall i | 0 <= i < |lines|
      ensures Strip(lines[i]) == lines[i]
    {
      if goals == [] {
        assert GoalPlaceholder[|GoalPlaceholder| - 1] == ')';
        StripKeeps("- [ ] ", GoalPlaceholder);
      } else {
        assert goals[i] in goals;
        StripKeeps("- [ ] ", goals[i]);
      }
    }
  }

  // ---------------------------------------------------------------------
  // findings.md
  // ---------------------------------------------------------------------

  /** The text `init_planning` writes to `findings.md`. */
  function FindingsInitText(now: string): string {
    "# Findings\n\n> 조사 결과 기록\n> 생성일: " + now
      + "\n\n---\n\n## 2-Action Rule\n\n> view/browser 작업 2개 후 반드시 여기에 기록!\n\n---\n\n(아직 기록 없음)\n"
  }

  /** Python's `x if x else placeholder` on a string. */
  function OrElse(x: string, placeholder: string): string {
    if x != "" then x else placeholder
  }

  /** The block `save_finding` appends. */
  function FindingEntry(now: string, topic: string, question: string, findings: string,
                        source: string, conclusion: string): string
  {
    "\n---\n\n## [" + now + "] " + topic
      + "\n\n### 질문\n" + OrElse(question, "(명시되지 않음)")
      + "\n\n### 발견\n" + findings
      + "\n\n### 소스\n" + OrElse(source, "(없음)")
      + "\n\n### 결론\n" + OrElse(conclusion, "(추가 조사 필요)")
      + "\n\n"
  }

  // ---------------------------------------------------------------------
  // progress.md
  // ---------------------------------------------------------------------

  const Nothing: string := "*(없음)*"
  const ToDecide: string := "*(결정 필요)*"

  /** `- x` per item, or the placeholder line when there are none. */
  function BulletLines(items: seq<string>, placeholder: string): (lines: seq<string>)
    ensures |lines| == if items == [] then 1 else |items|
    ensures items == [] ==> lines == [placeholder]
    ensures forall i | 0 <= i < |items| :: lines[i] == "- " + items[i]
  {
    if items == [] then [placeholder]
    else seq(|items|, i requires 0 <= i < |items| => "- " + items[i])
  }

  /** The lines of `progress.md` up to the Completed list. */
  function ProgressTop(now: string): seq<string> {
    ProgressTitle(now) + ProgressOpen
  }

  function ProgressTitle(now: string): seq<string> {
    ["# Progress", "", "> 마지막 업데이트: " + now, ""]
  }

  const ProgressOpen: seq<string> := ["---", "", "## 완료 (Completed)", ""]

  /** The lines between the Completed list and the Blockers list. */
  function ProgressMiddle(inProgress: string): seq<string> {
    ProgressLeave + ProgressInProgress(inProgress)
  }

  const ProgressLeave: seq<string> := ["", "---", "", "## 진행중 (In Progress)"]

  function ProgressInProgress(inProgress: string): seq<string> {
    ["", if inProgress != "" then "- " + inProgress else Nothing, "", "---", "", "## 블로커 (Blockers)", ""]
  }

  /** The lines after the Blockers list. */
  function ProgressEnd(next: string): seq<string> {
    ProgressNextHeading + ProgressNext(next)
  }

  const ProgressNextHeading: seq<string> := ["", "---", "", "## 다음 할 일 (Next)", ""]

  const ProgressFooter: string := "> 💡 업데이트: `update_progress` 도구 호출"

  function ProgressNext(next: string): seq<string> {
    [OrElse(next, ToDecide), "", "---", "", ProgressFooter, ""]
  }

  /** The text `update_progress` writes: the Completed and Blockers lists
      each fill one slot as a single `"\n".join`. */
  function ProgressText(now: string, completed: seq<string>, inProgress: string,
                        blockers: seq<string>, next: string): string
  {
    Join(ProgressTop(now) + [Join(BulletLines(completed, NoneYet), '\n')] + ProgressMiddle(inProgress)
         + [Join(BulletLines(blockers, Nothing), '\n')] + ProgressEnd(next), '\n')
  }

  /** The text `init_planning` writes to `progress.md`. */
  function InitProgressText(now: string): string {
    Join(["# Progress", "", "> 마지막 업데이트: " + now, "", "---", "",
          "## 완료 (Completed)", "", "*(아직 없음)*", "", "---", "",
          "## 진행중 (In Progress)", "", "*(없음)*", "", "---", "",
          "## 블로커 (Blockers)", "", "*(없음)*", "", "---", "",
          "## 다음 할 일 (Next)", "", "*(결정 필요)*", "", "---", "",
          "> 💡 업데이트: `update_progress` 도구 호출", ""], '\n')
  }

  /** A fresh `progress.md` is what an update with nothing in it writes. */
  lemma InitProgressIsEmptyUpdate(now: string)
    ensures InitProgressText(now) == ProgressText(now, [], "", [], "")
  {
    assert Join(BulletLines([], NoneYet), '\n') == NoneYet;
    assert Join(BulletLines([], Nothing), '\n') == Nothing;
    assert ProgressTop(now) + [NoneYet] + ProgressMiddle("") + [Nothing] + ProgressEnd("") ==
      ["# Progress", "", "> 마지막 업데이트: " + now, "", "---", "",
       "## 완료 (Completed)", "", "*(아직 없음)*", "", "---", "",
       "## 진행중 (In Progress)", "", "*(없음)*", "", "---", "",
       "## 블로커 (Blockers)", "", "*(없음)*", "", "---", "",
       "## 다음 할 일 (Next)", "", "*(결정 필요)*", "", "---", "",
       "> 💡 업데이트: `update_progress` 도구 호출", ""];
  }

  // Reading the Completed list back

  /** An item `update_progress` reads back as it was written: on one line,
      without the Completed heading, not the placeholder, and ending in a
      non-space character (so also non-empty). */
  predicate CompletedItem(c: string) {
    OneLine(c) && RightTrimmed(c) && c != NoneYet && !Contains(c, Heading(Completed))
  }

  /** The lines of `progress.md`, both lists spliced in. */
  function ProgressLines(now: string, completed: seq<string>, inProgress: string,
                         blockers: seq<string>, next: string): seq<string>
  {
    ProgressTop(now) + BulletLines(completed, NoneYet) + ProgressMiddle(inProgress)
      + BulletLines(blockers, Nothing) + ProgressEnd(next)
  }

  /** Splitting `progress.md` gives its lines back when no argument holds a
      line break. */
  lemma ProgressSplit(now: string, completed: seq<string>, inProgress: string,
                      blockers: seq<string>, next: string)
    requires '\n' !in now && '\n' !in inProgress && '\n' !in next
    requires Lacks(completed, '\n') && Lacks(blockers, '\n')
    ensures Split(ProgressText(now, completed, inProgress, blockers, next), '\n')
      == ProgressLines(now, completed, inProgress, blockers, next)
  {
    var top, bc, mid := ProgressTop(now), BulletLines(completed, NoneYet), ProgressMiddle(inProgress);
    var bb, end := BulletLines(blockers, Nothing), ProgressEnd(next);
    JoinSplice(top + [Join(bc, '\n')] + mid, bb, end, '\n');
    JoinSplice(top, bc, mid + bb + end, '\n');
    assert top + [Join(bc, '\n')] + mid + bb + end == top + [Join(bc, '\n')] + (mid + bb + end);
    assert top + bc + (mid + bb + end) == ProgressLines(now, completed, inProgress, blockers, next);
    ProgressSingleLines(now, completed, inProgress, blockers, next, '\n');
    SplitJoin(ProgressLines(now, completed, inProgress, blockers, next), '\n');
  }

  /** `progress.md` written from one-line arguments reads back as written. */
  lemma ProgressReadsBack(now: string, completed: seq<string>, inProgress: string,
                          blockers: seq<string>, next: string)
    requires OneLine(now) && OneLine(inProgress) && OneLine(next)
    requires forall c | c in completed :: OneLine(c)
    requires forall b | b in blockers :: OneLine(b)
    ensures ReadText(ProgressText(now, completed, inProgress, blockers, next))
      == ProgressText(now, completed, inProgress, blockers, next)
  {
    forall k | 0 <= k < |completed| ensures OneLine(completed[k]) {
      assert completed[k] in completed;
    }
    forall k | 0 <= k < |blockers| ensures OneLine(blockers[k]) {
      assert blockers[k] in blockers;
    }
    ProgressSplit(now, completed, inProgress, blockers, next);
    ProgressSingleLines(now, completed, inProgress, blockers, next, '\r');
    JoinLacks(ProgressLines(now, completed, inProgress, blockers, next), '\n', '\r');
  }

  /** No line of `progress.md` holds a line-break character its arguments lack. */
  lemma ProgressSingleLines(now: string, completed: seq<string>, inProgress: string,
                            blockers: seq<string>, next: string, c: char)
    requires c == '\n' || c == '\r'
    requires c !in now && c !in inProgress && c !in next
    requires Lacks(completed, c) && Lacks(blockers, c)
    ensures Lacks(ProgressLines(now, completed, inProgress, blockers, next), c)
  {
    var top, bc, mid := ProgressTop(now), BulletLines(completed, NoneYet), ProgressMiddle(inProgress);
    var bb, end := BulletLines(blockers, Nothing), ProgressEnd(next);
    ProgressTopSingle(now, c);
    BulletLinesLack(completed, NoneYet, c);
    ProgressMiddleSingle(inProgress, c);
    BulletLinesLack(blockers, Nothing, c);
    ProgressEndSingle(next, c);
    LacksAppend(top, bc, c);
    LacksAppend(top + bc, mid, c);
    LacksAppend(top + bc + mid, bb, c);
    LacksAppend(top + bc + mid + bb, end, c);
  }

  lemma ProgressTopSingle(now: string, c: char)
    requires c == '\n' || c == '\r'
    requires c !in now
    ensures Lacks(ProgressTop(now), c)
  {
    assert c !in "> 마지막 업데이트: ";
  }

  lemma ProgressMiddleSingle(inProgress: string, c: char)
    requires c == '\n' || c == '\r'
    requires c !in inProgress
    ensures Lacks(ProgressMiddle(inProgress), c)
  {
    LeaveSingle(c);
    InProgressSingle(inProgress, c);
    LacksAppend(ProgressLeave, ProgressInProgress(inProgress), c);
  }

  lemma LeaveSingle(c: char) requires c == '\n' || c == '\r' ensures Lacks(ProgressLeave, c) {}

  lemma InProgressSingle(inProgress: string, c: char)
    requires c == '\n' || c == '\r'
    requires c !in inProgress
    ensures Lacks(ProgressInProgress(inProgress), c)
  {
    assert c !in Nothing;
  }

  lemma ProgressEndSingle(next: string, c: char)
    requires c == '\n' || c == '\r'
    requires c !in next
    ensures Lacks(ProgressEnd(next), c)
  {
    NextHeadingSingle(c);
    NextSingle(next, c);
    LacksAppend(ProgressNextHeading, ProgressNext(next), c);
  }

  lemma NextHeadingSingle(c: char) requires c == '\n' || c == '\r' ensures Lacks(ProgressNextHeading, c) {}

  lemma ProgressFooterSingle(c: char) requires c == '\n' || c == '\r' ensures c !in ProgressFooter {}

  lemma NextSingle(next: string, c: char)
    requires c == '\n' || c == '\r'
    requires c !in next
    ensures Lacks(ProgressNext(next), c)
  {
    ProgressFooterSingle(c);
    assert c !in ToDecide;
  }

  /** A bullet list lacks a character its items, its placeholder and the
      `- ` lead all lack. */
  lemma BulletLinesLack(items: seq<string>, placeholder: string, c: char)
    requires c != '-' && c != ' ' && c !in placeholder && Lacks(items, c)
    ensures Lacks(BulletLines(items, placeholder), c)
  {
    var lines := BulletLines(items, placeholder);
    forall k | 0 <= k < |lines|
      ensures c !in lines[k]
    {
      if items != [] {
        assert lines[k] == "- " + items[k];
      }
    }
  }

  lemma CompletedHeadingOpens()
    ensures Classify(Completed, "## 완료 (Completed)") == Opens
  {
    HeadingLine(Completed, " (Completed)");
    assert Heading(Completed) + " (Completed)" == "## 완료 (Completed)";
  }

  lemma ProgressTitlePlain()
    ensures Classify(Completed, "# Progress") == Plain
  {
    assert "# Progress"[1] == ' ';
    PlainLine(Completed, "# Progress", '완');
  }

  /** The title collects nothing, whatever the timestamp says. */
  lemma ProgressTitleScan(now: string)
    ensures ScanKinds(Scan(false, []), Kinds(Completed, ProgressTitle(now))).items == []
  {
    var kx := Classify(Completed, "> 마지막 업데이트: " + now);
    FillerPlain(Completed);
    ProgressTitlePlain();
    assert Kinds(Completed, ProgressTitle(now)) == [Plain, Plain] + ([kx] + [Plain]);
    ScanQuiet(Scan(false, []), [Plain, Plain]);
    Guarded([], kx, [Plain]);
    ScanAppend(Scan(false, []), [Plain, Plain], [kx] + [Plain]);
  }

  lemma ProgressOpenKinds()
    ensures Kinds(Completed, ProgressOpen) == [Plain, Plain, Opens, Plain]
  {
    CompletedHeadingOpens();
    FillerPlain(Completed);
    KindsOfFour(Completed, "---", "", "## 완료 (Completed)", "");
  }

  /** The Completed heading enters the section, from wherever the scan is. */
  lemma ProgressOpenScan(st: Scan)
    ensures ScanKinds(st, Kinds(Completed, ProgressOpen)) == Scan(true, st.items)
  {
    ProgressOpenKinds();
    assert Kinds(Completed, ProgressOpen) == [Plain, Plain] + [Opens] + [Plain];
    ScanQuiet(st, [Plain, Plain]);
    ScanAppend(st, [Plain, Plain], [Opens]);
    ScanQuiet(Scan(true, st.items), [Plain]);
    ScanAppend(st, [Plain, Plain] + [Opens], [Plain]);
  }

  /** The top of `progress.md` enters the Completed section with nothing
      collected, whatever the timestamp says. */
  lemma ProgressTopScan(now: string)
    ensures ScanKinds(Scan(false, []), Kinds(Completed, ProgressTop(now))) == Scan(true, [])
  {
    var s0 := Scan(false, []);
    ProgressTitleScan(now);
    ProgressOpenScan(ScanKinds(s0, Kinds(Completed, ProgressTitle(now))));
    KindsAppend(Completed, ProgressTitle(now), ProgressOpen);
    ScanAppend(s0, Kinds(Completed, ProgressTitle(now)), Kinds(Completed, ProgressOpen));
  }

  /** A line `- c` yields `c` itself. */
  lemma CompletedLineKind(c: string)
    requires CompletedItem(c)
    ensures Classify(Completed, "- " + c) == Bullet(Some(c))
  {
    var line := "- " + c;
    LeadKeepsOut(Completed, "- ", c);
    assert line[0] == '-';
    StripKeeps("- ", c);
    assert line[2..] == c;
  }

  /** The placeholder of an empty Completed list collects nothing. */
  lemma NoneYetPlain()
    ensures Classify(Completed, NoneYet) == Plain
  {
    assert '#' !in NoneYet;
    PlainLine(Completed, NoneYet, '#');
  }

  /** Inside the section, the Completed list collects its items in order. */
  lemma CompletedScan(completed: seq<string>)
    requires forall c | c in completed :: CompletedItem(c)
    ensures ScanKinds(Scan(true, []), Kinds(Completed, BulletLines(completed, NoneYet)))
      == Scan(true, completed)
  {
    var lines := BulletLines(completed, NoneYet);
    if completed == [] {
      NoneYetPlain();
      ScanQuiet(Scan(true, []), Kinds(Completed, lines));
    } else {
      forall i | 0 <= i < |completed|
        ensures Classify(Completed, lines[i]) == Bullet(Some(completed[i]))
      {
        assert completed[i] in completed;
        CompletedLineKind(completed[i]);
      }
      ScanBullets([], Kinds(Completed, lines), completed);
      assert [] + completed == completed;
    }
  }

  /** The In Progress heading leaves the section. */
  lemma LeaveScan(items: seq<string>)
    ensures ScanKinds(Scan(true, items), Kinds(Completed, ProgressLeave)) == Scan(false, items)
  {
    FillerPlain(Completed);
    CloserLine(Completed, "## 진행중 (In Progress)", '완');
    assert Kinds(Completed, ProgressLeave) == [Plain, Plain, Plain] + [Closes] + [];
    CloseAndRest(Scan(true, items), [Plain, Plain, Plain], []);
  }

  lemma InProgressKinds(inProgress: string)
    ensures Kinds(Completed, ProgressInProgress(inProgress))
      == [Plain, Classify(Completed, ProgressInProgress(inProgress)[1]), Plain, Plain, Plain, Closes, Plain]
  {
    FillerPlain(Completed);
    CloserLine(Completed, "## 블로커 (Blockers)", '완');
    KindsOfSeven(Completed, "", ProgressInProgress(inProgress)[1], "", "---", "", "## 블로커 (Blockers)", "");
  }

  /** The In Progress entry, whatever it says, and the Blockers heading
      leave the items and end outside the section. */
  lemma InProgressScan(items: seq<string>, inProgress: string)
    ensures ScanKinds(Scan(false, items), Kinds(Completed, ProgressInProgress(inProgress)))
      == Scan(false, items)
  {
    var kp := Classify(Completed, ProgressInProgress(inProgress)[1]);
    var q3: seq<Kind> := [Plain, Plain, Plain];
    InProgressKinds(inProgress);
    assert Kinds(Completed, ProgressInProgress(inProgress)) == [Plain] + ([kp] + q3 + [Closes]) + [Plain];
    var s := Scan(false, items);
    ScanQuiet(s, [Plain]);
    Guarded(items, kp, q3);
    ScanAppend(s, [Plain], [kp] + q3 + [Closes]);
    ScanAppend(s, [Plain] + ([kp] + q3 + [Closes]), [Plain]);
  }

  /** Blockers without the Completed heading never enter the section. */
  lemma BlockersScan(items: seq<string>, blockers: seq<string>)
    requires forall b | b in blockers :: !Contains(b, Heading(Completed))
    ensures ScanKinds(Scan(false, items), Kinds(Completed, BulletLines(blockers, Nothing)))
      == Scan(false, items)
  {
    var lines := BulletLines(blockers, Nothing);
    forall k | 0 <= k < |lines|
      ensures Classify(Completed, lines[k]) != Opens
    {
      if blockers == [] {
        assert '#' !in Nothing;
        NeverOpens(Completed, Nothing, '#');
      } else {
        assert blockers[k] in blockers;
        LeadKeepsOut(Completed, "- ", blockers[k]);
      }
    }
    ScanDormant(items, Kinds(Completed, lines));
  }

  /** The Next heading, the Next entry, whatever it says, and the footer
      add nothing. */
  lemma EndScan(items: seq<string>, next: string)
    ensures ScanKinds(Scan(false, items), Kinds(Completed, ProgressEnd(next))).items == items
  {
    NextHeadingScan(items);
    NextScan(items, next);
    KindsAppend(Completed, ProgressNextHeading, ProgressNext(next));
    ScanAppend(Scan(false, items), Kinds(Completed, ProgressNextHeading), Kinds(Completed, ProgressNext(next)));
  }

  lemma NextHeadingScan(items: seq<string>)
    ensures ScanKinds(Scan(false, items), Kinds(Completed, ProgressNextHeading)) == Scan(false, items)
  {
    FillerPlain(Completed);
    CloserLine(Completed, "## 다음 할 일 (Next)", '완');
    ScanDormant(items, Kinds(Completed, ProgressNextHeading));
  }

  lemma ProgressFooterLacksHash() ensures '#' !in ProgressFooter {}

  lemma NextKinds(next: string)
    ensures Kinds(Completed, ProgressNext(next))
      == [Classify(Completed, OrElse(next, ToDecide)), Plain, Plain, Plain, Plain, Plain]
  {
    FillerPlain(Completed);
    ProgressFooterLacksHash();
    PlainLine(Completed, ProgressFooter, '#');
    KindsOfSix(Completed, OrElse(next, ToDecide), "", "---", "", ProgressFooter, "");
  }

  lemma NextScan(items: seq<string>, next: string)
    ensures ScanKinds(Scan(false, items), Kinds(Completed, ProgressNext(next))).items == items
  {
    var kn := Classify(Completed, OrElse(next, ToDecide));
    NextKinds(next);
    assert Kinds(Completed, ProgressNext(next)) == [kn] + [Plain, Plain, Plain, Plain, Plain];
    Guarded(items, kn, [Plain, Plain, Plain, Plain, Plain]);
  }

  /** Reading the Completed list back: the next `update_progress` after one
      that wrote `completed` starts from exactly `completed`, whatever the In
      Progress and Next entries say, as long as every argument stays on one
      line, the items are well formed and the blockers do not contain the
      Completed heading. */
  lemma CompletedRoundTrip(now: string, completed: seq<string>, inProgress: string,
                           blockers: seq<string>, next: string)
    requires OneLine(now) && OneLine(inProgress) && OneLine(next)
    requires forall c | c in completed :: CompletedItem(c)
    requires forall b | b in blockers :: OneLine(b) && !Contains(b, Heading(Completed))
    ensures ParseSection(Completed, ReadText(ProgressText(now, completed, inProgress, blockers, next))) == completed
  {
    ProgressReadsBack(now, completed, inProgress, blockers, next);
    forall k | 0 <= k < |completed| ensures '\n' !in completed[k] {
      assert completed[k] in completed;
    }
    forall k | 0 <= k < |blockers| ensures '\n' !in blockers[k] {
      assert blockers[k] in blockers;
    }
    ProgressSplit(now, completed, inProgress, blockers, next);
    var top, bc, mid := ProgressTop(now), BulletLines(completed, NoneYet), ProgressMiddle(inProgress);
    var bb, end := BulletLines(blockers, Nothing), ProgressEnd(next);
    var kt, kc, km, kb, ke := Kinds(Completed, top), Kinds(Completed, bc), Kinds(Completed, mid),
      Kinds(Completed, bb), Kinds(Completed, end);
    KindsAppend(Completed, top, bc);
    KindsAppend(Completed, top + bc, mid);
    KindsAppend(Completed, top + bc + mid, bb);
    KindsAppend(Completed, top + bc + mid + bb, end);
    KindsAppend(Completed, ProgressLeave, ProgressInProgress(inProgress));
    var s0 := Scan(false, []);
    ProgressTopScan(now);
    CompletedScan(completed);
    LeaveScan(completed);
    InProgressScan(completed, inProgress);
    ScanAppend(Scan(true, completed), Kinds(Completed, ProgressLeave), Kinds(Completed, ProgressInProgress(inProgress)));
    BlockersScan(completed, blockers);
    EndScan(completed, next);
    ScanAppend(s0, kt, kc);
    ScanAppend(s0, kt + kc, km);
    ScanAppend(s0, kt + kc + km, kb);
    ScanAppend(s0, kt + kc + km + kb, ke);
  }

  /** A kind whose item, if any, is well formed. */
  predicate GoodKind(k: Kind) {
    k.Bullet? && k.item.Some? ==> CompletedItem(k.item.value)
  }

  /** Whatever a single line of a file yields for the Completed list is well
      formed: it comes from between the ends of the stripped line, which ends
      in a non-space, and a line holding the heading opens instead. */
  lemma BulletItemWellFormed(line: string)
    requires OneLine(line)
    ensures GoodKind(Classify(Completed, line))
  {
    var k := Classify(Completed, line);
    if k.Bullet? && k.item.Some? {
      var a, b := StripSlice(line);
      var t := Strip(line);
      StripEndsTrimmed(line);
      var x := t[2..];
      assert k.item.value == x;
      assert x == line[a + 2..b];
      ContainsInSlice(line, a + 2, b, Heading(Completed));
      assert x[|x| - 1] == t[|t| - 1];
      forall i | 0 <= i < |x| ensures x[i] != '\n' && x[i] != '\r' {
        assert x[i] == line[a + 2 + i];
      }
    }
  }

  /** Scanning well-formed kinds keeps a well-formed list well formed. */
  lemma {:induction false} ScanWellFormed(st: Scan, kinds: seq<Kind>)
    requires forall c | c in st.items :: CompletedItem(c)
    requires forall i | 0 <= i < |kinds| :: GoodKind(kinds[i])
    ensures forall c | c in ScanKinds(st, kinds).items :: CompletedItem(c)
    decreases |kinds|
  {
    if kinds != [] {
      assert GoodKind(kinds[0]);
      ScanWellFormed(Step(st, kinds[0]), kinds[1..]);
    }
  }

  /** Every item `update_progress` reads from any `progress.md` is one it
      would read back unchanged after writing it. */
  lemma ParsedItemsWellFormed(text: string)
    ensures forall c | c in ParseSection(Completed, ReadText(text)) :: CompletedItem(c)
  {
    var lines := Split(ReadText(text), '\n');
    SplitLacks(ReadText(text), '\n', '\r');
    forall i | 0 <= i < |lines| ensures GoodKind(Kinds(Completed, lines)[i]) {
      BulletItemWellFormed(lines[i]);
    }
    ScanWellFormed(Scan(false, []), Kinds(Completed, lines));
  }

  // ---------------------------------------------------------------------
  // The four tools
  // ---------------------------------------------------------------------

  /** The project directory as the tools see it: whether the path exists,
      and the three planning files (`None` when absent). */
  datatype Project = Project(present: bool, taskPlan: Option<string>, findings: Option<string>,
                             progress: Option<string>)

  /** What a tool reports back. */
  datatype Reply =
    | PathMissing
    | NotInitialized
    | Initialized
    | FindingSaved
    | Reminder(goals: seq<string>, progress: string)
    | ProgressSaved(completed: nat, blockers: nat)

  datatype Outcome = Outcome(project: Project, reply: Reply)

  /** `init_planning`: on an existing path, (over)write all three files. */
  function InitPlanning(p: Project, now: string, task: string, goals: seq<string>): (o: Outcome)
    ensures !p.present ==> o == Outcome(p, PathMissing)
    ensures p.present ==> o.reply == Initialized && o.project.present
    ensures p.present ==> o.project.taskPlan == Some(TaskPlanText(now, task, goals))
    ensures p.present ==> o.project.findings == Some(FindingsInitText(now))
    ensures p.present ==> o.project.progress == Some(InitProgressText(now))
  {
    if !p.present then Outcome(p, PathMissing)
    else Outcome(Project(true, Some(TaskPlanText(now, task, goals)), Some(FindingsInitText(now)),
                         Some(InitProgressText(now))), Initialized)
  }

  /** `save_finding`: append one block to an existing `findings.md`. The
      file is rewritten from what reading it gave, so the old content is kept
      with its line breaks as `read_text` reports them, and kept exactly when
      it holds no `\r`. */
  function SaveFinding(p: Project, now: string, topic: string, question: string, findings: string,
                       source: string, conclusion: string): (o: Outcome)
    ensures p.findings == None <==> o.reply == NotInitialized
    ensures p.findings == None ==> o.project == p
    ensures p.findings != None ==>
      var old_ := ReadText(p.findings.value);
      && o.reply == FindingSaved
      && o.project.findings.Some?
      && old_ <= o.project.findings.value
      && o.project.findings.value[|old_|..] == FindingEntry(now, topic, question, findings, source, conclusion)
      && ('\r' !in p.findings.value ==> p.findings.value <= o.project.findings.value)
      && o.project == p.(findings := o.project.findings)
  {
    match p.findings
    case None => Outcome(p, NotInitialized)
    case Some(existing) =>
      Outcome(p.(findings := Some(ReadText(existing) + FindingEntry(now, topic, question, findings, source, conclusion))),
              FindingSaved)
  }

  /** The progress excerpt `refresh_goals` shows: the first 500 characters,
      and `...` when there were more. */
  function Excerpt(progress: string): (r: string)
    ensures |progress| <= 500 ==> r == progress
    ensures |progress| > 500 ==> |r| == 503 && r[..500] == progress[..500] && r[500..] == "..."
  {
    if |progress| > 500 then progress[..500] + "..." else progress
  }

  /** What reading an optional file gives, or `absent` when there is none. */
  function ReadOr(file: Option<string>, absent: string): (r: string)
    ensures file.None? ==> r == absent
    ensures file.Some? && '\r' !in file.value ==> r == file.value
  {
    match file
    case None => absent
    case Some(text) => ReadText(text)
  }

  /** `refresh_goals`: read the goals back, with a glance at the progress;
      nothing is written. */
  function RefreshGoals(p: Project): (o: Outcome)
    ensures o.project == p
    ensures p.taskPlan == None <==> o.reply == NotInitialized
    ensures p.taskPlan != None ==>
      o.reply == Reminder(ParseSection(Goals, ReadText(p.taskPlan.value)), Excerpt(ReadOr(p.progress, "(없음)")))
  {
    match p.taskPlan
    case None => Outcome(p, NotInitialized)
    case Some(plan) => Outcome(p, Reminder(ParseSection(Goals, ReadText(plan)), Excerpt(ReadOr(p.progress, "(없음)"))))
  }

  /** `update_progress`: rewrite `progress.md` with the Completed items it
      already lists, then the new ones, and the given other entries. */
  function UpdateProgress(p: Project, now: string, completed: seq<string>, inProgress: string,
                          blockers: seq<string>, next: string): (o: Outcome)
    ensures p.progress == None <==> o.reply == NotInitialized
    ensures p.progress == None ==> o.project == p
    ensures p.progress != None ==>
      var all := ParseSection(Completed, ReadText(p.progress.value)) + completed;
      && o.reply == ProgressSaved(|all|, |blockers|)
      && o.project == p.(progress := Some(ProgressText(now, all, inProgress, blockers, next)))
  {
    match p.progress
    case None => Outcome(p, NotInitialized)
    case Some(existing) =>
      var all := ParseSection(Completed, ReadText(existing)) + completed;
      Outcome(p.(progress := Some(ProgressText(now, all, inProgress, blockers, next))),
              ProgressSaved(|all|, |blockers|))
  }

  // What the tools promise together

  /** `init_planning` does not look at what was there: any two existing
      projects end up with the same files. */
  lemma InitIsHardReset(p: Project, q: Project, now: string, task: string, goals: seq<string>)
    requires p.present && q.present
    ensures InitPlanning(p, now, task, goals) == InitPlanning(q, now, task, goals)
  {
  }

  /** After `init_planning`, `refresh_goals` lists the goals as the checklist
      shows them, stripped, and the fresh progress file. */
  lemma InitThenRefresh(p: Project, now: string, task: string, goals: seq<string>)
    requires p.present
    requires OneLine(now) && OneLine(task)
    requires forall g | g in goals :: OneLine(g) && !Contains(g, Heading(Goals))
    ensures RefreshGoals(InitPlanning(p, now, task, goals).project).reply
      == Reminder(Stripped(GoalLines(goals)), Excerpt(InitProgressText(now)))
  {
    GoalsRoundTrip(now, task, goals);
    InitProgressIsEmptyUpdate(now);
    ProgressReadsBack(now, [], "", [], "");
  }

  /** A fresh `progress.md` lists nothing as completed. */
  lemma FreshProgressEmpty(now: string)
    requires OneLine(now)
    ensures ParseSection(Completed, ReadText(InitProgressText(now))) == []
  {
    InitProgressIsEmptyUpdate(now);
    CompletedRoundTrip(now, [], "", [], "");
  }

  /** `update_progress` keeps what was completed before and adds the new
      items after it, as long as the new items are well formed and the
      other entries stay on one line. */
  lemma UpdateThenParse(p: Project, now: string, completed: seq<string>, inProgress: string,
                        blockers: seq<string>, next: string)
    requires p.progress.Some?
    requires OneLine(now) && OneLine(inProgress) && OneLine(next)
    requires forall c | c in completed :: CompletedItem(c)
    requires forall b | b in blockers :: OneLine(b) && !Contains(b, Heading(Completed))
    ensures UpdateProgress(p, now, completed, inProgress, blockers, next).project.progress
      == Some(ProgressText(now, ParseSection(Completed, ReadText(p.progress.value)) + completed, inProgress, blockers, next))
    ensures ParseSection(Completed, ReadText(UpdateProgress(p, now, completed, inProgress, blockers, next).project.progress.value))
      == ParseSection(Completed, ReadText(p.progress.value)) + completed
  {
    var before := ParseSection(Completed, ReadText(p.progress.value));
    ParsedItemsWellFormed(p.progress.value);
    CompletedRoundTrip(now, before + completed, inProgress, blockers, next);
  }

  /** Starting from `init_planning`, two updates list the first call's items
      and then the second's. */
  lemma CompletedAccumulates(p: Project, now: string, task: string, goals: seq<string>,
                             c1: seq<string>, c2: seq<string>, inProgress: string,
                             blockers: seq<string>, next: string)
    requires p.present
    requires OneLine(now) && OneLine(inProgress) && OneLine(next)
    requires forall c | c in c1 + c2 :: CompletedItem(c)
    requires forall b | b in blockers :: OneLine(b) && !Contains(b, Heading(Completed))
    ensures var p1 := InitPlanning(p, now, task, goals).project;
            var p2 := UpdateProgress(p1, now, c1, inProgress, blockers, next).project;
            var p3 := UpdateProgress(p2, now, c2, inProgress, blockers, next).project;
            ParseSection(Completed, ReadText(p3.progress.value)) == c1 + c2
  {
    var p1 := InitPlanning(p, now, task, goals).project;
    FreshProgressEmpty(now);
    forall c | c in c1 ensures CompletedItem(c) { assert c in c1 + c2; }
    forall c | c in c2 ensures CompletedItem(c) { assert c in c1 + c2; }
    UpdateThenParse(p1, now, c1, inProgress, blockers, next);
    assert [] + c1 == c1;
    var p2 := UpdateProgress(p1, now, c1, inProgress, blockers, next).project;
    UpdateThenParse(p2, now, c2, inProgress, blockers, next);
  }

  /** Of two `update_progress` calls, only the second one's In Progress,
      Blockers and Next entries and timestamp survive; the Completed list
      keeps both calls' items. */
  lemma LatestCallWins(p: Project, now1: string, c1: seq<string>, inProgress1: string,
                       blockers1: seq<string>, next1: string,
                       now2: string, c2: seq<string>, inProgress2: string,
                       blockers2: seq<string>, next2: string)
    requires p.progress.Some?
    requires OneLine(now1) && OneLine(inProgress1) && OneLine(next1)
    requires forall c | c in c1 :: CompletedItem(c)
    requires forall b | b in blockers1 :: OneLine(b) && !Contains(b, Heading(Completed))
    ensures var p1 := UpdateProgress(p, now1, c1, inProgress1, blockers1, next1).project;
            UpdateProgress(p1, now2, c2, inProgress2, blockers2, next2).project.progress
              == Some(ProgressText(now2, ParseSection(Completed, ReadText(p.progress.value)) + c1 + c2,
                                   inProgress2, blockers2, next2))
  {
    UpdateThenParse(p, now1, c1, inProgress1, blockers1, next1);
  }

  /** Two `save_finding` calls leave both blocks, in call order, after what
      was there, each read back once more by the second call. */
  lemma FindingsAppendInOrder(p: Project, now1: string, topic1: string, now2: string, topic2: string,
                              question: string, findings: string, source: string, conclusion: string)
    requires p.findings.Some?
    ensures var o1 := SaveFinding(p, now1, topic1, question, findings, source, conclusion);
            var o2 := SaveFinding(o1.project, now2, topic2, question, findings, source, conclusion);
            o2.project.findings == Some(ReadText(p.findings.value)
              + ReadText(FindingEntry(now1, topic1, question, findings, source, conclusion))
              + FindingEntry(now2, topic2, question, findings, source, conclusion))
  {
    var e1 := FindingEntry(now1, topic1, question, findings, source, conclusion);
    ReadTextAfterClean(ReadText(p.findings.value), e1);
  }

  /** Every block `save_finding` appends starts on a rule line after a line
      break, with the timestamped topic heading. */
  lemma FindingEntryHeading(now: string, topic: string, question: string, findings: string,
                            source: string, conclusion: string)
    ensures "\n---\n\n## [" + now + "] " + topic <= FindingEntry(now, topic, question, findings, source, conclusion)
  {
  }

  /** Empty optional fields are written as their placeholders. */
  lemma EmptyFieldsGetPlaceholders(now: string, topic: string, findings: string)
    ensures FindingEntry(now, topic, "", findings, "", "")
      == FindingEntry(now, topic, "(명시되지 않음)", findings, "(없음)", "(추가 조사 필요)")
  {
  }
}
