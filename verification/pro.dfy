/**
 The license check and the two write-once guards of `src/clouvel/tools/pro.py`.

 The home-directory license file is an `Option<string>`. A project tree is a
 set of directories and a map from relative file paths to contents. The
 fixed files the installer writes (settings, commands, templates and the
 gate script) are a parameter `fixed`: their contents are static text this
 model does not reproduce. A key argument that Python treats as absent
 (`None` or `""`) is the empty string here.
 */
module Pro {
  import opened Wrappers
  import opened Text

  // ---------------------------------------------------------------------
  // verify_license
  // ---------------------------------------------------------------------

  /** The tiers a key may name, in lower case. */
  const Tiers: seq<string> := ["personal", "team", "enterprise"]

  const KeyPrefix: string := "CLOUVEL-"

  /** Why a key was turned down. */
  datatype Why = NoKey | BadFormat | UnknownTier

  datatype LicenseVerdict = Valid(tier: string) | Invalid(why: Why)

  /** The key the format check runs on and what the license file holds afterwards:
      an explicit key is used and saved over the file; without one, the
      saved key is read in text mode and used with surrounding white space
      stripped. */
  function ChooseKey(explicit: string, saved: Option<string>): (r: (string, Option<string>))
    ensures explicit != "" ==> r == (explicit, Some(explicit))
    ensures explicit == "" && saved.Some? ==> r == (Strip(ReadText(saved.value)), saved)
    ensures explicit == "" && saved.None? ==> r == ("", None)
  {
    if explicit != "" then (explicit, Some(explicit))
    else if saved.Some? then (Strip(ReadText(saved.value)), saved)
    else ("", None)
  }

  /** The format and tier check on a chosen key, in the source's order:
      no key, no `CLOUVEL-` prefix, fewer than three `-`-separated parts,
      a second part that is no tier once lower-cased. */
  function CheckKey(key: string): (r: LicenseVerdict)
    ensures key == "" ==> r == Invalid(NoKey)
    ensures key != "" && !(KeyPrefix <= key) ==> r == Invalid(BadFormat)
    ensures r.Valid? ==> r.tier in Tiers && KeyPrefix <= key
  {
    if key == "" then Invalid(NoKey)
    else if !(KeyPrefix <= key) then Invalid(BadFormat)
    else
      var parts := Split(key, '-');
      if |parts| < 3 then Invalid(BadFormat)
      else if Lower(parts[1]) !in Tiers then Invalid(UnknownTier)
      else Valid(Lower(parts[1]))
  }

  /** `verify_license`: the verdict, and the license file afterwards. */
  function VerifyLicense(explicit: string, saved: Option<string>): (r: (LicenseVerdict, Option<string>))
    ensures explicit != "" ==> r == (CheckKey(explicit), Some(explicit))
    ensures explicit == "" ==> r.1 == saved
    ensures explicit == "" && saved.None? ==> r.0 == Invalid(NoKey)
  {
    var (key, after) := ChooseKey(explicit, saved);
    (CheckKey(key), after)
  }

  /** A later call without a key, as `install_shovel` makes, checks what the
      file an explicit key left reads back as: the key stripped, not the key. */
  lemma SavedKeyReadBack(key: string, saved: Option<string>)
    requires key != ""
    ensures var after := VerifyLicense(key, saved).1;
            VerifyLicense("", after) == (CheckKey(Strip(ReadText(key))), Some(key))
  {
  }

  /** A key that reading and stripping leave as it is gets the same verdict
      when it is read back from the file. */
  lemma CleanKeySettles(key: string, saved: Option<string>)
    requires key != "" && Strip(ReadText(key)) == key
    ensures var first := VerifyLicense(key, saved);
            VerifyLicense("", first.1) == first
  {
    SavedKeyReadBack(key, saved);
  }

  /** So the two calls can disagree: a padded key is refused when it is given,
      and accepted once it is read back from the file it was saved to. */
  lemma PaddedKeyAcceptedLater()
    ensures VerifyLicense(" CLOUVEL-team-x", None) == (Invalid(BadFormat), Some(" CLOUVEL-team-x"))
    ensures VerifyLicense("", Some(" CLOUVEL-team-x")).0 == Valid("team")
  {
    assert " CLOUVEL-team-x"[0] != KeyPrefix[0];
    PaddedKeyStrips();
    TeamKeyValid();
  }

  lemma PaddedKeyStrips()
    ensures Strip(ReadText(" CLOUVEL-team-x")) == "CLOUVEL-team-x"
  {
    var key := "CLOUVEL-team-x";
    var padded := " CLOUVEL-team-x";
    assert '\r' !in padded;
    assert RStrip(padded) == padded by {
      assert padded[|padded| - 1] == 'x';
    }
    assert padded[1..] == key;
    assert LStrip(padded) == LStrip(key);
    StripKeeps("CLOUVEL-team-", "x");
    assert key == "CLOUVEL-team-" + "x";
    assert RStrip(key) == key;
  }

  lemma TeamKeyValid()
    ensures CheckKey("CLOUVEL-team-x") == Valid("team")
  {
    assert Lower("team") == "team";
    ShapedKeyValid("team", "x");
    assert KeyPrefix + "team" + "-" + "x" == "CLOUVEL-team-x";
  }

  /** How a key that starts with the prefix splits: the prefix's word, then
      the parts of the remainder. */
  lemma SplitPrefixed(rest: string)
    ensures Split(KeyPrefix + rest, '-') == ["CLOUVEL"] + Split(rest, '-')
  {
    assert KeyPrefix + rest == "CLOUVEL" + ['-'] + rest;
    SplitAtSep("CLOUVEL", '-', rest);
    SplitNoSep("CLOUVEL", '-');
  }

  /** The keys `CheckKey` accepts are exactly `CLOUVEL-` + a tier word in any
      letter case + `-` + anything: here, such a key is accepted with that
      tier ... */
  lemma ShapedKeyValid(word: string, tail: string)
    requires '-' !in word && Lower(word) in Tiers
    ensures CheckKey(KeyPrefix + word + "-" + tail) == Valid(Lower(word))
  {
    var key := KeyPrefix + word + "-" + tail;
    assert key == KeyPrefix + (word + ['-'] + tail);
    SplitPrefixed(word + ['-'] + tail);
    SplitAtSep(word, '-', tail);
    SplitNoSep(word, '-');
    assert Split(key, '-') == ["CLOUVEL", word] + Split(tail, '-');
  }

  /** ... and every accepted key has that shape, its tier being the word
      lower-cased. */
  lemma ValidKeyShape(key: string) returns (word: string, tail: string)
    requires CheckKey(key).Valid?
    ensures '-' !in word && key == KeyPrefix + word + "-" + tail
    ensures CheckKey(key).tier == Lower(word)
  {
    var rest := key[|KeyPrefix|..];
    assert key == KeyPrefix + rest;
    SplitPrefixed(rest);
    var ps := Split(rest, '-');
    assert |ps| >= 2;
    word, tail := ps[0], Join(ps[1..], '-');
    assert ps == [ps[0]] + ps[1..];
    JoinAppend([ps[0]], ps[1..], '-');
    assert rest == word + "-" + tail;
  }

  /** A prefixed key with a single further part is malformed. */
  lemma TwoPartKeyMalformed(word: string)
    requires '-' !in word
    ensures CheckKey(KeyPrefix + word) == Invalid(BadFormat)
  {
    SplitPrefixed(word);
    SplitNoSep(word, '-');
  }

  /** A well-formed key whose second part names no tier is refused as such. */
  lemma UnknownTierRefused(word: string, tail: string)
    requires '-' !in word && Lower(word) !in Tiers
    ensures CheckKey(KeyPrefix + word + "-" + tail) == Invalid(UnknownTier)
  {
    var key := KeyPrefix + word + "-" + tail;
    assert key == KeyPrefix + (word + ['-'] + tail);
    SplitPrefixed(word + ['-'] + tail);
    SplitAtSep(word, '-', tail);
    SplitNoSep(word, '-');
    assert Split(key, '-') == ["CLOUVEL", word] + Split(tail, '-');
  }

  /** The third part is never looked at: `CLOUVEL-Team-` passes as a team key. */
  lemma EmptyTailAccepted()
    ensures CheckKey("CLOUVEL-Team-") == Valid("team")
  {
    assert Lower("Team") == "team";
    ShapedKeyValid("Team", "");
    assert KeyPrefix + "Team" + "-" + "" == "CLOUVEL-Team-";
  }

  /** An explicit key is saved even when it is turned down. */
  lemma RefusedKeyStillSaved(explicit: string, saved: Option<string>)
    requires explicit != "" && !(KeyPrefix <= explicit)
    ensures VerifyLicense(explicit, saved) == (Invalid(BadFormat), Some(explicit))
  {
  }

  // ---------------------------------------------------------------------
  // install_shovel and sync_commands
  // ---------------------------------------------------------------------

  /** A project directory: its sub-directories and its files, by relative path. */
  datatype Tree = Tree(dirs: set<string>, files: map<string, string>)

  /** The directories the installer makes. */
  const ShovelDirs: set<string> :=
    {".claude", ".claude/commands", ".claude/templates", ".claude/evidence", ".claude/logs",
     ".claude/plans", "scripts"}

  const ErrorLogPath: string := "ERROR_LOG.md"
  const ErrorLogText: string := "# ERROR_LOG\n\n> 에러 발생 시 자동 기록\n\n---\n\n"

  /** What `install_shovel` reports: the refusal, or the tier and whether it
      created `ERROR_LOG.md`. */
  datatype InstallReply = Refused(why: Why) | Installed(tier: string, errorLogCreated: bool)

  datatype Install = Install(tree: Tree, license: Option<string>, reply: InstallReply)

  /** `install_shovel`. `fixed` is what the installer writes unconditionally
      (none of it is `ERROR_LOG.md`); `ERROR_LOG.md` is written only where
      nothing of that name exists, neither a file nor a directory. */
  function InstallShovel(t: Tree, explicit: string, saved: Option<string>, fixed: map<string, string>): (r: Install)
    requires ErrorLogPath !in fixed
    ensures r.license == VerifyLicense(explicit, saved).1
    ensures !VerifyLicense(explicit, saved).0.Valid? <==> r.reply.Refused?
    ensures r.reply.Refused? ==> r.tree == t && r.reply.why == VerifyLicense(explicit, saved).0.why
    ensures r.reply.Installed? ==>
      && r.reply.tier in Tiers
      && r.reply.tier == VerifyLicense(explicit, saved).0.tier
      && r.tree.files.Keys == t.files.Keys + fixed.Keys + (if r.reply.errorLogCreated then {ErrorLogPath} else {})
      && r.tree.dirs == t.dirs + ShovelDirs
      && (forall path | path in fixed :: path in r.tree.files && r.tree.files[path] == fixed[path])
      && (r.reply.errorLogCreated <==> ErrorLogPath !in t.files && ErrorLogPath !in t.dirs)
      && (ErrorLogPath in t.files ==> ErrorLogPath in r.tree.files && r.tree.files[ErrorLogPath] == t.files[ErrorLogPath])
      && (r.reply.errorLogCreated ==> ErrorLogPath in r.tree.files && r.tree.files[ErrorLogPath] == ErrorLogText)
      && (ErrorLogPath !in t.files && ErrorLogPath in t.dirs ==> ErrorLogPath !in r.tree.files)
      && (forall path | path in t.files && path !in fixed && path != ErrorLogPath ::
            path in r.tree.files && r.tree.files[path] == t.files[path])
  {
    var (verdict, license) := VerifyLicense(explicit, saved);
    match verdict
    case Invalid(why) => Install(t, license, Refused(why))
    case Valid(tier) =>
      var written := t.files + fixed;
      var absent := ErrorLogPath !in written && ErrorLogPath !in t.dirs + ShovelDirs;
      var files := if absent then written[ErrorLogPath := ErrorLogText] else written;
      Install(Tree(t.dirs + ShovelDirs, files), license, Installed(tier, absent))
  }

  /** Installing again, with whatever key is then accepted, never touches the
      error log the first install left and reports that it created none. */
  lemma ReinstallKeepsErrorLog(t: Tree, explicit: string, saved: Option<string>,
                               explicit2: string, fixed: map<string, string>)
    requires ErrorLogPath !in fixed
    requires InstallShovel(t, explicit, saved, fixed).reply.Installed?
    requires var first := InstallShovel(t, explicit, saved, fixed);
             InstallShovel(first.tree, explicit2, first.license, fixed).reply.Installed?
    ensures var first := InstallShovel(t, explicit, saved, fixed);
            var second := InstallShovel(first.tree, explicit2, first.license, fixed);
            && !second.reply.errorLogCreated
            && second.tree == first.tree
  {
    var first := InstallShovel(t, explicit, saved, fixed);
    assert first.tree.files + fixed == first.tree.files;
  }

  /** The heading `sync_commands` looks for, and the section it appends. */
  const IntegrationHeading: string := "## Clouvel Pro 통합"
  const IntegrationBody: string := BodyIntro + BodyLinks + BodyHints + BodyFlow + BodyRoles
  const BodyIntro: string := "\n\n> MCP 도구와 Shovel 커맨드 자동 연동\n\n### 자동 연동\n"
  const BodyLinks: string := LinkCanCode + LinkGate
  const LinkCanCode: string := "- `can_code` 실패 시 → 코딩 차단\n"
  const LinkGate: string := "- `gate` 호출 시 → `/gate` 실행\n"
  const BodyHints: string := HintVerify + HintFinding
  const HintVerify: string := "- `verify` 호출 시 → `/clear` + `/verify` 권장\n"
  const HintFinding: string := "- `save_finding` → 2-Action Rule 자동 적용\n\n"
  const BodyFlow: string := FlowHeading + FlowStart + FlowEnd
  const FlowHeading: string := "### 워크플로우 (통합)\n```\n"
  const FlowStart: string := "can_code → /plan → /implement"
  const FlowEnd: string := " → gate → handoff → verify\n"
  const BodyRoles: string := RolesStart + RolesEnd
  const RolesStart: string := "   MCP      Shovel    Shovel"
  const RolesEnd: string := "     MCP    MCP      MCP\n```\n"

  /** The appended section: a blank line, then the heading on a line of its
      own, then the body; it has no `\r`, so reading it back keeps it. */
  function IntegrationSection(): (r: string)
    ensures "\n\n" + IntegrationHeading + "\n\n" <= r
    ensures '\r' !in r
  {
    BodyLacksReturn();
    assert "\n\n" <= BodyIntro;
    "\n\n" + IntegrationHeading + IntegrationBody
  }

  const ClaudeMd: string := "CLAUDE.md"

  datatype SyncReply = NoClaudeDir | Synced

  /** Whether something of this name exists, file or directory. */
  predicate PathExists(t: Tree, path: string) {
    path in t.dirs || path in t.files
  }

  /** `sync_commands`: without `.claude` nothing happens; otherwise an
      existing `CLAUDE.md`, read in text mode, gets the integration section
      appended unless it already holds the heading. */
  function SyncCommands(t: Tree): (r: (Tree, SyncReply))
    ensures !PathExists(t, ".claude") ==> r == (t, NoClaudeDir)
    ensures PathExists(t, ".claude") ==> r.1 == Synced
    ensures r.0.dirs == t.dirs && r.0.files.Keys == t.files.Keys
    ensures forall path | path in t.files && path != ClaudeMd :: r.0.files[path] == t.files[path]
    ensures ClaudeMd in t.files && PathExists(t, ".claude") && !Contains(ReadText(t.files[ClaudeMd]), IntegrationHeading) ==>
      && ReadText(t.files[ClaudeMd]) <= r.0.files[ClaudeMd]
      && ('\r' !in t.files[ClaudeMd] ==> t.files[ClaudeMd] <= r.0.files[ClaudeMd])
      && Contains(r.0.files[ClaudeMd], IntegrationHeading)
    ensures ClaudeMd in t.files && Contains(ReadText(t.files[ClaudeMd]), IntegrationHeading) ==> r.0 == t
  {
    if !PathExists(t, ".claude") then (t, NoClaudeDir)
    else if ClaudeMd in t.files && !Contains(ReadText(t.files[ClaudeMd]), IntegrationHeading) then
      var content := ReadText(t.files[ClaudeMd]);
      SectionHasHeading(content);
      (t.(files := t.files[ClaudeMd := content + IntegrationSection()]), Synced)
    else (t, Synced)
  }

  /** The appended section carries the heading, so the file does afterwards. */
  lemma SectionHasHeading(content: string)
    ensures Contains(content + IntegrationSection(), IntegrationHeading)
  {
    var s := IntegrationSection();
    assert IntegrationHeading <= s[2..];
    ContainsInSuffix(content, s, IntegrationHeading);
  }

  /** The heading and body have no `\r`. */
  lemma BodyLacksReturn()
    ensures '\r' !in IntegrationHeading && '\r' !in IntegrationBody
  {
    assert '\r' !in IntegrationHeading;
    IntroLacksReturn();
    LinksLacksReturn();
    HintsLacksReturn();
    FlowLacksReturn();
    RolesLacksReturn();
  }

  lemma IntroLacksReturn() ensures '\r' !in BodyIntro {}
  lemma LinksLacksReturn() ensures '\r' !in BodyLinks {
    assert '\r' !in LinkCanCode;
    assert '\r' !in LinkGate;
  }
  lemma HintsLacksReturn() ensures '\r' !in BodyHints {
    HintVerifyLacksReturn();
    HintFindingLacksReturn();
  }
  lemma HintVerifyLacksReturn() ensures '\r' !in HintVerify {}
  lemma HintFindingLacksReturn() ensures '\r' !in HintFinding {}
  lemma FlowLacksReturn() ensures '\r' !in BodyFlow {
    assert '\r' !in FlowHeading;
    assert '\r' !in FlowStart;
    assert '\r' !in FlowEnd;
  }
  lemma RolesLacksReturn() ensures '\r' !in BodyRoles {
    assert '\r' !in RolesStart;
    assert '\r' !in RolesEnd;
  }

  /** A second `sync_commands` changes nothing: the file the first one wrote
      reads back as written, heading included. */
  lemma SyncIdempotent(t: Tree)
    ensures SyncCommands(SyncCommands(t).0) == (SyncCommands(t).0, SyncCommands(t).1)
  {
    if PathExists(t, ".claude") && ClaudeMd in t.files && !Contains(ReadText(t.files[ClaudeMd]), IntegrationHeading) {
      var content := ReadText(t.files[ClaudeMd]);
      ReadTextAfterClean(content, IntegrationSection());
      SectionHasHeading(content);
    }
  }
}
