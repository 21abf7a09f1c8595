/**
 The handful of Python `str` operations the tools rely on, over `string`
 (a sequence of Unicode scalar values): `isspace`, `strip`, ASCII `lower`,
 substring search (`sub in s`), `split(sep)` and `sep.join(parts)`, and
 the newline translation of reading a file in text mode.
 */
module Text {

  /** Python's `str.isspace()` for one character. */
  predicate IsSpace(c: char) {
    || ('\t' <= c <= '\r')
    || ('\U{1C}' <= c <= ' ')
    || c == '\U{85}' || c == '\U{A0}' || c == '\U{1680}'
    || ('\U{2000}' <= c <= '\U{200A}')
    || c == '\U{2028}' || c == '\U{2029}' || c == '\U{202F}' || c == '\U{205F}'
    || c == '\U{3000}'
  }

  /** Python's `s.rstrip()`: drop the longest all-space suffix. */
  function RStrip(s: string): string
    decreases |s|
  {
    if s != [] && IsSpace(s[|s| - 1]) then RStrip(s[..|s| - 1]) else s
  }

  /** `rstrip()` keeps a prefix, ends in a non-space, and drops only spaces. */
  lemma {:induction false} RStripFacts(s: string)
    ensures RStrip(s) <= s
    ensures RStrip(s) == [] || !IsSpace(RStrip(s)[|RStrip(s)| - 1])
    ensures forall i | |RStrip(s)| <= i < |s| :: IsSpace(s[i])
    decreases |s|
  {
    if s != [] && IsSpace(s[|s| - 1]) {
      RStripFacts(s[..|s| - 1]);
    }
  }

  /** Python's `s.lstrip()`: drop the longest all-space prefix. */
  function LStrip(s: string): string
    decreases |s|
  {
    if s != [] && IsSpace(s[0]) then LStrip(s[1..]) else s
  }

  /** `lstrip()` keeps a suffix, starts with a non-space, and drops only spaces. */
  lemma {:induction false} LStripFacts(s: string)
    ensures |LStrip(s)| <= |s| && LStrip(s) == s[|s| - |LStrip(s)|..]
    ensures LStrip(s) == [] || !IsSpace(LStrip(s)[0])
    ensures forall i | 0 <= i < |s| - |LStrip(s)| :: IsSpace(s[i])
    decreases |s|
  {
    if s != [] && IsSpace(s[0]) {
      LStripFacts(s[1..]);
      assert s[1..][|s| - 1 - |LStrip(s)|..] == s[|s| - |LStrip(s)|..];
    }
  }

  /** Python's `s.strip()`. */
  function Strip(s: string): string {
    LStrip(RStrip(s))
  }

  /** A string that `strip()` leaves as it is ends in a non-space character. */
  predicate RightTrimmed(s: string) {
    s != [] && !IsSpace(s[|s| - 1])
  }

  /** Stripping `lead + s`, where `lead` starts with a non-space and `s` is
      right-trimmed, changes nothing. */
  lemma StripKeeps(lead: string, s: string)
    requires lead != [] && !IsSpace(lead[0])
    requires RightTrimmed(s)
    ensures Strip(lead + s) == lead + s
  {
    var t := lead + s;
    assert t[|t| - 1] == s[|s| - 1];
    assert RStrip(t) == t;
    assert t[0] == lead[0];
  }

  /** Stripping `lead + s` never eats into `lead` when `lead` starts and
      ends with non-space characters. */
  lemma StripKeepsLead(lead: string, s: string)
    requires lead != [] && !IsSpace(lead[0]) && !IsSpace(lead[|lead| - 1])
    ensures lead <= Strip(lead + s)
  {
    var t := lead + s;
    var r := RStrip(t);
    RStripFacts(t);
    assert !IsSpace(t[|lead| - 1]);
    assert |r| >= |lead|;
    assert r[..|lead|] == lead by {
      assert r[..|lead|] == t[..|lead|];
    }
    assert r[0] == lead[0];
    assert LStrip(r) == r;
  }

  /** `strip()` returns a stretch of its argument. */
  lemma StripSlice(s: string) returns (a: nat, b: nat)
    ensures a <= b <= |s| && Strip(s) == s[a..b]
  {
    var r := RStrip(s);
    RStripFacts(s);
    LStripFacts(r);
    b := |r|;
    a := |r| - |LStrip(r)|;
    assert r == s[..b];
  }

  /** What `strip()` returns ends in a non-space character, if anything. */
  lemma StripEndsTrimmed(s: string)
    ensures Strip(s) == [] || RightTrimmed(Strip(s))
  {
    var r := RStrip(s);
    var l := LStrip(r);
    RStripFacts(s);
    LStripFacts(r);
    if l != [] {
      assert l[|l| - 1] == r[|r| - 1];
    }
  }

  /** ASCII lower-casing of one character. */
  function LowerChar(c: char): char {
    if 'A' <= c <= 'Z' then (c as int + 32) as char else c
  }

  /** ASCII lower-casing, standing in for Python's `str.lower()`. */
  function Lower(s: string): (r: string)
    ensures |r| == |s|
  {
    seq(|s|, i requires 0 <= i < |s| => LowerChar(s[i]))
  }

  /** Python's `sub in s`. */
  predicate Contains(s: string, sub: string) {
    exists i | 0 <= i <= |s| :: sub <= s[i..]
  }

  /** Every character of an occurring `sub` occurs in `s`. */
  lemma ContainsHasChars(s: string, sub: string)
    ensures Contains(s, sub) ==> forall c | c in sub :: c in s
  {
    if Contains(s, sub) {
      var i :| 0 <= i <= |s| && sub <= s[i..];
      forall c | c in sub
        ensures c in s
      {
        var k :| 0 <= k < |sub| && sub[k] == c;
        assert s[i..][k] == c;
      }
    }
  }

  /** A character missing from `s` rules out every `sub` that holds it. */
  lemma MissingCharExcludes(s: string, sub: string, c: char)
    requires c in sub && c !in s
    ensures !Contains(s, sub)
  {
    ContainsHasChars(s, sub);
  }

  lemma ContainsInPrefix(a: string, b: string, sub: string)
    ensures Contains(a, sub) ==> Contains(a + b, sub)
  {
    if Contains(a, sub) {
      var i :| 0 <= i <= |a| && sub <= a[i..];
      assert (a + b)[i..][..|sub|] == a[i..][..|sub|];
    }
  }

  lemma ContainsInSuffix(a: string, b: string, sub: string)
    ensures Contains(b, sub) ==> Contains(a + b, sub)
  {
    if Contains(b, sub) {
      var i :| 0 <= i <= |b| && sub <= b[i..];
      assert (a + b)[|a| + i..] == b[i..];
    }
  }

  /** An occurrence inside a stretch of `s` is an occurrence in `s`. */
  lemma ContainsInSlice(s: string, i: nat, j: nat, sub: string)
    requires i <= j <= |s|
    ensures Contains(s[i..j], sub) ==> Contains(s, sub)
  {
    ContainsInPrefix(s[i..j], s[j..], sub);
    ContainsInSuffix(s[..i], s[i..j] + s[j..], sub);
    assert s[..i] + (s[i..j] + s[j..]) == s;
    assert s[i..j] + s[j..] == s[i..];
  }

  /** An occurrence of `sub` in `a + b` lies in `b` when the first character
      of `sub` never occurs in `a`. */
  lemma ContainsPastLead(a: string, b: string, sub: string)
    requires sub != [] && sub[0] !in a
    ensures Contains(a + b, sub) ==> Contains(b, sub)
  {
    var s := a + b;
    if Contains(s, sub) {
      var i :| 0 <= i <= |s| && sub <= s[i..];
      assert s[i..][0] == sub[0];
      assert i >= |a|;
      assert s[i..] == b[i - |a|..];
    }
  }

  /** An occurrence of a separator-free `sub` in `a + [sep] + b` lies in `a`
      or in `b`. */
  lemma ContainsAcrossSep(a: string, sep: char, b: string, sub: string)
    requires sep !in sub
    ensures Contains(a + [sep] + b, sub) ==> Contains(a, sub) || Contains(b, sub)
  {
    var s := a + [sep] + b;
    if Contains(s, sub) {
      var i :| 0 <= i <= |s| && sub <= s[i..];
      assert s[|a|] == sep;
      assert forall j | i <= j < i + |sub| :: s[j] == sub[j - i];
      if i + |sub| <= |a| {
        assert a[i..][..|sub|] == s[i..][..|sub|];
      } else {
        assert i > |a|;
        assert s[i..] == b[i - |a| - 1..];
      }
    }
  }

  /** Python's `sep.join(parts)`. */
  function Join(parts: seq<string>, sep: char): string {
    if |parts| == 0 then ""
    else if |parts| == 1 then parts[0]
    else parts[0] + [sep] + Join(parts[1..], sep)
  }

  /** Python's `s.split(sep)`, one character at a time: the pieces contain no
      separator and joining them back gives `s`. */
  function Split(s: string, sep: char): (parts: seq<string>)
    ensures |parts| > 0
    ensures forall k | 0 <= k < |parts| :: sep !in parts[k]
    ensures Join(parts, sep) == s
    decreases |s|
  {
    if s == [] then [""]
    else
      var rest := Split(s[1..], sep);
      if s[0] == sep then
        assert [s[0]] + s[1..] == s;
        [""] + rest
      else
        var first := [s[0]] + rest[0];
        assert [s[0]] + s[1..] == s;
        assert ([first] + rest[1..])[1..] == rest[1..];
        [first] + rest[1..]
  }

  /** Joining two non-empty lists is joining their joins. */
  lemma {:induction false} JoinAppend(a: seq<string>, b: seq<string>, sep: char)
    requires a != [] && b != []
    ensures Join(a + b, sep) == Join(a, sep) + [sep] + Join(b, sep)
    decreases |a|
  {
    if |a| == 1 {
      assert (a + b)[1..] == b;
    } else {
      assert (a + b)[1..] == a[1..] + b;
      JoinAppend(a[1..], b, sep);
    }
  }

  /** Putting the join of `b` in one slot is the same as splicing `b` in:
      an f-string slot filled by `"\n".join(...)` adds lines. */
  lemma JoinSplice(a: seq<string>, b: seq<string>, c: seq<string>, sep: char)
    requires a != [] && b != [] && c != []
    ensures Join(a + [Join(b, sep)] + c, sep) == Join(a + b + c, sep)
  {
    JoinAppend(a + [Join(b, sep)], c, sep);
    JoinAppend(a, [Join(b, sep)], sep);
    JoinAppend(a + b, c, sep);
    JoinAppend(a, b, sep);
  }

  /** Splitting at a separator splits each side independently. */
  lemma {:induction false} SplitAtSep(a: string, sep: char, b: string)
    ensures Split(a + [sep] + b, sep) == Split(a, sep) + Split(b, sep)
    decreases |a|
  {
    if a == [] {
      assert a + [sep] + b == [sep] + b;
      assert ([sep] + b)[1..] == b;
    } else {
      var s := a + [sep] + b;
      assert s[1..] == a[1..] + [sep] + b;
      SplitAtSep(a[1..], sep, b);
    }
  }

  /** A string without a separator is a single piece. */
  lemma {:induction false} SplitNoSep(s: string, sep: char)
    requires sep !in s
    ensures Split(s, sep) == [s]
    decreases |s|
  {
    if s != [] {
      SplitNoSep(s[1..], sep);
    }
  }

  /** Splitting a join of separator-free pieces gives the pieces back. */
  lemma {:induction false} SplitJoin(parts: seq<string>, sep: char)
    requires parts != []
    requires forall k | 0 <= k < |parts| :: sep !in parts[k]
    ensures Split(Join(parts, sep), sep) == parts
    decreases |parts|
  {
    if |parts| == 1 {
      SplitNoSep(parts[0], sep);
    } else {
      SplitAtSep(parts[0], sep, Join(parts[1..], sep));
      SplitNoSep(parts[0], sep);
      SplitJoin(parts[1..], sep);
    }
  }

  /** An occurrence inside one piece is an occurrence inside the join. */
  lemma {:induction false} ContainsInPiece(parts: seq<string>, sep: char, sub: string, k: nat)
    requires k < |parts|
    ensures Contains(parts[k], sub) ==> Contains(Join(parts, sep), sub)
    decreases |parts|
  {
    if |parts| > 1 {
      var rest := Join(parts[1..], sep);
      assert Join(parts, sep) == parts[0] + ([sep] + rest);
      if k == 0 {
        ContainsInPrefix(parts[0], [sep] + rest, sub);
      } else {
        ContainsInPiece(parts[1..], sep, sub, k - 1);
        assert parts[1..][k - 1] == parts[k];
        ContainsInSuffix(parts[0] + [sep], rest, sub);
        assert parts[0] + [sep] + rest == parts[0] + ([sep] + rest);
      }
    }
  }

  /** A separator-free `sub` occurs in a join only if it occurs in a piece. */
  lemma {:induction false} JoinAvoids(parts: seq<string>, sep: char, sub: string)
    requires sep !in sub && sub != []
    requires forall k | 0 <= k < |parts| :: !Contains(parts[k], sub)
    ensures !Contains(Join(parts, sep), sub)
    decreases |parts|
  {
    if |parts| > 1 {
      JoinAvoids(parts[1..], sep, sub);
      ContainsAcrossSep(parts[0], sep, Join(parts[1..], sep), sub);
    }
  }

  /** The pieces of a string without `sub` are free of `sub` too. */
  lemma SplitAvoids(s: string, sep: char, sub: string)
    requires !Contains(s, sub)
    ensures forall k | 0 <= k < |Split(s, sep)| :: !Contains(Split(s, sep)[k], sub)
  {
    var parts := Split(s, sep);
    forall k | 0 <= k < |parts|
      ensures !Contains(parts[k], sub)
    {
      ContainsInPiece(parts, sep, sub, k);
    }
  }

  /** A character-free list joins to a character-free string. */
  lemma {:induction false} JoinLacks(parts: seq<string>, sep: char, c: char)
    requires c != sep
    requires forall k | 0 <= k < |parts| :: c !in parts[k]
    ensures c !in Join(parts, sep)
    decreases |parts|
  {
    if |parts| > 1 {
      JoinLacks(parts[1..], sep, c);
    }
  }

  /** The pieces of a character-free string are character-free. */
  lemma SplitLacks(s: string, sep: char, c: char)
    requires c !in s
    ensures forall k | 0 <= k < |Split(s, sep)| :: c !in Split(s, sep)[k]
  {
    var parts := Split(s, sep);
    forall k | 0 <= k < |parts|
      ensures c !in parts[k]
    {
      ContainsHasChars(s, [c]);
      ContainsInPiece(parts, sep, [c], k);
    }
  }

  // ---------------------------------------------------------------------
  // Reading a file in text mode
  // ---------------------------------------------------------------------

  /** A string on one line, as a file read in text mode sees it: no `\n`
      and no `\r`. */
  predicate OneLine(s: string) {
    '\n' !in s && '\r' !in s
  }

  /** `Path.read_text` with universal newlines: `\r\n` and a lone `\r`
      both come back as `\n`. Nothing else changes, so a text without `\r`
      comes back as it was written. */
  function ReadText(s: string): (r: string)
    ensures '\r' !in r
    ensures |r| <= |s|
    ensures '\r' !in s ==> r == s
    decreases |s|
  {
    if s == [] then []
    else if s[0] == '\r' then
      if |s| > 1 && s[1] == '\n' then "\n" + ReadText(s[2..]) else "\n" + ReadText(s[1..])
    else
      assert [s[0]] + s[1..] == s;
      [s[0]] + ReadText(s[1..])
  }

  /** Reading back what was read changes nothing. */
  lemma ReadTextIdempotent(s: string)
    ensures ReadText(ReadText(s)) == ReadText(s)
  {
  }

  /** A `\r`-free start is read as it is, and the rest is read on its own. */
  lemma {:induction false} ReadTextAfterClean(a: string, b: string)
    requires '\r' !in a
    ensures ReadText(a + b) == a + ReadText(b)
    decreases |a|
  {
    if a != [] {
      var s := a + b;
      assert s[0] == a[0] && s[1..] == a[1..] + b;
      assert ReadText(s) == [a[0]] + ReadText(a[1..] + b);
      ReadTextAfterClean(a[1..], b);
      assert [a[0]] + (a[1..] + ReadText(b)) == a + ReadText(b);
    } else {
      assert a + b == b;
    }
  }

  /** Both a lone `\r` and `\r\n` end a line. */
  lemma ReturnEndsLine(a: string, b: string)
    requires '\r' !in a && '\r' !in b && (b == [] || b[0] != '\n')
    ensures ReadText(a + "\r" + b) == a + "\n" + b
    ensures ReadText(a + "\r\n" + b) == a + "\n" + b
  {
    var lone, pair := "\r" + b, "\r\n" + b;
    assert lone[0] == '\r' && lone[1..] == b;
    assert ReadText(lone) == "\n" + b;
    assert pair[0] == '\r' && pair[1] == '\n' && pair[2..] == b;
    assert ReadText(pair) == "\n" + b;
    assert a + "\r" + b == a + lone;
    assert a + "\r\n" + b == a + pair;
    ReadTextAfterClean(a, lone);
    ReadTextAfterClean(a, pair);
  }
}
