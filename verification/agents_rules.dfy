/** Appending the rules section to AGENTS.md, and removing it again. */
module AgentsRules {
  import opened Wrappers
  import opened TextLines

  predicate OccursAt(s: string, pat: string, i: nat) {
    i + |pat| <= |s| && s[i..i + |pat|] == pat
  }

  /** `indexOf`: the first occurrence at or after `from`. */
  function IndexOf(s: string, pat: string, from: nat): (r: Option<nat>)
    ensures r.Some? ==> from <= r.value && OccursAt(s, pat, r.value)
    ensures forall i :: from <= i && (r.Some? ==> i < r.value) ==> !OccursAt(s, pat, i)
    decreases |s| - from
  {
    if from + |pat| > |s| then None
    else if OccursAt(s, pat, from) then Some(from)
    else if from == |s| then None
    else IndexOf(s, pat, from + 1)
  }

  const TITLE: string := "SysKnife MCP rules"

  const HEADING: string := NEXT_HEADING + TITLE + "\n"

  const NEXT_HEADING: string := "\n## "

  predicate EndsWithNewline(s: string) {
    s != "" && s[|s| - 1] == '\n'
  }

  /** No three newlines in a row, and one at the end. */
  function Tidied(text: string): string {
    var t := Collapse(text);
    if EndsWithNewline(t) then t else t + "\n"
  }

  /** What removal writes, or nothing when the section is not there. */
  function Removed(original: string): Option<string> {
    match IndexOf(original, HEADING, 0)
    case None => None
    case Some(start) =>
      var next := IndexOf(original, NEXT_HEADING, start + 2);
      var end := if next.Some? then next.value else |original|;
      Some(Tidied(original[..start] + (if end <= |original| then original[end..] else "")))
  }

  /** The file after the wizard's step. */
  function Installed(content: Option<string>, block: string): string {
    match content
    case None => "# Project instructions" + block
    case Some(existing) => if IndexOf(existing, TITLE, 0).Some? then existing else existing + block
  }

  class RulesFile {
    var content: Option<string>

    constructor (content: Option<string>)
      ensures this.content == content
    {
      this.content := content;
    }

    /** The AGENTS.md step of the wizard. */
    method Install(block: string) returns (written: bool)
      modifies this
      ensures written <==> old(content).None? || IndexOf(old(content).value, TITLE, 0).None?
      ensures content == match old(content)
        case None => Some("# Project instructions" + block)
        case Some(existing) => if written then Some(existing + block) else old(content)
      ensures content == Some(Installed(old(content), block))
    {
      hide IndexOf;
      if content.Some? {
        if IndexOf(content.value, TITLE, 0).Some? {
          return false;
        }
        content := Some(content.value + block);
      } else {
        content := Some("# Project instructions" + block);
      }
      written := true;
    }

    /** `removeAgentsBlock`. */
    method RemoveBlock() returns (changed: bool)
      modifies this
      ensures changed <==> old(content).Some? && Removed(old(content).value).Some?
      ensures content == if changed then Removed(old(content).value) else old(content)
    {
      hide IndexOf, Collapse;
      if content.None? {
        return false;
      }
      var original := content.value;
      var start := IndexOf(original, HEADING, 0);
      if start.None? {
        return false;
      }
      var nextHeading := IndexOf(original, NEXT_HEADING, start.value + 2);
      var end := if nextHeading.None? then |original| else nextHeading.value;
      var next := Collapse(original[..start.value] + original[end..]);
      content := Some(if EndsWithNewline(next) then next else next + "\n");
      changed := true;
    }
  }

  // ----- removing what was installed -----

  /** The installed section: the heading line, then text without another heading. */
  ghost predicate IsSection(block: string) {
    OccursAt(block, HEADING, 0) && IndexOf(block, NEXT_HEADING, 2) == None
  }

  lemma {:induction false} OccursIn(a: string, b: string, pat: string, i: nat)
    ensures OccursAt(a + b, pat, |a| + i) <==> OccursAt(b, pat, i)
  {
    if i + |pat| <= |b| {
      assert (a + b)[|a| + i..|a| + i + |pat|] == b[i..i + |pat|];
    }
  }

  lemma {:induction false} Middle(a: string, b: string, c: string)
    ensures (a + b + c)[|a|..|a| + |b|] == b
  {
  }

  lemma {:induction false} SliceInSlice(s: string, i: nat, n: nat, a: nat, b: nat)
    requires i + n <= |s| && a <= b <= n
    ensures s[i..i + n][a..b] == s[i + a..i + b]
  {
    var x, y := s[i..i + n][a..b], s[i + a..i + b];
    forall k | 0 <= k < b - a ensures x[k] == y[k] {
      assert x[k] == s[i..i + n][a + k] == s[i + a + k];
    }
  }

  lemma {:induction false} TitleInHeading(s: string, i: nat)
    requires OccursAt(s, HEADING, i)
    ensures OccursAt(s, TITLE, i + 4)
  {
    assert |NEXT_HEADING| == 4 && |TITLE| == 18;
    Middle(NEXT_HEADING, TITLE, "\n");
    assert |HEADING| == 23 && HEADING[4..22] == TITLE;
    SliceInSlice(s, i, 23, 4, 22);
    assert s[i..i + 23] == HEADING;
  }

  /** An occurrence of the title is in the file alone, or in the appended section. */
  lemma {:induction false} TitleNotAcross(existing: string, block: string, i: nat)
    requires OccursAt(block, HEADING, 0) && OccursAt(existing + block, TITLE, i)
    requires IndexOf(existing, TITLE, 0) == None
    ensures i >= |existing| + 4
  {
    var s := existing + block;
    FrontChars(block);
    if i + |TITLE| <= |existing| {
      TitleInFront(existing, block, i);
    } else if i < |existing| + 4 {
      // the first four characters of the section do not occur where the title would need them
      TitleChar(s, i, if i <= |existing| then |existing| else i);
    }
  }

  lemma {:induction false} TitleInFront(existing: string, block: string, i: nat)
    requires OccursAt(existing + block, TITLE, i) && i + |TITLE| <= |existing|
    ensures OccursAt(existing, TITLE, i)
  {
    assert (existing + block)[i..i + |TITLE|] == existing[i..i + |TITLE|];
  }

  lemma {:induction false} TitleChar(s: string, i: nat, j: nat)
    requires OccursAt(s, TITLE, i) && i <= j < i + |TITLE|
    ensures s[j] != '\n' && s[j] != '#' && (j == i ==> s[j] != ' ')
  {
    assert s[j] == s[i..i + |TITLE|][j - i] == TITLE[j - i];
    NoBreakInTitle(j - i);
  }

  lemma {:induction false} FrontChars(block: string)
    requires OccursAt(block, HEADING, 0)
    ensures |block| >= 23 && block[0] == '\n' && block[1] == '#' && block[2] == '#' && block[3] == ' '
  {
    assert block[0] == block[0..|HEADING|][0] && block[1] == block[0..|HEADING|][1];
    assert block[2] == block[0..|HEADING|][2] && block[3] == block[0..|HEADING|][3];
  }

  lemma {:induction false} NoBreakInTitle(j: nat)
    requires j < |TITLE|
    ensures TITLE[j] != '\n' && TITLE[j] != '#' && TITLE[0] != ' '
  {
    assert TITLE == ['S','y','s','K','n','i','f','e',' ','M','C','P',' ','r','u','l','e','s'];
  }

  lemma {:induction false} HeadingFound(existing: string, rest: string)
    requires OccursAt(rest, HEADING, 0) && IndexOf(existing, TITLE, 0) == None
    ensures IndexOf(existing + rest, HEADING, 0) == Some(|existing|)
  {
    hide IndexOf;
    var s := existing + rest;
    OccursIn(existing, rest, HEADING, 0);
    var r := IndexOf(s, HEADING, 0);
    assert r.Some?;
    TitleInHeading(s, r.value);
    TitleNotAcross(existing, rest, r.value + 4);
  }

  /** The section is found where it was appended. */
  lemma {:induction false} FoundWhereAppended(existing: string, block: string)
    requires IsSection(block) && IndexOf(existing, TITLE, 0) == None
    ensures IndexOf(existing + block, HEADING, 0) == Some(|existing|)
    ensures IndexOf(existing + block, NEXT_HEADING, |existing| + 2) == None
  {
    hide IndexOf;
    HeadingFound(existing, block);
    var n := IndexOf(existing + block, NEXT_HEADING, |existing| + 2);
    if n.Some? {
      OccursIn(existing, block, NEXT_HEADING, n.value - |existing|);
    }
  }

  /** Running the wizard again leaves the file as it is. */
  lemma {:induction false} InstalledTwice(content: Option<string>, block: string, again: string)
    requires IsSection(block)
    ensures Installed(Some(Installed(content, block)), again) == Installed(content, block)
  {
    hide IndexOf, TITLE, HEADING;
    TitleInHeading(block, 0);
    var front := if content.None? then "# Project instructions" else content.value;
    OccursIn(front, block, TITLE, 4);
  }

  lemma {:induction false} OneNewlineMakesNoTriple(t: string)
    requires !HasTriple(t) && !EndsWithNewline(t)
    ensures !HasTriple(t + "\n")
  {
    if t == "" {
      assert t + "\n" == "\n";
      assert !HasTriple("\n"[1..]);
    } else {
      assert (t + "\n")[1..] == t[1..] + "\n";
      OneNewlineMakesNoTriple(t[1..]);
      assert |t| < 3 ==> (t + "\n")[|t|] == '\n' && (t + "\n")[|t| - 1] != '\n';
    }
  }

  /** What removal leaves never holds three newlines in a row and always ends in one. */
  lemma {:induction false} RemovedIsTidy(original: string)
    requires Removed(original).Some?
    ensures EndsWithNewline(Removed(original).value) && !HasTriple(Removed(original).value)
  {
    hide IndexOf, Collapse, HasTriple;
    var start := IndexOf(original, HEADING, 0).value;
    var next := IndexOf(original, NEXT_HEADING, start + 2);
    var end := if next.Some? then next.value else |original|;
    var text := original[..start] + (if end <= |original| then original[end..] else "");
    CollapseNoTriple(text);
    if !EndsWithNewline(Collapse(text)) {
      OneNewlineMakesNoTriple(Collapse(text));
    }
  }

  /** Uninstalling gives the file back exactly when it ends in a newline and has no three newlines
      in a row. */
  lemma {:induction false} UninstallRestoresIff(existing: string, block: string)
    requires IsSection(block) && IndexOf(existing, TITLE, 0) == None
    ensures Removed(existing + block).Some?
    ensures Removed(existing + block).value == existing <==> EndsWithNewline(existing) && !HasTriple(existing)
  {
    hide IndexOf, Collapse, HasTriple;
    FoundWhereAppended(existing, block);
    var s := existing + block;
    assert s[..|existing|] + s[|s|..] == existing;
    CollapseShorter(existing);
    RemovedIsTidy(s);
  }

  /** Installing and uninstalling, on any file: its words stay as they are, a run of newlines between them is cut
      to two, and a newline is put at the end exactly when there is none. */
  lemma {:induction false} UninstallKeeps(words: seq<string>, runs: seq<nat>, block: string)
    requires Proper(words, runs) && IsSection(block) && IndexOf(Woven(words, runs), TITLE, 0) == None
    ensures var kept := Woven(words, AtMostTwo(runs));
      Removed(Woven(words, runs) + block) ==
        Some(kept + if kept != "" && kept[|kept| - 1] == '\n' then "" else "\n")
  {
    hide IndexOf, Collapse, Woven, HEADING, TITLE;
    var existing := Woven(words, runs);
    FoundWhereAppended(existing, block);
    RemovedBy(existing + block, |existing|, None);
    assert (existing + block)[..|existing|] == existing && existing + "" == existing;
    CollapseWoven(words, runs);
    TidiedIs(existing);
  }

  lemma {:induction false} TidiedIs(text: string)
    ensures var kept := Collapse(text);
      Tidied(text) == kept + if kept != "" && kept[|kept| - 1] == '\n' then "" else "\n"
  {
    hide Collapse;
    assert Collapse(text) + "" == Collapse(text);
  }

  /** Every line that says something is kept, in order. */
  lemma {:induction false} UninstallKeepsLines(existing: string, block: string)
    requires IsSection(block) && IndexOf(existing, TITLE, 0) == None
    ensures Removed(existing + block).Some?
    ensures NonEmpty(Split(Removed(existing + block).value)) == NonEmpty(Split(existing))
  {
    hide IndexOf, Collapse, HEADING, TITLE;
    FoundWhereAppended(existing, block);
    RemovedBy(existing + block, |existing|, None);
    assert (existing + block)[..|existing|] == existing && existing + "" == existing;
    TidiedKeepsLines(existing);
  }

  lemma {:induction false} TidiedKeepsLines(text: string)
    ensures NonEmpty(Split(Tidied(text))) == NonEmpty(Split(text))
  {
    hide NonEmpty, Collapse, Split;
    CollapseKeepsLines(text);
    NewlineAdds(Collapse(text));
  }

  lemma {:induction false} NewlineAdds(text: string)
    ensures NonEmpty(Split(text + "\n")) == NonEmpty(Split(text))
  {
    hide NonEmpty;
    SplitConcat(text, "");
    assert text + "\n" + "" == text + "\n";
    SplitOne("");
    EmptyLast(Split(text));
  }

  lemma {:induction false} EmptyLast(ls: seq<string>)
    ensures NonEmpty(ls + [""]) == NonEmpty(ls)
  {
    if ls == [] {
      assert ([] + [""])[1..] == [];
    } else {
      assert (ls + [""])[1..] == ls[1..] + [""];
      EmptyLast(ls[1..]);
    }
  }

  // ----- text that was added behind the section -----

  /** The added text from its first second-level heading on, with the newline in front of it. */
  function FromHeading(added: string): string {
    var line := "\n" + added;
    match IndexOf(line, NEXT_HEADING, 0)
    case None => ""
    case Some(r) => line[r..]
  }

  /** The next heading behind a section that ends in a newline is the first one of the added text. */
  lemma {:induction false} HeadingBehind(s: string, n: nat, added: string, from: nat)
    requires n < |s| && s[n..] == "\n" + added && from <= n
    requires forall i :: from <= i && i + |NEXT_HEADING| <= n + 1 ==> !OccursAt(s, NEXT_HEADING, i)
    ensures var r := IndexOf("\n" + added, NEXT_HEADING, 0);
      IndexOf(s, NEXT_HEADING, from) == if r.Some? then Some(n + r.value) else None
  {
    hide IndexOf;
    var line := "\n" + added;
    var r, q := IndexOf(line, NEXT_HEADING, 0), IndexOf(s, NEXT_HEADING, from);
    assert s == s[..n] + line;
    if q.Some? {
      if q.value < n < q.value + |NEXT_HEADING| { HeadingInner(s, q.value, n); }
      OccursIn(s[..n], line, NEXT_HEADING, q.value - n);
    }
    if r.Some? {
      OccursIn(s[..n], line, NEXT_HEADING, r.value);
    }
  }

  lemma {:induction false} HeadingInner(s: string, i: nat, j: nat)
    requires OccursAt(s, NEXT_HEADING, i) && i < j < i + |NEXT_HEADING|
    ensures s[j] != '\n'
  {
    assert NEXT_HEADING == ['\n', '#', '#', ' '];
    assert s[j] == s[i..i + |NEXT_HEADING|][j - i];
  }

  lemma {:induction false} NoHeadingInside(existing: string, block: string, added: string, i: nat)
    requires IsSection(block) && |existing| + 2 <= i && i + |NEXT_HEADING| <= |existing| + |block|
    ensures !OccursAt(existing + block + added, NEXT_HEADING, i)
  {
    hide IndexOf, NEXT_HEADING;
    var s, j := existing + block + added, i - |existing|;
    assert s[i..i + |NEXT_HEADING|] == block[j..j + |NEXT_HEADING|];
    assert !OccursAt(block, NEXT_HEADING, j);
  }

  lemma {:induction false} RemovedBy(original: string, start: nat, next: Option<nat>)
    requires IndexOf(original, HEADING, 0) == Some(start) && IndexOf(original, NEXT_HEADING, start + 2) == next
    ensures Removed(original) ==
      Some(Tidied(original[..start] + if next.Some? then original[next.value..] else ""))
  {
    hide Tidied, HEADING, NEXT_HEADING;
    assert original[|original|..] == "";
  }

  /** When text was added behind the section, removal keeps the old file, and of the added text what follows
      from its first second-level heading on: what stands before that is lost with the section. */
  lemma {:induction false} AddedKept(existing: string, block: string, added: string)
    requires IsSection(block) && EndsWithNewline(block) && IndexOf(existing, TITLE, 0) == None
    ensures Removed(existing + block + added) == Some(Tidied(existing + FromHeading(added)))
  {
    hide IndexOf, Tidied, Removed, HEADING, TITLE;
    var s, n := existing + block + added, |existing| + |block| - 1;
    assert s == existing + (block + added);
    assert (block + added)[0..|HEADING|] == block[0..|HEADING|];
    HeadingFound(existing, block + added);
    assert s[n..] == "\n" + added;
    forall i | |existing| + 2 <= i && i + |NEXT_HEADING| <= n + 1 ensures !OccursAt(s, NEXT_HEADING, i) {
      NoHeadingInside(existing, block, added, i);
    }
    assert |block| >= 23 by { FrontChars(block); }
    HeadingBehind(s, n, added, |existing| + 2);
    RemovedBy(s, |existing|, IndexOf(s, NEXT_HEADING, |existing| + 2));
    assert s[..|existing|] == existing;
    var r := IndexOf("\n" + added, NEXT_HEADING, 0);
    if r.Some? {
      assert s[n..][r.value..] == s[n + r.value..];
    }
  }

  lemma {:induction false} AddedKeepsLines(existing: string, block: string, added: string)
    requires IsSection(block) && EndsWithNewline(block) && IndexOf(existing, TITLE, 0) == None
    ensures Removed(existing + block + added).Some?
    ensures NonEmpty(Split(Removed(existing + block + added).value)) ==
      NonEmpty(Split(existing + FromHeading(added)))
  {
    hide IndexOf, Tidied, Removed, HEADING, TITLE, FromHeading, IsSection;
    AddedKept(existing, block, added);
    TidiedKeepsLines(existing + FromHeading(added));
  }

  /** So all of the added text is kept exactly when it begins with a second-level heading. */
  lemma {:induction false} AddedSurvivesIff(added: string)
    ensures FromHeading(added) == "\n" + added <==> OccursAt(added, "## ", 0)
  {
    hide IndexOf;
    var line := "\n" + added;
    var r := IndexOf(line, NEXT_HEADING, 0);
    assert NEXT_HEADING == "\n" + "## ";
    if OccursAt(added, "## ", 0) {
      assert line[0..4] == "\n" + added[0..3];
      assert line[0..] == line;
    }
    if OccursAt(line, NEXT_HEADING, 0) {
      assert added[0..3] == line[0..4][1..] == "## ";
    }
  }

  /** A remark without a heading, written behind the section, is lost with it. */
  lemma {:induction false} RemarkIsLost(existing: string, block: string)
    requires IsSection(block) && EndsWithNewline(block) && IndexOf(existing, TITLE, 0) == None
    ensures Removed(existing + block + "Mine.\n") == Some(Tidied(existing))
  {
    hide IndexOf, Tidied, Removed, HEADING, TITLE;
    AddedKept(existing, block, "Mine.\n");
    var line := "\n" + "Mine.\n";
    assert '#' !in line;
    var r := IndexOf(line, NEXT_HEADING, 0);
    if r.Some? { HashInHeading(line, r.value); }
    assert existing + "" == existing;
  }

  lemma {:induction false} HashInHeading(s: string, i: nat)
    requires OccursAt(s, NEXT_HEADING, i)
    ensures '#' in s
  {
    assert s[i + 1] == s[i..i + |NEXT_HEADING|][1] == '#';
  }
}
