/** The line-oriented rewriter that adds `--data-dir` to the arguments of a recipe. */
module Recipe {
  import opened Text

  // ---- lines -----------------------------------------------------------------------------

  function FirstLineLength(s: string): (n: nat)
    requires s != ""
    ensures 1 <= n <= |s|
  {
    if s[0] == '\n' || |s| == 1 then 1 else 1 + FirstLineLength(s[1..])
  }

  /** The lines of a text, each with its newline. */
  function SplitInclusive(s: string): seq<string>
    decreases |s|
  {
    if s == "" then [] else [s[..FirstLineLength(s)]] + SplitInclusive(s[FirstLineLength(s)..])
  }

  function Concat(lines: seq<string>): string {
    if lines == [] then "" else lines[0] + Concat(lines[1..])
  }

  predicate IsFullLine(line: string) {
    line != "" && line[|line| - 1] == '\n' && forall i :: 0 <= i < |line| - 1 ==> line[i] != '\n'
  }

  /** A line that no newline ends; it can only be the last. */
  predicate IsOpenLine(line: string) {
    line != "" && forall i :: 0 <= i < |line| ==> line[i] != '\n'
  }

  predicate AreLines(lines: seq<string>) {
    forall i :: 0 <= i < |lines| ==> IsFullLine(lines[i]) || (i == |lines| - 1 && IsOpenLine(lines[i]))
  }

  lemma {:induction false} FirstLineShape(s: string)
    requires s != ""
    ensures IsFullLine(s[..FirstLineLength(s)]) || (FirstLineLength(s) == |s| && IsOpenLine(s))
  {
    if s[0] != '\n' && |s| > 1 {
      FirstLineShape(s[1..]);
      var n := FirstLineLength(s[1..]);
      forall i | 1 <= i < |s|
        ensures s[i] == s[1..][i - 1]
      {
      }
      if IsFullLine(s[1..][..n]) {
        forall i | 0 <= i < n
          ensures s[i] != '\n'
        {
          assert i > 0 ==> s[i] == s[1..][..n][i - 1];
        }
      }
    }
  }

  lemma {:induction false} SplitIsLines(s: string)
    ensures AreLines(SplitInclusive(s)) && Concat(SplitInclusive(s)) == s
    decreases |s|
  {
    if s != "" {
      var n := FirstLineLength(s);
      FirstLineShape(s);
      SplitIsLines(s[n..]);
      assert s == s[..n] + s[n..];
      assert SplitInclusive(s)[1..] == SplitInclusive(s[n..]);
    }
  }

  lemma {:induction false} FirstLineOfConcat(line: string, rest: string)
    requires IsFullLine(line) || (rest == "" && IsOpenLine(line))
    ensures FirstLineLength(line + rest) == |line|
  {
    var s := line + rest;
    if |line| > 1 {
      assert s[1..] == line[1..] + rest;
      assert line[0] != '\n';
      forall i | 0 <= i < |line| - 1
        ensures line[1..][i] == line[i + 1]
      {
      }
      FirstLineOfConcat(line[1..], rest);
    }
  }

  /** Lines are found again in the text they make. */
  lemma {:induction false} SplitAfterConcat(lines: seq<string>)
    requires AreLines(lines)
    ensures SplitInclusive(Concat(lines)) == lines
  {
    if lines != [] {
      var rest := Concat(lines[1..]);
      SplitAfterConcat(lines[1..]);
      assert IsFullLine(lines[0]) || IsOpenLine(lines[0]);
      FirstLineOfConcat(lines[0], rest);
      assert Concat(lines)[..|lines[0]|] == lines[0] && Concat(lines)[|lines[0]|..] == rest;
    }
  }

  lemma {:induction false} ConcatAppend(a: seq<string>, b: seq<string>)
    ensures Concat(a + b) == Concat(a) + Concat(b)
  {
    if a == [] {
      assert a + b == b;
    } else {
      assert (a + b)[1..] == a[1..] + b;
      ConcatAppend(a[1..], b);
    }
  }

  // ---- where to inject -----------------------------------------------------------------------

  function Body(line: string): string {
    if line != "" && line[|line| - 1] == '\n' then line[..|line| - 1] else line
  }

  function FindItem(s: string): (at: Option<nat>)
    ensures at.Some? ==> at.value + 2 <= |s| && s[at.value] == '-' && s[at.value + 1] == ' '
    ensures at.Some? ==> forall i :: 0 <= i < at.value ==> s[i] != '-' || s[i + 1] != ' '
    ensures at.None? ==> forall i :: 0 <= i < |s| - 1 ==> s[i] != '-' || s[i + 1] != ' '
  {
    if |s| < 2 then None
    else if s[0] == '-' && s[1] == ' ' then Some(0)
    else
      var rest := FindItem(s[1..]);
      assert forall i :: 1 <= i < |s| ==> s[i] == s[1..][i - 1];
      if rest.Some? then Some(rest.value + 1) else None
  }

  predicate IsArgsLine(line: string) {
    TrimStart(Body(line)) == "args:"
  }

  predicate IsItem(line: string) {
    FindItem(Body(line)).Some?
  }

  /** A line that is neither blank nor starts with a space. */
  predicate LeavesArgs(line: string) {
    TrimStart(Body(line)) != "" && Body(line)[0] != ' '
  }

  /** What the kinds of lines are, with or without a newline at the end. */
  lemma LineMeans(s: string)
    requires '\n' !in s
    ensures IsArgsLine(s) <==> exists n: nat :: n <= |s| && s[n..] == "args:" && AllBlank(s[..n])
    ensures IsItem(s) <==> exists i: nat :: i + 2 <= |s| && s[i] == '-' && s[i + 1] == ' '
    ensures LeavesArgs(s) <==> !AllBlank(s) && s[0] != ' '
    ensures IsArgsLine(s + "\n") == IsArgsLine(s) && IsItem(s + "\n") == IsItem(s)
        && LeavesArgs(s + "\n") == LeavesArgs(s)
  {
    hide TrimStart, Body, AllBlank, FindItem;
    BodyMeans(s);
    TrimsToArgs(s);
    TrimsToNothing(s);
  }

  lemma BodyMeans(s: string)
    requires '\n' !in s
    ensures Body(s) == s && Body(s + "\n") == s
  {
    if s != "" {
      assert s[|s| - 1] in s;
    }
    assert (s + "\n")[..|s|] == s;
  }

  lemma TrimsToArgs(s: string)
    ensures TrimStart(s) == "args:" <==> exists n: nat :: n <= |s| && s[n..] == "args:" && AllBlank(s[..n])
  {
    hide TrimStart;
    TrimStartMeans(s);
    if TrimStart(s) == "args:" {
      var n := |s| - |TrimStart(s)|;
      assert s[n..] == "args:" && AllBlank(s[..n]);
    }
    if n: nat :| n <= |s| && s[n..] == "args:" && AllBlank(s[..n]) {
      TrimBlank(s[..n], "args:");
      assert s == s[..n] + s[n..];
    }
  }

  lemma TrimsToNothing(s: string)
    ensures TrimStart(s) == "" <==> AllBlank(s)
  {
    hide TrimStart;
    TrimStartMeans(s);
    if TrimStart(s) != "" {
      assert s[|s| - |TrimStart(s)|] == TrimStart(s)[0];
    }
  }

  predicate AllBlank(s: string) {
    forall i :: 0 <= i < |s| ==> IsWhitespace(s[i])
  }

  lemma {:induction false} TrimBlank(blank: string, rest: string)
    requires AllBlank(blank) && rest != "" && !IsWhitespace(rest[0])
    ensures TrimStart(blank + rest) == rest
  {
    if blank == "" {
      assert blank + rest == rest;
    } else {
      assert (blank + rest)[1..] == blank[1..] + rest;
      TrimBlank(blank[1..], rest);
    }
  }

  /** Whether line `k` is read as part of an `args:` block that has shown no item yet. */
  predicate InArgs(lines: seq<string>, k: nat)
    requires k <= |lines|
  {
    k > 0 &&
    if InArgs(lines, k - 1) then !IsItem(lines[k - 1]) && !LeavesArgs(lines[k - 1]) else IsArgsLine(lines[k - 1])
  }

  predicate IsPoint(lines: seq<string>, k: nat) {
    && k < |lines| && InArgs(lines, k) && IsItem(lines[k])
    && forall j :: 0 <= j < k ==> !(InArgs(lines, j) && IsItem(lines[j]))
  }

  /** Line `a` opens a block that is still open, and without an item, at line `k`. */
  predicate Entered(lines: seq<string>, a: nat, k: nat)
    requires a < k <= |lines|
  {
    IsArgsLine(lines[a]) && !InArgs(lines, a) && forall j :: a < j < k ==> !IsItem(lines[j]) && !LeavesArgs(lines[j])
  }

  /** What a point is: the first item after an `args:` line, with nothing but blank and
      indented lines in between. */
  lemma {:induction false} InArgsMeans(lines: seq<string>, k: nat)
    requires k <= |lines|
    ensures InArgs(lines, k) <==>
      exists a :: 0 <= a < k && Entered(lines, a, k)
  {
    hide IsItem, LeavesArgs, IsArgsLine;
    if k > 0 {
      InArgsMeans(lines, k - 1);
      if InArgs(lines, k) {
        if InArgs(lines, k - 1) {
          var a :| 0 <= a < k - 1 && Entered(lines, a, k - 1);
          assert Entered(lines, a, k);
        } else {
          assert Entered(lines, k - 1, k);
        }
      }
      if exists a :: 0 <= a < k && Entered(lines, a, k) {
        var a :| 0 <= a < k && Entered(lines, a, k);
        if a < k - 1 {
          assert Entered(lines, a, k - 1);
        }
      }
    }
  }

  lemma PointIsUnique(lines: seq<string>, k: nat, j: nat)
    requires IsPoint(lines, k) && IsPoint(lines, j)
    ensures k == j
  {
  }

  // ---- the rewriter ------------------------------------------------------------------------------

  function Indent(line: string): string {
    var at := FindItem(Body(line));
    if at.Some? then Body(line)[..at.value] else ""
  }

  /** The two lines that go in front of the item, as deep as the item. */
  function Added(line: string, quoted: string): seq<string> {
    [Indent(line) + "- --data-dir\n", Indent(line) + "- " + quoted + "\n"]
  }

  /** The text of lines `..i`, with the added lines in front of line `point`. */
  function Rewritten(lines: seq<string>, point: nat, i: nat, quoted: string): string
    requires point < i <= |lines|
  {
    Concat(lines[..point] + Added(lines[point], quoted) + lines[point..i])
  }

  predicate NoPointBefore(lines: seq<string>, i: nat)
    requires i <= |lines|
  {
    forall j :: 0 <= j < i ==> !(InArgs(lines, j) && IsItem(lines[j]))
  }

  lemma NoPoint(lines: seq<string>)
    requires NoPointBefore(lines, |lines|)
    ensures forall k: nat :: !IsPoint(lines, k)
  {
  }

  /** `quote` writes a path as a JSON string. */
  method RewriteRecipeDataDir(yaml: string, dataDir: string, quote: string -> string) returns (result: Option<string>)
    ensures result.Some? <==> exists k: nat :: IsPoint(SplitInclusive(yaml), k)
    ensures result.Some? ==> forall k: nat :: IsPoint(SplitInclusive(yaml), k) ==>
      result.value == Rewritten(SplitInclusive(yaml), k, |SplitInclusive(yaml)|, quote(dataDir))
  {
    hide IsItem, IsArgsLine, LeavesArgs, FindItem, Body, SplitInclusive, Concat, Rewritten, TrimStart, InArgs,
        IsPoint, NoPointBefore;
    var lines := SplitInclusive(yaml);
    var out := "";
    var inArgs, injected := false, false;
    ghost var point: nat := 0;
    NothingYet(lines);
    for i := 0 to |lines|
      invariant !injected ==> out == Concat(lines[..i]) && inArgs == InArgs(lines, i) && NoPointBefore(lines, i)
      invariant injected ==> point < i && IsPoint(lines, point) && out == Rewritten(lines, point, i, quote(dataDir))
    {
      var line := lines[i];
      NextLine(lines, i);
      LineKinds(line);
      NextInArgs(lines, i);
      if !injected && !inArgs && TrimStart(Body(line)) == "args:" {
        inArgs := true;
        out := out + line;
        continue;
      }
      if injected {
        Extended(lines, point, i, quote(dataDir));
      } else if inArgs {
        var at := FindItem(Body(line));
        if at.Some? {
          var indent := Body(line)[..at.value];
          out := out + indent + "- --data-dir\n";
          out := out + indent + "- " + quote(dataDir) + "\n";
          injected := true;
          point := i;
          PointHere(lines, i);
          AddedHere(lines, i, quote(dataDir));
        } else if TrimStart(Body(line)) != "" && Body(line)[0] != ' ' {
          inArgs := false;
        }
      }
      out := out + line;
    }
    if !injected {
      NoPoint(lines);
      return None;
    }
    forall k: nat | IsPoint(lines, k)
      ensures k == point
    {
      PointIsUnique(lines, k, point);
    }
    result := Some(out);
    assert exists k: nat :: IsPoint(SplitInclusive(yaml), k);
  }

  lemma NothingYet(lines: seq<string>)
    ensures Concat(lines[..0]) == "" && !InArgs(lines, 0) && NoPointBefore(lines, 0)
  {
  }

  lemma NextInArgs(lines: seq<string>, i: nat)
    requires i < |lines|
    ensures InArgs(lines, i + 1)
         == if InArgs(lines, i) then !IsItem(lines[i]) && !LeavesArgs(lines[i]) else IsArgsLine(lines[i])
    ensures NoPointBefore(lines, i) && !(InArgs(lines, i) && IsItem(lines[i])) ==> NoPointBefore(lines, i + 1)
  {
  }

  lemma PointHere(lines: seq<string>, i: nat)
    requires i < |lines| && NoPointBefore(lines, i) && InArgs(lines, i) && IsItem(lines[i])
    ensures IsPoint(lines, i)
  {
  }

  lemma LineKinds(line: string)
    ensures IsArgsLine(line) <==> TrimStart(Body(line)) == "args:"
    ensures IsItem(line) <==> FindItem(Body(line)).Some?
    ensures TrimStart(Body(line)) != "" ==> Body(line) != ""
    ensures LeavesArgs(line) <==> TrimStart(Body(line)) != "" && Body(line)[0] != ' '
  {
  }

  lemma ConcatOne(lines: seq<string>, line: string)
    ensures Concat(lines + [line]) == Concat(lines) + line
  {
    ConcatAppend(lines, [line]);
    assert Concat([line]) == line + Concat([]);
  }

  lemma NextLine(lines: seq<string>, i: nat)
    requires i < |lines|
    ensures Concat(lines[..i + 1]) == Concat(lines[..i]) + lines[i]
  {
    assert lines[..i + 1] == lines[..i] + [lines[i]];
    ConcatOne(lines[..i], lines[i]);
  }

  lemma Extended(lines: seq<string>, point: nat, i: nat, quoted: string)
    requires point < i < |lines|
    ensures Rewritten(lines, point, i + 1, quoted) == Rewritten(lines, point, i, quoted) + lines[i]
  {
    hide Concat, Added;
    var front := lines[..point] + Added(lines[point], quoted) + lines[point..i];
    assert lines[..point] + Added(lines[point], quoted) + lines[point..i + 1] == front + [lines[i]];
    ConcatOne(front, lines[i]);
  }

  lemma AddedHere(lines: seq<string>, i: nat, quoted: string)
    requires i < |lines|
    ensures var indent := Indent(lines[i]);
      Rewritten(lines, i, i + 1, quoted)
      == Concat(lines[..i]) + indent + "- --data-dir\n" + indent + "- " + quoted + "\n" + lines[i]
  {
    hide Concat, Indent;
    var front, added := lines[..i], Added(lines[i], quoted);
    assert front + added + lines[i..i + 1] == front + [added[0]] + [added[1]] + [lines[i]];
    ConcatOne(front + [added[0]] + [added[1]], lines[i]);
    ConcatOne(front + [added[0]], added[1]);
    ConcatOne(front, added[0]);
    SameText(Concat(front), Indent(lines[i]), quoted, lines[i]);
  }

  lemma SameText(front: string, indent: string, quoted: string, line: string)
    ensures front + (indent + "- --data-dir\n") + (indent + "- " + quoted + "\n") + line
         == front + indent + "- --data-dir\n" + indent + "- " + quoted + "\n" + line
  {
  }

  /** What stands in a line before its first `- `. */
  predicate IsIndent(line: string, indent: string) {
    && '\n' !in indent && StartsWith(line, indent + "- ")
    && forall i :: 0 <= i < |indent| ==> line[i] != '-' || line[i + 1] != ' '
  }

  lemma IndentMeans(line: string)
    requires IsItem(line) && (IsFullLine(line) || IsOpenLine(line))
    ensures IsIndent(line, Indent(line))
  {
    hide FindItem;
    var indent := Indent(line);
    assert forall i :: 0 <= i < |Body(line)| ==> Body(line)[i] == line[i];
    assert line[..|indent| + 2] == indent + "- ";
  }

  /** The added lines stand one above the other, the option first, as deep as the item below them. */
  lemma AddedMeans(yaml: string, k: nat, quoted: string)
    requires IsPoint(SplitInclusive(yaml), k)
    ensures exists indent :: IsIndent(SplitInclusive(yaml)[k], indent)
              && Added(SplitInclusive(yaml)[k], quoted) == [indent + "- --data-dir\n", indent + "- " + quoted + "\n"]
  {
    hide InArgs, SplitInclusive, IsItem, IsFullLine, IsOpenLine, IsIndent, Indent;
    SplitIsLines(yaml);
    IndentMeans(SplitInclusive(yaml)[k]);
  }

  /** The output has the input's lines and two more, together and in front of the item. */
  lemma RewrittenLines(yaml: string, k: nat, quoted: string)
    requires IsPoint(SplitInclusive(yaml), k) && forall i :: 0 <= i < |quoted| ==> quoted[i] != '\n'
    ensures var lines := SplitInclusive(yaml);
      SplitInclusive(Rewritten(lines, k, |lines|, quoted)) == lines[..k] + Added(lines[k], quoted) + lines[k..]
    ensures exists indent :: IsIndent(SplitInclusive(yaml)[k], indent)
              && Added(SplitInclusive(yaml)[k], quoted) == [indent + "- --data-dir\n", indent + "- " + quoted + "\n"]
    ensures var lines := SplitInclusive(yaml);
      Concat(lines[..k] + lines[k..]) == yaml
  {
    hide InArgs, SplitInclusive, Indent, IsItem, IsFullLine, IsOpenLine, IsIndent;
    var lines := SplitInclusive(yaml);
    AddedMeans(yaml, k, quoted);
    SplitIsLines(yaml);
    AddedLine(yaml, k, "--data-dir");
    AddedLine(yaml, k, quoted);
    var added := Added(lines[k], quoted);
    assert added[0] == Indent(lines[k]) + "- " + "--data-dir" + "\n";
    var all := lines[..k] + added + lines[k..];
    forall i | 0 <= i < |all|
      ensures IsFullLine(all[i]) || (i == |all| - 1 && IsOpenLine(all[i]))
    {
      if i < k {
        assert all[i] == lines[i];
      } else if i >= k + 2 {
        assert all[i] == lines[i - 2];
      }
    }
    SplitAfterConcat(all);
    assert lines[..k] + lines[k..] == lines && lines[k..|lines|] == lines[k..];
  }

  lemma AddedLine(yaml: string, k: nat, text: string)
    requires k < |SplitInclusive(yaml)| && forall i :: 0 <= i < |text| ==> text[i] != '\n'
    ensures IsFullLine(Indent(SplitInclusive(yaml)[k]) + "- " + text + "\n")
  {
    hide SplitInclusive, FindItem;
    SplitIsLines(yaml);
    var line := SplitInclusive(yaml)[k];
    assert IsFullLine(line) || IsOpenLine(line);
    var indent := Indent(line);
    assert forall i :: 0 <= i < |indent| ==> indent[i] == line[i];
    var whole := indent + "- " + text + "\n";
    forall i | 0 <= i < |whole| - 1
      ensures whole[i] != '\n'
    {
      if i < |indent| {
        assert whole[i] == indent[i];
      } else if i >= |indent| + 2 {
        assert whole[i] == text[i - |indent| - 2];
      }
    }
  }
}
