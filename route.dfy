/** Registration of a generated resource's routes in the project's `route/v1.go`. */
module RouteGen {
  import opened Wrappers
  import opened Text

  const V1Path := "route/v1.go"
  const SectionComment := "// Setup resource routes"
  const RepoComment := "// Initialize repositories"
  const NotFoundMessage := "v1.go file not found at route/v1.go. Make sure you are in the root directory of a Go To Oakhouse project"
  const MalformedMessage := "could not find insertion point in v1.go: malformed file structure"

  /** The call that registers a resource's routes on the `v1` group. */
  function SetupCall(resourceName: string): string {
    "Setup" + resourceName + "Routes(v1)"
  }

  /** The line added for a resource: the call, indented by one tab. */
  function CallLine(call: string): string {
    "\t" + call
  }

  /** A line the scan takes for a route registration. */
  predicate IsRegistration(line: string) {
    Contains(line, "Setup") && Contains(line, "Routes(v1)")
  }

  /** A line that ends the run of registrations: not blank and not mentioning `Setup`. */
  predicate EndsRun(line: string) {
    TrimSpace(line) != "" && !Contains(line, "Setup")
  }

  /** No line in `[from, to)` ends the run. */
  predicate RunClear(lines: seq<string>, from: int, to: int) {
    forall m {:trigger EndsRun(lines[m])} :: from <= m < to && 0 <= m < |lines| ==> !EndsRun(lines[m])
  }

  /** The scan for the last registration from line `i` on, `last` being the one found so far. */
  function LastRegistration(lines: seq<string>, i: nat, last: int): (r: int)
    ensures r == last || (i <= r < |lines| && IsRegistration(lines[r]))
    decreases |lines| - i
  {
    if i >= |lines| then last
    else if IsRegistration(lines[i]) then LastRegistration(lines, i + 1, i)
    else if EndsRun(lines[i]) then last
    else LastRegistration(lines, i + 1, last)
  }

  /** Where the section branch places the new line: after the last registration of the
      run that follows the section comment, or straight after the comment line. */
  function SectionInsertIndex(lines: seq<string>): (k: nat)
    ensures k <= |lines|
  {
    var c := FirstLineWith(lines, SectionComment, 0);
    if c >= 0 then InsertAfter(lines, c) else 0
  }

  /** The insertion point once the comment is on line `c`. */
  function InsertAfter(lines: seq<string>, c: nat): (k: nat)
    requires c < |lines|
    ensures c < k <= |lines|
  {
    var last := LastRegistration(lines, c + 1, -1);
    if last != -1 then last + 1 else c + 1
  }

  function Lines(content: string): seq<string> {
    Split(content, '\n')
  }

  /** The section branch: the call line inserted into the line list. */
  function SectionSplice(content: string, call: string): (r: string)
    ensures Contains(r, call)
  {
    var lines := Lines(content);
    var k := SectionInsertIndex(lines);
    var spliced := lines[..k] + [CallLine(call)] + lines[k..];
    assert spliced[k] == CallLine(call);
    PieceInJoin(spliced, "\n", k);
    ContainsSelf("\t", call, "");
    assert "\t" + call + "" == CallLine(call);
    ContainsTrans(Join(spliced, "\n"), CallLine(call), call);
    Join(spliced, "\n")
  }

  /** The text inserted before `// Initialize repositories` when there is no section comment. */
  function RepoSplice(content: string, repoIndex: nat, call: string): (r: string)
    requires repoIndex <= |content|
    ensures Contains(r, call)
  {
    var pre := content[..repoIndex] + "\t" + SectionComment + "\n\t";
    var post := "\n\n\t" + content[repoIndex..];
    ContainsSelf(pre, call, post);
    pre + call + post
  }

  /** The text inserted before the last `}` when neither comment is present. */
  function BraceSplice(content: string, braceIndex: nat, call: string): (r: string)
    requires braceIndex <= |content|
    ensures Contains(r, call)
  {
    var pre := content[..braceIndex] + "\n\t" + SectionComment + "\n\t";
    var post := "\n" + content[braceIndex..];
    ContainsSelf(pre, call, post);
    pre + call + post
  }

  /** The new text of `route/v1.go` after registering `resourceName`, or the error. */
  function Splice(content: string, resourceName: string): (r: Result<string, string>)
    ensures r.Ok? ==> Contains(r.value, SetupCall(resourceName))
    ensures Contains(content, SetupCall(resourceName)) ==> r == Ok(content)
    ensures r.Err? <==> !Contains(content, SetupCall(resourceName)) && !Contains(content, SectionComment)
                        && !Contains(content, RepoComment) && '}' !in content
    ensures r.Err? ==> r.error == MalformedMessage
  {
    var call := SetupCall(resourceName);
    if Contains(content, call) then Ok(content)
    else if Contains(content, SectionComment) then Ok(SectionSplice(content, call))
    else if Contains(content, RepoComment) then Ok(RepoSplice(content, IndexOf(content, RepoComment), call))
    else
      var b := LastIndexOfChar(content, '}');
      if b == -1 then Err(MalformedMessage) else Ok(BraceSplice(content, b, call))
  }

  /** The line-level part of the section branch: find the comment line, walk the run of
      registrations after it, and insert the call line after the last one. */
  method SpliceSection(content: string, setupCall: string) returns (updated: string)
    ensures updated == SectionSplice(content, setupCall)
  {
    var lines := Split(content, '\n');
    var commentLineIndex := FindCommentLine(lines);
    var lastRouteLineIndex := -1;
    if commentLineIndex != -1 {
      lastRouteLineIndex := ScanRun(lines, commentLineIndex);
    }
    var at := if lastRouteLineIndex != -1 then lastRouteLineIndex + 1 else commentLineIndex + 1;
    assert at == SectionInsertIndex(lines) by {
      if commentLineIndex >= 0 {
        assert SectionInsertIndex(lines) == InsertAfter(lines, commentLineIndex);
      }
    }
    var spliced := lines[..at] + [CallLine(setupCall)] + lines[at..];
    updated := Join(spliced, "\n");
  }

  /** The first loop of the section branch: the index of the first line holding the section
      comment, or -1. */
  method FindCommentLine(lines: seq<string>) returns (commentLineIndex: int)
    ensures commentLineIndex == FirstLineWith(lines, SectionComment, 0)
  {
    commentLineIndex := -1;
    var i := 0;
    while i < |lines|
      invariant 0 <= i <= |lines|
      invariant FirstLineWith(lines, SectionComment, i) == FirstLineWith(lines, SectionComment, 0)
    {
      if Contains(lines[i], SectionComment) {
        commentLineIndex := i;
        return;
      }
      i := i + 1;
    }
  }

  /** The second loop: the last registration of the run after the comment on line `c`, or -1. */
  method ScanRun(lines: seq<string>, c: nat) returns (lastRouteLineIndex: int)
    requires c < |lines|
    ensures lastRouteLineIndex == LastRegistration(lines, c + 1, -1)
  {
    lastRouteLineIndex := -1;
    var j := c + 1;
    while j < |lines|
      invariant c + 1 <= j <= |lines|
      invariant lastRouteLineIndex == -1 || c < lastRouteLineIndex < j
      invariant LastRegistration(lines, j, lastRouteLineIndex) == LastRegistration(lines, c + 1, -1)
    {
      if IsRegistration(lines[j]) {
        assert LastRegistration(lines, j, lastRouteLineIndex) == LastRegistration(lines, j + 1, j);
        lastRouteLineIndex := j;
      } else if EndsRun(lines[j]) {
        assert LastRegistration(lines, j, lastRouteLineIndex) == lastRouteLineIndex;
        break;
      } else {
        assert LastRegistration(lines, j, lastRouteLineIndex) == LastRegistration(lines, j + 1, lastRouteLineIndex);
      }
      j := j + 1;
    }
  }

  /** `updateV1Routes`: register `resourceName` in `route/v1.go`, writing the file only
      when it changes. */
  method UpdateV1Routes(files: FileSystem, resourceName: string) returns (files': FileSystem, err: Option<string>)
    ensures V1Path !in files ==> files' == files && err == Some(NotFoundMessage)
    ensures V1Path in files ==> match Splice(files[V1Path], resourceName)
                                  case Ok(t) => files' == files[V1Path := t] && err == None
                                  case Err(e) => files' == files && err == Some(e)
  {
    if V1Path !in files {
      return files, Some(NotFoundMessage);
    }
    var content := files[V1Path];
    var setupCall := SetupCall(resourceName);
    if Contains(content, setupCall) {
      return files, None;
    }
    var commentIndex := IndexOf(content, SectionComment);
    ContainsIndex(content, SectionComment);
    if commentIndex == -1 {
      var repoIndex := IndexOf(content, RepoComment);
      ContainsIndex(content, RepoComment);
      if repoIndex == -1 {
        var closeBraceIndex := LastIndexOfChar(content, '}');
        if closeBraceIndex == -1 {
          return files, Some(MalformedMessage);
        }
        var newContent := content[..closeBraceIndex] + "\n\t" + SectionComment + "\n\t" + setupCall + "\n" + content[closeBraceIndex..];
        assert newContent == BraceSplice(content, closeBraceIndex, setupCall);
        return files[V1Path := newContent], None;
      }
      var newContent := content[..repoIndex] + "\t" + SectionComment + "\n\t" + setupCall + "\n\n\t" + content[repoIndex..];
      assert newContent == RepoSplice(content, repoIndex, setupCall);
      return files[V1Path := newContent], None;
    }
    var updated := SpliceSection(content, setupCall);
    return files[V1Path := updated], None;
  }

  // ---------------------------------------------------------------- properties

  /** The scan result is the start value or a registration reached without crossing an end-of-run line. */
  lemma {:induction false} LastRegistrationRun(lines: seq<string>, i: nat, last: int)
    ensures var r := LastRegistration(lines, i, last); r == last || RunClear(lines, i, r)
    decreases |lines| - i
  {
    if i < |lines| {
      if IsRegistration(lines[i]) {
        LastRegistrationRun(lines, i + 1, i);
      } else if !EndsRun(lines[i]) {
        LastRegistrationRun(lines, i + 1, last);
      }
    }
  }

  /** The scan reaches every registration not separated from its start by an end-of-run line. */
  lemma {:induction false} RunReach(lines: seq<string>, i: nat, last: int, j: nat)
    requires i <= j < |lines| && IsRegistration(lines[j]) && RunClear(lines, i, j)
    ensures LastRegistration(lines, i, last) >= j
    decreases j - i
  {
    if i < j {
      if IsRegistration(lines[i]) {
        RunReach(lines, i + 1, i, j);
      } else {
        assert !EndsRun(lines[i]);
        RunReach(lines, i + 1, last, j);
      }
    }
  }

  lemma RunClearExtend(lines: seq<string>, from: int, to: nat)
    requires RunClear(lines, from, to) && to < |lines| && !EndsRun(lines[to])
    ensures RunClear(lines, from, to + 1)
  {
  }

  /** The comment found by `strings.Index` is found again by the line scan. */
  lemma SectionCommentLine(content: string)
    requires Contains(content, SectionComment)
    ensures FirstLineWith(Lines(content), SectionComment, 0) >= 0
  {
    var k := LineContains(content, '\n', SectionComment);
  }

  /** Where the section branch inserts: after the comment line `c`, past every line of the
      run of registrations that follows it, and before any registration that run does not reach. */
  lemma SectionInsertPoint(lines: seq<string>) returns (c: nat, k: nat)
    requires FirstLineWith(lines, SectionComment, 0) >= 0
    ensures c == FirstLineWith(lines, SectionComment, 0) && k == SectionInsertIndex(lines)
    ensures c < k && RunClear(lines, c + 1, k) && (k - 1 == c || IsRegistration(lines[k - 1]))
      && forall j :: k <= j < |lines| && IsRegistration(lines[j]) ==> !RunClear(lines, c + 1, j)
  {
    c := FirstLineWith(lines, SectionComment, 0);
    k := SectionInsertIndex(lines);
    assert k == InsertAfter(lines, c);
    InsertPoint(lines, c, k);
  }

  lemma InsertPoint(lines: seq<string>, c: nat, k: nat)
    requires c < |lines| && k == InsertAfter(lines, c)
    ensures c < k && RunClear(lines, c + 1, k) && (k - 1 == c || IsRegistration(lines[k - 1]))
      && forall j :: k <= j < |lines| && IsRegistration(lines[j]) ==> !RunClear(lines, c + 1, j)
  {
    RunEnd(lines, c);
    RunMaximal(lines, c);
  }

  /** The run scan from line `c + 1` stops past a registration or straight after `c`. */
  lemma RunEnd(lines: seq<string>, c: nat)
    requires c < |lines|
    ensures var k := InsertAfter(lines, c);
      RunClear(lines, c + 1, k) && (k - 1 == c || IsRegistration(lines[k - 1]))
  {
    var last := LastRegistration(lines, c + 1, -1);
    LastRegistrationRun(lines, c + 1, -1);
    if last != -1 {
      assert Contains(lines[last], "Setup");
      assert !EndsRun(lines[last]);
      RunClearExtend(lines, c + 1, last);
    }
  }

  /** No registration after the scan's stopping point is reachable from line `c + 1`. */
  lemma RunMaximal(lines: seq<string>, c: nat)
    requires c < |lines|
    ensures var k := InsertAfter(lines, c);
      forall j :: k <= j < |lines| && IsRegistration(lines[j]) ==> !RunClear(lines, c + 1, j)
  {
    var last := LastRegistration(lines, c + 1, -1);
    var k := if last != -1 then last + 1 else c + 1;
    forall j | k <= j < |lines| && IsRegistration(lines[j]) ensures !RunClear(lines, c + 1, j) {
      if RunClear(lines, c + 1, j) {
        RunReach(lines, c + 1, -1, j);
      }
    }
  }

  lemma CallLineRegisters(resourceName: string)
    ensures IsRegistration(CallLine(SetupCall(resourceName)))
  {
    var line := CallLine(SetupCall(resourceName));
    ContainsSelf("\t", "Setup", resourceName + "Routes(v1)");
    assert "\t" + "Setup" + (resourceName + "Routes(v1)") == line;
    ContainsSelf("\tSetup" + resourceName, "Routes(v1)", "");
    assert "\tSetup" + resourceName + "Routes(v1)" + "" == line;
  }

  /** In the section branch the file's lines are the old lines with the one call line inserted. */
  lemma SectionSpliceLines(content: string, call: string)
    requires '\n' !in call
    ensures var lines := Lines(content); var k := SectionInsertIndex(lines);
      Lines(SectionSplice(content, call)) == lines[..k] + [CallLine(call)] + lines[k..]
  {
    var lines := Lines(content);
    var k := SectionInsertIndex(lines);
    var spliced := lines[..k] + [CallLine(call)] + lines[k..];
    SplitPartsLack(content, '\n');
    assert forall m :: 0 <= m < |spliced| ==> spliced[m] == CallLine(call) || spliced[m] in lines;
    SplitJoin(spliced, '\n');
  }

  /** The section branch only inserts text, and the inserted text holds the call. */
  lemma SectionOnlyInserts(content: string, call: string) returns (p: nat, ins: string)
    ensures p <= |content| && Contains(ins, call)
    ensures SectionSplice(content, call) == content[..p] + ins + content[p..]
  {
    var lines := Lines(content);
    var k := SectionInsertIndex(lines);
    JoinSplit(content, '\n');
    p, ins := JoinInsert(lines, k, CallLine(call), "\n");
    ContainsSelf("\t", call, "");
    assert "\t" + call + "" == CallLine(call);
    ContainsTrans(ins, CallLine(call), call);
  }

  /** Every branch only inserts text: the old file is the new file with one piece taken out,
      and that piece holds the call unless the file held it already. */
  lemma SpliceOnlyInserts(content: string, resourceName: string) returns (p: nat, ins: string)
    requires Splice(content, resourceName).Ok?
    ensures p <= |content|
    ensures Splice(content, resourceName).value == content[..p] + ins + content[p..]
    ensures Contains(content, SetupCall(resourceName)) ==> p == 0 && ins == ""
    ensures !Contains(content, SetupCall(resourceName)) ==> Contains(ins, SetupCall(resourceName))
    ensures !Contains(content, SetupCall(resourceName)) && !Contains(content, SectionComment) && Contains(content, RepoComment) ==>
              p == IndexOf(content, RepoComment) && ins == "\t" + SectionComment + "\n\t" + SetupCall(resourceName) + "\n\n\t"
    ensures !Contains(content, SetupCall(resourceName)) && !Contains(content, SectionComment) && !Contains(content, RepoComment) ==>
              p == LastIndexOfChar(content, '}') && ins == "\n\t" + SectionComment + "\n\t" + SetupCall(resourceName) + "\n"
  {
    var call := SetupCall(resourceName);
    if Contains(content, call) {
      p, ins := 0, "";
      assert content[..0] + "" + content[0..] == content;
    } else if Contains(content, SectionComment) {
      p, ins := SectionOnlyInserts(content, call);
    } else if Contains(content, RepoComment) {
      p, ins := RepoOnlyInserts(content, IndexOf(content, RepoComment), call);
    } else {
      p, ins := BraceOnlyInserts(content, LastIndexOfChar(content, '}'), call);
    }
  }

  lemma RepoOnlyInserts(content: string, r: nat, call: string) returns (p: nat, ins: string)
    requires r <= |content|
    ensures p == r && ins == "\t" + SectionComment + "\n\t" + call + "\n\n\t"
    ensures Contains(ins, call)
    ensures RepoSplice(content, r, call) == content[..p] + ins + content[p..]
  {
    p := r;
    ins := "\t" + SectionComment + "\n\t" + call + "\n\n\t";
    ContainsSelf("\t" + SectionComment + "\n\t", call, "\n\n\t");
  }

  lemma BraceOnlyInserts(content: string, b: nat, call: string) returns (p: nat, ins: string)
    requires b <= |content|
    ensures p == b && ins == "\n\t" + SectionComment + "\n\t" + call + "\n"
    ensures Contains(ins, call)
    ensures BraceSplice(content, b, call) == content[..p] + ins + content[p..]
  {
    p := b;
    ins := "\n\t" + SectionComment + "\n\t" + call + "\n";
    ContainsSelf("\n\t" + SectionComment + "\n\t", call, "\n");
  }

  /** Registering a resource twice changes nothing the second time. */
  lemma SpliceIdempotent(content: string, resourceName: string)
    requires Splice(content, resourceName).Ok?
    ensures Splice(Splice(content, resourceName).value, resourceName) == Splice(content, resourceName)
  {
  }

  /** Line `a` is a registration in the run the section scan walks. */
  predicate RegisteredInSection(lines: seq<string>, a: nat) {
    var c := FirstLineWith(lines, SectionComment, 0);
    0 <= c < a < |lines| && IsRegistration(lines[a]) && RunClear(lines, c + 1, a)
  }

  lemma FirstLineKept(lines: seq<string>, lines': seq<string>, p: string, k: nat)
    requires var c := FirstLineWith(lines, p, 0); 0 <= c < k <= |lines| && k <= |lines'| && lines'[..k] == lines[..k]
    ensures FirstLineWith(lines', p, 0) == FirstLineWith(lines, p, 0)
  {
    var c := FirstLineWith(lines, p, 0);
    assert lines'[c] == lines[c];
    assert forall j :: 0 <= j < c ==> lines'[j] == lines[j];
  }

  lemma CallLineSingle(resourceName: string)
    requires '\n' !in resourceName
    ensures Lines(CallLine(SetupCall(resourceName))) == [CallLine(SetupCall(resourceName))]
  {
    assert CallLine(SetupCall(resourceName)) == "\tSetup" + resourceName + "Routes(v1)";
    SplitNoSep(CallLine(SetupCall(resourceName)), '\n');
  }

  lemma CommentLineSingle()
    ensures Lines("\t" + SectionComment) == ["\t" + SectionComment]
  {
    SplitNoSep("\t" + SectionComment, '\n');
  }

  /** Section branch: the call line goes at the insertion point, inside the run. */
  lemma SectionRegisters(content: string, resourceName: string) returns (a: nat)
    requires '\n' !in resourceName && Contains(content, SectionComment)
    ensures var lines := Lines(SectionSplice(content, SetupCall(resourceName)));
      RegisteredInSection(lines, a) && lines[a] == CallLine(SetupCall(resourceName))
  {
    var call := SetupCall(resourceName);
    CallLineRegisters(resourceName);
    var lines := Lines(content);
    SectionCommentLine(content);
    var c, k := SectionInsertPoint(lines);
    SectionSpliceLines(content, call);
    var lines' := Lines(SectionSplice(content, call));
    assert lines'[..k] == lines[..k];
    FirstLineKept(lines, lines', SectionComment, k);
    a := k;
    assert forall m :: 0 <= m < k ==> lines'[m] == lines[m];
  }

  lemma RepoLinesOf(pre: string, comment: string, line: string, post: string)
    requires '\n' !in comment && '\n' !in line
    ensures var ps := Lines(pre); var n := |ps|;
      var lines := Lines(pre + comment + "\n" + line + "\n\n\t" + post);
      n < |lines| && lines[..n - 1] == ps[..n - 1] && lines[n - 1] == ps[n - 1] + comment && lines[n] == line
  {
    var head := pre + comment;
    var rest := "" + "\n" + ("\t" + post);
    var t := pre + comment + "\n" + line + "\n\n\t" + post;
    assert t == head + ['\n'] + (line + ['\n'] + rest);
    SplitAround(head, line + ['\n'] + rest, '\n');
    SplitAround(line, rest, '\n');
    SplitNoSep(line, '\n');
    SplitExtendLast(pre, comment, '\n');
  }

  /** Repositories branch, line by line: the old lines up to the anchor, the last one
      extended by the new comment, then the call line. */
  lemma RepoLines(content: string, r: nat, resourceName: string)
    requires '\n' !in resourceName && r <= |content|
    ensures var ps := Lines(content[..r]); var n := |ps|;
      var lines := Lines(RepoSplice(content, r, SetupCall(resourceName)));
      n < |lines| && lines[..n - 1] == ps[..n - 1] && lines[n - 1] == ps[n - 1] + "\t" + SectionComment
      && lines[n] == CallLine(SetupCall(resourceName))
  {
    var call := SetupCall(resourceName);
    assert call == "Setup" + resourceName + "Routes(v1)";
    assert RepoSplice(content, r, call) == content[..r] + ("\t" + SectionComment) + "\n" + CallLine(call) + "\n\n\t" + content[r..];
    assert '\n' !in "\t" + SectionComment;
    assert CallLine(call) == "\tSetup" + resourceName + "Routes(v1)";
    RepoLinesOf(content[..r], "\t" + SectionComment, CallLine(call), content[r..]);
  }

  /** Repositories branch: the new comment closes the line before the call line. */
  lemma RepoRegisters(content: string, r: nat, resourceName: string) returns (a: nat)
    requires '\n' !in resourceName && r <= |content| && !Contains(content, SectionComment)
    ensures var lines := Lines(RepoSplice(content, r, SetupCall(resourceName)));
      RegisteredInSection(lines, a) && lines[a] == CallLine(SetupCall(resourceName))
  {
    var call := SetupCall(resourceName);
    CallLineRegisters(resourceName);
    RepoLines(content, r, resourceName);
    var pre := content[..r];
    var ps := Lines(pre);
    var n := |ps|;
    var lines' := Lines(RepoSplice(content, r, call));
    ContainsPrefix(content, r, SectionComment);
    PiecesLack(pre, '\n', SectionComment);
    ContainsSelf(ps[n - 1] + "\t", SectionComment, "");
    assert ps[n - 1] + "\t" + SectionComment + "" == lines'[n - 1];
    assert forall m :: 0 <= m < n - 1 ==> lines'[m] == ps[m];
    assert FirstLineWith(lines', SectionComment, 0) == n - 1;
    a := n;
  }

  lemma BraceLinesOf(pre: string, comment: string, line: string, post: string)
    requires '\n' !in comment && '\n' !in line
    ensures Lines(pre + "\n" + comment + "\n" + line + "\n" + post) == Lines(pre) + [comment] + [line] + Lines(post)
  {
    var rest2 := line + ['\n'] + post;
    var rest1 := comment + ['\n'] + rest2;
    assert pre + "\n" + comment + "\n" + line + "\n" + post == pre + ['\n'] + rest1;
    assert Split(rest2, '\n') == [line] + Split(post, '\n') by {
      SplitAround(line, post, '\n');
      SplitNoSep(line, '\n');
    }
    assert Split(rest1, '\n') == [comment] + Split(rest2, '\n') by {
      SplitAround(comment, rest2, '\n');
      SplitNoSep(comment, '\n');
    }
    assert Split(pre + ['\n'] + rest1, '\n') == Split(pre, '\n') + Split(rest1, '\n') by {
      SplitAround(pre, rest1, '\n');
    }
  }

  /** Closing-brace branch, line by line: the old lines before the brace, the comment line,
      the call line, then the old lines from the brace on. */
  lemma BraceLines(content: string, b: nat, resourceName: string)
    requires '\n' !in resourceName && b <= |content|
    ensures Lines(BraceSplice(content, b, SetupCall(resourceName)))
         == Lines(content[..b]) + ["\t" + SectionComment] + [CallLine(SetupCall(resourceName))] + Lines(content[b..])
  {
    var call := SetupCall(resourceName);
    assert BraceSplice(content, b, call) == content[..b] + "\n" + ("\t" + SectionComment) + "\n" + CallLine(call) + "\n" + content[b..];
    assert '\n' !in "\t" + SectionComment;
    assert CallLine(call) == "\tSetup" + resourceName + "Routes(v1)";
    BraceLinesOf(content[..b], "\t" + SectionComment, CallLine(call), content[b..]);
  }

  /** Closing-brace branch: comment line and call line go in just before the last `}`. */
  lemma BraceRegisters(content: string, b: nat, resourceName: string) returns (a: nat)
    requires '\n' !in resourceName && b <= |content| && !Contains(content, SectionComment)
    ensures var lines := Lines(BraceSplice(content, b, SetupCall(resourceName)));
      RegisteredInSection(lines, a) && lines[a] == CallLine(SetupCall(resourceName))
  {
    var call := SetupCall(resourceName);
    CallLineRegisters(resourceName);
    BraceLines(content, b, resourceName);
    var pre := content[..b];
    var ps := Lines(pre);
    var lines' := Lines(BraceSplice(content, b, call));
    ContainsPrefix(content, b, SectionComment);
    PiecesLack(pre, '\n', SectionComment);
    ContainsSelf("\t", SectionComment, "");
    assert "\t" + SectionComment + "" == lines'[|ps|];
    assert forall m :: 0 <= m < |ps| ==> lines'[m] == ps[m];
    assert FirstLineWith(lines', SectionComment, 0) == |ps|;
    a := |ps| + 1;
  }

  /** After a successful registration of a new resource its call line sits in the section's run. */
  lemma SpliceRegisters(content: string, resourceName: string) returns (a: nat)
    requires '\n' !in resourceName && !Contains(content, SetupCall(resourceName))
    requires Splice(content, resourceName).Ok?
    ensures var lines := Lines(Splice(content, resourceName).value);
      RegisteredInSection(lines, a) && lines[a] == CallLine(SetupCall(resourceName))
  {
    if Contains(content, SectionComment) {
      a := SectionRegisters(content, resourceName);
    } else if Contains(content, RepoComment) {
      a := RepoRegisters(content, IndexOf(content, RepoComment), resourceName);
    } else {
      a := BraceRegisters(content, LastIndexOfChar(content, '}'), resourceName);
    }
  }

  /** A second registration lands after one already in the section's run, and only inserts a line. */
  lemma SpliceAfter(content: string, a: nat, resourceName: string) returns (k: nat)
    requires RegisteredInSection(Lines(content), a)
    requires '\n' !in resourceName && !Contains(content, SetupCall(resourceName))
    ensures Splice(content, resourceName).Ok?
    ensures var lines := Lines(content);
      a < k <= |lines| && Lines(Splice(content, resourceName).value) == lines[..k] + [CallLine(SetupCall(resourceName))] + lines[k..]
  {
    var lines := Lines(content);
    var c := FirstLineWith(lines, SectionComment, 0);
    PieceContains(content, '\n', c, SectionComment);
    k := SectionInsertIndex(lines);
    RunReach(lines, c + 1, -1, a);
    SectionSpliceLines(content, SetupCall(resourceName));
  }

  /** Two resources generated one after the other are registered in generation order. */
  lemma RegistrationOrder(content: string, first: string, second: string) returns (i: nat, j: nat)
    requires '\n' !in first && '\n' !in second && !Contains(content, SetupCall(first))
    requires Splice(content, first).Ok?
    requires !Contains(Splice(content, first).value, SetupCall(second))
    ensures Splice(Splice(content, first).value, second).Ok?
    ensures var lines := Lines(Splice(Splice(content, first).value, second).value);
      i < j < |lines| && lines[i] == CallLine(SetupCall(first)) && lines[j] == CallLine(SetupCall(second))
  {
    var t := Splice(content, first).value;
    i := SpliceRegisters(content, first);
    j := SpliceAfter(t, i, second);
  }
}
