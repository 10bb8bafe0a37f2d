/** The text patches of `integrate redis`: each reads one project file, checks a marker, and
    either leaves the text alone or inserts, appends or replaces at fixed anchors. */
module Integrate {
  import opened Wrappers
  import opened Text
  import Utils
  import Generators

  // ---------------------------------------------------------------- go.mod

  const RedisModule := "github.com/redis/go-redis/v9"
  const RequireOpen := "require ("
  const RedisRequireLine := "\t" + RedisModule + " v9.3.0"
  const NoRequireMessage := "could not find require section in go.mod"

  /** A line that closes the open block: it holds `)` and does not open a block itself. */
  predicate ClosesRequire(line: string) {
    Contains(line, ")") && !Contains(line, RequireOpen)
  }

  /** Index of the first closing line at or after `k`, or -1. */
  function FirstCloseFrom(lines: seq<string>, k: nat): (r: int)
    ensures r == -1 || (k <= r < |lines| && ClosesRequire(lines[r]))
    ensures r == -1 ==> forall j :: k <= j < |lines| ==> !ClosesRequire(lines[j])
    ensures forall j :: k <= j < r ==> !ClosesRequire(lines[j])
    decreases |lines| - k
  {
    if k >= |lines| then -1
    else if ClosesRequire(lines[k]) then k
    else FirstCloseFrom(lines, k + 1)
  }

  /** The line the dependency goes in front of: the first closing line after the first
      `require (` line, or -1 when there is none. */
  function RequireInsertIndex(lines: seq<string>): int {
    var open := FirstLineWith(lines, RequireOpen, 0);
    if open == -1 then -1 else FirstCloseFrom(lines, open + 1)
  }

  /** Some line before `j` opens a require block. */
  predicate OpenedBefore(lines: seq<string>, j: int) {
    exists i :: 0 <= i < j && i < |lines| && Contains(lines[i], RequireOpen)
  }

  /** The insertion line is the first closing line that some `require (` line precedes. */
  lemma RequireInsertIndexFirst(lines: seq<string>)
    ensures var k := RequireInsertIndex(lines);
      (k != -1 ==> 0 <= k < |lines| && ClosesRequire(lines[k]) && OpenedBefore(lines, k))
      && forall j :: 0 <= j < |lines| && (k == -1 || j < k) && ClosesRequire(lines[j]) ==> !OpenedBefore(lines, j)
  {
    var open := FirstLineWith(lines, RequireOpen, 0);
    var k := RequireInsertIndex(lines);
    forall j | 0 <= j < |lines| && (k == -1 || j < k) && ClosesRequire(lines[j])
      ensures !OpenedBefore(lines, j)
    {
    }
  }

  /** The lines after `addRedisDependencies`: the dependency line in front of the insertion line. */
  function RequireLines(lines: seq<string>): seq<string> {
    var k := RequireInsertIndex(lines);
    if k == -1 then lines else lines[..k] + [RedisRequireLine] + lines[k..]
  }

  /** The new `go.mod` text, or the error for a file without a `require (` block. */
  function RedisDependencies(content: string): (r: Result<string, string>)
    ensures r.Err? <==> !Contains(content, RedisModule) && !Contains(content, RequireOpen)
    ensures r.Err? ==> r.error == NoRequireMessage
    ensures Contains(content, RedisModule) ==> r == Ok(content)
  {
    if Contains(content, RedisModule) then Ok(content)
    else if !Contains(content, RequireOpen) then Err(NoRequireMessage)
    else Ok(Join(RequireLines(Split(content, '\n')), "\n"))
  }

  /** `addRedisDependencies` over the project files: the line loop with its two flags. */
  method AddRedisDependencies(files: FileSystem) returns (files': FileSystem, err: Option<string>)
    ensures Utils.GoModPath !in files ==> files' == files && err == Some(Utils.GoModReadError)
    ensures Utils.GoModPath in files ==> match RedisDependencies(files[Utils.GoModPath])
                                           case Ok(t) => files' == files[Utils.GoModPath := t] && err == None
                                           case Err(e) => files' == files && err == Some(e)
  {
    if Utils.GoModPath !in files {
      return files, Some(Utils.GoModReadError);
    }
    var goModContent := files[Utils.GoModPath];
    if Contains(goModContent, RedisModule) {
      return files, None;
    }
    var requireIndex := IndexOf(goModContent, RequireOpen);
    ContainsIndex(goModContent, RequireOpen);
    if requireIndex == -1 {
      return files, Some(NoRequireMessage);
    }
    var newLines := RequireBlockLoop(Split(goModContent, '\n'));
    var updatedContent := Join(newLines, "\n");
    return files[Utils.GoModPath := updatedContent], None;
  }

  /** The line loop of `addRedisDependencies`: `insideRequire` is set by a `require (` line and
      cleared by the next closing line, and the dependency goes in front of the first closing
      line met while it is set. */
  method RequireBlockLoop(lines: seq<string>) returns (newLines: seq<string>)
    ensures newLines == RequireLines(lines)
  {
    newLines := [];
    var insideRequire := false;
    var redisAdded := false;
    ghost var open := FirstLineWith(lines, RequireOpen, 0);
    ghost var k := RequireInsertIndex(lines);
    for i := 0 to |lines|
      invariant redisAdded <==> k != -1 && k < i
      invariant !redisAdded ==> (insideRequire <==> open != -1 && open < i)
      invariant newLines == if redisAdded then lines[..k] + [RedisRequireLine] + lines[k..i] else lines[..i]
    {
      var line := lines[i];
      if Contains(line, RequireOpen) {
        insideRequire := true;
        newLines := newLines + [line];
        continue;
      }
      if insideRequire && Contains(line, ")") && !redisAdded {
        assert k == i;
        newLines := newLines + [RedisRequireLine];
        redisAdded := true;
      } else if !redisAdded {
        assert k != i;
      }
      newLines := newLines + [line];
      if insideRequire && Contains(line, ")") {
        insideRequire := false;
      }
    }
    assert lines[..|lines|] == lines;
  }

  /** The new `go.mod` is the old one split into lines with exactly the dependency line inserted:
      no line is removed or reordered. */
  lemma RedisDependenciesLines(content: string)
    requires RedisDependencies(content).Ok? && !Contains(content, RedisModule)
    ensures Split(RedisDependencies(content).value, '\n') == RequireLines(Split(content, '\n'))
  {
    var lines := Split(content, '\n');
    SplitPartsLack(content, '\n');
    assert '\n' !in RedisRequireLine;
    assert forall j :: 0 <= j < |RequireLines(lines)| ==> '\n' !in RequireLines(lines)[j];
    SplitJoin(RequireLines(lines), '\n');
  }

  /** Without a closing line after the block opener the text comes back as it was. */
  lemma RedisDependenciesUnclosed(content: string)
    requires RedisDependencies(content).Ok? && RequireInsertIndex(Split(content, '\n')) == -1
    ensures RedisDependencies(content).value == content
  {
    JoinSplit(content, '\n');
  }

  /** Otherwise the edit inserts text holding the dependency line at one place. */
  lemma RedisDependenciesInserts(content: string) returns (p: nat, ins: string)
    requires RedisDependencies(content).Ok? && !Contains(content, RedisModule)
    requires RequireInsertIndex(Split(content, '\n')) != -1
    ensures p <= |content| && Contains(ins, RedisRequireLine)
    ensures RedisDependencies(content).value == content[..p] + ins + content[p..]
  {
    var lines := Split(content, '\n');
    JoinSplit(content, '\n');
    p, ins := JoinInsert(lines, RequireInsertIndex(lines), RedisRequireLine, "\n");
  }

  /** Adding the dependency twice is adding it once. */
  lemma RedisDependenciesIdempotent(content: string)
    requires RedisDependencies(content).Ok?
    ensures RedisDependencies(RedisDependencies(content).value) == RedisDependencies(content)
  {
    if !Contains(content, RedisModule) {
      var lines := Split(content, '\n');
      if RequireInsertIndex(lines) == -1 {
        RedisDependenciesUnclosed(content);
      } else {
        var p, ins := RedisDependenciesInserts(content);
        ContainsSelf("\t", RedisModule, " v9.3.0");
        ContainsTrans(ins, RedisRequireLine, RedisModule);
        ContainsWithin(content[..p], ins, content[p..], RedisModule);
      }
    }
  }

  // ---------------------------------------------------------------- .env.example

  const EnvReadError := "open .env.example: no such file or directory"
  const RedisEnvMarker := "REDIS_URL"
  const RedisEnvBlock := "\n# Redis Configuration\n" + RedisEnvMarker + "=redis://localhost:6379\nREDIS_PASSWORD=\nREDIS_DB=0\n"

  /** `addRedisEnvConfig` on the text: append the Redis block unless `REDIS_URL` is there. */
  function RedisEnvConfig(content: string): (r: string)
    ensures Contains(content, RedisEnvMarker) ==> r == content
    ensures |content| <= |r| && r[..|content|] == content
    ensures Contains(r, RedisEnvMarker)
  {
    if Contains(content, RedisEnvMarker) then content
    else
      AppendedHolds(content, "\n# Redis Configuration\n", RedisEnvMarker, "=redis://localhost:6379\nREDIS_PASSWORD=\nREDIS_DB=0\n");
      content + RedisEnvBlock
  }

  /** Appending a block that holds `marker` keeps the old text as a prefix and brings `marker` in. */
  lemma AppendedHolds(content: string, pre: string, marker: string, post: string)
    ensures var r := content + (pre + marker + post);
      |content| <= |r| && r[..|content|] == content && Contains(r, marker)
  {
    ContainsSelf(content + pre, marker, post);
    assert content + (pre + marker + post) == content + pre + marker + post;
  }

  /** `addRedisEnvConfig` over the project files. */
  function RedisEnvFiles(files: FileSystem): (r: Result<FileSystem, string>)
    ensures r.Err? <==> Generators.EnvExamplePath !in files
    ensures r.Ok? ==> r.value == files[Generators.EnvExamplePath := RedisEnvConfig(files[Generators.EnvExamplePath])]
  {
    if Generators.EnvExamplePath !in files then Err(EnvReadError)
    else
      var envContent := files[Generators.EnvExamplePath];
      if Contains(envContent, RedisEnvMarker) then Ok(files)
      else Ok(files[Generators.EnvExamplePath := envContent + RedisEnvBlock])
  }

  /** Appending the block twice is appending it once. */
  lemma RedisEnvIdempotent(content: string)
    ensures RedisEnvConfig(RedisEnvConfig(content)) == RedisEnvConfig(content)
  {
  }

  // ---------------------------------------------------------------- config/env_config.go

  const ConfigPath := "config/env_config.go"
  const ConfigMissingMessage := "config file not found at config/env_config.go"
  const ConfigMarker := "RedisURL"
  const StructHeader := "type Config struct {"
  const LoadHeader := "func LoadConfig() *Config {"
  const ReturnOpen := "return &Config{"
  const RedisFields := "\n\t" + ConfigMarker + "      string\n\tRedisPassword string\n\tRedisDB       string"
  const RedisReturnRest := ":      getEnv(\"REDIS_URL\", \"localhost:6379\"),\n\t\tRedisPassword: getEnv(\"REDIS_PASSWORD\", \"\"),\n\t\tRedisDB:       getEnv(\"REDIS_DB\", \"0\"),"
  const RedisReturnLines := "\n\t\t" + ConfigMarker + RedisReturnRest

  datatype ConfigError = NoStruct | NoStructEnd | NoLoadConfig | NoReturn | NoReturnEnd

  function ConfigErrorMessage(e: ConfigError): string {
    match e
    case NoStruct => "could not find Config struct definition"
    case NoStructEnd => "could not find end of Config struct"
    case NoLoadConfig => "could not find LoadConfig function"
    case NoReturn => "could not find return &Config block"
    case NoReturnEnd => "could not find end of Config return block"
  }

  /** Step 1, for a block opened by `header`: `fields` in front of the first `}` after the
      header, unless the text up to that `}` already holds `marker`. */
  function StructStep(s: string, header: string, marker: string, fields: string): (r: Result<string, ConfigError>)
    ensures r.Err? <==> IndexOf(s, header) == -1 || IndexOf(s[IndexOf(s, header)..], "}") == -1
    ensures r.Err? ==> r.error == if IndexOf(s, header) == -1 then NoStruct else NoStructEnd
  {
    var structInsertIndex := IndexOf(s, header);
    if structInsertIndex == -1 then Err(NoStruct)
    else StructClose(s, marker, fields, structInsertIndex, IndexOf(s[structInsertIndex..], "}"))
  }

  /** The second half of the struct step, once the header is found at `h` and the first `}`
      after it is `e` characters further on (or missing, when `e` is -1). */
  function StructClose(s: string, marker: string, fields: string, h: nat, e: int): (r: Result<string, ConfigError>)
    requires h <= |s| && (e == -1 || 0 <= e < |s| - h)
    ensures r.Err? <==> e == -1
    ensures r.Err? ==> r.error == NoStructEnd
  {
    if e == -1 then Err(NoStructEnd)
    else
      var structBlock := s[h..h + e];
      if !Contains(structBlock, marker) then Ok(ReplaceFirst(s, structBlock + "}", structBlock + fields + "\n}"))
      else Ok(s)
  }

  /** Step 2, for a function opened by `load`: `lines` in front of the first `}` after the
      first `ret` that follows the function header. */
  function ReturnStep(s: string, load: string, ret: string, lines: string): (r: Result<string, ConfigError>)
    ensures r.Err? ==> r.error in {NoLoadConfig, NoReturn, NoReturnEnd}
    ensures r == Err(NoLoadConfig) <==> IndexOf(s, load) == -1
    ensures r == Err(NoReturn) <==> IndexOf(s, load) >= 0 && IndexOf(s[IndexOf(s, load)..], ret) == -1
  {
    var loadFuncIndex := IndexOf(s, load);
    if loadFuncIndex == -1 then Err(NoLoadConfig)
    else
      var returnBlockStart := IndexOf(s[loadFuncIndex..], ret);
      if returnBlockStart == -1 then Err(NoReturn)
      else ReturnClose(s, loadFuncIndex + returnBlockStart, lines)
  }

  /** The second half of the return step, from the return block start `startPos`: the lines go
      in front of the first `}` after it, or one character before `startPos` when there is none. */
  function ReturnClose(s: string, startPos: nat, lines: string): (r: Result<string, ConfigError>)
    requires startPos <= |s|
    ensures r.Err? ==> r.error == NoReturnEnd && startPos == 0
  {
    var endPos := IndexOf(s[startPos..], "}") + startPos;
    if endPos == -1 then Err(NoReturnEnd)
    else Ok(s[..endPos] + lines + s[endPos..])
  }

  /** `updateConfigForRedis` on the text, for its anchors: nothing when `marker` is there,
      else both steps, the first error ending the patch. */
  function ConfigPatch(s: string, marker: string, header: string, fields: string, load: string, ret: string, lines: string)
    : (r: Result<string, ConfigError>)
    ensures Contains(s, marker) ==> r == Ok(s)
  {
    if Contains(s, marker) then Ok(s)
    else
      match StructStep(s, header, marker, fields)
      case Err(e) => Err(e)
      case Ok(t) => ReturnStep(t, load, ret, lines)
  }

  /** The patch with the anchors of `config/env_config.go`. */
  function ConfigForRedis(s: string): (r: Result<string, ConfigError>)
    ensures Contains(s, ConfigMarker) ==> r == Ok(s)
  {
    ConfigPatch(s, ConfigMarker, StructHeader, RedisFields, LoadHeader, ReturnOpen, RedisReturnLines)
  }

  /** The anchor facts the config patch relies on. */
  lemma ConfigAnchors()
    ensures '}' !in StructHeader
    ensures |LoadHeader| > 0 && |ReturnOpen| > 0 && LoadHeader[0] != ReturnOpen[0]
  {
  }

  lemma CharIndex(s: string, c: char)
    ensures (IndexOf(s, [c]) == -1) == (c !in s)
    ensures IndexOf(s, [c]) >= 0 ==> s[IndexOf(s, [c])] == c
    ensures forall j :: 0 <= j < IndexOf(s, [c]) ==> s[j] != c
  {
    var i := IndexOf(s, [c]);
    if i >= 0 {
      assert s[i..i + 1] == [c];
      assert s[i] == s[i..i + 1][0];
      forall j | 0 <= j < i ensures s[j] != c {
        assert !OccursAt(s, [c], j);
        assert s[j..j + 1] == [s[j]];
      }
    }
    if c in s {
      var j :| 0 <= j < |s| && s[j] == c;
      assert s[j..j + 1] == [c];
      assert OccursAt(s, [c], j);
    }
  }

  /** A return block cannot start where a function header with another first character does,
      so it starts after the text's first character. */
  lemma ReturnAfterHeader(s: string, load: string, ret: string)
    requires |load| > 0 && |ret| > 0 && load[0] != ret[0]
    requires IndexOf(s, load) >= 0 && IndexOf(s[IndexOf(s, load)..], ret) >= 0
    ensures IndexOf(s, load) + IndexOf(s[IndexOf(s, load)..], ret) >= 1
  {
  }

  /** The end-of-return guard never fires: the offset found is added to a positive start. */
  lemma ReturnGuardDead(s: string, load: string, ret: string, lines: string)
    requires |load| > 0 && |ret| > 0 && load[0] != ret[0]
    ensures ReturnStep(s, load, ret, lines) != Err(NoReturnEnd)
  {
    var l := IndexOf(s, load);
    if l >= 0 && IndexOf(s[l..], ret) >= 0 {
      ReturnAfterHeader(s, load, ret);
    }
  }

  /** The struct step puts the fields, and a newline, right in front of the first `}` after the
      header, and changes nothing else. */
  lemma StructStepPlace(s: string, header: string, marker: string, fields: string) returns (a: nat)
    requires !Contains(s, marker) && '}' !in header && StructStep(s, header, marker, fields).Ok?
    ensures IndexOf(s, header) <= a < |s| && s[a] == '}'
    ensures forall j :: IndexOf(s, header) <= j < a ==> s[j] != '}'
    ensures StructStep(s, header, marker, fields).value == s[..a] + fields + "\n" + s[a..]
  {
    var h := IndexOf(s, header);
    a := StructEnd(s, header);
    BlockLacksMarker(s, h, a, marker);
    StructStepFound(s, header, marker, fields, h, a);
    StructBraceSplice(s, header, h, a, fields);
  }

  /** Replacing the first `block}` once the header is known to open it. */
  lemma StructBraceSplice(s: string, header: string, h: nat, a: nat, fields: string)
    requires IndexOf(s, header) == h && h + |header| <= a < |s| && s[a] == '}'
    ensures ReplaceFirst(s, s[h..a] + "}", s[h..a] + fields + "\n}") == s[..a] + fields + "\n" + s[a..]
  {
    var block := s[h..a];
    assert IndexOf(s, block + "}") == h by {
      assert s[h..a + 1] == block + "}";
      assert (block + "}")[..|header|] == header;
      FirstOccurrenceExtends(s, header, block + "}", h);
    }
    ReplaceAtFirst(s, block + "}", block + fields + "\n}", h);
    SpliceBeforeBrace(s, h, a, fields);
  }

  lemma StructStepFound(s: string, header: string, marker: string, fields: string, h: nat, a: nat)
    requires h == IndexOf(s, header) && a == h + IndexOf(s[h..], "}") && h <= a < |s|
    ensures StructStep(s, header, marker, fields)
         == Ok(if Contains(s[h..a], marker) then s else ReplaceFirst(s, s[h..a] + "}", s[h..a] + fields + "\n}"))
  {
    assert StructStep(s, header, marker, fields) == StructClose(s, marker, fields, h, a - h);
    StructCloseFound(s, marker, fields, h, a - h);
  }

  lemma StructCloseFound(s: string, marker: string, fields: string, h: nat, e: nat)
    requires h + e < |s|
    ensures StructClose(s, marker, fields, h, e)
         == Ok(if Contains(s[h..h + e], marker) then s else ReplaceFirst(s, s[h..h + e] + "}", s[h..h + e] + fields + "\n}"))
  {
  }

  lemma ReplaceAtFirst(s: string, pat: string, rep: string, i: nat)
    requires IndexOf(s, pat) == i
    ensures i + |pat| <= |s| && ReplaceFirst(s, pat, rep) == s[..i] + rep + s[i + |pat|..]
  {
  }

  /** The `}` that closes the block found after the header. */
  lemma StructEnd(s: string, header: string) returns (a: nat)
    requires '}' !in header && IndexOf(s, header) >= 0 && IndexOf(s[IndexOf(s, header)..], "}") >= 0
    ensures a == IndexOf(s, header) + IndexOf(s[IndexOf(s, header)..], "}")
    ensures IndexOf(s, header) + |header| <= a < |s| && s[a] == '}'
    ensures forall j :: IndexOf(s, header) <= j < a ==> s[j] != '}'
  {
    var h := IndexOf(s, header);
    var e := IndexOf(s[h..], "}");
    assert "}" == ['}'];
    CharIndex(s[h..], '}');
    a := h + e;
    assert s[a] == s[h..][e];
    forall j | h <= j < a ensures s[j] != '}' {
      assert s[j] == s[h..][j - h];
    }
  }

  lemma BlockLacksMarker(s: string, h: nat, a: nat, marker: string)
    requires h <= a <= |s| && !Contains(s, marker)
    ensures !Contains(s[h..a], marker)
  {
    if Contains(s[h..a], marker) {
      ContainsSelf(s[..h], s[h..a], s[a..]);
      assert s[..h] + s[h..a] + s[a..] == s;
      ContainsTrans(s, s[h..a], marker);
    }
  }

  lemma SpliceBeforeBrace(s: string, h: nat, a: nat, fields: string)
    requires h <= a < |s| && s[a] == '}'
    ensures s[..h] + (s[h..a] + fields + "\n}") + s[a + 1..] == s[..a] + fields + "\n" + s[a..]
  {
    assert s[..a] == s[..h] + s[h..a];
    assert s[a..] == "}" + s[a + 1..];
  }

  /** The return step puts the lines right in front of the first `}` after the return block start. */
  lemma ReturnStepPlace(s: string, load: string, ret: string, lines: string) returns (start: nat, a: nat)
    requires |load| > 0 && |ret| > 0 && load[0] != ret[0] && ReturnStep(s, load, ret, lines).Ok?
    ensures start == IndexOf(s, load) + IndexOf(s[IndexOf(s, load)..], ret) && OccursAt(s, ret, start)
    ensures '}' in s[start..] ==> start <= a < |s| && s[a] == '}' && forall j :: start <= j < a ==> s[j] != '}'
    ensures '}' !in s[start..] ==> start >= 1 && a == start - 1
    ensures ReturnStep(s, load, ret, lines).value == s[..a] + lines + s[a..]
  {
    var l := IndexOf(s, load);
    var b := IndexOf(s[l..], ret);
    start := l + b;
    assert OccursAt(s, ret, start) by {
      assert s[start..start + |ret|] == s[l..][b..b + |ret|];
    }
    ReturnAfterHeader(s, load, ret);
    assert ReturnStep(s, load, ret, lines) == ReturnClose(s, start, lines);
    a := ReturnClosePlace(s, start, lines);
  }

  /** Where the second half of the return step puts the lines. */
  lemma ReturnClosePlace(s: string, start: nat, lines: string) returns (a: nat)
    requires 1 <= start <= |s|
    ensures '}' in s[start..] ==> start <= a < |s| && s[a] == '}' && forall j :: start <= j < a ==> s[j] != '}'
    ensures '}' !in s[start..] ==> a == start - 1
    ensures ReturnClose(s, start, lines) == Ok(s[..a] + lines + s[a..])
  {
    var e := IndexOf(s[start..], "}");
    assert "}" == ['}'];
    CharIndex(s[start..], '}');
    a := start + e;
    if e >= 0 {
      assert s[a] == s[start..][e];
      forall j | start <= j < a ensures s[j] != '}' {
        assert s[j] == s[start..][j - start];
      }
    }
  }

  /** A return step whose inserted lines hold `marker` leaves `marker` in the text. */
  lemma ReturnStepMarks(s: string, load: string, ret: string, pre: string, marker: string, post: string)
    requires ReturnStep(s, load, ret, pre + marker + post).Ok?
    ensures Contains(ReturnStep(s, load, ret, pre + marker + post).value, marker)
  {
    var l := IndexOf(s, load);
    var start := l + IndexOf(s[l..], ret);
    assert ReturnStep(s, load, ret, pre + marker + post) == ReturnClose(s, start, pre + marker + post);
    ReturnCloseMarks(s, start, pre, marker, post);
  }

  lemma ReturnCloseMarks(s: string, start: nat, pre: string, marker: string, post: string)
    requires start <= |s| && ReturnClose(s, start, pre + marker + post).Ok?
    ensures Contains(ReturnClose(s, start, pre + marker + post).value, marker)
  {
    var endPos := IndexOf(s[start..], "}") + start;
    ContainsSelf(s[..endPos] + pre, marker, post + s[endPos..]);
    assert s[..endPos] + (pre + marker + post) + s[endPos..] == s[..endPos] + pre + marker + (post + s[endPos..]);
  }

  /** Every error names the first anchor that is missing, and the end-of-return error is
      never reported. */
  lemma ConfigForRedisErrors(s: string)
    ensures ConfigForRedis(s).Err? ==> !Contains(s, ConfigMarker)
    ensures ConfigForRedis(s) == Err(NoStruct) <==> !Contains(s, ConfigMarker) && IndexOf(s, StructHeader) == -1
    ensures ConfigForRedis(s) != Err(NoReturnEnd)
  {
    ConfigAnchors();
    if !Contains(s, ConfigMarker) {
      var r := StructStep(s, StructHeader, ConfigMarker, RedisFields);
      if r.Ok? {
        ReturnGuardDead(r.value, LoadHeader, ReturnOpen, RedisReturnLines);
      }
    }
  }

  /** Patching the config twice is patching it once. */
  lemma ConfigForRedisIdempotent(s: string)
    requires ConfigForRedis(s).Ok?
    ensures ConfigForRedis(ConfigForRedis(s).value) == ConfigForRedis(s)
  {
    if !Contains(s, ConfigMarker) {
      var t := StructStep(s, StructHeader, ConfigMarker, RedisFields).value;
      ReturnStepMarks(t, LoadHeader, ReturnOpen, "\n\t\t", ConfigMarker, RedisReturnRest);
    }
  }

  /** Step 1 of `updateConfigForRedis` on the text. */
  method PatchStructText(configStr: string, header: string, marker: string, fields: string)
    returns (r: Result<string, ConfigError>)
    ensures r == StructStep(configStr, header, marker, fields)
  {
    var structInsertIndex := IndexOf(configStr, header);
    if structInsertIndex == -1 {
      return Err(NoStruct);
    }
    var structEndIndex := IndexOf(configStr[structInsertIndex..], "}");
    if structEndIndex == -1 {
      return Err(NoStructEnd);
    }
    var updated := configStr;
    var structBlock := updated[structInsertIndex..structInsertIndex + structEndIndex];
    if !Contains(structBlock, marker) {
      updated := ReplaceFirst(updated, structBlock + "}", structBlock + fields + "\n}");
    }
    StructStepFound(configStr, header, marker, fields, structInsertIndex, structInsertIndex + structEndIndex);
    return Ok(updated);
  }

  /** Step 2 of `updateConfigForRedis` on the text, with its guard for a missing end. */
  method PatchReturnText(configStr: string, load: string, ret: string, lines: string)
    returns (r: Result<string, ConfigError>)
    ensures r == ReturnStep(configStr, load, ret, lines)
  {
    var loadFuncIndex := IndexOf(configStr, load);
    if loadFuncIndex == -1 {
      return Err(NoLoadConfig);
    }
    var returnBlockStart := IndexOf(configStr[loadFuncIndex..], ret);
    if returnBlockStart == -1 {
      return Err(NoReturn);
    }
    var startPos := loadFuncIndex + returnBlockStart;
    var endPos := IndexOf(configStr[startPos..], "}") + startPos;
    if endPos == -1 {
      return Err(NoReturnEnd);
    }
    var updated := configStr[..endPos] + lines + configStr[endPos..];
    return Ok(updated);
  }

  /** The text edit of `updateConfigForRedis`: the marker check, then the two steps on one
      string, any error returned before anything is written. */
  method PatchConfigText(configStr: string, marker: string, header: string, fields: string,
                         load: string, ret: string, lines: string) returns (r: Result<string, ConfigError>)
    ensures r == ConfigPatch(configStr, marker, header, fields, load, ret, lines)
  {
    if Contains(configStr, marker) {
      return Ok(configStr);
    }
    var step := PatchStructText(configStr, header, marker, fields);
    if step.Err? {
      return step;
    }
    r := PatchReturnText(step.value, load, ret, lines);
  }

  /** `updateConfigForRedis` over the project files: with the marker present nothing is written;
      otherwise a failed patch writes nothing and a successful one goes through the template
      write. */
  method UpdateConfigForRedis(files: FileSystem, render: Utils.TextRenderer) returns (files': FileSystem, err: Option<string>)
    ensures ConfigPath !in files ==> files' == files && err == Some(ConfigMissingMessage)
    ensures ConfigPath in files && Contains(files[ConfigPath], ConfigMarker) ==> files' == files && err == None
    ensures ConfigPath in files && !Contains(files[ConfigPath], ConfigMarker) ==>
              match ConfigForRedis(files[ConfigPath])
              case Ok(t) => (files', err) == Utils.WriteTemplate(files, ConfigPath, t, render)
              case Err(e) => files' == files && err == Some(ConfigErrorMessage(e))
  {
    if ConfigPath !in files {
      return files, Some(ConfigMissingMessage);
    }
    var configStr := files[ConfigPath];
    if Contains(configStr, ConfigMarker) {
      return files, None;
    }
    var r := PatchConfigText(configStr, ConfigMarker, StructHeader, RedisFields, LoadHeader, ReturnOpen, RedisReturnLines);
    match r
    case Err(e) => return files, Some(ConfigErrorMessage(e));
    case Ok(t) =>
      var w := Utils.WriteTemplate(files, ConfigPath, t, render);
      return w.0, w.1;
  }

  // ---------------------------------------------------------------- cmd/main.go

  const MainPath := "cmd/main.go"
  const MainMissingMessage := "main.go not found at cmd/main.go"
  const MainMarker := "RedisAdapter"
  // The database start-up, line by line; the long `log.Fatal` line is written in two pieces.
  const DbInitPattern :=
    "\t// Initialize database\n" + "\tdb, err := adapter.InitializeDatabase(cfg)\n" + "\tif err != nil {\n"
    + "\t\tlog.Fatal(" + "\"Failed to initialize database:\", err)\n" + "\t}"
  // The Redis start-up, also line by line, around the marker it declares.
  const RedisInitHead := DbInitPattern + "\n\n\t// Initialize Redis (optional)\n" + "\tvar redisAdapter *adapter."
  const RedisInitTail :=
    "\n\tif cfg.RedisURL != \"\" {\n" + "\t\tredisAdapter, err = " + "adapter.NewRedisAdapter(cfg)\n" + "\t\tif err != nil {\n"
    + "\t\t\tlog.Fatal(" + "\"Failed to initialize Redis\", err)\n" + "\t\t} else {\n"
    + "\t\t\tlog.Println(" + "\"Redis connected successfully\")\n" + "\t\t}\n\t}"
  const RedisInit := RedisInitHead + MainMarker + RedisInitTail
  const ServerHead := "server := NewAppServer(cfg, db"
  const ServerPattern := ServerHead + ")"
  const RedisServerPattern := ServerHead + ", redisAdapter)"

  /** `updateMainGoForRedis` on the text: nothing when `RedisAdapter` is there, else the
      Redis start-up after the database one and the adapter passed to the server. */
  function MainGoForRedis(s: string): (r: string)
    ensures Contains(s, MainMarker) ==> r == s
    ensures !Contains(s, DbInitPattern) && !Contains(s, ServerPattern) ==> r == s
  {
    if Contains(s, MainMarker) then s
    else ReplaceFirst(ReplaceFirst(s, DbInitPattern, RedisInit), ServerPattern, RedisServerPattern)
  }

  /** Passing the adapter to the server cannot break an existing `RedisAdapter`: the server
      line has no capital `R`, and its first two characters `se` occur nowhere in the marker. */
  lemma ServerLineApart()
    ensures |MainMarker| > 0 && |ServerPattern| >= 2 && MainMarker[0] !in ServerPattern
    ensures MainMarker[|MainMarker| - 1] != ServerPattern[0]
    ensures forall k :: 0 <= k < |MainMarker| - 1 ==> !(MainMarker[k] == ServerPattern[0] && MainMarker[k + 1] == ServerPattern[1])
  {
  }

  /** Neither server line holds a tab, a `}` or a capital `R`. */
  lemma ServerLinesPlain()
    ensures '\t' !in ServerPattern && '}' !in ServerPattern && 'R' !in ServerPattern
    ensures '\t' !in RedisServerPattern && '}' !in RedisServerPattern && 'R' !in RedisServerPattern
  {
    ServerHeadPlain();
    ServerHeadNoBrace();
    assert '\t' !in ")" && '}' !in ")" && 'R' !in ")";
    assert '\t' !in ", redisAdapter)" && '}' !in ", redisAdapter)" && 'R' !in ", redisAdapter)";
  }

  lemma ServerHeadPlain()
    ensures '\t' !in ServerHead && 'R' !in ServerHead
  {
  }

  lemma ServerHeadNoBrace()
    ensures '}' !in ServerHead
  {
  }

  /** The database start-up starts with a tab and ends with `}`, neither of which the new server
      line holds. */
  lemma DbInitEdges()
    ensures |DbInitPattern| > 0
    ensures DbInitPattern[0] !in RedisServerPattern && DbInitPattern[|DbInitPattern| - 1] !in RedisServerPattern
  {
    assert DbInitPattern[0] == '\t' && DbInitPattern[|DbInitPattern| - 1] == '}';
    ServerLinesPlain();
  }

  /** The database start-up has no `N`, the new server line has one. */
  lemma DbInitLacksN()
    ensures 10 < |RedisServerPattern| && RedisServerPattern[10] !in DbInitPattern
  {
    assert RedisServerPattern[10] == 'N';
    assert 'N' !in "\t// Initialize database\n";
    DbInitCallLacksN();
    DbInitTailLacksN();
  }

  lemma DbInitCallLacksN()
    ensures 'N' !in "\tdb, err := adapter.InitializeDatabase(cfg)\n"
  {
  }

  lemma DbInitTailLacksN()
    ensures 'N' !in "\tif err != nil {\n" + "\t\tlog.Fatal(" + "\"Failed to initialize database:\", err)\n" + "\t}"
  {
    assert 'N' !in "\"Failed to initialize database:\", err)\n";
  }

  /** The only `s` of the old server line is its first character. */
  lemma ServerLineEss(o: nat)
    requires 0 < o < |ServerPattern|
    ensures ServerPattern[o] != 's'
  {
  }

  /** The new server line holds `s` only at its start and in `redis`, where `A` follows. */
  lemma RedisServerLineEss(o: nat)
    requires o < |RedisServerPattern| && RedisServerPattern[o] == 's'
    ensures o == 0 || (o == 36 && RedisServerPattern[37] == 'A')
  {
  }

  /** No old server line starts inside the new one. */
  lemma NoServerInside(r: string, i: nat, j: nat)
    requires i + |RedisServerPattern| <= |r| && r[i..i + |RedisServerPattern|] == RedisServerPattern
    requires i <= j < i + |RedisServerPattern|
    ensures !OccursAt(r, ServerPattern, j)
  {
    var o := j - i;
    assert r[j] == RedisServerPattern[o];
    if o == 0 {
      assert r[j + 30] == RedisServerPattern[30] == ',' && ServerPattern[30] == ')';
      MismatchAt(r, ServerPattern, j, 30);
    } else if RedisServerPattern[o] != 's' {
      assert ServerPattern[0] == 's';
      MismatchAt(r, ServerPattern, j, 0);
    } else {
      RedisServerLineEss(o);
      assert r[j + 1] == RedisServerPattern[37] == 'A' && ServerPattern[1] == 'e';
      MismatchAt(r, ServerPattern, j, 1);
    }
  }

  /** No old server line runs into the start of the new one. */
  lemma NoServerAcross(r: string, i: nat, j: nat)
    requires i + |RedisServerPattern| <= |r| && r[i..i + |RedisServerPattern|] == RedisServerPattern
    requires j < i < j + |ServerPattern|
    ensures !OccursAt(r, ServerPattern, j)
  {
    assert r[i] == RedisServerPattern[0] == 's';
    ServerLineEss(i - j);
    MismatchAt(r, ServerPattern, j, i - j);
  }

  /** Replacing the only server line leaves none: none survives before it (it was the first),
      none after it (it was the only one), and the new line neither holds nor straddles one. */
  lemma ServerLineGone(s: string)
    requires AtMostOnce(s, ServerPattern)
    ensures !Contains(ReplaceFirst(s, ServerPattern, RedisServerPattern), ServerPattern)
  {
    var sp, rsp := ServerPattern, RedisServerPattern;
    if Contains(s, sp) {
      var i := FirstSplit(s, sp);
      var a, b := s[..i], s[i + |sp|..];
      var r := a + rsp + b;
      assert r[i..i + |rsp|] == rsp;
      forall j | 0 <= j <= |r| ensures !OccursAt(r, sp, j) {
        if j + |sp| <= i {
          OccursLeft(a, rsp, sp, b, sp, j);
        } else if j >= i + |rsp| {
          OccursRight(a, rsp, sp, b, sp, j);
          assert OccursAt(s, sp, i);
        } else if j < i {
          NoServerAcross(r, i, j);
        } else {
          NoServerInside(r, i, j);
        }
      }
    }
  }

  /** A second run changes nothing once the database start-up has been extended, and also
      when there is no database start-up but at most one server line. */
  lemma MainGoForRedisIdempotent(s: string)
    requires Contains(s, DbInitPattern) || Contains(s, MainMarker) || AtMostOnce(s, ServerPattern)
    ensures MainGoForRedis(MainGoForRedis(s)) == MainGoForRedis(s)
  {
    if !Contains(s, MainMarker) {
      var s1 := ReplaceFirst(s, DbInitPattern, RedisInit);
      var s2 := ReplaceFirst(s1, ServerPattern, RedisServerPattern);
      if Contains(s, DbInitPattern) {
        MainGoForRedisAdds(s);
      } else if !Contains(s2, MainMarker) {
        assert s1 == s;
        DbInitEdges();
        DbInitLacksN();
        ReplaceFirstAbsent(s, ServerPattern, RedisServerPattern, DbInitPattern, 10);
        ServerLineGone(s);
      }
    }
  }

  /** Without the marker the patch does what it is for: a database start-up present is kept
      and followed by the declaration of the Redis adapter, and a server line present becomes
      the one that passes the adapter. */
  lemma MainGoForRedisAdds(s: string)
    requires !Contains(s, MainMarker)
    ensures Contains(s, DbInitPattern) ==> Contains(MainGoForRedis(s), DbInitPattern)
    ensures Contains(s, DbInitPattern) ==> Contains(MainGoForRedis(s), MainMarker)
    ensures Contains(s, ServerPattern) ==> Contains(MainGoForRedis(s), RedisServerPattern)
  {
    var s1 := ReplaceFirst(s, DbInitPattern, RedisInit);
    if Contains(s, DbInitPattern) {
      RedisInitParts();
      ContainsTrans(s1, RedisInit, MainMarker);
      ContainsTrans(s1, RedisInit, DbInitPattern);
      var m := ContainsOccurs(s1, MainMarker);
      ServerLineApart();
      ReplaceFirstApart(s1, ServerPattern, RedisServerPattern, MainMarker, m);
      DbInitApart();
      ReplaceFirstKeepsOuter(s1, ServerPattern, RedisServerPattern, DbInitPattern, 10);
    }
    if Contains(s, ServerPattern) {
      DbInitApart();
      ReplaceFirstKeepsInner(s, DbInitPattern, RedisInit, ServerPattern, 10);
    }
  }

  /** The Redis start-up opens with the database start-up and declares the marker. */
  lemma RedisInitParts()
    ensures Contains(RedisInit, DbInitPattern) && Contains(RedisInit, MainMarker)
  {
    ContainsSelf(RedisInitHead, MainMarker, RedisInitTail);
    var mid := "\n\n\t// Initialize Redis (optional)\n";
    ContainsFront(DbInitPattern, mid);
    ContainsFront(DbInitPattern + mid, "\tvar redisAdapter *adapter.");
    ContainsFront(RedisInitHead, MainMarker);
    ContainsFront(RedisInitHead + MainMarker, RedisInitTail);
    ContainsTrans(RedisInitHead, DbInitPattern + mid, DbInitPattern);
    ContainsTrans(RedisInitHead + MainMarker, RedisInitHead, DbInitPattern);
    ContainsTrans(RedisInit, RedisInitHead + MainMarker, DbInitPattern);
  }

  /** The database start-up and the old server line cannot overlap: the start-up's two ends
      are not in the server line, and the server line's `N` is not in the start-up. */
  lemma DbInitApart()
    ensures |DbInitPattern| > 0 && DbInitPattern[0] !in ServerPattern && DbInitPattern[|DbInitPattern| - 1] !in ServerPattern
    ensures 10 < |ServerPattern| && ServerPattern[10] !in DbInitPattern
  {
    assert DbInitPattern[0] == '\t' && DbInitPattern[|DbInitPattern| - 1] == '}';
    ServerLinesPlain();
    DbInitLacksN();
    assert ServerPattern[10] == RedisServerPattern[10];
  }

  /** Without the marker and the database start-up only the server line is replaced. */
  lemma ServerOnlyRun(s: string)
    requires 'R' !in s && '\t' !in s
    ensures MainGoForRedis(s) == ReplaceFirst(s, ServerPattern, RedisServerPattern)
  {
    NoCharNoContains(s, MainMarker, 'R');
    NoCharNoContains(s, DbInitPattern, '\t');
  }

  /** With two server lines and no database start-up every run rewrites one more server line,
      so a second run is not a no-op. */
  lemma MainGoForRedisTwoServers()
    ensures var s := ServerPattern + ("\n" + ServerPattern);
            MainGoForRedis(MainGoForRedis(s)) != MainGoForRedis(s)
  {
    var q := "\n" + ServerPattern;
    var s1 := RedisServerPattern + q;
    ServerLinesPlain();
    assert MainGoForRedis(ServerPattern + q) == s1 by {
      ServerOnlyRun(ServerPattern + q);
      ReplaceAtStart(ServerPattern, q, RedisServerPattern);
    }
    assert |MainGoForRedis(s1)| != |s1| by {
      ServerOnlyRun(s1);
      ContainsAfter(RedisServerPattern, "\n", ServerPattern);
      ReplaceFirstLength(s1, ServerPattern, RedisServerPattern);
    }
  }

  /** `updateMainGoForRedis` over the project files: with the marker present nothing is written,
      otherwise the patched text goes through the template write. */
  method UpdateMainGoForRedis(files: FileSystem, render: Utils.TextRenderer) returns (files': FileSystem, err: Option<string>)
    ensures MainPath !in files ==> files' == files && err == Some(MainMissingMessage)
    ensures MainPath in files && Contains(files[MainPath], MainMarker) ==> files' == files && err == None
    ensures MainPath in files && !Contains(files[MainPath], MainMarker) ==>
              (files', err) == Utils.WriteTemplate(files, MainPath, MainGoForRedis(files[MainPath]), render)
  {
    if MainPath !in files {
      return files, Some(MainMissingMessage);
    }
    var mainStr := files[MainPath];
    if Contains(mainStr, MainMarker) {
      return files, None;
    }
    mainStr := ReplaceFirst(mainStr, DbInitPattern, RedisInit);
    mainStr := ReplaceFirst(mainStr, ServerPattern, RedisServerPattern);
    var w := Utils.WriteTemplate(files, MainPath, mainStr, render);
    return w.0, w.1;
  }

  // ---------------------------------------------------------------- cmd/app_server.go

  const AppServerMissingMessage := "app_server.go not found at cmd/app_server.go"
  const AppServerMarker := "redisAdapter"
  // The three blocks, line by line, the new ones around the marker they add; each body is its
  // block without the closing `}`.
  const StructBody := "type AppServer struct {\n" + "\tapp *fiber.App\n" + "\tcfg *config.Config\n" + "\tdb  *gorm.DB\n"
  const StructPattern := StructBody + "}"
  const RedisStructFields := "\tapp          *fiber.App\n" + "\tcfg          *config.Config\n" + "\tdb           *gorm.DB\n"
  const RedisStructHead := "type AppServer struct {\n" + RedisStructFields + "\t"
  const RedisStructBody := RedisStructHead + AppServerMarker + " *adapter.RedisAdapter\n"
  const RedisStruct := RedisStructBody + "}"
  const FuncParams := "cfg *config.Config, db *gorm.DB"
  const FuncPattern := "func NewAppServer(" + FuncParams + ") *AppServer {"
  const RedisFuncHead := "func NewAppServer(" + FuncParams + ", "
  const RedisFuncTail := " *adapter.RedisAdapter" + ") *AppServer {"
  const RedisFuncPattern := RedisFuncHead + AppServerMarker + RedisFuncTail
  const ReturnBody := "\treturn &AppServer{\n" + "\t\tapp: app,\n" + "\t\tcfg: cfg,\n" + "\t\tdb:  db,\n" + "\t"
  const ReturnPattern := ReturnBody + "}"
  const RedisReturnHead :=
    "\treturn &AppServer{\n" + "\t\tapp:          app,\n" + "\t\tcfg:          cfg,\n" + "\t\tdb:           db,\n" + "\t\t"
  const RedisReturnTail := ": redisAdapter,\n" + "\t}"
  const RedisReturnPattern := RedisReturnHead + AppServerMarker + RedisReturnTail

  /** `updateAppServerForRedis` on the text: nothing when `redisAdapter` is there, else the
      struct, the constructor signature and its return literal each replaced at their first
      occurrence. */
  function AppServerForRedis(s: string): (r: string)
    ensures Contains(s, AppServerMarker) ==> r == s
    ensures !Contains(s, StructPattern) && !Contains(s, FuncPattern) && !Contains(s, ReturnPattern) ==> r == s
  {
    if Contains(s, AppServerMarker) then s
    else
      var s1 := ReplaceFirst(s, StructPattern, RedisStruct);
      var s2 := ReplaceFirst(s1, FuncPattern, RedisFuncPattern);
      ReplaceFirst(s2, ReturnPattern, RedisReturnPattern)
  }

  /** One replacement step either leaves the text as it was or leaves the marker in it. */
  lemma ReplaceStep(s: string, pat: string, rep: string)
    requires Contains(rep, AppServerMarker)
    ensures var r := ReplaceFirst(s, pat, rep); r == s || Contains(r, AppServerMarker)
  {
    if Contains(s, pat) {
      ContainsTrans(ReplaceFirst(s, pat, rep), rep, AppServerMarker);
    }
  }

  lemma ReplaceKeepsMarker(s: string, pat: string, rep: string)
    requires Contains(s, AppServerMarker) && Contains(rep, AppServerMarker)
    ensures Contains(ReplaceFirst(s, pat, rep), AppServerMarker)
  {
    ReplaceFirstKeeps(s, pat, rep, AppServerMarker);
  }

  /** Patching `app_server.go` twice is patching it once: every replacement brings the marker in. */
  lemma AppServerForRedisIdempotent(s: string)
    ensures AppServerForRedis(AppServerForRedis(s)) == AppServerForRedis(s)
  {
    if !Contains(s, AppServerMarker) {
      RedisBlocksMarked();
      var s1 := ReplaceFirst(s, StructPattern, RedisStruct);
      var s2 := ReplaceFirst(s1, FuncPattern, RedisFuncPattern);
      var s3 := ReplaceFirst(s2, ReturnPattern, RedisReturnPattern);
      ReplaceStep(s, StructPattern, RedisStruct);
      ReplaceStep(s1, FuncPattern, RedisFuncPattern);
      ReplaceStep(s2, ReturnPattern, RedisReturnPattern);
      if Contains(s2, AppServerMarker) {
        ReplaceKeepsMarker(s2, ReturnPattern, RedisReturnPattern);
      }
      if Contains(s1, AppServerMarker) {
        ReplaceKeepsMarker(s1, FuncPattern, RedisFuncPattern);
      }
      assert s3 == s || Contains(s3, AppServerMarker);
    }
  }

  /** Each new block holds the marker. */
  lemma RedisBlocksMarked()
    ensures Contains(RedisStruct, AppServerMarker) && Contains(RedisFuncPattern, AppServerMarker)
    ensures Contains(RedisReturnPattern, AppServerMarker)
  {
    ContainsSelf(RedisStructHead, AppServerMarker, " *adapter.RedisAdapter\n");
    ContainsFront(RedisStructBody, "}");
    ContainsTrans(RedisStruct, RedisStructBody, AppServerMarker);
    ContainsSelf(RedisFuncHead, AppServerMarker, RedisFuncTail);
    ContainsSelf(RedisReturnHead, AppServerMarker, RedisReturnTail);
  }

  /** Without the marker the patch does what it is for: each of the struct, the constructor
      signature and the return literal that is present is there in its Redis form afterwards. */
  lemma AppServerForRedisAdds(s: string)
    requires !Contains(s, AppServerMarker)
    ensures Contains(s, StructPattern) ==> Contains(AppServerForRedis(s), RedisStruct)
    ensures Contains(s, FuncPattern) ==> Contains(AppServerForRedis(s), RedisFuncPattern)
    ensures Contains(s, ReturnPattern) ==> Contains(AppServerForRedis(s), RedisReturnPattern)
  {
    if Contains(s, StructPattern) {
      StructAdded(s);
    }
    if Contains(s, FuncPattern) {
      FuncAdded(s);
    }
    if Contains(s, ReturnPattern) {
      ReturnAdded(s);
    }
  }

  /** The new struct survives the two later replacements. */
  lemma StructAdded(s: string)
    requires !Contains(s, AppServerMarker) && Contains(s, StructPattern)
    ensures Contains(AppServerForRedis(s), RedisStruct)
  {
    var s1 := ReplaceFirst(s, StructPattern, RedisStruct);
    var s2 := ReplaceFirst(s1, FuncPattern, RedisFuncPattern);
    RedisStructApart();
    ReplaceFirstKeepsOuter(s1, FuncPattern, RedisFuncPattern, RedisStruct, 36);
    ReplaceFirstKeepsEnds(s2, ReturnPattern, RedisReturnPattern, RedisStruct, 38, 30);
  }

  /** The signature survives the struct replacement, and the new one the return replacement. */
  lemma FuncAdded(s: string)
    requires !Contains(s, AppServerMarker) && Contains(s, FuncPattern)
    ensures Contains(AppServerForRedis(s), RedisFuncPattern)
  {
    var s1 := ReplaceFirst(s, StructPattern, RedisStruct);
    var s2 := ReplaceFirst(s1, FuncPattern, RedisFuncPattern);
    FuncApart();
    ReplaceFirstKeepsInner(s, StructPattern, RedisStruct, FuncPattern, 36);
    ReplaceFirstKeepsInner(s2, ReturnPattern, RedisReturnPattern, RedisFuncPattern, 22);
  }

  /** The return literal survives the struct and the signature replacements. */
  lemma ReturnAdded(s: string)
    requires !Contains(s, AppServerMarker) && Contains(s, ReturnPattern)
    ensures Contains(AppServerForRedis(s), RedisReturnPattern)
  {
    var s1 := ReplaceFirst(s, StructPattern, RedisStruct);
    ReturnApart();
    ReplaceFirstKeepsEnds(s, StructPattern, RedisStruct, ReturnPattern, 30, 29);
    ReplaceFirstKeepsOuter(s1, FuncPattern, RedisFuncPattern, ReturnPattern, 22);
  }

  /** The new struct cannot overlap the signature, which has neither its `t` nor its `}`, nor
      the return literal, which lacks its `*`; it lacks the `,` of both. */
  lemma RedisStructApart()
    ensures RedisStruct[0] !in FuncPattern && RedisStruct[|RedisStruct| - 1] !in FuncPattern
    ensures 36 < |FuncPattern| && FuncPattern[36] !in RedisStruct
    ensures forall i :: 0 <= i < |RedisStruct| - 1 ==> RedisStruct[i] != ReturnPattern[|ReturnPattern| - 1]
    ensures forall i :: 0 <= i < |ReturnPattern| - 1 ==> ReturnPattern[i] != RedisStruct[|RedisStruct| - 1]
    ensures 38 < |RedisStruct| && RedisStruct[38] !in ReturnPattern && 30 < |ReturnPattern| && ReturnPattern[30] !in RedisStruct
  {
    BlockEdges();
    FuncLacks('t');
    FuncLacks('}');
    RedisStructBodyLacks(',');
    RedisStructBodyLacks('}');
    ReturnBodyLacks('*');
    ReturnBodyLacks('}');
    LastOnly(RedisStructBody, '}');
    LastOnly(ReturnBody, '}');
  }

  /** The signature cannot overlap the old struct, whose `t` and `}` it lacks, and the old
      signature and the new one cannot overlap the return literal, whose tab and `}` they lack. */
  lemma FuncApart()
    ensures StructPattern[0] !in FuncPattern && StructPattern[|StructPattern| - 1] !in FuncPattern
    ensures 36 < |FuncPattern| && FuncPattern[36] !in StructPattern
    ensures ReturnPattern[0] !in RedisFuncPattern && ReturnPattern[|ReturnPattern| - 1] !in RedisFuncPattern
    ensures 22 < |RedisFuncPattern| && RedisFuncPattern[22] !in ReturnPattern
  {
    BlockEdges();
    FuncLacks('t');
    FuncLacks('}');
    StructBodyLacks(',');
    RedisFuncLacks('\t');
    RedisFuncLacks('}');
    ReturnBodyLacks('*');
  }

  /** The return literal cannot overlap the old struct, both ending in their only `}`, nor the
      signature, which has no tab and no `}`. */
  lemma ReturnApart()
    ensures forall i :: 0 <= i < |ReturnPattern| - 1 ==> ReturnPattern[i] != StructPattern[|StructPattern| - 1]
    ensures forall i :: 0 <= i < |StructPattern| - 1 ==> StructPattern[i] != ReturnPattern[|ReturnPattern| - 1]
    ensures 30 < |ReturnPattern| && ReturnPattern[30] !in StructPattern && 29 < |StructPattern| && StructPattern[29] !in ReturnPattern
    ensures ReturnPattern[0] !in FuncPattern && ReturnPattern[|ReturnPattern| - 1] !in FuncPattern
    ensures 22 < |FuncPattern| && FuncPattern[22] !in ReturnPattern
  {
    BlockEdges();
    FuncLacks('\t');
    FuncLacks('}');
    StructBodyLacks(',');
    StructBodyLacks('}');
    ReturnBodyLacks('*');
    ReturnBodyLacks('}');
    LastOnly(StructBody, '}');
    LastOnly(ReturnBody, '}');
  }

  /** The first and last characters of the blocks and the separating characters inside them. */
  lemma BlockEdges()
    ensures StructPattern[0] == 't' && StructPattern[|StructPattern| - 1] == '}' && StructPattern[29] == '*'
    ensures RedisStruct[0] == 't' && RedisStruct[|RedisStruct| - 1] == '}' && RedisStruct[38] == '*'
    ensures FuncPattern[36] == ',' && FuncPattern[22] == '*' && RedisFuncPattern[22] == '*'
    ensures ReturnPattern[0] == '\t' && ReturnPattern[|ReturnPattern| - 1] == '}' && ReturnPattern[30] == ','
  {
  }

  lemma StructBodyLacks(c: char)
    requires c == ',' || c == '}'
    ensures c !in StructBody
  {
  }

  lemma RedisStructBodyLacks(c: char)
    requires c == ',' || c == '}'
    ensures c !in RedisStructBody
  {
    RedisStructHeadLacks(c);
  }

  lemma RedisStructHeadLacks(c: char)
    requires c == ',' || c == '}'
    ensures c !in RedisStructHead
  {
    RedisStructFieldsLack(c);
  }

  lemma RedisStructFieldsLack(c: char)
    requires c == ',' || c == '}'
    ensures c !in RedisStructFields
  {
  }

  lemma FuncLacks(c: char)
    requires c == 't' || c == '\t' || c == '}'
    ensures c !in FuncPattern
  {
    FuncParamsLack(c);
  }

  lemma FuncParamsLack(c: char)
    requires c == 't' || c == '\t' || c == '}'
    ensures c !in FuncParams
  {
  }

  lemma RedisFuncLacks(c: char)
    requires c == '\t' || c == '}'
    ensures c !in RedisFuncPattern
  {
    FuncParamsLack(c);
    RedisFuncTailLacks(c);
  }

  lemma RedisFuncTailLacks(c: char)
    requires c == '\t' || c == '}'
    ensures c !in RedisFuncTail
  {
  }

  lemma ReturnBodyLacks(c: char)
    requires c == '*' || c == '}'
    ensures c !in ReturnBody
  {
  }

  /** `updateAppServerForRedis` over the project files: with the marker present nothing is
      written, otherwise the patched text goes through the template write. */
  method UpdateAppServerForRedis(files: FileSystem, render: Utils.TextRenderer) returns (files': FileSystem, err: Option<string>)
    ensures Generators.AppServerPath !in files ==> files' == files && err == Some(AppServerMissingMessage)
    ensures Generators.AppServerPath in files && Contains(files[Generators.AppServerPath], AppServerMarker) ==>
              files' == files && err == None
    ensures Generators.AppServerPath in files && !Contains(files[Generators.AppServerPath], AppServerMarker) ==>
              (files', err) == Utils.WriteTemplate(files, Generators.AppServerPath, AppServerForRedis(files[Generators.AppServerPath]), render)
  {
    if Generators.AppServerPath !in files {
      return files, Some(AppServerMissingMessage);
    }
    var appServerStr := files[Generators.AppServerPath];
    if Contains(appServerStr, AppServerMarker) {
      return files, None;
    }
    appServerStr := ReplaceFirst(appServerStr, StructPattern, RedisStruct);
    appServerStr := ReplaceFirst(appServerStr, FuncPattern, RedisFuncPattern);
    appServerStr := ReplaceFirst(appServerStr, ReturnPattern, RedisReturnPattern);
    var w := Utils.WriteTemplate(files, Generators.AppServerPath, appServerStr, render);
    return w.0, w.1;
  }

  // ---------------------------------------------------------------- project name

  const ProjectNameMissing := "could not find module name in go.mod"

  /** `getProjectName`: the shared `go.mod` scan with its own message. */
  method GetProjectName(files: FileSystem) returns (r: Result<string, string>)
    ensures Utils.GoModPath !in files ==> r == Err(Utils.GoModReadError)
    ensures Utils.GoModPath in files ==> r == Utils.ModuleNameIn(files[Utils.GoModPath], ProjectNameMissing)
  {
    if Utils.GoModPath !in files {
      return Err(Utils.GoModReadError);
    }
    r := Utils.ScanModuleName(files[Utils.GoModPath], ProjectNameMissing);
  }
}
