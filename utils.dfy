/** The shared generator helpers: the `name:type` field language, Go type mapping,
    the identifier case converters and the `go.mod` module-line scan. */
module Utils {
  import opened Wrappers
  import opened Text

  // ---------------------------------------------------------------- Go type mapping

  /** The Go types a field type can map to. */
  const GoTypes: set<string> := {"string", "int", "int64", "float64", "bool", "time.Time", "uuid.UUID"}

  /** The lower-case type names the mapping recognises, with their Go types. */
  const GoTypeTable: map<string, string> := map[
    "string" := "string", "int" := "int", "int64" := "int64", "float64" := "float64",
    "bool" := "bool", "time" := "time.Time", "uuid" := "uuid.UUID"]

  /** `MapGoType`: a switch on the lower-cased type name with a `string` default. */
  function MapGoType(t: string): (r: string)
    ensures r in GoTypes
  {
    var l := ToLower(t);
    if l == "string" then "string"
    else if l == "int" then "int"
    else if l == "int64" then "int64"
    else if l == "float64" then "float64"
    else if l == "bool" then "bool"
    else if l == "time" then "time.Time"
    else if l == "uuid" then "uuid.UUID"
    else "string"
  }

  /** The switch agrees with the lookup table: known names map through it, all others give `string`. */
  lemma MapGoTypeTable(t: string)
    ensures MapGoType(t) == if ToLower(t) in GoTypeTable then GoTypeTable[ToLower(t)] else "string"
  {
  }

  lemma ToLowerIdempotent(s: string)
    ensures ToLower(ToLower(s)) == ToLower(s)
  {
    var l := ToLower(s);
    assert forall i :: 0 <= i < |l| ==> !IsUpper(l[i]);
    assert forall i :: 0 <= i < |l| ==> LowerChar(l[i]) == l[i];
  }

  /** The mapping ignores case: a name and its lower-case form map alike. */
  lemma MapGoTypeCaseInsensitive(t: string)
    ensures MapGoType(ToLower(t)) == MapGoType(t)
  {
    ToLowerIdempotent(t);
  }

  // ---------------------------------------------------------------- field specs

  /** A struct field derived from a `name:type` token. */
  datatype Field = Field(name: string, goType: string, tag: string, gormTag: string,
                         jsonTag: string, queryType: string, queryTag: string)

  /** A token the parser keeps: one that `strings.Split(token, ":")` cuts in exactly two. */
  predicate TwoParts(token: string) {
    |Split(token, ':')| == 2
  }

  /** The struct tag `json:"x" gorm:"column:x"`. */
  function StructTag(lowerName: string): string {
    "json:\"" + lowerName + "\" gorm:\"column:" + lowerName + "\""
  }

  /** The field built from the two halves of a token. */
  function FieldFrom(left: string, right: string): Field {
    var fieldType := MapGoType(right);
    var lowerName := ToLower(left);
    Field(Title(left), fieldType, StructTag(lowerName), "column:" + lowerName, lowerName, "*" + fieldType, lowerName)
  }

  function FieldOf(token: string): Field
    requires TwoParts(token)
  {
    var parts := Split(token, ':');
    FieldFrom(parts[0], parts[1])
  }

  /** The tokens the parser keeps, in input order: exactly those in two parts. */
  function Kept(tokens: seq<string>): (kept: seq<string>)
    ensures forall k :: 0 <= k < |kept| ==> TwoParts(kept[k])
    ensures forall t :: t in kept <==> t in tokens && TwoParts(t)
    ensures |kept| <= |tokens|
  {
    if |tokens| == 0 then []
    else Kept(tokens[..|tokens| - 1]) + (if TwoParts(tokens[|tokens| - 1]) then [tokens[|tokens| - 1]] else [])
  }

  /** The parser's result: one field per kept token, in order. */
  function ParsedFields(tokens: seq<string>): (fields: seq<Field>)
    ensures |fields| == |Kept(tokens)|
    ensures forall k :: 0 <= k < |fields| ==> fields[k] == FieldOf(Kept(tokens)[k])
  {
    var kept := Kept(tokens);
    seq(|kept|, k requires 0 <= k < |kept| => FieldOf(kept[k]))
  }

  /** `ParseFields`: split each token at `:`, silently drop those not in two parts. */
  method ParseFields(fields: seq<string>) returns (result: seq<Field>)
    ensures result == ParsedFields(fields)
  {
    result := [];
    for i := 0 to |fields|
      invariant result == ParsedFields(fields[..i])
    {
      var field := fields[i];
      assert fields[..i + 1][..i] == fields[..i];
      var parts := Split(field, ':');
      if |parts| == 2 {
        result := result + [FieldFrom(parts[0], parts[1])];
      }
    }
    assert fields[..|fields|] == fields;
  }

  /** A token is kept exactly when it holds one `:`. */
  lemma TwoPartsOneColon(token: string)
    ensures TwoParts(token) <==> multiset(token)[':'] == 1
  {
    SplitLength(token, ':');
  }

  /** One token is kept alone or dropped. */
  lemma KeptSingle(token: string)
    ensures Kept([token]) == if TwoParts(token) then [token] else []
  {
    assert [token][..0] == [];
  }

  /** Filtering is done token by token, so it keeps the input order across concatenation. */
  lemma {:induction false} KeptAppend(xs: seq<string>, ys: seq<string>)
    ensures Kept(xs + ys) == Kept(xs) + Kept(ys)
    decreases |ys|
  {
    if |ys| > 0 {
      var init := ys[..|ys| - 1];
      assert (xs + ys)[..|xs + ys| - 1] == xs + init;
      KeptAppend(xs, init);
    } else {
      assert xs + ys == xs;
    }
  }

  /** A token `left:right` whose halves hold no `:` is kept and yields the field built from its halves. */
  lemma FieldOfToken(left: string, right: string)
    requires ':' !in left && ':' !in right
    ensures TwoParts(left + ":" + right)
    ensures FieldOf(left + ":" + right) == FieldFrom(left, right)
  {
    assert Join([left, right], [':']) == left + ":" + right;
    SplitJoin([left, right], ':');
  }

  /** Tokens such as `a` and `a:b:c` are dropped. */
  lemma DroppedTokens()
    ensures Kept(["a", "a:b:c"]) == []
  {
    TwoPartsOneColon("a");
    TwoPartsOneColon("a:b:c");
    assert multiset("a")[':'] == 0;
    assert multiset("a:b:c")[':'] == 2;
    assert ["a", "a:b:c"][..1] == ["a"];
  }

  // ---------------------------------------------------------------- snake case

  /** The text with `_` before every `A`-`Z` that is not the first character. */
  function Underscored(s: string): string {
    if |s| == 0 then ""
    else
      var last := s[|s| - 1];
      Underscored(s[..|s| - 1]) + (if |s| > 1 && IsUpper(last) then "_" else "") + [last]
  }

  /** The number of `A`-`Z` after the first character. */
  function LaterCapitals(s: string): nat {
    if |s| <= 1 then 0 else LaterCapitals(s[..|s| - 1]) + (if IsUpper(s[|s| - 1]) then 1 else 0)
  }

  function SnakeCase(s: string): string {
    ToLower(Underscored(s))
  }

  lemma {:induction false} UnderscoredLength(s: string)
    ensures |Underscored(s)| == |s| + LaterCapitals(s)
    decreases |s|
  {
    if |s| > 0 {
      UnderscoredLength(s[..|s| - 1]);
    }
  }

  lemma {:induction false} UnderscoredNoUpper(s: string)
    requires NoUpper(s)
    ensures Underscored(s) == s
    decreases |s|
  {
    if |s| > 0 {
      UnderscoredNoUpper(s[..|s| - 1]);
      assert s[..|s| - 1] + [s[|s| - 1]] == s;
    }
  }

  lemma ToLowerNoUpper(s: string)
    requires NoUpper(s)
    ensures ToLower(s) == s
  {
  }

  /** `ToSnakeCase` (also `toSnakeCase` in `code_templates.go` and `ToSnakeCase` in `template_helpers.go`):
      mark later capitals with `_`, then lower-case. */
  method ToSnakeCase(str: string) returns (r: string)
    ensures r == SnakeCase(str)
    ensures NoUpper(r) && |r| == |str| + LaterCapitals(str)
  {
    var result: seq<char> := [];
    for i := 0 to |str|
      invariant result == Underscored(str[..i])
    {
      assert str[..i + 1][..i] == str[..i];
      if i > 0 && 'A' <= str[i] <= 'Z' {
        result := result + ['_'];
      }
      result := result + [str[i]];
    }
    assert str[..|str|] == str;
    UnderscoredLength(str);
    r := ToLower(result);
  }

  /** Converting twice is converting once: the output has no capitals left to mark. */
  lemma SnakeCaseIdempotent(s: string)
    ensures SnakeCase(SnakeCase(s)) == SnakeCase(s)
  {
    var once := SnakeCase(s);
    UnderscoredNoUpper(once);
    ToLowerNoUpper(once);
  }

  /** No `_` is put in front of the first character. */
  lemma SnakeCaseFirst(s: string)
    requires |s| > 0
    ensures SnakeCase(s)[0] == LowerChar(s[0])
  {
    UnderscoredLength(s);
    UnderscoredPrefix(s);
  }

  lemma {:induction false} UnderscoredPrefix(s: string)
    requires |s| > 0
    ensures |Underscored(s)| > 0 && Underscored(s)[0] == s[0]
    decreases |s|
  {
    if |s| > 1 {
      UnderscoredPrefix(s[..|s| - 1]);
    }
  }

  // ---------------------------------------------------------------- camel and pascal case

  /** The `_`-separated segments after the first, each Title-cased. */
  function TitledRest(parts: seq<string>): (r: seq<string>)
    requires |parts| >= 1
    ensures |r| == |parts| - 1
  {
    seq(|parts| - 1, i requires 0 <= i < |parts| - 1 => Title(parts[i + 1]))
  }

  function CamelCase(s: string): string {
    var parts := Split(s, '_');
    Join([parts[0]] + TitledRest(parts), "")
  }

  function PascalCase(s: string): string {
    var parts := Split(s, '_');
    Join([Title(parts[0])] + TitledRest(parts), "")
  }

  /** `ToCamelCase`: split on `_`, Title-case every segment after the first in place, join. */
  method ToCamelCase(str: string) returns (r: string)
    ensures r == CamelCase(str)
  {
    var parts := Split(str, '_');
    ghost var original := parts;
    for i := 1 to |parts|
      invariant |parts| == |original|
      invariant forall j :: 0 <= j < |parts| ==> parts[j] == if 1 <= j < i then Title(original[j]) else original[j]
    {
      parts := parts[i := Title(parts[i])];
    }
    assert parts == [original[0]] + TitledRest(original);
    r := Join(parts, "");
  }

  /** `ToPascalCase`: the same with every segment Title-cased. */
  method ToPascalCase(str: string) returns (r: string)
    ensures r == PascalCase(str)
  {
    var parts := Split(str, '_');
    ghost var original := parts;
    for i := 0 to |parts|
      invariant |parts| == |original|
      invariant forall j :: 0 <= j < |parts| ==> parts[j] == if j < i then Title(original[j]) else original[j]
    {
      parts := parts[i := Title(parts[i])];
    }
    assert parts == [Title(original[0])] + TitledRest(original);
    r := Join(parts, "");
  }

  lemma JoinEmptyCons(x: string, rest: seq<string>)
    ensures Join([x] + rest, "") == x + Join(rest, "")
  {
    if |rest| == 0 {
      assert [x] + rest == [x];
    } else {
      JoinCons(x, rest, "");
    }
  }

  /** Camel and Pascal case differ only in the first segment, which camel case leaves as it was. */
  lemma CamelPascal(s: string)
    ensures var parts := Split(s, '_'); var tail := Join(TitledRest(parts), "");
      CamelCase(s) == parts[0] + tail && PascalCase(s) == Title(parts[0]) + tail
  {
    var parts := Split(s, '_');
    JoinEmptyCons(parts[0], TitledRest(parts));
    JoinEmptyCons(Title(parts[0]), TitledRest(parts));
  }

  lemma TitleKeeps(s: string, c: char)
    requires c !in s && !IsLower(c) && !IsUpper(c)
    ensures c !in Title(s)
  {
    forall i | 0 <= i < |s| ensures Title(s)[i] != c {
      assert s[i] != c;
    }
  }

  lemma {:induction false} JoinEmptyLacks(parts: seq<string>, c: char)
    requires NoneContains(parts, c)
    ensures c !in Join(parts, "")
    decreases |parts|
  {
    if |parts| > 1 {
      JoinEmptyLacks(parts[1..], c);
    }
  }

  /** Neither conversion leaves a `_` in its output. */
  lemma CamelPascalNoUnderscore(s: string)
    ensures '_' !in CamelCase(s) && '_' !in PascalCase(s)
  {
    var parts := Split(s, '_');
    SplitPartsLack(s, '_');
    forall i | 0 <= i < |parts| ensures '_' !in Title(parts[i]) {
      TitleKeeps(parts[i], '_');
    }
    JoinEmptyLacks([parts[0]] + TitledRest(parts), '_');
    JoinEmptyLacks([Title(parts[0])] + TitledRest(parts), '_');
  }

  /** Text without `_` is returned unchanged by camel case. */
  lemma CamelCaseNoUnderscore(s: string)
    requires '_' !in s
    ensures CamelCase(s) == s
  {
    SplitNoSep(s, '_');
  }

  // ---------------------------------------------------------------- go.mod

  const GoModPath := "go.mod"
  const GoModReadError := "open go.mod: no such file or directory"
  const ModuleNotFound := "module name not found in go.mod"

  /** Index of the first line at or after `k` starting with `p`, or -1. */
  function FirstLineStarting(lines: seq<string>, p: string, k: nat): (r: int)
    ensures r == -1 || (k <= r < |lines| && HasPrefix(lines[r], p))
    ensures r == -1 ==> forall j :: k <= j < |lines| ==> !HasPrefix(lines[j], p)
    ensures forall j :: k <= j < r ==> !HasPrefix(lines[j], p)
    decreases |lines| - k
  {
    if k >= |lines| then -1
    else if HasPrefix(lines[k], p) then k
    else FirstLineStarting(lines, p, k + 1)
  }

  /** The module path declared by the first `module ` line of `content`, or `notFound`. */
  function ModuleNameIn(content: string, notFound: string): (r: Result<string, string>)
    ensures r.Err? ==> r.error == notFound
  {
    var lines := Split(content, '\n');
    var k := FirstLineStarting(lines, "module ", 0);
    if k == -1 then Err(notFound) else Ok(TrimSpace(TrimPrefix(lines[k], "module")))
  }

  /** The `go.mod` line scan shared by `GetModuleName`, `getModuleName` and `getProjectName`,
      which differ only in the message for a file without a module line. */
  method ScanModuleName(content: string, notFound: string) returns (r: Result<string, string>)
    ensures r == ModuleNameIn(content, notFound)
  {
    var lines := Split(content, '\n');
    for i := 0 to |lines|
      invariant FirstLineStarting(lines, "module ", i) == FirstLineStarting(lines, "module ", 0)
    {
      if HasPrefix(lines[i], "module ") {
        return Ok(TrimSpace(TrimPrefix(lines[i], "module")));
      }
    }
    return Err(notFound);
  }

  /** `GetModuleName`: read `go.mod` and scan it. */
  method GetModuleName(files: FileSystem) returns (r: Result<string, string>)
    ensures GoModPath !in files ==> r == Err(GoModReadError)
    ensures GoModPath in files ==> r == ModuleNameIn(files[GoModPath], ModuleNotFound)
  {
    if GoModPath !in files {
      return Err(GoModReadError);
    }
    r := ScanModuleName(files[GoModPath], ModuleNotFound);
  }

  predicate NoModuleLine(lines: seq<string>) {
    forall j :: 0 <= j < |lines| ==> !HasPrefix(lines[j], "module ")
  }

  /** A file fails the scan exactly when none of its lines starts with `module `. */
  lemma ModuleNameMissing(content: string, notFound: string)
    ensures ModuleNameIn(content, notFound).Err? <==> NoModuleLine(Split(content, '\n'))
  {
    var lines := Split(content, '\n');
    var k := FirstLineStarting(lines, "module ", 0);
    if k >= 0 {
      assert HasPrefix(lines[k], "module ");
    }
  }

  /** A `go.mod` opening with `module <name>` yields that name, whatever follows. */
  lemma ModuleNameFirstLine(name: string, rest: string, notFound: string)
    requires '\n' !in name && |name| > 0 && !IsSpace(name[0]) && !IsSpace(name[|name| - 1])
    ensures ModuleNameIn("module " + name + "\n" + rest, notFound) == Ok(name)
  {
    var line := "module " + name;
    var content := "module " + name + "\n" + rest;
    var lines := Split(content, '\n');
    assert lines[0] == line by {
      assert content == line + ['\n'] + rest;
      SplitAround(line, rest, '\n');
      assert '\n' !in line;
      SplitNoSep(line, '\n');
    }
    assert FirstLineStarting(lines, "module ", 0) == 0 by {
      assert HasPrefix(line, "module ");
    }
    assert TrimSpace(TrimPrefix(line, "module")) == name by {
      assert TrimPrefix(line, "module") == " " + name;
      assert TrimLeft(" " + name) == name by {
        assert (" " + name)[1..] == name;
      }
      assert TrimRight(name) == name;
    }
  }

  // ---------------------------------------------------------------- template files

  /** What `text/template` makes of a text parsed and executed with no data: the parse fails,
      the execution fails after writing `partial`, or the text renders to `text`. */
  datatype Rendering = ParseFailed(reason: string) | ExecuteFailed(reason: string, partial: string) | Rendered(text: string)

  /** Parsing and executing a text as a template with no data. The template language itself is
      not modelled. */
  type TextRenderer = string -> Rendering

  /** `text/template` copies a text without any `{{` as it is: it holds no action. */
  ghost predicate CopiesPlainText(render: TextRenderer) {
    forall t {:trigger render(t)} :: !Contains(t, "{{") ==> render(t) == Rendered(t)
  }

  /** `WriteFile` with no data: a parse error comes before the file is created, so nothing
      changes; otherwise the file is created empty and gets the rendered text, or the output
      written before an execution error. No other file changes. */
  function WriteTemplate(files: FileSystem, path: string, tmpl: string, render: TextRenderer): (r: (FileSystem, Option<string>))
    ensures forall p :: p != path ==> (p in r.0 <==> p in files) && (p in files ==> r.0[p] == files[p])
    ensures r.1.None? <==> render(tmpl).Rendered?
    ensures render(tmpl).ParseFailed? ==> r.0 == files
    ensures !render(tmpl).ParseFailed? ==> path in r.0
    ensures render(tmpl).Rendered? ==> r.0[path] == render(tmpl).text
    ensures render(tmpl).ExecuteFailed? ==> r.0[path] == render(tmpl).partial
    ensures render(tmpl).ParseFailed? ==> r.1 == Some("failed to parse template: " + render(tmpl).reason)
    ensures render(tmpl).ExecuteFailed? ==> r.1 == Some("failed to execute template: " + render(tmpl).reason)
  {
    match render(tmpl)
    case ParseFailed(reason) => (files, Some("failed to parse template: " + reason))
    case ExecuteFailed(reason, partial) => (files[path := partial], Some("failed to execute template: " + reason))
    case Rendered(text) => (files[path := text], None)
  }

  /** A text without `{{` is written as it is and the write succeeds. */
  lemma WritePlainText(files: FileSystem, path: string, tmpl: string, render: TextRenderer)
    requires CopiesPlainText(render) && !Contains(tmpl, "{{")
    ensures WriteTemplate(files, path, tmpl, render) == (files[path := tmpl], None)
  {
    assert render(tmpl) == Rendered(tmpl);
  }
}
