/** The older single-file generator: its own route splicer, field parser, module-line scan
    and the database edit of `addDatabaseSupport`. */
module Generators {
  import opened Wrappers
  import opened Text
  import Utils
  import RouteGen

  // ---------------------------------------------------------------- route registration

  const LegacyNotFoundMessage := "v1.go file not found at route/v1.go"
  const NoInsertionPointMessage := "could not find insertion point in v1.go"

  /** The legacy `updateV1Routes` text edit: the same anchors as the current one, but a file
      with neither anchor comment is an error instead of getting a block before the last `}`. */
  function LegacySplice(content: string, resourceName: string): (r: Result<string, string>)
    ensures r.Err? <==> !Contains(content, RouteGen.SetupCall(resourceName))
                        && !Contains(content, RouteGen.SectionComment) && !Contains(content, RouteGen.RepoComment)
    ensures r.Err? ==> r.error == NoInsertionPointMessage
    ensures r.Ok? ==> r == RouteGen.Splice(content, resourceName)
  {
    var call := RouteGen.SetupCall(resourceName);
    if Contains(content, call) then Ok(content)
    else if Contains(content, RouteGen.SectionComment) then Ok(RouteGen.SectionSplice(content, call))
    else if Contains(content, RouteGen.RepoComment) then Ok(RouteGen.RepoSplice(content, IndexOf(content, RouteGen.RepoComment), call))
    else Err(NoInsertionPointMessage)
  }

  /** Legacy `updateV1Routes` over the project files. */
  method LegacyUpdateV1Routes(files: FileSystem, resourceName: string) returns (files': FileSystem, err: Option<string>)
    ensures RouteGen.V1Path !in files ==> files' == files && err == Some(LegacyNotFoundMessage)
    ensures RouteGen.V1Path in files ==> match LegacySplice(files[RouteGen.V1Path], resourceName)
                                           case Ok(t) => files' == files[RouteGen.V1Path := t] && err == None
                                           case Err(e) => files' == files && err == Some(e)
  {
    if RouteGen.V1Path !in files {
      return files, Some(LegacyNotFoundMessage);
    }
    var content := files[RouteGen.V1Path];
    var setupCall := RouteGen.SetupCall(resourceName);
    if Contains(content, setupCall) {
      return files, None;
    }
    var commentIndex := IndexOf(content, RouteGen.SectionComment);
    ContainsIndex(content, RouteGen.SectionComment);
    if commentIndex == -1 {
      var repoIndex := IndexOf(content, RouteGen.RepoComment);
      ContainsIndex(content, RouteGen.RepoComment);
      if repoIndex == -1 {
        return files, Some(NoInsertionPointMessage);
      }
      var newContent := content[..repoIndex] + "\t" + RouteGen.SectionComment + "\n\t" + setupCall + "\n\n\t" + content[repoIndex..];
      assert newContent == RouteGen.RepoSplice(content, repoIndex, setupCall);
      return files[RouteGen.V1Path := newContent], None;
    }
    var updated := RouteGen.SpliceSection(content, setupCall);
    return files[RouteGen.V1Path := updated], None;
  }

  /** The two splicers disagree only on a file with neither anchor: there the current one
      writes before the last `}` (or fails the same way on a file without `}`). */
  lemma SplicersDiffer(content: string, resourceName: string)
    ensures LegacySplice(content, resourceName).Err? ==>
      (RouteGen.Splice(content, resourceName).Ok? <==> '}' in content)
  {
  }

  /** The legacy splicer is idempotent too. */
  lemma LegacySpliceIdempotent(content: string, resourceName: string)
    requires LegacySplice(content, resourceName).Ok?
    ensures LegacySplice(LegacySplice(content, resourceName).value, resourceName) == LegacySplice(content, resourceName)
  {
  }

  // ---------------------------------------------------------------- fields

  /** The legacy field record: the shared one without the query columns. */
  datatype LegacyField = LegacyField(name: string, goType: string, tag: string, gormTag: string, jsonTag: string)

  function LegacyFieldFrom(left: string, right: string): LegacyField {
    var fieldType := Utils.MapGoType(right);
    var lowerName := ToLower(left);
    LegacyField(Title(left), fieldType, Utils.StructTag(lowerName), "column:" + lowerName, lowerName)
  }

  /** The legacy parser's result: one record per kept token, in order. */
  function LegacyParsedFields(tokens: seq<string>): (fields: seq<LegacyField>)
    ensures |fields| == |Utils.Kept(tokens)|
  {
    var kept := Utils.Kept(tokens);
    seq(|kept|, k requires 0 <= k < |kept| =>
      var parts := Split(kept[k], ':'); LegacyFieldFrom(parts[0], parts[1]))
  }

  /** `parseFields`: the same split-and-drop loop as the shared parser. */
  method ParseFields(fields: seq<string>) returns (result: seq<LegacyField>)
    ensures result == LegacyParsedFields(fields)
  {
    result := [];
    for i := 0 to |fields|
      invariant result == LegacyParsedFields(fields[..i])
    {
      var field := fields[i];
      assert fields[..i + 1][..i] == fields[..i];
      var parts := Split(field, ':');
      if |parts| == 2 {
        result := result + [LegacyFieldFrom(parts[0], parts[1])];
      }
    }
    assert fields[..|fields|] == fields;
  }

  function Legacy(f: Utils.Field): LegacyField {
    LegacyField(f.name, f.goType, f.tag, f.gormTag, f.jsonTag)
  }

  /** Both parsers keep the same tokens in the same order and agree on every shared column;
      the newer one adds `QueryType = "*" + Type` and `QueryTag = JsonTag`. */
  lemma ParsersAgree(tokens: seq<string>)
    ensures var legacy := LegacyParsedFields(tokens); var shared := Utils.ParsedFields(tokens);
      |legacy| == |shared| && forall k :: 0 <= k < |shared| ==>
        legacy[k] == Legacy(shared[k]) && shared[k].queryType == "*" + shared[k].goType && shared[k].queryTag == shared[k].jsonTag
  {
  }

  // ---------------------------------------------------------------- go.mod

  /** `getModuleName`: the same go.mod scan as the shared helper, with the same message. */
  method GetModuleName(files: FileSystem) returns (r: Result<string, string>)
    ensures Utils.GoModPath !in files ==> r == Err(Utils.GoModReadError)
    ensures Utils.GoModPath in files ==> r == Utils.ModuleNameIn(files[Utils.GoModPath], Utils.ModuleNotFound)
  {
    if Utils.GoModPath !in files {
      return Err(Utils.GoModReadError);
    }
    r := Utils.ScanModuleName(files[Utils.GoModPath], Utils.ModuleNotFound);
  }

  // ---------------------------------------------------------------- database support

  const EnvExamplePath := ".env.example"
  const AppServerPath := "cmd/app_server.go"
  const NotAProjectMessage := "not in a Go project directory (go.mod not found)"

  const EnvExampleContent :=
    "# Application\nAPP_NAME=MyApp\nAPP_PORT=8080\nAPP_ENV=development\n\n"
    + "# Database\nDB_HOST=localhost\nDB_PORT=5432\nDB_USER=postgres\nDB_PASSWORD=password\nDB_NAME=myapp_db\nDB_SSL_MODE=disable\n"

  /** The start-up block that lets the server run without a database. */
  const OptionalDbBlock :=
    "// Initialize database (optional - server can run without it)\n\tvar err error\n\ts.db, err = adapter.NewDatabaseAdapter(s.config)\n\tif err != nil {\n"
    + "\t\tlog.Printf(\"\U{26A0}\U{FE0F}  Database connection failed: %v\", err)\n"
    + "\t\tlog.Println(\"\U{1F4A1} To connect to PostgreSQL, set these environment variables:\")\n"
    + "\t\tlog.Println(\"   DB_HOST, DB_PORT, DB_USER, DB_PASSWORD, DB_NAME\")\n"
    + "\t\tlog.Println(\"   Or use: oakhouse add database\")\n"
    + "\t\tlog.Println(\"\U{1F680} Server will continue without database connection\")\n"
    + "\t\ts.db = nil\n\t}"

  /** The block that stops the server when the database is unreachable. */
  const RequiredDbBlock :=
    "// Initialize database\n\tvar err error\n\ts.db, err = adapter.NewDatabaseAdapter(s.config)\n\tif err != nil {\n"
    + "\t\tlog.Fatalf(\"Failed to connect to database: %v\", err)\n\t}"

  /** The files after `addDatabaseSupport`: `.env.example` overwritten, and in `cmd/app_server.go`,
      when it exists, every optional-database block replaced by the required one. */
  function DatabaseSupport(files: FileSystem): (r: Result<FileSystem, string>)
    ensures r.Err? <==> Utils.GoModPath !in files
    ensures r.Ok? ==> r.value.Keys == files.Keys + {EnvExamplePath}
    ensures r.Ok? ==> r.value[EnvExamplePath] == EnvExampleContent
    ensures r.Ok? ==> forall p :: p in files && p != EnvExamplePath && p != AppServerPath ==> r.value[p] == files[p]
  {
    if Utils.GoModPath !in files then Err(NotAProjectMessage)
    else
      var withEnv := files[EnvExamplePath := EnvExampleContent];
      if AppServerPath in files then
        Ok(withEnv[AppServerPath := ReplaceAll(files[AppServerPath], OptionalDbBlock, RequiredDbBlock)])
      else Ok(withEnv)
  }

  /** `addDatabaseSupport` over the project files. */
  method AddDatabaseSupport(files: FileSystem) returns (files': FileSystem, err: Option<string>)
    ensures DatabaseSupport(files).Ok? ==> files' == DatabaseSupport(files).value && err == None
    ensures DatabaseSupport(files).Err? ==> files' == files && err == Some(DatabaseSupport(files).error)
  {
    if Utils.GoModPath !in files {
      return files, Some(NotAProjectMessage);
    }
    files' := files[EnvExamplePath := EnvExampleContent];
    if AppServerPath in files {
      var content := files[AppServerPath];
      var updatedContent := ReplaceAll(content, OptionalDbBlock, RequiredDbBlock);
      files' := files'[AppServerPath := updatedContent];
    }
    err := None;
  }

  /** `cmd/app_server.go` is touched only by the replacement: without the optional block it is kept
      as it was, and with it the required block is in. */
  lemma DatabaseSupportAppServer(files: FileSystem)
    requires Utils.GoModPath in files && AppServerPath in files
    ensures var after := DatabaseSupport(files).value[AppServerPath];
      (!Contains(files[AppServerPath], OptionalDbBlock) ==> after == files[AppServerPath])
      && (Contains(files[AppServerPath], OptionalDbBlock) ==> Contains(after, RequiredDbBlock))
  {
  }
}
