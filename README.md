# go-to-oakhouse, modelled in Dafny

go-to-oakhouse (`oakhouse`) is a command-line scaffolder for Go web services. Without its file
and process plumbing, its core is a set of small text transforms:

- it registers a resource's routes in `route/v1.go`;
- it parses and validates the `name:type` field language;
- it patches `go.mod`, `.env.example`, the config file, `cmd/main.go` and `cmd/app_server.go` when Redis is integrated;
- it grows a model's `scope/<model>/filter.go` one section at a time: a field filter guarded by `FilterBy<field>`, the pagination functions guarded by `PaginationScope`, and the advanced date-range filter guarded by `DateRangeFilter`;
- it converts names between cases.

The sample projects the tool generates also carry some pagination arithmetic and a Bearer-token
extractor. This project models all of these and proves what they promise.

The project files:

- `wrappers.dfy`: `Option`, `Result`, and the file system as a `map` from path to text.
- `text.dfy`: the parts of Go's `strings` package that are used.
  - Substring search, `Split`/`Join`, first and all replacement, trimming and ASCII case mapping.
  - The lemmas the other modules build on, among them that split and join are inverses.
- `route.dfy`: the current route splicer (`generators/route.go`).
- `generators.dfy`: the older single-file generator (`generators.go`):
  - its splicer and field parser;
  - its `go.mod` scan;
  - the database edit.
- `utils.dfy`: the shared helpers (`utils/utils.go`):
  - the field parser and type table;
  - the snake, camel and Pascal case conversions;
  - the module-line scan.
- `generate_cmd.dfy`: the strict validators of the `generate` command.
- `integrate.dfy`: the Redis integration patches.
- `scope.dfy`: the scope generator.
- `templates.dfy`: the name helpers of the template package.
- `pagination.dfy`, `dto.dfy`, `auth.dfy`: code from the generated sample projects.

Text is `seq<char>`, with one `char` per rune. File-system calls become a `map<string, string>` passed in and returned. Template rendering is a function-typed parameter: the scope module's `Renderer`, and `Utils.TextRenderer` for the data-less render that `utils.WriteFile` applies to every file it writes.

Each operation that works step by step is a method with loops or reassignments. Each is proved equal to a function, and the properties the code promises are proved about that function:

- the route splicer and its section loop;
- the field loops;
- the `require` block loop;
- the step-by-step config, `main.go` and `app_server.go` patches;
- the scope field loop;
- the clamps of `GetPaginationParams`;
- `SetDefaults`, a method of a class whose fields it updates.

Points where the model follows the code rather than its description:

- **Route splicing works from anchor comments, not from Go syntax.** The splicer is described as finding the route-setup function and its group declaration. The code does not do that. It searches for the anchor comments `// Setup resource routes` and `// Initialize repositories`, then for the last `}`. The model does what the code does.
- **Duplicate copies are modelled once.** Several helpers appear in two or three identical copies: `mapGoType`, the snake-case loop, `toCamelCase`/`toPlural`, and the `go.mod` module-line scan. Each is modelled once, and the rows below name every copy's lines.
  - The shared module-line scan takes the not-found message as a parameter, because the copies word that message differently.
- **The "end of return block" check in `updateConfigForRedis` is dead.** The code adds the block's start to the result of a search before it tests that result for -1. The sum can never be -1, so that error is never raised.
  - A return block without a `}` after it therefore gets the Redis lines one byte before `return &Config{`.
  - The model keeps this behaviour: see `Integrate.ReturnGuardDead` and `Integrate.ReturnStepPlace`.
- **Patching `main.go` twice is the same as once unless the server line occurs twice.** This holds when the text contains the database-initialisation pattern, when it already contains the marker `RedisAdapter`, or when `server := NewAppServer(cfg, db)` occurs at most once.
  - Otherwise the database pattern is absent, so no run adds the marker. Each run rewrites the next copy of the server line: `Integrate.MainGoForRedisTwoServers`.
- **The patched Go files go through the template engine.** `utils.WriteFile` parses and executes its text as a template with no data before writing it, and the Redis patches write `config.go`, `main.go` and `app_server.go` through it.
  - Text holding `{{` is therefore not necessarily written as it is.

## Model

| member | source | states |
|---|---|---|
| RouteGen.Splice | cmd/oakhouse/generators/route.go:53-121 | An already registered call leaves the text as it is. Error exactly when the text has neither anchor comment and no `}`, with the malformed-file message. Every success contains the call. |
| RouteGen.UpdateV1Routes | cmd/oakhouse/generators/route.go:39-122 | A missing `route/v1.go` is an error. Otherwise the file becomes the spliced text, or the error leaves the files as they were. |
| RouteGen.SpliceSection | cmd/oakhouse/generators/route.go:86-121 | The comment-line scan, the registration-run scan and the line splice compute the section branch of `Splice`. |
| RouteGen.FindCommentLine | cmd/oakhouse/generators/route.go:91-96 | The first loop stops at the first line holding the section comment and yields its index, or -1 when no line holds it. |
| RouteGen.ScanRun | cmd/oakhouse/generators/route.go:99-108 | The second loop yields the last registration of the run after the comment line. A non-blank line without `Setup` ends the run. |
| RouteGen.SectionInsertPoint | cmd/oakhouse/generators/route.go:91-117 | The new line goes after the first section comment line. It goes after the last registration in the run that follows; blank lines do not end that run. No later registration belongs to the run. |
| RouteGen.SectionSpliceLines | cmd/oakhouse/generators/route.go:111-120 | In the section branch the output lines are the input lines with exactly one new line, the call indented by a tab, inserted at the scan's point. |
| RouteGen.SpliceOnlyInserts | cmd/oakhouse/generators/route.go:57-121 | Every successful splice only inserts text at one position. With the call already there it inserts nothing; otherwise what it inserts contains the call. In the repositories branch it inserts the section comment and call in front of the first repositories comment; in the brace branch, in front of the last `}`. |
| RouteGen.RepoOnlyInserts | cmd/oakhouse/generators/route.go:80-82 | With only the repositories comment, exactly a tab, the section comment, a tab-indented call and a blank line are inserted at the given position, in front of that comment's first occurrence. |
| RouteGen.BraceOnlyInserts | cmd/oakhouse/generators/route.go:69-77 | With neither comment, exactly a newline, the tab-indented section comment and the tab-indented call are inserted at the given position, in front of the last `}`. |
| RouteGen.SpliceIdempotent | cmd/oakhouse/generators/route.go:57-121 | Splicing the same resource twice gives the result of splicing it once. |
| RouteGen.SpliceRegisters | cmd/oakhouse/generators/route.go:63-121 | After a splice the call line is one of the registrations of the section that follows the first section comment. This holds in all three branches. |
| RouteGen.SpliceAfter | cmd/oakhouse/generators/route.go:100-117 | A registration already in the section stays before the newly inserted line. |
| RouteGen.RegistrationOrder | cmd/oakhouse/generators/route.go:100-113 | Registering A and then B leaves A's call line before B's: calls are appended, never re-sorted. |
| Generators.LegacySplice | cmd/oakhouse/generators.go:314-374 | The older splicer fails exactly when neither anchor comment is present, with "could not find insertion point". Otherwise it gives the current splicer's result. |
| Generators.LegacyUpdateV1Routes | cmd/oakhouse/generators.go:300-375 | A missing `route/v1.go` is an error. Otherwise the file gets the legacy splice, or is left as it was on error. |
| Generators.SplicersDiffer | cmd/oakhouse/generators.go:323-331 | Where the legacy splicer fails, the current one succeeds exactly when the text has a `}`. |
| Generators.LegacySpliceIdempotent | cmd/oakhouse/generators.go:315-320 | The legacy splicer is idempotent. |
| Generators.ParseFields | cmd/oakhouse/generators.go:463-482 | The legacy field loop computes one record per kept token, in order: title-cased name, mapped type and the derived tags. |
| Generators.ParsersAgree | cmd/oakhouse/generators.go:468-478 | The legacy and the shared parser keep the same tokens in the same order and agree on every common column. The shared one also sets `QueryType = "*" + Type` and `QueryTag = JsonTag`. |
| Generators.GetModuleName | cmd/oakhouse/generators.go:256-269 | A missing `go.mod` gives the read error. Otherwise the result is the shared module-line scan, with the legacy message. |
| Generators.DatabaseSupport | cmd/oakhouse/generators.go:522-561 | Error exactly outside a Go project. Otherwise `.env.example` is written and `cmd/app_server.go` gets the replacement; no other file changes. |
| Generators.AddDatabaseSupport | cmd/oakhouse/generators.go:522-570 | The step-by-step edit computes `DatabaseSupport`. |
| Generators.DatabaseSupportAppServer | cmd/oakhouse/generators.go:559-561 | `app_server.go` without the optional-database block is left unchanged. With the block, it then holds the required one. |
| Utils.MapGoType | cmd/oakhouse/utils/utils.go:87-106 | The result is always one of the seven Go types. This also models `mapGoType` (cmd/oakhouse/generators.go:488-507). |
| Utils.MapGoTypeTable | cmd/oakhouse/utils/utils.go:88-105 | The lower-cased input is looked up in the table, and anything unknown gives `string`. |
| Utils.MapGoTypeCaseInsensitive | cmd/oakhouse/utils/utils.go:88 | Input that differs only in case maps to the same type. |
| Utils.Kept | cmd/oakhouse/utils/utils.go:63-69 | A token is kept exactly when it is an input token whose split at `:` has two parts, and there are never more kept tokens than tokens. |
| Utils.KeptSingle | cmd/oakhouse/utils/utils.go:63-69 | A single token is kept alone when it splits in two parts and dropped otherwise; with `KeptAppend` this fixes the kept list in input order. |
| Utils.ParseFields | cmd/oakhouse/utils/utils.go:61-82 | The field loop produces one field per kept token, in order, built from the token's two halves. |
| Utils.ParsedFields | cmd/oakhouse/utils/utils.go:61-82 | Field k is built from the k-th kept token. |
| Utils.TwoPartsOneColon | cmd/oakhouse/utils/utils.go:64-66 | A token splits into two parts exactly when it contains exactly one `:`. |
| Utils.KeptAppend | cmd/oakhouse/utils/utils.go:63-80 | Filtering is per token: filtering a concatenation concatenates the filtered parts. |
| Utils.FieldOfToken | cmd/oakhouse/utils/utils.go:70-78 | The token `left:right` gives the field of `left` and `right`. |
| Utils.DroppedTokens | cmd/oakhouse/utils/utils.go:64-67 | `a` and `a:b:c` are dropped silently. |
| Utils.ToSnakeCase | cmd/oakhouse/utils/utils.go:132-141 | The rune loop computes snake case. The output has no capitals, and it is one character longer for each capital after the first position. This also models `toSnakeCase` (cmd/oakhouse/code_templates.go:448-457). |
| Utils.SnakeCaseIdempotent | cmd/oakhouse/utils/utils.go:135-140 | Converting twice is converting once. |
| Utils.SnakeCaseFirst | cmd/oakhouse/templates/template_helpers.go:35-44 | No `_` is put before the first character: the first output character is the lower-cased first input character. This is the template package's copy. |
| Utils.WriteTemplate | cmd/oakhouse/utils/utils.go:30-56 | A parse error leaves every file as it was and gives the parse message. An execute error leaves the partial output in the file and gives the execute message. A render writes the rendered text with no error. No other file changes. |
| Utils.WritePlainText | cmd/oakhouse/utils/utils.go:37-53 | With a template engine that copies text without `{{`, such text is written as it is and the write succeeds. |
| Utils.ToCamelCase | cmd/oakhouse/utils/utils.go:144-150 | The in-place title-casing loop computes camel case. |
| Utils.ToPascalCase | cmd/oakhouse/utils/utils.go:153-159 | The in-place title-casing loop computes Pascal case. |
| Utils.CamelPascal | cmd/oakhouse/utils/utils.go:144-159 | Camel and Pascal case share the title-cased tail. Camel case keeps the first segment as it was; Pascal case title-cases it. |
| Utils.CamelPascalNoUnderscore | cmd/oakhouse/utils/utils.go:145-158 | Neither output contains `_`. |
| Utils.CamelCaseNoUnderscore | cmd/oakhouse/utils/utils.go:145-149 | Text without `_` comes out of camel case unchanged. |
| Utils.ScanModuleName | cmd/oakhouse/utils/utils.go:111-124 | The line scan computes the trimmed rest of the first line that starts with `module `, or the not-found error. |
| Utils.GetModuleName | cmd/oakhouse/utils/utils.go:111-124 | A missing `go.mod` gives the read error. Otherwise the result is the module-line scan. |
| Utils.ModuleNameMissing | cmd/oakhouse/utils/utils.go:117-123 | The scan fails exactly when no line starts with `module `. |
| Utils.ModuleNameFirstLine | cmd/oakhouse/utils/utils.go:117-120 | A first line `module <name>` gives that name. |
| GenerateCmd.ValidateResourceName | cmd/oakhouse/commands/generate.go:44-64 | The checks run in order: emptiness, then the pattern, then the keyword list. The error is the first one that applies. |
| GenerateCmd.ResourceNameError | cmd/oakhouse/commands/generate.go:56-61 | A keyword error names the keyword, which is the lower-cased name. |
| GenerateCmd.ResourceNameAccepted | cmd/oakhouse/commands/generate.go:44-64 | A name passes exactly when it matches `^[A-Z][a-zA-Z0-9]*$` and its lower-case form is no Go keyword. |
| GenerateCmd.CapitalisedKeyword | cmd/oakhouse/commands/generate.go:56-61 | `Type` is refused as the keyword `type`. |
| GenerateCmd.ValidateFields | cmd/oakhouse/commands/generate.go:67-101 | The token loop computes the first token's error. |
| GenerateCmd.FirstFieldError | cmd/oakhouse/commands/generate.go:76-100 | No error exactly when every token passes. |
| GenerateCmd.FirstFieldErrorIsEarliest | cmd/oakhouse/commands/generate.go:76-100 | The reported error is that of the earliest failing token, and every token before it passes. |
| GenerateCmd.TokenError | cmd/oakhouse/commands/generate.go:77-80 | An accepted token splits into exactly two parts. |
| GenerateCmd.AcceptedTokensKept | cmd/oakhouse/commands/generate.go:77-80 | Every token list the strict check accepts is kept whole by the lenient parser. |
| GenerateCmd.RefusedType | cmd/oakhouse/commands/generate.go:82-97 | After a well-formed name, exactly the listed type spellings pass, case-sensitively, and any other is reported as unsupported. |
| GenerateCmd.TypeSpellingsDisagree | cmd/oakhouse/commands/generate.go:68-74 | The two checks disagree on spellings. `time` and `uuid` are refused, though the parser maps them to `time.Time` and `uuid.UUID`. `time.Time` is accepted, though the parser maps it to `string`. |
| Integrate.RedisDependencies | cmd/oakhouse/commands/integrate.go:129-167 | The text is unchanged when the Redis module is present. Error exactly when it is absent and no `require (` exists, with that message. |
| Integrate.AddRedisDependencies | cmd/oakhouse/commands/integrate.go:116-169 | A missing `go.mod` gives the read error. Otherwise the file gets the patched text, or is left on error. |
| Integrate.RequireBlockLoop | cmd/oakhouse/commands/integrate.go:141-164 | The flag-driven line loop inserts the dependency line in front of the first closing line after the first `require (` line, and nowhere else. |
| Integrate.RequireInsertIndexFirst | cmd/oakhouse/commands/integrate.go:146-158 | The insertion line is the first `)` line with a `require (` line above it. Every earlier `)` line has none above it. |
| Integrate.RedisDependenciesLines | cmd/oakhouse/commands/integrate.go:141-167 | The output lines are the input lines with the one dependency line inserted. |
| Integrate.RedisDependenciesUnclosed | cmd/oakhouse/commands/integrate.go:146-167 | Without a closing line after `require (`, the output equals the input, because split then join is the identity. |
| Integrate.RedisDependenciesInserts | cmd/oakhouse/commands/integrate.go:141-167 | The patch only inserts text at one position, and that text contains the dependency line. |
| Integrate.RedisDependenciesIdempotent | cmd/oakhouse/commands/integrate.go:129-167 | Patching twice is patching once. |
| Integrate.RedisEnvConfig | cmd/oakhouse/commands/integrate.go:184-198 | The text is unchanged when `REDIS_URL` is present. The input is always a prefix of the output, and the output always contains `REDIS_URL`. |
| Integrate.RedisEnvFiles | cmd/oakhouse/commands/integrate.go:172-199 | Error exactly when `.env.example` is missing. Otherwise that file gets the patched text. |
| Integrate.RedisEnvIdempotent | cmd/oakhouse/commands/integrate.go:184-198 | Patching twice is patching once. |
| Integrate.StructStep | cmd/oakhouse/commands/integrate.go:274-291 | Error exactly when the struct header or a `}` after it is missing, with the matching error. |
| Integrate.StructStepPlace | cmd/oakhouse/commands/integrate.go:279-291 | The fields and a newline go in front of the first `}` after the struct header; the rest of the text is kept. |
| Integrate.ReturnStep | cmd/oakhouse/commands/integrate.go:294-317 | The only errors are a missing `LoadConfig`, a missing return block, or the end-of-block error. The first happens exactly when `func LoadConfig() *Config {` is absent. The second happens exactly when the header is there but no `return &Config{` follows it. |
| Integrate.ReturnGuardDead | cmd/oakhouse/commands/integrate.go:305-308 | The end-of-block error is never raised: the guard tests a sum that cannot be -1. |
| Integrate.ReturnStepPlace | cmd/oakhouse/commands/integrate.go:294-317 | The Redis lines go in front of the first `}` at or after `return &Config{`. When there is none, they go one byte before it. |
| Integrate.ReturnStepMarks | cmd/oakhouse/commands/integrate.go:311-317 | When the inserted lines hold the marker, the result holds it. |
| Integrate.ConfigPatch | cmd/oakhouse/commands/integrate.go:268-271 | The text is unchanged when the marker is present. |
| Integrate.ConfigForRedisErrors | cmd/oakhouse/commands/integrate.go:268-308 | An error implies the marker is absent. It is the struct error exactly when the struct header is missing, and never the end-of-block error. |
| Integrate.ConfigForRedisIdempotent | cmd/oakhouse/commands/integrate.go:268-317 | Patching twice is patching once. |
| Integrate.PatchConfigText | cmd/oakhouse/commands/integrate.go:268-317 | The step-by-step string reassignments compute the config patch. |
| Integrate.UpdateConfigForRedis | cmd/oakhouse/commands/integrate.go:250-321 | A missing config file is an error. With the marker present nothing is written and there is no error. A failed patch writes nothing and reports its error message. A successful patch goes through the template write, whose outcome is the method's. |
| Integrate.MainGoForRedis | cmd/oakhouse/commands/integrate.go:338-372 | The text is unchanged when `RedisAdapter` is present, and unchanged when neither pattern occurs. |
| Integrate.MainGoForRedisAdds | cmd/oakhouse/commands/integrate.go:343-370 | Without the marker, a database start-up present is still there afterwards and `RedisAdapter` is declared. A server line present becomes the line that passes `redisAdapter`. |
| Integrate.MainGoForRedisIdempotent | cmd/oakhouse/commands/integrate.go:344-372 | Patching twice is patching once, provided the text holds the database-initialisation pattern, or the marker, or the server line at most once. |
| Integrate.ServerLineGone | cmd/oakhouse/commands/integrate.go:370-372 | Replacing the only server line leaves no server line: the new one neither contains nor overlaps the old one. |
| Integrate.MainGoForRedisTwoServers | cmd/oakhouse/commands/integrate.go:344-372 | Two server lines without the database pattern: the second run still changes the text. |
| Integrate.UpdateMainGoForRedis | cmd/oakhouse/commands/integrate.go:324-375 | A missing `cmd/main.go` is an error. With the marker present nothing is written. Otherwise the patched text goes through the template write, whose outcome is the method's. |
| Integrate.AppServerForRedis | cmd/oakhouse/commands/integrate.go:392-432 | The text is unchanged when `redisAdapter` is present, and unchanged when none of the three patterns occurs. |
| Integrate.AppServerForRedisAdds | cmd/oakhouse/commands/integrate.go:397-432 | Without the marker, each of the struct, the `NewAppServer` signature and the return literal that is present appears in its Redis form afterwards: the adapter field, the adapter parameter, the adapter in the literal. |
| Integrate.ReplaceStep | cmd/oakhouse/commands/integrate.go:398-432 | Each first-occurrence replacement either leaves the text as it was or puts the marker in. |
| Integrate.AppServerForRedisIdempotent | cmd/oakhouse/commands/integrate.go:392-432 | Patching twice is patching once. |
| Integrate.UpdateAppServerForRedis | cmd/oakhouse/commands/integrate.go:378-435 | A missing `cmd/app_server.go` is an error. With the marker present nothing is written. Otherwise the patched text goes through the template write, whose outcome is the method's. |
| Integrate.GetProjectName | cmd/oakhouse/commands/integrate.go:438-452 | A missing `go.mod` gives the read error. Otherwise the result is the module-line scan, with this function's message. |
| Scope.GenerateBaseScope | cmd/oakhouse/generators/scope.go:63-123 | `scope/base_scope.go` is written only when it is absent. No other file changes. |
| Scope.GenerateScope | cmd/oakhouse/generators/scope.go:125-159 | An existing `filter.go` is never overwritten, and a render error writes nothing. On success the file exists. Only that file changes, and only by growing. |
| Scope.AppendToFilter | cmd/oakhouse/generators/scope.go:19-60 | The shared shape of `GenerateFieldFilter`, `GeneratePaginationScope` and `GenerateAdvancedDateRangeFilter`. A missing `filter.go` is created first, and a failure to create it is the outcome. A file containing the marker is left as it is. Otherwise a render error gives the prefixed message and writes nothing, and a rendered section is appended after a newline. Only that file changes, and its old text stays a prefix. |
| Scope.GenerateFieldFilter | cmd/oakhouse/generators/scope.go:19-60 | The marker is `FilterBy<field>`. The data has the package (the lower-cased model name), the model and field names, the lower-cased field name as parameter and column, and the field's type. The render error is prefixed `failed to render scope template: `. Otherwise as `AppendToFilter`. |
| Scope.GeneratePaginationScope | cmd/oakhouse/generators/scope.go:162-199 | The marker is `PaginationScope`. The data has the package (the lower-cased model name) and the model name. The render error is prefixed `failed to render pagination scope template: `. Otherwise as `AppendToFilter`. |
| Scope.GenerateAdvancedDateRangeFilter | cmd/oakhouse/generators/scope.go:202-239 | The marker is `DateRangeFilter`. The data has the package (the lower-cased model name) and the model name. The render error is prefixed `failed to render advanced date range filter template: `. Otherwise as `AppendToFilter`. |
| Scope.AppendToFilterIdempotent | cmd/oakhouse/generators/scope.go:38-59 | When the rendered section contains the marker, a successful append puts the marker in the file, and a second append is a no-op. |
| Scope.FieldFilterShadowed | cmd/oakhouse/generators/scope.go:38-40 | The marker test is a substring test. Once `FilterBy<field><more>` is present, for instance `FilterByDateRange`, field `<field>` (here `Date`) gets no filter. |
| Scope.FieldFilters | cmd/oakhouse/generators/scope.go:254-265 | The field loop changes only `filter.go`, and only by growing it. |
| Scope.FieldFilterLoop | cmd/oakhouse/generators/scope.go:298-309 | The loop with `continue` and its early return computes `FieldFilters`. |
| Scope.FieldFiltersKept | cmd/oakhouse/generators/scope.go:255-258 | Skipping tokens not in two parts is the same as running on the tokens the field parser keeps. |
| Scope.FieldFiltersFailure | cmd/oakhouse/generators/scope.go:262-264 | A failure names a well-formed field whose filter could not be generated. The run over the fields before it ends without error, so the named field is the first failing one in input order. |
| Scope.ScopeWithOptions | cmd/oakhouse/generators/scope.go:277-312 | The whole run changes only `filter.go`, and only by growing it. |
| Scope.GenerateScopeWithOptions | cmd/oakhouse/generators/scope.go:277-312 | The steps run in order: base, pagination if asked, advanced date range if asked, fields. The first failure ends the run. |
| Scope.CompleteScope | cmd/oakhouse/generators/scope.go:242-268 | The whole run changes only `filter.go`, and only by growing it. |
| Scope.GenerateCompleteScope | cmd/oakhouse/generators/scope.go:242-268 | The steps run in order: base, pagination, fields. |
| Scope.CompleteScopeIsOptions | cmd/oakhouse/generators/scope.go:242-312 | A complete scope is the options run with pagination and without the advanced filter. |
| Templates.ToCamelCase | cmd/oakhouse/templates/template_helpers.go:50-55 | The length is kept and only the first character is lower-cased; the empty text maps to itself. This also models `toCamelCase` (cmd/oakhouse/code_templates.go:463-468). |
| Templates.ToCamelCaseIdempotent | cmd/oakhouse/code_templates.go:467 | Lower-casing the first character twice is doing it once. |
| Templates.ToCamelCaseFixed | cmd/oakhouse/templates/template_helpers.go:51-54 | The text comes back unchanged exactly when it is empty or does not start with a capital. |
| Templates.CamelCasesDiffer | cmd/oakhouse/templates/template_helpers.go:50-55 | Text with `_` keeps it in this camel case and loses it in the camel case of `utils`. |
| Templates.UserNameCases | cmd/oakhouse/templates/template_helpers.go:50-55 | `user_name` stays `user_name` here, but the camel case of `utils` changes it. |
| Templates.ToPlural | cmd/oakhouse/templates/template_helpers.go:61-70 | Every plural ends in `s`. This also models `toPlural` (cmd/oakhouse/code_templates.go:474-483). |
| Templates.PluralExtends | cmd/oakhouse/code_templates.go:474-483 | The plural is longer than the word. A final `y` becomes `ies`; other words are a prefix of their plural. |
| Templates.PluralLength | cmd/oakhouse/code_templates.go:476-482 | The plural is two characters longer exactly for words ending in `s`, `x`, `z` or `y`, and one longer for all others. |
| Templates.PluralOfKey | cmd/oakhouse/code_templates.go:476-478 | The `y` rule comes first and knows no vowels: `key` becomes `keies`. |
| Templates.PluralOfCapitalY | cmd/oakhouse/code_templates.go:474-483 | Suffix tests are case-sensitive: `Y` becomes `Ys`. |
| ProductDto.GetProductDto.SetDefaults | testproject/dto/product/get_product_dto.go:16-26 | A page not above 0 becomes 1. A size not above 0 becomes 10, and one above 100 becomes 100. The result is within the validation bounds, fields already in bounds are kept, and the dates are not touched. |
| ProductDto.DefaultsInBounds | testproject/dto/product/get_product_dto.go:17-25 | The defaults land in the validated range, and values already there are kept. |
| ProductDto.DefaultsIdempotent | testproject/dto/product/get_product_dto.go:16-26 | Applying the defaults twice is applying them once. |
| ProductDto.SetDefaultsTwice | testproject/dto/product/get_product_dto.go:16-26 | Two calls in a row leave what one call leaves. |
| Pagination.Atoi | demo/util/pagination.go:18-19 | The parsed value always fits in 64 bits. |
| Pagination.AtoiDecimal | demo/util/pagination.go:18-19 | Parsing the decimal text of any number an `int` holds gives that number back. |
| Pagination.AtoiNoDigits | demo/util/pagination.go:18-19 | Text without digits parses to 0. |
| Pagination.QueryOr | demo/util/pagination.go:18-19 | The result is the parameter's value when it is present and not empty, and otherwise the default. |
| Pagination.GetPaginationParams | demo/util/pagination.go:17-38 | The parsing, the three clamps and the 64-bit offset compute `WrittenParams`. |
| Pagination.ParamsBounds | demo/util/pagination.go:21-31 | The page is at least 1 and the size between 1 and 100. The offset is `(page - 1) * size`, and it is non-negative. |
| Pagination.ParamsInRange | demo/util/pagination.go:21-37 | A page of at least 1 and a size between 1 and 100 pass through unchanged. |
| Pagination.ParamsDefaults | demo/util/pagination.go:18-19 | Without parameters the result is page 1 of size 10. |
| Pagination.ParamsNonNumeric | demo/util/pagination.go:18-26 | Parameters without digits parse to 0 and clamp to page 1 of size 10. |
| Pagination.WrittenParamsAgree | demo/util/pagination.go:31 | The 64-bit offset is the intended one whenever the latter fits in an `int`. |
| Pagination.WrittenOffsetWraps | demo/util/pagination.go:31 | Page 2^62 + 1 of size 2 gives the offset -2^63 instead of 2^63. |
| Pagination.CeilDivLeast | DeadSara/util/pagination.go:18 | For a positive size, the page count is the least number of pages that hold all items. It is not negative when the total is not negative. |
| Pagination.CalculatePagination | DeadSara/util/pagination.go:17-28 | The page, size and total are echoed. The page count is the least that covers the items. There is a next page exactly when the page is below the count, and a previous one exactly when it is above 1. |
| Pagination.HasNextMeansMoreItems | DeadSara/util/pagination.go:25 | There is a next page exactly when the items do not end on or before this page. |
| Pagination.GetOffset | DeadSara/util/pagination.go:31-33 | The offset and one page's items reach the end of the page, `page * pageSize`. From page 1 on, with a non-negative size, the offset is not negative. |
| Pagination.GetOffsetSteps | DeadSara/util/pagination.go:31-33 | Page 1 starts at offset 0, and each further page starts one page later. |
| Pagination.DemoCalculatePagination | demo/util/pagination.go:40-49 | The page, size and total are echoed. The page count is the least that covers the items, and it is not negative for a non-negative total. |
| Pagination.PageCountsAgree | demo/util/pagination.go:40-49 | The demo project counts the same pages as the DeadSara project. |
| Auth.ExtractToken | debug-project/middleware/auth.go:33-45 | The token never contains a space. |
| Auth.ExtractTokenExactly | debug-project/middleware/auth.go:34-44 | A header yields a given non-empty token exactly when it is `Bearer`, one space and that token, and the token has no space. |
| Auth.BearerRoundTrip | debug-project/middleware/auth.go:39-44 | `Bearer ` followed by any token without spaces gives back that token. |
| Auth.DoubleSpaceRefused | debug-project/middleware/auth.go:39-42 | A second space, as in `Bearer  x`, makes three words and no token. |
| Auth.LowerCaseSchemeRefused | debug-project/middleware/auth.go:40 | The scheme is case-sensitive: `bearer` gives no token. |

## Left out

- File-system calls are not modelled: `os.Stat`, `ReadFile`, `WriteFile`, `os.Create` and `MkdirAll`.
  - The files are a map passed in and returned.
  - The read and write errors other than a missing file are not modelled, among them the directory and create errors of `utils.WriteFile`.
  - A missing file's read error is written as Go words it: `open <path>: no such file or directory`.
- Template text and the template language are not modelled. Rendering is a parameter: the `Renderer` of the scope module, and the `Utils.TextRenderer` of `Utils.WriteTemplate`. Plain text is copied only when the renderer is assumed to copy it (`Utils.CopiesPlainText`). The payload constants, including the base scope file's text (a parameter of `Scope.GenerateBaseScope`), are not modelled.
- The CLI wiring is not modelled: Cobra commands, interactive input, dry-run previews, conflict checks and running `go mod tidy`, `go build` or `air`. These are plumbing around the modelled transforms.
- Case mapping is ASCII only, as the field and name languages are ASCII. Go's `strings.Title` and `strings.ToLower` also map other letters.
  - `Templates.ToCamelCase` lower-cases the first character. The code lower-cases the first byte, and the two differ only for text that starts with a non-ASCII character.
- Integrate.MainGoForRedisAdds: states that the database start-up stays and the `RedisAdapter` declaration appears, not that the whole Redis start-up block survives the server-line replacement intact. That stronger fact needs a character argument over a literal of about 330 characters, which is too costly to prove.
- Integrate.ReturnStepPlace: the fallback insertion point is one character before `return &Config{`. The code uses a byte offset, so when a non-ASCII character stands there the code splits its UTF-8 encoding and the model does not.
- The two regular expressions of the `generate` command are modelled as character-class predicates, not as a regular-expression engine.
- `Pagination.CalculatePagination` works on exact integers and requires a positive page size. The code divides `float64` values and rounds up with `math.Ceil`.
  - The two agree for totals and sizes below 2^53.
  - A size of 0 or less gives a division by zero or a negative count, and is not modelled.
- `Pagination.Atoi` returns 0 for any text with a non-digit after the optional sign. Go's `strconv.Atoi` saturates instead when more than 64 bits of digits come before the first non-digit.
- `Pagination.GetOffset` is computed on unbounded integers. The 64-bit wrap-around of the Go expression is not modelled; for the demo project's offset it is, see Findings.
- Fiber's query lookup is modelled by `Pagination.QueryOr` as a map lookup with a default for an absent or empty value. Repeated parameters are not modelled.
- JWT validation and the `AuthRequired` handler are not modelled. They are calls into a library.
- The times in `ProductDto.GetProductDto` are an opaque value. Nothing reads them.
- Two generator runs racing on one file are not modelled. The code has no locking.

## Findings

| source | as written | input that shows it | evidently intended | confidence | as-written member | corrected member |
|---|---|---|---|---|---|---|
| demo/util/pagination.go:31 | `offset := (page - 1) * pageSize` in 64-bit `int`, and `page` is clamped only from below | query `page=4611686018427387905&page_size=2`: the offset wraps to -9223372036854775808 | a non-negative offset `(page - 1) * pageSize` | not executed | Pagination.WrittenOffsetWraps | Pagination.ParamsBounds |
