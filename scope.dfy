/** The scope generator: a per-model `filter.go` that is created once from a template and then
    only grows, one rendered section at a time, each guarded by a marker substring. */
module Scope {
  import opened Wrappers
  import opened Text
  import Utils

  /** The templates the generator renders; their text is not part of this model. */
  datatype ScopeTemplate =
    | FieldFilterTemplate
    | DateRangeFilterTemplate
    | PaginationTemplate
    | AdvancedDateRangeTemplate

  /** Template rendering: a template and its data to text, or the renderer's error. */
  type Renderer = (ScopeTemplate, map<string, string>) -> Result<string, string>

  /** The result of a generator step: the files as left behind, and the error if any. A step
      that fails after writing a file leaves that file written. */
  datatype Outcome = Outcome(files: FileSystem, err: Option<string>)

  datatype ScopeOptions = ScopeOptions(includePagination: bool, includeAdvancedDateRange: bool, fields: seq<string>)

  const BaseScopePath := "scope/base_scope.go"

  function FilterPath(modelName: string): string {
    "scope/" + ToLower(modelName) + "/filter.go"
  }

  /** Every file other than `path` is as it was. */
  ghost predicate SameElsewhere(files: FileSystem, files': FileSystem, path: string) {
    forall p :: p != path ==> (p in files <==> p in files') && (p in files ==> files'[p] == files[p])
  }

  /** `path`, when it exists, keeps its old text as a prefix. */
  predicate GrowsAt(files: FileSystem, files': FileSystem, path: string) {
    path in files ==> path in files' && |files[path]| <= |files'[path]| && files'[path][..|files[path]|] == files[path]
  }

  // ---------------------------------------------------------------- create if absent

  /** `GenerateBaseScope`: write the base scope file only when it is absent. */
  function GenerateBaseScope(files: FileSystem, baseScopeContent: string): (r: FileSystem)
    ensures BaseScopePath in files ==> r == files
    ensures BaseScopePath !in files ==> r == files[BaseScopePath := baseScopeContent]
    ensures BaseScopePath in r && SameElsewhere(files, r, BaseScopePath)
  {
    if BaseScopePath in files then files else files[BaseScopePath := baseScopeContent]
  }

  /** `GenerateScope`: create `filter.go` from the date-range template only when it is absent. */
  function GenerateScope(files: FileSystem, modelName: string, render: Renderer): (o: Outcome)
    ensures FilterPath(modelName) in files ==> o == Outcome(files, None)
    ensures o.err.Some? ==> o.files == files
    ensures o.err.None? ==> FilterPath(modelName) in o.files
    ensures SameElsewhere(files, o.files, FilterPath(modelName)) && GrowsAt(files, o.files, FilterPath(modelName))
  {
    var path := FilterPath(modelName);
    if path in files then Outcome(files, None)
    else
      var data := map["PackageName" := ToLower(modelName), "ModelName" := modelName,
                      "FieldName" := "DateRange", "ColumnName" := "created_at"];
      match render(DateRangeFilterTemplate, data)
      case Err(e) => Outcome(files, Some("failed to render date range filter template: " + e))
      case Ok(filterContent) => Outcome(files[path := filterContent], None)
  }

  // ---------------------------------------------------------------- append if marker absent

  /** One append on an existing `path`: nothing happens when the file contains `marker`;
      otherwise a render error is reported behind `errPrefix` with nothing written, and a
      rendered section goes after the old text and a newline. */
  predicate AppendsSection(files: FileSystem, o: Outcome, path: string, marker: string,
                           rendered: Result<string, string>, errPrefix: string)
    requires path in files
  {
    if Contains(files[path], marker) then o == Outcome(files, None)
    else match rendered
      case Err(e) => o == Outcome(files, Some(errPrefix + e))
      case Ok(section) => o == Outcome(files[path := files[path] + "\n" + section], None)
  }

  /** The shared shape of the three appenders: make sure `filter.go` exists, then append
      `"\n"` and the rendered section unless the file already contains `marker`. */
  function AppendToFilter(files: FileSystem, modelName: string, marker: string, template: ScopeTemplate,
                          data: map<string, string>, errPrefix: string, render: Renderer): (o: Outcome)
    ensures SameElsewhere(files, o.files, FilterPath(modelName)) && GrowsAt(files, o.files, FilterPath(modelName))
    ensures FilterPath(modelName) in files && Contains(files[FilterPath(modelName)], marker) ==> o == Outcome(files, None)
    ensures o.err.None? ==> FilterPath(modelName) in o.files
    ensures FilterPath(modelName) in files ==>
      AppendsSection(files, o, FilterPath(modelName), marker, render(template, data), errPrefix)
    ensures FilterPath(modelName) !in files && GenerateScope(files, modelName, render).err.Some? ==>
      o == GenerateScope(files, modelName, render)
    ensures FilterPath(modelName) !in files && GenerateScope(files, modelName, render).err.None? ==>
      AppendsSection(GenerateScope(files, modelName, render).files, o, FilterPath(modelName), marker,
                     render(template, data), errPrefix)
  {
    var path := FilterPath(modelName);
    var created := if path !in files then GenerateScope(files, modelName, render) else Outcome(files, None);
    if created.err.Some? then created
    else
      var currentContent := created.files[path];
      if Contains(currentContent, marker) then created
      else
        match render(template, data)
        case Err(e) => Outcome(created.files, Some(errPrefix + e))
        case Ok(section) => Outcome(created.files[path := currentContent + "\n" + section], None)
  }

  function FieldData(modelName: string, fieldName: string, fieldType: string): map<string, string> {
    map["PackageName" := ToLower(modelName), "ModelName" := modelName, "FieldName" := fieldName,
        "ParamName" := ToLower(fieldName), "ParamType" := fieldType, "ColumnName" := ToLower(fieldName)]
  }

  function ModelData(modelName: string): map<string, string> {
    map["PackageName" := ToLower(modelName), "ModelName" := modelName]
  }

  /** `GenerateFieldFilter`: append the filter for one field unless `FilterBy<field>` occurs.
      A missing `filter.go` is created first, and a failure to create it is the outcome. */
  function GenerateFieldFilter(files: FileSystem, modelName: string, fieldName: string, fieldType: string,
                               render: Renderer): (o: Outcome)
    ensures SameElsewhere(files, o.files, FilterPath(modelName)) && GrowsAt(files, o.files, FilterPath(modelName))
    ensures FilterPath(modelName) in files ==>
      AppendsSection(files, o, FilterPath(modelName), "FilterBy" + fieldName,
                     render(FieldFilterTemplate, FieldData(modelName, fieldName, fieldType)),
                     "failed to render scope template: ")
    ensures FilterPath(modelName) !in files && GenerateScope(files, modelName, render).err.Some? ==>
      o == GenerateScope(files, modelName, render)
    ensures FilterPath(modelName) !in files && GenerateScope(files, modelName, render).err.None? ==>
      AppendsSection(GenerateScope(files, modelName, render).files, o, FilterPath(modelName), "FilterBy" + fieldName,
                     render(FieldFilterTemplate, FieldData(modelName, fieldName, fieldType)),
                     "failed to render scope template: ")
  {
    AppendToFilter(files, modelName, "FilterBy" + fieldName, FieldFilterTemplate,
                   FieldData(modelName, fieldName, fieldType), "failed to render scope template: ", render)
  }

  /** `GeneratePaginationScope`: append the pagination functions unless `PaginationScope` occurs.
      A missing `filter.go` is created first, and a failure to create it is the outcome. */
  function GeneratePaginationScope(files: FileSystem, modelName: string, render: Renderer): (o: Outcome)
    ensures SameElsewhere(files, o.files, FilterPath(modelName)) && GrowsAt(files, o.files, FilterPath(modelName))
    ensures FilterPath(modelName) in files ==>
      AppendsSection(files, o, FilterPath(modelName), "PaginationScope",
                     render(PaginationTemplate, ModelData(modelName)),
                     "failed to render pagination scope template: ")
    ensures FilterPath(modelName) !in files && GenerateScope(files, modelName, render).err.Some? ==>
      o == GenerateScope(files, modelName, render)
    ensures FilterPath(modelName) !in files && GenerateScope(files, modelName, render).err.None? ==>
      AppendsSection(GenerateScope(files, modelName, render).files, o, FilterPath(modelName), "PaginationScope",
                     render(PaginationTemplate, ModelData(modelName)),
                     "failed to render pagination scope template: ")
  {
    AppendToFilter(files, modelName, "PaginationScope", PaginationTemplate, ModelData(modelName),
                   "failed to render pagination scope template: ", render)
  }

  /** `GenerateAdvancedDateRangeFilter`: append the date-range filter unless `DateRangeFilter` occurs.
      A missing `filter.go` is created first, and a failure to create it is the outcome. */
  function GenerateAdvancedDateRangeFilter(files: FileSystem, modelName: string, render: Renderer): (o: Outcome)
    ensures SameElsewhere(files, o.files, FilterPath(modelName)) && GrowsAt(files, o.files, FilterPath(modelName))
    ensures FilterPath(modelName) in files ==>
      AppendsSection(files, o, FilterPath(modelName), "DateRangeFilter",
                     render(AdvancedDateRangeTemplate, ModelData(modelName)),
                     "failed to render advanced date range filter template: ")
    ensures FilterPath(modelName) !in files && GenerateScope(files, modelName, render).err.Some? ==>
      o == GenerateScope(files, modelName, render)
    ensures FilterPath(modelName) !in files && GenerateScope(files, modelName, render).err.None? ==>
      AppendsSection(GenerateScope(files, modelName, render).files, o, FilterPath(modelName), "DateRangeFilter",
                     render(AdvancedDateRangeTemplate, ModelData(modelName)),
                     "failed to render advanced date range filter template: ")
  {
    AppendToFilter(files, modelName, "DateRangeFilter", AdvancedDateRangeTemplate, ModelData(modelName),
                   "failed to render advanced date range filter template: ", render)
  }

  /** A successful append leaves the file holding the marker whenever the rendered section
      holds it, so running the same append again changes nothing. */
  lemma AppendToFilterIdempotent(files: FileSystem, modelName: string, marker: string, template: ScopeTemplate,
                                 data: map<string, string>, errPrefix: string, render: Renderer)
    requires render(template, data).Ok? ==> Contains(render(template, data).value, marker)
    ensures var o := AppendToFilter(files, modelName, marker, template, data, errPrefix, render);
      o.err.None? && Contains(o.files[FilterPath(modelName)], marker) ==>
        AppendToFilter(o.files, modelName, marker, template, data, errPrefix, render) == Outcome(o.files, None)
    ensures var o := AppendToFilter(files, modelName, marker, template, data, errPrefix, render);
      o.err.None? && o.files != (if FilterPath(modelName) in files then files else GenerateScope(files, modelName, render).files) ==>
        Contains(o.files[FilterPath(modelName)], marker)
  {
    var path := FilterPath(modelName);
    var created := if path !in files then GenerateScope(files, modelName, render) else Outcome(files, None);
    var o := AppendToFilter(files, modelName, marker, template, data, errPrefix, render);
    if created.err.None? && !Contains(created.files[path], marker) && render(template, data).Ok? {
      var section := render(template, data).value;
      ContainsWithin(created.files[path] + "\n", section, "", marker);
      assert o.files[path] == created.files[path] + "\n" + section + "";
    }
  }

  /** The marker is a substring test: once `FilterBy<field><more>` is in the file, for instance
      `FilterByDateRange`, the field `<field>` (here `Date`) gets no filter of its own. */
  lemma FieldFilterShadowed(files: FileSystem, modelName: string, fieldName: string, more: string,
                            fieldType: string, render: Renderer)
    requires FilterPath(modelName) in files && Contains(files[FilterPath(modelName)], "FilterBy" + fieldName + more)
    ensures GenerateFieldFilter(files, modelName, fieldName, fieldType, render) == Outcome(files, None)
  {
    ContainsSelf("", "FilterBy" + fieldName, more);
    assert "" + ("FilterBy" + fieldName) + more == "FilterBy" + fieldName + more;
    ContainsTrans(files[FilterPath(modelName)], "FilterBy" + fieldName + more, "FilterBy" + fieldName);
  }

  // ---------------------------------------------------------------- the field loop

  const FieldFilterFailure := "failed to generate field filter for "

  /** The loop over field tokens: tokens not in two parts are skipped, the others filtered in
      order, and the first failure ends the loop with the field's name in the message. */
  function FieldFilters(files: FileSystem, modelName: string, fields: seq<string>, render: Renderer): (o: Outcome)
    ensures SameElsewhere(files, o.files, FilterPath(modelName)) && GrowsAt(files, o.files, FilterPath(modelName))
    decreases |fields|
  {
    if |fields| == 0 then Outcome(files, None)
    else
      var parts := Split(fields[0], ':');
      if |parts| != 2 then FieldFilters(files, modelName, fields[1..], render)
      else
        var step := GenerateFieldFilter(files, modelName, parts[0], parts[1], render);
        if step.err.Some? then Outcome(step.files, Some(FieldFilterFailure + parts[0] + ": " + step.err.value))
        else FieldFilters(step.files, modelName, fields[1..], render)
  }

  /** The loop of `GenerateCompleteScope` and `GenerateScopeWithOptions`. */
  method FieldFilterLoop(files: FileSystem, modelName: string, fields: seq<string>, render: Renderer)
    returns (files': FileSystem, err: Option<string>)
    ensures Outcome(files', err) == FieldFilters(files, modelName, fields, render)
  {
    files' := files;
    for i := 0 to |fields|
      invariant FieldFilters(files', modelName, fields[i..], render) == FieldFilters(files, modelName, fields, render)
    {
      assert fields[i..][1..] == fields[i + 1..];
      var parts := Split(fields[i], ':');
      if |parts| != 2 {
        continue;
      }
      var fieldName := parts[0];
      var fieldType := parts[1];
      var step := GenerateFieldFilter(files', modelName, fieldName, fieldType, render);
      if step.err.Some? {
        return step.files, Some(FieldFilterFailure + fieldName + ": " + step.err.value);
      }
      files' := step.files;
    }
    err := None;
  }

  /** Skipping malformed tokens is the same as running on the tokens the field parser keeps. */
  lemma {:induction false} FieldFiltersKept(files: FileSystem, modelName: string, fields: seq<string>, render: Renderer)
    ensures FieldFilters(files, modelName, fields, render) == FieldFilters(files, modelName, Utils.Kept(fields), render)
    decreases |fields|
  {
    if |fields| > 0 {
      assert fields == [fields[0]] + fields[1..];
      Utils.KeptAppend([fields[0]], fields[1..]);
      assert Utils.Kept([fields[0]]) == if Utils.TwoParts(fields[0]) then [fields[0]] else [];
      var kept := Utils.Kept(fields);
      if Utils.TwoParts(fields[0]) {
        assert kept == [fields[0]] + Utils.Kept(fields[1..]);
        assert kept[0] == fields[0] && kept[1..] == Utils.Kept(fields[1..]);
        var step := GenerateFieldFilter(files, modelName, Split(fields[0], ':')[0], Split(fields[0], ':')[1], render);
        if step.err.None? {
          FieldFiltersKept(step.files, modelName, fields[1..], render);
        }
      } else {
        assert kept == Utils.Kept(fields[1..]);
        FieldFiltersKept(files, modelName, fields[1..], render);
      }
    }
  }

  /** A failure names the first field, in input order, whose filter could not be generated: the
      fields before it run without error. */
  lemma {:induction false} FieldFiltersFailure(files: FileSystem, modelName: string, fields: seq<string>, render: Renderer)
    returns (k: nat)
    requires FieldFilters(files, modelName, fields, render).err.Some?
    ensures k < |fields| && |Split(fields[k], ':')| == 2
    ensures HasPrefix(FieldFilters(files, modelName, fields, render).err.value,
                      FieldFilterFailure + Split(fields[k], ':')[0] + ": ")
    ensures FieldFilters(files, modelName, fields[..k], render).err.None?
    decreases |fields|
  {
    var parts := Split(fields[0], ':');
    if |parts| != 2 {
      var j := FieldFiltersFailure(files, modelName, fields[1..], render);
      k := j + 1;
      assert fields[..k][0] == fields[0] && fields[..k][1..] == fields[1..][..j];
    } else {
      var step := GenerateFieldFilter(files, modelName, parts[0], parts[1], render);
      if step.err.Some? {
        k := 0;
        var msg := FieldFilterFailure + parts[0] + ": ";
        assert FieldFilters(files, modelName, fields, render).err.value == msg + step.err.value;
        assert (msg + step.err.value)[..|msg|] == msg;
      } else {
        var j := FieldFiltersFailure(step.files, modelName, fields[1..], render);
        k := j + 1;
        assert fields[..k][0] == fields[0] && fields[..k][1..] == fields[1..][..j];
      }
    }
  }

  // ---------------------------------------------------------------- whole runs

  /** `GenerateScopeWithOptions`: the base file, then pagination and the advanced date-range
      filter when asked for, then the field filters; the first failure ends the run. */
  function ScopeWithOptions(files: FileSystem, modelName: string, options: ScopeOptions, render: Renderer): (o: Outcome)
    ensures SameElsewhere(files, o.files, FilterPath(modelName)) && GrowsAt(files, o.files, FilterPath(modelName))
  {
    var path := FilterPath(modelName);
    var base := GenerateScope(files, modelName, render);
    if base.err.Some? then Outcome(base.files, Some("failed to generate base scope: " + base.err.value))
    else
      var paged := if options.includePagination then GeneratePaginationScope(base.files, modelName, render) else base;
      ChangesChain(files, base.files, paged.files, path);
      if paged.err.Some? then Outcome(paged.files, Some("failed to generate pagination scope: " + paged.err.value))
      else
        var dated := if options.includeAdvancedDateRange then GenerateAdvancedDateRangeFilter(paged.files, modelName, render) else paged;
        ChangesChain(files, paged.files, dated.files, path);
        if dated.err.Some? then Outcome(dated.files, Some("failed to generate advanced date range filter: " + dated.err.value))
        else
          var o := FieldFilters(dated.files, modelName, options.fields, render);
          ChangesChain(files, dated.files, o.files, path);
          o
  }

  /** Two edits that each change only `path`, and only by appending, make one such edit. */
  lemma ChangesChain(a: FileSystem, b: FileSystem, c: FileSystem, path: string)
    requires SameElsewhere(a, b, path) && GrowsAt(a, b, path)
    requires SameElsewhere(b, c, path) && GrowsAt(b, c, path)
    ensures SameElsewhere(a, c, path) && GrowsAt(a, c, path)
  {
    if path in a {
      assert c[path][..|a[path]|] == c[path][..|b[path]|][..|a[path]|];
    }
  }

  /** `GenerateCompleteScope`: the base file, pagination, then the field filters. */
  function CompleteScope(files: FileSystem, modelName: string, fields: seq<string>, render: Renderer): (o: Outcome)
    ensures SameElsewhere(files, o.files, FilterPath(modelName)) && GrowsAt(files, o.files, FilterPath(modelName))
  {
    var base := GenerateScope(files, modelName, render);
    if base.err.Some? then Outcome(base.files, Some("failed to generate base scope: " + base.err.value))
    else
      var paged := GeneratePaginationScope(base.files, modelName, render);
      if paged.err.Some? then Outcome(paged.files, Some("failed to generate pagination scope: " + paged.err.value))
      else FieldFilters(paged.files, modelName, fields, render)
  }

  /** A complete scope is the options run with pagination and without the advanced filter. */
  lemma CompleteScopeIsOptions(files: FileSystem, modelName: string, fields: seq<string>, render: Renderer)
    ensures CompleteScope(files, modelName, fields, render) == ScopeWithOptions(files, modelName, ScopeOptions(true, false, fields), render)
  {
  }

  method GenerateCompleteScope(files: FileSystem, modelName: string, fields: seq<string>, render: Renderer)
    returns (files': FileSystem, err: Option<string>)
    ensures Outcome(files', err) == CompleteScope(files, modelName, fields, render)
  {
    var base := GenerateScope(files, modelName, render);
    if base.err.Some? {
      return base.files, Some("failed to generate base scope: " + base.err.value);
    }
    var paged := GeneratePaginationScope(base.files, modelName, render);
    if paged.err.Some? {
      return paged.files, Some("failed to generate pagination scope: " + paged.err.value);
    }
    files', err := FieldFilterLoop(paged.files, modelName, fields, render);
  }

  method GenerateScopeWithOptions(files: FileSystem, modelName: string, options: ScopeOptions, render: Renderer)
    returns (files': FileSystem, err: Option<string>)
    ensures Outcome(files', err) == ScopeWithOptions(files, modelName, options, render)
  {
    var step := GenerateScope(files, modelName, render);
    if step.err.Some? {
      return step.files, Some("failed to generate base scope: " + step.err.value);
    }
    if options.includePagination {
      step := GeneratePaginationScope(step.files, modelName, render);
      if step.err.Some? {
        return step.files, Some("failed to generate pagination scope: " + step.err.value);
      }
    }
    if options.includeAdvancedDateRange {
      step := GenerateAdvancedDateRangeFilter(step.files, modelName, render);
      if step.err.Some? {
        return step.files, Some("failed to generate advanced date range filter: " + step.err.value);
      }
    }
    files', err := FieldFilterLoop(step.files, modelName, options.fields, render);
  }
}
