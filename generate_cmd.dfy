/** The strict input checks of the `generate` command: resource names and `name:type` field tokens. */
module GenerateCmd {
  import opened Wrappers
  import opened Text
  import Utils

  // ---------------------------------------------------------------- resource names

  const ReservedWords: seq<string> := [
    "break", "case", "chan", "const", "continue", "default", "defer", "else", "fallthrough", "for",
    "func", "go", "goto", "if", "import", "interface", "map", "package", "range", "return",
    "select", "struct", "switch", "type", "var"]

  datatype NameError = EmptyName | BadNameFormat | ReservedName(word: string)

  function NameErrorMessage(e: NameError): string {
    match e
    case EmptyName => "resource name cannot be empty"
    case BadNameFormat => "resource name must start with uppercase letter and contain only alphanumeric characters"
    case ReservedName(word) => "resource name cannot be a Go reserved keyword: " + word
  }

  /** The pattern `^[A-Z][a-zA-Z0-9]*$`. */
  predicate IsResourceName(s: string) {
    |s| > 0 && IsUpper(s[0]) && forall i :: 0 <= i < |s| ==> IsAlnum(s[i])
  }

  /** The first violated rule for a resource name, if any. */
  function ResourceNameError(name: string): (r: Option<NameError>)
    ensures r.Some? && r.value.ReservedName? ==> r.value.word in ReservedWords && r.value.word == ToLower(name)
  {
    if name == "" then Some(EmptyName)
    else if !IsResourceName(name) then Some(BadNameFormat)
    else if ToLower(name) in ReservedWords then Some(ReservedName(ToLower(name)))
    else None
  }

  /** `validateResourceName`: emptiness, then the pattern, then the keyword list in order. */
  method ValidateResourceName(name: string) returns (err: Option<NameError>)
    ensures err == ResourceNameError(name)
  {
    if name == "" {
      return Some(EmptyName);
    }
    var matched := |name| > 0 && 'A' <= name[0] <= 'Z';
    var i := 0;
    while matched && i < |name|
      invariant 0 <= i <= |name|
      invariant matched <==> IsUpper(name[0]) && forall j :: 0 <= j < i ==> IsAlnum(name[j])
    {
      matched := IsAlnum(name[i]);
      i := i + 1;
    }
    if !matched {
      return Some(BadNameFormat);
    }
    var lower := ToLower(name);
    for k := 0 to |ReservedWords|
      invariant forall j :: 0 <= j < k ==> ReservedWords[j] != lower
    {
      var word := ReservedWords[k];
      if lower == word {
        return Some(ReservedName(word));
      }
    }
    return None;
  }

  /** A name passes exactly when it matches the pattern and its lower-case form is no keyword. */
  lemma ResourceNameAccepted(name: string)
    ensures ResourceNameError(name) == None <==> IsResourceName(name) && ToLower(name) !in ReservedWords
  {
  }

  /** A keyword spelled with a capital, such as `Type`, is still refused. */
  lemma CapitalisedKeyword()
    ensures ResourceNameError("Type") == Some(ReservedName("type"))
  {
    assert ToLower("Type") == "type";
    assert ReservedWords[23] == "type";
  }

  // ---------------------------------------------------------------- field tokens

  /** The type spellings the check accepts, case-sensitively. */
  const ValidTypes: set<string> := {
    "string", "int", "int32", "int64", "uint", "uint32", "uint64", "float32", "float64", "float",
    "bool", "time.Time", "text", "[]string", "[]int", "[]float64"}

  datatype FieldError =
    | BadFieldFormat(field: string)
    | EmptyFieldName(field: string)
    | BadFieldName(fieldName: string)
    | UnsupportedType(fieldType: string, field: string)

  function FieldErrorMessage(e: FieldError): string {
    match e
    case BadFieldFormat(field) => "invalid field format '" + field + "', expected 'name:type'"
    case EmptyFieldName(field) => "field name cannot be empty in '" + field + "'"
    case BadFieldName(fieldName) => "field name '" + fieldName + "' must start with letter and contain only alphanumeric characters"
    case UnsupportedType(fieldType, field) => "unsupported field type '" + fieldType + "' in field '" + field + "'"
  }

  /** The pattern `^[a-zA-Z][a-zA-Z0-9]*$`. */
  predicate IsFieldName(s: string) {
    |s| > 0 && IsLetter(s[0]) && forall i :: 0 <= i < |s| ==> IsAlnum(s[i])
  }

  /** The first violated rule for one token, if any. */
  function TokenError(field: string): (r: Option<FieldError>)
    ensures r.None? ==> Utils.TwoParts(field)
  {
    var parts := Split(field, ':');
    if |parts| != 2 then Some(BadFieldFormat(field))
    else
      var fieldName := TrimSpace(parts[0]);
      var fieldType := TrimSpace(parts[1]);
      if fieldName == "" then Some(EmptyFieldName(field))
      else if !IsFieldName(fieldName) then Some(BadFieldName(fieldName))
      else if fieldType !in ValidTypes then Some(UnsupportedType(fieldType, field))
      else None
  }

  /** The first error `check` reports along `xs`, in order. */
  function FirstError<E>(xs: seq<string>, check: string -> Option<E>): (r: Option<E>)
    ensures r.None? <==> forall k :: 0 <= k < |xs| ==> check(xs[k]).None?
  {
    if |xs| == 0 then None
    else if check(xs[0]).Some? then check(xs[0])
    else FirstError(xs[1..], check)
  }

  /** The error of the first offending token, in input order. */
  function FirstFieldError(fields: seq<string>): (r: Option<FieldError>)
    ensures r.None? <==> forall k :: 0 <= k < |fields| ==> TokenError(fields[k]).None?
  {
    FirstError(fields, TokenError)
  }

  /** `validateFields`: check the tokens in order and stop at the first failure. */
  method ValidateFields(fields: seq<string>) returns (err: Option<FieldError>)
    ensures err == FirstFieldError(fields)
  {
    for i := 0 to |fields|
      invariant FirstFieldError(fields) == FirstError(fields[i..], TokenError)
    {
      assert fields[i..][1..] == fields[i + 1..];
      var field := fields[i];
      var parts := Split(field, ':');
      if |parts| != 2 {
        return Some(BadFieldFormat(field));
      }
      var fieldName := TrimSpace(parts[0]);
      var fieldType := TrimSpace(parts[1]);
      if fieldName == "" {
        return Some(EmptyFieldName(field));
      }
      if !IsFieldName(fieldName) {
        return Some(BadFieldName(fieldName));
      }
      if fieldType !in ValidTypes {
        return Some(UnsupportedType(fieldType, field));
      }
    }
    return None;
  }

  /** When some token fails, the reported error is that of the earliest failing token. */
  lemma FirstFieldErrorIsEarliest(fields: seq<string>) returns (k: nat)
    requires FirstFieldError(fields).Some?
    ensures k < |fields| && FirstFieldError(fields) == TokenError(fields[k])
    ensures forall j :: 0 <= j < k ==> TokenError(fields[j]).None?
  {
    k := FirstErrorIsEarliest(fields, TokenError);
  }

  lemma {:induction false} FirstErrorIsEarliest<E>(xs: seq<string>, check: string -> Option<E>) returns (k: nat)
    requires FirstError(xs, check).Some?
    ensures k < |xs| && FirstError(xs, check) == check(xs[k])
    ensures forall j :: 0 <= j < k ==> check(xs[j]).None?
    decreases |xs|
  {
    if check(xs[0]).Some? {
      k := 0;
    } else {
      var k' := FirstErrorIsEarliest(xs[1..], check);
      k := k' + 1;
    }
  }

  /** Every token list the check accepts is kept whole by the lenient parser. */
  lemma AcceptedTokensKept(fields: seq<string>)
    requires FirstFieldError(fields).None?
    ensures Utils.Kept(fields) == fields
  {
    AllKept(fields);
  }

  lemma {:induction false} AllKept(fields: seq<string>)
    requires forall k :: 0 <= k < |fields| ==> Utils.TwoParts(fields[k])
    ensures Utils.Kept(fields) == fields
    decreases |fields|
  {
    if |fields| > 0 {
      AllKept(fields[..|fields| - 1]);
    }
  }

  lemma TokenParts(left: string, right: string)
    requires ':' !in left && ':' !in right
    ensures Split(left + ":" + right, ':') == [left, right]
  {
    assert Join([left, right], [':']) == left + ":" + right;
    SplitJoin([left, right], ':');
  }

  lemma TrimSpaceUnspaced(s: string)
    requires forall i :: 0 <= i < |s| ==> !IsSpace(s[i])
    ensures TrimSpace(s) == s
  {
  }

  /** A type that is refused, after a well-formed name, is reported as unsupported. */
  lemma {:induction false} RefusedType(name: string, fieldType: string)
    requires IsFieldName(name) && ':' !in fieldType && forall i :: 0 <= i < |fieldType| ==> !IsSpace(fieldType[i])
    ensures TokenError(name + ":" + fieldType) ==
      if fieldType in ValidTypes then None else Some(UnsupportedType(fieldType, name + ":" + fieldType))
  {
    FieldNamePlain(name);
    TokenParts(name, fieldType);
    TrimSpaceUnspaced(fieldType);
    TokenErrorOfParts(name + ":" + fieldType, name, fieldType);
  }

  lemma FieldNamePlain(name: string)
    requires IsFieldName(name)
    ensures ':' !in name && TrimSpace(name) == name
  {
    assert forall i :: 0 <= i < |name| ==> IsAlnum(name[i]);
    TrimSpaceUnspaced(name);
  }

  lemma TokenErrorOfParts(field: string, name: string, fieldType: string)
    requires Split(field, ':') == [name, fieldType] && TrimSpace(name) == name && TrimSpace(fieldType) == fieldType
    requires IsFieldName(name)
    ensures TokenError(field) == if fieldType in ValidTypes then None else Some(UnsupportedType(fieldType, field))
  {
  }

  /** The check and the lenient parser disagree on `time` and `time.Time`: `time` is refused
      although the parser maps it to `time.Time`, and `time.Time` is accepted although the
      parser maps it to `string`; `uuid`, which the parser maps to `uuid.UUID`, is refused too.
      With `RefusedType` this fixes what `TokenError` says of `name:time` and the others. */
  lemma TypeSpellingsDisagree()
    ensures "time" !in ValidTypes && Utils.MapGoType("time") == "time.Time"
    ensures "time.Time" in ValidTypes && Utils.MapGoType("time.Time") == "string"
    ensures "uuid" !in ValidTypes && Utils.MapGoType("uuid") == "uuid.UUID"
  {
    LowerNamesMapped();
    TimeTimeMappedToString();
  }

  /** The two lower-case spellings the type switch names are already lower case. */
  lemma LowerNamesMapped()
    ensures Utils.MapGoType("time") == "time.Time"
    ensures Utils.MapGoType("uuid") == "uuid.UUID"
  {
    assert NoUpper("time") && NoUpper("uuid");
    Utils.ToLowerNoUpper("time");
    Utils.ToLowerNoUpper("uuid");
  }

  lemma TimeTimeMappedToString()
    ensures Utils.MapGoType("time.Time") == "string"
  {
    assert ToLower("time.Time") == "time.time";
  }
}
