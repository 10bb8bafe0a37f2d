/** The name helpers of the template package, which `code_templates.go` repeats word for word
    as `toSnakeCase`, `toCamelCase` and `toPlural`. Snake case is `Utils.ToSnakeCase`. */
module Templates {
  import opened Text
  import Utils

  /** `ToCamelCase`: lower-case the first character and keep the rest. */
  function ToCamelCase(s: string): (r: string)
    ensures |r| == |s|
    ensures |s| > 0 ==> r[0] == LowerChar(s[0])
    ensures forall i :: 0 < i < |s| ==> r[i] == s[i]
  {
    if |s| == 0 then s else ToLower(s[..1]) + s[1..]
  }

  /** Lower-casing the first character again changes nothing. */
  lemma ToCamelCaseIdempotent(s: string)
    ensures ToCamelCase(ToCamelCase(s)) == ToCamelCase(s)
  {
  }

  /** Only an initial capital is touched: every other text comes back as it was. */
  lemma ToCamelCaseFixed(s: string)
    ensures ToCamelCase(s) == s <==> |s| == 0 || !IsUpper(s[0])
  {
    if |s| > 0 && IsUpper(s[0]) {
      assert ToCamelCase(s)[0] != s[0];
    }
  }

  /** This camel case is not the one of `Utils`: it does not split on `_`. Every text holding
      a `_`, such as `user_name`, keeps it here and loses it there. */
  lemma CamelCasesDiffer(s: string)
    requires '_' in s
    ensures '_' in ToCamelCase(s) && '_' !in Utils.CamelCase(s)
  {
    var i :| 0 <= i < |s| && s[i] == '_';
    assert ToCamelCase(s)[i] == '_';
    Utils.CamelPascalNoUnderscore(s);
  }

  /** Where `Utils` turns `user_name` into `userName`, this helper keeps `user_name`. */
  lemma UserNameCases()
    ensures ToCamelCase("user_name") == "user_name"
    ensures Utils.CamelCase("user_name") != "user_name"
  {
    assert "user_name"[4] == '_';
    ToCamelCaseFixed("user_name");
    CamelCasesDiffer("user_name");
  }

  // ---------------------------------------------------------------- plurals

  /** `ToPlural`: a final `y` becomes `ies`; otherwise a final `s`, `x` or `z` gets `es`
      and anything else `s`. The tests are case-sensitive and the `y` rule comes first. */
  function ToPlural(s: string): (r: string)
    ensures HasSuffix(r, "s")
  {
    if HasSuffix(s, "y") then s[..|s| - 1] + "ies"
    else if HasSuffix(s, "s") || HasSuffix(s, "x") || HasSuffix(s, "z") then s + "es"
    else s + "s"
  }

  /** The plural is longer than the word and keeps all of it but a final `y`. */
  lemma PluralExtends(s: string)
    ensures |ToPlural(s)| > |s|
    ensures HasSuffix(s, "y") ==> |s| > 0 && s[..|s| - 1] == ToPlural(s)[..|s| - 1] && ToPlural(s)[|s| - 1..] == "ies"
    ensures !HasSuffix(s, "y") ==> HasPrefix(ToPlural(s), s)
  {
  }

  /** Exactly the words ending in `s`, `x`, `z` or `y` get a two-letter ending:
      the plural is one character longer for all others. */
  lemma PluralLength(s: string)
    ensures |ToPlural(s)| == |s| + (if |s| > 0 && s[|s| - 1] in "sxzy" then 2 else 1)
  {
    if |s| > 0 {
      var last := s[|s| - 1];
      assert HasSuffix(s, "y") <==> last == 'y' by { assert s[|s| - 1..] == [last]; }
      assert HasSuffix(s, "s") <==> last == 's' by { assert s[|s| - 1..] == [last]; }
      assert HasSuffix(s, "x") <==> last == 'x' by { assert s[|s| - 1..] == [last]; }
      assert HasSuffix(s, "z") <==> last == 'z' by { assert s[|s| - 1..] == [last]; }
    }
  }

  /** The `y` rule knows no vowels: `key` becomes `keies`. */
  lemma PluralOfKey()
    ensures ToPlural("key") == "keies"
  {
    assert HasSuffix("key", "y");
  }

  /** The tests are case-sensitive: `Y` becomes `Ys`. */
  lemma PluralOfCapitalY()
    ensures ToPlural("Y") == "Ys"
  {
    assert !HasSuffix("Y", "y");
  }
}
