/** Bearer-token extraction of the generated authentication middleware: the `Bearer` scheme of
    section 2.1 of RFC 6750, matched exactly and case-sensitively, with one space. */
module Auth {
  import opened Text

  const Scheme := "Bearer"

  /** `extractToken`: the token of an `Authorization` header, or `""` when the header is empty,
      does not split at single spaces into exactly two words, or names another scheme. */
  function ExtractToken(auth: string): (token: string)
    ensures ' ' !in token
  {
    if auth == "" then ""
    else
      var parts := Split(auth, ' ');
      SplitPartsLack(auth, ' ');
      if |parts| != 2 || parts[0] != Scheme then "" else parts[1]
  }

  /** The only headers that yield a non-empty token are `Bearer` and one space followed by
      that token, which holds no space. */
  lemma {:induction false} ExtractTokenExactly(auth: string, token: string)
    requires token != ""
    ensures ExtractToken(auth) == token <==> auth == Scheme + " " + token && ' ' !in token
  {
    if ExtractToken(auth) == token {
      var parts := Split(auth, ' ');
      JoinSplit(auth, ' ');
      assert Join(parts, " ") == parts[0] + " " + Join(parts[1..], " ");
    }
    if auth == Scheme + " " + token && ' ' !in token {
      BearerRoundTrip(token);
    }
  }

  /** Every token without spaces comes back from its `Bearer` header. */
  lemma BearerRoundTrip(token: string)
    requires ' ' !in token
    ensures ExtractToken(Scheme + " " + token) == token
  {
    assert Scheme + " " + token == Scheme + [' '] + token;
    SplitAround(Scheme, token, ' ');
    SplitNoSep(Scheme, ' ');
    SplitNoSep(token, ' ');
  }

  /** A second space, as in `Bearer  x`, makes three words and no token. */
  lemma DoubleSpaceRefused(token: string)
    ensures ExtractToken(Scheme + "  " + token) == ""
  {
    assert Scheme + "  " + token == Scheme + [' '] + ("" + [' '] + token);
    SplitAround(Scheme, "" + [' '] + token, ' ');
    SplitAround("", token, ' ');
    assert |Split(Scheme + "  " + token, ' ')| >= 3;
  }

  /** The scheme is case-sensitive: `bearer` yields no token. */
  lemma LowerCaseSchemeRefused(token: string)
    ensures ExtractToken("bearer " + token) == ""
  {
    var auth := "bearer " + token;
    if ExtractToken(auth) != "" {
      ExtractTokenExactly(auth, ExtractToken(auth));
    }
  }
}
