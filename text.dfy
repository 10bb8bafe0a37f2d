/** The part of Go's `strings` package the generators rely on, on `seq<char>`
    (one `char` per rune). Case mapping is ASCII only; white space is Unicode's
    White_Space set, as in Go's `unicode.IsSpace`. */
module Text {

  // ---------------------------------------------------------------- characters

  predicate IsUpper(c: char) { 'A' <= c <= 'Z' }
  predicate IsLower(c: char) { 'a' <= c <= 'z' }
  predicate IsDigit(c: char) { '0' <= c <= '9' }
  predicate IsLetter(c: char) { IsUpper(c) || IsLower(c) }
  predicate IsAlnum(c: char) { IsLetter(c) || IsDigit(c) }

  /** Go's `unicode.IsSpace`: the Unicode White_Space property. */
  predicate IsSpace(c: char) {
    c == '\t' || c == '\n' || c == '\U{000B}' || c == '\U{000C}' || c == '\r' || c == ' '
    || c == '\U{0085}' || c == '\U{00A0}' || c == '\U{1680}'
    || ('\U{2000}' <= c <= '\U{200A}')
    || c == '\U{2028}' || c == '\U{2029}' || c == '\U{202F}' || c == '\U{205F}' || c == '\U{3000}'
  }

  function LowerChar(c: char): (d: char)
    ensures !IsUpper(d)
    ensures IsUpper(c) ==> IsLower(d)
    ensures !IsUpper(c) ==> d == c
  {
    if IsUpper(c) then (c as int + 32) as char else c
  }

  function UpperChar(c: char): (d: char)
    ensures !IsLower(d)
    ensures IsLower(c) ==> IsUpper(d) && LowerChar(d) == c
    ensures !IsLower(c) ==> d == c
  {
    if IsLower(c) then (c as int - 32) as char else c
  }

  /** `strings.ToLower`, restricted to ASCII letters. */
  function ToLower(s: string): (r: string)
    ensures |r| == |s|
    ensures forall i :: 0 <= i < |s| ==> r[i] == LowerChar(s[i])
  {
    seq(|s|, i requires 0 <= i < |s| => LowerChar(s[i]))
  }

  predicate NoUpper(s: string) {
    forall i :: 0 <= i < |s| ==> !IsUpper(s[i])
  }

  /** Word boundaries of `strings.Title`: ASCII letters, digits and `_` are
      not separators, other ASCII is; beyond ASCII only white space is. */
  predicate IsSeparator(c: char) {
    if c as int < 128 then !(IsAlnum(c) || c == '_') else IsSpace(c)
  }

  /** `strings.Title`: upper-case every letter that starts a word. */
  function Title(s: string): (r: string)
    ensures |r| == |s|
    ensures forall i :: 0 <= i < |s| ==>
      r[i] == if i == 0 || IsSeparator(s[i - 1]) then UpperChar(s[i]) else s[i]
  {
    seq(|s|, i requires 0 <= i < |s| => TitleChar(s, i))
  }

  function TitleChar(s: string, i: nat): char
    requires i < |s|
  {
    if i == 0 || IsSeparator(s[i - 1]) then UpperChar(s[i]) else s[i]
  }

  // ---------------------------------------------------------------- substrings

  predicate OccursAt(s: string, p: string, i: int) {
    0 <= i && i + |p| <= |s| && s[i..i + |p|] == p
  }

  /** First occurrence of `p` in `s` at or after `k`, or -1. */
  function IndexFrom(s: string, p: string, k: nat): (r: int)
    ensures r == -1 || (k <= r && OccursAt(s, p, r))
    ensures r == -1 ==> forall j :: k <= j ==> !OccursAt(s, p, j)
    ensures r >= 0 ==> forall j :: k <= j < r ==> !OccursAt(s, p, j)
    decreases |s| - k
  {
    if k + |p| > |s| then -1
    else if s[k..k + |p|] == p then k
    else IndexFrom(s, p, k + 1)
  }

  /** `strings.Index`. */
  function IndexOf(s: string, p: string): (r: int)
    ensures r == -1 || OccursAt(s, p, r)
    ensures r == -1 ==> forall j :: !OccursAt(s, p, j)
    ensures r >= 0 ==> forall j :: 0 <= j < r ==> !OccursAt(s, p, j)
  {
    IndexFrom(s, p, 0)
  }

  /** `strings.Contains`. */
  predicate Contains(s: string, p: string) {
    exists i :: 0 <= i <= |s| && OccursAt(s, p, i)
  }

  /** `strings.Contains` is `strings.Index(s, p) >= 0`. */
  lemma ContainsIndex(s: string, p: string)
    ensures Contains(s, p) <==> IndexOf(s, p) >= 0
  {
    if IndexOf(s, p) >= 0 {
      OccursContains(s, p, IndexOf(s, p));
    }
  }

  lemma OccursContains(s: string, p: string, i: int)
    requires OccursAt(s, p, i)
    ensures Contains(s, p)
  {
  }

  lemma ContainsOccurs(s: string, p: string) returns (i: nat)
    requires Contains(s, p)
    ensures OccursAt(s, p, i)
  {
    var j :| 0 <= j <= |s| && OccursAt(s, p, j);
    i := j;
  }

  /** An occurrence survives putting text in front of it or after it. */
  lemma OccursShift(a: string, s: string, b: string, p: string, i: int)
    requires OccursAt(s, p, i)
    ensures OccursAt(a + s + b, p, |a| + i)
  {
    assert (a + s + b)[|a| + i..|a| + i + |p|] == s[i..i + |p|];
  }

  lemma ContainsWithin(a: string, s: string, b: string, p: string)
    requires Contains(s, p)
    ensures Contains(a + s + b, p)
  {
    var i := ContainsOccurs(s, p);
    OccursShift(a, s, b, p, i);
    OccursContains(a + s + b, p, |a| + i);
  }

  lemma ContainsSelf(a: string, p: string, b: string)
    ensures Contains(a + p + b, p)
  {
    OccursShift(a, p, b, p, 0);
    OccursContains(a + p + b, p, |a|);
  }

  /** Being a substring is transitive. */
  lemma ContainsTrans(s: string, x: string, p: string)
    requires Contains(s, x) && Contains(x, p)
    ensures Contains(s, p)
  {
    var i := ContainsOccurs(s, x);
    var j := ContainsOccurs(x, p);
    assert forall m :: 0 <= m < |x| ==> s[i + m] == x[m];
    assert forall m :: 0 <= m < |p| ==> x[j + m] == p[m];
    assert s[i + j..i + j + |p|] == p;
    OccursContains(s, p, i + j);
  }

  lemma ContainsPrefix(s: string, n: nat, p: string)
    requires n <= |s|
    ensures Contains(s[..n], p) ==> Contains(s, p)
  {
    assert "" + s[..n] + s[n..] == s;
    if Contains(s[..n], p) {
      ContainsWithin("", s[..n], s[n..], p);
    }
  }

  lemma ContainsSuffix(s: string, n: nat, p: string)
    requires n <= |s|
    ensures Contains(s[n..], p) ==> Contains(s, p)
  {
    assert s[..n] + s[n..] + "" == s;
    if Contains(s[n..], p) {
      ContainsWithin(s[..n], s[n..], "", p);
    }
  }

  /** A text that does not contain `c` contains no pattern that holds `c`. */
  lemma NoCharNoContains(s: string, p: string, c: char)
    requires c !in s && c in p
    ensures !Contains(s, p)
  {
    var j :| 0 <= j < |p| && p[j] == c;
    forall i ensures !OccursAt(s, p, i) {
      if 0 <= i && i + |p| <= |s| {
        assert s[i + j] != c;
        assert s[i..i + |p|][j] == s[i + j];
      }
    }
  }

  /** `strings.LastIndex` for a one-character pattern. */
  function LastIndexOfChar(s: string, c: char): (r: int)
    ensures -1 <= r < |s|
    ensures r >= 0 ==> s[r] == c
    ensures forall j :: r < j < |s| ==> s[j] != c
  {
    if |s| == 0 then -1
    else if s[|s| - 1] == c then |s| - 1
    else LastIndexOfChar(s[..|s| - 1], c)
  }

  function HasPrefix(s: string, p: string): bool {
    |p| <= |s| && s[..|p|] == p
  }

  function HasSuffix(s: string, p: string): bool {
    |p| <= |s| && s[|s| - |p|..] == p
  }

  function TrimPrefix(s: string, p: string): (r: string)
    ensures HasPrefix(s, p) ==> s == p + r
    ensures !HasPrefix(s, p) ==> r == s
  {
    if HasPrefix(s, p) then s[|p|..] else s
  }

  // ---------------------------------------------------------------- trimming

  function TrimLeft(s: string): (r: string)
    ensures |r| <= |s| && r == s[|s| - |r|..]
    ensures |r| > 0 ==> !IsSpace(r[0])
    ensures forall i :: 0 <= i < |s| - |r| ==> IsSpace(s[i])
  {
    if |s| > 0 && IsSpace(s[0]) then TrimLeft(s[1..]) else s
  }

  function TrimRight(s: string): (r: string)
    ensures |r| <= |s| && r == s[..|r|]
    ensures |r| > 0 ==> !IsSpace(r[|r| - 1])
    ensures forall i :: |r| <= i < |s| ==> IsSpace(s[i])
  {
    if |s| > 0 && IsSpace(s[|s| - 1]) then TrimRight(s[..|s| - 1]) else s
  }

  /** `strings.TrimSpace`. */
  function TrimSpace(s: string): string {
    TrimRight(TrimLeft(s))
  }

  /** TrimSpace yields "" exactly for all-blank text. */
  lemma TrimSpaceEmpty(s: string)
    ensures TrimSpace(s) == "" <==> forall i :: 0 <= i < |s| ==> IsSpace(s[i])
  {
    var l := TrimLeft(s);
    if TrimSpace(s) == "" {
      assert |l| == 0;
    } else {
      var r := TrimSpace(s);
      assert !IsSpace(r[0]);
      assert r[0] == l[0] == s[|s| - |l|];
    }
  }

  // ---------------------------------------------------------------- split and join

  /** Index of the first `c` at or after `k`, or |s| when there is none. */
  function CharIndexFrom(s: string, c: char, k: nat): (i: nat)
    requires k <= |s|
    ensures k <= i <= |s|
    ensures i < |s| ==> s[i] == c
    ensures forall j :: k <= j < i ==> s[j] != c
    decreases |s| - k
  {
    if k == |s| then k else if s[k] == c then k else CharIndexFrom(s, c, k + 1)
  }

  /** `strings.Split(s, string(c))`: the pieces between the separators. */
  function Split(s: string, c: char): (parts: seq<string>)
    ensures |parts| >= 1
    decreases |s|
  {
    var i := CharIndexFrom(s, c, 0);
    if i == |s| then [s] else [s[..i]] + Split(s[i + 1..], c)
  }

  /** `strings.Join`. */
  function Join(parts: seq<string>, sep: string): string {
    if |parts| == 0 then "" else if |parts| == 1 then parts[0] else parts[0] + sep + Join(parts[1..], sep)
  }

  predicate NoneContains(parts: seq<string>, c: char) {
    forall k :: 0 <= k < |parts| ==> c !in parts[k]
  }

  lemma {:induction false} SplitPartsLack(s: string, c: char)
    ensures NoneContains(Split(s, c), c)
    decreases |s|
  {
    var i := CharIndexFrom(s, c, 0);
    if i < |s| {
      SplitPartsLack(s[i + 1..], c);
      assert c !in s[..i];
    }
  }

  lemma SplitNoSep(s: string, c: char)
    requires c !in s
    ensures Split(s, c) == [s]
  {
    var i := CharIndexFrom(s, c, 0);
    assert i == |s|;
  }

  /** Joining the pieces back with the separator gives the text back. */
  lemma {:induction false} JoinSplit(s: string, c: char)
    ensures Join(Split(s, c), [c]) == s
    decreases |s|
  {
    var i := CharIndexFrom(s, c, 0);
    if i < |s| {
      JoinSplit(s[i + 1..], c);
      assert s == s[..i] + [c] + s[i + 1..];
    }
  }

  lemma JoinCons(x: string, rest: seq<string>, sep: string)
    requires |rest| >= 1
    ensures Join([x] + rest, sep) == x + sep + Join(rest, sep)
  {
    assert ([x] + rest)[1..] == rest;
  }

  /** Splitting a join of separator-free pieces gives the pieces back. */
  lemma {:induction false} SplitJoin(parts: seq<string>, c: char)
    requires |parts| >= 1 && NoneContains(parts, c)
    ensures Split(Join(parts, [c]), c) == parts
    decreases |parts|
  {
    if |parts| == 1 {
      SplitNoSep(parts[0], c);
    } else {
      var s := Join(parts, [c]);
      var rest := Join(parts[1..], [c]);
      assert s == parts[0] + [c] + rest;
      var i := CharIndexFrom(s, c, 0);
      assert s[|parts[0]|] == c;
      assert forall j :: 0 <= j < |parts[0]| ==> s[j] == parts[0][j];
      assert i == |parts[0]|;
      assert s[..i] == parts[0];
      assert s[i + 1..] == rest;
      SplitJoin(parts[1..], c);
      assert parts == [parts[0]] + parts[1..];
    }
  }

  lemma {:induction false} JoinAppend(xs: seq<string>, ys: seq<string>, sep: string)
    requires |xs| >= 1 && |ys| >= 1
    ensures Join(xs + ys, sep) == Join(xs, sep) + sep + Join(ys, sep)
    decreases |xs|
  {
    if |xs| == 1 {
      JoinCons(xs[0], ys, sep);
      assert xs + ys == [xs[0]] + ys;
    } else {
      assert xs + ys == [xs[0]] + (xs[1..] + ys);
      JoinCons(xs[0], xs[1..] + ys, sep);
      JoinAppend(xs[1..], ys, sep);
    }
  }

  /** Splitting at a separator splits the pieces list. */
  lemma SplitAround(a: string, b: string, c: char)
    ensures Split(a + [c] + b, c) == Split(a, c) + Split(b, c)
  {
    JoinSplit(a, c);
    JoinSplit(b, c);
    JoinAppend(Split(a, c), Split(b, c), [c]);
    SplitPartsLack(a, c);
    SplitPartsLack(b, c);
    SplitJoin(Split(a, c) + Split(b, c), c);
  }

  lemma {:induction false} JoinExtendLast(xs: seq<string>, w: string, sep: string)
    requires |xs| >= 1
    ensures Join(xs, sep) + w == Join(xs[..|xs| - 1] + [xs[|xs| - 1] + w], sep)
    decreases |xs|
  {
    if |xs| > 1 {
      JoinExtendLast(xs[1..], w, sep);
      assert xs[1..][..|xs| - 2] == xs[1..|xs| - 1];
      assert xs[..|xs| - 1] + [xs[|xs| - 1] + w] == [xs[0]] + (xs[1..|xs| - 1] + [xs[|xs| - 1] + w]);
      JoinCons(xs[0], xs[1..|xs| - 1] + [xs[|xs| - 1] + w], sep);
    }
  }

  /** Text without a separator glued to the end joins the last piece. */
  lemma SplitExtendLast(a: string, w: string, c: char)
    requires c !in w
    ensures var p := Split(a, c); Split(a + w, c) == p[..|p| - 1] + [p[|p| - 1] + w]
  {
    var p := Split(a, c);
    JoinSplit(a, c);
    JoinExtendLast(p, w, [c]);
    SplitPartsLack(a, c);
    SplitJoin(p[..|p| - 1] + [p[|p| - 1] + w], c);
  }

  /** Joining with one more piece inserted adds text at one place and changes nothing else. */
  lemma JoinInsert(xs: seq<string>, k: nat, x: string, sep: string) returns (p: nat, ins: string)
    requires |xs| >= 1 && k <= |xs|
    ensures p <= |Join(xs, sep)| && Contains(ins, x)
    ensures Join(xs[..k] + [x] + xs[k..], sep) == Join(xs, sep)[..p] + ins + Join(xs, sep)[p..]
  {
    var whole := Join(xs, sep);
    if k == 0 {
      assert xs[..k] + [x] + xs[k..] == [x] + xs;
      JoinCons(x, xs, sep);
      p, ins := 0, x + sep;
      assert whole[..p] + ins + whole[p..] == x + sep + whole;
      ContainsSelf("", x, sep);
      assert "" + x + sep == ins;
    } else if k == |xs| {
      assert xs[..k] + [x] + xs[k..] == xs + [x];
      JoinAppend(xs, [x], sep);
      p, ins := |whole|, sep + x;
      assert whole[..p] + ins + whole[p..] == whole + sep + x;
      ContainsSelf(sep, x, "");
      assert sep + x + "" == ins;
    } else {
      var front := Join(xs[..k], sep);
      assert xs[..k] + xs[k..] == xs;
      JoinAppend(xs[..k], xs[k..], sep);
      assert xs[..k] + [x] + xs[k..] == xs[..k] + ([x] + xs[k..]);
      JoinAppend(xs[..k], [x] + xs[k..], sep);
      JoinCons(x, xs[k..], sep);
      p, ins := |front| + |sep|, x + sep;
      assert whole == (front + sep) + Join(xs[k..], sep);
      assert whole[..p] == front + sep;
      assert whole[p..] == Join(xs[k..], sep);
      ContainsSelf("", x, sep);
      assert "" + x + sep == ins;
    }
  }

  /** Offset of piece `k` in the joined text. */
  lemma {:induction false} PieceInJoin(parts: seq<string>, sep: string, k: nat)
    requires k < |parts|
    ensures Contains(Join(parts, sep), parts[k])
    decreases k
  {
    if |parts| == 1 {
      ContainsSelf("", parts[0], "");
      assert "" + parts[0] + "" == parts[0];
    } else if k == 0 {
      ContainsSelf("", parts[0], sep + Join(parts[1..], sep));
      assert Join(parts, sep) == "" + parts[0] + (sep + Join(parts[1..], sep));
    } else {
      PieceInJoin(parts[1..], sep, k - 1);
      ContainsWithin(parts[0] + sep, Join(parts[1..], sep), "", parts[k]);
      assert Join(parts, sep) == (parts[0] + sep) + Join(parts[1..], sep) + "";
    }
  }

  /** A pattern without the separator that occurs in a join occurs in one piece. */
  lemma {:induction false} JoinedPatternInPiece(parts: seq<string>, c: char, p: string) returns (k: nat)
    requires |parts| >= 1 && c !in p && Contains(Join(parts, [c]), p)
    ensures k < |parts| && Contains(parts[k], p)
    decreases |parts|
  {
    if |parts| == 1 {
      k := 0;
    } else {
      var s := Join(parts, [c]);
      var rest := Join(parts[1..], [c]);
      assert s == parts[0] + [c] + rest;
      var i := ContainsOccurs(s, p);
      var n := |parts[0]|;
      assert s[n] == c;
      assert forall m :: i <= m < i + |p| ==> s[m] == p[m - i];
      assert i + |p| <= n || i > n;
      if i + |p| <= n {
        assert parts[0][i..i + |p|] == s[i..i + |p|];
        OccursContains(parts[0], p, i);
        k := 0;
      } else {
        assert rest[i - n - 1..i - n - 1 + |p|] == s[i..i + |p|];
        OccursContains(rest, p, i - n - 1);
        var k' := JoinedPatternInPiece(parts[1..], c, p);
        k := k' + 1;
      }
    }
  }

  /** A pattern without newline occurs in the text iff it occurs in one of its lines. */
  lemma LineContains(s: string, c: char, p: string) returns (k: nat)
    requires c !in p && Contains(s, p)
    ensures k < |Split(s, c)| && Contains(Split(s, c)[k], p)
  {
    JoinSplit(s, c);
    k := JoinedPatternInPiece(Split(s, c), c, p);
  }

  lemma PieceContains(s: string, c: char, k: nat, p: string)
    requires k < |Split(s, c)|
    ensures Contains(Split(s, c)[k], p) ==> Contains(s, p)
  {
    JoinSplit(s, c);
    PieceInJoin(Split(s, c), [c], k);
    if Contains(Split(s, c)[k], p) {
      ContainsTrans(s, Split(s, c)[k], p);
    }
  }

  /** No piece holds a pattern the whole text lacks. */
  lemma PiecesLack(s: string, c: char, p: string)
    requires !Contains(s, p)
    ensures forall k :: 0 <= k < |Split(s, c)| ==> !Contains(Split(s, c)[k], p)
  {
    forall k | 0 <= k < |Split(s, c)| ensures !Contains(Split(s, c)[k], p) {
      PieceContains(s, c, k, p);
    }
  }

  /** Index of the first line at or after `k` containing `p`, or -1. */
  function FirstLineWith(lines: seq<string>, p: string, k: nat): (r: int)
    ensures r == -1 || (k <= r < |lines| && Contains(lines[r], p))
    ensures r == -1 ==> forall j :: k <= j < |lines| ==> !Contains(lines[j], p)
    ensures forall j :: k <= j < r ==> !Contains(lines[j], p)
    decreases |lines| - k
  {
    if k >= |lines| then -1
    else if Contains(lines[k], p) then k
    else FirstLineWith(lines, p, k + 1)
  }

  /** `strings.Split` gives exactly two pieces iff the separator occurs exactly once. */
  lemma {:induction false} SplitLength(s: string, c: char)
    ensures |Split(s, c)| == multiset(s)[c] + 1
    decreases |s|
  {
    var i := CharIndexFrom(s, c, 0);
    if i == |s| {
      assert c !in s;
    } else {
      SplitLength(s[i + 1..], c);
      assert s == s[..i] + [c] + s[i + 1..];
      assert c !in s[..i];
    }
  }

  // ---------------------------------------------------------------- replacement

  /** `strings.Replace(s, old, new, 1)`: replace the first occurrence. */
  function ReplaceFirst(s: string, pat: string, rep: string): (r: string)
    ensures !Contains(s, pat) ==> r == s
    ensures Contains(s, pat) ==> Contains(r, rep)
  {
    var i := IndexOf(s, pat);
    if i < 0 then s
    else
      ContainsSelf(s[..i], rep, s[i + |pat|..]);
      s[..i] + rep + s[i + |pat|..]
  }

  /** A text occurs at the start of itself followed by anything. */
  lemma ContainsFront(a: string, b: string)
    ensures Contains(a + b, a)
  {
    assert (a + b)[0..|a|] == a;
    OccursContains(a + b, a, 0);
  }

  /** A text kept by the replaced text survives a replacement that brings it in too. */
  lemma ReplaceFirstKeeps(s: string, pat: string, rep: string, x: string)
    requires Contains(s, x) && Contains(rep, x)
    ensures Contains(ReplaceFirst(s, pat, rep), x)
  {
    var i := IndexOf(s, pat);
    if i >= 0 {
      ContainsWithin(s[..i], rep, s[i + |pat|..], x);
    }
  }

  /** An occurrence of `x` survives replacing the first `pat` when the two cannot overlap:
      `x` does not start inside `pat`, and `pat`'s first two characters start nowhere in `x`. */
  lemma ReplaceFirstApart(s: string, pat: string, rep: string, x: string, m: nat)
    requires OccursAt(s, x, m) && |x| > 0 && |pat| >= 2 && x[0] !in pat && x[|x| - 1] != pat[0]
    requires forall k :: 0 <= k < |x| - 1 ==> !(x[k] == pat[0] && x[k + 1] == pat[1])
    ensures Contains(ReplaceFirst(s, pat, rep), x)
  {
    if !Contains(s, pat) {
      OccursContains(s, x, m);
    } else {
      var p := FirstSplit(s, pat);
      var a, b := s[..p], s[p + |pat|..];
      if m + |x| <= p {
        OccursLeft(a, pat, rep, b, x, m);
        OccursContains(a + rep + b, x, m);
      } else if p + |pat| <= m {
        OccursRight(a, pat, rep, b, x, m);
        OccursContains(a + rep + b, x, m - |pat| + |rep|);
      } else if p <= m {
      } else {
        OccursChars(s, pat, p, 0);
        OccursChars(s, x, m, p - m);
      }
    }
  }

  /** `p` occurs in `s` at most once. */
  ghost predicate AtMostOnce(s: string, p: string) {
    forall j, k :: OccursAt(s, p, j) && OccursAt(s, p, k) ==> j == k
  }

  /** An occurrence wholly left of a middle piece does not see that piece. */
  lemma OccursLeft(a: string, m: string, n: string, b: string, x: string, j: nat)
    requires j + |x| <= |a|
    ensures OccursAt(a + m + b, x, j) ==> OccursAt(a + n + b, x, j)
  {
    assert (a + m + b)[j..j + |x|] == a[j..j + |x|] == (a + n + b)[j..j + |x|];
  }

  /** An occurrence wholly right of a middle piece moves with that piece's length. */
  lemma OccursRight(a: string, m: string, n: string, b: string, x: string, j: nat)
    requires |a| + |m| <= j
    ensures OccursAt(a + m + b, x, j) ==> OccursAt(a + n + b, x, j - |m| + |n|)
  {
    if j + |x| <= |a + m + b| {
      var d := j - |a| - |m|;
      assert (a + m + b)[j..j + |x|] == b[d..d + |x|];
      assert (a + n + b)[j - |m| + |n|..j - |m| + |n| + |x|] == b[d..d + |x|];
    }
  }

  /** One differing character rules an occurrence out. */
  lemma MismatchAt(s: string, x: string, j: nat, k: nat)
    requires k < |x| && j + k < |s| && s[j + k] != x[k]
    ensures !OccursAt(s, x, j)
  {
    if OccursAt(s, x, j) {
      OccursChars(s, x, j, k);
    }
  }

  /** The first occurrence splits the text around it. */
  lemma FirstSplit(s: string, pat: string) returns (i: nat)
    requires Contains(s, pat)
    ensures i == IndexOf(s, pat) && s == s[..i] + pat + s[i + |pat|..]
  {
    ContainsIndex(s, pat);
    i := IndexOf(s, pat);
    assert s == s[..i] + s[i..i + |pat|] + s[i + |pat|..];
  }

  /** No occurrence of `x` starts inside, ends inside or spans `rep` when `x`'s first and last
      characters and one character of `rep` keep them apart. */
  lemma NotAcross(a: string, rep: string, b: string, x: string, k: nat, j: nat)
    requires |x| > 0 && x[0] !in rep && x[|x| - 1] !in rep && k < |rep| && rep[k] !in x
    requires j + |x| > |a| && j < |a| + |rep|
    ensures !OccursAt(a + rep + b, x, j)
  {
    var r := a + rep + b;
    if j >= |a| {
      assert r[j] == rep[j - |a|];
      MismatchAt(r, x, j, 0);
    } else if j + |x| <= |a| + |rep| {
      assert r[j + |x| - 1] == rep[j + |x| - 1 - |a|];
      MismatchAt(r, x, j, |x| - 1);
    } else {
      assert r[|a| + k] == rep[k];
      MismatchAt(r, x, j, |a| + k - j);
    }
  }

  /** A text absent before a replacement stays absent when it can neither start nor end inside
      the replacement nor span it. */
  lemma ReplaceFirstAbsent(s: string, pat: string, rep: string, x: string, k: nat)
    requires !Contains(s, x) && |x| > 0 && x[0] !in rep && x[|x| - 1] !in rep
    requires k < |rep| && rep[k] !in x
    ensures !Contains(ReplaceFirst(s, pat, rep), x)
  {
    if Contains(s, pat) {
      var i := FirstSplit(s, pat);
      var a, b := s[..i], s[i + |pat|..];
      forall j | 0 <= j <= |a + rep + b| ensures !OccursAt(a + rep + b, x, j) {
        if j + |x| <= |a| {
          OccursLeft(a, rep, pat, b, x, j);
        } else if j >= |a| + |rep| {
          OccursRight(a, rep, pat, b, x, j);
        } else {
          NotAcross(a, rep, b, x, k, j);
        }
      }
    }
  }

  /** A position inside two occurrences holds the matching character of both. */
  lemma OccursBoth(s: string, x: string, m: nat, y: string, p: nat, i: nat)
    requires m <= i < m + |x| && p <= i < p + |y|
    ensures OccursAt(s, x, m) && OccursAt(s, y, p) ==> x[i - m] == y[i - p]
  {
    if OccursAt(s, x, m) && OccursAt(s, y, p) {
      OccursChars(s, x, m, i - m);
      OccursChars(s, y, p, i - p);
    }
  }

  /** Two occurrences are apart when neither end of `y` is a character of `x` and `x` has a
      character that `y` lacks. */
  lemma NoOverlap(s: string, x: string, m: nat, y: string, p: nat, k: nat)
    requires |y| > 0 && y[0] !in x && y[|y| - 1] !in x && k < |x| && x[k] !in y
    ensures OccursAt(s, x, m) && OccursAt(s, y, p) ==> m + |x| <= p || p + |y| <= m
  {
    if m <= p < m + |x| {
      OccursBoth(s, x, m, y, p, p);
    } else if m < p + |y| <= m + |x| {
      OccursBoth(s, x, m, y, p, p + |y| - 1);
    } else if p < m && m + |x| < p + |y| {
      OccursBoth(s, x, m, y, p, m + k);
    }
  }

  /** Two occurrences are apart when each has a character the other lacks and the last
      character of each occurs in the other only as its last character. */
  lemma NoOverlapEnds(s: string, x: string, m: nat, y: string, p: nat, k: nat, j: nat)
    requires |x| > 0 && |y| > 0
    requires forall i :: 0 <= i < |x| - 1 ==> x[i] != y[|y| - 1]
    requires forall i :: 0 <= i < |y| - 1 ==> y[i] != x[|x| - 1]
    requires k < |x| && x[k] !in y && j < |y| && y[j] !in x
    ensures OccursAt(s, x, m) && OccursAt(s, y, p) ==> m + |x| <= p || p + |y| <= m
  {
    if m < p + |y| < m + |x| {
      OccursBoth(s, x, m, y, p, p + |y| - 1);
    } else if p < m + |x| < p + |y| {
      OccursBoth(s, x, m, y, p, m + |x| - 1);
    } else if m + |x| == p + |y| && m <= p {
      OccursBoth(s, x, m, y, p, p + j);
    } else if m + |x| == p + |y| {
      OccursBoth(s, x, m, y, p, m + k);
    }
  }

  /** An occurrence of `x` apart from every occurrence of `pat` survives replacing the first. */
  lemma ReplaceFirstSurvives(s: string, pat: string, rep: string, x: string, m: nat)
    requires OccursAt(s, x, m)
    requires forall p :: OccursAt(s, pat, p) ==> m + |x| <= p || p + |pat| <= m
    ensures Contains(ReplaceFirst(s, pat, rep), x)
  {
    if !Contains(s, pat) {
      OccursContains(s, x, m);
    } else {
      var p := FirstSplit(s, pat);
      var a, b := s[..p], s[p + |pat|..];
      assert OccursAt(s, pat, p);
      if m + |x| <= p {
        OccursLeft(a, pat, rep, b, x, m);
        OccursContains(a + rep + b, x, m);
      } else {
        OccursRight(a, pat, rep, b, x, m);
        OccursContains(a + rep + b, x, m - |pat| + |rep|);
      }
    }
  }

  /** `x` survives replacing the first `pat` when `pat`'s two ends are not in `x` and `x` has a
      character `pat` lacks. */
  lemma ReplaceFirstKeepsInner(s: string, pat: string, rep: string, x: string, k: nat)
    requires Contains(s, x) && |pat| > 0 && pat[0] !in x && pat[|pat| - 1] !in x && k < |x| && x[k] !in pat
    ensures Contains(ReplaceFirst(s, pat, rep), x)
  {
    var m := ContainsOccurs(s, x);
    forall p | OccursAt(s, pat, p) ensures m + |x| <= p || p + |pat| <= m {
      NoOverlap(s, x, m, pat, p, k);
    }
    ReplaceFirstSurvives(s, pat, rep, x, m);
  }

  /** `x` survives replacing the first `pat` when `x`'s two ends are not in `pat` and `pat` has
      a character `x` lacks. */
  lemma ReplaceFirstKeepsOuter(s: string, pat: string, rep: string, x: string, k: nat)
    requires Contains(s, x) && |x| > 0 && x[0] !in pat && x[|x| - 1] !in pat && k < |pat| && pat[k] !in x
    ensures Contains(ReplaceFirst(s, pat, rep), x)
  {
    var m := ContainsOccurs(s, x);
    forall p | OccursAt(s, pat, p) ensures m + |x| <= p || p + |pat| <= m {
      NoOverlap(s, pat, p, x, m, k);
    }
    ReplaceFirstSurvives(s, pat, rep, x, m);
  }

  /** `x` survives replacing the first `pat` when both end in the same character, which occurs
      nowhere else in either, and each has a character the other lacks. */
  lemma ReplaceFirstKeepsEnds(s: string, pat: string, rep: string, x: string, k: nat, j: nat)
    requires Contains(s, x) && |x| > 0 && |pat| > 0
    requires forall i :: 0 <= i < |x| - 1 ==> x[i] != pat[|pat| - 1]
    requires forall i :: 0 <= i < |pat| - 1 ==> pat[i] != x[|x| - 1]
    requires k < |x| && x[k] !in pat && j < |pat| && pat[j] !in x
    ensures Contains(ReplaceFirst(s, pat, rep), x)
  {
    var m := ContainsOccurs(s, x);
    forall p | OccursAt(s, pat, p) ensures m + |x| <= p || p + |pat| <= m {
      NoOverlapEnds(s, x, m, pat, p, k, j);
    }
    ReplaceFirstSurvives(s, pat, rep, x, m);
  }

  /** A text whose last character occurs nowhere before it. */
  lemma LastOnly(body: string, c: char)
    requires c !in body
    ensures forall i :: 0 <= i < |body + [c]| - 1 ==> (body + [c])[i] != c
  {
  }

  /** Replacing a text at the very start. */
  lemma ReplaceAtStart(pat: string, rest: string, rep: string)
    ensures ReplaceFirst(pat + rest, pat, rep) == rep + rest
  {
    OccursShift("", pat, rest, pat, 0);
    assert "" + pat + rest == pat + rest;
    assert (pat + rest)[|pat|..] == rest;
  }

  lemma ContainsAfter(a: string, c: string, p: string)
    ensures Contains(a + (c + p), p)
  {
    ContainsSelf(a + c, p, "");
    assert a + c + p + "" == a + (c + p);
  }

  /** A replacement that happens changes the length by the difference of the two texts. */
  lemma ReplaceFirstLength(s: string, pat: string, rep: string)
    requires Contains(s, pat)
    ensures |ReplaceFirst(s, pat, rep)| == |s| - |pat| + |rep|
  {
    ContainsIndex(s, pat);
  }

  /** Two adjacent characters of an occurrence, the second one when there is one. */
  lemma OccursChars(s: string, x: string, m: nat, k: nat)
    requires OccursAt(s, x, m) && k < |x|
    ensures s[m + k] == x[k]
    ensures k + 1 < |x| ==> s[m + k + 1] == x[k + 1]
  {
    assert s[m + k] == s[m..m + |x|][k];
    if k + 1 < |x| {
      assert s[m + k + 1] == s[m..m + |x|][k + 1];
    }
  }

  /** The first occurrence of a text that starts with `h`, found where `h` first occurs, is there. */
  lemma FirstOccurrenceExtends(s: string, h: string, q: string, i: nat)
    requires IndexOf(s, h) == i && OccursAt(s, q, i) && |h| <= |q| && q[..|h|] == h
    ensures IndexOf(s, q) == i
  {
    var r := IndexOf(s, q);
    if r != i {
      assert r >= 0 && r < i;
      assert s[r..r + |h|] == s[r..r + |q|][..|h|];
      assert OccursAt(s, h, r);
      assert false;
    }
  }

  /** `strings.ReplaceAll` for a non-empty pattern: replace every occurrence,
      left to right, without overlaps. */
  function ReplaceAll(s: string, pat: string, rep: string): (r: string)
    requires |pat| > 0
    ensures !Contains(s, pat) ==> r == s
    ensures Contains(s, pat) ==> Contains(r, rep)
    decreases |s|
  {
    var i := IndexOf(s, pat);
    if i < 0 then s
    else
      var tail := ReplaceAll(s[i + |pat|..], pat, rep);
      ContainsSelf(s[..i], rep, tail);
      s[..i] + rep + tail
  }
}
