/**
  The e-mail check of the contact form: `/\S+@\S+\.\S+/.test(email)`.

  The pattern has no anchors and no flags, so `test` succeeds when SOME
  substring of the input belongs to the language of the pattern. Since `\S`
  also matches `@` and `.`, strings such as `a@@b..c` pass.
 */
module EmailPattern {
  import opened JsText

  const AT: CodeUnit := 0x40
  const DOT: CodeUnit := 0x2E

  /** `\S+`: a non-empty run of code units none of which is in `\s`. */
  predicate IsNonSpaceRun(t: JsString)
  {
    |t| > 0 && forall k :: 0 <= k < |t| ==> !IsRegExpSpace(t[k])
  }

  /** The language of the pattern `\S+@\S+\.\S+`, matched by the whole of `t`. */
  ghost predicate InPattern(t: JsString)
    ensures InPattern(t) ==> |t| >= 5 && !IsRegExpSpace(t[0]) && !IsRegExpSpace(t[|t| - 1])
  {
    exists x, y, z ::
      IsNonSpaceRun(x) && IsNonSpaceRun(y) && IsNonSpaceRun(z) && t == x + [AT] + y + [DOT] + z
  }

  /** `RegExp.prototype.test` for the unanchored pattern: some substring is in its language. */
  ghost predicate EmailTest(s: JsString)
    ensures EmailTest(s) ==> |s| >= 5
  {
    exists a, b :: 0 <= a <= b <= |s| && InPattern(s[a..b])
  }

  /**
    A match located by its `@` at index `i` and its `.` at index `j`: one
    non-space unit before the `@`, at least one non-space unit between the
    two, and one non-space unit after the `.`.
   */
  predicate MatchAround(s: JsString, i: int, j: int)
  {
    && 1 <= i && i + 2 <= j && j + 1 < |s|
    && !IsRegExpSpace(s[i - 1])
    && s[i] == AT
    && (forall k :: i < k < j ==> !IsRegExpSpace(s[k]))
    && s[j] == DOT
    && !IsRegExpSpace(s[j + 1])
  }

  /** Every match contains a shortest one, of the form `c@` y `.d`. */
  lemma MatchAroundOf(s: JsString, a: int, b: int)
    requires 0 <= a <= b <= |s| && InPattern(s[a..b])
    ensures exists i, j :: MatchAround(s, i, j)
  {
    var t := s[a..b];
    var x, y, z :| IsNonSpaceRun(x) && IsNonSpaceRun(y) && IsNonSpaceRun(z) && t == x + [AT] + y + [DOT] + z;
    var i := a + |x|;
    var j := i + 1 + |y|;
    assert s[i - 1] == t[|x| - 1] == x[|x| - 1];
    assert s[i] == t[|x|] == AT;
    forall k | i < k < j
      ensures !IsRegExpSpace(s[k])
    {
      assert s[k] == t[k - a] == y[k - i - 1];
    }
    assert s[j] == t[|x| + 1 + |y|] == DOT;
    assert s[j + 1] == t[|x| + 2 + |y|] == z[0];
    assert MatchAround(s, i, j);
  }

  /** The shortest match around an `@` and a `.` is a match of the pattern. */
  lemma InPatternAround(s: JsString, i: int, j: int)
    requires MatchAround(s, i, j)
    ensures InPattern(s[i - 1..j + 2])
  {
    var x, y, z := [s[i - 1]], s[i + 1..j], [s[j + 1]];
    assert IsNonSpaceRun(y) by {
      forall k | 0 <= k < |y|
        ensures !IsRegExpSpace(y[k])
      {
        assert y[k] == s[i + 1 + k];
      }
    }
    assert IsNonSpaceRun(x) && IsNonSpaceRun(z);
    assert s[i - 1..j + 2] == x + [AT] + y + [DOT] + z;
  }

  /** The test succeeds exactly when some `@` and some `.` delimit a match. */
  lemma MatchIffAround(s: JsString)
    ensures EmailTest(s) <==> exists i, j :: MatchAround(s, i, j)
  {
    if EmailTest(s) {
      var a, b :| 0 <= a <= b <= |s| && InPattern(s[a..b]);
      MatchAroundOf(s, a, b);
    }
    if i, j :| MatchAround(s, i, j) {
      InPatternAround(s, i, j);
    }
  }

  /**
    Any accepted string has at least five code units, so the form's separate
    truthiness test on the e-mail before the pattern adds nothing.
   */
  lemma MatchHasLengthFive(s: JsString)
    ensures EmailTest(s) ==> |s| >= 5
    ensures EmailTest(s) ==> Truthy(s)
  {
    MatchIffAround(s);
  }

  /** A substring of `s` is the same substring of `p + s + q`, shifted by `|p|`. */
  lemma SliceOfEmbedding(p: JsString, s: JsString, q: JsString, a: int, b: int)
    requires 0 <= a <= b <= |s|
    ensures (p + s + q)[|p| + a..|p| + b] == s[a..b]
  {
  }

  /** The pattern is unanchored: text around an accepted string keeps it accepted. */
  lemma MatchExtends(p: JsString, s: JsString, q: JsString)
    requires EmailTest(s)
    ensures EmailTest(p + s + q)
  {
    var a, b :| 0 <= a <= b <= |s| && InPattern(s[a..b]);
    SliceOfEmbedding(p, s, q, a, b);
    var u := p + s + q;
    assert 0 <= |p| + a <= |p| + b <= |u| && InPattern(u[|p| + a..|p| + b]);
  }

  /** A string without `@` is never accepted. */
  lemma NoAtNoMatch(s: JsString)
    requires forall k :: 0 <= k < |s| ==> s[k] != AT
    ensures !EmailTest(s)
  {
    MatchIffAround(s);
  }

  /** A string with no `.` anywhere after an `@` is never accepted. */
  lemma NoDotAfterAtNoMatch(s: JsString)
    requires forall i, j :: 0 <= i < j < |s| && s[i] == AT ==> s[j] != DOT
    ensures !EmailTest(s)
  {
    MatchIffAround(s);
  }

  /**
    On a string with no `\s` unit in it the test asks only for an `@` that is
    not the first unit, followed at distance two or more by a `.` that is not
    the last unit.
   */
  lemma SpaceFreeMatch(s: JsString)
    requires forall k :: 0 <= k < |s| ==> !IsRegExpSpace(s[k])
    ensures EmailTest(s) <==>
      exists i, j :: 1 <= i && i + 2 <= j && j + 1 < |s| && s[i] == AT && s[j] == DOT
  {
    MatchIffAround(s);
    if i, j :| 1 <= i && i + 2 <= j && j + 1 < |s| && s[i] == AT && s[j] == DOT {
      assert MatchAround(s, i, j);
    }
  }

  /** Strings the pattern accepts, some of them not what a reader of it would expect. */
  lemma AcceptedExamples()
    ensures EmailTest(FromBmp("a@b.c"))
    ensures EmailTest(FromBmp("a@@b..c"))
    ensures EmailTest(FromBmp("a@..c"))
  {
    var s1, s2, s3 := FromBmp("a@b.c"), FromBmp("a@@b..c"), FromBmp("a@..c");
    MatchIffAround(s1);
    assert MatchAround(s1, 1, 3);
    MatchIffAround(s2);
    assert MatchAround(s2, 1, 4);
    MatchIffAround(s3);
    assert MatchAround(s3, 1, 3);
  }

  /** Only a substring has to match: surrounding text, spaces included, does not matter. */
  lemma AcceptedInsideText()
    ensures EmailTest(FromBmp("mail: x@y.z !"))
  {
    var s := FromBmp("mail: x@y.z !");
    MatchIffAround(s);
    assert MatchAround(s, 7, 9);
  }

  /** Strings the pattern rejects. */
  lemma RejectedExamples()
    ensures !EmailTest(FromBmp("@b.c"))
    ensures !EmailTest(FromBmp("a@.c"))
    ensures !EmailTest(FromBmp("a @b.c"))
    ensures !EmailTest(FromBmp("a@b. c"))
  {
    var s1, s2, s3, s4 := FromBmp("@b.c"), FromBmp("a@.c"), FromBmp("a @b.c"), FromBmp("a@b. c");
    MatchIffAround(s1);
    MatchIffAround(s2);
    MatchIffAround(s3);
    MatchIffAround(s4);
  }

  /**
    Decides the test in one left-to-right pass. It tracks the start of the
    current run of non-space units and the first `@` of that run that has a
    unit before it; a `.` followed by a non-space unit, two or more units
    after that `@`, completes a match.
   */
  method TestEmail(s: JsString) returns (r: bool)
    ensures r == EmailTest(s)
  {
    MatchIffAround(s);
    var k, runStart, at := 0, 0, -1;
    while k < |s|
      invariant 0 <= runStart <= k <= |s|
      invariant runStart == 0 || IsRegExpSpace(s[runStart - 1])
      invariant forall m :: runStart <= m < k ==> !IsRegExpSpace(s[m])
      invariant at == -1 ==> forall m :: runStart < m < k ==> s[m] != AT
      invariant at != -1 ==> runStart < at < k && s[at] == AT
      invariant at != -1 ==> forall m :: runStart < m < at ==> s[m] != AT
      invariant forall i, j :: MatchAround(s, i, j) ==> k <= j + 1
    {
      if IsRegExpSpace(s[k]) {
        runStart, at := k + 1, -1;
      } else {
        if 1 <= k && s[k - 1] == DOT && at != -1 && at + 2 <= k - 1 {
          assert MatchAround(s, at, k - 1);
          return true;
        }
        if at == -1 && s[k] == AT && runStart < k {
          at := k;
        }
      }
      k := k + 1;
    }
    return false;
  }
}
