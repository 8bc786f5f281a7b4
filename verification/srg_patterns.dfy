/** The four regular expressions of `MappingSpreadsheet`, written out as
    recognisers over `\d` = `[0-9]` and `\w` = `[a-zA-Z_0-9]`:
      METHOD_SRG `func_\d+_\w+_?`, FIELD_SRG `field_\d+_\w+_?` and
      PARAM_SRG `p_i?\d+_\d+_?`, each matched against the whole name, and
      SRG_NUMBER `\w+_i?(\d+).*`, searched for with `find()`. */
module SrgPatterns {
  import opened Wrappers
  import opened Text

  /** The three tables a renamed name can belong to. */
  datatype Category = Field | Method | Param

  const MethodPrefix: string := "func_"
  const FieldPrefix: string := "field_"
  const ParamPrefix: string := "p_"

  /** The end of the run of digits that starts at `i`. */
  function DigitRunEnd(s: string, i: nat): (e: nat)
    requires i <= |s|
    ensures i <= e <= |s| && AllDigits(s[i..e])
    ensures e == |s| || !IsDigit(s[e])
    ensures i < |s| && IsDigit(s[i]) ==> i < e
    decreases |s| - i
  {
    if i < |s| && IsDigit(s[i]) then DigitRunEnd(s, i + 1) else i
  }

  /** A digit block followed by a non-digit (or the end) is exactly the run. */
  lemma {:induction false} DigitRunEndAt(s: string, a: nat, i: nat)
    requires a <= i <= |s| && AllDigits(s[a..i])
    requires i == |s| || !IsDigit(s[i])
    ensures DigitRunEnd(s, a) == i
    decreases i - a
  {
    if a < i {
      assert IsDigit(s[a..i][0]);
      assert s[a + 1..i] == s[a..i][1..];
      DigitRunEndAt(s, a + 1, i);
    }
  }

  // ---------------------------------------------------------------------------
  // METHOD_SRG and FIELD_SRG

  /** `<prefix>\d+_\w+_?` matched against the whole of `s`. As `_` is itself a
      word character, `\w+_?` accepts exactly the non-empty runs of word
      characters; and since `_` is not a digit, `\d+` must end at the first
      non-digit after the prefix, which has to be the `_`. */
  predicate MatchesMemberSrg(prefix: string, s: string) {
    |prefix| <= |s| && s[..|prefix|] == prefix &&
    var d := DigitRunEnd(s, |prefix|);
    |prefix| < d && d + 1 < |s| && s[d] == '_' && AllWord(s[d + 1..])
  }

  /** The language of `<prefix>\d+_\w+_?` read off the pattern: the digits
      `s[|prefix|..i]`, the `_` at `i`, the word characters `s[i+1..j]` and an
      optional final `_`. */
  ghost predicate MemberSrgLanguage(prefix: string, s: string) {
    exists i: nat, j: nat :: MemberSrgSplit(prefix, s, i, j)
  }

  /** A split of `s` along the pattern `<prefix>\d+_\w+_?`. */
  ghost predicate MemberSrgSplit(prefix: string, s: string, i: nat, j: nat) {
    && |prefix| < i < j <= |s|
    && s[..|prefix|] == prefix
    && AllDigits(s[|prefix|..i])
    && s[i] == '_'
    && i + 1 < j
    && AllWord(s[i + 1..j])
    && (j == |s| || (j + 1 == |s| && s[j] == '_'))
  }

  lemma MemberSrgSplitMatches(prefix: string, s: string, i: nat, j: nat)
    requires MemberSrgSplit(prefix, s, i, j)
    ensures MatchesMemberSrg(prefix, s)
  {
    DigitRunEndAt(s, |prefix|, i);
    if j < |s| {
      assert s[i + 1..] == s[i + 1..j] + [s[j]];
      assert IsWordChar(s[j]);
    } else {
      assert s[i + 1..] == s[i + 1..j];
    }
    assert AllWord(s[i + 1..]);
  }

  /** The recogniser accepts exactly the language of the pattern. */
  lemma MemberSrgExact(prefix: string, s: string)
    ensures MatchesMemberSrg(prefix, s) <==> MemberSrgLanguage(prefix, s)
  {
    if MatchesMemberSrg(prefix, s) {
      var d := DigitRunEnd(s, |prefix|);
      assert s[d + 1..|s|] == s[d + 1..];
      assert MemberSrgSplit(prefix, s, d, |s|);
    }
    if MemberSrgLanguage(prefix, s) {
      var i, j :| MemberSrgSplit(prefix, s, i, j);
      MemberSrgSplitMatches(prefix, s, i, j);
    }
  }

  // ---------------------------------------------------------------------------
  // PARAM_SRG

  /** `p_i?\d+_\d+_?` matched against the whole of `s`. An `i` after `p_` must be
      taken by `i?`, because `\d+` cannot start with it. */
  predicate MatchesParamSrg(s: string) {
    |s| > |ParamPrefix| && s[..|ParamPrefix|] == ParamPrefix &&
    var a := if s[2] == 'i' then 3 else 2;
    var i := DigitRunEnd(s, a);
    a < i && i + 1 < |s| && s[i] == '_' &&
    var j := DigitRunEnd(s, i + 1);
    i + 1 < j && (j == |s| || (j + 1 == |s| && s[j] == '_'))
  }

  /** The language of `p_i?\d+_\d+_?` read off the pattern: `p_`, an optional `i`
      ending at `a`, the digits `s[a..i]`, the `_` at `i`, the digits
      `s[i+1..j]` and an optional final `_`. */
  ghost predicate ParamSrgLanguage(s: string) {
    exists a, i, j :: ParamSrgSplit(s, a, i, j)
  }

  ghost predicate ParamSrgSplit(s: string, a: nat, i: nat, j: nat) {
    && 2 <= a < i < j <= |s|
    && s[..2] == ParamPrefix
    && (a == 2 || (a == 3 && s[2] == 'i'))
    && AllDigits(s[a..i])
    && s[i] == '_'
    && i + 1 < j
    && AllDigits(s[i + 1..j])
    && (j == |s| || (j + 1 == |s| && s[j] == '_'))
  }

  /** A split of `s` as the pattern reads it is the one the recogniser finds. */
  lemma ParamSrgSplitMatches(s: string, a: nat, i: nat, j: nat)
    requires ParamSrgSplit(s, a, i, j)
    ensures MatchesParamSrg(s)
  {
    assert IsDigit(s[a..i][0]);
    assert a == (if s[2] == 'i' then 3 else 2);
    DigitRunEndAt(s, a, i);
    DigitRunEndAt(s, i + 1, j);
  }

  lemma ParamSrgExact(s: string)
    ensures MatchesParamSrg(s) <==> ParamSrgLanguage(s)
  {
    if MatchesParamSrg(s) {
      var a := if s[2] == 'i' then 3 else 2;
      var i := DigitRunEnd(s, a);
      var j := DigitRunEnd(s, i + 1);
      assert ParamSrgSplit(s, a, i, j);
    }
    if ParamSrgLanguage(s) {
      var a, i, j :| ParamSrgSplit(s, a, i, j);
      ParamSrgSplitMatches(s, a, i, j);
    }
  }

  // ---------------------------------------------------------------------------
  // Classification

  predicate Matches(c: Category, s: string) {
    match c
    case Method => MatchesMemberSrg(MethodPrefix, s)
    case Field => MatchesMemberSrg(FieldPrefix, s)
    case Param => MatchesParamSrg(s)
  }

  /** The dispatch of `MappingSpreadsheet.read`: METHOD_SRG is tried first, then
      FIELD_SRG, then PARAM_SRG; `None` is a name none of them matches. */
  function Classify(s: string): (r: Option<Category>)
    ensures r.Some? ==> Matches(r.value, s)
    ensures r.None? ==> !Matches(Method, s) && !Matches(Field, s) && !Matches(Param, s)
  {
    if MatchesMemberSrg(MethodPrefix, s) then Some(Method)
    else if MatchesMemberSrg(FieldPrefix, s) then Some(Field)
    else if MatchesParamSrg(s) then Some(Param)
    else None
  }

  /** No name matches two of the patterns: the prefixes `func_`, `field_` and
      `p_` already differ in their first two characters. */
  lemma PatternsDisjoint(c1: Category, c2: Category, s: string)
    requires Matches(c1, s) && Matches(c2, s)
    ensures c1 == c2
  {
    assert Matches(Method, s) ==> s[0] == 'f' && s[1] == 'u';
    assert Matches(Field, s) ==> s[0] == 'f' && s[1] == 'i';
    assert Matches(Param, s) ==> s[0] == 'p';
  }

  /** So the order in which `read` tries the patterns does not matter: a name is
      classified into a category exactly when it matches that category's
      pattern. */
  lemma ClassifyExact(c: Category, s: string)
    ensures Classify(s) == Some(c) <==> Matches(c, s)
  {
    if Matches(c, s) {
      PatternsDisjoint(c, Classify(s).value, s);
    }
  }

  /** A name matching a member pattern with a prefix of word characters is a
      run of word characters. */
  lemma MemberNameIsWord(prefix: string, s: string)
    requires AllWord(prefix) && MatchesMemberSrg(prefix, s)
    ensures AllWord(s)
  {
    var d := DigitRunEnd(s, |prefix|);
    forall k | 0 <= k < |s| ensures IsWordChar(s[k]) {
      if k < |prefix| {
        assert s[k] == s[..|prefix|][k];
      } else if k < d {
        assert s[k] == s[|prefix|..d][k - |prefix|];
      } else if d < k {
        assert s[k] == s[d + 1..][k - d - 1];
      }
    }
  }

  /** Every classified name is a non-empty run of word characters. */
  lemma MatchedNameIsWord(c: Category, s: string)
    requires Matches(c, s)
    ensures |s| > 0 && AllWord(s)
  {
    match c
    case Method => MemberNameIsWord(MethodPrefix, s);
    case Field => MemberNameIsWord(FieldPrefix, s);
    case Param =>
      var a := if s[2] == 'i' then 3 else 2;
      var i := DigitRunEnd(s, a);
      var j := DigitRunEnd(s, i + 1);
      forall k | 0 <= k < |s| ensures IsWordChar(s[k]) {
        if k < 2 {
          assert s[k] == s[..2][k];
        } else if k < a {
        } else if k < i {
          assert s[k] == s[a..i][k - a];
        } else if i < k < j {
          assert s[k] == s[i + 1..j][k - i - 1];
        }
      }
  }

  // ---------------------------------------------------------------------------
  // SRG_NUMBER

  /** A mark at `q`: the `_i?` of `_i?(\d+)` starts at `q` and is followed by a
      digit. */
  predicate IdMarkAt(s: string, q: nat) {
    q + 1 < |s| && s[q] == '_' &&
    (IsDigit(s[q + 1]) || (s[q + 1] == 'i' && q + 2 < |s| && IsDigit(s[q + 2])))
  }

  /** The end of the run of word characters that starts at `p`. */
  function WordRunEnd(s: string, p: nat): (e: nat)
    requires p <= |s|
    ensures p <= e <= |s| && AllWord(s[p..e])
    ensures e == |s| || !IsWordChar(s[e])
    decreases |s| - p
  {
    if p < |s| && IsWordChar(s[p]) then WordRunEnd(s, p + 1) else p
  }

  /** The last mark in `[lo, hi)`. */
  function LastIdMark(s: string, lo: nat, hi: nat): (r: Option<nat>)
    requires hi <= |s|
    ensures r.Some? ==> lo <= r.value < hi && IdMarkAt(s, r.value)
    ensures r.Some? ==> forall q :: r.value < q < hi ==> !IdMarkAt(s, q)
    ensures r.None? ==> forall q :: lo <= q < hi ==> !IdMarkAt(s, q)
    decreases hi
  {
    if hi <= lo then None
    else if IdMarkAt(s, hi - 1) then Some(hi - 1)
    else LastIdMark(s, lo, hi - 1)
  }

  /** Where group 1, `(\d+)`, starts after the mark at `q`: the greedy `i?`
      takes an `i` when there is one. */
  function GroupStart(s: string, q: nat): (g: nat)
    requires IdMarkAt(s, q)
    ensures g < |s| && IsDigit(s[g])
  {
    if IsDigit(s[q + 1]) then q + 1 else q + 2
  }

  /** Group 1 of `SRG_NUMBER.matcher(s).find()`, the search having reached start
      position `p`. `find()` tries the start positions in order; from `p` the
      greedy `\w+` first takes the whole run of word characters and then backs
      off one character at a time, so it stops at the LAST mark of the run;
      the greedy `\d+` then takes the whole digit run, and `.*` accepts the
      rest. `None` means no start position matches. */
  function FindGroupFrom(s: string, p: nat): (g: Option<string>)
    requires p <= |s|
    ensures g.Some? ==> |g.value| > 0 && AllDigits(g.value)
    decreases |s| - p
  {
    if p == |s| then None
    else
      match LastIdMark(s, p + 1, WordRunEnd(s, p))
      case Some(q) =>
        var start := GroupStart(s, q);
        Some(s[start..DigitRunEnd(s, start)])
      case None => FindGroupFrom(s, p + 1)
  }

  /** `Integer.parseInt(matcher.group(1))` as `Entry.compareTo` computes it.
      `None` when `find()` fails (`group` then throws `IllegalStateException`)
      or when the digits overflow an `int` (`NumberFormatException`). */
  function SrgNumber(s: string): (r: Option<int>)
    ensures r.Some? ==> 0 <= r.value <= MaxInt
  {
    match FindGroupFrom(s, 0)
    case None => None
    case Some(g) => ParseInt(g)
  }

  /** The language of `\w+_i?(\d+).*` read off the pattern, for a match that
      starts at `p` and whose `\w+` takes `s[p..q]`: the `_` at `q`, then an
      optional `i`, then at least one digit (`.*` accepts any rest). */
  ghost predicate MatchAt(s: string, p: nat, q: nat) {
    p < q < |s| && AllWord(s[p..q]) && IdMarkAt(s, q)
  }

  /** `g` is group 1 of a match whose `\w+` ends at `q`: the digits start
      right after the `_` or after an `i` there (`i?`), and the greedy `\d+`
      takes the whole digit run from that point. */
  ghost predicate GroupAt(s: string, q: nat, g: string) {
    exists b: nat, e: nat ::
      && q < b < e <= |s|
      && (b == q + 1 || (b == q + 2 && s[q + 1] == 'i'))
      && AllDigits(s[b..e]) && (e == |s| || !IsDigit(s[e]))
      && g == s[b..e]
  }

  /** The match `find()` reports: the leftmost start position with any match,
      and for it the longest `\w+` (the last mark), as backtracking from a
      greedy `\w+` finds first. */
  ghost predicate FirstMatch(s: string, p: nat, q: nat) {
    && MatchAt(s, p, q)
    && (forall p': nat, q': nat :: p' < p ==> !MatchAt(s, p', q'))
    && (forall q': nat :: q < q' ==> !MatchAt(s, p, q'))
  }

  /** A run of word characters from `p` ends no later than the word run. */
  lemma WordPrefix(s: string, p: nat, q: nat)
    requires p <= q <= |s|
    ensures AllWord(s[p..q]) <==> q <= WordRunEnd(s, p)
  {
    var w := WordRunEnd(s, p);
    if AllWord(s[p..q]) {
      WordRunCovers(s, p, q);
    }
    if q <= w {
      forall k | 0 <= k < q - p ensures IsWordChar(s[p..q][k]) {
        assert s[p..q][k] == s[p..w][k];
      }
    }
  }

  lemma {:induction false} WordRunCovers(s: string, p: nat, q: nat)
    requires p <= q <= |s| && AllWord(s[p..q])
    ensures q <= WordRunEnd(s, p)
    decreases q - p
  {
    if p < q {
      assert IsWordChar(s[p..q][0]);
      assert s[p + 1..q] == s[p..q][1..];
      WordRunCovers(s, p + 1, q);
    }
  }

  /** The matches starting at `p` are exactly the marks inside the word run
      from `p`, after its first character. */
  lemma MatchesFrom(s: string, p: nat, q: nat)
    requires p <= |s|
    ensures MatchAt(s, p, q) <==> p + 1 <= q < WordRunEnd(s, p) && IdMarkAt(s, q)
  {
    if p < q < |s| {
      WordPrefix(s, p, q);
    }
  }

  /** A mark determines its group. */
  lemma GroupAtMark(s: string, q: nat, g: string)
    requires IdMarkAt(s, q)
    ensures GroupAt(s, q, g) <==> g == s[GroupStart(s, q)..DigitRunEnd(s, GroupStart(s, q))]
  {
    var b := GroupStart(s, q);
    var e := DigitRunEnd(s, b);
    if g == s[b..e] {
      assert q < b < e <= |s|;
    }
    if GroupAt(s, q, g) {
      var b', e' :| && q < b' < e' <= |s|
                    && (b' == q + 1 || (b' == q + 2 && s[q + 1] == 'i'))
                    && AllDigits(s[b'..e']) && (e' == |s| || !IsDigit(s[e']))
                    && g == s[b'..e'];
      if b' == q + 1 {
        assert IsDigit(s[b'..e'][0]);
      }
      assert b' == b;
      DigitRunEndAt(s, b, e');
    }
  }

  /** `FindGroupFrom` against the language: once no start before `p0` matches,
      the search finds nothing exactly when no start matches at all, and
      otherwise finds the group of the first match. */
  lemma {:induction false} FindGroupFromExact(s: string, p0: nat)
    requires p0 <= |s|
    requires forall p: nat, q: nat :: p < p0 ==> !MatchAt(s, p, q)
    ensures FindGroupFrom(s, p0).None? <==> forall p: nat, q: nat :: !MatchAt(s, p, q)
    ensures forall p: nat, q: nat :: FirstMatch(s, p, q) ==> FindGroupFrom(s, p0) == Some(s[GroupStart(s, q)..DigitRunEnd(s, GroupStart(s, q))])
    decreases |s| - p0
  {
    if p0 == |s| {
      assert forall p: nat, q: nat :: !MatchAt(s, p, q);
    } else {
      var w := WordRunEnd(s, p0);
      forall q: nat ensures MatchAt(s, p0, q) <==> p0 + 1 <= q < w && IdMarkAt(s, q) {
        MatchesFrom(s, p0, q);
      }
      match LastIdMark(s, p0 + 1, w)
      case Some(q0) =>
        assert MatchAt(s, p0, q0);
        assert FirstMatch(s, p0, q0);
        forall p: nat, q: nat | FirstMatch(s, p, q) ensures p == p0 && q == q0 {
          assert !(p < p0);
          assert !(p0 < p) by { assert MatchAt(s, p0, q0); }
          assert !(q < q0) && !(q0 < q);
        }
      case None =>
        assert forall q: nat :: !MatchAt(s, p0, q);
        assert forall p: nat, q: nat :: p < p0 + 1 ==> !MatchAt(s, p, q) by {
          forall p: nat, q: nat | p < p0 + 1 ensures !MatchAt(s, p, q) {
            if p < p0 {} else { assert p == p0; }
          }
        }
        FindGroupFromExact(s, p0 + 1);
    }
  }

  /** `SRG_NUMBER.matcher(s).find()` and `group(1)`, against the pattern's
      language: the search fails exactly when no start position matches, and
      otherwise `SrgNumber` parses the group of the first match. */
  lemma SrgNumberExact(s: string)
    ensures FindGroupFrom(s, 0).None? <==> forall p: nat, q: nat :: !MatchAt(s, p, q)
    ensures forall p: nat, q: nat, g :: FirstMatch(s, p, q) && GroupAt(s, q, g) ==>
              FindGroupFrom(s, 0) == Some(g) && SrgNumber(s) == ParseInt(g)
  {
    FindGroupFromExact(s, 0);
    forall p: nat, q: nat, g | FirstMatch(s, p, q) && GroupAt(s, q, g)
      ensures FindGroupFrom(s, 0) == Some(g)
    {
      GroupAtMark(s, q, g);
    }
  }

  /** Every name one of the three patterns classifies has a mark right after
      its prefix, so `find()` succeeds on it. */
  lemma MatchedNameHasGroup(c: Category, s: string)
    requires Matches(c, s)
    ensures FindGroupFrom(s, 0).Some?
  {
    var q: nat := if c == Param then 1 else if c == Method then |MethodPrefix| - 1 else |FieldPrefix| - 1;
    match c {
      case Method =>
        assert s[..5] == MethodPrefix;
        assert IsDigit(s[5..DigitRunEnd(s, 5)][0]);
      case Field =>
        assert s[..6] == FieldPrefix;
        assert IsDigit(s[6..DigitRunEnd(s, 6)][0]);
      case Param =>
        assert s[..2] == ParamPrefix;
        var a := if s[2] == 'i' then 3 else 2;
        assert IsDigit(s[a..DigitRunEnd(s, a)][0]);
    }
    assert MatchAt(s, 0, q);
    SrgNumberExact(s);
  }

  lemma {:induction false} NoMarkNoGroup(s: string, p: nat)
    requires 1 <= p <= |s|
    requires forall q :: 1 <= q < |s| ==> !IdMarkAt(s, q)
    ensures FindGroupFrom(s, p) == None
    decreases |s| - p
  {
    if p < |s| {
      NoMarkNoGroup(s, p + 1);
    }
  }

  /** For a name made of word characters, the number is the digit run after
      the LAST mark of the name (not the first). */
  lemma {:induction false} WordNameGroup(s: string, q: nat)
    requires |s| > 0 && AllWord(s)
    requires 1 <= q < |s| && IdMarkAt(s, q)
    requires forall q' :: q < q' < |s| ==> !IdMarkAt(s, q')
    ensures FindGroupFrom(s, 0) == Some(s[GroupStart(s, q)..DigitRunEnd(s, GroupStart(s, q))])
  {
    assert s[0..|s|] == s;
    assert WordRunEnd(s, 0) == |s|;
    var r := LastIdMark(s, 1, |s|);
    assert r == Some(q);
  }

  /** A name without any mark after its first character has no number. */
  lemma WordNameNoGroup(s: string)
    requires |s| > 0 && AllWord(s)
    requires forall q :: 1 <= q < |s| ==> !IdMarkAt(s, q)
    ensures SrgNumber(s) == None
  {
    assert s[0..|s|] == s;
    assert WordRunEnd(s, 0) == |s|;
    NoMarkNoGroup(s, 1);
  }

  /** For a method or field name `<prefix><digits>_<word>` whose word part holds
      no further mark, the number is the digit block after the prefix. */
  lemma MemberSrgNumber(prefix: string, s: string)
    requires prefix == MethodPrefix || prefix == FieldPrefix
    requires MatchesMemberSrg(prefix, s)
    requires forall q :: DigitRunEnd(s, |prefix|) <= q < |s| ==> !IdMarkAt(s, q)
    ensures SrgNumber(s) == ParseInt(s[|prefix|..DigitRunEnd(s, |prefix|)])
  {
    var n := |prefix|;
    var d := DigitRunEnd(s, n);
    assert AllWord(prefix) && prefix[n - 1] == '_';
    MemberNameIsWord(prefix, s);
    assert s[n - 1] == s[..n][n - 1];
    assert IsDigit(s[n]) by {
      assert s[n] == s[n..d][0];
    }
    assert IdMarkAt(s, n - 1);
    forall q' | n - 1 < q' < |s| ensures !IdMarkAt(s, q') {
      if q' < d {
        assert s[q'] == s[n..d][q' - n];
      }
    }
    WordNameGroup(s, n - 1);
  }

  /** For a parameter name `p_[i]<digits>_<digits>[_]` the number is the SECOND
      digit block. */
  lemma ParamSrgNumber(s: string)
    requires Matches(Param, s)
    ensures var a := if s[2] == 'i' then 3 else 2;
            var i := DigitRunEnd(s, a);
            SrgNumber(s) == ParseInt(s[i + 1..DigitRunEnd(s, i + 1)])
  {
    var a := if s[2] == 'i' then 3 else 2;
    var i := DigitRunEnd(s, a);
    var j := DigitRunEnd(s, i + 1);
    MatchedNameIsWord(Param, s);
    forall q' | i < q' < |s| ensures !IdMarkAt(s, q') {
      if q' < j {
        assert s[q'] == s[i + 1..j][q' - i - 1];
      }
    }
    WordNameGroup(s, i);
  }

  /** The number is taken from the last mark: `func_123_abc` gives 123 ... */
  lemma MethodNumberExample()
    ensures SrgNumber("func_123_abc") == Some(123)
  {
    MethodExampleShape();
    ParseExample();
    MemberNumberOf(MethodPrefix, "func_123_abc", 8, 123);
  }

  /** `MemberSrgNumber`, with the digit run and its value given. */
  lemma MemberNumberOf(prefix: string, s: string, d: nat, v: int)
    requires prefix == MethodPrefix || prefix == FieldPrefix
    requires MatchesMemberSrg(prefix, s) && DigitRunEnd(s, |prefix|) == d
    requires forall q :: d <= q < |s| ==> !IdMarkAt(s, q)
    requires ParseInt(s[|prefix|..d]) == Some(v)
    ensures SrgNumber(s) == Some(v)
  {
    MemberSrgNumber(prefix, s);
  }

  lemma ParseExample()
    ensures ParseInt("123") == Some(123)
  {
    assert "123"[..2] == "12" && "12"[..1] == "1" && "1"[..0] == "";
    assert DigitsValue("123") == 123;
  }

  lemma MethodExampleShape()
    ensures DigitRunEnd("func_123_abc", 5) == 8
    ensures MatchesMemberSrg(MethodPrefix, "func_123_abc")
    ensures forall q :: 8 <= q < 12 ==> !IdMarkAt("func_123_abc", q)
    ensures "func_123_abc"[5..8] == "123"
  {
    var m := "func_123_abc";
    DigitRunEndAt(m, 5, 8);
    assert m[9..] == "abc";
    forall q | 8 <= q < |m| ensures !IdMarkAt(m, q) {
      assert q == 8 || m[q] != '_';
    }
  }

  /** ... but `p_i123_4` gives 4, */
  lemma ParamNumberExample()
    ensures SrgNumber("p_i123_4") == Some(4)
  {
    var p := "p_i123_4";
    DigitRunEndAt(p, 3, 6);
    DigitRunEndAt(p, 7, 8);
    assert MatchesParamSrg(p);
    ParamSrgNumber(p);
    assert p[7..8] == "4";
    assert DigitsValue("4") == 4 by { assert "4"[..0] == ""; }
  }

  /** A non-word character ends the search's first word run: in `a_1.b_2` the
      greedy `\w+` cannot reach the later mark, so the id is 1, not 2. */
  lemma NonWordStopsExample()
    ensures SrgNumber("a_1.b_2") == Some(1)
  {
    var s := "a_1.b_2";
    assert WordRunEnd(s, 3) == 3 by { assert !IsWordChar(s[3]); }
    assert WordRunEnd(s, 0) == 3 by {
      assert WordRunEnd(s, 0) == WordRunEnd(s, 1) == WordRunEnd(s, 2) == WordRunEnd(s, 3);
    }
    assert !IdMarkAt(s, 2) && IdMarkAt(s, 1);
    assert LastIdMark(s, 1, 3) == Some(1) by { assert LastIdMark(s, 1, 3) == LastIdMark(s, 1, 2); }
    assert GroupStart(s, 1) == 2;
    assert DigitRunEnd(s, 2) == 3 by { assert DigitRunEnd(s, 3) == 3; }
    assert FindGroupFrom(s, 0) == Some("1") by { assert s[2..3] == "1"; }
    assert ParseInt("1") == Some(1) by { assert DigitsValue("1") == DigitsValue("") * 10 + 1; }
  }

  /** ... and a name without a mark, such as `abc`, has none. */
  lemma NoNumberExample()
    ensures SrgNumber("abc") == None
  {
    WordNameNoGroup("abc");
  }
}
