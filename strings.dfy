/**
 * The naming utility of strings.go: changing the case of the first
 * character, and the camelCase to snake_case rewrite from which
 * environment-variable names are derived.
 *
 * Case mapping is restricted to ASCII, which is exactly the `[A-Z]`
 * class of the regular expression that drives `SnakeCase`.
 */
module Strings {

  predicate IsUpper(c: char) { 'A' <= c <= 'Z' }

  predicate IsLower(c: char) { 'a' <= c <= 'z' }

  function UpperChar(c: char): (r: char)
    ensures !IsLower(r)
    ensures IsLower(c) ==> IsUpper(r)
    ensures !IsLower(c) ==> r == c
  {
    if IsLower(c) then (c as int - 32) as char else c
  }

  function LowerChar(c: char): (r: char)
    ensures !IsUpper(r)
    ensures IsUpper(c) ==> IsLower(r)
    ensures !IsUpper(c) ==> r == c
  {
    if IsUpper(c) then (c as int + 32) as char else c
  }

  /** `strings.ToUpper`, on ASCII letters. */
  function ToUpper(s: string): (r: string)
    ensures |r| == |s|
    ensures forall i :: 0 <= i < |s| ==> r[i] == UpperChar(s[i])
  {
    seq(|s|, i requires 0 <= i < |s| => UpperChar(s[i]))
  }

  /** `strings.ToLower`, on ASCII letters. */
  function ToLower(s: string): (r: string)
    ensures |r| == |s|
    ensures forall i :: 0 <= i < |s| ==> r[i] == LowerChar(s[i])
  {
    seq(|s|, i requires 0 <= i < |s| => LowerChar(s[i]))
  }

  /**
   * `changeFirstCase`: the empty string is returned as it is; otherwise
   * only the first character is mapped to upper or lower case.
   */
  function ChangeFirstCase(s: string, upper: bool): (r: string)
    ensures |r| == |s|
    ensures s == [] ==> r == []
    ensures s != [] ==> r[0] == (if upper then UpperChar(s[0]) else LowerChar(s[0]))
    ensures s != [] ==> r[1..] == s[1..]
  {
    if |s| == 0 then s
    else s[0 := if upper then UpperChar(s[0]) else LowerChar(s[0])]
  }

  function FirstUpperCase(s: string): (r: string)
    ensures |r| == |s|
    ensures s != [] ==> r[0] == UpperChar(s[0]) && !IsLower(r[0]) && r[1..] == s[1..]
  {
    ChangeFirstCase(s, true)
  }

  function FirstLowerCase(s: string): (r: string)
    ensures |r| == |s|
    ensures s != [] ==> r[0] == LowerChar(s[0]) && !IsUpper(r[0]) && r[1..] == s[1..]
  {
    ChangeFirstCase(s, false)
  }

  /** A string that already starts with a capital (or no letter) is left alone. */
  lemma FirstUpperCaseIdentity(s: string)
    requires s == [] || !IsLower(s[0])
    ensures FirstUpperCase(s) == s
  {
  }

  /** A string that already starts in lower case (or no letter) is left alone. */
  lemma FirstLowerCaseIdentity(s: string)
    requires s == [] || !IsUpper(s[0])
    ensures FirstLowerCase(s) == s
  {
  }

  lemma FirstCaseExamples()
    ensures FirstUpperCase("") == "" && FirstLowerCase("") == ""
    ensures FirstUpperCase("test") == "Test" && FirstLowerCase("test") == "test"
    ensures FirstUpperCase("OhPleaseFormatMe") == "OhPleaseFormatMe"
    ensures FirstLowerCase("OhPleaseFormatMe") == "ohPleaseFormatMe"
  {
    FirstUpperCaseIdentity("OhPleaseFormatMe");
    FirstLowerCaseIdentity("test");
    assert FirstUpperCase("test") == "Test";
    assert FirstLowerCase("OhPleaseFormatMe") == "ohPleaseFormatMe";
  }

  // ---------------------------------------------------------------------
  // SnakeCase: the regular-expression pass, the trim of a leading '_',
  // then ReplaceAll("-", "_") and one pass of ReplaceAll("__", "_").
  // ---------------------------------------------------------------------

  /**
   * `upperCaseRegex.ReplaceAllString(s, "_$1$2")` with the pattern
   * `([A-Z])([A-Z]*)`: the greedy pattern matches every maximal run of
   * capitals, and each match gets one '_' in front. `prevUpper` tells
   * whether the character before `s` was a capital, i.e. whether `s`
   * starts inside a run that has already been marked.
   */
  function MarkRuns(s: string, prevUpper: bool): (r: string)
    ensures |s| <= |r|
  {
    if s == [] then []
    else (if IsUpper(s[0]) && !prevUpper then "_" else "") + [s[0]] + MarkRuns(s[1..], IsUpper(s[0]))
  }

  /** `strings.ReplaceAll(s, "-", "_")`. */
  function DashToUnderscore(s: string): (r: string)
    ensures |r| == |s| && '-' !in r
    ensures forall i :: 0 <= i < |s| ==> r[i] == (if s[i] == '-' then '_' else s[i])
  {
    seq(|s|, i requires 0 <= i < |s| => if s[i] == '-' then '_' else s[i])
  }

  /**
   * `strings.ReplaceAll(s, "__", "_")`: non-overlapping occurrences,
   * scanned left to right, so "___" becomes "__" and not "_".
   */
  function CollapseUnderscores(s: string): (r: string)
    ensures |r| <= |s|
    ensures '-' !in s ==> '-' !in r
  {
    if |s| < 2 then s
    else if s[0] == '_' && s[1] == '_' then "_" + CollapseUnderscores(s[2..])
    else [s[0]] + CollapseUnderscores(s[1..])
  }

  /** `SnakeCase`: transforms camelCase into snake_case. */
  function SnakeCase(s: string): (r: string)
    ensures '-' !in r
    ensures s == [] ==> r == []
  {
    if |s| == 0 then s
    else
      var snaked := MarkRuns(s, false);
      var trimmed := if snaked[0] == '_' then snaked[1..] else snaked;
      CollapseUnderscores(DashToUnderscore(trimmed))
  }

  // ---------------------------------------------------------------------
  // The boundary rule of the regular-expression pass.
  // ---------------------------------------------------------------------

  /** Position `k` of `s` starts a maximal run of capitals. */
  predicate RunStart(s: string, k: nat)
    requires k < |s|
  {
    IsUpper(s[k]) && (k == 0 || !IsUpper(s[k - 1]))
  }

  function LastIsUpper(s: string, prevUpper: bool): bool {
    if s == [] then prevUpper else IsUpper(s[|s| - 1])
  }

  lemma {:induction false} MarkRunsAppend(a: string, b: string, prevUpper: bool)
    ensures MarkRuns(a + b, prevUpper) == MarkRuns(a, prevUpper) + MarkRuns(b, LastIsUpper(a, prevUpper))
  {
    if a == [] {
      assert a + b == b;
    } else {
      var h := (if IsUpper(a[0]) && !prevUpper then "_" else "") + [a[0]];
      assert (a + b)[0] == a[0];
      assert (a + b)[1..] == a[1..] + b;
      MarkRunsAppend(a[1..], b, IsUpper(a[0]));
      assert LastIsUpper(a[1..], IsUpper(a[0])) == LastIsUpper(a, prevUpper);
      calc {
        MarkRuns(a + b, prevUpper);
        h + MarkRuns(a[1..] + b, IsUpper(a[0]));
        h + (MarkRuns(a[1..], IsUpper(a[0])) + MarkRuns(b, LastIsUpper(a, prevUpper)));
        (h + MarkRuns(a[1..], IsUpper(a[0]))) + MarkRuns(b, LastIsUpper(a, prevUpper));
        MarkRuns(a, prevUpper) + MarkRuns(b, LastIsUpper(a, prevUpper));
      }
    }
  }

  /**
   * Read left to right, the regular-expression pass copies each character
   * and puts exactly one '_' in front of it precisely when it starts a
   * maximal run of capitals: "HTTPS" gets one boundary, not five.
   */
  lemma MarkRunsStep(s: string, k: nat)
    requires k < |s|
    ensures MarkRuns(s[..k + 1], false)
         == MarkRuns(s[..k], false) + (if RunStart(s, k) then "_" else "") + [s[k]]
  {
    assert s[..k + 1] == s[..k] + [s[k]];
    MarkRunsAppend(s[..k], [s[k]], false);
    assert LastIsUpper(s[..k], false) == (k > 0 && IsUpper(s[k - 1]));
  }

  /** Text without capitals passes through the regular-expression pass unchanged. */
  lemma {:induction false} MarkRunsNoCapitals(s: string, prevUpper: bool)
    requires forall i :: 0 <= i < |s| ==> !IsUpper(s[i])
    ensures MarkRuns(s, prevUpper) == s
  {
    if s != [] {
      MarkRunsNoCapitals(s[1..], false);
    }
  }

  // ---------------------------------------------------------------------
  // Letters are never dropped, reordered or recased.
  // ---------------------------------------------------------------------

  /** `s` with every '_' and '-' deleted. */
  function Letters(s: string): (r: string)
    ensures |r| <= |s|
  {
    if s == [] then []
    else (if s[0] == '_' || s[0] == '-' then "" else [s[0]]) + Letters(s[1..])
  }

  lemma {:induction false} LettersAppend(a: string, b: string)
    ensures Letters(a + b) == Letters(a) + Letters(b)
  {
    if a == [] {
      assert a + b == b;
    } else {
      var h := if a[0] == '_' || a[0] == '-' then "" else [a[0]];
      assert (a + b)[0] == a[0];
      assert (a + b)[1..] == a[1..] + b;
      LettersAppend(a[1..], b);
      calc {
        Letters(a + b);
        h + Letters(a[1..] + b);
        h + (Letters(a[1..]) + Letters(b));
        (h + Letters(a[1..])) + Letters(b);
        Letters(a) + Letters(b);
      }
    }
  }

  lemma {:induction false} LettersMarkRuns(s: string, prevUpper: bool)
    ensures Letters(MarkRuns(s, prevUpper)) == Letters(s)
  {
    if s != [] {
      var head := (if IsUpper(s[0]) && !prevUpper then "_" else "") + [s[0]];
      LettersAppend(head, MarkRuns(s[1..], IsUpper(s[0])));
      LettersAppend(if IsUpper(s[0]) && !prevUpper then "_" else "", [s[0]]);
      LettersMarkRuns(s[1..], IsUpper(s[0]));
      assert s == [s[0]] + s[1..];
      LettersAppend([s[0]], s[1..]);
    }
  }

  lemma {:induction false} LettersDashToUnderscore(s: string)
    ensures Letters(DashToUnderscore(s)) == Letters(s)
  {
    if s != [] {
      var d := DashToUnderscore(s);
      assert d[1..] == DashToUnderscore(s[1..]);
      LettersDashToUnderscore(s[1..]);
    }
  }

  lemma {:induction false} LettersCollapse(s: string)
    ensures Letters(CollapseUnderscores(s)) == Letters(s)
  {
    if |s| >= 2 {
      if s[0] == '_' && s[1] == '_' {
        LettersCollapse(s[2..]);
        LettersAppend("_", CollapseUnderscores(s[2..]));
        assert s == "__" + s[2..];
        LettersAppend("__", s[2..]);
      } else {
        LettersCollapse(s[1..]);
        LettersAppend([s[0]], CollapseUnderscores(s[1..]));
        assert s == [s[0]] + s[1..];
        LettersAppend([s[0]], s[1..]);
      }
    }
  }

  /** Deleting every '_' and '-' from input and output of `SnakeCase` gives the same string. */
  lemma SnakeCaseKeepsLetters(s: string)
    ensures Letters(SnakeCase(s)) == Letters(s)
  {
    if s != [] {
      var snaked := MarkRuns(s, false);
      LettersMarkRuns(s, false);
      var trimmed := if snaked[0] == '_' then snaked[1..] else snaked;
      if snaked[0] == '_' {
        assert snaked == "_" + snaked[1..];
        LettersAppend("_", snaked[1..]);
      }
      LettersDashToUnderscore(trimmed);
      LettersCollapse(DashToUnderscore(trimmed));
    }
  }

  /** Inside a run of capitals no further boundary is added. */
  lemma {:induction false} MarkRunsInsideRun(s: string)
    requires forall i :: 0 <= i < |s| ==> IsUpper(s[i])
    ensures MarkRuns(s, true) == s
  {
    if s != [] {
      MarkRunsInsideRun(s[1..]);
    }
  }

  /** A capitalised word gets exactly one boundary, in front. */
  lemma MarkRunsWord(w: string)
    requires w != [] && IsUpper(w[0])
    requires forall i :: 1 <= i < |w| ==> !IsUpper(w[i])
    ensures MarkRuns(w, false) == "_" + w
  {
    MarkRunsNoCapitals(w[1..], true);
  }

  lemma DashToUnderscoreIdentity(s: string)
    requires '-' !in s
    ensures DashToUnderscore(s) == s
  {
  }

  /** Text without a doubled '_' passes through the collapse unchanged. */
  lemma {:induction false} CollapseIdentity(s: string)
    requires forall i :: 0 <= i < |s| - 1 ==> s[i] != '_' || s[i + 1] != '_'
    ensures CollapseUnderscores(s) == s
  {
    if |s| >= 2 {
      CollapseIdentity(s[1..]);
    }
  }

  /** Text without '_' passes through the collapse unchanged, whatever follows it. */
  lemma {:induction false} CollapsePrefix(a: string, b: string)
    requires '_' !in a
    ensures CollapseUnderscores(a + b) == a + CollapseUnderscores(b)
  {
    if a != [] {
      if |a + b| < 2 {
        assert b == [] && a + b == a;
      } else {
        assert (a + b)[0] == a[0] && a[0] != '_';
        assert (a + b)[1..] == a[1..] + b;
        assert '_' !in a[1..];
        CollapsePrefix(a[1..], b);
        calc {
          CollapseUnderscores(a + b);
          [a[0]] + CollapseUnderscores(a[1..] + b);
          [a[0]] + (a[1..] + CollapseUnderscores(b));
          { assert [a[0]] + a[1..] == a; }
          a + CollapseUnderscores(b);
        }
      }
    } else {
      assert a + b == b;
    }
  }

  /** A capitalised word appended after a non-capital gets one boundary. */
  lemma MarkRunsAppendWord(a: string, w: string)
    requires a == [] || !IsUpper(a[|a| - 1])
    requires w != [] && IsUpper(w[0])
    requires forall i :: 1 <= i < |w| ==> !IsUpper(w[i])
    ensures MarkRuns(a + w, false) == MarkRuns(a, false) + "_" + w
  {
    MarkRunsAppend(a, w, false);
    MarkRunsWord(w);
  }

  /**
   * When the regular-expression pass leaves no dash and no doubled '_'
   * (after the leading boundary, if any), `SnakeCase` is that pass minus
   * the leading boundary.
   */
  lemma SnakeCaseClean(s: string, lead: string, t: string)
    requires s != [] && MarkRuns(s, false) == lead + t
    requires lead == "_" || (lead == "" && t != [] && t[0] != '_')
    requires '-' !in t
    requires forall i :: 0 <= i < |t| - 1 ==> t[i] != '_' || t[i + 1] != '_'
    ensures SnakeCase(s) == t
  {
    assert (lead + t)[0] == '_' <==> lead == "_";
    assert lead == "_" ==> (lead + t)[1..] == t;
    assert lead == "" ==> lead + t == t;
    DashToUnderscoreIdentity(t);
    CollapseIdentity(t);
  }

  /**
   * In text without '_' and '-', every '_' the regular-expression pass
   * writes stands right before a capital, and no '-' appears.
   */
  lemma {:induction false} MarkRunsMarksBeforeCapitals(s: string, prevUpper: bool)
    requires '_' !in s && '-' !in s
    ensures var m := MarkRuns(s, prevUpper);
      && '-' !in m
      && forall i :: 0 <= i < |m| && m[i] == '_' ==> i + 1 < |m| && IsUpper(m[i + 1])
  {
    if s != [] {
      assert s[0] in s;
      assert forall c :: c in s[1..] ==> c in s;
      MarkRunsMarksBeforeCapitals(s[1..], IsUpper(s[0]));
      var h := if IsUpper(s[0]) && !prevUpper then "_" else "";
      var rest := MarkRuns(s[1..], IsUpper(s[0]));
      var m := MarkRuns(s, prevUpper);
      assert m == h + [s[0]] + rest;
      assert m[|h|] == s[0];
      forall i | 0 <= i < |m| && m[i] == '_'
        ensures i + 1 < |m| && IsUpper(m[i + 1])
      {
        if i < |h| {
          assert m[i + 1] == s[0];
        } else {
          assert i != |h|;
          assert m[i] == rest[i - |h| - 1];
          assert i - |h| < |rest|;
          assert m[i + 1] == rest[i - |h|];
        }
      }
    }
  }

  /**
   * For text without '_' and '-', `SnakeCase` is exactly the
   * regular-expression pass with its leading boundary trimmed: the two
   * `ReplaceAll` passes have nothing left to do.
   */
  lemma SnakeCaseNoSeparators(s: string)
    requires s != [] && '_' !in s && '-' !in s
    ensures SnakeCase(s) == if IsUpper(s[0]) then MarkRuns(s, false)[1..] else MarkRuns(s, false)
  {
    var m := MarkRuns(s, false);
    MarkRunsMarksBeforeCapitals(s, false);
    assert s[0] in s;
    assert m == (if IsUpper(s[0]) then "_" else "") + [s[0]] + MarkRuns(s[1..], IsUpper(s[0]));
    var lead := if IsUpper(s[0]) then "_" else "";
    var t := m[|lead|..];
    assert m == lead + t;
    assert forall i :: 0 <= i < |t| ==> t[i] == m[i + |lead|];
    assert NoDoubleUnderscore(t) by {
      forall i | 0 <= i < |t| - 1 && t[i] == '_' ensures t[i + 1] != '_' {
        assert m[i + |lead|] == '_';
      }
    }
    SnakeCaseClean(s, lead, t);
  }

  /** Non-empty text without capitals, '_' or '-'. */
  predicate PlainLower(a: string) {
    a != [] && forall i :: 0 <= i < |a| ==> !IsUpper(a[i]) && a[i] != '_' && a[i] != '-'
  }

  /** Non-empty text that neither starts with '_' nor holds a '-' or a doubled '_'. */
  predicate Clean(b: string) {
    b != [] && b[0] != '_' && '-' !in b && NoDoubleUnderscore(b)
  }

  /** Lower-case text followed by a marked run is joined to it by one '_'. */
  lemma SnakeCaseLowerThen(a: string, b: string)
    requires PlainLower(a) && Clean(b) && MarkRuns(b, false) == "_" + b
    ensures SnakeCase(a + b) == a + "_" + b
  {
    var t := a + "_" + b;
    MarkRunsLowerThen(a, b);
    assert MarkRuns(a + b, false) == "" + t;
    LowerThenClean(a, b);
    SnakeCaseClean(a + b, "", t);
  }

  lemma MarkRunsLowerThen(a: string, b: string)
    requires a != [] && forall i :: 0 <= i < |a| ==> !IsUpper(a[i])
    requires MarkRuns(b, false) == "_" + b
    ensures MarkRuns(a + b, false) == a + "_" + b
  {
    MarkRunsNoCapitals(a, false);
    MarkRunsAfterUnchanged(a, b);
  }

  lemma MarkRunsAfterUnchanged(a: string, b: string)
    requires a != [] && !IsUpper(a[|a| - 1]) && MarkRuns(a, false) == a
    requires MarkRuns(b, false) == "_" + b
    ensures MarkRuns(a + b, false) == a + "_" + b
  {
    MarkRunsAppend(a, b, false);
    assert a + ("_" + b) == a + "_" + b;
  }

  lemma LowerThenClean(a: string, b: string)
    requires PlainLower(a) && Clean(b)
    ensures Clean(a + "_" + b)
  {
    var t := a + "_" + b;
    forall i | 0 <= i < |t| - 1 ensures t[i] != '_' || t[i + 1] != '_' {
      if i > |a| {
        assert t[i] == b[i - |a| - 1] && t[i + 1] == b[i - |a|];
      } else if i == |a| {
        assert t[i + 1] == b[0];
      } else {
        assert t[i] == a[i];
      }
    }
    forall i | 0 <= i < |t| ensures t[i] != '-' {
      if i < |a| {
        assert t[i] == a[i];
      } else if i > |a| {
        assert t[i] == b[i - |a| - 1];
      }
    }
    assert t[0] == a[0];
  }

  /** A run of capitals followed by text without capitals gets one boundary, in front. */
  lemma MarkRunsRunThenLower(a: string, b: string)
    requires a != [] && forall i :: 0 <= i < |a| ==> IsUpper(a[i])
    requires forall i :: 0 <= i < |b| ==> !IsUpper(b[i])
    ensures MarkRuns(a + b, false) == "_" + a + b
  {
    MarkRunsInsideRun(a[1..]);
    assert MarkRuns(a, false) == "_" + a;
    MarkRunsNoCapitals(b, true);
    MarkRunsAppend(a, b, false);
  }

  /** A capital followed by no further capitals: the shape `MarkRunsWord` needs. */
  predicate Capitalised(w: string) {
    w != [] && IsUpper(w[0]) && forall i :: 1 <= i < |w| ==> !IsUpper(w[i])
  }

  lemma MarkRunsTwoWords(a: string, b: string)
    requires Capitalised(a) && |a| >= 2 && Capitalised(b)
    ensures MarkRuns(a + b, false) == "_" + a + "_" + b
  {
    MarkRunsWord(a);
    MarkRunsAppendWord(a, b);
  }

  lemma {:induction false} ConcatJoinCons(w: string, ws: seq<string>, sep: string)
    ensures Concat([w] + ws) == w + Concat(ws)
    ensures ws != [] ==> Join([w] + ws, sep) == w + sep + Join(ws, sep)
  {
    assert ([w] + ws)[0] == w && ([w] + ws)[1..] == ws;
  }

  /** Concatenating and joining a list of three. */
  lemma ConcatJoinThree(a: string, b: string, c: string, sep: string)
    ensures Concat([a, b, c]) == a + b + c
    ensures Join([a, b, c], sep) == a + sep + b + sep + c
  {
    ConcatJoinCons(c, [], sep);
    assert Join([c], sep) == c;
    ConcatJoinCons(b, [c], sep);
    assert [b] + [c] == [b, c];
    ConcatJoinCons(a, [b, c], sep);
    assert [a] + [b, c] == [a, b, c];
  }

  /** Concatenating and joining a list of four. */
  lemma ConcatJoinFour(a: string, b: string, c: string, d: string, sep: string)
    ensures Concat([a, b, c, d]) == a + b + c + d
    ensures Join([a, b, c, d], sep) == a + sep + b + sep + c + sep + d
  {
    ConcatJoinThree(b, c, d, sep);
    ConcatJoinCons(a, [b, c, d], sep);
    assert [a] + [b, c, d] == [a, b, c, d];
  }

  /** Three capitalised words: `SnakeCase` puts one '_' between them. */
  lemma SnakeCaseOfThreeWords(a: string, b: string, c: string)
    requires IsWord(a) && IsWord(b) && IsWord(c)
    ensures SnakeCase(a + b + c) == a + "_" + b + "_" + c
  {
    ConcatJoinThree(a, b, c, "_");
    SnakeCaseOfWords([a, b, c]);
  }

  /** Four capitalised words: `SnakeCase` puts one '_' between them. */
  lemma SnakeCaseOfFourWords(a: string, b: string, c: string, d: string)
    requires IsWord(a) && IsWord(b) && IsWord(c) && IsWord(d)
    ensures SnakeCase(a + b + c + d) == a + "_" + b + "_" + c + "_" + d
  {
    ConcatJoinFour(a, b, c, d, "_");
    SnakeCaseOfWords([a, b, c, d]);
  }

  // The worked examples. Each takes its input as a parameter equal to the
  // literal. A small lemma cuts the literal into pieces and checks the
  // shape of each; the general lemmas above then do the work, so that
  // the definitions are never evaluated on a whole literal.

  lemma SnakeCaseOfWord(s: string)
    requires s == "test"
    ensures SnakeCase(s) == "test"
  {
    MarkRunsNoCapitals(s, false);
    SnakeCaseClean(s, "", s);
  }

  lemma CutCamelCase(s: string)
    requires s == "listCount"
    ensures s == s[..4] + s[4..] && PlainLower(s[..4]) && Capitalised(s[4..]) && Clean(s[4..])
    ensures s[..4] + "_" + s[4..] == "list_Count"
  {
  }

  lemma SnakeCaseOfCamelCase(s: string)
    requires s == "listCount"
    ensures SnakeCase(s) == "list_Count"
  {
    CutCamelCase(s);
    var a, b := s[..4], s[4..];
    MarkRunsWord(b);
    SnakeCaseLowerThen(a, b);
  }

  lemma CutCapitalisedWords(s: string)
    requires s == "OhPleaseFormatMe"
    ensures s == s[..2] + s[2..8] + s[8..14] + s[14..]
    ensures s[..2] == "Oh" && s[2..8] == "Please" && s[8..14] == "Format" && s[14..] == "Me"
  {
  }

  lemma CapitalisedWords(a: string, b: string, c: string, d: string)
    requires a == "Oh" && b == "Please" && c == "Format" && d == "Me"
    ensures IsWord(a) && IsWord(b) && IsWord(c) && IsWord(d)
    ensures a + "_" + b + "_" + c + "_" + d == "Oh_Please_Format_Me"
  {
  }

  lemma SnakeCaseOfCapitalisedWords(s: string)
    requires s == "OhPleaseFormatMe"
    ensures SnakeCase(s) == "Oh_Please_Format_Me"
  {
    CutCapitalisedWords(s);
    CapitalisedWords(s[..2], s[2..8], s[8..14], s[14..]);
    SnakeCaseOfFourWords(s[..2], s[2..8], s[8..14], s[14..]);
  }

  lemma CutAcronym(s: string)
    requires s == "getHTTPSValue"
    ensures s == s[..3] + (s[3..9] + s[9..])
    ensures s[..3] == "get" && s[3..9] == "HTTPSV" && s[9..] == "alue"
  {
  }

  lemma AcronymPieces(a: string, r: string, l: string)
    requires a == "get" && r == "HTTPSV" && l == "alue"
    ensures PlainLower(a) && r != [] && (forall i :: 0 <= i < |r| ==> IsUpper(r[i]))
    ensures forall i :: 0 <= i < |l| ==> !IsUpper(l[i])
    ensures Clean(r + l) && a + "_" + (r + l) == "get_HTTPSValue"
  {
    assert r + l == "HTTPSValue";
  }

  /** Lower-case text, a run of capitals, then text without capitals. */
  lemma SnakeCaseLowerRunLower(a: string, r: string, l: string)
    requires PlainLower(a) && r != [] && forall i :: 0 <= i < |r| ==> IsUpper(r[i])
    requires forall i :: 0 <= i < |l| ==> !IsUpper(l[i])
    requires Clean(r + l)
    ensures SnakeCase(a + (r + l)) == a + "_" + (r + l)
  {
    MarkRunsRunThenLower(r, l);
    assert "_" + r + l == "_" + (r + l);
    SnakeCaseLowerThen(a, r + l);
  }

  /** An acronym run gets a single boundary. */
  lemma SnakeCaseOfAcronym(s: string)
    requires s == "getHTTPSValue"
    ensures SnakeCase(s) == "get_HTTPSValue"
  {
    CutAcronym(s);
    AcronymPieces(s[..3], s[3..9], s[9..]);
    SnakeCaseLowerRunLower(s[..3], s[3..9], s[9..]);
  }

  /** A single doubled '_' between two clean pieces collapses to one. */
  lemma CollapseDoubled(a: string, b: string)
    requires '_' !in a
    requires NoDoubleUnderscore(b)
    ensures CollapseUnderscores(a + "__" + b) == a + "_" + b
  {
    var d := "__" + b;
    assert a + "__" + b == a + d;
    CollapsePrefix(a, d);
    assert |d| >= 2 && d[0] == '_' && d[1] == '_' && d[2..] == b;
    assert CollapseUnderscores(d) == "_" + CollapseUnderscores(b);
    CollapseIdentity(b);
  }

  /** The regular-expression pass leaves two marked words; the rest of `SnakeCase` follows. */
  lemma SnakeCaseMarkedDash(w: string, b: string)
    requires MarkRuns(w + "-" + b, false) == "_" + (w + "-") + "_" + b
    requires '_' !in w && '-' !in w && '-' !in b && NoDoubleUnderscore(b)
    ensures SnakeCase(w + "-" + b) == w + "_" + b
  {
    var t := w + "-" + "_" + b;
    assert MarkRuns(w + "-" + b, false) == "_" + t;
    assert ("_" + t)[0] == '_' && ("_" + t)[1..] == t;
    DashesAround(w, b);
    CollapseDoubled(w, b);
  }

  /** A capitalised word, a dash, then a second capitalised word. */
  lemma SnakeCaseWordDashWord(w: string, b: string)
    requires Capitalised(w) && '_' !in w && '-' !in w
    requires Capitalised(b) && '-' !in b && NoDoubleUnderscore(b)
    ensures SnakeCase(w + "-" + b) == w + "_" + b
  {
    var a := w + "-";
    assert Capitalised(a) by {
      forall i | 1 <= i < |a| ensures !IsUpper(a[i]) {
        if i < |w| {
          assert a[i] == w[i];
        }
      }
    }
    MarkRunsTwoWords(a, b);
    SnakeCaseMarkedDash(w, b);
  }

  lemma CutDashes(s: string)
    requires s == "List-Of_thing"
    ensures s == s[..4] + "-" + s[5..] && s[..4] == "List" && s[5..] == "Of_thing"
  {
  }

  lemma DashPieces(w: string, b: string)
    requires w == "List" && b == "Of_thing"
    ensures Capitalised(w) && '_' !in w && '-' !in w
    ensures Capitalised(b) && '-' !in b && NoDoubleUnderscore(b)
    ensures w + "_" + b == "List_Of_thing"
  {
  }

  /** A dash becomes '_', and the doubled '_' this makes is collapsed. */
  lemma SnakeCaseOfDashes(s: string)
    requires s == "List-Of_thing"
    ensures SnakeCase(s) == "List_Of_thing"
  {
    CutDashes(s);
    DashPieces(s[..4], s[5..]);
    SnakeCaseWordDashWord(s[..4], s[5..]);
  }

  lemma DashesAround(a: string, b: string)
    requires '-' !in a && '-' !in b
    ensures DashToUnderscore(a + "-" + "_" + b) == a + "__" + b
  {
    var t := a + "-" + "_" + b;
    var d := DashToUnderscore(t);
    forall i | 0 <= i < |t| ensures d[i] == (a + "__" + b)[i] {
      if i < |a| {
        assert t[i] == a[i];
      } else if i > |a| + 1 {
        assert t[i] == b[i - |a| - 2];
      }
    }
  }

  // ---------------------------------------------------------------------
  // Words: the shape of every derived environment-variable name.
  // ---------------------------------------------------------------------

  /** `%q` of a plain string: the text between double quotes. */
  function Quote(s: string): (r: string)
    ensures |r| == |s| + 2 && r[0] == '"' && r[|r| - 1] == '"' && r[1..|r| - 1] == s
  {
    "\"" + s + "\""
  }

  /** `strings.Join`. */
  function Join(parts: seq<string>, sep: string): (r: string)
    ensures parts == [] ==> r == []
  {
    if |parts| == 0 then ""
    else if |parts| == 1 then parts[0]
    else parts[0] + sep + Join(parts[1..], sep)
  }

  function Concat(parts: seq<string>): string {
    if parts == [] then [] else parts[0] + Concat(parts[1..])
  }

  /** A capitalised word of at least two characters, without '_', '-' or further capitals. */
  predicate IsWord(w: string) {
    && |w| >= 2 && IsUpper(w[0])
    && forall i :: 1 <= i < |w| ==> !IsUpper(w[i]) && w[i] != '_' && w[i] != '-'
  }

  predicate NoDoubleUnderscore(t: string) {
    forall i :: 0 <= i < |t| - 1 ==> t[i] != '_' || t[i + 1] != '_'
  }

  lemma {:induction false} MarkRunsOfWords(ws: seq<string>)
    requires ws != [] && forall i :: 0 <= i < |ws| ==> IsWord(ws[i])
    ensures MarkRuns(Concat(ws), false) == "_" + Join(ws, "_")
  {
    var w := ws[0];
    MarkRunsAppend(w, Concat(ws[1..]), false);
    MarkRunsWord(w);
    if |ws| == 1 {
      assert Concat(ws[1..]) == [];
    } else {
      MarkRunsOfWords(ws[1..]);
    }
  }

  lemma {:induction false} JoinOfWordsIsClean(ws: seq<string>)
    requires ws != [] && forall i :: 0 <= i < |ws| ==> IsWord(ws[i])
    ensures var t := Join(ws, "_"); '-' !in t && NoDoubleUnderscore(t) && |t| >= 2 && t[0] != '_'
    ensures var t := Join(ws, "_"); t[|t| - 1] != '_'
  {
    if |ws| > 1 {
      JoinOfWordsIsClean(ws[1..]);
      var w, b := ws[0], Join(ws[1..], "_");
      var t := w + "_" + b;
      assert t == Join(ws, "_");
      forall i | 0 <= i < |t| - 1
        ensures t[i] != '_' || t[i + 1] != '_'
      {
        if i < |w| - 1 {
          assert t[i] == w[i + 1 - 1] && t[i + 1] == w[i + 1];
        } else if i == |w| - 1 {
          assert t[i + 1] == '_' && t[i] == w[|w| - 1];
        } else if i == |w| {
          assert t[i + 1] == b[0];
        } else {
          assert t[i] == b[i - |w| - 1] && t[i + 1] == b[i + 1 - |w| - 1];
        }
      }
      assert forall i :: 0 <= i < |t| ==> t[i] != '-' by {
        forall i | 0 <= i < |t| ensures t[i] != '-' {
          if i < |w| { assert t[i] == w[i]; }
          else if i > |w| { assert t[i] == b[i - |w| - 1]; }
        }
      }
    }
  }

  /**
   * `SnakeCase` of capitalised words written together separates them
   * with '_': "StringContextTest" becomes "String_Context_Test".
   */
  lemma SnakeCaseOfWords(ws: seq<string>)
    requires ws != [] && forall i :: 0 <= i < |ws| ==> IsWord(ws[i])
    ensures SnakeCase(Concat(ws)) == Join(ws, "_")
  {
    MarkRunsOfWords(ws);
    JoinOfWordsIsClean(ws);
    assert Concat(ws) != [] by {
      assert Concat(ws) == ws[0] + Concat(ws[1..]);
    }
    SnakeCaseClean(Concat(ws), "_", Join(ws, "_"));
  }

  /** Upper-casing maps '_' and '-' to themselves, so it commutes with `Letters`. */
  lemma {:induction false} LettersToUpper(s: string)
    ensures Letters(ToUpper(s)) == ToUpper(Letters(s))
  {
    if s != [] {
      var u := ToUpper(s);
      assert u[1..] == ToUpper(s[1..]);
      LettersToUpper(s[1..]);
      var head := if s[0] == '_' || s[0] == '-' then "" else [s[0]];
      assert ToUpper(head + Letters(s[1..])) == ToUpper(head) + ToUpper(Letters(s[1..]));
    }
  }

  /**
   * Applying `SnakeCase` twice is not the same as applying it once: a
   * single pass of ReplaceAll("__", "_") leaves "__" from "___".
   */
  lemma SnakeCaseNotIdempotent()
    ensures SnakeCase("___") == "_"
    ensures SnakeCase(SnakeCase("___")) == ""
  {
  }
}
