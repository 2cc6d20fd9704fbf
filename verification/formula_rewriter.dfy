/** Rewrites a roll formula so every `d12` term rerolls once on 1 or 2
    (scripts/gwf-d12-rue.js, `addRerollOnceToD12`): the global replace of
    the regular expression `d12(?![a-zA-Z])` by `d12ro<=2`. Only a
    following ASCII letter blocks a match; a following digit does not, so
    `d120` becomes `d12ro<=20`. */
module FormulaRewriter {

  const Modifier: string := "ro<=2"
  const Replacement: string := "d12ro<=2"

  predicate IsAsciiLetter(c: char) {
    'a' <= c <= 'z' || 'A' <= c <= 'Z'
  }

  /** The text `d12` starts at index i of s. */
  predicate D12At(s: string, i: int) {
    0 <= i && i + 3 <= |s| && s[i] == 'd' && s[i + 1] == '1' && s[i + 2] == '2'
  }

  /** `d12(?![a-zA-Z])` matches at index i of s. */
  predicate MatchAt(s: string, i: int) {
    D12At(s, i) && (i + 3 == |s| || !IsAsciiLetter(s[i + 3]))
  }

  /** The replacement text `d12ro<=2` starts at index i of s. */
  predicate ReplacementAt(s: string, i: int) {
    0 <= i && i + |Replacement| <= |s| && s[i..i + |Replacement|] == Replacement
  }

  /** The global replace as the regular-expression engine performs it: scan
      from the left; at a match emit the replacement and resume after the
      three matched characters, otherwise copy one character. */
  function AddRerollOnceToD12(s: string): string
    decreases |s|
  {
    if |s| == 0 then []
    else if MatchAt(s, 0) then Replacement + AddRerollOnceToD12(s[3..])
    else [s[0]] + AddRerollOnceToD12(s[1..])
  }

  /** Reference definition, character by character: every character of s is
      kept, and `ro<=2` follows the `2` of each match. */
  function Annotated(s: string, k: nat): string
    requires k <= |s|
    decreases |s| - k
  {
    if k == |s| then []
    else [s[k]] + (if MatchAt(s, k - 2) then Modifier else []) + Annotated(s, k + 1)
  }

  /** Removes `ro<=2` after every `d12` that carries it. */
  function EraseModifiers(t: string): string
    decreases |t|
  {
    if |t| == 0 then []
    else if ReplacementAt(t, 0) then "d12" + EraseModifiers(t[|Replacement|..])
    else [t[0]] + EraseModifiers(t[1..])
  }

  // ---------------------------------------------------------------------
  // Facts about matches in suffixes

  lemma MatchInSuffix(s: string, k: nat, j: int)
    requires k <= |s| && 0 <= j
    ensures MatchAt(s[k..], j) <==> MatchAt(s, k + j)
    ensures D12At(s[k..], j) <==> D12At(s, k + j)
  {
  }

  /** Occurrences of `d12` in the tail of s are those of s, shifted by one. */
  lemma D12InTail(s: string)
    requires |s| > 0
    ensures forall i {:trigger D12At(s, i)} :: i >= 1 ==> (D12At(s, i) <==> D12At(s[1..], i - 1))
    ensures forall j {:trigger D12At(s[1..], j)} :: D12At(s[1..], j) ==> D12At(s, j + 1)
  {
  }

  /** Rewriting copies a leading text that contains no `d`. */
  lemma {:induction false} CopiesTextWithoutD(p: string, y: string)
    requires 'd' !in p
    ensures AddRerollOnceToD12(p + y) == p + AddRerollOnceToD12(y)
  {
    if |p| == 0 {
      assert p + y == y;
    } else {
      var x := p + y;
      assert x[0] == p[0] && !MatchAt(x, 0);
      assert x[1..] == p[1..] + y;
      CopiesTextWithoutD(p[1..], y);
      assert [p[0]] + p[1..] == p;
    }
  }

  /** Output that starts with a text containing no `d` comes from input
      that starts with the same text. */
  lemma {:induction false} TextWithoutDComesFromInput(x: string, p: string)
    requires 'd' !in p
    requires |p| <= |AddRerollOnceToD12(x)| && AddRerollOnceToD12(x)[..|p|] == p
    ensures |p| <= |x| && x[..|p|] == p
  {
    if |p| > 0 {
      var t := AddRerollOnceToD12(x);
      assert |x| > 0;
      FirstCharacterKept(x);
      assert x[0] == t[..|p|][0] == p[0];
      var rest := AddRerollOnceToD12(x[1..]);
      assert t == [x[0]] + rest;
      assert rest[..|p| - 1] == t[..|p|][1..];
      TextWithoutDComesFromInput(x[1..], p[1..]);
      assert x[..|p|] == [x[0]] + x[1..][..|p| - 1];
    }
  }

  lemma FirstCharacterKept(x: string)
    requires |x| > 0
    ensures |AddRerollOnceToD12(x)| > 0 && AddRerollOnceToD12(x)[0] == x[0]
  {
  }

  // ---------------------------------------------------------------------
  // What the rewrite does

  /** Index k lies on the `1` or the `2` of a match. */
  predicate InsideMatch(s: string, k: int) {
    MatchAt(s, k - 1) || MatchAt(s, k - 2)
  }

  lemma AnnotatedStep(s: string, k: nat)
    requires k < |s|
    ensures !MatchAt(s, k - 2) ==> Annotated(s, k) == [s[k]] + Annotated(s, k + 1)
    ensures MatchAt(s, k - 2) ==> Annotated(s, k) == [s[k]] + Modifier + Annotated(s, k + 1)
  {
  }

  /** The three matched characters followed by the modifier spell the
      replacement. */
  lemma Regroup(a: char, b: char, c: char, t: string)
    requires a == 'd' && b == '1' && c == '2'
    ensures [a] + ([b] + ([c] + Modifier + t)) == Replacement + t
  {
    assert [a] + ([b] + ([c] + Modifier + t)) == [a, b, c] + Modifier + t;
    assert [a, b, c] + Modifier == Replacement;
  }

  /** At a match, the reference emits the three matched characters and
      then the modifier after the `2`. */
  lemma AnnotatedAtMatch(s: string, k: nat)
    requires k + 3 <= |s| && MatchAt(s, k)
    ensures Annotated(s, k) == Replacement + Annotated(s, k + 3)
  {
    assert !MatchAt(s, k - 2) && !MatchAt(s, k - 1);
    AnnotatedStep(s, k);
    AnnotatedStep(s, k + 1);
    AnnotatedStep(s, k + 2);
    Regroup(s[k], s[k + 1], s[k + 2], Annotated(s, k + 3));
  }

  lemma {:induction false} RewriteSuffixIsAnnotated(s: string, k: nat)
    requires k <= |s| && !InsideMatch(s, k)
    ensures AddRerollOnceToD12(s[k..]) == Annotated(s, k)
    decreases |s| - k
  {
    if k < |s| {
      var x := s[k..];
      MatchInSuffix(s, k, 0);
      if MatchAt(s, k) {
        assert x[3..] == s[k + 3..];
        assert AddRerollOnceToD12(x) == Replacement + AddRerollOnceToD12(s[k + 3..]);
        AnnotatedAtMatch(s, k);
        assert !MatchAt(s, k + 1) && !MatchAt(s, k + 2);
        RewriteSuffixIsAnnotated(s, k + 3);
      } else {
        assert x[1..] == s[k + 1..];
        assert AddRerollOnceToD12(x) == [s[k]] + AddRerollOnceToD12(s[k + 1..]);
        assert Annotated(s, k) == [s[k]] + Annotated(s, k + 1);
        RewriteSuffixIsAnnotated(s, k + 1);
      }
    }
  }

  /** Every character of the formula is kept in order, and `ro<=2` is
      inserted right after each `d12` not followed by an ASCII letter and
      nowhere else. */
  lemma RewriteInsertsModifierAfterEachMatch(s: string)
    ensures AddRerollOnceToD12(s) == Annotated(s, 0)
  {
    RewriteSuffixIsAnnotated(s, 0);
  }

  /** At a match the erasure consumes the whole inserted replacement. */
  lemma EraseAfterMatch(s: string)
    requires MatchAt(s, 0)
    ensures EraseModifiers(AddRerollOnceToD12(s)) == "d12" + EraseModifiers(AddRerollOnceToD12(s[3..]))
  {
    var rest := AddRerollOnceToD12(s[3..]);
    var t := Replacement + rest;
    assert AddRerollOnceToD12(s) == t;
    assert t[..|Replacement|] == Replacement;
    assert t[|Replacement|..] == rest;
  }

  /** A replacement can only appear at the start of the output where the
      original already spelled it. */
  lemma CopiedStartIsNotReplacement(s: string)
    requires |s| > 0 && !MatchAt(s, 0)
    ensures ReplacementAt([s[0]] + AddRerollOnceToD12(s[1..]), 0) ==> ReplacementAt(s, 0)
  {
    var rest := AddRerollOnceToD12(s[1..]);
    var t := [s[0]] + rest;
    var tail := "12ro<=2";
    if ReplacementAt(t, 0) {
      assert t[..|Replacement|] == Replacement;
      assert rest[..|tail|] == tail by {
        forall i | 0 <= i < |tail| ensures rest[i] == tail[i] {
          assert rest[i] == t[i + 1] == Replacement[i + 1];
        }
      }
      TextWithoutDComesFromInput(s[1..], tail);
      assert s[..|Replacement|] == Replacement by {
        forall i | 0 <= i < |Replacement| ensures s[i] == Replacement[i] {
          if i > 0 { assert s[i] == s[1..][..|tail|][i - 1]; }
        }
      }
    }
  }

  /** Where the pass copied a character, the erasure copies it too, unless
      the original itself spelled `d12ro<=2` at that point. */
  lemma EraseAfterCopy(s: string)
    requires |s| > 0 && !MatchAt(s, 0) && !ReplacementAt(s, 0)
    ensures EraseModifiers(AddRerollOnceToD12(s)) == [s[0]] + EraseModifiers(AddRerollOnceToD12(s[1..]))
  {
    var rest := AddRerollOnceToD12(s[1..]);
    var t := [s[0]] + rest;
    assert AddRerollOnceToD12(s) == t;
    CopiedStartIsNotReplacement(s);
    assert t[1..] == rest;
  }

  /** Deleting the inserted `ro<=2` gives back the original formula,
      provided the formula did not already spell `d12ro<=2` (such a formula
      is left as it is, so no inverse can tell the two apart). */
  lemma {:induction false} EraseUndoesRewrite(s: string)
    requires forall i :: !ReplacementAt(s, i)
    ensures EraseModifiers(AddRerollOnceToD12(s)) == s
    decreases |s|
  {
    if |s| > 0 {
      var k := if MatchAt(s, 0) then 3 else 1;
      assert forall i :: ReplacementAt(s[k..], i) ==> ReplacementAt(s, i + k) by {
        forall i | ReplacementAt(s[k..], i) ensures ReplacementAt(s, i + k) {
          assert s[k..][i..i + |Replacement|] == s[i + k..i + k + |Replacement|];
        }
      }
      EraseUndoesRewrite(s[k..]);
      if MatchAt(s, 0) {
        EraseAfterMatch(s);
        assert s == "d12" + s[3..];
      } else {
        assert !ReplacementAt(s, 0);
        EraseAfterCopy(s);
        assert s == [s[0]] + s[1..];
      }
    }
  }

  /** After one pass every `d12` in the result is followed by an ASCII
      letter: the inserted text always puts `r` after its own `d12`, and a
      `d12` the pass left alone already had a letter after it. */
  lemma {:induction false} RewriteLeavesNoMatch(s: string)
    ensures forall i :: D12At(AddRerollOnceToD12(s), i) ==>
              i + 3 < |AddRerollOnceToD12(s)| && IsAsciiLetter(AddRerollOnceToD12(s)[i + 3])
    decreases |s|
  {
    var t := AddRerollOnceToD12(s);
    if |s| > 0 {
      if MatchAt(s, 0) {
        var rest := AddRerollOnceToD12(s[3..]);
        RewriteLeavesNoMatch(s[3..]);
        assert t == Replacement + rest;
        forall i | D12At(t, i)
          ensures i + 3 < |t| && IsAsciiLetter(t[i + 3])
        {
          if i >= |Replacement| {
            assert D12At(rest, i - |Replacement|);
          } else {
            assert i == 0;
          }
        }
      } else {
        var rest := AddRerollOnceToD12(s[1..]);
        RewriteLeavesNoMatch(s[1..]);
        assert t == [s[0]] + rest;
        forall i | D12At(t, i)
          ensures i + 3 < |t| && IsAsciiLetter(t[i + 3])
        {
          if i >= 1 {
            assert D12At(rest, i - 1);
          } else {
            assert rest[..2] == "12";
            TextWithoutDComesFromInput(s[1..], "12");
            assert D12At(s, 0);
            assert |s| > 3 && IsAsciiLetter(s[3]);
            assert s[1..] == "12" + s[3..];
            CopiesTextWithoutD("12", s[3..]);
            FirstCharacterKept(s[3..]);
          }
        }
      }
    }
  }

  /** A formula with no match is returned unchanged. */
  lemma {:induction false} NoMatchMeansUnchanged(s: string)
    requires forall i :: !MatchAt(s, i)
    ensures AddRerollOnceToD12(s) == s
    decreases |s|
  {
    if |s| > 0 {
      forall j | 0 <= j
        ensures !MatchAt(s[1..], j)
      {
        MatchInSuffix(s, 1, j);
      }
      NoMatchMeansUnchanged(s[1..]);
    }
  }

  /** Applying the rewrite twice is the same as applying it once. */
  lemma RewriteIsIdempotent(s: string)
    ensures AddRerollOnceToD12(AddRerollOnceToD12(s)) == AddRerollOnceToD12(s)
  {
    RewriteLeavesNoMatch(s);
    NoMatchMeansUnchanged(AddRerollOnceToD12(s));
  }

  // ---------------------------------------------------------------------
  // Scenarios

  /** A `d12` term followed by a non-letter and by text the rewrite keeps:
      only the term gains the modifier. */
  lemma MatchedTermIsRewritten(n: string, rest: string)
    requires 'd' !in n
    requires |rest| > 0 && !IsAsciiLetter(rest[0]) && AddRerollOnceToD12(rest) == rest
    ensures AddRerollOnceToD12(n + "d12" + rest) == n + Replacement + rest
  {
    var g := "d12" + rest;
    ReplaceLeadingMatch(g, rest);
    assert n + "d12" + rest == n + g;
    CopiesTextWithoutD(n, g);
  }

  /** Only the d12 term of `1d12 + 2d8 + 3` changes; `2d8` and the constant
      are kept. */
  lemma MixedFormula(n: string, rest: string)
    requires n == "1" && rest == " + 2d8 + 3"
    ensures AddRerollOnceToD12(n + "d12" + rest) == n + "d12ro<=2" + rest
  {
    RestOfMixedFormula(rest);
    MatchedTermIsRewritten(n, rest);
  }

  lemma RestOfMixedFormula(rest: string)
    requires rest == " + 2d8 + 3"
    ensures AddRerollOnceToD12(rest) == rest
  {
    var d8 := "d8 + 3";
    D8Term(d8);
    assert rest == " + 2" + d8;
    CopiesTextWithoutD(" + 2", d8);
  }

  lemma D8Term(d8: string)
    requires d8 == "d8 + 3"
    ensures AddRerollOnceToD12(d8) == d8
  {
    var after := "8 + 3";
    assert !MatchAt(d8, 0) && d8[1..] == after;
    CopiesTextWithoutD(after, []);
    assert after + [] == after;
  }

  /** A formula starting with a matching `d12` starts with the replacement. */
  lemma ReplaceLeadingMatch(g: string, rest: string)
    requires g == "d12" + rest && (|rest| == 0 || !IsAsciiLetter(rest[0]))
    ensures AddRerollOnceToD12(g) == Replacement + AddRerollOnceToD12(rest)
  {
    assert MatchAt(g, 0);
    assert g[3..] == rest;
  }

  /** A d12 that already carries a modifier (a letter follows) is left
      alone. */
  lemma LetterBlocksMatch(f: string)
    requires f == "2d12kh"
    ensures AddRerollOnceToD12(f) == f
  {
    var tail := "12kh";
    assert f == "2" + ("d" + tail);
    assert !MatchAt("d" + tail, 0) && ("d" + tail)[1..] == tail;
    CopiesTextWithoutD(tail, []);
    assert tail + [] == tail;
    CopiesTextWithoutD("2", "d" + tail);
  }

  /** The match is case-sensitive: `D12` is not a d12 term to the rewrite. */
  lemma UpperCaseIsNotMatched(f: string)
    requires f == "1D12"
    ensures AddRerollOnceToD12(f) == f
  {
    CopiesTextWithoutD(f, []);
    assert f + [] == f;
  }

  /** A digit does not block the match: a d120 term is turned into a d12
      term with a reroll-once-at-most-20 modifier. */
  lemma DigitDoesNotBlockMatch(f: string)
    requires f == "1d120"
    ensures AddRerollOnceToD12(f) == "1d12ro<=20"
  {
    ReplaceLeadingMatch("d120", "0");
    CopiesTextWithoutD("0", []);
    assert "0" + [] == "0";
    assert f == "1" + "d120";
    CopiesTextWithoutD("1", "d120");
  }
}
