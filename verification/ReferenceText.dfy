/** How a reference may be typed (`is_valid_reference` in app/services/reference.py). */
module ReferenceText {
  import opened Reference

  predicate AllSpace(u: Unicode, s: string) {
    forall i :: 0 <= i < |s| ==> u.isSpace(s[i])
  }

  /** A text without white space at its ends. */
  predicate IsTrimmed(u: Unicode, s: string) {
    s != "" ==> !u.isSpace(s[0]) && !u.isSpace(s[|s| - 1])
  }

  lemma {:induction false} LeftStripped(u: Unicode, before: string, s: string)
    requires AllSpace(u, before) && (s != "" ==> !u.isSpace(s[0]))
    ensures StripLeft(u, before + s) == s
  {
    if before == "" {
      assert before + s == s;
    } else {
      LeftStripped(u, before[1..], s);
      assert (before + s)[1..] == before[1..] + s;
    }
  }

  lemma {:induction false} RightStripped(u: Unicode, s: string, after: string)
    requires AllSpace(u, after) && (s != "" ==> !u.isSpace(s[|s| - 1]))
    ensures StripRight(u, s + after) == s
  {
    var n := |after| - 1;
    if after == "" {
      assert s + after == s;
    } else {
      RightStripped(u, s, after[..n]);
      assert (s + after)[..|s + after| - 1] == s + after[..n];
    }
  }

  lemma AllSpaceStripped(u: Unicode, s: string)
    requires AllSpace(u, s)
    ensures StripLeft(u, s) == ""
  {
    LeftStripped(u, s, "");
    assert s + "" == s;
  }

  /** White space around a reference does not count: it validates exactly if it does without. */
  lemma SpaceAround(u: Unicode, before: string, s: string, after: string, prefix: string)
    requires AllSpace(u, before) && AllSpace(u, after) && IsTrimmed(u, s)
    ensures Cleaned(u, before + s + after) == UpperCase(u, s)
    ensures Validates(u, before + s + after, prefix) <==> IsValid(u.isDigit, UpperCase(u, s), prefix)
  {
    if s == "" {
      assert AllSpace(u, before + s + after);
      AllSpaceStripped(u, before + s + after);
      assert StripRight(u, "") == "";
    } else {
      assert before + s + after == before + (s + after);
      LeftStripped(u, before, s + after);
      RightStripped(u, s, after);
    }
  }

  /** Upper-casing is done character by character. */
  lemma {:induction false} UpperCaseByCharacter(u: Unicode, s: string)
    requires forall i :: 0 <= i < |s| ==> |u.upper(s[i])| == 1
    ensures |UpperCase(u, s)| == |s| && forall i :: 0 <= i < |s| ==> UpperCase(u, s)[i] == u.upper(s[i])[0]
  {
    if s != "" { UpperCaseByCharacter(u, s[..|s| - 1]); }
  }
}
