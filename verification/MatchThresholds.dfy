/** What it takes to be linked, by the names and the mobiles alone (app/interop/identity_resolution.py). */
module MatchThresholds {
  import opened Wrappers
  import opened Arithmetic
  import opened IdentityResolution
  import Ordering

  // ---- Mobiles ----

  lemma {:induction false} DigitsOfBoth(isDigit: char -> bool, a: string, b: string)
    ensures Ordering.Filter(isDigit, a + b) == Ordering.Filter(isDigit, a) + Ordering.Filter(isDigit, b)
  {
    if b == "" {
      assert a + b == a;
    } else {
      var n := |b| - 1;
      DigitsOfBoth(isDigit, a, b[..n]);
      assert (a + b)[..|a + b| - 1] == a + b[..n];
    }
  }

  lemma {:induction false} AllDigits(isDigit: char -> bool, s: string)
    requires forall i :: 0 <= i < |s| ==> isDigit(s[i])
    ensures Ordering.Filter(isDigit, s) == s
  {
    if s != "" {
      AllDigits(isDigit, s[..|s| - 1]);
      assert s == s[..|s| - 1] + [s[|s| - 1]];
    }
  }

  lemma TailOf(a: string, d: string)
    requires |d| == 10
    ensures (a + d)[|a + d| - 10..] == d && (|a + d| <= 10 ==> a + d == d)
  {
    assert |a + d| <= 10 ==> a == "";
  }

  lemma NormalizedTail(isDigit: char -> bool, a: string, d: string)
    requires |d| == 10 && forall i :: 0 <= i < 10 ==> isDigit(d[i])
    ensures Normalize(isDigit, a + d) == d
  {
    hide Ordering.Filter;
    DigitsOfBoth(isDigit, a, d);
    AllDigits(isDigit, d);
    TailOf(Ordering.Filter(isDigit, a), d);
  }

  /**
   Only the last ten digits count: a country code or a leading zero changes nothing, and any of the ten digits does.
   */
  lemma LastTenDigitsDecide(isDigit: char -> bool, a: string, d: string, b: string, e: string)
    requires |d| == |e| == 10
    requires (forall i :: 0 <= i < 10 ==> isDigit(d[i])) && (forall i :: 0 <= i < 10 ==> isDigit(e[i]))
    ensures CompareMobiles(isDigit, Some(a + d), Some(b + e)) == if d == e then SameMobile else OtherMobile
  {
    hide Normalize;
    NormalizedTail(isDigit, a, d);
    NormalizedTail(isDigit, b, e);
  }

  lemma NoDigit(isDigit: char -> bool, c: char)
    requires !isDigit(c)
    ensures Ordering.Filter(isDigit, [c]) == ""
  {
    assert [c][..0] == "";
  }

  lemma OthersFiltered(isDigit: char -> bool, a: string, c: char, b: string)
    requires !isDigit(c)
    ensures Ordering.Filter(isDigit, a + [c] + b) == Ordering.Filter(isDigit, a + b)
  {
    DigitsOfBoth(isDigit, a + [c], b);
    DigitsOfBoth(isDigit, a, [c]);
    DigitsOfBoth(isDigit, a, b);
    hide Ordering.Filter;
    NoDigit(isDigit, c);
    assert Ordering.Filter(isDigit, a) + "" == Ordering.Filter(isDigit, a);
  }

  /** Blanks, hyphens and brackets do not count. */
  lemma OthersDoNotCount(isDigit: char -> bool, a: string, c: char, b: string, other: Option<string>)
    requires !isDigit(c) && a + b != ""
    ensures CompareMobiles(isDigit, Some(a + [c] + b), other) == CompareMobiles(isDigit, Some(a + b), other)
  {
    hide Ordering.Filter;
    OthersFiltered(isDigit, a, c, b);
  }

  /** Without an entry on either side there is nothing to compare. */
  lemma MissingMobiles(isDigit: char -> bool, a: Option<string>, b: Option<string>)
    ensures CompareMobiles(isDigit, a, b) == NoMobile <==> a in {None, Some("")} || b in {None, Some("")}
  {}

  // ---- Scores ----

  /** Enough to be linked without an officer. */
  predicate LinksAlone(e: Evidence) {
    (e.mobile.SameMobile? && e.nameScore >= 0.74875) || (e.mobile.NoMobile? && e.nameScore >= 0.8995)
  }

  /** Enough to ask an officer. */
  predicate IsNoticed(e: Evidence) {
    e.mobile.SameMobile? || e.nameScore >= 0.5495
  }

  lemma RoundsTo900(x: real)
    ensures Round3(x) >= 0.90 <==> x >= 0.8995
  {
    var n := RoundHalfEven(x * 1000.0);
    assert Round3(x) >= 0.90 <==> n >= 900;
    assert RoundHalfEven(899.5) == 900;
    if x * 1000.0 < 899.5 { assert n <= 899; } else { RoundMonotone(899.5, x * 1000.0); }
  }

  lemma RoundsTo550(x: real)
    ensures Round3(x) >= 0.55 <==> x >= 0.5495
  {
    var n := RoundHalfEven(x * 1000.0);
    assert Round3(x) >= 0.55 <==> n >= 550;
    assert RoundHalfEven(549.5) == 550;
    if x * 1000.0 < 549.5 { assert n <= 549; } else { RoundMonotone(549.5, x * 1000.0); }
  }

  /** The two thresholds, as conditions on the name score for each outcome of comparing the mobiles. */
  lemma ScoreThresholds(e: Evidence)
    ensures Round3(ScoreOf(e)) >= 0.90
       <==> (e.mobile.SameMobile? && e.nameScore >= 0.74875) || (e.mobile.NoMobile? && e.nameScore >= 0.8995)
    ensures e.nameScore >= 0.0 ==> (Round3(ScoreOf(e)) >= 0.55 <==> e.mobile.SameMobile? || e.nameScore >= 0.5495)
  {
    hide Round3;
    RoundsTo900(ScoreOf(e));
    RoundsTo550(ScoreOf(e));
  }

  /** The score itself: the name's alone, lifted by an equal mobile, held at 0.85 by a different one. */
  lemma ScoreIs(e: Evidence)
    requires 0.0 <= e.nameScore <= 1.0
    ensures e.mobile.SameMobile? ==> ScoreOf(e) - 0.6 == 0.4 * e.nameScore
    ensures e.mobile.NoMobile? ==> ScoreOf(e) == e.nameScore
    ensures e.mobile.OtherMobile? ==> ScoreOf(e) == if e.nameScore <= 0.85 then e.nameScore else 0.85
  {}

  // ---- Resolving a person ----

  /** Some record that was compared is evidence enough. */
  ghost predicate SomeLinks(r: Registry, m: Matcher, p: Person, compared: set<Key>)
    requires forall k :: k in compared ==> k in r.links && r.links[k].master in r.masters
  {
    exists k :: k in compared && LinksAlone(EvidenceIn(r, m, p, k))
  }

  ghost predicate SomeNoticed(r: Registry, m: Matcher, p: Person, compared: set<Key>)
    requires forall k :: k in compared ==> k in r.links && r.links[k].master in r.masters
  {
    exists k :: k in compared && IsNoticed(EvidenceIn(r, m, p, k))
  }

  /**
   Somebody not known yet is linked without an officer exactly if the names and mobiles of some compared record are
   enough for it, and an officer is asked exactly if they are enough for that only.
   */
  lemma ResolvedExactlyWhen(before: Registry, after: Registry, m: Matcher, p: Person, k: Key, compared: set<Key>,
                            best: Option<Match>, res: Resolution)
    requires m.Valid() && k !in before.links
    requires Step(before, after, PersonResolved(m, p, k, compared, best, res))
    ensures res.AutoLinked? <==> SomeLinks(before, m, p, compared)
    ensures res.Ambiguous? <==> !SomeLinks(before, m, p, compared) && SomeNoticed(before, m, p, compared)
    ensures res.NewPerson? <==> !SomeLinks(before, m, p, compared) && !SomeNoticed(before, m, p, compared)
  {
    hide ScoreOf, Round3, Queued, IsPending;
    forall x | x in compared
      ensures best.Some? && (LinksAlone(EvidenceIn(before, m, p, x)) ==> best.value.score >= 0.90)
      ensures IsNoticed(EvidenceIn(before, m, p, x)) ==> best.value.score >= 0.55 {
      ScoreThresholds(EvidenceIn(before, m, p, x));
    }
    if best.Some? {
      var x :| x in compared && best.value.score == Round3(ScoreOf(EvidenceIn(before, m, p, x)));
      ScoreThresholds(EvidenceIn(before, m, p, x));
    }
  }

  /** In every run a link made by comparison rests on the name as well: a mobile by itself never links. */
  lemma NeverLinkedOnMobileAlone(run: seq<Registry>, ops: seq<Operation>, i: nat, k: Key)
    requires IsRun(run, ops) && i < |run| && k in run[i].links && run[i].links[k].reason.Compared?
    ensures var e := run[i].links[k].reason.evidence;
            (e.mobile.SameMobile? && e.nameScore >= 0.74875) || (e.mobile.NoMobile? && e.nameScore >= 0.8995)
  {
    hide Step, ScoreOf, Round3;
    RunKeepsOk(run, ops, i);
    assert LinkOk(run[i].links[k], run[i].masters);
    ScoreThresholds(run[i].links[k].reason.evidence);
  }

  /** Two relatives on one phone, with names hardly alike, are not linked: an officer is asked. */
  lemma FamilyPhone(e: Evidence)
    requires e.mobile.SameMobile? && e.nameScore == 0.2
    ensures ScoreOf(e) == 0.68 && !LinksAlone(e) && IsNoticed(e)
  {}
}
