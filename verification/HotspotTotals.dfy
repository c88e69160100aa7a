/**
 What the figures of a hotspot and the order of the list mean (`aggregate_hotspots` in
 app/services/location_service.py).
 */
module HotspotTotals {
  import opened Wrappers
  import opened Ordering
  import opened HotspotGrid
  import opened Hotspots

  // ---- The records that are clustered ----

  /** An empty filter is none. */
  ghost predicate Fits(value: Option<string>, filter: Option<string>) {
    filter == None || filter == Some("") || value == filter
  }

  lemma {:induction false} FilterFirst<T>(keep: T -> bool, s: seq<T>)
    requires s != []
    ensures Filter(keep, s) == (if keep(s[0]) then [s[0]] else []) + Filter(keep, s[1..])
  {
    var n := |s| - 1;
    if n > 0 {
      FilterFirst(keep, s[..n]);
      assert s[1..][..n - 1] == s[..n][1..];
      assert s[1..][n - 1] == s[n];
    }
  }

  /** The records clustered are those with both coordinates that fit the filters, in their order. */
  lemma {:induction false} ItemsAre(complaints: seq<Complaint>, category: Option<string>, ward: Option<string>)
    ensures Items(complaints, category, ward)
         == Filter((c: Complaint) => c.lat.Some? && c.lng.Some? && Fits(c.category, category) && Fits(c.ward, ward),
                   complaints)
  {
    var keep := (c: Complaint) => c.lat.Some? && c.lng.Some? && Fits(c.category, category) && Fits(c.ward, ward);
    if complaints != [] {
      ItemsAre(complaints[1..], category, ward);
      FilterFirst(keep, complaints);
    }
  }

  // ---- The figures ----

  ghost function HowMany(members: seq<Located>, which: Located -> bool): nat {
    if members == [] then 0
    else HowMany(members[..|members| - 1], which) + if which(members[|members| - 1]) then 1 else 0
  }

  ghost function Grade(grade: string): Located -> bool {
    (c: Located) => c.severity == Some(grade)
  }

  ghost function Ungraded(): Located -> bool {
    (c: Located) => c.severity.None? || c.severity.value !in {"low", "high", "critical"}
  }

  lemma GradesDiffer(c: Located)
    ensures SeverityWeight(c.severity)
         == (if Grade("low")(c) then 1 else 0) + (if Ungraded()(c) then 2 else 0)
          + (if Grade("high")(c) then 3 else 0) + (if Grade("critical")(c) then 4 else 0)
    ensures (if Grade("low")(c) then 1 else 0) + (if Ungraded()(c) then 1 else 0)
          + (if Grade("high")(c) then 1 else 0) + (if Grade("critical")(c) then 1 else 0) == 1
  {
    assert "low"[0] == 'l' && "medium"[0] == 'm' && "high"[0] == 'h' && "critical"[0] == 'c';
  }

  lemma {:induction false} WeightsByGrade(members: seq<Located>)
    ensures Sum(members, Weight)
         == (HowMany(members, Grade("low")) + 2 * HowMany(members, Ungraded())
            + 3 * HowMany(members, Grade("high")) + 4 * HowMany(members, Grade("critical"))) as real
    ensures HowMany(members, Grade("low")) + HowMany(members, Ungraded()) + HowMany(members, Grade("high"))
          + HowMany(members, Grade("critical")) == |members|
  {
    if members != [] {
      var n := |members| - 1;
      WeightsByGrade(members[..n]);
      GradesDiffer(members[n]);
    }
  }

  /**
   A hotspot's score counts its low records once, those graded high three times, the critical ones four times and all
   others twice.
   */
  lemma ScoreByGrade(members: seq<Located>, h: Hotspot)
    requires Summarises(members, h)
    ensures h.severityScore
         == HowMany(members, Grade("low")) + 2 * HowMany(members, Ungraded())
          + 3 * HowMany(members, Grade("high")) + 4 * HowMany(members, Grade("critical"))
  {
    WeightsByGrade(members);
  }

  ghost function InCategory(name: string): Located -> bool {
    (c: Located) => c.category == Some(name) || (name == "unknown" && (c.category.None? || c.category == Some("")))
  }

  lemma {:induction false} CategoryTally(members: seq<Located>, name: string)
    requires name != ""
    ensures multiset(Categories(members))[name] == HowMany(members, InCategory(name))
  {
    if members == [] {
      assert Categories(members) == [];
    } else {
      var n := |members| - 1;
      CategoryTally(members[..n], name);
      assert Categories(members) == Categories(members[..n]) + [CategoryName(members[n])];
    }
  }

  /** The tally of a category counts the records that name it; those that name none are under "unknown". */
  lemma TallyOfCategory(members: seq<Located>, h: Hotspot, name: string)
    requires Summarises(members, h)
    ensures "" !in h.categories
    ensures name != "" ==>
      (if name in h.categories then h.categories[name] else 0) == HowMany(members, InCategory(name))
  {
    hide Sum;
    var names := Categories(members);
    assert name in names <==> name in multiset(names);
    if name != "" { CategoryTally(members, name); }
    assert "unknown"[0] == 'u';
    forall k | 0 <= k < |names| ensures names[k] != "" {}
  }

  ghost function InWard(name: string): Located -> bool {
    (c: Located) => c.ward == Some(name)
  }

  lemma {:induction false} WardTally(members: seq<Located>, name: string)
    requires name != ""
    ensures multiset(Wards(members))[name] == HowMany(members, InWard(name)) && "" !in Wards(members)
  {
    if members != [] { WardTally(members[..|members| - 1], name); }
  }

  /** The tally of a ward counts the records that name it; records that name none are counted nowhere. */
  lemma TallyOfWard(members: seq<Located>, h: Hotspot, name: string)
    requires Summarises(members, h) && name != ""
    ensures (if name in h.wards then h.wards[name] else 0) == HowMany(members, InWard(name)) && "" !in h.wards
  {
    hide Sum;
    assert name in Wards(members) <==> name in multiset(Wards(members));
    WardTally(members, name);
  }

  // ---- The order ----

  /** Of two hotspots the one listed first scores no less; of two that score the same it is no smaller, and so on. */
  lemma ListOrder(hotspots: seq<Hotspot>, i: nat, j: nat)
    requires i < j < |SortBy(HotspotLe, hotspots)|
    ensures var a, b := SortBy(HotspotLe, hotspots)[i], SortBy(HotspotLe, hotspots)[j];
            && a.severityScore >= b.severityScore
            && (a.severityScore == b.severityScore ==> a.count >= b.count)
            && (a.severityScore == b.severityScore && a.count == b.count ==> StringLe(a.key, b.key))
  {
    WorstFirst(hotspots);
    var sorted := SortBy(HotspotLe, hotspots);
    assert HotspotLe(sorted[i], sorted[j]);
  }
}
