/** Whom a consent is addressed to (`_citizen_account_for` in app/services/interop_gateway_service.py). */
module CitizenAccount {
  import opened Wrappers
  import opened IdentityResolution
  import Ordering

  /** A profile with the role and state of its user. */
  datatype Profile = Profile(user: string, phone: Option<string>, isCitizen: bool, active: bool)

  function Digits(isDigit: char -> bool, s: string): string {
    Ordering.Filter(isDigit, s)
  }

  /** The last ten digits of the departments' mobiles, as far as they have ten. */
  function Wanted(isDigit: char -> bool, mobiles: seq<Option<string>>): set<string> {
    set m | m in mobiles && m.Some? && m.value != "" && |Digits(isDigit, m.value)| >= 10 :: Normalize(isDigit, m.value)
  }

  function Matching(isDigit: char -> bool, profiles: seq<Profile>, wanted: set<string>): set<string> {
    set p | p in profiles && p.phone.Some? && p.isCitizen && p.active && Normalize(isDigit, p.phone.value) in wanted
      :: p.user
  }

  /** The two texts end in the same ten digits, whatever else they hold. */
  ghost predicate SameNumber(isDigit: char -> bool, a: string, b: string) {
    exists before, other, ten ::
      && |ten| == 10 && Digits(isDigit, a) == before + ten && Digits(isDigit, b) == other + ten
  }

  /** An active citizen whose profile has the number of one of the mobiles. */
  ghost predicate IsMeant(isDigit: char -> bool, profiles: seq<Profile>, mobiles: seq<Option<string>>, user: string) {
    exists p, m ::
      && p in profiles && p.user == user && p.isCitizen && p.active && p.phone.Some?
      && m in mobiles && m.Some? && SameNumber(isDigit, p.phone.value, m.value)
  }

  lemma TailIs(s: string)
    requires |s| >= 10
    ensures s == s[..|s| - 10] + s[|s| - 10..]
  {}

  lemma SameTail(before: string, ten: string)
    requires |ten| == 10
    ensures (before + ten)[|before + ten| - 10..] == ten
  {}

  lemma SameNumberIs(isDigit: char -> bool, phone: string, mobile: string)
    ensures SameNumber(isDigit, phone, mobile)
       <==> |Digits(isDigit, mobile)| >= 10 && Normalize(isDigit, phone) == Normalize(isDigit, mobile)
  {
    hide Ordering.Filter;
    var a, b := Digits(isDigit, phone), Digits(isDigit, mobile);
    if |b| >= 10 && Normalize(isDigit, phone) == Normalize(isDigit, mobile) {
      TailIs(b);
      assert |Normalize(isDigit, mobile)| == 10;
      assert |a| >= 10;
      TailIs(a);
      assert a == a[..|a| - 10] + Normalize(isDigit, mobile);
      assert b == b[..|b| - 10] + Normalize(isDigit, mobile);
    }
    if before, other, ten :| |ten| == 10 && a == before + ten && b == other + ten {
      SameTail(before, ten);
      SameTail(other, ten);
    }
  }

  lemma NoDigitsInNothing(isDigit: char -> bool)
    ensures Digits(isDigit, "") == ""
  {}

  lemma MatchingAreMeant(isDigit: char -> bool, profiles: seq<Profile>, mobiles: seq<Option<string>>, user: string)
    ensures user in Matching(isDigit, profiles, Wanted(isDigit, mobiles))
       <==> IsMeant(isDigit, profiles, mobiles, user)
  {
    hide Normalize, SameNumber, Digits;
    forall p: Profile, m: Option<string> | p.phone.Some? && m.Some?
      ensures SameNumber(isDigit, p.phone.value, m.value)
         <==> |Digits(isDigit, m.value)| >= 10 && Normalize(isDigit, p.phone.value) == Normalize(isDigit, m.value)
    {
      SameNumberIs(isDigit, p.phone.value, m.value);
    }
    forall m: Option<string> | m.Some? && |Digits(isDigit, m.value)| >= 10 ensures m.value != "" {
      NoDigitsInNothing(isDigit);
    }
    var wanted := Wanted(isDigit, mobiles);
    if user in Matching(isDigit, profiles, wanted) {
      var p :| p in profiles && p.phone.Some? && p.isCitizen && p.active && p.user == user
               && Normalize(isDigit, p.phone.value) in wanted;
      var m :| m in mobiles && m.Some? && |Digits(isDigit, m.value)| >= 10
               && Normalize(isDigit, m.value) == Normalize(isDigit, p.phone.value);
      assert SameNumber(isDigit, p.phone.value, m.value);
    }
    if IsMeant(isDigit, profiles, mobiles, user) {
      var p, m :| && p in profiles && p.user == user && p.isCitizen && p.active && p.phone.Some?
                  && m in mobiles && m.Some? && SameNumber(isDigit, p.phone.value, m.value);
      assert Normalize(isDigit, m.value) in wanted;
    }
  }

  ghost predicate IsOnly(s: set<string>, x: string) {
    x in s && forall y :: y in s ==> y == x
  }

  lemma OnlyMember(s: set<string>, x: string)
    requires x in s
    ensures |s| == 1 <==> IsOnly(s, x)
  {
    if IsOnly(s, x) { assert s == {x}; }
    if |s| == 1 { Ordering.SubsetSize({x}, s); }
  }

  lemma NobodyWanted(isDigit: char -> bool, profiles: seq<Profile>)
    ensures Matching(isDigit, profiles, {}) == {}
  {}

  /** Exactly one account, or none: where two are meant nobody is guessed. */
  method CitizenAccountFor(isDigit: char -> bool, profiles: seq<Profile>, mobiles: seq<Option<string>>)
    returns (owner: Option<string>)
    ensures forall user :: owner == Some(user)
                           <==> && IsMeant(isDigit, profiles, mobiles, user)
                                && forall other :: IsMeant(isDigit, profiles, mobiles, other) ==> other == user
  {
    hide Matching, Wanted, IsMeant;
    var wanted := Wanted(isDigit, mobiles);
    var matches := Matching(isDigit, profiles, wanted);
    forall user ensures user in matches <==> IsMeant(isDigit, profiles, mobiles, user) {
      MatchingAreMeant(isDigit, profiles, mobiles, user);
    }
    if wanted == {} {
      NobodyWanted(isDigit, profiles);
      return None;
    }
    forall user | user in matches ensures |matches| == 1 <==> IsOnly(matches, user) { OnlyMember(matches, user); }
    if |matches| != 1 {
      return None;
    }
    var user :| user in matches;
    owner := Some(user);
  }
}
