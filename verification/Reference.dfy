/** Checksummed reference numbers such as CL-20260919-7K3M9QXA (app/services/reference.py). */
module Reference {
  import opened Wrappers

  const ALPHABET: string := "23456789ABCDEFGHJKMNPQRSTUVWXYZ"
  const BODY_LEN := 7

  datatype Parts = Parts(prefix: string, day: string, body: string, check: char)

  /** The position of a symbol in the alphabet, or -1. */
  function IndexOf(c: char): int {
    if '2' <= c <= '9' then c as int - '2' as int
    else if 'A' <= c <= 'H' then c as int - 'A' as int + 8
    else if 'J' <= c <= 'K' then c as int - 'J' as int + 16
    else if 'M' <= c <= 'N' then c as int - 'M' as int + 18
    else if 'P' <= c <= 'Z' then c as int - 'P' as int + 20
    else -1
  }

  function Symbol(k: nat): (c: char)
    requires k < 31
    ensures IndexOf(c) == k
  {
    if k < 8 then ('2' as int + k) as char
    else if k < 16 then ('A' as int + k - 8) as char
    else if k < 18 then ('J' as int + k - 16) as char
    else if k < 20 then ('M' as int + k - 18) as char
    else ('P' as int + k - 20) as char
  }

  /** The ranges are the alphabet as it is written. */
  lemma AlphabetInRanges(k: nat)
    requires k < 31
    ensures |ALPHABET| == 31 && ALPHABET[k] == Symbol(k)
  {}

  predicate InAlphabet(c: char) { IndexOf(c) >= 0 }

  /** A symbol of the alphabet counts by its position, any other character by its code point. */
  function Value(c: char): nat {
    if InAlphabet(c) then IndexOf(c) else c as nat
  }

  /** The characters weighted by their positions, from one. */
  ghost function Weighted(s: string): int {
    if s == [] then 0 else Weighted(s[..|s| - 1]) + |s| * Value(s[|s| - 1])
  }

  ghost function CheckSymbol(p: Parts): char {
    Symbol(Weighted(p.prefix + p.day + p.body) % 31)
  }

  method CheckChar(prefix: string, day: string, body: string) returns (c: char)
    ensures forall check :: c == CheckSymbol(Parts(prefix, day, body, check))
    ensures InAlphabet(c)
  {
    hide Value;
    var s := prefix + day + body;
    var total := 0;
    for i := 0 to |s|
      invariant total == Weighted(s[..i])
    {
      assert s[..i + 1][..i] == s[..i];
      total := total + (i + 1) * Value(s[i]);
    }
    assert s[..|s|] == s;
    c := Symbol(total % 31);
  }

  lemma {:induction false} WeightedChange(s: string, j: nat, c: char)
    requires j < |s|
    ensures Weighted(s[j := c]) == Weighted(s) + (j + 1) * (Value(c) - Value(s[j]))
  {
    hide Value;
    var n := |s| - 1;
    if j == n {
      assert s[j := c][..n] == s[..n];
    } else {
      WeightedChange(s[..n], j, c);
      assert s[j := c][..n] == s[..n][j := c];
    }
  }

  lemma SameResidue(a: int, b: int)
    ensures a % 31 == b % 31 <==> (a - b) % 31 == 0
  {}

  /** Two texts have the same check symbol exactly when their weighted sums agree modulo 31. */
  lemma SameSymbol(p: Parts, q: Parts)
    ensures CheckSymbol(p) == CheckSymbol(q)
       <==> (Weighted(p.prefix + p.day + p.body) - Weighted(q.prefix + q.day + q.body)) % 31 == 0
  {
    var a, b := Weighted(p.prefix + p.day + p.body), Weighted(q.prefix + q.day + q.body);
    SameResidue(a, b);
  }

  // ---- Format ----

  function Format(p: Parts): string {
    p.prefix + "-" + p.day + "-" + p.body + [p.check]
  }

  predicate IsUpper(c: char) { 'A' <= c <= 'Z' }

  predicate IsPrefix(s: string) {
    2 <= |s| <= 5 && forall i :: 0 <= i < |s| ==> IsUpper(s[i])
  }

  /**
   What Unicode has to say: the digit class of a regular expression, white space, and the upper-case form of a
   character, which may be several characters long.
   */
  datatype Unicode = Unicode(isDigit: char -> bool, isSpace: char -> bool, upper: char -> string) {
    ghost predicate Valid() {
      && (forall c :: '0' <= c <= '9' ==> isDigit(c))
      && (forall c :: IsUpper(c) || isDigit(c) || c == '-' ==> upper(c) == [c] && !isSpace(c))
      && (forall c :: 'a' <= c <= 'z' ==> upper(c) == [(c as int - 32) as char] && !isSpace(c))
    }
  }

  function StripLeft(u: Unicode, s: string): string {
    if s == "" || !u.isSpace(s[0]) then s else StripLeft(u, s[1..])
  }

  function StripRight(u: Unicode, s: string): string {
    if s == "" || !u.isSpace(s[|s| - 1]) then s else StripRight(u, s[..|s| - 1])
  }

  function UpperCase(u: Unicode, s: string): string {
    if s == "" then "" else UpperCase(u, s[..|s| - 1]) + u.upper(s[|s| - 1])
  }

  /** `ref.strip().upper()` */
  function Cleaned(u: Unicode, ref: string): string {
    UpperCase(u, StripRight(u, StripLeft(u, ref)))
  }

  predicate WellFormed(isDigit: char -> bool, p: Parts) {
    && IsPrefix(p.prefix)
    && |p.day| == 8 && (forall i :: 0 <= i < 8 ==> isDigit(p.day[i]))
    && |p.body| == BODY_LEN && (forall i :: 0 <= i < |p.body| ==> InAlphabet(p.body[i]))
    && InAlphabet(p.check)
  }

  function FirstDash(s: string): (k: nat)
    ensures k <= |s| && (forall i :: 0 <= i < k ==> s[i] != '-') && (k < |s| ==> s[k] == '-')
  {
    if s == [] || s[0] == '-' then 0 else 1 + FirstDash(s[1..])
  }

  /** The match of the regular expression, if there is one. */
  function Parse(isDigit: char -> bool, r: string): Option<Parts> {
    var k := FirstDash(r);
    if k + 18 != |r| || r[k + 9] != '-' then None
    else
      var p := Parts(r[..k], r[k + 1..k + 9], r[k + 10..k + 17], r[k + 17]);
      if WellFormed(isDigit, p) then Some(p) else None
  }

  lemma FormatLength(p: Parts)
    requires |p.day| == 8 && |p.body| == BODY_LEN
    ensures var r, k := Format(p), |p.prefix|;
            && |r| == k + 18 && r[..k] == p.prefix && r[k] == '-' && r[k + 1..k + 9] == p.day && r[k + 9] == '-'
            && r[k + 10..k + 17] == p.body && r[k + 17] == p.check
  {}

  lemma ParseOfFormat(isDigit: char -> bool, p: Parts)
    requires WellFormed(isDigit, p)
    ensures Parse(isDigit, Format(p)) == Some(p)
  {
    FormatLength(p);
    var r, k := Format(p), |p.prefix|;
    forall i | 0 <= i < k ensures r[i] != '-' { assert r[i] == p.prefix[i]; }
    assert FirstDash(r) == k;
  }

  lemma FormatOfParse(isDigit: char -> bool, r: string)
    ensures Parse(isDigit, r).Some? ==>
      Format(Parse(isDigit, r).value) == r && WellFormed(isDigit, Parse(isDigit, r).value)
  {
    var k := FirstDash(r);
    if Parse(isDigit, r).Some? {
      assert r == r[..k] + [r[k]] + r[k + 1..k + 9] + [r[k + 9]] + r[k + 10..k + 17] + [r[k + 17]];
    }
  }

  /** A reference is valid when it parses, has the wanted prefix if one is asked for, and its check symbol is right. */
  ghost predicate IsValid(isDigit: char -> bool, r: string, prefix: string) {
    var p := Parse(isDigit, r);
    p.Some? && (prefix != "" ==> p.value.prefix == prefix) && CheckSymbol(p.value) == p.value.check
  }

  /** The same of a text as it was typed. */
  ghost predicate Validates(u: Unicode, ref: string, prefix: string) {
    IsValid(u.isDigit, Cleaned(u, ref), prefix)
  }

  method IsValidReference(u: Unicode, ref: string, prefix: string) returns (ok: bool)
    ensures ok == Validates(u, ref, prefix)
  {
    var m := Parse(u.isDigit, Cleaned(u, ref));
    if m.None? || (prefix != "" && m.value.prefix != prefix) {
      return false;
    }
    var c := CheckChar(m.value.prefix, m.value.day, m.value.body);
    ok := c == m.value.check;
    assert m.value == Parts(m.value.prefix, m.value.day, m.value.body, m.value.check);
  }

  // ---- Generated references ----

  /** A day written with eight ASCII digits, and a body of the alphabet. */
  predicate Drawn(day: string, body: string) {
    && |day| == 8 && (forall i :: 0 <= i < 8 ==> '0' <= day[i] <= '9')
    && |body| == BODY_LEN && (forall i :: 0 <= i < |body| ==> InAlphabet(body[i]))
  }

  ghost function Generated(prefix: string, day: string, body: string): string {
    Format(Parts(prefix, day, body, CheckSymbol(Parts(prefix, day, body, '2'))))
  }

  /** The random body is a parameter, as is the day written with eight digits. */
  method GenerateReference(prefix: string, day: string, body: string) returns (r: string)
    requires Drawn(day, body)
    ensures r == Generated(prefix, day, body)
  {
    hide CheckSymbol;
    var c := CheckChar(prefix, day, body);
    r := prefix + "-" + day + "-" + body + [c];
  }

  lemma {:induction false} UpperCaseAppend(u: Unicode, a: string, b: string)
    ensures UpperCase(u, a + b) == UpperCase(u, a) + UpperCase(u, b)
  {
    if b == "" {
      assert a + b == a;
    } else {
      UpperCaseAppend(u, a, b[..|b| - 1]);
      assert (a + b)[..|a + b| - 1] == a + b[..|b| - 1];
    }
  }

  lemma {:induction false} AlreadyUpper(u: Unicode, s: string)
    requires forall i :: 0 <= i < |s| ==> u.upper(s[i]) == [s[i]]
    ensures UpperCase(u, s) == s
  {
    if s != "" { AlreadyUpper(u, s[..|s| - 1]); }
  }

  lemma {:induction false} StripBefore(u: Unicode, a: string, b: string)
    requires b != "" && !u.isSpace(b[0])
    ensures StripLeft(u, a + b) == StripLeft(u, a) + b
  {
    if a == "" {
      assert a + b == b;
    } else {
      StripBefore(u, a[1..], b);
      assert (a + b)[1..] == a[1..] + b;
    }
  }

  /** What follows a prefix stays as it is when the whole is cleaned. */
  lemma CleanedAfter(u: Unicode, prefix: string, rest: string)
    requires rest != "" && forall i :: 0 <= i < |rest| ==> u.upper(rest[i]) == [rest[i]] && !u.isSpace(rest[i])
    ensures Cleaned(u, prefix + rest) == UpperCase(u, StripLeft(u, prefix)) + rest
  {
    hide UpperCase;
    StripBefore(u, prefix, rest);
    var kept := StripLeft(u, prefix) + rest;
    assert kept[|kept| - 1] == rest[|rest| - 1];
    UpperCaseAppend(u, StripLeft(u, prefix), rest);
    AlreadyUpper(u, rest);
  }

  lemma SymbolIsClean(u: Unicode, c: char)
    requires u.Valid()
    ensures c == '-' || '0' <= c <= '9' || InAlphabet(c) ==> u.upper(c) == [c] && !u.isSpace(c)
  {}

  lemma CleanRest(u: Unicode, day: string, body: string, check: char)
    requires u.Valid() && Drawn(day, body) && InAlphabet(check)
    ensures var rest := "-" + day + "-" + body + [check];
            forall i :: 0 <= i < |rest| ==> u.upper(rest[i]) == [rest[i]] && !u.isSpace(rest[i])
  {
    hide IndexOf;
    var rest := "-" + day + "-" + body + [check];
    forall i | 0 <= i < |rest| ensures u.upper(rest[i]) == [rest[i]] && !u.isSpace(rest[i]) {
      var c := rest[i];
      assert c == '-' || '0' <= c <= '9' || InAlphabet(c);
      SymbolIsClean(u, c);
    }
  }

  lemma IsInAlphabet(p: Parts)
    ensures InAlphabet(CheckSymbol(p))
  {}

  /** Cleaning a generated reference cleans its prefix and nothing else. */
  lemma CleanedGenerated(u: Unicode, prefix: string, day: string, body: string)
    requires u.Valid() && Drawn(day, body)
    ensures var check := CheckSymbol(Parts(prefix, day, body, '2'));
            Cleaned(u, Generated(prefix, day, body))
              == Format(Parts(UpperCase(u, StripLeft(u, prefix)), day, body, check))
  {
    hide CheckSymbol, UpperCase, StripLeft, InAlphabet, Cleaned;
    var check := CheckSymbol(Parts(prefix, day, body, '2'));
    IsInAlphabet(Parts(prefix, day, body, '2'));
    CleanRest(u, day, body, check);
    var rest := "-" + day + "-" + body + [check];
    CleanedAfter(u, prefix, rest);
    assert Generated(prefix, day, body) == prefix + rest;
    var clean := UpperCase(u, StripLeft(u, prefix));
    assert clean + rest == Format(Parts(clean, day, body, check));
  }

  /** A text put together like a reference parses exactly when its prefix is one. */
  lemma ParsesExactlyWhen(isDigit: char -> bool, p: Parts)
    requires (forall c :: '0' <= c <= '9' ==> isDigit(c)) && Drawn(p.day, p.body) && InAlphabet(p.check)
    ensures Parse(isDigit, Format(p)) == if IsPrefix(p.prefix) then Some(p) else None
  {
    FormatLength(p);
    if IsPrefix(p.prefix) {
      ParseOfFormat(isDigit, p);
    } else {
      FormatOfParse(isDigit, Format(p));
      var r, k := Format(p), FirstDash(Format(p));
      assert r[|p.prefix|] == '-';
      if k + 18 == |r| { assert k == |p.prefix| && r[..k] == p.prefix; }
    }
  }

  lemma PrefixStays(u: Unicode, prefix: string)
    requires u.Valid()
    ensures IsPrefix(prefix) || prefix == "" ==> UpperCase(u, StripLeft(u, prefix)) == prefix
  {
    if IsPrefix(prefix) { AlreadyUpper(u, prefix); }
  }

  /**
   Asked for with its own prefix, a generated reference validates exactly when the prefix is two to five upper-case
   letters. Asked for without one it validates exactly when the prefix is so once cleaned, and cleaning it has not
   changed the weighted sum modulo 31.
   */
  lemma GeneratedValidates(u: Unicode, prefix: string, day: string, body: string)
    requires u.Valid() && Drawn(day, body)
    ensures Validates(u, Generated(prefix, day, body), prefix) <==> IsPrefix(prefix)
    ensures var clean := UpperCase(u, StripLeft(u, prefix));
            Validates(u, Generated(prefix, day, body), "")
            <==> IsPrefix(clean) && (Weighted(clean + day + body) - Weighted(prefix + day + body)) % 31 == 0
  {
    hide CheckSymbol, Weighted, UpperCase, StripLeft, Cleaned, Parse, Format;
    var clean := UpperCase(u, StripLeft(u, prefix));
    var p, q := Parts(prefix, day, body, '2'), Parts(clean, day, body, CheckSymbol(Parts(prefix, day, body, '2')));
    CleanedGenerated(u, prefix, day, body);
    IsInAlphabet(p);
    ParsesExactlyWhen(u.isDigit, q);
    SameSymbol(q, p);
    PrefixStays(u, prefix);
  }

  lemma UpperOfTwo(u: Unicode, c: char, d: char, s: string)
    requires u.Valid() && 'a' <= c <= 'z' && 'a' <= d <= 'z' && s == [c, d]
    ensures UpperCase(u, StripLeft(u, s)) == [(c as int - 32) as char, (d as int - 32) as char]
  {
    assert s[..1] == [c] && [c][..0] == "";
    assert UpperCase(u, [c]) == u.upper(c);
  }

  lemma TwoChanged(s: string, c: char, d: char)
    requires |s| >= 2
    ensures Weighted(s[0 := c][1 := d]) - Weighted(s) == Value(c) - Value(s[0]) + 2 * (Value(d) - Value(s[1]))
  {
    hide Value;
    WeightedChange(s, 0, c);
    WeightedChange(s[0 := c], 1, d);
  }

  /** Of two lower-case prefixes one validates, because 155 is a multiple of 31, and the other does not. */
  lemma LowerCasePrefixes(u: Unicode, day: string, body: string)
    requires u.Valid() && Drawn(day, body)
    ensures Validates(u, Generated("no", day, body), "") && !Validates(u, Generated("no", day, body), "no")
    ensures !Validates(u, Generated("cl", day, body), "")
  {
    hide Weighted, Validates, Generated;
    GeneratedValidates(u, "no", day, body);
    GeneratedValidates(u, "cl", day, body);
    UpperOfTwo(u, 'n', 'o', "no");
    UpperOfTwo(u, 'c', 'l', "cl");
    TwoChanged("no" + day + body, 'N', 'O');
    TwoChanged("cl" + day + body, 'C', 'L');
    assert ("no" + day + body)[0 := 'N'][1 := 'O'] == "NO" + day + body;
    assert ("cl" + day + body)[0 := 'C'][1 := 'L'] == "CL" + day + body;
  }

  // ---- The checksum against single mistakes ----

  /** The inverse of a position weight modulo 31; 31 is prime, and every weight is below it. */
  function Inverse(w: nat): nat
    requires 1 <= w <= 20
  {
    [1, 16, 21, 8, 25, 26, 9, 4, 7, 28, 17, 13, 12, 20, 29, 2, 11, 19, 18, 14][w - 1]
  }

  lemma InverseInverts(w: nat)
    requires 1 <= w <= 20
    ensures (Inverse(w) * w) % 31 == 1
  {}

  lemma MultipleOf31(x: int)
    ensures x % 31 == 0 <==> x == 31 * (x / 31)
    ensures (x + 1) % 31 == 1 ==> x % 31 == 0
  {}

  lemma Redo(w: int, d: int, m: int)
    requires d == 31 * m
    ensures w * d == 31 * (w * m) && (w * d) % 31 == 0
  {}

  lemma Undo(inv: int, w: int, d: int, q: int, m: int)
    requires inv * w == 31 * q + 1 && w * d == 31 * m
    ensures d == 31 * (inv * m - q * d) && d % 31 == 0
  {
    assert inv * (31 * m) == 31 * (inv * m);
    assert inv * (w * d) == (inv * w) * d;
    assert (31 * q + 1) * d == 31 * (q * d) + d;
  }

  /** A weighted difference vanishes modulo 31 only if the difference does. */
  lemma WeightCannotHide(w: nat, d: int)
    requires 1 <= w <= 20
    ensures (w * d) % 31 == 0 <==> d % 31 == 0
  {
    hide Inverse;
    var inv, x := Inverse(w), w * d;
    InverseInverts(w);
    if x % 31 == 0 {
      MultipleOf31(inv * w - 1);
      MultipleOf31(x);
      Undo(inv, w, d, (inv * w - 1) / 31, x / 31);
    }
    if d % 31 == 0 {
      MultipleOf31(d);
      Redo(w, d, d / 31);
    }
  }

  /** Where a character stands in the reference, and with which weight it counts. */
  predicate InDay(p: Parts, i: int) { |p.prefix| + 1 <= i < |p.prefix| + 9 }

  predicate InBody(p: Parts, i: int) { |p.prefix| + 10 <= i < |p.prefix| + 17 }

  function Position(p: Parts, i: int): nat
    requires InDay(p, i) || InBody(p, i)
  {
    if InDay(p, i) then i - 1 else i - 2
  }

  function Replaced(p: Parts, i: int, c: char): Parts
    requires |p.day| == 8 && |p.body| == BODY_LEN && (InDay(p, i) || InBody(p, i))
  {
    if InDay(p, i) then p.(day := p.day[i - |p.prefix| - 1 := c]) else p.(body := p.body[i - |p.prefix| - 10 := c])
  }

  lemma ReplacedFormat(p: Parts, i: int, c: char)
    requires |p.day| == 8 && |p.body| == BODY_LEN && (InDay(p, i) || InBody(p, i))
    ensures 0 <= i < |Format(p)| && Format(p)[i := c] == Format(Replaced(p, i, c))
    ensures var s := p.prefix + p.day + p.body; var q := Replaced(p, i, c);
            && Position(p, i) < |s| && s[Position(p, i)] == Format(p)[i]
            && q.prefix + q.day + q.body == s[Position(p, i) := c]
  {
    FormatLength(p);
    var q := Replaced(p, i, c);
    FormatLength(q);
    assert Format(p)[i := c] == Format(q);
    assert q.prefix + q.day + q.body == (p.prefix + p.day + p.body)[Position(p, i) := c];
  }

  /** Which characters the format allows at a place. */
  predicate Fits(isDigit: char -> bool, p: Parts, i: int, c: char) {
    if InDay(p, i) then isDigit(c) else InAlphabet(c)
  }

  lemma FittingIsWellFormed(isDigit: char -> bool, p: Parts, i: int, c: char)
    requires WellFormed(isDigit, p) && (InDay(p, i) || InBody(p, i))
    ensures Fits(isDigit, p, i, c) ==> WellFormed(isDigit, Replaced(p, i, c))
    ensures Replaced(p, i, c).prefix == p.prefix && Replaced(p, i, c).check == p.check
  {}

  /** A character that does not fit keeps the text from matching at all. */
  lemma StillThere(isDigit: char -> bool, p: Parts, q: Parts, i: int, c: char)
    requires WellFormed(isDigit, p) && (InDay(p, i) || InBody(p, i)) && q == Replaced(p, i, c)
      && !Fits(isDigit, p, i, c)
    ensures Parse(isDigit, Format(q)).None?
  {
    FormatLength(q);
    var r, k := Format(q), |q.prefix|;
    forall m | 0 <= m < k ensures r[m] != '-' { assert r[m] == q.prefix[m]; }
    assert FirstDash(r) == k;
    assert if InDay(p, i) then q.day[i - k - 1] == c else q.body[i - k - 10] == c;
  }

  /** In a cleaned text a changed character of the date or body goes unnoticed when both count the same modulo 31. */
  lemma SubstitutionNoticed(isDigit: char -> bool, r: string, i: int, c: char)
    requires IsValid(isDigit, r, "")
    requires var p := Parse(isDigit, r).value; InDay(p, i) || InBody(p, i)
    ensures 0 <= i < |r|
    ensures IsValid(isDigit, r[i := c], "")
       <==> Fits(isDigit, Parse(isDigit, r).value, i, c) && Value(c) % 31 == Value(r[i]) % 31
  {
    hide Value, Weighted, CheckSymbol, Parse, Format, Fits, Replaced;
    FormatOfParse(isDigit, r);
    var p := Parse(isDigit, r).value;
    var q := Replaced(p, i, c);
    ReplacedFormat(p, i, c);
    FittingIsWellFormed(isDigit, p, i, c);
    var s, j := p.prefix + p.day + p.body, Position(p, i);
    WeightedChange(s, j, c);
    SameSymbol(q, p);
    WeightCannotHide(j + 1, Value(c) - Value(r[i]));
    SameResidue(Value(c), Value(r[i]));
    if Fits(isDigit, p, i, c) {
      ParseOfFormat(isDigit, q);
    } else {
      FormatOfParse(isDigit, r[i := c]);
      StillThere(isDigit, p, q, i, c);
    }
  }

  lemma ResidueOf(c: char)
    ensures InAlphabet(c) ==> Value(c) % 31 == IndexOf(c)
    ensures c == '0' ==> Value(c) % 31 == 17
    ensures c == '1' ==> Value(c) % 31 == 18
  {}

  /** Symbols of the alphabet, and the ASCII digits, all count differently modulo 31. */
  lemma ValuesDiffer(a: char, b: char)
    requires a != b
    requires (InAlphabet(a) && InAlphabet(b)) || ('0' <= a <= '9' && '0' <= b <= '9')
    ensures Value(a) % 31 != Value(b) % 31
  {
    ResidueOf(a);
    ResidueOf(b);
  }

  /** In a text already cleaned a changed check symbol is always noticed. */
  lemma OtherCheckSymbol(isDigit: char -> bool, r: string, c: char)
    requires IsValid(isDigit, r, "") && c != r[|r| - 1]
    ensures !IsValid(isDigit, r[|r| - 1 := c], "")
  {
    hide Weighted, Value;
    FormatOfParse(isDigit, r);
    var p := Parse(isDigit, r).value;
    FormatLength(p);
    var q := p.(check := c);
    FormatLength(q);
    assert r[|r| - 1 := c] == Format(q);
    assert CheckSymbol(q) == CheckSymbol(p);
    if WellFormed(isDigit, q) {
      ParseOfFormat(isDigit, q);
    } else {
      var k := |q.prefix|;
      forall m | 0 <= m < k ensures Format(q)[m] != '-' { assert Format(q)[m] == q.prefix[m]; }
      assert FirstDash(Format(q)) == k;
    }
  }

  lemma {:induction false} WeightedSwap(s: string, j: nat)
    requires j + 1 < |s|
    ensures Weighted(s[j := s[j + 1]][j + 1 := s[j]]) == Weighted(s) + Value(s[j]) - Value(s[j + 1])
  {
    hide Value;
    WeightedChange(s, j, s[j + 1]);
    WeightedChange(s[j := s[j + 1]], j + 1, s[j]);
    var d := Value(s[j + 1]) - Value(s[j]);
    assert (j + 2) * (Value(s[j]) - Value(s[j + 1])) == 0 - (j + 2) * d;
    assert (j + 2) * d == (j + 1) * d + d;
  }

  lemma SwapFits(isDigit: char -> bool, p: Parts, i: int, q: Parts)
    requires WellFormed(isDigit, p) && ((InDay(p, i) && InDay(p, i + 1)) || (InBody(p, i) && InBody(p, i + 1)))
    requires 0 <= i && i + 1 < |Format(p)|
    requires q == Replaced(Replaced(p, i, Format(p)[i + 1]), i + 1, Format(p)[i])
    ensures WellFormed(isDigit, q)
  {
    FormatLength(p);
    var k := |p.prefix|;
    if InDay(p, i) {
      assert Format(p)[i] == p.day[i - k - 1] && Format(p)[i + 1] == p.day[i - k];
    } else {
      assert Format(p)[i] == p.body[i - k - 10] && Format(p)[i + 1] == p.body[i - k - 9];
    }
  }

  /** In a text already cleaned a swap of neighbours goes unnoticed exactly when they count the same modulo 31. */
  lemma SwapInCleanText(isDigit: char -> bool, r: string, i: int)
    requires IsValid(isDigit, r, "")
    requires var p := Parse(isDigit, r).value; (InDay(p, i) && InDay(p, i + 1)) || (InBody(p, i) && InBody(p, i + 1))
    ensures 0 <= i < i + 1 < |r|
    ensures IsValid(isDigit, r[i := r[i + 1]][i + 1 := r[i]], "") <==> Value(r[i]) % 31 == Value(r[i + 1]) % 31
  {
    hide Value, Weighted, CheckSymbol, Parse;
    FormatOfParse(isDigit, r);
    var p := Parse(isDigit, r).value;
    ReplacedFormat(p, i, r[i + 1]);
    ReplacedFormat(p, i + 1, r[i + 1]);
    var p1 := Replaced(p, i, r[i + 1]);
    ReplacedFormat(p1, i + 1, r[i]);
    var q := Replaced(p1, i + 1, r[i]);
    var s, j := p.prefix + p.day + p.body, Position(p, i);
    WeightedSwap(s, j);
    SameSymbol(q, p);
    SameResidue(Value(r[i]), Value(r[i + 1]));
    SwapFits(isDigit, p, i, q);
    ParseOfFormat(isDigit, q);
  }

  // ---- Mistakes as they are typed ----

  /** A valid reference is as it should be already: cleaning leaves it alone. */
  lemma AlreadyClean(u: Unicode, r: string)
    requires u.Valid() && Parse(u.isDigit, r).Some?
    ensures forall i :: 0 <= i < |r| ==> u.upper(r[i]) == [r[i]] && !u.isSpace(r[i])
  {
    FormatOfParse(u.isDigit, r);
    var p := Parse(u.isDigit, r).value;
    forall i | 0 <= i < |r| ensures u.upper(r[i]) == [r[i]] && !u.isSpace(r[i]) {
      assert r == p.prefix + "-" + p.day + "-" + p.body + [p.check];
      assert r[i] in p.prefix || r[i] == '-' || r[i] in p.day || r[i] in p.body || r[i] == p.check;
    }
  }

  /** Cleaning a reference with one character inside changed replaces that character by its upper-case form. */
  lemma CleanedChange(u: Unicode, r: string, i: int, c: char)
    requires 0 < i < |r| - 1 && forall k :: 0 <= k < |r| ==> u.upper(r[k]) == [r[k]] && !u.isSpace(r[k])
    ensures Cleaned(u, r[i := c]) == r[..i] + u.upper(c) + r[i + 1..]
  {
    var s := r[i := c];
    assert s[0] == r[0] && s[|s| - 1] == r[|r| - 1];
    assert s == r[..i] + [c] + r[i + 1..];
    UpperCaseAppend(u, r[..i] + [c], r[i + 1..]);
    UpperCaseAppend(u, r[..i], [c]);
    AlreadyUpper(u, r[..i]);
    AlreadyUpper(u, r[i + 1..]);
    assert [c][..0] == "" && UpperCase(u, [c]) == u.upper(c);
  }

  lemma DashStays(r: string, s: string, k: nat)
    requires k < |r| && k < |s| && r[..k + 1] == s[..k + 1] && FirstDash(r) == k
    ensures FirstDash(s) == k
  {
    assert forall m :: 0 <= m <= k ==> s[m] == s[..k + 1][m] == r[m];
  }

  lemma OtherLength(isDigit: char -> bool, r: string, s: string)
    requires Parse(isDigit, r).Some? && |s| != |r|
    requires var k := |Parse(isDigit, r).value.prefix|; k < |r| && k < |s| && r[..k + 1] == s[..k + 1]
    ensures Parse(isDigit, s).None?
  {
    DashStays(r, s, FirstDash(r));
  }

  /**
   A character typed wrong in the date or the body goes unnoticed exactly when its upper-case form is one character
   that the format allows there and that counts the same modulo 31.
   */
  lemma TypedSubstitutionNoticed(u: Unicode, r: string, i: int, c: char)
    requires u.Valid() && IsValid(u.isDigit, r, "")
    requires var p := Parse(u.isDigit, r).value; InDay(p, i) || InBody(p, i)
    ensures 0 <= i < |r|
    ensures Validates(u, r[i := c], "")
       <==> |u.upper(c)| == 1 && Fits(u.isDigit, Parse(u.isDigit, r).value, i, u.upper(c)[0])
            && Value(u.upper(c)[0]) % 31 == Value(r[i]) % 31
  {
    hide Value, Weighted, CheckSymbol, Fits, Cleaned, Parse, Format;
    FormatOfParse(u.isDigit, r);
    var p := Parse(u.isDigit, r).value;
    FormatLength(p);
    AlreadyClean(u, r);
    CleanedChange(u, r, i, c);
    var s := r[..i] + u.upper(c) + r[i + 1..];
    if |u.upper(c)| == 1 {
      assert s == r[i := u.upper(c)[0]];
      SubstitutionNoticed(u.isDigit, r, i, u.upper(c)[0]);
    } else {
      assert r[..|p.prefix| + 1] == s[..|p.prefix| + 1];
      OtherLength(u.isDigit, r, s);
    }
  }

  /**
   A character of the body typed as any other, or an ASCII digit of the date as another, goes unnoticed only where
   upper-casing turns it back into the one it replaces.
   */
  lemma SubstitutionRejected(u: Unicode, r: string, i: int, c: char)
    requires u.Valid() && IsValid(u.isDigit, r, "")
    requires var p := Parse(u.isDigit, r).value;
             && 0 <= i < |r| && (InBody(p, i) || (InDay(p, i) && '0' <= c <= '9' && '0' <= r[i] <= '9'))
    ensures Validates(u, r[i := c], "") <==> u.upper(c) == [r[i]]
  {
    hide Value, Weighted, CheckSymbol, Cleaned;
    TypedSubstitutionNoticed(u, r, i, c);
    FormatOfParse(u.isDigit, r);
    var p := Parse(u.isDigit, r).value;
    FormatLength(p);
    if InBody(p, i) { assert r[i] == p.body[i - |p.prefix| - 10]; }
    if |u.upper(c)| == 1 && Fits(u.isDigit, p, i, u.upper(c)[0]) && u.upper(c)[0] != r[i] {
      ValuesDiffer(u.upper(c)[0], r[i]);
    }
  }

  lemma CleanText(u: Unicode, s: string)
    requires forall k :: 0 <= k < |s| ==> u.upper(s[k]) == [s[k]] && !u.isSpace(s[k])
    ensures Cleaned(u, s) == s
  {
    AlreadyUpper(u, s);
  }

  /** A last character that is white space is stripped, any other is upper-cased. */
  lemma CleanedLast(u: Unicode, r: string, c: char)
    requires |r| >= 2 && forall k :: 0 <= k < |r| ==> u.upper(r[k]) == [r[k]] && !u.isSpace(r[k])
    ensures Cleaned(u, r[|r| - 1 := c]) == r[..|r| - 1] + if u.isSpace(c) then "" else u.upper(c)
  {
    var n := |r| - 1;
    var s := r[n := c];
    assert s == r[..n] + [c] && s[0] == r[0] && s[..n] == r[..n];
    AlreadyUpper(u, r[..n]);
    if u.isSpace(c) {
      assert s[..n][n - 1] == r[n - 1];
      assert StripRight(u, s) == StripRight(u, r[..n]) == r[..n];
    } else {
      UpperCaseAppend(u, r[..n], [c]);
      assert [c][..0] == "" && UpperCase(u, [c]) == u.upper(c);
    }
  }

  /** The check symbol typed as any character goes unnoticed exactly where upper-casing turns it into the right one. */
  lemma CheckSubstitutionRejected(u: Unicode, r: string, c: char)
    requires u.Valid() && IsValid(u.isDigit, r, "")
    ensures r != "" && (Validates(u, r[|r| - 1 := c], "") <==> !u.isSpace(c) && u.upper(c) == [r[|r| - 1]])
  {
    hide Value, Weighted, CheckSymbol, Cleaned, Parse, Format;
    FormatOfParse(u.isDigit, r);
    var p := Parse(u.isDigit, r).value;
    FormatLength(p);
    AlreadyClean(u, r);
    CleanedLast(u, r, c);
    var n := |r| - 1;
    var s := r[..n] + if u.isSpace(c) then "" else u.upper(c);
    if |s| == |r| {
      assert s == r[n := s[n]];
      if s[n] != r[n] { OtherCheckSymbol(u.isDigit, r, s[n]); } else { assert s == r; }
    } else {
      assert r[..|p.prefix| + 1] == s[..|p.prefix| + 1];
      OtherLength(u.isDigit, r, s);
    }
  }

  /** So a letter of the body, or the check letter, typed in lower case passes. */
  lemma LowerCaseLetterPasses(u: Unicode, r: string, i: int)
    requires u.Valid() && IsValid(u.isDigit, r, "") && 0 <= i < |r| && IsUpper(r[i])
    requires InBody(Parse(u.isDigit, r).value, i) || i == |r| - 1
    ensures var c := (r[i] as int + 32) as char;
            Validates(u, r[i := c], "") && r[i := c] != r && !IsValid(u.isDigit, r[i := c], "")
  {
    hide Weighted, CheckSymbol, Cleaned, Parse, Format;
    var c := (r[i] as int + 32) as char;
    assert u.upper(c) == [r[i]] && !u.isSpace(c) && !InAlphabet(c) && r[i := c][i] != r[i];
    if i == |r| - 1 {
      CheckSubstitutionRejected(u, r, c);
      OtherCheckSymbol(u.isDigit, r, c);
    } else {
      SubstitutionRejected(u, r, i, c);
      SubstitutionNoticed(u.isDigit, r, i, c);
    }
  }

  /** The reference CL-20260919-AAAAAAA followed by its check symbol, with one letter in lower case. */
  lemma LowerCaseExample(u: Unicode)
    requires u.Valid()
    ensures var r := Generated("CL", "20260919", "AAAAAAA");
            |r| == 20 && IsValid(u.isDigit, r, "") && r[12 := 'a'] != r && Validates(u, r[12 := 'a'], "")
  {
    hide Weighted, CheckSymbol, Parse, Cleaned, Validates;
    var p := Parts("CL", "20260919", "AAAAAAA", CheckSymbol(Parts("CL", "20260919", "AAAAAAA", '2')));
    IsInAlphabet(p);
    FormatLength(p);
    SameSymbol(p, Parts("CL", "20260919", "AAAAAAA", '2'));
    assert WellFormed(u.isDigit, p);
    ParseOfFormat(u.isDigit, p);
    assert Format(p)[12] == Format(p)[|p.prefix| + 10..|p.prefix| + 17][0] == 'A';
    LowerCaseLetterPasses(u, Format(p), 12);
  }

  lemma Swapped(r: string, i: int)
    requires 0 <= i && i + 1 < |r|
    ensures var s := r[i := r[i + 1]][i + 1 := r[i]]; |s| == |r| && forall k :: 0 <= k < |s| ==> s[k] in r
  {}

  /** Swapping two neighbours in the date or the body goes unnoticed exactly when they count the same modulo 31. */
  lemma SwapNoticed(u: Unicode, r: string, i: int)
    requires u.Valid() && IsValid(u.isDigit, r, "")
    requires var p := Parse(u.isDigit, r).value; (InDay(p, i) && InDay(p, i + 1)) || (InBody(p, i) && InBody(p, i + 1))
    ensures 0 <= i < i + 1 < |r|
    ensures Validates(u, r[i := r[i + 1]][i + 1 := r[i]], "") <==> Value(r[i]) % 31 == Value(r[i + 1]) % 31
  {
    hide Value, Weighted, CheckSymbol, Parse, Cleaned;
    SwapInCleanText(u.isDigit, r, i);
    AlreadyClean(u, r);
    Swapped(r, i);
    CleanText(u, r[i := r[i + 1]][i + 1 := r[i]]);
  }

  /** Swapping two different neighbours, ASCII digits of the date or symbols of the body, is always noticed. */
  lemma SwapRejected(u: Unicode, r: string, i: int)
    requires u.Valid() && IsValid(u.isDigit, r, "") && 0 <= i && i + 1 < |r| && r[i] != r[i + 1]
    requires var p := Parse(u.isDigit, r).value;
             || (InDay(p, i) && InDay(p, i + 1) && '0' <= r[i] <= '9' && '0' <= r[i + 1] <= '9')
             || (InBody(p, i) && InBody(p, i + 1))
    ensures !Validates(u, r[i := r[i + 1]][i + 1 := r[i]], "")
  {
    hide Value, Weighted, CheckSymbol, Validates;
    SwapNoticed(u, r, i);
    FormatOfParse(u.isDigit, r);
    var p := Parse(u.isDigit, r).value;
    FormatLength(p);
    if InBody(p, i) {
      assert r[i] == p.body[i - |p.prefix| - 10] && r[i + 1] == p.body[i - |p.prefix| - 9];
    }
    ValuesDiffer(r[i], r[i + 1]);
  }

  /** A digit of another script may count like an ASCII digit: a zero changed to U+06F8 in the date goes unnoticed. */
  lemma OtherDigitsPass(u: Unicode, r: string, i: int)
    requires u.Valid() && IsValid(u.isDigit, r, "") && u.isDigit('\U{06F8}')
    requires var p := Parse(u.isDigit, r).value; InDay(p, i) && 0 <= i < |r| && r[i] == '0'
    ensures r[i := '\U{06F8}'] != r && Validates(u, r[i := '\U{06F8}'], "")
  {
    hide Weighted, CheckSymbol, Parse, Cleaned;
    TypedSubstitutionNoticed(u, r, i, '\U{06F8}');
    ResidueOf('0');
    assert Value('\U{06F8}') == 1784;
    assert r[i := '\U{06F8}'][i] != r[i];
  }
}
