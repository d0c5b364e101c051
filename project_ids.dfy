/**
 * Project numbering of the backend: ids are "PRJ" and a number padded to
 * at least three digits, and a new project gets the number after the one
 * of the project the database sorts last by `projectId`.
 *
 * The database query is a parameter: the ids of the stored projects, and
 * `sort({ projectId: -1 })` picks the greatest of them in string order.
 */
module ProjectIds {
  import opened Base
  import opened Text

  /** "PRJ" followed by `n` padded with zeros to at least three digits. */
  function FormatProjectId(n: nat): string {
    "PRJ" + PadStart(NatToString(n), 3, '0')
  }

  /** The number of a well-formed id ("PRJ" and one or more digits). */
  function IdNumber(id: string): Option<nat> {
    if |id| > 3 && id[..3] == "PRJ" && AllDigits(id[3..]) then Some(DigitsValue(id[3..])) else None
  }

  /**
   * `generateProjectId` given the id of the project sorted last, if any:
   * `parseInt` of the id with its first "PRJ" removed, plus one, padded;
   * a number `parseInt` cannot read gives NaN, and "NaN" is three
   * characters long already.
   */
  function GenerateProjectId(lastProjectId: Option<string>): string {
    match lastProjectId
    case None => "PRJ001"
    case Some(id) =>
      match ParseLeadingInt(ReplaceFirst(id, "PRJ", ""))
      case None => "PRJNaN"
      case Some(last) => "PRJ" + PadStart(IntToString(last + 1), 3, '0')
  }

  /** The id `sort({ projectId: -1 })` puts first: the greatest in string order. */
  function LatestProjectId(ids: seq<string>): (r: Option<string>)
    ensures r.None? <==> ids == []
    ensures r.Some? ==> r.value in ids
  {
    if ids == [] then None
    else
      var rest := LatestProjectId(ids[1..]);
      if rest.None? || LexLess(rest.value, ids[0]) then Some(ids[0]) else rest
  }

  /** The id a new project gets from the stored ids, as the route computes it. */
  function NextProjectId(ids: seq<string>): string {
    GenerateProjectId(LatestProjectId(ids))
  }

  /** The largest number among the well-formed ids, 0 when there is none. */
  function MaxIdNumber(ids: seq<string>): (r: nat)
    ensures forall id :: id in ids && IdNumber(id).Some? ==> IdNumber(id).value <= r
    ensures r == 0 || exists id :: id in ids && IdNumber(id) == Some(r)
  {
    if ids == [] then 0
    else
      assert forall id :: id in ids ==> id == ids[0] || id in ids[1..];
      var rest := MaxIdNumber(ids[1..]);
      match IdNumber(ids[0])
      case None => rest
      case Some(k) => Max(k, rest)
  }

  /** The id after the numerically largest stored id. */
  function NextProjectIdByNumber(ids: seq<string>): string {
    FormatProjectId(MaxIdNumber(ids) + 1)
  }

  // ---- reading an id back ----

  /** Formatting then reading an id gives the number back. */
  lemma FormatProjectIdNumber(n: nat)
    ensures IdNumber(FormatProjectId(n)) == Some(n)
  {
    var digits := NatToString(n);
    var padded := PadStart(digits, 3, '0');
    PaddedDigits(digits);
    assert FormatProjectId(n)[..3] == "PRJ" && FormatProjectId(n)[3..] == padded;
    NatToStringValue(n);
  }

  /** Zero padding keeps the digits and their value. */
  lemma PaddedDigits(digits: string)
    requires AllDigits(digits)
    ensures AllDigits(PadStart(digits, 3, '0'))
    ensures DigitsValue(PadStart(digits, 3, '0')) == DigitsValue(digits)
  {
    if |digits| < 3 {
      LeadingZerosValue(3 - |digits|, digits);
    }
  }

  /** `parseInt` reads a run of digits as its value. */
  lemma ParseDigits(d: string)
    requires AllDigits(d) && d != []
    ensures ParseLeadingInt(d) == Some(DigitsValue(d))
  {
    assert '0' <= d[0] <= '9';
    assert !IsWhitespace(d[0]);
    assert TrimStart(d) == d;
    LeadingDigitsOfDigits(d);
  }

  /** Removing the first "PRJ" from an id that starts with it. */
  lemma ReplacePrefix(id: string)
    requires |id| >= 3 && id[..3] == "PRJ"
    ensures ReplaceFirst(id, "PRJ", "") == id[3..]
  {
  }

  /** After a well-formed id the route generates the id of the next number. */
  lemma GenerateAfterWellFormed(id: string)
    requires IdNumber(id).Some?
    ensures GenerateProjectId(Some(id)) == FormatProjectId(IdNumber(id).value + 1)
  {
    ReplacePrefix(id);
    ParseDigits(id[3..]);
  }

  /** The first project is numbered 1. */
  lemma FirstProjectId()
    ensures GenerateProjectId(None) == FormatProjectId(1)
    ensures NextProjectIdByNumber([]) == "PRJ001"
  {
    assert NatToString(1) == "1";
    assert Repeat('0', 2) == "00";
    assert PadStart("1", 3, '0') == "001";
  }

  /** Numbering continues from a formatted id. */
  lemma GenerateProjectIdNext(n: nat)
    ensures GenerateProjectId(Some(FormatProjectId(n))) == FormatProjectId(n + 1)
  {
    FormatProjectIdNumber(n);
    GenerateAfterWellFormed(FormatProjectId(n));
  }

  // ---- the string order ----

  /** No stored id comes after the one picked in string order. */
  lemma {:induction false} LatestProjectIdIsGreatest(ids: seq<string>)
    requires ids != []
    ensures forall id :: id in ids ==> !LexLess(LatestProjectId(ids).value, id)
  {
    var first := ids[0];
    var latest := LatestProjectId(ids).value;
    LexLessIrreflexive(first);
    assert forall id :: id in ids ==> id == first || id in ids[1..];
    if ids[1..] != [] {
      LatestProjectIdIsGreatest(ids[1..]);
      var rest := LatestProjectId(ids[1..]).value;
      if LexLess(rest, first) {
        forall id | id in ids[1..]
          ensures !LexLess(first, id)
        {
          if LexLess(first, id) {
            LexLessTransitive(rest, first, id);
          }
        }
      }
    }
  }

  /**
   * The route as written hands out an id that is already taken: "PRJ1000"
   * sorts before "PRJ999", so once both exist the id after "PRJ999" is
   * generated again.
   */
  lemma NextProjectIdRepeats()
    ensures NextProjectId(["PRJ999", "PRJ1000"]) == "PRJ1000"
    ensures "PRJ1000" in ["PRJ999", "PRJ1000"]
  {
    var ids := ["PRJ999", "PRJ1000"];
    assert LexLess("PRJ1000", "PRJ999") by {
      assert LexLess("1000", "999");
      LexLessCommonPrefix("PRJ", "1000", "999");
    }
    assert LatestProjectId(ids[1..]) == Some("PRJ1000");
    LiteralIds();
    GenerateProjectIdNext(999);
  }

  lemma LiteralIds()
    ensures FormatProjectId(999) == "PRJ999"
    ensures FormatProjectId(1000) == "PRJ1000"
  {
    NatToString999();
    NatToString1000();
    assert PadStart("999", 3, '0') == "999";
    assert PadStart("1000", 3, '0') == "1000";
  }

  lemma NatToString999()
    ensures NatToString(999) == "999"
  {
    assert NatToString(9) == "9";
    assert NatToString(99) == NatToString(9) + [DigitChar(9)] == "99";
    assert NatToString(999) == NatToString(99) + [DigitChar(9)];
  }

  lemma NatToString1000()
    ensures NatToString(1000) == "1000"
  {
    assert NatToString(1) == "1";
    assert NatToString(10) == NatToString(1) + [DigitChar(0)] == "10";
    assert NatToString(100) == NatToString(10) + [DigitChar(0)] == "100";
    assert NatToString(1000) == NatToString(100) + [DigitChar(0)];
  }

  /** The id after the numerically largest one is never taken. */
  lemma NextProjectIdByNumberIsFresh(ids: seq<string>)
    ensures NextProjectIdByNumber(ids) !in ids
    ensures IdNumber(NextProjectIdByNumber(ids)) == Some(MaxIdNumber(ids) + 1)
  {
    FormatProjectIdNumber(MaxIdNumber(ids) + 1);
  }

  // ---- where string order and numbers agree ----

  /** An id of exactly three digits, as every id below number 1000 is. */
  predicate IsThreeDigitId(id: string) {
    |id| == 6 && id[..3] == "PRJ" && AllDigits(id[3..])
  }

  /** For digit strings of one length, string order is numeric order. */
  lemma {:induction false} DigitsLexOrder(a: string, b: string)
    requires AllDigits(a) && AllDigits(b) && |a| == |b|
    ensures LexLess(a, b) <==> DigitsValue(a) < DigitsValue(b)
    decreases |a|
  {
    if a != [] {
      DigitsHead(a);
      DigitsHead(b);
      var p := Pow10(|a| - 1);
      var da, db := (a[0] as int) - ('0' as int), (b[0] as int) - ('0' as int);
      if da < db {
        HeadDominates(da, db, p, DigitsValue(a[1..]), DigitsValue(b[1..]));
      } else if db < da {
        HeadDominates(db, da, p, DigitsValue(b[1..]), DigitsValue(a[1..]));
      } else {
        DigitsLexOrder(a[1..], b[1..]);
      }
    }
  }

  /** The first digit weighs more than all the others together. */
  lemma DigitsHead(a: string)
    requires AllDigits(a) && a != []
    ensures DigitsValue(a) == ((a[0] as int) - ('0' as int)) * Pow10(|a| - 1) + DigitsValue(a[1..])
    ensures DigitsValue(a[1..]) < Pow10(|a| - 1)
  {
    var h, t := [a[0]], a[1..];
    assert h + t == a;
    DigitsValueConcat(h, t);
    assert h[..0] == [];
    assert DigitsValue(h) == (a[0] as int) - ('0' as int);
    DigitsValueBelow(t);
  }

  lemma HeadDominates(da: int, db: int, p: int, va: int, vb: int)
    requires 0 <= da < db && 0 <= va < p && 0 <= vb
    ensures da * p + va < db * p + vb
  {
    MulMonotone(p, da + 1, db);
  }

  /** A common prefix does not change string order. */
  lemma {:induction false} LexLessCommonPrefix(p: string, x: string, y: string)
    ensures LexLess(p + x, p + y) == LexLess(x, y)
    decreases |p|
  {
    if p == [] {
      assert p + x == x && p + y == y;
    } else {
      assert (p + x)[1..] == p[1..] + x && (p + y)[1..] == p[1..] + y;
      LexLessCommonPrefix(p[1..], x, y);
    }
  }

  /** While every id has three digits, the id after the string-greatest is the id after the numeric greatest. */
  lemma AsWrittenAgreesBelowThousand(ids: seq<string>)
    requires forall id :: id in ids ==> IsThreeDigitId(id)
    ensures NextProjectId(ids) == NextProjectIdByNumber(ids)
  {
    if ids == [] {
      FirstProjectId();
    } else {
      var latest := LatestProjectId(ids).value;
      LatestHasLargestNumber(ids, latest);
      GenerateAfterWellFormed(latest);
    }
  }

  /** While every id has three digits, the id the code as written generates is not taken yet. */
  lemma NextProjectIdFreshBelowThousand(ids: seq<string>)
    requires forall id :: id in ids ==> IsThreeDigitId(id)
    ensures NextProjectId(ids) !in ids
    ensures IdNumber(NextProjectId(ids)) == Some(MaxIdNumber(ids) + 1)
  {
    AsWrittenAgreesBelowThousand(ids);
    NextProjectIdByNumberIsFresh(ids);
  }

  /** While every id has three digits, the id last in string order has the largest number. */
  lemma LatestHasLargestNumber(ids: seq<string>, latest: string)
    requires forall id :: id in ids ==> IsThreeDigitId(id)
    requires ids != [] && latest == LatestProjectId(ids).value
    ensures IdNumber(latest).Some? && MaxIdNumber(ids) == IdNumber(latest).value
  {
    LatestProjectIdIsGreatest(ids);
    forall id | id in ids
      ensures IdNumber(id).Some? && IdNumber(id).value <= IdNumber(latest).value
    {
      ThreeDigitOrder(latest, id);
    }
    MaxIdNumberIsGreatest(ids, latest);
  }

  /** Of two three-digit ids, the one not before the other in string order has the larger number. */
  lemma ThreeDigitOrder(latest: string, id: string)
    requires IsThreeDigitId(latest) && IsThreeDigitId(id) && !LexLess(latest, id)
    ensures IdNumber(id).Some? && IdNumber(latest).Some?
    ensures IdNumber(id).value <= IdNumber(latest).value
  {
    assert id == id[..3] + id[3..] && latest == latest[..3] + latest[3..];
    LexLessCommonPrefix("PRJ", latest[3..], id[3..]);
    DigitsLexOrder(latest[3..], id[3..]);
  }

  /** A well-formed id whose number no other id exceeds has the largest number. */
  lemma MaxIdNumberIsGreatest(ids: seq<string>, latest: string)
    requires latest in ids && IdNumber(latest).Some?
    requires forall id :: id in ids ==> IdNumber(id).Some? && IdNumber(id).value <= IdNumber(latest).value
    ensures MaxIdNumber(ids) == IdNumber(latest).value
  {
    var m := MaxIdNumber(ids);
    if m != 0 {
      var w :| w in ids && IdNumber(w) == Some(m);
    }
  }
}
