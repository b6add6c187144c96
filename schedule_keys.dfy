/**
 * The composite key `"year-month-nurseId"` under which a nurse's month of
 * day records is stored, and how a key reads back into its three parts.
 */
module ScheduleKeys {
  import opened Wrappers
  import opened Text

  /** The key `${year}-${month}-${nurseId}`. */
  function ScheduleKey(year: nat, month: nat, nurseId: string): string {
    NatToString(year) + "-" + NatToString(month) + "-" + nurseId
  }

  /** Splits `s` at its first `-`. */
  function SplitAtDash(s: string): (r: Option<(string, string)>)
    ensures r.None? <==> '-' !in s
    ensures r.Some? ==> '-' !in r.value.0 && s == r.value.0 + "-" + r.value.1
  {
    if s == [] then None
    else if s[0] == '-' then Some(([], s[1..]))
    else
      match SplitAtDash(s[1..])
      case None => None
      case Some(p) => Some(([s[0]] + p.0, p.1))
  }

  lemma {:induction false} SplitAtFirstDash(a: string, b: string)
    requires '-' !in a
    ensures SplitAtDash(a + "-" + b) == Some((a, b))
  {
    if a != [] {
      assert (a + "-" + b)[1..] == a[1..] + "-" + b;
      SplitAtFirstDash(a[1..], b);
      assert [a[0]] + a[1..] == a;
    }
  }

  /** The year, month and nurse id a key names, when it has the key's shape. */
  function ParseKey(k: string): Option<(nat, nat, string)> {
    match SplitAtDash(k)
    case None => None
    case Some(p) =>
      match SplitAtDash(p.1)
      case None => None
      case Some(q) =>
        if p.0 != [] && q.0 != [] && AllDigits(p.0) && AllDigits(q.0)
        then Some((DigitsValue(p.0), DigitsValue(q.0), q.1))
        else None
  }

  lemma DigitsHaveNoDash(s: string)
    requires AllDigits(s)
    ensures '-' !in s
  {
  }

  /** A key reads back into the year, month and nurse id it was built from. */
  lemma ParseScheduleKey(year: nat, month: nat, nurseId: string)
    ensures ParseKey(ScheduleKey(year, month, nurseId)) == Some((year, month, nurseId))
  {
    var y, m := NatToString(year), NatToString(month);
    DigitsHaveNoDash(y);
    DigitsHaveNoDash(m);
    assert ScheduleKey(year, month, nurseId) == y + "-" + (m + "-" + nurseId);
    SplitAtFirstDash(y, m + "-" + nurseId);
    SplitAtFirstDash(m, nurseId);
    DigitsValueOfNatToString(year);
    DigitsValueOfNatToString(month);
  }

  /** Distinct (year, month, nurse) triples never share a key. */
  lemma ScheduleKeyInjective(y1: nat, m1: nat, id1: string, y2: nat, m2: nat, id2: string)
    requires ScheduleKey(y1, m1, id1) == ScheduleKey(y2, m2, id2)
    ensures y1 == y2 && m1 == m2 && id1 == id2
  {
    ParseScheduleKey(y1, m1, id1);
    ParseScheduleKey(y2, m2, id2);
  }

  /** Whether `k` is a key of the nurse `nurseId`, read structurally. */
  predicate KeyOfNurse(k: string, nurseId: string) {
    var p := ParseKey(k);
    p.Some? && p.value.2 == nurseId
  }
}
