/**
 * The front end's small scoring and labelling helpers: the chance of winning a
 * project (from its journal size, or 100 once acquired), the colour band of
 * the ring that shows it, and the status label and pin colour of an item.
 */
module Chance {
  import opened Js

  // ---------------------------------------------------------------- chance

  /** `Math.min(4, Math.max(0, Number(count) || 0))`: the journal size the score counts. */
  function CountedEntries(count: JsNumber): (m: real)
    ensures 0.0 <= m <= 4.0
    ensures count.Num? && 0.0 <= count.value <= 4.0 ==> m == count.value
    ensures count.PosInf? || (count.Num? && count.value > 4.0) ==> m == 4.0
    ensures count.NaN? || count.NegInf? || (count.Num? && count.value <= 0.0) ==> m == 0.0
  {
    var n := Max(Num(0.0), OrZero(count));
    assert count.PosInf? ==> n.PosInf?;
    assert !count.PosInf? ==> n.Num? && n.value >= 0.0;
    Min(Num(4.0), n).value
  }

  /** `Math.min(90, 50 + Math.min(4, Math.max(0, Number(count) || 0)) * 10)`. */
  function ChanceFromJournalCount(count: JsNumber): (r: JsNumber)
    ensures r.Num? && 50.0 <= r.value <= 90.0
    ensures count.Num? && count.value >= 0.0 ==>
      r.value == if count.value >= 4.0 then 90.0 else 50.0 + 10.0 * count.value
    ensures count.NaN? || count.NegInf? || (count.Num? && count.value <= 0.0) ==> r == Num(50.0)
    ensures count.PosInf? ==> r == Num(90.0)
  {
    var m := CountedEntries(count);
    Score(m);
    Min(Num(90.0), Add(Num(50.0), Mul(Num(m), Num(10.0))))
  }

  /** The arithmetic of the score: 50 plus ten per counted entry, at most 90. */
  lemma Score(m: real)
    requires 0.0 <= m <= 4.0
    ensures Min(Num(90.0), Add(Num(50.0), Mul(Num(m), Num(10.0)))) == Num(50.0 + 10.0 * m)
  {
    assert Mul(Num(m), Num(10.0)) == Num(m * 10.0);
    assert Add(Num(50.0), Num(m * 10.0)) == Num(50.0 + m * 10.0);
    assert Le(Num(50.0 + m * 10.0), Num(90.0));
  }

  /** 0 entries give 50, each entry adds 10, four or more give 90. */
  lemma ChanceByCount(n: nat)
    ensures ChanceFromJournalCount(Num(n as real)) == Num(if n >= 4 then 90.0 else 50.0 + 10.0 * n as real)
  {
  }

  /** More journal entries never lower the chance. */
  lemma ChanceMonotone(a: JsNumber, b: JsNumber)
    requires !a.NaN? && !b.NaN? && Le(a, b)
    ensures ChanceFromJournalCount(a).value <= ChanceFromJournalCount(b).value
  {
    var ra, rb := ChanceFromJournalCount(a), ChanceFromJournalCount(b);
    match (a, b)
    case (Num(x), Num(y)) =>
      if x > 0.0 {
        assert ra.value == if x >= 4.0 then 90.0 else 50.0 + 10.0 * x;
        assert rb.value == if y >= 4.0 then 90.0 else 50.0 + 10.0 * y;
      }
    case _ =>
  }

  /** `projectChance`: an acquired project is certain, any other is scored by its journal. */
  function ProjectChance(acquired: bool, journalCount: JsNumber): (r: JsNumber)
    ensures acquired ==> r == Num(100.0)
    ensures !acquired ==> r == ChanceFromJournalCount(journalCount) && 50.0 <= r.value <= 90.0
  {
    if acquired then Num(100.0) else ChanceFromJournalCount(journalCount)
  }

  // ------------------------------------------------------------------ ring

  const Green: string := "rgba(34,197,94,0.95)"
  const Yellow: string := "rgba(245,158,11,0.95)"
  const Red: string := "rgba(239,68,68,0.95)"

  /** `Math.max(0, Math.min(100, Number(pct) || 0))`. */
  function ClampPercent(pct: JsNumber): (v: real)
    ensures 0.0 <= v <= 100.0
    ensures pct.Num? && 0.0 <= pct.value <= 100.0 ==> v == pct.value
    ensures pct.PosInf? || (pct.Num? && pct.value > 100.0) ==> v == 100.0
    ensures pct.NaN? || pct.NegInf? || (pct.Num? && pct.value < 0.0) ==> v == 0.0
  {
    var m := Max(Num(0.0), Min(Num(100.0), OrZero(pct)));
    m.value
  }

  /** `ringColor`: green from 80, yellow from 60, red below; exactly one band per value. */
  function RingColor(pct: JsNumber): (r: string)
    ensures r in {Green, Yellow, Red}
    ensures r == Green <==> ClampPercent(pct) >= 80.0
    ensures r == Yellow <==> 60.0 <= ClampPercent(pct) < 80.0
    ensures r == Red <==> ClampPercent(pct) < 60.0
  {
    var v := ClampPercent(pct);
    if v >= 80.0 then Green else if v >= 60.0 then Yellow else Red
  }

  /**
   * The ring of a project: acquired or three entries and more give green, one or two give
   * yellow, an empty journal gives red.
   */
  lemma RingOfProject(acquired: bool, n: nat)
    ensures RingColor(ProjectChance(acquired, Num(n as real))) ==
      if acquired || n >= 3 then Green else if n >= 1 then Yellow else Red
  {
    ChanceByCount(n);
  }

  // ---------------------------------------------------------------- status

  const Planned: string := "planowany"
  const Tender: string := "przetarg"
  const InProgress: string := "realizacja"
  const Outdated: string := "nieaktualny"

  /** `statusLabel`: the three named statuses stand for themselves, anything else is "planowany". */
  function StatusLabel(s: string): (r: string)
    ensures r in {Planned, Tender, InProgress, Outdated}
    ensures s in {Tender, InProgress, Outdated} ==> r == s
    ensures s !in {Tender, InProgress, Outdated} ==> r == Planned
  {
    if s == Tender then Tender
    else if s == InProgress then InProgress
    else if s == Outdated then Outdated
    else Planned
  }

  /** `statusColor`: one pin colour per status, blue for everything that reads "planowany". */
  function StatusColor(s: string): (r: string)
    ensures r in {"#f59e0b", "#22c55e", "#9ca3af", "#3b82f6"}
    ensures r == "#3b82f6" <==> s !in {Tender, InProgress, Outdated}
  {
    if s == Tender then "#f59e0b"
    else if s == InProgress then "#22c55e"
    else if s == Outdated then "#9ca3af"
    else "#3b82f6"
  }

  /** The colour agrees with the label, labels are fixed points, and distinct labels have distinct colours. */
  lemma LabelAndColourAgree(s: string, t: string)
    ensures StatusColor(s) == StatusColor(StatusLabel(s))
    ensures StatusLabel(StatusLabel(s)) == StatusLabel(s)
    ensures StatusColor(s) == StatusColor(t) <==> StatusLabel(s) == StatusLabel(t)
  {
  }
}
