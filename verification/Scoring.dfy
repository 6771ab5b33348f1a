/** How a quote is graded against a reference mid: `score` and `verdictFor` of
    route/route.go, over exact reals. */
module Scoring {
  import opened Reals

  datatype Verdict = Ungraded | Good | Fair | Poor | Unusable
  {
    predicate Acceptable() { Good? || Fair? || Poor? }

    /** Worse verdicts rank higher. */
    function Rank(): nat {
      match this
      case Ungraded => 0
      case Good => 1
      case Fair => 2
      case Poor => 3
      case Unusable => 4
    }
  }

  const THRESHOLD_GOOD := 3.0
  const THRESHOLD_FAIR := 8.0
  const THRESHOLD_POOR := 20.0

  function VerdictFor(lossPct: real): Verdict {
    if lossPct <= THRESHOLD_GOOD then Good
    else if lossPct <= THRESHOLD_FAIR then Fair
    else if lossPct <= THRESHOLD_POOR then Poor
    else Unusable
  }

  function AtLeastZero(x: real): real { if x < 0.0 then 0.0 else x }

  /** What scoring adds to a quote. */
  datatype Grade = Grade(mid: real, rate: real, lossPct: real, lossAmount: real, verdict: Verdict)

  const UNGRADED := Grade(0.0, 0.0, 0.0, 0.0, Ungraded)

  function GradeOf(sent: real, received: real, mid: real, was: Grade): Grade {
    if mid == 0.0 || sent == 0.0 then was.(mid := mid, verdict := Ungraded)
    else
      var rate := received / sent;
      var loss := AtLeastZero((mid - rate) / mid * 100.0);
      Grade(mid, rate, loss, AtLeastZero(sent * mid - received), VerdictFor(loss))
  }

  class Quote {
    const sendAmount: real
    const receiveAmount: real
    var referenceMid: real
    var effectiveRate: real
    var lossPct: real
    var lossAmount: real
    var verdict: Verdict

    function Graded(): Grade reads this { Grade(referenceMid, effectiveRate, lossPct, lossAmount, verdict) }

    constructor (sent: real, received: real)
      ensures sendAmount == sent && receiveAmount == received && Graded() == UNGRADED
    {
      sendAmount, receiveAmount := sent, received;
      referenceMid, effectiveRate, lossPct, lossAmount, verdict := 0.0, 0.0, 0.0, 0.0, Ungraded;
    }

    method Score(mid: real)
      modifies this
      ensures Graded() == GradeOf(sendAmount, receiveAmount, mid, old(Graded()))
    {
      referenceMid := mid;
      if mid == 0.0 || sendAmount == 0.0 {
        verdict := Ungraded;
        return;
      }
      effectiveRate := receiveAmount / sendAmount;
      lossPct := (mid - effectiveRate) / mid * 100.0;
      if lossPct < 0.0 {
        lossPct := 0.0;
      }
      lossAmount := sendAmount * mid - receiveAmount;
      if lossAmount < 0.0 {
        lossAmount := 0.0;
      }
      verdict := VerdictFor(lossPct);
    }
  }

  /** The effective rate is what arrives for each unit sent. Nothing is graded without a
      mid and an amount, and then earlier figures stay. */
  lemma RateIsReceivedPerSent(sent: real, received: real, mid: real, was: Grade)
    ensures var g := GradeOf(sent, received, mid, was);
            && g.mid == mid
            && if mid == 0.0 || sent == 0.0
               then g.verdict == Ungraded && (g.rate, g.lossPct, g.lossAmount) == (was.rate, was.lossPct, was.lossAmount)
               else g.rate * sent == received && g.verdict != Ungraded
  {
    if sent != 0.0 {
      assert received / sent * sent == received;
    }
  }

  /** A loss within `pct` percent means at least the rest of fair value arrives. */
  lemma LossMeans(sent: real, received: real, mid: real, was: Grade, pct: real)
    requires sent > 0.0 && mid > 0.0 && 0.0 <= pct
    ensures GradeOf(sent, received, mid, was).lossPct <= pct <==> received >= sent * mid * (100.0 - pct) / 100.0
  {
    var rate := received / sent;
    assert rate * sent == received;
    var raw := (mid - rate) / mid * 100.0;
    Scale(mid, raw, pct);
    assert raw * mid == (mid - rate) * 100.0;
    Scale(sent, (mid - rate) * 100.0, pct * mid);
    assert (mid - rate) * 100.0 * sent == (mid * sent - received) * 100.0;
    assert pct * mid * sent == sent * mid * pct;
    assert sent * mid * (100.0 - pct) == sent * mid * 100.0 - sent * mid * pct;
  }

  /** The three thresholds in terms of what the recipient gets of fair value. */
  lemma VerdictMeans(sent: real, received: real, mid: real, was: Grade)
    requires sent > 0.0 && mid > 0.0
    ensures var v := GradeOf(sent, received, mid, was).verdict;
            && (v == Good <==> received >= sent * mid * 97.0 / 100.0)
            && (v in {Good, Fair} <==> received >= sent * mid * 92.0 / 100.0)
            && (v.Acceptable() <==> received >= sent * mid * 80.0 / 100.0)
            && v != Ungraded
  {
    LossMeans(sent, received, mid, was, THRESHOLD_GOOD);
    LossMeans(sent, received, mid, was, THRESHOLD_FAIR);
    LossMeans(sent, received, mid, was, THRESHOLD_POOR);
  }

  /** The loss amount is the loss percentage of what was sent, valued at mid. */
  lemma LossAmountIsLossPct(sent: real, received: real, mid: real, was: Grade)
    requires sent > 0.0 && mid > 0.0
    ensures var g := GradeOf(sent, received, mid, was);
            g.lossAmount == sent * mid * g.lossPct / 100.0
  {
    var rate := received / sent;
    assert rate * sent == received;
    var raw := (mid - rate) / mid * 100.0;
    assert raw * mid == (mid - rate) * 100.0;
    assert raw * mid * sent == (sent * mid - received) * 100.0;
    assert sent * mid * raw == raw * mid * sent;
    if raw < 0.0 { assert (0.0 - raw) * (mid * sent) > 0.0; } else { assert raw * (mid * sent) >= 0.0; }
  }

  /** A larger benchmark never flatters: loss and verdict grow with the mid. */
  lemma LargerMidLosesMore(sent: real, received: real, lo: real, hi: real, was: Grade)
    requires sent > 0.0 && received >= 0.0 && 0.0 < lo <= hi
    ensures var a, b := GradeOf(sent, received, lo, was), GradeOf(sent, received, hi, was);
            a.lossPct <= b.lossPct && a.verdict.Rank() <= b.verdict.Rank()
  {
    var b := GradeOf(sent, received, hi, was).lossPct;
    LossMeans(sent, received, hi, was, 100.0);
    LossMeans(sent, received, hi, was, b);
    LossMeans(sent, received, lo, was, b);
    assert 0.0 <= b <= 100.0;
    ScaleUp(sent * (100.0 - b), lo, hi);
    assert sent * (100.0 - b) * lo == sent * lo * (100.0 - b);
    assert sent * (100.0 - b) * hi == sent * hi * (100.0 - b);
  }

}
