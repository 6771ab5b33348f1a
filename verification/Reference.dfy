/** Reference-rate reconciliation: refrate/cross.go. Mids are exact reals, moments
    are nanoseconds, and an absent as-of time is the zero time. */
module Reference {
  import opened Results
  import Reals
  import Scoring

  datatype Agreement = Single | Agree | Disagree | Stale | Malfunction

  /** The third provider's reading of a disagreement. */
  datatype Diagnostic = Diagnostic(source: string, mid: real, asOf: Option<int>, outlier: Option<string>,
                                   outlierDistance: real, otherDistance: real, reason: Reason)

  datatype Reason = Named | Unavailable | ZeroMid | Equidistant

  datatype Rate = Rate(pair: string, mid: real, asOf: Option<int>, source: string, fetchedAt: int,
                       secondaryMid: real, secondarySource: string, secondaryAsOf: Option<int>,
                       divergence: real, agreement: Agreement, diagnostic: Option<Diagnostic>)
  {
    predicate Scorable() { agreement != Malfunction }
  }

  const DIVERGENCE_AGREE := 2.0
  const DIVERGENCE_MALFUNCTION := 10.0
  const STALE_GAP := 48 * 3600 * 1_000_000_000

  const MAX_DURATION := 0x7fff_ffff_ffff_ffff
  const MIN_DURATION := -0x8000_0000_0000_0000

  /** `Time.Sub` saturates. */
  function Sub(a: int, b: int): int {
    if a - b > MAX_DURATION then MAX_DURATION else if a - b < MIN_DURATION then MIN_DURATION else a - b
  }

  /** Negating a 64-bit duration: the least one is its own negative. */
  function Negate(d: int): int { if d == MIN_DURATION then MIN_DURATION else -d }

  /** How far apart two mids are, as a percentage of the smaller. */
  function PctApart(a: real, b: real): real {
    var lo, hi := if b < a then b else a, if b < a then a else b;
    if lo == 0.0 then 0.0 else (hi - lo) / lo * 100.0
  }

  function Max(a: real, b: real): real { if a < b then b else a }

  function Min(a: real, b: real): real { if a < b then a else b }

  predicate StaleApart(a: Rate, b: Rate) {
    a.asOf.Some? && b.asOf.Some? &&
    var gap := Sub(a.asOf.value, b.asOf.value);
    (if gap < 0 then Negate(gap) else gap) > STALE_GAP
  }

  /** The bands, in the order they are tried. */
  function AgreementOf(p: Rate, s: Rate): Agreement {
    if p.mid == 0.0 || s.mid == 0.0 then Malfunction
    else if PctApart(p.mid, s.mid) > DIVERGENCE_MALFUNCTION then Malfunction
    else if StaleApart(p, s) then Stale
    else if PctApart(p.mid, s.mid) > DIVERGENCE_AGREE then Disagree
    else Agree
  }

  /** Whether the secondary is the one scored: fresher when stale, larger when the two disagree. */
  predicate Swaps(p: Rate, s: Rate) {
    match AgreementOf(p, s)
    case Stale => s.asOf.value > p.asOf.value
    case Disagree => s.mid > p.mid
    case _ => false
  }

  function Scored(p: Rate, s: Rate): Rate { if Swaps(p, s) then s else p }

  function Unscored(p: Rate, s: Rate): Rate { if Swaps(p, s) then p else s }

  /** The reconciled rate: the scored provider's figures, the other's beside them, and
      the rest of the primary's. */
  function Reconciled(p: Rate, s: Rate): Rate {
    var a, b := Scored(p, s), Unscored(p, s);
    Rate(p.pair, a.mid, a.asOf, a.source, p.fetchedAt, b.mid, b.source, b.asOf,
         if p.mid == 0.0 || s.mid == 0.0 then p.divergence else PctApart(p.mid, s.mid),
         AgreementOf(p, s), None)
  }

  /** The larger mid exceeds the smaller, which is positive, by more than `pct` percent of it. */
  predicate Apart(a: real, b: real, pct: real) {
    (a > 0.0 && b * 100.0 > a * (100.0 + pct)) || (b > 0.0 && a * 100.0 > b * (100.0 + pct))
  }

  /** Two known moments lie more than 48 hours apart. The gap is measured from the second
      to the first, in 64 bits; when the second is 2^63 nanoseconds later or more, it is missed. */
  predicate HoursApart(a: Option<int>, b: Option<int>) {
    a.Some? && b.Some?
    && (a.value - b.value > 172_800_000_000_000
        || 172_800_000_000_000 < b.value - a.value < 0x8000_0000_0000_0000)
  }

  /** The three bands in terms of the two answers: when each verdict is given, and which
      of the two is scored under it. */
  predicate Banded(p: Rate, s: Rate, out: Rate) {
    && (out.agreement == Malfunction <==> p.mid == 0.0 || s.mid == 0.0 || Apart(p.mid, s.mid, 10.0))
    && (out.agreement == Stale <==>
          p.mid != 0.0 && s.mid != 0.0 && !Apart(p.mid, s.mid, 10.0) && HoursApart(p.asOf, s.asOf))
    && (out.agreement == Disagree <==>
          p.mid != 0.0 && s.mid != 0.0 && !Apart(p.mid, s.mid, 10.0) && !HoursApart(p.asOf, s.asOf) && Apart(p.mid, s.mid, 2.0))
    && out.agreement in {Malfunction, Stale, Disagree, Agree}
    && (out.agreement == Stale ==> out.asOf.Some? && out.secondaryAsOf.Some? && out.asOf.value > out.secondaryAsOf.value)
    && (out.agreement == Disagree ==> out.mid > out.secondaryMid > 0.0)
    && (out.agreement in {Malfunction, Agree} ==> (out.mid, out.source, out.asOf) == (p.mid, p.source, p.asOf))
    && (p.mid != 0.0 && s.mid != 0.0 ==>
          out.divergence * Min(p.mid, s.mid) == (Max(p.mid, s.mid) - Min(p.mid, s.mid)) * 100.0)
    && out.pair == p.pair && out.fetchedAt == p.fetchedAt && out.diagnostic == None
    && ((out.mid, out.source, out.asOf, out.secondaryMid, out.secondarySource, out.secondaryAsOf)
          in {(p.mid, p.source, p.asOf, s.mid, s.source, s.asOf), (s.mid, s.source, s.asOf, p.mid, p.source, p.asOf)})
  }

  lemma BandsMean(p: Rate, s: Rate)
    ensures Banded(p, s, Reconciled(p, s))
  {
    if p.mid != 0.0 && s.mid != 0.0 {
      ApartMeans(p.mid, s.mid, DIVERGENCE_MALFUNCTION);
      ApartMeans(p.mid, s.mid, DIVERGENCE_AGREE);
      PctMeans(p.mid, s.mid);
    }
    StaleMeans(p, s);
    hide PctApart, StaleApart, HoursApart, Min, Max;
    assert Apart(p.mid, s.mid, 2.0) ==> p.mid > 0.0 && s.mid > 0.0 && p.mid != s.mid;
  }

  lemma StaleMeans(p: Rate, s: Rate)
    ensures StaleApart(p, s) <==> HoursApart(p.asOf, s.asOf)
    ensures StaleApart(p, s) ==> p.asOf.Some? && s.asOf.Some? && p.asOf.value != s.asOf.value
  {
  }

  lemma PctMeans(a: real, b: real)
    requires a != 0.0 && b != 0.0
    ensures PctApart(a, b) * Min(a, b) == (Max(a, b) - Min(a, b)) * 100.0
  {
    var lo, hi := Min(a, b), Max(a, b);
    assert (hi - lo) / lo * 100.0 * lo == (hi - lo) * 100.0;
  }

  lemma ApartMeans(a: real, b: real, pct: real)
    requires a != 0.0 && b != 0.0 && pct >= 0.0
    ensures PctApart(a, b) > pct <==> Apart(a, b, pct)
  {
    DivergenceMeans(a, b, pct);
    hide PctApart;
  }

  method Reconcile(primary: Rate, secondary: Rate) returns (out: Rate)
    ensures out == Reconciled(primary, secondary)
    ensures Banded(primary, secondary, out)
  {
    BandsMean(primary, secondary);
    hide Banded;
    out := primary.(secondaryMid := secondary.mid, secondarySource := secondary.source,
                    secondaryAsOf := secondary.asOf, diagnostic := None);
    if primary.mid == 0.0 || secondary.mid == 0.0 {
      out := out.(agreement := Malfunction);
      return;
    }
    var lo, hi := primary.mid, secondary.mid;
    if hi < lo {
      lo, hi := hi, lo;
    }
    out := out.(divergence := (hi - lo) / lo * 100.0);
    if out.divergence > DIVERGENCE_MALFUNCTION {
      out := out.(agreement := Malfunction);
      return;
    }
    if StaleApart(primary, secondary) {
      out := out.(agreement := Stale);
      if secondary.asOf.value > primary.asOf.value {
        out := Exchange(out, primary, secondary);
      }
      return;
    }
    if out.divergence > DIVERGENCE_AGREE {
      out := out.(agreement := Disagree);
      if secondary.mid > primary.mid {
        out := Exchange(out, primary, secondary);
      }
      return;
    }
    out := out.(agreement := Agree);
  }

  function Exchange(out: Rate, p: Rate, s: Rate): Rate {
    out.(mid := s.mid, source := s.source, asOf := s.asOf,
         secondaryMid := p.mid, secondarySource := p.source, secondaryAsOf := p.asOf)
  }

  /** The one answer there is, with no sign of another. */
  function Alone(r: Rate): Rate {
    r.(secondaryMid := 0.0, secondarySource := "", secondaryAsOf := None, divergence := 0.0,
       diagnostic := None, agreement := if r.mid == 0.0 then Malfunction else Single)
  }

  method SingleSource(survivor: Rate) returns (out: Rate)
    ensures out == Alone(survivor)
  {
    out := survivor.(secondaryMid := 0.0, secondarySource := "", secondaryAsOf := None,
                     divergence := 0.0, diagnostic := None);
    if out.mid == 0.0 {
      out := out.(agreement := Malfunction);
      return;
    }
    out := out.(agreement := Single);
  }

  /** The third provider as configured: its name, and its answer. */
  datatype Third = Third(name: string, answer: Option<Rate>)

  function Attribution(p: Rate, s: Rate, third: Third): Diagnostic {
    if third.answer.None? then Diagnostic(third.name, 0.0, None, None, 0.0, 0.0, Unavailable)
    else
      var t := third.answer.value;
      if t.mid == 0.0 then Diagnostic(t.source, 0.0, None, None, 0.0, 0.0, ZeroMid)
      else
        var source := if t.source == "" then third.name else t.source;
        var pp, ss := PctApart(p.mid, t.mid), PctApart(s.mid, t.mid);
        if pp > ss then Diagnostic(source, t.mid, t.asOf, Some(p.source), pp, ss, Named)
        else if ss > pp then Diagnostic(source, t.mid, t.asOf, Some(s.source), ss, pp, Named)
        else Diagnostic(source, t.mid, t.asOf, None, pp, ss, Equidistant)
  }

  /** A rate that is written in place. */
  class RateCell {
    var rate: Rate

    constructor (rate: Rate)
      ensures this.rate == rate
    {
      this.rate := rate;
    }

    method AttributeDisagreement(primary: Rate, secondary: Rate, third: Third)
      modifies this
      ensures rate == old(rate).(diagnostic := Some(Attribution(primary, secondary, third)))
    {
      if third.answer.None? {
        rate := rate.(diagnostic := Some(Diagnostic(third.name, 0.0, None, None, 0.0, 0.0, Unavailable)));
        return;
      }
      var t := third.answer.value;
      if t.mid == 0.0 {
        rate := rate.(diagnostic := Some(Diagnostic(t.source, 0.0, None, None, 0.0, 0.0, ZeroMid)));
        return;
      }
      var source := t.source;
      if source == "" {
        source := third.name;
      }
      var primaryPct, secondaryPct := PctApart(primary.mid, t.mid), PctApart(secondary.mid, t.mid);
      var d := Diagnostic(source, t.mid, t.asOf, None, 0.0, 0.0, Named);
      if primaryPct > secondaryPct {
        d := d.(outlier := Some(primary.source), outlierDistance := primaryPct, otherDistance := secondaryPct);
      } else if secondaryPct > primaryPct {
        d := d.(outlier := Some(secondary.source), outlierDistance := secondaryPct, otherDistance := primaryPct);
      } else {
        d := d.(outlierDistance := primaryPct, otherDistance := secondaryPct, reason := Equidistant);
      }
      rate := rate.(diagnostic := Some(d));
    }
  }

  /** `Cross.Rate`, given what each configured provider answered. */
  method CrossRate(primary: Option<Rate>, hasSecondary: bool, secondary: Option<Rate>, diagnostic: Option<Third>)
    returns (out: Option<Rate>)
    ensures out == Crossed(primary, if hasSecondary then secondary else None, diagnostic)
  {
    if !hasSecondary {
      if primary.None? {
        return None;
      }
      var single := SingleSource(primary.value);
      return Some(single);
    }
    if primary.None? && secondary.None? {
      return None;
    }
    if primary.None? {
      var single := SingleSource(secondary.value);
      return Some(single);
    }
    if secondary.None? {
      var single := SingleSource(primary.value);
      return Some(single);
    }
    var both := Reconcile(primary.value, secondary.value);
    if both.agreement == Disagree && diagnostic.Some? {
      var cell := new RateCell(both);
      cell.AttributeDisagreement(primary.value, secondary.value, diagnostic.value);
      return Some(cell.rate);
    }
    return Some(both);
  }

  function Crossed(p: Option<Rate>, s: Option<Rate>, diagnostic: Option<Third>): Option<Rate> {
    match (p, s)
    case (None, None) => None
    case (Some(a), None) => Some(Alone(a))
    case (None, Some(b)) => Some(Alone(b))
    case (Some(a), Some(b)) =>
      var r := Reconciled(a, b);
      Some(if r.agreement == Disagree && diagnostic.Some? then r.(diagnostic := Some(Attribution(a, b, diagnostic.value)))
           else r)
  }

  // -------------------------------------------------------------- main results

  /** Times so far apart that a 64-bit duration cannot hold the gap. */
  predicate GapOverflows(p: Rate, s: Rate) {
    p.asOf.Some? && s.asOf.Some?
    && (p.asOf.value - s.asOf.value > MAX_DURATION || s.asOf.value - p.asOf.value > MAX_DURATION)
  }

  /** Which provider is primary makes no difference to whether and how far the two are
      said to agree, unless their as-of times are some 292 years apart and nothing
      settles the matter before the times are compared. */
  lemma AgreementIgnoresOrder(p: Rate, s: Rate)
    requires p.mid != 0.0 && s.mid != 0.0
    ensures Reconciled(p, s).divergence == Reconciled(s, p).divergence
    ensures Reconciled(p, s).agreement == Reconciled(s, p).agreement
       <==> !GapOverflows(p, s) || PctApart(p.mid, s.mid) > DIVERGENCE_MALFUNCTION
  {
  }

  /** Nor, when they disagree or one is stale, to which mid is scored against. */
  lemma ScoredIgnoresOrder(p: Rate, s: Rate)
    requires !GapOverflows(p, s) && AgreementOf(p, s) in {Disagree, Stale}
    ensures Scored(p, s) == Scored(s, p) && Unscored(p, s) == Unscored(s, p)
    ensures Reconciled(p, s).mid == Reconciled(s, p).mid && Reconciled(p, s).source == Reconciled(s, p).source
    ensures Reconciled(p, s).secondaryMid == Reconciled(s, p).secondaryMid
  {
  }

  /** The published divergence exceeds a percentage exactly when both mids are positive
      and the larger exceeds the smaller by more than that percentage of the smaller. */
  lemma DivergenceMeans(a: real, b: real, pct: real)
    requires a != 0.0 && b != 0.0 && pct >= 0.0
    ensures var lo, hi := if b < a then b else a, if b < a then a else b;
            PctApart(a, b) > pct <==> lo > 0.0 && hi * 100.0 > lo * (100.0 + pct)
  {
    var lo, hi := if b < a then b else a, if b < a then a else b;
    var d := (hi - lo) / lo * 100.0;
    assert d * lo == (hi - lo) * 100.0;
    if lo > 0.0 {
      Reals.Scale(lo, d, pct);
    } else {
      Opposite(d, lo);
    }
  }

  lemma Opposite(x: real, y: real)
    requires y < 0.0 && x * y >= 0.0
    ensures x <= 0.0
  {
  }

  /** On a disagreement the mid scored against is the conservative one: whatever was
      sent and received, the other mid would have shown no larger a loss and no
      worse a verdict. */
  lemma DisagreementIsScoredConservatively(p: Rate, s: Rate, sent: real, received: real, was: Scoring.Grade)
    requires AgreementOf(p, s) == Disagree && sent > 0.0 && received >= 0.0
    ensures var r := Reconciled(p, s);
            && 0.0 < r.secondaryMid < r.mid
            && var a, b := Scoring.GradeOf(sent, received, r.mid, was), Scoring.GradeOf(sent, received, r.secondaryMid, was);
               b.lossPct <= a.lossPct && b.verdict.Rank() <= a.verdict.Rank()
  {
    DivergenceMeans(p.mid, s.mid, DIVERGENCE_AGREE);
    var r := Reconciled(p, s);
    Scoring.LargerMidLosesMore(sent, received, r.secondaryMid, r.mid, was);
  }

  /** Nothing is averaged: mid, source and as-of time all come from one provider that
      answered, and those of the second, if any, from the other. */
  lemma NeverBlended(p: Option<Rate>, s: Option<Rate>, third: Option<Third>)
    requires p.Some? || s.Some?
    ensures var r := Crossed(p, s, third).value;
            exists a | a in {p, s} && a.Some? ::
              && (r.mid, r.source, r.asOf) == (a.value.mid, a.value.source, a.value.asOf)
              && (p.Some? && s.Some? ==>
                    var b := if a == p then s.value else p.value;
                    (r.secondaryMid, r.secondarySource, r.secondaryAsOf) == (b.mid, b.source, b.asOf))
  {
    if p.Some? && s.Some? {
      var a := Some(Scored(p.value, s.value));
      assert a in {p, s};
    }
  }

  /** The third provider decides nothing: without it everything but the diagnostic is
      the same, and it speaks only on a disagreement. */
  lemma DiagnosticDecidesNothing(p: Option<Rate>, s: Option<Rate>, third: Third)
    requires p.Some? || s.Some?
    ensures var r, bare := Crossed(p, s, Some(third)).value, Crossed(p, s, None).value;
            && r.(diagnostic := None) == bare
            && (r.diagnostic.Some? <==> r.agreement == Disagree)
  {
  }

  /** Which side it names does not depend on which is primary. */
  lemma AttributionIgnoresOrder(p: Rate, s: Rate, third: Third)
    ensures Attribution(p, s, third) == Attribution(s, p, third)
  {
  }

  /** And when the third mid is positive and not above the smaller of two that disagree,
      the one named is the one that was scored against. */
  lemma LowThirdNamesTheScored(p: Rate, s: Rate, third: Third)
    requires AgreementOf(p, s) == Disagree && third.answer.Some?
    requires 0.0 < third.answer.value.mid <= p.mid && third.answer.value.mid <= s.mid
    ensures Attribution(p, s, third).outlier == Some(Reconciled(p, s).source)
  {
    DivergenceMeans(p.mid, s.mid, DIVERGENCE_AGREE);
    FurtherAbove(third.answer.value.mid, Unscored(p, s).mid, Scored(p, s).mid);
  }

  function Times(a: real, b: real): real { a * b }

  /** What a third mid `t` names: below the geometric mean of the two positive mids the
      larger, above it the smaller, at it neither; and the smaller if it is negative. */
  function NamedBy(p: Rate, s: Rate, t: real): Option<string> {
    var larger, smaller := if p.mid > s.mid then p else s, if p.mid > s.mid then s else p;
    if p.mid == s.mid then None
    else if t > 0.0 && Times(t, t) < Times(p.mid, s.mid) then Some(larger.source)
    else if t > 0.0 && Times(t, t) == Times(p.mid, s.mid) then None
    else Some(smaller.source)
  }

  /** Which of two providers the third one names, for every mid it can have, and that it
      carries the third mid, its time and its source. */
  lemma ThirdNamesExactly(p: Rate, s: Rate, third: Third)
    requires p.mid > 0.0 && s.mid > 0.0 && third.answer.Some? && third.answer.value.mid != 0.0
    ensures var t, d := third.answer.value, Attribution(p, s, third);
            && d.mid == t.mid && d.asOf == t.asOf && d.source == (if t.source == "" then third.name else t.source)
            && d.outlier == NamedBy(p, s, t.mid)
            && (d.outlier.None? <==> d.reason == Equidistant)
  {
    var t := third.answer.value.mid;
    assert Times(p.mid, s.mid) == Times(s.mid, p.mid);
    hide PctApart, Times;
    if t > 0.0 {
      FurtherByMean(p.mid, s.mid, t);
      FurtherByMean(s.mid, p.mid, t);
    } else {
      FurtherBelow(p.mid, s.mid, t);
      FurtherBelow(s.mid, p.mid, t);
    }
  }

  lemma FurtherByMean(a: real, b: real, t: real)
    requires a > 0.0 && b > 0.0 && t > 0.0
    ensures PctApart(a, t) > PctApart(b, t) <==>
              (a > b && Times(t, t) < Times(a, b)) || (a < b && Times(t, t) > Times(a, b))
  {
    hide PctApart, Times;
    if t <= a && t <= b {
      FurtherAboveBoth(a, b, t);
      MeanAbove(a, b, t);
    } else if t >= a && t >= b {
      FurtherBelowBoth(a, b, t);
      MeanBelow(a, b, t);
    } else {
      FurtherBetween(a, b, t);
    }
  }

  lemma FurtherAboveBoth(a: real, b: real, t: real)
    requires 0.0 < t <= a && t <= b
    ensures PctApart(a, t) > PctApart(b, t) <==> a > b
  {
    FurtherMeans(a, b, t);
    TimesGrows(t, a, b);
    hide PctApart, Times;
    assert Max(a, t) == a && Max(b, t) == b && Min(a, t) == Min(b, t) == t;
  }

  lemma FurtherBelowBoth(a: real, b: real, t: real)
    requires 0.0 < a <= t && 0.0 < b <= t
    ensures PctApart(a, t) > PctApart(b, t) <==> a < b
  {
    FurtherMeans(a, b, t);
    TimesGrows(t, b, a);
    hide PctApart, Times;
    assert Min(a, t) == a && Min(b, t) == b && Max(a, t) == Max(b, t) == t;
  }

  lemma FurtherBetween(a: real, b: real, t: real)
    requires a > 0.0 && b > 0.0 && t > 0.0 && (a < t < b || b < t < a)
    ensures PctApart(a, t) > PctApart(b, t) <==> if a > b then Times(t, t) < Times(a, b) else Times(t, t) > Times(a, b)
  {
    FurtherMeans(a, b, t);
    TimesGrows(t, a, b);
    hide PctApart, Times;
    assert if a > b then Max(a, t) == a && Min(b, t) == b && Max(b, t) == Min(a, t) == t
           else Max(a, t) == Min(b, t) == t && Max(b, t) == b && Min(a, t) == a;
  }

  lemma TimesGrows(t: real, a: real, b: real)
    requires t > 0.0
    ensures Times(a, t) > Times(b, t) <==> a > b
    ensures Times(t, a) == Times(a, t) && Times(t, b) == Times(b, t) && Times(a, b) == Times(b, a)
  {
    Reals.Scale(t, a, b);
    assert t * a == a * t && t * b == b * t && a * b == b * a;
  }

  lemma MeanAbove(a: real, b: real, t: real)
    requires 0.0 < t <= a && t <= b
    ensures Times(t, t) <= Times(a, b) && (a != b ==> Times(t, t) < Times(a, b))
  {
    var x := b * t;
    Reals.Scale(t, t, b);
    Reals.Scale(t, b, t);
    assert x == t * b && t * t <= x && (t < b ==> t * t < x);
    Reals.Scale(b, t, a);
    Reals.Scale(b, a, t);
    assert x <= a * b && (t < a ==> x < a * b);
  }

  lemma MeanBelow(a: real, b: real, t: real)
    requires 0.0 < a <= t && 0.0 < b <= t
    ensures Times(a, b) <= Times(t, t) && (a != b ==> Times(a, b) < Times(t, t))
  {
    Reals.Scale(t, t, b);
    Reals.Scale(t, b, t);
    Reals.Scale(b, t, a);
    Reals.Scale(b, a, t);
    assert t * b == b * t;
  }

  lemma FurtherMeans(a: real, b: real, t: real)
    requires a > 0.0 && b > 0.0 && t > 0.0
    ensures PctApart(a, t) > PctApart(b, t) <==> Times(Max(a, t), Min(b, t)) > Times(Max(b, t), Min(a, t))
  {
    var l, m := Min(a, t), Min(b, t);
    var u, v := PctApart(a, t), PctApart(b, t);
    assert u * l == (Max(a, t) - l) * 100.0;
    assert v * m == (Max(b, t) - m) * 100.0;
    hide PctApart, Max, Min;
    var h, k := Max(a, t), Max(b, t);
    Reals.PositiveProduct(l, m);
    Reals.Scale(l * m, u, v);
    assert u * (l * m) == (u * l) * m;
    assert v * (l * m) == (v * m) * l;
  }

  lemma FurtherBelow(a: real, b: real, t: real)
    requires a > 0.0 && b > 0.0 && t < 0.0
    ensures PctApart(a, t) > PctApart(b, t) <==> a < b
  {
    var u, v := PctApart(a, t), PctApart(b, t);
    assert u * t == (a - t) * 100.0;
    assert v * t == (b - t) * 100.0;
    hide PctApart;
    Reals.Scale(-t, u, v);
    assert u * (-t) == -(u * t) && v * (-t) == -(v * t);
  }

  lemma FurtherAbove(t: real, a: real, b: real)
    requires 0.0 < t <= a < b
    ensures PctApart(a, t) < PctApart(b, t)
  {
    Reals.QuotientIsStrict(t, a - t, b - t);
  }

  /** What an uncorroborated rate keeps and what it forgets. It speaks for one provider
      only: two survivors that agree on their own figures come out the same, whatever
      cross-checks they carried before; the figures stay, it is never said to be
      corroborated, and it may be scored exactly when its mid is not zero. */
  lemma SurvivorSpeaksForItself(x: Rate, y: Rate)
    ensures (x.pair, x.mid, x.asOf, x.source, x.fetchedAt) == (y.pair, y.mid, y.asOf, y.source, y.fetchedAt)
       <==> Alone(x) == Alone(y)
    ensures Alone(x).agreement in {Single, Malfunction} && (Alone(x).Scorable() <==> x.mid != 0.0)
    ensures Alone(x).secondaryMid == 0.0 && Alone(x).secondarySource == "" && Alone(x).secondaryAsOf == None
            && Alone(x).divergence == 0.0 && Alone(x).diagnostic == None
  {
    if Alone(x) == Alone(y) {
      assert Alone(x).pair == x.pair && Alone(y).pair == y.pair;
    }
  }

  /** A survivor that is itself a composite loses its own verdict on its providers. A
      pair that may not be scored becomes scorable again exactly when its primary's mid
      is not zero: the two were too far apart, or the secondary's was zero. */
  lemma SurvivingCompositeForgets(p: Rate, s: Rate)
    ensures !Reconciled(p, s).Scorable() && Alone(Reconciled(p, s)).Scorable()
       <==> p.mid != 0.0 && (s.mid == 0.0 || PctApart(p.mid, s.mid) > DIVERGENCE_MALFUNCTION)
    ensures Reconciled(p, s).agreement in {Agree, Disagree, Stale} ==>
              Alone(Reconciled(p, s)) == Alone(Scored(p, s).(pair := p.pair, fetchedAt := p.fetchedAt))
  {
  }

  /** When the answer may be scored, and that its mid is then never zero. */
  lemma ScorableExactly(p: Option<Rate>, s: Option<Rate>, third: Option<Third>)
    requires p.Some? || s.Some?
    ensures var r := Crossed(p, s, third).value;
            && (r.Scorable() <==>
                  (p.Some? ==> p.value.mid != 0.0) && (s.Some? ==> s.value.mid != 0.0)
                  && (p.Some? && s.Some? ==> PctApart(p.value.mid, s.value.mid) <= DIVERGENCE_MALFUNCTION))
            && (r.Scorable() ==> r.mid != 0.0)
            && (r.agreement == Single ==> p.None? || s.None?)
  {
  }

  /** The time a rate was fetched stays the primary's when the other is scored. */
  lemma FetchTimeMatchesScored(p: Rate, s: Rate)
    ensures Reconciled(p, s).fetchedAt == Scored(p, s).fetchedAt <==> !Swaps(p, s) || p.fetchedAt == s.fetchedAt
  {
  }

  /** For instance when the larger mid was fetched an hour before the smaller. */
  lemma FetchTimeCanBeTheOthers()
    ensures exists p: Rate, s: Rate :: Reconciled(p, s).source == s.source != p.source
                                       && Reconciled(p, s).fetchedAt != s.fetchedAt
  {
    var p := Rate("USD/NGN", 100.0, Some(0), "a", 3_600_000_000_000, 0.0, "", None, 0.0, Single, None);
    var s := Rate("USD/NGN", 105.0, Some(0), "b", 0, 0.0, "", None, 0.0, Single, None);
    assert PctApart(100.0, 105.0) == 5.0;
    assert AgreementOf(p, s) == Disagree;
    assert Reconciled(p, s).source == s.source != p.source && Reconciled(p, s).fetchedAt != s.fetchedAt;
  }
}
