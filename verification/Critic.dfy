/** The critic loop: a confidence nudged by the evidence and clamped, again and again. */
module Critic {
  import opened Prelude

  /** A hypothesis, by its confidence and how much evidence speaks for and against it. */
  datatype Hypothesis = Hypothesis(statement: string, confidence: real, supporting: nat, contradicting: nat)

  datatype Result = Result(revised: Hypothesis, delta: real, verified: bool, cycles: nat)

  /** What one critique adds to the confidence; the evidence lists are never changed. */
  function Critique(h: Hypothesis): real {
    if h.contradicting > 0 then -(0.05 * h.contradicting as real)
    else if h.supporting > 0 then 0.02 * (if h.supporting < 3 then h.supporting else 3) as real
    else 0.0
  }

  function Clamp(c: real, floor: real, ceiling: real): real { Max(floor, Min(ceiling, c)) }

  predicate Evident(h: Hypothesis) { h.supporting > 0 || h.contradicting > 0 }

  /** How many cycles run: all of them with evidence, at most one without. */
  function Cycles(h: Hypothesis, maxCycles: int): nat {
    if maxCycles <= 0 then 0 else if Evident(h) then maxCycles else 1
  }

  /** The confidence after n clamped steps. */
  function Stepped(c: real, delta: real, floor: real, ceiling: real, n: nat): real {
    if n == 0 then c else Clamp(Stepped(c, delta, floor, ceiling, n - 1) + delta, floor, ceiling)
  }

  lemma CritiqueBites(h: Hypothesis)
    ensures h.contradicting > 0 ==> Critique(h) <= -0.05
    ensures h.contradicting == 0 && h.supporting > 0 ==> Critique(h) >= 0.02
    ensures !Evident(h) ==> Critique(h) == 0.0
  {}

  function Abs(x: real): real { if x < 0.0 then -x else x }

  method Falsify(h: Hypothesis, maxCycles: int, floor: real, ceiling: real) returns (r: Result)
    ensures r.cycles == Cycles(h, maxCycles)
    ensures r.cycles == if maxCycles <= 0 then 0 else if h.supporting == 0 && h.contradicting == 0 then 1 else maxCycles
    ensures r.revised == h.(confidence := Stepped(h.confidence, Critique(h), floor, ceiling, Cycles(h, maxCycles)))
    ensures r.delta == r.revised.confidence - h.confidence
    ensures r.verified <==> r.revised.confidence > h.confidence
  {
    var current, cycles := h, 0;
    while cycles < maxCycles
      invariant 0 <= cycles && (cycles <= maxCycles || cycles == 0)
      invariant current == h.(confidence := Stepped(h.confidence, Critique(h), floor, ceiling, cycles))
      invariant cycles > 0 ==> Evident(h)
    {
      var delta := Critique(current);
      current := current.(confidence := Max(floor, Min(ceiling, current.confidence + delta)));
      cycles := cycles + 1;
      if current.supporting == 0 && current.contradicting == 0 {
        break;
      }
      CritiqueBites(h);
      if Abs(delta) < 0.01 {
        break;
      }
    }
    r := Result(current, current.confidence - h.confidence, current.confidence > h.confidence, cycles);
  }

  // ---- The iterated clamp collapses ------------------------------------------

  /** n times delta, as repeated addition. */
  function Times(n: nat, delta: real): real { if n == 0 then 0.0 else Times(n - 1, delta) + delta }

  lemma Distribute(m: real, delta: real)
    ensures (m + 1.0) * delta == m * delta + delta
  {}

  lemma {:induction false} TimesIsProduct(n: nat, delta: real)
    ensures Times(n, delta) == n as real * delta
  {
    if n > 0 {
      TimesIsProduct(n - 1, delta);
      var m := (n - 1) as real;
      assert n as real == m + 1.0;
      Distribute(m, delta);
    }
  }

  lemma {:induction false} Sign(n: nat, delta: real)
    ensures delta >= 0.0 ==> Times(n, delta) >= 0.0
    ensures delta <= 0.0 ==> Times(n, delta) <= 0.0
  {
    if n > 0 {
      Sign(n - 1, delta);
    }
  }

  /** Two clamped moves in one direction are one. */
  lemma ClampTwice(c: real, first: real, second: real, floor: real, ceiling: real)
    requires floor <= c <= ceiling
    requires (first >= 0.0 && second >= 0.0) || (first <= 0.0 && second <= 0.0)
    ensures Clamp(Clamp(c + first, floor, ceiling) + second, floor, ceiling)
         == Clamp(c + first + second, floor, ceiling)
  {}

  /** Started in range, all steps collapse into one. */
  lemma {:induction false} SteppedFromWithin(c: real, delta: real, floor: real, ceiling: real, n: nat)
    requires floor <= c <= ceiling
    ensures Stepped(c, delta, floor, ceiling, n) == Clamp(c + Times(n, delta), floor, ceiling)
  {
    if n > 0 {
      SteppedFromWithin(c, delta, floor, ceiling, n - 1);
      Sign(n - 1, delta);
      ClampTwice(c, Times(n - 1, delta), delta, floor, ceiling);
    }
  }

  lemma {:induction false} SteppedShift(c: real, delta: real, floor: real, ceiling: real, n: nat)
    requires n > 0
    ensures Stepped(c, delta, floor, ceiling, n)
         == Stepped(Clamp(c + delta, floor, ceiling), delta, floor, ceiling, n - 1)
  {
    if n > 1 {
      SteppedShift(c, delta, floor, ceiling, n - 1);
    }
  }

  /** From a confidence in range, with evidence: clamp(c + maxCycles * delta). */
  lemma ClosedForm(h: Hypothesis, maxCycles: nat, floor: real, ceiling: real)
    requires Evident(h) && floor <= h.confidence <= ceiling
    ensures Stepped(h.confidence, Critique(h), floor, ceiling, Cycles(h, maxCycles))
         == Clamp(h.confidence + maxCycles as real * Critique(h), floor, ceiling)
  {
    SteppedFromWithin(h.confidence, Critique(h), floor, ceiling, maxCycles);
    TimesIsProduct(maxCycles, Critique(h));
  }

  /** From any confidence, once at least one cycle runs: the first step clamps, and the rest collapse
      into one. (A floor above the ceiling wins every clamp.) */
  lemma GeneralForm(c: real, delta: real, floor: real, ceiling: real, n: nat)
    requires n > 0
    ensures Stepped(c, delta, floor, ceiling, n)
         == Clamp(Clamp(c + delta, floor, ceiling) + Times(n - 1, delta), floor, ceiling)
  {
    if floor <= ceiling {
      SteppedShift(c, delta, floor, ceiling, n);
      SteppedFromWithin(Clamp(c + delta, floor, ceiling), delta, floor, ceiling, n - 1);
    } else {
      ClampInverted(Stepped(c, delta, floor, ceiling, n - 1) + delta, floor, ceiling);
      ClampInverted(Clamp(c + delta, floor, ceiling) + Times(n - 1, delta), floor, ceiling);
    }
  }

  lemma ClampInverted(x: real, floor: real, ceiling: real)
    requires floor > ceiling
    ensures Clamp(x, floor, ceiling) == floor
  {}

  // ---- When evidence moves the confidence the wrong way ----------------------

  function Outcome(h: Hypothesis, maxCycles: int, floor: real, ceiling: real): real {
    Stepped(h.confidence, Critique(h), floor, ceiling, Cycles(h, maxCycles))
  }

  /** With contradicting evidence a hypothesis comes out verified exactly when some cycle runs and its
      confidence began below the floor: the clamp lifts it. */
  lemma ContradictedVerifiedIff(h: Hypothesis, maxCycles: int, floor: real, ceiling: real)
    requires h.contradicting > 0
    ensures Outcome(h, maxCycles, floor, ceiling) > h.confidence <==> maxCycles >= 1 && h.confidence < floor
  {
    CritiqueBites(h);
    if maxCycles >= 1 {
      var d, n := Critique(h), Cycles(h, maxCycles);
      GeneralForm(h.confidence, d, floor, ceiling, n);
      Sign(n - 1, d);
    }
  }

  /** Support alone lowers the confidence exactly when some cycle runs and it began above the ceiling
      (and above the floor). */
  lemma SupportedLoweredIff(h: Hypothesis, maxCycles: int, floor: real, ceiling: real)
    requires h.supporting > 0 && h.contradicting == 0
    ensures Outcome(h, maxCycles, floor, ceiling) < h.confidence <==>
              maxCycles >= 1 && h.confidence > Max(floor, ceiling)
  {
    CritiqueBites(h);
    if maxCycles >= 1 {
      var d, n := Critique(h), Cycles(h, maxCycles);
      GeneralForm(h.confidence, d, floor, ceiling, n);
      Sign(n - 1, d);
    }
  }

  /** So, from a confidence in range, contradiction never verifies and support never lowers. */
  lemma InRangeEvidenceCounts(h: Hypothesis, maxCycles: int, floor: real, ceiling: real)
    requires floor <= h.confidence <= ceiling
    ensures h.contradicting > 0 ==> Outcome(h, maxCycles, floor, ceiling) <= h.confidence
    ensures h.contradicting == 0 ==> Outcome(h, maxCycles, floor, ceiling) >= h.confidence
  {
    if h.contradicting > 0 {
      ContradictedVerifiedIff(h, maxCycles, floor, ceiling);
    } else if h.supporting > 0 {
      SupportedLoweredIff(h, maxCycles, floor, ceiling);
    } else {
      CritiqueBites(h);
      assert Stepped(h.confidence, 0.0, floor, ceiling, 1)
          == Clamp(Stepped(h.confidence, 0.0, floor, ceiling, 0) + 0.0, floor, ceiling);
    }
  }

  lemma ClampDown(c: real, cycles: real, step: real, floor: real, ceiling: real)
    requires floor <= c <= ceiling && cycles >= 0.0 && step >= 0.0
    ensures Clamp(c + cycles * -step, floor, ceiling)
         == if c - cycles * step < floor then floor else c - cycles * step
  {
    assert cycles * -step == -(cycles * step);
    assert cycles * step >= 0.0;
  }

  lemma ClampUp(c: real, cycles: real, step: real, floor: real, ceiling: real)
    requires floor <= c <= ceiling && cycles >= 0.0 && step >= 0.0
    ensures Clamp(c + cycles * step, floor, ceiling)
         == if c + cycles * step > ceiling then ceiling else c + cycles * step
  {
    assert cycles * step >= 0.0;
  }

  lemma ClosedFormBy(h: Hypothesis, delta: real, maxCycles: nat, floor: real, ceiling: real)
    requires Evident(h) && floor <= h.confidence <= ceiling && Critique(h) == delta
    ensures Outcome(h, maxCycles, floor, ceiling) == Clamp(h.confidence + maxCycles as real * delta, floor, ceiling)
  {
    SteppedFromWithin(h.confidence, delta, floor, ceiling, maxCycles);
    TimesIsProduct(maxCycles, delta);
  }

  lemma LoweredBy(h: Hypothesis, step: real, maxCycles: nat, floor: real, ceiling: real)
    requires Evident(h) && floor <= h.confidence <= ceiling && step >= 0.0 && Critique(h) == -step
    ensures var lowered := h.confidence - maxCycles as real * step;
            Outcome(h, maxCycles, floor, ceiling) == if lowered < floor then floor else lowered
  {
    ClosedFormBy(h, -step, maxCycles, floor, ceiling);
    ClampDown(h.confidence, maxCycles as real, step, floor, ceiling);
  }

  lemma RaisedBy(h: Hypothesis, step: real, maxCycles: nat, floor: real, ceiling: real)
    requires Evident(h) && floor <= h.confidence <= ceiling && step >= 0.0 && Critique(h) == step
    ensures var raised := h.confidence + maxCycles as real * step;
            Outcome(h, maxCycles, floor, ceiling) == if raised > ceiling then ceiling else raised
  {
    ClosedFormBy(h, step, maxCycles, floor, ceiling);
    ClampUp(h.confidence, maxCycles as real, step, floor, ceiling);
  }

  /** What the loop answers from a confidence in range: each piece of contradicting evidence takes
      0.05 a cycle, down to the floor, whatever the support. */
  lemma ContradictedOutcome(h: Hypothesis, maxCycles: nat, floor: real, ceiling: real)
    requires floor <= h.confidence <= ceiling && h.contradicting > 0
    ensures var lowered := h.confidence - maxCycles as real * (0.05 * h.contradicting as real);
            Outcome(h, maxCycles, floor, ceiling) == if lowered < floor then floor else lowered
  {
    LoweredBy(h, 0.05 * h.contradicting as real, maxCycles, floor, ceiling);
  }

  /** Support alone adds 0.02 a cycle for each of at most three pieces, up to the ceiling. */
  lemma SupportedOutcome(h: Hypothesis, maxCycles: nat, floor: real, ceiling: real)
    requires floor <= h.confidence <= ceiling && h.contradicting == 0 && h.supporting > 0
    ensures var pieces := if h.supporting < 3 then h.supporting else 3;
            var raised := h.confidence + maxCycles as real * (0.02 * pieces as real);
            Outcome(h, maxCycles, floor, ceiling) == if raised > ceiling then ceiling else raised
  {
    RaisedBy(h, 0.02 * (if h.supporting < 3 then h.supporting else 3) as real, maxCycles, floor, ceiling);
  }

  /** And no evidence changes nothing. */
  lemma UnevidencedOutcome(h: Hypothesis, maxCycles: int, floor: real, ceiling: real)
    requires floor <= h.confidence <= ceiling && h.contradicting == 0 && h.supporting == 0
    ensures Outcome(h, maxCycles, floor, ceiling) == h.confidence
  {
    assert Stepped(h.confidence, 0.0, floor, ceiling, 1)
        == Clamp(Stepped(h.confidence, 0.0, floor, ceiling, 0) + 0.0, floor, ceiling);
  }

  /** A floor above the ceiling is the answer, from any confidence, once a cycle runs. */
  lemma FloorWins(h: Hypothesis, maxCycles: int, floor: real, ceiling: real)
    requires maxCycles >= 1 && floor > ceiling
    ensures Outcome(h, maxCycles, floor, ceiling) == floor
  {
    var d, n := Critique(h), Cycles(h, maxCycles);
    ClampInverted(Stepped(h.confidence, d, floor, ceiling, n - 1) + d, floor, ceiling);
  }
}
