/** Totals of signed amounts (engine/src/money.rs:214-250): a left fold of saturating additions, and
    exactly when its result does not depend on the order of the amounts. */
module SignedTotals {
  import opened Prelude
  import opened Money

  function SumSignedFrom(total: i128, values: seq<i128>): i128
    decreases |values|
  {
    if values == [] then total else SumSignedFrom(SaturatingAddSigned(total, values[0]), values[1..])
  }

  function SumSigned(values: seq<i128>): i128 {
    SumSignedFrom(0, values)
  }

  function Gain(v: int): nat {
    if v > 0 then v else 0
  }

  function Loss(v: int): nat {
    if v < 0 then -v else 0
  }

  /** The true total of a measure of the amounts. */
  function Measure(f: int -> nat, values: seq<i128>): nat {
    if values == [] then 0 else f(values[0]) + Measure(f, values[1..])
  }

  function Gains(values: seq<i128>): nat {
    Measure(Gain, values)
  }

  function Losses(values: seq<i128>): nat {
    Measure(Loss, values)
  }

  lemma {:induction false} MeasureAppend(f: int -> nat, a: seq<i128>, b: seq<i128>)
    ensures Measure(f, a + b) == Measure(f, a) + Measure(f, b)
  {
    if a == [] {
      assert a + b == b;
    } else {
      assert (a + b)[1..] == a[1..] + b;
      MeasureAppend(f, a[1..], b);
    }
  }

  lemma {:induction false} MeasurePermutes(f: int -> nat, a: seq<i128>, b: seq<i128>)
    requires multiset(a) == multiset(b)
    ensures Measure(f, a) == Measure(f, b)
  {
    if a == [] {
      assert |multiset(b)| == 0;
    } else {
      assert a[0] in multiset(b);
      var i :| 0 <= i < |b| && b[i] == a[0];
      var before, after := b[..i], b[i + 1..];
      WithoutFirst(a, b, i);
      MeasurePermutes(f, a[1..], before + after);
      assert b == before + ([b[i]] + after);
      MeasureAppend(f, before, [b[i]] + after);
      MeasureAppend(f, before, after);
      MeasureAppend(f, [b[i]], after);
    }
  }

  lemma WithoutFirst(a: seq<i128>, b: seq<i128>, i: nat)
    requires multiset(a) == multiset(b) && a != [] && i < |b| && b[i] == a[0]
    ensures multiset(a[1..]) == multiset(b[..i] + b[i + 1..])
  {
    assert a == [a[0]] + a[1..];
    assert b == b[..i] + ([b[i]] + b[i + 1..]);
    assert multiset(a[1..]) == multiset(a) - multiset{a[0]};
    assert multiset(b[..i] + b[i + 1..]) == multiset(b) - multiset{a[0]};
  }

  lemma {:induction false} SumAppend(total: i128, a: seq<i128>, b: seq<i128>)
    ensures SumSignedFrom(total, a + b) == SumSignedFrom(SumSignedFrom(total, a), b)
    decreases |a|
  {
    if a == [] {
      assert a + b == b;
    } else {
      assert (a + b)[1..] == a[1..] + b;
      SumAppend(SaturatingAddSigned(total, a[0]), a[1..], b);
    }
  }

  /** As long as neither bound can be reached, the total is exact. */
  lemma {:induction false} SumIsExact(total: i128, values: seq<i128>)
    requires total + Gains(values) <= I128_MAX && total - Losses(values) >= I128_MIN
    ensures SumSignedFrom(total, values) == total + Gains(values) - Losses(values)
    decreases |values|
  {
    if values != [] { SumIsExact(SaturatingAddSigned(total, values[0]), values[1..]); }
  }

  /** Amounts of one sign clamp once, at their own bound. */
  lemma {:induction false} GainsClampOnce(total: i128, values: seq<i128>)
    requires Losses(values) == 0
    ensures SumSignedFrom(total, values) == Min(total + Gains(values), I128_MAX)
    decreases |values|
  {
    if values != [] { GainsClampOnce(SaturatingAddSigned(total, values[0]), values[1..]); }
  }

  lemma {:induction false} LossesClampOnce(total: i128, values: seq<i128>)
    requires Gains(values) == 0
    ensures SumSignedFrom(total, values) == Max(total - Losses(values), I128_MIN)
    decreases |values|
  {
    if values != [] { LossesClampOnce(SaturatingAddSigned(total, values[0]), values[1..]); }
  }

  /** The gains of a list, then its other amounts. */
  function Positives(values: seq<i128>): seq<i128> {
    if values == [] then [] else (if values[0] > 0 then [values[0]] else []) + Positives(values[1..])
  }

  function Others(values: seq<i128>): seq<i128> {
    if values == [] then [] else (if values[0] > 0 then [] else [values[0]]) + Others(values[1..])
  }

  lemma {:induction false} PartsPermute(values: seq<i128>)
    ensures multiset(Positives(values)) + multiset(Others(values)) == multiset(values)
  {
    if values != [] {
      PartsPermute(values[1..]);
      assert values == [values[0]] + values[1..];
    }
  }

  lemma {:induction false} PartsMeasure(values: seq<i128>)
    ensures Gains(Positives(values)) == Gains(values) && Losses(Positives(values)) == 0
    ensures Gains(Others(values)) == 0 && Losses(Others(values)) == Losses(values)
  {
    if values != [] {
      var v, rest := values[0], values[1..];
      PartsMeasure(rest);
      if v > 0 {
        assert Positives(values) == [v] + Positives(rest) && Others(values) == Others(rest);
        MeasureAppend(Gain, [v], Positives(rest));
        MeasureAppend(Loss, [v], Positives(rest));
      } else {
        assert Others(values) == [v] + Others(rest) && Positives(values) == Positives(rest);
        MeasureAppend(Gain, [v], Others(rest));
        MeasureAppend(Loss, [v], Others(rest));
      }
      hide Positives, Others;
    }
  }

  lemma Partitioned(values: seq<i128>)
    ensures multiset(Positives(values) + Others(values)) == multiset(values)
    ensures multiset(Others(values) + Positives(values)) == multiset(values)
  {
    PartsPermute(values);
    hide Positives, Others;
  }

  /** All gains first, and all losses first: the two extreme orders. */
  lemma ExtremeTotals(values: seq<i128>)
    ensures var p, m := Gains(values), Losses(values);
      && SumSigned(Positives(values) + Others(values)) == Max(Min(p, I128_MAX) as int - m, I128_MIN)
      && SumSigned(Others(values) + Positives(values)) == Min(Max(-(m as int), I128_MIN) + p, I128_MAX)
  {
    PartsMeasure(values);
    var gains, others := Positives(values), Others(values);
    SumAppend(0, gains, others);
    SumAppend(0, others, gains);
    GainsClampOnce(0, gains);
    LossesClampOnce(Min(Gains(values), I128_MAX), others);
    LossesClampOnce(0, others);
    GainsClampOnce(Max(-(Losses(values) as int), I128_MIN), gains);
    hide SumSignedFrom, Gains, Losses, Positives, Others;
  }

  ghost predicate TotalForgetsOrder(values: seq<i128>) {
    forall other: seq<i128> :: multiset(other) == multiset(values) ==> SumSigned(other) == SumSigned(values)
  }

  /** No gain can overflow where there are losses to bring it back, and no loss where there are gains. */
  predicate OneSidedOrInRange(values: seq<i128>) {
    && (Losses(values) == 0 || Gains(values) <= I128_MAX)
    && (Gains(values) == 0 || Losses(values) <= -I128_MIN)
  }

  lemma TotalIsDetermined(values: seq<i128>)
    requires OneSidedOrInRange(values)
    ensures SumSigned(values) == Max(Min(Gains(values) as int - Losses(values), I128_MAX), I128_MIN)
  {
    if Losses(values) == 0 {
      GainsClampOnce(0, values);
    } else if Gains(values) == 0 {
      LossesClampOnce(0, values);
    } else {
      SumIsExact(0, values);
    }
  }

  /** Exactly when a signed total is the same for every order of its amounts. */
  lemma SignedTotalForgetsOrderWhen(values: seq<i128>)
    ensures TotalForgetsOrder(values) <==> OneSidedOrInRange(values)
  {
    hide SumSigned, Measure;
    if OneSidedOrInRange(values) {
      TotalIsDetermined(values);
      forall other: seq<i128> | multiset(other) == multiset(values) ensures SumSigned(other) == SumSigned(values) {
        MeasurePermutes(Gain, values, other);
        MeasurePermutes(Loss, values, other);
        TotalIsDetermined(other);
      }
    } else {
      Partitioned(values);
      ExtremeTotals(values);
      hide Positives, Others, Gains, Losses;
      assert SumSigned(Positives(values) + Others(values)) != SumSigned(Others(values) + Positives(values));
    }
  }
}
