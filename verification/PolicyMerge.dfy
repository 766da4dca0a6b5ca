/** policy_source.py: merging a local override into the central policy, and how far the merge tightens. */
module PolicyMerge {
  import opened Sequences
  import opened Policy

  function Strictness(mode: Mode): nat { match mode case Advisory => 0 case ReviewOnly => 1 case Enforce => 2 }

  function Min(a: real, b: real): real { if b < a then b else a }

  // `merge_policies`; None is the ValidationError of the final model_validate.
  function Merge(central: Config, local: Option<Config>): Option<Config> {
    match local
    case None => Some(central)
    case Some(l) =>
      var strong := Min(central.thresholds.strong, l.thresholds.strong);
      var review := Min(central.thresholds.review, l.thresholds.review);
      var hold := if central.thresholds.hold.Some? then Some(strong) else None;
      var thresholds :- ValidateThresholds(Thresholds(strong, review, hold));
      Some(central.(
        mode := if Strictness(l.mode) > Strictness(central.mode) then l.mode else central.mode,
        allowHoldOverride := central.allowHoldOverride && l.allowHoldOverride,
        thresholds := thresholds,
        holdOn := central.holdOn + l.holdOn,
        reviewOn := central.reviewOn + l.reviewOn))
  }

  // The merge of valid policies is always valid, keeps strong above review, and each of its settings
  // is at least as strict as both policies'; settings the merge does not name are the central ones.
  lemma MergeTightensSettings(central: Config, local: Config)
    requires ValidConfig(central) && ValidConfig(local)
    ensures Merge(central, Some(local)).Some?
    ensures var m := Merge(central, Some(local)).value;
            && ValidConfig(m) && m.thresholds.strong > m.thresholds.review
            && (forall p :: p in [central, local] ==>
                  && m.thresholds.strong <= p.thresholds.strong && m.thresholds.review <= p.thresholds.review
                  && p.holdOn <= m.holdOn && p.reviewOn <= m.reviewOn
                  && Strictness(p.mode) <= Strictness(m.mode) && (m.allowHoldOverride ==> p.allowHoldOverride))
            && (central.allowHoldOverride && local.allowHoldOverride ==> m.allowHoldOverride)
            && m.thresholds.strong in {central.thresholds.strong, local.thresholds.strong}
            && m.thresholds.review in {central.thresholds.review, local.thresholds.review}
            && m.mode in {central.mode, local.mode}
            && m.holdOn <= central.holdOn + local.holdOn && m.reviewOn <= central.reviewOn + local.reviewOn
            && m.margin == central.margin && m.stability == central.stability
            && m.thresholds.hold == (if central.thresholds.hold.Some? then Some(m.thresholds.strong) else None)
    ensures Merge(central, None) == Some(central)
  {
  }

  // The merge of valid policies, without the validator in the way.
  lemma MergeValue(c: Config, l: Config)
    requires ValidConfig(c) && ValidConfig(l)
    ensures var strong := Min(c.thresholds.strong, l.thresholds.strong);
            Merge(c, Some(l)) == Some(c.(
              mode := if Strictness(l.mode) > Strictness(c.mode) then l.mode else c.mode,
              allowHoldOverride := c.allowHoldOverride && l.allowHoldOverride,
              thresholds := Thresholds(strong, Min(c.thresholds.review, l.thresholds.review),
                                       if c.thresholds.hold.Some? then Some(strong) else None),
              holdOn := c.holdOn + l.holdOn,
              reviewOn := c.reviewOn + l.reviewOn))
  {
  }

  // Merging is idempotent.
  lemma MergeIdempotent(central: Config, local: Config)
    requires ValidConfig(central) && ValidConfig(local)
    ensures Merge(central, Some(local)).Some?
    ensures var m := Merge(central, Some(local)).value; Merge(m, Some(local)) == Some(m)
  {
    MergeTightensSettings(central, local);
    var m := Merge(central, Some(local)).value;
    MergeValue(central, local);
    MergeValue(m, local);
    assert m.holdOn + local.holdOn == m.holdOn && m.reviewOn + local.reviewOn == m.reviewOn;
  }

  // The order in which overrides are applied does not matter.
  lemma MergeOrderIrrelevant(central: Config, a: Config, b: Config)
    requires ValidConfig(central) && ValidConfig(a) && ValidConfig(b)
    ensures Merge(central, Some(a)).Some? && Merge(central, Some(b)).Some?
    ensures Merge(Merge(central, Some(a)).value, Some(b)) == Merge(Merge(central, Some(b)).value, Some(a))
  {
    MergeTightensSettings(central, a);
    MergeTightensSettings(central, b);
    var ma, mb := Merge(central, Some(a)).value, Merge(central, Some(b)).value;
    MergeValue(central, a);
    MergeValue(central, b);
    MergeValue(ma, b);
    MergeValue(mb, a);
    assert ma.holdOn + b.holdOn == mb.holdOn + a.holdOn;
    assert ma.reviewOn + b.reviewOn == mb.reviewOn + a.reviewOn;
  }

  // The two openings in "local can only tighten".
  predicate ConfidenceInBand(central: Config, merged: Config, x: Inputs) {
    x.confidence.Some? && merged.thresholds.review <= x.confidence.value < central.thresholds.review
  }

  predicate ReviewRaisedToEnforce(central: Config, merged: Config) {
    central.mode == ReviewOnly && merged.mode == Enforce
  }

  // The decision is loosened exactly when nothing else asks for attention and one of the two openings applies.
  lemma LooseningExact(central: Config, local: Config, x: Inputs)
    requires ValidConfig(central) && ValidConfig(local)
    ensures Merge(central, Some(local)).Some?
    ensures var m := Merge(central, Some(local)).value;
            Rank(DecideOf(m, x)) < Rank(DecideOf(central, x)) <==>
              Quiet(m, x) && (ConfidenceInBand(central, m, x) || ReviewRaisedToEnforce(central, m))
    ensures var m := Merge(central, Some(local)).value;
            DecideOf(central, x) == HOLD ==> DecideOf(m, x) == HOLD
  {
    MergeTightensSettings(central, local);
    var m := Merge(central, Some(local)).value;
    if DecideOf(central, x) == HOLD {
      HoldSurvives(central, local, x);
    }
    AllowExact(central, x);
    AllowExact(m, x);
    assert ReviewLine(m) <= ReviewLine(central);
  }

  lemma HoldSurvives(central: Config, local: Config, x: Inputs)
    requires ValidConfig(central) && ValidConfig(local)
    requires DecideOf(central, x) == HOLD
    ensures Merge(central, Some(local)).Some? && DecideOf(Merge(central, Some(local)).value, x) == HOLD
  {
    MergeTightensSettings(central, local);
    var m := Merge(central, Some(local)).value;
    HoldExact(central, x);
    HoldExact(m, x);
    forall name | HeldBy(central, x, name) ensures HeldBy(m, x, name) {
      var signal :|
        signal in x.signals && MayHold(central, name, signal) && ClearsHoldLine(central, x.signals[signal]);
      assert MayHold(m, name, signal) && ClearsHoldLine(m, x.signals[signal]);
    }
  }

  // Over all inputs, the override only tightens decisions exactly when the two policies satisfy this:
  // the stricter mode is review, or the centre's is not and the override keeps its review threshold.
  predicate OnlyTightens(central: Config, local: Config) {
    var modes := {central.mode, local.mode};
    || (ReviewOnly in modes && Enforce !in modes)
    || (central.mode != ReviewOnly && central.thresholds.review <= local.thresholds.review)
  }

  const CALM := Inputs([], map[], Low, None, false)

  lemma TightenOnlyExact(central: Config, local: Config)
    requires ValidConfig(central) && ValidConfig(local)
    ensures Merge(central, Some(local)).Some?
    ensures var m := Merge(central, Some(local)).value;
            (forall x: Inputs :: Rank(DecideOf(central, x)) <= Rank(DecideOf(m, x))) <==> OnlyTightens(central, local)
  {
    MergeTightensSettings(central, local);
    var m := Merge(central, Some(local)).value;
    MergeValue(central, local);
    forall x: Inputs | OnlyTightens(central, local) ensures Rank(DecideOf(central, x)) <= Rank(DecideOf(m, x)) {
      LooseningExact(central, local, x);
    }
    if !OnlyTightens(central, local) {
      var x := CALM.(confidence := Some(m.thresholds.review));
      LooseningExact(central, local, x);
      LooseningExact(central, local, CALM);
      assert Rank(DecideOf(central, if central.mode == ReviewOnly then CALM else x))
             > Rank(DecideOf(m, if central.mode == ReviewOnly then CALM else x));
    }
  }

  // Execution under the merged policy implies execution under the central one, except exactly when a
  // review-only policy is raised to enforce.
  lemma ExecutionExact(central: Config, local: Config, x: Inputs)
    requires ValidConfig(central) && ValidConfig(local)
    ensures Merge(central, Some(local)).Some?
    ensures var m := Merge(central, Some(local)).value;
            && ExecutionAllowed(DecideOf(m, x), m.mode, x.degraded)
            && !ExecutionAllowed(DecideOf(central, x), central.mode, x.degraded)
            <==> ReviewRaisedToEnforce(central, m) && !x.degraded && DecideOf(m, x) != HOLD
  {
    MergeTightensSettings(central, local);
    LooseningExact(central, local, x);
    AllowExact(central, x);
    AllowExact(Merge(central, Some(local)).value, x);
  }

  // A default policy with a lower local review threshold: a confidence of 0.6 was REVIEW and becomes ALLOW.
  lemma BandExample()
    ensures var central := Config(Advisory, false, Thresholds(0.9, 0.7, None), {}, {}, Strict, 0.0);
            var local := central.(thresholds := Thresholds(0.9, 0.5, None));
            var x := CALM.(confidence := Some(0.6));
            && Merge(central, Some(local)).Some?
            && DecideOf(central, x) == REVIEW && DecideOf(Merge(central, Some(local)).value, x) == ALLOW
  {
    var central := Config(Advisory, false, Thresholds(0.9, 0.7, None), {}, {}, Strict, 0.0);
    var local := central.(thresholds := Thresholds(0.9, 0.5, None));
    var x := CALM.(confidence := Some(0.6));
    AllowExact(central, x);
    AllowExact(Merge(central, Some(local)).value, x);
    HoldExact(central, x);
  }
}
