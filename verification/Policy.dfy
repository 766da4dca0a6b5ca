/** policy.py: the deterministic decision over findings and semantic signals, and what execution it permits. */
module Policy {
  import opened Sequences

  datatype Decision = ALLOW | REVIEW | HOLD
  datatype Level = Low | Medium | High
  datatype Mode = Advisory | ReviewOnly | Enforce
  datatype StabilityMode = Strict | Conservative | Majority

  datatype Finding = Finding(check: string, triggered: bool, severity: Level, reasonCode: string, blocking: bool)

  datatype Thresholds = Thresholds(strong: real, review: real, hold: Option<real>)

  datatype Config = Config(
    mode: Mode, allowHoldOverride: bool, thresholds: Thresholds, holdOn: set<string>, reviewOn: set<string>,
    stability: StabilityMode, margin: real)

  type Signals = map<string, real>

  function Rank(d: Decision): nat { match d case ALLOW => 0 case REVIEW => 1 case HOLD => 2 }

  function LevelRank(l: Level): nat { match l case Low => 0 case Medium => 1 case High => 2 }

  // The threshold validator of config.py: `hold`, when given, becomes `strong`; None is the ValueError.
  function ValidateThresholds(t: Thresholds): Option<Thresholds> {
    var t' := if t.hold.Some? then t.(strong := t.hold.value) else t;
    if 0.0 <= t'.review <= 1.0 && 0.0 <= t'.strong <= 1.0 && t'.strong > t'.review then Some(t') else None
  }

  // Thresholds are accepted exactly when the one that holds, `hold` if given and else `strong`, is at most
  // one and above `review`, which is not negative; `hold` then takes the place of `strong`.
  lemma ThresholdsExact(t: Thresholds)
    ensures var line := if t.hold.Some? then t.hold.value else t.strong;
            ValidateThresholds(t) ==
              if 0.0 <= t.review < line <= 1.0 then Some(Thresholds(line, t.review, t.hold)) else None
  {
  }

  // What config.py's validators leave: thresholds already normalised, margin in range.
  predicate ValidConfig(cfg: Config) {
    ValidateThresholds(cfg.thresholds) == Some(cfg.thresholds) && 0.0 <= cfg.margin <= 0.5
  }

  function Max(a: real, b: real): real { if a >= b then a else b }

  function Get(signals: Signals, name: string): real { if name in signals then signals[name] else 0.0 }

  function Probability(signals: Signals, name: string): real {
    if name == "wrong_repo" then Max(Get(signals, name), Get(signals, "wrong_repo_semantic")) else Get(signals, name)
  }

  function Abs(x: real): real { if x < 0.0 then -x else x }

  predicate BoundaryMode(cfg: Config) { cfg.stability == Conservative && cfg.margin > 0.0 }

  predicate Near(cfg: Config, probability: real, threshold: real) { Abs(probability - threshold) <= cfg.margin }

  predicate Blocks(f: Finding) { f.triggered && f.blocking }

  predicate NeedsReview(f: Finding) { f.triggered && f.severity != Low }

  predicate SemanticHold(cfg: Config, signals: Signals, name: string) {
    var p := Probability(signals, name);
    p >= cfg.thresholds.strong && !(BoundaryMode(cfg) && Near(cfg, p, cfg.thresholds.strong))
  }

  predicate BoundaryUncertain(cfg: Config, p: real) {
    BoundaryMode(cfg) && (Near(cfg, p, cfg.thresholds.strong) || Near(cfg, p, cfg.thresholds.review))
  }

  predicate ReviewSignal(cfg: Config, name: string, p: real) {
    || cfg.thresholds.review <= p < cfg.thresholds.strong
    || (name in cfg.reviewOn && p >= cfg.thresholds.strong)
    || (p >= cfg.thresholds.strong && name !in cfg.holdOn)
  }

  // The inputs of one decision besides the policy.
  datatype Inputs = Inputs(findings: seq<Finding>, signals: Signals, risk: Level, confidence: Option<real>,
      degraded: bool)

  function DecideOf(cfg: Config, x: Inputs): Decision {
    if exists f :: f in x.findings && Blocks(f) then HOLD
    else if exists name :: name in cfg.holdOn && SemanticHold(cfg, x.signals, name) then HOLD
    else if
      || (exists f :: f in x.findings && NeedsReview(f))
      || (exists name :: name in x.signals && BoundaryUncertain(cfg, x.signals[name]))
      || (exists name :: name in x.signals && ReviewSignal(cfg, name, x.signals[name]))
      || x.risk != Low
      || (x.confidence.Some? && x.confidence.value < cfg.thresholds.review)
      || Get(x.signals, "human_review") >= cfg.thresholds.strong
      || cfg.mode == ReviewOnly
      || x.degraded
    then REVIEW
    else ALLOW
  }

  datatype Band = Between | Strong | StrongNonHold

  datatype Rule =
    | FindingRule(check: string, reasonCode: string)
    | BoundaryRule(name: string, atHold: bool)
    | HoldRule(name: string)
    | ReviewRule(name: string, band: Band)
    | RiskRule(level: Level)
    | ConfidenceRule
    | HumanReviewRule
    | ModeRule
    | DegradedRule

  // ----- Which rules trigger, as sets: their order is only text -----

  function RuleOf(f: Finding): Rule { FindingRule(f.check, f.reasonCode) }

  ghost function BlockingRules(findings: seq<Finding>): set<Rule> {
    set f | f in findings && Blocks(f) :: RuleOf(f)
  }

  ghost function AttentionRules(findings: seq<Finding>): set<Rule> {
    set f | f in findings && NeedsReview(f) :: RuleOf(f)
  }

  ghost function NearRules(cfg: Config, signals: Signals, names: set<string>): set<Rule> {
    set name | name in names && name in signals && BoundaryUncertain(cfg, signals[name])
      :: BoundaryRule(name, Near(cfg, signals[name], cfg.thresholds.strong))
  }

  ghost function SemanticHolds(cfg: Config, signals: Signals, names: set<string>): set<Rule> {
    set name | name in names && SemanticHold(cfg, signals, name) :: HoldRule(name)
  }

  function BandOf(cfg: Config, name: string, p: real): Band {
    if p < cfg.thresholds.strong then Between else if name in cfg.reviewOn then Strong else StrongNonHold
  }

  ghost function SignalRules(cfg: Config, signals: Signals, names: set<string>): set<Rule> {
    set name | name in names && name in signals && ReviewSignal(cfg, name, signals[name])
      :: ReviewRule(name, BandOf(cfg, name, signals[name]))
  }

  function When(condition: bool, rule: Rule): set<Rule> { if condition then {rule} else {} }

  // Everything else that asks for a review.
  function PlainRules(cfg: Config, x: Inputs): set<Rule> {
    When(x.risk != Low, RiskRule(x.risk))
    + When(x.confidence.Some? && x.confidence.value < cfg.thresholds.review, ConfidenceRule)
    + When(Get(x.signals, "human_review") >= cfg.thresholds.strong, HumanReviewRule)
    + When(cfg.mode == ReviewOnly, ModeRule)
    + When(x.degraded, DegradedRule)
  }

  ghost function TriggeredOf(cfg: Config, x: Inputs): set<Rule> {
    if BlockingRules(x.findings) != {} then
      BlockingRules(x.findings)
      + When(Probability(x.signals, "human_review") >= cfg.thresholds.strong, HumanReviewRule)
    else
      var uncertain := AttentionRules(x.findings) + NearRules(cfg, x.signals, x.signals.Keys);
      var holds := SemanticHolds(cfg, x.signals, cfg.holdOn);
      if holds != {} then uncertain + holds
      else uncertain + SignalRules(cfg, x.signals, x.signals.Keys) + PlainRules(cfg, x)
  }

  lemma FindingStep(findings: seq<Finding>, i: nat)
    requires i < |findings|
    ensures BlockingRules(findings[..i + 1])
            == BlockingRules(findings[..i]) + When(Blocks(findings[i]), RuleOf(findings[i]))
    ensures AttentionRules(findings[..i + 1])
            == AttentionRules(findings[..i]) + When(NeedsReview(findings[i]), RuleOf(findings[i]))
  {
    var last, done, more := findings[i], findings[..i], findings[..i + 1];
    assert more == done + [last];
    forall r ensures r in BlockingRules(more) <==> r in BlockingRules(done) + When(Blocks(last), RuleOf(last)) {
      assert forall f :: f in more <==> f in done || f == last;
    }
    forall r ensures r in AttentionRules(more) <==> r in AttentionRules(done) + When(NeedsReview(last), RuleOf(last)) {
      assert forall f :: f in more <==> f in done || f == last;
    }
  }

  lemma BlockingExact(findings: seq<Finding>)
    ensures BlockingRules(findings) == {} <==> !exists f :: f in findings && Blocks(f)
    ensures AttentionRules(findings) == {} <==> !exists f :: f in findings && NeedsReview(f)
  {
    assert forall f :: f in findings && Blocks(f) ==> RuleOf(f) in BlockingRules(findings);
    assert forall f :: f in findings && NeedsReview(f) ==> RuleOf(f) in AttentionRules(findings);
  }

  lemma NearExact(cfg: Config, signals: Signals)
    ensures NearRules(cfg, signals, signals.Keys) == {}
            <==> !exists name :: name in signals && BoundaryUncertain(cfg, signals[name])
  {
    forall name | name in signals && BoundaryUncertain(cfg, signals[name])
      ensures NearRules(cfg, signals, signals.Keys) != {}
    {
      var rule := BoundaryRule(name, Near(cfg, signals[name], cfg.thresholds.strong));
      assert rule in NearRules(cfg, signals, signals.Keys);
    }
  }

  lemma SignalsExact(cfg: Config, signals: Signals)
    ensures SemanticHolds(cfg, signals, cfg.holdOn) == {}
            <==> !exists name :: name in cfg.holdOn && SemanticHold(cfg, signals, name)
    ensures SignalRules(cfg, signals, signals.Keys) == {}
            <==> !exists name :: name in signals && ReviewSignal(cfg, name, signals[name])
  {
    assert forall name :: name in cfg.holdOn && SemanticHold(cfg, signals, name)
             ==> HoldRule(name) in SemanticHolds(cfg, signals, cfg.holdOn);
    forall name | name in signals && ReviewSignal(cfg, name, signals[name])
      ensures SignalRules(cfg, signals, signals.Keys) != {}
    {
      assert ReviewRule(name, BandOf(cfg, name, signals[name])) in SignalRules(cfg, signals, signals.Keys);
    }
  }

  // A decision is explained exactly when it is not ALLOW, and it is HOLD exactly when a blocking or a
  // hold_on rule is among the reasons.
  lemma TriggeredExact(cfg: Config, x: Inputs)
    ensures DecideOf(cfg, x) == ALLOW <==> TriggeredOf(cfg, x) == {}
    ensures DecideOf(cfg, x) == HOLD <==>
              BlockingRules(x.findings) != {} || SemanticHolds(cfg, x.signals, cfg.holdOn) != {}
  {
    BlockingExact(x.findings);
    NearExact(cfg, x.signals);
    SignalsExact(cfg, x.signals);
    PlainExact(cfg, x);
  }

  lemma PlainExact(cfg: Config, x: Inputs)
    ensures PlainRules(cfg, x) == {} <==>
              && x.risk == Low && !(x.confidence.Some? && x.confidence.value < cfg.thresholds.review)
              && !(Get(x.signals, "human_review") >= cfg.thresholds.strong) && cfg.mode != ReviewOnly && !x.degraded
  {
    assert x.risk != Low ==> RiskRule(x.risk) in PlainRules(cfg, x);
    assert x.confidence.Some? && x.confidence.value < cfg.thresholds.review ==> ConfidenceRule in PlainRules(cfg, x);
    assert Get(x.signals, "human_review") >= cfg.thresholds.strong ==> HumanReviewRule in PlainRules(cfg, x);
    assert cfg.mode == ReviewOnly ==> ModeRule in PlainRules(cfg, x);
    assert x.degraded ==> DegradedRule in PlainRules(cfg, x);
  }

  // ----- `decide`, with the loops that collect the triggered rules -----

  method Decide(cfg: Config, x: Inputs) returns (decision: Decision, triggered: set<Rule>)
    ensures decision == DecideOf(cfg, x)
    ensures triggered == TriggeredOf(cfg, x)
  {
    var strong, review := cfg.thresholds.strong, cfg.thresholds.review;
    TriggeredExact(cfg, x);
    triggered := CollectBlocking(x.findings);
    if triggered != {} {
      if Probability(x.signals, "human_review") >= strong {
        triggered := triggered + {HumanReviewRule};
      }
      return HOLD, triggered;
    }
    triggered := CollectAttention(x.findings);
    var uncertain := CollectNear(cfg, x.signals);
    triggered := triggered + uncertain;
    var holds := CollectHolds(cfg, x.signals);
    if holds != {} {
      return HOLD, triggered + holds;
    }
    var reviews := CollectSignals(cfg, x.signals);
    var plain := CollectPlain(cfg, x);
    triggered := triggered + reviews + plain;
    decision := if triggered != {} then REVIEW else ALLOW;
  }

  method CollectPlain(cfg: Config, x: Inputs) returns (triggered: set<Rule>)
    ensures triggered == PlainRules(cfg, x)
  {
    var strong, review := cfg.thresholds.strong, cfg.thresholds.review;
    triggered := {};
    if x.risk != Low {
      triggered := triggered + {RiskRule(x.risk)};
    }
    if x.confidence.Some? && x.confidence.value < review {
      triggered := triggered + {ConfidenceRule};
    }
    if Get(x.signals, "human_review") >= strong {
      triggered := triggered + {HumanReviewRule};
    }
    if cfg.mode == ReviewOnly {
      triggered := triggered + {ModeRule};
    }
    if x.degraded {
      triggered := triggered + {DegradedRule};
    }
  }

  method CollectBlocking(findings: seq<Finding>) returns (rules: set<Rule>)
    ensures rules == BlockingRules(findings)
  {
    rules := {};
    for i := 0 to |findings|
      invariant rules == BlockingRules(findings[..i])
    {
      FindingStep(findings, i);
      if findings[i].triggered && findings[i].blocking {
        rules := rules + {FindingRule(findings[i].check, findings[i].reasonCode)};
      }
    }
    assert findings[..|findings|] == findings;
  }

  method CollectAttention(findings: seq<Finding>) returns (rules: set<Rule>)
    ensures rules == AttentionRules(findings)
  {
    rules := {};
    for i := 0 to |findings|
      invariant rules == AttentionRules(findings[..i])
    {
      FindingStep(findings, i);
      if findings[i].triggered && findings[i].severity in {Medium, High} {
        rules := rules + {FindingRule(findings[i].check, findings[i].reasonCode)};
      }
    }
    assert findings[..|findings|] == findings;
  }

  method CollectNear(cfg: Config, signals: Signals) returns (rules: set<Rule>)
    ensures rules == NearRules(cfg, signals, signals.Keys)
  {
    rules := {};
    if !BoundaryMode(cfg) {
      return;
    }
    var rest, done := signals.Keys, {};
    while rest != {}
      invariant rest <= signals.Keys && done == signals.Keys - rest
      invariant rules == NearRules(cfg, signals, done)
    {
      var name :| name in rest;
      if Near(cfg, signals[name], cfg.thresholds.strong) {
        rules := rules + {BoundaryRule(name, true)};
      } else if Near(cfg, signals[name], cfg.thresholds.review) {
        rules := rules + {BoundaryRule(name, false)};
      }
      rest, done := rest - {name}, done + {name};
    }
  }

  method CollectHolds(cfg: Config, signals: Signals) returns (rules: set<Rule>)
    ensures rules == SemanticHolds(cfg, signals, cfg.holdOn)
  {
    rules := {};
    var rest, done := cfg.holdOn, {};
    while rest != {}
      invariant rest <= cfg.holdOn && done == cfg.holdOn - rest
      invariant rules == SemanticHolds(cfg, signals, done)
    {
      var name :| name in rest;
      var probability := Probability(signals, name);
      var nearHold := BoundaryMode(cfg) && Near(cfg, probability, cfg.thresholds.strong);
      if probability >= cfg.thresholds.strong && !nearHold {
        rules := rules + {HoldRule(name)};
      }
      rest, done := rest - {name}, done + {name};
    }
  }

  method CollectSignals(cfg: Config, signals: Signals) returns (rules: set<Rule>)
    ensures rules == SignalRules(cfg, signals, signals.Keys)
  {
    rules := {};
    var strong, review := cfg.thresholds.strong, cfg.thresholds.review;
    var rest, done := signals.Keys, {};
    while rest != {}
      invariant rest <= signals.Keys && done == signals.Keys - rest
      invariant rules == SignalRules(cfg, signals, done)
    {
      var name :| name in rest;
      var probability := signals[name];
      if review <= probability < strong {
        rules := rules + {ReviewRule(name, Between)};
      } else if name in cfg.reviewOn && probability >= strong {
        rules := rules + {ReviewRule(name, Strong)};
      } else if probability >= strong && name !in cfg.holdOn {
        rules := rules + {ReviewRule(name, StrongNonHold)};
      }
      rest, done := rest - {name}, done + {name};
    }
  }

  // ----- What the decision means -----

  // The level a signal must stay below, and the level a hold_on signal must clear.
  function ReviewLine(cfg: Config): real {
    if cfg.stability == Conservative && cfg.margin > 0.0 then cfg.thresholds.review - cfg.margin
    else cfg.thresholds.review
  }

  predicate ClearsHoldLine(cfg: Config, p: real) {
    if cfg.stability == Conservative && cfg.margin > 0.0 then p > cfg.thresholds.strong + cfg.margin
    else p >= cfg.thresholds.strong
  }

  predicate CalmInputs(cfg: Config, x: Inputs) {
    && (forall f :: f in x.findings && f.triggered ==> !f.blocking && f.severity == Low)
    && (forall name :: name in x.signals ==> x.signals[name] < ReviewLine(cfg))
    && x.risk == Low
    && !x.degraded
  }

  // Nothing in the inputs or the policy asks for attention.
  predicate Quiet(cfg: Config, x: Inputs) {
    && CalmInputs(cfg, x)
    && (x.confidence.Some? ==> x.confidence.value >= cfg.thresholds.review)
    && cfg.mode != ReviewOnly
  }

  lemma QuietSignals(cfg: Config, x: Inputs)
    requires ValidConfig(cfg)
    requires forall name :: name in x.signals ==> x.signals[name] < ReviewLine(cfg)
    ensures forall name :: !SemanticHold(cfg, x.signals, name)
    ensures forall name :: name in x.signals ==>
              !BoundaryUncertain(cfg, x.signals[name]) && !ReviewSignal(cfg, name, x.signals[name])
    ensures Get(x.signals, "human_review") < cfg.thresholds.strong
  {
    forall name ensures !SemanticHold(cfg, x.signals, name) {
      assert Get(x.signals, name) < cfg.thresholds.strong;
      assert Get(x.signals, "wrong_repo_semantic") < cfg.thresholds.strong;
    }
  }

  // A signal at or above the review line always costs the ALLOW.
  lemma LoudSignal(cfg: Config, x: Inputs, name: string)
    requires ValidConfig(cfg) && name in x.signals && x.signals[name] >= ReviewLine(cfg)
    ensures DecideOf(cfg, x) != ALLOW
  {
    var p := x.signals[name];
    if !BoundaryUncertain(cfg, p) && !ReviewSignal(cfg, name, p) {
      assert p >= cfg.thresholds.strong && name in cfg.holdOn;
      assert Probability(x.signals, name) >= p;
      assert SemanticHold(cfg, x.signals, name);
    }
  }

  // `decide` answers ALLOW exactly on quiet inputs.
  lemma AllowExact(cfg: Config, x: Inputs)
    requires ValidConfig(cfg)
    ensures DecideOf(cfg, x) == ALLOW <==> Quiet(cfg, x)
  {
    if Quiet(cfg, x) {
      QuietSignals(cfg, x);
    }
    if DecideOf(cfg, x) == ALLOW {
      forall name | name in x.signals ensures x.signals[name] < ReviewLine(cfg) {
        if x.signals[name] >= ReviewLine(cfg) {
          LoudSignal(cfg, x, name);
        }
      }
    }
  }

  ghost predicate Blocked(x: Inputs) { exists f :: f in x.findings && f.triggered && f.blocking }

  // A signal that can hold: one of hold_on, or the semantic reading of the wrong-repository signal.
  predicate MayHold(cfg: Config, name: string, signal: string) {
    name in cfg.holdOn && (signal == name || (name == "wrong_repo" && signal == "wrong_repo_semantic"))
  }

  ghost predicate HeldBy(cfg: Config, x: Inputs, name: string) {
    exists signal :: signal in x.signals && MayHold(cfg, name, signal) && ClearsHoldLine(cfg, x.signals[signal])
  }

  ghost predicate Held(cfg: Config, x: Inputs) { exists name :: HeldBy(cfg, x, name) }

  lemma HeldByExact(cfg: Config, x: Inputs, name: string)
    requires ValidConfig(cfg)
    ensures name in cfg.holdOn && SemanticHold(cfg, x.signals, name) <==> HeldBy(cfg, x, name)
  {
    assert SemanticHold(cfg, x.signals, name) <==> ClearsHoldLine(cfg, Probability(x.signals, name));
    assert !ClearsHoldLine(cfg, 0.0);
    if HeldBy(cfg, x, name) {
      var signal :| signal in x.signals && MayHold(cfg, name, signal) && ClearsHoldLine(cfg, x.signals[signal]);
      assert Probability(x.signals, name) >= x.signals[signal];
    } else {
      assert name in x.signals && name in cfg.holdOn ==> MayHold(cfg, name, name);
      assert name == "wrong_repo" && name in cfg.holdOn ==> MayHold(cfg, name, "wrong_repo_semantic");
    }
  }

  // It answers HOLD exactly on a triggered blocking finding or a hold_on signal past the hold line.
  lemma HoldExact(cfg: Config, x: Inputs)
    requires ValidConfig(cfg)
    ensures DecideOf(cfg, x) == HOLD <==> Blocked(x) || Held(cfg, x)
  {
    forall name ensures name in cfg.holdOn && SemanticHold(cfg, x.signals, name) <==> HeldBy(cfg, x, name) {
      HeldByExact(cfg, x, name);
    }
    assert (exists f :: f in x.findings && Blocks(f)) <==> Blocked(x);
  }

  // When a rule is among the reasons, in the fields of the inputs and the policy. A blocking finding
  // silences all other kinds but the human review, a held signal all but findings and boundaries.
  ghost predicate Triggers(cfg: Config, x: Inputs, rule: Rule) {
    var strong, review := cfg.thresholds.strong, cfg.thresholds.review;
    var free := !Blocked(x) && !Held(cfg, x);
    match rule
    case FindingRule(check, code) =>
      exists f :: f in x.findings && f.triggered && f.check == check && f.reasonCode == code
                  && (if Blocked(x) then f.blocking else f.severity in {Medium, High})
    case BoundaryRule(name, atHold) =>
      && !Blocked(x) && name in x.signals && cfg.stability == Conservative && cfg.margin > 0.0
      && (atHold <==> strong - cfg.margin <= x.signals[name] <= strong + cfg.margin)
      && (!atHold ==> review - cfg.margin <= x.signals[name] <= review + cfg.margin)
    case HoldRule(name) => !Blocked(x) && HeldBy(cfg, x, name)
    case ReviewRule(name, band) =>
      && free && name in x.signals
      && (match band
          case Between => review <= x.signals[name] < strong
          case Strong => x.signals[name] >= strong && name in cfg.reviewOn
          case StrongNonHold => x.signals[name] >= strong && name !in cfg.reviewOn && name !in cfg.holdOn)
    case RiskRule(level) => free && level == x.risk && level != Low
    case ConfidenceRule => free && x.confidence.Some? && x.confidence.value < review
    case HumanReviewRule =>
      !(Held(cfg, x) && !Blocked(x)) && "human_review" in x.signals && x.signals["human_review"] >= strong
    case ModeRule => free && cfg.mode == ReviewOnly
    case DegradedRule => free && x.degraded
  }

  lemma FindingMembers(findings: seq<Finding>, check: string, code: string)
    ensures FindingRule(check, code) in BlockingRules(findings) <==>
              exists f :: f in findings && f.triggered && f.check == check && f.reasonCode == code && f.blocking
    ensures FindingRule(check, code) in AttentionRules(findings) <==>
              exists f :: f in findings && f.triggered && f.check == check && f.reasonCode == code
                          && f.severity in {Medium, High}
  {
    forall f | f in findings && f.triggered && f.check == check && f.reasonCode == code
      ensures f.blocking ==> FindingRule(check, code) in BlockingRules(findings)
      ensures f.severity in {Medium, High} ==> FindingRule(check, code) in AttentionRules(findings)
    {
      assert RuleOf(f) == FindingRule(check, code);
    }
  }

  lemma NearMembers(cfg: Config, signals: Signals, name: string, atHold: bool)
    ensures BoundaryRule(name, atHold) in NearRules(cfg, signals, signals.Keys) <==>
              name in signals && BoundaryUncertain(cfg, signals[name])
              && atHold == Near(cfg, signals[name], cfg.thresholds.strong)
  {
  }

  lemma SignalMembers(cfg: Config, signals: Signals, name: string, band: Band)
    ensures ReviewRule(name, band) in SignalRules(cfg, signals, signals.Keys) <==>
              name in signals && ReviewSignal(cfg, name, signals[name]) && band == BandOf(cfg, name, signals[name])
  {
  }

  // The groups of reasons that are collected, by who silences them.
  lemma TriggeredGroups(cfg: Config, x: Inputs, rule: Rule)
    requires ValidConfig(cfg)
    ensures rule in TriggeredOf(cfg, x) <==>
              if Blocked(x) then
                rule in BlockingRules(x.findings)
                || (rule == HumanReviewRule && Get(x.signals, "human_review") >= cfg.thresholds.strong)
              else
                || rule in AttentionRules(x.findings) || rule in NearRules(cfg, x.signals, x.signals.Keys)
                || (if Held(cfg, x) then rule in SemanticHolds(cfg, x.signals, cfg.holdOn)
                    else rule in SignalRules(cfg, x.signals, x.signals.Keys) || rule in PlainRules(cfg, x))
  {
    BlockingExact(x.findings);
    SignalsExact(cfg, x.signals);
    forall name ensures name in cfg.holdOn && SemanticHold(cfg, x.signals, name) <==> HeldBy(cfg, x, name) {
      HeldByExact(cfg, x, name);
    }
    assert (exists f :: f in x.findings && Blocks(f)) <==> Blocked(x);
  }

  lemma PlainMembers(cfg: Config, x: Inputs, rule: Rule)
    requires ValidConfig(cfg)
    ensures rule in PlainRules(cfg, x) <==>
              || (rule == RiskRule(x.risk) && x.risk != Low)
              || (rule == ConfidenceRule && x.confidence.Some? && x.confidence.value < cfg.thresholds.review)
              || (rule == HumanReviewRule && "human_review" in x.signals
                  && x.signals["human_review"] >= cfg.thresholds.strong)
              || (rule == ModeRule && cfg.mode == ReviewOnly)
              || (rule == DegradedRule && x.degraded)
  {
  }

  // The reasons are exactly the rules that trigger.
  lemma RulesExact(cfg: Config, x: Inputs, rule: Rule)
    requires ValidConfig(cfg)
    ensures rule in TriggeredOf(cfg, x) <==> Triggers(cfg, x, rule)
  {
    TriggeredGroups(cfg, x, rule);
    PlainMembers(cfg, x, rule);
    match rule
    case FindingRule(check, code) => FindingMembers(x.findings, check, code);
    case BoundaryRule(name, atHold) => NearMembers(cfg, x.signals, name, atHold);
    case ReviewRule(name, band) => SignalMembers(cfg, x.signals, name, band);
    case HoldRule(name) => HeldByExact(cfg, x, name);
    case _ =>
  }

  // y raises no less concern than x on every input.
  ghost predicate AtLeastAsAlarming(x: Inputs, y: Inputs) {
    && (forall f :: f in x.findings ==> f in y.findings)
    && (forall name :: name in x.signals ==> name in y.signals && x.signals[name] <= y.signals[name])
    && LevelRank(x.risk) <= LevelRank(y.risk)
    && (x.confidence.Some? ==> y.confidence.Some? && y.confidence.value <= x.confidence.value)
    && (x.degraded ==> y.degraded)
  }

  lemma DecideMonotone(cfg: Config, x: Inputs, y: Inputs)
    requires ValidConfig(cfg) && AtLeastAsAlarming(x, y)
    ensures Rank(DecideOf(cfg, x)) <= Rank(DecideOf(cfg, y))
  {
    AllowExact(cfg, x);
    AllowExact(cfg, y);
    HoldExact(cfg, x);
    HoldExact(cfg, y);
    forall name | HeldBy(cfg, x, name) ensures HeldBy(cfg, y, name) {
      var signal :| signal in x.signals && MayHold(cfg, name, signal) && ClearsHoldLine(cfg, x.signals[signal]);
      assert ClearsHoldLine(cfg, y.signals[signal]);
    }
  }

  function ExecutionAllowed(decision: Decision, mode: Mode, degraded: bool): bool {
    if mode == Advisory then true
    else if degraded then false
    else if mode == ReviewOnly then decision == ALLOW
    else decision != HOLD
  }

  // What may run: in advisory mode anything; else nothing on a degraded judgement, in review mode only
  // what is allowed, in enforce mode all that is not held. Never more on a more severe decision.
  lemma ExecutionMeaning(decision: Decision, mode: Mode, degraded: bool)
    ensures ExecutionAllowed(decision, mode, degraded) <==>
              || mode == Advisory
              || (!degraded && Rank(decision) <= (if mode == Enforce then Rank(REVIEW) else Rank(ALLOW)))
    ensures forall d :: Rank(d) <= Rank(decision) && ExecutionAllowed(decision, mode, degraded)
              ==> ExecutionAllowed(d, mode, degraded)
  {
  }
}
