/** policy_rollout.py: replaying an audit log under a baseline and a candidate policy. */
module PolicyRollout {
  import opened Sequences
  import opened Policy
  import opened PolicyMerge

  const MAX_EXAMPLES := 100

  // The three keys older entries lack.
  datatype Replay = Replay(risk: Level, degraded: bool, forcedReview: bool)

  datatype Entry = Entry(
    seqNo: int, eventType: Option<string>, actionSummary: string, replay: Option<Replay>,
    confidence: Option<real>, policyVersion: string, findings: seq<Finding>, signals: Signals, recorded: string)

  function Name(d: Decision): string { match d case ALLOW => "ALLOW" case REVIEW => "REVIEW" case HOLD => "HOLD" }

  // What becomes of one log line.
  datatype Outcome = Ignored | Legacy | PolicyMismatch | DecisionMismatch | Replayed(before: Decision, after: Decision)

  function ToInputs(e: Entry): Inputs
    requires e.replay.Some?
  {
    Inputs(e.findings, e.signals, e.replay.value.risk, e.confidence, e.replay.value.degraded)
  }

  function Forced(forced: bool, d: Decision): Decision { if forced && d != HOLD then REVIEW else d }

  function OutcomeOf(e: Entry, version: string, baseline: Config, candidate: Config): Outcome {
    if (e.eventType.Some? && e.eventType.value != "policy_decision") || e.actionSummary == "policy_reload" then Ignored
    else if e.replay.None? then Legacy
    else if e.policyVersion != version then PolicyMismatch
    else
      var before := Forced(e.replay.value.forcedReview, DecideOf(baseline, ToInputs(e)));
      if Name(before) != e.recorded then DecisionMismatch
      else Replayed(before, Forced(e.replay.value.forcedReview, DecideOf(candidate, ToInputs(e))))
  }

  function Outcomes(log: seq<Entry>, version: string, baseline: Config, candidate: Config): (os: seq<Outcome>)
    ensures |os| == |log|
    ensures forall i :: 0 <= i < |log| ==> os[i] == OutcomeOf(log[i], version, baseline, candidate)
  {
    seq(|log|, i requires 0 <= i < |log| => OutcomeOf(log[i], version, baseline, candidate))
  }

  function Tally(os: seq<Outcome>, o: Outcome): nat { multiset(os)[o] }

  predicate IsReplayed(o: Outcome) { o.Replayed? }

  predicate IsChange(o: Outcome) { o.Replayed? && o.before != o.after }

  function Replays(os: seq<Outcome>): nat {
    if os == [] then 0 else Replays(os[..|os| - 1]) + (if IsReplayed(os[|os| - 1]) then 1 else 0)
  }

  function Changes(os: seq<Outcome>): nat {
    if os == [] then 0 else Changes(os[..|os| - 1]) + (if IsChange(os[|os| - 1]) then 1 else 0)
  }

  datatype Example = Example(seqNo: int, before: Decision, after: Decision, action: string)

  // The changed entries, in log order.
  function Changed(log: seq<Entry>, os: seq<Outcome>): (es: seq<Example>)
    requires |log| == |os|
    ensures |es| == Changes(os)
  {
    if log == [] then []
    else
      var n := |log| - 1;
      var rest := Changed(log[..n], os[..n]);
      if IsChange(os[n]) then rest + [Example(log[n].seqNo, os[n].before, os[n].after, log[n].actionSummary)] else rest
  }

  datatype Report = Report(
    total: nat, replayed: nat, legacy: nat, policyMismatch: nat, decisionMismatch: nat,
    changes: map<(Decision, Decision), nat>, examples: seq<Example>, newAllows: nat, newHolds: nat)

  const LABELS := {(ALLOW, REVIEW), (ALLOW, HOLD), (REVIEW, ALLOW), (REVIEW, HOLD), (HOLD, ALLOW), (HOLD, REVIEW)}

  lemma LabelsCover(before: Decision, after: Decision)
    requires before != after
    ensures (before, after) in LABELS
  {
    match before
    case ALLOW =>
    case REVIEW =>
    case HOLD =>
  }

  // The report says what the outcomes of the log's entries add up to.
  ghost predicate ReportOn(r: Report, log: seq<Entry>, os: seq<Outcome>)
    requires |log| == |os|
  {
    && r.total == |os| - Tally(os, Ignored)
    && r.replayed == Replays(os)
    && r.legacy == Tally(os, Legacy)
    && r.policyMismatch == Tally(os, PolicyMismatch)
    && r.decisionMismatch == Tally(os, DecisionMismatch)
    && r.changes.Keys == LABELS
    && (forall l :: l in LABELS ==> r.changes[l] == Tally(os, Replayed(l.0, l.1)))
    && r.examples == Shown(Changed(log, os))
  }

  // One more outcome moves one counter.
  lemma TallyStep(os: seq<Outcome>, n: nat, o: Outcome)
    requires n < |os|
    ensures Tally(os[..n + 1], o) == Tally(os[..n], o) + (if os[n] == o then 1 else 0)
    ensures Replays(os[..n + 1]) == Replays(os[..n]) + (if IsReplayed(os[n]) then 1 else 0)
  {
    assert os[..n + 1] == os[..n] + [os[n]];
    assert os[..n + 1][..n] == os[..n];
  }

  lemma ChangedStep(log: seq<Entry>, os: seq<Outcome>, n: nat)
    requires |log| == |os| && n < |log|
    ensures Changed(log[..n + 1], os[..n + 1]) ==
            Changed(log[..n], os[..n]) +
            (if IsChange(os[n]) then [Example(log[n].seqNo, os[n].before, os[n].after, log[n].actionSummary)] else [])
  {
    assert log[..n + 1][..n] == log[..n] && os[..n + 1][..n] == os[..n];
  }

  // `simulate`: None is the ValueError for a log that does not verify or does not exist.
  method Simulate(log: Option<seq<Entry>>, chainValid: bool, version: string, baseline: Config, candidate: Config)
    returns (report: Option<Report>)
    ensures report.Some? <==> chainValid && log.Some?
    ensures report.Some? ==>
              && ReportOn(report.value, log.value, Outcomes(log.value, version, baseline, candidate))
              && report.value.newAllows == report.value.changes[(REVIEW, ALLOW)] + report.value.changes[(HOLD, ALLOW)]
              && report.value.newHolds == report.value.changes[(ALLOW, HOLD)] + report.value.changes[(REVIEW, HOLD)]
  {
    if !chainValid || log.None? {
      return None;
    }
    var entries := log.value;
    ghost var os := Outcomes(entries, version, baseline, candidate);
    var r := Report(0, 0, 0, 0, 0, map l | l in LABELS :: 0, [], 0, 0);
    for n := 0 to |entries|
      invariant ReportOn(r, entries[..n], os[..n])
    {
      BumpKeepsReport(r, entries, os, n);
      r := Count(r, entries[n], version, baseline, candidate);
    }
    assert entries[..|entries|] == entries && os[..|entries|] == os;
    return Some(r.(newAllows := r.changes[(REVIEW, ALLOW)] + r.changes[(HOLD, ALLOW)],
                   newHolds := r.changes[(ALLOW, HOLD)] + r.changes[(REVIEW, HOLD)]));
  }

  // The report after one more line.
  function Bump(r: Report, e: Entry, o: Outcome): Report
    requires r.changes.Keys == LABELS
  {
    match o
    case Ignored => r
    case Legacy => r.(total := r.total + 1, legacy := r.legacy + 1)
    case PolicyMismatch => r.(total := r.total + 1, policyMismatch := r.policyMismatch + 1)
    case DecisionMismatch => r.(total := r.total + 1, decisionMismatch := r.decisionMismatch + 1)
    case Replayed(before, after) =>
      var r' := r.(total := r.total + 1, replayed := r.replayed + 1);
      if before == after then r'
      else
        LabelsCover(before, after);
        r'.(changes := r.changes[(before, after) := r.changes[(before, after)] + 1],
            examples := if |r.examples| < MAX_EXAMPLES
              then r.examples + [Example(e.seqNo, before, after, e.actionSummary)] else r.examples)
  }

  lemma BumpCounts(r: Report, log: seq<Entry>, os: seq<Outcome>, n: nat)
    requires |log| == |os| && n < |log|
    requires ReportOn(r, log[..n], os[..n])
    ensures var r' := Bump(r, log[n], os[n]);
            && r'.total == n + 1 - Tally(os[..n + 1], Ignored)
            && r'.replayed == Replays(os[..n + 1])
            && r'.legacy == Tally(os[..n + 1], Legacy)
            && r'.policyMismatch == Tally(os[..n + 1], PolicyMismatch)
            && r'.decisionMismatch == Tally(os[..n + 1], DecisionMismatch)
  {
    TallyStep(os, n, Ignored);
    TallyStep(os, n, Legacy);
    TallyStep(os, n, PolicyMismatch);
    TallyStep(os, n, DecisionMismatch);
  }

  lemma BumpKeepsReport(r: Report, log: seq<Entry>, os: seq<Outcome>, n: nat)
    requires |log| == |os| && n < |log|
    requires ReportOn(r, log[..n], os[..n])
    ensures ReportOn(Bump(r, log[n], os[n]), log[..n + 1], os[..n + 1])
  {
    BumpCounts(r, log, os, n);
    BumpExamples(r, log, os, n);
    var r' := Bump(r, log[n], os[n]);
    forall l | l in LABELS ensures r'.changes[l] == Tally(os[..n + 1], Replayed(l.0, l.1)) {
      TallyStep(os, n, Replayed(l.0, l.1));
    }
  }

  function Shown(all: seq<Example>): seq<Example> { if |all| <= MAX_EXAMPLES then all else all[..MAX_EXAMPLES] }

  lemma BumpExamples(r: Report, log: seq<Entry>, os: seq<Outcome>, n: nat)
    requires |log| == |os| && n < |log|
    requires r.changes.Keys == LABELS && r.examples == Shown(Changed(log[..n], os[..n]))
    ensures Bump(r, log[n], os[n]).examples == Shown(Changed(log[..n + 1], os[..n + 1]))
  {
    ChangedStep(log, os, n);
  }

  // The body of the loop for one line.
  method Count(r: Report, entry: Entry, version: string, baseline: Config, candidate: Config) returns (r': Report)
    requires r.changes.Keys == LABELS
    ensures r' == Bump(r, entry, OutcomeOf(entry, version, baseline, candidate))
  {
    if (entry.eventType.Some? && entry.eventType.value != "policy_decision") || entry.actionSummary == "policy_reload" {
      return r;
    }
    r' := r.(total := r.total + 1);
    if entry.replay.None? {
      return r'.(legacy := r.legacy + 1);
    }
    if entry.policyVersion != version {
      return r'.(policyMismatch := r.policyMismatch + 1);
    }
    var before := DecideOf(baseline, ToInputs(entry));
    if entry.replay.value.forcedReview && before != HOLD {
      before := REVIEW;
    }
    if Name(before) != entry.recorded {
      return r'.(decisionMismatch := r.decisionMismatch + 1);
    }
    var after := DecideOf(candidate, ToInputs(entry));
    if entry.replay.value.forcedReview && after != HOLD {
      after := REVIEW;
    }
    r' := r'.(replayed := r.replayed + 1);
    if before != after {
      LabelsCover(before, after);
      r' := r'.(changes := r.changes[(before, after) := r.changes[(before, after)] + 1]);
      if |r.examples| < MAX_EXAMPLES {
        r' := r'.(examples := r.examples + [Example(entry.seqNo, before, after, entry.actionSummary)]);
      }
    }
  }

  // ----- Accounting -----

  lemma {:induction false} OutcomesPartition(os: seq<Outcome>)
    ensures |os| == Tally(os, Ignored) + Replays(os)
                    + Tally(os, Legacy) + Tally(os, PolicyMismatch) + Tally(os, DecisionMismatch)
  {
    if os != [] {
      var n := |os| - 1;
      OutcomesPartition(os[..n]);
      assert os[..n + 1] == os;
      TallyStep(os, n, Ignored);
      TallyStep(os, n, Legacy);
      TallyStep(os, n, PolicyMismatch);
      TallyStep(os, n, DecisionMismatch);
    }
  }

  lemma {:induction false} ChangesPartition(os: seq<Outcome>)
    ensures Changes(os) ==
            Tally(os, Replayed(ALLOW, REVIEW)) + Tally(os, Replayed(ALLOW, HOLD)) + Tally(os, Replayed(REVIEW, ALLOW))
            + Tally(os, Replayed(REVIEW, HOLD)) + Tally(os, Replayed(HOLD, ALLOW)) + Tally(os, Replayed(HOLD, REVIEW))
  {
    if os != [] {
      var n := |os| - 1;
      ChangesPartition(os[..n]);
      assert os[..n + 1] == os;
      forall o ensures Tally(os, o) == Tally(os[..n], o) + (if os[n] == o then 1 else 0) {
        TallyStep(os, n, o);
      }
    }
  }

  // Every counted line is accounted for once, and there are min(100, number of changes) examples.
  lemma ReportBalances(r: Report, log: seq<Entry>, os: seq<Outcome>)
    requires |log| == |os| && ReportOn(r, log, os)
    ensures r.total == r.replayed + r.legacy + r.policyMismatch + r.decisionMismatch
    ensures var changes := r.changes[(ALLOW, REVIEW)] + r.changes[(ALLOW, HOLD)] + r.changes[(REVIEW, ALLOW)]
                           + r.changes[(REVIEW, HOLD)] + r.changes[(HOLD, ALLOW)] + r.changes[(HOLD, REVIEW)];
            |r.examples| == if changes <= MAX_EXAMPLES then changes else MAX_EXAMPLES
  {
    OutcomesPartition(os);
    ChangesPartition(os);
  }

  // ----- What becomes of each line, in its own fields -----

  predicate Counted(e: Entry) {
    (e.eventType == None || e.eventType == Some("policy_decision")) && e.actionSummary != "policy_reload"
  }

  // What a policy says about the entry, a recorded forced review making every ALLOW a REVIEW.
  ghost predicate Says(policy: Config, e: Entry, d: Decision)
    requires e.replay.Some?
  {
    var x := Inputs(e.findings, e.signals, e.replay.value.risk, e.confidence, e.replay.value.degraded);
    match d
    case HOLD => DecideOf(policy, x) == HOLD
    case REVIEW => DecideOf(policy, x) == REVIEW || (DecideOf(policy, x) == ALLOW && e.replay.value.forcedReview)
    case ALLOW => DecideOf(policy, x) == ALLOW && !e.replay.value.forcedReview
  }

  predicate Recorded(e: Entry, d: Decision) {
    e.recorded == (match d case ALLOW => "ALLOW" case REVIEW => "REVIEW" case HOLD => "HOLD")
  }

  // A line is replayed exactly when it is a policy decision with its replay inputs, made under the
  // baseline's version, that the baseline still decides as recorded. Each other line has its one reason.
  lemma OutcomeExact(e: Entry, version: string, baseline: Config, candidate: Config)
    ensures var o := OutcomeOf(e, version, baseline, candidate);
            && (o == Ignored <==> !Counted(e))
            && (o == Legacy <==> Counted(e) && e.replay.None?)
            && (o == PolicyMismatch <==> Counted(e) && e.replay.Some? && e.policyVersion != version)
            && (forall before, after ::
                  o == Replayed(before, after) <==>
                    && Counted(e) && e.replay.Some? && e.policyVersion == version
                    && Says(baseline, e, before) && Recorded(e, before) && Says(candidate, e, after))
            && (o == DecisionMismatch <==>
                  && Counted(e) && e.replay.Some? && e.policyVersion == version
                  && !exists before :: Says(baseline, e, before) && Recorded(e, before))
  {
    if e.replay.Some? {
      var before := Forced(e.replay.value.forcedReview, DecideOf(baseline, ToInputs(e)));
      assert forall d :: Says(baseline, e, d) <==> d == before;
      assert forall d :: Says(candidate, e, d)
               <==> d == Forced(e.replay.value.forcedReview, DecideOf(candidate, ToInputs(e)));
    }
  }

  // Example k is a changed line: the shown ones are the first 100 changed lines in log order.
  lemma {:induction false} ChangedAt(log: seq<Entry>, os: seq<Outcome>, n: nat)
    requires |log| == |os| && n < |log| && IsChange(os[n])
    ensures var k := Changes(os[..n]);
            && k < |Changed(log, os)|
            && Changed(log, os)[k] == Example(log[n].seqNo, os[n].before, os[n].after, log[n].actionSummary)
    decreases |log|
  {
    var m := |log| - 1;
    if n < m {
      ChangedAt(log[..m], os[..m], n);
      assert os[..m][..n] == os[..n];
    }
  }

  // ----- Replaying under a merged candidate -----

  // A replayed entry that the merge turns from REVIEW to ALLOW.
  predicate Loosened(e: Entry, central: Config, merged: Config) {
    && e.replay.Some? && !e.replay.value.forcedReview
    && Quiet(merged, ToInputs(e))
    && (ConfidenceInBand(central, merged, ToInputs(e)) || ReviewRaisedToEnforce(central, merged))
  }

  lemma MergedOutcome(e: Entry, version: string, central: Config, local: Config)
    requires ValidConfig(central) && ValidConfig(local)
    ensures Merge(central, Some(local)).Some?
    ensures var m := Merge(central, Some(local)).value;
            var o := OutcomeOf(e, version, central, m);
            o.Replayed? ==> (Rank(o.before) <= Rank(o.after) || o == Replayed(REVIEW, ALLOW))
                            && (o == Replayed(REVIEW, ALLOW) <==> Loosened(e, central, m))
  {
    MergeTightensSettings(central, local);
    if e.replay.Some? {
      LooseningExact(central, local, ToInputs(e));
      AllowExact(central, ToInputs(e));
      AllowExact(Merge(central, Some(local)).value, ToInputs(e));
    }
  }

  // Some entry of the log is replayed and falls in one of the two openings.
  ghost predicate AnyLoosened(log: seq<Entry>, version: string, central: Config, merged: Config) {
    exists e :: e in log && OutcomeOf(e, version, central, merged).Replayed? && Loosened(e, central, merged)
  }

  // A merged candidate never weakens a HOLD, and a REVIEW becomes an ALLOW for exactly the replayed
  // entries that fall in one of the two openings.
  lemma MergedReplayNeverLoosens(log: seq<Entry>, version: string, central: Config, local: Config)
    requires ValidConfig(central) && ValidConfig(local)
    ensures Merge(central, Some(local)).Some?
    ensures var m := Merge(central, Some(local)).value; var os := Outcomes(log, version, central, m);
            && Tally(os, Replayed(HOLD, REVIEW)) == 0 && Tally(os, Replayed(HOLD, ALLOW)) == 0
            && (Tally(os, Replayed(REVIEW, ALLOW)) == 0 <==> !AnyLoosened(log, version, central, m))
  {
    MergeTightensSettings(central, local);
    var m := Merge(central, Some(local)).value;
    var os := Outcomes(log, version, central, m);
    forall i | 0 <= i < |os|
      ensures os[i] != Replayed(HOLD, REVIEW) && os[i] != Replayed(HOLD, ALLOW)
      ensures os[i] == Replayed(REVIEW, ALLOW) <==> os[i].Replayed? && Loosened(log[i], central, m)
    {
      MergedOutcome(log[i], version, central, local);
    }
    TallyZero(os, Replayed(HOLD, REVIEW));
    TallyZero(os, Replayed(HOLD, ALLOW));
    TallyZero(os, Replayed(REVIEW, ALLOW));
    if AnyLoosened(log, version, central, m) {
      var e :| e in log && OutcomeOf(e, version, central, m).Replayed? && Loosened(e, central, m);
      var i :| 0 <= i < |log| && log[i] == e;
      assert os[i] in os;
    }
  }

  // Simulating a merged candidate on any valid log reports no new allow exactly when no replayed entry
  // is in an opening.
  method SimulateMerged(log: seq<Entry>, version: string, central: Config, local: Config) returns (r: Report)
    requires ValidConfig(central) && ValidConfig(local)
    ensures Merge(central, Some(local)).Some?
    ensures r.total == r.replayed + r.legacy + r.policyMismatch + r.decisionMismatch
    ensures r.newAllows == 0 <==> !AnyLoosened(log, version, central, Merge(central, Some(local)).value)
  {
    MergeTightensSettings(central, local);
    var merged := Merge(central, Some(local)).value;
    var report := Simulate(Some(log), true, version, central, merged);
    r := report.value;
    MergedReplayNeverLoosens(log, version, central, local);
    ReportBalances(r, log, Outcomes(log, version, central, merged));
    assert (HOLD, ALLOW) in LABELS && (REVIEW, ALLOW) in LABELS;
  }

  lemma TallyZero(os: seq<Outcome>, o: Outcome)
    ensures Tally(os, o) == 0 <==> o !in os
  {
    assert o in multiset(os) <==> o in os;
  }
}
