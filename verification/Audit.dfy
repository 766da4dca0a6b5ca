/** audit.py: the hash-chained log, its two verifiers, its two writers, and writers that interleave. */
module Audit {
  import opened Sequences
  import opened Json

  const GENESIS := "0000000000000000000000000000000000000000000000000000000000000000"
  const DIGEST_CHARS := 64

  // What json.loads makes of a line. A ValueError other than a syntax error is, for instance, an
  // integer with too many digits.
  datatype Parse = Parsed(value: Json) | SyntaxError | OtherValueError

  // SHA-256 in hexadecimal, the canonical JSON text of a record, and json.dumps and json.loads of a line.
  datatype Crypto = Crypto(
    hash: string -> string, canonical: map<string, Json> -> string,
    dump: map<string, Json> -> string, load: string -> Parse)

  datatype Line = Line(terminated: bool, blank: bool, parse: Parse)

  function Data(line: Line): map<string, Json> {
    if line.parse.Parsed? && line.parse.value.JObj? then line.parse.value.fields else map[]
  }

  function Field(data: map<string, Json>, key: string): Json { if key in data then data[key] else JNull }

  function Payload(data: map<string, Json>): map<string, Json> { data - {"entry_hash", "decision_signature"} }

  function HashInput(c: Crypto, previous: string, data: map<string, Json>): string {
    previous + c.canonical(Payload(data))
  }

  function HashOf(c: Crypto, previous: string, data: map<string, Json>): string { c.hash(HashInput(c, previous, data)) }

  // ----- The reference: a valid chain -----

  predicate RecordOk(c: Crypto, line: Line, previous: string, n: nat) {
    var data := Data(line);
    && line.terminated && !line.blank
    && line.parse.Parsed? && line.parse.value.JObj?
    && Field(data, "seq") == JInt(n)
    && Field(data, "prev_hash") == JStr(previous)
    && Field(data, "entry_hash") == JStr(HashOf(c, previous, data))
  }

  // The hash after the first n records.
  function TipAt(c: Crypto, lines: seq<Line>, n: nat): string
    requires n <= |lines|
  {
    if n == 0 then GENESIS else HashOf(c, TipAt(c, lines, n - 1), Data(lines[n - 1]))
  }

  // The first n records form a chain.
  predicate ChainAt(c: Crypto, lines: seq<Line>, n: nat)
    requires n <= |lines|
  {
    n == 0 || (ChainAt(c, lines, n - 1) && RecordOk(c, lines[n - 1], TipAt(c, lines, n - 1), n))
  }

  function Tip(c: Crypto, lines: seq<Line>): string { TipAt(c, lines, |lines|) }

  predicate Chain(c: Crypto, lines: seq<Line>) { ChainAt(c, lines, |lines|) }

  lemma {:induction false} ChainPrefix(c: Crypto, lines: seq<Line>, i: nat, n: nat)
    requires i <= n <= |lines| && ChainAt(c, lines, n)
    ensures ChainAt(c, lines, i)
    decreases n - i
  {
    if i < n {
      ChainPrefix(c, lines, i, n - 1);
    }
  }

  // Records that come later change nothing before them.
  lemma {:induction false} ChainFrame(c: Crypto, a: seq<Line>, b: seq<Line>, n: nat)
    requires n <= |a| && n <= |b| && forall i :: 0 <= i < n ==> a[i] == b[i]
    ensures TipAt(c, a, n) == TipAt(c, b, n) && ChainAt(c, a, n) == ChainAt(c, b, n)
  {
    if n > 0 {
      ChainFrame(c, a, b, n - 1);
    }
  }

  // A good record extends a chain that is good so far; a bad one spoils the log.
  lemma ScanStep(c: Crypto, lines: seq<Line>, i: nat)
    requires i < |lines| && ChainAt(c, lines, i)
    ensures RecordOk(c, lines[i], TipAt(c, lines, i), i + 1) ==> ChainAt(c, lines, i + 1)
    ensures !RecordOk(c, lines[i], TipAt(c, lines, i), i + 1) ==> !Chain(c, lines)
  {
    if Chain(c, lines) {
      ChainPrefix(c, lines, i + 1, |lines|);
    }
  }

  // What the record in place i of a valid log is, given the hashes before and after it.
  ghost predicate IsRecord(c: Crypto, line: Line, i: nat, before: string, after: string) {
    && line.terminated && !line.blank && line.parse.Parsed? && line.parse.value.JObj?
    && var data := line.parse.value.fields;
       && {"seq", "prev_hash", "entry_hash"} <= data.Keys
       && data["seq"] == JInt(i + 1) && data["prev_hash"] == JStr(before) && data["entry_hash"] == JStr(after)
       && after == c.hash(before + c.canonical(data - {"entry_hash", "decision_signature"}))
  }

  ghost predicate IsHashChain(c: Crypto, lines: seq<Line>, hashes: seq<string>) {
    && |hashes| == |lines| + 1 && hashes[0] == GENESIS
    && forall i :: 0 <= i < |lines| ==> IsRecord(c, lines[i], i, hashes[i], hashes[i + 1])
  }

  function Tips(c: Crypto, lines: seq<Line>): (hashes: seq<string>)
    ensures |hashes| == |lines| + 1 && forall i :: 0 <= i <= |lines| ==> hashes[i] == TipAt(c, lines, i)
  {
    seq(|lines| + 1, i requires 0 <= i <= |lines| => TipAt(c, lines, i))
  }

  lemma {:induction false} HashesAreTips(c: Crypto, lines: seq<Line>, hashes: seq<string>, n: nat)
    requires IsHashChain(c, lines, hashes) && n <= |lines|
    ensures hashes[n] == TipAt(c, lines, n) && ChainAt(c, lines, n)
  {
    if n > 0 {
      HashesAreTips(c, lines, hashes, n - 1);
      assert IsRecord(c, lines[n - 1], n - 1, hashes[n - 1], hashes[n]);
    }
  }

  // A log is valid exactly when there are hashes from the genesis hash on, one after each record, such
  // that every record is a finished line, carries its number and the hashes before and after it, and the
  // hash after it is that of the one before it and the canonical text of all its other fields.
  lemma ChainExact(c: Crypto, lines: seq<Line>)
    ensures Chain(c, lines) <==> exists hashes :: IsHashChain(c, lines, hashes)
  {
    if Chain(c, lines) {
      var hashes := Tips(c, lines);
      forall i | 0 <= i < |lines| ensures IsRecord(c, lines[i], i, hashes[i], hashes[i + 1]) {
        ChainPrefix(c, lines, i + 1, |lines|);
      }
      assert IsHashChain(c, lines, hashes);
    }
    forall hashes | IsHashChain(c, lines, hashes) ensures Chain(c, lines) {
      HashesAreTips(c, lines, hashes, |lines|);
    }
  }

  // ----- The two verifiers -----

  // `_chain_tip`: the last hash and the next sequence number, or None where it refuses to append.
  method ChainTip(c: Crypto, lines: seq<Line>) returns (r: Option<(string, nat)>)
    ensures r == if Chain(c, lines) then Some((Tip(c, lines), |lines| + 1)) else None
  {
    var previous, n := GENESIS, 1;
    for i := 0 to |lines|
      invariant n == i + 1
      invariant ChainAt(c, lines, i) && previous == TipAt(c, lines, i)
    {
      ScanStep(c, lines, i);
      var line := lines[i];
      if !line.terminated || line.blank {
        return None;
      }
      if !line.parse.Parsed? {
        return None;
      }
      if !line.parse.value.JObj? || !Field(Data(line), "seq").JInt? {
        return None;
      }
      var data := Data(line);
      if Field(data, "seq") != JInt(n) || Field(data, "prev_hash") != JStr(previous) {
        return None;
      }
      var expected := c.hash(previous + c.canonical(Payload(data)));
      if Field(data, "entry_hash") != JStr(expected) {
        return None;
      }
      previous, n := expected, n + 1;
    }
    return Some((previous, n));
  }

  // Checks a decision signature over the expected hash; stands for base64 and Ed25519.
  type SignatureCheck = (string, Json) -> bool

  datatype Verdict = Intact(count: nat) | Broken | Raised

  ghost predicate SignatureOk(c: Crypto, lines: seq<Line>, check: SignatureCheck, i: nat)
    requires i < |lines|
  {
    var signature := Field(Data(lines[i]), "decision_signature");
    signature != JNull && check(HashOf(c, TipAt(c, lines, i), Data(lines[i])), signature)
  }

  ghost predicate AllSigned(c: Crypto, lines: seq<Line>, key: Key) {
    key.Loaded? ==> forall i :: 0 <= i < |lines| ==> SignatureOk(c, lines, key.check, i)
  }

  ghost predicate SignaturesOk(c: Crypto, lines: seq<Line>, signer: Option<SignatureCheck>) {
    SignedUpTo(c, lines, signer, |lines|)
  }

  ghost predicate SignedUpTo(c: Crypto, lines: seq<Line>, signer: Option<SignatureCheck>, n: nat)
    requires n <= |lines|
  {
    signer.Some? ==> forall i :: 0 <= i < n ==> SignatureOk(c, lines, signer.value, i)
  }

  datatype LineVerdict = Fine(expected: string) | BadLine | RaisingLine

  // The checks `verify` makes on one line before any signature.
  method CheckLine(c: Crypto, line: Line, previous: string, i: nat) returns (v: LineVerdict)
    ensures v.Fine? <==> RecordOk(c, line, previous, i + 1)
    ensures v.Fine? ==> v.expected == HashOf(c, previous, Data(line))
  {
    if !line.terminated || line.blank {
      return BadLine;
    }
    match line.parse {
      case SyntaxError => return BadLine;
      case OtherValueError => return RaisingLine;
      case Parsed(_) =>
    }
    if !line.parse.value.JObj? {
      return BadLine;
    }
    var data := Data(line);
    if !Field(data, "seq").JInt? || Field(data, "seq") != JInt(i + 1) {
      return BadLine;
    }
    if Field(data, "prev_hash") != JStr(previous) {
      return BadLine;
    }
    var expected := c.hash(previous + c.canonical(Payload(data)));
    if Field(data, "entry_hash") != JStr(expected) {
      return BadLine;
    }
    return Fine(expected);
  }

  // The public key argument of `verify`: absent, not loadable, or a check of signatures.
  datatype Key = NoKey | BadKey | Loaded(check: SignatureCheck)

  // `verify`: None for a log file that does not exist. Only a JSON syntax error is caught there.
  method Verify(c: Crypto, log: Option<seq<Line>>, key: Key) returns (v: Verdict)
    ensures log.None? ==> v == Intact(0)
    ensures log.Some? && key.BadKey? ==> v == Broken
    ensures log.Some? && !key.BadKey? ==>
              if Chain(c, log.value) && AllSigned(c, log.value, key) then v == Intact(|log.value|)
              else !v.Intact?
  {
    if log.None? {
      return Intact(0);
    }
    match key {
      case NoKey => v := VerifyLines(c, log.value, None);
      case BadKey => return Broken;
      case Loaded(check) => v := VerifyLines(c, log.value, Some(check));
    }
  }

  method VerifyLines(c: Crypto, lines: seq<Line>, signer: Option<SignatureCheck>) returns (v: Verdict)
    ensures Chain(c, lines) && SignaturesOk(c, lines, signer) ==> v == Intact(|lines|)
    ensures v.Intact? ==> Chain(c, lines) && SignaturesOk(c, lines, signer)
  {
    var previous := GENESIS;
    var count := 0;
    for i := 0 to |lines|
      invariant count == i
      invariant ChainAt(c, lines, i) && previous == TipAt(c, lines, i)
      invariant SignedUpTo(c, lines, signer, i)
    {
      ScanStep(c, lines, i);
      var checked := CheckSigned(c, lines, i, previous, signer);
      if !checked.Fine? {
        return if checked.RaisingLine? then Raised else Broken;
      }
      previous := checked.expected;
      count := count + 1;
    }
    return Intact(count);
  }

  // Both checks of one line.
  method CheckSigned(c: Crypto, lines: seq<Line>, i: nat, previous: string, signer: Option<SignatureCheck>)
    returns (v: LineVerdict)
    requires i < |lines| && previous == TipAt(c, lines, i)
    ensures v.Fine?
            <==> RecordOk(c, lines[i], previous, i + 1) && (signer.Some? ==> SignatureOk(c, lines, signer.value, i))
    ensures v.Fine? ==> v.expected == HashOf(c, previous, Data(lines[i]))
  {
    v := CheckLine(c, lines[i], previous, i);
    if v.Fine? {
      var good := CheckSignature(lines[i], v.expected, signer);
      if !good {
        v := BadLine;
      }
    }
  }

  method CheckSignature(line: Line, expected: string, signer: Option<SignatureCheck>) returns (good: bool)
    ensures good == (signer.Some? ==>
                       Field(Data(line), "decision_signature") != JNull
                       && signer.value(expected, Field(Data(line), "decision_signature")))
  {
    if signer.None? {
      return true;
    }
    var signature := Field(Data(line), "decision_signature");
    if signature == JNull {
      return false;
    }
    return signer.value(expected, signature);
  }

  // `_chain_tip` accepts exactly the logs unsigned `verify` accepts.
  method VerifiersAgree(c: Crypto, lines: seq<Line>) returns (appendable: bool, intact: bool)
    ensures appendable == intact
    ensures intact == Chain(c, lines)
  {
    var tip := ChainTip(c, lines);
    var verdict := Verify(c, Some(lines), NoKey);
    appendable, intact := tip.Some?, verdict.Intact?;
  }

  // ----- Entries -----

  datatype Draft =
    | PolicyDecision(timestamp: string, summary: string, findings: Json, signals: Json, decision: string,
                     version: string, replay: Option<Replay>, hookCorrelation: Option<Json>)
    | HumanOverride(timestamp: string, summary: string, version: string, identity: string, original: string,
                    justification: string)

  // The replay inputs, written only when a risk choice is given.
  datatype Replay = Replay(riskChoice: string, riskConfidence: Json, degraded: Json, forcedReview: Json)

  function HashDict(d: Draft, n: nat, previous: string): map<string, Json> {
    match d
    case HumanOverride(timestamp, summary, version, identity, original, justification) =>
      map["action_summary" := JStr(summary), "event_type" := JStr("human_override"), "identity" := JStr(identity),
          "justification" := JStr(justification), "original_decision" := JStr(original),
          "policy_version_hash" := JStr(version), "prev_hash" := JStr(previous), "seq" := JInt(n),
          "timestamp" := JStr(timestamp), "timestamp_utc" := JStr(timestamp)]
    case PolicyDecision(_, _, _, _, _, _, replay, hook) =>
      DecisionFields(d, n, previous) + ReplayFields(replay) + HookFields(hook)
  }

  function DecisionFields(d: Draft, n: nat, previous: string): map<string, Json>
    requires d.PolicyDecision?
  {
    map["seq" := JInt(n), "timestamp_utc" := JStr(d.timestamp), "action_summary" := JStr(d.summary),
        "hard_rule_findings" := d.findings, "jev_signals" := d.signals, "policy_decision" := JStr(d.decision),
        "policy_version_hash" := JStr(d.version), "prev_hash" := JStr(previous)]
  }

  function HookFields(hook: Option<Json>): map<string, Json> {
    if hook.Some? then map["hook_correlation" := hook.value] else map[]
  }

  function ReplayFields(replay: Option<Replay>): map<string, Json> {
    if replay.None? then map[]
    else
      map["risk_choice" := JStr(replay.value.riskChoice), "risk_confidence" := replay.value.riskConfidence,
          "degraded" := replay.value.degraded, "forced_review" := replay.value.forcedReview]
  }

  function EntryHash(c: Crypto, d: Draft, n: nat, previous: string): string {
    c.hash(previous + c.canonical(HashDict(d, n, previous)))
  }

  // `to_dict`
  function ToDict(c: Crypto, d: Draft, n: nat, previous: string, signature: Json): map<string, Json> {
    HashDict(d, n, previous)["entry_hash" := JStr(EntryHash(c, d, n, previous))]["decision_signature" := signature]
  }

  // The line written for an entry, as a reader finds it.
  function Written(c: Crypto, d: Draft, n: nat, previous: string, signature: Json): Line {
    Line(true, false, c.load(c.dump(ToDict(c, d, n, previous, signature))))
  }

  // The text of a record loads as an object with the same chain fields and a payload of the same
  // canonical text: asked only of records that are written.
  ghost predicate ReadsBack(c: Crypto, dict: map<string, Json>) {
    var parse := c.load(c.dump(dict));
    && parse.Parsed? && parse.value.JObj?
    && var data := parse.value.fields;
       && c.canonical(Payload(data)) == c.canonical(Payload(dict))
       && Field(data, "seq") == Field(dict, "seq") && Field(data, "prev_hash") == Field(dict, "prev_hash")
       && Field(data, "entry_hash") == Field(dict, "entry_hash")
  }

  // The fields the chain is made of: kept apart from all the others.
  const CHAIN_FIELDS := {"entry_hash", "decision_signature", "seq", "prev_hash"}

  lemma ReplayFieldsApart(replay: Option<Replay>)
    ensures ReplayFields(replay).Keys !! CHAIN_FIELDS
  {
  }

  lemma HashDictFields(d: Draft, n: nat, previous: string)
    ensures var dict := HashDict(d, n, previous);
            && "entry_hash" !in dict && "decision_signature" !in dict
            && "seq" in dict && dict["seq"] == JInt(n)
            && "prev_hash" in dict && dict["prev_hash"] == JStr(previous)
  {
    if d.PolicyDecision? {
      ReplayFieldsApart(d.replay);
      assert forall key :: key in CHAIN_FIELDS ==> key !in ReplayFields(d.replay) && key != "hook_correlation";
    }
  }

  // What the record of an entry says, field by field, besides its place in the chain.
  ghost predicate Says(dict: map<string, Json>, d: Draft) {
    && SaysCommon(dict, d)
    && match d
       case HumanOverride(timestamp, _, _, identity, original, justification) =>
         && Field(dict, "event_type") == JStr("human_override") && Field(dict, "timestamp") == JStr(timestamp)
         && Field(dict, "identity") == JStr(identity) && Field(dict, "original_decision") == JStr(original)
         && Field(dict, "justification") == JStr(justification)
       case PolicyDecision(_, _, findings, signals, decision, _, replay, hook) =>
         && SaysDecision(dict, findings, signals, decision)
         && SaysHook(dict, hook) && SaysReplay(dict, replay)
  }

  ghost predicate SaysCommon(dict: map<string, Json>, d: Draft) {
    && Field(dict, "timestamp_utc") == JStr(d.timestamp) && Field(dict, "action_summary") == JStr(d.summary)
    && Field(dict, "policy_version_hash") == JStr(d.version)
  }

  ghost predicate SaysDecision(dict: map<string, Json>, findings: Json, signals: Json, decision: string) {
    && "event_type" !in dict && Field(dict, "policy_decision") == JStr(decision)
    && Field(dict, "hard_rule_findings") == findings && Field(dict, "jev_signals") == signals
  }

  ghost predicate SaysHook(dict: map<string, Json>, hook: Option<Json>) {
    && ("hook_correlation" in dict <==> hook.Some?)
    && (hook.Some? ==> Field(dict, "hook_correlation") == hook.value)
  }

  ghost predicate SaysReplay(dict: map<string, Json>, replay: Option<Replay>) {
    && ("risk_choice" in dict <==> replay.Some?) && ("risk_confidence" in dict <==> replay.Some?)
    && ("degraded" in dict <==> replay.Some?) && ("forced_review" in dict <==> replay.Some?)
    && (replay.Some? ==>
          && Field(dict, "risk_choice") == JStr(replay.value.riskChoice)
          && Field(dict, "risk_confidence") == replay.value.riskConfidence
          && Field(dict, "degraded") == replay.value.degraded
          && Field(dict, "forced_review") == replay.value.forcedReview)
  }

  const REPLAY_KEYS := {"risk_choice", "risk_confidence", "degraded", "forced_review"}

  lemma ReplayKeys(replay: Option<Replay>)
    ensures ReplayFields(replay).Keys == (if replay.Some? then REPLAY_KEYS else {})
    ensures SaysReplay(ReplayFields(replay), replay)
  {
  }

  lemma OverrideSays(d: Draft, n: nat, previous: string)
    requires d.HumanOverride?
    ensures Says(HashDict(d, n, previous), d)
  {
  }

  lemma DecisionFieldsSay(d: Draft, n: nat, previous: string)
    requires d.PolicyDecision?
    ensures var own := DecisionFields(d, n, previous);
            && SaysDecision(own, d.findings, d.signals, d.decision) && SaysCommon(own, d)
  {
  }

  // Layers over a record that leave its own fields visible.
  lemma Layered(own: map<string, Json>, replay: map<string, Json>, hook: map<string, Json>, key: string)
    requires replay.Keys <= REPLAY_KEYS && hook.Keys <= {"hook_correlation"}
    requires own.Keys !! REPLAY_KEYS && "hook_correlation" !in own
    ensures var dict := own + replay + hook;
            var layer := if key in REPLAY_KEYS then replay else if key == "hook_correlation" then hook else own;
            (key in dict <==> key in layer) && Field(dict, key) == Field(layer, key)
  {
  }

  lemma DecisionKeys(d: Draft, n: nat, previous: string)
    requires d.PolicyDecision?
    ensures DecisionFields(d, n, previous).Keys !! REPLAY_KEYS && "hook_correlation" !in DecisionFields(d, n, previous)
  {
  }

  // Each field of the record is one of the decision's own, of the replay inputs or of the hook.
  ghost predicate ComesFrom(dict: map<string, Json>, layer: map<string, Json>, key: string) {
    (key in dict <==> key in layer) && Field(dict, key) == Field(layer, key)
  }

  lemma DecisionLayers(d: Draft, n: nat, previous: string)
    requires d.PolicyDecision?
    ensures var dict := HashDict(d, n, previous);
            && (forall key :: key in REPLAY_KEYS ==> ComesFrom(dict, ReplayFields(d.replay), key))
            && ComesFrom(dict, HookFields(d.hookCorrelation), "hook_correlation")
            && (forall key :: key !in REPLAY_KEYS && key != "hook_correlation" ==>
                  ComesFrom(dict, DecisionFields(d, n, previous), key))
  {
    ReplayKeys(d.replay);
    DecisionKeys(d, n, previous);
    forall key {
      Layered(DecisionFields(d, n, previous), ReplayFields(d.replay), HookFields(d.hookCorrelation), key);
    }
  }

  lemma DecisionSays(d: Draft, n: nat, previous: string)
    requires d.PolicyDecision?
    ensures Says(HashDict(d, n, previous), d)
  {
    var dict := HashDict(d, n, previous);
    DecisionLayers(d, n, previous);
    DecisionFieldsSay(d, n, previous);
    DecisionOwn(dict, DecisionFields(d, n, previous), d);
    ReplayKeys(d.replay);
    SameReplay(dict, ReplayFields(d.replay), d.replay);
  }

  lemma DecisionOwn(dict: map<string, Json>, own: map<string, Json>, d: Draft)
    requires d.PolicyDecision? && SaysDecision(own, d.findings, d.signals, d.decision) && SaysCommon(own, d)
    requires forall key :: key !in REPLAY_KEYS && key != "hook_correlation" ==> ComesFrom(dict, own, key)
    ensures SaysDecision(dict, d.findings, d.signals, d.decision) && SaysCommon(dict, d)
  {
    assert ComesFrom(dict, own, "event_type") && ComesFrom(dict, own, "policy_decision");
    assert ComesFrom(dict, own, "hard_rule_findings") && ComesFrom(dict, own, "jev_signals");
    assert ComesFrom(dict, own, "timestamp_utc") && ComesFrom(dict, own, "action_summary");
    assert ComesFrom(dict, own, "policy_version_hash");
  }

  lemma SameReplay(dict: map<string, Json>, layer: map<string, Json>, replay: Option<Replay>)
    requires SaysReplay(layer, replay) && forall key :: key in REPLAY_KEYS ==> ComesFrom(dict, layer, key)
    ensures SaysReplay(dict, replay)
  {
    assert ComesFrom(dict, layer, "risk_choice") && ComesFrom(dict, layer, "risk_confidence");
    assert ComesFrom(dict, layer, "degraded") && ComesFrom(dict, layer, "forced_review");
  }

  // The hashed record says what the entry is.
  lemma HashDictSays(d: Draft, n: nat, previous: string)
    ensures Says(HashDict(d, n, previous), d)
  {
    if d.PolicyDecision? {
      DecisionSays(d, n, previous);
    } else {
      OverrideSays(d, n, previous);
    }
  }

  // The stored record is the hashed one with the hash and the signature.
  lemma StoredSays(c: Crypto, d: Draft, n: nat, previous: string, signature: Json)
    ensures var dict := ToDict(c, d, n, previous, signature);
            && dict.Keys == HashDict(d, n, previous).Keys + {"entry_hash", "decision_signature"}
            && (forall key :: key in HashDict(d, n, previous) ==> dict[key] == HashDict(d, n, previous)[key])
            && Field(dict, "decision_signature") == signature
            && Field(dict, "entry_hash") == JStr(c.hash(previous + c.canonical(HashDict(d, n, previous))))
  {
    HashDictFields(d, n, previous);
  }

  // The hashed record tells entries apart: no two entries or places in the chain share one.
  lemma HashDictBinds(d: Draft, n: nat, previous: string, d': Draft, n': nat, previous': string)
    requires HashDict(d, n, previous) == HashDict(d', n', previous')
    ensures d == d' && n == n' && previous == previous'
  {
    var dict := HashDict(d, n, previous);
    HashDictSays(d, n, previous);
    HashDictSays(d', n', previous');
    HashDictFields(d, n, previous);
    HashDictFields(d', n', previous');
    SaysBinds(dict, d, d');
  }

  lemma SaysBinds(dict: map<string, Json>, d: Draft, d': Draft)
    requires Says(dict, d) && Says(dict, d')
    ensures d == d'
  {
  }

  lemma StoredFields(dict: map<string, Json>, entryHash: Json, signature: Json)
    requires "entry_hash" !in dict && "decision_signature" !in dict
    ensures Payload(dict["entry_hash" := entryHash]["decision_signature" := signature]) == dict
  {
  }

  // Either kind of entry re-hashes to its stored hash when read back.
  lemma ReadBack(c: Crypto, d: Draft, n: nat, previous: string, signature: Json)
    requires ReadsBack(c, ToDict(c, d, n, previous, signature))
    ensures Payload(ToDict(c, d, n, previous, signature)) == HashDict(d, n, previous)
    ensures RecordOk(c, Written(c, d, n, previous, signature), previous, n)
    ensures HashOf(c, previous, Data(Written(c, d, n, previous, signature))) == EntryHash(c, d, n, previous)
  {
    HashDictFields(d, n, previous);
    StoredFields(HashDict(d, n, previous), JStr(EntryHash(c, d, n, previous)), signature);
  }

  lemma AppendKeepsChain(c: Crypto, lines: seq<Line>, d: Draft, signature: Json)
    requires Chain(c, lines) && ReadsBack(c, ToDict(c, d, |lines| + 1, Tip(c, lines), signature))
    ensures var line := Written(c, d, |lines| + 1, Tip(c, lines), signature);
            Chain(c, lines + [line]) && Tip(c, lines + [line]) == EntryHash(c, d, |lines| + 1, Tip(c, lines))
  {
    ReadBack(c, d, |lines| + 1, Tip(c, lines), signature);
    ChainGrows(c, lines, Written(c, d, |lines| + 1, Tip(c, lines), signature));
  }

  lemma ChainGrows(c: Crypto, lines: seq<Line>, line: Line)
    requires Chain(c, lines) && RecordOk(c, line, Tip(c, lines), |lines| + 1)
    ensures Chain(c, lines + [line]) && Tip(c, lines + [line]) == HashOf(c, Tip(c, lines), Data(line))
  {
    ChainFrame(c, lines, lines + [line], |lines|);
  }

  class AuditLog {
    const crypto: Crypto
    var lines: seq<Line>

    constructor (crypto: Crypto)
      ensures lines == [] && this.crypto == crypto
    {
      this.crypto := crypto;
      lines := [];
    }

    // Both writers, inside the lock: an entry on a valid log, nothing on a damaged one.
    method Append(d: Draft, sign: string -> Json) returns (ok: bool)
      modifies this
      ensures ok == Chain(crypto, old(lines))
      ensures ok ==>
                var n, previous := |old(lines)| + 1, Tip(crypto, old(lines));
                var signature := sign(EntryHash(crypto, d, n, previous));
                && lines == old(lines) + [Written(crypto, d, n, previous, signature)]
                && (ReadsBack(crypto, ToDict(crypto, d, n, previous, signature)) ==> Chain(crypto, lines))
      ensures !ok ==> lines == old(lines)
    {
      var tip := ChainTip(crypto, lines);
      if tip.None? {
        return false;
      }
      var (previous, n) := tip.value;
      var signature := sign(EntryHash(crypto, d, n, previous));
      if ReadsBack(crypto, ToDict(crypto, d, n, previous, signature)) {
        AppendKeepsChain(crypto, lines, d, signature);
      }
      lines := lines + [Written(crypto, d, n, previous, signature)];
      return true;
    }
  }

  // ----- Tamper evidence -----

  function PayloadAt(lines: seq<Line>, i: nat): map<string, Json>
    requires i < |lines|
  {
    Payload(Data(lines[i]))
  }

  function InputAt(c: Crypto, lines: seq<Line>, i: nat): string
    requires i < |lines|
  {
    HashInput(c, TipAt(c, lines, i), Data(lines[i]))
  }

  // The texts hashed along a log.
  ghost function Hashed(c: Crypto, lines: seq<Line>): set<string> {
    set i | 0 <= i < |lines| :: InputAt(c, lines, i)
  }

  ghost predicate SamePayloads(a: seq<Line>, b: seq<Line>, n: nat)
    requires n <= |a| && n <= |b|
  {
    forall i :: 0 <= i < n ==> PayloadAt(a, i) == PayloadAt(b, i)
  }

  ghost predicate Collision(c: Crypto, a: seq<Line>, b: seq<Line>) {
    exists x, y :: x in Hashed(c, a) && y in Hashed(c, b) && x != y && c.hash(x) == c.hash(y)
  }

  ghost predicate HitsGenesis(c: Crypto, lines: seq<Line>) {
    exists x :: x in Hashed(c, lines) && c.hash(x) == GENESIS
  }

  // Hashes have one length, and the canonical text tells the payloads of the two logs apart.
  ghost predicate Faithful(c: Crypto, a: seq<Line>, b: seq<Line>) {
    && HashLength(c)
    && forall i, j :: 0 <= i < |a| && 0 <= j < |b| && c.canonical(PayloadAt(a, i)) == c.canonical(PayloadAt(b, j))
         ==> PayloadAt(a, i) == PayloadAt(b, j)
  }

  ghost predicate HashLength(c: Crypto) { forall x :: |c.hash(x)| == DIGEST_CHARS }

  lemma TipIsDigest(c: Crypto, lines: seq<Line>, n: nat)
    requires HashLength(c) && n <= |lines|
    ensures |TipAt(c, lines, n)| == DIGEST_CHARS
  {
  }

  // The previous hash has one length, so a hashed text splits in one way only.
  lemma SameInput(c: Crypto, a: seq<Line>, b: seq<Line>, i: nat, j: nat)
    requires Faithful(c, a, b) && i < |a| && j < |b| && InputAt(c, a, i) == InputAt(c, b, j)
    ensures TipAt(c, a, i) == TipAt(c, b, j) && PayloadAt(a, i) == PayloadAt(b, j)
  {
    TipIsDigest(c, a, i);
    TipIsDigest(c, b, j);
    var x, y := InputAt(c, a, i), InputAt(c, b, j);
    assert x[..DIGEST_CHARS] == TipAt(c, a, i) && y[..DIGEST_CHARS] == TipAt(c, b, j);
    assert x[DIGEST_CHARS..] == c.canonical(PayloadAt(a, i)) && y[DIGEST_CHARS..] == c.canonical(PayloadAt(b, j));
  }

  ghost predicate HashFails(c: Crypto, a: seq<Line>, b: seq<Line>) {
    Collision(c, a, b) || HitsGenesis(c, a) || HitsGenesis(c, b)
  }

  lemma {:induction false} SameTipAt(c: Crypto, a: seq<Line>, b: seq<Line>, n: nat, m: nat)
    requires Faithful(c, a, b) && n <= |a| && m <= |b| && TipAt(c, a, n) == TipAt(c, b, m)
    ensures (n == m && SamePayloads(a, b, n)) || HashFails(c, a, b)
  {
    if n == 0 && m > 0 {
      assert InputAt(c, b, m - 1) in Hashed(c, b) && c.hash(InputAt(c, b, m - 1)) == GENESIS;
    } else if n > 0 && m == 0 {
      assert InputAt(c, a, n - 1) in Hashed(c, a) && c.hash(InputAt(c, a, n - 1)) == GENESIS;
    } else if n > 0 {
      var x, y := InputAt(c, a, n - 1), InputAt(c, b, m - 1);
      assert x in Hashed(c, a) && y in Hashed(c, b) && c.hash(x) == c.hash(y);
      if x == y {
        SameInput(c, a, b, n - 1, m - 1);
        SameTipAt(c, a, b, n - 1, m - 1);
      }
    }
  }

  // Two logs that end in the same hash hold the same payloads in the same order, or the logs
  // themselves exhibit a hash collision or a preimage of the all-zero genesis hash.
  lemma SameTipSamePayloads(c: Crypto, a: seq<Line>, b: seq<Line>)
    requires Faithful(c, a, b) && Tip(c, a) == Tip(c, b)
    ensures (|a| == |b| && SamePayloads(a, b, |a|)) || Collision(c, a, b) || HitsGenesis(c, a) || HitsGenesis(c, b)
  {
    SameTipAt(c, a, b, |a|, |b|);
  }

  // A record of a valid log whose hashed fields are edited in place is noticed, unless the edit collides
  // under the hash: at the record itself while its stored hash is kept, and else at the one after it.
  lemma EditIsNoticed(c: Crypto, lines: seq<Line>, i: nat, edited: Line)
    requires Chain(c, lines) && i < |lines| && Chain(c, lines[i := edited])
    requires i + 1 < |lines| || Field(Data(edited), "entry_hash") == Field(Data(lines[i]), "entry_hash")
    requires c.canonical(Payload(Data(edited))) != c.canonical(Payload(Data(lines[i])))
    ensures var x, y := InputAt(c, lines, i), InputAt(c, lines[i := edited], i); x != y && c.hash(x) == c.hash(y)
  {
    var other := lines[i := edited];
    ChainFrame(c, lines, other, i);
    if i + 1 < |lines| {
      PrevIsTip(c, lines, i + 1);
      PrevIsTip(c, other, i + 1);
      assert other[i + 1] == lines[i + 1];
    } else {
      StoredIsTip(c, lines, i);
      StoredIsTip(c, other, i);
    }
    DifferentInputs(TipAt(c, lines, i), c.canonical(Payload(Data(lines[i]))), c.canonical(Payload(Data(edited))));
  }

  lemma PrevIsTip(c: Crypto, lines: seq<Line>, i: nat)
    requires Chain(c, lines) && i < |lines|
    ensures Field(Data(lines[i]), "prev_hash") == JStr(TipAt(c, lines, i))
  {
    ChainPrefix(c, lines, i + 1, |lines|);
  }

  lemma StoredIsTip(c: Crypto, lines: seq<Line>, i: nat)
    requires Chain(c, lines) && i < |lines|
    ensures Field(Data(lines[i]), "entry_hash") == JStr(TipAt(c, lines, i + 1))
  {
    ChainPrefix(c, lines, i + 1, |lines|);
  }

  lemma DifferentInputs(previous: string, a: string, b: string)
    requires a != b
    ensures previous + a != previous + b
  {
    assert (previous + a)[|previous|..] == a && (previous + b)[|previous|..] == b;
  }

  // ----- Interleaved writers -----

  datatype Phase = Idle | Locked | HasTip(previous: string, n: nat) | Refused | Appended

  // The log file, who holds the exclusive lock, and where each writer is.
  datatype World = World(lines: seq<Line>, holder: Option<nat>, phases: map<nat, Phase>) {
    function PhaseOf(w: nat): Phase { if w in phases then phases[w] else Idle }
  }

  datatype Event =
    | Acquire(w: nat)
    | ReadTip(w: nat)
    | Write(w: nat, draft: Draft, signature: Json)
    | Release(w: nat)

  // One step of one writer; None when the step is not possible there.
  function Apply(c: Crypto, s: World, e: Event): Option<World> {
    match e
    case Acquire(w) =>
      if s.holder.Some? || s.PhaseOf(w) != Idle then None
      else Some(s.(holder := Some(w), phases := s.phases[w := Locked]))
    case ReadTip(w) =>
      if s.PhaseOf(w) != Locked then None
      else
        var next := if Chain(c, s.lines) then HasTip(Tip(c, s.lines), |s.lines| + 1) else Refused;
        Some(s.(phases := s.phases[w := next]))
    case Write(w, draft, signature) =>
      if !s.PhaseOf(w).HasTip? then None
      else
        var tip := s.PhaseOf(w);
        Some(s.(lines := s.lines + [Written(c, draft, tip.n, tip.previous, signature)],
            phases := s.phases[w := Appended]))
    // Also after a step of the writer has raised.
    case Release(w) =>
      if s.PhaseOf(w).Idle? then None
      else Some(s.(holder := None, phases := s.phases[w := Idle]))
  }

  function Start(lines: seq<Line>): World { World(lines, None, map[]) }

  function RunFrom(c: Crypto, s: World, events: seq<Event>): World {
    if events == [] then s
    else
      var before := RunFrom(c, s, events[..|events| - 1]);
      var after := Apply(c, before, events[|events| - 1]);
      if after.Some? then after.value else before
  }

  ghost predicate Good(c: Crypto, s: World) {
    && (forall w: nat :: s.PhaseOf(w) != Idle ==> s.holder == Some(w))
    && (forall w: nat :: s.PhaseOf(w).HasTip? ==>
          Chain(c, s.lines) && s.PhaseOf(w).previous == Tip(c, s.lines) && s.PhaseOf(w).n == |s.lines| + 1)
  }

  ghost predicate WriteReadsBack(c: Crypto, e: Event) {
    e.Write? ==> forall n: nat, previous: string :: ReadsBack(c, ToDict(c, e.draft, n, previous, e.signature))
  }

  // One step keeps the lock discipline and adds at most one chained entry, and none to a damaged log.
  lemma StepKeepsGood(c: Crypto, s: World, e: Event)
    requires Good(c, s) && WriteReadsBack(c, e) && Apply(c, s, e).Some?
    ensures var s' := Apply(c, s, e).value;
            && Good(c, s')
            && (if e.Write? then Chain(c, s.lines) && Chain(c, s'.lines) && s.lines < s'.lines
                && |s'.lines| == |s.lines| + 1
                else s'.lines == s.lines)
  {
    if e.Write? {
      WriteKeepsGood(c, s, e);
    }
  }

  lemma WriteKeepsGood(c: Crypto, s: World, e: Event)
    requires Good(c, s) && e.Write? && WriteReadsBack(c, e) && Apply(c, s, e).Some?
    ensures var s' := Apply(c, s, e).value;
            Good(c, s') && Chain(c, s.lines) && Chain(c, s'.lines) && s.lines < s'.lines && |s'.lines| == |s.lines| + 1
  {
    var line := WriteAdds(c, s, e);
    EntryKeepsGood(c, s, line, e.w);
  }

  lemma WriteAdds(c: Crypto, s: World, e: Event) returns (line: Line)
    requires Good(c, s) && e.Write? && WriteReadsBack(c, e) && Apply(c, s, e).Some?
    ensures s.PhaseOf(e.w).HasTip? && Chain(c, s.lines) && Chain(c, s.lines + [line])
    ensures Apply(c, s, e).value == s.(lines := s.lines + [line], phases := s.phases[e.w := Appended])
  {
    assert s.PhaseOf(e.w).previous == Tip(c, s.lines);
    WriteGrows(c, s.lines, e);
    line := Written(c, e.draft, |s.lines| + 1, Tip(c, s.lines), e.signature);
  }

  lemma EntryKeepsGood(c: Crypto, s: World, line: Line, w: nat)
    requires Good(c, s) && s.PhaseOf(w).HasTip? && Chain(c, s.lines + [line])
    ensures Good(c, s.(lines := s.lines + [line], phases := s.phases[w := Appended]))
  {
    var s' := s.(lines := s.lines + [line], phases := s.phases[w := Appended]);
    assert s.holder == Some(w);
    forall x: nat ensures s'.PhaseOf(x) == if x == w then Appended else s.PhaseOf(x) {
    }
  }

  lemma WriteGrows(c: Crypto, lines: seq<Line>, e: Event)
    requires Chain(c, lines) && e.Write? && WriteReadsBack(c, e)
    ensures Chain(c, lines + [Written(c, e.draft, |lines| + 1, Tip(c, lines), e.signature)])
  {
    var n, previous := |lines| + 1, Tip(c, lines);
    assert ReadsBack(c, ToDict(c, e.draft, n, previous, e.signature));
    ReadBack(c, e.draft, n, previous, e.signature);
    ChainGrows(c, lines, Written(c, e.draft, n, previous, e.signature));
  }

  function StepTo(c: Crypto, s: World, e: Event): World {
    var after := Apply(c, s, e);
    if after.Some? then after.value else s
  }

  // While nobody holds the lock, a writer's four steps go through: on a valid log they add its entry at
  // the tip, on a damaged one nothing, and the lock is free again.
  lemma LoneWriterFinishes(c: Crypto, s: World, w: nat, draft: Draft, signature: Json)
    requires Good(c, s) && s.holder.None?
    ensures var held := StepTo(c, s, Acquire(w));
            var read := StepTo(c, held, ReadTip(w));
            var wrote := StepTo(c, read, Write(w, draft, signature));
            var freed := StepTo(c, wrote, Release(w));
            && freed.holder.None?
            && freed.lines == if Chain(c, s.lines)
                 then s.lines + [Written(c, draft, |s.lines| + 1, Tip(c, s.lines), signature)] else s.lines
  {
    assert s.PhaseOf(w) == Idle;
  }

  function Writes(c: Crypto, s: World, events: seq<Event>): nat {
    if events == [] then 0
    else
      var init, e := events[..|events| - 1], events[|events| - 1];
      Writes(c, s, init) + (if e.Write? && Apply(c, RunFrom(c, s, init), e).Some? then 1 else 0)
  }

  // However any number of writers interleave, and wherever any of them raises, the log stays valid and
  // gains exactly one entry per write; a log that starts damaged is left exactly as it was.
  lemma {:induction false} InterleavedWritersKeepChain(c: Crypto, lines: seq<Line>, events: seq<Event>)
    requires forall i :: 0 <= i < |events| ==> WriteReadsBack(c, events[i])
    ensures var s := RunFrom(c, Start(lines), events);
            && Good(c, s)
            && lines <= s.lines && |s.lines| == |lines| + Writes(c, Start(lines), events)
            && (Chain(c, lines) ==> Chain(c, s.lines))
            && (!Chain(c, lines) ==> s.lines == lines)
  {
    if events != [] {
      var init, e := events[..|events| - 1], events[|events| - 1];
      InterleavedWritersKeepChain(c, lines, init);
      var before := RunFrom(c, Start(lines), init);
      if Apply(c, before, e).Some? {
        StepKeepsGood(c, before, e);
      }
    }
  }
}
