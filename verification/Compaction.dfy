/** context.py: bounding one text while keeping both of its ends. */
module Context {
  import opened Sequences

  const MARKER := "\n...[truncated by jev-reflex]...\n"

  // Python's value[-count:], where a count of zero is the whole text.
  function LastSlice(value: string, count: nat): string {
    if count == 0 || count >= |value| then value else value[|value| - count..]
  }

  function Truncate(text: string, marker: string, limit: nat): string {
    if |text| <= limit then text
    else if limit <= |marker| then text[..limit]
    else
      var available := limit - |marker|;
      var head := available / 2;
      var tail := available - head;
      text[..head] + marker + LastSlice(text, tail)
  }

  function BoundedText(value: Option<string>, limit: nat): string {
    Truncate(if value.Some? then value.value else "", MARKER, limit)
  }

  // A head and a tail of the text, around the marker.
  ghost predicate KeepsEnds(r: string, text: string, marker: string, head: nat, tail: nat) {
    head + tail <= |text| && r == text[..head] + marker + text[|text| - tail..]
  }

  // The result is as long as the limit allows, and it is the whole text or a prefix unless the limit
  // exceeds the marker.
  lemma TruncateLength(text: string, marker: string, limit: nat)
    ensures var r := Truncate(text, marker, limit);
            && |r| == (if |text| <= limit then |text| else limit)
            && (|text| <= limit ==> r == text)
            && (|text| > limit && limit <= |marker| ==> r <= text)
  {
  }

  // Past the marker's length a cut text keeps a true head and a true, non-empty tail that do not
  // overlap, balanced to within one character.
  lemma TruncateKeepsEnds(text: string, marker: string, limit: nat)
    requires |text| > limit > |marker|
    ensures exists head: nat, tail: nat ::
              && KeepsEnds(Truncate(text, marker, limit), text, marker, head, tail)
              && head + |marker| + tail == limit && tail >= 1 && head <= tail <= head + 1
  {
    var available := limit - |marker|;
    var head := available / 2;
    var tail := available - head;
    assert tail >= 1 && tail < |text|;
    assert KeepsEnds(Truncate(text, marker, limit), text, marker, head, tail);
  }
}

/** evaluator.py: `compact_state`, with the serialised size of a state left abstract. */
module Compaction {
  import opened Sequences
  import opened Context

  const MAX_ARGUMENT_CHARS := 1000
  const MINIMAL_OVERHEAD := 25

  datatype Field =
    | ExternalContent | RecentContext | GitDiff | TestResults | UserTask
    | WorkingDirectory | Repository | RepositoryRoot

  // The prose fields, in the order they are given up.
  const PROSE := [ExternalContent, RecentContext, GitDiff, TestResults, UserTask]

  // `rest` is the input and description, which a trimmed action no longer has.
  datatype Action = Action(kind: string, command: Option<string>, argv: seq<string>, rest: Option<string>)

  datatype State = State(text: map<Field, string>, changedFiles: seq<string>, action: Action) {
    ghost predicate Complete() { forall f: Field :: f in text }
  }

  datatype Result = Kept(state: State) | Minimal(kind: string) | Empty

  // Lengths of the serialised full and minimal objects: any functions at all.
  datatype Sizes = Sizes(full: State -> nat, minimal: string -> nat)

  // The binary search, for the largest value that passes when passing is downward closed.
  function Search(passes: nat -> bool, low: nat, high: nat): nat
    requires low <= high
    decreases high - low
  {
    if low == high then low
    else
      var midpoint := (low + high + 1) / 2;
      if passes(midpoint) then Search(passes, midpoint, high) else Search(passes, low, midpoint - 1)
  }

  predicate Fits(sizes: Sizes, limit: int, s: State) { sizes.full(s) <= limit }

  function SetText(s: State, f: Field, value: string): State { s.(text := s.text[f := value]) }

  function TextOf(s: State, f: Field): string { if f in s.text then s.text[f] else "" }

  function TextPasses(sizes: Sizes, limit: int, s: State, f: Field, original: string): nat -> bool {
    (n: nat) => Fits(sizes, limit, SetText(s, f, BoundedText(Some(original), n)))
  }

  // `fit_text_field`
  function FitText(sizes: Sizes, limit: int, s: State, f: Field): State {
    var original := TextOf(s, f);
    if !Fits(sizes, limit, SetText(s, f, "")) || original == "" then SetText(s, f, "")
    else SetText(s, f, BoundedText(Some(original), Search(TextPasses(sizes, limit, s, f, original), 0, |original|)))
  }

  function FitFields(sizes: Sizes, limit: int, s: State, fields: seq<Field>): State
    decreases |fields|
  {
    if fields == [] then s
    else
      var next := FitText(sizes, limit, s, fields[0]);
      if Fits(sizes, limit, next) then next else FitFields(sizes, limit, next, fields[1..])
  }

  function FilesPass(sizes: Sizes, limit: int, s: State, original: seq<string>): nat -> bool {
    (n: nat) => n <= |original| && Fits(sizes, limit, s.(changedFiles := original[..n]))
  }

  lemma {:induction false} SearchRange(passes: nat -> bool, low: nat, high: nat)
    requires low <= high
    ensures low <= Search(passes, low, high) <= high
    ensures passes(low) ==> passes(Search(passes, low, high))
    decreases high - low
  {
    if low < high {
      var midpoint := (low + high + 1) / 2;
      if passes(midpoint) {
        SearchRange(passes, midpoint, high);
      } else {
        SearchRange(passes, low, midpoint - 1);
      }
    }
  }

  function FitFiles(sizes: Sizes, limit: int, s: State): State {
    var cleared := s.(changedFiles := []);
    var original := s.changedFiles;
    if Fits(sizes, limit, cleared) || original == [] then cleared
    else
      SearchRange(FilesPass(sizes, limit, s, original), 0, |original|);
      s.(changedFiles := original[..Search(FilesPass(sizes, limit, s, original), 0, |original|)])
  }

  function ActionKind(action: Action): string { if action.kind == "" then "tool_call" else action.kind }

  function CommandState(s: State, kind: string, command: string): State {
    s.(action := Action(kind, Some(command), [], None))
  }

  function ArgvState(s: State, kind: string, argv: seq<string>): State { s.(action := Action(kind, None, argv, None)) }

  function BoundAll(argv: seq<string>): (bounded: seq<string>)
    ensures |bounded| == |argv|
    ensures forall i :: 0 <= i < |argv| ==> bounded[i] == Truncate(argv[i], MARKER, MAX_ARGUMENT_CHARS)
  {
    seq(|argv|, i requires 0 <= i < |argv| => BoundedText(Some(argv[i]), MAX_ARGUMENT_CHARS))
  }

  function CommandPasses(sizes: Sizes, limit: int, s: State, kind: string, command: string): nat -> bool {
    (n: nat) => Fits(sizes, limit, CommandState(s, kind, BoundedText(Some(command), n)))
  }

  function ArgvPasses(sizes: Sizes, limit: int, s: State, kind: string, argv: seq<string>): nat -> bool {
    (n: nat) => n <= |argv| && Fits(sizes, limit, ArgvState(s, kind, BoundAll(argv[..n])))
  }

  // The action reduced to its type, then with as much of its command or arguments as the search keeps.
  function FitAction(sizes: Sizes, limit: int, s: State): State {
    var kind := ActionKind(s.action);
    if Fits(sizes, limit, ArgvState(s, kind, [])) then ArgvState(s, kind, [])
    else if s.action.command.Some? then
      var command := s.action.command.value;
      if !Fits(sizes, limit, CommandState(s, kind, "")) then CommandState(s, kind, "")
      else
        var passes := CommandPasses(sizes, limit, CommandState(s, kind, ""), kind, command);
        CommandState(s, kind, BoundedText(Some(command), Search(passes, 0, |command|)))
    else
      var argv := s.action.argv;
      var passes := ArgvPasses(sizes, limit, ArgvState(s, kind, []), kind, argv);
      SearchRange(passes, 0, |argv|);
      ArgvState(s, kind, BoundAll(argv[..Search(passes, 0, |argv|)]))
  }

  function CompactOf(sizes: Sizes, limit: int, s: State): Result {
    if Fits(sizes, limit, s) then Kept(s)
    else
      var prose := FitFields(sizes, limit, s, PROSE);
      if Fits(sizes, limit, prose) then Kept(prose)
      else
        var files := FitFiles(sizes, limit, prose);
        if Fits(sizes, limit, files) then Kept(files)
        else
          var action := FitAction(sizes, limit, files);
          if Fits(sizes, limit, action) then Kept(action)
          else
            var paths := FitText(sizes, limit, FitText(sizes, limit, action, WorkingDirectory), Repository);
            if Fits(sizes, limit, paths) then Kept(paths)
            else
              var room := if limit - MINIMAL_OVERHEAD < 0 then 0 else limit - MINIMAL_OVERHEAD;
              var kind := BoundedText(Some(ActionKind(s.action)), room);
              if sizes.minimal(kind) <= limit then Minimal(kind) else Empty
  }

  lemma SetTextTwice(s: State, f: Field, a: string, b: string)
    ensures SetText(SetText(s, f, a), f, b) == SetText(s, f, b)
  {
  }

  class JevState {
    const sizes: Sizes
    const limit: int
    var text: map<Field, string>
    var changedFiles: seq<string>
    var action: Action

    function Snapshot(): State
      reads this
    {
      State(text, changedFiles, action)
    }

    constructor (sizes: Sizes, limit: int, s: State)
      ensures Snapshot() == s && this.sizes == sizes && this.limit == limit
    {
      this.sizes := sizes;
      this.limit := limit;
      text, changedFiles, action := s.text, s.changedFiles, s.action;
    }

    method FitTextField(f: Field)
      modifies this`text
      ensures Snapshot() == FitText(sizes, limit, old(Snapshot()), f)
    {
      ghost var was := Snapshot();
      var original := if f in text then text[f] else "";
      text := text[f := ""];
      if sizes.full(Snapshot()) > limit || original == "" {
        return;
      }
      ghost var n := Search(TextPasses(sizes, limit, was, f, original), 0, |original|);
      SetTextTwice(was, f, "", BoundedText(Some(original), n));
      SearchText(was, f, original, "");
    }

    // The loop of `fit_text_field`, from a state that shows some other text in the field.
    method SearchText(ghost was: State, f: Field, original: string, ghost first: string)
      requires Snapshot() == SetText(was, f, first)
      modifies this`text
      ensures var n := Search(TextPasses(sizes, limit, was, f, original), 0, |original|);
              Snapshot() == SetText(was, f, BoundedText(Some(original), n))
    {
      var low, high := 0, |original|;
      ghost var passes := TextPasses(sizes, limit, was, f, original);
      ghost var shown := first;
      while low < high
        invariant 0 <= low <= high <= |original|
        invariant Search(passes, low, high) == Search(passes, 0, |original|)
        invariant Snapshot() == SetText(was, f, shown)
      {
        var midpoint := (low + high + 1) / 2;
        Show(was, f, BoundedText(Some(original), midpoint), shown);
        shown := BoundedText(Some(original), midpoint);
        if sizes.full(Snapshot()) <= limit {
          low := midpoint;
        } else {
          high := midpoint - 1;
        }
      }
      Show(was, f, BoundedText(Some(original), low), shown);
    }

    method Show(ghost was: State, f: Field, value: string, ghost shown: string)
      requires Snapshot() == SetText(was, f, shown)
      modifies this`text
      ensures Snapshot() == SetText(was, f, value)
    {
      SetTextTwice(was, f, shown, value);
      text := text[f := value];
    }

    method FitChangedFiles()
      modifies this`changedFiles
      ensures Snapshot() == FitFiles(sizes, limit, old(Snapshot()))
    {
      ghost var was := Snapshot();
      var original := changedFiles;
      changedFiles := [];
      if sizes.full(Snapshot()) <= limit || original == [] {
        return;
      }
      var low, high := 0, |original|;
      ghost var passes := FilesPass(sizes, limit, was, original);
      while low < high
        invariant 0 <= low <= high <= |original|
        invariant Search(passes, low, high) == Search(passes, 0, |original|)
        invariant Snapshot() == was.(changedFiles := changedFiles)
      {
        var midpoint := (low + high + 1) / 2;
        changedFiles := original[..midpoint];
        assert Snapshot() == was.(changedFiles := original[..midpoint]);
        if sizes.full(Snapshot()) <= limit {
          low := midpoint;
        } else {
          high := midpoint - 1;
        }
      }
      changedFiles := original[..low];
    }

    method FitProposedAction()
      modifies this`action
      ensures Snapshot() == FitAction(sizes, limit, old(Snapshot()))
    {
      var original := action;
      var kind := ActionKind(original);
      action := Action(kind, None, [], None);
      if sizes.full(Snapshot()) <= limit {
        return;
      }
      if original.command.Some? {
        action := Action(kind, Some(""), [], None);
        if sizes.full(Snapshot()) <= limit {
          FitCommand(kind, original.command.value);
        }
      } else {
        FitArgv(kind, original.argv);
      }
    }

    method FitCommand(kind: string, command: string)
      modifies this`action
      ensures var n := Search(CommandPasses(sizes, limit, old(Snapshot()), kind, command), 0, |command|);
              Snapshot() == CommandState(old(Snapshot()), kind, BoundedText(Some(command), n))
    {
      ghost var was := Snapshot();
      var low, high := 0, |command|;
      ghost var passes := CommandPasses(sizes, limit, was, kind, command);
      while low < high
        invariant 0 <= low <= high <= |command|
        invariant Search(passes, low, high) == Search(passes, 0, |command|)
      {
        var midpoint := (low + high + 1) / 2;
        action := Action(kind, Some(BoundedText(Some(command), midpoint)), [], None);
        assert Snapshot() == CommandState(was, kind, BoundedText(Some(command), midpoint));
        if sizes.full(Snapshot()) <= limit {
          low := midpoint;
        } else {
          high := midpoint - 1;
        }
      }
      action := Action(kind, Some(BoundedText(Some(command), low)), [], None);
    }

    method FitArgv(kind: string, argv: seq<string>)
      modifies this`action
      ensures 0 <= Search(ArgvPasses(sizes, limit, old(Snapshot()), kind, argv), 0, |argv|) <= |argv|
      ensures Snapshot() == ArgvState(old(Snapshot()), kind,
                BoundAll(argv[..Search(ArgvPasses(sizes, limit, old(Snapshot()), kind, argv), 0, |argv|)]))
    {
      ghost var was := Snapshot();
      var low, high := 0, |argv|;
      ghost var passes := ArgvPasses(sizes, limit, was, kind, argv);
      SearchRange(passes, 0, |argv|);
      while low < high
        invariant 0 <= low <= high <= |argv|
        invariant Search(passes, low, high) == Search(passes, 0, |argv|)
      {
        var midpoint := (low + high + 1) / 2;
        action := Action(kind, None, BoundAll(argv[..midpoint]), None);
        assert Snapshot() == ArgvState(was, kind, BoundAll(argv[..midpoint]));
        if sizes.full(Snapshot()) <= limit {
          low := midpoint;
        } else {
          high := midpoint - 1;
        }
      }
      action := Action(kind, None, BoundAll(argv[..low]), None);
    }

    method CompactState() returns (r: Result)
      modifies this
      ensures r == CompactOf(sizes, limit, old(Snapshot()))
      ensures r.Kept? ==> r.state == Snapshot()
    {
      if sizes.full(Snapshot()) <= limit {
        return Kept(Snapshot());
      }
      var kind := ActionKind(action);
      ghost var was := Snapshot();
      for i := 0 to |PROSE|
        invariant action == was.action
        invariant FitFields(sizes, limit, Snapshot(), PROSE[i..]) == FitFields(sizes, limit, was, PROSE)
        invariant !Fits(sizes, limit, Snapshot())
      {
        FitTextField(PROSE[i]);
        if sizes.full(Snapshot()) <= limit {
          return Kept(Snapshot());
        }
      }
      FitChangedFiles();
      if sizes.full(Snapshot()) <= limit {
        return Kept(Snapshot());
      }
      FitProposedAction();
      if sizes.full(Snapshot()) <= limit {
        return Kept(Snapshot());
      }
      FitTextField(WorkingDirectory);
      FitTextField(Repository);
      if sizes.full(Snapshot()) <= limit {
        return Kept(Snapshot());
      }
      var room := if limit - MINIMAL_OVERHEAD < 0 then 0 else limit - MINIMAL_OVERHEAD;
      var minimal := BoundedText(Some(kind), room);
      return if sizes.minimal(minimal) <= limit then Minimal(minimal) else Empty;
    }
  }

  // ----- Main results -----

  // Whatever the sizes are, the result is empty or within the limit; a state that fits is untouched.
  lemma CompactIsBounded(sizes: Sizes, limit: int, s: State)
    ensures match CompactOf(sizes, limit, s)
            case Kept(state) => sizes.full(state) <= limit
            case Minimal(kind) => sizes.minimal(kind) <= limit
            case Empty => true
    ensures sizes.full(s) <= limit ==> CompactOf(sizes, limit, s) == Kept(s)
  {
  }

  ghost predicate DownwardClosed(passes: nat -> bool, high: nat) {
    forall i: nat, j: nat :: i <= j <= high && passes(j) ==> passes(i)
  }

  // A search over a downward closed test finds the largest value that passes.
  lemma {:induction false} SearchLargest(passes: nat -> bool, low: nat, high: nat, top: nat)
    requires low <= high <= top && DownwardClosed(passes, top) && passes(low)
    requires forall k: nat :: high < k <= top ==> !passes(k)
    ensures passes(Search(passes, low, high))
    ensures forall k: nat :: Search(passes, low, high) < k <= top ==> !passes(k)
    decreases high - low
  {
    if low < high {
      var midpoint := (low + high + 1) / 2;
      if passes(midpoint) {
        SearchLargest(passes, midpoint, high, top);
      } else {
        SearchLargest(passes, low, midpoint - 1, top);
      }
    }
  }

  // The limit `fit_text_field` settles on for a text that can be saved.
  function ChosenLimit(sizes: Sizes, limit: int, s: State, f: Field): (n: nat) {
    Search(TextPasses(sizes, limit, s, f, TextOf(s, f)), 0, |TextOf(s, f)|)
  }

  lemma EmptyTextIsKept(sizes: Sizes, limit: int, s: State, f: Field)
    requires Fits(sizes, limit, SetText(s, f, ""))
    ensures BoundedText(Some(TextOf(s, f)), 0) == "" && TextPasses(sizes, limit, s, f, TextOf(s, f))(0)
  {
    TruncateLength(TextOf(s, f), MARKER, 0);
  }

  // Fitting one text: if it can be saved at all, the result fits; and where fitting is downward closed
  // in the limit, no longer limit would have fitted. All other fields are untouched.
  lemma FitTextLargest(sizes: Sizes, limit: int, s: State, f: Field)
    requires Fits(sizes, limit, SetText(s, f, ""))
    ensures var original, n := if f in s.text then s.text[f] else "", ChosenLimit(sizes, limit, s, f);
            var passes := TextPasses(sizes, limit, s, f, original);
            && n <= |original|
            && FitText(sizes, limit, s, f) == s.(text := s.text[f := Truncate(original, MARKER, n)])
            && Fits(sizes, limit, FitText(sizes, limit, s, f))
            && (DownwardClosed(passes, |original|) ==> forall k: nat :: n < k <= |original| ==> !passes(k))
  {
    var original := TextOf(s, f);
    var passes := TextPasses(sizes, limit, s, f, original);
    EmptyTextIsKept(sizes, limit, s, f);
    SearchRange(passes, 0, |original|);
    if DownwardClosed(passes, |original|) {
      SearchLargest(passes, 0, |original|, |original|);
    }
  }

  // A field that was tried and did not make the state fit is empty.
  lemma FailedFitIsEmpty(sizes: Sizes, limit: int, s: State, f: Field)
    ensures var t := FitText(sizes, limit, s, f);
            && t == SetText(s, f, TextOf(t, f))
            && (!Fits(sizes, limit, t) ==> t == SetText(s, f, ""))
  {
    if Fits(sizes, limit, SetText(s, f, "")) && f in s.text {
      FitTextLargest(sizes, limit, s, f);
    }
  }

  // Fields are given up strictly in order: one is touched only when all before it are already empty.
  lemma {:induction false} FieldsInOrder(sizes: Sizes, limit: int, s: State, fields: seq<Field>)
    requires Distinct(fields)
    ensures var t := FitFields(sizes, limit, s, fields);
            && t == s.(text := t.text)
            && (forall f :: f !in fields ==> (f in t.text <==> f in s.text) && TextOf(t, f) == TextOf(s, f))
            && (forall i, j :: 0 <= i < j < |fields| && TextOf(t, fields[j]) != TextOf(s, fields[j]) ==>
                  TextOf(t, fields[i]) == "")
            && (!Fits(sizes, limit, t) ==> forall f :: f in fields ==> TextOf(t, f) == "")
    decreases |fields|
  {
    if fields != [] {
      var next := FitText(sizes, limit, s, fields[0]);
      FailedFitIsEmpty(sizes, limit, s, fields[0]);
      assert forall f :: f in fields <==> f == fields[0] || f in fields[1..];
      assert fields[0] !in fields[1..];
      if !Fits(sizes, limit, next) {
        FieldsInOrder(sizes, limit, next, fields[1..]);
        var t := FitFields(sizes, limit, s, fields);
        assert TextOf(t, fields[0]) == "";
        forall i, j | 0 <= i < j < |fields| && TextOf(t, fields[j]) != TextOf(s, fields[j])
          ensures TextOf(t, fields[i]) == ""
        {
          assert fields[j] in fields[1..] && TextOf(next, fields[j]) == TextOf(s, fields[j]);
          assert fields[1..][j - 1] == fields[j];
          if i > 0 {
            assert fields[1..][i - 1] == fields[i];
          }
        }
      }
    }
  }

  ghost predicate ProseEmpty(t: State) { forall f :: f in PROSE ==> TextOf(t, f) == "" }

  ghost predicate InOrder(s: State, t: State) {
    forall i, j :: 0 <= i < j < |PROSE| && TextOf(t, PROSE[j]) != TextOf(s, PROSE[j]) ==> TextOf(t, PROSE[i]) == ""
  }

  lemma ProseStage(sizes: Sizes, limit: int, s: State)
    ensures var t := FitFields(sizes, limit, s, PROSE);
            && t == s.(text := t.text) && TextOf(t, RepositoryRoot) == TextOf(s, RepositoryRoot)
            && InOrder(s, t) && (!Fits(sizes, limit, t) ==> ProseEmpty(t))
  {
    FieldsInOrder(sizes, limit, s, PROSE);
  }

  lemma PathStage(sizes: Sizes, limit: int, s: State)
    ensures var t := FitText(sizes, limit, FitText(sizes, limit, s, WorkingDirectory), Repository);
            && t == s.(text := t.text)
            && forall f :: f != WorkingDirectory && f != Repository ==> TextOf(t, f) == TextOf(s, f)
  {
    var once := FitText(sizes, limit, s, WorkingDirectory);
    FailedFitIsEmpty(sizes, limit, s, WorkingDirectory);
    FailedFitIsEmpty(sizes, limit, once, Repository);
  }

  lemma EmptyInOrder(s: State, t: State)
    requires ProseEmpty(t)
    ensures InOrder(s, t)
  {
    forall i, j | 0 <= i < j < |PROSE| && TextOf(t, PROSE[j]) != TextOf(s, PROSE[j]) ensures TextOf(t, PROSE[i]) == "" {
      assert PROSE[i] in PROSE;
    }
  }

  // What a result says about the state it came from.
  ghost predicate KeepsActionLongest(s: State, t: State) {
    && TextOf(t, RepositoryRoot) == TextOf(s, RepositoryRoot)
    && (t.action != s.action ==> t.changedFiles == [] && ProseEmpty(t))
    && (t.changedFiles != s.changedFiles ==> ProseEmpty(t))
    && InOrder(s, t)
  }

  lemma LateStages(sizes: Sizes, limit: int, s: State, prose: State)
    requires ProseEmpty(prose) && TextOf(prose, RepositoryRoot) == TextOf(s, RepositoryRoot)
    requires prose.action == s.action && prose.changedFiles == s.changedFiles
    ensures var files := FitFiles(sizes, limit, prose);
            && KeepsActionLongest(s, files)
            && (!Fits(sizes, limit, files) ==> files.changedFiles == [] && ProseEmpty(files))
  {
    var files := FitFiles(sizes, limit, prose);
    FailedFilesAreEmpty(sizes, limit, prose);
    assert files.text == prose.text;
    EmptyInOrder(s, files);
  }

  lemma LastStages(sizes: Sizes, limit: int, s: State, files: State)
    requires ProseEmpty(files) && files.changedFiles == [] && TextOf(files, RepositoryRoot) == TextOf(s, RepositoryRoot)
    ensures var action := FitAction(sizes, limit, files);
            && KeepsActionLongest(s, action)
            && KeepsActionLongest(s, FitText(sizes, limit, FitText(sizes, limit, action, WorkingDirectory), Repository))
  {
    var action := FitAction(sizes, limit, files);
    FitActionFrame(sizes, limit, files);
    EmptyInOrder(s, action);
    PathStage(sizes, limit, action);
    var paths := FitText(sizes, limit, FitText(sizes, limit, action, WorkingDirectory), Repository);
    forall f | f in PROSE ensures TextOf(paths, f) == "" {
      assert f != WorkingDirectory && f != Repository;
      assert TextOf(action, f) == "";
    }
    EmptyInOrder(s, paths);
  }

  // The action is cut only once every prose field and the list of changed files are empty, that list
  // only once every prose field is, the prose fields in their order, and the repository root never.
  lemma ActionIsKeptLongest(sizes: Sizes, limit: int, s: State)
    requires CompactOf(sizes, limit, s).Kept?
    ensures KeepsActionLongest(s, CompactOf(sizes, limit, s).state)
  {
    if !Fits(sizes, limit, s) {
      var prose := FitFields(sizes, limit, s, PROSE);
      ProseStage(sizes, limit, s);
      if !Fits(sizes, limit, prose) {
        var files := FitFiles(sizes, limit, prose);
        LateStages(sizes, limit, s, prose);
        if !Fits(sizes, limit, files) {
          LastStages(sizes, limit, s, files);
        }
      }
    }
  }

  lemma FailedFilesAreEmpty(sizes: Sizes, limit: int, s: State)
    ensures var t := FitFiles(sizes, limit, s);
            && t == s.(changedFiles := t.changedFiles) && t.changedFiles <= s.changedFiles
            && (!Fits(sizes, limit, t) ==> t.changedFiles == [])
  {
    var passes := FilesPass(sizes, limit, s, s.changedFiles);
    SearchRange(passes, 0, |s.changedFiles|);
    SearchResult(passes, 0, |s.changedFiles|);
  }

  // Without assuming anything about the test, the search ends at its starting value or at one that passes.
  lemma {:induction false} SearchResult(passes: nat -> bool, low: nat, high: nat)
    requires low <= high
    ensures Search(passes, low, high) == low || passes(Search(passes, low, high))
    decreases high - low
  {
    if low < high {
      var midpoint := (low + high + 1) / 2;
      if passes(midpoint) {
        SearchResult(passes, midpoint, high);
      } else {
        SearchResult(passes, low, midpoint - 1);
      }
    }
  }

  // And it ends at its end or just before a value that does not pass.
  lemma {:induction false} SearchBoundary(passes: nat -> bool, low: nat, high: nat)
    requires low <= high
    ensures var n := Search(passes, low, high); low <= n <= high && (n == high || !passes(n + 1))
    decreases high - low
  {
    if low < high {
      var midpoint := (low + high + 1) / 2;
      if passes(midpoint) {
        SearchBoundary(passes, midpoint, high);
      } else {
        SearchBoundary(passes, low, midpoint - 1);
      }
    }
  }

  // Whatever the sizes are: the files kept are none or a prefix that fits, and one more would not fit.
  lemma FilesBoundary(sizes: Sizes, limit: int, s: State)
    requires sizes.full(s.(changedFiles := [])) > limit
    ensures exists n :: 0 <= n <= |s.changedFiles|
              && FitFiles(sizes, limit, s) == s.(changedFiles := s.changedFiles[..n])
              && (n == 0 || sizes.full(s.(changedFiles := s.changedFiles[..n])) <= limit)
              && (n == |s.changedFiles| || sizes.full(s.(changedFiles := s.changedFiles[..n + 1])) > limit)
  {
    var passes := FilesPass(sizes, limit, s, s.changedFiles);
    var n := Search(passes, 0, |s.changedFiles|);
    SearchResult(passes, 0, |s.changedFiles|);
    SearchBoundary(passes, 0, |s.changedFiles|);
    assert s.changedFiles[..0] == [];
    assert FitFiles(sizes, limit, s) == s.(changedFiles := s.changedFiles[..n]);
  }

  function WithArguments(s: State, argv: seq<string>): State {
    s.(action := Action(if s.action.kind == "" then "tool_call" else s.action.kind, None, argv, None))
  }

  // So it is with the arguments, each of them bounded.
  lemma ArgumentsBoundary(sizes: Sizes, limit: int, s: State)
    requires s.action.command.None? && sizes.full(WithArguments(s, [])) > limit
    ensures exists n :: 0 <= n <= |s.action.argv|
              && FitAction(sizes, limit, s) == WithArguments(s, BoundAll(s.action.argv[..n]))
              && (n == 0 || sizes.full(WithArguments(s, BoundAll(s.action.argv[..n]))) <= limit)
              && (n == |s.action.argv| || sizes.full(WithArguments(s, BoundAll(s.action.argv[..n + 1]))) > limit)
  {
    var kind, argv := ActionKind(s.action), s.action.argv;
    var passes := ArgvPasses(sizes, limit, ArgvState(s, kind, []), kind, argv);
    SearchResult(passes, 0, |argv|);
    SearchBoundary(passes, 0, |argv|);
    var n := Search(passes, 0, |argv|);
    assert FitAction(sizes, limit, s) == WithArguments(s, BoundAll(argv[..n]));
  }

  lemma FitActionFrame(sizes: Sizes, limit: int, s: State)
    ensures var t := FitAction(sizes, limit, s); t == s.(action := t.action)
  {
  }

  // The command, like a field: where it can be saved it fits, at the largest limit that does whenever
  // fitting is downward closed.
  lemma FitCommandLargest(sizes: Sizes, limit: int, s: State)
    requires s.action.command.Some? && !Fits(sizes, limit, ArgvState(s, ActionKind(s.action), []))
    requires Fits(sizes, limit, CommandState(s, ActionKind(s.action), ""))
    ensures var kind, command := ActionKind(s.action), s.action.command.value;
            var passes := CommandPasses(sizes, limit, CommandState(s, kind, ""), kind, command);
            var n := Search(passes, 0, |command|);
            && n <= |command|
            && FitAction(sizes, limit, s).action == Action(kind, Some(Truncate(command, MARKER, n)), [], None)
            && Fits(sizes, limit, FitAction(sizes, limit, s))
            && (DownwardClosed(passes, |command|) ==> forall k: nat :: n < k <= |command| ==> !passes(k))
  {
    var kind, command := ActionKind(s.action), s.action.command.value;
    var passes := CommandPasses(sizes, limit, CommandState(s, kind, ""), kind, command);
    TruncateLength(command, MARKER, 0);
    SearchRange(passes, 0, |command|);
    if DownwardClosed(passes, |command|) {
      SearchLargest(passes, 0, |command|, |command|);
    }
  }

  lemma ClosedKeepsNone(passes: nat -> bool, high: nat)
    requires DownwardClosed(passes, high) && !passes(0)
    ensures Search(passes, 0, high) == 0
  {
    SearchResult(passes, 0, high);
    SearchRange(passes, 0, high);
  }

  // The changed files are searched only once none fit: whenever fitting is downward closed, none are kept.
  lemma FilesAreAllOrNothing(sizes: Sizes, limit: int, s: State)
    requires DownwardClosed(FilesPass(sizes, limit, s, s.changedFiles), |s.changedFiles|)
    ensures FitFiles(sizes, limit, s).changedFiles == []
  {
    assert s.changedFiles[..0] == [];
    if !Fits(sizes, limit, s.(changedFiles := [])) {
      ClosedKeepsNone(FilesPass(sizes, limit, s, s.changedFiles), |s.changedFiles|);
    }
  }

  // So it is with the arguments.
  lemma ArgumentsAreAllOrNothing(sizes: Sizes, limit: int, s: State)
    requires s.action.command.None?
    requires var kind, argv := ActionKind(s.action), s.action.argv;
             DownwardClosed(ArgvPasses(sizes, limit, ArgvState(s, kind, []), kind, argv), |argv|)
    ensures FitAction(sizes, limit, s) == ArgvState(s, ActionKind(s.action), [])
  {
    var kind, argv := ActionKind(s.action), s.action.argv;
    var passes := ArgvPasses(sizes, limit, ArgvState(s, kind, []), kind, argv);
    assert argv[..0] == [] && BoundAll([]) == [];
    if !Fits(sizes, limit, ArgvState(s, kind, [])) {
      ClosedKeepsNone(passes, |argv|);
    }
  }

  // ----- Sizes of JSON lists -----

  // What the items of a list add to its brackets: their own texts, and commas between them.
  function ItemsSize(cost: string -> nat, items: seq<string>): nat {
    if items == [] then 0
    else ItemsSize(cost, items[..|items| - 1]) + cost(items[|items| - 1]) + (if |items| > 1 then 1 else 0)
  }

  // In the serialised object a list of strings adds the size of its items and nothing else.
  ghost predicate ListsAddUp(sizes: Sizes, cost: string -> nat) {
    && (forall s: State, files: seq<string> ::
          sizes.full(WithFiles(s, files)) == sizes.full(WithFiles(s, [])) + ItemsSize(cost, files))
    && (forall s: State, kind: string, argv: seq<string> ::
          sizes.full(ArgvState(s, kind, argv)) == sizes.full(ArgvState(s, kind, [])) + ItemsSize(cost, argv))
  }

  function WithFiles(s: State, files: seq<string>): State { s.(changedFiles := files) }

  lemma {:induction false} PrefixIsSmaller(cost: string -> nat, items: seq<string>, n: nat)
    requires n <= |items|
    ensures ItemsSize(cost, items[..n]) <= ItemsSize(cost, items)
    decreases |items|
  {
    if n == |items| {
      assert items[..n] == items;
    } else {
      var init := items[..|items| - 1];
      assert init[..n] == items[..n];
      PrefixIsSmaller(cost, init, n);
    }
  }

  lemma FilesClosed(sizes: Sizes, cost: string -> nat, limit: int, s: State)
    requires ListsAddUp(sizes, cost)
    ensures DownwardClosed(FilesPass(sizes, limit, s, s.changedFiles), |s.changedFiles|)
  {
    var files := s.changedFiles;
    forall i: nat, j: nat | i <= j <= |files| && FilesPass(sizes, limit, s, files)(j)
      ensures FilesPass(sizes, limit, s, files)(i)
    {
      assert files[..j][..i] == files[..i];
      PrefixIsSmaller(cost, files[..j], i);
      assert sizes.full(WithFiles(s, files[..i])) <= sizes.full(WithFiles(s, files[..j]));
    }
  }

  lemma ArgumentsClosed(sizes: Sizes, cost: string -> nat, limit: int, s: State, kind: string, argv: seq<string>)
    requires ListsAddUp(sizes, cost)
    ensures DownwardClosed(ArgvPasses(sizes, limit, s, kind, argv), |argv|)
  {
    forall i: nat, j: nat | i <= j <= |argv| && ArgvPasses(sizes, limit, s, kind, argv)(j)
      ensures ArgvPasses(sizes, limit, s, kind, argv)(i)
    {
      var longer, shorter := BoundAll(argv[..j]), BoundAll(argv[..i]);
      assert longer[..i] == shorter;
      PrefixIsSmaller(cost, longer, i);
      assert sizes.full(ArgvState(s, kind, shorter)) <= sizes.full(ArgvState(s, kind, longer));
    }
  }

  // The two lists of a result: as they were, or empty.
  predicate ListsWholeOrEmpty(s: State, t: State) {
    && (t.changedFiles == s.changedFiles || t.changedFiles == [])
    && (t.action == s.action || t.action.argv == [])
  }

  lemma ReducedActionHasNoArguments(sizes: Sizes, cost: string -> nat, limit: int, s: State)
    requires ListsAddUp(sizes, cost)
    ensures FitAction(sizes, limit, s).action.argv == []
    ensures FitAction(sizes, limit, s).changedFiles == s.changedFiles
  {
    if s.action.command.None? {
      var kind := ActionKind(s.action);
      ArgumentsClosed(sizes, cost, limit, ArgvState(s, kind, []), kind, s.action.argv);
      ArgumentsAreAllOrNothing(sizes, limit, s);
    }
  }

  // With JSON's sizes, whatever the limit: the changed files and the arguments are each kept whole or
  // dropped whole, never a part of them.
  lemma ListsAreAllOrNothing(sizes: Sizes, cost: string -> nat, limit: int, s: State)
    requires ListsAddUp(sizes, cost) && CompactOf(sizes, limit, s).Kept?
    ensures ListsWholeOrEmpty(s, CompactOf(sizes, limit, s).state)
  {
    if !Fits(sizes, limit, s) {
      var prose := FitFields(sizes, limit, s, PROSE);
      ProseStage(sizes, limit, s);
      if !Fits(sizes, limit, prose) {
        var files := FitFiles(sizes, limit, prose);
        FilesClosed(sizes, cost, limit, prose);
        FilesAreAllOrNothing(sizes, limit, prose);
        FailedFilesAreEmpty(sizes, limit, prose);
        if !Fits(sizes, limit, files) {
          ReducedActionHasNoArguments(sizes, cost, limit, files);
          PathStage(sizes, limit, FitAction(sizes, limit, files));
        }
      }
    }
  }

  // ----- Which state is kept, and when none is -----

  // The state with these fields given up, first to last.
  function Given(s: State, fields: seq<Field>): State
    decreases |fields|
  {
    if fields == [] then s else Given(SetText(s, fields[0], ""), fields[1..])
  }

  // Nothing fits before k fields are given up.
  ghost predicate NoneBefore(sizes: Sizes, limit: int, s: State, fields: seq<Field>, k: nat)
    requires k <= |fields| + 1
  {
    forall j :: 1 <= j < k ==> !Fits(sizes, limit, Given(s, fields[..j]))
  }

  // The first field whose loss lets the state fit is cut, those before it are gone, the rest is whole.
  lemma {:induction false} FieldIsCut(sizes: Sizes, limit: int, s: State, fields: seq<Field>, k: nat)
    requires 1 <= k <= |fields| && Fits(sizes, limit, Given(s, fields[..k]))
    requires NoneBefore(sizes, limit, s, fields, k)
    ensures FitFields(sizes, limit, s, fields) == FitText(sizes, limit, Given(s, fields[..k - 1]), fields[k - 1])
    ensures Fits(sizes, limit, FitFields(sizes, limit, s, fields))
    decreases |fields|
  {
    var emptied, rest := SetText(s, fields[0], ""), fields[1..];
    assert fields[..k][1..] == rest[..k - 1];
    if k == 1 {
      assert rest[..0] == [] && fields[..0] == [] && Given(s, fields[..k]) == emptied;
      FitTextLargest(sizes, limit, s, fields[0]);
    } else {
      assert fields[..1][1..] == [] && Given(s, fields[..1]) == emptied;
      forall j | 1 <= j < k - 1 ensures !Fits(sizes, limit, Given(emptied, rest[..j])) {
        assert fields[..j + 1][1..] == rest[..j];
      }
      FieldIsCut(sizes, limit, emptied, rest, k - 1);
      assert fields[..k - 1][1..] == rest[..k - 2];
    }
  }

  lemma {:induction false} AllGivenUp(sizes: Sizes, limit: int, s: State, fields: seq<Field>)
    requires NoneBefore(sizes, limit, s, fields, |fields| + 1)
    ensures FitFields(sizes, limit, s, fields) == Given(s, fields)
    decreases |fields|
  {
    if fields != [] {
      var emptied, rest := SetText(s, fields[0], ""), fields[1..];
      assert fields[..1][1..] == [] && Given(s, fields[..1]) == emptied;
      forall j | 1 <= j < |rest| + 1 ensures !Fits(sizes, limit, Given(emptied, rest[..j])) {
        assert fields[..j + 1][1..] == rest[..j];
      }
      AllGivenUp(sizes, limit, emptied, rest);
    }
  }

  // Without its prose and files; with the action reduced to its type; with as little of it as is tried.
  function Cleared(s: State): State { Given(s, PROSE).(changedFiles := []) }

  function Bare(s: State): State {
    Cleared(s).(action := Action(if s.action.kind == "" then "tool_call" else s.action.kind, None, [], None))
  }

  function Least(s: State): State {
    if s.action.command.Some? then Bare(s).(action := Bare(s).action.(command := Some(""))) else Bare(s)
  }

  function NoPaths(s: State): State { SetText(SetText(Least(s), WorkingDirectory, ""), Repository, "") }

  lemma {:induction false} GivenFrame(s: State, fields: seq<Field>)
    ensures Given(s, fields) == s.(text := Given(s, fields).text)
    decreases |fields|
  {
    if fields != [] {
      GivenFrame(SetText(s, fields[0], ""), fields[1..]);
    }
  }

  // Either the prose stage ends with a state that fits, or it has given up every field in turn.
  lemma {:induction false} ProseExact(sizes: Sizes, limit: int, s: State, fields: seq<Field>)
    ensures Fits(sizes, limit, FitFields(sizes, limit, s, fields))
            || FitFields(sizes, limit, s, fields) == Given(s, fields)
    ensures fields != [] ==>
              (Fits(sizes, limit, FitFields(sizes, limit, s, fields))
               <==> exists k :: 1 <= k <= |fields| && Fits(sizes, limit, Given(s, fields[..k])))
  {
    if exists k: nat :: FirstFit(sizes, limit, s, fields, k) {
      var k: nat :| FirstFit(sizes, limit, s, fields, k);
      FieldIsCut(sizes, limit, s, fields, k);
    } else {
      NoFirstFit(sizes, limit, s, fields, |fields| + 1);
      AllGivenUp(sizes, limit, s, fields);
      assert fields[..|fields|] == fields;
    }
  }

  ghost predicate FirstFit(sizes: Sizes, limit: int, s: State, fields: seq<Field>, k: nat) {
    1 <= k <= |fields| && Fits(sizes, limit, Given(s, fields[..k])) && NoneBefore(sizes, limit, s, fields, k)
  }

  lemma {:induction false} NoFirstFit(sizes: Sizes, limit: int, s: State, fields: seq<Field>, n: nat)
    requires n <= |fields| + 1 && forall k: nat :: !FirstFit(sizes, limit, s, fields, k)
    ensures NoneBefore(sizes, limit, s, fields, n)
  {
    if n > 1 {
      NoFirstFit(sizes, limit, s, fields, n - 1);
      assert !FirstFit(sizes, limit, s, fields, n - 1);
    }
  }

  // A state is kept whenever the least that is left at any stage fits, whatever the sizes are.
  lemma KeptWhenever(sizes: Sizes, limit: int, s: State)
    requires || Fits(sizes, limit, s) || Fits(sizes, limit, Cleared(s)) || Fits(sizes, limit, Bare(s))
             || Fits(sizes, limit, Least(s))
             || exists k :: 1 <= k <= |PROSE| && Fits(sizes, limit, Given(s, PROSE[..k]))
    ensures CompactOf(sizes, limit, s).Kept?
  {
    var prose := FitFields(sizes, limit, s, PROSE);
    ProseExact(sizes, limit, s, PROSE);
    GivenFrame(s, PROSE);
    if !Fits(sizes, limit, s) && !Fits(sizes, limit, prose) {
      var files := FitFiles(sizes, limit, prose);
      FailedFilesAreEmpty(sizes, limit, prose);
      if !Fits(sizes, limit, files) {
        assert files == Cleared(s);
        LeastOfAction(sizes, limit, files);
      }
    }
  }

  lemma LeastOfAction(sizes: Sizes, limit: int, s: State)
    ensures var t, kind := FitAction(sizes, limit, s), ActionKind(s.action);
            && (Fits(sizes, limit, ArgvState(s, kind, [])) ==> t == ArgvState(s, kind, []))
            && (s.action.command.Some? && Fits(sizes, limit, CommandState(s, kind, "")) ==> Fits(sizes, limit, t))
            && (!Fits(sizes, limit, t) ==>
                  t == if s.action.command.Some? then CommandState(s, kind, "") else ArgvState(s, kind, []))
  {
    var kind := ActionKind(s.action);
    if !Fits(sizes, limit, ArgvState(s, kind, [])) {
      if s.action.command.Some? {
        if Fits(sizes, limit, CommandState(s, kind, "")) {
          FitCommandLargest(sizes, limit, s);
        }
      } else {
        var passes := ArgvPasses(sizes, limit, ArgvState(s, kind, []), kind, s.action.argv);
        SearchRange(passes, 0, |s.action.argv|);
        SearchResult(passes, 0, |s.action.argv|);
        assert s.action.argv[..0] == [] && BoundAll([]) == [];
      }
    }
  }

  // Emptying a text of an object that has it makes the object no longer.
  ghost predicate TextsShrink(sizes: Sizes) {
    forall s: State, f: Field :: f in s.text ==> sizes.full(SetText(s, f, "")) <= sizes.full(s)
  }

  lemma PathsExact(sizes: Sizes, limit: int, s: State)
    requires TextsShrink(sizes) && Repository in s.text
    ensures Fits(sizes, limit, FitText(sizes, limit, FitText(sizes, limit, s, WorkingDirectory), Repository))
            <==> Fits(sizes, limit, SetText(SetText(s, WorkingDirectory, ""), Repository, ""))
  {
    var once := FitText(sizes, limit, s, WorkingDirectory);
    var gone := SetText(s, WorkingDirectory, "");
    assert sizes.full(SetText(gone, Repository, "")) <= sizes.full(gone);
    assert sizes.full(SetText(once, Repository, "")) <= sizes.full(once);
    FailedFitIsEmpty(sizes, limit, s, WorkingDirectory);
    FailedFitIsEmpty(sizes, limit, once, Repository);
    if Fits(sizes, limit, gone) {
      FitTextLargest(sizes, limit, s, WorkingDirectory);
    } else {
      assert once == gone;
    }
    if Fits(sizes, limit, SetText(once, Repository, "")) {
      FitTextLargest(sizes, limit, once, Repository);
    }
  }

  lemma {:induction false} GivenKeys(s: State, fields: seq<Field>)
    ensures s.text.Keys <= Given(s, fields).text.Keys
    decreases |fields|
  {
    if fields != [] {
      GivenKeys(SetText(s, fields[0], ""), fields[1..]);
    }
  }

  // The stages after the prose, from the least each leaves.
  ghost predicate LateResult(sizes: Sizes, limit: int, s: State, r: Result) {
    if Fits(sizes, limit, Cleared(s)) then r == Kept(Cleared(s))
    else if Fits(sizes, limit, Bare(s)) then r == Kept(Bare(s))
    else if Fits(sizes, limit, Least(s)) then
      s.action.command.Some? && r == Kept(FitAction(sizes, limit, Cleared(s)))
    else if Fits(sizes, limit, NoPaths(s)) then
      r == Kept(FitText(sizes, limit, FitText(sizes, limit, Least(s), WorkingDirectory), Repository))
    else
      var room := if limit < MINIMAL_OVERHEAD then 0 else limit - MINIMAL_OVERHEAD;
      var short := Truncate(if s.action.kind == "" then "tool_call" else s.action.kind, MARKER, room);
      r == if sizes.minimal(short) <= limit then Minimal(short) else Empty
  }

  lemma ClearedFiles(sizes: Sizes, cost: string -> nat, limit: int, s: State)
    requires ListsAddUp(sizes, cost)
    ensures FitFiles(sizes, limit, Given(s, PROSE)) == Cleared(s)
  {
    FilesClosed(sizes, cost, limit, Given(s, PROSE));
    FilesAreAllOrNothing(sizes, limit, Given(s, PROSE));
    FailedFilesAreEmpty(sizes, limit, Given(s, PROSE));
  }

  lemma LateExact(sizes: Sizes, cost: string -> nat, limit: int, s: State)
    requires ListsAddUp(sizes, cost) && TextsShrink(sizes) && s.Complete()
    requires !Fits(sizes, limit, s) && !Fits(sizes, limit, FitFields(sizes, limit, s, PROSE))
    requires FitFields(sizes, limit, s, PROSE) == Given(s, PROSE)
    ensures LateResult(sizes, limit, s, CompactOf(sizes, limit, s))
  {
    GivenFrame(s, PROSE);
    GivenKeys(s, PROSE);
    ClearedFiles(sizes, cost, limit, s);
    ReducedExact(sizes, cost, limit, Cleared(s));
    assert Repository in s.text && Repository in Least(s).text;
    PathsExact(sizes, limit, Least(s));
  }

  // With JSON's sizes each stage's state is the kept one exactly when the least it leaves is the first
  // that fits; when none fits, the type alone is returned if it does.
  lemma CompactExact(sizes: Sizes, cost: string -> nat, limit: int, s: State)
    requires ListsAddUp(sizes, cost) && TextsShrink(sizes) && s.Complete()
    ensures var r := CompactOf(sizes, limit, s);
            if Fits(sizes, limit, s) then r == Kept(s)
            else if !NoneBefore(sizes, limit, s, PROSE, |PROSE| + 1) then
              exists k: nat :: FirstFit(sizes, limit, s, PROSE, k)
                && r == Kept(FitText(sizes, limit, Given(s, PROSE[..k - 1]), PROSE[k - 1]))
            else LateResult(sizes, limit, s, r)
  {
    if NoneBefore(sizes, limit, s, PROSE, |PROSE| + 1) {
      AllGivenUp(sizes, limit, s, PROSE);
      assert PROSE[..5] == PROSE;
      if !Fits(sizes, limit, s) {
        LateExact(sizes, cost, limit, s);
      }
    } else {
      if forall k: nat :: !FirstFit(sizes, limit, s, PROSE, k) {
        NoFirstFit(sizes, limit, s, PROSE, |PROSE| + 1);
      }
      var k: nat :| FirstFit(sizes, limit, s, PROSE, k);
      FieldIsCut(sizes, limit, s, PROSE, k);
    }
  }

  lemma ReducedExact(sizes: Sizes, cost: string -> nat, limit: int, s: State)
    requires ListsAddUp(sizes, cost)
    ensures var t, kind := FitAction(sizes, limit, s), ActionKind(s.action);
            && (s.action.command.None? || Fits(sizes, limit, ArgvState(s, kind, [])) ==> t == ArgvState(s, kind, []))
            && (s.action.command.Some? && !Fits(sizes, limit, ArgvState(s, kind, [])) ==>
                  (Fits(sizes, limit, t) <==> Fits(sizes, limit, CommandState(s, kind, "")))
                  && (!Fits(sizes, limit, t) ==> t == CommandState(s, kind, "")))
  {
    LeastOfAction(sizes, limit, s);
    if s.action.command.None? {
      var kind := ActionKind(s.action);
      ArgumentsClosed(sizes, cost, limit, ArgvState(s, kind, []), kind, s.action.argv);
      ArgumentsAreAllOrNothing(sizes, limit, s);
    }
  }
}
