/** File-change aggregation of src/client/features/chat/file-change-summary.ts. */
module FileChangeSummary {
  import opened Wrappers

  /** A count that is not a number is absent. */
  datatype Change = Change(path: string, additions: Option<int>, deletions: Option<int>)
  {
    predicate Known() {
      additions.Some? && deletions.Some?
    }
  }

  datatype Activity = Activity(caption: string, detail: string, occurredAt: Option<int>, changes: seq<Change>)
  datatype ChangedFile = ChangedFile(path: string, additions: Option<int>, deletions: Option<int>, touchedAt: Option<int>)
  datatype Totals = Totals(files: nat, additions: Option<int>, deletions: Option<int>)

  // ----- Which changes an activity reports -----

  function Lower(c: char): char {
    if 'A' <= c <= 'Z' then c - 'A' + 'a' else c
  }

  /** `label.toLowerCase().replaceAll(' ', '')`. */
  function Squeezed(caption: string): string {
    if caption == "" then ""
    else (if caption[0] == ' ' then "" else [Lower(caption[0])]) + Squeezed(caption[1..])
  }

  predicate IsFileChange(caption: string) {
    "filechange" <= Squeezed(caption)
  }

  /** `split('\n').filter(Boolean)`, given the line read so far. */
  function Lines(text: string, line: string): seq<string> {
    if text == "" then NonEmpty(line)
    else if text[0] == '\n' then NonEmpty(line) + Lines(text[1..], "")
    else Lines(text[1..], line + [text[0]])
  }

  function NonEmpty(line: string): seq<string> {
    if line == "" then [] else [line]
  }

  function ChangesOf(activity: Activity): seq<Change> {
    if !IsFileChange(activity.caption) then []
    else if activity.changes != [] then activity.changes
    else
      var paths := Lines(activity.detail, "");
      seq(|paths|, i requires 0 <= i < |paths| => Change(paths[i], None, None))
  }

  /** Every reported change with the moment of its activity, in order. */
  type Stamped = (Change, Option<int>)

  function AllChanges(activities: seq<Activity>): seq<Stamped> {
    if activities == [] then []
    else
      var last := activities[|activities| - 1];
      AllChanges(activities[..|activities| - 1]) + StampAll(ChangesOf(last), last.occurredAt)
  }

  function StampAll(changes: seq<Change>, at: Option<int>): seq<Stamped> {
    seq(|changes|, i requires 0 <= i < |changes| => (changes[i], at))
  }

  /** The word, letter by letter in either case, with any spaces between. */
  predicate SpellsOut(caption: string, word: string) {
    if word == "" then true
    else if caption == "" then false
    else if caption[0] == ' ' then SpellsOut(caption[1..], word)
    else (caption[0] == word[0] || ('A' <= caption[0] <= 'Z' && caption[0] - 'A' + 'a' == word[0]))
         && SpellsOut(caption[1..], word[1..])
  }

  lemma {:induction false} CaptionExactly(caption: string, word: string)
    requires forall i | 0 <= i < |word| :: 'a' <= word[i] <= 'z'
    ensures word <= Squeezed(caption) <==> SpellsOut(caption, word)
  {
    if word != "" && caption != "" {
      var rest := Squeezed(caption[1..]);
      if caption[0] == ' ' {
        CaptionExactly(caption[1..], word);
      } else {
        CaptionExactly(caption[1..], word[1..]);
        var all := [Lower(caption[0])] + rest;
        assert all[1..] == rest && word == [word[0]] + word[1..];
        assert word <= all <==> word[0] == all[0] && word[1..] <= rest;
      }
    }
  }

  predicate OneLine(text: string) {
    forall i | 0 <= i < |text| :: text[i] != '\n'
  }

  predicate OneLiners(lines: seq<string>) {
    forall i | 0 <= i < |lines| :: OneLine(lines[i])
  }

  /** `join('\n')` of at least one line. */
  function Joined(lines: seq<string>): string
    requires lines != []
  {
    if |lines| == 1 then lines[0] else Joined(lines[..|lines| - 1]) + "\n" + lines[|lines| - 1]
  }

  function Filled(lines: seq<string>): seq<string> {
    if lines == [] then []
    else Filled(lines[..|lines| - 1]) + (if lines[|lines| - 1] != "" then [lines[|lines| - 1]] else [])
  }

  /** The line a text breaks off in, after the last of its newlines. */
  lemma {:induction false} LinesOfTail(text: string, line: string, last: string)
    requires OneLine(last)
    ensures Lines(text + "\n" + last, line) == Lines(text, line) + NonEmpty(last)
    decreases |text|
  {
    if text == "" {
      assert text + "\n" + last == "\n" + last && ("\n" + last)[1..] == last;
      LineOf(last, "");
      assert "" + last == last;
    } else {
      var whole := text + "\n" + last;
      assert whole[0] == text[0] && whole[1..] == text[1..] + "\n" + last;
      LinesOfTail(text[1..], if text[0] == '\n' then "" else line + [text[0]], last);
    }
  }

  lemma {:induction false} LineOf(text: string, line: string)
    requires OneLine(text)
    ensures Lines(text, line) == NonEmpty(line + text)
    decreases |text|
  {
    if text == "" {
      assert line + text == line;
    } else {
      LineOf(text[1..], line + [text[0]]);
      assert line + [text[0]] + text[1..] == line + text;
    }
  }

  /** The lines of a text are the filled ones among those it joins, in order. */
  lemma {:induction false} LinesExactly(lines: seq<string>)
    requires lines != [] && OneLiners(lines)
    ensures Lines(Joined(lines), "") == Filled(lines)
  {
    var n := |lines| - 1;
    if n == 0 {
      LineOf(lines[0], "");
      assert "" + lines[0] == lines[0] && lines[..0] == [];
    } else {
      LinesExactly(lines[..n]);
      LinesOfTail(Joined(lines[..n]), "", lines[n]);
    }
  }

  /** Every text is joined out of some lines. */
  lemma {:induction false} TextIsJoined(text: string) returns (lines: seq<string>)
    ensures lines != [] && OneLiners(lines) && Joined(lines) == text
  {
    if text == "" {
      return [""];
    }
    var n := |text| - 1;
    lines := TextIsJoined(text[..n]);
    var k := |lines| - 1;
    if text[n] == '\n' {
      assert (lines + [""])[..k + 1] == lines;
      assert Joined(lines) + "\n" + "" == text;
      lines := lines + [""];
    } else {
      var longer := lines[k := lines[k] + [text[n]]];
      assert longer[..k] == lines[..k];
      if k > 0 {
        assert Joined(lines[..k]) + "\n" + (lines[k] + [text[n]]) == (Joined(lines[..k]) + "\n" + lines[k]) + [text[n]];
      }
      lines := longer;
    }
  }

  /**
    What an activity reports: nothing unless its caption spells out a file change; then its own
    changes if it has any, and otherwise one change of unknown size for each filled line of its detail.
  */
  lemma ReportedExactly(activity: Activity)
    ensures exists lines :: && lines != [] && OneLiners(lines) && Joined(lines) == activity.detail
                            && Reports(activity, Filled(lines), ChangesOf(activity))
  {
    CaptionExactly(activity.caption, "filechange");
    var lines := TextIsJoined(activity.detail);
    LinesExactly(lines);
  }

  predicate Reports(activity: Activity, paths: seq<string>, changes: seq<Change>) {
    if !SpellsOut(activity.caption, "filechange") then changes == []
    else if |activity.changes| > 0 then changes == activity.changes
    else
      && |changes| == |paths|
      && forall i | 0 <= i < |paths| ::
           changes[i].path == paths[i] && changes[i].additions.None? && changes[i].deletions.None?
  }

  // ----- What the summary means -----

  /** The counts of one path, or of all of them: unknown as soon as one change is. */
  datatype Measure = Additions | Deletions
  {
    function Of(c: Change): int {
      match this
      case Additions => c.additions.GetOr(0)
      case Deletions => c.deletions.GetOr(0)
    }

    function In(f: ChangedFile): Option<int> {
      match this
      case Additions => f.additions
      case Deletions => f.deletions
    }
  }

  predicate AllKnown(changes: seq<Stamped>, path: string) {
    forall i | 0 <= i < |changes| && changes[i].0.path == path :: changes[i].0.Known()
  }

  function SumFor(changes: seq<Stamped>, path: string, m: Measure): int {
    if changes == [] then 0
    else
      var last := changes[|changes| - 1].0;
      SumFor(changes[..|changes| - 1], path, m) + (if last.path == path then m.Of(last) else 0)
  }

  function SumAll(changes: seq<Stamped>, m: Measure): int {
    if changes == [] then 0 else SumAll(changes[..|changes| - 1], m) + m.Of(changes[|changes| - 1].0)
  }

  function FirstSeen(changes: seq<Stamped>): seq<string> {
    if changes == [] then []
    else
      var seen := FirstSeen(changes[..|changes| - 1]);
      var path := changes[|changes| - 1].0.path;
      if path in seen then seen else seen + [path]
  }

  /** The latest moment a path was touched, counted from zero; absent when no activity was timed. */
  function TouchedAt(changes: seq<Stamped>, path: string): Option<int> {
    if changes == [] then None
    else
      var (last, at) := changes[|changes| - 1];
      var prior := TouchedAt(changes[..|changes| - 1], path);
      if last.path != path || at.None? then prior
      else Some(if prior.GetOr(0) > at.value then prior.GetOr(0) else at.value)
  }

  predicate Describes(f: ChangedFile, changes: seq<Stamped>) {
    && f.additions == (if AllKnown(changes, f.path) then Some(SumFor(changes, f.path, Additions)) else None)
    && f.deletions == (if AllKnown(changes, f.path) then Some(SumFor(changes, f.path, Deletions)) else None)
    && f.touchedAt == TouchedAt(changes, f.path)
  }

  /** Each path once, in first-seen order, with its exact sums or unknown. */
  predicate IsSummary(files: seq<ChangedFile>, changes: seq<Stamped>) {
    && |files| == |FirstSeen(changes)|
    && forall i | 0 <= i < |files| :: files[i].path == FirstSeen(changes)[i] && Describes(files[i], changes)
  }

  // ----- The aggregation -----

  function Merge(prior: Option<ChangedFile>, change: Change, at: Option<int>): ChangedFile {
    var known := change.Known();
    ChangedFile(
      change.path,
      if known && (prior.None? || prior.value.additions.Some?)
      then Some((if prior.Some? then prior.value.additions.value else 0) + change.additions.value) else None,
      if known && (prior.None? || prior.value.deletions.Some?)
      then Some((if prior.Some? then prior.value.deletions.value else 0) + change.deletions.value) else None,
      var before := if prior.Some? then prior.value.touchedAt else None;
      if at.Some? then Some(if before.GetOr(0) > at.value then before.GetOr(0) else at.value) else before)
  }

  /** The insertion-ordered Map: keys in order, and the file of each. */
  ghost predicate IsTable(order: seq<string>, files: map<string, ChangedFile>, changes: seq<Stamped>) {
    && order == FirstSeen(changes)
    && (forall path :: path in files <==> path in order)
    && (forall path | path in files :: files[path].path == path && Describes(files[path], changes))
  }

  lemma {:induction false} FirstSeenIsComplete(changes: seq<Stamped>)
    ensures forall i | 0 <= i < |changes| :: changes[i].0.path in FirstSeen(changes)
    ensures forall i, j | 0 <= i < j < |FirstSeen(changes)| :: FirstSeen(changes)[i] != FirstSeen(changes)[j]
  {
    if changes != [] {
      FirstSeenIsComplete(changes[..|changes| - 1]);
    }
  }

  lemma {:induction false} UnseenIsEmpty(changes: seq<Stamped>, path: string)
    requires path !in FirstSeen(changes)
    ensures AllKnown(changes, path) && TouchedAt(changes, path) == None
    ensures SumFor(changes, path, Additions) == 0 && SumFor(changes, path, Deletions) == 0
  {
    FirstSeenIsComplete(changes);
    if changes != [] {
      UnseenIsEmpty(changes[..|changes| - 1], path);
    }
  }

  /** Describing one more change: the merged file for its path, any other file as before. */
  lemma DescribeNext(f: ChangedFile, changes: seq<Stamped>, change: Change, at: Option<int>)
    ensures f.path != change.path && Describes(f, changes) ==> Describes(f, changes + [(change, at)])
    ensures f.path == change.path && Describes(f, changes) ==>
      Describes(Merge(Some(f), change, at), changes + [(change, at)])
    ensures change.path !in FirstSeen(changes) ==> Describes(Merge(None, change, at), changes + [(change, at)])
  {
    var all := changes + [(change, at)];
    assert all[..|all| - 1] == changes;
    assert forall path :: AllKnown(all, path) <==> AllKnown(changes, path) && (change.path == path ==> change.Known()) by {
      assert all[|changes|] == (change, at);
      assert forall i | 0 <= i < |changes| :: all[i] == changes[i];
    }
    if change.path !in FirstSeen(changes) {
      UnseenIsEmpty(changes, change.path);
    }
  }

  method SummarizeChangedFiles(activities: seq<Activity>) returns (r: seq<ChangedFile>)
    ensures IsSummary(r, AllChanges(activities))
  {
    var order: seq<string>, files: map<string, ChangedFile> := [], map[];
    for i := 0 to |activities|
      invariant IsTable(order, files, AllChanges(activities[..i]))
    {
      assert activities[..i + 1][..i] == activities[..i];
      order, files := InsertAll(order, files, ChangesOf(activities[i]), activities[i].occurredAt, AllChanges(activities[..i]));
    }
    assert activities[..|activities|] == activities;
    FirstSeenIsComplete(AllChanges(activities));
    r := seq(|order|, i requires 0 <= i < |order| => files[order[i]]);
  }

  /** The inner loop: one activity's changes. */
  method InsertAll(order: seq<string>, files: map<string, ChangedFile>, changes: seq<Change>, at: Option<int>,
                   ghost seen: seq<Stamped>) returns (order': seq<string>, files': map<string, ChangedFile>)
    requires IsTable(order, files, seen)
    ensures IsTable(order', files', seen + StampAll(changes, at))
  {
    order', files' := order, files;
    assert seen + StampAll(changes[..0], at) == seen;
    for k := 0 to |changes|
      invariant IsTable(order', files', seen + StampAll(changes[..k], at))
    {
      assert seen + StampAll(changes[..k + 1], at) == seen + StampAll(changes[..k], at) + [(changes[k], at)];
      order', files' := Insert(order', files', changes[k], at, seen + StampAll(changes[..k], at));
    }
    assert changes[..|changes|] == changes;
  }

  /** `files.set` with the merged entry: a new key goes last, a known one keeps its place. */
  method Insert(order: seq<string>, files: map<string, ChangedFile>, change: Change, at: Option<int>,
                ghost seen: seq<Stamped>) returns (order': seq<string>, files': map<string, ChangedFile>)
    requires IsTable(order, files, seen)
    ensures IsTable(order', files', seen + [(change, at)])
  {
    ghost var all := seen + [(change, at)];
    assert all[..|all| - 1] == seen;
    order' := if change.path in files then order else order + [change.path];
    files' := files[change.path := Merge(Get(files, change.path), change, at)];
    forall path | path in files' ensures files'[path].path == path && Describes(files'[path], all) {
      if path in files { DescribeNext(files[path], seen, change, at); }
      else { DescribeNext(files'[path], seen, change, at); }
    }
  }

  // ----- One more change -----

  /** A count after one more change: the sum, where the change and everything before it is known. */
  predicate Counts(before: Option<int>, more: Option<int>, known: bool, after: Option<int>) {
    if known && before.Some? && more.Some? then after == Some(before.value + more.value) else after.None?
  }

  /** The file of the changed path, which had `added`, `deleted` and `touched` before. */
  predicate Grown(added: Option<int>, deleted: Option<int>, touched: Option<int>, change: Change, at: Option<int>, f: ChangedFile) {
    var known := change.additions.Some? && change.deletions.Some?;
    && f.path == change.path
    && Counts(added, change.additions, known, f.additions) && Counts(deleted, change.deletions, known, f.deletions)
    && (if at.None? then f.touchedAt == touched
        else
          && f.touchedAt.Some? && f.touchedAt.value >= at.value && f.touchedAt.value >= touched.GetOr(0)
          && (f.touchedAt == at || f.touchedAt.value == touched.GetOr(0)))
  }

  /**
    One more change grows the file of its path in place, or adds that file at the end, counted from
    nothing; every other file stays as it is.
  */
  lemma OneMoreChange(f: seq<ChangedFile>, g: seq<ChangedFile>, changes: seq<Stamped>, change: Change, at: Option<int>)
    requires IsSummary(f, changes) && IsSummary(g, changes + [(change, at)])
    ensures |g| >= |f| && forall k | 0 <= k < |f| ::
      (if f[k].path != change.path then g[k] == f[k]
       else Grown(f[k].additions, f[k].deletions, f[k].touchedAt, change, at, g[k]))
    ensures if exists k :: 0 <= k < |f| && f[k].path == change.path then |g| == |f|
      else |g| == |f| + 1 && Grown(Some(0), Some(0), None, change, at, g[|f|])
  {
    var all := changes + [(change, at)];
    assert all[..|all| - 1] == changes;
    forall k | 0 <= k < |f| ensures g[k].path == f[k].path {
      assert f[k].path == FirstSeen(changes)[k];
    }
    forall k | 0 <= k < |f| && f[k].path != change.path ensures g[k] == f[k] {
      DescribeNext(f[k], changes, change, at);
      assert Describes(g[k], all);
    }
    forall k | 0 <= k < |f| && f[k].path == change.path
      ensures Grown(f[k].additions, f[k].deletions, f[k].touchedAt, change, at, g[k])
    {
      DescribeNext(f[k], changes, change, at);
      assert Describes(g[k], all);
    }
    if forall k | 0 <= k < |f| :: f[k].path != change.path {
      assert change.path !in FirstSeen(changes) by {
        assert forall k | 0 <= k < |f| :: FirstSeen(changes)[k] == f[k].path;
      }
      UnseenIsEmpty(changes, change.path);
      DescribeNext(g[|f|], changes, change, at);
      assert Describes(g[|f|], all);
    }
  }

  /** The summary of nothing, and how the changes of an activity line up behind those before it. */
  lemma ChangesInTurn(activities: seq<Activity>, next: Activity)
    ensures IsSummary([], AllChanges([]))
    ensures var before, all := AllChanges(activities), AllChanges(activities + [next]);
      && |all| == |before| + |ChangesOf(next)| && all[..|before|] == before
      && forall i | 0 <= i < |ChangesOf(next)| :: all[|before| + i] == (ChangesOf(next)[i], next.occurredAt)
  {
    assert (activities + [next])[..|activities|] == activities;
  }

  // ----- Totals -----

  function Reduced(files: seq<ChangedFile>, m: Measure): Option<int> {
    if forall i | 0 <= i < |files| :: m.In(files[i]).Some? then Some(Reduce(files, m)) else None
  }

  function Reduce(files: seq<ChangedFile>, m: Measure): int {
    if files == [] then 0 else Reduce(files[..|files| - 1], m) + m.In(files[|files| - 1]).GetOr(0)
  }

  function SummarizeFileChangeTotals(files: seq<ChangedFile>): Totals {
    Totals(|files|, Reduced(files, Additions), Reduced(files, Deletions))
  }

  /** One more file adds its own counts, each known only while all of that kind are. */
  lemma TotalsInTurn(files: seq<ChangedFile>, f: ChangedFile)
    ensures SummarizeFileChangeTotals([]) == Totals(0, Some(0), Some(0))
    ensures var before, after := SummarizeFileChangeTotals(files), SummarizeFileChangeTotals(files + [f]);
      && after.files == before.files + 1
      && Counts(before.additions, f.additions, true, after.additions)
      && Counts(before.deletions, f.deletions, true, after.deletions)
  {
    var all := files + [f];
    assert all[..|files|] == files && all[|files|] == f;
    assert forall i | 0 <= i < |files| :: all[i] == files[i];
  }

  function SumOver(changes: seq<Stamped>, paths: seq<string>, m: Measure): int {
    if paths == [] then 0
    else SumOver(changes, paths[..|paths| - 1], m) + SumFor(changes, paths[|paths| - 1], m)
  }

  lemma {:induction false} SumOverNext(changes: seq<Stamped>, paths: seq<string>, next: Stamped, m: Measure)
    requires forall i, j | 0 <= i < j < |paths| :: paths[i] != paths[j]
    ensures SumOver(changes + [next], paths, m)
         == SumOver(changes, paths, m) + (if next.0.path in paths then m.Of(next.0) else 0)
  {
    if paths != [] {
      SumOverNext(changes, paths[..|paths| - 1], next, m);
      assert (changes + [next])[..|changes|] == changes;
      assert next.0.path in paths <==> next.0.path in paths[..|paths| - 1] || next.0.path == paths[|paths| - 1];
    }
  }

  /** Summing per path first and over paths second loses nothing. */
  lemma {:induction false} PathSumsConserve(changes: seq<Stamped>, m: Measure)
    ensures SumOver(changes, FirstSeen(changes), m) == SumAll(changes, m)
  {
    if changes != [] {
      var earlier := changes[..|changes| - 1];
      var next := changes[|changes| - 1];
      var seen := FirstSeen(earlier);
      PathSumsConserve(earlier, m);
      FirstSeenIsComplete(earlier);
      assert changes == earlier + [next];
      SumOverNext(earlier, seen, next, m);
      if next.0.path !in seen {
        assert (seen + [next.0.path])[..|seen|] == seen;
        UnseenIsEmpty(earlier, next.0.path);
      }
    }
  }

  lemma {:induction false} ReducedIsSumOver(files: seq<ChangedFile>, changes: seq<Stamped>, paths: seq<string>, m: Measure)
    requires |files| == |paths|
    requires forall i | 0 <= i < |files| :: m.In(files[i]) == Some(SumFor(changes, paths[i], m))
    ensures Reduce(files, m) == SumOver(changes, paths, m)
  {
    if files != [] {
      ReducedIsSumOver(files[..|files| - 1], changes, paths[..|paths| - 1], m);
    }
  }

  predicate Exact(total: Option<int>, changes: seq<Stamped>, m: Measure) {
    total == if forall i | 0 <= i < |changes| :: changes[i].0.Known() then Some(SumAll(changes, m)) else None
  }

  /** The totals count each path once and sum every change of every activity. */
  lemma TotalsConserve(files: seq<ChangedFile>, changes: seq<Stamped>)
    requires IsSummary(files, changes)
    ensures var totals := SummarizeFileChangeTotals(files);
      && totals.files == |set i | 0 <= i < |changes| :: changes[i].0.path|
      && Exact(totals.additions, changes, Additions) && Exact(totals.deletions, changes, Deletions)
  {
    FirstSeenIsComplete(changes);
    DistinctCount(changes);
    if forall i | 0 <= i < |changes| :: changes[i].0.Known() {
      PathSumsConserve(changes, Additions);
      PathSumsConserve(changes, Deletions);
      ReducedIsSumOver(files, changes, FirstSeen(changes), Additions);
      ReducedIsSumOver(files, changes, FirstSeen(changes), Deletions);
    } else {
      var i :| 0 <= i < |changes| && !changes[i].0.Known();
      var k :| 0 <= k < |FirstSeen(changes)| && FirstSeen(changes)[k] == changes[i].0.path;
      assert files[k].additions.None? && files[k].deletions.None?;
    }
  }

  lemma {:induction false} DistinctCount(changes: seq<Stamped>)
    ensures |FirstSeen(changes)| == |set i | 0 <= i < |changes| :: changes[i].0.path|
    ensures (set i | 0 <= i < |changes| :: changes[i].0.path) == set path | path in FirstSeen(changes)
  {
    if changes != [] {
      var earlier := changes[..|changes| - 1];
      var path := changes[|changes| - 1].0.path;
      DistinctCount(earlier);
      var before := set i | 0 <= i < |earlier| :: earlier[i].0.path;
      assert (set i | 0 <= i < |changes| :: changes[i].0.path) == before + {path};
    }
  }

  lemma {:induction false} SumAllRemove(changes: seq<Stamped>, i: nat, m: Measure)
    requires i < |changes|
    ensures SumAll(changes, m) == SumAll(Without(changes, i), m) + m.Of(changes[i].0)
  {
    var n := |changes| - 1;
    if i == n {
      assert Without(changes, i) == changes[..n];
    } else {
      SumAllRemove(changes[..n], i, m);
      RemoveFromFront(changes, i);
      var rest := Without(changes, i);
      assert SumAll(rest, m) == SumAll(rest[..n - 1], m) + m.Of(rest[n - 1].0);
    }
  }

  function Without(changes: seq<Stamped>, i: nat): (rest: seq<Stamped>)
    requires i < |changes|
    ensures |rest| == |changes| - 1
  {
    changes[..i] + changes[i + 1..]
  }

  lemma RemoveFromFront(changes: seq<Stamped>, i: nat)
    requires i < |changes| - 1
    ensures var n, rest := |changes| - 1, Without(changes, i);
      rest[n - 1] == changes[n] && rest[..n - 1] == Without(changes[..n], i)
  {
  }

  lemma MultisetRemove(changes: seq<Stamped>, i: nat)
    requires i < |changes|
    ensures multiset(Without(changes, i)) == multiset(changes) - multiset{changes[i]}
  {
    assert changes == changes[..i] + [changes[i]] + changes[i + 1..];
  }

  /** Reordering changes, within or across activities, leaves the total as it is. */
  lemma {:induction false} SumAllIgnoresOrder(a: seq<Stamped>, b: seq<Stamped>, m: Measure)
    requires multiset(a) == multiset(b)
    ensures SumAll(a, m) == SumAll(b, m)
  {
    if a == [] {
      assert |multiset(b)| == 0;
    } else {
      var n := |a| - 1;
      assert a[n] in multiset(b);
      var i :| 0 <= i < |b| && b[i] == a[n];
      MultisetRemove(a, n);
      MultisetRemove(b, i);
      assert Without(a, n) == a[..n];
      SumAllIgnoresOrder(a[..n], Without(b, i), m);
      SumAllRemove(b, i, m);
    }
  }

  lemma TotalsIgnoreOrder(f: seq<ChangedFile>, g: seq<ChangedFile>, a: seq<Stamped>, b: seq<Stamped>)
    requires IsSummary(f, a) && IsSummary(g, b) && multiset(a) == multiset(b)
    ensures SummarizeFileChangeTotals(f) == SummarizeFileChangeTotals(g)
  {
    TotalsConserve(f, a);
    TotalsConserve(g, b);
    SumAllIgnoresOrder(a, b, Additions);
    SumAllIgnoresOrder(a, b, Deletions);
    SameElements(a, b);
  }

  /** A reordering reports the same paths, and is as fully known. */
  lemma SameElements(a: seq<Stamped>, b: seq<Stamped>)
    requires multiset(a) == multiset(b)
    ensures (set i | 0 <= i < |a| :: a[i].0.path) == (set i | 0 <= i < |b| :: b[i].0.path)
    ensures (forall i | 0 <= i < |a| :: a[i].0.Known()) <==> (forall i | 0 <= i < |b| :: b[i].0.Known())
  {
    forall i | 0 <= i < |a| ensures exists k :: 0 <= k < |b| && b[k] == a[i] {
      assert a[i] in multiset(b);
    }
    forall i | 0 <= i < |b| ensures exists k :: 0 <= k < |a| && a[k] == b[i] {
      assert b[i] in multiset(a);
    }
  }
}
