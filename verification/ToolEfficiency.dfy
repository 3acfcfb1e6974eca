/**
  The tool-efficiency contract of src/shared/contracts/tool-efficiency.ts and the register that
  keeps its newest snapshot.

  The parser stringifies enumerated fields before comparing them, so one-element arrays pass; a
  parsed snapshot therefore keeps those fields as the JSON values they were.
*/
module ToolEfficiency {
  import opened Wrappers
  import opened Json

  /** The property names the parser reads. */
  datatype Name =
    | SessionId | Revision | Scope | Coverage | MissingCorrelation | RetentionLimited | Groups | ObservedAt
    | RuntimeId | ThreadId | Actor | Family | Layer | Calls | CompletedCalls | FailedCalls | DeliveredScope
    | Completeness | Metric(i: nat) | Quality(i: nat) | Value | MeasuredCalls
    | Complete | Partial | Unknown | Missing | Unlisted(name: string)

  type Value = Json<Name>

  /** Metrics 0 to 6 are durationMs, deliveredBytes, rawBytes, processedBytes, retries, reusedCalls, truncatedCalls. */
  const METRICS: nat := 7
  /** Qualities 0 to 2 are capture, display, evidence. */
  const QUALITIES: nat := 3
  const COVERAGES := {"complete", "partial", "unknown"}
  const ACTORS := {"root", "child", "unknown"}
  const FAMILIES := {"command", "mcp", "contextMode", "executionWrapper", "dynamic", "collaboration"}
  const SCOPES := {"commandOutputUtf8", "serializedMcpContent", "serializedDynamicContent"}

  datatype Total = Total(value: Option<nat>, measuredCalls: nat, coverage: Value)
  datatype Counts = Counts(complete: nat, partial: nat, unknown: nat, missing: nat)
  datatype Group = Group(
    runtimeId: string, threadId: string, actor: Value, family: Value, layer: string,
    calls: nat, completedCalls: nat, failedCalls: nat, deliveredScope: Option<string>,
    metrics: seq<Total>, completeness: seq<Counts>)
  datatype Snapshot = Snapshot(
    sessionId: string, revision: nat, observedAt: Option<string>, coverage: Value,
    missingCorrelation: bool, retentionLimited: bool, groups: seq<Group>)

  // ----- What the contract accepts, and what it keeps -----

  predicate IsId(value: Option<Value>) {
    && value.Some? && value.value.Str?
    && 1 <= |value.value.s| <= 256
    && forall i | 0 <= i < |value.value.s| :: IsIdChar(value.value.s[i])
  }

  predicate IsIdChar(c: char) {
    IsLetter(c) || IsDigit(c) || c == '_' || c == '.' || c == ':' || c == '/' || c == '-'
  }

  predicate IsWord(value: Option<Value>, words: set<string>) {
    value.Some? && CoercesTo(value.value, words)
  }

  predicate IsObject(value: Option<Value>) {
    value.Some? && value.value.Obj?
  }

  function Keep(value: Option<Value>): Value {
    value.GetOr(Null)
  }

  predicate MetricOk(metric: Option<Value>, calls: nat) {
    var value, measured, coverage := Field(metric, Value), Field(metric, MeasuredCalls), Field(metric, Coverage);
    && IsObject(metric)
    && (value == Some(Null) || IsCount(value))
    && IsCount(measured) && Count(measured) <= calls
    && (value != Some(Null) ==> Count(measured) != 0)
    && IsWord(coverage, COVERAGES)
    && (coverage == Some(Str("complete")) ==> value != Some(Null) && Count(measured) == calls)
    && (coverage == Some(Str("unknown")) ==> value == Some(Null) && Count(measured) == 0)
  }

  function KeptMetric(metric: Option<Value>): Total {
    var value := Field(metric, Value);
    Total(if IsCount(value) then Some(Count(value)) else None,
          Count(Field(metric, MeasuredCalls)), Keep(Field(metric, Coverage)))
  }

  predicate CountsOk(entry: Option<Value>, calls: nat) {
    && IsObject(entry)
    && IsCount(Field(entry, Complete)) && IsCount(Field(entry, Partial))
    && IsCount(Field(entry, Unknown)) && IsCount(Field(entry, Missing))
    && Sum(KeptCounts(entry)) == calls
  }

  function KeptCounts(entry: Option<Value>): Counts {
    Counts(Count(Field(entry, Complete)), Count(Field(entry, Partial)),
           Count(Field(entry, Unknown)), Count(Field(entry, Missing)))
  }

  function Sum(c: Counts): nat {
    c.complete + c.partial + c.unknown + c.missing
  }

  function LayerOf(family: Value): string {
    if family == Str("executionWrapper") then "wrapper" else "tool"
  }

  /** The part of a group checked before its metrics. */
  predicate GroupHeadOk(raw: Value) {
    var group := Some(raw);
    var calls := Field(group, Calls);
    && raw.Obj?
    && IsId(Field(group, RuntimeId)) && IsId(Field(group, ThreadId))
    && IsWord(Field(group, Actor), ACTORS) && IsWord(Field(group, Family), FAMILIES)
    && Field(group, Layer) == Some(Str(LayerOf(Keep(Field(group, Family)))))
    && IsCount(calls) && 1 <= Count(calls) <= 1024
    && IsCount(Field(group, CompletedCalls)) && Count(Field(group, CompletedCalls)) <= Count(calls)
    && IsCount(Field(group, FailedCalls)) && Count(Field(group, FailedCalls)) <= Count(calls)
    && (|| Field(group, DeliveredScope) == Some(Null)
        || (Field(group, DeliveredScope).Some? && Field(group, DeliveredScope).value.Str?
            && Field(group, DeliveredScope).value.s in SCOPES))
  }

  predicate GroupOk(raw: Value) {
    var calls := Count(Field(Some(raw), Calls));
    && GroupHeadOk(raw)
    && (forall i: nat | i < METRICS :: MetricOk(Field(Some(raw), Metric(i)), calls))
    && (forall i: nat | i < QUALITIES :: CountsOk(Field(Field(Some(raw), Completeness), Quality(i)), calls))
  }

  predicate AllGroupsOk(raws: seq<Value>) {
    forall i | 0 <= i < |raws| :: GroupOk(raws[i])
  }

  function KeptGroup(raw: Value): Group {
    var group := Some(raw);
    Group(Text(Field(group, RuntimeId)), Text(Field(group, ThreadId)),
          Keep(Field(group, Actor)), Keep(Field(group, Family)), Text(Field(group, Layer)),
          Count(Field(group, Calls)), Count(Field(group, CompletedCalls)), Count(Field(group, FailedCalls)),
          if Field(group, DeliveredScope) == Some(Null) then None else Some(Text(Field(group, DeliveredScope))),
          seq(METRICS, i requires 0 <= i < METRICS => KeptMetric(Field(group, Metric(i)))),
          seq(QUALITIES, i requires 0 <= i < QUALITIES => KeptCounts(Field(Field(group, Completeness), Quality(i)))))
  }

  /** What JSON.stringify of the four identifying fields tells apart. */
  function Identity(group: Group): (string, string, Value, Value) {
    (group.runtimeId, group.threadId, group.actor, group.family)
  }

  function TotalCalls(groups: seq<Group>): nat {
    if groups == [] then 0 else TotalCalls(groups[..|groups| - 1]) + groups[|groups| - 1].calls
  }

  predicate DistinctIdentities(groups: seq<Group>) {
    forall i, j | 0 <= i < j < |groups| :: Identity(groups[i]) != Identity(groups[j])
  }

  /** `isDate` is `Number.isFinite(Date.parse(text))`. */
  predicate HeadOk(input: Option<Value>, sessionId: string, isDate: string -> bool) {
    var observedAt := Field(input, ObservedAt);
    && IsObject(input)
    && IsId(Field(input, SessionId)) && Text(Field(input, SessionId)) == sessionId
    && IsCount(Field(input, Revision))
    && Field(input, Scope) == Some(Str("observedCallsOnly"))
    && IsWord(Field(input, Coverage), {"partial", "unknown"})
    && Field(input, MissingCorrelation).Some? && Field(input, MissingCorrelation).value.Bool?
    && Field(input, RetentionLimited).Some? && Field(input, RetentionLimited).value.Bool?
    && Field(input, Groups).Some? && Field(input, Groups).value.Arr?
    && |Elements(Field(input, Groups))| <= 64
    && (|| observedAt == Some(Null)
        || (observedAt.Some? && observedAt.value.Str? && |observedAt.value.s| <= 64 && isDate(observedAt.value.s)))
  }

  function KeptGroups(raws: seq<Value>): seq<Group> {
    seq(|raws|, i requires 0 <= i < |raws| => KeptGroup(raws[i]))
  }

  predicate Accepts(input: Option<Value>, sessionId: string, isDate: string -> bool) {
    var raws := Elements(Field(input, Groups));
    && HeadOk(input, sessionId, isDate)
    && AllGroupsOk(raws)
    && DistinctIdentities(KeptGroups(raws))
    && TotalCalls(KeptGroups(raws)) <= 1024
  }

  function Kept(input: Option<Value>, sessionId: string): Snapshot {
    Snapshot(sessionId, Count(Field(input, Revision)),
             if Field(input, ObservedAt) == Some(Null) then None else Some(Text(Field(input, ObservedAt))),
             Keep(Field(input, Coverage)), Flag(Field(input, MissingCorrelation)),
             Flag(Field(input, RetentionLimited)), KeptGroups(Elements(Field(input, Groups))))
  }

  function Parsed(input: Option<Value>, sessionId: string, isDate: string -> bool): Option<Snapshot> {
    if Accepts(input, sessionId, isDate) then Some(Kept(input, sessionId)) else None
  }

  // ----- The same from the side of the values -----

  function Nested(word: string, depth: nat): Value {
    if depth == 0 then Str(word) else Arr([Nested(word, depth - 1)])
  }

  /** One of the words, or arrays of one element around it. */
  ghost predicate Spells(value: Value, words: set<string>) {
    exists word, depth: nat :: word in words && value == Nested(word, depth)
  }

  lemma {:induction false} SpellsExactly(value: Value, words: set<string>)
    ensures CoercesTo(value, words) <==> Spells(value, words)
  {
    match value
    case Str(s) =>
      assert value == Nested(s, 0);
    case Arr(items) =>
      if |items| == 1 {
        SpellsExactly(items[0], words);
        if Spells(items[0], words) {
          var word, depth: nat :| word in words && items[0] == Nested(word, depth);
          assert value == Nested(word, depth + 1);
        }
        if Spells(value, words) {
          var word, depth: nat :| word in words && value == Nested(word, depth);
          assert items[0] == Nested(word, depth - 1);
        }
      }
    case _ =>
  }

  predicate Identifier(s: string) {
    && 1 <= |s| <= 256
    && forall i | 0 <= i < |s| ::
         'a' <= s[i] <= 'z' || 'A' <= s[i] <= 'Z' || '0' <= s[i] <= '9' || s[i] in "_.:/-"
  }

  ghost predicate WellFormedTotal(t: Total, calls: nat) {
    && t.measuredCalls <= calls
    && (t.value.Some? ==> 1 <= t.measuredCalls && t.value.value <= MAX_SAFE_INTEGER)
    && Spells(t.coverage, {"complete", "partial", "unknown"})
    && (t.coverage == Str("complete") ==> t.value.Some? && t.measuredCalls == calls)
    && (t.coverage == Str("unknown") ==> t.value.None? && t.measuredCalls == 0)
  }

  ghost predicate WellFormedHead(g: Group) {
    && Identifier(g.runtimeId) && Identifier(g.threadId)
    && Spells(g.actor, {"root", "child", "unknown"})
    && Spells(g.family, {"command", "mcp", "contextMode", "executionWrapper", "dynamic", "collaboration"})
    && g.layer == (if g.family == Str("executionWrapper") then "wrapper" else "tool")
    && 1 <= g.calls <= 1024 && g.completedCalls <= g.calls && g.failedCalls <= g.calls
    && g.deliveredScope in {None, Some("commandOutputUtf8"), Some("serializedMcpContent"), Some("serializedDynamicContent")}
  }

  ghost predicate WellFormedGroup(g: Group) {
    && WellFormedHead(g) && |g.metrics| == 7 && |g.completeness| == 3
    && (forall i | 0 <= i < 7 :: WellFormedTotal(g.metrics[i], g.calls))
    && (forall i | 0 <= i < 3 :: var c := g.completeness[i]; c.complete + c.partial + c.unknown + c.missing == g.calls)
  }

  function CallsOf(groups: seq<Group>): nat {
    if groups == [] then 0 else groups[0].calls + CallsOf(groups[1..])
  }

  ghost predicate WellFormedTop(s: Snapshot, isDate: string -> bool) {
    && Identifier(s.sessionId) && s.revision <= MAX_SAFE_INTEGER
    && (s.observedAt.Some? ==> |s.observedAt.value| <= 64 && isDate(s.observedAt.value))
    && Spells(s.coverage, {"partial", "unknown"})
  }

  /** No two groups agree in all four identifying parts. */
  predicate Distinct(groups: seq<Group>) {
    forall i, j | 0 <= i < j < |groups| ::
      || groups[i].runtimeId != groups[j].runtimeId || groups[i].threadId != groups[j].threadId
      || groups[i].actor != groups[j].actor || groups[i].family != groups[j].family
  }

  /** What a snapshot is, whatever it was parsed from. */
  ghost predicate WellFormed(s: Snapshot, isDate: string -> bool) {
    && WellFormedTop(s, isDate)
    && |s.groups| <= 64 && CallsOf(s.groups) <= 1024 && Distinct(s.groups)
    && forall i | 0 <= i < |s.groups| :: WellFormedGroup(s.groups[i])
  }

  /** Property access finds the total's parts under their own names. */
  predicate ListsTotal(metric: Option<Value>, t: Total) {
    && Field(metric, Value) == Some(if t.value.Some? then Num(t.value.value) else Null)
    && Field(metric, MeasuredCalls) == Some(Num(t.measuredCalls)) && Field(metric, Coverage) == Some(t.coverage)
  }

  predicate ListsCounts(entry: Option<Value>, c: Counts) {
    && Field(entry, Complete) == Some(Num(c.complete)) && Field(entry, Partial) == Some(Num(c.partial))
    && Field(entry, Unknown) == Some(Num(c.unknown)) && Field(entry, Missing) == Some(Num(c.missing))
  }

  predicate ListsHead(group: Option<Value>, g: Group) {
    && Field(group, RuntimeId) == Some(Str(g.runtimeId)) && Field(group, ThreadId) == Some(Str(g.threadId))
    && Field(group, Actor) == Some(g.actor) && Field(group, Family) == Some(g.family)
    && Field(group, Layer) == Some(Str(g.layer)) && Field(group, Calls) == Some(Num(g.calls))
    && Field(group, CompletedCalls) == Some(Num(g.completedCalls))
    && Field(group, FailedCalls) == Some(Num(g.failedCalls))
    && Field(group, DeliveredScope) == Some(if g.deliveredScope.Some? then Str(g.deliveredScope.value) else Null)
  }

  predicate ListsGroup(group: Option<Value>, g: Group) {
    && ListsHead(group, g)
    && (forall i: nat | i < |g.metrics| :: ListsTotal(Field(group, Metric(i)), g.metrics[i]))
    && (forall i: nat | i < |g.completeness| ::
          ListsCounts(Field(Field(group, Completeness), Quality(i)), g.completeness[i]))
  }

  predicate ListsTop(input: Option<Value>, s: Snapshot) {
    && Field(input, SessionId) == Some(Str(s.sessionId)) && Field(input, Revision) == Some(Num(s.revision))
    && Field(input, Scope) == Some(Str("observedCallsOnly")) && Field(input, Coverage) == Some(s.coverage)
    && Field(input, MissingCorrelation) == Some(Bool(s.missingCorrelation))
    && Field(input, RetentionLimited) == Some(Bool(s.retentionLimited))
    && Field(input, ObservedAt) == Some(if s.observedAt.Some? then Str(s.observedAt.value) else Null)
    && Field(input, Groups).Some? && Field(input, Groups).value.Arr?
  }

  predicate ListsGroups(raws: seq<Value>, groups: seq<Group>) {
    |raws| == |groups| && forall i | 0 <= i < |raws| :: ListsGroup(Some(raws[i]), groups[i])
  }

  /** Every part of the snapshot is in the input under its own name; what else the input has is free. */
  predicate Lists(input: Option<Value>, s: Snapshot) {
    ListsTop(input, s) && ListsGroups(Field(input, Groups).value.items, s.groups)
  }

  lemma MetricExact(metric: Option<Value>, calls: nat, t: Total)
    requires calls <= 1024
    ensures MetricOk(metric, calls) && KeptMetric(metric) == t <==> WellFormedTotal(t, calls) && ListsTotal(metric, t)
  {
    SpellsExactly(t.coverage, COVERAGES);
  }

  lemma CountsExact(entry: Option<Value>, calls: nat, c: Counts)
    requires calls <= 1024
    ensures CountsOk(entry, calls) && KeptCounts(entry) == c <==>
      c.complete + c.partial + c.unknown + c.missing == calls && ListsCounts(entry, c)
  {
  }

  lemma GroupHeadExact(raw: Value, g: Group)
    ensures GroupHeadOk(raw) && KeptGroup(raw).(metrics := g.metrics, completeness := g.completeness) == g <==>
      WellFormedHead(g) && ListsHead(Some(raw), g)
  {
    SpellsExactly(g.actor, ACTORS);
    SpellsExactly(g.family, FAMILIES);
  }

  lemma GroupExact(raw: Value, g: Group)
    ensures GroupOk(raw) && KeptGroup(raw) == g <==> WellFormedGroup(g) && ListsGroup(Some(raw), g)
  {
    var group, kept := Some(raw), KeptGroup(raw);
    GroupHeadExact(raw, g);
    if g.calls <= 1024 && |g.metrics| == 7 && |g.completeness| == 3 {
      forall i: nat | i < 7
        ensures MetricOk(Field(group, Metric(i)), g.calls) && kept.metrics[i] == g.metrics[i] <==>
          WellFormedTotal(g.metrics[i], g.calls) && ListsTotal(Field(group, Metric(i)), g.metrics[i])
      {
        MetricExact(Field(group, Metric(i)), g.calls, g.metrics[i]);
      }
      forall i: nat | i < 3
        ensures var entry := Field(Field(group, Completeness), Quality(i));
          var c := g.completeness[i];
          CountsOk(entry, g.calls) && kept.completeness[i] == c <==>
            c.complete + c.partial + c.unknown + c.missing == g.calls && ListsCounts(entry, c)
      {
        CountsExact(Field(Field(group, Completeness), Quality(i)), g.calls, g.completeness[i]);
      }
    }
  }

  lemma {:induction false} CallsFromEitherEnd(groups: seq<Group>)
    ensures TotalCalls(groups) == CallsOf(groups)
  {
    if |groups| > 1 {
      var n := |groups| - 1;
      CallsFromEitherEnd(groups[..n]);
      CallsFromEitherEnd(groups[1..]);
      CallsFromEitherEnd(groups[1..n]);
      assert groups[1..][..n - 1] == groups[1..n] == groups[..n][1..];
    }
  }

  lemma GroupsExact(raws: seq<Value>, groups: seq<Group>)
    ensures AllGroupsOk(raws) && KeptGroups(raws) == groups <==>
      (forall i | 0 <= i < |groups| :: WellFormedGroup(groups[i])) && ListsGroups(raws, groups)
  {
    if |raws| == |groups| {
      forall i | 0 <= i < |raws|
        ensures GroupOk(raws[i]) && KeptGroups(raws)[i] == groups[i] <==>
          WellFormedGroup(groups[i]) && ListsGroup(Some(raws[i]), groups[i])
      {
        GroupExact(raws[i], groups[i]);
      }
    }
  }

  lemma AllTogether(groups: seq<Group>)
    ensures TotalCalls(groups) == CallsOf(groups)
    ensures DistinctIdentities(groups) <==> Distinct(groups)
  {
    CallsFromEitherEnd(groups);
  }

  lemma HeadExact(input: Option<Value>, sessionId: string, isDate: string -> bool, s: Snapshot)
    ensures HeadOk(input, sessionId, isDate) && Kept(input, sessionId).(groups := s.groups) == s <==>
      && WellFormedTop(s, isDate) && s.sessionId == sessionId && ListsTop(input, s)
      && |Elements(Field(input, Groups))| <= 64
  {
    SpellsExactly(s.coverage, {"partial", "unknown"});
  }

  /** What is kept is kept in two parts. */
  lemma KeptInParts(input: Option<Value>, sessionId: string, isDate: string -> bool, s: Snapshot)
    ensures var raws := Elements(Field(input, Groups));
      Parsed(input, sessionId, isDate) == Some(s) <==>
        && HeadOk(input, sessionId, isDate) && Kept(input, sessionId).(groups := s.groups) == s
        && AllGroupsOk(raws) && KeptGroups(raws) == s.groups
        && DistinctIdentities(s.groups) && TotalCalls(s.groups) <= 1024
  {
  }

  /** The parser returns a snapshot exactly when it is well formed and the input lists it. */
  lemma ParsesExactly(input: Option<Value>, sessionId: string, isDate: string -> bool, s: Snapshot)
    ensures Parsed(input, sessionId, isDate) == Some(s) <==>
      WellFormed(s, isDate) && s.sessionId == sessionId && Lists(input, s)
  {
    KeptInParts(input, sessionId, isDate, s);
    HeadExact(input, sessionId, isDate, s);
    GroupsExact(Elements(Field(input, Groups)), s.groups);
    AllTogether(s.groups);
  }

  // ----- The parser -----

  /** The body of the group loop, from a raw group to the kept one. */
  method ParseGroup(raw: Value) returns (r: Option<Group>)
    ensures r.Some? <==> GroupOk(raw)
    ensures r.Some? ==> r.value == KeptGroup(raw)
    ensures forall g :: r == Some(g) <==> WellFormedGroup(g) && ListsGroup(Some(raw), g)
  {
    forall g ensures GroupOk(raw) && KeptGroup(raw) == g <==> WellFormedGroup(g) && ListsGroup(Some(raw), g) {
      GroupExact(raw, g);
    }
    r := ReadGroup(raw);
  }

  method ReadGroup(raw: Value) returns (r: Option<Group>)
    ensures r == if GroupOk(raw) then Some(KeptGroup(raw)) else None
  {
    if !GroupHeadOk(raw) {
      return None;
    }
    var group := Some(raw);
    var calls := Count(Field(group, Calls));
    var metrics: seq<Total> := [];
    for i := 0 to METRICS
      invariant metrics == seq(i, k requires 0 <= k < i => KeptMetric(Field(group, Metric(k))))
      invariant forall k: nat | k < i :: MetricOk(Field(group, Metric(k)), calls)
    {
      var metric := Field(group, Metric(i));
      if !MetricOk(metric, calls) {
        return None;
      }
      metrics := metrics + [KeptMetric(metric)];
    }
    var quality := Field(group, Completeness);
    var counts: seq<Counts> := [];
    for i := 0 to QUALITIES
      invariant counts == seq(i, k requires 0 <= k < i => KeptCounts(Field(quality, Quality(k))))
      invariant forall k: nat | k < i :: CountsOk(Field(quality, Quality(k)), calls)
    {
      var entry := Field(quality, Quality(i));
      if !CountsOk(entry, calls) {
        return None;
      }
      counts := counts + [KeptCounts(entry)];
    }
    r := Some(KeptGroup(raw).(metrics := metrics, completeness := counts));
  }

  /** The group loop: every group fits, and no identity comes twice. */
  method ParseGroups(raws: seq<Value>) returns (r: Option<seq<Group>>)
    ensures r.Some? <==> AllGroupsOk(raws) && DistinctIdentities(KeptGroups(raws))
    ensures r.Some? ==> r.value == KeptGroups(raws)
  {
    var groups: seq<Group> := [];
    var identities: set<(string, string, Value, Value)> := {};
    for i := 0 to |raws|
      invariant ReadSoFar(raws, i, groups, identities)
    {
      var group := ReadGroup(raws[i]);
      if group.None? {
        return None;
      }
      ReadNext(raws, i, groups, identities);
      if Identity(group.value) in identities {
        return None;
      }
      identities := identities + {Identity(group.value)};
      groups := groups + [group.value];
    }
    assert KeptGroups(raws)[..|raws|] == KeptGroups(raws);
    r := Some(groups);
  }

  /** The loop state after i groups. */
  predicate ReadSoFar(raws: seq<Value>, i: nat, groups: seq<Group>, identities: set<(string, string, Value, Value)>) {
    && i <= |raws| && groups == KeptGroups(raws)[..i] && (forall k | 0 <= k < i :: GroupOk(raws[k]))
    && identities == Identities(groups) && DistinctIdentities(groups)
  }

  lemma ReadNext(raws: seq<Value>, i: nat, groups: seq<Group>, identities: set<(string, string, Value, Value)>)
    requires i < |raws| && ReadSoFar(raws, i, groups, identities) && GroupOk(raws[i])
    ensures var group := KeptGroup(raws[i]);
      if Identity(group) in identities then !DistinctIdentities(KeptGroups(raws))
      else ReadSoFar(raws, i + 1, groups + [group], identities + {Identity(group)})
  {
    var group := KeptGroup(raws[i]);
    assert KeptGroups(raws)[..i + 1] == groups + [group];
    NextIdentity(groups, group);
    PrefixDistinct(KeptGroups(raws), i + 1);
  }

  function Identities(groups: seq<Group>): set<(string, string, Value, Value)> {
    set i | 0 <= i < |groups| :: Identity(groups[i])
  }

  lemma NextIdentity(groups: seq<Group>, next: Group)
    ensures Identities(groups + [next]) == Identities(groups) + {Identity(next)}
    ensures DistinctIdentities(groups + [next]) <==> DistinctIdentities(groups) && Identity(next) !in Identities(groups)
  {
    var all := groups + [next];
    assert all[|groups|] == next && forall i | 0 <= i < |groups| :: all[i] == groups[i];
    assert forall i | 0 <= i < |groups| :: Identity(groups[i]) in Identities(all);
  }

  lemma PrefixDistinct(groups: seq<Group>, n: nat)
    requires n <= |groups|
    ensures DistinctIdentities(groups) ==> DistinctIdentities(groups[..n])
  {
    assert forall i | 0 <= i < n :: groups[..n][i] == groups[i];
  }

  method Parse(input: Option<Value>, sessionId: string, isDate: string -> bool) returns (r: Option<Snapshot>)
    ensures r == Parsed(input, sessionId, isDate)
    ensures forall s :: r == Some(s) <==> WellFormed(s, isDate) && s.sessionId == sessionId && Lists(input, s)
  {
    forall s
      ensures Parsed(input, sessionId, isDate) == Some(s) <==>
        WellFormed(s, isDate) && s.sessionId == sessionId && Lists(input, s)
    {
      ParsesExactly(input, sessionId, isDate, s);
    }
    r := ReadSnapshot(input, sessionId, isDate);
  }

  method ReadSnapshot(input: Option<Value>, sessionId: string, isDate: string -> bool) returns (r: Option<Snapshot>)
    ensures r == Parsed(input, sessionId, isDate)
  {
    if !HeadOk(input, sessionId, isDate) {
      return None;
    }
    var groups := ParseGroups(Elements(Field(input, Groups)));
    if groups.None? || TotalCalls(groups.value) > 1024 {
      return None;
    }
    r := Some(Kept(input, sessionId));
  }

  // ----- Consequences -----

  predicate GroupBounded(g: Group) {
    && 1 <= g.calls <= 1024 && g.completedCalls <= g.calls && g.failedCalls <= g.calls
    && |g.metrics| == METRICS && |g.completeness| == QUALITIES
    && (forall i | 0 <= i < QUALITIES :: Sum(g.completeness[i]) == g.calls)
    && (forall i | 0 <= i < METRICS :: g.metrics[i].measuredCalls <= g.calls)
  }

  /** A parsed snapshot is bounded, and its completeness rows account for every call. */
  lemma ParsedIsBounded(input: Option<Value>, sessionId: string, isDate: string -> bool)
    requires Accepts(input, sessionId, isDate)
    ensures var s := Kept(input, sessionId);
      && |s.groups| <= 64 && TotalCalls(s.groups) <= 1024 && DistinctIdentities(s.groups)
      && forall i | 0 <= i < |s.groups| :: GroupBounded(s.groups[i])
  {
    var raws := Elements(Field(input, Groups));
    forall i | 0 <= i < |raws| ensures GroupBounded(KeptGroup(raws[i])) {
      assert GroupOk(raws[i]);
    }
  }

  function Optional(value: Option<nat>): Value {
    if value.Some? then Num(value.value) else Null
  }

  function MetricJson(t: Total): Value {
    Obj(map[Value := Optional(t.value), MeasuredCalls := Num(t.measuredCalls), Coverage := t.coverage])
  }

  function CountsJson(c: Counts): Value {
    Obj(map[Complete := Num(c.complete), Partial := Num(c.partial), Unknown := Num(c.unknown), Missing := Num(c.missing)])
  }

  function GroupJson(g: Group): Value {
    Obj(HeadFields(g) + MetricFields(g))
  }

  function MetricFields(g: Group): map<Name, Value> {
    map i: nat | i < |g.metrics| :: Metric(i) := MetricJson(g.metrics[i])
  }

  function QualityFields(g: Group): map<Name, Value> {
    map i: nat | i < |g.completeness| :: Quality(i) := CountsJson(g.completeness[i])
  }

  function HeadFields(g: Group): map<Name, Value> {
    map[RuntimeId := Str(g.runtimeId), ThreadId := Str(g.threadId), Actor := g.actor, Family := g.family,
        Layer := Str(g.layer), Calls := Num(g.calls), CompletedCalls := Num(g.completedCalls),
        FailedCalls := Num(g.failedCalls),
        DeliveredScope := if g.deliveredScope.Some? then Str(g.deliveredScope.value) else Null,
        Completeness := Obj(QualityFields(g))]
  }

  function GroupsJson(s: Snapshot): seq<Value> {
    seq(|s.groups|, i requires 0 <= i < |s.groups| => GroupJson(s.groups[i]))
  }

  /** A snapshot as the value JSON.stringify would print. */
  function ToJson(s: Snapshot): Value {
    Obj(map[SessionId := Str(s.sessionId), Revision := Num(s.revision), Scope := Str("observedCallsOnly"),
            Coverage := s.coverage, MissingCorrelation := Bool(s.missingCorrelation),
            RetentionLimited := Bool(s.retentionLimited),
            ObservedAt := if s.observedAt.Some? then Str(s.observedAt.value) else Null,
            Groups := Arr(GroupsJson(s))])
  }

  lemma TotalIsListed(t: Total)
    ensures ListsTotal(Some(MetricJson(t)), t)
  {
  }

  lemma CountsAreListed(c: Counts)
    ensures ListsCounts(Some(CountsJson(c)), c)
  {
  }

  lemma HeadFieldsFound(g: Group)
    ensures ListsHead(Some(Obj(HeadFields(g))), g)
    ensures Get(HeadFields(g), Completeness) == Some(Obj(QualityFields(g)))
  {
  }

  /** What property access finds in a printed group. */
  lemma GroupJsonFields(g: Group)
    ensures forall name: Name | !name.Metric? :: Field(Some(GroupJson(g)), name) == Get(HeadFields(g), name)
    ensures forall i: nat | i < |g.metrics| :: Field(Some(GroupJson(g)), Metric(i)) == Some(MetricJson(g.metrics[i]))
    ensures forall i: nat | i < |g.completeness| ::
      Field(Some(Obj(QualityFields(g))), Quality(i)) == Some(CountsJson(g.completeness[i]))
  {
    assert forall i: nat | i < |g.metrics| :: Metric(i) in MetricFields(g);
    assert forall i: nat | i < |g.completeness| :: Quality(i) in QualityFields(g);
  }

  lemma GroupIsListed(g: Group)
    ensures ListsGroup(Some(GroupJson(g)), g)
  {
    GroupJsonFields(g);
    HeadFieldsFound(g);
    forall i: nat | i < |g.metrics| ensures ListsTotal(Field(Some(GroupJson(g)), Metric(i)), g.metrics[i]) {
      TotalIsListed(g.metrics[i]);
    }
    forall i: nat | i < |g.completeness|
      ensures ListsCounts(Field(Field(Some(GroupJson(g)), Completeness), Quality(i)), g.completeness[i])
    {
      CountsAreListed(g.completeness[i]);
    }
  }

  /** What property access finds in a printed snapshot. */
  lemma SnapshotJsonFields(s: Snapshot)
    ensures var input := Some(ToJson(s));
      && Field(input, SessionId) == Some(Str(s.sessionId)) && Field(input, Revision) == Some(Num(s.revision))
      && Field(input, Scope) == Some(Str("observedCallsOnly")) && Field(input, Coverage) == Some(s.coverage)
      && Field(input, MissingCorrelation) == Some(Bool(s.missingCorrelation))
      && Field(input, RetentionLimited) == Some(Bool(s.retentionLimited))
      && Field(input, ObservedAt) == Some(if s.observedAt.Some? then Str(s.observedAt.value) else Null)
      && Field(input, Groups) == Some(Arr(GroupsJson(s)))
  {
  }

  lemma PrintedIsListed(s: Snapshot)
    ensures Lists(Some(ToJson(s)), s)
  {
    SnapshotJsonFields(s);
    forall i | 0 <= i < |s.groups| ensures ListsGroup(Some(GroupsJson(s)[i]), s.groups[i]) {
      GroupIsListed(s.groups[i]);
    }
  }

  /** Every well-formed snapshot printed and parsed is itself. */
  lemma SnapshotRoundTrip(s: Snapshot, isDate: string -> bool)
    requires WellFormed(s, isDate)
    ensures Parsed(Some(ToJson(s)), s.sessionId, isDate) == Some(s)
  {
    PrintedIsListed(s);
    ParsesExactly(Some(ToJson(s)), s.sessionId, isDate, s);
  }

  /** A parsed snapshot printed and parsed again is itself. */
  lemma ParsedIsFixedPoint(input: Option<Value>, sessionId: string, isDate: string -> bool)
    requires Accepts(input, sessionId, isDate)
    ensures Parsed(Some(ToJson(Kept(input, sessionId))), sessionId, isDate) == Some(Kept(input, sessionId))
  {
    ParsesExactly(input, sessionId, isDate, Kept(input, sessionId));
    SnapshotRoundTrip(Kept(input, sessionId), isDate);
  }

  // ----- Typed or not -----

  predicate GroupTyped(g: Group) {
    g.actor.Str? && g.family.Str? && forall i | 0 <= i < |g.metrics| :: g.metrics[i].coverage.Str?
  }

  /** The enumerations the declared type promises. */
  predicate Typed(s: Snapshot) {
    s.coverage.Str? && forall i | 0 <= i < |s.groups| :: GroupTyped(s.groups[i])
  }

  predicate GroupNames(raw: Value) {
    && Keep(Field(Some(raw), Actor)).Str? && Keep(Field(Some(raw), Family)).Str?
    && forall i: nat | i < METRICS :: Keep(Field(Field(Some(raw), Metric(i)), Coverage)).Str?
  }

  /** A parsed snapshot has its declared type exactly when the enumerated input fields were strings. */
  lemma TypedExactlyWhenStrings(input: Option<Value>, sessionId: string, isDate: string -> bool)
    requires Accepts(input, sessionId, isDate)
    ensures Typed(Kept(input, sessionId)) <==>
      && Keep(Field(input, Coverage)).Str?
      && forall i | 0 <= i < |Elements(Field(input, Groups))| :: GroupNames(Elements(Field(input, Groups))[i])
  {
    var raws := Elements(Field(input, Groups));
    forall i | 0 <= i < |raws| ensures GroupTyped(Kept(input, sessionId).groups[i]) <==> GroupNames(raws[i]) {
      GroupTypedExactly(raws[i]);
    }
  }

  lemma GroupTypedExactly(raw: Value)
    ensures GroupTyped(KeptGroup(raw)) <==> GroupNames(raw)
  {
    assert forall k: nat | k < METRICS ::
      KeptGroup(raw).metrics[k].coverage == Keep(Field(Field(Some(raw), Metric(k)), Coverage));
  }

  /** The exception is real: an array around a coverage word is accepted and kept as an array. */
  lemma ArrayCoverageAccepted(sessionId: string, isDate: string -> bool)
    requires IsId(Some(Str(sessionId)))
    ensures
      var input := Obj(map[SessionId := Str(sessionId), Revision := Num(0), Scope := Str("observedCallsOnly"),
                           Coverage := Arr([Str("partial")]), MissingCorrelation := Bool(false),
                           RetentionLimited := Bool(false), ObservedAt := Null, Groups := Arr([])]);
      Parsed(Some(input), sessionId, isDate).Some? && !Typed(Parsed(Some(input), sessionId, isDate).value)
  {
    assert CoercesTo<Name>(Str("partial"), {"partial", "unknown"});
    assert CoercesTo<Name>(Arr([Str("partial")]), {"partial", "unknown"});
  }

  // ----- The register -----

  /** `#applyEfficiency`: an unparsable or not newer delivery is ignored. */
  function Register(current: Option<Snapshot>, delivery: Option<Snapshot>): Option<Snapshot> {
    if delivery.None? || (current.Some? && delivery.value.revision <= current.value.revision) then current
    else delivery
  }

  function Registered(deliveries: seq<Option<Snapshot>>): Option<Snapshot> {
    if deliveries == [] then None
    else Register(Registered(deliveries[..|deliveries| - 1]), deliveries[|deliveries| - 1])
  }

  /** Delivery i is the earliest among those of greatest revision. */
  predicate EarliestGreatest(deliveries: seq<Option<Snapshot>>, i: nat)
    requires i < |deliveries|
  {
    && deliveries[i].Some?
    && (forall k | 0 <= k < |deliveries| && deliveries[k].Some? :: deliveries[k].value.revision <= deliveries[i].value.revision)
    && (forall k | 0 <= k < i && deliveries[k].Some? :: deliveries[k].value.revision < deliveries[i].value.revision)
  }

  /** The register holds the earliest accepted delivery of greatest revision, and nothing else. */
  lemma {:induction false} RegisterHoldsEarliestGreatest(deliveries: seq<Option<Snapshot>>)
    ensures Registered(deliveries).None? <==> forall k | 0 <= k < |deliveries| :: deliveries[k].None?
    ensures Registered(deliveries).Some? ==>
      exists i: nat | i < |deliveries| :: EarliestGreatest(deliveries, i) && deliveries[i] == Registered(deliveries)
  {
    if deliveries != [] {
      var n := |deliveries| - 1;
      var shorter := deliveries[..n];
      RegisterHoldsEarliestGreatest(shorter);
      assert forall k | 0 <= k < n :: shorter[k] == deliveries[k];
      if Registered(shorter).Some? {
        var i: nat :| i < |shorter| && EarliestGreatest(shorter, i) && shorter[i] == Registered(shorter);
        if Registered(deliveries) == Registered(shorter) {
          assert EarliestGreatest(deliveries, i);
        } else {
          assert EarliestGreatest(deliveries, n);
        }
      } else if deliveries[n].Some? {
        assert EarliestGreatest(deliveries, n);
      }
    }
  }

  /** With one snapshot per revision, neither the order nor the repetition of deliveries matters. */
  lemma RegisterIgnoresOrder(a: seq<Option<Snapshot>>, b: seq<Option<Snapshot>>)
    requires forall s: Snapshot :: Some(s) in a <==> Some(s) in b
    requires forall i, k | 0 <= i < |a| && 0 <= k < |a| && a[i].Some? && a[k].Some? ::
      a[i].value.revision == a[k].value.revision ==> a[i] == a[k]
    ensures Registered(a) == Registered(b)
  {
    RegisterHoldsEarliestGreatest(a);
    RegisterHoldsEarliestGreatest(b);
    if Registered(a).Some? {
      var i: nat :| i < |a| && EarliestGreatest(a, i) && a[i] == Registered(a);
      assert Some(a[i].value) in a && Some(a[i].value) in b;
    }
    if Registered(b).Some? {
      var k: nat :| k < |b| && EarliestGreatest(b, k) && b[k] == Registered(b);
      assert Some(b[k].value) in b && Some(b[k].value) in a;
    }
  }
}
