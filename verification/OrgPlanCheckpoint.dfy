/** The checkpoint report boundary of src/shared/contracts/org-plan-checkpoint.ts. */
module OrgPlanCheckpoint {
  import opened Wrappers
  import opened Json
  import OrgPlanPosition

  datatype Name =
    | Version | Kind | PlanIdentity | L1Id | L2Id | Position | Status | Changes | Files | Tests
    | Verdict | Findings | CommitName | Subject | ShortHash | Unlisted(name: string)

  type Value = Json<Name>

  datatype Commit = Created(subject: string, shortHash: string) | NotRequired

  datatype Checkpoint =
    | L2Completed(planIdentity: string, l1Id: string, l2Id: string, position: string,
                  changes: string, files: string, summary: string)
    | L1Accepted(planIdentity: string, l1Id: string, position: string, commit: Commit,
                 findings: Option<string>, tests: Option<string>)
    | TerminalReviewAccepted(planIdentity: string, findings: Option<string>, tests: Option<string>)

  predicate Bounded(value: Option<Value>, maximum: nat) {
    value.Some? && value.value.Str? && BoundedText(value.value.s, maximum)
  }

  /** `undefined`, or bounded text. */
  predicate OptionallyBounded(value: Option<Value>, maximum: nat) {
    value.Some? ==> Bounded(value, maximum)
  }

  function OptionalText(value: Option<Value>): Option<string> {
    if value.Some? && value.value.Str? then Some(value.value.s) else None
  }

  predicate OnlyKeys(value: Value, allowed: set<Name>)
    requires value.Obj?
  {
    value.fields.Keys <= allowed
  }

  predicate IsHexDigit(c: char) {
    IsDigit(c) || 'a' <= c <= 'f'
  }

  predicate IsShortHash(s: string) {
    7 <= |s| <= 16 && forall i | 0 <= i < |s| :: IsHexDigit(s[i])
  }

  /** The source counts the keys it has not already found, which comes to naming them all. */
  function ParseCommit(value: Value): Option<Commit>
    requires value.Obj?
  {
    var commit := Some(value);
    if Field(commit, Kind) == Some(Str("notRequired")) && value.fields.Keys == {Kind} then Some(NotRequired)
    else if && Field(commit, Kind) == Some(Str("created")) && value.fields.Keys == {Kind, Subject, ShortHash}
            && Bounded(Field(commit, Subject), 160)
            && Field(commit, ShortHash).Some? && Field(commit, ShortHash).value.Str?
            && IsShortHash(Field(commit, ShortHash).value.s)
    then Some(Created(Text(Field(commit, Subject)), Text(Field(commit, ShortHash))))
    else None
  }

  const L2_KEYS := {Version, Kind, PlanIdentity, L1Id, L2Id, Position, Status, Changes, Files, Tests}
  const TERMINAL_KEYS := {Version, Kind, PlanIdentity, Verdict, Findings, Tests}
  const L1_KEYS := {Version, Kind, PlanIdentity, L1Id, Position, Verdict, CommitName, Findings, Tests}

  function Parse(input: Option<Value>): Option<Checkpoint> {
    if input.None? || !input.value.Obj? || Field(input, Version) != Some(Num(1)) || !Bounded(Field(input, PlanIdentity), 128)
    then None
    else if Field(input, Kind) == Some(Str("l2Completed")) then ParseL2(input.value)
    else if !Accepted(input.value) then None
    else if Field(input, Kind) == Some(Str("terminalReviewAccepted")) then ParseTerminal(input.value)
    else if Field(input, Kind) == Some(Str("l1Accepted")) then ParseL1(input.value)
    else None
  }

  function ParseL2(value: Value): Option<Checkpoint>
    requires value.Obj?
  {
    var input := Some(value);
    var position := Field(input, Position);
    if || !Bounded(Field(input, L1Id), 128) || !Bounded(Field(input, L2Id), 128)
       || position.None? || !position.value.Str? || !OrgPlanPosition.IsChildPosition(position.value.s)
       || Field(input, Status) != Some(Str("DONE"))
       || !Bounded(Field(input, Changes), 600) || !Bounded(Field(input, Files), 600)
       || !Bounded(Field(input, Tests), 600) || !OnlyKeys(value, L2_KEYS)
    then None
    else Some(L2Completed(Text(Field(input, PlanIdentity)), Text(Field(input, L1Id)), Text(Field(input, L2Id)),
                          position.value.s, Text(Field(input, Changes)), Text(Field(input, Files)),
                          Text(Field(input, Tests))))
  }

  /** What both review reports share: the verdict and the optional summaries. */
  predicate Accepted(value: Value) {
    var input := Some(value);
    && Field(input, Verdict) == Some(Str("ACCEPT"))
    && OptionallyBounded(Field(input, Findings), 600) && OptionallyBounded(Field(input, Tests), 600)
  }

  function ParseTerminal(value: Value): Option<Checkpoint>
    requires value.Obj?
  {
    var input := Some(value);
    if !OnlyKeys(value, TERMINAL_KEYS) then None
    else Some(TerminalReviewAccepted(Text(Field(input, PlanIdentity)),
                                     OptionalText(Field(input, Findings)), OptionalText(Field(input, Tests))))
  }

  /** The tail of the parser: an accepted L1 report, its verdict and summaries already checked. */
  function ParseL1(value: Value): Option<Checkpoint>
    requires value.Obj?
  {
    var input := Some(value);
    var position, commit := Field(input, Position), Field(input, CommitName);
    if || !Bounded(Field(input, L1Id), 128)
       || position.None? || !position.value.Str? || !OrgPlanPosition.IsPosition(position.value.s)
       || commit.None? || !commit.value.Obj?
       || ParseCommit(commit.value).None? || !OnlyKeys(value, L1_KEYS)
    then None
    else Some(L1Accepted(Text(Field(input, PlanIdentity)), Text(Field(input, L1Id)), position.value.s,
                         ParseCommit(commit.value).value,
                         OptionalText(Field(input, Findings)), OptionalText(Field(input, Tests))))
  }

  // ----- The reports themselves -----

  /** A short hash is 7 to 16 lower-case hexadecimal digits. */
  lemma ShortHashExactly(s: string)
    ensures IsShortHash(s) <==> 7 <= |s| <= 16 && forall c | c in s :: c in "0123456789abcdef"
  {
    forall i | 0 <= i < |s| ensures IsHexDigit(s[i]) <==> s[i] in "0123456789abcdef" {
      HexDigitExactly(s[i]);
    }
    if forall c | c in s :: c in "0123456789abcdef" {
      assert forall i | 0 <= i < |s| :: s[i] in s;
    }
  }

  lemma HexDigitExactly(c: char)
    ensures IsHexDigit(c) <==> c in "0123456789abcdef"
  {
    var digits := "0123456789abcdef";
    if '0' <= c <= '9' { assert digits[c as int - '0' as int] == c; }
    if 'a' <= c <= 'f' { assert digits[c as int - 'a' as int + 10] == c; }
  }

  predicate WellFormedCommit(c: Commit) {
    c.Created? ==> BoundedText(c.subject, 160) && IsShortHash(c.shortHash)
  }

  predicate OptionalOk(text: Option<string>) {
    text.Some? ==> BoundedText(text.value, 600)
  }

  ghost predicate WellFormed(c: Checkpoint) {
    && BoundedText(c.planIdentity, 128)
    && match c
       case L2Completed(_, l1Id, l2Id, position, changes, files, summary) =>
         && BoundedText(l1Id, 128) && BoundedText(l2Id, 128)
         && (exists n: nat, m: nat | n >= 1 && m >= 1 :: position == OrgPlanPosition.ChildPosition(n, m))
         && BoundedText(changes, 600) && BoundedText(files, 600) && BoundedText(summary, 600)
       case L1Accepted(_, l1Id, position, commit, findings, tests) =>
         && BoundedText(l1Id, 128)
         && (exists n: nat | n >= 1 :: position == OrgPlanPosition.Position(n))
         && WellFormedCommit(commit) && OptionalOk(findings) && OptionalOk(tests)
       case TerminalReviewAccepted(_, findings, tests) => OptionalOk(findings) && OptionalOk(tests)
  }

  function Optional(name: Name, text: Option<string>): map<Name, Value> {
    if text.Some? then map[name := Str(text.value)] else map[]
  }

  function CommitJson(c: Commit): Value {
    match c
    case NotRequired => Obj(map[Kind := Str("notRequired")])
    case Created(subject, shortHash) =>
      Obj(map[Kind := Str("created"), Subject := Str(subject), ShortHash := Str(shortHash)])
  }

  /** The fields every accepted L1 report has. */
  function L1Base(planIdentity: string, l1Id: string, position: string, commit: Commit): map<Name, Value> {
    map[Version := Num(1), Kind := Str("l1Accepted"), PlanIdentity := Str(planIdentity), L1Id := Str(l1Id),
        Position := Str(position), Verdict := Str("ACCEPT"), CommitName := CommitJson(commit)]
  }

  function ToJson(c: Checkpoint): Value {
    match c
    case L2Completed(planIdentity, l1Id, l2Id, position, changes, files, summary) =>
      Obj(map[Version := Num(1), Kind := Str("l2Completed"), PlanIdentity := Str(planIdentity), L1Id := Str(l1Id),
              L2Id := Str(l2Id), Position := Str(position), Status := Str("DONE"), Changes := Str(changes),
              Files := Str(files), Tests := Str(summary)])
    case L1Accepted(planIdentity, l1Id, position, commit, findings, tests) =>
      Obj(L1Base(planIdentity, l1Id, position, commit) + Optional(Findings, findings) + Optional(Tests, tests))
    case TerminalReviewAccepted(planIdentity, findings, tests) =>
      Obj(map[Version := Num(1), Kind := Str("terminalReviewAccepted"), PlanIdentity := Str(planIdentity),
              Verdict := Str("ACCEPT")]
          + Optional(Findings, findings) + Optional(Tests, tests))
  }

  lemma CommitExact(value: Value, c: Commit)
    requires value.Obj?
    ensures ParseCommit(value) == Some(c) <==> value == CommitJson(c) && WellFormedCommit(c)
  {
    if ParseCommit(value) == Some(c) {
      assert value.fields == CommitJson(c).fields;
    }
  }

  /** The three kinds are different words. */
  lemma ParseByKind(value: Value, c: Checkpoint)
    requires value.Obj?
    ensures Parse(Some(value)) == Some(c) <==>
      && Field(Some(value), Version) == Some(Num(1)) && Bounded(Field(Some(value), PlanIdentity), 128)
      && Field(Some(value), Kind) == Some(Str(KindOf(c)))
      && match c
         case L2Completed(_, _, _, _, _, _, _) => ParseL2(value) == Some(c)
         case L1Accepted(_, _, _, _, _, _) => Accepted(value) && ParseL1(value) == Some(c)
         case TerminalReviewAccepted(_, _, _) => Accepted(value) && ParseTerminal(value) == Some(c)
  {
    assert |"l2Completed"| == 11 && |"l1Accepted"| == 10 && |"terminalReviewAccepted"| == 22;
  }

  function KindOf(c: Checkpoint): string {
    match c
    case L2Completed(_, _, _, _, _, _, _) => "l2Completed"
    case L1Accepted(_, _, _, _, _, _) => "l1Accepted"
    case TerminalReviewAccepted(_, _, _) => "terminalReviewAccepted"
  }

  // Each kind is proved in two steps through the fields property access finds: they are those of
  // exactly one value, and they are what the parser asks for.

  function OptionalJson(text: Option<string>): Option<Value> {
    if text.Some? then Some(Str(text.value)) else None
  }

  predicate HasL2Fields(v: Value, c: Checkpoint)
    requires v.Obj? && c.L2Completed?
  {
    var input := Some(v);
    && v.fields.Keys <= L2_KEYS
    && Field(input, Version) == Some(Num(1)) && Field(input, Kind) == Some(Str("l2Completed"))
    && Field(input, PlanIdentity) == Some(Str(c.planIdentity)) && Field(input, L1Id) == Some(Str(c.l1Id))
    && Field(input, L2Id) == Some(Str(c.l2Id)) && Field(input, Position) == Some(Str(c.position))
    && Field(input, Status) == Some(Str("DONE")) && Field(input, Changes) == Some(Str(c.changes))
    && Field(input, Files) == Some(Str(c.files)) && Field(input, Tests) == Some(Str(c.summary))
  }

  predicate HasL1Fields(v: Value, c: Checkpoint)
    requires v.Obj? && c.L1Accepted?
  {
    var input := Some(v);
    && v.fields.Keys <= L1_KEYS
    && Field(input, Version) == Some(Num(1)) && Field(input, Kind) == Some(Str("l1Accepted"))
    && Field(input, PlanIdentity) == Some(Str(c.planIdentity)) && Field(input, L1Id) == Some(Str(c.l1Id))
    && Field(input, Position) == Some(Str(c.position)) && Field(input, Verdict) == Some(Str("ACCEPT"))
    && Field(input, CommitName) == Some(CommitJson(c.commit))
    && Field(input, Findings) == OptionalJson(c.findings) && Field(input, Tests) == OptionalJson(c.tests)
  }

  predicate HasTerminalFields(v: Value, c: Checkpoint)
    requires v.Obj? && c.TerminalReviewAccepted?
  {
    var input := Some(v);
    && v.fields.Keys <= TERMINAL_KEYS
    && Field(input, Version) == Some(Num(1)) && Field(input, Kind) == Some(Str("terminalReviewAccepted"))
    && Field(input, PlanIdentity) == Some(Str(c.planIdentity)) && Field(input, Verdict) == Some(Str("ACCEPT"))
    && Field(input, Findings) == OptionalJson(c.findings) && Field(input, Tests) == OptionalJson(c.tests)
  }

  lemma SameFields(m: map<Name, Value>, n: map<Name, Value>)
    requires forall name: Name :: Get(m, name) == Get(n, name)
    ensures m == n
  {
    assert forall name: Name :: Get(m, name).Some? <==> name in m;
    assert forall name: Name :: Get(n, name).Some? <==> name in n;
  }

  lemma L2JsonHasFields(c: Checkpoint)
    requires c.L2Completed?
    ensures HasL2Fields(ToJson(c), c)
  {
  }

  lemma L1JsonHasFields(c: Checkpoint)
    requires c.L1Accepted?
    ensures HasL1Fields(ToJson(c), c)
  {
    var base := L1Base(c.planIdentity, c.l1Id, c.position, c.commit);
    L1BaseFields(c);
    L1FromBase(base, ToJson(c), c);
  }

  predicate HasL1BaseFields(base: map<Name, Value>, c: Checkpoint)
    requires c.L1Accepted?
  {
    && base.Keys <= L1_KEYS - {Findings, Tests}
    && Get(base, Version) == Some(Num(1)) && Get(base, Kind) == Some(Str("l1Accepted"))
    && Get(base, PlanIdentity) == Some(Str(c.planIdentity)) && Get(base, L1Id) == Some(Str(c.l1Id))
    && Get(base, Position) == Some(Str(c.position)) && Get(base, Verdict) == Some(Str("ACCEPT"))
    && Get(base, CommitName) == Some(CommitJson(c.commit))
  }

  lemma L1BaseFields(c: Checkpoint)
    requires c.L1Accepted?
    ensures HasL1BaseFields(L1Base(c.planIdentity, c.l1Id, c.position, c.commit), c)
  {
  }

  lemma L1FromBase(base: map<Name, Value>, v: Value, c: Checkpoint)
    requires c.L1Accepted? && HasL1BaseFields(base, c)
    requires v == Obj(base + Optional(Findings, c.findings) + Optional(Tests, c.tests))
    ensures HasL1Fields(v, c)
  {
    MergedFields(base, c.findings, c.tests);
  }

  lemma TerminalJsonHasFields(c: Checkpoint)
    requires c.TerminalReviewAccepted?
    ensures HasTerminalFields(ToJson(c), c)
  {
    var base := map[Version := Num(1), Kind := Str("terminalReviewAccepted"), PlanIdentity := Str(c.planIdentity),
                    Verdict := Str("ACCEPT")];
    MergedFields(base, c.findings, c.tests);
  }

  /** The optional summaries join the other fields without touching them. */
  lemma MergedFields(base: map<Name, Value>, findings: Option<string>, tests: Option<string>)
    requires Findings !in base && Tests !in base
    ensures var all := base + Optional(Findings, findings) + Optional(Tests, tests);
      && Get(all, Findings) == OptionalJson(findings) && Get(all, Tests) == OptionalJson(tests)
      && all.Keys <= base.Keys + {Findings, Tests}
      && forall name: Name | name != Findings && name != Tests :: Get(all, name) == Get(base, name)
  {
  }

  lemma OnlyL2Json(v: Value, w: Value, c: Checkpoint)
    requires c.L2Completed? && v.Obj? && w.Obj? && HasL2Fields(v, c) && HasL2Fields(w, c)
    ensures v == w
  {
    assert forall name: Name | name !in L2_KEYS :: name !in v.fields && name !in w.fields;
    SameFields(v.fields, w.fields);
  }

  lemma OnlyL1Json(v: Value, w: Value, c: Checkpoint)
    requires c.L1Accepted? && v.Obj? && w.Obj? && HasL1Fields(v, c) && HasL1Fields(w, c)
    ensures v == w
  {
    assert forall name: Name | name !in L1_KEYS :: name !in v.fields && name !in w.fields;
    SameFields(v.fields, w.fields);
  }

  lemma OnlyTerminalJson(v: Value, w: Value, c: Checkpoint)
    requires c.TerminalReviewAccepted? && v.Obj? && w.Obj? && HasTerminalFields(v, c) && HasTerminalFields(w, c)
    ensures v == w
  {
    assert forall name: Name | name !in TERMINAL_KEYS :: name !in v.fields && name !in w.fields;
    SameFields(v.fields, w.fields);
  }

  lemma L2Fields(v: Value, c: Checkpoint)
    requires v.Obj? && c.L2Completed?
    ensures Parse(Some(v)) == Some(c) <==> HasL2Fields(v, c) && WellFormed(c)
  {
    L2WellFormed(c);
    ParseByKind(v, c);
    var input := Some(v);
    if Field(input, Version) == Some(Num(1)) && Field(input, Kind) == Some(Str("l2Completed"))
       && Bounded(Field(input, PlanIdentity), 128) {
      L2BodyFields(v, c);
    }
  }

  predicate L2Ok(c: Checkpoint)
    requires c.L2Completed?
  {
    && BoundedText(c.l1Id, 128) && BoundedText(c.l2Id, 128) && OrgPlanPosition.IsChildPosition(c.position)
    && BoundedText(c.changes, 600) && BoundedText(c.files, 600) && BoundedText(c.summary, 600)
  }

  lemma L2WellFormed(c: Checkpoint)
    requires c.L2Completed?
    ensures WellFormed(c) <==> BoundedText(c.planIdentity, 128) && L2Ok(c)
  {
    OrgPlanPosition.RecognisesChildPositions(c.position);
  }

  lemma L2BodyFields(v: Value, c: Checkpoint)
    requires v.Obj? && c.L2Completed?
    requires Field(Some(v), Version) == Some(Num(1)) && Field(Some(v), Kind) == Some(Str("l2Completed"))
    requires Bounded(Field(Some(v), PlanIdentity), 128)
    ensures ParseL2(v) == Some(c) <==> HasL2Fields(v, c) && L2Ok(c)
  {
  }

  lemma L1Fields(v: Value, c: Checkpoint)
    requires v.Obj? && c.L1Accepted?
    ensures Parse(Some(v)) == Some(c) <==> HasL1Fields(v, c) && WellFormed(c)
  {
    OrgPlanPosition.RecognisesPositions(c.position);
    ParseByKind(v, c);
    var commit := Field(Some(v), CommitName);
    if commit.Some? && commit.value.Obj? {
      CommitExact(commit.value, c.commit);
    }
  }

  lemma TerminalFields(v: Value, c: Checkpoint)
    requires v.Obj? && c.TerminalReviewAccepted?
    ensures Parse(Some(v)) == Some(c) <==> HasTerminalFields(v, c) && WellFormed(c)
  {
    ParseByKind(v, c);
  }

  /**
    The parser is the inverse of the report's JSON form: it accepts exactly the printed reports
    that are well-formed, positions included, and loses nothing of them.
  */
  lemma CheckpointExact(v: Value, c: Checkpoint)
    ensures Parse(Some(v)) == Some(c) <==> v == ToJson(c) && WellFormed(c)
  {
    if v.Obj? {
      match c
      case L2Completed(_, _, _, _, _, _, _) =>
        L2Fields(v, c);
        L2JsonHasFields(c);
        if HasL2Fields(v, c) { OnlyL2Json(v, ToJson(c), c); }
      case L1Accepted(_, _, _, _, _, _) =>
        L1Fields(v, c);
        L1JsonHasFields(c);
        if HasL1Fields(v, c) { OnlyL1Json(v, ToJson(c), c); }
      case TerminalReviewAccepted(_, _, _) =>
        TerminalFields(v, c);
        TerminalJsonHasFields(c);
        if HasTerminalFields(v, c) { OnlyTerminalJson(v, ToJson(c), c); }
    }
  }
}
