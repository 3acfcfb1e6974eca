/**
  Org Plan positions: the printer and name parser of src/shared/org-plan-position.ts and the
  recognisers of src/shared/contracts/org-plan-checkpoint.ts.

  A JavaScript number is a nat here. Beyond the safe integers a parsed number is rounded, which
  is not modelled: such a field is `None`.
*/
module OrgPlanPosition {
  import opened Wrappers
  import opened Json

  // ----- Decimal notation -----

  function DigitOf(d: nat): char
    requires d < 10
  {
    '0' + d as char
  }

  function ValueOf(c: char): nat
    requires IsDigit(c)
  {
    (c - '0') as nat
  }

  /** A number in a template string. */
  function Decimal(n: nat): string {
    if n < 10 then [DigitOf(n)] else Decimal(n / 10) + [DigitOf(n % 10)]
  }

  predicate AllDigits(s: string) {
    forall i | 0 <= i < |s| :: IsDigit(s[i])
  }

  function Number(s: string): nat
    requires AllDigits(s)
  {
    if s == "" then 0 else Number(s[..|s| - 1]) * 10 + ValueOf(s[|s| - 1])
  }

  /** `[1-9]\d*` on the whole string. */
  predicate IsPositive(s: string) {
    s != "" && AllDigits(s) && s[0] != '0'
  }

  lemma {:induction false} DecimalIsPositive(n: nat)
    ensures AllDigits(Decimal(n)) && Number(Decimal(n)) == n
    ensures n >= 1 ==> IsPositive(Decimal(n))
  {
    if n < 10 {
      assert Decimal(n)[..0] == "";
    } else {
      DecimalIsPositive(n / 10);
      assert Decimal(n)[..|Decimal(n)| - 1] == Decimal(n / 10);
    }
  }

  /** Decimal notation without a leading zero is read and printed back unchanged. */
  lemma {:induction false} PositiveIsDecimal(s: string)
    requires IsPositive(s)
    ensures Number(s) >= 1 && Decimal(Number(s)) == s
  {
    var front, last := s[..|s| - 1], s[|s| - 1];
    assert s == front + [last];
    if front != "" {
      PositiveIsDecimal(front);
    }
  }

  /** A number is printed in the ordinary digits, the last one counting its ones. */
  lemma DecimalExactly(n: nat)
    ensures |Decimal(n)| >= 1 && Decimal(n)[|Decimal(n)| - 1] == "0123456789"[n % 10]
    ensures Decimal(n)[..|Decimal(n)| - 1] == if n < 10 then "" else Decimal(n / 10)
  {
    DigitExactly(n % 10);
  }

  lemma DigitExactly(d: nat)
    requires d < 10
    ensures DigitOf(d) == "0123456789"[d]
  {
  }

  // ----- Positions -----

  function Position(l1: nat): string {
    "L" + Decimal(l1)
  }

  function ChildPosition(l1: nat, l2: nat): string {
    "L" + Decimal(l1) + "." + Decimal(l2)
  }

  /** The first index of c, or the length. */
  function IndexOf(s: string, c: char): (k: nat)
    ensures k <= |s| && (k < |s| ==> s[k] == c) && forall i | 0 <= i < k :: s[i] != c
  {
    if s == "" || s[0] == c then 0 else 1 + IndexOf(s[1..], c)
  }

  lemma IndexOfFirst(s: string, c: char, t: string)
    requires forall i | 0 <= i < |s| :: s[i] != c
    ensures IndexOf(s + [c] + t, c) == |s|
  {
    var all := s + [c] + t;
    assert all[|s|] == c && forall i | 0 <= i < |s| :: all[i] == s[i];
  }

  predicate IsPosition(s: string) {
    s != "" && s[0] == 'L' && IsPositive(s[1..])
  }

  predicate IsChildPosition(s: string) {
    var dot := IndexOf(s, '.');
    s != "" && s[0] == 'L' && 1 <= dot < |s| && IsPositive(s[1..dot]) && IsPositive(s[dot + 1..])
  }

  /** The recogniser accepts exactly what the printer prints for positions from 1 on. */
  lemma RecognisesPositions(s: string)
    ensures IsPosition(s) <==> exists n: nat | n >= 1 :: s == Position(n)
  {
    if IsPosition(s) {
      PositiveIsDecimal(s[1..]);
      assert s == Position(Number(s[1..]));
    }
    forall n: nat | n >= 1 && s == Position(n) ensures IsPosition(s) {
      DecimalIsPositive(n);
      assert s[1..] == Decimal(n);
    }
  }

  lemma ChildPositionRecognised(n: nat, m: nat)
    requires n >= 1 && m >= 1
    ensures IsChildPosition(ChildPosition(n, m))
  {
    DecimalIsPositive(n);
    DecimalIsPositive(m);
    var head, s := "L" + Decimal(n), ChildPosition(n, m);
    IndexOfFirst(head, '.', Decimal(m));
    assert s == head + ['.'] + Decimal(m);
    assert s[1..|head|] == Decimal(n) && s[|head| + 1..] == Decimal(m);
  }

  lemma RecognisedChildPosition(s: string) returns (n: nat, m: nat)
    requires IsChildPosition(s)
    ensures n >= 1 && m >= 1 && s == ChildPosition(n, m)
  {
    var dot := IndexOf(s, '.');
    n, m := Number(s[1..dot]), Number(s[dot + 1..]);
    PositiveIsDecimal(s[1..dot]);
    PositiveIsDecimal(s[dot + 1..]);
    assert s == [s[0]] + s[1..dot] + [s[dot]] + s[dot + 1..];
  }

  lemma RecognisesChildPositions(s: string)
    ensures IsChildPosition(s) <==> exists n: nat, m: nat | n >= 1 && m >= 1 :: s == ChildPosition(n, m)
  {
    if IsChildPosition(s) {
      var n, m := RecognisedChildPosition(s);
    }
    forall n: nat, m: nat | n >= 1 && m >= 1 && s == ChildPosition(n, m) ensures IsChildPosition(s) {
      ChildPositionRecognised(n, m);
    }
  }

  /** The two numbers of a printed position stand before and behind its dot. */
  lemma PositionReadsBack(n: nat, m: nat)
    ensures Position(n) == ['L'] + Decimal(n)
    ensures var s, dot := ChildPosition(n, m), 1 + |Decimal(n)|;
      && |s| > dot && s[0] == 'L' && s[dot] == '.'
      && AllDigits(s[1..dot]) && Number(s[1..dot]) == n && AllDigits(s[dot + 1..]) && Number(s[dot + 1..]) == m
  {
    DecimalIsPositive(n);
    DecimalIsPositive(m);
    var s, dot := ChildPosition(n, m), 1 + |Decimal(n)|;
    assert s[1..dot] == Decimal(n) && s[dot + 1..] == Decimal(m);
  }

  // ----- Agent names -----

  /** A parsed agent name; a number past the safe integers is `None`. */
  datatype Identity = Identity(
    canonicalTaskName: string, canonicalPosition: Option<string>, generation: Option<nat>)

  /** `split('/').filter(Boolean).at(-1)`: the last non-empty segment, given the one read so far. */
  function LastSegment(path: string, segment: string): string {
    if path == "" then segment
    else
      var n := |path| - 1;
      if path[n] != '/' then LastSegment(path[..n], [path[n]] + segment)
      else if segment != "" then segment
      else LastSegment(path[..n], "")
  }

  function Name(nameOrPath: string): string {
    var last := LastSegment(nameOrPath, "");
    if last == "" then nameOrPath else last
  }

  function Safe(s: string): Option<nat>
    requires AllDigits(s)
  {
    if Number(s) <= MAX_SAFE_INTEGER then Some(Number(s)) else None
  }

  function Parse(nameOrPath: string): Option<Identity> {
    ParseName(Name(nameOrPath))
  }

  function ParseName(name: string): Option<Identity> {
    var k := IndexOf(name, '_');
    var task := name[..k];
    if !(task != "" && task[0] == 'l' && IsPositive(task[1..])) then None
    else
      var l1 := Safe(task[1..]);
      var position := if l1.Some? then Some(Position(l1.value)) else None;
      if k == |name| then Some(Identity(task, position, Some(1)))
      else if k + 1 < |name| && name[k + 1] == 'g' && IsPositive(name[k + 2..])
      then Some(Identity(task, position, Safe(name[k + 2..])))
      else None
  }

  function TaskName(n: nat): string {
    "l" + Decimal(n)
  }

  function GenerationName(n: nat, g: nat): string {
    TaskName(n) + "_g" + Decimal(g)
  }

  /** `orgPlanAgentDisplayName`, where the position is not rounded. */
  function DisplayName(name: string): string {
    var identity := Parse(name);
    if identity.Some? then identity.value.canonicalPosition.GetOr(name) else name
  }

  predicate NoSlash(s: string) {
    forall i | 0 <= i < |s| :: s[i] != '/'
  }

  lemma {:induction false} LastSegmentOf(path: string, name: string, segment: string)
    requires NoSlash(name) && name + segment != "" && (path == "" || path[|path| - 1] == '/')
    ensures LastSegment(path + name, segment) == name + segment
  {
    var all := path + name;
    if name == "" {
      assert all == path;
    } else {
      var front, last := name[..|name| - 1], name[|name| - 1];
      assert all[|all| - 1] == last && all[..|all| - 1] == path + front;
      assert NoSlash(front) by { assert forall i | 0 <= i < |front| :: front[i] == name[i]; }
      LastSegmentOf(path, front, [last] + segment);
      assert front + ([last] + segment) == name + segment;
    }
  }

  lemma NameOf(path: string, name: string)
    requires NoSlash(name) && name != "" && (path == "" || path[|path| - 1] == '/')
    ensures Name(path + name) == name
  {
    LastSegmentOf(path, name, "");
    assert name + "" == name;
  }

  predicate OnlySlashes(s: string) {
    forall i | 0 <= i < |s| :: s[i] == '/'
  }

  /** The name in a path is its last segment that is not empty, and the path itself where there is none. */
  lemma {:induction false} NameExactly(path: string, name: string, slashes: string)
    requires NoSlash(name) && (path == "" || path[|path| - 1] == '/') && OnlySlashes(slashes)
    ensures Name(slashes) == slashes
    ensures name != "" ==> Name(path + name + slashes) == name
  {
    TrailingSlashes("", slashes);
    assert "" + slashes == slashes;
    if name != "" {
      NameOf(path, name);
      TrailingSlashes(path + name, slashes);
      LastSegmentOf(path, name, "");
      assert name + "" == name;
    }
  }

  lemma {:induction false} TrailingSlashes(path: string, slashes: string)
    requires OnlySlashes(slashes)
    ensures LastSegment(path + slashes, "") == LastSegment(path, "")
  {
    if slashes == "" {
      assert path + slashes == path;
    } else {
      var n := |slashes| - 1;
      TrailingSlashes(path, slashes[..n]);
      assert (path + slashes)[..|path| + n] == path + slashes[..n];
    }
  }

  /** Every path has one of these two forms. */
  lemma {:induction false} PathHasName(all: string) returns (path: string, name: string, slashes: string)
    ensures NoSlash(name) && (path == "" || path[|path| - 1] == '/') && OnlySlashes(slashes)
    ensures all == path + name + slashes && (name == "" ==> path == "")
  {
    if all == "" {
      return "", "", "";
    }
    var n := |all| - 1;
    path, name, slashes := PathHasName(all[..n]);
    if all[n] == '/' {
      assert all == path + name + (slashes + "/");
      slashes := slashes + "/";
    } else if slashes == "" {
      assert all == path + (name + [all[n]]) + "";
      name := name + [all[n]];
    } else {
      assert all == path + name + slashes + [all[n]] + "";
      path, name, slashes := path + name + slashes, [all[n]], "";
    }
  }

  lemma TaskNameShape(n: nat)
    requires n >= 1
    ensures TaskName(n)[1..] == Decimal(n) && IsPositive(Decimal(n)) && Number(Decimal(n)) == n
    ensures NoSlash(TaskName(n)) && forall i | 0 <= i < |TaskName(n)| :: TaskName(n)[i] != '_'
  {
    DecimalIsPositive(n);
  }

  function SafePosition(n: nat): Option<string> {
    if n > 9007199254740991 then None else Some(Position(n))
  }

  lemma TaskNameParses(n: nat)
    requires 1 <= n
    ensures ParseName(TaskName(n)) == Some(Identity(TaskName(n), SafePosition(n), Some(1)))
  {
    TaskNameShape(n);
    assert TaskName(n)[..|TaskName(n)|] == TaskName(n);
  }

  lemma GenerationNameShape(n: nat, g: nat)
    requires 1 <= n && 1 <= g
    ensures var name, k := GenerationName(n, g), |TaskName(n)|;
      && IndexOf(name, '_') == k && k + 1 < |name| && name[..k] == TaskName(n) && name[k + 1] == 'g'
      && name[k + 2..] == Decimal(g) && NoSlash(name)
  {
    TaskNameShape(n);
    DecimalIsPositive(g);
    var name := GenerationName(n, g);
    assert name == TaskName(n) + ['_'] + ("g" + Decimal(g));
    IndexOfFirst(TaskName(n), '_', "g" + Decimal(g));
  }

  lemma GenerationNameParses(n: nat, g: nat)
    requires 1 <= n && 1 <= g
    ensures ParseName(GenerationName(n, g)) ==
      Some(Identity(TaskName(n), SafePosition(n), if g > 9007199254740991 then None else Some(g)))
  {
    TaskNameShape(n);
    DecimalIsPositive(g);
    GenerationNameShape(n, g);
  }

  /** What is parsed from a name, safe or not; what is no name is displayed as it is. */
  lemma ParsedIdentity(nameOrPath: string, n: nat, g: nat)
    requires n >= 1 && g >= 1
    ensures Name(nameOrPath) == TaskName(n) ==>
      Parse(nameOrPath) == Some(Identity(TaskName(n), SafePosition(n), Some(1)))
    ensures Name(nameOrPath) == GenerationName(n, g) ==>
      Parse(nameOrPath) == Some(Identity(TaskName(n), SafePosition(n), if g > 9007199254740991 then None else Some(g)))
    ensures Parse(nameOrPath).None? ==> DisplayName(nameOrPath) == nameOrPath
    ensures Name(nameOrPath) in {TaskName(n), GenerationName(n, g)} && n <= 9007199254740991 ==>
      DisplayName(nameOrPath) == Position(n)
  {
    TaskNameParses(n);
    GenerationNameParses(n, g);
  }

  /** Any path ending in a printed agent name gives back its task name, position and generation. */
  lemma NameRoundTrip(path: string, n: nat, g: nat)
    requires 1 <= n <= MAX_SAFE_INTEGER && 1 <= g <= MAX_SAFE_INTEGER
    requires path == "" || path[|path| - 1] == '/'
    ensures Parse(path + TaskName(n)) == Some(Identity(TaskName(n), Some(Position(n)), Some(1)))
    ensures Parse(path + GenerationName(n, g)) == Some(Identity(TaskName(n), Some(Position(n)), Some(g)))
    ensures DisplayName(path + GenerationName(n, g)) == Position(n)
  {
    TaskNameShape(n);
    GenerationNameShape(n, g);
    NameOf(path, TaskName(n));
    NameOf(path, GenerationName(n, g));
    TaskNameParses(n);
    GenerationNameParses(n, g);
  }

  predicate IsAgentName(name: string, n: nat, g: nat) {
    n >= 1 && g >= 1 && (name == TaskName(n) || name == GenerationName(n, g))
  }

  lemma ParsedName(nameOrPath: string) returns (n: nat, g: nat)
    requires Parse(nameOrPath).Some?
    ensures IsAgentName(Name(nameOrPath), n, g)
  {
    var name := Name(nameOrPath);
    var k := IndexOf(name, '_');
    PositiveIsDecimal(name[..k][1..]);
    n, g := Number(name[..k][1..]), 1;
    assert name[..k] == TaskName(n);
    if k == |name| {
      assert name[..k] == name;
    } else {
      PositiveIsDecimal(name[k + 2..]);
      g := Number(name[k + 2..]);
      SplitAt(name, k);
      assert name == TaskName(n) + "_g" + Decimal(g);
    }
  }

  lemma SplitAt(s: string, k: nat)
    requires k + 1 < |s|
    ensures s == s[..k] + [s[k], s[k + 1]] + s[k + 2..]
  {
  }

  lemma AgentNameParses(nameOrPath: string, n: nat, g: nat)
    requires IsAgentName(Name(nameOrPath), n, g)
    ensures Parse(nameOrPath).Some?
  {
    var name := Name(nameOrPath);
    TaskNameShape(n);
    DecimalIsPositive(g);
    if name == TaskName(n) {
      assert name[..IndexOf(name, '_')] == name;
    } else {
      GenerationNameShape(n, g);
    }
  }

  /** The parser accepts exactly the printed names, wherever they stand in a path. */
  lemma ParsesExactlyNames(nameOrPath: string)
    ensures Parse(nameOrPath).Some? <==> exists n: nat, g: nat :: IsAgentName(Name(nameOrPath), n, g)
  {
    if Parse(nameOrPath).Some? {
      var n, g := ParsedName(nameOrPath);
    }
    forall n: nat, g: nat | IsAgentName(Name(nameOrPath), n, g) ensures Parse(nameOrPath).Some? {
      AgentNameParses(nameOrPath, n, g);
    }
  }
}
