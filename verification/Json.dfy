/**
  Values that came out of JSON.parse, with property names of type K: a contract parser looks
  only at a fixed list of names, so its K lists them and lumps every other name together.
*/
module Json {
  import opened Wrappers

  /** `Num` is an integral number; a number with a fraction is `Fraction`. */
  datatype Json<K> =
    | Null
    | Bool(b: bool)
    | Num(n: int)
    | Fraction
    | Str(s: string)
    | Arr(items: seq<Json<K>>)
    | Obj(fields: map<K, Json<K>>)

  const MAX_SAFE_INTEGER: nat := 9007199254740991

  /** Property access: `None` is `undefined`, on anything but an object too. */
  function Field<K>(value: Option<Json<K>>, name: K): Option<Json<K>> {
    if value.Some? && value.value.Obj? then Get(value.value.fields, name) else None
  }

  /** A non-negative safe integer. */
  predicate IsCount<K>(value: Option<Json<K>>) {
    value.Some? && value.value.Num? && 0 <= value.value.n <= MAX_SAFE_INTEGER
  }

  function Count<K>(value: Option<Json<K>>): nat {
    if IsCount(value) then value.value.n else 0
  }

  function Text<K>(value: Option<Json<K>>): string {
    if value.Some? && value.value.Str? then value.value.s else ""
  }

  function Flag<K>(value: Option<Json<K>>): bool {
    value.Some? && value.value.Bool? && value.value.b
  }

  function Elements<K>(value: Option<Json<K>>): seq<Json<K>> {
    if value.Some? && value.value.Arr? then value.value.items else []
  }

  /**
    `words.includes(String(value))` for words without commas: besides the word itself, an array
    whose only element stringifies to it.
  */
  predicate CoercesTo<K>(value: Json<K>, words: set<string>) {
    match value
    case Str(s) => s in words
    case Arr(items) => |items| == 1 && CoercesTo(items[0], words)
    case _ => false
  }

  /** JavaScript's `trim` characters. */
  predicate IsSpace(c: char) {
    || '\t' <= c <= '\r' || c == ' ' || c == '\U{A0}' || c == '\U{1680}' || '\U{2000}' <= c <= '\U{200A}'
    || c == '\U{2028}' || c == '\U{2029}' || c == '\U{202F}' || c == '\U{205F}' || c == '\U{3000}' || c == '\U{FEFF}'
  }

  /** `value.trim().length > 0`. */
  predicate NonBlank(s: string) {
    exists i | 0 <= i < |s| :: !IsSpace(s[i])
  }

  /** Text of at most so many characters that says something. */
  predicate BoundedText(s: string, maximum: nat) {
    NonBlank(s) && |s| <= maximum
  }

  /** The code points JavaScript trims: tab to carriage return, space, and the Unicode spaces. */
  const TRIMMED: set<int> := {
    9, 10, 11, 12, 13, 32, 160, 5760, 8192, 8193, 8194, 8195, 8196, 8197, 8198, 8199, 8200, 8201, 8202,
    8232, 8233, 8239, 8287, 12288, 65279}

  lemma SpaceExactly(c: char)
    ensures IsSpace(c) <==> c as int in TRIMMED
  {
  }

  /** Bounded text is short enough, and has a character that `trim` would leave. */
  lemma BoundedTextExactly(s: string, maximum: nat)
    ensures BoundedText(s, maximum) <==> |s| <= maximum && exists c :: c in s && c as int !in TRIMMED
  {
    forall i | 0 <= i < |s| ensures IsSpace(s[i]) <==> s[i] as int in TRIMMED {
      SpaceExactly(s[i]);
    }
    if NonBlank(s) {
      var i :| 0 <= i < |s| && !IsSpace(s[i]);
      assert s[i] in s;
    }
  }

  predicate IsDigit(c: char) {
    '0' <= c <= '9'
  }

  predicate IsLetter(c: char) {
    'a' <= c <= 'z' || 'A' <= c <= 'Z'
  }
}
