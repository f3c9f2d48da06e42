/** `canonicalJson`: JSON values, what they mean, and how they are printed. A text is a sequence
    of UTF-16 code units, as in the source language. */
module CanonicalJson {

  type CodeUnit = u: nat | u < 0x10000
  type Text = seq<CodeUnit>

  /** `Number` carries the text that the language prints for it. */
  datatype Value =
    | Null
    | Bool(b: bool)
    | Number(digits: Text)
    | Str(s: Text)
    | Arr(items: seq<Value>)
    | Obj(entries: seq<Member>)

  /** One property, in the order in which the object lists its properties. */
  datatype Member = Member(key: Text, value: Value)

  const QUOTE: CodeUnit := 34
  const COMMA: CodeUnit := 44
  const COLON: CodeUnit := 58
  const LEFT_BRACKET: CodeUnit := 91
  const BACKSLASH: CodeUnit := 92
  const RIGHT_BRACKET: CodeUnit := 93
  const LEFT_BRACE: CodeUnit := 123
  const RIGHT_BRACE: CodeUnit := 125
  const NULL: Text := [110, 117, 108, 108]
  const TRUE: Text := [116, 114, 117, 101]
  const FALSE: Text := [102, 97, 108, 115, 101]

  /** Digits, signs, the decimal point and the exponent mark. */
  predicate IsNumberUnit(u: CodeUnit) {
    48 <= u <= 57 || u == 43 || u == 45 || u == 46 || u == 101
  }

  predicate IsNumberText(digits: Text) {
    digits != [] && (48 <= digits[0] <= 57 || digits[0] == 45) && forall i :: 0 <= i < |digits| ==> IsNumberUnit(digits[i])
  }

  // ---- The values ---------------------------------------------------------------------------

  predicate DistinctKeys(entries: seq<Member>) {
    forall i, j :: 0 <= i < j < |entries| ==> entries[i].key != entries[j].key
  }

  /** Numbers have number texts and no object has a key twice. */
  predicate IsJson(v: Value) {
    match v
    case Number(digits) => IsNumberText(digits)
    case Arr(items) => forall i :: 0 <= i < |items| ==> IsJson(items[i])
    case Obj(entries) => DistinctKeys(entries) && forall i :: 0 <= i < |entries| ==> IsJson(entries[i].value)
    case _ => true
  }

  /** What a value means: an object is a finite map. */
  datatype Meaning =
    | MNull
    | MBool(b: bool)
    | MNumber(digits: Text)
    | MStr(s: Text)
    | MArr(items: seq<Meaning>)
    | MObj(fields: map<Text, Meaning>)

  function Keys(entries: seq<Member>): set<Text> {
    set i | 0 <= i < |entries| :: entries[i].key
  }

  function Find(entries: seq<Member>, key: Text): (i: nat)
    requires key in Keys(entries)
    ensures i < |entries| && entries[i].key == key
  {
    if entries[0].key == key then 0
    else
      assert key in Keys(entries[1..]) by {
        var i :| 0 <= i < |entries| && entries[i].key == key;
        assert entries[1..][i - 1].key == key;
      }
      1 + Find(entries[1..], key)
  }

  function Denote(v: Value): Meaning {
    match v
    case Null => MNull
    case Bool(b) => MBool(b)
    case Number(digits) => MNumber(digits)
    case Str(s) => MStr(s)
    case Arr(items) => MArr(seq(|items|, i requires 0 <= i < |items| => Denote(items[i])))
    case Obj(entries) => MObj(map k | k in Keys(entries) :: Denote(entries[Find(entries, k)].value))
  }

  // ---- Strings --------------------------------------------------------------------------------

  function HexDigit(d: nat): (u: CodeUnit)
    requires d < 16
    ensures u < 48 + 10 || 97 <= u < 97 + 6
  {
    if d < 10 then 48 + d else 97 + (d - 10)
  }

  function Hex4(u: CodeUnit): (hex: Text)
    ensures |hex| == 4
  {
    [HexDigit(u / 4096), HexDigit(u / 256 % 16), HexDigit(u / 16 % 16), HexDigit(u % 16)]
  }

  predicate IsHigh(u: CodeUnit) {
    0xD800 <= u < 0xDC00
  }

  predicate IsLow(u: CodeUnit) {
    0xDC00 <= u < 0xE000
  }

  /** The letter of a short escape, as for a line feed. */
  function ShortEscape(u: CodeUnit): (letter: CodeUnit)
    ensures letter != 0 ==> letter != 117
  {
    if u == 8 then 98 else if u == 9 then 116 else if u == 10 then 110 else if u == 12 then 102
    else if u == 13 then 114 else if u == QUOTE then QUOTE else if u == BACKSLASH then BACKSLASH else 0
  }

  /** One code unit of a quoted string; a surrogate reaches this only when it is alone. */
  function EscapeUnit(u: CodeUnit): Text {
    if ShortEscape(u) != 0 then [BACKSLASH, ShortEscape(u)]
    else if u < 32 || IsHigh(u) || IsLow(u) then [BACKSLASH, 117] + Hex4(u)
    else [u]
  }

  predicate StartsWithPair(s: Text) {
    |s| >= 2 && IsHigh(s[0]) && IsLow(s[1])
  }

  function Escape(s: Text): Text {
    if s == [] then []
    else if StartsWithPair(s) then [s[0], s[1]] + Escape(s[2..])
    else EscapeUnit(s[0]) + Escape(s[1..])
  }

  /** `JSON.stringify` of a string. */
  function Quote(s: Text): Text {
    [QUOTE] + Escape(s) + [QUOTE]
  }

  // ---- Sorting and printing --------------------------------------------------------------------

  /** `localeCompare(left, right) <= 0`, whatever the locale makes of it. */
  type Order = (Text, Text) -> bool

  /** A new entry goes before the first one that it precedes or ties with. */
  function Insert(m: Member, sorted: seq<Member>, leq: Order): (r: seq<Member>)
    ensures forall x :: x in r <==> x == m || x in sorted
    ensures |r| == |sorted| + 1
  {
    if sorted == [] || leq(m.key, sorted[0].key) then [m] + sorted
    else [sorted[0]] + Insert(m, sorted[1..], leq)
  }

  /** The stable sort, adding the entries from the last to the first. */
  function Sort(entries: seq<Member>, leq: Order): (r: seq<Member>)
    ensures forall x :: x in r <==> x in entries
    ensures |r| == |entries|
  {
    if entries == [] then [] else Insert(entries[0], Sort(entries[1..], leq), leq)
  }

  function Join(texts: seq<Text>): Text {
    if texts == [] then []
    else if |texts| == 1 then texts[0]
    else texts[0] + [COMMA] + Join(texts[1..])
  }

  function Canonical(v: Value, leq: Order): Text
    decreases v, 1, 0
  {
    match v
    case Null => NULL
    case Bool(b) => if b then TRUE else FALSE
    case Number(digits) => digits
    case Str(s) => Quote(s)
    case Arr(items) => [LEFT_BRACKET] + Join(seq(|items|, i requires 0 <= i < |items| => Canonical(items[i], leq))) + [RIGHT_BRACKET]
    case Obj(entries) => [LEFT_BRACE] + Join(CanonicalMembers(v, Sort(entries, leq), leq)) + [RIGHT_BRACE]
  }

  function CanonicalMembers(owner: Value, sorted: seq<Member>, leq: Order): seq<Text>
    requires owner.Obj? && forall m :: m in sorted ==> m in owner.entries
    decreases owner, 0, |sorted|
  {
    if sorted == [] then []
    else
      assert sorted[0] in owner.entries;
      [Quote(sorted[0].key) + [COLON] + Canonical(sorted[0].value, leq)] + CanonicalMembers(owner, sorted[1..], leq)
  }
}
