/** A reader of compact JSON texts after RFC 8259, and what it makes of the canonical text. */
module CanonicalJsonRead {
  import opened Common
  import opened CanonicalJson
  import opened CanonicalJsonPrint
  import opened CanonicalJsonTheorems

  // ---- The reader ---------------------------------------------------------------------------------

  /** A value and the text behind it. */
  datatype Reading<+T> = Malformed | Read(value: T, rest: Text)

  /** Where the string that `t` continues is closed (section 7). */
  function ClosingQuote(t: Text): (k: Option<nat>)
    ensures k.Some? ==> k.value < |t|
    decreases |t|
  {
    if t == [] then None
    else if t[0] == 34 then Some(0)
    else
      var width := if t[0] == 92 then 2 else 1;
      if |t| < width then None
      else match ClosingQuote(t[width..])
        case Some(k) => Some(k + width)
        case None => None
  }

  function ReadString(t: Text): (r: Reading<Text>)
    ensures r.Read? ==> |r.rest| < |t|
  {
    match ClosingQuote(t)
    case None => Malformed
    case Some(k) =>
      match Unescape(t[..k])
      case Some(s) => Read(s, t[k + 1..])
      case None => Malformed
  }

  /** How far a number reaches (section 6). */
  function NumberLength(t: Text): (n: nat)
    ensures n <= |t| && (forall i :: 0 <= i < n ==> IsNumberUnit(t[i])) && (n < |t| ==> !IsNumberUnit(t[n]))
  {
    if t == [] || !IsNumberUnit(t[0]) then 0 else 1 + NumberLength(t[1..])
  }

  /** The literals null, true and false, strings, numbers, arrays and objects (sections 3 to 7). */
  function ReadValue(t: Text): (r: Reading<Value>)
    ensures r.Read? ==> |r.rest| < |t|
    decreases |t|, 0
  {
    if t == [] then Malformed
    else if t[0] == 34 then
      (match ReadString(t[1..])
       case Read(s, rest) => Read(Str(s), rest)
       case Malformed => Malformed)
    else if t[0] == 91 then
      if |t| > 1 && t[1] == 93 then Read(Arr([]), t[2..])
      else (match ReadItems(t[1..])
            case Read(items, rest) => Read(Arr(items), rest)
            case Malformed => Malformed)
    else if t[0] == 123 then
      if |t| > 1 && t[1] == 125 then Read(Obj([]), t[2..])
      else (match ReadMembers(t[1..])
            case Read(entries, rest) => Read(Obj(entries), rest)
            case Malformed => Malformed)
    else if [110, 117, 108, 108] <= t then Read(Null, t[4..])
    else if [116, 114, 117, 101] <= t then Read(Bool(true), t[4..])
    else if [102, 97, 108, 115, 101] <= t then Read(Bool(false), t[5..])
    else if NumberLength(t) > 0 then Read(Number(t[..NumberLength(t)]), t[NumberLength(t)..])
    else Malformed
  }

  /** One or more values with commas between them, up to the closing bracket. */
  function ReadItems(t: Text): (r: Reading<seq<Value>>)
    ensures r.Read? ==> |r.rest| < |t|
    decreases |t|, 1
  {
    match ReadValue(t)
    case Malformed => Malformed
    case Read(first, rest) =>
      if rest != [] && rest[0] == 93 then Read([first], rest[1..])
      else if rest != [] && rest[0] == 44 then
        (match ReadItems(rest[1..])
         case Read(more, after) => Read([first] + more, after)
         case Malformed => Malformed)
      else Malformed
  }

  function ReadMember(t: Text): (r: Reading<Member>)
    ensures r.Read? ==> |r.rest| < |t|
    decreases |t|, 1
  {
    if t == [] || t[0] != 34 then Malformed
    else match ReadString(t[1..])
      case Malformed => Malformed
      case Read(key, rest) =>
        if rest == [] || rest[0] != 58 then Malformed
        else match ReadValue(rest[1..])
          case Malformed => Malformed
          case Read(value, after) => Read(Member(key, value), after)
  }

  /** One or more members with commas between them, up to the closing brace. */
  function ReadMembers(t: Text): (r: Reading<seq<Member>>)
    ensures r.Read? ==> |r.rest| < |t|
    decreases |t|, 2
  {
    match ReadMember(t)
    case Malformed => Malformed
    case Read(first, rest) =>
      if rest != [] && rest[0] == 125 then Read([first], rest[1..])
      else if rest != [] && rest[0] == 44 then
        (match ReadMembers(rest[1..])
         case Read(more, after) => Read([first] + more, after)
         case Malformed => Malformed)
      else Malformed
  }

  // ---- Strings ---------------------------------------------------------------------------------------

  lemma PlainUnitSkipped(u: CodeUnit, x: Text)
    requires u != QUOTE && u != BACKSLASH && ClosingQuote(x).Some?
    ensures ClosingQuote([u] + x) == Some(1 + ClosingQuote(x).value)
  {
    assert ([u] + x)[1..] == x;
  }

  lemma EscapedUnitSkipped(u: CodeUnit, x: Text)
    requires ClosingQuote(x).Some?
    ensures ClosingQuote([BACKSLASH, u] + x) == Some(2 + ClosingQuote(x).value)
  {
    assert ([BACKSLASH, u] + x)[2..] == x;
  }

  lemma HexSkipped(u: CodeUnit, x: Text)
    requires ClosingQuote(x).Some?
    ensures ClosingQuote(Hex4(u) + x) == Some(4 + ClosingQuote(x).value)
  {
    HexIsPlain(u);
    hide ClosingQuote, Hex4;
    PlainUnitsSkipped(Hex4(u), x);
  }

  lemma {:induction false} PlainUnitsSkipped(h: Text, x: Text)
    requires ClosingQuote(x).Some? && forall i :: 0 <= i < |h| ==> h[i] != QUOTE && h[i] != BACKSLASH
    ensures ClosingQuote(h + x) == Some(|h| + ClosingQuote(x).value)
    decreases |h|
  {
    hide ClosingQuote;
    if h == [] {
      assert h + x == x;
    } else {
      PlainUnitsSkipped(h[1..], x);
      PlainUnitSkipped(h[0], h[1..] + x);
      assert h + x == [h[0]] + (h[1..] + x);
    }
  }

  lemma HexIsPlain(u: CodeUnit)
    ensures forall i :: 0 <= i < 4 ==> Hex4(u)[i] != QUOTE && Hex4(u)[i] != BACKSLASH
  {
    forall d: nat | d < 16 ensures HexDigit(d) != QUOTE && HexDigit(d) != BACKSLASH {
    }
  }

  lemma UnitSkipped(u: CodeUnit, x: Text)
    requires ClosingQuote(x).Some?
    ensures ClosingQuote(EscapeUnit(u) + x) == Some(|EscapeUnit(u)| + ClosingQuote(x).value)
  {
    hide ClosingQuote, Hex4;
    if ShortEscape(u) != 0 {
      EscapedUnitSkipped(ShortEscape(u), x);
    } else if u < 32 || IsHigh(u) || IsLow(u) {
      HexSkipped(u, x);
      EscapedUnitSkipped(117, Hex4(u) + x);
      assert EscapeUnit(u) + x == [BACKSLASH, 117] + (Hex4(u) + x);
    } else {
      PlainUnitSkipped(u, x);
    }
  }

  lemma {:induction false} EscapedIsClosed(s: Text, tail: Text)
    requires tail != [] && tail[0] == QUOTE
    ensures ClosingQuote(Escape(s) + tail) == Some(|Escape(s)|)
    decreases |s|
  {
    QuoteCloses(tail);
    hide ClosingQuote, EscapeUnit;
    if s == [] {
      assert Escape(s) + tail == tail;
    } else if StartsWithPair(s) {
      EscapedIsClosed(s[2..], tail);
      hide Escape;
      PlainUnitsSkipped([s[0], s[1]], Escape(s[2..]) + tail);
      EscapeFront(s, tail);
    } else {
      EscapedIsClosed(s[1..], tail);
      hide Escape;
      UnitSkipped(s[0], Escape(s[1..]) + tail);
      EscapeFront(s, tail);
    }
  }

  lemma EscapeFront(s: Text, tail: Text)
    requires s != []
    ensures Escape(s) == Chunk(s) + Escape(s[Width(s)..])
    ensures Escape(s) + tail == Chunk(s) + (Escape(s[Width(s)..]) + tail)
  {
    hide EscapeUnit;
  }

  lemma QuoteCloses(tail: Text)
    requires tail != [] && tail[0] == QUOTE
    ensures ClosingQuote(tail) == Some(0)
  {
  }

  /** The content of a printed string reads back up to its closing quote. */
  lemma QuotedReadsBack(s: Text, r: Text)
    ensures ReadString(Escape(s) + [QUOTE] + r) == Read(s, r)
  {
    EscapedIsClosed(s, [QUOTE] + r);
    StringReadsBack(s);
    var t, k := Escape(s) + [QUOTE] + r, |Escape(s)|;
    assert t == Escape(s) + ([QUOTE] + r);
    assert t[..k] == Escape(s) && t[k + 1..] == r;
    hide ClosingQuote, Unescape, Escape;
  }

  // ---- Values ------------------------------------------------------------------------------------------

  lemma {:induction false} NumberReaches(digits: Text, r: Text)
    requires (forall i :: 0 <= i < |digits| ==> IsNumberUnit(digits[i])) && Stops(r)
    ensures NumberLength(digits + r) == |digits|
  {
    if digits == [] {
      assert digits + r == r;
    } else {
      NumberReaches(digits[1..], r);
      assert (digits + r)[1..] == digits[1..] + r;
    }
  }

  lemma NumberReadsBack(digits: Text, r: Text)
    requires IsNumberText(digits) && Stops(r)
    ensures ReadValue(digits + r) == Read(Number(digits), r)
  {
    NumberReaches(digits, r);
    var t := digits + r;
    assert t[0] == digits[0] && t[..|digits|] == digits && t[|digits|..] == r;
    hide NumberLength;
  }

  lemma WordReadsBack(v: Value, r: Text)
    requires v.Null? || v.Bool?
    ensures ReadValue(Print(v) + r) == Read(v, r)
  {
    var t, n := Print(v) + r, |Print(v)|;
    assert t[n..] == r && Print(v) <= t && t[0] == Print(v)[0];
  }

  lemma StringValueReadsBack(s: Text, r: Text)
    ensures ReadValue(Quote(s) + r) == Read(Str(s), r)
  {
    QuotedReadsBack(s, r);
    var t := Quote(s) + r;
    assert t[0] == QUOTE && t[1..] == Escape(s) + [QUOTE] + r;
    hide ReadString, Escape;
  }

  lemma RestStops(more: seq<Text>, close: CodeUnit, r: Text)
    requires close == RIGHT_BRACKET || close == RIGHT_BRACE
    ensures Stops(Rest(more, close, r)) && Rest(more, close, r)[1..] == if more == [] then r else Closed(more, close, r)
  {
    hide Closed;
  }

  /** What the printer writes reads back as the value, whatever follows that cannot continue it. */
  lemma {:induction false} ReadsBack(v: Value, r: Text)
    requires Printable(v) && Stops(r)
    ensures ReadValue(Print(v) + r) == Read(v, r)
    decreases v, 1
  {
    match v
    case Null => WordReadsBack(v, r);
    case Bool(_) => WordReadsBack(v, r);
    case Number(digits) => NumberReadsBack(digits, r);
    case Str(s) => StringValueReadsBack(s, r);
    case Arr(items) =>
      ArrayPrint(items, r);
      ItemsStart(items, r);
      hide Closed, PrintItems, Rest, Print, Stops;
      ReadArray(items, Closed(PrintItems(items), RIGHT_BRACKET, r), r);
      if items != [] {
        ItemsReadBack(items, r);
      }
    case Obj(entries) =>
      ObjectPrint(entries, r);
      MembersStart(entries, r);
      hide Closed, PrintMembers, Rest, Print, Stops;
      ReadObject(entries, Closed(PrintMembers(entries), RIGHT_BRACE, r), r);
      if entries != [] {
        MembersReadBack(entries, r);
      }
  }

  lemma ReadArray(items: seq<Value>, t: Text, r: Text)
    requires t != [] && (t[0] == RIGHT_BRACKET <==> items == []) && (items == [] ==> t == [RIGHT_BRACKET] + r)
    ensures items == [] || ReadItems(t) == Read(items, r) ==> ReadValue([LEFT_BRACKET] + t) == Read(Arr(items), r)
  {
    var text := [LEFT_BRACKET] + t;
    assert text[1] == t[0] && text[1..] == t && (items == [] ==> text[2..] == r);
    hide ReadItems;
  }

  lemma ReadObject(entries: seq<Member>, t: Text, r: Text)
    requires t != [] && (t[0] == RIGHT_BRACE <==> entries == []) && (entries == [] ==> t == [RIGHT_BRACE] + r)
    ensures entries == [] || ReadMembers(t) == Read(entries, r) ==> ReadValue([LEFT_BRACE] + t) == Read(Obj(entries), r)
  {
    var text := [LEFT_BRACE] + t;
    assert text[1] == t[0] && text[1..] == t && (entries == [] ==> text[2..] == r);
    hide ReadMembers;
  }

  lemma {:induction false} ItemsReadBack(xs: seq<Value>, r: Text)
    requires xs != [] && forall i :: 0 <= i < |xs| ==> Printable(xs[i])
    ensures ReadItems(Closed(PrintItems(xs), RIGHT_BRACKET, r)) == Read(xs, r)
    decreases xs, 0
  {
    var more := PrintItems(xs[1..]);
    ItemsStart(xs, r);
    RestStops(more, RIGHT_BRACKET, r);
    var rest := Rest(more, RIGHT_BRACKET, r);
    hide Closed, PrintItems, Print, Rest, ReadItems;
    ReadsBack(xs[0], rest);
    ItemsGoOn(Print(xs[0]) + rest, xs[0], rest);
    if xs[1..] == [] {
      assert more == [] && rest[1..] == r;
      assert xs == [xs[0]];
    } else {
      assert more != [];
      ItemsReadBack(xs[1..], r);
      assert xs == [xs[0]] + xs[1..];
    }
  }

  lemma ItemsGoOn(t: Text, first: Value, rest: Text)
    requires ReadValue(t) == Read(first, rest) && rest != []
    ensures rest[0] == RIGHT_BRACKET ==> ReadItems(t) == Read([first], rest[1..])
    ensures rest[0] == COMMA && ReadItems(rest[1..]).Read? ==> ReadItems(t) == Read([first] + ReadItems(rest[1..]).value, ReadItems(rest[1..]).rest)
  {
    hide ReadValue;
  }

  lemma MembersGoOn(t: Text, first: Member, rest: Text)
    requires ReadMember(t) == Read(first, rest) && rest != []
    ensures rest[0] == RIGHT_BRACE ==> ReadMembers(t) == Read([first], rest[1..])
    ensures rest[0] == COMMA && ReadMembers(rest[1..]).Read? ==> ReadMembers(t) == Read([first] + ReadMembers(rest[1..]).value, ReadMembers(rest[1..]).rest)
  {
    hide ReadMember;
  }

  lemma {:induction false} MembersReadBack(xs: seq<Member>, r: Text)
    requires xs != [] && forall i :: 0 <= i < |xs| ==> Printable(xs[i].value)
    ensures ReadMembers(Closed(PrintMembers(xs), RIGHT_BRACE, r)) == Read(xs, r)
    decreases xs, 0
  {
    var more := PrintMembers(xs[1..]);
    MembersStart(xs, r);
    RestStops(more, RIGHT_BRACE, r);
    var rest := Rest(more, RIGHT_BRACE, r);
    hide Closed, PrintMembers, PrintMember, Rest, ReadMembers;
    MemberReadsBack(xs[0], rest);
    MembersGoOn(PrintMember(xs[0]) + rest, xs[0], rest);
    if xs[1..] == [] {
      assert more == [] && rest[1..] == r;
      assert xs == [xs[0]];
    } else {
      assert more != [];
      MembersReadBack(xs[1..], r);
      assert xs == [xs[0]] + xs[1..];
    }
  }

  lemma {:induction false} MemberReadsBack(m: Member, x: Text)
    requires Printable(m.value) && Stops(x)
    ensures ReadMember(PrintMember(m) + x) == Read(m, x)
    decreases m, 2
  {
    MemberPrint(m, x);
    ReadsBack(m.value, x);
    hide PrintMember, Print;
    MemberParts(m, Print(m.value) + x, x);
  }

  lemma MemberParts(m: Member, value: Text, x: Text)
    requires ReadValue(value) == Read(m.value, x)
    ensures ReadMember(Quote(m.key) + ([COLON] + value)) == Read(m, x)
  {
    var tail := [COLON] + value;
    hide ReadString, ReadValue, Escape, ReadMember;
    QuotedReadsBack(m.key, tail);
    assert (Quote(m.key) + tail)[1..] == Escape(m.key) + [QUOTE] + tail && tail[1..] == value;
    MemberGoesOn(Quote(m.key) + tail, m.key, tail, m.value, x);
  }

  lemma MemberGoesOn(t: Text, key: Text, tail: Text, value: Value, x: Text)
    requires t != [] && t[0] == QUOTE && ReadString(t[1..]) == Read(key, tail)
    requires tail != [] && tail[0] == COLON && ReadValue(tail[1..]) == Read(value, x)
    ensures ReadMember(t) == Read(Member(key, value), x)
  {
    hide ReadString, ReadValue;
  }

  /** The canonical text is a JSON text of the value: read back, all of it, it gives the value with
      its entries sorted, which means the same. */
  lemma CanonicalReadsBack(v: Value, leq: Order)
    requires IsJson(v)
    ensures var r := ReadValue(Canonical(v, leq)); r == Read(Normal(v, leq), []) && Denote(r.value) == Denote(v)
  {
    SortThenPrint(v, leq);
    NormalIsPrintable(v, leq);
    NormalKeepsMeaning(v, leq);
    hide Canonical, Print, Normal, Printable, Denote, IsJson;
    ReadsBack(Normal(v, leq), []);
    assert Print(Normal(v, leq)) + [] == Print(Normal(v, leq));
  }

  // ---- Which escape is used -------------------------------------------------------------------------

  /** The lower-case hexadecimal digit. */
  function LowerHex(d: nat): CodeUnit
    requires d < 16
  {
    [48, 49, 50, 51, 52, 53, 54, 55, 56, 57, 97, 98, 99, 100, 101, 102][d]
  }

  /** `JSON.stringify` writes seven units as two characters, the other control characters and lone
      surrogates as six with lower-case digits, and everything else as itself. */
  lemma EscapeIsStringify(u: CodeUnit)
    ensures EscapeUnit(8) == [92, 98] && EscapeUnit(9) == [92, 116] && EscapeUnit(10) == [92, 110] && EscapeUnit(12) == [92, 102]
    ensures EscapeUnit(13) == [92, 114] && EscapeUnit(34) == [92, 34] && EscapeUnit(92) == [92, 92]
    ensures u !in {8, 9, 10, 12, 13, 34, 92} ==>
              EscapeUnit(u) == if u < 32 || 0xD800 <= u < 0xE000
                               then [92, 117, LowerHex(u / 4096), LowerHex(u / 256 % 16), LowerHex(u / 16 % 16), LowerHex(u % 16)]
                               else [u]
  {
    forall d: nat | d < 16 ensures HexDigit(d) == LowerHex(d) {
    }
  }
}
