/** The printer is self-delimiting, hence injective: sorting first, then printing. */
module CanonicalJsonPrint {
  import opened Common
  import opened CanonicalJson

  // ---- Printing without sorting ---------------------------------------------------------------

  function Print(v: Value): (text: Text) {
    match v
    case Null => NULL
    case Bool(b) => if b then TRUE else FALSE
    case Number(digits) => digits
    case Str(s) => Quote(s)
    case Arr(items) => [LEFT_BRACKET] + Join(PrintItems(items)) + [RIGHT_BRACKET]
    case Obj(entries) => [LEFT_BRACE] + Join(PrintMembers(entries)) + [RIGHT_BRACE]
  }

  function PrintItems(items: seq<Value>): (texts: seq<Text>)
    ensures |texts| == |items|
  {
    if items == [] then [] else [Print(items[0])] + PrintItems(items[1..])
  }

  function PrintMember(m: Member): Text {
    Quote(m.key) + [COLON] + Print(m.value)
  }

  function PrintMembers(entries: seq<Member>): (texts: seq<Text>)
    ensures |texts| == |entries|
  {
    if entries == [] then [] else [Quote(entries[0].key) + [COLON] + Print(entries[0].value)] + PrintMembers(entries[1..])
  }

  /** Every number in the value has a number text. */
  predicate Printable(v: Value) {
    match v
    case Number(digits) => IsNumberText(digits)
    case Arr(items) => forall i :: 0 <= i < |items| ==> Printable(items[i])
    case Obj(entries) => forall i :: 0 <= i < |entries| ==> Printable(entries[i].value)
    case _ => true
  }

  // ---- Strings delimit themselves -----------------------------------------------------------------

  function Chunk(s: Text): Text
    requires s != []
  {
    if StartsWithPair(s) then [s[0], s[1]] else EscapeUnit(s[0])
  }

  function Width(s: Text): (n: nat)
    requires s != []
    ensures 1 <= n <= |s|
  {
    if StartsWithPair(s) then 2 else 1
  }

  lemma HexDigitsDiffer(d: nat, e: nat)
    requires d < 16 && e < 16 && HexDigit(d) == HexDigit(e)
    ensures d == e
  {
  }

  lemma HexParts(u: CodeUnit)
    ensures u / 4096 < 16 && u == 4096 * (u / 4096) + 256 * (u / 256 % 16) + 16 * (u / 16 % 16) + u % 16
  {
    var q := u / 16;
    assert u / 256 == q / 16 && u / 4096 == q / 256;
  }

  lemma HexDetermines(u: CodeUnit, w: CodeUnit)
    requires Hex4(u) == Hex4(w)
    ensures u == w
  {
    HexParts(u);
    HexParts(w);
    var a, b := Hex4(u), Hex4(w);
    assert a[0] == b[0] && a[1] == b[1] && a[2] == b[2] && a[3] == b[3];
    HexDigitsDiffer(u / 4096, w / 4096);
    HexDigitsDiffer(u / 256 % 16, w / 256 % 16);
    HexDigitsDiffer(u / 16 % 16, w / 16 % 16);
    HexDigitsDiffer(u % 16, w % 16);
    hide HexDigit, Hex4;
  }

  /** The escape of one unit is recognised from its own first units. */
  lemma UnitDetermined(u: CodeUnit, w: CodeUnit, x: Text, y: Text)
    requires EscapeUnit(u) + x == EscapeUnit(w) + y
    ensures u == w && x == y
  {
    var a, b := EscapeUnit(u) + x, EscapeUnit(w) + y;
    assert a[0] == b[0];
    if a[0] == BACKSLASH {
      assert a[1] == b[1];
      if a[1] == 117 {
        assert a[2..6] == Hex4(u) && b[2..6] == Hex4(w);
        HexDetermines(u, w);
      } else {
        assert a[1] == ShortEscape(u) && b[1] == ShortEscape(w);
      }
    }
    assert |EscapeUnit(u)| == |EscapeUnit(w)|;
    assert x == a[|EscapeUnit(u)|..] && y == b[|EscapeUnit(w)|..];
  }

  lemma ChunkDetermined(s: Text, t: Text, x: Text, y: Text)
    requires s != [] && t != [] && Chunk(s) + x == Chunk(t) + y
    ensures Width(s) == Width(t) && s[..Width(s)] == t[..Width(t)] && x == y
  {
    var a, b := Chunk(s) + x, Chunk(t) + y;
    assert a[0] == b[0];
    if StartsWithPair(s) || StartsWithPair(t) {
      assert IsHigh(a[0]);
      assert StartsWithPair(s) && StartsWithPair(t);
      assert a[1] == b[1];
      assert x == a[2..] && y == b[2..];
    } else {
      UnitDetermined(s[0], t[0], x, y);
    }
  }

  /** The closing quote cannot be mistaken for content. */
  lemma EscapeStart(s: Text, r: Text)
    ensures var text := Escape(s) + [QUOTE] + r;
            text[0] == QUOTE <==> s == []
    ensures s != [] ==> Escape(s) + [QUOTE] + r == Chunk(s) + (Escape(s[Width(s)..]) + [QUOTE] + r)
  {
    if s != [] {
      assert Chunk(s)[0] != QUOTE;
      assert Escape(s) == Chunk(s) + Escape(s[Width(s)..]);
    }
  }

  lemma {:induction false} EscapeDelimited(s: Text, t: Text, r: Text, r': Text)
    requires Escape(s) + [QUOTE] + r == Escape(t) + [QUOTE] + r'
    ensures s == t && r == r'
    decreases |s|
  {
    EscapeStart(s, r);
    EscapeStart(t, r');
    if s == [] {
      assert Escape([]) + [QUOTE] + r == [QUOTE] + r && Escape([]) + [QUOTE] + r' == [QUOTE] + r';
      SamePrefix([QUOTE], r, r');
    } else {
      hide Escape, Chunk;
      ChunkDetermined(s, t, Escape(s[Width(s)..]) + [QUOTE] + r, Escape(t[Width(t)..]) + [QUOTE] + r');
      EscapeDelimited(s[Width(s)..], t[Width(t)..], r, r');
      assert s == s[..Width(s)] + s[Width(s)..] && t == t[..Width(t)] + t[Width(t)..];
    }
  }

  lemma QuoteDelimited(s: Text, t: Text, r: Text, r': Text)
    requires Quote(s) + r == Quote(t) + r'
    ensures s == t && r == r'
  {
    assert (Quote(s) + r)[1..] == Escape(s) + [QUOTE] + r;
    assert (Quote(t) + r')[1..] == Escape(t) + [QUOTE] + r';
    EscapeDelimited(s, t, r, r');
  }

  // ---- Strings read back ------------------------------------------------------------------------------

  function HexValue(u: CodeUnit): (d: Option<nat>)
    ensures d.Some? ==> d.value < 16
  {
    if 48 <= u <= 57 then Some(u - 48)
    else if 97 <= u <= 102 then Some(u - 87)
    else if 65 <= u <= 70 then Some(u - 55)
    else None
  }

  function ReadHex4(t: Text): Option<CodeUnit>
    requires |t| == 4
  {
    var a, b, c, d := HexValue(t[0]), HexValue(t[1]), HexValue(t[2]), HexValue(t[3]);
    if a.None? || b.None? || c.None? || d.None? then None
    else Some(4096 * a.value + 256 * b.value + 16 * c.value + d.value)
  }

  /** The two-character escapes of section 7 of RFC 8259: quote, backslash, slash, b, f, n, r, t. */
  function LetterValue(letter: CodeUnit): Option<CodeUnit> {
    if letter in {34, 92, 47} then Some(letter)
    else if letter == 98 then Some(8) else if letter == 102 then Some(12) else if letter == 110 then Some(10)
    else if letter == 114 then Some(13) else if letter == 116 then Some(9)
    else None
  }

  function Prepend(u: CodeUnit, s: Option<Text>): Option<Text> {
    match s case Some(text) => Some([u] + text) case None => None
  }

  /** The content of a string as section 7 of RFC 8259 reads it; `None` is a malformed string. */
  function Unescape(t: Text): Option<Text>
    decreases |t|
  {
    if t == [] then Some([])
    else if t[0] == QUOTE || t[0] < 32 then None
    else if t[0] != BACKSLASH then Prepend(t[0], Unescape(t[1..]))
    else if |t| >= 6 && t[1] == 117 then
      (match ReadHex4(t[2..6])
       case Some(u) => Prepend(u, Unescape(t[6..]))
       case None => None)
    else if |t| >= 2 && LetterValue(t[1]).Some? then Prepend(LetterValue(t[1]).value, Unescape(t[2..]))
    else None
  }

  lemma HexDigitReadsBack(d: nat)
    requires d < 16
    ensures HexValue(HexDigit(d)) == Some(d)
  {
  }

  lemma HexReadsBack(u: CodeUnit)
    ensures ReadHex4(Hex4(u)) == Some(u)
  {
    HexParts(u);
    HexDigitReadsBack(u / 4096);
    HexDigitReadsBack(u / 256 % 16);
    HexDigitReadsBack(u / 16 % 16);
    HexDigitReadsBack(u % 16);
    hide HexDigit, HexValue;
  }

  lemma RawUnitReadsBack(u: CodeUnit, rest: Text)
    requires u >= 32 && u != QUOTE && u != BACKSLASH
    ensures Unescape([u] + rest) == Prepend(u, Unescape(rest))
  {
    assert ([u] + rest)[1..] == rest;
  }

  lemma UnitReadsBack(u: CodeUnit, rest: Text)
    ensures Unescape(EscapeUnit(u) + rest) == Prepend(u, Unescape(rest))
  {
    var t := EscapeUnit(u) + rest;
    if ShortEscape(u) != 0 {
      assert t[2..] == rest && t[0] == BACKSLASH && t[1] == ShortEscape(u);
      assert LetterValue(t[1]) == Some(u);
    } else if u < 32 || IsHigh(u) || IsLow(u) {
      HexReadsBack(u);
      assert t[2..6] == Hex4(u) && t[6..] == rest && t[0] == BACKSLASH && t[1] == 117;
    } else {
      RawUnitReadsBack(u, rest);
    }
  }

  lemma PairReadsBack(high: CodeUnit, low: CodeUnit, rest: Text)
    requires IsHigh(high) && IsLow(low)
    ensures Unescape([high, low] + rest) == Prepend(high, Prepend(low, Unescape(rest)))
  {
    RawUnitReadsBack(high, [low] + rest);
    RawUnitReadsBack(low, rest);
    assert [high, low] + rest == [high] + ([low] + rest);
    hide Unescape;
  }

  /** What the printer escapes reads back as the string it was, for every sequence of units. */
  lemma {:induction false} StringReadsBack(s: Text)
    ensures Unescape(Escape(s)) == Some(s)
    decreases |s|
  {
    hide Unescape, EscapeUnit;
    if s == [] {
      assert Unescape([]) == Some([]) by { NothingReadsBack(); }
    } else if StartsWithPair(s) {
      StringReadsBack(s[2..]);
      PairReadsBack(s[0], s[1], Escape(s[2..]));
      assert s == [s[0]] + ([s[1]] + s[2..]);
    } else {
      StringReadsBack(s[1..]);
      UnitReadsBack(s[0], Escape(s[1..]));
      assert s == [s[0]] + s[1..];
    }
  }

  lemma NothingReadsBack()
    ensures Unescape([]) == Some([])
  {
  }

  // ---- Values delimit themselves -------------------------------------------------------------------

  /** What may follow a value: nothing that could continue a number. */
  predicate Stops(r: Text) {
    r == [] || !IsNumberUnit(r[0])
  }

  lemma NumberNotShorter(a: Text, b: Text, r: Text, r': Text)
    requires IsNumberText(b) && Stops(r) && a + r == b + r'
    ensures |a| >= |b|
  {
    var text := a + r;
    assert r != [] ==> text[|a|] == r[0];
    assert forall k :: 0 <= k < |b| ==> (b + r')[k] == b[k];
  }

  lemma NumberDelimited(a: Text, b: Text, r: Text, r': Text)
    requires IsNumberText(a) && IsNumberText(b) && Stops(r) && Stops(r') && a + r == b + r'
    ensures a == b && r == r'
  {
    NumberNotShorter(a, b, r, r');
    NumberNotShorter(b, a, r', r);
    assert a == (a + r)[..|a|] && b == (b + r')[..|b|];
    SamePrefix(a, r, r');
  }

  lemma SamePrefix(p: Text, r: Text, r': Text)
    requires p + r == p + r'
    ensures r == r'
  {
    assert r == (p + r)[|p|..] && r' == (p + r')[|p|..];
  }

  /** The first unit tells the kind of value, and it is never a closing bracket or a comma. */
  function FirstUnit(v: Value): CodeUnit
    requires Printable(v)
  {
    match v
    case Null => 110
    case Bool(b) => if b then 116 else 102
    case Number(digits) => digits[0]
    case Str(_) => QUOTE
    case Arr(_) => LEFT_BRACKET
    case Obj(_) => LEFT_BRACE
  }

  lemma PrintStarts(v: Value)
    requires Printable(v)
    ensures Print(v) != [] && Print(v)[0] == FirstUnit(v)
  {
  }

  /** A list up to its closing bracket and beyond. */
  function Closed(texts: seq<Text>, close: CodeUnit, r: Text): Text {
    Join(texts) + [close] + r
  }

  /** What follows the first element of a list. */
  function Rest(more: seq<Text>, close: CodeUnit, r: Text): (text: Text)
    ensures text != [] && text[0] == (if more == [] then close else COMMA)
  {
    if more == [] then [close] + r else [COMMA] + Closed(more, close, r)
  }

  lemma ClosedFront(first: Text, more: seq<Text>, close: CodeUnit, r: Text)
    ensures Closed([first] + more, close, r) == first + Rest(more, close, r)
  {
    assert ([first] + more)[1..] == more;
  }

  lemma ClosedEmpty(close: CodeUnit, r: Text)
    ensures Closed([], close, r) == [close] + r
  {
  }

  lemma RestDelimited(m: seq<Text>, n: seq<Text>, close: CodeUnit, r: Text, r': Text)
    requires close != COMMA && Rest(m, close, r) == Rest(n, close, r')
    ensures m == [] <==> n == []
    ensures if m == [] then r == r' else Closed(m, close, r) == Closed(n, close, r')
  {
    hide Closed;
    if m == [] {
      SamePrefix([close], r, r');
    } else {
      SamePrefix([COMMA], Closed(m, close, r), Closed(n, close, r'));
    }
  }

  lemma ArrayPrint(items: seq<Value>, r: Text)
    ensures Print(Arr(items)) + r == [LEFT_BRACKET] + Closed(PrintItems(items), RIGHT_BRACKET, r)
  {
  }

  lemma ObjectPrint(entries: seq<Member>, r: Text)
    ensures Print(Obj(entries)) + r == [LEFT_BRACE] + Closed(PrintMembers(entries), RIGHT_BRACE, r)
  {
  }

  lemma {:induction false} PrintDelimited(a: Value, b: Value, r: Text, r': Text)
    requires Printable(a) && Printable(b) && Stops(r) && Stops(r') && Print(a) + r == Print(b) + r'
    ensures a == b && r == r'
    decreases a, 1
  {
    PrintStarts(a);
    PrintStarts(b);
    assert FirstUnit(a) == (Print(a) + r)[0] == (Print(b) + r')[0] == FirstUnit(b);
    hide Join, Closed, Quote, PrintItems, PrintMembers, Stops;
    match a
    case Null => SamePrefix(NULL, r, r');
    case Bool(x) => SamePrefix(if x then TRUE else FALSE, r, r');
    case Number(digits) => NumberDelimited(digits, b.digits, r, r');
    case Str(s) => QuoteDelimited(s, b.s, r, r');
    case Arr(items) =>
      ArrayPrint(items, r);
      ArrayPrint(b.items, r');
      SamePrefix([LEFT_BRACKET], Closed(PrintItems(items), RIGHT_BRACKET, r), Closed(PrintItems(b.items), RIGHT_BRACKET, r'));
      ItemsDelimited(items, b.items, r, r');
    case Obj(entries) =>
      ObjectPrint(entries, r);
      ObjectPrint(b.entries, r');
      SamePrefix([LEFT_BRACE], Closed(PrintMembers(entries), RIGHT_BRACE, r), Closed(PrintMembers(b.entries), RIGHT_BRACE, r'));
      MembersDelimited(entries, b.entries, r, r');
  }

  /** A list begins with the bracket that closes it exactly when it is empty. */
  lemma ItemsStart(xs: seq<Value>, r: Text)
    requires forall i :: 0 <= i < |xs| ==> Printable(xs[i])
    ensures var text := Closed(PrintItems(xs), RIGHT_BRACKET, r);
            && text != [] && (text[0] == RIGHT_BRACKET <==> xs == [])
            && (if xs == [] then text == [RIGHT_BRACKET] + r else text == Print(xs[0]) + Rest(PrintItems(xs[1..]), RIGHT_BRACKET, r))
  {
    hide Join, Print;
    if xs == [] {
      ClosedEmpty(RIGHT_BRACKET, r);
    } else {
      PrintStarts(xs[0]);
      ClosedFront(Print(xs[0]), PrintItems(xs[1..]), RIGHT_BRACKET, r);
    }
  }

  lemma {:induction false} ItemsDelimited(xs: seq<Value>, ys: seq<Value>, r: Text, r': Text)
    requires forall i :: 0 <= i < |xs| ==> Printable(xs[i])
    requires forall i :: 0 <= i < |ys| ==> Printable(ys[i])
    requires Closed(PrintItems(xs), RIGHT_BRACKET, r) == Closed(PrintItems(ys), RIGHT_BRACKET, r')
    ensures xs == ys && r == r'
    decreases xs, 0
  {
    ItemsStart(xs, r);
    ItemsStart(ys, r');
    hide Closed, Rest, PrintItems, Print;
    if xs == [] {
      SamePrefix([RIGHT_BRACKET], r, r');
    } else {
      PrintDelimited(xs[0], ys[0], Rest(PrintItems(xs[1..]), RIGHT_BRACKET, r), Rest(PrintItems(ys[1..]), RIGHT_BRACKET, r'));
      RestDelimited(PrintItems(xs[1..]), PrintItems(ys[1..]), RIGHT_BRACKET, r, r');
      if xs[1..] != [] {
        ItemsDelimited(xs[1..], ys[1..], r, r');
      }
      assert xs == [xs[0]] + xs[1..] && ys == [ys[0]] + ys[1..];
    }
  }

  lemma MembersStart(xs: seq<Member>, r: Text)
    ensures var text := Closed(PrintMembers(xs), RIGHT_BRACE, r);
            && text != [] && (text[0] == RIGHT_BRACE <==> xs == [])
            && (if xs == [] then text == [RIGHT_BRACE] + r else text == PrintMember(xs[0]) + Rest(PrintMembers(xs[1..]), RIGHT_BRACE, r))
  {
    hide Join, Print;
    if xs == [] {
      ClosedEmpty(RIGHT_BRACE, r);
    } else {
      ClosedFront(PrintMember(xs[0]), PrintMembers(xs[1..]), RIGHT_BRACE, r);
    }
  }

  lemma {:induction false} MembersDelimited(xs: seq<Member>, ys: seq<Member>, r: Text, r': Text)
    requires forall i :: 0 <= i < |xs| ==> Printable(xs[i].value)
    requires forall i :: 0 <= i < |ys| ==> Printable(ys[i].value)
    requires Closed(PrintMembers(xs), RIGHT_BRACE, r) == Closed(PrintMembers(ys), RIGHT_BRACE, r')
    ensures xs == ys && r == r'
    decreases xs, 0
  {
    MembersStart(xs, r);
    MembersStart(ys, r');
    hide Closed, Rest, PrintMembers, PrintMember;
    if xs == [] {
      SamePrefix([RIGHT_BRACE], r, r');
    } else {
      MemberDelimited(xs[0], ys[0], Rest(PrintMembers(xs[1..]), RIGHT_BRACE, r), Rest(PrintMembers(ys[1..]), RIGHT_BRACE, r'));
      RestDelimited(PrintMembers(xs[1..]), PrintMembers(ys[1..]), RIGHT_BRACE, r, r');
      if xs[1..] != [] {
        MembersDelimited(xs[1..], ys[1..], r, r');
      }
      assert xs == [xs[0]] + xs[1..] && ys == [ys[0]] + ys[1..];
    }
  }

  lemma MemberPrint(m: Member, x: Text)
    ensures PrintMember(m) + x == Quote(m.key) + ([COLON] + (Print(m.value) + x))
  {
  }

  lemma {:induction false} MemberDelimited(m: Member, n: Member, x: Text, y: Text)
    requires Printable(m.value) && Printable(n.value) && Stops(x) && Stops(y)
    requires PrintMember(m) + x == PrintMember(n) + y
    ensures m == n && x == y
    decreases m, 2
  {
    MemberPrint(m, x);
    MemberPrint(n, y);
    hide PrintMember, Quote, Print, Stops;
    var p, q := Print(m.value) + x, Print(n.value) + y;
    QuoteDelimited(m.key, n.key, [COLON] + p, [COLON] + q);
    SamePrefix([COLON], p, q);
    PrintDelimited(m.value, n.value, x, y);
  }

  /** Two values print alike only when they are the same value with the same entry order. */
  lemma PrintIsInjective(a: Value, b: Value)
    requires Printable(a) && Printable(b) && Print(a) == Print(b)
    ensures a == b
  {
    assert Print(a) + [] == Print(a) && Print(b) + [] == Print(b);
    PrintDelimited(a, b, [], []);
  }
}
