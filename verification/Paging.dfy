/** `page`: offset cursors printed and parsed as decimal text. */
module Paging {
  import opened Common
  import opened Decimal

  const MAX_SAFE_INTEGER := 9007199254740991

  predicate IsSafe(n: int) {
    -MAX_SAFE_INTEGER <= n <= MAX_SAFE_INTEGER
  }

  /** White space and line terminators, as the language's parser skips them. */
  predicate IsSpace(c: char) {
    var u := c as int;
    9 <= u <= 13 || u in {32, 160, 5760, 8232, 8233, 8239, 8287, 12288, 65279} || 8192 <= u <= 8202
  }

  function SkipSpaces(text: string): string {
    if text != [] && IsSpace(text[0]) then SkipSpaces(text[1..]) else text
  }

  /** The longest run of digits at the front. */
  function DigitsOf(text: string): (digits: string)
    ensures digits <= text && forall i :: 0 <= i < |digits| ==> IsDigit(digits[i])
  {
    if text != [] && IsDigit(text[0]) then [text[0]] + DigitsOf(text[1..]) else []
  }

  /** `Number.parseInt(text, 10)`: a number prefix is enough; `None` is NaN. */
  function ParseInt(text: string): Option<int> {
    var trimmed := SkipSpaces(text);
    var signed := trimmed != [] && trimmed[0] in "+-";
    var digits := DigitsOf(if signed then trimmed[1..] else trimmed);
    if digits == [] then None
    else if signed && trimmed[0] == '-' then Some(0 - ValueOf(digits))
    else Some(ValueOf(digits))
  }

  datatype Problem = ValidationFailed

  datatype Page<T> = Page(data: seq<T>, cursor: Option<string>, hasMore: bool)

  /** A requested limit that is not an integer at all is `None`. */
  function LimitOf(requested: Option<int>): (limit: nat)
    ensures 1 <= limit <= 100
  {
    if requested.Some? && IsSafe(requested.value) then Max(1, Min(requested.value, 100)) else 25
  }

  /** The empty cursor counts as no cursor. */
  function OffsetOf(cursor: Option<string>): Option<int> {
    if cursor.None? || cursor.value == "" then Some(0) else ParseInt(cursor.value)
  }

  /** `slice(offset, offset + limit)`, and the cursor of what comes next. */
  function Slice<T>(values: seq<T>, limit: nat, offset: nat): Page<T> {
    var data := values[Min(offset, |values|)..Min(offset + limit, |values|)];
    var next := offset + |data|;
    Page(data, if next < |values| then Some(Print(next)) else None, next < |values|)
  }

  function PageOf<T>(values: seq<T>, requested: Option<int>, cursor: Option<string>): Result<Page<T>, Problem> {
    var limit := LimitOf(requested);
    var offset := OffsetOf(cursor);
    if offset.None? || !IsSafe(offset.value) || offset.value < 0 then Failure(ValidationFailed)
    else Success(Slice(values, limit, offset.value))
  }

  // ---- Cursors ---------------------------------------------------------------------------------

  predicate AllDigits(text: string) {
    forall i :: 0 <= i < |text| ==> IsDigit(text[i])
  }

  /** A run of digits ends where something else follows. */
  lemma {:induction false} DigitsStop(digits: string, rest: string)
    requires AllDigits(digits) && (rest == [] || !IsDigit(rest[0]))
    ensures DigitsOf(digits + rest) == digits
  {
    if digits == [] {
      assert digits + rest == rest;
    } else {
      assert (digits + rest)[1..] == digits[1..] + rest;
      DigitsStop(digits[1..], rest);
    }
  }

  lemma DigitStartsNumber(text: string)
    requires text != [] && IsDigit(text[0])
    ensures SkipSpaces(text) == text && text[0] !in "+-"
  {
  }

  lemma ParseDigits(digits: string, rest: string)
    requires digits != [] && AllDigits(digits) && (rest == [] || !IsDigit(rest[0]))
    ensures ParseInt(digits + rest) == Some(ValueOf(digits))
  {
    DigitsStop(digits, rest);
    assert (digits + rest)[0] == digits[0];
    DigitStartsNumber(digits + rest);
    hide SkipSpaces, DigitsOf, ValueOf, IsDigit;
  }

  /** Printing and parsing a cursor undo each other. */
  lemma CursorRoundTrip(n: nat)
    ensures ParseInt(Print(n)) == Some(n) && Print(n) != ""
  {
    PrintDenotes(n);
    hide ParseInt, ValueOf;
    ParseDigits(Print(n), []);
    assert Print(n) + [] == Print(n);
  }

  /** What follows the number in a cursor is ignored. */
  lemma TrailingTextIgnored(n: nat, rest: string)
    requires rest == [] || !IsDigit(rest[0])
    ensures ParseInt(Print(n) + rest) == Some(n)
  {
    PrintDenotes(n);
    hide ParseInt, ValueOf;
    ParseDigits(Print(n), rest);
  }

  /** White space in front of a number is skipped: exactly these code units. */
  lemma SpacesOfTheLanguage(c: char)
    ensures IsSpace(c) <==> c as int in {9, 10, 11, 12, 13, 32, 160, 5760, 8192, 8193, 8194, 8195, 8196, 8197, 8198, 8199, 8200, 8201, 8202,
                                         8232, 8233, 8239, 8287, 12288, 65279}
  {
  }

  lemma {:induction false} LeadingSpaceIgnored(spaces: string, text: string)
    requires forall i :: 0 <= i < |spaces| ==> IsSpace(spaces[i])
    ensures ParseInt(spaces + text) == ParseInt(text)
    decreases |spaces|
  {
    hide DigitsOf, IsSpace, ValueOf;
    if spaces == [] {
      assert spaces + text == text;
    } else {
      LeadingSpaceIgnored(spaces[1..], text);
      assert (spaces + text)[1..] == spaces[1..] + text;
    }
  }

  /** A sign in front of the number counts. */
  lemma SignedNumber(n: nat)
    ensures ParseInt("-" + Print(n)) == Some(0 - n) && ParseInt("+" + Print(n)) == Some(n)
  {
    PrintDenotes(n);
    hide Print, ValueOf, ParseInt;
    SignedDigits('-', Print(n));
    SignedDigits('+', Print(n));
  }

  lemma SignedDigits(sign: char, digits: string)
    requires sign == '-' || sign == '+'
    requires digits != [] && AllDigits(digits)
    ensures ParseInt([sign] + digits) == Some(if sign == '-' then 0 - ValueOf(digits) else ValueOf(digits))
  {
    hide SkipSpaces, DigitsOf, ValueOf, IsDigit, AllDigits;
    SignIsNoSpace(sign, digits);
    assert DigitsOf(digits) == digits by {
      DigitsStop(digits, []);
      assert digits + [] == digits;
    }
    assert ([sign] + digits)[1..] == digits;
  }

  lemma SignIsNoSpace(sign: char, digits: string)
    requires sign == '-' || sign == '+'
    ensures SkipSpaces([sign] + digits) == [sign] + digits
  {
  }

  /** A negative cursor is refused. */
  lemma NegativeCursorRefused<T>(values: seq<T>, requested: Option<int>, n: nat)
    requires n > 0
    ensures PageOf(values, requested, Some("-" + Print(n))) == Failure(ValidationFailed)
  {
    SignedNumber(n);
    hide ParseInt, Print;
  }

  // ---- Reading a whole list ------------------------------------------------------------------------

  /** Pages read one after the other, each with the cursor of the one before, under any limits. */
  ghost predicate Reads<T>(values: seq<T>, limits: seq<Option<int>>, pages: seq<Page<T>>) {
    && |pages| == |limits| && pages != []
    && PageOf(values, limits[0], None) == Success(pages[0])
    && forall i :: 0 < i < |pages| ==> Follows(values, limits[i], pages[i - 1], pages[i])
  }

  ghost predicate Follows<T>(values: seq<T>, limit: Option<int>, previous: Page<T>, page: Page<T>) {
    previous.cursor.Some? && PageOf(values, limit, previous.cursor) == Success(page)
  }

  function Concat<T>(pages: seq<Page<T>>): seq<T>
    decreases |pages|
  {
    if pages == [] then [] else var last := |pages| - 1; Concat(pages[..last]) + pages[last].data
  }

  /** The page that a printed cursor leads to. */
  lemma PageAt<T>(values: seq<T>, requested: Option<int>, offset: nat)
    requires offset <= MAX_SAFE_INTEGER
    ensures PageOf(values, requested, Some(Print(offset))) == Success(Slice(values, LimitOf(requested), offset))
    ensures PageOf(values, requested, None) == Success(Slice(values, LimitOf(requested), 0))
  {
    CursorRoundTrip(offset);
    hide ParseInt, Print, Slice, LimitOf;
  }

  /** One page further reads up to where the next one starts. */
  lemma SliceExtends<T>(values: seq<T>, limit: nat, read: nat)
    requires read <= |values| && limit >= 1
    ensures var page := Slice(values, limit, read);
            var next := read + |page.data|;
            && next <= |values| && values[..read] + page.data == values[..next]
            && (read < |values| ==> read < next)
            && page.cursor == (if next < |values| then Some(Print(next)) else None)
            && (page.hasMore <==> page.cursor.Some?)
  {
    hide Print;
  }

  /** A page holds the elements from its offset on, as many as were asked for or as are left: 25 when
      no whole number was asked for, and never fewer than one or more than 100 asked. A cursor is
      refused exactly when it has no number prefix, or one that is negative or not exact. */
  lemma PageHolds<T>(values: seq<T>, requested: Option<int>, cursor: Option<string>)
    ensures var size := if requested.None? || !(-9007199254740991 <= requested.value <= 9007199254740991) then 25
                        else if requested.value < 1 then 1 else if requested.value > 100 then 100 else requested.value;
            var offset := if cursor.None? || cursor.value == "" then Some(0) else ParseInt(cursor.value);
            match PageOf(values, requested, cursor)
            case Failure(_) => offset.None? || !(0 <= offset.value <= 9007199254740991)
            case Success(page) =>
              && offset.Some? && 0 <= offset.value <= 9007199254740991
              && |page.data| == (if offset.value >= |values| then 0 else if |values| - offset.value < size then |values| - offset.value else size)
              && (forall i :: 0 <= i < |page.data| ==> page.data[i] == values[offset.value + i])
              && (page.cursor.Some? <==> offset.value + |page.data| < |values|)
              && (page.cursor.Some? ==> |page.data| == size && ParseInt(page.cursor.value) == Some(offset.value + size))
  {
    hide ParseInt, Print;
    var offset := OffsetOf(cursor);
    if offset.Some? && IsSafe(offset.value) && offset.value >= 0 {
      var page := Slice(values, LimitOf(requested), offset.value);
      CursorRoundTrip(offset.value + |page.data|);
    }
  }

  /** After any number of pages the data read is exactly a front part of the list, the cursor is
      the place where it ends, and it grows with every page. */
  lemma {:induction false} PagesTile<T>(values: seq<T>, limits: seq<Option<int>>, pages: seq<Page<T>>)
    requires |values| <= MAX_SAFE_INTEGER && Reads(values, limits, pages)
    ensures var read := Concat(pages);
            var last := pages[|pages| - 1];
            && |read| <= |values| && read == values[..|read|]
            && (values != [] ==> |read| >= |pages|)
            && last.cursor == (if |read| < |values| then Some(Print(|read|)) else None)
            && (last.hasMore <==> last.cursor.Some?)
    decreases |pages|
  {
    var last := |pages| - 1;
    hide PageOf, Slice, ParseInt, Print, LimitOf;
    if last == 0 {
      PageAt(values, limits[0], 0);
      SliceExtends(values, LimitOf(limits[0]), 0);
      assert Concat(pages[..0]) == [];
    } else {
      assert Follows(values, limits[last], pages[last - 1], pages[last]);
      forall i | 0 < i < last ensures Follows(values, limits[..last][i], pages[..last][i - 1], pages[..last][i]) {
        assert Follows(values, limits[i], pages[i - 1], pages[i]);
      }
      PagesTile(values, limits[..last], pages[..last]);
      NextPage(values, limits, pages, last, |Concat(pages[..last])|);
    }
  }

  lemma NextPage<T>(values: seq<T>, limits: seq<Option<int>>, pages: seq<Page<T>>, last: nat, read: nat)
    requires 0 < last < |pages| == |limits| && Follows(values, limits[last], pages[last - 1], pages[last])
    requires read <= |values| && read <= MAX_SAFE_INTEGER && pages[last - 1].cursor == (if read < |values| then Some(Print(read)) else None)
    ensures var page := pages[last];
            var next := read + |page.data|;
            && read < next <= |values| && values[..read] + page.data == values[..next]
            && page.cursor == (if next < |values| then Some(Print(next)) else None)
            && (page.hasMore <==> page.cursor.Some?)
  {
    hide PageOf, Slice, ParseInt, Print, LimitOf;
    PageAt(values, limits[last], read);
    SliceExtends(values, LimitOf(limits[last]), read);
  }

  /** When the cursor is null the pages put together are the whole list. */
  lemma LastPageCompletes<T>(values: seq<T>, limits: seq<Option<int>>, pages: seq<Page<T>>)
    requires |values| <= MAX_SAFE_INTEGER && Reads(values, limits, pages) && pages[|pages| - 1].cursor.None?
    ensures Concat(pages) == values
  {
    PagesTile(values, limits, pages);
    assert values[..|values|] == values;
  }

  /** Reading always goes on to the end: from any pages read so far, under any further limit, the
      next page can be read, and after at most one page per element the cursor is null. */
  lemma ReadingNeverStops<T>(values: seq<T>, limits: seq<Option<int>>, pages: seq<Page<T>>, limit: Option<int>)
    requires |values| <= MAX_SAFE_INTEGER && Reads(values, limits, pages)
    ensures pages[|pages| - 1].cursor.Some? ==>
              && PageOf(values, limit, pages[|pages| - 1].cursor).Success?
              && Reads(values, limits + [limit], pages + [PageOf(values, limit, pages[|pages| - 1].cursor).value])
    ensures |pages| >= |values| ==> pages[|pages| - 1].cursor.None?
  {
    PagesTile(values, limits, pages);
    var last := pages[|pages| - 1];
    if last.cursor.Some? {
      PageAt(values, limit, |Concat(pages)|);
      var pages' := pages + [PageOf(values, limit, last.cursor).value];
      var limits' := limits + [limit];
      forall i | 0 < i < |pages'| ensures Follows(values, limits'[i], pages'[i - 1], pages'[i]) {
        assert i < |pages| ==> Follows(values, limits[i], pages[i - 1], pages[i]);
      }
    }
  }
}
