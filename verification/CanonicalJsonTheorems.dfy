/** Canonical texts agree exactly when the values do: one direction for every comparator, the
    other exactly for the values in which no object holds two different keys that it ties. */
module CanonicalJsonTheorems {
  import opened CanonicalJson
  import opened CanonicalJsonPrint

  // ---- Sorting everywhere, then printing ----------------------------------------------------------

  function Normal(v: Value, leq: Order): Value {
    match v
    case Arr(items) => Arr(NormalItems(items, leq))
    case Obj(entries) => Obj(Sort(NormalEntries(entries, leq), leq))
    case _ => v
  }

  function NormalItems(items: seq<Value>, leq: Order): (r: seq<Value>)
    ensures |r| == |items|
  {
    if items == [] then [] else [Normal(items[0], leq)] + NormalItems(items[1..], leq)
  }

  function NormalEntries(entries: seq<Member>, leq: Order): (r: seq<Member>)
    ensures |r| == |entries| && forall i :: 0 <= i < |r| ==> r[i].key == entries[i].key
  {
    if entries == [] then [] else [Member(entries[0].key, Normal(entries[0].value, leq))] + NormalEntries(entries[1..], leq)
  }

  lemma {:induction false} NormalItemsAt(items: seq<Value>, leq: Order, i: nat)
    requires i < |items|
    ensures NormalItems(items, leq)[i] == Normal(items[i], leq)
    decreases i
  {
    if i > 0 {
      NormalItemsAt(items[1..], leq, i - 1);
    }
  }

  lemma {:induction false} NormalEntriesAt(entries: seq<Member>, leq: Order, i: nat)
    requires i < |entries|
    ensures NormalEntries(entries, leq)[i] == Member(entries[i].key, Normal(entries[i].value, leq))
    decreases i
  {
    if i > 0 {
      NormalEntriesAt(entries[1..], leq, i - 1);
    }
  }

  lemma {:induction false} PrintItemsAt(items: seq<Value>, i: nat)
    requires i < |items|
    ensures PrintItems(items)[i] == Print(items[i])
    decreases i
  {
    if i > 0 {
      PrintItemsAt(items[1..], i - 1);
    }
  }

  lemma {:induction false} InsertNormal(m: Member, sorted: seq<Member>, leq: Order)
    ensures Insert(Member(m.key, Normal(m.value, leq)), NormalEntries(sorted, leq), leq) == NormalEntries(Insert(m, sorted, leq), leq)
    decreases |sorted|
  {
    hide Normal;
    if sorted == [] || leq(m.key, sorted[0].key) {
      assert ([m] + sorted)[1..] == sorted;
    } else {
      InsertNormal(m, sorted[1..], leq);
      assert NormalEntries(sorted, leq)[1..] == NormalEntries(sorted[1..], leq);
      assert Insert(m, sorted, leq)[1..] == Insert(m, sorted[1..], leq);
    }
  }

  /** Sorting looks at the keys only, so it does not matter when the values are normalised. */
  lemma {:induction false} SortNormal(entries: seq<Member>, leq: Order)
    ensures Sort(NormalEntries(entries, leq), leq) == NormalEntries(Sort(entries, leq), leq)
    decreases |entries|
  {
    hide Normal;
    if entries != [] {
      SortNormal(entries[1..], leq);
      InsertNormal(entries[0], Sort(entries[1..], leq), leq);
      assert NormalEntries(entries, leq)[1..] == NormalEntries(entries[1..], leq);
    }
  }

  /** The one-pass printer of the source is a recursive sort followed by a plain print. */
  lemma {:induction false} SortThenPrint(v: Value, leq: Order)
    ensures Canonical(v, leq) == Print(Normal(v, leq))
    decreases v, 1, 0
  {
    match v
    case Arr(items) =>
      var texts := seq(|items|, i requires 0 <= i < |items| => Canonical(items[i], leq));
      forall i | 0 <= i < |items| ensures texts[i] == PrintItems(NormalItems(items, leq))[i] {
        SortThenPrint(items[i], leq);
        NormalItemsAt(items, leq, i);
        PrintItemsAt(NormalItems(items, leq), i);
      }
      assert texts == PrintItems(NormalItems(items, leq));
    case Obj(entries) =>
      SortNormal(entries, leq);
      MembersSortThenPrint(v, Sort(entries, leq), leq);
    case _ =>
  }

  lemma {:induction false} MembersSortThenPrint(owner: Value, sorted: seq<Member>, leq: Order)
    requires owner.Obj? && forall m :: m in sorted ==> m in owner.entries
    ensures CanonicalMembers(owner, sorted, leq) == PrintMembers(NormalEntries(sorted, leq))
    decreases owner, 0, |sorted|
  {
    if sorted != [] {
      assert sorted[0] in owner.entries;
      SortThenPrint(sorted[0].value, leq);
      MembersSortThenPrint(owner, sorted[1..], leq);
      assert NormalEntries(sorted, leq)[1..] == NormalEntries(sorted[1..], leq);
    }
  }

  // ---- Normalising keeps the meaning ------------------------------------------------------------------

  lemma {:induction false} InsertKeepsDistinct(m: Member, sorted: seq<Member>, leq: Order)
    requires DistinctKeys(sorted) && forall i :: 0 <= i < |sorted| ==> sorted[i].key != m.key
    ensures DistinctKeys(Insert(m, sorted, leq))
    decreases |sorted|
  {
    if sorted != [] && !leq(m.key, sorted[0].key) {
      InsertKeepsDistinct(m, sorted[1..], leq);
      var r := Insert(m, sorted[1..], leq);
      forall j | 0 <= j < |r| ensures r[j].key != sorted[0].key {
        assert r[j] in r;
      }
    }
  }

  lemma {:induction false} SortKeepsDistinct(entries: seq<Member>, leq: Order)
    requires DistinctKeys(entries)
    ensures DistinctKeys(Sort(entries, leq))
    decreases |entries|
  {
    if entries != [] {
      SortKeepsDistinct(entries[1..], leq);
      var r := Sort(entries[1..], leq);
      forall i | 0 <= i < |r| ensures r[i].key != entries[0].key {
        assert r[i] in entries[1..];
      }
      InsertKeepsDistinct(entries[0], r, leq);
    }
  }

  lemma FoundMember(entries: seq<Member>, m: Member)
    requires DistinctKeys(entries) && m in entries
    ensures m.key in Keys(entries) && entries[Find(entries, m.key)] == m
  {
    var i :| 0 <= i < |entries| && entries[i] == m;
    var j := Find(entries, m.key);
    assert i == j;
  }

  lemma SameFields(a: seq<Member>, b: seq<Member>)
    requires Keys(a) == Keys(b)
    requires forall k :: k in Keys(a) ==> Denote(a[Find(a, k)].value) == Denote(b[Find(b, k)].value)
    ensures Denote(Obj(a)) == Denote(Obj(b))
  {
    hide Keys, Find;
  }

  lemma SameItems(a: seq<Value>, b: seq<Value>)
    requires |a| == |b| && forall i :: 0 <= i < |a| ==> Denote(a[i]) == Denote(b[i])
    ensures Denote(Arr(a)) == Denote(Arr(b))
  {
  }

  /** The fields of an object, key by key, when normalising keeps the meaning of each value. */
  lemma FieldsKeepMeaning(entries: seq<Member>, leq: Order)
    requires DistinctKeys(entries)
    requires forall i :: 0 <= i < |entries| ==> Denote(Normal(entries[i].value, leq)) == Denote(entries[i].value)
    ensures Denote(Obj(Sort(NormalEntries(entries, leq), leq))) == Denote(Obj(entries))
  {
    hide Denote, Normal;
    var normal := NormalEntries(entries, leq);
    var sorted := Sort(normal, leq);
    SortKeepsDistinct(normal, leq);
    KeysOfSorted(entries, leq);
    forall k | k in Keys(sorted) ensures Denote(sorted[Find(sorted, k)].value) == Denote(entries[Find(entries, k)].value) {
      hide Keys, Find, Sort, NormalEntries, DistinctKeys;
      var i := Find(entries, k);
      NormalEntriesAt(entries, leq, i);
      assert normal[i] in normal;
      FoundMember(sorted, normal[i]);
    }
    hide Keys, Find, Sort, NormalEntries, DistinctKeys;
    SameFields(sorted, entries);
  }

  lemma ItemsKeepMeaning(items: seq<Value>, leq: Order)
    requires forall i :: 0 <= i < |items| ==> Denote(Normal(items[i], leq)) == Denote(items[i])
    ensures Denote(Arr(NormalItems(items, leq))) == Denote(Arr(items))
  {
    hide Denote, Normal, NormalItems;
    forall i | 0 <= i < |items| ensures Denote(NormalItems(items, leq)[i]) == Denote(items[i]) {
      NormalItemsAt(items, leq, i);
    }
    SameItems(NormalItems(items, leq), items);
  }

  lemma {:induction false} NormalKeepsMeaning(v: Value, leq: Order)
    requires IsJson(v)
    ensures Denote(Normal(v, leq)) == Denote(v)
    decreases v
  {
    match v
    case Arr(items) =>
      forall i | 0 <= i < |items| ensures Denote(Normal(items[i], leq)) == Denote(items[i]) {
        NormalKeepsMeaning(items[i], leq);
      }
      hide Denote;
      ItemsKeepMeaning(items, leq);
    case Obj(entries) =>
      forall i | 0 <= i < |entries| ensures Denote(Normal(entries[i].value, leq)) == Denote(entries[i].value) {
        NormalKeepsMeaning(entries[i].value, leq);
      }
      hide Denote;
      FieldsKeepMeaning(entries, leq);
    case _ =>
  }

  lemma KeysOfSorted(entries: seq<Member>, leq: Order)
    ensures Keys(Sort(NormalEntries(entries, leq), leq)) == Keys(entries)
  {
    var normal := NormalEntries(entries, leq);
    var sorted := Sort(normal, leq);
    forall k | k in Keys(entries) ensures k in Keys(sorted) {
      var i :| 0 <= i < |entries| && entries[i].key == k;
      assert normal[i] in sorted;
    }
    forall k | k in Keys(sorted) ensures k in Keys(entries) {
      var i :| 0 <= i < |sorted| && sorted[i].key == k;
      assert sorted[i] in normal;
    }
  }

  lemma {:induction false} NormalIsPrintable(v: Value, leq: Order)
    requires IsJson(v)
    ensures Printable(Normal(v, leq))
    decreases v
  {
    match v
    case Arr(items) =>
      forall i | 0 <= i < |items| ensures Printable(NormalItems(items, leq)[i]) {
        NormalItemsAt(items, leq, i);
        NormalIsPrintable(items[i], leq);
      }
    case Obj(entries) =>
      var normal := NormalEntries(entries, leq);
      forall m | m in normal ensures Printable(m.value) {
        var i :| 0 <= i < |normal| && normal[i] == m;
        NormalEntriesAt(entries, leq, i);
        NormalIsPrintable(entries[i].value, leq);
      }
      var sorted := Sort(normal, leq);
      assert forall i :: 0 <= i < |sorted| ==> sorted[i] in normal;
    case _ =>
  }

  /** Values with the same canonical text mean the same, whatever the comparator. */
  lemma CanonicalIsInjective(a: Value, b: Value, leq: Order)
    requires IsJson(a) && IsJson(b) && Canonical(a, leq) == Canonical(b, leq)
    ensures Denote(a) == Denote(b)
  {
    SortThenPrint(a, leq);
    SortThenPrint(b, leq);
    NormalIsPrintable(a, leq);
    NormalIsPrintable(b, leq);
    PrintIsInjective(Normal(a, leq), Normal(b, leq));
    NormalKeepsMeaning(a, leq);
    NormalKeepsMeaning(b, leq);
  }

  // ---- Independence of the order of the keys ----------------------------------------------------------

  ghost predicate TotalPreorder(leq: Order) {
    && (forall k, l :: leq(k, l) || leq(l, k))
    && (forall k, l, m :: leq(k, l) && leq(l, m) ==> leq(k, m))
  }

  predicate Tied(k: Text, l: Text, leq: Order) {
    k != l && leq(k, l) && leq(l, k)
  }

  /** No two different keys of the list are tied. */
  predicate Untied(entries: seq<Member>, leq: Order) {
    forall x, y :: x in entries && y in entries ==> !Tied(x.key, y.key, leq)
  }

  /** No object inside the value, at any depth, holds two different keys that the comparator ties. */
  predicate NoTies(v: Value, leq: Order) {
    match v
    case Arr(items) => forall i :: 0 <= i < |items| ==> NoTies(items[i], leq)
    case Obj(entries) => Untied(entries, leq) && forall i :: 0 <= i < |entries| ==> NoTies(entries[i].value, leq)
    case _ => true
  }

  ghost predicate Sorted(s: seq<Member>, leq: Order) {
    forall i, j :: 0 <= i < j < |s| ==> leq(s[i].key, s[j].key)
  }

  lemma {:induction false} InsertSorts(m: Member, sorted: seq<Member>, leq: Order)
    requires TotalPreorder(leq) && Sorted(sorted, leq)
    ensures Sorted(Insert(m, sorted, leq), leq)
    decreases |sorted|
  {
    if sorted != [] && !leq(m.key, sorted[0].key) {
      InsertSorts(m, sorted[1..], leq);
      var r := Insert(m, sorted[1..], leq);
      forall j | 0 <= j < |r| ensures leq(sorted[0].key, r[j].key) {
        assert r[j] in r;
      }
    }
  }

  lemma {:induction false} SortSorts(entries: seq<Member>, leq: Order)
    requires TotalPreorder(leq)
    ensures Sorted(Sort(entries, leq), leq)
    decreases |entries|
  {
    if entries != [] {
      SortSorts(entries[1..], leq);
      InsertSorts(entries[0], Sort(entries[1..], leq), leq);
    }
  }

  /** Without ties, the sorted order of a set of members is unique. */
  lemma {:induction false} SortedOrderIsUnique(p: seq<Member>, q: seq<Member>, leq: Order)
    requires Untied(p, leq) && Sorted(p, leq) && Sorted(q, leq) && DistinctKeys(p) && DistinctKeys(q)
    requires forall m :: m in p <==> m in q
    ensures p == q
    decreases |p|
  {
    if p == [] {
      assert forall i :: 0 <= i < |q| ==> q[i] in q;
    } else {
      assert p[0] in q && q != [];
      assert q[0] in p;
      SameHead(p, q, leq);
      forall m ensures m in p[1..] <==> m in q[1..] {
        TailMembers(p, m);
        TailMembers(q, m);
      }
      SortedOrderIsUnique(p[1..], q[1..], leq);
      assert p == [p[0]] + p[1..] && q == [q[0]] + q[1..];
    }
  }

  lemma TailMembers(p: seq<Member>, m: Member)
    requires p != [] && DistinctKeys(p)
    ensures m in p[1..] <==> m in p && m != p[0]
  {
    if m in p && m != p[0] {
      var i :| 0 <= i < |p| && p[i] == m;
      assert p[1..][i - 1] == m;
    }
  }

  lemma SameHead(p: seq<Member>, q: seq<Member>, leq: Order)
    requires Untied(p, leq) && Sorted(p, leq) && Sorted(q, leq) && DistinctKeys(p)
    requires p != [] && q != [] && p[0] in q && q[0] in p
    ensures p[0] == q[0]
  {
    FirstIsLeast(p, q[0], leq);
    FirstIsLeast(q, p[0], leq);
    hide Sorted, DistinctKeys;
    assert !Tied(p[0].key, q[0].key, leq);
  }

  lemma FirstIsLeast(p: seq<Member>, m: Member, leq: Order)
    requires Sorted(p, leq) && m in p
    ensures p[0] == m || leq(p[0].key, m.key)
    ensures DistinctKeys(p) ==> p[0] == m || p[0].key != m.key
  {
    var j :| 0 <= j < |p| && p[j] == m;
  }

  lemma NormalStaysUntied(entries: seq<Member>, leq: Order)
    requires Untied(entries, leq)
    ensures Untied(Sort(NormalEntries(entries, leq), leq), leq)
  {
    var p := NormalEntries(entries, leq);
    forall x, y | x in p && y in p ensures !Tied(x.key, y.key, leq) {
      var i :| 0 <= i < |p| && p[i] == x;
      var j :| 0 <= j < |p| && p[j] == y;
      assert entries[i] in entries && entries[j] in entries;
    }
  }

  lemma {:induction false} EqualMeaningsNormaliseAlike(a: Value, b: Value, leq: Order)
    requires TotalPreorder(leq) && NoTies(a, leq)
    requires IsJson(a) && IsJson(b) && Denote(a) == Denote(b)
    ensures Normal(a, leq) == Normal(b, leq)
    decreases a, 1
  {
    match a
    case Arr(items) =>
      var da, db := Denote(a).items, Denote(b).items;
      assert |items| == |da| == |db| == |b.items|;
      forall i | 0 <= i < |items| ensures NormalItems(items, leq)[i] == NormalItems(b.items, leq)[i] {
        assert da[i] == db[i];
        NormalItemsAt(items, leq, i);
        NormalItemsAt(b.items, leq, i);
        EqualMeaningsNormaliseAlike(items[i], b.items[i], leq);
      }
      assert NormalItems(items, leq) == NormalItems(b.items, leq);
    case Obj(entries) =>
      var p, q := NormalEntries(entries, leq), NormalEntries(b.entries, leq);
      forall m ensures m in p <==> m in q {
        if m in p {
          MemberCarriesOver(a, b, leq, m);
        }
        if m in q {
          MemberCarriesBack(a, b, leq, m);
        }
      }
      SortKeepsDistinct(p, leq);
      SortKeepsDistinct(q, leq);
      SortSorts(p, leq);
      SortSorts(q, leq);
      NormalStaysUntied(entries, leq);
      SortedOrderIsUnique(Sort(p, leq), Sort(q, leq), leq);
    case _ =>
  }

  /** The fields of both objects, key by key. */
  lemma FieldsAgree(a: Value, b: Value, k: Text)
    requires a.Obj? && b.Obj? && Denote(a) == Denote(b)
    ensures k in Keys(a.entries) <==> k in Keys(b.entries)
    ensures k in Keys(a.entries) ==> Denote(a.entries[Find(a.entries, k)].value) == Denote(b.entries[Find(b.entries, k)].value)
  {
    var fa, fb := Denote(a).fields, Denote(b).fields;
    assert k in fa <==> k in fb;
    if k in Keys(a.entries) {
      assert fa[k] == fb[k];
    }
  }

  lemma {:induction false} MemberCarriesOver(a: Value, b: Value, leq: Order, m: Member)
    requires TotalPreorder(leq) && a.Obj? && b.Obj? && NoTies(a, leq)
    requires IsJson(a) && IsJson(b) && Denote(a) == Denote(b) && m in NormalEntries(a.entries, leq)
    ensures m in NormalEntries(b.entries, leq)
    decreases a, 0
  {
    var p := NormalEntries(a.entries, leq);
    var i :| 0 <= i < |p| && p[i] == m;
    NormalEntriesAt(a.entries, leq, i);
    FoundMember(a.entries, a.entries[i]);
    FieldsAgree(a, b, m.key);
    var j := Find(b.entries, m.key);
    EqualMeaningsNormaliseAlike(a.entries[i].value, b.entries[j].value, leq);
    NormalEntriesAt(b.entries, leq, j);
    assert NormalEntries(b.entries, leq)[j] == m;
  }

  lemma {:induction false} MemberCarriesBack(a: Value, b: Value, leq: Order, m: Member)
    requires TotalPreorder(leq) && a.Obj? && b.Obj? && NoTies(a, leq)
    requires IsJson(a) && IsJson(b) && Denote(a) == Denote(b) && m in NormalEntries(b.entries, leq)
    ensures m in NormalEntries(a.entries, leq)
    decreases a, 0
  {
    var q := NormalEntries(b.entries, leq);
    var j :| 0 <= j < |q| && q[j] == m;
    NormalEntriesAt(b.entries, leq, j);
    FoundMember(b.entries, b.entries[j]);
    FieldsAgree(a, b, m.key);
    var i := Find(a.entries, m.key);
    EqualMeaningsNormaliseAlike(a.entries[i].value, b.entries[j].value, leq);
    NormalEntriesAt(a.entries, leq, i);
    assert NormalEntries(a.entries, leq)[i] == m;
  }

  /** For a value without tied keys, another value has the same canonical text exactly when it is the
      same JSON value. */
  lemma CanonicalAgreesExactly(a: Value, b: Value, leq: Order)
    requires TotalPreorder(leq) && NoTies(a, leq) && IsJson(a) && IsJson(b)
    ensures Canonical(a, leq) == Canonical(b, leq) <==> Denote(a) == Denote(b)
  {
    if Canonical(a, leq) == Canonical(b, leq) {
      CanonicalIsInjective(a, b, leq);
    }
    if Denote(a) == Denote(b) {
      EqualMeaningsNormaliseAlike(a, b, leq);
      SortThenPrint(a, leq);
      SortThenPrint(b, leq);
    }
  }

  // ---- Tied keys ------------------------------------------------------------------------------------

  /** `x` stands before `y` in the list. */
  ghost predicate Precedes(s: seq<Member>, x: Member, y: Member) {
    exists p, q :: 0 <= p < q < |s| && s[p] == x && s[q] == y
  }

  lemma PrecedesPrepend(m: Member, s: seq<Member>, x: Member, y: Member)
    ensures Precedes(s, x, y) ==> Precedes([m] + s, x, y)
    ensures m == x && y in s ==> Precedes([m] + s, x, y)
  {
    var r := [m] + s;
    if Precedes(s, x, y) {
      var p, q :| 0 <= p < q < |s| && s[p] == x && s[q] == y;
      assert r[p + 1] == x && r[q + 1] == y;
    }
    if m == x && y in s {
      var q :| 0 <= q < |s| && s[q] == y;
      assert r[0] == x && r[q + 1] == y;
    }
  }

  /** Inserting keeps the order of the others, and puts a new entry before those it precedes or ties. */
  lemma {:induction false} InsertIsStable(m: Member, sorted: seq<Member>, leq: Order, x: Member, y: Member)
    ensures Precedes(sorted, x, y) ==> Precedes(Insert(m, sorted, leq), x, y)
    ensures m == x && y in sorted && leq(x.key, y.key) ==> Precedes(Insert(m, sorted, leq), x, y)
    decreases |sorted|
  {
    if sorted == [] || leq(m.key, sorted[0].key) {
      PrecedesPrepend(m, sorted, x, y);
    } else {
      var rest := Insert(m, sorted[1..], leq);
      InsertIsStable(m, sorted[1..], leq, x, y);
      PrecedesPrepend(sorted[0], rest, x, y);
      if Precedes(sorted, x, y) {
        var p, q :| 0 <= p < q < |sorted| && sorted[p] == x && sorted[q] == y;
        assert sorted[1..][q - 1] == y;
        if p > 0 {
          assert sorted[1..][p - 1] == x && sorted[1..][q - 1] == y;
        }
      }
    }
  }

  lemma {:induction false} SortIsStable(entries: seq<Member>, leq: Order, x: Member, y: Member)
    requires Precedes(entries, x, y) && leq(x.key, y.key)
    ensures Precedes(Sort(entries, leq), x, y)
    decreases |entries|
  {
    var p, q :| 0 <= p < q < |entries| && entries[p] == x && entries[q] == y;
    var rest := Sort(entries[1..], leq);
    assert entries[1..][q - 1] == y;
    InsertIsStable(entries[0], rest, leq, x, y);
    if p > 0 {
      assert entries[1..][p - 1] == x;
      SortIsStable(entries[1..], leq, x, y);
    }
  }

  lemma OneOrderOnly(s: seq<Member>, x: Member, y: Member)
    requires DistinctKeys(s) && x.key != y.key && Precedes(s, x, y)
    ensures !Precedes(s, y, x)
  {
    var p, q :| 0 <= p < q < |s| && s[p] == x && s[q] == y;
    forall i, j | 0 <= i < j < |s| && s[i] == y ensures s[j] != x {
      assert s[i].key == s[q].key;
    }
  }

  /** The entries with two places exchanged. */
  function Swapped(entries: seq<Member>, i: nat, j: nat): (r: seq<Member>)
    requires i < j < |entries|
    ensures |r| == |entries|
  {
    entries[i := entries[j]][j := entries[i]]
  }

  lemma SwappedMembers(entries: seq<Member>, i: nat, j: nat)
    requires i < j < |entries| && DistinctKeys(entries)
    ensures DistinctKeys(Swapped(entries, i, j))
    ensures forall m :: m in Swapped(entries, i, j) <==> m in entries
  {
    var r := Swapped(entries, i, j);
    forall m ensures m in r <==> m in entries {
      if m in r {
        var k :| 0 <= k < |r| && r[k] == m;
        assert m == entries[if k == i then j else if k == j then i else k];
      }
      if m in entries {
        var k :| 0 <= k < |entries| && entries[k] == m;
        assert m == r[if k == i then j else if k == j then i else k];
      }
    }
  }

  lemma SwappedMeansTheSame(entries: seq<Member>, i: nat, j: nat)
    requires i < j < |entries| && DistinctKeys(entries)
    ensures DistinctKeys(Swapped(entries, i, j)) && Denote(Obj(Swapped(entries, i, j))) == Denote(Obj(entries))
  {
    SwappedMembers(entries, i, j);
    hide Swapped, DistinctKeys, Denote;
    SameMembersMeanTheSame(Swapped(entries, i, j), entries);
  }

  lemma SameMembersMeanTheSame(a: seq<Member>, b: seq<Member>)
    requires DistinctKeys(a) && DistinctKeys(b) && forall m :: m in a <==> m in b
    ensures Denote(Obj(a)) == Denote(Obj(b))
  {
    forall k ensures k in Keys(a) <==> k in Keys(b) {
      if k in Keys(a) {
        assert a[Find(a, k)] in a;
        FoundMember(b, a[Find(a, k)]);
      }
      if k in Keys(b) {
        assert b[Find(b, k)] in b;
        FoundMember(a, b[Find(b, k)]);
      }
    }
    forall k | k in Keys(a) ensures a[Find(a, k)].value == b[Find(b, k)].value {
      assert a[Find(a, k)] in a;
      FoundMember(b, a[Find(a, k)]);
    }
    hide Find, Keys;
    SameFields(a, b);
  }

  /** Exchanging two tied entries changes the order in which the stable sort leaves them. */
  lemma SwappedSortsApart(entries: seq<Member>, i: nat, j: nat, leq: Order)
    requires i < j < |entries| && DistinctKeys(entries) && Tied(entries[i].key, entries[j].key, leq)
    ensures Normal(Obj(Swapped(entries, i, j)), leq) != Normal(Obj(entries), leq)
  {
    var p, q := NormalEntries(entries, leq), NormalEntries(Swapped(entries, i, j), leq);
    NormalSwaps(entries, i, j, leq);
    hide Sort, NormalEntries, Swapped;
    TiedSortApart(p, q, i, j, leq);
  }

  /** Normalising the values leaves an exchange of two entries an exchange. */
  lemma NormalSwaps(entries: seq<Member>, i: nat, j: nat, leq: Order)
    requires i < j < |entries| && DistinctKeys(entries)
    ensures var p, q := NormalEntries(entries, leq), NormalEntries(Swapped(entries, i, j), leq);
            && |p| == |q| == |entries| && DistinctKeys(p) && q[i] == p[j] && q[j] == p[i]
            && p[i].key == entries[i].key && p[j].key == entries[j].key
  {
    var r := Swapped(entries, i, j);
    assert r[i] == entries[j] && r[j] == entries[i];
    NormalEntriesAt(entries, leq, i);
    NormalEntriesAt(entries, leq, j);
    NormalEntriesAt(r, leq, i);
    NormalEntriesAt(r, leq, j);
    hide NormalEntries, Swapped;
  }

  lemma TiedSortApart(p: seq<Member>, q: seq<Member>, i: nat, j: nat, leq: Order)
    requires i < j < |p| == |q| && DistinctKeys(p) && q[i] == p[j] && q[j] == p[i] && Tied(p[i].key, p[j].key, leq)
    ensures Sort(p, leq) != Sort(q, leq)
  {
    hide Sort;
    SortIsStable(p, leq, p[i], p[j]);
    SortIsStable(q, leq, p[j], p[i]);
    SortKeepsDistinct(p, leq);
    OneOrderOnly(Sort(p, leq), p[i], p[j]);
  }

  /** The value with one element of an array, or one field of an object, replaced. */
  lemma ReplacedItem(items: seq<Value>, i: nat, w: Value, leq: Order)
    requires i < |items| && Denote(w) == Denote(items[i]) && Normal(w, leq) != Normal(items[i], leq)
    ensures Denote(Arr(items[i := w])) == Denote(Arr(items)) && Normal(Arr(items[i := w]), leq) != Normal(Arr(items), leq)
  {
    SameItems(items[i := w], items);
    NormalItemsAt(items, leq, i);
    NormalItemsAt(items[i := w], leq, i);
  }

  lemma ReplacedField(entries: seq<Member>, i: nat, w: Value, leq: Order)
    requires i < |entries| && DistinctKeys(entries) && Denote(w) == Denote(entries[i].value) && Normal(w, leq) != Normal(entries[i].value, leq)
    ensures var r := entries[i := Member(entries[i].key, w)];
            DistinctKeys(r) && Denote(Obj(r)) == Denote(Obj(entries)) && Normal(Obj(r), leq) != Normal(Obj(entries), leq)
  {
    var r := entries[i := Member(entries[i].key, w)];
    FieldsOfReplaced(entries, i, w);
    NormalReplaced(entries, i, w, leq);
    hide Sort, NormalEntries, Denote, DistinctKeys;
    OtherEntrySortsApart(NormalEntries(entries, leq), NormalEntries(r, leq), i, leq);
  }

  lemma NormalReplaced(entries: seq<Member>, i: nat, w: Value, leq: Order)
    requires i < |entries| && DistinctKeys(entries) && Normal(w, leq) != Normal(entries[i].value, leq)
    ensures var r := entries[i := Member(entries[i].key, w)];
            var p, q := NormalEntries(entries, leq), NormalEntries(r, leq);
            DistinctKeys(r) && i < |p| == |q| && DistinctKeys(p) && p[i].key == q[i].key && p[i] != q[i]
  {
    var r := entries[i := Member(entries[i].key, w)];
    hide Normal;
    SameKeysDistinct(entries, r);
    SameKeysDistinct(entries, NormalEntries(entries, leq));
    hide DistinctKeys;
    NormalEntriesAt(entries, leq, i);
    NormalEntriesAt(r, leq, i);
    hide NormalEntries;
  }

  lemma SameKeysDistinct(a: seq<Member>, b: seq<Member>)
    requires DistinctKeys(a) && |a| == |b| && forall k :: 0 <= k < |a| ==> b[k].key == a[k].key
    ensures DistinctKeys(b)
  {
  }

  lemma OtherEntrySortsApart(p: seq<Member>, q: seq<Member>, i: nat, leq: Order)
    requires i < |p| == |q| && DistinctKeys(p) && p[i].key == q[i].key && p[i] != q[i]
    ensures Sort(p, leq) != Sort(q, leq)
  {
    hide Sort;
    assert q[i] in q && q[i] !in p;
    assert q[i] in Sort(q, leq) && q[i] !in Sort(p, leq);
  }

  lemma FieldsOfReplaced(entries: seq<Member>, i: nat, w: Value)
    requires i < |entries| && DistinctKeys(entries) && Denote(w) == Denote(entries[i].value)
    ensures Denote(Obj(entries[i := Member(entries[i].key, w)])) == Denote(Obj(entries))
  {
    hide Denote;
    var r := entries[i := Member(entries[i].key, w)];
    assert forall k :: 0 <= k < |entries| ==> r[k].key == entries[k].key;
    assert Keys(r) == Keys(entries);
    forall k | k in Keys(r) ensures Denote(r[Find(r, k)].value) == Denote(entries[Find(entries, k)].value) {
      assert entries[Find(r, k)] in entries;
      FoundMember(entries, entries[Find(r, k)]);
      assert Find(r, k) == Find(entries, k);
    }
    SameFields(r, entries);
  }

  /** `b` is another way to write the JSON value `a`, and is normalised differently. */
  ghost predicate WrittenApart(a: Value, b: Value, leq: Order) {
    IsJson(b) && Denote(b) == Denote(a) && Normal(b, leq) != Normal(a, leq)
  }

  lemma ItemApart(items: seq<Value>, i: nat, w: Value, leq: Order)
    requires IsJson(Arr(items)) && i < |items| && WrittenApart(items[i], w, leq)
    ensures WrittenApart(Arr(items), Arr(items[i := w]), leq)
  {
    hide Denote, Normal;
    ReplacedItem(items, i, w, leq);
  }

  lemma FieldApart(entries: seq<Member>, i: nat, w: Value, leq: Order)
    requires IsJson(Obj(entries)) && i < |entries| && WrittenApart(entries[i].value, w, leq)
    ensures WrittenApart(Obj(entries), Obj(entries[i := Member(entries[i].key, w)]), leq)
  {
    hide Denote, Normal;
    ReplacedField(entries, i, w, leq);
  }

  lemma SwapApart(entries: seq<Member>, i: nat, j: nat, leq: Order)
    requires IsJson(Obj(entries)) && i < j < |entries| && Tied(entries[i].key, entries[j].key, leq)
    ensures WrittenApart(Obj(entries), Obj(Swapped(entries, i, j)), leq)
  {
    SwappedMembers(entries, i, j);
    SwappedMeansTheSame(entries, i, j);
    SwappedSortsApart(entries, i, j, leq);
    hide Denote, Normal, Swapped;
    var r := Swapped(entries, i, j);
    forall k | 0 <= k < |r| ensures IsJson(r[k].value) {
      assert r[k] in r && r[k] in entries;
    }
  }

  lemma TiedPlaces(entries: seq<Member>, leq: Order) returns (low: nat, high: nat)
    requires !Untied(entries, leq)
    ensures low < high < |entries| && Tied(entries[low].key, entries[high].key, leq)
  {
    var x, y :| x in entries && y in entries && Tied(x.key, y.key, leq);
    var i :| 0 <= i < |entries| && entries[i] == x;
    var j :| 0 <= j < |entries| && entries[j] == y;
    low, high := if i < j then i else j, if i < j then j else i;
  }

  /** A value with tied keys somewhere can be written in a way that is normalised differently. */
  lemma {:induction false} TiesHaveReordering(a: Value, leq: Order) returns (b: Value)
    requires IsJson(a) && !NoTies(a, leq)
    ensures WrittenApart(a, b, leq)
    decreases a
  {
    hide WrittenApart, DistinctKeys, Tied;
    match a
    case Arr(items) =>
      var i :| 0 <= i < |items| && !NoTies(items[i], leq);
      var w := TiesHaveReordering(items[i], leq);
      ItemApart(items, i, w, leq);
      b := Arr(items[i := w]);
    case Obj(entries) =>
      if i :| 0 <= i < |entries| && !NoTies(entries[i].value, leq) {
        var w := TiesHaveReordering(entries[i].value, leq);
        FieldApart(entries, i, w, leq);
        b := Obj(entries[i := Member(entries[i].key, w)]);
      } else {
        var low, high := TiedPlaces(entries, leq);
        SwapApart(entries, low, high, leq);
        hide Swapped;
        b := Obj(Swapped(entries, low, high));
      }
  }

  lemma NormalisedApartPrintApart(a: Value, b: Value, leq: Order)
    requires IsJson(a) && IsJson(b) && Normal(a, leq) != Normal(b, leq)
    ensures Canonical(a, leq) != Canonical(b, leq)
  {
    NormalIsPrintable(a, leq);
    NormalIsPrintable(b, leq);
    hide Canonical, Print, Normal, Printable, IsJson;
    SortThenPrint(a, leq);
    SortThenPrint(b, leq);
    if Print(Normal(a, leq)) == Print(Normal(b, leq)) {
      PrintIsInjective(Normal(a, leq), Normal(b, leq));
    }
  }

  /** All values that mean the same as `a` print like `a` exactly when `a` has no tied keys. */
  lemma OrderOfKeysIgnoredExactlyWithoutTies(a: Value, leq: Order)
    requires TotalPreorder(leq) && IsJson(a)
    ensures (forall b :: IsJson(b) && Denote(b) == Denote(a) ==> Canonical(b, leq) == Canonical(a, leq)) <==> NoTies(a, leq)
  {
    if NoTies(a, leq) {
      forall b | IsJson(b) && Denote(b) == Denote(a) ensures Canonical(b, leq) == Canonical(a, leq) {
        CanonicalAgreesExactly(a, b, leq);
      }
    } else {
      var b := TiesHaveReordering(a, leq);
      NormalisedApartPrintApart(a, b, leq);
    }
  }
}
