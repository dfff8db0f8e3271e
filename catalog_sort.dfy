/** Ordering of a product listing: `sortBy` names a numeric attribute
    (`Price` or `AverageRating`), the scanned items are copied, sorted
    ascending on it by a stable sort (`List.sort`), and reversed in place
    (`Collections.reverse`) when `sortOrder` is "DSC" in any case. */
module CatalogSort {
  import opened Java
  import opened DynamoStore

  /** The attributes a listing can be sorted on. */
  datatype SortField = AverageRating | Price

  function AttributeName(f: SortField): string {
    match f
    case AverageRating => "AverageRating"
    case Price => "Price"
  }

  /** The `switch (sortBy)`: an exact, case-sensitive match on the attribute
      name; null, empty and every other value select no sort. */
  function ParseSortBy(sortBy: JString): (r: Option<SortField>)
    ensures r == Some(AverageRating) <==> sortBy == Some("AverageRating")
    ensures r == Some(Price) <==> sortBy == Some("Price")
    ensures r == None <==> sortBy != Some("AverageRating") && sortBy != Some("Price")
  {
    if !Present(sortBy) then None
    else if sortBy.value == "AverageRating" then Some(AverageRating)
    else if sortBy.value == "Price" then Some(Price)
    else None
  }

  /** `sortOrder != null && sortOrder.equalsIgnoreCase("DSC")`.  Two
      characters match when they are equal or their upper-case forms are:
      besides `s` and `S`, the long s U+017F upper-cases to `S`. */
  predicate IsDescending(sortOrder: JString) {
    && sortOrder.Some?
    && |sortOrder.value| == 3
    && sortOrder.value[0] in "Dd"
    && sortOrder.value[1] in "Ss\U{17F}"
    && sortOrder.value[2] in "Cc"
  }

  /** Every spelling of "DSC" that `equalsIgnoreCase` accepts. */
  const DescendingSpellings: set<string> :=
    {"DSC", "DSc", "DsC", "Dsc", "dSC", "dSc", "dsC", "dsc",
     "D\U{17F}C", "D\U{17F}c", "d\U{17F}C", "d\U{17F}c"}

  /** A descending order is requested by exactly the twelve spellings. */
  lemma DescendingExactly(sortOrder: JString)
    ensures IsDescending(sortOrder) <==> sortOrder.Some? && sortOrder.value in DescendingSpellings
  {
    if sortOrder.Some? && |sortOrder.value| == 3 {
      var v := sortOrder.value;
      assert v == [v[0], v[1], v[2]];
    }
  }

  /** The item carries the sort attribute as a number. */
  predicate HasKey(item: Item, f: SortField) {
    AttributeName(f) in item && item[AttributeName(f)].N?
  }

  /** `Double.parseDouble(item.get(attribute).n())`, for items that have it. */
  function Key(item: Item, f: SortField): real {
    if HasKey(item, f) then item[AttributeName(f)].n else 0.0
  }

  /** The comparator's key extractor for `f`, as a function value. */
  function KeyOn(f: SortField): Item -> real {
    item => Key(item, f)
  }

  /** The comparator's key extractor fails (`get` returns null, or `n()` of a
      string attribute is null) on an item without a numeric key; a sort of
      fewer than two elements never calls it. */
  predicate SortThrows(items: seq<Item>, sortBy: JString) {
    && ParseSortBy(sortBy).Some?
    && |items| >= 2
    && exists i :: 0 <= i < |items| && !HasKey(items[i], ParseSortBy(sortBy).value)
  }

  function Last(s: seq<Item>): Item
    requires s != []
  {
    s[|s| - 1]
  }

  function Init(s: seq<Item>): seq<Item>
    requires s != []
  {
    s[..|s| - 1]
  }

  /** Places `x` behind every element whose key does not exceed its own:
      one step of a stable ascending sort, where `x` comes last in scan order. */
  function Insert(s: seq<Item>, x: Item, key: Item -> real): seq<Item>
    decreases |s|
  {
    if s == [] || key(Last(s)) <= key(x) then s + [x]
    else Insert(Init(s), x, key) + [Last(s)]
  }

  /** The stable ascending sort on `f`, inserting the elements in scan order. */
  function StableSort(s: seq<Item>, key: Item -> real): seq<Item>
    decreases |s|
  {
    if s == [] then [] else Insert(StableSort(Init(s), key), Last(s), key)
  }

  function Reverse(s: seq<Item>): seq<Item>
    decreases |s|
  {
    if s == [] then [] else [Last(s)] + Reverse(Init(s))
  }

  /** The listing order: unchanged without a recognised `sortBy`, ascending,
      or the exact reverse of ascending for "DSC".  It neither drops nor
      adds items. */
  function Ordered(items: seq<Item>, sortBy: JString, sortOrder: JString): (r: seq<Item>)
    ensures multiset(r) == multiset(items) && |r| == |items|
  {
    match ParseSortBy(sortBy)
    case None => items
    case Some(f) =>
      StableSortPermutes(items, KeyOn(f));
      ReversePermutes(StableSort(items, KeyOn(f)));
      ReverseLength(StableSort(items, KeyOn(f)));
      if IsDescending(sortOrder) then Reverse(StableSort(items, KeyOn(f))) else StableSort(items, KeyOn(f))
  }

  ghost predicate Ascending(s: seq<Item>, key: Item -> real) {
    forall i, j :: 0 <= i < j < |s| ==> key(s[i]) <= key(s[j])
  }

  ghost predicate Descending(s: seq<Item>, key: Item -> real) {
    forall i, j :: 0 <= i < j < |s| ==> key(s[i]) >= key(s[j])
  }

  /** The items of `s` whose key is `k`, in their order in `s`. */
  function WithKey(s: seq<Item>, key: Item -> real, k: real): seq<Item>
    decreases |s|
  {
    if s == [] then []
    else WithKey(Init(s), key, k) + (if key(Last(s)) == k then [Last(s)] else [])
  }

  // ---------------------------------------------------------------------
  // Properties of the stable sort

  lemma {:induction false} InsertPermutes(s: seq<Item>, x: Item, key: Item -> real)
    ensures multiset(Insert(s, x, key)) == multiset(s) + multiset{x}
    ensures |Insert(s, x, key)| == |s| + 1
    decreases |s|
  {
    if s == [] || key(Last(s)) <= key(x) {
    } else {
      InsertPermutes(Init(s), x, key);
      assert s == Init(s) + [Last(s)];
    }
  }

  /** A bound on every key survives an insertion that respects it. */
  lemma {:induction false} InsertBounded(s: seq<Item>, x: Item, key: Item -> real, b: real)
    requires forall i :: 0 <= i < |s| ==> key(s[i]) <= b
    requires key(x) <= b
    ensures forall i :: 0 <= i < |Insert(s, x, key)| ==> key(Insert(s, x, key)[i]) <= b
    decreases |s|
  {
    if s == [] || key(Last(s)) <= key(x) {
    } else {
      InsertBounded(Init(s), x, key, b);
    }
  }

  lemma {:induction false} InsertAscending(s: seq<Item>, x: Item, key: Item -> real)
    requires Ascending(s, key)
    ensures Ascending(Insert(s, x, key), key)
    decreases |s|
  {
    if s == [] || key(Last(s)) <= key(x) {
    } else {
      var t := Insert(Init(s), x, key);
      InsertAscending(Init(s), x, key);
      InsertBounded(Init(s), x, key, key(Last(s)));
      assert Insert(s, x, key) == t + [Last(s)];
    }
  }

  /** Inserting `x` keeps the order of every group of equal keys, with `x`
      at the end of its own group. */
  lemma {:induction false} InsertWithKey(s: seq<Item>, x: Item, key: Item -> real, k: real)
    ensures WithKey(Insert(s, x, key), key, k) == WithKey(s, key, k) + (if key(x) == k then [x] else [])
    decreases |s|
  {
    if s == [] || key(Last(s)) <= key(x) {
      assert Init(s + [x]) == s;
    } else {
      var t := Insert(Init(s), x, key);
      InsertWithKey(Init(s), x, key, k);
      assert Init(t + [Last(s)]) == t;
    }
  }

  /** The sort's result is ascending in the key. */
  lemma {:induction false} StableSortAscending(s: seq<Item>, key: Item -> real)
    ensures Ascending(StableSort(s, key), key)
    decreases |s|
  {
    if s != [] {
      StableSortAscending(Init(s), key);
      InsertAscending(StableSort(Init(s), key), Last(s), key);
    }
  }

  /** The sort's result is a permutation of its input. */
  lemma {:induction false} StableSortPermutes(s: seq<Item>, key: Item -> real)
    ensures multiset(StableSort(s, key)) == multiset(s)
    ensures |StableSort(s, key)| == |s|
    decreases |s|
  {
    if s != [] {
      StableSortPermutes(Init(s), key);
      InsertPermutes(StableSort(Init(s), key), Last(s), key);
      assert s == Init(s) + [Last(s)];
    }
  }

  /** Stability: items with equal keys keep their scan order. */
  lemma {:induction false} StableSortKeepsTies(s: seq<Item>, key: Item -> real, k: real)
    ensures WithKey(StableSort(s, key), key, k) == WithKey(s, key, k)
    decreases |s|
  {
    if s != [] {
      StableSortKeepsTies(Init(s), key, k);
      InsertWithKey(StableSort(Init(s), key), Last(s), key, k);
    }
  }

  // ---------------------------------------------------------------------
  // Properties of the reversal

  lemma {:induction false} ReverseAt(s: seq<Item>, i: int)
    requires 0 <= i < |s|
    ensures |Reverse(s)| == |s|
    ensures Reverse(s)[i] == s[|s| - 1 - i]
    decreases |s|
  {
    ReverseLength(s);
    assert Reverse(s) == [Last(s)] + Reverse(Init(s));
    if i > 0 {
      ReverseAt(Init(s), i - 1);
      assert Reverse(s)[i] == Reverse(Init(s))[i - 1];
    }
  }

  lemma {:induction false} ReverseLength(s: seq<Item>)
    ensures |Reverse(s)| == |s|
    decreases |s|
  {
    if s != [] {
      ReverseLength(Init(s));
    }
  }

  lemma {:induction false} ReversePermutes(s: seq<Item>)
    ensures multiset(Reverse(s)) == multiset(s)
    decreases |s|
  {
    if s != [] {
      ReversePermutes(Init(s));
      assert s == Init(s) + [Last(s)];
    }
  }

  lemma {:induction false} WithKeyCons(y: Item, s: seq<Item>, key: Item -> real, k: real)
    ensures WithKey([y] + s, key, k) == (if key(y) == k then [y] else []) + WithKey(s, key, k)
    decreases |s|
  {
    if s != [] {
      WithKeyCons(y, Init(s), key, k);
      assert Init([y] + s) == [y] + Init(s);
    }
  }

  /** Reversal reverses every group of equal keys. */
  lemma {:induction false} ReverseWithKey(s: seq<Item>, key: Item -> real, k: real)
    ensures WithKey(Reverse(s), key, k) == Reverse(WithKey(s, key, k))
    decreases |s|
  {
    if s != [] {
      ReverseWithKey(Init(s), key, k);
      WithKeyCons(Last(s), Reverse(Init(s)), key, k);
      var w := WithKey(Init(s), key, k);
      if key(Last(s)) == k {
        assert Init(w + [Last(s)]) == w;
      } else {
        assert w + [] == w;
      }
    }
  }

  lemma ReverseDescending(s: seq<Item>, key: Item -> real)
    requires Ascending(s, key)
    ensures Descending(Reverse(s), key)
  {
    ReverseLength(s);
    forall i, j | 0 <= i < j < |s|
      ensures key(Reverse(s)[i]) >= key(Reverse(s)[j])
    {
      ReverseAt(s, i);
      ReverseAt(s, j);
    }
  }

  /** What the listing order promises besides being a permutation of the
      scan: with a recognised `sortBy`, keys ascending and ties in scan order, or, for
      "DSC", keys descending and ties in reverse scan order; otherwise the
      scan order itself. */
  lemma OrderedSpec(items: seq<Item>, sortBy: JString, sortOrder: JString, k: real)
    ensures ParseSortBy(sortBy).None? ==> Ordered(items, sortBy, sortOrder) == items
    ensures ParseSortBy(sortBy).Some? && !IsDescending(sortOrder) ==>
      var key := KeyOn(ParseSortBy(sortBy).value);
      Ascending(Ordered(items, sortBy, sortOrder), key) &&
      WithKey(Ordered(items, sortBy, sortOrder), key, k) == WithKey(items, key, k)
    ensures ParseSortBy(sortBy).Some? && IsDescending(sortOrder) ==>
      var key := KeyOn(ParseSortBy(sortBy).value);
      Descending(Ordered(items, sortBy, sortOrder), key) &&
      WithKey(Ordered(items, sortBy, sortOrder), key, k) == Reverse(WithKey(items, key, k))
  {
    if ParseSortBy(sortBy).Some? {
      var key := KeyOn(ParseSortBy(sortBy).value);
      StableSortAscending(items, key);
      StableSortKeepsTies(items, key, k);
      ReverseDescending(StableSort(items, key), key);
      ReverseWithKey(StableSort(items, key), key, k);
    }
  }

  // ---------------------------------------------------------------------
  // The in-place algorithms

  /** `Insert` puts `x` right after the last element whose key does not
      exceed its own, at a position `j` where every later key is greater. */
  lemma {:induction false} InsertSplit(s: seq<Item>, j: int, x: Item, key: Item -> real)
    requires 0 <= j <= |s|
    requires j == 0 || key(s[j - 1]) <= key(x)
    requires forall k :: j <= k < |s| ==> key(s[k]) > key(x)
    ensures Insert(s, x, key) == s[..j] + [x] + s[j..]
    decreases |s|
  {
    if |s| == j {
      assert s[..j] == s && s[j..] == [];
    } else {
      var t, last := Init(s), Last(s);
      assert key(last) > key(x);
      InsertSplit(t, j, x, key);
      assert t[..j] == s[..j];
      assert t[j..] + [last] == s[j..];
      assert (t[..j] + [x] + t[j..]) + [last] == t[..j] + [x] + (t[j..] + [last]);
    }
  }

  /** The array after one pass, as sequences: the prefix before `j` kept,
      the element from `i` at `j`, the elements from `j` to `i` shifted
      right by one. */
  lemma ShiftedPrefix(before: seq<Item>, after: seq<Item>, i: int, j: int)
    requires |after| == |before| && 0 <= j <= i < |before|
    requires forall k :: 0 <= k < j ==> after[k] == before[k]
    requires after[j] == before[i]
    requires forall k :: j < k <= i ==> after[k] == before[k - 1]
    ensures after[..i + 1] == before[..j] + [before[i]] + before[j..i]
  {
    var placed := before[..j] + [before[i]] + before[j..i];
    assert |placed| == i + 1;
    forall k | 0 <= k <= i
      ensures after[k] == placed[k]
    {
      if k < j {
        assert placed[k] == before[k];
      } else if k > j {
        assert placed[k] == before[k - 1];
      }
    }
  }

  /** One pass leaves the array as `Insert` of the element at `i` into the
      prefix before it. */
  lemma InsertPlaced(before: seq<Item>, after: seq<Item>, i: int, j: int, key: Item -> real)
    requires |after| == |before| && 0 <= j <= i < |before|
    requires forall k :: 0 <= k < j ==> after[k] == before[k]
    requires after[j] == before[i]
    requires forall k :: j < k <= i ==> after[k] == before[k - 1]
    requires forall k :: i < k < |before| ==> after[k] == before[k]
    requires j == 0 || key(before[j - 1]) <= key(before[i])
    requires forall k :: j <= k < i ==> key(before[k]) > key(before[i])
    ensures after[..i + 1] == Insert(before[..i], before[i], key)
    ensures after[i + 1..] == before[i + 1..]
  {
    ShiftedPrefix(before, after, i, j);
    var done := before[..i];
    assert done[..j] == before[..j] && done[j..] == before[j..i];
    InsertSplit(done, j, before[i], key);
  }

  /** Moves every element of the sorted prefix whose key exceeds that of
      the element at `i` one place right, and returns the gap left for it.
      `key` is the comparator's key extractor. */
  method MakeRoom(a: array<Item>, i: int, key: Item -> real) returns (j: int)
    requires 0 <= i < a.Length
    modifies a
    ensures 0 <= j <= i
    ensures forall k :: 0 <= k < j ==> a[k] == old(a[k])
    ensures forall k :: j < k <= i ==> a[k] == old(a[k - 1])
    ensures forall k :: i < k < a.Length ==> a[k] == old(a[k])
    ensures j == 0 || key(old(a[j - 1])) <= key(old(a[i]))
    ensures forall k :: j <= k < i ==> key(old(a[k])) > key(old(a[i]))
  {
    ghost var before := a[..];
    var x := key(a[i]);
    j := i;
    while j > 0 && key(a[j - 1]) > x
      invariant 0 <= j <= i
      invariant forall k :: 0 <= k < j ==> a[k] == before[k]
      invariant forall k :: j < k <= i ==> a[k] == before[k - 1]
      invariant forall k :: i < k < a.Length ==> a[k] == before[k]
      invariant forall k :: j <= k < i ==> key(before[k]) > x
    {
      a[j] := a[j - 1];
      j := j - 1;
    }
  }

  /** One pass of the sort: the element at `i` moves left past every
      element of the sorted prefix whose key exceeds its own. */
  method InsertAt(a: array<Item>, i: int, key: Item -> real)
    requires 0 <= i < a.Length
    modifies a
    ensures a[..i + 1] == Insert(old(a[..i]), old(a[i]), key)
    ensures a[i + 1..] == old(a[i + 1..])
  {
    ghost var before := a[..];
    var x := a[i];
    var j := MakeRoom(a, i, item => key(item));
    a[j] := x;
    InsertPlaced(before, a[..], i, j, key);
  }

  /** `List.sort` with a key comparator: a stable sort of the array in place. */
  method SortInPlace(a: array<Item>, key: Item -> real)
    modifies a
    ensures a[..] == StableSort(old(a[..]), key)
  {
    ghost var orig := a[..];
    var i := 0;
    while i < a.Length
      invariant 0 <= i <= a.Length
      invariant a[..i] == StableSort(orig[..i], key)
      invariant a[i..] == orig[i..]
    {
      ghost var pre := a[..];
      assert pre[i + 1..] == pre[i..][1..];
      InsertAt(a, i, key);
      assert a[i + 1..] == orig[i + 1..];
      assert orig[..i + 1] != [] && Init(orig[..i + 1]) == orig[..i] && Last(orig[..i + 1]) == orig[i];
      i := i + 1;
    }
    assert orig[..a.Length] == orig;
  }

  /** `Collections.reverse`: the array reversed in place. */
  method ReverseInPlace(a: array<Item>)
    modifies a
    ensures a[..] == Reverse(old(a[..]))
  {
    ghost var orig := a[..];
    var lo, hi := 0, a.Length - 1;
    while lo < hi
      invariant 0 <= lo <= a.Length && hi == a.Length - 1 - lo
      invariant forall k :: 0 <= k < lo ==> a[k] == orig[a.Length - 1 - k] && a[a.Length - 1 - k] == orig[k]
      invariant forall k :: lo <= k <= hi ==> a[k] == orig[k]
    {
      a[lo], a[hi] := a[hi], a[lo];
      lo, hi := lo + 1, hi - 1;
    }
    ReverseLength(orig);
    forall k | 0 <= k < a.Length
      ensures a[k] == Reverse(orig)[k]
    {
      ReverseAt(orig, k);
    }
  }

  /** Lines 165-182: copy the scan into a new list, sort it when `sortBy`
      names a sortable attribute, and reverse it for "DSC". */
  method OrderItems(items: seq<Item>, sortBy: JString, sortOrder: JString) returns (ordered: seq<Item>)
    ensures ordered == Ordered(items, sortBy, sortOrder)
  {
    ordered := items;
    if sortBy.Some? && sortBy.value != "" {
      var sortedItems := new Item[|items|](k requires 0 <= k < |items| => items[k]);
      assert sortedItems[..] == items;
      match sortBy.value
      case "AverageRating" =>
        SortInPlace(sortedItems, KeyOn(AverageRating));
        if IsDescending(sortOrder) { ReverseInPlace(sortedItems); }
        ordered := sortedItems[..];
      case "Price" =>
        SortInPlace(sortedItems, KeyOn(Price));
        if IsDescending(sortOrder) { ReverseInPlace(sortedItems); }
        ordered := sortedItems[..];
      case _ =>
    }
  }
}
