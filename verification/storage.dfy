/**
 * The scan history of lib/storage.ts: a list of products kept in one
 * durable slot, read back newest first, deduplicated by product code and
 * capped at a fixed number of entries. The durable slot is the datatype
 * `Slot`; the clock is the parameter `now`.
 */
module Storage {
  import opened Wrappers
  import opened Types

  const MaxHistoryItems := 100

  /**
   * The durable slot under the history key: nothing (or an empty blob),
   * something that does not parse to an array, or an array of products.
   */
  datatype Slot = Missing | Malformed | Arr(items: seq<Product>)

  /** Timestamps never increase from front to back. */
  ghost predicate NewestFirst(s: seq<Product>) {
    forall i, j :: 0 <= i < j < |s| ==> s[i].timestamp >= s[j].timestamp
  }

  /** No two entries share a code. */
  ghost predicate UniqueCodes(s: seq<Product>) {
    forall i, j :: 0 <= i < j < |s| ==> s[i].code != s[j].code
  }

  /** What saving keeps true of the stored array: unique codes and at most `MaxHistoryItems` entries. */
  ghost predicate HistoryInvariant(slot: Slot) {
    slot.Arr? ==> UniqueCodes(slot.items) && |slot.items| <= MaxHistoryItems
  }

  /**
   * Inserts `x` before the first entry that is not newer than it, so that
   * `x` precedes the entries of equal timestamp that were behind it.
   */
  function InsertByTime(x: Product, s: seq<Product>): (r: seq<Product>)
    ensures |r| == |s| + 1
  {
    if s == [] then [x]
    else if x.timestamp >= s[0].timestamp then [x] + s
    else [s[0]] + InsertByTime(x, s[1..])
  }

  /** Inserting adds exactly `x`. */
  lemma {:induction false} InsertIsPermutation(x: Product, s: seq<Product>)
    ensures multiset(InsertByTime(x, s)) == multiset(s) + multiset{x}
  {
    if s != [] && x.timestamp < s[0].timestamp {
      var rest := InsertByTime(x, s[1..]);
      InsertIsPermutation(x, s[1..]);
      assert multiset([s[0]] + rest) == multiset([s[0]]) + multiset(rest);
      assert s == [s[0]] + s[1..];
      assert multiset(s) == multiset([s[0]]) + multiset(s[1..]);
    } else if s != [] {
      assert multiset([x] + s) == multiset([x]) + multiset(s);
    }
  }

  /** Putting an entry no older than any other in front of a newest-first list keeps it newest first. */
  lemma ConsKeepsOrder(x: Product, rest: seq<Product>)
    requires NewestFirst(rest)
    requires forall j :: 0 <= j < |rest| ==> rest[j].timestamp <= x.timestamp
    ensures NewestFirst([x] + rest)
  {
    var r := [x] + rest;
    forall a, b | 0 <= a < b < |r| ensures r[a].timestamp >= r[b].timestamp {
      assert r[b] == rest[b - 1];
      if a > 0 {
        assert r[a] == rest[a - 1];
      }
    }
  }

  /** Inserting an entry within a timestamp bound into a list within it stays within it. */
  lemma {:induction false} InsertBounded(x: Product, s: seq<Product>, t: int)
    requires x.timestamp <= t
    requires forall j :: 0 <= j < |s| ==> s[j].timestamp <= t
    ensures forall j :: 0 <= j < |InsertByTime(x, s)| ==> InsertByTime(x, s)[j].timestamp <= t
  {
    var r := InsertByTime(x, s);
    if s != [] && x.timestamp < s[0].timestamp {
      var rest := InsertByTime(x, s[1..]);
      InsertBounded(x, s[1..], t);
      forall j | 0 <= j < |r| ensures r[j].timestamp <= t {
        if j > 0 {
          assert r[j] == rest[j - 1];
        }
      }
    } else {
      forall j | 0 <= j < |r| ensures r[j].timestamp <= t {
        if j > 0 {
          assert r[j] == s[j - 1];
        }
      }
    }
  }

  lemma {:induction false} InsertKeepsOrder(x: Product, s: seq<Product>)
    requires NewestFirst(s)
    ensures NewestFirst(InsertByTime(x, s))
  {
    if s == [] {
      assert InsertByTime(x, s) == [x];
    } else if x.timestamp < s[0].timestamp {
      var tail := s[1..];
      assert NewestFirst(tail);
      InsertKeepsOrder(x, tail);
      assert forall j :: 0 <= j < |tail| ==> tail[j] == s[j + 1];
      InsertBounded(x, tail, s[0].timestamp);
      ConsKeepsOrder(s[0], InsertByTime(x, tail));
    } else {
      assert forall j :: 0 <= j < |s| ==> s[j].timestamp <= s[0].timestamp;
      ConsKeepsOrder(x, s);
    }
  }

  /**
   * `history.sort((a, b) => b.timestamp - a.timestamp)`: a stable sort,
   * newest first. The result is a permutation of the input in
   * non-increasing timestamp order (`SortIsOrdered`); `SortIsStable` adds
   * that entries of equal timestamp keep their relative order.
   */
  function SortNewestFirst(s: seq<Product>): (r: seq<Product>)
    ensures |r| == |s|
  {
    if s == [] then [] else InsertByTime(s[0], SortNewestFirst(s[1..]))
  }

  /** The sort neither adds nor loses entries. */
  lemma {:induction false} SortIsPermutation(s: seq<Product>)
    ensures multiset(SortNewestFirst(s)) == multiset(s)
  {
    if s != [] {
      SortIsPermutation(s[1..]);
      InsertIsPermutation(s[0], SortNewestFirst(s[1..]));
      assert s == [s[0]] + s[1..];
    }
  }

  /** The sort puts the list in non-increasing timestamp order. */
  lemma {:induction false} SortIsOrdered(s: seq<Product>)
    ensures NewestFirst(SortNewestFirst(s))
  {
    if s != [] {
      SortIsOrdered(s[1..]);
      InsertKeepsOrder(s[0], SortNewestFirst(s[1..]));
    }
  }

  /** The entries of `s` with timestamp `t`, in order. */
  function WithTimestamp(s: seq<Product>, t: int): seq<Product>
  {
    if s == [] then []
    else (if s[0].timestamp == t then [s[0]] else []) + WithTimestamp(s[1..], t)
  }

  lemma {:induction false} InsertIsStable(x: Product, s: seq<Product>, t: int)
    ensures WithTimestamp(InsertByTime(x, s), t) == (if x.timestamp == t then [x] else []) + WithTimestamp(s, t)
  {
    if s == [] {
      assert [x][1..] == [];
    } else if x.timestamp >= s[0].timestamp {
      assert ([x] + s)[0] == x;
      assert ([x] + s)[1..] == s;
    } else {
      var rest := InsertByTime(x, s[1..]);
      var w := WithTimestamp(s[1..], t);
      InsertIsStable(x, s[1..], t);
      assert InsertByTime(x, s) == [s[0]] + rest;
      assert ([s[0]] + rest)[0] == s[0];
      assert ([s[0]] + rest)[1..] == rest;
      if s[0].timestamp == t {
        assert WithTimestamp(rest, t) == w;
        assert WithTimestamp(InsertByTime(x, s), t) == [s[0]] + w;
        assert WithTimestamp(s, t) == [s[0]] + w;
      } else {
        assert WithTimestamp(InsertByTime(x, s), t) == WithTimestamp(rest, t);
        assert WithTimestamp(s, t) == w;
      }
    }
  }

  /** The sort is stable: for each timestamp, the entries carrying it appear in their original order. */
  lemma {:induction false} SortIsStable(s: seq<Product>, t: int)
    ensures WithTimestamp(SortNewestFirst(s), t) == WithTimestamp(s, t)
  {
    if s != [] {
      SortIsStable(s[1..], t);
      InsertIsStable(s[0], SortNewestFirst(s[1..]), t);
    }
  }

  /** Sorting a list that is already newest first leaves it as it is. */
  lemma {:induction false} SortOfSorted(s: seq<Product>)
    requires NewestFirst(s)
    ensures SortNewestFirst(s) == s
  {
    if s != [] {
      assert NewestFirst(s[1..]);
      SortOfSorted(s[1..]);
      assert [s[0]] + s[1..] == s;
    }
  }

  lemma {:induction false} InsertKeepsUnique(x: Product, s: seq<Product>)
    requires UniqueCodes(s)
    requires forall y :: y in s ==> y.code != x.code
    ensures UniqueCodes(InsertByTime(x, s))
  {
    if s != [] && x.timestamp < s[0].timestamp {
      var rest := InsertByTime(x, s[1..]);
      InsertIsPermutation(x, s[1..]);
      InsertKeepsUnique(x, s[1..]);
      forall y | y in rest ensures y.code != s[0].code {
        assert y in multiset(rest);
        assert y == x || y in s[1..];
      }
    }
  }

  /** Sorting keeps codes unique. */
  lemma {:induction false} SortKeepsUnique(s: seq<Product>)
    requires UniqueCodes(s)
    ensures UniqueCodes(SortNewestFirst(s))
  {
    if s != [] {
      assert UniqueCodes(s[1..]);
      SortKeepsUnique(s[1..]);
      var r := SortNewestFirst(s[1..]);
      SortIsPermutation(s[1..]);
      forall y | y in r ensures y.code != s[0].code {
        assert y in multiset(r);
      }
      InsertKeepsUnique(s[0], r);
    }
  }

  /**
   * getHistory: the stored array sorted newest first; an empty list when the
   * slot is missing or does not hold an array. Loading never fails.
   */
  function GetHistory(slot: Slot): (h: seq<Product>)
    ensures !slot.Arr? ==> h == []
    ensures slot.Arr? ==> |h| == |slot.items|
  {
    match slot
    case Arr(items) => SortNewestFirst(items)
    case _ => []
  }

  /** A loaded history holds exactly the stored entries. */
  lemma LoadIsPermutation(slot: Slot)
    ensures slot.Arr? ==> multiset(GetHistory(slot)) == multiset(slot.items)
  {
    if slot.Arr? {
      SortIsPermutation(slot.items);
    }
  }

  /** A loaded history is newest first. */
  lemma LoadIsNewestFirst(slot: Slot)
    ensures NewestFirst(GetHistory(slot))
  {
    if slot.Arr? {
      SortIsOrdered(slot.items);
    }
  }

  /** Loading is stable: entries of equal timestamp come back in stored order. */
  lemma LoadIsStable(items: seq<Product>, t: int)
    ensures WithTimestamp(GetHistory(Arr(items)), t) == WithTimestamp(items, t)
  {
    SortIsStable(items, t);
  }

  /** Writing back a loaded history and loading again gives the same list. */
  lemma LoadIdempotent(slot: Slot)
    ensures GetHistory(Arr(GetHistory(slot))) == GetHistory(slot)
  {
    LoadIsNewestFirst(slot);
    SortOfSorted(GetHistory(slot));
  }

  /** Loading keeps the invariant of the stored array. */
  lemma LoadKeepsInvariant(slot: Slot)
    ensures HistoryInvariant(slot) ==> UniqueCodes(GetHistory(slot)) && |GetHistory(slot)| <= MaxHistoryItems
  {
    if slot.Arr? && HistoryInvariant(slot) {
      SortKeepsUnique(slot.items);
    }
  }

  /** `findIndex` on the code: the first index holding `code`, or -1. */
  function FindCode(h: seq<Product>, code: Option<string>): (i: int)
    ensures -1 <= i < |h|
    ensures i >= 0 ==> h[i].code == code
    ensures i >= 0 ==> forall j :: 0 <= j < i ==> h[j].code != code
    ensures i == -1 <==> forall j :: 0 <= j < |h| ==> h[j].code != code
  {
    if h == [] then -1
    else if h[0].code == code then 0
    else
      var i := FindCode(h[1..], code);
      if i == -1 then -1 else i + 1
  }

  /**
   * The in-memory step of saveToHistory on the loaded list `h`: an entry
   * with the product's code is overwritten in place with the product
   * stamped `now`; otherwise the stamped product goes in front and, when
   * that makes the list longer than the cap, the last entry is dropped.
   */
  function Upsert(h: seq<Product>, product: Product, now: int): (r: seq<Product>)
    ensures var e := product.(timestamp := now); var i := FindCode(h, product.code);
            && (i >= 0 ==> |r| == |h| && r[i] == e && forall j :: 0 <= j < |h| && j != i ==> r[j] == h[j])
            && (i < 0 ==> |r| == (if |h| < MaxHistoryItems then |h| + 1 else |h|))
            && (i < 0 ==> r[0] == e && forall j :: 1 <= j < |r| ==> r[j] == h[j - 1])
  {
    var e := product.(timestamp := now);
    var i := FindCode(h, product.code);
    if i >= 0 then h[i := e]
    else
      var grown := [e] + h;
      if |grown| > MaxHistoryItems then grown[..|grown| - 1] else grown
  }

  /**
   * saveToHistory: load, upsert, write back. The slot always ends up holding
   * an array that contains the saved product stamped `now`, and the
   * invariant of unique codes and bounded length is kept.
   */
  function SaveToHistory(slot: Slot, product: Product, now: int): (r: Slot)
    ensures r.Arr?
    ensures product.(timestamp := now) in r.items
  {
    var h := GetHistory(slot);
    var r := Upsert(h, product, now);
    assert product.(timestamp := now) == r[if FindCode(h, product.code) >= 0 then FindCode(h, product.code) else 0];
    Arr(r)
  }

  /** Saving keeps the invariant: codes stay unique and the list stays within the cap. */
  lemma SaveKeepsInvariant(slot: Slot, product: Product, now: int)
    ensures HistoryInvariant(slot) ==> HistoryInvariant(SaveToHistory(slot, product, now))
  {
    var h := GetHistory(slot);
    LoadKeepsInvariant(slot);
    SaveUnfold(slot, product, now);
    UpsertKeepsUnique(h, product, now);
  }

  lemma UpsertKeepsUnique(h: seq<Product>, product: Product, now: int)
    ensures UniqueCodes(h) ==> UniqueCodes(Upsert(h, product, now))
  {
    var r := Upsert(h, product, now);
    var i := FindCode(h, product.code);
    if i < 0 && UniqueCodes(h) {
      forall a, b | 0 <= a < b < |r| ensures r[a].code != r[b].code {
        if a > 0 {
          assert r[a] == h[a - 1] && r[b] == h[b - 1];
        } else {
          assert r[b] == h[b - 1];
        }
      }
    }
  }

  /**
   * Saving a code already present changes one entry: the loaded list keeps
   * its length and only the entry at that code's index is replaced.
   */
  lemma SaveExisting(slot: Slot, product: Product, now: int)
    requires FindCode(GetHistory(slot), product.code) >= 0
    ensures var h := GetHistory(slot); var r := SaveToHistory(slot, product, now).items; var i := FindCode(h, product.code);
            && |r| == |h|
            && r[i] == product.(timestamp := now)
            && forall j :: 0 <= j < |h| && j != i ==> r[j] == h[j]
  {
  }

  /** The slot written by a save holds the upsert of the loaded list. */
  lemma SaveUnfold(slot: Slot, product: Product, now: int)
    ensures SaveToHistory(slot, product, now).items == Upsert(GetHistory(slot), product, now)
  {
  }

  lemma UpsertNewIsPrefix(h: seq<Product>, product: Product, now: int)
    requires FindCode(h, product.code) == -1
    ensures var r := Upsert(h, product, now);
            r == ([product.(timestamp := now)] + h)[..|r|]
  {
    var e := product.(timestamp := now);
    var r := Upsert(h, product, now);
    forall j | 0 <= j < |r| ensures r[j] == ([e] + h)[j] {
      if j > 0 {
        assert r[j] == h[j - 1];
      }
    }
  }

  /** The last entry of a newest-first list is the oldest. */
  lemma LastIsOldest(h: seq<Product>)
    requires NewestFirst(h) && |h| > 0
    ensures forall y :: y in h ==> h[|h| - 1].timestamp <= y.timestamp
  {
    forall y | y in h ensures h[|h| - 1].timestamp <= y.timestamp {
      var k :| 0 <= k < |h| && h[k] == y;
    }
  }

  /**
   * Upserting a new code into a newest-first list puts it first; from a
   * list within the cap the new length is one more, up to the cap, and the
   * entry dropped at the cap is the last one, which has the oldest timestamp.
   */
  lemma UpsertNew(h: seq<Product>, product: Product, now: int)
    requires FindCode(h, product.code) == -1
    requires NewestFirst(h)
    ensures var r := Upsert(h, product, now);
            && r[0] == product.(timestamp := now)
            && (|h| <= MaxHistoryItems ==> |r| == if |h| + 1 < MaxHistoryItems then |h| + 1 else MaxHistoryItems)
            && r == ([product.(timestamp := now)] + h)[..|r|]
            && (|r| == |h| ==> forall y :: y in h ==> h[|h| - 1].timestamp <= y.timestamp)
  {
    UpsertNewIsPrefix(h, product, now);
    if |h| > 0 {
      LastIsOldest(h);
    }
  }

  /** `UpsertNew` for the list a save loads from the slot. */
  lemma SaveNew(slot: Slot, product: Product, now: int)
    requires FindCode(GetHistory(slot), product.code) == -1
    ensures var h := GetHistory(slot); var r := SaveToHistory(slot, product, now).items;
            && r[0] == product.(timestamp := now)
            && (|h| <= MaxHistoryItems ==> |r| == if |h| + 1 < MaxHistoryItems then |h| + 1 else MaxHistoryItems)
            && r == ([product.(timestamp := now)] + h)[..|r|]
            && (|r| == |h| ==> forall y :: y in h ==> h[|h| - 1].timestamp <= y.timestamp)
  {
    SaveUnfold(slot, product, now);
    LoadIsNewestFirst(slot);
    UpsertNew(GetHistory(slot), product, now);
  }

  /**
   * When `now` is later than every loaded timestamp, the saved product is
   * first on the next load, whether its code was new or already present.
   */
  lemma SavedFirstOnNextLoad(slot: Slot, product: Product, now: int)
    requires forall y :: y in GetHistory(slot) ==> y.timestamp < now
    ensures GetHistory(SaveToHistory(slot, product, now))[0] == product.(timestamp := now)
  {
    var h := GetHistory(slot);
    var e := product.(timestamp := now);
    SaveUnfold(slot, product, now);
    UpsertElements(h, product, now);
    UniqueNewestComesFirst(Upsert(h, product, now), e);
  }

  /** Every entry after an upsert is the stamped product or an entry that was there before. */
  lemma UpsertElements(h: seq<Product>, product: Product, now: int)
    ensures var e := product.(timestamp := now);
            e in Upsert(h, product, now) &&
            forall y :: y in Upsert(h, product, now) ==> y == e || y in h
  {
    var e := product.(timestamp := now);
    var r := Upsert(h, product, now);
    var i := FindCode(h, product.code);
    forall y | y in r ensures y == e || y in h {
      var k :| 0 <= k < |r| && r[k] == y;
      if i >= 0 && k != i {
        assert r[k] == h[k];
      } else if i < 0 && k > 0 {
        assert r[k] == h[k - 1];
      }
    }
  }

  /** An entry strictly newer than every other entry is first after sorting. */
  lemma UniqueNewestComesFirst(r: seq<Product>, e: Product)
    requires e in r
    requires forall y :: y in r && y != e ==> y.timestamp < e.timestamp
    ensures |SortNewestFirst(r)| > 0 && SortNewestFirst(r)[0] == e
  {
    var loaded := SortNewestFirst(r);
    SortIsOrdered(r);
    SortIsPermutation(r);
    assert e in multiset(loaded);
    var k :| 0 <= k < |loaded| && loaded[k] == e;
    assert loaded[0].timestamp >= e.timestamp;
    assert loaded[0] in multiset(r);
  }

  /** A new code stamped no earlier than any loaded entry is first on the next load even on a tie. */
  lemma SavedNewFirstOnTie(slot: Slot, product: Product, now: int)
    requires FindCode(GetHistory(slot), product.code) == -1
    requires forall y :: y in GetHistory(slot) ==> y.timestamp <= now
    ensures GetHistory(SaveToHistory(slot, product, now))[0] == product.(timestamp := now)
  {
    var h := GetHistory(slot);
    var e := product.(timestamp := now);
    var r := SaveToHistory(slot, product, now).items;
    SaveNew(slot, product, now);
    LoadIsNewestFirst(slot);
    assert NewestFirst(r) by {
      forall a, b | 0 <= a < b < |r| ensures r[a].timestamp >= r[b].timestamp {
        assert r[b] == h[b - 1];
        if a > 0 {
          assert r[a] == h[a - 1];
        }
      }
    }
    SortOfSorted(r);
  }

  /**
   * On a timestamp tie an existing code does not move: in the two-entry
   * history `[b, a]`, re-saving `a` at the time `b` was saved leaves `b`
   * first, because the stable sort keeps `b` ahead of the entry overwritten
   * in place.
   */
  lemma ReSaveOnTieStaysBehind(a: Product, b: Product)
    requires a.code != b.code
    requires a.timestamp < b.timestamp
    ensures var slot := Arr([b, a]);
            GetHistory(SaveToHistory(slot, a, b.timestamp)) == [b, a.(timestamp := b.timestamp)]
  {
    var a' := a.(timestamp := b.timestamp);
    SortPair(b, a);
    assert [b, a][1..] == [a];
    assert FindCode([b, a], a.code) == 1;
    SaveUnfold(Arr([b, a]), a, b.timestamp);
    assert SaveToHistory(Arr([b, a]), a, b.timestamp).items == [b, a'];
    SortPair(b, a');
  }

  /** Sorting two entries puts the newer first and keeps them in place on a tie. */
  lemma SortPair(x: Product, y: Product)
    ensures SortNewestFirst([x, y]) == if x.timestamp >= y.timestamp then [x, y] else [y, x]
  {
    assert [x, y][1..] == [y];
    assert [y][1..] == [];
    assert SortNewestFirst([y]) == [y];
    if x.timestamp < y.timestamp {
      assert InsertByTime(x, [y]) == [y] + InsertByTime(x, []);
    }
  }

  /**
   * On a timestamp tie a re-saved entry that was already ahead stays ahead:
   * in the two-entry history `[a, b]`, re-saving `a` at `b`'s time loads
   * with `a` first.
   */
  lemma ReSaveOnTieKeepsLead(a: Product, b: Product)
    requires a.code != b.code
    requires a.timestamp >= b.timestamp
    ensures var slot := Arr([a, b]);
            GetHistory(SaveToHistory(slot, a, b.timestamp)) == [a.(timestamp := b.timestamp), b]
  {
    var a' := a.(timestamp := b.timestamp);
    SortPair(a, b);
    assert FindCode([a, b], a.code) == 0;
    SaveUnfold(Arr([a, b]), a, b.timestamp);
    assert SaveToHistory(Arr([a, b]), a, b.timestamp).items == [a', b];
    SortPair(a', b);
  }

  /** Saving A, then B, then A again into an empty history and loading gives [A, B]. */
  lemma SaveABA(a1: Product, b: Product, a2: Product, t1: int, t2: int, t3: int)
    requires a1.code == a2.code && a1.code != b.code
    requires t1 < t2 < t3
    ensures var s := SaveToHistory(SaveToHistory(SaveToHistory(Missing, a1, t1), b, t2), a2, t3);
            GetHistory(s) == [a2.(timestamp := t3), b.(timestamp := t2)]
  {
    var e1, e2, e3 := a1.(timestamp := t1), b.(timestamp := t2), a2.(timestamp := t3);
    var s1 := SaveToHistory(Missing, a1, t1);
    SaveUnfold(Missing, a1, t1);
    assert s1.items == [e1];
    assert GetHistory(s1) == [e1];
    var s2 := SaveToHistory(s1, b, t2);
    SaveUnfold(s1, b, t2);
    assert FindCode([e1], b.code) == -1;
    assert s2.items == [e2, e1];
    SortPair(e2, e1);
    var s3 := SaveToHistory(s2, a2, t3);
    SaveUnfold(s2, a2, t3);
    assert [e2, e1][1..] == [e1];
    assert FindCode([e2, e1], a2.code) == 1;
    assert s3.items == [e2, e3];
    SortPair(e2, e3);
  }

  /**
   * Two overlapping saves into an empty history that both load before either
   * writes: the later write is computed from the empty slot, so it drops the
   * first product, while running the saves one after the other keeps both.
   */
  lemma InterleavedSavesLoseUpdate(p1: Product, p2: Product, t1: int, t2: int)
    requires p1.code != p2.code
    ensures var e1, e2 := p1.(timestamp := t1), p2.(timestamp := t2);
            SaveToHistory(Missing, p2, t2).items == [e2] && e1 !in [e2] &&
            e1 in SaveToHistory(SaveToHistory(Missing, p1, t1), p2, t2).items
  {
    var e1, e2 := p1.(timestamp := t1), p2.(timestamp := t2);
    SaveUnfold(Missing, p2, t2);
    var s1 := SaveToHistory(Missing, p1, t1);
    SaveUnfold(Missing, p1, t1);
    assert s1.items == [e1];
    assert GetHistory(s1) == [e1];
    SaveUnfold(s1, p2, t2);
    assert FindCode([e1], p2.code) == -1;
    assert SaveToHistory(s1, p2, t2).items == [e2, e1];
  }

  /** The entries of `s` whose code is not `code`, in order (`Array.prototype.filter`). */
  function WithoutCode(s: seq<Product>, code: Option<string>): (r: seq<Product>)
    ensures |r| <= |s|
    ensures forall j :: 0 <= j < |r| ==> r[j].code != code
  {
    if s == [] then []
    else (if s[0].code == code then [] else [s[0]]) + WithoutCode(s[1..], code)
  }

  /** The filter keeps exactly the entries with another code. */
  lemma {:induction false} WithoutCodeMembers(s: seq<Product>, code: Option<string>)
    ensures forall y :: y in WithoutCode(s, code) <==> y in s && y.code != code
  {
    if s != [] {
      WithoutCodeMembers(s[1..], code);
      assert s == [s[0]] + s[1..];
    }
  }

  /** Filtering out a code that no entry has changes nothing. */
  lemma {:induction false} WithoutCodeAbsent(s: seq<Product>, code: Option<string>)
    requires forall j :: 0 <= j < |s| ==> s[j].code != code
    ensures WithoutCode(s, code) == s
  {
    if s != [] {
      WithoutCodeAbsent(s[1..], code);
      assert s == [s[0]] + s[1..];
    }
  }

  /** Filtering distributes over concatenation, so the kept entries stay in order. */
  lemma {:induction false} WithoutCodeAppend(s: seq<Product>, t: seq<Product>, code: Option<string>)
    ensures WithoutCode(s + t, code) == WithoutCode(s, code) + WithoutCode(t, code)
  {
    if s == [] {
      assert s + t == t;
    } else {
      assert (s + t)[0] == s[0];
      assert (s + t)[1..] == s[1..] + t;
      WithoutCodeAppend(s[1..], t, code);
    }
  }

  /** Filtering keeps every entry within a timestamp bound that held for the input. */
  lemma WithoutCodeBounded(s: seq<Product>, code: Option<string>, t: int)
    requires forall j :: 0 <= j < |s| ==> s[j].timestamp <= t
    ensures forall j :: 0 <= j < |WithoutCode(s, code)| ==> WithoutCode(s, code)[j].timestamp <= t
  {
    var r := WithoutCode(s, code);
    WithoutCodeMembers(s, code);
    forall j | 0 <= j < |r| ensures r[j].timestamp <= t {
      assert r[j] in s;
      var k :| 0 <= k < |s| && s[k] == r[j];
    }
  }

  /** Filtering a newest-first list leaves it newest first. */
  lemma {:induction false} WithoutCodeKeepsOrder(s: seq<Product>, code: Option<string>)
    requires NewestFirst(s)
    ensures NewestFirst(WithoutCode(s, code))
  {
    if s != [] {
      var tail := s[1..];
      assert NewestFirst(tail);
      WithoutCodeKeepsOrder(tail, code);
      if s[0].code != code {
        assert forall j :: 0 <= j < |tail| ==> tail[j] == s[j + 1];
        WithoutCodeBounded(tail, code, s[0].timestamp);
        ConsKeepsOrder(s[0], WithoutCode(tail, code));
      }
    }
  }

  lemma {:induction false} WithoutCodeKeepsUnique(s: seq<Product>, code: Option<string>)
    ensures UniqueCodes(s) ==> UniqueCodes(WithoutCode(s, code))
  {
    if s != [] && UniqueCodes(s) {
      WithoutCodeKeepsUnique(s[1..], code);
      var rest := WithoutCode(s[1..], code);
      WithoutCodeMembers(s[1..], code);
      forall y | y in rest ensures y.code != s[0].code {
        var k :| 0 <= k < |s[1..]| && s[1..][k] == y;
        assert y == s[k + 1];
      }
    }
  }

  /**
   * removeFromHistory: writes back the loaded list without any entry of
   * that code, still newest first and keeping the invariant.
   */
  function RemoveFromHistory(slot: Slot, code: string): (r: Slot)
    ensures r.Arr?
    ensures forall y :: y in r.items <==> y in GetHistory(slot) && y.code != Some(code)
  {
    WithoutCodeMembers(GetHistory(slot), Some(code));
    Arr(WithoutCode(GetHistory(slot), Some(code)))
  }

  /** A removal writes back a newest-first list and keeps the invariant. */
  lemma RemoveKeepsInvariant(slot: Slot, code: string)
    ensures NewestFirst(RemoveFromHistory(slot, code).items)
    ensures HistoryInvariant(slot) ==> HistoryInvariant(RemoveFromHistory(slot, code))
  {
    var h := GetHistory(slot);
    LoadIsNewestFirst(slot);
    WithoutCodeKeepsOrder(h, Some(code));
    LoadKeepsInvariant(slot);
    WithoutCodeKeepsUnique(h, Some(code));
  }

  /** After a removal the next load is the previous load with that code filtered out. */
  lemma RemoveThenLoad(slot: Slot, code: string)
    ensures GetHistory(RemoveFromHistory(slot, code)) == WithoutCode(GetHistory(slot), Some(code))
  {
    RemoveKeepsInvariant(slot, code);
    SortOfSorted(RemoveFromHistory(slot, code).items);
  }

  /** Removing a code that is not present leaves the loaded history unchanged. */
  lemma RemoveAbsentIsNoOp(slot: Slot, code: string)
    requires forall y :: y in GetHistory(slot) ==> y.code != Some(code)
    ensures GetHistory(RemoveFromHistory(slot, code)) == GetHistory(slot)
  {
    var h := GetHistory(slot);
    RemoveThenLoad(slot, code);
    forall j | 0 <= j < |h| ensures h[j].code != Some(code) {
      assert h[j] in h;
    }
    WithoutCodeAbsent(h, Some(code));
  }

  /** clearHistory: removes the slot, so the next load is empty. */
  function ClearHistory(): (r: Slot)
    ensures GetHistory(r) == []
    ensures HistoryInvariant(r)
  {
    Missing
  }
}
