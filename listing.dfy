/**
 * The snapshot `list_downloads` returns: the records, newest first by their
 * "created_at" string, as Python's stable `sorted(..., reverse=True)` orders
 * them (records with equal timestamps keep the dictionary's order).
 */
module Listing {
  import opened Text
  import opened Jobs

  /** One entry of the listing: a job id and its record. */
  type Item = (string, Job)

  /** Each entry is no newer than any entry before it. */
  predicate NewestFirst(items: seq<Item>) {
    forall i, j :: 0 <= i < j < |items| ==> LexLe(items[j].1.createdAt, items[i].1.createdAt)
  }

  /** The entries whose timestamp is `at`, in their order in `items`. */
  function CreatedAt(items: seq<Item>, at: string): seq<Item> {
    if items == [] then []
    else (if items[0].1.createdAt == at then [items[0]] else []) + CreatedAt(items[1..], at)
  }

  /** Puts `x` before the first entry of `s` that is not newer than it. */
  function Insert(x: Item, s: seq<Item>): (r: seq<Item>)
    ensures multiset(r) == multiset([x] + s)
  {
    if s == [] || LexLe(s[0].1.createdAt, x.1.createdAt) then [x] + s
    else
      assert s == [s[0]] + s[1..];
      [s[0]] + Insert(x, s[1..])
  }

  /** `sorted(items, key=created_at, reverse=True)`. */
  function SortNewestFirst(items: seq<Item>): (r: seq<Item>)
    ensures multiset(r) == multiset(items)
    ensures |r| == |items|
  {
    if items == [] then []
    else
      assert items == [items[0]] + items[1..];
      Insert(items[0], SortNewestFirst(items[1..]))
  }

  /** An entry no newer than nothing after it can head a newest-first sequence. */
  lemma PrependNewestFirst(y: Item, t: seq<Item>)
    requires NewestFirst(t)
    requires forall z :: z in t ==> LexLe(z.1.createdAt, y.1.createdAt)
    ensures NewestFirst([y] + t)
  {
    var r := [y] + t;
    forall i, j | 0 <= i < j < |r|
      ensures LexLe(r[j].1.createdAt, r[i].1.createdAt)
    {
      assert r[j] == t[j - 1];
      if i > 0 {
        assert r[i] == t[i - 1];
      } else {
        assert t[j - 1] in t;
      }
    }
  }

  lemma {:induction false} InsertKeepsNewestFirst(x: Item, s: seq<Item>)
    requires NewestFirst(s)
    ensures NewestFirst(Insert(x, s))
  {
    if s == [] || LexLe(s[0].1.createdAt, x.1.createdAt) {
      forall z | z in s
        ensures LexLe(z.1.createdAt, x.1.createdAt)
      {
        var k :| 0 <= k < |s| && s[k] == z;
        if k > 0 {
          LexLeTransitive(z.1.createdAt, s[0].1.createdAt, x.1.createdAt);
        }
      }
      PrependNewestFirst(x, s);
    } else {
      LexLeTotal(s[0].1.createdAt, x.1.createdAt);
      var tail := Insert(x, s[1..]);
      InsertKeepsNewestFirst(x, s[1..]);
      forall z | z in tail
        ensures LexLe(z.1.createdAt, s[0].1.createdAt)
      {
        assert z in multiset([x] + s[1..]);
        assert z in [x] + s[1..];
        if z != x {
          var k :| 0 <= k < |s[1..]| && s[1..][k] == z;
          assert s[k + 1] == z;
        }
      }
      PrependNewestFirst(s[0], tail);
    }
  }

  /** The listing is ordered newest first. */
  lemma {:induction false} SortIsNewestFirst(items: seq<Item>)
    ensures NewestFirst(SortNewestFirst(items))
  {
    if items != [] {
      SortIsNewestFirst(items[1..]);
      InsertKeepsNewestFirst(items[0], SortNewestFirst(items[1..]));
    }
  }

  /** The entry an item contributes to `CreatedAt` of a sequence it heads. */
  function Own(x: Item, at: string): seq<Item> {
    if x.1.createdAt == at then [x] else []
  }

  lemma {:induction false} InsertIsStable(x: Item, s: seq<Item>, at: string)
    ensures CreatedAt(Insert(x, s), at) == Own(x, at) + CreatedAt(s, at)
  {
    var r := Insert(x, s);
    if s == [] || LexLe(s[0].1.createdAt, x.1.createdAt) {
      assert r[0] == x && r[1..] == s;
    } else {
      var tail := Insert(x, s[1..]);
      InsertIsStable(x, s[1..], at);
      assert r[0] == s[0] && r[1..] == tail;
      assert CreatedAt(r, at) == Own(s[0], at) + CreatedAt(tail, at);
      assert CreatedAt(s, at) == Own(s[0], at) + CreatedAt(s[1..], at);
      LexLeReflexive(x.1.createdAt);
      assert Own(s[0], at) == [] || Own(x, at) == [];
    }
  }

  /** Sorting is stable: the entries sharing a timestamp keep their relative order. */
  lemma {:induction false} SortIsStable(items: seq<Item>, at: string)
    ensures CreatedAt(SortNewestFirst(items), at) == CreatedAt(items, at)
  {
    if items != [] {
      SortIsStable(items[1..], at);
      InsertIsStable(items[0], SortNewestFirst(items[1..]), at);
    }
  }
}
