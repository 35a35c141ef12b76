/** The list patches the forum applies to its topic list and to each
    per-topic comment list. Items are identified by a string id that `key`
    extracts (the documents' `_id`), and ids are compared with `===`. */
module IdLists {

  import opened Wrappers

  /** `s.map(x => key(x) === id ? v : x)`: every item whose id is `id` is
      replaced by `v`; every other item, the order and the length are kept. */
  function ReplaceById<T>(s: seq<T>, key: T -> string, id: string, v: T): (r: seq<T>)
    ensures |r| == |s|
    ensures forall i :: 0 <= i < |s| && key(s[i]) == id ==> r[i] == v
    ensures forall i :: 0 <= i < |s| && key(s[i]) != id ==> r[i] == s[i]
  {
    if s == [] then []
    else [if key(s[0]) == id then v else s[0]] + ReplaceById(s[1..], key, id, v)
  }

  /** `s.filter(x => key(x) !== id)`: no item with id `id` is left, and every
      item with another id is kept. */
  function RemoveById<T>(s: seq<T>, key: T -> string, id: string): (r: seq<T>)
    ensures |r| <= |s|
    ensures forall i :: 0 <= i < |r| ==> key(r[i]) != id
    ensures forall x :: x in r ==> x in s
    ensures forall x :: x in s && key(x) != id ==> x in r
  {
    if s == [] then []
    else if key(s[0]) == id then RemoveById(s[1..], key, id)
    else [s[0]] + RemoveById(s[1..], key, id)
  }

  /** `s.findIndex(x => key(x) === id)`, with `|s|` standing for "not found":
      the position of the first item whose id is `id`. */
  function IndexOf<T>(s: seq<T>, key: T -> string, id: string): (k: nat)
    ensures k <= |s|
    ensures k < |s| ==> key(s[k]) == id
    ensures forall j :: 0 <= j < k ==> key(s[j]) != id
  {
    if s == [] then 0
    else if key(s[0]) == id then 0
    else 1 + IndexOf(s[1..], key, id)
  }

  /** `s.find(x => key(x) === id)`: the first item with id `id`, if any. */
  function FindById<T>(s: seq<T>, key: T -> string, id: string): (r: Option<T>)
    ensures r.Some? <==> exists i :: 0 <= i < |s| && key(s[i]) == id
    ensures r.Some? ==> r.value in s && key(r.value) == id
    ensures r.Some? <==> IndexOf(s, key, id) < |s|
    ensures r.Some? ==> r.value == s[IndexOf(s, key, id)]
  {
    var k := IndexOf(s, key, id);
    if k < |s| then Some(s[k]) else None
  }

  /** No two items of `s` share an id. */
  predicate UniqueIds<T>(s: seq<T>, key: T -> string) {
    forall i, j :: 0 <= i < j < |s| ==> key(s[i]) != key(s[j])
  }

  /** `r` is `s` with some items left out, the rest in their original order. */
  ghost predicate IsSubsequence<T>(r: seq<T>, s: seq<T>)
    decreases |s|
  {
    if s == [] then r == []
    else (r != [] && r[0] == s[0] && IsSubsequence(r[1..], s[1..])) || IsSubsequence(r, s[1..])
  }

  /** Filtering out an id keeps the other items in their relative order. */
  lemma {:induction false} RemoveByIdKeepsOrder<T>(s: seq<T>, key: T -> string, id: string)
    ensures IsSubsequence(RemoveById(s, key, id), s)
  {
    if s != [] {
      RemoveByIdKeepsOrder(s[1..], key, id);
      var r := RemoveById(s, key, id);
      if key(s[0]) != id {
        assert r[1..] == RemoveById(s[1..], key, id);
      }
    }
  }

  /** Filtering out an id keeps every other item as often as it occurred,
      and keeps no item with that id: the result is determined up to order. */
  lemma {:induction false} RemoveByIdCounts<T>(s: seq<T>, key: T -> string, id: string, x: T)
    ensures multiset(RemoveById(s, key, id))[x] == if key(x) == id then 0 else multiset(s)[x]
  {
    if s == [] {
    } else {
      RemoveByIdCounts(s[1..], key, id, x);
      assert s == [s[0]] + s[1..];
      assert multiset(s) == multiset([s[0]]) + multiset(s[1..]);
      if key(s[0]) != id {
        var r := RemoveById(s[1..], key, id);
        assert multiset([s[0]] + r) == multiset([s[0]]) + multiset(r);
      }
    }
  }

  /** Filtering out an id twice is the same as filtering it out once. */
  lemma {:induction false} RemoveByIdIdempotent<T>(s: seq<T>, key: T -> string, id: string)
    ensures RemoveById(RemoveById(s, key, id), key, id) == RemoveById(s, key, id)
  {
    RemoveByIdAbsent(RemoveById(s, key, id), key, id);
  }

  /** Filtering out an id that no item carries leaves the list as it was. */
  lemma {:induction false} RemoveByIdAbsent<T>(s: seq<T>, key: T -> string, id: string)
    requires forall i :: 0 <= i < |s| ==> key(s[i]) != id
    ensures RemoveById(s, key, id) == s
  {
    if s != [] {
      RemoveByIdAbsent(s[1..], key, id);
      assert s == [s[0]] + s[1..];
    }
  }

  /** Replacing with an item that no list item matches leaves the list as it was. */
  lemma ReplaceByIdAbsent<T>(s: seq<T>, key: T -> string, id: string, v: T)
    requires forall i :: 0 <= i < |s| ==> key(s[i]) != id
    ensures ReplaceById(s, key, id, v) == s
  {
  }

  /** A subsequence of a list with unique ids has unique ids. */
  lemma {:induction false} SubsequenceUnique<T>(r: seq<T>, s: seq<T>, key: T -> string)
    requires IsSubsequence(r, s) && UniqueIds(s, key)
    ensures UniqueIds(r, key)
    ensures forall i :: 0 <= i < |r| ==> r[i] in s
    decreases |s|
  {
    if s != [] {
      assert UniqueIds(s[1..], key) by {
        forall i, j | 0 <= i < j < |s| - 1 ensures key(s[1..][i]) != key(s[1..][j]) {
          assert key(s[i + 1]) != key(s[j + 1]);
        }
      }
      if r != [] && r[0] == s[0] && IsSubsequence(r[1..], s[1..]) {
        SubsequenceUnique(r[1..], s[1..], key);
        forall j | 0 < j < |r| ensures key(r[0]) != key(r[j]) {
          assert r[1..][j - 1] in s[1..];
          var k :| 0 <= k < |s| - 1 && s[1..][k] == r[j];
          assert key(s[0]) != key(s[k + 1]);
        }
        forall i | 0 <= i < |r| ensures r[i] in s {
          if i > 0 { assert r[1..][i - 1] in s[1..]; }
        }
      } else {
        SubsequenceUnique(r, s[1..], key);
      }
    }
  }

  /** Deleting by id keeps the ids unique. */
  lemma RemoveByIdUnique<T>(s: seq<T>, key: T -> string, id: string)
    requires UniqueIds(s, key)
    ensures UniqueIds(RemoveById(s, key, id), key)
  {
    RemoveByIdKeepsOrder(s, key, id);
    SubsequenceUnique(RemoveById(s, key, id), s, key);
  }

  /** Appending keeps the ids unique exactly when the new item's id is new. */
  lemma AppendUnique<T>(s: seq<T>, key: T -> string, v: T)
    requires UniqueIds(s, key)
    ensures UniqueIds(s + [v], key) <==> forall i :: 0 <= i < |s| ==> key(s[i]) != key(v)
  {
    var t := s + [v];
    if forall i :: 0 <= i < |s| ==> key(s[i]) != key(v) {
      forall i, j | 0 <= i < j < |t| ensures key(t[i]) != key(t[j]) {
        if j == |s| { assert key(s[i]) != key(v); } else { assert key(s[i]) != key(s[j]); }
      }
    } else {
      var i :| 0 <= i < |s| && key(s[i]) == key(v);
      assert t[i] == s[i] && t[|s|] == v;
    }
  }

  /** Replacing by id with an item that keeps the target id keeps the ids unique. */
  lemma ReplaceByIdUnique<T>(s: seq<T>, key: T -> string, id: string, v: T)
    ensures UniqueIds(s, key) && key(v) == id ==> UniqueIds(ReplaceById(s, key, id, v), key)
  {
    if UniqueIds(s, key) && key(v) == id {
      var r := ReplaceById(s, key, id, v);
      forall i, j | 0 <= i < j < |r| ensures key(r[i]) != key(r[j]) {
        assert key(s[i]) != key(s[j]);
      }
    }
  }

  /** After an update whose new item keeps the target id, the list still has
      unique ids, and the one item with that id, at the same place, is the new
      item. */
  lemma ReplaceByIdLeavesOne<T>(s: seq<T>, key: T -> string, id: string, v: T)
    requires UniqueIds(s, key) && key(v) == id
    requires IndexOf(s, key, id) < |s|
    ensures var r := ReplaceById(s, key, id, v);
      && UniqueIds(r, key)
      && IndexOf(r, key, id) == IndexOf(s, key, id)
      && r[IndexOf(s, key, id)] == v
      && FindById(r, key, id) == Some(v)
      && forall i :: 0 <= i < |r| && key(r[i]) == id ==> i == IndexOf(s, key, id)
  {
    var r := ReplaceById(s, key, id, v);
    var k := IndexOf(s, key, id);
    forall i, j | 0 <= i < j < |r| ensures key(r[i]) != key(r[j]) {
      assert key(s[i]) != key(s[j]);
    }
    IndexOfUnique(r, key, id, k);
  }

  /** In a list with unique ids, an item's position is the index of its id. */
  lemma IndexOfUnique<T>(s: seq<T>, key: T -> string, id: string, k: nat)
    requires UniqueIds(s, key) && k < |s| && key(s[k]) == id
    ensures IndexOf(s, key, id) == k
    ensures forall i :: 0 <= i < |s| && key(s[i]) == id ==> i == k
  {
    var j := IndexOf(s, key, id);
    assert j <= k;
  }

  /** `find` looks at the head first, then at the tail. */
  lemma FindCons<T>(s: seq<T>, key: T -> string, k: string)
    requires s != []
    ensures FindById(s, key, k) == if key(s[0]) == k then Some(s[0]) else FindById(s[1..], key, k)
  {
    if key(s[0]) != k {
      var j := IndexOf(s[1..], key, k);
      assert IndexOf(s, key, k) == 1 + j;
      if j < |s| - 1 { assert s[1 + j] == s[1..][j]; }
    }
  }

  /** Filtering out one id does not change which item another id finds. */
  lemma {:induction false} FindAfterRemove<T>(s: seq<T>, key: T -> string, id: string, other: string)
    requires other != id
    ensures FindById(RemoveById(s, key, id), key, other) == FindById(s, key, other)
  {
    if s != [] {
      FindCons(s, key, other);
      var rest := RemoveById(s[1..], key, id);
      if key(s[0]) == id {
        FindAfterRemove(s[1..], key, id, other);
      } else {
        var r := [s[0]] + rest;
        assert r[1..] == rest;
        FindCons(r, key, other);
        if key(s[0]) != other {
          FindAfterRemove(s[1..], key, id, other);
        }
      }
    }
  }

  /** After replacing id `id` with an item that keeps that id, `id` finds the
      new item (when it was present) and every other id finds what it found
      before. */
  lemma {:induction false} FindAfterReplace<T>(s: seq<T>, key: T -> string, id: string, v: T, k: string)
    requires key(v) == id
    ensures FindById(ReplaceById(s, key, id, v), key, k) ==
      if k == id && FindById(s, key, id).Some? then Some(v) else FindById(s, key, k)
  {
    if s != [] {
      var r := ReplaceById(s, key, id, v);
      assert r[1..] == ReplaceById(s[1..], key, id, v);
      FindCons(s, key, k);
      FindCons(r, key, k);
      FindCons(s, key, id);
      if key(s[0]) != k {
        FindAfterReplace(s[1..], key, id, v, k);
      }
    }
  }
}
