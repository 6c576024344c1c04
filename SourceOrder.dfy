/**
 * The ordering step of an aggregated search: the merged items are sorted by
 * their `source` field. `Array.prototype.sort` is stable, so
 * the model is a stable insertion sort keyed on `source`, and the key order
 * is plain lexicographic order on characters.
 */
module SourceOrder {
  import opened SourceInterface

  /** `a.localeCompare(b) <= 0`, read as lexicographic order. */
  predicate StrLe(a: string, b: string)
    ensures |a| <= |b| && b[..|a|] == a ==> StrLe(a, b)
  {
    a == [] || (b != [] && (a[0] < b[0] || (a[0] == b[0] && StrLe(a[1..], b[1..]))))
  }

  lemma {:induction false} StrLeReflexive(a: string)
    ensures StrLe(a, a)
  {
    if a != [] {
      StrLeReflexive(a[1..]);
    }
  }

  lemma {:induction false} StrLeTotal(a: string, b: string)
    ensures StrLe(a, b) || StrLe(b, a)
  {
    if a != [] && b != [] && a[0] == b[0] {
      StrLeTotal(a[1..], b[1..]);
    }
  }

  lemma {:induction false} StrLeTransitive(a: string, b: string, c: string)
    requires StrLe(a, b) && StrLe(b, c)
    ensures StrLe(a, c)
  {
    if a != [] && b != [] && c != [] && a[0] == b[0] && b[0] == c[0] {
      StrLeTransitive(a[1..], b[1..], c[1..]);
    }
  }

  lemma {:induction false} StrLeAntisymmetric(a: string, b: string)
    requires StrLe(a, b) && StrLe(b, a)
    ensures a == b
  {
    if a != [] && b != [] {
      StrLeAntisymmetric(a[1..], b[1..]);
      assert a == [a[0]] + a[1..] && b == [b[0]] + b[1..];
    }
  }

  /** Every item's source is at most every later item's source. */
  ghost predicate SortedBySource(s: seq<Item>) {
    forall i, j :: 0 <= i < j < |s| ==> StrLe(s[i].source, s[j].source)
  }

  /** The items of `s` whose source is `key`, in their order in `s`. */
  function WithSource(s: seq<Item>, key: string): seq<Item> {
    if s == [] then []
    else (if s[0].source == key then [s[0]] else []) + WithSource(s[1..], key)
  }

  /** Places `x` in front of the first item whose source is not below its own. */
  function Insert(x: Item, t: seq<Item>): (r: seq<Item>)
    ensures |r| == |t| + 1
  {
    if t == [] || StrLe(x.source, t[0].source) then [x] + t
    else [t[0]] + Insert(x, t[1..])
  }

  /** Stable sort of `s` by source. */
  function SortBySource(s: seq<Item>): (r: seq<Item>)
    ensures |r| == |s|
  {
    if s == [] then [] else Insert(s[0], SortBySource(s[1..]))
  }

  lemma {:induction false} InsertPermutes(x: Item, t: seq<Item>)
    ensures multiset(Insert(x, t)) == multiset(t) + multiset{x}
  {
    if t != [] && !StrLe(x.source, t[0].source) {
      InsertPermutes(x, t[1..]);
      assert t == [t[0]] + t[1..];
    }
  }

  lemma {:induction false} InsertSorted(x: Item, t: seq<Item>)
    requires SortedBySource(t)
    ensures SortedBySource(Insert(x, t))
  {
    if t == [] {
    } else if StrLe(x.source, t[0].source) {
      forall j | 0 <= j < |t|
        ensures StrLe(x.source, t[j].source)
      {
        if j > 0 {
          StrLeTransitive(x.source, t[0].source, t[j].source);
        }
      }
    } else {
      var rest := Insert(x, t[1..]);
      InsertSorted(x, t[1..]);
      InsertPermutes(x, t[1..]);
      forall j | 0 <= j < |rest|
        ensures StrLe(t[0].source, rest[j].source)
      {
        assert rest[j] in multiset(rest);
        if rest[j] == x {
          StrLeTotal(x.source, t[0].source);
        } else {
          assert rest[j] in t[1..];
          var m :| 0 <= m < |t[1..]| && t[1..][m] == rest[j];
          assert t[m + 1] == rest[j];
        }
      }
    }
  }

  lemma {:induction false} InsertKeepsOrderPerSource(x: Item, t: seq<Item>, key: string)
    ensures WithSource(Insert(x, t), key) == (if x.source == key then [x] else []) + WithSource(t, key)
  {
    if t == [] || StrLe(x.source, t[0].source) {
      assert ([x] + t)[1..] == t;
    } else {
      var rest := Insert(x, t[1..]);
      InsertKeepsOrderPerSource(x, t[1..], key);
      if x.source == key && t[0].source == key {
        StrLeReflexive(key);
        assert false;
      }
      assert ([t[0]] + rest)[1..] == rest;
      assert WithSource([t[0]] + rest, key) == (if t[0].source == key then [t[0]] else []) + WithSource(rest, key);
    }
  }

  /**
   * The sorted sequence is ordered by source, holds exactly the same items
   * as the input, and keeps the input's relative order among items of any
   * one source.
   */
  lemma {:induction false} SortBySourceCorrect(s: seq<Item>)
    ensures SortedBySource(SortBySource(s))
    ensures multiset(SortBySource(s)) == multiset(s)
    ensures forall key :: WithSource(SortBySource(s), key) == WithSource(s, key)
  {
    if s != [] {
      SortBySourceCorrect(s[1..]);
      InsertSorted(s[0], SortBySource(s[1..]));
      InsertPermutes(s[0], SortBySource(s[1..]));
      assert s == [s[0]] + s[1..];
      forall key
        ensures WithSource(SortBySource(s), key) == WithSource(s, key)
      {
        InsertKeepsOrderPerSource(s[0], SortBySource(s[1..]), key);
      }
    }
  }

  lemma {:induction false} WithSourceMember(s: seq<Item>, key: string, x: Item)
    ensures x in WithSource(s, key) <==> x in s && x.source == key
  {
    if s != [] {
      WithSourceMember(s[1..], key, x);
      assert s == [s[0]] + s[1..];
    }
  }

  lemma OwnSourcePresent(s: seq<Item>)
    ensures s != [] ==> WithSource(s, s[0].source) != []
  {
  }

  /** An item of `b` has a source no smaller than the first source of sorted `a`, when `a` and `b` agree per source. */
  lemma FirstSourceIsLeast(a: seq<Item>, b: seq<Item>)
    requires a != [] && b != [] && SortedBySource(a)
    requires forall key :: WithSource(a, key) == WithSource(b, key)
    ensures StrLe(a[0].source, b[0].source)
  {
    var y := b[0];
    WithSourceMember(b, y.source, y);
    WithSourceMember(a, y.source, y);
    var j :| 0 <= j < |a| && a[j] == y;
    if j == 0 {
      StrLeReflexive(y.source);
    }
  }

  /** Two sorted sequences that agree source by source are equal. */
  lemma {:induction false} SortedAgreeingEqual(a: seq<Item>, b: seq<Item>)
    requires SortedBySource(a) && SortedBySource(b)
    requires forall key :: WithSource(a, key) == WithSource(b, key)
    ensures a == b
  {
    if a == [] || b == [] {
      OwnSourcePresent(a);
      OwnSourcePresent(b);
      if a != b {
        assert false;
      }
    } else {
      FirstSourceIsLeast(a, b);
      FirstSourceIsLeast(b, a);
      StrLeAntisymmetric(a[0].source, b[0].source);
      var m := a[0].source;
      assert WithSource(a, m)[0] == a[0];
      assert WithSource(b, m)[0] == b[0];
      assert a[0] == b[0];
      forall key
        ensures WithSource(a[1..], key) == WithSource(b[1..], key)
      {
        if key == m {
          assert WithSource(a, m) == [a[0]] + WithSource(a[1..], m);
          assert WithSource(b, m) == [b[0]] + WithSource(b[1..], m);
          assert WithSource(a[1..], m) == WithSource(a, m)[1..];
          assert WithSource(b[1..], m) == WithSource(b, m)[1..];
        } else {
          assert WithSource(a, key) == WithSource(a[1..], key);
          assert WithSource(b, key) == WithSource(b[1..], key);
        }
      }
      SortedAgreeingEqual(a[1..], b[1..]);
      assert a == [a[0]] + a[1..] && b == [b[0]] + b[1..];
    }
  }

  /**
   * Sorting by source while keeping each source's order determines the
   * result: every such arrangement of `s` is `SortBySource(s)`.
   */
  lemma StableSortIsUnique(s: seq<Item>, r: seq<Item>)
    requires SortedBySource(r)
    requires forall key :: WithSource(r, key) == WithSource(s, key)
    ensures r == SortBySource(s)
  {
    SortBySourceCorrect(s);
    SortedAgreeingEqual(r, SortBySource(s));
  }
}
