/**
 * Ordering the template nodes by their offset in the script. The sort of the
 * nodes is stable: nodes with the same offset keep their relative order (the
 * array sort is required to be stable by ECMA-262, 2019 edition, section
 * 22.1.3.27).
 */
module Sorter {
  import opened Syntax

  /** Nondecreasing offsets. */
  predicate SortedByStart(s: seq<TemplateNode>) {
    forall i, j :: 0 <= i < j < |s| ==> s[i].start <= s[j].start
  }

  /** The nodes of `s` whose offset is `k`, in their order in `s`. */
  function WithStart(s: seq<TemplateNode>, k: nat): seq<TemplateNode>
  {
    if s == [] then []
    else (if s[0].start == k then [s[0]] else []) + WithStart(s[1..], k)
  }

  /** Puts `x` in front of the first node whose offset is not smaller than its own. */
  function Insert(x: TemplateNode, s: seq<TemplateNode>): seq<TemplateNode>
  {
    if s == [] || x.start <= s[0].start then [x] + s
    else [s[0]] + Insert(x, s[1..])
  }

  function InsertionSort(s: seq<TemplateNode>): seq<TemplateNode>
  {
    if s == [] then [] else Insert(s[0], InsertionSort(s[1..]))
  }

  /**
   * The nodes sorted by offset, from a copy (the argument is a value and is
   * left as it is); fewer than two nodes are returned as they are.
   */
  function SortByStartKey(nodes: seq<TemplateNode>): (r: seq<TemplateNode>)
    ensures |nodes| < 2 ==> r == nodes
    ensures SortedByStart(r)
    ensures multiset(r) == multiset(nodes)
  {
    if |nodes| < 2 then nodes
    else
      InsertionSortCorrect(nodes);
      InsertionSort(nodes)
  }

  /** The sort's result is sorted by offset, a permutation of its input, and stable. */
  lemma SortByStartKeyCorrect(nodes: seq<TemplateNode>)
    ensures SortedByStart(SortByStartKey(nodes))
    ensures multiset(SortByStartKey(nodes)) == multiset(nodes)
    ensures forall k :: WithStart(SortByStartKey(nodes), k) == WithStart(nodes, k)
  {
    if |nodes| >= 2 {
      InsertionSortCorrect(nodes);
    }
  }

  lemma {:induction false} InsertSorted(x: TemplateNode, s: seq<TemplateNode>)
    requires SortedByStart(s)
    ensures SortedByStart(Insert(x, s))
    ensures multiset(Insert(x, s)) == multiset(s) + multiset{x}
  {
    InsertMultiset(x, s);
    InsertOrdered(x, s);
  }

  /** Inserting adds exactly `x`. */
  lemma {:induction false} InsertMultiset(x: TemplateNode, s: seq<TemplateNode>)
    ensures multiset(Insert(x, s)) == multiset(s) + multiset{x}
  {
    if s != [] && x.start > s[0].start {
      InsertMultiset(x, s[1..]);
      assert s == [s[0]] + s[1..];
    }
  }

  /** Inserting into a sorted list keeps it sorted. */
  lemma {:induction false} InsertOrdered(x: TemplateNode, s: seq<TemplateNode>)
    requires SortedByStart(s)
    ensures SortedByStart(Insert(x, s))
  {
    if s != [] && x.start > s[0].start {
      var rest := s[1..];
      InsertOrdered(x, rest);
      InsertMultiset(x, rest);
      var r := Insert(x, rest);
      forall j | 0 <= j < |r| ensures s[0].start <= r[j].start {
        assert r[j] in multiset(r);
        if r[j] != x {
          assert r[j] in multiset(rest);
        }
      }
      assert Insert(x, s) == [s[0]] + r;
    }
  }

  /** The nodes with offset `k` of a list with head `h`. */
  lemma WithStartCons(h: TemplateNode, t: seq<TemplateNode>, k: nat)
    ensures WithStart([h] + t, k) == (if h.start == k then [h] else []) + WithStart(t, k)
  {
    assert ([h] + t)[1..] == t;
  }

  /** Inserting `x` puts it first among the nodes with its offset and leaves the other offsets' nodes alone. */
  lemma {:induction false} InsertWithStart(x: TemplateNode, s: seq<TemplateNode>, k: nat)
    ensures WithStart(Insert(x, s), k) == (if x.start == k then [x] else []) + WithStart(s, k)
  {
    if s == [] || x.start <= s[0].start {
      WithStartCons(x, s, k);
    } else {
      var rest := Insert(x, s[1..]);
      InsertWithStart(x, s[1..], k);
      WithStartCons(s[0], rest, k);
      WithStartCons(s[0], s[1..], k);
      assert s == [s[0]] + s[1..];
      assert x.start == k ==> s[0].start != k;
    }
  }

  lemma {:induction false} InsertionSortCorrect(s: seq<TemplateNode>)
    ensures SortedByStart(InsertionSort(s))
    ensures multiset(InsertionSort(s)) == multiset(s)
    ensures forall k :: WithStart(InsertionSort(s), k) == WithStart(s, k)
  {
    if s != [] {
      InsertionSortCorrect(s[1..]);
      InsertSorted(s[0], InsertionSort(s[1..]));
      assert s == [s[0]] + s[1..];
      forall k ensures WithStart(InsertionSort(s), k) == WithStart(s, k) {
        InsertWithStart(s[0], InsertionSort(s[1..]), k);
      }
    }
  }

  /** The nodes with offset `k` are the nodes of `s` with that offset. */
  lemma {:induction false} WithStartMembers(s: seq<TemplateNode>, k: nat)
    ensures forall x :: x in WithStart(s, k) <==> x in s && x.start == k
  {
    if s != [] {
      WithStartMembers(s[1..], k);
      assert s == [s[0]] + s[1..];
    }
  }

  /** Dropping the first node of both of two lists that agree on every offset, and start alike, keeps them in agreement. */
  lemma DropFirstWithStart(t: seq<TemplateNode>, u: seq<TemplateNode>)
    requires t != [] && u != [] && t[0] == u[0]
    requires forall k :: WithStart(t, k) == WithStart(u, k)
    ensures forall k :: WithStart(t[1..], k) == WithStart(u[1..], k)
  {
    forall k ensures WithStart(t[1..], k) == WithStart(u[1..], k) {
      var h := if t[0].start == k then [t[0]] else [];
      assert WithStart(t, k) == h + WithStart(t[1..], k);
      assert WithStart(u, k) == h + WithStart(u[1..], k);
      assert WithStart(t[1..], k) == WithStart(t, k)[|h|..];
      assert WithStart(u[1..], k) == WithStart(u, k)[|h|..];
    }
  }

  /**
   * A stable sort by offset has exactly one possible result: two sorted lists
   * that hold, for every offset, the same nodes in the same order are equal.
   */
  lemma {:induction false} SortedAgreementUnique(t: seq<TemplateNode>, u: seq<TemplateNode>)
    requires SortedByStart(t) && SortedByStart(u)
    requires forall k :: WithStart(t, k) == WithStart(u, k)
    ensures t == u
    decreases |t|
  {
    if t != [] {
      var m := t[0].start;
      assert t[0] in u by {
        WithStartMembers(t, m);
        WithStartMembers(u, m);
        assert t[0] in WithStart(u, m);
      }
      assert u[0].start == m by {
        var n := u[0].start;
        WithStartMembers(u, n);
        WithStartMembers(t, n);
        assert u[0] in WithStart(t, n);
        assert u[0] in t;
      }
      assert t[0] == u[0] by {
        assert WithStart(t, m) == WithStart(u, m);
        assert WithStart(t, m) == [t[0]] + WithStart(t[1..], m);
        assert WithStart(u, m) == [u[0]] + WithStart(u[1..], m);
        assert WithStart(t, m)[0] == t[0];
        assert WithStart(u, m)[0] == u[0];
      }
      DropFirstWithStart(t, u);
      SortedAgreementUnique(t[1..], u[1..]);
      assert t == [t[0]] + t[1..];
      assert u == [u[0]] + u[1..];
    } else if u != [] {
      WithStartMembers(u, u[0].start);
    }
  }

  /** Any sorted list that keeps each offset's nodes in input order is the sort's result. */
  lemma SortByStartKeyUnique(nodes: seq<TemplateNode>, t: seq<TemplateNode>)
    requires SortedByStart(t)
    requires forall k :: WithStart(t, k) == WithStart(nodes, k)
    ensures t == SortByStartKey(nodes)
  {
    SortByStartKeyCorrect(nodes);
    SortedAgreementUnique(t, SortByStartKey(nodes));
  }

  /** Sorting a list already sorted by offset returns that same list. */
  lemma SortSortedIsIdentity(nodes: seq<TemplateNode>)
    requires SortedByStart(nodes)
    ensures SortByStartKey(nodes) == nodes
  {
    SortByStartKeyUnique(nodes, nodes);
  }

  /** Sorting twice is sorting once. */
  lemma SortIdempotent(nodes: seq<TemplateNode>)
    ensures SortByStartKey(SortByStartKey(nodes)) == SortByStartKey(nodes)
  {
    SortByStartKeyCorrect(nodes);
    SortSortedIsIdentity(SortByStartKey(nodes));
  }
}
