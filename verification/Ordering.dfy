/** Sorting and counting, shared by the modules whose source calls a library sort. */
module Ordering {

  // ---------------------------------------------------------------- counting

  function CountIf<T>(p: T -> bool, s: seq<T>): nat {
    if s == [] then 0
    else CountIf(p, s[..|s| - 1]) + (if p(s[|s| - 1]) then 1 else 0)
  }

  lemma {:induction false} CountConcat<T>(p: T -> bool, s: seq<T>, t: seq<T>)
    ensures CountIf(p, s + t) == CountIf(p, s) + CountIf(p, t)
    decreases |t|
  {
    if t == [] {
      assert s + t == s;
    } else {
      CountConcat(p, s, t[..|t| - 1]);
      assert (s + t)[..|s + t| - 1] == s + t[..|t| - 1];
    }
  }

  lemma {:induction false} CountNone<T>(p: T -> bool, s: seq<T>)
    ensures CountIf(p, s) == 0 <==> forall i :: 0 <= i < |s| ==> !p(s[i])
    decreases |s|
  {
    if s == [] {
    } else {
      CountNone(p, s[..|s| - 1]);
    }
  }

  lemma {:induction false} CountAll<T>(p: T -> bool, s: seq<T>)
    requires forall i :: 0 <= i < |s| ==> p(s[i])
    ensures CountIf(p, s) == |s|
    decreases |s|
  {
    if s == [] {
    } else {
      CountAll(p, s[..|s| - 1]);
    }
  }

  lemma MultisetOfAppend<T>(front: seq<T>, x: T)
    ensures multiset(front + [x]) == multiset(front) + multiset{x}
  {
  }

  lemma MultisetWithout<T>(t: seq<T>, k: nat)
    requires k < |t|
    ensures multiset(t) == multiset(t[..k] + t[k + 1..]) + multiset{t[k]}
  {
    assert t == t[..k] + [t[k]] + t[k + 1..];
  }

  lemma CancelOne<T>(a: multiset<T>, b: multiset<T>, x: T)
    requires a + multiset{x} == b + multiset{x}
    ensures a == b
  {
    assert a == a + multiset{x} - multiset{x};
    assert b == b + multiset{x} - multiset{x};
  }

  /** A permutation, one element at a time: take `x` out of both. */
  lemma RemoveCommon<T>(front: seq<T>, x: T, t: seq<T>) returns (k: nat)
    requires multiset(front + [x]) == multiset(t)
    ensures k < |t| && t[k] == x && multiset(front) == multiset(t[..k] + t[k + 1..])
  {
    MultisetOfAppend(front, x);
    assert x in multiset(t);
    k :| 0 <= k < |t| && t[k] == x;
    MultisetWithout(t, k);
    CancelOne(multiset(front), multiset(t[..k] + t[k + 1..]), x);
  }

  lemma {:induction false} CountOfPermutation<T>(p: T -> bool, s: seq<T>, t: seq<T>)
    requires multiset(s) == multiset(t)
    ensures CountIf(p, s) == CountIf(p, t)
    decreases |s|
  {
    if s == [] {
      assert |multiset(t)| == 0;
    } else {
      var front, x := s[..|s| - 1], s[|s| - 1];
      assert s == front + [x];
      var k := RemoveCommon(front, x, t);
      CountOfPermutation(p, front, t[..k] + t[k + 1..]);
      CountConcat(p, t[..k], t[k + 1..]);
      CountConcat(p, t[..k], [x]);
      CountConcat(p, t[..k] + [x], t[k + 1..]);
      assert t == t[..k] + [x] + t[k + 1..];
      CountConcat(p, front, [x]);
    }
  }

  /** No more elements than indices they can stand at. */
  lemma {:induction false} CountWithin<T>(p: T -> bool, s: seq<T>, at: set<nat>)
    requires forall i :: 0 <= i < |s| && p(s[i]) ==> i in at
    ensures CountIf(p, s) <= |at|
    decreases |s|
  {
    if s == [] {
    } else {
      var last := |s| - 1;
      if p(s[last]) {
        CountWithin(p, s[..last], at - {last});
      } else {
        CountWithin(p, s[..last], at);
      }
    }
  }

  // ---------------------------------------------------------------- sorting

  /** Names the middle element when transitivity is applied. */
  predicate Via<T>(x: T, y: T, z: T) { true }

  ghost predicate Preorder<T(!new)>(le: (T, T) -> bool) {
    && (forall x, y :: le(x, y) || le(y, x))
    && (forall x, y, z {:trigger Via(x, y, z)} :: le(x, y) && le(y, z) ==> le(x, z))
  }

  ghost predicate TotalOrder<T(!new)>(le: (T, T) -> bool) {
    && Preorder(le)
    && (forall x, y :: le(x, y) && le(y, x) ==> x == y)
  }

  ghost predicate Sorted<T>(le: (T, T) -> bool, s: seq<T>) {
    forall i, j :: 0 <= i < j < |s| ==> le(s[i], s[j])
  }

  /** What any library sort promises. */
  ghost predicate SortOf<T>(le: (T, T) -> bool, s: seq<T>, sorted: seq<T>) {
    Sorted(le, sorted) && multiset(sorted) == multiset(s)
  }

  function Insert<T>(le: (T, T) -> bool, x: T, s: seq<T>): seq<T> {
    if s == [] then [x]
    else if le(s[|s| - 1], x) then s + [x]
    else Insert(le, x, s[..|s| - 1]) + [s[|s| - 1]]
  }

  /** The stable insertion sort that stands for the library's. */
  function Sort<T>(le: (T, T) -> bool, s: seq<T>): seq<T> {
    if s == [] then [] else Insert(le, s[|s| - 1], Sort(le, s[..|s| - 1]))
  }

  lemma {:induction false} InsertElements<T>(le: (T, T) -> bool, x: T, s: seq<T>)
    ensures multiset(Insert(le, x, s)) == multiset(s) + multiset{x}
    decreases |s|
  {
    if s == [] {
    } else {
      var front, last := s[..|s| - 1], s[|s| - 1];
      assert s == front + [last];
      InsertElements(le, x, front);
    }
  }

  lemma {:induction false} InsertSorted<T(!new)>(le: (T, T) -> bool, x: T, s: seq<T>)
    requires Preorder(le) && Sorted(le, s)
    ensures Sorted(le, Insert(le, x, s))
    decreases |s|
  {
    if s == [] {
    } else {
      var front, last := s[..|s| - 1], s[|s| - 1];
      if le(last, x) {
        forall i | 0 <= i < |s| ensures le(s[i], x) {
          assert Via(s[i], last, x);
        }
      } else {
        var inner := Insert(le, x, front);
        InsertSorted(le, x, front);
        InsertElements(le, x, front);
        forall i | 0 <= i < |inner| ensures le(inner[i], last) {
          assert inner[i] in multiset(inner);
          assert inner[i] == x || inner[i] in front;
        }
      }
    }
  }

  lemma {:induction false} SortIsSort<T(!new)>(le: (T, T) -> bool, s: seq<T>)
    requires Preorder(le)
    ensures SortOf(le, s, Sort(le, s)) && |Sort(le, s)| == |s|
    decreases |s|
  {
    if s == [] {
    } else {
      var front, last := s[..|s| - 1], s[|s| - 1];
      assert s == front + [last];
      SortIsSort(le, front);
      InsertSorted(le, last, Sort(le, front));
      InsertElements(le, last, Sort(le, front));
      assert |multiset(Sort(le, s))| == |multiset(s)|;
    }
  }

  lemma LastIsGreatest<T(!new)>(le: (T, T) -> bool, s: seq<T>, t: seq<T>)
    requires Preorder(le) && Sorted(le, s) && multiset(s) == multiset(t) && t != [] && s != []
    ensures le(t[|t| - 1], s[|s| - 1])
  {
    var x := t[|t| - 1];
    assert x in multiset(t);
    assert x in multiset(s);
    var i :| 0 <= i < |s| && s[i] == x;
  }

  lemma DropLast<T>(s: seq<T>, t: seq<T>)
    requires multiset(s) == multiset(t) && s != [] && t != [] && s[|s| - 1] == t[|t| - 1]
    ensures multiset(s[..|s| - 1]) == multiset(t[..|t| - 1])
  {
    var x := s[|s| - 1];
    assert s == s[..|s| - 1] + [x] && t == t[..|t| - 1] + [x];
    MultisetOfAppend(s[..|s| - 1], x);
    MultisetOfAppend(t[..|t| - 1], x);
    CancelOne(multiset(s[..|s| - 1]), multiset(t[..|t| - 1]), x);
  }

  lemma SortedFront<T>(le: (T, T) -> bool, s: seq<T>)
    requires Sorted(le, s) && s != []
    ensures Sorted(le, s[..|s| - 1])
  {
  }

  lemma SameLast<T(!new)>(le: (T, T) -> bool, s: seq<T>, t: seq<T>)
    requires TotalOrder(le) && Sorted(le, s) && Sorted(le, t) && multiset(s) == multiset(t) && s != [] && t != []
    ensures s[|s| - 1] == t[|t| - 1]
  {
    LastIsGreatest(le, s, t);
    LastIsGreatest(le, t, s);
  }

  /** Under a total order a sorted permutation is unique, so it does not matter who sorts, nor
      in which order the elements arrived. */
  lemma {:induction false} SortIsUnique<T(!new)>(le: (T, T) -> bool, s: seq<T>, t: seq<T>)
    requires TotalOrder(le) && Sorted(le, s) && Sorted(le, t) && multiset(s) == multiset(t)
    ensures s == t
    decreases |s|
  {
    assert |multiset(s)| == |s| && |multiset(t)| == |t|;
    if s == [] {
    } else {
      SameLast(le, s, t);
      DropLast(s, t);
      SortedFront(le, s);
      SortedFront(le, t);
      SortIsUnique(le, s[..|s| - 1], t[..|t| - 1]);
      assert s == s[..|s| - 1] + [s[|s| - 1]] && t == t[..|t| - 1] + [t[|t| - 1]];
    }
  }
}
