/** Sorting and heaps, with every way of breaking ties. */
module Sorting {

  type Order<!T> = (T, T) -> bool

  ghost predicate TotalPreorder<T(!new)>(le: Order<T>) {
    && (forall a, b :: le(a, b) || le(b, a))
    && (forall a, b, c :: le(a, b) && le(b, c) ==> le(a, c))
  }

  ghost predicate SortedBy<T>(le: Order<T>, s: seq<T>) {
    forall i, j :: 0 <= i < j < |s| ==> le(s[i], s[j])
  }

  /** `h` may be popped first from a heap that holds `m` and is ordered by `le`. */
  ghost predicate First<T(!new)>(le: Order<T>, m: multiset<T>, h: T) {
    h in m && forall x :: x in m ==> le(h, x)
  }

  lemma Member<T(!new)>(le: Order<T>, m: multiset<T>, h: T)
    requires First(le, m, h)
    ensures h in m
  {
  }

  lemma {:induction false} FirstExists<T(!new)>(le: Order<T>, m: multiset<T>)
    requires TotalPreorder(le) && m != multiset{}
    ensures exists h :: First(le, m, h)
    decreases |m|
  {
    var x :| x in m;
    var rest := m - multiset{x};
    if rest == multiset{} {
      assert m == multiset{x};
      assert First(le, m, x);
    } else {
      FirstExists(le, rest);
      var y :| First(le, rest, y);
      assert forall z :: z in m ==> z == x || z in rest;
      if le(x, y) { assert First(le, m, x); } else { assert First(le, m, y); }
    }
  }

  /** The top of a heap: any first element. */
  method Top<T(!new, ==)>(le: Order<T>, m: multiset<T>) returns (h: T)
    requires TotalPreorder(le) && m != multiset{}
    ensures First(le, m, h)
  {
    FirstExists(le, m);
    h :| h in m && forall x :: x in m ==> le(h, x);
  }

  /** `std::sort`: some sorted rearrangement. */
  method Sort<T(!new, ==)>(le: Order<T>, m: multiset<T>) returns (out: seq<T>)
    requires TotalPreorder(le)
    ensures multiset(out) == m && |out| == |m| && SortedBy(le, out)
  {
    out := [];
    var rest := m;
    while rest != multiset{}
      invariant multiset(out) + rest == m
      invariant SortedBy(le, out)
      invariant forall i, x :: 0 <= i < |out| && x in rest ==> le(out[i], x)
      decreases |rest|
    {
      var h := Top(le, rest);
      out := out + [h];
      rest := rest - multiset{h};
    }
  }
}
