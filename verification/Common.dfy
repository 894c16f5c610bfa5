/** Values shared by every component model. */
module Common {

  datatype Option<+T> = None | Some(value: T)

  datatype Result<+T, +E> = Ok(value: T) | Err(error: E)

  /** What a vote by fetch_sub tells the voter: more votes to come, or the last one, with the handle stored by then. */
  datatype Ballot<+H> = More | Last(handle: Option<H>)

  /** No element of `s` occurs twice. */
  ghost predicate NoDup<T>(s: seq<T>) {
    forall i, j :: 0 <= i < j < |s| ==> s[i] != s[j]
  }

  /** The elements of `s`. */
  ghost function Elems<T>(s: seq<T>): (r: set<T>) {
    set x | x in s
  }

  /** A duplicate-free sequence has as many entries as elements. */
  lemma {:induction false} NoDupSize<T>(s: seq<T>)
    requires NoDup(s)
    ensures |Elems(s)| == |s|
  {
    if s == [] {
    } else {
      var t := s[1..];
      NoDupSize(t);
      assert s == [s[0]] + t;
      assert s[0] !in t;
      assert Elems(s) == Elems(t) + {s[0]};
    }
  }

  lemma {:induction false} Associates<X>(a: seq<X>, b: seq<X>, c: seq<X>)
    ensures a + (b + c) == a + b + c
  {
  }

  /** The least element of a set of identifiers. */
  ghost function Least(s: set<nat>): (m: nat)
    requires s != {}
    ensures m in s && forall x <- s :: m <= x
    decreases |s|
  {
    var y :| y in s;
    var t := s - {y};
    assert forall x <- s :: x == y || x in t;
    if t == {} then y
    else
      var m := Least(t);
      if y < m then y else m
  }

  /** The elements of a set of identifiers in increasing order: how an ordered map iterates. */
  ghost function Ascending(s: set<nat>): (r: seq<nat>)
    decreases |s|
  {
    if s == {} then [] else [Least(s)] + Ascending(s - {Least(s)})
  }

  lemma {:induction false} AscendingHolds(s: set<nat>)
    ensures forall x <- Ascending(s) :: x in s
    ensures forall x <- s :: x in Ascending(s)
    decreases |s|
  {
    if s != {} {
      var m := Least(s);
      AscendingHolds(s - {m});
      assert s == {m} + (s - {m});
    }
  }

  lemma {:induction false} AscendingSorted(s: set<nat>)
    ensures forall i, j :: 0 <= i < j < |Ascending(s)| ==> Ascending(s)[i] < Ascending(s)[j]
    decreases |s|
  {
    if s != {} {
      var m := Least(s);
      var rest := Ascending(s - {m});
      AscendingSorted(s - {m});
      AscendingHolds(s - {m});
      assert forall i :: 0 <= i < |rest| ==> rest[i] in rest;
    }
  }
}
