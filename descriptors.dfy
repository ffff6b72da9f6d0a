/**
  What the factory knows of one class found by the class-map scan, the
  predicates it states over lists of such classes, and the result of
  sorting them by filter name.
 */
module Descriptors {
  import NameOrder

  /** Fully qualified name of the interface every card filter implements. */
  const CardFilterInterface: string := "AppBundle\\Helper\\CardFilter\\CardFilterInterface"

  /**
    One class of the class map, as reflection shows it: its class name, the
    value its static `getName()` returns, whether it is abstract, and the
    interfaces it implements.
   */
  datatype ClassDescriptor = ClassDescriptor(
    className: string,
    name: string,
    isAbstract: bool,
    interfaces: set<string>)

  predicate ImplementsCardFilter(c: ClassDescriptor)
  {
    CardFilterInterface in c.interfaces
  }

  /** A class the factory may offer: concrete, and a card filter. */
  predicate IsCardFilterClass(c: ClassDescriptor)
  {
    !c.isAbstract && ImplementsCardFilter(c)
  }

  /** The filter names of `classes`, in order. */
  function Names(classes: seq<ClassDescriptor>): seq<string>
  {
    seq(|classes|, i requires 0 <= i < |classes| => classes[i].name)
  }

  predicate DistinctNames(classes: seq<ClassDescriptor>)
  {
    forall i, j | 0 <= i < j < |classes| :: classes[i].name != classes[j].name
  }

  /** Ascending by name; equal names may sit next to each other. */
  predicate SortedByName(classes: seq<ClassDescriptor>)
  {
    forall i, j | 0 <= i < j < |classes| :: !NameOrder.Less(classes[j].name, classes[i].name)
  }

  predicate StrictlySortedByName(classes: seq<ClassDescriptor>)
  {
    forall i, j | 0 <= i < j < |classes| :: NameOrder.Less(classes[i].name, classes[j].name)
  }

  lemma StrictlySortedHasDistinctNames(classes: seq<ClassDescriptor>)
    requires StrictlySortedByName(classes)
    ensures DistinctNames(classes) && SortedByName(classes)
  {
    forall i, j | 0 <= i < j < |classes|
      ensures classes[i].name != classes[j].name
      ensures !NameOrder.Less(classes[j].name, classes[i].name)
    {
      NameOrder.LessIrreflexive(classes[i].name);
      NameOrder.LessAsymmetric(classes[i].name, classes[j].name);
    }
  }

  /** Places `c` into `sorted` before the first class whose name is not below c's. */
  function Insert(c: ClassDescriptor, sorted: seq<ClassDescriptor>): seq<ClassDescriptor>
  {
    if sorted == [] then [c]
    else if NameOrder.Less(sorted[0].name, c.name) then [sorted[0]] + Insert(c, sorted[1..])
    else [c] + sorted
  }

  lemma {:induction false} InsertPermutes(c: ClassDescriptor, sorted: seq<ClassDescriptor>)
    ensures multiset(Insert(c, sorted)) == multiset(sorted) + multiset{c}
  {
    if sorted != [] && NameOrder.Less(sorted[0].name, c.name) {
      assert sorted == [sorted[0]] + sorted[1..];
      InsertPermutes(c, sorted[1..]);
    }
  }

  /** Prepending a class that no class of `rest` sorts before keeps the order. */
  lemma PrependKeepsOrder(h: ClassDescriptor, rest: seq<ClassDescriptor>)
    requires SortedByName(rest)
    requires forall x | x in rest :: !NameOrder.Less(x.name, h.name)
    ensures SortedByName([h] + rest)
  {
    var r := [h] + rest;
    forall i, j | 0 <= i < j < |r| ensures !NameOrder.Less(r[j].name, r[i].name) {
      assert r[j] == rest[j - 1];
      if i > 0 {
        assert r[i] == rest[i - 1];
      }
    }
  }

  /** Prepending a class that sorts strictly before every class of `rest` keeps the strict order. */
  lemma PrependKeepsStrictOrder(h: ClassDescriptor, rest: seq<ClassDescriptor>)
    requires StrictlySortedByName(rest)
    requires forall x | x in rest :: NameOrder.Less(h.name, x.name)
    ensures StrictlySortedByName([h] + rest)
  {
    var r := [h] + rest;
    forall i, j | 0 <= i < j < |r| ensures NameOrder.Less(r[i].name, r[j].name) {
      assert r[j] == rest[j - 1];
      if i > 0 {
        assert r[i] == rest[i - 1];
      }
    }
  }

  lemma {:induction false} InsertKeepsOrder(c: ClassDescriptor, sorted: seq<ClassDescriptor>)
    requires SortedByName(sorted)
    ensures SortedByName(Insert(c, sorted))
  {
    if sorted == [] {
    } else if NameOrder.Less(sorted[0].name, c.name) {
      var tail := sorted[1..];
      InsertKeepsOrder(c, tail);
      InsertPermutes(c, tail);
      forall x | x in Insert(c, tail) ensures !NameOrder.Less(x.name, sorted[0].name) {
        assert x in multiset(Insert(c, tail));
        if x == c {
          NameOrder.LessAsymmetric(sorted[0].name, c.name);
        } else {
          assert x in multiset(tail);
          var k :| 0 <= k < |tail| && tail[k] == x;
          assert sorted[k + 1] == x;
        }
      }
      PrependKeepsOrder(sorted[0], Insert(c, tail));
    } else {
      NameOrder.LessTotal(c.name, sorted[0].name);
      forall x | x in sorted ensures !NameOrder.Less(x.name, c.name) {
        var j :| 0 <= j < |sorted| && sorted[j] == x;
        if j > 0 && NameOrder.Less(x.name, c.name) {
          if c.name == sorted[0].name {
            NameOrder.LessAsymmetric(x.name, c.name);
          } else {
            NameOrder.LessTransitive(x.name, c.name, sorted[0].name);
          }
        }
      }
      PrependKeepsOrder(c, sorted);
    }
  }

  lemma {:induction false} InsertKeepsStrictOrder(c: ClassDescriptor, sorted: seq<ClassDescriptor>)
    requires StrictlySortedByName(sorted)
    requires forall x | x in sorted :: x.name != c.name
    ensures StrictlySortedByName(Insert(c, sorted))
  {
    if sorted == [] {
    } else if NameOrder.Less(sorted[0].name, c.name) {
      var tail := sorted[1..];
      InsertKeepsStrictOrder(c, tail);
      InsertPermutes(c, tail);
      forall x | x in Insert(c, tail) ensures NameOrder.Less(sorted[0].name, x.name) {
        assert x in multiset(Insert(c, tail));
        if x != c {
          assert x in multiset(tail);
          var k :| 0 <= k < |tail| && tail[k] == x;
          assert sorted[k + 1] == x;
        }
      }
      PrependKeepsStrictOrder(sorted[0], Insert(c, tail));
    } else {
      NameOrder.LessTotal(c.name, sorted[0].name);
      forall x | x in sorted ensures NameOrder.Less(c.name, x.name) {
        var j :| 0 <= j < |sorted| && sorted[j] == x;
        if j > 0 {
          NameOrder.LessTransitive(c.name, sorted[0].name, x.name);
        }
      }
      PrependKeepsStrictOrder(c, sorted);
    }
  }

  /**
    The order `usort` leaves the classes in when compared by name: an
    ascending permutation of its input, strictly ascending when the names
    are distinct.
   */
  function SortByName(classes: seq<ClassDescriptor>): (sorted: seq<ClassDescriptor>)
    ensures multiset(sorted) == multiset(classes)
    ensures SortedByName(sorted)
    ensures DistinctNames(classes) ==> StrictlySortedByName(sorted)
  {
    if classes == [] then []
    else
      var rest := SortByName(classes[1..]);
      assert classes == [classes[0]] + classes[1..];
      InsertPermutes(classes[0], rest);
      InsertKeepsOrder(classes[0], rest);
      if DistinctNames(classes) then
        DistinctTail(classes);
        forall x | x in rest ensures x.name != classes[0].name {
          assert x in multiset(classes[1..]);
          var m :| 0 <= m < |classes[1..]| && classes[1..][m] == x;
          assert classes[m + 1] == x;
        }
        InsertKeepsStrictOrder(classes[0], rest);
        Insert(classes[0], rest)
      else
        Insert(classes[0], rest)
  }

  lemma DistinctTail(classes: seq<ClassDescriptor>)
    requires classes != [] && DistinctNames(classes)
    ensures DistinctNames(classes[1..])
  {
    forall i, j | 0 <= i < j < |classes| - 1 ensures classes[1..][i].name != classes[1..][j].name {
      assert classes[1..][i] == classes[i + 1] && classes[1..][j] == classes[j + 1];
    }
  }

  /** Two strictly ascending lists with the same classes start with the same class. */
  lemma SameFirstClass(a: seq<ClassDescriptor>, b: seq<ClassDescriptor>)
    requires StrictlySortedByName(a) && StrictlySortedByName(b)
    requires multiset(a) == multiset(b) && a != []
    ensures b != [] && a[0] == b[0]
  {
    assert a[0] in multiset(b);
    assert b[0] in multiset(a);
    var m :| 0 <= m < |b| && b[m] == a[0];
    var n :| 0 <= n < |a| && a[n] == b[0];
    if m > 0 {
      if n > 0 {
        NameOrder.LessAsymmetric(a[0].name, a[n].name);
      } else {
        NameOrder.LessIrreflexive(a[0].name);
      }
    }
  }

  lemma DropFirst(a: seq<ClassDescriptor>, b: seq<ClassDescriptor>)
    requires multiset(a) == multiset(b) && a != [] && b != [] && a[0] == b[0]
    ensures multiset(a[1..]) == multiset(b[1..])
  {
    assert a == [a[0]] + a[1..] && b == [b[0]] + b[1..];
    assert multiset(a[1..]) == multiset(a) - multiset{a[0]};
    assert multiset(b[1..]) == multiset(b) - multiset{b[0]};
  }

  lemma StrictTail(a: seq<ClassDescriptor>)
    requires StrictlySortedByName(a) && a != []
    ensures StrictlySortedByName(a[1..])
  {
    forall i, j | 0 <= i < j < |a| - 1 ensures NameOrder.Less(a[1..][i].name, a[1..][j].name) {
      assert a[1..][i] == a[i + 1] && a[1..][j] == a[j + 1];
    }
  }

  /**
    Sorting by distinct names leaves no choice: two strictly ascending lists
    with the same classes are the same list.
   */
  lemma {:induction false} StrictlySortedPermutationUnique(a: seq<ClassDescriptor>, b: seq<ClassDescriptor>)
    requires StrictlySortedByName(a) && StrictlySortedByName(b)
    requires multiset(a) == multiset(b)
    ensures a == b
  {
    if a == [] {
      assert |multiset(b)| == 0;
    } else {
      SameFirstClass(a, b);
      DropFirst(a, b);
      StrictTail(a);
      StrictTail(b);
      StrictlySortedPermutationUnique(a[1..], b[1..]);
      assert a == [a[0]] + a[1..] && b == [b[0]] + b[1..];
    }
  }
}
