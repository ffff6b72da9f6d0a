/**
  The card-filter factory: it finds the concrete card-filter classes in a
  class map, checks them, keeps them sorted by filter name, and runs one
  interactive round that picks a filter and hands over to its `setUp`.
 */
module CardFilter {
  import opened Wrappers
  import opened Descriptors
  import NameOrder

  /** The extra choice that backs out of the menu. */
  const BackOption: string := "<- Back"
  const SelectFilterQuestion: string := "Select Filter:"
  const ConfigureFilterPrefix: string := "Configure Filter: "

  /** Why construction of the factory aborts. */
  datatype FactoryError =
    | NotACardFilter(className: string)
      // raised on the class whose names are already taken; the source builds
      // this message by calling an undefined method, so only the class is kept
    | DuplicateName(className: string)

  /** Why an interactive round ends without a filter. */
  datatype SelectionError = UnknownOption(choice: string)

  /** How an interactive round ends. */
  datatype Selection<R> = Made(filter: R) | Cancelled | Failed(error: SelectionError)

  /** What a round does to the world outside the factory, in order. */
  datatype Interaction =
    | Ask(question: string, choices: seq<string>)
    | WriteLine(line: string)
    | SetUpCalled(className: string, boardId: string)

  // ---------------------------------------------------------------------
  // Discovery

  /** The classes of the class map that are concrete card filters, in class-map order. */
  function Candidates(classMap: seq<ClassDescriptor>): seq<ClassDescriptor>
  {
    if classMap == [] then []
    else (if IsCardFilterClass(classMap[0]) then [classMap[0]] else []) + Candidates(classMap[1..])
  }

  /** Discovery works entry by entry: it distributes over concatenation of class maps. */
  lemma {:induction false} CandidatesAppend(a: seq<ClassDescriptor>, b: seq<ClassDescriptor>)
    ensures Candidates(a + b) == Candidates(a) + Candidates(b)
  {
    if a == [] {
      assert a + b == b;
    } else {
      assert (a + b)[0] == a[0] && (a + b)[1..] == a[1..] + b;
      CandidatesAppend(a[1..], b);
    }
  }

  /** Discovery keeps every concrete card filter, as often as it occurs, and nothing else. */
  lemma {:induction false} CandidatesKeepExactlyFilters(classMap: seq<ClassDescriptor>)
    ensures forall c :: multiset(Candidates(classMap))[c] ==
                        if IsCardFilterClass(c) then multiset(classMap)[c] else 0
    ensures forall c :: c in Candidates(classMap) <==> c in classMap && IsCardFilterClass(c)
  {
    if classMap != [] {
      CandidatesKeepExactlyFilters(classMap[1..]);
      assert classMap == [classMap[0]] + classMap[1..];
    }
    forall c ensures c in Candidates(classMap) <==> c in classMap && IsCardFilterClass(c) {
      assert c in Candidates(classMap) <==> multiset(Candidates(classMap))[c] > 0;
      assert c in classMap <==> multiset(classMap)[c] > 0;
    }
  }

  method DiscoverFilterClasses(classMap: seq<ClassDescriptor>) returns (classes: seq<ClassDescriptor>)
    ensures classes == Candidates(classMap)
    ensures forall c :: c in classes <==> c in classMap && IsCardFilterClass(c)
  {
    classes := [];
    for i := 0 to |classMap|
      invariant classes == Candidates(classMap[..i])
    {
      assert classMap[..i + 1] == classMap[..i] + [classMap[i]];
      CandidatesAppend(classMap[..i], [classMap[i]]);
      if !classMap[i].isAbstract && ImplementsCardFilter(classMap[i]) {
        classes := classes + [classMap[i]];
      }
    }
    assert classMap[..|classMap|] == classMap;
    CandidatesKeepExactlyFilters(classMap);
  }

  // ---------------------------------------------------------------------
  // Validation

  /**
    The interface check as the source performs it: `class_implements` is
    asked for the interfaces of the class, and an empty answer is the only
    one that fails, whatever those interfaces are.
   */
  predicate PassesInterfaceCheck(c: ClassDescriptor)
  {
    c.interfaces != {}
  }

  /** Validation stops at position k: the class fails the interface check or reuses an earlier name. */
  predicate RejectedAt(classes: seq<ClassDescriptor>, k: int)
    requires 0 <= k < |classes|
  {
    !PassesInterfaceCheck(classes[k]) || classes[k].name in Names(classes[..k])
  }

  predicate FirstRejectedAt(classes: seq<ClassDescriptor>, k: int)
  {
    0 <= k < |classes| && RejectedAt(classes, k) &&
    forall j | 0 <= j < k :: !RejectedAt(classes, j)
  }

  predicate Acceptable(classes: seq<ClassDescriptor>)
  {
    forall k | 0 <= k < |classes| :: !RejectedAt(classes, k)
  }

  /** The error raised for a class at which validation stops. */
  function RejectionOf(c: ClassDescriptor): FactoryError
  {
    if !PassesInterfaceCheck(c) then NotACardFilter(c.className) else DuplicateName(c.className)
  }

  method ValidateFilterClasses(classes: seq<ClassDescriptor>) returns (result: Outcome<FactoryError>)
    ensures result.Pass? <==> Acceptable(classes)
    ensures result.Fail? ==>
              exists k :: FirstRejectedAt(classes, k) && result.error == RejectionOf(classes[k])
  {
    var existingNames: seq<string> := [];
    for i := 0 to |classes|
      invariant existingNames == Names(classes[..i])
      invariant forall j | 0 <= j < i :: !RejectedAt(classes, j)
    {
      var c := classes[i];
      if c.interfaces == {} {
        assert FirstRejectedAt(classes, i);
        return Fail(NotACardFilter(c.className));
      }
      if c.name in existingNames {
        assert FirstRejectedAt(classes, i);
        return Fail(DuplicateName(c.className));
      }
      assert Names(classes[..i + 1]) == existingNames + [c.name];
      existingNames := existingNames + [c.name];
    }
    return Pass;
  }

  /** Validation accepts exactly the lists that pass the interface check throughout and have distinct names. */
  lemma AcceptableIff(classes: seq<ClassDescriptor>)
    ensures Acceptable(classes) <==>
              (forall c | c in classes :: PassesInterfaceCheck(c)) && DistinctNames(classes)
  {
    if Acceptable(classes) {
      forall i, j | 0 <= i < j < |classes| ensures classes[i].name != classes[j].name {
        assert Names(classes[..j])[i] == classes[i].name;
        assert !RejectedAt(classes, j);
      }
      forall c | c in classes ensures PassesInterfaceCheck(c) {
        var k :| 0 <= k < |classes| && classes[k] == c;
        assert !RejectedAt(classes, k);
      }
    }
    if (forall c | c in classes :: PassesInterfaceCheck(c)) && DistinctNames(classes) {
      forall k | 0 <= k < |classes| ensures !RejectedAt(classes, k) {
        assert classes[k] in classes;
        forall i | 0 <= i < k ensures Names(classes[..k])[i] != classes[k].name {
          assert Names(classes[..k])[i] == classes[i].name;
        }
      }
    }
  }

  /** When validation stops somewhere, it stops at a first position no later than that. */
  lemma {:induction false} FirstRejectionNoLater(classes: seq<ClassDescriptor>, j: int)
    requires 0 <= j < |classes| && RejectedAt(classes, j)
    ensures exists k :: k <= j && FirstRejectedAt(classes, k)
    decreases j
  {
    if forall k | 0 <= k < j :: !RejectedAt(classes, k) {
      assert FirstRejectedAt(classes, j);
    } else {
      var k :| 0 <= k < j && RejectedAt(classes, k);
      FirstRejectionNoLater(classes, k);
    }
  }

  /**
    Two classes with one name make validation fail wherever they sit, and it
    fails on reaching the second of them at the latest.
   */
  lemma DuplicateNameRejected(classes: seq<ClassDescriptor>, i: int, j: int)
    requires 0 <= i < j < |classes| && classes[i].name == classes[j].name
    ensures !Acceptable(classes)
    ensures exists k :: k <= j && FirstRejectedAt(classes, k)
  {
    assert Names(classes[..j])[i] == classes[i].name;
    assert RejectedAt(classes, j);
    FirstRejectionNoLater(classes, j);
  }

  /** Every discovered class passes the interface check, so only a shared name can make validation fail. */
  lemma DiscoveredAcceptableIffDistinct(classMap: seq<ClassDescriptor>)
    ensures forall c | c in Candidates(classMap) :: PassesInterfaceCheck(c)
    ensures Acceptable(Candidates(classMap)) <==> DistinctNames(Candidates(classMap))
    ensures forall k | 0 <= k < |Candidates(classMap)| ::
              RejectionOf(Candidates(classMap)[k]) == DuplicateName(Candidates(classMap)[k].className)
  {
    CandidatesKeepExactlyFilters(classMap);
    forall c | c in Candidates(classMap) ensures PassesInterfaceCheck(c) {
      assert CardFilterInterface in c.interfaces;
    }
    AcceptableIff(Candidates(classMap));
  }

  /** The filter named `name` in `classes`: the first one, and under distinct names the only one. */
  function FilterNamed(classes: seq<ClassDescriptor>, name: string): Option<ClassDescriptor>
  {
    if classes == [] then None
    else if classes[0].name == name then Some(classes[0])
    else FilterNamed(classes[1..], name)
  }

  lemma {:induction false} FilterNamedFinds(classes: seq<ClassDescriptor>, name: string)
    ensures FilterNamed(classes, name).None? <==> name !in Names(classes)
    ensures FilterNamed(classes, name).Some? ==>
              FilterNamed(classes, name).value in classes && FilterNamed(classes, name).value.name == name
    ensures DistinctNames(classes) ==>
              forall k | 0 <= k < |classes| && classes[k].name == name :: FilterNamed(classes, name) == Some(classes[k])
  {
    if classes != [] {
      FilterNamedFinds(classes[1..], name);
      assert Names(classes) == [classes[0].name] + Names(classes[1..]);
      if DistinctNames(classes) {
        DistinctTail(classes);
        forall k | 0 <= k < |classes| && classes[k].name == name
          ensures FilterNamed(classes, name) == Some(classes[k])
        {
          if k > 0 {
            assert classes[1..][k - 1] == classes[k];
          }
        }
      }
    }
  }

  // ---------------------------------------------------------------------
  // The factory

  class CardFilterFactory {
    var filterClasses: seq<ClassDescriptor>

    /** The stored classes are card filters, strictly ascending by name. */
    ghost predicate Valid()
      reads this
    {
      StrictlySortedByName(filterClasses) && forall c | c in filterClasses :: IsCardFilterClass(c)
    }

    /** Stores an already validated and sorted list. */
    constructor (sorted: seq<ClassDescriptor>)
      requires StrictlySortedByName(sorted)
      requires forall c | c in sorted :: IsCardFilterClass(c)
      ensures filterClasses == sorted && Valid()
    {
      filterClasses := sorted;
    }

    /**
      Builds the factory from a class map: discovery, validation that aborts
      on the first bad class, sorting by name. No factory exists when
      validation fails.
     */
    static method Make(classMap: seq<ClassDescriptor>) returns (r: Result<CardFilterFactory, FactoryError>)
      ensures r.Failure? <==> !DistinctNames(Candidates(classMap))
      ensures r.Failure? ==>
                exists k :: FirstRejectedAt(Candidates(classMap), k) &&
                            r.error == DuplicateName(Candidates(classMap)[k].className)
      ensures r.Success? ==> fresh(r.value) && r.value.Valid()
      ensures r.Success? ==> multiset(r.value.filterClasses) == multiset(Candidates(classMap))
    {
      var availableFilterClasses := DiscoverFilterClasses(classMap);
      DiscoveredAcceptableIffDistinct(classMap);
      var validation := ValidateFilterClasses(availableFilterClasses);
      if validation.Fail? {
        return Failure(validation.error);
      }
      var sorted := SortByName(availableFilterClasses);
      forall c | c in sorted ensures IsCardFilterClass(c) {
        assert c in multiset(availableFilterClasses);
      }
      var factory := new CardFilterFactory(sorted);
      return Success(factory);
    }

    /** The stored filters: card filters, strictly ascending by name, so no name occurs twice. */
    function GetFilterClasses(): (classes: seq<ClassDescriptor>)
      reads this
      requires Valid()
      ensures StrictlySortedByName(classes) && DistinctNames(classes)
      ensures forall c | c in classes :: IsCardFilterClass(c)
    {
      StrictlySortedHasDistinctNames(filterClasses);
      filterClasses
    }

    /**
      One interactive round. The user is offered every stored name in stored
      order and then the back option; `answer` is what the prompt returns.
      Backing out cancels with nothing further done; otherwise the choice is
      announced and the chosen class's `setUp` builds the filter, which is
      returned as it is.
     */
    method InteractiveMake<R>(answer: string, boardId: string, setUp: (string, string) -> R)
      returns (outcome: Selection<R>, interaction: seq<Interaction>)
      requires Valid()
      ensures |interaction| > 0
      ensures interaction[0] == Ask(SelectFilterQuestion, Names(filterClasses) + [BackOption])
      ensures answer == BackOption ==> outcome == Cancelled && |interaction| == 1
      ensures answer != BackOption ==>
                |interaction| > 1 && interaction[1] == WriteLine(ConfigureFilterPrefix + answer)
      ensures answer != BackOption && FilterNamed(filterClasses, answer).Some? ==>
                var chosen := FilterNamed(filterClasses, answer).value;
                outcome == Made(setUp(chosen.className, boardId)) &&
                interaction[1..] == [WriteLine(ConfigureFilterPrefix + answer), SetUpCalled(chosen.className, boardId)]
      ensures answer != BackOption && FilterNamed(filterClasses, answer).None? ==>
                outcome == Failed(UnknownOption(answer)) && |interaction| == 2
    {
      var classes := GetFilterClasses();
      // names are distinct, so the option keys come out as the names in order
      var labels: seq<string> := [];
      var filterOptions: map<string, ClassDescriptor> := map[];
      for i := 0 to |classes|
        invariant labels == Names(classes[..i])
        invariant forall n :: n in filterOptions <==> n in labels
        invariant forall k | 0 <= k < i ::
                    classes[k].name in filterOptions && filterOptions[classes[k].name] == classes[k]
      {
        assert Names(classes[..i + 1]) == labels + [classes[i].name];
        filterOptions := filterOptions[classes[i].name := classes[i]];
        labels := labels + [classes[i].name];
      }
      assert classes[..|classes|] == classes;
      interaction := [Ask(SelectFilterQuestion, labels + [BackOption])];
      if answer == BackOption {
        return Cancelled, interaction;
      }
      interaction := interaction + [WriteLine(ConfigureFilterPrefix + answer)];
      FilterNamedFinds(classes, answer);
      if answer in filterOptions {
        var k :| 0 <= k < |classes| && Names(classes)[k] == answer;
        var filterClass := filterOptions[answer];
        assert filterClass == classes[k];
        outcome := Made(setUp(filterClass.className, boardId));
        interaction := interaction + [SetUpCalled(filterClass.className, boardId)];
      } else {
        outcome := Failed(UnknownOption(answer));
      }
    }
  }
}
