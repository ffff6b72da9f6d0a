# Card-filter factory, modelled in Dafny

This project models `CardFilterFactory`, the part of the Trello tools that
finds the card-filter plug-ins and lets a console user pick one and configure
it for a board.

- **Discovery.** The factory scans a class map. It keeps the classes that are
  not abstract and implement `CardFilterInterface`, in class-map order. The
  class map is an input sequence of `ClassDescriptor` records. Each record holds
  the class name, the value of its static `getName()`, the abstract flag and
  the set of interfaces it implements.
- **Validation.** Validation walks the discovered classes and stops at the
  first bad one. A class is bad when it fails the interface check or reuses a
  name that an earlier class already has.
- **Sorting and storing.** When validation passes, the classes are sorted by
  name and stored in `filterClasses`. The factory object only exists after
  that: `Make` returns either the new factory or the error. The stored list is
  a strictly ascending permutation of the discovered classes. Only one list is
  that (`StrictlySortedPermutationUnique`), so the stored order does not depend
  on how the sort works.
- **Interactive round.** The user is offered every stored name in stored
  order, followed by `<- Back`. The prompt's answer is a parameter. Choosing
  `<- Back` cancels the round and nothing else happens. Any other answer is
  announced as `Configure Filter: <name>`. Then the chosen class's `setUp` is
  called with the same board id, and its result is returned unchanged. `setUp`
  is a function parameter. The round also returns its effects as a list:
  the question asked, the line written and the `setUp` call.

The model follows the code in three places where the code does something
other than what it evidently means:

- The interface check at `CardFilterFactory.php:50` passes
  `CardFilterInterface::class` as the autoload flag of `class_implements`. So it
  only fails for a class that implements no interface at all
  (`PassesInterfaceCheck`). Every discovered class passes it
  (`DiscoveredAcceptableIffDistinct`).
- For a duplicate name, the source builds its error message with the
  undefined method `geName`. Construction still aborts, but with a different
  error. The model keeps only the failure and the class where it was raised
  (`DuplicateName`).
- An answer that matches no filter and is not `<- Back` cannot come back from
  the choice prompt. If it did, the code would first write the
  `Configure Filter:` line and then fail when it looks the class up. The model
  does the same (`Failed(UnknownOption(..))`).

Files: `wrappers.dfy` (result types), `name_order.dfy` (the name order),
`descriptors.dfy` (class records, name predicates, the sort),
`card_filter_factory.dfy` (discovery, validation, the factory class),
`scenarios.dfy` (two worked class maps).

## Model

| member | source | states |
|---|---|---|
| `NameOrder.LessTotal` | src/AppBundle/Helper/CardFilter/CardFilterFactory.php:33-35 | the `<=>` comparison the sort uses orders any two different names one way or the other |
| `Descriptors.SortByName` | src/AppBundle/Helper/CardFilter/CardFilterFactory.php:33-35 | the sorted classes are a permutation of the input, ascending by name, and strictly ascending when the names are distinct |
| `Descriptors.StrictlySortedPermutationUnique` | src/AppBundle/Helper/CardFilter/CardFilterFactory.php:33-36 | two strictly ascending permutations of the same classes are equal, so the stored order is fully determined |
| `CardFilter.CandidatesAppend` | src/AppBundle/Helper/CardFilter/CardFilterFactory.php:101-109 | discovery treats each class-map entry on its own and keeps class-map order: discovering `a + b` gives the discovery of `a` followed by that of `b` |
| `CardFilter.CandidatesKeepExactlyFilters` | src/AppBundle/Helper/CardFilter/CardFilterFactory.php:101-109 | discovery keeps every non-abstract class implementing `CardFilterInterface` as often as it occurs, and drops every other class |
| `CardFilter.DiscoverFilterClasses` | src/AppBundle/Helper/CardFilter/CardFilterFactory.php:99-110 | the scanning loop returns exactly the discovered classes in class-map order; a class is in the result iff it is in the map, concrete and a card filter |
| `CardFilter.ValidateFilterClasses` | src/AppBundle/Helper/CardFilter/CardFilterFactory.php:46-59 | validation passes iff no class is rejected; when it fails, it fails at the first rejected class, with the interface error or the duplicate-name error that class calls for |
| `CardFilter.AcceptableIff` | src/AppBundle/Helper/CardFilter/CardFilterFactory.php:46-59 | no class is rejected iff every class passes the line-50 interface check and all names are pairwise distinct |
| `CardFilter.FirstRejectionNoLater` | src/AppBundle/Helper/CardFilter/CardFilterFactory.php:48-57 | if some class is rejected, validation stops at a first rejected class no later than it |
| `CardFilter.DuplicateNameRejected` | src/AppBundle/Helper/CardFilter/CardFilterFactory.php:48-57 | two classes with the same name, wherever they sit, make validation fail, and it fails on reaching the second of them at the latest |
| `CardFilter.DiscoveredAcceptableIffDistinct` | src/AppBundle/Helper/CardFilter/CardFilterFactory.php:28-29 | every discovered class passes the interface check, so validation of the discovered list fails iff two names coincide, and always with the duplicate-name error |
| `CardFilter.FilterNamedFinds` | src/AppBundle/Helper/CardFilter/CardFilterFactory.php:74-77 | looking a label up finds a class with that name iff the label is one of the names; under distinct names it finds the one class carrying it |
| `CardFilter.CardFilterFactory.constructor` | src/AppBundle/Helper/CardFilter/CardFilterFactory.php:36 | stores the sorted list, which establishes the factory invariant |
| `CardFilter.CardFilterFactory.Make` | src/AppBundle/Helper/CardFilter/CardFilterFactory.php:25-37 | construction fails iff two discovered classes share a name, with the duplicate-name error of the first class where the scan stops, and then no factory exists; otherwise it gives a fresh factory whose stored classes are a permutation of the discovered ones, strictly ascending by name |
| `CardFilter.CardFilterFactory.GetFilterClasses` | src/AppBundle/Helper/CardFilter/CardFilterFactory.php:94-97 | the stored list is made of concrete card filters, strictly ascending by name, with no name twice |
| `CardFilter.CardFilterFactory.InteractiveMake` | src/AppBundle/Helper/CardFilter/CardFilterFactory.php:71-89 | offers the stored names in stored order followed by one `<- Back` (one more choice than filters); `<- Back` cancels with nothing written and no `setUp` called; any other answer writes exactly `Configure Filter: <answer>`, then either calls `setUp` once on the class with that name and the same board id and returns its result unchanged, or fails if no class has that name; the stored list is not modified |
| `Scenarios.ThreeFiltersStoredOrder` | src/AppBundle/Helper/CardFilter/CardFilterFactory.php:28-36 | a factory built from filters named DueDate, Assignee and Label (plus an abstract class) stores Assignee, DueDate, Label in that order |
| `Scenarios.ThreeFiltersMenu` | src/AppBundle/Helper/CardFilter/CardFilterFactory.php:74-78 | that factory offers the choices Assignee, DueDate, Label, `<- Back` |
| `Scenarios.TwoDueDatesRejected` | src/AppBundle/Helper/CardFilter/CardFilterFactory.php:48-57 | two filters both named DueDate make validation stop at the second one with the duplicate-name error |

## Left out

- Scanning the directory with `ClassMapGenerator::createMap` and inspecting classes with `ReflectionClass` (lines 102-104). These are filesystem and reflection calls. The class map is an input sequence of descriptor records instead.
- The console prompt (`ChoiceQuestion`, `QuestionHelper::ask`, lines 78-80). Its answer is a parameter. Its re-prompting on an invalid answer is not modelled. `writeln` (line 86) is recorded as a `WriteLine` entry in the returned interaction list.
- The bodies of each filter's `getName` and `setUp`. They live in other files. `getName()` is the `name` field of a descriptor. `setUp` is an arbitrary function of class name and board id, and its result type is a parameter. Any output or exception of its own is not modelled.
- PHP's numeric comparison of numeric strings in `<=>` (line 34). Names are ordered character by character instead.
- PHP's loose `==` against `<- Back` (line 81) and the loose comparison inside `in_array` (line 54). Both are modelled as exact string equality.
- The conversion of numeric names to integer keys in `$filterOptions` (line 76).
- The text of the exceptions, including the `geName` error at line 55. Only which failure happens, and at which class, is modelled.
- Doctrine's `ArrayCollection`. It is a sequence here.
- `Descriptors.SortByName`: models only what `usort` returns, not PHP's in-place sorting algorithm, which is not part of this model. Which of two equal names comes first is not modelled either. The factory only sorts after validation has ruled out equal names.
- `CardFilter.CardFilterFactory.InteractiveMake`: requires the factory invariant that `Make` establishes. A factory never exists without it.
