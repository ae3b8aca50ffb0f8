# Coding exercises, modelled in Dafny

This project models four small programs from a collection of coding exercises:

- **CoffeeWalkinator.** An office is a grid of desks, walls and coffee machines. A
  breadth-first search finds how many four-way steps separate a desk from the nearest
  coffee machine it can reach without walking through a wall. The answer is `PathError`
  (-1) when no coffee machine is reachable or the input is rejected. The model covers
  `OfficeNode`, `OfficeLayout` (constructor, `FindCoffeeDistance`, `IsCoffeeMachine`,
  `GetNeighbors`, `GetNode`, `GetPopulateNode`, `OutOfBounds`, `RetracePath`), and
  `Program.DistanceToCoffee` with the two test routines `TestDistanceToCoffee` and
  `TestOfficeNode`.
- **TextJustifier.** `Justify` spreads the words of a line over a fixed line length, margin
  to margin. It hands out the spaces that do not divide evenly one at a time from the left.
  The ten checks of `RunTests` are modelled too.
- **PalindromeChecker.** `IsPalindrome` drops every character other than ASCII letters,
  digits and `+`. It then compares the remaining characters from both ends, ignoring case.
  The five checks of `Main` are modelled too.
- **Shipping crate calculator.** `StripExtraDigits` removes the trailing zeros of a
  formatted number, and then a bare decimal point.

## How the model is built

- **Nodes in an arena.** The C# code builds `OfficeNode` objects on the heap, and the
  layout refers to them from several places. The `Origin` property and the grid slot of
  the desk both refer to the same object. A search node's `PreviousNode` refers back to
  another node. The model keeps every node in a sequence (`Layout.nodes`). A reference is
  an index into it (`NodeId`), and a null reference is `None`. The two-dimensional array
  `OfficeMap` becomes a map from 0-based matrix positions to node indices; a missing key
  is a null slot. This keeps the aliasing of the original. For example, when the desk
  coordinates are also listed as a coffee machine, the constructor overwrites the desk's
  slot while `Origin` still refers to the orphaned desk node.
- **Search state as values.** The search's mutable node fields (`State`, `PreviousNode`,
  `Distance`) are updated functionally. `FindCoffeeDistance` returns the layout it leaves
  behind, next to the distance and the retraced path.
- **What the answer means.** The search is specified independently of its code, in module
  `Walks`. A walk is a sequence of in-bounds, non-wall positions starting at the origin,
  one four-way step apart. `NearestCoffee(l, d)` says that `d` is the number of steps of
  a shortest walk that ends at a coffee machine, or `PathError` when there is no such
  walk.
- **The range exception.** The layout constructor indexes its array with the caller's
  coordinates. A coordinate outside the grid throws `IndexOutOfRangeException`.
  `DistanceToCoffee` returns that as the `IndexOutOfRange` outcome.
- **Integers and strings.** C# `int` and JavaScript numbers are modelled as unbounded
  integers. Every division in the justifier has non-negative operands, so C#'s truncating
  division and Dafny's Euclidean division agree. Strings are sequences of Unicode scalar
  values, so a length is a count of characters, not of UTF-16 code units.

## Model

| member | source | states |
|---|---|---|
| OfficeNodes.NewNode | CodingExercises/CoffeeWalkinator/CoffeeWalkinator/OfficeNode.cs:65-76 | a node's 0-based matrix position is its 1-based coordinates shifted by one in each direction |
| OfficeNodes.MatrixRoundTrip | CodingExercises/CoffeeWalkinator/CoffeeWalkinator/OfficeNode.cs:67-69 | converting between coordinates and matrix positions loses nothing, in either direction |
| OfficeNodes.EqualsIsEquivalence | CodingExercises/CoffeeWalkinator/CoffeeWalkinator/OfficeNode.cs:86-101 | node equality is reflexive, symmetric and transitive; it holds exactly when coordinates and location type agree; it is false for null and for objects that are not nodes |
| OfficeNodes.TestOfficeNode | CodingExercises/CoffeeWalkinator/CoffeeWalkinator/Program.cs:276-305 | a node built with default arguments is an unvisited desk, not the origin, at the expected matrix position and with the "unknown" distance; explicit type and origin arguments are kept |
| OfficeLayouts.OutOfBounds | CodingExercises/CoffeeWalkinator/CoffeeWalkinator/OfficeLayout.cs:224-227 | a position is out of bounds exactly when it is not within rows 0..rows-1 and columns 0..columns-1 |
| OfficeLayouts.NeighborsAreAdjacent | CodingExercises/CoffeeWalkinator/CoffeeWalkinator/OfficeLayout.cs:159-170 | the neighbour positions examined are exactly the in-bounds positions one step up, down, left or right |
| OfficeLayouts.PlaceNodesKind | CodingExercises/CoffeeWalkinator/CoffeeWalkinator/OfficeLayout.cs:56-68 | placing a list of nodes of one type gives every listed slot that type and leaves every other slot's type alone |
| OfficeLayouts.NewLayout | CodingExercises/CoffeeWalkinator/CoffeeWalkinator/OfficeLayout.cs:44-69 | the new layout is consistent and unsearched; a slot is occupied exactly when its coordinates are the desk, a coffee machine or a wall; a slot listed as a wall is a wall, otherwise one listed as a coffee machine is one, otherwise it is a desk; the origin is still in its slot exactly when it was not also listed as a coffee machine or wall |
| OfficeLayouts.GetNode | CodingExercises/CoffeeWalkinator/CoffeeWalkinator/OfficeLayout.cs:181-190 | a node is returned exactly when the position is in bounds and its slot is occupied, and it is the node in that slot |
| OfficeLayouts.GetPopulateNode | CodingExercises/CoffeeWalkinator/CoffeeWalkinator/OfficeLayout.cs:201-216 | null exactly when out of bounds, and then nothing changes; an occupied slot's node is returned unchanged; an empty slot gets a new desk at the 1-based coordinates of the position, with exactly that one key added; earlier nodes and slots are kept and consistency is preserved |
| OfficeLayouts.GetPopulateNodeIdempotent | CodingExercises/CoffeeWalkinator/CoffeeWalkinator/OfficeLayout.cs:201-216 | asking for the same position a second time returns the same node and changes nothing |
| OfficeLayouts.AddNeighborsFound | CodingExercises/CoffeeWalkinator/CoffeeWalkinator/OfficeLayout.cs:159-172 | one node is found for each in-bounds candidate position, in order, and each is the node that then occupies that position's slot |
| OfficeLayouts.GetNeighbors | CodingExercises/CoffeeWalkinator/CoffeeWalkinator/OfficeLayout.cs:148-173 | at most four neighbours; none for a node out of bounds; otherwise, in up, left, right, down order, the nodes occupying the in-bounds adjacent slots (empty slots get a new desk); consistency is preserved |
| OfficeLayouts.IsCoffeeMachineAt | CodingExercises/CoffeeWalkinator/CoffeeWalkinator/OfficeLayout.cs:132-141 | on a consistent layout, the coffee test applied to the node looked up at a position succeeds exactly when the position is in bounds and its location kind is Coffee, the same kind a walk must end on; a null lookup is never a coffee machine |
| OfficeLayouts.RetracePath | CodingExercises/CoffeeWalkinator/CoffeeWalkinator/OfficeLayout.cs:233-243 | the retraced path of a reached node has one non-null entry per step plus one, and starts with the node in that node's slot |
| CoffeeSearch.FindCoffeeDistance | CodingExercises/CoffeeWalkinator/CoffeeWalkinator/OfficeLayout.cs:77-125 | on a freshly built layout whose desk is still in its slot, the distance is that of a shortest walk to a coffee machine, or PathError when none is reachable; the walked path then traces such a walk; on any consistent layout the result is PathError or non-negative, the path is empty for PathError and has distance plus one entries otherwise, and the grid keeps its shape |
| Walks.NearestCoffeeUnique | CodingExercises/CoffeeWalkinator/CoffeeWalkinator/OfficeLayout.cs:71-76 | the documented answer (shortest distance or PathError) is determined by the layout alone |
| CoffeeProgram.DistanceToCoffee | CodingExercises/CoffeeWalkinator/CoffeeWalkinator/Program.cs:43-63 | PathError without building a layout when there are no rows, no columns or no coffee machine; the range exception exactly when the input is accepted but a coordinate lies off the grid; otherwise PathError or a non-negative distance, which is the shortest walk's when the desk is neither a coffee machine nor a wall |
| CoffeeProgram.GridALeft | CodingExercises/CoffeeWalkinator/CoffeeWalkinator/Program.cs:131-145 | grid A from the left desk: the nearest reachable coffee machine is 3 steps away |
| CoffeeProgram.GridARight | CodingExercises/CoffeeWalkinator/CoffeeWalkinator/Program.cs:131-145 | grid A from the right desk: 2 steps |
| CoffeeProgram.GridB | CodingExercises/CoffeeWalkinator/CoffeeWalkinator/Program.cs:147-161 | grid B: the walls enclose the desk, so no coffee machine is reachable |
| CoffeeProgram.GridC | CodingExercises/CoffeeWalkinator/CoffeeWalkinator/Program.cs:163-175 | grid C: 2 steps |
| CoffeeProgram.GridD | CodingExercises/CoffeeWalkinator/CoffeeWalkinator/Program.cs:177-189 | grid D: the only coffee machine lies at the end of an 8-step corridor |
| CoffeeProgram.GridE | CodingExercises/CoffeeWalkinator/CoffeeWalkinator/Program.cs:191-198 | grid E, with no walls: 3 steps |
| CoffeeProgram.GridF | CodingExercises/CoffeeWalkinator/CoffeeWalkinator/Program.cs:200-216 | grid F: the coffee machine's slot is overwritten by a wall, so none is reachable |
| CoffeeProgram.GridGLeft | CodingExercises/CoffeeWalkinator/CoffeeWalkinator/Program.cs:218-227 | grid G from the left desk: 3 steps |
| CoffeeProgram.GridGRight | CodingExercises/CoffeeWalkinator/CoffeeWalkinator/Program.cs:218-227 | grid G from the right desk: 2 steps |
| CoffeeProgram.TestInvalidInputs | CodingExercises/CoffeeWalkinator/CoffeeWalkinator/Program.cs:229-236 | zero rows, zero columns and an empty coffee list each give PathError |
| CoffeeProgram.TestGridsAToC | CodingExercises/CoffeeWalkinator/CoffeeWalkinator/Program.cs:238-251 | grids A (both desks), B and C give 3, 2, PathError and 2 |
| CoffeeProgram.TestGridsDAndE | CodingExercises/CoffeeWalkinator/CoffeeWalkinator/Program.cs:253-259 | grids D and E give 8 and 3 |
| CoffeeProgram.TestGridsFAndG | CodingExercises/CoffeeWalkinator/CoffeeWalkinator/Program.cs:261-270 | grids F and G (both desks) give PathError, 3 and 2 |
| CoffeeProgram.TestDistanceToCoffee | CodingExercises/CoffeeWalkinator/CoffeeWalkinator/Program.cs:119-271 | all twelve calls of the test return the results the test expects |
| TextJustifier.Words | CodingExercises/Justification/TextJustifier/Program.cs:46 | splitting on spaces and dropping empty entries yields only non-empty, space-free words |
| TextJustifier.WordsAfterSpaces | CodingExercises/Justification/TextJustifier/Program.cs:46 | leading spaces produce no words |
| TextJustifier.WordsAfterWord | CodingExercises/Justification/TextJustifier/Program.cs:46 | a word followed by the end or by a space is the first entry of the split |
| TextJustifier.WordsOfInterleave | CodingExercises/Justification/TextJustifier/Program.cs:46 | splitting words joined by runs of at least one space gives back exactly those words |
| TextJustifier.WordsFit | CodingExercises/Justification/TextJustifier/Program.cs:56-65 | the words of a line with one space between neighbours fit in it, so every gap gets at least one space |
| TextJustifier.PadRight | CodingExercises/Justification/TextJustifier/Program.cs:78-87 | padding keeps the text and fills up to the requested width with spaces, and never shortens |
| TextJustifier.JustifiedShape | CodingExercises/Justification/TextJustifier/Program.cs:34-90 | a line that is too long, or has fewer than two words, is returned unchanged; otherwise the result is exactly the line length, has the same words in the same order, and separates them by gaps of at least one space that differ by at most one, wider gaps first |
| TextJustifier.JustifiedGaps | CodingExercises/Justification/TextJustifier/Program.cs:56-87 | the gaps used add up to the line length minus the words' total length, are at least one space each and are wider first |
| TextJustifier.JustifiedSpread | CodingExercises/Justification/TextJustifier/Program.cs:65-87 | however a line's words are spaced, they are justified with the quotient of the spare spaces by the gaps, plus one extra space for the first remainder-many gaps |
| TextJustifier.JustifiedIdempotent | CodingExercises/Justification/TextJustifier/Program.cs:34-90 | justifying an already justified line changes nothing |
| TextJustifier.Justify | CodingExercises/Justification/TextJustifier/Program.cs:34-90 | the step-by-step computation produces the justified line as defined above |
| TextJustifier.Test01 | CodingExercises/Justification/TextJustifier/Program.cs:103-107 | a single word is returned unchanged |
| TextJustifier.Test02 | CodingExercises/Justification/TextJustifier/Program.cs:109-113 | two words end at the two margins, 44 spaces apart |
| TextJustifier.Test03 | CodingExercises/Justification/TextJustifier/Program.cs:115-119 | three words are separated by two gaps of 19 spaces |
| TextJustifier.Test04 | CodingExercises/Justification/TextJustifier/Program.cs:121-125 | four words are separated by three gaps of 11 spaces |
| TextJustifier.Test05 | CodingExercises/Justification/TextJustifier/Program.cs:127-131 | a single-spaced line of exactly the line length comes back unchanged |
| TextJustifier.Test06 | CodingExercises/Justification/TextJustifier/Program.cs:133-137 | a 62-character line, longer than the line length, comes back unchanged |
| TextJustifier.Test07 | CodingExercises/Justification/TextJustifier/Program.cs:139-143 | an oddly spaced line is respaced into six gaps, four spaces in the first and three in the rest |
| TextJustifier.Test08 | CodingExercises/Justification/TextJustifier/Program.cs:145-149 | a line of ten spaces has no words and comes back unchanged |
| TextJustifier.Test09 | CodingExercises/Justification/TextJustifier/Program.cs:151-155 | nine words are separated by eight gaps of two spaces |
| TextJustifier.Test10 | CodingExercises/Justification/TextJustifier/Program.cs:157-161 | with one more letter, seven gaps of two spaces are followed by one of one space |
| PalindromeChecker.CondenseAppend | CodingExercises/Palendrome/PalindromeChecker/Program.cs:41 | dropping the unmatched characters distributes over concatenation |
| PalindromeChecker.CondenseContents | CodingExercises/Palendrome/PalindromeChecker/Program.cs:41 | a character survives condensing exactly when it is an ASCII letter, digit or '+' that occurs in the input |
| PalindromeChecker.CondenseOnlyKept | CodingExercises/Palendrome/PalindromeChecker/Program.cs:41 | a condensed string holds only ASCII letters, digits and '+' |
| PalindromeChecker.CondenseIdempotent | CodingExercises/Palendrome/PalindromeChecker/Program.cs:41 | condensing a condensed string changes nothing |
| PalindromeChecker.ToUpperEqual | CodingExercises/Palendrome/PalindromeChecker/Program.cs:56 | on ASCII input, two characters compare equal after upper-casing exactly when they are the same character or one is the small letter whose capital is the other; upper-casing leaves no small letter and applying it twice changes nothing |
| PalindromeChecker.HalfSuffices | CodingExercises/Palendrome/PalindromeChecker/Program.cs:43-51 | comparing only the positions before the midpoint with their mirror positions decides the whole string, both ways |
| PalindromeChecker.MatchesMirrored | CodingExercises/Palendrome/PalindromeChecker/Program.cs:51-63 | the loop's comparisons, stopping at the first mismatch, succeed exactly when the string reads the same backwards, ignoring case |
| PalindromeChecker.IsPalindrome | CodingExercises/Palendrome/PalindromeChecker/Program.cs:35-64 | true exactly when the input, with every character other than ASCII letters, digits and '+' removed, reads the same backwards as forwards, ignoring case |
| PalindromeChecker.Check | CodingExercises/Palendrome/PalindromeChecker/Program.cs:24-27 | the check passes exactly when the palindrome answer is the expected one |
| PalindromeChecker.ShortIsPalindrome | CodingExercises/Palendrome/PalindromeChecker/Program.cs:47-50 | a string that condenses to at most one character is a palindrome |
| PalindromeChecker.IgnoresDropped | CodingExercises/Palendrome/PalindromeChecker/Program.cs:30-41 | inserting a space or any other dropped character anywhere does not change the answer |
| PalindromeChecker.IgnoresCase | CodingExercises/Palendrome/PalindromeChecker/Program.cs:30-56 | turning a small letter into its capital does not change the answer |
| PalindromeMain.CondenseSentence | CodingExercises/Palendrome/PalindromeChecker/Program.cs:41 | words of kept characters joined by single spaces condense to the words run together |
| PalindromeMain.PalindromicSentence | CodingExercises/Palendrome/PalindromeChecker/Program.cs:35-64 | such a sentence is a palindrome exactly when its words, run together, read the same backwards |
| PalindromeMain.CheckAbcba | CodingExercises/Palendrome/PalindromeChecker/Program.cs:10 | "abcba" is a palindrome |
| PalindromeMain.CheckAbcde | CodingExercises/Palendrome/PalindromeChecker/Program.cs:11 | "abcde" is not |
| PalindromeMain.CheckMrOwl | CodingExercises/Palendrome/PalindromeChecker/Program.cs:12 | "Mr owl ate my metal worm" is a palindrome |
| PalindromeMain.CheckNeverOddOrEven | CodingExercises/Palendrome/PalindromeChecker/Program.cs:13 | "Never Odd Or Even" is a palindrome |
| PalindromeMain.CheckNeverEvenOrOdd | CodingExercises/Palendrome/PalindromeChecker/Program.cs:14 | "Never Even Or Odd" is not |
| PalindromeMain.RunChecks | CodingExercises/Palendrome/PalindromeChecker/Program.cs:8-17 | all five checks of Main pass |
| CrateCalculator.StripExtraDigits | WebCoding/ShippingCateCalculator/public_html/calculator.js:267-287 | the result is the input with a trailing run of zeros removed, or a point plus such a run; when only zeros go, all of them go, and the result does not end in a point |
| CrateCalculator.StrippedUnique | WebCoding/ShippingCateCalculator/public_html/calculator.js:270-287 | there is only one stripped form of a string, so that description pins the result down |
| CrateCalculator.StrippedUnchanged | WebCoding/ShippingCateCalculator/public_html/calculator.js:275-284 | a string that ends in neither a zero nor a point comes back unchanged |
| CrateCalculator.StripExamples | WebCoding/ShippingCateCalculator/public_html/calculator.js:267-269 | 3.750 becomes 3.75 and 12.000 becomes 12 |

## Left out

- Console output is left out: `PrintOfficeLayoutGrid`, `PrintOptimalPath`, `PrintTestResult`, `WriteResult`, the `Main` methods' printing and `Console.ReadKey`, and the messages printed by `RunTests` and `Check`. The test routines return their results instead.
- `OfficeNode.GetHashCode` is left out. Nothing in the modelled code puts nodes in a hashed collection.
- The `OfficeMap == null` test at the start of `FindCoffeeDistance` is left out: the constructor always allocates the map, so the test never succeeds.
- The node's `Neighbors` list is left out. The constructor only initialises it to an empty list, and the search uses the list returned by `GetNeighbors` instead.
- PalindromeChecker.IsPalindrome: the model assumes ASCII input and the invariant culture. .NET's case-insensitive pattern also keeps non-ASCII letters that case-fold onto a-z, such as the Kelvin sign U+212A, which `char.ToUpper` leaves unchanged; on such input the C# answer can differ (C# rejects "\u212Ak" as a palindrome, the model accepts it). Culture-specific casing, such as the Turkish dotless i, is not modelled either.
- Integer overflow is left out. Distances are bounded by the grid size, and the `int.MaxValue` starting distance is never read before it is overwritten.
- Only `StripExtraDigits` is modelled from the crate calculator. The form handling, floating-point arithmetic and `toFixed` formatting are left out, and the input is taken to be the string `digits.toString()` yields.
- Inputs to `StripExtraDigits` without a decimal point are modelled as the code treats them: trailing zeros of the integer part are removed too ("100" becomes "1"). The comment at calculator.js:267-269 does not cover that case, and every caller passes `toFixed(1)` or `toFixed(3)` output, which always contains a point.
- CoffeeSearch.FindCoffeeDistance: the shortest-walk guarantee is stated only for a freshly built layout whose desk node is still in its slot. When the desk coordinates are also listed as a coffee machine or a wall, the constructor overwrites the desk's slot, and the search then starts from an orphaned node. The contract states only the safety properties for that case.
- CoffeeProgram.DistanceToCoffee: the shortest-walk guarantee is stated only when the desk is neither a coffee machine nor a wall, for the same reason.
- TextJustifier.Justify: lengths are counted in Unicode scalar values, while C#'s `string.Length` counts UTF-16 code units. On text with characters outside the Basic Multilingual Plane the results differ: C# leaves "a " followed by an emoji unchanged at line length 4, and the model widens its gap to two spaces. The same holds for the length promised by `TextJustifier.JustifiedShape`.
- The expected strings of the justifier tests are stated as word lists joined by runs of spaces (`Interleave`), not as character literals. The test inputs are written the same way.
