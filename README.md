# Regular expression to deterministic automaton, modelled in Dafny

The program ExpresieRegulata-AFD reads a regular expression and builds a finite
automaton from it. It has two parts.

The first part rewrites the expression:
- `addPlusBetweenChars` writes an explicit `+` wherever two operands are juxtaposed;
- `toPolishNotation` turns the result into postfix order with an operator stack.

The second part is the class `DeterministicFiniteAutomaton`. It holds five fields:
- the states;
- the alphabet;
- a transition map keyed by (state, symbol), where the symbol `'\0'` stands for lambda;
- the initial state;
- the final states.

The class offers these operations:
- `VerifyAutomaton` checks that the automaton is well formed.
- `CheckWord` runs a word through the automaton.
- `calculateLambdaClosure` is a breadth-first search along lambda transitions.
- `generateStateName` names a set of states `{a,b,...}`.
- `convertToDFA` is the subset construction over lambda closures.
- The free function `buildLambdaNFA` builds a two-state fragment for every letter of a postfix expression. It returns the last fragment.

The model has these modules:

- **PolishForm** (`PolishForm.dfy`): the expression rewriting.
  - The operator predicates are pure functions.
  - `HandleOperator`, `ToPolishNotation` and `AddPlusBetweenChars` are methods with loops. Each is proved equal to a specification function: `Scan`/`PolishNotation` and `WithPluses`.
  - The properties are proved about those functions. Operands come out unchanged and in order. The operator multiset is kept. Rejection happens exactly on a rejected character. The plus insertion is idempotent.
- **Automaton** (`Automaton.dfy`): the class `DeterministicFiniteAutomaton`, with the five fields.
  - The methods have no `modifies` clause, since every modelled member is `const`.
  - Runs, lambda closures, composite moves and the subset construction are stated as functions over the parts, with their lemmas.
  - `ConvertToDFA` returns a fresh automaton. Its correctness is proved: it is well formed, its states are exactly the names of the recorded composites, which are exactly the composites reachable from the initial closure, the count is bounded by 2^|U| (2^|Q| for a well-formed automaton, whose U is its state set Q), and, when no state name is empty or contains a comma, its language equals the subset run's. Here U is the set of states a composite can hold: the states plus every transition target.
- **StateNames**: `generateStateName`'s output, and when names of different sets collide.
- **StringOrder**: the `std::string` ordering in which a `std::set` is iterated.
- **Subsets**: the 2^n bound on families of subsets.
- **CharClass**: the ASCII character classes.
- **Wrappers**: `Option`.

Choices in the model:
- The transition map is a Dafny `map`, so each (state, symbol) key has one target, as with `std::map`. The `equal_range` loops in the source therefore visit at most one entry.
- Strings are `seq<char>`, and `std::isalpha`/`std::isalnum` are taken in the "C" locale (ASCII letters and digits).
- Iterating a `std::set<std::string>` is modelled by the ascending listing `Ascending` wherever the order shows in the result, which is `generateStateName`.
- Where the order cannot change the result, the model picks an arbitrary element with `:|`. These places are finality tests, validity checks, unions and closure tables.
- The alphabet loop of `convertToDFA` takes the least remaining symbol each time.

## Model

| member | source | states |
|---|---|---|
| PolishForm.IsOperator | ExpresieRegulata-AFD/PolishForm.cpp:5-8 | exactly `+ - * /` are operators, those with a positive precedence |
| PolishForm.IsBinaryOperator | ExpresieRegulata-AFD/PolishForm.cpp:10-13 | only `+` and `/` are binary; every binary operator is an operator, and `-` and `*` are not binary |
| PolishForm.IsHigherPrecedence | ExpresieRegulata-AFD/PolishForm.cpp:15-22 | true exactly when op1 is `*` or `/` and op2 is `+` or `-` (op1 in the upper class, op2 in the lower); never true between operators of equal precedence |
| PolishForm.StopPoint | ExpresieRegulata-AFD/PolishForm.cpp:26 | the index where handleOperator's popping stops: everything above it may be popped, and the entry just below it may not |
| PolishForm.HandleOperator | ExpresieRegulata-AFD/PolishForm.cpp:24-32 | the new stack is the old one cut at the stop point with op pushed; the popped entries are appended to the output top first; nothing below the stop point changes |
| PolishForm.OpenIndex | ExpresieRegulata-AFD/PolishForm.cpp:58 | the position of the topmost `(` on the stack, or -1 when there is none; no `(` lies above it |
| PolishForm.CloseParenthesis | ExpresieRegulata-AFD/PolishForm.cpp:56-67 | the `)` case: pops onto the output down to the topmost `(`, which is discarded, or empties the stack when there is none |
| PolishForm.FlushStack | ExpresieRegulata-AFD/PolishForm.cpp:79-83 | the final flush appends every stack entry to the output, top first |
| PolishForm.ToPolishNotation | ExpresieRegulata-AFD/PolishForm.cpp:34-86 | the method's result equals the specification function PolishNotation, which scans left to right and yields "" once an invalid character is met |
| PolishForm.ScanNext | ExpresieRegulata-AFD/PolishForm.cpp:39-77 | reading one more character applies one step of the loop body to the state reached so far |
| PolishForm.ScanFailureSticks | ExpresieRegulata-AFD/PolishForm.cpp:72-76 | once a prefix has failed, the whole input fails: the early return |
| PolishForm.ScanFailsIffRejected | ExpresieRegulata-AFD/PolishForm.cpp:43-76 | the conversion fails exactly when some character is neither a space, a letter or digit, `(`, `)` nor an operator; both directions |
| PolishForm.RejectedGivesEmpty | ExpresieRegulata-AFD/PolishForm.cpp:72-76 | any rejected character anywhere, including `\|` and `.`, makes the result the empty string |
| PolishForm.ScanKeepsInvariant | ExpresieRegulata-AFD/PolishForm.cpp:39-77 | on accepted input every prefix keeps the loop invariant: the operands and the operator multiset are kept between output and stack, the stack holds only operators and `(`, and the number of `(` on it equals the unmatched depth |
| PolishForm.StepInvariant | ExpresieRegulata-AFD/PolishForm.cpp:43-71 | each branch of the loop body (space, operand, `(`, `)`, operator) preserves that invariant |
| PolishForm.CloseGroupInvariant | ExpresieRegulata-AFD/PolishForm.cpp:56-67 | the `)` branch preserves the invariant, with the depth dropping by one when a `(` is matched and staying at 0 otherwise |
| PolishForm.PushOperatorInvariant | ExpresieRegulata-AFD/PolishForm.cpp:68-71 | the operator branch preserves the invariant |
| PolishForm.OperandInvariant | ExpresieRegulata-AFD/PolishForm.cpp:48-51 | a letter or digit goes straight to the output, and the invariant is kept |
| PolishForm.OpenInvariant | ExpresieRegulata-AFD/PolishForm.cpp:52-55 | a `(` is pushed, raising the depth by one |
| PolishForm.SpaceInvariant | ExpresieRegulata-AFD/PolishForm.cpp:43-46 | a space changes nothing |
| PolishForm.CloseGroupCounts | ExpresieRegulata-AFD/PolishForm.cpp:56-67 | the `)` branch moves operators from the stack to the output without losing or adding any, and removes at most one `(` |
| PolishForm.PushOperatorCounts | ExpresieRegulata-AFD/PolishForm.cpp:24-32 | handleOperator moves operators between stack and output without loss, adds op once, and leaves the `(` count unchanged |
| PolishForm.PoppedShaped | ExpresieRegulata-AFD/PolishForm.cpp:26 | what handleOperator pops holds operators only and no `(` |
| PolishForm.PolishNotationCorrect | ExpresieRegulata-AFD/PolishForm.cpp:34-86 | on accepted input, the output has the input's operands in the same order and the same multiset of operators; it holds no space and no `)`; and it holds exactly as many `(` as were left unmatched |
| PolishForm.FlushOperands | ExpresieRegulata-AFD/PolishForm.cpp:79-83 | the final flush adds no operand |
| PolishForm.FlushOperators | ExpresieRegulata-AFD/PolishForm.cpp:79-83 | after the final flush the output's operator multiset is the input's |
| PolishForm.FlushOpens | ExpresieRegulata-AFD/PolishForm.cpp:79-83 | the flush emits the unmatched `(`, and the output had none before it |
| PolishForm.FlushShape | ExpresieRegulata-AFD/PolishForm.cpp:79-83 | after the flush the output holds only operands, operators and `(` |
| PolishForm.DepthNext | ExpresieRegulata-AFD/PolishForm.cpp:52-67 | the unmatched-parenthesis depth goes up on `(`, down on `)` (never below 0), and is unchanged otherwise |
| PolishForm.Reverse | ExpresieRegulata-AFD/PolishForm.cpp:79-83 | popping a stack to exhaustion emits its entries in reverse order, element by element |
| PolishForm.OperatorBagReverse | ExpresieRegulata-AFD/PolishForm.cpp:79-83 | the reversed stack holds the same operators |
| PolishForm.MovedOperands | ExpresieRegulata-AFD/PolishForm.cpp:58-62 | emitting stack entries adds no operand |
| PolishForm.MovedOperators | ExpresieRegulata-AFD/PolishForm.cpp:58-62 | emitting stack entries adds exactly their operators |
| PolishForm.AddPlusBetweenChars | ExpresieRegulata-AFD/PolishForm.cpp:88-111 | the method's result equals WithPluses: every character is copied, and a `+` is written before a letter or `(` that follows a letter, `)` or `*` |
| PolishForm.WithPlusesLength | ExpresieRegulata-AFD/PolishForm.cpp:88-111 | the output is longer than the input by exactly the number of positions that trigger an insertion |
| PolishForm.WithPlusesPlacement | ExpresieRegulata-AFD/PolishForm.cpp:94-108 | every input character appears, in order, at its position shifted by the insertions so far; before it stands the inserted `+` when it triggers, and the previous input character otherwise; nothing is inserted before the first character |
| PolishForm.WithPlusesIdentity | ExpresieRegulata-AFD/PolishForm.cpp:88-111 | an input with no juxtaposed operands is returned unchanged |
| PolishForm.WithPlusesSaturates | ExpresieRegulata-AFD/PolishForm.cpp:88-111 | the output has no juxtaposed operands left |
| PolishForm.WithPlusesIdempotent | ExpresieRegulata-AFD/PolishForm.cpp:88-111 | applying addPlusBetweenChars twice gives the same result as once |
| Automaton.DeterministicFiniteAutomaton.constructor | ExpresieRegulata-AFD/DeterministicFiniteAutomaton.cpp:3-7 | the five fields are stored as given |
| Automaton.DeterministicFiniteAutomaton.VerifyAutomaton | ExpresieRegulata-AFD/DeterministicFiniteAutomaton.cpp:9-38 | true exactly when the initial state is a state, every final state is a state, and every transition goes from a state, on an alphabet symbol, to a state |
| Automaton.UniverseOfValid | ExpresieRegulata-AFD/DeterministicFiniteAutomaton.cpp:24-35 | in an automaton that passes VerifyAutomaton, every transition target is already a state |
| Automaton.DeterministicFiniteAutomaton.CheckWord | ExpresieRegulata-AFD/DeterministicFiniteAutomaton.cpp:67-88 | true exactly when the run consumes the whole word (each symbol in the alphabet and each step defined) and stops in a final state |
| Automaton.RunNext | ExpresieRegulata-AFD/DeterministicFiniteAutomaton.cpp:70-84 | one more symbol takes one transition, or fails when the symbol is outside the alphabet or has no transition |
| Automaton.RunFailureSticks | ExpresieRegulata-AFD/DeterministicFiniteAutomaton.cpp:71-81 | a failure on a prefix is a failure of the whole word: the early returns |
| Automaton.RunAppend | ExpresieRegulata-AFD/DeterministicFiniteAutomaton.cpp:67-88 | reading u and then v is reading u + v |
| Automaton.OutsideAlphabetFails | ExpresieRegulata-AFD/DeterministicFiniteAutomaton.cpp:71-74 | a symbol outside the alphabet anywhere in the word rejects it |
| Automaton.RunStaysInStates | ExpresieRegulata-AFD/DeterministicFiniteAutomaton.cpp:67-88 | in a valid automaton a run from a state ends in a state |
| Automaton.DeterministicFiniteAutomaton.CalculateLambdaClosure | ExpresieRegulata-AFD/DeterministicFiniteAutomaton.cpp:203-225 | the search returns exactly the set of states reachable from the state by lambda transitions, the state itself included |
| Automaton.LambdaClosure | ExpresieRegulata-AFD/DeterministicFiniteAutomaton.cpp:203-225 | the closure lies within the start state and the transition targets |
| Automaton.ClosureHasStart | ExpresieRegulata-AFD/DeterministicFiniteAutomaton.cpp:207 | the closure contains its start state |
| Automaton.ClosureClosed | ExpresieRegulata-AFD/DeterministicFiniteAutomaton.cpp:214-221 | the closure is closed under lambda transitions |
| Automaton.ClosureLeast | ExpresieRegulata-AFD/DeterministicFiniteAutomaton.cpp:203-225 | the closure is contained in every lambda-closed set holding the start state, so it is the least such set |
| Automaton.DeterministicFiniteAutomaton.GenerateStateName | ExpresieRegulata-AFD/DeterministicFiniteAutomaton.cpp:228-236 | the name is `{`, the members in ascending order with a comma before each one written after something, and `}` |
| StateNames.StateNameIsJoin | ExpresieRegulata-AFD/DeterministicFiniteAutomaton.cpp:228-236 | the name is `{` + the non-empty members joined by single commas in ascending order + `}`; the empty set is named `{}` |
| StateNames.EmptyMemberInvisible | ExpresieRegulata-AFD/DeterministicFiniteAutomaton.cpp:231 | a member named "" leaves no trace in the name, so S with "" and S without it are named alike |
| StateNames.StateNameInjective | ExpresieRegulata-AFD/DeterministicFiniteAutomaton.cpp:228-236 | sets of non-empty, comma-free names receive different names |
| StateNames.JoinInjective | ExpresieRegulata-AFD/DeterministicFiniteAutomaton.cpp:230-233 | lists of such names are told apart by their comma-joined form |
| StateNames.NamingStep | ExpresieRegulata-AFD/DeterministicFiniteAutomaton.cpp:230-233 | one round of the naming loop appends the least pending name, with a comma only when something was written already |
| StringOrder.AscendingElements | ExpresieRegulata-AFD/DeterministicFiniteAutomaton.cpp:230 | the iteration of a set lists each of its elements once and nothing else |
| StringOrder.AscendingSorted | ExpresieRegulata-AFD/DeterministicFiniteAutomaton.cpp:230 | the iteration is strictly ascending in std::string's order |
| StringOrder.LessTotal | ExpresieRegulata-AFD/DeterministicFiniteAutomaton.cpp:230 | that order is total on different strings (with LessIrreflexive and LessTransitive, a strict total order) |
| StringOrder.LessTransitive | ExpresieRegulata-AFD/DeterministicFiniteAutomaton.cpp:230 | that order is transitive |
| StringOrder.LessIrreflexive | ExpresieRegulata-AFD/DeterministicFiniteAutomaton.cpp:230 | that order is irreflexive |
| StringOrder.AscendingEmptyFirst | ExpresieRegulata-AFD/DeterministicFiniteAutomaton.cpp:230-232 | the empty name, when present, is iterated first |
| Automaton.DeterministicFiniteAutomaton.IntersectsFinal | ExpresieRegulata-AFD/DeterministicFiniteAutomaton.cpp:146-151 | true exactly when the composite holds some final state |
| Automaton.DeterministicFiniteAutomaton.ClosureTableOf | ExpresieRegulata-AFD/DeterministicFiniteAutomaton.cpp:133-136 | the table has exactly the states as keys, each mapped to its lambda closure |
| Automaton.DeterministicFiniteAutomaton.MoveOf | ExpresieRegulata-AFD/DeterministicFiniteAutomaton.cpp:161-170 | the union over the composite's members of the closure of their transition target on the symbol, where a target outside the table yields the empty set |
| Automaton.MoveAdd | ExpresieRegulata-AFD/DeterministicFiniteAutomaton.cpp:163-170 | one more member adds the closure of its successor, if it has one |
| Automaton.MoveWithin | ExpresieRegulata-AFD/DeterministicFiniteAutomaton.cpp:161-170 | a move only holds states and transition targets |
| Automaton.DeterministicFiniteAutomaton.RecordComposite | ExpresieRegulata-AFD/DeterministicFiniteAutomaton.cpp:174-188 | a composite seen for the first time is named by generateStateName, mapped, queued at the back, added to the states, and made final when it holds a final state; the worklist invariant is kept |
| Automaton.RecordNew | ExpresieRegulata-AFD/DeterministicFiniteAutomaton.cpp:174-188 | recording a new composite keeps the worklist invariant |
| Automaton.RecordStep | ExpresieRegulata-AFD/DeterministicFiniteAutomaton.cpp:189-194 | writing the transition to a recorded target keeps the invariant and marks that symbol done for the composite |
| Automaton.ReachableStart | ExpresieRegulata-AFD/DeterministicFiniteAutomaton.cpp:139-143 | the initial closure is reachable from itself, by the empty word |
| Automaton.ReachableMove | ExpresieRegulata-AFD/DeterministicFiniteAutomaton.cpp:160-179 | the non-empty move of a reachable composite on an alphabet symbol is reachable, by one more symbol |
| Automaton.AllReachableAdd | ExpresieRegulata-AFD/DeterministicFiniteAutomaton.cpp:177 | mapping one more reachable composite keeps every mapped composite reachable |
| Automaton.TraceRecorded | ExpresieRegulata-AFD/DeterministicFiniteAutomaton.cpp:154-197 | once the initial closure is mapped and every mapped composite is expanded on every symbol, every composite a trace reaches is mapped |
| Automaton.RecordedIffReachable | ExpresieRegulata-AFD/DeterministicFiniteAutomaton.cpp:154-197 | at the end of the construction a composite is mapped exactly when it is reachable from the initial closure; both directions |
| Automaton.SuccessorsAdd | ExpresieRegulata-AFD/DeterministicFiniteAutomaton.cpp:160-196 | one more symbol adds its non-empty move to the successors and its key to the written keys, and nothing else |
| Automaton.QueueStep | ExpresieRegulata-AFD/DeterministicFiniteAutomaton.cpp:174-179 | after one symbol the queue still starts with what it held before the loop, and its new tail holds exactly the composites mapped since |
| Automaton.EdgesStep | ExpresieRegulata-AFD/DeterministicFiniteAutomaton.cpp:172-195 | after one symbol the transitions written for the composite are exactly those of the symbols done, each to the name of its move, and no other transition changed |
| Automaton.ExpandedOnStep | ExpresieRegulata-AFD/DeterministicFiniteAutomaton.cpp:160-196 | handling one more symbol exactly as the loop body does extends the exact effect of the symbols done to that symbol |
| Automaton.ExpandedOnStart | ExpresieRegulata-AFD/DeterministicFiniteAutomaton.cpp:159-160 | before the first symbol the loop has changed nothing |
| Automaton.ExpandedOnExpanded | ExpresieRegulata-AFD/DeterministicFiniteAutomaton.cpp:160-196 | after the symbols of S, the composite is expanded on each of them |
| Automaton.AlphabetLoopStart | ExpresieRegulata-AFD/DeterministicFiniteAutomaton.cpp:159-160 | the invariant of the loop over the alphabet holds before its first round |
| Automaton.AlphabetLoopEnd | ExpresieRegulata-AFD/DeterministicFiniteAutomaton.cpp:196 | after the loop over the alphabet: its exact effect, the worklist invariant, reachability, growth, and the composite expanded on every symbol done |
| Automaton.DeterministicFiniteAutomaton.ExpandSymbol | ExpresieRegulata-AFD/DeterministicFiniteAutomaton.cpp:161-195 | after one symbol with move X: if X is non-empty and not yet mapped, it is mapped to its generated name and queued at the back, else the mapping and queue are unchanged; if X is non-empty the transition of the composite's name on the symbol is written to X's name, else the transitions are unchanged; the worklist invariant and reachability of every mapped composite are kept |
| Automaton.DeterministicFiniteAutomaton.ExpandRound | ExpresieRegulata-AFD/DeterministicFiniteAutomaton.cpp:160-196 | one round of the symbol loop takes one pending symbol to the done ones and keeps the loop's invariant |
| Automaton.DeterministicFiniteAutomaton.ExpandComposite | ExpresieRegulata-AFD/DeterministicFiniteAutomaton.cpp:160-196 | after the symbol loop: the mapping gains exactly the non-empty moves of the composite, the queue gains exactly the newly mapped composites behind its old contents, exactly the composite's transitions on symbols with a non-empty move are written, each to the name of that move, and every other transition is unchanged; the worklist invariant and reachability are kept and the composite is expanded on every symbol |
| Automaton.DeterministicFiniteAutomaton.ExpandNext | ExpresieRegulata-AFD/DeterministicFiniteAutomaton.cpp:155-196 | one round of the outer loop keeps its invariant, keeps the count within 2^\|U\|, and either maps a new composite or shortens the queue |
| Automaton.DeterministicFiniteAutomaton.ExpandAll | ExpresieRegulata-AFD/DeterministicFiniteAutomaton.cpp:154-197 | when the queue is empty, every recorded composite is expanded on every symbol and is still reachable from the initial closure; the loop ran once per composite that was queued at the start or recorded during it |
| Automaton.DequeueStep | ExpresieRegulata-AFD/DeterministicFiniteAutomaton.cpp:154-157 | composites no longer queued stay expanded once the front one is done |
| Automaton.GrowsTransitive | ExpresieRegulata-AFD/DeterministicFiniteAutomaton.cpp:154-197 | the mapping and the transitions only grow between rounds, and the names already given never change |
| Automaton.WorklistValid | ExpresieRegulata-AFD/DeterministicFiniteAutomaton.cpp:199 | the parts recorded at any moment form an automaton that passes VerifyAutomaton |
| Automaton.RecordedSound | ExpresieRegulata-AFD/DeterministicFiniteAutomaton.cpp:194 | every recorded transition is on an alphabet symbol and leads from a composite's name to the name of its move |
| Automaton.ExactTransitions | ExpresieRegulata-AFD/DeterministicFiniteAutomaton.cpp:172-195 | with distinct names, a composite's transition on a symbol leads to the name of exactly its move |
| Automaton.PlainNamesDistinct | ExpresieRegulata-AFD/DeterministicFiniteAutomaton.cpp:176-177 | when the state names are non-empty and comma-free, different composites get different names |
| Automaton.CompositeBound | ExpresieRegulata-AFD/DeterministicFiniteAutomaton.cpp:129 | at most 2^\|U\| composites can be recorded |
| Subsets.FamilyBound | ExpresieRegulata-AFD/DeterministicFiniteAutomaton.cpp:129 | a family of distinct subsets of U has at most 2^\|U\| members |
| Automaton.SubsetTraceRuns | ExpresieRegulata-AFD/DeterministicFiniteAutomaton.cpp:160-196 | a trace over the composites that reaches the end of the word is over the alphabet and follows the subset run |
| Automaton.SubsetTraceStops | ExpresieRegulata-AFD/DeterministicFiniteAutomaton.cpp:172 | a trace stops only on a symbol outside the alphabet or when the subset run has become empty |
| Automaton.RunTracksSubsets | ExpresieRegulata-AFD/DeterministicFiniteAutomaton.cpp:154-197 | running the new automaton from a composite's name follows the composites of the subset run, name by name |
| Automaton.SubsetLanguage | ExpresieRegulata-AFD/DeterministicFiniteAutomaton.cpp:120-200 | with distinct names, the new automaton accepts a word from a composite exactly when the word is over the alphabet and the subset run from that composite meets a final state; both directions |
| Automaton.ConvertedLanguage | ExpresieRegulata-AFD/DeterministicFiniteAutomaton.cpp:120-200 | the same, for the composites convertToDFA records, whenever every possible member of a composite has a plain name |
| Automaton.FinalNamesAdd | ExpresieRegulata-AFD/DeterministicFiniteAutomaton.cpp:182-187 | a new composite adds its name to the final names exactly when it holds a final state |
| Automaton.DeterministicFiniteAutomaton.StartConversion | ExpresieRegulata-AFD/DeterministicFiniteAutomaton.cpp:122-151 | the first composite is the closure of the initial state, mapped to its generated name and alone in the queue; no transition is written; the worklist invariant holds and the composite is reachable |
| Automaton.ConversionFinished | ExpresieRegulata-AFD/DeterministicFiniteAutomaton.cpp:154-199 | a finished construction maps exactly the composites reachable from the initial closure, at most 2^\|U\| of them; its parts pass VerifyAutomaton; every transition comes from a move; with plain names it accepts exactly the words whose subset run meets a final state |
| Automaton.DeterministicFiniteAutomaton.ConvertToDFA | ExpresieRegulata-AFD/DeterministicFiniteAutomaton.cpp:120-200 | the result is fresh and keeps the alphabet; its initial state is the name of the initial state's closure; the recorded composites are exactly those reachable from the closure of the initial state, its states are their names and its final states those holding a final state; every composite is expanded on every symbol and every transition comes from a move; it passes VerifyAutomaton; the loop ran once per composite, at most 2^\|U\| times, and at most 2^\|Q\| times when the automaton is well formed; with plain names its language is the subset run's |
| Automaton.Decimal | ExpresieRegulata-AFD/DeterministicFiniteAutomaton.cpp:97 | std::to_string of a non-negative number is a non-empty string of digits ending in the last decimal digit |
| Automaton.DecimalInjective | ExpresieRegulata-AFD/DeterministicFiniteAutomaton.cpp:97 | different numbers have different numerals |
| Automaton.LabelPlain | ExpresieRegulata-AFD/DeterministicFiniteAutomaton.cpp:97-102 | the names `q<n>` are non-empty and comma-free |
| Automaton.LabelInjective | ExpresieRegulata-AFD/DeterministicFiniteAutomaton.cpp:97-102 | different counters give different names, so each fragment's two states are distinct |
| Automaton.LastLetter | ExpresieRegulata-AFD/DeterministicFiniteAutomaton.cpp:95-105 | the letter whose fragment is on top of the stack is a letter of the expression |
| Automaton.LetterCountNext | ExpresieRegulata-AFD/DeterministicFiniteAutomaton.cpp:95-115 | a letter raises the letter count by one and becomes the last letter, whose fragment is then on top; any other character leaves both unchanged |
| Automaton.SingleStepRun | ExpresieRegulata-AFD/DeterministicFiniteAutomaton.cpp:99-102 | a one-transition automaton from s to t on x reaches t on exactly the word x |
| Automaton.FragmentLanguage | ExpresieRegulata-AFD/DeterministicFiniteAutomaton.cpp:97-103 | a letter fragment passes VerifyAutomaton and accepts exactly the one-letter word |
| Automaton.BuildLambdaNFA | ExpresieRegulata-AFD/DeterministicFiniteAutomaton.cpp:91-118 | for an expression with at least one letter, the result is the fragment of the last letter: states `q<2k>`, `q<2k+1>` with k one less than the number of letters, that letter as the alphabet, one transition on it, and `q<2k+1>` final; it is well formed and accepts exactly that letter |

## Left out

- PrintAutomaton, the `std::cerr` diagnostics and `main.cpp` are console input and output and are not modelled. The early `return ""` and `return false` that follow each diagnostic are modelled.
- The default constructor and the five getters are declared in `DeterministicFiniteAutomaton.h` but never defined, so they have nothing to model. PolishForm.h only holds prototypes.
- `buildLambdaNFA`'s `|`, `.` and `*` branches are empty in the source, so those characters are skipped like any other non-letter. The model has no union, concatenation or Kleene star construction.
- `buildLambdaNFA` is declared as a member in the header but defined as a free function. The model follows the definition.
- `buildLambdaNFA` on an expression without letters calls `top()` on an empty stack, which is undefined behaviour. BuildLambdaNFA therefore requires at least one letter.
- The fragments pushed below the top of the stack are never used by the source. The model keeps them in a sequence but states nothing about them.
- BuildLambdaNFA: `int stateCounter` and the `int i` loop counters would overflow only past 2^31 characters; the model uses unbounded integers.
- The locale: `std::isalpha`/`std::isalnum` are modelled for the "C" locale only (ASCII letters and digits). `char` is Dafny's `char`, and comparisons use character codes, as `std::string`'s ordering does for the ASCII range.
- Automaton.ConvertedLanguage: the language theorem compares the new automaton with the subset run (Move applied with lambda closures), not with a separate relational semantics of lambda-NFAs. It needs every possible member name to be non-empty and comma-free. Otherwise two composites can receive the same name, and the source then merges their transitions.
- Automaton.DeterministicFiniteAutomaton.MoveOf: `lambdaClosure[targetState]` inserts an empty entry into the table for a target that is not a state. The model reads the same empty set without growing the table, because the insertion never changes a later result.
- Automaton.DeterministicFiniteAutomaton.ExpandComposite: the new composites join the queue in ascending order of the symbols that reach them. The contract states which composites join, but not their order.
- Automaton.DeterministicFiniteAutomaton.ConvertToDFA: `stateMapping[currentSet]` for a dequeued set never inserts, since a set is queued only after it is mapped. The result is returned as a new object rather than a copy by value.
- Automaton.DeterministicFiniteAutomaton.VerifyAutomaton: the order in which the final states and the transitions are checked only matters for which diagnostic is printed. The model checks them in an arbitrary order and returns the same boolean.
- A transition map with several targets for one key cannot arise, because the source uses `std::map`. The `equal_range` loops are modelled as a lookup of at most one entry.
