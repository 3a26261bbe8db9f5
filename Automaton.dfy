/**
 * The automaton record (states, alphabet, a single-valued transition map,
 * initial state, final states), its validity check, word acceptance, the
 * lambda closure of a state, composite state names, the subset construction
 * and the one-letter fragment builder.
 *
 * The transition map is a map, so each (state, symbol) key has at most one
 * target; lambda is the character '\0'.
 */
module Automaton {
  import opened Wrappers
  import opened CharClass
  import opened StringOrder
  import opened StateNames
  import opened Subsets

  type State = string
  type Transitions = map<(State, char), State>

  /** The symbol that marks a lambda transition. */
  const Lambda: char := '\0'

  // ---------------------------------------------------------------------------
  // Validity and runs, over the parts of an automaton
  // ---------------------------------------------------------------------------

  /** The initial state and the final states are states, and every transition links states on a symbol of A. */
  predicate ValidParts(Q: set<State>, A: set<char>, T: Transitions, q0: State, F: set<State>)
  {
    && q0 in Q
    && F <= Q
    && forall k | k in T :: k.0 in Q && k.1 in A && T[k] in Q
  }

  /** The state reached from q by reading w, or None when a symbol is outside A or has no transition. */
  function Run(A: set<char>, T: Transitions, q: State, w: string): Option<State>
  {
    if w == [] then Some(q)
    else match Run(A, T, q, w[..|w| - 1])
      case None => None
      case Some(p) =>
        var c := w[|w| - 1];
        if c in A && (p, c) in T then Some(T[(p, c)]) else None
  }

  lemma RunNext(A: set<char>, T: Transitions, q: State, w: string, i: nat)
    requires i < |w|
    ensures Run(A, T, q, w[..i + 1]) == match Run(A, T, q, w[..i])
      case None => None
      case Some(p) => if w[i] in A && (p, w[i]) in T then Some(T[(p, w[i])]) else None
  {
    assert w[..i + 1][..i] == w[..i];
  }

  lemma {:induction false} RunFailureSticks(A: set<char>, T: Transitions, q: State, w: string, n: nat)
    requires n <= |w| && Run(A, T, q, w[..n]) == None
    ensures Run(A, T, q, w) == None
    decreases |w| - n
  {
    if n < |w| {
      var v := w[..|w| - 1];
      assert v[..n] == w[..n];
      RunFailureSticks(A, T, q, v, n);
    } else {
      assert w[..n] == w;
    }
  }

  /** Reading u and then v is reading u + v. */
  lemma {:induction false} RunAppend(A: set<char>, T: Transitions, q: State, u: string, v: string)
    ensures Run(A, T, q, u + v) == match Run(A, T, q, u)
      case None => None
      case Some(p) => Run(A, T, p, v)
    decreases |v|
  {
    if v == [] {
      assert u + v == u;
    } else {
      var v' := v[..|v| - 1];
      assert (u + v)[..|u + v| - 1] == u + v';
      RunAppend(A, T, q, u, v');
    }
  }

  /** A symbol outside the alphabet anywhere in the word makes the run fail. */
  lemma OutsideAlphabetFails(A: set<char>, T: Transitions, q: State, w: string, i: nat)
    requires i < |w| && w[i] !in A
    ensures Run(A, T, q, w) == None
  {
    RunNext(A, T, q, w, i);
    RunFailureSticks(A, T, q, w, i + 1);
  }

  /** In a valid automaton a run from a state ends in a state. */
  lemma {:induction false} RunStaysInStates(Q: set<State>, A: set<char>, T: Transitions, q0: State, F: set<State>, q: State, w: string)
    requires ValidParts(Q, A, T, q0, F) && q in Q
    ensures Run(A, T, q, w).Some? ==> Run(A, T, q, w).value in Q
  {
    if w != [] {
      RunStaysInStates(Q, A, T, q0, F, q, w[..|w| - 1]);
    }
  }

  // ---------------------------------------------------------------------------
  // Lambda closure, over a transition map
  // ---------------------------------------------------------------------------

  /** The lambda successor of q, if it has one. */
  function LambdaStep(T: Transitions, q: State): Option<State>
  {
    if (q, Lambda) in T then Some(T[(q, Lambda)]) else None
  }

  /** The state reached from s by following n lambda transitions. */
  function Walk(T: Transitions, s: State, n: nat): Option<State>
  {
    if n == 0 then Some(s)
    else match Walk(T, s, n - 1)
      case None => None
      case Some(q) => LambdaStep(T, q)
  }

  ghost predicate LambdaReachable(T: Transitions, s: State, t: State)
  {
    exists n: nat :: Walk(T, s, n) == Some(t)
  }

  /** s together with every state reachable from it through lambda transitions. */
  ghost function LambdaClosure(T: Transitions, s: State): (C: set<State>)
    ensures C <= {s} + T.Values
  {
    set t | t in {s} + T.Values && LambdaReachable(T, s, t)
  }

  lemma ClosureHasStart(T: Transitions, s: State)
    ensures s in LambdaClosure(T, s)
  {
    assert Walk(T, s, 0) == Some(s);
  }

  /** The closure is closed under lambda transitions. */
  lemma ClosureClosed(T: Transitions, s: State, t: State)
    requires t in LambdaClosure(T, s) && (t, Lambda) in T
    ensures T[(t, Lambda)] in LambdaClosure(T, s)
  {
    var n: nat :| Walk(T, s, n) == Some(t);
    assert Walk(T, s, n + 1) == Some(T[(t, Lambda)]);
    assert T[(t, Lambda)] in T.Values;
  }

  /** A set closed under lambda transitions. */
  ghost predicate LambdaClosed(T: Transitions, C: set<State>)
  {
    forall q | q in C && (q, Lambda) in T :: T[(q, Lambda)] in C
  }

  lemma {:induction false} WalkStaysIn(T: Transitions, s: State, C: set<State>, n: nat)
    requires s in C && LambdaClosed(T, C) && Walk(T, s, n).Some?
    ensures Walk(T, s, n).value in C
  {
    if n > 0 {
      WalkStaysIn(T, s, C, n - 1);
    }
  }

  /** The closure is the least lambda-closed set that contains s. */
  lemma ClosureLeast(T: Transitions, s: State, C: set<State>)
    requires s in C && LambdaClosed(T, C)
    ensures LambdaClosure(T, s) <= C
  {
    forall t | t in LambdaClosure(T, s) ensures t in C {
      var n: nat :| Walk(T, s, n) == Some(t);
      WalkStaysIn(T, s, C, n);
    }
  }

  // ---------------------------------------------------------------------------
  // The subset construction, over the parts of an automaton
  // ---------------------------------------------------------------------------

  /** A read of convertToDFA's lambdaClosure table: operator[] yields the empty set for a name it does not hold. */
  function Lookup(table: map<State, set<State>>, t: State): set<State>
  {
    if t in table then table[t] else {}
  }

  /** What that table yields for t once filled for every state of Q. */
  ghost function ClosureOf(Q: set<State>, T: Transitions, t: State): set<State>
  {
    if t in Q then LambdaClosure(T, t) else {}
  }

  /** The composite reached from X on c: the closures of the c-successors of the members of X. */
  ghost function Move(Q: set<State>, T: Transitions, X: set<State>, c: char): set<State>
  {
    set s, t | s in X && (s, c) in T && t in ClosureOf(Q, T, T[(s, c)]) :: t
  }

  lemma MoveEmpty(Q: set<State>, T: Transitions, c: char)
    ensures Move(Q, T, {}, c) == {}
  {
  }

  /** Adding one member to X adds the closure of its c-successor, if it has one. */
  lemma MoveAdd(Q: set<State>, T: Transitions, X: set<State>, s: State, c: char)
    ensures Move(Q, T, X + {s}, c)
      == Move(Q, T, X, c) + (if (s, c) in T then ClosureOf(Q, T, T[(s, c)]) else {})
  {
  }

  /** Every state a composite can hold: the states and the transition targets. */
  ghost function Universe(Q: set<State>, T: Transitions): set<State>
  {
    Q + T.Values
  }

  lemma ClosureOfWithin(Q: set<State>, T: Transitions, t: State)
    ensures ClosureOf(Q, T, t) <= Universe(Q, T)
  {
  }

  lemma MoveWithin(Q: set<State>, T: Transitions, X: set<State>, c: char)
    ensures Move(Q, T, X, c) <= Universe(Q, T)
  {
    forall t | t in Move(Q, T, X, c) ensures t in Universe(Q, T) {
      var s :| s in X && (s, c) in T && t in ClosureOf(Q, T, T[(s, c)]);
      assert T[(s, c)] in T.Values;
    }
  }

  /** In a valid automaton a composite can only hold states. */
  lemma UniverseOfValid(Q: set<State>, A: set<char>, T: Transitions, q0: State, F: set<State>)
    requires ValidParts(Q, A, T, q0, F)
    ensures Universe(Q, T) == Q
  {
  }

  /** Different recorded composites carry different names. */
  ghost predicate NamesDistinct(M: map<set<State>, State>)
  {
    forall X, Y | X in M && Y in M && M[X] == M[Y] :: X == Y
  }

  /** Each recorded composite is named by generateStateName and drawn from U. */
  ghost predicate NamedWithin(M: map<set<State>, State>, U: set<State>)
  {
    forall X | X in M :: M[X] == StateName(X) && X <= U
  }

  /** With plain state names, the names of composites never collide. */
  lemma PlainNamesDistinct(M: map<set<State>, State>, U: set<State>)
    requires NamedWithin(M, U) && forall x | x in U :: Plain(x)
    ensures NamesDistinct(M)
  {
    forall X, Y | X in M && Y in M && M[X] == M[Y] ensures X == Y {
      StateNameInjective(X, Y);
    }
  }

  /** At most 2^|U| composites can be recorded. */
  lemma CompositeBound(M: map<set<State>, State>, U: set<State>)
    requires NamedWithin(M, U)
    ensures |M| <= Pow2(|U|)
  {
    FamilyBound(M.Keys, U);
  }

  /** The names of the recorded composites that hold a final state. */
  ghost function FinalNames(M: map<set<State>, State>, F: set<State>): set<State>
  {
    set X | X in M && X * F != {} :: M[X]
  }

  /** Composite X is recorded, and its transition on c is recorded whenever it leads somewhere. */
  ghost predicate Expanded(Q: set<State>, T: Transitions, M: map<set<State>, State>, D: Transitions, X: set<State>, c: char)
  {
    X in M && (Move(Q, T, X, c) != {} ==> Move(Q, T, X, c) in M && (M[X], c) in D)
  }

  /**
   * Every recorded transition was written while expanding a recorded composite
   * (origin tells which) on a symbol of A, and leads to that composite's move.
   */
  ghost predicate Recorded(Q: set<State>, A: set<char>, T: Transitions, M: map<set<State>, State>, D: Transitions,
                           origin: map<(State, char), set<State>>)
  {
    && origin.Keys == D.Keys
    && forall k | k in D ::
      && origin[k] in M && M[origin[k]] == k.0 && k.1 in A
      && Move(Q, T, origin[k], k.1) != {} && Move(Q, T, origin[k], k.1) in M
      && D[k] == M[Move(Q, T, origin[k], k.1)]
  }

  /** What convertToDFA's locals satisfy between two steps of the worklist. */
  ghost predicate Worklist(Q: set<State>, A: set<char>, T: Transitions, F: set<State>,
                           M: map<set<State>, State>, newStates: set<State>, newFinals: set<State>,
                           D: Transitions, origin: map<(State, char), set<State>>, queue: seq<set<State>>)
  {
    && NamedWithin(M, Universe(Q, T))
    && newStates == M.Values
    && newFinals == FinalNames(M, F)
    && Recorded(Q, A, T, M, D, origin)
    && forall i | 0 <= i < |queue| :: queue[i] in M
  }

  /**
   * When no state name is empty or holds a comma, the automaton the subset
   * construction records accepts, from the name of X, exactly the words over
   * A whose subset run from X meets F.
   */
  lemma ConvertedLanguage(Q: set<State>, A: set<char>, T: Transitions, F: set<State>,
                          M: map<set<State>, State>, D: Transitions, X: set<State>)
    requires X in M && NamedWithin(M, Universe(Q, T))
    requires forall Y, c | Y in M && c in A :: Expanded(Q, T, M, D, Y, c)
    requires forall k | k in D :: Produced(Q, T, M, D, k)
    ensures (forall x | x in Universe(Q, T) :: Plain(x)) ==>
      forall w :: (var r := Run(A, D, M[X], w); r.Some? && r.value in FinalNames(M, F))
        <==> InAlphabet(w, A) && SubsetRun(Q, T, X, w) * F != {}
  {
    if forall x | x in Universe(Q, T) :: Plain(x) {
      PlainNamesDistinct(M, Universe(Q, T));
      forall w ensures (var r := Run(A, D, M[X], w); r.Some? && r.value in FinalNames(M, F))
        <==> InAlphabet(w, A) && SubsetRun(Q, T, X, w) * F != {}
      {
        SubsetLanguage(Q, A, T, F, M, D, X, w);
      }
    }
  }

  /** The recorded parts form a valid automaton. */
  lemma WorklistValid(Q: set<State>, A: set<char>, T: Transitions, F: set<State>,
                      M: map<set<State>, State>, newStates: set<State>, newFinals: set<State>,
                      D: Transitions, origin: map<(State, char), set<State>>, queue: seq<set<State>>, X0: set<State>)
    requires Worklist(Q, A, T, F, M, newStates, newFinals, D, origin, queue) && X0 in M
    ensures ValidParts(newStates, A, D, M[X0], newFinals)
  {
    forall k | k in D ensures k.0 in newStates && D[k] in newStates {
      assert M[origin[k]] in M.Values;
      assert M[Move(Q, T, origin[k], k.1)] in M.Values;
    }
    assert M[X0] in M.Values;
  }

  /** The transition at key k leads from some recorded composite to the composite of its move. */
  ghost predicate Produced(Q: set<State>, T: Transitions, M: map<set<State>, State>, D: Transitions, k: (State, char))
    requires k in D
  {
    exists X :: X in M && M[X] == k.0 && Move(Q, T, X, k.1) != {} && Move(Q, T, X, k.1) in M
      && D[k] == M[Move(Q, T, X, k.1)]
  }

  /** Every recorded transition comes from a recorded composite by its move. */
  lemma RecordedSound(Q: set<State>, A: set<char>, T: Transitions, M: map<set<State>, State>, D: Transitions,
                      origin: map<(State, char), set<State>>)
    requires Recorded(Q, A, T, M, D, origin)
    ensures forall k | k in D :: k.1 in A && Produced(Q, T, M, D, k)
  {
    forall k | k in D ensures k.1 in A && Produced(Q, T, M, D, k) {
      var X := origin[k];
      assert X in M && M[X] == k.0;
    }
  }

  /** With distinct names, the transition on c from a composite leads to the composite of its move. */
  lemma ExactTransitions(Q: set<State>, A: set<char>, T: Transitions, M: map<set<State>, State>, D: Transitions,
                         X: set<State>, c: char)
    requires NamesDistinct(M) && forall k | k in D :: Produced(Q, T, M, D, k)
    requires Expanded(Q, T, M, D, X, c) && Move(Q, T, X, c) != {}
    ensures D[(M[X], c)] == M[Move(Q, T, X, c)]
  {
    var k := (M[X], c);
    var Y :| Y in M && M[Y] == k.0 && Move(Q, T, Y, k.1) != {} && Move(Q, T, Y, k.1) in M
      && D[k] == M[Move(Q, T, Y, k.1)];
  }

  /** Every symbol of w is in A. */
  predicate InAlphabet(w: string, A: set<char>)
  {
    forall i :: 0 <= i < |w| ==> w[i] in A
  }

  /** The composite reached from X by moving on each symbol of w in turn. */
  ghost function SubsetRun(Q: set<State>, T: Transitions, X: set<State>, w: string): set<State>
  {
    if w == [] then X else Move(Q, T, SubsetRun(Q, T, X, w[..|w| - 1]), w[|w| - 1])
  }

  /**
   * The subset run as the converted automaton performs it: it stops (None)
   * on a symbol outside A and on a move to the empty composite, for which
   * no transition is recorded.
   */
  ghost function SubsetTrace(Q: set<State>, A: set<char>, T: Transitions, X: set<State>, w: string): Option<set<State>>
  {
    if w == [] then Some(X)
    else match SubsetTrace(Q, A, T, X, w[..|w| - 1])
      case None => None
      case Some(Y) =>
        var c := w[|w| - 1];
        if c in A && Move(Q, T, Y, c) != {} then Some(Move(Q, T, Y, c)) else None
  }

  lemma InAlphabetSnoc(w: string, A: set<char>)
    requires w != []
    ensures InAlphabet(w, A) <==> InAlphabet(w[..|w| - 1], A) && w[|w| - 1] in A
  {
    var v := w[..|w| - 1];
    if InAlphabet(v, A) && w[|w| - 1] in A {
      forall i | 0 <= i < |w| ensures w[i] in A {
        if i < |v| {
          assert w[i] == v[i];
        }
      }
    }
  }

  /** A trace that runs to the end is over A and follows the subset run. */
  lemma {:induction false} SubsetTraceRuns(Q: set<State>, A: set<char>, T: Transitions, X: set<State>, w: string)
    requires SubsetTrace(Q, A, T, X, w).Some?
    ensures InAlphabet(w, A) && SubsetTrace(Q, A, T, X, w).value == SubsetRun(Q, T, X, w)
  {
    if w != [] {
      SubsetTraceRuns(Q, A, T, X, w[..|w| - 1]);
      InAlphabetSnoc(w, A);
    }
  }

  /** A trace stops only on a symbol outside A or when the subset run has become empty. */
  lemma {:induction false} SubsetTraceStops(Q: set<State>, A: set<char>, T: Transitions, X: set<State>, w: string)
    requires SubsetTrace(Q, A, T, X, w).None?
    ensures !InAlphabet(w, A) || SubsetRun(Q, T, X, w) == {}
  {
    var v, c := w[..|w| - 1], w[|w| - 1];
    InAlphabetSnoc(w, A);
    MoveEmpty(Q, T, c);
    if SubsetTrace(Q, A, T, X, v).None? {
      SubsetTraceStops(Q, A, T, X, v);
    } else {
      SubsetTraceRuns(Q, A, T, X, v);
    }
  }

  /**
   * The converted automaton runs in step with the subset trace: from the name
   * of X, reading w ends at the name of the traced composite, and fails
   * exactly when the trace stops.
   */
  lemma {:induction false} RunTracksSubsets(Q: set<State>, A: set<char>, T: Transitions,
                                            M: map<set<State>, State>, D: Transitions, X: set<State>, w: string)
    requires X in M && NamesDistinct(M)
    requires forall Y, c | Y in M && c in A :: Expanded(Q, T, M, D, Y, c)
    requires forall k | k in D :: Produced(Q, T, M, D, k)
    ensures SubsetTrace(Q, A, T, X, w).Some? ==> SubsetTrace(Q, A, T, X, w).value in M
    ensures Run(A, D, M[X], w) == match SubsetTrace(Q, A, T, X, w)
      case None => None
      case Some(Y) => Some(M[Y])
  {
    if w != [] {
      var v, c := w[..|w| - 1], w[|w| - 1];
      RunTracksSubsets(Q, A, T, M, D, X, v);
      match SubsetTrace(Q, A, T, X, v)
      case None =>
      case Some(Y) =>
        if c in A {
          if Move(Q, T, Y, c) != {} {
            ExactTransitions(Q, A, T, M, D, Y, c);
          } else {
            forall Z | Z in M && M[Z] == M[Y] ensures Move(Q, T, Z, c) == {} {
              assert Z == Y;
            }
          }
        }
    }
  }

  /**
   * The language of the converted automaton: from the name of X it accepts w
   * exactly when w is over A and the subset run from X on w meets F.
   */
  lemma SubsetLanguage(Q: set<State>, A: set<char>, T: Transitions, F: set<State>,
                       M: map<set<State>, State>, D: Transitions, X: set<State>, w: string)
    requires X in M && NamesDistinct(M)
    requires forall Y, c | Y in M && c in A :: Expanded(Q, T, M, D, Y, c)
    requires forall k | k in D :: Produced(Q, T, M, D, k)
    ensures (var r := Run(A, D, M[X], w); r.Some? && r.value in FinalNames(M, F))
      <==> InAlphabet(w, A) && SubsetRun(Q, T, X, w) * F != {}
  {
    RunTracksSubsets(Q, A, T, M, D, X, w);
    match SubsetTrace(Q, A, T, X, w)
    case None =>
      SubsetTraceStops(Q, A, T, X, w);
    case Some(Y) =>
      SubsetTraceRuns(Q, A, T, X, w);
      if M[Y] in FinalNames(M, F) {
        var Z :| Z in M && Z * F != {} && M[Z] == M[Y];
      }
  }

  /** The subset trace from X0 reaches X on some word: convertToDFA can discover X. */
  ghost predicate Reachable(Q: set<State>, A: set<char>, T: Transitions, X0: set<State>, X: set<State>)
  {
    exists w :: SubsetTrace(Q, A, T, X0, w) == Some(X)
  }

  /** Every composite recorded in M is reachable from X0. */
  ghost predicate AllReachable(Q: set<State>, A: set<char>, T: Transitions, X0: set<State>,
                               M: map<set<State>, State>)
  {
    forall X | X in M :: Reachable(Q, A, T, X0, X)
  }

  lemma ReachableStart(Q: set<State>, A: set<char>, T: Transitions, X0: set<State>)
    ensures Reachable(Q, A, T, X0, X0)
  {
    assert SubsetTrace(Q, A, T, X0, []) == Some(X0);
  }

  /** A non-empty move on a symbol of A from a reachable composite is reachable. */
  lemma ReachableMove(Q: set<State>, A: set<char>, T: Transitions, X0: set<State>, Y: set<State>, c: char)
    requires Reachable(Q, A, T, X0, Y) && c in A && Move(Q, T, Y, c) != {}
    ensures Reachable(Q, A, T, X0, Move(Q, T, Y, c))
  {
    var w :| SubsetTrace(Q, A, T, X0, w) == Some(Y);
    var v := w + [c];
    assert v[..|v| - 1] == w;
    assert SubsetTrace(Q, A, T, X0, v) == Some(Move(Q, T, Y, c));
  }

  /** Recording a reachable composite keeps every recorded composite reachable. */
  lemma AllReachableAdd(Q: set<State>, A: set<char>, T: Transitions, X0: set<State>,
                        M: map<set<State>, State>, X: set<State>, name: State)
    requires AllReachable(Q, A, T, X0, M) && Reachable(Q, A, T, X0, X)
    ensures AllReachable(Q, A, T, X0, M[X := name])
  {
  }

  /** Once X0 is recorded and every composite is expanded, every traced composite is recorded. */
  lemma {:induction false} TraceRecorded(Q: set<State>, A: set<char>, T: Transitions,
                                         M: map<set<State>, State>, D: Transitions, X0: set<State>, w: string)
    requires X0 in M
    requires forall Y, c | Y in M && c in A :: Expanded(Q, T, M, D, Y, c)
    ensures SubsetTrace(Q, A, T, X0, w).Some? ==> SubsetTrace(Q, A, T, X0, w).value in M
  {
    if w != [] {
      var v := w[..|w| - 1];
      TraceRecorded(Q, A, T, M, D, X0, v);
      match SubsetTrace(Q, A, T, X0, v)
      case None =>
      case Some(Y) =>
        var c := w[|w| - 1];
        if c in A {
          assert Expanded(Q, T, M, D, Y, c);
        }
    }
  }

  /**
   * The composites of a finished subset construction from X0 are exactly
   * those reachable from X0.
   */
  lemma RecordedIffReachable(Q: set<State>, A: set<char>, T: Transitions,
                             M: map<set<State>, State>, D: Transitions, X0: set<State>)
    requires X0 in M && AllReachable(Q, A, T, X0, M)
    requires forall Y, c | Y in M && c in A :: Expanded(Q, T, M, D, Y, c)
    ensures forall X :: X in M <==> Reachable(Q, A, T, X0, X)
  {
    forall X | Reachable(Q, A, T, X0, X) ensures X in M {
      var w :| SubsetTrace(Q, A, T, X0, w) == Some(X);
      TraceRecorded(Q, A, T, M, D, X0, w);
    }
  }

  /**
   * What a finished subset construction from X0 has built: its composites are
   * those reachable from X0, at most one per subset of the universe, and the
   * parts it assembles form a well-formed automaton whose transitions were
   * all produced by expansion and which, for plain state names, accepts the
   * words whose subset run from X0 meets F.
   */
  lemma ConversionFinished(Q: set<State>, A: set<char>, T: Transitions, F: set<State>,
                           M: map<set<State>, State>, newStates: set<State>, newFinals: set<State>,
                           D: Transitions, origin: map<(State, char), set<State>>, X0: set<State>)
    requires Worklist(Q, A, T, F, M, newStates, newFinals, D, origin, [])
    requires X0 in M && AllReachable(Q, A, T, X0, M)
    requires forall Y, c | Y in M && c in A :: Expanded(Q, T, M, D, Y, c)
    ensures forall X :: X in M <==> Reachable(Q, A, T, X0, X)
    ensures |M| <= Pow2(|Universe(Q, T)|)
    ensures ValidParts(newStates, A, D, M[X0], newFinals)
    ensures forall k | k in D :: k.1 in A && Produced(Q, T, M, D, k)
    ensures (forall x | x in Universe(Q, T) :: Plain(x)) ==>
      forall w :: (var r := Run(A, D, M[X0], w); r.Some? && r.value in newFinals)
        <==> InAlphabet(w, A) && SubsetRun(Q, T, X0, w) * F != {}
  {
    RecordedIffReachable(Q, A, T, M, D, X0);
    CompositeBound(M, Universe(Q, T));
    WorklistValid(Q, A, T, F, M, newStates, newFinals, D, origin, [], X0);
    RecordedSound(Q, A, T, M, D, origin);
    ConvertedLanguage(Q, A, T, F, M, D, X0);
  }

  /** The non-empty moves of X on the symbols of S. */
  ghost function Successors(Q: set<State>, T: Transitions, X: set<State>, S: set<char>): set<set<State>>
  {
    set c | c in S && Move(Q, T, X, c) != {} :: Move(Q, T, X, c)
  }

  /** The transition keys written for the composite named name on the symbols of S. */
  ghost function EdgeKeys(Q: set<State>, T: Transitions, X: set<State>, name: State, S: set<char>): set<(State, char)>
  {
    set c | c in S && Move(Q, T, X, c) != {} :: (name, c)
  }

  /** One more symbol adds its move, when non-empty, and its key. */
  lemma SuccessorsAdd(Q: set<State>, T: Transitions, X: set<State>, name: State, S: set<char>, c: char)
    ensures Successors(Q, T, X, S + {c})
      == Successors(Q, T, X, S) + (if Move(Q, T, X, c) != {} then {Move(Q, T, X, c)} else {})
    ensures EdgeKeys(Q, T, X, name, S + {c})
      == EdgeKeys(Q, T, X, name, S) + (if Move(Q, T, X, c) != {} then {(name, c)} else {})
  {
  }

  /**
   * What the loop over the alphabet has done for the composite X, named name,
   * once the symbols S are processed, starting from the mapping M0, the
   * transitions D0 and the queue queue0: the new composites are exactly the
   * non-empty moves of X on S, and they and only they were queued after
   * queue0; the transitions written are exactly those from name on the
   * symbols of S with a non-empty move, each to the name of that move; every
   * other transition is as it was.
   */
  ghost predicate ExpandedOn(Q: set<State>, T: Transitions, X: set<State>, name: State, S: set<char>,
                             M0: map<set<State>, State>, D0: Transitions, queue0: seq<set<State>>,
                             M: map<set<State>, State>, D: Transitions, queue: seq<set<State>>)
  {
    && M.Keys == M0.Keys + Successors(Q, T, X, S)
    && |queue0| <= |queue| && queue[..|queue0|] == queue0
    && (forall Y :: Y in queue[|queue0|..] <==> Y in M && Y !in M0)
    && D.Keys == D0.Keys + EdgeKeys(Q, T, X, name, S)
    && (forall c | c in S && Move(Q, T, X, c) != {} :: Move(Q, T, X, c) in M && D[(name, c)] == M[Move(Q, T, X, c)])
    && (forall k | k in D0 && k !in EdgeKeys(Q, T, X, name, S) :: D[k] == D0[k])
  }

  /**
   * What the loop over the alphabet keeps for the composite X, named name:
   * the worklist invariant, the exact effect of the symbols done so far,
   * reachability of every composite from X0, and growth since the loop began.
   */
  ghost predicate AlphabetLoop(Q: set<State>, A: set<char>, T: Transitions, F: set<State>,
                               X0: set<State>, X: set<State>, name: State, done: set<char>,
                               M0: map<set<State>, State>, D0: Transitions, queue0: seq<set<State>>,
                               M: map<set<State>, State>, newStates: set<State>, newFinals: set<State>,
                               D: Transitions, origin: map<(State, char), set<State>>, queue: seq<set<State>>)
  {
    && Worklist(Q, A, T, F, M, newStates, newFinals, D, origin, queue)
    && ExpandedOn(Q, T, X, name, done, M0, D0, queue0, M, D, queue)
    && AllReachable(Q, A, T, X0, M)
    && Grows(M0, D0, queue0, M, D, queue)
  }

  /**
   * What the outer loop of convertToDFA keeps: the worklist invariant, every
   * recorded composite off the queue expanded on every symbol, reachability
   * from X0, and as many rounds done as composites have left the queue.
   */
  ghost predicate QueueLoop(Q: set<State>, A: set<char>, T: Transitions, F: set<State>, X0: set<State>,
                            M0: map<set<State>, State>, queue0: seq<set<State>>,
                            M: map<set<State>, State>, newStates: set<State>, newFinals: set<State>,
                            D: Transitions, origin: map<(State, char), set<State>>, queue: seq<set<State>>,
                            rounds: nat)
  {
    && Worklist(Q, A, T, F, M, newStates, newFinals, D, origin, queue)
    && (forall X, c | X in M && X !in queue && c in A :: Expanded(Q, T, M, D, X, c))
    && AllReachable(Q, A, T, X0, M)
    && M0.Keys <= M.Keys
    && rounds + |queue| == |M| - |M0| + |queue0|
  }

  /** Before the first symbol the loop over the alphabet has changed nothing. */
  lemma AlphabetLoopStart(Q: set<State>, A: set<char>, T: Transitions, F: set<State>,
                          X0: set<State>, X: set<State>, name: State,
                          M: map<set<State>, State>, newStates: set<State>, newFinals: set<State>,
                          D: Transitions, origin: map<(State, char), set<State>>, queue: seq<set<State>>)
    requires Worklist(Q, A, T, F, M, newStates, newFinals, D, origin, queue)
    requires AllReachable(Q, A, T, X0, M)
    ensures AlphabetLoop(Q, A, T, F, X0, X, name, {}, M, D, queue, M, newStates, newFinals, D, origin, queue)
  {
    ExpandedOnStart(Q, T, X, name, M, D, queue);
    GrowsRefl(M, D, queue);
  }

  lemma ExpandedOnStart(Q: set<State>, T: Transitions, X: set<State>, name: State,
                        M: map<set<State>, State>, D: Transitions, queue: seq<set<State>>)
    ensures ExpandedOn(Q, T, X, name, {}, M, D, queue, M, D, queue)
  {
    assert queue[|queue|..] == [];
    assert Successors(Q, T, X, {}) == {};
    assert EdgeKeys(Q, T, X, name, {}) == {};
  }

  lemma GrowsRefl(M: map<set<State>, State>, D: Transitions, queue: seq<set<State>>)
    ensures Grows(M, D, queue, M, D, queue)
  {
  }

  /** Once every symbol is done, the composite X is expanded on all of them. */
  lemma AlphabetLoopEnd(Q: set<State>, A: set<char>, T: Transitions, F: set<State>,
                        X0: set<State>, X: set<State>, name: State, S: set<char>,
                        M0: map<set<State>, State>, D0: Transitions, queue0: seq<set<State>>,
                        M: map<set<State>, State>, newStates: set<State>, newFinals: set<State>,
                        D: Transitions, origin: map<(State, char), set<State>>, queue: seq<set<State>>)
    requires AlphabetLoop(Q, A, T, F, X0, X, name, S, M0, D0, queue0, M, newStates, newFinals, D, origin, queue)
    requires X in M0 && M0[X] == name
    ensures ExpandedOn(Q, T, X, name, S, M0, D0, queue0, M, D, queue)
    ensures Worklist(Q, A, T, F, M, newStates, newFinals, D, origin, queue)
    ensures AllReachable(Q, A, T, X0, M)
    ensures Grows(M0, D0, queue0, M, D, queue)
    ensures forall c | c in S :: Expanded(Q, T, M, D, X, c)
  {
    ExpandedOnExpanded(Q, T, X, name, S, M0, D0, queue0, M, D, queue);
  }

  /** Processing one more symbol, as one round of the loop over the alphabet does, extends ExpandedOn. */
  lemma ExpandedOnStep(Q: set<State>, T: Transitions, X: set<State>, name: State, S: set<char>, s: char,
                       M0: map<set<State>, State>, D0: Transitions, queue0: seq<set<State>>,
                       M: map<set<State>, State>, D: Transitions, queue: seq<set<State>>,
                       M': map<set<State>, State>, D': Transitions, queue': seq<set<State>>)
    requires ExpandedOn(Q, T, X, name, S, M0, D0, queue0, M, D, queue) && s !in S
    requires var Y := Move(Q, T, X, s);
      && M' == (if Y != {} && Y !in M then M[Y := StateName(Y)] else M)
      && queue' == queue + (if Y != {} && Y !in M then [Y] else [])
      && D' == (if Y != {} then D[(name, s) := M'[Y]] else D)
    ensures ExpandedOn(Q, T, X, name, S + {s}, M0, D0, queue0, M', D', queue')
  {
    var Y := Move(Q, T, X, s);
    SuccessorsAdd(Q, T, X, name, S, s);
    QueueStep(M0, queue0, M, queue, Y, M', queue');
    EdgesStep(Q, T, X, name, S, s, M0, D0, M, D, M', D');
  }

  /** After the loop over S the composite X (recorded before it) is expanded on every symbol of S. */
  lemma ExpandedOnExpanded(Q: set<State>, T: Transitions, X: set<State>, name: State, S: set<char>,
                           M0: map<set<State>, State>, D0: Transitions, queue0: seq<set<State>>,
                           M: map<set<State>, State>, D: Transitions, queue: seq<set<State>>)
    requires ExpandedOn(Q, T, X, name, S, M0, D0, queue0, M, D, queue)
    requires X in M0 && M0[X] == name && forall Y | Y in M0 :: M[Y] == M0[Y]
    ensures forall c | c in S :: Expanded(Q, T, M, D, X, c)
  {
    forall c | c in S ensures Expanded(Q, T, M, D, X, c) {
      if Move(Q, T, X, c) != {} {
        assert (name, c) in EdgeKeys(Q, T, X, name, S);
      }
    }
  }

  /** Moving one symbol from the pending ones to the processed ones keeps them a partition of A. */
  lemma MoveSymbol(A: set<char>, done: set<char>, pending: set<char>, s: char)
    requires done + pending == A && done !! pending && s in pending
    ensures (done + {s}) + (pending - {s}) == A && (done + {s}) !! (pending - {s})
    ensures |pending - {s}| < |pending|
  {
  }

  lemma QueueStep(M0: map<set<State>, State>, queue0: seq<set<State>>,
                  M: map<set<State>, State>, queue: seq<set<State>>, Y: set<State>,
                  M': map<set<State>, State>, queue': seq<set<State>>)
    requires M0.Keys <= M.Keys && |queue0| <= |queue| && queue[..|queue0|] == queue0
    requires forall Z :: Z in queue[|queue0|..] <==> Z in M && Z !in M0
    requires M' == (if Y != {} && Y !in M then M[Y := StateName(Y)] else M)
    requires queue' == queue + (if Y != {} && Y !in M then [Y] else [])
    ensures |queue0| <= |queue'| && queue'[..|queue0|] == queue0
    ensures forall Z :: Z in queue'[|queue0|..] <==> Z in M' && Z !in M0
  {
    assert queue'[..|queue0|] == queue[..|queue0|];
    assert queue'[|queue0|..] == queue[|queue0|..] + (if Y != {} && Y !in M then [Y] else []);
  }

  lemma EdgesStep(Q: set<State>, T: Transitions, X: set<State>, name: State, S: set<char>, s: char,
                  M0: map<set<State>, State>, D0: Transitions,
                  M: map<set<State>, State>, D: Transitions,
                  M': map<set<State>, State>, D': Transitions)
    requires s !in S
    requires D.Keys == D0.Keys + EdgeKeys(Q, T, X, name, S)
    requires forall c | c in S && Move(Q, T, X, c) != {} :: Move(Q, T, X, c) in M && D[(name, c)] == M[Move(Q, T, X, c)]
    requires forall k | k in D0 && k !in EdgeKeys(Q, T, X, name, S) :: D[k] == D0[k]
    requires var Y := Move(Q, T, X, s);
      && M' == (if Y != {} && Y !in M then M[Y := StateName(Y)] else M)
      && D' == (if Y != {} then D[(name, s) := M'[Y]] else D)
    requires EdgeKeys(Q, T, X, name, S + {s})
      == EdgeKeys(Q, T, X, name, S) + (if Move(Q, T, X, s) != {} then {(name, s)} else {})
    ensures D'.Keys == D0.Keys + EdgeKeys(Q, T, X, name, S + {s})
    ensures forall c | c in S + {s} && Move(Q, T, X, c) != {} ::
      Move(Q, T, X, c) in M' && D'[(name, c)] == M'[Move(Q, T, X, c)]
    ensures forall k | k in D0 && k !in EdgeKeys(Q, T, X, name, S + {s}) :: D'[k] == D0[k]
  {
    var Y := Move(Q, T, X, s);
    assert forall Z | Z in M :: Z in M' && M'[Z] == M[Z];
    forall c | c in S + {s} && Move(Q, T, X, c) != {}
      ensures Move(Q, T, X, c) in M' && D'[(name, c)] == M'[Move(Q, T, X, c)]
    {
      if c != s {
        assert (name, c) != (name, s);
      }
    }
  }

  /**
   * Between two points of convertToDFA the state mapping and the transitions
   * only gain keys, queued composites stay queued, and every composite
   * recorded in between has been queued, once.
   */
  ghost predicate Grows(M: map<set<State>, State>, D: Transitions, queue: seq<set<State>>,
                        M': map<set<State>, State>, D': Transitions, queue': seq<set<State>>)
  {
    && (forall X | X in M :: X in M' && M'[X] == M[X])
    && D.Keys <= D'.Keys
    && (forall X | X in queue :: X in queue')
    && (forall X | X in M' && X !in M :: X in queue')
    && |queue'| - |queue| == |M'| - |M| >= 0
  }

  lemma GrowsTransitive(M: map<set<State>, State>, D: Transitions, queue: seq<set<State>>,
                        M1: map<set<State>, State>, D1: Transitions, queue1: seq<set<State>>,
                        M2: map<set<State>, State>, D2: Transitions, queue2: seq<set<State>>)
    requires Grows(M, D, queue, M1, D1, queue1) && Grows(M1, D1, queue1, M2, D2, queue2)
    ensures Grows(M, D, queue, M2, D2, queue2)
  {
  }

  /**
   * One round of convertToDFA's outer loop: the composite cur leaves the
   * queue and is expanded on every symbol; every recorded composite that is
   * no longer queued is then expanded.
   */
  lemma DequeueStep(Q: set<State>, A: set<char>, T: Transitions,
                    M: map<set<State>, State>, D: Transitions, queue: seq<set<State>>,
                    cur: set<State>, rest: seq<set<State>>,
                    M': map<set<State>, State>, D': Transitions, queue': seq<set<State>>)
    requires queue == [cur] + rest
    requires forall X, c | X in M && X !in queue && c in A :: Expanded(Q, T, M, D, X, c)
    requires Grows(M, D, rest, M', D', queue')
    requires forall c | c in A :: Expanded(Q, T, M', D', cur, c)
    ensures forall X, c | X in M' && X !in queue' && c in A :: Expanded(Q, T, M', D', X, c)
  {
    forall X, c | X in M' && X !in queue' && c in A
      ensures Expanded(Q, T, M', D', X, c)
    {
      if X != cur {
        assert X !in rest;
        assert X in M && X !in queue;
        ExpandedGrows(Q, T, M, D, M', D', X, c);
      }
    }
  }

  /** Recording more composites and transitions keeps every expansion already done. */
  lemma ExpandedGrows(Q: set<State>, T: Transitions, M: map<set<State>, State>, D: Transitions,
                      M2: map<set<State>, State>, D2: Transitions, X: set<State>, c: char)
    requires Expanded(Q, T, M, D, X, c)
    requires M.Keys <= M2.Keys && D.Keys <= D2.Keys && forall Y | Y in M :: M2[Y] == M[Y]
    ensures Expanded(Q, T, M2, D2, X, c)
  {
  }

  lemma FinalNamesAdd(M: map<set<State>, State>, F: set<State>, X: set<State>, name: State)
    requires X !in M
    ensures FinalNames(M[X := name], F) == FinalNames(M, F) + (if X * F != {} then {name} else {})
  {
    var M2 := M[X := name];
    forall n ensures n in FinalNames(M2, F) <==> n in FinalNames(M, F) + (if X * F != {} then {name} else {}) {
      if n in FinalNames(M2, F) {
        var Y :| Y in M2 && Y * F != {} && M2[Y] == n;
        if Y != X {
          assert Y in M && M[Y] == n;
        }
      }
      if n in FinalNames(M, F) {
        var Y :| Y in M && Y * F != {} && M[Y] == n;
        assert Y in M2 && M2[Y] == n;
      }
    }
  }

  lemma ValuesAdd(M: map<set<State>, State>, X: set<State>, name: State)
    requires X !in M
    ensures M[X := name].Values == M.Values + {name}
  {
    var M2 := M[X := name];
    forall n | n in M.Values ensures n in M2.Values {
      var Y :| Y in M && M[Y] == n;
      assert M2[Y] == n;
    }
    assert M2[X] == name;
  }

  /** A transition written while expanding a recorded composite is accounted for. */
  lemma RecordTransition(Q: set<State>, A: set<char>, T: Transitions, M: map<set<State>, State>, D: Transitions,
                         origin: map<(State, char), set<State>>, cur: set<State>, c: char)
    requires Recorded(Q, A, T, M, D, origin)
    requires cur in M && c in A && Move(Q, T, cur, c) != {} && Move(Q, T, cur, c) in M
    ensures var k := (M[cur], c);
      Recorded(Q, A, T, M, D[k := M[Move(Q, T, cur, c)]], origin[k := cur])
  {
  }

  /** Recorded transitions stay accounted for when a new composite is recorded. */
  lemma RecordedGrows(Q: set<State>, A: set<char>, T: Transitions, M: map<set<State>, State>, D: Transitions,
                      origin: map<(State, char), set<State>>, X: set<State>, name: State)
    requires Recorded(Q, A, T, M, D, origin) && X !in M
    ensures Recorded(Q, A, T, M[X := name], D, origin)
  {
  }

  /** Reaching a composite for the first time: it is named, recorded, queued and tested for finality. */
  lemma RecordNew(Q: set<State>, A: set<char>, T: Transitions, F: set<State>,
                  M: map<set<State>, State>, newStates: set<State>, newFinals: set<State>,
                  D: Transitions, origin: map<(State, char), set<State>>, queue: seq<set<State>>,
                  X: set<State>, name: State)
    requires Worklist(Q, A, T, F, M, newStates, newFinals, D, origin, queue)
    requires X !in M && name == StateName(X) && X <= Universe(Q, T)
    ensures Worklist(Q, A, T, F, M[X := name], newStates + {name},
                     newFinals + (if X * F != {} then {name} else {}), D, origin, queue + [X])
  {
    ValuesAdd(M, X, name);
    FinalNamesAdd(M, F, X, name);
    RecordedGrows(Q, A, T, M, D, origin, X, name);
  }

  /** Writing the transition of a recorded composite to a recorded target. */
  lemma RecordStep(Q: set<State>, A: set<char>, T: Transitions, F: set<State>,
                   M: map<set<State>, State>, newStates: set<State>, newFinals: set<State>,
                   D: Transitions, origin: map<(State, char), set<State>>, queue: seq<set<State>>,
                   cur: set<State>, c: char)
    requires Worklist(Q, A, T, F, M, newStates, newFinals, D, origin, queue)
    requires cur in M && c in A && Move(Q, T, cur, c) != {} && Move(Q, T, cur, c) in M
    ensures var k := (M[cur], c);
      && Worklist(Q, A, T, F, M, newStates, newFinals, D[k := M[Move(Q, T, cur, c)]], origin[k := cur], queue)
      && Expanded(Q, T, M, D[k := M[Move(Q, T, cur, c)]], cur, c)
  {
    RecordTransition(Q, A, T, M, D, origin, cur, c);
  }

  // ---------------------------------------------------------------------------
  // The automaton
  // ---------------------------------------------------------------------------

  class DeterministicFiniteAutomaton {
    var states: set<State>
    var alphabet: set<char>
    var transitions: Transitions
    var initialState: State
    var finalStates: set<State>

    /** Stores the five parts as given. */
    constructor (Q: set<State>, A: set<char>, T: Transitions, q0: State, F: set<State>)
      ensures states == Q && alphabet == A && transitions == T
      ensures initialState == q0 && finalStates == F
      ensures WellFormed() <==> ValidParts(Q, A, T, q0, F)
      ensures forall w :: Accepts(w) <==> var r := Run(A, T, q0, w); r.Some? && r.value in F
    {
      states := Q;
      alphabet := A;
      transitions := T;
      initialState := q0;
      finalStates := F;
    }

    predicate WellFormed()
      reads this
    {
      ValidParts(states, alphabet, transitions, initialState, finalStates)
    }

    /** The word is read to its end and the run stops in a final state. */
    predicate Accepts(word: string)
      reads this
    {
      var r := Run(alphabet, transitions, initialState, word);
      r.Some? && r.value in finalStates
    }

    /** VerifyAutomaton: true exactly when the automaton is well formed. */
    method VerifyAutomaton() returns (ok: bool)
      ensures ok == WellFormed()
    {
      if initialState !in states {
        return false;
      }
      var pendingFinals := finalStates;
      while pendingFinals != {}
        invariant pendingFinals <= finalStates
        invariant finalStates - pendingFinals <= states
        decreases |pendingFinals|
      {
        var finalState :| finalState in pendingFinals;
        if finalState !in states {
          return false;
        }
        pendingFinals := pendingFinals - {finalState};
      }
      var pendingKeys := transitions.Keys;
      while pendingKeys != {}
        invariant pendingKeys <= transitions.Keys
        invariant forall k | k in transitions && k !in pendingKeys ::
          k.0 in states && k.1 in alphabet && transitions[k] in states
        decreases |pendingKeys|
      {
        var key :| key in pendingKeys;
        if key.0 !in states || key.1 !in alphabet {
          return false;
        }
        if transitions[key] !in states {
          return false;
        }
        pendingKeys := pendingKeys - {key};
      }
      return true;
    }

    /** CheckWord: follows the transitions symbol by symbol and tests the state reached for finality. */
    method CheckWord(word: string) returns (accepted: bool)
      ensures accepted == Accepts(word)
    {
      var currentState := initialState;
      for i := 0 to |word|
        invariant Run(alphabet, transitions, initialState, word[..i]) == Some(currentState)
      {
        var symbol := word[i];
        RunNext(alphabet, transitions, initialState, word, i);
        if symbol !in alphabet {
          RunFailureSticks(alphabet, transitions, initialState, word, i + 1);
          return false;
        }
        if (currentState, symbol) !in transitions {
          RunFailureSticks(alphabet, transitions, initialState, word, i + 1);
          return false;
        }
        currentState := transitions[(currentState, symbol)];
      }
      assert word[..|word|] == word;
      return currentState in finalStates;
    }

    /** calculateLambdaClosure: breadth-first search along lambda transitions. */
    method CalculateLambdaClosure(state: State) returns (closure: set<State>)
      ensures closure == LambdaClosure(transitions, state)
    {
      ClosureHasStart(transitions, state);
      closure := {state};
      var queue := [state];
      while queue != []
        invariant state in closure && closure <= LambdaClosure(transitions, state)
        invariant forall q | q in queue :: q in closure
        invariant forall q | q in closure && q !in queue && (q, Lambda) in transitions ::
          transitions[(q, Lambda)] in closure
        decreases |({state} + transitions.Values) - closure|, |queue|
      {
        var current := queue[0];
        queue := queue[1..];
        if (current, Lambda) in transitions {
          var target := transitions[(current, Lambda)];
          if target !in closure {
            ClosureClosed(transitions, state, current);
            closure := closure + {target};
            queue := queue + [target];
          }
        }
      }
      ClosureLeast(transitions, state, closure);
    }

    /** generateStateName: "{", the members in ascending order with a comma before each one after the first written, "}". */
    method GenerateStateName(stateSet: set<State>) returns (name: string)
      ensures name == StateName(stateSet)
    {
      name := "{";
      var pending := stateSet;
      ghost var written: seq<State> := [];
      while pending != {}
        invariant Ascending(stateSet) == written + Ascending(pending)
        invariant name == "{" + NameBody(written)
        decreases |pending|
      {
        LeastExists(pending);
        var state :| IsLeast(state, pending);
        ghost var body := NameBody(written);
        NamingStep(written, pending, state);
        if |name| > 1 {
          name := name + ",";
        }
        name := name + state;
        assert name == "{" + ((if |body| > 0 then body + "," else body) + state);
        written := written + [state];
        pending := pending - {state};
      }
      assert Ascending(pending) == [];
      assert written == Ascending(stateSet);
      name := name + "}";
    }

    /** Whether some member of X is a final state (the inner loops at the two places a composite is recorded). */
    method IntersectsFinal(X: set<State>) returns (final: bool)
      ensures final <==> X * finalStates != {}
    {
      var pending := X;
      while pending != {}
        invariant pending <= X
        invariant (X - pending) * finalStates == {}
        decreases |pending|
      {
        var state :| state in pending;
        if state in finalStates {
          assert state in X * finalStates;
          return true;
        }
        pending := pending - {state};
      }
      assert X - pending == X;
      return false;
    }

    /** The lambdaClosure table holds the closure of every state and nothing else. */
    ghost predicate ClosureTable(table: map<State, set<State>>)
      reads this
    {
      table.Keys == states && forall t | t in table :: table[t] == LambdaClosure(transitions, t)
    }

    /** The table of lambda closures convertToDFA fills before it starts. */
    method ClosureTableOf() returns (table: map<State, set<State>>)
      ensures ClosureTable(table)
    {
      table := map[];
      var pending := states;
      while pending != {}
        invariant pending <= states
        invariant table.Keys == states - pending
        invariant forall t | t in table :: table[t] == LambdaClosure(transitions, t)
        decreases |pending|
      {
        var state :| state in pending;
        var closure := CalculateLambdaClosure(state);
        table := table[state := closure];
        pending := pending - {state};
      }
    }

    /** The composite reached from currentSet on symbol, built member by member. */
    method MoveOf(currentSet: set<State>, symbol: char, table: map<State, set<State>>) returns (newSet: set<State>)
      requires ClosureTable(table)
      ensures newSet == Move(states, transitions, currentSet, symbol)
    {
      newSet := {};
      var pending := currentSet;
      MoveEmpty(states, transitions, symbol);
      while pending != {}
        invariant pending <= currentSet
        invariant newSet == Move(states, transitions, currentSet - pending, symbol)
        decreases |pending|
      {
        var state :| state in pending;
        MoveAdd(states, transitions, currentSet - pending, state, symbol);
        if (state, symbol) in transitions {
          var targetState := transitions[(state, symbol)];
          newSet := newSet + Lookup(table, targetState);
        }
        assert currentSet - (pending - {state}) == (currentSet - pending) + {state};
        pending := pending - {state};
      }
      assert currentSet - pending == currentSet;
    }

    /**
     * A composite reached for the first time in convertToDFA: it is named,
     * entered into the state mapping and the new states, queued, and made
     * final when it holds a final state.
     */
    method RecordComposite(newSet: set<State>, stateMapping: map<set<State>, State>, newStates: set<State>,
                           newFinalStates: set<State>, ghost newTransitions: Transitions,
                           ghost origin: map<(State, char), set<State>>, stateQueue: seq<set<State>>)
      returns (stateMapping': map<set<State>, State>, newStates': set<State>, newFinalStates': set<State>,
               stateQueue': seq<set<State>>)
      requires Worklist(states, alphabet, transitions, finalStates, stateMapping, newStates, newFinalStates,
                        newTransitions, origin, stateQueue)
      requires newSet !in stateMapping && newSet <= Universe(states, transitions)
      ensures stateMapping' == stateMapping[newSet := StateName(newSet)]
      ensures stateQueue' == stateQueue + [newSet]
      ensures Worklist(states, alphabet, transitions, finalStates, stateMapping', newStates', newFinalStates',
                       newTransitions, origin, stateQueue')
    {
      var newSetName := GenerateStateName(newSet);
      RecordNew(states, alphabet, transitions, finalStates, stateMapping, newStates, newFinalStates,
                newTransitions, origin, stateQueue, newSet, newSetName);
      stateMapping' := stateMapping[newSet := newSetName];
      newStates' := newStates + {newSetName};
      stateQueue' := stateQueue + [newSet];
      newFinalStates' := newFinalStates;
      var isFinal := IntersectsFinal(newSet);
      if isFinal {
        newFinalStates' := newFinalStates + {newSetName};
      }
    }

    /**
     * One round of the loop over the alphabet in convertToDFA: the move of
     * currentSet on symbol is recorded if it is new and non-empty, and the
     * transition to it is written.
     */
    method ExpandSymbol(currentSet: set<State>, currentStateName: State, symbol: char,
                        lambdaClosure: map<State, set<State>>,
                        stateMapping: map<set<State>, State>, newStates: set<State>, newFinalStates: set<State>,
                        newTransitions: Transitions, ghost origin: map<(State, char), set<State>>,
                        stateQueue: seq<set<State>>, ghost X0: set<State>)
      returns (stateMapping': map<set<State>, State>, newStates': set<State>, newFinalStates': set<State>,
               newTransitions': Transitions, ghost origin': map<(State, char), set<State>>,
               stateQueue': seq<set<State>>)
      requires ClosureTable(lambdaClosure) && symbol in alphabet
      requires Worklist(states, alphabet, transitions, finalStates, stateMapping, newStates, newFinalStates,
                        newTransitions, origin, stateQueue)
      requires currentSet in stateMapping && currentStateName == stateMapping[currentSet]
      requires AllReachable(states, alphabet, transitions, X0, stateMapping)
      ensures var X := Move(states, transitions, currentSet, symbol);
        && stateMapping' == (if X != {} && X !in stateMapping then stateMapping[X := StateName(X)] else stateMapping)
        && stateQueue' == stateQueue + (if X != {} && X !in stateMapping then [X] else [])
        && newTransitions' == (if X != {} then newTransitions[(currentStateName, symbol) := stateMapping'[X]]
                               else newTransitions)
      ensures Worklist(states, alphabet, transitions, finalStates, stateMapping', newStates', newFinalStates',
                       newTransitions', origin', stateQueue')
      ensures AllReachable(states, alphabet, transitions, X0, stateMapping')
      ensures Grows(stateMapping, newTransitions, stateQueue, stateMapping', newTransitions', stateQueue')
      ensures Expanded(states, transitions, stateMapping', newTransitions', currentSet, symbol)
    {
      stateMapping', newStates', newFinalStates' := stateMapping, newStates, newFinalStates;
      newTransitions', origin', stateQueue' := newTransitions, origin, stateQueue;
      var newSet := MoveOf(currentSet, symbol, lambdaClosure);
      if newSet != {} {
        if newSet !in stateMapping {
          MoveWithin(states, transitions, currentSet, symbol);
          ReachableMove(states, alphabet, transitions, X0, currentSet, symbol);
          AllReachableAdd(states, alphabet, transitions, X0, stateMapping, newSet, StateName(newSet));
          stateMapping', newStates', newFinalStates', stateQueue' :=
            RecordComposite(newSet, stateMapping, newStates, newFinalStates, newTransitions, origin, stateQueue);
        }
        RecordStep(states, alphabet, transitions, finalStates, stateMapping', newStates', newFinalStates',
                   newTransitions, origin, stateQueue', currentSet, symbol);
        newTransitions' := newTransitions[(currentStateName, symbol) := stateMapping'[newSet]];
        origin' := origin[(currentStateName, symbol) := currentSet];
      }
    }

    /**
     * One round of the loop over the alphabet in convertToDFA: the least
     * pending symbol is taken and currentSet is expanded on it.
     */
    method ExpandRound(currentSet: set<State>, currentStateName: State, pendingSymbols: set<char>,
                       ghost done: set<char>, lambdaClosure: map<State, set<State>>,
                       ghost stateMapping0: map<set<State>, State>, ghost newTransitions0: Transitions,
                       ghost stateQueue0: seq<set<State>>,
                       stateMapping: map<set<State>, State>, newStates: set<State>, newFinalStates: set<State>,
                       newTransitions: Transitions, ghost origin: map<(State, char), set<State>>,
                       stateQueue: seq<set<State>>, ghost X0: set<State>)
      returns (pendingSymbols': set<char>, ghost done': set<char>,
               stateMapping': map<set<State>, State>, newStates': set<State>, newFinalStates': set<State>,
               newTransitions': Transitions, ghost origin': map<(State, char), set<State>>,
               stateQueue': seq<set<State>>)
      requires ClosureTable(lambdaClosure) && pendingSymbols != {}
      requires done + pendingSymbols == alphabet && done !! pendingSymbols
      requires currentSet in stateMapping0 && currentStateName == stateMapping0[currentSet]
      requires AlphabetLoop(states, alphabet, transitions, finalStates, X0, currentSet, currentStateName, done,
                            stateMapping0, newTransitions0, stateQueue0,
                            stateMapping, newStates, newFinalStates, newTransitions, origin, stateQueue)
      ensures done' + pendingSymbols' == alphabet && done' !! pendingSymbols'
      ensures |pendingSymbols'| < |pendingSymbols|
      ensures AlphabetLoop(states, alphabet, transitions, finalStates, X0, currentSet, currentStateName, done',
                           stateMapping0, newTransitions0, stateQueue0,
                           stateMapping', newStates', newFinalStates', newTransitions', origin', stateQueue')
    {
      LeastCharExists(pendingSymbols);
      var symbol :| symbol in pendingSymbols && forall d | d in pendingSymbols :: symbol <= d;
      stateMapping', newStates', newFinalStates', newTransitions', origin', stateQueue' :=
        ExpandSymbol(currentSet, currentStateName, symbol, lambdaClosure, stateMapping, newStates,
                     newFinalStates, newTransitions, origin, stateQueue, X0);
      ExpandedOnStep(states, transitions, currentSet, currentStateName, done, symbol,
                     stateMapping0, newTransitions0, stateQueue0, stateMapping, newTransitions, stateQueue,
                     stateMapping', newTransitions', stateQueue');
      GrowsTransitive(stateMapping0, newTransitions0, stateQueue0, stateMapping, newTransitions, stateQueue,
                      stateMapping', newTransitions', stateQueue');
      MoveSymbol(alphabet, done, pendingSymbols, symbol);
      done' := done + {symbol};
      pendingSymbols' := pendingSymbols - {symbol};
    }

    /**
     * The loop over the alphabet in convertToDFA: the composite currentSet
     * (recorded as currentStateName) is expanded on every symbol, in ascending
     * order.
     */
    method ExpandComposite(currentSet: set<State>, currentStateName: State, lambdaClosure: map<State, set<State>>,
                           stateMapping: map<set<State>, State>, newStates: set<State>, newFinalStates: set<State>,
                           newTransitions: Transitions, ghost origin: map<(State, char), set<State>>,
                           stateQueue: seq<set<State>>, ghost X0: set<State>)
      returns (stateMapping': map<set<State>, State>, newStates': set<State>, newFinalStates': set<State>,
               newTransitions': Transitions, ghost origin': map<(State, char), set<State>>,
               stateQueue': seq<set<State>>)
      requires ClosureTable(lambdaClosure)
      requires Worklist(states, alphabet, transitions, finalStates, stateMapping, newStates, newFinalStates,
                        newTransitions, origin, stateQueue)
      requires currentSet in stateMapping && currentStateName == stateMapping[currentSet]
      requires AllReachable(states, alphabet, transitions, X0, stateMapping)
      ensures ExpandedOn(states, transitions, currentSet, currentStateName, alphabet,
                         stateMapping, newTransitions, stateQueue, stateMapping', newTransitions', stateQueue')
      ensures Worklist(states, alphabet, transitions, finalStates, stateMapping', newStates', newFinalStates',
                       newTransitions', origin', stateQueue')
      ensures AllReachable(states, alphabet, transitions, X0, stateMapping')
      ensures Grows(stateMapping, newTransitions, stateQueue, stateMapping', newTransitions', stateQueue')
      ensures forall c | c in alphabet :: Expanded(states, transitions, stateMapping', newTransitions', currentSet, c)
    {
      stateMapping', newStates', newFinalStates' := stateMapping, newStates, newFinalStates;
      newTransitions', origin', stateQueue' := newTransitions, origin, stateQueue;
      var pendingSymbols := alphabet;
      ghost var done: set<char> := {};
      AlphabetLoopStart(states, alphabet, transitions, finalStates, X0, currentSet, currentStateName,
                        stateMapping, newStates, newFinalStates, newTransitions, origin, stateQueue);
      while pendingSymbols != {}
        invariant done + pendingSymbols == alphabet && done !! pendingSymbols
        invariant AlphabetLoop(states, alphabet, transitions, finalStates, X0, currentSet, currentStateName, done,
                               stateMapping, newTransitions, stateQueue,
                               stateMapping', newStates', newFinalStates', newTransitions', origin', stateQueue')
        decreases |pendingSymbols|
      {
        pendingSymbols, done, stateMapping', newStates', newFinalStates', newTransitions', origin', stateQueue' :=
          ExpandRound(currentSet, currentStateName, pendingSymbols, done, lambdaClosure,
                      stateMapping, newTransitions, stateQueue, stateMapping', newStates',
                      newFinalStates', newTransitions', origin', stateQueue', X0);
      }
      AlphabetLoopEnd(states, alphabet, transitions, finalStates, X0, currentSet, currentStateName, done,
                      stateMapping, newTransitions, stateQueue,
                      stateMapping', newStates', newFinalStates', newTransitions', origin', stateQueue');
    }

    /**
     * One round of the outer loop of convertToDFA: the composite at the head
     * of the queue leaves it and is expanded on every symbol.
     */
    method ExpandNext(lambdaClosure: map<State, set<State>>,
                      ghost stateMapping0: map<set<State>, State>, ghost stateQueue0: seq<set<State>>,
                      stateMapping: map<set<State>, State>, newStates: set<State>, newFinalStates: set<State>,
                      newTransitions: Transitions, ghost origin: map<(State, char), set<State>>,
                      queue: seq<set<State>>, ghost rounds: nat, ghost X0: set<State>)
      returns (stateMapping': map<set<State>, State>, newStates': set<State>, newFinalStates': set<State>,
               newTransitions': Transitions, ghost origin': map<(State, char), set<State>>,
               queue': seq<set<State>>, ghost rounds': nat)
      requires ClosureTable(lambdaClosure) && queue != []
      requires QueueLoop(states, alphabet, transitions, finalStates, X0, stateMapping0, stateQueue0,
                         stateMapping, newStates, newFinalStates, newTransitions, origin, queue, rounds)
      ensures QueueLoop(states, alphabet, transitions, finalStates, X0, stateMapping0, stateQueue0,
                        stateMapping', newStates', newFinalStates', newTransitions', origin', queue', rounds')
      ensures |stateMapping| <= |stateMapping'| <= Pow2(|Universe(states, transitions)|)
      ensures |stateMapping'| > |stateMapping| || |queue'| < |queue|
    {
      var currentSet := queue[0];
      var rest := queue[1..];
      assert queue == [currentSet] + rest;
      var currentStateName := stateMapping[currentSet];
      stateMapping', newStates', newFinalStates', newTransitions', origin', queue' :=
        ExpandComposite(currentSet, currentStateName, lambdaClosure, stateMapping, newStates, newFinalStates,
                        newTransitions, origin, rest, X0);
      rounds' := rounds + 1;
      DequeueStep(states, alphabet, transitions, stateMapping, newTransitions, queue, currentSet, rest,
                  stateMapping', newTransitions', queue');
      CompositeBound(stateMapping', Universe(states, transitions));
    }

    /**
     * The outer loop of convertToDFA: composites leave the queue in the order
     * they were recorded and each is expanded on every symbol. When the queue
     * is empty every recorded composite has been expanded.
     */
    method ExpandAll(lambdaClosure: map<State, set<State>>,
                     stateMapping: map<set<State>, State>, newStates: set<State>, newFinalStates: set<State>,
                     newTransitions: Transitions, ghost origin: map<(State, char), set<State>>,
                     stateQueue: seq<set<State>>, ghost X0: set<State>)
      returns (stateMapping': map<set<State>, State>, newStates': set<State>, newFinalStates': set<State>,
               newTransitions': Transitions, ghost origin': map<(State, char), set<State>>, ghost rounds: nat)
      requires ClosureTable(lambdaClosure)
      requires Worklist(states, alphabet, transitions, finalStates, stateMapping, newStates, newFinalStates,
                        newTransitions, origin, stateQueue)
      requires AllReachable(states, alphabet, transitions, X0, stateMapping)
      requires forall X, c | X in stateMapping && X !in stateQueue && c in alphabet ::
        Expanded(states, transitions, stateMapping, newTransitions, X, c)
      ensures Worklist(states, alphabet, transitions, finalStates, stateMapping', newStates', newFinalStates',
                       newTransitions', origin', [])
      ensures forall X, c | X in stateMapping' && c in alphabet ::
        Expanded(states, transitions, stateMapping', newTransitions', X, c)
      ensures AllReachable(states, alphabet, transitions, X0, stateMapping')
      ensures stateMapping.Keys <= stateMapping'.Keys
      ensures rounds == |stateMapping'| - |stateMapping| + |stateQueue|
    {
      stateMapping', newStates', newFinalStates', newTransitions', origin' :=
        stateMapping, newStates, newFinalStates, newTransitions, origin;
      var queue := stateQueue;
      rounds := 0;
      CompositeBound(stateMapping, Universe(states, transitions));
      while queue != []
        invariant QueueLoop(states, alphabet, transitions, finalStates, X0, stateMapping, stateQueue,
                            stateMapping', newStates', newFinalStates', newTransitions', origin', queue, rounds)
        invariant |stateMapping'| <= Pow2(|Universe(states, transitions)|)
        decreases Pow2(|Universe(states, transitions)|) - |stateMapping'|, |queue|
      {
        stateMapping', newStates', newFinalStates', newTransitions', origin', queue, rounds :=
          ExpandNext(lambdaClosure, stateMapping, stateQueue, stateMapping', newStates', newFinalStates',
                     newTransitions', origin', queue, rounds, X0);
      }
    }

    /**
     * The start of convertToDFA: the closure of the initial state is the
     * first composite, named, queued and tested for finality; no transition
     * is written yet.
     */
    method StartConversion(lambdaClosure: map<State, set<State>>)
      returns (initialClosure: set<State>, newInitialState: State,
               stateMapping: map<set<State>, State>, newStates: set<State>, newFinalStates: set<State>,
               newTransitions: Transitions, ghost origin: map<(State, char), set<State>>,
               stateQueue: seq<set<State>>)
      requires ClosureTable(lambdaClosure)
      ensures initialClosure == ClosureOf(states, transitions, initialState)
      ensures newInitialState == StateName(initialClosure)
      ensures stateMapping == map[initialClosure := newInitialState] && stateQueue == [initialClosure]
      ensures newTransitions == map[]
      ensures Worklist(states, alphabet, transitions, finalStates, stateMapping, newStates, newFinalStates,
                       newTransitions, origin, stateQueue)
      ensures AllReachable(states, alphabet, transitions, initialClosure, stateMapping)
    {
      newStates := {};
      newTransitions := map[];
      newFinalStates := {};
      stateMapping := map[];
      origin := map[];

      initialClosure := Lookup(lambdaClosure, initialState);
      ClosureOfWithin(states, transitions, initialState);
      newInitialState := GenerateStateName(initialClosure);
      RecordNew(states, alphabet, transitions, finalStates, stateMapping, newStates, newFinalStates,
                newTransitions, origin, [], initialClosure, newInitialState);
      newStates := newStates + {newInitialState};
      stateMapping := stateMapping[initialClosure := newInitialState];
      stateQueue := [initialClosure];
      var initialIsFinal := IntersectsFinal(initialClosure);
      if initialIsFinal {
        newFinalStates := newFinalStates + {newInitialState};
      }
      ReachableStart(states, alphabet, transitions, initialClosure);
    }

    /**
     * convertToDFA: the subset construction. Starting from the closure of the
     * initial state, each composite is recorded (named, queued, tested for
     * finality) the first time it is reached, and expanded on every symbol
     * when it leaves the queue.
     */
    method ConvertToDFA() returns (dfa: DeterministicFiniteAutomaton,
                                   ghost composites: map<set<State>, State>, ghost rounds: nat)
      ensures fresh(dfa)
      ensures dfa.alphabet == alphabet
      ensures ClosureOf(states, transitions, initialState) in composites
      ensures dfa.initialState == composites[ClosureOf(states, transitions, initialState)]
      ensures dfa.initialState == StateName(ClosureOf(states, transitions, initialState))
      ensures forall X :: X in composites <==>
        Reachable(states, alphabet, transitions, ClosureOf(states, transitions, initialState), X)
      ensures NamedWithin(composites, Universe(states, transitions))
      ensures dfa.states == composites.Values
      ensures dfa.finalStates == FinalNames(composites, finalStates)
      ensures forall X, c | X in composites && c in alphabet ::
        Expanded(states, transitions, composites, dfa.transitions, X, c)
      ensures forall k | k in dfa.transitions ::
        k.1 in alphabet && Produced(states, transitions, composites, dfa.transitions, k)
      ensures dfa.WellFormed()
      ensures rounds == |composites| <= Pow2(|Universe(states, transitions)|)
      ensures WellFormed() ==> rounds <= Pow2(|states|)
      ensures (forall x | x in Universe(states, transitions) :: Plain(x)) ==>
        forall w :: dfa.Accepts(w) <==>
          InAlphabet(w, alphabet) && SubsetRun(states, transitions, ClosureOf(states, transitions, initialState), w)
                                     * finalStates != {}
    {
      var lambdaClosure := ClosureTableOf();
      var initialClosure, newInitialState, stateMapping, newStates, newFinalStates, newTransitions, origin, stateQueue :=
        StartConversion(lambdaClosure);
      stateMapping, newStates, newFinalStates, newTransitions, origin, rounds :=
        ExpandAll(lambdaClosure, stateMapping, newStates, newFinalStates, newTransitions, origin, stateQueue,
                  initialClosure);
      ConversionFinished(states, alphabet, transitions, finalStates, stateMapping, newStates, newFinalStates,
                         newTransitions, origin, initialClosure);
      if WellFormed() {
        UniverseOfValid(states, alphabet, transitions, initialState, finalStates);
      }
      dfa := new DeterministicFiniteAutomaton(newStates, alphabet, newTransitions, newInitialState, newFinalStates);
      composites := stateMapping;
    }
  }

  // ---------------------------------------------------------------------------
  // buildLambdaNFA: one fragment per letter of the Polish form
  // ---------------------------------------------------------------------------

  /** The decimal digit d. */
  function Digit(d: nat): (c: char)
    requires d < 10
    ensures IsDigit(c) && c as int - '0' as int == d
  {
    (('0' as int) + d) as char
  }

  /** std::to_string of a non-negative number: its decimal numeral, without leading zeros. */
  function Decimal(n: nat): (r: string)
    ensures |r| >= 1 && r[|r| - 1] == Digit(n % 10)
    ensures forall i :: 0 <= i < |r| ==> IsDigit(r[i])
    decreases n
  {
    if n < 10 then [Digit(n)] else Decimal(n / 10) + [Digit(n % 10)]
  }

  /** Different numbers have different numerals. */
  lemma {:induction false} DecimalInjective(m: nat, n: nat)
    requires Decimal(m) == Decimal(n)
    ensures m == n
    decreases m
  {
    var r := Decimal(m);
    assert m % 10 == n % 10 by {
      assert Digit(m % 10) == r[|r| - 1] == Digit(n % 10);
    }
    if m >= 10 && n >= 10 {
      assert Decimal(m / 10) == r[..|r| - 1] == Decimal(n / 10);
      DecimalInjective(m / 10, n / 10);
    }
  }

  /** The name "q" + std::to_string(n) the builder gives its n-th state. */
  function Label(n: nat): State
  {
    "q" + Decimal(n)
  }

  /** The builder's state names are plain: non-empty and free of commas. */
  lemma LabelPlain(n: nat)
    ensures Plain(Label(n))
  {
    var r := Label(n);
    forall i | 0 <= i < |r| ensures r[i] != ',' {
      if i > 0 {
        assert r[i] == Decimal(n)[i - 1];
      }
    }
  }

  lemma LabelInjective(m: nat, n: nat)
    requires Label(m) == Label(n)
    ensures m == n
  {
    assert Decimal(m) == Label(m)[1..] && Decimal(n) == Label(n)[1..];
    DecimalInjective(m, n);
  }

  /** How many letters p holds. */
  function LetterCount(p: string): nat
  {
    if p == [] then 0 else LetterCount(p[..|p| - 1]) + (if IsAlpha(p[|p| - 1]) then 1 else 0)
  }

  /** The last letter of p. */
  function LastLetter(p: string): (x: char)
    requires LetterCount(p) > 0
    ensures IsAlpha(x) && x in p
  {
    var c := p[|p| - 1];
    if IsAlpha(c) then c else LastLetter(p[..|p| - 1])
  }

  /**
   * The fragment for the k-th letter x (counted from 0): states q(2k) and
   * q(2k+1), alphabet {x}, the one transition from q(2k) to q(2k+1) on x,
   * initial q(2k) and final q(2k+1).
   */
  predicate IsFragment(a: DeterministicFiniteAutomaton, k: nat, x: char)
    reads a
  {
    && a.states == {Label(2 * k), Label(2 * k + 1)}
    && a.alphabet == {x}
    && a.transitions == map[(Label(2 * k), x) := Label(2 * k + 1)]
    && a.initialState == Label(2 * k)
    && a.finalStates == {Label(2 * k + 1)}
  }

  /** A one-transition automaton from s to t on x reaches t on exactly the word [x]. */
  lemma {:induction false} SingleStepRun(s: State, t: State, x: char, w: string)
    requires s != t
    ensures Run({x}, map[(s, x) := t], s, w) == if w == [] then Some(s) else if w == [x] then Some(t) else None
    decreases |w|
  {
    if w != [] {
      var v, c := w[..|w| - 1], w[|w| - 1];
      assert w == v + [c];
      SingleStepRun(s, t, x, v);
      if v != [] {
        assert w != [x];
      }
    }
  }

  /** The fragment for a letter is well formed and accepts exactly that one-letter word. */
  lemma FragmentLanguage(a: DeterministicFiniteAutomaton, k: nat, x: char)
    requires IsFragment(a, k, x)
    ensures a.WellFormed()
    ensures forall w :: a.Accepts(w) <==> w == [x]
  {
    if Label(2 * k) == Label(2 * k + 1) {
      LabelInjective(2 * k, 2 * k + 1);
    }
    forall w ensures a.Accepts(w) <==> w == [x] {
      SingleStepRun(Label(2 * k), Label(2 * k + 1), x, w);
    }
  }

  /** Reading one more character of p: a letter is counted and becomes the last letter. */
  lemma LetterCountNext(p: string, i: nat)
    requires i < |p|
    ensures LetterCount(p[..i + 1]) == LetterCount(p[..i]) + (if IsAlpha(p[i]) then 1 else 0)
    ensures IsAlpha(p[i]) ==> LastLetter(p[..i + 1]) == p[i]
    ensures !IsAlpha(p[i]) && LetterCount(p[..i]) > 0 ==> LastLetter(p[..i + 1]) == LastLetter(p[..i])
  {
    assert p[..i + 1][..i] == p[..i];
  }

  /**
   * buildLambdaNFA: every letter of the Polish form pushes its own fragment,
   * numbered on from the previous one; the operator symbols and everything
   * else are skipped. The result is the fragment of the last letter: the
   * first fragments stay on the stack unused.
   */
  method BuildLambdaNFA(polishExpression: string) returns (automaton: DeterministicFiniteAutomaton)
    requires LetterCount(polishExpression) > 0
    ensures fresh(automaton)
    ensures IsFragment(automaton, LetterCount(polishExpression) - 1, LastLetter(polishExpression))
    ensures automaton.WellFormed()
    ensures forall w :: automaton.Accepts(w) <==> w == [LastLetter(polishExpression)]
  {
    var automataStack: seq<DeterministicFiniteAutomaton> := [];
    var stateCounter: nat := 0;
    for i := 0 to |polishExpression|
      invariant stateCounter == 2 * LetterCount(polishExpression[..i])
      invariant |automataStack| == LetterCount(polishExpression[..i])
      invariant automataStack != [] ==> fresh(automataStack[|automataStack| - 1])
      invariant automataStack != [] ==>
        IsFragment(automataStack[|automataStack| - 1], |automataStack| - 1, LastLetter(polishExpression[..i]))
    {
      var symbol := polishExpression[i];
      LetterCountNext(polishExpression, i);
      if IsAlpha(symbol) {
        var fragment := new DeterministicFiniteAutomaton(
          {Label(stateCounter), Label(stateCounter + 1)}, {symbol},
          map[(Label(stateCounter), symbol) := Label(stateCounter + 1)],
          Label(stateCounter), {Label(stateCounter + 1)});
        automataStack := automataStack + [fragment];
        stateCounter := stateCounter + 2;
      }
      // The '|', '.' and '*' branches of the source are empty, so every other character is skipped.
    }
    assert polishExpression[..|polishExpression|] == polishExpression;
    automaton := automataStack[|automataStack| - 1];
    FragmentLanguage(automaton, LetterCount(polishExpression) - 1, LastLetter(polishExpression));
  }
}
