/**
 * The infix-to-postfix converter: explicit concatenation insertion
 * (addPlusBetweenChars) and a shunting-yard pass over an operator stack
 * (toPolishNotation, handleOperator).
 *
 * An operator stack is a seq<char> whose LAST element is the top.
 */
module PolishForm {
  import opened Wrappers
  import opened CharClass

  // ---------------------------------------------------------------------------
  // Operators and precedence
  // ---------------------------------------------------------------------------

  /** Binding strength: '*' and '/' bind tighter than '+' and '-'; 0 means "not an operator". */
  function Precedence(c: char): (p: nat)
    ensures p <= 2
  {
    if c == '*' || c == '/' then 2
    else if c == '+' || c == '-' then 1
    else 0
  }

  /** isOperator: the four recognised operator characters. */
  function IsOperator(c: char): (b: bool)
    ensures b <==> Precedence(c) > 0
  {
    c == '+' || c == '-' || c == '*' || c == '/'
  }

  /** isBinaryOperator: only '+' and '/' are classified as binary. */
  function IsBinaryOperator(c: char): (b: bool)
    ensures b ==> IsOperator(c)
    ensures b ==> c != '-' && c != '*'
  {
    c == '+' || c == '/'
  }

  /** isHigherPrecedence: strictly higher, so operators of equal precedence never pop each other. */
  function IsHigherPrecedence(op1: char, op2: char): (b: bool)
    ensures b <==> IsOperator(op1) && IsOperator(op2) && Precedence(op1) > Precedence(op2)
    ensures Precedence(op1) == Precedence(op2) ==> !b
  {
    (op1 == '*' || op1 == '/') && (op2 == '+' || op2 == '-')
  }

  // ---------------------------------------------------------------------------
  // Stack helpers
  // ---------------------------------------------------------------------------

  /** The characters of s from last to first: what popping a whole stack emits. */
  function Reverse(s: seq<char>): (r: seq<char>)
    ensures |r| == |s|
    ensures forall i :: 0 <= i < |s| ==> r[i] == s[|s| - 1 - i]
  {
    if s == [] then [] else [s[|s| - 1]] + Reverse(s[..|s| - 1])
  }

  /** Popping the entry at n - 1 onto the output extends the emitted suffix by one. */
  lemma ReverseStep(s: seq<char>, n: nat)
    requires 0 < n <= |s|
    ensures Reverse(s[n - 1..]) == Reverse(s[n..]) + [s[n - 1]]
  {
    assert s[n - 1..][1..] == s[n..];
  }

  /** handleOperator pops `top` while processing `op` exactly when this holds. */
  predicate Poppable(top: char, op: char)
  {
    top != '(' && IsHigherPrecedence(top, op)
  }

  /**
   * The height at which handleOperator stops popping: every entry above it
   * is poppable and the entry just below it (if any) is not.
   */
  function StopPoint(stack: seq<char>, op: char): (k: nat)
    ensures k <= |stack|
    ensures forall j :: k <= j < |stack| ==> Poppable(stack[j], op)
    ensures k == 0 || !Poppable(stack[k - 1], op)
  {
    if stack != [] && Poppable(stack[|stack| - 1], op) then StopPoint(stack[..|stack| - 1], op)
    else |stack|
  }

  /**
   * The index of the topmost '(' of the stack, or -1 when there is none:
   * where the ')' case stops popping.
   */
  function OpenIndex(stack: seq<char>): (k: int)
    ensures -1 <= k < |stack|
    ensures k >= 0 ==> stack[k] == '('
    ensures forall j :: k < j < |stack| ==> stack[j] != '('
  {
    if stack == [] then -1
    else if stack[|stack| - 1] == '(' then |stack| - 1
    else OpenIndex(stack[..|stack| - 1])
  }

  // ---------------------------------------------------------------------------
  // handleOperator
  // ---------------------------------------------------------------------------

  /**
   * handleOperator: pop onto the output, top first, every operator of strictly
   * higher precedence down to the first '(' or weaker entry, then push op.
   * The entries below the stopping point are left as they were.
   */
  method HandleOperator(op: char, stack: seq<char>, polish: string)
    returns (stack': seq<char>, polish': string)
    ensures stack' == stack[..StopPoint(stack, op)] + [op]
    ensures polish' == polish + Reverse(stack[StopPoint(stack, op)..])
  {
    stack', polish' := stack, polish;
    while stack' != [] && stack'[|stack'| - 1] != '(' && IsHigherPrecedence(stack'[|stack'| - 1], op)
      invariant |stack'| <= |stack| && stack' == stack[..|stack'|]
      invariant StopPoint(stack', op) == StopPoint(stack, op)
      invariant polish' == polish + Reverse(stack[|stack'|..])
      decreases |stack'|
    {
      var n := |stack'|;
      ReverseStep(stack, n);
      polish' := polish' + [stack'[n - 1]];
      stack' := stack'[..n - 1];
    }
    stack' := stack' + [op];
  }

  // ---------------------------------------------------------------------------
  // toPolishNotation: specification
  // ---------------------------------------------------------------------------

  /** The converter's state between two input characters. */
  datatype ScanState = ScanState(operators: seq<char>, polish: string)

  /** The characters the converter accepts; any other one makes it return "". */
  predicate Accepted(c: char)
  {
    c == ' ' || IsAlnum(c) || c == '(' || c == ')' || IsOperator(c)
  }

  predicate AllAccepted(s: string)
  {
    forall i :: 0 <= i < |s| ==> Accepted(s[i])
  }

  /** The ')' case: emit everything above the topmost '(' and drop it; with no '(' the stack empties. */
  function CloseGroup(st: ScanState): ScanState
  {
    var k := OpenIndex(st.operators);
    if k >= 0 then ScanState(st.operators[..k], st.polish + Reverse(st.operators[k + 1..]))
    else ScanState([], st.polish + Reverse(st.operators))
  }

  /** The operator case, as handleOperator performs it. */
  function PushOperator(st: ScanState, op: char): ScanState
  {
    var k := StopPoint(st.operators, op);
    ScanState(st.operators[..k] + [op], st.polish + Reverse(st.operators[k..]))
  }

  /** One character of the main loop; None is the early return of "". */
  function Step(st: ScanState, c: char): Option<ScanState>
  {
    if c == ' ' then Some(st)
    else if IsAlnum(c) then Some(ScanState(st.operators, st.polish + [c]))
    else if c == '(' then Some(ScanState(st.operators + ['('], st.polish))
    else if c == ')' then Some(CloseGroup(st))
    else if IsOperator(c) then Some(PushOperator(st, op := c))
    else None
  }

  /** The state after the main loop has read all of s, or None if it returned early. */
  function Scan(s: string): Option<ScanState>
  {
    if s == [] then Some(ScanState([], ""))
    else match Scan(s[..|s| - 1])
      case None => None
      case Some(st) => Step(st, s[|s| - 1])
  }

  /** What toPolishNotation returns: the output followed by the stack flushed top first. */
  function PolishNotation(s: string): string
  {
    match Scan(s)
    case None => ""
    case Some(st) => st.polish + Reverse(st.operators)
  }

  lemma ScanNext(s: string, i: nat)
    requires i < |s| && Scan(s[..i]).Some?
    ensures Scan(s[..i + 1]) == Step(Scan(s[..i]).value, s[i])
  {
    assert s[..i + 1][..i] == s[..i];
  }

  lemma {:induction false} ScanFailureSticks(s: string, n: nat)
    requires n <= |s| && Scan(s[..n]) == None
    ensures Scan(s) == None
    decreases |s| - n
  {
    if n < |s| {
      var t := s[..|s| - 1];
      assert t[..n] == s[..n];
      ScanFailureSticks(t, n);
    } else {
      assert s[..n] == s;
    }
  }

  // ---------------------------------------------------------------------------
  // toPolishNotation
  // ---------------------------------------------------------------------------

  /** The ')' case of toPolishNotation: pop to the output down to the nearest '(', which is dropped. */
  method CloseParenthesis(operators: seq<char>, polish: string) returns (operators': seq<char>, polish': string)
    ensures ScanState(operators', polish') == CloseGroup(ScanState(operators, polish))
  {
    operators', polish' := operators, polish;
    while operators' != [] && operators'[|operators'| - 1] != '('
      invariant |operators'| <= |operators| && operators' == operators[..|operators'|]
      invariant OpenIndex(operators') == OpenIndex(operators)
      invariant polish' == polish + Reverse(operators[|operators'|..])
      decreases |operators'|
    {
      var n := |operators'|;
      ReverseStep(operators, n);
      polish' := polish' + [operators'[n - 1]];
      operators' := operators'[..n - 1];
    }
    if operators' != [] {
      operators' := operators'[..|operators'| - 1];
    }
  }

  /** The end of toPolishNotation: the operators left on the stack go to the output, top first. */
  method FlushStack(operators: seq<char>, polish: string) returns (polish': string)
    ensures polish' == polish + Reverse(operators)
  {
    var rest := operators;
    polish' := polish;
    while rest != []
      invariant polish' + Reverse(rest) == polish + Reverse(operators)
      decreases |rest|
    {
      polish' := polish' + [rest[|rest| - 1]];
      rest := rest[..|rest| - 1];
    }
  }

  /** toPolishNotation, proved against PolishNotation. */
  method ToPolishNotation(expression: string) returns (polish: string)
    ensures polish == PolishNotation(expression)
  {
    var operators: seq<char> := [];
    polish := "";
    var i := 0;
    while i < |expression|
      invariant 0 <= i <= |expression|
      invariant Scan(expression[..i]) == Some(ScanState(operators, polish))
    {
      var current := expression[i];
      ghost var st := ScanState(operators, polish);
      ScanNext(expression, i);
      if current == ' ' {
      } else if IsAlnum(current) {
        polish := polish + [current];
      } else if current == '(' {
        operators := operators + [current];
      } else if current == ')' {
        operators, polish := CloseParenthesis(operators, polish);
      } else if IsOperator(current) {
        operators, polish := HandleOperator(current, operators, polish);
        assert ScanState(operators, polish) == PushOperator(st, current);
      } else {
        assert Step(st, current) == None;
        ScanFailureSticks(expression, i + 1);
        return "";
      }
      i := i + 1;
    }
    assert expression[..i] == expression;
    polish := FlushStack(operators, polish);
  }

  // ---------------------------------------------------------------------------
  // toPolishNotation: properties
  // ---------------------------------------------------------------------------

  /** The operands (letters and digits) of s, in order. */
  function Operands(s: string): string
  {
    if s == [] then []
    else Operands(s[..|s| - 1]) + (if IsAlnum(s[|s| - 1]) then [s[|s| - 1]] else [])
  }

  /** The operator characters of s, counted with their multiplicities. */
  function OperatorBag(s: seq<char>): multiset<char>
  {
    if s == [] then multiset{}
    else OperatorBag(s[..|s| - 1]) + (if IsOperator(s[|s| - 1]) then multiset{s[|s| - 1]} else multiset{})
  }

  lemma {:induction false} OperandsAppend(a: string, b: string)
    ensures Operands(a + b) == Operands(a) + Operands(b)
    decreases |b|
  {
    if b == [] {
      assert a + b == a;
    } else {
      var b' := b[..|b| - 1];
      assert (a + b)[..|a + b| - 1] == a + b';
      OperandsAppend(a, b');
    }
  }

  lemma {:induction false} OperatorBagAppend(a: seq<char>, b: seq<char>)
    ensures OperatorBag(a + b) == OperatorBag(a) + OperatorBag(b)
    decreases |b|
  {
    if b == [] {
      assert a + b == a;
    } else {
      var b' := b[..|b| - 1];
      assert (a + b)[..|a + b| - 1] == a + b';
      OperatorBagAppend(a, b');
    }
  }

  lemma OperandsSnoc(s: string, c: char)
    ensures Operands(s + [c]) == Operands(s) + (if IsAlnum(c) then [c] else [])
  {
    assert (s + [c])[..|s|] == s;
  }

  lemma OperatorBagSnoc(s: seq<char>, c: char)
    ensures OperatorBag(s + [c]) == OperatorBag(s) + (if IsOperator(c) then multiset{c} else multiset{})
  {
    assert (s + [c])[..|s|] == s;
  }

  lemma OpensSnoc(s: string, c: char)
    ensures Opens(s + [c]) == Opens(s) + (if c == '(' then 1 else 0)
  {
    assert (s + [c])[..|s|] == s;
  }

  /** The stack's entries are never operands. */
  lemma {:induction false} OperandsOfStack(s: string)
    requires StackShaped(s)
    ensures Operands(s) == []
  {
    if s != [] {
      OperandsOfStack(s[..|s| - 1]);
    }
  }

  /**
   * How many '(' stay unmatched after s: a ')' closes the innermost open one,
   * and a ')' with none open is ignored.
   */
  function Depth(s: string): nat
  {
    if s == [] then 0
    else
      var d := Depth(s[..|s| - 1]);
      if s[|s| - 1] == '(' then d + 1
      else if s[|s| - 1] == ')' then (if d > 0 then d - 1 else 0)
      else d
  }

  /** The number of '(' in s. */
  function Opens(s: seq<char>): nat
  {
    if s == [] then 0 else Opens(s[..|s| - 1]) + (if s[|s| - 1] == '(' then 1 else 0)
  }

  lemma {:induction false} OpensAppend(a: seq<char>, b: seq<char>)
    ensures Opens(a + b) == Opens(a) + Opens(b)
    decreases |b|
  {
    if b == [] {
      assert a + b == a;
    } else {
      var b' := b[..|b| - 1];
      assert (a + b)[..|a + b| - 1] == a + b';
      OpensAppend(a, b');
    }
  }

  lemma {:induction false} OpensNone(s: seq<char>)
    requires '(' !in s
    ensures Opens(s) == 0
  {
    if s != [] {
      OpensNone(s[..|s| - 1]);
    }
  }

  lemma DepthNext(p: string, c: char)
    ensures Depth(p + [c]) == if c == '(' then Depth(p) + 1
      else if c == ')' then (if Depth(p) > 0 then Depth(p) - 1 else 0)
      else Depth(p)
  {
    assert (p + [c])[..|p|] == p;
  }

  /** A stack holds only operators and '('. */
  predicate StackShaped(ops: seq<char>)
  {
    forall i :: 0 <= i < |ops| ==> IsOperator(ops[i]) || ops[i] == '('
  }

  /** The output so far holds only operands and operators. */
  predicate OutputShaped(polish: string)
  {
    forall i :: 0 <= i < |polish| ==> IsAlnum(polish[i]) || IsOperator(polish[i])
  }

  /** What holds of the converter's state after it has read the prefix p. */
  predicate ScanInvariant(p: string, st: ScanState)
  {
    && Operands(st.polish) == Operands(p)
    && StackShaped(st.operators)
    && OutputShaped(st.polish)
    && OperatorBag(st.polish) + OperatorBag(st.operators) == OperatorBag(p)
    && Opens(st.operators) == Depth(p)
  }

  lemma {:induction false} OperatorBagReverse(s: seq<char>)
    ensures OperatorBag(Reverse(s)) == OperatorBag(s)
  {
    if s != [] {
      var t := s[..|s| - 1];
      var last := [s[|s| - 1]];
      OperatorBagReverse(t);
      OperatorBagAppend(last, Reverse(t));
      assert OperatorBag(last) == OperatorBag([] + last) by {
        assert [] + last == last;
        OperatorBagSnoc([], s[|s| - 1]);
      }
    }
  }

  lemma {:induction false} OpensReverse(s: seq<char>)
    ensures Opens(Reverse(s)) == Opens(s)
  {
    if s != [] {
      var t := s[..|s| - 1];
      OpensReverse(t);
      OpensAppend([s[|s| - 1]], Reverse(t));
      assert [s[|s| - 1]][..0] == [];
    }
  }

  lemma ReverseShaped(s: seq<char>)
    requires StackShaped(s)
    ensures StackShaped(Reverse(s))
  {
    var r := Reverse(s);
    forall i | 0 <= i < |r| ensures IsOperator(r[i]) || r[i] == '(' {
      assert r[i] == s[|s| - 1 - i];
    }
  }

  /** Emitting stack entries, top first, adds no operand to the output. */
  lemma MovedOperands(polish: string, run: seq<char>)
    requires StackShaped(run)
    ensures Operands(polish + Reverse(run)) == Operands(polish)
  {
    ReverseShaped(run);
    OperandsOfStack(Reverse(run));
    OperandsAppend(polish, Reverse(run));
  }

  /** Emitting stack entries, top first, adds exactly their operators to the output. */
  lemma MovedOperators(polish: string, run: seq<char>)
    ensures OperatorBag(polish + Reverse(run)) == OperatorBag(polish) + OperatorBag(run)
  {
    OperatorBagAppend(polish, Reverse(run));
    OperatorBagReverse(run);
  }

  lemma OpenCount(below: seq<char>, above: seq<char>)
    requires '(' !in above
    ensures Opens(below + ['('] + above) == Opens(below) + 1
  {
    OpensSnoc(below, '(');
    OpensAppend(below + ['('], above);
    OpensNone(above);
  }

  lemma OpenOperators(below: seq<char>, above: seq<char>)
    ensures OperatorBag(below + ['('] + above) == OperatorBag(below) + OperatorBag(above)
  {
    OperatorBagSnoc(below, '(');
    OperatorBagAppend(below + ['('], above);
  }

  /** The ')' case keeps every counted quantity in step. */
  lemma CloseGroupCounts(ops: seq<char>, polish: string)
    requires StackShaped(ops)
    ensures var st' := CloseGroup(ScanState(ops, polish));
      && Operands(st'.polish) == Operands(polish)
      && OperatorBag(st'.polish) + OperatorBag(st'.operators) == OperatorBag(polish) + OperatorBag(ops)
      && Opens(st'.operators) == (if Opens(ops) > 0 then Opens(ops) - 1 else 0)
  {
    var k := OpenIndex(ops);
    if k >= 0 {
      var below, above := ops[..k], ops[k + 1..];
      assert ops == below + ['('] + above;
      assert StackShaped(above) && '(' !in above;
      MovedOperands(polish, above);
      MovedOperators(polish, above);
      OpenOperators(below, above);
      OpenCount(below, above);
    } else {
      assert '(' !in ops;
      MovedOperands(polish, ops);
      MovedOperators(polish, ops);
      OpensNone(ops);
    }
  }

  lemma PushOperatorOpens(below: seq<char>, moved: seq<char>, c: char)
    requires '(' !in moved && c != '('
    ensures Opens(below + [c]) == Opens(below + moved)
  {
    OpensSnoc(below, c);
    OpensAppend(below, moved);
    OpensNone(moved);
  }

  lemma SplitAt(s: seq<char>, k: nat)
    requires k <= |s|
    ensures s == s[..k] + s[k..]
  {
  }

  /** What handleOperator pops holds operators only, and no '('. */
  lemma PoppedShaped(ops: seq<char>, op: char)
    ensures StackShaped(ops[StopPoint(ops, op)..]) && '(' !in ops[StopPoint(ops, op)..]
  {
    var k := StopPoint(ops, op);
    var moved := ops[k..];
    forall i | 0 <= i < |moved| ensures IsOperator(moved[i]) && moved[i] != '(' {
      assert moved[i] == ops[k + i];
      assert Poppable(ops[k + i], op);
    }
  }

  /** The operator case keeps every counted quantity in step. */
  lemma PushOperatorCounts(ops: seq<char>, polish: string, c: char)
    requires IsOperator(c)
    ensures var st' := PushOperator(ScanState(ops, polish), c);
      && Operands(st'.polish) == Operands(polish)
      && OperatorBag(st'.polish) + OperatorBag(st'.operators)
         == OperatorBag(polish) + OperatorBag(ops) + multiset{c}
      && Opens(st'.operators) == Opens(ops)
  {
    var k := StopPoint(ops, c);
    var below, moved := ops[..k], ops[k..];
    var st' := PushOperator(ScanState(ops, polish), c);
    SplitAt(ops, k);
    PoppedShaped(ops, c);
    assert st'.polish == polish + Reverse(moved) && st'.operators == below + [c];
    assert Operands(st'.polish) == Operands(polish) by {
      MovedOperands(polish, moved);
    }
    assert Opens(st'.operators) == Opens(ops) by {
      PushOperatorOpens(below, moved, c);
    }
    var P, B, R := OperatorBag(polish), OperatorBag(below), OperatorBag(moved);
    assert OperatorBag(st'.polish) == P + R by {
      MovedOperators(polish, moved);
    }
    assert OperatorBag(st'.operators) == B + multiset{c} by {
      OperatorBagSnoc(below, c);
    }
    assert OperatorBag(ops) == B + R by {
      OperatorBagAppend(below, moved);
    }
  }

  lemma CloseGroupShapes(ops: seq<char>, polish: string)
    requires StackShaped(ops) && OutputShaped(polish)
    ensures StackShaped(CloseGroup(ScanState(ops, polish)).operators)
    ensures OutputShaped(CloseGroup(ScanState(ops, polish)).polish)
  {
  }

  lemma PushOperatorShapes(ops: seq<char>, polish: string, c: char)
    requires StackShaped(ops) && OutputShaped(polish) && IsOperator(c)
    ensures StackShaped(PushOperator(ScanState(ops, polish), c).operators)
    ensures OutputShaped(PushOperator(ScanState(ops, polish), c).polish)
  {
  }

  lemma CloseGroupInvariant(p: string, st: ScanState)
    requires ScanInvariant(p, st)
    ensures ScanInvariant(p + [')'], CloseGroup(st))
  {
    DepthNext(p, ')');
    OperandsSnoc(p, ')');
    OperatorBagSnoc(p, ')');
    CloseGroupShapes(st.operators, st.polish);
    CloseGroupCounts(st.operators, st.polish);
  }

  lemma PushOperatorInvariant(p: string, st: ScanState, c: char)
    requires ScanInvariant(p, st) && IsOperator(c)
    ensures ScanInvariant(p + [c], PushOperator(st, c))
  {
    var st' := PushOperator(st, c);
    assert Opens(st'.operators) == Depth(p + [c]) by {
      DepthNext(p, c);
      PushOperatorCounts(st.operators, st.polish, c);
    }
    assert Operands(st'.polish) == Operands(p + [c]) by {
      OperandsSnoc(p, c);
      PushOperatorCounts(st.operators, st.polish, c);
    }
    assert OperatorBag(st'.polish) + OperatorBag(st'.operators) == OperatorBag(p + [c]) by {
      OperatorBagSnoc(p, c);
      PushOperatorCounts(st.operators, st.polish, c);
    }
    PushOperatorShapes(st.operators, st.polish, c);
  }

  lemma SpaceInvariant(p: string, st: ScanState)
    requires ScanInvariant(p, st)
    ensures ScanInvariant(p + [' '], st)
  {
    OperandsSnoc(p, ' ');
    OperatorBagSnoc(p, ' ');
    DepthNext(p, ' ');
  }

  lemma OperandInvariant(p: string, st: ScanState, c: char)
    requires ScanInvariant(p, st) && IsAlnum(c)
    ensures ScanInvariant(p + [c], ScanState(st.operators, st.polish + [c]))
  {
    OperandsSnoc(p, c);
    OperandsSnoc(st.polish, c);
    OperatorBagSnoc(p, c);
    OperatorBagSnoc(st.polish, c);
    DepthNext(p, c);
  }

  lemma OpenInvariant(p: string, st: ScanState)
    requires ScanInvariant(p, st)
    ensures ScanInvariant(p + ['('], ScanState(st.operators + ['('], st.polish))
  {
    var ops := st.operators + ['('];
    assert Operands(st.polish) == Operands(p + ['(']) by {
      OperandsSnoc(p, '(');
    }
    assert OperatorBag(st.polish) + OperatorBag(ops) == OperatorBag(p + ['(']) by {
      OperatorBagSnoc(p, '(');
      OperatorBagSnoc(st.operators, '(');
    }
    assert Opens(ops) == Depth(p + ['(']) by {
      DepthNext(p, '(');
      OpensSnoc(st.operators, '(');
    }
    assert StackShaped(ops) by {
      forall i | 0 <= i < |ops| ensures IsOperator(ops[i]) || ops[i] == '(' {
        if i < |st.operators| {
          assert ops[i] == st.operators[i];
        }
      }
    }
  }

  lemma StepInvariant(p: string, st: ScanState, c: char)
    requires ScanInvariant(p, st) && Accepted(c)
    ensures Step(st, c).Some? && ScanInvariant(p + [c], Step(st, c).value)
  {
    if c == ' ' {
      SpaceInvariant(p, st);
    } else if IsAlnum(c) {
      OperandInvariant(p, st, c);
    } else if c == '(' {
      OpenInvariant(p, st);
    } else if c == ')' {
      CloseGroupInvariant(p, st);
    } else {
      PushOperatorInvariant(p, st, c);
    }
  }

  lemma ScanSnoc(p: string, c: char)
    ensures Scan(p + [c]) == if Scan(p).Some? then Step(Scan(p).value, c) else None
  {
    assert (p + [c])[..|p|] == p;
  }

  lemma {:induction false} ScanKeepsInvariant(s: string)
    requires AllAccepted(s)
    ensures Scan(s).Some? && ScanInvariant(s, Scan(s).value)
  {
    if s != [] {
      var p, c := s[..|s| - 1], s[|s| - 1];
      assert s == p + [c];
      assert AllAccepted(p) && Accepted(c);
      ScanKeepsInvariant(p);
      StepInvariant(p, Scan(p).value, c);
      ScanSnoc(p, c);
    }
  }

  lemma {:induction false} ScanRejects(s: string, i: nat)
    requires i < |s| && !Accepted(s[i])
    ensures Scan(s) == None
  {
    var t := s[..i + 1];
    assert t[..i] == s[..i] && t[i] == s[i];
    if Scan(s[..i]).Some? {
      assert Step(Scan(s[..i]).value, s[i]) == None;
    }
    assert Scan(t) == None;
    ScanFailureSticks(s, i + 1);
  }

  /** toPolishNotation fails (returns "") exactly when some character is not accepted. */
  lemma ScanFailsIffRejected(s: string)
    ensures Scan(s) == None <==> !AllAccepted(s)
  {
    if AllAccepted(s) {
      ScanKeepsInvariant(s);
    } else {
      var i :| 0 <= i < |s| && !Accepted(s[i]);
      ScanRejects(s, i);
    }
  }

  /** A rejected character anywhere, '|' and '.' included, makes the result "". */
  lemma RejectedGivesEmpty(s: string, i: nat)
    requires i < |s| && !Accepted(s[i])
    ensures PolishNotation(s) == ""
  {
    ScanRejects(s, i);
  }

  /**
   * On accepted input: the operands come out exactly as they went in and in
   * the same order; the operator characters come out with the same
   * multiplicities; only operands, operators and '(' are emitted (so no space
   * and no ')'); and the unmatched '(' are flushed with the remaining
   * operators, so exactly Depth(s) of them appear.
   */
  lemma PolishNotationCorrect(s: string)
    requires AllAccepted(s)
    ensures var r := PolishNotation(s);
      && Operands(r) == Operands(s)
      && OperatorBag(r) == OperatorBag(s)
      && (forall i :: 0 <= i < |r| ==> IsAlnum(r[i]) || IsOperator(r[i]) || r[i] == '(')
      && ' ' !in r && ')' !in r
      && Opens(r) == Depth(s)
  {
    ScanKeepsInvariant(s);
    var st := Scan(s).value;
    FlushOperands(s, st.polish, st.operators);
    FlushOperators(s, st.polish, st.operators);
    FlushOpens(s, st.polish, st.operators);
    FlushShape(st.polish, st.operators);
  }

  /** The final flush adds no operand. */
  lemma FlushOperands(s: string, polish: string, ops: seq<char>)
    requires ScanInvariant(s, ScanState(ops, polish))
    ensures Operands(polish + Reverse(ops)) == Operands(s)
  {
    MovedOperands(polish, ops);
  }

  /** The final flush emits every operator still on the stack. */
  lemma FlushOperators(s: string, polish: string, ops: seq<char>)
    requires ScanInvariant(s, ScanState(ops, polish))
    ensures OperatorBag(polish + Reverse(ops)) == OperatorBag(s)
  {
    MovedOperators(polish, ops);
  }

  /** The final flush emits every unmatched '(', and the output had none before it. */
  lemma FlushOpens(s: string, polish: string, ops: seq<char>)
    requires ScanInvariant(s, ScanState(ops, polish))
    ensures Opens(polish + Reverse(ops)) == Depth(s)
  {
    OpensAppend(polish, Reverse(ops));
    OpensReverse(ops);
    assert '(' !in polish;
    OpensNone(polish);
  }

  /** The final flush emits only operands, operators and '('. */
  lemma FlushShape(polish: string, ops: seq<char>)
    requires OutputShaped(polish) && StackShaped(ops)
    ensures var r := polish + Reverse(ops);
      && (forall i :: 0 <= i < |r| ==> IsAlnum(r[i]) || IsOperator(r[i]) || r[i] == '(')
      && ' ' !in r && ')' !in r
  {
    var r, tail := polish + Reverse(ops), Reverse(ops);
    ReverseShaped(ops);
    forall i | 0 <= i < |r|
      ensures IsAlnum(r[i]) || IsOperator(r[i]) || r[i] == '('
    {
      if i >= |polish| {
        assert r[i] == tail[i - |polish|];
      }
    }
  }

  // ---------------------------------------------------------------------------
  // addPlusBetweenChars
  // ---------------------------------------------------------------------------

  /** After such a character an operand that follows is concatenated (the flag is set). */
  predicate EndsOperand(c: char)
  {
    IsAlpha(c) || c == ')' || c == '*'
  }

  /** A character that receives a '+' in front when the flag is set. */
  predicate StartsOperand(c: char)
  {
    IsAlpha(c) || c == '('
  }

  /** A '+' is inserted before position i of s. */
  predicate NeedsPlus(s: string, i: nat)
    requires i < |s|
  {
    i > 0 && EndsOperand(s[i - 1]) && StartsOperand(s[i])
  }

  /** What addPlusBetweenChars returns: each character, preceded by '+' where NeedsPlus holds. */
  function WithPluses(s: string): string
  {
    if s == [] then []
    else
      var i := |s| - 1;
      WithPluses(s[..i]) + (if NeedsPlus(s, i) then "+" else "") + [s[i]]
  }

  /** The number of positions of s before which a '+' is inserted. */
  function Inserted(s: string): nat
  {
    if s == [] then 0
    else Inserted(s[..|s| - 1]) + (if NeedsPlus(s, |s| - 1) then 1 else 0)
  }

  /** addPlusBetweenChars, proved against WithPluses. */
  method AddPlusBetweenChars(expression: string) returns (expressionWithPluses: string)
    ensures expressionWithPluses == WithPluses(expression)
  {
    expressionWithPluses := "";
    var lastCharacterNeedsPlus := false;
    var i := 0;
    while i < |expression|
      invariant 0 <= i <= |expression|
      invariant lastCharacterNeedsPlus == (i > 0 && EndsOperand(expression[i - 1]))
      invariant expressionWithPluses == WithPluses(expression[..i])
    {
      assert expression[..i + 1][..i] == expression[..i];
      if lastCharacterNeedsPlus && (IsAlpha(expression[i]) || expression[i] == '(') {
        expressionWithPluses := expressionWithPluses + "+";
      }
      if IsAlpha(expression[i]) || expression[i] == ')' || expression[i] == '*' {
        lastCharacterNeedsPlus := true;
      } else {
        lastCharacterNeedsPlus := false;
      }
      expressionWithPluses := expressionWithPluses + [expression[i]];
      i := i + 1;
    }
    assert expression[..i] == expression;
  }

  // ---------------------------------------------------------------------------
  // addPlusBetweenChars: properties
  // ---------------------------------------------------------------------------

  /** The output is the input lengthened by one character per triggering position. */
  lemma {:induction false} WithPlusesLength(s: string)
    ensures |WithPluses(s)| == |s| + Inserted(s)
  {
    if s != [] {
      WithPlusesLength(s[..|s| - 1]);
    }
  }

  /**
   * Input character i sits at position i + Inserted(s[..i+1]) of the output;
   * the output character just before it is the inserted '+' when position i
   * triggers, and the previous input character otherwise. With the length
   * lemma this says that deleting the inserted '+' gives back the input, and
   * (for i = 0) that nothing is inserted before the first character.
   */
  lemma {:induction false} WithPlusesPlacement(s: string, i: nat)
    requires i < |s|
    ensures var r, j := WithPluses(s), i + Inserted(s[..i + 1]);
      && j < |r| && r[j] == s[i]
      && (NeedsPlus(s, i) ==> r[j - 1] == '+')
      && (i > 0 && !NeedsPlus(s, i) ==> r[j - 1] == s[i - 1])
    decreases |s|
  {
    var n := |s| - 1;
    var t := s[..n];
    var head := WithPluses(t) + (if NeedsPlus(s, n) then "+" else "");
    assert WithPluses(s) == head + [s[n]];
    WithPlusesLength(t);
    if i == n {
      assert s[..i + 1] == s;
      assert |head| == i + Inserted(s);
      if i > 0 && !NeedsPlus(s, i) {
        WithPlusesPlacement(t, i - 1);
        assert t[..i] == t;
      }
    } else {
      assert t[..i + 1] == s[..i + 1];
      WithPlusesPlacement(t, i);
    }
  }

  /** No position of s triggers an insertion. */
  predicate NoPlusNeeded(s: string)
  {
    forall i :: 0 <= i < |s| ==> !NeedsPlus(s, i)
  }

  lemma {:induction false} WithPlusesIdentity(s: string)
    requires NoPlusNeeded(s)
    ensures WithPluses(s) == s
  {
    if s != [] {
      var t := s[..|s| - 1];
      assert NoPlusNeeded(t) by {
        forall i | 0 <= i < |t| ensures !NeedsPlus(t, i) {
          assert !NeedsPlus(s, i);
        }
      }
      WithPlusesIdentity(t);
      assert !NeedsPlus(s, |s| - 1);
    }
  }

  lemma {:induction false} WithPlusesSaturates(s: string)
    ensures NoPlusNeeded(WithPluses(s))
  {
    if s != [] {
      var n := |s| - 1;
      var t := s[..n];
      var r0 := WithPluses(t);
      var r := WithPluses(s);
      WithPlusesSaturates(t);
      WithPlusesLength(t);
      assert r == r0 + (if NeedsPlus(s, n) then "+" else "") + [s[n]];
      forall j | 0 <= j < |r| ensures !NeedsPlus(r, j) {
        if j < |r0| {
          assert !NeedsPlus(r0, j);
        } else if j == |r0| && j > 0 && !NeedsPlus(s, n) {
          WithPlusesPlacement(t, n - 1);
          WithPlusesLength(t[..n]);
          assert t[..n] == t;
        }
      }
    }
  }

  /** addPlusBetweenChars is idempotent: a second pass inserts nothing. */
  lemma WithPlusesIdempotent(s: string)
    ensures WithPluses(WithPluses(s)) == WithPluses(s)
  {
    WithPlusesSaturates(s);
    WithPlusesIdentity(WithPluses(s));
  }
}
