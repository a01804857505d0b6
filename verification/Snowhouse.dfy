/**
 * The operator stacks that evaluate a fluent constraint expression. A list element is an operand, of
 * which only the answer of its constraint for the actual value matters, or one of three operators.
 */
module Snowhouse {

  datatype Operator = NotOp | AndOp | OrOp {
    function Precedence(): int {
      match this
      case NotOp => 2
      case AndOp => 3
      case OrOp => 4
    }
  }

  datatype Item = Operand(holds: bool) | Infix(op: Operator)

  /** Both stacks, top last; Raised stands for the InvalidExpressionException. */
  datatype Stacks = Stacks(results: seq<bool>, operators: seq<Operator>) | Raised

  datatype Verdict = Passes | Fails | Malformed

  // ------------------------------------------------------------------ evaluation

  function Perform(op: Operator, results: seq<bool>): Stacks {
    var n := |results|;
    match op
    case NotOp => if n < 1 then Raised else Stacks(results[..n - 1] + [!results[n - 1]], [])
    case AndOp => if n < 2 then Raised else Stacks(results[..n - 2] + [results[n - 2] && results[n - 1]], [])
    case OrOp => if n < 2 then Raised else Stacks(results[..n - 2] + [results[n - 2] || results[n - 1]], [])
  }

  /** Operators come off the top while their precedence is at most the limit. */
  function Settle(s: Stacks, limit: int): Stacks
    decreases if s.Raised? then 0 else |s.operators|
  {
    if s.Raised? || s.operators == [] then s
    else
      var top := |s.operators| - 1;
      if s.operators[top].Precedence() > limit then s
      else
        var p := Perform(s.operators[top], s.results);
        if p.Raised? then Raised else Settle(Stacks(p.results, s.operators[..top]), limit)
  }

  function Step(s: Stacks, item: Item): Stacks {
    if s.Raised? then s
    else match item
      case Operand(holds) => s.(results := s.results + [holds])
      case Infix(op) =>
        var t := Settle(s, op.Precedence());
        if t.Raised? then t else t.(operators := t.operators + [op])
  }

  function Run(items: seq<Item>, s: Stacks): Stacks {
    if items == [] then s else Run(items[1..], Step(s, items[0]))
  }

  /** Every operator on the stack, whatever its precedence. */
  function SettleAll(s: Stacks): Stacks {
    Settle(s, OrOp.Precedence())
  }

  function That(items: seq<Item>): Verdict {
    var s := SettleAll(Run(items, Stacks([], [])));
    if s.Raised? || s.results == [] then Malformed
    else if s.results[|s.results| - 1] then Passes else Fails
  }

  // ------------------------------------------------------------ the stacks in place

  class Evaluator {
    var results: seq<bool>
    var operators: seq<Operator>

    ghost function State(): Stacks
      reads this
    {
      Stacks(results, operators)
    }

    constructor ()
      ensures State() == Stacks([], [])
    {
      results, operators := [], [];
    }

    method PerformOperation(op: Operator) returns (ok: bool)
      modifies `results
      ensures var p := Perform(op, old(results)); if p.Raised? then !ok else ok && results == p.results
    {
      match op {
        case NotOp =>
          if |results| < 1 { return false; }
          var right := results[|results| - 1];
          results := results[..|results| - 1];
          results := results + [!right];
        case AndOp =>
          if |results| < 2 { return false; }
          var right := results[|results| - 1];
          results := results[..|results| - 1];
          var left := results[|results| - 1];
          results := results[..|results| - 1];
          results := results + [left && right];
        case OrOp =>
          if |results| < 2 { return false; }
          var right := results[|results| - 1];
          results := results[..|results| - 1];
          var left := results[|results| - 1];
          results := results[..|results| - 1];
          results := results + [left || right];
      }
      ok := true;
    }

    method EvaluateOperatorsWithLessOrEqualPrecedence(op: Operator) returns (ok: bool)
      modifies this
      ensures var t := Settle(old(State()), op.Precedence()); if t.Raised? then !ok else ok && State() == t
    {
      while operators != []
        invariant Settle(State(), op.Precedence()) == Settle(old(State()), op.Precedence())
        decreases |operators|
      {
        var top := operators[|operators| - 1];
        if top.Precedence() > op.Precedence() {
          break;
        }
        ok := PerformOperation(top);
        if !ok { return; }
        operators := operators[..|operators| - 1];
      }
      ok := true;
    }

    method EvaluateAllOperatorsOnStack() returns (ok: bool)
      modifies this
      ensures var t := SettleAll(old(State())); if t.Raised? then !ok else ok && State() == t && operators == []
    {
      while operators != []
        invariant SettleAll(State()) == SettleAll(old(State()))
        decreases |operators|
      {
        var top := operators[|operators| - 1];
        ok := PerformOperation(top);
        if !ok { return; }
        operators := operators[..|operators| - 1];
      }
      ok := true;
    }

    /** The head acts on the stacks and hands the tail on. */
    method EvaluateConstraintList(items: seq<Item>) returns (ok: bool)
      modifies this
      ensures var t := Run(items, old(State())); if t.Raised? then !ok else ok && State() == t
      decreases |items|
    {
      if items == [] { return true; }
      match items[0] {
        case Operand(holds) =>
          results := results + [holds];
        case Infix(op) =>
          ok := EvaluateOperatorsWithLessOrEqualPrecedence(op);
          if !ok {
            RaisedStays(items[1..]);
            return;
          }
          operators := operators + [op];
      }
      ok := EvaluateConstraintList(items[1..]);
    }

    static method AssertThat(items: seq<Item>) returns (verdict: Verdict)
      ensures verdict == That(items)
    {
      var e := new Evaluator();
      var ok := e.EvaluateConstraintList(items);
      if !ok { return Malformed; }
      ok := e.EvaluateAllOperatorsOnStack();
      if !ok || e.results == [] { return Malformed; }
      verdict := if e.results[|e.results| - 1] then Passes else Fails;
    }
  }

  lemma {:induction false} RaisedStays(items: seq<Item>)
    ensures Run(items, Raised) == Raised
  {
    if items != [] {
      RaisedStays(items[1..]);
    }
  }

  // ------------------------------------------------- expressions and their meaning

  datatype Expr = Leaf(holds: bool) | Negation(e: Expr) | Conjunction(left: Expr, right: Expr)
      | Disjunction(left: Expr, right: Expr)

  function Value(e: Expr): bool {
    match e
    case Leaf(holds) => holds
    case Negation(x) => !Value(x)
    case Conjunction(x, y) => Value(x) && Value(y)
    case Disjunction(x, y) => Value(x) || Value(y)
  }

  function Show(e: Expr): seq<Item> {
    match e
    case Leaf(holds) => [Operand(holds)]
    case Negation(x) => [Infix(NotOp)] + Show(x)
    case Conjunction(x, y) => Show(x) + [Infix(AndOp)] + Show(y)
    case Disjunction(x, y) => Show(x) + [Infix(OrOp)] + Show(y)
  }

  /** Not binds tighter than And, And tighter than Or, and both of them group to the left. */
  predicate IsUnary(e: Expr) {
    e.Leaf? || (e.Negation? && e.e.Leaf?)
  }

  predicate IsConjunction(e: Expr) {
    IsUnary(e) || (e.Conjunction? && IsConjunction(e.left) && IsUnary(e.right))
  }

  predicate IsDisjunction(e: Expr) {
    IsConjunction(e) || (e.Disjunction? && IsDisjunction(e.left) && IsConjunction(e.right))
  }

  predicate Follows(x: Item, y: Item) {
    match x
    case Operand(_) => y == Infix(AndOp) || y == Infix(OrOp)
    case Infix(NotOp) => y.Operand?
    case Infix(_) => y.Operand? || y == Infix(NotOp)
  }

  /** Operands with at most one Not each, joined by And and Or: a condition on neighbours alone. */
  predicate WellFormed(items: seq<Item>) {
    && |items| > 0
    && (items[0].Operand? || items[0] == Infix(NotOp))
    && items[|items| - 1].Operand?
    && forall i :: 0 <= i < |items| - 1 ==> Follows(items[i], items[i + 1])
  }

  function Attach(e: Expr, op: Operator, u: Expr): (r: Expr)
    requires IsDisjunction(e) && IsUnary(u) && op != NotOp
    ensures IsDisjunction(r)
  {
    if op == OrOp then Disjunction(e, u)
    else if e.Disjunction? then Disjunction(e.left, Conjunction(e.right, u))
    else Conjunction(e, u)
  }

  lemma AttachShows(e: Expr, op: Operator, u: Expr)
    requires IsDisjunction(e) && IsUnary(u) && op != NotOp
    ensures Show(Attach(e, op, u)) == Show(e) + [Infix(op)] + Show(u)
  {
    if op == AndOp && e.Disjunction? {
      var l, r, a, o, v := Show(e.left), Show(e.right), [Infix(AndOp)], [Infix(OrOp)], Show(u);
      assert l + o + (r + a + v) == (l + o + r) + a + v;
    }
  }

  /** Where the last operand with its Not begins. */
  function LastUnary(items: seq<Item>): (k: nat)
    requires WellFormed(items)
    ensures k < |items|
  {
    if |items| > 1 && items[|items| - 2] == Infix(NotOp) then |items| - 2 else |items| - 1
  }

  function UnaryAt(items: seq<Item>, k: nat): Expr
    requires WellFormed(items) && k == LastUnary(items)
  {
    var leaf := Leaf(items[|items| - 1].holds);
    if k == |items| - 1 then leaf else Negation(leaf)
  }

  /** The one way to read a well-formed list. */
  function Parse(items: seq<Item>): (e: Expr)
    requires WellFormed(items)
    ensures IsDisjunction(e)
    decreases |items|
  {
    var k := LastUnary(items);
    if k == 0 then UnaryAt(items, k)
    else
      assert Follows(items[k - 1], items[k]);
      assert k > 1 ==> Follows(items[k - 2], items[k - 1]);
      Attach(Parse(items[..k - 1]), items[k - 1].op, UnaryAt(items, k))
  }

  lemma UnaryShows(items: seq<Item>)
    requires WellFormed(items)
    ensures Show(UnaryAt(items, LastUnary(items))) == items[LastUnary(items)..]
  {}

  lemma {:induction false} ParseShows(items: seq<Item>)
    requires WellFormed(items)
    ensures Show(Parse(items)) == items
    decreases |items|
  {
    hide Parse, Show, Attach, WellFormed, LastUnary, UnaryAt;
    var k := LastUnary(items);
    var u := UnaryAt(items, k);
    ParseStep(items);
    UnaryShows(items);
    if k == 0 {
      assert items[0..] == items;
    } else {
      ParseShows(items[..k - 1]);
      AttachShows(Parse(items[..k - 1]), items[k - 1].op, u);
      assert items == items[..k - 1] + [items[k - 1]] + items[k..];
    }
  }

  // ---------------------------------------------------------------- the refinement

  lemma {:induction false} RunConcat(a: seq<Item>, b: seq<Item>, s: Stacks)
    ensures Run(a + b, s) == Run(b, Run(a, s))
  {
    if a == [] {
      assert a + b == b;
    } else {
      assert (a + b)[1..] == a[1..] + b;
      RunConcat(a[1..], b, Step(s, a[0]));
    }
  }

  lemma {:induction false} SettleTwice(s: Stacks, low: int, high: int)
    requires low <= high
    ensures Settle(Settle(s, low), high) == Settle(s, high)
    decreases if s.Raised? then 0 else |s.operators|
  {
    if !s.Raised? && s.operators != [] {
      var top := |s.operators| - 1;
      var p := Perform(s.operators[top], s.results);
      if s.operators[top].Precedence() <= low && !p.Raised? {
        SettleTwice(Stacks(p.results, s.operators[..top]), low, high);
      }
    }
  }

  predicate Above(operators: seq<Operator>, limit: int) {
    operators == [] || operators[|operators| - 1].Precedence() > limit
  }

  lemma UnarySettles(e: Expr, rs: seq<bool>, ops: seq<Operator>)
    requires IsUnary(e) && Above(ops, 2)
    ensures Settle(Run(Show(e), Stacks(rs, ops)), 2) == Stacks(rs + [Value(e)], ops)
  {
    hide Settle, Run, Perform;
    SettleStops(Stacks(rs, ops), 2);
    if e.Leaf? {
      RunOne(Operand(e.holds), Stacks(rs, ops));
      SettleStops(Stacks(rs + [e.holds], ops), 2);
    } else {
      var holds := e.e.holds;
      assert Show(e) == [Infix(NotOp)] + [Operand(holds)];
      RunConcat([Infix(NotOp)], [Operand(holds)], Stacks(rs, ops));
      RunOne(Infix(NotOp), Stacks(rs, ops));
      RunOne(Operand(holds), Stacks(rs, ops + [NotOp]));
      SettleOne(Stacks(rs + [holds], ops + [NotOp]), NotOp, ops, 2);
      PerformNot(rs, holds);
      SettleStops(Stacks(rs + [!holds], ops), 2);
    }
  }

  lemma SettleStops(s: Stacks, limit: int)
    requires !s.Raised? && Above(s.operators, limit)
    ensures Settle(s, limit) == s
  {}

  /** One round of the settling loop. */
  lemma SettleOne(s: Stacks, op: Operator, ops: seq<Operator>, limit: int)
    requires !s.Raised? && s.operators == ops + [op] && op.Precedence() <= limit
    ensures var p := Perform(op, s.results);
      Settle(s, limit) == if p.Raised? then Raised else Settle(Stacks(p.results, ops), limit)
  {
    hide Perform;
    assert s.operators[..|ops|] == ops;
  }

  function Joined(op: Operator, x: bool, y: bool): bool
    requires op != NotOp
  {
    if op == AndOp then x && y else x || y
  }

  lemma PerformBinary(op: Operator, rs: seq<bool>, x: bool, y: bool)
    requires op != NotOp
    ensures Perform(op, rs + [x, y]) == Stacks(rs + [Joined(op, x, y)], [])
  {
    assert (rs + [x, y])[..|rs|] == rs;
  }

  lemma PerformNot(rs: seq<bool>, x: bool)
    ensures Perform(NotOp, rs + [x]) == Stacks(rs + [!x], [])
  {
    assert (rs + [x])[..|rs|] == rs;
  }

  /** A binary operator on the stack, with both its operands above what was there. */
  lemma PairSettles(op: Operator, rs: seq<bool>, x: bool, y: bool, ops: seq<Operator>)
    requires op != NotOp && Above(ops, op.Precedence())
    ensures Settle(Stacks(rs + [x, y], ops + [op]), op.Precedence()) == Stacks(rs + [Joined(op, x, y)], ops)
  {
    hide Settle, Perform, Joined;
    SettleOne(Stacks(rs + [x, y], ops + [op]), op, ops, op.Precedence());
    PerformBinary(op, rs, x, y);
    SettleStops(Stacks(rs + [Joined(op, x, y)], ops), op.Precedence());
  }

  lemma {:induction false} ConjunctionSettles(e: Expr, rs: seq<bool>, ops: seq<Operator>)
    requires IsConjunction(e) && Above(ops, 3)
    ensures Settle(Run(Show(e), Stacks(rs, ops)), 3) == Stacks(rs + [Value(e)], ops)
    decreases e
  {
    hide Settle, Run, Show;
    if IsUnary(e) {
      assert Above(ops, 2);
      UnarySettles(e, rs, ops);
      SettleTwice(Run(Show(e), Stacks(rs, ops)), 2, 3);
      SettleStops(Stacks(rs + [Value(e)], ops), 3);
    } else {
      ShowConjunction(e);
      ConjunctionSettles(e.left, rs, ops);
      BinarySettles(e.left, AndOp, e.right, rs, ops);
      UnarySettles(e.right, rs + [Value(e.left)], ops + [AndOp]);
      Closes(AndOp, Run(Show(e), Stacks(rs, ops)), 2, rs, Value(e.left), Value(e.right), ops);
    }
  }

  lemma {:induction false} DisjunctionSettles(e: Expr, rs: seq<bool>, ops: seq<Operator>)
    requires IsDisjunction(e) && Above(ops, 4)
    ensures Settle(Run(Show(e), Stacks(rs, ops)), 4) == Stacks(rs + [Value(e)], ops)
    decreases e
  {
    hide Settle, Run, Show;
    if IsConjunction(e) {
      assert Above(ops, 3);
      ConjunctionSettles(e, rs, ops);
      SettleTwice(Run(Show(e), Stacks(rs, ops)), 3, 4);
      SettleStops(Stacks(rs + [Value(e)], ops), 4);
    } else {
      ShowDisjunction(e);
      DisjunctionSettles(e.left, rs, ops);
      BinarySettles(e.left, OrOp, e.right, rs, ops);
      ConjunctionSettles(e.right, rs + [Value(e.left)], ops + [OrOp]);
      Closes(OrOp, Run(Show(e), Stacks(rs, ops)), 3, rs, Value(e.left), Value(e.right), ops);
    }
  }

  lemma ShowConjunction(e: Expr)
    requires e.Conjunction?
    ensures Show(e) == Show(e.left) + [Infix(AndOp)] + Show(e.right)
  {}

  /** Reading a binary operator settles the left operand and starts the right one over it. */
  lemma BinarySettles(l: Expr, op: Operator, r: Expr, rs: seq<bool>, ops: seq<Operator>)
    requires op != NotOp
    requires Settle(Run(Show(l), Stacks(rs, ops)), op.Precedence()) == Stacks(rs + [Value(l)], ops)
    ensures Run(Show(l) + [Infix(op)] + Show(r), Stacks(rs, ops)) == Run(Show(r), Stacks(rs + [Value(l)], ops + [op]))
  {
    var s := Stacks(rs, ops);
    RunConcat(Show(l) + [Infix(op)], Show(r), s);
    RunConcat(Show(l), [Infix(op)], s);
    var t := Run(Show(l), s);
    assert Run([Infix(op)], t) == Step(t, Infix(op));
  }

  lemma Closes(op: Operator, s: Stacks, low: int, rs: seq<bool>, x: bool, y: bool, ops: seq<Operator>)
    requires op != NotOp && low <= op.Precedence() && Above(ops, op.Precedence())
    requires Settle(s, low) == Stacks(rs + [x] + [y], ops + [op])
    ensures Settle(s, op.Precedence()) == Stacks(rs + [Joined(op, x, y)], ops)
  {
    SettleTwice(s, low, op.Precedence());
    assert rs + [x] + [y] == rs + [x, y];
    PairSettles(op, rs, x, y, ops);
  }

  /** A well-formed list leaves exactly one result, the value of the expression it reads as, and raises nothing. */
  lemma EvaluationIsParsing(items: seq<Item>)
    requires WellFormed(items)
    ensures SettleAll(Run(items, Stacks([], []))) == Stacks([Value(Parse(items))], [])
    ensures That(items) == if Value(Parse(items)) then Passes else Fails
  {
    ParseShows(items);
    DisjunctionSettles(Parse(items), [], []);
    assert [] + [Value(Parse(items))] == [Value(Parse(items))];
  }

  // -------------------------------------------------------------- two Nots in a row

  const NotNot: seq<Item> := [Infix(NotOp), Infix(NotOp)]

  lemma RunOne(item: Item, s: Stacks)
    ensures Run([item], s) == Step(s, item)
  {
    hide Step;
    assert [item][1..] == [];
  }

  lemma RunNotNot(t: Stacks)
    requires !t.Raised? && Above(t.operators, 2)
    ensures var n := |t.results|;
      Run(NotNot, t) == if n == 0 then Raised
        else Stacks(t.results[..n - 1] + [!t.results[n - 1]], t.operators + [NotOp])
  {
    hide Settle, Run, Perform;
    var s := t.(operators := t.operators + [NotOp]);
    assert NotNot == [Infix(NotOp)] + [Infix(NotOp)];
    RunConcat([Infix(NotOp)], [Infix(NotOp)], t);
    RunOne(Infix(NotOp), t);
    RunOne(Infix(NotOp), s);
    SettleStops(t, 2);
    SettleOne(s, NotOp, t.operators, 2);
    PerformTop(t.results);
    if t.results != [] {
      SettleStops(Stacks(Perform(NotOp, t.results).results, t.operators), 2);
    }
  }

  lemma PerformTop(rs: seq<bool>)
    ensures Perform(NotOp, rs) == if rs == [] then Raised else Stacks(rs[..|rs| - 1] + [!rs[|rs| - 1]], [])
  {}

  /** Behind any list, well-formed or not, And or Or with two Nots negates the result that lies to the left,
      and keeps one Not for what comes next. */
  lemma SecondNotNegatesTheLeft(items: seq<Item>, op: Operator, s: Stacks)
    requires op != NotOp
    ensures var t := Settle(Run(items, s), op.Precedence());
      Run(items + [Infix(op)] + NotNot, s) ==
        if t.Raised? || t.results == [] then Raised
        else Stacks(t.results[..|t.results| - 1] + [!t.results[|t.results| - 1]], t.operators + [op, NotOp])
  {
    var t := Settle(Run(items, s), op.Precedence());
    RunConcat(items + [Infix(op)], NotNot, s);
    RunConcat(items, [Infix(op)], s);
    assert Run([Infix(op)], Run(items, s)) == Step(Run(items, s), Infix(op));
    if t.Raised? {
      RaisedStays(NotNot);
    } else {
      RunNotNot(t.(operators := t.operators + [op]));
      assert t.operators + [op] + [NotOp] == t.operators + [op, NotOp];
    }
  }

  /** What And or Or joins its right operand to: for And behind an Or only the part right of the Or. */
  function LeftOf(e: Expr, op: Operator): Expr {
    if op == AndOp && e.Disjunction? then e.right else e
  }

  /** A well-formed list read up to And or Or: the value of the left operand lies on top, and below it at most
      the left side of an Or. */
  lemma SettledLeft(items: seq<Item>, op: Operator)
    requires WellFormed(items) && op != NotOp
    ensures var e := Parse(items);
      Settle(Run(items, Stacks([], [])), op.Precedence()) ==
        if LeftOf(e, op) == e then Stacks([Value(e)], []) else Stacks([Value(e.left), Value(e.right)], [OrOp])
  {
    hide Run, Settle, Parse, WellFormed, Show, Value;
    var e := Parse(items);
    ParseShows(items);
    if op == OrOp {
      DisjunctionSettles(e, [], []);
      assert [] + [Value(e)] == [Value(e)];
    } else if !e.Disjunction? {
      ConjunctionSettles(e, [], []);
      assert [] + [Value(e)] == [Value(e)];
    } else {
      assert e.right != e;
      DisjunctionSettles(e.left, [], []);
      BinarySettles(e.left, OrOp, e.right, [], []);
      ConjunctionSettles(e.right, [Value(e.left)], [OrOp]);
      ShowDisjunction(e);
      assert [] + [Value(e.left)] == [Value(e.left)] && [] + [OrOp] == [OrOp];
      assert [Value(e.left)] + [Value(e.right)] == [Value(e.left), Value(e.right)];
    }
  }

  lemma ShowDisjunction(e: Expr)
    requires e.Disjunction?
    ensures Show(e) == Show(e.left) + [Infix(OrOp)] + Show(e.right)
  {}

  /** What goes on behind a list: nothing, or And or Or and a well-formed list. */
  predicate Continuation(tail: seq<Item>) {
    tail == [] || ((tail[0] == Infix(AndOp) || tail[0] == Infix(OrOp)) && WellFormed(tail[1..]))
  }

  /** The first of the conjunctions that Or joins, and whether one of the others holds. */
  function FirstConjunction(e: Expr): Expr {
    if e.Disjunction? then FirstConjunction(e.left) else e
  }

  function OthersHold(e: Expr): bool {
    if e.Disjunction? then OthersHold(e.left) || Value(e.right) else false
  }

  /** Whether what And joins to the operand in front holds, and whether what Or joins to it does. */
  function AlsoHolds(tail: seq<Item>): bool
    requires Continuation(tail)
  {
    tail == [] || tail[0] == Infix(OrOp) || Value(FirstConjunction(Parse(tail[1..])))
  }

  function ElseHolds(tail: seq<Item>): bool
    requires Continuation(tail)
  {
    tail != [] && if tail[0] == Infix(OrOp) then Value(Parse(tail[1..])) else OthersHold(Parse(tail[1..]))
  }

  lemma FirstOrOthers(e: Expr)
    ensures Value(e) == (Value(FirstConjunction(e)) || OthersHold(e))
  {}

  /** What an Or has settled on the left, and the value that And would go on with. */
  function Settled(e: Expr): bool { e.Disjunction? && Value(e.left) }

  function Open(e: Expr): bool { if e.Disjunction? then Value(e.right) else Value(e) }

  lemma AttachedValues(e: Expr, op: Operator, u: Expr)
    requires IsDisjunction(e) && IsUnary(u) && op != NotOp
    ensures var r := Attach(e, op, u);
      if op == OrOp then Settled(r) == Value(e) && Open(r) == Value(u)
      else Settled(r) == Settled(e) && Open(r) == (Open(e) && Value(u))
  {}

  /** How the values of a joined list follow from those of its parts. */
  predicate JoinedOf(e: Expr, op: Operator, d: Expr, r: Expr) {
    var first := Value(FirstConjunction(d)) && (op == AndOp ==> Open(e));
    var before := if op == AndOp then Settled(e) else Value(e);
    if d.Disjunction? then Settled(r) == (before || first || OthersHold(d.left)) && Open(r) == Value(d.right)
    else Settled(r) == before && Open(r) == first
  }

  lemma JoinedOne(e: Expr, op: Operator, u: Expr)
    requires IsDisjunction(e) && IsUnary(u) && op != NotOp
    ensures JoinedOf(e, op, u, Attach(e, op, u))
  {
    AttachedValues(e, op, u);
  }

  lemma JoinedMore(e: Expr, op: Operator, d: Expr, r: Expr, op': Operator, u: Expr)
    requires IsDisjunction(d) && IsDisjunction(r) && IsUnary(u) && op != NotOp && op' != NotOp
    requires JoinedOf(e, op, d, r)
    ensures JoinedOf(e, op, Attach(d, op', u), Attach(r, op', u))
  {
    AttachedValues(d, op', u);
    AttachedValues(r, op', u);
    FirstOrOthers(d);
    hide Attach;
    AttachedShape(d, op', u);
  }

  lemma AttachedShape(d: Expr, op: Operator, u: Expr)
    requires IsDisjunction(d) && IsUnary(u) && op != NotOp
    ensures var r := Attach(d, op, u);
      if op == OrOp then r == Disjunction(d, u)
      else if d.Disjunction? then r.Disjunction? && r.left == d.left && Value(r.right) == (Value(d.right) && Value(u))
      else !r.Disjunction? && FirstConjunction(r) == r && Value(r) == (Value(d) && Value(u))
  {}

  lemma JoinedValue(e: Expr, op: Operator, d: Expr, r: Expr)
    requires JoinedOf(e, op, d, r) && op != NotOp
    ensures Value(r) == (if op == AndOp then Settled(e) || (Open(e) && Value(FirstConjunction(d))) || OthersHold(d)
                         else Value(e) || Value(d))
  {
    FirstOrOthers(d);
    assert Value(r) == (Settled(r) || Open(r));
  }

  /** A well-formed list, And or Or, and another one: well-formed, with the last operand of the second. */
  lemma JoinedLists(x: seq<Item>, op: Operator, y: seq<Item>)
    requires WellFormed(x) && op != NotOp && WellFormed(y)
    ensures var all := x + [Infix(op)] + y;
      WellFormed(all) && LastUnary(all) == |x| + 1 + LastUnary(y)
      && UnaryAt(all, LastUnary(all)) == UnaryAt(y, LastUnary(y))
  {
    var all := x + [Infix(op)] + y;
    forall i | 0 <= i < |all| - 1 ensures Follows(all[i], all[i + 1]) {
      if i < |x| - 1 {
        assert Follows(x[i], x[i + 1]);
      } else if i > |x| {
        var j := i - |x| - 1;
        assert Follows(y[j], y[j + 1]);
      }
    }
  }

  lemma {:induction false} JoinedParse(x: seq<Item>, op: Operator, y: seq<Item>)
    requires WellFormed(x) && op != NotOp && WellFormed(y)
    ensures WellFormed(x + [Infix(op)] + y)
    ensures JoinedOf(Parse(x), op, Parse(y), Parse(x + [Infix(op)] + y))
    decreases |y|
  {
    hide Parse, WellFormed, UnaryAt, LastUnary, JoinedOf, Attach;
    JoinedLists(x, op, y);
    ParseStep(y);
    ParseStep(x + [Infix(op)] + y);
    var all, k := x + [Infix(op)] + y, LastUnary(y);
    var u := UnaryAt(y, k);
    if k == 0 {
      assert all[..|x|] == x && all[|x|] == Infix(op);
      JoinedOne(Parse(x), op, u);
    } else {
      var z := y[..k - 1];
      assert all[..|x| + k] == x + [Infix(op)] + z && all[|x| + k] == y[k - 1];
      JoinedParse(x, op, z);
      JoinedMore(Parse(x), op, Parse(z), Parse(x + [Infix(op)] + z), y[k - 1].op, u);
    }
  }

  /** The value of a list and what goes on behind it. */
  lemma ContinuedValue(x: seq<Item>, tail: seq<Item>)
    requires WellFormed(x) && Continuation(tail)
    ensures WellFormed(x + tail)
    ensures Value(Parse(x + tail)) == (Settled(Parse(x)) || (Open(Parse(x)) && AlsoHolds(tail)) || ElseHolds(tail))
  {
    hide Parse, WellFormed, JoinedOf;
    assert Value(Parse(x)) == (Settled(Parse(x)) || Open(Parse(x)));
    if tail == [] {
      assert x + tail == x;
    } else {
      assert x + tail == x + [Infix(tail[0].op)] + tail[1..];
      JoinedParse(x, tail[0].op, tail[1..]);
      JoinedValue(Parse(x), tail[0].op, Parse(tail[1..]), Parse(x + tail));
    }
  }

  lemma ParseStep(items: seq<Item>)
    requires WellFormed(items)
    ensures var k := LastUnary(items); var u := UnaryAt(items, k);
      IsUnary(u) &&
      if k == 0 then Parse(items) == u
      else
        k > 1 && items[k - 1].Infix? && items[k - 1].op != NotOp && WellFormed(items[..k - 1])
        && Parse(items) == Attach(Parse(items[..k - 1]), items[k - 1].op, u)
  {
    var k := LastUnary(items);
    if k > 0 {
      assert Follows(items[k - 1], items[k]);
      assert k > 1 ==> Follows(items[k - 2], items[k - 1]);
    }
  }

  // ------------------------------------------------------- the verdict with two Nots

  /** A list of leaves that the machine cannot tell from the well-formed list with its left operand negated. */
  function LeftNegated(items: seq<Item>, op: Operator): seq<Item>
    requires WellFormed(items)
  {
    var e := Parse(items);
    if LeftOf(e, op) == e then [Operand(!Value(e))]
    else [Operand(Value(e.left)), Infix(OrOp), Operand(!Value(e.right))]
  }

  lemma LeftNegatedParse(items: seq<Item>, op: Operator)
    requires WellFormed(items) && op != NotOp
    ensures var e, l := Parse(items), LeftNegated(items, op);
      WellFormed(l) && Parse(l) ==
        if LeftOf(e, op) == e then Leaf(!Value(e)) else Disjunction(Leaf(Value(e.left)), Leaf(!Value(e.right)))
  {
    hide Value;
    var e := Parse(items);
    if LeftOf(e, op) != e {
      var a := [Operand(Value(e.left))];
      assert Parse(a) == Leaf(Value(e.left));
      OneMoreOperand(a, OrOp, !Value(e.right));
      assert a + [Infix(OrOp)] + [Operand(!Value(e.right))] == LeftNegated(items, op);
    }
  }

  lemma RaisedSettles(limit: int)
    ensures Settle(Raised, limit) == Raised
  {}

  lemma RunNot(items: seq<Item>, op: Operator, s: Stacks)
    requires op != NotOp && !Settle(Run(items, s), op.Precedence()).Raised?
    ensures var t := Settle(Run(items, s), op.Precedence());
      Run(items + [Infix(op)] + [Infix(NotOp)], s) == Stacks(t.results, t.operators + [op, NotOp])
  {
    hide Settle, Run;
    var t := Settle(Run(items, s), op.Precedence());
    assert !Run(items, s).Raised? by { RaisedSettles(op.Precedence()); }
    RunConcat(items + [Infix(op)], [Infix(NotOp)], s);
    RunConcat(items, [Infix(op)], s);
    RunOne(Infix(op), Run(items, s));
    var t' := t.(operators := t.operators + [op]);
    RunOne(Infix(NotOp), t');
    SettleStops(t', 2);
    assert t.operators + [op] + [NotOp] == t.operators + [op, NotOp];
  }

  /** Whatever follows, the verdict is the one for the left operand negated and one Not. */
  lemma TwoNotsAsOne(items: seq<Item>, op: Operator, rest: seq<Item>)
    requires WellFormed(items) && op != NotOp
    ensures That(items + [Infix(op)] + NotNot + rest)
      == That(LeftNegated(items, op) + [Infix(op)] + [Infix(NotOp)] + rest)
  {
    hide Run, Settle, SettleAll, WellFormed, Parse, Value;
    var s, e, l := Stacks([], []), Parse(items), LeftNegated(items, op);
    LeftNegatedParse(items, op);
    SettledLeft(items, op);
    SettledLeft(l, op);
    SecondNotNegatesTheLeft(items, op, s);
    RunNot(l, op, s);
    assert Run(items + [Infix(op)] + NotNot, s) == Run(l + [Infix(op)] + [Infix(NotOp)], s) by {
      LeafValues(Value(e), Value(e));
      if LeftOf(e, op) == e {
        assert [Value(e)][..0] + [!Value(e)] == [!Value(e)];
      } else {
        LeafValues(Value(e.left), !Value(e.right));
        assert [Value(e.left), Value(e.right)][..1] + [!Value(e.right)] == [Value(e.left), !Value(e.right)];
      }
    }
    RunConcat(items + [Infix(op)] + NotNot, rest, s);
    RunConcat(l + [Infix(op)] + [Infix(NotOp)], rest, s);
  }

  lemma LeafValues(x: bool, y: bool)
    ensures Value(Leaf(x)) == x && Value(Leaf(y)) == y && Value(Leaf(!x)) == !x
  {}

  lemma OneMoreOperand(items: seq<Item>, op: Operator, x: bool)
    requires WellFormed(items) && op != NotOp
    ensures var plain := items + [Infix(op)] + [Operand(x)];
      WellFormed(plain) && Parse(plain) == Attach(Parse(items), op, Leaf(x))
  {
    var plain := items + [Infix(op)] + [Operand(x)];
    assert forall i :: 0 <= i < |items| ==> plain[i] == items[i];
    assert LastUnary(plain) == |items| + 1;
    assert plain[..|items|] == items;
  }

  /** When two Nots in front of an operand cancel out: for every well-formed list, And or Or, an operand, and whatever
      goes on behind it. Behind Or the operands must differ, and And must not refute the operand, unless another
      disjunct decides; behind And they must differ unless something else decides. */
  lemma TwoNotsRightExactly(items: seq<Item>, op: Operator, x: bool, tail: seq<Item>)
    requires WellFormed(items) && op != NotOp && Continuation(tail)
    ensures WellFormed(items + [Infix(op)] + [Operand(x)] + tail)
    ensures var e := Parse(items);
      That(items + [Infix(op)] + NotNot + [Operand(x)] + tail) == That(items + [Infix(op)] + [Operand(x)] + tail)
      <==>
        if op == OrOp then ElseHolds(tail) || (AlsoHolds(tail) && Value(e) != x)
        else Settled(e) || ElseHolds(tail) || !AlsoHolds(tail) || Open(e) != x
  {
    hide That, WellFormed, Parse, AlsoHolds, ElseHolds, Continuation, JoinedOf, Run;
    var e, l := Parse(items), LeftNegated(items, op);
    var plain, negated := items + [Infix(op)] + [Operand(x)], l + [Infix(op)] + [Infix(NotOp), Operand(x)];
    OneMoreOperand(items, op, x);
    AttachedValues(e, op, Leaf(x));
    ContinuedValue(plain, tail);
    EvaluationIsParsing(plain + tail);
    LeftNegatedParse(items, op);
    NotOperand(x);
    JoinedParse(l, op, [Infix(NotOp), Operand(x)]);
    JoinedNot(Parse(l), op, x, Parse(negated));
    ContinuedValue(negated, tail);
    EvaluationIsParsing(negated + tail);
    TwoNotsAsOne(items, op, [Operand(x)] + tail);
    assert items + [Infix(op)] + NotNot + ([Operand(x)] + tail) == items + [Infix(op)] + NotNot + [Operand(x)] + tail;
    assert l + [Infix(op)] + [Infix(NotOp)] + ([Operand(x)] + tail) == negated + tail;
  }

  lemma NotOperand(x: bool)
    ensures WellFormed([Infix(NotOp), Operand(x)]) && Parse([Infix(NotOp), Operand(x)]) == Negation(Leaf(x))
  {}

  lemma JoinedNot(e: Expr, op: Operator, x: bool, r: Expr)
    requires op != NotOp && JoinedOf(e, op, Negation(Leaf(x)), r)
    ensures if op == OrOp then Settled(r) == Value(e) && Open(r) == !x
            else Settled(r) == Settled(e) && Open(r) == (Open(e) && !x)
  {
    var u := Negation(Leaf(x));
    assert Value(Leaf(x)) == x && FirstConjunction(u) == u && !u.Disjunction?;
    assert Value(u) == !x;
  }

  /** Two Nots in front are refused, whatever follows them. */
  lemma LeadingNotsAreMalformed(rest: seq<Item>)
    ensures That(NotNot + rest) == Malformed
  {
    RunConcat(NotNot, rest, Stacks([], []));
    RunNotNot(Stacks([], []));
    RaisedStays(rest);
  }

  // -------------------------------------------------------------- any list at all

  function IsBinary(op: Operator): int { if op == NotOp then 0 else 1 }

  /** How many binary operators wait on a stack. */
  function Waiting(operators: seq<Operator>): int {
    if operators == [] then 0
    else Waiting(operators[..|operators| - 1]) + IsBinary(operators[|operators| - 1])
  }

  /** By how many the operands of a list outnumber its binary operators. */
  function Surplus(items: seq<Item>): int {
    if items == [] then 0
    else (if items[0].Operand? then 1 else -IsBinary(items[0].op)) + Surplus(items[1..])
  }

  lemma PerformTakes(op: Operator, results: seq<bool>)
    ensures var p := Perform(op, results);
      && (p.Raised? <==> |results| < 1 + IsBinary(op))
      && (!p.Raised? ==> |p.results| == |results| - IsBinary(op))
  {}

  lemma {:induction false} SettleCounts(s: Stacks, limit: int)
    requires !Settle(s, limit).Raised?
    ensures var t := Settle(s, limit);
      !s.Raised? && |t.results| - Waiting(t.operators) == |s.results| - Waiting(s.operators)
      && |t.operators| <= |s.operators|
    decreases if s.Raised? then 0 else |s.operators|
  {
    hide Perform;
    if !s.Raised? && s.operators != [] {
      var top := |s.operators| - 1;
      PerformTakes(s.operators[top], s.results);
      if s.operators[top].Precedence() <= limit {
        SettleCounts(Stacks(Perform(s.operators[top], s.results).results, s.operators[..top]), limit);
      }
    }
  }

  lemma {:induction false} RunCounts(items: seq<Item>, s: Stacks)
    requires !Run(items, s).Raised?
    ensures var t := Run(items, s);
      !s.Raised? && |t.results| - Waiting(t.operators) == |s.results| - Waiting(s.operators) + Surplus(items)
  {
    hide Settle, Waiting;
    if items != [] {
      var next := Step(s, items[0]);
      RunCounts(items[1..], next);
      if items[0].Infix? {
        var t := Settle(s, items[0].op.Precedence());
        SettleCounts(s, items[0].op.Precedence());
        WaitingPushed(t.operators, items[0].op);
      }
    }
  }

  lemma WaitingPushed(operators: seq<Operator>, op: Operator)
    ensures Waiting(operators + [op]) == Waiting(operators) + IsBinary(op)
  {
    assert (operators + [op])[..|operators|] == operators;
  }

  lemma {:induction false} SettleAllEmpties(s: Stacks)
    requires !SettleAll(s).Raised?
    ensures SettleAll(s).operators == []
    decreases if s.Raised? then 0 else |s.operators|
  {
    hide Perform;
    if !s.Raised? && s.operators != [] {
      var top := |s.operators| - 1;
      var p := Perform(s.operators[top], s.results);
      if !p.Raised? { SettleAllEmpties(Stacks(p.results, s.operators[..top])); }
    }
  }

  /** Whatever the order: with too few operands a list is refused. */
  lemma TooFewOperandsAreMalformed(items: seq<Item>)
    requires Surplus(items) <= 0
    ensures That(items) == Malformed
  {
    hide Run, Settle, Surplus;
    var s := Run(items, Stacks([], []));
    if !SettleAll(s).Raised? {
      SettleCounts(s, OrOp.Precedence());
      RunCounts(items, Stacks([], []));
      SettleAllEmpties(s);
    }
  }

  /** The same stacks over results that nothing reaches. */
  function Over(below: seq<bool>, s: Stacks): Stacks {
    if s.Raised? then s else s.(results := below + s.results)
  }

  lemma PerformOver(op: Operator, below: seq<bool>, results: seq<bool>)
    requires !Perform(op, results).Raised?
    ensures Perform(op, below + results) == Over(below, Perform(op, results))
  {
    var n, all := |results|, below + results;
    var m := n - 1 - IsBinary(op);
    assert all[..|below| + m] == below + results[..m];
    var last := Perform(op, results).results[m];
    assert results[..m] + [last] == Perform(op, results).results;
    assert below + results[..m] + [last] == below + (results[..m] + [last]);
  }

  lemma {:induction false} SettleOver(below: seq<bool>, s: Stacks, limit: int)
    requires !Settle(s, limit).Raised?
    ensures Settle(Over(below, s), limit) == Over(below, Settle(s, limit))
    decreases if s.Raised? then 0 else |s.operators|
  {
    hide Perform;
    if !s.Raised? && s.operators != [] {
      var top := |s.operators| - 1;
      if s.operators[top].Precedence() <= limit {
        PerformOver(s.operators[top], below, s.results);
        SettleOver(below, Stacks(Perform(s.operators[top], s.results).results, s.operators[..top]), limit);
      }
    }
  }

  lemma {:induction false} RunOver(items: seq<Item>, below: seq<bool>, s: Stacks)
    requires !Run(items, s).Raised?
    ensures Run(items, Over(below, s)) == Over(below, Run(items, s))
  {
    hide Settle;
    if items != [] {
      if s.Raised? {
        RaisedStays(items[1..]);
      } else {
        StepOver(items[0], below, s, items[1..]);
        RunOver(items[1..], below, Step(s, items[0]));
      }
    }
  }

  lemma StepOver(item: Item, below: seq<bool>, s: Stacks, rest: seq<Item>)
    requires !s.Raised? && !Run(rest, Step(s, item)).Raised?
    ensures Step(Over(below, s), item) == Over(below, Step(s, item))
  {
    hide Settle;
    match item
    case Operand(holds) => assert below + s.results + [holds] == below + (s.results + [holds]);
    case Infix(op) =>
      if Settle(s, op.Precedence()).Raised? {
        RaisedStays(rest);
      }
      SettleOver(below, s, op.Precedence());
  }

  /** Only the last result counts: operands in front that no operator joins to a list change nothing. */
  lemma UnjoinedOperandIsIgnored(x: bool, items: seq<Item>)
    requires That(items) != Malformed
    ensures That([Operand(x)] + items) == That(items)
  {
    hide Run, Settle;
    var start, s := Stacks([], []), Run(items, Stacks([], []));
    assert !s.Raised? by { RaisedSettles(OrOp.Precedence()); }
    RunConcat([Operand(x)], items, start);
    RunOne(Operand(x), start);
    assert Step(start, Operand(x)) == Over([x], start) by { assert [x] + [] == [] + [x]; }
    RunOver(items, [x], start);
    SettleOver([x], s, OrOp.Precedence());
    var t := SettleAll(s);
    assert SettleAll(Run([Operand(x)] + items, start)) == Over([x], t);
    assert ([x] + t.results)[|t.results|] == t.results[|t.results| - 1];
  }
}
