/** Monkey math: a list of named expressions that is folded to a number by
    substituting known values, and turned around to solve for an unknown. */
module Day21 {
  import opened Wrappers
  import opened Arith

  datatype Value = Number(n: int) | Variable(name: string)

  datatype Expression =
    | Addition(x: Value, y: Value)
    | Substraction(x: Value, y: Value)
    | Multiplication(x: Value, y: Value)
    | Division(x: Value, y: Value)
    | Equality(x: Value, y: Value)
    | Literal(v: Value)

  function Abs(a: int): nat {
    if a < 0 then -a else a
  }

  /** Rust's `/` on integers: the quotient rounded toward zero. */
  function TruncDiv(a: int, b: int): int
    requires b != 0
  {
    var q := Abs(a) / Abs(b);
    if (a < 0) != (b < 0) then -q else q
  }

  /** Dividing a product by one factor gives the other. */
  lemma TruncDivOfProduct(l: int, n: int)
    requires n != 0
    ensures TruncDiv(l * n, n) == l
  {
    assert Abs(l * n) == Abs(l) * Abs(n) by {
      if l < 0 && n < 0 {
        assert l * n == (-l) * (-n);
      } else if l < 0 {
        assert -(l * n) == (-l) * n;
      } else if n < 0 {
        assert -(l * n) == l * (-n);
      }
    }
    DivModUnique(Abs(l * n), Abs(n), Abs(l), 0);
  }

  /** The value of an operand under an assignment of numbers to names. */
  function EvalValue(v: Value, env: map<string, int>): Option<int> {
    match v
    case Number(n) => Some(n)
    case Variable(name) => if name in env then Some(env[name]) else None
  }

  /** The number an expression stands for; an equality stands for none, and
      division by zero has no value. */
  function Eval(e: Expression, env: map<string, int>): Option<int> {
    match e
    case Literal(v) => EvalValue(v, env)
    case Equality(_, _) => None
    case _ =>
      match (EvalValue(e.x, env), EvalValue(e.y, env))
      case (Some(a), Some(b)) =>
        (match e
         case Addition(_, _) => Some(a + b)
         case Substraction(_, _) => Some(a - b)
         case Multiplication(_, _) => Some(a * b)
         case Division(_, _) => if b == 0 then None else Some(TruncDiv(a, b)))
      case _ => None
  }

  /** Division of two numbers by zero panics. */
  predicate DividesByZero(e: Expression) {
    e.Division? && e.x.Number? && e.y == Number(0)
  }

  /** `Expression::calculate`: an operation on two numbers becomes a literal
      of its result; everything else is returned as it is. */
  function Calculate(e: Expression): (r: Expression)
    requires !DividesByZero(e)
    ensures r.Literal? <==> e.Literal? || (!e.Equality? && e.x.Number? && e.y.Number?)
    ensures !r.Literal? ==> r == e
    ensures e.Literal? ==> r == e
  {
    match e
    case Literal(_) => e
    case Equality(_, _) => e
    case Addition(Number(l), Number(r)) => Literal(Number(l + r))
    case Substraction(Number(l), Number(r)) => Literal(Number(l - r))
    case Multiplication(Number(l), Number(r)) => Literal(Number(l * r))
    case Division(Number(l), Number(r)) => Literal(Number(TruncDiv(l, r)))
    case _ => e
  }

  /** Calculating never changes what an expression stands for. */
  lemma CalculatePreservesValue(e: Expression, env: map<string, int>)
    requires !DividesByZero(e)
    ensures Eval(Calculate(e), env) == Eval(e, env)
  {
  }

  /** `id = e` holds under `env`. */
  predicate Defines(id: string, e: Expression, env: map<string, int>) {
    id in env && Eval(e, env) == Some(env[id])
  }

  /** `Expression::flip`: `id = e` rewritten as an equation for the variable
      inside `e`. */
  function Flip(e: Expression, id: string): (string, Expression) {
    match e
    case Literal(_) => (id, e)
    case Addition(x, y) =>
      if x.Variable? && y.Number? then (x.name, Substraction(Variable(id), y))
      else if !x.Variable? && y.Variable? && x.Number? then (y.name, Substraction(Variable(id), x))
      else (id, Substraction(x, y))
    case Substraction(x, y) =>
      if x.Variable? && y.Number? then (x.name, Addition(Variable(id), y))
      else if !x.Variable? && y.Variable? && x.Number? then (y.name, Substraction(x, Variable(id)))
      else (id, Substraction(x, y))
    case Multiplication(x, y) =>
      if x.Variable? && y.Number? then (x.name, Division(Variable(id), y))
      else if !x.Variable? && y.Variable? && x.Number? then (y.name, Division(Variable(id), x))
      else (id, Division(x, y))
    case Division(x, y) =>
      if x.Variable? && y.Number? then (x.name, Multiplication(Variable(id), y))
      else if !x.Variable? && y.Variable? && x.Number? then (y.name, Division(x, Variable(id)))
      else (id, Substraction(x, y))
    case Equality(x, y) =>
      var newId := if y.Variable? then y.name else if x.Variable? then x.name else id;
      var value := if y.Number? then y.n else if x.Number? then x.n else 0;
      (newId, Literal(Number(value)))
  }

  /** One operand is a variable other than `id` and the other a number. */
  predicate SolvableFor(e: Expression, id: string) {
    !e.Literal? && !e.Equality?
    && ((e.x.Variable? && e.x.name != id && e.y.Number?) || (e.y.Variable? && e.y.name != id && e.x.Number?))
  }

  function Unknown(e: Expression): string
    requires !e.Literal? && !e.Equality? && (e.x.Variable? || e.y.Variable?)
  {
    if e.x.Variable? then e.x.name else e.y.name
  }

  /** A literal is its own flip. */
  lemma FlipLiteral(v: Value, id: string)
    ensures Flip(Literal(v), id) == (id, Literal(v))
  {
  }

  /** Sums and differences are turned around exactly: the flipped equation
      holds exactly when the original does. */
  lemma FlipAdditive(e: Expression, id: string, env: map<string, int>)
    requires (e.Addition? || e.Substraction?) && SolvableFor(e, id)
    ensures Flip(e, id).0 == Unknown(e)
    ensures Unknown(e) in env ==> (Defines(id, e, env) <==> Defines(Flip(e, id).0, Flip(e, id).1, env))
  {
  }

  /** A product is turned into a division that recovers the unknown factor. */
  lemma FlipMultiplication(e: Expression, id: string, env: map<string, int>)
    requires e.Multiplication? && SolvableFor(e, id)
    requires e.x.Number? ==> e.x.n != 0
    requires e.y.Number? ==> e.y.n != 0
    ensures Flip(e, id).0 == Unknown(e)
    ensures Unknown(e) in env && Defines(id, e, env) ==> Defines(Flip(e, id).0, Flip(e, id).1, env)
  {
    if Unknown(e) in env && Defines(id, e, env) {
      var l := env[Unknown(e)];
      if e.x.Variable? {
        TruncDivOfProduct(l, e.y.n);
      } else {
        assert e.x.n * l == l * e.x.n;
        TruncDivOfProduct(l, e.x.n);
      }
    }
  }

  /** A quotient `id = l / n` is turned into `l = id * n`, which implies the
      original: the flip only finds exact dividends. */
  lemma FlipDivision(e: Expression, id: string, env: map<string, int>)
    requires e.Division? && e.x.Variable? && e.x.name != id && e.y.Number? && e.y.n != 0
    ensures Flip(e, id) == (e.x.name, Multiplication(Variable(id), e.y))
    ensures e.x.name in env && Defines(Flip(e, id).0, Flip(e, id).1, env) ==> Defines(id, e, env)
  {
    if e.x.name in env && Defines(Flip(e, id).0, Flip(e, id).1, env) {
      TruncDivOfProduct(env[id], e.y.n);
    }
  }

  /** The equality of `root` becomes a literal of its number, named by its
      variable. */
  lemma FlipEquality(name: string, n: int, id: string)
    ensures Flip(Equality(Variable(name), Number(n)), id) == (name, Literal(Number(n)))
    ensures Flip(Equality(Number(n), Variable(name)), id) == (name, Literal(Number(n)))
  {
  }

  /** When neither operand pattern matches, a sum, product or quotient is
      rewritten with a different operation and the same name. */
  lemma FlipFallback(a: string, b: string, id: string)
    ensures Flip(Addition(Variable(a), Variable(b)), id) == (id, Substraction(Variable(a), Variable(b)))
    ensures Flip(Multiplication(Variable(a), Variable(b)), id) == (id, Division(Variable(a), Variable(b)))
    ensures Flip(Division(Variable(a), Variable(b)), id) == (id, Substraction(Variable(a), Variable(b)))
  {
  }

  /** The `literals` map of `reduce`: every name bound to a number literal,
      a later binding replacing an earlier one. */
  function Literals(m: seq<(string, Expression)>): (lits: map<string, int>)
    ensures forall id :: id in lits <==> exists k :: 0 <= k < |m| && m[k].0 == id && m[k].1.Literal? && m[k].1.v.Number?
  {
    if m == [] then map[]
    else
      var before := Literals(m[..|m| - 1]);
      var last := m[|m| - 1];
      assert forall k :: 0 <= k < |m| - 1 ==> m[k] == m[..|m| - 1][k];
      if last.1.Literal? && last.1.v.Number? then before[last.0 := last.1.v.n] else before
  }

  /** The value of every name that is bound to a number literal. */
  lemma {:induction false} LiteralsAreBindings(m: seq<(string, Expression)>, id: string)
    requires id in Literals(m)
    ensures exists k :: 0 <= k < |m| && m[k] == (id, Literal(Number(Literals(m)[id])))
  {
    var last := m[|m| - 1];
    if !(last.0 == id && last.1.Literal? && last.1.v.Number?) {
      LiteralsAreBindings(m[..|m| - 1], id);
      var k :| 0 <= k < |m| - 1 && m[..|m| - 1][k] == (id, Literal(Number(Literals(m[..|m| - 1])[id])));
      assert m[k] == m[..|m| - 1][k];
    }
  }

  function Substitute(v: Value, lits: map<string, int>): (r: Value)
    ensures r.Variable? ==> r == v && v.name !in lits
  {
    if v.Variable? && v.name in lits then Number(lits[v.name]) else v
  }

  /** An entry after substitution: literals are dropped, and in every other
      expression each operand bound to a literal becomes that number. */
  function Reduced(e: Expression, lits: map<string, int>): (r: Option<Expression>)
    ensures r.None? <==> e.Literal?
  {
    match e
    case Literal(_) => None
    case Addition(x, y) => Some(Addition(Substitute(x, lits), Substitute(y, lits)))
    case Substraction(x, y) => Some(Substraction(Substitute(x, lits), Substitute(y, lits)))
    case Multiplication(x, y) => Some(Multiplication(Substitute(x, lits), Substitute(y, lits)))
    case Division(x, y) => Some(Division(Substitute(x, lits), Substitute(y, lits)))
    case Equality(x, y) => Some(Equality(Substitute(x, lits), Substitute(y, lits)))
  }

  /** An assignment that agrees with the literals. */
  predicate Agrees(env: map<string, int>, lits: map<string, int>) {
    forall id :: id in lits ==> id in env && env[id] == lits[id]
  }

  /** Substitution does not change what an expression stands for. */
  lemma ReducedPreservesValue(e: Expression, lits: map<string, int>, env: map<string, int>)
    requires !e.Literal? && Agrees(env, lits)
    ensures Eval(Reduced(e, lits).value, env) == Eval(e, env)
  {
    if !e.Equality? {
      assert EvalValue(Substitute(e.x, lits), env) == EvalValue(e.x, env);
      assert EvalValue(Substitute(e.y, lits), env) == EvalValue(e.y, env);
    }
  }

  function ReduceSpec(m: seq<(string, Expression)>, lits: map<string, int>): (r: seq<(string, Expression)>)
    ensures |r| <= |m|
  {
    if m == [] then []
    else
      var before := ReduceSpec(m[..|m| - 1], lits);
      var last := m[|m| - 1];
      match Reduced(last.1, lits)
      case None => before
      case Some(e) => before + [(last.0, e)]
  }

  /** One operand position of an expression. */
  function Operands(e: Expression): seq<Value> {
    if e.Literal? then [e.v] else [e.x, e.y]
  }

  /** The result holds no literal entry, and no operand in it names a
      literal of the input. */
  lemma {:induction false} ReduceSpecProperties(m: seq<(string, Expression)>, lits: map<string, int>)
    ensures forall k :: 0 <= k < |ReduceSpec(m, lits)| ==> !ReduceSpec(m, lits)[k].1.Literal?
    ensures forall k, i :: 0 <= k < |ReduceSpec(m, lits)| && 0 <= i < |Operands(ReduceSpec(m, lits)[k].1)| ==>
      var v := Operands(ReduceSpec(m, lits)[k].1)[i]; v.Variable? ==> v.name !in lits
  {
    if m != [] {
      ReduceSpecProperties(m[..|m| - 1], lits);
    }
  }

  /** Every entry of the result comes from an entry of the input with the
      same name and the same value under any assignment that agrees with
      the literals. */
  lemma {:induction false} ReduceSpecPreservesValue(m: seq<(string, Expression)>, lits: map<string, int>, env: map<string, int>)
    requires Agrees(env, lits)
    ensures forall k :: 0 <= k < |ReduceSpec(m, lits)| ==>
      exists j :: 0 <= j < |m| && m[j].0 == ReduceSpec(m, lits)[k].0 && Eval(ReduceSpec(m, lits)[k].1, env) == Eval(m[j].1, env)
  {
    if m != [] {
      var before := m[..|m| - 1];
      ReduceSpecPreservesValue(before, lits, env);
      var r := ReduceSpec(m, lits);
      var rb := ReduceSpec(before, lits);
      assert r == rb || r == rb + [(m[|m| - 1].0, Reduced(m[|m| - 1].1, lits).value)];
      forall k | 0 <= k < |r|
        ensures exists j :: 0 <= j < |m| && m[j].0 == r[k].0 && Eval(r[k].1, env) == Eval(m[j].1, env)
      {
        if k < |rb| {
          assert r[k] == rb[k];
          var j :| 0 <= j < |before| && before[j].0 == r[k].0 && Eval(r[k].1, env) == Eval(before[j].1, env);
          assert m[j] == before[j];
        } else {
          ReducedPreservesValue(m[|m| - 1].1, lits, env);
          assert m[|m| - 1].0 == r[k].0;
        }
      }
    } else {
      assert ReduceSpec(m, lits) == [];
    }
  }

  /** `reduce`: every entry is rewritten with the literals of the input,
      and literal entries are dropped. */
  method Reduce(m: seq<(string, Expression)>) returns (result: seq<(string, Expression)>)
    ensures result == ReduceSpec(m, Literals(m))
    ensures |result| <= |m|
  {
    var literals: map<string, int> := map[];
    for k := 0 to |m|
      invariant literals == Literals(m[..k])
    {
      assert m[..k + 1][..k] == m[..k];
      var (id, expr) := m[k];
      if expr.Literal? && expr.v.Number? {
        literals := literals[id := expr.v.n];
      }
    }
    assert m[..|m|] == m;
    result := [];
    for k := 0 to |m|
      invariant result == ReduceSpec(m[..k], literals)
    {
      assert m[..k + 1][..k] == m[..k];
      var (id, expr) := m[k];
      var newExpr := Reduced(expr, literals);
      if newExpr.Some? {
        result := result + [(id, newExpr.value)];
      }
    }
  }
}
