/** Reading a Lua damage formula as a five-term form, by algebra on its expression tree alone. */
module SpellFormula {
  import opened Wrappers
  import opened SpellPower

  datatype Operator = Plus | Minus | Times | Over | OtherOperator(symbol: string)

  datatype Expression =
    | Number(value: real)
    | Identifier(name: string)
    | Unary(operator: Operator, argument: Expression)
    | Binary(operator: Operator, left: Expression, right: Expression)
    | MethodCall(receiver: string, indexer: string, method_: string)
    | Other(kind: string)

  datatype Atom = Level | Skill | Attack

  datatype Form = Form(constant: real, level: real, skill: real, attack: real, skillAttack: real)

  datatype Error =
    | UnknownIdentifier(name: string) | UnsupportedOperator(operator: Operator) | UnsupportedCall
    | UnsupportedExpression(kind: string) | UnrecognizedProduct | UnrecognizedDivision | LevelFactorsDiffer

  // ---------------------------------------------------------------- the algebra of forms

  const ZERO := Form(0.0, 0.0, 0.0, 0.0, 0.0)

  function Single(atom: Atom): Form {
    match atom
    case Level => ZERO.(level := 1.0)
    case Skill => ZERO.(skill := 1.0)
    case Attack => ZERO.(attack := 1.0)
  }

  function Add(a: Form, b: Form): Form {
    Form(a.constant + b.constant, a.level + b.level, a.skill + b.skill, a.attack + b.attack, a.skillAttack + b.skillAttack)
  }

  function Negate(a: Form): Form {
    Form(-a.constant, -a.level, -a.skill, -a.attack, -a.skillAttack)
  }

  function Scale(a: Form, factor: real): Form {
    Form(a.constant * factor, a.level * factor, a.skill * factor, a.attack * factor, a.skillAttack * factor)
  }

  predicate IsConstant(a: Form) {
    a.level == 0.0 && a.skill == 0.0 && a.attack == 0.0 && a.skillAttack == 0.0
  }

  /** The only one of level, skill and attack that is present; the product term is not looked at. */
  function SingleAtom(a: Form): Option<(Atom, real)> {
    if a.constant != 0.0 then None
    else if a.level != 0.0 && a.skill == 0.0 && a.attack == 0.0 then Some((Level, a.level))
    else if a.level == 0.0 && a.skill != 0.0 && a.attack == 0.0 then Some((Skill, a.skill))
    else if a.level == 0.0 && a.skill == 0.0 && a.attack != 0.0 then Some((Attack, a.attack))
    else None
  }

  function Multiply(a: Form, b: Form): Result<Form, Error> {
    if IsConstant(a) then Ok(Scale(b, a.constant))
    else if IsConstant(b) then Ok(Scale(a, b.constant))
    else
      var sa, sb := SingleAtom(a), SingleAtom(b);
      if sa.Some? && sb.Some? && {sa.value.0, sb.value.0} == {Skill, Attack}
      then Ok(ZERO.(skillAttack := sa.value.1 * sb.value.1))
      else Err(UnrecognizedProduct)
  }

  function Divide(a: Form, b: Form): Result<Form, Error> {
    if !IsConstant(b) || b.constant == 0.0 then Err(UnrecognizedDivision) else Ok(Scale(a, 1.0 / b.constant))
  }

  function Combine(op: Operator, a: Form, b: Form): Result<Form, Error> {
    if op == Plus then Ok(Add(a, b))
    else if op == Minus then Ok(Add(a, Negate(b)))
    else if op == Times then Multiply(a, b)
    else if op == Over then Divide(a, b)
    else Err(UnsupportedOperator(op))
  }

  // ---------------------------------------------------------------- what a form and an expression are worth

  datatype Env = Env(level: real, skill: real, attack: real)

  function AtomValue(atom: Atom, env: Env): real {
    match atom case Level => env.level case Skill => env.skill case Attack => env.attack
  }

  function Value(f: Form, env: Env): real {
    f.constant + f.level * env.level + f.skill * env.skill + f.attack * env.attack + f.skillAttack * (env.skill * env.attack)
  }

  datatype Local = Local(name: string, init: Expression)

  type Params = map<string, Atom>

  /** `player:getLevel()` and `player:getMagicLevel()` are the only calls with a meaning here. */
  function PlayerAtom(receiver: string, indexer: string, name: string): Option<Atom> {
    if indexer != ":" || receiver != "player" then None
    else if name == "getLevel" then Some(Level)
    else if name == "getMagicLevel" then Some(Skill)
    else None
  }

  function Mul(x: real, y: real): real { x * y }

  function Operate(op: Operator, x: real, y: real): Option<real> {
    if op == Plus then Some(x + y)
    else if op == Minus then Some(x - y)
    else if op == Times then Some(Mul(x, y))
    else if op == Over && y != 0.0 then Some(x / y)
    else None
  }

  /** What Lua computes, with the names in scope; `None` where it would fail. */
  function Eval(e: Expression, scope: map<string, Option<real>>, env: Env): Option<real> {
    match e
    case Number(v) => Some(v)
    case Identifier(name) => if name in scope then scope[name] else None
    case Unary(op, a) =>
      var v := Eval(a, scope, env);
      if op == Minus && v.Some? then Some(-v.value) else None
    case Binary(op, l, r) =>
      var a, b := Eval(l, scope, env), Eval(r, scope, env);
      if a.None? || b.None? then None else Operate(op, a.value, b.value)
    case MethodCall(receiver, indexer, name) =>
      var atom := PlayerAtom(receiver, indexer, name);
      if atom.Some? then Some(AtomValue(atom.value, env)) else None
    case Other(_) => None
  }

  /** The names in scope after the first `count` local statements have run. */
  function Scope(params: Params, locals: seq<Local>, count: nat, env: Env): map<string, Option<real>>
    requires count <= |locals|
  {
    if count == 0 then map name | name in params :: Some(AtomValue(params[name], env))
    else
      var before := Scope(params, locals, count - 1, env);
      before[locals[count - 1].name := Eval(locals[count - 1].init, before, env)]
  }

  // ---------------------------------------------------------------- the reader

  /** The local statement a name refers to: the last one that binds it. */
  function Find(locals: seq<Local>, name: string): (i: Option<nat>)
    ensures i.Some? ==> i.value < |locals| && locals[i.value].name == name
    ensures i.Some? ==> forall j :: i.value < j < |locals| ==> locals[j].name != name
    ensures i.None? ==> forall j :: 0 <= j < |locals| ==> locals[j].name != name
  {
    if locals == [] then None
    else if locals[|locals| - 1].name == name then Some(|locals| - 1)
    else Find(locals[..|locals| - 1], name)
  }

  function Names(e: Expression): set<string> {
    match e
    case Identifier(name) => {name}
    case Unary(_, a) => Names(a)
    case Binary(_, l, r) => Names(l) + Names(r)
    case _ => {}
  }

  /** The expression mentions no local bound at or after `bound`. */
  predicate Before(e: Expression, locals: seq<Local>, bound: nat) {
    forall name :: name in Names(e) ==> Find(locals, name).None? || Find(locals, name).value < bound
  }

  /** A straight-line body: the last binding of every name a local mentions is before it. A name may be bound again. */
  predicate StraightLine(locals: seq<Local>) {
    forall i :: 0 <= i < |locals| ==> Before(locals[i].init, locals, i)
  }

  function Reduce(e: Expression, params: Params, locals: seq<Local>, ghost bound: nat): Result<Form, Error>
    requires StraightLine(locals) && Before(e, locals, bound)
    decreases bound, e
  {
    match e
    case Number(v) => Ok(ZERO.(constant := v))
    case Identifier(name) =>
      var local := Find(locals, name);
      if local.Some? then Reduce(locals[local.value].init, params, locals, local.value)
      else if name in params then Ok(Single(params[name]))
      else Err(UnknownIdentifier(name))
    case Unary(op, a) =>
      if op != Minus then Err(UnsupportedOperator(op))
      else (match Reduce(a, params, locals, bound) case Err(x) => Err(x) case Ok(f) => Ok(Negate(f)))
    case Binary(op, l, r) =>
      (match Reduce(l, params, locals, bound)
       case Err(x) => Err(x)
       case Ok(a) =>
         match Reduce(r, params, locals, bound)
         case Err(x) => Err(x)
         case Ok(b) => Combine(op, a, b))
    case MethodCall(receiver, indexer, name) =>
      var atom := PlayerAtom(receiver, indexer, name);
      if atom.None? then Err(UnsupportedCall) else Ok(Single(atom.value))
    case Other(kind) => Err(UnsupportedExpression(kind))
  }

  // ---------------------------------------------------------------- one operation at a time

  lemma AddIsSum(a: Form, b: Form, env: Env)
    ensures Value(Add(a, b), env) == Value(a, env) + Value(b, env)
  {}

  lemma NegateIsMinus(a: Form, env: Env)
    ensures Value(Negate(a), env) == -Value(a, env)
  {}

  lemma ScaleTerm(c: real, k: real, v: real)
    ensures (c * k) * v == (c * v) * k
  {}

  lemma ScaleIsTimes(a: Form, k: real, env: Env)
    ensures Value(Scale(a, k), env) == Value(a, env) * k
  {
    ScaleTerm(a.level, k, env.level);
    ScaleTerm(a.skill, k, env.skill);
    ScaleTerm(a.attack, k, env.attack);
    ScaleTerm(a.skillAttack, k, env.skill * env.attack);
  }

  lemma ConstantValue(a: Form, env: Env)
    requires IsConstant(a)
    ensures Value(a, env) == a.constant
  {}

  lemma SingleIsAtom(atom: Atom, env: Env)
    ensures Value(Single(atom), env) == AtomValue(atom, env)
  {}

  /** No product term is lost: one side is a plain number, or neither single term hides a skill-times-attack term. */
  predicate Exact(a: Form, b: Form) {
    IsConstant(a) || IsConstant(b) || (a.skillAttack == 0.0 && b.skillAttack == 0.0)
  }

  lemma MultiplyIsProduct(a: Form, b: Form, env: Env)
    requires Multiply(a, b).Ok? && Exact(a, b)
    ensures Value(Multiply(a, b).value, env) == Value(a, env) * Value(b, env)
  {
    if IsConstant(a) {
      ConstantValue(a, env);
      ScaleIsTimes(b, a.constant, env);
    } else if IsConstant(b) {
      ConstantValue(b, env);
      ScaleIsTimes(a, b.constant, env);
    } else {
      AtomsProduct(a, b, env);
    }
  }

  lemma MultiplyIsMul(a: Form, b: Form, env: Env)
    requires Multiply(a, b).Ok? && Exact(a, b)
    ensures Value(Multiply(a, b).value, env) == Mul(Value(a, env), Value(b, env))
  {
    MultiplyIsProduct(a, b, env);
    hide Value, Multiply, Exact;
  }

  lemma AtomsProduct(a: Form, b: Form, env: Env)
    requires Multiply(a, b).Ok? && !IsConstant(a) && !IsConstant(b) && a.skillAttack == 0.0 && b.skillAttack == 0.0
    ensures Value(Multiply(a, b).value, env) == Value(a, env) * Value(b, env)
  {
    var p, q := SingleAtom(a).value, SingleAtom(b).value;
    SingleValue(a, env);
    SingleValue(b, env);
    SkillAttackValue(p.1 * q.1, env);
    hide Value;
    PairProduct(p, q, env);
  }

  lemma SkillAttackValue(c: real, env: Env)
    ensures Value(ZERO.(skillAttack := c), env) == c * (env.skill * env.attack)
  {}

  lemma SingleValue(a: Form, env: Env)
    requires SingleAtom(a).Some?
    ensures Value(a, env)
         == SingleAtom(a).value.1 * AtomValue(SingleAtom(a).value.0, env) + a.skillAttack * (env.skill * env.attack)
  {}

  lemma PairProduct(p: (Atom, real), q: (Atom, real), env: Env)
    requires {p.0, q.0} == {Skill, Attack}
    ensures (p.1 * q.1) * (env.skill * env.attack) == (p.1 * AtomValue(p.0, env)) * (q.1 * AtomValue(q.0, env))
  {
    assert (p.0 == Skill && q.0 == Attack) || (p.0 == Attack && q.0 == Skill) by {
      assert Skill in {p.0, q.0} && Attack in {p.0, q.0};
    }
    var x, y := AtomValue(p.0, env), AtomValue(q.0, env);
    assert x * y == env.skill * env.attack;
    FourFactors(p.1, q.1, x, y);
  }

  lemma FourFactors(c: real, d: real, x: real, y: real)
    ensures (c * d) * (x * y) == (c * x) * (d * y)
  {
    assert (c * d) * (x * y) == c * (d * (x * y));
    assert d * (x * y) == x * (d * y);
    assert c * (x * (d * y)) == (c * x) * (d * y);
  }

  /** An accepted product is right for every input exactly when no product term is lost. */
  lemma MultiplyExactness(a: Form, b: Form)
    requires Multiply(a, b).Ok?
    ensures (forall env :: Value(Multiply(a, b).value, env) == Value(a, env) * Value(b, env)) <==> Exact(a, b)
  {
    if Exact(a, b) {
      forall env ensures Value(Multiply(a, b).value, env) == Value(a, env) * Value(b, env) { MultiplyIsProduct(a, b, env); }
    } else {
      LossShows(a, b);
    }
  }

  const ONE := Env(0.0, 1.0, 1.0)
  const TWO_SKILL := Env(0.0, 2.0, 1.0)

  lemma SkillValues(a: Form)
    requires SingleAtom(a).Some? && SingleAtom(a).value.0 == Skill
    ensures Value(a, ONE) == a.skill + a.skillAttack && Value(a, TWO_SKILL) == a.skill * 2.0 + a.skillAttack * 2.0
  {}

  lemma AttackValues(b: Form)
    requires SingleAtom(b).Some? && SingleAtom(b).value.0 == Attack
    ensures Value(b, ONE) == b.attack + b.skillAttack && Value(b, TWO_SKILL) == b.attack + b.skillAttack * 2.0
  {}

  lemma ProductValues(c: real)
    ensures Value(ZERO.(skillAttack := c), ONE) == c && Value(ZERO.(skillAttack := c), TWO_SKILL) == c * 2.0
  {}

  /** Where a term is lost, skill of one or two and attack of one already show it. */
  lemma LossShows(a: Form, b: Form)
    requires Multiply(a, b).Ok? && !Exact(a, b)
    ensures exists env :: Value(Multiply(a, b).value, env) != Value(a, env) * Value(b, env)
  {
    var p, q := SingleAtom(a).value, SingleAtom(b).value;
    assert Skill in {p.0, q.0} && Attack in {p.0, q.0};
    ProductValues(p.1 * q.1);
    var m := Multiply(a, b).value;
    if p.0 == Skill {
      SkillValues(a);
      AttackValues(b);
      LossShowsFor(m, a, b, a.skill, a.skillAttack, b.attack, b.skillAttack);
    } else {
      SkillValues(b);
      AttackValues(a);
      LossShowsFor(m, b, a, b.skill, b.skillAttack, a.attack, a.skillAttack);
    }
  }

  lemma LossShowsFor(m: Form, a: Form, b: Form, s: real, u: real, t: real, v: real)
    requires s != 0.0 && t != 0.0 && (u != 0.0 || v != 0.0)
    requires Value(m, ONE) == s * t && Value(m, TWO_SKILL) == (s * t) * 2.0
    requires Value(a, ONE) == s + u && Value(a, TWO_SKILL) == s * 2.0 + u * 2.0
    requires Value(b, ONE) == t + v && Value(b, TWO_SKILL) == t + v * 2.0
    ensures exists env :: Value(m, env) != Value(a, env) * Value(b, env)
  {
    hide Value;
    if Value(m, ONE) == Value(a, ONE) * Value(b, ONE) && Value(m, TWO_SKILL) == Value(a, TWO_SKILL) * Value(b, TWO_SKILL) {
      LostTerms(s, u, t, v);
    }
  }

  /** (s + u)(t + v) and (2s + 2u)(t + 2v) cannot both equal what is kept of them unless u and v vanish. */
  lemma LostTerms(s: real, u: real, t: real, v: real)
    requires s != 0.0 && t != 0.0
    requires s * t == (s + u) * (t + v) && (s * t) * 2.0 == (s * 2.0 + u * 2.0) * (t + v * 2.0)
    ensures u == 0.0 && v == 0.0
  {
    assert (s + u) * (t + v) == s * t + s * v + u * t + u * v;
    assert (s * 2.0 + u * 2.0) * (t + v * 2.0) == 2.0 * (s * t + 2.0 * (s * v) + u * t + 2.0 * (u * v));
    assert s * v + u * v == 0.0 && u * t == 0.0;
    assert u == 0.0;
  }

  lemma DivideIsQuotient(a: Form, b: Form, env: Env)
    requires Divide(a, b).Ok?
    ensures Value(b, env) != 0.0 && Value(Divide(a, b).value, env) == Value(a, env) / Value(b, env)
  {
    ConstantValue(b, env);
    ScaleIsTimes(a, 1.0 / b.constant, env);
    assert Value(a, env) * (1.0 / b.constant) == Value(a, env) / b.constant;
  }

  // ---------------------------------------------------------------- whole expressions

  predicate ExactFor(op: Operator, a: Form, b: Form) {
    op == Times && Multiply(a, b).Ok? ==> Exact(a, b)
  }

  /** Every product of the expression, locals unfolded, loses no term. */
  predicate AllExact(e: Expression, params: Params, locals: seq<Local>, ghost bound: nat)
    requires StraightLine(locals) && Before(e, locals, bound)
    decreases bound, e
  {
    match e
    case Identifier(name) =>
      var local := Find(locals, name);
      local.Some? ==> AllExact(locals[local.value].init, params, locals, local.value)
    case Unary(_, a) => AllExact(a, params, locals, bound)
    case Binary(op, l, r) =>
      AllExact(l, params, locals, bound) && AllExact(r, params, locals, bound) &&
      var a, b := Reduce(l, params, locals, bound), Reduce(r, params, locals, bound);
      (a.Ok? && b.Ok? ==> ExactFor(op, a.value, b.value))
    case _ => true
  }

  /** A name means its local, evaluated where it was bound, or else its parameter. */
  lemma {:induction false} ScopeOf(params: Params, locals: seq<Local>, count: nat, env: Env, name: string)
    requires count <= |locals|
    ensures var i := Find(locals, name);
            var scope := Scope(params, locals, count, env);
            && (i.Some? && i.value < count ==>
                  name in scope && scope[name] == Eval(locals[i.value].init, Scope(params, locals, i.value, env), env))
            && (i.None? && name in params ==> name in scope && scope[name] == Some(AtomValue(params[name], env)))
  {
    if count > 0 {
      ScopeOf(params, locals, count - 1, env, name);
      var i := Find(locals, name);
      if i.Some? && i.value < count - 1 { assert locals[count - 1].name != name; }
    }
  }

  /** Accepted and exact: what Lua computes is the form's value, for every level, skill and attack. */
  lemma {:induction false} ReduceIsSound(e: Expression, params: Params, locals: seq<Local>, bound: nat, count: nat, env: Env)
    requires StraightLine(locals) && Before(e, locals, bound) && bound <= count <= |locals|
    requires Reduce(e, params, locals, bound).Ok? && AllExact(e, params, locals, bound)
    ensures Eval(e, Scope(params, locals, count, env), env) == Some(Value(Reduce(e, params, locals, bound).value, env))
    decreases bound, e, 1
  {
    hide Value;
    if e.Identifier? {
      NameIsSound(e, params, locals, bound, count, env);
    } else if e.Unary? {
      MinusIsSound(e, params, locals, bound, count, env);
    } else if e.Binary? {
      OperationIsSound(e, params, locals, bound, count, env);
    } else {
      LeafIsSound(e, params, locals, bound, count, env);
    }
  }

  lemma LeafIsSound(e: Expression, params: Params, locals: seq<Local>, bound: nat, count: nat, env: Env)
    requires StraightLine(locals) && Before(e, locals, bound) && bound <= count <= |locals|
    requires Reduce(e, params, locals, bound).Ok? && AllExact(e, params, locals, bound)
    requires e.Number? || e.MethodCall? || e.Other?
    ensures Eval(e, Scope(params, locals, count, env), env) == Some(Value(Reduce(e, params, locals, bound).value, env))
  {
    if e.Number? { ConstantValue(ZERO.(constant := e.value), env); }
    if e.MethodCall? { SingleIsAtom(PlayerAtom(e.receiver, e.indexer, e.method_).value, env); }
  }

  lemma {:induction false} MinusIsSound(e: Expression, params: Params, locals: seq<Local>, bound: nat, count: nat, env: Env)
    requires StraightLine(locals) && Before(e, locals, bound) && bound <= count <= |locals|
    requires Reduce(e, params, locals, bound).Ok? && AllExact(e, params, locals, bound)
    requires e.Unary?
    ensures Eval(e, Scope(params, locals, count, env), env) == Some(Value(Reduce(e, params, locals, bound).value, env))
    decreases bound, e, 0
  {
    hide Value, Negate, Combine, Operate, PlayerAtom, Single;
    assert Names(e) == Names(e.argument);
    ReduceIsSound(e.argument, params, locals, bound, count, env);
    NegateIsMinus(Reduce(e.argument, params, locals, bound).value, env);
  }

  lemma {:induction false} NameIsSound(e: Expression, params: Params, locals: seq<Local>, bound: nat, count: nat, env: Env)
    requires StraightLine(locals) && Before(e, locals, bound) && bound <= count <= |locals|
    requires Reduce(e, params, locals, bound).Ok? && AllExact(e, params, locals, bound)
    requires e.Identifier?
    ensures Eval(e, Scope(params, locals, count, env), env) == Some(Value(Reduce(e, params, locals, bound).value, env))
    decreases bound, e, 0
  {
    hide Value;
    ScopeOf(params, locals, count, env, e.name);
    assert e.name in Names(e);
    var local := Find(locals, e.name);
    if local.Some? {
      ReduceIsSound(locals[local.value].init, params, locals, local.value, local.value, env);
    } else {
      SingleIsAtom(params[e.name], env);
    }
  }

  lemma {:induction false} OperationIsSound(e: Expression, params: Params, locals: seq<Local>, bound: nat, count: nat, env: Env)
    requires StraightLine(locals) && Before(e, locals, bound) && bound <= count <= |locals|
    requires Reduce(e, params, locals, bound).Ok? && AllExact(e, params, locals, bound)
    requires e.Binary?
    ensures Eval(e, Scope(params, locals, count, env), env) == Some(Value(Reduce(e, params, locals, bound).value, env))
    decreases bound, e, 0
  {
    hide Combine, Operate, ExactFor, Value;
    assert Names(e) == Names(e.left) + Names(e.right);
    ReduceIsSound(e.left, params, locals, bound, count, env);
    ReduceIsSound(e.right, params, locals, bound, count, env);
    BinaryIsSound(e.operator, Reduce(e.left, params, locals, bound).value, Reduce(e.right, params, locals, bound).value, env);
  }

  lemma BinaryIsSound(op: Operator, a: Form, b: Form, env: Env)
    requires Combine(op, a, b).Ok? && ExactFor(op, a, b)
    ensures Operate(op, Value(a, env), Value(b, env)) == Some(Value(Combine(op, a, b).value, env))
  {
    hide Value, Add, Negate, Multiply, Divide, Exact, Mul;
    if op == Plus {
      AddIsSum(a, b, env);
    } else if op == Minus {
      NegateIsMinus(b, env);
      AddIsSum(a, Negate(b), env);
    } else if op == Times {
      MultiplyIsMul(a, b, env);
    } else {
      DivideIsQuotient(a, b, env);
    }
  }

  /** The value of an expression after the whole body of local statements. */
  function Computes(e: Expression, params: Params, locals: seq<Local>, env: Env): Option<real> {
    Eval(e, Scope(params, locals, |locals|, env), env)
  }

  /** An accepted expression that loses no term is worth what its form is worth. */
  lemma ComputesForm(e: Expression, params: Params, locals: seq<Local>, env: Env)
    requires StraightLine(locals)
    requires Reduce(e, params, locals, |locals|).Ok? && AllExact(e, params, locals, |locals|)
    ensures Computes(e, params, locals, env) == Some(Value(Reduce(e, params, locals, |locals|).value, env))
  {
    ReduceIsSound(e, params, locals, |locals|, |locals|, env);
  }

  lemma ComputesProduct(l: Expression, r: Expression, params: Params, locals: seq<Local>, env: Env)
    requires Computes(l, params, locals, env).Some? && Computes(r, params, locals, env).Some?
    ensures Computes(Binary(Times, l, r), params, locals, env)
         == Operate(Times, Computes(l, params, locals, env).value, Computes(r, params, locals, env).value)
  {
    hide Operate;
  }

  /** The five coefficients are the differences of five values: equal functions have equal forms. */
  lemma FormsAreCanonical(a: Form, b: Form)
    ensures (forall env :: Value(a, env) == Value(b, env)) <==> a == b
  {
    if forall env :: Value(a, env) == Value(b, env) {
      var none, level, skill := Env(0.0, 0.0, 0.0), Env(1.0, 0.0, 0.0), Env(0.0, 1.0, 0.0);
      var attack, both := Env(0.0, 0.0, 1.0), Env(0.0, 1.0, 1.0);
      assert Value(a, none) == Value(b, none);
      assert Value(a, level) == Value(b, level);
      assert Value(a, skill) == Value(b, skill);
      assert Value(a, attack) == Value(b, attack);
      assert Value(a, both) == Value(b, both);
    }
  }

  /** Two accepted, exact expressions get the same form exactly when Lua computes the same for every input. */
  lemma SameFormIffSameFunction(e: Expression, f: Expression, params: Params, locals: seq<Local>)
    requires StraightLine(locals)
    requires Reduce(e, params, locals, |locals|).Ok? && AllExact(e, params, locals, |locals|)
    requires Reduce(f, params, locals, |locals|).Ok? && AllExact(f, params, locals, |locals|)
    ensures Reduce(e, params, locals, |locals|) == Reduce(f, params, locals, |locals|) <==>
            forall env :: Computes(e, params, locals, env) == Computes(f, params, locals, env)
  {
    var a, b := Reduce(e, params, locals, |locals|).value, Reduce(f, params, locals, |locals|).value;
    FormsAreCanonical(a, b);
    forall env
      ensures Computes(e, params, locals, env) == Some(Value(a, env))
      ensures Computes(f, params, locals, env) == Some(Value(b, env))
    {
      ComputesForm(e, params, locals, env);
      ComputesForm(f, params, locals, env);
    }
    hide Computes, Value;
    if forall env :: Computes(e, params, locals, env) == Computes(f, params, locals, env) {
      forall env ensures Value(a, env) == Value(b, env) {
        assert Computes(e, params, locals, env) == Computes(f, params, locals, env);
      }
    }
  }

  lemma MulExactness(a: Form, b: Form)
    requires Multiply(a, b).Ok?
    ensures (forall env :: Value(Multiply(a, b).value, env) == Mul(Value(a, env), Value(b, env))) <==> Exact(a, b)
  {
    MultiplyExactness(a, b);
    hide Value, Multiply, Exact;
    forall env ensures Mul(Value(a, env), Value(b, env)) == Value(a, env) * Value(b, env) {}
  }

  lemma ComputesProductOfForms(l: Expression, r: Expression, params: Params, locals: seq<Local>, env: Env, a: Form, b: Form)
    requires StraightLine(locals)
    requires AllExact(l, params, locals, |locals|) && AllExact(r, params, locals, |locals|)
    requires Reduce(l, params, locals, |locals|) == Ok(a) && Reduce(r, params, locals, |locals|) == Ok(b)
    ensures Computes(Binary(Times, l, r), params, locals, env) == Some(Mul(Value(a, env), Value(b, env)))
  {
    hide Value, Computes, Mul;
    ComputesForm(l, params, locals, env);
    ComputesForm(r, params, locals, env);
    ComputesProduct(l, r, params, locals, env);
  }

  /** A product whose two sides are exact is right for every input exactly when it loses no term itself. */
  lemma ProductExactness(l: Expression, r: Expression, params: Params, locals: seq<Local>)
    requires StraightLine(locals)
    requires AllExact(l, params, locals, |locals|) && AllExact(r, params, locals, |locals|)
    requires Reduce(Binary(Times, l, r), params, locals, |locals|).Ok?
    ensures var e := Binary(Times, l, r);
            (forall env :: Computes(e, params, locals, env) == Some(Value(Reduce(e, params, locals, |locals|).value, env)))
            <==> AllExact(e, params, locals, |locals|)
  {
    var n := |locals|;
    var e := Binary(Times, l, r);
    var a, b := Reduce(l, params, locals, n).value, Reduce(r, params, locals, n).value;
    MulExactness(a, b);
    hide Value, Multiply, Exact, Computes, Mul;
    forall env ensures Computes(e, params, locals, env) == Some(Mul(Value(a, env), Value(b, env))) {
      ComputesProductOfForms(l, r, params, locals, env, a, b);
    }
    if forall env :: Computes(e, params, locals, env) == Some(Value(Multiply(a, b).value, env)) {
      forall env ensures Value(Multiply(a, b).value, env) == Mul(Value(a, env), Value(b, env)) {
        assert Computes(e, params, locals, env) == Some(Value(Multiply(a, b).value, env));
      }
    }
  }

  /** The form the expression gets, if any, is worth what Lua computes, for every level, skill and attack. */
  ghost predicate Faithful(e: Expression, params: Params, locals: seq<Local>, bound: nat)
    requires StraightLine(locals) && Before(e, locals, bound) && bound <= |locals|
  {
    var form := Reduce(e, params, locals, bound);
    form.Ok? ==> forall env :: Eval(e, Scope(params, locals, bound, env), env) == Some(Value(form.value, env))
  }

  /** Every part of the expression, locals unfolded, is faithful. */
  ghost predicate AllFaithful(e: Expression, params: Params, locals: seq<Local>, bound: nat)
    requires StraightLine(locals) && Before(e, locals, bound) && bound <= |locals|
    decreases bound, e
  {
    && Faithful(e, params, locals, bound)
    && match e
       case Identifier(name) =>
         var local := Find(locals, name);
         local.Some? ==> AllFaithful(locals[local.value].init, params, locals, local.value)
       case Unary(_, a) => AllFaithful(a, params, locals, bound)
       case Binary(_, l, r) => AllFaithful(l, params, locals, bound) && AllFaithful(r, params, locals, bound)
       case _ => true
  }

  lemma ExactIsFaithful(e: Expression, params: Params, locals: seq<Local>, bound: nat)
    requires StraightLine(locals) && Before(e, locals, bound) && bound <= |locals|
    requires AllExact(e, params, locals, bound)
    ensures Faithful(e, params, locals, bound)
  {
    hide Value, Eval, Scope, AllExact, Reduce;
    var form := Reduce(e, params, locals, bound);
    if form.Ok? {
      forall env ensures Eval(e, Scope(params, locals, bound, env), env) == Some(Value(form.value, env)) {
        ReduceIsSound(e, params, locals, bound, bound, env);
      }
    }
  }

  lemma EvalProduct(l: Expression, r: Expression, scope: map<string, Option<real>>, env: Env, x: real, y: real)
    requires Eval(l, scope, env) == Some(x) && Eval(r, scope, env) == Some(y)
    ensures Eval(Binary(Times, l, r), scope, env) == Some(Mul(x, y))
  {
    hide Mul;
  }

  lemma ReduceProduct(l: Expression, r: Expression, params: Params, locals: seq<Local>, bound: nat, a: Form, b: Form)
    requires StraightLine(locals) && Before(Binary(Times, l, r), locals, bound)
    requires Before(l, locals, bound) && Before(r, locals, bound)
    requires Reduce(l, params, locals, bound) == Ok(a) && Reduce(r, params, locals, bound) == Ok(b)
    ensures Reduce(Binary(Times, l, r), params, locals, bound) == Multiply(a, b)
  {
    hide Multiply;
  }

  /** Where a product and both its sides are faithful, it loses no term. */
  lemma FaithfulProductIsExact(l: Expression, r: Expression, params: Params, locals: seq<Local>, bound: nat, a: Form, b: Form)
    requires StraightLine(locals) && bound <= |locals| && Before(Binary(Times, l, r), locals, bound)
    requires Before(l, locals, bound) && Before(r, locals, bound)
    requires Reduce(l, params, locals, bound) == Ok(a) && Reduce(r, params, locals, bound) == Ok(b)
    requires Faithful(l, params, locals, bound) && Faithful(r, params, locals, bound)
    requires Faithful(Binary(Times, l, r), params, locals, bound) && Multiply(a, b).Ok?
    ensures Exact(a, b)
  {
    var e := Binary(Times, l, r);
    MulExactness(a, b);
    ReduceProduct(l, r, params, locals, bound, a, b);
    hide Value, Multiply, Exact, Mul, Eval, Scope, Reduce;
    forall env ensures Value(Multiply(a, b).value, env) == Mul(Value(a, env), Value(b, env)) {
      var scope := Scope(params, locals, bound, env);
      assert Eval(l, scope, env) == Some(Value(a, env)) && Eval(r, scope, env) == Some(Value(b, env));
      EvalProduct(l, r, scope, env, Value(a, env), Value(b, env));
      assert Eval(e, scope, env) == Some(Value(Multiply(a, b).value, env));
    }
  }

  /** The parts are faithful for every input exactly when no product of the expression loses a term. */
  lemma {:induction false} ExactIffFaithful(e: Expression, params: Params, locals: seq<Local>, bound: nat)
    requires StraightLine(locals) && Before(e, locals, bound) && bound <= |locals|
    ensures AllExact(e, params, locals, bound) <==> AllFaithful(e, params, locals, bound)
    decreases bound, e
  {
    hide Faithful, Combine, Exact, Multiply;
    if AllExact(e, params, locals, bound) { ExactIsFaithful(e, params, locals, bound); }
    match e
    case Identifier(name) =>
      assert name in Names(e);
      var local := Find(locals, name);
      if local.Some? { ExactIffFaithful(locals[local.value].init, params, locals, local.value); }
    case Unary(_, a) =>
      assert Names(e) == Names(a);
      ExactIffFaithful(a, params, locals, bound);
    case Binary(op, l, r) =>
      assert Names(e) == Names(l) + Names(r);
      ExactIffFaithful(l, params, locals, bound);
      ExactIffFaithful(r, params, locals, bound);
      var a, b := Reduce(l, params, locals, bound), Reduce(r, params, locals, bound);
      if AllFaithful(e, params, locals, bound) && a.Ok? && b.Ok? && op == Times && Multiply(a.value, b.value).Ok? {
        FaithfulProductIsExact(l, r, params, locals, bound, a.value, b.value);
      }
    case _ =>
  }

  const PARAMS: Params := map["skill" := Skill, "attack" := Attack]
  const SKILL_NAME := Identifier("skill")
  const ATTACK_NAME := Identifier("attack")

  lemma ReduceBinary(op: Operator, l: Expression, r: Expression, a: Form, b: Form)
    requires Before(l, [], 0) && Before(r, [], 0) && Reduce(l, PARAMS, [], 0) == Ok(a) && Reduce(r, PARAMS, [], 0) == Ok(b)
    ensures Before(Binary(op, l, r), [], 0) && Reduce(Binary(op, l, r), PARAMS, [], 0) == Combine(op, a, b)
  {
    hide Combine;
  }

  lemma EvalBinary(op: Operator, l: Expression, r: Expression, x: real, y: real)
    requires Computes(l, PARAMS, [], ONE) == Some(x) && Computes(r, PARAMS, [], ONE) == Some(y)
    ensures Computes(Binary(op, l, r), PARAMS, [], ONE) == Operate(op, x, y)
  {
    hide Operate;
  }

  lemma AtomNames()
    ensures Reduce(SKILL_NAME, PARAMS, [], 0) == Ok(Single(Skill)) && Reduce(ATTACK_NAME, PARAMS, [], 0) == Ok(Single(Attack))
    ensures Computes(SKILL_NAME, PARAMS, [], ONE) == Some(1.0) && Computes(ATTACK_NAME, PARAMS, [], ONE) == Some(1.0)
  {}

  /** 2·skill + 3·skill·attack */
  const SUM := Binary(Plus, Binary(Times, Number(2.0), SKILL_NAME),
                      Binary(Times, Number(3.0), Binary(Times, SKILL_NAME, ATTACK_NAME)))

  lemma SumForm()
    ensures Before(SUM, [], 0) && Reduce(SUM, PARAMS, [], 0) == Ok(ZERO.(skill := 2.0, skillAttack := 3.0))
  {
    AtomNames();
    var product := Binary(Times, SKILL_NAME, ATTACK_NAME);
    ReduceBinary(Times, SKILL_NAME, ATTACK_NAME, Single(Skill), Single(Attack));
    ReduceBinary(Times, Number(3.0), product, ZERO.(constant := 3.0), ZERO.(skillAttack := 1.0));
    ReduceBinary(Times, Number(2.0), SKILL_NAME, ZERO.(constant := 2.0), Single(Skill));
    ReduceBinary(Plus, Binary(Times, Number(2.0), SKILL_NAME), Binary(Times, Number(3.0), product),
                 ZERO.(skill := 2.0), ZERO.(skillAttack := 3.0));
  }

  lemma SumValue()
    ensures Computes(SUM, PARAMS, [], ONE) == Some(5.0)
  {
    AtomNames();
    var product := Binary(Times, SKILL_NAME, ATTACK_NAME);
    EvalBinary(Times, SKILL_NAME, ATTACK_NAME, 1.0, 1.0);
    EvalBinary(Times, Number(3.0), product, 3.0, 1.0);
    EvalBinary(Times, Number(2.0), SKILL_NAME, 2.0, 1.0);
    EvalBinary(Plus, Binary(Times, Number(2.0), SKILL_NAME), Binary(Times, Number(3.0), product), 2.0, 3.0);
  }

  lemma LossyProduct()
    ensures Multiply(ZERO.(skill := 2.0, skillAttack := 3.0), Single(Attack)) == Ok(ZERO.(skillAttack := 2.0))
  {
    assert Skill in {Skill, Attack};
  }

  /** (2·skill + 3·skill·attack)·attack is accepted as 2·skill·attack: at skill and attack one, Lua computes 5 and the form 2. */
  lemma LostTermIsAccepted()
    ensures var e := Binary(Times, SUM, ATTACK_NAME);
            && Before(e, [], 0) && Reduce(e, PARAMS, [], 0) == Ok(ZERO.(skillAttack := 2.0))
            && Computes(e, PARAMS, [], ONE) == Some(5.0) && Value(ZERO.(skillAttack := 2.0), ONE) == 2.0
  {
    hide Computes, Multiply;
    AtomNames();
    SumForm();
    SumValue();
    ProductValues(2.0);
    LossyProduct();
    ReduceBinary(Times, SUM, ATTACK_NAME, ZERO.(skill := 2.0, skillAttack := 3.0), Single(Attack));
    EvalBinary(Times, SUM, ATTACK_NAME, 5.0, 1.0);
  }

  // ---------------------------------------------------------------- unfolding without a straight line

  /** The reader's unfolding of names in any body, cut off after `depth` locals one inside the other. */
  function Unfold(e: Expression, params: Params, locals: seq<Local>, depth: nat): Option<Result<Form, Error>>
    decreases depth, e
  {
    match e
    case Identifier(name) =>
      var local := Find(locals, name);
      if local.None? then Some(if name in params then Ok(Single(params[name])) else Err(UnknownIdentifier(name)))
      else if depth == 0 then None
      else Unfold(locals[local.value].init, params, locals, depth - 1)
    case Unary(op, a) =>
      if op != Minus then Some(Err(UnsupportedOperator(op)))
      else (match Unfold(a, params, locals, depth)
            case None => None
            case Some(r) => Some(match r case Err(x) => Err(x) case Ok(f) => Ok(Negate(f))))
    case Binary(op, l, r) =>
      (match Unfold(l, params, locals, depth)
       case None => None
       case Some(Err(x)) => Some(Err(x))
       case Some(Ok(a)) =>
         match Unfold(r, params, locals, depth)
         case None => None
         case Some(Err(x)) => Some(Err(x))
         case Some(Ok(b)) => Some(Combine(op, a, b)))
    case MethodCall(receiver, indexer, name) =>
      var atom := PlayerAtom(receiver, indexer, name);
      Some(if atom.None? then Err(UnsupportedCall) else Ok(Single(atom.value)))
    case Other(kind) => Some(Err(UnsupportedExpression(kind)))
    case Number(v) => Some(Ok(ZERO.(constant := v)))
  }

  /** In a straight-line body the unfolding ends, and gives the form. */
  lemma {:induction false} UnfoldIsReduce(e: Expression, params: Params, locals: seq<Local>, bound: nat, depth: nat)
    requires StraightLine(locals) && Before(e, locals, bound) && bound <= depth
    ensures Unfold(e, params, locals, depth) == Some(Reduce(e, params, locals, bound))
    decreases bound, e
  {
    hide Combine, Negate;
    match e
    case Identifier(name) =>
      assert name in Names(e);
      var local := Find(locals, name);
      if local.Some? { UnfoldIsReduce(locals[local.value].init, params, locals, local.value, depth - 1); }
    case Unary(_, a) =>
      assert Names(e) == Names(a);
      UnfoldIsReduce(a, params, locals, bound, depth);
    case Binary(_, l, r) =>
      assert Names(e) == Names(l) + Names(r);
      UnfoldIsReduce(l, params, locals, bound, depth);
      UnfoldIsReduce(r, params, locals, bound, depth);
    case _ =>
  }

  const NAME_A := Identifier("a")
  const NAME_B := Identifier("b")

  /** `local a = 1; local b = a; local a = 2` */
  const REBOUND := [Local("a", Number(1.0)), Local("b", NAME_A), Local("a", Number(2.0))]

  lemma ReboundNames()
    ensures Find(REBOUND, "a") == Some(2) && Find(REBOUND, "b") == Some(1)
  {
    assert REBOUND[..2] == [REBOUND[0], REBOUND[1]] && REBOUND[2].name == "a" && REBOUND[..2][1].name == "b";
  }

  /** A name used before it is bound again unfolds to the later binding: here `b` becomes 2 where Lua computes 1. */
  lemma EarlyUseIsMisread(env: Env, depth: nat)
    requires depth >= 2
    ensures Unfold(NAME_B, map[], REBOUND, depth) == Some(Ok(ZERO.(constant := 2.0)))
    ensures Computes(NAME_B, map[], REBOUND, env) == Some(1.0) && !StraightLine(REBOUND)
  {
    ReboundNames();
    assert Unfold(NAME_A, map[], REBOUND, depth - 1) == Some(Ok(ZERO.(constant := 2.0)));
    ReboundScope(env);
    assert NAME_A.name in Names(REBOUND[1].init) && !Before(REBOUND[1].init, REBOUND, 1);
  }

  lemma ReboundScope(env: Env)
    ensures var scope := Scope(map[], REBOUND, 3, env); "b" in scope && scope["b"] == Some(1.0)
  {
    var s1 := Scope(map[], REBOUND, 1, env);
    assert s1["a"] == Some(1.0);
    var s2 := Scope(map[], REBOUND, 2, env);
    assert s2 == s1["b" := Some(1.0)];
    assert Scope(map[], REBOUND, 3, env) == s2["a" := Some(2.0)];
  }

  /** Two locals that mention each other are unfolded without end. */
  lemma {:induction false} CycleNeverEnds(depth: nat)
    ensures var locals := [Local("a", NAME_B), Local("b", NAME_A)];
      Unfold(NAME_A, map[], locals, depth) == None && Unfold(NAME_B, map[], locals, depth) == None
  {
    var locals := [Local("a", NAME_B), Local("b", NAME_A)];
    assert locals[1].name == "b" && locals[..1] == [locals[0]];
    assert Find(locals, "a") == Some(0) && Find(locals, "b") == Some(1);
    if depth > 0 { CycleNeverEnds(depth - 1); }
  }

  // ---------------------------------------------------------------- recognising a function

  datatype Shape = MagicShape | SkillAttackShape

  /** `onGetFormulaValues` as parsed: parameter names, local statements, and the first `return`. */
  datatype Declaration = Declaration(params: seq<string>, locals: seq<Local>, returned: Option<seq<Expression>>)

  datatype Recognition =
    | NoFormula | UnknownSignature | NoReturn | WrongReturn(count: nat) | Unreadable(error: Error)
    | Recognized(shape: Shape, min: Form, max: Form)

  function Lower(c: char): char {
    if 'A' <= c <= 'Z' then (c as int + 32) as char else c
  }

  predicate MentionsMag(name: string) {
    exists i :: 0 <= i < |name| - 2 && Lower(name[i]) == 'm' && Lower(name[i + 1]) == 'a' && Lower(name[i + 2]) == 'g'
  }

  function FirstMag(names: seq<string>): Option<nat> {
    if names == [] then None
    else if MentionsMag(names[0]) then Some(0)
    else match FirstMag(names[1..]) case None => None case Some(i) => Some(i + 1)
  }

  /** Which parameter is which atom; the first one is always the player. */
  function ParamMapOf(names: seq<string>): Option<(Shape, Params)> {
    var rest := if names == [] then [] else names[1..];
    if |rest| == 2 && rest[0] == "level" && rest[1] == "maglevel" then
      Some((MagicShape, map[rest[0] := Level, rest[1] := Skill]))
    else if 2 <= |rest| <= 3 && rest[0] == "skill" && rest[1] == "attack" then
      Some((SkillAttackShape, map[rest[0] := Skill, rest[1] := Attack]))
    else
      match FirstMag(rest)
      case None => None
      case Some(i) =>
        if |rest| == 2 && i < 2 then Some((MagicShape, map[rest[0] := Level][rest[i] := Skill])) else None
  }

  /** The sign convention of damage: the reference coefficient of the first range end decides for both. */
  function Reference(min: Form): real {
    if min.level != 0.0 then min.level
    else if min.skill != 0.0 then min.skill
    else if min.attack != 0.0 then min.attack
    else min.skillAttack
  }

  function NormalizeSign(min: Form, max: Form): (Form, Form) {
    if Reference(min) < 0.0 then (Negate(min), Negate(max)) else (min, max)
  }

  ghost predicate Readable(d: Declaration) { StraightLine(d.locals) }

  function Recognize(declaration: Option<Declaration>): Recognition
    requires declaration.Some? ==> Readable(declaration.value)
  {
    match declaration
    case None => NoFormula
    case Some(d) =>
      match ParamMapOf(d.params)
      case None => UnknownSignature
      case Some(known) =>
        if d.returned.None? then NoReturn
        else if |d.returned.value| != 2 then WrongReturn(|d.returned.value|)
        else
          var min := Reduce(d.returned.value[0], known.1, d.locals, |d.locals|);
          if min.Err? then Unreadable(min.error)
          else
            var max := Reduce(d.returned.value[1], known.1, d.locals, |d.locals|);
            if max.Err? then Unreadable(max.error)
            else
              var pair := NormalizeSign(min.value, max.value);
              Recognized(known.0, pair.0, pair.1)
  }

  // ---------------------------------------------------------------- rounding to content

  const BILLION := 1000000000.0
  const HALF_UNIT := 0.0000000005

  /** Nine decimals, halves upwards. */
  function Round(v: real): real {
    (v * BILLION + 0.5).Floor as real / BILLION
  }

  function PairOf(a: real, b: real): (Option<real>, Option<real>) {
    if a != 0.0 || b != 0.0 then (Some(a), Some(b)) else (None, None)
  }

  function ToSpellFormula(shape: Shape, min: Form, max: Form): Result<SpellFormula, Error> {
    if Round(min.level) != Round(max.level) then Err(LevelFactorsDiffer)
    else
      var attack := PairOf(Round(min.attack), Round(max.attack));
      var skillAttack := PairOf(Round(min.skillAttack), Round(max.skillAttack));
      Ok(SpellFormula(Round(min.level), Round(min.skill), Round(max.skill), Round(min.constant), Round(max.constant),
                      attack.0, attack.1, skillAttack.0, skillAttack.1, if shape == MagicShape then Some(Magic) else None))
  }

  function AbsR(v: real): real { if v < 0.0 then -v else v }

  lemma RoundIsNear(v: real)
    ensures AbsR(Round(v) - v) <= HALF_UNIT
  {
    var n := (v * BILLION + 0.5).Floor as real;
    assert n <= v * BILLION + 0.5 < n + 1.0;
    assert n / BILLION * BILLION == n;
  }

  lemma TermIsNear(x: real, rounded: real, exact: real)
    requires x >= 0.0 && AbsR(rounded - exact) <= HALF_UNIT
    ensures AbsR(x * rounded - exact * x) <= HALF_UNIT * x
  {
    var d := rounded - exact;
    assert x * rounded - exact * x == d * x;
    Product(HALF_UNIT - d, x);
    Product(HALF_UNIT + d, x);
    assert (HALF_UNIT - d) * x == HALF_UNIT * x - d * x;
    assert (HALF_UNIT + d) * x == HALF_UNIT * x + d * x;
  }

  /** A non-negative input times a rounded coefficient is off by at most half a unit of the input. */
  lemma RoundedTerm(x: real, c: real) returns (rounded: real, exact: real, bound: real)
    requires x >= 0.0
    ensures rounded == x * Round(c) && exact == c * x && bound == HALF_UNIT * x
    ensures AbsR(rounded - exact) <= bound
  {
    RoundIsNear(c);
    TermIsNear(x, Round(c), c);
    rounded, exact, bound := x * Round(c), c * x, HALF_UNIT * x;
  }

  function Weight(env: Env): real { 1.0 + env.level + env.skill + env.attack + env.skill * env.attack }

  lemma FiveNear(a: real, b: real, c: real, d: real, e: real, a1: real, b1: real, c1: real, d1: real, e1: real,
                 p: real, q: real, r: real, s: real, u: real)
    requires AbsR(a - a1) <= p && AbsR(b - b1) <= q && AbsR(c - c1) <= r && AbsR(d - d1) <= s && AbsR(e - e1) <= u
    ensures AbsR((a + b + c + d + e) - (e1 + a1 + b1 + c1 + d1)) <= p + q + r + s + u
  {}

  lemma WeightSplits(env: Env)
    ensures HALF_UNIT * env.level + HALF_UNIT * env.skill + HALF_UNIT * env.attack
              + HALF_UNIT * (env.skill * env.attack) + HALF_UNIT
         == HALF_UNIT * Weight(env)
  {}

  /** The value with every coefficient rounded. */
  function RoundedValue(f: Form, env: Env): real {
    env.level * Round(f.level) + env.skill * Round(f.skill) + env.attack * Round(f.attack)
      + (env.skill * env.attack) * Round(f.skillAttack) + Round(f.constant)
  }

  /** Coefficients rounded one by one move the value by at most half a unit of each input. */
  lemma RoundedValueIsNear(f: Form, env: Env)
    requires env.level >= 0.0 && env.skill >= 0.0 && env.attack >= 0.0
    ensures AbsR(RoundedValue(f, env) - Value(f, env)) <= HALF_UNIT * Weight(env)
  {
    hide Round, Weight;
    RoundIsNear(f.constant);
    Product(env.skill, env.attack);
    WeightSplits(env);
    var a, a1, p := RoundedTerm(env.level, f.level);
    var b, b1, q := RoundedTerm(env.skill, f.skill);
    var c, c1, r := RoundedTerm(env.attack, f.attack);
    var d, d1, s := RoundedTerm(env.skill * env.attack, f.skillAttack);
    var e := Round(f.constant);
    Assembled(f, env, a, b, c, d, e, a1, b1, c1, d1);
    hide RoundedValue, Value;
    FiveNear(a, b, c, d, e, a1, b1, c1, d1, f.constant, p, q, r, s, HALF_UNIT);
    assert AbsR(RoundedValue(f, env) - Value(f, env)) <= p + q + r + s + HALF_UNIT;
    assert p + q + r + s + HALF_UNIT == HALF_UNIT * Weight(env);
  }

  lemma Assembled(f: Form, env: Env, a: real, b: real, c: real, d: real, e: real, a1: real, b1: real, c1: real, d1: real)
    requires a == env.level * Round(f.level) && b == env.skill * Round(f.skill) && c == env.attack * Round(f.attack)
    requires d == (env.skill * env.attack) * Round(f.skillAttack) && e == Round(f.constant)
    requires a1 == f.level * env.level && b1 == f.skill * env.skill && c1 == f.attack * env.attack
    requires d1 == f.skillAttack * (env.skill * env.attack)
    ensures RoundedValue(f, env) == a + b + c + d + e && Value(f, env) == f.constant + a1 + b1 + c1 + d1
  {
    hide Round;
  }

  lemma ContentIsRounded(shape: Shape, min: Form, max: Form, env: Env)
    requires ToSpellFormula(shape, min, max).Ok?
    ensures var f := ToSpellFormula(shape, min, max).value;
            && RawMin(f, env.level, env.skill, env.attack) == RoundedValue(min, env)
            && RawMax(f, env.level, env.skill, env.attack) == RoundedValue(max, env)
  {
    hide Round;
  }

  lemma ContentIsNear(shape: Shape, min: Form, max: Form, env: Env)
    requires ToSpellFormula(shape, min, max).Ok? && env.level >= 0.0 && env.skill >= 0.0 && env.attack >= 0.0
    ensures var f := ToSpellFormula(shape, min, max).value;
            && AbsR(RawMin(f, env.level, env.skill, env.attack) - Value(min, env)) <= HALF_UNIT * Weight(env)
            && AbsR(RawMax(f, env.level, env.skill, env.attack) - Value(max, env)) <= HALF_UNIT * Weight(env)
  {
    RoundedValueIsNear(min, env);
    RoundedValueIsNear(max, env);
    ContentIsRounded(shape, min, max, env);
    hide Value, Weight, RoundedValue, RawMin, RawMax, ToSpellFormula, AbsR;
  }

  function Signed(sign: real, v: real): real { sign * v }

  /** 1, or -1 when the range is written with the sign of damage dealt. */
  function Sign(min: Form): real { if Reference(min) < 0.0 then -1.0 else 1.0 }

  lemma NormalizedValue(min: Form, max: Form, env: Env)
    ensures var n := NormalizeSign(min, max);
            Value(n.0, env) == Signed(Sign(min), Value(min, env)) && Value(n.1, env) == Signed(Sign(min), Value(max, env))
  {
    NegateIsMinus(min, env);
    NegateIsMinus(max, env);
    hide Value;
  }

  /** From Lua to the game: each end before truncation is the signed Lua value, up to half a unit of every input. */
  lemma EndToEnd(d: Declaration, lo: Expression, hi: Expression, params: Params, shape: Shape, min: Form, max: Form,
                 f: SpellFormula, env: Env)
    requires Readable(d) && d.returned == Some([lo, hi]) && ParamMapOf(d.params) == Some((shape, params))
    requires Recognize(Some(d)) == Recognized(shape, min, max) && ToSpellFormula(shape, min, max) == Ok(f)
    requires AllExact(lo, params, d.locals, |d.locals|) && AllExact(hi, params, d.locals, |d.locals|)
    requires env.level >= 0.0 && env.skill >= 0.0 && env.attack >= 0.0
    ensures Reduce(lo, params, d.locals, |d.locals|).Ok?
    ensures Near(RawMin(f, env.level, env.skill, env.attack), Sign(Reduce(lo, params, d.locals, |d.locals|).value),
                 Computes(lo, params, d.locals, env), env)
    ensures Near(RawMax(f, env.level, env.skill, env.attack), Sign(Reduce(lo, params, d.locals, |d.locals|).value),
                 Computes(hi, params, d.locals, env), env)
  {
    hide ParamMapOf, Recognize, Readable, ToSpellFormula, Near, NormalizeSign, Sign;
    RecognizedForms(d, lo, hi, params, shape, min, max);
    SignedEnds(lo, hi, params, d.locals, shape, min, max, f, env);
  }

  lemma SignedEnds(lo: Expression, hi: Expression, params: Params, locals: seq<Local>, shape: Shape, min: Form,
                   max: Form, f: SpellFormula, env: Env)
    requires StraightLine(locals)
    requires AllExact(lo, params, locals, |locals|) && AllExact(hi, params, locals, |locals|)
    requires env.level >= 0.0 && env.skill >= 0.0 && env.attack >= 0.0
    requires Reduce(lo, params, locals, |locals|).Ok? && Reduce(hi, params, locals, |locals|).Ok?
    requires (min, max) == NormalizeSign(Reduce(lo, params, locals, |locals|).value, Reduce(hi, params, locals, |locals|).value)
    requires ToSpellFormula(shape, min, max) == Ok(f)
    ensures Near(RawMin(f, env.level, env.skill, env.attack), Sign(Reduce(lo, params, locals, |locals|).value),
                 Computes(lo, params, locals, env), env)
    ensures Near(RawMax(f, env.level, env.skill, env.attack), Sign(Reduce(lo, params, locals, |locals|).value),
                 Computes(hi, params, locals, env), env)
  {
    hide Value, RawMin, RawMax, Weight, ToSpellFormula, NormalizeSign, Sign, Near, AbsR, Signed, Computes;
    var a, b := Reduce(lo, params, locals, |locals|).value, Reduce(hi, params, locals, |locals|).value;
    NormalizedValue(a, b, env);
    ContentIsNear(shape, min, max, env);
    SignedEnd(lo, params, locals, Sign(a), min, RawMin(f, env.level, env.skill, env.attack), env);
    SignedEnd(hi, params, locals, Sign(a), max, RawMax(f, env.level, env.skill, env.attack), env);
  }

  lemma SignedEnd(e: Expression, params: Params, locals: seq<Local>, sign: real, normalized: Form, end: real, env: Env)
    requires StraightLine(locals)
    requires Reduce(e, params, locals, |locals|).Ok? && AllExact(e, params, locals, |locals|)
    requires Value(normalized, env) == Signed(sign, Value(Reduce(e, params, locals, |locals|).value, env))
    requires AbsR(end - Value(normalized, env)) <= HALF_UNIT * Weight(env)
    ensures Near(end, sign, Computes(e, params, locals, env), env)
  {
    hide Value, Weight, AbsR, Near, Computes, Signed;
    ComputesForm(e, params, locals, env);
    SignedValueIsNear(end, sign, Value(Reduce(e, params, locals, |locals|).value, env), Value(normalized, env), env);
  }

  lemma SignedValueIsNear(end: real, sign: real, value: real, normalized: real, env: Env)
    requires normalized == Signed(sign, value) && AbsR(end - normalized) <= HALF_UNIT * Weight(env)
    ensures Near(end, sign, Some(value), env)
  {
    hide Weight, Signed;
  }

  lemma RecognizedForms(d: Declaration, lo: Expression, hi: Expression, params: Params, shape: Shape, min: Form, max: Form)
    requires Readable(d) && d.returned == Some([lo, hi]) && ParamMapOf(d.params) == Some((shape, params))
    requires Recognize(Some(d)) == Recognized(shape, min, max)
    ensures var a, b := Reduce(lo, params, d.locals, |d.locals|), Reduce(hi, params, d.locals, |d.locals|);
            a.Ok? && b.Ok? && (min, max) == NormalizeSign(a.value, b.value)
    ensures StraightLine(d.locals)
  {
    assert d.returned.value[0] == lo && d.returned.value[1] == hi;
  }

  /** The end of the range is the signed Lua value up to half a unit of every input. */
  ghost predicate Near(end: real, sign: real, lua: Option<real>, env: Env) {
    lua.Some? && AbsR(end - Signed(sign, lua.value)) <= HALF_UNIT * Weight(env)
  }
}
