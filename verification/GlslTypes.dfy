/**
 The types of GLSL expressions, by the language's own names: scalars, float vectors, arrays, constructors, swizzles
 and arithmetic. Nothing here mentions the translator or the Metal source.
 */
module GlslTypes {
  import opened Arithmetic
  import opened ShaderGrammar
  import opened ShaderValues

  datatype Type = UintType | IntType | FloatType | Vec2 | Vec3 | Vec4 | ArrayType(element: Type)

  /** Number of float components; 0 for what has none. */
  function Width(t: Type): nat {
    match t
    case FloatType => 1
    case Vec2 => 2
    case Vec3 => 3
    case Vec4 => 4
    case _ => 0
  }

  predicate Scalar(t: Type) {
    t == UintType || t == IntType || t == FloatType
  }

  /** Components that an argument gives to a vector constructor. */
  function Components(ts: seq<Type>): nat {
    if ts == [] then 0
    else Components(ts[..|ts| - 1]) + if Scalar(ts[|ts| - 1]) then 1 else Width(ts[|ts| - 1])
  }

  /** A vector is built from one scalar, or from exactly as many components as it has. */
  predicate Fills(ts: seq<Type>, width: nat) {
    (|ts| == 1 && Scalar(ts[0])) || ((forall t <- ts :: !t.ArrayType?) && Components(ts) == width)
  }

  /** `name(...)` with arguments of these types. */
  function ConstructorType(name: string, ts: seq<Type>): Option<Type> {
    if name == "uint" then if |ts| == 1 && Scalar(ts[0]) then Some(UintType) else None
    else if name == "int" then if |ts| == 1 && Scalar(ts[0]) then Some(IntType) else None
    else if name == "float" then if |ts| == 1 && Scalar(ts[0]) then Some(FloatType) else None
    else if name == "vec2" then if Fills(ts, 2) then Some(Vec2) else None
    else if name == "vec3" then if Fills(ts, 3) then Some(Vec3) else None
    else if name == "vec4" then if Fills(ts, 4) then Some(Vec4) else None
    else None
  }

  /** Float operands of one width, or a scalar with a vector. */
  function ArithmeticType(a: Type, b: Type): Option<Type> {
    if Width(a) == 0 || Width(b) == 0 then None
    else if a == b || b == FloatType then Some(a)
    else if a == FloatType then Some(b)
    else None
  }

  predicate OneFamily(fields: string) {
    (forall c <- fields :: c in {'x', 'y', 'z', 'w'}) || (forall c <- fields :: c in {'r', 'g', 'b', 'a'})
  }

  function SwizzleType(fields: string, width: nat): Option<Type> {
    if width < 2 || !OneFamily(fields) || (exists c <- fields :: Component(c).None? || Component(c).value >= width)
    then None
    else if |fields| == 1 then Some(FloatType)
    else if |fields| == 2 then Some(Vec2)
    else if |fields| == 3 then Some(Vec3)
    else if |fields| == 4 then Some(Vec4)
    else None
  }

  /** The type of an expression, given the types of the names in scope. */
  function TypeOf(t: Tree, scope: map<string, Type>): Option<Type>
    decreases t
  {
    match t
    case Number(f, _, _) => Some(if f then FloatType else UintType)
    case Var(n) => if n in scope then Some(scope[n]) else None
    case Pos(e) =>
      var a := TypeOf(e, scope);
      if a.Some? && !a.value.ArrayType? then a else None
    case Neg(e) =>
      var a := TypeOf(e, scope);
      if a.Some? && !a.value.ArrayType? then a else None
    case Bin(_, l, r) =>
      var a, b := TypeOf(l, scope), TypeOf(r, scope);
      if a.Some? && b.Some? then ArithmeticType(a.value, b.value) else None
    case Call(n, args) =>
      if forall i | 0 <= i < |args| :: TypeOf(args[i], scope).Some?
      then ConstructorType(n, seq(|args|, i requires 0 <= i < |args| && TypeOf(args[i], scope).Some? =>
                                  TypeOf(args[i], scope).value))
      else None
    case Index(e, i) =>
      var a, b := TypeOf(e, scope), TypeOf(i, scope);
      if a.Some? && a.value.ArrayType? && b.Some? && b.value in {IntType, UintType} then Some(a.value.element) else None
    case Field(e, fields) =>
      var a := TypeOf(e, scope);
      if a.Some? then SwizzleType(fields, Width(a.value)) else None
  }

  lemma CallType(n: string, args: seq<Tree>, scope: map<string, Type>, ts: seq<Type>)
    requires |ts| == |args| && forall i | 0 <= i < |args| :: TypeOf(args[i], scope) == Some(ts[i])
    ensures TypeOf(Call(n, args), scope) == ConstructorType(n, ts)
  {
    hide ConstructorType;
    var found := seq(|args|, i requires 0 <= i < |args| && TypeOf(args[i], scope).Some? =>
                     TypeOf(args[i], scope).value);
    assert found == ts;
  }
}
