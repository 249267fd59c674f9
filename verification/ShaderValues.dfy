/**
 What shader expressions mean in the two shading languages: componentwise arithmetic, building vectors and picking
 components. The languages differ in the names of their constructors. Floats are reals: rounding is not part of the
 meaning.
 */
module ShaderValues {
  import opened Arithmetic
  import opened ShaderGrammar

  /** An integer, a float or float vector, or an array of those. */
  datatype Value = Whole(n: int) | Floats(v: seq<real>) | Elements(es: seq<seq<real>>)

  function Apply(op: Op, a: real, b: real): Option<real> {
    match op
    case Add => Some(a + b)
    case Sub => Some(a - b)
    case Mul => Some(a * b)
    case Div => if b == 0.0 then None else Some(a / b)
  }

  function Componentwise(op: Op, a: seq<real>, b: seq<real>): (r: Option<seq<real>>)
    requires |a| == |b|
    ensures r.Some? ==> |r.value| == |a|
  {
    if a == [] then Some([])
    else
      var first, rest := Apply(op, a[0], b[0]), Componentwise(op, a[1..], b[1..]);
      if first.Some? && rest.Some? then Some([first.value] + rest.value) else None
  }

  /** A scalar stands for a vector of any width. */
  function Spread(v: seq<real>, width: nat): seq<real>
    requires |v| == width || |v| == 1
  {
    if |v| == width then v else Repeat(v[0], width)
  }

  function Repeat(x: real, width: nat): seq<real> {
    seq(width, _ => x)
  }

  function Calculate(op: Op, a: Value, b: Value): (r: Option<Value>)
    ensures r.Some? ==> a.Floats? && b.Floats? && r.value.Floats? && |r.value.v| == Wider(|a.v|, |b.v|)
  {
    if !a.Floats? || !b.Floats? || !(|a.v| == |b.v| || |a.v| == 1 || |b.v| == 1) then None
    else
      var width := Wider(|a.v|, |b.v|);
      if |a.v| == 0 || |b.v| == 0 then None
      else match Componentwise(op, Spread(a.v, width), Spread(b.v, width))
        case None => None
        case Some(v) => Some(Floats(v))
  }

  function Wider(a: nat, b: nat): nat {
    if a > b then a else b
  }

  function Negated(a: Value): Option<Value> {
    if a.Floats? then Some(Floats(seq(|a.v|, i requires 0 <= i < |a.v| => -a.v[i]))) else None
  }

  /** The components a value gives to a vector. */
  function Parts(a: Value): Option<seq<real>> {
    match a
    case Whole(n) => Some([n as real])
    case Floats(v) => Some(v)
    case Elements(_) => None
  }

  /** All components of the arguments, in order. */
  function AllParts(vs: seq<Value>): Option<seq<real>> {
    if vs == [] then Some([])
    else
      var before, last := AllParts(vs[..|vs| - 1]), Parts(vs[|vs| - 1]);
      if before.Some? && last.Some? then Some(before.value + last.value) else None
  }

  /** A vector of this width: one scalar repeated, or exactly its components. */
  function Build(width: nat, vs: seq<Value>): (r: Option<Value>)
    ensures r.Some? ==> r.value.Floats? && |r.value.v| == width
  {
    match AllParts(vs)
    case None => None
    case Some(parts) =>
      if |vs| == 1 && |parts| == 1 then Some(Floats(Repeat(parts[0], width)))
      else if |parts| == width then Some(Floats(parts))
      else None
  }

  /** The component a swizzle letter names: x y z w or r g b a. */
  function Component(c: char): Option<nat> {
    if c == 'x' || c == 'r' then Some(0)
    else if c == 'y' || c == 'g' then Some(1)
    else if c == 'z' || c == 'b' then Some(2)
    else if c == 'w' || c == 'a' then Some(3)
    else None
  }

  /** The components that the letters name, in their order. */
  function Pick(a: Value, fields: string): (r: Option<Value>)
    ensures r.Some? ==> r.value.Floats? && |r.value.v| == |fields|
  {
    if !a.Floats? || exists c <- fields :: Component(c).None? || Component(c).value >= |a.v| then None
    else Some(Floats(seq(|fields|, i requires 0 <= i < |fields| =>
                         assert fields[i] in fields; a.v[Component(fields[i]).value])))
  }

  function At(a: Value, i: Value): Option<Value> {
    if a.Elements? && i.Whole? && 0 <= i.n < |a.es| then Some(Floats(a.es[i.n])) else None
  }

  datatype Language = Metal | Glsl

  /** The width of the float type that a name stands for. */
  function FloatWidth(language: Language, name: string): Option<nat> {
    if name == "float" then Some(1)
    else match language
      case Metal =>
        if name == "float2" then Some(2) else if name == "float3" then Some(3) else if name == "float4" then Some(4)
        else None
      case Glsl =>
        if name == "vec2" then Some(2) else if name == "vec3" then Some(3) else if name == "vec4" then Some(4) else None
  }

  /** `name(...)` on these arguments. */
  function ConstructorValue(language: Language, name: string, vs: seq<Value>): Option<Value> {
    if name == "uint" || name == "int" then if |vs| == 1 && vs[0].Whole? then Some(vs[0]) else None
    else match FloatWidth(language, name)
      case None => None
      case Some(width) => Build(width, vs)
  }

  /** The value of an expression, given the values of the names in scope. */
  function ValueOf(language: Language, t: Tree, store: map<string, Value>): Option<Value>
    decreases t
  {
    match t
    case Number(f, _, v) => Some(if f then Floats([v]) else Whole(v.Floor))
    case Var(n) => if n in store then Some(store[n]) else None
    case Pos(e) => ValueOf(language, e, store)
    case Neg(e) =>
      var a := ValueOf(language, e, store);
      if a.Some? then Negated(a.value) else None
    case Bin(op, l, r) =>
      var a, b := ValueOf(language, l, store), ValueOf(language, r, store);
      if a.Some? && b.Some? then Calculate(op, a.value, b.value) else None
    case Call(n, args) =>
      if forall i | 0 <= i < |args| :: ValueOf(language, args[i], store).Some?
      then ConstructorValue(language, n, seq(|args|, i requires 0 <= i < |args| &&
                                                     ValueOf(language, args[i], store).Some? =>
                                             ValueOf(language, args[i], store).value))
      else None
    case Index(e, i) =>
      var a, b := ValueOf(language, e, store), ValueOf(language, i, store);
      if a.Some? && b.Some? then At(a.value, b.value) else None
    case Field(e, fields) =>
      var a := ValueOf(language, e, store);
      if a.Some? then Pick(a.value, fields) else None
  }

  lemma CallValue(language: Language, n: string, args: seq<Tree>, store: map<string, Value>, vs: seq<Value>)
    requires |vs| == |args| && forall i | 0 <= i < |args| :: ValueOf(language, args[i], store) == Some(vs[i])
    ensures ValueOf(language, Call(n, args), store) == ConstructorValue(language, n, vs)
  {
    hide ConstructorValue;
    var found := seq(|args|, i requires 0 <= i < |args| && ValueOf(language, args[i], store).Some? =>
                     ValueOf(language, args[i], store).value);
    assert found == vs;
  }

  lemma CallUndefined(language: Language, n: string, args: seq<Tree>, store: map<string, Value>, i: nat)
    requires i < |args| && ValueOf(language, args[i], store).None?
    ensures ValueOf(language, Call(n, args), store).None?
  {
  }

  /** Only the components of the arguments count. */
  lemma {:induction false} SameParts(vs: seq<Value>, ws: seq<Value>)
    requires |vs| == |ws| && forall i | 0 <= i < |vs| :: Parts(vs[i]) == Parts(ws[i])
    ensures AllParts(vs) == AllParts(ws)
  {
    if vs != [] { SameParts(vs[..|vs| - 1], ws[..|ws| - 1]); }
  }
}
