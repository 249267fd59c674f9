/**
 The expressions that MellowRT::RenderShaderJit admits, and what it emits for each: the type and constant value of a
 Metal expression, and the GLSL expression that replaces it.
 */
module ShaderImage {
  import opened Arithmetic
  import opened ShaderGrammar
  import opened ShaderValues
  import opened GlslTypes

  /** Lanes 0 is uint, 1..4 are float and float vectors. `code` is what the name becomes, `tree` what that reads as. */
  datatype Symbol = Symbol(lanes: nat, isArray: bool, vertexId: bool, code: seq<Tok>, tree: Tree)

  /** `round` is the conversion to single precision. */
  datatype Env = Env(symbols: map<string, Symbol>, vertexStage: bool, round: real -> real)

  datatype Attr = Attr(lanes: nat, constant: Option<real>)
  datatype Expr = Expr(attr: Attr, code: seq<Tok>)

  function TypeLanes(name: string): Option<nat> {
    if name == "float" then Some(1) else if name == "float2" then Some(2) else if name == "float3" then Some(3)
    else if name == "float4" then Some(4) else None
  }

  function TypeName(lanes: nat): string {
    if lanes == 0 then "uint"
    else if lanes == 1 then "float"
    else if lanes == 2 then "vec2"
    else if lanes == 3 then "vec3"
    else "vec4"
  }

  // ------------------------------------------------------------ static meaning

  function Position(c: char, family: string): nat
  {
    if family == [] then 4 else if family[0] == c then 0 else 1 + Position(c, family[1..])
  }

  /** Position by position, the letters are the components that both languages know them as. */
  lemma LetterPosition(c: char)
    ensures Position(c, "xyzw") < 4 <==> c in {'x', 'y', 'z', 'w'}
    ensures Position(c, "rgba") < 4 <==> c in {'r', 'g', 'b', 'a'}
    ensures Position(c, "xyzw") < 4 ==> Component(c) == Some(Position(c, "xyzw"))
    ensures Position(c, "rgba") < 4 ==> Component(c) == Some(Position(c, "rgba"))
  {
    assert Position(c, "xyzw") == if c == 'x' then 0 else 1 + Position(c, "yzw");
    assert Position(c, "yzw") == if c == 'y' then 0 else 1 + Position(c, "zw");
    assert Position(c, "zw") == if c == 'z' then 0 else 1 + Position(c, "w");
    assert Position(c, "w") == if c == 'w' then 0 else 5;
    assert Position(c, "rgba") == if c == 'r' then 0 else 1 + Position(c, "gba");
    assert Position(c, "gba") == if c == 'g' then 0 else 1 + Position(c, "ba");
    assert Position(c, "ba") == if c == 'b' then 0 else 1 + Position(c, "a");
    assert Position(c, "a") == if c == 'a' then 0 else 5;
  }

  predicate InFamily(fields: string, family: string, lanes: nat) {
    forall c <- fields :: Position(c, family) < lanes
  }

  predicate GoodSwizzle(fields: string, lanes: nat) {
    2 <= lanes && 0 < |fields| <= 4 && (InFamily(fields, "xyzw", lanes) || InFamily(fields, "rgba", lanes))
  }

  predicate InRange(v: real) {
    -1000000000000000000000000000000.0 <= v <= 1000000000000000000000000000000.0
  }

  /** A binary operation on two typed operands. */
  function CheckBinary(op: Op, l: Attr, r: Attr, env: Env): Option<Attr> {
    if l.lanes == 0 || r.lanes == 0 then None
    else if l.lanes != r.lanes && l.lanes != 1 && r.lanes != 1 then None
    else if op == Div && (r.constant.None? || r.lanes != 1 || r.constant.value == 0.0) then None
    else
      var lanes := if l.lanes > r.lanes then l.lanes else r.lanes;
      if l.constant.Some? && r.constant.Some? then
        match Apply(op, l.constant.value, r.constant.value)
        case None => None
        case Some(v) => if InRange(env.round(v)) then Some(Attr(lanes, Some(env.round(v)))) else None
      else Some(Attr(lanes, None))
  }

  /** A uint argument of a constructor is converted to float. */
  function ConvertAttr(a: Attr, env: Env): Attr {
    if a.lanes == 0 then Attr(1, if a.constant.Some? then Some(env.round(a.constant.value)) else None) else a
  }

  function TotalLanes(attrs: seq<Attr>): nat {
    if attrs == [] then 0 else TotalLanes(attrs[..|attrs| - 1]) + attrs[|attrs| - 1].lanes
  }

  function CheckConstructor(lanes: nat, args: seq<Attr>): Option<Attr> {
    if args == [] || |args| > 4 then None
    else if !(|args| == 1 && args[0].lanes == 1) && TotalLanes(args) != lanes then None
    else if lanes == 1 && TotalLanes(args) != 1 then None
    else Some(Attr(lanes, if lanes == 1 && |args| == 1 then args[0].constant else None))
  }

  /** The type of an expression, and its value if it is a constant scalar. */
  function Check(t: Tree, env: Env): Option<Attr>
    decreases t
  {
    match t
    case Number(f, _, v) => Some(Attr(if f then 1 else 0, Some(if f then env.round(v) else v)))
    case Var(n) =>
      if TypeLanes(n).None? && n in env.symbols && !env.symbols[n].isArray then Some(Attr(env.symbols[n].lanes, None))
        else None
    case Pos(e) =>
      var a := Check(e, env);
      if a.Some? && a.value.lanes != 0 then a else None
    case Neg(e) =>
      var a := Check(e, env);
      if a.Some? && a.value.lanes != 0
      then Some(Attr(a.value.lanes, if a.value.constant.Some? then Some(-a.value.constant.value) else None))
      else None
    case Bin(op, l, r) =>
      var a, b := Check(l, env), Check(r, env);
      if a.Some? && b.Some? then CheckBinary(op, a.value, b.value, env) else None
    case Call(n, args) =>
      var attrs := seq(|args|, i requires 0 <= i < |args| => Check(args[i], env));
      if TypeLanes(n).Some? && forall i | 0 <= i < |args| :: attrs[i].Some?
      then CheckConstructor(TypeLanes(n).value,
                            seq(|args|, i requires 0 <= i < |args| &&
                                attrs[i].Some? => ConvertAttr(attrs[i].value, env)))
      else None
    case Index(e, i) =>
      if e.Var? && i.Var? && TypeLanes(e.name).None? && e.name in env.symbols && env.symbols[e.name].isArray
         && i.name in env.symbols && env.symbols[i.name].vertexId && env.vertexStage
      then Some(Attr(env.symbols[e.name].lanes, None)) else None
    case Field(e, fields) =>
      var a := Check(e, env);
      if a.Some? && GoodSwizzle(fields, a.value.lanes) then Some(Attr(|fields|, None)) else None
  }

  // ------------------------------------------------------------ what is emitted

  /** The target tree of a source tree: names replaced, unary plus dropped, conversions made explicit. */
  function Image(t: Tree, env: Env): Tree
    decreases t
  {
    match t
    case Number(_, _, _) => t
    case Var(n) => if n in env.symbols then env.symbols[n].tree else t
    case Pos(e) => Image(e, env)
    case Neg(e) => Neg(Image(e, env))
    case Bin(op, l, r) => Bin(op, Image(l, env), Image(r, env))
    case Call(n, args) =>
      Call(if TypeLanes(n).Some? then TypeName(TypeLanes(n).value) else n,
           seq(|args|, i requires 0 <= i < |args| => Converted(Image(args[i], env), Check(args[i], env))))
    case Index(e, i) =>
      if e.Var? && i.Var? && e.name in env.symbols && i.name in env.symbols
      then Index(env.symbols[e.name].tree, Call("int", [env.symbols[i.name].tree])) else t
    case Field(e, fields) => Field(Image(e, env), fields)
  }

  function Converted(t: Tree, a: Option<Attr>): Tree {
    if a.Some? && a.value.lanes == 0 then Call("float", [t]) else t
  }

  /** A symbol's code stands as an operand and can take a subscript. */
  ghost predicate SymbolOk(s: Symbol) {
    && s.lanes <= 4 && Reads(s.code, s.tree)
    && forall rest :: ReadAtom(s.code + [LBracket] + rest) == Got(s.tree, [LBracket] + rest)
  }

  ghost predicate EnvOk(env: Env) {
    forall n <- env.symbols.Keys :: SymbolOk(env.symbols[n])
  }

  /** The emitted expression has the source's type, and its code reads as the source's image. */
  ghost predicate Faithful(e: Expr, t: Tree, env: Env) {
    Check(t, env) == Some(e.attr) && Reads(e.code, Image(t, env))
  }

  function CallImages(env: Env, trees: seq<Tree>): seq<Tree> {
    seq(|trees|, i requires 0 <= i < |trees| => Converted(Image(trees[i], env), Check(trees[i], env)))
  }

  lemma CallImage(env: Env, id: string, trees: seq<Tree>)
    requires TypeLanes(id).Some?
    ensures Image(Call(id, trees), env) == Call(TypeName(TypeLanes(id).value), CallImages(env, trees))
  {
    hide Converted;
  }

  lemma CallChecks(env: Env, id: string, trees: seq<Tree>, attrs: seq<Attr>)
    requires TypeLanes(id).Some? && |attrs| == |trees|
    requires forall i | 0 <= i < |trees| ::
              Check(trees[i], env).Some? && attrs[i] == ConvertAttr(Check(trees[i], env).value, env)
    ensures Check(Call(id, trees), env) == CheckConstructor(TypeLanes(id).value, attrs)
  {
    hide CheckConstructor, ConvertAttr, TypeLanes;
    var args := trees;
    var found := seq(|args|, i requires 0 <= i < |args| => Check(args[i], env));
    var converted := seq(|args|, i requires 0 <= i < |args| && found[i].Some? => ConvertAttr(found[i].value, env));
    assert converted == attrs;
  }

  lemma UntypedCall(n: string, trees: seq<Tree>, env: Env)
    requires |trees| > 4 || exists i | 0 <= i < |trees| :: Check(trees[i], env).None?
    ensures Check(Call(n, trees), env).None?
  {
    hide TypeLanes, ConvertAttr;
    var attrs := seq(|trees|, i requires 0 <= i < |trees| => Check(trees[i], env));
    if i :| 0 <= i < |trees| && Check(trees[i], env).None? { assert attrs[i].None?; }
  }

  lemma CallParts(n: string, args: seq<Tree>, env: Env)
    requires Check(Call(n, args), env).Some?
    ensures TypeLanes(n).Some? && forall i | 0 <= i < |args| :: Check(args[i], env).Some?
  {
    hide TypeLanes;
    if exists i | 0 <= i < |args| :: Check(args[i], env).None? { UntypedCall(n, args, env); }
  }
}
