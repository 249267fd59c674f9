/**
 The translation is well typed and keeps its meaning: every expression that the translator admits becomes a GLSL
 expression of the type it recorded, with the value that the Metal expression has.
 */
module ShaderMeaning {
  import opened Arithmetic
  import opened ShaderGrammar
  import opened ShaderValues
  import opened GlslTypes
  import opened ShaderImage

  // ------------------------------------------------------------ types

  /** The GLSL type has this many float lanes; none is uint. */
  predicate Fits(t: Type, lanes: nat) {
    if lanes == 0 then t == UintType else Width(t) == lanes
  }

  /** The GLSL expression behind a symbol has the symbol's type. */
  ghost predicate SymbolTyped(s: Symbol, scope: map<string, Type>) {
    var t := TypeOf(s.tree, scope);
    && t.Some? && (s.vertexId ==> s.lanes == 0 && !s.isArray)
    && if s.isArray then t.value.ArrayType? && Fits(t.value.element, s.lanes) else Fits(t.value, s.lanes)
  }

  /** Every symbol is bound to an expression of its type. */
  ghost predicate EnvTyped(env: Env, scope: map<string, Type>) {
    forall n <- env.symbols.Keys :: SymbolTyped(env.symbols[n], scope)
  }

  lemma {:induction false} PartsTyped(ts: seq<Type>, attrs: seq<Attr>)
    requires |ts| == |attrs| && forall i | 0 <= i < |ts| :: 0 < attrs[i].lanes && Fits(ts[i], attrs[i].lanes)
    ensures Components(ts) == TotalLanes(attrs) >= |attrs|
  {
    if ts != [] {
      var n := |ts| - 1;
      PartsTyped(ts[..n], attrs[..n]);
    }
  }

  /** A constructor whose argument lanes were counted is a GLSL constructor of that width. */
  lemma ConstructorTyped(name: string, attrs: seq<Attr>, ts: seq<Type>)
    requires TypeLanes(name).Some? && |ts| == |attrs|
    requires forall i | 0 <= i < |ts| :: 0 < attrs[i].lanes && Fits(ts[i], attrs[i].lanes)
    requires CheckConstructor(TypeLanes(name).value, attrs).Some?
    ensures var r := ConstructorType(TypeName(TypeLanes(name).value), ts);
            r.Some? && Width(r.value) == TypeLanes(name).value > 0
  {
    hide TotalLanes, Components;
    PartsTyped(ts, attrs);
    if |ts| == 1 { OneComponent(ts); }
  }

  lemma ConstructorLanes(lanes: nat, attrs: seq<Attr>)
    requires CheckConstructor(lanes, attrs).Some?
    ensures CheckConstructor(lanes, attrs).value.lanes == lanes
  {
  }

  lemma OneComponent(ts: seq<Type>)
    requires |ts| == 1 && !ts[0].ArrayType?
    ensures Components(ts) == 1 <==> Scalar(ts[0])
  {
    assert ts[..0] == [];
  }

  /** The letters the translator admits are the ones both languages have, within the vector. */
  lemma SwizzleLetters(fields: string, lanes: nat)
    requires GoodSwizzle(fields, lanes) && lanes <= 4
    ensures OneFamily(fields) && forall c <- fields :: Component(c).Some? && Component(c).value < lanes
  {
    hide Position, Component;
    forall c | c in fields
      ensures Component(c).Some? && Component(c).value < lanes
      ensures InFamily(fields, "xyzw", lanes) ==> c in {'x', 'y', 'z', 'w'}
      ensures InFamily(fields, "rgba", lanes) ==> c in {'r', 'g', 'b', 'a'}
    {
      LetterPosition(c);
    }
  }

  /** Every admitted expression becomes a GLSL expression of the recorded type. */
  lemma {:induction false} ImageTyped(t: Tree, env: Env, scope: map<string, Type>)
    requires EnvTyped(env, scope) && Check(t, env).Some?
    ensures var r := TypeOf(Image(t, env), scope); r.Some? && Fits(r.value, Check(t, env).value.lanes)
    decreases t
  {
    hide GoodSwizzle, OneFamily, CheckConstructor, ConstructorType, CheckBinary, ArithmeticType, TypeLanes;
    match t
    case Number(_, _, _) =>
    case Var(n) => assert SymbolTyped(env.symbols[n], scope);
    case Pos(e) => ImageTyped(e, env, scope);
    case Neg(e) => ImageTyped(e, env, scope);
    case Bin(op, l, r) =>
      ImageTyped(l, env, scope);
      ImageTyped(r, env, scope);
      BinaryTyped(op, Check(l, env).value, Check(r, env).value, env, TypeOf(Image(l, env), scope).value,
                  TypeOf(Image(r, env), scope).value);
    case Call(n, args) => CallTyped(n, args, env, scope);
    case Index(e, i) =>
      assert SymbolTyped(env.symbols[e.name], scope) && SymbolTyped(env.symbols[i.name], scope);
      IndexTypes(env.symbols[i.name].tree, scope);
    case Field(e, fields) =>
      ImageTyped(e, env, scope);
      SwizzleLetters(fields, Check(e, env).value.lanes);
      SwizzleSize(fields, Check(e, env).value.lanes);
  }

  lemma BinaryTyped(op: Op, a: Attr, b: Attr, env: Env, s: Type, t: Type)
    requires CheckBinary(op, a, b, env).Some? && Fits(s, a.lanes) && Fits(t, b.lanes)
    ensures var r := ArithmeticType(s, t); r.Some? && Fits(r.value, CheckBinary(op, a, b, env).value.lanes)
  {
  }

  lemma SwizzleSize(fields: string, lanes: nat)
    requires GoodSwizzle(fields, lanes)
    ensures 2 <= lanes && 0 < |fields| <= 4
  {
  }

  lemma IndexTypes(i: Tree, scope: map<string, Type>)
    requires TypeOf(i, scope) == Some(UintType)
    ensures TypeOf(Call("int", [i]), scope) == Some(IntType)
  {
    CallType("int", [i], scope, [UintType]);
  }

  lemma FloatTypes(i: Tree, scope: map<string, Type>)
    requires TypeOf(i, scope) == Some(UintType)
    ensures TypeOf(Call("float", [i]), scope) == Some(FloatType)
  {
    CallType("float", [i], scope, [UintType]);
  }

  lemma {:induction false} CallTyped(n: string, args: seq<Tree>, env: Env, scope: map<string, Type>)
    requires EnvTyped(env, scope) && Check(Call(n, args), env).Some?
    ensures var r := TypeOf(Image(Call(n, args), env), scope);
            r.Some? && Fits(r.value, Check(Call(n, args), env).value.lanes)
    decreases Call(n, args), 0
  {
    hide TypeName, TypeLanes, CheckConstructor, ConstructorType, Image, EnvTyped;
    CallParts(n, args, env);
    var attrs := seq(|args|, i requires 0 <= i < |args| && Check(args[i], env).Some? =>
                     ConvertAttr(Check(args[i], env).value, env));
    var images := CallImages(env, args);
    forall i | 0 <= i < |args|
      ensures TypeOf(images[i], scope).Some? && 0 < attrs[i].lanes
      ensures Fits(TypeOf(images[i], scope).value, attrs[i].lanes)
    {
      ImageTyped(args[i], env, scope);
      if Check(args[i], env).value.lanes == 0 { FloatTypes(Image(args[i], env), scope); }
    }
    var ts := seq(|args|, i requires 0 <= i < |args| && TypeOf(images[i], scope).Some? =>
                  TypeOf(images[i], scope).value);
    CallChecks(env, n, args, attrs);
    ConstructorTyped(n, attrs, ts);
    ConstructorLanes(TypeLanes(n).value, attrs);
    CallImage(env, n, args);
    CallType(TypeName(TypeLanes(n).value), images, scope, ts);
  }

  // ------------------------------------------------------------ meaning

  predicate HasLanes(v: Value, lanes: nat) {
    if lanes == 0 then v.Whole? else v.Floats? && |v.v| == lanes
  }

  /** The GLSL expression behind a symbol has the value that the Metal name has. */
  ghost predicate SymbolMeans(s: Symbol, v: Value, store: map<string, Value>) {
    && ValueOf(Glsl, s.tree, store) == Some(v) && (s.vertexId ==> s.lanes == 0 && !s.isArray)
    && if s.isArray then 0 < s.lanes && v.Elements? && forall e <- v.es :: |e| == s.lanes else HasLanes(v, s.lanes)
  }

  ghost predicate EnvMeans(env: Env, input: map<string, Value>, store: map<string, Value>) {
    forall n <- env.symbols.Keys :: n in input && SymbolMeans(env.symbols[n], input[n], store)
  }

  /** What is emitted for an admitted expression has the value of the expression, for all values of its names: the
      same one, or both are undefined. */
  lemma {:induction false} ImageMeans(t: Tree, env: Env, input: map<string, Value>, store: map<string, Value>)
    requires EnvMeans(env, input, store) && Check(t, env).Some?
    ensures ValueOf(Glsl, Image(t, env), store) == ValueOf(Metal, t, input)
    ensures ValueOf(Metal, t, input).Some? ==> HasLanes(ValueOf(Metal, t, input).value, Check(t, env).value.lanes)
    decreases t, 2
  {
    hide GoodSwizzle, CheckConstructor, CheckBinary, TypeLanes, ConstructorValue, Calculate, Pick;
    match t
    case Number(_, _, _) =>
    case Var(n) => assert SymbolMeans(env.symbols[n], input[n], store);
    case Pos(e) => ImageMeans(e, env, input, store);
    case Neg(e) => ImageMeans(e, env, input, store);
    case Bin(op, l, r) =>
      ImageMeans(l, env, input, store);
      ImageMeans(r, env, input, store);
      BinaryLanes(op, Check(l, env).value, Check(r, env).value, env);
    case Call(n, args) => CallMeans(n, args, env, input, store);
    case Index(e, i) =>
      assert SymbolMeans(env.symbols[e.name], input[e.name], store);
      assert SymbolMeans(env.symbols[i.name], input[i.name], store);
      WholeMeans("int", env.symbols[i.name].tree, store, input[i.name]);
    case Field(e, fields) =>
      ImageMeans(e, env, input, store);
      SwizzleSize(fields, Check(e, env).value.lanes);
  }

  lemma BinaryLanes(op: Op, a: Attr, b: Attr, env: Env)
    requires CheckBinary(op, a, b, env).Some?
    ensures 0 < a.lanes && 0 < b.lanes && CheckBinary(op, a, b, env).value.lanes == Wider(a.lanes, b.lanes)
  {
  }

  /** Converting an integer to a signed one changes nothing; converting it to float gives its one component. */
  lemma WholeMeans(n: string, t: Tree, store: map<string, Value>, v: Value)
    requires ValueOf(Glsl, t, store) == Some(v) && v.Whole? && (n == "int" || n == "float")
    ensures ValueOf(Glsl, Call(n, [t]), store) == Some(if n == "int" then v else Floats([v.n as real]))
  {
    CallValue(Glsl, n, [t], store, [v]);
    assert [v][..0] == [] && [] + [v.n as real] == [v.n as real];
    assert AllParts([v]) == Some([v.n as real]);
    assert Repeat(v.n as real, 1) == [v.n as real];
  }

  /** The Metal and the GLSL name of a constructor stand for the same width. */
  lemma SameWidth(n: string)
    requires TypeLanes(n).Some?
    ensures FloatWidth(Metal, n) == TypeLanes(n) == FloatWidth(Glsl, TypeName(TypeLanes(n).value))
    ensures n !in {"uint", "int"} && TypeName(TypeLanes(n).value) !in {"uint", "int"} && 0 < TypeLanes(n).value
  {
  }

  lemma {:induction false} ArgumentMeans(t: Tree, env: Env, input: map<string, Value>, store: map<string, Value>)
    requires EnvMeans(env, input, store) && Check(t, env).Some?
    ensures var v, w := ValueOf(Metal, t, input), ValueOf(Glsl, Converted(Image(t, env), Check(t, env)), store);
            if v.None? then w.None? else w.Some? && Parts(v.value) == Parts(w.value)
    decreases t, 3
  {
    hide EnvMeans, Image, Check, ValueOf;
    ImageMeans(t, env, input, store);
    var v, image := ValueOf(Metal, t, input), Image(t, env);
    if Check(t, env).value.lanes == 0 {
      if v.Some? {
        WholeMeans("float", image, store, v.value);
      } else {
        CallUndefined(Glsl, "float", [image], store, 0);
      }
    }
  }

  lemma {:induction false} CallMeans(n: string, args: seq<Tree>, env: Env, input: map<string, Value>,
                                     store: map<string, Value>)
    requires EnvMeans(env, input, store) && Check(Call(n, args), env).Some?
    ensures ValueOf(Glsl, Image(Call(n, args), env), store) == ValueOf(Metal, Call(n, args), input)
    ensures ValueOf(Metal, Call(n, args), input).Some? ==>
              HasLanes(ValueOf(Metal, Call(n, args), input).value, Check(Call(n, args), env).value.lanes)
    decreases Call(n, args), 1
  {
    hide EnvMeans, Image, TypeLanes, TypeName, CheckConstructor, Check, ValueOf, Converted, Build;
    CallParts(n, args, env);
    CallImage(env, n, args);
    SameWidth(n);
    var attrs := seq(|args|, i requires 0 <= i < |args| && Check(args[i], env).Some? =>
                     ConvertAttr(Check(args[i], env).value, env));
    CallChecks(env, n, args, attrs);
    ConstructorLanes(TypeLanes(n).value, attrs);
    var images := CallImages(env, args);
    forall i | 0 <= i < |args|
      ensures var v, w := ValueOf(Metal, args[i], input), ValueOf(Glsl, images[i], store);
              if v.None? then w.None? else w.Some? && Parts(v.value) == Parts(w.value)
    {
      ArgumentMeans(args[i], env, input, store);
    }
    CallsAgree(n, TypeName(TypeLanes(n).value), args, images, input, store);
  }

  /** Two constructors of one width on arguments with the same components. */
  lemma CallsAgree(n: string, m: string, args: seq<Tree>, images: seq<Tree>, input: map<string, Value>,
                   store: map<string, Value>)
    requires FloatWidth(Metal, n).Some? && FloatWidth(Metal, n) == FloatWidth(Glsl, m) && 0 < FloatWidth(Metal, n).value
    requires n !in {"uint", "int"} && m !in {"uint", "int"} && |args| == |images|
    requires forall i | 0 <= i < |args| ::
              var v, w := ValueOf(Metal, args[i], input), ValueOf(Glsl, images[i], store);
              if v.None? then w.None? else w.Some? && Parts(v.value) == Parts(w.value)
    ensures ValueOf(Glsl, Call(m, images), store) == ValueOf(Metal, Call(n, args), input)
    ensures ValueOf(Metal, Call(n, args), input).Some? ==>
              HasLanes(ValueOf(Metal, Call(n, args), input).value, FloatWidth(Metal, n).value)
  {
    hide ValueOf, FloatWidth, Parts;
    if i: nat :| i < |args| && ValueOf(Metal, args[i], input).None? {
      CallUndefined(Metal, n, args, input, i);
      CallUndefined(Glsl, m, images, store, i);
    } else {
      var vs := seq(|args|, i requires 0 <= i < |args| && ValueOf(Metal, args[i], input).Some? =>
                    ValueOf(Metal, args[i], input).value);
      var ws := seq(|args|, i requires 0 <= i < |args| && ValueOf(Glsl, images[i], store).Some? =>
                    ValueOf(Glsl, images[i], store).value);
      SameParts(vs, ws);
      CallValue(Metal, n, args, input, vs);
      CallValue(Glsl, m, images, store, ws);
    }
  }

  // ------------------------------------------------------------ whole expressions

  /** What was read is a GLSL expression with this many lanes. */
  ghost predicate ReadsTyped(r: Read, scope: map<string, Type>, lanes: nat) {
    r.Got? && TypeOf(r.t, scope).Some? && Fits(TypeOf(r.t, scope).value, lanes)
  }

  /** The GLSL expression read has the value of the Metal expression read. */
  ghost predicate ReadsAlike(emitted: Read, source: Read, input: map<string, Value>, store: map<string, Value>) {
    emitted.Got? && source.Got? && ValueOf(Glsl, emitted.t, store) == ValueOf(Metal, source.t, input)
  }

  /** For all types and values of the names that fit the symbol table. */
  lemma ReadsPreserved(emitted: Read, source: Read, env: Env)
    requires source.Got? && Check(source.t, env).Some? && emitted.Got? && emitted.t == Image(source.t, env)
    ensures forall scope | EnvTyped(env, scope) :: ReadsTyped(emitted, scope, Check(source.t, env).value.lanes)
    ensures forall input, store | EnvMeans(env, input, store) :: ReadsAlike(emitted, source, input, store)
  {
    hide Check, Image, EnvTyped, EnvMeans, TypeOf, ValueOf, Fits;
    forall scope | EnvTyped(env, scope) ensures ReadsTyped(emitted, scope, Check(source.t, env).value.lanes) {
      ImageTyped(source.t, env, scope);
    }
    forall input, store | EnvMeans(env, input, store) ensures ReadsAlike(emitted, source, input, store) {
      ImageMeans(source.t, env, input, store);
    }
  }
}
