/**
 The expression translator of MellowRT::RenderShaderJit: one pass of precedence climbing that
 types each expression by lane count and emits GLSL as it goes.
 */
module ShaderJit {
  import opened Arithmetic
  import opened ShaderGrammar
  import opened ShaderValues
  import opened GlslTypes
  import opened ShaderImage
  import opened ShaderMeaning

  const NO_EXPR: Expr := Expr(Attr(0, None), [])
  const MAX_NODES: nat := 4096
  const MAX_DEPTH: nat := 48

  // ------------------------------------------------------------ refusal

  /** No expression to read, or one without a type. */
  predicate Bad(r: Read, env: Env) {
    r.Fail? || Check(r.t, env).None?
  }

  /** Some `[` before `end` is not between two names. */
  predicate Bent(all: seq<Tok>, from: nat, end: nat) {
    exists k | from <= k < end && k < |all| ::
      all[k] == LBracket && !(0 < k && all[k - 1].Name? && k + 1 < |all| && all[k + 1].Name?)
  }

  /** There is nothing here the translator accepts. The one construct it refuses although the
      language has it is a subscript with parentheses around the array or around the index. */
  predicate Refused(r: Read, all: seq<Tok>, from: nat, env: Env) {
    Bad(r, env) || (|r.rest| <= |all| && Bent(all, from, |all| - |r.rest|))
  }

  predicate RefusedList(r: ReadList, all: seq<Tok>, from: nat, env: Env) {
    r.FailList? || |r.ts| > 4 || (exists i | 0 <= i < |r.ts| :: Check(r.ts[i], env).None?)
    || (|r.rest| <= |all| && Bent(all, from, |all| - |r.rest|))
  }

  lemma BentGrows(all: seq<Tok>, from: nat, end: nat, from': nat, end': nat)
    requires from' <= from && end <= end' && Bent(all, from, end)
    ensures Bent(all, from', end')
  {
  }

  predicate Subscriptable(t: Tree, env: Env) {
    t.Var? && t.name in env.symbols && env.symbols[t.name].isArray && TypeLanes(t.name).None?
  }

  /** An untyped operand stays untyped, unless it is an array that could still be subscripted. */
  lemma {:induction false} PostfixBad(acc: Tree, ts: seq<Tok>, env: Env)
    requires Check(acc, env).None? && !Subscriptable(acc, env)
    ensures Bad(PostfixTail(acc, ts), env)
    decreases |ts|
  {
    hide ReadSum;
    if |ts| >= 2 && ts[0] == Dot && ts[1].Name? {
      PostfixBad(Field(acc, ts[1].name), ts[2..], env);
    } else if ts != [] && ts[0] == LBracket {
      var i := ReadSum(ts[1..]);
      if i.Got? && i.rest != [] && i.rest[0] == RBracket { PostfixBad(Index(acc, i.t), i.rest[1..], env); }
    }
  }

  lemma PostfixBare(acc: Tree, ts: seq<Tok>, env: Env)
    requires Check(acc, env).None? && (ts == [] || ts[0] != LBracket)
    ensures Bad(PostfixTail(acc, ts), env)
  {
    hide ReadSum;
    if |ts| >= 2 && ts[0] == Dot && ts[1].Name? { PostfixBad(Field(acc, ts[1].name), ts[2..], env); }
  }

  lemma BracketBad(acc: Tree, ts: seq<Tok>, env: Env)
    requires !Subscriptable(acc, env) && ts != [] && ts[0] == LBracket
    ensures Bad(PostfixTail(acc, ts), env)
  {
    hide ReadSum;
    var i := ReadSum(ts[1..]);
    if i.Got? && i.rest != [] && i.rest[0] == RBracket { PostfixBad(Index(acc, i.t), i.rest[1..], env); }
  }

  lemma {:induction false} SumTailKeeps(acc: Tree, ts: seq<Tok>)
    ensures var r := SumTail(acc, ts); r.Fail? || r.t.Bin? || r == Got(acc, ts)
    decreases |ts|
  {
    hide ReadProduct;
    if Additive(ts) {
      var r := ReadProduct(ts[1..]);
      if r.Got? { SumTailKeeps(Bin(ts[0].op, acc, r.t), r.rest); }
    }
  }

  lemma {:induction false} ProductTailKeeps(acc: Tree, ts: seq<Tok>)
    ensures var r := ProductTail(acc, ts); r.Fail? || r.t.Bin? || r == Got(acc, ts)
    decreases |ts|
  {
    hide ReadUnary;
    if Multiplicative(ts) {
      var r := ReadUnary(ts[1..]);
      if r.Got? { ProductTailKeeps(Bin(ts[0].op, acc, r.t), r.rest); }
    }
  }

  lemma {:induction false} PostfixTailKeeps(acc: Tree, ts: seq<Tok>)
    ensures var r := PostfixTail(acc, ts); r.Fail? || r.t.Field? || r.t.Index? || r == Got(acc, ts)
    decreases |ts|
  {
    hide ReadSum;
    if |ts| >= 2 && ts[0] == Dot && ts[1].Name? {
      PostfixTailKeeps(Field(acc, ts[1].name), ts[2..]);
    } else if ts != [] && ts[0] == LBracket {
      var i := ReadSum(ts[1..]);
      if i.Got? && i.rest != [] && i.rest[0] == RBracket { PostfixTailKeeps(Index(acc, i.t), i.rest[1..]); }
    }
  }

  /** Only a name, possibly in parentheses, reads as a variable. */
  lemma {:induction false} VariableRead(ts: seq<Tok>)
    requires ReadSum(ts).Got? && ReadSum(ts).t.Var?
    ensures ts != [] && ReadSum(ts).rest == ts[|ts| - |ReadSum(ts).rest|..]
    ensures ts[0] == LParen || (ts[0] == Name(ReadSum(ts).t.name) && ReadSum(ts).rest == ts[1..])
    decreases |ts|
  {
    AtomOf(ts);
    if ts[0] == LParen {
      var r := ReadSum(ts[1..]);
      VariableRead(ts[1..]);
      assert ts[1..][|ts| - 1 - |r.rest|..][1..] == ts[|ts| - (|r.rest| - 1)..];
    }
  }

  lemma AtomOf(ts: seq<Tok>)
    requires ReadSum(ts).Got? && ReadSum(ts).t.Var?
    ensures ReadAtom(ts) == ReadSum(ts)
  {
    hide ReadAtom, SumTail, ProductTail, PostfixTail;
    var p := ReadProduct(ts);
    SumTailKeeps(p.t, p.rest);
    var u := ReadUnary(ts);
    ProductTailKeeps(u.t, u.rest);
    assert p == (if u.Fail? then Fail else ProductTail(u.t, u.rest));
    assert !Additive(ts) && u == ReadPostfix(ts);
    var a := ReadAtom(ts);
    PostfixTailKeeps(a.t, a.rest);
  }

  lemma {:induction false} ProductBad(acc: Tree, ts: seq<Tok>, env: Env)
    requires Check(acc, env).None?
    ensures Bad(ProductTail(acc, ts), env)
    decreases |ts|
  {
    hide ReadUnary;
    if Multiplicative(ts) {
      var r := ReadUnary(ts[1..]);
      if r.Got? { ProductBad(Bin(ts[0].op, acc, r.t), r.rest, env); }
    }
  }

  lemma {:induction false} SumBad(acc: Tree, ts: seq<Tok>, env: Env)
    requires Check(acc, env).None?
    ensures Bad(SumTail(acc, ts), env)
    decreases |ts|
  {
    hide ReadProduct;
    if Additive(ts) {
      var r := ReadProduct(ts[1..]);
      if r.Got? { SumBad(Bin(ts[0].op, acc, r.t), r.rest, env); }
    }
  }

  lemma LevelBad(level: nat, acc: Tree, ts: seq<Tok>, env: Env)
    requires level in {0, 2, 3} && Check(acc, env).None?
    ensures Bad(LevelTail(level, acc, ts), env)
  {
    hide ProductTail, SumTail, Check;
    ProductBad(acc, ts, env);
    var p := ProductTail(acc, ts);
    if p.Got? { SumBad(p.t, p.rest, env); }
  }

  lemma TailShrinks(level: nat, acc: Tree, ts: seq<Tok>)
    ensures LevelTail(level, acc, ts).Got? ==> |LevelTail(level, acc, ts).rest| <= |ts|
  {
    hide ProductTail, SumTail;
  }

  lemma BadStart(level: nat, all: seq<Tok>, from: nat, env: Env)
    requires level in {0, 2, 3} && from <= |all| && Refused(ReadUnary(all[from..]), all, from, env)
    ensures Refused(ReadLevel(level, all[from..]), all, from, env)
  {
    hide ReadUnary, Check, LevelTail, Bent;
    var ts := all[from..];
    var r := ReadUnary(ts);
    if r.Got? {
      ClimbStart(level, ts, r.t, r.rest);
      if Bad(r, env) { LevelBad(level, r.t, r.rest, env); }
      TailShrinks(level, r.t, r.rest);
      var f := ReadLevel(level, ts);
      if f.Got? && !Bad(r, env) { BentGrows(all, from, |all| - |r.rest|, from, |all| - |f.rest|); }
    } else {
      assert ReadProduct(ts).Fail?;
    }
  }

  lemma BadStep(level: nat, t: Tree, all: seq<Tok>, from: nat, p: nat, env: Env)
    requires level in {0, 2} && from <= p < |all| && Precedence(all[p]) >= level && all[p].Operator?
    requires Refused(ReadLevel(Precedence(all[p]) + 1, all[p + 1..]), all, p + 1, env)
    ensures Refused(LevelTail(level, t, all[p..]), all, from, env)
  {
    hide ReadLevel, LevelTail, Bent, Check;
    var ts := all[p..];
    assert ts[1..] == all[p + 1..];
    var r := ReadLevel(Precedence(ts[0]) + 1, ts[1..]);
    if r.Got? {
      ClimbStep(level, t, ts, r.t, r.rest);
      if Bad(r, env) {
        BinUntyped(ts[0].op, t, r.t, env);
        LevelBad(level, Bin(ts[0].op, t, r.t), r.rest, env);
      }
      TailShrinks(level, Bin(ts[0].op, t, r.t), r.rest);
      var f := LevelTail(level, t, ts);
      if f.Got? && !Bad(r, env) { BentGrows(all, p + 1, |all| - |r.rest|, from, |all| - |f.rest|); }
    } else {
      NoStep(level, t, ts);
    }
  }

  lemma BinUntyped(op: Op, t: Tree, u: Tree, env: Env)
    requires Check(u, env).None?
    ensures Check(Bin(op, t, u), env).None?
  {
  }

  lemma NoStep(level: nat, t: Tree, ts: seq<Tok>)
    requires level in {0, 2} && ts != [] && Precedence(ts[0]) >= level && ts[0].Operator?
    requires ReadLevel(Precedence(ts[0]) + 1, ts[1..]).Fail?
    ensures LevelTail(level, t, ts).Fail?
  {
    hide ReadUnary;
    if Additive(ts) { assert ProductTail(t, ts) == Got(t, ts); }
  }

  lemma {:induction false} LanesBound(t: Tree, env: Env)
    requires EnvOk(env) && Check(t, env).Some?
    ensures Check(t, env).value.lanes <= 4
  {
    hide Reads, ReadAtom;
    match t
    case Pos(e) => LanesBound(e, env);
    case Neg(e) => LanesBound(e, env);
    case Bin(_, l, r) => LanesBound(l, env); LanesBound(r, env);
    case Var(n) => assert SymbolOk(env.symbols[n]);
    case Index(e, i) => assert SymbolOk(env.symbols[e.name]);
    case _ =>
  }

  // ------------------------------------------------------------ climbing

  function SumFrom(t: Tree, ts: seq<Tok>): Read {
    match ProductTail(t, ts)
    case Fail => Fail
    case Got(p, rest) => SumTail(p, rest)
  }

  /** What an expression at each climbing level is in the grammar. */
  function ReadLevel(level: nat, ts: seq<Tok>): Read {
    if level == 0 then ReadSum(ts) else if level == 2 then ReadProduct(ts) else ReadUnary(ts)
  }

  /** What remains to be read after the operand `t` at each climbing level. */
  function LevelTail(level: nat, t: Tree, ts: seq<Tok>): Read {
    if level == 0 then SumFrom(t, ts) else if level == 2 then ProductTail(t, ts) else Got(t, ts)
  }

  function Precedence(tok: Tok): int {
    if !tok.Operator? then -1 else if tok.op == Add || tok.op == Sub then 1 else 2
  }

  lemma ClimbStart(level: nat, ts: seq<Tok>, t: Tree, rest: seq<Tok>)
    requires level in {0, 2, 3} && ReadUnary(ts) == Got(t, rest)
    ensures ReadLevel(level, ts) == LevelTail(level, t, rest)
  {
    hide ReadUnary;
    assert ReadProduct(ts) == ProductTail(t, rest);
    if level == 0 {
      var p := ProductTail(t, rest);
      assert ReadSum(ts) == if p.Fail? then Fail else SumTail(p.t, p.rest);
    }
  }

  /** Taking one operator and its right operand is one step of the grammar at every level. */
  lemma ClimbStep(level: nat, t: Tree, ts: seq<Tok>, u: Tree, rest: seq<Tok>)
    requires level in {0, 2} && ts != [] && Precedence(ts[0]) >= level && ts[0].Operator?
    requires ReadLevel(Precedence(ts[0]) + 1, ts[1..]) == Got(u, rest)
    ensures LevelTail(level, t, ts) == LevelTail(level, Bin(ts[0].op, t, u), rest)
  {
    hide ReadUnary;
    if Additive(ts) {
      assert ProductTail(t, ts) == Got(t, ts);
      assert ProductTail(Bin(ts[0].op, t, u), rest) == Got(Bin(ts[0].op, t, u), rest);
    } else {
      assert Multiplicative(ts);
    }
  }

  lemma ClimbEnd(level: nat, t: Tree, ts: seq<Tok>)
    requires level in {0, 2, 3} && ts != [] && Precedence(ts[0]) < level
    ensures LevelTail(level, t, ts) == Got(t, ts)
  {
    assert level <= 2 ==> ProductTail(t, ts) == Got(t, ts);
    if level == 0 { assert SumTail(t, ts) == Got(t, ts); }
  }

  // ------------------------------------------------------------ the parser

  class Parser {
    const env: Env
    const tokens: seq<Tok>
    var pos: nat
    var nodes: nat
    /** Set once the size or depth limit stopped the parse. */
    var limited: bool

    constructor (env: Env, tokens: seq<Tok>)
      requires tokens != [] && tokens[|tokens| - 1] == End
      ensures this.env == env && this.tokens == tokens && Valid() && pos == 0 && nodes == 0 && !limited
    {
      this.env, this.tokens, pos, nodes, limited := env, tokens, 0, 0, false;
    }

    /** The token list ends with a mark that no rule takes. */
    predicate Valid()
      reads this
    {
      tokens != [] && tokens[|tokens| - 1] == End && pos < |tokens|
    }

    /** What follows cannot turn the expression before it into a call or a subscript. */
    predicate Follow()
      requires Valid()
      reads this
    {
      tokens[pos] != LParen && tokens[pos] != LBracket
    }

    /** What the reader makes of the tokens from `from` on is not to be accepted. */
    predicate Off(r: Read, from: nat) {
      Refused(r, tokens, from, env)
    }

    /** Every `[` in the range is between two names. */
    predicate Tidy(from: nat, end: nat) {
      !Bent(tokens, from, end)
    }

    /** Every node counted has a token of its own, but for one that failed. */
    static predicate Paid(before: nat, nodes: nat, from: nat, pos: nat, ok: bool) {
      from <= pos && nodes <= before + (pos - from) + (if ok then 0 else 1)
    }

    method Take(tok: Tok) returns (taken: bool)
      requires Valid() && tok != End
      modifies this`pos
      ensures Valid() && (taken <==> tokens[old(pos)] == tok)
      ensures pos == if taken then old(pos) + 1 else old(pos)
    {
      if tokens[pos] != tok { return false; }
      pos := pos + 1;
      return true;
    }

    method TakeName() returns (ok: bool, name: string)
      requires Valid()
      modifies this`pos
      ensures Valid() && (ok <==> tokens[old(pos)].Name?)
      ensures pos == if ok then old(pos) + 1 else old(pos)
      ensures ok ==> tokens[old(pos)] == Name(name)
    {
      if !tokens[pos].Name? { return false, ""; }
      name := tokens[pos].name;
      pos := pos + 1;
      return true, name;
    }

    /** Each letter from one family, each within the vector. */
    static method CheckSwizzle(fields: string, lanes: nat) returns (ok: bool)
      requires lanes <= 4
      ensures ok <==> GoodSwizzle(fields, lanes)
    {
      hide Position, InFamily;
      if lanes < 2 || fields == "" || |fields| > 4 { return false; }
      var family: int := -1;
      for i := 0 to |fields|
        invariant family in {-1, 0, 1} && (family == -1 <==> i == 0)
        invariant family == 0 ==> forall j | 0 <= j < i :: Position(fields[j], "xyzw") < lanes
        invariant family == 1 ==> forall j | 0 <= j < i :: Position(fields[j], "rgba") < lanes
        invariant family == 0 ==> Position(fields[0], "xyzw") < 4
        invariant family == 1 ==> Position(fields[0], "rgba") < 4
      {
        LetterPosition(fields[i]);
        LetterPosition(fields[0]);
        var group := if Position(fields[i], "xyzw") < 4 then 0 else 1;
        var index := if group == 0 then Position(fields[i], "xyzw") else Position(fields[i], "rgba");
        if index >= lanes || (family != -1 && family != group) {
          Outside(fields, lanes, i);
          Outside(fields, lanes, 0);
          return false;
        }
        family := group;
      }
      Inside(fields, lanes);
      return true;
    }

    // ---------------------------------------------------------------- atoms

    /** `( e )` */
    method Group(depth: nat) returns (ok: bool, e: Expr, ghost t: Tree)
      requires Valid() && EnvOk(env) && tokens[pos] == LParen && !limited
      modifies this
      ensures Valid() && (ok ==> pos > old(pos) && Faithful(e, t, env) && !limited && Tidy(old(pos), pos))
      ensures ok ==> ReadPostfix(tokens[old(pos)..]) == PostfixTail(t, tokens[pos..])
      ensures !ok ==> limited || Off(ReadPostfix(tokens[old(pos)..]), old(pos))
      ensures Paid(old(nodes), nodes + 1, old(pos), pos, ok)
      ensures (limited ==> nodes > MAX_NODES || depth + 0 + 2 * (pos - old(pos)) > MAX_DEPTH)
      decreases |tokens| - pos, 1
    {
      hide EnvOk, Faithful, Bad, Bent, ReadPostfix, ReadSum;
      var p := pos;
      pos := pos + 1;
      ok, e, t := Expression(0, depth + 1);
      if !ok {
        if !limited { GroupBad(tokens, p, env); }
        return;
      }
      var inner := pos;
      ok := Take(RParen);
      if ok {
        GroupReads(tokens, p, t, inner);
        TidyWrap(tokens, p, inner);
      } else {
        if ReadSum(tokens[p + 1..]) == Got(t, tokens[inner..]) {
          GroupOpen(tokens, p, t, inner, env);
        } else {
          GroupBad(tokens, p, env);
        }
      }
    }

    /** A name from the symbol table, with its subscript if it is an array. */
    method Reference() returns (ok: bool, e: Expr, ghost t: Tree)
      requires Valid() && EnvOk(env) && tokens[pos].Name? && TypeLanes(tokens[pos].name).None?
      modifies this`pos
      ensures Valid() && pos >= old(pos) && (ok ==> pos > old(pos) && Faithful(e, t, env))
      ensures ok && tokens[pos] != LParen ==> ReadPostfix(tokens[old(pos)..]) == PostfixTail(t, tokens[pos..])
      ensures ok ==>
                ReadPostfix(tokens[old(pos)..]) == PostfixTail(t, tokens[pos..]) ||
                Off(ReadPostfix(tokens[old(pos)..]), old(pos))
      ensures !ok ==> Off(ReadPostfix(tokens[old(pos)..]), old(pos))
      ensures ok ==> Tidy(old(pos), pos)
    {
      hide ReadPostfix, PostfixTail, Bent, Bad, EnvOk, Faithful, Check;
      e, t := NO_EXPR, Var("");
      var p := pos;
      var id := tokens[pos].name;
      pos := pos + 1;
      NameBad(tokens, p, env);
      TidyName(tokens, p);
      if id !in env.symbols { return false, e, t; }
      var sym := env.symbols[id];
      t := Var(id);
      e := Expr(Attr(sym.lanes, None), sym.code);
      if !sym.isArray {
        SymbolFaithful(env, id);
        if tokens[pos] != LParen { NameReads(tokens, p); }
        return true, e, t;
      }
      if tokens[pos] != LParen { ArrayBad(tokens, p, env); }
      ok := Take(LBracket);
      if !ok { return; }
      var index;
      ok, index := TakeName();
      if !ok { return; }
      if index !in env.symbols || !env.symbols[index].vertexId || !env.vertexStage { return false, e, t; }
      ok := Take(RBracket);
      if !ok { return; }
      t := Index(Var(id), Var(index));
      e := Expr(e.attr, sym.code + [LBracket, Name("int"), LParen] + env.symbols[index].code + [RParen, RBracket]);
      assert Subscriptable(Var(id), env);
      IndexTyped(env, id, index);
      SymbolIndex(env, id, index);
      SubscriptReads(tokens, p);
    }

    /** One argument, converted to float if it is a uint. */
    method Argument(depth: nat) returns (ok: bool, attr: Attr, code: seq<Tok>, ghost t: Tree)
      requires Valid() && EnvOk(env) && !limited
      modifies this
      ensures Valid() && (ok ==> pos > old(pos) && !limited && Tidy(old(pos), pos))
      ensures ok ==>
                Check(t, env).Some? && attr == ConvertAttr(Check(t, env).value, env) &&
                Reads(code, Converted(Image(t, env), Check(t, env)))
      ensures ok && Follow() ==> ReadSum(tokens[old(pos)..]) == Got(t, tokens[pos..])
      ensures ok ==> ReadSum(tokens[old(pos)..]) == Got(t, tokens[pos..]) || Off(ReadSum(tokens[old(pos)..]), old(pos))
      ensures !ok ==> limited || Off(ReadSum(tokens[old(pos)..]), old(pos))
      ensures Paid(old(nodes), nodes, old(pos), pos, ok)
      ensures (limited ==> nodes > MAX_NODES || depth + 2 + 2 * (pos - old(pos)) > MAX_DEPTH)
      decreases |tokens| - pos, 5
    {
      hide EnvOk, Reads, Image, Check, Bad, Bent, ReadSum;
      var e;
      ok, e, t := Expression(0, depth + 1);
      attr, code := e.attr, e.code;
      if ok && e.attr.lanes == 0 {
        attr := ConvertAttr(attr, env);
        ReadsCall("float", [e.code], [Image(t, env)]);
        code := [Name("float"), LParen] + Joined([e.code]);
      }
    }

    /** `floatN ( a, ... )` */
    method Constructor(depth: nat) returns (ok: bool, e: Expr, ghost t: Tree)
      requires Valid() && EnvOk(env) && tokens[pos].Name? && TypeLanes(tokens[pos].name).Some? && !limited
      modifies this
      ensures Valid() && (ok ==> pos > old(pos) && Faithful(e, t, env) && !limited && Tidy(old(pos), pos))
      ensures ok ==> ReadPostfix(tokens[old(pos)..]) == PostfixTail(t, tokens[pos..])
      ensures !ok ==> limited || Off(ReadPostfix(tokens[old(pos)..]), old(pos))
      ensures Paid(old(nodes), nodes + 1, old(pos), pos, ok)
      ensures (limited ==> nodes > MAX_NODES || depth + 0 + 2 * (pos - old(pos)) > MAX_DEPTH)
      decreases |tokens| - pos, 1
    {
      hide EnvOk, Reads, Image, Check, ReadPostfix, PostfixTail, ReadArgs, ReadSum, RefusedList, Bad, Bent;
      e, t := NO_EXPR, Var("");
      var p := pos;
      var id := tokens[pos].name;
      pos := pos + 1;
      ok := Take(LParen);
      if !ok {
        TypeAlone(tokens, p, env);
        return;
      }
      var attrs, codes;
      ghost var trees;
      ok, attrs, codes, trees := Arguments(depth);
      if !ok {
        if !limited { CallBad(tokens, p, env); }
        return;
      }
      var attr := CheckConstructor(TypeLanes(id).value, attrs);
      CallChecks(env, id, trees, attrs);
      CallReads(tokens, p, trees, pos);
      TidyWrap(tokens, p + 1, pos);
      TidyWrap(tokens, p, pos);
      if attr.None? {
        PostfixBad(Call(id, trees), tokens[pos..], env);
        return false, e, t;
      }
      t := Call(id, trees);
      e := Expr(attr.value, [Name(TypeName(TypeLanes(id).value)), LParen] + Joined(codes));
      ReadsCall(TypeName(TypeLanes(id).value), codes, CallImages(env, trees));
      CallImage(env, id, trees);
    }

    /** The argument list up to and including the closing parenthesis. */
    method Arguments(depth: nat) returns (ok: bool, attrs: seq<Attr>, codes: seq<seq<Tok>>, ghost trees: seq<Tree>)
      requires Valid() && EnvOk(env) && !limited
      modifies this
      ensures Valid() && (ok ==> pos > old(pos) && !limited && Tidy(old(pos), pos))
      ensures ok ==> 0 < |trees| && Arrive(attrs, codes, trees, env)
      ensures ok ==> ReadArgs(tokens[old(pos)..]) == GotList(trees, tokens[pos..])
      ensures !ok ==> limited || RefusedList(ReadArgs(tokens[old(pos)..]), tokens, old(pos), env)
      ensures Paid(old(nodes), nodes, old(pos), pos, ok)
      ensures (limited ==> nodes > MAX_NODES || depth + 2 + 2 * (pos - old(pos)) > MAX_DEPTH)
      decreases |tokens| - pos, 6
    {
      hide EnvOk, Reads, Image, Check, ReadSum, ReadArgs, ConvertAttr, Converted, Bad, Bent, RefusedList, Prepend;
      hide Arrive;
      attrs, codes, trees := [], [], [];
      ghost var start := pos;
      NothingSeen(ReadArgs(tokens[pos..]));
      TidyJust(tokens, pos);
      NoneArrive(env);
      while true
        invariant Valid() && pos >= start && |attrs| == |trees| && !limited && Tidy(start, pos)
        invariant Paid(old(nodes), nodes, start, pos, true)
        invariant Arrive(attrs, codes, trees, env)
        invariant ReadArgs(tokens[start..]) == Prepend(trees, ReadArgs(tokens[pos..]))
        decreases |tokens| - pos
      {
        ghost var before := pos;
        var attr, code;
        ghost var t;
        ok, attr, code, t := Argument(depth);
        if !ok {
          if !limited { ArgumentBad(tokens, start, before, trees, env); }
          return;
        }
        if |attrs| == 4 {
          FifthArgument(trees, tokens, start, before, env);
          return false, attrs, codes, trees;
        }
        TidyJoin(tokens, start, before, pos);
        ArriveOne(attrs, codes, trees, attr, code, t, env);
        ghost var seen := trees;
        attrs, codes, trees := attrs + [attr], codes + [code], trees + [t];
        if tokens[pos] != Comma {
          ok := Close(start, before, t, seen);
          return;
        }
        NextArgument(tokens, before, t, pos, seen);
        TidyMore(tokens, start, pos);
        pos := pos + 1;
      }
    }

    /** The parenthesis after the last argument. */
    method Close(ghost start: nat, ghost before: nat, ghost t: Tree, ghost seen: seq<Tree>) returns (ok: bool)
      requires Valid() && start <= before < pos && tokens[pos] != Comma && Tidy(start, pos)
      requires Follow() ==> ReadSum(tokens[before..]) == Got(t, tokens[pos..])
      requires ReadSum(tokens[before..]) == Got(t, tokens[pos..]) || Off(ReadSum(tokens[before..]), before)
      modifies this`pos
      ensures Valid() && old(pos) <= pos && (ok ==> Tidy(start, pos) && old(pos) < pos)
      ensures ok ==> Prepend(seen, ReadArgs(tokens[before..])) == GotList(seen + [t], tokens[pos..])
      ensures !ok ==> RefusedList(Prepend(seen, ReadArgs(tokens[before..])), tokens, start, env)
    {
      hide ReadSum, ReadArgs, Bad, Bent, RefusedList, Prepend;
      var p := pos;
      ok := Take(RParen);
      if ok {
        LastArgument(tokens, before, t, p, seen);
        TidyMore(tokens, start, p);
      } else if ReadSum(tokens[before..]) == Got(t, tokens[p..]) {
        ArgumentOpen(tokens, start, before, t, p, seen, env);
      } else {
        ArgumentBad(tokens, start, before, seen, env);
      }
    }

    // ---------------------------------------------------------------- operands and expressions

    /** An atom and its swizzles. */
    method Operand(depth: nat) returns (ok: bool, e: Expr, ghost t: Tree)
      requires Valid() && EnvOk(env) && !Additive(tokens[pos..]) && !limited
      modifies this
      ensures Valid()
      ensures (ok ==> pos > old(pos) && Faithful(e, t, env) && tokens[pos] != Dot && !limited && Tidy(old(pos), pos))
      ensures ok && Follow() ==> ReadPostfix(tokens[old(pos)..]) == Got(t, tokens[pos..])
      ensures ok ==>
                ReadPostfix(tokens[old(pos)..]) == Got(t, tokens[pos..]) ||
                Off(ReadPostfix(tokens[old(pos)..]), old(pos))
      ensures !ok ==> limited || Off(ReadPostfix(tokens[old(pos)..]), old(pos))
      ensures Paid(old(nodes), nodes + 1, old(pos), pos, ok)
      ensures (limited ==> nodes > MAX_NODES || depth + 0 + 2 * (pos - old(pos)) > MAX_DEPTH)
      decreases |tokens| - pos, 2
    {
      hide EnvOk, Faithful, ReadPostfix, Bad, Bent, PostfixTail;
      ghost var start := pos;
      e, t := NO_EXPR, Var("");
      if tokens[pos] == LParen {
        ok, e, t := Group(depth);
      } else if tokens[pos].Literal? {
        var lit := tokens[pos];
        t := Number(lit.isFloat, lit.text, lit.value);
        var value := if lit.isFloat then env.round(lit.value) else lit.value;
        e := Expr(Attr(if lit.isFloat then 1 else 0, Some(value)), [lit]);
        LiteralFaithful(lit, env);
        LiteralReads(tokens, pos);
        TidyName(tokens, pos);
        pos := pos + 1;
        ok := true;
      } else if tokens[pos].Name? && TypeLanes(tokens[pos].name).Some? {
        ok, e, t := Constructor(depth);
      } else if tokens[pos].Name? {
        ok, e, t := Reference();
      } else {
        NoAtom(tokens[pos..], env);
        return false, e, t;
      }
      if !ok { return; }
      ok, e, t := Swizzles(e, t, start);
      if ok { AfterOperand(tokens, start, e, t, pos, env); }
    }

    method Swizzles(e0: Expr, ghost t0: Tree, ghost start: nat) returns (ok: bool, e: Expr, ghost t: Tree)
      requires Valid() && start < pos && Faithful(e0, t0, env) && EnvOk(env) && !limited && Tidy(start, pos)
      requires tokens[pos] != LParen ==> ReadPostfix(tokens[start..]) == PostfixTail(t0, tokens[pos..])
      requires ReadPostfix(tokens[start..]) == PostfixTail(t0, tokens[pos..]) ||
                Off(ReadPostfix(tokens[start..]), start)
      modifies this`pos
      ensures Valid() && pos >= old(pos)
      ensures ok ==> Faithful(e, t, env) && tokens[pos] != Dot && Tidy(start, pos)
      ensures ok && tokens[pos] != LParen ==> ReadPostfix(tokens[start..]) == PostfixTail(t, tokens[pos..])
      ensures ok ==>
                ReadPostfix(tokens[start..]) == PostfixTail(t, tokens[pos..]) ||
                Off(ReadPostfix(tokens[start..]), start)
      ensures !ok ==> Off(ReadPostfix(tokens[start..]), start)
    {
      hide ReadPostfix, Faithful, EnvOk, Bad, Bent, PostfixTail;
      ok, e, t := true, e0, t0;
      while tokens[pos] == Dot
        invariant Valid() && pos >= old(pos) && Faithful(e, t, env) && Tidy(start, pos)
        invariant tokens[pos] != LParen ==> ReadPostfix(tokens[start..]) == PostfixTail(t, tokens[pos..])
        invariant ReadPostfix(tokens[start..]) == PostfixTail(t, tokens[pos..]) ||
                  Off(ReadPostfix(tokens[start..]), start)
        decreases |tokens| - pos
      {
        var p := pos;
        pos := pos + 1;
        var fields;
        ok, fields := TakeName();
        if !ok {
          NoField(t, tokens[p..], env);
          return;
        }
        FieldReads(tokens, p, t);
        TidyMore(tokens, start, p);
        TidyMore(tokens, start, p + 1);
        LanesOf(e, t, env);
        ok := CheckSwizzle(fields, e.attr.lanes);
        if !ok {
          FieldBad(e, t, fields, tokens[pos..], env);
          return;
        }
        FieldFaithful(e, t, fields, env);
        e := Expr(Attr(|fields|, None), [LParen] + e.code + [RParen, Dot, Name(fields)]);
        t := Field(t, fields);
      }
    }

    method Primary(depth: nat) returns (ok: bool, e: Expr, ghost t: Tree)
      requires Valid() && EnvOk(env) && !limited
      modifies this
      ensures Valid()
      ensures (ok ==> pos > old(pos) && Faithful(e, t, env) && tokens[pos] != Dot && !limited && Tidy(old(pos), pos))
      ensures ok && Follow() ==> ReadUnary(tokens[old(pos)..]) == Got(t, tokens[pos..])
      ensures ok ==>
                ReadUnary(tokens[old(pos)..]) == Got(t, tokens[pos..]) || Off(ReadUnary(tokens[old(pos)..]), old(pos))
      ensures !ok ==> limited || Off(ReadUnary(tokens[old(pos)..]), old(pos))
      ensures ok ==> depth <= MAX_DEPTH
      ensures Paid(old(nodes), nodes, old(pos), pos, ok)
      ensures (limited ==> nodes > MAX_NODES || depth + 0 + 2 * (pos - old(pos)) > MAX_DEPTH)
      decreases |tokens| - pos, 3
    {
      hide EnvOk, Faithful, ReadPostfix, Bad, Bent;
      e, t := NO_EXPR, Var("");
      nodes := nodes + 1;
      if nodes > MAX_NODES || depth > MAX_DEPTH {
        limited := true;
        return false, e, t;
      }
      if tokens[pos] == Operator(Add) || tokens[pos] == Operator(Sub) {
        ok, e, t := Signed(depth);
      } else {
        ok, e, t := Operand(depth);
      }
    }

    /** `+ e` and `- e` */
    method Signed(depth: nat) returns (ok: bool, e: Expr, ghost t: Tree)
      requires Valid() && EnvOk(env) && (tokens[pos] == Operator(Add) || tokens[pos] == Operator(Sub)) && !limited
      modifies this
      ensures Valid()
      ensures (ok ==> pos > old(pos) && Faithful(e, t, env) && tokens[pos] != Dot && !limited && Tidy(old(pos), pos))
      ensures ok && Follow() ==> ReadUnary(tokens[old(pos)..]) == Got(t, tokens[pos..])
      ensures ok ==>
                ReadUnary(tokens[old(pos)..]) == Got(t, tokens[pos..]) || Off(ReadUnary(tokens[old(pos)..]), old(pos))
      ensures !ok ==> limited || Off(ReadUnary(tokens[old(pos)..]), old(pos))
      ensures Paid(old(nodes), nodes + 1, old(pos), pos, ok)
      ensures (limited ==> nodes > MAX_NODES || depth + 0 + 2 * (pos - old(pos)) > MAX_DEPTH)
      decreases |tokens| - pos, 2
    {
      hide EnvOk, Faithful, ReadUnary, Bad, Bent;
      var p := pos;
      var tok := tokens[pos];
      pos := pos + 1;
      ok, e, t := Primary(depth + 1);
      SignBad(tokens, p, env);
      if !ok { return; }
      SignReads(tokens, p, t, pos);
      TidyWrap(tokens, p, pos);
      if e.attr.lanes == 0 {
        SignUntyped(tokens, p, e, t, pos, env);
        return false, e, t;
      }
      SignFaithful(e, t, env);
      if tok == Operator(Add) {
        t := Pos(t);
      } else {
        t := Neg(t);
        var constant := if e.attr.constant.Some? then Some(-e.attr.constant.value) else None;
        e := Expr(e.attr.(constant := constant), [LParen, Operator(Sub)] + e.code + [RParen]);
      }
    }

    /** Precedence climbing: level 0 reads a sum, 2 a product, 3 an operand. An accepted
        expression is what the reader reads there, typed as the reader's tree is typed. In every
        stage a refusal means that the size limits were passed or that there was nothing to
        accept; a bracket that is not between two names counts as nothing to accept. */
    method Expression(level: nat, depth: nat) returns (ok: bool, e: Expr, ghost t: Tree)
      requires Valid() && EnvOk(env) && level in {0, 2, 3} && !limited
      modifies this
      ensures Valid() && (ok ==> pos > old(pos) && Faithful(e, t, env) && !limited && Tidy(old(pos), pos))
      ensures ok && Follow() ==> ReadLevel(level, tokens[old(pos)..]) == Got(t, tokens[pos..])
      ensures ok ==>
                ReadLevel(level, tokens[old(pos)..]) == Got(t, tokens[pos..]) ||
                Off(ReadLevel(level, tokens[old(pos)..]), old(pos))
      ensures !ok ==> limited || Off(ReadLevel(level, tokens[old(pos)..]), old(pos))
      ensures Paid(old(nodes), nodes, old(pos), pos, ok)
      ensures (limited ==> nodes > MAX_NODES || depth + 1 + 2 * (pos - old(pos)) > MAX_DEPTH)
      decreases |tokens| - pos, 4
    {
      hide EnvOk, Faithful, ReadLevel, LevelTail, ReadUnary, Bad, Bent;
      ghost var start := pos;
      ok, e, t := Primary(depth + 1);
      if Off(ReadUnary(tokens[start..]), start) { BadStart(level, tokens, start, env); }
      if !ok { return; }
      if ReadUnary(tokens[start..]) == Got(t, tokens[pos..]) { ClimbStart(level, tokens[start..], t, tokens[pos..]); }
      while Precedence(tokens[pos]) >= level
        invariant Valid() && pos > start && Faithful(e, t, env) && !limited && ok && Sofar(level, start, t)
        invariant Tidy(start, pos) && Paid(old(nodes), nodes, start, pos, true)
        decreases |tokens| - pos
      {
        ok, e, t := Extend(level, depth, e, t, start);
        if !ok { return; }
      }
      ClimbEnd(level, t, tokens[pos..]);
    }

    /** The reader at `start` has read `t` and goes on here. */
    ghost predicate Sofar(level: nat, start: nat, t: Tree)
      requires Valid() && start < |tokens|
      reads this
    {
      (Follow() ==> ReadLevel(level, tokens[start..]) == LevelTail(level, t, tokens[pos..])) &&
      (ReadLevel(level, tokens[start..]) == LevelTail(level, t, tokens[pos..]) ||
       Off(ReadLevel(level, tokens[start..]), start))
    }

    /** One operator and its right operand. */
    method Extend(level: nat, depth: nat, e0: Expr, ghost t0: Tree, ghost start: nat)
      returns (ok: bool, e: Expr, ghost t: Tree)
      requires Valid() && EnvOk(env) && level in {0, 2, 3} && !limited && start < pos
      requires Faithful(e0, t0, env) && Precedence(tokens[pos]) >= level && Sofar(level, start, t0) && Tidy(start, pos)
      modifies this
      ensures Valid()
      ensures (ok ==> pos > old(pos) && Faithful(e, t, env) && !limited && Sofar(level, start, t) && Tidy(start, pos))
      ensures !ok ==> limited || Off(ReadLevel(level, tokens[start..]), start)
      ensures Paid(old(nodes), nodes, old(pos), pos, ok)
      ensures (limited ==> nodes > MAX_NODES || depth + 2 + 2 * (pos - old(pos) - 1) > MAX_DEPTH)
      decreases |tokens| - pos, 4
    {
      hide EnvOk, Faithful, ReadLevel, LevelTail, Bad, Bent;
      var p := pos;
      var op := tokens[pos].op;
      pos := pos + 1;
      e, t := e0, t0;
      var rhs;
      ghost var u;
      ok, rhs, u := Expression(Precedence(tokens[p]) as nat + 1, depth + 1);
      assert tokens[p..][1..] == tokens[p + 1..];
      ghost var right := ReadLevel(Precedence(tokens[p]) as nat + 1, tokens[p + 1..]);
      if Off(right, p + 1) { BadStep(level, t, tokens, start, p, env); }
      if !ok { return; }
      TidyMore(tokens, start, p);
      TidyJoin(tokens, start, p + 1, pos);
      if right == Got(u, tokens[pos..]) { ClimbStep(level, t, tokens[p..], u, tokens[pos..]); }
      var attr := CheckBinary(op, e.attr, rhs.attr, env);
      if attr.None? {
        BinaryBad(op, e, t, rhs, u, env);
        LevelBad(level, Bin(op, t, u), tokens[pos..], env);
        return false, e, t;
      }
      BinaryFaithful(op, e, t, rhs, u, env);
      e, t := Expr(attr.value, [LParen] + e.code + [Operator(op)] + rhs.code + [RParen]), Bin(op, t, u);
    }

    /** A whole expression and the semicolon that ends it. What is emitted reads back as the image of what was read,
        under the same grouping: a GLSL expression of the recorded type, with the value of the Metal expression. */
    method Statement() returns (ok: bool, e: Expr, ghost t: Tree)
      requires Valid() && EnvOk(env) && !limited
      modifies this
      ensures Valid()
      ensures ok ==>
                pos > old(pos) && tokens[pos - 1] == Semicolon &&
                ReadSum(tokens[old(pos)..]) == Got(t, tokens[pos - 1..])
      ensures ok ==> Check(t, env) == Some(e.attr) && ReadSum(e.code + [Semicolon]) == Got(Image(t, env), [Semicolon])
      ensures ok ==> forall scope | EnvTyped(env, scope) ::
                ReadsTyped(ReadSum(e.code + [Semicolon]), scope, e.attr.lanes)
      ensures ok ==> forall input, store | EnvMeans(env, input, store) ::
                ReadsAlike(ReadSum(e.code + [Semicolon]), ReadSum(tokens[old(pos)..]), input, store)
      ensures ok ==> !limited
      ensures limited ==> pos - old(pos) >= MAX_DEPTH / 2 || old(nodes) + (pos - old(pos)) >= MAX_NODES
      ensures !limited ==>
                (ok <==> var r := ReadSum(tokens[old(pos)..]);
                !Off(r, old(pos)) && r.rest != [] && r.rest[0] == Semicolon)
    {
      hide EnvOk, ReadSum, Reads, Check, Image, Bent, EnvTyped, EnvMeans, ReadsTyped, ReadsAlike;
      ghost var start := pos;
      ok, e, t := Expression(0, 0);
      if !ok { return; }
      ok := Take(Semicolon);
      if ok {
        ReadsSum(e.code, Image(t, env), [Semicolon]);
        ReadsPreserved(ReadSum(e.code + [Semicolon]), ReadSum(tokens[start..]), env);
      }
    }
  }

  // ------------------------------------------------------------ emission

  lemma LiteralFaithful(lit: Tok, env: Env)
    requires lit.Literal?
    ensures var value := if lit.isFloat then env.round(lit.value) else lit.value;
            Faithful(Expr(Attr(if lit.isFloat then 1 else 0, Some(value)), [lit]),
                     Number(lit.isFloat, lit.text, lit.value), env)
  {
    hide Reads;
    ReadsLiteral(lit.isFloat, lit.text, lit.value);
  }

  lemma BinaryFaithful(op: Op, e: Expr, t: Tree, f: Expr, u: Tree, env: Env)
    requires Faithful(e, t, env) && Faithful(f, u, env) && CheckBinary(op, e.attr, f.attr, env).Some?
    ensures Faithful(Expr(CheckBinary(op, e.attr, f.attr, env).value,
                          [LParen] + e.code + [Operator(op)] + f.code + [RParen]), Bin(op, t, u), env)
  {
    hide Reads, CheckBinary;
    ReadsBinary(op, e.code, Image(t, env), f.code, Image(u, env));
  }

  lemma SignFaithful(e: Expr, t: Tree, env: Env)
    requires Faithful(e, t, env) && e.attr.lanes != 0
    ensures Faithful(e, Pos(t), env)
    ensures Faithful(Expr(e.attr.(constant := if e.attr.constant.Some? then Some(-e.attr.constant.value) else None),
                          [LParen, Operator(Sub)] + e.code + [RParen]), Neg(t), env)
  {
    hide Reads;
    ReadsNegation(e.code, Image(t, env));
  }

  lemma FieldFaithful(e: Expr, t: Tree, fields: string, env: Env)
    requires Faithful(e, t, env) && GoodSwizzle(fields, e.attr.lanes)
    ensures Faithful(Expr(Attr(|fields|, None), [LParen] + e.code + [RParen, Dot, Name(fields)]), Field(t, fields), env)
  {
    hide Reads, GoodSwizzle;
    ReadsField(e.code, Image(t, env), fields);
  }

  lemma SymbolFaithful(env: Env, id: string)
    requires EnvOk(env) && id in env.symbols && !env.symbols[id].isArray && TypeLanes(id).None?
    ensures Faithful(Expr(Attr(env.symbols[id].lanes, None), env.symbols[id].code), Var(id), env)
  {
    hide ReadAtom, Reads, TypeLanes;
    assert SymbolOk(env.symbols[id]);
  }

  lemma IndexTyped(env: Env, id: string, index: string)
    requires Subscriptable(Var(id), env) && index in env.symbols && env.symbols[index].vertexId && env.vertexStage
    ensures Check(Index(Var(id), Var(index)), env).Some?
  {
    hide TypeLanes;
  }

  lemma SymbolIndex(env: Env, id: string, index: string)
    requires EnvOk(env) && Check(Index(Var(id), Var(index)), env).Some?
    ensures Faithful(Expr(Attr(env.symbols[id].lanes, None),
                          env.symbols[id].code + [LBracket, Name("int"), LParen] + env.symbols[index].code + [RParen,
                            RBracket]),
                     Index(Var(id), Var(index)), env)
  {
    hide ReadAtom, ReadPostfix, TypeLanes;
    assert SymbolOk(env.symbols[id]) && SymbolOk(env.symbols[index]);
    ReadsIndex(env.symbols[id].code, env.symbols[id].tree, "int", env.symbols[index].code, env.symbols[index].tree);
  }

  /** Each argument is typed and its code, after conversion, reads as the converted image. */
  ghost predicate Arrive(attrs: seq<Attr>, codes: seq<seq<Tok>>, trees: seq<Tree>, env: Env) {
    && |attrs| == |codes| == |trees|
    && (forall i | 0 <= i < |trees| ::
          Check(trees[i], env).Some? && attrs[i] == ConvertAttr(Check(trees[i], env).value, env))
    && (forall i | 0 <= i < |trees| :: Reads(codes[i], Converted(Image(trees[i], env), Check(trees[i], env))))
  }

  lemma NoneArrive(env: Env)
    ensures Arrive([], [], [], env)
  {
  }

  lemma ArriveOne(attrs: seq<Attr>, codes: seq<seq<Tok>>, trees: seq<Tree>, attr: Attr, code: seq<Tok>, t: Tree,
                  env: Env)
    requires Arrive(attrs, codes, trees, env) && Check(t, env).Some? && attr == ConvertAttr(Check(t, env).value, env)
    requires Reads(code, Converted(Image(t, env), Check(t, env)))
    ensures Arrive(attrs + [attr], codes + [code], trees + [t], env)
  {
    hide Check, Reads, Image, Converted, ConvertAttr;
  }

  // ------------------------------------------------------------ reading the source

  lemma GroupReads(tokens: seq<Tok>, p: nat, t: Tree, q: nat)
    requires p + 1 <= q < |tokens| && tokens[p] == LParen && tokens[q] == RParen
    requires ReadSum(tokens[p + 1..]) == Got(t, tokens[q..])
    ensures ReadPostfix(tokens[p..]) == PostfixTail(t, tokens[q + 1..])
  {
    hide ReadSum, PostfixTail;
    assert tokens[p..][1..] == tokens[p + 1..] && tokens[q..][1..] == tokens[q + 1..];
    assert ReadAtom(tokens[p..]) == Got(t, tokens[q + 1..]);
  }

  lemma LiteralReads(tokens: seq<Tok>, p: nat)
    requires p < |tokens| && tokens[p].Literal?
    ensures ReadPostfix(tokens[p..]) ==
              PostfixTail(Number(tokens[p].isFloat, tokens[p].text, tokens[p].value), tokens[p + 1..])
  {
    hide PostfixTail;
    assert tokens[p..][1..] == tokens[p + 1..];
  }

  lemma NameReads(tokens: seq<Tok>, p: nat)
    requires p + 1 < |tokens| && tokens[p].Name? && tokens[p + 1] != LParen
    ensures ReadPostfix(tokens[p..]) == PostfixTail(Var(tokens[p].name), tokens[p + 1..])
  {
    hide PostfixTail;
    assert tokens[p..][1..] == tokens[p + 1..];
  }

  lemma SubscriptReads(tokens: seq<Tok>, p: nat)
    requires p + 4 < |tokens| && tokens[p].Name? && tokens[p + 1] == LBracket && tokens[p + 2].Name?
    requires tokens[p + 3] == RBracket
    ensures ReadPostfix(tokens[p..]) ==
              PostfixTail(Index(Var(tokens[p].name), Var(tokens[p + 2].name)), tokens[p + 4..])
  {
    hide ReadSum, PostfixTail, ReadPostfix;
    NameReads(tokens, p);
    var i := Var(tokens[p + 2].name);
    ReadsName(tokens[p + 2].name);
    assert tokens[p + 2..] == [tokens[p + 2]] + tokens[p + 3..];
    ReadsSum([tokens[p + 2]], i, tokens[p + 3..]);
    SubscriptOpen(Var(tokens[p].name), tokens[p + 1..], i, tokens[p + 3..]);
    assert tokens[p + 1..][1..] == tokens[p + 2..] && tokens[p + 3..][1..] == tokens[p + 4..];
  }

  lemma SubscriptOpen(acc: Tree, ts: seq<Tok>, i: Tree, rest: seq<Tok>)
    requires ts != [] && ts[0] == LBracket && rest != [] && rest[0] == RBracket && ReadSum(ts[1..]) == Got(i, rest)
    ensures PostfixTail(acc, ts) == PostfixTail(Index(acc, i), rest[1..])
  {
    hide ReadSum;
  }

  lemma FieldReads(tokens: seq<Tok>, p: nat, t: Tree)
    requires p + 2 <= |tokens| && tokens[p] == Dot && tokens[p + 1].Name?
    ensures PostfixTail(t, tokens[p..]) == PostfixTail(Field(t, tokens[p + 1].name), tokens[p + 2..])
  {
    assert tokens[p..][2..] == tokens[p + 2..];
  }

  lemma SignReads(tokens: seq<Tok>, p: nat, t: Tree, q: nat)
    requires p < q <= |tokens| && (tokens[p] == Operator(Add) || tokens[p] == Operator(Sub))
    ensures ReadUnary(tokens[p + 1..]) == Got(t, tokens[q..]) ==>
              ReadUnary(tokens[p..]) == Got(if tokens[p] == Operator(Add) then Pos(t) else Neg(t), tokens[q..])
  {
    hide ReadPostfix;
    assert tokens[p..][1..] == tokens[p + 1..];
  }

  function Prepend(trees: seq<Tree>, r: ReadList): ReadList {
    if r.FailList? then FailList else GotList(trees + r.ts, r.rest)
  }

  lemma LastArgument(tokens: seq<Tok>, p: nat, t: Tree, q: nat, seen: seq<Tree>)
    requires p < q < |tokens| && tokens[q] == RParen && ReadSum(tokens[p..]) == Got(t, tokens[q..])
    ensures Prepend(seen, ReadArgs(tokens[p..])) == GotList(seen + [t], tokens[q + 1..])
  {
    hide ReadSum, ReadArgs;
    LastRead(tokens[p..], t, tokens[q..]);
    assert tokens[q..][1..] == tokens[q + 1..];
  }

  lemma NothingSeen(r: ReadList)
    ensures Prepend([], r) == r
  {
    if r.GotList? { assert [] + r.ts == r.ts; }
  }

  lemma NextArgument(tokens: seq<Tok>, p: nat, t: Tree, q: nat, seen: seq<Tree>)
    requires p < q < |tokens| && tokens[q] == Comma && ReadSum(tokens[p..]) == Got(t, tokens[q..])
    ensures Prepend(seen, ReadArgs(tokens[p..])) == Prepend(seen + [t], ReadArgs(tokens[q + 1..]))
  {
    hide ReadSum, ReadArgs;
    NextRead(tokens[p..], t, tokens[q..]);
    assert tokens[q..][1..] == tokens[q + 1..];
    var r := ReadArgs(tokens[q + 1..]);
    if r.GotList? { assert seen + ([t] + r.ts) == seen + [t] + r.ts; }
  }

  lemma CallReads(tokens: seq<Tok>, p: nat, trees: seq<Tree>, q: nat)
    requires p + 2 <= q <= |tokens| && tokens[p].Name? && tokens[p + 1] == LParen
    requires ReadArgs(tokens[p + 2..]) == GotList(trees, tokens[q..])
    ensures ReadPostfix(tokens[p..]) == PostfixTail(Call(tokens[p].name, trees), tokens[q..])
  {
    hide ReadArgs, PostfixTail;
    assert tokens[p..][2..] == tokens[p + 2..];
  }

  // ------------------------------------------------------------ what a refused source reads as

  lemma Outside(fields: string, lanes: nat, i: nat)
    requires i < |fields|
    ensures Position(fields[i], "xyzw") >= lanes ==> !InFamily(fields, "xyzw", lanes)
    ensures Position(fields[i], "rgba") >= lanes ==> !InFamily(fields, "rgba", lanes)
  {
    hide Position;
    assert fields[i] in fields;
  }

  lemma Inside(fields: string, lanes: nat)
    ensures (forall j | 0 <= j < |fields| :: Position(fields[j], "xyzw") < lanes) ==> InFamily(fields, "xyzw", lanes)
    ensures (forall j | 0 <= j < |fields| :: Position(fields[j], "rgba") < lanes) ==> InFamily(fields, "rgba", lanes)
  {
    hide Position;
  }

  lemma GroupBad(tokens: seq<Tok>, p: nat, env: Env)
    requires p < |tokens| && tokens[p] == LParen && Refused(ReadSum(tokens[p + 1..]), tokens, p + 1, env)
    ensures Refused(ReadPostfix(tokens[p..]), tokens, p, env)
  {
    hide ReadSum, PostfixTail, Check, Bent;
    var ts := tokens[p..];
    assert ts[1..] == tokens[p + 1..];
    var r, a := ReadSum(tokens[p + 1..]), ReadAtom(ts);
    if a.Got? {
      var f := PostfixTail(a.t, a.rest);
      if !Bad(r, env) {
        if f.Got? { BentGrows(tokens, p + 1, |tokens| - |r.rest|, p, |tokens| - |f.rest|); }
      } else if !Subscriptable(r.t, env) {
        PostfixBad(r.t, a.rest, env);
      } else if a.rest == [] || a.rest[0] != LBracket {
        PostfixBare(r.t, a.rest, env);
      } else {
        GroupSubscript(tokens, p, env);
      }
    }
  }

  lemma GroupSubscript(tokens: seq<Tok>, p: nat, env: Env)
    requires p < |tokens| && ReadSum(tokens[p + 1..]).Got? && ReadSum(tokens[p + 1..]).t.Var?
    requires var rest := ReadSum(tokens[p + 1..]).rest; |rest| >= 2 && rest[0] == RParen && rest[1] == LBracket
    ensures var r := ReadSum(tokens[p + 1..]); Refused(PostfixTail(r.t, r.rest[1..]), tokens, p, env)
  {
    hide ReadSum, Check;
    var r := ReadSum(tokens[p + 1..]);
    VariableRead(tokens[p + 1..]);
    var q := |tokens| - |r.rest|;
    assert tokens[q] == r.rest[0] && tokens[q + 1] == r.rest[1];
    BracketTaken(r.t, r.rest[1..]);
  }

  lemma BracketTaken(acc: Tree, ts: seq<Tok>)
    requires ts != [] && ts[0] == LBracket
    ensures PostfixTail(acc, ts).Got? ==> |PostfixTail(acc, ts).rest| < |ts|
  {
    hide ReadSum;
  }

  lemma GroupOpen(tokens: seq<Tok>, p: nat, t: Tree, q: nat, env: Env)
    requires p + 1 <= q < |tokens| && tokens[p] == LParen && tokens[q] != RParen
    requires ReadSum(tokens[p + 1..]) == Got(t, tokens[q..])
    ensures Bad(ReadPostfix(tokens[p..]), env)
  {
    hide ReadSum, PostfixTail, Check;
    assert tokens[p..][1..] == tokens[p + 1..];
  }

  /** A name that is unknown or is called has no type. */
  lemma NameBad(tokens: seq<Tok>, p: nat, env: Env)
    requires p + 1 < |tokens| && tokens[p].Name? && TypeLanes(tokens[p].name).None?
    ensures tokens[p + 1] == LParen || tokens[p].name !in env.symbols ==> Bad(ReadPostfix(tokens[p..]), env)
  {
    hide ReadArgs, PostfixTail, TypeLanes;
    var r := ReadAtom(tokens[p..]);
    if r.Got? && (tokens[p + 1] == LParen || tokens[p].name !in env.symbols) { PostfixBad(r.t, r.rest, env); }
  }

  /** An array is refused unless the vertex index, and nothing else, is its subscript. */
  lemma ArrayBad(tokens: seq<Tok>, p: nat, env: Env)
    requires p + 1 < |tokens| && tokens[p].Name? && Subscriptable(Var(tokens[p].name), env) && tokens[p + 1] != LParen
    requires tokens[|tokens| - 1] == End
    ensures VertexIndexed(tokens, p, env) || Refused(ReadPostfix(tokens[p..]), tokens, p, env)
  {
    hide ReadSum, PostfixTail, ReadPostfix, Bent;
    NameReads(tokens, p);
    var a := Var(tokens[p].name);
    if tokens[p + 1] != LBracket {
      PostfixBare(a, tokens[p + 1..], env);
    } else if !VertexIndexed(tokens, p, env) {
      assert tokens[p + 1..][1..] == tokens[p + 2..];
      var i := ReadSum(tokens[p + 2..]);
      if i.Fail? || i.rest == [] || i.rest[0] != RBracket {
        NoSubscript(a, tokens[p + 1..]);
      } else {
        SubscriptOpen(a, tokens[p + 1..], i.t, i.rest);
        if Check(Index(a, i.t), env).None? {
          PostfixBad(Index(a, i.t), i.rest[1..], env);
        } else {
          VariableRead(tokens[p + 2..]);
          var f := PostfixTail(Index(a, i.t), i.rest[1..]);
          if f.Got? { BentSubscript(tokens, p, |tokens| - |f.rest|); }
        }
      }
    }
  }

  predicate VertexIndexed(tokens: seq<Tok>, p: nat, env: Env) {
    && p + 3 < |tokens| && tokens[p + 1] == LBracket && tokens[p + 2].Name? && tokens[p + 3] == RBracket
    && tokens[p + 2].name in env.symbols && env.symbols[tokens[p + 2].name].vertexId && env.vertexStage
  }

  lemma NoSubscript(acc: Tree, ts: seq<Tok>)
    requires ts != [] && ts[0] == LBracket && var i := ReadSum(ts[1..]);
             i.Fail? || i.rest == [] || i.rest[0] != RBracket
    ensures PostfixTail(acc, ts).Fail?
  {
    hide ReadSum;
  }

  lemma BentSubscript(tokens: seq<Tok>, p: nat, end: nat)
    requires p + 2 < |tokens| && tokens[p + 1] == LBracket && tokens[p + 2] == LParen && p + 1 < end
    ensures Bent(tokens, p, end)
  {
    assert tokens[p + 1] == LBracket;
  }

  lemma TidyName(tokens: seq<Tok>, p: nat)
    requires p < |tokens| && tokens[p] != LBracket
    ensures !Bent(tokens, p, p + 1)
    ensures p + 3 < |tokens| && tokens[p].Name? && tokens[p + 2].Name? && tokens[p + 3] != LBracket ==>
              !Bent(tokens, p, p + 4)
  {
  }

  lemma TidyJust(tokens: seq<Tok>, p: nat)
    ensures !Bent(tokens, p, p)
  {
  }

  lemma TidyMore(tokens: seq<Tok>, a: nat, b: nat)
    requires b < |tokens| && tokens[b] != LBracket && !Bent(tokens, a, b)
    ensures !Bent(tokens, a, b + 1)
  {
  }

  lemma TidyWrap(tokens: seq<Tok>, p: nat, b: nat)
    requires p < b < |tokens| && tokens[p] != LBracket && !Bent(tokens, p + 1, b)
    ensures !Bent(tokens, p, b) && (tokens[b] != LBracket ==> !Bent(tokens, p, b + 1))
  {
  }

  lemma TidyJoin(tokens: seq<Tok>, a: nat, b: nat, c: nat)
    requires !Bent(tokens, a, b) && !Bent(tokens, b, c)
    ensures !Bent(tokens, a, c)
  {
  }

  lemma TypeAlone(tokens: seq<Tok>, p: nat, env: Env)
    requires p + 1 < |tokens| && tokens[p].Name? && TypeLanes(tokens[p].name).Some? && tokens[p + 1] != LParen
    ensures Bad(ReadPostfix(tokens[p..]), env)
  {
    hide PostfixTail, TypeLanes;
    NameReads(tokens, p);
    PostfixBad(Var(tokens[p].name), tokens[p + 1..], env);
  }

  lemma CallBad(tokens: seq<Tok>, p: nat, env: Env)
    requires p + 1 < |tokens| && tokens[p].Name? && tokens[p + 1] == LParen
    requires RefusedList(ReadArgs(tokens[p + 2..]), tokens, p + 2, env)
    ensures Refused(ReadPostfix(tokens[p..]), tokens, p, env)
  {
    hide ReadArgs, PostfixTail, ReadPostfix, Bent, Check;
    assert tokens[p..][2..] == tokens[p + 2..];
    var r := ReadArgs(tokens[p + 2..]);
    if r.FailList? {
      NoCall(tokens[p..]);
    } else {
      var call := Call(tokens[p].name, r.ts);
      CallReadsAny(tokens[p..], r.ts, r.rest);
      var f := PostfixTail(call, r.rest);
      if |r.ts| > 4 || exists i | 0 <= i < |r.ts| :: Check(r.ts[i], env).None? {
        UntypedCall(tokens[p].name, r.ts, env);
        PostfixBad(call, r.rest, env);
      } else if f.Got? {
        BentGrows(tokens, p + 2, |tokens| - |r.rest|, p, |tokens| - |f.rest|);
      }
    }
  }

  lemma NoCall(ts: seq<Tok>)
    requires |ts| > 1 && ts[0].Name? && ts[1] == LParen && ReadArgs(ts[2..]).FailList?
    ensures ReadPostfix(ts).Fail?
  {
    hide ReadArgs;
  }

  lemma CallReadsAny(ts: seq<Tok>, trees: seq<Tree>, rest: seq<Tok>)
    requires |ts| > 1 && ts[0].Name? && ts[1] == LParen && ReadArgs(ts[2..]) == GotList(trees, rest)
    ensures ReadPostfix(ts) == PostfixTail(Call(ts[0].name, trees), rest)
  {
    hide ReadArgs, PostfixTail;
  }

  lemma ArgumentBad(tokens: seq<Tok>, from: nat, p: nat, seen: seq<Tree>, env: Env)
    requires from <= p <= |tokens| && Refused(ReadSum(tokens[p..]), tokens, p, env)
    ensures RefusedList(Prepend(seen, ReadArgs(tokens[p..])), tokens, from, env)
  {
    hide ReadSum, Check, Bent;
    var s, r := ReadSum(tokens[p..]), ReadArgs(tokens[p..]);
    if r.GotList? {
      if Bad(s, env) {
        assert r.ts[0] == s.t;
        assert (seen + r.ts)[|seen|] == r.ts[0];
      } else {
        BentGrows(tokens, p, |tokens| - |s.rest|, from, |tokens| - |r.rest|);
      }
    }
  }

  lemma ArgumentOpen(tokens: seq<Tok>, from: nat, p: nat, t: Tree, q: nat, seen: seq<Tree>, env: Env)
    requires p <= q < |tokens| && ReadSum(tokens[p..]) == Got(t, tokens[q..]) && tokens[q] != RParen
    requires tokens[q] != Comma
    ensures RefusedList(Prepend(seen, ReadArgs(tokens[p..])), tokens, from, env)
  {
    hide ReadSum;
  }

  lemma FifthArgument(seen: seq<Tree>, tokens: seq<Tok>, from: nat, p: nat, env: Env)
    requires |seen| == 4 && p <= |tokens|
    ensures RefusedList(Prepend(seen, ReadArgs(tokens[p..])), tokens, from, env)
  {
    hide ReadSum, Bent;
    var r := ReadArgs(tokens[p..]);
    assert r.GotList? ==> |r.ts| >= 1;
  }

  lemma NoAtom(ts: seq<Tok>, env: Env)
    requires ts != [] && ts[0] != LParen && !ts[0].Literal? && !ts[0].Name?
    ensures Bad(ReadPostfix(ts), env)
  {
  }

  lemma NoField(t: Tree, ts: seq<Tok>, env: Env)
    requires |ts| >= 2 && ts[0] == Dot && !ts[1].Name?
    ensures Bad(PostfixTail(t, ts), env)
  {
  }

  lemma LanesOf(e: Expr, t: Tree, env: Env)
    requires Faithful(e, t, env) && EnvOk(env)
    ensures e.attr.lanes <= 4
  {
    hide EnvOk, Reads, Check;
    LanesBound(t, env);
  }

  lemma FieldBad(e: Expr, t: Tree, fields: string, ts: seq<Tok>, env: Env)
    requires Faithful(e, t, env) && !GoodSwizzle(fields, e.attr.lanes)
    ensures Bad(PostfixTail(Field(t, fields), ts), env)
  {
    hide Reads, GoodSwizzle, PostfixTail;
    PostfixBad(Field(t, fields), ts, env);
  }

  /** After the swizzles: the operand is complete, or a subscript follows that nothing can take. */
  lemma AfterOperand(tokens: seq<Tok>, start: nat, e: Expr, t: Tree, pos: nat, env: Env)
    requires start < pos < |tokens| && tokens[pos] != Dot && Faithful(e, t, env)
    ensures tokens[pos] != LBracket ==> PostfixTail(t, tokens[pos..]) == Got(t, tokens[pos..])
    ensures tokens[pos] == LBracket ==> Bad(PostfixTail(t, tokens[pos..]), env)
  {
    hide Bad, Reads;
    if tokens[pos] == LBracket { BracketBad(t, tokens[pos..], env); }
  }

  lemma SignBad(tokens: seq<Tok>, p: nat, env: Env)
    requires p < |tokens| && (tokens[p] == Operator(Add) || tokens[p] == Operator(Sub))
    ensures Refused(ReadUnary(tokens[p + 1..]), tokens, p + 1, env) ==> Refused(ReadUnary(tokens[p..]), tokens, p, env)
  {
    hide ReadPostfix, Bent;
    assert tokens[p..][1..] == tokens[p + 1..];
    var r := ReadUnary(tokens[p + 1..]);
    if r.Got? && Bent(tokens, p + 1, |tokens| - |r.rest|) {
      BentGrows(tokens, p + 1, |tokens| - |r.rest|, p, |tokens| - |r.rest|);
    }
  }

  lemma SignUntyped(tokens: seq<Tok>, p: nat, e: Expr, t: Tree, q: nat, env: Env)
    requires p < q <= |tokens| && (tokens[p] == Operator(Add) || tokens[p] == Operator(Sub)) && Faithful(e, t, env)
    requires e.attr.lanes == 0
    ensures ReadUnary(tokens[p + 1..]) == Got(t, tokens[q..]) ==> Bad(ReadUnary(tokens[p..]), env)
  {
    hide ReadPostfix, Reads;
    assert tokens[p..][1..] == tokens[p + 1..];
  }

  lemma BinaryBad(op: Op, e: Expr, t: Tree, f: Expr, u: Tree, env: Env)
    requires Faithful(e, t, env) && Faithful(f, u, env) && CheckBinary(op, e.attr, f.attr, env).None?
    ensures Check(Bin(op, t, u), env).None?
  {
    hide Reads, CheckBinary;
  }

  /** `(a)[i]`, as much an expression as `a[i]`, is refused. */
  lemma ParenthesizedArray(env: Env, a: string, i: string)
    requires Check(Index(Var(a), Var(i)), env).Some?
    ensures var source := [LParen, Name(a), RParen, LBracket, Name(i), RBracket, Semicolon, End];
            ReadSum(source) == Got(Index(Var(a), Var(i)), [Semicolon, End]) && Refused(ReadSum(source), source, 0, env)
  {
    var source := [LParen, Name(a), RParen, LBracket, Name(i), RBracket, Semicolon, End];
    GroupedRead(source, a, i);
    assert source[3] == LBracket && source[2] == RParen;
  }

  lemma GroupedRead(source: seq<Tok>, a: string, i: string)
    requires source == [LParen, Name(a), RParen, LBracket, Name(i), RBracket, Semicolon, End]
    ensures ReadSum(source) == Got(Index(Var(a), Var(i)), [Semicolon, End])
  {
    hide ReadSum, ReadPostfix, PostfixTail, ReadUnary, ReadAtom, Reads;
    ReadsName(a);
    ReadsName(i);
    assert source[1..] == [Name(a)] + source[2..] && source[4..] == [Name(i)] + source[5..];
    ReadsSum([Name(a)], Var(a), source[2..]);
    ReadsSum([Name(i)], Var(i), source[5..]);
    assert source[0..] == source;
    GroupReads(source, 0, Var(a), 2);
    assert source[3..][1..] == source[4..] && source[5..][1..] == source[6..];
    SubscriptOpen(Var(a), source[3..], Var(i), source[5..]);
    ClosedTail(Index(Var(a), Var(i)), source[6..]);
    PlainSum(source, Index(Var(a), Var(i)), source[6..]);
  }

  lemma PlainSum(ts: seq<Tok>, t: Tree, rest: seq<Tok>)
    requires ReadPostfix(ts) == Got(t, rest) && ts != [] && !ts[0].Operator? && rest != [] && !rest[0].Operator?
    ensures ReadSum(ts) == Got(t, rest)
  {
    hide ReadPostfix;
    assert ReadUnary(ts) == Got(t, rest);
    assert ReadProduct(ts) == Got(t, rest);
  }

  // ------------------------------------------------------------ the names an entry function binds

  /** A bare GLSL name: the parameter block and every local. */
  lemma NameSymbol(n: string, lanes: nat, isArray: bool, vertexId: bool)
    requires lanes <= 4
    ensures SymbolOk(Symbol(lanes, isArray, vertexId, [Name(n)], Var(n)))
  {
    hide ReadPostfix;
    ReadsName(n);
    forall rest ensures ReadAtom([Name(n)] + [LBracket] + rest) == Got(Var(n), [LBracket] + rest) {
      var ts := [Name(n)] + [LBracket] + rest;
      assert ts[1] == LBracket && ts[1..] == [LBracket] + rest;
    }
  }

  lemma CallSymbol(f: string, codes: seq<seq<Tok>>, ts: seq<Tree>, lanes: nat, vertexId: bool)
    requires lanes <= 4 && |codes| == |ts| > 0 && forall i | 0 <= i < |codes| :: Stands(codes[i], ts[i])
    ensures SymbolOk(Symbol(lanes, false, vertexId, [Name(f), LParen] + Joined(codes), Call(f, ts)))
  {
    hide Reads, ReadAtom, Stands;
    StandsCall(f, codes, ts);
  }

  /** `uint(gl_VertexID)` */
  lemma VertexIdSymbol()
    ensures SymbolOk(Symbol(0, false, true, [Name("uint"), LParen, Name("gl_VertexID"), RParen],
                            Call("uint", [Var("gl_VertexID")])))
  {
    hide Reads, Stands, SymbolOk;
    ReadsName("gl_VertexID");
    ReadsStands([Name("gl_VertexID")], Var("gl_VertexID"));
    CallSymbol("uint", [[Name("gl_VertexID")]], [Var("gl_VertexID")], 0, true);
    assert [Name("uint"), LParen] + Joined([[Name("gl_VertexID")]]) ==
           [Name("uint"), LParen, Name("gl_VertexID"), RParen];
  }

  const FRAGMENT_POSITION: seq<seq<Tok>> :=
    [[Name("gl_FragCoord"), Dot, Name("x")],
     [Name("mellow_viewport"), Dot, Name("y")] + [Operator(Sub)] + [Name("gl_FragCoord"), Dot, Name("y")],
     [Name("gl_FragCoord"), Dot, Name("zw")]]

  function FragmentPositionTrees(): seq<Tree> {
    [Field(Var("gl_FragCoord"), "x"),
     Bin(Sub, Field(Var("mellow_viewport"), "y"), Field(Var("gl_FragCoord"), "y")),
     Field(Var("gl_FragCoord"), "zw")]
  }

  /** `vec4(gl_FragCoord.x, mellow_viewport.y - gl_FragCoord.y, gl_FragCoord.zw)` */
  lemma FragmentPositionSymbol()
    ensures SymbolOk(Symbol(4, false, false, [Name("vec4"), LParen] + Joined(FRAGMENT_POSITION),
                            Call("vec4", FragmentPositionTrees())))
  {
    hide Reads, Stands, SymbolOk;
    ReadsMember("gl_FragCoord", "x");
    ReadsMember("gl_FragCoord", "y");
    ReadsMember("gl_FragCoord", "zw");
    ReadsMember("mellow_viewport", "y");
    ReadsStands([Name("gl_FragCoord"), Dot, Name("x")], Field(Var("gl_FragCoord"), "x"));
    ReadsStands([Name("gl_FragCoord"), Dot, Name("zw")], Field(Var("gl_FragCoord"), "zw"));
    InfixStands(Sub, [Name("mellow_viewport"), Dot, Name("y")], Field(Var("mellow_viewport"), "y"),
                [Name("gl_FragCoord"), Dot, Name("y")], Field(Var("gl_FragCoord"), "y"));
    CallSymbol("vec4", FRAGMENT_POSITION, FragmentPositionTrees(), 4, false);
  }

  /** In a vertex shader `gl_VertexID` is an int; as the symbol is read, it is the vertex number as a uint. */
  lemma VertexIdMeans(scope: map<string, Type>, store: map<string, Value>, id: int)
    requires "gl_VertexID" in scope && scope["gl_VertexID"] == IntType
    requires "gl_VertexID" in store && store["gl_VertexID"] == Whole(id)
    ensures var s := Symbol(0, false, true, [Name("uint"), LParen, Name("gl_VertexID"), RParen],
                            Call("uint", [Var("gl_VertexID")]));
            SymbolTyped(s, scope) && SymbolMeans(s, Whole(id), store)
  {
    CallType("uint", [Var("gl_VertexID")], scope, [IntType]);
    CallValue(Glsl, "uint", [Var("gl_VertexID")], store, [Whole(id)]);
  }

  /** Metal counts the rows of the viewport from the top, GLSL from the bottom: the symbol turns one into the other. */
  lemma FragmentPositionMeans(scope: map<string, Type>, store: map<string, Value>, x: real, y: real, z: real, w: real,
                              width: real, height: real)
    requires "gl_FragCoord" in scope && scope["gl_FragCoord"] == Vec4
    requires "mellow_viewport" in scope && scope["mellow_viewport"] == Vec2
    requires "gl_FragCoord" in store && store["gl_FragCoord"] == Floats([x, y, z, w])
    requires "mellow_viewport" in store && store["mellow_viewport"] == Floats([width, height])
    ensures var s := Symbol(4, false, false, [Name("vec4"), LParen] + Joined(FRAGMENT_POSITION),
                            Call("vec4", FragmentPositionTrees()));
            SymbolTyped(s, scope) && SymbolMeans(s, Floats([x, height - y, z, w]), store)
  {
    hide TypeOf, ValueOf, FragmentPositionTrees;
    var types, values := [FloatType, FloatType, Vec2], [Floats([x]), Floats([height - y]), Floats([z, w])];
    FragmentTypes(scope);
    FragmentValues(store, x, y, z, w, width, height);
    ThreeComponents(FloatType, FloatType, Vec2);
    CallType("vec4", FragmentPositionTrees(), scope, types);
    ThreeParts([x], [height - y], [z, w]);
    assert [x] + [height - y] + [z, w] == [x, height - y, z, w];
    CallValue(Glsl, "vec4", FragmentPositionTrees(), store, values);
  }

  lemma FragmentTypes(scope: map<string, Type>)
    requires "gl_FragCoord" in scope && scope["gl_FragCoord"] == Vec4
    requires "mellow_viewport" in scope && scope["mellow_viewport"] == Vec2
    ensures var ts := FragmentPositionTrees();
            && |ts| == 3 && TypeOf(ts[0], scope) == TypeOf(ts[1], scope) == Some(FloatType)
            && TypeOf(ts[2], scope) == Some(Vec2)
  {
    hide SwizzleType;
    LetterTypes();
  }

  lemma LetterTypes()
    ensures SwizzleType("x", 4) == SwizzleType("y", 4) == SwizzleType("y", 2) == Some(FloatType)
    ensures SwizzleType("zw", 4) == Some(Vec2)
  {
  }

  lemma FragmentValues(store: map<string, Value>, x: real, y: real, z: real, w: real, width: real, height: real)
    requires "gl_FragCoord" in store && store["gl_FragCoord"] == Floats([x, y, z, w])
    requires "mellow_viewport" in store && store["mellow_viewport"] == Floats([width, height])
    ensures var ts := FragmentPositionTrees();
            && |ts| == 3 && ValueOf(Glsl, ts[0], store) == Some(Floats([x]))
            && ValueOf(Glsl, ts[1], store) == Some(Floats([height - y]))
            && ValueOf(Glsl, ts[2], store) == Some(Floats([z, w]))
  {
    hide Pick, Calculate;
    OneLetter([x, y, z, w], 'x', 0);
    OneLetter([x, y, z, w], 'y', 1);
    OneLetter([width, height], 'y', 1);
    TwoLetters([x, y, z, w], "zw", 2, 3);
    Difference(height, y);
  }

  lemma ThreeComponents(a: Type, b: Type, c: Type)
    requires Scalar(a) && Scalar(b) && !Scalar(c)
    ensures Components([a, b, c]) == 2 + Width(c)
  {
    assert [a][..0] == [] && [a, b][..1] == [a] && [a, b, c][..2] == [a, b];
    assert Components([a]) == 1;
    assert Components([a, b]) == 2;
  }

  lemma ThreeParts(a: seq<real>, b: seq<real>, c: seq<real>)
    ensures AllParts([Floats(a), Floats(b), Floats(c)]) == Some(a + b + c)
  {
    var x, y, z := Floats(a), Floats(b), Floats(c);
    assert [x][..0] == [] && [x, y][..1] == [x] && [x, y, z][..2] == [x, y] && [] + a == a;
    assert AllParts([x]) == Some(a);
    assert AllParts([x, y]) == Some(a + b);
  }

  lemma OneLetter(v: seq<real>, c: char, k: nat)
    requires k < |v| && Component(c) == Some(k)
    ensures Pick(Floats(v), [c]) == Some(Floats([v[k]]))
  {
    var fields := [c];
    assert fields[0] in fields;
    assert Pick(Floats(v), fields).value.v == [v[k]];
  }

  lemma TwoLetters(v: seq<real>, fields: string, j: nat, k: nat)
    requires j < |v| && k < |v| && |fields| == 2
    requires Component(fields[0]) == Some(j) && Component(fields[1]) == Some(k)
    ensures Pick(Floats(v), fields) == Some(Floats([v[j], v[k]]))
  {
    hide Component;
    forall c | c in fields ensures Component(c).Some? && Component(c).value < |v| {
      assert c == fields[0] || c == fields[1];
    }
    assert Pick(Floats(v), fields).value.v == [v[j], v[k]];
  }

  lemma Difference(a: real, b: real)
    ensures Calculate(Sub, Floats([a]), Floats([b])) == Some(Floats([a - b]))
  {
    assert Componentwise(Sub, [a][1..], [b][1..]) == Some([]);
    assert [a - b] + [] == [a - b];
    assert Componentwise(Sub, [a], [b]) == Some([a - b]);
  }
}
