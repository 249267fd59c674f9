/**
 Expressions as a reader of the shading language sees them: sums of products of prefixed,
 postfixed atoms, operators grouping to the left. One reader serves both the Metal source and
 the emitted GLSL.
 */
module ShaderGrammar {

  datatype Op = Add | Sub | Mul | Div
  datatype Tok =
    | LParen | RParen | LBracket | RBracket | Comma | Dot | Semicolon | End
    | Operator(op: Op)
    | Literal(isFloat: bool, text: string, value: real)
    | Name(name: string)
    | Other(text: string)

  datatype Tree =
    | Number(isFloat: bool, text: string, value: real)
    | Var(name: string)
    | Pos(e: Tree)
    | Neg(e: Tree)
    | Bin(op: Op, l: Tree, r: Tree)
    | Call(name: string, args: seq<Tree>)
    | Index(e: Tree, i: Tree)
    | Field(e: Tree, fields: string)

  datatype Read = Fail | Got(t: Tree, rest: seq<Tok>)
  datatype ReadList = FailList | GotList(ts: seq<Tree>, rest: seq<Tok>)

  predicate Additive(ts: seq<Tok>) {
    ts != [] && ts[0].Operator? && (ts[0].op == Add || ts[0].op == Sub)
  }

  predicate Multiplicative(ts: seq<Tok>) {
    ts != [] && ts[0].Operator? && (ts[0].op == Mul || ts[0].op == Div)
  }

  /** `ts` does not go on with a subscript, a member or an argument list. */
  predicate Closed(ts: seq<Tok>) {
    ts == [] || ts[0] !in {LParen, LBracket, Dot}
  }

  function ReadSum(ts: seq<Tok>): (r: Read)
    ensures r.Got? ==> |r.rest| < |ts|
    decreases |ts|, 6
  {
    match ReadProduct(ts)
    case Fail => Fail
    case Got(t, rest) => SumTail(t, rest)
  }

  function SumTail(acc: Tree, ts: seq<Tok>): (r: Read)
    ensures r.Got? ==> |r.rest| <= |ts|
    decreases |ts|, 5
  {
    if !Additive(ts) then Got(acc, ts)
    else match ReadProduct(ts[1..])
      case Fail => Fail
      case Got(t, rest) => SumTail(Bin(ts[0].op, acc, t), rest)
  }

  function ReadProduct(ts: seq<Tok>): (r: Read)
    ensures r.Got? ==> |r.rest| < |ts| && !Multiplicative(r.rest)
    decreases |ts|, 4
  {
    match ReadUnary(ts)
    case Fail => Fail
    case Got(t, rest) => ProductTail(t, rest)
  }

  function ProductTail(acc: Tree, ts: seq<Tok>): (r: Read)
    ensures r.Got? ==> |r.rest| <= |ts| && !Multiplicative(r.rest)
    decreases |ts|, 3
  {
    if !Multiplicative(ts) then Got(acc, ts)
    else match ReadUnary(ts[1..])
      case Fail => Fail
      case Got(t, rest) => ProductTail(Bin(ts[0].op, acc, t), rest)
  }

  function ReadUnary(ts: seq<Tok>): (r: Read)
    ensures r.Got? ==> |r.rest| < |ts|
    decreases |ts|, 2
  {
    if Additive(ts) then
      match ReadUnary(ts[1..])
      case Fail => Fail
      case Got(t, rest) => Got(if ts[0].op == Add then Pos(t) else Neg(t), rest)
    else ReadPostfix(ts)
  }

  function ReadPostfix(ts: seq<Tok>): (r: Read)
    ensures r.Got? ==> |r.rest| < |ts|
    decreases |ts|, 1
  {
    match ReadAtom(ts)
    case Fail => Fail
    case Got(t, rest) => PostfixTail(t, rest)
  }

  function PostfixTail(acc: Tree, ts: seq<Tok>): (r: Read)
    ensures r.Got? ==> |r.rest| <= |ts|
    decreases |ts|, 0
  {
    if |ts| >= 2 && ts[0] == Dot && ts[1].Name? then PostfixTail(Field(acc, ts[1].name), ts[2..])
    else if ts != [] && ts[0] == LBracket then
      match ReadSum(ts[1..])
      case Fail => Fail
      case Got(i, rest) => if rest != [] && rest[0] == RBracket then PostfixTail(Index(acc, i), rest[1..]) else Fail
    else if ts != [] && ts[0] == Dot then Fail
    else Got(acc, ts)
  }

  function ReadAtom(ts: seq<Tok>): (r: Read)
    ensures r.Got? ==> |r.rest| < |ts|
    decreases |ts|, 0
  {
    if ts == [] then Fail
    else match ts[0]
      case LParen =>
        (match ReadSum(ts[1..])
         case Fail => Fail
         case Got(t, rest) => if rest != [] && rest[0] == RParen then Got(t, rest[1..]) else Fail)
      case Literal(f, text, v) => Got(Number(f, text, v), ts[1..])
      case Name(n) =>
        if |ts| > 1 && ts[1] == LParen then
          match ReadArgs(ts[2..])
          case FailList => Fail
          case GotList(args, rest) => Got(Call(n, args), rest)
        else Got(Var(n), ts[1..])
      case _ => Fail
  }

  /** One or more expressions and the closing parenthesis. */
  function ReadArgs(ts: seq<Tok>): (r: ReadList)
    ensures r.GotList? ==> |r.rest| < |ts|
    decreases |ts|, 7
  {
    match ReadSum(ts)
    case Fail => FailList
    case Got(t, rest) =>
      if rest != [] && rest[0] == RParen then GotList([t], rest[1..])
      else if rest != [] && rest[0] == Comma then
        match ReadArgs(rest[1..])
        case FailList => FailList
        case GotList(more, after) => GotList([t] + more, after)
      else FailList
  }

  // ------------------------------------------------------------ code that reads back

  /** Wherever it stands as an operand, `code` reads as `t`. */
  ghost predicate Reads(code: seq<Tok>, t: Tree) {
    && code != [] && !code[0].Operator?
    && forall rest | Closed(rest) :: ReadPostfix(code + rest) == Got(t, rest)
  }

  /** As an operand, followed by anything that cannot extend it. */
  lemma ReadsUnary(code: seq<Tok>, t: Tree, rest: seq<Tok>)
    requires Reads(code, t) && Closed(rest)
    ensures ReadUnary(code + rest) == Got(t, rest)
  {
    assert (code + rest)[0] == code[0];
  }

  /** As a whole expression, followed by something that ends it. */
  lemma ReadsSum(code: seq<Tok>, t: Tree, rest: seq<Tok>)
    requires Reads(code, t) && Closed(rest) && !Additive(rest) && !Multiplicative(rest)
    ensures ReadSum(code + rest) == Got(t, rest)
  {
    ReadsUnary(code, t, rest);
    assert ProductTail(t, rest) == Got(t, rest);
    assert SumTail(t, rest) == Got(t, rest);
  }

  /** Parentheses around something that reads as a sum make an operand. */
  lemma ReadsParens(inner: seq<Tok>, t: Tree)
    requires forall rest :: ReadSum(inner + [RParen] + rest) == Got(t, [RParen] + rest)
    ensures Reads([LParen] + inner + [RParen], t)
  {
    hide ReadSum;
    var code := [LParen] + inner + [RParen];
    forall rest | Closed(rest)
      ensures ReadPostfix(code + rest) == Got(t, rest)
    {
      assert (code + rest)[1..] == inner + [RParen] + rest;
      assert ([RParen] + rest)[1..] == rest;
      assert ReadAtom(code + rest) == Got(t, rest);
    }
  }

  lemma ReadsLiteral(f: bool, text: string, v: real)
    ensures Reads([Literal(f, text, v)], Number(f, text, v))
  {
    var code := [Literal(f, text, v)];
    forall rest | Closed(rest)
      ensures ReadPostfix(code + rest) == Got(Number(f, text, v), rest)
    {
      assert (code + rest)[1..] == rest;
    }
  }

  lemma ReadsName(n: string)
    ensures Reads([Name(n)], Var(n))
  {
    var code := [Name(n)];
    forall rest | Closed(rest)
      ensures ReadPostfix(code + rest) == Got(Var(n), rest)
    {
      assert (code + rest)[1..] == rest;
      assert |code + rest| > 1 ==> (code + rest)[1] == rest[0];
    }
  }

  /** `( l op r )` reads as the operator on the two. */
  lemma ReadsBinary(op: Op, l: seq<Tok>, tl: Tree, r: seq<Tok>, tr: Tree)
    requires Reads(l, tl) && Reads(r, tr)
    ensures Reads([LParen] + l + [Operator(op)] + r + [RParen], Bin(op, tl, tr))
  {
    var inner := l + [Operator(op)] + r;
    forall rest
      ensures ReadSum(inner + [RParen] + rest) == Got(Bin(op, tl, tr), [RParen] + rest)
    {
      var after := [Operator(op)] + r + [RParen] + rest;
      assert inner + [RParen] + rest == l + after;
      ReadsUnary(l, tl, after);
      var tail := [RParen] + rest;
      assert after[1..] == r + tail;
      ReadsUnary(r, tr, tail);
      InfixReads(op, tl, after, tr, tail);
    }
    ReadsParens(inner, Bin(op, tl, tr));
    assert [LParen] + inner + [RParen] == [LParen] + l + [Operator(op)] + r + [RParen];
  }

  lemma InfixReads(op: Op, tl: Tree, after: seq<Tok>, tr: Tree, tail: seq<Tok>)
    requires after != [] && after[0] == Operator(op) && ReadUnary(after[1..]) == Got(tr, tail) && !Additive(tail)
    requires !Multiplicative(tail)
    ensures var p := ProductTail(tl, after); p.Got? && SumTail(p.t, p.rest) == Got(Bin(op, tl, tr), tail)
  {
    hide ReadUnary;
    assert ProductTail(tr, tail) == Got(tr, tail);
    assert SumTail(Bin(op, tl, tr), tail) == Got(Bin(op, tl, tr), tail);
    if op == Mul || op == Div {
      assert ProductTail(Bin(op, tl, tr), tail) == Got(Bin(op, tl, tr), tail);
      assert ProductTail(tl, after) == Got(Bin(op, tl, tr), tail);
    } else {
      assert ProductTail(tl, after) == Got(tl, after);
      assert ReadProduct(after[1..]) == Got(tr, tail);
    }
  }

  /** `( - e )` reads as the negation. */
  lemma ReadsNegation(e: seq<Tok>, t: Tree)
    requires Reads(e, t)
    ensures Reads([LParen, Operator(Sub)] + e + [RParen], Neg(t))
  {
    var inner := [Operator(Sub)] + e;
    forall rest
      ensures ReadSum(inner + [RParen] + rest) == Got(Neg(t), [RParen] + rest)
    {
      var tail := [RParen] + rest;
      var ts := inner + [RParen] + rest;
      assert ts[1..] == e + tail;
      ReadsUnary(e, t, tail);
      assert ReadUnary(ts) == Got(Neg(t), tail);
      assert ProductTail(Neg(t), tail) == Got(Neg(t), tail);
      assert SumTail(Neg(t), tail) == Got(Neg(t), tail);
    }
    ReadsParens(inner, Neg(t));
    assert [LParen] + inner + [RParen] == [LParen, Operator(Sub)] + e + [RParen];
  }

  /** `( e ) . fields` reads as the member access. */
  lemma ReadsField(e: seq<Tok>, t: Tree, fields: string)
    requires Reads(e, t)
    ensures Reads([LParen] + e + [RParen, Dot, Name(fields)], Field(t, fields))
  {
    var code := [LParen] + e + [RParen, Dot, Name(fields)];
    forall rest | Closed(rest)
      ensures ReadPostfix(code + rest) == Got(Field(t, fields), rest)
    {
      var member := [Dot, Name(fields)] + rest;
      var tail := [RParen] + member;
      assert (code + rest)[1..] == e + tail;
      ReadsSum(e, t, tail);
      assert tail[1..] == member;
      assert ReadAtom(code + rest) == Got(t, member);
      assert member[2..] == rest;
      assert PostfixTail(Field(t, fields), rest) == Got(Field(t, fields), rest);
    }
  }

  /** `a [ f ( i ) ]` reads as the subscript by a conversion. */
  lemma ReadsIndex(a: seq<Tok>, ta: Tree, f: string, i: seq<Tok>, ti: Tree)
    requires Reads(i, ti) && a != [] && !a[0].Operator? && forall rest ::
              ReadAtom(a + [LBracket] + rest) == Got(ta, [LBracket] + rest)
    ensures Reads(a + [LBracket, Name(f), LParen] + i + [RParen, RBracket], Index(ta, Call(f, [ti])))
  {
    hide ReadPostfix, ReadAtom;
    var code := a + [LBracket, Name(f), LParen] + i + [RParen, RBracket];
    assert code[0] == a[0];
    forall rest | Closed(rest) ensures ReadPostfix(code + rest) == Got(Index(ta, Call(f, [ti])), rest) {
      IndexReads(a, ta, f, i, ti, rest);
    }
  }

  lemma IndexReads(a: seq<Tok>, ta: Tree, f: string, i: seq<Tok>, ti: Tree, rest: seq<Tok>)
    requires Reads(i, ti) && Closed(rest) && forall r :: ReadAtom(a + [LBracket] + r) == Got(ta, [LBracket] + r)
    ensures ReadPostfix(a + [LBracket, Name(f), LParen] + i + [RParen, RBracket] + rest) ==
              Got(Index(ta, Call(f, [ti])), rest)
  {
    hide ReadSum, ReadAtom, PostfixTail, Reads;
    var inside := [Name(f), LParen] + i + [RParen, RBracket] + rest;
    IndexSplit(a, f, i, rest);
    assert ReadAtom(a + [LBracket] + inside) == Got(ta, [LBracket] + inside);
    ConversionReads(f, i, ti, rest);
    SubscriptTail(ta, inside, Call(f, [ti]), rest);
  }

  lemma IndexSplit(a: seq<Tok>, f: string, i: seq<Tok>, rest: seq<Tok>)
    ensures a + [LBracket, Name(f), LParen] + i + [RParen, RBracket] + rest ==
              a + [LBracket] + ([Name(f), LParen] + i + [RParen, RBracket] + rest)
  {
  }

  lemma SubscriptTail(acc: Tree, inside: seq<Tok>, i: Tree, rest: seq<Tok>)
    requires ReadSum(inside) == Got(i, [RBracket] + rest) && Closed(rest)
    ensures PostfixTail(acc, [LBracket] + inside) == Got(Index(acc, i), rest)
  {
    hide ReadSum;
    assert ([LBracket] + inside)[1..] == inside;
    assert ([RBracket] + rest)[1..] == rest;
    assert PostfixTail(Index(acc, i), rest) == Got(Index(acc, i), rest);
  }

  lemma ConversionReads(f: string, i: seq<Tok>, ti: Tree, rest: seq<Tok>)
    requires Reads(i, ti)
    ensures ReadSum([Name(f), LParen] + i + [RParen, RBracket] + rest) == Got(Call(f, [ti]), [RBracket] + rest)
  {
    hide Reads, ReadSum;
    ReadsCall(f, [i], [ti]);
    var call := [Name(f), LParen] + Joined([i]);
    ReadsSum(call, Call(f, [ti]), [RBracket] + rest);
    assert call + ([RBracket] + rest) == [Name(f), LParen] + i + [RParen, RBracket] + rest;
  }

  // ------------------------------------------------------------ argument lists

  /** Codes separated by commas, then the closing parenthesis. */
  function Joined(codes: seq<seq<Tok>>): seq<Tok>
    requires codes != []
  {
    if |codes| == 1 then codes[0] + [RParen] else codes[0] + [Comma] + Joined(codes[1..])
  }

  /** As a whole argument, `code` reads as `t`. */
  ghost predicate Stands(code: seq<Tok>, t: Tree) {
    forall rest | Closed(rest) && !Additive(rest) && !Multiplicative(rest) :: ReadSum(code + rest) == Got(t, rest)
  }

  lemma ReadsStands(code: seq<Tok>, t: Tree)
    requires Reads(code, t)
    ensures Stands(code, t)
  {
    hide Reads, ReadSum;
    forall rest | Closed(rest) && !Additive(rest) && !Multiplicative(rest)
      ensures ReadSum(code + rest) == Got(t, rest)
    {
      ReadsSum(code, t, rest);
    }
  }

  lemma {:induction false} ReadsArgs(codes: seq<seq<Tok>>, ts: seq<Tree>, rest: seq<Tok>)
    requires |codes| == |ts| > 0 && forall i | 0 <= i < |codes| :: Stands(codes[i], ts[i])
    ensures ReadArgs(Joined(codes) + rest) == GotList(ts, rest)
  {
    hide ReadSum, ReadArgs, Stands, Joined;
    var tail := AfterFirst(codes, rest);
    JoinedSplit(codes, rest);
    StandsBefore(codes[0], ts[0], tail);
    if |codes| == 1 {
      LastRead(codes[0] + tail, ts[0], tail);
      assert [ts[0]] == ts;
    } else {
      NextRead(codes[0] + tail, ts[0], tail);
      ReadsArgs(codes[1..], ts[1..], rest);
      assert [ts[0]] + ts[1..] == ts;
    }
  }

  function AfterFirst(codes: seq<seq<Tok>>, rest: seq<Tok>): seq<Tok>
    requires codes != []
  {
    if |codes| == 1 then [RParen] + rest else [Comma] + (Joined(codes[1..]) + rest)
  }

  lemma JoinedSplit(codes: seq<seq<Tok>>, rest: seq<Tok>)
    requires codes != []
    ensures Joined(codes) + rest == codes[0] + AfterFirst(codes, rest)
    ensures AfterFirst(codes, rest)[1..] == if |codes| == 1 then rest else Joined(codes[1..]) + rest
  {
    if |codes| == 1 {
      Regroup(codes[0], [RParen], rest, []);
      assert codes[0] + [RParen] + rest + [] == codes[0] + [RParen] + rest;
      assert [RParen] + (rest + []) == [RParen] + rest;
    } else {
      Regroup(codes[0], [Comma], Joined(codes[1..]), rest);
    }
  }

  lemma Regroup<T>(a: seq<T>, b: seq<T>, c: seq<T>, d: seq<T>)
    ensures a + b + c + d == a + (b + (c + d))
  {
  }

  lemma StandsBefore(code: seq<Tok>, t: Tree, rest: seq<Tok>)
    requires Stands(code, t) && Closed(rest) && !Additive(rest) && !Multiplicative(rest)
    ensures ReadSum(code + rest) == Got(t, rest)
  {
    hide ReadSum;
  }

  lemma LastRead(ts: seq<Tok>, t: Tree, tail: seq<Tok>)
    requires ReadSum(ts) == Got(t, tail) && tail != [] && tail[0] == RParen
    ensures ReadArgs(ts) == GotList([t], tail[1..])
  {
    hide ReadSum;
  }

  lemma NextRead(ts: seq<Tok>, t: Tree, tail: seq<Tok>)
    requires ReadSum(ts) == Got(t, tail) && tail != [] && tail[0] == Comma
    ensures var more := ReadArgs(tail[1..]);
            ReadArgs(ts) == if more.FailList? then FailList else GotList([t] + more.ts, more.rest)
  {
    hide ReadSum;
  }

  lemma CallAtom(f: string, codes: seq<seq<Tok>>, ts: seq<Tree>, rest: seq<Tok>)
    requires |codes| == |ts| > 0 && forall i | 0 <= i < |codes| :: Stands(codes[i], ts[i])
    ensures ReadAtom([Name(f), LParen] + Joined(codes) + rest) == Got(Call(f, ts), rest)
  {
    hide ReadArgs, ReadSum, Stands, Joined;
    var code := [Name(f), LParen] + Joined(codes) + rest;
    assert code[2..] == Joined(codes) + rest;
    ReadsArgs(codes, ts, rest);
  }

  /** A call reads as the call, and stays one in front of a subscript. */
  lemma StandsCall(f: string, codes: seq<seq<Tok>>, ts: seq<Tree>)
    requires |codes| == |ts| > 0 && forall i | 0 <= i < |codes| :: Stands(codes[i], ts[i])
    ensures Reads([Name(f), LParen] + Joined(codes), Call(f, ts))
    ensures forall rest ::
              ReadAtom([Name(f), LParen] + Joined(codes) + [LBracket] + rest) == Got(Call(f, ts), [LBracket] + rest)
  {
    hide ReadAtom, PostfixTail, Stands, Joined, Closed;
    var code := [Name(f), LParen] + Joined(codes);
    forall rest ensures ReadAtom(code + [LBracket] + rest) == Got(Call(f, ts), [LBracket] + rest) {
      assert code + [LBracket] + rest == code + ([LBracket] + rest);
      CallAtom(f, codes, ts, [LBracket] + rest);
    }
    forall rest | Closed(rest) ensures ReadPostfix(code + rest) == Got(Call(f, ts), rest) {
      CallAtom(f, codes, ts, rest);
      ClosedTail(Call(f, ts), rest);
    }
  }

  lemma ClosedTail(t: Tree, ts: seq<Tok>)
    requires Closed(ts)
    ensures PostfixTail(t, ts) == Got(t, ts)
  {
  }

  lemma ReadsCall(f: string, codes: seq<seq<Tok>>, ts: seq<Tree>)
    requires |codes| == |ts| > 0 && forall i | 0 <= i < |codes| :: Reads(codes[i], ts[i])
    ensures Reads([Name(f), LParen] + Joined(codes), Call(f, ts))
  {
    hide Reads, Stands, ReadAtom;
    forall i | 0 <= i < |codes| ensures Stands(codes[i], ts[i]) { ReadsStands(codes[i], ts[i]); }
    StandsCall(f, codes, ts);
  }

  /** `a . x` reads as the member access. */
  lemma ReadsMember(a: string, x: string)
    ensures Reads([Name(a), Dot, Name(x)], Field(Var(a), x))
  {
    var code := [Name(a), Dot, Name(x)];
    forall rest | Closed(rest)
      ensures ReadPostfix(code + rest) == Got(Field(Var(a), x), rest)
    {
      var ts := code + rest;
      assert ts[1] == Dot && ts[1..][2..] == rest;
      assert ReadAtom(ts) == Got(Var(a), ts[1..]);
      assert PostfixTail(Field(Var(a), x), rest) == Got(Field(Var(a), x), rest);
    }
  }

  /** `l op r`, without parentheses, as a whole argument. */
  lemma InfixStands(op: Op, l: seq<Tok>, tl: Tree, r: seq<Tok>, tr: Tree)
    requires Reads(l, tl) && Reads(r, tr)
    ensures Stands(l + [Operator(op)] + r, Bin(op, tl, tr))
  {
    hide Reads;
    forall rest | Closed(rest) && !Additive(rest) && !Multiplicative(rest)
      ensures ReadSum(l + [Operator(op)] + r + rest) == Got(Bin(op, tl, tr), rest)
    {
      var after := [Operator(op)] + r + rest;
      assert l + [Operator(op)] + r + rest == l + after;
      ReadsUnary(l, tl, after);
      assert after[1..] == r + rest;
      ReadsUnary(r, tr, rest);
      InfixReads(op, tl, after, tr, rest);
    }
  }
}
