/** The SQL selection-string builder used for media-store queries: a small
    expression tree rendered with every compound operand parenthesized. */
module Query {
  import opened Wrappers
  import opened Strs

  /** A selection expression. Literal values and `IN` members are held as
      their rendered text. */
  datatype Node =
    | Eq(lhs: Node, rhs: Node)
    | Or(lhs: Node, rhs: Node)
    | And(lhs: Node, rhs: Node)
    | Literal(text: string)
    | In(value: string, values: seq<string>)
    | Not(node: Node)

  /** `Query.ARG`, the bound-argument placeholder. */
  const Arg := "?"

  /** `build`. */
  function Build(n: Node): string {
    match n
    case Eq(l, r) => Build(l) + " = " + Build(r)
    case Or(l, r) => "(" + Build(l) + ") OR (" + Build(r) + ")"
    case And(l, r) => "(" + Build(l) + ") AND (" + Build(r) + ")"
    case Literal(t) => t
    case In(v, vs) => v + " IN (" + Join(vs, ", ") + ")"
    case Not(x) => "NOT (" + Build(x) + ")"
  }

  /** `column eq value`: a column compared with a literal. */
  function ColumnEq(column: string, value: string): (r: Node)
    ensures Build(r) == column + " = " + value
  {
    Eq(Literal(column), Literal(value))
  }

  // ---------------------------------------------------------------------
  // Parentheses balance

  /** Opening minus closing parentheses. */
  function Net(s: string): int
    decreases |s|
  {
    if |s| == 0 then 0
    else Net(s[..|s| - 1]) + (if s[|s| - 1] == '(' then 1 else if s[|s| - 1] == ')' then -1 else 0)
  }

  /** Every prefix closes no more parentheses than it opens, and the whole
      closes them all. */
  ghost predicate Balanced(s: string) {
    Net(s) == 0 && forall k :: 0 <= k <= |s| ==> Net(s[..k]) >= 0
  }

  predicate ParenFree(s: string) {
    '(' !in s && ')' !in s
  }

  lemma {:induction false} NetAppend(a: string, b: string)
    ensures Net(a + b) == Net(a) + Net(b)
    decreases |b|
  {
    if |b| > 0 {
      assert (a + b)[..|a + b| - 1] == a + b[..|b| - 1];
      NetAppend(a, b[..|b| - 1]);
    } else {
      assert a + b == a;
    }
  }

  lemma {:induction false} NetParenFree(s: string)
    requires ParenFree(s)
    ensures Net(s) == 0
    decreases |s|
  {
    if |s| > 0 {
      assert s[|s| - 1] in s;
      assert forall c :: c in s[..|s| - 1] ==> c in s;
      NetParenFree(s[..|s| - 1]);
    }
  }

  lemma {:induction false} ParenFreeBalanced(s: string)
    requires ParenFree(s)
    ensures Balanced(s)
  {
    NetParenFree(s);
    forall k | 0 <= k <= |s|
      ensures Net(s[..k]) >= 0
    {
      assert forall c :: c in s[..k] ==> c in s;
      NetParenFree(s[..k]);
    }
  }

  lemma {:induction false} BalancedConcat(a: string, b: string)
    requires Balanced(a) && Balanced(b)
    ensures Balanced(a + b)
  {
    NetAppend(a, b);
    forall k | 0 <= k <= |a + b|
      ensures Net((a + b)[..k]) >= 0
    {
      if k <= |a| {
        assert (a + b)[..k] == a[..k];
      } else {
        assert (a + b)[..k] == a + b[..k - |a|];
        NetAppend(a, b[..k - |a|]);
      }
    }
  }

  lemma {:induction false} BalancedWrap(a: string)
    requires Balanced(a)
    ensures Balanced("(" + a + ")")
  {
    var w := "(" + a + ")";
    NetAppend("(" + a, ")");
    NetAppend("(", a);
    assert Net("(") == 1 by { assert "("[..0] == ""; }
    assert Net(")") == -1 by { assert ")"[..0] == ""; }
    forall k | 0 <= k <= |w|
      ensures Net(w[..k]) >= 0
    {
      if 1 <= k <= |a| + 1 {
        assert w[..k] == "(" + a[..k - 1];
        NetAppend("(", a[..k - 1]);
      } else if k == |a| + 2 {
        assert w[..k] == w;
      }
    }
  }

  lemma {:induction false} JoinParenFree(parts: seq<string>, sep: string)
    requires ParenFree(sep) && forall i :: 0 <= i < |parts| ==> ParenFree(parts[i])
    ensures ParenFree(Join(parts, sep))
    decreases |parts|
  {
    if |parts| > 1 {
      JoinParenFree(parts[1..], sep);
      var r := Join(parts[1..], sep);
      assert Join(parts, sep) == parts[0] + sep + r;
      assert forall c :: c in parts[0] + sep + r ==> c in parts[0] || c in sep || c in r;
    }
  }

  /** Every literal, `IN` value and `IN` member is free of parentheses. */
  predicate PlainLiterals(n: Node) {
    match n
    case Eq(l, r) => PlainLiterals(l) && PlainLiterals(r)
    case Or(l, r) => PlainLiterals(l) && PlainLiterals(r)
    case And(l, r) => PlainLiterals(l) && PlainLiterals(r)
    case Literal(t) => ParenFree(t)
    case In(v, vs) => ParenFree(v) && forall i :: 0 <= i < |vs| ==> ParenFree(vs[i])
    case Not(x) => PlainLiterals(x)
  }

  /** The parentheses the builder adds always balance, so an operand's text
      can never close its enclosing group early. */
  lemma {:induction false} BuildBalanced(n: Node)
    requires PlainLiterals(n)
    ensures Balanced(Build(n))
  {
    match n
    case Eq(l, r) =>
      EqBalanced(n, l, r);
    case Or(l, r) =>
      BinaryBalanced(n, l, r, " OR ");
    case And(l, r) =>
      BinaryBalanced(n, l, r, " AND ");
    case Literal(t) =>
      ParenFreeBalanced(t);
    case In(v, vs) =>
      InBalanced(v, vs);
    case Not(x) =>
      NotBalanced(n, x);
  }

  lemma {:induction false} ParenFreeConcat(a: string, b: string)
    requires ParenFree(a) && ParenFree(b)
    ensures ParenFree(a + b)
  {
    assert forall c :: c in a + b ==> c in a || c in b;
  }

  lemma {:induction false} EqBalanced(parent: Node, l: Node, r: Node)
    requires PlainLiterals(l) && PlainLiterals(r)
    requires l < parent && r < parent
    ensures Balanced(Build(Eq(l, r)))
    decreases parent, 0
  {
    BuildBalanced(l);
    BuildBalanced(r);
    ParenFreeBalanced(" = ");
    BalancedConcat(Build(l), " = ");
    BalancedConcat(Build(l) + " = ", Build(r));
  }

  lemma {:induction false} InBalanced(v: string, vs: seq<string>)
    requires PlainLiterals(In(v, vs))
    ensures Balanced(Build(In(v, vs)))
  {
    var items := Join(vs, ", ");
    JoinParenFree(vs, ", ");
    ParenFreeBalanced(items);
    BalancedWrap(items);
    ParenFreeConcat(v, " IN ");
    ParenFreeBalanced(v + " IN ");
    BalancedConcat(v + " IN ", "(" + items + ")");
    assert Build(In(v, vs)) == v + " IN " + ("(" + items + ")");
  }

  lemma {:induction false} NotBalanced(parent: Node, x: Node)
    requires PlainLiterals(x) && x < parent
    ensures Balanced(Build(Not(x)))
    decreases parent, 0
  {
    BuildBalanced(x);
    BalancedWrap(Build(x));
    ParenFreeBalanced("NOT ");
    BalancedConcat("NOT ", "(" + Build(x) + ")");
    assert Build(Not(x)) == "NOT " + ("(" + Build(x) + ")");
  }

  /** The operands of a binary node, each parenthesized around an
      operator. */
  lemma {:induction false} BinaryBalanced(parent: Node, l: Node, r: Node, op: string)
    requires PlainLiterals(l) && PlainLiterals(r) && ParenFree(op)
    requires l < parent && r < parent
    ensures Balanced("(" + Build(l) + ")" + op + ("(" + Build(r) + ")"))
    ensures op == " OR " ==> Balanced(Build(Or(l, r)))
    ensures op == " AND " ==> Balanced(Build(And(l, r)))
    decreases parent, 0
  {
    BuildBalanced(l);
    BuildBalanced(r);
    BalancedWrap(Build(l));
    BalancedWrap(Build(r));
    ParenFreeBalanced(op);
    BalancedConcat("(" + Build(l) + ")", op);
    BalancedConcat("(" + Build(l) + ")" + op, "(" + Build(r) + ")");
    assert Build(Or(l, r)) == "(" + Build(l) + ")" + " OR " + ("(" + Build(r) + ")");
    assert Build(And(l, r)) == "(" + Build(l) + ")" + " AND " + ("(" + Build(r) + ")");
  }

  // ---------------------------------------------------------------------
  // Joining queries

  /** `join`, Kotlin's `reduceOrNull`: nothing for no queries, else the
      queries combined from the left. */
  function JoinQueries(qs: seq<Node>, f: (Node, Node) -> Node): (r: Option<Node>)
    ensures r.None? <==> |qs| == 0
    ensures |qs| == 1 ==> r == Some(qs[0])
    decreases |qs|
  {
    if |qs| == 0 then None
    else if |qs| == 1 then Some(qs[0])
    else Some(f(JoinQueries(qs[..|qs| - 1], f).value, qs[|qs| - 1]))
  }

  /** The operands of a chain of `AND`s, left to right. */
  function Conjuncts(n: Node): seq<Node> {
    match n
    case And(l, r) => Conjuncts(l) + Conjuncts(r)
    case _ => [n]
  }

  function ConjunctsOfAll(qs: seq<Node>): seq<Node>
    decreases |qs|
  {
    if |qs| == 0 then [] else ConjunctsOfAll(qs[..|qs| - 1]) + Conjuncts(qs[|qs| - 1])
  }

  /** Joining with `and` keeps every query's conjuncts, in order. */
  lemma {:induction false} JoinAndKeepsConjuncts(qs: seq<Node>)
    requires |qs| > 0
    ensures Conjuncts(JoinQueries(qs, (a, b) => And(a, b)).value) == ConjunctsOfAll(qs)
    decreases |qs|
  {
    if |qs| == 1 {
      assert ConjunctsOfAll(qs) == ConjunctsOfAll(qs[..0]) + Conjuncts(qs[0]);
      assert qs[..0] == [];
    } else {
      JoinAndKeepsConjuncts(qs[..|qs| - 1]);
    }
  }
}
