/** Operand trees and the names they print as. */
module Nodes {
  import opened Wrappers
  import opened Patterns

  /**
   An operand symbol. `Register` keeps the key of the register table (`eax`), the register
   object itself is called `_eax`. `Binary` is a Temporary with both operands, `Dereference`
   a SizedTemporary whose operator is `*` and whose left operand is missing.
   */
  datatype Node =
    | Register(key: string, size: Size)
    | Immidiate(value: string)
    | Symbol(text: string)
    | Function(callee: string, address: Address)
    | Binary(lhs: Node, op: char, rhs: Node)
    | Dereference(size: Size, operand: Node)

  /** Only functions are created with an address; every other symbol keeps the default. */
  function AddressOf(n: Node): Address {
    if n.Function? then n.address else TWO_TO_THE_64 - 1
  }

  predicate IsLeaf(n: Node) {
    n.Immidiate? || n.Symbol? || n.Function?
  }

  function LeafName(n: Node): string
    requires IsLeaf(n)
  {
    match n
    case Immidiate(value) => value
    case Symbol(text) => text
    case Function(callee, _) => "@" + callee
  }

  function Paren(s: string): string {
    "(" + s + ")"
  }

  /** The name of an operation; a left operand without a name makes it print as unary. */
  function FetchName(rhs: string, op: string, lhs: string): string {
    if lhs == "" && op != "" then lhs + op + Paren(rhs)
    else if op != "" then Paren(lhs) + " " + op + " " + Paren(rhs)
    else lhs + op + rhs
  }

  function SizedName(size: Size, name: string): string {
    Paren(Paren(SizeName(size)) + name)
  }

  function Name(n: Node): string {
    match n
    case Register(key, size) => SizedName(size, "_" + key)
    case Binary(lhs, op, rhs) => FetchName(Name(rhs), [op], Name(lhs))
    case Dereference(size, operand) => SizedName(size, FetchName(Name(operand), "*", ""))
    case _ => LeafName(n)
  }

  // ----- the printer is injective up to the kind of the leaves -----

  predicate ParenFree(s: string) {
    forall i :: 0 <= i < |s| ==> s[i] != '(' && s[i] != ')'
  }

  /** Trees in which every leaf is free of parentheses and no left operand is nameless. */
  predicate Printable(n: Node) {
    match n
    case Register(key, _) => ParenFree(key)
    case Binary(lhs, op, rhs) =>
      Printable(lhs) && Printable(rhs) && Name(lhs) != "" && (op == '*' || op == '+' || op == '-')
    case Dereference(_, operand) => Printable(operand)
    case _ => ParenFree(LeafName(n))
  }

  /** The tree with every leaf replaced by a plain symbol of the same name. */
  function EraseKinds(n: Node): Node {
    match n
    case Register(_, _) => n
    case Binary(lhs, op, rhs) => Binary(EraseKinds(lhs), op, EraseKinds(rhs))
    case Dereference(size, operand) => Dereference(size, EraseKinds(operand))
    case _ => Symbol(LeafName(n))
  }

  /** Opening minus closing parentheses. */
  function Depth(s: string): int {
    if s == "" then 0
    else Depth(s[..|s| - 1]) + (if s[|s| - 1] == '(' then 1 else if s[|s| - 1] == ')' then -1 else 0)
  }

  ghost predicate Balanced(s: string) {
    Depth(s) == 0 && forall k :: 0 <= k <= |s| ==> Depth(s[..k]) >= 0
  }

  lemma {:induction false} DepthAppend(s: string, t: string)
    ensures Depth(s + t) == Depth(s) + Depth(t)
  {
    if t == "" {
      assert s + t == s;
    } else {
      DepthAppend(s, t[..|t| - 1]);
      assert (s + t)[..|s + t| - 1] == s + t[..|t| - 1];
    }
  }

  lemma {:induction false} DepthParenFree(s: string)
    requires ParenFree(s)
    ensures Depth(s) == 0
  {
    if s != "" {
      DepthParenFree(s[..|s| - 1]);
    }
  }

  lemma BalancedParenFree(s: string)
    requires ParenFree(s)
    ensures Balanced(s)
  {
    forall k | 0 <= k <= |s| ensures Depth(s[..k]) >= 0 {
      DepthParenFree(s[..k]);
    }
    DepthParenFree(s);
  }

  lemma BalancedAppend(s: string, t: string)
    requires Balanced(s) && Balanced(t)
    ensures Balanced(s + t)
  {
    DepthAppend(s, t);
    forall k | 0 <= k <= |s + t| ensures Depth((s + t)[..k]) >= 0 {
      if k <= |s| {
        assert (s + t)[..k] == s[..k];
      } else {
        assert (s + t)[..k] == s + t[..k - |s|];
        DepthAppend(s, t[..k - |s|]);
      }
    }
  }

  lemma BalancedWrap(s: string)
    requires Balanced(s)
    ensures Balanced(Paren(s))
  {
    var w := Paren(s);
    assert Depth("(") == 1 && Depth(")") == -1;
    DepthAppend("(", s);
    DepthAppend("(" + s, ")");
    forall k | 0 <= k <= |w| ensures Depth(w[..k]) >= 0 {
      if 1 <= k <= |s| + 1 {
        assert w[..k] == "(" + s[..k - 1];
        DepthAppend("(", s[..k - 1]);
      } else {
        assert w[..k] == (if k == 0 then "" else w);
      }
    }
  }

  /** What follows the left operand of a printed operation. */
  function Tail(op: char, rhs: string): string {
    " " + [op] + " " + Paren(rhs)
  }

  lemma BalancedTail(op: char, rhs: string)
    requires Balanced(rhs) && op in MULTIPLICATION + ADD_OR_SUBTRACT
    ensures Balanced(Tail(op, rhs))
  {
    BalancedParenFree(" " + [op] + " ");
    BalancedWrap(rhs);
    BalancedAppend(" " + [op] + " ", Paren(rhs));
  }

  /** What follows the size of a printed register or dereference. */
  function Body(n: Node): string
    requires n.Register? || n.Dereference?
  {
    if n.Register? then "_" + n.key else "*" + Paren(Name(n.operand))
  }

  lemma Shapes(n: Node)
    ensures n.Binary? && Name(n.lhs) != "" ==> Name(n) == Paren(Name(n.lhs)) + Tail(n.op, Name(n.rhs))
    ensures n.Register? || n.Dereference? ==> Name(n) == SizedName(n.size, Body(n))
  {
    if n.Binary? {
      OperationShape(Name(n.lhs), n.op, Name(n.rhs));
    } else if n.Dereference? {
      StarShape(Name(n.operand));
    }
  }

  lemma OperationShape(lhs: string, op: char, rhs: string)
    ensures lhs != "" ==> FetchName(rhs, [op], lhs) == Paren(lhs) + Tail(op, rhs)
  {
    assert Paren(lhs) + " " + [op] + " " + Paren(rhs) == Paren(lhs) + (" " + [op] + " " + Paren(rhs));
  }

  lemma StarShape(rhs: string)
    ensures FetchName(rhs, "*", "") == "*" + Paren(rhs)
  {
    assert "" + "*" + Paren(rhs) == "*" + Paren(rhs);
  }

  lemma {:induction false} NameBalanced(n: Node)
    requires Printable(n)
    ensures Balanced(Name(n))
    decreases n, 1
  {
    Shapes(n);
    if n.Binary? {
      NameBalanced(n.lhs);
      NameBalanced(n.rhs);
      BalancedWrap(Name(n.lhs));
      BalancedTail(n.op, Name(n.rhs));
      BalancedAppend(Paren(Name(n.lhs)), Tail(n.op, Name(n.rhs)));
    } else if IsLeaf(n) {
      BalancedParenFree(LeafName(n));
    } else {
      BodyBalanced(n);
      BalancedWrap(Paren(SizeName(n.size)) + Body(n));
    }
  }

  lemma {:induction false} BodyBalanced(n: Node)
    requires Printable(n) && (n.Register? || n.Dereference?)
    ensures Balanced(Body(n)) && Balanced(Paren(SizeName(n.size)) + Body(n))
    decreases n, 0
  {
    if n.Register? {
      BalancedParenFree("_" + n.key);
    } else {
      NameBalanced(n.operand);
      BalancedStar(Name(n.operand));
    }
    BalancedSize(n.size, Body(n));
  }

  lemma BalancedStar(name: string)
    requires Balanced(name)
    ensures Balanced("*" + Paren(name))
  {
    BalancedWrap(name);
    BalancedParenFree("*");
    BalancedAppend("*", Paren(name));
  }

  lemma BalancedSize(z: Size, body: string)
    requires Balanced(body)
    ensures Balanced(Paren(SizeName(z)) + body)
  {
    BalancedParenFree(SizeName(z));
    BalancedWrap(SizeName(z));
    BalancedAppend(Paren(SizeName(z)), body);
  }

  /** The closing partner of a leading parenthesis is determined by the text. */
  lemma {:induction false} MatchingParen(a: string, s: string, b: string, t: string)
    requires Balanced(a) && Balanced(b) && Paren(a) + s == Paren(b) + t
    ensures a == b && s == t
  {
    NotShorter(a, s, b, t);
    NotShorter(b, t, a, s);
    var w := Paren(a) + s;
    assert a == w[1..|a| + 1] && b == w[1..|b| + 1];
    assert s == w[|a| + 2..] && t == w[|b| + 2..];
  }

  lemma NotShorter(a: string, s: string, b: string, t: string)
    requires Balanced(a) && Balanced(b) && Paren(a) + s == Paren(b) + t
    ensures |b| <= |a|
  {
    if |a| < |b| {
      CloserInside(a, s, b, t);
      DepthAppend(a, ")");
    }
  }

  lemma CloserInside(a: string, s: string, b: string, t: string)
    requires |a| < |b| && Paren(a) + s == Paren(b) + t
    ensures b[..|a| + 1] == a + ")"
  {
    var w, w' := Paren(a) + s, Paren(b) + t;
    assert w[1..|a| + 2] == a + ")";
    assert w'[1..|a| + 2] == b[..|a| + 1];
  }

  lemma ParenInjective(a: string, b: string)
    requires Paren(a) == Paren(b)
    ensures a == b
  {
    assert a == Paren(a)[1..|a| + 1] && b == Paren(b)[1..|b| + 1];
  }

  lemma SizeNameInjective(z: Size, z': Size)
    requires SizeName(z) == SizeName(z')
    ensures z == z'
  {
    assert SizeName(z)[0] == SizeName(z')[0] && SizeName(z)[1] == SizeName(z')[1];
  }

  /** A printed operation is no printed register, dereference or leaf. */
  lemma BinaryApart(n: Node, m: Node)
    requires Printable(n) && Printable(m) && n.Binary? && !m.Binary?
    ensures Name(n) != Name(m)
  {
    Shapes(n);
    Shapes(m);
    if Name(n) == Name(m) && !IsLeaf(m) {
      var inner := Paren(SizeName(m.size)) + Body(m);
      NameBalanced(n.lhs);
      BodyBalanced(m);
      assert Paren(inner) + "" == Paren(inner);
      MatchingParen(Name(n.lhs), Tail(n.op, Name(n.rhs)), inner, "");
    }
    assert Name(n)[0] == '(';
  }

  lemma SizedTextParts(size1: string, body1: string, size2: string, body2: string)
    requires ParenFree(size1) && ParenFree(size2)
    requires Paren(Paren(size1) + body1) == Paren(Paren(size2) + body2)
    ensures size1 == size2 && body1 == body2
  {
    ParenInjective(Paren(size1) + body1, Paren(size2) + body2);
    BalancedParenFree(size1);
    BalancedParenFree(size2);
    MatchingParen(size1, body1, size2, body2);
  }

  /** `((SIZE)body)` determines the size and the body. */
  lemma SizedNameInjective(z: Size, body: string, z': Size, body': string)
    requires SizedName(z, body) == SizedName(z', body')
    ensures z == z' && body == body'
  {
    SizeNameParenFree(z);
    SizeNameParenFree(z');
    SizedTextParts(SizeName(z), body, SizeName(z'), body');
    SizeNameInjective(z, z');
  }

  lemma SizeNameParenFree(z: Size)
    ensures ParenFree(SizeName(z))
  {
  }

  lemma BodyParts(n: Node, m: Node)
    requires Printable(n) && Printable(m) && (n.Register? || n.Dereference?) && (m.Register? || m.Dereference?)
    requires Body(n) == Body(m)
    ensures n.Register? <==> m.Register?
    ensures n.Register? ==> n.key == m.key
    ensures n.Dereference? ==> Name(n.operand) == Name(m.operand)
  {
    assert Body(n)[0] == Body(m)[0];
    if n.Register? {
      assert n.key == Body(n)[1..] && m.key == Body(m)[1..];
    } else {
      assert Paren(Name(n.operand)) == Body(n)[1..] && Paren(Name(m.operand)) == Body(m)[1..];
      ParenInjective(Name(n.operand), Name(m.operand));
    }
  }

  lemma BinaryParts(n: Node, m: Node)
    requires Printable(n) && Printable(m) && n.Binary? && m.Binary? && Name(n) == Name(m)
    ensures Name(n.lhs) == Name(m.lhs) && n.op == m.op && Name(n.rhs) == Name(m.rhs)
  {
    Shapes(n);
    Shapes(m);
    NameBalanced(n.lhs);
    NameBalanced(m.lhs);
    MatchingParen(Name(n.lhs), Tail(n.op, Name(n.rhs)), Name(m.lhs), Tail(m.op, Name(m.rhs)));
    TailParts(n.op, n.rhs, m.op, m.rhs);
  }

  lemma TailParts(op1: char, rhs1: Node, op2: char, rhs2: Node)
    requires Tail(op1, Name(rhs1)) == Tail(op2, Name(rhs2))
    ensures op1 == op2 && Name(rhs1) == Name(rhs2)
  {
    var tail := Tail(op1, Name(rhs1));
    assert op1 == tail[1] == op2;
    assert Paren(Name(rhs1)) == tail[3..] && Paren(Name(rhs2)) == tail[3..];
    ParenInjective(Name(rhs1), Name(rhs2));
  }

  /** Two printable trees have the same name exactly when they are equal up to the kind of their leaves. */
  lemma {:induction false} PrinterInjective(n: Node, m: Node)
    requires Printable(n) && Printable(m)
    ensures Name(n) == Name(m) <==> EraseKinds(n) == EraseKinds(m)
    decreases n
  {
    EraseKeepsName(n);
    EraseKeepsName(m);
    if Name(n) == Name(m) {
      if n.Binary? && m.Binary? {
        BinaryParts(n, m);
        PrinterInjective(n.lhs, m.lhs);
        PrinterInjective(n.rhs, m.rhs);
      } else if n.Binary? {
        BinaryApart(n, m);
      } else if m.Binary? {
        BinaryApart(m, n);
      } else if !IsLeaf(n) && !IsLeaf(m) {
        Shapes(n);
        Shapes(m);
        SizedNameInjective(n.size, Body(n), m.size, Body(m));
        BodyParts(n, m);
        if n.Dereference? {
          PrinterInjective(n.operand, m.operand);
        }
      } else if !IsLeaf(n) {
        LeafApart(m, n);
      } else if !IsLeaf(m) {
        LeafApart(n, m);
      }
    }
  }

  lemma LeafApart(n: Node, m: Node)
    requires Printable(n) && IsLeaf(n) && (m.Register? || m.Dereference?)
    ensures Name(n) != Name(m)
  {
    Shapes(m);
    assert Name(m)[0] == '(';
  }

  lemma {:induction false} EraseKeepsName(n: Node)
    ensures Name(EraseKinds(n)) == Name(n)
  {
    match n
    case Binary(lhs, op, rhs) =>
      EraseKeepsName(lhs);
      EraseKeepsName(rhs);
    case Dereference(_, operand) => EraseKeepsName(operand);
    case _ =>
  }

  /** Without the hypothesis the names collide: a nameless left operand prints as a unary operation. */
  lemma {:induction false} NamelessOperandCollides()
    ensures exists n: Node, m: Node :: Name(n) == Name(m) && EraseKinds(n) != EraseKinds(m)
  {
    var n := Binary(Symbol(""), '*', Symbol("x"));
    var m := Symbol("*(x)");
    assert Name(n) == Name(m);
    assert EraseKinds(n) != EraseKinds(m);
  }
}
