/** The recursive-descent operand parser and what it keeps of the text it reads. */
module Decoder {
  import opened Wrappers
  import opened Patterns
  import opened Nodes

  /** The register table: key to size. */
  type Registers = map<string, Size>

  /** What a caller of `getArgs` passes in: the symbols of known addresses. */
  type Functions = map<Address, Node>

  const NO_FUNCTIONS: Functions := map[]

  function CreateImm(value: string): Option<Node> {
    Some(Immidiate(value))
  }

  function SizedTemporary(size: string): Option<Size> {
    if size == "BYTE" then Some(BYTE)
    else if size == "WORD" then Some(WORD)
    else if size == "DWORD" then Some(DWORD)
    else if size == "QWORD" then Some(QWORD)
    else if size == "XMMWORD" then Some(XMM)
    else None
  }

  /** None stands for the null pointer of the fall-through. */
  function CreateDereference(size: string, expr: string, regs: Registers, functions: Functions): (r: Option<Node>)
    ensures r.Some? <==> SizedTemporary(size).Some?
    decreases |expr| + 1, 0
  {
    var z := SizedTemporary(size);
    var operand := HandleExpression(expr, regs, functions);
    if z.Some? && operand.Some? then Some(Dereference(z.value, operand.value)) else None
  }

  function CreateOperation(lhs: string, op: char, rhs: string, regs: Registers,
                           functions: Functions): (r: Option<Node>)
    ensures r.Some?
    decreases |lhs| + |rhs| + 1, 0
  {
    var left := HandleExpression(lhs, regs, functions);
    var right := HandleExpression(rhs, regs, functions);
    if left.Some? && right.Some? then Some(Binary(left.value, op, right.value)) else None
  }

  /** Every text yields a symbol: the recursion ends and no branch yields the null pointer. */
  function HandleExpression(expr: string, regs: Registers, functions: Functions): (r: Option<Node>)
    ensures r.Some?
    decreases |expr|, 1
  {
    var address := MatchAddress(expr);
    if address.Some? && StrToVma(address.value) in functions then Some(functions[StrToVma(address.value)])
    else if expr in regs then Some(Register(expr, regs[expr]))
    else if MatchNumber(expr).Some? then CreateImm(MatchNumber(expr).value)
    else
      var dereference := MatchDereference(expr);
      if dereference.Some? then
        SizedTemporaryOfName(dereference.value.size);
        CreateDereference(SizeName(dereference.value.size), dereference.value.inner, regs, functions)
      else
        var multiplication := MatchSplit(expr, MULTIPLICATION);
        if multiplication.Some? then
          var Split(lhs, op, rhs) := multiplication.value;
          CreateOperation(lhs, op, rhs, regs, functions)
        else
          var addition := MatchSplit(expr, ADD_OR_SUBTRACT);
          if addition.Some? then
            var Split(lhs, op, rhs) := addition.value;
            CreateOperation(lhs, op, rhs, regs, functions)
          else Some(Symbol(expr))
  }

  function Parse(expr: string, regs: Registers, functions: Functions): Node {
    HandleExpression(expr, regs, functions).value
  }

  // ----- the shape of a text: which branch reads it when no function is known -----

  datatype Shape =
    | Atomic
    | Dereferencing(size: Size, segment: string, inner: string)
    | Operation(lhs: string, op: char, rhs: string)

  function ShapeOf(expr: string, regs: Registers): (s: Shape)
    ensures s.Dereferencing? ==> s.size != BIT && |s.inner| + 2 <= |expr|
    ensures s.Dereferencing? ==> MatchDereference(expr) == Some(Dereferenced(s.size, s.segment, s.inner))
    ensures s.Operation? ==> expr == s.lhs + [s.op] + s.rhs && s.op in MULTIPLICATION + ADD_OR_SUBTRACT
    ensures s.Operation? ==> 1 <= |s.lhs| && 1 <= |s.rhs| && expr[|s.lhs|] == s.op
  {
    if expr in regs || IsHexNumber(expr) then Atomic
    else
      var d := MatchDereference(expr);
      if d.Some? then Dereferencing(d.value.size, d.value.segment, d.value.inner)
      else
        var multiplication := MatchSplit(expr, MULTIPLICATION);
        var split := if multiplication.Some? then multiplication else MatchSplit(expr, ADD_OR_SUBTRACT);
        if split.Some? then Operation(split.value.lhs, split.value.op, split.value.rhs) else Atomic
  }

  function LeafOf(text: string, regs: Registers): Node {
    if text in regs then Register(text, regs[text])
    else if IsHexNumber(text) then Immidiate(text)
    else Symbol(text)
  }

  function Known(expr: string, functions: Functions): Option<Node> {
    var address := MatchAddress(expr);
    if address.Some? && StrToVma(address.value) in functions then Some(functions[StrToVma(address.value)]) else None
  }

  /** The parser, read by the shape of its text. */
  lemma {:induction false} ParseByShape(expr: string, regs: Registers, functions: Functions)
    ensures Known(expr, functions).Some? ==> Parse(expr, regs, functions) == Known(expr, functions).value
    ensures Known(expr, functions).None? ==>
      match ShapeOf(expr, regs)
      case Atomic => Parse(expr, regs, functions) == LeafOf(expr, regs)
      case Dereferencing(size, _, inner) =>
        Parse(expr, regs, functions) == Dereference(size, Parse(inner, regs, functions))
      case Operation(lhs, op, rhs) =>
        Parse(expr, regs, functions) == Binary(Parse(lhs, regs, functions), op, Parse(rhs, regs, functions))
  {
    if Known(expr, functions).None? {
      var shape := ShapeOf(expr, regs);
      match shape
      case Atomic =>
      case Dereferencing(size, _, inner) =>
        assert HandleExpression(expr, regs, functions) == CreateDereference(SizeName(size), inner, regs, functions);
        CreateDereferenceSucceeds(size, inner, regs, functions);
      case Operation(lhs, op, rhs) =>
        assert HandleExpression(expr, regs, functions) == CreateOperation(lhs, op, rhs, regs, functions);
    }
  }

  lemma CreateDereferenceSucceeds(z: Size, inner: string, regs: Registers, functions: Functions)
    requires z != BIT
    ensures CreateDereference(SizeName(z), inner, regs, functions)
         == Some(Dereference(z, Parse(inner, regs, functions)))
  {
    SizedTemporaryOfName(z);
  }

  lemma SizedTemporaryOfName(z: Size)
    requires z != BIT
    ensures SizedTemporary(SizeName(z)) == Some(z)
  {
    assert "BYTE"[0] == 'B' && "WORD"[0] == 'W' && "DWORD"[0] == 'D' && "QWORD"[0] == 'Q' && "XMMWORD"[0] == 'X';
  }

  // ----- parsing keeps the text, up to segment prefixes -----

  /** The operand text a tree stands for. */
  function Flatten(n: Node): string {
    match n
    case Register(key, _) => key
    case Binary(lhs, op, rhs) => Flatten(lhs) + [op] + Flatten(rhs)
    case Dereference(size, operand) => DereferenceText(size, "", Flatten(operand))
    case _ => LeafName(n)
  }

  /** The segment prefixes (`fs:`) of the dereferences met while parsing. */
  function Segments(expr: string, regs: Registers): seq<string>
    decreases |expr|
  {
    match ShapeOf(expr, regs)
    case Atomic => []
    case Dereferencing(_, segment, inner) => [segment] + Segments(inner, regs)
    case Operation(lhs, _, rhs) => Segments(lhs, regs) + Segments(rhs, regs)
  }

  function TotalLength(s: seq<string>): nat {
    if s == [] then 0 else |s[0]| + TotalLength(s[1..])
  }

  lemma {:induction false} TotalLengthAppend(s: seq<string>, t: seq<string>)
    ensures TotalLength(s + t) == TotalLength(s) + TotalLength(t)
  {
    if s == [] {
      assert s + t == t;
    } else {
      assert (s + t)[1..] == s[1..] + t;
      TotalLengthAppend(s[1..], t);
    }
  }

  /** Two texts and the length of what the second has lost. */
  predicate Loses(flat: string, lost: nat, text: string) {
    |flat| + lost == |text| && (lost == 0 ==> flat == text)
  }

  lemma DereferenceLoses(z: Size, segment: string, inner: string, flat: string, lost: nat)
    requires Loses(flat, lost, inner)
    ensures Loses(DereferenceText(z, "", flat), |segment| + lost, DereferenceText(z, segment, inner))
  {
  }

  lemma OperationLoses(lhs: string, op: char, rhs: string, left: string, right: string, lostLeft: nat, lostRight: nat)
    requires Loses(left, lostLeft, lhs) && Loses(right, lostRight, rhs)
    ensures Loses(left + [op] + right, lostLeft + lostRight, lhs + [op] + rhs)
  {
  }

  lemma {:induction false} ParseLoses(expr: string, regs: Registers)
    ensures Loses(Flatten(Parse(expr, regs, NO_FUNCTIONS)), TotalLength(Segments(expr, regs)), expr)
    decreases |expr|
  {
    ParseByShape(expr, regs, NO_FUNCTIONS);
    match ShapeOf(expr, regs)
    case Atomic =>
    case Dereferencing(size, segment, inner) =>
      var n, lost := Parse(inner, regs, NO_FUNCTIONS), TotalLength(Segments(inner, regs));
      DereferenceMatches(expr);
      ParseLoses(inner, regs);
      DereferenceLoses(size, segment, inner, Flatten(n), lost);
      assert Segments(expr, regs)[1..] == Segments(inner, regs);
    case Operation(lhs, op, rhs) =>
      var left, right := Parse(lhs, regs, NO_FUNCTIONS), Parse(rhs, regs, NO_FUNCTIONS);
      var s, t := Segments(lhs, regs), Segments(rhs, regs);
      ParseLoses(lhs, regs);
      ParseLoses(rhs, regs);
      OperationLoses(lhs, op, rhs, Flatten(left), Flatten(right), TotalLength(s), TotalLength(t));
      TotalLengthAppend(s, t);
  }

  /** Only segment prefixes are lost, and all of them are. */
  lemma {:induction false} FlattenLosesSegments(expr: string, regs: Registers)
    ensures |Flatten(Parse(expr, regs, NO_FUNCTIONS))| + TotalLength(Segments(expr, regs)) == |expr|
    ensures TotalLength(Segments(expr, regs)) == 0 ==> Flatten(Parse(expr, regs, NO_FUNCTIONS)) == expr
  {
    ParseLoses(expr, regs);
  }

  lemma {:induction false} TotalLengthZero(s: seq<string>)
    ensures TotalLength(s) == 0 <==> forall i :: 0 <= i < |s| ==> s[i] == ""
  {
    if s != [] {
      TotalLengthZero(s[1..]);
      assert forall i :: 1 <= i < |s| ==> s[i] == s[1..][i - 1];
    }
  }

  /** The round trip holds exactly when no dereference in the text names a segment. */
  lemma {:induction false} FlattenParse(expr: string, regs: Registers)
    ensures Flatten(Parse(expr, regs, NO_FUNCTIONS)) == expr
      <==> forall i :: 0 <= i < |Segments(expr, regs)| ==> Segments(expr, regs)[i] == ""
  {
    FlattenLosesSegments(expr, regs);
    TotalLengthZero(Segments(expr, regs));
  }

  /** A text without a colon has no segment prefix, so it survives the round trip. */
  lemma {:induction false} FlattenParseNoColon(expr: string, regs: Registers)
    requires ':' !in expr
    ensures Flatten(Parse(expr, regs, NO_FUNCTIONS)) == expr
  {
    NoColonNoSegments(expr, regs);
    FlattenLosesSegments(expr, regs);
  }

  lemma {:induction false} NoColonNoSegments(expr: string, regs: Registers)
    requires ':' !in expr
    ensures TotalLength(Segments(expr, regs)) == 0
    decreases |expr|
  {
    var shape := ShapeOf(expr, regs);
    match shape
    case Atomic =>
    case Dereferencing(size, segment, inner) =>
      DereferenceMatches(expr);
      assert forall c :: c in segment || c in inner ==> c in expr;
      NoColonNoSegments(inner, regs);
      assert segment == "";
      assert Segments(expr, regs)[1..] == Segments(inner, regs);
    case Operation(lhs, op, rhs) =>
      assert forall c :: c in lhs || c in rhs ==> c in expr;
      NoColonNoSegments(lhs, regs);
      NoColonNoSegments(rhs, regs);
      TotalLengthAppend(Segments(lhs, regs), Segments(rhs, regs));
  }

  // ----- resolving functions commutes with parsing -----

  /** Every leaf whose text is the address of a known function becomes that function. */
  function Resolve(n: Node, functions: Functions): Node {
    match n
    case Binary(lhs, op, rhs) => Binary(Resolve(lhs, functions), op, Resolve(rhs, functions))
    case Dereference(size, operand) => Dereference(size, Resolve(operand, functions))
    case _ =>
      var known := Known(Flatten(n), functions);
      if known.Some? then known.value else n
  }

  lemma {:induction false} ResolveCommutes(expr: string, regs: Registers, functions: Functions)
    ensures Parse(expr, regs, functions) == Resolve(Parse(expr, regs, NO_FUNCTIONS), functions)
    decreases |expr|
  {
    ParseByShape(expr, regs, NO_FUNCTIONS);
    ParseByShape(expr, regs, functions);
    match ShapeOf(expr, regs)
    case Atomic => assert Flatten(LeafOf(expr, regs)) == expr;
    case Dereferencing(size, segment, inner) => ResolveCommutes(inner, regs, functions);
    case Operation(lhs, op, rhs) =>
      ResolveCommutes(lhs, regs, functions);
      ResolveCommutes(rhs, regs, functions);
  }

  // ----- numbers -----

  lemma {:induction false} HexValueLeadingZeros(zeros: string, s: string)
    requires AllZero(zeros)
    ensures HexValue(zeros + s) == HexValue(s)
    decreases |zeros| + |s|
  {
    var t := zeros + s;
    if s != "" {
      assert t[..|t| - 1] == zeros + s[..|s| - 1];
      HexValueLeadingZeros(zeros, s[..|s| - 1]);
    } else if zeros != "" {
      assert t == zeros;
      assert t[..|t| - 1] == zeros[..|zeros| - 1] + "";
      HexValueLeadingZeros(zeros[..|zeros| - 1], "");
    }
  }

  /** The address looked up is the value of the digits: the prefix and leading zeros do not count. */
  lemma {:induction false} AddressValue(expr: string)
    requires IsHexNumber(expr)
    ensures StrToVma(MatchAddress(expr).value) == StrToVma(Digits(expr))
  {
    var d := Digits(expr);
    var g := StripZeros(d);
    assert d == d[..|d| - |g|] + g;
    HexValueLeadingZeros(d[..|d| - |g|], g);
  }

  function HexDigitOf(v: nat): (c: char)
    requires v < 16
    ensures HexDigit(c) && DigitValue(c) == v
  {
    "0123456789abcdef"[v]
  }

  function ToHex(n: nat): (s: string)
    ensures |s| >= 1 && AllHex(s)
  {
    if n < 16 then [HexDigitOf(n)] else ToHex(n / 16) + [HexDigitOf(n % 16)]
  }

  lemma {:induction false} HexValueToHex(n: nat)
    ensures HexValue(ToHex(n)) == n
  {
    var s := ToHex(n);
    if n < 16 {
      assert s[..0] == "";
    } else {
      assert s[..|s| - 1] == ToHex(n / 16);
      HexValueToHex(n / 16);
    }
  }

  /** A known function is found under every hexadecimal spelling of its address. */
  lemma {:induction false} EverySpellingResolves(a: Address, expr: string, regs: Registers, functions: Functions)
    requires a in functions && IsHexNumber(expr) && HexValue(Digits(expr)) == a
    ensures Parse(expr, regs, functions) == functions[a]
  {
    AddressValue(expr);
    ParseByShape(expr, regs, functions);
  }

  /** The lower-case spelling with any number of leading zeros, with or without `0x`, is one of them. */
  lemma {:induction false} PrintedSpellingResolves(a: Address, zeros: string, expr: string, regs: Registers,
                                                   functions: Functions)
    requires a in functions && AllZero(zeros)
    requires expr == zeros + ToHex(a) || expr == "0x" + (zeros + ToHex(a))
    ensures Parse(expr, regs, functions) == functions[a]
  {
    SpellingValue(a, zeros, expr);
    EverySpellingResolves(a, expr, regs, functions);
  }

  lemma SpellingValue(a: Address, zeros: string, expr: string)
    requires AllZero(zeros) && (expr == zeros + ToHex(a) || expr == "0x" + (zeros + ToHex(a)))
    ensures IsHexNumber(expr) && HexValue(Digits(expr)) == a
  {
    var d := zeros + ToHex(a);
    SpellingDigits(d, expr);
    HexValueLeadingZeros(zeros, ToHex(a));
    HexValueToHex(a);
  }

  lemma SpellingDigits(d: string, expr: string)
    requires |d| >= 1 && AllHex(d) && (expr == d || expr == "0x" + d)
    ensures IsHexNumber(expr) && Digits(expr) == d
  {
    if expr == "0x" + d {
      assert expr[2..] == d && expr[..2] == "0x";
    }
  }
}
