/** Operand texts and the names they print as, spelled out. */
module Samples {
  import opened Wrappers
  import opened Patterns
  import opened Texts
  import opened Nodes
  import opened Decoder
  import opened Operands
  import opened Grammar

  /** A register table with the one register of the samples. */
  predicate HasEax(regs: Registers) {
    PlainKeys(regs) && "eax" in regs && regs["eax"] == DWORD
  }

  /** The size keywords. */
  predicate Keyword(text: string, z: Size) {
    || (text == "BYTE" && z == BYTE) || (text == "WORD" && z == WORD) || (text == "DWORD" && z == DWORD)
    || (text == "QWORD" && z == QWORD) || (text == "XMMWORD" && z == XMM)
  }

  /** Registers print with the name of their size, and functions with an at sign. */
  lemma {:induction false} LeafNames(size: string, z: Size, key: string, callee: string, address: Address)
    requires Keyword(size, z) || (size == "BIT" && z == BIT)
    ensures Name(Register(key, z)) == "((" + size + ")_" + key + ")"
    ensures Name(Function(callee, address)) == "@" + callee
    ensures Name(Immidiate(key)) == key && Name(Symbol(key)) == key
  {
    assert size == SizeName(z);
    assert Paren(Paren(size) + ("_" + key)) == "((" + size + ")_" + key + ")";
  }

  /** An operation prints both operands in parentheses, a dereference its size, a star and the operand. */
  lemma {:induction false} OperationNames(n: Node, m: Node)
    requires Name(n) != ""
    ensures Name(Binary(n, '*', m)) == "(" + Name(n) + ") * (" + Name(m) + ")"
    ensures Name(Binary(n, '+', m)) == "(" + Name(n) + ") + (" + Name(m) + ")"
    ensures Name(Binary(n, '-', m)) == "(" + Name(n) + ") - (" + Name(m) + ")"
  {
    InfixName(Name(n), '*', Name(m), ") * (");
    InfixName(Name(n), '+', Name(m), ") + (");
    InfixName(Name(n), '-', Name(m), ") - (");
  }

  lemma {:induction false} DereferenceNames(size: string, z: Size, n: Node)
    requires Keyword(size, z)
    ensures Name(Dereference(z, n)) == "((" + size + ")*(" + Name(n) + "))"
  {
    assert size == SizeName(z);
    StarShape(Name(n));
    Regroup(size, Name(n));
  }

  lemma InfixName(l: string, op: char, r: string, middle: string)
    requires l != "" && middle == ") " + [op] + " ("
    ensures FetchName(r, [op], l) == "(" + l + middle + r + ")"
  {
    OperationName(l, op, r);
  }

  lemma Regroup(z: string, name: string)
    ensures Paren(Paren(z) + ("*" + Paren(name))) == "((" + z + ")*(" + name + "))"
  {
  }

  /** Each of the five size keywords, in front of a register. */
  lemma {:induction false} KeywordReads(keyword: string, z: Size, key: string, regs: Registers)
    requires Keyword(keyword, z) && PlainKeys(regs) && key in regs
    ensures Parse(keyword + " PTR [" + key + "]", regs, NO_FUNCTIONS) == Dereference(z, Register(key, regs[key]))
  {
    var text := keyword + " PTR [" + key + "]";
    KeywordText(keyword, z, key);
    DereferenceShape(z, key, regs);
    ParseByShape(text, regs, NO_FUNCTIONS);
    LeavesRead(key, regs);
  }

  lemma KeywordText(keyword: string, z: Size, key: string)
    requires Keyword(keyword, z)
    ensures keyword + " PTR [" + key + "]" == DereferenceText(z, "", key) && z != BIT
  {
    assert keyword == SizeName(z);
  }

  /** The operand `DWORD PTR [eax*0x8+0x666]`; what it prints as follows from the names above. */
  lemma {:induction false} ScaledSample(regs: Registers)
    requires HasEax(regs) && "0x8" !in regs && "0x666" !in regs
    ensures Parse("DWORD PTR [eax*0x8+0x666]", regs, NO_FUNCTIONS) ==
      Dereference(DWORD,
        Binary(Register("eax", DWORD), '*', Binary(Immidiate("0x8"), '+', Immidiate("0x666"))))
  {
    Numerals();
    SampleText();
    ScaledText("eax", "0x8", "0x666", regs);
    ParseFlatten(Dereference(DWORD, ScaledTree("eax", "0x8", "0x666", regs)), regs);
  }

  lemma Numerals()
    ensures IsHexNumber("0x8") && IsHexNumber("0x666")
  {
    PrefixedDigits("8");
    PrefixedDigits("666");
    assert "0x" + "8" == "0x8" && "0x" + "666" == "0x666";
  }

  lemma SampleText()
    ensures DereferenceText(DWORD, "", "eax" + "*" + ("0x8" + "+" + "0x666")) == "DWORD PTR [eax*0x8+0x666]"
  {
  }

  /** A call target that is a known function, with and without `0x`. */
  lemma {:induction false} FunctionSample(text: string, callee: string, regs: Registers, functions: Functions)
    requires text == "666" || text == "0x666"
    requires 0x666 in functions && functions[0x666] == Function(callee, 0x666)
    ensures Name(Parse(text, regs, functions)) == "@" + callee
  {
    SampleFunction(text, regs, functions);
  }

  lemma SampleFunction(text: string, regs: Registers, functions: Functions)
    requires (text == "666" || text == "0x666") && 0x666 in functions
    ensures Parse(text, regs, functions) == functions[0x666]
  {
    SixSixSix();
    if text == "666" {
      SpellingFound("666", regs, functions);
    } else {
      SpellingFound("0x666", regs, functions);
    }
  }

  lemma SpellingFound(text: string, regs: Registers, functions: Functions)
    requires 0x666 in functions && IsHexNumber(text) && HexValue(Digits(text)) == 0x666
    ensures Parse(text, regs, functions) == functions[0x666]
  {
    EverySpellingResolves(0x666, text, regs, functions);
  }

  lemma SixSixSix()
    ensures IsHexNumber("666") && HexValue(Digits("666")) == 0x666
    ensures IsHexNumber("0x666") && HexValue(Digits("0x666")) == 0x666
  {
    ValueOfSixes();
    SpelledSixes("666");
    assert "0x" + "666" == "0x666";
  }

  lemma SpelledSixes(d: string)
    requires d == "666"
    ensures IsHexNumber(d) && Digits(d) == d && IsHexNumber("0x" + d) && Digits("0x" + d) == d
  {
    PrefixedDigits(d);
    SpellingDigits(d, d);
    SpellingDigits(d, "0x" + d);
  }

  lemma ValueOfSixes()
    ensures HexValue("666") == 0x666
  {
    HexValueStep([], '6');
    HexValueStep(['6'], '6');
    HexValueStep(['6', '6'], '6');
    assert [] + ['6'] == ['6'] && ['6'] + ['6'] == ['6', '6'] && ['6', '6'] + ['6'] == "666";
  }
}
