/** The factories for compare, test and conditional jump instructions. */
module Lowering {
  import opened Nodes
  import opened Decoder
  import opened SymbolTable
  import opened Ir
  import opened Mapper

  const GT_JUMPS: seq<string> := ["ja", "jg", "jnbe", "jnle"]
  const LE_JUMPS: seq<string> := ["jbe", "jle", "jna", "jng"]

  const ZERO := Shared(Immidiate("0"))
  const ONE := Shared(Immidiate("1"))

  /** The symbols made for one instruction only. */
  const TEMPORARY := Local("Temporary")
  const TEMP_RESULT := Local("TempResult")
  const TEMP2_RESULT := Local("Temp2Result")

  function Lookup(table: seq<Entry>, name: string): Value {
    var found := FindName(table, name);
    if found.Some? then Shared(found.value) else Null
  }

  /** `cmp` writes zf and cf. */
  function CompareGroup(zf: Value, cf: Value, lhs: Value, rhs: Value): seq<Instruction> {
    [Cmp(zf, lhs, EQ, rhs), Cmp(cf, lhs, LT, rhs)]
  }

  /** `test` writes sf, zf and pf. */
  function TestGroup(zf: Value, sf: Value, pf: Value, lhs: Value, rhs: Value): seq<Instruction> {
    [BinaryOperation(TEMPORARY, lhs, AND, rhs), UnaryInstruction(sf, MSB, TEMPORARY),
     Cmp(zf, TEMPORARY, EQ, ZERO), UnaryInstruction(pf, BitwiseXNOR, TEMPORARY)]
  }

  /** Condition of the greater family: CF = 0 and ZF = 0. */
  function GreaterGroup(zf: Value, cf: Value): seq<Instruction> {
    [Cmp(TEMP_RESULT, cf, EQ, ZERO), Cmp(TEMP2_RESULT, zf, EQ, ZERO),
     BinaryOperation(TEMP_RESULT, TEMP2_RESULT, AND, TEMP_RESULT)]
  }

  /** Condition of the less-or-equal family: CF = 1 or ZF = 1. */
  function LessEqualGroup(zf: Value, cf: Value): seq<Instruction> {
    [Cmp(TEMP_RESULT, cf, EQ, ONE), Cmp(TEMP2_RESULT, zf, EQ, ONE),
     BinaryOperation(TEMP_RESULT, TEMP2_RESULT, OR, TEMP_RESULT)]
  }

  /** `cmp` and `test` read their first two arguments without checking that they exist. */
  predicate WellFormed(i: Assembly) {
    i.name == "cmp" || i.name == "test" ==> |i.args| >= 2
  }

  function Argument(i: Assembly, k: nat, regs: Registers, functions: Functions): Value
    requires k < |i.args|
  {
    Shared(Parse(i.args[k], regs, functions))
  }

  /** An instruction that is not well-formed is outside this model; it is taken to throw. */
  function EmitCompare(i: Assembly, regs: Registers, table: seq<Entry>): Emission {
    if !WellFormed(i) then Emission([], true)
    else if i.name == "cmp" then
      var lhs, rhs := Argument(i, 0, regs, AddressIndex(table)), Argument(i, 1, regs, AddressIndex(table));
      var zf, cf := Lookup(table, "_zf"), Lookup(table, "_cf");
      if zf.Null? || cf.Null? then Emission([], true) else Emission(CompareGroup(zf, cf, lhs, rhs), false)
    else if i.name == "test" then
      var lhs, rhs := Argument(i, 0, regs, AddressIndex(table)), Argument(i, 1, regs, AddressIndex(table));
      var zf, sf, pf := Lookup(table, "_zf"), Lookup(table, "_sf"), Lookup(table, "_pf");
      if zf.Null? || sf.Null? || pf.Null? then Emission([], true) else Emission(TestGroup(zf, sf, pf, lhs, rhs), false)
    else NOTHING
  }

  /** A jump without an argument throws after its condition was sent; the other families emit nothing. */
  function EmitJump(i: Assembly, regs: Registers, table: seq<Entry>): Emission {
    var zf, cf := Lookup(table, "_zf"), Lookup(table, "_cf");
    var condition :=
      if i.name in GT_JUMPS then GreaterGroup(zf, cf)
      else if i.name in LE_JUMPS then LessEqualGroup(zf, cf)
      else [];
    if condition == [] then NOTHING
    else if i.args == [] then Emission(condition, true)
    else Emission(condition + [Branch(TEMP_RESULT, Argument(i, 0, regs, NO_FUNCTIONS))], false)
  }

  function CompareFactory(id: nat, regs: Registers): Factory {
    Factory(id, (i: Assembly, table: seq<Entry>) => EmitCompare(i, regs, table))
  }

  function JumpFactory(id: nat, regs: Registers): Factory {
    Factory(id, (i: Assembly, table: seq<Entry>) => EmitJump(i, regs, table))
  }
}
