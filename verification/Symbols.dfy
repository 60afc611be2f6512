/** Raw sections and symbols as the object-file library hands them over, and the adapters around them. */
module Symbols {
  import opened Wrappers

  /** A section of the file; `id` is its identity (the pointer). */
  datatype RawSection = RawSection(id: nat, vma: Address, size: Address)

  /** A flag word, as the set of its bits. */
  type Flagword = set<nat>

  const BSF_FUNCTION: Flagword := {3}

  /** A symbol of the file; `id` is its identity, `value` the address with its section's included. */
  datatype RawSymbol = RawSymbol(id: nat, name: string, value: Address, section: RawSection, flags: Flagword)

  predicate HasFlag(s: RawSymbol, flag: Flagword) {
    s.flags * flag != {}
  }

  datatype Section = Section(origin: RawSection)

  /** What a symbol of the table consists of. */
  datatype Record = Record(origin: RawSymbol, parent: Section, aliases: seq<RawSymbol>)

  function AddressOfRecord(r: Record): Address {
    r.origin.value
  }

  predicate RecordHasFlags(r: Record, flag: Flagword) {
    HasFlag(r.origin, flag) || exists a :: a in r.aliases && HasFlag(a, flag)
  }

  /** One of the asked bits is among the flags of a symbol. */
  lemma HasBits(s: RawSymbol, flag: Flagword)
    ensures HasFlag(s, flag) <==> exists bit :: bit in flag && bit in s.flags
  {
    if bit :| bit in flag && bit in s.flags {
      assert bit in s.flags * flag;
    }
    if HasFlag(s, flag) {
      var bit :| bit in s.flags * flag;
    }
  }

  lemma FlagBits(r: Record, flag: Flagword)
    ensures RecordHasFlags(r, flag) <==>
      exists bit :: bit in flag && (bit in r.origin.flags || exists a :: a in r.aliases && bit in a.flags)
  {
    HasBits(r.origin, flag);
    forall a | a in r.aliases ensures HasFlag(a, flag) <==> exists bit :: bit in flag && bit in a.flags {
      HasBits(a, flag);
    }
  }

  /** Distance to another symbol, modulo 2 to the power 64. */
  function DistanceTo(r: Record, other: Record): Address {
    Wrap(AddressOfRecord(other) - AddressOfRecord(r))
  }

  /** Distance to the end of the section, modulo 2 to the power 64. */
  function DistanceToEnd(r: Record): Address {
    Wrap(r.parent.origin.size - Wrap(AddressOfRecord(r) - r.parent.origin.vma))
  }

  class Symbol {
    const origin: RawSymbol
    const parent: Section
    var aliases: seq<RawSymbol>

    constructor (origin: RawSymbol, parent: Section)
      ensures this.origin == origin && this.parent == parent && aliases == []
    {
      this.origin, this.parent, aliases := origin, parent, [];
    }

    function View(): Record
      reads this
    {
      Record(origin, parent, aliases)
    }

    method AddAlias(alias: RawSymbol)
      modifies this`aliases
      ensures aliases == old(aliases) + [alias]
      ensures View() == old(View()).(aliases := old(aliases) + [alias])
    {
      aliases := aliases + [alias];
    }

    /** A symbol has a flag when it or one of its aliases does. */
    method HasFlags(flag: Flagword) returns (r: bool)
      ensures r <==> RecordHasFlags(View(), flag)
      ensures r <==> exists bit :: bit in flag && (bit in origin.flags || exists a :: a in aliases && bit in a.flags)
    {
      FlagBits(View(), flag);
      if HasFlag(origin, flag) {
        return true;
      }
      for i := 0 to |aliases|
        invariant forall j :: 0 <= j < i ==> !HasFlag(aliases[j], flag)
      {
        if HasFlag(aliases[i], flag) {
          assert aliases[i] in View().aliases;
          return true;
        }
      }
      return false;
    }
  }
}
