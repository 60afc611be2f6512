/** How functions are sized from the symbol table. */
module FunctionRanges {
  import opened Wrappers
  import opened Symbols
  import opened Disassembler

  /** Strictly ascending by address. */
  predicate Sorted(table: seq<Record>) {
    forall i, j :: 0 <= i < j < |table| ==> AddressOfRecord(table[i]) < AddressOfRecord(table[j])
  }

  /** A symbol that is a function by its own flags. */
  predicate OwnFunction(r: Record) {
    HasFlag(r.origin, BSF_FUNCTION)
  }

  /** A symbol that is swept: it or one of its aliases is a function. */
  predicate IsFunction(r: Record) {
    RecordHasFlags(r, BSF_FUNCTION)
  }

  /** Index of the closest function behind symbol `n`, searched from `m` on; the table's length if there is none. */
  function ClosestFunction(table: seq<Record>, n: nat, m: nat): (c: nat)
    requires n < |table| && m <= |table|
    ensures m <= c <= |table|
    ensures c < |table| ==> OwnFunction(table[c]) && AddressOfRecord(table[n]) < AddressOfRecord(table[c])
    ensures forall i :: m <= i < c ==> !(OwnFunction(table[i]) && AddressOfRecord(table[n]) < AddressOfRecord(table[i]))
    decreases |table| - m
  {
    if m == |table| || (OwnFunction(table[m]) && AddressOfRecord(table[n]) < AddressOfRecord(table[m])) then m
    else ClosestFunction(table, n, m + 1)
  }

  /** The size a function is swept with. */
  function SizeAt(table: seq<Record>, n: nat): Address
    requires n < |table|
  {
    var c := ClosestFunction(table, n, n);
    if c == |table| then DistanceToEnd(table[n]) else DistanceTo(table[n], table[c])
  }

  // ----- sizes -----

  function SectionEnd(r: Record): int {
    r.parent.origin.vma + r.parent.origin.size
  }

  /** The symbol lies inside its section, which does not wrap around the address space. */
  predicate InSection(r: Record) {
    r.parent.origin.vma <= AddressOfRecord(r) < SectionEnd(r) <= TWO_TO_THE_64
  }

  lemma ClosestIsNextOwn(table: seq<Record>, n: nat)
    requires Sorted(table) && n < |table|
    ensures var c := ClosestFunction(table, n, n); n < c && forall i :: n < i < c ==> !OwnFunction(table[i])
  {
    assert forall i :: n < i < |table| ==> AddressOfRecord(table[n]) < AddressOfRecord(table[i]);
  }

  /** A size reaches to the next function or else to the end of the section, is positive, and does not wrap. */
  lemma {:induction false} SizeReaches(table: seq<Record>, n: nat)
    requires Sorted(table) && n < |table|
    ensures var c := ClosestFunction(table, n, n);
      if c < |table| then 0 < SizeAt(table, n) == AddressOfRecord(table[c]) - AddressOfRecord(table[n])
      else InSection(table[n]) ==> 0 < SizeAt(table, n) == SectionEnd(table[n]) - AddressOfRecord(table[n])
  {
  }

  /** Sum of the sizes of the functions from index `n` on. */
  function TotalSize(table: seq<Record>, n: nat): nat
    requires n <= |table|
    decreases |table| - n
  {
    if n == |table| then 0
    else (if OwnFunction(table[n]) then SizeAt(table, n) else 0) + TotalSize(table, n + 1)
  }

  function FirstFunction(table: seq<Record>, n: nat): (c: nat)
    requires n <= |table|
    ensures n <= c <= |table| && (c < |table| ==> OwnFunction(table[c]))
    ensures forall i :: n <= i < c ==> !OwnFunction(table[i])
    decreases |table| - n
  {
    if n == |table| || OwnFunction(table[n]) then n else FirstFunction(table, n + 1)
  }

  /** When all functions lie in one section the sizes telescope: they fill it from the first function to its end. */
  lemma {:induction false} SizesTelescope(table: seq<Record>, n: nat, section: RawSection)
    requires Sorted(table) && n <= |table|
    requires forall i :: n <= i < |table| && OwnFunction(table[i]) ==>
      InSection(table[i]) && table[i].parent.origin == section
    ensures var f := FirstFunction(table, n);
      TotalSize(table, n) == if f == |table| then 0 else section.vma + section.size - AddressOfRecord(table[f])
    decreases |table| - n
  {
    if n < |table| {
      SizesTelescope(table, n + 1, section);
      if OwnFunction(table[n]) {
        ClosestIsNextOwn(table, n);
        SizeReaches(table, n);
        assert FirstFunction(table, n + 1) == ClosestFunction(table, n, n);
      }
    }
  }

  /** The range of a symbol ends before another one begins. */
  predicate EndsBefore(table: seq<Record>, a: nat, b: nat)
    requires a < |table| && b < |table|
  {
    AddressOfRecord(table[a]) + SizeAt(table, a) <= AddressOfRecord(table[b])
  }

  /**
   When a function by its own flags follows, the range of a symbol ends before a later one exactly when such
   a function stands between them (or is the later one); when none follows, exactly when its section ends first.
   */
  lemma {:induction false} RangesDisjointExactly(table: seq<Record>, a: nat, b: nat)
    requires Sorted(table) && a < b < |table|
    ensures
      if exists c :: a < c < |table| && OwnFunction(table[c]) then
        EndsBefore(table, a, b) <==> exists c :: a < c <= b && OwnFunction(table[c])
      else
        InSection(table[a]) ==> (EndsBefore(table, a, b) <==> SectionEnd(table[a]) <= AddressOfRecord(table[b]))
  {
    ClosestIsNextOwn(table, a);
    SizeReaches(table, a);
    var c := ClosestFunction(table, a, a);
    if c < |table| {
      assert OwnFunction(table[c]);
      if c > b {
        assert AddressOfRecord(table[b]) < AddressOfRecord(table[c]);
      }
    }
  }

  /** What follows a symbol in the table begins behind its range if it is a function by its own flags. */
  lemma NextBeginsBehind(table: seq<Record>, n: nat, m: nat)
    requires Sorted(table) && n < m < |table| && OwnFunction(table[m])
    ensures EndsBefore(table, n, m)
  {
    ClosestIsNextOwn(table, n);
    SizeReaches(table, n);
    var c := ClosestFunction(table, n, n);
    if c < m {
      assert AddressOfRecord(table[c]) < AddressOfRecord(table[m]);
    }
  }

  /** The range of a symbol does not wrap around the address space; only the last function's range can. */
  predicate RangeFits(table: seq<Record>, n: nat)
    requires n < |table|
  {
    AddressOfRecord(table[n]) + ToInt(SizeAt(table, n)) <= TWO_TO_THE_64
  }

  lemma RangeFitsInSection(table: seq<Record>, n: nat)
    requires Sorted(table) && n < |table|
    requires ClosestFunction(table, n, n) < |table| || InSection(table[n])
    ensures RangeFits(table, n)
  {
    SizeReaches(table, n);
    ToIntAtMost(SizeAt(table, n));
  }
}
