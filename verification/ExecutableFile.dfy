/** The file object: it builds its symbol table and section buffer on demand and runs the disassembler over them. */
module ExecutableFile {
  import opened Wrappers
  import opened Nodes
  import SymbolTable
  import opened Symbols
  import opened Disassembler
  import opened FunctionRanges
  import opened Runs
  import opened WholeRun
  import opened Contributions
  import opened SymbolRegistry

  /** The records behind a list of symbol objects. */
  function ViewOf(symbols: seq<Symbol>): (v: seq<Record>)
    reads symbols
    ensures |v| == |symbols| && forall i :: 0 <= i < |v| ==> v[i] == symbols[i].View()
  {
    seq(|symbols|, i reads symbols requires 0 <= i < |symbols| => symbols[i].View())
  }

  ghost predicate DifferentObjects(symbols: seq<Symbol>) {
    forall i, j :: 0 <= i < j < |symbols| ==> symbols[i] != symbols[j]
  }

  ghost predicate AscendingSymbols(symbols: seq<Symbol>) {
    forall i, j :: 0 <= i < j < |symbols| ==> symbols[i].origin.value < symbols[j].origin.value
  }

  lemma InsertAscending(s: seq<Symbol>, p: nat, x: Symbol)
    requires AscendingSymbols(s) && p <= |s|
    requires forall i :: 0 <= i < p ==> s[i].origin.value < x.origin.value
    requires forall i :: p <= i < |s| ==> x.origin.value < s[i].origin.value
    ensures AscendingSymbols(s[..p] + [x] + s[p..])
    ensures forall y :: y in s[..p] + [x] + s[p..] <==> y in s || y == x
  {
    var r := s[..p] + [x] + s[p..];
    forall i, j | 0 <= i < j < |r| ensures r[i].origin.value < r[j].origin.value {
      assert r[i] == if i < p then s[i] else if i == p then x else s[i - 1];
      assert r[j] == if j < p then s[j] else if j == p then x else s[j - 1];
    }
    assert s == s[..p] + s[p..];
  }

  /** Puts a symbol at its place among symbols with other addresses. */
  method InsertSymbol(s: seq<Symbol>, x: Symbol) returns (r: seq<Symbol>)
    requires AscendingSymbols(s) && forall i :: 0 <= i < |s| ==> s[i].origin.value != x.origin.value
    ensures AscendingSymbols(r) && |r| == |s| + 1
    ensures forall y :: y in r <==> y in s || y == x
  {
    var p := 0;
    while p < |s| && s[p].origin.value < x.origin.value
      invariant p <= |s|
      invariant forall i :: 0 <= i < p ==> s[i].origin.value < x.origin.value
    {
      p := p + 1;
    }
    InsertAscending(s, p, x);
    r := s[..p] + [x] + s[p..];
  }

  /** Sorts symbols by address; their addresses differ, so there is only one way. */
  method SortSymbols(symbols: seq<Symbol>) returns (sorted: seq<Symbol>)
    requires forall i, j :: 0 <= i < j < |symbols| ==> symbols[i].origin.value != symbols[j].origin.value
    ensures AscendingSymbols(sorted) && |sorted| == |symbols|
    ensures forall s :: s in sorted <==> s in symbols
  {
    sorted := [];
    for k := 0 to |symbols|
      invariant |sorted| == k && AscendingSymbols(sorted)
      invariant forall s :: s in sorted <==> s in symbols[..k]
    {
      assert forall i :: 0 <= i < |sorted| ==> sorted[i] in symbols[..k];
      assert symbols[..k + 1] == symbols[..k] + [symbols[k]];
      sorted := InsertSymbol(sorted, symbols[k]);
    }
    assert symbols[..|symbols|] == symbols;
  }

  lemma InsertDescending(s: seq<Section>, p: nat, x: Section)
    requires Descending(s) && p <= |s|
    requires forall i :: 0 <= i < p ==> s[i].origin.vma >= x.origin.vma
    requires forall i :: p <= i < |s| ==> x.origin.vma >= s[i].origin.vma
    ensures Descending(s[..p] + [x] + s[p..])
  {
    var r := s[..p] + [x] + s[p..];
    forall i, j | 0 <= i < j < |r| ensures r[i].origin.vma >= r[j].origin.vma {
      assert r[i] == if i < p then s[i] else if i == p then x else s[i - 1];
      assert r[j] == if j < p then s[j] else if j == p then x else s[j - 1];
    }
  }

  lemma InsertMultiset<T>(s: seq<T>, p: nat, x: T)
    requires p <= |s|
    ensures multiset(s[..p] + [x] + s[p..]) == multiset(s) + multiset{x}
  {
    assert s == s[..p] + s[p..];
  }

  method InsertSection(s: seq<Section>, x: Section) returns (r: seq<Section>)
    requires Descending(s)
    ensures Descending(r) && multiset(r) == multiset(s) + multiset{x}
  {
    var p := 0;
    while p < |s| && s[p].origin.vma >= x.origin.vma
      invariant p <= |s|
      invariant forall i :: 0 <= i < p ==> s[i].origin.vma >= x.origin.vma
    {
      p := p + 1;
    }
    assert forall i :: p <= i < |s| ==> s[p].origin.vma >= s[i].origin.vma;
    InsertDescending(s, p, x);
    InsertMultiset(s, p, x);
    r := s[..p] + [x] + s[p..];
  }

  /** Sorts sections by descending address; the order among equal addresses is left open. */
  method SortSections(sections: seq<Section>) returns (sorted: seq<Section>)
    ensures multiset(sorted) == multiset(sections) && Descending(sorted)
  {
    sorted := [];
    for k := 0 to |sections|
      invariant multiset(sorted) == multiset(sections[..k]) && Descending(sorted)
    {
      assert sections[..k + 1] == sections[..k] + [sections[k]];
      sorted := InsertSection(sorted, sections[k]);
    }
    assert sections[..|sections|] == sections;
  }

  /** The first `n` symbols as functions by address; the first symbol of an address stays. */
  function FunctionIndex(table: seq<Record>, n: nat): map<Address, Node>
    requires n <= |table|
  {
    if n == 0 then map[]
    else
      var origin := table[n - 1].origin;
      SymbolTable.InsertAddress(FunctionIndex(table, n - 1), Function(origin.name, origin.value))
  }

  lemma IndexComplete(table: seq<Record>)
    requires Sorted(table)
    ensures var index := FunctionIndex(table, |table|);
      && |index| == |table|
      && (forall r :: r in table ==> Indexed(index, r))
      && (forall a :: a in index ==> HasRecordAt(table, a))
  {
    var index := FunctionIndex(table, |table|);
    FunctionIndexExact(table, |table|);
    forall a | a in index ensures HasRecordAt(table, a) {
      FunctionIndexKeys(table, |table|, a);
      var i :| 0 <= i < |table| && AddressOfRecord(table[i]) == a;
      assert table[i] in table;
    }
  }

  predicate Indexed(index: map<Address, Node>, r: Record) {
    r.origin.value in index && index[r.origin.value] == Function(r.origin.name, r.origin.value)
  }

  predicate AddressBefore(table: seq<Record>, n: nat, a: Address)
    requires n <= |table|
  {
    exists i :: 0 <= i < n && AddressOfRecord(table[i]) == a
  }

  lemma {:induction false} FunctionIndexKeys(table: seq<Record>, n: nat, a: Address)
    requires n <= |table| && a in FunctionIndex(table, n)
    ensures AddressBefore(table, n, a)
  {
    if AddressOfRecord(table[n - 1]) != a {
      FunctionIndexKeys(table, n - 1, a);
      var i :| 0 <= i < n - 1 && AddressOfRecord(table[i]) == a;
      assert 0 <= i < n;
    }
  }

  lemma FunctionIndexStep(table: seq<Record>, n: nat)
    requires Sorted(table) && n < |table|
    ensures
      var before, r := FunctionIndex(table, n), table[n];
      && r.origin.value !in before
      && FunctionIndex(table, n + 1) == before[r.origin.value := Function(r.origin.name, r.origin.value)]
  {
    var a := AddressOfRecord(table[n]);
    if a in FunctionIndex(table, n) {
      FunctionIndexKeys(table, n, a);
    }
  }

  /** In a sorted table no symbol is lost to another: there are as many entries as symbols. */
  lemma {:induction false} FunctionIndexExact(table: seq<Record>, n: nat)
    requires Sorted(table) && n <= |table|
    ensures |FunctionIndex(table, n)| == n
    ensures forall i :: 0 <= i < n ==> Indexed(FunctionIndex(table, n), table[i])
  {
    if n > 0 {
      FunctionIndexExact(table, n - 1);
      FunctionIndexStep(table, n - 1);
      forall i | 0 <= i < n ensures Indexed(FunctionIndex(table, n), table[i]) {
        if i < n - 1 { assert Indexed(FunctionIndex(table, n - 1), table[i]); }
      }
    }
  }

  /** The search for the closest function behind symbol `n`. */
  method FindClosest(table: seq<Symbol>, n: nat) returns (c: nat)
    requires n < |table|
    ensures c == ClosestFunction(ViewOf(table), n, n)
  {
    ghost var view := ViewOf(table);
    c := n;
    while c < |table| && !(HasFlag(table[c].origin, BSF_FUNCTION) && table[n].origin.value < table[c].origin.value)
      invariant n <= c <= |table|
      invariant ClosestFunction(view, n, c) == ClosestFunction(view, n, n)
    {
      c := c + 1;
    }
  }

  /** The size symbol `n` is swept with. */
  method SizeOf(table: seq<Symbol>, n: nat) returns (size: Address)
    requires n < |table|
    ensures size == SizeAt(ViewOf(table), n)
  {
    var c := FindClosest(table, n);
    size := if c == |table| then DistanceToEnd(table[n].View()) else DistanceTo(table[n].View(), table[c].View());
  }

  /** The step function does for symbol `n` what the table says. */
  predicate StepIs(step: Stepper, table: seq<Symbol>, n: nat, decode: RawSection -> Decoder, blocks: seq<BasicBlock>)
    requires n < |table|
    reads table
  {
    step(n, blocks) == StepAt(ViewOf(table), n, decode, blocks)
  }

  ghost predicate Agrees(step: Stepper, table: seq<Symbol>, decode: RawSection -> Decoder)
    reads table
  {
    forall n: nat, blocks: seq<BasicBlock> :: n < |table| ==> StepIs(step, table, n, decode, blocks)
  }

  lemma StepsAgree(table: seq<Symbol>, decode: RawSection -> Decoder)
    ensures Agrees(StepsOf(ViewOf(table), decode), table, decode)
  {
  }

  lemma ViewAppend(symbols: seq<Symbol>, s: Symbol)
    ensures ViewOf(symbols + [s]) == ViewOf(symbols) + [s.View()]
  {
  }

  lemma SameRecords(a: seq<Symbol>, b: seq<Symbol>)
    requires forall s :: s in a <==> s in b
    ensures forall r :: r in ViewOf(a) <==> r in ViewOf(b)
  {
    forall r ensures r in ViewOf(a) <==> r in ViewOf(b) {
      RecordOf(a, r);
      RecordOf(b, r);
    }
  }

  lemma RecordOf(symbols: seq<Symbol>, r: Record)
    ensures r in ViewOf(symbols) <==> exists s :: s in symbols && s.View() == r
  {
    if r in ViewOf(symbols) {
      var i :| 0 <= i < |symbols| && ViewOf(symbols)[i] == r;
      assert symbols[i] in symbols;
    }
    if s :| s in symbols && s.View() == r {
      var i :| 0 <= i < |symbols| && symbols[i] == s;
      assert ViewOf(symbols)[i] == r;
    }
  }

  lemma SameMembers(a: seq<Section>, b: seq<Section>)
    requires multiset(a) == multiset(b)
    ensures forall s :: s in a <==> s in b
    ensures Unique(a) ==> Unique(b)
  {
    assert forall s :: s in a <==> s in multiset(a);
    assert forall s :: s in b <==> s in multiset(b);
  }

  class ExecutableFile {
    const rawSymbols: seq<RawSymbol>
    const rawSections: seq<RawSection>
    const decode: RawSection -> Decoder
    const listing: Listing
    var sectionBuffer: seq<Section>
    var symbolBuffer: seq<Symbol>
    var sectionsSorted: bool

    constructor (rawSymbols: seq<RawSymbol>, rawSections: seq<RawSection>, decode: RawSection -> Decoder)
      ensures Valid() && symbolBuffer == [] && sectionBuffer == [] && !sectionsSorted
      ensures this.rawSymbols == rawSymbols && this.rawSections == rawSections && this.decode == decode
      ensures fresh(listing) && listing.blocks == [] && listing.instructions == []
    {
      this.rawSymbols, this.rawSections, this.decode := rawSymbols, rawSections, decode;
      listing := new Listing();
      sectionBuffer, symbolBuffer, sectionsSorted := [], [], false;
    }

    // ----- invariants between any two calls, in whatever order they come -----

    ghost predicate Valid()
      reads this, symbolBuffer
    {
      ValidTable() && ValidParents() && ValidSections()
    }

    /** Once built, the table is the one of the file's raw symbols. */
    ghost predicate ValidTable()
      reads this`symbolBuffer, symbolBuffer
    {
      symbolBuffer != [] ==> IsTable(ViewOf(symbolBuffer), rawSymbols)
    }

    /** The section of every symbol is in the section buffer. */
    ghost predicate ValidParents()
      reads this`symbolBuffer, this`sectionBuffer
    {
      forall s :: s in symbolBuffer ==> s.parent in sectionBuffer
    }

    /**
     No section is held twice; a sorted buffer holds all of the file's sections and stays sorted if they
     include all symbols' sections.
     */
    ghost predicate ValidSections()
      reads this`sectionBuffer, this`sectionsSorted
    {
      && Unique(sectionBuffer)
      && (sectionsSorted ==> forall raw :: raw in rawSections ==> Section(raw) in sectionBuffer)
      && (sectionsSorted && SectionsListed() ==> Descending(sectionBuffer))
    }

    /** The sections of all symbols are among the sections the file lists. */
    predicate SectionsListed() {
      forall s :: s in rawSymbols ==> s.section in rawSections
    }

    // ----- building the symbol table -----

    /** Position of the symbol at an address, or the number of symbols. */
    method FindSymbol(a: Address) returns (i: nat)
      ensures i <= |symbolBuffer|
      ensures i == RecordIndex(ViewOf(symbolBuffer), a)
    {
      i := 0;
      while i < |symbolBuffer| && symbolBuffer[i].origin.value != a
        invariant i <= |symbolBuffer|
        invariant forall j :: 0 <= j < i ==> symbolBuffer[j].origin.value != a
      {
        i := i + 1;
      }
      RecordIndexUnique(ViewOf(symbolBuffer), a, i);
    }

    method EnsureSection(raw: RawSection)
      requires Unique(sectionBuffer)
      modifies this`sectionBuffer
      ensures Unique(sectionBuffer) && sectionBuffer == Add(old(sectionBuffer), Section(raw))
    {
      UniqueAdd(sectionBuffer, Section(raw));
      if Section(raw) !in sectionBuffer {
        sectionBuffer := sectionBuffer + [Section(raw)];
      }
    }

    method AppendSymbol(raw: RawSymbol)
      modifies this`symbolBuffer
      ensures |symbolBuffer| == |old(symbolBuffer)| + 1
      ensures symbolBuffer == old(symbolBuffer) + [symbolBuffer[|symbolBuffer| - 1]]
      ensures fresh(symbolBuffer[|symbolBuffer| - 1]) && symbolBuffer[|symbolBuffer| - 1].parent == Section(raw.section)
      ensures ViewOf(symbolBuffer) == old(ViewOf(symbolBuffer)) + [Record(raw, Section(raw.section), [])]
    {
      var symbol := new Symbol(raw, Section(raw.section));
      ViewAppend(symbolBuffer, symbol);
      symbolBuffer := symbolBuffer + [symbol];
    }

    method AppendAlias(i: nat, raw: RawSymbol)
      requires i < |symbolBuffer| && DifferentObjects(symbolBuffer)
      modifies symbolBuffer[i]
      ensures ViewOf(symbolBuffer) ==
        old(ViewOf(symbolBuffer))[i := old(symbolBuffer[i].View()).(aliases := old(symbolBuffer[i].aliases) + [raw])]
    {
      symbolBuffer[i].AddAlias(raw);
    }

    /** Handles the next raw symbol while the table is built. */
    method AddRawSymbol(raw: RawSymbol)
      requires DifferentObjects(symbolBuffer) && Unique(sectionBuffer)
      modifies this`symbolBuffer, this`sectionBuffer, symbolBuffer
      ensures DifferentObjects(symbolBuffer) && Unique(sectionBuffer)
      ensures old(symbolBuffer) <= symbolBuffer
      ensures forall i :: |old(symbolBuffer)| <= i < |symbolBuffer| ==> fresh(symbolBuffer[i])
      ensures ViewOf(symbolBuffer) == AddToTable(old(ViewOf(symbolBuffer)), raw)
      ensures sectionBuffer ==
        if RecordIndex(old(ViewOf(symbolBuffer)), raw.value) == |old(symbolBuffer)|
        then Add(old(sectionBuffer), Section(raw.section))
        else old(sectionBuffer)
    {
      var i := FindSymbol(raw.value);
      if i == |symbolBuffer| {
        EnsureSection(raw.section);
        AppendSymbol(raw);
      } else {
        AppendAlias(i, raw);
      }
    }

    /** The table and the section buffer after the first `k` raw symbols, from the sections there were before. */
    ghost predicate Built(k: nat, sections: seq<Section>)
      requires k <= |rawSymbols|
      reads this`symbolBuffer, this`sectionBuffer, symbolBuffer
    {
      && DifferentObjects(symbolBuffer) && Unique(sectionBuffer)
      && ViewOf(symbolBuffer) == Build(rawSymbols, k) && sectionBuffer == SectionsWith(sections, rawSymbols, k)
    }

    method AddNext(k: nat, ghost sections: seq<Section>)
      requires k < |rawSymbols| && Built(k, sections)
      modifies this`symbolBuffer, this`sectionBuffer, symbolBuffer
      ensures Built(k + 1, sections) && old(symbolBuffer) <= symbolBuffer
      ensures forall i :: |old(symbolBuffer)| <= i < |symbolBuffer| ==> fresh(symbolBuffer[i])
    {
      OpensExactly(rawSymbols, k);
      AddRawSymbol(rawSymbols[k]);
    }

    method BuildTable()
      requires symbolBuffer == [] && Unique(sectionBuffer)
      modifies this`symbolBuffer, this`sectionBuffer
      ensures Built(|rawSymbols|, old(sectionBuffer))
      ensures forall s :: s in symbolBuffer ==> fresh(s)
    {
      for k := 0 to |rawSymbols|
        invariant forall i :: 0 <= i < |symbolBuffer| ==> fresh(symbolBuffer[i])
        invariant Built(k, old(sectionBuffer))
      {
        AddNext(k, old(sectionBuffer));
      }
    }

    method SortTable()
      requires DistinctAddresses(ViewOf(symbolBuffer))
      modifies this`symbolBuffer
      ensures Sorted(ViewOf(symbolBuffer))
      ensures forall s :: s in symbolBuffer <==> s in old(symbolBuffer)
      ensures forall r :: r in ViewOf(symbolBuffer) <==> r in old(ViewOf(symbolBuffer))
    {
      ghost var unsorted := symbolBuffer;
      DifferentAddresses(symbolBuffer);
      symbolBuffer := SortSymbols(symbolBuffer);
      SameRecords(unsorted, symbolBuffer);
    }

    method CreateTable()
      requires symbolBuffer == [] && Unique(sectionBuffer)
      modifies this`symbolBuffer, this`sectionBuffer
      ensures IsTable(ViewOf(symbolBuffer), rawSymbols) && ValidParents()
      ensures Unique(sectionBuffer) && sectionBuffer == SectionsWith(old(sectionBuffer), rawSymbols, |rawSymbols|)
      ensures forall s :: s in symbolBuffer ==> fresh(s)
    {
      BuildTable();
      BuildComplete(rawSymbols, |rawSymbols|);
      BuildParents(old(sectionBuffer), rawSymbols, |rawSymbols|);
      SortTable();
      SortedBuildIsTable(ViewOf(symbolBuffer), rawSymbols);
      ParentsOf(symbolBuffer, sectionBuffer);
    }

    /**
     Builds the symbol table on the first call. It has one symbol per address, ascending, with all
     raw symbols of that address; a later call changes nothing.
     */
    method GetSymbolTable() returns (table: seq<Symbol>)
      requires Valid()
      modifies this`symbolBuffer, this`sectionBuffer
      ensures Valid() && table == symbolBuffer
      ensures IsTable(ViewOf(symbolBuffer), rawSymbols)
      ensures old(symbolBuffer) != [] ==> symbolBuffer == old(symbolBuffer) && sectionBuffer == old(sectionBuffer)
      ensures old(symbolBuffer) == [] ==> sectionBuffer == SectionsWith(old(sectionBuffer), rawSymbols, |rawSymbols|)
      ensures old(symbolBuffer) == [] ==> forall s :: s in symbolBuffer ==> fresh(s)
    {
      if symbolBuffer == [] {
        SectionsKept(sectionBuffer, rawSymbols);
        CreateTable();
      }
      table := symbolBuffer;
    }

    // ----- sections -----

    method AddSections()
      requires Unique(sectionBuffer)
      modifies this`sectionBuffer
      ensures Unique(sectionBuffer) && sectionBuffer == SectionsFetched(old(sectionBuffer), rawSections, |rawSections|)
    {
      for k := 0 to |rawSections|
        invariant Unique(sectionBuffer) && sectionBuffer == SectionsFetched(old(sectionBuffer), rawSections, k)
      {
        EnsureSection(rawSections[k]);
      }
    }

    method SortBuffer()
      requires Unique(sectionBuffer)
      modifies this`sectionBuffer
      ensures Unique(sectionBuffer) && Descending(sectionBuffer)
      ensures multiset(sectionBuffer) == multiset(old(sectionBuffer))
      ensures forall s :: s in sectionBuffer <==> s in old(sectionBuffer)
    {
      ghost var before := sectionBuffer;
      sectionBuffer := SortSections(sectionBuffer);
      SameMembers(before, sectionBuffer);
    }

    /** Adds the file's sections that are missing and, the first time, sorts the buffer. */
    method RefreshSections()
      requires ValidSections()
      modifies this`sectionBuffer, this`sectionsSorted
      ensures ValidSections() && sectionsSorted
      ensures forall s :: s in old(sectionBuffer) ==> s in sectionBuffer
      ensures old(sectionsSorted) ==> sectionBuffer == old(sectionBuffer)
      ensures !old(sectionsSorted) ==> Descending(sectionBuffer)
      ensures !old(sectionsSorted) ==>
        multiset(sectionBuffer) == multiset(SectionsFetched(old(sectionBuffer), rawSections, |rawSections|))
    {
      AddSections();
      if sectionsSorted {
        NothingFetched(old(sectionBuffer), rawSections, |rawSections|);
      } else {
        SortBuffer();
        sectionsSorted := true;
      }
    }

    method GetSections() returns (sections: seq<Section>)
      requires Valid()
      modifies this`sectionBuffer, this`sectionsSorted
      ensures Valid() && sectionsSorted && sections == sectionBuffer
      ensures !old(sectionsSorted) ==>
        forall i, j :: 0 <= i < j < |sections| ==> sections[j].origin.vma <= sections[i].origin.vma
      ensures old(sectionsSorted) ==> sectionBuffer == old(sectionBuffer)
      ensures !old(sectionsSorted) ==> Descending(sectionBuffer)
      ensures !old(sectionsSorted) ==>
        multiset(sectionBuffer) == multiset(SectionsFetched(old(sectionBuffer), rawSections, |rawSections|))
    {
      RefreshSections();
      sections := sectionBuffer;
    }

    // ----- tables and listings -----

    /** The table of functions by address: one entry per symbol, none lost. */
    method GenerateTable() returns (table: map<Address, Node>)
      requires Valid()
      modifies this`symbolBuffer, this`sectionBuffer
      ensures Valid() && IsTable(ViewOf(symbolBuffer), rawSymbols)
      ensures |table| == |symbolBuffer| && forall r :: r in ViewOf(symbolBuffer) ==> Indexed(table, r)
      ensures forall a :: a in table ==> HasRecordAt(ViewOf(symbolBuffer), a)
    {
      var symbols := GetSymbolTable();
      table := IndexSymbols(symbols);
      IndexComplete(ViewOf(symbols));
    }

    method IndexSymbols(symbols: seq<Symbol>) returns (table: map<Address, Node>)
      ensures table == FunctionIndex(ViewOf(symbols), |symbols|)
    {
      table := map[];
      for k := 0 to |symbols|
        invariant table == FunctionIndex(ViewOf(symbols), k)
      {
        table := SymbolTable.InsertAddress(table, Function(symbols[k].origin.name, symbols[k].origin.value));
      }
    }

    /** One step of the run: what the table's symbol `n` adds to the listing. */
    method SweepOne(table: seq<Symbol>, n: nat) returns (ok: bool)
      requires n < |table|
      modifies listing
      ensures
        var step := StepAt(ViewOf(table), n, decode, old(listing.blocks));
        && ok == step.ok
        && listing.blocks == step.blocks
        && listing.instructions == old(listing.instructions) + step.instructions
    {
      var isFunction := table[n].HasFlags(BSF_FUNCTION);
      if !isFunction {
        return true;
      }
      var size := SizeOf(table, n);
      var loader := new SymbolDataLoader(table[n].origin);
      ok := loader.Fetch(listing, decode(table[n].parent.origin), size);
    }

    /** The same, for a step function known only to agree with the table's steps. */
    method SweepStep(table: seq<Symbol>, n: nat, ghost step: Stepper) returns (ok: bool)
      requires n < |table| && Agrees(step, table, decode)
      modifies listing
      ensures
        var first := step(n, old(listing.blocks));
        && ok == first.ok
        && listing.blocks == first.blocks
        && listing.instructions == old(listing.instructions) + first.instructions
    {
      assert StepIs(step, table, n, decode, listing.blocks);
      ok := SweepOne(table, n);
    }

    method SweepSteps(table: seq<Symbol>, ghost step: Stepper) returns (ok: bool)
      requires Agrees(step, table, decode)
      modifies listing
      ensures
        var run := RunSteps(step, 0, |table|, old(listing.blocks));
        && ok == run.ok
        && listing.blocks == run.blocks
        && listing.instructions == old(listing.instructions) + run.instructions
    {
      ghost var run := RunSteps(step, 0, |table|, listing.blocks);
      for n := 0 to |table|
        modifies listing
        invariant RunSteps(step, n, |table|, listing.blocks).ok == run.ok
        invariant RunSteps(step, n, |table|, listing.blocks).blocks == run.blocks
        invariant listing.instructions + RunSteps(step, n, |table|, listing.blocks).instructions
               == old(listing.instructions) + run.instructions
      {
        ghost var before := listing.instructions;
        ghost var first := step(n, listing.blocks);
        ghost var rest := RunSteps(step, n + 1, |table|, first.blocks).instructions;
        var swept := SweepStep(table, n, step);
        if !swept {
          return false;
        }
        assert (before + first.instructions) + rest == before + (first.instructions + rest);
      }
      return true;
    }

    /** Sweeps the functions of the table into the listing; false when an assertion fails, which ends the run. */
    method SweepAll(table: seq<Symbol>, ghost view: seq<Record>) returns (ok: bool)
      requires view == ViewOf(table)
      modifies listing
      ensures
        var run := RunAll(view, decode, old(listing.blocks));
        && ok == run.ok
        && listing.blocks == run.blocks
        && listing.instructions == old(listing.instructions) + run.instructions
    {
      StepsAgree(table, decode);
      ok := SweepSteps(table, StepsOf(view, decode));
    }

    /** The same, with all that is known of a run. */
    method SweepListing(table: seq<Symbol>, ghost view: seq<Record>) returns (ok: bool)
      requires view == ViewOf(table)
      modifies listing
      ensures Ran(view, decode, old(listing.blocks), old(listing.instructions), ok,
                  listing.blocks, listing.instructions)
    {
      ghost var run := RunAll(view, decode, listing.blocks);
      ok := SweepAll(table, view);
      RunsSo(view, decode, old(listing.blocks), old(listing.instructions), run);
    }

    method RunDisassembler() returns (ok: bool)
      requires Valid()
      modifies this`symbolBuffer, this`sectionBuffer, listing
      ensures Valid() && IsTable(ViewOf(symbolBuffer), rawSymbols)
      ensures Ran(ViewOf(symbolBuffer), decode, old(listing.blocks), old(listing.instructions), ok,
                  listing.blocks, listing.instructions)
      ensures Accounted(ViewOf(symbolBuffer), decode, old(listing.blocks), old(listing.instructions), ok,
                        listing.blocks, listing.instructions)
    {
      var table := GetSymbolTable();
      ghost var view := ViewOf(table);
      ok := SweepListing(table, view);
      assert ViewOf(symbolBuffer) == view;
    }
  }

  lemma ParentsOf(symbols: seq<Symbol>, sections: seq<Section>)
    requires forall r :: r in ViewOf(symbols) ==> r.parent in sections
    ensures forall s :: s in symbols ==> s.parent in sections
  {
    forall s | s in symbols ensures s.parent in sections {
      RecordOf(symbols, s.View());
    }
  }

  lemma DifferentAddresses(symbols: seq<Symbol>)
    requires DistinctAddresses(ViewOf(symbols))
    ensures forall i, j :: 0 <= i < j < |symbols| ==> symbols[i].origin.value != symbols[j].origin.value
  {
    forall i, j | 0 <= i < j < |symbols| ensures symbols[i].origin.value != symbols[j].origin.value {
      assert AddressOfRecord(ViewOf(symbols)[i]) != AddressOfRecord(ViewOf(symbols)[j]);
    }
  }
}
