/** The symbol table and the section buffer a file is described by, as functions of its raw symbols and sections. */
module SymbolRegistry {
  import opened Wrappers
  import opened OrderedSet
  import opened Symbols
  import opened FunctionRanges

  // ----- the symbol table -----

  /** The raw symbols at one address, in file order. */
  function SameAddress(raws: seq<RawSymbol>, a: Address): (r: seq<RawSymbol>)
    ensures forall s :: s in r <==> s in raws && s.value == a
  {
    if raws == [] then []
    else
      var last := raws[|raws| - 1];
      assert forall s :: s in raws <==> s in raws[..|raws| - 1] || s == last;
      SameAddress(raws[..|raws| - 1], a) + if last.value == a then [last] else []
  }

  /** A record's symbols: the one it was created from and its aliases. */
  function Members(r: Record): seq<RawSymbol> {
    [r.origin] + r.aliases
  }

  predicate HasRecordAt(table: seq<Record>, a: Address) {
    exists r :: r in table && AddressOfRecord(r) == a
  }

  /** Each record holds all raw symbols of its address, the first one as its origin. */
  ghost predicate Complete(table: seq<Record>, raws: seq<RawSymbol>) {
    && (forall r :: r in table ==> RecordComplete(r, raws))
    && (forall s :: s in raws ==> HasRecordAt(table, s.value))
  }

  predicate RecordComplete(r: Record, raws: seq<RawSymbol>) {
    Members(r) == SameAddress(raws, AddressOfRecord(r)) && r.parent == Section(r.origin.section)
  }

  ghost predicate DistinctAddresses(table: seq<Record>) {
    forall i, j :: 0 <= i < j < |table| ==> AddressOfRecord(table[i]) != AddressOfRecord(table[j])
  }

  /** The symbol table of a list of raw symbols. */
  ghost predicate IsTable(table: seq<Record>, raws: seq<RawSymbol>) {
    Sorted(table) && Complete(table, raws)
  }

  lemma RecordAddresses(table: seq<Record>, raws: seq<RawSymbol>, a: Address)
    requires Complete(table, raws)
    ensures HasRecordAt(table, a) <==> exists s :: s in raws && s.value == a
  {
    if HasRecordAt(table, a) {
      var r :| r in table && AddressOfRecord(r) == a;
      assert RecordComplete(r, raws);
      assert Members(r)[0] in SameAddress(raws, a);
    }
  }

  lemma SameAddressStep(raws: seq<RawSymbol>, s: RawSymbol, a: Address)
    ensures SameAddress(raws + [s], a) == if s.value == a then SameAddress(raws, a) + [s] else SameAddress(raws, a)
  {
    assert (raws + [s])[..|raws|] == raws;
    assert SameAddress(raws, a) + [] == SameAddress(raws, a);
  }

  lemma {:induction false} NoneAtAddress(raws: seq<RawSymbol>, a: Address)
    requires forall s :: s in raws ==> s.value != a
    ensures SameAddress(raws, a) == []
  {
    if raws != [] {
      NoneAtAddress(raws[..|raws| - 1], a);
      assert raws[|raws| - 1] in raws;
    }
  }

  lemma Covered(table: seq<Record>, table': seq<Record>, raws: seq<RawSymbol>, s: RawSymbol)
    requires forall t :: t in raws ==> HasRecordAt(table, t.value)
    requires forall r :: r in table ==> HasRecordAt(table', AddressOfRecord(r))
    requires HasRecordAt(table', s.value)
    ensures forall t :: t in raws + [s] ==> HasRecordAt(table', t.value)
  {
    forall t | t in raws + [s] ensures HasRecordAt(table', t.value) {
      if t in raws {
        var r :| r in table && AddressOfRecord(r) == t.value;
      }
    }
  }

  lemma OtherRecord(r: Record, raws: seq<RawSymbol>, s: RawSymbol)
    requires RecordComplete(r, raws) && AddressOfRecord(r) != s.value
    ensures RecordComplete(r, raws + [s])
  {
    SameAddressStep(raws, s, AddressOfRecord(r));
  }

  lemma OtherRecords(table: seq<Record>, raws: seq<RawSymbol>, s: RawSymbol)
    requires Complete(table, raws) && !HasRecordAt(table, s.value)
    ensures forall r :: r in table ==> RecordComplete(r, raws + [s])
  {
    forall r | r in table ensures RecordComplete(r, raws + [s]) {
      OtherRecord(r, raws, s);
    }
  }

  lemma NewRecord(table: seq<Record>, raws: seq<RawSymbol>, s: RawSymbol)
    requires Complete(table, raws) && !HasRecordAt(table, s.value)
    ensures RecordComplete(Record(s, Section(s.section), []), raws + [s])
  {
    RecordAddresses(table, raws, s.value);
    NoneAtAddress(raws, s.value);
    SameAddressStep(raws, s, s.value);
  }

  lemma DistinctWithNew(table: seq<Record>, r: Record)
    requires DistinctAddresses(table) && !HasRecordAt(table, AddressOfRecord(r))
    ensures DistinctAddresses(table + [r])
  {
    assert forall i :: 0 <= i < |table| ==> table[i] in table;
  }

  /** A symbol at a new address gets a record of its own. */
  lemma CompleteNew(table: seq<Record>, raws: seq<RawSymbol>, s: RawSymbol)
    requires Complete(table, raws) && DistinctAddresses(table) && !HasRecordAt(table, s.value)
    ensures var table' := table + [Record(s, Section(s.section), [])];
      Complete(table', raws + [s]) && DistinctAddresses(table')
  {
    var r := Record(s, Section(s.section), []);
    var table' := table + [r];
    OtherRecords(table, raws, s);
    NewRecord(table, raws, s);
    DistinctWithNew(table, r);
    assert forall q :: q in table' <==> q in table || q == r;
    Covered(table, table', raws, s);
  }

  /** A symbol at a known address becomes an alias of that record. */
  lemma CompleteAlias(table: seq<Record>, raws: seq<RawSymbol>, s: RawSymbol, i: nat)
    requires Complete(table, raws) && DistinctAddresses(table) && i < |table| && AddressOfRecord(table[i]) == s.value
    ensures var table' := table[i := table[i].(aliases := table[i].aliases + [s])];
      Complete(table', raws + [s]) && DistinctAddresses(table')
  {
    var r := table[i].(aliases := table[i].aliases + [s]);
    var table' := table[i := r];
    assert Members(r) == Members(table[i]) + [s];
    forall k | 0 <= k < |table'| ensures RecordComplete(table'[k], raws + [s]) {
      assert table[k] in table;
      if k == i {
        SameAddressStep(raws, s, s.value);
      } else {
        OtherRecord(table[k], raws, s);
      }
    }
    forall q | q in table ensures HasRecordAt(table', AddressOfRecord(q)) {
      var k :| 0 <= k < |table| && table[k] == q;
      assert table'[k] in table';
    }
    assert table'[i] in table';
    Covered(table, table', raws, s);
  }

  lemma CompleteReordered(table: seq<Record>, table': seq<Record>, raws: seq<RawSymbol>)
    requires Complete(table, raws) && forall r :: r in table <==> r in table'
    ensures Complete(table', raws)
  {
    forall s | s in raws ensures HasRecordAt(table', s.value) {
      assert HasRecordAt(table, s.value);
    }
  }

  lemma {:induction false} SameAddressAppend(s: seq<RawSymbol>, t: seq<RawSymbol>, a: Address)
    ensures SameAddress(s + t, a) == SameAddress(s, a) + SameAddress(t, a)
  {
    if t == [] {
      assert s + t == s;
    } else {
      assert (s + t)[..|s + t| - 1] == s + t[..|t| - 1];
      SameAddressAppend(s, t[..|t| - 1], a);
    }
  }

  lemma SameAddressOne(s: RawSymbol, a: Address)
    ensures SameAddress([s], a) == if s.value == a then [s] else []
  {
    assert [s][..0] == [];
  }

  lemma HeadApart<T>(s: seq<T>)
    requires s != []
    ensures [s[0]] + s[1..] == s
  {
  }

  lemma NothingBefore<T>(s: seq<T>)
    ensures [] + s == s
  {
  }

  lemma SameAddressHead(raws: seq<RawSymbol>, a: Address)
    requires raws != []
    ensures SameAddress(raws, a)
         == if raws[0].value == a then [raws[0]] + SameAddress(raws[1..], a) else SameAddress(raws[1..], a)
  {
    HeadApart(raws);
    SameAddressAppend([raws[0]], raws[1..], a);
    SameAddressOne(raws[0], a);
    NothingBefore(SameAddress(raws[1..], a));
  }

  lemma SkipOne<T>(s: seq<T>, k: nat)
    requires k + 1 < |s|
    ensures s[1..][k + 1..] == s[k + 2..] && s[1..][k] == s[k + 1]
    ensures forall j :: 0 < j < k + 1 ==> s[j] == s[1..][j - 1]
  {
  }

  /** Position `k` holds the first symbol of an address. */
  predicate FirstAt(raws: seq<RawSymbol>, a: Address, k: nat) {
    k < |raws| && raws[k].value == a && forall j :: 0 <= j < k ==> raws[j].value != a
  }

  lemma FirstLater(raws: seq<RawSymbol>, a: Address, k: nat)
    requires raws != [] && raws[0].value != a && FirstAt(raws[1..], a, k)
    ensures FirstAt(raws, a, k + 1)
  {
    SkipOne(raws, k);
  }

  lemma {:induction false} FirstAtAddress(raws: seq<RawSymbol>, a: Address) returns (k: nat)
    requires SameAddress(raws, a) != []
    ensures FirstAt(raws, a, k) && SameAddress(raws, a) == [raws[k]] + SameAddress(raws[k + 1..], a)
  {
    SameAddressHead(raws, a);
    if raws[0].value == a {
      k := 0;
    } else {
      var later := FirstAtAddress(raws[1..], a);
      FirstLater(raws, a, later);
      SkipOne(raws, later);
      k := later + 1;
    }
  }

  predicate OpensAt(raws: seq<RawSymbol>, r: Record, k: nat)
    requires k < |raws|
  {
    && raws[k] == r.origin && (forall j :: 0 <= j < k ==> raws[j].value != r.origin.value)
    && r.aliases == SameAddress(raws[k + 1..], r.origin.value)
  }

  /**
   A record's origin is the first raw symbol of its address, its section the origin's, and its aliases are the
   later symbols of that address in file order.
   */
  lemma {:induction false} OriginFirst(table: seq<Record>, raws: seq<RawSymbol>, r: Record)
    requires IsTable(table, raws) && r in table
    ensures r.parent.origin == r.origin.section
    ensures exists k :: 0 <= k < |raws| && OpensAt(raws, r, k)
  {
    assert RecordComplete(r, raws);
    var k := FirstAtAddress(raws, r.origin.value);
    HeadAndTail(r, raws[k], SameAddress(raws[k + 1..], r.origin.value));
    assert OpensAt(raws, r, k);
  }

  lemma HeadAndTail(r: Record, first: RawSymbol, rest: seq<RawSymbol>)
    requires Members(r) == [first] + rest
    ensures r.origin == first && r.aliases == rest
  {
    assert r.origin == Members(r)[0] && r.aliases == Members(r)[1..];
    assert ([first] + rest)[0] == first && ([first] + rest)[1..] == rest;
  }

  // ----- building it, one raw symbol after the other -----

  /** Position of the record at an address, or the number of records. */
  function RecordIndex(table: seq<Record>, a: Address): (i: nat)
    ensures i <= |table| && (i < |table| ==> AddressOfRecord(table[i]) == a)
    ensures forall j :: 0 <= j < i ==> AddressOfRecord(table[j]) != a
  {
    if table == [] || AddressOfRecord(table[0]) == a then 0 else 1 + RecordIndex(table[1..], a)
  }

  lemma RecordIndexFinds(table: seq<Record>, a: Address)
    ensures RecordIndex(table, a) < |table| <==> HasRecordAt(table, a)
  {
    var i := RecordIndex(table, a);
    if i < |table| {
      assert table[i] in table;
    }
  }

  lemma RecordIndexUnique(table: seq<Record>, a: Address, i: nat)
    requires i <= |table| && forall j :: 0 <= j < i ==> AddressOfRecord(table[j]) != a
    requires i < |table| ==> AddressOfRecord(table[i]) == a
    ensures RecordIndex(table, a) == i
  {
  }

  function AddToTable(table: seq<Record>, s: RawSymbol): seq<Record> {
    var i := RecordIndex(table, s.value);
    if i == |table| then table + [Record(s, Section(s.section), [])]
    else table[i := table[i].(aliases := table[i].aliases + [s])]
  }

  /** The unsorted table after the first `n` raw symbols. */
  function Build(raws: seq<RawSymbol>, n: nat): seq<Record>
    requires n <= |raws|
  {
    if n == 0 then [] else AddToTable(Build(raws, n - 1), raws[n - 1])
  }

  lemma AddComplete(table: seq<Record>, raws: seq<RawSymbol>, s: RawSymbol)
    requires Complete(table, raws) && DistinctAddresses(table)
    ensures Complete(AddToTable(table, s), raws + [s]) && DistinctAddresses(AddToTable(table, s))
  {
    RecordIndexFinds(table, s.value);
    if RecordIndex(table, s.value) == |table| {
      CompleteNew(table, raws, s);
    } else {
      CompleteAlias(table, raws, s, RecordIndex(table, s.value));
    }
  }

  /** Each record complete, and no address twice. */
  ghost predicate WellBuilt(table: seq<Record>, raws: seq<RawSymbol>) {
    Complete(table, raws) && DistinctAddresses(table)
  }

  lemma BuildStep(raws: seq<RawSymbol>, n: nat, before: seq<RawSymbol>, prefix: seq<RawSymbol>)
    requires n < |raws| && prefix == before + [raws[n]] && WellBuilt(Build(raws, n), before)
    ensures WellBuilt(Build(raws, n + 1), prefix)
  {
    AddComplete(Build(raws, n), before, raws[n]);
  }

  lemma PrefixStep<T>(s: seq<T>, n: nat)
    requires n < |s|
    ensures s[..n + 1] == s[..n] + [s[n]]
  {
  }

  lemma NothingBuilt()
    ensures WellBuilt([], [])
  {
  }

  lemma {:induction false} BuildWell(raws: seq<RawSymbol>, n: nat)
    requires n <= |raws|
    ensures WellBuilt(Build(raws, n), raws[..n])
  {
    if n == 0 {
      NothingBuilt();
    } else {
      BuildWell(raws, n - 1);
      PrefixStep(raws, n - 1);
      BuildStep(raws, n - 1, raws[..n - 1], raws[..n]);
    }
  }

  lemma {:induction false} BuildComplete(raws: seq<RawSymbol>, n: nat)
    requires n <= |raws|
    ensures Complete(Build(raws, n), raws[..n]) && DistinctAddresses(Build(raws, n))
  {
    BuildWell(raws, n);
  }

  /** Sorting the built table gives the symbol table. */
  lemma {:induction false} SortedBuildIsTable(table: seq<Record>, raws: seq<RawSymbol>)
    requires Sorted(table) && forall r :: r in Build(raws, |raws|) <==> r in table
    ensures IsTable(table, raws)
  {
    BuildComplete(raws, |raws|);
    assert raws[..|raws|] == raws;
    CompleteReordered(Build(raws, |raws|), table, raws);
  }

  // ----- what the table says: everything, once, in one way -----

  function AllMembers(table: seq<Record>): seq<RawSymbol> {
    if table == [] then [] else AllMembers(table[..|table| - 1]) + Members(table[|table| - 1])
  }

  lemma {:induction false} SameAddressCount(raws: seq<RawSymbol>, a: Address, x: RawSymbol)
    ensures multiset(SameAddress(raws, a))[x] == if x.value == a then multiset(raws)[x] else 0
  {
    if raws != [] {
      var init, last := raws[..|raws| - 1], raws[|raws| - 1];
      SameAddressCount(init, a, x);
      assert raws == init + [last];
    }
  }

  lemma {:induction false} MembersCount(table: seq<Record>, raws: seq<RawSymbol>, x: RawSymbol)
    requires forall r :: r in table ==> RecordComplete(r, raws)
    requires Sorted(table)
    ensures multiset(AllMembers(table))[x] == if HasRecordAt(table, x.value) then multiset(raws)[x] else 0
  {
    if table != [] {
      var init, last := table[..|table| - 1], table[|table| - 1];
      assert table == init + [last];
      MembersCount(init, raws, x);
      assert RecordComplete(last, raws);
      SameAddressCount(raws, AddressOfRecord(last), x);
      assert HasRecordAt(table, x.value) <==> HasRecordAt(init, x.value) || AddressOfRecord(last) == x.value;
      assert AddressOfRecord(last) == x.value ==> !HasRecordAt(init, x.value);
    }
  }

  /** No raw symbol is lost or doubled: the origins and aliases together are exactly the raw symbols. */
  lemma {:induction false} TableConserves(table: seq<Record>, raws: seq<RawSymbol>)
    requires IsTable(table, raws)
    ensures multiset(AllMembers(table)) == multiset(raws)
  {
    forall x ensures multiset(AllMembers(table))[x] == multiset(raws)[x] {
      MembersCount(table, raws, x);
      if x in raws {
        assert HasRecordAt(table, x.value);
      }
    }
  }

  function Addresses(table: seq<Record>): (s: seq<Address>)
    ensures |s| == |table| && forall i :: 0 <= i < |s| ==> s[i] == AddressOfRecord(table[i])
  {
    seq(|table|, i requires 0 <= i < |table| => AddressOfRecord(table[i]))
  }

  /** The raw symbols leave no choice about the table. */
  lemma {:induction false} TableUnique(table: seq<Record>, table': seq<Record>, raws: seq<RawSymbol>)
    requires IsTable(table, raws) && IsTable(table', raws)
    ensures table == table'
  {
    forall a ensures a in Addresses(table) <==> a in Addresses(table') {
      AddressListed(table, raws, a);
      AddressListed(table', raws, a);
    }
    ElementsDetermine(Addresses(table), Addresses(table'));
    forall i | 0 <= i < |table| ensures table[i] == table'[i] {
      assert Addresses(table)[i] == Addresses(table')[i];
      assert table[i] in table && table'[i] in table';
      assert RecordComplete(table[i], raws) && RecordComplete(table'[i], raws);
      assert Members(table[i]) == Members(table'[i]);
      assert table[i].origin == Members(table[i])[0] && table[i].aliases == Members(table[i])[1..];
      assert table'[i].origin == Members(table'[i])[0] && table'[i].aliases == Members(table'[i])[1..];
    }
  }

  lemma AddressListed(table: seq<Record>, raws: seq<RawSymbol>, a: Address)
    requires Complete(table, raws)
    ensures a in Addresses(table) <==> exists s :: s in raws && s.value == a
  {
    RecordAddresses(table, raws, a);
    if HasRecordAt(table, a) {
      var r :| r in table && AddressOfRecord(r) == a;
      var i :| 0 <= i < |table| && table[i] == r;
      assert Addresses(table)[i] == a;
    }
  }

  // ----- sections -----

  function Add(sections: seq<Section>, s: Section): seq<Section> {
    if s in sections then sections else sections + [s]
  }

  /** The first symbol of an address in file order; only these bring their section along. */
  predicate OpensRecord(raws: seq<RawSymbol>, k: nat)
    requires k < |raws|
  {
    forall j :: 0 <= j < k ==> raws[j].value != raws[k].value
  }

  /** The section buffer after the symbol table was built from the first `n` raw symbols. */
  function SectionsWith(sections: seq<Section>, raws: seq<RawSymbol>, n: nat): seq<Section>
    requires n <= |raws|
  {
    if n == 0 then sections
    else
      var before := SectionsWith(sections, raws, n - 1);
      if OpensRecord(raws, n - 1) then Add(before, Section(raws[n - 1].section)) else before
  }

  /** The section buffer after the first `n` fetched sections were added. */
  function SectionsFetched(sections: seq<Section>, raws: seq<RawSection>, n: nat): (r: seq<Section>)
    requires n <= |raws|
    ensures sections <= r && forall i :: 0 <= i < n ==> Section(raws[i]) in r
  {
    if n == 0 then sections else Add(SectionsFetched(sections, raws, n - 1), Section(raws[n - 1]))
  }

  predicate Unique(sections: seq<Section>) {
    forall s :: s in sections ==> multiset(sections)[s] == 1
  }

  lemma UniqueAdd(sections: seq<Section>, s: Section)
    requires Unique(sections)
    ensures Unique(Add(sections, s))
  {
  }

  /** By address, from the top down. */
  predicate Descending(sections: seq<Section>) {
    forall i, j :: 0 <= i < j < |sections| ==> sections[i].origin.vma >= sections[j].origin.vma
  }

  /** A raw symbol opens a record when none of the earlier ones has its address. */
  lemma {:induction false} OpensExactly(raws: seq<RawSymbol>, k: nat)
    requires k < |raws|
    ensures OpensRecord(raws, k) <==> RecordIndex(Build(raws, k), raws[k].value) == |Build(raws, k)|
  {
    BuildComplete(raws, k);
    RecordAddresses(Build(raws, k), raws[..k], raws[k].value);
    RecordIndexFinds(Build(raws, k), raws[k].value);
    if !OpensRecord(raws, k) {
      var j :| 0 <= j < k && raws[j].value == raws[k].value;
      assert raws[j] in raws[..k];
    }
  }

  /** The section of every record is in a buffer. */
  ghost predicate ParentsIn(table: seq<Record>, sections: seq<Section>) {
    forall r :: r in table ==> r.parent in sections
  }

  lemma AddParents(table: seq<Record>, s: RawSymbol, before: seq<Section>, next: seq<Record>, after: seq<Section>)
    requires ParentsIn(table, before) && next == AddToTable(table, s)
    requires after == if RecordIndex(table, s.value) == |table| then Add(before, Section(s.section)) else before
    ensures ParentsIn(next, after)
  {
    var i := RecordIndex(table, s.value);
    if i < |table| {
      assert table[i] in table;
    }
  }

  /** Every record's section is in the buffer. */
  lemma {:induction false} BuildParents(sections: seq<Section>, raws: seq<RawSymbol>, n: nat)
    requires n <= |raws|
    ensures ParentsIn(Build(raws, n), SectionsWith(sections, raws, n))
  {
    if n > 0 {
      BuildParents(sections, raws, n - 1);
      OpensExactly(raws, n - 1);
      var before, after := SectionsWith(sections, raws, n - 1), SectionsWith(sections, raws, n);
      AddParents(Build(raws, n - 1), raws[n - 1], before, Build(raws, n), after);
    }
  }

  lemma {:induction false} NothingMissing(sections: seq<Section>, raws: seq<RawSymbol>, n: nat)
    requires n <= |raws| && forall s :: s in raws ==> Section(s.section) in sections
    ensures SectionsWith(sections, raws, n) == sections
  {
    if n > 0 {
      NothingMissing(sections, raws, n - 1);
      assert raws[n - 1] in raws;
    }
  }

  lemma {:induction false} NothingFetched(sections: seq<Section>, raws: seq<RawSection>, n: nat)
    requires n <= |raws| && forall raw :: raw in raws ==> Section(raw) in sections
    ensures SectionsFetched(sections, raws, n) == sections
  {
    if n > 0 {
      NothingFetched(sections, raws, n - 1);
      assert raws[n - 1] in raws;
    }
  }

  /** A symbol that brings a section to the buffer. */
  predicate BringsSection(sections: seq<Section>, raws: seq<RawSymbol>, k: nat)
    requires k < |raws|
  {
    OpensRecord(raws, k) && Section(raws[k].section) !in sections
  }

  /** A section that the first `n` symbols bring to the buffer. */
  predicate Brought(sections: seq<Section>, raws: seq<RawSymbol>, n: nat, s: Section)
    requires n <= |raws|
  {
    exists k :: 0 <= k < n && BringsSection(sections, raws, k) && s == Section(raws[k].section)
  }

  lemma BroughtStays(sections: seq<Section>, raws: seq<RawSymbol>, n: nat, s: Section)
    requires n < |raws| && Brought(sections, raws, n, s)
    ensures Brought(sections, raws, n + 1, s)
  {
    var k :| 0 <= k < n && BringsSection(sections, raws, k) && s == Section(raws[k].section);
    assert 0 <= k < n + 1;
  }

  lemma AddBehind(sections: seq<Section>, before: seq<Section>, s: Section)
    requires sections <= before
    ensures var after := Add(before, s);
      && sections <= after && s in after && (forall x :: x in before ==> x in after)
      && forall x :: x in after[|sections|..] ==> x in before[|sections|..] || (x == s && s !in sections)
  {
    if s !in before {
      assert (before + [s])[|sections|..] == before[|sections|..] + [s];
      assert before == sections + before[|sections|..];
    }
  }

  ghost predicate AllBrought(sections: seq<Section>, raws: seq<RawSymbol>, n: nat, after: seq<Section>)
    requires n <= |raws|
  {
    sections <= after && forall s :: s in after[|sections|..] ==> Brought(sections, raws, n, s)
  }

  lemma BroughtStep(sections: seq<Section>, raws: seq<RawSymbol>, n: nat, before: seq<Section>, after: seq<Section>)
    requires n < |raws| && AllBrought(sections, raws, n, before)
    requires after == if OpensRecord(raws, n) then Add(before, Section(raws[n].section)) else before
    ensures AllBrought(sections, raws, n + 1, after)
  {
    var added := Section(raws[n].section);
    AddBehind(sections, before, added);
    forall s | s in before[|sections|..] ensures Brought(sections, raws, n + 1, s) {
      BroughtStays(sections, raws, n, s);
    }
    if OpensRecord(raws, n) && added !in sections {
      assert BringsSection(sections, raws, n);
      assert Brought(sections, raws, n + 1, added);
    }
  }

  lemma {:induction false} SectionsWithBrought(sections: seq<Section>, raws: seq<RawSymbol>, n: nat)
    requires n <= |raws|
    ensures AllBrought(sections, raws, n, SectionsWith(sections, raws, n))
  {
    if n > 0 {
      SectionsWithBrought(sections, raws, n - 1);
      BroughtStep(sections, raws, n - 1, SectionsWith(sections, raws, n - 1), SectionsWith(sections, raws, n));
    }
  }

  lemma {:induction false} SectionsWithOpened(sections: seq<Section>, raws: seq<RawSymbol>, n: nat, k: nat)
    requires k < n <= |raws| && OpensRecord(raws, k)
    ensures Section(raws[k].section) in SectionsWith(sections, raws, n)
  {
    if k < n - 1 {
      SectionsWithOpened(sections, raws, n - 1, k);
    }
  }

  /** Building the table drops no section, and adds none when all symbols' sections are there. */
  lemma {:induction false} SectionsKept(sections: seq<Section>, raws: seq<RawSymbol>)
    ensures forall s :: s in sections ==> s in SectionsWith(sections, raws, |raws|)
    ensures (forall s :: s in raws ==> Section(s.section) in sections) ==>
      SectionsWith(sections, raws, |raws|) == sections
  {
    SectionsWithBrought(sections, raws, |raws|);
    if forall s :: s in raws ==> Section(s.section) in sections {
      NothingMissing(sections, raws, |raws|);
    }
  }

  lemma BroughtAtZero(sections: seq<Section>, raws: seq<RawSymbol>, z: nat, k: nat)
    requires z < |sections| && sections[z].origin.vma == 0
    requires k < |raws| && BringsSection(sections, raws, k) && Descending(SectionsWith(sections, raws, |raws|))
    ensures raws[k].section.vma == 0
  {
    var after := SectionsWith(sections, raws, |raws|);
    SectionsWithBrought(sections, raws, |raws|);
    SectionsWithOpened(sections, raws, |raws|, k);
    assert after == sections + after[|sections|..];
    var i :| 0 <= i < |after| && after[i] == Section(raws[k].section);
    assert i >= |sections|;
    assert after[z].origin.vma >= after[i].origin.vma;
  }

  lemma ZeroStaysDescending(sections: seq<Section>, after: seq<Section>)
    requires Descending(sections) && sections <= after
    requires forall s :: s in after[|sections|..] ==> s.origin.vma == 0
    ensures Descending(after)
  {
    forall i, j | 0 <= i < j < |after| ensures after[i].origin.vma >= after[j].origin.vma {
      if j >= |sections| {
        assert after[j] == after[|sections|..][j - |sections|];
      }
    }
  }

  /**
   A sorted buffer that holds a section at address 0 (the standard pseudo-sections are there) stays sorted
   when the symbol table is built exactly if every section it still lacks also lies at address 0.
   */
  lemma {:induction false} StaysDescendingExactly(sections: seq<Section>, raws: seq<RawSymbol>)
    requires Descending(sections) && exists s :: s in sections && s.origin.vma == 0
    ensures Descending(SectionsWith(sections, raws, |raws|)) <==>
      forall k :: 0 <= k < |raws| && BringsSection(sections, raws, k) ==> raws[k].section.vma == 0
  {
    var after := SectionsWith(sections, raws, |raws|);
    SectionsWithBrought(sections, raws, |raws|);
    var zero :| zero in sections && zero.origin.vma == 0;
    var z :| 0 <= z < |sections| && sections[z] == zero;
    if Descending(after) {
      forall k | 0 <= k < |raws| && BringsSection(sections, raws, k) ensures raws[k].section.vma == 0 {
        BroughtAtZero(sections, raws, z, k);
      }
    }
    if forall k :: 0 <= k < |raws| && BringsSection(sections, raws, k) ==> raws[k].section.vma == 0 {
      forall s | s in after[|sections|..] ensures s.origin.vma == 0 {
        var k :| 0 <= k < |raws| && BringsSection(sections, raws, k) && s == Section(raws[k].section);
      }
      ZeroStaysDescending(sections, after);
    }
  }
}
