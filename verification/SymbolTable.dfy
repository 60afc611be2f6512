/** The mapper's symbol table: an ordered map from keys to symbols, searched by address and by name. */
module SymbolTable {
  import opened Wrappers
  import opened Nodes

  datatype Entry = Entry(key: string, symbol: Node)

  // ----- the key order of std::map -----

  predicate Less(a: string, b: string) {
    b != "" && (a == "" || a[0] < b[0] || (a[0] == b[0] && Less(a[1..], b[1..])))
  }

  lemma {:induction false} LessTransitive(a: string, b: string, c: string)
    requires Less(a, b) && Less(b, c)
    ensures Less(a, c)
  {
    if a != "" && a[0] == b[0] && b[0] == c[0] {
      LessTransitive(a[1..], b[1..], c[1..]);
    }
  }

  lemma {:induction false} LessTotal(a: string, b: string)
    ensures Less(a, b) || a == b || Less(b, a)
    ensures !(Less(a, b) && Less(b, a)) && !Less(a, a)
  {
    if a != "" && b != "" {
      LessTotal(a[1..], b[1..]);
      if a[0] == b[0] && a[1..] == b[1..] {
        assert a == [a[0]] + a[1..] && b == [b[0]] + b[1..];
      }
    }
    if a != "" {
      LessTotal(a[1..], a[1..]);
    }
  }

  /** A key is less if it is a proper prefix, or has the lesser character where they first differ. */
  lemma {:induction false} LessSpelled(a: string, b: string)
    ensures Less(a, b) <==> exists n :: LessAt(a, b, n)
  {
    if a != "" && b != "" && a[0] == b[0] {
      LessSpelled(a[1..], b[1..]);
      if Less(a, b) {
        var n :| LessAt(a[1..], b[1..], n);
        assert LessAt(a, b, n + 1) by {
          assert forall i :: 1 <= i < n + 1 ==> a[i] == a[1..][i - 1] && b[i] == b[1..][i - 1];
        }
      }
      if n :| LessAt(a, b, n) {
        assert n > 0;
        assert LessAt(a[1..], b[1..], n - 1);
      }
    } else if Less(a, b) {
      assert LessAt(a, b, 0);
    }
  }

  predicate LessAt(a: string, b: string, n: int) {
    && 0 <= n <= |a| && n < |b| && (forall i :: 0 <= i < n ==> a[i] == b[i])
    && (n < |a| ==> a[n] < b[n])
  }

  ghost predicate Ordered(entries: seq<Entry>) {
    forall i, j :: 0 <= i < j < |entries| ==> Less(entries[i].key, entries[j].key)
  }

  // ----- searching -----

  /** `std::string::find(part) != npos`. */
  predicate ContainsText(s: string, part: string) {
    exists i :: 0 <= i <= |s| && part <= s[i..]
  }

  lemma {:induction false} ContainsSpelled(s: string, part: string)
    ensures ContainsText(s, part) <==> exists before, after :: s == before + part + after
  {
    if ContainsText(s, part) {
      var i :| 0 <= i <= |s| && part <= s[i..];
      assert s == s[..i] + part + s[i + |part|..];
    }
    if before, after :| s == before + part + after {
      assert s[|before|..] == part + after;
    }
  }

  /** Index of the first entry whose symbol satisfies the test, or the number of entries. */
  function FirstIndex(entries: seq<Entry>, test: Node -> bool): (i: nat)
    ensures i <= |entries|
    ensures forall j :: 0 <= j < i ==> !test(entries[j].symbol)
    ensures i < |entries| ==> test(entries[i].symbol)
  {
    if entries == [] || test(entries[0].symbol) then 0 else 1 + FirstIndex(entries[1..], test)
  }

  function FirstSymbol(entries: seq<Entry>, test: Node -> bool): Option<Node> {
    var i := FirstIndex(entries, test);
    if i < |entries| then Some(entries[i].symbol) else None
  }

  lemma FirstIndexUnique(entries: seq<Entry>, test: Node -> bool, i: nat)
    requires i <= |entries| && forall j :: 0 <= j < i ==> !test(entries[j].symbol)
    requires i < |entries| ==> test(entries[i].symbol)
    ensures FirstIndex(entries, test) == i
  {
  }

  function HasAddress(a: Address): Node -> bool {
    (n: Node) => AddressOf(n) == a
  }

  function HasName(part: string): Node -> bool {
    (n: Node) => ContainsText(Name(n), part)
  }

  function FindAddress(entries: seq<Entry>, a: Address): Option<Node> {
    FirstSymbol(entries, HasAddress(a))
  }

  function FindName(entries: seq<Entry>, part: string): Option<Node> {
    FirstSymbol(entries, HasName(part))
  }

  /** Of several symbols with one address the search finds the one with the least key. */
  lemma {:induction false} FindAddressLeastKey(entries: seq<Entry>, e: Entry)
    requires Ordered(entries) && e in entries
    ensures var i := FirstIndex(entries, HasAddress(AddressOf(e.symbol)));
      && i < |entries| && FindAddress(entries, AddressOf(e.symbol)) == Some(entries[i].symbol)
      && AddressOf(entries[i].symbol) == AddressOf(e.symbol)
      && (entries[i] == e || Less(entries[i].key, e.key))
  {
    var i := FirstIndex(entries, HasAddress(AddressOf(e.symbol)));
    var k :| 0 <= k < |entries| && entries[k] == e;
    assert i <= k;
  }

  /** The search by name finds the first symbol whose name contains the text, and none only if there is none. */
  lemma {:induction false} FindNameFirst(entries: seq<Entry>, part: string)
    ensures match FindName(entries, part)
      case Some(n) =>
        exists k :: 0 <= k < |entries| && entries[k].symbol == n && ContainsText(Name(n), part) &&
          forall j :: 0 <= j < k ==> !ContainsText(Name(entries[j].symbol), part)
      case None => forall j :: 0 <= j < |entries| ==> !ContainsText(Name(entries[j].symbol), part)
  {
    var k := FirstIndex(entries, HasName(part));
    assert forall j :: 0 <= j < k ==> !HasName(part)(entries[j].symbol);
  }

  // ----- the address index -----

  /** One insertion of a map inserter: an address that is present keeps its symbol. */
  function InsertAddress(index: map<Address, Node>, n: Node): map<Address, Node> {
    if AddressOf(n) in index then index else index[AddressOf(n) := n]
  }

  function AddressIndex(entries: seq<Entry>): map<Address, Node> {
    if entries == [] then map[]
    else InsertAddress(AddressIndex(entries[..|entries| - 1]), entries[|entries| - 1].symbol)
  }

  /** The index and the scan agree on every address, present or absent. */
  lemma {:induction false} IndexAgreesWithScan(entries: seq<Entry>, a: Address)
    ensures a in AddressIndex(entries) <==> FindAddress(entries, a).Some?
    ensures a in AddressIndex(entries) ==> FindAddress(entries, a) == Some(AddressIndex(entries)[a])
  {
    if entries != [] {
      var init := entries[..|entries| - 1];
      IndexAgreesWithScan(init, a);
      var i := FirstIndex(init, HasAddress(a));
      if i < |init| || AddressOf(entries[|init|].symbol) == a {
        FirstIndexUnique(entries, HasAddress(a), i);
      } else {
        FirstIndexUnique(entries, HasAddress(a), |entries|);
      }
    }
  }

  // ----- adding symbols -----

  function KeyIndex(entries: seq<Entry>, key: string): (i: nat)
    ensures i <= |entries|
    ensures i < |entries| <==> exists e :: e in entries && e.key == key
    ensures i < |entries| ==> entries[i].key == key
  {
    if entries == [] || entries[0].key == key then 0 else 1 + KeyIndex(entries[1..], key)
  }

  function Insert(entries: seq<Entry>, e: Entry): (r: seq<Entry>)
    ensures |r| == |entries| + 1 && multiset(r) == multiset(entries) + multiset{e}
  {
    if entries == [] then [e]
    else if Less(e.key, entries[0].key) then [e] + entries
    else
      assert entries == [entries[0]] + entries[1..];
      [entries[0]] + Insert(entries[1..], e)
  }

  lemma PrependOrdered(e: Entry, entries: seq<Entry>)
    requires Ordered(entries) && forall d :: d in entries ==> Less(e.key, d.key)
    ensures Ordered([e] + entries)
  {
    var r := [e] + entries;
    forall i, j | 0 <= i < j < |r| ensures Less(r[i].key, r[j].key) {
      assert r[j] == entries[j - 1] && r[j] in entries;
      assert i > 0 ==> r[i] == entries[i - 1];
    }
  }

  lemma LessThanAll(key: string, entries: seq<Entry>)
    requires Ordered(entries) && entries != [] && Less(key, entries[0].key)
    ensures forall d :: d in entries ==> Less(key, d.key)
  {
    forall j | 0 <= j < |entries| ensures Less(key, entries[j].key) {
      if j > 0 { LessTransitive(key, entries[0].key, entries[j].key); }
    }
  }

  lemma InsertMembers(entries: seq<Entry>, e: Entry)
    ensures forall d :: d in Insert(entries, e) ==> d in entries || d == e
  {
    forall d | d in Insert(entries, e) ensures d in entries || d == e {
      assert d in multiset(Insert(entries, e));
    }
  }

  lemma {:induction false} InsertOrdered(entries: seq<Entry>, e: Entry)
    requires Ordered(entries) && KeyIndex(entries, e.key) == |entries|
    ensures Ordered(Insert(entries, e))
  {
    if entries != [] {
      var head, rest := entries[0], entries[1..];
      LessTotal(e.key, head.key);
      if Less(e.key, head.key) {
        LessThanAll(e.key, entries);
        PrependOrdered(e, entries);
      } else {
        assert head in entries;
        InsertOrdered(rest, e);
        InsertMembers(rest, e);
        PrependOrdered(head, Insert(rest, e));
      }
    }
  }

  /** The key a new symbol is stored under: assigning an address to a string keeps its low byte. */
  function ByteKey(n: Node): string {
    [(AddressOf(n) % 256) as char]
  }

  /** Two symbols compete for a key exactly when their addresses have the same low byte. */
  lemma {:induction false} ByteKeysCollide(n: Node, m: Node)
    ensures ByteKey(n) == ByteKey(m) <==> AddressOf(n) % 0x100 == AddressOf(m) % 0x100
    ensures |ByteKey(n)| == 1 && ByteKey(n)[0] as int == AddressOf(n) % 0x100
  {
    assert ByteKey(n) == ByteKey(m) <==> ByteKey(n)[0] == ByteKey(m)[0];
  }

  class SymTable {
    var symbolMap: seq<Entry>

    ghost predicate Valid()
      reads this
    {
      Ordered(symbolMap)
    }

    constructor (entries: seq<Entry>)
      requires Ordered(entries)
      ensures Valid() && symbolMap == entries
    {
      symbolMap := entries;
    }

    method FindSymbolByAddress(address: Address) returns (symbol: Option<Node>)
      ensures symbol == FindAddress(symbolMap, address)
    {
      var result := false;
      for i := 0 to |symbolMap|
        invariant !result
        invariant forall j :: 0 <= j < i ==> !HasAddress(address)(symbolMap[j].symbol)
      {
        result := AddressOf(symbolMap[i].symbol) == address;
        if result {
          FirstIndexUnique(symbolMap, HasAddress(address), i);
          return Some(symbolMap[i].symbol);
        }
      }
      FirstIndexUnique(symbolMap, HasAddress(address), |symbolMap|);
      return None;
    }

    method FindSymbolByName(name: string) returns (symbol: Option<Node>)
      ensures symbol == FindName(symbolMap, name)
    {
      var result := false;
      for i := 0 to |symbolMap|
        invariant !result
        invariant forall j :: 0 <= j < i ==> !HasName(name)(symbolMap[j].symbol)
      {
        result := ContainsText(Name(symbolMap[i].symbol), name);
        if result {
          FirstIndexUnique(symbolMap, HasName(name), i);
          return Some(symbolMap[i].symbol);
        }
      }
      FirstIndexUnique(symbolMap, HasName(name), |symbolMap|);
      return None;
    }

    method ToMap() returns (index: map<Address, Node>)
      ensures index == AddressIndex(symbolMap)
      ensures forall a: Address :: a in index <==> FindAddress(symbolMap, a).Some?
      ensures forall a: Address :: a in index ==> FindAddress(symbolMap, a) == Some(index[a])
    {
      index := map[];
      assert symbolMap[..0] == [];
      for i := 0 to |symbolMap|
        invariant index == AddressIndex(symbolMap[..i])
      {
        assert symbolMap[..i + 1][..i] == symbolMap[..i];
        index := InsertAddress(index, symbolMap[i].symbol);
      }
      assert symbolMap[..|symbolMap|] == symbolMap;
      forall a: Address {
        IndexAgreesWithScan(symbolMap, a);
      }
    }

    /** Fails, leaving the table alone, when the key is taken. */
    method AddSymbol(symbol: Node) returns (ok: bool)
      requires Valid()
      modifies this
      ensures Valid()
      ensures ok <==> KeyIndex(old(symbolMap), ByteKey(symbol)) == |old(symbolMap)|
      ensures symbolMap == if ok then Insert(old(symbolMap), Entry(ByteKey(symbol), symbol)) else old(symbolMap)
    {
      ok := KeyIndex(symbolMap, ByteKey(symbol)) == |symbolMap|;
      if ok {
        InsertOrdered(symbolMap, Entry(ByteKey(symbol), symbol));
        symbolMap := Insert(symbolMap, Entry(ByteKey(symbol), symbol));
      }
    }

    method GetOrCreate(name: string, candidate: Node) returns (symbol: Option<Node>)
      requires Valid()
      modifies this
      ensures Valid()
      ensures (symbol, symbolMap) == GetOrCreateResult(old(symbolMap), name, candidate)
    {
      var i := KeyIndex(symbolMap, name);
      if i < |symbolMap| {
        return Some(symbolMap[i].symbol);
      }
      var ok := AddSymbol(candidate);
      symbol := if ok then Some(candidate) else None;
    }
  }

  /** Outcome of `get_or_create` on a table: the symbol (None when the assertion fails) and the new table. */
  function GetOrCreateResult(entries: seq<Entry>, name: string, symbol: Node): (Option<Node>, seq<Entry>) {
    var i := KeyIndex(entries, name);
    if i < |entries| then (Some(entries[i].symbol), entries)
    else if KeyIndex(entries, ByteKey(symbol)) == |entries| then
      (Some(symbol), Insert(entries, Entry(ByteKey(symbol), symbol)))
    else (None, entries)
  }

  lemma KeysDiffer(entries: seq<Entry>, i: nat, k: nat)
    requires Ordered(entries) && i < |entries| && k < |entries| && entries[i].key == entries[k].key
    ensures i == k
  {
    LessTotal(entries[i].key, entries[k].key);
  }

  /** A name that is there is answered with its symbol, and the table stays. */
  lemma {:induction false} GetFound(entries: seq<Entry>, e: Entry, symbol: Node)
    requires Ordered(entries) && e in entries
    ensures GetOrCreateResult(entries, e.key, symbol) == (Some(e.symbol), entries)
  {
    var k :| 0 <= k < |entries| && entries[k] == e;
    KeysDiffer(entries, KeyIndex(entries, e.key), k);
  }

  /**
   Asking twice for a missing name: the second request is answered, with the symbol the first
   one created, exactly when the name is the byte key of that symbol. Otherwise the assertion fails.
   */
  lemma {:induction false} GetOrCreateTwice(entries: seq<Entry>, name: string, symbol: Node)
    requires KeyIndex(entries, name) == |entries| && KeyIndex(entries, ByteKey(symbol)) == |entries|
    ensures var (first, after) := GetOrCreateResult(entries, name, symbol);
      first == Some(symbol) &&
      GetOrCreateResult(after, name, symbol) == if name == ByteKey(symbol) then (Some(symbol), after) else (None, after)
  {
    var e := Entry(ByteKey(symbol), symbol);
    var after := Insert(entries, e);
    forall f ensures f in after <==> f in entries || f == e {
      assert f in after <==> f in multiset(after);
    }
    assert e in after;
    var i := KeyIndex(after, ByteKey(symbol));
    assert after[i] in after;
  }

  /** The call factory asks for `Temporary`; a second call in a stream fails. */
  lemma {:induction false} SecondCallFails(entries: seq<Entry>)
    requires KeyIndex(entries, "Temporary") == |entries|
    requires KeyIndex(entries, ByteKey(Symbol("ResultOfTheCall"))) == |entries|
    ensures var result := Symbol("ResultOfTheCall");
      var (first, after) := GetOrCreateResult(entries, "Temporary", result);
      first == Some(result) && GetOrCreateResult(after, "Temporary", result) == (None, after)
  {
    GetOrCreateTwice(entries, "Temporary", Symbol("ResultOfTheCall"));
    assert |"Temporary"| == 9 && |ByteKey(Symbol("ResultOfTheCall"))| == 1;
  }
}
