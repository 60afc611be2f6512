/** The instruction mapper: a list of factories that turn assembly instructions into IR. */
module Mapper {
  import opened SymbolTable
  import opened Ir

  /** A tokenised assembly instruction. */
  datatype Assembly = Assembly(name: string, args: seq<string>, address: nat)

  /** What one reaction sends to the subscriber, and whether it then throws. */
  datatype Emission = Emission(group: seq<Instruction>, failed: bool)

  const NOTHING := Emission([], false)

  /** A factory object: its identity and its reaction to an instruction under a symbol table. */
  datatype Factory = Factory(id: nat, react: (Assembly, seq<Entry>) -> Emission)

  /** What follows the first reaction that throws is never sent. */
  function Then(first: Emission, second: Emission): Emission {
    if first.failed then first else Emission(first.group + second.group, second.failed)
  }

  function EmitAll(factories: seq<Factory>, i: Assembly, table: seq<Entry>): Emission {
    if factories == [] then NOTHING
    else Then(factories[0].react(i, table), EmitAll(factories[1..], i, table))
  }

  function Lower(factories: seq<Factory>, stream: seq<Assembly>, table: seq<Entry>): Emission {
    if stream == [] then NOTHING
    else Then(EmitAll(factories, stream[0], table), Lower(factories, stream[1..], table))
  }

  /** The factories without every registration of the one object. */
  function Without(factories: seq<Factory>, id: nat): (r: seq<Factory>)
    ensures forall f :: f in r <==> f in factories && f.id != id
    ensures forall f: Factory :: f.id != id ==> multiset(r)[f] == multiset(factories)[f]
  {
    if factories == [] then []
    else
      var last := factories[|factories| - 1];
      var init := Without(factories[..|factories| - 1], id);
      assert factories == factories[..|factories| - 1] + [last];
      if last.id == id then init else init + [last]
  }

  lemma WithoutLast(fs: seq<Factory>, f: Factory, id: nat)
    ensures Without(fs + [f], id) == if f.id == id then Without(fs, id) else Without(fs, id) + [f]
  {
    assert (fs + [f])[..|fs|] == fs;
  }

  lemma Regroup<T>(a: seq<T>, b: seq<T>, c: seq<T>)
    ensures a + (b + c) == (a + b) + c
  {
  }

  lemma WithoutStep(fs: seq<Factory>, gs: seq<Factory>, last: Factory, id: nat)
    requires Without(fs + gs, id) == Without(fs, id) + Without(gs, id)
    ensures Without(fs + (gs + [last]), id) == Without(fs, id) + Without(gs + [last], id)
  {
    Regroup(fs, gs, [last]);
    WithoutLast(gs, last, id);
    WithoutLast(fs + gs, last, id);
    Regroup(Without(fs, id), Without(gs, id), [last]);
  }

  /** Removal goes factory by factory and keeps the order of the others. */
  lemma {:induction false} WithoutAppend(fs: seq<Factory>, gs: seq<Factory>, id: nat)
    ensures Without(fs + gs, id) == Without(fs, id) + Without(gs, id)
  {
    if gs == [] {
      NoMore(fs);
      NoMore(Without(fs, id));
    } else {
      WithoutAppend(fs, gs[..|gs| - 1], id);
      WithoutStep(fs, gs[..|gs| - 1], gs[|gs| - 1], id);
      LastApart(gs);
    }
  }

  lemma NoMore<T>(s: seq<T>)
    ensures s + [] == s
  {
  }

  lemma LastApart<T>(s: seq<T>)
    requires s != []
    ensures s[..|s| - 1] + [s[|s| - 1]] == s
  {
  }

  lemma {:induction false} WithoutOne(f: Factory, id: nat)
    ensures Without([f], id) == if f.id == id then [] else [f]
  {
    assert [f][..0] == [];
  }

  class InstructionMapper {
    var factories: seq<Factory>
    var created: seq<Instruction>
    const table: seq<Entry>

    constructor (table: seq<Entry>)
      ensures factories == [] && created == [] && this.table == table
    {
      this.table := table;
      factories, created := [], [];
    }

    method RegisterFactory(f: Factory)
      modifies this`factories
      ensures factories == old(factories) + [f]
    {
      factories := factories + [f];
    }

    method RemoveFactory(id: nat)
      modifies this`factories
      ensures factories == Without(old(factories), id)
    {
      var kept := [];
      assert factories[..0] == [];
      for i := 0 to |factories|
        invariant kept == Without(factories[..i], id)
      {
        assert factories[..i + 1][..i] == factories[..i];
        if factories[i].id != id {
          kept := kept + [factories[i]];
        }
      }
      assert factories[..|factories|] == factories;
      factories := kept;
    }

    /** Shows one instruction to every factory; false when a factory threw. */
    method Accumulate(i: Assembly) returns (ok: bool)
      modifies this`created
      ensures created == old(created) + EmitAll(factories, i, table).group
      ensures ok == !EmitAll(factories, i, table).failed
    {
      for k := 0 to |factories|
        invariant created + EmitAll(factories[k..], i, table).group == old(created) + EmitAll(factories, i, table).group
        invariant EmitAll(factories[k..], i, table).failed == EmitAll(factories, i, table).failed
      {
        var e := factories[k].react(i, table);
        created := created + e.group;
        if e.failed {
          return false;
        }
      }
      return true;
    }

    /** Feeds a stream of instructions to the factories; false when a factory threw. */
    method ReduceInstr(stream: seq<Assembly>) returns (ok: bool)
      modifies this`created
      ensures created == old(created) + Lower(factories, stream, table).group
      ensures ok == !Lower(factories, stream, table).failed
    {
      for n := 0 to |stream|
        invariant created + Lower(factories, stream[n..], table).group
               == old(created) + Lower(factories, stream, table).group
        invariant Lower(factories, stream[n..], table).failed == Lower(factories, stream, table).failed
      {
        var accepted := Accumulate(stream[n]);
        if !accepted {
          return false;
        }
      }
      return true;
    }
  }

  // ----- laws of the emitted stream -----

  lemma ThenAssociative(a: Emission, b: Emission, c: Emission)
    ensures Then(Then(a, b), c) == Then(a, Then(b, c))
  {
    assert (a.group + b.group) + c.group == a.group + (b.group + c.group);
  }

  lemma ThenNothing(e: Emission)
    ensures Then(NOTHING, e) == e && Then(e, NOTHING) == e
  {
    assert [] + e.group == e.group && e.group + [] == e.group;
  }

  /** Two streams in a row give their groups in a row. */
  lemma {:induction false} LowerAppend(fs: seq<Factory>, s: seq<Assembly>, t: seq<Assembly>, table: seq<Entry>)
    ensures Lower(fs, s + t, table) == Then(Lower(fs, s, table), Lower(fs, t, table))
  {
    if s == [] {
      assert s + t == t;
      ThenNothing(Lower(fs, t, table));
    } else {
      assert (s + t)[1..] == s[1..] + t;
      LowerAppend(fs, s[1..], t, table);
      ThenAssociative(EmitAll(fs, s[0], table), Lower(fs, s[1..], table), Lower(fs, t, table));
    }
  }

  lemma {:induction false} EmitAllAppend(fs: seq<Factory>, gs: seq<Factory>, i: Assembly, table: seq<Entry>)
    ensures EmitAll(fs + gs, i, table) == Then(EmitAll(fs, i, table), EmitAll(gs, i, table))
  {
    if fs == [] {
      assert fs + gs == gs;
      ThenNothing(EmitAll(gs, i, table));
    } else {
      assert (fs + gs)[1..] == fs[1..] + gs;
      EmitAllAppend(fs[1..], gs, i, table);
      ThenAssociative(fs[0].react(i, table), EmitAll(fs[1..], i, table), EmitAll(gs, i, table));
    }
  }

  /** What factories send that do not throw, one after the other. */
  function Sent(fs: seq<Factory>, i: Assembly, table: seq<Entry>): seq<Instruction> {
    if fs == [] then [] else fs[0].react(i, table).group + Sent(fs[1..], i, table)
  }

  lemma {:induction false} NoneThrows(fs: seq<Factory>, i: Assembly, table: seq<Entry>)
    requires forall f :: f in fs ==> !f.react(i, table).failed
    ensures EmitAll(fs, i, table) == Emission(Sent(fs, i, table), false)
  {
    if fs != [] {
      NoneThrows(fs[1..], i, table);
    }
  }

  /** A factory that throws still sends what it sent before, and no later factory is asked. */
  lemma {:induction false} FirstThrows(fs: seq<Factory>, f: Factory, gs: seq<Factory>, i: Assembly, table: seq<Entry>)
    requires (forall g :: g in fs ==> !g.react(i, table).failed) && f.react(i, table).failed
    ensures EmitAll(fs + [f] + gs, i, table) == Emission(Sent(fs, i, table) + f.react(i, table).group, true)
  {
    NoneThrows(fs, i, table);
    EmitAllAppend(fs, [f] + gs, i, table);
    assert fs + [f] + gs == fs + ([f] + gs);
    assert ([f] + gs)[0] == f;
  }

  /** Factories that react to an instruction react to it in the same way. */
  ghost predicate Exclusive(factories: seq<Factory>, i: Assembly, table: seq<Entry>) {
    forall f, g :: f in factories && g in factories ==>
      f.react(i, table) == NOTHING || g.react(i, table) == NOTHING || f.react(i, table) == g.react(i, table)
  }

  lemma {:induction false} ReactionsCommute(fs: seq<Factory>, e: Emission, i: Assembly, table: seq<Entry>)
    requires forall f :: f in fs ==> f.react(i, table) == NOTHING || e == NOTHING || f.react(i, table) == e
    ensures Then(EmitAll(fs, i, table), e) == Then(e, EmitAll(fs, i, table))
  {
    ThenNothing(e);
    if fs != [] {
      var rest := EmitAll(fs[1..], i, table);
      ReactionsCommute(fs[1..], e, i, table);
      ThenAssociative(fs[0].react(i, table), rest, e);
      ThenAssociative(fs[0].react(i, table), e, rest);
      ThenAssociative(e, fs[0].react(i, table), rest);
      ThenNothing(rest);
      ThenNothing(fs[0].react(i, table));
      ThenNothing(EmitAll(fs, i, table));
    }
  }

  lemma MultisetAround<T>(before: seq<T>, x: T, after: seq<T>)
    ensures multiset(before + ([x] + after)) == multiset{x} + multiset(before + after)
  {
    assert multiset(before + ([x] + after)) == multiset(before) + multiset([x]) + multiset(after);
  }

  lemma Found<T>(t: seq<T>, x: T) returns (before: seq<T>, after: seq<T>)
    requires x in multiset(t)
    ensures t == before + ([x] + after)
  {
    var j :| 0 <= j < |t| && t[j] == x;
    before, after := t[..j], t[j + 1..];
  }

  lemma CancelHead<T>(x: T, a: multiset<T>, b: multiset<T>)
    requires multiset{x} + a == multiset{x} + b
    ensures a == b
  {
    forall y ensures a[y] == b[y] {
      assert (multiset{x} + a)[y] == (multiset{x} + b)[y];
    }
  }

  lemma HeadAndRest<T>(s: seq<T>)
    requires s != []
    ensures multiset(s) == multiset{s[0]} + multiset(s[1..])
  {
    assert s == [s[0]] + s[1..];
  }

  /** Two arrangements of the same elements: the second holds the first one's head somewhere. */
  lemma PermutationSplit<T>(s: seq<T>, t: seq<T>) returns (before: seq<T>, after: seq<T>)
    requires s != [] && multiset(s) == multiset(t)
    ensures t == before + ([s[0]] + after) && multiset(s[1..]) == multiset(before + after)
  {
    HeadAndRest(s);
    before, after := Found(t, s[0]);
    MultisetAround(before, s[0], after);
    CancelHead(s[0], multiset(s[1..]), multiset(before + after));
  }

  lemma ExclusiveWithout(before: seq<Factory>, f: Factory, after: seq<Factory>, i: Assembly, table: seq<Entry>)
    requires Exclusive(before + ([f] + after), i, table)
    ensures Exclusive(before + after, i, table)
  {
    assert forall g :: g in before + after ==> g in before + ([f] + after);
  }

  lemma {:induction false} EmitAllPermutation(fs: seq<Factory>, gs: seq<Factory>, i: Assembly, table: seq<Entry>)
    requires multiset(fs) == multiset(gs) && Exclusive(gs, i, table)
    ensures EmitAll(fs, i, table) == EmitAll(gs, i, table)
    decreases |fs|
  {
    if fs == [] {
      assert |multiset(gs)| == |gs|;
    } else {
      var before, after := PermutationSplit(fs, gs);
      ExclusiveWithout(before, fs[0], after, i, table);
      EmitAllPermutation(fs[1..], before + after, i, table);
      MoveToFront(before, fs[0], after, i, table);
    }
  }

  lemma MoveToFront(before: seq<Factory>, f: Factory, after: seq<Factory>, i: Assembly, table: seq<Entry>)
    requires Exclusive(before + ([f] + after), i, table)
    ensures EmitAll(before + ([f] + after), i, table) == Then(f.react(i, table), EmitAll(before + after, i, table))
  {
    var e, b, a := f.react(i, table), EmitAll(before, i, table), EmitAll(after, i, table);
    assert forall g :: g in before || g == f ==> g in before + ([f] + after);
    ReactionsCommute(before, e, i, table);
    EmitAllAppend(before, [f] + after, i, table);
    EmitAllAppend([f], after, i, table);
    EmitAllAppend(before, after, i, table);
    ThenNothing(e);
    ThenAssociative(b, e, a);
    ThenAssociative(e, b, a);
  }

  /** Under exclusive reactions the order of registration does not show in the emitted stream. */
  lemma {:induction false} RegistrationOrderIrrelevant(fs: seq<Factory>, gs: seq<Factory>, stream: seq<Assembly>,
                                                       table: seq<Entry>)
    requires multiset(fs) == multiset(gs) && forall i :: i in stream ==> Exclusive(gs, i, table)
    ensures Lower(fs, stream, table) == Lower(gs, stream, table)
  {
    if stream != [] {
      EmitAllPermutation(fs, gs, stream[0], table);
      RegistrationOrderIrrelevant(fs, gs, stream[1..], table);
    }
  }
}
