/**
 * `InstanceBuilder`, the detached staging node of the instance tree, in its two forms: the
 * consuming ("fluent") mutators as functions on a value, and the `&mut self` mutators as
 * methods of a class. Also `DomInstance`, a node once it is in a tree, with the guarantees its
 * accessors document.
 */
module Instance {
  import opened RbxTypes

  /** A builder's referent is generated when the builder is created and is never null. */
  datatype InstanceBuilder = InstanceBuilder(
    referent: NonNullRef,
    name: string,
    className: string,
    properties: map<string, Variant>,
    children: seq<InstanceBuilder>)

  /**
   * A new builder of class `className`. The referent, freshly generated at random in the
   * source, is a parameter here.
   */
  function New(referent: NonNullRef, className: string): (b: InstanceBuilder)
    ensures b.referent == referent
    ensures b.name == className && b.className == className
    ensures b.properties == map[] && b.children == []
  {
    InstanceBuilder(referent, className, className, map[], [])
  }

  /** The builder renamed; nothing else changes. */
  function WithName(b: InstanceBuilder, name: string): (r: InstanceBuilder)
    ensures r.name == name
    ensures r.referent == b.referent && r.className == b.className
    ensures r.properties == b.properties && r.children == b.children
  {
    b.(name := name)
  }

  /** The builder with `key` set to `value`, replacing any earlier value of `key`. */
  function WithProperty(b: InstanceBuilder, key: string, value: Variant): (r: InstanceBuilder)
    ensures r.properties.Keys == b.properties.Keys + {key}
    ensures r.properties[key] == value
    ensures forall k :: k in b.properties && k != key ==> r.properties[k] == b.properties[k]
    ensures r.referent == b.referent && r.name == b.name && r.className == b.className
    ensures r.children == b.children
  {
    b.(properties := b.properties[key := value])
  }

  /** `m` after inserting the pairs of `props` one after the other, first pair first. */
  function Inserted(m: map<string, Variant>, props: seq<(string, Variant)>): (r: map<string, Variant>)
    ensures m.Keys <= r.Keys
    ensures forall i :: 0 <= i < |props| ==> props[i].0 in r
    decreases |props|
  {
    if props == [] then m
    else
      var last := props[|props| - 1];
      Inserted(m, props[..|props| - 1])[last.0 := last.1]
  }

  /** The position of the last pair of `props` whose key is `key`, if there is one. */
  function LastIndexOf(props: seq<(string, Variant)>, key: string): (i: int)
    ensures -1 <= i < |props|
    ensures i >= 0 ==> props[i].0 == key
    ensures forall j :: i < j < |props| ==> props[j].0 != key
    decreases |props|
  {
    if props == [] then -1
    else if props[|props| - 1].0 == key then |props| - 1
    else LastIndexOf(props[..|props| - 1], key)
  }

  /**
   * Inserting a batch: the keys are the old keys and the batch's keys; a key of the batch
   * holds the value of its last pair; every other key keeps its old value.
   */
  lemma {:induction false} InsertedLastWins(m: map<string, Variant>, props: seq<(string, Variant)>, key: string)
    ensures key in Inserted(m, props) <==> key in m || LastIndexOf(props, key) >= 0
    ensures LastIndexOf(props, key) >= 0 ==> Inserted(m, props)[key] == props[LastIndexOf(props, key)].1
    ensures LastIndexOf(props, key) < 0 && key in m ==> Inserted(m, props)[key] == m[key]
    decreases |props|
  {
    if props != [] {
      InsertedLastWins(m, props[..|props| - 1], key);
    }
  }

  /** Inserting a batch is inserting its first pair, then the rest of the batch. */
  lemma {:induction false} InsertedFirst(m: map<string, Variant>, p: (string, Variant), rest: seq<(string, Variant)>)
    ensures Inserted(m, [p] + rest) == Inserted(m[p.0 := p.1], rest)
    decreases |rest|
  {
    if rest == [] {
      assert [p] + rest == [p];
      assert ([p] + rest)[..0] == [];
    } else {
      var front := rest[..|rest| - 1];
      InsertedFirst(m, p, front);
      assert ([p] + rest)[..|[p] + rest| - 1] == [p] + front;
    }
  }

  /** `add_property` called on each pair of `props` in turn, first pair first. */
  function WithEachProperty(b: InstanceBuilder, props: seq<(string, Variant)>): InstanceBuilder
    decreases |props|
  {
    if props == [] then b else WithEachProperty(WithProperty(b, props[0].0, props[0].1), props[1..])
  }

  /** Inserting a batch of properties is adding each pair with `WithProperty`, in order. */
  lemma {:induction false} InsertedIsEachProperty(b: InstanceBuilder, props: seq<(string, Variant)>)
    ensures b.(properties := Inserted(b.properties, props)) == WithEachProperty(b, props)
    decreases |props|
  {
    if props != [] {
      var next := WithProperty(b, props[0].0, props[0].1);
      InsertedIsEachProperty(next, props[1..]);
      InsertedFirst(b.properties, props[0], props[1..]);
      assert [props[0]] + props[1..] == props;
    }
  }

  predicate DistinctKeys(props: seq<(string, Variant)>) {
    forall i, j :: 0 <= i < j < |props| ==> props[i].0 != props[j].0
  }

  /** With distinct keys, the last pair with a key is the only one. */
  lemma LastIndexOfMember(props: seq<(string, Variant)>, p: (string, Variant))
    requires DistinctKeys(props) && p in props
    ensures LastIndexOf(props, p.0) >= 0 && props[LastIndexOf(props, p.0)] == p
  {
    var i :| 0 <= i < |props| && props[i] == p;
    var last := LastIndexOf(props, p.0);
    assert i <= last;
  }

  /** A key that occurs in a permutation of `props` occurs in `props`. */
  lemma OnlyKeysOfMultiset(props: seq<(string, Variant)>, other: seq<(string, Variant)>, j: nat)
    requires multiset(props) == multiset(other) && j < |other|
    ensures LastIndexOf(props, other[j].0) >= 0
  {
    assert other[j] in multiset(props);
    var i :| 0 <= i < |props| && props[i] == other[j];
  }

  lemma InsertedAgreeOnKey(m: map<string, Variant>, props: seq<(string, Variant)>, other: seq<(string, Variant)>, key: string)
    requires multiset(props) == multiset(other)
    requires DistinctKeys(props) && DistinctKeys(other)
    ensures key in Inserted(m, props) <==> key in Inserted(m, other)
    ensures key in Inserted(m, props) ==> Inserted(m, props)[key] == Inserted(m, other)[key]
  {
    InsertedLastWins(m, props, key);
    InsertedLastWins(m, other, key);
    var i, j := LastIndexOf(props, key), LastIndexOf(other, key);
    if i >= 0 {
      assert props[i] in multiset(other);
      LastIndexOfMember(other, props[i]);
    } else if j >= 0 {
      OnlyKeysOfMultiset(props, other, j);
      assert false;
    }
  }

  /** Inserting a batch without repeated keys gives the same map whatever the order of the pairs. */
  lemma InsertedOrderFree(m: map<string, Variant>, props: seq<(string, Variant)>, other: seq<(string, Variant)>)
    requires multiset(props) == multiset(other)
    requires DistinctKeys(props) && DistinctKeys(other)
    ensures Inserted(m, props) == Inserted(m, other)
  {
    forall key
      ensures key in Inserted(m, props) <==> key in Inserted(m, other)
      ensures key in Inserted(m, props) ==> Inserted(m, props)[key] == Inserted(m, other)[key]
    {
      InsertedAgreeOnKey(m, props, other, key);
    }
  }

  /** The builder with every pair of `props` inserted, one after the other. */
  method WithProperties(b: InstanceBuilder, props: seq<(string, Variant)>) returns (r: InstanceBuilder)
    ensures r.properties == Inserted(b.properties, props)
    ensures r.referent == b.referent && r.name == b.name && r.className == b.className
    ensures r.children == b.children
  {
    r := b;
    var i := 0;
    while i < |props|
      invariant 0 <= i <= |props|
      invariant r == b.(properties := Inserted(b.properties, props[..i]))
    {
      assert props[..i + 1][..i] == props[..i];
      r := r.(properties := r.properties[props[i].0 := props[i].1]);
      i := i + 1;
    }
    assert props[..|props|] == props;
  }

  /** The builder with `child` appended as its last child. */
  function WithChild(b: InstanceBuilder, child: InstanceBuilder): (r: InstanceBuilder)
    ensures |r.children| == |b.children| + 1
    ensures r.children[..|b.children|] == b.children && r.children[|b.children|] == child
    ensures r.referent == b.referent && r.name == b.name && r.className == b.className
    ensures r.properties == b.properties
  {
    b.(children := b.children + [child])
  }

  /** The builder with `children` appended after its existing children, in their order. */
  function WithChildren(b: InstanceBuilder, children: seq<InstanceBuilder>): (r: InstanceBuilder)
    ensures |r.children| == |b.children| + |children|
    ensures r.children[..|b.children|] == b.children && r.children[|b.children|..] == children
    ensures r.referent == b.referent && r.name == b.name && r.className == b.className
    ensures r.properties == b.properties
  {
    b.(children := b.children + children)
  }

  /** Adding children one at a time, first child first. */
  function WithEachChild(b: InstanceBuilder, children: seq<InstanceBuilder>): InstanceBuilder
    decreases |children|
  {
    if children == [] then b else WithEachChild(WithChild(b, children[0]), children[1..])
  }

  /** Adding a batch of children is adding each of them in turn, in the order given. */
  lemma {:induction false} WithChildrenIsEachChild(b: InstanceBuilder, children: seq<InstanceBuilder>)
    ensures WithChildren(b, children) == WithEachChild(b, children)
    decreases |children|
  {
    if children != [] {
      WithChildrenIsEachChild(WithChild(b, children[0]), children[1..]);
      assert b.children + [children[0]] + children[1..] == b.children + children;
    }
  }

  /** One call of a mutator, in either form. */
  datatype Mutation =
    | SetName(name: string)
    | AddProperty(key: string, value: Variant)
    | AddProperties(props: seq<(string, Variant)>)
    | AddChild(child: InstanceBuilder)
    | AddChildren(children: seq<InstanceBuilder>)

  function Apply(b: InstanceBuilder, m: Mutation): InstanceBuilder {
    match m
    case SetName(name) => WithName(b, name)
    case AddProperty(key, value) => WithProperty(b, key, value)
    case AddProperties(props) => b.(properties := Inserted(b.properties, props))
    case AddChild(child) => WithChild(b, child)
    case AddChildren(children) => WithChildren(b, children)
  }

  /** The mutators called in order, first one first. */
  function ApplyAll(b: InstanceBuilder, ms: seq<Mutation>): InstanceBuilder
    decreases |ms|
  {
    if ms == [] then b else ApplyAll(Apply(b, ms[0]), ms[1..])
  }

  /**
   * After any sequence of mutators the referent and the class are those the builder was
   * created with; children are only ever appended; no property is ever removed.
   */
  lemma {:induction false} MutatorsPreserve(b: InstanceBuilder, ms: seq<Mutation>)
    ensures ApplyAll(b, ms).referent == b.referent
    ensures ApplyAll(b, ms).className == b.className
    ensures |ApplyAll(b, ms).children| >= |b.children|
    ensures ApplyAll(b, ms).children[..|b.children|] == b.children
    ensures b.properties.Keys <= ApplyAll(b, ms).properties.Keys
    decreases |ms|
  {
    if ms != [] {
      var next := Apply(b, ms[0]);
      if ms[0].AddProperties? {
        forall key | key in b.properties
          ensures key in next.properties
        {
          InsertedLastWins(b.properties, ms[0].props, key);
        }
      }
      MutatorsPreserve(next, ms[1..]);
      assert ApplyAll(next, ms[1..]).children[..|next.children|][..|b.children|] == b.children;
    }
  }

  /** A builder reached through `&mut self`: the same fields, updated in place. */
  class MutableBuilder {
    const referent: NonNullRef
    var name: string
    var className: string
    var properties: map<string, Variant>
    var children: seq<InstanceBuilder>

    /** The builder value the fields hold. */
    function Value(): InstanceBuilder
      reads this
    {
      InstanceBuilder(referent, name, className, properties, children)
    }

    constructor (referent: NonNullRef, className: string)
      ensures Value() == New(referent, className)
    {
      this.referent := referent;
      name := className;
      this.className := className;
      properties := map[];
      children := [];
    }

    /** Takes over an existing builder value. */
    constructor Of(b: InstanceBuilder)
      ensures Value() == b
    {
      referent := b.referent;
      name := b.name;
      className := b.className;
      properties := b.properties;
      children := b.children;
    }

    function Referent(): (r: Ref)
      ensures r == referent
    {
      referent
    }

    method SetName(name: string)
      modifies this
      ensures Value() == WithName(old(Value()), name)
    {
      this.name := name;
    }

    method AddProperty(key: string, value: Variant)
      modifies this
      ensures Value() == WithProperty(old(Value()), key, value)
    {
      properties := properties[key := value];
    }

    method AddProperties(props: seq<(string, Variant)>)
      modifies this
      ensures Value() == old(Value()).(properties := Inserted(old(properties), props))
    {
      var i := 0;
      while i < |props|
        invariant 0 <= i <= |props|
        invariant Value() == old(Value()).(properties := Inserted(old(properties), props[..i]))
      {
        assert props[..i + 1][..i] == props[..i];
        properties := properties[props[i].0 := props[i].1];
        i := i + 1;
      }
      assert props[..|props|] == props;
    }

    method AddChild(child: InstanceBuilder)
      modifies this
      ensures Value() == WithChild(old(Value()), child)
    {
      children := children + [child];
    }

    method AddChildren(children: seq<InstanceBuilder>)
      modifies this
      ensures Value() == WithChildren(old(Value()), children)
    {
      this.children := this.children + children;
    }
  }

  /**
   * Each consuming mutator and its in-place counterpart, applied to the same builder, give the
   * same builder.
   */
  method FluentAgreesWithInPlace(b: InstanceBuilder, m: Mutation) returns (fluent: InstanceBuilder, inPlace: InstanceBuilder)
    ensures fluent == inPlace == Apply(b, m)
  {
    var cell := new MutableBuilder.Of(b);
    match m {
      case SetName(name) =>
        fluent := WithName(b, name);
        cell.SetName(name);
      case AddProperty(key, value) =>
        fluent := WithProperty(b, key, value);
        cell.AddProperty(key, value);
      case AddProperties(props) =>
        fluent := WithProperties(b, props);
        cell.AddProperties(props);
      case AddChild(child) =>
        fluent := WithChild(b, child);
        cell.AddChild(child);
      case AddChildren(children) =>
        fluent := WithChildren(b, children);
        cell.AddChildren(children);
    }
    inPlace := cell.Value();
  }

  /** A node inside a tree: its children and parent are referents into the same arena. */
  datatype DomInstance = DomInstance(
    referent: Ref,
    children: seq<Ref>,
    parent: Ref,
    name: string,
    className: string,
    properties: map<string, Variant>)
  {
    /** The instance's referent, never null. */
    function Referent(ghost arena: Arena): (r: Ref)
      requires Consistent(this, arena)
      ensures r.IsSome()
    {
      referent
    }

    /** The referents of the instance's children: none is null, and each names an instance of the arena. */
    function Children(ghost arena: Arena): (r: seq<Ref>)
      requires Consistent(this, arena)
      ensures forall c :: c in r ==> c.IsSome() && c in arena
    {
      children
    }

    /** The referent of the instance's parent: null, or an instance of the arena. */
    function Parent(ghost arena: Arena): (r: Ref)
      requires Consistent(this, arena)
      ensures r.IsNone() || r in arena
    {
      parent
    }
  }

  /** The instances of one tree, by referent. */
  type Arena = map<Ref, DomInstance>

  /**
   * What the accessors promise of an instance in `arena`: its referent is not null, its
   * children are non-null referents of instances in the arena, and its parent is either null
   * or an instance in the arena.
   */
  predicate Consistent(inst: DomInstance, arena: Arena) {
    && inst.referent.IsSome()
    && (forall c :: c in inst.children ==> c.IsSome() && c in arena)
    && (inst.parent.IsNone() || inst.parent in arena)
  }
}
