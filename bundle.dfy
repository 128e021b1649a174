// Model of al::ParameterBundle: bundle naming and numbering, OSC prefixes,
// nesting of bundles and the fan-out of notifiers to sub-bundles.

module Bundles {

  // ---------------------------------------------------------------------------
  // Decimal strings (`std::to_string` on non-negative integers)

  function DigitChar(d: nat): (c: char)
    requires d < 10
    ensures '0' <= c <= '9' && c as int - '0' as int == d
  {
    (d + '0' as int) as char
  }

  /** `std::to_string(n)` for `n >= 0`. */
  function Decimal(n: nat): (s: string)
    ensures |s| > 0
    ensures forall i :: 0 <= i < |s| ==> '0' <= s[i] <= '9'
    ensures |s| > 1 ==> s[0] != '0'
  {
    if n < 10 then [DigitChar(n)] else Decimal(n / 10) + [DigitChar(n % 10)]
  }

  /** The value of a string of decimal digits. */
  function DecimalValue(s: string): nat
    requires forall i :: 0 <= i < |s| ==> '0' <= s[i] <= '9'
  {
    if |s| == 0 then 0
    else 10 * DecimalValue(s[..|s| - 1]) + (s[|s| - 1] as int - '0' as int)
  }

  /** Reading back the decimal string gives the number. */
  lemma {:induction false} DecimalRoundTrip(n: nat)
    ensures DecimalValue(Decimal(n)) == n
  {
    var s := Decimal(n);
    if n >= 10 {
      assert s[..|s| - 1] == Decimal(n / 10);
      DecimalRoundTrip(n / 10);
    }
  }

  /** Distinct counts give distinct default ids. */
  lemma DecimalInjective(m: nat, n: nat)
    requires Decimal(m) == Decimal(n)
    ensures m == n
  {
    DecimalRoundTrip(m);
    DecimalRoundTrip(n);
  }

  // ---------------------------------------------------------------------------
  // Bundle numbering

  /** The process-wide counter `mBundleCounter`, keyed by the constructor's raw name argument. */
  class BundleRegistry {
    var counter: map<string, nat>

    constructor()
      ensures counter == map[]
    {
      counter := map[];
    }
  }

  /** What the constructor does to the counter: the index handed out and the counter after. */
  function Register(counter: map<string, nat>, name: string): (nat, map<string, nat>)
  {
    var index := if name in counter then counter[name] else 0;
    (index, counter[name := index + 1])
  }

  /** Constructing bundles with the given name arguments, in order: the indices they get and the counter after. */
  function RegisterAll(counter: map<string, nat>, names: seq<string>): (seq<nat>, map<string, nat>)
  {
    if |names| == 0 then ([], counter)
    else
      var before := RegisterAll(counter, names[..|names| - 1]);
      var step := Register(before.1, names[|names| - 1]);
      (before.0 + [step.0], step.1)
  }

  /**
   * Starting from an empty counter, the i-th bundle's index is the number of
   * earlier bundles constructed with the same name argument: bundles of one
   * name are numbered 0, 1, 2, ..., and "" and "bundle" are counted apart.
   */
  lemma {:induction false} ConsecutiveIndices(names: seq<string>)
    ensures |RegisterAll(map[], names).0| == |names|
    ensures forall x :: x in RegisterAll(map[], names).1 <==> x in names
    ensures forall x :: x in names ==> RegisterAll(map[], names).1[x] == multiset(names)[x]
    ensures forall i :: 0 <= i < |names| ==> RegisterAll(map[], names).0[i] == multiset(names[..i])[names[i]]
  {
    var r := RegisterAll(map[], names);
    RegisterAllCounts(names);
    assert CountsMatch(names, r.1) && IndicesMatch(names, r.0);
  }

  /** The counter holds, for each name seen, how often it was seen. */
  ghost predicate CountsMatch(names: seq<string>, counter: map<string, nat>)
  {
    (forall x :: x in counter <==> x in names) &&
    (forall x :: x in names ==> counter[x] == multiset(names)[x])
  }

  /** Each index is the number of earlier occurrences of the same name. */
  ghost predicate IndicesMatch(names: seq<string>, indices: seq<nat>)
  {
    |indices| == |names| &&
    forall i :: 0 <= i < |names| ==> indices[i] == multiset(names[..i])[names[i]]
  }

  lemma {:induction false} RegisterAllCounts(names: seq<string>)
    ensures CountsMatch(names, RegisterAll(map[], names).1)
    ensures IndicesMatch(names, RegisterAll(map[], names).0)
  {
    if |names| > 0 {
      var init := names[..|names| - 1];
      var last := names[|names| - 1];
      RegisterAllCounts(init);
      assert names == init + [last];
      var before := RegisterAll(map[], init);
      RegisterCounts(init, last, before.1);
      RegisterIndices(init, last, before.0, before.1);
    }
  }

  lemma RegisterCounts(init: seq<string>, last: string, counter: map<string, nat>)
    requires CountsMatch(init, counter)
    ensures CountsMatch(init + [last], Register(counter, last).1)
  {
    assert multiset(init + [last]) == multiset(init) + multiset{last};
    assert last !in init ==> multiset(init)[last] == 0;
  }

  lemma RegisterIndices(init: seq<string>, last: string, indices: seq<nat>, counter: map<string, nat>)
    requires CountsMatch(init, counter) && IndicesMatch(init, indices)
    ensures IndicesMatch(init + [last], indices + [Register(counter, last).0])
  {
    var names := init + [last];
    var r := indices + [Register(counter, last).0];
    forall i | 0 <= i < |names|
      ensures r[i] == multiset(names[..i])[names[i]]
    {
      if i < |init| {
        assert names[..i] == init[..i];
      } else {
        assert names[..i] == init;
        assert last !in init ==> multiset(init)[last] == 0;
      }
    }
  }

  // ---------------------------------------------------------------------------
  // Prefixes

  /** `bundlePrefix()`: parent prefix, name, then the id or, when the id is empty, the index. */
  function BundlePrefix(parentPrefix: string, name: string, id: string, index: nat): string
  {
    parentPrefix + "/" + name + "/" + (if id == "" then Decimal(index) else id)
  }

  /** A prefix extends its parent's by two non-empty segments. */
  lemma {:induction false} PrefixExtendsParent(parentPrefix: string, name: string, id: string, index: nat)
    requires name != ""
    ensures var p := BundlePrefix(parentPrefix, name, id, index);
            var tail := p[|parentPrefix|..];
            p[..|parentPrefix|] == parentPrefix && |tail| >= 4 && tail[0] == '/' && tail[1..|name| + 1] == name &&
            tail[|name| + 1] == '/' && |tail| > |name| + 2
  {
    var seg := if id == "" then Decimal(index) else id;
    assert |seg| > 0;
    var p := BundlePrefix(parentPrefix, name, id, index);
    assert p == parentPrefix + ("/" + name + "/" + seg);
  }

  /** Two bundles of one name under one parent prefix differ in prefix exactly when their ids differ. */
  lemma {:induction false} SiblingPrefixesDistinct(parentPrefix: string, name: string, id1: string, id2: string, i1: nat, i2: nat)
    requires id1 != "" && id2 != ""
    ensures BundlePrefix(parentPrefix, name, id1, i1) == BundlePrefix(parentPrefix, name, id2, i2) <==> id1 == id2
  {
    var head := parentPrefix + "/" + name + "/";
    assert BundlePrefix(parentPrefix, name, id1, i1) == head + id1;
    assert BundlePrefix(parentPrefix, name, id2, i2) == head + id2;
    if head + id1 == head + id2 {
      assert id1 == (head + id1)[|head|..];
      assert id2 == (head + id2)[|head|..];
    }
  }

  // ---------------------------------------------------------------------------
  // Bundles

  /** A parameter registered in a bundle, by its OSC address. */
  datatype ParameterRef = ParameterRef(address: string)

  /** An OSC notifier, by identity. */
  datatype NotifierRef = NotifierRef(id: nat)

  /** A `ParameterBundle`: a named group of parameters with sub-bundles and notifiers. */
  class ParameterBundle {
    const name: string
    const index: nat
    var id: string
    var parentPrefix: string
    var parameters: seq<ParameterRef>
    var bundles: map<string, ParameterBundle>
    var notifiers: seq<NotifierRef>

    /**
     * `ParameterBundle(name)`: an empty name becomes "bundle"; the index is
     * the counter for the raw argument, which then goes up by one.
     */
    constructor(name0: string, registry: BundleRegistry)
      modifies registry
      ensures name == (if name0 == "" then "bundle" else name0) && name != ""
      ensures index == Register(old(registry.counter), name0).0
      ensures registry.counter == Register(old(registry.counter), name0).1
      ensures id == "" && parentPrefix == "" && parameters == [] && bundles == map[] && notifiers == []
    {
      if |name0| == 0 {
        name := "bundle";
      } else {
        name := name0;
      }
      if name0 !in registry.counter {
        registry.counter := registry.counter[name0 := 0];
      }
      index := registry.counter[name0];
      registry.counter := registry.counter[name0 := registry.counter[name0] + 1];
      id, parentPrefix, parameters, bundles, notifiers := "", "", [], map[], [];
    }

    function Prefix(): string
      reads this
    {
      BundlePrefix(parentPrefix, name, id, index)
    }

    /** `addParameter`, by pointer or by reference: appended at the end, whatever its type. */
    method AddParameter(parameter: ParameterRef)
      modifies this
      ensures parameters == old(parameters) + [parameter]
      ensures id == old(id) && parentPrefix == old(parentPrefix) && bundles == old(bundles) && notifiers == old(notifiers)
    {
      parameters := parameters + [parameter];
    }

    /** `operator<<`, by pointer or by reference: `addParameter`, returning this bundle for chaining. */
    method Push(parameter: ParameterRef) returns (self: ParameterBundle)
      modifies this
      ensures self == this
      ensures parameters == old(parameters) + [parameter]
      ensures id == old(id) && parentPrefix == old(parentPrefix) && bundles == old(bundles) && notifiers == old(notifiers)
    {
      AddParameter(parameter);
      return this;
    }

    /**
     * `addBundle(bundle, id)`: an empty id becomes the decimal count of
     * sub-bundles; the map entry is inserted or overwritten (`overwrote` is
     * the logged error); the child takes the id and this bundle's prefix.
     */
    method AddBundle(child: ParameterBundle, id0: string) returns (key: string, overwrote: bool)
      modifies this, child
      ensures key == (if id0 == "" then Decimal(|old(bundles)|) else id0) && key != ""
      ensures overwrote <==> key in old(bundles)
      ensures bundles == old(bundles)[key := child]
      ensures child.id == key
      ensures child != this ==> child.parentPrefix == old(Prefix()) && id == old(id) && parentPrefix == old(parentPrefix)
      ensures child != this ==> child.Prefix() == old(Prefix()) + "/" + child.name + "/" + key
      ensures child == this ==> parentPrefix == BundlePrefix(old(parentPrefix), name, key, index)
      ensures parameters == old(parameters) && notifiers == old(notifiers)
      ensures child != this ==> child.parameters == old(child.parameters) && child.bundles == old(child.bundles)
      ensures child != this ==> child.notifiers == old(child.notifiers)
    {
      key := id0;
      if |key| == 0 {
        key := Decimal(|bundles|);
      }
      overwrote := key in bundles;
      bundles := bundles[key := child];
      child.id := key;
      child.parentPrefix := Prefix();
    }
  }

  // ---------------------------------------------------------------------------
  // Notifier fan-out

  /** A bundle tree as `addNotifier` sees it: each bundle's notifiers and its sub-bundles by id. */
  datatype BundleNode = BundleNode(notifiers: seq<NotifierRef>, subBundles: map<string, BundleNode>)

  /** `addNotifier(n)`: appended here and, recursively, in every sub-bundle. */
  function AddNotifier(b: BundleNode, n: NotifierRef): (r: BundleNode)
    ensures r.notifiers == b.notifiers + [n]
    ensures r.subBundles.Keys == b.subBundles.Keys
    decreases b
  {
    BundleNode(b.notifiers + [n],
               map k | k in b.subBundles :: AddNotifier(b.subBundles[k], n))
  }

  /** Every bundle of the tree has `n` as its latest notifier. */
  predicate EveryBundleEndsWith(b: BundleNode, n: NotifierRef)
    decreases b
  {
    |b.notifiers| > 0 && b.notifiers[|b.notifiers| - 1] == n &&
    forall k :: k in b.subBundles ==> EveryBundleEndsWith(b.subBundles[k], n)
  }

  /** Drops the latest notifier of every bundle in the tree. */
  function DropLatest(b: BundleNode): BundleNode
    decreases b
  {
    BundleNode(if |b.notifiers| == 0 then [] else b.notifiers[..|b.notifiers| - 1],
               map k | k in b.subBundles :: DropLatest(b.subBundles[k]))
  }

  /** After `addNotifier(n)`, every bundle of the tree, at any depth, has `n` last. */
  lemma {:induction false} AddNotifierReachesAll(b: BundleNode, n: NotifierRef)
    ensures EveryBundleEndsWith(AddNotifier(b, n), n)
    decreases b
  {
    var r := AddNotifier(b, n);
    forall k | k in r.subBundles
      ensures EveryBundleEndsWith(r.subBundles[k], n)
    {
      AddNotifierReachesAll(b.subBundles[k], n);
    }
  }

  /** `addNotifier` only appends: dropping the latest notifier everywhere gives the tree back. */
  lemma {:induction false} AddNotifierOnlyAppends(b: BundleNode, n: NotifierRef)
    ensures DropLatest(AddNotifier(b, n)) == b
    decreases b
  {
    var r := AddNotifier(b, n);
    var d := DropLatest(r);
    assert d.notifiers == b.notifiers;
    forall k | k in b.subBundles
      ensures d.subBundles[k] == b.subBundles[k]
    {
      AddNotifierOnlyAppends(b.subBundles[k], n);
    }
    assert d.subBundles == b.subBundles;
  }
}
