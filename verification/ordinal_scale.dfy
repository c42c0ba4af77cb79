/**
 * The ordinal scale of include/cdv/scl/ordinal_scale.hpp: keys are mapped to
 * codomain entries by their position in the domain, the codomain repeating
 * cyclically. The scale is the one stateful scale of the library: applying
 * the mutable scale to a key it has not seen appends that key to its domain,
 * unless a default result is set.
 */
module OrdinalScale {
  import opened Wrappers
  import opened Seqs

  /** The codomain entry for the key at position i: the codomain repeats cyclically. */
  function Cyclic<V>(codomain: seq<V>, i: nat): (v: V)
    requires |codomain| > 0
    ensures v in codomain
    ensures i < |codomain| ==> v == codomain[i]
  {
    codomain[i % |codomain|]
  }

  /**
   * What the scale maps x to, given its keys, codomain and default: a known
   * key maps to the cyclic codomain entry of its first position; an unknown
   * key maps to the default when there is one and is an invalid argument
   * otherwise.
   */
  function Map<K(==), V>(domain: seq<K>, codomain: seq<V>, default: Option<V>, x: K): (r: Result<V>)
    requires |codomain| > 0
    ensures r.Err? <==> x !in domain && default.None?
    ensures r.Err? ==> r.error == InvalidArgument
    ensures x in domain ==> r == Ok(Cyclic(codomain, Find(domain, x)))
    ensures x !in domain && default.Some? ==> r == Ok(default.value)
  {
    var i := Find(domain, x);
    if i < |domain| then Ok(codomain[i % |codomain|])
    else if default.Some? then Ok(default.value)
    else Err(InvalidArgument)
  }

  /** Every result is a codomain entry or the default. */
  lemma MapInCodomain<K, V>(domain: seq<K>, codomain: seq<V>, default: Option<V>, x: K)
    requires |codomain| > 0
    ensures Map(domain, codomain, default, x).Ok? ==>
              Map(domain, codomain, default, x).value in codomain
              || default == Some(Map(domain, codomain, default, x).value)
  {
  }

  /**
   * Appending a key the domain lacks leaves the mapping of every known key
   * as it was, and maps the new key to the entry at the old domain length.
   */
  lemma AppendKeepsMapping<K, V>(domain: seq<K>, codomain: seq<V>, default: Option<V>, x: K)
    requires |codomain| > 0 && x !in domain
    ensures forall k :: k in domain ==> Map(domain + [x], codomain, default, k) == Map(domain, codomain, default, k)
    ensures Map(domain + [x], codomain, default, x) == Ok(Cyclic(codomain, |domain|))
  {
    forall k | k in domain
      ensures Map(domain + [x], codomain, default, k) == Map(domain, codomain, default, k)
    {
      FindInPrefix(domain, x, k);
    }
    FindAppended(domain, x);
  }

  /** Appending a key the domain lacks keeps its keys distinct. */
  lemma AppendKeepsDistinct<K>(domain: seq<K>, x: K)
    requires Distinct(domain) && x !in domain
    ensures Distinct(domain + [x])
  {
    var d := domain + [x];
    forall i, j | 0 <= i < j < |d| ensures d[i] != d[j] {
      if j == |domain| {
        assert d[i] == domain[i];
      }
    }
  }

  /** The domain after one application of the mutable operator(), and the value it returned. */
  datatype Outcome<K, V> = Outcome(domain: seq<K>, result: V)

  /**
   * The mutable operator() on values: a known key, or any key while a
   * default is set, leaves the domain as it is and returns what the const
   * operator() returns; an unknown key without a default is appended. The
   * domain only grows at its end, and afterwards the key maps to the
   * returned value.
   */
  function ApplyToDomain<K(==), V>(domain: seq<K>, codomain: seq<V>, default: Option<V>, x: K): (r: Outcome<K, V>)
    requires |codomain| > 0
    ensures r.domain == domain || (x !in domain && default.None? && r.domain == domain + [x])
    ensures Map(domain, codomain, default, x).Ok? ==> Map(domain, codomain, default, x) == Ok(r.result)
    ensures Map(r.domain, codomain, default, x) == Ok(r.result)
  {
    var i := Find(domain, x);
    if i < |domain| then Outcome(domain, codomain[i % |codomain|])
    else if default.Some? then Outcome(domain, default.value)
    else
      FindAppended(domain, x);
      Outcome(domain + [x], codomain[i % |codomain|])
  }

  /** An unknown key without a default is appended and maps to the entry at the old domain length. */
  lemma ApplyAppendsUnknown<K, V>(domain: seq<K>, codomain: seq<V>, x: K)
    requires |codomain| > 0 && x !in domain
    ensures ApplyToDomain(domain, codomain, None, x) == Outcome(domain + [x], Cyclic(codomain, |domain|))
  {
  }

  /** Every key known before an application keeps its mapping. */
  lemma ApplyKeepsMapping<K, V>(domain: seq<K>, codomain: seq<V>, default: Option<V>, x: K, k: K)
    requires |codomain| > 0 && k in domain
    ensures Map(ApplyToDomain(domain, codomain, default, x).domain, codomain, default, k)
         == Map(domain, codomain, default, k)
  {
    if x !in domain && default.None? {
      AppendKeepsMapping(domain, codomain, default, x);
    }
  }

  /** Applying the same key twice: the second application changes nothing and returns the same value. */
  lemma ApplyIdempotent<K, V>(domain: seq<K>, codomain: seq<V>, default: Option<V>, x: K)
    requires |codomain| > 0
    ensures var r := ApplyToDomain(domain, codomain, default, x);
            ApplyToDomain(r.domain, codomain, default, x) == r
  {
  }

  /** Keys stay distinct under application. */
  lemma ApplyKeepsDistinct<K, V>(domain: seq<K>, codomain: seq<V>, default: Option<V>, x: K)
    requires |codomain| > 0 && Distinct(domain)
    ensures Distinct(ApplyToDomain(domain, codomain, default, x).domain)
  {
    if x !in domain && default.None? {
      AppendKeepsDistinct(domain, x);
    }
  }

  class OrdinalScale<K(==), V> {
    /** The keys, in the order they were given or first applied. */
    var domain: seq<K>
    const codomain: seq<V>
    /** ordinal_scale_properties::default_result. */
    const defaultResult: Option<V>

    /** A scale can only be built with at least one codomain entry. */
    predicate Valid()
    {
      |codomain| > 0
    }

    /** The constructor once its codomain check has passed (see New). */
    constructor (domain: seq<K>, codomain: seq<V>, defaultResult: Option<V>)
      requires |codomain| > 0
      ensures Valid()
      ensures this.domain == domain && this.codomain == codomain && this.defaultResult == defaultResult
    {
      this.domain := domain;
      this.codomain := codomain;
      this.defaultResult := defaultResult;
    }

    /**
     * The const operator(): the mapping of x over the current domain; the
     * domain is left as it is.
     */
    function Lookup(x: K): (r: Result<V>)
      requires Valid()
      reads this
      ensures r.Err? <==> x !in domain && defaultResult.None?
      ensures r.Err? ==> r.error == InvalidArgument
      ensures r.Ok? ==> r.value in codomain || defaultResult == Some(r.value)
      ensures r == Map(domain, codomain, defaultResult, x)
    {
      MapInCodomain(domain, codomain, defaultResult, x);
      Map(domain, codomain, defaultResult, x)
    }

    /**
     * The mutable operator(): the new domain and the returned value are
     * those ApplyToDomain gives for the old domain.
     */
    method Apply(x: K) returns (y: V)
      requires Valid()
      modifies this
      ensures Valid()
      ensures Outcome(domain, y) == ApplyToDomain(old(domain), codomain, defaultResult, x)
    {
      var i := Find(domain, x);
      if i == |domain| {
        if defaultResult.Some? {
          return defaultResult.value;
        }
        domain := domain + [x];
      }
      y := codomain[i % |codomain|];
    }

    /** make_ordinal_scale: a scale over the given codomain with an empty domain. */
    static method MakeOrdinalScale(codomain: seq<V>, defaultResult: Option<V>) returns (r: Result<OrdinalScale<K, V>>)
      ensures r.Err? <==> |codomain| == 0
      ensures r.Err? ==> r.error == InvalidArgument
      ensures r.Ok? ==> fresh(r.value) && r.value.Valid() && r.value.domain == []
      ensures r.Ok? ==> r.value.codomain == codomain && r.value.defaultResult == defaultResult
    {
      r := New([], codomain, defaultResult);
    }

    /**
     * The constructor with its check: an empty codomain is an invalid
     * argument; otherwise the scale keeps the domain, codomain and default.
     */
    static method New(domain: seq<K>, codomain: seq<V>, defaultResult: Option<V>) returns (r: Result<OrdinalScale<K, V>>)
      ensures r.Err? <==> |codomain| == 0
      ensures r.Err? ==> r.error == InvalidArgument
      ensures r.Ok? ==> fresh(r.value) && r.value.Valid() && r.value.domain == domain
      ensures r.Ok? ==> r.value.codomain == codomain && r.value.defaultResult == defaultResult
    {
      if |codomain| == 0 {
        return Err(InvalidArgument);
      }
      var s := new OrdinalScale(domain, codomain, defaultResult);
      r := Ok(s);
    }
  }

  /** Over keys 1, 2, 3 and the codomain A, B, the known keys map to A, B, A. */
  method KnownKeysExample(keys: seq<int>, codomain: seq<char>) returns (ys: seq<char>)
    requires keys == [1, 2, 3] && codomain == ['A', 'B']
    ensures ys == ['A', 'B', 'A']
  {
    var s := new OrdinalScale(keys, codomain, None);
    FindFirst(keys, 2, 1);
    FindFirst(keys, 3, 2);
    var a := s.Apply(1);
    var b := s.Apply(2);
    var c := s.Apply(3);
    ys := [a, b, c];
  }

  /**
   * Over keys 1, 2, 3 and the codomain A, B, the unknown keys 6, 5, 4 map to
   * B, A, B and are appended in that order.
   */
  method InsertionOrderExample(keys: seq<int>, codomain: seq<char>) returns (ys: seq<char>, extended: seq<int>)
    requires keys == [1, 2, 3] && codomain == ['A', 'B']
    ensures ys == ['B', 'A', 'B']
    ensures extended == [1, 2, 3, 6, 5, 4]
  {
    var s := new OrdinalScale(keys, codomain, None);
    ApplyAppendsUnknown(keys, codomain, 6);
    var a := s.Apply(6);
    ApplyAppendsUnknown(keys + [6], codomain, 5);
    var b := s.Apply(5);
    ApplyAppendsUnknown(keys + [6] + [5], codomain, 4);
    var c := s.Apply(4);
    ys := [a, b, c];
    extended := s.domain;
  }

  /**
   * Over keys 1, 2, 3 and the codomain A, B, applying 4, 4, 5, 6, 4, 5 gives
   * B, B, A, B, B, A: each key keeps the mapping it got when it was appended.
   */
  method RetainedMappingExample(keys: seq<int>, codomain: seq<char>) returns (ys: seq<char>)
    requires keys == [1, 2, 3] && codomain == ['A', 'B']
    ensures ys == ['B', 'B', 'A', 'B', 'B', 'A']
  {
    var s := new OrdinalScale(keys, codomain, None);
    var d4 := keys + [4];
    var d5 := d4 + [5];
    var d6 := d5 + [6];
    ApplyAppendsUnknown(keys, codomain, 4);
    var y1 := s.Apply(4);
    assert s.domain == d4 && y1 == 'B';
    ApplyIdempotent(keys, codomain, None, 4);
    var y2 := s.Apply(4);
    assert s.domain == d4 && y2 == 'B';
    assert 5 !in d4;
    ApplyAppendsUnknown(d4, codomain, 5);
    var y3 := s.Apply(5);
    assert s.domain == d5 && y3 == 'A';
    assert 6 !in d5;
    ApplyAppendsUnknown(d5, codomain, 6);
    var y4 := s.Apply(6);
    assert s.domain == d6 && y4 == 'B';
    ApplyKeepsMapping(d4, codomain, None, 5, 4);
    ApplyKeepsMapping(d5, codomain, None, 6, 4);
    assert Map(d6, codomain, None, 4) == Ok('B');
    var y5 := s.Apply(4);
    ApplyKeepsMapping(d5, codomain, None, 6, 5);
    assert Map(d6, codomain, None, 5) == Ok('A');
    var y6 := s.Apply(5);
    ys := [y1, y2, y3, y4, y5, y6];
  }

  /** With the default X set, keys 1, 2, 3 still map to A, B, A and 4, 5, 6 all to X, appending nothing. */
  method DefaultResultExample(keys: seq<int>, codomain: seq<char>) returns (ys: seq<char>, after: seq<int>)
    requires keys == [1, 2, 3] && codomain == ['A', 'B']
    ensures ys == ['A', 'B', 'A', 'X', 'X', 'X']
    ensures after == [1, 2, 3]
  {
    var s := new OrdinalScale(keys, codomain, Some('X'));
    FindFirst(keys, 2, 1);
    FindFirst(keys, 3, 2);
    var y1 := s.Apply(1);
    var y2 := s.Apply(2);
    var y3 := s.Apply(3);
    var y4 := s.Apply(4);
    var y5 := s.Apply(5);
    var y6 := s.Apply(6);
    ys := [y1, y2, y3, y4, y5, y6];
    after := s.domain;
  }
}
