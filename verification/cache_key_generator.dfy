/**
 * The combination algebra of collection-based cache key generators
 * (AbstractCollectionCacheKeyGenerator). A generator is identified by its
 * concrete class (the variant), a provisional flag and a collection of
 * determinants that may be null. `Combine` builds the generator whose keys vary
 * with the conditions honoured by both of its inputs.
 */
module CacheKeyGenerator {
  import opened Wrappers

  /** A collection cache key generator; `collection == None` is a null collection. */
  datatype KeyGen<T> = KeyGen(variant: string, provisional: bool, collection: Option<set<T>>)

  /** What `combine` hands back: the receiver, the argument, a new instance, or an exception. */
  datatype Outcome<T> = This | Other | Fresh(gen: KeyGen<T>) | IllegalState

  /** Java `equals`: same class, same provisional flag, and equal collections or both null. */
  function Equals<T>(a: KeyGen<T>, b: KeyGen<T>): (r: bool)
    ensures r <==> a == b
  {
    a.variant == b.variant && a.provisional == b.provisional &&
    ((a.collection.Some? && b.collection.Some? && a.collection.value == b.collection.value) ||
     (a.collection.None? && b.collection.None?))
  }

  /** `a.combine(b)`, step by step as the Java method takes its decisions. */
  function Combine<T>(a: KeyGen<T>, b: KeyGen<T>): (r: Outcome<T>)
    ensures r == IllegalState <==> a != b && a.provisional && b.provisional
    ensures r.Fresh? ==> !a.provisional && !b.provisional && a.collection.Some? && b.collection.Some? &&
                         r.gen == KeyGen(a.variant, false, Some(a.collection.value + b.collection.value))
  {
    if Equals(a, b) then This
    else if a.provisional && b.provisional then IllegalState
    else if a.provisional then Other
    else if b.provisional then This
    else if a.collection.None? then This
    else if b.collection.None? then Other
    else
      var s, o := a.collection.value, b.collection.value;
      if |s| > |o| && o <= s then This
      else if |o| > |s| && s <= o then Other
      else Fresh(KeyGen(a.variant, false, Some(s + o)))
  }

  /** The generator `a.combine(b)` returns, or the IllegalStateException it throws. */
  function Combined<T>(a: KeyGen<T>, b: KeyGen<T>): (r: Result<KeyGen<T>, ()>)
    ensures r.Err? <==> a != b && a.provisional && b.provisional
    ensures r.Ok? && r.value.provisional ==> a == b && r.value == a
  {
    match Combine(a, b)
    case This => Ok(a)
    case Other => Ok(b)
    case Fresh(g) => Ok(g)
    case IllegalState => Err(())
  }

  /** Reference definition: the collection a settled combination must carry (null absorbs, else union). */
  function Join<T>(s: Option<set<T>>, o: Option<set<T>>): Option<set<T>>
  {
    if s.None? || o.None? then None else Some(s.value + o.value)
  }

  /** Equal generators combine to the receiver itself; in particular combine(a, a) is a. */
  lemma CombineEqual<T>(a: KeyGen<T>, b: KeyGen<T>)
    requires Equals(a, b)
    ensures Combine(a, b) == This && Combined(a, b) == Ok(a)
  {
  }

  /** With exactly one provisional side, the settled side is returned unchanged. */
  lemma ProvisionalDiscarded<T>(a: KeyGen<T>, b: KeyGen<T>)
    requires a.provisional != b.provisional
    ensures Combine(a, b) == (if a.provisional then Other else This)
    ensures Combined(a, b) == Ok(if a.provisional then b else a)
  {
  }

  /** Between settled generators, a null collection absorbs: a null receiver wins, else a null argument. */
  lemma NullAbsorbs<T>(a: KeyGen<T>, b: KeyGen<T>)
    requires !a.provisional && !b.provisional
    requires a.collection.None? || b.collection.None?
    ensures Combine(a, b) == (if a.collection.None? then This else Other)
  {
  }

  /** A strictly larger collection that contains the other is returned unchanged; no instance is made. */
  lemma StrictSupersetWins<T>(a: KeyGen<T>, b: KeyGen<T>)
    requires !a.provisional && !b.provisional
    requires a.collection.Some? && b.collection.Some?
    ensures b.collection.value < a.collection.value ==> Combine(a, b) == This
    ensures a.collection.value < b.collection.value ==> Combine(a, b) == Other
  {
    var s, o := a.collection.value, b.collection.value;
    if o < s {
      StrictSubsetSmaller(o, s);
    }
    if s < o {
      StrictSubsetSmaller(s, o);
    }
  }

  /** A strict subset has fewer elements. */
  lemma StrictSubsetSmaller<T>(s: set<T>, o: set<T>)
    requires s < o
    ensures |s| < |o|
  {
    var x :| x in o && x !in s;
    assert s <= o - {x};
    SubsetNoLarger(s, o - {x});
  }

  /** A subset has no more elements; equal sizes make it the whole set. */
  lemma SubsetNoLarger<T>(s: set<T>, o: set<T>)
    requires s <= o
    ensures |s| <= |o|
    ensures |s| == |o| ==> s == o
  {
    assert o == s + (o - s);
    assert |o| == |s| + |o - s|;
    if |s| == |o| {
      assert |o - s| == 0;
      assert o - s == {};
    }
  }

  /**
   * A new instance is made only when neither input already covers the other: it
   * is settled, has the receiver's class, holds exactly the union, and (for
   * inputs of one class) that union is strictly larger than either collection.
   */
  lemma FreshIsStrictUnion<T>(a: KeyGen<T>, b: KeyGen<T>)
    requires Combine(a, b).Fresh?
    ensures a.collection.Some? && b.collection.Some? && !a.provisional && !b.provisional
    ensures Combine(a, b).gen == KeyGen(a.variant, false, Some(a.collection.value + b.collection.value))
    ensures a.variant == b.variant ==>
              a.collection.value < a.collection.value + b.collection.value &&
              b.collection.value < a.collection.value + b.collection.value
  {
    var s, o := a.collection.value, b.collection.value;
    if a.variant == b.variant {
      if o <= s {
        SubsetNoLarger(o, s);
      }
      if s <= o {
        SubsetNoLarger(s, o);
      }
    }
  }

  /**
   * Normal form of the algebra: two settled generators of one class combine to
   * the settled generator of that class whose collection is the join of theirs.
   */
  lemma SettledNormalForm<T>(a: KeyGen<T>, b: KeyGen<T>)
    requires a.variant == b.variant && !a.provisional && !b.provisional
    ensures Combined(a, b) == Ok(KeyGen(a.variant, false, Join(a.collection, b.collection)))
  {
    if Combine(a, b).Fresh? {
      FreshIsStrictUnion(a, b);
    } else if a.collection.Some? && b.collection.Some? {
      var s, o := a.collection.value, b.collection.value;
      if Combine(a, b) == This {
        assert o <= s;
        assert s + o == s;
      } else {
        assert s <= o;
        assert s + o == o;
      }
    }
  }

  /** The combination covers both inputs: every determinant of either settled input is in the result. */
  lemma CombinedCovers<T>(a: KeyGen<T>, b: KeyGen<T>)
    requires a.variant == b.variant && !a.provisional && !b.provisional
    requires a.collection.Some? && b.collection.Some?
    ensures Combined(a, b).Ok? && Combined(a, b).value.collection.Some?
    ensures a.collection.value <= Combined(a, b).value.collection.value
    ensures b.collection.value <= Combined(a, b).value.collection.value
  {
    SettledNormalForm(a, b);
  }

  /** For generators of one class, combine is commutative in its result, exceptions included. */
  lemma CombineCommutes<T>(a: KeyGen<T>, b: KeyGen<T>)
    requires a.variant == b.variant
    ensures Combined(a, b) == Combined(b, a)
  {
    if !a.provisional && !b.provisional {
      SettledNormalForm(a, b);
      SettledNormalForm(b, a);
      if a.collection.Some? && b.collection.Some? {
        assert a.collection.value + b.collection.value == b.collection.value + a.collection.value;
      }
    }
  }

  /**
   * For generators of one class, combine is associative in its result whenever
   * the two inner combinations succeed.
   */
  lemma CombineAssociates<T>(a: KeyGen<T>, b: KeyGen<T>, c: KeyGen<T>)
    requires a.variant == b.variant == c.variant
    requires Combined(a, b).Ok? && Combined(b, c).Ok?
    ensures Combined(Combined(a, b).value, c) == Combined(a, Combined(b, c).value)
  {
    var ab, bc := Combined(a, b).value, Combined(b, c).value;
    if !a.provisional && !b.provisional && !c.provisional {
      SettledNormalForm(a, b);
      SettledNormalForm(b, c);
      SettledNormalForm(ab, c);
      SettledNormalForm(a, bc);
      if a.collection.Some? && b.collection.Some? && c.collection.Some? {
        var x, y, z := a.collection.value, b.collection.value, c.collection.value;
        assert (x + y) + z == x + (y + z);
      }
    }
  }
}
