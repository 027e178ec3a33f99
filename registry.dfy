/** CarrinhoComprasFactory: the registry of shopping carts, a mutable map
    from a customer's identification to that customer's cart. A cart is
    reduced here to what the registry reads of it: its current total. */
module Registry {
  import opened Lang
  import opened BigDecimals
  import opened Ticket

  /** CarrinhoCompras as the registry sees it: a fresh cart totals zero, and
      its total is whatever the cart's own code makes of its items. */
  class Cart {
    var total: Decimal

    constructor ()
      ensures total == Zero
    {
      total := Zero;
    }
  }

  /** `order` lists every key of the map once: one possible iteration order
      of a HashMap with those keys. */
  ghost predicate IsEnumeration(order: seq<string>, keys: set<string>)
  {
    (forall i, j :: 0 <= i < j < |order| ==> order[i] != order[j]) &&
    (forall k :: k in order <==> k in keys)
  }

  /** Every finite set of keys has an iteration order. */
  lemma EnumerationExists(keys: set<string>) returns (order: seq<string>)
    ensures IsEnumeration(order, keys)
  {
    if keys == {} {
      order := [];
    } else {
      var k :| k in keys;
      var rest := EnumerationExists(keys - {k});
      order := rest + [k];
      assert forall i :: 0 <= i < |rest| ==> order[i] == rest[i];
    }
  }

  /** The values of `m` met along `order`. */
  function Along(m: map<string, Decimal>, order: seq<string>): (vs: seq<Decimal>)
    requires forall k :: k in order ==> k in m
    ensures |vs| == |order|
    ensures forall i :: 0 <= i < |order| ==> vs[i] == m[order[i]]
  {
    if order == [] then [] else Along(m, order[..|order| - 1]) + [m[order[|order| - 1]]]
  }

  class CartRegistry {
    var carts: map<string, Cart>

    /** Every key was accepted by `Create`, and no cart is shared by two
        keys (each was created fresh for its own key). */
    ghost predicate Valid()
      reads this
    {
      (forall id :: id in carts ==> id != "") &&
      (forall a, b :: a in carts && b in carts && a != b ==> carts[a] != carts[b])
    }

    constructor ()
      ensures Valid() && carts == map[]
    {
      carts := map[];
    }

    /** criar: a null or empty id throws; an id already present gets its own
        cart back; any other id gets a fresh cart of total zero, added under
        that id alone. The map changes in no other way. */
    method Create(id: Option<string>) returns (r: Result<Cart>)
      requires Valid()
      modifies this
      ensures Valid()
      ensures !IsFilled(id) ==> r == Err(IllegalArgument) && carts == old(carts)
      ensures IsFilled(id) && id.value in old(carts) ==> r == Ok(old(carts)[id.value]) && carts == old(carts)
      ensures IsFilled(id) && id.value !in old(carts) ==>
                r.Ok? && fresh(r.value) && r.value.total == Zero && carts == old(carts)[id.value := r.value]
    {
      if id.None? || id.value == "" {
        return Err(IllegalArgument);
      }
      if id.value in carts {
        return Ok(carts[id.value]);
      }
      var c := new Cart();
      carts := carts[id.value := c];
      return Ok(c);
    }

    /** invalidar: a null or empty id throws; otherwise the id's entry, if
        any, is removed, and the answer says whether there was one. */
    method Invalidate(id: Option<string>) returns (r: Result<bool>)
      requires Valid()
      modifies this
      ensures Valid()
      ensures !IsFilled(id) ==> r == Err(IllegalArgument) && carts == old(carts)
      ensures IsFilled(id) ==> r == Ok(id.value in old(carts)) && carts == old(carts) - {id.value}
      ensures IsFilled(id) && id.value !in old(carts) ==> carts == old(carts)
    {
      if id.None? || id.value == "" {
        return Err(IllegalArgument);
      }
      var present := id.value in carts;
      carts := carts - {id.value};
      return Ok(present);
    }

    /** Each cart's current total, by id. */
    function Totals(): (m: map<string, Decimal>)
      reads this, carts.Values
      ensures m.Keys == carts.Keys
      ensures forall id :: id in carts ==> m[id] == carts[id].total
    {
      map id | id in carts :: carts[id].total
    }

    /** getValorTicketMedio, with the map's iteration order as `order`: 0.00
        for no cart, otherwise the totals summed from zero in that order and
        divided by the number of carts to two places, HALF_UP. */
    function TicketAverage(order: seq<string>): (r: Decimal)
      reads this, carts.Values
      requires IsEnumeration(order, carts.Keys)
      ensures r.scale == 2
      ensures |carts| == 0 ==> r == Decimal(0, 2)
    {
      if |carts| == 0 then Decimal(0, 2)
      else DivideHalfUp(SumTotals(Along(Totals(), order)), ValueOf(|carts|), 2)
    }
  }

  /** A repeated criar for the same id returns the identical cart and leaves
      the map as the first call left it. */
  method CreateTwice(reg: CartRegistry, id: string) returns (first: Cart, second: Cart)
    requires reg.Valid() && id != ""
    modifies reg
    ensures reg.Valid() && first == second
    ensures id in reg.carts && reg.carts[id] == first
    ensures reg.carts == old(reg.carts)[id := first]
  {
    var r1 := reg.Create(Some(id));
    var r2 := reg.Create(Some(id));
    first, second := r1.value, r2.value;
  }

  /** An enumeration of a set of keys has one element per key. */
  lemma {:induction false} EnumerationSize(order: seq<string>, keys: set<string>)
    requires IsEnumeration(order, keys)
    ensures |order| == |keys|
  {
    if order != [] {
      var n := |order| - 1;
      var last := order[n];
      assert forall k :: k in order[..n] ==> k != last by {
        forall k | k in order[..n] ensures k != last {
          var i :| 0 <= i < n && order[..n][i] == k;
          assert order[i] == k;
        }
      }
      assert forall k :: k in order[..n] <==> k in order && k != last by {
        forall k | k in order ensures k in order[..n] || k == last {
          var i :| 0 <= i < |order| && order[i] == k;
          if i < n { assert order[..n][i] == k; }
        }
      }
      EnumerationSize(order[..n], keys - {last});
    } else {
      assert forall k :: k !in keys;
      assert keys == {};
    }
  }

  /** In a sequence without repetition, every element occurs exactly once. */
  lemma {:induction false} OccursOnce(order: seq<string>, k: string)
    requires forall i, j :: 0 <= i < j < |order| ==> order[i] != order[j]
    ensures multiset(order)[k] == if k in order then 1 else 0
  {
    if order != [] {
      var n := |order| - 1;
      assert order == order[..n] + [order[n]];
      OccursOnce(order[..n], k);
      if k == order[n] {
        assert forall i :: 0 <= i < n ==> order[..n][i] != k;
      }
    }
  }

  /** Two iteration orders of the same keys are permutations of each other. */
  lemma EnumerationsPermute(o1: seq<string>, o2: seq<string>, keys: set<string>)
    requires IsEnumeration(o1, keys) && IsEnumeration(o2, keys)
    ensures multiset(o1) == multiset(o2)
  {
    forall k ensures multiset(o1)[k] == multiset(o2)[k] {
      OccursOnce(o1, k);
      OccursOnce(o2, k);
    }
  }

  lemma AlongConcat(m: map<string, Decimal>, a: seq<string>, b: seq<string>)
    requires forall k :: k in a + b ==> k in m
    ensures Along(m, a + b) == Along(m, a) + Along(m, b)
  {
    assert forall k :: k in a ==> k in a + b;
    assert forall k :: k in b ==> k in a + b;
  }

  /** Taking one key out of an order takes its value out of the values
      met along it. */
  lemma AlongRemove(m: map<string, Decimal>, t: seq<string>, j: nat)
    requires forall k :: k in t ==> k in m
    requires j < |t|
    ensures forall k :: k in t[..j] + t[j + 1..] ==> k in m
    ensures multiset(Along(m, t)) == multiset(Along(m, t[..j] + t[j + 1..])) + multiset{m[t[j]]}
  {
    var front, back := t[..j], t[j + 1..];
    assert t == front + [t[j]] + back;
    assert forall k :: k in front + back ==> k in t;
    AlongConcat(m, front + [t[j]], back);
    AlongConcat(m, front, [t[j]]);
    AlongConcat(m, front, back);
    assert Along(m, [t[j]]) == [m[t[j]]];
    MultisetOfThree(Along(m, t), Along(m, front), Along(m, back), Along(m, front + back), m[t[j]]);
  }

  lemma MultisetOfThree(w: seq<Decimal>, x: seq<Decimal>, z: seq<Decimal>, xz: seq<Decimal>, v: Decimal)
    requires w == x + [v] + z && xz == x + z
    ensures multiset(w) == multiset(xz) + multiset{v}
  {
  }

  /** Reading the values along two orders that are permutations of each
      other gives permutations of each other. */
  lemma {:induction false} AlongPermutation(m: map<string, Decimal>, s: seq<string>, t: seq<string>)
    requires forall k :: k in s ==> k in m
    requires multiset(s) == multiset(t)
    ensures forall k :: k in t ==> k in m
    ensures multiset(Along(m, s)) == multiset(Along(m, t))
    decreases |s|
  {
    SameMembers(s, t);
    if s != [] {
      var n := |s| - 1;
      assert s[n] in multiset(t);
      var j :| 0 <= j < |t| && t[j] == s[n];
      RemoveLast(s, t, j);
      AlongPermutation(m, s[..n], t[..j] + t[j + 1..]);
      AlongRemove(m, t, j);
    } else {
      assert |t| == |multiset(t)| == 0;
    }
  }

  lemma SameMembers(s: seq<string>, t: seq<string>)
    requires multiset(s) == multiset(t)
    ensures forall k :: k in t <==> k in s
  {
    forall k ensures k in t <==> k in s {
      assert k in t <==> k in multiset(t);
      assert k in s <==> k in multiset(s);
    }
  }

  /** getValorTicketMedio is the average of the carts' totals met along the
      iteration order: 0.00 for no cart, otherwise the exact mean rounded
      HALF_UP to the cent, and never more than half a cent away from it. */
  lemma TicketAverageMeans(reg: CartRegistry, order: seq<string>)
    requires IsEnumeration(order, reg.carts.Keys)
    ensures reg.TicketAverage(order) == Average(Along(reg.Totals(), order))
    ensures |reg.carts| > 0 ==>
              IsHalfUpRounding(SumValues(Along(reg.Totals(), order)) / |reg.carts| as real * 100.0,
                               reg.TicketAverage(order).unscaled)
    ensures |reg.carts| > 0 ==>
              -0.005 <= Value(reg.TicketAverage(order)) - SumValues(Along(reg.Totals(), order)) / |reg.carts| as real <= 0.005
  {
    EnumerationSize(order, reg.carts.Keys);
    assert |reg.carts.Keys| == |reg.carts|;
    var ts := Along(reg.Totals(), order);
    if |reg.carts| > 0 {
      AverageRounds(ts);
      AverageWithinHalfCent(ts);
    }
  }

  /** The HashMap's iteration order does not matter: every order of the
      same carts gives the same average, scale included. */
  lemma TicketAverageOrderIndependent(reg: CartRegistry, o1: seq<string>, o2: seq<string>)
    requires IsEnumeration(o1, reg.carts.Keys) && IsEnumeration(o2, reg.carts.Keys)
    ensures reg.TicketAverage(o1) == reg.TicketAverage(o2)
  {
    EnumerationsPermute(o1, o2, reg.carts.Keys);
    AlongPermutation(reg.Totals(), o1, o2);
    SumTotalsPermutation(Along(reg.Totals(), o1), Along(reg.Totals(), o2));
  }
}
