/** Shared vocabulary of the backend model: optional values, the HTTP statuses
    the handlers answer with, and the two ways the document store picks a key:
    the natural-order `findOne` and the key above all present keys. */
module Common {

  /** An absent (`undefined`) or present value. */
  datatype Option<+T> = None | Some(value: T) {
    /** The value, or `default` when absent. */
    function GetOr(default: T): T {
      match this
      case Some(v) => v
      case None => default
    }
  }

  /** The statuses the modelled handlers produce (the 500 branches are not modelled). */
  datatype Status = Ok | Created | BadRequest | Unauthorized | Forbidden | NotFound

  /** `k` is the least element of `ks`. */
  predicate IsLeast(k: nat, ks: set<nat>) {
    k in ks && forall j :: j in ks ==> k <= j
  }

  /** `k` is the greatest element of `ks`. */
  predicate IsGreatest(k: nat, ks: set<nat>) {
    k in ks && forall j :: j in ks ==> j <= k
  }

  /** Every non-empty finite set of naturals has a least element. */
  lemma {:induction false} LeastExists(ks: set<nat>)
    requires ks != {}
    ensures exists k :: IsLeast(k, ks)
  {
    var x :| x in ks;
    var rest := ks - {x};
    if rest == {} {
      forall j | j in ks
        ensures x <= j
      {
        assert j in rest || j == x;
      }
      assert IsLeast(x, ks);
    } else {
      LeastExists(rest);
      var m :| IsLeast(m, rest);
      var least := if x < m then x else m;
      forall j | j in ks
        ensures least <= j
      {
        assert j in rest || j == x;
      }
      assert IsLeast(least, ks);
    }
  }

  /** Every non-empty finite set of naturals has a greatest element. */
  lemma {:induction false} GreatestExists(ks: set<nat>)
    requires ks != {}
    ensures exists k :: IsGreatest(k, ks)
  {
    var x :| x in ks;
    var rest := ks - {x};
    if rest == {} {
      forall j | j in ks
        ensures j <= x
      {
        assert j in rest || j == x;
      }
      assert IsGreatest(x, ks);
    } else {
      GreatestExists(rest);
      var m :| IsGreatest(m, rest);
      var greatest := if m < x then x else m;
      forall j | j in ks
        ensures j <= greatest
      {
        assert j in rest || j == x;
      }
      assert IsGreatest(greatest, ks);
    }
  }

  function Least(ks: set<nat>): (k: nat)
    requires ks != {}
    ensures k in ks && forall j :: j in ks ==> k <= j
  {
    LeastExists(ks);
    var k :| IsLeast(k, ks); k
  }

  function Greatest(ks: set<nat>): (k: nat)
    requires ks != {}
    ensures k in ks && forall j :: j in ks ==> j <= k
  {
    GreatestExists(ks);
    var k :| IsGreatest(k, ks); k
  }

  /** The document store's `findOne(filter)`: the first matching document in
      natural order. Identifiers are allocated in increasing order (see
      `Model.FreshId`), so natural order is taken to be the order of keys. */
  function FindOne<T>(m: map<nat, T>, matches: T -> bool): (r: Option<nat>)
    ensures r.None? <==> forall k :: k in m ==> !matches(m[k])
    ensures r.Some? ==> r.value in m && matches(m[r.value])
    ensures r.Some? ==> forall k :: k in m && matches(m[k]) ==> r.value <= k
  {
    var hits := set k | k in m && matches(m[k]);
    assert forall k :: k in m && matches(m[k]) ==> k in hits;
    if hits == {} then None else Some(Least(hits))
  }

  /** The smallest natural above every element of `ks`. */
  function NextKey(ks: set<nat>): (k: nat)
    ensures forall j :: j in ks ==> j < k
    ensures ks == {} ==> k == 0
    ensures ks != {} ==> k - 1 in ks
  {
    if ks == {} then 0 else Greatest(ks) + 1
  }
}
