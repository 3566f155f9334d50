/**
 * The menu store: the map from category to its item list, and the one
 * operation that writes it, the completion of the aggregate load
 * (index.js lines 6-25). One read is issued per registry category; the
 * reads are combined so that the map is written only if every one of them
 * succeeded, and then positionally, result i under registry entry i.
 */
module Store {
  import opened MenuModel

  /** Promise.all resolves only when every read resolved with a list. */
  predicate AllLoaded(results: seq<ReadResult>) {
    forall i :: 0 <= i < |results| ==> results[i].Loaded?
  }

  /** The item lists of an all-successful load, in read order. */
  function Payloads(results: seq<ReadResult>): seq<seq<MenuItem>>
    requires AllLoaded(results)
  {
    seq(|results|, i requires 0 <= i < |results| => results[i].items)
  }

  /** The map after writing `vs[i]` under `ks[i]`, for i from first to last. */
  function Assign<K, V>(m: map<K, V>, ks: seq<K>, vs: seq<V>): map<K, V>
    requires |ks| == |vs|
  {
    if ks == [] then m
    else Assign(m, ks[..|ks| - 1], vs[..|vs| - 1])[ks[|ks| - 1] := vs[|vs| - 1]]
  }

  /** The store after a load completed with the given per-category results. */
  function AfterLoad(m: map<string, seq<MenuItem>>, results: seq<ReadResult>): (after: map<string, seq<MenuItem>>)
    requires |results| == |Registry|
    ensures !AllLoaded(results) ==> after == m
  {
    if AllLoaded(results) then Assign(m, Registry, Payloads(results)) else m
  }

  /** With distinct keys, each key ends up holding its own value. */
  lemma {:induction false} AssignAt<K, V>(m: map<K, V>, ks: seq<K>, vs: seq<V>, i: nat)
    requires |ks| == |vs| && Distinct(ks) && i < |ks|
    ensures ks[i] in Assign(m, ks, vs) && Assign(m, ks, vs)[ks[i]] == vs[i]
  {
    var n := |ks| - 1;
    if i < n {
      AssignAt(m, ks[..n], vs[..n], i);
    }
  }

  /** A key that is not written keeps its presence and its value. */
  lemma {:induction false} AssignElsewhere<K, V>(m: map<K, V>, ks: seq<K>, vs: seq<V>, k: K)
    requires |ks| == |vs| && k !in ks
    ensures k in Assign(m, ks, vs) <==> k in m
    ensures k in m ==> Assign(m, ks, vs)[k] == m[k]
  {
    if ks != [] {
      var n := |ks| - 1;
      AssignElsewhere(m, ks[..n], vs[..n], k);
    }
  }

  /**
   * A successful load leaves an entry for every registry category, holding
   * the list read for it at the same position.
   */
  lemma LoadInstallsRegistry(m: map<string, seq<MenuItem>>, results: seq<ReadResult>)
    requires |results| == |Registry| && AllLoaded(results)
    ensures forall i :: 0 <= i < |Registry| ==>
      Registry[i] in AfterLoad(m, results) && AfterLoad(m, results)[Registry[i]] == results[i].items
  {
    RegistryDistinct();
    forall i | 0 <= i < |Registry|
      ensures Registry[i] in AfterLoad(m, results) && AfterLoad(m, results)[Registry[i]] == results[i].items
    {
      AssignAt(m, Registry, Payloads(results), i);
    }
  }

  /** A successful load adds exactly the registry categories to the store's keys. */
  lemma LoadCoversRegistry(m: map<string, seq<MenuItem>>, results: seq<ReadResult>)
    requires |results| == |Registry| && AllLoaded(results)
    ensures AfterLoad(m, results).Keys == m.Keys + set c | c in Registry
  {
    LoadInstallsRegistry(m, results);
    forall k | k !in Registry
      ensures k in AfterLoad(m, results) <==> k in m
    {
      AssignElsewhere(m, Registry, Payloads(results), k);
    }
  }

  /**
   * Keys outside the registry are never touched by a load, whether it
   * succeeded or failed.
   */
  lemma LoadKeepsOtherKeys(m: map<string, seq<MenuItem>>, results: seq<ReadResult>, k: string)
    requires |results| == |Registry| && k !in Registry
    ensures k in AfterLoad(m, results) <==> k in m
    ensures k in m ==> AfterLoad(m, results)[k] == m[k]
  {
    if AllLoaded(results) {
      AssignElsewhere(m, Registry, Payloads(results), k);
    }
  }

  /** The store object, created empty when the page loads. */
  class MenuStore {
    var menuData: map<string, seq<MenuItem>>

    constructor ()
      ensures menuData == map[]
    {
      menuData := map[];
    }

    /**
     * The continuation of the aggregate load: on success write each
     * registry category's list in registry order and report true; if any
     * read failed report false and leave the map untouched.
     */
    method Reconcile(results: seq<ReadResult>) returns (ok: bool)
      requires |results| == |Registry|
      modifies this
      ensures ok == AllLoaded(results)
      ensures !ok ==> menuData == old(menuData)
      ensures menuData == AfterLoad(old(menuData), results)
    {
      ok := AllLoaded(results);
      if ok {
        var i := 0;
        while i < |Registry|
          invariant 0 <= i <= |Registry|
          invariant menuData == Assign(old(menuData), Registry[..i], Payloads(results)[..i])
        {
          assert Registry[..i + 1][..i] == Registry[..i];
          assert Payloads(results)[..i + 1][..i] == Payloads(results)[..i];
          menuData := menuData[Registry[i] := results[i].items];
          i := i + 1;
        }
        assert Registry[..i] == Registry;
        assert Payloads(results)[..i] == Payloads(results);
      }
    }
  }
}
