/**
 * Values shared by the whole menu controller: the fixed category registry,
 * the API base URL, menu items, the per-category read results that the
 * aggregate load combines, and the requests the controller issues.
 */
module MenuModel {

  datatype Option<T> = None | Some(value: T)

  /** The backend the controller talks to (index.js line 1). */
  const ApiBaseUrl: string := "http://localhost:3000/"

  /** The fixed, ordered category registry; its order is the display order. */
  const Registry: seq<string> := ["breakfast", "lunch", "dinner", "dessert", "drinks"]

  /**
   * One dish as the backend returns it. An image that the backend left out
   * (undefined, null or "") is the empty string here: all three are falsy
   * where the controller tests the image.
   */
  datatype MenuItem = MenuItem(id: int, name: string, description: string, image: string)

  /**
   * The outcome of one category read: the decoded item list, or a failure
   * (a non-ok status, a transport failure or a body that is not JSON).
   */
  datatype ReadResult = Loaded(items: seq<MenuItem>) | Failed

  /** The JSON body of a create or update request. */
  datatype Draft = Draft(name: string, description: string, image: string)

  /** A request issued to the backend, with its full URL. */
  datatype Request =
    | Get(url: string)
    | Post(url: string, body: Draft)
    | Put(url: string, body: Draft)
    | Delete(url: string)

  /** No two entries of the sequence are equal. */
  predicate Distinct<T(==)>(s: seq<T>) {
    forall i, j :: 0 <= i < j < |s| ==> s[i] != s[j]
  }

  lemma RegistryDistinct()
    ensures Distinct(Registry)
  {
    assert "dinner"[1] != "drinks"[1];
    assert "dessert"[1] != "drinks"[1];
  }
}
