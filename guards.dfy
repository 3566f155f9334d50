/**
 * The decisions that come before every mutating request: whether the
 * handler issues a request at all, and which one. Form fields are the input
 * elements' string values; a string is truthy in the source exactly when it
 * is non-empty, so a presence check is a non-emptiness check.
 */
module Guards {
  import opened MenuModel
  import opened Paths

  /**
   * The category and id that the update button carries in its dataset.
   * Before any edit handler ran nothing is bound; the update URL is then
   * built from `undefined` and `parseInt(undefined, 10)`, which is NaN.
   */
  datatype EditTarget = Unbound | Bound(category: string, id: int)

  /** The URL an update for the given target goes to. */
  function UpdatePath(base: string, target: EditTarget): (url: string)
    ensures base <= url
    ensures target.Bound? ==> url == ItemPath(base, target.category, target.id)
  {
    match target
    case Bound(c, id) => ItemPath(base, c, id)
    case Unbound => base + "undefined/NaN"
  }

  /** With nothing bound, the update URL names no item: its last segment is not a number. */
  lemma UnboundUpdateNamesNoItem(base: string)
    ensures SplitItemPath(base, UpdatePath(base, Unbound)) == None
  {
    var rest := UpdatePath(base, Unbound)[|base|..];
    assert rest == "undefined/NaN";
    LastSlashOfJoin("undefined", "NaN");
    assert rest == "undefined" + "/" + "NaN";
    assert rest[10..] == "NaN";
  }

  /**
   * The add handler: a POST of the draft to the chosen category's
   * collection, issued exactly when all four fields are filled in.
   */
  function AddRequest(base: string, name: string, description: string, image: string, category: string)
    : (r: Option<Request>)
    ensures r.Some? <==> name != "" && description != "" && image != "" && category != ""
    ensures r.Some? ==> r.value.Post? && r.value.body == Draft(name, description, image)
    ensures r.Some? ==> r.value.url == CollectionPath(base, category) && base <= r.value.url
  {
    if name != "" && description != "" && image != "" && category != "" then
      Some(Post(CollectionPath(base, category), Draft(name, description, image)))
    else None
  }

  /**
   * The update handler: a PUT of the three edited fields to the bound item,
   * issued exactly when none of the three is empty.
   */
  function UpdateRequest(base: string, name: string, description: string, image: string, target: EditTarget)
    : (r: Option<Request>)
    ensures r.Some? <==> name != "" && description != "" && image != ""
    ensures r.Some? ==> r.value.Put? && r.value.body == Draft(name, description, image)
    ensures r.Some? ==> r.value.url == UpdatePath(base, target)
  {
    if name == "" || description == "" || image == "" then None
    else Some(Put(UpdatePath(base, target), Draft(name, description, image)))
  }

  /** An update issued while an item is bound goes to a URL naming that item and no other. */
  lemma UpdateTargetsBoundItem(base: string, name: string, description: string, image: string, target: EditTarget)
    requires target.Bound? && UpdateRequest(base, name, description, image, target).Some?
    ensures SplitItemPath(base, UpdateRequest(base, name, description, image, target).value.url)
         == Some((target.category, target.id))
  {
    ItemPathRoundTrip(base, target.category, target.id);
  }

  /**
   * The delete handler: a DELETE of the given item, issued exactly when the
   * user confirmed.
   */
  function DeleteRequest(base: string, confirmed: bool, category: string, id: int): (r: Option<Request>)
    ensures r.Some? <==> confirmed
    ensures r.Some? ==> r.value.Delete? && r.value.url == ItemPath(base, category, id)
  {
    if confirmed then Some(Delete(ItemPath(base, category, id))) else None
  }

  /** A confirmed delete goes to a URL naming the given category and id and no other. */
  lemma DeleteTargetsItem(base: string, category: string, id: int)
    ensures SplitItemPath(base, DeleteRequest(base, true, category, id).value.url) == Some((category, id))
  {
    ItemPathRoundTrip(base, category, id);
  }
}
