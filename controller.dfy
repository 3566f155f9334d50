/**
 * The view controller of index.js: the page's visibility flags, the detail
 * lists, the home-view buttons, the add and edit forms, the target bound to
 * the update button, and the handlers that change them. Requests sent to
 * the backend and alerts shown to the user are appended to two logs.
 *
 * Asynchrony is cut at the source's promise boundaries: a handler takes the
 * outcome of the request it issues as an argument, and the refresh it fires
 * (fetchMenuData) only issues the category reads; their results arrive in a
 * separate step, ReceiveMenuData. Mutating requests are judged by whether
 * their promise chain resolved, not by the response status, as in the
 * source.
 */
module Controller {
  import opened MenuModel
  import opened Paths
  import opened Rendering
  import opened Guards
  import opened Store

  /** The alerts the controller raises. */
  datatype Notice = FillAllFields | MealAdded | MealUpdated | MealDeleted | ErrorOccurred

  function Message(n: Notice): string {
    match n
    case FillAllFields => "Please fill in all fields."
    case MealAdded => "Meal added successfully!"
    case MealUpdated => "Meal updated successfully!"
    case MealDeleted => "Meal deleted successfully!"
    case ErrorOccurred => "An error occurred. Please try again later."
  }

  /** Each alert text belongs to one notice, so the log determines what the user was shown. */
  lemma MessageInjective(a: Notice, b: Notice)
    requires Message(a) == Message(b)
    ensures a == b
  {
  }

  /** How a mutating request's promise chain settled. */
  datatype Completion = Resolved | Rejected

  /** The reads one aggregate load issues: one GET per category, in registry order. */
  function ReadRequests(base: string): (gets: seq<Request>)
    ensures |gets| == |Registry|
    ensures forall i :: 0 <= i < |gets| ==> gets[i].Get? && base <= gets[i].url && gets[i].url[|base|..] == Registry[i]
  {
    seq(|Registry|, i requires 0 <= i < |Registry| => Get(CollectionPath(base, Registry[i])))
  }

  /** A detail list shows exactly the entries for the given items, in order. */
  predicate Renders(entries: seq<Entry>, category: string, items: seq<MenuItem>) {
    && |entries| == |items|
    && forall i :: 0 <= i < |items| ==> entries[i] == ItemEntry(category, items[i])
  }

  class MenuController {
    const store: MenuStore
    /** The backend every request goes to. */
    const baseUrl: string

    var requests: seq<Request>
    var notices: seq<Notice>

    /** The home view's buttons. */
    var menuButtons: seq<Button>
    /** The detail list of each category that has one on the page. */
    var details: map<string, seq<Entry>>

    var menuContainerShown: bool
    var addItemButtonShown: bool
    var addItemContainerShown: bool
    var editItemContainerShown: bool
    var backButtonShown: bool

    /** The add form's inputs. */
    var mealName: string
    var mealDescription: string
    var mealImage: string
    var menuName: string

    /** The edit form's inputs. */
    var editName: string
    var editDescription: string
    var editImage: string

    /** The update button's dataset. */
    var target: EditTarget

    /**
     * Page load: an empty store, the page's detail lists empty, visibility
     * as the page starts, empty forms, nothing bound, and the initial
     * aggregate load issued.
     */
    constructor (panels: set<string>, menuShown: bool, addButtonShown: bool,
                 addFormShown: bool, editFormShown: bool, backShown: bool)
      ensures fresh(store) && store.menuData == map[] && baseUrl == ApiBaseUrl
      ensures notices == [] && menuButtons == [] && requests == ReadRequests(ApiBaseUrl)
      ensures details.Keys == panels && forall c :: c in details ==> details[c] == []
      ensures menuContainerShown == menuShown && addItemButtonShown == addButtonShown
      ensures addItemContainerShown == addFormShown && editItemContainerShown == editFormShown
      ensures backButtonShown == backShown
      ensures mealName == mealDescription == mealImage == menuName == ""
      ensures editName == editDescription == editImage == ""
      ensures target == Unbound
    {
      store := new MenuStore();
      baseUrl := ApiBaseUrl;
      requests := ReadRequests(ApiBaseUrl);
      notices := [];
      menuButtons := [];
      details := map c | c in panels :: [];
      menuContainerShown, addItemButtonShown := menuShown, addButtonShown;
      addItemContainerShown, editItemContainerShown := addFormShown, editFormShown;
      backButtonShown := backShown;
      mealName, mealDescription, mealImage, menuName := "", "", "", "";
      editName, editDescription, editImage := "", "", "";
      target := Unbound;
    }

    /** The items the store holds for a category; none when it has no entry. */
    function Stored(category: string): (items: seq<MenuItem>)
      reads store
      ensures category in store.menuData ==> items == store.menuData[category]
      ensures category !in store.menuData ==> items == []
    {
      if category in store.menuData then store.menuData[category] else []
    }

    /** fetchMenuData: issue one read per registry category. */
    method FetchMenuData()
      modifies this`requests
      ensures requests == old(requests) + ReadRequests(baseUrl)
    {
      requests := requests + ReadRequests(baseUrl);
    }

    /** handleError: one generic error alert. */
    method HandleError()
      modifies this`notices
      ensures notices == old(notices) + [ErrorOccurred]
    {
      notices := notices + [ErrorOccurred];
    }

    /**
     * The completion of fetchMenuData: if every read succeeded the store is
     * rewritten and the home buttons rebuilt; otherwise the store and the
     * buttons stay as they were and one error alert is raised.
     */
    method ReceiveMenuData(results: seq<ReadResult>)
      requires |results| == |Registry|
      modifies store, this`menuButtons, this`notices
      ensures store.menuData == AfterLoad(old(store.menuData), results)
      ensures !AllLoaded(results) ==> store.menuData == old(store.menuData)
      ensures AllLoaded(results) ==>
        && |menuButtons| == |Registry|
        && (forall i {:trigger menuButtons[i]} :: 0 <= i < |Registry| ==> menuButtons[i] == MenuButton(Registry[i]))
        && notices == old(notices)
      ensures !AllLoaded(results) ==> menuButtons == old(menuButtons) && notices == old(notices) + [ErrorOccurred]
    {
      var ok := store.Reconcile(results);
      if ok {
        CreateMenuButtons();
      } else {
        HandleError();
      }
    }

    /** createMenuButtons: the home view lists one button per registry category, in order. */
    method CreateMenuButtons()
      modifies this`menuButtons
      ensures |menuButtons| == |Registry|
      ensures forall i {:trigger menuButtons[i]} :: 0 <= i < |Registry| ==> menuButtons[i] == MenuButton(Registry[i])
    {
      menuButtons := RenderMenuButtons(Registry);
    }

    /**
     * populateMenuCategory: a category without a detail list on the page
     * changes nothing; otherwise its list is replaced by one entry per
     * stored item, and an absent category yields an empty list.
     */
    method PopulateMenuCategory(category: string)
      modifies this`details
      ensures category !in old(details) ==> details == old(details)
      ensures category in old(details) ==>
        && category in details
        && details == old(details)[category := details[category]]
        && Renders(details[category], category, Stored(category))
    {
      if category in details {
        var entries := RenderItems(category, Stored(category));
        details := details[category := entries];
      }
    }

    /** showMenuCategory: show the menu container with the category's items and hide the add button. */
    method ShowMenuCategory(category: string)
      modifies this`menuContainerShown, this`addItemButtonShown, this`details
      ensures menuContainerShown && !addItemButtonShown
      ensures category !in old(details) ==> details == old(details)
      ensures category in old(details) ==>
        && category in details
        && details == old(details)[category := details[category]]
        && Renders(details[category], category, Stored(category))
    {
      menuContainerShown := true;
      PopulateMenuCategory(category);
      addItemButtonShown := false;
    }

    /**
     * goBackToHomePage: empty every detail list, hide the menu, add and
     * edit containers and show the add button; the back button is left as
     * it was.
     */
    method GoBackToHomePage()
      modifies this`details, this`menuContainerShown, this`addItemButtonShown
      modifies this`addItemContainerShown, this`editItemContainerShown
      ensures details.Keys == old(details).Keys
      ensures forall c :: c in details ==> details[c] == []
      ensures !menuContainerShown && addItemButtonShown
      ensures !addItemContainerShown && !editItemContainerShown
    {
      details := map c | c in details :: [];
      menuContainerShown := false;
      addItemButtonShown := true;
      addItemContainerShown := false;
      editItemContainerShown := false;
    }

    /** The add button's click handler: show the add form and the back button, hide the add button. */
    method ShowAddForm()
      modifies this`addItemContainerShown, this`addItemButtonShown, this`backButtonShown
      ensures addItemContainerShown && !addItemButtonShown && backButtonShown
    {
      addItemContainerShown := true;
      addItemButtonShown := false;
      backButtonShown := true;
    }

    /**
     * addMeal: with all four fields filled in, POST the draft to the chosen
     * category; when that settles successfully, refresh, clear the three
     * item fields (the category stays chosen) and confirm; when it fails,
     * raise the error alert and keep the form. With a field missing, ask
     * for all fields and issue nothing.
     */
    method AddMeal(response: Completion)
      modifies this`requests, this`notices, this`mealName, this`mealDescription, this`mealImage
      ensures |requests| > |old(requests)| <==>
        old(mealName) != "" && old(mealDescription) != "" && old(mealImage) != "" && old(menuName) != ""
      ensures
        var req := AddRequest(baseUrl, old(mealName), old(mealDescription), old(mealImage), old(menuName));
        match req
        case None =>
          && requests == old(requests)
          && notices == old(notices) + [FillAllFields]
          && mealName == old(mealName) && mealDescription == old(mealDescription) && mealImage == old(mealImage)
        case Some(post) =>
          if response.Resolved? then
            && requests == old(requests) + [post] + ReadRequests(baseUrl)
            && notices == old(notices) + [MealAdded]
            && mealName == mealDescription == mealImage == ""
          else
            && requests == old(requests) + [post]
            && notices == old(notices) + [ErrorOccurred]
            && mealName == old(mealName) && mealDescription == old(mealDescription) && mealImage == old(mealImage)
    {
      var req := AddRequest(baseUrl, mealName, mealDescription, mealImage, menuName);
      match req
      case None =>
        notices := notices + [FillAllFields];
      case Some(post) =>
        requests := requests + [post];
        if response.Resolved? {
          FetchMenuData();
          mealName, mealDescription, mealImage := "", "", "";
          notices := notices + [MealAdded];
        } else {
          HandleError();
        }
    }

    /**
     * editMeal: show the edit form and the back button, fill the form from
     * the item and bind the update button to the item's category and id.
     */
    method EditMeal(meal: MenuItem, category: string)
      modifies this`editItemContainerShown, this`backButtonShown
      modifies this`editName, this`editDescription, this`editImage, this`target
      ensures editItemContainerShown && backButtonShown
      ensures editName == meal.name && editDescription == meal.description && editImage == meal.image
      ensures target == Bound(category, meal.id)
    {
      editItemContainerShown := true;
      backButtonShown := true;
      editName, editDescription, editImage := meal.name, meal.description, meal.image;
      target := Bound(category, meal.id);
    }

    /**
     * updateMeal: with the three edit fields filled in, PUT them to the
     * bound item; when that settles successfully, refresh, confirm and hide
     * the edit form and the back button; when it fails, raise the error
     * alert and keep the form open. With a field missing, ask for all
     * fields and issue nothing.
     */
    method UpdateMeal(response: Completion)
      modifies this`requests, this`notices, this`editItemContainerShown, this`backButtonShown
      ensures |requests| > |old(requests)| <==> editName != "" && editDescription != "" && editImage != ""
      ensures
        var req := UpdateRequest(baseUrl, editName, editDescription, editImage, target);
        match req
        case None =>
          && requests == old(requests)
          && notices == old(notices) + [FillAllFields]
          && editItemContainerShown == old(editItemContainerShown) && backButtonShown == old(backButtonShown)
        case Some(put) =>
          if response.Resolved? then
            && requests == old(requests) + [put] + ReadRequests(baseUrl)
            && notices == old(notices) + [MealUpdated]
            && !editItemContainerShown && !backButtonShown
          else
            && requests == old(requests) + [put]
            && notices == old(notices) + [ErrorOccurred]
            && editItemContainerShown == old(editItemContainerShown) && backButtonShown == old(backButtonShown)
    {
      var req := UpdateRequest(baseUrl, editName, editDescription, editImage, target);
      match req
      case None =>
        notices := notices + [FillAllFields];
      case Some(put) =>
        requests := requests + [put];
        if response.Resolved? {
          FetchMenuData();
          assert requests == old(requests) + [put] + ReadRequests(baseUrl);
          notices := notices + [MealUpdated];
          editItemContainerShown := false;
          backButtonShown := false;
        } else {
          HandleError();
        }
    }

    /**
     * deleteMeal: when the user confirms, DELETE the item; when that
     * settles, refresh and confirm, and when it fails raise the error
     * alert. When the user declines, nothing happens at all.
     */
    method DeleteMeal(category: string, id: int, confirmed: bool, response: Completion)
      modifies this`requests, this`notices
      ensures !confirmed ==> requests == old(requests) && notices == old(notices)
      ensures
        var req := DeleteRequest(baseUrl, confirmed, category, id);
        match req
        case None => true
        case Some(del) =>
          if response.Resolved? then
            && requests == old(requests) + [del] + ReadRequests(baseUrl)
            && notices == old(notices) + [MealDeleted]
          else
            && requests == old(requests) + [del]
            && notices == old(notices) + [ErrorOccurred]
    {
      var req := DeleteRequest(baseUrl, confirmed, category, id);
      match req
      case None =>
      case Some(del) =>
        requests := requests + [del];
        if response.Resolved? {
          FetchMenuData();
          notices := notices + [MealDeleted];
        } else {
          HandleError();
        }
    }
  }
}
