/**
 * Runs of the controller from page load, written as clients of its
 * contracts: what a caller can conclude about the store, the detail lists
 * and the request log from the handlers' specifications alone.
 */
module Scenarios {
  import opened MenuModel
  import opened Paths
  import opened Rendering
  import opened Guards
  import opened Store
  import opened Controller

  /** A page with a detail list for every registry category, on the home view. */
  method NewPage() returns (app: MenuController)
    ensures fresh(app) && fresh(app.store) && app.store.menuData == map[] && app.baseUrl == ApiBaseUrl
    ensures app.details.Keys == set c | c in Registry
    ensures forall c :: c in app.details ==> app.details[c] == []
    ensures app.requests == ReadRequests(ApiBaseUrl) && app.notices == []
    ensures app.target == Unbound
    ensures app.mealName == app.mealDescription == app.mealImage == app.menuName == ""
  {
    app := new MenuController(set c | c in Registry, false, true, false, false, false);
  }

  /** The results of a load in which only breakfast has an item, one without an image. */
  function EggsOnly(): seq<ReadResult> {
    [Loaded([MenuItem(1, "Eggs", "Scrambled", "")]), Loaded([]), Loaded([]), Loaded([]), Loaded([])]
  }

  /** After that load, breakfast shows the item with the default image. */
  method LoadThenShowBreakfast() returns (breakfast: seq<Entry>)
    ensures |breakfast| == 1
    ensures breakfast[0].name == "Eggs" && breakfast[0].imageSrc == DefaultImage && breakfast[0].deleteId == 1
  {
    var app := NewPage();
    assert Registry[0] == "breakfast" && "breakfast" in app.details;
    app.ReceiveMenuData(EggsOnly());
    LoadInstallsRegistry(map[], EggsOnly());
    assert EggsOnly()[0].items == [MenuItem(1, "Eggs", "Scrambled", "")];
    assert app.Stored("breakfast") == [MenuItem(1, "Eggs", "Scrambled", "")];
    app.ShowMenuCategory("breakfast");
    breakfast := app.details["breakfast"];
  }

  /** After that load, lunch shows an empty list rather than an error. */
  method LoadThenShowLunch() returns (lunch: seq<Entry>)
    ensures lunch == []
  {
    var app := NewPage();
    assert Registry[1] == "lunch" && "lunch" in app.details;
    app.ReceiveMenuData(EggsOnly());
    LoadInstallsRegistry(map[], EggsOnly());
    assert EggsOnly()[1].items == [];
    assert app.Stored("lunch") == [];
    app.ShowMenuCategory("lunch");
    lunch := app.details["lunch"];
    assert Renders(lunch, "lunch", []);
  }

  /**
   * A refresh in which one category read fails keeps the previous menu:
   * breakfast still holds the item of the first load, and one error alert
   * is raised.
   */
  method FailedRefreshKeepsMenu() returns (breakfast: seq<MenuItem>, alerts: seq<Notice>)
    ensures breakfast == [MenuItem(1, "Eggs", "Scrambled", "")]
    ensures alerts == [ErrorOccurred]
  {
    var app := NewPage();
    var eggs := MenuItem(1, "Eggs", "Scrambled", "");
    var first := [Loaded([eggs]), Loaded([]), Loaded([]), Loaded([]), Loaded([])];
    app.ReceiveMenuData(first);
    LoadInstallsRegistry(map[], first);
    assert Registry[0] == "breakfast";
    var second := [Loaded([]), Loaded([]), Failed, Loaded([]), Loaded([])];
    assert !AllLoaded(second) by { assert !second[2].Loaded?; }
    app.ReceiveMenuData(second);
    breakfast := app.Stored("breakfast");
    alerts := app.notices;
  }

  /** An add without an image issues no POST and asks for all fields. */
  method AddWithoutImage() returns (issued: seq<Request>, alerts: seq<Notice>)
    ensures issued == [] && alerts == [FillAllFields]
  {
    var app := NewPage();
    app.mealName, app.mealDescription, app.mealImage, app.menuName := "Toast", "Crispy", "", "breakfast";
    app.AddMeal(Resolved);
    issued := app.requests[|ReadRequests(ApiBaseUrl)|..];
    alerts := app.notices;
  }

  /**
   * Editing item 7 of dinner and submitting valid fields PUTs them to
   * /dinner/7, then reloads every category.
   */
  method UpdateDinnerSeven() returns (issued: seq<Request>)
    ensures |issued| == 1 + |Registry|
    ensures issued[0] == Put("http://localhost:3000/dinner/7", Draft("Steak", "Grilled", "steak.jpg"))
    ensures issued[1..] == ReadRequests(ApiBaseUrl)
  {
    var app := NewPage();
    app.EditMeal(MenuItem(7, "Stew", "Slow-cooked", ""), "dinner");
    app.editName, app.editDescription, app.editImage := "Steak", "Grilled", "steak.jpg";
    app.UpdateMeal(Resolved);
    issued := app.requests[|ReadRequests(ApiBaseUrl)|..];
    assert IdText(7) == "7";
  }

  /**
   * A declined delete issues nothing; a confirmed delete whose request
   * fails issues the DELETE, raises the error alert and fires no refresh.
   */
  method DeleteDeclinedThenFailed() returns (afterDecline: seq<Request>, afterFailure: seq<Request>, alerts: seq<Notice>)
    ensures afterDecline == []
    ensures afterFailure == [Delete("http://localhost:3000/lunch/3")]
    ensures alerts == [ErrorOccurred]
  {
    var app := NewPage();
    var n := |app.requests|;
    assert ItemPath(ApiBaseUrl, "lunch", 3) == "http://localhost:3000/lunch/3" by {
      assert IdText(3) == "3";
    }
    app.DeleteMeal("lunch", 3, false, Resolved);
    afterDecline := app.requests[n..];
    app.DeleteMeal("lunch", 3, true, Rejected);
    afterFailure := app.requests[n..];
    alerts := app.notices;
  }

  /**
   * Two edits in a row, then a valid submit: the PUT goes to the item
   * bound by the second edit.
   */
  method UpdateTargetsLatestEdit() returns (put: Request)
    ensures put == Put("http://localhost:3000/drinks/2", Draft("Tea", "Hot", "tea.jpg"))
  {
    var app := NewPage();
    app.EditMeal(MenuItem(9, "Pie", "Apple", "pie.jpg"), "dessert");
    app.EditMeal(MenuItem(2, "Tea", "Hot", "tea.jpg"), "drinks");
    assert ItemPath(ApiBaseUrl, "drinks", 2) == "http://localhost:3000/drinks/2" by {
      assert IdText(2) == "2";
    }
    app.UpdateMeal(Rejected);
    put := app.requests[|ReadRequests(ApiBaseUrl)|];
  }
}
