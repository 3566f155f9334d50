# Restaurant menu controller, modelled in Dafny

This project models the client-side controller of a small restaurant-menu
page (`index.js`). The page shows five fixed menu categories. It loads every
category's items from a REST backend into one in-memory menu store. It shows
a category's items on request. It lets the user add, edit and delete items
through POST, PUT and DELETE requests, and reloads the whole menu after each
mutation that succeeds. A rejected mutation raises an error alert and issues
no reload.

The model has seven modules, one file each:

- `MenuModel` (`menu_model.dfy`): the category registry, the base URL, menu
  items, per-category read results, request values.
- `Paths` (`paths.dfy`): the decimal text of an item id and the request URLs.
  It also has a parser that reads an item URL back into its category and id.
  That parser is the partner the round-trip lemmas are stated against.
- `Rendering` (`rendering.dfy`): the home-view button label and id, the image
  fallback, and the two append loops that build the button list and a
  category's detail list.
- `Guards` (`guards.dfy`): whether the add, update and delete handlers issue a
  request at all, and which one.
- `Store` (`store.dfy`): the menu store as a class, whose `Reconcile` method
  is the completion of the aggregate load. It is specified by a fold,
  `AfterLoad`, and lemmas about that fold give the all-or-nothing and
  positional-write properties.
- `Controller` (`controller.dfy`): the page controller as a class. It has the
  five visibility flags, the detail lists, the two forms, the update
  button's bound target, and logs of issued requests and raised alerts.
  Each handler is a method. Its field-level `modifies` clause names what it
  may change and its `ensures` says what the new values are.
- `Scenarios` (`scenarios.dfy`): runs from page load that use only the
  handlers' contracts.

Asynchrony is cut at the source's promise boundaries:

- A mutating handler takes the settled outcome of its request as an argument
  (`Resolved` or `Rejected`).
- The refresh that a mutation fires only issues the five category reads.
- The reads' results arrive in a separate step, `ReceiveMenuData`.
- `confirm` is a boolean argument. `alert` appends a `Notice` to a log.

In these points the model follows `index.js` as written, which a reader might not expect:

- Create, update and delete count as successful whenever their promise
  chain resolves. Any HTTP status counts, and only the aggregate load checks
  `response.ok`.
- The add form is reachable whenever its button is clicked, not only from
  the home view.
- `goBackToHomePage` does not touch the back button.
- Showing a category clears and refills only that category's list. The other
  lists are cleared only by `goBackToHomePage`.
- A successful add clears the name, description and image fields but keeps
  the chosen category.

## Model

| member | source | states |
|---|---|---|
| `MenuModel.RegistryDistinct` | index.js:2 | the five registry categories are pairwise distinct, so positional writes never collide |
| `Paths.IdText` | index.js:163 | the id's text is non-empty, starts with '-' exactly when the id is negative, and is otherwise decimal digits |
| `Paths.ParseId` | index.js:155 | text that parses as an id is non-empty and holds no '/'; a run of decimal digits parses to its value |
| `Paths.IdTextRoundTrip` | index.js:147-155 | the id written into the update button's dataset as decimal text is read back by parseInt as the same integer, and the text holds no '/' |
| `Paths.CollectionPath` | index.js:8 | a category's collection URL is the base followed by exactly the category text |
| `Paths.ItemPath` | index.js:180 | an item URL extends its category's collection URL with a '/' and at least one more character |
| `Paths.LastSlashOfJoin` | index.js:163 | in `prefix + "/" + tail` with no '/' in the tail, the last '/' is the joining one |
| `Paths.ItemPathRoundTrip` | index.js:163 | an item URL `base + category + "/" + id` parses back to exactly that category and id, for every category text |
| `Paths.ItemPathInjective` | index.js:180 | two items with different categories or ids are never sent to the same URL |
| `Rendering.ButtonLabel` | index.js:39 | the label is the name with its first character upper-cased, the rest unchanged, followed by " Menu"; its length is the name's plus five |
| `Rendering.ButtonId` | index.js:40 | a button id is the category name followed by "-button" |
| `Rendering.ButtonIdInjective` | index.js:40 | the button id `name + "-button"` determines the name |
| `Rendering.RenderMenuButtons` | index.js:37-44 | one button per name, in order, each with its label, id and the category its click shows |
| `Rendering.BreakfastLabel` | index.js:39 | the first home button, for "breakfast", reads "Breakfast Menu" |
| `Rendering.RegistryButtonIdsDistinct` | index.js:37-40 | no two home buttons share an id |
| `Rendering.ImageSource` | index.js:67 | the image source is never empty: the item's image when it has one, else "default-image.jpg" |
| `Rendering.ItemEntry` | index.js:63-92 | an entry shows a non-empty image (the item's own when it has one), the item's name as alt text and heading, its description, and binds Edit to the item and category and Delete to the category and the item's id |
| `Rendering.RenderItems` | index.js:62-93 | one entry per stored item, in store order, with the image fallback, and Edit and Delete bound to that item and category |
| `Guards.UpdatePath` | index.js:154-163 | the update URL starts with the base, and is the bound item's URL whenever an item is bound |
| `Guards.UnboundUpdateNamesNoItem` | index.js:154-163 | with nothing bound the URL is `base + "undefined/NaN"`, which parses back to no item |
| `Guards.AddRequest` | index.js:119-125 | a POST of the draft to `base + category` exactly when name, description, image and category are all non-empty |
| `Guards.UpdateRequest` | index.js:157-167 | a PUT of the three fields exactly when none is empty, to the bound item's URL (`undefined/NaN` when nothing is bound) |
| `Guards.UpdateTargetsBoundItem` | index.js:146-163 | an update issued while an item is bound goes to a URL that parses back to exactly that category and id |
| `Guards.DeleteRequest` | index.js:179-182 | a DELETE exactly when the user confirmed, to `base + category + "/" + id` |
| `Guards.DeleteTargetsItem` | index.js:180 | a confirmed delete goes to a URL that parses back to exactly the given category and id |
| `Store.AfterLoad` | index.js:7-24 | a load in which any read failed leaves the store exactly as it was; a successful one writes result i under registry category i |
| `Store.AssignAt` | index.js:19-21 | writing the values in order under distinct keys leaves each key holding its own value |
| `Store.AssignElsewhere` | index.js:19-21 | a key not in the written list keeps its presence and its value |
| `Store.LoadInstallsRegistry` | index.js:17-21 | after a successful load every registry category has an entry, and the category at registry position i holds result i |
| `Store.LoadCoversRegistry` | index.js:19-21 | a successful load adds exactly the registry categories to the store's key set |
| `Store.LoadKeepsOtherKeys` | index.js:6-24 | keys outside the registry are untouched by any load, successful or failed |
| `Store.MenuStore.constructor` | index.js:3 | the store starts empty |
| `Store.MenuStore.Reconcile` | index.js:7-24 | reports success exactly when every read loaded; on failure the map is unchanged, on success it is the positional write of all results |
| `Controller.ReadRequests` | index.js:7-8 | one GET per registry category, in registry order, each to the base followed by that category |
| `Controller.MessageInjective` | index.js:113-189 | no two notices share an alert text, so the notice log determines what the user was shown |
| `Controller.MenuController.Stored` | index.js:60-61 | the items shown for a category are its stored list, or none when the store has no entry for it |
| `Controller.MenuController.constructor` | index.js:200-201 | page load: empty store, empty detail lists, empty forms, nothing bound, the five category reads issued |
| `Controller.MenuController.FetchMenuData` | index.js:7-8 | issues one GET per registry category, in registry order, and changes nothing else |
| `Controller.MenuController.HandleError` | index.js:28-31 | raises exactly one generic error alert |
| `Controller.MenuController.ReceiveMenuData` | index.js:7-24 | all-or-nothing load: on success the store is rewritten and the home buttons rebuilt; on any failure the store and buttons are unchanged and one error alert is raised |
| `Controller.MenuController.CreateMenuButtons` | index.js:34-45 | the home view holds one button per registry category, in registry order |
| `Controller.MenuController.PopulateMenuCategory` | index.js:56-97 | a category without a detail list changes nothing; otherwise only its list is replaced by the rendering of its stored items, empty when the store has no entry |
| `Controller.MenuController.ShowMenuCategory` | index.js:48-53 | shows the menu container, hides the add button and refills that category's list |
| `Controller.MenuController.GoBackToHomePage` | index.js:100-108 | empties every detail list, hides the menu, add and edit containers, shows the add button; the back button is not touched |
| `Controller.MenuController.ShowAddForm` | index.js:191-195 | shows the add form and the back button and hides the add button |
| `Controller.MenuController.AddMeal` | index.js:113-138 | a request is issued exactly when all four fields are filled; then a resolved POST refreshes, clears the three item fields and confirms, a rejected one alerts and keeps the form; otherwise it asks for all fields |
| `Controller.MenuController.EditMeal` | index.js:140-148 | shows the edit form and back button, pre-fills the three fields from the item, binds the update to the item's category and id |
| `Controller.MenuController.UpdateMeal` | index.js:150-176 | a PUT to the bound item is issued exactly when the three fields are filled; a resolved one refreshes, confirms and hides the edit form and back button, a rejected one alerts and keeps them |
| `Controller.MenuController.DeleteMeal` | index.js:178-189 | a declined confirmation changes nothing; a confirmed delete issues the DELETE, then refreshes and confirms or alerts |
| `Scenarios.LoadThenShowBreakfast` | index.js:56-67 | after a load, a category shows its stored item with the default image when the item has none |
| `Scenarios.LoadThenShowLunch` | index.js:59-61 | a category loaded with no items shows an empty list, not an error |
| `Scenarios.FailedRefreshKeepsMenu` | index.js:7-24 | a refresh with one failed read keeps the previous menu and raises one error alert |
| `Scenarios.AddWithoutImage` | index.js:119-137 | an add with an empty image issues no request and asks for all fields |
| `Scenarios.UpdateDinnerSeven` | index.js:146-170 | editing item 7 of dinner and submitting PUTs to `http://localhost:3000/dinner/7`, then reloads every category |
| `Scenarios.UpdateTargetsLatestEdit` | index.js:146-163 | after two edits, the update goes to the item bound by the most recent one |
| `Scenarios.DeleteDeclinedThenFailed` | index.js:179-187 | a declined delete issues nothing; a failed confirmed delete issues only the DELETE and an error alert, with no refresh |

## Left out

- HTTP, `fetch`, JSON decoding and promise scheduling. Each backend call is an input outcome: a `ReadResult` per category read, a `Completion` per mutation.
- The race between overlapping refreshes. A refresh is fired without being awaited, so the alert and form clearing run before it lands, and two refreshes may land in either order. The model treats a mutation and the landing of its refresh as two separate steps.
- DOM element creation, `innerHTML` markup, CSS classes and event-listener wiring. Buttons and entries are abstract values that keep their text and the handler arguments they are bound to.
- `console` logging. `alert` is an appended `Notice`, and `confirm` is a boolean argument.
- The page markup (`index.html`) is not part of this model. Which categories have a detail list and the initial visibility of each panel are constructor parameters.
- `.catch(handleError)` on the aggregate load also catches exceptions thrown while rebuilding the buttons. Those DOM failures are not modelled.
- A stored category's value is whatever JSON the backend sent. The model takes it to be a list of items.
- `Paths.IdTextRoundTrip`: `parseInt` is modelled only on canonical decimal text (an optional '-' and digits). Its leniency toward other text and non-integer ids is not modelled. Ids are unbounded integers here. A JavaScript number of magnitude 10^21 or more is written in exponent form ("1e+21"), which `parseInt` reads back as 1 and which also changes the DELETE URL. That exponent form is not modelled.
- `Rendering.ButtonLabel`: upper-casing is modelled for ASCII letters only, not the full Unicode case mapping of `toUpperCase`.
- `Controller.MenuController.EditMeal`: an item's missing image (undefined, null or "") is the empty string. The source writes an undefined image into the input as the text "undefined"; the model pre-fills "".
- `Controller.MenuController.UpdateMeal`: before any edit, nothing is bound and the PUT goes to `base + "undefined/NaN"`, as the source's template literal produces. `Guards.UnboundUpdateNamesNoItem` shows that this URL names no item.
