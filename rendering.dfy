/**
 * What the controller draws, as abstract values: the home view's category
 * buttons (index.js lines 34-45) and the entries of one category's detail
 * list (index.js lines 56-97). Element creation, markup and styling are not
 * modelled; each button and entry keeps the text it shows and the handler
 * arguments its click listeners are bound to.
 */
module Rendering {
  import opened MenuModel

  /** The image shown for an item whose own image is missing. */
  const DefaultImage: string := "default-image.jpg"

  /** Upper-casing of one character, for the ASCII letters. */
  function UpperAscii(c: char): (u: char)
    ensures 'a' <= c <= 'z' ==> 'A' <= u <= 'Z' && u as int == c as int - 32
    ensures !('a' <= c <= 'z') ==> u == c
  {
    if 'a' <= c <= 'z' then (c as int - 32) as char else c
  }

  /**
   * The button text: the first character upper-cased, the rest of the name
   * as it is, then " Menu". For an empty name charAt(0) is "", so only
   * " Menu" remains.
   */
  function ButtonLabel(name: string): (text: string)
    ensures |text| == |name| + 5
    ensures text[|name|..] == " Menu"
    ensures name != [] ==> text[0] == UpperAscii(name[0]) && text[1..|name|] == name[1..]
  {
    if name == [] then " Menu" else [UpperAscii(name[0])] + name[1..] + " Menu"
  }

  /** The id given to a category's button. */
  function ButtonId(name: string): (id: string)
    ensures name <= id && id[|name|..] == "-button"
  {
    name + "-button"
  }

  /** Two categories share a button id only if they are the same category. */
  lemma ButtonIdInjective(a: string, b: string)
    requires ButtonId(a) == ButtonId(b)
    ensures a == b
  {
    assert |a| == |b|;
    assert a == ButtonId(a)[..|a|];
    assert b == ButtonId(b)[..|b|];
  }

  /** A home-view button: its text, its id and the category its click shows. */
  datatype Button = Button(caption: string, id: string, category: string)

  function MenuButton(name: string): Button {
    Button(ButtonLabel(name), ButtonId(name), name)
  }

  /** The button list for a sequence of category names, built by appending in order. */
  method RenderMenuButtons(names: seq<string>) returns (buttons: seq<Button>)
    ensures |buttons| == |names|
    ensures forall i :: 0 <= i < |names| ==> buttons[i] == MenuButton(names[i])
  {
    buttons := [];
    for i := 0 to |names|
      invariant |buttons| == i
      invariant forall j :: 0 <= j < i ==> buttons[j] == MenuButton(names[j])
    {
      buttons := buttons + [MenuButton(names[i])];
    }
  }

  /** The first home button reads "Breakfast Menu". */
  lemma BreakfastLabel()
    ensures ButtonLabel(Registry[0]) == "Breakfast Menu"
  {
    assert UpperAscii('b') == 'B';
    assert "breakfast"[1..] == "reakfast";
    assert ['B'] + "reakfast" + " Menu" == "Breakfast Menu";
  }

  /** No two buttons of the home view share an id. */
  lemma RegistryButtonIdsDistinct()
    ensures forall i, j :: 0 <= i < j < |Registry| ==> MenuButton(Registry[i]).id != MenuButton(Registry[j]).id
  {
    RegistryDistinct();
    forall i, j | 0 <= i < j < |Registry|
      ensures MenuButton(Registry[i]).id != MenuButton(Registry[j]).id
    {
      assert Registry[i] != Registry[j];
    }
  }

  /** The image source of an item: its own image when it has one, else the default. */
  function ImageSource(image: string): (src: string)
    ensures src != ""
    ensures image != "" ==> src == image
    ensures image == "" ==> src == DefaultImage
  {
    if image != "" then image else DefaultImage
  }

  /**
   * One entry of a category's detail list: the image and its alt text, the
   * name and description shown, and the arguments its Edit button passes to
   * the edit handler (the item and the category) and its Delete button
   * passes to the delete handler (the category and the item's id).
   */
  datatype Entry = Entry(imageSrc: string, alt: string, name: string, description: string,
                         editItem: MenuItem, category: string, deleteId: int)

  function ItemEntry(category: string, item: MenuItem): (e: Entry)
    ensures e.imageSrc != "" && (item.image != "" ==> e.imageSrc == item.image)
    ensures e.alt == e.name == item.name && e.description == item.description
    ensures e.editItem == item && e.category == category && e.deleteId == item.id
  {
    Entry(ImageSource(item.image), item.name, item.name, item.description, item, category, item.id)
  }

  /**
   * The entries for one category: one per stored item, in store order, each
   * with the image fallback applied and its buttons bound to that item.
   */
  method RenderItems(category: string, items: seq<MenuItem>) returns (entries: seq<Entry>)
    ensures |entries| == |items|
    ensures forall i :: 0 <= i < |items| ==> entries[i] == ItemEntry(category, items[i])
  {
    entries := [];
    for i := 0 to |items|
      invariant |entries| == i
      invariant forall j :: 0 <= j < i ==> entries[j] == ItemEntry(category, items[j])
    {
      entries := entries + [ItemEntry(category, items[i])];
    }
  }
}
