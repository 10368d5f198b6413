/** `Select`: a drop-down list whose items and selected index the object
    keeps, mirrored into a native combo box once one exists.

    The combo box is modelled as its item list and its current selection,
    so that what the object sends to it can be stated.  A linked item list
    is a pointer to a vector the caller owns and may change at any time;
    the model records whether one is linked and takes its contents at the
    moment they are read. */
module Select {
  import opened Wrappers
  import opened Strings

  /** `CB_ERR`, the combo box's "no selection". */
  const NoSelection: int := -1

  /** The native combo box: its items and its current selection. */
  datatype ComboBox = ComboBox(list: seq<String>, cursel: int)

  /** The object's state. */
  datatype Select = Select(
    text: String,
    items: seq<String>,
    selected: int,
    linked: bool,
    combo: Option<ComboBox>)

  /** `i` is an index into `items`, or no selection. */
  predicate SelectionOk(items: seq<String>, i: int) {
    i == NoSelection || 0 <= i < |items|
  }

  /** The selected index always names an item or nothing, and an existing
      combo box lists exactly the object's items with a selection that
      names one of them or nothing. */
  predicate Valid(s: Select) {
    && SelectionOk(s.items, s.selected)
    && (s.combo.Some? ==> s.combo.value.list == s.items && SelectionOk(s.items, s.combo.value.cursel))
  }

  /** The constructor: the given text, no items, no selection. */
  function NewSelect(text: String): (r: Select)
    ensures Valid(r) && r.text == text && r.items == [] && r.selected == NoSelection
    ensures !r.linked && r.combo.None?
  {
    Select(text, [], NoSelection, false, None)
  }

  /** `addItem`: one item at the end, in the combo box too; the selection
      stays. */
  function AddItem(s: Select, item: String): (r: Select)
    ensures r.items == s.items + [item] && r.selected == s.selected && r.text == s.text
    ensures r.linked == s.linked && r.combo.Some? == s.combo.Some?
    ensures s.combo.Some? ==> r.combo.value == ComboBox(s.combo.value.list + [item], s.combo.value.cursel)
    ensures Valid(s) ==> Valid(r)
  {
    var combo := match s.combo
      case None => None
      case Some(c) => Some(ComboBox(c.list + [item], c.cursel));
    s.(items := s.items + [item], combo := combo)
  }

  /** `setText`. */
  function SetText(s: Select, text: String): (r: Select)
    ensures r == s.(text := text)
  {
    s.(text := text)
  }

  /** `clear`: no items and no selection, in the combo box too; the text
      stays. */
  function Clear(s: Select): (r: Select)
    ensures r.items == [] && r.selected == NoSelection && r.text == s.text && r.linked == s.linked
    ensures r.combo.Some? == s.combo.Some?
    ensures r.combo.Some? ==> r.combo.value == ComboBox([], NoSelection)
    ensures Valid(r)
  {
    var combo := if s.combo.Some? then Some(ComboBox([], NoSelection)) else None;
    s.(items := [], selected := NoSelection, combo := combo)
  }

  /** `updateItems`, reading the linked vector's current contents.  Without
      a link nothing happens.  With one, the items become a copy of it and
      the first item, if any, is selected and shown as the text. */
  function UpdateItems(s: Select, current: seq<String>): (r: Select)
    ensures !s.linked ==> r == s
    ensures s.linked ==> r.items == current && r.linked && r.combo.Some? == s.combo.Some?
    ensures s.linked && current != [] ==> r.selected == 0 && r.text == current[0]
    ensures s.linked && current == [] ==> r.selected == NoSelection && r.text == []
    ensures s.linked && s.combo.Some? ==> r.combo.value == ComboBox(current, r.selected)
    ensures Valid(s) ==> Valid(r)
  {
    if !s.linked then s
    else
      var sel := if current != [] then 0 else NoSelection;
      var text := if current != [] then current[0] else [];
      var combo := if s.combo.Some? then Some(ComboBox(current, sel)) else None;
      Select(text, current, sel, true, combo)
  }

  /** Updating again from the same contents changes nothing. */
  lemma UpdateItemsIdempotent(s: Select, current: seq<String>)
    ensures UpdateItems(UpdateItems(s, current), current) == UpdateItems(s, current)
  {
  }

  /** A linked list replaces the items outright: clearing or adding items
      beforehand makes no difference. */
  lemma UpdateItemsForgetsHistory(s: Select, item: String, current: seq<String>)
    requires s.linked
    ensures UpdateItems(Clear(s), current) == UpdateItems(s, current)
    ensures UpdateItems(AddItem(s, item), current) == UpdateItems(s, current)
  {
  }

  /** `link`: records whether a vector is linked (`None` is the null
      pointer) and, when both it and the combo box exist, updates from it. */
  function Link(s: Select, items: Option<seq<String>>): (r: Select)
    ensures r.linked == items.Some?
    ensures items.Some? && s.combo.Some? ==> r == UpdateItems(s.(linked := true), items.value)
    ensures items.None? || s.combo.None? ==> r == s.(linked := items.Some?)
    ensures Valid(s) ==> Valid(r)
  {
    var l := s.(linked := items.Some?);
    if items.Some? && s.combo.Some? then UpdateItems(l, items.value) else l
  }

  /** `create`.  The window handle is stored before it is checked, so when
      the window cannot be created (`created` false) the object is left
      without a combo box, even one it had before.  Otherwise the combo box receives
      the items and the stored selection when that is an item index, and
      a linked vector (its `current` contents) then replaces the items. */
  function Create(s: Select, created: bool, current: seq<String>): (r: Select)
    ensures !created ==> r == s.(combo := None)
    ensures created && !s.linked ==>
      && r == s.(combo := r.combo)
      && r.combo == Some(ComboBox(s.items, if 0 <= s.selected < |s.items| then s.selected else NoSelection))
    ensures created && s.linked ==> r == UpdateItems(s.(combo := Some(ComboBox(s.items, NoSelection))), current)
    ensures Valid(s) ==> Valid(r)
  {
    if !created then s.(combo := None)
    else
      var sel := if 0 <= s.selected < |s.items| then s.selected else NoSelection;
      var shown := s.(combo := Some(ComboBox(s.items, sel)));
      if s.linked then UpdateItems(shown, current) else shown
  }

  /** After a failed `create` the object no longer drives its earlier combo
      box: adding an item changes only the stored items, and the combo box
      comes back only with a later successful `create`. */
  lemma FailedCreateDetaches(s: Select, current: seq<String>, item: String)
    requires Valid(s) && s.combo.Some?
    ensures var f := Create(s, false, current);
      && f.combo.None? && f.items == s.items && f.selected == s.selected
      && AddItem(f, item) == f.(items := s.items + [item])
      && Create(f, true, current).combo.Some?
  {
  }

  /** The user picks item `i` in the open combo box. */
  function UserPicks(s: Select, i: nat): (r: Select)
    requires s.combo.Some? && i < |s.combo.value.list|
    ensures r == s.(combo := Some(s.combo.value.(cursel := i)))
  {
    s.(combo := Some(s.combo.value.(cursel := i)))
  }

  /** `handleSelection`, run on the combo box's change notification: with a
      selection, the object takes its index and its item as the text and
      reports a change (the `onChange` callback). */
  function HandleSelection(s: Select): (r: (Select, bool))
    requires s.combo.Some? && SelectionOk(s.combo.value.list, s.combo.value.cursel)
    ensures r.1 <==> s.combo.value.cursel != NoSelection
    ensures !r.1 ==> r.0 == s
    ensures r.1 ==> r.0 == s.(selected := s.combo.value.cursel, text := s.combo.value.list[s.combo.value.cursel])
    ensures Valid(s) ==> Valid(r.0)
  {
    var c := s.combo.value;
    if c.cursel == NoSelection then (s, false)
    else (s.(selected := c.cursel, text := c.list[c.cursel]), true)
  }

  /** Picking an item and handling the notification selects exactly that
      item: its index and its text. */
  lemma PickSelects(s: Select, i: nat)
    requires Valid(s) && s.combo.Some? && i < |s.items|
    ensures var r := HandleSelection(UserPicks(s, i));
      r.1 && r.0.selected == i && r.0.text == s.items[i] && r.0.items == s.items
  {
  }

  /** A text set by hand lasts only until the next selection or update
      from a non-empty linked list, both of which show an item instead. */
  lemma SetTextOverridden(s: Select, text: String, i: nat, current: seq<String>)
    requires Valid(s) && s.combo.Some? && i < |s.items|
    ensures SetText(s, text).text == text && SetText(s, text).items == s.items
    ensures HandleSelection(UserPicks(SetText(s, text), i)).0.text == s.items[i]
    ensures s.linked && current != [] ==> UpdateItems(SetText(s, text), current).text == current[0]
  {
  }
}
