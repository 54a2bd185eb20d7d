/**
 * The list model behind list boxes and drop-downs, and the two data accessors
 * those widgets share: the items a ListBox or DropDown shows live in a list object
 * that the toolkit widget holds on to, so new items are copied into it rather than
 * replacing it.
 */
module ListModels {
  import opened Wrappers
  import opened BoxMath

  /** GenericListmodel: a Python list of items the toolkit reads through the model interface. */
  class ListModel<T> {
    var items: seq<T>

    constructor (initial: seq<T>)
      ensures items == initial
    {
      items := initial;
    }

    /**
     * getElementAt: the text of the item at the index clamped into [0, len - 1].
     * An empty list has no item at index 0, so the lookup fails.
     */
    function ElementAt(i: int, str: T -> string): (r: Option<string>)
      reads this`items
      ensures r.None? <==> items == []
      ensures i < 0 && items != [] ==> r == Some(str(items[0]))
      ensures i >= |items| && items != [] ==> r == Some(str(items[|items| - 1]))
      ensures 0 <= i < |items| ==> r == Some(str(items[i]))
    {
      var k := Max(0, Min(i, |items| - 1));
      if k < |items| then Some(str(items[k])) else None
    }

    /** clear: pop items off the end until the list is empty. */
    method Clear()
      modifies this`items
      ensures items == []
    {
      while |items| > 0
        invariant items == old(items)[..|items|]
        decreases |items|
      {
        items := items[..|items| - 1];
      }
    }

    /** extend: append the given items. */
    method Extend(more: seq<T>)
      modifies this`items
      ensures items == old(items) + more
    {
      items := items + more;
    }
  }

  /**
   * A ListBox or DropDown, as far as its data is concerned: the list model it was
   * created with and the selected index the toolkit widget reports.
   */
  class ItemWidget<T> {
    const model: ListModel<T>
    var selected: int

    /** The toolkit widget's initial selection is not part of this model, so it is a parameter. */
    constructor (initial: seq<T>, selection: int)
      ensures fresh(model) && model.items == initial && selected == selection
    {
      model := new ListModel(initial);
      selected := selection;
    }

    /**
     * _setItems: the items of another list are copied into the model (clear, then
     * extend); handing the model its own list changes nothing, since clearing it
     * first would lose the items being copied.
     */
    method SetItems(from: ListModel<T>)
      modifies model`items
      ensures model.items == old(from.items)
      ensures from != model ==> from.items == old(from.items)
    {
      if from != model {
        model.Clear();
        model.Extend(from.items);
      }
    }

    /** _getSelectedItem: the selected item when the index lies inside the list, otherwise None. */
    function SelectedItem(): (r: Option<T>)
      reads this`selected, model`items
      ensures r.Some? <==> 0 <= selected < |model.items|
      ensures r.Some? ==> r.value == model.items[selected]
    {
      if 0 <= selected < |model.items| then Some(model.items[selected]) else None
    }
  }
}
