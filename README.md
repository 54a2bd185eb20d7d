# A model of the pychan box layout engine, the metamodel registry and the base event

This project models three parts of the FIFE game engine in Dafny and proves properties of them.

- **pychan** (`engine/extensions/pychan.py`) is the Python GUI layer. It wraps native
  toolkit widgets in Python objects. The model covers:
  - the two-pass box layout: `resizeToContent` shrinks every VBox, HBox and Window to
    its children and gives every leaf its content size, and `expandContent` spreads the
    children around a Spacer, both applied to the containment tree in post-order. A box
    stretches its children along one axis (a VBox their widths, an HBox their heights);
    along the other axis every widget keeps the size its own `resizeToContent` gave it,
    and the box's child area spans the largest of those sizes across (a bare container
    child, whose size before the stretch is not kept, only bounds it);
  - the clamping size setters and the title-bar offset of a Window;
  - `show`/`hide`, tree traversal (`match`, `findChildren`, `findChild`, `mapEvents`)
    and data transport (`setData`, `getData`, `distributeData`, `collectData`);
  - the list model of ListBox and DropDown;
  - text munging and the XML attribute parsers;
  - background tiling of a container.
- **MetaModel** (`engine/core/model/metamodel/metamodel.cpp`) is a registry of datasets
  with unique identifiers, plus the queries that flatten the registered and nested datasets.
- **Event** (`engine/eventchannel/base/ec_event.h`) is the base event: a one-way consumed
  flag, a source and a timestamp.

Modules and files:

| file | module | what |
|---|---|---|
| `wrappers.dfy` | `Wrappers` | `Option`, `Result`, `Outcome` |
| `box_math.dfy` | `BoxMath` | clamping, maxima, cursor positions, the spacer split, alignment offsets |
| `widgets.dfy` | `Widgets` | the widget tree as classes: a `Widget` wrapper per Python widget, a `NativeWidget` per `real_widget` |
| `list_model.dfy` | `ListModels` | `GenericListmodel` and the item/selection accessors of ListBox and DropDown |
| `gui_text.dfy` | `GuiText` | `_mungeText`, `str.split`, Python 2 `int()`, `_toIntList`, `_parseAttr` |
| `tiling.dfy` | `Tiling` | `_resetTiling` |
| `metamodel.dfy` | `MetaModels` | `MetaModel` and its queries |
| `event.dfy` | `Events` | `Event` |

Modelling choices:

- **Geometry.** A widget's geometry lives on its `NativeWidget`: `x`, `y`, `width`,
  `height`, `borderSize`, `titleBarHeight`, the data slot, and the box's `childarea`,
  which only the layout writes. The layout methods therefore modify native records only,
  and their frames are the native records of the subtree.
- **Leaf sizes.** A leaf's content size comes from fonts and text metrics. It is the
  parameter `intrinsic: Widget -> (int, int)`.
- **Tree invariant.** `Valid()` keeps the tree's footprint: every subtree owns disjoint
  wrapper and native objects.
- **Visiting order.** The order `_deepApply` visits is `PostOrder()`: each child's
  subtree in turn, then the widget itself.
- **Python dicts.** The dictionaries that `mapEvents` and `distributeData` iterate
  become sequences, in whatever iteration order the caller's dict has.
- **The metamodel.** The `Dataset` class body is not part of this model. Its nested
  queries (`getDatasets()`, `get(field)`, `getDatasets(field, value)`,
  `getObjects(field, value)`) are function parameters of the registry's queries.
- **Event timestamp.** The initial timestamp comes from the clock. The clock's 32-bit
  tick count is a constructor parameter, converted to the C++ `int` field.

Two details of the code that the model keeps as written:

- **Clamping order.** The clamp is `min(max_size, max(min_size, v))`, as at
  pychan.py:548-557. When `min_size > max_size`, `max_size` wins (`BoxMath.Clamp`).
- **An empty VBox.** It gets height `2*margin + border - padding`, because the code
  always subtracts one padding after the loop (pychan.py:776-792).

## Model

| member | source | states |
|---|---|---|
| `BoxMath.Clamp` | engine/extensions/pychan.py:548-551 | The stored size never exceeds max_size. It is at least min_size when the bounds are ordered. It equals the request inside the bounds. max_size wins when the bounds cross. |
| `BoxMath.MaxOf` | engine/extensions/pychan.py:625-631 | Bounds every element, is attained by one, and is 0 for no children. |
| `BoxMath.SliceIndex` | engine/extensions/pychan.py:749-754 | The split point of `children[:k]`/`children[k:]`, Python slicing included: negative and overlong indices are handled. |
| `BoxMath.AlignedStart` | engine/extensions/pychan.py:736-740 | A trailing alignment starts at size - childarea - border - margin. Any other alignment starts at half of that, rounded down. |
| `BoxMath.SumSplit` | engine/extensions/pychan.py:753 | The deltas' sum splits at the spacer index into the parts before and after it. |
| `BoxMath.SumPadded` | engine/extensions/pychan.py:784 | n children step the cursor by the sum of their extents plus n paddings. |
| `BoxMath.PositionsAt` | engine/extensions/pychan.py:780-784 | Child i starts at the start plus the deltas of the children before it. |
| `BoxMath.PositionsStep` | engine/extensions/pychan.py:784 | Consecutive children are exactly one delta apart. |
| `BoxMath.PositionsEnds` | engine/extensions/pychan.py:780-784 | The first child is at the start. The cursor after the last child is the start plus all deltas. |
| `BoxMath.SpacerKeepsLeading` | engine/extensions/pychan.py:759-764 | Children before the spacer index are packed from border plus margin, as in the first pass. |
| `BoxMath.SpacerTrailing` | engine/extensions/pychan.py:766-769 | A child at or after the spacer index starts at size - lead - the sum of its own and later deltas. |
| `BoxMath.SpacerEndsAtTrailingEdge` | engine/extensions/pychan.py:766-769 | After expansion, the last child's cursor ends exactly at size - border - margin. |
| `BoxMath.SpacerGroupsDisjoint` | engine/extensions/pychan.py:758-769 | The leading group ends no later than the trailing group starts exactly when size >= sum of deltas + 2*(border+margin). |
| `BoxMath.SpacerOnExactFit` | engine/extensions/pychan.py:758-769 | In a box exactly as large as the first pass made it, the leading children stay put and the trailing ones move back by one border width. |
| `BoxMath.SpacerAtEnd` | engine/extensions/pychan.py:758-769 | A spacer after all children leaves the packing of the first pass. |
| `BoxMath.PositionsSnoc` | engine/extensions/pychan.py:762-764 | One more loop step appends one position and advances the cursor by one delta. |
| `BoxMath.SumZeros` | engine/extensions/pychan.py:717-718 | Cross-axis deltas, all 0, sum to 0. |
| `BoxMath.PositionsOfZeros` | engine/extensions/pychan.py:717-718 | On the cross axis every child gets the same coordinate. |
| `Widgets.Widget.constructor` | engine/extensions/pychan.py:317-326 | The bounds are stored before the size, so the initial size is clamped. The widget has no children and no spacer, is hidden, and its name is its "name" attribute. |
| `Widgets.Widget.SetX` | engine/extensions/pychan.py:543 | The native x becomes the value. |
| `Widgets.Widget.SetY` | engine/extensions/pychan.py:545 | The native y becomes the value. |
| `Widgets.Widget.SetWidth` | engine/extensions/pychan.py:548-551 | The width reads back as Clamp(w, min_size[0], max_size[0]). |
| `Widgets.Widget.Height` | engine/extensions/pychan.py:868 | The perceived height: a window's native height less its title bar height, any other widget's native height. |
| `Widgets.Widget.SetHeight` | engine/extensions/pychan.py:864-868 | For a Window, the native height is the clamped height plus the title bar, and the height reads back as the clamped value. Other widgets store the clamped value. |
| `Widgets.Widget.Add` | engine/extensions/pychan.py:620-623 | The widget is appended to the children, the subtree's footprint grows by the child's, the spacer is kept, and the tree stays valid. |
| `Widgets.Widget.AddSpacerAsWritten` | engine/extensions/pychan.py:711-715 | As written, a second spacer fails on the undefined name `RuntimeException`, not with the wrapper's own error, and changes nothing. |
| `Widgets.Widget.AddSpacer` | engine/extensions/pychan.py:711-715 | A second spacer fails, leaving the existing spacer and its index unchanged. Otherwise the spacer is stored with index = number of children at call time. |
| `Widgets.Widget.MaxChildrenWidth` | engine/extensions/pychan.py:625-627 | The widest child's width (bounds all, attained by one), or 0 without children. |
| `Widgets.Widget.MaxChildrenHeight` | engine/extensions/pychan.py:629-631 | The tallest child's height (bounds all, attained by one), or 0 without children. |
| `Widgets.Widget.XDeltas` | engine/extensions/pychan.py:832 | One xdelta per child. |
| `Widgets.Widget.YDeltas` | engine/extensions/pychan.py:801 | One ydelta per child. |
| `Widgets.Widget.PlaceXs` | engine/extensions/pychan.py:741-743 | The children in the range get x = start, start + delta0, ... in turn. The other children keep their x. |
| `Widgets.Widget.PlaceYs` | engine/extensions/pychan.py:727-729 | The children in the range get y = start, start + delta0, ... in turn. The other children keep their y. |
| `Widgets.Widget.AdjustWidth` | engine/extensions/pychan.py:734-743 | A non-left alignment restarts the x coordinates at the right or centre offset and steps them by the xdeltas. Packed children end up aligned under either alignment. |
| `Widgets.Widget.AdjustHeight` | engine/extensions/pychan.py:720-729 | A non-top alignment restarts the y coordinates at the bottom or centre offset and steps them by the ydeltas. Packed children end up aligned under either alignment. |
| `Widgets.Widget.AlignChildren` | engine/extensions/pychan.py:794-795 | After `_adjustHeight` and `_adjustWidth`, both axes start at the aligned offsets. |
| `Widgets.Widget.StackChildren` | engine/extensions/pychan.py:780-784 | Every child gets x = margin+border, y at its cursor position, and width = the clamped max width. The cursor ends at start + sum of ydeltas. |
| `Widgets.Widget.RowChildren` | engine/extensions/pychan.py:811-815 | Every child gets y = margin+border, x at its cursor position, and height = the clamped max height. The cursor ends at start + sum of xdeltas. |
| `Widgets.Widget.SizeVertical` | engine/extensions/pychan.py:790-792 | height = clamp(y + margin - padding), width = clamp(max_w + 2x), childarea = (max_w, y - padding - margin). |
| `Widgets.Widget.SizeHorizontal` | engine/extensions/pychan.py:821-823 | width = clamp(x + margin - padding), height = clamp(max_h + 2y), childarea = (x - margin - padding, max_h). |
| `Widgets.Widget.PackVertical` | engine/extensions/pychan.py:776-792 | The VBox and Window sizing law, in terms of the children's heights, padding, spacer, margins and border. The children are packed from the leading corner and stretched to the child area's width. |
| `Widgets.Widget.VerticalPackedFrom` | engine/extensions/pychan.py:776-792 | The values the loop leaves satisfy the vertical sizing law and the packing. |
| `Widgets.Widget.PackHorizontal` | engine/extensions/pychan.py:807-823 | The HBox sizing law, with the axes swapped. |
| `Widgets.Widget.HorizontalPackedFrom` | engine/extensions/pychan.py:807-823 | The values the loop leaves satisfy the horizontal sizing law and the packing. |
| `Widgets.Widget.ResizeVertical` | engine/extensions/pychan.py:776-795 | VBox/Window resizeToContent: sized by the law, children aligned, and the child area as wide as the widest child was. |
| `Widgets.Widget.ResizeHorizontal` | engine/extensions/pychan.py:807-826 | HBox resizeToContent: sized by the law, children aligned, and the child area as tall as the tallest child was. |
| `Widgets.Widget.ResizeVerticalSized` | engine/extensions/pychan.py:776-792 | The VBox/Window resize leaves the child area as wide as the widest child was. Children that had their own widths and heights keep their own heights, and the child area fits their own widths (`ChildrenSized`). |
| `Widgets.Widget.ResizeHorizontalSized` | engine/extensions/pychan.py:807-823 | The HBox resize leaves the child area as tall as the tallest child was. Children that had their own sizes keep their own widths, and the child area fits their own heights. |
| `Widgets.Widget.ResizeLeaf` | engine/extensions/pychan.py:889-891 | A leaf takes its content size through the clamping setters. |
| `Widgets.Widget.ExpandHeightSpacer` | engine/extensions/pychan.py:758-769 | Children before the spacer are packed from the top edge (border + margin). The rest are packed against the bottom edge. |
| `Widgets.Widget.YSpacedFrom` | engine/extensions/pychan.py:758-769 | The two placement loops together give the spacer layout. |
| `Widgets.Widget.ExpandWidthSpacer` | engine/extensions/pychan.py:745-756 | Children before the spacer are packed from the left edge. The rest are packed against the right edge. |
| `Widgets.Widget.XSpacedFrom` | engine/extensions/pychan.py:745-756 | The two placement loops together give the spacer layout. |
| `Widgets.Widget.ResizeToContent` | engine/extensions/pychan.py:494-495 | Per kind: a leaf gets its content size, a bare container keeps its own size and child area, and a box is sized and aligned. Run on children that had their own sizes, a box leaves them their own sizes across the axis it stretches and its child area spanning the largest of them (`ChildrenSized`). |
| `Widgets.Widget.ExpandContent` | engine/extensions/pychan.py:797-799 | Aligned children become placed: kept as they are without a spacer, spread around the spacer with one. |
| `Widgets.Widget.ExpandVertical` | engine/extensions/pychan.py:797-799 | A VBox or Window with a spacer spreads its children vertically and keeps the horizontal alignment. |
| `Widgets.Widget.ExpandHorizontal` | engine/extensions/pychan.py:828-830 | An HBox with a spacer spreads its children horizontally and keeps the vertical alignment. |
| `Widgets.Widget.SpacedPlaced` | engine/extensions/pychan.py:797-830 | A spread packing axis with an aligned cross axis is the placement expandContent promises. |
| `Widgets.Widget.DeepResize` | engine/extensions/pychan.py:500-504 | The post-order resize pass leaves the root resized and every box of the tree content-packed (`AllContentPacked`): each box keeps the child area and the children's packing of its own resize, which no ancestor's resize overwrites. Every widget below the root also keeps the size its own resizeToContent gave it along the axes its parent does not stretch, and every box's child area spans the largest of its children's own sizes across the stretched axis (`AllSized`). Proved by recursion through `ResizeChildren` and `ResizeOwnSized`. |
| `Widgets.Widget.ResizeChildren` | engine/extensions/pychan.py:633-635 | Every child's subtree is resized in turn. All of them end content-packed, each child sized for its content, and the sizes below each child kept. |
| `Widgets.Widget.ResizeChild` | engine/extensions/pychan.py:634-635 | Resizing child i's subtree keeps the packing and the sizes of the subtrees before it, and packs and sizes its own. |
| `Widgets.Widget.ResizeOwn` | engine/extensions/pychan.py:636 | The widget's own resizeToContent, run after its children's, leaves it resized and content-packed and keeps every child's subtree content-packed. When the children had their own widths and heights, they keep them across the stretch and the child area spans the largest of them (`ChildrenSized`). |
| `Widgets.Widget.ResizeOwnSized` | engine/extensions/pychan.py:636 | Run on children that were each sized for their content, the widget's own resizeToContent leaves them with their own sizes along the axes it does not stretch and its child area spanning the largest of their own sizes along the axis it does stretch (`ChildrenSized`), and keeps the sizes below them. |
| `Widgets.Widget.ContentWidth` | engine/extensions/pychan.py:790-792 | The width a widget's own resizeToContent sets, within its minimum and maximum: a leaf's clamped content width (889-891), an HBox's clamped child area plus margins (821), a VBox's or Window's clamped child area plus margins and border. |
| `Widgets.Widget.ContentHeight` | engine/extensions/pychan.py:821-823 | The height counterpart of `ContentWidth`, within the minimum and maximum height, with the border on an HBox. |
| `Widgets.ContentWidthsOf` | engine/extensions/pychan.py:625-627 | The children's own widths, one per child, in order: what `getMaxChildrenWidth` takes the maximum of once the children are resized. |
| `Widgets.ContentHeightsOf` | engine/extensions/pychan.py:629-631 | The children's own heights, one per child, in order. |
| `Widgets.Widget.OwnWidth` | engine/extensions/pychan.py:776-792 | A widget has the width its own resizeToContent gives it (`ContentWidth`). A bare container promises nothing. |
| `Widgets.Widget.OwnHeight` | engine/extensions/pychan.py:807-823 | A widget has the height its own resizeToContent gives it (`ContentHeight`). |
| `Widgets.Widget.AreaWidthFits` | engine/extensions/pychan.py:777-792 | A vertical box's child-area width is at least every non-container child's own width and equals one child's own width (or belongs to a bare container child); it is 0 without children (626). |
| `Widgets.Widget.AreaHeightFits` | engine/extensions/pychan.py:808-823 | The HBox counterpart of `AreaWidthFits`, on heights. |
| `Widgets.Widget.AreaWidthIsMax` | engine/extensions/pychan.py:625-627 | With no bare container among the children, the child-area width is exactly the maximum of the children's own widths. |
| `Widgets.Widget.AreaHeightIsMax` | engine/extensions/pychan.py:629-631 | With no bare container among the children, the child-area height is exactly the maximum of the children's own heights. |
| `Widgets.Widget.SizedOwn` | engine/extensions/pychan.py:776-823 | A widget sized for its content has its own width and its own height. |
| `Widgets.Widget.ChildrenSized` | engine/extensions/pychan.py:777-792 | The children of a VBox or Window keep their own heights (only their widths are stretched) and the child area fits their own widths (`AreaWidthFits`); those of an HBox keep their own widths and the child area fits their own heights (808-823); those of a bare container keep both. |
| `Widgets.Widget.ChildrenKeepOwnSize` | engine/extensions/pychan.py:777-792 | A resize that sets the child area to the widest child, changes the children's widths but not their heights (or the reverse for an HBox), gives `ChildrenSized` to children that had their own sizes. |
| `Widgets.Widget.ResizedChildrenOwnSized` | engine/extensions/pychan.py:633-636 | Children resized by the pass have their own widths and heights, and the sizes below them are kept. |
| `Widgets.Widget.AllSized` | engine/extensions/pychan.py:633-636 | `ChildrenSized` holds at this widget and at every widget below it. |
| `Widgets.Widget.SiblingsSized` | engine/extensions/pychan.py:634-635 | The children in a range each have `AllSized`; `SiblingsSizedEach` proves both directions of that. |
| `Widgets.Widget.SiblingsSizedEach` | engine/extensions/pychan.py:634-635 | `SiblingsSized` over a range holds exactly when every child in it has `AllSized`. |
| `Widgets.Widget.SiblingsResized` | engine/extensions/pychan.py:634-635 | The children in a range are each sized for their content and keep the sizes below them. |
| `Widgets.Widget.SiblingsResizedEach` | engine/extensions/pychan.py:634-635 | `SiblingsResized` gives `SiblingsSized` and every child's `SizedFor`. |
| `Widgets.Widget.SiblingsSizedKept` | engine/extensions/pychan.py:636 | Changing only the children's native widgets keeps `SiblingsSized`. |
| `Widgets.Widget.SiblingsResizedKept` | engine/extensions/pychan.py:634-635 | Resizing a later child's subtree keeps `SiblingsResized` over the earlier ones. |
| `Widgets.Widget.SizedUntouched` | engine/extensions/pychan.py:359 | A change that leaves every native widget's size and child area alone keeps `AllSized`. |
| `Widgets.Widget.SiblingsPackedKept` | engine/extensions/pychan.py:633-636 | A pass that touches only the children's native widgets and this widget leaves the packing of the rest of the children's subtrees as it was. |
| `Widgets.Widget.DeepExpand` | engine/extensions/pychan.py:506-510 | The post-order expand pass places the root's aligned children, and turns a tree whose boxes were all content-packed into one whose boxes are all arranged (`AllArranged`). It changes only positions below the root. |
| `Widgets.Widget.ExpandChildren` | engine/extensions/pychan.py:633-635 | The children's subtrees are expanded in turn without moving any direct child, and content-packed subtrees end arranged. |
| `Widgets.Widget.ExpandChild` | engine/extensions/pychan.py:634-635 | Expanding child i's subtree arranges it, keeps the arrangement of the subtrees before it and the packing of those after it. |
| `Widgets.Widget.ExpandOwn` | engine/extensions/pychan.py:636 | The widget's own expandContent, run after its children's, places aligned children, arranges a content-packed box and keeps the children's subtrees arranged. |
| `Widgets.Widget.ExpandArranged` | engine/extensions/pychan.py:797-799 | expandContent on one box: aligned children end placed, and a content-packed box ends arranged. |
| `Widgets.Widget.ArrangedAfterExpand` | engine/extensions/pychan.py:797-799 | A content-packed box whose sizes stay, whose moving axis is spread and whose other axis stays, is arranged. |
| `Widgets.Widget.SiblingsArrangedKept` | engine/extensions/pychan.py:633-636 | Moving only the children's native widgets leaves the arrangement of the rest of the children's subtrees as it was. |
| `Widgets.Widget.AdaptLayout` | engine/extensions/pychan.py:370-375 | Resize then expand leaves the root sized for its content with its children placed, every box of the tree arranged, and every widget below the root with its own size along the axes its parent does not stretch, and every box's child area spanning its children's own sizes (`AllSized`). |
| `Widgets.Widget.ExpandResized` | engine/extensions/pychan.py:375 | The expand pass keeps the sizes of the resize pass, at the root and below it, places the root's children, and turns every content-packed box into an arranged one. |
| `Widgets.Widget.Show` | engine/extensions/pychan.py:351-359 | A visible widget is untouched. Otherwise the widget is laid out, every box of its tree is arranged, the sizes below the root and the child areas that span them are kept (`AllSized`), and it ends visible. |
| `Widgets.Widget.MarkVisible` | engine/extensions/pychan.py:359 | Setting the flag keeps the root's layout, the arrangement of every box and the sizes below the root. |
| `Widgets.Widget.Hide` | engine/extensions/pychan.py:361-368 | The widget ends hidden. |
| `Widgets.Widget.PostOrder` | engine/extensions/pychan.py:633-636 | The visiting order ends with the widget itself, holds only members of the subtree, and visits each native widget once. |
| `Widgets.Widget.ChildrenPostOrder` | engine/extensions/pychan.py:634-635 | The children's subtrees in turn, without the widget itself, each native widget once. |
| `Widgets.Widget.ChildrenPostOrderPrefix` | engine/extensions/pychan.py:634-635 | The visits of the earlier children's subtrees are a prefix of those of the later ones. |
| `Widgets.Widget.PostOrderSegment` | engine/extensions/pychan.py:633-636 | Child i's subtree is visited as one block right after the blocks of the children before it, and the widget itself comes after all of them. |
| `Widgets.Widget.ChildrenPostOrderMember` | engine/extensions/pychan.py:634-635 | A widget visited among the children's subtrees lies in one child's subtree. |
| `Widgets.Widget.PostOrderComplete` | engine/extensions/pychan.py:633-636 | When the footprint is exactly the tree, every wrapper of the subtree is visited, and nothing else. |
| `Widgets.Widget.ArrangedEverywhere` | engine/extensions/pychan.py:370-375 | After adaptLayout, every widget the traversal visits is an arranged box. |
| `Widgets.Widget.PackedEverywhere` | engine/extensions/pychan.py:697-700 | After the resize pass, every widget the traversal visits is content-packed. |
| `Widgets.Widget.SizedEverywhere` | engine/extensions/pychan.py:370-375 | After adaptLayout, the children of every widget the traversal visits keep their own sizes along the axes it does not stretch. |
| `Widgets.Widget.FindChildren` | engine/extensions/pychan.py:393-404 | Exactly the visited widgets that match, each of them once; `FindChildrenSegment` and `FindChildrenLast` give their order. |
| `Widgets.Widget.FindChildrenSegment` | engine/extensions/pychan.py:393-404 | The matches in child i's subtree come as one block after those of the children before it. |
| `Widgets.Widget.FindChildrenLast` | engine/extensions/pychan.py:393-404 | The widget itself, when it matches, comes after all its matching descendants. |
| `Widgets.Widget.FindChild` | engine/extensions/pychan.py:406-414 | None iff no visited widget matches. Otherwise the first matching widget in visiting order. |
| `Widgets.Widget.Match` | engine/extensions/pychan.py:333-341 | True iff every queried key names an attribute holding the queried value; an attribute the widget lacks reads as None, so a query for None matches it. |
| `Widgets.Widget.FindChildIsFirstMatch` | engine/extensions/pychan.py:406-414 | findChild is the first match of the visiting order. |
| `Widgets.Widget.MapEvents` | engine/extensions/pychan.py:416-430 | Succeeds iff missing names are ignored or every name finds a widget. Otherwise it fails with the first missing name, after capturing the names before it. Each capture pairs a name with the widget findChild returns for it. |
| `Widgets.Widget.SetData` | engine/extensions/pychan.py:432-435 | Fails iff the widget does not accept data, and then changes nothing. Otherwise the data is stored in the property the widget's setter writes, and a delivering widget's getData then returns the widget's read-back of it: the value itself only for a widget whose getter reads back what its setter wrote. |
| `Widgets.Widget.GetData` | engine/extensions/pychan.py:437-440 | Fails with NotDelivering iff the widget does not deliver data; otherwise returns the widget's read-back of its data slot. |
| `Widgets.Widget.DistributeData` | engine/extensions/pychan.py:442-465 | Succeeds iff every visited widget named by an entry accepts data. Then each such widget holds the value of the last entry naming it, and the others keep theirs. Any change is the value of an entry naming the widget. |
| `Widgets.Widget.CollectDataAsWritten` | engine/extensions/pychan.py:485-492 | As written: the empty list gives an empty map. Any other list fails, on the non-unique check or on the unbound variable. |
| `Widgets.Widget.CollectData` | engine/extensions/pychan.py:485-492 | Corrected: succeeds iff every name finds exactly one widget and it delivers data. The map then has exactly the names as keys, each with what its widget's getData returns. Otherwise it fails for the first name that does not. |
| `Widgets.CollectFailure` | engine/extensions/pychan.py:488-489 | No error exactly when a name finds one widget and it delivers data. |
| `Widgets.CollectOver` | engine/extensions/pychan.py:486-492 | The collectData loop over a visiting order, with the CollectData contract. |
| `Widgets.Delivered` | engine/extensions/pychan.py:462-465 | None iff no entry names the widget. Otherwise the value of an entry naming it. |
| `Widgets.DeliveredStep` | engine/extensions/pychan.py:462-465 | A later entry naming the widget overrides the earlier ones. |
| `Widgets.DeliveredWithin` | engine/extensions/pychan.py:462-465 | What a prefix of the entries delivers comes from an entry naming the widget. |
| `Widgets.DistributeOver` | engine/extensions/pychan.py:462-465 | The distributeData loop over a visiting order, with the DistributeData contract. |
| `Widgets.DistributeStep` | engine/extensions/pychan.py:462-465 | One entry of the outer loop extends the distributed prefix, or fails with NotAccepting on a widget that does not accept data. |
| `Widgets.DistributeEntry` | engine/extensions/pychan.py:463-465 | One entry sets its value on every widget it names. It fails iff one of them does not accept data. Other widgets keep their data. |
| `Widgets.SetDataAll` | engine/extensions/pychan.py:464-465 | Setting data on a list succeeds iff every widget accepts data, and then they all hold it. |
| `Widgets.Filter` | engine/extensions/pychan.py:399-403 | The collector keeps exactly the matching widgets; `FilterAppend` gives their order. |
| `Widgets.FilterAppend` | engine/extensions/pychan.py:399-403 | Filtering a concatenation is the concatenation of the filtered parts, so the kept widgets stay in visiting order. |
| `Widgets.FirstMatchIsFilterHead` | engine/extensions/pychan.py:411-414 | The first match is the head of the filtered list, or None when it is empty. |
| `Widgets.FilterKeepsDistinct` | engine/extensions/pychan.py:399-403 | Filtering keeps each native widget at most once. |
| `Widgets.FirstMatchIsFirst` | engine/extensions/pychan.py:406-414 | None iff nothing matches. Otherwise a matching widget with no match before it. |
| `ListModels.ListModel.ElementAt` | engine/extensions/pychan.py:934-936 | Fails iff the list is empty. Otherwise the item at the index clamped into [0, len-1], covering the below, above and inside cases. |
| `ListModels.ListModel.Clear` | engine/extensions/pychan.py:928-930 | Popping from the end until empty leaves the list empty. |
| `ListModels.ListModel.Extend` | engine/extensions/pychan.py:967 | The new items are appended. |
| `ListModels.ItemWidget.SetItems` | engine/extensions/pychan.py:960-967 | The model ends with the given items. The source list is unchanged when it is another list, and handing the model itself is a no-op. |
| `ListModels.ItemWidget.SelectedItem` | engine/extensions/pychan.py:974-977 | The selected item iff 0 <= selected < len, otherwise None. |
| `GuiText.MungeText` | engine/extensions/pychan.py:170-174 | The result has no tabs, and is 3 characters longer per tab. |
| `GuiText.MungeTextAppend` | engine/extensions/pychan.py:174 | Munging distributes over concatenation. |
| `GuiText.MungeTextNoTabs` | engine/extensions/pychan.py:174 | Text without tabs is unchanged. |
| `GuiText.MungeTextIdempotent` | engine/extensions/pychan.py:174 | Munging twice is munging once. |
| `GuiText.Split` | engine/extensions/pychan.py:1145 | At least one piece, no piece contains the separator, and joining the pieces gives the input back. |
| `GuiText.SplitJoin` | engine/extensions/pychan.py:1145 | Splitting the join of separator-free pieces gives the pieces back. |
| `GuiText.ParseDigits` | engine/extensions/pychan.py:1145 | A value iff at least one digit is followed by nothing but whitespace. |
| `GuiText.ParseInt` | engine/extensions/pychan.py:1145 | int(s) for a Python 2 byte string: leading whitespace, an optional sign, whitespace again, at least one digit, then only whitespace; anything else is a ValueError (None). |
| `GuiText.ParseIntShape` | engine/extensions/pychan.py:1145 | Text that int() accepts contains a digit, and text with a negative value contains a minus sign. |
| `GuiText.ParseShow` | engine/extensions/pychan.py:1145 | int(str(n)) == n for every integer. |
| `GuiText.ParseAll` | engine/extensions/pychan.py:1145 | Succeeds iff every piece is an integer. Then it holds their values one for one. |
| `GuiText.ToIntList` | engine/extensions/pychan.py:1143-1147 | Succeeds iff every comma-separated piece parses, with their values in order. Otherwise GuiXMLError. |
| `GuiText.ToIntListShowList` | engine/extensions/pychan.py:1143-1147 | A written non-empty integer list reads back as itself. |
| `GuiText.AttrNamesDisjoint` | engine/extensions/pychan.py:1152-1156 | The three groups of attribute names are disjoint, so the order of the tests does not matter. |
| `GuiText.ParseAttr` | engine/extensions/pychan.py:1149-1160 | Geometry and colour attributes become integer lists or fail with GuiXMLError. opaque, border_size and padding become integers or fail with ValueError. Anything else stays text. The name is kept. |
| `GuiText.ParseAttrShowList` | engine/extensions/pychan.py:1152-1155 | A geometry or colour attribute written as a decimal list parses back to the list. |
| `Tiling.Count` | engine/extensions/pychan.py:655-662 | The number of steps starting below the extent: ceil(extent/step), or 0 for an empty extent. |
| `Tiling.Column` | engine/extensions/pychan.py:657-661 | One tile per row, at (i*w, j*h). |
| `Tiling.Grid` | engine/extensions/pychan.py:655-662 | cols*rows tiles. |
| `Tiling.GridTiles` | engine/extensions/pychan.py:655-662 | Every tile is at (i*w, j*h) for some column and row. |
| `Tiling.GridHasTile` | engine/extensions/pychan.py:655-662 | Every column and row has its tile. |
| `Tiling.CountBelow` | engine/extensions/pychan.py:655-657 | Step i starts below the extent exactly when i < Count. This is the loop's exit test. |
| `Tiling.TilesCoverBackground` | engine/extensions/pychan.py:641-662 | Every pixel of the container lies in a generated tile. |
| `Tiling.TilesInsideBackground` | engine/extensions/pychan.py:641-662 | Every generated tile starts inside the container. |
| `Tiling.TiledContainer.ResetTiling` | engine/extensions/pychan.py:641-662 | Requires exactly what the loops need to finish: a container of positive width needs an image of positive width, and then one of positive height needs an image of positive height. No image: nothing changes. An image of positive size gives the column-major grid covering width x height; any other image gives no tiles. |
| `Tiling.TiledContainer.TileColumn` | engine/extensions/pychan.py:656-661 | The inner loop appends one full column, which is empty when the image height is not positive (the loop then does not start). |
| `MetaModels.MetaModel.ClearDatasets` | engine/core/model/metamodel/metamodel.cpp:42-45 | The registry is left empty, and identifiers stay distinct. |
| `MetaModels.MetaModel.AddDataset` | engine/core/model/metamodel/metamodel.cpp:47-56 | A used identifier fails with NameClash and leaves the list unchanged. Otherwise one new dataset with that identifier is appended and returned. Identifiers stay pairwise distinct. |
| `MetaModels.MetaModel.GetDatasets` | engine/core/model/metamodel/metamodel.cpp:59-70 | The loop returns, per registered dataset in order, its nested datasets and then itself. |
| `MetaModels.MetaModel.GetDatasetsBy` | engine/core/model/metamodel/metamodel.cpp:72-88 | The matching registered datasets in order, then every registered dataset's nested matches in order. |
| `MetaModels.MetaModel.GetObjects` | engine/core/model/metamodel/metamodel.cpp:90-100 | The in-order concatenation of every dataset's matching objects. |
| `MetaModels.AllDatasetsMembers` | engine/core/model/metamodel/metamodel.cpp:59-70 | getDatasets() holds exactly the registered datasets and the datasets nested in them. |
| `MetaModels.AllDatasetsAppend` | engine/core/model/metamodel/metamodel.cpp:54-67 | Registering a dataset only appends its nested datasets and itself to getDatasets(). |
| `MetaModels.AllDatasetsFlat` | engine/core/model/metamodel/metamodel.cpp:59-70 | Without nesting, getDatasets() is the registry in insertion order. |
| `MetaModels.MatchingMembers` | engine/core/model/metamodel/metamodel.cpp:76-79 | The top-level matches are exactly the registered datasets whose field has the value. |
| `MetaModels.MatchingShorter` | engine/core/model/metamodel/metamodel.cpp:76-79 | At most one match per dataset, and one for each exactly when all match. |
| `MetaModels.AllObjectsMembers` | engine/core/model/metamodel/metamodel.cpp:90-100 | getObjects holds exactly the objects some registered dataset returns. |
| `Events.TicksToInt` | engine/eventchannel/base/ec_event.h:55 | The tick count keeps its 32 bits in the int field. It is non-negative iff the count is below 2^31. |
| `Events.TicksToIntInjective` | engine/eventchannel/base/ec_event.h:55 | Distinct tick counts give distinct timestamps. |
| `Events.Event.constructor` | engine/eventchannel/base/ec_event.h:52-55 | A new event is not consumed, has a null source, and is stamped with the converted ticks. |
| `Events.Event.IsConsumed` | engine/eventchannel/base/ec_event.h:62 | The consumed flag, which the constructor clears and Consume sets. |
| `Events.Event.GetSource` | engine/eventchannel/base/ec_event.h:63 | The source, null from the constructor and what SetSource last set. |
| `Events.Event.GetTimeStamp` | engine/eventchannel/base/ec_event.h:65 | The timestamp, the converted ticks from the constructor and what SetTimeStamp last set. |
| `Events.Event.Consume` | engine/eventchannel/base/ec_event.h:61 | isConsumed is true afterwards, and calling it again keeps it true. Only the flag may change. |
| `Events.Event.SetSource` | engine/eventchannel/base/ec_event.h:64 | getSource returns the source set. Only the source may change. |
| `Events.Event.SetTimeStamp` | engine/eventchannel/base/ec_event.h:66 | getTimeStamp returns the timestamp set. Only the timestamp may change. |

## Left out

- Fonts, text metrics and content sizes of leaf widgets are not modelled. They are the `intrinsic` parameter.
- ScrollArea's and TextBox's `resizeToContent` (pychan.py:1044, 1098) are not modelled.
- `Widgets.Widget.Show`: does not run `beforeShow`. For every container, boxes and windows included, that hook regenerates the background tiles (`_resetTiling`, pychan.py:638-639, called at 355). The model has that step only on its own, as `Tiling.TiledContainer.ResetTiling`. A leaf's `beforeShow` and every `afterHide` do nothing (pychan.py:377-390).
- `manager.show`/`manager.hide` and `capture` callbacks are calls into the manager. They are not modelled. `mapEvents` records each capture as a (name, widget) pair.
- `sizeChanged` (pychan.py:518-522) is not modelled: the model has no parent links, so it has no upward walk. Its root case is `adaptLayout`.
- The property setters other than size and position (margins, padding, alignment, name and other attributes) are fixed when a widget is built. The Window's title and font are not modelled.
- `Widgets.Widget.SetData`: setData and getData are not inverses in the source. A CheckBox stores a mark (pychan.py:917-918), a ListBox or DropDown stores items and reports the selected item (pychan.py:946-949, 988-991), and a TextBox munges the text it stores (pychan.py:1031-1032, 1049-1050). The model stores what `_realSetData` receives in one data slot per widget and reads it back through a per-widget function `readBack` fixed at construction. That function is the identity for a TextField. The model does not compute the per-kind accessors (caption, text, mark, items), and it treats a list's selected index as fixed, so `readBack` depends only on the stored value. The ListBox/DropDown item list is modelled separately in `ListModels`.
- `Widgets.Widget.MapEvents`, `Widgets.Widget.DistributeData` and `Widgets.Widget.CollectData` compute the visiting order once per call. The source recomputes it for every name, but nothing changes the tree in between.
- `match` queries only the widget's attribute map, not arbitrary Python attributes through `getattr`.
- `str()`/`unicode` conversions and their encoding errors are not modelled. Attribute values are ASCII strings, and `int()` accepts ASCII whitespace and digits only.
- `Widgets.Widget.AdjustWidth` and `Widgets.Widget.AdjustHeight` do not state that a left/top alignment leaves the children untouched. Their ensures say only that packed children end aligned, which is what the passes need.
- `Widgets.Widget.ResizeToContent` states the box's child area only through `ChildrenSized`, for children that had their own widths and heights. For any children, `ResizeVertical` and `ResizeHorizontal` state that it equals the widest (tallest) child's size. Carrying that equation through `ResizeToContent`, `ResizeOwn` and `ResizeOwnSized` as well made those proofs too costly. `ResizeToContent` also does not state that a leaf or a bare container leaves its children's native state untouched; for a bare container it states that its own size and child area are unchanged.
- `Widgets.Widget.DeepResize`, `Widgets.Widget.AdaptLayout` and `Widgets.Widget.Show` do not record a bare container child's size before its parent's stretch, because no widget's own resizeToContent sets it (pychan.py:494-495). Along the stretched axis, `AllSized` therefore bounds the child area by the other children's own sizes and lets a bare container child be the one that attains it. With no bare container child, `AreaWidthIsMax` and `AreaHeightIsMax` give the exact maximum.
- `Widgets.Widget.Add` requires a container (`kind != Leaf`): a leaf widget has no `add` method in the source.
- Idempotence of `adaptLayout` is not stated as a lemma. The final state is characterised by `LaidOut`, `AllArranged` and `AllSized`. Along the axis a parent stretches, a child's size is the parent's child area, which `AllSized` ties to the largest of the children's own sizes.
- `Tiling.TiledContainer.ResetTiling` requires what makes the source's loops finish. A container of positive width with an image of width 0 or less, or of positive width and height with an image of height 0 or less, makes the source loop forever, and the model has no such run. Removing and adding the native icons and moving them to the bottom are not modelled, and each tile is its position.
- `setBackgroundImage` and the image loading behind it are not modelled.
- The metamodel's `purge` deletes the datasets' memory. Deallocation is not modelled.
- `SDL_GetTicks()` is a clock read. It is the constructor parameter `ticks`.

## Findings

| source | as written | input that shows it | evidently intended | confidence | as-written member | corrected member |
|---|---|---|---|---|---|---|
| engine/extensions/pychan.py:491 | `dataMap[name] = widget.getData()` reads `widget`, which is never assigned in `collectData`, so every non-empty name list raises a NameError | a tree with exactly one widget named n that delivers data, and `collectData([n])` | take the data of the single widget found, `widgetList[0].getData()` | high (not executed) | `Widgets.Widget.CollectDataAsWritten` | `Widgets.Widget.CollectData` |
| engine/extensions/pychan.py:713 | `raise RuntimeException(...)` names a class that the module never defines and that its imports (`import fife, pythonize`, pychan.py:142) do not bring into scope (its own error class is `RuntimeError`, pychan.py:184), so the raise itself fails with a NameError | a box that already has a spacer, and a second `addSpacer` | `raise RuntimeError(...)` | high (not executed) | `Widgets.Widget.AddSpacerAsWritten` | `Widgets.Widget.AddSpacer` |
