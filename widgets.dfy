/**
 * The widget wrapper of the GUI layer: every widget wraps a native toolkit
 * widget (its `real_widget`), containers hold an ordered list of children, and
 * boxes lay their children out in two passes, resizeToContent and expandContent,
 * applied to the whole containment tree in post-order.
 */
module Widgets {
  import opened Wrappers
  import opened BoxMath

  /** The wrapper classes whose layout behaviour differs. */
  datatype WidgetKind =
    | Leaf       // Label, Button, TextField, ...: sized from content
    | Container  // a bare Container: absolute positioning, no layout
    | VBox       // packs its children top to bottom
    | HBox       // packs its children left to right
    | Window     // a VBox whose native height includes the title bar

  /** Attribute values as `match` compares them; NoneValue is Python's None. */
  datatype AttrValue = NoneValue | IntValue(i: int) | StrValue(s: string) | BoolValue(b: bool)

  /** The errors the wrapper raises. */
  datatype GuiError =
    | DuplicateSpacer           // addSpacer on a box that already has one
    | NotAccepting              // setData on a widget that does not accept data
    | NotDelivering             // getData on a widget that does not deliver data
    | NoSuchWidget(name: string) // mapEvents found no widget with that name
    | NotUnique(name: string)   // collectData found zero or several widgets with that name
    | UnboundWidget             // collectData reads a variable that was never assigned
    | UndefinedException        // addSpacer raises a class the module never defines

  /**
   * The native toolkit widget behind a wrapper. Its position, size, border and
   * title bar height are properties of the native object; the data slot is what the
   * widget's own data accessors (caption, text, mark) write and read. The box's
   * `childarea`, a wrapper attribute that only the layout pass writes, is kept here
   * too, so that the layout passes change native records and nothing else.
   */
  class NativeWidget {
    var x: int
    var y: int
    var width: int
    var height: int
    const borderSize: int
    const titleBarHeight: int
    var data: AttrValue
    var childarea: (int, int)
    var visible: bool

    constructor (border: int, titleBar: int, initialHeight: int)
      ensures x == 0 && y == 0 && width == 0 && height == initialHeight
      ensures borderSize == border && titleBarHeight == titleBar
      ensures data == NoneValue && childarea == (0, 0) && !visible
    {
      borderSize, titleBarHeight := border, titleBar;
      x, y, width, height := 0, 0, 0, initialHeight;
      data, childarea, visible := NoneValue, (0, 0), false;
    }
  }

  /** Expandable whitespace inside a box; `index` is where it was inserted. */
  class Spacer {
    var index: int

    constructor ()
      ensures index == 0
    {
      index := 0;
    }
  }

  /** The query `name=<name>` of findChild / findChildren. */
  function NameQuery(name: string): map<string, AttrValue>
  {
    map["name" := StrValue(name)]
  }


  /** The native widgets behind a list of wrappers. */
  function Natives(ws: seq<Widget>): set<NativeWidget>
  {
    set w | w in ws :: w.native
  }

  /** The wrappers of the subtrees rooted at a list of widgets. */
  ghost function ReprOf(ws: seq<Widget>): set<Widget>
    reads (set w | w in ws)`Repr
  {
    if ws == [] then {} else ReprOf(ws[..|ws| - 1]) + ws[|ws| - 1].Repr
  }

  /** A wrapper of those subtrees belongs to the subtree of one of the widgets. */
  lemma {:induction false} ReprOfMember(ws: seq<Widget>, w: Widget)
    requires w in ReprOf(ws)
    ensures exists i :: 0 <= i < |ws| && w in ws[i].Repr
  {
    var init := ws[..|ws| - 1];
    if w !in ws[|ws| - 1].Repr {
      ReprOfMember(init, w);
      var i :| 0 <= i < |init| && w in init[i].Repr;
      assert ws[i] == init[i];
    }
  }

  /** The widths of a list of widgets, as their width properties read them. */
  function WidthsOf(ws: seq<Widget>): (r: seq<int>)
    reads Natives(ws)`width
    ensures |r| == |ws|
    ensures forall i :: 0 <= i < |ws| ==> r[i] == ws[i].Width()
  {
    if ws == [] then [] else WidthsOf(ws[..|ws| - 1]) + [ws[|ws| - 1].Width()]
  }

  /** The heights of a list of widgets, as their height properties read them. */
  function HeightsOf(ws: seq<Widget>): (r: seq<int>)
    reads Natives(ws)`height
    ensures |r| == |ws|
    ensures forall i :: 0 <= i < |ws| ==> r[i] == ws[i].Height()
  {
    if ws == [] then [] else HeightsOf(ws[..|ws| - 1]) + [ws[|ws| - 1].Height()]
  }

  /** The widths the widgets' own resizeToContent sets, in order. */
  ghost function ContentWidthsOf(ws: seq<Widget>, intrinsic: Widget -> (int, int)): (r: seq<int>)
    reads Natives(ws)`childarea
    ensures |r| == |ws|
    ensures forall i :: 0 <= i < |ws| ==> r[i] == ws[i].ContentWidth(intrinsic)
  {
    if ws == [] then [] else ContentWidthsOf(ws[..|ws| - 1], intrinsic) + [ws[|ws| - 1].ContentWidth(intrinsic)]
  }

  /** The heights the widgets' own resizeToContent sets, in order. */
  ghost function ContentHeightsOf(ws: seq<Widget>, intrinsic: Widget -> (int, int)): (r: seq<int>)
    reads Natives(ws)`childarea
    ensures |r| == |ws|
    ensures forall i :: 0 <= i < |ws| ==> r[i] == ws[i].ContentHeight(intrinsic)
  {
    if ws == [] then [] else ContentHeightsOf(ws[..|ws| - 1], intrinsic) + [ws[|ws| - 1].ContentHeight(intrinsic)]
  }

  /** The x coordinates of a list of widgets. */
  function XsOf(ws: seq<Widget>): (r: seq<int>)
    reads Natives(ws)`x
    ensures |r| == |ws|
    ensures forall i :: 0 <= i < |ws| ==> r[i] == ws[i].native.x
  {
    if ws == [] then [] else XsOf(ws[..|ws| - 1]) + [ws[|ws| - 1].native.x]
  }

  /** The y coordinates of a list of widgets. */
  function YsOf(ws: seq<Widget>): (r: seq<int>)
    reads Natives(ws)`y
    ensures |r| == |ws|
    ensures forall i :: 0 <= i < |ws| ==> r[i] == ws[i].native.y
  {
    if ws == [] then [] else YsOf(ws[..|ws| - 1]) + [ws[|ws| - 1].native.y]
  }

  /**
   * A widget wrapper. The properties the XML loader or the caller passes to the
   * constructor (name and other attributes, size bounds, margins, padding,
   * alignment, whether the widget accepts or delivers data) stay fixed in this
   * model; the children, the spacer and the visibility change, and the geometry
   * lives in the native widget.
   */
  class Widget {
    const kind: WidgetKind
    const native: NativeWidget
    const attributes: map<string, AttrValue>
    const minSize: (int, int)
    const maxSize: (int, int)
    const acceptsData: bool
    const deliversData: bool
    /**
     * What getData reports once setData has stored a value: the value itself for a
     * text field, the munged text for a text box, the mark a value sets for a check
     * box, the selected item of the new items for a list box or drop-down.
     */
    const readBack: AttrValue -> AttrValue
    const margins: (int, int)
    const padding: int
    const align: (Align, Align)
    var children: seq<Widget>
    var spacer: Spacer?

    /** The wrappers of this subtree and their native widgets. */
    ghost var Repr: set<Widget>
    ghost var NRepr: set<NativeWidget>
    /** The position of each child's native widget in `children`. */
    ghost var Slot: map<NativeWidget, nat>

    /**
     * A fresh widget: the size bounds are stored before the requested size, so the
     * size goes through the clamping setters; no children, no spacer, hidden.
     * `extra` holds the attributes other than the name that `match` can query.
     *
     * A window assigns its size while its native window still has the toolkit's
     * default title bar height `defaultTitleBar`, and sets its own title bar height
     * only afterwards: `titleBar`, or the font height plus 4 when that is 0. Its
     * perceived height is therefore off by the difference of the two.
     */
    constructor (kind: WidgetKind, name: string, extra: map<string, AttrValue>,
                 size: (int, int), minSize: (int, int), maxSize: (int, int),
                 margins: (int, int), padding: int, align: (Align, Align),
                 border: int, titleBar: int, fontHeight: int, defaultTitleBar: int,
                 accepts: bool, delivers: bool, readBack: AttrValue -> AttrValue)
      ensures Valid() && ReprExact() && fresh(native) && fresh(Repr - {this}) && fresh(NRepr)
      ensures this.kind == kind && children == [] && spacer == null && !native.visible
      ensures attributes == extra["name" := StrValue(name)]
      ensures acceptsData == accepts && deliversData == delivers && this.readBack == readBack
      ensures this.minSize == minSize && this.maxSize == maxSize
      ensures this.margins == margins && this.padding == padding && this.align == align
      ensures Width() == Clamp(size.0, minSize.0, maxSize.0)
      ensures kind != Window ==> Height() == Clamp(size.1, minSize.1, maxSize.1) && native.titleBarHeight == 0
      ensures kind == Window ==> native.titleBarHeight == (if titleBar == 0 then fontHeight + 4 else titleBar)
      ensures kind == Window ==> Height() == Clamp(size.1, minSize.1, maxSize.1) + defaultTitleBar - native.titleBarHeight
      ensures native.borderSize == border
      ensures native.x == 0 && native.y == 0 && native.data == NoneValue
    {
      this.kind := kind;
      var tb := if kind != Window then 0 else if titleBar == 0 then fontHeight + 4 else titleBar;
      native := new NativeWidget(border, tb, 0);
      attributes := extra["name" := StrValue(name)];
      this.minSize, this.maxSize := minSize, maxSize;
      acceptsData, deliversData, this.readBack := accepts, delivers, readBack;
      this.margins, this.padding, this.align := margins, padding, align;
      children := [];
      spacer := null;
      new;
      Repr := {this};
      NRepr := {native};
      Slot := map[];
      SetWidth(size.0);
      if kind == Window {
        var h := Max(minSize.1, size.1);
        h := Min(maxSize.1, h);
        native.height := h + defaultTitleBar;
      } else {
        SetHeight(size.1);
      }
    }

    // -------------------------------------------------------------------
    // Size and position properties

    function Width(): int
      reads native`width
    {
      native.width
    }

    /** The perceived height: a window hides its title bar height. */
    function Height(): int
      reads native`height
    {
      if kind == Window then native.height - native.titleBarHeight else native.height
    }

    method SetX(x: int)
      modifies native`x
      ensures native.x == x
    {
      native.x := x;
    }

    method SetY(y: int)
      modifies native`y
      ensures native.y == y
    {
      native.y := y;
    }

    /** Assigning the width stores the request clamped into the widget's bounds. */
    method SetWidth(w: int)
      modifies native`width
      ensures Width() == Clamp(w, minSize.0, maxSize.0)
    {
      var v := Max(minSize.0, w);
      v := Min(maxSize.0, v);
      native.width := v;
    }

    /**
     * Assigning the height stores the request clamped into the widget's bounds;
     * a window adds its title bar height to the native height, so reading the
     * height back gives the clamped request.
     */
    method SetHeight(h: int)
      modifies native`height
      ensures native.height == Clamp(h, minSize.1, maxSize.1) + (if kind == Window then native.titleBarHeight else 0)
      ensures Height() == Clamp(h, minSize.1, maxSize.1)
    {
      var v := Max(minSize.1, h);
      v := Min(maxSize.1, v);
      if kind == Window {
        native.height := v + native.titleBarHeight;
      } else {
        native.height := v;
      }
    }

    // -------------------------------------------------------------------
    // The containment tree

    predicate IsVertical() { kind == VBox || kind == Window }

    function ChildNatives(): set<NativeWidget>
      reads this`children
    {
      Natives(children)
    }

    /**
     * The children's native widgets are distinct from this one and from each
     * other: each has its own slot.
     */
    ghost predicate LocalOk()
      reads this`children, this`Slot
    {
      native !in ChildNatives() &&
      forall i :: 0 <= i < |children| ==>
        children[i].native != native && children[i].native in Slot && Slot[children[i].native] == i
    }

    /**
     * A tree: every child owns a footprint of its own, disjoint from its siblings',
     * and leaves (which have no `add`) have no children.
     */
    ghost predicate Valid()
      reads this`children, this`Repr, this`NRepr, this`Slot
      reads Repr`children, Repr`Repr, Repr`NRepr, Repr`Slot
      decreases Repr
    {
      this in Repr && native in NRepr && LocalOk() &&
      (kind == Leaf ==> children == []) &&
      (forall i :: 0 <= i < |children| ==>
        children[i] in Repr && children[i].Repr <= Repr && this !in children[i].Repr &&
        children[i].NRepr <= NRepr && native !in children[i].NRepr &&
        children[i].Valid()) &&
      (forall i, j :: 0 <= i < j < |children| ==>
        children[i].Repr !! children[j].Repr && children[i].NRepr !! children[j].NRepr)
    }

    /**
     * The footprint holds nothing but the tree: this widget and its children's
     * subtrees, all the way down.
     */
    ghost predicate ReprExact()
      requires Valid()
      reads this, Repr
      decreases Repr
    {
      Repr == {this} + ReprOf(children) &&
      forall i :: 0 <= i < |children| ==> children[i].ReprExact()
    }

    /** The native widgets of the children lie in this tree's native footprint, below the root. */
    lemma ChildNativesInRepr()
      requires Valid()
      ensures ChildNatives() <= NRepr - {native}
    {
      forall c | c in children
        ensures c.native in NRepr - {native}
      {
        var i :| 0 <= i < |children| && children[i] == c;
        assert c.native in c.NRepr;
      }
    }

    /** Container.add: append a widget that is not yet part of this tree. */
    method Add(w: Widget)
      requires Valid() && w.Valid() && kind != Leaf
      requires w.Repr !! Repr && w.NRepr !! NRepr
      modifies this
      ensures Valid()
      ensures old(ReprExact()) && w.ReprExact() ==> ReprExact()
      ensures children == old(children) + [w]
      ensures Repr == old(Repr) + w.Repr && NRepr == old(NRepr) + w.NRepr
      ensures spacer == old(spacer)
    {
      Append(w);
      if old(ReprExact()) && w.ReprExact() {
        AppendedExact(w);
      }
    }

    /** The state change of Add: the child goes last and its footprints join this one's. */
    method Append(w: Widget)
      requires Valid() && w.Valid() && kind != Leaf
      requires w.Repr !! Repr && w.NRepr !! NRepr
      modifies this
      ensures Valid()
      ensures children == old(children) + [w]
      ensures Repr == old(Repr) + w.Repr && NRepr == old(NRepr) + w.NRepr
      ensures spacer == old(spacer)
    {
      ChildNativesInRepr();
      assert w.native in w.NRepr;
      Slot := Slot[w.native := |children|];
      children := children + [w];
      Repr := Repr + w.Repr;
      NRepr := NRepr + w.NRepr;
      assert forall i :: 0 <= i < |children| - 1 ==> children[i] == old(children)[i];
    }

    /** Appending a child keeps the footprint exact: it grows by the child's subtree. */
    twostate lemma AppendedExact(w: Widget)
      requires old(Valid()) && old(ReprExact()) && Valid() && w.Valid() && w.ReprExact()
      requires children == old(children) + [w] && Repr == old(Repr) + w.Repr
      requires unchanged(old(Repr) - {this})
      ensures ReprExact()
    {
      assert children[..|children| - 1] == old(children);
      forall i | 0 <= i < |children| - 1 ensures children[i].ReprExact() {
        assert children[i] == old(children[i]);
        assert old(children[i].ReprExact());
      }
    }

    /**
     * addSpacer as written: the second spacer raises `RuntimeException`, a name the
     * module never defines (its own error class is `RuntimeError`), so the failure
     * is the lookup of that name rather than the intended error. Nothing changes.
     */
    method AddSpacerAsWritten(s: Spacer) returns (r: Outcome<GuiError>)
      requires kind in {VBox, HBox, Window}
      modifies this`spacer, s`index
      ensures old(spacer) != null ==> r == Fail(UndefinedException) && r != Fail(DuplicateSpacer)
      ensures old(spacer) != null ==> spacer == old(spacer) && spacer.index == old(spacer.index) && s.index == old(s.index)
      ensures old(spacer) == null ==> r == Pass && spacer == s && s.index == |children|
    {
      if spacer != null {
        return Fail(UndefinedException);
      }
      spacer := s;
      s.index := |children|;
      r := Pass;
    }

    /**
     * LayoutBase.addSpacer as intended: a box holds at most one spacer. A second one
     * fails with the wrapper's own error and changes nothing; the first is recorded
     * with the current number of children.
     */
    method AddSpacer(s: Spacer) returns (r: Outcome<GuiError>)
      requires kind in {VBox, HBox, Window}
      modifies this`spacer, s`index
      ensures old(spacer) != null ==> r == Fail(DuplicateSpacer) && spacer == old(spacer)
      ensures old(spacer) != null ==> spacer.index == old(spacer.index) && s.index == old(s.index)
      ensures old(spacer) == null ==> r == Pass && spacer == s && s.index == |children|
    {
      if spacer != null {
        return Fail(DuplicateSpacer);
      }
      spacer := s;
      s.index := |children|;
      r := Pass;
    }

    // -------------------------------------------------------------------
    // Layout: the quantities both passes use

    /** getMaxChildrenWidth: the widest child, or 0 without children. */
    function MaxChildrenWidth(): (m: int)
      reads this`children, ChildNatives()`width
      ensures children == [] ==> m == 0
      ensures forall i :: 0 <= i < |children| ==> children[i].Width() <= m
      ensures children != [] ==> exists i :: 0 <= i < |children| && children[i].Width() == m
    {
      MaxOf(WidthsOf(children))
    }

    /** getMaxChildrenHeight: the tallest child, or 0 without children. */
    function MaxChildrenHeight(): (m: int)
      reads this`children, ChildNatives()`height
      ensures children == [] ==> m == 0
      ensures forall i :: 0 <= i < |children| ==> children[i].Height() <= m
      ensures children != [] ==> exists i :: 0 <= i < |children| && children[i].Height() == m
    {
      MaxOf(HeightsOf(children))
    }

    /**
     * The xdelta of every child, in order: a horizontal box steps by the child's
     * width plus padding, every other layout by 0.
     */
    function XDeltas(): (d: seq<int>)
      reads this`children, ChildNatives()`width
      ensures |d| == |children|
    {
      if kind == HBox then Padded(WidthsOf(children), padding) else Repeat(0, |children|)
    }

    /**
     * The ydelta of every child, in order: a vertical box (or window) steps by
     * the child's height plus padding, every other layout by 0.
     */
    function YDeltas(): (d: seq<int>)
      reads this`children, ChildNatives()`height
      ensures |d| == |children|
    {
      if IsVertical() then Padded(HeightsOf(children), padding) else Repeat(0, |children|)
    }

    /** Where the children's x coordinates start once `_adjustWidth` has run. */
    function XStart(): int
      reads native`width, native`childarea
    {
      if align.0 == AlignLeft then margins.0 + native.borderSize
      else AlignedStart(align.0 == AlignRight, Width(), native.childarea.0, native.borderSize, margins.0)
    }

    /** Where the children's y coordinates start once `_adjustHeight` has run. */
    function YStart(): int
      reads native`height, native`childarea
    {
      if align.1 == AlignTop then margins.1 + native.borderSize
      else AlignedStart(align.1 == AlignBottom, Height(), native.childarea.1, native.borderSize, margins.1)
    }

    /** The extra padding a box reserves for its spacer. */
    function SpacerExtra(): int
      reads this`spacer
    {
      if spacer != null then padding else 0
    }

    // -------------------------------------------------------------------
    // Layout: what the passes establish

    /**
     * The child area a vertical box's resizeToContent leaves: as tall as the
     * leading border, the children's steps and the spacer's padding, less one
     * padding; every child is stretched to the width of the child area.
     */
    ghost predicate VerticalArea()
      reads this`children, this`spacer, native`childarea, ChildNatives()`width, ChildNatives()`height
    {
      var area := native.childarea;
      area.1 == native.borderSize + Sum(YDeltas()) + SpacerExtra() - padding &&
      forall i :: 0 <= i < |children| ==>
        children[i].Width() == Clamp(area.0, children[i].minSize.0, children[i].maxSize.0)
    }

    /**
     * The sizes a vertical box's resizeToContent leaves: the child area above;
     * the box is that plus a margin on each side, and as wide as the child area
     * plus margin and border on each side.
     */
    ghost predicate VerticalSized()
      reads this`children, this`spacer, native`width, native`height, native`childarea
      reads ChildNatives()`width, ChildNatives()`height
    {
      var area := native.childarea;
      VerticalArea() &&
      Height() == Clamp(area.1 + 2 * margins.1, minSize.1, maxSize.1) &&
      Width() == Clamp(area.0 + 2 * (margins.0 + native.borderSize), minSize.0, maxSize.0)
    }

    /** The horizontal box's counterpart of VerticalArea, with the axes swapped. */
    ghost predicate HorizontalArea()
      reads this`children, this`spacer, native`childarea, ChildNatives()`width, ChildNatives()`height
    {
      var area := native.childarea;
      area.0 == native.borderSize + Sum(XDeltas()) + SpacerExtra() - padding &&
      forall i :: 0 <= i < |children| ==>
        children[i].Height() == Clamp(area.1, children[i].minSize.1, children[i].maxSize.1)
    }

    /** The horizontal box's counterpart of VerticalSized, with the axes swapped. */
    ghost predicate HorizontalSized()
      reads this`children, this`spacer, native`width, native`height, native`childarea
      reads ChildNatives()`width, ChildNatives()`height
    {
      var area := native.childarea;
      HorizontalArea() &&
      Width() == Clamp(area.0 + 2 * margins.0, minSize.0, maxSize.0) &&
      Height() == Clamp(area.1 + 2 * (margins.1 + native.borderSize), minSize.1, maxSize.1)
    }

    /** The children's x coordinates start at `start` and step by their xdeltas. */
    ghost predicate XAt(start: int)
      reads this`children, ChildNatives()`x, ChildNatives()`width
    {
      XsOf(children) == Positions(start, XDeltas())
    }

    /** The children's y coordinates start at `start` and step by their ydeltas. */
    ghost predicate YAt(start: int)
      reads this`children, ChildNatives()`y, ChildNatives()`height
    {
      YsOf(children) == Positions(start, YDeltas())
    }

    /**
     * The children packed from the leading corner, as the loop of resizeToContent
     * leaves them: each axis starts at margin plus border and steps by the
     * children's deltas (which are all 0 on the cross axis).
     */
    ghost predicate Packed()
      reads this`children, ChildNatives()`x, ChildNatives()`y, ChildNatives()`width, ChildNatives()`height
    {
      XAt(margins.0 + native.borderSize) && YAt(margins.1 + native.borderSize)
    }

    /**
     * The children after `_adjustWidth` and `_adjustHeight`: each axis starts at
     * the aligned offset and steps by the children's deltas.
     */
    ghost predicate Aligned()
      reads this`children, native`width, native`height, native`childarea
      reads ChildNatives()`x, ChildNatives()`y, ChildNatives()`width, ChildNatives()`height
    {
      XAt(XStart()) && YAt(YStart())
    }

    /** The spacer's split point in the children list. */
    function SpacerSplit(): (k: nat)
      requires spacer != null
      reads this`spacer, this`children, spacer`index
      ensures k <= |children|
    {
      SliceIndex(spacer.index, |children|)
    }

    /**
     * A vertical box's children after `_expandHeightSpacer`: those before the
     * spacer are packed from border plus margin, the others against the far edge
     * less border and margin.
     */
    ghost predicate YSpaced()
      requires spacer != null
      reads this`children, this`spacer, spacer`index, native`height
      reads ChildNatives()`y, ChildNatives()`height
    {
      YsOf(children) == SpacerPositions(Height(), native.borderSize + margins.1, YDeltas(), SpacerSplit())
    }

    /** The horizontal box's counterpart of YSpaced, after `_expandWidthSpacer`. */
    ghost predicate XSpaced()
      requires spacer != null
      reads this`children, this`spacer, spacer`index, native`width
      reads ChildNatives()`x, ChildNatives()`width
    {
      XsOf(children) == SpacerPositions(Width(), native.borderSize + margins.0, XDeltas(), SpacerSplit())
    }

    /** A leaf sized from its intrinsic content size, through the clamping setters. */
    ghost predicate LeafSized(intrinsic: Widget -> (int, int))
      reads native`width, native`height
    {
      Width() == Clamp(intrinsic(this).0, minSize.0, maxSize.0) &&
      Height() == Clamp(intrinsic(this).1, minSize.1, maxSize.1)
    }

    /**
     * The sizes resizeToContent leaves, by layout: a leaf gets its content size,
     * a bare container keeps whatever it had, a box is sized from its children.
     */
    ghost predicate SizedFor(intrinsic: Widget -> (int, int))
      reads this`children, this`spacer, native`width, native`height, native`childarea
      reads ChildNatives()`width, ChildNatives()`height
    {
      match kind
      case Leaf => LeafSized(intrinsic)
      case Container => true
      case HBox => HorizontalSized()
      case _ => VerticalSized()
    }

    /** The state resizeToContent leaves: sized, and a box's children aligned. */
    ghost predicate Resized(intrinsic: Widget -> (int, int))
      reads this`children, this`spacer, native`width, native`height, native`childarea
      reads ChildNatives()`x, ChildNatives()`y, ChildNatives()`width, ChildNatives()`height
    {
      SizedFor(intrinsic) && (kind in {VBox, HBox, Window} ==> Aligned())
    }

    /**
     * The width this widget's own resizeToContent sets, unless it is a bare
     * container, which sets none: a leaf's clamped content width, a box's child
     * area plus its margins (and, for a vertical box, its border) on each side.
     */
    ghost function ContentWidth(intrinsic: Widget -> (int, int)): (w: int)
      reads native`childarea
      ensures minSize.0 <= maxSize.0 ==> minSize.0 <= w <= maxSize.0
    {
      var area := native.childarea;
      match kind
      case Leaf => Clamp(intrinsic(this).0, minSize.0, maxSize.0)
      case HBox => Clamp(area.0 + 2 * margins.0, minSize.0, maxSize.0)
      case _ => Clamp(area.0 + 2 * (margins.0 + native.borderSize), minSize.0, maxSize.0)
    }

    /** The height counterpart of ContentWidth: the border goes to an HBox. */
    ghost function ContentHeight(intrinsic: Widget -> (int, int)): (h: int)
      reads native`childarea
      ensures minSize.1 <= maxSize.1 ==> minSize.1 <= h <= maxSize.1
    {
      var area := native.childarea;
      match kind
      case Leaf => Clamp(intrinsic(this).1, minSize.1, maxSize.1)
      case HBox => Clamp(area.1 + 2 * (margins.1 + native.borderSize), minSize.1, maxSize.1)
      case _ => Clamp(area.1 + 2 * margins.1, minSize.1, maxSize.1)
    }

    /** The width this widget's own resizeToContent gives it; a bare container sets none. */
    ghost predicate OwnWidth(intrinsic: Widget -> (int, int))
      reads native`width, native`childarea
    {
      kind != Container ==> Width() == ContentWidth(intrinsic)
    }

    /** The height this widget's own resizeToContent gives it, as OwnWidth. */
    ghost predicate OwnHeight(intrinsic: Widget -> (int, int))
      reads native`height, native`childarea
    {
      kind != Container ==> Height() == ContentHeight(intrinsic)
    }

    /** A widget sized by its own resizeToContent has its own width and height. */
    lemma SizedOwn(intrinsic: Widget -> (int, int))
      requires SizedFor(intrinsic)
      ensures OwnWidth(intrinsic) && OwnHeight(intrinsic)
    {
    }

    /** Every child has the width its own resizeToContent gives it. */
    ghost predicate ChildrenOwnWidths(intrinsic: Widget -> (int, int))
      reads this`children, ChildNatives()`width, ChildNatives()`childarea
    {
      forall i :: 0 <= i < |children| ==> children[i].OwnWidth(intrinsic)
    }

    /** Every child has the height its own resizeToContent gives it. */
    ghost predicate ChildrenOwnHeights(intrinsic: Widget -> (int, int))
      reads this`children, ChildNatives()`height, ChildNatives()`childarea
    {
      forall i :: 0 <= i < |children| ==> children[i].OwnHeight(intrinsic)
    }

    /**
     * A vertical box's child area is as wide as the widest of its children's own
     * widths: no child's own width exceeds it, and one child's own width meets
     * it, unless that child is a bare container, whose width before the stretch
     * is not kept. Without children the child area has width 0.
     */
    ghost predicate AreaWidthFits(intrinsic: Widget -> (int, int))
      reads this`children, native`childarea, ChildNatives()`childarea
    {
      (forall i :: 0 <= i < |children| && children[i].kind != Container ==>
        children[i].ContentWidth(intrinsic) <= native.childarea.0) &&
      (children == [] ==> native.childarea.0 == 0) &&
      (children != [] ==>
        exists i :: 0 <= i < |children| &&
          (children[i].kind == Container || children[i].ContentWidth(intrinsic) == native.childarea.0))
    }

    /** The horizontal box's counterpart of AreaWidthFits, on heights. */
    ghost predicate AreaHeightFits(intrinsic: Widget -> (int, int))
      reads this`children, native`childarea, ChildNatives()`childarea
    {
      (forall i :: 0 <= i < |children| && children[i].kind != Container ==>
        children[i].ContentHeight(intrinsic) <= native.childarea.1) &&
      (children == [] ==> native.childarea.1 == 0) &&
      (children != [] ==>
        exists i :: 0 <= i < |children| &&
          (children[i].kind == Container || children[i].ContentHeight(intrinsic) == native.childarea.1))
    }

    /**
     * With no bare container among the children, a vertical box's child area is
     * exactly as wide as the largest of the children's own widths.
     */
    lemma AreaWidthIsMax(intrinsic: Widget -> (int, int))
      requires AreaWidthFits(intrinsic)
      requires forall i :: 0 <= i < |children| ==> children[i].kind != Container
      ensures native.childarea.0 == MaxOf(ContentWidthsOf(children, intrinsic))
    {
      var s := ContentWidthsOf(children, intrinsic);
      if children != [] {
        var k :| 0 <= k < |children| && children[k].ContentWidth(intrinsic) == native.childarea.0;
        assert s[k] <= MaxOf(s);
      }
    }

    /** The horizontal box's counterpart of AreaWidthIsMax. */
    lemma AreaHeightIsMax(intrinsic: Widget -> (int, int))
      requires AreaHeightFits(intrinsic)
      requires forall i :: 0 <= i < |children| ==> children[i].kind != Container
      ensures native.childarea.1 == MaxOf(ContentHeightsOf(children, intrinsic))
    {
      var s := ContentHeightsOf(children, intrinsic);
      if children != [] {
        var k :| 0 <= k < |children| && children[k].ContentHeight(intrinsic) == native.childarea.1;
        assert s[k] <= MaxOf(s);
      }
    }

    /**
     * The sizes the children keep from their own resizeToContent once this
     * widget's has run: a vertical box stretches its children's widths to its
     * child area, which is as wide as the widest of their own widths, and keeps
     * their heights; a horizontal box does the same with the axes swapped; a
     * bare container keeps both.
     */
    ghost predicate ChildrenSized(intrinsic: Widget -> (int, int))
      reads this`children, native`childarea
      reads ChildNatives()`width, ChildNatives()`height, ChildNatives()`childarea
    {
      match kind
      case Leaf => true
      case Container => ChildrenOwnWidths(intrinsic) && ChildrenOwnHeights(intrinsic)
      case HBox => ChildrenOwnWidths(intrinsic) && AreaHeightFits(intrinsic)
      case _ => ChildrenOwnHeights(intrinsic) && AreaWidthFits(intrinsic)
    }

    /**
     * The children's own sizes survive this widget's resizeToContent when it
     * leaves their child areas and the axes it does not stretch alone.
     */
    twostate lemma ChildrenKeepOwnSize(intrinsic: Widget -> (int, int))
      requires unchanged(this`children)
      requires old(ChildrenOwnWidths(intrinsic) && ChildrenOwnHeights(intrinsic))
      requires unchanged(ChildNatives()`childarea)
      requires IsVertical() ==> unchanged(ChildNatives()`height)
      requires kind == HBox ==> unchanged(ChildNatives()`width)
      requires kind == Container ==> unchanged(ChildNatives()`width, ChildNatives()`height)
      requires IsVertical() ==> native.childarea.0 == old(MaxChildrenWidth())
      requires kind == HBox ==> native.childarea.1 == old(MaxChildrenHeight())
      ensures ChildrenSized(intrinsic)
    {
      if IsVertical() {
        forall i | 0 <= i < |children| && children[i].kind != Container
          ensures children[i].ContentWidth(intrinsic) <= native.childarea.0
        {
          assert old(children[i].Width()) <= old(MaxChildrenWidth());
        }
        if children != [] {
          var k :| 0 <= k < |children| && old(children[k].Width()) == old(MaxChildrenWidth());
          assert old(children[k].OwnWidth(intrinsic));
        }
      } else if kind == HBox {
        forall i | 0 <= i < |children| && children[i].kind != Container
          ensures children[i].ContentHeight(intrinsic) <= native.childarea.1
        {
          assert old(children[i].Height()) <= old(MaxChildrenHeight());
        }
        if children != [] {
          var k :| 0 <= k < |children| && old(children[k].Height()) == old(MaxChildrenHeight());
          assert old(children[k].OwnHeight(intrinsic));
        }
      }
    }

    /**
     * The children's positions after expandContent: a box without a spacer keeps
     * them aligned; a box with one keeps the cross axis aligned and spreads the
     * packing axis around the spacer. Leaves and bare containers place nothing.
     */
    ghost predicate Placed()
      reads this`children, this`spacer, native`width, native`height, native`childarea
      reads ChildNatives()`x, ChildNatives()`y, ChildNatives()`width, ChildNatives()`height
      reads (if spacer != null then {spacer} else {})`index
    {
      match kind
      case Leaf => true
      case Container => true
      case HBox => YAt(YStart()) && (if spacer == null then XAt(XStart()) else XSpaced())
      case _ => XAt(XStart()) && (if spacer == null then YAt(YStart()) else YSpaced())
    }

    /**
     * The part of resizeToContent that no ancestor's resizeToContent overwrites:
     * an ancestor moves a box and stretches it along one axis, but leaves the
     * box's child area and its children alone. So a box keeps its child area, the
     * stretch of its children, and children that step by their deltas on both
     * axes (from wherever the first child now starts).
     */
    ghost predicate ContentPacked()
      reads this`children, this`spacer, native`childarea
      reads ChildNatives()`x, ChildNatives()`y, ChildNatives()`width, ChildNatives()`height
    {
      AreaSized() && (kind in {VBox, HBox, Window} ==> XStepped() && YStepped())
    }

    /** The child area and the children's stretch of a box, by layout; nothing for others. */
    ghost predicate AreaSized()
      reads this`children, this`spacer, native`childarea, ChildNatives()`width, ChildNatives()`height
    {
      match kind
      case Leaf => true
      case Container => true
      case HBox => HorizontalArea()
      case _ => VerticalArea()
    }

    /** The children's x coordinates step by their xdeltas from the first child's. */
    ghost predicate XStepped()
      reads this`children, ChildNatives()`x, ChildNatives()`width
    {
      children == [] || XAt(children[0].native.x)
    }

    /** The children's y coordinates step by their ydeltas from the first child's. */
    ghost predicate YStepped()
      reads this`children, ChildNatives()`y, ChildNatives()`height
    {
      children == [] || YAt(children[0].native.y)
    }

    /** expandContent moves the children's x coordinates: an HBox with a spacer. */
    predicate MovesX()
      reads this`spacer
    {
      kind == HBox && spacer != null
    }

    /** expandContent moves the children's y coordinates: a VBox or window with a spacer. */
    predicate MovesY()
      reads this`spacer
    {
      IsVertical() && spacer != null
    }

    /** The axis expandContent moves is spread around the spacer. */
    ghost predicate Spread()
      reads this`children, this`spacer, native`width, native`height
      reads ChildNatives()`x, ChildNatives()`y, ChildNatives()`width, ChildNatives()`height
      reads (if spacer != null then {spacer} else {})`index
    {
      (MovesX() ==> XSpaced()) && (MovesY() ==> YSpaced())
    }

    /**
     * What adaptLayout leaves in every box of the tree: the child area and the
     * children's stretch of the resize pass; along an axis expandContent moves,
     * the children spread around the spacer; along any other axis, the children
     * step by their deltas.
     */
    ghost predicate Arranged()
      reads this`children, this`spacer, native`width, native`height, native`childarea
      reads ChildNatives()`x, ChildNatives()`y, ChildNatives()`width, ChildNatives()`height
      reads (if spacer != null then {spacer} else {})`index
    {
      AreaSized() &&
      (kind in {VBox, HBox, Window} ==>
        (if MovesX() then XSpaced() else XStepped()) && (if MovesY() then YSpaced() else YStepped()))
    }

    /** Aligned children step by their deltas on both axes. */
    lemma AlignedStepped()
      requires Aligned()
      ensures XStepped() && YStepped()
    {
      if children != [] {
        PositionsEnds(XStart(), XDeltas());
        PositionsEnds(YStart(), YDeltas());
      }
    }

    /**
     * The expand pass, seen from one box: if the box was content-packed before,
     * its child area and sizes are unchanged, the axis it moves is spread, and
     * its children keep the other axis, then it ends up arranged.
     */
    twostate lemma ArrangedAfterExpand(packed: bool)
      requires unchanged(this) && native.childarea == old(native.childarea)
      requires packed == old(ContentPacked()) && Spread()
      requires forall n :: n in ChildNatives() ==> n.width == old(n.width) && n.height == old(n.height)
      requires forall n :: n in ChildNatives() ==> (!MovesX() ==> n.x == old(n.x)) && (!MovesY() ==> n.y == old(n.y))
      ensures packed ==> Arranged()
    {
      assert WidthsOf(children) == old(WidthsOf(children));
      assert HeightsOf(children) == old(HeightsOf(children));
      if !MovesX() {
        assert XsOf(children) == old(XsOf(children));
      }
      if !MovesY() {
        assert YsOf(children) == old(YsOf(children));
      }
    }

    /** The state adaptLayout leaves at the root of the pass. */
    ghost predicate LaidOut(intrinsic: Widget -> (int, int))
      reads this`children, this`spacer, native`width, native`height, native`childarea
      reads ChildNatives()`x, ChildNatives()`y, ChildNatives()`width, ChildNatives()`height
      reads (if spacer != null then {spacer} else {})`index
    {
      SizedFor(intrinsic) && Placed()
    }

    /** The spacers of the boxes of this subtree. */
    ghost function Spacers(): set<Spacer>
      reads this`Repr, Repr`spacer
    {
      set w | w in Repr && w.spacer != null :: w.spacer
    }

    /**
     * Every box of this subtree is content-packed. The predicate does not read
     * this widget's own position or size, which the parent's pass changes.
     */
    ghost predicate AllContentPacked()
      requires Valid()
      reads this`children, this`spacer, this`Repr, this`NRepr, this`Slot,
        Repr`children, Repr`spacer, Repr`Repr, Repr`NRepr, Repr`Slot, NRepr`childarea
      reads (NRepr - {native})`x, (NRepr - {native})`y, (NRepr - {native})`width, (NRepr - {native})`height
      decreases Repr
    {
      ChildNativesInRepr();
      ContentPacked() && forall i :: 0 <= i < |children| ==> children[i].AllContentPacked()
    }

    /**
     * Every widget of this subtree below it keeps, along the axis its parent
     * does not stretch, the size its own resizeToContent gave it. The predicate
     * does not read this widget's own size, which the parent's pass changes.
     */
    ghost predicate AllSized(intrinsic: Widget -> (int, int))
      requires Valid()
      reads this`children, this`Repr, this`NRepr, this`Slot,
        Repr`children, Repr`Repr, Repr`NRepr, Repr`Slot, NRepr`childarea
      reads (NRepr - {native})`width, (NRepr - {native})`height
      decreases Repr
    {
      ChildNativesInRepr();
      ChildrenSized(intrinsic) && forall i :: 0 <= i < |children| ==> children[i].AllSized(intrinsic)
    }

    /**
     * Every box of this subtree is arranged. The predicate does not read this
     * widget's own position, which the parent's expandContent changes.
     */
    ghost predicate AllArranged()
      requires Valid()
      reads this`children, this`spacer, this`Repr, this`NRepr, this`Slot,
        Repr`children, Repr`spacer, Repr`Repr, Repr`NRepr, Repr`Slot, Spacers()`index, NRepr`width, NRepr`height, NRepr`childarea
      reads (NRepr - {native})`x, (NRepr - {native})`y
      decreases Repr
    {
      ChildNativesInRepr();
      Arranged() && forall i :: 0 <= i < |children| ==> children[i].AllArranged()
    }

    // -------------------------------------------------------------------
    // Layout: the placement loops

    /**
     * The placement loop of `_adjustWidth` and `_expandWidthSpacer`: the children
     * lo..hi-1 get the x coordinates start, start + deltas[0], ... in turn, and
     * every other child keeps its x coordinate. The callers pass the children's
     * xdelta values, which no placement changes.
     */
    method PlaceXs(lo: nat, hi: nat, start: int, deltas: seq<int>)
      requires lo <= hi <= |children| && |deltas| == hi - lo && LocalOk()
      modifies ChildNatives()`x
      ensures forall k :: lo <= k < hi ==> children[k].native.x == Positions(start, deltas)[k - lo]
      ensures forall k :: 0 <= k < |children| && !(lo <= k < hi) ==> children[k].native.x == old(children[k].native.x)
    {
      ghost var placed: seq<int> := [];
      var x := start;
      var i := lo;
      while i < hi
        invariant lo <= i <= hi && |placed| == i - lo
        invariant placed == Positions(start, deltas[..i - lo])
        invariant x == start + Sum(deltas[..i - lo])
        invariant forall k :: lo <= k < i ==> children[k].native.x == placed[k - lo]
        invariant forall k :: 0 <= k < |children| && !(lo <= k < i) ==> children[k].native.x == old(children[k].native.x)
      {
        children[i].SetX(x);
        PositionsSnoc(start, deltas, i - lo);
        placed := placed + [x];
        x := x + deltas[i - lo];
        i := i + 1;
      }
      assert deltas[..hi - lo] == deltas;
    }

    /** The vertical counterpart of PlaceXs, used by `_adjustHeight` and `_expandHeightSpacer`. */
    method PlaceYs(lo: nat, hi: nat, start: int, deltas: seq<int>)
      requires lo <= hi <= |children| && |deltas| == hi - lo && LocalOk()
      modifies ChildNatives()`y
      ensures forall k :: lo <= k < hi ==> children[k].native.y == Positions(start, deltas)[k - lo]
      ensures forall k :: 0 <= k < |children| && !(lo <= k < hi) ==> children[k].native.y == old(children[k].native.y)
    {
      ghost var placed: seq<int> := [];
      var y := start;
      var i := lo;
      while i < hi
        invariant lo <= i <= hi && |placed| == i - lo
        invariant placed == Positions(start, deltas[..i - lo])
        invariant y == start + Sum(deltas[..i - lo])
        invariant forall k :: lo <= k < i ==> children[k].native.y == placed[k - lo]
        invariant forall k :: 0 <= k < |children| && !(lo <= k < i) ==> children[k].native.y == old(children[k].native.y)
      {
        children[i].SetY(y);
        PositionsSnoc(start, deltas, i - lo);
        placed := placed + [y];
        y := y + deltas[i - lo];
        i := i + 1;
      }
      assert deltas[..hi - lo] == deltas;
    }

    /**
     * _adjustWidth: a left-aligned box keeps its children where they are; any
     * other box restarts them at the right or centre offset, stepping by xdelta.
     */
    method AdjustWidth()
      requires LocalOk()
      modifies ChildNatives()`x
      ensures align.0 != AlignLeft ==> XAt(XStart())
      ensures old(XAt(margins.0 + native.borderSize)) ==> XAt(XStart())
    {
      if align.0 == AlignLeft {
        return;
      }
      var offset := Width() - native.childarea.0 - native.borderSize - margins.0;
      var x := if align.0 == AlignRight then offset else offset / 2;
      assert x == XStart();
      var deltas := XDeltas();
      PlaceXs(0, |children|, x, deltas);
      assert XDeltas() == deltas && XStart() == x;
      XsAre(children, Positions(x, deltas));
    }

    /**
     * _adjustHeight: a top-aligned box keeps its children where they are; any
     * other box restarts them at the bottom or centre offset, stepping by ydelta.
     */
    method AdjustHeight()
      requires LocalOk()
      modifies ChildNatives()`y
      ensures align.1 != AlignTop ==> YAt(YStart())
      ensures old(YAt(margins.1 + native.borderSize)) ==> YAt(YStart())
    {
      if align.1 == AlignTop {
        return;
      }
      var offset := Height() - native.childarea.1 - native.borderSize - margins.1;
      var y := if align.1 == AlignBottom then offset else offset / 2;
      assert y == YStart();
      var deltas := YDeltas();
      PlaceYs(0, |children|, y, deltas);
      assert YDeltas() == deltas && YStart() == y;
      YsAre(children, Positions(y, deltas));
    }

    /**
     * The alignment step of resizeToContent: `_adjustHeight`, then `_adjustWidth`.
     * Children packed from the leading corner end up aligned; no size changes.
     */
    method AlignChildren()
      requires LocalOk() && Packed()
      modifies ChildNatives()`x, ChildNatives()`y
      ensures Aligned()
    {
      AdjustHeight();
      assert XAt(margins.0 + native.borderSize);
      ghost var y0 := YStart();
      AdjustWidth();
      assert YAt(y0) && y0 == YStart();
    }

    // -------------------------------------------------------------------
    // Layout: resizeToContent

    /**
     * The loop of VBoxLayoutMixin.resizeToContent: every child is placed at
     * (x, cursor) and stretched to `width`, and the cursor advances by the child's
     * height plus padding, which the caller passes as `deltas` (the loop changes
     * no height).
     */
    method StackChildren(x: int, start: int, width: int, deltas: seq<int>) returns (y: int)
      requires |deltas| == |children| && LocalOk()
      modifies ChildNatives()`x, ChildNatives()`y, ChildNatives()`width
      ensures y == start + Sum(deltas)
      ensures forall k :: 0 <= k < |children| ==>
        children[k].native.x == x && children[k].native.y == Positions(start, deltas)[k] &&
        children[k].Width() == Clamp(width, children[k].minSize.0, children[k].maxSize.0)
    {
      ghost var placed: seq<int> := [];
      y := start;
      var i := 0;
      while i < |children|
        invariant 0 <= i <= |children| && |placed| == i
        invariant placed == Positions(start, deltas[..i])
        invariant y == start + Sum(deltas[..i])
        invariant forall k :: 0 <= k < i ==> children[k].native.x == x && children[k].native.y == placed[k]
        invariant forall k :: 0 <= k < i ==>
          children[k].Width() == Clamp(width, children[k].minSize.0, children[k].maxSize.0)
      {
        children[i].SetX(x);
        children[i].SetY(y);
        children[i].SetWidth(width);
        PositionsSnoc(start, deltas, i);
        placed := placed + [y];
        y := y + deltas[i];
        i := i + 1;
      }
      assert deltas[..|children|] == deltas;
    }

    /**
     * The loop of HBoxLayoutMixin.resizeToContent: every child is placed at
     * (cursor, y) and stretched to `height`, and the cursor advances by the child's
     * width plus padding, passed as `deltas`.
     */
    method RowChildren(start: int, y: int, height: int, deltas: seq<int>) returns (x: int)
      requires |deltas| == |children| && LocalOk()
      modifies ChildNatives()`x, ChildNatives()`y, ChildNatives()`height
      ensures x == start + Sum(deltas)
      ensures forall k :: 0 <= k < |children| ==>
        children[k].native.y == y && children[k].native.x == Positions(start, deltas)[k] &&
        children[k].Height() == Clamp(height, children[k].minSize.1, children[k].maxSize.1)
    {
      ghost var placed: seq<int> := [];
      x := start;
      var i := 0;
      while i < |children|
        invariant 0 <= i <= |children| && |placed| == i
        invariant placed == Positions(start, deltas[..i])
        invariant x == start + Sum(deltas[..i])
        invariant forall k :: 0 <= k < i ==> children[k].native.y == y && children[k].native.x == placed[k]
        invariant forall k :: 0 <= k < i ==>
          children[k].Height() == Clamp(height, children[k].minSize.1, children[k].maxSize.1)
      {
        children[i].SetX(x);
        children[i].SetY(y);
        children[i].SetHeight(height);
        PositionsSnoc(start, deltas, i);
        placed := placed + [x];
        x := x + deltas[i];
        i := i + 1;
      }
      assert deltas[..|children|] == deltas;
    }

    /**
     * The end of the packing loop of a vertical box: with the cursor at `y` and
     * the children stretched to `maxW`, the box gets the cursor's height (less one
     * padding, plus the margin) and the width of the child area plus `x` on each
     * side.
     */
    method SizeVertical(x: int, y: int, maxW: int)
      modifies native`width, native`height, native`childarea
      ensures Height() == Clamp(y + margins.1 - padding, minSize.1, maxSize.1)
      ensures Width() == Clamp(maxW + 2 * x, minSize.0, maxSize.0)
      ensures native.childarea == (maxW, y - padding - margins.1)
    {
      SetHeight(y + margins.1 - padding);
      SetWidth(maxW + 2 * x);
      native.childarea := (maxW, y - padding - margins.1);
    }

    /** The end of the packing loop of a horizontal box, with the axes swapped. */
    method SizeHorizontal(x: int, y: int, maxH: int)
      modifies native`width, native`height, native`childarea
      ensures Width() == Clamp(x + margins.0 - padding, minSize.0, maxSize.0)
      ensures Height() == Clamp(maxH + 2 * y, minSize.1, maxSize.1)
      ensures native.childarea == (x - margins.0 - padding, maxH)
    {
      SetWidth(x + margins.0 - padding);
      SetHeight(maxH + 2 * y);
      native.childarea := (x - margins.0 - padding, maxH);
    }

    /**
     * The packing part of VBoxLayoutMixin.resizeToContent: stack the children,
     * stretch each to `maxW`, and size the box and its child area.
     */
    method PackVertical(maxW: int)
      requires IsVertical() && LocalOk()
      modifies native`width, native`height, native`childarea
      modifies ChildNatives()`x, ChildNatives()`y, ChildNatives()`width
      ensures VerticalSized() && Packed() && native.childarea.0 == maxW
    {
      var x := margins.0 + native.borderSize;
      var y := margins.1 + native.borderSize;
      ghost var y0 := y;
      var ydelta := YDeltas();
      y := StackChildren(x, y, maxW, ydelta);
      y := y + SpacerExtra();
      SizeVertical(x, y, maxW);
      VerticalPackedFrom(y0, y, maxW, ydelta);
    }

    /** The facts the vertical packing leaves make up VerticalSized and Packed. */
    lemma VerticalPackedFrom(y0: int, yEnd: int, maxW: int, ydelta: seq<int>)
      requires IsVertical() && |ydelta| == |children|
      requires y0 == margins.1 + native.borderSize && ydelta == YDeltas()
      requires yEnd == y0 + Sum(ydelta) + SpacerExtra()
      requires forall k :: 0 <= k < |children| ==>
        children[k].native.x == margins.0 + native.borderSize && children[k].native.y == Positions(y0, ydelta)[k] &&
        children[k].Width() == Clamp(maxW, children[k].minSize.0, children[k].maxSize.0)
      requires Height() == Clamp(yEnd + margins.1 - padding, minSize.1, maxSize.1)
      requires Width() == Clamp(maxW + 2 * (margins.0 + native.borderSize), minSize.0, maxSize.0)
      requires native.childarea == (maxW, yEnd - padding - margins.1)
      ensures VerticalSized() && Packed()
    {
      YsAre(children, Positions(y0, ydelta));
      XsAre(children, Repeat(margins.0 + native.borderSize, |children|));
      PositionsOfZeros(margins.0 + native.borderSize, |children|);
    }

    /**
     * The packing part of HBoxLayoutMixin.resizeToContent: pack the children left
     * to right, stretch each to `maxH`, and size the box and its child area.
     */
    method PackHorizontal(maxH: int)
      requires kind == HBox && LocalOk()
      modifies native`width, native`height, native`childarea
      modifies ChildNatives()`x, ChildNatives()`y, ChildNatives()`height
      ensures HorizontalSized() && Packed() && native.childarea.1 == maxH
    {
      var x := margins.0 + native.borderSize;
      var y := margins.1 + native.borderSize;
      ghost var x0 := x;
      var xdelta := XDeltas();
      x := RowChildren(x, y, maxH, xdelta);
      x := x + SpacerExtra();
      SizeHorizontal(x, y, maxH);
      HorizontalPackedFrom(x0, x, maxH, xdelta);
    }

    /** The facts the horizontal packing leaves make up HorizontalSized and Packed. */
    lemma HorizontalPackedFrom(x0: int, xEnd: int, maxH: int, xdelta: seq<int>)
      requires kind == HBox && |xdelta| == |children|
      requires x0 == margins.0 + native.borderSize && xdelta == XDeltas()
      requires xEnd == x0 + Sum(xdelta) + SpacerExtra()
      requires forall k :: 0 <= k < |children| ==>
        children[k].native.y == margins.1 + native.borderSize && children[k].native.x == Positions(x0, xdelta)[k] &&
        children[k].Height() == Clamp(maxH, children[k].minSize.1, children[k].maxSize.1)
      requires Width() == Clamp(xEnd + margins.0 - padding, minSize.0, maxSize.0)
      requires Height() == Clamp(maxH + 2 * (margins.1 + native.borderSize), minSize.1, maxSize.1)
      requires native.childarea == (xEnd - margins.0 - padding, maxH)
      ensures HorizontalSized() && Packed()
    {
      XsAre(children, Positions(x0, xdelta));
      YsAre(children, Repeat(margins.1 + native.borderSize, |children|));
      PositionsOfZeros(margins.1 + native.borderSize, |children|);
    }

    /**
     * VBoxLayoutMixin.resizeToContent (also the Window's): pack the children to
     * the widest child, then apply the vertical and horizontal alignment.
     */
    method ResizeVertical()
      requires IsVertical() && LocalOk()
      modifies native`width, native`height, native`childarea
      modifies ChildNatives()`x, ChildNatives()`y, ChildNatives()`width
      ensures VerticalSized() && Aligned()
      ensures native.childarea.0 == old(MaxChildrenWidth())
      ensures unchanged(ChildNatives()`height)
    {
      var maxW := MaxChildrenWidth();
      PackVertical(maxW);
      ghost var sized := VerticalSized();
      AlignChildren();
      assert VerticalSized() == sized;
    }

    /**
     * HBoxLayoutMixin.resizeToContent: pack the children to the tallest child,
     * then apply the alignment.
     */
    method ResizeHorizontal()
      requires kind == HBox && LocalOk()
      modifies native`width, native`height, native`childarea
      modifies ChildNatives()`x, ChildNatives()`y, ChildNatives()`height
      ensures HorizontalSized() && Aligned()
      ensures native.childarea.1 == old(MaxChildrenHeight())
      ensures unchanged(ChildNatives()`width)
    {
      var maxH := MaxChildrenHeight();
      PackHorizontal(maxH);
      ghost var sized := HorizontalSized();
      AlignChildren();
      assert HorizontalSized() == sized;
    }

    /**
     * A vertical box's resizeToContent seen from its children: children that had
     * their own sizes keep their heights, and the child area is as wide as the
     * widest of their own widths.
     */
    method ResizeVerticalSized(ghost intrinsic: Widget -> (int, int))
      requires IsVertical() && LocalOk()
      modifies native`width, native`height, native`childarea
      modifies ChildNatives()`x, ChildNatives()`y, ChildNatives()`width
      ensures VerticalSized() && Aligned()
      ensures native.childarea.0 == old(MaxChildrenWidth())
      ensures old(ChildrenOwnWidths(intrinsic) && ChildrenOwnHeights(intrinsic)) ==> ChildrenSized(intrinsic)
    {
      ResizeVertical();
      if old(ChildrenOwnWidths(intrinsic) && ChildrenOwnHeights(intrinsic)) {
        ChildrenKeepOwnSize(intrinsic);
      }
    }

    /** The horizontal box's counterpart of ResizeVerticalSized, with the axes swapped. */
    method ResizeHorizontalSized(ghost intrinsic: Widget -> (int, int))
      requires kind == HBox && LocalOk()
      modifies native`width, native`height, native`childarea
      modifies ChildNatives()`x, ChildNatives()`y, ChildNatives()`height
      ensures HorizontalSized() && Aligned()
      ensures native.childarea.1 == old(MaxChildrenHeight())
      ensures old(ChildrenOwnWidths(intrinsic) && ChildrenOwnHeights(intrinsic)) ==> ChildrenSized(intrinsic)
    {
      ResizeHorizontal();
      if old(ChildrenOwnWidths(intrinsic) && ChildrenOwnHeights(intrinsic)) {
        ChildrenKeepOwnSize(intrinsic);
      }
    }

    /** A text or list widget's resizeToContent: request its intrinsic content size. */
    method ResizeLeaf(intrinsic: Widget -> (int, int))
      modifies native`width, native`height
      ensures LeafSized(intrinsic)
    {
      SetHeight(intrinsic(this).1);
      SetWidth(intrinsic(this).0);
    }

    // -------------------------------------------------------------------
    // Layout: expandContent

    /**
     * _expandHeightSpacer: the children before the spacer's index are packed
     * downwards from border plus margin; the rest restart so that the cursor ends
     * at the box's height less border and margin. Only y coordinates change.
     */
    method ExpandHeightSpacer()
      requires spacer != null && LocalOk()
      modifies ChildNatives()`y
      ensures YSpaced()
    {
      var lead := native.borderSize + margins.1;
      var ydelta := YDeltas();
      var k := SpacerSplit();
      PlaceYs(0, k, lead, ydelta[..k]);
      var y := Height() - Sum(ydelta[k..]) - native.borderSize - margins.1;
      PlaceYs(k, |children|, y, ydelta[k..]);
      YSpacedFrom(lead, y, ydelta, k);
    }

    /** The two placement loops of `_expandHeightSpacer` make up YSpaced. */
    lemma YSpacedFrom(lead: int, start: int, ydelta: seq<int>, k: nat)
      requires spacer != null && ydelta == YDeltas() && k == SpacerSplit()
      requires lead == native.borderSize + margins.1
      requires start == Height() - Sum(ydelta[k..]) - native.borderSize - margins.1
      requires forall i :: 0 <= i < k ==> children[i].native.y == Positions(lead, ydelta[..k])[i - 0]
      requires forall i :: k <= i < |children| ==> children[i].native.y == Positions(start, ydelta[k..])[i - k]
      ensures YSpaced()
    {
      YsAre(children, SpacerPositions(Height(), lead, ydelta, k));
    }

    /** _expandWidthSpacer: `_expandHeightSpacer` with the axes swapped. */
    method ExpandWidthSpacer()
      requires spacer != null && LocalOk()
      modifies ChildNatives()`x
      ensures XSpaced()
    {
      var lead := native.borderSize + margins.0;
      var xdelta := XDeltas();
      var k := SpacerSplit();
      PlaceXs(0, k, lead, xdelta[..k]);
      var x := Width() - Sum(xdelta[k..]) - native.borderSize - margins.0;
      PlaceXs(k, |children|, x, xdelta[k..]);
      XSpacedFrom(lead, x, xdelta, k);
    }

    /** The two placement loops of `_expandWidthSpacer` make up XSpaced. */
    lemma XSpacedFrom(lead: int, start: int, xdelta: seq<int>, k: nat)
      requires spacer != null && xdelta == XDeltas() && k == SpacerSplit()
      requires lead == native.borderSize + margins.0
      requires start == Width() - Sum(xdelta[k..]) - native.borderSize - margins.0
      requires forall i :: 0 <= i < k ==> children[i].native.x == Positions(lead, xdelta[..k])[i - 0]
      requires forall i :: k <= i < |children| ==> children[i].native.x == Positions(start, xdelta[k..])[i - k]
      ensures XSpaced()
    {
      XsAre(children, SpacerPositions(Width(), lead, xdelta, k));
    }

    // -------------------------------------------------------------------
    // The per-widget passes and their recursive application

    /**
     * resizeToContent, dispatched on the wrapper class: a leaf takes its content
     * size, a bare container does nothing, a box packs and aligns its children.
     * Children that had their own sizes keep them along the axes this widget
     * does not stretch, and a box's child area spans the largest of them across.
     */
    method ResizeToContent(intrinsic: Widget -> (int, int))
      requires LocalOk()
      modifies native`width, native`height, native`childarea
      modifies ChildNatives()`x, ChildNatives()`y, ChildNatives()`width, ChildNatives()`height
      ensures Resized(intrinsic) && ContentPacked()
      ensures kind == Container ==> native.width == old(native.width) && native.height == old(native.height)
      ensures kind == Container ==> native.childarea == old(native.childarea)
      ensures old(ChildrenOwnWidths(intrinsic) && ChildrenOwnHeights(intrinsic)) ==> ChildrenSized(intrinsic)
    {
      match kind {
        case Leaf => ResizeLeaf(intrinsic);
        case Container =>
        case HBox => ResizeHorizontalSized(intrinsic);
        case _ => ResizeVerticalSized(intrinsic);
      }
      if kind in {VBox, HBox, Window} {
        AlignedStepped();
      }
    }

    /**
     * expandContent, dispatched on the wrapper class: only a box with a spacer
     * moves its children, and only along its packing axis, which it spreads around
     * the spacer; every other widget changes nothing. Aligned children end up placed.
     */
    method ExpandContent()
      requires LocalOk()
      modifies ChildNatives()`x, ChildNatives()`y
      ensures Spread()
      ensures !MovesX() ==> forall n :: n in ChildNatives() ==> n.x == old(n.x)
      ensures !MovesY() ==> forall n :: n in ChildNatives() ==> n.y == old(n.y)
      ensures old(Aligned()) ==> Placed()
    {
      if spacer != null {
        if kind == HBox {
          ExpandHorizontal();
        } else if IsVertical() {
          ExpandVertical();
        }
      }
    }

    /** VBoxLayoutMixin.expandContent with a spacer: the x coordinates stay. */
    method ExpandVertical()
      requires kind in {VBox, Window} && spacer != null && LocalOk()
      modifies ChildNatives()`y
      ensures Spread()
      ensures unchanged(ChildNatives()`x)
      ensures old(XAt(XStart())) ==> Placed()
    {
      ghost var aligned := XAt(XStart());
      ExpandHeightSpacer();
      if aligned {
        assert XAt(XStart());
        SpacedPlaced();
      }
    }

    /** HBoxLayoutMixin.expandContent with a spacer: the y coordinates stay. */
    method ExpandHorizontal()
      requires kind == HBox && spacer != null && LocalOk()
      modifies ChildNatives()`x
      ensures Spread()
      ensures unchanged(ChildNatives()`y)
      ensures old(YAt(YStart())) ==> Placed()
    {
      ghost var aligned := YAt(YStart());
      ExpandWidthSpacer();
      if aligned {
        assert YAt(YStart());
        SpacedPlaced();
      }
    }

    /** A box with a spacer whose packing axis is spread and cross axis aligned is placed. */
    lemma SpacedPlaced()
      requires kind in {VBox, HBox, Window} && spacer != null
      requires kind == HBox ==> YAt(YStart()) && XSpaced()
      requires kind != HBox ==> XAt(XStart()) && YSpaced()
      ensures Placed()
    {
    }

    /**
     * Each child's native widget is the only one of the children's natives inside
     * that child's native footprint.
     */
    lemma ChildNativesApart()
      requires Valid()
      ensures forall j :: 0 <= j < |children| ==> ChildNatives() !! children[j].NRepr - {children[j].native}
    {
      forall j, n | 0 <= j < |children| && n in ChildNatives() && n in children[j].NRepr
        ensures n == children[j].native
      {
        var k :| 0 <= k < |children| && children[k].native == n;
        assert n in children[k].NRepr;
      }
    }

    /** The native footprints of the children lo..hi-1, below this widget's native widget. */
    ghost function SiblingsNRepr(lo: nat, hi: nat): (r: set<NativeWidget>)
      requires Valid() && lo <= hi <= |children|
      reads this`children, this`spacer, this`Repr, this`NRepr, this`Slot,
        Repr`children, Repr`spacer, Repr`Repr, Repr`NRepr, Repr`Slot
      ensures r <= NRepr - {native}
      decreases hi
    {
      if hi == lo then {} else SiblingsNRepr(lo, hi - 1) + children[hi - 1].NRepr
    }

    /** The native footprints of a range of children miss those of any other child. */
    lemma {:induction false} SiblingsNReprApart(lo: nat, hi: nat, m: nat)
      requires Valid() && lo <= hi <= |children| && m < |children| && !(lo <= m < hi)
      ensures SiblingsNRepr(lo, hi) !! children[m].NRepr
      decreases hi
    {
      if hi > lo {
        SiblingsNReprApart(lo, hi - 1, m);
        assert hi - 1 < m ==> children[hi - 1].NRepr !! children[m].NRepr;
        assert m < hi - 1 ==> children[m].NRepr !! children[hi - 1].NRepr;
      }
    }

    /** Every box of the children lo..hi-1's subtrees is content-packed. */
    ghost predicate SiblingsContentPacked(lo: nat, hi: nat)
      requires Valid() && lo <= hi <= |children|
      reads this`children, this`spacer, this`Repr, this`NRepr, this`Slot,
        Repr`children, Repr`spacer, Repr`Repr, Repr`NRepr, Repr`Slot, SiblingsNRepr(lo, hi)`childarea
      reads (SiblingsNRepr(lo, hi) - ChildNatives())`x, (SiblingsNRepr(lo, hi) - ChildNatives())`y
      reads (SiblingsNRepr(lo, hi) - ChildNatives())`width, (SiblingsNRepr(lo, hi) - ChildNatives())`height
      decreases hi
    {
      ChildNativesApart();
      hi == lo || (SiblingsContentPacked(lo, hi - 1) && children[hi - 1].AllContentPacked())
    }

    /** Every box of the children lo..hi-1's subtrees is arranged. */
    ghost predicate SiblingsArranged(lo: nat, hi: nat)
      requires Valid() && lo <= hi <= |children|
      reads this`children, this`spacer, this`Repr, this`NRepr, this`Slot,
        Repr`children, Repr`spacer, Repr`Repr, Repr`NRepr, Repr`Slot, Spacers()`index
      reads SiblingsNRepr(lo, hi)`width, SiblingsNRepr(lo, hi)`height, SiblingsNRepr(lo, hi)`childarea
      reads (SiblingsNRepr(lo, hi) - ChildNatives())`x, (SiblingsNRepr(lo, hi) - ChildNatives())`y
      decreases hi
    {
      ChildNativesApart();
      hi == lo || (SiblingsArranged(lo, hi - 1) && children[hi - 1].AllArranged())
    }

    /** Every widget below the children lo..hi-1 keeps its own size (AllSized). */
    ghost predicate SiblingsSized(intrinsic: Widget -> (int, int), lo: nat, hi: nat)
      requires Valid() && lo <= hi <= |children|
      reads this`children, this`spacer, this`Repr, this`NRepr, this`Slot,
        Repr`children, Repr`spacer, Repr`Repr, Repr`NRepr, Repr`Slot, SiblingsNRepr(lo, hi)`childarea
      reads (SiblingsNRepr(lo, hi) - ChildNatives())`width, (SiblingsNRepr(lo, hi) - ChildNatives())`height
      decreases hi
    {
      ChildNativesApart();
      hi == lo || (SiblingsSized(intrinsic, lo, hi - 1) && children[hi - 1].AllSized(intrinsic))
    }

    /**
     * The children lo..hi-1 as their own resize pass leaves them: each sized for
     * its content, with every widget below it keeping its own size.
     */
    ghost predicate SiblingsResized(intrinsic: Widget -> (int, int), lo: nat, hi: nat)
      requires Valid() && lo <= hi <= |children|
      reads this`children, this`spacer, this`Repr, this`NRepr, this`Slot,
        Repr`children, Repr`spacer, Repr`Repr, Repr`NRepr, Repr`Slot
      reads SiblingsNRepr(lo, hi)`width, SiblingsNRepr(lo, hi)`height, SiblingsNRepr(lo, hi)`childarea
      decreases hi
    {
      if hi == lo then true
      else
        children[hi - 1].ChildNativesInRepr();
        SiblingsResized(intrinsic, lo, hi - 1) && children[hi - 1].SizedFor(intrinsic) && children[hi - 1].AllSized(intrinsic)
    }

    /** SiblingsSized is the property of each child in the range. */
    lemma {:induction false} SiblingsSizedEach(intrinsic: Widget -> (int, int), lo: nat, hi: nat)
      requires Valid() && lo <= hi <= |children|
      ensures SiblingsSized(intrinsic, lo, hi) <==> forall j :: lo <= j < hi ==> children[j].AllSized(intrinsic)
      decreases hi
    {
      if hi > lo {
        SiblingsSizedEach(intrinsic, lo, hi - 1);
      }
    }

    /** Resized children are sized for their content and keep the sizes below them. */
    lemma {:induction false} SiblingsResizedEach(intrinsic: Widget -> (int, int), lo: nat, hi: nat)
      requires Valid() && lo <= hi <= |children| && SiblingsResized(intrinsic, lo, hi)
      ensures SiblingsSized(intrinsic, lo, hi)
      ensures forall j :: lo <= j < hi ==> children[j].SizedFor(intrinsic)
      decreases hi
    {
      if hi > lo {
        SiblingsResizedEach(intrinsic, lo, hi - 1);
      }
    }

    /** Children their own resize pass left are sized for their content. */
    lemma ResizedChildrenOwnSized(intrinsic: Widget -> (int, int))
      requires Valid() && SiblingsResized(intrinsic, 0, |children|)
      ensures SiblingsSized(intrinsic, 0, |children|) && ChildrenOwnWidths(intrinsic) && ChildrenOwnHeights(intrinsic)
    {
      SiblingsResizedEach(intrinsic, 0, |children|);
      forall i | 0 <= i < |children|
        ensures children[i].OwnWidth(intrinsic) && children[i].OwnHeight(intrinsic)
      {
        children[i].SizedOwn(intrinsic);
      }
    }

    /** SiblingsContentPacked is the property of each child in the range. */
    lemma {:induction false} SiblingsContentPackedEach(lo: nat, hi: nat)
      requires Valid() && lo <= hi <= |children|
      ensures SiblingsContentPacked(lo, hi) <==> forall j :: lo <= j < hi ==> children[j].AllContentPacked()
      decreases hi
    {
      if hi > lo {
        SiblingsContentPackedEach(lo, hi - 1);
      }
    }

    /** SiblingsArranged is the property of each child in the range. */
    lemma {:induction false} SiblingsArrangedEach(lo: nat, hi: nat)
      requires Valid() && lo <= hi <= |children|
      ensures SiblingsArranged(lo, hi) <==> forall j :: lo <= j < hi ==> children[j].AllArranged()
      decreases hi
    {
      if hi > lo {
        SiblingsArrangedEach(lo, hi - 1);
      }
    }

    /**
     * _recursiveResizeToContent: resizeToContent applied through `_deepApply`,
     * the children's subtrees first and this widget last. The root ends resized,
     * and every box of the tree keeps the part of its own resize that its
     * ancestors' resizes do not overwrite.
     */
    method DeepResize(intrinsic: Widget -> (int, int))
      requires Valid()
      modifies NRepr`x, NRepr`y, NRepr`width, NRepr`height, NRepr`childarea
      ensures Resized(intrinsic) && AllContentPacked() && AllSized(intrinsic)
      decreases Repr, 2
    {
      ResizeChildren(intrinsic);
      ChildNativesInRepr();
      ResizeOwnSized(intrinsic);
      SiblingsContentPackedEach(0, |children|);
      SiblingsSizedEach(intrinsic, 0, |children|);
    }

    /**
     * This widget's own resizeToContent, once its children's subtrees are
     * resized: the children keep their own sizes along the axes it does not
     * stretch, and the widgets below them keep theirs.
     */
    method ResizeOwnSized(intrinsic: Widget -> (int, int))
      requires Valid() && SiblingsContentPacked(0, |children|) && SiblingsResized(intrinsic, 0, |children|)
      modifies native`width, native`height, native`childarea
      modifies ChildNatives()`x, ChildNatives()`y, ChildNatives()`width, ChildNatives()`height
      ensures Valid() && Resized(intrinsic) && ContentPacked() && SiblingsContentPacked(0, |children|)
      ensures ChildrenSized(intrinsic) && SiblingsSized(intrinsic, 0, |children|)
    {
      ResizedChildrenOwnSized(intrinsic);
      ResizeOwn(intrinsic, true);
      SiblingsSizedKept((0, |children|, intrinsic));
    }

    /**
     * This widget's own resizeToContent, once its children's subtrees are
     * packed: it moves the children's natives and sizes this one, and leaves
     * the rest of every child's subtree as it was.
     */
    method ResizeOwn(intrinsic: Widget -> (int, int), ghost own: bool)
      requires Valid() && SiblingsContentPacked(0, |children|)
      requires own == (ChildrenOwnWidths(intrinsic) && ChildrenOwnHeights(intrinsic))
      modifies native`width, native`height, native`childarea
      modifies ChildNatives()`x, ChildNatives()`y, ChildNatives()`width, ChildNatives()`height
      ensures Valid() && Resized(intrinsic) && ContentPacked() && SiblingsContentPacked(0, |children|)
      ensures own ==> ChildrenSized(intrinsic)
    {
      ChildNativesInRepr();
      assert native !in SiblingsNRepr(0, |children|);
      ResizeToContent(intrinsic);
      SiblingsPackedKept((0, |children|));
    }

    /**
     * Moving the children's native widgets and resizing this one leaves the
     * rest of the children's subtrees, and so their packing, as it was.
     */
    twostate lemma {:induction false} SiblingsPackedKept(r: (nat, nat))
      requires old(Valid()) && unchanged(old(Repr))
      requires r.0 <= r.1 <= |children|
      requires forall n :: n in old(SiblingsNRepr(r.0, r.1)) ==> n.childarea == old(n.childarea)
      requires forall n :: n in old(SiblingsNRepr(r.0, r.1)) && n !in ChildNatives() ==> unchanged(n)
      ensures Valid() && SiblingsNRepr(r.0, r.1) == old(SiblingsNRepr(r.0, r.1))
      ensures SiblingsContentPacked(r.0, r.1) == old(SiblingsContentPacked(r.0, r.1))
      decreases r.1
    {
      if r.1 > r.0 {
        SiblingsPackedKept((r.0, r.1 - 1));
        ChildNativesApart();
      }
    }

    /**
     * Moving and resizing the children's native widgets leaves the rest of the
     * children's subtrees, and so the sizes kept below them, as they were.
     */
    twostate lemma {:induction false} SiblingsSizedKept(r: (nat, nat, Widget -> (int, int)))
      requires old(Valid()) && unchanged(old(Repr))
      requires r.0 <= r.1 <= |children|
      requires forall n :: n in old(SiblingsNRepr(r.0, r.1)) ==> n.childarea == old(n.childarea)
      requires forall n :: n in old(SiblingsNRepr(r.0, r.1)) && n !in ChildNatives() ==> unchanged(n)
      ensures Valid() && SiblingsNRepr(r.0, r.1) == old(SiblingsNRepr(r.0, r.1))
      ensures SiblingsSized(r.2, r.0, r.1) == old(SiblingsSized(r.2, r.0, r.1))
      decreases r.1
    {
      if r.1 > r.0 {
        SiblingsSizedKept((r.0, r.1 - 1, r.2));
        ChildNativesApart();
      }
    }

    /** Children whose native footprints do not change stay as their resize left them. */
    twostate lemma {:induction false} SiblingsResizedKept(r: (nat, nat, Widget -> (int, int)))
      requires old(Valid()) && unchanged(old(Repr))
      requires r.0 <= r.1 <= |children|
      requires unchanged(old(SiblingsNRepr(r.0, r.1)))
      ensures Valid() && SiblingsNRepr(r.0, r.1) == old(SiblingsNRepr(r.0, r.1))
      ensures SiblingsResized(r.2, r.0, r.1) == old(SiblingsResized(r.2, r.0, r.1))
      decreases r.1
    {
      if r.1 > r.0 {
        SiblingsResizedKept((r.0, r.1 - 1, r.2));
        children[r.1 - 1].ChildNativesInRepr();
      }
    }

    /**
     * Moving the children's native widgets leaves the rest of the children's
     * subtrees, and so their arrangement, as it was.
     */
    twostate lemma {:induction false} SiblingsArrangedKept(r: (nat, nat))
      requires old(Valid()) && unchanged(old(Repr))
      requires unchanged(old(Spacers())`index) && r.0 <= r.1 <= |children|
      requires forall n :: n in old(SiblingsNRepr(r.0, r.1)) ==>
        n.width == old(n.width) && n.height == old(n.height) && n.childarea == old(n.childarea)
      requires forall n :: n in old(SiblingsNRepr(r.0, r.1)) && n !in ChildNatives() ==> unchanged(n)
      ensures Valid() && SiblingsNRepr(r.0, r.1) == old(SiblingsNRepr(r.0, r.1))
      ensures SiblingsArranged(r.0, r.1) == old(SiblingsArranged(r.0, r.1))
      decreases r.1
    {
      if r.1 > r.0 {
        SiblingsArrangedKept((r.0, r.1 - 1));
        ChildNativesApart();
      }
    }

    /**
     * The children's part of `_deepApply` for resizeToContent: every child's
     * subtree is resized in turn, each within its own footprint.
     */
    method ResizeChildren(intrinsic: Widget -> (int, int))
      requires Valid()
      modifies (NRepr - {native})`x, (NRepr - {native})`y, (NRepr - {native})`width
      modifies (NRepr - {native})`height, (NRepr - {native})`childarea
      ensures Valid() && SiblingsContentPacked(0, |children|) && SiblingsResized(intrinsic, 0, |children|)
      decreases Repr, 1
    {
      var i := 0;
      while i < |children|
        invariant 0 <= i <= |children| && Valid()
        invariant SiblingsContentPacked(0, i) && SiblingsResized(intrinsic, 0, i)
      {
        ResizeChild(intrinsic, i);
        i := i + 1;
      }
    }

    /**
     * One step of the children's resize pass: child i's subtree is resized and
     * the subtrees of the children before it keep their packing.
     */
    method ResizeChild(intrinsic: Widget -> (int, int), i: nat)
      requires Valid() && i < |children|
      modifies children[i].NRepr`x, children[i].NRepr`y, children[i].NRepr`width
      modifies children[i].NRepr`height, children[i].NRepr`childarea
      ensures Valid()
      ensures old(SiblingsContentPacked(0, i)) ==> SiblingsContentPacked(0, i + 1)
      ensures old(SiblingsResized(intrinsic, 0, i)) ==> SiblingsResized(intrinsic, 0, i + 1)
      decreases Repr, 0
    {
      SiblingsNReprApart(0, i, i);
      children[i].DeepResize(intrinsic);
      SiblingsPackedKept((0, i));
      SiblingsResizedKept((0, i, intrinsic));
    }

    /**
     * _recursiveExpandContent: expandContent applied through `_deepApply`. The
     * children's subtrees only move their own descendants, so this widget's
     * children are where the resize pass put them when its own expandContent
     * runs: aligned children of the root end up placed, and a tree whose boxes
     * were content-packed ends up arranged in every box.
     */
    method DeepExpand()
      requires Valid()
      modifies (NRepr - {native})`x, (NRepr - {native})`y
      ensures old(Aligned()) ==> Placed()
      ensures old(AllContentPacked()) ==> AllArranged()
      decreases Repr, 2
    {
      ghost var aligned := Aligned();
      ghost var ownPacked := ContentPacked();
      ghost var packed := AllContentPacked();
      assert packed ==> ownPacked;
      SiblingsContentPackedEach(0, |children|);
      ExpandChildren();
      ExpandOwn(aligned, ownPacked, packed);
      SiblingsArrangedEach(0, |children|);
    }

    /**
     * This widget's own expandContent, once its children's subtrees are
     * expanded: it places its children and leaves the rest of every child's
     * subtree as it was.
     */
    method ExpandOwn(ghost aligned: bool, ghost ownPacked: bool, ghost kidsArranged: bool)
      requires Valid() && aligned == Aligned() && ownPacked == ContentPacked()
      requires kidsArranged ==> SiblingsArranged(0, |children|)
      modifies ChildNatives()`x, ChildNatives()`y
      ensures Valid() && (aligned ==> Placed()) && (ownPacked ==> Arranged())
      ensures kidsArranged ==> SiblingsArranged(0, |children|)
    {
      ChildNativesInRepr();
      assert native !in SiblingsNRepr(0, |children|);
      ExpandArranged(aligned, ownPacked);
      SiblingsArrangedKept((0, |children|));
    }

    /**
     * expandContent seen from one box: aligned children end up placed, and a
     * content-packed box ends up arranged.
     */
    method ExpandArranged(ghost aligned: bool, ghost packed: bool)
      requires LocalOk() && aligned == Aligned() && packed == ContentPacked()
      modifies ChildNatives()`x, ChildNatives()`y
      ensures aligned ==> Placed()
      ensures packed ==> Arranged()
    {
      ExpandContent();
      ArrangedAfterExpand(packed);
    }

    /**
     * The children's part of `_deepApply` for expandContent: every child's subtree
     * is expanded in turn, which moves none of this widget's direct children.
     */
    method ExpandChildren()
      requires Valid()
      modifies (NRepr - {native} - ChildNatives())`x, (NRepr - {native} - ChildNatives())`y
      ensures Valid() && unchanged(this, native) && unchanged(ChildNatives())
      ensures old(SiblingsContentPacked(0, |children|)) ==> SiblingsArranged(0, |children|)
      decreases Repr, 1
    {
      ghost var packed := SiblingsContentPacked(0, |children|);
      ChildNativesApart();
      var i := 0;
      while i < |children|
        invariant 0 <= i <= |children| && Valid()
        invariant packed ==> SiblingsArranged(0, i) && SiblingsContentPacked(i, |children|)
      {
        ExpandChild(i);
        i := i + 1;
      }
    }

    /**
     * One step of the children's expand pass: child i's subtree is expanded and
     * the subtrees of the other children keep their state.
     */
    method ExpandChild(i: nat)
      requires Valid() && i < |children|
      modifies (children[i].NRepr - {children[i].native})`x, (children[i].NRepr - {children[i].native})`y
      ensures Valid()
      ensures old(SiblingsArranged(0, i)) && old(SiblingsContentPacked(i, |children|)) ==>
        SiblingsArranged(0, i + 1) && SiblingsContentPacked(i + 1, |children|)
      decreases Repr, 0
    {
      SiblingsNReprApart(0, i, i);
      SiblingsNReprApart(i + 1, |children|, i);
      SiblingsContentPackedEach(i, |children|);
      SiblingsContentPackedEach(i + 1, |children|);
      ChildNativesApart();
      children[i].DeepExpand();
      SiblingsArrangedKept((0, i));
      SiblingsPackedKept((i + 1, |children|));
      SiblingsArrangedEach(0, i);
      SiblingsArrangedEach(0, i + 1);
    }

    /**
     * adaptLayout: the resize pass over the whole tree, then the expand pass. The
     * root ends sized for its content with its children placed, every box of the
     * tree ends arranged, and every widget below the root keeps the size its own
     * resizeToContent gave it along the axes its parent does not stretch.
     */
    method AdaptLayout(intrinsic: Widget -> (int, int))
      requires Valid()
      modifies NRepr`x, NRepr`y, NRepr`width, NRepr`height, NRepr`childarea
      ensures LaidOut(intrinsic) && AllArranged() && AllSized(intrinsic)
    {
      DeepResize(intrinsic);
      ExpandResized(intrinsic);
    }

    /**
     * The expand pass run on a tree the resize pass has just sized: it only moves
     * widgets, so the sizes stay, the root's aligned children end up placed, and
     * every content-packed box ends up arranged.
     */
    method ExpandResized(ghost intrinsic: Widget -> (int, int))
      requires Valid() && Resized(intrinsic) && AllContentPacked() && AllSized(intrinsic)
      modifies NRepr`x, NRepr`y
      ensures LaidOut(intrinsic) && AllArranged() && AllSized(intrinsic)
    {
      ghost var sized := SizedFor(intrinsic);
      DeepExpand();
      assert SizedFor(intrinsic) == sized;
    }

    /**
     * show: a visible widget is left alone; otherwise the layout is adapted and
     * the widget becomes visible.
     */
    method Show(intrinsic: Widget -> (int, int))
      requires Valid()
      modifies NRepr`x, NRepr`y, NRepr`width, NRepr`height, NRepr`childarea, native`visible
      ensures native.visible
      ensures old(native.visible) ==> unchanged(NRepr)
      ensures !old(native.visible) ==> LaidOut(intrinsic) && AllArranged() && AllSized(intrinsic)
    {
      if native.visible {
        return;
      }
      AdaptLayout(intrinsic);
      MarkVisible(intrinsic, true);
    }

    /** The last step of show: the toolkit shows the laid-out widget. */
    method MarkVisible(ghost intrinsic: Widget -> (int, int), ghost sized: bool)
      requires Valid() && LaidOut(intrinsic) && AllArranged() && sized == AllSized(intrinsic)
      modifies native`visible
      ensures Valid() && LaidOut(intrinsic) && AllArranged() && sized == AllSized(intrinsic) && native.visible
    {
      ghost var laidOut := LaidOut(intrinsic);
      ghost var arranged := AllArranged();
      native.visible := true;
      assert LaidOut(intrinsic) == laidOut;
      assert AllArranged() == arranged;
      SizedUntouched(intrinsic);
    }

    /** Changes that leave every widget's size alone leave the sizes kept below the root. */
    twostate lemma SizedUntouched(intrinsic: Widget -> (int, int))
      requires old(Valid()) && unchanged(old(Repr))
      requires unchanged(old(NRepr) - {native}) && unchanged(native`childarea)
      ensures Valid() && AllSized(intrinsic) == old(AllSized(intrinsic))
    {
    }

    /** hide: the widget becomes (or stays) invisible; the layout is untouched. */
    method Hide()
      modifies native`visible
      ensures !native.visible
    {
      if !native.visible {
        return;
      }
      native.visible := false;
    }

    // -------------------------------------------------------------------
    // Traversal, queries and data

    /**
     * match: every queried key names an attribute holding the queried value; an
     * attribute the widget does not have reads as None.
     */
    predicate Match(q: map<string, AttrValue>)
    {
      forall k :: k in q ==> q[k] == (if k in attributes then attributes[k] else NoneValue)
    }

    /**
     * The order in which `_deepApply` visits this subtree: every child's subtree
     * in turn, then this widget (a leaf visits only itself).
     */
    function PostOrder(): (r: seq<Widget>)
      requires Valid()
      reads this, Repr
      ensures |r| > 0 && r[|r| - 1] == this
      ensures forall w :: w in r ==> w in Repr && w.native in NRepr
      ensures DistinctNatives(r)
      decreases Repr, |children| + 1
    {
      DistinctConcat(ChildrenPostOrder(|children|), [this], NRepr - {native}, {native});
      ChildrenPostOrder(|children|) + [this]
    }

    /** The visiting order of the first `k` children's subtrees. */
    function ChildrenPostOrder(k: nat): (r: seq<Widget>)
      requires Valid() && k <= |children|
      reads this, Repr
      ensures forall w :: w in r ==> w in Repr - {this} && w.native in SiblingsNRepr(0, k)
      ensures DistinctNatives(r)
      decreases Repr, k
    {
      if k == 0 then []
      else
        var c := children[k - 1];
        assert c.Repr < Repr;
        SiblingsNReprApart(0, k - 1, k - 1);
        DistinctConcat(ChildrenPostOrder(k - 1), c.PostOrder(), SiblingsNRepr(0, k - 1), c.NRepr);
        ChildrenPostOrder(k - 1) + c.PostOrder()
    }

    /**
     * The visiting order of the first `j` children's subtrees is a prefix of that
     * of the first `k`: a later child's subtree is visited after an earlier one's.
     */
    lemma {:induction false} ChildrenPostOrderPrefix(j: nat, k: nat)
      requires Valid() && j <= k <= |children|
      ensures ChildrenPostOrder(j) <= ChildrenPostOrder(k)
      decreases k
    {
      if j < k {
        ChildrenPostOrderPrefix(j, k - 1);
      }
    }

    /**
     * `_deepApply` visits child i's subtree as one contiguous block, right after
     * the blocks of the children before it; this widget comes last.
     */
    lemma PostOrderSegment(i: nat)
      requires Valid() && i < |children|
      ensures ChildrenPostOrder(i) + children[i].PostOrder() <= PostOrder()
      ensures PostOrder() == ChildrenPostOrder(|children|) + [this]
    {
      ChildrenPostOrderPrefix(i + 1, |children|);
    }

    /** A widget visited among the first `k` children's subtrees lies in one of them. */
    lemma {:induction false} ChildrenPostOrderMember(k: nat, w: Widget)
      requires Valid() && k <= |children| && w in ChildrenPostOrder(k)
      ensures exists i :: 0 <= i < k && w in children[i].PostOrder()
      decreases k
    {
      if w !in children[k - 1].PostOrder() {
        ChildrenPostOrderMember(k - 1, w);
      }
    }

    /**
     * When the footprint holds nothing but the tree, `_deepApply` visits every
     * wrapper of the subtree, and nothing else.
     */
    lemma {:induction false} PostOrderComplete(w: Widget)
      requires Valid() && ReprExact()
      ensures w in PostOrder() <==> w in Repr
      decreases Repr
    {
      if w in Repr && w != this {
        ReprOfMember(children, w);
        var i :| 0 <= i < |children| && w in children[i].Repr;
        children[i].PostOrderComplete(w);
        PostOrderSegment(i);
        assert w in ChildrenPostOrder(i) + children[i].PostOrder();
      }
    }

    /** Every box `_deepApply` visits in an arranged tree is arranged. */
    lemma {:induction false} ArrangedEverywhere(w: Widget)
      requires Valid() && AllArranged() && w in PostOrder()
      ensures w.Arranged()
      decreases Repr
    {
      if w != this {
        ChildrenPostOrderMember(|children|, w);
        var i :| 0 <= i < |children| && w in children[i].PostOrder();
        children[i].ArrangedEverywhere(w);
      }
    }

    /** Every box `_deepApply` visits in a content-packed tree is content-packed. */
    lemma {:induction false} PackedEverywhere(w: Widget)
      requires Valid() && AllContentPacked() && w in PostOrder()
      ensures w.ContentPacked()
      decreases Repr
    {
      if w != this {
        ChildrenPostOrderMember(|children|, w);
        var i :| 0 <= i < |children| && w in children[i].PostOrder();
        children[i].PackedEverywhere(w);
      }
    }

    /**
     * Every widget `_deepApply` visits in a tree the layout left sized has children
     * that keep their own sizes along the axes it does not stretch.
     */
    lemma {:induction false} SizedEverywhere(intrinsic: Widget -> (int, int), w: Widget)
      requires Valid() && AllSized(intrinsic) && w in PostOrder()
      ensures w.ChildrenSized(intrinsic)
      decreases Repr
    {
      if w != this {
        ChildrenPostOrderMember(|children|, w);
        var i :| 0 <= i < |children| && w in children[i].PostOrder();
        children[i].SizedEverywhere(intrinsic, w);
      }
    }

    /**
     * findChildren: the widgets of this subtree that match the query, in the
     * order `_deepApply` visits them, each once.
     */
    function FindChildren(q: map<string, AttrValue>): (r: seq<Widget>)
      requires Valid()
      reads this, Repr
      ensures forall w :: w in r ==> w in PostOrder() && w.Match(q)
      ensures forall w :: w in PostOrder() && w.Match(q) ==> w in r
      ensures DistinctNatives(r)
    {
      FilterKeepsDistinct(PostOrder(), q);
      Filter(PostOrder(), q)
    }

    /**
     * findChildren keeps the visiting order: the matches in child i's subtree come
     * as one block, after those of the children before it.
     */
    lemma FindChildrenSegment(i: nat, q: map<string, AttrValue>)
      requires Valid() && i < |children|
      ensures Filter(ChildrenPostOrder(i), q) + children[i].FindChildren(q) <= FindChildren(q)
    {
      PostOrderSegment(i);
      var block := ChildrenPostOrder(i) + children[i].PostOrder();
      var visited := PostOrder();
      assert visited == block + visited[|block|..];
      FilterAppend(block, visited[|block|..], q);
      FilterAppend(ChildrenPostOrder(i), children[i].PostOrder(), q);
    }

    /** findChildren lists this widget, when it matches, after all its descendants. */
    lemma FindChildrenLast(q: map<string, AttrValue>)
      requires Valid()
      ensures FindChildren(q) == Filter(ChildrenPostOrder(|children|), q) + (if Match(q) then [this] else [])
    {
      FilterAppend(ChildrenPostOrder(|children|), [this], q);
    }

    /**
     * findChild: the first widget `_deepApply` visits that matches the query, or
     * None when none does.
     */
    function FindChild(q: map<string, AttrValue>): (r: Option<Widget>)
      requires Valid()
      reads this, Repr
      ensures r.None? <==> forall w :: w in PostOrder() ==> !w.Match(q)
      ensures r.Some? ==> exists i :: 0 <= i < |PostOrder()| && PostOrder()[i] == r.value &&
                            r.value.Match(q) && forall j :: 0 <= j < i ==> !PostOrder()[j].Match(q)
    {
      FirstMatchIsFilterHead(PostOrder(), q);
      FirstMatchIsFirst(PostOrder(), q);
      var found := FindChildren(q);
      if found == [] then None else Some(found[0])
    }

    /**
     * mapEvents, with the event map given as its names in iteration order: each
     * name's callback is captured by the widget findChild returns for it; a name
     * without a widget fails unless missing widgets are ignored. `captured` lists
     * the name and widget of each capture made, in order.
     */
    method MapEvents(names: seq<string>, ignoreMissing: bool) returns (captured: seq<(string, Widget)>, r: Outcome<GuiError>)
      requires Valid()
      ensures r.Pass? <==> ignoreMissing || forall n :: n in names ==> FirstMatch(PostOrder(), NameQuery(n)).Some?
      ensures r.Fail? ==> exists k :: 0 <= k < |names| && r.error == NoSuchWidget(names[k]) &&
                            FirstMatch(PostOrder(), NameQuery(names[k])).None? &&
                            (forall j :: 0 <= j < k ==> FirstMatch(PostOrder(), NameQuery(names[j])).Some? &&
                                                        (names[j], FirstMatch(PostOrder(), NameQuery(names[j])).value) in captured) &&
                            forall c :: c in captured ==> c.0 in names[..k]
      ensures forall c :: c in captured ==> c.0 in names && FirstMatch(PostOrder(), NameQuery(c.0)) == Some(c.1)
      ensures r.Pass? ==> forall n :: n in names && FirstMatch(PostOrder(), NameQuery(n)).Some? ==>
                            (n, FirstMatch(PostOrder(), NameQuery(n)).value) in captured
    {
      captured := [];
      var visited := PostOrder();
      var i := 0;
      while i < |names|
        invariant 0 <= i <= |names|
        invariant ignoreMissing || forall j :: 0 <= j < i ==> FirstMatch(visited, NameQuery(names[j])).Some?
        invariant forall c :: c in captured ==> c.0 in names[..i] && FirstMatch(visited, NameQuery(c.0)) == Some(c.1)
        invariant forall j :: 0 <= j < i && FirstMatch(visited, NameQuery(names[j])).Some? ==>
                    (names[j], FirstMatch(visited, NameQuery(names[j])).value) in captured
      {
        var w := FirstMatch(visited, NameQuery(names[i]));
        if w.Some? {
          captured := captured + [(names[i], w.value)];
        } else if !ignoreMissing {
          assert PostOrder() == visited;
          r := Fail(NoSuchWidget(names[i]));
          assert forall j :: 0 <= j < i ==> FirstMatch(visited, NameQuery(names[j])).Some? &&
                                            (names[j], FirstMatch(visited, NameQuery(names[j])).value) in captured;
          return;
        }
        i := i + 1;
      }
      assert names[..i] == names;
      assert PostOrder() == visited;
      r := Pass;
    }

    /** findChild is the first match in visiting order. */
    lemma FindChildIsFirstMatch(q: map<string, AttrValue>)
      requires Valid()
      ensures FindChild(q) == FirstMatch(PostOrder(), q)
    {
      FirstMatchIsFilterHead(PostOrder(), q);
    }

    /**
     * distributeData, with the data map given as its entries in iteration order:
     * every widget of the subtree named by an entry gets that entry's data through
     * setData, which fails on the first such widget that does not accept data;
     * data already set stays set when that happens.
     */
    method DistributeData(entries: seq<(string, AttrValue)>) returns (r: Outcome<GuiError>)
      requires Valid()
      modifies NRepr`data
      ensures r.Pass? <==> forall w :: w in old(PostOrder()) && Delivered(w, entries).Some? ==> w.acceptsData
      ensures r.Fail? ==> r.error == NotAccepting
      ensures r.Pass? ==> forall w :: w in old(PostOrder()) ==>
                w.native.data == (if Delivered(w, entries).Some? then Delivered(w, entries).value else old(w.native.data))
      ensures forall w :: w in old(PostOrder()) ==>
                w.native.data == old(w.native.data) || exists e :: e in entries && w.Match(NameQuery(e.0)) && w.native.data == e.1
    {
      var visited := PostOrder();
      assert Natives(visited) <= NRepr;
      r := DistributeOver(visited, entries);
    }

    /**
     * collectData as the loop is written: its body reads a variable `widget` that
     * nothing assigns, so the first name that does not fail the uniqueness check
     * fails on that read, and only an empty list of names succeeds.
     */
    method CollectDataAsWritten(names: seq<string>) returns (r: Result<map<string, AttrValue>, GuiError>)
      requires Valid()
      ensures names == [] <==> r.Success?
      ensures names == [] ==> r == Success(map[])
      ensures names != [] ==>
                r == Failure(if |FindChildren(NameQuery(names[0]))| != 1 then NotUnique(names[0]) else UnboundWidget)
    {
      if names == [] {
        return Success(map[]);
      }
      var found := FindChildren(NameQuery(names[0]));
      if |found| != 1 {
        return Failure(NotUnique(names[0]));
      }
      r := Failure(UnboundWidget);
    }

    /**
     * collectData as intended: every name must find exactly one widget, whose
     * getData is stored under the name; the first name that finds none or several
     * widgets, or a widget that does not deliver data, fails.
     */
    method CollectData(names: seq<string>) returns (r: Result<map<string, AttrValue>, GuiError>)
      requires Valid()
      ensures r.Success? <==> forall n :: n in names ==> Collectable(FindChildren(NameQuery(n)))
      ensures r.Success? ==> forall n :: n in r.value <==> n in names
      ensures r.Success? ==> forall n :: n in names ==> r.value[n] == FindChildren(NameQuery(n))[0].Reported()
      ensures r.Failure? ==> exists k :: 0 <= k < |names| && CollectFailure(FindChildren(NameQuery(names[k])), names[k]) == Some(r.error) &&
                                         forall j :: 0 <= j < k ==> Collectable(FindChildren(NameQuery(names[j])))
    {
      var visited := PostOrder();
      r := CollectOver(visited, names);
    }

    /**
     * setData: only a widget that accepts data takes it, into the toolkit property
     * its setter writes (the data slot); a widget that also delivers data then
     * reports what its getter reads back from that property.
     */
    method SetData(d: AttrValue) returns (r: Outcome<GuiError>)
      modifies native`data
      ensures r.Pass? <==> acceptsData
      ensures acceptsData ==> native.data == d
      ensures !acceptsData ==> r == Fail(NotAccepting) && native.data == old(native.data)
      ensures acceptsData && deliversData ==> GetData() == Success(readBack(d))
    {
      if !acceptsData {
        return Fail(NotAccepting);
      }
      native.data := d;
      r := Pass;
    }

    /** What the widget's getter reads from its data slot. */
    function Reported(): AttrValue
      reads native`data
    {
      readBack(native.data)
    }

    /** getData: what a widget that delivers data reads from its slot; others fail. */
    function GetData(): (r: Result<AttrValue, GuiError>)
      reads native`data
      ensures r.Success? <==> deliversData
      ensures !deliversData ==> r == Failure(NotDelivering)
    {
      if !deliversData then Failure(NotDelivering) else Success(Reported())
    }
  }

  /** collectData can take the data of a name that finds exactly one widget delivering data. */
  predicate Collectable(found: seq<Widget>)
  {
    |found| == 1 && found[0].deliversData
  }

  /** The error collectData raises for a name and the widgets it finds, if any. */
  function CollectFailure(found: seq<Widget>, name: string): (e: Option<GuiError>)
    ensures e.None? <==> Collectable(found)
  {
    if |found| != 1 then Some(NotUnique(name))
    else if !found[0].deliversData then Some(NotDelivering)
    else None
  }

  /** The loop of collectData over the widgets of a subtree in visiting order. */
  method CollectOver(visited: seq<Widget>, names: seq<string>) returns (r: Result<map<string, AttrValue>, GuiError>)
    ensures r.Success? <==> forall n :: n in names ==> Collectable(Filter(visited, NameQuery(n)))
    ensures r.Success? ==> forall n :: n in r.value <==> n in names
    ensures r.Success? ==> forall n :: n in names ==> r.value[n] == Filter(visited, NameQuery(n))[0].Reported()
    ensures r.Failure? ==> exists k :: 0 <= k < |names| && CollectFailure(Filter(visited, NameQuery(names[k])), names[k]) == Some(r.error) &&
                                       forall j :: 0 <= j < k ==> Collectable(Filter(visited, NameQuery(names[j])))
  {
    var data := map[];
    var i := 0;
    while i < |names|
      invariant 0 <= i <= |names|
      invariant forall j :: 0 <= j < i ==> Collectable(Filter(visited, NameQuery(names[j])))
      invariant forall n :: n in data <==> n in names[..i]
      invariant forall n :: n in data ==> data[n] == Filter(visited, NameQuery(n))[0].Reported()
    {
      var found := Filter(visited, NameQuery(names[i]));
      if |found| != 1 {
        return Failure(NotUnique(names[i]));
      }
      var d := found[0].GetData();
      if d.Failure? {
        return Failure(d.error);
      }
      data := data[names[i] := d.value];
      i := i + 1;
    }
    assert names[..i] == names;
    r := Success(data);
  }

  /** The data distributeData gives a widget: that of the last entry naming it. */
  function Delivered(w: Widget, entries: seq<(string, AttrValue)>): (r: Option<AttrValue>)
    ensures r.None? <==> forall e :: e in entries ==> !w.Match(NameQuery(e.0))
    ensures r.Some? ==> exists e :: e in entries && w.Match(NameQuery(e.0)) && r.value == e.1
  {
    if entries == [] then None
    else
      var e := entries[|entries| - 1];
      if w.Match(NameQuery(e.0)) then Some(e.1) else Delivered(w, entries[..|entries| - 1])
  }

  /** The data a widget holds after distributing `entries` over data it held before. */
  ghost function Expected(w: Widget, entries: seq<(string, AttrValue)>, prior: AttrValue): AttrValue
  {
    if Delivered(w, entries).Some? then Delivered(w, entries).value else prior
  }

  /** Distributing one more entry overrides the data of the widgets it names. */
  lemma DeliveredStep(w: Widget, entries: seq<(string, AttrValue)>, i: nat)
    requires i < |entries|
    ensures Delivered(w, entries[..i + 1]) ==
              if w.Match(NameQuery(entries[i].0)) then Some(entries[i].1) else Delivered(w, entries[..i])
  {
    assert entries[..i + 1][..i] == entries[..i];
  }

  /** Data delivered by a prefix of the entries comes from one of the entries. */
  lemma DeliveredWithin(w: Widget, entries: seq<(string, AttrValue)>, i: nat)
    requires i <= |entries|
    ensures Delivered(w, entries[..i]).Some? ==>
              exists e :: e in entries && w.Match(NameQuery(e.0)) && Delivered(w, entries[..i]).value == e.1
  {
    if Delivered(w, entries[..i]).Some? {
      var e :| e in entries[..i] && w.Match(NameQuery(e.0)) && Delivered(w, entries[..i]).value == e.1;
      assert e in entries;
    }
  }

  /**
   * The loops of distributeData over the widgets of a subtree in visiting order:
   * the tree does not change while data is set, so each entry's findChildren is
   * that order filtered by the entry's name.
   */
  method DistributeOver(visited: seq<Widget>, entries: seq<(string, AttrValue)>) returns (r: Outcome<GuiError>)
    requires DistinctNatives(visited)
    modifies Natives(visited)`data
    ensures r.Pass? <==> forall w :: w in visited && Delivered(w, entries).Some? ==> w.acceptsData
    ensures r.Fail? ==> r.error == NotAccepting
    ensures r.Pass? ==> forall w :: w in visited ==>
              w.native.data == (if Delivered(w, entries).Some? then Delivered(w, entries).value else old(w.native.data))
    ensures forall w :: w in visited ==>
              w.native.data == old(w.native.data) || exists e :: e in entries && w.Match(NameQuery(e.0)) && w.native.data == e.1
  {
    ghost var start := map w | w in visited :: w.native.data;
    var i := 0;
    while i < |entries|
      invariant 0 <= i <= |entries|
      invariant Distributed(visited, entries[..i], start)
      invariant forall w :: w in visited ==> ProvenFrom(w, entries, start[w])
    {
      r := DistributeStep(visited, entries, i, start);
      if r.Fail? {
        return;
      }
      i := i + 1;
    }
    assert entries[..i] == entries;
    r := Pass;
  }

  /**
   * The state after the entries before some point were distributed: the widgets
   * named so far accept data and hold the data of the last entry naming them.
   */
  ghost predicate Distributed(visited: seq<Widget>, entries: seq<(string, AttrValue)>, start: map<Widget, AttrValue>)
    reads Natives(visited)`data
  {
    (forall w :: w in visited && Delivered(w, entries).Some? ==> w.acceptsData) &&
    (forall w :: w in visited ==> w in start && w.native.data == Expected(w, entries, start[w]))
  }

  /** A widget still holds its starting data or the data of an entry naming it. */
  ghost predicate ProvenFrom(w: Widget, entries: seq<(string, AttrValue)>, prior: AttrValue)
    reads w.native`data
  {
    w.native.data == prior || exists e :: e in entries && w.Match(NameQuery(e.0)) && w.native.data == e.1
  }

  /** One iteration of the outer loop of distributeData. */
  method DistributeStep(visited: seq<Widget>, entries: seq<(string, AttrValue)>, i: nat,
                        ghost start: map<Widget, AttrValue>) returns (r: Outcome<GuiError>)
    requires DistinctNatives(visited) && i < |entries|
    requires Distributed(visited, entries[..i], start)
    requires forall w :: w in visited ==> ProvenFrom(w, entries, start[w])
    modifies Natives(visited)`data
    ensures forall w :: w in visited ==> ProvenFrom(w, entries, start[w])
    ensures r.Pass? ==> Distributed(visited, entries[..i + 1], start)
    ensures r.Fail? ==> r.error == NotAccepting
    ensures r.Fail? ==> exists w :: w in visited && Delivered(w, entries).Some? && !w.acceptsData
  {
    r := DistributeEntry(visited, entries[i]);
    assert entries[i] in entries;
    if r.Fail? {
      return;
    }
    forall w | w in visited
      ensures Delivered(w, entries[..i + 1]).Some? ==> w.acceptsData
      ensures w.native.data == Expected(w, entries[..i + 1], start[w])
    {
      DeliveredStep(w, entries, i);
    }
  }

  /**
   * One entry of distributeData: setData with the entry's data on every widget
   * of the visiting order that the entry names.
   */
  method DistributeEntry(visited: seq<Widget>, e: (string, AttrValue)) returns (r: Outcome<GuiError>)
    requires DistinctNatives(visited)
    modifies Natives(visited)`data
    ensures r.Pass? <==> forall w :: w in visited && w.Match(NameQuery(e.0)) ==> w.acceptsData
    ensures r.Fail? ==> r.error == NotAccepting
    ensures forall w :: w in visited && !w.Match(NameQuery(e.0)) ==> w.native.data == old(w.native.data)
    ensures r.Pass? ==> forall w :: w in visited && w.Match(NameQuery(e.0)) ==> w.native.data == e.1
    ensures forall w :: w in visited ==> w.native.data == old(w.native.data) || (w.Match(NameQuery(e.0)) && w.native.data == e.1)
  {
    DistinctMembers(visited);
    var found := Filter(visited, NameQuery(e.0));
    FilterKeepsDistinct(visited, NameQuery(e.0));
    r := SetDataAll(found, e.1);
    forall w | w in visited && w !in found
      ensures w.native.data == old(w.native.data)
    {
      assert w.native !in Natives(found);
    }
  }

  /**
   * The inner loop of distributeData: setData on each widget of the list in
   * turn, up to the first that does not accept data.
   */
  method SetDataAll(ws: seq<Widget>, d: AttrValue) returns (r: Outcome<GuiError>)
    requires DistinctNatives(ws)
    modifies Natives(ws)`data
    ensures r.Pass? <==> forall w :: w in ws ==> w.acceptsData
    ensures r.Fail? ==> r.error == NotAccepting
    ensures r.Pass? ==> forall w :: w in ws ==> w.native.data == d
    ensures forall w :: w in ws ==> w.native.data == old(w.native.data) || w.native.data == d
  {
    DistinctMembers(ws);
    var j := 0;
    while j < |ws|
      invariant 0 <= j <= |ws|
      invariant forall k :: 0 <= k < j ==> ws[k].acceptsData && ws[k].native.data == d
      invariant forall k :: j <= k < |ws| ==> ws[k].native.data == old(ws[k].native.data)
    {
      r := ws[j].SetData(d);
      if r.Fail? {
        return;
      }
      j := j + 1;
    }
    r := Pass;
  }

  /** Distinct natives by position means distinct natives for distinct members. */
  lemma DistinctMembers(ws: seq<Widget>)
    requires DistinctNatives(ws)
    ensures forall a, b :: a in ws && b in ws && a != b ==> a.native != b.native
  {
    forall a, b | a in ws && b in ws && a != b ensures a.native != b.native {
      var i :| 0 <= i < |ws| && ws[i] == a;
      var j :| 0 <= j < |ws| && ws[j] == b;
      assert i != j;
      if i > j {
        assert ws[j].native != ws[i].native;
      }
    }
  }

  /** The widgets of a list that match a query, in list order. */
  function Filter(ws: seq<Widget>, q: map<string, AttrValue>): (r: seq<Widget>)
    ensures forall w :: w in r ==> w in ws && w.Match(q)
    ensures forall w :: w in ws && w.Match(q) ==> w in r
  {
    if ws == [] then []
    else
      var rest := Filter(ws[1..], q);
      if ws[0].Match(q) then [ws[0]] + rest else rest
  }

  /** Filtering distributes over concatenation: the kept widgets stay in order. */
  lemma {:induction false} FilterAppend(a: seq<Widget>, b: seq<Widget>, q: map<string, AttrValue>)
    ensures Filter(a + b, q) == Filter(a, q) + Filter(b, q)
  {
    if a == [] {
      assert a + b == b;
    } else {
      assert (a + b)[1..] == a[1..] + b;
      FilterAppend(a[1..], b, q);
    }
  }

  /** The first element of a list that matches a query. */
  function FirstMatch(ws: seq<Widget>, q: map<string, AttrValue>): Option<Widget>
  {
    if ws == [] then None
    else if ws[0].Match(q) then Some(ws[0])
    else FirstMatch(ws[1..], q)
  }

  /** The first match is the head of the filtered list. */
  lemma {:induction false} FirstMatchIsFilterHead(ws: seq<Widget>, q: map<string, AttrValue>)
    ensures FirstMatch(ws, q) == (if Filter(ws, q) == [] then None else Some(Filter(ws, q)[0]))
  {
    if ws != [] {
      FirstMatchIsFilterHead(ws[1..], q);
    }
  }

  /** Filtering keeps the natives of a list distinct. */
  lemma {:induction false} FilterKeepsDistinct(ws: seq<Widget>, q: map<string, AttrValue>)
    requires DistinctNatives(ws)
    ensures DistinctNatives(Filter(ws, q))
  {
    if ws != [] {
      var tail := ws[1..];
      assert DistinctNatives(tail) by {
        forall i, j | 0 <= i < j < |tail| ensures tail[i].native != tail[j].native {
          assert tail[i] == ws[i + 1] && tail[j] == ws[j + 1];
        }
      }
      FilterKeepsDistinct(tail, q);
      if ws[0].Match(q) {
        var rest := Filter(tail, q);
        forall v | v in rest ensures ws[0].native != v.native {
          var i :| 0 <= i < |tail| && tail[i] == v;
          assert v == ws[i + 1];
        }
        forall i, j | 0 <= i < j < |[ws[0]] + rest|
          ensures ([ws[0]] + rest)[i].native != ([ws[0]] + rest)[j].native
        {
          if i == 0 {
            assert ([ws[0]] + rest)[j] in rest;
          } else {
            assert ([ws[0]] + rest)[i] == rest[i - 1] && ([ws[0]] + rest)[j] == rest[j - 1];
          }
        }
      }
    }
  }

  /**
   * The first match is absent exactly when nothing matches; otherwise it matches
   * and everything before it does not.
   */
  lemma {:induction false} FirstMatchIsFirst(ws: seq<Widget>, q: map<string, AttrValue>)
    ensures FirstMatch(ws, q).None? <==> forall w :: w in ws ==> !w.Match(q)
    ensures FirstMatch(ws, q).Some? ==>
              exists i :: 0 <= i < |ws| && ws[i] == FirstMatch(ws, q).value &&
                          ws[i].Match(q) && forall j :: 0 <= j < i ==> !ws[j].Match(q)
  {
    if ws != [] && !ws[0].Match(q) {
      var tail := ws[1..];
      FirstMatchIsFirst(tail, q);
      assert forall w :: w in ws ==> w == ws[0] || w in tail;
      if FirstMatch(tail, q).Some? {
        var i :| 0 <= i < |tail| && tail[i] == FirstMatch(tail, q).value &&
                  tail[i].Match(q) && forall j :: 0 <= j < i ==> !tail[j].Match(q);
        assert ws[i + 1] == tail[i];
        forall j | 0 <= j < i + 1 ensures !ws[j].Match(q) {
          if j > 0 { assert ws[j] == tail[j - 1]; }
        }
      }
    } else if ws != [] {
      assert ws[0] == FirstMatch(ws, q).value;
    }
  }

  /** No two widgets of the list share a native widget. */
  ghost predicate DistinctNatives(ws: seq<Widget>)
  {
    forall i, j :: 0 <= i < j < |ws| ==> ws[i].native != ws[j].native
  }

  /** Two lists with distinct natives drawn from disjoint sets concatenate to one. */
  lemma DistinctConcat(a: seq<Widget>, b: seq<Widget>, na: set<NativeWidget>, nb: set<NativeWidget>)
    requires DistinctNatives(a) && DistinctNatives(b) && na !! nb
    requires forall w :: w in a ==> w.native in na
    requires forall w :: w in b ==> w.native in nb
    ensures DistinctNatives(a + b)
  {
    forall i, j | 0 <= i < j < |a + b|
      ensures (a + b)[i].native != (a + b)[j].native
    {
      if j >= |a| && i < |a| {
        assert (a + b)[i] in a && (a + b)[j] in b;
      }
    }
  }

  /** Pointwise x coordinates make up XsOf. */
  lemma XsAre(ws: seq<Widget>, ps: seq<int>)
    requires |ps| == |ws|
    requires forall k :: 0 <= k < |ws| ==> ws[k].native.x == ps[k - 0]
    ensures XsOf(ws) == ps
  {
  }

  /** Pointwise y coordinates make up YsOf. */
  lemma YsAre(ws: seq<Widget>, ps: seq<int>)
    requires |ps| == |ws|
    requires forall k :: 0 <= k < |ws| ==> ws[k].native.y == ps[k - 0]
    ensures YsOf(ws) == ps
  {
  }
}
