/** The greedy row layout of the top legend, and its drawing. */
module Legend {

  /** The size of a text as the drawing library reports it. */
  datatype Extent = Extent(width: real, height: real)

  /** The rectangle an item occupies: colour swatch, gaps and text. */
  datatype Box = Box(x: real, y: real, width: real, height: real)

  /** The loop variables of both passes. */
  datatype Cursor = Cursor(lineHeight: real, totalHeight: real, lineUsed: real)

  function ItemWidth(pad: real, e: Extent): real {
    pad + pad + e.width + pad
  }

  function ItemHeight(pad: real, e: Extent): real {
    e.height + pad
  }

  function Advance(pad: real, width: real, c: Cursor, e: Extent): Cursor {
    var w, h := ItemWidth(pad, e), ItemHeight(pad, e);
    var lineHeight := if h > c.lineHeight then h else c.lineHeight;
    if c.lineUsed + w > width then Cursor(lineHeight, c.totalHeight + lineHeight, pad + w)
    else Cursor(lineHeight, c.totalHeight, c.lineUsed + w)
  }

  /** The cursor after the first `k` items. */
  function CursorAfter(pad: real, width: real, items: seq<Extent>, k: nat): Cursor
    requires k <= |items|
  {
    if k == 0 then Cursor(0.0, pad, pad) else Advance(pad, width, CursorAfter(pad, width, items, k - 1), items[k-1])
  }

  /** Where item `k` goes. */
  function BoxOf(pad: real, width: real, items: seq<Extent>, k: nat): Box
    requires k < |items|
  {
    var c, w := CursorAfter(pad, width, items, k + 1), ItemWidth(pad, items[k]);
    Box(c.lineUsed - w, c.totalHeight, w, ItemHeight(pad, items[k]))
  }

  function HeightOf(pad: real, width: real, items: seq<Extent>): real {
    var c := CursorAfter(pad, width, items, |items|);
    c.totalHeight + c.lineHeight
  }

  /** The height of the tallest of the first `k` items. */
  function Tallest(pad: real, items: seq<Extent>, k: nat): real
    requires k <= |items|
  {
    if k == 0 then 0.0
    else
      var rest, h := Tallest(pad, items, k - 1), ItemHeight(pad, items[k-1]);
      if h > rest then h else rest
  }

  /** It is at least the height of each item and the height of one of them. */
  lemma {:induction false} TallestIsMaximum(pad: real, items: seq<Extent>, k: nat)
    requires NonNegative(pad, items) && k <= |items|
    ensures forall i :: 0 <= i < k ==> items[i].height + pad <= Tallest(pad, items, k)
    ensures k > 0 ==> exists i :: 0 <= i < k && items[i].height + pad == Tallest(pad, items, k)
  {
    if k > 0 {
      TallestIsMaximum(pad, items, k - 1);
      assert items[k-1].height >= 0.0;
    }
  }

  /** The line height is never reset: it is that of the tallest item so far. */
  lemma {:induction false} LineHeight(pad: real, width: real, items: seq<Extent>, k: nat)
    requires k <= |items|
    ensures CursorAfter(pad, width, items, k).lineHeight == Tallest(pad, items, k)
  {
    if k > 0 {
      LineHeight(pad, width, items, k - 1);
    }
  }

  ghost predicate NonNegative(pad: real, items: seq<Extent>) {
    pad >= 0.0 && forall k :: 0 <= k < |items| ==> items[k].width >= 0.0 && items[k].height >= 0.0
  }

  /** To the left of the cursor on its row, or above its row. */
  predicate Behind(b: Box, c: Cursor) {
    (b.y == c.totalHeight && b.x + b.width <= c.lineUsed) || b.y + b.height <= c.totalHeight
  }

  /** Every box placed so far is behind the cursor, no taller than the line height, and
      not above the top padding. */
  lemma {:induction false} PlacedBehind(pad: real, width: real, items: seq<Extent>, i: nat, k: nat)
    requires NonNegative(pad, items) && i < k <= |items|
    ensures
      var b, c := BoxOf(pad, width, items, i), CursorAfter(pad, width, items, k);
      Behind(b, c) && pad <= b.y <= c.totalHeight && b.height <= c.lineHeight
  {
    if i == k - 1 {
      CursorBounds(pad, width, items, k);
    } else {
      PlacedBehind(pad, width, items, i, k - 1);
      assert items[k-1].width >= 0.0;
    }
  }

  lemma {:induction false} CursorBounds(pad: real, width: real, items: seq<Extent>, k: nat)
    requires NonNegative(pad, items) && k <= |items|
    ensures
      var c := CursorAfter(pad, width, items, k);
      c.lineHeight >= 0.0 && c.totalHeight >= pad && c.lineUsed >= pad
  {
    if k > 0 {
      CursorBounds(pad, width, items, k - 1);
      assert items[k-1].width >= 0.0;
    }
  }

  /** No two item boxes overlap: of two items the later one is to the right of or below
      the earlier one. */
  lemma NoOverlap(pad: real, width: real, items: seq<Extent>, i: nat, j: nat)
    requires NonNegative(pad, items) && i < j < |items|
    ensures
      var a, b := BoxOf(pad, width, items, i), BoxOf(pad, width, items, j);
      a.x + a.width <= b.x || a.y + a.height <= b.y
  {
    PlacedBehind(pad, width, items, i, j);
    PlacedBehind(pad, width, items, i, j + 1);
    assert items[j].width >= 0.0;
  }

  /** Every box lies between the top padding and the computed height. */
  lemma InsideHeight(pad: real, width: real, items: seq<Extent>, i: nat)
    requires NonNegative(pad, items) && i < |items|
    ensures
      var b := BoxOf(pad, width, items, i);
      pad <= b.y && b.y + b.height <= HeightOf(pad, width, items)
  {
    PlacedBehind(pad, width, items, i, |items|);
    CursorBounds(pad, width, items, |items|);
  }

  /** The computed height is the top of the last row and the height of the tallest item,
      wherever that stands. So some box reaches down to it exactly when an item as tall as
      any stands on the last row. */
  lemma HeightTightIff(pad: real, width: real, items: seq<Extent>)
    requires NonNegative(pad, items) && items != []
    ensures
      var n := |items| - 1;
      var last := BoxOf(pad, width, items, n);
      && HeightOf(pad, width, items) == last.y + Tallest(pad, items, |items|)
      && ((exists i :: 0 <= i <= n && Bottom(BoxOf(pad, width, items, i)) == HeightOf(pad, width, items))
          <==> exists i :: 0 <= i <= n && BoxOf(pad, width, items, i).y == last.y
                         && ItemHeight(pad, items[i]) == Tallest(pad, items, |items|))
  {
    LineHeight(pad, width, items, |items|);
    hide CursorAfter, Tallest;
    forall i | 0 <= i < |items|
      ensures BoxOf(pad, width, items, i).y <= BoxOf(pad, width, items, |items| - 1).y
      ensures ItemHeight(pad, items[i]) <= Tallest(pad, items, |items|)
    {
      PlacedBehind(pad, width, items, i, |items|);
    }
  }

  function Bottom(b: Box): real {
    b.y + b.height
  }

  /** A box starts behind the left padding, and passes the width only when it is alone
      at the start of a row and too wide for any row. */
  lemma InsideWidth(pad: real, width: real, items: seq<Extent>, i: nat)
    requires NonNegative(pad, items) && i < |items|
    ensures
      var b := BoxOf(pad, width, items, i);
      b.x >= pad && (b.x + b.width <= width || (b.x == pad && pad + b.width > width))
  {
    CursorBounds(pad, width, items, i);
    assert items[i].width >= 0.0;
  }

  /** Items are placed row by row from left to right: the next item follows on the same
      row exactly when it still fits there. Otherwise it starts a row, which lies below by the
      height of the tallest item so far, itself included. */
  lemma RowBreaks(pad: real, width: real, items: seq<Extent>, i: nat)
    requires NonNegative(pad, items) && i + 1 < |items|
    ensures
      var a, b := BoxOf(pad, width, items, i), BoxOf(pad, width, items, i + 1);
      if a.x + a.width + b.width <= width then b.y == a.y && b.x == a.x + a.width
      else b.x == pad && b.y == a.y + Tallest(pad, items, i + 2) && b.y >= a.y + a.height
    ensures
      var first := BoxOf(pad, width, items, 0);
      first.x == pad && first.y == if pad + first.width <= width then pad else pad + first.height
  {
    PlacedBehind(pad, width, items, i, i + 1);
    LineHeight(pad, width, items, i + 2);
    assert items[0].height >= 0.0;
    assert CursorAfter(pad, width, items, 1) == Advance(pad, width, Cursor(0.0, pad, pad), items[0]);
  }

  /** Where the text of a box is printed, behind the swatch and two paddings. */
  function TextOf(pad: real, b: Box, e: Extent): Box {
    Box(b.x + 2.0 * pad, b.y, e.width, e.height)
  }

  /** One is left of the other or above it. */
  predicate Apart(a: Box, b: Box) {
    a.x + a.width <= b.x || a.y + a.height <= b.y
  }

  lemma TextsApart(pad: real, items: seq<Extent>, boxes: seq<Box>)
    requires NonNegative(pad, items) && |boxes| == |items|
    requires forall k :: 0 <= k < |boxes| ==>
      boxes[k].width == 3.0 * pad + items[k].width && boxes[k].height == pad + items[k].height
    requires forall i, j :: 0 <= i < j < |boxes| ==>
      boxes[i].x + boxes[i].width <= boxes[j].x || boxes[i].y + boxes[i].height <= boxes[j].y
    ensures forall i, j :: 0 <= i < j < |boxes| ==>
      Apart(TextOf(pad, boxes[i], items[i]), TextOf(pad, boxes[j], items[j]))
  {
  }

  /** What holds of the boxes drawn. */
  lemma DrawnBoxes(pad: real, width: real, items: seq<Extent>, boxes: seq<Box>)
    requires |boxes| == |items| && forall k :: 0 <= k < |boxes| ==> boxes[k] == BoxOf(pad, width, items, k)
    ensures forall k :: 0 <= k < |boxes| ==>
      boxes[k].width == 3.0 * pad + items[k].width && boxes[k].height == pad + items[k].height
    ensures NonNegative(pad, items) ==> forall k :: 0 <= k < |boxes| ==>
      TextOf(pad, boxes[k], items[k]).x + items[k].width <= boxes[k].x + boxes[k].width
    ensures NonNegative(pad, items) ==> forall i, j :: 0 <= i < j < |boxes| ==>
      boxes[i].x + boxes[i].width <= boxes[j].x || boxes[i].y + boxes[i].height <= boxes[j].y
    ensures NonNegative(pad, items) ==> forall i, j :: 0 <= i < j < |boxes| ==>
      Apart(TextOf(pad, boxes[i], items[i]), TextOf(pad, boxes[j], items[j]))
    ensures NonNegative(pad, items) ==> forall k :: 0 < k < |boxes| ==>
      if boxes[k-1].x + boxes[k-1].width + boxes[k].width <= width
      then boxes[k].y == boxes[k-1].y && boxes[k].x == boxes[k-1].x + boxes[k-1].width
      else boxes[k].x == pad && boxes[k].y >= boxes[k-1].y + boxes[k-1].height
    ensures NonNegative(pad, items) ==> forall k :: 0 <= k < |boxes| ==>
      pad <= boxes[k].y && boxes[k].y + boxes[k].height <= HeightOf(pad, width, items)
  {
    if NonNegative(pad, items) {
      hide CursorAfter, HeightOf, Advance, TextOf, Apart;
      forall k | 0 <= k < |boxes|
        ensures boxes[k].width == 3.0 * pad + items[k].width && boxes[k].height == pad + items[k].height
      {
      }
      hide BoxOf;
      forall i, j | 0 <= i < j < |boxes|
        ensures boxes[i].x + boxes[i].width <= boxes[j].x || boxes[i].y + boxes[i].height <= boxes[j].y
      {
        NoOverlap(pad, width, items, i, j);
      }
      forall k | 0 <= k < |boxes|
        ensures pad <= boxes[k].y && boxes[k].y + boxes[k].height <= HeightOf(pad, width, items)
        ensures TextOf(pad, boxes[k], items[k]).x + items[k].width <= boxes[k].x + boxes[k].width
      {
        InsideHeight(pad, width, items, k);
        TextInside(pad, boxes[k], items[k]);
      }
      forall k | 0 < k < |boxes|
        ensures
          if boxes[k-1].x + boxes[k-1].width + boxes[k].width <= width
          then boxes[k].y == boxes[k-1].y && boxes[k].x == boxes[k-1].x + boxes[k-1].width
          else boxes[k].x == pad && boxes[k].y >= boxes[k-1].y + boxes[k-1].height
      {
        RowBreaks(pad, width, items, k - 1);
      }
      TextsApart(pad, items, boxes);
    }
  }

  lemma TextInside(pad: real, b: Box, e: Extent)
    requires pad >= 0.0 && b.width == 3.0 * pad + e.width
    ensures TextOf(pad, b, e).x + e.width <= b.x + b.width
  {
  }

  class TopLegendRenderer {
    var padding: real
    var legends: seq<Extent>
    var width: real
    var height: real

    constructor (legends: seq<Extent>)
      ensures padding == 10.0 && this.legends == legends
    {
      padding := 10.0;
      this.legends := legends;
      width, height := 0.0, 0.0;
    }

    method SetPadding(padding: real)
      modifies this`padding
      ensures this.padding == padding
    {
      this.padding := padding;
    }

    /** Compute the height the legend needs at a given width: that of the last row and the
        tallest item, below every box. */
    method Layout(width: real)
      modifies this`width, this`height
      ensures this.width == width
      ensures height == HeightOf(padding, width, legends)
      ensures NonNegative(padding, legends) ==> forall k :: 0 <= k < |legends| ==>
        padding <= BoxOf(padding, width, legends, k).y && Bottom(BoxOf(padding, width, legends, k)) <= height
      ensures height == Tallest(padding, legends, |legends|)
                        + if legends == [] then padding else BoxOf(padding, width, legends, |legends| - 1).y
    {
      this.width := width;
      var lineHeight := 0.0;
      var totalHeight := padding;
      var lineUsed := padding;
      for k := 0 to |legends|
        invariant Cursor(lineHeight, totalHeight, lineUsed) == CursorAfter(padding, width, legends, k)
      {
        var itemWidth := padding + padding + legends[k].width + padding;
        var itemHeight := legends[k].height + padding;
        if itemHeight > lineHeight {
          lineHeight := itemHeight;
        }
        if lineUsed + itemWidth > this.width {
          lineUsed := padding + itemWidth;
          totalHeight := totalHeight + lineHeight;
        } else {
          lineUsed := lineUsed + itemWidth;
        }
      }
      totalHeight := totalHeight + lineHeight;
      height := totalHeight;
      LineHeight(padding, width, legends, |legends|);
      if NonNegative(padding, legends) {
        forall k | 0 <= k < |legends|
          ensures padding <= BoxOf(padding, width, legends, k).y
          ensures Bottom(BoxOf(padding, width, legends, k)) <= HeightOf(padding, width, legends)
        {
          InsideHeight(padding, width, legends, k);
        }
      }
    }

    /** The drawing loop. */
    method DrawItems() returns (boxes: seq<Box>)
      ensures |boxes| == |legends|
      ensures forall k :: 0 <= k < |boxes| ==> boxes[k] == BoxOf(padding, width, legends, k)
    {
      boxes := [];
      var lineHeight := 0.0;
      var totalHeight := padding;
      var lineUsed := padding;
      for k := 0 to |legends|
        invariant Cursor(lineHeight, totalHeight, lineUsed) == CursorAfter(padding, width, legends, k)
        invariant |boxes| == k
        invariant forall i :: 0 <= i < k ==> boxes[i] == BoxOf(padding, width, legends, i)
      {
        var itemWidth := padding + padding + legends[k].width + padding;
        var itemHeight := legends[k].height + padding;
        if itemHeight > lineHeight {
          lineHeight := itemHeight;
        }
        if lineUsed + itemWidth > width {
          lineUsed := padding + itemWidth;
          totalHeight := totalHeight + lineHeight;
        } else {
          lineUsed := lineUsed + itemWidth;
        }
        var x := lineUsed - itemWidth;
        boxes := boxes + [Box(x, totalHeight, itemWidth, itemHeight)];
      }
    }

    /** Draw the items; the result lists the boxes in drawing order. A box has room for the
        swatch, the text and three paddings, so no text reaches into another one; the next box
        stands on the same row exactly if it fits. After `Layout` at the same width and padding
        boxes and texts fit into the computed height. */
    method Draw() returns (boxes: seq<Box>)
      ensures |boxes| == |legends|
      ensures forall k :: 0 <= k < |boxes| ==>
        boxes[k].width == 3.0 * padding + legends[k].width && boxes[k].height == padding + legends[k].height
      ensures NonNegative(padding, legends) ==> forall k :: 0 <= k < |boxes| ==>
        TextOf(padding, boxes[k], legends[k]).x + legends[k].width <= boxes[k].x + boxes[k].width
      ensures NonNegative(padding, legends) ==> forall i, j :: 0 <= i < j < |boxes| ==>
        Apart(TextOf(padding, boxes[i], legends[i]), TextOf(padding, boxes[j], legends[j]))
      ensures NonNegative(padding, legends) ==> forall k :: 0 < k < |boxes| ==>
        if boxes[k-1].x + boxes[k-1].width + boxes[k].width <= width
        then boxes[k].y == boxes[k-1].y && boxes[k].x == boxes[k-1].x + boxes[k-1].width
        else boxes[k].x == padding && boxes[k].y >= boxes[k-1].y + boxes[k-1].height
      ensures NonNegative(padding, legends) && height == HeightOf(padding, width, legends) ==>
        forall k :: 0 <= k < |boxes| ==> boxes[k].y + legends[k].height + padding <= height
      ensures forall k :: 0 <= k < |boxes| ==> boxes[k] == BoxOf(padding, width, legends, k)
      ensures NonNegative(padding, legends) ==> forall i, j :: 0 <= i < j < |boxes| ==>
        boxes[i].x + boxes[i].width <= boxes[j].x || boxes[i].y + boxes[i].height <= boxes[j].y
      ensures NonNegative(padding, legends) && height == HeightOf(padding, width, legends) ==>
        forall k :: 0 <= k < |boxes| ==> padding <= boxes[k].y && boxes[k].y + boxes[k].height <= height
    {
      hide BoxOf, CursorAfter, HeightOf, NonNegative, TextOf, Apart, Advance;
      boxes := DrawItems();
      DrawnBoxes(padding, width, legends, boxes);
    }

    /** The legend at a padding and width: what is drawn fits into the computed height. */
    method Show(padding: real, width: real) returns (boxes: seq<Box>)
      modifies this
      ensures this.padding == padding && this.width == width && legends == old(legends)
      ensures |boxes| == |legends|
      ensures NonNegative(padding, legends) ==>
        && (forall i, j :: 0 <= i < j < |boxes| ==>
              boxes[i].x + boxes[i].width <= boxes[j].x || Bottom(boxes[i]) <= boxes[j].y)
        && (forall k :: 0 <= k < |boxes| ==> padding <= boxes[k].y && Bottom(boxes[k]) <= height)
        && (forall k :: 0 <= k < |boxes| ==> boxes[k].y + legends[k].height + padding <= height)
        && (forall i, j :: 0 <= i < j < |boxes| ==>
              Apart(TextOf(padding, boxes[i], legends[i]), TextOf(padding, boxes[j], legends[j])))
      ensures boxes != [] ==> height == boxes[|boxes|-1].y + Tallest(padding, legends, |legends|)
    {
      SetPadding(padding);
      Layout(width);
      boxes := Draw();
    }
  }
}
