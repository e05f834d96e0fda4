/**
  Which part of a frequency range is on screen, src/core/freq_window.h:34-268:
  zooming and panning a view inside the data, what a pan could not absorb, and
  the maps between pixels and hertz.
 */
module FreqWindow {
  import opened Basics

  datatype View = View(dataLower: real, dataUpper: real, lower: real, upper: real) {
    predicate HasData() { dataUpper > dataLower }

    function Span(): real { upper - lower }

    function DataSpan(): real { dataUpper - dataLower }
  }

  function Reset(w: View): View { w.(lower := w.dataLower, upper := w.dataUpper) }

  /** An empty view is opened to the whole data before anything else is done to it. */
  function Opened(w: View): View { if w.upper <= w.lower then Reset(w) else w }

  /** The span a view gets: wide enough to read, no wider than the data. */
  function Fitted(span: real, minSpan: real, dataSpan: real): real {
    Min(if span < minSpan then minSpan else span, dataSpan)
  }

  /** The lower edge nearest to the one wanted with `span` still inside the data. */
  function Placed(w: View, span: real): real {
    var lower := if w.lower < w.dataLower then w.dataLower else w.lower;
    if lower + span > w.dataUpper then w.dataUpper - span else lower
  }

  function Clamped(w: View, minSpan: real): View {
    if !w.HasData() then Reset(w)
    else
      var v := Opened(w);
      var span := Fitted(v.Span(), minSpan, v.DataSpan());
      var lower := Placed(v, span);
      v.(lower := lower, upper := lower + span)
  }

  /** What clamping promises: the whole of empty data, otherwise a view inside it and wide enough. */
  predicate Legal(w: View, minSpan: real) {
    if !w.HasData() then w.lower == w.dataLower && w.upper == w.dataUpper
    else
      && w.dataLower <= w.lower < w.upper <= w.dataUpper
      && w.Span() >= Min(minSpan, w.DataSpan())
  }

  predicate SameData(v: View, w: View) { v.dataLower == w.dataLower && v.dataUpper == w.dataUpper }

  lemma ClampIsLegal(w: View, minSpan: real)
    ensures Legal(Clamped(w, minSpan), minSpan) && SameData(Clamped(w, minSpan), w)
  {}

  /** Clamping leaves exactly the legal views alone, so clamping twice is clamping once. */
  lemma ClampFixesLegal(w: View, minSpan: real)
    ensures Clamped(w, minSpan) == w <==> Legal(w, minSpan)
    ensures Clamped(Clamped(w, minSpan), minSpan) == Clamped(w, minSpan)
  {
    ClampIsLegal(w, minSpan);
  }

  /** A clamped view is as wide as the narrowest allowed exactly when the data is. */
  lemma ClampedIsWideEnough(w: View, minSpan: real)
    requires w.HasData()
    ensures Clamped(w, minSpan).Span() >= minSpan <==> minSpan <= w.DataSpan()
  {}

  /** In ten hertz of data a view that must not be under twenty is ten. */
  lemma NarrowDataIsNotEnough()
    ensures Clamped(View(0.0, 10.0, 2.0, 5.0), 20.0).Span() == 10.0
  {}

  /** No view of the same span inside the data starts nearer to where the view was asked to. */
  lemma ClampIsNearest(w: View, minSpan: real, other: View)
    requires w.HasData() && SameData(other, w)
    requires other.dataLower <= other.lower && other.upper <= other.dataUpper
    requires other.Span() == Clamped(w, minSpan).Span()
    ensures Abs(Clamped(w, minSpan).lower - Opened(w).lower) <= Abs(other.lower - Opened(w).lower)
  {}

  // ------------------------------------------------------------- zoom and pan

  function Part(span: real, fraction: real): real { span * fraction }

  function Anchor(w: View, anchor: real, hasAnchor: bool): real {
    if hasAnchor && w.lower <= anchor <= w.upper then anchor else w.lower + w.Span() / 2.0
  }

  /** The view a zoom asks for, before the data has its say. */
  function ZoomWanted(w: View, factor: real, anchor: real, hasAnchor: bool, minSpan: real): View
    requires w.Span() > 0.0
  {
    var at := Anchor(w, anchor, hasAnchor);
    var fraction := (at - w.lower) / w.Span();
    var wanted := Part(w.Span(), factor);
    var next := if wanted < minSpan then minSpan else wanted;
    var lower := at - Part(next, fraction);
    w.(lower := lower, upper := lower + next)
  }

  function Zoomed(w: View, factor: real, anchor: real, hasAnchor: bool, minSpan: real): View {
    var v := Opened(w);
    if v.Span() <= 0.0 then v
    else Clamped(ZoomWanted(v, factor, anchor, hasAnchor, minSpan), minSpan)
  }

  function Shifted(w: View, amount: real): View { w.(lower := w.lower + amount, upper := w.upper + amount) }

  function Panned(w: View, fraction: real, minSpan: real): View {
    var v := Opened(w);
    Clamped(Shifted(v, Part(v.Span(), fraction)), minSpan)
  }

  /** How far a pan asks the view to move, and how far it does. */
  function Request(w: View, fraction: real): real { Part(Opened(w).Span(), fraction) }

  function Moved(w: View, fraction: real, minSpan: real): real {
    Panned(w, fraction, minSpan).lower - Opened(w).lower
  }

  function Overflow(w: View, fraction: real, minSpan: real): real {
    Request(w, fraction) - Moved(w, fraction, minSpan)
  }

  /** Whether `part` goes the way `whole` does and no farther. */
  predicate Within(part: real, whole: real) {
    if whole >= 0.0 then 0.0 <= part <= whole else whole <= part <= 0.0
  }

  /** Sliding a view that clamping would leave where it is. */
  lemma SlideIsWithin(w: View, shift: real, minSpan: real)
    requires w.upper > w.lower && Clamped(w, minSpan).lower == w.lower
    ensures Within(shift - (Clamped(Shifted(w, shift), minSpan).lower - w.lower), shift)
  {}

  lemma SlideOfEmptyData(w: View, shift: real, minSpan: real)
    requires !w.HasData() && w.lower == w.dataLower
    ensures Within(shift - (Clamped(Shifted(w, shift), minSpan).lower - w.lower), shift)
  {}

  /** An empty view, or one that starts in the data with room there for the span it will be given. */
  predicate StartsInside(w: View, minSpan: real) {
    || w.upper <= w.lower
    || if w.HasData() then w.dataLower <= w.lower && w.lower + Fitted(w.Span(), minSpan, w.DataSpan()) <= w.dataUpper
       else w.lower == w.dataLower
  }

  lemma StartsInsideStays(w: View, minSpan: real)
    ensures StartsInside(w, minSpan) <==> Clamped(Opened(w), minSpan).lower == Opened(w).lower
  {}

  /**
    What is left of a pan never exceeds or reverses what was asked, whatever is
    asked, exactly when the view is empty or starts inside the data with room for
    its span.
   */
  lemma OverflowIsSound(w: View, minSpan: real)
    ensures (forall fraction :: Within(Overflow(w, fraction, minSpan), Request(w, fraction))) <==> StartsInside(w, minSpan)
  {
    hide StartsInside;
    StartsInsideStays(w, minSpan);
    var v := Opened(w);
    if StartsInside(w, minSpan) {
      forall fraction ensures Within(Overflow(w, fraction, minSpan), Request(w, fraction)) {
        if v.upper > v.lower {
          SlideIsWithin(v, Part(v.Span(), fraction), minSpan);
        } else {
          SlideOfEmptyData(v, Part(v.Span(), fraction), minSpan);
        }
      }
    } else {
      StandingStill(w, minSpan);
      assert !Within(Overflow(w, 0.0, minSpan), Request(w, 0.0));
    }
  }

  /** A view left of its data, panned right by its own span, is carried five times as far and told to go back. */
  lemma OutsideViewReverses()
    ensures var w := View(0.0, 100.0, -50.0, -40.0);
            Request(w, 1.0) == 10.0 && Overflow(w, 1.0, 1.0) == -40.0 && !Within(Overflow(w, 1.0, 1.0), Request(w, 1.0))
  {
    hide Part, Clamped;
    WholePart(10.0);
    CarriedIn();
  }

  lemma WholePart(span: real)
    ensures Part(span, 1.0) == span
  {}

  lemma CarriedIn()
    ensures Clamped(View(0.0, 100.0, -40.0, -30.0), 1.0) == View(0.0, 100.0, 0.0, 10.0)
  {}

  lemma StandingStill(w: View, minSpan: real)
    ensures Request(w, 0.0) == 0.0
    ensures Overflow(w, 0.0, minSpan) == Opened(w).lower - Clamped(Opened(w), minSpan).lower
  {
    assert Shifted(Opened(w), 0.0) == Opened(w);
  }

  /** A legal view is such a view. */
  lemma LegalPansSoundly(w: View, fraction: real, minSpan: real)
    requires Legal(w, minSpan)
    ensures Moved(w, fraction, minSpan) + Overflow(w, fraction, minSpan) == Request(w, fraction)
    ensures Within(Overflow(w, fraction, minSpan), Request(w, fraction))
    ensures Within(Moved(w, fraction, minSpan), Request(w, fraction))
    ensures Panned(w, fraction, minSpan).Span() == w.Span()
  {
    hide Part;
    ClampFixesLegal(w, minSpan);
    var shift := Part(w.Span(), fraction);
    if w.upper > w.lower {
      assert Opened(w) == w;
      SlideIsWithin(w, shift, minSpan);
    } else {
      assert Opened(w) == w && !w.HasData();
      SlideOfEmptyData(w, shift, minSpan);
    }
  }

  /** A pan nothing was left of is undone by the opposite pan. */
  lemma PanBack(w: View, fraction: real, minSpan: real)
    requires Legal(w, minSpan) && w.HasData() && Overflow(w, fraction, minSpan) == 0.0
    ensures Panned(Panned(w, fraction, minSpan), -fraction, minSpan) == w
  {
    var v := Panned(w, fraction, minSpan);
    LegalPansSoundly(w, fraction, minSpan);
    var shift := Part(w.Span(), fraction);
    assert v.Span() == w.Span();
    OppositePart(w.Span(), fraction);
    ShiftLegal(w, shift, minSpan);
  }

  lemma OppositePart(span: real, fraction: real)
    ensures Part(span, -fraction) == -Part(span, fraction)
  {}

  lemma ShiftLegal(w: View, shift: real, minSpan: real)
    requires Legal(w, minSpan) && w.HasData()
    requires Clamped(Shifted(w, shift), minSpan).lower == w.lower + shift
    ensures Clamped(Shifted(w, shift), minSpan) == Shifted(w, shift)
    ensures Clamped(Shifted(Shifted(w, shift), -shift), minSpan) == w
  {
    assert Shifted(Shifted(w, shift), -shift) == w;
    ClampFixesLegal(w, minSpan);
  }

  /** A forward pan reports that it did not move exactly at the end of the data. */
  lemma PanStuckAtTheEnd(w: View, fraction: real, minSpan: real)
    requires Legal(w, minSpan) && w.HasData() && fraction != 0.0
    ensures Moved(w, fraction, minSpan) == 0.0 <==>
              if fraction > 0.0 then w.upper == w.dataUpper else w.lower == w.dataLower
  {
    var shift := Part(w.Span(), fraction);
    assert (fraction > 0.0 ==> shift > 0.0) && (fraction < 0.0 ==> shift < 0.0) by {
      PartSign(w.Span(), fraction);
    }
    hide Part;
    SlideStuck(w, shift, minSpan);
  }

  lemma PartSign(span: real, fraction: real)
    requires span > 0.0
    ensures fraction > 0.0 ==> Part(span, fraction) > 0.0
    ensures fraction < 0.0 ==> Part(span, fraction) < 0.0
  {
    if fraction < 0.0 { assert span * -fraction > 0.0; }
  }

  lemma SlideStuck(w: View, shift: real, minSpan: real)
    requires Legal(w, minSpan) && w.HasData() && shift != 0.0
    ensures Clamped(Shifted(w, shift), minSpan).lower == w.lower <==>
              if shift > 0.0 then w.upper == w.dataUpper else w.lower == w.dataLower
  {}

  // --------------------------------------------------------- whole runs of input

  datatype Input = Zoom(factor: real, anchor: real, hasAnchor: bool) | Pan(fraction: real) | Clamp

  function Applied(w: View, op: Input, minSpan: real): View {
    match op
    case Zoom(factor, anchor, hasAnchor) => Zoomed(w, factor, anchor, hasAnchor, minSpan)
    case Pan(fraction) => Panned(w, fraction, minSpan)
    case Clamp => Clamped(w, minSpan)
  }

  function Run(w: View, ops: seq<Input>, minSpan: real): View {
    if ops == [] then w else Applied(Run(w, ops[..|ops| - 1], minSpan), ops[|ops| - 1], minSpan)
  }

  lemma ZoomIsLegal(w: View, factor: real, anchor: real, hasAnchor: bool, minSpan: real)
    ensures var v := Zoomed(w, factor, anchor, hasAnchor, minSpan); Legal(v, minSpan) && SameData(v, w)
  {
    hide Part, Clamped, Anchor;
    if Opened(w).Span() > 0.0 {
      ClampIsLegal(ZoomWanted(Opened(w), factor, anchor, hasAnchor, minSpan), minSpan);
    }
  }

  /** After any input at all the view is inside the data and wide enough, or the whole of empty data. */
  lemma {:induction false} RunIsLegal(w: View, ops: seq<Input>, minSpan: real)
    requires ops != []
    ensures Legal(Run(w, ops, minSpan), minSpan) && SameData(Run(w, ops, minSpan), w)
    decreases |ops|
  {
    hide Clamped, Zoomed, Part, Legal;
    var before := Run(w, ops[..|ops| - 1], minSpan);
    if |ops| > 1 { RunIsLegal(w, ops[..|ops| - 1], minSpan); }
    match ops[|ops| - 1] {
      case Zoom(factor, anchor, hasAnchor) => ZoomIsLegal(before, factor, anchor, hasAnchor, minSpan);
      case Pan(fraction) => ClampIsLegal(Shifted(Opened(before), Part(Opened(before).Span(), fraction)), minSpan);
      case Clamp => ClampIsLegal(before, minSpan);
    }
  }

  // ---------------------------------------------------------------- pixels and hertz

  datatype Plot = Plot(x: real, width: real)

  function HzAt(w: View, plot: Plot, x: real): real {
    if plot.width <= 0.0 then 0.0 else w.lower + Part(w.Span(), (x - plot.x) / plot.width)
  }

  function XAt(w: View, plot: Plot, hz: real): real {
    if w.Span() <= 0.0 then plot.x else plot.x + Part((hz - w.lower) / w.Span(), plot.width)
  }

  lemma PartOfQuotient(a: real, b: real)
    requires b != 0.0
    ensures Part(b, a / b) == a && Part(a / b, b) == a && Part(b, a) / b == a && Part(a, b) / b == a
  {}

  /** The two maps are inverses on every view and plot that has an extent. */
  lemma PixelsAndHertz(w: View, plot: Plot, hz: real, x: real)
    requires w.Span() > 0.0 && plot.width > 0.0
    ensures HzAt(w, plot, XAt(w, plot, hz)) == hz
    ensures XAt(w, plot, HzAt(w, plot, x)) == x
  {
    hide Part;
    PartOfQuotient((hz - w.lower) / w.Span(), plot.width);
    PartOfQuotient(hz - w.lower, w.Span());
    PartOfQuotient((x - plot.x) / plot.width, w.Span());
    PartOfQuotient(x - plot.x, plot.width);
  }

  /** A zoom keeps its anchor at the same pixel, before the data has its say. */
  lemma WantedKeepsAnchor(w: View, factor: real, anchor: real, hasAnchor: bool, minSpan: real, plot: Plot)
    requires w.Span() > 0.0 && ZoomWanted(w, factor, anchor, hasAnchor, minSpan).Span() > 0.0
    ensures var at := Anchor(w, anchor, hasAnchor);
            XAt(ZoomWanted(w, factor, anchor, hasAnchor, minSpan), plot, at) == XAt(w, plot, at)
  {
    hide Part, Anchor;
    var v := ZoomWanted(w, factor, anchor, hasAnchor, minSpan);
    var fraction := (Anchor(w, anchor, hasAnchor) - w.lower) / w.Span();
    PartOfQuotient(fraction, v.Span());
  }

  /** The same point is at the same pixel of two views of one span exactly when they start together. */
  lemma SamePixel(v: View, w: View, plot: Plot, hz: real)
    requires v.Span() == w.Span() > 0.0 && plot.width > 0.0
    ensures XAt(v, plot, hz) == XAt(w, plot, hz) <==> v.lower == w.lower
  {
    hide Part;
    var a, b := (hz - v.lower) / v.Span(), (hz - w.lower) / w.Span();
    PartOfQuotient(hz - v.lower, v.Span());
    PartOfQuotient(hz - w.lower, w.Span());
    PartOfQuotient(a, plot.width);
    PartOfQuotient(b, plot.width);
  }

  /** With room for the zoomed span, the anchor keeps its pixel exactly when the zoom stays inside the data. */
  lemma ZoomKeepsAnchor(w: View, factor: real, anchor: real, hasAnchor: bool, minSpan: real, plot: Plot)
    requires w.HasData() && w.Span() > 0.0 && plot.width > 0.0
    requires var wanted := ZoomWanted(w, factor, anchor, hasAnchor, minSpan); 0.0 < wanted.Span() <= w.DataSpan()
    ensures var at := Anchor(w, anchor, hasAnchor);
            var wanted := ZoomWanted(w, factor, anchor, hasAnchor, minSpan);
            XAt(Zoomed(w, factor, anchor, hasAnchor, minSpan), plot, at) == XAt(w, plot, at) <==>
              w.dataLower <= wanted.lower && wanted.upper <= w.dataUpper
  {
    hide Part, Anchor, XAt;
    var wanted := ZoomWanted(w, factor, anchor, hasAnchor, minSpan);
    var at := Anchor(w, anchor, hasAnchor);
    WantedKeepsAnchor(w, factor, anchor, hasAnchor, minSpan, plot);
    assert Opened(w) == w && Opened(wanted) == wanted && wanted.Span() >= minSpan;
    assert Clamped(wanted, minSpan).Span() == wanted.Span();
    SamePixel(Clamped(wanted, minSpan), wanted, plot, at);
  }

  // --------------------------------------------------------------------- dragging

  datatype Range = Range(lower: real, upper: real)

  function Drag(w: View, plot: Plot, fromX: real, toX: real, minSpan: real): Option<Range> {
    var a, b := HzAt(w, plot, fromX), HzAt(w, plot, toX);
    var lower, upper := if a < b then a else b, if a < b then b else a;
    if upper - lower < minSpan then None else Some(Range(lower, upper))
  }

  lemma HzInside(w: View, plot: Plot, x: real)
    requires w.Span() > 0.0 && plot.width > 0.0 && plot.x <= x <= plot.x + plot.width
    ensures w.lower <= HzAt(w, plot, x) <= w.upper
  {
    var f := (x - plot.x) / plot.width;
    assert 0.0 <= f <= 1.0;
    assert 0.0 <= Part(w.Span(), f) <= w.Span();
  }

  /** A drag means the same in both directions, and its edges are the two pixels it ran between. */
  lemma DragIsUndirected(w: View, plot: Plot, fromX: real, toX: real, minSpan: real)
    requires w.Span() > 0.0 && plot.width > 0.0
    ensures Drag(w, plot, fromX, toX, minSpan) == Drag(w, plot, toX, fromX, minSpan)
    ensures var r := Drag(w, plot, fromX, toX, minSpan);
            r.Some? ==> {XAt(w, plot, r.value.lower), XAt(w, plot, r.value.upper)} == {fromX, toX}
  {
    hide HzAt, XAt;
    PixelsAndHertz(w, plot, w.lower, fromX);
    PixelsAndHertz(w, plot, w.lower, toX);
  }

  /** What is dragged inside the chart is a view clamping has nothing to add to. */
  lemma DragIsLegal(w: View, plot: Plot, fromX: real, toX: real, minSpan: real)
    requires Legal(w, minSpan) && w.HasData() && plot.width > 0.0 && minSpan > 0.0
    requires plot.x <= fromX <= plot.x + plot.width && plot.x <= toX <= plot.x + plot.width
    requires Drag(w, plot, fromX, toX, minSpan).Some?
    ensures var r := Drag(w, plot, fromX, toX, minSpan).value;
            var v := w.(lower := r.lower, upper := r.upper);
            Legal(v, minSpan) && Clamped(v, minSpan) == v
  {
    hide HzAt, Clamped;
    HzInside(w, plot, fromX);
    HzInside(w, plot, toX);
    var r := Drag(w, plot, fromX, toX, minSpan).value;
    ClampFixesLegal(w.(lower := r.lower, upper := r.upper), minSpan);
  }

  // ------------------------------------------------------------------- the window

  /** The window itself, whose fields its operations change. */
  class Window {
    var dataLower: real
    var dataUpper: real
    var lower: real
    var upper: real

    function Now(): View
      reads this
    {
      View(dataLower, dataUpper, lower, upper)
    }

    constructor (dataLower: real, dataUpper: real)
      ensures Now() == View(dataLower, dataUpper, dataLower, dataUpper)
    {
      this.dataLower, this.dataUpper, lower, upper := dataLower, dataUpper, dataLower, dataUpper;
    }

    /** Lines 55-58. */
    method ResetView()
      modifies this`lower, this`upper
      ensures Now() == Reset(old(Now()))
    {
      lower, upper := dataLower, dataUpper;
    }

    /** Lines 61-81. */
    method ClampView(minSpan: real)
      modifies this`lower, this`upper
      ensures Now() == Clamped(old(Now()), minSpan) && Legal(Now(), minSpan)
    {
      ClampIsLegal(Now(), minSpan);
      if !(dataUpper > dataLower) {
        ResetView();
        return;
      }
      if upper <= lower { ResetView(); }
      var span := upper - lower;
      if span < minSpan { span := minSpan; }
      if span > dataUpper - dataLower { span := dataUpper - dataLower; }
      if lower < dataLower { lower := dataLower; }
      if lower + span > dataUpper { lower := dataUpper - span; }
      upper := lower + span;
    }

    /** Lines 88-112. */
    method ZoomView(factor: real, anchorHz: real, hasAnchor: bool, minSpan: real)
      modifies this`lower, this`upper
      ensures Now() == Zoomed(old(Now()), factor, anchorHz, hasAnchor, minSpan)
      ensures Legal(Now(), minSpan)
    {
      hide Clamped, Legal, Part;
      ZoomIsLegal(Now(), factor, anchorHz, hasAnchor, minSpan);
      if upper <= lower { ResetView(); }
      var span := upper - lower;
      if span <= 0.0 { return; }
      var anchor := lower + span / 2.0;
      if hasAnchor && anchorHz >= lower && anchorHz <= upper { anchor := anchorHz; }
      var fraction := (anchor - lower) / span;
      var next := Part(span, factor);
      if next < minSpan { next := minSpan; }
      lower := anchor - Part(next, fraction);
      upper := lower + next;
      ClampView(minSpan);
    }

    /** Lines 117-130. */
    method PanView(fraction: real, minSpan: real) returns (moved: bool)
      modifies this`lower, this`upper
      ensures Now() == Panned(old(Now()), fraction, minSpan) && Legal(Now(), minSpan)
      ensures moved <==> Moved(old(Now()), fraction, minSpan) != 0.0
    {
      hide Clamped, Legal;
      if upper <= lower { ResetView(); }
      var before, span := lower, upper - lower;
      lower := lower + Part(span, fraction);
      upper := upper + Part(span, fraction);
      ClampView(minSpan);
      return lower != before;
    }

    /** Lines 145-162: what the data could not absorb, for a tuner to move by. */
    method PanOverflow(fraction: real, minSpan: real) returns (overflow: real)
      modifies this`lower, this`upper
      ensures Now() == Panned(old(Now()), fraction, minSpan) && Legal(Now(), minSpan)
      ensures overflow == Overflow(old(Now()), fraction, minSpan)
      ensures Legal(old(Now()), minSpan) ==> Within(overflow, Request(old(Now()), fraction))
    {
      hide Clamped, Legal, Within, Part;
      if Legal(Now(), minSpan) { LegalPansSoundly(Now(), fraction, minSpan); }
      if upper <= lower { ResetView(); }
      var span := upper - lower;
      var wanted := Part(span, fraction);
      var before := lower;
      lower := lower + wanted;
      upper := upper + wanted;
      ClampView(minSpan);
      overflow := wanted - (lower - before);
    }
  }

  // ------------------------------------------------------------------------ the bins

  /** The frequency in the middle of a bin, lines 188-194. */
  function BinHz(w: View, bins: int, bin: int): real {
    if bins <= 0 then w.dataLower else w.dataLower + Part(w.DataSpan(), bin as real + 0.5) / bins as real
  }

  /** The bins cover the data evenly: neighbours are one bin apart, and the first and last half a bin inside. */
  lemma BinsCoverTheData(w: View, bins: int, bin: int)
    requires bins > 0
    ensures BinHz(w, bins, bin + 1) - BinHz(w, bins, bin) == w.DataSpan() / bins as real
    ensures BinHz(w, bins, 0) - w.dataLower == w.DataSpan() / bins as real / 2.0
    ensures w.dataUpper - BinHz(w, bins, bins - 1) == w.DataSpan() / bins as real / 2.0
  {
    var d, n := w.DataSpan(), bins as real;
    var step := d / n;
    BinStep(d, n, bin as real + 0.5);
    BinStep(d, n, bin as real + 1.5);
    BinStep(d, n, 0.5);
    BinStep(d, n, n - 0.5);
    assert (n - 0.5) * step == d - 0.5 * step by { assert n * step == d; }
  }

  lemma BinStep(d: real, n: real, k: real)
    requires n > 0.0
    ensures Part(d, k) / n == k * (d / n)
  {
    assert d == (d / n) * n;
    assert Part(d, k) == (k * (d / n)) * n;
  }
}
