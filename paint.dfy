/** The drawing page of the web app: the host's brush (painter sizes and eraser), the
    stroke buffer and the bounding box of everything drawn, the periodic upload of
    that box, and the page's message table. Canvas painting, network calls and DOM
    wiring are not modelled; coordinates are integers. */
module Paint {
  import opened Optional
  import opened GameControl
  import opened MiniApp

  // ---------------------------------------------------------------------------
  // Brush

  datatype Tool = Painter | Eraser

  /** `currentTool`, `color`, `prevColor`, `paintSize`. */
  datatype Brush = Brush(tool: Tool, color: string, prevColor: Option<string>, paintSize: int)

  const EraserSize := 12
  const EraserColor := "#ffffff"

  /** The sizes of the three painter buttons. */
  const SmallDot := 3
  const MediumDot := 6
  const LargeDot := 12

  /** `onDrawToolSelected('painter', el, size)`. */
  function SelectPainter(b: Brush, size: int): Brush {
    Brush(Painter, b.prevColor.GetOr(b.color), None, size)
  }

  /** `onEraserSelected()`: the colour in use is saved unless one is saved already. */
  function SelectEraser(b: Brush): Brush {
    Brush(Eraser, EraserColor, Some(b.prevColor.GetOr(b.color)), EraserSize)
  }

  /** The colour input's `onchange`. */
  function PickColor(b: Brush, c: string): Brush {
    b.(color := c)
  }

  /** A colour is saved exactly while the eraser is selected. */
  predicate BrushValid(b: Brush) {
    b.tool == Eraser <==> b.prevColor.Some?
  }

  /** `k` clicks on the eraser button. */
  function Erasers(b: Brush, k: nat): Brush {
    if k == 0 then b else SelectEraser(Erasers(b, k - 1))
  }

  /** Every brush action keeps the saved colour tied to the eraser. */
  lemma BrushActionsKeepValid(b: Brush, size: int, c: string)
    requires BrushValid(b)
    ensures BrushValid(SelectPainter(b, size))
    ensures BrushValid(SelectEraser(b))
    ensures BrushValid(PickColor(b, c))
  {
  }

  /** After choosing a painter nothing is saved and the size is the button's. */
  lemma PainterClearsSaved(b: Brush, size: int)
    ensures var r := SelectPainter(b, size);
      r.tool == Painter && r.prevColor == None && r.paintSize == size
  {
  }

  /** Any number of eraser clicks followed by a painter gives back the colour that
      was in use before the first eraser click. */
  lemma {:induction false} ErasersThenPainterRestore(b: Brush, k: nat, size: int)
    requires BrushValid(b) && b.tool == Painter
    requires k >= 1
    ensures Erasers(b, k).tool == Eraser && Erasers(b, k).color == EraserColor
    ensures Erasers(b, k).prevColor == Some(b.color)
    ensures SelectPainter(Erasers(b, k), size).color == b.color
  {
    if k > 1 {
      ErasersThenPainterRestore(b, k - 1, size);
    }
  }

  /** A colour picked while the eraser is selected paints with the eraser's size, and
      it is dropped again when a painter is chosen: the saved colour comes back. */
  lemma PickUnderEraserDropped(b: Brush, c: string, size: int)
    requires b.tool == Painter && BrushValid(b)
    ensures SelectPainter(PickColor(SelectEraser(b), c), size).color == b.color
  {
  }

  // ---------------------------------------------------------------------------
  // Bounding box

  datatype Point = Point(x: int, y: int)

  /** `drawingBoundary`: left, top, right, bottom. */
  datatype Boundary = Boundary(x1: int, y1: int, x2: int, y2: int)

  predicate Inside(p: Point, b: Boundary) {
    b.x1 <= p.x <= b.x2 && b.y1 <= p.y <= b.y2
  }

  function Min(a: int, b: int): int { if a <= b then a else b }
  function Max(a: int, b: int): int { if a >= b then a else b }

  /** One iteration of the loop in `finalizeDrawing`. */
  function Include(b: Boundary, p: Point): Boundary {
    Boundary(Min(b.x1, p.x), Min(b.y1, p.y), Max(b.x2, p.x), Max(b.y2, p.y))
  }

  /** The box after the loop has visited `pts`: the smallest box holding the start box's
      corners and every point. */
  function Extend(b: Boundary, pts: seq<Point>): (r: Boundary)
    ensures forall p :: p in pts ==> Inside(p, r)
    ensures r.x1 <= b.x1 && r.y1 <= b.y1 && b.x2 <= r.x2 && b.y2 <= r.y2
    // each side is the start box's side or some point's coordinate
    ensures r.x1 == b.x1 || exists p :: p in pts && p.x == r.x1
    ensures r.y1 == b.y1 || exists p :: p in pts && p.y == r.y1
    ensures r.x2 == b.x2 || exists p :: p in pts && p.x == r.x2
    ensures r.y2 == b.y2 || exists p :: p in pts && p.y == r.y2
    decreases |pts|
  {
    if pts == [] then b
    else
      var init := pts[..|pts| - 1];
      var last := pts[|pts| - 1];
      assert pts == init + [last];
      Include(Extend(b, init), last)
  }

  /** The box a stroke starts from when there is none: `(innerWidth, innerHeight, 0, 0)`. */
  function StartBox(current: Option<Boundary>, innerWidth: int, innerHeight: int): Boundary {
    current.GetOr(Boundary(innerWidth, innerHeight, 0, 0))
  }

  /** The space left around the box in an upload. */
  const PublishImagePadding := 18

  /** The part of the drawing that `publishImage` uploads: left, top, width, height. */
  datatype Region = Region(left: int, top: int, width: int, height: int)

  function PublishedRegion(b: Boundary): Region {
    Region(b.x1 - PublishImagePadding, b.y1 - PublishImagePadding,
           b.x2 - b.x1 + PublishImagePadding * 2, b.y2 - b.y1 + PublishImagePadding * 2)
  }

  /** Every point inside the box lies in the uploaded region with the padding to spare
      on every side. */
  lemma PublishedRegionCovers(b: Boundary, p: Point)
    requires Inside(p, b)
    ensures var r := PublishedRegion(b);
      r.left + PublishImagePadding <= p.x <= r.left + r.width - PublishImagePadding &&
      r.top + PublishImagePadding <= p.y <= r.top + r.height - PublishImagePadding
  {
  }

  // ---------------------------------------------------------------------------
  // Messages

  /** The keys both message tables define. */
  const MessageKeys: set<string> := {"close", "word", "not_host", "ended", "not_auth", "already_connected", "error"}

  /** `i18n[locale]`: a table for English and Russian only, both with the same keys. */
  function Messages(locale: string): (r: Option<map<string, string>>)
    ensures r.Some? <==> locale == "en" || locale == "ru"
    ensures r.Some? ==> r.value.Keys == MessageKeys
    ensures r.Some? ==> forall k :: k in r.value ==> r.value[k] != k
  {
    if locale == "en" then Some(map[
      "close" := "Close", "word" := "Word", "not_host" := "You`re not the host",
      "ended" := "Game ended", "not_auth" := "No authorization",
      "already_connected" := "The host is already connected", "error" := "Error"])
    else if locale == "ru" then Some(map[
      "close" := "Закрыть", "word" := "Слово", "not_host" := "Вы не ведущий",
      "ended" := "Игра закончилась", "not_auth" := "Нет авторизации",
      "already_connected" := "Ведущий уже подключен", "error" := "Ошибка"])
    else None
  }

  const DefaultLocale := "en"

  /** `language.split("-")[0]`. */
  function PrimarySubtag(language: string): (r: string)
    ensures r <= language && '-' !in r
    ensures |r| < |language| ==> language[|r|] == '-'
  {
    if language == [] || language[0] == '-' then [] else [language[0]] + PrimarySubtag(language[1..])
  }

  /** The locale chosen from the browser's language, with the fallback to English. */
  function InitialLocale(navigatorLanguage: string): (l: string)
    ensures Messages(l).Some?
    ensures Messages(PrimarySubtag(navigatorLanguage)).Some? ==> l == PrimarySubtag(navigatorLanguage)
    ensures Messages(PrimarySubtag(navigatorLanguage)).None? ==> l == DefaultLocale
  {
    var l := PrimarySubtag(navigatorLanguage);
    if Messages(l).None? then DefaultLocale else l
  }

  /** What `_` does: a `TypeError` when there is no table for the locale. */
  datatype Translation = Text(text: string) | TypeError

  /** `_(key)`: the message, or the key itself when the table lacks it. */
  function Translate(locale: string, key: string): (r: Translation)
    ensures r.TypeError? <==> Messages(locale).None?
    ensures r.Text? && key in Messages(locale).value ==> r.text == Messages(locale).value[key]
    ensures r.Text? && key !in Messages(locale).value ==> r.text == key
  {
    match Messages(locale)
    case None => TypeError
    case Some(table) => Text(if key in table then table[key] else key)
  }

  /** The locale after the user's Telegram language is applied, as written: any
      `language_code` is taken, known or not. */
  function UserLocale(current: string, languageCode: Option<string>): (l: string)
    ensures languageCode.Some? ==> l == languageCode.value
    ensures languageCode.None? ==> l == current
  {
    languageCode.GetOr(current)
  }

  /** A Telegram user whose language has no table breaks every later message lookup. */
  lemma UnknownUserLanguageBreaksMessages()
    ensures Translate(UserLocale(InitialLocale("en-US"), Some("de")), "close") == TypeError
  {
  }

  /** The lookup with the fallback applied again: an unknown language keeps the current
      locale. */
  function UserLocaleCorrected(current: string, languageCode: Option<string>): (l: string)
    ensures languageCode.Some? && Messages(languageCode.value).Some? ==> l == languageCode.value
    ensures !(languageCode.Some? && Messages(languageCode.value).Some?) ==> l == current
  {
    if languageCode.Some? && Messages(languageCode.value).Some? then languageCode.value else current
  }

  /** With the corrected lookup, every message resolves, for any key. */
  lemma CorrectedLocaleAlwaysTranslates(navigatorLanguage: string, languageCode: Option<string>, key: string)
    ensures Translate(UserLocaleCorrected(InitialLocale(navigatorLanguage), languageCode), key).Text?
  {
  }

  /** The refusals of the word endpoint are keys of both tables, so the page shows them
      translated (it passes any body of a status from 400 up through `_`). */
  lemma WordRefusalsAreTranslated(status: GameWordStatus, locale: string)
    requires Messages(locale).Some?
    ensures StatusText(status) in Messages(locale).value
    ensures Translate(locale, StatusText(status)).text != StatusText(status)
  {
  }

  // ---------------------------------------------------------------------------
  // The page's state

  class PaintApp {
    var currentTool: Tool
    var color: string
    var prevColor: Option<string>
    var paintSize: int
    var rawBrushData: seq<Point>
    var drawing: bool
    var dirty: bool
    var drawingBoundary: Option<Boundary>
    var currentLocale: string
    /** Whether start-up reached the point where the brush is set and the listeners are
        attached; a page that stopped earlier never receives an event. */
    var started: bool
    /** The text of the full-screen blocking message, once one is shown. */
    var blockingMessage: Option<string>

    function BrushOf(): Brush
      reads this
    {
      Brush(currentTool, color, prevColor, paintSize)
    }

    ghost predicate Valid()
      reads this
    {
      BrushValid(BrushOf())
    }

    /** Page start-up, as written. The locale comes from the browser (with the fallback).
        Without a `start_param` the page shows the translated "not_auth" message and
        stops. Otherwise the Telegram user's language replaces the locale, known or
        not, and `_('close')` runs: with no table for that language it throws and
        start-up stops there. Only then are the brush variables set and the small
        painter selected. */
    constructor(navigatorLanguage: string, startParam: Option<string>, languageCode: Option<string>)
      ensures Valid()
      ensures BrushOf() == Brush(Painter, "#000000", None, SmallDot)
      ensures rawBrushData == [] && !drawing && !dirty && drawingBoundary == None
      ensures startParam.None? ==>
        && currentLocale == InitialLocale(navigatorLanguage)
        && blockingMessage == Some(Translate(currentLocale, "not_auth").text)
        && !started
      ensures startParam.Some? ==>
        && currentLocale == UserLocale(InitialLocale(navigatorLanguage), languageCode)
        && blockingMessage == None
        && (started <==> Messages(currentLocale).Some?)
    {
      currentTool, color, prevColor, paintSize := Painter, "#000000", None, 3;
      rawBrushData, drawing, dirty, drawingBoundary := [], false, false, None;
      currentLocale := InitialLocale(navigatorLanguage);
      started, blockingMessage := false, None;
      new;
      if startParam.None? {
        blockingMessage := Some(Translate(currentLocale, "not_auth").text);
      } else {
        currentLocale := UserLocale(currentLocale, languageCode);
        if Translate(currentLocale, "close").Text? {
          OnDrawToolSelected(SmallDot);
          started := true;
        }
      }
    }

    /** Page start-up with the Telegram user's language taken only when there is a
        table for it: every page with a `start_param` starts, in a translated locale. */
    constructor Guarded(navigatorLanguage: string, startParam: Option<string>, languageCode: Option<string>)
      ensures Valid()
      ensures BrushOf() == Brush(Painter, "#000000", None, SmallDot)
      ensures rawBrushData == [] && !drawing && !dirty && drawingBoundary == None
      ensures Messages(currentLocale).Some?
      ensures started <==> startParam.Some?
      ensures startParam.None? ==>
        currentLocale == InitialLocale(navigatorLanguage) &&
        blockingMessage == Some(Translate(currentLocale, "not_auth").text)
      ensures startParam.Some? ==>
        currentLocale == UserLocaleCorrected(InitialLocale(navigatorLanguage), languageCode) &&
        blockingMessage == None
    {
      currentTool, color, prevColor, paintSize := Painter, "#000000", None, 3;
      rawBrushData, drawing, dirty, drawingBoundary := [], false, false, None;
      currentLocale := InitialLocale(navigatorLanguage);
      started, blockingMessage := false, None;
      new;
      if startParam.None? {
        blockingMessage := Some(Translate(currentLocale, "not_auth").text);
      } else {
        currentLocale := UserLocaleCorrected(currentLocale, languageCode);
        OnDrawToolSelected(SmallDot);
        started := true;
      }
    }

    /** `onDrawToolSelected('painter', el, size)`. */
    method OnDrawToolSelected(size: int)
      requires Valid()
      modifies this
      ensures Valid()
      ensures BrushOf() == SelectPainter(old(BrushOf()), size)
      ensures rawBrushData == old(rawBrushData) && drawing == old(drawing) && dirty == old(dirty)
      ensures drawingBoundary == old(drawingBoundary) && currentLocale == old(currentLocale)
      ensures started == old(started) && blockingMessage == old(blockingMessage)
    {
      currentTool := Painter;
      color := prevColor.GetOr(color);
      paintSize := size;
      prevColor := None;
    }

    /** `onEraserSelected()`. */
    method OnEraserSelected()
      requires Valid()
      modifies this
      ensures Valid()
      ensures BrushOf() == SelectEraser(old(BrushOf()))
      ensures rawBrushData == old(rawBrushData) && drawing == old(drawing) && dirty == old(dirty)
      ensures drawingBoundary == old(drawingBoundary) && currentLocale == old(currentLocale)
      ensures started == old(started) && blockingMessage == old(blockingMessage)
    {
      currentTool := Eraser;
      prevColor := Some(prevColor.GetOr(color));
      paintSize := EraserSize;
      color := EraserColor;
    }

    /** The colour input's `onchange`. */
    method OnColorChange(c: string)
      requires Valid()
      modifies this
      ensures Valid()
      ensures BrushOf() == PickColor(old(BrushOf()), c)
      ensures rawBrushData == old(rawBrushData) && drawing == old(drawing) && dirty == old(dirty)
      ensures drawingBoundary == old(drawingBoundary) && currentLocale == old(currentLocale)
      ensures started == old(started) && blockingMessage == old(blockingMessage)
    {
      color := c;
    }

    /** `onMouseDown`: a stroke starts at `p` and the drawing becomes dirty. */
    method OnMouseDown(p: Point)
      modifies this
      ensures rawBrushData == old(rawBrushData) + [p] && drawing && dirty
      ensures BrushOf() == old(BrushOf()) && drawingBoundary == old(drawingBoundary)
      ensures currentLocale == old(currentLocale)
      ensures started == old(started) && blockingMessage == old(blockingMessage)
    {
      rawBrushData := rawBrushData + [p];
      drawing := true;
      dirty := true;
    }

    /** `onMouseMove`: records `p` only while a stroke is in progress. */
    method OnMouseMove(p: Point)
      modifies this
      ensures rawBrushData == (if old(drawing) then old(rawBrushData) + [p] else old(rawBrushData))
      ensures drawing == old(drawing) && dirty == old(dirty)
      ensures BrushOf() == old(BrushOf()) && drawingBoundary == old(drawingBoundary)
      ensures currentLocale == old(currentLocale)
      ensures started == old(started) && blockingMessage == old(blockingMessage)
    {
      if !drawing {
        return;
      }
      rawBrushData := rawBrushData + [p];
    }

    /** `finalizeDrawing`, as written. The box grows to hold the stroke. With the
        painter, the smoothing pass then reads points by index: an empty stroke reads
        the first point and a two-point stroke reads a third one, which do not exist,
        so a `TypeError` leaves the function (`threw`) before the buffer is emptied. */
    method FinalizeDrawing(innerWidth: int, innerHeight: int) returns (threw: bool)
      modifies this
      ensures drawingBoundary == Some(Extend(StartBox(old(drawingBoundary), innerWidth, innerHeight), old(rawBrushData)))
      ensures threw <==> currentTool == Painter && (|old(rawBrushData)| == 0 || |old(rawBrushData)| == 2)
      ensures rawBrushData == (if threw then old(rawBrushData) else [])
      ensures BrushOf() == old(BrushOf()) && drawing == old(drawing) && dirty == old(dirty)
      ensures currentLocale == old(currentLocale)
      ensures started == old(started) && blockingMessage == old(blockingMessage)
    {
      // `if (!rawBrushData) return;` never returns: an array is always truthy
      var start := StartBox(drawingBoundary, innerWidth, innerHeight);
      var box := start;
      for k := 0 to |rawBrushData|
        invariant box == Extend(start, rawBrushData[..k])
      {
        assert rawBrushData[..k + 1] == rawBrushData[..k] + [rawBrushData[k]];
        box := Include(box, rawBrushData[k]);
      }
      assert rawBrushData[..|rawBrushData|] == rawBrushData;
      drawingBoundary := Some(box);
      threw := false;
      if currentTool == Painter {
        var n := |rawBrushData|;
        if n < 2 {
          // a single dot at `rawBrushData[0]`
          if n == 0 {
            return true;
          }
        } else {
          // quadratic segments through `rawBrushData[i]` and `rawBrushData[i + 1]`
          var i := 1;
          while i < n - 2
            invariant 1 <= i <= Max(1, n - 2)
          {
            i := i + 1;
          }
          // the closing segment reads `rawBrushData[i]` and `rawBrushData[i + 1]`
          if i + 1 >= n {
            return true;
          }
        }
      }
      rawBrushData := [];
    }

    /** `finalizeDrawing` with an empty stroke skipped and a two-point stroke drawn as
        one segment: it always completes and empties the buffer. */
    method FinalizeDrawingGuarded(innerWidth: int, innerHeight: int)
      modifies this
      ensures drawingBoundary == (if old(rawBrushData) == [] then old(drawingBoundary)
        else Some(Extend(StartBox(old(drawingBoundary), innerWidth, innerHeight), old(rawBrushData))))
      ensures rawBrushData == []
      ensures forall p :: p in old(rawBrushData) ==> Inside(p, drawingBoundary.value)
      ensures BrushOf() == old(BrushOf()) && drawing == old(drawing) && dirty == old(dirty)
      ensures currentLocale == old(currentLocale)
      ensures started == old(started) && blockingMessage == old(blockingMessage)
    {
      if rawBrushData == [] {
        return;
      }
      var start := StartBox(drawingBoundary, innerWidth, innerHeight);
      var box := start;
      for k := 0 to |rawBrushData|
        invariant box == Extend(start, rawBrushData[..k])
      {
        assert rawBrushData[..k + 1] == rawBrushData[..k] + [rawBrushData[k]];
        box := Include(box, rawBrushData[k]);
      }
      assert rawBrushData[..|rawBrushData|] == rawBrushData;
      drawingBoundary := Some(box);
      rawBrushData := [];
    }

    /** `onMouseUp` (and `touchend`/`touchcancel`): the stroke ends and is finalized. */
    method OnMouseUp(innerWidth: int, innerHeight: int) returns (threw: bool)
      modifies this
      ensures !drawing
      ensures drawingBoundary == Some(Extend(StartBox(old(drawingBoundary), innerWidth, innerHeight), old(rawBrushData)))
      ensures threw <==> currentTool == Painter && (|old(rawBrushData)| == 0 || |old(rawBrushData)| == 2)
      ensures rawBrushData == (if threw then old(rawBrushData) else [])
      ensures BrushOf() == old(BrushOf()) && dirty == old(dirty) && currentLocale == old(currentLocale)
      ensures started == old(started) && blockingMessage == old(blockingMessage)
    {
      drawing := false;
      threw := FinalizeDrawing(innerWidth, innerHeight);
    }

    /** `publishImage`: nothing while a stroke is in progress, when nothing changed, or
        with no box; otherwise the drawing is clean again and the padded box is the
        region uploaded. */
    method PublishImage() returns (upload: Option<Region>)
      modifies this
      ensures upload.None? <==> old(drawing) || !old(dirty) || old(drawingBoundary).None?
      ensures upload.None? ==> dirty == old(dirty)
      ensures upload.Some? ==> !dirty && upload.value == PublishedRegion(old(drawingBoundary).value)
      ensures BrushOf() == old(BrushOf()) && rawBrushData == old(rawBrushData) && drawing == old(drawing)
      ensures drawingBoundary == old(drawingBoundary) && currentLocale == old(currentLocale)
      ensures started == old(started) && blockingMessage == old(blockingMessage)
    {
      if drawing || !dirty || drawingBoundary == None {
        return None;
      }
      dirty := false;
      var b := drawingBoundary.value;
      var boundWidth := b.x2 - b.x1 + PublishImagePadding * 2;
      var boundHeight := b.y2 - b.y1 + PublishImagePadding * 2;
      upload := Some(Region(b.x1 - PublishImagePadding, b.y1 - PublishImagePadding, boundWidth, boundHeight));
    }

    /** `init` on the window's `load`: the colour comes from the colour input, then the
        canvas is resized. */
    method OnLoad(inputColor: string)
      requires Valid()
      modifies this
      ensures Valid()
      ensures BrushOf() == PickColor(old(BrushOf()), inputColor)
      ensures drawingBoundary == None
      ensures rawBrushData == old(rawBrushData) && drawing == old(drawing) && dirty == old(dirty)
      ensures currentLocale == old(currentLocale)
      ensures started == old(started) && blockingMessage == old(blockingMessage)
    {
      color := inputColor;
      ResizeCanvas();
    }

    /** `resizeCanvas`: the canvases take the window size and the box is forgotten. */
    method ResizeCanvas()
      modifies this
      ensures drawingBoundary == None
      ensures BrushOf() == old(BrushOf()) && rawBrushData == old(rawBrushData)
      ensures drawing == old(drawing) && dirty == old(dirty) && currentLocale == old(currentLocale)
      ensures started == old(started) && blockingMessage == old(blockingMessage)
    {
      drawingBoundary := None;
    }

    /** `clearCanvas`: both canvases are wiped and the box is forgotten. */
    method ClearCanvas()
      modifies this
      ensures drawingBoundary == None
      ensures BrushOf() == old(BrushOf()) && rawBrushData == old(rawBrushData)
      ensures drawing == old(drawing) && dirty == old(dirty) && currentLocale == old(currentLocale)
      ensures started == old(started) && blockingMessage == old(blockingMessage)
    {
      drawingBoundary := None;
    }
  }

  /** A quick flick with the painter (press, one move, release) as written: the release
      raises and the two points stay in the buffer, so the next stroke is joined to them. */
  method QuickFlickAsWritten() returns (threw: bool, leftover: nat)
    ensures threw && leftover == 2
  {
    var app := new PaintApp("en-US", Some("gameId__1"), None);
    app.OnMouseDown(Point(10, 10));
    app.OnMouseMove(Point(14, 12));
    threw := app.OnMouseUp(400, 800);
    leftover := |app.rawBrushData|;
  }

  /** The same flick with the guarded finalization: the buffer is emptied and the box
      holds both points. */
  method QuickFlickGuarded() returns (leftover: nat, box: Boundary)
    ensures leftover == 0
    ensures Inside(Point(10, 10), box) && Inside(Point(14, 12), box)
  {
    var app := new PaintApp("en-US", Some("gameId__1"), None);
    app.OnMouseDown(Point(10, 10));
    app.OnMouseMove(Point(14, 12));
    app.drawing := false;
    app.FinalizeDrawingGuarded(400, 800);
    leftover := |app.rawBrushData|;
    box := app.drawingBoundary.value;
  }

  /** A Telegram user whose language has no table, as written: start-up stops at
      `_('close')`, so the page never gets its brush or listeners. */
  method UnknownLanguageStartUp() returns (started: bool, locale: string)
    ensures !started && locale == "de"
  {
    var app := new PaintApp("en-US", Some("gameId__1"), Some("de"));
    started, locale := app.started, app.currentLocale;
  }

  /** The same user with the guarded start-up: the page starts in English. */
  method UnknownLanguageStartUpGuarded() returns (started: bool, locale: string)
    ensures started && locale == "en"
  {
    var app := new PaintApp.Guarded("en-US", Some("gameId__1"), Some("de"));
    started, locale := app.started, app.currentLocale;
  }
}
