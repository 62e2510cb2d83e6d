/**
 * The debug-screens plugin for Tailwind CSS 4: from the theme's named
 * breakpoints (`screens`) and the `debugScreens` options it builds one rule,
 * keyed `<selector>::before`, whose `content` names the first breakpoint by
 * default and is replaced inside one `@media (min-width: <size>)` block per
 * breakpoint, so that, with the breakpoints listed in ascending order, the
 * overlay shows the breakpoint in force.
 *
 * The host's `theme(path, default)` lookups arrive as a `ThemeConfig`, and the
 * rule is returned instead of being handed to `addComponents`.
 */
module DebugScreens {
  import opened Wrappers
  import opened Text
  import opened JsNumber
  import opened Records

  /**
   * A value of the `screens` object: a string, or anything else (an object
   * form of a breakpoint, a number), kept with the text JavaScript gives it
   * when it is put into a template literal.
   */
  datatype ScreenValue = Str(s: string) | NonString(shown: string)

  /** One `[name, size]` entry of `Object.entries(screens)`. */
  type Screen = (string, ScreenValue)

  /**
   * A value in the generated rule: a CSS declaration value, or the nested
   * `{ content: ... }` block that a media-query key holds.
   */
  datatype StyleValue = Css(text: string) | Nested(content: string)

  /** What `theme(path)` returns for each path the plugin reads: `None` when the path is unset. */
  datatype ThemeConfig = ThemeConfig(
    screens: Option<seq<Screen>>,
    style: Option<Record<StyleValue>>,
    ignore: Option<seq<string>>,
    prefix: Option<string>,
    selector: Option<string>,
    position: Option<seq<string>>)

  /**
   * `sizeInPixels`: a size in rem as pixels at 16px per rem, for display only.
   * The integer that `parseInt` reads once the first `rem` is cut out is
   * multiplied by 16; a size without `rem`, an empty size and a value that is
   * not a string give the empty string.
   */
  function SizeInPixels(size: ScreenValue): (px: string)
    ensures px != "" <==> size.Str? && Includes(size.s, "rem")
    ensures px != "" ==> |px| >= 3 && px[|px| - 2..] == "px"
  {
    match size
    case NonString(_) => ""
    case Str(s) =>
      if s == "" then ""
      else if Includes(s, "rem") then
        match ParseInt(ReplaceFirst(s, "rem", ""))
        case Finite(n) => NumberToString(n * 16) + "px"
        case NaN => "NaNpx"
      else ""
  }

  /** The text in parentheses of a label: the pixel size and a colon when there is one, then the size. */
  function Annotation(px: string, size: string): string {
    px + (if px != "" then ":" else "") + size
  }

  /** `${size}` in a template literal. */
  function Shown(v: ScreenValue): string {
    match v
    case Str(s) => s
    case NonString(t) => t
  }

  /** The media-query key of a breakpoint. */
  function MediaKey(size: string): string {
    "@media (min-width: " + size + ")"
  }

  /** The `content` a breakpoint's media query shows, double-quoted for CSS. */
  function MediaContent(prefix: string, name: string, size: string): string {
    "\"" + prefix + "<" + name + "> (" + Annotation(SizeInPixels(Str(size)), size) + ")\""
  }

  /** The first entry of `screens`, or `['_', '0']` when there is none. */
  function FirstScreen(screens: seq<Screen>): Screen {
    if screens != [] then screens[0] else ("_", Str("0"))
  }

  /** The default `content`, single-quoted for CSS: "less then" the first breakpoint. */
  function BaseContent(prefix: string, screens: seq<Screen>): string {
    var (name, size) := FirstScreen(screens);
    if name != "" then
      "'" + prefix + "less then <" + name + "> (" + Annotation(SizeInPixels(size), Shown(size)) + ")'"
    else
      "'" + prefix + "_'"
  }

  /** The properties of the object literal `getDebugDisplayCss` returns, in the order written. */
  function BaseLiteral(prefix: string, positionY: string, positionX: string, screens: seq<Screen>)
    : Record<StyleValue>
  {
    [ ("content", Css(BaseContent(prefix, screens))),
      ("position", Css("fixed")),
      ("zIndex", Css("2147483647")),
      (positionY, Css("6px")),
      (positionX, Css("4px")),
      ("padding", Css("0.75rem 0.25rem")),
      ("lineHeight", Css("1")),
      ("fontSize", Css("12px")),
      ("fontFamily", Css("sans-serif")),
      ("borderRadius", Css("5px")),
      ("border", Css("2px solid #6f84f9ff")),
      ("backgroundColor", Css("#162ba35f")),
      ("color", Css("#2e3982ff")),
      ("boxShadow", Css("0 0 2px 2px #7c75fd3d")) ]
  }

  /**
   * `getDebugDisplayCss`: the default style of the overlay. The two computed
   * keys are written where they stand in the literal, so a corner name equal
   * to another property's name shares that property's place.
   */
  function GetDebugDisplayCss(prefix: string, positionY: string, positionX: string, screens: seq<Screen>)
    : Record<StyleValue>
  {
    Assign([], BaseLiteral(prefix, positionY, positionX, screens))
  }

  /** The guard of the `forEach`: only a non-empty string size gets a media query. */
  predicate Emits(v: ScreenValue) {
    v.Str? && v.s != ""
  }

  /** The write the `forEach` performs for one entry: none when the guard returns early. */
  function ScreenPairs(prefix: string, screen: Screen): Record<StyleValue> {
    var (name, size) := screen;
    if Emits(size) then [(MediaKey(size.s), Nested(MediaContent(prefix, name, size.s)))] else []
  }

  /** The media-query writes the `forEach` performs, in order. */
  function MediaPairs(prefix: string, screens: seq<Screen>): Record<StyleValue> {
    if screens == [] then []
    else MediaPairs(prefix, screens[..|screens| - 1]) + ScreenPairs(prefix, screens[|screens| - 1])
  }

  /** The `mediaQueries` object once the `forEach` is done. */
  function MediaQueries(prefix: string, screens: seq<Screen>): Record<StyleValue> {
    Assign([], MediaPairs(prefix, screens))
  }

  /** The `forEach` over the screens that fills `mediaQueries`. */
  method BuildMediaQueries(prefix: string, screens: seq<Screen>) returns (mediaQueries: Record<StyleValue>)
    ensures mediaQueries == MediaQueries(prefix, screens)
  {
    mediaQueries := [];
    var i := 0;
    while i < |screens|
      invariant 0 <= i <= |screens|
      invariant mediaQueries == MediaQueries(prefix, screens[..i])
    {
      var (name, size) := screens[i];
      ghost var pairs := MediaPairs(prefix, screens[..i]);
      assert screens[..i + 1][..i] == screens[..i];
      assert MediaPairs(prefix, screens[..i + 1]) == pairs + ScreenPairs(prefix, screens[i]);
      if !size.Str? || size.s == "" {
        assert pairs + [] == pairs;
        i := i + 1;
        continue;
      }
      var pixelSize := SizeInPixels(size);
      var content := "\"" + prefix + "<" + name + "> (" + Annotation(pixelSize, size.s) + ")\"";
      AssignSnoc([], pairs, (MediaKey(size.s), Nested(content)));
      mediaQueries := Put(mediaQueries, MediaKey(size.s), Nested(content));
      i := i + 1;
    }
    assert screens[..i] == screens;
  }

  /** `position[i] || fallback`: a missing or empty corner component falls back. */
  function PositionPart(position: seq<string>, i: nat, fallback: string): string {
    if i < |position| && position[i] != "" then position[i] else fallback
  }

  /** The options once every unset `theme(...)` path has taken its default. */
  datatype Options = Options(
    screens: seq<Screen>,
    userStyles: Record<StyleValue>,
    ignoredScreens: seq<string>,
    prefix: string,
    selector: string,
    positionY: string,
    positionX: string)

  /** The `theme(...)` lookups at the head of `debugScreensPlugin`, with their defaults. */
  function Resolve(config: ThemeConfig): (o: Options)
    ensures o.positionY != "" && o.positionX != ""
    ensures config.position.None? ==> o.positionY == "bottom" && o.positionX == "left"
  {
    var position := config.position.GetOr(["bottom", "left"]);
    Options(
      config.screens.GetOr([]),
      config.style.GetOr([]),
      config.ignore.GetOr(["dark"]),
      config.prefix.GetOr("Screen: "),
      config.selector.GetOr(".debug-screens"),
      PositionPart(position, 0, "bottom"),
      PositionPart(position, 1, "left"))
  }

  /** The default style for resolved options. */
  function BaseRule(o: Options): Record<StyleValue> {
    GetDebugDisplayCss(o.prefix, o.positionY, o.positionX, o.screens)
  }

  /** `Object.assign(getDebugDisplayCss(...), mediaQueries, userStyles)`. */
  function MergedRule(o: Options): Record<StyleValue> {
    Assign(Assign(BaseRule(o), MediaQueries(o.prefix, o.screens)), o.userStyles)
  }

  /** The rule `debugScreensPlugin` registers: its key and its properties. */
  function DebugComponent(config: ThemeConfig): (string, Record<StyleValue>) {
    var o := Resolve(config);
    (o.selector + "::before", MergedRule(o))
  }

  /**
   * `debugScreensPlugin`: resolves the options, builds the media queries,
   * and merges default style, media queries and user style with
   * `Object.assign`, later sources winning.
   */
  method DebugScreensPlugin(config: ThemeConfig) returns (component: (string, Record<StyleValue>))
    ensures component == DebugComponent(config)
  {
    var screens := config.screens.GetOr([]);
    var userStyles := config.style.GetOr([]);
    var ignoredScreens := config.ignore.GetOr(["dark"]);
    var prefix := config.prefix.GetOr("Screen: ");
    var selector := config.selector.GetOr(".debug-screens");
    var position := config.position.GetOr(["bottom", "left"]);
    var positionY := PositionPart(position, 0, "bottom");
    var positionX := PositionPart(position, 1, "left");
    var mediaQueries := BuildMediaQueries(prefix, screens);
    var rule := GetDebugDisplayCss(prefix, positionY, positionX, screens);
    rule := AssignInto(rule, mediaQueries);
    rule := AssignInto(rule, userStyles);
    component := (selector + "::before", rule);
  }
}
