# debug-screens, modelled in Dafny

A model of the Tailwind CSS 4 plugin `debugScreensPlugin` (`src/index.ts`).
The plugin reads the theme's named breakpoints (`screens`) and the
`debugScreens` options. It registers one CSS rule, keyed
`<selector>::before`. The rule's `content` names the first breakpoint by
default. Each breakpoint adds a nested `@media (min-width: <size>)` block
that replaces the `content`, so the overlay shows the breakpoint in force.

The model covers:

- `sizeInPixels`: a rem size shown in pixels at 16px per rem;
- `getDebugDisplayCss`: the default style object;
- the `forEach` that fills `mediaQueries`;
- the `Object.assign` merge of default style, media queries and user styles.

Files:

- `wrappers.dfy`: module `Wrappers`, the `Option` type.
- `text.dfy`: module `Text`. It models `String.prototype.includes` and
  `String.prototype.replace` with a string pattern, which replaces only the
  first match.
- `js_number.dfy`: module `JsNumber`. It models `parseInt(s, 10)`: leading
  white space is skipped, then an optional sign, then the leading digits.
  No digits gives NaN. It also models how an integral Number prints in a
  template literal.
- `records.dfy`: module `Records`. A JavaScript object is a sequence of
  key/value pairs in insertion order. Integer-like keys are not given
  JavaScript's special order (see "Left out").
  - Writing a key that is present replaces its value where it stands.
  - Writing a new key appends it.
  - `Object.assign` is these writes, one source property after another.
  - An object literal is the same writes into an empty object. So a
    computed key (`[positionY]`) equal to an earlier key takes that key's
    place, as in JavaScript.
  - `AssignInto` is the copying loop, proved equal to `Assign`.
- `debug_screens.dfy`: module `DebugScreens`, the plugin itself.
  - The `theme(path, default)` lookups arrive as a `ThemeConfig`. Each field
    is `None` when the path is unset.
  - `Resolve` applies the defaults written in the code.
  - `BuildMediaQueries` is the `forEach` loop, early return included.
  - `DebugScreensPlugin` runs the whole function and returns the rule
    instead of passing it to `addComponents`.
  - A screen value is `Str(s)` or `NonString(shown)`. `shown` is the text
    JavaScript gives that value in a template literal, so the
    `typeof size !== 'string'` guard can be stated.
- `debug_screens_proofs.dfy`: module `DebugScreensProofs`, the properties
  of the plugin.

The model follows the code's exact text:

- the default label says `less then`;
- names are in angle brackets;
- the default label is single-quoted and the media-query labels are
  double-quoted;
- with no breakpoints the default label is `'<prefix>less then <_> (0)'`,
  because the fallback name `'_'` is truthy;
- `'<prefix>_'` appears only when the first breakpoint's name is the empty
  string.

The `ignore` option is read and never applied. The model reads it into
`Options.ignoredScreens` and does nothing with it.

## Model

| member | source | states |
|---|---|---|
| Text.IndexOf | src/index.ts:117 | `includes` and `replace` find the first occurrence: the result is a match, no earlier index matches, and `None` means no index matches |
| Text.Includes | src/index.ts:117 | no contract of its own: `includes` is `IndexOf` finding a match, specified by `Text.IndexOf` |
| Text.ReplaceFirst | src/index.ts:118 | with no match the string is unchanged, otherwise its length changes by the replacement's length minus the pattern's; `Text.ReplaceFirstAt` gives the exact result |
| Text.ReplaceFirstAt | src/index.ts:118 | `replace('rem', '')` cuts the string at the first `rem` and at no later one |
| JsNumber.Decimal | src/index.ts:118 | the printed integer is non-empty decimal digits with no leading zero |
| JsNumber.DigitsValueOfDecimal | src/index.ts:118 | reading the printed digits of n gives n back |
| JsNumber.ParseIntDigits | src/index.ts:118 | `parseInt(s, 10)` of white space, a sign, digits and then a non-digit is the signed value of the digits, whatever follows |
| JsNumber.ParseIntOfNumberToString | src/index.ts:118 | `parseInt` of a printed integer gives the integer back |
| JsNumber.ParseInt | src/index.ts:118 | no contract of its own; specified by `JsNumber.ParseIntDigits` and `JsNumber.ParseIntOfNumberToString` |
| JsNumber.NumberToString | src/index.ts:118 | no contract of its own; `JsNumber.ParseIntOfNumberToString` proves that `parseInt` reads it back |
| Records.AssignInto | src/index.ts:69-73 | copying the source's properties one by one into the target gives `Object.assign(target, source)` |
| Records.Put | src/index.ts:62 | no contract of its own; specified by `Records.PutGet`, `Records.PutKeyList` and `Records.PutDistinct` |
| Records.Assign | src/index.ts:69-73 | no contract of its own; specified by `Records.AssignGet`, `Records.AssignKeyOrder`, `Records.AssignKeyList` and `Records.AssignDistinct` |
| Records.AddKeys | src/index.ts:69-73 | the key order after writing keys in turn: the old keys come first, every key of either list is present, and no key is repeated |
| Records.AssignKeyOrder | src/index.ts:69-73 | after `Object.assign` the keys are the target's, then the source's new keys in the order the source first names them |
| Records.PutGet | src/index.ts:62 | after `obj[k] = v`, `k` holds `v` and every other key keeps its value |
| Records.PutKeyList | src/index.ts:62 | `obj[k] = v` keeps the key order and appends `k` only when it is new |
| Records.PutDistinct | src/index.ts:62 | a write never duplicates a key |
| Records.AssignGet | src/index.ts:69-73 | after `Object.assign`, a key holds the value the source gives it last, else the target's value |
| Records.AssignKeyList | src/index.ts:69-73 | `Object.assign` keeps the target's keys first and in order; the result's keys are the target's plus the source's |
| Records.AssignDistinct | src/index.ts:69-73 | merging into an object yields an object with each key once |
| Records.DistinctLastIsGet | src/index.ts:69-73 | in an object with each key once, the last value of a key is its only value |
| DebugScreens.SizeInPixels | src/index.ts:113-121 | the result is non-empty exactly when the size is a string containing `rem`, and a non-empty result ends in `px` |
| DebugScreens.FirstScreen | src/index.ts:86-87 | no contract of its own: the first entry, or `['_', '0']` when there is none; specified by `DebugScreensProofs.BaseContentCases` and `DebugScreensProofs.NoScreensLabel` |
| DebugScreens.MediaContent | src/index.ts:63 | no contract of its own; specified by `DebugScreensProofs.MediaContentSeparator` and `DebugScreensProofs.PixelBreakpointQuery` |
| DebugScreens.BaseContent | src/index.ts:86-91 | no contract of its own; specified by `DebugScreensProofs.BaseContentCases`, `DebugScreensProofs.NoScreensLabel` and `DebugScreensProofs.PixelScreenLabel` |
| DebugScreens.ScreenPairs | src/index.ts:58-64 | no contract of its own: the write one entry makes, none when the guard returns; specified by `DebugScreensProofs.HasQuerySnoc` and `DebugScreensProofs.MediaQueriesSkip` |
| DebugScreens.MediaPairs | src/index.ts:57-65 | no contract of its own: the writes of the `forEach` in order; specified by `DebugScreensProofs.MediaPairsKeys`, `MediaPairsKeyList`, `MediaPairsLastWins` and `MediaPairsAppend` |
| DebugScreens.MediaQueries | src/index.ts:55-65 | no contract of its own: `mediaQueries` after the `forEach`; `DebugScreens.BuildMediaQueries` is proved equal to it, and `DebugScreensProofs.MediaQueriesKeys`, `MediaQueriesKeyOrder`, `MediaQueriesLastWins` and `MediaQueriesSkip` state its contents |
| DebugScreens.GetDebugDisplayCss | src/index.ts:85-108 | no contract of its own; specified by `DebugScreensProofs.BaseRuleKeys`, `BaseRuleCorners`, `BaseRuleEarlyValues`, `BaseRuleFixedValues` and `BaseContentCases` |
| DebugScreens.BuildMediaQueries | src/index.ts:55-65 | the loop leaves `mediaQueries` equal to the writes of the entries that pass the guard, in order |
| DebugScreens.Resolve | src/index.ts:40-50 | both corners are non-empty; with no position set they are `bottom` and `left` |
| DebugScreens.PositionPart | src/index.ts:49-50 | no contract of its own: the `i`-th position component, or the fallback when it is missing or empty; `DebugScreens.Resolve` and `DebugScreensProofs.ResolvePosition` state the fallback |
| DebugScreens.MergedRule | src/index.ts:69-73 | no contract of its own; specified by `DebugScreensProofs.MergedRuleGet` and `DebugScreensProofs.MergedRuleKeys` |
| DebugScreens.DebugComponent | src/index.ts:68-74 | no contract of its own; `DebugScreens.DebugScreensPlugin` is proved equal to it, and the `DebugScreensProofs` lemmas state its contents |
| DebugScreens.DebugScreensPlugin | src/index.ts:39-77 | the registered rule is `<selector>::before` with `Object.assign(default style, media queries, user styles)` |
| DebugScreensProofs.RemSizeInPixels | src/index.ts:117-118 | white space, a sign and digits, then a fraction or other text without `r`, then `rem`: the result is 16 times the signed integer in `px`, fraction dropped |
| DebugScreensProofs.FirstRemAfter | src/index.ts:117-118 | with no `r` before it, the first `rem` is found and removed |
| DebugScreensProofs.NoRemNoPixels | src/index.ts:113-120 | a size without `r`, such as `640px`, has no pixel form, and its label is the size alone |
| DebugScreensProofs.RemDigitsSize | src/index.ts:117-118 | digits, an optional fraction, then `rem`: 16 times the integer part in `px` |
| DebugScreensProofs.SizeInPixels48Rem | src/index.ts:117-118 | `48rem` is shown as `768px` |
| DebugScreensProofs.SizeInPixelsFractionalRem | src/index.ts:118 | `1.5rem` is shown as `16px`: the fraction is cut off, not rounded |
| DebugScreensProofs.MediaContentSeparator | src/index.ts:61-63 | a media label has a pixel size and `:` exactly when its size contains `rem` |
| DebugScreensProofs.BaseContentCases | src/index.ts:86-91 | the default label depends on the first breakpoint only; with none it is `'<prefix>less then <_> (0)'`; `'<prefix>_'` exactly when the first name is empty |
| DebugScreensProofs.BaseContentSeparator | src/index.ts:88-90 | for a named first breakpoint, the default label has a pixel size and `:` exactly when the size is a string containing `rem`, and otherwise shows the size as written |
| DebugScreensProofs.MediaKeyInjective | src/index.ts:62 | two sizes share a media key only when they are equal |
| DebugScreensProofs.MediaPairsAppend | src/index.ts:57-65 | the loop's writes for two runs of entries are the two runs' writes in turn |
| DebugScreensProofs.HasQuerySnoc | src/index.ts:57-60 | one more entry adds a media key exactly when it passes the guard |
| DebugScreensProofs.MediaPairsKeys | src/index.ts:57-65 | the loop writes a key exactly when some entry passing the guard has that media key |
| DebugScreensProofs.MediaQueriesKeys | src/index.ts:55-65 | `mediaQueries` has a key for every entry whose size is a non-empty string, no other key, and no key twice |
| DebugScreensProofs.MediaPairsKeyList | src/index.ts:57-65 | the loop writes the media keys of the entries that pass the guard, in entry order, repeats included |
| DebugScreensProofs.MediaQueriesKeyOrder | src/index.ts:55-65 | the keys of `mediaQueries` are those media keys without repeats, each at its first producing entry; a later entry with the same size keeps the first place |
| DebugScreensProofs.MediaPairsLastWins | src/index.ts:57-65 | the last write to a key is from the last entry with that size |
| DebugScreensProofs.MediaQueriesLastWins | src/index.ts:55-65 | a size's media query holds the label of the last entry with that size |
| DebugScreensProofs.MediaQueriesSkip | src/index.ts:58-60 | an entry the guard skips changes nothing the other entries produce |
| DebugScreensProofs.ResolvePosition | src/index.ts:47-50 | a non-empty configured corner is used; a missing or empty one falls back to `bottom` / `left` |
| DebugScreensProofs.BaseGetAt | src/index.ts:92-107 | a property of the literal keeps its value when no later property has its key |
| DebugScreensProofs.BaseRuleFixedValues | src/index.ts:98-106 | the nine properties after the corners always hold their literal values |
| DebugScreensProofs.BaseTextValues | src/index.ts:98-101 | `padding`, `lineHeight`, `fontSize` and `fontFamily` hold their literal values |
| DebugScreensProofs.BaseBoxValues | src/index.ts:102-106 | `borderRadius`, `border`, `backgroundColor`, `color` and `boxShadow` hold their literal values |
| DebugScreensProofs.BaseRuleCorners | src/index.ts:96-97 | `positionX` holds `4px`, and wins when both corners coincide; `positionY` holds `6px` when distinct; a corner named like a later property loses to it |
| DebugScreensProofs.BaseRuleEarlyValues | src/index.ts:93-97 | `content`, `position` and `zIndex` keep their values unless a corner has their name |
| DebugScreensProofs.BaseRuleKeys | src/index.ts:92-107 | the default style's keys are the twelve fixed names and the two corners, each once |
| DebugScreensProofs.BaseKeyNamed | src/index.ts:92-107 | every key of the literal is a fixed name or a corner |
| DebugScreensProofs.BaseKeyWritten | src/index.ts:92-107 | every fixed name and both corners are keys of the literal |
| DebugScreensProofs.MergedRuleGet | src/index.ts:69-73 | each merged key holds the user's value if set, else the media query's, else the default's |
| DebugScreensProofs.MergedRuleKeys | src/index.ts:69-73 | the merged rule has exactly the keys of the three sources, each once, in this order: the default keys, then the new media keys in the order the breakpoints first produce them, then the user's new keys |
| DebugScreensProofs.MediaQueriesKeysStartWithAt | src/index.ts:62 | every media key begins with `@` |
| DebugScreensProofs.DefaultsSurvive | src/index.ts:69-73 | a default property that the user style does not set and that is not shaped like a media key (`@…`) keeps its default value, for a user style with distinct keys |
| DebugScreensProofs.IgnoredScreensStillEmitted | src/index.ts:43 | the ignore list changes nothing, and every emitting entry's media query is in the rule |
| DebugScreensProofs.BreakpointLabelShown | src/index.ts:57-73 | in the registered rule a breakpoint's media query shows its own label, unless a later entry has the same size or the user style sets that key |
| DebugScreensProofs.SkippedEntryInvisible | src/index.ts:58-60 | a skipped entry that is not first leaves the registered rule as if it were absent |
| DebugScreensProofs.UnconfiguredOptions | src/index.ts:40-50 | with nothing configured, the options are the code's defaults and the rule is the default style |
| DebugScreensProofs.NoScreensLabel | src/index.ts:86-91 | with no breakpoints the default label reads `'<prefix>less then <_> (0)'` |
| DebugScreensProofs.PixelScreenLabel | src/index.ts:86-93 | when the first breakpoint is named and in pixels, the default label shows its name and size as written |
| DebugScreensProofs.UnconfiguredContent | src/index.ts:87-93 | with nothing configured, `content` is `'Screen: less then <_> (0)'` |
| DebugScreensProofs.UnconfiguredCorners | src/index.ts:96-97 | with the default corners, `bottom` is `6px` and `left` is `4px` |
| DebugScreensProofs.UnconfiguredPlugin | src/index.ts:39-74 | with nothing configured, the rule is `.debug-screens::before` with the default label and corners |
| DebugScreensProofs.UnconfiguredKeys | src/index.ts:92-107 | with nothing configured, the rule has exactly the fixed properties, `bottom` and `left` |
| DebugScreensProofs.UserColorOverrides | src/index.ts:69-73 | a user `color` replaces the default colour while the background and shadow stay |
| DebugScreensProofs.PixelBreakpointQuery | src/index.ts:61-64 | a pixel breakpoint's media query shows its name and size with no pixel part |
| DebugScreensProofs.TwoPixelBreakpoints | src/index.ts:39-74 | two pixel breakpoints under the defaults: the label names the first, and each media query shows its own breakpoint |

## Left out

- `theme(...)` and `addComponents(...)` are the host's API. The theme
  values are the `ThemeConfig` parameter, with the defaults from the code.
  The rule is returned rather than registered.
- The `ExtractPluginAPI` / `PluginAPI` types (src/index.ts:10-21) are
  type-level only and have no runtime behaviour.
- Object key order: JavaScript enumerates integer-like keys (such as
  `"0"`) first, in numeric order, and other keys in insertion order. Every
  record in this model keeps insertion order for all keys: the screens, the
  default style (a corner named like an integer), the media queries and
  the user style. The screens arrive as an already-ordered sequence.
- Numbers are unbounded integers. Two effects of Number arithmetic are not
  modelled: the loss of precision above 2^53, and the exponent form that
  `toString` uses from 1e21 on. Smaller sizes are exact.
- `NaNpx`: the result for a size with `rem` but no leading integer is
  modelled, but no property about it is proved.
- A non-string screen value is its display text only. The object form of a
  breakpoint and its `String()` conversion are not modelled.
- User style values are CSS text or a nested `{ content }` block. Other
  nested objects are not modelled.
- The plugin updates `mediaQueries` and the default-style object in place.
  The model reassigns values instead. No other code holds a reference to
  these objects, so no aliasing is lost.
- DebugScreensProofs.MergedRuleGet, DefaultsSurvive and BreakpointLabelShown
  require the user style to have distinct keys, as every JavaScript object
  does.
- The examples (`Unconfigured...`, `TwoPixelBreakpoints`, `48rem`,
  `1.5rem`) are proved for the default options only.
- test/test.ts only logs and calls the plugin with a signature the source
  no longer has. tsup.config.ts is build configuration. Neither is part of
  this model.
