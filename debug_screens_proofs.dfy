/** What the debug-screens plugin guarantees, proved about the model in `DebugScreens`. */
module DebugScreensProofs {
  import opened Wrappers
  import opened Text
  import opened JsNumber
  import opened Records
  import opened DebugScreens

  /**
   * A size whose text before its first `rem` is white space, an optional
   * sign and decimal digits, possibly followed by a fraction or other
   * characters, converts to 16 times that integer in pixels: the fraction is
   * dropped, not rounded.
   */
  lemma RemSizeInPixels(ws: string, sign: string, d: string, mid: string, rest: string)
    requires forall i :: 0 <= i < |ws| ==> IsWhiteSpace(ws[i])
    requires sign == "" || sign == "+" || sign == "-"
    requires d != [] && AllDigits(d)
    requires 'r' !in mid
    requires mid + rest == [] || !IsDigit((mid + rest)[0])
    ensures SizeInPixels(Str(ws + sign + d + mid + "rem" + rest))
            == NumberToString((if sign == "-" then -(DigitsValue(d) as int) else DigitsValue(d)) * 16) + "px"
  {
    var head := ws + sign + d + mid;
    assert 'r' !in ws by {
      forall i | 0 <= i < |ws| ensures ws[i] != 'r' {
        assert IsWhiteSpace(ws[i]);
      }
    }
    assert 'r' !in d by {
      forall i | 0 <= i < |d| ensures d[i] != 'r' {
        assert IsDigit(d[i]);
      }
    }
    FirstRemAfter(head, rest);
    var s := ws + sign + d + mid + "rem" + rest;
    assert s == head + "rem" + rest;
    assert ReplaceFirst(s, "rem", "") == ws + sign + d + (mid + rest);
    ParseIntDigits(ws, sign, d, mid + rest);
  }

  /** With no `r` before it, the first `rem` is the one that follows `head`. */
  lemma FirstRemAfter(head: string, rest: string)
    requires 'r' !in head
    ensures Includes(head + "rem" + rest, "rem")
    ensures ReplaceFirst(head + "rem" + rest, "rem", "") == head + rest
  {
    var s := head + "rem" + rest;
    forall j | 0 <= j < |head| ensures !OccursAt(s, "rem", j) {
      assert s[j] == head[j];
      if j + 3 <= |s| {
        assert s[j..j + 3][0] == s[j];
      }
    }
    ReplaceFirstAt(head, "rem", rest, "");
    assert head + "" + rest == head + rest;
  }

  /** A size without the letter `r`, such as `"640px"`, has no pixel annotation. */
  lemma NoRemNoPixels(size: string)
    requires 'r' !in size
    ensures SizeInPixels(Str(size)) == ""
    ensures Annotation(SizeInPixels(Str(size)), size) == size
  {
    forall j | 0 <= j <= |size| ensures !OccursAt(size, "rem", j) {
      if j + 3 <= |size| {
        assert size[j..j + 3][0] == size[j];
      }
    }
    assert "" + "" + size == size;
  }

  /** A size that is decimal digits, an optional fraction and `rem` shows 16 times the integer part. */
  lemma RemDigitsSize(d: string, frac: string, size: string)
    requires d != [] && AllDigits(d)
    requires 'r' !in frac && (frac == [] || !IsDigit(frac[0]))
    requires size == d + frac + "rem"
    ensures SizeInPixels(Str(size)) == NumberToString(DigitsValue(d) * 16) + "px"
  {
    var e := "";
    assert size == e + e + d + frac + "rem" + e;
    assert frac + e == frac;
    RemSizeInPixels(e, e, d, frac, e);
  }

  /** `"48rem"` is shown as `768px`. */
  lemma SizeInPixels48Rem(size: string)
    requires size == "48rem"
    ensures SizeInPixels(Str(size)) == "768px"
  {
    var d := "48";
    assert AllDigits(d) && DigitsValue(d) == 48 by {
      assert AllDigits(d[..1]) && d[..1] == "4";
      assert DigitsValue(d[..1]) == 4 by { assert "4"[..0] == ""; }
    }
    RemDigitsSize(d, "", size);
    assert NumberToString(768) == "768" by {
      assert Decimal(7) == "7";
      assert Decimal(76) == "76";
    }
  }

  /** `"1.5rem"` is shown as `16px`: the fraction is cut off, not rounded. */
  lemma SizeInPixelsFractionalRem(size: string)
    requires size == "1.5rem"
    ensures SizeInPixels(Str(size)) == "16px"
  {
    var d, frac := "1", ".5";
    assert AllDigits(d) && DigitsValue(d) == 1 by { assert d[..0] == ""; }
    RemDigitsSize(d, frac, size);
    assert NumberToString(16) == "16" by { assert Decimal(1) == "1"; }
  }

  // ---------------------------------------------------------------------
  // Labels

  /**
   * A breakpoint's label carries a pixel size and a colon exactly when its
   * size mentions `rem`; otherwise it is the plain `"<prefix><name> (size)"`.
   */
  lemma MediaContentSeparator(prefix: string, name: string, size: string)
    ensures MediaContent(prefix, name, size) == "\"" + prefix + "<" + name + "> (" + size + ")\""
            <==> !Includes(size, "rem")
  {
    var px := SizeInPixels(Str(size));
    var plain := "\"" + prefix + "<" + name + "> (" + size + ")\"";
    if px == "" {
      assert Annotation(px, size) == size;
    } else {
      assert |MediaContent(prefix, name, size)| == |plain| + |px| + 1;
    }
  }

  /**
   * The default label carries a pixel size and a colon exactly when the first
   * breakpoint's size is a string mentioning `rem`; otherwise it is the plain
   * `'<prefix>less then <name> (size)'`.
   */
  lemma BaseContentSeparator(prefix: string, screens: seq<Screen>)
    requires screens != [] && screens[0].0 != ""
    ensures var (name, size) := screens[0];
      BaseContent(prefix, screens) == "'" + prefix + "less then <" + name + "> (" + Shown(size) + ")'"
      <==> !(size.Str? && Includes(size.s, "rem"))
  {
    var (name, size) := screens[0];
    var px := SizeInPixels(size);
    var plain := "'" + prefix + "less then <" + name + "> (" + Shown(size) + ")'";
    if px == "" {
      assert Annotation(px, Shown(size)) == Shown(size);
    } else {
      assert |BaseContent(prefix, screens)| == |plain| + |px| + 1;
    }
  }

  /**
   * The default label: taken from the first breakpoint only; with no
   * breakpoint at all it reads "less then <_> (0)"; and the bare
   * `'<prefix>_'` form appears exactly when the first breakpoint's name is
   * the empty string.
   */
  lemma BaseContentCases(prefix: string, screens: seq<Screen>)
    ensures screens != [] ==> BaseContent(prefix, screens) == BaseContent(prefix, screens[..1])
    ensures screens == [] ==> BaseContent(prefix, screens) == "'" + prefix + "less then <_> (0)'"
    ensures BaseContent(prefix, screens) == "'" + prefix + "_'"
            <==> screens != [] && screens[0].0 == ""
  {
    var (name, size) := FirstScreen(screens);
    var c := BaseContent(prefix, screens);
    if screens == [] {
      assert !Includes("0", "rem");
      assert Annotation(SizeInPixels(Str("0")), "0") == "0";
    }
    if name != "" {
      assert c[|prefix| + 1] == 'l';
      assert ("'" + prefix + "_'")[|prefix| + 1] == '_';
    }
  }

  // ---------------------------------------------------------------------
  // The media queries

  /** Two sizes give the same media query only when they are the same size. */
  lemma MediaKeyInjective(a: string, b: string)
    requires MediaKey(a) == MediaKey(b)
    ensures a == b
  {
    var n := |"@media (min-width: "|;
    assert a == MediaKey(a)[n..|MediaKey(a)| - 1];
    assert b == MediaKey(b)[n..|MediaKey(b)| - 1];
  }

  /** The writes for two runs of entries are the writes of the first run, then those of the second. */
  lemma {:induction false} MediaPairsAppend(prefix: string, a: seq<Screen>, b: seq<Screen>)
    ensures MediaPairs(prefix, a + b) == MediaPairs(prefix, a) + MediaPairs(prefix, b)
  {
    if b == [] {
      assert a + b == a;
    } else {
      var n := |b| - 1;
      assert (a + b)[..|a + b| - 1] == a + b[..n];
      assert (a + b)[|a + b| - 1] == b[n];
      MediaPairsAppend(prefix, a, b[..n]);
      var pa, pb, last := MediaPairs(prefix, a), MediaPairs(prefix, b[..n]), ScreenPairs(prefix, b[n]);
      assert pa + pb + last == pa + (pb + last);
    }
  }

  /** Some entry of `screens` passes the guard and has the media query `k`. */
  ghost predicate HasQuery(screens: seq<Screen>, k: string) {
    exists i :: 0 <= i < |screens| && Emits(screens[i].1) && MediaKey(screens[i].1.s) == k
  }

  lemma HasQuerySnoc(screens: seq<Screen>, k: string)
    requires screens != []
    ensures var n := |screens| - 1;
      HasQuery(screens, k)
      <==> HasQuery(screens[..n], k) || (Emits(screens[n].1) && MediaKey(screens[n].1.s) == k)
  {
    var n := |screens| - 1;
    if HasQuery(screens, k) {
      var i :| 0 <= i < |screens| && Emits(screens[i].1) && MediaKey(screens[i].1.s) == k;
      if i < n {
        assert screens[..n][i] == screens[i];
      }
    }
    if HasQuery(screens[..n], k) {
      var i :| 0 <= i < n && Emits(screens[..n][i].1) && MediaKey(screens[..n][i].1.s) == k;
      assert screens[i] == screens[..n][i];
    }
  }

  /** The media-query writes name exactly the keys of the entries that pass the guard. */
  lemma {:induction false} MediaPairsKeys(prefix: string, screens: seq<Screen>, k: string)
    ensures Last(MediaPairs(prefix, screens), k).Some? <==> HasQuery(screens, k)
  {
    if screens != [] {
      var n := |screens| - 1;
      MediaPairsKeys(prefix, screens[..n], k);
      HasQuerySnoc(screens, k);
      LastConcat(MediaPairs(prefix, screens[..n]), ScreenPairs(prefix, screens[n]), k);
    }
  }

  /**
   * `mediaQueries` holds a key `@media (min-width: <size>)` for every entry
   * whose size is a non-empty string, and no other key; no key twice.
   */
  lemma MediaQueriesKeys(prefix: string, screens: seq<Screen>, k: string)
    ensures Distinct(MediaQueries(prefix, screens))
    ensures k in KeyList(MediaQueries(prefix, screens))
            <==> exists i :: 0 <= i < |screens| && Emits(screens[i].1) && MediaKey(screens[i].1.s) == k
  {
    assert HasQuery(screens, k) <==> exists i :: 0 <= i < |screens| && Emits(screens[i].1) && MediaKey(screens[i].1.s) == k;
    AssignDistinct([], MediaPairs(prefix, screens));
    AssignKeyList([], MediaPairs(prefix, screens));
    MediaPairsKeys(prefix, screens, k);
  }

  /** The media keys of the entries that pass the guard, in order, repeats included. */
  function EmittedKeys(screens: seq<Screen>): seq<string> {
    if screens == [] then []
    else
      var v := screens[|screens| - 1].1;
      EmittedKeys(screens[..|screens| - 1]) + (if Emits(v) then [MediaKey(v.s)] else [])
  }

  /** The loop writes the media keys of the guarded entries, in order. */
  lemma {:induction false} MediaPairsKeyList(prefix: string, screens: seq<Screen>)
    ensures KeyList(MediaPairs(prefix, screens)) == EmittedKeys(screens)
  {
    if screens != [] {
      var n := |screens| - 1;
      var pairs := MediaPairs(prefix, screens[..n]);
      MediaPairsKeyList(prefix, screens[..n]);
      if Emits(screens[n].1) {
        KeyListSnoc(pairs, ScreenPairs(prefix, screens[n])[0]);
      } else {
        assert pairs + [] == pairs;
      }
    }
  }

  /**
   * `mediaQueries` lists its keys in the order the entries first produce
   * them: a size repeated later overwrites the value but keeps the first
   * place. CSS applies the `@media` blocks in this order.
   */
  lemma MediaQueriesKeyOrder(prefix: string, screens: seq<Screen>)
    ensures KeyList(MediaQueries(prefix, screens)) == Dedup(EmittedKeys(screens))
  {
    AssignKeyOrder([], MediaPairs(prefix, screens));
    MediaPairsKeyList(prefix, screens);
  }

  /** The last write to an entry's key is the entry's own when no later entry shares its size. */
  lemma {:induction false} MediaPairsLastWins(prefix: string, screens: seq<Screen>, i: int)
    requires 0 <= i < |screens| && Emits(screens[i].1)
    requires forall j :: i < j < |screens| && Emits(screens[j].1) ==> screens[j].1.s != screens[i].1.s
    ensures Last(MediaPairs(prefix, screens), MediaKey(screens[i].1.s))
            == Some(Nested(MediaContent(prefix, screens[i].0, screens[i].1.s)))
  {
    var n := |screens| - 1;
    var init := screens[..n];
    var pairs := MediaPairs(prefix, init);
    var one := ScreenPairs(prefix, screens[n]);
    var key := MediaKey(screens[i].1.s);
    assert MediaPairs(prefix, screens) == pairs + one;
    if i == n {
      LastAt(pairs + one, key, |pairs|);
    } else {
      assert init[i] == screens[i];
      MediaPairsLastWins(prefix, init, i);
      if Emits(screens[n].1) {
        if MediaKey(screens[n].1.s) == key {
          MediaKeyInjective(screens[n].1.s, screens[i].1.s);
        }
      }
      assert (pairs + one)[..|pairs|] == pairs;
      assert one == [] ==> pairs + one == pairs;
    }
  }

  /**
   * Each size's media query shows the label of the last entry with that
   * size: a later entry with the same size overwrites an earlier one.
   */
  lemma MediaQueriesLastWins(prefix: string, screens: seq<Screen>, i: int)
    requires 0 <= i < |screens| && Emits(screens[i].1)
    requires forall j :: i < j < |screens| && Emits(screens[j].1) ==> screens[j].1.s != screens[i].1.s
    ensures Get(MediaQueries(prefix, screens), MediaKey(screens[i].1.s))
            == Some(Nested(MediaContent(prefix, screens[i].0, screens[i].1.s)))
  {
    MediaPairsLastWins(prefix, screens, i);
    AssignGet([], MediaPairs(prefix, screens), MediaKey(screens[i].1.s));
  }

  /** An entry the guard skips changes nothing the other entries produce. */
  lemma MediaQueriesSkip(prefix: string, a: seq<Screen>, e: Screen, b: seq<Screen>)
    requires !Emits(e.1)
    ensures MediaQueries(prefix, a + [e] + b) == MediaQueries(prefix, a + b)
  {
    MediaPairsAppend(prefix, a + [e], b);
    MediaPairsAppend(prefix, a, [e]);
    MediaPairsAppend(prefix, a, b);
    assert MediaPairs(prefix, [e]) == [] by { assert [e][..0] == []; }
    assert MediaPairs(prefix, a) + [] == MediaPairs(prefix, a);
  }

  // ---------------------------------------------------------------------
  // The default style

  /**
   * `position[0] || 'bottom'` and `position[1] || 'left'`: a configured
   * corner is used when it is a non-empty string; a missing or empty one
   * falls back to the default.
   */
  lemma ResolvePosition(config: ThemeConfig)
    ensures var o, p := Resolve(config), config.position;
      && (p.Some? && |p.value| > 0 && p.value[0] != "" ==> o.positionY == p.value[0])
      && (o.positionY != "bottom" ==> p.Some? && |p.value| > 0 && o.positionY == p.value[0])
      && (p.Some? && |p.value| > 1 && p.value[1] != "" ==> o.positionX == p.value[1])
      && (o.positionX != "left" ==> p.Some? && |p.value| > 1 && o.positionX == p.value[1])
  {
  }

  /** The properties of the default style whose values are fixed. */
  const StyleKeys: set<string> := {
    "content", "position", "zIndex", "padding", "lineHeight", "fontSize", "fontFamily",
    "borderRadius", "border", "backgroundColor", "color", "boxShadow" }

  /** The properties written after the two corner offsets, which win over them. */
  const LaterKeys: set<string> := {
    "padding", "lineHeight", "fontSize", "fontFamily", "borderRadius", "border",
    "backgroundColor", "color", "boxShadow" }

  lemma BaseGetAt(prefix: string, positionY: string, positionX: string, screens: seq<Screen>, k: string, i: int)
    requires 0 <= i < 14
    requires BaseLiteral(prefix, positionY, positionX, screens)[i].0 == k
    requires forall j :: i < j < 14 ==> BaseLiteral(prefix, positionY, positionX, screens)[j].0 != k
    ensures Get(GetDebugDisplayCss(prefix, positionY, positionX, screens), k)
            == Some(BaseLiteral(prefix, positionY, positionX, screens)[i].1)
  {
    var lit := BaseLiteral(prefix, positionY, positionX, screens);
    LastAt(lit, k, i);
    AssignGet([], lit, k);
  }

  /**
   * The properties written after the corner offsets always keep their
   * literal values in the default style, whatever the corners are named.
   */
  lemma BaseRuleFixedValues(prefix: string, positionY: string, positionX: string, screens: seq<Screen>)
    ensures var b := GetDebugDisplayCss(prefix, positionY, positionX, screens);
      && Get(b, "padding") == Some(Css("0.75rem 0.25rem"))
      && Get(b, "lineHeight") == Some(Css("1"))
      && Get(b, "fontSize") == Some(Css("12px"))
      && Get(b, "fontFamily") == Some(Css("sans-serif"))
      && Get(b, "borderRadius") == Some(Css("5px"))
      && Get(b, "border") == Some(Css("2px solid #6f84f9ff"))
      && Get(b, "backgroundColor") == Some(Css("#162ba35f"))
      && Get(b, "color") == Some(Css("#2e3982ff"))
      && Get(b, "boxShadow") == Some(Css("0 0 2px 2px #7c75fd3d"))
  {
    BaseTextValues(prefix, positionY, positionX, screens);
    BaseBoxValues(prefix, positionY, positionX, screens);
  }

  lemma BaseTextValues(prefix: string, positionY: string, positionX: string, screens: seq<Screen>)
    ensures var b := GetDebugDisplayCss(prefix, positionY, positionX, screens);
      && Get(b, "padding") == Some(Css("0.75rem 0.25rem"))
      && Get(b, "lineHeight") == Some(Css("1"))
      && Get(b, "fontSize") == Some(Css("12px"))
      && Get(b, "fontFamily") == Some(Css("sans-serif"))
  {
    BaseGetAt(prefix, positionY, positionX, screens, "padding", 5);
    BaseGetAt(prefix, positionY, positionX, screens, "lineHeight", 6);
    BaseGetAt(prefix, positionY, positionX, screens, "fontSize", 7);
    BaseGetAt(prefix, positionY, positionX, screens, "fontFamily", 8);
  }

  lemma BaseBoxValues(prefix: string, positionY: string, positionX: string, screens: seq<Screen>)
    ensures var b := GetDebugDisplayCss(prefix, positionY, positionX, screens);
      && Get(b, "borderRadius") == Some(Css("5px"))
      && Get(b, "border") == Some(Css("2px solid #6f84f9ff"))
      && Get(b, "backgroundColor") == Some(Css("#162ba35f"))
      && Get(b, "color") == Some(Css("#2e3982ff"))
      && Get(b, "boxShadow") == Some(Css("0 0 2px 2px #7c75fd3d"))
  {
    BaseGetAt(prefix, positionY, positionX, screens, "borderRadius", 9);
    BaseGetAt(prefix, positionY, positionX, screens, "border", 10);
    BaseGetAt(prefix, positionY, positionX, screens, "backgroundColor", 11);
    BaseGetAt(prefix, positionY, positionX, screens, "color", 12);
    BaseGetAt(prefix, positionY, positionX, screens, "boxShadow", 13);
  }

  /**
   * The vertical corner gets `6px` and the horizontal one `4px`; when both
   * name the same side, `4px`, written second, wins. A corner named like a
   * property written after it loses to that property.
   */
  lemma BaseRuleCorners(prefix: string, positionY: string, positionX: string, screens: seq<Screen>)
    ensures var b := GetDebugDisplayCss(prefix, positionY, positionX, screens);
      && (positionX !in LaterKeys ==> Get(b, positionX) == Some(Css("4px")))
      && (positionY != positionX && positionY !in LaterKeys ==> Get(b, positionY) == Some(Css("6px")))
  {
    if positionX !in LaterKeys {
      BaseGetAt(prefix, positionY, positionX, screens, positionX, 4);
    }
    if positionY != positionX && positionY !in LaterKeys {
      BaseGetAt(prefix, positionY, positionX, screens, positionY, 3);
    }
  }

  /**
   * The properties written before the corner offsets keep their values
   * unless a corner is named like them, and then the offset replaces them.
   */
  lemma BaseRuleEarlyValues(prefix: string, positionY: string, positionX: string, screens: seq<Screen>)
    ensures var b := GetDebugDisplayCss(prefix, positionY, positionX, screens);
      && ("content" != positionY && "content" != positionX
          ==> Get(b, "content") == Some(Css(BaseContent(prefix, screens))))
      && ("position" != positionY && "position" != positionX ==> Get(b, "position") == Some(Css("fixed")))
      && ("zIndex" != positionY && "zIndex" != positionX ==> Get(b, "zIndex") == Some(Css("2147483647")))
  {
    if "content" != positionY && "content" != positionX {
      BaseGetAt(prefix, positionY, positionX, screens, "content", 0);
    }
    if "position" != positionY && "position" != positionX {
      BaseGetAt(prefix, positionY, positionX, screens, "position", 1);
    }
    if "zIndex" != positionY && "zIndex" != positionX {
      BaseGetAt(prefix, positionY, positionX, screens, "zIndex", 2);
    }
  }

  /** The default style has exactly the fixed properties and the two corner names as keys, once each. */
  lemma BaseRuleKeys(prefix: string, positionY: string, positionX: string, screens: seq<Screen>, k: string)
    ensures Distinct(GetDebugDisplayCss(prefix, positionY, positionX, screens))
    ensures k in KeyList(GetDebugDisplayCss(prefix, positionY, positionX, screens))
            <==> k in StyleKeys || k == positionY || k == positionX
  {
    var lit := BaseLiteral(prefix, positionY, positionX, screens);
    AssignDistinct([], lit);
    AssignKeyList([], lit);
    LastFound(lit, k);
    if exists i :: 0 <= i < |lit| && lit[i].0 == k {
      var i :| 0 <= i < |lit| && lit[i].0 == k;
      BaseKeyNamed(prefix, positionY, positionX, screens, i);
    }
    if k in StyleKeys || k == positionY || k == positionX {
      BaseKeyWritten(prefix, positionY, positionX, screens, k);
    }
  }

  lemma BaseKeyNamed(prefix: string, positionY: string, positionX: string, screens: seq<Screen>, i: int)
    requires 0 <= i < 14
    ensures var k := BaseLiteral(prefix, positionY, positionX, screens)[i].0;
      k in StyleKeys || k == positionY || k == positionX
  {
    assert i in {0, 1, 2, 3, 4, 5, 6, 7, 8, 9, 10, 11, 12, 13};
  }

  lemma BaseKeyWritten(prefix: string, positionY: string, positionX: string, screens: seq<Screen>, k: string)
    requires k in StyleKeys || k == positionY || k == positionX
    ensures exists i :: 0 <= i < 14 && BaseLiteral(prefix, positionY, positionX, screens)[i].0 == k
  {
    var lit := BaseLiteral(prefix, positionY, positionX, screens);
    if k == positionY { assert lit[3].0 == k; }
    else if k == positionX { assert lit[4].0 == k; }
    else if k == "content" { assert lit[0].0 == k; }
    else if k == "position" { assert lit[1].0 == k; }
    else if k == "zIndex" { assert lit[2].0 == k; }
    else if k == "padding" { assert lit[5].0 == k; }
    else if k == "lineHeight" { assert lit[6].0 == k; }
    else if k == "fontSize" { assert lit[7].0 == k; }
    else if k == "fontFamily" { assert lit[8].0 == k; }
    else if k == "borderRadius" { assert lit[9].0 == k; }
    else if k == "border" { assert lit[10].0 == k; }
    else if k == "backgroundColor" { assert lit[11].0 == k; }
    else if k == "color" { assert lit[12].0 == k; }
    else { assert lit[13].0 == k; }
  }

  // ---------------------------------------------------------------------
  // The merged rule

  /**
   * `Object.assign(base, mediaQueries, userStyles)`: each key holds the
   * user's value if the user style names it, else the media query's, else
   * the default style's.
   */
  lemma MergedRuleGet(o: Options, k: string)
    requires Distinct(o.userStyles)
    ensures var user, mq, base := o.userStyles, MediaQueries(o.prefix, o.screens), BaseRule(o);
      Get(MergedRule(o), k)
      == if Get(user, k).Some? then Get(user, k)
         else if Get(mq, k).Some? then Get(mq, k)
         else Get(base, k)
  {
    var user, mq, base := o.userStyles, MediaQueries(o.prefix, o.screens), BaseRule(o);
    AssignGet(Assign(base, mq), user, k);
    DistinctLastIsGet(user, k);
    AssignGet(base, mq, k);
    MediaQueriesKeys(o.prefix, o.screens, k);
    DistinctLastIsGet(mq, k);
  }

  /**
   * The merged rule keeps the default style's keys first and in order, has
   * every key of the default style, the media queries and the user style and
   * no other, each once: the default keys, then the new media keys in the
   * order the breakpoints first produce them, then the user's new keys.
   */
  lemma MergedRuleKeys(o: Options, k: string)
    ensures Distinct(MergedRule(o))
    ensures KeyList(BaseRule(o)) <= KeyList(MergedRule(o))
    ensures k in KeyList(MergedRule(o))
            <==> k in KeyList(BaseRule(o))
                 || k in KeyList(MediaQueries(o.prefix, o.screens))
                 || k in KeyList(o.userStyles)
    ensures KeyList(MergedRule(o))
            == AddKeys(AddKeys(KeyList(BaseRule(o)), Dedup(EmittedKeys(o.screens))), KeyList(o.userStyles))
  {
    var user, mq, base := o.userStyles, MediaQueries(o.prefix, o.screens), BaseRule(o);
    MediaQueriesKeyOrder(o.prefix, o.screens);
    AssignKeyOrder(base, mq);
    AssignKeyOrder(Assign(base, mq), user);
    BaseRuleKeys(o.prefix, o.positionY, o.positionX, o.screens, k);
    AssignDistinct(base, mq);
    AssignDistinct(Assign(base, mq), user);
    AssignKeyList(base, mq);
    AssignKeyList(Assign(base, mq), user);
    LastFound(mq, k);
    LastFound(user, k);
  }

  /** Media keys begin with `@`. */
  lemma MediaQueriesKeysStartWithAt(prefix: string, screens: seq<Screen>, k: string)
    requires k in KeyList(MediaQueries(prefix, screens))
    ensures k != "" && k[0] == '@'
  {
    MediaQueriesKeys(prefix, screens, k);
  }

  /**
   * A default property that the user style does not name and that is not
   * shaped like a media query keeps its default value in the merged rule:
   * user styles override only what they name.
   */
  lemma DefaultsSurvive(o: Options, k: string)
    requires Distinct(o.userStyles)
    requires Get(o.userStyles, k).None?
    requires k == "" || k[0] != '@'
    ensures Get(MergedRule(o), k) == Get(BaseRule(o), k)
  {
    MergedRuleGet(o, k);
    GetFound(MediaQueries(o.prefix, o.screens), k);
    if k in KeyList(MediaQueries(o.prefix, o.screens)) {
      MediaQueriesKeysStartWithAt(o.prefix, o.screens, k);
    }
  }

  /**
   * Every entry whose size is a non-empty string has its media query in the
   * registered rule, whatever the ignore list holds: the list is read and
   * never applied.
   */
  lemma IgnoredScreensStillEmitted(config: ThemeConfig, ignore: seq<string>, i: int)
    requires 0 <= i < |Resolve(config).screens| && Emits(Resolve(config).screens[i].1)
    ensures var c := config.(ignore := Some(ignore));
      && DebugComponent(c) == DebugComponent(config)
      && MediaKey(Resolve(config).screens[i].1.s) in KeyList(DebugComponent(c).1)
  {
    var o := Resolve(config);
    var k := MediaKey(o.screens[i].1.s);
    MediaQueriesKeys(o.prefix, o.screens, k);
    MergedRuleKeys(o, k);
  }

  /**
   * In the registered rule, a breakpoint's media query shows its label when
   * no later entry has the same size and the user style does not set that key.
   */
  lemma BreakpointLabelShown(config: ThemeConfig, i: int)
    requires var o := Resolve(config);
      && Distinct(o.userStyles)
      && 0 <= i < |o.screens| && Emits(o.screens[i].1)
      && (forall j :: i < j < |o.screens| && Emits(o.screens[j].1) ==> o.screens[j].1.s != o.screens[i].1.s)
      && Get(o.userStyles, MediaKey(o.screens[i].1.s)).None?
    ensures var o := Resolve(config);
      Get(DebugComponent(config).1, MediaKey(o.screens[i].1.s))
      == Some(Nested(MediaContent(o.prefix, o.screens[i].0, o.screens[i].1.s)))
  {
    var o := Resolve(config);
    MediaQueriesLastWins(o.prefix, o.screens, i);
    MergedRuleGet(o, MediaKey(o.screens[i].1.s));
  }

  /**
   * An entry with an empty or non-string size that is not the first one
   * leaves the registered rule exactly as if it were absent.
   */
  lemma SkippedEntryInvisible(config: ThemeConfig, a: seq<Screen>, e: Screen, b: seq<Screen>)
    requires Resolve(config).screens == a + [e] + b
    requires a != [] && !Emits(e.1)
    ensures DebugComponent(config) == DebugComponent(config.(screens := Some(a + b)))
  {
    var o := Resolve(config);
    var o' := Resolve(config.(screens := Some(a + b)));
    assert o' == o.(screens := a + b);
    MediaQueriesSkip(o.prefix, a, e, b);
    assert FirstScreen(a + [e] + b) == a[0] == FirstScreen(a + b);
    assert BaseContent(o.prefix, a + [e] + b) == BaseContent(o.prefix, a + b);
    assert BaseRule(o) == BaseRule(o');
  }

  // ---------------------------------------------------------------------
  // Whole-plugin examples

  /** With nothing configured, the options are the defaults and nothing is merged into the default style. */
  lemma UnconfiguredOptions(config: ThemeConfig)
    requires config == ThemeConfig(None, None, None, None, None, None)
    ensures Resolve(config) == Options([], [], ["dark"], "Screen: ", ".debug-screens", "bottom", "left")
    ensures MergedRule(Resolve(config)) == GetDebugDisplayCss("Screen: ", "bottom", "left", [])
  {
    assert MediaPairs("Screen: ", []) == [];
  }

  /** With no breakpoints, the default label reads "less then <_> (0)" after the prefix. */
  lemma NoScreensLabel(prefix: string, positionY: string, positionX: string)
    requires positionY != "content" && positionX != "content"
    ensures Get(GetDebugDisplayCss(prefix, positionY, positionX, []), "content")
            == Some(Css("'" + prefix + "less then <_> (0)'"))
  {
    BaseContentCases(prefix, []);
    BaseRuleEarlyValues(prefix, positionY, positionX, []);
  }

  /** When the first breakpoint is named and sized in pixels, the default label shows its name and size as written. */
  lemma PixelScreenLabel(prefix: string, positionY: string, positionX: string, screens: seq<Screen>, name: string, size: string)
    requires positionY != "content" && positionX != "content"
    requires screens != [] && screens[0] == (name, Str(size)) && name != "" && 'r' !in size
    ensures Get(GetDebugDisplayCss(prefix, positionY, positionX, screens), "content")
            == Some(Css("'" + prefix + "less then <" + name + "> (" + size + ")'"))
  {
    NoRemNoPixels(size);
    BaseRuleEarlyValues(prefix, positionY, positionX, screens);
  }

  lemma UnconfiguredContent(prefix: string)
    requires prefix == "Screen: "
    ensures Get(GetDebugDisplayCss(prefix, "bottom", "left", []), "content")
            == Some(Css("'Screen: less then <_> (0)'"))
  {
    assert "bottom" != "content" && "left" != "content" by {
      assert "content"[0] != "bottom"[0] && "content"[0] != "left"[0];
    }
    NoScreensLabel(prefix, "bottom", "left");
    assert "'" + prefix + "less then <_> (0)'" == "'Screen: less then <_> (0)'";
  }

  lemma UnconfiguredCorners(prefix: string)
    ensures Get(GetDebugDisplayCss(prefix, "bottom", "left", []), "bottom") == Some(Css("6px"))
    ensures Get(GetDebugDisplayCss(prefix, "bottom", "left", []), "left") == Some(Css("4px"))
  {
    assert "bottom" != "left" by { assert "bottom"[0] != "left"[0]; }
    assert "bottom" !in LaterKeys by { assert |"bottom"| == 6; }
    assert "left" !in LaterKeys by { assert |"left"| == 4; }
    BaseRuleCorners(prefix, "bottom", "left", []);
  }

  /**
   * With nothing configured the rule is `.debug-screens::before`, anchored
   * bottom-left, and its label is "Screen: less then <_> (0)".
   */
  lemma UnconfiguredPlugin(config: ThemeConfig)
    requires config == ThemeConfig(None, None, None, None, None, None)
    ensures DebugComponent(config).0 == ".debug-screens::before"
    ensures Get(DebugComponent(config).1, "content") == Some(Css("'Screen: less then <_> (0)'"))
    ensures Get(DebugComponent(config).1, "bottom") == Some(Css("6px"))
    ensures Get(DebugComponent(config).1, "left") == Some(Css("4px"))
  {
    UnconfiguredOptions(config);
    UnconfiguredContent("Screen: ");
    UnconfiguredCorners("Screen: ");
  }

  /** With nothing configured the rule has exactly the default properties, `bottom` and `left`. */
  lemma UnconfiguredKeys(config: ThemeConfig, k: string)
    requires config == ThemeConfig(None, None, None, None, None, None)
    ensures k in KeyList(DebugComponent(config).1) <==> k in StyleKeys || k == "bottom" || k == "left"
  {
    UnconfiguredOptions(config);
    BaseRuleKeys("Screen: ", "bottom", "left", [], k);
  }

  /**
   * A user `color` replaces the default colour, while the other defaults,
   * such as the background, stay.
   */
  lemma UserColorOverrides(config: ThemeConfig)
    requires config.style == Some([("color", Css("#fff"))])
    ensures Get(DebugComponent(config).1, "color") == Some(Css("#fff"))
    ensures Get(DebugComponent(config).1, "backgroundColor") == Some(Css("#162ba35f"))
    ensures Get(DebugComponent(config).1, "boxShadow") == Some(Css("0 0 2px 2px #7c75fd3d"))
  {
    var o := Resolve(config);
    MergedRuleGet(o, "color");
    DefaultsSurvive(o, "backgroundColor");
    DefaultsSurvive(o, "boxShadow");
    BaseRuleFixedValues(o.prefix, o.positionY, o.positionX, o.screens);
  }

  /** The media query of one pixel breakpoint: its label is the size as written, with no pixel annotation. */
  lemma PixelBreakpointQuery(prefix: string, screens: seq<Screen>, i: int, name: string, size: string)
    requires 0 <= i < |screens| && screens[i] == (name, Str(size)) && size != "" && 'r' !in size
    requires forall j :: i < j < |screens| && Emits(screens[j].1) ==> screens[j].1.s != size
    ensures Get(MediaQueries(prefix, screens), MediaKey(size))
            == Some(Nested("\"" + prefix + "<" + name + "> (" + size + ")\""))
  {
    MediaQueriesLastWins(prefix, screens, i);
    NoRemNoPixels(size);
  }

  /**
   * Two breakpoints sized in pixels under the default options: the default
   * label names the first, and each size's media query shows its own
   * breakpoint with no pixel annotation.
   */
  lemma TwoPixelBreakpoints(config: ThemeConfig, a: string, x: string, b: string, y: string)
    requires config == ThemeConfig(Some([(a, Str(x)), (b, Str(y))]), None, None, None, None, None)
    requires a != "" && x != "" && y != "" && x != y && 'r' !in x && 'r' !in y
    ensures Get(DebugComponent(config).1, "content") == Some(Css("'Screen: less then <" + a + "> (" + x + ")'"))
    ensures Get(DebugComponent(config).1, MediaKey(x)) == Some(Nested("\"Screen: <" + a + "> (" + x + ")\""))
    ensures Get(DebugComponent(config).1, MediaKey(y)) == Some(Nested("\"Screen: <" + b + "> (" + y + ")\""))
  {
    var screens := [(a, Str(x)), (b, Str(y))];
    var o := Resolve(config);
    assert o == Options(screens, [], ["dark"], "Screen: ", ".debug-screens", "bottom", "left");
    assert "bottom" != "content" && "left" != "content" by {
      assert "content"[0] != "bottom"[0] && "content"[0] != "left"[0];
    }
    PixelScreenLabel(o.prefix, o.positionY, o.positionX, screens, a, x);
    PixelBreakpointQuery(o.prefix, screens, 0, a, x);
    PixelBreakpointQuery(o.prefix, screens, 1, b, y);
    GetFound<StyleValue>([], "content");
    DefaultsSurvive(o, "content");
    MergedRuleGet(o, MediaKey(x));
    MergedRuleGet(o, MediaKey(y));
    PrefixedText(a, x);
    PrefixedText(b, y);
  }

  /** The default prefix joined to the label text, for any breakpoint name and size. */
  lemma PrefixedText(name: string, size: string)
    ensures "'" + "Screen: " + "less then <" + name + "> (" + size + ")'" == "'Screen: less then <" + name + "> (" + size + ")'"
    ensures "\"" + "Screen: " + "<" + name + "> (" + size + ")\"" == "\"Screen: <" + name + "> (" + size + ")\""
  {
    assert "'" + "Screen: " + "less then <" == "'Screen: less then <";
    assert "\"" + "Screen: " + "<" == "\"Screen: <";
  }
}
