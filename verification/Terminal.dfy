/**
 Select Graphic Rendition (section 8.3.117 of ECMA-48): the sequences the renderer emits for a
 style map (src/virtual_dom/renderer.rs, `apply_styles`), and the terminal that reads them.
 The style map is a hash map, so its entries come in an arbitrary order.
 */
module Terminal {
  import opened Basics
  import opened VirtualDom

  const ESCAPE: char := '\U{1B}'

  datatype Look = Look(foreground: Option<nat>, background: Option<nat>,
                       bold: bool, italic: bool, underline: bool, struck: bool)

  const PLAIN := Look(None, None, false, false, false, false)

  datatype Cell = Cell(glyph: char, look: Look)

  /** What has been read of a control sequence; the last argument is still being read. */
  datatype Mode = Ground | Escaped | Sequence(arguments: seq<nat>)

  datatype Screen = Screen(mode: Mode, look: Look, cells: seq<Cell>)

  // ----- the terminal ---------------------------------------------------------------------------

  function Select(look: Look, code: nat): Look {
    if code == 0 then PLAIN
    else if code == 1 then look.(bold := true)
    else if code == 3 then look.(italic := true)
    else if code == 4 then look.(underline := true)
    else if code == 9 then look.(struck := true)
    else if 30 <= code <= 37 then look.(foreground := Some(code - 30))
    else if 40 <= code <= 47 then look.(background := Some(code - 40))
    else look
  }

  function SelectAll(look: Look, codes: seq<nat>): Look
    decreases |codes|
  {
    if codes == [] then look else SelectAll(Select(look, codes[0]), codes[1..])
  }

  /** One character from the stream; "erase in display 2" empties the screen. */
  function Feed(s: Screen, c: char): Screen {
    match s.mode
    case Ground => if c == ESCAPE then s.(mode := Escaped) else s.(cells := s.cells + [Cell(c, s.look)])
    case Escaped => s.(mode := if c == '[' then Sequence([0]) else Ground)
    case Sequence(arguments) =>
      if arguments == [] then s.(mode := Ground)
      else
        var n := |arguments| - 1;
        if '0' <= c <= '9' then s.(mode := Sequence(arguments[n := 10 * arguments[n] + (c as int - '0' as int)]))
        else if c == ';' then s.(mode := Sequence(arguments + [0]))
        else if c == 'm' then Screen(Ground, SelectAll(s.look, arguments), s.cells)
        else if c == 'J' && arguments == [2] then Screen(Ground, s.look, [])
        else if '@' <= c <= '~' then s.(mode := Ground)
        else s
  }

  function FeedAll(s: Screen, text: string): Screen
    decreases |text|
  {
    if text == "" then s else FeedAll(Feed(s, text[0]), text[1..])
  }

  lemma {:induction false} FeedSplit(s: Screen, a: string, b: string)
    ensures FeedAll(s, a + b) == FeedAll(FeedAll(s, a), b)
    decreases |a|
  {
    if a == "" {
      assert a + b == b;
    } else {
      assert (a + b)[1..] == a[1..] + b;
      FeedSplit(Feed(s, a[0]), a[1..], b);
    }
  }

  function Cells(text: string, look: Look): seq<Cell> {
    seq(|text|, i requires 0 <= i < |text| => Cell(text[i], look))
  }

  /** Text without ESC is shown as it is, in the look of the moment. */
  lemma {:induction false} FeedText(s: Screen, text: string)
    requires s.mode == Ground && ESCAPE !in text
    ensures FeedAll(s, text) == s.(cells := s.cells + Cells(text, s.look))
    decreases |text|
  {
    if text != "" {
      FeedText(Feed(s, text[0]), text[1..]);
      assert Cells(text, s.look) == [Cell(text[0], s.look)] + Cells(text[1..], s.look);
    } else {
      assert Cells(text, s.look) == [];
    }
  }

  // ----- the emitter ----------------------------------------------------------------------------

  /** The eight named colours, by their last digit. */
  function Colour(name: string): (n: Option<nat>)
    ensures n.Some? ==> n.value < 8
  {
    if name == "black" then Some(0)
    else if name == "red" then Some(1)
    else if name == "green" then Some(2)
    else if name == "yellow" then Some(3)
    else if name == "blue" then Some(4)
    else if name == "magenta" then Some(5)
    else if name == "cyan" then Some(6)
    else if name == "white" then Some(7)
    else None
  }

  function Code(digits: string): string { [ESCAPE, '['] + digits + ['m'] }

  function ColourCode(prefix: char, name: string): string {
    match Colour(name)
    case Some(n) => Code([prefix, '0' + n as char])
    case None => Code("0")
  }

  /** The entries the renderer knows. */
  datatype Kind = Foreground | Background | Bold | Underline | Italic | Struck | Unknown

  function KindOf(key: string): Kind {
    if key == "color" then Foreground
    else if key == "background" then Background
    else if key == "bold" then Bold
    else if key == "underline" then Underline
    else if key == "italic" then Italic
    else if key == "strikethrough" then Struck
    else Unknown
  }

  /** What one entry of the style map emits. */
  function EntryCode(key: string, value: string): string {
    match KindOf(key)
    case Foreground => ColourCode('3', value)
    case Background => ColourCode('4', value)
    case Bold => if value == "true" then Code("1") else ""
    case Underline => if value == "true" then Code("4") else ""
    case Italic => if value == "true" then Code("3") else ""
    case Struck => if value == "true" then Code("9") else ""
    case Unknown => ""
  }

  /** The entries in one order. */
  ghost predicate IsOrder(order: seq<string>, styles: Attrs) {
    && (forall i, j :: 0 <= i < j < |order| ==> order[i] != order[j])
    && (forall key :: key in order <==> key in styles)
  }

  function Codes(order: seq<string>, styles: Attrs): string
    requires forall key :: key in order ==> key in styles
  {
    if order == [] then ""
    else Codes(order[..|order| - 1], styles) + EntryCode(order[|order| - 1], styles[order[|order| - 1]])
  }

  // ----- what an entry does ---------------------------------------------------------------------

  predicate Resets(key: string, value: string) {
    KindOf(key) in {Foreground, Background} && Colour(value) == None
  }

  predicate Sets(key: string, value: string) {
    || (KindOf(key) in {Foreground, Background} && Colour(value).Some?)
    || (KindOf(key) in {Bold, Underline, Italic, Struck} && value == "true")
  }

  function Effect(key: string, value: string, look: Look): Look {
    match KindOf(key)
    case Foreground => if Colour(value) == None then PLAIN else look.(foreground := Colour(value))
    case Background => if Colour(value) == None then PLAIN else look.(background := Colour(value))
    case Bold => look.(bold := look.bold || value == "true")
    case Underline => look.(underline := look.underline || value == "true")
    case Italic => look.(italic := look.italic || value == "true")
    case Struck => look.(struck := look.struck || value == "true")
    case Unknown => look
  }

  function Digit(c: char): nat
    requires '0' <= c <= '9'
  {
    c as int - '0' as int
  }

  lemma FeedOne(s: Screen, c: char)
    ensures FeedAll(s, [c]) == Feed(s, c)
  {
    assert [c][1..] == "";
  }

  lemma FeedIntroducer(s: Screen, rest: string)
    requires s.mode == Ground
    ensures FeedAll(s, [ESCAPE, '['] + rest) == FeedAll(s.(mode := Sequence([0])), rest)
  {
    FeedSplit(s, [ESCAPE, '['], rest);
    FeedSplit(s, [ESCAPE], ['[']);
    assert [ESCAPE] + ['['] == [ESCAPE, '['];
    FeedOne(s, ESCAPE);
    FeedOne(s.(mode := Escaped), '[');
  }

  lemma FeedSelect(s: Screen, n: nat)
    requires s.mode == Sequence([n])
    ensures FeedAll(s, ['m']) == Screen(Ground, Select(s.look, n), s.cells)
  {
    FeedOne(s, 'm');
    assert [n][1..] == [];
    assert SelectAll(Select(s.look, n), []) == Select(s.look, n);
  }

  lemma FeedCode1(s: Screen, a: char)
    requires s.mode == Ground && '0' <= a <= '9'
    ensures FeedAll(s, Code([a])) == s.(look := Select(s.look, Digit(a)))
  {
    var t := s.(mode := Sequence([0]));
    FeedIntroducer(s, [a] + ['m']);
    assert Code([a]) == [ESCAPE, '['] + ([a] + ['m']);
    FeedSplit(t, [a], ['m']);
    FeedOne(t, a);
    assert [0][0 := Digit(a)] == [Digit(a)];
    FeedSelect(s.(mode := Sequence([Digit(a)])), Digit(a));
  }

  lemma FeedCode2(s: Screen, a: char, b: char)
    requires s.mode == Ground && '0' <= a <= '9' && '0' <= b <= '9'
    ensures FeedAll(s, Code([a, b])) == s.(look := Select(s.look, 10 * Digit(a) + Digit(b)))
  {
    var t := s.(mode := Sequence([0]));
    var n := 10 * Digit(a) + Digit(b);
    FeedIntroducer(s, [a] + ([b] + ['m']));
    assert Code([a, b]) == [ESCAPE, '['] + ([a] + ([b] + ['m']));
    FeedSplit(t, [a], [b] + ['m']);
    FeedOne(t, a);
    assert [0][0 := Digit(a)] == [Digit(a)];
    var u := s.(mode := Sequence([Digit(a)]));
    FeedSplit(u, [b], ['m']);
    FeedOne(u, b);
    assert [Digit(a)][0 := n] == [n];
    assert Feed(u, b) == s.(mode := Sequence([n]));
    FeedSelect(s.(mode := Sequence([n])), n);
  }

  /** The terminal reads an entry's code as that entry's effect. */
  lemma FeedEntry(s: Screen, key: string, value: string)
    requires s.mode == Ground
    ensures FeedAll(s, EntryCode(key, value)) == s.(look := Effect(key, value, s.look))
  {
    match KindOf(key)
    case Foreground => FeedColour(s, '3', value);
    case Background => FeedColour(s, '4', value);
    case Bold => FeedCode1(s, '1');
    case Underline => FeedCode1(s, '4');
    case Italic => FeedCode1(s, '3');
    case Struck => FeedCode1(s, '9');
    case Unknown =>
  }

  lemma FeedColour(s: Screen, prefix: char, name: string)
    requires s.mode == Ground && '3' <= prefix <= '4'
    ensures FeedAll(s, ColourCode(prefix, name)) == s.(look :=
              if Colour(name) == None then PLAIN
              else if prefix == '3' then s.look.(foreground := Colour(name))
              else s.look.(background := Colour(name)))
  {
    match Colour(name)
    case Some(n) => FeedCode2(s, prefix, '0' + n as char);
    case None => FeedCode1(s, '0');
  }

  function Effects(order: seq<string>, styles: Attrs, look: Look): Look
    requires forall key :: key in order ==> key in styles
  {
    if order == [] then look
    else
      var key := order[|order| - 1];
      Effect(key, styles[key], Effects(order[..|order| - 1], styles, look))
  }

  lemma {:induction false} FeedCodes(s: Screen, order: seq<string>, styles: Attrs)
    requires s.mode == Ground
    requires forall key :: key in order ==> key in styles
    ensures FeedAll(s, Codes(order, styles)) == s.(look := Effects(order, styles, s.look))
  {
    if order != [] {
      var key := order[|order| - 1];
      var init := order[..|order| - 1];
      FeedCodes(s, init, styles);
      FeedSplit(s, Codes(init, styles), EntryCode(key, styles[key]));
      FeedEntry(s.(look := Effects(init, styles, s.look)), key, styles[key]);
    }
  }

  // ----- independence of the order ----------------------------------------------------------------

  /** The value of the entry of one kind, if the map has it among `keys`. */
  function ValueOf(keys: set<string>, styles: Attrs, name: string): Option<string> {
    if name in keys && name in styles then Some(styles[name]) else None
  }

  /** The look a style map asks for, told without any order. */
  function Styled(keys: set<string>, styles: Attrs, look: Look): Look {
    Look(if ValueOf(keys, styles, "color").Some? then Colour(styles["color"]) else look.foreground,
         if ValueOf(keys, styles, "background").Some? then Colour(styles["background"]) else look.background,
         look.bold || ValueOf(keys, styles, "bold") == Some("true"),
         look.italic || ValueOf(keys, styles, "italic") == Some("true"),
         look.underline || ValueOf(keys, styles, "underline") == Some("true"),
         look.struck || ValueOf(keys, styles, "strikethrough") == Some("true"))
  }

  /** Colours and backgrounds are among the eight named ones. */
  predicate Named(styles: Attrs) {
    forall key :: key in styles ==> !Resets(key, styles[key])
  }

  lemma NamesDiffer()
    ensures KindOf("color") == Foreground && KindOf("background") == Background && KindOf("bold") == Bold
    ensures KindOf("underline") == Underline && KindOf("italic") == Italic && KindOf("strikethrough") == Struck
  {
  }

  lemma ValueOfMore(keys: set<string>, key: string, styles: Attrs, name: string)
    requires key in styles
    ensures KindOf(name) != KindOf(key) ==> ValueOf(keys + {key}, styles, name) == ValueOf(keys, styles, name)
    ensures name == key ==> ValueOf(keys + {key}, styles, name) == Some(styles[key])
  {
  }

  lemma OneMoreStyled(keys: set<string>, key: string, styles: Attrs, look: Look)
    requires key in styles && !Resets(key, styles[key])
    ensures Styled(keys + {key}, styles, look) == Effect(key, styles[key], Styled(keys, styles, look))
  {
    NamesDiffer();
    ValueOfMore(keys, key, styles, "color");
    ValueOfMore(keys, key, styles, "background");
    ValueOfMore(keys, key, styles, "bold");
    ValueOfMore(keys, key, styles, "underline");
    ValueOfMore(keys, key, styles, "italic");
    ValueOfMore(keys, key, styles, "strikethrough");
  }

  function KeySet(order: seq<string>): set<string> {
    if order == [] then {} else KeySet(order[..|order| - 1]) + {order[|order| - 1]}
  }

  lemma {:induction false} KeySetOf(order: seq<string>)
    ensures forall key :: key in KeySet(order) <==> key in order
  {
    if order != [] {
      KeySetOf(order[..|order| - 1]);
    }
  }

  lemma {:induction false} EffectsAreStyled(order: seq<string>, styles: Attrs, look: Look)
    requires Named(styles)
    requires forall key :: key in order ==> key in styles
    ensures Effects(order, styles, look) == Styled(KeySet(order), styles, look)
  {
    if order != [] {
      var n := |order| - 1;
      EffectsAreStyled(order[..n], styles, look);
      OneMoreStyled(KeySet(order[..n]), order[n], styles, look);
    }
  }

  /** With named colours every order of the entries leaves the terminal in the same state. */
  lemma NamedOrderFree(s: Screen, order: seq<string>, styles: Attrs)
    requires s.mode == Ground && Named(styles) && IsOrder(order, styles)
    ensures FeedAll(s, Codes(order, styles)) == s.(look := Styled(styles.Keys, styles, s.look))
  {
    FeedCodes(s, order, styles);
    EffectsAreStyled(order, styles, s.look);
    KeySetOf(order);
    assert KeySet(order) == styles.Keys;
  }

  ghost predicate OrderFree(styles: Attrs) {
    forall s: Screen, a: seq<string>, b: seq<string> | s.mode == Ground && IsOrder(a, styles) && IsOrder(b, styles) ::
      FeedAll(s, Codes(a, styles)) == FeedAll(s, Codes(b, styles))
  }

  /** An unnamed colour, which resets everything, next to an entry that sets something. */
  predicate Conflict(styles: Attrs) {
    && (exists key :: key in styles && Resets(key, styles[key]))
    && (exists key :: key in styles && Sets(key, styles[key]))
  }

  lemma {:induction false} OnlyResets(order: seq<string>, styles: Attrs, look: Look)
    requires forall key :: key in order ==> key in styles && !Sets(key, styles[key])
    ensures Effects(order, styles, look)
         == if exists key :: key in order && Resets(key, styles[key]) then PLAIN else look
  {
    if order != [] {
      var n := |order| - 1;
      OnlyResets(order[..n], styles, look);
      assert order == order[..n] + [order[n]];
    }
  }

  /** Some order of a finite set of keys, ending in a chosen one. */
  lemma {:induction false} OrderEndingIn(styles: Attrs, last: string) returns (order: seq<string>)
    requires last in styles
    ensures IsOrder(order, styles) && order != [] && order[|order| - 1] == last
    decreases |styles|
  {
    var others := map key | key in styles && key != last :: styles[key];
    if others.Keys == {} {
      order := [last];
      assert styles.Keys == {last} + others.Keys;
    } else {
      var next :| next in others.Keys;
      assert styles.Keys == others.Keys + {last};
      assert |others| == |others.Keys| < |styles.Keys| == |styles|;
      var init := OrderEndingIn(others, next);
      order := init + [last];
    }
  }

  lemma SetsSomething(key: string, value: string, look: Look)
    requires Sets(key, value)
    ensures Effect(key, value, look) != PLAIN
  {
  }

  /** The order of the entries matters exactly when a reset meets a setting. */
  lemma {:induction false} OrderFreeExactly(styles: Attrs)
    ensures OrderFree(styles) <==> !Conflict(styles)
  {
    if Conflict(styles) {
      var r :| r in styles && Resets(r, styles[r]);
      var t :| t in styles && Sets(t, styles[t]);
      var a := OrderEndingIn(styles, r);
      var b := OrderEndingIn(styles, t);
      var s := Screen(Ground, PLAIN, []);
      FeedCodes(s, a, styles);
      FeedCodes(s, b, styles);
      SetsSomething(t, styles[t], Effects(b[..|b| - 1], styles, PLAIN));
      assert FeedAll(s, Codes(a, styles)) != FeedAll(s, Codes(b, styles));
    } else {
      forall s: Screen, a: seq<string>, b: seq<string> | s.mode == Ground && IsOrder(a, styles) && IsOrder(b, styles)
        ensures FeedAll(s, Codes(a, styles)) == FeedAll(s, Codes(b, styles))
      {
        SameEffects(s, a, b, styles);
      }
    }
  }

  lemma {:induction false} SameEffects(s: Screen, a: seq<string>, b: seq<string>, styles: Attrs)
    requires !Conflict(styles) && s.mode == Ground && IsOrder(a, styles) && IsOrder(b, styles)
    ensures FeedAll(s, Codes(a, styles)) == FeedAll(s, Codes(b, styles))
  {
    if Named(styles) {
      NamedOrderFree(s, a, styles);
      NamedOrderFree(s, b, styles);
    } else {
      FeedCodes(s, a, styles);
      FeedCodes(s, b, styles);
      OnlyResets(a, styles, s.look);
      OnlyResets(b, styles, s.look);
    }
  }

  // ----- the codes, written out -------------------------------------------------------------------

  const COLOURS := ["black", "red", "green", "yellow", "blue", "magenta", "cyan", "white"]

  lemma ColourAt(i: nat)
    requires i < 8
    ensures Colour(COLOURS[i]) == Some(i)
  {
    assert COLOURS[0] == "black" && COLOURS[1] == "red" && COLOURS[2] == "green" && COLOURS[3] == "yellow";
    assert COLOURS[4] == "blue" && COLOURS[5] == "magenta" && COLOURS[6] == "cyan" && COLOURS[7] == "white";
  }

  lemma OtherName(name: string)
    requires name !in COLOURS
    ensures Colour(name) == None
  {
    assert COLOURS[0] == "black" && COLOURS[1] == "red" && COLOURS[2] == "green" && COLOURS[3] == "yellow";
    assert COLOURS[4] == "blue" && COLOURS[5] == "magenta" && COLOURS[6] == "cyan" && COLOURS[7] == "white";
  }

  /** The `i`-th colour is emitted as 30 + i, or 40 + i for the background, and the terminal takes it as
      colour `i`, changing nothing else. */
  lemma NamedColour(s: Screen, i: nat)
    requires s.mode == Ground && i < 8
    ensures EntryCode("color", COLOURS[i]) == ['\U{1B}', '[', '3', '0' + i as char, 'm']
    ensures EntryCode("background", COLOURS[i]) == ['\U{1B}', '[', '4', '0' + i as char, 'm']
    ensures FeedAll(s, EntryCode("color", COLOURS[i])) == s.(look := s.look.(foreground := Some(i)))
    ensures FeedAll(s, EntryCode("background", COLOURS[i])) == s.(look := s.look.(background := Some(i)))
  {
    NamesDiffer();
    ColourAt(i);
    FeedEntry(s, "color", COLOURS[i]);
    FeedEntry(s, "background", COLOURS[i]);
  }

  /** Any other colour resets everything. */
  lemma OtherColour(s: Screen, name: string)
    requires s.mode == Ground && name !in COLOURS
    ensures EntryCode("color", name) == EntryCode("background", name) == ['\U{1B}', '[', '0', 'm']
    ensures FeedAll(s, EntryCode("color", name)) == FeedAll(s, EntryCode("background", name)) == s.(look := PLAIN)
  {
    NamesDiffer();
    OtherName(name);
    FeedEntry(s, "color", name);
    FeedEntry(s, "background", name);
  }

  /** The four switches and their numbers; they work on the value "true" only. */
  lemma Switches(s: Screen, value: string)
    requires s.mode == Ground
    ensures EntryCode("bold", "true") == ['\U{1B}', '[', '1', 'm']
    ensures EntryCode("italic", "true") == ['\U{1B}', '[', '3', 'm']
    ensures EntryCode("underline", "true") == ['\U{1B}', '[', '4', 'm']
    ensures EntryCode("strikethrough", "true") == ['\U{1B}', '[', '9', 'm']
    ensures FeedAll(s, EntryCode("bold", "true")) == s.(look := s.look.(bold := true))
    ensures FeedAll(s, EntryCode("italic", "true")) == s.(look := s.look.(italic := true))
    ensures FeedAll(s, EntryCode("underline", "true")) == s.(look := s.look.(underline := true))
    ensures FeedAll(s, EntryCode("strikethrough", "true")) == s.(look := s.look.(struck := true))
    ensures value != "true" ==>
      EntryCode("bold", value) == EntryCode("italic", value) == EntryCode("underline", value)
        == EntryCode("strikethrough", value) == ""
  {
    NamesDiffer();
    FeedEntry(s, "bold", "true");
    FeedEntry(s, "italic", "true");
    FeedEntry(s, "underline", "true");
    FeedEntry(s, "strikethrough", "true");
  }

  lemma OtherEntry(key: string, value: string)
    requires key !in {"color", "background", "bold", "underline", "italic", "strikethrough"}
    ensures EntryCode(key, value) == ""
  {
  }

  lemma CodesMore(order: seq<string>, key: string, styles: Attrs)
    requires key in styles && forall k :: k in order ==> k in styles
    ensures forall k :: k in order + [key] ==> k in styles
    ensures Codes(order + [key], styles) == Codes(order, styles) + EntryCode(key, styles[key])
  {
    assert (order + [key])[..|order|] == order;
  }

  /** One entry's sequence. */
  method StyleCode(key: string, value: string) returns (code: string)
    ensures code == EntryCode(key, value)
  {
    code := "";
    match KindOf(key) {
      case Foreground => code := ColourCode('3', value);
      case Background => code := ColourCode('4', value);
      case Bold => if value == "true" { code := Code("1"); }
      case Underline => if value == "true" { code := Code("4"); }
      case Italic => if value == "true" { code := Code("3"); }
      case Struck => if value == "true" { code := Code("9"); }
      case Unknown =>
    }
  }

  /** `apply_styles`: the entries in whatever order the map gives them. */
  method ApplyStyles(styles: Attrs) returns (codes: string)
    ensures exists order :: IsOrder(order, styles) && codes == Codes(order, styles)
  {
    codes := "";
    ghost var order: seq<string> := [];
    var keys := styles.Keys;
    while keys != {}
      invariant keys <= styles.Keys
      invariant forall i, j :: 0 <= i < j < |order| ==> order[i] != order[j]
      invariant forall key :: key in order <==> key in styles && key !in keys
      invariant codes == Codes(order, styles)
      decreases keys
    {
      var key :| key in keys;
      var code := StyleCode(key, styles[key]);
      CodesMore(order, key, styles);
      codes := codes + code;
      order := order + [key];
      keys := keys - {key};
    }
  }
}
