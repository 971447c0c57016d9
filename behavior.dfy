/** The string dialect of behaviours (`parse_custom_behavior_properly`):
    a behaviour such as `&mo LAYER_Number` or `&LeftPinky(N, LCTRL)` is
    classified by the first substring test that matches, in the source's
    order, and the matching family then computes the label. */
module Behavior {
  import opened Results
  import opened Text
  import opened Keymap
  import opened Catalog

  /** What the resolver is given besides the binding: the key-code table
      and the two symbol catalogs. */
  datatype Env = Env(keys: KeyTable, emoji: SymbolCatalog, world: SymbolCatalog)

  /** The four fingers of a home-row modifier. */
  datatype Role = Pinky | Ringy | Middy | Index

  /** The modifier each finger holds on an overlay layer. */
  function ModGlyph(role: Role): string {
    match role
    case Pinky => CtrlGlyph
    case Ringy => AltGlyph
    case Middy => CmdGlyph
    case Index => ShiftGlyph
  }

  /** The base-layer tap key each finger shows when none is written out. */
  function DefaultTap(role: Role): string {
    match role
    case Pinky => "N"
    case Ringy => "R"
    case Middy => "T"
    case Index => "S"
  }

  /** The names by which behaviours refer to a finger's home-row
      modifier on either hand. */
  function LeftName(role: Role): string {
    match role
    case Pinky => "LeftPinky"
    case Ringy => "LeftRingy"
    case Middy => "LeftMiddy"
    case Index => "LeftIndex"
  }

  function RightName(role: Role): string {
    match role
    case Pinky => "RightPinky"
    case Ringy => "RightRingy"
    case Middy => "RightMiddy"
    case Index => "RightIndex"
  }

  /** The key-code constants of the home-row modifiers, `LEFT_PINKY_MOD`
      through `RIGHT_INDEX_MOD`, and their spelling with the underscores
      removed. */
  function HandWord(left: bool): string {
    if left then "LEFT" else "RIGHT"
  }

  function FingerWord(role: Role): string {
    match role
    case Pinky => "PINKY"
    case Ringy => "RINGY"
    case Middy => "MIDDY"
    case Index => "INDEX"
  }

  function ModConstant(role: Role, left: bool): string {
    HandWord(left) + "_" + FingerWord(role) + "_MOD"
  }

  function CleanModConstant(role: Role, left: bool): string {
    HandWord(left) + FingerWord(role) + "MOD"
  }

  /** The code names the finger's constant for either hand. */
  predicate NamesModConstant(code: string, role: Role) {
    Contains(code, ModConstant(role, true)) || Contains(code, ModConstant(role, false))
  }

  predicate NamesCleanConstant(clean: string, role: Role) {
    Contains(clean, CleanModConstant(role, true)) || Contains(clean, CleanModConstant(role, false))
  }

  /** One branch of the first-match chain. */
  datatype Family =
    | HomeRow(role: Role)
    | FunctionTap
    | Fixed(text: string)
    | KeyPress
    | ToLayer
    | Momentary
    | Sticky
    | Toggle
    | Underglow
    | Scroll
    | MouseMove
    | MouseClick
    | Bluetooth
    | Output
    | Thumb
    | ThumbKeyPress
    | KeyPressHome
    | KeyPressEnd
    | CmdCombo
    | Extend
    | Select
    | Emoji
    | World
    | Unmatched

  /** One test of the first-match chain: the behaviour belongs to the
      family when it contains any of the patterns. */
  datatype Test = Test(patterns: seq<string>, family: Family)

  /** The chain of substring tests, in source order, in six groups. */
  const Chain: seq<Test> :=
    FingerTests + PunctuationTests + LayerTests + DeviceTests + ThumbTests + LateTests

  /** Home-row modifiers, then the function-layer taps (0-4). */
  const FingerTests: seq<Test> := [
    Test(["LeftPinky", "RightPinky"], HomeRow(Pinky)),
    Test(["LeftRingy", "RightRingy"], HomeRow(Ringy)),
    Test(["LeftMiddy", "RightMiddy"], HomeRow(Middy)),
    Test(["LeftIndex", "RightIndex"], HomeRow(Index)),
    Test(FunctionTapNames, FunctionTap)
  ]

  const FunctionTapNames: seq<string> := [
    "left_pinky", "left_ringy_tap", "left_middy_tap", "left_index_tap",
    "right_pinky_tap", "right_ringy_tap", "right_middy_tap", "right_index_tap"
  ]

  /** Punctuation behaviours (5-11). */
  const PunctuationTests: seq<Test> := [
    Test(["&gr_au"], Fixed("'")),
    Test(["&gr_cm"], Fixed(",")),
    Test(["&gr_pd"], Fixed(".")),
    Test(["&gr_fs"], Fixed("/")),
    Test(["&gr_mi"], Fixed("-")),
    Test(["parang_left"], Fixed("(")),
    Test(["parang_right"], Fixed(")"))
  ]

  /** Key presses and layer behaviours (12-18). */
  const LayerTests: seq<Test> := [
    Test(["&kp "], KeyPress),
    Test(["&to "], ToLayer),
    Test(["&magic"], Fixed("MAGIC")),
    Test(["&lower"], Fixed("LOWER")),
    Test(["&mo "], Momentary),
    Test(["&sk"], Sticky),
    Test(["&tog"], Toggle)
  ]

  /** Lighting, mouse, system and output behaviours (19-30). */
  const DeviceTests: seq<Test> := [
    Test(["&rgb_ug"], Underglow),
    Test(["&msc"], Scroll),
    Test(["&mmv"], MouseMove),
    Test(["&mkp"], MouseClick),
    Test(["&linux_magic_sysrq"], Fixed("SysRq")),
    Test(["&bt"], Bluetooth),
    Test(["&abc"], Fixed("ABC")),
    Test(["&cyrilic"], Fixed("\U{410}\U{411}\U{412}")),
    Test(["&bootloader"], Fixed("Bootldr")),
    Test(["&reset"], Fixed("Reset")),
    Test(["&out"], Output),
    Test(["&space"], Fixed(SpaceGlyph))
  ]

  /** Thumb keys and Home/End (31-36). */
  const ThumbTests: seq<Test> := [
    Test(["&thumb"], Thumb),
    Test(["&thumb_kp"], ThumbKeyPress),
    Test(["&kp _HOME"], KeyPressHome),
    Test(["&kp _END"], KeyPressEnd),
    Test(["_HOME"], Fixed("HOME")),
    Test(["_END"], Fixed("END"))
  ]

  /** Command combinations, selections and symbols (37-41). */
  const LateTests: seq<Test> := [
    Test(["_C(", "C("], CmdCombo),
    Test(["&extend_"], Extend),
    Test(["&select_"], Select),
    Test(["&emoji_"], Emoji),
    Test(["&world_"], World)
  ]

  /** Does b contain any of the patterns? */
  predicate AnyContains(b: string, patterns: seq<string>) {
    patterns != [] && (Contains(b, patterns[0]) || AnyContains(b, patterns[1..]))
  }

  lemma {:induction false} AnyContainsIff(b: string, patterns: seq<string>)
    ensures AnyContains(b, patterns) <==> exists i :: 0 <= i < |patterns| && Contains(b, patterns[i])
  {
    if patterns != [] {
      AnyContainsIff(b, patterns[1..]);
      if Contains(b, patterns[0]) {
        assert 0 < |patterns|;
      }
      forall i | 1 <= i < |patterns| ensures patterns[i] == patterns[1..][i - 1] {}
    }
  }

  /** The first test at or after i that b passes decides its family. */
  function FirstMatch(b: string, tests: seq<Test>, i: nat): Family
    decreases |tests| - i
  {
    if i >= |tests| then Unmatched
    else if AnyContains(b, tests[i].patterns) then tests[i].family
    else FirstMatch(b, tests, i + 1)
  }

  /** The family of a (stripped) behaviour. */
  function Classify(b: string): Family {
    FirstMatch(b, Chain, 0)
  }

  /** The first test b passes decides its family. */
  lemma {:induction false} FirstMatchAt(b: string, tests: seq<Test>, i: nat, k: nat)
    requires i <= k < |tests| && AnyContains(b, tests[k].patterns)
    requires forall j :: i <= j < k ==> !AnyContains(b, tests[j].patterns)
    ensures FirstMatch(b, tests, i) == tests[k].family
    decreases k - i
  {
    if i < k {
      FirstMatchAt(b, tests, i + 1, k);
    }
  }

  /** The result is the family of the first test b passes, or Unmatched
      when it passes none. */
  lemma {:induction false} FirstMatchOutcome(b: string, tests: seq<Test>, i: nat)
    ensures (forall k :: i <= k < |tests| ==> !AnyContains(b, tests[k].patterns)) ==>
      FirstMatch(b, tests, i) == Unmatched
    ensures FirstMatch(b, tests, i) == Unmatched ||
      exists k :: i <= k < |tests| && AnyContains(b, tests[k].patterns) && FirstMatch(b, tests, i) == tests[k].family
        && forall j :: i <= j < k ==> !AnyContains(b, tests[j].patterns)
    decreases |tests| - i
  {
    if i < |tests| && !AnyContains(b, tests[i].patterns) {
      FirstMatchOutcome(b, tests, i + 1);
    }
  }

  /** If b passes test k, its family comes from test k or an earlier one. */
  lemma {:induction false} FirstMatchNoLater(b: string, tests: seq<Test>, i: nat, k: nat)
    requires i <= k < |tests| && AnyContains(b, tests[k].patterns)
    ensures exists j :: i <= j <= k && FirstMatch(b, tests, i) == tests[j].family
    decreases k - i
  {
    if !AnyContains(b, tests[i].patterns) {
      FirstMatchNoLater(b, tests, i + 1, k);
    }
  }

  lemma AnyContainsPair(b: string, p: string, q: string)
    ensures AnyContains(b, [p, q]) <==> Contains(b, p) || Contains(b, q)
  {
    assert [p, q][1..] == [q];
    AnyContainsOne(b, q);
  }

  lemma AnyContainsOne(b: string, p: string)
    ensures AnyContains(b, [p]) <==> Contains(b, p)
  {
    assert [p][1..] == [];
  }

  // Where the families the lemmas below rely on sit in the chain, one
  // fact per lemma.
  lemma ChainNoUnmatched()
    ensures forall k :: 0 <= k < |Chain| ==> Chain[k].family != Unmatched
  {
  }

  lemma ChainFunctionTapRow()
    ensures forall k :: 0 <= k < |Chain| && Chain[k].family == FunctionTap ==> k == 4
    ensures Chain[4] == Test(FunctionTapNames, FunctionTap)
  {
  }

  lemma ChainThumbKeyPressRow()
    ensures forall k :: 0 <= k < |Chain| && Chain[k].family == ThumbKeyPress ==> k == 32
    ensures Chain[31].patterns == ["&thumb"] && Chain[32] == Test(["&thumb_kp"], ThumbKeyPress)
  {
  }

  lemma ChainKeyPressHomeRow()
    ensures forall k :: 0 <= k < |Chain| && Chain[k].family == KeyPressHome ==> k == 33
    ensures Chain[12].patterns == ["&kp "] && Chain[33] == Test(["&kp _HOME"], KeyPressHome)
  {
  }

  lemma ChainKeyPressEndRow()
    ensures forall k :: 0 <= k < |Chain| && Chain[k].family == KeyPressEnd ==> k == 34
    ensures Chain[12].patterns == ["&kp "] && Chain[34] == Test(["&kp _END"], KeyPressEnd)
  {
  }

  function RoleAt(j: nat): Role
    requires j < 4
  {
    if j == 0 then Pinky else if j == 1 then Ringy else if j == 2 then Middy else Index
  }

  lemma RoleRow(role: Role)
    ensures RoleRank(role) < |Chain|
    ensures Chain[RoleRank(role)] == Test([LeftName(role), RightName(role)], HomeRow(role))
  {
  }

  lemma RoleAtRank(role: Role)
    ensures RoleAt(RoleRank(role)) == role
  {
  }


  /** Does the behaviour name this finger's home-row modifier? */
  predicate NamesRole(b: string, role: Role) {
    Contains(b, LeftName(role)) || Contains(b, RightName(role))
  }

  predicate NamesFunctionTap(b: string) {
    AnyContains(b, FunctionTapNames)
  }

  // ------------------------------------------------- C(<letter>) search

  /** Does `C(` + an upper-case letter + `)` start at i? */
  predicate CmdAt(s: string, i: nat) {
    i + 4 <= |s| && s[i] == 'C' && s[i + 1] == '(' && 'A' <= s[i + 2] <= 'Z' && s[i + 3] == ')'
  }

  function CmdLetterFrom(s: string, i: nat): Option<char>
    decreases |s| - i
  {
    if i + 4 > |s| then None
    else if CmdAt(s, i) then Some(s[i + 2])
    else CmdLetterFrom(s, i + 1)
  }

  /** `re.search(r'_?C\(([A-Z])\)', s)`: the letter of the leftmost
      `C(X)` (the optional underscore never changes which letter is found). */
  function CmdLetter(s: string): Option<char> {
    CmdLetterFrom(s, 0)
  }

  lemma {:induction false} CmdLetterFromSpec(s: string, i: nat)
    ensures CmdLetterFrom(s, i).Some? ==>
      exists k :: i <= k && CmdAt(s, k) && CmdLetterFrom(s, i) == Some(s[k + 2])
        && forall j :: i <= j < k ==> !CmdAt(s, j)
    ensures CmdLetterFrom(s, i).None? ==> forall k :: i <= k ==> !CmdAt(s, k)
    decreases |s| - i
  {
    if i + 4 <= |s| && !CmdAt(s, i) {
      CmdLetterFromSpec(s, i + 1);
    }
  }

  /** The search finds the letter of the leftmost `C(X)`, and nothing when
      there is no such occurrence. */
  lemma CmdLetterSpec(s: string)
    ensures CmdLetter(s).Some? ==>
      exists k :: CmdAt(s, k) && CmdLetter(s) == Some(s[k + 2]) && forall j :: 0 <= j < k ==> !CmdAt(s, j)
    ensures CmdLetter(s).None? <==> forall k :: 0 <= k ==> !CmdAt(s, k)
  {
    CmdLetterFromSpec(s, 0);
  }

  function CmdLabel(s: string): string {
    match CmdLetter(s)
    case Some(c) => CmdGlyph + [c]
    case None => CmdGlyph
  }

  // ------------------------------------------------------ the families

  /** The first argument of a parenthesised behaviour:
      `behavior.split('(')[1].split(',')[0].strip()`. */
  function TapArg(b: string): string
    requires Contains(b, "(")
  {
    Strip(Before(SecondPiece(b, "("), ","))
  }

  function HomeRowLabel(b: string, role: Role, overlay: bool, keys: KeyTable): string {
    if overlay then ModGlyph(role)
    else if Contains(b, "(") && Contains(b, ")") then MapOr(keys, TapArg(b))
    else DefaultTap(role)
  }

  function FunctionTapLabel(b: string, keys: KeyTable): Result<string> {
    var parts := Words(b);
    if |parts| >= 2 then Ok(MapOr(keys, parts[|parts| - 1]))
    else if Contains(b, "left_pinky") then Ok("Q")
    else if Contains(b, "left_ringy_tap") then Ok("F1")
    else if Contains(b, "left_middy_tap") then Ok("F2")
    else if Contains(b, "left_index_tap") then Ok("F3")
    else if Contains(b, "right_pinky_tap") then Ok("F10")
    else if Contains(b, "right_ringy_tap") then Ok("F9")
    else if Contains(b, "right_middy_tap") then Ok("F8")
    else if Contains(b, "right_index_tap") then Ok("F7")
    else Err("Unknown tap behavior: " + b)
  }

  /** `&kp <code>` written as text: command combinations, home-row
      modifier constants (glyph on overlays, tap key on the base layer),
      else the code with underscores removed, through the key table. */
  function KeyPressLabel(code: string, overlay: bool, keys: KeyTable): string {
    if Contains(code, "_C(") || Contains(code, "C(") then CmdLabel(code)
    else if overlay && NamesModConstant(code, Pinky) then CtrlGlyph
    else if overlay && NamesModConstant(code, Ringy) then AltGlyph
    else if overlay && NamesModConstant(code, Middy) then CmdGlyph
    else if overlay && NamesModConstant(code, Index) then ShiftGlyph
    else if overlay && (Contains(code, "LGUI") || Contains(code, "RGUI")) then CmdGlyph
    else
      var clean := RemoveAll(code, "_");
      if NamesCleanConstant(clean, Pinky) then "N"
      else if NamesCleanConstant(clean, Ringy) then "R"
      else if NamesCleanConstant(clean, Middy) then "T"
      else if NamesCleanConstant(clean, Index) then "S"
      else MapOr(keys, clean)
  }

  /** The first word after `LAYER_`: `b.split('LAYER_')[1].split()[0]`,
      which raises when that piece holds no word. */
  function LayerWord(b: string): Result<string>
    requires Contains(b, "LAYER_")
  {
    var ws := Words(SecondPiece(b, "LAYER_"));
    if ws == [] then Err("list index out of range") else Ok(ws[0])
  }

  function MomentaryLabel(b: string): Result<string> {
    if Contains(b, "LAYER_MouseSlow") then Ok("SlowMouse")
    else if Contains(b, "LAYER_MouseFast") then Ok("FastMouse")
    else if Contains(b, "LAYER_MouseWarp") then Ok("WarpMouse")
    else if Contains(b, "LAYER_") then
      var w :- LayerWord(b);
      Ok(Take(w, 8))
    else Ok("Layer")
  }

  function StickyLabel(b: string): string {
    if Contains(b, "RIGHT_INDEX_MOD") || Contains(b, "LEFT_INDEX_MOD") then StickyGlyph + ShiftGlyph
    else if Contains(b, "RIGHT_MIDDY_MOD") || Contains(b, "LEFT_MIDDY_MOD") then StickyGlyph + CmdGlyph
    else if Contains(b, "RIGHT_RINGY_MOD") || Contains(b, "LEFT_RINGY_MOD") then StickyGlyph + AltGlyph
    else if Contains(b, "RIGHT_PINKY_MOD") || Contains(b, "LEFT_PINKY_MOD") then StickyGlyph + CtrlGlyph
    else if Contains(b, "LSHIFT") || Contains(b, "RSHIFT") then StickyGlyph + ShiftGlyph
    else if Contains(b, "LGUI") || Contains(b, "RGUI") then StickyGlyph + CmdGlyph
    else if Contains(b, "LALT") || Contains(b, "RALT") then StickyGlyph + AltGlyph
    else if Contains(b, "LCTRL") || Contains(b, "RCTRL") then StickyGlyph + CtrlGlyph
    else
      var parts := Words(b);
      if |parts| >= 2 && parts[1] in {"LSHIFT", "RSHIFT", "SHIFT"} then StickyGlyph + ShiftGlyph
      else if |parts| >= 2 && parts[1] in {"LGUI", "RGUI", "LCMD", "RCMD", "CMD"} then StickyGlyph + CmdGlyph
      else if |parts| >= 2 && parts[1] in {"LALT", "RALT", "ALT"} then StickyGlyph + AltGlyph
      else if |parts| >= 2 && parts[1] in {"LCTRL", "RCTRL", "CTRL"} then StickyGlyph + CtrlGlyph
      else StickyGlyph + ShiftGlyph
  }

  /** The fixed labels of the known toggle layers, in test order. */
  const KnownToggles: seq<(string, string)> := [
    ("LAYER_Function", "Fn"), ("LAYER_Cursor", "Cur"), ("LAYER_Number", "Num"),
    ("LAYER_Symbol", "Sym"), ("LAYER_Mouse", "Mouse"), ("LAYER_System", "Sys"),
    ("LAYER_Emoji", "Emoji"), ("LAYER_World", "World")
  ]

  /** The short name of the first listed layer the behaviour names. */
  function FirstNamed(b: string, table: seq<(string, string)>, i: nat): Option<string>
    decreases |table| - i
  {
    if i >= |table| then None
    else if Contains(b, table[i].0) then Some(table[i].1)
    else FirstNamed(b, table, i + 1)
  }

  function KnownToggle(b: string): Option<string> {
    FirstNamed(b, KnownToggles, 0)
  }

  function ToggleLabel(b: string): Result<string> {
    match KnownToggle(b)
    case Some(short) => Ok(LockGlyph + short)
    case None =>
      if Contains(b, "LAYER_") then
        var w :- LayerWord(b);
        Ok(LockGlyph + Take(w, 4))
      else Ok(ToggleGlyph)
  }

  function UnderglowLabel(b: string): string {
    if Contains(b, "RGB_TOG") then RainbowGlyph
    else if Contains(b, "RGB_HUI") then "Hue+"
    else if Contains(b, "RGB_HUD") then "Hue-"
    else if Contains(b, "RGB_SAI") then "Sat+"
    else if Contains(b, "RGB_SAD") then "Sat-"
    else if Contains(b, "RGB_BRI") then "Bright+"
    else if Contains(b, "RGB_BRD") then "Bright-"
    else if Contains(b, "RGB_SPI") then "Speed+"
    else if Contains(b, "RGB_SPD") then "Speed-"
    else if Contains(b, "RGB_EFF") then "Effect+"
    else if Contains(b, "RGB_EFR") then "Effect-"
    else "RGB"
  }

  function ScrollLabel(b: string): string {
    if Contains(b, "SCRL_UP") then "Scroll" + UpArrow
    else if Contains(b, "SCRL_DOWN") then "Scroll" + DownArrow
    else if Contains(b, "SCRL_LEFT") then "Scroll" + LeftArrow
    else if Contains(b, "SCRL_RIGHT") then "Scroll" + RightArrow
    else "Scroll"
  }

  function MoveLabel(b: string): string {
    if Contains(b, "MOVE_UP") then UpArrow
    else if Contains(b, "MOVE_DOWN") then DownArrow
    else if Contains(b, "MOVE_LEFT") then LeftArrow
    else if Contains(b, "MOVE_RIGHT") then RightArrow
    else "Move"
  }

  function ClickLabel(b: string): string {
    if Contains(b, "LCLK") then "LeftClick"
    else if Contains(b, "RCLK") then "RightClick"
    else if Contains(b, "MCLK") then "MiddleClick"
    else if Contains(b, "MB4") then "Button4"
    else if Contains(b, "MB5") then "Button5"
    else "Click"
  }

  function BluetoothLabel(b: string): string {
    if Contains(b, "BT_CLR") then "BT Clear"
    else if Contains(b, "BT_SEL") then
      if Contains(b, "0") then "BT 0"
      else if Contains(b, "1") then "BT 1"
      else if Contains(b, "2") then "BT 2"
      else if Contains(b, "3") then "BT 3"
      else if Contains(b, "4") then "BT 4"
      else "BT Sel"
    else if Contains(b, "BT_NXT") then "BT Next"
    else if Contains(b, "BT_PRV") then "BT Prev"
    else "BT"
  }

  function OutputLabel(b: string): string {
    if Contains(b, "OUT_USB") then "USB Out"
    else if Contains(b, "OUT_BLE") then "BT Out"
    else if Contains(b, "OUT_TOG") then "Out Toggle"
    else "Output"
  }

  function ThumbLabel(b: string, keys: KeyTable): string {
    var parts := Words(b);
    if |parts| >= 3 then MapOr(keys, parts[|parts| - 1]) else "THUMB"
  }

  function ThumbKeyPressLabel(b: string): string {
    if Contains(b, "_END") then "END"
    else if Contains(b, "_HOME") then "HOME"
    else "THUMBKP"
  }

  function ExtendLabel(b: string): string {
    if Contains(b, "&extend_word") then "Ext Word"
    else if Contains(b, "&extend_line") then "Ext Line"
    else if Contains(b, "&extend_all") then "Ext All"
    else "Extend"
  }

  function SelectLabel(b: string): string {
    if Contains(b, "&select_word") then "Sel Word"
    else if Contains(b, "&select_line") then "Sel Line"
    else if Contains(b, "&select_all") then "Sel All"
    else if Contains(b, "&select_none") then "Clear"
    else "Select"
  }

  /** `behavior.replace('&', '').replace('_', '').upper()`. */
  function Cleaned(b: string): string {
    Upper(RemoveAll(RemoveAll(b, "&"), "_"))
  }

  /** The last resort: the cleaned behaviour through the key table, or an
      error that quotes the behaviour as given. */
  function Fallback(original: string, b: string, keys: KeyTable): Result<string> {
    var clean := Cleaned(b);
    if clean in keys then Ok(keys[clean])
    else Err("Unknown behavior '" + original + "' (cleaned: '" + clean + "')")
  }

  /** `parse_custom_behavior_properly(behavior_str, layer_name)`. */
  function Parse(original: string, layerName: string, env: Env): Result<string> {
    if original == "" then Err("Empty behavior string provided")
    else
      var b := Strip(original);
      var overlay := IsOverlay(layerName);
      match Classify(b)
      case HomeRow(role) => Ok(HomeRowLabel(b, role, overlay, env.keys))
      case FunctionTap => FunctionTapLabel(b, env.keys)
      case Fixed(text) => Ok(text)
      case KeyPress =>
        var parts := Words(b);
        if |parts| >= 2 then Ok(KeyPressLabel(parts[1], overlay, env.keys))
        else Fallback(original, b, env.keys)
      case ToLayer =>
        var parts := Words(b);
        Ok(if |parts| >= 2 then "Layer " + parts[1] else "Layer")
      case Momentary => MomentaryLabel(b)
      case Sticky => Ok(StickyLabel(b))
      case Toggle => ToggleLabel(b)
      case Underglow => Ok(UnderglowLabel(b))
      case Scroll => Ok(ScrollLabel(b))
      case MouseMove => Ok(MoveLabel(b))
      case MouseClick => Ok(ClickLabel(b))
      case Bluetooth => Ok(BluetoothLabel(b))
      case Output => Ok(OutputLabel(b))
      case Thumb => Ok(ThumbLabel(b, env.keys))
      case ThumbKeyPress => Ok(ThumbKeyPressLabel(b))
      case KeyPressHome => Ok("HOME")
      case KeyPressEnd => Ok("END")
      case CmdCombo => Ok(CmdLabel(b))
      case Extend => Ok(ExtendLabel(b))
      case Select => Ok(SelectLabel(b))
      case Emoji => EmojiLookup(Strip(RemoveAll(b, "&emoji_")), env.emoji)
      case World => WorldLookup(Strip(RemoveAll(b, "&world_")), env.world)
      case Unmatched => Fallback(original, b, env.keys)
  }

  // ------------------------------------------------------------ lemmas

  /** The order in which the four fingers are tested. */
  function RoleRank(role: Role): nat {
    match role
    case Pinky => 0
    case Ringy => 1
    case Middy => 2
    case Index => 3
  }

  /** The finger's own test passes on the stripped behaviour. */
  lemma RoleTestPasses(s: string, role: Role)
    requires NamesRole(s, role)
    ensures AnyContains(Strip(s), Chain[RoleRank(role)].patterns)
  {
    var left, right := LeftName(role), RightName(role);
    if Contains(s, left) {
      ContainsStrip(s, left);
    } else {
      ContainsStrip(s, right);
    }
    RoleRow(role);
    AnyContainsPair(Strip(s), left, right);
  }

  /** The test of a finger the behaviour does not name fails. */
  lemma RoleTestFails(s: string, r: Role)
    requires !NamesRole(s, r)
    ensures !AnyContains(Strip(s), Chain[RoleRank(r)].patterns)
  {
    var b := Strip(s);
    RoleRow(r);
    if Contains(b, LeftName(r)) {
      StripInside(s, LeftName(r));
    }
    if Contains(b, RightName(r)) {
      StripInside(s, RightName(r));
    }
    AnyContainsPair(b, LeftName(r), RightName(r));
  }

  /** A behaviour naming a finger, and no finger tested before it, is a
      home-row modifier of that finger, whatever whitespace surrounds it. */
  lemma HomeRowRecognised(s: string, role: Role)
    requires NamesRole(s, role)
    requires forall r: Role :: RoleRank(r) < RoleRank(role) ==> !NamesRole(s, r)
    ensures Classify(Strip(s)) == HomeRow(role)
  {
    var b := Strip(s);
    RoleTestPasses(s, role);
    RoleRow(role);
    forall j | 0 <= j < RoleRank(role) ensures !AnyContains(b, Chain[j].patterns) {
      var r := RoleAt(j);
      RoleAtRank(r);
      RoleTestFails(s, r);
    }
    FirstMatchAt(b, Chain, 0, RoleRank(role));
  }

  /** A home-row modifier shows its modifier glyph on every overlay layer
      and a tap key on the base layer: the first argument when the
      behaviour is written with parentheses, else the finger's default. */
  lemma HomeRowByLayer(s: string, role: Role, layerName: string, env: Env)
    requires s != "" && Classify(Strip(s)) == HomeRow(role)
    ensures IsOverlay(layerName) ==> Parse(s, layerName, env) == Ok(ModGlyph(role))
    ensures !IsOverlay(layerName) && !(Contains(s, "(") && Contains(s, ")")) ==>
      Parse(s, layerName, env) == Ok(DefaultTap(role))
    ensures !IsOverlay(layerName) && Contains(Strip(s), "(") && Contains(Strip(s), ")") ==>
      Parse(s, layerName, env) == Ok(MapOr(env.keys, TapArg(Strip(s))))
  {
    if Contains(Strip(s), "(") {
      StripInside(s, "(");
    }
    if Contains(Strip(s), ")") {
      StripInside(s, ")");
    }
  }

  /** The tap key is the first argument, trimmed. */
  lemma TapArgFirst(pre: string, arg: string, rest: string)
    requires '(' !in pre && '(' !in arg && ',' !in arg
    ensures Contains(pre + "(" + arg + "," + rest, "(")
    ensures TapArg(pre + "(" + arg + "," + rest) == Strip(arg)
  {
    SplitFirst(pre, "(", arg + "," + rest);
    assert pre + "(" + arg + "," + rest == pre + "(" + (arg + "," + rest);
    if '(' in rest {
      var front, back := SplitAtFirst(rest, "(");
      assert arg + "," + rest == (arg + "," + front) + "(" + back;
      SplitFirst(arg + "," + front, "(", back);
      SplitFirst(arg, ",", front);
    } else {
      SplitNone(arg + "," + rest, "(");
      SplitFirst(arg, ",", rest);
    }
  }

  /** With a single argument and no comma, the closing parenthesis stays
      part of the tap key. */
  lemma TapArgSingle(pre: string, arg: string, post: string)
    requires '(' !in pre && '(' !in arg + ")" + post && ',' !in arg + ")" + post
    ensures Contains(pre + "(" + arg + ")" + post, "(")
    ensures TapArg(pre + "(" + arg + ")" + post) == Strip(arg + ")" + post)
  {
    SplitFirst(pre, "(", arg + ")" + post);
    assert pre + "(" + arg + ")" + post == pre + "(" + (arg + ")" + post);
    SplitNone(arg + ")" + post, "(");
    SplitNone(arg + ")" + post, ",");
  }

  /** `&LeftPinky` alone is a pinky home-row modifier written without
      arguments. */
  lemma LeftPinkyAlone()
    ensures Classify(Strip("&LeftPinky")) == HomeRow(Pinky)
    ensures Strip("&LeftPinky") == "&LeftPinky"
  {
    StripTrimmed("&LeftPinky");
    var b := "&LeftPinky";
    ContainsInside("&", "LeftPinky", "");
    assert "&" + "LeftPinky" + "" == b;
    HomeRowRecognised(b, Pinky);
  }

  lemma LeftPinkyWithoutArguments()
    ensures !Contains("&LeftPinky", "(")
  {
    SplitNone("&LeftPinky", "(");
  }

  /** `&LeftPinky` shows N on the base layer. */
  lemma LeftPinkyOnBase(env: Env)
    ensures Parse("&LeftPinky", "GRAPHITE", env) == Ok("N")
  {
    LeftPinkyAlone();
    LeftPinkyWithoutArguments();
    HomeRowByLayer("&LeftPinky", Pinky, "GRAPHITE", env);
  }

  /** `&LeftPinky` shows the control glyph on an overlay. */
  lemma LeftPinkyOnOverlay(env: Env)
    ensures Parse("&LeftPinky", "Function", env) == Ok(CtrlGlyph)
  {
    LeftPinkyAlone();
    HomeRowByLayer("&LeftPinky", Pinky, "Function", env);
  }

  /** A family whose only test comes after an earlier test that every
      behaviour passing it also passes is never the result. */
  lemma Shadowed(b: string, tests: seq<Test>, earlier: nat, later: nat)
    requires earlier < later < |tests| && tests[later].family != Unmatched
    requires AnyContains(b, tests[later].patterns) ==> AnyContains(b, tests[earlier].patterns)
    requires forall k :: 0 <= k < |tests| && tests[k].family == tests[later].family ==> k == later
    ensures FirstMatch(b, tests, 0) != tests[later].family
  {
    FirstMatchOutcome(b, tests, 0);
    if AnyContains(b, tests[earlier].patterns) {
      FirstMatchNoLater(b, tests, 0, earlier);
    }
  }

  /** `&thumb_kp` is never reached: every behaviour containing it
      contains `&thumb`, tested earlier. */
  lemma ThumbKeyPressShadowed(b: string)
    ensures Classify(b) != ThumbKeyPress
  {
    ChainThumbKeyPressRow();
    AnyContainsOne(b, "&thumb");
    AnyContainsOne(b, "&thumb_kp");
    assert "&thumb" + "_kp" == "&thumb_kp";
    if Contains(b, "&thumb_kp") {
      ContainsPrefixOf(b, "&thumb", "_kp");
    }
    Shadowed(b, Chain, 31, 32);
  }

  /** `&kp _HOME` is never reached: `&kp ` is tested earlier. */
  lemma KeyPressHomeShadowed(b: string)
    ensures Classify(b) != KeyPressHome
  {
    ChainKeyPressHomeRow();
    AnyContainsOne(b, "&kp ");
    AnyContainsOne(b, "&kp _HOME");
    assert "&kp " + "_HOME" == "&kp _HOME";
    if Contains(b, "&kp _HOME") {
      ContainsPrefixOf(b, "&kp ", "_HOME");
    }
    Shadowed(b, Chain, 12, 33);
  }

  /** `&kp _END` is never reached: `&kp ` is tested earlier. */
  lemma KeyPressEndShadowed(b: string)
    ensures Classify(b) != KeyPressEnd
  {
    ChainKeyPressEndRow();
    AnyContainsOne(b, "&kp ");
    AnyContainsOne(b, "&kp _END");
    assert "&kp " + "_END" == "&kp _END";
    if Contains(b, "&kp _END") {
      ContainsPrefixOf(b, "&kp ", "_END");
    }
    Shadowed(b, Chain, 12, 34);
  }

  /** Inside the function-tap family the final `raise` is unreachable. */
  lemma FunctionTapTotal(b: string, keys: KeyTable)
    requires NamesFunctionTap(b)
    ensures FunctionTapLabel(b, keys).Ok?
    ensures |Words(b)| >= 2 ==> FunctionTapLabel(b, keys) == Ok(MapOr(keys, Words(b)[|Words(b)| - 1]))
  {
    var patterns := FunctionTapNames;
    AnyContainsIff(b, patterns);
    var i :| 0 <= i < |patterns| && Contains(b, patterns[i]);
    assert i < 8;
  }

  /** A `&mo` behaviour on a layer other than the mouse-speed ones shows
      the first eight characters of the first word after `LAYER_` (all of
      it when shorter), and fails exactly when there is no such word. */
  lemma MomentaryShortName(b: string)
    requires Contains(b, "LAYER_")
    requires !Contains(b, "LAYER_MouseSlow") && !Contains(b, "LAYER_MouseFast") && !Contains(b, "LAYER_MouseWarp")
    ensures MomentaryLabel(b).Err? <==> Words(SecondPiece(b, "LAYER_")) == []
    ensures MomentaryLabel(b).Ok? ==>
      var r := MomentaryLabel(b).value;
      var w := Words(SecondPiece(b, "LAYER_"))[0];
      IsWord(r) && |r| == (if |w| <= 8 then |w| else 8) && r <= w
  {
    var ws := Words(SecondPiece(b, "LAYER_"));
    if ws != [] {
      assert IsWord(ws[0]);
    }
  }

  /** A listed layer is found by the first entry the behaviour names. */
  lemma {:induction false} FirstNamedSpec(b: string, table: seq<(string, string)>, i: nat)
    ensures FirstNamed(b, table, i).Some? ==>
      exists k :: i <= k < |table| && Contains(b, table[k].0)
        && FirstNamed(b, table, i).value == table[k].1
        && forall j :: i <= j < k ==> !Contains(b, table[j].0)
    ensures FirstNamed(b, table, i).None? <==> forall k :: i <= k < |table| ==> !Contains(b, table[k].0)
    decreases |table| - i
  {
    if i < |table| && !Contains(b, table[i].0) {
      FirstNamedSpec(b, table, i + 1);
    }
  }

  /** A `&tog` naming no listed layer and no `LAYER_` shows the toggle
      glyph. */
  lemma ToggleUnnamed(b: string)
    requires forall k :: 0 <= k < |KnownToggles| ==> !Contains(b, KnownToggles[k].0)
    requires !Contains(b, "LAYER_")
    ensures ToggleLabel(b) == Ok(ToggleGlyph)
  {
    FirstNamedSpec(b, KnownToggles, 0);
  }

  /** A `&tog` of an unlisted layer shows the lock glyph and the first four
      characters of the first word after `LAYER_` (all of it when shorter),
      and fails exactly when there is no such word. */
  lemma ToggleShortName(b: string)
    requires forall k :: 0 <= k < |KnownToggles| ==> !Contains(b, KnownToggles[k].0)
    requires Contains(b, "LAYER_")
    ensures ToggleLabel(b).Err? <==> Words(SecondPiece(b, "LAYER_")) == []
    ensures ToggleLabel(b).Ok? ==>
      var r := ToggleLabel(b).value;
      var w := Words(SecondPiece(b, "LAYER_"))[0];
      exists v :: r == LockGlyph + v && IsWord(v) && |v| == (if |w| <= 4 then |w| else 4) && v <= w
  {
    FirstNamedSpec(b, KnownToggles, 0);
    var ws := Words(SecondPiece(b, "LAYER_"));
    if ws != [] {
      assert IsWord(ws[0]);
      var v := Take(ws[0], 4);
      assert ToggleLabel(b).value == LockGlyph + v;
      assert IsWord(v) && |v| == (if |ws[0]| <= 4 then |ws[0]| else 4) && v <= ws[0];
    }
  }

  lemma {:induction false} CmdLetterSkip(pre: string, post: string, i: nat)
    requires 'C' !in pre && i <= |pre|
    ensures CmdLetterFrom(pre + post, i) == CmdLetterFrom(pre + post, |pre|)
    decreases |pre| - i
  {
    if i < |pre| {
      assert (pre + post)[i] == pre[i];
      CmdLetterSkip(pre, post, i + 1);
    }
  }

  /** The letter of `C(X)` is found when nothing before it is a `C`. */
  lemma CmdLetterFound(pre: string, c: char, post: string)
    requires 'C' !in pre && 'A' <= c <= 'Z'
    ensures CmdLetter(pre + "C(" + [c] + ")" + post) == Some(c)
    ensures CmdLabel(pre + "C(" + [c] + ")" + post) == CmdGlyph + [c]
  {
    var s := pre + "C(" + [c] + ")" + post;
    assert s == pre + ("C(" + [c] + ")" + post);
    CmdLetterSkip(pre, "C(" + [c] + ")" + post, 0);
    assert CmdAt(s, |pre|);
  }

  /** Removing underscores from a constant spelled with two of them
      leaves its cleaned spelling in place. */
  lemma CleanConstant(pre: string, a: string, b: string, d: string, post: string)
    requires '_' !in a && '_' !in b && '_' !in d
    ensures Contains(RemoveAll(pre + (a + "_" + b + "_" + d) + post, "_"), a + b + d)
  {
    var k := a + "_" + b + "_" + d;
    RemoveCharConcat(pre + k, post, '_');
    RemoveCharConcat(pre, k, '_');
    assert k == a + ['_'] + (b + ['_'] + d);
    RemoveAfterPiece(a, b + ['_'] + d, '_');
    RemoveAfterPiece(b, d, '_');
    RemoveCharAbsent(d, '_');
    assert RemoveAll(k, "_") == a + b + d;
    ContainsInside(RemoveAll(pre, "_"), a + b + d, RemoveAll(post, "_"));
  }

  /** A home-row constant, the first finger's the code names, shows that
      finger's modifier glyph on an overlay and its tap key on the base
      layer, for either hand. */
  lemma KeyPressModConstant(pre: string, post: string, role: Role, left: bool, overlay: bool, keys: KeyTable)
    requires !Contains(pre + ModConstant(role, left) + post, "C(")
    requires overlay ==> forall r: Role :: RoleRank(r) < RoleRank(role) ==>
      !NamesModConstant(pre + ModConstant(role, left) + post, r)
    requires !overlay ==> forall r: Role :: RoleRank(r) < RoleRank(role) ==>
      !NamesCleanConstant(RemoveAll(pre + ModConstant(role, left) + post, "_"), r)
    ensures KeyPressLabel(pre + ModConstant(role, left) + post, overlay, keys)
      == if overlay then ModGlyph(role) else DefaultTap(role)
  {
    var code := pre + ModConstant(role, left) + post;
    NoCommandInside(code);
    if overlay {
      ContainsInside(pre, ModConstant(role, left), post);
      assert NamesModConstant(code, role);
    } else {
      var h, f := HandWord(left), FingerWord(role);
      assert ModConstant(role, left) == h + "_" + f + "_" + "MOD";
      assert '_' !in h && '_' !in f;
      CleanConstant(pre, h, f, "MOD", post);
      assert NamesCleanConstant(RemoveAll(code, "_"), role);
    }
  }

  /** On an overlay `LGUI`/`RGUI` shows the command glyph once no
      home-row constant and no command combination is named. */
  lemma KeyPressGuiOverlay(code: string, keys: KeyTable)
    requires !Contains(code, "C(")
    requires forall r: Role :: !NamesModConstant(code, r)
    requires Contains(code, "LGUI") || Contains(code, "RGUI")
    ensures KeyPressLabel(code, true, keys) == CmdGlyph
  {
    NoCommandInside(code);
  }

  /** A code with no `C(` has no `_C(` either. */
  lemma NoCommandInside(code: string)
    requires !Contains(code, "C(")
    ensures !Contains(code, "_C(")
  {
    assert "_" + "C(" == "_C(";
    if Contains(code, "_C(") {
      ContainsSuffixOf(code, "_", "C(");
    }
  }

  lemma {:induction false} RemoveKeepsAbsent(s: string, pat: string, c: char)
    requires pat != "" && c !in s
    ensures c !in RemoveAll(s, pat)
    decreases |s|
  {
    if |s| >= |pat| {
      if s[..|pat|] == pat {
        RemoveKeepsAbsent(s[|pat|..], pat, c);
      } else {
        RemoveKeepsAbsent(s[1..], pat, c);
      }
    }
  }

  /** The cleaned form used as a last resort holds no `&` and no `_` and
      is upper case. */
  lemma CleanedShape(b: string)
    ensures '&' !in Cleaned(b) && '_' !in Cleaned(b)
    ensures Upper(Cleaned(b)) == Cleaned(b)
  {
    var once := RemoveAll(b, "&");
    RemoveCharGone(b, '&');
    RemoveKeepsAbsent(once, "_", '&');
    RemoveCharGone(once, '_');
    UpperIdempotent(RemoveAll(once, "_"));
  }

  /** An unrecognised behaviour that is not a key name is an error that
      quotes the behaviour as given; one that is a key name maps through
      the table. */
  lemma UnknownBehaviour(s: string, layerName: string, env: Env)
    requires s != "" && Classify(Strip(s)) == Unmatched
    ensures Cleaned(Strip(s)) in env.keys ==> Parse(s, layerName, env) == Ok(env.keys[Cleaned(Strip(s))])
    ensures Cleaned(Strip(s)) !in env.keys ==>
      Parse(s, layerName, env).Err? && Contains(Parse(s, layerName, env).msg, s)
  {
    var clean := Cleaned(Strip(s));
    if clean !in env.keys {
      ContainsInside("Unknown behavior '", s, "' (cleaned: '" + clean + "')");
      assert "Unknown behavior '" + s + ("' (cleaned: '" + clean + "')")
        == "Unknown behavior '" + s + "' (cleaned: '" + clean + "')";
    }
  }

  /** Parsing fails only for the empty string, for a fallback that finds
      no key, for a layer switch without a layer word, and for a symbol
      missing from its catalog. */
  lemma ParseErrorSources(s: string, layerName: string, env: Env)
    requires Parse(s, layerName, env).Err?
    ensures s == "" || Classify(Strip(s)) in {KeyPress, Momentary, Toggle, Emoji, World, Unmatched}
  {
    var b := Strip(s);
    if s != "" && Classify(b) == FunctionTap {
      FirstMatchOutcome(b, Chain, 0);
      var k :| 0 <= k < |Chain| && AnyContains(b, Chain[k].patterns) && Classify(b) == Chain[k].family;
      ChainFunctionTapRow();
      FunctionTapTotal(b, env.keys);
    }
  }

  /** Surrounding whitespace never changes a label. */
  lemma ParseIgnoresPadding(s: string, layerName: string, env: Env)
    requires Strip(s) != ""
    ensures Parse(s, layerName, env).Ok? ==> Parse(Strip(s), layerName, env) == Parse(s, layerName, env)
    ensures Parse(s, layerName, env).Err? ==> Parse(Strip(s), layerName, env).Err?
  {
    StripIdempotent(s);
  }
}
