/** The structured resolver (`convert_zmk_key`): a binding record is
    dispatched on its `value` tag; keypresses read their nested `params`
    (shifted keys and modifier chains), the mouse and lighting behaviours
    read a direction or command, and custom or `&`-prefixed behaviours go
    through the string dialect of module Behavior. */
module Resolver {
  import opened Results
  import opened Text
  import opened Keymap
  import opened Tables
  import opened Behavior

  /** `x in ['A', ..., 'Z']`: a single capital letter. */
  predicate IsCapital(k: string) {
    |k| == 1 && 'A' <= k[0] <= 'Z'
  }

  /** The label both shifted forms give to `TAB`. */
  const ShiftTab := ShiftGlyph + TabGlyph

  /** What calling `.get` on something that is not a record raises. */
  const NotARecord := "AttributeError: binding has no attribute 'get'"

  // ------------------------------------------------------- modifier chains

  /** The glyph a modifier wrapper contributes to a chain, if `code` is one. */
  function ChainGlyph(code: string): (g: Option<string>)
    ensures g.Some? <==> code in {"LG", "LA", "LC", "LS"}
  {
    if code == "LG" then Some(CmdGlyph)
    else if code == "LA" then Some(AltGlyph)
    else if code == "LC" then Some(CtrlGlyph)
    else if code == "LS" then Some(ShiftGlyph)
    else None
  }

  /** `''.join(chain)`. */
  function Join(chain: seq<string>): string {
    if chain == [] then "" else chain[0] + Join(chain[1..])
  }

  /** What the chain loop returns when it runs out of nesting: the glyphs
      collected, or `MOD` when there are none. */
  function Collected(chain: seq<string>): string {
    if chain == [] then "MOD" else Join(chain)
  }

  /** The label the modifier-chain loop computes from `p`, having already
      collected the glyphs `chain`. */
  function ChainLabel(p: Binding, chain: seq<string>, keys: KeyTable): string
    decreases p
  {
    match p
    case Scalar(_) => Collected(chain)
    case Node(code, params) =>
      match ChainGlyph(code)
      case None => Join(chain) + MapOr(keys, code)
      case Some(g) =>
        if params == [] then Collected(chain + [g])
        else ChainLabel(params[0], chain + [g], keys)
  }

  /** The modifier-chain loop: walk the first parameter of each wrapper,
      collecting glyphs, until a key ends the chain. */
  method ModChain(first: Binding, keys: KeyTable) returns (r: string)
    ensures r == ChainLabel(first, [], keys)
  {
    var chain: seq<string> := [];
    var current := first;
    while true
      invariant ChainLabel(current, chain, keys) == ChainLabel(first, [], keys)
      decreases current
    {
      if current.Scalar? {
        return Collected(chain);
      }
      var g := ChainGlyph(current.value);
      if g.None? {
        return Join(chain) + MapOr(keys, current.value);
      }
      chain := chain + [g.value];
      if current.params == [] {
        return Collected(chain);
      }
      assert current.params[0] in current.params;
      current := current.params[0];
    }
  }

  /** The structured form of `M1(M2(...(key)))`, outermost wrapper first;
      `extra[i]` are the further parameters of wrapper i, after the one
      the chain continues through. */
  function Wrap(mods: seq<string>, extra: seq<seq<Binding>>, key: Binding): Binding
    requires |extra| == |mods|
  {
    if mods == [] then key else Node(mods[0], [Wrap(mods[1..], extra[1..], key)] + extra[0])
  }

  /** The glyphs of a sequence of modifier wrappers, in the same order. */
  function Glyphs(mods: seq<string>): (r: seq<string>)
    requires forall i :: 0 <= i < |mods| ==> ChainGlyph(mods[i]).Some?
    ensures |r| == |mods|
    ensures forall i :: 0 <= i < |mods| ==> r[i] == ChainGlyph(mods[i]).value
  {
    if mods == [] then [] else [ChainGlyph(mods[0]).value] + Glyphs(mods[1..])
  }

  lemma {:induction false} JoinAppend(a: seq<string>, b: seq<string>)
    ensures Join(a + b) == Join(a) + Join(b)
    decreases |a|
  {
    if a == [] {
      assert a + b == b;
    } else {
      assert (a + b)[1..] == a[1..] + b;
      JoinAppend(a[1..], b);
    }
  }

  /** A chain of modifier wrappers around a key yields the glyphs of the
      wrappers, outermost first, followed by the key through the key
      table. */
  lemma {:induction false} ChainSpec(chain: seq<string>, mods: seq<string>, extra: seq<seq<Binding>>,
                                     key: Binding, keys: KeyTable)
    requires |extra| == |mods|
    requires forall i :: 0 <= i < |mods| ==> ChainGlyph(mods[i]).Some?
    requires key.Node? && ChainGlyph(key.value).None?
    ensures ChainLabel(Wrap(mods, extra, key), chain, keys) == Join(chain + Glyphs(mods)) + MapOr(keys, key.value)
    decreases |mods|
  {
    if mods == [] {
      assert chain + Glyphs(mods) == chain;
    } else {
      var g := ChainGlyph(mods[0]).value;
      assert Wrap(mods, extra, key).params[0] == Wrap(mods[1..], extra[1..], key);
      ChainSpec(chain + [g], mods[1..], extra[1..], key, keys);
      assert chain + [g] + Glyphs(mods[1..]) == chain + Glyphs(mods);
    }
  }

  /** A chain that ends in a wrapper with nothing inside yields only the
      glyphs. */
  lemma {:induction false} ChainBareSpec(chain: seq<string>, mods: seq<string>, extra: seq<seq<Binding>>,
                                         last: string, keys: KeyTable)
    requires |extra| == |mods|
    requires forall i :: 0 <= i < |mods| ==> ChainGlyph(mods[i]).Some?
    requires ChainGlyph(last).Some?
    ensures ChainLabel(Wrap(mods, extra, Node(last, [])), chain, keys)
      == Join(chain + Glyphs(mods) + [ChainGlyph(last).value])
    decreases |mods|
  {
    if mods == [] {
      assert chain + Glyphs(mods) == chain;
    } else {
      var g := ChainGlyph(mods[0]).value;
      assert Wrap(mods, extra, Node(last, [])).params[0] == Wrap(mods[1..], extra[1..], Node(last, []));
      ChainBareSpec(chain + [g], mods[1..], extra[1..], last, keys);
      assert chain + [g] + Glyphs(mods[1..]) == chain + Glyphs(mods);
    }
  }

  // ------------------------------------------------------------ keypresses

  /** `code.startswith(opener) and code.endswith(')')`, giving `code[3:-1]`. */
  function CallArg(code: string, opener: string): (r: Option<string>)
    requires |opener| == 3 && opener[2] == '('
    ensures r.Some? ==> code == opener + r.value + ")"
  {
    if opener <= code && code != [] && code[|code| - 1] == ')' then
      assert |code| != 3 by { assert code[2] == opener[2]; }
      Some(code[3..|code| - 1])
    else None
  }

  lemma CallArgOf(opener: string, inner: string)
    requires |opener| == 3 && opener[2] == '('
    ensures CallArg(opener + inner + ")", opener) == Some(inner)
  {
    var code := opener + inner + ")";
    assert opener <= code;
    assert code[3..|code| - 1] == inner;
  }

  /** `LS` wrapped around the key `inner` in the structured form. */
  function ShiftedNode(inner: string, keys: KeyTable): string {
    if IsCapital(inner) then inner
    else if inner == "TAB" then ShiftTab
    else ShiftGlyph + MapOr(keys, inner)
  }

  /** The string form `LS(inner)`. */
  function ShiftedString(inner: string, keys: KeyTable): string {
    if inner == "TAB" then ShiftTab
    else if IsCapital(inner) then inner
    else MapOr(keys, inner)
  }

  /** The `&kp` branch: the label of the key in the first parameter. */
  function KeyPressKey(params: seq<Binding>, keys: KeyTable): (r: Result<Label>)
    ensures r.Ok? ==> r.value.Shown?
    ensures r.Err? <==> (params == [] || params[0].Scalar?
                         || (params[0].value in {"LS", "RS"} && params[0].params != [] && params[0].params[0].Scalar?))
  {
    if params == [] || params[0].Scalar? then Err("Unknown keypress behavior")
    else
      var p := params[0];
      var code := p.value;
      if code == "LS" && p.params != [] then
        match p.params[0]
        case Scalar(_) => Err(NotARecord)
        case Node(inner, _) => Ok(Shown(ShiftedNode(inner, keys)))
      else if code in {"LG", "LA", "LC"} && p.params != [] then
        Ok(Shown(ChainLabel(p, [], keys)))
      else if code == "RS" && p.params != [] then
        match p.params[0]
        case Scalar(_) => Err(NotARecord)
        case Node(inner, _) => Ok(Shown(MapOr(keys, inner)))
      else if CallArg(code, "LS(").Some? then
        Ok(Shown(ShiftedString(CallArg(code, "LS(").value, keys)))
      else if CallArg(code, "RS(").Some? then
        Ok(Shown(MapOr(keys, CallArg(code, "RS(").value)))
      else
        Ok(Shown(Relabel(MapOr(keys, code))))
  }

  // ------------------------------------------------- parameterised devices

  /** The value of the first parameter, when it is a record. */
  function FirstValue(params: seq<Binding>): (r: Option<string>)
    ensures r.Some? <==> params != [] && params[0].Node?
    ensures r.Some? ==> r.value == params[0].value
  {
    if params != [] && params[0].Node? then Some(params[0].value) else None
  }

  function ScrollDirection(params: seq<Binding>): string {
    var v := FirstValue(params);
    if v == Some("SCRL_UP") then "Scroll" + UpArrow
    else if v == Some("SCRL_DOWN") then "Scroll" + DownArrow
    else if v == Some("SCRL_LEFT") then "Scroll" + LeftArrow
    else if v == Some("SCRL_RIGHT") then "Scroll" + RightArrow
    else "Scroll"
  }

  function MoveDirection(params: seq<Binding>): string {
    var v := FirstValue(params);
    if v == Some("MOVE_UP") then UpArrow
    else if v == Some("MOVE_DOWN") then DownArrow
    else if v == Some("MOVE_LEFT") then LeftArrow
    else if v == Some("MOVE_RIGHT") then RightArrow
    else "Move"
  }

  function ClickButton(params: seq<Binding>): string {
    var v := FirstValue(params);
    if v == Some("LCLK") then "L Click"
    else if v == Some("RCLK") then "R Click"
    else if v == Some("MCLK") then "M Click"
    else if v == Some("MB4") then "Btn4"
    else if v == Some("MB5") then "Btn5"
    else "Click"
  }

  /** The underglow commands and their labels, in the source's order. */
  const UnderglowCommands: seq<(string, string)> := [
    ("RGB_TOG", "RGBToggle"), ("RGB_HUI", "Hue+"), ("RGB_HUD", "Hue-"),
    ("RGB_SAI", "Sat+"), ("RGB_SAD", "Sat-"), ("RGB_BRI", "Bright+"),
    ("RGB_BRD", "Bright-"), ("RGB_SPI", "Speed+"), ("RGB_SPD", "Speed-"),
    ("RGB_EFF", "Effect+"), ("RGB_EFR", "Effect-")
  ]

  /** The label of the first command in `table` from `i` on equal to `v`. */
  function CommandFrom(v: string, table: seq<(string, string)>, i: nat): Option<string>
    decreases |table| - i
  {
    if i >= |table| then None
    else if table[i].0 == v then Some(table[i].1)
    else CommandFrom(v, table, i + 1)
  }

  lemma {:induction false} CommandFromSpec(v: string, table: seq<(string, string)>, i: nat)
    ensures CommandFrom(v, table, i).Some? <==> exists k :: i <= k < |table| && table[k].0 == v
    ensures CommandFrom(v, table, i).Some? ==>
      exists k :: i <= k < |table| && table[k].0 == v && CommandFrom(v, table, i).value == table[k].1
        && forall j :: i <= j < k ==> table[j].0 != v
    decreases |table| - i
  {
    if i < |table| && table[i].0 != v {
      CommandFromSpec(v, table, i + 1);
      if CommandFrom(v, table, i).Some? {
        var k :| i + 1 <= k < |table| && table[k].0 == v && CommandFrom(v, table, i).value == table[k].1
          && forall j :: i + 1 <= j < k ==> table[j].0 != v;
        assert forall j :: i <= j < k ==> table[j].0 != v;
      }
    }
  }

  function UnderglowCommand(params: seq<Binding>): string {
    var v := FirstValue(params);
    if v.None? then "RGB"
    else
      match CommandFrom(v.value, UnderglowCommands, 0)
      case Some(text) => text
      case None => "RGB"
  }

  // ---------------------------------------------------------------- resolve

  /** `x.startswith('&')`. */
  predicate Ampersand(value: string) {
    value != [] && value[0] == '&'
  }

  /** A behaviour string through the string dialect, then relabelled. */
  function Dialect(s: string, layerName: string, env: Env): (r: Result<Label>)
    ensures r.Ok? ==> r.value.Shown?
  {
    var text :- Parse(s, layerName, env);
    Ok(Shown(Relabel(text)))
  }

  /** The tags that render an empty key. */
  predicate EmptyTag(b: Binding) {
    b.Node? && (b.value == "&trans" || b.value == "&none")
  }

  /** `convert_zmk_key(key_data, layer_name)`. */
  function Resolve(b: Binding, layerName: string, env: Env): (r: Result<Label>)
    ensures (r == Ok(NoLabel)) <==> EmptyTag(b)
    ensures b.Scalar? ==> r.Err?
    ensures b.Node? && b.value == "&kp" && (b.params == [] || b.params[0].Scalar?) ==> r.Err?
    ensures b.Node? && b.value == "&mt" && (|b.params| < 2 || b.params[1].Scalar?) ==> r.Err?
  {
    match b
    case Scalar(_) => Err(NotARecord)
    case Node(value, params) =>
      if value == "&trans" || value == "&none" then Ok(NoLabel)
      else if value == "&kp" then KeyPressKey(params, env.keys)
      else if value == "&to" then
        Ok(Shown(if FirstValue(params).Some? then "Layer " + FirstValue(params).value else "Layer"))
      else if value == "&mt" then
        if |params| >= 2 && params[1].Node? then Ok(Shown(MapOr(env.keys, params[1].value)))
        else Err("Invalid mod-tap behavior")
      else if value == "&msc" then Ok(Shown(ScrollDirection(params)))
      else if value == "&mmv" then Ok(Shown(MoveDirection(params)))
      else if value == "&mkp" then Ok(Shown(ClickButton(params)))
      else if value == "&rgb_ug" then Ok(Shown(UnderglowCommand(params)))
      else if value == "Custom" then
        if FirstValue(params).Some? then Dialect(FirstValue(params).value, layerName, env)
        else Err("Unknown custom behavior")
      else if Ampersand(value) then Dialect(value, layerName, env)
      else Ok(Shown(Relabel(MapOr(env.keys, value))))
  }

  // ----------------------------------------------------------------- lemmas

  /** A `&kp` record is resolved by its first parameter alone. */
  lemma ResolveKeyPress(params: seq<Binding>, layerName: string, env: Env)
    ensures Resolve(Node("&kp", params), layerName, env) == KeyPressKey(params, env.keys)
  {
  }

  /** A shifted capital letter shows as the bare letter, in the structured
      form `LS` around the letter and in the string form `LS(X)` alike. */
  lemma ShiftLetterBothForms(c: char, ps: seq<Binding>, more: seq<Binding>, keys: KeyTable)
    requires 'A' <= c <= 'Z'
    ensures KeyPressKey([Node("LS", [Node([c], ps)] + more)], keys) == Ok(Shown([c]))
    ensures KeyPressKey([Node("LS(" + [c] + ")", ps)], keys) == Ok(Shown([c]))
  {
    CallArgOf("LS(", [c]);
  }

  /** Shift on `TAB` shows as the shifted-tab glyphs in both forms. */
  lemma ShiftTabBothForms(ps: seq<Binding>, more: seq<Binding>, keys: KeyTable)
    ensures KeyPressKey([Node("LS", [Node("TAB", ps)] + more)], keys) == Ok(Shown(ShiftTab))
    ensures KeyPressKey([Node("LS(TAB)", ps)], keys) == Ok(Shown(ShiftTab))
  {
    CallArgOf("LS(", "TAB");
    assert "LS(" + "TAB" + ")" == "LS(TAB)";
  }

  /** For any other key the two forms differ: the structured form prefixes
      the shift glyph and the string form does not. */
  lemma ShiftFormsDiffer(k: string, ps: seq<Binding>, keys: KeyTable)
    requires !IsCapital(k) && k != "TAB"
    ensures KeyPressKey([Node("LS", [Node(k, ps)])], keys) == Ok(Shown(ShiftGlyph + MapOr(keys, k)))
    ensures KeyPressKey([Node("LS(" + k + ")", ps)], keys) == Ok(Shown(MapOr(keys, k)))
    ensures ShiftGlyph + MapOr(keys, k) != MapOr(keys, k)
  {
    var code := "LS(" + k + ")";
    CallArgOf("LS(", k);
    assert code[0] == 'L' && code[1] == 'S' && code[2] == '(';
    assert !(code in {"LG", "LA", "LC"}) && code != "LS" && code != "RS";
  }

  /** A `&kp` whose first parameter opens a chain of `LG`/`LA`/`LC`/`LS`
      wrappers around a key shows the wrappers' glyphs, outermost first,
      followed by the key through the key table (the key itself when it
      is not in the table). */
  lemma KeyPressChain(mods: seq<string>, extra: seq<seq<Binding>>, key: Binding, rest: seq<Binding>, keys: KeyTable)
    requires |extra| == |mods|
    requires mods != [] && mods[0] in {"LG", "LA", "LC"}
    requires forall i :: 0 <= i < |mods| ==> ChainGlyph(mods[i]).Some?
    requires key.Node? && ChainGlyph(key.value).None?
    ensures KeyPressKey([Wrap(mods, extra, key)] + rest, keys)
      == Ok(Shown(Join(Glyphs(mods)) + MapOr(keys, key.value)))
  {
    var p := Wrap(mods, extra, key);
    assert p.value == mods[0] && p.params != [];
    assert KeyPressKey([p] + rest, keys) == Ok(Shown(ChainLabel(p, [], keys)));
    ChainSpec([], mods, extra, key, keys);
    assert [] + Glyphs(mods) == Glyphs(mods);
  }

  /** A plain key code, neither a structured modifier with something
      inside nor the text `LS(x)`/`RS(x)`, shows its key-table label
      relabelled. */
  lemma KeyPressPlain(code: string, ps: seq<Binding>, rest: seq<Binding>, keys: KeyTable)
    requires ps == [] || code !in {"LS", "RS", "LG", "LA", "LC"}
    requires CallArg(code, "LS(").None? && CallArg(code, "RS(").None?
    ensures KeyPressKey([Node(code, ps)] + rest, keys) == Ok(Shown(Relabel(MapOr(keys, code))))
  {
    assert ([Node(code, ps)] + rest)[0] == Node(code, ps);
  }

  /** `LG(LA(F16))` shows as command, option, then the key. */
  lemma CommandOptionKey(rest: seq<Binding>, keys: KeyTable)
    ensures KeyPressKey([Node("LG", [Node("LA", [Node("F16", [])])])] + rest, keys)
      == Ok(Shown(CmdGlyph + AltGlyph + MapOr(keys, "F16")))
  {
    var mods := ["LG", "LA"];
    var extra: seq<seq<Binding>> := [[], []];
    var key := Node("F16", []);
    var inner := Node("LA", [key]);
    assert Wrap(mods, extra, key) == Node("LG", [inner]) by {
      assert mods[1..] == ["LA"] && extra[1..] == [[]];
      assert mods[1..][1..] == [] && extra[1..][1..] == [];
      assert [key] + extra[1..][0] == [key];
      assert Wrap(mods[1..], extra[1..], key) == inner;
      assert [inner] + extra[0] == [inner];
    }
    KeyPressChain(mods, extra, key, rest, keys);
    assert Glyphs(mods) == [CmdGlyph, AltGlyph];
    assert [CmdGlyph, AltGlyph][1..] == [AltGlyph];
    assert Join([AltGlyph]) == AltGlyph;
  }

  /** A custom record is resolved by the string in its first parameter. */
  lemma ResolveCustom(s: string, ps: seq<Binding>, rest: seq<Binding>, layerName: string, env: Env)
    ensures Resolve(Node("Custom", [Node(s, ps)] + rest), layerName, env) == Dialect(s, layerName, env)
  {
  }

  /** An empty behaviour string is an error, on its own and as the
      parameter of a custom record. */
  lemma EmptyBehaviour(ps: seq<Binding>, rest: seq<Binding>, layerName: string, env: Env)
    ensures Parse("", layerName, env) == Err("Empty behavior string provided")
    ensures Resolve(Node("Custom", [Node("", ps)] + rest), layerName, env) == Err("Empty behavior string provided")
  {
    ResolveCustom("", ps, rest, layerName, env);
  }

  /** A custom record whose first parameter names a home-row modifier
      shows the modifier's glyph on overlay layers. */
  lemma CustomHomeRowOnOverlay(s: string, role: Role, ps: seq<Binding>, rest: seq<Binding>, layerName: string, env: Env)
    requires s != "" && Classify(Strip(s)) == HomeRow(role) && IsOverlay(layerName)
    ensures Resolve(Node("Custom", [Node(s, ps)] + rest), layerName, env) == Ok(Shown(ModGlyph(role)))
  {
    ResolveCustom(s, ps, rest, layerName, env);
    HomeRowByLayer(s, role, layerName, env);
    LongWordsSpelled();
    assert !LongWordSpelling(ModGlyph(role));
  }

  /** A plain key value shows its key-table label relabelled, and that
      label is one the relabelling table no longer changes. */
  lemma DirectKeySettled(value: string, ps: seq<Binding>, layerName: string, env: Env)
    requires value !in {"&trans", "&none", "&kp", "&to", "&mt", "&msc", "&mmv", "&mkp", "&rgb_ug", "Custom"}
    requires !Ampersand(value)
    ensures Resolve(Node(value, ps), layerName, env) == Ok(Shown(Relabel(MapOr(env.keys, value))))
    ensures Relabel(Resolve(Node(value, ps), layerName, env).value.text)
      == Resolve(Node(value, ps), layerName, env).value.text
  {
    RelabelIdempotent(MapOr(env.keys, value));
  }

  /** A known underglow command shows its label; any other first
      parameter shows the generic `RGB`. */
  lemma UnderglowSpec(v: string, ps: seq<Binding>, rest: seq<Binding>)
    ensures (exists k :: 0 <= k < |UnderglowCommands| && UnderglowCommands[k].0 == v) ==>
      exists k :: 0 <= k < |UnderglowCommands| && UnderglowCommands[k].0 == v
        && UnderglowCommand([Node(v, ps)] + rest) == UnderglowCommands[k].1
    ensures (forall k :: 0 <= k < |UnderglowCommands| ==> UnderglowCommands[k].0 != v) ==>
      UnderglowCommand([Node(v, ps)] + rest) == "RGB"
  {
    CommandFromSpec(v, UnderglowCommands, 0);
  }
}
