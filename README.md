# Glove80 keymap to split-matrix labels, modelled in Dafny

`keymap_to_split_matrix.py` reads a ZMK keymap and writes a layout document.
The document gives, for every configured layer, the labels the two halves of
a Glove80 show, row by row. This project models the two parts of that script
that work as a small language core.

- **The behaviour resolver.** This is `convert_zmk_key` with its string
  dialect `parse_custom_behavior_properly` and the relabelling table
  `add_spaces_to_long_words`.
  - A binding record (`Keymap.Binding`: a `value` tag with nested `params`,
    or a non-record JSON value) resolves to one of three outcomes: the empty
    key (`Keymap.Label.NoLabel`), a label (`Shown`), or an error
    (`Results.Result.Err`). The error models the exceptions Python raises.
  - The string dialect is a first-match chain of substring tests, kept in
    source order as a table of tests (`Behavior.Chain`). Each family of
    behaviour then computes its label.
  - The emoji and world-character catalogs are injected values
    (`Catalog.SymbolCatalog`). The same goes for the key-code table
    (`Keymap.KeyTable`).
- **The matrix mapper.** This is the row-building loops of `main` over
  `GLOVE80_LAYOUT`.
  - Each position is resolved, or becomes empty when it is past the end of
    the layer.
  - Five-key main rows are padded to six: at the end on the left hand, at
    the front on the right hand.
  - An all-empty row becomes `[]`.
  - A failing binding makes the layer's layout an error. The run then
    stops: `main` catches the exception and exits with status 1
    (lines 1544-1546).
- **The readable form of a key combination.** This is
  `convert_zmk_combo_to_readable`.

Modules:

- `results.dfy`: `Option` and `Result`.
- `text.dfy`: the Python string operations the source uses, written out:
  - `in` on strings;
  - `strip`;
  - `split` on a separator, and on whitespace;
  - `replace`;
  - `rstrip` of one character;
  - `upper`/`lower` on ASCII;
  - `int` on decimal digits.
- `keymap.dfy`: bindings, labels, key tables, the layer context and glyphs.
- `tables.dfy`: the relabelling table of `add_spaces_to_long_words` and the facts about it.
- `catalog.dfy`: the emoji and world-character lookups.
- `behavior.dfy`: the string dialect.
- `resolver.dfy`: `convert_zmk_key`.
- `matrix.dfy`: the layout table and the row builders.
- `combo.dfy`: readable key combinations.

Behaviour of the code that is easy to miss:

- **Shift forms.** A structured `LS` node and the text `LS(x)` agree only for
  capital letters and `TAB`. For any other key, the structured form puts `⇧`
  in front (line 194) and the text form does not (line 243).
  `Resolver.ShiftFormsDiffer` proves that the two labels differ.
- **Base layers.** Two layer names count as base: `''` and `GRAPHITE`
  (line 356).
- **Unknown layer names.** `&mo`/`&tog` with `LAYER_` followed by nothing
  does not truncate. It fails, because `split()[0]` is applied to an empty
  list (lines 490 and 544).
- **Catalog lookup order.** The emoji lookup tries: presets, codepoints
  under the name, codepoints under the name's integer value, then groups.
  The world lookup tries: codepoints, then the base transform, then groups.
  Neither lookup does all four steps.
- **Home-row tap key.** The tap key of a home-row behaviour is the text
  between the first `(` and the next `,`, stripped (line 362). Without a
  comma, the closing parenthesis stays in the key (`Behavior.TapArgSingle`).

## Model

| member | source | states |
|---|---|---|
| Tables.LongWordsSpelled | keymap_to_split_matrix.py:120-165 | every long word of the table has at least nine characters, or ends in a capital, or has eight characters ending in `k` |
| Tables.ShortFormsNotSpelled | keymap_to_split_matrix.py:120-165 | no short form of the table is spelled that way |
| Tables.ShortFormsAreNotKeys | keymap_to_split_matrix.py:120-165 | no short form is itself a long word of the table |
| Tables.RelabelSettles | keymap_to_split_matrix.py:117-167 | the relabelled text is never one of the long words the table replaces: a long word becomes a short form that is not itself listed, and any other text stays as it is |
| Tables.RelabelIdempotent | keymap_to_split_matrix.py:167 | relabelling twice gives the same label as relabelling once |
| Behavior.AnyContainsIff | keymap_to_split_matrix.py:358 | an `or` of substring tests holds exactly when one of the patterns occurs in the behaviour |
| Behavior.FirstMatchAt | keymap_to_split_matrix.py:358-698 | the first test of the `elif` chain that matches decides the family, whatever later tests say |
| Behavior.FirstMatchOutcome | keymap_to_split_matrix.py:358-698 | the chain either matches no test and falls through to the fallback, or yields the family of its first matching test |
| Behavior.FirstMatchNoLater | keymap_to_split_matrix.py:358-698 | a behaviour matching test k is classified by test k or by an earlier one |
| Behavior.ChainNoUnmatched | keymap_to_split_matrix.py:358-698 | every branch of the chain names a family, so only a string no test matches reaches the fallback |
| Behavior.ChainFunctionTapRow | keymap_to_split_matrix.py:386 | the function-row tap branch is the fifth test, and its patterns are the eight tap names |
| Behavior.ChainThumbKeyPressRow | keymap_to_split_matrix.py:650-662 | `&thumb_kp` is the only test of its family and comes straight after `&thumb` |
| Behavior.ChainKeyPressHomeRow | keymap_to_split_matrix.py:663-664 | `&kp _HOME` is the only test of its family and comes after the `&kp ` test of line 430 |
| Behavior.ChainKeyPressEndRow | keymap_to_split_matrix.py:665-666 | `&kp _END` is the only test of its family and comes after the `&kp ` test of line 430 |
| Behavior.RoleRow | keymap_to_split_matrix.py:358-385 | the home-row test of each role sits at the role's rank and tests the left and right names of that finger |
| Behavior.RoleTestPasses | keymap_to_split_matrix.py:358-385 | the test of a finger passes on a behaviour that names the finger |
| Behavior.RoleTestFails | keymap_to_split_matrix.py:358-385 | the test of a finger fails on a behaviour that names neither hand's version of it |
| Behavior.HomeRowRecognised | keymap_to_split_matrix.py:358-385 | a behaviour naming a finger and no finger tested before it is a home-row modifier of that finger |
| Behavior.HomeRowByLayer | keymap_to_split_matrix.py:356-385 | a home-row modifier gives different labels by layer and form: on an overlay, the role's glyph ⌃ ⌥ ⌘ ⇧; on a base layer without parentheses, the default N R T S; otherwise the mapped tap key |
| Behavior.TapArgFirst | keymap_to_split_matrix.py:362 | the tap key is the stripped text between the first `(` and the comma after it, whatever follows that comma (another `(` included) |
| Behavior.TapArgSingle | keymap_to_split_matrix.py:362 | without a comma, the tap key is everything after the first `(`, closing parenthesis included |
| Behavior.LeftPinkyOnBase | keymap_to_split_matrix.py:358-364 | `&LeftPinky` reads `N` on the base layer `GRAPHITE` |
| Behavior.LeftPinkyOnOverlay | keymap_to_split_matrix.py:358-360 | `&LeftPinky` reads ⌃ on the `Function` layer |
| Behavior.Shadowed | keymap_to_split_matrix.py:358-698 | a test whose every match is also a match of an earlier test never decides the family |
| Behavior.ThumbKeyPressShadowed | keymap_to_split_matrix.py:650-662 | no behaviour string reaches the `&thumb_kp` branch |
| Behavior.KeyPressHomeShadowed | keymap_to_split_matrix.py:663-664 | no behaviour string reaches the `&kp _HOME` branch, since every such string passes the `&kp ` test of line 430 |
| Behavior.KeyPressEndShadowed | keymap_to_split_matrix.py:665-666 | no behaviour string reaches the `&kp _END` branch, since every such string passes the `&kp ` test of line 430 |
| Behavior.FunctionTapTotal | keymap_to_split_matrix.py:386-409 | a function-row tap never fails; with two words or more it reads the mapped last word |
| Behavior.MomentaryShortName | keymap_to_split_matrix.py:480-492 | `&mo` on another `LAYER_x` fails exactly when no word lies between the first `LAYER_` and the next one (or the end), as in `&mo LAYER_ LAYER_Fn`; otherwise it reads the first 8 characters of that word, or the whole word when it is shorter |
| Behavior.FirstNamedSpec | keymap_to_split_matrix.py:526-541 | the known-layer toggle table is first-match: the label of the first listed layer the behaviour names, or none when it names none |
| Behavior.ToggleUnnamed | keymap_to_split_matrix.py:524-546 | `&tog` that names no known layer and no `LAYER_` reads 🔄 |
| Behavior.ToggleShortName | keymap_to_split_matrix.py:542-545 | `&tog` on another `LAYER_x` fails exactly when no word lies between the first `LAYER_` and the next one (or the end); otherwise it reads 🔒 then the first 4 characters of that word, or the whole word when it is shorter |
| Behavior.CmdLetterFromSpec | keymap_to_split_matrix.py:438 | the scan for `C(` + capital + `)` finds the leftmost such occurrence at or after a position, or reports that there is none |
| Behavior.CmdLetterSpec | keymap_to_split_matrix.py:674 | the regular-expression search (here and at line 438): the leftmost `C(X)` of the string gives its letter, and there is no letter exactly when the string has no `C(X)` |
| Behavior.CmdLetterFound | keymap_to_split_matrix.py:436-441 | a key code holding `C(X)` with no `C` before it reads ⌘X |
| Behavior.KeyPressModConstant | keymap_to_split_matrix.py:443-464 | `&kp` on any home-row constant `LEFT_`/`RIGHT_` + finger + `_MOD`, when it is the first finger in test order the code names, reads that finger's ⌃/⌥/⌘/⇧ on an overlay and its tap key N/R/T/S on a base layer |
| Behavior.KeyPressGuiOverlay | keymap_to_split_matrix.py:443-455 | `&kp` on a code holding `LGUI` or `RGUI`, with no home-row constant and no `C(`, reads ⌘ on an overlay |
| Behavior.CleanedShape | keymap_to_split_matrix.py:807 | the cleaned fallback name has no `&` and no `_` and is upper case |
| Behavior.UnknownBehaviour | keymap_to_split_matrix.py:806-812 | a behaviour no branch matches reads its cleaned name's mapping when the key table has one, and otherwise fails with an error that contains the original string |
| Behavior.ParseErrorSources | keymap_to_split_matrix.py:348-812 | the dialect fails only on the empty string, or when the stripped string falls in the `&kp `, `&mo`, `&tog`, emoji or world branch or in the fallback for an unknown behaviour |
| Behavior.ParseIgnoresPadding | keymap_to_split_matrix.py:353 | surrounding whitespace does not change the label |
| Catalog.Lookup | keymap_to_split_matrix.py:784-785 | a lookup in an ordered mapping finds an entry under the key, or there is none |
| Catalog.FindGroupItem | keymap_to_split_matrix.py:734-743 | the nested group/item loop with early return computes the first-match scan |
| Catalog.ScanItemsSpec | keymap_to_split_matrix.py:736-743 | within a group, the first item whose `group_item` name matches is returned, or none |
| Catalog.ScanGroupsSpec | keymap_to_split_matrix.py:734-743 | across groups, the match is the first in group-then-item order, and there is none exactly when no pair matches |
| Catalog.EmojiPresetsFirst | keymap_to_split_matrix.py:712-719 | a preset name reads its preset glyph whatever the catalog holds |
| Catalog.EmojiNumericKey | keymap_to_split_matrix.py:722-731 | a decimal name reads the codepoint stored under its integer value when the name itself has none |
| Catalog.EmojiGroupItem | keymap_to_split_matrix.py:733-743 | past presets and codepoints, the first matching group item's first variant is returned |
| Catalog.EmojiNotFound | keymap_to_split_matrix.py:718-746 | the emoji lookup fails exactly when every step misses (or the match is an empty table), and a miss puts the name in the error |
| Catalog.EmojiSmileysGrin | keymap_to_split_matrix.py:734-743 | `smileys_grin` with two variants reads the first |
| Catalog.BaseVariantPreference | keymap_to_split_matrix.py:786-788 | a base character is read from the first `lower` variant, else the first `regular` one, else the first variant |
| Catalog.WorldBaseTransform | keymap_to_split_matrix.py:767-789 | `X_base`, for any `X` that does not itself hold `_base` (underscores allowed, as in `n_tilde_base`), takes the letter's base transform, the upper-case spelling when it is configured and the lower-case one otherwise, then looks the transform's `base` up in that letter's group wherever the group sits in the catalog, and reads that character's base variant |
| Catalog.WorldNotFound | keymap_to_split_matrix.py:792-804 | a world name with no codepoint, no base transform and no group item fails with an error that contains the name |
| Resolver.ChainGlyph | keymap_to_split_matrix.py:204-211 | the chain loop gives a glyph exactly for `LG`, `LA`, `LC` and `LS` |
| Resolver.ModChain | keymap_to_split_matrix.py:197-231 | the `while` loop over nested modifier records computes the chain label |
| Resolver.JoinAppend | keymap_to_split_matrix.py:215 | joining two chains of glyphs concatenates their joins |
| Resolver.ChainSpec | keymap_to_split_matrix.py:197-223 | a chain of modifiers around a key reads the glyphs outermost first, then the mapped key (or the key verbatim when unmapped); a wrapper may carry any further parameters after the one the chain goes through |
| Resolver.ChainBareSpec | keymap_to_split_matrix.py:224-231 | a chain that ends in a modifier with no parameters reads just the glyphs; a wrapper may carry any further parameters after the one the chain goes through |
| Resolver.CallArg | keymap_to_split_matrix.py:236-246 | the text form `LS(x)`/`RS(x)` gives the inside `x` exactly when the code is the opener, `x` and `)` |
| Resolver.CallArgOf | keymap_to_split_matrix.py:236-237 | the inside of `LS(x)` is `x` |
| Resolver.KeyPressKey | keymap_to_split_matrix.py:179-250 | `&kp` always shows a label when it succeeds; it fails exactly when there is no first record, or when a structured `LS`/`RS` wraps a non-record |
| Resolver.KeyPressPlain | keymap_to_split_matrix.py:179-250 | `&kp` on a plain code (not a structured modifier with parameters, not the text `LS(x)`/`RS(x)`) reads the code's key-table label, or the code itself when unmapped, through the relabelling table (lines 248-249) |
| Resolver.CommandFromSpec | keymap_to_split_matrix.py:306-330 | the underglow command table is first-match: a listed command gives its label, and an unlisted one gives none |
| Resolver.UnderglowSpec | keymap_to_split_matrix.py:304-330 | `&rgb_ug` reads the listed command's label, and `RGB` for any other command |
| Resolver.Dialect | keymap_to_split_matrix.py:335-341 | a string behaviour that resolves always shows a label |
| Resolver.Resolve | keymap_to_split_matrix.py:170-345 | `&trans` and `&none` read empty on every layer, and nothing else does; a non-record fails; `&kp` without a record fails; `&mt` with fewer than two parameters, or a non-record second one, fails |
| Resolver.ShiftLetterBothForms | keymap_to_split_matrix.py:185-242 | shift on a capital letter reads the bare letter in both the structured and the text form |
| Resolver.ShiftTabBothForms | keymap_to_split_matrix.py:191-239 | shift on `TAB` reads ⇧⇥ in both forms |
| Resolver.ShiftFormsDiffer | keymap_to_split_matrix.py:193-243 | for any other key the structured form reads ⇧ plus the mapped key, the text form just the mapped key, and the two differ |
| Resolver.KeyPressChain | keymap_to_split_matrix.py:197-231 | `&kp` on an `LG`/`LA`/`LC` chain reads the modifier glyphs outermost first, then the mapped innermost key; a wrapper may carry any further parameters after the one the chain goes through |
| Resolver.CommandOptionKey | keymap_to_split_matrix.py:197-231 | `LG(LA(F16))` reads ⌘⌥ then the mapping of `F16` |
| Resolver.EmptyBehaviour | keymap_to_split_matrix.py:350-351 | an empty behaviour string is the error "Empty behavior string provided", on its own and as the parameter of a custom record |
| Resolver.CustomHomeRowOnOverlay | keymap_to_split_matrix.py:331-336 | a custom home-row modifier (lines 356-385) shows its role's glyph on every overlay |
| Resolver.DirectKeySettled | keymap_to_split_matrix.py:342-345 | a plain key value reads its key-table label (the value itself when unmapped) through the relabelling table, and that label is one relabelling leaves alone |
| Matrix.LayoutRowLengths | keymap_to_split_matrix.py:20-45 | each hand has six main rows of five or six positions and two thumb rows of three |
| Matrix.Cell | keymap_to_split_matrix.py:1445-1450 | a position past the end of the layer is empty |
| Matrix.Cells | keymap_to_split_matrix.py:1444-1450 | a row's cells succeed exactly when every position resolves; they are then one label per position, in order; otherwise the error is that of the first position that fails |
| Matrix.CellsFirstError | keymap_to_split_matrix.py:1444-1450 | a failing position after resolved ones gives the row's error |
| Matrix.BuildRow | keymap_to_split_matrix.py:1444-1458 | the loop over a row's positions, with padding and the empty-row collapse, computes the row |
| Matrix.RowShape | keymap_to_split_matrix.py:1452-1493 | a row is `[]` exactly when all its cells are empty; otherwise a five-key left main row gains an empty cell at the end, a five-key right one at the front, and any other row is its cells |
| Matrix.OutOfRangeEmpty | keymap_to_split_matrix.py:1446-1450 | an out-of-range position contributes an empty cell |
| Matrix.RowLength | keymap_to_split_matrix.py:1452-1454 | an emitted main row has six entries, and an emitted thumb row one per position |
| Matrix.Rows | keymap_to_split_matrix.py:1443-1460 | a group of rows, when built, has one row per group entry, each the row those positions build |
| Matrix.RowsErrorStays | keymap_to_split_matrix.py:1443-1460 | once a row fails, no later row changes the group's outcome |
| Matrix.RowsFirstError | keymap_to_split_matrix.py:1443-1460 | the first failing row's error is the group's error |
| Matrix.RowsAppend | keymap_to_split_matrix.py:1460 | building one more row appends it to the rows so far |
| Matrix.BuildRows | keymap_to_split_matrix.py:1443-1460 | the loop over a group's rows, appending and aborting on the first error, computes the group |
| Matrix.BuildLayout | keymap_to_split_matrix.py:1435-1509 | the four row loops of one layer compute the layer's layout |
| Matrix.GroupWidth | keymap_to_split_matrix.py:1443-1509 | every built row of a group is empty or exactly as wide as the group's width |
| Matrix.LayoutShape | keymap_to_split_matrix.py:1435-1509 | a built layer keeps its name, has six main rows and two thumb rows per hand, and every row is empty or six (main) or three (thumb) wide |
| Matrix.EmptyLayer | keymap_to_split_matrix.py:1443-1509 | a layer with no bindings builds, with all its rows empty |
| Matrix.EmptyRows | keymap_to_split_matrix.py:1443-1460 | with no bindings, every row of a group is empty |
| Matrix.EmptyRow | keymap_to_split_matrix.py:1444-1458 | with no bindings, a row is empty |
| Combo.ModifiersWellFormed | keymap_to_split_matrix.py:879-883 | every wrapper ends in its one `(`, and every name is a word ending in its one `+` |
| Combo.ModifiersSuffixFree | keymap_to_split_matrix.py:879-883 | no wrapper of the table ends another one |
| Combo.NoMacroWrapper | keymap_to_split_matrix.py:866-883 | no wrapper ends in the command macro's `_C(` |
| Combo.ReplaceModifiers | keymap_to_split_matrix.py:885-886 | the replacement loop applies the pairs in table order |
| Combo.ReadableCombo | keymap_to_split_matrix.py:861-897 | the method computes the readable combination |
| Combo.CmdMacroLowers | keymap_to_split_matrix.py:868-876 | the spelled-out `_C(A)`, `_C(L)`, `_C(Z)` agree with `cmd+` and the lower-cased key |
| Combo.MacroOpens | keymap_to_split_matrix.py:868 | after a leading `_C(` the second piece is the rest |
| Combo.MacroOnce | keymap_to_split_matrix.py:868 | a key name and `)` hold no second `_C(` |
| Combo.MacroTrimmed | keymap_to_split_matrix.py:868 | `rstrip(')')` and `strip()` leave the key |
| Combo.MacroKey | keymap_to_split_matrix.py:866-876 | the command-macro branch of `_C(K)` reads `cmd+` and K lower-cased |
| Combo.CommandMacro | keymap_to_split_matrix.py:861-876 | `_C(K)` reads `cmd+k` |
| Combo.ReplaceSkips | keymap_to_split_matrix.py:885-886 | pairs whose wrapper does not occur change nothing |
| Combo.ReplaceDone | keymap_to_split_matrix.py:885-886 | once no `(` is left, the remaining pairs change nothing |
| Combo.WrapperReplaced | keymap_to_split_matrix.py:885-886 | one wrapper around a key is replaced by its name, and nothing else changes |
| Combo.NameThenKey | keymap_to_split_matrix.py:888-895 | a name, a key and `)` read as the name without its `+`, then the key lower-cased |
| Combo.SingleModifierDropsPlus | keymap_to_split_matrix.py:861-897 | a single modifier around a key reads the modifier's name run together with the lower-cased key: `LG(A)` reads `cmda` |
| Combo.ComboIgnoresPadding | keymap_to_split_matrix.py:863 | surrounding whitespace does not change the readable form |

## Left out

- Reading and writing files is not modelled: the `json.load` of the keymap and the write of the layout document (1390-1391, 1531-1532). What is read becomes parameters.
- The `yaml` loading of the two catalogs, and its two import and file errors (700-707, 750-757), are not modelled. The catalogs are injected values.
- The regular-expression scraping of firmware text in `parse_zmk_triggers` (815-858) and `parse_zmk_macro_definitions` (975-1110) is not modelled. It is best-effort pattern extraction over text files.
- `extract_action_mappings_from_keymap` (1186-1380), `scan_generated_display_names` (1154-1183) and `find_custom_behaviors_in_keymap` (1113-1151) are not modelled. They are dictionary merges and prints over the scraped macros.
- `format_compact_json` (900-958) is not modelled, because its output depends on `json.dumps` escaping.
- The `main` driver is modelled only for its row loops. Left out: the layer-name lookup, the trigger fields, the `layoutStyle` field and the appends into the document.
- `print` diagnostics and `sys.exit` are not modelled.
- The full `ZMK_KEY_MAPPING` is not modelled. The key table is a parameter of every lemma.
- Resolve: error texts are not Python's exact messages or reprs of the binding. Where the source puts the behaviour or name into the message, the model does too, and the lemmas state it.
- `Text.Upper` and `Text.Lower` change ASCII letters only; Python's Unicode case mapping is not modelled. `Text.ParseInt` reads an optional sign and ASCII decimal digits with single `_` separators. It leaves out the other forms Python's `int` accepts (surrounding whitespace, non-ASCII digits); the name it is given is already stripped.
- The `re.search(r'_?C\(([A-Z])\)')` calls (438, 674) are modelled by a hand-written scan for `C(` + capital letter + `)`. The optional `_` changes nothing about which letter is found.
- Resolver.ModChain: a record is always truthy in the model, whereas Python treats an empty dict `{}` as false and stops the chain there. The model cannot tell an empty dict from a record with an empty tag.
- The source file's text is double-encoded (UTF-8 read as Mac Roman). The model uses the glyphs the authors intended (⌘ ⌥ ⌃ ⇧ ⇥ 🔒 …).
- The `&thumb_kp` branch (657-662) and the `&kp _HOME` / `&kp _END` branches (663-666) are modelled, but the lemmas prove that no input reaches them and state nothing else about them.
- Matrix: the rows are built over a resolver passed as a parameter. `Matrix.LayerResolver` supplies `convert_zmk_key` for a layer. The lemmas hold for every resolver.
- Combo.SingleModifierDropsPlus: covers only a single modifier around a key name of capitals and digits, and the command macro. Nested modifiers and other texts are computed by `Combo.ConvertCombo` but have no lemma.
