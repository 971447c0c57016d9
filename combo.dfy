/** Readable names for ZMK key combinations (`convert_zmk_combo_to_readable`):
    the command macro `_C(x)` becomes `cmd+x`; otherwise each modifier
    wrapper is replaced by its name, closing parentheses are dropped and,
    when exactly one `+` is left, the key is lower-cased and written
    straight after the modifier name. */
module Combo {
  import opened Text

  /** The modifier wrappers and their readable names, in the order the
      replacement loop applies them. */
  const ComboModifiers: seq<(string, string)> := [
    ("LG(", "cmd+"), ("LA(", "alt+"), ("LC(", "ctrl+"), ("LS(", "shift+"),
    ("RG(", "cmd+"), ("RA(", "alt+"), ("RC(", "ctrl+"), ("RS(", "shift+"),
    ("_WORD(", "alt+")
  ]

  /** Every wrapper ends in its only opening parenthesis, and every name
      is a word without parentheses followed by `+`. */
  predicate WellFormedModifier(m: (string, string)) {
    && m.0 != "" && m.0[|m.0| - 1] == '('
    && '(' !in m.0[..|m.0| - 1]
    && !IsSpace(m.0[0])
    && m.1 != "" && m.1[|m.1| - 1] == '+'
    && '+' !in m.1[..|m.1| - 1]
    && '(' !in m.1 && ')' !in m.1
  }

  predicate Wrappers(table: seq<(string, string)>) {
    forall i :: 0 <= i < |table| ==> WellFormedModifier(table[i])
  }

  /** No wrapper ends another one, so a wrapper followed by a key contains
      no other wrapper. */
  predicate SuffixFree(table: seq<(string, string)>) {
    forall i, j :: 0 <= i < |table| && 0 <= j < |table| && i != j ==> !EndsWith(table[j].0, table[i].0)
  }

  lemma ModifiersWellFormed()
    ensures Wrappers(ComboModifiers)
  {
  }

  lemma ModifiersSuffixFree()
    ensures SuffixFree(ComboModifiers)
  {
    forall i, j | 0 <= i < |ComboModifiers| && 0 <= j < |ComboModifiers| && i != j
      ensures !EndsWith(ComboModifiers[j].0, ComboModifiers[i].0)
    {
      var (p, q) := (ComboModifiers[j].0, ComboModifiers[i].0);
      if |q| <= |p| {
        assert |q| == 3 && q != p && |p| - |q| in {0, 3};
        if |p| == 6 {
          assert p[3..] == "RD(";
        }
      }
    }
  }

  /** No wrapper ends in the command macro's opener. */
  lemma NoMacroWrapper()
    ensures forall i :: 0 <= i < |ComboModifiers| ==> !EndsWith(ComboModifiers[i].0, "_C(")
  {
  }

  /** The replacement loop from the `i`-th pair on. */
  function ReplaceFrom(s: string, table: seq<(string, string)>, i: nat): string
    requires forall k :: 0 <= k < |table| ==> table[k].0 != ""
    decreases |table| - i
  {
    if i >= |table| then s else ReplaceFrom(Replace(s, table[i].0, table[i].1), table, i + 1)
  }

  /** `for zmk_mod, readable_mod in replacements: combo = combo.replace(...)`. */
  method ReplaceModifiers(combo: string) returns (r: string)
    ensures r == ReplaceFrom(combo, ComboModifiers, 0)
  {
    ModifiersWellFormed();
    r := combo;
    var i := 0;
    while i < |ComboModifiers|
      invariant 0 <= i <= |ComboModifiers|
      invariant ReplaceFrom(r, ComboModifiers, i) == ReplaceFrom(combo, ComboModifiers, 0)
    {
      r := Replace(r, ComboModifiers[i].0, ComboModifiers[i].1);
      i := i + 1;
    }
  }

  /** The label a command macro gets from the key inside it. */
  function CmdMacroLabel(inner: string): string {
    if inner == "A" then "cmd+a"
    else if inner == "L" then "cmd+l"
    else if inner == "Z" then "cmd+z"
    else "cmd+" + Lower(inner)
  }

  /** The command-macro branch: the text after `_C(`, closing parentheses
      and whitespace trimmed. */
  function MacroLabel(combo: string): string
    requires Contains(combo, "_C(")
  {
    CmdMacroLabel(Strip(StripEndChar(SecondPiece(combo, "_C("), ')')))
  }

  /** After the replacements: parentheses dropped, and a single `+` joins
      the modifier name to the lower-cased key. */
  function Finished(replaced: string): string {
    var combo := RemoveAll(replaced, ")");
    var parts := SplitChar(combo, '+');
    if '+' in combo && |parts| == 2 then parts[0] + Lower(parts[1]) else combo
  }

  /** `convert_zmk_combo_to_readable(zmk_combo)`. */
  function ConvertCombo(zmk: string): string {
    var combo := Strip(zmk);
    if Contains(combo, "_C(") then MacroLabel(combo)
    else
      ModifiersWellFormed();
      Finished(ReplaceFrom(combo, ComboModifiers, 0))
  }

  /** The method computing `ConvertCombo`, with the replacement loop. */
  method ReadableCombo(zmk: string) returns (r: string)
    ensures r == ConvertCombo(zmk)
  {
    var combo := Strip(zmk);
    if Contains(combo, "_C(") {
      return CmdMacroLabel(Strip(StripEndChar(SecondPiece(combo, "_C("), ')')));
    }
    combo := ReplaceModifiers(combo);
    combo := RemoveAll(combo, ")");
    if '+' in combo {
      var parts := SplitChar(combo, '+');
      if |parts| == 2 {
        combo := parts[0] + Lower(parts[1]);
      }
    }
    r := combo;
  }

  // ----------------------------------------------------------------- lemmas

  /** A key name as it appears inside a combination: capital letters and
      digits. */
  predicate KeyName(k: string) {
    k != [] && forall i :: 0 <= i < |k| ==> 'A' <= k[i] <= 'Z' || '0' <= k[i] <= '9'
  }

  /** The three spelled-out command macros agree with the general rule:
      every command macro reads `cmd+` and the key lower-cased. */
  lemma CmdMacroLowers(inner: string)
    ensures CmdMacroLabel(inner) == "cmd+" + Lower(inner)
  {
  }

  /** `_C(K)` opens with the macro: the text after it is all the rest. */
  lemma MacroOpens(rest: string)
    ensures Contains("_C(" + rest, "_C(")
    ensures After("_C(" + rest, "_C(") == rest
  {
    var combo := "_C(" + rest;
    assert combo[0..3] == "_C(";
    assert combo[3..] == rest;
  }

  /** Without a second macro, the second piece is the whole rest. */
  lemma MacroOnce(k: string)
    requires KeyName(k)
    ensures Before(k + ")", "_C(") == k + ")"
  {
    PieceLacks("", k + ")", "_C(");
    assert "" + (k + ")") == k + ")";
  }

  /** `rstrip(')')` and `strip()` leave just the key. */
  lemma MacroTrimmed(k: string)
    requires KeyName(k)
    ensures Strip(StripEndChar(k + ")", ')')) == k
  {
    assert (k + ")")[..|k + ")"| - 1] == k;
    assert StripEndChar(k, ')') == k;
    StripTrimmed(k);
  }

  /** The key inside `_C(K)` is K. */
  lemma MacroKey(k: string)
    requires KeyName(k)
    ensures Contains("_C(" + k + ")", "_C(")
    ensures MacroLabel("_C(" + k + ")") == "cmd+" + Lower(k)
  {
    assert "_C(" + k + ")" == "_C(" + (k + ")");
    MacroOpens(k + ")");
    MacroOnce(k);
    MacroTrimmed(k);
    CmdMacroLowers(k);
  }

  /** `_C(K)` reads `cmd+k`. */
  lemma CommandMacro(k: string)
    requires KeyName(k)
    ensures ConvertCombo("_C(" + k + ")") == "cmd+" + Lower(k)
  {
    StripTrimmed("_C(" + k + ")");
    MacroKey(k);
  }

  /** Pairs from `i` on whose wrapper does not occur leave the string
      unchanged up to pair `m`. */
  lemma {:induction false} ReplaceSkips(s: string, table: seq<(string, string)>, i: nat, m: nat)
    requires Wrappers(table) && i <= m < |table|
    requires forall j :: i <= j < m ==> !Contains(s, table[j].0)
    ensures ReplaceFrom(s, table, i) == ReplaceFrom(s, table, m)
    decreases m - i
  {
    if i < m {
      ReplaceAbsent(s, table[i].0, table[i].1);
      ReplaceSkips(s, table, i + 1, m);
    }
  }

  /** Once no opening parenthesis is left, the remaining pairs change
      nothing. */
  lemma {:induction false} ReplaceDone(s: string, table: seq<(string, string)>, i: nat)
    requires Wrappers(table) && '(' !in s
    ensures ReplaceFrom(s, table, i) == s
    decreases |table| - i
  {
    if i < |table| {
      ReplaceWithoutLast(s, table[i].0, table[i].1);
      ReplaceDone(s, table, i + 1);
    }
  }

  /** One modifier wrapper around a key is replaced by the modifier's
      name: `LG(A)` becomes `cmd+A)`. */
  lemma WrapperReplaced(table: seq<(string, string)>, m: nat, k: string)
    requires Wrappers(table) && SuffixFree(table) && m < |table| && KeyName(k)
    ensures ReplaceFrom(table[m].0 + k + ")", table, 0) == table[m].1 + k + ")"
  {
    var (p, rep) := table[m];
    var x := k + ")";
    assert p + k + ")" == p + x;
    forall j | 0 <= j < m
      ensures !Contains(p + x, table[j].0)
    {
      PieceLacks(p, x, table[j].0);
    }
    ReplaceSkips(p + x, table, 0, m);
    ReplaceLeading(p, x, rep);
    ReplaceWithoutLast(x, p, rep);
    assert table[m].1 + k + ")" == rep + x;
    ReplaceDone(rep + x, table, m + 1);
  }

  /** A modifier name, a key and a closing parenthesis read as the name
      without its `+`, then the key lower-cased. */
  lemma NameThenKey(rep: string, k: string)
    requires rep != "" && rep[|rep| - 1] == '+' && '+' !in rep[..|rep| - 1]
    requires ')' !in rep && KeyName(k)
    ensures Finished(rep + k + ")") == rep[..|rep| - 1] + Lower(k)
  {
    var w := rep[..|rep| - 1];
    assert rep == w + "+";
    assert ')' !in rep + k;
    RemoveAfterPiece(rep + k, "", ')');
    assert rep + k + ")" == rep + k + [')'] + "";
    assert rep + k + "" == w + ['+'] + k;
    SplitCharFirst(w, k, '+');
    SplitCharNone(k, '+');
  }

  /** One modifier wrapper around a key reads the modifier's name run
      together with the lower-cased key, the `+` dropped: `LG(A)` reads
      `cmda` and `LS(TAB)` reads `shifttab`. */
  lemma SingleModifierDropsPlus(m: nat, k: string)
    requires m < |ComboModifiers| && KeyName(k)
    ensures var name := ComboModifiers[m].1;
      ConvertCombo(ComboModifiers[m].0 + k + ")") == name[..|name| - 1] + Lower(k)
  {
    ModifiersWellFormed();
    ModifiersSuffixFree();
    var (p, rep) := ComboModifiers[m];
    var zmk := p + k + ")";
    assert WellFormedModifier(ComboModifiers[m]);
    StripTrimmed(zmk);
    NoMacroWrapper();
    PieceLacks(p, k + ")", "_C(");
    assert p + (k + ")") == zmk;
    WrapperReplaced(ComboModifiers, m, k);
    NameThenKey(rep, k);
  }

  /** Surrounding whitespace is ignored. */
  lemma ComboIgnoresPadding(zmk: string)
    ensures ConvertCombo(Strip(zmk)) == ConvertCombo(zmk)
  {
    StripIdempotent(zmk);
  }
}
