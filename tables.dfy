/** The relabelling table of `add_spaces_to_long_words`, applied to most
    resolver results, and the facts about it. */
module Tables {
  import opened Keymap

  /** The replacement table of `add_spaces_to_long_words`. */
  const Replacements: map<string, string> := map[
    "SelectAll" := "Sel All",
    "SelectLine" := "Sel Line",
    "SelectWord" := "Sel Word",
    "ExtendWord" := "Ext Word",
    "ExtendLine" := "Ext Line",
    "ClearSelect" := "Clear",
    "MediaHome" := "\U{1F3E0}",
    "PlayPause" := "\U{23EF}",
    "BrightMax" := "\U{2600}\U{26A1}",
    "BrightMin" := "\U{2600}0",
    "AutoBright" := "\U{2600}\U{1F916}",
    "FastMouse" := "Fast",
    "SlowMouse" := "Slow",
    "WarpMouse" := "Warp",
    "LeftClick" := "L Click",
    "RightClick" := "R Click",
    "MiddleClick" := "M Click",
    "RGBToggle" := "\U{1F308}",
    "ScrollLock" := "\U{21F3}",
    "CapsLock" := "\U{21EA}",
    "PrintScreen" := "\U{1F4F7}",
    "FINDPREV" := "\U{1F50D}\U{2190}",
    "FINDNEXT" := "\U{1F50D}\U{2192}",
    "FIND" := "\U{1F50D}",
    "UNDO" := "Undo",
    "REDO" := "Redo",
    "CUT" := "Cut",
    "COPY" := "Copy",
    "PASTE" := "Paste",
    "TOGGLE" := "\U{1F504}",
    "DELETE" := "Delete",
    "BACKSPACE" := "Bksp",
    "INSERT" := "Insert"
  ]

  /** `add_spaces_to_long_words`: a listed long word becomes its short
      form; anything else is returned unchanged. */
  function Relabel(text: string): (r: string)
    ensures text in Replacements ==> r == Replacements[text]
    ensures text !in Replacements ==> r == text
  {
    MapOr(Replacements, text)
  }

  /** A spelling every long word of the table has and no short form has:
      nine characters or more, or a final capital letter, or eight
      characters ending in `k`. */
  predicate LongWordSpelling(s: string) {
    || |s| >= 9
    || (s != [] && 'A' <= s[|s| - 1] <= 'Z')
    || (|s| == 8 && s[7] == 'k')
  }

  lemma LongWordsSpelled()
    ensures forall k :: k in Replacements ==> LongWordSpelling(k)
  {
  }

  lemma ShortFormsNotSpelled()
    ensures forall k :: k in Replacements ==> !LongWordSpelling(Replacements[k])
  {
  }

  /** No short form is itself a long word of the table. */
  lemma ShortFormsAreNotKeys()
    ensures forall k :: k in Replacements ==> Replacements[k] !in Replacements
  {
    LongWordsSpelled();
    ShortFormsNotSpelled();
  }

  /** A relabelled text is never itself a listed long word. */
  lemma RelabelSettles(text: string)
    ensures Relabel(text) !in Replacements
  {
    ShortFormsAreNotKeys();
  }

  /** Relabelling is idempotent. */
  lemma RelabelIdempotent(text: string)
    ensures Relabel(Relabel(text)) == Relabel(text)
  {
    RelabelSettles(text);
  }
}
