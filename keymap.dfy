/** The converter's data model: the binding records read from the
    keymap export, the labels the resolver produces, the per-layer context
    flag, and the glyphs the labels are built from. */
module Keymap {

  /** One key's configured action as exported: a dictionary with a
      `value` tag and nested `params` (a missing `value` reads as "" and
      missing `params` as []), or any other JSON value, which the
      converter cannot descend into. */
  datatype Binding =
    | Node(value: string, params: seq<Binding>)
    | Scalar(text: string)

  /** The resolver's output: `None` in the source (the key renders
      empty) or a printable label. */
  datatype Label = NoLabel | Shown(text: string)

  /** The key-code table (`ZMK_KEY_MAPPING`), injected by the caller. */
  type KeyTable = map<string, string>

  /** Python's `table.get(k, k)`. */
  function MapOr(keys: KeyTable, k: string): (r: string)
    ensures k in keys ==> r == keys[k]
    ensures k !in keys ==> r == k
  {
    if k in keys then keys[k] else k
  }

  /** The layer-context policy: every layer other than the unnamed one and
      the base layer GRAPHITE is an overlay. Home-row modifiers show their
      modifier glyph on overlays and their tap key on the base layer. */
  predicate IsOverlay(layerName: string) {
    layerName != "" && layerName != "GRAPHITE"
  }

  lemma OverlayIff(layerName: string)
    ensures !IsOverlay(layerName) <==> layerName in {"", "GRAPHITE"}
  {
  }

  // Glyphs used in labels.
  const CmdGlyph := "\U{2318}"     // ⌘
  const AltGlyph := "\U{2325}"     // ⌥
  const CtrlGlyph := "\U{2303}"    // ⌃
  const ShiftGlyph := "\U{21E7}"   // ⇧
  const TabGlyph := "\U{21E5}"     // ⇥
  const LockGlyph := "\U{1F512}"   // 🔒
  const ToggleGlyph := "\U{1F504}" // 🔄
  const StickyGlyph := "\U{26A1}"  // ⚡
  const SpaceGlyph := "\U{23B5}"   // ⎵
  const RainbowGlyph := "\U{1F308}" // 🌈
  const UpArrow := "\U{2191}"
  const DownArrow := "\U{2193}"
  const LeftArrow := "\U{2190}"
  const RightArrow := "\U{2192}"
}
