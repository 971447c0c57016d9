/** Symbol-table lookup for the extended-character behaviours
    (`&emoji_<name>` and `&world_<name>`) over catalogs the caller
    supplies in place of `emoji.yaml` and `world.yaml`. */
module Catalog {
  import opened Results
  import opened Text

  /** A `codepoints` key: YAML reads `100:` as an integer and `grin:` as a
      string, and the two never compare equal. */
  datatype CodeKey = Name(name: string) | Number(n: int)

  /** The variants of one catalog item: a mapping from variant name to
      character, in file order, or a bare character. */
  datatype Variants = Plain(ch: string) | Table(entries: seq<(string, string)>)

  /** The items of one group, in file order. */
  type Group = seq<(string, Variants)>

  datatype SymbolCatalog = SymbolCatalog(
    codepoints: map<CodeKey, string>,
    characters: seq<(string, Group)>,
    transforms: map<string, map<string, string>>)

  /** Python's `key in d` / `d[key]` on a mapping kept in file order. */
  function Lookup<V>(entries: seq<(string, V)>, key: string): (r: Option<V>)
    ensures r.Some? ==> exists i :: 0 <= i < |entries| && entries[i] == (key, r.value)
    ensures r.None? ==> forall i :: 0 <= i < |entries| ==> entries[i].0 != key
  {
    if entries == [] then None
    else if entries[0].0 == key then Some(entries[0].1)
    else Lookup(entries[1..], key)
  }

  /** `list(variants.values())[0]` for a mapping, the value itself otherwise. */
  function FirstVariant(v: Variants): (r: Result<string>)
    ensures v.Plain? ==> r == Ok(v.ch)
    ensures v.Table? ==> (r.Ok? <==> v.entries != []) && (r.Ok? ==> r.value == v.entries[0].1)
  {
    match v
    case Plain(ch) => Ok(ch)
    case Table(entries) =>
      if entries == [] then Err("list index out of range") else Ok(entries[0].1)
  }

  // ------------------------------------------------- the group_item scan

  /** The item of group g whose `g_item` behaviour name is name, first in
      file order. */
  function ScanItems(g: string, items: Group, name: string): Option<Variants> {
    if items == [] then None
    else if g + "_" + items[0].0 == name then Some(items[0].1)
    else ScanItems(g, items[1..], name)
  }

  /** The first `group_item` match across all groups, in file order. */
  function ScanGroups(characters: seq<(string, Group)>, name: string): Option<Variants> {
    if characters == [] then None
    else match ScanItems(characters[0].0, characters[0].1, name)
      case Some(v) => Some(v)
      case None => ScanGroups(characters[1..], name)
  }

  /** The nested `for` loops with early return that scan `characters`. */
  method FindGroupItem(characters: seq<(string, Group)>, name: string) returns (r: Option<Variants>)
    ensures r == ScanGroups(characters, name)
  {
    for gi := 0 to |characters|
      invariant ScanGroups(characters[gi..], name) == ScanGroups(characters, name)
    {
      var group := characters[gi].0;
      var items := characters[gi].1;
      for ii := 0 to |items|
        invariant ScanItems(group, items[ii..], name) == ScanItems(group, items, name)
      {
        var expected := group + "_" + items[ii].0;
        if expected == name {
          return Some(items[ii].1);
        }
      }
      assert characters[gi..][1..] == characters[gi + 1..];
    }
    return None;
  }

  /** Reference meaning of a match: item ii of group gi spells name. */
  ghost predicate MatchesAt(characters: seq<(string, Group)>, name: string, gi: nat, ii: nat) {
    gi < |characters| && ii < |characters[gi].1|
    && characters[gi].0 + "_" + characters[gi].1[ii].0 == name
  }

  /** (gj, ij) comes strictly before (gi, ii) in file order. */
  ghost predicate Earlier(gj: nat, ij: nat, gi: nat, ii: nat) {
    gj < gi || (gj == gi && ij < ii)
  }

  lemma {:induction false} ScanItemsSpec(g: string, items: Group, name: string)
    ensures ScanItems(g, items, name).None? ==>
      forall ii :: 0 <= ii < |items| ==> g + "_" + items[ii].0 != name
    ensures ScanItems(g, items, name).Some? ==>
      exists ii :: 0 <= ii < |items| && g + "_" + items[ii].0 == name
        && ScanItems(g, items, name) == Some(items[ii].1)
        && forall ij :: 0 <= ij < ii ==> g + "_" + items[ij].0 != name
  {
    if items != [] && g + "_" + items[0].0 != name {
      ScanItemsSpec(g, items[1..], name);
      if ScanItems(g, items, name).Some? {
        var ii :| 0 <= ii < |items[1..]| && g + "_" + items[1..][ii].0 == name
          && ScanItems(g, items[1..], name) == Some(items[1..][ii].1)
          && forall ij :: 0 <= ij < ii ==> g + "_" + items[1..][ij].0 != name;
        assert forall ij :: 0 <= ij < ii + 1 ==> g + "_" + items[ij].0 != name by {
          forall ij | 0 <= ij < ii + 1 ensures g + "_" + items[ij].0 != name {
            if ij > 0 { assert items[ij] == items[1..][ij - 1]; }
          }
        }
        assert items[ii + 1] == items[1..][ii];
      }
    } else if items != [] {
      assert g + "_" + items[0].0 == name;
    }
  }

  /** The scan finds nothing exactly when no group/item pair spells the
      name, and otherwise returns the variants of the first pair that does. */
  lemma {:induction false} ScanGroupsSpec(characters: seq<(string, Group)>, name: string)
    ensures ScanGroups(characters, name).None? <==>
      forall gi: nat, ii: nat :: !MatchesAt(characters, name, gi, ii)
    ensures ScanGroups(characters, name).Some? ==>
      exists gi: nat, ii: nat :: MatchesAt(characters, name, gi, ii)
        && ScanGroups(characters, name) == Some(characters[gi].1[ii].1)
        && forall gj: nat, ij: nat :: Earlier(gj, ij, gi, ii) ==> !MatchesAt(characters, name, gj, ij)
  {
    if characters == [] {
    } else {
      var g := characters[0].0;
      var items := characters[0].1;
      ScanItemsSpec(g, items, name);
      ScanGroupsSpec(characters[1..], name);
      assert forall gi: nat, ii: nat :: MatchesAt(characters[1..], name, gi, ii) == MatchesAt(characters, name, gi + 1, ii);
      match ScanItems(g, items, name)
      case Some(v) =>
        var ii :| 0 <= ii < |items| && g + "_" + items[ii].0 == name
          && ScanItems(g, items, name) == Some(items[ii].1)
          && forall ij :: 0 <= ij < ii ==> g + "_" + items[ij].0 != name;
        assert MatchesAt(characters, name, 0, ii);
        assert forall gj: nat, ij: nat :: Earlier(gj, ij, 0, ii) ==> !MatchesAt(characters, name, gj, ij);
      case None =>
        assert forall ii: nat :: !MatchesAt(characters, name, 0, ii);
        if ScanGroups(characters[1..], name).Some? {
          var gi: nat, ii: nat :| MatchesAt(characters[1..], name, gi, ii)
            && ScanGroups(characters[1..], name) == Some(characters[1..][gi].1[ii].1)
            && forall gj: nat, ij: nat :: Earlier(gj, ij, gi, ii) ==> !MatchesAt(characters[1..], name, gj, ij);
          assert MatchesAt(characters, name, gi + 1, ii);
          forall gj: nat, ij: nat | Earlier(gj, ij, gi + 1, ii)
            ensures !MatchesAt(characters, name, gj, ij)
          {
            if gj > 0 { assert Earlier(gj - 1, ij, gi, ii); }
          }
        } else {
          forall gi: nat, ii: nat ensures !MatchesAt(characters, name, gi, ii) {
            if gi > 0 { assert !MatchesAt(characters[1..], name, gi - 1, ii); }
          }
        }
    }
  }

  // ------------------------------------------------------------- emoji

  /** The three presets recognised before the catalog is consulted. */
  const EmojiPresets: map<string, string> := map[
    "skin_tone_preset" := "\U{1F3FC}",
    "gender_sign_preset" := "\U{2640}\U{FE0F}",
    "hair_style_preset" := "\U{1F9B1}"
  ]

  /** The `&emoji_` lookup: presets, then `codepoints` under the name, then
      under its integer form, then the first `group_item` match, whose
      first variant is returned. */
  function EmojiLookup(name: string, cat: SymbolCatalog): Result<string> {
    if name in EmojiPresets then Ok(EmojiPresets[name])
    else if Name(name) in cat.codepoints then Ok(cat.codepoints[Name(name)])
    else if ParseInt(name).Some? && Number(ParseInt(name).value) in cat.codepoints then
      Ok(cat.codepoints[Number(ParseInt(name).value)])
    else match ScanGroups(cat.characters, name)
      case Some(v) => FirstVariant(v)
      case None => Err("Emoji behavior '" + name + "' not found in emoji.yaml")
  }

  /** Preset names resolve the same whatever the catalog holds. */
  lemma EmojiPresetsFirst(name: string, c1: SymbolCatalog, c2: SymbolCatalog)
    requires name in EmojiPresets
    ensures EmojiLookup(name, c1) == EmojiLookup(name, c2) == Ok(EmojiPresets[name])
  {
  }

  /** A name written as a decimal number finds an integer `codepoints` key. */
  lemma EmojiNumericKey(n: nat, ch: string, cat: SymbolCatalog)
    requires ShowNat(n) !in EmojiPresets && Name(ShowNat(n)) !in cat.codepoints
    requires Number(n) in cat.codepoints && cat.codepoints[Number(n)] == ch
    ensures EmojiLookup(ShowNat(n), cat) == Ok(ch)
  {
    ParseIntShowNat(n);
  }

  /** When neither a preset nor a codepoint applies, the result is the
      first variant of the first group/item pair that spells the name. */
  lemma EmojiGroupItem(name: string, cat: SymbolCatalog, gi: nat, ii: nat)
    requires name !in EmojiPresets && Name(name) !in cat.codepoints
    requires ParseInt(name).None? || Number(ParseInt(name).value) !in cat.codepoints
    requires MatchesAt(cat.characters, name, gi, ii)
    requires forall gj: nat, ij: nat :: Earlier(gj, ij, gi, ii) ==> !MatchesAt(cat.characters, name, gj, ij)
    ensures EmojiLookup(name, cat) == FirstVariant(cat.characters[gi].1[ii].1)
  {
    ScanGroupsSpec(cat.characters, name);
    var gk: nat, ik: nat :| MatchesAt(cat.characters, name, gk, ik)
      && ScanGroups(cat.characters, name) == Some(cat.characters[gk].1[ik].1)
      && forall gj: nat, ij: nat :: Earlier(gj, ij, gk, ik) ==> !MatchesAt(cat.characters, name, gj, ij);
    if Earlier(gk, ik, gi, ii) {
    } else if Earlier(gi, ii, gk, ik) {
    } else {
      assert gk == gi && ik == ii;
    }
  }

  /** The lookup fails exactly when no source applies (or the matched item
      has an empty variant table), and its error names the behaviour. */
  lemma EmojiNotFound(name: string, cat: SymbolCatalog)
    ensures EmojiLookup(name, cat).Err? <==>
      && name !in EmojiPresets && Name(name) !in cat.codepoints
      && (ParseInt(name).None? || Number(ParseInt(name).value) !in cat.codepoints)
      && ((forall gi: nat, ii: nat :: !MatchesAt(cat.characters, name, gi, ii))
          || ScanGroups(cat.characters, name) == Some(Table([])))
    ensures EmojiLookup(name, cat).Err? && ScanGroups(cat.characters, name).None? ==>
      Contains(EmojiLookup(name, cat).msg, name)
  {
    ScanGroupsSpec(cat.characters, name);
    if ScanGroups(cat.characters, name).None? {
      ContainsInside("Emoji behavior '", name, "' not found in emoji.yaml");
    }
  }

  /** The scenario of a two-variant `smileys` / `grin` item. */
  lemma EmojiSmileysGrin(first: string, second: string)
    ensures
      var cat := SymbolCatalog(map[], [("smileys", [("grin", Table([("lower", first), ("upper", second)]))])], map[]);
      EmojiLookup("smileys_grin", cat) == Ok(first)
  {
    var cat := SymbolCatalog(map[], [("smileys", [("grin", Table([("lower", first), ("upper", second)]))])], map[]);
    assert "smileys" + "_" + "grin" == "smileys_grin";
    assert ParseInt("smileys_grin").None? by {
      assert !DigitGroups("smileys_grin");
    }
  }

  // ------------------------------------------------------------- world

  /** The base rendering of a variant table: `lower`, else `regular`, else
      the first entry (an empty table raises, since the first entry is
      computed eagerly as the fallback). */
  function BaseVariant(v: Variants): Result<string> {
    match v
    case Plain(ch) => Ok(ch)
    case Table(entries) =>
      if entries == [] then Err("list index out of range")
      else match Lookup(entries, "lower")
        case Some(c) => Ok(c)
        case None => match Lookup(entries, "regular")
          case Some(c) => Ok(c)
          case None => Ok(entries[0].1)
  }

  /** `<letter>_base` indirection through `transforms`; None when some step
      does not apply and the lookup goes on to the group scan. */
  function ViaBaseTransform(name: string, cat: SymbolCatalog): Option<Result<string>> {
    if !Contains(name, "_base") then None
    else
      var orig := RemoveAll(name, "_base");
      var letter :=
        if Upper(orig) in cat.transforms then Upper(orig)
        else if Lower(orig) in cat.transforms then Lower(orig)
        else "";
      if letter == "" || "base" !in cat.transforms[letter] then None
      else
        var base := cat.transforms[letter]["base"];
        if base == "" then None
        else match Lookup(cat.characters, letter)
          case None => None
          case Some(group) => match Lookup(group, base)
            case None => None
            case Some(v) => Some(BaseVariant(v))
  }

  /** The `&world_` lookup: `codepoints`, then the base transform, then the
      first `group_item` match. */
  function WorldLookup(name: string, cat: SymbolCatalog): Result<string> {
    if Name(name) in cat.codepoints then Ok(cat.codepoints[Name(name)])
    else match ViaBaseTransform(name, cat)
      case Some(r) => r
      case None => match ScanGroups(cat.characters, name)
        case Some(v) => FirstVariant(v)
        case None => Err("World character '" + name + "' not found in world.yaml")
  }

  /** The base rendering prefers `lower`, then `regular`, then the first
      variant. */
  lemma BaseVariantPreference(entries: seq<(string, string)>, i: nat)
    requires i < |entries|
    ensures entries[i].0 == "lower" && (forall j :: 0 <= j < i ==> entries[j].0 != "lower") ==>
      BaseVariant(Table(entries)) == Ok(entries[i].1)
    ensures (&& entries[i].0 == "regular"
             && (forall j :: 0 <= j < |entries| ==> entries[j].0 != "lower")
             && (forall j :: 0 <= j < i ==> entries[j].0 != "regular")) ==>
      BaseVariant(Table(entries)) == Ok(entries[i].1)
    ensures (forall j :: 0 <= j < |entries| ==> entries[j].0 != "lower" && entries[j].0 != "regular") ==>
      BaseVariant(Table(entries)) == Ok(entries[0].1)
  {
    if entries[i].0 == "lower" && (forall j :: 0 <= j < i ==> entries[j].0 != "lower") {
      LookupFirst(entries, "lower", i);
    }
    if entries[i].0 == "regular" && (forall j :: 0 <= j < i ==> entries[j].0 != "regular") {
      LookupFirst(entries, "regular", i);
    }
  }

  lemma {:induction false} LookupFirst<V>(entries: seq<(string, V)>, key: string, i: nat)
    requires i < |entries| && entries[i].0 == key
    requires forall j :: 0 <= j < i ==> entries[j].0 != key
    ensures Lookup(entries, key) == Some(entries[i].1)
  {
    if i > 0 {
      LookupFirst(entries[1..], key, i - 1);
    }
  }

  /** A `<x>_base` name whose letter, upper case first and lower case
      otherwise, has a base transform resolves through it to the base
      rendering of that character in the letter's group. The letter part
      may hold underscores, as in `n_tilde_base`, as long as it does not
      itself hold `_base`. */
  lemma WorldBaseTransform(x: string, letter: string, base: string,
                           items: Group, v: Variants, cat: SymbolCatalog)
    requires !Contains(x, "_base")
    requires Name(x + "_base") !in cat.codepoints
    requires letter == (if Upper(x) in cat.transforms then Upper(x) else Lower(x))
    requires letter != "" && letter in cat.transforms
    requires "base" in cat.transforms[letter] && cat.transforms[letter]["base"] == base
    requires base != ""
    requires Lookup(cat.characters, letter) == Some(items)
    requires Lookup(items, base) == Some(v)
    ensures WorldLookup(x + "_base", cat) == BaseVariant(v)
  {
    ContainsInside(x, "_base", "");
    assert x + "_base" + "" == x + "_base";
    RemoveTrailing(x, "_base");
  }

  /** Deleting a pattern that occurs only at the very end leaves the
      front. The pattern's first character must not recur in it, so no
      occurrence can straddle the boundary. */
  lemma {:induction false} RemoveTrailing(x: string, pat: string)
    requires pat != "" && pat[0] !in pat[1..] && !Contains(x, pat)
    ensures RemoveAll(x + pat, pat) == x
    decreases |x|
  {
    var s := x + pat;
    if x == [] {
      assert s == pat + "";
      RemoveLeading(pat, "");
    } else {
      if |x| >= |pat| {
        assert s[..|pat|] == x[..|pat|];
      } else {
        assert s[|x|] == pat[0];
        assert pat[|x|] in pat[1..];
      }
      assert s[..|pat|] != pat;
      assert s[1..] == x[1..] + pat;
      if Contains(x[1..], pat) {
        ContainsTail(x, pat);
      }
      RemoveTrailing(x[1..], pat);
    }
  }

  /** What the tail of a string contains, the string contains. */
  lemma ContainsTail(x: string, t: string)
    requires x != [] && Contains(x[1..], t)
    ensures Contains(x, t)
  {
    ContainsInside("", x, "");
    assert "" + x + "" == x;
    assert [x[0]] + x[1..] == x;
    ContainsSuffixOf(x, [x[0]], x[1..]);
    ContainsTrans(x, x[1..], t);
  }

  /** An absent world character fails with an error naming it. */
  lemma WorldNotFound(name: string, cat: SymbolCatalog)
    requires Name(name) !in cat.codepoints && ViaBaseTransform(name, cat).None?
    requires forall gi: nat, ii: nat :: !MatchesAt(cat.characters, name, gi, ii)
    ensures WorldLookup(name, cat).Err? && Contains(WorldLookup(name, cat).msg, name)
  {
    ScanGroupsSpec(cat.characters, name);
    ContainsInside("World character '", name, "' not found in world.yaml");
  }
}
