/** `processDef` (BionicIcons.cs lines 95-137) and `replace` (lines 139-163):
    the gate, the first-match icon scan, the first-match colour scan, and the
    appearance fields an override writes. The two scans are pure first-match
    functions; the methods ScanIcons and ScanColors are the source's loops,
    proved to compute them. */
module Resolution {
  import opened Defs
  import opened Strings

  /** A `nameContains` filter: unset, or a substring of the defName. */
  predicate NamePasses(nameContains: Option<string>, defName: string)
  {
    nameContains.None? || Contains(defName, nameContains.value)
  }

  /** `isSolid` of line 112: the added part exists and is solid. */
  predicate IsSolid(hediff: HediffDef)
  {
    hediff.addedPartProps.Some? && hediff.addedPartProps.value.solid
  }

  /** The filters of lines 109-116: the name filter, and, only when the recipe
      adds a hediff, the solid-only and soft-only flags. */
  predicate IconPasses(option: IconRule, defName: string, addsHediff: Option<HediffDef>)
  {
    && NamePasses(option.nameContains, defName)
    && (addsHediff.Some? ==>
          (option.solidOnly ==> IsSolid(addsHediff.value)) && (option.softOnly ==> !IsSolid(addsHediff.value)))
  }

  /** `i` is the first position of `icons` whose rule passes. */
  predicate IsFirstIcon(icons: seq<IconRule>, i: int, defName: string, addsHediff: Option<HediffDef>)
  {
    && 0 <= i < |icons|
    && IconPasses(icons[i], defName, addsHediff)
    && forall j :: 0 <= j < i ==> !IconPasses(icons[j], defName, addsHediff)
  }

  /** The position of the icon the scan of lines 107-120 stops at, if any. */
  function FirstIcon(icons: seq<IconRule>, defName: string, addsHediff: Option<HediffDef>): (r: Option<nat>)
    ensures r.Some? ==> IsFirstIcon(icons, r.value, defName, addsHediff)
    ensures r.None? ==> forall j :: 0 <= j < |icons| ==> !IconPasses(icons[j], defName, addsHediff)
  {
    if icons == [] then None
    else if IconPasses(icons[0], defName, addsHediff) then Some(0)
    else match FirstIcon(icons[1..], defName, addsHediff)
      case None => None
      case Some(i) => Some(i + 1)
  }

  /** The loop of lines 106-120: the texture of the first icon rule that
      passes, or nothing. */
  method ScanIcons(icons: seq<IconRule>, defName: string, addsHediff: Option<HediffDef>) returns (tex: Option<string>)
    ensures tex.None? <==> forall j :: 0 <= j < |icons| ==> !IconPasses(icons[j], defName, addsHediff)
    ensures tex.Some? ==> exists i :: IsFirstIcon(icons, i, defName, addsHediff) && tex.value == icons[i].texture
    ensures tex == match FirstIcon(icons, defName, addsHediff) case None => None case Some(i) => Some(icons[i].texture)
  {
    tex := None;
    var i := 0;
    while i < |icons|
      invariant 0 <= i <= |icons|
      invariant forall j :: 0 <= j < i ==> !IconPasses(icons[j], defName, addsHediff)
    {
      var option := icons[i];
      if option.nameContains.Some? && !Contains(defName, option.nameContains.value) {
        i := i + 1;
        continue;
      }
      if addsHediff.Some? {
        var isSolid := addsHediff.value.addedPartProps.Some? && addsHediff.value.addedPartProps.value.solid;
        if option.solidOnly && !isSolid {
          i := i + 1;
          continue;
        }
        if option.softOnly && isSolid {
          i := i + 1;
          continue;
        }
      }
      tex := Some(option.texture);
      assert IsFirstIcon(icons, i, defName, addsHediff);
      break;
    }
  }

  /** The filters of lines 127-128: the name filter, and the category filter,
      which passes when the rule has no category, when the thing has no
      category list, or when that list holds the rule's category. */
  predicate ColorPasses(option: TextureRule, def: ThingDef)
  {
    && NamePasses(option.nameContains, def.defName)
    && (option.category.None? || def.thingCategories.None? || option.category.value in def.thingCategories.value)
  }

  /** `j` is the first position of `colors` whose rule passes. */
  predicate IsFirstColor(colors: seq<TextureRule>, j: int, def: ThingDef)
  {
    && 0 <= j < |colors|
    && ColorPasses(colors[j], def)
    && forall k :: 0 <= k < j ==> !ColorPasses(colors[k], def)
  }

  /** The position of the texture rule the scan of lines 125-133 stops at. */
  function FirstColor(colors: seq<TextureRule>, def: ThingDef): (r: Option<nat>)
    ensures r.Some? ==> IsFirstColor(colors, r.value, def)
    ensures r.None? ==> forall k :: 0 <= k < |colors| ==> !ColorPasses(colors[k], def)
  {
    if colors == [] then None
    else if ColorPasses(colors[0], def) then Some(0)
    else match FirstColor(colors[1..], def)
      case None => None
      case Some(j) => Some(j + 1)
  }

  /** The loop of lines 123-133: the colour and texture rule of the first rule
      that passes; white and no rule when none does. */
  method ScanColors(colors: seq<TextureRule>, def: ThingDef) returns (color: Color, textureDef: Option<TextureRule>)
    ensures textureDef.None? <==> forall k :: 0 <= k < |colors| ==> !ColorPasses(colors[k], def)
    ensures textureDef.None? ==> color == White
    ensures textureDef.Some? ==>
      exists j :: IsFirstColor(colors, j, def) && textureDef.value == colors[j] && color == colors[j].color
    ensures textureDef == match FirstColor(colors, def) case None => None case Some(j) => Some(colors[j])
  {
    color := White;
    textureDef := None;
    var i := 0;
    while i < |colors|
      invariant 0 <= i <= |colors|
      invariant forall k :: 0 <= k < i ==> !ColorPasses(colors[k], def)
    {
      var option := colors[i];
      if option.nameContains.Some? && !Contains(def.defName, option.nameContains.value) {
        i := i + 1;
        continue;
      }
      if option.category.Some? && def.thingCategories.Some? && option.category.value !in def.thingCategories.value {
        i := i + 1;
        continue;
      }
      textureDef := Some(option);
      color := option.color;
      assert IsFirstColor(colors, i, def);
      break;
    }
  }

  /** What `processDef` hands to `replace`: the icon texture, the colour and
      the texture rule (absent when no colour rule passed). */
  datatype Patch = Patch(tex: string, color: Color, textureDef: Option<TextureRule>)

  /** The gate of lines 97-104: a tech hediff with graphic data, whose texture
      has rules and whose body part has icons. */
  predicate Eligible(replacements: map<string, seq<TextureRule>>, replacementsIcon: map<string, seq<IconRule>>,
                     bodyPart: string, def: ThingDef)
  {
    && def.isTechHediff
    && def.graphicData.Some?
    && def.graphicData.value.texPath in replacements
    && bodyPart in replacementsIcon
  }

  /** `processDef` up to its call to `replace`: the patch it applies, or None
      when it returns false. */
  function Resolve(replacements: map<string, seq<TextureRule>>, replacementsIcon: map<string, seq<IconRule>>,
                   recipe: RecipeDef, bodyPart: string, def: ThingDef): (r: Option<Patch>)
    ensures !Eligible(replacements, replacementsIcon, bodyPart, def) ==> r.None?
    ensures Eligible(replacements, replacementsIcon, bodyPart, def) ==>
      var icons := replacementsIcon[bodyPart];
      (r.Some? <==> exists i :: 0 <= i < |icons| && IconPasses(icons[i], def.defName, recipe.addsHediff))
    ensures r.Some? ==>
      var icons := replacementsIcon[bodyPart];
      exists i :: IsFirstIcon(icons, i, def.defName, recipe.addsHediff) && r.value.tex == icons[i].texture
    ensures r.Some? ==>
      var colors := replacements[def.graphicData.value.texPath];
      match r.value.textureDef
      case None => r.value.color == White && forall k :: 0 <= k < |colors| ==> !ColorPasses(colors[k], def)
      case Some(t) => exists j :: IsFirstColor(colors, j, def) && t == colors[j] && r.value.color == t.color
  {
    if !def.isTechHediff then None
    else if def.graphicData.None? then None
    else if def.graphicData.value.texPath !in replacements then None
    else if bodyPart !in replacementsIcon then None
    else
      var colors := replacements[def.graphicData.value.texPath];
      var icons := replacementsIcon[bodyPart];
      match FirstIcon(icons, def.defName, recipe.addsHediff)
      case None => None
      case Some(i) =>
        match FirstColor(colors, def)
        case None => Some(Patch(icons[i].texture, White, None))
        case Some(j) => Some(Patch(icons[i].texture, colors[j].color, Some(colors[j])))
  }

  /** The thing after `replace(def, p.tex, p.color, p.textureDef)`: with a
      texture rule, a masked graphic of the rule's replacement texture in the
      rule's colours, masked by the icon; without one, a plain graphic of the
      icon in the given colour. Both draw at unit size, are initialised, and
      show `p.color` as icon colour; nothing else about the thing changes. */
  function Replaced(def: ThingDef, p: Patch): (r: ThingDef)
    requires def.graphicData.Some?
    ensures r.defName == def.defName && r.isTechHediff == def.isTechHediff
    ensures r.thingCategories == def.thingCategories
    ensures r.uiIconColor == p.color
    ensures r.graphicData.Some? && r.graphicData.value.drawSize == UnitSize
    ensures r.graphic == Some(Initialised(r.graphicData.value, if p.textureDef.Some? then Some(p.tex) else None))
    ensures p.textureDef.Some? ==>
      var g := r.graphicData.value;
      var t := p.textureDef.value;
      && g.graphicClass == SingleWithMask && g.texPath == t.replacement
      && g.color == t.color && g.colorTwo == t.colorIcon && g.shaderType == CutoutComplex
    ensures p.textureDef.None? ==>
      var g := r.graphicData.value;
      && g.graphicClass == Single && g.texPath == p.tex && g.color == p.color
      && g.colorTwo == def.graphicData.value.colorTwo && g.shaderType == def.graphicData.value.shaderType
  {
    var old_g := def.graphicData.value;
    var g := match p.textureDef
      case Some(t) =>
        old_g.(graphicClass := SingleWithMask, drawSize := UnitSize, color := t.color, texPath := t.replacement,
               shaderType := CutoutComplex, colorTwo := t.colorIcon)
      case None =>
        old_g.(graphicClass := Single, drawSize := UnitSize, color := p.color, texPath := p.tex);
    var mask := if p.textureDef.Some? then Some(p.tex) else None;
    def.(graphicData := Some(g), graphic := Some(Initialised(g, mask)), uiIconColor := p.color)
  }

  /** `Graphic_SingleWithMask.maskPath` after `replace`: the icon texture when
      a texture rule was applied, unchanged otherwise. */
  function MaskAfter(maskPath: Option<string>, p: Patch): Option<string>
  {
    if p.textureDef.Some? then Some(p.tex) else maskPath
  }
}
