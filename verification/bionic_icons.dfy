/** The class `BionicIcons` (BionicIcons.cs): its static dictionaries, the
    global mask path it writes, and the thing definitions it patches, as fields
    of one object; its static constructor, `processDef` and `replace` as methods
    that change them. Each loop is proved to compute the fold in Startup and
    RuleIndex that describes it, so the lemmas proved there hold of the state
    the constructor leaves behind. */
module BionicIcons {
  import opened Defs
  import opened RuleIndex
  import opened Resolution
  import opened Startup

  /** Every thing an ingredient filter allows is a thing definition. */
  ghost predicate AllowedThingsExist(recipes: seq<RecipeDef>, things: map<string, ThingDef>)
  {
    forall r, ing, t :: r in recipes && ing in r.ingredients && t in ing.allowedThingDefs ==> t in things
  }

  ghost predicate IngredientsExist(ingredients: seq<Ingredient>, things: map<string, ThingDef>)
  {
    forall ing, t :: ing in ingredients && t in ing.allowedThingDefs ==> t in things
  }

  class BionicIcons {
    /** `replacements`: source texture path to texture rules. */
    var replacements: map<string, seq<TextureRule>>
    /** `replacementsIcon`: body part to icon rules. */
    var replacementsIcon: map<string, seq<IconRule>>
    /** `Graphic_SingleWithMask.maskPath`. */
    var maskPath: Option<string>
    /** The thing definitions, by defName. */
    var things: map<string, ThingDef>
    /** The things handed to `replace`, in order. */
    ghost var log: seq<string>

    /** The patching state together with a `processed` set. */
    ghost function State(processed: set<string>): Run
      reads this
    {
      Run(things, maskPath, processed, log)
    }

    /** The static constructor (lines 18-93), preceded by the field
        initialisers of lines 15-16. */
    constructor (c: Catalogs, initialMaskPath: Option<string>)
      requires AllowedThingsExist(c.recipes, c.thingDefs)
      ensures var res := StartupRun(c, initialMaskPath);
        && replacements == res.replacements
        && replacementsIcon == res.replacementsIcon
        && things == res.run.things
        && maskPath == res.run.maskPath
        && log == res.run.log
    {
      replacements := map[];
      replacementsIcon := map[];
      maskPath := initialMaskPath;
      things := c.thingDefs;
      log := [];
      new;
      var processed: set<string> := {};
      ghost var start := State(processed);
      IndexTextures(c.textureDefs);
      var icons := SortIcons(c.iconDefs);
      ghost var iconIndex := IconIndex(icons, c.bodyPartDefs);
      processed := IndexIcons(icons, c.bodyPartDefs, processed, iconIndex);
      processed := ScanRecipes(c.recipes, processed);
      RunStepsAppend(start, DirectSteps(icons), RecipeSteps(c.recipes), replacements, replacementsIcon);
    }

    /** Lines 25-36: group the texture rules by the texture they replace. */
    method IndexTextures(defs: seq<TextureRule>)
      modifies this
      ensures replacements == TextureIndexFrom(old(replacements), defs)
      ensures replacementsIcon == old(replacementsIcon) && things == old(things)
      ensures maskPath == old(maskPath) && log == old(log)
    {
      var i := 0;
      while i < |defs|
        invariant 0 <= i <= |defs|
        invariant replacements == TextureIndexFrom(old(replacements), defs[..i])
        invariant replacementsIcon == old(replacementsIcon) && things == old(things)
        invariant maskPath == old(maskPath) && log == old(log)
      {
        var def := defs[i];
        if def.texture !in replacements {
          replacements := replacements[def.texture := []];
        }
        replacements := replacements[def.texture := replacements[def.texture] + [def]];
        assert defs[..i + 1][..i] == defs[..i];
        i := i + 1;
      }
      assert defs[..i] == defs;
    }

    /** Lines 40-71: spread the sorted icon rules over their body parts, and
        patch the things they name directly. `iconIndex` is the index the
        recipe pass will see; direct patches do not read it. */
    method IndexIcons(icons: seq<IconRule>, bodyPartDefs: set<string>, processed0: set<string>,
                      ghost iconIndex: map<string, seq<IconRule>>)
      returns (processed: set<string>)
      modifies this
      ensures replacementsIcon == IconIndexFrom(old(replacementsIcon), icons, bodyPartDefs)
      ensures State(processed) == RunSteps(old(State(processed0)), DirectSteps(icons), replacements, iconIndex)
      ensures replacements == old(replacements) && things.Keys == old(things).Keys
    {
      processed := processed0;
      var i := 0;
      while i < |icons|
        invariant 0 <= i <= |icons|
        invariant replacementsIcon == IconIndexFrom(old(replacementsIcon), icons[..i], bodyPartDefs)
        invariant State(processed) == RunSteps(old(State(processed0)), DirectSteps(icons[..i]), replacements, iconIndex)
        invariant replacements == old(replacements) && things.Keys == old(things).Keys
      {
        var def := icons[i];
        assert icons[..i + 1][..i] == icons[..i];
        AddIcon(def, bodyPartDefs);
        if def.thingDef.Some? {
          processed := PatchDirect(def.thingDef.value, def.texture, processed, iconIndex);
        }
        assert DirectSteps(icons[..i + 1]) == DirectSteps(icons[..i])
          + (if def.thingDef.Some? then [Direct(def.thingDef.value, def.texture)] else []);
        RunStepsAppend(old(State(processed0)), DirectSteps(icons[..i]),
                       if def.thingDef.Some? then [Direct(def.thingDef.value, def.texture)] else [],
                       replacements, iconIndex);
        if def.thingDef.Some? {
          assert [Direct(def.thingDef.value, def.texture)][..0] == [];
        }
        i := i + 1;
      }
      assert icons[..i] == icons;
    }

    /** Lines 47-60: append `def` to the bucket of each of its body parts
        that exists, creating the bucket when it is missing. */
    method AddIcon(def: IconRule, bodyPartDefs: set<string>)
      modifies this
      ensures replacementsIcon == AddToBuckets(old(replacementsIcon), def, def.bodyParts, bodyPartDefs)
      ensures replacements == old(replacements) && things == old(things)
      ensures maskPath == old(maskPath) && log == old(log)
    {
      var j := 0;
      while j < |def.bodyParts|
        invariant 0 <= j <= |def.bodyParts|
        invariant replacementsIcon == AddToBuckets(old(replacementsIcon), def, def.bodyParts[..j], bodyPartDefs)
        invariant replacements == old(replacements) && things == old(things)
        invariant maskPath == old(maskPath) && log == old(log)
      {
        var bodyPart := def.bodyParts[j];
        if bodyPart in bodyPartDefs {
          if bodyPart !in replacementsIcon {
            replacementsIcon := replacementsIcon[bodyPart := []];
          }
          replacementsIcon := replacementsIcon[bodyPart := replacementsIcon[bodyPart] + [def]];
        }
        assert def.bodyParts[..j + 1][..j] == def.bodyParts[..j];
        j := j + 1;
      }
      assert def.bodyParts[..j] == def.bodyParts;
    }

    /** Lines 62-70: patch the thing an icon rule names, in white, unless it
        is unknown or already processed; a thing without graphic data is
        skipped (the source would throw here). */
    method PatchDirect(thing: string, texture: string, processed0: set<string>,
                       ghost iconIndex: map<string, seq<IconRule>>)
      returns (processed: set<string>)
      modifies this
      ensures State(processed) == TryStep(old(State(processed0)), Direct(thing, texture), replacements, iconIndex)
      ensures replacements == old(replacements) && replacementsIcon == old(replacementsIcon)
      ensures things.Keys == old(things).Keys
    {
      processed := processed0;
      if thing in things && thing !in processed && things[thing].graphicData.Some? {
        Replace(thing, texture, White, None);
        processed := processed + {thing};
      }
    }

    /** Lines 73-92: try every recipe on every fixed body part. */
    method ScanRecipes(recipes: seq<RecipeDef>, processed0: set<string>) returns (processed: set<string>)
      requires AllowedThingsExist(recipes, things)
      modifies this
      ensures State(processed) == RunSteps(old(State(processed0)), RecipeSteps(recipes), replacements, replacementsIcon)
      ensures replacements == old(replacements) && replacementsIcon == old(replacementsIcon)
      ensures things.Keys == old(things).Keys
    {
      processed := processed0;
      var i := 0;
      while i < |recipes|
        invariant 0 <= i <= |recipes|
        invariant replacements == old(replacements) && replacementsIcon == old(replacementsIcon)
        invariant things.Keys == old(things).Keys
        invariant State(processed) == RunSteps(old(State(processed0)), RecipeSteps(recipes[..i]), replacements, replacementsIcon)
      {
        var recipe := recipes[i];
        assert recipes[..i + 1][..i] == recipes[..i];
        assert recipe in recipes;
        assert IngredientsExist(recipe.ingredients, things);
        ghost var done := RecipeSteps(recipes[..i]);
        processed := ScanParts(recipe, processed);
        RunStepsAppend(old(State(processed0)), done, StepsOfRecipe(recipe), replacements, replacementsIcon);
        i := i + 1;
      }
      assert recipes[..i] == recipes;
    }

    /** Lines 75-90: try one recipe on each of its fixed body parts; nothing
        when it has none. */
    method ScanParts(recipe: RecipeDef, processed0: set<string>) returns (processed: set<string>)
      requires IngredientsExist(recipe.ingredients, things)
      modifies this
      ensures State(processed) == RunSteps(old(State(processed0)), StepsOfRecipe(recipe), replacements, replacementsIcon)
      ensures replacements == old(replacements) && replacementsIcon == old(replacementsIcon)
      ensures things.Keys == old(things).Keys
    {
      processed := processed0;
      if recipe.appliedOnFixedBodyParts.None? || recipe.appliedOnFixedBodyParts.value == [] {
        return;
      }
      var bodyParts := recipe.appliedOnFixedBodyParts.value;
      var j := 0;
      while j < |bodyParts|
        invariant 0 <= j <= |bodyParts|
        invariant replacements == old(replacements) && replacementsIcon == old(replacementsIcon)
        invariant things.Keys == old(things).Keys
        invariant State(processed) == RunSteps(old(State(processed0)), PartSteps(recipe, bodyParts[..j]), replacements, replacementsIcon)
      {
        ghost var steps := IngredientSteps(recipe, bodyParts[j], recipe.ingredients);
        processed := ScanIngredients(recipe, bodyParts[j], processed);
        RunStepsAppend(old(State(processed0)), PartSteps(recipe, bodyParts[..j]), steps, replacements, replacementsIcon);
        assert bodyParts[..j + 1][..j] == bodyParts[..j];
        j := j + 1;
      }
      assert bodyParts[..j] == bodyParts;
    }

    /** Lines 79-90: try every thing every ingredient of `recipe` allows. */
    method ScanIngredients(recipe: RecipeDef, bodyPart: string, processed0: set<string>) returns (processed: set<string>)
      requires IngredientsExist(recipe.ingredients, things)
      modifies this
      ensures State(processed)
        == RunSteps(old(State(processed0)), IngredientSteps(recipe, bodyPart, recipe.ingredients), replacements, replacementsIcon)
      ensures replacements == old(replacements) && replacementsIcon == old(replacementsIcon)
      ensures things.Keys == old(things).Keys
    {
      processed := processed0;
      var ingredients := recipe.ingredients;
      var k := 0;
      while k < |ingredients|
        invariant 0 <= k <= |ingredients|
        invariant replacements == old(replacements) && replacementsIcon == old(replacementsIcon)
        invariant things.Keys == old(things).Keys
        invariant State(processed)
          == RunSteps(old(State(processed0)), IngredientSteps(recipe, bodyPart, ingredients[..k]), replacements, replacementsIcon)
      {
        var allowed := ingredients[k].allowedThingDefs;
        assert ingredients[k] in ingredients;
        ghost var done := IngredientSteps(recipe, bodyPart, ingredients[..k]);
        processed := ScanAllowed(recipe, bodyPart, allowed, processed);
        RunStepsAppend(old(State(processed0)), done, ThingSteps(recipe, bodyPart, allowed), replacements, replacementsIcon);
        assert ingredients[..k + 1][..k] == ingredients[..k];
        k := k + 1;
      }
      assert ingredients[..k] == ingredients;
    }

    /** Lines 81-89: try every thing one ingredient allows, in order. */
    method ScanAllowed(recipe: RecipeDef, bodyPart: string, allowed: seq<string>, processed0: set<string>)
      returns (processed: set<string>)
      requires forall t :: t in allowed ==> t in things
      modifies this
      ensures State(processed)
        == RunSteps(old(State(processed0)), ThingSteps(recipe, bodyPart, allowed), replacements, replacementsIcon)
      ensures replacements == old(replacements) && replacementsIcon == old(replacementsIcon)
      ensures things.Keys == old(things).Keys
    {
      processed := processed0;
      var l := 0;
      while l < |allowed|
        invariant 0 <= l <= |allowed|
        invariant replacements == old(replacements) && replacementsIcon == old(replacementsIcon)
        invariant things.Keys == old(things).Keys
        invariant State(processed)
          == RunSteps(old(State(processed0)), ThingSteps(recipe, bodyPart, allowed[..l]), replacements, replacementsIcon)
      {
        var thing := allowed[l];
        processed := TryThing(recipe, bodyPart, thing, processed);
        assert allowed[..l + 1][..l] == allowed[..l];
        RunStepsAppend(old(State(processed0)), ThingSteps(recipe, bodyPart, allowed[..l]),
                       [Attempt(recipe, bodyPart, thing)], replacements, replacementsIcon);
        assert [Attempt(recipe, bodyPart, thing)][..0] == [];
        l := l + 1;
      }
      assert allowed[..l] == allowed;
    }

    /** Lines 84-88: skip a processed thing; otherwise mark it processed
        when `processDef` patches it. */
    method TryThing(recipe: RecipeDef, bodyPart: string, thing: string, processed0: set<string>)
      returns (processed: set<string>)
      requires thing in things
      modifies this
      ensures State(processed)
        == TryStep(old(State(processed0)), Attempt(recipe, bodyPart, thing), replacements, replacementsIcon)
      ensures replacements == old(replacements) && replacementsIcon == old(replacementsIcon)
      ensures things.Keys == old(things).Keys
    {
      processed := processed0;
      if thing !in processed {
        var ok := ProcessDef(recipe, bodyPart, thing);
        if ok {
          processed := processed + {thing};
        }
      }
    }

    /** Lines 95-137: patch `thing` for `recipe` on `bodyPart` when the gate
        and an icon rule let it through; report whether it did. */
    method ProcessDef(recipe: RecipeDef, bodyPart: string, thing: string) returns (ok: bool)
      requires thing in things
      modifies this
      ensures var p := Resolve(old(replacements), old(replacementsIcon), recipe, bodyPart, old(things)[thing]);
        && ok == p.Some?
        && (p.None? ==> things == old(things) && maskPath == old(maskPath) && log == old(log))
        && (p.Some? ==>
              && things == old(things)[thing := Replaced(old(things)[thing], p.value)]
              && maskPath == MaskAfter(old(maskPath), p.value)
              && log == old(log) + [thing])
      ensures replacements == old(replacements) && replacementsIcon == old(replacementsIcon)
    {
      var def := things[thing];
      if !def.isTechHediff {
        return false;
      }
      if def.graphicData.None? {
        return false;
      }
      if def.graphicData.value.texPath !in replacements {
        return false;
      }
      var colors := replacements[def.graphicData.value.texPath];
      if bodyPart !in replacementsIcon {
        return false;
      }
      var icons := replacementsIcon[bodyPart];
      var tex := ScanIcons(icons, def.defName, recipe.addsHediff);
      if tex.None? {
        return false;
      }
      var color, textureDef := ScanColors(colors, def);
      Replace(thing, tex.value, color, textureDef);
      return true;
    }

    /** Lines 139-163: overwrite the thing's graphic data, initialise its
        graphic, and set its icon colour. */
    method Replace(thing: string, tex: string, color: Color, textureDef: Option<TextureRule>)
      requires thing in things && things[thing].graphicData.Some?
      modifies this
      ensures things == old(things)[thing := Replaced(old(things)[thing], Patch(tex, color, textureDef))]
      ensures maskPath == MaskAfter(old(maskPath), Patch(tex, color, textureDef))
      ensures log == old(log) + [thing]
      ensures replacements == old(replacements) && replacementsIcon == old(replacementsIcon)
    {
      var def := things[thing];
      var g := def.graphicData.value;
      if textureDef.Some? {
        var t := textureDef.value;
        g := g.(graphicClass := SingleWithMask);
        g := g.(drawSize := UnitSize);
        g := g.(color := t.color);
        g := g.(texPath := t.replacement);
        g := g.(shaderType := CutoutComplex);
        maskPath := Some(tex);
        g := g.(colorTwo := t.colorIcon);
      } else {
        g := g.(graphicClass := Single);
        g := g.(drawSize := UnitSize);
        g := g.(color := color);
        g := g.(texPath := tex);
      }
      var graphic := Initialised(g, if textureDef.Some? then maskPath else None);
      things := things[thing := def.(graphicData := Some(g), graphic := Some(graphic), uiIconColor := color)];
      log := log + [thing];
    }
  }
}
