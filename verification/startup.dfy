/** The patching pass of the static constructor (BionicIcons.cs lines 18-93) as a
    fold over "steps": first one direct patch per sorted icon rule that names a
    thing (lines 62-70), then one attempt per recipe, fixed body part,
    ingredient and allowed thing (lines 73-92). A caller-owned `processed` set
    makes every thing change at most once, and the first step that succeeds for
    a thing decides its appearance. */
module Startup {
  import opened Defs
  import opened RuleIndex
  import opened Resolution

  /** One call site of `replace`: a direct patch of `thing` with icon `tex`, or
      `processDef(recipe, bodyPart, thing)`. */
  datatype Step =
    | Direct(thing: string, tex: string)
    | Attempt(recipe: RecipeDef, bodyPart: string, thing: string)

  /** The state the pass changes: the thing definitions, the global
      `Graphic_SingleWithMask.maskPath`, the `processed` set, and the order in
      which things were handed to `replace`. */
  datatype Run = Run(things: map<string, ThingDef>, maskPath: Option<string>, processed: set<string>, log: seq<string>)

  /** The patch a step applies to `def`, if it succeeds. A direct patch is the
      icon in white with no texture rule; it skips a thing without graphic data
      (see ReplaceAsWritten and TryStepAsWritten for what the source does there). */
  function StepPatch(step: Step, def: ThingDef,
                     replacements: map<string, seq<TextureRule>>, replacementsIcon: map<string, seq<IconRule>>)
    : (r: Option<Patch>)
    ensures r.Some? ==> def.graphicData.Some?
    ensures step.Direct? ==> (r.Some? <==> def.graphicData.Some?)
    ensures step.Direct? && r.Some? ==> r.value == Patch(step.tex, White, None)
  {
    match step
    case Direct(_, tex) => if def.graphicData.None? then None else Some(Patch(tex, White, None))
    case Attempt(recipe, bodyPart, _) => Resolve(replacements, replacementsIcon, recipe, bodyPart, def)
  }

  /** `replace(n, …)` followed by `processed.Add(n)`. */
  function Apply(st: Run, n: string, p: Patch): Run
    requires n in st.things && st.things[n].graphicData.Some?
  {
    Run(st.things[n := Replaced(st.things[n], p)], MaskAfter(st.maskPath, p), st.processed + {n}, st.log + [n])
  }

  /** One step: skip things that do not exist or were already processed,
      otherwise apply the step's patch if it succeeds. */
  function TryStep(st: Run, step: Step,
                   replacements: map<string, seq<TextureRule>>, replacementsIcon: map<string, seq<IconRule>>): Run
  {
    var n := step.thing;
    if n !in st.things || n in st.processed then st
    else match StepPatch(step, st.things[n], replacements, replacementsIcon)
      case None => st
      case Some(p) => Apply(st, n, p)
  }

  function RunSteps(st: Run, steps: seq<Step>,
                    replacements: map<string, seq<TextureRule>>, replacementsIcon: map<string, seq<IconRule>>): Run
    decreases |steps|
  {
    if steps == [] then st
    else TryStep(RunSteps(st, steps[..|steps| - 1], replacements, replacementsIcon), steps[|steps| - 1],
                 replacements, replacementsIcon)
  }

  lemma {:induction false} RunStepsAppend(st: Run, a: seq<Step>, b: seq<Step>,
                                          replacements: map<string, seq<TextureRule>>, replacementsIcon: map<string, seq<IconRule>>)
    ensures RunSteps(st, a + b, replacements, replacementsIcon)
         == RunSteps(RunSteps(st, a, replacements, replacementsIcon), b, replacements, replacementsIcon)
    decreases |b|
  {
    if b == [] {
      assert a + b == a;
    } else {
      RunStepsAppend(st, a, b[..|b| - 1], replacements, replacementsIcon);
      assert (a + b)[..|a + b| - 1] == a + b[..|b| - 1];
      assert (a + b)[|a + b| - 1] == b[|b| - 1];
    }
  }

  // ---------------------------------------------------------------------------
  // The order of the steps

  /** Lines 40 and 62-70: one direct patch per rule naming a thing, in the
      sorted order of the rules. */
  function DirectSteps(rules: seq<IconRule>): seq<Step>
    decreases |rules|
  {
    if rules == [] then []
    else
      var last := rules[|rules| - 1];
      DirectSteps(rules[..|rules| - 1])
        + (if last.thingDef.Some? then [Direct(last.thingDef.value, last.texture)] else [])
  }

  /** Line 81: every thing the ingredient's filter allows. */
  function ThingSteps(recipe: RecipeDef, bodyPart: string, allowed: seq<string>): seq<Step>
    decreases |allowed|
  {
    if allowed == [] then []
    else ThingSteps(recipe, bodyPart, allowed[..|allowed| - 1]) + [Attempt(recipe, bodyPart, allowed[|allowed| - 1])]
  }

  /** Line 79: every ingredient of the recipe. */
  function IngredientSteps(recipe: RecipeDef, bodyPart: string, ingredients: seq<Ingredient>): seq<Step>
    decreases |ingredients|
  {
    if ingredients == [] then []
    else
      var last := ingredients[|ingredients| - 1];
      IngredientSteps(recipe, bodyPart, ingredients[..|ingredients| - 1]) + ThingSteps(recipe, bodyPart, last.allowedThingDefs)
  }

  /** Line 77: every fixed body part of the recipe. */
  function PartSteps(recipe: RecipeDef, bodyParts: seq<string>): seq<Step>
    decreases |bodyParts|
  {
    if bodyParts == [] then []
    else
      var last := bodyParts[|bodyParts| - 1];
      PartSteps(recipe, bodyParts[..|bodyParts| - 1]) + IngredientSteps(recipe, last, recipe.ingredients)
  }

  /** Line 75: a recipe without fixed body parts contributes nothing. */
  function StepsOfRecipe(recipe: RecipeDef): seq<Step>
  {
    if recipe.appliedOnFixedBodyParts.None? || recipe.appliedOnFixedBodyParts.value == [] then []
    else PartSteps(recipe, recipe.appliedOnFixedBodyParts.value)
  }

  /** Line 73: every recipe. */
  function RecipeSteps(recipes: seq<RecipeDef>): seq<Step>
    decreases |recipes|
  {
    if recipes == [] then []
    else RecipeSteps(recipes[..|recipes| - 1]) + StepsOfRecipe(recipes[|recipes| - 1])
  }

  /** The catalogs startup reads: the rule definitions, the recipes, the names
      of the body parts that exist, and the thing definitions by defName. */
  datatype Catalogs = Catalogs(
    textureDefs: seq<TextureRule>,
    iconDefs: seq<IconRule>,
    recipes: seq<RecipeDef>,
    bodyPartDefs: set<string>,
    thingDefs: map<string, ThingDef>)

  datatype Resolved = Resolved(
    replacements: map<string, seq<TextureRule>>,
    replacementsIcon: map<string, seq<IconRule>>,
    run: Run)

  /** Everything the static constructor does, given the initial mask path. */
  function StartupRun(c: Catalogs, maskPath: Option<string>): Resolved
  {
    var replacements := TextureIndex(c.textureDefs);
    var replacementsIcon := IconIndex(SortIcons(c.iconDefs), c.bodyPartDefs);
    var steps := DirectSteps(SortIcons(c.iconDefs)) + RecipeSteps(c.recipes);
    Resolved(replacements, replacementsIcon,
             RunSteps(Run(c.thingDefs, maskPath, {}, []), steps, replacements, replacementsIcon))
  }

  // ---------------------------------------------------------------------------
  // At most once

  predicate NoDuplicates(log: seq<string>)
  {
    forall i, j :: 0 <= i < j < |log| ==> log[i] != log[j]
  }

  /** The log holds each thing once, and exactly the processed things. */
  ghost predicate Tracked(st: Run)
  {
    && NoDuplicates(st.log)
    && forall n :: n in st.processed <==> n in st.log
  }

  /** Every run keeps the log free of repeats and in step with `processed`;
      it only adds to both, and never adds or removes a thing. */
  lemma {:induction false} RunStepsTracked(st: Run, steps: seq<Step>,
                                           replacements: map<string, seq<TextureRule>>, replacementsIcon: map<string, seq<IconRule>>)
    requires Tracked(st)
    ensures var r := RunSteps(st, steps, replacements, replacementsIcon);
      && Tracked(r)
      && r.things.Keys == st.things.Keys
      && st.processed <= r.processed
      && |st.log| <= |r.log| && r.log[..|st.log|] == st.log
    decreases |steps|
  {
    if steps != [] {
      var init := steps[..|steps| - 1];
      RunStepsTracked(st, init, replacements, replacementsIcon);
      var r0 := RunSteps(st, init, replacements, replacementsIcon);
      var n := steps[|steps| - 1].thing;
      var r := TryStep(r0, steps[|steps| - 1], replacements, replacementsIcon);
      if r != r0 {
        assert r.log == r0.log + [n] && n !in r0.log;
        assert r.log[..|st.log|] == r0.log[..|st.log|];
      }
    }
  }

  // ---------------------------------------------------------------------------
  // First success wins

  /** Step `step` is for thing `n` and succeeds on `def`. */
  predicate Succeeds(step: Step, n: string, def: ThingDef,
                     replacements: map<string, seq<TextureRule>>, replacementsIcon: map<string, seq<IconRule>>)
  {
    step.thing == n && StepPatch(step, def, replacements, replacementsIcon).Some?
  }

  /** The position of the first step for `n` that succeeds on `def`. */
  function FirstSuccess(steps: seq<Step>, n: string, def: ThingDef,
                        replacements: map<string, seq<TextureRule>>, replacementsIcon: map<string, seq<IconRule>>)
    : (r: Option<nat>)
    ensures r.Some? ==> r.value < |steps| && Succeeds(steps[r.value], n, def, replacements, replacementsIcon)
    ensures r.Some? ==> forall j :: 0 <= j < r.value ==> !Succeeds(steps[j], n, def, replacements, replacementsIcon)
    ensures r.None? ==> forall j :: 0 <= j < |steps| ==> !Succeeds(steps[j], n, def, replacements, replacementsIcon)
    decreases |steps|
  {
    if steps == [] then None
    else
      var init := steps[..|steps| - 1];
      match FirstSuccess(init, n, def, replacements, replacementsIcon)
      case Some(i) => Some(i)
      case None =>
        if Succeeds(steps[|steps| - 1], n, def, replacements, replacementsIcon) then Some(|steps| - 1) else None
  }

  /** A thing not yet processed ends with the patch of the first step that
      succeeds for it, and is processed; when no step succeeds it is left
      exactly as it was and stays unprocessed. */
  lemma {:induction false} RunStepsWinner(st: Run, steps: seq<Step>, n: string,
                                          replacements: map<string, seq<TextureRule>>, replacementsIcon: map<string, seq<IconRule>>)
    requires n in st.things && n !in st.processed
    ensures var r := RunSteps(st, steps, replacements, replacementsIcon);
      var def := st.things[n];
      && n in r.things
      && match FirstSuccess(steps, n, def, replacements, replacementsIcon)
         case None => r.things[n] == def && n !in r.processed
         case Some(i) =>
           r.things[n] == Replaced(def, StepPatch(steps[i], def, replacements, replacementsIcon).value) && n in r.processed
    decreases |steps|
  {
    if steps != [] {
      var init := steps[..|steps| - 1];
      RunStepsWinner(st, init, n, replacements, replacementsIcon);
    }
  }

  /** The first success is at `k` when the step at `k` succeeds and none before it does. */
  lemma FirstSuccessAt(steps: seq<Step>, k: nat, n: string, def: ThingDef,
                       replacements: map<string, seq<TextureRule>>, replacementsIcon: map<string, seq<IconRule>>)
    requires k < |steps| && Succeeds(steps[k], n, def, replacements, replacementsIcon)
    requires forall j :: 0 <= j < k ==> !Succeeds(steps[j], n, def, replacements, replacementsIcon)
    ensures FirstSuccess(steps, n, def, replacements, replacementsIcon) == Some(k)
  {
  }

  /** A success in the first list is the first success of the concatenation. */
  lemma FirstSuccessAppendLeft(a: seq<Step>, b: seq<Step>, n: string, def: ThingDef,
                               replacements: map<string, seq<TextureRule>>, replacementsIcon: map<string, seq<IconRule>>,
                               i: nat)
    requires FirstSuccess(a, n, def, replacements, replacementsIcon) == Some(i)
    ensures FirstSuccess(a + b, n, def, replacements, replacementsIcon) == Some(i)
  {
    var ab := a + b;
    assert ab[i] == a[i];
    forall j | 0 <= j < i
      ensures !Succeeds(ab[j], n, def, replacements, replacementsIcon)
    {
      assert ab[j] == a[j];
    }
    FirstSuccessAt(ab, i, n, def, replacements, replacementsIcon);
  }

  /** With no success in the first list, the first success of the
      concatenation is that of the second list, shifted past the first. */
  lemma FirstSuccessAppendRight(a: seq<Step>, b: seq<Step>, n: string, def: ThingDef,
                                replacements: map<string, seq<TextureRule>>, replacementsIcon: map<string, seq<IconRule>>,
                                k: nat)
    requires FirstSuccess(a, n, def, replacements, replacementsIcon).None?
    requires FirstSuccess(b, n, def, replacements, replacementsIcon) == Some(k)
    ensures FirstSuccess(a + b, n, def, replacements, replacementsIcon) == Some(|a| + k)
  {
    var ab := a + b;
    assert ab[|a| + k] == b[k];
    forall j | 0 <= j < |a| + k
      ensures !Succeeds(ab[j], n, def, replacements, replacementsIcon)
    {
      if j < |a| {
        assert ab[j] == a[j];
      } else {
        assert ab[j] == b[j - |a|];
      }
    }
    FirstSuccessAt(ab, |a| + k, n, def, replacements, replacementsIcon);
  }

  /** With no success in either list, the concatenation has none. */
  lemma FirstSuccessAppendNone(a: seq<Step>, b: seq<Step>, n: string, def: ThingDef,
                               replacements: map<string, seq<TextureRule>>, replacementsIcon: map<string, seq<IconRule>>)
    requires FirstSuccess(a, n, def, replacements, replacementsIcon).None?
    requires FirstSuccess(b, n, def, replacements, replacementsIcon).None?
    ensures FirstSuccess(a + b, n, def, replacements, replacementsIcon).None?
  {
    var ab := a + b;
    forall j | 0 <= j < |ab|
      ensures !Succeeds(ab[j], n, def, replacements, replacementsIcon)
    {
      if j < |a| {
        assert ab[j] == a[j];
      } else {
        assert ab[j] == b[j - |a|];
      }
    }
  }

  // ---------------------------------------------------------------------------
  // Properties of the whole pass

  /** Each thing is handed to `replace` at most once over the whole startup,
      and exactly the patched things end up processed. */
  lemma StartupAtMostOnce(c: Catalogs, maskPath: Option<string>)
    ensures Tracked(StartupRun(c, maskPath).run)
    ensures StartupRun(c, maskPath).run.things.Keys == c.thingDefs.Keys
  {
    var res := StartupRun(c, maskPath);
    RunStepsTracked(Run(c.thingDefs, maskPath, {}, []), DirectSteps(SortIcons(c.iconDefs)) + RecipeSteps(c.recipes),
                    res.replacements, res.replacementsIcon);
  }

  /** The appearance every thing ends with: a direct patch by the first sorted
      icon rule naming it, if any applies; otherwise the first recipe attempt,
      in recipe, body part, ingredient and allowed-thing order, that succeeds;
      otherwise its original definition. */
  lemma StartupWinner(c: Catalogs, maskPath: Option<string>, n: string)
    requires n in c.thingDefs
    ensures var res := StartupRun(c, maskPath);
      var def := c.thingDefs[n];
      var direct := DirectSteps(SortIcons(c.iconDefs));
      var recipe := RecipeSteps(c.recipes);
      && n in res.run.things
      && match FirstSuccess(direct, n, def, res.replacements, res.replacementsIcon)
         case Some(i) => direct[i].Direct? && res.run.things[n] == Replaced(def, Patch(direct[i].tex, White, None))
         case None =>
           match FirstSuccess(recipe, n, def, res.replacements, res.replacementsIcon)
           case Some(j) =>
             recipe[j].Attempt? &&
             res.run.things[n] == Replaced(def, Resolve(res.replacements, res.replacementsIcon,
                                                        recipe[j].recipe, recipe[j].bodyPart, def).value)
           case None => res.run.things[n] == def
  {
    var res := StartupRun(c, maskPath);
    DirectStepsAreDirect(SortIcons(c.iconDefs));
    RecipeStepsAreAttempts(c.recipes);
    TwoPhaseWinner(Run(c.thingDefs, maskPath, {}, []), DirectSteps(SortIcons(c.iconDefs)), RecipeSteps(c.recipes), n,
                   res.replacements, res.replacementsIcon);
  }

  /** A run of direct patches followed by recipe attempts: a thing not yet
      processed ends patched by its first successful direct step, else by its
      first successful attempt, else unchanged. */
  lemma TwoPhaseWinner(st: Run, direct: seq<Step>, recipe: seq<Step>, n: string,
                       replacements: map<string, seq<TextureRule>>, replacementsIcon: map<string, seq<IconRule>>)
    requires n in st.things && n !in st.processed
    requires forall i :: 0 <= i < |direct| ==> direct[i].Direct?
    requires forall j :: 0 <= j < |recipe| ==> recipe[j].Attempt?
    ensures var r := RunSteps(st, direct + recipe, replacements, replacementsIcon);
      var def := st.things[n];
      && n in r.things
      && match FirstSuccess(direct, n, def, replacements, replacementsIcon)
         case Some(i) => direct[i].Direct? && r.things[n] == Replaced(def, Patch(direct[i].tex, White, None))
         case None =>
           match FirstSuccess(recipe, n, def, replacements, replacementsIcon)
           case Some(j) =>
             recipe[j].Attempt? &&
             r.things[n] == Replaced(def, Resolve(replacements, replacementsIcon,
                                                  recipe[j].recipe, recipe[j].bodyPart, def).value)
           case None => r.things[n] == def
  {
    var def := st.things[n];
    match FirstSuccess(direct, n, def, replacements, replacementsIcon)
    case Some(i) =>
      TwoPhaseDirect(st, direct, recipe, n, replacements, replacementsIcon, i);
    case None =>
      match FirstSuccess(recipe, n, def, replacements, replacementsIcon)
      case Some(j) =>
        TwoPhaseAttempt(st, direct, recipe, n, replacements, replacementsIcon, j);
      case None =>
        FirstSuccessAppendNone(direct, recipe, n, def, replacements, replacementsIcon);
        RunStepsWinner(st, direct + recipe, n, replacements, replacementsIcon);
  }

  /** The direct case of TwoPhaseWinner. */
  lemma TwoPhaseDirect(st: Run, direct: seq<Step>, recipe: seq<Step>, n: string,
                       replacements: map<string, seq<TextureRule>>, replacementsIcon: map<string, seq<IconRule>>, i: nat)
    requires n in st.things && n !in st.processed
    requires FirstSuccess(direct, n, st.things[n], replacements, replacementsIcon) == Some(i)
    requires direct[i].Direct?
    ensures var r := RunSteps(st, direct + recipe, replacements, replacementsIcon);
      n in r.things && r.things[n] == Replaced(st.things[n], Patch(direct[i].tex, White, None))
  {
    FirstSuccessAppendLeft(direct, recipe, n, st.things[n], replacements, replacementsIcon, i);
    assert (direct + recipe)[i] == direct[i];
    DirectWinner(st, direct + recipe, n, replacements, replacementsIcon, i);
  }

  /** The recipe case of TwoPhaseWinner. */
  lemma TwoPhaseAttempt(st: Run, direct: seq<Step>, recipe: seq<Step>, n: string,
                        replacements: map<string, seq<TextureRule>>, replacementsIcon: map<string, seq<IconRule>>, j: nat)
    requires n in st.things && n !in st.processed
    requires FirstSuccess(direct, n, st.things[n], replacements, replacementsIcon).None?
    requires FirstSuccess(recipe, n, st.things[n], replacements, replacementsIcon) == Some(j)
    requires recipe[j].Attempt?
    ensures var r := RunSteps(st, direct + recipe, replacements, replacementsIcon);
      var p := Resolve(replacements, replacementsIcon, recipe[j].recipe, recipe[j].bodyPart, st.things[n]);
      n in r.things && p.Some? && r.things[n] == Replaced(st.things[n], p.value)
  {
    FirstSuccessAppendRight(direct, recipe, n, st.things[n], replacements, replacementsIcon, j);
    assert (direct + recipe)[|direct| + j] == recipe[j];
    AttemptWinner(st, direct + recipe, n, replacements, replacementsIcon, |direct| + j);
  }

  /** When the first step that succeeds for a thing is a direct patch, the
      thing ends patched with that icon in white. */
  lemma DirectWinner(st: Run, steps: seq<Step>, n: string,
                     replacements: map<string, seq<TextureRule>>, replacementsIcon: map<string, seq<IconRule>>, i: nat)
    requires n in st.things && n !in st.processed
    requires FirstSuccess(steps, n, st.things[n], replacements, replacementsIcon) == Some(i)
    requires steps[i].Direct?
    ensures var r := RunSteps(st, steps, replacements, replacementsIcon);
      n in r.things && r.things[n] == Replaced(st.things[n], Patch(steps[i].tex, White, None))
  {
    RunStepsWinner(st, steps, n, replacements, replacementsIcon);
  }

  /** When the first step that succeeds for a thing is a `processDef`
      attempt, the thing ends patched as that attempt resolves. */
  lemma AttemptWinner(st: Run, steps: seq<Step>, n: string,
                      replacements: map<string, seq<TextureRule>>, replacementsIcon: map<string, seq<IconRule>>, j: nat)
    requires n in st.things && n !in st.processed
    requires FirstSuccess(steps, n, st.things[n], replacements, replacementsIcon) == Some(j)
    requires steps[j].Attempt?
    ensures var r := RunSteps(st, steps, replacements, replacementsIcon);
      var p := Resolve(replacements, replacementsIcon, steps[j].recipe, steps[j].bodyPart, st.things[n]);
      && n in r.things && p.Some?
      && r.things[n] == Replaced(st.things[n], p.value)
  {
    RunStepsWinner(st, steps, n, replacements, replacementsIcon);
  }

  lemma {:induction false} DirectStepsAreDirect(rules: seq<IconRule>)
    ensures forall i :: 0 <= i < |DirectSteps(rules)| ==> DirectSteps(rules)[i].Direct?
    decreases |rules|
  {
    if rules != [] {
      DirectStepsAreDirect(rules[..|rules| - 1]);
    }
  }

  lemma {:induction false} RecipeStepsAreAttempts(recipes: seq<RecipeDef>)
    ensures forall i :: 0 <= i < |RecipeSteps(recipes)| ==> RecipeSteps(recipes)[i].Attempt?
    decreases |recipes|
  {
    if recipes != [] {
      RecipeStepsAreAttempts(recipes[..|recipes| - 1]);
      var r := recipes[|recipes| - 1];
      if r.appliedOnFixedBodyParts.Some? && r.appliedOnFixedBodyParts.value != [] {
        PartStepsAreAttempts(r, r.appliedOnFixedBodyParts.value);
      }
    }
  }

  lemma {:induction false} PartStepsAreAttempts(recipe: RecipeDef, bodyParts: seq<string>)
    ensures forall i :: 0 <= i < |PartSteps(recipe, bodyParts)| ==> PartSteps(recipe, bodyParts)[i].Attempt?
    decreases |bodyParts|
  {
    if bodyParts != [] {
      PartStepsAreAttempts(recipe, bodyParts[..|bodyParts| - 1]);
      IngredientStepsAreAttempts(recipe, bodyParts[|bodyParts| - 1], recipe.ingredients);
    }
  }

  lemma {:induction false} IngredientStepsAreAttempts(recipe: RecipeDef, bodyPart: string, ingredients: seq<Ingredient>)
    ensures forall i :: 0 <= i < |IngredientSteps(recipe, bodyPart, ingredients)| ==>
      IngredientSteps(recipe, bodyPart, ingredients)[i].Attempt?
    decreases |ingredients|
  {
    if ingredients != [] {
      IngredientStepsAreAttempts(recipe, bodyPart, ingredients[..|ingredients| - 1]);
      ThingStepsAreAttempts(recipe, bodyPart, ingredients[|ingredients| - 1].allowedThingDefs);
    }
  }

  lemma {:induction false} ThingStepsAreAttempts(recipe: RecipeDef, bodyPart: string, allowed: seq<string>)
    ensures forall i :: 0 <= i < |ThingSteps(recipe, bodyPart, allowed)| ==> ThingSteps(recipe, bodyPart, allowed)[i].Attempt?
    decreases |allowed|
  {
    if allowed != [] {
      ThingStepsAreAttempts(recipe, bodyPart, allowed[..|allowed| - 1]);
    }
  }

  // ---------------------------------------------------------------------------
  // The direct patch as the source writes it

  /** `replace` as written dereferences `graphicData` (lines 144 and 154)
      without a check: on a thing without graphic data it throws, which None
      stands for. */
  function ReplaceAsWritten(def: ThingDef, p: Patch): Option<ThingDef>
  {
    if def.graphicData.None? then None else Some(Replaced(def, p))
  }

  /** One step as written: the direct patch (lines 62-69) calls `replace`
      whatever the thing's graphic data. None: the exception leaves the static
      constructor, and no later step runs. */
  function TryStepAsWritten(st: Run, step: Step,
                            replacements: map<string, seq<TextureRule>>, replacementsIcon: map<string, seq<IconRule>>)
    : Option<Run>
  {
    var n := step.thing;
    if n !in st.things || n in st.processed then Some(st)
    else match step
      case Attempt(_, _, _) => Some(TryStep(st, step, replacements, replacementsIcon))
      case Direct(_, tex) =>
        var p := Patch(tex, White, None);
        match ReplaceAsWritten(st.things[n], p)
        case None => None
        case Some(patched) => Some(Run(st.things[n := patched], MaskAfter(st.maskPath, p), st.processed + {n}, st.log + [n]))
  }

  function RunStepsAsWritten(st: Run, steps: seq<Step>,
                             replacements: map<string, seq<TextureRule>>, replacementsIcon: map<string, seq<IconRule>>)
    : Option<Run>
    decreases |steps|
  {
    if steps == [] then Some(st)
    else match RunStepsAsWritten(st, steps[..|steps| - 1], replacements, replacementsIcon)
      case None => None
      case Some(before) => TryStepAsWritten(before, steps[|steps| - 1], replacements, replacementsIcon)
  }

  /** An icon rule naming a thing without graphic data, sorted before a rule
      naming an ordinary thing: as written, the first direct patch throws and
      the second thing never gets its icon; the model skips the first thing
      and patches the second. */
  lemma DirectPatchWithoutGraphicDataAborts()
    ensures
      var bare := ThingDef("Bare", true, None, None, None, White);
      var data := GraphicData(OtherGraphicClass("Graphic_Single"), "Things/Arm", White, White, OtherShader("Cutout"), UnitSize);
      var arm := ThingDef("Arm", true, Some(data), None, None, White);
      var st := Run(map["Bare" := bare, "Arm" := arm], None, {}, []);
      var steps := [Direct("Bare", "Icons/Bare"), Direct("Arm", "Icons/Arm")];
      && RunStepsAsWritten(st, steps, map[], map[]) == None
      && var after := RunSteps(st, steps, map[], map[]);
      && "Bare" in after.things && after.things["Bare"] == bare
      && "Arm" in after.things && after.things["Arm"] == Replaced(arm, Patch("Icons/Arm", White, None))
  {
    var bare := ThingDef("Bare", true, None, None, None, White);
    var data := GraphicData(OtherGraphicClass("Graphic_Single"), "Things/Arm", White, White, OtherShader("Cutout"), UnitSize);
    var arm := ThingDef("Arm", true, Some(data), None, None, White);
    var st := Run(map["Bare" := bare, "Arm" := arm], None, {}, []);
    var steps := [Direct("Bare", "Icons/Bare"), Direct("Arm", "Icons/Arm")];
    assert steps[..1] == [Direct("Bare", "Icons/Bare")];
    assert steps[..1][..0] == [];
    assert "Bare" in st.things && st.things["Bare"] == bare;
    assert StepPatch(Direct("Bare", "Icons/Bare"), bare, map[], map[]) == None;
    assert TryStep(st, Direct("Bare", "Icons/Bare"), map[], map[]) == st;
    var first := steps[..1];
    assert first[..|first| - 1] == [] && first[|first| - 1] == Direct("Bare", "Icons/Bare");
    assert RunSteps(st, first, map[], map[]) == TryStep(RunSteps(st, [], map[], map[]), Direct("Bare", "Icons/Bare"), map[], map[]);
    assert RunSteps(st, first, map[], map[]) == st;
    assert RunStepsAsWritten(st, steps[..1], map[], map[]) == None;
  }

  // ---------------------------------------------------------------------------
  // Where the source does not throw, it computes the corrected run

  /** Every direct step naming an existing thing names one with graphic data:
      the inputs on which the direct patch as written cannot throw. */
  predicate DirectTargetsDrawn(st: Run, steps: seq<Step>)
  {
    forall i :: 0 <= i < |steps| && steps[i].Direct? && steps[i].thing in st.things ==>
      st.things[steps[i].thing].graphicData.Some?
  }

  /** On those inputs the as-written driver finishes and agrees with
      `RunSteps`, so every theorem about `RunSteps` holds of the source there.
      A step never removes a thing and never takes its graphic data away. */
  lemma {:induction false} AsWrittenAgrees(st: Run, steps: seq<Step>,
                                           replacements: map<string, seq<TextureRule>>, replacementsIcon: map<string, seq<IconRule>>)
    requires DirectTargetsDrawn(st, steps)
    ensures RunStepsAsWritten(st, steps, replacements, replacementsIcon) == Some(RunSteps(st, steps, replacements, replacementsIcon))
    ensures RunSteps(st, steps, replacements, replacementsIcon).things.Keys == st.things.Keys
    ensures forall k :: k in st.things && st.things[k].graphicData.Some? ==>
      RunSteps(st, steps, replacements, replacementsIcon).things[k].graphicData.Some?
    decreases |steps|
  {
    if steps != [] {
      var init := steps[..|steps| - 1];
      forall i | 0 <= i < |init| && init[i].Direct? && init[i].thing in st.things
        ensures st.things[init[i].thing].graphicData.Some?
      {
        assert init[i] == steps[i];
      }
      AsWrittenAgrees(st, init, replacements, replacementsIcon);
      var last := steps[|steps| - 1];
      if last.Direct? && last.thing in st.things {
        assert st.things[last.thing].graphicData.Some?;
      }
    }
  }

  /** The things some icon rule names. */
  function IconTargets(rules: seq<IconRule>): set<string>
  {
    set r | r in rules && r.thingDef.Some? :: r.thingDef.value
  }

  lemma {:induction false} DirectStepsTargets(rules: seq<IconRule>)
    ensures forall i :: 0 <= i < |DirectSteps(rules)| ==> DirectSteps(rules)[i].thing in IconTargets(rules)
    decreases |rules|
  {
    if rules != [] {
      var init := rules[..|rules| - 1];
      DirectStepsTargets(init);
      forall r | r in init ensures r in rules {
        var j :| 0 <= j < |init| && init[j] == r;
        assert rules[j] == r;
      }
      assert rules[|rules| - 1] in rules;
    }
  }

  /** If every icon rule that names an existing thing names one with graphic
      data, the static constructor as written does not throw and ends in the
      state `StartupRun` describes. */
  lemma StartupAsWrittenAgrees(c: Catalogs, maskPath: Option<string>)
    requires forall n :: n in IconTargets(c.iconDefs) && n in c.thingDefs ==> c.thingDefs[n].graphicData.Some?
    ensures var res := StartupRun(c, maskPath);
      RunStepsAsWritten(Run(c.thingDefs, maskPath, {}, []), DirectSteps(SortIcons(c.iconDefs)) + RecipeSteps(c.recipes),
                        res.replacements, res.replacementsIcon)
      == Some(res.run)
  {
    var res := StartupRun(c, maskPath);
    StartupTargetsDrawn(c, maskPath);
    AsWrittenAgrees(Run(c.thingDefs, maskPath, {}, []), DirectSteps(SortIcons(c.iconDefs)) + RecipeSteps(c.recipes),
                    res.replacements, res.replacementsIcon);
  }

  lemma StartupTargetsDrawn(c: Catalogs, maskPath: Option<string>)
    requires forall n :: n in IconTargets(c.iconDefs) && n in c.thingDefs ==> c.thingDefs[n].graphicData.Some?
    ensures DirectTargetsDrawn(Run(c.thingDefs, maskPath, {}, []), DirectSteps(SortIcons(c.iconDefs)) + RecipeSteps(c.recipes))
  {
    var sorted := SortIcons(c.iconDefs);
    var direct := DirectSteps(sorted);
    var steps := direct + RecipeSteps(c.recipes);
    var st := Run(c.thingDefs, maskPath, {}, []);
    SortIconsOrdered(c.iconDefs);
    forall r | r in sorted ensures r in c.iconDefs {
      assert r in multiset(sorted);
    }
    DirectStepsTargets(sorted);
    RecipeStepsAreAttempts(c.recipes);
    forall j | |direct| <= j < |steps| ensures steps[j].Attempt? {
      assert steps[j] == RecipeSteps(c.recipes)[j - |direct|];
    }
    forall i | 0 <= i < |steps| && steps[i].Direct? && steps[i].thing in st.things
      ensures st.things[steps[i].thing].graphicData.Some?
    {
      if i < |direct| {
        assert steps[i] == direct[i];
        assert steps[i].thing in IconTargets(sorted);
      }
    }
  }
}
