/** Records the resolver reads and writes: the two override-rule kinds defined in
    XML, the host's recipes and thing definitions, and the appearance fields of a
    thing that an override rewrites. Unity colours and vectors are opaque values:
    they are only copied, never computed with. */
module Defs {

  datatype Option<+T> = None | Some(value: T)

  /** A Unity colour (red, green, blue, alpha). */
  datatype Color = Color(r: real, g: real, b: real, a: real)

  /** `Color.white`. */
  const White: Color := Color(1.0, 1.0, 1.0, 1.0)

  /** A Unity `Vector2`. */
  datatype Vec2 = Vec2(x: real, y: real)

  /** The size every override draws at: `new Vector2(1.0f, 1.0f)`. */
  const UnitSize: Vec2 := Vec2(1.0, 1.0)

  /** The `Graphic` subclass a `GraphicData` instantiates. */
  datatype GraphicClass = Single | SingleWithMask | OtherGraphicClass(name: string)

  /** `ShaderTypeDef`: only `CutoutComplex` is ever written. */
  datatype Shader = CutoutComplex | OtherShader(name: string)

  /** The fields of a thing's `GraphicData` that an override touches. */
  datatype GraphicData = GraphicData(
    graphicClass: GraphicClass,
    texPath: string,
    color: Color,
    colorTwo: Color,
    shaderType: Shader,
    drawSize: Vec2)

  /** What the engine's graphic initialisation produced from a `GraphicData`:
      an opaque snapshot of the data it was given and, for the masked class, the
      global mask path it read at that moment. */
  datatype Graphic = Initialised(data: GraphicData, mask: Option<string>)

  /** A `ThingDef` as far as the resolver sees it. `graphic` stands for
      `def.graphic`; `uiIcon` is not modelled. */
  datatype ThingDef = ThingDef(
    defName: string,
    isTechHediff: bool,
    graphicData: Option<GraphicData>,
    thingCategories: Option<seq<string>>,
    graphic: Option<Graphic>,
    uiIconColor: Color)

  /** `BionicIconsTextureDef`: recolour things whose texture is `texture`. */
  datatype TextureRule = TextureRule(
    defName: string,
    texture: string,
    replacement: string,
    nameContains: Option<string>,
    category: Option<string>,
    color: Color,
    colorIcon: Color)

  /** `BionicIconsIconDef`: the icon to use for parts installed on `bodyParts`
      (the names `BodyParts()` yields), or directly on `thingDef`. */
  datatype IconRule = IconRule(
    defName: string,
    bodyParts: seq<string>,
    thingDef: Option<string>,
    nameContains: Option<string>,
    solidOnly: bool,
    softOnly: bool,
    texture: string)

  datatype AddedPartProps = AddedPartProps(solid: bool)

  /** The hediff a recipe adds; only its added-part properties matter here. */
  datatype HediffDef = HediffDef(addedPartProps: Option<AddedPartProps>)

  /** An `IngredientCount`, by the defNames its filter allows. */
  datatype Ingredient = Ingredient(allowedThingDefs: seq<string>)

  /** A `RecipeDef`: body parts are named by their defName. */
  datatype RecipeDef = RecipeDef(
    defName: string,
    appliedOnFixedBodyParts: Option<seq<string>>,
    ingredients: seq<Ingredient>,
    addsHediff: Option<HediffDef>)
}
