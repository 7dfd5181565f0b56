/** The hero model of src/models/DotaHero.ts: the three string enums and
    their narrowing, and the `DotaHero` record built from normalised JSON
    and projected back. The URL helpers are in HeroUrls, the derived
    statistics in HeroStats. */
module DotaHero {
  import opened Wrappers
  import opened Json
  import DotaHeroApi

  /** `AppConstants.imageBaseUrl`. */
  const ImageBaseUrl: string := "https://cdn.cloudflare.steamstatic.com"

  datatype Attribute = Strength | Agility | Intelligence | Universal {
    /** The enum member's string value. */
    function Token(): string {
      match this
      case Strength => "str"
      case Agility => "agi"
      case Intelligence => "int"
      case Universal => "all"
    }
  }

  /** `Object.values(DotaHeroAttribute)`. */
  const AttributeTokens: seq<string> := ["str", "agi", "int", "all"]

  datatype AttackType = Melee | Ranged {
    function Token(): string {
      match this
      case Melee => "Melee"
      case Ranged => "Ranged"
    }
  }

  /** `Object.values(DotaHeroAttackType)`. */
  const AttackTypeTokens: seq<string> := ["Melee", "Ranged"]

  datatype Role = Carry | Support | Nuker | Disabler | Jungler | Durable | Escape | Pusher | Initiator {
    function Token(): string {
      match this
      case Carry => "Carry"
      case Support => "Support"
      case Nuker => "Nuker"
      case Disabler => "Disabler"
      case Jungler => "Jungler"
      case Durable => "Durable"
      case Escape => "Escape"
      case Pusher => "Pusher"
      case Initiator => "Initiator"
    }
  }

  /** `Object.values(DotaHeroRole)`. */
  const RoleTokens: seq<string> :=
    ["Carry", "Support", "Nuker", "Disabler", "Jungler", "Durable", "Escape", "Pusher", "Initiator"]

  /** `toEnumValue(enumObj, str)`, where `values` is `Object.values(enumObj)`:
      null and undefined give null, a value strictly equal to one of the
      enum's values is returned as it is, anything else gives null. */
  function ToEnumValue(values: seq<string>, v: Json): (r: Option<string>)
    ensures r.Some? ==> r.value in values && v == JStr(r.value)
    ensures v.JStr? && v.s in values ==> r == Some(v.s)
  {
    if v.JNull? || v.JUndef? then None
    else if v.JStr? && v.s in values then Some(v.s)
    else None
  }

  /** `toEnumValue(DotaHeroAttribute, v)`: an attribute exactly for that
      attribute's own string value, null for everything else. */
  function ParseAttribute(v: Json): (r: Option<Attribute>)
    ensures forall a: Attribute :: r == Some(a) <==> v == JStr(a.Token())
  {
    match ToEnumValue(AttributeTokens, v)
    case None => None
    case Some(t) =>
      if t == "str" then Some(Strength)
      else if t == "agi" then Some(Agility)
      else if t == "int" then Some(Intelligence)
      else Some(Universal)
  }

  /** `toEnumValue(DotaHeroAttackType, v)`. */
  function ParseAttackType(v: Json): (r: Option<AttackType>)
    ensures forall t: AttackType :: r == Some(t) <==> v == JStr(t.Token())
  {
    match ToEnumValue(AttackTypeTokens, v)
    case None => None
    case Some(t) => if t == "Melee" then Some(Melee) else Some(Ranged)
  }

  /** `toEnumValue(DotaHeroRole, v)`. */
  function ParseRole(v: Json): (r: Option<Role>)
    ensures forall role: Role :: r == Some(role) <==> v == JStr(role.Token())
  {
    match ToEnumValue(RoleTokens, v)
    case None => None
    case Some(t) =>
      if t == "Carry" then Some(Carry)
      else if t == "Support" then Some(Support)
      else if t == "Nuker" then Some(Nuker)
      else if t == "Disabler" then Some(Disabler)
      else if t == "Jungler" then Some(Jungler)
      else if t == "Durable" then Some(Durable)
      else if t == "Escape" then Some(Escape)
      else if t == "Pusher" then Some(Pusher)
      else Some(Initiator)
  }

  /** `DotaHeroAttributeUtils.getTitle`: the display title of an attribute's
      string value, and the empty string for any other value. */
  function GetTitle(attribute: string): (title: string)
    ensures title == "" <==> attribute !in AttributeTokens
  {
    if attribute == Strength.Token() then "Strength"
    else if attribute == Agility.Token() then "Agility"
    else if attribute == Intelligence.Token() then "Intelligence"
    else if attribute == Universal.Token() then "Universal"
    else ""
  }

  /** Different attributes have different titles. */
  lemma GetTitleInjective(a: Attribute, b: Attribute)
    requires GetTitle(a.Token()) == GetTitle(b.Token())
    ensures a == b
  {
  }

  /** A `DotaHero`: every property optional. A property the JSON lacks, or
      holds as null, undefined or a value of another type, is None. */
  datatype Hero = Hero(
    id: Option<real>,
    name: Option<string>,
    localizedName: Option<string>,
    primaryAttr: Option<Attribute>,
    attackType: Option<AttackType>,
    roles: Option<seq<Option<Role>>>,
    img: Option<string>,
    icon: Option<string>,
    baseHealth: Option<real>,
    baseHealthRegen: Option<real>,
    baseMana: Option<real>,
    baseManaRegen: Option<real>,
    baseArmor: Option<real>,
    baseMr: Option<real>,
    baseAttackMin: Option<real>,
    baseAttackMax: Option<real>,
    baseStr: Option<real>,
    baseAgi: Option<real>,
    baseInt: Option<real>,
    strGain: Option<real>,
    agiGain: Option<real>,
    intGain: Option<real>,
    attackRange: Option<real>,
    projectileSpeed: Option<real>,
    attackRate: Option<real>,
    baseAttackTime: Option<real>,
    attackPoint: Option<real>,
    moveSpeed: Option<real>,
    turnRate: Option<real>,
    cmEnabled: Option<bool>,
    legs: Option<real>,
    dayVision: Option<real>,
    nightVision: Option<real>
  )

  /** `hero.roles` holds no null entry, so `role.toString()` succeeds on each. */
  predicate RolesAllKnown(h: Hero) {
    h.roles.Some? ==> forall i :: 0 <= i < |h.roles.value| ==> h.roles.value[i].Some?
  }

  /** The errors the mapper can throw. */
  datatype JsError =
    | ReadPropertyOfNullish   // `camelCaseJson.primaryAttr` on null or undefined
    | RolesNotArray           // `camelCaseJson.roles.map` on a truthy non-array
    | ToStringOfNull          // `role.toString()` on a null role

  /** JavaScript truthiness of a JSON value: the falsy values are exactly
      null, undefined, false, 0 and the empty string; every array and object
      is truthy. (NaN and -0 do not arise: numbers are exact reals.) */
  function Truthy(v: Json): (b: bool)
    ensures !b <==> v == JNull || v == JUndef || v == JBool(false) || v == JNum(0.0) || v == JStr("")
  {
    match v
    case JNull => false
    case JUndef => false
    case JBool(b) => b
    case JNum(n) => n != 0.0
    case JStr(s) => s != ""
    case JArr(_) => true
    case JObj(_) => true
  }

  /** The property names of the `DotaHero` interface, in declaration order. */
  const HeroKeys: seq<string> := IdentityKeys + BaseKeys + GrowthKeys

  const IdentityKeys: seq<string> :=
    ["id", "name", "localizedName", "primaryAttr", "attackType", "roles", "img", "icon"]

  const BaseKeys: seq<string> := [
    "baseHealth", "baseHealthRegen", "baseMana", "baseManaRegen", "baseArmor", "baseMr",
    "baseAttackMin", "baseAttackMax", "baseStr", "baseAgi", "baseInt", "strGain", "agiGain",
    "intGain"
  ]

  const GrowthKeys: seq<string> := [
    "attackRange", "projectileSpeed", "attackRate", "baseAttackTime", "attackPoint",
    "moveSpeed", "turnRate", "cmEnabled", "legs", "dayVision", "nightVision"
  ]

  /** `obj.k`: undefined when there is no such property. */
  function Field(es: Entries, k: string): Json {
    Get(es, k).GetOr(JUndef)
  }

  /** A property typed `number`, `string` or `boolean`; anything else is absent. */
  function AsNumber(v: Json): Option<real> {
    if v.JNum? then Some(v.n) else None
  }

  function AsString(v: Json): Option<string> {
    if v.JStr? then Some(v.s) else None
  }

  function AsBool(v: Json): Option<bool> {
    if v.JBool? then Some(v.b) else None
  }

  /** `DotaHeroModel.fromJson`: normalise the keys, copy every property,
      and narrow `primaryAttr`, `attackType` and each entry of `roles`.
      Reading a property of null or undefined throws, and so does calling
      `map` on a truthy `roles` that is no array. */
  function FromJson(json: Json): (r: Result<Hero, JsError>)
    ensures r.Success? ==> r.value.roles.Some?
  {
    var c := DotaHeroApi.Normalize(json);
    if c.JNull? || c.JUndef? then Failure(ReadPropertyOfNullish)
    else
      HeroFromFields(HeroFields(NormalEntries(json)))
  }

  /** The record built from the values of the properties named `HeroKeys`,
      `f[i]` being the value of `HeroKeys[i]`. */
  function HeroFromFields(f: seq<Json>): (r: Result<Hero, JsError>)
    requires |f| == |HeroKeys|
    ensures r.Failure? <==> Truthy(f[5]) && !f[5].JArr?
    ensures r.Success? && f[5].JArr? ==>
      r.value.roles.Some? && |r.value.roles.value| == |f[5].items| &&
      forall i :: 0 <= i < |f[5].items| ==> r.value.roles.value[i] == ParseRole(f[5].items[i])
    ensures r.Success? && !Truthy(f[5]) ==> r.value.roles == Some([])
  {
    var roles := f[5];
    if Truthy(roles) && !roles.JArr? then Failure(RolesNotArray)
    else
      Success(Hero(
        id := AsNumber(f[0]),
        name := AsString(f[1]),
        localizedName := AsString(f[2]),
        primaryAttr := ParseAttribute(f[3]),
        attackType := ParseAttackType(f[4]),
        roles := Some(if roles.JArr? then seq(|roles.items|, i requires 0 <= i < |roles.items| => ParseRole(roles.items[i])) else []),
        img := AsString(f[6]),
        icon := AsString(f[7]),
        baseHealth := AsNumber(f[8]),
        baseHealthRegen := AsNumber(f[9]),
        baseMana := AsNumber(f[10]),
        baseManaRegen := AsNumber(f[11]),
        baseArmor := AsNumber(f[12]),
        baseMr := AsNumber(f[13]),
        baseAttackMin := AsNumber(f[14]),
        baseAttackMax := AsNumber(f[15]),
        baseStr := AsNumber(f[16]),
        baseAgi := AsNumber(f[17]),
        baseInt := AsNumber(f[18]),
        strGain := AsNumber(f[19]),
        agiGain := AsNumber(f[20]),
        intGain := AsNumber(f[21]),
        attackRange := AsNumber(f[22]),
        projectileSpeed := AsNumber(f[23]),
        attackRate := AsNumber(f[24]),
        baseAttackTime := AsNumber(f[25]),
        attackPoint := AsNumber(f[26]),
        moveSpeed := AsNumber(f[27]),
        turnRate := AsNumber(f[28]),
        cmEnabled := AsBool(f[29]),
        legs := AsNumber(f[30]),
        dayVision := AsNumber(f[31]),
        nightVision := AsNumber(f[32])
      ))
  }

  /** Where the identity properties sit among `HeroKeys`. */
  lemma IdentityKeyPositions()
    ensures HeroKeys[0] == "id" && HeroKeys[1] == "name" && HeroKeys[2] == "localizedName"
    ensures HeroKeys[3] == "primaryAttr" && HeroKeys[4] == "attackType" && HeroKeys[5] == "roles"
    ensures HeroKeys[6] == "img" && HeroKeys[7] == "icon"
  {
    assert HeroKeys[0..8] == IdentityKeys;
  }

  /** Where the base statistics sit among `HeroKeys`. */
  lemma BaseKeyPositions()
    ensures HeroKeys[8] == "baseHealth" && HeroKeys[9] == "baseHealthRegen" && HeroKeys[10] == "baseMana"
    ensures HeroKeys[11] == "baseManaRegen" && HeroKeys[12] == "baseArmor" && HeroKeys[13] == "baseMr"
    ensures HeroKeys[14] == "baseAttackMin" && HeroKeys[15] == "baseAttackMax" && HeroKeys[16] == "baseStr"
    ensures HeroKeys[17] == "baseAgi" && HeroKeys[18] == "baseInt" && HeroKeys[19] == "strGain"
    ensures HeroKeys[20] == "agiGain" && HeroKeys[21] == "intGain"
  {
    assert HeroKeys[8..22] == BaseKeys;
  }

  /** Where the growth statistics sit among `HeroKeys`. */
  lemma GrowthKeyPositions()
    ensures HeroKeys[22] == "attackRange" && HeroKeys[23] == "projectileSpeed" && HeroKeys[24] == "attackRate"
    ensures HeroKeys[25] == "baseAttackTime" && HeroKeys[26] == "attackPoint" && HeroKeys[27] == "moveSpeed"
    ensures HeroKeys[28] == "turnRate" && HeroKeys[29] == "cmEnabled" && HeroKeys[30] == "legs"
    ensures HeroKeys[31] == "dayVision" && HeroKeys[32] == "nightVision"
  {
    assert HeroKeys[22..33] == GrowthKeys;
  }

  /** The properties of the normalised input, none when it is no object:
      spreading a string or an array adds only index properties, none of
      which is a property of the record. */
  function NormalEntries(json: Json): (es: Entries)
    ensures DotaHeroApi.Normalize(json).JObj? ==> es == DotaHeroApi.Normalize(json).entries
    ensures !DotaHeroApi.Normalize(json).JObj? ==> es == []
  {
    var c := DotaHeroApi.Normalize(json);
    if c.JObj? then c.entries else []
  }

  /** The values of the properties named `HeroKeys`, in that order. */
  function HeroFields(es: Entries): (f: seq<Json>)
    ensures |f| == |HeroKeys|
    ensures forall i :: 0 <= i < |HeroKeys| ==> f[i] == Field(es, HeroKeys[i])
  {
    seq(|HeroKeys|, i requires 0 <= i < |HeroKeys| => Field(es, HeroKeys[i]))
  }

  /** The record takes `id`, the names, `img` and `icon` from their positions. */
  lemma CopiedIdentityFields(f: seq<Json>)
    requires |f| == |HeroKeys|
    ensures var r := HeroFromFields(f);
      r.Success? ==>
      && r.value.id == AsNumber(f[0])
      && r.value.name == AsString(f[1])
      && r.value.localizedName == AsString(f[2])
      && r.value.img == AsString(f[6])
      && r.value.icon == AsString(f[7])
  {
  }

  /** The record takes each base statistic from its position. */
  lemma CopiedBaseFields(f: seq<Json>)
    requires |f| == |HeroKeys|
    ensures var r := HeroFromFields(f);
      r.Success? ==>
      && r.value.baseHealth == AsNumber(f[8])
      && r.value.baseHealthRegen == AsNumber(f[9])
      && r.value.baseMana == AsNumber(f[10])
      && r.value.baseManaRegen == AsNumber(f[11])
      && r.value.baseArmor == AsNumber(f[12])
      && r.value.baseMr == AsNumber(f[13])
      && r.value.baseAttackMin == AsNumber(f[14])
      && r.value.baseAttackMax == AsNumber(f[15])
      && r.value.baseStr == AsNumber(f[16])
      && r.value.baseAgi == AsNumber(f[17])
      && r.value.baseInt == AsNumber(f[18])
      && r.value.strGain == AsNumber(f[19])
      && r.value.agiGain == AsNumber(f[20])
      && r.value.intGain == AsNumber(f[21])
  {
  }

  /** The record takes each growth statistic and `cmEnabled` from its position. */
  lemma CopiedGrowthFields(f: seq<Json>)
    requires |f| == |HeroKeys|
    ensures var r := HeroFromFields(f);
      r.Success? ==>
      && r.value.attackRange == AsNumber(f[22])
      && r.value.projectileSpeed == AsNumber(f[23])
      && r.value.attackRate == AsNumber(f[24])
      && r.value.baseAttackTime == AsNumber(f[25])
      && r.value.attackPoint == AsNumber(f[26])
      && r.value.moveSpeed == AsNumber(f[27])
      && r.value.turnRate == AsNumber(f[28])
      && r.value.cmEnabled == AsBool(f[29])
      && r.value.legs == AsNumber(f[30])
      && r.value.dayVision == AsNumber(f[31])
      && r.value.nightVision == AsNumber(f[32])
  {
  }

  /** What `fromJson` makes of any JSON value, read through the normalised
      object `c`: it throws exactly when `c` is null or undefined, or when
      its `roles` is truthy and no array; otherwise `primaryAttr` and
      `attackType` are the narrowings of the normalised properties, the
      names and the image are copied, a `roles` array keeps its length and
      order with each entry narrowed (null in place of an unknown role), and
      a falsy or absent `roles` becomes the empty list. */
  lemma FromJsonSpec(json: Json)
    ensures var c := DotaHeroApi.Normalize(json);
      var es := NormalEntries(json);
      var roles := Field(es, "roles");
      var r := FromJson(json);
      && (r == Failure(ReadPropertyOfNullish) <==> c.JNull? || c.JUndef?)
      && (r == Failure(RolesNotArray) <==> !c.JNull? && !c.JUndef? && Truthy(roles) && !roles.JArr?)
      && (r.Success? ==>
        && r.value.primaryAttr == ParseAttribute(Field(es, "primaryAttr"))
        && r.value.attackType == ParseAttackType(Field(es, "attackType"))
        && r.value.name == AsString(Field(es, "name"))
        && r.value.localizedName == AsString(Field(es, "localizedName"))
        && r.value.img == AsString(Field(es, "img"))
        && r.value.roles.Some?
          && (roles.JArr? ==>
              |r.value.roles.value| == |roles.items| &&
              forall i :: 0 <= i < |roles.items| ==> r.value.roles.value[i] == ParseRole(roles.items[i]))
          && (!Truthy(roles) ==> r.value.roles == Some([])))
  {
    IdentityKeyPositions();
  }

  /** `...camelCaseJson` copies `id`, `name`, `localizedName`, `img` and `icon`
      from the normalised property of the same name. */
  lemma FromJsonCopiesIdentity(json: Json)
    ensures var es := NormalEntries(json);
      var r := FromJson(json);
      r.Success? ==>
        && r.value.id == AsNumber(Field(es, "id"))
        && r.value.name == AsString(Field(es, "name"))
        && r.value.localizedName == AsString(Field(es, "localizedName"))
        && r.value.img == AsString(Field(es, "img"))
        && r.value.icon == AsString(Field(es, "icon"))
  {
    var f := HeroFields(NormalEntries(json));
    if FromJson(json).Success? {
      IdentityKeyPositions();
      CopiedIdentityFields(f);
    }
  }

  /** `...camelCaseJson` copies each base statistic from the normalised
      property of the same name. */
  lemma FromJsonCopiesBase(json: Json)
    ensures var es := NormalEntries(json);
      var r := FromJson(json);
      r.Success? ==>
        && r.value.baseHealth == AsNumber(Field(es, "baseHealth"))
        && r.value.baseHealthRegen == AsNumber(Field(es, "baseHealthRegen"))
        && r.value.baseMana == AsNumber(Field(es, "baseMana"))
        && r.value.baseManaRegen == AsNumber(Field(es, "baseManaRegen"))
        && r.value.baseArmor == AsNumber(Field(es, "baseArmor"))
        && r.value.baseMr == AsNumber(Field(es, "baseMr"))
        && r.value.baseAttackMin == AsNumber(Field(es, "baseAttackMin"))
        && r.value.baseAttackMax == AsNumber(Field(es, "baseAttackMax"))
        && r.value.baseStr == AsNumber(Field(es, "baseStr"))
        && r.value.baseAgi == AsNumber(Field(es, "baseAgi"))
        && r.value.baseInt == AsNumber(Field(es, "baseInt"))
        && r.value.strGain == AsNumber(Field(es, "strGain"))
        && r.value.agiGain == AsNumber(Field(es, "agiGain"))
        && r.value.intGain == AsNumber(Field(es, "intGain"))
  {
    var f := HeroFields(NormalEntries(json));
    if FromJson(json).Success? {
      BaseKeyPositions();
      CopiedBaseFields(f);
    }
  }

  /** `...camelCaseJson` copies each growth statistic and `cmEnabled` from
      the normalised property of the same name. */
  lemma FromJsonCopiesGrowth(json: Json)
    ensures var es := NormalEntries(json);
      var r := FromJson(json);
      r.Success? ==>
        && r.value.attackRange == AsNumber(Field(es, "attackRange"))
        && r.value.projectileSpeed == AsNumber(Field(es, "projectileSpeed"))
        && r.value.attackRate == AsNumber(Field(es, "attackRate"))
        && r.value.baseAttackTime == AsNumber(Field(es, "baseAttackTime"))
        && r.value.attackPoint == AsNumber(Field(es, "attackPoint"))
        && r.value.moveSpeed == AsNumber(Field(es, "moveSpeed"))
        && r.value.turnRate == AsNumber(Field(es, "turnRate"))
        && r.value.cmEnabled == AsBool(Field(es, "cmEnabled"))
        && r.value.legs == AsNumber(Field(es, "legs"))
        && r.value.dayVision == AsNumber(Field(es, "dayVision"))
        && r.value.nightVision == AsNumber(Field(es, "nightVision"))
  {
    var f := HeroFields(NormalEntries(json));
    if FromJson(json).Success? {
      GrowthKeyPositions();
      CopiedGrowthFields(f);
    }
  }

  /** The value `{...hero}` copies for a `number` property, None when absent;
      reading it back gives the property again. */
  function NumberJson(o: Option<real>): (r: Option<Json>)
    ensures AsNumber(r.GetOr(JUndef)) == o
    ensures r.Some? ==> DotaHeroApi.IsNormal(r.value)
  {
    match o
    case Some(n) => Some(JNum(n))
    case None => None
  }

  /** The value `{...hero}` copies for a `string` property, None when absent;
      reading it back gives the property again. */
  function StringJson(o: Option<string>): (r: Option<Json>)
    ensures AsString(r.GetOr(JUndef)) == o
    ensures r.Some? ==> DotaHeroApi.IsNormal(r.value)
  {
    match o
    case Some(s) => Some(JStr(s))
    case None => None
  }

  /** The value `{...hero}` copies for a `boolean` property, None when absent;
      reading it back gives the property again. */
  function BoolJson(o: Option<bool>): (r: Option<Json>)
    ensures AsBool(r.GetOr(JUndef)) == o
    ensures r.Some? ==> DotaHeroApi.IsNormal(r.value)
  {
    match o
    case Some(b) => Some(JBool(b))
    case None => None
  }

  /** `hero.primaryAttr?.toString()`: the attribute's string value, or
      undefined; narrowing it again gives the attribute back. */
  function AttributeJson(o: Option<Attribute>): (v: Json)
    ensures ParseAttribute(v) == o
    ensures v.JStr? || v.JUndef?
  {
    match o
    case Some(a) => JStr(a.Token())
    case None => JUndef
  }

  /** `hero.attackType?.toString()`. */
  function AttackTypeJson(o: Option<AttackType>): (v: Json)
    ensures ParseAttackType(v) == o
    ensures v.JStr? || v.JUndef?
  {
    match o
    case Some(t) => JStr(t.Token())
    case None => JUndef
  }

  /** `hero.roles?.map(role => role.toString())`, for roles that are all
      known: same length and order, and narrowing each entry again gives
      the role back. */
  function RolesJson(o: Option<seq<Option<Role>>>): (v: Json)
    requires o.Some? ==> forall i :: 0 <= i < |o.value| ==> o.value[i].Some?
    ensures o.None? ==> v == JUndef
    ensures o.Some? ==> v.JArr? && |v.items| == |o.value|
    ensures o.Some? ==> forall i :: 0 <= i < |o.value| ==> ParseRole(v.items[i]) == o.value[i]
    ensures DotaHeroApi.IsNormal(v)
  {
    match o
    case Some(rs) => JArr(RoleStrings(rs))
    case None => JUndef
  }

  /** `roles.map(role => role.toString())`, for roles that are all known. */
  function RoleStrings(rs: seq<Option<Role>>): (r: seq<Json>)
    requires forall i :: 0 <= i < |rs| ==> rs[i].Some?
    ensures |r| == |rs|
    ensures forall i :: 0 <= i < |rs| ==> r[i] == JStr(rs[i].value.Token())
  {
    seq(|rs|, i requires 0 <= i < |rs| => JStr(rs[i].value.Token()))
  }

  /** What `{...hero, primaryAttr, attackType, roles}` writes under each of
      `HeroKeys`; None marks a property the hero does not have.
      `primaryAttr`, `attackType` and `roles` are always written, as
      undefined when the hero has none. */
  function HeroValues(h: Hero): (vs: seq<Option<Json>>)
    requires RolesAllKnown(h)
    ensures |vs| == |HeroKeys|
    ensures forall i :: 0 <= i < |vs| ==> NormalOrAbsent(vs[i])
  {
    IdentityValues(h) + BaseValues(h) + GrowthValues(h)
  }

  /** A value `toJson` writes is absent or already in normal form. */
  predicate NormalOrAbsent(o: Option<Json>) {
    o.Some? ==> DotaHeroApi.IsNormal(o.value)
  }

  /** `id` through `icon`. */
  function IdentityValues(h: Hero): (vs: seq<Option<Json>>)
    requires RolesAllKnown(h)
    ensures |vs| == 8
    ensures forall i :: 0 <= i < |vs| ==> NormalOrAbsent(vs[i])
  {
    [
      NumberJson(h.id),
      StringJson(h.name),
      StringJson(h.localizedName),
      Some(AttributeJson(h.primaryAttr)),
      Some(AttackTypeJson(h.attackType)),
      Some(RolesJson(h.roles)),
      StringJson(h.img),
      StringJson(h.icon)
    ]
  }

  /** `baseHealth` through `intGain`. */
  function BaseValues(h: Hero): (vs: seq<Option<Json>>)
    ensures |vs| == 14
    ensures forall i :: 0 <= i < |vs| ==> NormalOrAbsent(vs[i])
  {
    [
      NumberJson(h.baseHealth),
      NumberJson(h.baseHealthRegen),
      NumberJson(h.baseMana),
      NumberJson(h.baseManaRegen),
      NumberJson(h.baseArmor),
      NumberJson(h.baseMr),
      NumberJson(h.baseAttackMin),
      NumberJson(h.baseAttackMax),
      NumberJson(h.baseStr),
      NumberJson(h.baseAgi),
      NumberJson(h.baseInt),
      NumberJson(h.strGain),
      NumberJson(h.agiGain),
      NumberJson(h.intGain)
    ]
  }

  /** `attackRange` through `nightVision`. */
  function GrowthValues(h: Hero): (vs: seq<Option<Json>>)
    ensures |vs| == 11
    ensures forall i :: 0 <= i < |vs| ==> NormalOrAbsent(vs[i])
  {
    [
      NumberJson(h.attackRange),
      NumberJson(h.projectileSpeed),
      NumberJson(h.attackRate),
      NumberJson(h.baseAttackTime),
      NumberJson(h.attackPoint),
      NumberJson(h.moveSpeed),
      NumberJson(h.turnRate),
      BoolJson(h.cmEnabled),
      NumberJson(h.legs),
      NumberJson(h.dayVision),
      NumberJson(h.nightVision)
    ]
  }

  function HeroTable(h: Hero): (t: seq<(string, Option<Json>)>)
    requires RolesAllKnown(h)
    ensures |t| == |HeroKeys|
    ensures forall i :: 0 <= i < |t| ==> t[i] == (HeroKeys[i], HeroValues(h)[i])
  {
    var vs := HeroValues(h);
    seq(|HeroKeys|, i requires 0 <= i < |HeroKeys| => (HeroKeys[i], vs[i]))
  }

  /** The properties that are present. */
  function Present(t: seq<(string, Option<Json>)>): (es: Entries)
    ensures forall p :: p in es ==> (p.0, Some(p.1)) in t
  {
    if t == [] then []
    else if t[0].1.Some? then [(t[0].0, t[0].1.value)] + Present(t[1..])
    else Present(t[1..])
  }

  /** `DotaHeroModel.toJson`: the hero's properties with the enums as their
      string values; throws when a role is null. */
  function ToJson(h: Hero): (r: Result<Json, JsError>)
    ensures r.Failure? <==> !RolesAllKnown(h)
  {
    if !RolesAllKnown(h) then Failure(ToStringOfNull)
    else Success(JObj(Present(HeroTable(h))))
  }

  predicate TableKeysDistinct(t: seq<(string, Option<Json>)>) {
    forall i, j :: 0 <= i < j < |t| ==> t[i].0 != t[j].0
  }

  lemma {:induction false} PresentDistinct(t: seq<(string, Option<Json>)>)
    requires TableKeysDistinct(t)
    ensures DistinctKeys(Present(t))
  {
    if t != [] {
      PresentDistinct(t[1..]);
      if t[0].1.Some? {
        var rest := Present(t[1..]);
        forall j | 0 <= j < |rest| ensures rest[j].0 != t[0].0 {
          assert rest[j] in rest;
        }
      }
    }
  }

  lemma {:induction false} GetPresent(t: seq<(string, Option<Json>)>, i: nat)
    requires TableKeysDistinct(t) && i < |t|
    ensures Get(Present(t), t[i].0) == t[i].1
  {
    var rest := Present(t[1..]);
    if i == 0 {
      forall j | 0 <= j < |rest| ensures rest[j].0 != t[0].0 {
        assert rest[j] in rest;
      }
      assert t[0].0 !in Keys(rest);
    } else {
      GetPresent(t[1..], i - 1);
    }
  }

  predicate Distinct(s: seq<string>) {
    forall i, j :: 0 <= i < j < |s| ==> s[i] != s[j]
  }

  predicate Apart(a: seq<string>, b: seq<string>) {
    forall i, j :: 0 <= i < |a| && 0 <= j < |b| ==> a[i] != b[j]
  }

  lemma DistinctConcat(a: seq<string>, b: seq<string>)
    requires Distinct(a) && Distinct(b) && Apart(a, b)
    ensures Distinct(a + b)
  {
    forall i, j | 0 <= i < j < |a + b| ensures (a + b)[i] != (a + b)[j] {
      if j < |a| {
      } else if i < |a| {
        assert (a + b)[j] == b[j - |a|];
      } else {
        assert (a + b)[i] == b[i - |a|] && (a + b)[j] == b[j - |a|];
      }
    }
  }

  lemma ApartConcat(a: seq<string>, b: seq<string>, c: seq<string>)
    requires Apart(a, c) && Apart(b, c)
    ensures Apart(a + b, c)
  {
    forall i, j | 0 <= i < |a + b| && 0 <= j < |c| ensures (a + b)[i] != c[j] {
      if i >= |a| {
        assert (a + b)[i] == b[i - |a|];
      }
    }
  }

  lemma IdentityKeysDistinct() ensures Distinct(IdentityKeys) {}
  lemma BaseKeysDistinct() ensures Distinct(BaseKeys) {}
  lemma GrowthKeysDistinct() ensures Distinct(GrowthKeys) {}
  lemma IdentityBaseApart() ensures Apart(IdentityKeys, BaseKeys) {}
  lemma IdentityGrowthApart() ensures Apart(IdentityKeys, GrowthKeys) {}
  lemma BaseGrowthApart() ensures Apart(BaseKeys, GrowthKeys) {}

  /** No property name is listed twice. */
  lemma HeroKeysDistinct()
    ensures forall i, j :: 0 <= i < j < |HeroKeys| ==> HeroKeys[i] != HeroKeys[j]
  {
    IdentityKeysDistinct();
    BaseKeysDistinct();
    GrowthKeysDistinct();
    IdentityBaseApart();
    IdentityGrowthApart();
    BaseGrowthApart();
    DistinctConcat(IdentityKeys, BaseKeys);
    ApartConcat(IdentityKeys, BaseKeys, GrowthKeys);
    DistinctConcat(IdentityKeys + BaseKeys, GrowthKeys);
    assert Distinct(HeroKeys);
  }

  predicate NoUnderscores(s: seq<string>) {
    forall i :: 0 <= i < |s| ==> '_' !in s[i]
  }

  lemma IdentityKeysCamel() ensures NoUnderscores(IdentityKeys) {}
  lemma BaseKeysCamel() ensures NoUnderscores(BaseKeys) {}
  lemma GrowthKeysCamel() ensures NoUnderscores(GrowthKeys) {}

  /** Every property name is already camelCase. */
  lemma HeroKeysCamel()
    ensures forall i :: 0 <= i < |HeroKeys| ==> '_' !in HeroKeys[i]
  {
    IdentityKeysCamel();
    BaseKeysCamel();
    GrowthKeysCamel();
    var ab := IdentityKeys + BaseKeys;
    forall i | 0 <= i < |HeroKeys| ensures '_' !in HeroKeys[i] {
      if i < |IdentityKeys| {
        assert HeroKeys[i] == IdentityKeys[i];
      } else if i < |ab| {
        assert HeroKeys[i] == BaseKeys[i - |IdentityKeys|];
      } else {
        assert HeroKeys[i] == GrowthKeys[i - |ab|];
      }
    }
  }

  /** The object `toJson` builds is already in normal form: its keys are
      camelCase and distinct, and its values hold no object. */
  lemma ToJsonIsNormal(h: Hero)
    requires RolesAllKnown(h)
    ensures DotaHeroApi.IsNormal(JObj(Present(HeroTable(h))))
  {
    var t := HeroTable(h);
    var es := Present(t);
    HeroKeysDistinct();
    assert TableKeysDistinct(t);
    PresentDistinct(t);
    HeroKeysCamel();
    forall i | 0 <= i < |es| ensures DotaHeroApi.IsCamel(es[i].0) && DotaHeroApi.IsNormal(es[i].1) {
      assert es[i] in es;
      var j :| 0 <= j < |t| && t[j] == (es[i].0, Some(es[i].1));
      assert NormalOrAbsent(HeroValues(h)[j]);
      DotaHeroApi.NoUnderscoreIsCamel(t[j].0);
    }
  }

  /** Reading any property back from `toJson`'s object gives what was written. */
  lemma ToJsonReads(h: Hero)
    requires RolesAllKnown(h)
    ensures forall i :: 0 <= i < |HeroKeys| ==>
      Get(Present(HeroTable(h)), HeroKeys[i]) == HeroValues(h)[i]
  {
    var t := HeroTable(h);
    HeroKeysDistinct();
    assert TableKeysDistinct(t);
    forall i | 0 <= i < |t| ensures Get(Present(t), t[i].0) == t[i].1 {
      GetPresent(t, i);
    }
  }

  /** `toJson` writes each identity property under its own name: the copied
      values, and the enums and roles as strings. */
  lemma ToJsonWritesIdentity(h: Hero)
    requires RolesAllKnown(h)
    ensures var es := Present(HeroTable(h));
      && Get(es, "id") == NumberJson(h.id)
      && Get(es, "name") == StringJson(h.name)
      && Get(es, "localizedName") == StringJson(h.localizedName)
      && Get(es, "primaryAttr") == Some(AttributeJson(h.primaryAttr))
      && Get(es, "attackType") == Some(AttackTypeJson(h.attackType))
      && Get(es, "roles") == Some(RolesJson(h.roles))
      && Get(es, "img") == StringJson(h.img)
      && Get(es, "icon") == StringJson(h.icon)
  {
    ToJsonReads(h);
    IdentityKeyPositions();
  }

  /** `toJson` writes each base statistic under its own name. */
  lemma ToJsonWritesBase(h: Hero)
    requires RolesAllKnown(h)
    ensures var es := Present(HeroTable(h));
      && Get(es, "baseHealth") == NumberJson(h.baseHealth)
      && Get(es, "baseHealthRegen") == NumberJson(h.baseHealthRegen)
      && Get(es, "baseMana") == NumberJson(h.baseMana)
      && Get(es, "baseManaRegen") == NumberJson(h.baseManaRegen)
      && Get(es, "baseArmor") == NumberJson(h.baseArmor)
      && Get(es, "baseMr") == NumberJson(h.baseMr)
      && Get(es, "baseAttackMin") == NumberJson(h.baseAttackMin)
      && Get(es, "baseAttackMax") == NumberJson(h.baseAttackMax)
      && Get(es, "baseStr") == NumberJson(h.baseStr)
      && Get(es, "baseAgi") == NumberJson(h.baseAgi)
      && Get(es, "baseInt") == NumberJson(h.baseInt)
      && Get(es, "strGain") == NumberJson(h.strGain)
      && Get(es, "agiGain") == NumberJson(h.agiGain)
      && Get(es, "intGain") == NumberJson(h.intGain)
  {
    ToJsonReads(h);
    BaseKeyPositions();
  }

  /** `toJson` writes each growth statistic and `cmEnabled` under its own name. */
  lemma ToJsonWritesGrowth(h: Hero)
    requires RolesAllKnown(h)
    ensures var es := Present(HeroTable(h));
      && Get(es, "attackRange") == NumberJson(h.attackRange)
      && Get(es, "projectileSpeed") == NumberJson(h.projectileSpeed)
      && Get(es, "attackRate") == NumberJson(h.attackRate)
      && Get(es, "baseAttackTime") == NumberJson(h.baseAttackTime)
      && Get(es, "attackPoint") == NumberJson(h.attackPoint)
      && Get(es, "moveSpeed") == NumberJson(h.moveSpeed)
      && Get(es, "turnRate") == NumberJson(h.turnRate)
      && Get(es, "cmEnabled") == BoolJson(h.cmEnabled)
      && Get(es, "legs") == NumberJson(h.legs)
      && Get(es, "dayVision") == NumberJson(h.dayVision)
      && Get(es, "nightVision") == NumberJson(h.nightVision)
  {
    ToJsonReads(h);
    GrowthKeyPositions();
  }

  /** On a hero whose roles are all known, `fromJson(toJson(hero))` gives
      the hero back: every property, the enums included. */
  lemma {:induction false} FromJsonToJson(h: Hero)
    requires RolesAllKnown(h) && h.roles.Some?
    ensures ToJson(h).Success?
    ensures FromJson(ToJson(h).value) == Success(h)
  {
    var es := Present(HeroTable(h));
    ToJsonIsNormal(h);
    DotaHeroApi.NormalIsFixpoint(JObj(es));
    HeroFromToJson(h);
  }

  /** The values `fromJson` reads from `toJson`'s object are those `toJson` wrote. */
  lemma ToJsonFields(h: Hero)
    requires RolesAllKnown(h)
    ensures seq(|HeroKeys|, i requires 0 <= i < |HeroKeys| => Field(Present(HeroTable(h)), HeroKeys[i]))
         == seq(|HeroKeys|, i requires 0 <= i < |HeroKeys| => HeroValues(h)[i].GetOr(JUndef))
  {
    ToJsonReads(h);
  }

  lemma HeroFromToJson(h: Hero)
    requires RolesAllKnown(h) && h.roles.Some?
    ensures HeroFromFields(seq(|HeroKeys|, i requires 0 <= i < |HeroKeys| =>
      Field(Present(HeroTable(h)), HeroKeys[i]))) == Success(h)
  {
    ToJsonFields(h);
    HeroFromValues(h);
  }

  /** Reading the record back from the values `toJson` writes gives the hero. */
  lemma HeroFromValues(h: Hero)
    requires RolesAllKnown(h) && h.roles.Some?
    ensures HeroFromFields(seq(|HeroKeys|, i requires 0 <= i < |HeroKeys| =>
      HeroValues(h)[i].GetOr(JUndef))) == Success(h)
  {
    var vs := HeroValues(h);
    var f := seq(|HeroKeys|, i requires 0 <= i < |HeroKeys| => vs[i].GetOr(JUndef));
    var rs := h.roles.value;
    var items := f[5].items;
    assert seq(|items|, i requires 0 <= i < |items| => ParseRole(items[i])) == rs;
  }
}
