# Dota heroes: key normaliser, hero model and home list logic

This project models the core of a React Native app that lists Dota 2 heroes from the OpenDota hero-stats API. It has four parts:

- **The key normaliser** (`src/core/api/DotaHeroAPI.ts`).
  - `toCamelCase` rewrites every `_x` (x an ASCII lower-case letter) into `X`.
  - `convertKeysToCamelCase` applies it to every object key of a JSON value, at every depth.
  - Later writes to the same camelCase key overwrite earlier ones.
- **The hero model** (`src/models/DotaHero.ts`).
  - The three string enums and `toEnumValue`, which narrows a value to an enum.
  - `getTitle`.
  - `fromJson`, which normalises keys, copies the properties and narrows the enums.
  - `toJson`, which writes the enums back as strings.
  - The image, portrait and video URL helpers.
  - The derived statistics (`health` … `attackMax`).
- **The home screen list logic** (`src/modules/home/HomeScreen.tsx`).
  - The attribute toggle `onTapAttribute`.
  - `filteredHeroes`: filter by primary attribute, then by trimmed and lower-cased search text, then sort in place by lower-cased name.
  - The loop that picks the column count and the tile width.
- **The JavaScript pieces the core relies on**: JSON values, property read and write on an object, `indexOf`, `replace` with a string pattern, `includes`, `trim`, `toLowerCase` and string order.

Modules, one per file:

| file | module | models |
|---|---|---|
| `wrappers.dfy` | `Wrappers` | `Option` and `Result` |
| `json.dfy` | `Json` | JSON values, property read, property write, a fresh object filled by successive writes |
| `js_string.dfy` | `JsString` | the string operations listed above |
| `dota_hero_api.dfy` | `DotaHeroApi` | `toCamelCase`, `convertKeysToCamelCase` |
| `dota_hero.dfy` | `DotaHero` | enums, `toEnumValue`, `getTitle`, the `DotaHero` record, `fromJson`, `toJson` |
| `hero_urls.dfy` | `HeroUrls` | `imageUrl`, `potraitImageUrl`, `potraitVideoUrl` (the source's spelling) |
| `hero_stats.dfy` | `HeroStats` | `health` … `attackMax` |
| `home_screen.dfy` | `HomeScreen` | `onTapAttribute`, `filteredHeroes`, the layout loop |

Modelling choices:

- **Objects.** A JavaScript object is the sequence of its own properties in enumeration order.
  - Reading a missing property gives undefined.
  - Assigning to an existing key keeps its place; assigning a new key appends it.
- **Normalisation.** `Normalize` is the specification of `convertKeysToCamelCase`. The method `ConvertKeysToCamelCase` keeps the source's `for...in` loop and is proved equal to it.
- **Errors.** `fromJson` can throw in two ways, and `toJson` in one. The model returns each as a `Result` failure rather than excluding it.
  - `fromJson` reads a property of null or undefined.
  - `fromJson` calls `map` on a truthy `roles` that is not an array.
  - `toJson` calls `toString` on a null role.
- **Home screen state.** The screen's state hooks are the fields of `HomeScreenState`; `heroes` is the array the view model supplies.
  - With no filter active, `filteredHeroes` returns that very array, sorted in place.
  - Otherwise it returns a fresh array and leaves `heroes` untouched.
  - `FilteredHeroes` states both cases.
- **Numbers.** Numbers are exact reals.
- **Throwing mapping.** Mapping a hero is meant never to fail, but the code does throw in the three cases above; the model follows the code.

## Model

| member | source | states |
|---|---|---|
| `Json.Get` | src/models/DotaHero.ts:102-104 | reading a property gives None exactly when the object has no such key, and otherwise a value stored under that key |
| `Json.Assign` | src/core/api/DotaHeroAPI.ts:22 | `newObj[camelKey] = v` adds exactly the key `k`; a new key is appended after all others; an existing key's first occurrence takes the new value in its own position and nothing else changes |
| `Json.GetAssign` | src/core/api/DotaHeroAPI.ts:22 | after the write, reading `k` gives the written value and every other key reads as before |
| `Json.AssignPairs` | src/core/api/DotaHeroAPI.ts:22 | a write introduces no pair other than the one written, and never creates a duplicate key |
| `Json.AssignAll` | src/core/api/DotaHeroAPI.ts:18-25 | the object built by successive writes has exactly the written keys, each once, and holds only written pairs |
| `Json.AssignAllLastWins` | src/core/api/DotaHeroAPI.ts:19-24 | for a key written several times, the object holds the value of the last write |
| `Json.AssignAllKeyOrder` | src/core/api/DotaHeroAPI.ts:18-25 | the object built by successive writes enumerates its keys in the order each key was first written |
| `Json.AssignAllDistinct` | src/core/api/DotaHeroAPI.ts:18-25 | writing pairs with distinct keys rebuilds exactly those pairs, in order |
| `JsString.IndexOf` | src/models/DotaHero.ts:122-125 | the result is an occurrence of the pattern and no earlier index is one; None means there is no occurrence at all |
| `JsString.ReplaceFirst` | src/models/DotaHero.ts:122-125 | the result is either as long as the input or one occurrence longer by the replacement and shorter by the pattern: at most one occurrence is replaced |
| `JsString.ReplaceFirstSpec` | src/models/DotaHero.ts:122-125 | `replace` with a string pattern leaves the string unchanged when the pattern is absent, and otherwise substitutes exactly the first occurrence |
| `JsString.ReplaceFirstAtStart` | src/models/DotaHero.ts:122-125 | a string that starts with the pattern has that prefix replaced |
| `JsString.ReplaceFirstAfterPrefix` | src/models/DotaHero.ts:130 | when no occurrence starts inside a prefix, replacing in the whole string replaces in the rest and keeps the prefix |
| `JsString.ReplaceFirstAfterFree` | src/models/DotaHero.ts:130 | a pattern whose first character does not recur in it is replaced at the occurrence that follows a stem without one |
| `JsString.Includes` | src/modules/home/HomeScreen.tsx:79 | `includes` holds exactly when the pattern occurs at some index |
| `JsString.ToLower` | src/modules/home/HomeScreen.tsx:76-79 | lower-casing keeps the length, maps each ASCII upper-case letter to its lower-case letter 32 code points higher, and keeps every other character |
| `JsString.ToLowerIgnoresCase` | src/modules/home/HomeScreen.tsx:76-79 | two strings lower-case alike exactly when they differ only in the case of ASCII letters |
| `JsString.Trim` | src/modules/home/HomeScreen.tsx:75-76 | `trim` gives a slice surrounded only by whitespace, which itself neither starts nor ends with whitespace |
| `JsString.TrimBlank` | src/modules/home/HomeScreen.tsx:75 | the trimmed text is empty exactly when every character is whitespace |
| `JsString.LexLeTotal` | src/modules/home/HomeScreen.tsx:82-91 | any two names are comparable in character (code point) order |
| `JsString.LexLeTransitive` | src/modules/home/HomeScreen.tsx:82-91 | character (code point) order is transitive |
| `JsString.LexLeAntisymmetric` | src/modules/home/HomeScreen.tsx:82-91 | names each at most the other are equal |
| `DotaHeroApi.AsciiUpper` | src/core/api/DotaHeroAPI.ts:31 | upper-casing an ASCII lower-case letter gives the upper-case letter 32 code points lower |
| `DotaHeroApi.ToCamelCase` | src/core/api/DotaHeroAPI.ts:30-32 | rewriting never makes a key longer |
| `DotaHeroApi.ToCamelCaseLength` | src/core/api/DotaHeroAPI.ts:30-32 | each match removes exactly one character: the length drops by the number of matches |
| `DotaHeroApi.ToCamelCaseHead` | src/core/api/DotaHeroAPI.ts:30-32 | a key starting with `_x` starts with `X` afterwards; any other key keeps its first character |
| `DotaHeroApi.ToCamelCaseIsCamel` | src/core/api/DotaHeroAPI.ts:30-32 | no `_` followed by a lower-case letter survives the global replace |
| `DotaHeroApi.ToCamelCaseFixpoint` | src/core/api/DotaHeroAPI.ts:30-32 | a key is left unchanged exactly when it holds no match |
| `DotaHeroApi.ToCamelCaseIdempotent` | src/core/api/DotaHeroAPI.ts:30-32 | rewriting a rewritten key changes nothing |
| `DotaHeroApi.NoUnderscoreIsCamel` | src/core/api/DotaHeroAPI.ts:30-32 | a key without underscores is already camelCase and unchanged |
| `DotaHeroApi.ToCamelCasePositionwise` | src/core/api/DotaHeroAPI.ts:31 | the left-to-right rewrite equals a position-wise one: the `_` of a match disappears, the letter after it is upper-cased, and every other character stays |
| `DotaHeroApi.Normalize` | src/core/api/DotaHeroAPI.ts:14-28 | arrays stay arrays of the same length, objects stay objects, and every other value is returned as it is |
| `DotaHeroApi.ConvertKeysToCamelCase` | src/core/api/DotaHeroAPI.ts:14-28 | the recursive function with its `for...in` loop computes the normal form `Normalize` |
| `DotaHeroApi.NormalizeArray` | src/core/api/DotaHeroAPI.ts:15-16 | each array item is normalised in place: `map` keeps order |
| `DotaHeroApi.NormalizeObjectKeys` | src/core/api/DotaHeroAPI.ts:18-25 | the result's keys are exactly the rewritten input keys, each once |
| `DotaHeroApi.NormalizeObjectKeyOrder` | src/core/api/DotaHeroAPI.ts:19-24 | the result enumerates the rewritten keys in the order of their first occurrence among the input's properties |
| `DotaHeroApi.NormalizeObjectLastWins` | src/core/api/DotaHeroAPI.ts:19-24 | when two keys rewrite to the same name, the later property's normalised value wins |
| `DotaHeroApi.NormalizeObjectNoCollision` | src/core/api/DotaHeroAPI.ts:19-24 | without collisions, every property survives in its place with its rewritten key and normalised value |
| `DotaHeroApi.NormalizeIsNormal` | src/core/api/DotaHeroAPI.ts:14-28 | the result has camelCase, distinct keys at every depth |
| `DotaHeroApi.NormalIsFixpoint` | src/core/api/DotaHeroAPI.ts:14-28 | a value already in normal form is returned unchanged |
| `DotaHeroApi.NormalizeIdempotent` | src/core/api/DotaHeroAPI.ts:14-28 | converting twice is converting once |
| `DotaHero.ToEnumValue` | src/models/DotaHero.ts:198-208 | the result is one of the enum's values and equal to the input string; every enum value is accepted as it is |
| `DotaHero.ParseAttribute` | src/models/DotaHero.ts:4-9 | narrowing gives an attribute exactly for that attribute's string value (`str`, `agi`, `int`, `all`) |
| `DotaHero.ParseAttackType` | src/models/DotaHero.ts:43-46 | narrowing gives an attack type exactly for `Melee` or `Ranged` |
| `DotaHero.ParseRole` | src/models/DotaHero.ts:48-58 | narrowing gives a role exactly for that role's own name |
| `DotaHero.GetTitle` | src/models/DotaHero.ts:12-25 | the title is empty exactly when the value is none of the four attribute values |
| `DotaHero.GetTitleInjective` | src/models/DotaHero.ts:12-25 | different attributes get different titles |
| `DotaHero.FromJson` | src/models/DotaHero.ts:97-110 | a hero built by `fromJson` always has `roles` |
| `DotaHero.HeroFromFields` | src/models/DotaHero.ts:100-109 | the build throws exactly when `roles` is truthy and not an array; an array of roles keeps its length with each item narrowed; a falsy `roles` gives an empty list |
| `DotaHero.FromJsonSpec` | src/models/DotaHero.ts:97-110 | `fromJson` throws reading a property exactly when the input is null or undefined, and throws on `map` exactly when it is not and `roles` is truthy and not an array; on success the enums are the narrowed values, `name`, `localizedName` and `img` are copied, roles keep length and order with each narrowed, and falsy roles give an empty list |
| `DotaHero.Truthy` | src/models/DotaHero.ts:104 | the falsy values are exactly null, undefined, false, 0 and the empty string; every array and object is truthy |
| `DotaHero.FromJsonCopiesIdentity` | src/models/DotaHero.ts:100-101 | on success, `id`, `name`, `localizedName`, `img` and `icon` are the normalised input's properties of those names, when of the declared type |
| `DotaHero.FromJsonCopiesBase` | src/models/DotaHero.ts:100-101 | on success, each of `baseHealth` … `intGain` is the normalised input's property of the same name when it is a number, and absent otherwise |
| `DotaHero.FromJsonCopiesGrowth` | src/models/DotaHero.ts:100-101 | on success, each of `attackRange` … `nightVision` is the normalised input's property of the same name (`cmEnabled` a boolean, the rest numbers) |
| `DotaHero.NumberJson` | src/models/DotaHero.ts:114 | a spread `number` property reads back as itself and is in normal form |
| `DotaHero.StringJson` | src/models/DotaHero.ts:114 | a spread `string` property reads back as itself and is in normal form |
| `DotaHero.BoolJson` | src/models/DotaHero.ts:114 | a spread `boolean` property reads back as itself and is in normal form |
| `DotaHero.AttributeJson` | src/models/DotaHero.ts:115 | `primaryAttr?.toString()` is a string or undefined and narrows back to the attribute |
| `DotaHero.AttackTypeJson` | src/models/DotaHero.ts:116 | `attackType?.toString()` is a string or undefined and narrows back to the attack type |
| `DotaHero.RolesJson` | src/models/DotaHero.ts:117 | `roles?.map(toString)` keeps length and order, each entry narrowing back to its role; absent roles give undefined |
| `DotaHero.HeroValues` | src/models/DotaHero.ts:112-119 | one value per interface property, each absent or in normal form |
| `DotaHero.Present` | src/models/DotaHero.ts:113-114 | the object holds only properties the hero has |
| `DotaHero.ToJson` | src/models/DotaHero.ts:112-119 | `toJson` throws exactly when some role is null |
| `DotaHero.HeroKeysDistinct` | src/models/DotaHero.ts:60-94 | no interface property is declared twice |
| `DotaHero.HeroKeysCamel` | src/models/DotaHero.ts:60-94 | every interface property name is free of underscores |
| `DotaHero.ToJsonIsNormal` | src/models/DotaHero.ts:112-119 | the object `toJson` builds is already in normal form |
| `DotaHero.ToJsonReads` | src/models/DotaHero.ts:112-119 | reading any interface property of `toJson`'s object gives what was written for it |
| `DotaHero.ToJsonWritesIdentity` | src/models/DotaHero.ts:112-119 | `toJson`'s object reads, under `id`, `name`, `localizedName`, `img` and `icon`, the hero's value of that name, and under `primaryAttr`, `attackType` and `roles` their string forms |
| `DotaHero.ToJsonWritesBase` | src/models/DotaHero.ts:112-119 | `toJson`'s object reads, under each of `baseHealth` … `intGain`, the hero's number of that name, or nothing when absent |
| `DotaHero.ToJsonWritesGrowth` | src/models/DotaHero.ts:112-119 | `toJson`'s object reads, under each of `attackRange` … `nightVision`, the hero's value of that name, or nothing when absent |
| `DotaHero.FromJsonToJson` | src/models/DotaHero.ts:97-119 | for a hero with known roles, `toJson` succeeds and `fromJson` of its result gives the hero back, enums included |
| `HeroUrls.ImageUrl` | src/models/DotaHero.ts:133-135 | the URL is the CDN base followed by exactly the image path, or by nothing when there is none |
| `HeroUrls.PotraitImageUrl` | src/models/DotaHero.ts:121-127 | no image gives the bare base; a path without the images directory gives the image URL; otherwise the first images directory becomes the renders directory |
| `HeroUrls.PotraitVideoUrl` | src/models/DotaHero.ts:129-131 | a portrait URL without `.png` is returned unchanged |
| `HeroUrls.ImageUrlInjective` | src/models/DotaHero.ts:133-135 | two heroes share an image URL exactly when they share an image path |
| `HeroUrls.PotraitDiffersFromImage` | src/models/DotaHero.ts:121-135 | the portrait URL differs from the image URL exactly when the path contains the images directory |
| `HeroUrls.PotraitOfApiImage` | src/models/DotaHero.ts:121-127 | an API image `images/.../heroes/<file>` has its portrait at `videos/.../heroes/renders/<file>` |
| `HeroUrls.NoPngInRenderPrefix` | src/models/DotaHero.ts:130 | no `.png` starts inside the CDN base or the renders directory |
| `HeroUrls.PotraitVideoOfApiImage` | src/models/DotaHero.ts:121-131 | an API image `<stem>.png<query>` has its video at the renders directory's `<stem>.webm<query>` |
| `HeroStats.Health` | src/models/DotaHero.ts:137-139 | with non-negative strength the health is at least the base health; with neither value present it is 0 |
| `HeroStats.HealthRegen` | src/models/DotaHero.ts:141-143 | with non-negative strength the regeneration is at least the base; with neither value present it is 0 |
| `HeroStats.Mana` | src/models/DotaHero.ts:145-147 | with non-negative intelligence the mana is at least the base mana; with neither value present it is 0 |
| `HeroStats.ManaRegen` | src/models/DotaHero.ts:149-151 | with non-negative intelligence the regeneration is at least the base; with neither value present it is 0 |
| `HeroStats.Armor` | src/models/DotaHero.ts:153-155 | with non-negative agility the armor is at least the base armor; with neither value present it is 0 |
| `HeroStats.PrimaryBonus` | src/models/DotaHero.ts:157-195 | the attack bonus is 0 without a known primary attribute or without any attribute values, and non-negative when the attributes are |
| `HeroStats.AttackMin` | src/models/DotaHero.ts:157-175 | the minimum attack is the base minimum plus the primary attribute's bonus (0.6 of each attribute for universal, none without a known attribute) |
| `HeroStats.AttackMax` | src/models/DotaHero.ts:177-195 | the maximum attack is the base maximum plus the same bonus |
| `HeroStats.AttackSpread` | src/models/DotaHero.ts:157-195 | the attack range is as wide as the base range, so ordered bases give ordered attacks |
| `HeroStats.BlankHeroStats` | src/models/DotaHero.ts:137-195 | a hero with no base values and no attributes has every statistic 0 |
| `HeroStats.MissingAttributesAreZero` | src/models/DotaHero.ts:137-195 | a missing attribute counts exactly as 0 |
| `HeroStats.StrengthGain` | src/models/DotaHero.ts:137-143 | d more strength adds 20d health and 0.1d regeneration, d or 0.6d or 0 attack by primary attribute, and nothing else |
| `HeroStats.AgilityGain` | src/models/DotaHero.ts:153-155 | d more agility adds 0.167d armor, d or 0.6d or 0 attack by primary attribute, and nothing else |
| `HeroStats.IntelligenceGain` | src/models/DotaHero.ts:145-151 | d more intelligence adds 12d mana and 0.05d regeneration, d or 0.6d or 0 attack by primary attribute, and nothing else |
| `HomeScreen.Toggle` | src/modules/home/HomeScreen.tsx:64-66 | tapping selects the attribute exactly when it was not selected, and clears the selection exactly when it was |
| `HomeScreen.ToggleTwice` | src/modules/home/HomeScreen.tsx:64-66 | two taps on an attribute restore an empty selection or that attribute |
| `HomeScreen.ToggleTwiceFromOther` | src/modules/home/HomeScreen.tsx:64-66 | two taps starting from another attribute leave nothing selected |
| `HomeScreen.InOrder` | src/modules/home/HomeScreen.tsx:82-91 | heroes with the same lower-cased name are ties: in order both ways, in either direction |
| `HomeScreen.InOrderTotal` | src/modules/home/HomeScreen.tsx:82-91 | the comparator relates every two heroes one way or the other, in either direction |
| `HomeScreen.InOrderTransitive` | src/modules/home/HomeScreen.tsx:82-91 | the comparator is transitive in either direction |
| `HomeScreen.NameKey` | src/modules/home/HomeScreen.tsx:83-84 | the sort key is as long as the name (empty when there is none) and holds no ASCII upper-case letter |
| `HomeScreen.NameKeyIgnoresCase` | src/modules/home/HomeScreen.tsx:83-84 | names that differ only in case get the same sort key |
| `HomeScreen.AttributeIs` | src/modules/home/HomeScreen.tsx:72 | the attribute callback accepts a hero exactly when its primary attribute is the selected one |
| `HomeScreen.NameHas` | src/modules/home/HomeScreen.tsx:77-79 | the search callback accepts a hero exactly when the search text occurs at some index of its lower-cased name |
| `HomeScreen.Matches` | src/modules/home/HomeScreen.tsx:69-80 | a hero passes both filters exactly when `filteredHeroes` keeps it as the only hero on the list |
| `HomeScreen.Filter` | src/modules/home/HomeScreen.tsx:71-80 | `filter` keeps each element passing the test as often as it occurs, and drops every other |
| `HomeScreen.Candidates` | src/modules/home/HomeScreen.tsx:69-80 | filtering keeps a sub-multiset of `heroes`: it never adds or duplicates a hero |
| `HomeScreen.SearchIgnoresCase` | src/modules/home/HomeScreen.tsx:75-80 | search texts whose trimmed forms differ only in case keep the same heroes |
| `HomeScreen.CandidatesExact` | src/modules/home/HomeScreen.tsx:69-80 | the kept heroes are exactly those matching the selected attribute and the trimmed, lower-cased search text, each as often as in `heroes` |
| `HomeScreen.CandidatesHaveAttribute` | src/modules/home/HomeScreen.tsx:71-73 | with an attribute selected, every kept hero has it as primary attribute |
| `HomeScreen.BlankSearchKeepsAll` | src/modules/home/HomeScreen.tsx:75 | a search text of only whitespace filters nothing |
| `HomeScreen.SearchKeepsContaining` | src/modules/home/HomeScreen.tsx:75-80 | a non-blank search keeps a hero exactly when its lower-cased name contains the lower-cased trimmed text |
| `HomeScreen.Insert` | src/modules/home/HomeScreen.tsx:82-91 | inserting adds exactly the one hero to the list's contents |
| `HomeScreen.SortByName` | src/modules/home/HomeScreen.tsx:82-91 | sorting keeps the list's contents: it is a permutation |
| `HomeScreen.InsertSorted` | src/modules/home/HomeScreen.tsx:82-91 | inserting into a sorted list keeps it sorted and adds exactly the inserted hero |
| `HomeScreen.SortByNameSpec` | src/modules/home/HomeScreen.tsx:82-91 | the sort orders by lower-cased name, ascending or descending, and is a permutation |
| `HomeScreen.SortInPlace` | src/modules/home/HomeScreen.tsx:82-91 | the array afterwards holds the sorted order of its old contents |
| `HomeScreen.HomeScreenState.constructor` | src/modules/home/HomeScreen.tsx:57-62 | initial state: no attribute selected, ascending order, empty search |
| `HomeScreen.HomeScreenState.OnTapAttribute` | src/modules/home/HomeScreen.tsx:64-66 | the selection becomes the toggle of the old one; no other field changes |
| `HomeScreen.HomeScreenState.FilteredHeroes` | src/modules/home/HomeScreen.tsx:68-94 | the result is the name-sorted list of matching heroes; with no filter it is the `heroes` array itself, sorted in place; otherwise it is fresh and `heroes` is untouched |
| `HomeScreen.ApplyFilters` | src/modules/home/HomeScreen.tsx:69-80 | `result` holds the kept heroes; it is `heroes` itself when no filter applies and a fresh array otherwise |
| `HomeScreen.FilteredHeroesSpec` | src/modules/home/HomeScreen.tsx:68-94 | what `filteredHeroes` returns is ordered and holds exactly the matching heroes |
| `HomeScreen.TooWide` | src/modules/home/HomeScreen.tsx:97 | the loop condition holds exactly when the screen is wider than 200 points times one more column |
| `HomeScreen.ColumnsFrom` | src/modules/home/HomeScreen.tsx:96-99 | the loop stops at the first column count, not below the start, for which one more column would make tiles at most 200 wide |
| `HomeScreen.Layout` | src/modules/home/HomeScreen.tsx:96-101 | at least two columns; the fewest for which one more would not leave tiles wider than 200; the tile width is the screen width divided by them |
| `HomeScreen.ColumnsMonotone` | src/modules/home/HomeScreen.tsx:96-99 | a wider screen never gets fewer columns |
| `HomeScreen.TileWidthBounds` | src/modules/home/HomeScreen.tsx:96-101 | on a screen wider than 400, every tile is more than 200 and at most 300 wide |

## Left out

- `DotaHeroAPI.getHeroStats` (src/core/api/DotaHeroAPI.ts:5-11): an HTTP request through `APIClient` followed by `map(fromJson)`. The network is not modelled. `FromJson` covers each element.
- `APIClient`, `HomeScreenViewModel`, the detail screen and all rendering are not part of this model.
- `DotaHeroAttributeUtils.getIcon` is commented out in the source and has no behaviour.
- `setSortAsc` and `setSearchText` are plain state setters wired to UI controls. `FilteredHeroes` reads `sortAsc` and `searchText` as given.
- The screen width is a parameter of `Layout`; it comes from the device.
- Numbers are exact reals, not IEEE-754 doubles. Consequences:
  - `HeroStats.AttackMin` and `HeroStats.AttackMax` treat `a*0.6 + b*0.6 + c*0.6` and `0.6*(a + b + c)` as equal, which rounding does not guarantee.
  - The layout division is exact.
- `JsString` strings are sequences of Unicode scalar values. Lengths, `indexOf` positions and string order count code points, where JavaScript counts UTF-16 code units; they differ for characters outside the Basic Multilingual Plane, such as emoji.
- `DotaHero.ToJson` writes the properties in the order the `DotaHero` interface declares them. The source's spread keeps the hero object's own property order and appends `primaryAttr`, `attackType` and `roles` only when the hero lacks them.
- `DotaHero.GetTitle` takes the attribute's string value. The detail screen calls `getTitle(hero.primaryAttr!)` on a possibly null attribute; the source then returns `''`, and that null argument is not represented.
- `DotaHero.Truthy` has no NaN and no -0, both falsy in JavaScript: numbers are exact reals, so neither can arise.
- `JsString.ToLower` lower-cases ASCII letters only. JavaScript's `toLowerCase` also maps other Unicode letters.
- `HomeScreen.SortByNameSpec` compares by characters (code points). The source uses `localeCompare`, whose locale collation is not modelled, so ties and accented names may order differently.
  - The JavaScript `sort` algorithm itself is not modelled; the result is the insertion-sort order copied back into the array.
  - Stability is not claimed by any lemma, although `SortByName` keeps ties in their original order.
- `JsString.ReplaceFirstSpec` does not model `$` substitution patterns in the replacement string. None of the replacements the core uses contains `$`.
- `DotaHero.FromJson` keeps only the properties the `DotaHero` interface declares. Behaviour differs from the source's spread in four ways:
  - Extra properties copied by `...camelCaseJson` are dropped.
  - A property holding a value of the wrong type reads as absent.
  - An explicit `null` reads as absent.
  - `primaryAttr` and `attackType` are always present in the source's object (possibly as null); the record has None for both cases.
- `DotaHero.FromJsonToJson` holds for heroes whose `roles` is present. `fromJson` always produces `roles` (an empty list when absent), so a hero without `roles` comes back with an empty list.
- `HomeScreen.ToggleTwice` holds only from an empty selection or the same attribute. From another attribute two taps clear the selection, as `HomeScreen.ToggleTwiceFromOther` states.
- Object key enumeration is in insertion order. JavaScript enumerates integer-like keys first, in numeric order; the hero API's keys are not integer-like.
