# Store search and filter engine, modelled in Dafny

This project models the store search engine of a fidelity-card app for retail stores
(`src/lib/SearchActions/SearchActions.ts`). The engine takes:

- a list of `Store` records with nullable text fields,
- a free-text search term,
- an optional category,
- an optional postal code supplied by the user's location,
- a lookup map of Italian provinces built from a reference table of
  `{nome, sigla, regione}` records (full name, two-letter code, region).

It returns the stores to show, in their original order.

Modules, one per part of the engine:

- `Wrappers`: `Option`, which stands for a JavaScript `string | null`.
- `JsStrings`: the JavaScript string operations the engine uses. These are
  `toUpperCase`/`toLowerCase` (ASCII letters only), `trim`, `includes`,
  `replace(/\D/g, '')`, `padStart`, `slice(0, n)`, and the truthiness of a nullable string.
- `Stores`: the `Store` record (`src/types/Store.ts`).
- `ProvinceLookup`: the reference records, `createProvinceMap` (a method with a loop,
  proved equal to a left fold `ProvinceMapOf`), and `isValidProvince`.
- `Matchers`: the name, city and postal-code matchers, the two-path province matcher
  (a method with the source's early-return loop, proved equal to the predicate
  `ProvinceTextMatch`), the category matcher, the postal-code normaliser and the
  location matcher.
- `StoreFilter`: `filterStores` as a recursive, order-preserving filter over `Keep`.
  `Keep` is the callback the source passes to `Array.filter`.
- `Examples`: worked scenarios over a two-record table ("Roma"/RM, "Milano"/MI).

JavaScript truthiness is modelled by `Truthy`: `null` and `""` are both falsy, and every
other string is truthy. The reference table (`provinces.json`) is not part of this
model. Every operation that uses it takes it as the parameter `table`. `matchesProvince`
reads the table directly while the map arrives as a parameter, so the model keeps the two
independent. Lemmas that need them to agree use `ProvinceMapOf(table)`.

Three details of the code that the model follows:

- `isValidProvince` upper-cases **and trims** the code before the lookup (lines 35-36).
- The exact-key path of `matchesProvince` uses `map.get(upper) || map.get(lower)`
  (line 87). A stored record is always truthy, so the lower-case key is consulted only
  when the upper-case key is absent. This holds even when the record under the
  upper-case key has a different code. `UpperKeyShadowsLowerKey` states this.
- The location matcher also returns false when the store's postal code is blank
  (line 122), before any normalisation.

## Model

| member | source | states |
|---|---|---|
| ProvinceLookup.CreateProvinceMap | src/lib/SearchActions/SearchActions.ts:15-25 | the map built by three `set` calls per record, in table order, is the left fold `ProvinceMapOf` of the table |
| ProvinceLookup.Register | src/lib/SearchActions/SearchActions.ts:19-22 | after one record's three `set` calls the keys are the old keys plus the record's three keys, those keys map to the record, and every other key keeps its value |
| ProvinceLookup.ProvinceMapOf | src/lib/SearchActions/SearchActions.ts:17-23 | every value of the lookup built from a table is a record of that table |
| ProvinceLookup.ProvinceMapKeys | src/lib/SearchActions/SearchActions.ts:17-23 | a string is a key of the lookup iff it is the upper-case code, upper-case name or lower-case name of some record |
| ProvinceLookup.ProvinceMapLastWriteWins | src/lib/SearchActions/SearchActions.ts:17-23 | on a key collision the key maps to the last record of the table that produces it |
| ProvinceLookup.ProvinceMapValuesFromTable | src/lib/SearchActions/SearchActions.ts:17-23 | every key maps to a record of the table that produces that key |
| ProvinceLookup.AbsentProvinceValid | src/lib/SearchActions/SearchActions.ts:32-34 | an absent or empty province is valid whatever the map holds |
| ProvinceLookup.ValidProvinceAgainstTable | src/lib/SearchActions/SearchActions.ts:31-37 | against the lookup built from a table, a province is valid iff its normalised form is a code or a (cased) full name of some record, so full names count as valid |
| ProvinceLookup.ValidProvinceIgnoresCase | src/lib/SearchActions/SearchActions.ts:35-36 | validity does not depend on the letter case of the stored code |
| Matchers.MatchesStoreName | src/lib/SearchActions/SearchActions.ts:42-45 | a blank term matches every name; a match needs a name at least as long as the lower-cased, trimmed term |
| Matchers.MatchesCity | src/lib/SearchActions/SearchActions.ts:50-56 | false when the city is absent or empty; a present city matches a blank term, and otherwise only a term no longer than itself |
| Matchers.MatchesPostalCode | src/lib/SearchActions/SearchActions.ts:61-67 | false when the postal code is absent or empty; a present raw code matches a blank term, and otherwise only a term no longer than itself |
| Matchers.TextMatchersFindLiteralOccurrences | src/lib/SearchActions/SearchActions.ts:42-67 | a term that literally occurs in the name, a present city or a present postal code is found by the matching case-insensitive matcher |
| Matchers.TextMatchersIgnoreTermCase | src/lib/SearchActions/SearchActions.ts:42-67 | the name, city and postal-code matchers give the same answer for a term and for its upper-cased form |
| Matchers.UpperKeyShadowsLowerKey | src/lib/SearchActions/SearchActions.ts:87-90 | when the upper-cased term is a key whose record has another code, the exact-key path fails, whatever the lower-case key holds |
| Matchers.LowerKeyUsedWhenUpperAbsent | src/lib/SearchActions/SearchActions.ts:87-90 | when the upper-cased term is not a key, the exact-key path holds iff the lower-cased term is a key whose record has the store's code |
| Matchers.MatchesProvince | src/lib/SearchActions/SearchActions.ts:73-103 | false without a province; otherwise true iff the exact-key path matches or some table record has the store's code and a lower-case name that includes the term |
| Matchers.ProvinceTextMatchSound | src/lib/SearchActions/SearchActions.ts:82-100 | with the lookup built from the table, every province match goes through a record with the store's code whose keys or name contain the term |
| Matchers.PartialNameFindsProvince | src/lib/SearchActions/SearchActions.ts:92-100 | part of a province's name finds the stores with that province's code, whatever the lookup holds |
| Matchers.SiglaFindsProvince | src/lib/SearchActions/SearchActions.ts:86-90 | a province's code, searched for, finds that province's stores unless a later record claims the same key |
| Matchers.NormalizePostalCode | src/lib/SearchActions/SearchActions.ts:130-143 | none iff the code has no digit; otherwise five digits: the first five digits when there are at least five, else the digits left-padded with '0' |
| Matchers.NormalizeSeesOnlyDigits | src/lib/SearchActions/SearchActions.ts:134-142 | two codes with the same digits normalise alike: spaces, dashes and letters do not matter |
| Matchers.NormalizeIdempotent | src/lib/SearchActions/SearchActions.ts:130-143 | a canonical five-digit code is a fixed point, so normalising a normalised code changes nothing |
| Matchers.MatchesUserPostalCode | src/lib/SearchActions/SearchActions.ts:115-154 | an absent or blank user code matches every store; a store without a non-blank code then fails; a match means both codes have digits and normalise alike |
| Matchers.UserPostalCodeMatchIff | src/lib/SearchActions/SearchActions.ts:115-154 | for a user code with a digit, a store matches iff its postal code has a digit and normalises to the same five digits |
| Matchers.UserPostalCodeMatchSymmetric | src/lib/SearchActions/SearchActions.ts:145-153 | for two codes that each contain a digit, swapping the user's code and the store's code does not change the answer |
| Matchers.DigitCodeIsNotBlank | src/lib/SearchActions/SearchActions.ts:117-124 | a code with a digit passes the blank-code guards |
| JsStrings.DigitsEmptyIff | src/lib/SearchActions/SearchActions.ts:135-139 | removing non-digits leaves nothing iff the code has no digit |
| StoreFilter.FilterStores | src/lib/SearchActions/SearchActions.ts:160-195 | the result is a subsequence of the input, no longer than it; every element passes the callback; a store is in the result iff it is in the input and passes |
| StoreFilter.Keep | src/lib/SearchActions/SearchActions.ts:167-194 | an accepted store has a valid province, carries the selected category when one is given, and has a postal code when a non-blank user code is given; with no filters and a blank term only province validity decides |
| StoreFilter.FilterStoresIdempotent | src/lib/SearchActions/SearchActions.ts:160-195 | filtering the result again with the same arguments returns it unchanged |
| StoreFilter.FilterStoresAppend | src/lib/SearchActions/SearchActions.ts:167-194 | each store is judged on its own: filtering a concatenation is concatenating the filtered parts |
| StoreFilter.InvalidProvinceExcluded | src/lib/SearchActions/SearchActions.ts:168-172 | a store whose province fails the validity test is never in the result, whatever the term, category or location |
| StoreFilter.BlankTermGating | src/lib/SearchActions/SearchActions.ts:170-185 | with a blank term, a store is shown iff it has a valid province, passes the location test when a user code is given, and passes the category test |
| StoreFilter.SelectedCategoryIsExact | src/lib/SearchActions/SearchActions.ts:108-110 | with a non-empty category selected, every store shown has exactly that category (strict, case-sensitive comparison) |
| StoreFilter.NameOccurrenceShown | src/lib/SearchActions/SearchActions.ts:187-193 | a valid store passing the location and category tests is shown when its name literally contains the term |
| Examples.NormalizeCanonical | src/lib/SearchActions/SearchActions.ts:130-143 | "00100" normalises to "00100" |
| Examples.NormalizeSeparators | src/lib/SearchActions/SearchActions.ts:135 | "00-100 " normalises to "00100" |
| Examples.NormalizeNoDigits | src/lib/SearchActions/SearchActions.ts:137-139 | "abc" has no canonical form |
| Examples.NormalizeTruncates | src/lib/SearchActions/SearchActions.ts:142 | "1234567" normalises to "12345": padding, then truncation to five |
| Examples.NormalizePads | src/lib/SearchActions/SearchActions.ts:142 | "123" normalises to "00123" |
| Examples.ScenarioNameMatch | src/lib/SearchActions/SearchActions.ts:187-193 | "Bar Roma" is found by the term "roma" with no category or location filter |
| Examples.ScenarioCategoryMismatch | src/lib/SearchActions/SearchActions.ts:180-185 | the same store is hidden by the category "pizzeria" with a blank term |
| Examples.ScenarioCategoryCase | src/lib/SearchActions/SearchActions.ts:108-110 | a store filed under "Bar" is hidden under the category "bar" |
| Examples.ScenarioLocationMatch | src/lib/SearchActions/SearchActions.ts:174-177 | the store with code "00100" is shown for the user code "00100" |
| Examples.ScenarioLocationMismatch | src/lib/SearchActions/SearchActions.ts:174-177 | the same store is hidden for the user code "20100" |
| Examples.ScenarioUnknownProvince | src/lib/SearchActions/SearchActions.ts:168-172 | a store with the province "ZZ", absent from the table, is hidden for every term, category and location |
| Examples.ScenarioRegionNameNoMatch | src/lib/SearchActions/SearchActions.ts:73-103 | the region name "Lombardia" matches no store through the province matcher |

## Left out

- The province reference table (`src/lib/provinces.json`) is not part of this model. It is the parameter `table` everywhere.
- Case folding: `toUpperCase`/`toLowerCase` are modelled on ASCII letters only. JavaScript's Unicode mapping also changes accented letters and can change the length of a string (`'ß'` becomes `"SS"`); the model does neither. So the lemmas that rely on character-by-character folding (`TextMatchersFindLiteralOccurrences`, `TextMatchersIgnoreTermCase`, `ValidProvinceIgnoresCase`, `LowerSlice`) hold for the ASCII model only: JavaScript's `toLowerCase` depends on context (a final `Σ` lowers to `ς`), so `"ΑΣ Β"` contains `"Σ"` while its lower-cased form does not contain `"σ"`.
- `trim` strips exactly the ECMAScript WhiteSpace and LineTerminator characters, listed as code points. A future Unicode version could add space separators that this list lacks.
- Strings are sequences of Unicode scalar values, while JavaScript strings are UTF-16 code units. For well-formed strings `includes`, `trim`, `replace(/\D/g, '')` and `padStart` behave the same either way, but strings with lone surrogates cannot be represented.
- The `typeof code !== 'string'` guard of the normaliser cannot fail in a typed model, so it is absent.
- The default argument `userPostalCode = null` of `filterStores`: callers pass `None` explicitly.
- The JavaScript `Map` is modelled as an immutable Dafny `map` value. Its object identity and the memoisation done by callers (`useMemo` in `src/components/Store/StoreList.tsx`) are not modelled.
- Everything outside the search engine is left out as I/O or rendering. This covers the React components and pages, server actions and database access, token and cookie handling, geolocation and reverse geocoding, disk usage, image handling, timers, the service worker and configuration. Category de-duplication and active-promotion filtering live inside UI components and depend on component state or the wall clock, so they are left out too.
