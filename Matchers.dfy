/**
 * The per-store predicates of the search engine: name, city and postal-code
 * substring tests, the two-path province text match, the category test and
 * the location test built on the postal-code normaliser.
 */
module Matchers {
  import opened Wrappers
  import opened JsStrings
  import opened Stores
  import opened ProvinceLookup

  /** The search term as every text matcher uses it: lower-cased, then trimmed. */
  function NormalizedTerm(searchTerm: string): string {
    Trim(Lower(searchTerm))
  }

  // ------------------------------------------------------- text matchers

  /**
   * matchesStoreName: the lower-cased name includes the normalised term. A
   * blank term matches every name; a match needs a name at least as long as
   * the normalised term.
   */
  function MatchesStoreName(store: Store, searchTerm: string): (r: bool)
    ensures NormalizedTerm(searchTerm) == "" ==> r
    ensures r ==> |NormalizedTerm(searchTerm)| <= |store.name|
  {
    assert InfixAt(Lower(store.name), "", 0);
    Includes(Lower(store.name), NormalizedTerm(searchTerm))
  }

  /**
   * matchesCity: false when the city is absent or empty; a present city
   * matches a blank term, and otherwise only a term no longer than itself.
   */
  function MatchesCity(store: Store, searchTerm: string): (r: bool)
    ensures !Truthy(store.city) ==> !r
    ensures Truthy(store.city) && NormalizedTerm(searchTerm) == "" ==> r
    ensures r ==> |NormalizedTerm(searchTerm)| <= |store.city.value|
  {
    Truthy(store.city)
    && assert InfixAt(Lower(store.city.value), "", 0);
       Includes(Lower(store.city.value), NormalizedTerm(searchTerm))
  }

  /**
   * matchesPostalCode: false when the postal code is absent or empty; the
   * raw, un-normalised code is searched, so a present code matches a blank
   * term, and otherwise only a term no longer than itself.
   */
  function MatchesPostalCode(store: Store, searchTerm: string): (r: bool)
    ensures !Truthy(store.postalCode) ==> !r
    ensures Truthy(store.postalCode) && NormalizedTerm(searchTerm) == "" ==> r
    ensures r ==> |NormalizedTerm(searchTerm)| <= |store.postalCode.value|
  {
    Truthy(store.postalCode)
    && assert InfixAt(Lower(store.postalCode.value), "", 0);
       Includes(Lower(store.postalCode.value), NormalizedTerm(searchTerm))
  }

  /** A search term that literally occurs in a text is found by the case-insensitive test. */
  lemma LiteralOccurrenceFound(text: string, searchTerm: string)
    requires Includes(text, searchTerm)
    ensures Includes(Lower(text), NormalizedTerm(searchTerm))
  {
    IncludesLower(text, searchTerm);
    IncludesTrim(Lower(searchTerm));
    IncludesTransitive(Lower(text), Lower(searchTerm), NormalizedTerm(searchTerm));
  }

  /**
   * A store whose name (city, postal code) literally contains the search term
   * is matched by the name (city, postal-code) matcher.
   */
  lemma TextMatchersFindLiteralOccurrences(store: Store, searchTerm: string)
    ensures Includes(store.name, searchTerm) ==> MatchesStoreName(store, searchTerm)
    ensures Truthy(store.city) && Includes(store.city.value, searchTerm) ==> MatchesCity(store, searchTerm)
    ensures Truthy(store.postalCode) && Includes(store.postalCode.value, searchTerm)
        ==> MatchesPostalCode(store, searchTerm)
  {
    if Includes(store.name, searchTerm) {
      LiteralOccurrenceFound(store.name, searchTerm);
    }
    if Truthy(store.city) && Includes(store.city.value, searchTerm) {
      LiteralOccurrenceFound(store.city.value, searchTerm);
    }
    if Truthy(store.postalCode) && Includes(store.postalCode.value, searchTerm) {
      LiteralOccurrenceFound(store.postalCode.value, searchTerm);
    }
  }

  /** The text matchers ignore the letter case of the search term. */
  lemma TextMatchersIgnoreTermCase(store: Store, searchTerm: string)
    ensures MatchesStoreName(store, Upper(searchTerm)) == MatchesStoreName(store, searchTerm)
    ensures MatchesCity(store, Upper(searchTerm)) == MatchesCity(store, searchTerm)
    ensures MatchesPostalCode(store, Upper(searchTerm)) == MatchesPostalCode(store, searchTerm)
  {
    LowerOfUpper(searchTerm);
  }

  // ------------------------------------------------------ province match

  /** `provinceMap.get(upper) || provinceMap.get(lower)`: records are always truthy. */
  function LookupTerm(searchTerm: string, provinceMap: ProvinceMap): Option<ProvinceData> {
    var termUpper := Trim(Upper(searchTerm));
    var termLower := NormalizedTerm(searchTerm);
    if termUpper in provinceMap then Some(provinceMap[termUpper])
    else if termLower in provinceMap then Some(provinceMap[termLower])
    else None
  }

  /** First path: the term is a lookup key whose record has the store's code. */
  predicate ExactKeyMatch(storeProvinceUpper: string, searchTerm: string, provinceMap: ProvinceMap) {
    var found := LookupTerm(searchTerm, provinceMap);
    found.Some? && storeProvinceUpper == Upper(found.value.sigla)
  }

  /**
   * The upper-case key shadows the lower-case one: when the upper-cased term
   * is a key whose record has another code, the exact path fails, even if the
   * lower-cased term is a key whose record has the store's code.
   */
  lemma UpperKeyShadowsLowerKey(storeProvinceUpper: string, searchTerm: string, provinceMap: ProvinceMap)
    requires Trim(Upper(searchTerm)) in provinceMap
    requires Upper(provinceMap[Trim(Upper(searchTerm))].sigla) != storeProvinceUpper
    ensures !ExactKeyMatch(storeProvinceUpper, searchTerm, provinceMap)
  {
  }

  /** The lower-case key is consulted only when the upper-case key is absent. */
  lemma LowerKeyUsedWhenUpperAbsent(storeProvinceUpper: string, searchTerm: string, provinceMap: ProvinceMap)
    requires Trim(Upper(searchTerm)) !in provinceMap
    ensures ExactKeyMatch(storeProvinceUpper, searchTerm, provinceMap)
        <==> NormalizedTerm(searchTerm) in provinceMap
             && Upper(provinceMap[NormalizedTerm(searchTerm)].sigla) == storeProvinceUpper
  {
  }

  /** Second path, one record: its lower-case name includes the term and its code is the store's. */
  predicate PartialNameMatch(province: ProvinceData, termLower: string, storeProvinceUpper: string) {
    Includes(Lower(province.nome), termLower) && storeProvinceUpper == Upper(province.sigla)
  }

  /** What matchesProvince decides, with its loop read as an existential over the table. */
  predicate ProvinceTextMatch(store: Store, searchTerm: string, provinceMap: ProvinceMap,
                              table: seq<ProvinceData>)
  {
    Truthy(store.province) &&
    var storeProvinceUpper := Trim(Upper(store.province.value));
    (ExactKeyMatch(storeProvinceUpper, searchTerm, provinceMap)
     || exists j :: 0 <= j < |table| && PartialNameMatch(table[j], NormalizedTerm(searchTerm), storeProvinceUpper))
  }

  /** matchesProvince: the exact-key test, then a scan of the table that returns at the first hit. */
  method MatchesProvince(store: Store, searchTerm: string, provinceMap: ProvinceMap,
                         table: seq<ProvinceData>) returns (b: bool)
    ensures !Truthy(store.province) ==> !b
    ensures b <==> ProvinceTextMatch(store, searchTerm, provinceMap, table)
  {
    if !Truthy(store.province) {
      return false;
    }
    var termLower := NormalizedTerm(searchTerm);
    var storeProvinceUpper := Trim(Upper(store.province.value));

    var matching := LookupTerm(searchTerm, provinceMap);
    if matching.Some? && storeProvinceUpper == Upper(matching.value.sigla) {
      return true;
    }

    var i := 0;
    while i < |table|
      invariant 0 <= i <= |table|
      invariant forall j :: 0 <= j < i ==> !PartialNameMatch(table[j], termLower, storeProvinceUpper)
    {
      if PartialNameMatch(table[i], termLower, storeProvinceUpper) {
        return true;
      }
      i := i + 1;
    }
    return false;
  }

  /** The record's code is the store's, and the term is one of its keys or part of its name. */
  predicate SupportsProvinceMatch(province: ProvinceData, storeProvince: string, searchTerm: string) {
    && Trim(Upper(storeProvince)) == Upper(province.sigla)
    && (|| Trim(Upper(searchTerm)) in KeysOf(province)
        || NormalizedTerm(searchTerm) in KeysOf(province)
        || Includes(Lower(province.nome), NormalizedTerm(searchTerm)))
  }

  /**
   * With the lookup built from the table, a province text match always goes
   * through a record of the table whose code is the store's: the term is one
   * of that record's keys or part of its name. A region name that is neither
   * never matches.
   */
  lemma ProvinceTextMatchSound(store: Store, searchTerm: string, table: seq<ProvinceData>)
    requires ProvinceTextMatch(store, searchTerm, ProvinceMapOf(table), table)
    ensures exists j :: 0 <= j < |table| && SupportsProvinceMatch(table[j], store.province.value, searchTerm)
  {
    var provinceMap := ProvinceMapOf(table);
    var storeProvinceUpper := Trim(Upper(store.province.value));
    if ExactKeyMatch(storeProvinceUpper, searchTerm, provinceMap) {
      var key := if Trim(Upper(searchTerm)) in provinceMap then Trim(Upper(searchTerm))
                 else NormalizedTerm(searchTerm);
      ProvinceMapValuesFromTable(table, key);
      var j :| 0 <= j < |table| && key in KeysOf(table[j]) && provinceMap[key] == table[j];
      assert storeProvinceUpper == Upper(table[j].sigla);
    } else {
      var j :| 0 <= j < |table| && PartialNameMatch(table[j], NormalizedTerm(searchTerm), storeProvinceUpper);
      assert Includes(Lower(table[j].nome), NormalizedTerm(searchTerm));
    }
  }

  /**
   * Typing part of a province's name finds the stores of that province,
   * whatever the lookup holds.
   */
  lemma PartialNameFindsProvince(store: Store, searchTerm: string, provinceMap: ProvinceMap,
                                 table: seq<ProvinceData>, j: nat)
    requires j < |table| && Truthy(store.province)
    requires Trim(Upper(store.province.value)) == Upper(table[j].sigla)
    requires Includes(table[j].nome, searchTerm)
    ensures ProvinceTextMatch(store, searchTerm, provinceMap, table)
  {
    LiteralOccurrenceFound(table[j].nome, searchTerm);
    assert PartialNameMatch(table[j], NormalizedTerm(searchTerm), Trim(Upper(store.province.value)));
  }

  /**
   * Typing a province's code finds the stores of that province when no later
   * record of the table claims the same key.
   */
  lemma SiglaFindsProvince(store: Store, table: seq<ProvinceData>, j: nat)
    requires j < |table| && Truthy(store.province)
    requires Trim(Upper(store.province.value)) == Upper(table[j].sigla)
    requires Trim(Upper(table[j].sigla)) == Upper(table[j].sigla)
    requires forall j' :: j < j' < |table| ==> Upper(table[j].sigla) !in KeysOf(table[j'])
    ensures ProvinceTextMatch(store, table[j].sigla, ProvinceMapOf(table), table)
  {
    ProvinceMapLastWriteWins(table, j, Upper(table[j].sigla));
  }

  // ------------------------------------------------------------ category

  /** matchesCategory: no (or an empty) selection matches every store, else strict equality. */
  predicate MatchesCategory(store: Store, selectedCategory: Option<string>) {
    !Truthy(selectedCategory) || store.category == selectedCategory
  }

  // ----------------------------------------------------------- postal code

  /** The canonical form of an Italian postal code: five digits. */
  predicate IsCanonicalPostalCode(code: string) {
    |code| == 5 && AllDigits(code)
  }

  /**
   * normalizePostalCode: keep only the digits; none if there are none; else
   * left-pad with '0' to five characters and keep the first five.
   */
  function NormalizePostalCode(code: string): (r: Option<string>)
    ensures r.None? <==> !HasDigit(code)
    ensures r.Some? ==> IsCanonicalPostalCode(r.value)
    ensures |Digits(code)| >= 5 ==> r == Some(Digits(code)[..5])
    ensures 0 < |Digits(code)| < 5 ==> r == Some(seq(5 - |Digits(code)|, _ => '0') + Digits(code))
  {
    DigitsEmptyIff(code);
    if code == "" then None
    else
      var digits := Digits(code);
      if |digits| == 0 then None
      else
        assert |digits| == 5 ==> digits[..5] == digits;
        Some(SliceTo(PadStart(digits, 5, '0'), 5))
  }

  /** Only the digits of a code matter to the normaliser (spaces, dashes, letters do not). */
  lemma NormalizeSeesOnlyDigits(a: string, b: string)
    requires Digits(a) == Digits(b)
    ensures NormalizePostalCode(a) == NormalizePostalCode(b)
  {
  }

  /** A canonical code normalises to itself, so normalising twice is normalising once. */
  lemma NormalizeIdempotent(code: string)
    ensures IsCanonicalPostalCode(code) ==> NormalizePostalCode(code) == Some(code)
    ensures NormalizePostalCode(code).Some?
        ==> NormalizePostalCode(NormalizePostalCode(code).value) == NormalizePostalCode(code)
  {
    if IsCanonicalPostalCode(code) {
      DigitsOfDigits(code);
    }
    var r := NormalizePostalCode(code);
    if r.Some? {
      DigitsOfDigits(r.value);
    }
  }

  /**
   * matchesUserPostalCode: inactive (true) for an absent or blank user code;
   * false for a store without a non-blank code; else both codes must
   * normalise, to the same five digits.
   */
  function MatchesUserPostalCode(store: Store, userPostalCode: Option<string>): (r: bool)
    ensures !Truthy(userPostalCode) || Trim(userPostalCode.value) == "" ==> r
    ensures (&& Truthy(userPostalCode) && Trim(userPostalCode.value) != ""
             && (!Truthy(store.postalCode) || Trim(store.postalCode.value) == "")) ==> !r
    ensures r && Truthy(userPostalCode) && Trim(userPostalCode.value) != "" ==>
      store.postalCode.Some? && HasDigit(userPostalCode.value) && HasDigit(store.postalCode.value)
      && NormalizePostalCode(store.postalCode.value) == NormalizePostalCode(userPostalCode.value)
  {
    if !Truthy(userPostalCode) || Trim(userPostalCode.value) == "" then true
    else if !Truthy(store.postalCode) || Trim(store.postalCode.value) == "" then false
    else
      var normalizedUser := NormalizePostalCode(userPostalCode.value);
      var normalizedStore := NormalizePostalCode(store.postalCode.value);
      if normalizedUser.None? || normalizedStore.None? then false
      else normalizedStore == normalizedUser
  }

  /** A digit is never whitespace, so a code with a digit is not blank. */
  lemma DigitCodeIsNotBlank(code: string)
    requires HasDigit(code)
    ensures code != "" && Trim(code) != ""
  {
    var i :| 0 <= i < |code| && IsDigit(code[i]);
    TrimKeepsNonWhite(code, i);
  }

  /**
   * An active location filter keeps exactly the stores whose postal code has
   * a digit and normalises to the same five digits as the user's code.
   */
  lemma UserPostalCodeMatchIff(store: Store, userPostalCode: string)
    requires HasDigit(userPostalCode)
    ensures MatchesUserPostalCode(store, Some(userPostalCode)) <==>
      store.postalCode.Some? && HasDigit(store.postalCode.value)
      && NormalizePostalCode(store.postalCode.value) == NormalizePostalCode(userPostalCode)
  {
    DigitCodeIsNotBlank(userPostalCode);
    if store.postalCode.Some? && HasDigit(store.postalCode.value) {
      DigitCodeIsNotBlank(store.postalCode.value);
    }
  }

  /** The location test is symmetric in the user's code and the store's code. */
  lemma UserPostalCodeMatchSymmetric(store: Store, userPostalCode: string, storePostalCode: string)
    requires store.postalCode == Some(storePostalCode)
    requires HasDigit(userPostalCode) && HasDigit(storePostalCode)
    ensures MatchesUserPostalCode(store, Some(userPostalCode))
        == MatchesUserPostalCode(store.(postalCode := Some(userPostalCode)), Some(storePostalCode))
  {
    UserPostalCodeMatchIff(store, userPostalCode);
    UserPostalCodeMatchIff(store.(postalCode := Some(userPostalCode)), storePostalCode);
  }
}
