/**
 * filterStores: the order-preserving filter that combines province
 * validity, the location test, the category test and the text matchers.
 */
module StoreFilter {
  import opened Wrappers
  import opened JsStrings
  import opened Stores
  import opened ProvinceLookup
  import opened Matchers

  /**
   * The callback given to `stores.filter`, in source order: an invalid
   * province excludes; an active location filter must pass; with a blank
   * term only the category decides; otherwise some text matcher and the
   * category must both hold. `table` is the reference data the province
   * matcher scans.
   */
  function Keep(store: Store, searchTerm: string, selectedCategory: Option<string>,
                provinceMap: ProvinceMap, userPostalCode: Option<string>, table: seq<ProvinceData>): (r: bool)
    ensures r ==> IsValidProvince(store.province, provinceMap)
    ensures r && Truthy(selectedCategory) ==> store.category == selectedCategory
    ensures r && Truthy(userPostalCode) && Trim(userPostalCode.value) != "" ==> Truthy(store.postalCode)
    ensures !Truthy(selectedCategory) && !Truthy(userPostalCode) && NormalizedTerm(searchTerm) == ""
        ==> (r <==> IsValidProvince(store.province, provinceMap))
  {
    && IsValidProvince(store.province, provinceMap)
    && (!Truthy(userPostalCode) || MatchesUserPostalCode(store, userPostalCode))
    && (if NormalizedTerm(searchTerm) == "" then MatchesCategory(store, selectedCategory)
        else
          && (|| MatchesStoreName(store, searchTerm)
              || ProvinceTextMatch(store, searchTerm, provinceMap, table)
              || MatchesCity(store, searchTerm)
              || MatchesPostalCode(store, searchTerm))
          && MatchesCategory(store, selectedCategory))
  }

  /** `a` is `b` with some elements dropped, the rest in their original order. */
  predicate IsSubsequence(a: seq<Store>, b: seq<Store>)
    decreases |b|
  {
    if a == [] then true
    else if b == [] then false
    else (a[0] == b[0] && IsSubsequence(a[1..], b[1..])) || IsSubsequence(a, b[1..])
  }

  /**
   * filterStores: the stores that Keep accepts, as a subsequence of the
   * input; a store is in the result exactly when it is in the input and
   * accepted.
   */
  function FilterStores(stores: seq<Store>, searchTerm: string, selectedCategory: Option<string>,
                        provinceMap: ProvinceMap, userPostalCode: Option<string>,
                        table: seq<ProvinceData>): (r: seq<Store>)
    ensures |r| <= |stores|
    ensures IsSubsequence(r, stores)
    ensures forall i :: 0 <= i < |r| ==>
      Keep(r[i], searchTerm, selectedCategory, provinceMap, userPostalCode, table)
    ensures forall s :: s in r <==>
      s in stores && Keep(s, searchTerm, selectedCategory, provinceMap, userPostalCode, table)
  {
    if stores == [] then []
    else
      var rest := FilterStores(stores[1..], searchTerm, selectedCategory, provinceMap, userPostalCode, table);
      if Keep(stores[0], searchTerm, selectedCategory, provinceMap, userPostalCode, table) then
        assert ([stores[0]] + rest)[1..] == rest;
        [stores[0]] + rest
      else
        assert rest != [] ==> IsSubsequence(rest, stores[1..]);
        rest
  }

  /** Filtering twice with the same arguments is filtering once. */
  lemma {:induction false} FilterStoresIdempotent(stores: seq<Store>, searchTerm: string,
                                                  selectedCategory: Option<string>, provinceMap: ProvinceMap,
                                                  userPostalCode: Option<string>, table: seq<ProvinceData>)
    ensures var once := FilterStores(stores, searchTerm, selectedCategory, provinceMap, userPostalCode, table);
            FilterStores(once, searchTerm, selectedCategory, provinceMap, userPostalCode, table) == once
  {
    if stores != [] {
      FilterStoresIdempotent(stores[1..], searchTerm, selectedCategory, provinceMap, userPostalCode, table);
      var rest := FilterStores(stores[1..], searchTerm, selectedCategory, provinceMap, userPostalCode, table);
      if Keep(stores[0], searchTerm, selectedCategory, provinceMap, userPostalCode, table) {
        assert ([stores[0]] + rest)[1..] == rest;
      }
    }
  }

  /** Each store is judged on its own: filtering a concatenation concatenates the results. */
  lemma {:induction false} FilterStoresAppend(a: seq<Store>, b: seq<Store>, searchTerm: string,
                                              selectedCategory: Option<string>, provinceMap: ProvinceMap,
                                              userPostalCode: Option<string>, table: seq<ProvinceData>)
    ensures FilterStores(a + b, searchTerm, selectedCategory, provinceMap, userPostalCode, table)
         == FilterStores(a, searchTerm, selectedCategory, provinceMap, userPostalCode, table)
          + FilterStores(b, searchTerm, selectedCategory, provinceMap, userPostalCode, table)
  {
    if a == [] {
      assert a + b == b;
    } else {
      assert (a + b)[1..] == a[1..] + b;
      FilterStoresAppend(a[1..], b, searchTerm, selectedCategory, provinceMap, userPostalCode, table);
    }
  }

  /** A store whose province fails the validity test is never shown. */
  lemma InvalidProvinceExcluded(stores: seq<Store>, store: Store, searchTerm: string,
                                selectedCategory: Option<string>, provinceMap: ProvinceMap,
                                userPostalCode: Option<string>, table: seq<ProvinceData>)
    requires !IsValidProvince(store.province, provinceMap)
    ensures store !in FilterStores(stores, searchTerm, selectedCategory, provinceMap, userPostalCode, table)
  {
  }

  /**
   * With a blank search term, a store is shown exactly when its province is
   * valid, it passes the location test (when a user code is given) and it
   * passes the category test.
   */
  lemma BlankTermGating(stores: seq<Store>, store: Store, searchTerm: string,
                        selectedCategory: Option<string>, provinceMap: ProvinceMap,
                        userPostalCode: Option<string>, table: seq<ProvinceData>)
    requires NormalizedTerm(searchTerm) == ""
    ensures store in FilterStores(stores, searchTerm, selectedCategory, provinceMap, userPostalCode, table)
        <==> && store in stores
             && IsValidProvince(store.province, provinceMap)
             && (!Truthy(userPostalCode) || MatchesUserPostalCode(store, userPostalCode))
             && MatchesCategory(store, selectedCategory)
  {
  }

  /**
   * With a non-empty category selected, every store shown carries exactly
   * that category: the comparison is strict, so "Bar" is not shown under "bar".
   */
  lemma SelectedCategoryIsExact(stores: seq<Store>, store: Store, searchTerm: string,
                                category: string, provinceMap: ProvinceMap,
                                userPostalCode: Option<string>, table: seq<ProvinceData>)
    requires category != ""
    requires store in FilterStores(stores, searchTerm, Some(category), provinceMap, userPostalCode, table)
    ensures store.category == Some(category)
  {
  }

  /**
   * Whatever the term, a valid store that passes the location and category
   * tests is shown when its name literally contains the term.
   */
  lemma NameOccurrenceShown(stores: seq<Store>, store: Store, searchTerm: string,
                            selectedCategory: Option<string>, provinceMap: ProvinceMap,
                            userPostalCode: Option<string>, table: seq<ProvinceData>)
    requires store in stores && Includes(store.name, searchTerm)
    requires IsValidProvince(store.province, provinceMap)
    requires !Truthy(userPostalCode) || MatchesUserPostalCode(store, userPostalCode)
    requires MatchesCategory(store, selectedCategory)
    ensures store in FilterStores(stores, searchTerm, selectedCategory, provinceMap, userPostalCode, table)
  {
    TextMatchersFindLiteralOccurrences(store, searchTerm);
  }
}
