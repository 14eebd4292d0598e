/** Worked scenarios for the normaliser and the filter, over a two-record reference table. */
module Examples {
  import opened Wrappers
  import opened JsStrings
  import opened Stores
  import opened ProvinceLookup
  import opened Matchers
  import opened StoreFilter

  function Table(): seq<ProvinceData> {
    [ProvinceData("Roma", "RM", "Lazio"), ProvinceData("Milano", "MI", "Lombardia")]
  }

  function BarRoma(): Store {
    Store(1, "Bar Roma", None, Some("roma"), Some("RM"), Some("00100"),
          None, None, None, Some("bar"), None, None)
  }

  /** A canonical code is left as it is. */
  lemma NormalizeCanonical()
    ensures NormalizePostalCode("00100") == Some("00100")
  {
    NormalizeIdempotent("00100");
  }

  /** Separators are dropped. */
  lemma NormalizeSeparators()
    ensures NormalizePostalCode("00-100 ") == Some("00100")
  {
    assert Digits("00-100 ") == "00100";
    NormalizeCanonical();
    NormalizeSeesOnlyDigits("00-100 ", "00100");
  }

  /** A code without digits has no canonical form. */
  lemma NormalizeNoDigits()
    ensures NormalizePostalCode("abc") == None
  {
    assert Digits("abc") == "";
    DigitsEmptyIff("abc");
  }

  /** A seven-digit code keeps its first five digits (pad, then truncate). */
  lemma NormalizeTruncates()
    ensures NormalizePostalCode("1234567") == Some("12345")
  {
    assert AllDigits("1234567");
    DigitsOfDigits("1234567");
    assert "1234567"[..5] == "12345";
  }

  /** A short code is left-padded with zeros. */
  lemma NormalizePads()
    ensures NormalizePostalCode("123") == Some("00123")
  {
    assert AllDigits("123");
    DigitsOfDigits("123");
    assert seq(2, _ => '0') + "123" == "00123";
  }

  /** The lookup built from the two records has exactly their keys. */
  lemma TableKeys()
    ensures ProvinceMapOf(Table()).Keys == KeysOf(Table()[0]) + KeysOf(Table()[1])
  {
    assert Table()[..1][..0] == [];
    assert Table()[..1] == [Table()[0]];
  }

  lemma RecordKeys()
    ensures KeysOf(Table()[0]) == {"RM", "ROMA", "roma"}
    ensures KeysOf(Table()[1]) == {"MI", "MILANO", "milano"}
  {
    assert Upper("RM") == "RM" && Upper("MI") == "MI";
    assert Upper("Roma") == "ROMA" && Lower("Roma") == "roma";
    assert Upper("Milano") == "MILANO" && Lower("Milano") == "milano";
  }

  lemma TableFacts()
    ensures Upper("RM") == "RM" && Trim("RM") == "RM"
    ensures "RM" in ProvinceMapOf(Table())
    ensures "ZZ" !in ProvinceMapOf(Table())
  {
    assert Upper("RM") == "RM";
    TableKeys();
    RecordKeys();
  }

  /** A store named "Bar Roma" is found by the term "roma" with no other filter. */
  lemma ScenarioNameMatch()
    ensures FilterStores([BarRoma()], "roma", None, ProvinceMapOf(Table()), None, Table()) == [BarRoma()]
  {
    TableFacts();
    assert Lower("roma") == "roma" && Trim("roma") == "roma";
    assert Lower("Bar Roma") == "bar roma";
    assert InfixAt("bar roma", "roma", 4);
  }

  /** A category filter the store does not carry excludes it. */
  lemma ScenarioCategoryMismatch()
    ensures FilterStores([BarRoma()], "", Some("pizzeria"), ProvinceMapOf(Table()), None, Table()) == []
  {
  }

  /** The location filter keeps the store for its own postal code... */
  lemma ScenarioLocationMatch()
    ensures FilterStores([BarRoma()], "", None, ProvinceMapOf(Table()), Some("00100"), Table()) == [BarRoma()]
  {
    TableFacts();
    NormalizeCanonical();
    assert IsDigit("00100"[0]);
    UserPostalCodeMatchIff(BarRoma(), "00100");
  }

  /** ...and drops it for another one. */
  lemma ScenarioLocationMismatch()
    ensures FilterStores([BarRoma()], "", None, ProvinceMapOf(Table()), Some("20100"), Table()) == []
  {
    NormalizeCanonical();
    NormalizeIdempotent("20100");
    assert IsDigit("20100"[0]);
    UserPostalCodeMatchIff(BarRoma(), "20100");
    assert !MatchesUserPostalCode(BarRoma(), Some("20100"));
  }

  /** A store whose province is not in the table is never shown. */
  lemma ScenarioUnknownProvince(searchTerm: string, selectedCategory: Option<string>, userPostalCode: Option<string>)
    ensures FilterStores([BarRoma().(province := Some("ZZ"))], searchTerm, selectedCategory,
                         ProvinceMapOf(Table()), userPostalCode, Table()) == []
  {
    TableFacts();
    assert Upper("ZZ") == "ZZ" && Trim("ZZ") == "ZZ";
  }

  /** No record of the table supports a match of the region name "Lombardia". */
  lemma NoRecordSupportsRegionName(storeProvince: string, j: nat)
    requires j < |Table()|
    ensures !SupportsProvinceMatch(Table()[j], storeProvince, "Lombardia")
  {
    assert Upper("Lombardia") == "LOMBARDIA" && Lower("Lombardia") == "lombardia";
    assert Trim("LOMBARDIA") == "LOMBARDIA" && Trim("lombardia") == "lombardia";
    assert Lower("Roma") == "roma" && Lower("Milano") == "milano";
    assert Upper("Roma") == "ROMA" && Upper("Milano") == "MILANO";
    assert Upper("RM") == "RM" && Upper("MI") == "MI";
    assert !Includes(Lower(Table()[j].nome), "lombardia");
  }

  /** A region name is neither a province code nor part of a province name: it matches no store. */
  lemma ScenarioRegionNameNoMatch(store: Store)
    ensures !ProvinceTextMatch(store, "Lombardia", ProvinceMapOf(Table()), Table())
  {
    if ProvinceTextMatch(store, "Lombardia", ProvinceMapOf(Table()), Table()) {
      ProvinceTextMatchSound(store, "Lombardia", Table());
      var j :| 0 <= j < |Table()| && SupportsProvinceMatch(Table()[j], store.province.value, "Lombardia");
      NoRecordSupportsRegionName(store.province.value, j);
    }
  }

  /** Category matching is case-sensitive: a store filed under "Bar" is hidden under "bar". */
  lemma ScenarioCategoryCase()
    ensures FilterStores([BarRoma().(category := Some("Bar"))], "", Some("bar"),
                         ProvinceMapOf(Table()), None, Table()) == []
  {
  }
}
