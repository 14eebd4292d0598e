/**
 * The province reference table and the lookup built from it, and the
 * validity test every store's province code goes through.
 *
 * The table itself (a JSON file of Italian provinces) is not part of this
 * model: every operation receives it as a parameter.
 */
module ProvinceLookup {
  import opened Wrappers
  import opened JsStrings

  /** One reference record: full name, two-letter code, parent region. */
  datatype ProvinceData = ProvinceData(nome: string, sigla: string, regione: string)

  type ProvinceMap = map<string, ProvinceData>

  /** The three keys one record is registered under. */
  function KeysOf(p: ProvinceData): set<string> {
    {Upper(p.sigla), Upper(p.nome), Lower(p.nome)}
  }

  /** The three `map.set` calls made for one record, in source order. */
  function Register(m: ProvinceMap, p: ProvinceData): (r: ProvinceMap)
    ensures r.Keys == m.Keys + KeysOf(p)
    ensures forall k :: k in KeysOf(p) ==> r[k] == p
    ensures forall k :: k in m && k !in KeysOf(p) ==> r[k] == m[k]
    ensures r.Values <= m.Values + {p}
  {
    m[Upper(p.sigla) := p][Upper(p.nome) := p][Lower(p.nome) := p]
  }

  /** The lookup as the `forEach` leaves it: a left fold of `Register` over the table. */
  function ProvinceMapOf(table: seq<ProvinceData>): (r: ProvinceMap)
    ensures r.Values <= set p | p in table
    decreases |table|
  {
    if table == [] then map[]
    else
      var prefix := table[..|table| - 1];
      assert forall p :: p in prefix ==> p in table;
      Register(ProvinceMapOf(prefix), table[|table| - 1])
  }

  /** createProvinceMap: a fresh map, then three insertions per record in table order. */
  method CreateProvinceMap(table: seq<ProvinceData>) returns (m: ProvinceMap)
    ensures m == ProvinceMapOf(table)
  {
    m := map[];
    var i := 0;
    while i < |table|
      invariant 0 <= i <= |table|
      invariant m == ProvinceMapOf(table[..i])
    {
      var province := table[i];
      m := m[Upper(province.sigla) := province];
      m := m[Upper(province.nome) := province];
      m := m[Lower(province.nome) := province];
      assert table[..i + 1][..i] == table[..i];
      i := i + 1;
    }
    assert table[..|table|] == table;
  }

  /** The lookup's keys are exactly the three keys of every record of the table. */
  lemma {:induction false} ProvinceMapKeys(table: seq<ProvinceData>, k: string)
    ensures k in ProvinceMapOf(table) <==> exists j :: 0 <= j < |table| && k in KeysOf(table[j])
  {
    if table != [] {
      var prefix := table[..|table| - 1];
      ProvinceMapKeys(prefix, k);
      if exists j :: 0 <= j < |table| && k in KeysOf(table[j]) {
        var j :| 0 <= j < |table| && k in KeysOf(table[j]);
        if j < |table| - 1 {
          assert prefix[j] == table[j];
        }
      }
      if exists j :: 0 <= j < |prefix| && k in KeysOf(prefix[j]) {
        var j :| 0 <= j < |prefix| && k in KeysOf(prefix[j]);
        assert table[j] == prefix[j];
      }
    }
  }

  /**
   * Last write wins: a key maps to the last record of the table that
   * produces it.
   */
  lemma {:induction false} ProvinceMapLastWriteWins(table: seq<ProvinceData>, j: nat, k: string)
    requires j < |table| && k in KeysOf(table[j])
    requires forall j' :: j < j' < |table| ==> k !in KeysOf(table[j'])
    ensures k in ProvinceMapOf(table) && ProvinceMapOf(table)[k] == table[j]
  {
    if j < |table| - 1 {
      var prefix := table[..|table| - 1];
      assert prefix[j] == table[j];
      forall j' | j < j' < |prefix| ensures k !in KeysOf(prefix[j']) {
        assert prefix[j'] == table[j'];
      }
      ProvinceMapLastWriteWins(prefix, j, k);
    }
  }

  /** Every value in the lookup is one of the table's records. */
  lemma {:induction false} ProvinceMapValuesFromTable(table: seq<ProvinceData>, k: string)
    requires k in ProvinceMapOf(table)
    ensures exists j :: 0 <= j < |table| && k in KeysOf(table[j]) && ProvinceMapOf(table)[k] == table[j]
  {
    var prefix := table[..|table| - 1];
    var last := table[|table| - 1];
    if k !in KeysOf(last) {
      ProvinceMapValuesFromTable(prefix, k);
      var j :| 0 <= j < |prefix| && k in KeysOf(prefix[j]) && ProvinceMapOf(prefix)[k] == prefix[j];
      assert table[j] == prefix[j];
    }
  }

  /**
   * isValidProvince: an absent or empty province is valid whatever the map
   * holds; otherwise the upper-cased, trimmed code must be a key of the map.
   */
  predicate IsValidProvince(province: Option<string>, provinceMap: ProvinceMap) {
    if !Truthy(province) then true
    else Trim(Upper(province.value)) in provinceMap
  }

  /**
   * Against the lookup built from a table, a present province is valid
   * exactly when its normalised form is the code, the upper-case name or the
   * lower-case name of some record: a full province name counts as valid too.
   */
  lemma ValidProvinceAgainstTable(table: seq<ProvinceData>, province: string)
    requires province != ""
    ensures IsValidProvince(Some(province), ProvinceMapOf(table))
        <==> exists j :: 0 <= j < |table| && Trim(Upper(province)) in KeysOf(table[j])
  {
    ProvinceMapKeys(table, Trim(Upper(province)));
  }

  /** An absent or empty province is valid, whatever the map holds. */
  lemma AbsentProvinceValid(province: Option<string>, provinceMap: ProvinceMap)
    requires !Truthy(province)
    ensures IsValidProvince(province, provinceMap)
  {
  }

  /** Validity does not depend on the letter case of the stored code. */
  lemma ValidProvinceIgnoresCase(province: string, provinceMap: ProvinceMap)
    ensures IsValidProvince(Some(Lower(province)), provinceMap) == IsValidProvince(Some(province), provinceMap)
  {
    UpperOfLower(province);
  }
}
