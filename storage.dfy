/** The two tables as values, and what each SQL statement of the stores does to them.
    Both store generations (db.go and the db package) issue the same statements; they
    differ only in how they validate their arguments and pick the language. */
module Storage {
  import opened Base
  import opened Schema
  import Ascii

  /** A country_info row: its per-language cells by column name; a column missing from
      the map holds NULL. The key is the map key of the table. */
  datatype CountryRow = CountryRow(cells: map<string, string>)

  /** A city_info row: the country id and the per-language cells. */
  datatype CityRow = CityRow(countryId: string, cells: map<string, string>)

  type Countries = map<string, CountryRow>
  type Cities = map<string, CityRow>

  /** What a NullString scan yields: the text, or "" for NULL. */
  function Text(cells: map<string, string>, column: string): (v: string)
    ensures column in cells ==> v == cells[column]
    ensures v != "" ==> column in cells
  {
    if column in cells then cells[column] else ""
  }

  /** (existed, name, error) of a country lookup. */
  datatype NameResult = NameResult(existed: bool, name: string, err: Option<Error>)

  /** (existed, name, address, error) of a city lookup. */
  datatype CityResult = CityResult(existed: bool, name: string, address: string, err: Option<Error>)

  /** checkCountryID: only the length is checked. */
  function CheckCountryId(id: string): (r: Option<Error>)
    ensures r == None <==> |id| == 2
    ensures r != None ==> r == Some(ErrCountryID)
  {
    if |id| != 2 then Some(ErrCountryID) else None
  }

  /** Every stored country id has two characters and no lowercase letter. */
  ghost predicate CountryKeysNormal(countries: Countries)
  {
    forall id :: id in countries ==> |id| == 2 && Ascii.Upper(id) == id
  }

  /** Rows exist only in tables that exist. */
  ghost predicate RowsInTables(s: Schema, countries: Countries, cities: Cities)
  {
    && (countries != map[] ==> HasColumns(s, CountryTable, CountryKeys))
    && (cities != map[] ==> HasColumns(s, CityTable, CityKeys))
  }

  /** INSERT INTO country_info(id, name_<lang>) VALUES($1, $2), with the uniqueness
      violation on the key reported as ErrCountryExisted. */
  function InsertCountry(s: Schema, t: Countries, id: string, lang: string, name: string): (r: (Countries, Option<Error>))
    ensures r.1 == None <==> HasColumns(s, CountryTable, CountryKeys + {NameColumn(lang)}) && id !in t
    ensures r.1 == Some(ErrCountryExisted) <==> HasColumns(s, CountryTable, CountryKeys + {NameColumn(lang)}) && id in t
    ensures r.1 != None ==> r.0 == t && r.1 in {Some(ErrUndefinedColumn), Some(ErrCountryExisted)}
    ensures r.1 == None ==> r.0.Keys == t.Keys + {id} && r.0[id].cells == map[NameColumn(lang) := name]
    ensures forall k :: k in t ==> k in r.0 && r.0[k] == t[k]
  {
    if !HasColumns(s, CountryTable, CountryKeys + {NameColumn(lang)}) then (t, Some(ErrUndefinedColumn))
    else if id in t then (t, Some(ErrCountryExisted))
    else (t[id := CountryRow(map[NameColumn(lang) := name])], None)
  }

  /** SELECT id, name_<lang> FROM country_info WHERE id=$1: no row is (false, "", nil). */
  function SelectCountry(s: Schema, t: Countries, id: string, lang: string): (r: NameResult)
    ensures r.err.None? <==> HasColumns(s, CountryTable, CountryKeys + {NameColumn(lang)})
    ensures r.err.Some? ==> r == NameResult(false, "", Some(ErrUndefinedColumn))
    ensures r.existed <==> r.err.None? && id in t
    ensures r.existed ==> r.name == Text(t[id].cells, NameColumn(lang))
    ensures !r.existed ==> r.name == ""
  {
    if !HasColumns(s, CountryTable, CountryKeys + {NameColumn(lang)}) then NameResult(false, "", Some(ErrUndefinedColumn))
    else if id !in t then NameResult(false, "", None)
    else NameResult(true, Text(t[id].cells, NameColumn(lang)), None)
  }

  /** UPDATE country_info SET name_<lang>=$1 WHERE id=$2: no matching row is no change and
      no error. */
  function UpdateCountry(s: Schema, t: Countries, id: string, lang: string, name: string): (r: (Countries, Option<Error>))
    ensures r.1 == None <==> HasColumns(s, CountryTable, CountryKeys + {NameColumn(lang)})
    ensures r.1 != None ==> r == (t, Some(ErrUndefinedColumn))
    ensures r.0.Keys == t.Keys
    ensures forall k :: k in t && k != id ==> r.0[k] == t[k]
    ensures r.1 == None && id in t ==> r.0[id].cells == t[id].cells[NameColumn(lang) := name]
  {
    if !HasColumns(s, CountryTable, CountryKeys + {NameColumn(lang)}) then (t, Some(ErrUndefinedColumn))
    else if id !in t then (t, None)
    else (t[id := CountryRow(t[id].cells[NameColumn(lang) := name])], None)
  }

  /** ids and names are what SELECT id, name_<lang> FROM country_info yields, one entry
      per row, in some row order. */
  ghost predicate CountriesListed(t: Countries, lang: string, ids: seq<string>, names: seq<string>)
  {
    && |ids| == |names|
    && (forall i, j :: 0 <= i < j < |ids| ==> ids[i] != ids[j])
    && (forall id :: id in t <==> id in ids)
    && forall i :: 0 <= i < |ids| ==> ids[i] in t && names[i] == Text(t[ids[i]].cells, NameColumn(lang))
  }

  /** INSERT INTO city_info(placeid, country_id) VALUES($1, $2), with the uniqueness
      violation swallowed: a placeid already present is no change and no error. */
  function InsertCity(s: Schema, t: Cities, placeid: string, country: string): (r: (Cities, Option<Error>))
    ensures r.1 == None <==> HasColumns(s, CityTable, CityKeys)
    ensures r.1 != None ==> r == (t, Some(ErrUndefinedColumn))
    ensures r.1 == None ==> r.0.Keys == t.Keys + {placeid}
    ensures forall k :: k in t ==> k in r.0 && r.0[k] == t[k]
    ensures r.1 == None && placeid !in t ==> r.0[placeid] == CityRow(country, map[])
  {
    if !HasColumns(s, CityTable, CityKeys) then (t, Some(ErrUndefinedColumn))
    else if placeid in t then (t, None)
    else (t[placeid := CityRow(country, map[])], None)
  }

  /** The columns a city statement for lang names. */
  function CityColumns(lang: string): set<string>
  {
    CityKeys + {NameColumn(lang), AddressColumn(lang)}
  }

  /** SELECT name_<lang>, address_<lang> FROM city_info WHERE placeid=$1. */
  function SelectCity(s: Schema, t: Cities, placeid: string, lang: string): (r: CityResult)
    ensures r.err.None? <==> HasColumns(s, CityTable, CityColumns(lang))
    ensures r.err.Some? ==> r == CityResult(false, "", "", Some(ErrUndefinedColumn))
    ensures r.existed <==> r.err.None? && placeid in t
    ensures r.existed ==> r.name == Text(t[placeid].cells, NameColumn(lang)) &&
                          r.address == Text(t[placeid].cells, AddressColumn(lang))
    ensures !r.existed ==> r.name == "" && r.address == ""
  {
    if !HasColumns(s, CityTable, CityColumns(lang)) then CityResult(false, "", "", Some(ErrUndefinedColumn))
    else if placeid !in t then CityResult(false, "", "", None)
    else CityResult(true, Text(t[placeid].cells, NameColumn(lang)), Text(t[placeid].cells, AddressColumn(lang)), None)
  }

  /** UPDATE city_info SET name_<lang>=$1, address_<lang>=$2 WHERE placeid=$3. */
  function UpdateCity(s: Schema, t: Cities, placeid: string, lang: string, name: string, address: string): (r: (Cities, Option<Error>))
    ensures r.1 == None <==> HasColumns(s, CityTable, CityColumns(lang))
    ensures r.1 != None ==> r == (t, Some(ErrUndefinedColumn))
    ensures r.0.Keys == t.Keys
    ensures forall k :: k in t && k != placeid ==> r.0[k] == t[k]
    ensures r.1 == None && placeid in t ==>
              r.0[placeid].countryId == t[placeid].countryId &&
              r.0[placeid].cells == t[placeid].cells[NameColumn(lang) := name][AddressColumn(lang) := address]
  {
    if !HasColumns(s, CityTable, CityColumns(lang)) then (t, Some(ErrUndefinedColumn))
    else if placeid !in t then (t, None)
    else (t[placeid := CityRow(t[placeid].countryId,
                               t[placeid].cells[NameColumn(lang) := name][AddressColumn(lang) := address])], None)
  }

  /** A country just added reads back with its name in the language it was added in, and
      as existing with an empty name in every other language the table has a column for. */
  lemma AddedCountryReads(s: Schema, t: Countries, id: string, lang: string, name: string)
    requires InsertCountry(s, t, id, lang, name).1 == None
    ensures var t' := InsertCountry(s, t, id, lang, name).0;
      && SelectCountry(s, t', id, lang) == NameResult(true, name, None)
      && forall other :: other != lang && HasColumns(s, CountryTable, {NameColumn(other)}) ==>
           SelectCountry(s, t', id, other) == NameResult(true, "", None)
  {
    var t' := InsertCountry(s, t, id, lang, name).0;
    forall other | other != lang && HasColumns(s, CountryTable, {NameColumn(other)})
      ensures SelectCountry(s, t', id, other) == NameResult(true, "", None)
    {
      ColumnNamesDistinct(other, lang);
      assert NameColumn(other) !in t'[id].cells;
    }
  }

  /** Once a country is stored, adding the same id again, in any language and with any
      name, fails with ErrCountryExisted and changes nothing. */
  lemma SecondAddCountryFails(s: Schema, t: Countries, id: string, lang: string, name: string,
                              lang': string, name': string)
    requires InsertCountry(s, t, id, lang, name).1 == None
    requires HasColumns(s, CountryTable, {NameColumn(lang')})
    ensures var t' := InsertCountry(s, t, id, lang, name).0;
      InsertCountry(s, t', id, lang', name') == (t', Some(ErrCountryExisted))
  {
  }

  /** An update changes exactly one cell: the one of that id and language, and only when
      the id is stored; every other lookup reads as before. */
  lemma UpdatedCountryReads(s: Schema, t: Countries, id: string, lang: string, name: string,
                            id': string, lang': string)
    requires UpdateCountry(s, t, id, lang, name).1 == None
    ensures var t' := UpdateCountry(s, t, id, lang, name).0;
      SelectCountry(s, t', id', lang') ==
        if id' == id && lang' == lang && id in t then NameResult(true, name, None)
        else SelectCountry(s, t, id', lang')
  {
    ColumnNamesDistinct(lang, lang');
  }

  /** Adding a city twice is the same as adding it once. */
  lemma InsertCityIdempotent(s: Schema, t: Cities, placeid: string, country: string, country': string)
    ensures var (t', err) := InsertCity(s, t, placeid, country);
      InsertCity(s, t', placeid, country') == (t', err)
  {
  }

  /** A city just added exists in every language with an empty name and address. */
  lemma AddedCityReads(s: Schema, t: Cities, placeid: string, country: string, lang: string)
    requires placeid !in t
    requires HasColumns(s, CityTable, CityColumns(lang))
    ensures SelectCity(s, InsertCity(s, t, placeid, country).0, placeid, lang) == CityResult(true, "", "", None)
  {
  }

  /** An update changes exactly that placeid's name/address pair for that language. */
  lemma UpdatedCityReads(s: Schema, t: Cities, placeid: string, lang: string, name: string, address: string,
                         placeid': string, lang': string)
    requires UpdateCity(s, t, placeid, lang, name, address).1 == None
    ensures var t' := UpdateCity(s, t, placeid, lang, name, address).0;
      SelectCity(s, t', placeid', lang') ==
        if placeid' == placeid && lang' == lang && placeid in t then CityResult(true, name, address, None)
        else SelectCity(s, t, placeid', lang')
  {
    ColumnNamesDistinct(lang, lang');
    ColumnNamesDistinct(lang', lang);
  }

  /** Adding a country under its uppercased id keeps every stored id normal. */
  lemma InsertKeepsKeysNormal(s: Schema, t: Countries, id: string, lang: string, name: string)
    requires CountryKeysNormal(t)
    requires |id| == 2
    ensures CountryKeysNormal(InsertCountry(s, t, Ascii.Upper(id), lang, name).0)
  {
    Ascii.UpperIdempotent(id);
  }

  /** An update with an id holding a lowercase letter never matches a stored row, so it
      changes nothing and reports no error. */
  lemma LowercaseUpdateMissesRow(s: Schema, t: Countries, id: string, lang: string, name: string)
    requires CountryKeysNormal(t)
    requires Ascii.Upper(id) != id
    requires HasColumns(s, CountryTable, CountryKeys + {NameColumn(lang)})
    ensures UpdateCountry(s, t, id, lang, name) == (t, None)
  {
  }
}
